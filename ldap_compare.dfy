/**
 * The comparison rules of the LDAP filter engine: how a property value
 * (the left side) is compared with the literal of a filter item (the right
 * side) under `=`, `>=`, `<=` and `~=`, the non-backtracking substring
 * matcher, and the Levenshtein distance behind string `~=`.
 */
module LdapCompare {
  import opened Common

  /**
   * The values on the evaluator's stack: String, Integer, Character,
   * Boolean, a `String[]`, an array of any other component type
   * (primitive arrays are converted to their wrapper objects first), a
   * Collection, the arrays and the collection holding their elements in
   * iteration order, and the marker the evaluator pushes for a missing
   * attribute.
   */
  datatype Value =
    | Str(s: string)
    | Int(i: int32)
    | Char(c: char)
    | Bool(b: bool)
    | StrArray(strs: seq<string>)
    | Array(elems: seq<Value>)
    | Collection(elems: seq<Value>)
    | Unknown

  /** The four comparison operators (EQUAL, GREATER_EQUAL, LESS_EQUAL, APPROX). */
  datatype CmpOp = Equal | GreaterEqual | LessEqual | Approx

  /**
   * Why an operator fails. All but ClassCast are EvaluationExceptions
   * (AttributeNotFound is its subclass); ClassCast stands for the
   * ClassCastException a cast in an operator raises, which is not one.
   * An unsupported-type exception records whether the class it names is
   * the missing-attribute marker's.
   */
  datatype EvalError =
    | TooFewOperands(op: string)
    | UnsupportedType(op: string, ofMarker: bool)
    | NotConstructible(rhs: string)
    | ApproxUnsupported
    | AttributeNotFound(attr: string)
    | ClassCast

  /** APPROX_CRITERIA: percentage of difference still considered approximate. */
  const APPROX_CRITERIA: int := 10

  // ---------------------------------------------------------------------
  // String.compareTo
  // ---------------------------------------------------------------------

  /** String.compareTo: first differing character, else the length difference. */
  function JavaCompareTo(a: string, b: string): (r: int)
    ensures (r == 0) <==> (a == b)
    decreases |a|
  {
    if a == [] || b == [] then |a| - |b|
    else if a[0] != b[0] then a[0] as int - b[0] as int
    else JavaCompareTo(a[1..], b[1..])
  }

  // ---------------------------------------------------------------------
  // Building the right side: new Integer(rhs), new Boolean(rhs)
  // ---------------------------------------------------------------------

  predicate IsDigit(c: char) { '0' <= c <= '9' }

  predicate AllDigits(ds: string)
  {
    forall k :: 0 <= k < |ds| ==> IsDigit(ds[k])
  }

  function DigitsValue(ds: string): nat
    requires AllDigits(ds)
    decreases |ds|
  {
    if ds == [] then 0
    else 10 * DigitsValue(ds[..|ds| - 1]) + (ds[|ds| - 1] as int - '0' as int)
  }

  /**
   * Integer.parseInt(rhs, 10) as the String constructor of Integer uses it
   * on the Java releases of this framework's time: an optional minus sign,
   * at least one decimal digit, and a value that fits in an int; anything
   * else, a leading plus sign included, is a NumberFormatException (None).
   */
  function ParseInt(rhs: string): (r: Option<int32>)
    ensures r.Some? ==> rhs != [] && (rhs[0] == '-' || IsDigit(rhs[0]))
  {
    if rhs == [] then None
    else
      var neg := rhs[0] == '-';
      var ds := if neg then rhs[1..] else rhs;
      if ds == [] || !AllDigits(ds) then None
      else
        var v := if neg then -(DigitsValue(ds) as int) else DigitsValue(ds);
        if INT_MIN <= v <= INT_MAX then Some(v) else None
  }

  /** The decimal digits of a natural number, most significant first. */
  function Digits(n: nat): (ds: string)
    ensures ds != [] && AllDigits(ds)
    decreases n
  {
    if n < 10 then ['0' + n as char] else Digits(n / 10) + ['0' + (n % 10) as char]
  }

  lemma {:induction false} DigitsValueOfDigits(n: nat)
    ensures DigitsValue(Digits(n)) == n
    decreases n
  {
    if n >= 10 {
      DigitsValueOfDigits(n / 10);
      var ds := Digits(n);
      assert ds[..|ds| - 1] == Digits(n / 10);
    }
  }

  /** Integer.toString for an int. */
  function IntToString(i: int32): string
  {
    if i < 0 then "-" + Digits(-(i as int)) else Digits(i)
  }

  /** The right side of a comparison with an Integer reads back the printed int. */
  lemma ParseIntOfIntToString(i: int32)
    ensures ParseInt(IntToString(i)) == Some(i)
  {
    if i < 0 {
      ParseNegative(i);
    } else {
      ParseNonNegative(i);
    }
  }

  lemma ParseNegative(i: int32)
    requires i < 0
    ensures ParseInt(IntToString(i)) == Some(i)
  {
    var n := -(i as int);
    DigitsValueOfDigits(n);
    ParseMinusDigits(Digits(n));
  }

  /** A minus sign and digits parse to the negated value, when it fits. */
  lemma ParseMinusDigits(ds: string)
    requires ds != [] && AllDigits(ds) && INT_MIN <= -(DigitsValue(ds) as int)
    ensures ParseInt("-" + ds) == Some(-(DigitsValue(ds) as int) as int32)
  {
    var rhs := "-" + ds;
    assert rhs[0] == '-' && rhs[1..] == ds;
  }

  lemma ParseNonNegative(i: int32)
    requires i >= 0
    ensures ParseInt(IntToString(i)) == Some(i)
  {
    var ds := Digits(i as nat);
    DigitsValueOfDigits(i as nat);
    assert IntToString(i) == ds;
    assert IsDigit(ds[0]);
  }

  /** new Boolean(rhs): true exactly for "true" in any case. */
  predicate JavaParseBoolean(rhs: string)
  {
    EqualsIgnoreCase(rhs, "true")
  }

  // ---------------------------------------------------------------------
  // Levenshtein distance (getDistance) and Minimum
  // ---------------------------------------------------------------------

  /** Minimum(a, b, c). */
  function Minimum(a: int, b: int, c: int): (mi: int)
    ensures mi <= a && mi <= b && mi <= c
    ensures mi == a || mi == b || mi == c
  {
    var m1 := if b < a then b else a;
    if c < m1 then c else m1
  }

  /**
   * The edit distance between s and t (deletions, insertions and
   * substitutions), by the recurrence on the last characters.
   */
  function Dist(s: string, t: string): nat
    decreases |s| + |t|
  {
    if |s| == 0 then |t|
    else if |t| == 0 then |s|
    else
      Minimum(Dist(s[..|s| - 1], t) + 1,
              Dist(s, t[..|t| - 1]) + 1,
              Dist(s[..|s| - 1], t[..|t| - 1]) + (if s[|s| - 1] == t[|t| - 1] then 0 else 1))
  }

  /** getDistance: fills the (n+1) x (m+1) matrix row by row. */
  method GetDistance(s: string, t: string) returns (r: int)
    ensures r == Dist(s, t)
  {
    var n := |s|;
    var m := |t|;
    if n == 0 {
      return m;
    }
    if m == 0 {
      return n;
    }
    var d := new int[n + 1, m + 1];
    var i := 0;
    while i <= n
      invariant 0 <= i <= n + 1
      invariant forall a :: 0 <= a < i ==> d[a, 0] == a
    {
      d[i, 0] := i;
      i := i + 1;
    }
    var j := 0;
    while j <= m
      invariant 0 <= j <= m + 1
      invariant forall a :: 1 <= a <= n ==> d[a, 0] == a
      invariant forall b :: 0 <= b < j ==> d[0, b] == b
    {
      d[0, j] := j;
      j := j + 1;
    }
    i := 1;
    while i <= n
      invariant 1 <= i <= n + 1
      invariant forall a, b {:trigger d[a, b]} :: 0 <= a < i && 0 <= b <= m ==> d[a, b] == Dist(s[..a], t[..b])
      invariant forall a :: i <= a <= n ==> d[a, 0] == a
    {
      FillRow(d, s, t, i);
      i := i + 1;
    }
    assert s[..n] == s && t[..m] == t;
    return d[n, m];
  }

  /** Row i of the matrix from row i - 1, left to right. */
  method FillRow(d: array2<int>, s: string, t: string, i: nat)
    requires d.Length0 == |s| + 1 && d.Length1 == |t| + 1 && 1 <= i <= |s|
    requires forall b {:trigger d[i - 1, b]} :: 0 <= b <= |t| ==> d[i - 1, b] == Dist(s[..i - 1], t[..b])
    requires d[i, 0] == i
    modifies d
    ensures forall b {:trigger d[i, b]} :: 0 <= b <= |t| ==> d[i, b] == Dist(s[..i], t[..b])
    ensures forall a, b :: 0 <= a <= |s| && 0 <= b <= |t| && a != i ==> d[a, b] == old(d[a, b])
  {
    var si := s[i - 1];
    assert d[i, 0] == Dist(s[..i], t[..0]);
    var j := 1;
    while j <= |t|
      invariant 1 <= j <= |t| + 1
      invariant forall b {:trigger d[i, b]} :: 0 <= b < j ==> d[i, b] == Dist(s[..i], t[..b])
      invariant forall a, b :: 0 <= a <= |s| && 0 <= b <= |t| && a != i ==> d[a, b] == old(d[a, b])
    {
      var cost := if si == t[j - 1] then 0 else 1;
      var up, left, diag := d[i - 1, j], d[i, j - 1], d[i - 1, j - 1];
      DistStep(s, t, i, j, up, left, diag);
      d[i, j] := Minimum(up + 1, left + 1, diag + cost);
      j := j + 1;
    }
  }

  /** One cell of the matrix: the recurrence read on prefixes. */
  lemma DistStep(s: string, t: string, i: nat, j: nat, up: int, left: int, diag: int)
    requires 1 <= i <= |s| && 1 <= j <= |t|
    requires up == Dist(s[..i - 1], t[..j]) && left == Dist(s[..i], t[..j - 1])
    requires diag == Dist(s[..i - 1], t[..j - 1])
    ensures Dist(s[..i], t[..j]) == Minimum(up + 1, left + 1, diag + (if s[i - 1] == t[j - 1] then 0 else 1))
  {
    assert s[..i][..i - 1] == s[..i - 1];
    assert t[..j][..j - 1] == t[..j - 1];
  }

  lemma {:induction false} DistSelf(s: string)
    ensures Dist(s, s) == 0
    decreases |s|
  {
    if |s| > 0 {
      DistSelf(s[..|s| - 1]);
    }
  }

  /** Distance zero means the strings are equal (with DistSelf: an iff). */
  lemma {:induction false} DistZero(s: string, t: string)
    requires Dist(s, t) == 0
    ensures s == t
    decreases |s| + |t|
  {
    if |s| > 0 && |t| > 0 {
      DistZero(s[..|s| - 1], t[..|t| - 1]);
      assert s == s[..|s| - 1] + [s[|s| - 1]];
      assert t == t[..|t| - 1] + [t[|t| - 1]];
    }
  }

  lemma {:induction false} DistSymmetric(s: string, t: string)
    ensures Dist(s, t) == Dist(t, s)
    decreases |s| + |t|
  {
    if |s| > 0 && |t| > 0 {
      DistSymmetric(s[..|s| - 1], t);
      DistSymmetric(s, t[..|t| - 1]);
      DistSymmetric(s[..|s| - 1], t[..|t| - 1]);
    }
  }

  /** The distance lies between the length difference and the longer length. */
  lemma {:induction false} DistBounds(s: string, t: string)
    ensures |s| - |t| <= Dist(s, t) && |t| - |s| <= Dist(s, t)
    ensures Dist(s, t) <= (if |s| >= |t| then |s| else |t|)
    decreases |s| + |t|
  {
    if |s| > 0 && |t| > 0 {
      DistBounds(s[..|s| - 1], t);
      DistBounds(s, t[..|t| - 1]);
      DistBounds(s[..|s| - 1], t[..|t| - 1]);
    }
  }

  // ---------------------------------------------------------------------
  // compareToApprox
  // ---------------------------------------------------------------------

  /**
   * Integer branch of compareToApprox as written: the bounds
   * value1 -/+ (Math.abs(value1) * 10) / 100 are computed in int
   * arithmetic, so they wrap around once |value1| * 10 exceeds the int range.
   */
  function IntApproxAsWritten(v1: int32, v2: int32): bool
  {
    var delta := JavaDiv(Wrap32(JavaAbs(v1) * APPROX_CRITERIA), 100);
    v2 >= Wrap32(v1 - delta) && v2 <= Wrap32(v1 + delta)
  }

  /** For 300000000 the wrapped bounds cross, so not even the value itself is approximate. */
  lemma IntApproxAsWrittenNotReflexive()
    ensures !IntApproxAsWritten(300000000, 300000000)
  {
    assert Wrap32(300000000 * 10) == -1294967296;
    assert JavaDiv(-1294967296, 100) == -12949672;
  }

  function Abs(x: int): nat
  {
    if x >= 0 then x else -x
  }

  /** Integer branch of compareToApprox, bounds computed without wrap-around. */
  function IntApprox(v1: int32, v2: int32): (r: bool)
    ensures r <==> Abs(v2 as int - v1 as int) <= Abs(v1) * APPROX_CRITERIA / 100
  {
    var delta := Abs(v1) * APPROX_CRITERIA / 100;
    v2 as int >= v1 as int - delta && v2 as int <= v1 as int + delta
  }

  /** Without overflow the written and the corrected bounds agree. */
  lemma IntApproxAgreesWithoutOverflow(v1: int32, v2: int32)
    requires -214748364 <= v1 <= 214748364
    ensures IntApproxAsWritten(v1, v2) == IntApprox(v1, v2)
  {
    var abs := Abs(v1);
    assert JavaAbs(v1) == abs;
    assert Wrap32(abs * APPROX_CRITERIA) == abs * APPROX_CRITERIA;
    assert JavaDiv(abs * APPROX_CRITERIA, 100) == abs * APPROX_CRITERIA / 100;
  }

  lemma IntApproxReflexive(v: int32)
    ensures IntApprox(v, v)
  {
  }

  /** Character branch of compareToApprox (char arithmetic widens to int, no overflow). */
  function CharApprox(c1: char, c2: char): bool
  {
    var v1 := c1 as int;
    var delta := v1 * APPROX_CRITERIA / 100;
    c2 as int >= v1 - delta && c2 as int <= v1 + delta
  }

  /**
   * String branch of compareToApprox: the edit distance of the lower-cased
   * strings is at most 10% of the left side's length.
   */
  predicate StringApprox(lhs: string, rhs: string)
  {
    Dist(Lower(lhs), Lower(rhs)) <= (|lhs| * APPROX_CRITERIA) / 100
  }

  /** Strings equal up to case are approximate; short strings must match exactly. */
  lemma StringApproxFacts(lhs: string, rhs: string)
    ensures EqualsIgnoreCase(lhs, rhs) ==> StringApprox(lhs, rhs)
    ensures |lhs| < 10 ==> (StringApprox(lhs, rhs) <==> EqualsIgnoreCase(lhs, rhs))
  {
    if EqualsIgnoreCase(lhs, rhs) {
      DistSelf(Lower(lhs));
    }
    if |lhs| < 10 && StringApprox(lhs, rhs) {
      DistZero(Lower(lhs), Lower(rhs));
    }
  }

  // ---------------------------------------------------------------------
  // compareBoolean and the Boolean detour through Comparable
  // ---------------------------------------------------------------------

  /** compareBoolean: every operator is equality with new Boolean(rhs). */
  function CompareBoolean(lhs: bool, rhs: string): (r: bool)
    ensures r <==> (lhs <==> EqualsIgnoreCase(rhs, "true"))
  {
    lhs == JavaParseBoolean(rhs)
  }

  /**
   * What compare does with a Boolean left side where Boolean implements
   * Comparable (Java 5 and later): it is caught by the Comparable branch
   * before compareBoolean is reached, so `>=` and `<=` order false before
   * true and `~=` raises "Approximate operator not supported".
   */
  function BooleanViaComparable(lhs: bool, rhs: string, op: CmpOp): Result<bool, EvalError>
  {
    var r := JavaParseBoolean(rhs);
    var cmp := if lhs == r then 0 else if lhs then 1 else -1;
    match op
    case Equal => Ok(cmp == 0)
    case GreaterEqual => Ok(cmp >= 0)
    case LessEqual => Ok(cmp <= 0)
    case Approx => Err(ApproxUnsupported)
  }

  /** `(flag>=false)` holds for flag = TRUE through Comparable, but not as equality. */
  lemma BooleanViaComparableDiffers()
    ensures BooleanViaComparable(true, "false", GreaterEqual) == Ok(true)
    ensures !CompareBoolean(true, "false")
    ensures BooleanViaComparable(true, "true", Approx).Err?
    ensures CompareBoolean(true, "true")
  {
    assert Lower("false") != Lower("true") by {
      assert Lower("false")[0] == 'f';
    }
    assert Lower("true") == "true";
  }

  // ---------------------------------------------------------------------
  // compare
  // ---------------------------------------------------------------------

  function Size(v: Value): nat
    ensures Size(v) >= 1
  {
    match v
    case Array(xs) => 1 + SizeSeq(xs)
    case Collection(xs) => 1 + SizeSeq(xs)
    case _ => 1
  }

  function SizeSeq(xs: seq<Value>): nat
    ensures SizeSeq(xs) >= 1
    ensures xs != [] ==> SizeSeq(xs) > Size(xs[0]) && SizeSeq(xs) > SizeSeq(xs[1..])
    decreases xs
  {
    if xs == [] then 1 else Size(xs[0]) + SizeSeq(xs[1..])
  }

  function CompareStrings(lhs: string, rhs: string, op: CmpOp): bool
  {
    match op
    case Equal => JavaCompareTo(lhs, rhs) == 0
    case GreaterEqual => JavaCompareTo(lhs, rhs) >= 0
    case LessEqual => JavaCompareTo(lhs, rhs) <= 0
    case Approx => StringApprox(lhs, rhs)
  }

  function CompareInts(lhs: int32, rhs: int32, op: CmpOp): bool
  {
    match op
    case Equal => lhs == rhs
    case GreaterEqual => lhs >= rhs
    case LessEqual => lhs <= rhs
    case Approx => IntApprox(lhs, rhs)
  }

  function CompareChars(lhs: char, rhs: char, op: CmpOp): bool
  {
    match op
    case Equal => lhs == rhs
    case GreaterEqual => lhs >= rhs
    case LessEqual => lhs <= rhs
    case Approx => CharApprox(lhs, rhs)
  }

  /**
   * compare(lhs, rhs, operator). Strings compare with compareTo (or ~=);
   * Integer and Character build the right side from the string, failing
   * with an EvaluationException when they cannot; Booleans compare by
   * equality; arrays and collections hold when some element does. The
   * missing-attribute marker is not Comparable and has no String
   * constructor, so the equals path answers false for it.
   */
  function Compare(lhs: Value, rhs: string, op: CmpOp): (r: Result<bool, EvalError>)
    ensures lhs.Str? ==> r == Ok(CompareStrings(lhs.s, rhs, op))
    ensures lhs.Bool? ==> r == Ok(CompareBoolean(lhs.b, rhs))
    ensures lhs.Int? ==> (r.Err? <==> ParseInt(rhs).None?)
    ensures lhs.Char? ==> (r.Err? <==> rhs == [])
    ensures lhs.Unknown? ==> r == Ok(false)
    ensures r.Err? ==> r.error.NotConstructible?
    decreases Size(lhs), 1
  {
    match lhs
    case Str(s) => Ok(CompareStrings(s, rhs, op))
    case Int(i) =>
      (match ParseInt(rhs)
       case None => Err(NotConstructible(rhs))
       case Some(j) => Ok(CompareInts(i, j, op)))
    case Char(c) =>
      if rhs == [] then Err(NotConstructible(rhs)) else Ok(CompareChars(c, rhs[0], op))
    case Bool(b) => Ok(CompareBoolean(b, rhs))
    case StrArray(ss) => Ok(CompareStringsAny(ss, rhs, op))
    case Array(xs) => CompareAny(xs, rhs, op)
    case Collection(xs) => CompareAny(xs, rhs, op)
    case Unknown => Ok(false)
  }

  /** The element loop of compare over a `String[]`: some element compares true. */
  function CompareStringsAny(ss: seq<string>, rhs: string, op: CmpOp): (r: bool)
    ensures r <==> exists k :: 0 <= k < |ss| && CompareStrings(ss[k], rhs, op)
  {
    if ss == [] then false
    else CompareStrings(ss[0], rhs, op) || CompareStringsAny(ss[1..], rhs, op)
  }

  /**
   * The element loop of compare: true at the first element that compares
   * true; an exception from an earlier element ends the loop first.
   */
  function CompareAny(xs: seq<Value>, rhs: string, op: CmpOp): (r: Result<bool, EvalError>)
    ensures r.Err? ==> r.error.NotConstructible?
    decreases SizeSeq(xs), 0
  {
    if xs == [] then Ok(false)
    else
      match Compare(xs[0], rhs, op)
      case Err(e) => Err(e)
      case Ok(true) => Ok(true)
      case Ok(false) => CompareAny(xs[1..], rhs, op)
  }

  /**
   * The element loop answers true only at an element that compares true,
   * false only when every element compares false, and an exception only
   * when an element raises it after elements that all compared false.
   */
  lemma {:induction false} CompareAnyMeaning(xs: seq<Value>, rhs: string, op: CmpOp)
    ensures CompareAny(xs, rhs, op) == Ok(true) ==>
      exists i :: 0 <= i < |xs| && Compare(xs[i], rhs, op) == Ok(true)
    ensures CompareAny(xs, rhs, op) == Ok(false) <==>
      forall i :: 0 <= i < |xs| ==> Compare(xs[i], rhs, op) == Ok(false)
    ensures CompareAny(xs, rhs, op).Err? ==>
      exists i :: 0 <= i < |xs| && Compare(xs[i], rhs, op) == CompareAny(xs, rhs, op)
                  && forall j :: 0 <= j < i ==> Compare(xs[j], rhs, op) == Ok(false)
  {
    CompareAnyTrue(xs, rhs, op);
    CompareAnyFalse(xs, rhs, op);
    CompareAnyErr(xs, rhs, op);
  }

  lemma {:induction false} CompareAnyTrue(xs: seq<Value>, rhs: string, op: CmpOp)
    ensures CompareAny(xs, rhs, op) == Ok(true) ==>
      exists i :: 0 <= i < |xs| && Compare(xs[i], rhs, op) == Ok(true)
  {
    if xs != [] && Compare(xs[0], rhs, op) == Ok(false) {
      CompareAnyTrue(xs[1..], rhs, op);
      if CompareAny(xs, rhs, op) == Ok(true) {
        var i :| 0 <= i < |xs[1..]| && Compare(xs[1..][i], rhs, op) == Ok(true);
        assert xs[i + 1] == xs[1..][i];
      }
    }
  }

  lemma {:induction false} CompareAnyFalse(xs: seq<Value>, rhs: string, op: CmpOp)
    ensures CompareAny(xs, rhs, op) == Ok(false) <==>
      forall i :: 0 <= i < |xs| ==> Compare(xs[i], rhs, op) == Ok(false)
  {
    if xs != [] {
      CompareAnyFalse(xs[1..], rhs, op);
      assert forall i :: 1 <= i < |xs| ==> xs[i] == xs[1..][i - 1];
    }
  }

  lemma {:induction false} CompareAnyErr(xs: seq<Value>, rhs: string, op: CmpOp)
    ensures CompareAny(xs, rhs, op).Err? ==>
      exists i :: 0 <= i < |xs| && Compare(xs[i], rhs, op) == CompareAny(xs, rhs, op)
                  && forall j :: 0 <= j < i ==> Compare(xs[j], rhs, op) == Ok(false)
  {
    if xs != [] && Compare(xs[0], rhs, op) == Ok(false) {
      CompareAnyErr(xs[1..], rhs, op);
      if CompareAny(xs, rhs, op).Err? {
        var i :| 0 <= i < |xs[1..]| && Compare(xs[1..][i], rhs, op) == CompareAny(xs[1..], rhs, op)
                  && forall j :: 0 <= j < i ==> Compare(xs[1..][j], rhs, op) == Ok(false);
        forall j | 0 <= j < i + 1 ensures Compare(xs[j], rhs, op) == Ok(false) {
          if j > 0 { assert xs[j] == xs[1..][j - 1]; }
        }
        assert xs[i + 1] == xs[1..][i];
      }
    }
  }

  /** compareTo is antisymmetric: swapping the sides negates the result. */
  lemma {:induction false} JavaCompareToAntisymmetric(a: string, b: string)
    ensures JavaCompareTo(a, b) == -JavaCompareTo(b, a)
    decreases |a|
  {
    if a != [] && b != [] && a[0] == b[0] {
      JavaCompareToAntisymmetric(a[1..], b[1..]);
    }
  }

  /** When no element raises, an array compares true iff some element does. */
  lemma CompareAnyWithoutErrors(xs: seq<Value>, rhs: string, op: CmpOp)
    requires forall i :: 0 <= i < |xs| ==> Compare(xs[i], rhs, op).Ok?
    ensures CompareAny(xs, rhs, op)
         == Ok(exists i :: 0 <= i < |xs| && Compare(xs[i], rhs, op) == Ok(true))
  {
    CompareAnyMeaning(xs, rhs, op);
  }

  // ---------------------------------------------------------------------
  // SubStringOperator.check
  // ---------------------------------------------------------------------

  /**
   * SubStringOperator.check as written, from piece `i` with the search
   * position `index`: the first piece must start s; each middle piece is
   * found by indexOf from just past the previous match; the last piece is
   * checked with endsWith on the whole string.
   */
  function CheckFromAsWritten(pieces: seq<string>, s: string, i: nat, index: nat): bool
    decreases |pieces| - i
  {
    if i >= |pieces| then false
    else if i == |pieces| - 1 then EndsWith(s, pieces[i])
    else if i == 0 then
      StartsWith(s, pieces[0]) && CheckFromAsWritten(pieces, s, 1, index + |pieces[0]|)
    else
      var k := IndexOf(s, pieces[i], index);
      k >= 0 && CheckFromAsWritten(pieces, s, i + 1, k + |pieces[i]|)
  }

  function CheckAsWritten(pieces: seq<string>, s: string): bool
  {
    CheckFromAsWritten(pieces, s, 0, 0)
  }

  /** `(cn=ab*b)` matches "ab": the last piece reuses the "b" of the first. */
  lemma CheckAsWrittenOverlaps()
    ensures CheckAsWritten(["ab", "b"], "ab")
    ensures !GlobMatch(["ab", "b"], "ab")
  {
    assert "ab"[..2] == "ab";
    assert "ab"[1..] == "b";
    assert "ab"[2..] == "";
  }

  /**
   * The check with the last piece required to end at or after the search
   * position, so that it cannot reuse characters already matched.
   */
  function CheckFrom(pieces: seq<string>, s: string, i: nat, index: nat): bool
    decreases |pieces| - i
  {
    if i >= |pieces| then false
    else if i == |pieces| - 1 then EndsWith(s, pieces[i]) && index + |pieces[i]| <= |s|
    else if i == 0 then
      StartsWith(s, pieces[0]) && CheckFrom(pieces, s, 1, index + |pieces[0]|)
    else
      var k := IndexOf(s, pieces[i], index);
      k >= 0 && CheckFrom(pieces, s, i + 1, k + |pieces[i]|)
  }

  function Check(pieces: seq<string>, s: string): bool
  {
    CheckFrom(pieces, s, 0, 0)
  }

  /**
   * The meaning of pieces p0 .. pn-1 (n >= 2): s is p0, anything, p1,
   * anything, ..., anything, pn-1.
   */
  predicate GlobMatch(pieces: seq<string>, s: string)
    requires |pieces| >= 2
  {
    StartsWith(s, pieces[0]) && TailMatch(pieces[1..], s[|pieces[0]|..])
  }

  /** Each of ps occurs in u in order, without overlap, and u ends with the last. */
  predicate TailMatch(ps: seq<string>, u: string)
    requires |ps| >= 1
    decreases |ps|
  {
    if |ps| == 1 then EndsWith(u, ps[0])
    else exists k :: 0 <= k <= |u| && OccursAt(u, ps[0], k) && TailMatch(ps[1..], u[k + |ps[0]|..])
  }

  /** A match in a suffix of u is a match in u. */
  lemma {:induction false} TailMatchWidens(ps: seq<string>, u: string, j: nat, j': nat)
    requires |ps| >= 1 && j' <= j <= |u|
    requires TailMatch(ps, u[j..])
    ensures TailMatch(ps, u[j'..])
    decreases |ps|
  {
    if |ps| > 1 {
      var w, d := u[j'..], j - j';
      assert w[d..] == u[j..];
      var k :| 0 <= k <= |w[d..]| && OccursAt(w[d..], ps[0], k) && TailMatch(ps[1..], w[d..][k + |ps[0]|..]);
      OccursInSuffix(w, d, ps[0], k);
      assert OccursAt(w, ps[0], d + k) && TailMatch(ps[1..], w[d + k + |ps[0]|..]);
    }
  }

  /** The last piece: endsWith past the search position. */
  lemma LastPieceMeansTailMatch(pieces: seq<string>, s: string, index: nat)
    requires |pieces| >= 2 && index <= |s|
    ensures CheckFrom(pieces, s, |pieces| - 1, index) == TailMatch(pieces[|pieces| - 1..], s[index..])
  {
    var p := pieces[|pieces| - 1];
    assert pieces[|pieces| - 1..] == [p];
    if |p| <= |s| - index {
      assert s[index..][|s[index..]| - |p|..] == s[|s| - |p|..];
    }
  }

  /** Occurrences in a suffix are occurrences in the whole string, shifted. */
  lemma OccursInSuffix(s: string, index: nat, p: string, k: int)
    requires index <= |s|
    ensures OccursAt(s[index..], p, k) <==> (k >= 0 && OccursAt(s, p, index + k))
    ensures 0 <= k && k + |p| <= |s| - index ==> s[index..][k + |p|..] == s[index + k + |p|..]
  {
    if 0 <= k && k + |p| <= |s| - index {
      assert s[index..][k..k + |p|] == s[index + k..index + k + |p|];
    }
  }

  /** Unfolding TailMatch for two or more pieces. */
  lemma TailMatchUnfold(ps: seq<string>, u: string) returns (k: nat)
    requires |ps| >= 2 && TailMatch(ps, u)
    ensures k <= |u| && OccursAt(u, ps[0], k) && TailMatch(ps[1..], u[k + |ps[0]|..])
  {
    k :| 0 <= k <= |u| && OccursAt(u, ps[0], k) && TailMatch(ps[1..], u[k + |ps[0]|..]);
  }

  /** Folding TailMatch from a witness occurrence. */
  lemma TailMatchFold(ps: seq<string>, u: string, k: nat)
    requires |ps| >= 2 && OccursAt(u, ps[0], k) && TailMatch(ps[1..], u[k + |ps[0]|..])
    ensures TailMatch(ps, u)
  {
  }

  /** An occurrence of a middle piece followed by a match of the rest is a match. */
  lemma MiddleMatchFrom(pieces: seq<string>, s: string, i: nat, index: nat, k: nat)
    requires 1 <= i < |pieces| - 1 && index <= k && OccursAt(s, pieces[i], k)
    requires TailMatch(pieces[i + 1..], s[k + |pieces[i]|..])
    ensures TailMatch(pieces[i..], s[index..])
  {
    var ps := pieces[i..];
    assert ps[0] == pieces[i] && ps[1..] == pieces[i + 1..];
    OccursInSuffix(s, index, pieces[i], k - index);
    TailMatchFold(ps, s[index..], k - index);
  }

  /** A match leaves a match of the rest after the leftmost occurrence of a middle piece. */
  lemma MiddleMatchTo(pieces: seq<string>, s: string, i: nat, index: nat, k: nat)
    requires 1 <= i < |pieces| - 1 && index <= k && OccursAt(s, pieces[i], k)
    requires forall j :: index <= j < k ==> !OccursAt(s, pieces[i], j)
    requires TailMatch(pieces[i..], s[index..])
    ensures TailMatch(pieces[i + 1..], s[k + |pieces[i]|..])
  {
    var ps := pieces[i..];
    assert ps[0] == pieces[i] && ps[1..] == pieces[i + 1..];
    var k2 := TailMatchUnfold(ps, s[index..]);
    OccursInSuffix(s, index, pieces[i], k2);
    TailMatchWidens(ps[1..], s, index + k2 + |pieces[i]|, k + |pieces[i]|);
  }

  /** Where the leftmost occurrence of a middle piece leads. */
  lemma MiddlePieceFound(pieces: seq<string>, s: string, i: nat, index: nat, k: nat)
    requires 1 <= i < |pieces| - 1 && index <= |s|
    requires k == IndexOf(s, pieces[i], index)
    requires TailMatch(pieces[i + 1..], s[k + |pieces[i]|..]) == CheckFrom(pieces, s, i + 1, k + |pieces[i]|)
    ensures CheckFrom(pieces, s, i, index) == TailMatch(pieces[i..], s[index..])
  {
    assert CheckFrom(pieces, s, i, index) == CheckFrom(pieces, s, i + 1, k + |pieces[i]|);
    if TailMatch(pieces[i + 1..], s[k + |pieces[i]|..]) {
      MiddleMatchFrom(pieces, s, i, index, k);
    }
    if TailMatch(pieces[i..], s[index..]) {
      MiddleMatchTo(pieces, s, i, index, k);
    }
  }

  /** A middle piece that does not occur past the search position defeats both. */
  lemma MiddlePieceMissing(pieces: seq<string>, s: string, i: nat, index: nat)
    requires 1 <= i < |pieces| - 1 && index <= |s|
    requires IndexOf(s, pieces[i], index) < 0
    ensures !TailMatch(pieces[i..], s[index..])
  {
    var ps := pieces[i..];
    assert ps[0] == pieces[i];
    if TailMatch(ps, s[index..]) {
      var k2 := TailMatchUnfold(ps, s[index..]);
      OccursInSuffix(s, index, pieces[i], k2);
      assert false;
    }
  }

  /** From piece i >= 1 onwards, the search agrees with TailMatch on the rest of s. */
  lemma {:induction false} CheckFromMeansTailMatch(pieces: seq<string>, s: string, i: nat, index: nat)
    requires 1 <= i < |pieces| && index <= |s|
    ensures CheckFrom(pieces, s, i, index) == TailMatch(pieces[i..], s[index..])
    decreases |pieces| - i
  {
    if i == |pieces| - 1 {
      LastPieceMeansTailMatch(pieces, s, index);
    } else {
      var k := IndexOf(s, pieces[i], index);
      if k >= 0 {
        CheckFromMeansTailMatch(pieces, s, i + 1, k + |pieces[i]|);
        MiddlePieceFound(pieces, s, i, index, k);
      } else {
        MiddlePieceMissing(pieces, s, i, index);
      }
    }
  }

  /**
   * The non-backtracking search is complete: the check holds exactly when
   * s matches the pieces with stars between them.
   */
  lemma CheckMeansGlobMatch(pieces: seq<string>, s: string)
    requires |pieces| >= 2
    ensures Check(pieces, s) == GlobMatch(pieces, s)
  {
    if StartsWith(s, pieces[0]) {
      CheckFromMeansTailMatch(pieces, s, 1, |pieces[0]|);
    }
  }

  /** The operand of SubStringOperator when it is a String[]: some element matches. */
  function CheckAny(pieces: seq<string>, ss: seq<string>): (r: bool)
    ensures r <==> exists k :: 0 <= k < |ss| && Check(pieces, ss[k])
  {
    if ss == [] then false
    else Check(pieces, ss[0]) || CheckAny(pieces, ss[1..])
  }
}
