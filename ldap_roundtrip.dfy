/**
 * The printed form of a well-formed filter parses back to the filter:
 * `start` applied to Text(f) yields f. The proof follows the parser
 * procedure by procedure over a text that holds the printed filter at a
 * position.
 */
module LdapRoundTrip {
  import opened Common
  import opened LdapCompare
  import opened LdapSyntax
  import opened LdapParser

  /** The text `x` is found in `s` at position `p`. */
  predicate At(s: string, x: string, p: nat)
  {
    p + |x| <= |s| && AtFrom(s, x, p, 0)
  }

  /** The characters of `x` from the `i`-th on are found in `s` from `p + i` on. */
  predicate AtFrom(s: string, x: string, p: nat, i: nat)
    requires p + |x| <= |s|
    decreases |x| - i
  {
    i >= |x| || (s[p + i] == x[i] && AtFrom(s, x, p, i + 1))
  }

  lemma {:induction false} AtFromChar(s: string, x: string, p: nat, i: nat, j: nat)
    requires p + |x| <= |s| && AtFrom(s, x, p, i) && i <= j < |x|
    ensures s[p + j] == x[j]
    decreases j - i
  {
    if i < j {
      AtFromChar(s, x, p, i + 1, j);
    }
  }

  lemma {:induction false} AtFromSplit(s: string, a: string, b: string, p: nat, i: nat)
    requires p + |a + b| <= |s| && AtFrom(s, a + b, p, i)
    ensures i <= |a| ==> AtFrom(s, a, p, i)
    ensures AtFrom(s, b, p + |a|, if i <= |a| then 0 else i - |a|)
    decreases |a + b| - i
  {
    if i < |a + b| {
      assert (a + b)[i] == if i < |a| then a[i] else b[i - |a|];
      AtFromSplit(s, a, b, p, i + 1);
      if i == |a| {
        assert AtFrom(s, b, p + |a|, 1);
      }
    }
  }

  lemma OccursSplit(s: string, a: string, b: string, p: nat)
    requires At(s, a + b, p)
    ensures At(s, a, p) && At(s, b, p + |a|)
  {
    AtFromSplit(s, a, b, p, 0);
  }

  lemma OccursChar(s: string, a: string, p: nat, j: nat)
    requires At(s, a, p) && j < |a|
    ensures p + j < |s| && s[p + j] == a[j]
  {
    AtFromChar(s, a, p, 0, j);
  }

  /** The part of a found text from its `k`-th character on is a slice of `s`. */
  lemma AtSlice(s: string, a: string, p: nat, k: nat)
    requires At(s, a, p) && k <= |a|
    ensures p + |a| <= |s| && s[p + k..p + |a|] == a[k..]
  {
    forall j | k <= j < |a|
      ensures s[p + j] == a[j]
    {
      OccursChar(s, a, p, j);
    }
  }

  /** Every suffix of a text is found where it starts. */
  lemma AtSuffix(s: string, p: nat)
    requires p <= |s|
    ensures At(s, s[p..], p)
  {
    AtFromSuffix(s, p, 0);
  }

  lemma {:induction false} AtFromSuffix(s: string, p: nat, i: nat)
    requires p <= |s|
    ensures AtFrom(s, s[p..], p, i)
    decreases |s| - p - i
  {
    if i < |s| - p {
      AtFromSuffix(s, p, i + 1);
    }
  }

  // ---------------------------------------------------------------------
  // Values and substrings
  // ---------------------------------------------------------------------

  /** Scanning one escaped character adds it to the piece being read. */
  lemma ScanChar(s: string, t: nat, pieces: seq<string>, ss: string, wasStar: bool, leftstar: bool, c: char)
    requires At(s, EscapeChar(c), t)
    ensures ScanF(s, t, pieces, ss, wasStar, leftstar)
         == ScanF(s, t + |EscapeChar(c)|, pieces, ss + [c], false, leftstar)
  {
    OccursChar(s, EscapeChar(c), t, 0);
    if IsEscapedChar(c) {
      OccursChar(s, EscapeChar(c), t, 1);
    }
  }

  /**
   * Scanning an escaped value adds the value itself to the piece being
   * read; a non-empty value clears the star flag.
   */
  lemma {:induction false} ScanEscaped(s: string, t: nat, pieces: seq<string>, ss: string,
                                       wasStar: bool, leftstar: bool, v: string)
    requires v != [] && At(s, Escaped(v), t)
    ensures ScanF(s, t, pieces, ss, wasStar, leftstar)
         == ScanF(s, t + |Escaped(v)|, pieces, ss + v, false, leftstar)
    decreases |v|
  {
    var c, w := v[0], v[1..];
    assert [c] + w == v;
    EscapedCons(c, w);
    assert Escaped(v) == EscapeChar(c) + Escaped(w);
    OccursSplit(s, EscapeChar(c), Escaped(w), t);
    var t' := t + |EscapeChar(c)|;
    var ss' := ss + [c];
    ScanChar(s, t, pieces, ss, wasStar, leftstar, c);
    if w != [] {
      ScanEscaped(s, t', pieces, ss', false, leftstar, w);
      assert ss' + w == ss + v;
      assert t' + |Escaped(w)| == t + |Escaped(v)|;
    } else {
      assert ss' == ss + v;
    }
  }

  /** ScanEscaped for the first piece of a value. */
  lemma ScanEscapedFresh(s: string, t: nat, pieces: seq<string>, wasStar: bool, leftstar: bool, v: string)
    requires v != [] && At(s, Escaped(v), t)
    ensures ScanF(s, t, pieces, "", wasStar, leftstar)
         == ScanF(s, t + |Escaped(v)|, pieces, v, false, leftstar)
  {
    ScanEscaped(s, t, pieces, "", wasStar, leftstar, v);
    assert "" + v == v;
  }

  /** The pieces a substring collects after its last star: an empty final piece is a trailing star. */
  function Collected(qs: seq<string>): seq<string>
    requires |qs| >= 1
  {
    if qs[|qs| - 1] == [] then qs[..|qs| - 1] else qs
  }

  lemma CollectedCons(qs: seq<string>)
    requires |qs| >= 2
    ensures Collected(qs) == [qs[0]] + Collected(qs[1..])
  {
    assert qs[1..][|qs| - 2] == qs[|qs| - 1];
    if qs[|qs| - 1] == [] {
      assert qs[..|qs| - 1] == [qs[0]] + qs[1..][..|qs| - 2];
    } else {
      assert qs == [qs[0]] + qs[1..];
    }
  }

  /** A last piece and the closing `)`: an empty one leaves the star as a trailing star. */
  lemma ScanLastPiece(s: string, t: nat, q: string, pieces: seq<string>, leftstar: bool)
    requires At(s, Escaped(q) + ")", t)
    ensures ScanF(s, t, pieces, "", true, leftstar)
         == Ok((pieces + Collected([q]), leftstar, q == [], t + |Escaped(q)|))
  {
    var e := t + |Escaped(q)|;
    OccursSplit(s, Escaped(q), ")", t);
    OccursChar(s, ")", e, 0);
    if q == [] {
      assert pieces + Collected([q]) == pieces;
    } else {
      ScanEscapedFresh(s, t, pieces, true, leftstar, q);
      assert Collected([q]) == [q];
    }
  }

  /** A middle piece and the star after it: the piece is collected. */
  lemma ScanPieceStar(s: string, t: nat, q: string, pieces: seq<string>, leftstar: bool)
    requires q != [] && At(s, Escaped(q) + "*", t)
    ensures ScanF(s, t, pieces, "", true, leftstar)
         == ScanF(s, t + |Escaped(q)| + 1, pieces + [q], "", true, leftstar)
  {
    var e := t + |Escaped(q)|;
    OccursSplit(s, Escaped(q), "*", t);
    OccursChar(s, "*", e, 0);
    ScanEscapedFresh(s, t, pieces, true, leftstar, q);
  }

  /** Scanning the pieces that follow a star, up to the closing `)`. */
  lemma {:induction false} ScanAfterStar(s: string, t: nat, qs: seq<string>, pieces: seq<string>, leftstar: bool)
    requires |qs| >= 1 && forall k :: 0 <= k < |qs| - 1 ==> qs[k] != []
    requires At(s, JoinPieces(qs) + ")", t)
    ensures ScanF(s, t, pieces, "", true, leftstar)
         == Ok((pieces + Collected(qs), leftstar, qs[|qs| - 1] == [], t + |JoinPieces(qs)|))
    decreases |qs|
  {
    var q0 := qs[0];
    if |qs| == 1 {
      assert qs == [q0];
      ScanLastPiece(s, t, q0, pieces, leftstar);
    } else {
      var rest := qs[1..];
      assert JoinPieces(qs) + ")" == (Escaped(q0) + "*") + (JoinPieces(rest) + ")");
      OccursSplit(s, Escaped(q0) + "*", JoinPieces(rest) + ")", t);
      ScanPieceStar(s, t, q0, pieces, leftstar);
      assert forall k :: 0 <= k < |rest| - 1 ==> rest[k] == qs[k + 1];
      ScanAfterStar(s, t + |Escaped(q0)| + 1, rest, pieces + [q0], leftstar);
      assert rest[|rest| - 1] == qs[|qs| - 1];
      CollectedCons(qs);
      ConcatAssoc(pieces, [q0], Collected(rest));
    }
  }

  /** substring reads an escaped value back as a simple value. */
  lemma SubstringSimple(s: string, t: nat, v: string, e: nat)
    requires At(s, Escaped(v) + ")", t) && e == t + |Escaped(v)|
    ensures SubstringF(s, t) == Ok((SimpleValue(v), e))
  {
    OccursSplit(s, Escaped(v), ")", t);
    OccursChar(s, ")", e, 0);
    if v != [] {
      ScanEscapedFresh(s, t, [], false, false, v);
    } else {
      assert e == t;
    }
    assert ScanF(s, e, [], v, false, false) == Ok(([] + [v], false, false, e));
    assert [] + [v] == [v];
    assert Classify([v], false, false) == SimpleValue(v);
  }

  /** substring reads a lone star back as a presence test. */
  lemma SubstringPresent(s: string, t: nat)
    requires At(s, "*)", t)
    ensures SubstringF(s, t) == Ok((PresentValue, t + 1))
  {
    OccursChar(s, "*)", t, 0);
    OccursChar(s, "*)", t, 1);
    assert ScanF(s, t, [], "", false, false) == ScanF(s, t + 1, [], "", true, true);
    var u: nat := t + 1;
    assert ScanF(s, u, [], "", true, true) == Ok(([], true, true, u));
  }

  /** The first piece and the star after it; an empty first piece is a leading star. */
  lemma ScanFirstPiece(s: string, t: nat, q: string)
    requires At(s, Escaped(q) + "*", t)
    ensures ScanF(s, t, [], "", false, false)
         == ScanF(s, t + |Escaped(q)| + 1, if q != [] then [] + [q] else [], "", true, q == [])
  {
    var e := t + |Escaped(q)|;
    OccursSplit(s, Escaped(q), "*", t);
    OccursChar(s, "*", e, 0);
    if q != [] {
      ScanEscapedFresh(s, t, [], false, false, q);
    }
  }

  /** substring reads joined pieces back as the same pieces. */
  lemma SubstringPieces(s: string, t: nat, ps: seq<string>, u: nat)
    requires ValidPieces(ps)
    requires At(s, JoinPieces(ps) + ")", t) && u == t + |JoinPieces(ps)|
    ensures SubstringF(s, t) == Ok((SubstringValue(ps), u))
  {
    var p0, rest := ps[0], ps[1..];
    assert JoinPieces(ps) + ")" == (Escaped(p0) + "*") + (JoinPieces(rest) + ")");
    OccursSplit(s, Escaped(p0) + "*", JoinPieces(rest) + ")", t);
    ScanFirstPiece(s, t, p0);
    var first: seq<string> := if p0 != [] then [] + [p0] else [];
    assert forall k :: 0 <= k < |rest| - 1 ==> rest[k] == ps[k + 1];
    ScanAfterStar(s, t + |Escaped(p0)| + 1, rest, first, p0 == []);
    var pieces, rightstar := first + Collected(rest), rest[|rest| - 1] == [];
    assert u == t + |Escaped(p0)| + 1 + |JoinPieces(rest)|;
    assert ScanF(s, t, [], "", false, false) == Ok((pieces, p0 == [], rightstar, u));
    assert rest[|rest| - 1] == ps[|ps| - 1];
    PiecesClassified(ps, first, pieces, rightstar);
    assert SubstringF(s, t) == Ok((Classify(pieces, p0 == [], rightstar), u));
  }

  /** The classification at the end of substring rebuilds the pieces. */
  lemma PiecesClassified(ps: seq<string>, first: seq<string>, pieces: seq<string>, rightstar: bool)
    requires ValidPieces(ps)
    requires first == (if ps[0] != [] then [] + [ps[0]] else [])
    requires rightstar == (ps[|ps| - 1] == [])
    requires pieces == first + Collected(ps[1..])
    ensures Classify(pieces, ps[0] == [], rightstar) == SubstringValue(ps)
  {
    var rest := ps[1..];
    var left: seq<string> := if ps[0] == [] then [""] else [];
    var right: seq<string> := if rightstar then [""] else [];
    PiecesRebuilt(ps, first, rest, left, right, pieces);
    if ps[0] == [] && |ps| == 2 {
      assert ps[1] != [];
    }
    ClassifyStarred(pieces, ps[0] == [], rightstar, ps);
  }

  lemma PiecesRebuilt(ps: seq<string>, first: seq<string>, rest: seq<string>, left: seq<string>, right: seq<string>, pieces: seq<string>)
    requires |ps| >= 2 && rest == ps[1..]
    requires first == (if ps[0] != [] then [] + [ps[0]] else [])
    requires left == (if ps[0] == [] then [""] else [])
    requires right == (if ps[|ps| - 1] == [] then [""] else [])
    requires pieces == first + Collected(rest)
    ensures left + pieces + right == ps
  {
    assert rest[|rest| - 1] == ps[|ps| - 1];
    assert Collected(rest) + right == rest;
    assert left + first == [ps[0]];
    assert left + pieces + right == (left + first) + (Collected(rest) + right);
    assert [ps[0]] + rest == ps;
  }

  lemma ClassifyStarred(pieces: seq<string>, leftstar: bool, rightstar: bool, ps: seq<string>)
    requires |pieces| > 0 && (leftstar || rightstar || |pieces| > 1)
    requires (if leftstar then [""] else []) + pieces + (if rightstar then [""] else []) == ps
    ensures Classify(pieces, leftstar, rightstar) == SubstringValue(ps)
  {
  }

  // ---------------------------------------------------------------------
  // One step of each procedure
  // ---------------------------------------------------------------------

  /** The characters of the printed syntax are not whitespace. */
  predicate IsSyntaxChar(c: char)
  {
    IsDelimiter(c) || c == '&' || c == '|' || c == '!' || c == '*' || c == '\\'
  }

  lemma SkipAt(s: string, p: nat)
    requires p < |s| && (IsSyntaxChar(s[p]) || !IsWhitespace(s[p]))
    ensures SkipWs(s, p) == p
  {
  }

  /** item, given what attribute, equalop and substring read. */
  lemma ItemSteps(s: string, q: nat, start: string, a: string, e: nat, op: CmpOp, t: nat, rhs: RightSide, u: nat, f: Filter)
    requires q <= |s| && e <= |s| && t <= |s|
    requires AttributeF(s, q, start) == (Some(a), e) && SkipWs(s, e) == e
    requires EqualOpF(s, e) == Ok((Some(op), t)) && SubstringF(s, t) == Ok((rhs, u))
    requires op == Equal || rhs.SimpleValue?
    requires f == MakeItem(a, op, rhs)
    ensures ItemF(s, q, start) == Ok((Some(f), u))
  {
  }

  /** filter, given what filtercomp read between the parentheses. */
  lemma FilterSteps(s: string, p: nat, f: Filter, r: nat)
    requires p < |s| && s[p] == '(' && SkipWs(s, p) == p
    requires FilterCompF(s, p + 1) == Ok((Some(f), r))
    requires r < |s| && s[r] == ')' && SkipWs(s, r) == r
    ensures FilterF(s, p) == Ok((Some(f), r + 1))
  {
  }

  lemma FilterNone(s: string, p: nat)
    requires p < |s| && s[p] != '(' && SkipWs(s, p) == p
    ensures FilterF(s, p) == Ok((None, p))
  {
  }

  lemma ListEnd(s: string, p: nat)
    requires p <= |s| && FilterF(s, p) == Ok((None, p))
    ensures ListF(s, p) == Ok(([], p))
  {
  }

  lemma ListSteps(s: string, p: nat, cs: seq<Filter>, q: nat, r: nat)
    requires p <= q <= |s| && |cs| > 0
    requires FilterF(s, p) == Ok((Some(cs[0]), q)) && ListF(s, q) == Ok((cs[1..], r))
    ensures ListF(s, p) == Ok((cs, r))
  {
    assert [cs[0]] + cs[1..] == cs;
  }

  /** filtercomp at `&` or `|` followed by a non-empty filter list. */
  lemma CompListSteps(s: string, q: nat, f: Filter, q1: nat, r: nat)
    requires (f.And? || f.Or?) && |f.children| > 0
    requires q < |s| && s[q] == (if f.And? then '&' else '|') && SkipWs(s, q) == q && q1 == q + 1
    requires ListF(s, q1) == Ok((f.children, r))
    ensures FilterCompF(s, q) == Ok((Some(f), r))
  {
  }

  /** filtercomp at `&` or `|` followed by no filter: an item starting with the operator. */
  lemma CompListEmpty(s: string, q: nat, r: nat)
    requires q < |s| && (s[q] == '&' || s[q] == '|') && SkipWs(s, q) == q
    requires ListF(s, q + 1) == Ok(([], r))
    ensures FilterCompF(s, q) == ItemF(s, r, [s[q]])
  {
  }

  /** filtercomp at `!` followed by a filter. */
  lemma CompNotSteps(s: string, q: nat, f: Filter, q1: nat, r: nat)
    requires f.Not? && q < |s| && s[q] == '!' && SkipWs(s, q) == q && q1 == q + 1
    requires FilterF(s, q1) == Ok((Some(f.child), r))
    ensures FilterCompF(s, q) == Ok((Some(f), r))
  {
  }

  /** filtercomp at `!` followed by no filter: an item starting with `!`. */
  lemma CompNotEmpty(s: string, q: nat, r: nat)
    requires q < |s| && s[q] == '!' && SkipWs(s, q) == q
    requires FilterF(s, q + 1) == Ok((None, r))
    ensures FilterCompF(s, q) == ItemF(s, r, "!")
  {
  }

  lemma CompItemStep(s: string, q: nat, x: Result<(Option<Filter>, nat), string>)
    requires q < |s| && SkipWs(s, q) == q
    requires s[q] != '&' && s[q] != '|' && s[q] != '!' && !IsDelimiter(s[q])
    requires ItemF(s, q, "") == x
    ensures FilterCompF(s, q) == x
  {
  }

  // ---------------------------------------------------------------------
  // Items
  // ---------------------------------------------------------------------

  /** The attribute scan stops exactly at the first delimiter (or EOF). */
  lemma {:induction false} AttrEndAt(s: string, i: nat, e: nat)
    requires i < e <= |s|
    requires forall j :: i <= j < e ==> !IsDelimiter(s[j])
    requires e == |s| || IsDelimiter(s[e])
    ensures AttrEnd(s, i) == e
    decreases e - i
  {
    if i + 1 < e {
      AttrEndAt(s, i + 1, e);
    }
  }

  /** What follows the attribute in the printed form of an item. */
  function ItemTail(f: Filter): string
  {
    match f
    case Simple(_, op, v) => OpText(op) + (Escaped(v) + ")")
    case Present(_) => "=" + "*)"
    case Substring(_, ps) => "=" + (JoinPieces(ps) + ")")
    case _ => ")"
  }

  predicate IsItem(f: Filter)
  {
    f.Simple? || f.Present? || f.Substring?
  }

  lemma TextItem(f: Filter)
    requires IsItem(f) && WellFormed(f)
    ensures Text(f) == ("(" + f.attr) + ItemTail(f)
  {
    match f
    case Simple(a, op, v) => TextSimple(a, op, v);
    case Present(a) => assert Text(f) == ("(" + a) + ("=" + "*)");
    case Substring(a, ps) => TextSubstring(a, ps);
  }

  lemma TextSimple(a: string, op: CmpOp, v: string)
    requires op == Equal && IsObjectClass(a) ==> a == OBJECT_CLASS
    ensures Text(Simple(a, op, v)) == ("(" + a) + (OpText(op) + (Escaped(v) + ")"))
  {
    var f := Simple(a, op, v);
    if op == Equal && IsObjectClass(a) {
      assert Text(f) == "(" + OBJECT_CLASS + "=" + Escaped(v) + ")";
    } else {
      assert Text(f) == "(" + a + OpText(op) + Escaped(v) + ")";
    }
  }

  lemma TextSubstring(a: string, ps: seq<string>)
    ensures Text(Substring(a, ps)) == ("(" + a) + ("=" + (JoinPieces(ps) + ")"))
  {
    assert Text(Substring(a, ps)) == "(" + a + "=" + JoinPieces(ps) + ")";
  }

  /** An item printed in `s` with its attribute at `p` and its `)` at `u`. */
  predicate ItemPlaced(s: string, p: nat, f: Filter, u: nat)
  {
    IsItem(f) && WellFormed(f)
    && At(s, f.attr, p) && At(s, ItemTail(f), p + |f.attr|)
    && u == p + |f.attr| + |ItemTail(f)| - 1
  }

  /** The printed form of an item: a parenthesis, the attribute, the tail. */
  lemma ItemLayout(s: string, p: nat, f: Filter, u: nat)
    requires IsItem(f) && WellFormed(f) && At(s, Text(f), p) && u == p + |Text(f)| - 1
    ensures ItemPlaced(s, p + 1, f, u)
  {
    TextItem(f);
    OccursSplit(s, "(" + f.attr, ItemTail(f), p);
    OccursSplit(s, "(", f.attr, p);
  }

  /** equalop reads a printed operator back. */
  lemma EqualOpText(s: string, e: nat, op: CmpOp, t: nat)
    requires At(s, OpText(op), e) && t == e + |OpText(op)|
    ensures EqualOpF(s, e) == Ok((Some(op), t))
  {
    OccursChar(s, OpText(op), e, 0);
    if op != Equal {
      OccursChar(s, OpText(op), e, 1);
    }
  }

  /**
   * attribute reads the printed attribute back, whether it starts at its
   * first character or, after a `&`, `|` or `!` that filtercomp consumed,
   * at its second with the first passed in.
   */
  lemma AttributeText(s: string, p: nat, a: string, k: nat, start: string, e: nat)
    requires ValidAttr(a) && At(s, a, p) && k <= 1 && e == p + |a|
    requires k < |a| && start == a[..k]
    requires k == 1 ==> a[0] == '&' || a[0] == '|' || a[0] == '!'
    requires e < |s| && IsDelimiter(s[e])
    ensures AttributeF(s, p + k, start) == (Some(a), e)
  {
    AttributeScan(s, p, a, k, e);
    AttributeRead(s, p + k, start, e, a);
  }

  /** attribute, given where the scan stops: the text read, with nothing to trim. */
  lemma AttributeRead(s: string, q: nat, start: string, e: nat, a: string)
    requires q < e <= |s| && SkipWs(s, q) == q && !IsDelimiter(s[q]) && AttrEnd(s, q) == e
    requires start + s[q..e] == a && !IsWhitespace(a[|a| - 1])
    ensures AttributeF(s, q, start) == (Some(a), e)
  {
    assert TrimEnd(a) == a;
  }

  /** The attribute's characters past the first k are read up to the delimiter after it. */
  lemma AttributeScan(s: string, p: nat, a: string, k: nat, e: nat)
    requires ValidAttr(a) && At(s, a, p) && k <= 1 && e == p + |a|
    requires k == 1 ==> a[0] == '&' || a[0] == '|' || a[0] == '!'
    requires e < |s| && IsDelimiter(s[e])
    ensures p + k < e && SkipWs(s, p + k) == p + k && !IsDelimiter(s[p + k])
    ensures AttrEnd(s, p + k) == e && a[..k] + s[p + k..e] == a
  {
    var q := p + k;
    OccursChar(s, a, p, k);
    SkipAt(s, q);
    forall j | q <= j < e
      ensures !IsDelimiter(s[j])
    {
      OccursChar(s, a, p, j - p);
    }
    AttrEndAt(s, q, e);
    AtSlice(s, a, p, k);
    assert a[..k] + a[k..] == a;
  }

  /** attribute, then equalop: the attribute and the operator that follows it. */
  lemma AttributeOpText(s: string, p: nat, a: string, k: nat, start: string, e: nat, op: CmpOp, t: nat)
    requires ValidAttr(a) && At(s, a, p) && k <= 1 && e == p + |a|
    requires k < |a| && start == a[..k]
    requires k == 1 ==> a[0] == '&' || a[0] == '|' || a[0] == '!'
    requires At(s, OpText(op), e) && t == e + |OpText(op)|
    ensures AttributeF(s, p + k, start) == (Some(a), e) && SkipWs(s, e) == e
    ensures EqualOpF(s, e) == Ok((Some(op), t))
  {
    OccursChar(s, OpText(op), e, 0);
    AttributeText(s, p, a, k, start, e);
    SkipAt(s, e);
    EqualOpText(s, e, op, t);
  }

  /** item over a printed attribute and operator, given what substring reads after them. */
  lemma ItemOver(s: string, p: nat, a: string, k: nat, start: string, e: nat, op: CmpOp, t: nat, rhs: RightSide, u: nat, f: Filter)
    requires ValidAttr(a) && At(s, a, p) && k <= 1 && e == p + |a|
    requires k < |a| && start == a[..k]
    requires k == 1 ==> a[0] == '&' || a[0] == '|' || a[0] == '!'
    requires At(s, OpText(op), e) && t == e + |OpText(op)|
    requires t <= |s| && SubstringF(s, t) == Ok((rhs, u))
    requires (op == Equal || rhs.SimpleValue?) && f == MakeItem(a, op, rhs)
    ensures ItemF(s, p + k, start) == Ok((Some(f), u))
  {
    AttributeOpText(s, p, a, k, start, e, op, t);
    ItemSteps(s, p + k, start, a, e, op, t, rhs, u, f);
  }

  /** The parts of a comparison item's tail. */
  lemma SimpleTailLayout(s: string, e: nat, f: Filter)
    requires f.Simple? && At(s, ItemTail(f), e)
    ensures At(s, OpText(f.op), e) && At(s, Escaped(f.value) + ")", e + |OpText(f.op)|)
    ensures e < |s| && IsDelimiter(s[e])
    ensures |ItemTail(f)| == |OpText(f.op)| + |Escaped(f.value)| + 1
  {
    OccursSplit(s, OpText(f.op), Escaped(f.value) + ")", e);
    OccursChar(s, OpText(f.op), e, 0);
  }

  /** item reads a printed comparison item back, leaving the lexer at its `)`. */
  lemma ItemTextSimple(s: string, p: nat, f: Filter, k: nat, start: string, u: nat)
    requires f.Simple? && ValidAttr(f.attr) && k <= 1
    requires k == 1 ==> f.attr[0] == '&' || f.attr[0] == '|' || f.attr[0] == '!'
    requires At(s, f.attr, p) && At(s, ItemTail(f), p + |f.attr|)
    requires u == p + |f.attr| + |ItemTail(f)| - 1
    requires k < |f.attr| && start == f.attr[..k]
    ensures ItemF(s, p + k, start) == Ok((Some(f), u))
  {
    var e: nat := p + |f.attr|;
    SimpleTailLayout(s, e, f);
    var t: nat := e + |OpText(f.op)|;
    SubstringSimple(s, t, f.value, u);
    ItemOver(s, p, f.attr, k, start, e, f.op, t, SimpleValue(f.value), u, f);
  }

  /** The parts of a presence item's tail. */
  lemma PresentTailLayout(s: string, e: nat, f: Filter)
    requires f.Present? && At(s, ItemTail(f), e)
    ensures At(s, "=", e) && At(s, "*)", e + 1)
    ensures e < |s| && IsDelimiter(s[e])
    ensures |ItemTail(f)| == 3
  {
    OccursSplit(s, "=", "*)", e);
    OccursChar(s, "=", e, 0);
  }

  /** item reads a printed presence item back. */
  lemma ItemTextPresent(s: string, p: nat, f: Filter, k: nat, start: string, u: nat)
    requires f.Present? && ValidAttr(f.attr) && k <= 1
    requires k == 1 ==> f.attr[0] == '&' || f.attr[0] == '|' || f.attr[0] == '!'
    requires At(s, f.attr, p) && At(s, ItemTail(f), p + |f.attr|)
    requires u == p + |f.attr| + |ItemTail(f)| - 1
    requires k < |f.attr| && start == f.attr[..k]
    ensures ItemF(s, p + k, start) == Ok((Some(f), u))
  {
    var e: nat := p + |f.attr|;
    PresentTailLayout(s, e, f);
    var t: nat := e + 1;
    SubstringPresent(s, t);
    ItemOver(s, p, f.attr, k, start, e, Equal, t, PresentValue, u, f);
  }

  /** The parts of a substring item's tail. */
  lemma SubstringTailLayout(s: string, e: nat, f: Filter)
    requires f.Substring? && At(s, ItemTail(f), e)
    ensures At(s, "=", e) && At(s, JoinPieces(f.pieces) + ")", e + 1)
    ensures e < |s| && IsDelimiter(s[e])
    ensures |ItemTail(f)| == 1 + |JoinPieces(f.pieces)| + 1
  {
    OccursSplit(s, "=", JoinPieces(f.pieces) + ")", e);
    OccursChar(s, "=", e, 0);
  }

  /** item reads a printed substring item back. */
  lemma ItemTextSubstring(s: string, p: nat, f: Filter, k: nat, start: string, u: nat)
    requires f.Substring? && ValidAttr(f.attr) && ValidPieces(f.pieces) && k <= 1
    requires k == 1 ==> f.attr[0] == '&' || f.attr[0] == '|' || f.attr[0] == '!'
    requires At(s, f.attr, p) && At(s, ItemTail(f), p + |f.attr|)
    requires u == p + |f.attr| + |ItemTail(f)| - 1
    requires k < |f.attr| && start == f.attr[..k]
    ensures ItemF(s, p + k, start) == Ok((Some(f), u))
  {
    var e: nat := p + |f.attr|;
    SubstringTailLayout(s, e, f);
    var t: nat := e + 1;
    SubstringPieces(s, t, f.pieces, u);
    ItemOver(s, p, f.attr, k, start, e, Equal, t, SubstringValue(f.pieces), u, f);
  }

  /** item reads the printed form of an item back, leaving the lexer at its `)`. */
  lemma ItemText(s: string, p: nat, f: Filter, k: nat, start: string, u: nat)
    requires ItemPlaced(s, p, f, u) && k <= 1
    requires k == 1 ==> f.attr[0] == '&' || f.attr[0] == '|' || f.attr[0] == '!'
    requires k < |f.attr| && start == f.attr[..k]
    ensures ItemF(s, p + k, start) == Ok((Some(f), u))
  {
    if f.Simple? {
      ItemTextSimple(s, p, f, k, start, u);
    } else if f.Present? {
      ItemTextPresent(s, p, f, k, start, u);
    } else {
      ItemTextSubstring(s, p, f, k, start, u);
    }
  }

  // ---------------------------------------------------------------------
  // Filters and filter lists
  // ---------------------------------------------------------------------

  lemma TextShape(f: Filter)
    ensures |Text(f)| >= 2 && Text(f)[0] == '(' && Text(f)[|Text(f)| - 1] == ')'
  {
  }

  /** filter reads the printed form of a well-formed filter back. */
  lemma {:induction false} FilterText(s: string, p: nat, f: Filter, r: nat)
    requires WellFormed(f) && At(s, Text(f), p) && r == p + |Text(f)|
    ensures FilterF(s, p) == Ok((Some(f), r))
    decreases f, 3
  {
    var u: nat := r - 1;
    FilterLayout(s, p, f, u);
    CompText(s, p, f, u);
    FilterSteps(s, p, f, u);
  }

  /** A printed filter starts with `(` and ends with `)`, where the lexer stops. */
  lemma FilterLayout(s: string, p: nat, f: Filter, u: nat)
    requires At(s, Text(f), p) && u == p + |Text(f)| - 1
    ensures p < u < |s| && s[p] == '(' && s[u] == ')' && SkipWs(s, p) == p && SkipWs(s, u) == u
  {
    TextShape(f);
    OccursChar(s, Text(f), p, 0);
    OccursChar(s, Text(f), p, |Text(f)| - 1);
    SkipAt(s, p);
    SkipAt(s, u);
  }

  /** filtercomp reads what follows the `(` of a printed filter back. */
  lemma {:induction false} CompText(s: string, p: nat, f: Filter, u: nat)
    requires WellFormed(f) && At(s, Text(f), p) && u == p + |Text(f)| - 1
    ensures FilterCompF(s, p + 1) == Ok((Some(f), u))
    decreases f, 2
  {
    if f.And? || f.Or? {
      CompTextList(s, p, f, u);
    } else if f.Not? {
      CompTextNot(s, p, f, u);
    } else {
      CompTextItem(s, p, f, u);
    }
  }

  /** The printed form of a compound filter: `(`, the operator, the children, `)`. */
  lemma ListLayout(s: string, p: nat, f: Filter)
    requires (f.And? || f.Or?) && At(s, Text(f), p)
    ensures p + 1 < |s| && s[p + 1] == (if f.And? then '&' else '|')
    ensures At(s, TextAll(f.children) + ")", p + 2)
    ensures |Text(f)| == 2 + |TextAll(f.children)| + 1
  {
    var c := if f.And? then '&' else '|';
    assert Text(f) == ['(', c] + (TextAll(f.children) + ")");
    OccursSplit(s, ['(', c], TextAll(f.children) + ")", p);
    OccursChar(s, ['(', c], p, 1);
  }

  lemma {:induction false} CompTextList(s: string, p: nat, f: Filter, u: nat)
    requires (f.And? || f.Or?) && WellFormed(f) && At(s, Text(f), p) && u == p + |Text(f)| - 1
    ensures FilterCompF(s, p + 1) == Ok((Some(f), u))
    decreases f, 1
  {
    ListLayout(s, p, f);
    SkipAt(s, p + 1);
    ListText(s, p + 2, f.children, u);
    CompListSteps(s, p + 1, f, p + 2, u);
  }

  /** The printed form of a negation: `(!`, the child, `)`. */
  lemma NotLayout(s: string, p: nat, f: Filter)
    requires f.Not? && At(s, Text(f), p)
    ensures p + 1 < |s| && s[p + 1] == '!'
    ensures At(s, Text(f.child), p + 2)
    ensures |Text(f)| == 2 + |Text(f.child)| + 1
  {
    assert Text(f) == ("(!" + Text(f.child)) + ")";
    OccursSplit(s, "(!" + Text(f.child), ")", p);
    OccursSplit(s, "(!", Text(f.child), p);
    OccursChar(s, "(!", p, 1);
  }

  lemma {:induction false} CompTextNot(s: string, p: nat, f: Filter, u: nat)
    requires f.Not? && WellFormed(f) && At(s, Text(f), p) && u == p + |Text(f)| - 1
    ensures FilterCompF(s, p + 1) == Ok((Some(f), u))
    decreases f, 1
  {
    NotLayout(s, p, f);
    SkipAt(s, p + 1);
    FilterText(s, p + 2, f.child, u);
    CompNotSteps(s, p + 1, f, p + 2, u);
  }

  /** filtercomp reads a printed item back. */
  lemma CompTextItem(s: string, p: nat, f: Filter, u: nat)
    requires IsItem(f) && WellFormed(f) && At(s, Text(f), p) && u == p + |Text(f)| - 1
    ensures FilterCompF(s, p + 1) == Ok((Some(f), u))
  {
    ItemLayout(s, p, f, u);
    CompItem(s, p + 1, f, u);
  }

  /**
   * An item inside its parentheses: an attribute starting with `&`, `|`
   * or `!` first sends filtercomp down the compound branch, which finds
   * no filter and hands the character to item.
   */
  lemma CompItem(s: string, p: nat, f: Filter, u: nat)
    requires ItemPlaced(s, p, f, u)
    ensures FilterCompF(s, p) == Ok((Some(f), u))
  {
    var a := f.attr;
    if a[0] == '&' || a[0] == '|' || a[0] == '!' {
      CompSpecialItem(s, p, f, u);
    } else {
      CompPlainItem(s, p, f, u);
    }
  }

  /** An item whose attribute starts with an ordinary character goes straight to item. */
  lemma CompPlainItem(s: string, p: nat, f: Filter, u: nat)
    requires ItemPlaced(s, p, f, u) && (f.attr[0] != '&' && f.attr[0] != '|' && f.attr[0] != '!')
    ensures FilterCompF(s, p) == Ok((Some(f), u))
  {
    ItemTextPlain(s, p, f, u);
    CompItemStep(s, p, Ok((Some(f), u)));
  }

  /** item reads an item whose attribute starts the text between the parentheses. */
  lemma ItemTextPlain(s: string, p: nat, f: Filter, u: nat)
    requires ItemPlaced(s, p, f, u)
    ensures p < |s| && SkipWs(s, p) == p && s[p] == f.attr[0] && !IsDelimiter(s[p])
    ensures ItemF(s, p, "") == Ok((Some(f), u))
  {
    OccursChar(s, f.attr, p, 0);
    SkipAt(s, p);
    assert f.attr[..0] == "";
    ItemText(s, p, f, 0, "", u);
  }

  lemma CompSpecialItem(s: string, p: nat, f: Filter, u: nat)
    requires ItemPlaced(s, p, f, u) && (f.attr[0] == '&' || f.attr[0] == '|' || f.attr[0] == '!')
    ensures FilterCompF(s, p) == Ok((Some(f), u))
  {
    var a := f.attr;
    OccursChar(s, a, p, 0);
    OccursChar(s, a, p, 1);
    SkipAt(s, p);
    var q: nat := p + 1;
    SkipAt(s, q);
    FilterNone(s, q);
    assert a[..1] == [s[p]];
    ItemText(s, p, f, 1, [s[p]], u);
    CompSpecialOperator(s, p, q);
  }

  /** The operator character of such an item, read as an empty NOT or an empty list. */
  lemma CompSpecialOperator(s: string, p: nat, q: nat)
    requires q == p + 1 <= |s| && (s[p] == '&' || s[p] == '|' || s[p] == '!')
    requires SkipWs(s, p) == p && SkipWs(s, q) == q
    requires FilterF(s, q) == Ok((None, q))
    ensures FilterCompF(s, p) == ItemF(s, q, [s[p]])
  {
    if s[p] == '!' {
      CompNotEmpty(s, p, q);
    } else {
      ListEnd(s, q);
      CompListEmpty(s, p, q);
    }
  }

  /** The printed children: the first child's text, then the rest with the `)`. */
  lemma ListTextLayout(s: string, p: nat, cs: seq<Filter>)
    requires |cs| > 0 && At(s, TextAll(cs) + ")", p)
    ensures At(s, Text(cs[0]), p) && At(s, TextAll(cs[1..]) + ")", p + |Text(cs[0])|)
    ensures |TextAll(cs)| == |Text(cs[0])| + |TextAll(cs[1..])|
  {
    assert TextAll(cs) + ")" == Text(cs[0]) + (TextAll(cs[1..]) + ")");
    OccursSplit(s, Text(cs[0]), TextAll(cs[1..]) + ")", p);
  }

  /** filterlist at the `)` that closes the list reads no filter. */
  lemma ListTextEnd(s: string, p: nat)
    requires At(s, ")", p)
    ensures ListF(s, p) == Ok(([], p))
  {
    OccursChar(s, ")", p, 0);
    SkipAt(s, p);
    FilterNone(s, p);
    ListEnd(s, p);
  }

  /** filterlist reads printed filters back up to the `)` that closes the list. */
  lemma {:induction false} ListText(s: string, p: nat, cs: seq<Filter>, r: nat)
    requires AllWellFormed(cs) && At(s, TextAll(cs) + ")", p) && r == p + |TextAll(cs)|
    ensures ListF(s, p) == Ok((cs, r))
    decreases cs, 1
  {
    if cs == [] {
      assert TextAll(cs) + ")" == ")";
      ListTextEnd(s, p);
    } else {
      ListTextCons(s, p, cs, r);
    }
  }

  /** filterlist reads the first printed filter, then the rest of the list. */
  lemma {:induction false} ListTextCons(s: string, p: nat, cs: seq<Filter>, r: nat)
    requires |cs| > 0 && AllWellFormed(cs) && At(s, TextAll(cs) + ")", p) && r == p + |TextAll(cs)|
    ensures ListF(s, p) == Ok((cs, r))
    decreases cs, 0
  {
    ListTextLayout(s, p, cs);
    var q: nat := p + |Text(cs[0])|;
    FilterText(s, p, cs[0], q);
    ListText(s, q, cs[1..], r);
    ListSteps(s, p, cs, q, r);
  }

  /**
   * The round trip: the printed form of a well-formed filter parses, as a
   * whole string, to the filter itself.
   */
  lemma ParsePrinted(f: Filter)
    requires WellFormed(f)
    ensures StartF(Text(f), 0) == Ok(Some(f))
  {
    AtSuffix(Text(f), 0);
    assert Text(f)[0..] == Text(f);
    FilterText(Text(f), 0, f, |Text(f)|);
  }
}
