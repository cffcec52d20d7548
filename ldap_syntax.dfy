/**
 * The syntax of LDAP filters (RFC 1960, section 2) as the parser sees it,
 * the postfix operator program the parser emits for each filter, and the
 * escaping the printer uses for literal values.
 */
module LdapSyntax {
  import opened Common
  import opened LdapCompare

  /**
   * A filter as parsed: `(&F1..Fn)`, `(|F1..Fn)`, `(!F)` and the three
   * item forms (an attribute compared with a value, `attr=*`, and
   * `attr=p0*p1*...*pn` with "" standing for a leading or trailing star).
   */
  datatype Filter =
    | And(children: seq<Filter>)
    | Or(children: seq<Filter>)
    | Not(child: Filter)
    | Simple(attr: string, op: CmpOp, value: string)
    | Present(attr: string)
    | Substring(attr: string, pieces: seq<string>)

  /**
   * The operators of the postfix program. CompareOp stands for the four
   * classes EqualOperator, GreaterEqualOperator, LessEqualOperator and
   * ApproxOperator, which differ only in the comparison they pass on.
   */
  datatype Op =
    | AndOp(n: nat)
    | OrOp(n: nat)
    | NotOp
    | ObjectClassOp(target: string)
    | CompareOp(cmp: CmpOp)
    | PresentOp(attr: string)
    | PushOp(attr: string)
    | ConstOp(val: string)
    | SubStringOp(pieces: seq<string>)

  /** The attribute an `=` item on which becomes an ObjectClassOperator. */
  const OBJECT_CLASS: string := "objectClass"

  predicate IsObjectClass(attr: string)
  {
    EqualsIgnoreCase(attr, OBJECT_CLASS)
  }

  /**
   * The code the parser appends for a filter: children first, in order,
   * then the operator that combines them.
   */
  function Compile(f: Filter): (code: seq<Op>)
    ensures code != []
    decreases f
  {
    match f
    case And(cs) => CompileAll(cs) + [AndOp(|cs|)]
    case Or(cs) => CompileAll(cs) + [OrOp(|cs|)]
    case Not(c) => Compile(c) + [NotOp]
    case Simple(a, op, v) =>
      if op == Equal && IsObjectClass(a) then [ObjectClassOp(v)]
      else [PushOp(a), ConstOp(v), CompareOp(op)]
    case Present(a) => [PresentOp(a)]
    case Substring(a, ps) => [PushOp(a), SubStringOp(ps)]
  }

  function CompileAll(cs: seq<Filter>): seq<Op>
    decreases cs
  {
    if cs == [] then [] else Compile(cs[0]) + CompileAll(cs[1..])
  }

  /** `=` on objectClass with a plain value is the one item compiled to a single operator. */
  lemma CompileSimple(a: string, op: CmpOp, v: string)
    ensures |Compile(Simple(a, op, v))| == 1 <==> (op == Equal && IsObjectClass(a))
    ensures op == Equal && IsObjectClass(a) ==> Compile(Simple(a, op, v)) == [ObjectClassOp(v)]
  {
  }

  lemma {:induction false} CompileAllAppend(cs: seq<Filter>, ds: seq<Filter>)
    ensures CompileAll(cs + ds) == CompileAll(cs) + CompileAll(ds)
    decreases cs
  {
    if cs != [] {
      assert (cs + ds)[0] == cs[0];
      assert (cs + ds)[1..] == cs[1..] + ds;
      CompileAllAppend(cs[1..], ds);
    } else {
      assert cs + ds == ds;
    }
  }

  // ---------------------------------------------------------------------
  // appendEscaped
  // ---------------------------------------------------------------------

  /** The characters appendEscaped prefixes with a backslash. */
  predicate IsEscapedChar(c: char)
  {
    c == '(' || c == ')' || c == '*' || c == '\\'
  }

  /** The text appendEscaped appends for a value. */
  function Escaped(v: string): (r: string)
    ensures |r| >= |v|
    decreases |v|
  {
    if v == [] then []
    else Escaped(v[..|v| - 1]) + (if IsEscapedChar(v[|v| - 1]) then ['\\', v[|v| - 1]] else [v[|v| - 1]])
  }

  /** appendEscaped(buf, value): walks the value and appends to the buffer. */
  method AppendEscaped(buf: string, value: string) returns (out: string)
    ensures out == buf + Escaped(value)
  {
    out := buf;
    var i := 0;
    while i < |value|
      invariant 0 <= i <= |value|
      invariant out == buf + Escaped(value[..i])
    {
      var c := value[i];
      if c == '(' || c == ')' || c == '*' || c == '\\' {
        out := out + ['\\'];
      }
      out := out + [c];
      assert value[..i + 1][..i] == value[..i];
      i := i + 1;
    }
    assert value[..i] == value;
  }

  lemma {:induction false} EscapedAppend(v: string, w: string)
    ensures Escaped(v + w) == Escaped(v) + Escaped(w)
    decreases |w|
  {
    if w != [] {
      var w' := w[..|w| - 1];
      assert (v + w)[..|v + w| - 1] == v + w';
      EscapedAppend(v, w');
    } else {
      assert v + w == v;
    }
  }

  /** Escaping a character on its own. */
  function EscapeChar(c: char): string
  {
    if IsEscapedChar(c) then ['\\', c] else [c]
  }

  lemma EscapedCons(c: char, v: string)
    ensures Escaped([c] + v) == EscapeChar(c) + Escaped(v)
  {
    EscapedAppend([c], v);
    assert Escaped([c]) == Escaped([]) + EscapeChar(c);
  }

  /** Escaped text holds no unescaped special character. */
  lemma {:induction false} EscapedHasNoBareSpecial(v: string)
    ensures forall k :: 0 <= k < |Escaped(v)| && IsEscapedChar(Escaped(v)[k]) && Escaped(v)[k] != '\\' ==>
      k > 0 && Escaped(v)[k - 1] == '\\'
    decreases |v|
  {
    if v != [] {
      EscapedHasNoBareSpecial(v[..|v| - 1]);
    }
  }

  // ---------------------------------------------------------------------
  // The printed form
  // ---------------------------------------------------------------------

  function OpText(op: CmpOp): string
  {
    match op
    case Equal => "="
    case GreaterEqual => ">="
    case LessEqual => "<="
    case Approx => "~="
  }

  /** Substring pieces joined by `*`, each escaped. */
  function JoinPieces(ps: seq<string>): string
    decreases |ps|
  {
    if ps == [] then []
    else if |ps| == 1 then Escaped(ps[0])
    else Escaped(ps[0]) + "*" + JoinPieces(ps[1..])
  }

  /**
   * The text toStringInfix produces for the program of a filter: the
   * operator trees print themselves with their children in order, values
   * escaped, and an `=` on objectClass printed under the name objectClass.
   */
  function Text(f: Filter): string
    decreases f
  {
    match f
    case And(cs) => "(&" + TextAll(cs) + ")"
    case Or(cs) => "(|" + TextAll(cs) + ")"
    case Not(c) => "(!" + Text(c) + ")"
    case Simple(a, op, v) =>
      if op == Equal && IsObjectClass(a) then "(" + OBJECT_CLASS + "=" + Escaped(v) + ")"
      else "(" + a + OpText(op) + Escaped(v) + ")"
    case Present(a) => "(" + a + "=*)"
    case Substring(a, ps) => "(" + a + "=" + JoinPieces(ps) + ")"
  }

  function TextAll(cs: seq<Filter>): string
    decreases cs
  {
    if cs == [] then [] else Text(cs[0]) + TextAll(cs[1..])
  }

  // ---------------------------------------------------------------------
  // The filters whose printed form parses back to themselves
  // ---------------------------------------------------------------------

  /** The characters that end an attribute name and the star. */
  predicate IsDelimiter(c: char)
  {
    c == '=' || c == '>' || c == '<' || c == '~' || c == '(' || c == ')'
  }

  /**
   * An attribute the parser reads back unchanged: not empty, no delimiter,
   * no leading or trailing whitespace, and (since `&`, `|` and `!` first
   * start a compound filter and the lexer then skips whitespace) no
   * whitespace right after a leading `&`, `|` or `!`.
   */
  predicate ValidAttr(a: string)
  {
    |a| >= 1
    && (forall k :: 0 <= k < |a| ==> !IsDelimiter(a[k]))
    && !IsWhitespace(a[0]) && !IsWhitespace(a[|a| - 1])
    && ((a[0] == '&' || a[0] == '|' || a[0] == '!') ==> |a| >= 2 && !IsWhitespace(a[1]))
  }

  /**
   * Substring pieces as the parser produces them: at least two, non-empty
   * in the middle, and not just the two anchors of a lone `*`.
   */
  predicate ValidPieces(ps: seq<string>)
  {
    |ps| >= 2
    && (forall k :: 0 < k < |ps| - 1 ==> ps[k] != [])
    && !(|ps| == 2 && ps[0] == [] && ps[1] == [])
  }

  predicate WellFormed(f: Filter)
    decreases f
  {
    match f
    case And(cs) => |cs| >= 1 && AllWellFormed(cs)
    case Or(cs) => |cs| >= 1 && AllWellFormed(cs)
    case Not(c) => WellFormed(c)
    case Simple(a, op, v) => ValidAttr(a) && (op == Equal && IsObjectClass(a) ==> a == OBJECT_CLASS)
    case Present(a) => ValidAttr(a)
    case Substring(a, ps) => ValidAttr(a) && ValidPieces(ps)
  }

  predicate AllWellFormed(cs: seq<Filter>)
    decreases cs
  {
    cs == [] || (WellFormed(cs[0]) && AllWellFormed(cs[1..]))
  }
}
