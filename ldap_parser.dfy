/**
 * The recursive-descent parser of filter strings. The functions of the
 * first half state what each procedure computes from the input and the
 * lexer position; the Lexer and Parser classes of the second half are the
 * procedures themselves, consuming the lexer and appending to the program,
 * each proved against its function.
 */
module LdapParser {
  import opened Common
  import opened LdapCompare
  import opened LdapSyntax

  /** What `substring` makes of the right side of an item. */
  datatype RightSide =
    | SimpleValue(value: string)
    | PresentValue
    | SubstringValue(pieces: seq<string>)

  // ---------------------------------------------------------------------
  // The lexer, as functions of the input and a position
  // ---------------------------------------------------------------------

  /** The character at `p`, None standing for EOF. */
  function CharAt(s: string, p: nat): Option<char>
  {
    if p < |s| then Some(s[p]) else None
  }

  /** skipwhitespace: the first position at or after `p` that is not whitespace. */
  function SkipWs(s: string, p: nat): (q: nat)
    requires p <= |s|
    ensures p <= q <= |s|
    decreases |s| - p
  {
    if p < |s| && IsWhitespace(s[p]) then SkipWs(s, p + 1) else p
  }

  // ---------------------------------------------------------------------
  // The procedures, as functions
  // ---------------------------------------------------------------------

  /** The message `start` raises for input left after the filter. */
  function TrailingMessage(c: char): string
  {
    "expected <EOF>; found '" + [c] + "'"
  }

  const MSG_FILTERCOMP: string := "expected filtercomp"
  const MSG_RPAREN: string := "expected )"
  const MSG_OPERATOR: string := "expected =|~=|>=|<="
  const MSG_RIGHT_SIDE: string := "expected value|substring|*"
  const MSG_TWO_CHAR_OP: string := "expected ~=|>=|<="
  const MSG_EOF_ESCAPE: string := "unexpected EOF"
  const MSG_CLOSE: string := "expected ')'"
  const MSG_VALUE: string := "expected value|substring"
  const MSG_STARS: string := "unexpected '**'"

  /**
   * start: a filter followed by end of input. Ok(None) is start returning
   * false (no filter at all); an Err is the ParseException's message.
   */
  function StartF(s: string, p: nat): Result<Option<Filter>, string>
    requires p <= |s|
  {
    match FilterF(s, p)
    case Err(e) => Err(e)
    case Ok((None, _)) => Ok(None)
    case Ok((Some(f), q)) => if q < |s| then Err(TrailingMessage(s[q])) else Ok(Some(f))
  }

  /**
   * filter: `(` filtercomp `)`. None: no `(` after the whitespace, which
   * is consumed; otherwise the filter and the position after its `)`.
   */
  function FilterF(s: string, p: nat): (r: Result<(Option<Filter>, nat), string>)
    requires p <= |s|
    ensures r.Ok? ==> p <= r.value.1 <= |s|
    ensures r.Ok? && r.value.0.Some? ==> p < r.value.1
    decreases |s| - p, 0
  {
    var q := SkipWs(s, p);
    if q == |s| || s[q] != '(' then Ok((None, q))
    else InParensF(s, q + 1)
  }

  /** filter after its `(`: filtercomp, then the `)`. */
  function InParensF(s: string, p: nat): (r: Result<(Option<Filter>, nat), string>)
    requires p <= |s|
    ensures r.Ok? ==> p < r.value.1 <= |s| && r.value.0.Some?
    decreases |s| - p, 4
  {
    match FilterCompF(s, p)
    case Err(e) => Err(e)
    case Ok((None, _)) => Err(MSG_FILTERCOMP)
    case Ok((Some(f), r)) =>
      var t := SkipWs(s, r);
      if t < |s| && s[t] == ')' then Ok((Some(f), t + 1)) else Err(MSG_RPAREN)
  }

  /**
   * How filtercomp begins: a compound filter parsed outright (or nothing
   * at all, at EOF or a delimiter), or the position and the prefix with
   * which the item that makes up the filter is to be read.
   */
  datatype CompHead = Parsed(filter: Option<Filter>, pos: nat) | ItemAt(pos: nat, start: string)

  /**
   * filtercomp up to the call of item: `&` or `|` and a filter list, `!`
   * and a filter. A `&`, `|` or `!` not followed by filters starts the
   * attribute of an item.
   */
  function HeadF(s: string, p: nat): (r: Result<CompHead, string>)
    requires p <= |s|
    ensures r.Ok? ==> p <= r.value.pos <= |s|
    decreases |s| - p, 2
  {
    var q := SkipWs(s, p);
    if q == |s| then Ok(Parsed(None, q))
    else if s[q] == '&' || s[q] == '|' then
      match ListF(s, q + 1)
      case Err(e) => Err(e)
      case Ok((cs, r)) =>
        if |cs| == 0 then Ok(ItemAt(r, [s[q]]))
        else if s[q] == '&' then Ok(Parsed(Some(And(cs)), r))
        else Ok(Parsed(Some(Or(cs)), r))
    else if s[q] == '!' then
      match FilterF(s, q + 1)
      case Err(e) => Err(e)
      case Ok((None, r)) => Ok(ItemAt(r, "!"))
      case Ok((Some(g), r)) => Ok(Parsed(Some(Not(g)), r))
    else if IsDelimiter(s[q]) then Ok(Parsed(None, q))
    else Ok(ItemAt(q, ""))
  }

  /** filtercomp: a compound filter, or an item. */
  function FilterCompF(s: string, p: nat): (r: Result<(Option<Filter>, nat), string>)
    requires p <= |s|
    ensures r.Ok? ==> p <= r.value.1 <= |s|
    decreases |s| - p, 3
  {
    match HeadF(s, p)
    case Err(e) => Err(e)
    case Ok(Parsed(f, r)) => Ok((f, r))
    case Ok(ItemAt(r, start)) => ItemF(s, r, start)
  }

  /** filterlist: as many filters as follow one another. */
  function ListF(s: string, p: nat): (r: Result<(seq<Filter>, nat), string>)
    requires p <= |s|
    ensures r.Ok? ==> p <= r.value.1 <= |s|
    decreases |s| - p, 1
  {
    match FilterF(s, p)
    case Err(e) => Err(e)
    case Ok((None, q)) => Ok(([], q))
    case Ok((Some(f), q)) =>
      match ListF(s, q)
      case Err(e) => Err(e)
      case Ok((fs, r)) => Ok(([f] + fs, r))
  }

  /** The item a parsed attribute, operator and right side stand for. */
  function MakeItem(attr: string, op: CmpOp, rhs: RightSide): Filter
  {
    match rhs
    case SimpleValue(v) => Simple(attr, op, v)
    case PresentValue => Present(attr)
    case SubstringValue(ps) => Substring(attr, ps)
  }

  /**
   * item: attribute, operator, right side. Only `=` admits a right side
   * with stars.
   */
  function ItemF(s: string, p: nat, start: string): (r: Result<(Option<Filter>, nat), string>)
    requires p <= |s|
    ensures r.Ok? ==> p <= r.value.1 <= |s|
  {
    match AttributeF(s, p, start)
    case (None, q) => Ok((None, q))
    case (Some(attr), q) =>
      match EqualOpF(s, SkipWs(s, q))
      case Err(e) => Err(e)
      case Ok((None, _)) => Err(MSG_OPERATOR)
      case Ok((Some(op), t)) =>
        match SubstringF(s, t)
        case Err(e) => Err(e)
        case Ok((rhs, u)) =>
          if op != Equal && !rhs.SimpleValue? then Err(MSG_RIGHT_SIDE)
          else Ok((Some(MakeItem(attr, op, rhs)), u))
  }

  /** The position where an attribute that starts at `i` ends. */
  function AttrEnd(s: string, i: nat): (r: nat)
    requires i < |s|
    ensures i < r <= |s|
    decreases |s| - i
  {
    if i + 1 == |s| || IsDelimiter(s[i + 1]) then i + 1 else AttrEnd(s, i + 1)
  }

  /** The trailing-blank removal of `attribute`: it never removes the first character. */
  function TrimEnd(buf: string): (r: string)
    requires |buf| >= 1
    ensures 1 <= |r| <= |buf| && r == buf[..|r|]
    decreases |buf|
  {
    if |buf| == 1 || !IsWhitespace(buf[|buf| - 1]) then buf
    else TrimEnd(buf[..|buf| - 1])
  }

  /**
   * attribute(buf): after the whitespace, at least one character that is
   * not a delimiter, then everything up to the next delimiter or EOF,
   * appended to `start` and stripped of trailing whitespace.
   */
  function AttributeF(s: string, p: nat, start: string): (r: (Option<string>, nat))
    requires p <= |s|
    ensures p <= r.1 <= |s|
  {
    var q := SkipWs(s, p);
    if q == |s| || IsDelimiter(s[q]) then (None, q)
    else
      var e := AttrEnd(s, q);
      (Some(TrimEnd(start + s[q..e])), e)
  }

  /** equalop: `=`, `~=`, `>=` or `<=`; None is NOOP, nothing consumed after the whitespace. */
  function EqualOpF(s: string, p: nat): (r: Result<(Option<CmpOp>, nat), string>)
    requires p <= |s|
    ensures r.Ok? ==> p <= r.value.1 <= |s|
  {
    var q := SkipWs(s, p);
    if q == |s| then Ok((None, q))
    else if s[q] == '=' then Ok((Some(Equal), q + 1))
    else if s[q] == '~' || s[q] == '<' || s[q] == '>' then
      if q + 1 < |s| && s[q + 1] == '=' then
        Ok((Some(if s[q] == '~' then Approx else if s[q] == '<' then LessEqual else GreaterEqual), q + 2))
      else Err(MSG_TWO_CHAR_OP)
    else Ok((None, q))
  }

  /**
   * The loop of `substring` from position `p` with its state: the pieces
   * collected, the piece being read, whether the last thing read was a
   * star, and whether a star came before any piece. Ok holds the pieces,
   * the two star flags and the position of the closing `)`, not consumed.
   */
  function ScanF(s: string, p: nat, pieces: seq<string>, ss: string, wasStar: bool, leftstar: bool): (r: Result<(seq<string>, bool, bool, nat), string>)
    requires p <= |s|
    ensures r.Ok? ==> p <= r.value.3 < |s| && s[r.value.3] == ')'
    decreases |s| - p
  {
    if p == |s| || s[p] == '(' then Err(if |pieces| > 0 then MSG_CLOSE else MSG_VALUE)
    else if s[p] == ')' then
      if wasStar then Ok((pieces, leftstar, true, p)) else Ok((pieces + [ss], leftstar, false, p))
    else if s[p] == '\\' then
      if p + 1 == |s| then Err(MSG_EOF_ESCAPE)
      else ScanF(s, p + 2, pieces, ss + [s[p + 1]], false, leftstar)
    else if s[p] == '*' then
      if wasStar then Err(MSG_STARS)
      else
        var pieces' := if |ss| > 0 then pieces + [ss] else pieces;
        ScanF(s, p + 1, pieces', "", true, leftstar || |pieces'| == 0)
    else ScanF(s, p + 1, pieces, ss + [s[p]], false, leftstar)
  }

  /** The classification at the end of `substring`. */
  function Classify(pieces: seq<string>, leftstar: bool, rightstar: bool): RightSide
  {
    if |pieces| == 0 then PresentValue
    else if leftstar || rightstar || |pieces| > 1 then
      SubstringValue((if leftstar then [""] else []) + pieces + (if rightstar then [""] else []))
    else SimpleValue(pieces[0])
  }

  /** substring: the right side of an item, up to (not including) its `)`. */
  function SubstringF(s: string, p: nat): (r: Result<(RightSide, nat), string>)
    requires p <= |s|
    ensures r.Ok? ==> p <= r.value.1 < |s| && s[r.value.1] == ')'
  {
    match ScanF(s, p, [], "", false, false)
    case Err(e) => Err(e)
    case Ok((pieces, leftstar, rightstar, q)) => Ok((Classify(pieces, leftstar, rightstar), q))
  }

  /**
   * The classification rules: no pieces is a presence test, a single
   * unstarred piece a simple value, and any star a substring anchored by
   * "" on the side of a leading or trailing star.
   */
  lemma ClassifyRules(pieces: seq<string>, leftstar: bool, rightstar: bool)
    ensures Classify(pieces, leftstar, rightstar).PresentValue? <==> pieces == []
    ensures Classify(pieces, leftstar, rightstar).SimpleValue? <==>
      (|pieces| == 1 && !leftstar && !rightstar)
    ensures Classify(pieces, leftstar, rightstar).SubstringValue? ==>
      var ps := Classify(pieces, leftstar, rightstar).pieces;
      |ps| >= 2 && (leftstar <==> ps[0] == "" && ps[1..] == pieces + (if rightstar then [""] else []))
  {
  }

  /** The loop at the end of `attribute`: trailing whitespace cut, the first character kept. */
  method TrimTrailing(buf: string) returns (r: string)
    requires |buf| >= 1
    ensures r == TrimEnd(buf)
  {
    var i := |buf| - 1;
    assert buf[..i + 1] == buf;
    while i > 0 && IsWhitespace(buf[i])
      invariant 0 <= i < |buf|
      invariant TrimEnd(buf[..i + 1]) == TrimEnd(buf)
    {
      assert buf[..i + 1][..i] == buf[..i];
      i := i - 1;
    }
    r := buf[..i + 1];
  }

  // ---------------------------------------------------------------------
  // The lexer and the parser, updated in place
  // ---------------------------------------------------------------------

  /** LdapLexer over a character array: the input and the read position. */
  class Lexer {
    const input: string
    var pos: nat

    constructor (s: string)
      ensures input == s && pos == 0
    {
      input := s;
      pos := 0;
    }

    predicate Valid()
      reads this
    {
      pos <= |input|
    }

    /** peek: the next character, not consumed. */
    method Peek() returns (c: Option<char>)
      requires Valid()
      ensures c == CharAt(input, pos)
    {
      c := if pos < |input| then Some(input[pos]) else None;
    }

    /** get: the next character, consumed (EOF consumes nothing). */
    method Get() returns (c: Option<char>)
      requires Valid()
      modifies this
      ensures Valid()
      ensures c == CharAt(input, old(pos))
      ensures old(pos) < |input| ==> pos == old(pos) + 1
      ensures old(pos) == |input| ==> pos == old(pos)
    {
      if pos < |input| {
        c := Some(input[pos]);
        pos := pos + 1;
      } else {
        c := None;
      }
    }

    /** skipwhitespace: consumes the whitespace ahead. */
    method SkipWhitespace()
      requires Valid()
      modifies this
      ensures Valid()
      ensures pos == SkipWs(input, old(pos))
    {
      while pos < |input| && IsWhitespace(input[pos])
        invariant old(pos) <= pos <= |input|
        invariant SkipWs(input, pos) == SkipWs(input, old(pos))
        decreases |input| - pos
      {
        pos := pos + 1;
      }
    }

    /** peeknw: skips whitespace, then peeks. */
    method PeekNw() returns (c: Option<char>)
      requires Valid()
      modifies this
      ensures Valid()
      ensures pos == SkipWs(input, old(pos)) && c == CharAt(input, pos)
    {
      SkipWhitespace();
      c := Peek();
    }

    /** getnw: skips whitespace, then gets. */
    method GetNw() returns (c: Option<char>)
      requires Valid()
      modifies this
      ensures Valid()
      ensures c == CharAt(input, SkipWs(input, old(pos)))
      ensures SkipWs(input, old(pos)) < |input| ==> pos == SkipWs(input, old(pos)) + 1
      ensures SkipWs(input, old(pos)) == |input| ==> pos == |input|
    {
      SkipWhitespace();
      c := Get();
    }
  }

  /**
   * A procedure's boolean outcome agrees with its function: the same
   * exception, or the same answer with the lexer where the function says
   * and the filter's code appended to the program.
   */
  predicate Agrees(r: Result<bool, string>, spec: Result<(Option<Filter>, nat), string>,
                   pos: nat, program: seq<Op>, before: seq<Op>)
  {
    match spec
    case Err(e) => r == Err(e)
    case Ok((f, q)) =>
      r == Ok(f.Some?) && pos == q && program == before + (if f.Some? then Compile(f.value) else [])
  }

  /** What the part of filtercomp before item leaves to do: nothing more, or read an item. */
  datatype HeadOutcome = Done(got: bool) | ReadItem(start: string)

  class Parser {
    const lexer: Lexer
    var program: seq<Op>

    constructor (l: Lexer)
      ensures lexer == l && program == []
    {
      lexer := l;
      program := [];
    }

    predicate Valid()
      reads this, lexer
    {
      lexer.pos <= |lexer.input|
    }

    /** start: a filter, then EOF. */
    method Start() returns (r: Result<bool, string>)
      requires Valid()
      modifies this, lexer
      ensures match StartF(lexer.input, old(lexer.pos))
        case Err(e) => r == Err(e)
        case Ok(None) => r == Ok(false)
        case Ok(Some(f)) => r == Ok(true) && program == old(program) + Compile(f)
    {
      var ok := Filter();
      if ok.Err? || !ok.value {
        return ok;
      }
      var c := lexer.Get();
      if c.Some? {
        return Err(TrailingMessage(c.value));
      }
      r := ok;
    }

    method Filter() returns (r: Result<bool, string>)
      requires Valid()
      modifies this, lexer
      ensures Valid()
      ensures Agrees(r, FilterF(lexer.input, old(lexer.pos)), lexer.pos, program, old(program))
      decreases |lexer.input| - lexer.pos, 0
    {
      ghost var s, p0, prog0 := lexer.input, lexer.pos, program;
      var c := lexer.PeekNw();
      ghost var q := lexer.pos;
      if c != Some('(') {
        assert FilterF(s, p0) == Ok((None, q));
        return Ok(false);
      }
      var _ := lexer.Get();
      var comp := FilterComp();
      ghost var spec := FilterCompF(s, q + 1);
      if comp.Err? {
        assert FilterF(s, p0) == Err(comp.error);
        return comp;
      }
      if !comp.value {
        assert FilterF(s, p0) == Err(MSG_FILTERCOMP);
        return Err(MSG_FILTERCOMP);
      }
      ghost var f, r1 := spec.value.0.value, spec.value.1;
      assert program == prog0 + Compile(f);
      c := lexer.GetNw();
      ghost var t := SkipWs(s, r1);
      if c != Some(')') {
        assert FilterF(s, p0) == Err(MSG_RPAREN);
        return Err(MSG_RPAREN);
      }
      ghost var t1: nat := t + 1;
      assert FilterF(s, p0) == Ok((Some(f), t1));
      r := Ok(true);
    }

    method FilterComp() returns (r: Result<bool, string>)
      requires Valid()
      modifies this, lexer
      ensures Valid()
      ensures Agrees(r, FilterCompF(lexer.input, old(lexer.pos)), lexer.pos, program, old(program))
      decreases |lexer.input| - lexer.pos, 4
    {
      var h := CompHead();
      match h {
        case Err(e) => r := Err(e);
        case Ok(Done(got)) => r := Ok(got);
        case Ok(ReadItem(start)) => r := Item(start);
      }
    }

    /**
     * filtercomp up to its call of item: the compound filter parsed and its
     * code appended, nothing found, or the prefix with which the item is to
     * be read from the new position.
     */
    method CompHead() returns (r: Result<HeadOutcome, string>)
      requires Valid()
      modifies this, lexer
      ensures Valid()
      ensures match HeadF(lexer.input, old(lexer.pos))
        case Err(e) => r == Err(e)
        case Ok(Parsed(f, q)) =>
          r == Ok(Done(f.Some?)) && lexer.pos == q &&
          program == old(program) + (if f.Some? then Compile(f.value) else [])
        case Ok(ItemAt(q, start)) => r == Ok(ReadItem(start)) && lexer.pos == q && program == old(program)
      decreases |lexer.input| - lexer.pos, 3
    {
      ghost var s, p0 := lexer.input, lexer.pos;
      var c := lexer.PeekNw();
      if c == None {
        return Ok(Done(false));
      }
      var ch := c.value;
      if ch == '&' || ch == '|' {
        var cnt := Compound(ch);
        if cnt.Err? {
          return Err(cnt.error);
        }
        if cnt.value == 0 {
          return Ok(ReadItem([ch]));
        }
        return Ok(Done(true));
      } else if ch == '!' {
        var got := Negation();
        if got.Err? {
          return Err(got.error);
        }
        if !got.value {
          return Ok(ReadItem("!"));
        }
        return Ok(Done(true));
      } else if IsDelimiter(ch) {
        return Ok(Done(false));
      }
      r := Ok(ReadItem(""));
    }

    /**
     * The `&` and `|` branch of filtercomp, at the operator character: the
     * number of filters in the list, the compound operator appended when
     * there is at least one.
     */
    method Compound(ch: char) returns (r: Result<nat, string>)
      requires Valid() && lexer.pos < |lexer.input| && lexer.input[lexer.pos] == ch
      requires ch == '&' || ch == '|'
      modifies this, lexer
      ensures Valid()
      ensures match ListF(lexer.input, old(lexer.pos) + 1)
        case Err(e) => r == Err(e)
        case Ok((cs, q)) =>
          r == Ok(|cs|) && lexer.pos == q &&
          program == old(program) + (if |cs| == 0 then [] else Compile(if ch == '&' then And(cs) else Or(cs)))
      decreases |lexer.input| - lexer.pos, 2
    {
      ghost var s, q, prog0 := lexer.input, lexer.pos, program;
      var _ := lexer.Get();
      var cnt := FilterList();
      ghost var spec := ListF(s, q + 1);
      if cnt.Err? {
        return Err(cnt.error);
      }
      ghost var cs := spec.value.0;
      if cnt.value == 0 {
        return Ok(0);
      }
      program := program + [if ch == '&' then AndOp(cnt.value) else OrOp(cnt.value)];
      ghost var g := if ch == '&' then And(cs) else Or(cs);
      assert program == prog0 + Compile(g);
      return Ok(cnt.value);
    }

    /** The `!` branch of filtercomp, at the `!`: whether a filter followed, NotOperator appended if so. */
    method Negation() returns (r: Result<bool, string>)
      requires Valid() && lexer.pos < |lexer.input| && lexer.input[lexer.pos] == '!'
      modifies this, lexer
      ensures Valid()
      ensures match FilterF(lexer.input, old(lexer.pos) + 1)
        case Err(e) => r == Err(e)
        case Ok((g, q)) =>
          r == Ok(g.Some?) && lexer.pos == q &&
          program == old(program) + (if g.Some? then Compile(Not(g.value)) else [])
      decreases |lexer.input| - lexer.pos, 2
    {
      ghost var s, q, prog0 := lexer.input, lexer.pos, program;
      var _ := lexer.Get();
      var sub := Filter();
      ghost var spec := FilterF(s, q + 1);
      if sub.Err? {
        return sub;
      }
      if !sub.value {
        return Ok(false);
      }
      ghost var g := spec.value.0.value;
      program := program + [NotOp];
      assert program == prog0 + Compile(Not(g));
      return Ok(true);
    }

    /** filterlist: the number of filters parsed, their code appended in order. */
    method FilterList() returns (r: Result<nat, string>)
      requires Valid()
      modifies this, lexer
      ensures Valid()
      ensures match ListF(lexer.input, old(lexer.pos))
        case Err(e) => r == Err(e)
        case Ok((cs, q)) => r == Ok(|cs|) && lexer.pos == q && program == old(program) + CompileAll(cs)
      decreases |lexer.input| - lexer.pos, 1
    {
      var s := lexer.input;
      ghost var done: seq<Filter> := [];
      var cnt := 0;
      PrependNothing(ListF(s, lexer.pos));
      while true
        invariant Valid()
        invariant old(lexer.pos) <= lexer.pos
        invariant cnt == |done|
        invariant program == old(program) + CompileAll(done)
        invariant ListF(s, old(lexer.pos)) == Prepend(done, ListF(s, lexer.pos))
        decreases |s| - lexer.pos
      {
        ghost var before := lexer.pos;
        ghost var programBefore := program;
        var more := Filter();
        if more.Err? {
          return Err(more.error);
        }
        if !more.value {
          assert ListF(s, before) == Ok(([], lexer.pos));
          assert done + [] == done;
          break;
        }
        ghost var f := FilterF(s, before).value.0.value;
        CompileAllAppend(done, [f]);
        assert CompileAll([f]) == Compile(f) + CompileAll([]);
        PrependAppend(done, f, ListF(s, lexer.pos));
        done := done + [f];
        cnt := cnt + 1;
      }
      r := Ok(cnt);
    }

    /**
     * item(start): the attribute (after `start`), the operator and the
     * right side, and the code for the item: a single ObjectClassOperator
     * for `=` on objectClass with a plain value, otherwise Push, Const and
     * the comparison, Present, or Push and SubString.
     */
    method Item(start: string) returns (r: Result<bool, string>)
      requires Valid()
      modifies this, lexer
      ensures Valid()
      ensures Agrees(r, ItemF(lexer.input, old(lexer.pos), start), lexer.pos, program, old(program))
    {
      var attr := Attribute(start);
      if attr.None? {
        return Ok(false);
      }
      var a := attr.value;
      lexer.SkipWhitespace();
      var op := EqualOp();
      if op.Err? {
        return Err(op.error);
      }
      if op.value.None? {
        return Err(MSG_OPERATOR);
      }
      var cmp := op.value.value;
      var rhs := Substring();
      if rhs.Err? {
        return Err(rhs.error);
      }
      if cmp != Equal && !rhs.value.SimpleValue? {
        return Err(MSG_RIGHT_SIDE);
      }
      match rhs.value {
        case SimpleValue(v) =>
          if cmp == Equal && EqualsIgnoreCase(a, OBJECT_CLASS) {
            program := program + [ObjectClassOp(v)];
            return Ok(true);
          }
          program := program + [PushOp(a), ConstOp(v), CompareOp(cmp)];
        case PresentValue =>
          program := program + [PresentOp(a)];
        case SubstringValue(ps) =>
          GenerateSubStringCode(a, ps);
      }
      r := Ok(true);
    }

    method GenerateSubStringCode(attr: string, pieces: seq<string>)
      modifies this
      ensures program == old(program) + [PushOp(attr), SubStringOp(pieces)]
    {
      program := program + [PushOp(attr)];
      program := program + [SubStringOp(pieces)];
    }

    /** attribute(buf): the attribute name read after `start`, or None when none begins here. */
    method Attribute(start: string) returns (r: Option<string>)
      requires Valid()
      modifies lexer
      ensures Valid()
      ensures (r, lexer.pos) == AttributeF(lexer.input, old(lexer.pos), start)
    {
      var s := lexer.input;
      lexer.SkipWhitespace();
      var c := lexer.Peek();
      if c.None? || IsDelimiter(c.value) {
        return None;
      }
      ghost var q := lexer.pos;
      var buf := start;
      var parsing := true;
      while parsing
        invariant Valid()
        invariant q <= lexer.pos
        invariant buf == start + s[q..lexer.pos]
        invariant parsing ==> lexer.pos < |s| && AttrEnd(s, lexer.pos) == AttrEnd(s, q)
        invariant !parsing ==> lexer.pos == AttrEnd(s, q)
        decreases |s| - lexer.pos
      {
        var d := lexer.Get();
        assert s[q..lexer.pos] == s[q..lexer.pos - 1] + [d.value];
        buf := buf + [d.value];
        c := lexer.Peek();
        if c.None? || IsDelimiter(c.value) {
          parsing := false;
        }
      }
      var trimmed := TrimTrailing(buf);
      r := Some(trimmed);
    }

    /** equalop: the operator, None for NOOP. */
    method EqualOp() returns (r: Result<Option<CmpOp>, string>)
      requires Valid()
      modifies lexer
      ensures Valid()
      ensures match EqualOpF(lexer.input, old(lexer.pos))
        case Err(e) => r == Err(e)
        case Ok((op, q)) => r == Ok(op) && lexer.pos == q
    {
      lexer.SkipWhitespace();
      var c := lexer.Peek();
      if c == Some('=') {
        var _ := lexer.Get();
        return Ok(Some(Equal));
      } else if c == Some('~') || c == Some('<') || c == Some('>') {
        var first := lexer.Get();
        var second := lexer.Get();
        if second != Some('=') {
          return Err(MSG_TWO_CHAR_OP);
        }
        var op := if c == Some('~') then Approx else if c == Some('<') then LessEqual else GreaterEqual;
        return Ok(Some(op));
      }
      r := Ok(None);
    }

    /** substring: the right side of an item, the lexer left at its `)`. */
    method Substring() returns (r: Result<RightSide, string>)
      requires Valid()
      modifies lexer
      ensures Valid()
      ensures match SubstringF(lexer.input, old(lexer.pos))
        case Err(e) => r == Err(e)
        case Ok((rhs, q)) => r == Ok(rhs) && lexer.pos == q
    {
      var s := lexer.input;
      ghost var final: (seq<string>, bool, bool, nat);
      var pieces: seq<string> := [];
      var ss: string := "";
      var wasStar := false;
      var leftstar := false;
      var rightstar := false;
      while true
        invariant Valid()
        invariant old(lexer.pos) <= lexer.pos
        invariant ScanF(s, lexer.pos, pieces, ss, wasStar, leftstar) == ScanF(s, old(lexer.pos), [], "", false, false)
        decreases |s| - lexer.pos
      {
        var c := lexer.Peek();
        if c == Some(')') {
          if wasStar {
            rightstar := true;
          } else {
            pieces := pieces + [ss];
          }
          ss := "";
          final := (pieces, leftstar, rightstar, lexer.pos);
          assert ScanF(s, old(lexer.pos), [], "", false, false) == Ok(final);
          break;
        } else if c == Some('\\') {
          wasStar := false;
          var _ := lexer.Get();
          var escaped := lexer.Get();
          if escaped.None? {
            return Err(MSG_EOF_ESCAPE);
          }
          ss := ss + [escaped.value];
        } else if c.None? || c == Some('(') {
          if |pieces| > 0 {
            return Err(MSG_CLOSE);
          }
          return Err(MSG_VALUE);
        } else if c == Some('*') {
          if wasStar {
            return Err(MSG_STARS);
          }
          var _ := lexer.Get();
          if |ss| > 0 {
            pieces := pieces + [ss];
          }
          ss := "";
          if |pieces| == 0 {
            leftstar := true;
          }
          wasStar := true;
        } else {
          wasStar := false;
          var d := lexer.Get();
          ss := ss + [d.value];
        }
      }
      assert SubstringF(s, old(lexer.pos)) == Ok((Classify(pieces, leftstar, rightstar), lexer.pos));
      if |pieces| == 0 {
        return Ok(PresentValue);
      }
      if leftstar || rightstar || |pieces| > 1 {
        ghost var collected := pieces;
        if rightstar {
          pieces := pieces + [""];
        }
        if leftstar {
          pieces := [""] + pieces;
        }
        assert pieces == (if leftstar then [""] else []) + collected + (if rightstar then [""] else []);
        return Ok(SubstringValue(pieces));
      }
      r := Ok(SimpleValue(pieces[0]));
    }
  }

  /** The list `done` parsed first, then what `rest` parsed. */
  function Prepend(done: seq<Filter>, rest: Result<(seq<Filter>, nat), string>): Result<(seq<Filter>, nat), string>
  {
    match rest
    case Err(e) => Err(e)
    case Ok((fs, q)) => Ok((done + fs, q))
  }

  lemma PrependNothing(rest: Result<(seq<Filter>, nat), string>)
    ensures Prepend([], rest) == rest
  {
    if rest.Ok? {
      assert [] + rest.value.0 == rest.value.0;
    }
  }

  lemma PrependAppend(done: seq<Filter>, f: Filter, rest: Result<(seq<Filter>, nat), string>)
    ensures Prepend(done, Prepend([f], rest)) == Prepend(done + [f], rest)
  {
    if rest.Ok? {
      assert done + ([f] + rest.value.0) == (done + [f]) + rest.value.0;
    }
  }
}
