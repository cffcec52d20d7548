/**
 * The framework's Filter object: it compiles an expression once (through a
 * process-wide cache of programs keyed by the expression), evaluates the
 * program against a dictionary or a service's properties, and compares
 * filters through their printed form.
 */
module FrameworkFilter {
  import opened Common
  import opened LdapCompare
  import opened LdapSyntax
  import opened LdapEval
  import opened LdapParser
  import opened LdapInfix
  import opened LdapRoundTrip

  /** The exceptions the constructor throws. */
  datatype FilterError =
    | NullExpression
    | InvalidSyntax(msg: string, expr: string)

  const MSG_NOT_PARSED: string := "Failed to parse LDAP query."

  /** The program of a valid expression, the one the parser emits for it. */
  function ParsedProgram(expr: string): Option<seq<Op>>
  {
    match StartF(expr, 0)
    case Ok(Some(f)) => Some(Compile(f))
    case _ => None
  }

  /** What the constructor reports for an expression, cache aside. */
  function ConstructF(expr: Option<string>): Result<seq<Op>, FilterError>
  {
    match expr
    case None => Err(NullExpression)
    case Some(e) =>
      match StartF(e, 0)
      case Err(m) => Err(InvalidSyntax(m, e))
      case Ok(None) => Err(InvalidSyntax(MSG_NOT_PARSED, e))
      case Ok(Some(f)) => Ok(Compile(f))
  }

  // ---------------------------------------------------------------------
  // The program cache
  // ---------------------------------------------------------------------

  /** m_programCache: expression to program, shared by all filters. */
  class ProgramCache {
    var entries: map<string, seq<Op>>

    constructor ()
      ensures entries == map[]
    {
      entries := map[];
    }

    /** Every cached program is the one the parser emits for its key. */
    predicate Valid()
      reads this
    {
      forall e :: e in entries ==> ParsedProgram(e) == Some(entries[e])
    }

    method Get(expr: string) returns (p: Option<seq<Op>>)
      ensures p == (if expr in entries then Some(entries[expr]) else None)
    {
      p := if expr in entries then Some(entries[expr]) else None;
    }

    /** The insertion under the lock: only when the key is absent. */
    method PutIfAbsent(expr: string, program: seq<Op>)
      modifies this
      ensures entries == if expr in old(entries) then old(entries) else old(entries)[expr := program]
    {
      if expr !in entries {
        entries := entries[expr := program];
      }
    }
  }

  // ---------------------------------------------------------------------
  // The filter object
  // ---------------------------------------------------------------------

  /** The argument of equals: null, a Filter, or an object of another class. */
  datatype Other = Null | AFilter(filter: FilterImpl) | NotAFilter

  class FilterImpl {
    const program: seq<Op>
    /** m_toString: the printed form, computed on first use. */
    var printed: Option<string>

    constructor (p: seq<Op>)
      ensures program == p && printed == None
    {
      program := p;
      printed := None;
    }

    /** The program builds a single tree, and any remembered text is its text. */
    predicate Valid()
      reads this
    {
      ProgramText(program).Some? && (printed.Some? ==> printed == ProgramText(program))
    }

    /** The printed form toString returns. */
    function Text(): string
      reads this
      requires Valid()
    {
      ProgramText(program).value
    }

    method ToString() returns (s: string)
      requires Valid()
      modifies this
      ensures Valid() && s == Text() && printed == Some(s)
    {
      if printed.None? {
        printed := ProgramText(program);
      }
      s := printed.value;
    }

    /** equals: true exactly for a Filter whose text is this filter's text. */
    method Equals(o: Other) returns (b: bool)
      requires Valid() && (o.AFilter? ==> o.filter.Valid())
      modifies this, if o.AFilter? then {o.filter} else {}
      ensures Valid() && (o.AFilter? ==> o.filter.Valid())
      ensures b <==> o.AFilter? && old(Text()) == old(o.filter.Text())
    {
      match o
      case Null => b := false;
      case NotAFilter => b := false;
      case AFilter(g) =>
        var s := ToString();
        var t := g.ToString();
        b := s == t;
    }

    /** hashCode: the hash of the text. */
    method HashCode() returns (h: int32)
      requires Valid()
      modifies this
      ensures Valid() && h == JavaStringHash(old(Text()))
    {
      var s := ToString();
      h := JavaStringHash(s);
    }

    /**
     * match(dict, ref, caseSensitive): in the source the evaluator and
     * the mapper are kept per thread; here each call uses a fresh mapper,
     * which is indistinguishable since setSource resets it before use and
     * after use.
     */
    method Match(dict: Option<Dictionary>, ref: Option<Lookup>, caseSensitive: bool) returns (r: Result<bool, MatchError>)
      ensures r == MatchF(program, dict, ref, caseSensitive)
    {
      if dict.None? && ref.None? {
        r := MatchNoSource();
        return;
      }
      var mapper := new SimpleMapper();
      if dict.Some? {
        var copied := mapper.SetSource(dict, caseSensitive);
        if copied.Err? {
          mapper.SetSourceNone(caseSensitive);
          return Err(DuplicateAttribute(copied.error));
        }
      } else {
        mapper.SetReference(ref);
      }
      var lookup := mapper.AsLookup();
      var e := RunProgram(program, lookup);
      if dict.Some? {
        mapper.SetSourceNone(caseSensitive);
      } else {
        mapper.SetReference(None);
      }
      r := Outcome(e);
    }

    /**
     * match with neither a dictionary nor a reference: the mapper is left
     * with no map and a null reference, so the evaluator runs up to the
     * first operator that looks an attribute up, and that lookup throws.
     */
    method MatchNoSource() returns (r: Result<bool, MatchError>)
      ensures r == NoSourceF(program)
    {
      var k := FirstLookup(program);
      if k == |program| {
        var e := RunProgram(program, NoSource);
        return Outcome(e);
      }
      var ran := RunOperators(program[..k], NoSource);
      if ran.Err? {
        return Outcome(Err(ran.error));
      }
      r := Err(NullSourceThrown);
    }

    /** match(Dictionary): case-insensitive keys; a null dictionary is no source. */
    method MatchDictionary(dict: Option<Dictionary>) returns (r: Result<bool, MatchError>)
      ensures r == MatchF(program, dict, None, false)
    {
      r := Match(dict, None, false);
    }

    /** match(ServiceReference): the service's properties; a null reference is no source. */
    method MatchReference(ref: Option<Lookup>) returns (r: Result<bool, MatchError>)
      ensures r == MatchF(program, None, ref, false)
    {
      r := Match(None, ref, false);
    }

    /** matchCase(Dictionary): case-sensitive keys; a null dictionary is no source. */
    method MatchCase(dict: Option<Dictionary>) returns (r: Result<bool, MatchError>)
      ensures r == MatchF(program, dict, None, true)
    {
      r := Match(dict, None, true);
    }
  }

  /**
   * The constructor: a cached program is reused without parsing; otherwise
   * the expression is parsed and its program inserted if still absent.
   */
  method NewFilter(cache: ProgramCache, expr: Option<string>) returns (r: Result<FilterImpl, FilterError>)
    requires cache.Valid()
    modifies cache
    ensures cache.Valid()
    ensures ConstructF(expr).Err? ==> r == Err(ConstructF(expr).error) && cache.entries == old(cache.entries)
    ensures ConstructF(expr).Ok? ==>
      (r.Ok? && fresh(r.value) && r.value.Valid()
       && r.value.program == ConstructF(expr).value
       && cache.entries == old(cache.entries)[expr.value := ConstructF(expr).value])
  {
    if expr.None? {
      return Err(NullExpression);
    }
    var e := expr.value;
    var program := cache.Get(e);
    if program.None? {
      var lexer := new Lexer(e);
      var parser := new Parser(lexer);
      var ok := parser.Start();
      if ok.Err? {
        return Err(InvalidSyntax(ok.error, e));
      }
      if !ok.value {
        return Err(InvalidSyntax(MSG_NOT_PARSED, e));
      }
      assert [] + Compile(StartF(e, 0).value.value) == Compile(StartF(e, 0).value.value);
      program := Some(parser.program);
      cache.PutIfAbsent(e, parser.program);
    } else {
      assert cache.entries[e := program.value] == cache.entries;
    }
    assert ParsedProgram(e) == Some(program.value);
    ProgramTextOfCompiled(StartF(e, 0).value.value);
    var fi := new FilterImpl(program.value);
    r := Ok(fi);
  }

  // ---------------------------------------------------------------------
  // SimpleMapper and the dictionary it copies
  // ---------------------------------------------------------------------

  /**
   * A Dictionary as its keys enumerate, with the value of each; a
   * dictionary holds each key once.
   */
  type Dictionary = d: seq<(string, Value)> | DistinctKeys(d)

  predicate DistinctKeys(d: seq<(string, Value)>)
  {
    forall i, j :: 0 <= i < j < |d| ==> d[i].0 != d[j].0
  }

  /** The key a StringMap files a name under. */
  function Norm(caseSensitive: bool, k: string): string
  {
    if caseSensitive then k else Lower(k)
  }

  /** StringMap: a map whose keys compare case-insensitively unless told otherwise. */
  datatype StringMap = StringMap(caseSensitive: bool, entries: map<string, Value>)
  {
    function Get(k: string): Option<Value>
    {
      if Norm(caseSensitive, k) in entries then Some(entries[Norm(caseSensitive, k)]) else None
    }

    function Put(k: string, v: Value): StringMap
    {
      StringMap(caseSensitive, entries[Norm(caseSensitive, k) := v])
    }
  }

  /** A StringMap as the property lookup of an evaluation. */
  function MapLookup(m: StringMap): Lookup
  {
    k => m.Get(k)
  }

  /**
   * setSource(dict)'s loop over the keys: each key not yet in the map is
   * put; the first key whose case variant is already there stops it.
   * The map as the loop leaves it, and that key.
   */
  function Fill(m: StringMap, d: seq<(string, Value)>): (StringMap, Option<string>)
    decreases |d|
  {
    if d == [] then (m, None)
    else if m.Get(d[0].0).Some? then (m, Some(d[0].0))
    else Fill(m.Put(d[0].0, d[0].1), d[1..])
  }

  /** Two keys of the dictionary that StringMap files under one name. */
  predicate HasCaseVariants(d: seq<(string, Value)>, caseSensitive: bool)
  {
    exists i, j :: 0 <= i < j < |d| && Norm(caseSensitive, d[i].0) == Norm(caseSensitive, d[j].0)
  }

  /** The errors match lets through. */
  datatype MatchError =
    | DuplicateAttribute(key: string)
    | ClassCastThrown
    | NullSourceThrown

  /**
   * What match reports for an evaluation: the answer, false for an
   * EvaluationException the evaluator did not recover from, and the
   * ClassCastException, which is not caught.
   */
  function Outcome(e: Result<bool, EvalError>): Result<bool, MatchError>
  {
    match e
    case Ok(b) => Ok(b)
    case Err(ClassCast) => Err(ClassCastThrown)
    case Err(_) => Ok(false)
  }

  /** match(dict, ref, caseSensitive) as a function of the inputs. */
  function MatchF(program: seq<Op>, dict: Option<Dictionary>, ref: Option<Lookup>, caseSensitive: bool): Result<bool, MatchError>
  {
    if dict.Some? then
      match Copy(dict.value, caseSensitive)
      case (_, Some(k)) => Err(DuplicateAttribute(k))
      case (m, None) => Outcome(Evaluate(program, MapLookup(m)))
    else if ref.Some? then Outcome(Evaluate(program, ref.value))
    else NoSourceF(program)
  }

  /** The operators that ask the mapper for an attribute. */
  predicate LooksUp(op: Op)
  {
    op.PushOp? || op.PresentOp? || op.ObjectClassOp?
  }

  /** The position of the first operator that looks an attribute up, |code| when none does. */
  function FirstLookup(code: seq<Op>): (k: nat)
    ensures k <= |code|
    ensures k < |code| ==> LooksUp(code[k])
    ensures forall i :: 0 <= i < k ==> !LooksUp(code[i])
  {
    if code == [] then 0
    else if LooksUp(code[0]) then 0
    else 1 + FirstLookup(code[1..])
  }

  /** A mapper with neither source; it is never asked before the lookup that throws. */
  const NoSource: Lookup := _ => None

  /**
   * match with neither source: a lookup on the null reference throws a
   * NullPointerException, which match does not catch; the operators
   * before it may still end the run with their own exception.
   */
  function NoSourceF(program: seq<Op>): Result<bool, MatchError>
  {
    var k := FirstLookup(program);
    if k == |program| then Outcome(Evaluate(program, NoSource))
    else
      match Run(program[..k], [], NoSource)
      case Err(e) => Outcome(Err(e))
      case Ok(_) => Err(NullSourceThrown)
  }

  /** A compiled well-formed filter starts by looking an attribute up. */
  lemma {:induction false} CompiledStartsWithLookup(f: Filter)
    requires WellFormed(f)
    ensures LooksUp(Compile(f)[0])
    decreases f
  {
    match f
    case And(cs) =>
      CompiledStartsWithLookup(cs[0]);
      assert CompileAll(cs) == Compile(cs[0]) + CompileAll(cs[1..]);
    case Or(cs) =>
      CompiledStartsWithLookup(cs[0]);
      assert CompileAll(cs) == Compile(cs[0]) + CompileAll(cs[1..]);
    case Not(c) =>
      CompiledStartsWithLookup(c);
    case Simple(_, _, _) =>
    case Present(_) =>
    case Substring(_, _) =>
  }

  /** Matching any well-formed filter against no source throws the NullPointerException. */
  lemma NoSourceThrows(f: Filter, caseSensitive: bool)
    requires WellFormed(f)
    ensures MatchF(Compile(f), None, None, caseSensitive) == Err(NullSourceThrown)
  {
    CompiledStartsWithLookup(f);
    assert Compile(f)[..0] == [];
  }

  class SimpleMapper {
    var ref: Option<Lookup>
    var mapping: Option<StringMap>

    constructor ()
      ensures ref == None && mapping == None
    {
      ref := None;
      mapping := None;
    }

    /** setSource(ServiceReference): the reference, and no map. */
    method SetReference(r: Option<Lookup>)
      modifies this
      ensures ref == r && mapping == None
    {
      ref := r;
      mapping := None;
    }

    /** setSource(null, caseSensitive), as the finally block calls it. */
    method SetSourceNone(caseSensitive: bool)
      modifies this
      ensures mapping == Some(StringMap(caseSensitive, map[])) && ref == None
    {
      mapping := Some(StringMap(caseSensitive, map[]));
      ref := None;
    }

    /**
     * setSource(dict, caseSensitive): an emptied map with the given case
     * rule, filled from the dictionary; IllegalArgumentException (Err,
     * with the key) on a case variant of a key already put, the map then
     * holding what was put before it and the reference untouched.
     */
    method SetSource(dict: Option<Dictionary>, caseSensitive: bool) returns (r: Result<(), string>)
      modifies this
      ensures var (m, dup) := Fill(StringMap(caseSensitive, map[]), if dict.Some? then dict.value else []);
        mapping == Some(m)
        && (dup.None? ==> r == Ok(()) && ref == None)
        && (dup.Some? ==> r == Err(dup.value) && ref == old(ref))
    {
      var m := StringMap(caseSensitive, map[]);
      if dict.Some? {
        var d := dict.value;
        var i := 0;
        while i < |d|
          invariant 0 <= i <= |d|
          invariant Fill(m, d[i..]) == Fill(StringMap(caseSensitive, map[]), d)
        {
          assert d[i..][1..] == d[i + 1..];
          var (k, v) := d[i];
          if m.Get(k).Some? {
            mapping := Some(m);
            return Err(k);
          }
          m := m.Put(k, v);
          i := i + 1;
        }
      }
      mapping := Some(m);
      ref := None;
      r := Ok(());
    }

    /** lookup: the map when there is one, otherwise the reference's property. */
    function Lookup(name: string): Option<Value>
      reads this
      requires mapping.Some? || ref.Some?
    {
      if mapping.None? then ref.value(name) else mapping.value.Get(name)
    }

    /** The mapper's current lookup, as the evaluator sees it. */
    function AsLookup(): (l: Lookup)
      reads this
      requires mapping.Some? || ref.Some?
      ensures forall name :: l(name) == Lookup(name)
    {
      if mapping.None? then ref.value else MapLookup(mapping.value)
    }
  }

  // ---------------------------------------------------------------------
  // Properties
  // ---------------------------------------------------------------------

  /** The loop of setSource keeps the case rule and every name already in the map. */
  lemma {:induction false} FillKeeps(m: StringMap, d: seq<(string, Value)>)
    ensures Fill(m, d).0.caseSensitive == m.caseSensitive
    ensures forall k :: m.Get(k).Some? ==> Fill(m, d).0.Get(k) == m.Get(k)
    decreases |d|
  {
    if d != [] && m.Get(d[0].0).None? {
      FillKeeps(m.Put(d[0].0, d[0].1), d[1..]);
    }
  }

  /** A name the loop adds is filed like one of the keys. */
  lemma {:induction false} FillAddsKeys(m: StringMap, d: seq<(string, Value)>)
    ensures forall k :: Fill(m, d).0.Get(k).Some? ==>
      m.Get(k).Some? || exists i :: 0 <= i < |d| && Norm(m.caseSensitive, d[i].0) == Norm(m.caseSensitive, k)
    decreases |d|
  {
    if d != [] && m.Get(d[0].0).None? {
      var cs := m.caseSensitive;
      var m1 := m.Put(d[0].0, d[0].1);
      var rest := d[1..];
      FillAddsKeys(m1, rest);
      forall k | Fill(m, d).0.Get(k).Some?
        ensures m.Get(k).Some? || exists i :: 0 <= i < |d| && Norm(cs, d[i].0) == Norm(cs, k)
      {
        if m1.Get(k).Some? {
          if m.Get(k).None? {
            assert Norm(cs, d[0].0) == Norm(cs, k);
          }
        } else {
          var i :| 0 <= i < |rest| && Norm(cs, rest[i].0) == Norm(cs, k);
          assert Norm(cs, d[i + 1].0) == Norm(cs, k);
        }
      }
    }
  }

  /**
   * The loop of setSource from a map `m` stops exactly when a key is
   * already in the map or has a case variant earlier in the dictionary.
   */
  lemma {:induction false} FillStops(m: StringMap, d: seq<(string, Value)>)
    ensures Fill(m, d).1.None? <==>
      (forall i :: 0 <= i < |d| ==> m.Get(d[i].0).None?) && !HasCaseVariants(d, m.caseSensitive)
    decreases |d|
  {
    if d != [] && m.Get(d[0].0).None? {
      FillStops(m.Put(d[0].0, d[0].1), d[1..]);
      CleanStep(m, d);
    }
  }

  /** No key of `d` is in `m` yet and no two are case variants. */
  predicate Clean(m: StringMap, d: seq<(string, Value)>)
  {
    (forall i :: 0 <= i < |d| ==> m.Get(d[i].0).None?) && !HasCaseVariants(d, m.caseSensitive)
  }

  /** One step of the loop keeps a dictionary clean exactly when it was. */
  lemma CleanStep(m: StringMap, d: seq<(string, Value)>)
    requires d != [] && m.Get(d[0].0).None?
    ensures Clean(m.Put(d[0].0, d[0].1), d[1..]) <==> Clean(m, d)
  {
    var cs := m.caseSensitive;
    var m1 := m.Put(d[0].0, d[0].1);
    var rest := d[1..];
    assert forall k :: m1.Get(k).None? <==> m.Get(k).None? && Norm(cs, k) != Norm(cs, d[0].0);
    if Clean(m1, rest) {
      CleanGrows(m, d);
    }
    if Clean(m, d) {
      CleanShrinks(m, d);
    }
  }

  lemma CleanGrows(m: StringMap, d: seq<(string, Value)>)
    requires d != [] && m.Get(d[0].0).None?
    requires Clean(m.Put(d[0].0, d[0].1), d[1..])
    ensures Clean(m, d)
  {
    var cs := m.caseSensitive;
    var m1 := m.Put(d[0].0, d[0].1);
    var rest := d[1..];
    assert forall k :: m1.Get(k).None? ==> m.Get(k).None? && Norm(cs, k) != Norm(cs, d[0].0);
    forall i | 0 <= i < |d| ensures m.Get(d[i].0).None? {
      if i > 0 {
        assert rest[i - 1] == d[i];
      }
    }
    forall i, j | 0 <= i < j < |d|
      ensures Norm(cs, d[i].0) != Norm(cs, d[j].0)
    {
      assert rest[j - 1] == d[j];
      if i > 0 {
        assert rest[i - 1] == d[i];
      } else {
        assert m1.Get(rest[j - 1].0).None?;
      }
    }
  }

  lemma CleanShrinks(m: StringMap, d: seq<(string, Value)>)
    requires d != [] && Clean(m, d)
    ensures Clean(m.Put(d[0].0, d[0].1), d[1..])
  {
    var cs := m.caseSensitive;
    var m1 := m.Put(d[0].0, d[0].1);
    var rest := d[1..];
    assert forall k :: m.Get(k).None? && Norm(cs, k) != Norm(cs, d[0].0) ==> m1.Get(k).None?;
    forall i | 0 <= i < |rest|
      ensures m1.Get(rest[i].0).None?
    {
      assert Norm(cs, d[0].0) != Norm(cs, d[i + 1].0);
    }
    forall i, j | 0 <= i < j < |rest|
      ensures Norm(cs, rest[i].0) != Norm(cs, rest[j].0)
    {
      assert rest[i] == d[i + 1] && rest[j] == d[j + 1];
    }
  }

  /** When the loop does not stop, every key looks up its own value. */
  lemma {:induction false} FillValues(m: StringMap, d: seq<(string, Value)>)
    requires Fill(m, d).1.None?
    ensures forall i :: 0 <= i < |d| ==> Fill(m, d).0.Get(d[i].0) == Some(d[i].1)
    decreases |d|
  {
    if d != [] {
      var m1 := m.Put(d[0].0, d[0].1);
      FillValues(m1, d[1..]);
      FillKeeps(m1, d[1..]);
      assert m1.Get(d[0].0) == Some(d[0].1);
      forall i | 1 <= i < |d|
        ensures Fill(m, d).0.Get(d[i].0) == Some(d[i].1)
      {
        assert d[1..][i - 1] == d[i];
      }
    }
  }

  /** The map setSource(dict, caseSensitive) builds from an empty one, and the key it stops at. */
  function Copy(d: Dictionary, caseSensitive: bool): (StringMap, Option<string>)
  {
    Fill(StringMap(caseSensitive, map[]), d)
  }

  /**
   * setSource(dict, caseSensitive) throws exactly when two keys are case
   * variants of each other, and so never when case-sensitive.
   */
  lemma CopyStops(d: Dictionary, caseSensitive: bool)
    ensures Copy(d, caseSensitive).1.None? <==> !HasCaseVariants(d, caseSensitive)
    ensures caseSensitive ==> Copy(d, caseSensitive).1.None?
  {
    FillStops(StringMap(caseSensitive, map[]), d);
  }

  /**
   * Otherwise every key of the dictionary, written in any case the map
   * accepts, looks up its value.
   */
  lemma CopyValues(d: Dictionary, caseSensitive: bool)
    requires Copy(d, caseSensitive).1.None?
    ensures forall i, k :: 0 <= i < |d| && Norm(caseSensitive, k) == Norm(caseSensitive, d[i].0) ==>
      Copy(d, caseSensitive).0.Get(k) == Some(d[i].1)
  {
    var m := Copy(d, caseSensitive).0;
    FillValues(StringMap(caseSensitive, map[]), d);
    FillKeeps(StringMap(caseSensitive, map[]), d);
    forall i, k | 0 <= i < |d| && Norm(caseSensitive, k) == Norm(caseSensitive, d[i].0)
      ensures m.Get(k) == Some(d[i].1)
    {
      assert m.Get(d[i].0) == Some(d[i].1);
    }
  }

  /** A name filed unlike every key finds nothing. */
  lemma CopyOthers(d: Dictionary, caseSensitive: bool, k: string)
    requires forall i :: 0 <= i < |d| ==> Norm(caseSensitive, d[i].0) != Norm(caseSensitive, k)
    ensures Copy(d, caseSensitive).0.Get(k) == None
  {
    FillAddsKeys(StringMap(caseSensitive, map[]), d);
  }

  /**
   * match on a compiled filter and a dictionary: IllegalArgumentException
   * for case-variant keys, and otherwise the filter's value on the copied
   * dictionary, with false for an evaluation exception.
   */
  lemma MatchCompiled(f: Filter, d: Dictionary, caseSensitive: bool)
    ensures HasCaseVariants(d, caseSensitive) <==>
      (MatchF(Compile(f), Some(d), None, caseSensitive).Err?
       && MatchF(Compile(f), Some(d), None, caseSensitive).error.DuplicateAttribute?)
    ensures !HasCaseVariants(d, caseSensitive) ==>
      MatchF(Compile(f), Some(d), None, caseSensitive)
      == Outcome(Holds(f, MapLookup(Copy(d, caseSensitive).0)))
  {
    CopyStops(d, caseSensitive);
    EvaluateCompiled(f, MapLookup(Copy(d, caseSensitive).0));
  }

  /**
   * A comparison or a substring item on an attribute the dictionary does
   * not hold is false, and its negation true: the evaluator recovers from
   * the AttributeNotFoundException and carries on.
   */
  lemma MissingAttributeIsNoMatch(a: string, op: CmpOp, v: string, ps: seq<string>, d: Dictionary, caseSensitive: bool)
    requires !(op == Equal && IsObjectClass(a))
    requires !HasCaseVariants(d, caseSensitive)
    requires forall i :: 0 <= i < |d| ==> Norm(caseSensitive, d[i].0) != Norm(caseSensitive, a)
    ensures MatchF(Compile(Simple(a, op, v)), Some(d), None, caseSensitive) == Ok(false)
    ensures MatchF(Compile(Not(Simple(a, op, v))), Some(d), None, caseSensitive) == Ok(true)
    ensures MatchF(Compile(Substring(a, ps)), Some(d), None, caseSensitive) == Ok(false)
    ensures MatchF(Compile(Not(Substring(a, ps))), Some(d), None, caseSensitive) == Ok(true)
  {
    CopyOthers(d, caseSensitive, a);
    MatchCompiled(Simple(a, op, v), d, caseSensitive);
    MatchCompiled(Not(Simple(a, op, v)), d, caseSensitive);
    MatchCompiled(Substring(a, ps), d, caseSensitive);
    MatchCompiled(Not(Substring(a, ps)), d, caseSensitive);
  }

  /** `(|(a=1)(b=2))`, whose program the examples below run. */
  function AOrB(): Filter
  {
    Or([Simple("a", Equal, "1"), Simple("b", Equal, "2")])
  }

  /** `(|(a=1)(b=2))` holds exactly when one of its items does. */
  lemma AOrBHolds(l: Lookup, x: bool, y: bool)
    requires Holds(Simple("a", Equal, "1"), l) == Ok(x)
    requires Holds(Simple("b", Equal, "2"), l) == Ok(y)
    ensures Holds(AOrB(), l) == Ok(x || y)
  {
    var cs := [Simple("a", Equal, "1"), Simple("b", Equal, "2")];
    assert cs[0] == Simple("a", Equal, "1") && cs[1..] == [Simple("b", Equal, "2")] && cs[1..][1..] == [];
    assert HoldsEach(cs[1..][1..], l) == Ok([]);
    assert [y] + [] == [y];
    assert HoldsEach(cs[1..], l) == Ok([y]);
    assert [x] + [y] == [x, y];
    assert HoldsEach(cs, l) == Ok([x, y]);
    assert AnyTrue([x, y]) <==> x || y by {
      assert [x, y][0] == x && [x, y][1] == y;
    }
  }

  /** `(|(a=1)(b=2))` matches a dictionary holding only b = "2", the missing a counting as false. */
  lemma OrOverMissingAttribute(caseSensitive: bool)
    ensures MatchF(Compile(AOrB()), Option<Dictionary>.Some([("b", Str("2"))]), None, caseSensitive) == Ok(true)
  {
    var d: Dictionary := [("b", Str("2"))];
    assert Norm(caseSensitive, "a") == "a" && Norm(caseSensitive, "b") == "b";
    CopyStops(d, caseSensitive);
    CopyValues(d, caseSensitive);
    CopyOthers(d, caseSensitive, "a");
    var l := MapLookup(Copy(d, caseSensitive).0);
    assert l("a") == None && l("b") == Some(Str("2"));
    assert !IsObjectClass("a") && !IsObjectClass("b");
    assert CompareStrings("2", "2", Equal);
    AOrBHolds(l, false, true);
    MatchCompiled(AOrB(), d, caseSensitive);
  }

  /** `(|(a=1)(b=2))` does not match a = "3", b = "5". */
  lemma OrOverOtherValues(caseSensitive: bool)
    ensures MatchF(Compile(AOrB()), Option<Dictionary>.Some([("a", Str("3")), ("b", Str("5"))]), None, caseSensitive) == Ok(false)
  {
    var d: Dictionary := [("a", Str("3")), ("b", Str("5"))];
    assert Norm(caseSensitive, "a") == "a" && Norm(caseSensitive, "b") == "b";
    CopyStops(d, caseSensitive);
    CopyValues(d, caseSensitive);
    var l := MapLookup(Copy(d, caseSensitive).0);
    assert l("a") == Some(Str("3")) && l("b") == Some(Str("5"));
    assert !IsObjectClass("a") && !IsObjectClass("b");
    assert !CompareStrings("3", "1", Equal) && !CompareStrings("5", "2", Equal);
    AOrBHolds(l, false, false);
    MatchCompiled(AOrB(), d, caseSensitive);
  }

  /** `(!(a=1))` matches a dictionary without a. */
  lemma NotOverMissingAttribute(caseSensitive: bool)
    ensures MatchF(Compile(Not(Simple("a", Equal, "1"))), Option<Dictionary>.Some([]), None, caseSensitive) == Ok(true)
  {
    assert !IsObjectClass("a");
    MissingAttributeIsNoMatch("a", Equal, "1", [], [], caseSensitive);
  }

  /** A case-insensitive map answers every case variant of a name alike. */
  lemma LookupIgnoresCase(m: StringMap, a: string, b: string)
    requires !m.caseSensitive && EqualsIgnoreCase(a, b)
    ensures MapLookup(m)(a) == MapLookup(m)(b)
  {
  }

  /** Well-formed filters with one text are one filter. */
  lemma SameTextSameFilter(f1: Filter, f2: Filter)
    requires WellFormed(f1) && WellFormed(f2)
    requires Text(f1) == Text(f2)
    ensures f1 == f2
  {
    ParsePrinted(f1);
    ParsePrinted(f2);
  }

  /**
   * A filter built from the text of a well-formed filter has that
   * filter's program, hence its text: it equals the original.
   */
  lemma ConstructPrinted(f: Filter)
    requires WellFormed(f)
    ensures ConstructF(Some(Text(f))) == Ok(Compile(f))
    ensures ProgramText(ConstructF(Some(Text(f))).value) == Some(Text(f))
  {
    ParsePrinted(f);
    ProgramTextOfCompiled(f);
  }
}
