/**
 * The stack machine that runs a compiled filter: each operator's execute
 * pops its operands from the stack (top at the end of the sequence) and
 * pushes a Boolean, consulting the property lookup of the mapper. A
 * reference semantics on filters states what a compiled program means.
 */
module LdapEval {
  import opened Common
  import opened LdapCompare
  import opened LdapSyntax

  /** Mapper.lookup: the value of a property, None standing for null. */
  type Lookup = string -> Option<Value>

  function Bools(bs: seq<bool>): (r: seq<Value>)
    ensures |r| == |bs|
    ensures forall i :: 0 <= i < |bs| ==> r[i] == Bool(bs[i])
  {
    seq(|bs|, i requires 0 <= i < |bs| => Bool(bs[i]))
  }

  predicate AllTrue(bs: seq<bool>)
  {
    forall i :: 0 <= i < |bs| ==> bs[i]
  }

  predicate AnyTrue(bs: seq<bool>)
  {
    exists i :: 0 <= i < |bs| && bs[i]
  }

  function Top(st: seq<Value>): Value
    requires st != []
  {
    st[|st| - 1]
  }

  function Pop(st: seq<Value>): seq<Value>
    requires st != []
  {
    st[..|st| - 1]
  }

  // ---------------------------------------------------------------------
  // The operators' execute, one step at a time
  // ---------------------------------------------------------------------

  /**
   * The pop loop of AndOperator.execute with `k` operands still to pop:
   * once the result is false the rest are popped without being read.
   */
  function PopAnd(st: seq<Value>, k: nat, result: bool): Result<(seq<Value>, bool), EvalError>
    decreases k
  {
    if k == 0 then Ok((st, result))
    else if st == [] then Err(TooFewOperands("AND"))
    else if !result then PopAnd(Pop(st), k - 1, false)
    else if Top(st).Bool? then PopAnd(Pop(st), k - 1, Top(st).b)
    else Err(ClassCast)
  }

  /** The pop loop of OrOperator.execute: once true, the rest are popped unread. */
  function PopOr(st: seq<Value>, k: nat, result: bool): Result<(seq<Value>, bool), EvalError>
    decreases k
  {
    if k == 0 then Ok((st, result))
    else if st == [] then Err(TooFewOperands("OR"))
    else if result then PopOr(Pop(st), k - 1, true)
    else if Top(st).Bool? then PopOr(Pop(st), k - 1, Top(st).b)
    else Err(ClassCast)
  }

  /**
   * The operand of SubStringOperator: a String, or a String[] of which one
   * element must match; any other class, the missing-attribute marker's
   * included, is an unsupported type.
   */
  function SubstringOn(pieces: seq<string>, v: Value): Result<bool, EvalError>
  {
    if v.Str? then Ok(Check(pieces, v.s))
    else if v.StrArray? then Ok(CheckAny(pieces, v.strs))
    else Err(UnsupportedType("SUBSTRING", v.Unknown?))
  }

  /**
   * ObjectClassOperator: the objectClass property, cast to String[], must
   * hold the target; a property of another class fails the cast.
   */
  function ObjectClassOn(target: string, v: Option<Value>): Result<bool, EvalError>
  {
    match v
    case None => Ok(false)
    case Some(x) =>
      if x.StrArray? then Ok(target in x.strs) else Err(ClassCast)
  }

  /** One operator's execute on the stack `st`. */
  function Step(op: Op, st: seq<Value>, lookup: Lookup): Result<seq<Value>, EvalError>
  {
    match op
    case AndOp(n) =>
      (match PopAnd(st, n, true)
       case Err(e) => Err(e)
       case Ok((rest, b)) => Ok(rest + [Bool(b)]))
    case OrOp(n) =>
      (match PopOr(st, n, false)
       case Err(e) => Err(e)
       case Ok((rest, b)) => Ok(rest + [Bool(b)]))
    case NotOp =>
      if st == [] then Err(TooFewOperands("NOT"))
      else if Top(st).Bool? then Ok(Pop(st) + [Bool(!Top(st).b)])
      else Err(ClassCast)
    case ObjectClassOp(t) =>
      (match ObjectClassOn(t, lookup(OBJECT_CLASS))
       case Err(e) => Err(e)
       case Ok(b) => Ok(st + [Bool(b)]))
    case CompareOp(c) =>
      if st == [] then Err(TooFewOperands(OpText(c)))
      else if !Top(st).Str? then Err(ClassCast)
      else if Pop(st) == [] then Err(TooFewOperands(OpText(c)))
      else
        (match Compare(Top(Pop(st)), Top(st).s, c)
         case Err(e) => Err(e)
         case Ok(b) => Ok(Pop(Pop(st)) + [Bool(b)]))
    case PresentOp(a) => Ok(st + [Bool(lookup(a).Some?)])
    case PushOp(a) =>
      (match lookup(a)
       case None => Err(AttributeNotFound(a))
       case Some(v) => Ok(st + [v]))
    case ConstOp(v) => Ok(st + [Str(v)])
    case SubStringOp(ps) =>
      if st == [] then Err(TooFewOperands("SUBSTRING"))
      else
        (match SubstringOn(ps, Top(st))
         case Err(e) => Err(e)
         case Ok(b) => Ok(Pop(st) + [Bool(b)]))
  }

  /**
   * One operator as the evaluator runs it. A missing attribute (PUSH
   * raises before touching the stack) pushes the missing-attribute marker
   * instead of a value; an unsupported type raised on the marker (SUBSTRING
   * has popped it) pushes false instead of the item's result; any other
   * exception ends the run.
   */
  function EvalStep(op: Op, st: seq<Value>, lookup: Lookup): Result<seq<Value>, EvalError>
  {
    match Step(op, st, lookup)
    case Ok(st') => Ok(st')
    case Err(e) =>
      if e.AttributeNotFound? then Ok(st + [Unknown])
      else if e.UnsupportedType? && e.ofMarker && st != [] then Ok(Pop(st) + [Bool(false)])
      else Err(e)
  }

  /** Running a program: operators in order, an exception not recovered from ending the run. */
  function Run(code: seq<Op>, st: seq<Value>, lookup: Lookup): Result<seq<Value>, EvalError>
    decreases |code|
  {
    if code == [] then Ok(st)
    else
      match EvalStep(code[0], st, lookup)
      case Err(e) => Err(e)
      case Ok(st') => Run(code[1..], st', lookup)
  }

  /**
   * The evaluator's answer: the Boolean the program leaves on top of an
   * initially empty stack.
   */
  function Evaluate(code: seq<Op>, lookup: Lookup): Result<bool, EvalError>
  {
    match Run(code, [], lookup)
    case Err(e) => Err(e)
    case Ok(st) =>
      if st == [] then Err(TooFewOperands("")) else if Top(st).Bool? then Ok(Top(st).b) else Err(ClassCast)
  }

  // ---------------------------------------------------------------------
  // The operand stack, updated in place
  // ---------------------------------------------------------------------

  /** The java.util.Stack the operators work on. */
  class OperandStack {
    var items: seq<Value>

    constructor ()
      ensures items == []
    {
      items := [];
    }

    /**
     * Operator.execute(operands, mapper): on success the stack is the one
     * Step describes; on an exception the stack is left as the operator
     * left it: untouched by a missing attribute, one operand short after
     * an unsupported type.
     */
    method Execute(op: Op, lookup: Lookup) returns (err: Option<EvalError>)
      modifies this
      ensures Step(op, old(items), lookup).Ok? ==> err.None? && items == Step(op, old(items), lookup).value
      ensures Step(op, old(items), lookup).Err? ==> err == Some(Step(op, old(items), lookup).error)
      ensures err.Some? && err.value.AttributeNotFound? ==> items == old(items)
      ensures err.Some? && err.value.UnsupportedType? ==> old(items) != [] && items == Pop(old(items))
    {
      match op
      case AndOp(n) =>
        var result := true;
        var i := 0;
        while i < n
          invariant 0 <= i <= n
          invariant PopAnd(items, n - i, result) == PopAnd(old(items), n, true)
        {
          if items == [] {
            return Some(TooFewOperands("AND"));
          }
          var top := items[|items| - 1];
          items := items[..|items| - 1];
          if result {
            if !top.Bool? {
              return Some(ClassCast);
            }
            result := top.b;
          }
          i := i + 1;
        }
        items := items + [Bool(result)];
        err := None;
      case OrOp(n) =>
        var result := false;
        var i := 0;
        while i < n
          invariant 0 <= i <= n
          invariant PopOr(items, n - i, result) == PopOr(old(items), n, false)
        {
          if items == [] {
            return Some(TooFewOperands("OR"));
          }
          var top := items[|items| - 1];
          items := items[..|items| - 1];
          if !result {
            if !top.Bool? {
              return Some(ClassCast);
            }
            result := top.b;
          }
          i := i + 1;
        }
        items := items + [Bool(result)];
        err := None;
      case NotOp =>
        if items == [] {
          return Some(TooFewOperands("NOT"));
        }
        var top := items[|items| - 1];
        if !top.Bool? {
          return Some(ClassCast);
        }
        items := items[..|items| - 1] + [Bool(!top.b)];
        err := None;
      case ObjectClassOp(t) =>
        var oc := lookup(OBJECT_CLASS);
        var found := false;
        if oc.Some? {
          if !oc.value.StrArray? {
            return Some(ClassCast);
          }
          var elems := oc.value.strs;
          var i := 0;
          while i < |elems| && !found
            invariant 0 <= i <= |elems|
            invariant found <==> t in elems[..i]
          {
            if elems[i] == t {
              found := true;
            }
            assert elems[..i + 1] == elems[..i] + [elems[i]];
            i := i + 1;
          }
          assert found || elems[..i] == elems;
        }
        items := items + [Bool(found)];
        err := None;
      case CompareOp(c) =>
        if items == [] {
          return Some(TooFewOperands(OpText(c)));
        }
        var rhs := items[|items| - 1];
        if !rhs.Str? {
          return Some(ClassCast);
        }
        items := items[..|items| - 1];
        if items == [] {
          return Some(TooFewOperands(OpText(c)));
        }
        var lhs := items[|items| - 1];
        items := items[..|items| - 1];
        var r := Compare(lhs, rhs.s, c);
        if r.Err? {
          return Some(r.error);
        }
        items := items + [Bool(r.value)];
        err := None;
      case PresentOp(a) =>
        var v := lookup(a);
        items := items + [Bool(v.Some?)];
        err := None;
      case PushOp(a) =>
        var v := lookup(a);
        if v.None? {
          return Some(AttributeNotFound(a));
        }
        items := items + [v.value];
        err := None;
      case ConstOp(v) =>
        items := items + [Str(v)];
        err := None;
      case SubStringOp(ps) =>
        if items == [] {
          return Some(TooFewOperands("SUBSTRING"));
        }
        var operand := items[|items| - 1];
        items := items[..|items| - 1];
        var r := SubstringOn(ps, operand);
        if r.Err? {
          return Some(r.error);
        }
        items := items + [Bool(r.value)];
        err := None;
    }
  }

  /** Evaluator.evaluate: executes each operator of the program in turn on a fresh stack. */
  method RunProgram(code: seq<Op>, lookup: Lookup) returns (r: Result<bool, EvalError>)
    ensures r == Evaluate(code, lookup)
  {
    var ran := RunOperators(code, lookup);
    if ran.Err? {
      return Err(ran.error);
    }
    var st := ran.value;
    if st == [] {
      return Err(TooFewOperands(""));
    }
    if !st[|st| - 1].Bool? {
      return Err(ClassCast);
    }
    r := Ok(st[|st| - 1].b);
  }

  /**
   * The loop of Evaluator.evaluate: the operators in turn on a fresh
   * stack, recovering from a missing attribute as EvalStep says, any other
   * exception ending the run; the stack left at the end.
   */
  method RunOperators(code: seq<Op>, lookup: Lookup) returns (r: Result<seq<Value>, EvalError>)
    ensures r == Run(code, [], lookup)
  {
    var operands := new OperandStack();
    var i := 0;
    while i < |code|
      invariant 0 <= i <= |code|
      invariant Run(code[i..], operands.items, lookup) == Run(code, [], lookup)
    {
      assert code[i..][1..] == code[i + 1..];
      var err := operands.Execute(code[i], lookup);
      if err.Some? {
        if err.value.AttributeNotFound? {
          operands.items := operands.items + [Unknown];
        } else if err.value.UnsupportedType? && err.value.ofMarker {
          operands.items := operands.items + [Bool(false)];
        } else {
          return Err(err.value);
        }
      }
      i := i + 1;
    }
    r := Ok(operands.items);
  }

  // ---------------------------------------------------------------------
  // Stack effects
  // ---------------------------------------------------------------------

  lemma {:induction false} PopAndBools(st: seq<Value>, bs: seq<bool>, result: bool)
    ensures PopAnd(st + Bools(bs), |bs|, result) == Ok((st, result && AllTrue(bs)))
    decreases |bs|
  {
    if bs != [] {
      var bs' := bs[..|bs| - 1];
      var whole := st + Bools(bs);
      assert Top(whole) == Bool(bs[|bs| - 1]);
      assert Pop(whole) == st + Bools(bs');
      var next := if result then bs[|bs| - 1] else false;
      PopAndBools(st, bs', next);
      assert AllTrue(bs) == (AllTrue(bs') && bs[|bs| - 1]) by {
        assert forall i :: 0 <= i < |bs'| ==> bs'[i] == bs[i];
      }
    } else {
      assert st + Bools(bs) == st;
    }
  }

  lemma {:induction false} PopOrBools(st: seq<Value>, bs: seq<bool>, result: bool)
    ensures PopOr(st + Bools(bs), |bs|, result) == Ok((st, result || AnyTrue(bs)))
    decreases |bs|
  {
    if bs != [] {
      var bs' := bs[..|bs| - 1];
      var whole := st + Bools(bs);
      assert Top(whole) == Bool(bs[|bs| - 1]);
      assert Pop(whole) == st + Bools(bs');
      var next := if result then true else bs[|bs| - 1];
      PopOrBools(st, bs', next);
      assert AnyTrue(bs) == (AnyTrue(bs') || bs[|bs| - 1]) by {
        assert forall i :: 0 <= i < |bs'| ==> bs'[i] == bs[i];
        if AnyTrue(bs) && !bs[|bs| - 1] {
          var i :| 0 <= i < |bs| && bs[i];
          assert bs'[i];
        }
      }
    } else {
      assert st + Bools(bs) == st;
    }
  }

  /** And(n) over n Booleans pops exactly those n and pushes their conjunction. */
  lemma AndStackEffect(st: seq<Value>, bs: seq<bool>, lookup: Lookup)
    ensures Step(AndOp(|bs|), st + Bools(bs), lookup) == Ok(st + [Bool(AllTrue(bs))])
  {
    PopAndBools(st, bs, true);
  }

  /** Or(n) over n Booleans pops exactly those n and pushes their disjunction. */
  lemma OrStackEffect(st: seq<Value>, bs: seq<bool>, lookup: Lookup)
    ensures Step(OrOp(|bs|), st + Bools(bs), lookup) == Ok(st + [Bool(AnyTrue(bs))])
  {
    PopOrBools(st, bs, false);
  }

  /** And(n) over fewer than n Booleans fails with the AND too-few-operands message. */
  lemma {:induction false} AndTooFew(st: seq<Value>, n: nat, result: bool)
    requires |st| < n
    requires forall k :: 0 <= k < |st| ==> st[k].Bool?
    ensures PopAnd(st, n, result) == Err(TooFewOperands("AND"))
    decreases n
  {
    if st != [] {
      assert Top(st).Bool?;
      AndTooFew(Pop(st), n - 1, if result then Top(st).b else false);
    }
  }

  /** Not pops its operand and pushes the negation. */
  lemma NotStackEffect(st: seq<Value>, b: bool, lookup: Lookup)
    ensures Step(NotOp, st + [Bool(b)], lookup) == Ok(st + [Bool(!b)])
  {
    assert Pop(st + [Bool(b)]) == st;
  }

  /** Present pushes whether the lookup found a value, leaving the rest untouched. */
  lemma PresentStackEffect(st: seq<Value>, a: string, lookup: Lookup)
    ensures Step(PresentOp(a), st, lookup) == Ok(st + [Bool(lookup(a) != None)])
  {
  }

  /** Push fails exactly on a missing attribute and otherwise pushes its value. */
  lemma PushStackEffect(st: seq<Value>, a: string, lookup: Lookup)
    ensures Step(PushOp(a), st, lookup).Err? <==> lookup(a) == None
    ensures lookup(a) == None ==> Step(PushOp(a), st, lookup) == Err(AttributeNotFound(a))
    ensures lookup(a) != None ==> Step(PushOp(a), st, lookup) == Ok(st + [lookup(a).value])
  {
  }

  /**
   * The evaluator's recovery from a missing attribute: PUSH leaves the
   * marker, a comparison on the marker pushes false, and so does SUBSTRING,
   * whose unsupported-type exception on the marker is caught.
   */
  lemma MissingAttributeRecovery(a: string, c: CmpOp, v: string, ps: seq<string>, st: seq<Value>, lookup: Lookup)
    requires lookup(a) == None
    ensures EvalStep(PushOp(a), st, lookup) == Ok(st + [Unknown])
    ensures EvalStep(CompareOp(c), st + [Unknown, Str(v)], lookup) == Ok(st + [Bool(false)])
    ensures Step(SubStringOp(ps), st + [Unknown], lookup) == Err(UnsupportedType("SUBSTRING", true))
    ensures EvalStep(SubStringOp(ps), st + [Unknown], lookup) == Ok(st + [Bool(false)])
  {
    var st2 := st + [Unknown, Str(v)];
    assert Pop(st2) == st + [Unknown] && Pop(Pop(st2)) == st;
    assert Pop(st + [Unknown]) == st;
  }

  // ---------------------------------------------------------------------
  // What a compiled filter means
  // ---------------------------------------------------------------------

  /**
   * The value of a filter under a lookup: children left to right, the
   * first exception winning; an item on a missing attribute is false, and
   * so is a substring item on the missing-attribute marker itself.
   */
  function Holds(f: Filter, lookup: Lookup): Result<bool, EvalError>
    decreases f
  {
    match f
    case And(cs) =>
      (match HoldsEach(cs, lookup)
       case Err(e) => Err(e)
       case Ok(bs) => Ok(AllTrue(bs)))
    case Or(cs) =>
      (match HoldsEach(cs, lookup)
       case Err(e) => Err(e)
       case Ok(bs) => Ok(AnyTrue(bs)))
    case Not(c) =>
      (match Holds(c, lookup)
       case Err(e) => Err(e)
       case Ok(b) => Ok(!b))
    case Simple(a, op, v) =>
      if op == Equal && IsObjectClass(a) then ObjectClassOn(v, lookup(OBJECT_CLASS))
      else
        (match lookup(a)
         case None => Ok(false)
         case Some(x) => Compare(x, v, op))
    case Present(a) => Ok(lookup(a).Some?)
    case Substring(a, ps) =>
      (match lookup(a)
       case None => Ok(false)
       case Some(x) => if x.Unknown? then Ok(false) else SubstringOn(ps, x))
  }

  function HoldsEach(cs: seq<Filter>, lookup: Lookup): (r: Result<seq<bool>, EvalError>)
    ensures r.Ok? ==> |r.value| == |cs|
    decreases cs
  {
    if cs == [] then Ok([])
    else
      match Holds(cs[0], lookup)
      case Err(e) => Err(e)
      case Ok(b) =>
        (match HoldsEach(cs[1..], lookup)
         case Err(e) => Err(e)
         case Ok(bs) => Ok([b] + bs))
  }

  /** Running one program after another is running them in sequence. */
  lemma {:induction false} RunAppend(a: seq<Op>, b: seq<Op>, st: seq<Value>, lookup: Lookup)
    ensures Run(a + b, st, lookup) ==
      (match Run(a, st, lookup) case Err(e) => Err(e) case Ok(st') => Run(b, st', lookup))
    decreases |a|
  {
    if a == [] {
      assert a + b == b;
    } else {
      assert (a + b)[0] == a[0];
      assert (a + b)[1..] == a[1..] + b;
      match EvalStep(a[0], st, lookup)
      case Err(e) =>
      case Ok(st') => RunAppend(a[1..], b, st', lookup);
    }
  }

  /** The result a filter leaves on top of the stack, or the exception it ends with. */
  function Pushed(r: Result<bool, EvalError>, st: seq<Value>): Result<seq<Value>, EvalError>
  {
    match r
    case Err(e) => Err(e)
    case Ok(b) => Ok(st + [Bool(b)])
  }

  /** The results of several filters pushed in order, or the first exception. */
  function PushedAll(r: Result<seq<bool>, EvalError>, st: seq<Value>): Result<seq<Value>, EvalError>
  {
    match r
    case Err(e) => Err(e)
    case Ok(bs) => Ok(st + Bools(bs))
  }

  /**
   * Compilation is correct: the program of a filter, run on any stack,
   * pushes exactly the filter's value and leaves the stack below it
   * alone, or ends with the exception the filter's evaluation raises.
   */
  lemma {:induction false} CompileCorrect(f: Filter, st: seq<Value>, lookup: Lookup)
    ensures Run(Compile(f), st, lookup) == Pushed(Holds(f, lookup), st)
    decreases f, 1
  {
    match f
    case And(cs) =>
      CompileAllCorrect(cs, st, lookup);
      CompileAndCorrect(cs, st, lookup);
    case Or(cs) =>
      CompileAllCorrect(cs, st, lookup);
      CompileOrCorrect(cs, st, lookup);
    case Not(c) =>
      CompileCorrect(c, st, lookup);
      CompileNotCorrect(c, st, lookup);
    case Simple(a, op, v) =>
      CompileSimpleCorrect(a, op, v, st, lookup);
    case Present(a) =>
    case Substring(a, ps) =>
      CompileSubstringCorrect(a, ps, st, lookup);
  }

  /** The conjunction's step, given that its children's programs push their values. */
  lemma CompileAndCorrect(cs: seq<Filter>, st: seq<Value>, lookup: Lookup)
    requires Run(CompileAll(cs), st, lookup) ==
      PushedAll(HoldsEach(cs, lookup), st)
    ensures Run(Compile(And(cs)), st, lookup) == Pushed(Holds(And(cs), lookup), st)
  {
    RunAppend(CompileAll(cs), [AndOp(|cs|)], st, lookup);
    if HoldsEach(cs, lookup).Ok? {
      AndStackEffect(st, HoldsEach(cs, lookup).value, lookup);
    }
  }

  /** The disjunction's step, given that its children's programs push their values. */
  lemma CompileOrCorrect(cs: seq<Filter>, st: seq<Value>, lookup: Lookup)
    requires Run(CompileAll(cs), st, lookup) ==
      PushedAll(HoldsEach(cs, lookup), st)
    ensures Run(Compile(Or(cs)), st, lookup) == Pushed(Holds(Or(cs), lookup), st)
  {
    RunAppend(CompileAll(cs), [OrOp(|cs|)], st, lookup);
    if HoldsEach(cs, lookup).Ok? {
      OrStackEffect(st, HoldsEach(cs, lookup).value, lookup);
    }
  }

  /** The negation's step, given that its child's program pushes its value. */
  lemma CompileNotCorrect(c: Filter, st: seq<Value>, lookup: Lookup)
    requires Run(Compile(c), st, lookup) == Pushed(Holds(c, lookup), st)
    ensures Run(Compile(Not(c)), st, lookup) == Pushed(Holds(Not(c), lookup), st)
  {
    RunAppend(Compile(c), [NotOp], st, lookup);
    if Holds(c, lookup).Ok? {
      NotStackEffect(st, Holds(c, lookup).value, lookup);
    }
  }

  /** A comparison item pushes the comparison's outcome. */
  lemma CompileSimpleCorrect(a: string, op: CmpOp, v: string, st: seq<Value>, lookup: Lookup)
    ensures Run(Compile(Simple(a, op, v)), st, lookup) == Pushed(Holds(Simple(a, op, v), lookup), st)
  {
    if !(op == Equal && IsObjectClass(a)) {
      var code := [PushOp(a), ConstOp(v), CompareOp(op)];
      assert Compile(Simple(a, op, v)) == code;
      assert code[1..][1..] == [CompareOp(op)];
      assert code[1..][1..][1..] == [];
      var x := if lookup(a).Some? then lookup(a).value else Unknown;
      var st1 := st + [x];
      var st2 := st1 + [Str(v)];
      assert Top(st2) == Str(v) && Pop(st2) == st1;
      assert Top(st1) == x && Pop(st1) == st;
      assert Run(code, st, lookup) == Run(code[1..], st1, lookup);
      assert Run(code[1..], st1, lookup) == Run(code[1..][1..], st2, lookup);
      assert Run(code[1..][1..], st2, lookup) == Pushed(Compare(x, v, op), st);
    }
  }

  /** A substring item pushes the outcome of the match. */
  lemma CompileSubstringCorrect(a: string, ps: seq<string>, st: seq<Value>, lookup: Lookup)
    ensures Run(Compile(Substring(a, ps)), st, lookup) == Pushed(Holds(Substring(a, ps), lookup), st)
  {
    var code := [PushOp(a), SubStringOp(ps)];
    assert code[1..] == [SubStringOp(ps)];
    assert code[1..][1..] == [];
    var x := if lookup(a).Some? then lookup(a).value else Unknown;
    var st1 := st + [x];
    assert Top(st1) == x && Pop(st1) == st;
    assert Run(code, st, lookup) == Run(code[1..], st1, lookup);
    assert Run(code[1..], st1, lookup) == Pushed(if x.Unknown? then Ok(false) else SubstringOn(ps, x), st);
  }

  /** The children's programs, run in order, push the children's values in order. */
  lemma {:induction false} CompileAllCorrect(cs: seq<Filter>, st: seq<Value>, lookup: Lookup)
    ensures Run(CompileAll(cs), st, lookup) ==
      PushedAll(HoldsEach(cs, lookup), st)
    decreases cs, 0
  {
    if cs == [] {
      assert st + Bools([]) == st;
    } else {
      CompileCorrect(cs[0], st, lookup);
      if Holds(cs[0], lookup).Ok? {
        CompileAllCorrect(cs[1..], st + [Bool(Holds(cs[0], lookup).value)], lookup);
      }
      CompileAllStep(cs, st, lookup);
    }
  }

  /** The first child's program, then the others', given what each pushes. */
  lemma CompileAllStep(cs: seq<Filter>, st: seq<Value>, lookup: Lookup)
    requires cs != []
    requires Run(Compile(cs[0]), st, lookup) == Pushed(Holds(cs[0], lookup), st)
    requires Holds(cs[0], lookup).Ok? ==>
      var st1 := st + [Bool(Holds(cs[0], lookup).value)];
      Run(CompileAll(cs[1..]), st1, lookup) == PushedAll(HoldsEach(cs[1..], lookup), st1)
    ensures Run(CompileAll(cs), st, lookup) == PushedAll(HoldsEach(cs, lookup), st)
  {
    RunAppend(Compile(cs[0]), CompileAll(cs[1..]), st, lookup);
    if Holds(cs[0], lookup).Ok? && HoldsEach(cs[1..], lookup).Ok? {
      BoolsCons(st, Holds(cs[0], lookup).value, HoldsEach(cs[1..], lookup).value);
    }
  }

  lemma BoolsCons(st: seq<Value>, b: bool, bs: seq<bool>)
    ensures st + [Bool(b)] + Bools(bs) == st + Bools([b] + bs)
  {
    assert Bools([b] + bs) == [Bool(b)] + Bools(bs);
  }

  /** The evaluator's answer on a compiled filter is the filter's value. */
  lemma EvaluateCompiled(f: Filter, lookup: Lookup)
    ensures Evaluate(Compile(f), lookup) == Holds(f, lookup)
  {
    CompileCorrect(f, [], lookup);
  }
}
