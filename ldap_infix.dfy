/**
 * The printed form of a compiled filter. Each operator's buildTree pops
 * its operand subtrees from a stack of operators and pushes itself, which
 * turns the postfix program back into a tree; toStringInfix on the root
 * then prints the tree in RFC 1960 syntax.
 */
module LdapInfix {
  import opened Common
  import opened LdapCompare
  import opened LdapSyntax
  import opened LdapParser

  /** An operator together with the children buildTree gave it. */
  datatype Tree = Node(op: Op, children: seq<Tree>)

  /** How many subtrees an operator's buildTree pops. */
  function Arity(op: Op): nat
  {
    match op
    case AndOp(n) => n
    case OrOp(n) => n
    case NotOp => 1
    case CompareOp(_) => 2
    case SubStringOp(_) => 1
    case _ => 0
  }

  /**
   * buildTree of one operator: the top Arity(op) subtrees become its
   * children, the deepest first. None: the stack runs out (an
   * EmptyStackException).
   */
  function BuildStep(op: Op, st: seq<Tree>): (r: Option<seq<Tree>>)
    ensures r.Some? <==> Arity(op) <= |st|
    ensures r.Some? ==> |r.value| == |st| - Arity(op) + 1
  {
    var k := Arity(op);
    if |st| < k then None
    else Some(st[..|st| - k] + [Node(op, st[|st| - k..])])
  }

  /** buildTree of each operator of the program in turn. */
  function Build(code: seq<Op>, st: seq<Tree>): Option<seq<Tree>>
    decreases |code|
  {
    if code == [] then Some(st)
    else
      match BuildStep(code[0], st)
      case None => None
      case Some(st') => Build(code[1..], st')
  }

  /**
   * toStringInfix of a tree, as written: the objectClass target is printed
   * without escaping.
   */
  function InfixAsWritten(t: Tree): string
    decreases t
  {
    match t.op
    case AndOp(_) => "(&" + InfixAllAsWritten(t.children) + ")"
    case OrOp(_) => "(|" + InfixAllAsWritten(t.children) + ")"
    case NotOp => "(!" + InfixAllAsWritten(t.children) + ")"
    case ObjectClassOp(target) => "(" + OBJECT_CLASS + "=" + target + ")"
    case CompareOp(op) => "(" + InfixSepAsWritten(t.children, OpText(op)) + ")"
    case PresentOp(a) => "(" + a + "=*)"
    case PushOp(a) => a
    case ConstOp(v) => Escaped(v)
    case SubStringOp(ps) => "(" + InfixAllAsWritten(t.children) + "=" + JoinPieces(ps) + ")"
  }

  function InfixAllAsWritten(ts: seq<Tree>): string
    decreases ts
  {
    if ts == [] then [] else InfixAsWritten(ts[0]) + InfixAllAsWritten(ts[1..])
  }

  /** The children printed with `sep` before every one but the first. */
  function InfixSepAsWritten(ts: seq<Tree>, sep: string): string
    decreases ts
  {
    if ts == [] then []
    else if |ts| == 1 then InfixAsWritten(ts[0])
    else InfixAsWritten(ts[0]) + sep + InfixSepAsWritten(ts[1..], sep)
  }

  /**
   * toStringInfix with the objectClass target escaped like every other
   * value, so that the text reads back as the same filter.
   */
  function Infix(t: Tree): string
    decreases t
  {
    match t.op
    case AndOp(_) => "(&" + InfixAll(t.children) + ")"
    case OrOp(_) => "(|" + InfixAll(t.children) + ")"
    case NotOp => "(!" + InfixAll(t.children) + ")"
    case ObjectClassOp(target) => "(" + OBJECT_CLASS + "=" + Escaped(target) + ")"
    case CompareOp(op) => "(" + InfixSep(t.children, OpText(op)) + ")"
    case PresentOp(a) => "(" + a + "=*)"
    case PushOp(a) => a
    case ConstOp(v) => Escaped(v)
    case SubStringOp(ps) => "(" + InfixAll(t.children) + "=" + JoinPieces(ps) + ")"
  }

  function InfixAll(ts: seq<Tree>): string
    decreases ts
  {
    if ts == [] then [] else Infix(ts[0]) + InfixAll(ts[1..])
  }

  function InfixSep(ts: seq<Tree>, sep: string): string
    decreases ts
  {
    if ts == [] then []
    else if |ts| == 1 then Infix(ts[0])
    else Infix(ts[0]) + sep + InfixSep(ts[1..], sep)
  }

  /**
   * Evaluator.toStringInfix: build the tree of the whole program and
   * print its root. None when the program does not leave exactly one tree.
   */
  function ProgramText(code: seq<Op>): Option<string>
  {
    match Build(code, [])
    case Some(st) => if |st| == 1 then Some(Infix(st[0])) else None
    case None => None
  }

  // ---------------------------------------------------------------------
  // The tree of a compiled filter
  // ---------------------------------------------------------------------

  /** The tree buildTree reconstructs from the code of a filter. */
  function TreeOf(f: Filter): Tree
    decreases f
  {
    match f
    case And(cs) => Node(AndOp(|cs|), TreesOf(cs))
    case Or(cs) => Node(OrOp(|cs|), TreesOf(cs))
    case Not(c) => Node(NotOp, [TreeOf(c)])
    case Simple(a, op, v) =>
      if op == Equal && IsObjectClass(a) then Node(ObjectClassOp(v), [])
      else Node(CompareOp(op), [Node(PushOp(a), []), Node(ConstOp(v), [])])
    case Present(a) => Node(PresentOp(a), [])
    case Substring(a, ps) => Node(SubStringOp(ps), [Node(PushOp(a), [])])
  }

  function TreesOf(cs: seq<Filter>): (ts: seq<Tree>)
    ensures |ts| == |cs|
    decreases cs
  {
    if cs == [] then [] else [TreeOf(cs[0])] + TreesOf(cs[1..])
  }

  lemma {:induction false} BuildAppend(a: seq<Op>, b: seq<Op>, st: seq<Tree>)
    ensures Build(a + b, st) == (match Build(a, st) case None => None case Some(st') => Build(b, st'))
    decreases |a|
  {
    if a == [] {
      assert a + b == b;
    } else {
      assert (a + b)[0] == a[0];
      assert (a + b)[1..] == a[1..] + b;
      match BuildStep(a[0], st)
      case None =>
      case Some(st') => BuildAppend(a[1..], b, st');
    }
  }

  lemma PushTop(st: seq<Tree>, ts: seq<Tree>, op: Op)
    requires Arity(op) == |ts|
    ensures BuildStep(op, st + ts) == Some(st + [Node(op, ts)])
  {
    assert (st + ts)[..|st|] == st;
    assert (st + ts)[|st|..] == ts;
  }

  /** buildTree over the code of a filter pushes exactly that filter's tree. */
  lemma {:induction false} BuildCompiled(f: Filter, st: seq<Tree>)
    ensures Build(Compile(f), st) == Some(st + [TreeOf(f)])
    decreases f, 1
  {
    match f
    case And(cs) =>
      BuildAll(cs, st);
      BuildAppend(CompileAll(cs), [AndOp(|cs|)], st);
      PushTop(st, TreesOf(cs), AndOp(|cs|));
    case Or(cs) =>
      BuildAll(cs, st);
      BuildAppend(CompileAll(cs), [OrOp(|cs|)], st);
      PushTop(st, TreesOf(cs), OrOp(|cs|));
    case Not(c) =>
      BuildCompiled(c, st);
      BuildAppend(Compile(c), [NotOp], st);
      PushTop(st, [TreeOf(c)], NotOp);
    case Simple(a, op, v) => BuildSimple(a, op, v, st);
    case Present(a) => BuildPresent(a, st);
    case Substring(a, ps) => BuildSubstring(a, ps, st);
  }

  lemma BuildSimple(a: string, op: CmpOp, v: string, st: seq<Tree>)
    ensures Build(Compile(Simple(a, op, v)), st) == Some(st + [TreeOf(Simple(a, op, v))])
  {
    if !(op == Equal && IsObjectClass(a)) {
      var pa, cv := Node(PushOp(a), []), Node(ConstOp(v), []);
      var code := [PushOp(a), ConstOp(v), CompareOp(op)];
      PushTop(st, [], PushOp(a));
      PushTop(st + [pa], [], ConstOp(v));
      PushTop(st, [pa, cv], CompareOp(op));
      assert st + [] == st && st + [pa] + [] == st + [pa];
      assert st + [pa] + [cv] == st + [pa, cv];
      assert code[1..] == [ConstOp(v), CompareOp(op)] && code[1..][1..] == [CompareOp(op)];
      assert Build([CompareOp(op)], st + [pa, cv]) == Some(st + [TreeOf(Simple(a, op, v))]);
    } else {
      assert st + [] == st;
    }
  }

  lemma BuildPresent(a: string, st: seq<Tree>)
    ensures Build(Compile(Present(a)), st) == Some(st + [TreeOf(Present(a))])
  {
    PushTop(st, [], PresentOp(a));
    assert st + [] == st;
    assert Build([PresentOp(a)], st) == Build([], st + [Node(PresentOp(a), [])]);
  }

  lemma BuildSubstring(a: string, ps: seq<string>, st: seq<Tree>)
    ensures Build(Compile(Substring(a, ps)), st) == Some(st + [TreeOf(Substring(a, ps))])
  {
    var code := [PushOp(a), SubStringOp(ps)];
    PushTop(st, [], PushOp(a));
    PushTop(st, [Node(PushOp(a), [])], SubStringOp(ps));
    assert st + [] == st && code[1..] == [SubStringOp(ps)];
    assert Build([SubStringOp(ps)], st + [Node(PushOp(a), [])]) == Some(st + [TreeOf(Substring(a, ps))]);
  }

  lemma {:induction false} BuildAll(cs: seq<Filter>, st: seq<Tree>)
    ensures Build(CompileAll(cs), st) == Some(st + TreesOf(cs))
    decreases cs, 0
  {
    if cs == [] {
      assert st + [] == st;
    } else {
      BuildCompiled(cs[0], st);
      BuildAppend(Compile(cs[0]), CompileAll(cs[1..]), st);
      BuildAll(cs[1..], st + [TreeOf(cs[0])]);
      assert st + [TreeOf(cs[0])] + TreesOf(cs[1..]) == st + TreesOf(cs);
    }
  }

  /** The printed tree of a filter is the filter's text. */
  lemma {:induction false} InfixTree(f: Filter)
    ensures Infix(TreeOf(f)) == Text(f)
    decreases f, 1
  {
    match f
    case And(cs) => InfixTrees(cs);
    case Or(cs) => InfixTrees(cs);
    case Not(c) =>
      InfixTree(c);
      assert InfixAll([TreeOf(c)]) == Infix(TreeOf(c)) + InfixAll([]);
    case Simple(a, op, v) => InfixSimple(a, op, v);
    case Present(a) =>
      assert Infix(TreeOf(f)) == "(" + a + "=*)";
    case Substring(a, ps) =>
      assert InfixAll([Node(PushOp(a), [])]) == a + InfixAll([]);
  }

  lemma InfixSimple(a: string, op: CmpOp, v: string)
    ensures Infix(TreeOf(Simple(a, op, v))) == Text(Simple(a, op, v))
  {
    if !(op == Equal && IsObjectClass(a)) {
      InfixCompare(a, op, v);
    }
  }

  lemma InfixCompare(a: string, op: CmpOp, v: string)
    requires !(op == Equal && IsObjectClass(a))
    ensures Infix(TreeOf(Simple(a, op, v))) == Text(Simple(a, op, v))
  {
    var ts := [Node(PushOp(a), []), Node(ConstOp(v), [])];
    assert ts[1..] == [Node(ConstOp(v), [])];
    assert Infix(ts[0]) == a && InfixSep(ts[1..], OpText(op)) == Escaped(v);
    assert InfixSep(ts, OpText(op)) == a + OpText(op) + Escaped(v);
  }

  lemma {:induction false} InfixTrees(cs: seq<Filter>)
    ensures InfixAll(TreesOf(cs)) == TextAll(cs)
    decreases cs, 0
  {
    if cs != [] {
      InfixTree(cs[0]);
      InfixTrees(cs[1..]);
      assert TreesOf(cs)[0] == TreeOf(cs[0]);
      assert TreesOf(cs)[1..] == TreesOf(cs[1..]);
    }
  }

  /**
   * Printing a compiled filter gives its text, so (by the round trip of
   * the parser) the text of a parsed filter reads back as that filter.
   */
  lemma ProgramTextOfCompiled(f: Filter)
    ensures ProgramText(Compile(f)) == Some(Text(f))
  {
    BuildCompiled(f, []);
    assert [] + [TreeOf(f)] == [TreeOf(f)];
    InfixTree(f);
  }

  // ---------------------------------------------------------------------
  // The objectClass target printed unescaped
  // ---------------------------------------------------------------------

  /** The two printers differ only on the objectClass target. */
  lemma {:induction false} InfixAgreesWithoutSpecials(t: Tree)
    requires NoSpecialTargets(t)
    ensures InfixAsWritten(t) == Infix(t)
    decreases t, 2
  {
    match t.op
    case AndOp(_) => InfixAllAgrees(t.children);
    case OrOp(_) => InfixAllAgrees(t.children);
    case NotOp => InfixAllAgrees(t.children);
    case ObjectClassOp(target) => EscapedPlain(target);
    case CompareOp(op) => InfixSepAgrees(t.children, OpText(op));
    case PresentOp(a) =>
    case PushOp(a) =>
    case ConstOp(v) =>
    case SubStringOp(ps) => InfixAllAgrees(t.children);
  }

  lemma {:induction false} InfixAllAgrees(ts: seq<Tree>)
    requires forall k :: 0 <= k < |ts| ==> NoSpecialTargets(ts[k])
    ensures InfixAllAsWritten(ts) == InfixAll(ts)
    decreases ts, 1
  {
    if ts != [] {
      InfixAgreesWithoutSpecials(ts[0]);
      InfixAllAgrees(ts[1..]);
    }
  }

  lemma {:induction false} InfixSepAgrees(ts: seq<Tree>, sep: string)
    requires forall k :: 0 <= k < |ts| ==> NoSpecialTargets(ts[k])
    ensures InfixSepAsWritten(ts, sep) == InfixSep(ts, sep)
    decreases ts, 1
  {
    if ts != [] {
      InfixAgreesWithoutSpecials(ts[0]);
      if |ts| > 1 {
        InfixSepAgrees(ts[1..], sep);
      }
    }
  }

  /** No objectClass target in the tree holds a character appendEscaped escapes. */
  predicate NoSpecialTargets(t: Tree)
    decreases t
  {
    (t.op.ObjectClassOp? ==> forall k :: 0 <= k < |t.op.target| ==> !IsEscapedChar(t.op.target[k]))
    && forall i :: 0 <= i < |t.children| ==> NoSpecialTargets(t.children[i])
  }

  lemma {:induction false} EscapedPlain(v: string)
    requires forall k :: 0 <= k < |v| ==> !IsEscapedChar(v[k])
    ensures Escaped(v) == v
    decreases |v|
  {
    if v != [] {
      EscapedPlain(v[..|v| - 1]);
    }
  }

  /**
   * `(objectClass=\()` compiles to an ObjectClassOperator whose target is
   * `(`; as written it prints back as `(objectClass=()`, which is not the
   * filter's text and does not parse.
   */
  lemma ObjectClassTextAsWritten()
    ensures InfixAsWritten(TreeOf(Simple(OBJECT_CLASS, Equal, "("))) == "(objectClass=()"
    ensures Text(Simple(OBJECT_CLASS, Equal, "(")) == "(objectClass=\\()"
  {
    ObjectClassTree();
    ObjectClassEscaped();
  }

  lemma ObjectClassTree()
    ensures TreeOf(Simple(OBJECT_CLASS, Equal, "(")) == Node(ObjectClassOp("("), [])
  {
    assert IsObjectClass(OBJECT_CLASS);
  }

  lemma ObjectClassEscaped()
    ensures Text(Simple(OBJECT_CLASS, Equal, "(")) == "(" + OBJECT_CLASS + "=" + "\\(" + ")"
  {
    assert IsObjectClass(OBJECT_CLASS);
    assert Escaped("(") == "\\(" by {
      assert "("[..0] == [];
    }
  }

  /** The as-written text of that filter is a syntax error. */
  lemma ObjectClassTextUnparsable(s: string)
    requires s == "(objectClass=()"
    ensures StartF(s, 0).Err?
  {
    assert |s| == 15 && s[0] == '(' && s[12] == '=' && s[13] == '(';
    assert forall k :: 1 <= k < 12 ==> !IsDelimiter(s[k]) && !IsWhitespace(s[k]);
    assert SkipWs(s, 0) == 0 && SkipWs(s, 1) == 1;
    AttrEndAt(s, 1, 12);
    assert SkipWs(s, 12) == 12;
    assert EqualOpF(s, 12) == Ok((Some(Equal), 13));
    assert ScanF(s, 13, [], "", false, false).Err?;
    assert SubstringF(s, 13).Err?;
    assert AttributeF(s, 1, "").0.Some? && AttributeF(s, 1, "").1 == 12;
    assert ItemF(s, 1, "").Err?;
    assert HeadF(s, 1) == Ok(ItemAt(1, ""));
    assert FilterCompF(s, 1).Err?;
    assert InParensF(s, 1).Err?;
    assert FilterF(s, 0).Err?;
  }

  lemma {:induction false} AttrEndAt(s: string, i: nat, e: nat)
    requires i < e < |s| && IsDelimiter(s[e])
    requires forall k :: i < k < e ==> !IsDelimiter(s[k])
    ensures AttrEnd(s, i) == e
    decreases e - i
  {
    if i + 1 < e {
      AttrEndAt(s, i + 1, e);
    }
  }
}
