/** What the verifier takes to be resolved and in range, by the shape of expressions and in numbers. */
module KnownNames {
  import opened Cfg
  import opened Facts
  import opened Dataflow
  import opened Conformance

  /** Every function called in x and every variable named in it is declared; number 0 names nothing. */
  predicate Known(pr: Problem, x: Expr)
    decreases x
  {
    match x
    case Name(v) => v <= |pr.variables|
    case Memory(v) => v <= |pr.variables|
    case Unary(y) => Known(pr, y)
    case Binary(l, r) => Known(pr, l) && Known(pr, r)
    case CallTo(callee, args) => 0 < callee <= |pr.functions| && forall a :: a in args ==> Known(pr, a)
    case _ => true
  }

  predicate ResolvedNode(pr: Problem, x: Expr) {
    (x.CallTo? ==> KnownCall(pr, x)) && (Referenced(x) != 0 ==> KnownVariable(pr, Referenced(x)))
  }

  predicate ResolvedNodes(pr: Problem, nodes: seq<Expr>) {
    forall x :: x in nodes ==> ResolvedNode(pr, x)
  }

  lemma {:induction false} KnownIs(pr: Problem, x: Expr)
    ensures Known(pr, x) <==> ResolvedNodes(pr, PostOrder(x))
    decreases x
  {
    match x
    case Unary(y) => KnownIs(pr, y); NodesOf(pr, PostOrder(y), x);
    case Binary(l, r) =>
      KnownIs(pr, l);
      KnownIs(pr, r);
      NodesOf(pr, PostOrder(l) + PostOrder(r), x);
      assert ResolvedNodes(pr, PostOrder(l) + PostOrder(r)) <==> ResolvedNodes(pr, PostOrder(l)) && ResolvedNodes(pr, PostOrder(r)) by {
        NodesJoin(pr, PostOrder(l), PostOrder(r));
      }
    case CallTo(callee, args) => AllKnownIs(pr, args); NodesOf(pr, PostOrderAll(args), x);
    case _ => assert x in PostOrder(x);
  }

  lemma NodesJoin(pr: Problem, a: seq<Expr>, b: seq<Expr>)
    ensures ResolvedNodes(pr, a + b) <==> ResolvedNodes(pr, a) && ResolvedNodes(pr, b)
  {
    assert forall x :: x in a ==> x in a + b;
    assert forall x :: x in b ==> x in a + b;
  }

  lemma NodesOf(pr: Problem, nodes: seq<Expr>, x: Expr)
    ensures ResolvedNodes(pr, nodes + [x]) <==> ResolvedNodes(pr, nodes) && ResolvedNode(pr, x)
  {
    NodesJoin(pr, nodes, [x]);
  }

  lemma {:induction false} AllKnownIs(pr: Problem, es: seq<Expr>)
    ensures (forall x :: x in es ==> Known(pr, x)) <==> ResolvedNodes(pr, PostOrderAll(es))
    decreases es
  {
    if es != [] {
      KnownIs(pr, es[0]);
      AllKnownIs(pr, es[1..]);
      NodesJoin(pr, PostOrder(es[0]), PostOrderAll(es[1..]));
      assert es == [es[0]] + es[1..];
    }
  }

  /** A statement is resolved when what its expressions name is declared, those of a branch aside, and
      so is the local that it binds. */
  lemma ResolvedExactly(pr: Problem, id: Id)
    requires pr.Valid() && ValidId(pr.stmts, id)
    ensures Resolved(pr, id) <==>
      && (!IsBranch(pr.stmts[id - 1]) ==> forall x :: x in pr.effects[id - 1].expressions ==> Known(pr, x))
      && (pr.stmts[id - 1].kind == Let ==> 0 < pr.effects[id - 1].binds <= |pr.variables|)
  {
    AllKnownIs(pr, pr.effects[id - 1].expressions);
    assert (forall x :: x in Visited(pr, id) ==> ResolvedNode(pr, x)) <==> ResolvedNodes(pr, Visited(pr, id));
  }

  /** The 32 flags, the declared locals and the 64 bits of the 16 registers. */
  predicate Numbered(pr: Problem, f: Fact) {
    match f
    case Flag(b) => b < 32
    case Local(v) => v <= |pr.variables|
    case Output(r, b) => r < 16 && b < 64
  }

  lemma AllFactsAre(pr: Problem, f: Fact)
    ensures f in AllFacts(pr) <==> Numbered(pr, f)
  {
  }

  /** The masks of instructions are in range when their numbers are. */
  lemma InRangeExactly(pr: Problem)
    requires pr.Valid()
    ensures InRange(pr) <==>
      forall id :: ValidId(pr.stmts, id) && pr.stmts[id - 1].kind == Instruction ==>
        && (forall b :: b in pr.effects[id - 1].flagsRead ==> Numbered(pr, Flag(b)))
        && (!IsBranch(pr.stmts[id - 1]) ==> forall f :: f in pr.effects[id - 1].operandReads ==> Numbered(pr, f))
  {
    forall id | ValidId(pr.stmts, id)
      ensures Needs(pr, id) <= AllFacts(pr) <==> InNumbers(pr, id)
    {
      NeedsInRange(pr, id);
    }
    assert InRange(pr) <==> forall id :: ValidId(pr.stmts, id) ==> InNumbers(pr, id);
  }

  predicate InNumbers(pr: Problem, id: Id)
    requires pr.Valid() && ValidId(pr.stmts, id)
  {
    pr.stmts[id - 1].kind == Instruction ==>
      && (forall b :: b in pr.effects[id - 1].flagsRead ==> Numbered(pr, Flag(b)))
      && (!IsBranch(pr.stmts[id - 1]) ==> forall f :: f in pr.effects[id - 1].operandReads ==> Numbered(pr, f))
  }

  lemma NeedsInRange(pr: Problem, id: Id)
    requires pr.Valid() && ValidId(pr.stmts, id)
    ensures Needs(pr, id) <= AllFacts(pr) <==> InNumbers(pr, id)
  {
    forall f
      ensures f in AllFacts(pr) <==> Numbered(pr, f)
    {
      AllFactsAre(pr, f);
    }
    if Needs(pr, id) <= AllFacts(pr) && pr.stmts[id - 1].kind == Instruction {
      forall b | b in pr.effects[id - 1].flagsRead
        ensures Numbered(pr, Flag(b))
      {
        assert Flag(b) in Needs(pr, id);
      }
    }
    assert LocalsNeeded(pr, id) <= AllFacts(pr) && ReturnNeeds(pr, id) <= AllFacts(pr);
  }

  /** A function is refused for its outputs when one of them has no register or rax, rsp or rbp. */
  lemma ReservedExactly(params: seq<Variable>)
    ensures ReservedOutputs(params) <==>
      exists i :: 0 <= i < |params| && (params[i].direction == Out || params[i].direction == InOut) && Reserved(params[i].reg.family)
  {
    if v :| v in params && IsOutput(v) && Reserved(v.reg.family) {
      var i :| 0 <= i < |params| && params[i] == v;
    }
    if i :| 0 <= i < |params| && (params[i].direction == Out || params[i].direction == InOut) && Reserved(params[i].reg.family) {
      assert params[i] in params;
    }
  }

  predicate Reserved(family: int) {
    family !in {1, 2, 3, 6, 7, 8, 9, 10, 11, 12, 13, 14, 15}
  }
}
