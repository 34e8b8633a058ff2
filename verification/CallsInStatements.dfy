/** Two functions on which the verdict of the verifier and the runs differ, because it looks at the
    state before a statement and not at what the calls in the statement do. */
module CallsInStatements {
  import opened Cfg
  import opened Facts
  import opened Dataflow
  import opened Conformance
  import opened StatementRuns

  const RCX := Register(1, 64, false)

  function Plain(kind: Kind, next: Id, first: Id): Stmt {
    Stmt(kind, next, first, 0, 0, NotBranch, 0, false, Computed)
  }

  /** A block of one statement and a return. */
  function Straight(kind: Kind): (p: seq<Stmt>)
    ensures |p| == 3
  {
    [Plain(Block, 0, 2), Plain(kind, 3, 0), Plain(Return, 0, 0)]
  }

  function Graph(): (edges: seq<seq<Id>>)
    ensures |edges| == 4
  {
    [[], [2], [3], []]
  }

  function Stacks(): Continuations {
    map[1 := [], 2 := [InBlock(1)], 3 := [InBlock(1)]]
  }

  function Nothing(): Effects {
    Effects([], 0, {}, {}, {}, {}, {}, map[], [])
  }

  function Routine(kind: Kind, second: Effects, third: Effects, functions: seq<Function>, types: seq<Type>): (pr: Problem)
    requires |functions| == 2
    ensures pr.Valid() && pr.stmts == Straight(kind) && pr.edges == Graph() && pr.body == 1 && pr.Self() == functions[0]
  {
    Problem(Straight(kind), [Nothing(), second, third], [], functions, types, 1, 1, Graph())
  }

  function OutRcx(p: Provenance): Variable {
    Variable(Out, 1, RCX, 64, p)
  }

  // ----- The graph -----

  predicate Simple(kind: Kind) {
    kind == Call || kind == Instruction
  }

  lemma StraightFaithful(kind: Kind)
    requires Simple(kind)
    ensures Faithful(Straight(kind), 1, Graph(), Stacks())
  {
    hide FaithfulAt;
    forall j | j in Stacks()
      ensures FaithfulAt(Straight(kind), 1, Graph(), Stacks(), j)
    {
      StraightPlace(kind, j);
      StraightEdges(kind, j);
      StraightClosed(kind, j);
      FaithfulPlace(kind, j);
    }
  }

  lemma FaithfulPlace(kind: Kind, j: Id)
    requires Simple(kind) && j in Stacks() && At(j, Stacks()[j]) in Places(Straight(kind), 1)
    requires Graph()[j] == EdgesOf(Straight(kind), j, Dest(After(Straight(kind), j, Stacks()[j])))
    requires Nested(Stacks(), Stacks()[j]) && Closed(Straight(kind), Stacks(), j)
    ensures FaithfulAt(Straight(kind), 1, Graph(), Stacks(), j)
  {
    hide Places, EdgesOf, After, Nested, Closed;
  }

  lemma StraightPlace(kind: Kind, j: Id)
    requires j in Stacks()
    ensures At(j, Stacks()[j]) in Places(Straight(kind), 1)
  {
    var p, s := Straight(kind), Stacks();
    PlacesClosed(p, 1);
    assert [InBlock(1)] + s[1] == s[2];
    assert Child(p, At(1, s[1]), At(2, s[2]));
    assert Child(p, At(2, s[2]), At(3, s[3]));
  }

  lemma StraightEdges(kind: Kind, j: Id)
    requires Simple(kind) && j in Stacks()
    ensures Graph()[j] == EdgesOf(Straight(kind), j, Dest(After(Straight(kind), j, Stacks()[j])))
  {
  }

  lemma StraightClosed(kind: Kind, j: Id)
    requires Simple(kind) && j in Stacks()
    ensures Nested(Stacks(), Stacks()[j]) && Closed(Straight(kind), Stacks(), j)
  {
    assert Stacks()[2][1..] == Stacks()[1];
    assert [InBlock(1)] + Stacks()[1] == Stacks()[2];
  }

  /** Executions go down the three statements. */
  lemma StraightRuns(kind: Kind, run: seq<Config>)
    requires Simple(kind) && Execution(Straight(kind), 1, run)
    ensures Path(Graph(), 1, Ids(run)) && (forall k :: 0 <= k < |run| ==> run[k].At? && run[k].id == Ids(run)[k])
    ensures Ids(run) == [1] || Ids(run) == [1, 2] || Ids(run) == [1, 2, 3]
  {
    StraightFaithful(kind);
    assert ReachableSet(Graph(), 1, {1, 2, 3});
    ExecutionIsPath(Straight(kind), 1, Graph(), Stacks(), {1, 2, 3}, run);
    StraightPath(Ids(run));
  }

  lemma EdgeTaken(path: seq<Id>, k: nat)
    requires Path(Graph(), 1, path) && k < |path| - 1
    ensures path[k + 1] in Graph()[path[k]]
  {
  }

  lemma StraightPath(path: seq<Id>)
    requires Path(Graph(), 1, path) && forall k :: 0 <= k < |path| ==> path[k] in {1, 2, 3}
    ensures path == [1] || path == [1, 2] || path == [1, 2, 3]
  {
    hide Path;
    StartsAtOne(path);
    if |path| > 1 {
      EdgeTaken(path, 0);
    }
    if |path| > 2 {
      EdgeTaken(path, 1);
    }
    if |path| > 3 {
      EdgeTaken(path, 2);
    }
  }

  lemma StartsAtOne(path: seq<Id>)
    requires Path(Graph(), 1, path)
    ensures |path| > 0 && path[0] == 1
  {
  }

  lemma WholeRun(kind: Kind) returns (run: seq<Config>)
    requires Simple(kind)
    ensures Execution(Straight(kind), 1, run) && Ids(run) == [1, 2, 3]
  {
    StraightFaithful(kind);
    PathIsExecution(Straight(kind), 1, Graph(), Stacks(), [1, 2, 3]);
    run := RunAlong([1, 2, 3], Stacks());
  }

  // ----- A read behind the call that assigns it -----

  /** do f() + rcx, where f hands back rcx and so does the function itself. */
  function ReadingAfter(): (pr: Problem)
    ensures pr.Valid() && pr.stmts == Straight(Call) && pr.edges == Graph() && pr.body == 1
  {
    Routine(Call, Nothing().(expressions := [Binary(CallTo(2, []), Reg(RCX))]), Nothing(),
            [Function([OutRcx(NoPointer)], {}, false, NoPointer, false), Function([OutRcx(NoPointer)], {}, false, NoPointer, false)], [])
  }

  lemma ReadingGoes(st: Live)
    requires |st.pointers| == FAMILIES
    ensures Perform(ReadingAfter(), 1, st) == Goes(st)
    ensures Perform(ReadingAfter(), 2, st).Goes? && BitsOf(RCX) <= Perform(ReadingAfter(), 2, st).live.written
    ensures BitsOf(RCX) <= st.written ==> Perform(ReadingAfter(), 3, st).Goes?
  {
    hide BitsOf, CallMakes;
    var pr := ReadingAfter();
    var x := Binary(CallTo(2, []), Reg(RCX));
    var after := Called(pr.functions[1], st);
    CallAssigns();
    assert EvalAll(pr, [], st) == Goes(st);
    assert Eval(pr, CallTo(2, []), st) == Goes(after);
    assert Eval(pr, x, st) == Goes(after);
    assert EvalAll(pr, [x], st) == Goes(after);
  }

  lemma CallAssigns()
    ensures OutputBits([OutRcx(NoPointer)]) == BitsOf(RCX)
  {
    hide BitsOf;
    assert [OutRcx(NoPointer)][0] == OutRcx(NoPointer);
  }

  lemma ReadingNeverFaults(run: seq<Config>)
    ensures NeverFaults(ReadingAfter(), run)
  {
    hide Perform, Execution, Start;
    var pr := ReadingAfter();
    if Execution(pr.stmts, pr.body, run) {
      StraightRuns(Call, run);
      var path := Ids(run);
      ReadingGoes(Start(pr));
      assert [1, 2][..1] == [1] && [1, 2, 3][..2] == [1, 2];
      var second := Perform(pr, 2, Start(pr));
      assert Arrive(pr, [1]) == Goes(Start(pr)) && Arrive(pr, [1, 2]) == Goes(Start(pr));
      assert Arrive(pr, [1, 2, 3]) == second;
      ReadingGoes(second.live);
    }
  }

  /** No execution of the function faults, yet the verifier refuses it: it asks for rcx before the
      statement, and the call in the statement assigns it first. */
  lemma ReadAfterCallRefused(ss: seq<State>, reach: set<Id>)
    requires Analysed(ReadingAfter(), ss, reach)
    ensures forall run :: NeverFaults(ReadingAfter(), run)
    ensures 2 in reach && |ss| == 4 && |ss[2].pointers| == FAMILIES && !Passes(ReadingAfter(), 2, ss[2])
  {
    hide NeverFaults, Settled, Exact, Needs;
    forall run
      ensures NeverFaults(ReadingAfter(), run)
    {
      ReadingNeverFaults(run);
    }
    var pr := ReadingAfter();
    assert Path(pr.edges, pr.body, [1, 2]);
    PathIsReached(pr, reach, [1, 2]);
    assert [1, 2][1] == 2;
    NeedsRcx();
    if Output(1, 0) in ss[2].facts {
      FactsHold(pr, ss, reach, [1, 2], Output(1, 0));
      RcxUnassigned();
    }
  }

  lemma NeedsRcx()
    ensures Output(1, 0) in Needs(ReadingAfter(), 2)
  {
    var pr, x := ReadingAfter(), Reg(RCX);
    assert PostOrderAll([Binary(CallTo(2, []), x)]) == [CallTo(2, []), x, Binary(CallTo(2, []), x)];
    assert x in Visited(pr, 2);
    assert Output(1, 0) in LeafReads(pr, x);
  }

  lemma RcxUnassigned()
    ensures !Available(ReadingAfter(), [1, 2], Output(1, 0))
  {
    var pr, f := ReadingAfter(), Output(1, 0);
    assert [1] + [2] == [1, 2];
    AvailableStep(pr, [1], 2, f);
    AvailableAtEntry(pr, [1], f);
    assert OutRcx(NoPointer) in pr.Self().params && f in ReadBits(RCX);
    assert Visited(pr, 1) == [];
  }

  // ----- A call in a return -----

  const TO_BYTE := Pointer(2)

  /** rcx is loaded with a pointer and the result of a function that changes rcx is returned, where
      rcx is to be handed back as a pointer. */
  function CallingLast(): (pr: Problem)
    ensures pr.Valid() && pr.stmts == Straight(Instruction) && pr.edges == Graph() && pr.body == 1
  {
    Routine(Instruction, Effects([], 0, {}, {}, {}, {}, BitsOf(RCX), map[1 := Fixed(TO_BYTE)], []),
            Nothing().(expressions := [CallTo(2, [])]),
            [Function([OutRcx(TO_BYTE)], {}, false, NoPointer, false), Function([], {1}, false, NoPointer, false)],
            [Type(1, 0, 8, 0, 0), Type(11, 1, 64, 0, 1)])
  }

  lemma LoadGoes(st: Live)
    requires |st.pointers| == FAMILIES
    ensures Perform(CallingLast(), 1, st) == Goes(st)
    ensures Perform(CallingLast(), 2, st).Goes? && Perform(CallingLast(), 2, st).live.pointers[1] == TO_BYTE
    ensures Perform(CallingLast(), 3, st).Fault?
  {
    hide BitsOf;
    var pr := CallingLast();
    assert EvalAll(pr, [], st) == Goes(st);
    assert CallMakes(pr.functions[1], 1) == Is(NoPointer);
    assert Eval(pr, CallTo(2, []), st) == Goes(Called(pr.functions[1], st));
    assert EvalAll(pr, [CallTo(2, [])], st) == Goes(Called(pr.functions[1], st));
    assert OutRcx(TO_BYTE) in pr.Self().params;
  }

  lemma LoadKeeps(path: seq<Id>)
    requires path == [1, 2, 3]
    ensures KeepsPointers(CallingLast(), PointersOn(CallingLast(), path))
  {
    var pr := CallingLast();
    assert path[..2] == [1, 2];
    assert PointersOn(pr, path)[1] == TO_BYTE;
  }

  lemma LoadAssigns(f: Fact)
    requires f in ReadBits(RCX)
    ensures Available(CallingLast(), [1, 2, 3], f)
  {
    var pr := CallingLast();
    SameBits(RCX);
    assert f in Gen(pr, 2);
    assert [1, 2] + [3] == [1, 2, 3];
    AvailableStep(pr, [1, 2], 3, f);
  }

  lemma LoadNeeds(id: Id, f: Fact)
    requires 1 <= id <= 3 && f in Needs(CallingLast(), id)
    ensures id == 3 && f in ReadBits(RCX)
  {
    hide ReadBits;
    var pr := CallingLast();
    assert PostOrderAll([CallTo(2, [])]) == [CallTo(2, [])];
    assert forall v :: v in pr.Self().params <==> v == OutRcx(TO_BYTE);
  }

  lemma CallingRunIsSafe(run: seq<Config>)
    requires Execution(Straight(Instruction), 1, run)
    ensures |run| > 0 && SafeAt(CallingLast(), run)
  {
    hide Needs, Available, PointersOn, KeepsPointers, ReadBits, Execution;
    var pr := CallingLast();
    StraightRuns(Instruction, run);
    var path := Ids(run);
    var id := path[|path| - 1];
    forall f | f in Needs(pr, id)
      ensures Available(pr, path, f)
    {
      LoadNeeds(id, f);
      LoadAssigns(f);
    }
    if id == 3 {
      LoadKeeps(path);
    }
  }

  lemma CallingIsSafe()
    ensures Safe(CallingLast())
  {
    hide SafeAt;
    forall run: seq<Config> | Execution(Straight(Instruction), 1, run)
      ensures |run| > 0 && SafeAt(CallingLast(), run)
    {
      CallingRunIsSafe(run);
    }
  }

  lemma NothingLacks(pr: Problem, id: Id)
    requires pr.Valid() && Safe(pr) && ValidId(pr.stmts, id)
    ensures forall run :: !Lacks(pr, run, id, Needs(pr, id)) && !HandsBackWrong(pr, run, id)
  {
    hide Available, PointersOn, KeepsPointers, Needs, AccessesFit;
    forall run
      ensures !Lacks(pr, run, id, Needs(pr, id)) && !HandsBackWrong(pr, run, id)
    {
      if Execution(pr.stmts, pr.body, run) {
        SafeOnRun(pr, run);
      }
    }
  }

  lemma MayReturn(pr: Problem, cont: Continuations, id: Id)
    requires pr.Valid() && Safe(pr) && ValidId(pr.stmts, id) && Faithful(pr.stmts, pr.body, pr.edges, cont) && id in Arrivable(pr)
    ensures pr.stmts[id - 1].kind == Return ==> !pr.Self().never
  {
    hide Available, PointersOn, KeepsPointers, Needs, AccessesFit, Faithful;
    if pr.stmts[id - 1].kind == Return {
      var path :| PathTo(pr, path, id);
      PathReturns(pr, cont, path, id);
      SafeOnRun(pr, RunAlong(path, cont));
    }
  }

  /** A safe function without memory accesses passes all its checks. */
  lemma SafePasses(pr: Problem, cont: Continuations, ss: seq<State>, reach: set<Id>, id: Id)
    requires Analysed(pr, ss, reach) && Declared(pr) && InRange(pr) && Faithful(pr.stmts, pr.body, pr.edges, cont) && Safe(pr)
    requires id in reach && ValidId(pr.stmts, id) && pr.effects[id - 1].accesses == []
    ensures id < |ss| && |ss[id].pointers| == FAMILIES && Passes(pr, id, ss[id])
  {
    hide Available, PointersOn, KeepsPointers, Settled, Exact, Needs, AllFacts, Lacks, HandsBackWrong, Safe;
    NothingLacks(pr, id);
    MayReturn(pr, cont, id);
    if !(Needs(pr, id) <= ss[id].facts) {
      LostIsLacking(pr, cont, ss, reach, id, Needs(pr, id));
    }
    if pr.stmts[id - 1].kind == Return && !KeepsPointers(pr, ss[id].pointers) {
      LostPointerIsWrong(pr, cont, ss, reach, id);
    }
  }

  /** The verifier accepts the function, and its run down the statements faults: at the return rcx
      holds what the call left. */
  lemma CallInReturnAccepted(ss: seq<State>, reach: set<Id>) returns (run: seq<Config>)
    requires Analysed(CallingLast(), ss, reach)
    ensures Safe(CallingLast()) && |ss| == 4 && forall id :: 0 <= id < 4 ==> |ss[id].pointers| == FAMILIES
    ensures forall id :: id in reach && 1 <= id <= 3 ==> Passes(CallingLast(), id, ss[id])
    ensures Execution(Straight(Instruction), 1, run) && !NeverFaults(CallingLast(), run)
  {
    hide Safe, Passes, Settled, Exact, NeverFaults, Execution;
    CallingIsSafe();
    CallingPasses(ss, reach);
    run := WholeRun(Instruction);
    WholeFaults(run);
  }

  lemma CallingPasses(ss: seq<State>, reach: set<Id>)
    requires Analysed(CallingLast(), ss, reach) && Safe(CallingLast())
    ensures |ss| == 4 && forall id :: 0 <= id < 4 ==> |ss[id].pointers| == FAMILIES
    ensures forall id :: id in reach && 1 <= id <= 3 ==> Passes(CallingLast(), id, ss[id])
  {
    hide Safe, Passes, Settled, Exact, Faithful, InRange, Declared;
    StraightFaithful(Instruction);
    CallingInRange();
    forall id | id in reach && 1 <= id <= 3
      ensures Passes(CallingLast(), id, ss[id])
    {
      SafePasses(CallingLast(), Stacks(), ss, reach, id);
    }
  }

  lemma CallingInRange()
    ensures InRange(CallingLast()) && Declared(CallingLast())
  {
    hide Needs;
    var pr := CallingLast();
    forall id | ValidId(pr.stmts, id)
      ensures Needs(pr, id) <= AllFacts(pr)
    {
      forall f | f in Needs(pr, id)
        ensures f in AllFacts(pr)
      {
        LoadNeeds(id, f);
      }
    }
  }

  lemma WholeFaults(run: seq<Config>)
    requires Execution(Straight(Instruction), 1, run) && Ids(run) == [1, 2, 3]
    ensures !NeverFaults(CallingLast(), run)
  {
    hide Perform, Start, Execution;
    var pr := CallingLast();
    LoadGoes(Start(pr));
    assert [1, 2][..1] == [1] && [1, 2, 3][..2] == [1, 2];
    var second := Perform(pr, 2, Start(pr));
    assert Arrive(pr, [1]) == Goes(Start(pr)) && Arrive(pr, [1, 2]) == Goes(Start(pr));
    assert Arrive(pr, [1, 2, 3]) == second;
    LoadGoes(second.live);
  }
}
