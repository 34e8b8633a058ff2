/** A function that the conformance verifier refuses although every execution of it is safe: two
    branches leave pointers of different types in a register, and an access fits either. */
module MergedPointers {
  import opened Cfg
  import opened Facts
  import opened Dataflow
  import opened Conformance

  function Plain(kind: Kind, next: Id, first: Id, thenBranch: Id): Stmt {
    Stmt(kind, next, first, thenBranch, 0, NotBranch, 0, false, Computed)
  }

  /** A block that loads rax, loads it again under a condition, accesses memory through it, returns. */
  function Statements(): (p: seq<Stmt>)
    ensures |p| == 7
  {
    [Plain(Block, 0, 2, 0), Plain(Instruction, 3, 0, 0), Plain(If, 6, 0, 4), Plain(Block, 0, 5, 0),
     Plain(Instruction, 0, 0, 0), Plain(Instruction, 7, 0, 0), Plain(Return, 0, 0, 0)]
  }

  const RAX := Register(0, 64, false)
  const RCX := Register(1, 64, false)

  function Nothing(): Effects {
    Effects([], 0, {}, {}, {}, {}, {}, map[], [])
  }

  /** A pointer of type d is moved into rax. */
  function Loads(d: nat): Effects {
    Effects([], 0, {}, {}, {}, {}, ReadBits(RAX), map[0 := Fixed(Pointer(d))], [])
  }

  function Doings(): (es: seq<Effects>)
    ensures |es| == 7
  {
    [Nothing(), Loads(3), Nothing().(expressions := [Reg(RCX)]), Nothing(), Loads(4),
     Nothing().(operandReads := ReadBits(RAX), accesses := [Access(0, 3)]), Nothing()]
  }

  /** A byte, an array of four bytes, a pointer to the one and a pointer to the other. */
  function Types(): seq<Type> {
    [Type(1, 0, 8, 0, 0), Type(ARRAY, 0, 0, 4, 1), Type(11, 1, 64, 0, 1), Type(11, 1, 64, 0, 2)]
  }

  function Graph(): (edges: seq<seq<Id>>)
    ensures |edges| == 8
  {
    [[], [2], [3], [4, 6], [5], [6], [7], []]
  }

  function Example(): (pr: Problem)
    ensures pr.Valid() && pr.stmts == Statements() && pr.edges == Graph() && pr.body == 1
  {
    Problem(Statements(), Doings(), [], [Function([], {}, false, NoPointer, false)], Types(), 1, 1, Graph())
  }

  function Stacks(): Continuations {
    map[1 := [], 2 := [InBlock(1)], 3 := [InBlock(1)], 4 := [InBranch(3), InBlock(1)],
        5 := [InBlock(4), InBranch(3), InBlock(1)], 6 := [InBlock(1)], 7 := [InBlock(1)]]
  }

  // ----- The graph is that of the statements -----

  lemma StackedAfter()
    ensures After(Statements(), 4, Stacks()[4]) == At(6, Stacks()[6])
    ensures After(Statements(), 5, Stacks()[5]) == At(6, Stacks()[6])
    ensures After(Statements(), 7, Stacks()[7]) == Exit
    ensures After(Statements(), 1, Stacks()[1]) == Exit
    ensures After(Statements(), 2, Stacks()[2]) == At(3, Stacks()[3])
    ensures After(Statements(), 3, Stacks()[3]) == At(6, Stacks()[6])
    ensures After(Statements(), 6, Stacks()[6]) == At(7, Stacks()[7])
  {
    assert After(Statements(), 3, [InBlock(1)]) == At(6, [InBlock(1)]);
    assert Stacks()[4][1..] == [InBlock(1)] && Stacks()[5][1..] == Stacks()[4];
    assert After(Statements(), 1, []) == Exit;
    assert Stacks()[7][1..] == [];
  }

  lemma Children()
    ensures var p, s := Statements(), Stacks();
            && Child(p, At(1, s[1]), At(2, s[2])) && Child(p, At(2, s[2]), At(3, s[3])) && Child(p, At(3, s[3]), At(4, s[4]))
            && Child(p, At(4, s[4]), At(5, s[5])) && Child(p, At(3, s[3]), At(6, s[6])) && Child(p, At(6, s[6]), At(7, s[7]))
  {
    var s := Stacks();
    assert [InBlock(1)] + s[1] == s[2] && [InBranch(3)] + s[3] == s[4] && [InBlock(4)] + s[4] == s[5];
  }

  lemma AllPlaces()
    ensures forall j :: j in Stacks() ==> At(j, Stacks()[j]) in Places(Statements(), 1)
  {
    hide Child, Statements, Places;
    PlacesClosed(Statements(), 1);
    Children();
  }

  lemma StackEdges(j: Id)
    requires j in Stacks()
    ensures Graph()[j] == EdgesOf(Statements(), j, Dest(After(Statements(), j, Stacks()[j])))
  {
    hide After;
    StackedAfter();
  }

  lemma StackClosed(j: Id)
    requires j in Stacks()
    ensures Nested(Stacks(), Stacks()[j]) && Closed(Statements(), Stacks(), j)
  {
    var s := Stacks();
    assert s[4][1..] == s[3] && s[5][1..] == s[4] && s[2][1..] == s[1];
    assert [InBlock(1)] + s[1] == s[2] && [InBranch(3)] + s[3] == s[4] && [InBlock(4)] + s[4] == s[5];
  }

  lemma StackFaithful(j: Id)
    requires j in Stacks()
    ensures FaithfulAt(Statements(), 1, Graph(), Stacks(), j)
  {
    hide Closed, Nested, After, EdgesOf, Places;
    StackEdges(j);
    StackClosed(j);
    AllPlaces();
  }

  lemma GraphIsFaithful()
    ensures Faithful(Statements(), 1, Graph(), Stacks())
  {
    hide FaithfulAt;
    forall j | j in Stacks()
      ensures FaithfulAt(Statements(), 1, Graph(), Stacks(), j)
    {
      StackFaithful(j);
    }
  }

  lemma AllReachable()
    ensures ReachableSet(Graph(), 1, {1, 2, 3, 4, 5, 6, 7})
  {
  }

  // ----- Every execution is safe -----

  lemma TypesTold()
    ensures Admits(Types(), Pointer(3), 3) && Admits(Types(), Pointer(4), 3)
    ensures TypesDiffer(Types(), Pointer(3), Pointer(4))
  {
    FittingPointersMerge();
    assert !SameType(Types(), 1, 2, 1);
    assert !SameType(Types(), 3, 4, 0);
  }

  lemma LoadsRax(ps: Pointers)
    requires |ps| == FAMILIES
    ensures TransferPointers(Example(), 2, ps)[0] == Pointer(3)
    ensures TransferPointers(Example(), 5, ps)[0] == Pointer(4)
  {
  }

  /** The access comes after the condition or after the second load. */
  lemma BeforeAccess(path: seq<Id>)
    requires Path(Graph(), 1, path) && path[|path| - 1] == 6
    ensures |path| >= 2 && path[|path| - 2] in {3, 5}
    ensures path[|path| - 2] == 3 ==> |path| >= 3 && path[|path| - 3] == 2
  {
    var n := |path| - 1;
    assert path[n] in Graph()[path[n - 1]];
    if path[n - 1] == 3 {
      assert path[n - 1] in Graph()[path[n - 2]];
    }
  }

  lemma AfterLoad(path: seq<Id>)
    requires |path| >= 2 && path[|path| - 2] in {2, 5}
    requires forall k :: 0 <= k < |path| ==> ValidId(Statements(), path[k])
    ensures PointersOn(Example(), path)[0] == Pointer(if path[|path| - 2] == 2 then 3 else 4)
  {
    hide TransferPointers, Statements, Doings, Graph, Example;
    LoadsRax(PointersOn(Example(), path[..|path| - 1]));
  }

  /** What rax holds where the access stands. */
  lemma HeldAtAccess(path: seq<Id>)
    requires Path(Graph(), 1, path) && path[|path| - 1] == 6
    requires forall k :: 0 <= k < |path| ==> ValidId(Statements(), path[k])
    ensures |path| >= 2
    ensures PointersOn(Example(), path)[0] == Pointer(if path[|path| - 2] == 3 then 3 else 4)
  {
    hide TransferPointers, Path, Statements, Doings, Graph, Example;
    BeforeAccess(path);
    var before := path[..|path| - 1];
    if path[|path| - 2] == 3 {
      AfterLoad(before);
      ConditionKeeps(PointersOn(Example(), before));
    } else {
      AfterLoad(path);
    }
  }

  /** The condition names rcx and calls nothing. */
  lemma ConditionKeeps(ps: Pointers)
    requires |ps| == FAMILIES
    ensures TransferPointers(Example(), 3, ps) == ps
    ensures Visited(Example(), 3) == [Reg(RCX)]
  {
    assert PostOrderAll([Reg(RCX)]) == [Reg(RCX)];
    assert CallPointers(Example(), [Reg(RCX)], ps) == ps;
  }

  lemma NeedsOutputs(id: Id, f: Fact)
    requires 1 <= id <= 7 && f in Needs(Example(), id)
    ensures f.Output? && f in EntryFacts(Example(), AllFacts(Example()))
  {
    hide EntryFacts, AllFacts;
    ConditionKeeps(seq(FAMILIES, _ => Top));
    OutputsAtEntry(f);
  }

  /** No parameter is a pure output, so every output bit counts as assigned at entry. */
  lemma OutputsAtEntry(f: Fact)
    ensures f.Output? && f.family < FAMILIES && f.bit < 64 ==> f in EntryFacts(Example(), AllFacts(Example()))
  {
    hide Statements, Doings, Graph, Types;
  }

  lemma KillsNothing(id: Id)
    requires 1 <= id <= 7
    ensures Kill(Example(), id) == {}
  {
    hide AllFlags, ReadBits, Types;
    ConditionKeeps(seq(FAMILIES, _ => Top));
  }

  lemma NeedsAreThere(path: seq<Id>, f: Fact)
    requires |path| > 0 && forall k :: 0 <= k < |path| ==> ValidId(Statements(), path[k])
    requires f in Needs(Example(), path[|path| - 1])
    ensures Available(Example(), path, f)
  {
    hide Needs, EntryFacts, AllFacts, Kill;
    NeedsOutputs(path[|path| - 1], f);
    forall k | 0 <= k < |path|
      ensures Kill(Example(), path[k]) == {}
    {
      KillsNothing(path[k]);
    }
    assert EstablishedAt(Example(), path, f, -1);
  }

  lemma AccessFitsEither(ps: Pointers)
    requires |ps| == FAMILIES && (ps[0] == Pointer(3) || ps[0] == Pointer(4))
    ensures AccessesFit(Example(), 6, ps)
  {
    hide Admits, Types, Statements;
    TypesTold();
  }

  lemma NoOtherAccess(id: Id, ps: Pointers)
    requires 1 <= id <= 7 && id != 6 && |ps| == FAMILIES
    ensures AccessesFit(Example(), id, ps)
  {
    hide AccessFits, Types, Statements;
  }

  lemma AccessIsFine(path: seq<Id>)
    requires Path(Graph(), 1, path) && forall k :: 0 <= k < |path| ==> ValidId(Statements(), path[k])
    ensures AccessesFit(Example(), path[|path| - 1], PointersOn(Example(), path))
  {
    hide PointersOn, AccessesFit, Statements, Doings, Types, Graph, Example;
    if path[|path| - 1] == 6 {
      HeldAtAccess(path);
      AccessFitsEither(PointersOn(Example(), path));
    } else {
      NoOtherAccess(path[|path| - 1], PointersOn(Example(), path));
    }
  }

  lemma ExampleIsSafe()
    ensures Safe(Example())
  {
    hide SafeAt, Faithful, ReachableSet;
    forall run | Execution(Statements(), 1, run)
      ensures SafeAt(Example(), run)
    {
      GraphIsFaithful();
      AllReachable();
      ExecutionIsPath(Statements(), 1, Graph(), Stacks(), {1, 2, 3, 4, 5, 6, 7}, run);
      RunIsSafe(run);
    }
  }

  lemma RunIsSafe(run: seq<Config>)
    requires |run| > 0 && Path(Graph(), 1, Ids(run))
    requires forall k :: 0 <= k < |run| ==> run[k].At? && run[k].id in {1, 2, 3, 4, 5, 6, 7}
    ensures SafeAt(Example(), run)
  {
    hide Needs, Available, PointersOn, AccessesFit;
    forall k | 0 <= k < |run|
      ensures ValidId(Statements(), Ids(run)[k]) && Ids(run)[k] == run[k].id
    {
    }
    forall f | f in Needs(Example(), run[|run| - 1].id)
      ensures Available(Example(), Ids(run), f)
    {
      NeedsAreThere(Ids(run), f);
    }
    AccessIsFine(Ids(run));
  }

  // ----- And it is refused -----

  lemma TwoPaths()
    ensures PathTo(Example(), [1, 2, 3, 6], 6) && PathTo(Example(), [1, 2, 3, 4, 5, 6], 6)
  {
  }

  lemma TwoRunsDiffer()
    ensures exists run, other :: AccessesDiffer(Example(), run, other, 6)
  {
    hide Faithful, Arrives, PointersOn, TypesDiffer;
    var pr, short, long := Example(), [1, 2, 3, 6], [1, 2, 3, 4, 5, 6];
    TwoPaths();
    GraphIsFaithful();
    PathArrives(pr, Stacks(), short, 6);
    PathArrives(pr, Stacks(), long, 6);
    HeldAtAccess(short);
    HeldAtAccess(long);
    TypesTold();
    assert AccessesDiffer(pr, RunAlong(short, Stacks()), RunAlong(long, Stacks()), 6);
  }

  /** Every execution of the example is safe, yet whatever the fixpoint is, the final check refuses
      the access: on one path rax points to a byte, on the other to an array of bytes, either admits
      the access, and the merge of the two is no pointer. */
  lemma FittingPointersRefused(ss: seq<State>, reach: set<Id>)
    requires Analysed(Example(), ss, reach)
    ensures Faithful(Statements(), 1, Graph(), Stacks()) && Safe(Example())
    ensures 6 in reach && !AccessesFit(Example(), 6, ss[6].pointers) && !Passes(Example(), 6, ss[6])
  {
    hide Safe, Solution, Exact, Faithful, PathTo, PointersOn, AccessesFit, AccessesDiffer, AccessesWrong;
    GraphIsFaithful();
    ExampleIsSafe();
    TwoPaths();
    AccessIsReached(ss, reach);
    TwoRunsDiffer();
    AccessesPassExactly(Example(), Stacks(), ss, reach, 6);
  }

  lemma AccessIsReached(ss: seq<State>, reach: set<Id>)
    requires Solution(Example(), ss, reach)
    ensures 6 in reach && |ss| == 8 && Declared(Example()) && 6 in Arrivable(Example())
  {
    TwoPaths();
    PathIsReached(Example(), reach, [1, 2, 3, 6]);
    assert [1, 2, 3, 6][3] == 6;
  }
}
