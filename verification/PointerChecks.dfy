/** The checks on a single register: that it holds a pointer of a given type, as arguments, stored
    values and results of pointer type must, or that it holds no pointer, as an index must. Merging
    paths turns pointers of different types into no pointer, so the second kind accepts too much. */
module PointerChecks {
  import opened Cfg
  import opened Facts
  import opened Dataflow
  import opened Conformance
  import opened MergedPointers

  /** The register holds a pointer of type d. */
  predicate HoldsType(types: seq<Type>, p: Provenance, d: nat) {
    p.Pointer? && SameType(types, d, p.ptype, 0)
  }

  predicate PassesAsPointer(pr: Problem, ps: Pointers, r: nat, d: nat)
    requires |ps| == FAMILIES
  {
    r < FAMILIES && HoldsType(pr.types, ps[r], d)
  }

  predicate PassesAsScalar(ps: Pointers, r: nat)
    requires |ps| == FAMILIES
  {
    r < FAMILIES && !ps[r].Pointer?
  }

  /** The execution stands at the statement and register r holds no pointer of type d. */
  ghost predicate ArrivesWithout(pr: Problem, run: seq<Config>, id: Id, r: nat, d: nat)
    requires pr.Valid() && r < FAMILIES
  {
    Arrives(pr, run, id) && !HoldsType(pr.types, PointersOn(pr, Ids(run))[r], d)
  }

  ghost predicate ArrivesScalar(pr: Problem, run: seq<Config>, id: Id, r: nat)
    requires pr.Valid() && r < FAMILIES
  {
    Arrives(pr, run, id) && !PointersOn(pr, Ids(run))[r].Pointer?
  }

  ghost predicate ArriveDifferent(pr: Problem, run: seq<Config>, other: seq<Config>, id: Id, r: nat)
    requires pr.Valid() && r < FAMILIES
  {
    && Arrives(pr, run, id) && Arrives(pr, other, id)
    && TypesDiffer(pr.types, PointersOn(pr, Ids(run))[r], PointersOn(pr, Ids(other))[r])
  }

  lemma HeldOnRun(types: seq<Type>, held: Provenance, actual: Provenance, d: nat)
    requires HoldsType(types, held, d) && Weaker(types, held, actual) && actual != Top
    ensures HoldsType(types, actual, d)
  {
    hide SameType;
    SameTypeTrans(types, d, held.ptype, actual.ptype, 0);
  }

  /** A type that the fixpoint does not know in a register is not held there on an execution. */
  lemma LostOnRun(pr: Problem, cont: Continuations, ss: seq<State>, reach: set<Id>, id: Id, r: nat, d: nat) returns (run: seq<Config>)
    requires Analysed(pr, ss, reach) && Declared(pr) && Faithful(pr.stmts, pr.body, pr.edges, cont)
    requires id in reach && ValidId(pr.stmts, id) && r < FAMILIES && id < |ss| && !HoldsType(pr.types, ss[id].pointers[r], d)
    ensures ArrivesWithout(pr, run, id, r, d)
  {
    hide SameType, Available, Settled, PointersOn, TransferPointers;
    KnownAtReached(pr, ss, reach, id, r);
    assert Refutes(pr.types, ss[id].pointers[r], d);
    assert (id, r, d) in MissingOnSomePath(pr).types;
    var path :| PathTo(pr, path, id) && HoldsNo(pr, path, r, d);
    PathArrives(pr, cont, path, id);
    run := RunAlong(path, cont);
  }

  lemma ReachedInBounds(pr: Problem, ss: seq<State>, reach: set<Id>, id: Id)
    requires Analysed(pr, ss, reach) && id in reach && ValidId(pr.stmts, id)
    ensures id < |ss| && |ss[id].pointers| == FAMILIES && id in Arrivable(pr)
  {
  }

  /** The check for a pointer of type d passes exactly when every execution arrives with one. */
  lemma PointerPassesExactly(pr: Problem, cont: Continuations, ss: seq<State>, reach: set<Id>, id: Id, r: nat, d: nat)
    requires Analysed(pr, ss, reach) && Declared(pr) && Faithful(pr.stmts, pr.body, pr.edges, cont)
    requires id in reach && ValidId(pr.stmts, id) && r < FAMILIES
    ensures id < |ss| && |ss[id].pointers| == FAMILIES
    ensures PassesAsPointer(pr, ss[id].pointers, r, d) <==> forall run :: !ArrivesWithout(pr, run, id, r, d)
  {
    hide SameType, PointersOn, Exact, HoldsType, Weaker, Faithful;
    ReachedInBounds(pr, ss, reach, id);
    if PassesAsPointer(pr, ss[id].pointers, r, d) {
      forall run
        ensures !ArrivesWithout(pr, run, id, r, d)
      {
        if Arrives(pr, run, id) {
          RunPointers(pr, cont, ss, reach, run, id);
          HeldOnRun(pr.types, ss[id].pointers[r], PointersOn(pr, Ids(run))[r], d);
        }
      }
    } else {
      var run := LostOnRun(pr, cont, ss, reach, id, r, d);
    }
  }

  /** The check that a register holds no pointer passes exactly when on some execution it holds none
      or on two executions pointers of different types. */
  lemma ScalarPassesExactly(pr: Problem, cont: Continuations, ss: seq<State>, reach: set<Id>, id: Id, r: nat)
    requires Analysed(pr, ss, reach) && Declared(pr) && Faithful(pr.stmts, pr.body, pr.edges, cont)
    requires id in reach && ValidId(pr.stmts, id) && r < FAMILIES
    ensures id < |ss| && |ss[id].pointers| == FAMILIES
    ensures PassesAsScalar(ss[id].pointers, r) <==>
            (exists run :: ArrivesScalar(pr, run, id, r)) || (exists run, other :: ArriveDifferent(pr, run, other, id, r))
  {
    hide SameType, PointersOn, Exact, Arrives, Weaker, Faithful, TypesDiffer;
    ReachedInBounds(pr, ss, reach, id);
    if PassesAsScalar(ss[id].pointers, r) {
      ScalarIsSeen(pr, cont, ss, reach, id, r);
    } else {
      PointerIsSeen(pr, cont, ss, reach, id, r);
    }
  }

  lemma ScalarIsSeen(pr: Problem, cont: Continuations, ss: seq<State>, reach: set<Id>, id: Id, r: nat)
    requires Analysed(pr, ss, reach) && Declared(pr) && Faithful(pr.stmts, pr.body, pr.edges, cont)
    requires id in reach && ValidId(pr.stmts, id) && r < FAMILIES && id < |ss| && !ss[id].pointers[r].Pointer?
    ensures (exists run :: ArrivesScalar(pr, run, id, r)) || (exists run, other :: ArriveDifferent(pr, run, other, id, r))
  {
    hide SameType, PointersOn, Exact, Weaker, Faithful;
    var run := LostOnRun(pr, cont, ss, reach, id, r, 0);
    var p := PointersOn(pr, Ids(run))[r];
    if p.Pointer? {
      var other := LostOnRun(pr, cont, ss, reach, id, r, p.ptype);
      if PointersOn(pr, Ids(other))[r].Pointer? {
        assert ArriveDifferent(pr, run, other, id, r);
      } else {
        assert ArrivesScalar(pr, other, id, r);
      }
    } else {
      assert ArrivesScalar(pr, run, id, r);
    }
  }

  lemma PointerIsSeen(pr: Problem, cont: Continuations, ss: seq<State>, reach: set<Id>, id: Id, r: nat)
    requires Analysed(pr, ss, reach) && Declared(pr) && Faithful(pr.stmts, pr.body, pr.edges, cont)
    requires id in reach && ValidId(pr.stmts, id) && r < FAMILIES && id < |ss| && ss[id].pointers[r].Pointer?
    ensures forall run :: !ArrivesScalar(pr, run, id, r)
    ensures forall run, other :: !ArriveDifferent(pr, run, other, id, r)
  {
    hide SameType, PointersOn, Exact, Faithful, TypesDiffer;
    forall run
      ensures !ArrivesScalar(pr, run, id, r)
    {
      if Arrives(pr, run, id) {
        RunPointers(pr, cont, ss, reach, run, id);
      }
    }
    forall run, other
      ensures !ArriveDifferent(pr, run, other, id, r)
    {
      if ArriveDifferent(pr, run, other, id, r) {
        RunPointers(pr, cont, ss, reach, run, id);
        RunPointers(pr, cont, ss, reach, other, id);
        DifferentIsLost(pr.types, ss[id].pointers[r], PointersOn(pr, Ids(run))[r], PointersOn(pr, Ids(other))[r]);
      }
    }
  }

  /** For example rax where the two branches of the example meet: it passes as an index, and holds a
      pointer on every execution. */
  lemma PointerPassesAsScalar(ss: seq<State>, reach: set<Id>)
    requires Analysed(Example(), ss, reach)
    ensures 6 in reach && |ss| == 8 && |ss[6].pointers| == FAMILIES && PassesAsScalar(ss[6].pointers, 0)
    ensures forall run :: !ArrivesScalar(Example(), run, 6, 0)
    ensures exists run :: Arrives(Example(), run, 6)
  {
    hide PointersOn, Exact, Arrives, Faithful, TypesDiffer, SameType, Solution;
    GraphIsFaithful();
    AccessIsReached(ss, reach);
    TwoRunsDiffer();
    var run, other :| AccessesDiffer(Example(), run, other, 6);
    assert ArriveDifferent(Example(), run, other, 6, 0);
    ScalarPassesExactly(Example(), Stacks(), ss, reach, 6, 0);
    forall run
      ensures !ArrivesScalar(Example(), run, 6, 0)
    {
      if Arrives(Example(), run, 6) {
        RunHoldsPointer(run);
      }
    }
  }

  lemma RunHoldsPointer(run: seq<Config>)
    requires Arrives(Example(), run, 6)
    ensures PointersOn(Example(), Ids(run))[0].Pointer?
  {
    hide PointersOn, Faithful, ReachableSet, Execution;
    GraphIsFaithful();
    AllReachable();
    ExecutionIsPath(Statements(), 1, Graph(), Stacks(), {1, 2, 3, 4, 5, 6, 7}, run);
    HeldAtAccess(Ids(run));
  }
}
