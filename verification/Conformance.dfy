/** The verdict of the conformance verifier against executions of the function body. */
module Conformance {
  import opened Cfg
  import opened Facts
  import opened Dataflow

  // ----- Reference definitions over one path -----

  /** The fact was established by the entry or by some statement of the path, and no statement
      after that, short of the last one, destroys it. Position -1 stands for the entry. */
  ghost predicate EstablishedAt(pr: Problem, path: seq<Id>, f: Fact, i: int)
    requires pr.Valid() && forall k :: 0 <= k < |path| ==> ValidId(pr.stmts, path[k])
  {
    && -1 <= i < |path| - 1
    && (if i == -1 then f in EntryFacts(pr, AllFacts(pr)) else f in Gen(pr, path[i]))
    && forall k :: i < k < |path| - 1 ==> f !in Kill(pr, path[k])
  }

  ghost predicate Available(pr: Problem, path: seq<Id>, f: Fact)
    requires pr.Valid() && forall k :: 0 <= k < |path| ==> ValidId(pr.stmts, path[k])
  {
    exists i :: EstablishedAt(pr, path, f, i)
  }

  /** The pointer types the registers really have after following a path. */
  function PointersOn(pr: Problem, path: seq<Id>): (r: Pointers)
    requires pr.Valid() && forall k :: 0 <= k < |path| ==> ValidId(pr.stmts, path[k])
    ensures |r| == FAMILIES
  {
    if |path| <= 1 then EntryPointers(pr)
    else
      var before := path[..|path| - 1];
      TransferPointers(pr, before[|before| - 1], PointersOn(pr, before))
  }

  ghost predicate PathTo(pr: Problem, path: seq<Id>, id: Id)
    requires pr.Valid()
  {
    && Path(pr.edges, pr.body, path) && path[|path| - 1] == id
    && forall k :: 0 <= k < |path| ==> ValidId(pr.stmts, path[k])
  }

  lemma AvailableStep(pr: Problem, path: seq<Id>, next: Id, f: Fact)
    requires pr.Valid() && |path| > 0 && forall k :: 0 <= k < |path| ==> ValidId(pr.stmts, path[k])
    requires ValidId(pr.stmts, next)
    ensures var last := path[|path| - 1];
            Available(pr, path + [next], f) <==>
              f in Gen(pr, last) || (Available(pr, path, f) && f !in Kill(pr, last))
  {
    var n := |path|;
    var longer := path + [next];
    if f in Gen(pr, path[n - 1]) {
      assert EstablishedAt(pr, longer, f, n - 1);
    }
    if Available(pr, path, f) && f !in Kill(pr, path[n - 1]) {
      var i :| EstablishedAt(pr, path, f, i);
      assert EstablishedAt(pr, longer, f, i);
    }
    if Available(pr, longer, f) {
      var i :| EstablishedAt(pr, longer, f, i);
      if i < n - 1 {
        assert EstablishedAt(pr, path, f, i) by {
          forall k | i < k < n - 1
            ensures f !in Kill(pr, path[k])
          {
            assert longer[k] == path[k];
          }
        }
        assert longer[n - 1] == path[n - 1];
      }
    }
  }

  lemma AvailableAtEntry(pr: Problem, path: seq<Id>, f: Fact)
    requires pr.Valid() && |path| == 1 && ValidId(pr.stmts, path[0])
    ensures Available(pr, path, f) <==> f in EntryFacts(pr, AllFacts(pr))
  {
    if f in EntryFacts(pr, AllFacts(pr)) {
      assert EstablishedAt(pr, path, f, -1);
    }
  }

  // ----- Soundness: a fixpoint is below every path -----

  /** A fixpoint of the analysis that starts below the entry. */
  ghost predicate Solution(pr: Problem, ss: seq<State>, reach: set<Id>) {
    && pr.Valid() && Sized(pr, ss) && Settled(pr, ss, reach, []) && Reached(pr, reach)
    && Leq(pr.types, ss[pr.body], Entry(pr))
  }

  lemma {:induction false} PathIsReached(pr: Problem, reach: set<Id>, path: seq<Id>)
    requires pr.Valid() && Reached(pr, reach) && Path(pr.edges, pr.body, path)
    ensures forall k :: 0 <= k < |path| ==> path[k] in reach && ValidId(pr.stmts, path[k])
  {
    if |path| > 1 {
      var n := |path| - 1;
      PathIsReached(pr, reach, path[..n]);
      assert path[..n][n - 1] == path[n - 1];
      assert path[n] in pr.edges[path[n - 1]];
    }
  }

  lemma {:induction false} FactsHold(pr: Problem, ss: seq<State>, reach: set<Id>, path: seq<Id>, f: Fact)
    requires Solution(pr, ss, reach) && Path(pr.edges, pr.body, path) && path[|path| - 1] < |ss|
    requires forall k :: 0 <= k < |path| ==> path[k] in reach && ValidId(pr.stmts, path[k])
    requires f in ss[path[|path| - 1]].facts
    ensures Available(pr, path, f)
    decreases |path|
  {
    var n := |path| - 1;
    if n == 0 {
      AvailableAtEntry(pr, path, f);
    } else {
      var before := path[..n];
      var id := before[n - 1];
      assert path[n] in pr.edges[id];
      assert Pushed(pr, ss, id);
      assert f in Transfer(pr, id, ss[id], {}).facts;
      assert path == before + [path[n]];
      AvailableStep(pr, before, path[n], f);
      if f !in Gen(pr, id) {
        FactsHold(pr, ss, reach, before, f);
      }
    }
  }

  lemma {:induction false} PointersHold(pr: Problem, ss: seq<State>, reach: set<Id>, path: seq<Id>)
    requires Solution(pr, ss, reach) && Declared(pr)
    requires Path(pr.edges, pr.body, path) && path[|path| - 1] < |ss|
    requires forall k :: 0 <= k < |path| ==> path[k] in reach && ValidId(pr.stmts, path[k])
    ensures WeakerAll(pr.types, ss[path[|path| - 1]].pointers, PointersOn(pr, path))
    decreases |path|
  {
    var n := |path| - 1;
    if n > 0 {
      var before := path[..n];
      var id := before[n - 1];
      assert path[n] in pr.edges[id];
      assert Pushed(pr, ss, id);
      PointersHold(pr, ss, reach, before);
      PointerStep(pr, ss[path[n]].pointers, id, ss[id].pointers, PointersOn(pr, before));
    }
  }

  lemma PointerStep(pr: Problem, next: Pointers, id: Id, ps: Pointers, actual: Pointers)
    requires pr.Valid() && Declared(pr) && ValidId(pr.stmts, id) && |ps| == FAMILIES && |actual| == FAMILIES
    requires WeakerAll(pr.types, next, TransferPointers(pr, id, ps)) && WeakerAll(pr.types, ps, actual)
    ensures WeakerAll(pr.types, next, TransferPointers(pr, id, actual))
  {
    TransferPointersMonotone(pr, id, ps, actual);
    forall i | 0 <= i < FAMILIES
      ensures Weaker(pr.types, next[i], TransferPointers(pr, id, actual)[i])
    {
      WeakerTrans(pr.types, next[i], TransferPointers(pr, id, ps)[i], TransferPointers(pr, id, actual)[i]);
    }
  }

  // ----- Exactness: a lost fact is missing on a path -----

  ghost function MissingOnSomePath(pr: Problem): Absence
    requires pr.Valid()
  {
    Absence(iset id, f, path | PathTo(pr, path, id) && !Available(pr, path, f) :: (id, f),
            iset id, r: nat, d: nat, path | PathTo(pr, path, id) && HoldsNo(pr, path, r, d) :: (id, r, d))
  }

  /** After the path register r is no pointer of type d. */
  ghost predicate HoldsNo(pr: Problem, path: seq<Id>, r: nat, d: nat)
    requires pr.Valid() && forall k :: 0 <= k < |path| ==> ValidId(pr.stmts, path[k])
  {
    r < FAMILIES && Refutes(pr.types, PointersOn(pr, path)[r], d)
  }

  ghost function Arrivable(pr: Problem): iset<Id>
    requires pr.Valid()
  {
    iset id, path | PathTo(pr, path, id) :: id
  }

  lemma LongerPath(pr: Problem, path: seq<Id>, id: Id, next: Id)
    requires pr.Valid() && PathTo(pr, path, id) && next in pr.edges[id] && ValidId(pr.stmts, next)
    ensures PathTo(pr, path + [next], next)
  {
    var longer := path + [next];
    forall i | 0 <= i < |longer| - 1
      ensures longer[i + 1] in pr.edges[longer[i]]
    {
      if i < |path| - 1 {
        assert longer[i] == path[i] && longer[i + 1] == path[i + 1];
      }
    }
  }

  lemma MissingIsClosed(pr: Problem, reach: set<Id>)
    requires pr.Valid() && Reached(pr, reach) && forall id :: id in reach ==> id in Arrivable(pr)
    ensures AbsenceClosed(pr, reach, MissingOnSomePath(pr))
  {
    var missing := MissingOnSomePath(pr);
    TypesAreClosed(pr, reach);
    forall id, e, f | id in reach && ValidId(pr.stmts, id) && e in pr.edges[id] && f !in Gen(pr, id) &&
                      (f in Kill(pr, id) || (id, f) in missing.facts)
      ensures (e, f) in missing.facts
    {
      var path: seq<Id>;
      if (id, f) in missing.facts {
        path :| PathTo(pr, path, id) && !Available(pr, path, f);
      } else {
        assert id in Arrivable(pr);
        path :| PathTo(pr, path, id);
      }
      AvailableStep(pr, path, e, f);
      LongerPath(pr, path, id, e);
    }
  }

  /** One more statement on a path that has lost a type, or that loses it there. */
  lemma TypeStep(pr: Problem, path: seq<Id>, id: Id, next: Id, r: nat, d: nat, source: Source)
    requires pr.Valid() && PathTo(pr, path, id) && next in pr.edges[id] && ValidId(pr.stmts, next) && r < FAMILIES
    requires source == SourceOf(pr, id, r) && Refutes(pr.types, Evaluate(source, PointersOn(pr, path)), d)
    ensures PathTo(pr, path + [next], next) && HoldsNo(pr, path + [next], r, d)
  {
    hide SourceOf, TransferPointers;
    LongerPath(pr, path, id, next);
    assert (path + [next])[..|path|] == path;
    TransferFromSource(pr, id, r, PointersOn(pr, path));
  }

  lemma TypesAreClosed(pr: Problem, reach: set<Id>)
    requires pr.Valid() && Reached(pr, reach) && forall id :: id in reach ==> id in Arrivable(pr)
    ensures TypesClosed(pr, reach, MissingOnSomePath(pr).types)
  {
    hide SourceOf, Refutes;
    var types := MissingOnSomePath(pr).types;
    forall id, e, r: nat, d: nat | id in reach && ValidId(pr.stmts, id) && e in pr.edges[id] && r < FAMILIES && LosesType(pr, id, r, d, types)
      ensures (e, r, d) in types
    {
      TypeIsLost(pr, reach, id, e, r, d);
    }
  }

  lemma TypeIsLost(pr: Problem, reach: set<Id>, id: Id, e: Id, r: nat, d: nat)
    requires pr.Valid() && Reached(pr, reach) && id in reach && id in Arrivable(pr) && ValidId(pr.stmts, id) && e in pr.edges[id]
    requires r < FAMILIES && LosesType(pr, id, r, d, MissingOnSomePath(pr).types)
    ensures (e, r, d) in MissingOnSomePath(pr).types
  {
    hide SourceOf, PointersOn, SameType;
    var source := SourceOf(pr, id, r);
    var path: seq<Id>;
    if source.FromRegister? && source.family < FAMILIES {
      path :| PathTo(pr, path, id) && HoldsNo(pr, path, source.family, d);
    } else {
      path :| PathTo(pr, path, id);
    }
    TypeStep(pr, path, id, e, r, d, source);
  }

  lemma EntryIsMissing(pr: Problem, f: Fact)
    requires pr.Valid() && f !in EntryFacts(pr, AllFacts(pr))
    ensures (pr.body, f) in MissingOnSomePath(pr).facts
  {
    AvailableAtEntry(pr, [pr.body], f);
    assert PathTo(pr, [pr.body], pr.body);
  }

  // ----- The verdict -----

  /** At the end of this execution the statement may run: it has not left the function, everything
      it needs has been established and not destroyed since, memory is accessed through pointers
      into the annotated space, and a return is allowed and hands back declared pointers. */
  ghost predicate SafeAt(pr: Problem, run: seq<Config>)
    requires pr.Valid() && |run| > 0
  {
    && (forall k :: 0 <= k < |run| ==> run[k].At? && ValidId(pr.stmts, run[k].id))
    && var path, id := Ids(run), run[|run| - 1].id;
       && (forall f :: f in Needs(pr, id) ==> Available(pr, path, f))
       && AccessesFit(pr, id, PointersOn(pr, path))
       && (pr.stmts[id - 1].kind == Return ==> KeepsPointers(pr, PointersOn(pr, path)) && !pr.Self().never)
  }

  ghost predicate Safe(pr: Problem)
    requires pr.Valid()
  {
    forall run :: Execution(pr.stmts, pr.body, run) ==> SafeAt(pr, run)
  }

  ghost predicate Lacks(pr: Problem, run: seq<Config>, id: Id, needs: set<Fact>)
    requires pr.Valid()
  {
    && Execution(pr.stmts, pr.body, run) && run[|run| - 1].At? && run[|run| - 1].id == id
    && (forall k :: 0 <= k < |run| ==> ValidId(pr.stmts, Ids(run)[k]))
    && exists f :: f in needs && !Available(pr, Ids(run), f)
  }

  /** The execution stands at a return. */
  ghost predicate Returns(pr: Problem, run: seq<Config>, id: Id)
    requires pr.Valid()
  {
    && Execution(pr.stmts, pr.body, run) && run[|run| - 1].At? && run[|run| - 1].id == id
    && (forall k :: 0 <= k < |run| ==> ValidId(pr.stmts, Ids(run)[k]))
    && ValidId(pr.stmts, id) && pr.stmts[id - 1].kind == Return
  }

  /** It would hand back an output register that holds no pointer of its declared type. */
  ghost predicate HandsBackWrong(pr: Problem, run: seq<Config>, id: Id)
    requires pr.Valid()
  {
    Returns(pr, run, id) && !KeepsPointers(pr, PointersOn(pr, Ids(run)))
  }

  /** The execution stands at a statement. */
  ghost predicate Arrives(pr: Problem, run: seq<Config>, id: Id)
    requires pr.Valid()
  {
    && Execution(pr.stmts, pr.body, run) && run[|run| - 1].At? && run[|run| - 1].id == id
    && ValidId(pr.stmts, id) && forall k :: 0 <= k < |run| ==> ValidId(pr.stmts, Ids(run)[k])
  }

  /** It would access memory through a register that holds no fitting pointer. */
  ghost predicate AccessesWrong(pr: Problem, run: seq<Config>, id: Id)
    requires pr.Valid()
  {
    Arrives(pr, run, id) && !AccessesFit(pr, id, PointersOn(pr, Ids(run)))
  }

  /** Two executions arrive with pointers of different types in the base of an access. */
  ghost predicate AccessesDiffer(pr: Problem, run: seq<Config>, other: seq<Config>, id: Id)
    requires pr.Valid()
  {
    && Arrives(pr, run, id) && Arrives(pr, other, id)
    && exists a :: a in pr.effects[id - 1].accesses && a.base < FAMILIES &&
                   TypesDiffer(pr.types, PointersOn(pr, Ids(run))[a.base], PointersOn(pr, Ids(other))[a.base])
  }

  predicate TypesDiffer(types: seq<Type>, p: Provenance, q: Provenance) {
    p.Pointer? && q.Pointer? && !SameType(types, p.ptype, q.ptype, 0)
  }

  /** The execution that a rejection points at. */
  ghost predicate Refuted(pr: Problem, outcome: Outcome)
    requires pr.Valid()
  {
    match outcome
    case FallsOff(_) =>
      exists run :: Execution(pr.stmts, pr.body, run) && run[|run| - 1] == Exit
    case FlagsUndefined(id) => ValidId(pr.stmts, id) && exists run :: Lacks(pr, run, id, FlagsNeeded(pr, id))
    case LocalUnbound(id) => ValidId(pr.stmts, id) && exists run :: Lacks(pr, run, id, LocalsNeeded(pr, id))
    case OutputUnassigned(id) => ValidId(pr.stmts, id) && exists run :: Lacks(pr, run, id, OutputsNeeded(pr, id))
    case OutputNotReturned(id) => ValidId(pr.stmts, id) && exists run :: Lacks(pr, run, id, ReturnNeeds(pr, id))
    case AccessRefused(id) =>
      (exists run :: AccessesWrong(pr, run, id)) || (exists run, other :: AccessesDiffer(pr, run, other, id))
    case ProvenanceLost(id) => exists run :: HandsBackWrong(pr, run, id)
    case NeverReturns(id) => pr.Self().never && exists run :: Returns(pr, run, id)
    case Unresolved(id) => id in Arrivable(pr) && ValidId(pr.stmts, id) && !Resolved(pr, id)
    case _ => true
  }

  /** Every statement that control arrives at names only what there is. */
  ghost predicate AllResolved(pr: Problem)
    requires pr.Valid()
  {
    forall id :: id in Arrivable(pr) ==> ValidId(pr.stmts, id) && Resolved(pr, id)
  }

  lemma ReachedIsArrivable(pr: Problem, reach: set<Id>)
    requires pr.Valid() && Reached(pr, reach) && forall id :: id in reach ==> Resolved(pr, id)
    ensures AllResolved(pr)
  {
    forall id | id in Arrivable(pr)
      ensures ValidId(pr.stmts, id) && Resolved(pr, id)
    {
      var path :| PathTo(pr, path, id);
      PathIsReached(pr, reach, path);
    }
  }

  /** The masks of a statement have only the bits there are. */
  ghost predicate InRange(pr: Problem)
    requires pr.Valid()
  {
    forall id :: ValidId(pr.stmts, id) ==> Needs(pr, id) <= AllFacts(pr)
  }

  lemma {:induction false} NoUnknownPointers(pr: Problem, path: seq<Id>)
    requires pr.Valid() && Declared(pr) && forall k :: 0 <= k < |path| ==> ValidId(pr.stmts, path[k])
    ensures forall i :: 0 <= i < FAMILIES ==> PointersOn(pr, path)[i] != Top
    decreases |path|
  {
    if |path| <= 1 {
      NoUnknownInputs(pr.Self().params, |pr.Self().params|);
    } else {
      var before := path[..|path| - 1];
      NoUnknownPointers(pr, before);
      var id := before[|before| - 1];
      if !IsBranch(pr.stmts[id - 1]) && pr.stmts[id - 1].kind != Instruction {
        NoUnknownAfterCalls(pr, Visited(pr, id), PointersOn(pr, before));
      }
    }
  }

  lemma {:induction false} NoUnknownInputs(params: seq<Variable>, n: nat)
    requires n <= |params| && forall v :: v in params ==> v.pointer != Top
    ensures forall i :: 0 <= i < FAMILIES ==> BindInputs(params, n)[i] != Top
  {
    if n > 0 {
      NoUnknownInputs(params, n - 1);
    }
  }

  lemma {:induction false} NoUnknownOutputs(params: seq<Variable>, n: nat, ps: Pointers)
    requires n <= |params| && |ps| == FAMILIES && forall v :: v in params ==> v.pointer != Top
    requires forall i :: 0 <= i < FAMILIES ==> ps[i] != Top
    ensures forall i :: 0 <= i < FAMILIES ==> BindOutputs(params, n, ps)[i] != Top
  {
    if n > 0 {
      NoUnknownOutputs(params, n - 1, ps);
    }
  }

  lemma {:induction false} NoUnknownAfterCalls(pr: Problem, nodes: seq<Expr>, ps: Pointers)
    requires Declared(pr) && |ps| == FAMILIES && forall i :: 0 <= i < FAMILIES ==> ps[i] != Top
    ensures forall i :: 0 <= i < FAMILIES ==> CallPointers(pr, nodes, ps)[i] != Top
    decreases |nodes|
  {
    if nodes != [] {
      var before := CallPointers(pr, nodes[..|nodes| - 1], ps);
      NoUnknownAfterCalls(pr, nodes[..|nodes| - 1], ps);
      var x := nodes[|nodes| - 1];
      if KnownCall(pr, x) {
        var f := pr.functions[x.callee - 1];
        NoUnknownOutputs(f.params, |f.params|, Clobber(f, before));
      }
    }
  }

  lemma KeptPointersAreReal(pr: Problem, held: Pointers, actual: Pointers)
    requires pr.Valid() && |held| == FAMILIES && WeakerAll(pr.types, held, actual) && KeepsPointers(pr, held)
    requires forall i :: 0 <= i < FAMILIES ==> actual[i] != Top
    ensures KeepsPointers(pr, actual)
  {
    forall v | v in pr.Self().params && IsOutput(v) && v.pointer.Pointer? && InFamily(v.reg)
      ensures actual[v.reg.family].Pointer? && SameType(pr.types, v.pointer.ptype, actual[v.reg.family].ptype, 0)
    {
      SameTypeTrans(pr.types, v.pointer.ptype, held[v.reg.family].ptype, actual[v.reg.family].ptype, 0);
    }
  }

  lemma KeptAccessesAreReal(pr: Problem, id: Id, held: Pointers, actual: Pointers)
    requires pr.Valid() && ValidId(pr.stmts, id) && |held| == FAMILIES && WeakerAll(pr.types, held, actual) && AccessesFit(pr, id, held)
    requires forall i :: 0 <= i < FAMILIES ==> actual[i] != Top
    ensures AccessesFit(pr, id, actual)
  {
    hide SameType, Admits;
    forall a | a in pr.effects[id - 1].accesses
      ensures AccessFits(pr.types, actual, a)
    {
      assert AccessFits(pr.types, held, a);
      AdmittedIsPointer(pr.types, held[a.base], a.annotation);
      SameAdmits(pr.types, held[a.base], actual[a.base], a.annotation);
    }
  }

  lemma AdmittedIsPointer(types: seq<Type>, p: Provenance, annotation: nat)
    requires Admits(types, p, annotation)
    ensures p.Pointer?
  {
  }

  lemma PathIsSafe(pr: Problem, ss: seq<State>, reach: set<Id>, path: seq<Id>)
    requires Solution(pr, ss, reach) && Declared(pr) && Path(pr.edges, pr.body, path)
    requires forall k :: 0 <= k < |path| ==> path[k] in reach && ValidId(pr.stmts, path[k])
    requires Passes(pr, path[|path| - 1], ss[path[|path| - 1]])
    ensures var id := path[|path| - 1];
            && (forall f :: f in Needs(pr, id) ==> Available(pr, path, f))
            && AccessesFit(pr, id, PointersOn(pr, path))
            && (pr.stmts[id - 1].kind == Return ==> KeepsPointers(pr, PointersOn(pr, path)) && !pr.Self().never)
  {
    var id := path[|path| - 1];
    forall f | f in Needs(pr, id)
      ensures Available(pr, path, f)
    {
      FactsHold(pr, ss, reach, path, f);
    }
    PointersHold(pr, ss, reach, path);
    NoUnknownPointers(pr, path);
    KeptAccessesAreReal(pr, id, ss[id].pointers, PointersOn(pr, path));
    if pr.stmts[id - 1].kind == Return {
      KeptPointersAreReal(pr, ss[id].pointers, PointersOn(pr, path));
    }
  }

  lemma RunIsReached(pr: Problem, cont: Continuations, reach: set<Id>, run: seq<Config>)
    requires pr.Valid() && Faithful(pr.stmts, pr.body, pr.edges, cont) && Reached(pr, reach)
    requires Execution(pr.stmts, pr.body, run)
    ensures Path(pr.edges, pr.body, Ids(run))
    ensures forall k :: 0 <= k < |run| ==>
      run[k].At? && ValidId(pr.stmts, run[k].id) && run[k].id in reach && run[k].id == Ids(run)[k]
  {
    ExecutionIsPath(pr.stmts, pr.body, pr.edges, cont, reach, run);
    PathIsReached(pr, reach, Ids(run));
    forall k | 0 <= k < |run|
      ensures ValidId(pr.stmts, run[k].id)
    {
      assert ValidId(pr.stmts, Ids(run)[k]);
    }
  }

  lemma ReachedRunIsSafe(pr: Problem, ss: seq<State>, reach: set<Id>, run: seq<Config>)
    requires Solution(pr, ss, reach) && Declared(pr) && |run| > 0
    requires forall id :: id in reach && ValidId(pr.stmts, id) ==> Passes(pr, id, ss[id])
    requires Path(pr.edges, pr.body, Ids(run))
    requires forall k :: 0 <= k < |run| ==>
      run[k].At? && ValidId(pr.stmts, run[k].id) && run[k].id in reach && run[k].id == Ids(run)[k]
    ensures SafeAt(pr, run)
  {
    hide Passes;
    PathIsSafe(pr, ss, reach, Ids(run));
  }

  /** A passed final check makes every execution safe. */
  lemma PassedIsSafe(pr: Problem, cont: Continuations, ss: seq<State>, reach: set<Id>)
    requires Solution(pr, ss, reach) && Declared(pr) && Faithful(pr.stmts, pr.body, pr.edges, cont)
    requires forall id :: id in reach && ValidId(pr.stmts, id) ==> Passes(pr, id, ss[id])
    ensures Safe(pr)
  {
    forall run | Execution(pr.stmts, pr.body, run)
      ensures SafeAt(pr, run)
    {
      RunIsReached(pr, cont, reach, run);
      ReachedRunIsSafe(pr, ss, reach, run);
    }
  }

  /** A needed fact the fixpoint has lost is lacking on an execution. */
  lemma LostIsLacking(pr: Problem, cont: Continuations, ss: seq<State>, reach: set<Id>, id: Id, needs: set<Fact>)
    requires pr.Valid() && Sized(pr, ss) && Faithful(pr.stmts, pr.body, pr.edges, cont) && Reached(pr, reach)
    requires Exact(pr, ss, reach, MissingOnSomePath(pr), AllFacts(pr))
    requires id in reach && ValidId(pr.stmts, id) && needs <= AllFacts(pr) && !(needs <= ss[id].facts)
    ensures exists run :: Lacks(pr, run, id, needs)
  {
    var f :| f in needs && f !in ss[id].facts;
    assert (id, f) in MissingOnSomePath(pr).facts;
    var path :| PathTo(pr, path, id) && !Available(pr, path, f);
    PathInBody(pr, cont, path);
    PathIsExecution(pr.stmts, pr.body, pr.edges, cont, path);
    assert Lacks(pr, RunAlong(path, cont), id, needs);
  }

  /** A path to a return is run by an execution that stands at it. */
  lemma PathReturns(pr: Problem, cont: Continuations, path: seq<Id>, id: Id)
    requires pr.Valid() && Faithful(pr.stmts, pr.body, pr.edges, cont) && PathTo(pr, path, id)
    requires ValidId(pr.stmts, id) && pr.stmts[id - 1].kind == Return
    ensures forall k :: 0 <= k < |path| ==> path[k] in cont
    ensures Returns(pr, RunAlong(path, cont), id) && Ids(RunAlong(path, cont)) == path
  {
    PathInBody(pr, cont, path);
    PathIsExecution(pr.stmts, pr.body, pr.edges, cont, path);
  }

  lemma PathArrives(pr: Problem, cont: Continuations, path: seq<Id>, id: Id)
    requires pr.Valid() && Faithful(pr.stmts, pr.body, pr.edges, cont) && PathTo(pr, path, id) && ValidId(pr.stmts, id)
    ensures forall k :: 0 <= k < |path| ==> path[k] in cont
    ensures Arrives(pr, RunAlong(path, cont), id) && Ids(RunAlong(path, cont)) == path
  {
    PathInBody(pr, cont, path);
    PathIsExecution(pr.stmts, pr.body, pr.edges, cont, path);
  }

  /** An access through a register that the fixpoint has lost is wrong on an execution, or two
      executions differ in what they hold there. */
  lemma RefusedAccess(pr: Problem, cont: Continuations, ss: seq<State>, reach: set<Id>, id: Id)
    requires Solution(pr, ss, reach) && Declared(pr) && Faithful(pr.stmts, pr.body, pr.edges, cont)
    requires Exact(pr, ss, reach, MissingOnSomePath(pr), AllFacts(pr)) && id in Arrivable(pr)
    requires id in reach && ValidId(pr.stmts, id) && !AccessesFit(pr, id, ss[id].pointers)
    ensures (exists run :: AccessesWrong(pr, run, id)) || (exists run, other :: AccessesDiffer(pr, run, other, id))
  {
    hide SameType, Available, Settled, PointersOn, TransferPointers, Admits, Refutes;
    var a :| a in pr.effects[id - 1].accesses && !AccessFits(pr.types, ss[id].pointers, a);
    var path :| PathTo(pr, path, id);
    PathArrives(pr, cont, path, id);
    var run, actual := RunAlong(path, cont), PointersOn(pr, path);
    if AccessFits(pr.types, actual, a) {
      var d := FittingIsLost(pr, ss, reach, id, path, a);
      var path' :| PathTo(pr, path', id) && HoldsNo(pr, path', a.base, d);
      PathArrives(pr, cont, path', id);
      var other := RunAlong(path', cont);
      if AccessFits(pr.types, PointersOn(pr, path'), a) {
        OthersDiffer(pr.types, actual[a.base], PointersOn(pr, path')[a.base], a.annotation, d);
        assert AccessesDiffer(pr, run, other, id);
      } else {
        assert AccessesWrong(pr, other, id);
      }
    } else {
      assert AccessesWrong(pr, run, id);
    }
  }

  lemma OthersDiffer(types: seq<Type>, p: Provenance, q: Provenance, annotation: nat, d: nat)
    requires p == Pointer(d) && Admits(types, q, annotation) && Refutes(types, q, d)
    ensures TypesDiffer(types, p, q)
  {
  }

  /** What fits on a path and not in the fixpoint is of a type that some path does not hold. */
  lemma FittingIsLost(pr: Problem, ss: seq<State>, reach: set<Id>, id: Id, path: seq<Id>, a: Access) returns (d: nat)
    requires Solution(pr, ss, reach) && Declared(pr) && PathTo(pr, path, id) && id in reach && ValidId(pr.stmts, id)
    requires Exact(pr, ss, reach, MissingOnSomePath(pr), AllFacts(pr))
    requires AccessFits(pr.types, PointersOn(pr, path), a) && !AccessFits(pr.types, ss[id].pointers, a)
    ensures PointersOn(pr, path)[a.base] == Pointer(d)
    ensures (id, a.base, d) in MissingOnSomePath(pr).types
  {
    hide SameType, Available, Settled, PointersOn, TransferPointers, Admits;
    PathIsReached(pr, reach, path);
    PointersHold(pr, ss, reach, path);
    NoUnknownPointers(pr, path);
    var held, actual := ss[id].pointers[a.base], PointersOn(pr, path)[a.base];
    AdmittedIsPointer(pr.types, actual, a.annotation);
    d := actual.ptype;
    assert Weaker(pr.types, held, actual);
    if held.Pointer? {
      SameTypeSym(pr.types, held.ptype, d, 0);
      SameAdmits(pr.types, actual, held, a.annotation);
    }
    assert Refutes(pr.types, held, d);
  }

  lemma RunPointers(pr: Problem, cont: Continuations, ss: seq<State>, reach: set<Id>, run: seq<Config>, id: Id)
    requires Solution(pr, ss, reach) && Declared(pr) && Faithful(pr.stmts, pr.body, pr.edges, cont) && Arrives(pr, run, id)
    ensures id in reach && id < |ss|
    ensures WeakerAll(pr.types, ss[id].pointers, PointersOn(pr, Ids(run)))
    ensures forall i :: 0 <= i < FAMILIES ==> PointersOn(pr, Ids(run))[i] != Top
  {
    hide SameType, PointersOn, Settled;
    RunIsReached(pr, cont, reach, run);
    PointersHold(pr, ss, reach, Ids(run));
    NoUnknownPointers(pr, Ids(run));
  }

  /** What two executions hold differently the fixpoint does not hold. */
  lemma DifferentIsLost(types: seq<Type>, held: Provenance, p: Provenance, q: Provenance)
    requires Weaker(types, held, p) && Weaker(types, held, q) && p != Top && q != Top && TypesDiffer(types, p, q)
    ensures held == NoPointer
  {
    hide SameType;
    if held.Pointer? {
      SameTypeSym(types, held.ptype, p.ptype, 0);
      SameTypeTrans(types, p.ptype, held.ptype, q.ptype, 0);
    }
  }

  /** The accesses of a statement pass exactly when on every execution they go through fitting
      pointers, and no two executions hold pointers of different types there. */
  lemma AccessesPassExactly(pr: Problem, cont: Continuations, ss: seq<State>, reach: set<Id>, id: Id)
    requires Solution(pr, ss, reach) && Declared(pr) && Faithful(pr.stmts, pr.body, pr.edges, cont)
    requires Exact(pr, ss, reach, MissingOnSomePath(pr), AllFacts(pr)) && id in Arrivable(pr)
    requires id in reach && ValidId(pr.stmts, id)
    ensures AccessesFit(pr, id, ss[id].pointers) <==>
            (forall run :: !AccessesWrong(pr, run, id)) && (forall run, other :: !AccessesDiffer(pr, run, other, id))
  {
    hide SameType, Available, Settled, PointersOn, TransferPointers, Admits, Refutes, Weaker;
    if AccessesFit(pr, id, ss[id].pointers) {
      forall run
        ensures !AccessesWrong(pr, run, id)
      {
        if Arrives(pr, run, id) {
          RunPointers(pr, cont, ss, reach, run, id);
          KeptAccessesAreReal(pr, id, ss[id].pointers, PointersOn(pr, Ids(run)));
        }
      }
      forall run, other
        ensures !AccessesDiffer(pr, run, other, id)
      {
        if AccessesDiffer(pr, run, other, id) {
          var a :| a in pr.effects[id - 1].accesses && a.base < FAMILIES &&
                   TypesDiffer(pr.types, PointersOn(pr, Ids(run))[a.base], PointersOn(pr, Ids(other))[a.base]);
          RunPointers(pr, cont, ss, reach, run, id);
          RunPointers(pr, cont, ss, reach, other, id);
          DifferentIsLost(pr.types, ss[id].pointers[a.base], PointersOn(pr, Ids(run))[a.base], PointersOn(pr, Ids(other))[a.base]);
          assert AccessFits(pr.types, ss[id].pointers, a);
          AdmittedIsPointer(pr.types, ss[id].pointers[a.base], a.annotation);
        }
      }
    } else {
      RefusedAccess(pr, cont, ss, reach, id);
    }
  }

  /** For example a pointer to a byte on one path and to an array of bytes on another: either admits
      an access to a byte, and merged they are no pointer. */
  lemma FittingPointersMerge()
    ensures var types := [Type(1, 0, 8, 0, 0), Type(ARRAY, 0, 0, 4, 1), Type(11, 1, 64, 0, 1), Type(11, 1, 64, 0, 2)];
            && Admits(types, Pointer(3), 3) && Admits(types, Pointer(4), 3)
            && MeetPointer(types, Pointer(3), Pointer(4)) == NoPointer
  {
    var types := [Type(1, 0, 8, 0, 0), Type(ARRAY, 0, 0, 4, 1), Type(11, 1, 64, 0, 1), Type(11, 1, 64, 0, 2)];
    assert !SameType(types, 1, 2, 1);
    assert !SameType(types, 3, 4, 0);
    assert SameType(types, 1, 1, 0);
  }

  /** A declared pointer output that the fixpoint has lost is handed back wrong by an execution. */
  lemma LostPointerIsWrong(pr: Problem, cont: Continuations, ss: seq<State>, reach: set<Id>, id: Id)
    requires Solution(pr, ss, reach) && Declared(pr) && Faithful(pr.stmts, pr.body, pr.edges, cont)
    requires Exact(pr, ss, reach, MissingOnSomePath(pr), AllFacts(pr)) && id in Arrivable(pr)
    requires id in reach && ValidId(pr.stmts, id) && pr.stmts[id - 1].kind == Return && !KeepsPointers(pr, ss[id].pointers)
    ensures exists run :: HandsBackWrong(pr, run, id)
  {
    hide SameType, Available, Settled, PointersOn, TransferPointers;
    var v :| v in pr.Self().params && IsOutput(v) && v.pointer.Pointer? && InFamily(v.reg) &&
             !(ss[id].pointers[v.reg.family].Pointer? && SameType(pr.types, v.pointer.ptype, ss[id].pointers[v.reg.family].ptype, 0));
    var r, d := v.reg.family, v.pointer.ptype;
    KnownAtReached(pr, ss, reach, id, r);
    assert Refutes(pr.types, ss[id].pointers[r], d);
    assert (id, r, d) in MissingOnSomePath(pr).types;
    var path :| PathTo(pr, path, id) && HoldsNo(pr, path, r, d);
    PathReturns(pr, cont, path, id);
    assert HandsBackWrong(pr, RunAlong(path, cont), id);
  }

  /** The fixpoint knows something of every register wherever control arrives. */
  lemma KnownAtReached(pr: Problem, ss: seq<State>, reach: set<Id>, id: Id, r: nat)
    requires Solution(pr, ss, reach) && Declared(pr) && id in reach && id in Arrivable(pr) && id < |ss| && r < FAMILIES
    ensures ss[id].pointers[r] != Top
  {
    var path :| PathTo(pr, path, id);
    PathIsReached(pr, reach, path);
    PointersHold(pr, ss, reach, path);
    NoUnknownPointers(pr, path);
  }

  lemma {:induction false} PathInBody(pr: Problem, cont: Continuations, path: seq<Id>)
    requires pr.Valid() && Faithful(pr.stmts, pr.body, pr.edges, cont) && Path(pr.edges, pr.body, path)
    requires forall k :: 0 <= k < |path| ==> path[k] != 0
    ensures forall k :: 0 <= k < |path| ==> path[k] in cont
  {
    if |path| > 1 {
      var n := |path| - 1;
      PathInBody(pr, cont, path[..n]);
      assert path[..n][n - 1] == path[n - 1];
      assert FaithfulAt(pr.stmts, pr.body, pr.edges, cont, path[n - 1]);
    }
  }

  lemma FallOffIsExit(pr: Problem, cont: Continuations, id: Id)
    requires pr.Valid() && Faithful(pr.stmts, pr.body, pr.edges, cont)
    requires id in Arrivable(pr) && id < |pr.edges| && 0 in pr.edges[id]
    ensures exists run :: Execution(pr.stmts, pr.body, run) && run[|run| - 1] == Exit
  {
    var path :| PathTo(pr, path, id);
    PathInBody(pr, cont, path);
    PathIsExecution(pr.stmts, pr.body, pr.edges, cont, path);
    var d := EdgeIsStep(pr.stmts, pr.body, pr.edges, cont, id, 0);
    var run := RunAlong(path, cont) + [d];
    assert run[|run| - 2] == At(id, cont[id]);
    assert Execution(pr.stmts, pr.body, run);
    assert run[|run| - 1] == Exit;
  }

  lemma ArrivableClosed(pr: Problem, cont: Continuations)
    requires pr.Valid() && Faithful(pr.stmts, pr.body, pr.edges, cont)
    ensures pr.body in Arrivable(pr)
    ensures forall id, e :: id in Arrivable(pr) && id < |pr.edges| && e in pr.edges[id] && e != 0 ==> e in Arrivable(pr)
  {
    assert PathTo(pr, [pr.body], pr.body);
    forall id, e | id in Arrivable(pr) && id < |pr.edges| && e in pr.edges[id] && e != 0
      ensures e in Arrivable(pr)
    {
      var path :| PathTo(pr, path, id);
      PathInBody(pr, cont, path);
      assert FaithfulAt(pr.stmts, pr.body, pr.edges, cont, id);
      LongerPath(pr, path, id, e);
    }
  }

  predicate ReservedOutputs(params: seq<Variable>) {
    exists v :: v in params && IsOutput(v) &&
                (v.reg.family <= 0 || v.reg.family >= 16 || v.reg.family == 4 || v.reg.family == 5)
  }

  lemma EdgesInBounds(pr: Problem, cont: Continuations)
    requires pr.Valid() && Faithful(pr.stmts, pr.body, pr.edges, cont)
    ensures forall id, e :: 0 <= id < |pr.edges| && e in pr.edges[id] ==> e < |pr.edges|
  {
    forall id, e | 0 <= id < |pr.edges| && e in pr.edges[id]
      ensures e < |pr.edges|
    {
      if id in cont {
        assert FaithfulAt(pr.stmts, pr.body, pr.edges, cont, id);
      }
    }
  }

  lemma EntryMissing(pr: Problem)
    requires pr.Valid()
    ensures Explained(pr, pr.body, Entry(pr), MissingOnSomePath(pr), AllFacts(pr))
  {
    hide SameType, Available;
    forall f | f in AllFacts(pr) && f !in Entry(pr).facts
      ensures (pr.body, f) in MissingOnSomePath(pr).facts
    {
      EntryIsMissing(pr, f);
    }
    assert PathTo(pr, [pr.body], pr.body);
    forall r, d: nat | 0 <= r < FAMILIES && Refutes(pr.types, Entry(pr).pointers[r], d)
      ensures (pr.body, r, d) in MissingOnSomePath(pr).types
    {
      assert HoldsNo(pr, [pr.body], r, d);
    }
  }

  /** A rejection by the final check points at a lacking execution. */
  lemma RejectionIsRefuted(pr: Problem, cont: Continuations, ss: seq<State>, reach: set<Id>, outcome: Outcome)
    requires Solution(pr, ss, reach) && Declared(pr) && Faithful(pr.stmts, pr.body, pr.edges, cont)
    requires Exact(pr, ss, reach, MissingOnSomePath(pr), AllFacts(pr)) && InRange(pr)
    requires Culprit(outcome) in reach && ValidId(pr.stmts, Culprit(outcome)) && Culprit(outcome) in Arrivable(pr)
    requires Justified(pr, outcome, ss[Culprit(outcome)])
    ensures Refuted(pr, outcome)
  {
    hide Available, PointersOn, HandsBackWrong, AccessesWrong, AccessesDiffer, Lacks, Faithful, Sized, Settled, Reached, Leq, Exact, Execution,
         FlagsNeeded, LocalsNeeded, OutputsNeeded, ReturnNeeds, AccessesFit, KeepsPointers, AllFacts, MissingOnSomePath;
    var id := Culprit(outcome);
    assert Needs(pr, id) <= AllFacts(pr);
    match outcome
    case FlagsUndefined(_) => LostIsLacking(pr, cont, ss, reach, id, FlagsNeeded(pr, id));
    case LocalUnbound(_) => LostIsLacking(pr, cont, ss, reach, id, LocalsNeeded(pr, id));
    case OutputUnassigned(_) => LostIsLacking(pr, cont, ss, reach, id, OutputsNeeded(pr, id));
    case OutputNotReturned(_) => LostIsLacking(pr, cont, ss, reach, id, ReturnNeeds(pr, id));
    case AccessRefused(_) => RefusedAccess(pr, cont, ss, reach, id);
    case ProvenanceLost(_) => LostPointerIsWrong(pr, cont, ss, reach, id);
    case NeverReturns(_) =>
      var path :| PathTo(pr, path, id);
      PathReturns(pr, cont, path, id);
    case _ =>
  }

  /** What the fixpoint phase hands to the final check. */
  ghost predicate Analysed(pr: Problem, ss: seq<State>, reach: set<Id>) {
    && Solution(pr, ss, reach)
    && Exact(pr, ss, reach, MissingOnSomePath(pr), AllFacts(pr))
    && forall id :: id in reach ==> id in Arrivable(pr)
  }

  /** The analyses on a built graph. */
  method Analyse(pr: Problem, ghost cont: Continuations) returns (outcome: Outcome)
    requires pr.Valid() && Declared(pr) && InRange(pr) && Faithful(pr.stmts, pr.body, pr.edges, cont)
    ensures outcome == Accept ==> Safe(pr) && AllResolved(pr)
    ensures Refuted(pr, outcome) && outcome != ReservedOutput && outcome != BadGraph
  {
    hide InRange;
    EdgesInBounds(pr, cont);
    var analysis := new Analysis(pr);
    ghost var reach;
    outcome, reach := RunFixpoint(analysis, cont);
    if outcome != Accept {
      return;
    }
    ghost var ss := analysis.states[..];
    outcome := analysis.Check(reach);
    if outcome == Accept {
      PassedIsSafe(pr, cont, ss, reach);
    } else {
      RejectionIsRefuted(pr, cont, ss, reach, outcome);
    }
  }

  method RunFixpoint(analysis: Analysis, ghost cont: Continuations) returns (outcome: Outcome, ghost reach: set<Id>)
    requires analysis.Valid() && analysis.work.pending == []
    requires forall id :: 0 <= id < |analysis.pr.edges| ==> !analysis.reachable[id]
    requires Faithful(analysis.pr.stmts, analysis.pr.body, analysis.pr.edges, cont)
    modifies analysis.states, analysis.reachable, analysis.work, analysis.work.queue, analysis.work.queued
    ensures outcome == Accept ==> analysis.Valid() && Analysed(analysis.pr, analysis.states[..], reach)
    ensures outcome == Accept ==> AllResolved(analysis.pr)
    ensures outcome == Accept ==> forall id :: 0 <= id < |analysis.pr.edges| ==> (analysis.reachable[id] <==> id in reach)
    ensures Refuted(analysis.pr, outcome)
    ensures outcome == Accept || outcome.FallsOff? || outcome.Unresolved? || outcome.Denied?
  {
    ghost var pr := analysis.pr;
    ArrivableClosed(pr, cont);
    outcome, reach := analysis.MarkReachable(Arrivable(pr));
    if outcome != Accept {
      FallOffIsExit(pr, cont, outcome.at);
      return;
    }
    ghost var missing := MissingOnSomePath(pr);
    MissingIsClosed(pr, reach);
    EntryMissing(pr);
    analysis.Start(reach, missing);
    outcome := analysis.Solve(reach, missing);
    if outcome == Accept {
      ReachedIsArrivable(pr, reach);
    }
  }

  lemma WithEdges(p: Problem, edges: seq<seq<Id>>)
    requires Declared(p) && p.(edges := edges).Valid()
    requires forall edges :: p.(edges := edges).Valid() ==> InRange(p.(edges := edges))
    ensures Declared(p.(edges := edges)) && InRange(p.(edges := edges))
  {
  }

  /** The whole verifier: accepted functions are safe in every execution, and a rejection for
      flags, locals, outputs, lost pointers, a forbidden return or falling off the end names a real
      offending execution; one for an access names one, or two that disagree about its base. */
  method VerifyGraph(p: Problem) returns (outcome: Outcome, ghost pr: Problem)
    requires |p.effects| == |p.stmts| && 1 <= p.self <= |p.functions|
    requires Declared(p)
    requires forall edges :: p.(edges := edges).Valid() ==> InRange(p.(edges := edges))
    ensures outcome != BadGraph && outcome != ReservedOutput ==>
      && pr.Valid() && pr == p.(edges := pr.edges)
      && (outcome == Accept ==> Safe(pr) && AllResolved(pr))
      && Refuted(pr, outcome)
    ensures outcome == ReservedOutput <==> ReservedOutputs(p.functions[p.self - 1].params)
  {
    hide Refuted, Safe, AllResolved, InRange, Declared, Execution, ReservedOutputs;
    pr := p;
    if ReservedOutputs(p.functions[p.self - 1].params) {
      return ReservedOutput, pr;
    }
    PlacesClosed(p.stmts, p.body);
    var builder := new Builder(p.stmts, Places(p.stmts, p.body));
    var built := builder.Build(p.body);
    if built != Ok {
      return BadGraph, pr;
    }
    var problem := p.(edges := Edges(builder.nodes[..]));
    WithEdges(p, Edges(builder.nodes[..]));
    pr := problem;
    outcome := Analyse(problem, builder.cont);
  }
}
