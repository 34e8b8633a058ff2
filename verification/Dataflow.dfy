/** The must-analysis of the conformance verifier: reachability, the worklist fixpoint over the
    lattice of facts and pointer types, and the final check of every reachable statement. */
module Dataflow {
  import opened Cfg
  import opened Facts
  import opened Worklists

  // ----- The lattice -----

  datatype State = State(facts: set<Fact>, pointers: Pointers, writable: set<nat>)

  function Rank(p: Provenance): nat {
    match p case Top => 2 case Pointer(_) => 1 case NoPointer => 0
  }

  function RankSum(ps: Pointers): nat {
    if ps == [] then 0 else Rank(ps[0]) + RankSum(ps[1..])
  }

  function Height(s: State): nat {
    |s.facts| + RankSum(s.pointers) + |s.writable|
  }

  function HeightSum(ss: seq<State>): nat {
    if ss == [] then 0 else Height(ss[0]) + HeightSum(ss[1..])
  }

  /** The merge of one register's pointer type into a node. */
  function MeetPointer(types: seq<Type>, to: Provenance, from: Provenance): Provenance {
    if to == Top then from
    else if from == Top then to
    else if to == from || (to.Pointer? && from.Pointer? && SameType(types, to.ptype, from.ptype, 0)) then to
    else NoPointer
  }

  function MeetPointers(types: seq<Type>, to: Pointers, from: Pointers): (r: Pointers)
    requires |to| == |from|
    ensures |r| == |to| && forall i :: 0 <= i < |to| ==> r[i] == MeetPointer(types, to[i], from[i])
  {
    seq(|to|, i requires 0 <= i < |to| => MeetPointer(types, to[i], from[i]))
  }

  function Meet(types: seq<Type>, to: State, from: State): State
    requires |to.pointers| == |from.pointers|
  {
    State(to.facts * from.facts, MeetPointers(types, to.pointers, from.pointers), to.writable * from.writable)
  }

  predicate Leq(types: seq<Type>, a: State, b: State) {
    a.facts <= b.facts && WeakerAll(types, a.pointers, b.pointers)
  }

  lemma LeqTrans(types: seq<Type>, a: State, b: State, c: State)
    requires Leq(types, a, b) && Leq(types, b, c)
    ensures Leq(types, a, c)
  {
    forall i | 0 <= i < |a.pointers|
      ensures Weaker(types, a.pointers[i], c.pointers[i])
    {
      WeakerTrans(types, a.pointers[i], b.pointers[i], c.pointers[i]);
    }
  }

  lemma MeetIsBelow(types: seq<Type>, to: State, from: State)
    requires |to.pointers| == |from.pointers|
    ensures Leq(types, Meet(types, to, from), to) && Leq(types, Meet(types, to, from), from)
  {
  }

  lemma {:induction false} RankDrops(types: seq<Type>, to: Pointers, from: Pointers)
    requires |to| == |from|
    ensures var m := MeetPointers(types, to, from);
            RankSum(m) <= RankSum(to) && (m != to ==> RankSum(m) < RankSum(to))
  {
    if to != [] {
      RankDrops(types, to[1..], from[1..]);
      var m := MeetPointers(types, to, from);
      assert m[1..] == MeetPointers(types, to[1..], from[1..]);
      if m[0] == to[0] && m[1..] == to[1..] {
        assert m == [m[0]] + m[1..] == to;
      }
    }
  }

  lemma ProperSubset<T>(a: set<T>, b: set<T>)
    ensures |a * b| <= |a| && (a * b != a ==> |a * b| < |a|)
  {
    var rest := a - a * b;
    assert a == a * b + rest;
    if a * b != a {
      assert rest != {};
    }
  }

  lemma MeetDrops(types: seq<Type>, to: State, from: State)
    requires |to.pointers| == |from.pointers|
    ensures Meet(types, to, from) != to ==> Height(Meet(types, to, from)) < Height(to)
  {
    ProperSubset(to.facts, from.facts);
    ProperSubset(to.writable, from.writable);
    RankDrops(types, to.pointers, from.pointers);
  }

  lemma {:induction false} HeightUpdate(ss: seq<State>, i: nat, s: State)
    requires i < |ss|
    ensures HeightSum(ss[i := s]) == HeightSum(ss) - Height(ss[i]) + Height(s)
  {
    if i == 0 {
      assert ss[i := s][1..] == ss[1..];
    } else {
      assert ss[i := s][1..] == ss[1..][i - 1 := s];
      HeightUpdate(ss[1..], i - 1, s);
    }
  }

  // ----- Fixpoints -----

  function Transfer(pr: Problem, id: Id, s: State, writable: set<nat>): State
    requires pr.Valid() && ValidId(pr.stmts, id) && |s.pointers| == FAMILIES
  {
    State((s.facts - Kill(pr, id)) + Gen(pr, id), TransferPointers(pr, id, s.pointers), writable)
  }

  ghost predicate Sized(pr: Problem, ss: seq<State>) {
    |ss| == |pr.edges| && forall id :: 0 <= id < |ss| ==> |ss[id].pointers| == FAMILIES
  }

  /** The facts of id have been pushed along its edges. */
  ghost predicate Pushed(pr: Problem, ss: seq<State>, id: Id)
    requires pr.Valid() && ValidId(pr.stmts, id) && Sized(pr, ss)
  {
    forall e :: e in pr.edges[id] && e < |ss| ==> Leq(pr.types, ss[e], Transfer(pr, id, ss[id], {}))
  }

  ghost predicate Settled(pr: Problem, ss: seq<State>, reach: set<Id>, pending: seq<nat>)
    requires pr.Valid() && Sized(pr, ss)
  {
    forall id :: id in reach && id !in pending && ValidId(pr.stmts, id) ==> Pushed(pr, ss, id)
  }

  /** What is absent at a statement on some path: facts, and pointer types d of registers r. */
  datatype Absence = Absence(facts: iset<(Id, Fact)>, types: iset<(Id, nat, nat)>)

  /** After id register r is no pointer of type d on some path. */
  ghost predicate LosesType(pr: Problem, id: Id, r: nat, d: nat, types: iset<(Id, nat, nat)>)
    requires pr.Valid() && ValidId(pr.stmts, id)
  {
    match SourceOf(pr, id, r)
    case Fixed(v) => Refutes(pr.types, v, d)
    case FromRegister(k) => k >= FAMILIES || (id, k, d) in types
  }

  ghost predicate TypesClosed(pr: Problem, reach: set<Id>, types: iset<(Id, nat, nat)>)
    requires pr.Valid()
  {
    forall id, e, r: nat, d: nat :: id in reach && ValidId(pr.stmts, id) && e in pr.edges[id] ==>
      r < FAMILIES && LosesType(pr, id, r, d, types) ==> (e, r, d) in types
  }

  /** A fact missing at id, or killed there, and not generated there is missing at every successor;
      so is a pointer type. */
  ghost predicate AbsenceClosed(pr: Problem, reach: set<Id>, missing: Absence)
    requires pr.Valid()
  {
    && (forall id, e, f :: id in reach && ValidId(pr.stmts, id) && e in pr.edges[id] && f !in Gen(pr, id) ==>
          f in Kill(pr, id) || (id, f) in missing.facts ==> (e, f) in missing.facts)
    && TypesClosed(pr, reach, missing.types)
  }

  /** What the state before id lacks is absent on some path to it. */
  ghost predicate Explained(pr: Problem, id: Id, was: State, missing: Absence, all: set<Fact>) {
    && (forall f :: f in all && f !in was.facts ==> (id, f) in missing.facts)
    && PointersExplained(pr, id, was.pointers, missing.types)
  }

  ghost predicate PointersExplained(pr: Problem, id: Id, ps: Pointers, types: iset<(Id, nat, nat)>) {
    |ps| == FAMILIES && forall r, d: nat :: 0 <= r < FAMILIES && Refutes(pr.types, ps[r], d) ==> (id, r, d) in types
  }

  /** Whatever a node has lost is absent on some path to it. */
  ghost predicate Exact(pr: Problem, ss: seq<State>, reach: set<Id>, missing: Absence, all: set<Fact>)
    requires Sized(pr, ss)
  {
    forall id :: id in reach && id < |ss| ==> Explained(pr, id, ss[id], missing, all)
  }

  lemma MeetRefutes(types: seq<Type>, to: Provenance, from: Provenance, d: nat)
    requires Refutes(types, MeetPointer(types, to, from), d)
    ensures Refutes(types, to, d) || Refutes(types, from, d)
  {
    if to.Pointer? && from.Pointer? && SameType(types, d, to.ptype, 0) && SameType(types, d, from.ptype, 0) {
      SameTypeSym(types, d, to.ptype, 0);
      SameTypeTrans(types, to.ptype, d, from.ptype, 0);
    }
  }

  /** What a statement makes of explained pointers is lost after it. */
  lemma TransferExplained(pr: Problem, id: Id, ps: Pointers, types: iset<(Id, nat, nat)>, r: nat, d: nat)
    requires pr.Valid() && ValidId(pr.stmts, id) && PointersExplained(pr, id, ps, types) && r < FAMILIES
    requires Refutes(pr.types, TransferPointers(pr, id, ps)[r], d)
    ensures LosesType(pr, id, r, d, types)
  {
    TransferFromSource(pr, id, r, ps);
  }

  lemma MeetExplained(pr: Problem, id: Id, to: Pointers, from: Pointers, types: iset<(Id, nat, nat)>)
    requires PointersExplained(pr, id, to, types) && PointersExplained(pr, id, from, types)
    ensures PointersExplained(pr, id, MeetPointers(pr.types, to, from), types)
  {
    hide SameType;
    forall r, d: nat | 0 <= r < FAMILIES && Refutes(pr.types, MeetPointers(pr.types, to, from)[r], d)
      ensures (id, r, d) in types
    {
      MeetRefutes(pr.types, to[r], from[r], d);
    }
  }

  /** Along an edge what id hands on is explained at the target. */
  lemma EdgeExplained(pr: Problem, reach: set<Id>, id: Id, target: Id, was: State, out: State, missing: Absence, all: set<Fact>)
    requires pr.Valid() && AbsenceClosed(pr, reach, missing) && id in reach && ValidId(pr.stmts, id) && target in pr.edges[id]
    requires |was.pointers| == FAMILIES && Explained(pr, id, was, missing, all) && out == Transfer(pr, id, was, out.writable)
    ensures Explained(pr, target, out, missing, all)
  {
    hide Refutes, LosesType, TransferPointers;
    forall r, d: nat | 0 <= r < FAMILIES && Refutes(pr.types, out.pointers[r], d)
      ensures (target, r, d) in missing.types
    {
      TransferExplained(pr, id, was.pointers, missing.types, r, d);
    }
  }

  ghost predicate Reached(pr: Problem, reach: set<Id>)
    requires pr.Valid()
  {
    ReachableSet(pr.edges, pr.body, reach)
  }

  /** Merging into one node keeps every other node settled. */
  lemma PushedStays(pr: Problem, ss: seq<State>, id: Id, target: Id, out: State)
    requires pr.Valid() && Sized(pr, ss) && ValidId(pr.stmts, id) && Pushed(pr, ss, id)
    requires target < |ss| && target != id && |out.pointers| == FAMILIES
    ensures Pushed(pr, ss[target := Meet(pr.types, ss[target], out)], id)
  {
    var next := ss[target := Meet(pr.types, ss[target], out)];
    MeetIsBelow(pr.types, ss[target], out);
    if target in pr.edges[id] {
      LeqTrans(pr.types, next[target], ss[target], Transfer(pr, id, ss[id], {}));
    }
  }

  lemma SettledStays(pr: Problem, ss: seq<State>, reach: set<Id>, pending: seq<nat>, target: Id, out: State)
    requires pr.Valid() && Sized(pr, ss) && Settled(pr, ss, reach, pending)
    requires target < |ss| && |out.pointers| == FAMILIES && target in pending
    ensures Settled(pr, ss[target := Meet(pr.types, ss[target], out)], reach, pending)
  {
    forall id | id in reach && id !in pending && ValidId(pr.stmts, id)
      ensures Pushed(pr, ss[target := Meet(pr.types, ss[target], out)], id)
    {
      PushedStays(pr, ss, id, target, out);
    }
  }

  /** Everything the worklist loop keeps true, as a property of the values it works on. */
  ghost predicate Solving(pr: Problem, ss: seq<State>, reach: set<Id>, pending: seq<nat>,
                          entry: State, missing: Absence, all: set<Fact>)
  {
    && pr.Valid() && Sized(pr, ss) && Settled(pr, ss, reach, pending)
    && Leq(pr.types, ss[pr.body], entry)
    && Exact(pr, ss, reach, missing, all)
    && forall i :: 0 <= i < |pending| ==> pending[i] in reach
  }

  lemma SolvingStays(pr: Problem, ss: seq<State>, reach: set<Id>, target: Id, out: State, entry: State,
                     missing: Absence, all: set<Fact>)
    requires pr.Valid() && Sized(pr, ss) && Leq(pr.types, ss[pr.body], entry)
    requires Exact(pr, ss, reach, missing, all) && target < |ss| && |out.pointers| == FAMILIES
    requires Explained(pr, target, out, missing, all)
    ensures var next := ss[target := Meet(pr.types, ss[target], out)];
            && Sized(pr, next) && Leq(pr.types, next[pr.body], entry)
            && Exact(pr, next, reach, missing, all)
  {
    var next := ss[target := Meet(pr.types, ss[target], out)];
    MeetIsBelow(pr.types, ss[target], out);
    if target == pr.body {
      LeqTrans(pr.types, next[target], ss[target], entry);
    }
    if target in reach {
      MeetExplained(pr, target, ss[target].pointers, out.pointers, missing.types);
    }
  }

  lemma SettledMore(pr: Problem, ss: seq<State>, reach: set<Id>, pending: seq<nat>, more: seq<nat>)
    requires pr.Valid() && Sized(pr, ss) && Settled(pr, ss, reach, pending)
    requires forall x :: x in pending ==> x in more
    ensures Settled(pr, ss, reach, more)
  {
  }

  /** One merge during the visit of id: the other nodes stay settled, and so do the edges of id
      already done. */
  lemma MergeStays(pr: Problem, ss: seq<State>, reach: set<Id>, pending: seq<nat>, after: seq<nat>, id: Id,
                   target: Id, out: State)
    requires pr.Valid() && Sized(pr, ss) && Settled(pr, ss, reach, [id] + pending)
    requires target < |ss| && |out.pointers| == FAMILIES
    requires var merged := Meet(pr.types, ss[target], out);
             after == if merged == ss[target] || target in pending then pending else pending + [target]
    ensures var next := ss[target := Meet(pr.types, ss[target], out)];
            Sized(pr, next) && Settled(pr, next, reach, [id] + after)
  {
    var merged := Meet(pr.types, ss[target], out);
    SettledMore(pr, ss, reach, [id] + pending, [id] + after);
    if merged == ss[target] {
      assert ss[target := merged] == ss;
    } else {
      SettledStays(pr, ss, reach, [id] + after, target, out);
    }
  }

  /** The state of the worklist loop in the middle of visiting id, with the edges in done handled. */
  ghost predicate Visiting(pr: Problem, ss: seq<State>, reach: set<Id>, pending: seq<nat>, id: Id, was: State,
                           out: State, done: seq<Id>, entry: State, missing: Absence, all: set<Fact>)
  {
    && pr.Valid() && Sized(pr, ss) && Settled(pr, ss, reach, [id] + pending)
    && Leq(pr.types, ss[pr.body], entry) && Exact(pr, ss, reach, missing, all)
    && (id in pending || (id < |ss| && ss[id] == was))
    && (forall e :: e in done ==> e < |ss| && Leq(pr.types, ss[e], out))
    && forall i :: 0 <= i < |pending| ==> pending[i] in reach
  }

  lemma VisitEdge(pr: Problem, ss: seq<State>, reach: set<Id>, pending: seq<nat>, after: seq<nat>, id: Id,
                  was: State, out: State, done: seq<Id>, target: Id, entry: State, missing: Absence, all: set<Fact>)
    requires Visiting(pr, ss, reach, pending, id, was, out, done, entry, missing, all)
    requires id in reach && Reached(pr, reach) && AbsenceClosed(pr, reach, missing) && target in pr.edges[id]
    requires |was.pointers| == FAMILIES && out == Transfer(pr, id, was, out.writable) && target < |ss|
    requires Explained(pr, id, was, missing, all)
    requires var merged := Meet(pr.types, ss[target], out);
             after == if merged == ss[target] || target in pending then pending else pending + [target]
    ensures var next := ss[target := Meet(pr.types, ss[target], out)];
            Visiting(pr, next, reach, after, id, was, out, done + [target], entry, missing, all)
  {
    var next := ss[target := Meet(pr.types, ss[target], out)];
    EdgeExplained(pr, reach, id, target, was, out, missing, all);
    SolvingStays(pr, ss, reach, target, out, entry, missing, all);
    MergeStays(pr, ss, reach, pending, after, id, target, out);
    MeetIsBelow(pr.types, ss[target], out);
    forall e | e in done + [target]
      ensures e < |next| && Leq(pr.types, next[e], out)
    {
      if e == target && e in done {
        LeqTrans(pr.types, next[e], ss[e], out);
      }
    }
  }

  lemma VisitStart(pr: Problem, ss: seq<State>, reach: set<Id>, pending: seq<nat>, id: Id,
                   out: State, entry: State, missing: Absence, all: set<Fact>)
    requires Solving(pr, ss, reach, [id] + pending, entry, missing, all)
    requires id in reach && id < |ss|
    ensures Visiting(pr, ss, reach, pending, id, ss[id], out, [], entry, missing, all)
    ensures Explained(pr, id, ss[id], missing, all)
  {
    assert forall i :: 0 <= i < |pending| ==> pending[i] == ([id] + pending)[i + 1];
  }

  lemma VisitDone(pr: Problem, ss: seq<State>, reach: set<Id>, pending: seq<nat>, id: Id, was: State, out: State,
                  entry: State, missing: Absence, all: set<Fact>)
    requires pr.Valid() && ValidId(pr.stmts, id) && |was.pointers| == FAMILIES
    requires Visiting(pr, ss, reach, pending, id, was, out, pr.edges[id], entry, missing, all)
    requires out == Transfer(pr, id, was, out.writable)
    ensures Solving(pr, ss, reach, pending, entry, missing, all)
  {
    forall j | j in reach && j !in pending && ValidId(pr.stmts, j)
      ensures Pushed(pr, ss, j)
    {
      assert j == id || j !in [id] + pending;
    }
  }

  /** Every fact there is a bit for. */
  function AllFacts(pr: Problem): set<Fact> {
    AllFlags() +
    (set v: nat {:trigger Local(v)} | v <= |pr.variables| :: Local(v)) +
    (set r: nat, b: nat {:trigger Output(r, b)} | r < FAMILIES && b < 64 :: Output(r, b))
  }

  function Entry(pr: Problem): State
    requires pr.Valid()
  {
    State(EntryFacts(pr, AllFacts(pr)), EntryPointers(pr), {})
  }

  function Unknown(pr: Problem): State {
    State(AllFacts(pr), seq(FAMILIES, _ => Top), set r: nat | r in Families())
  }

  function Families(): set<nat> {
    set r: nat {:trigger r < FAMILIES} | r < FAMILIES
  }

  /** The declared pointer outputs still hold a pointer of their type. */
  predicate KeepsPointers(pr: Problem, ps: Pointers)
    requires pr.Valid() && |ps| == FAMILIES
  {
    forall v :: v in pr.Self().params && IsOutput(v) && v.pointer.Pointer? && InFamily(v.reg) ==>
      var held := ps[v.reg.family];
      held.Pointer? && SameType(pr.types, v.pointer.ptype, held.ptype, 0)
  }

  ghost predicate SuccessorsMarked(pr: Problem, reach: set<Id>, id: Id) {
    forall e :: id < |pr.edges| && e in pr.edges[id] ==> e != 0 && e in reach
  }

  /** The reachability sweep: unqueued marked nodes have all their successors marked. */
  ghost predicate Marking(pr: Problem, reach: set<Id>, pending: seq<nat>, busy: set<Id>, arrivable: iset<Id>)
    requires pr.Valid()
  {
    && pr.body in reach
    && (forall id :: id in reach ==> id in arrivable && 0 < id < |pr.edges|)
    && (forall i :: 0 <= i < |pending| ==> pending[i] in reach)
    && forall id :: id in reach && id !in pending && id !in busy ==> SuccessorsMarked(pr, reach, id)
  }

  lemma MarkingDone(pr: Problem, reach: set<Id>, arrivable: iset<Id>)
    requires pr.Valid() && Marking(pr, reach, [], {}, arrivable)
    ensures Reached(pr, reach)
  {
    assert forall id :: id in reach ==> SuccessorsMarked(pr, reach, id);
  }

  lemma MarkingDequeued(pr: Problem, reach: set<Id>, queue: seq<nat>, arrivable: iset<Id>)
    requires pr.Valid() && queue != [] && Marking(pr, reach, queue, {}, arrivable)
    ensures queue[0] in reach && Marking(pr, reach, queue[1..], {queue[0]}, arrivable)
  {
    assert queue == [queue[0]] + queue[1..];
    assert queue[0] in reach;
  }

  lemma MarkingMore(pr: Problem, reach: set<Id>, pending: seq<nat>, id: Id, target: Id, arrivable: iset<Id>)
    requires pr.Valid() && Marking(pr, reach, pending, {id}, arrivable)
    requires target in arrivable && 0 < target < |pr.edges|
    ensures Marking(pr, reach + {target}, pending + [target], {id}, arrivable)
  {
    forall j | j in reach + {target} && j !in pending + [target] && j != id
      ensures SuccessorsMarked(pr, reach + {target}, j)
    {
      assert (pending + [target])[|pending|] == target;
      assert forall x :: x in pending ==> x in pending + [target];
      assert SuccessorsMarked(pr, reach, j);
    }
  }

  lemma MarkingEdgesDone(pr: Problem, reach: set<Id>, pending: seq<nat>, id: Id, arrivable: iset<Id>)
    requires pr.Valid() && Marking(pr, reach, pending, {id}, arrivable) && id < |pr.edges|
    requires forall e :: e in pr.edges[id] ==> e != 0 && e in reach
    ensures Marking(pr, reach, pending, {}, arrivable)
  {
    assert SuccessorsMarked(pr, reach, id);
  }

  /** The final check of one statement. */
  predicate Passes(pr: Problem, id: Id, s: State)
    requires pr.Valid() && ValidId(pr.stmts, id) && |s.pointers| == FAMILIES
  {
    && Needs(pr, id) <= s.facts && AccessesFit(pr, id, s.pointers)
    && (pr.stmts[id - 1].kind == Return ==> KeepsPointers(pr, s.pointers) && !pr.Self().never)
  }

  /** The statement a verdict of the final check is about; zero for other verdicts. */
  function Culprit(outcome: Outcome): Id {
    match outcome
    case FlagsUndefined(id) => id
    case LocalUnbound(id) => id
    case OutputUnassigned(id) => id
    case OutputNotReturned(id) => id
    case AccessRefused(id) => id
    case ProvenanceLost(id) => id
    case NeverReturns(id) => id
    case _ => 0
  }

  /** What each verdict of the final check says about the state at its statement. */
  ghost predicate Justified(pr: Problem, outcome: Outcome, s: State)
    requires pr.Valid() && ValidId(pr.stmts, Culprit(outcome)) && |s.pointers| == FAMILIES
  {
    match outcome
    case FlagsUndefined(id) => !(FlagsNeeded(pr, id) <= s.facts)
    case LocalUnbound(id) => !(LocalsNeeded(pr, id) <= s.facts)
    case OutputUnassigned(id) => !(OutputsNeeded(pr, id) <= s.facts)
    case OutputNotReturned(id) => !(ReturnNeeds(pr, id) <= s.facts)
    case AccessRefused(id) => !AccessesFit(pr, id, s.pointers)
    case ProvenanceLost(id) => pr.stmts[id - 1].kind == Return && !KeepsPointers(pr, s.pointers)
    case NeverReturns(id) => pr.stmts[id - 1].kind == Return && pr.Self().never
    case _ => false
  }

  datatype Outcome = Accept | FallsOff(at: Id) | Unresolved(at: Id) | Denied(at: Id)
                   | FlagsUndefined(at: Id) | LocalUnbound(at: Id) | OutputUnassigned(at: Id)
                   | OutputNotReturned(at: Id) | AccessRefused(at: Id) | ProvenanceLost(at: Id) | NeverReturns(at: Id)
                   | ReservedOutput | BadGraph

  class Analysis {
    const pr: Problem
    const states: array<State>
    const reachable: array<bool>
    const work: Worklist

    ghost predicate Valid()
      reads this, work, work.queue, work.queued, states
    {
      && pr.Valid() && work.Valid() && work.rows == |pr.edges|
      && states.Length == reachable.Length == |pr.edges|
      && reachable != work.queued
      && (forall id, e :: 0 <= id < |pr.edges| && e in pr.edges[id] ==> e < |pr.edges|)
      && Sized(pr, states[..])
    }

    constructor (pr: Problem)
      requires pr.Valid()
      requires forall id, e :: 0 <= id < |pr.edges| && e in pr.edges[id] ==> e < |pr.edges|
      ensures Valid() && this.pr == pr && work.pending == []
      ensures forall id :: 0 <= id < |pr.edges| ==> !reachable[id]
      ensures fresh(states) && fresh(reachable) && fresh(work) && fresh(work.queue) && fresh(work.queued)
    {
      this.pr := pr;
      states := new State[|pr.edges|](_ => State({}, seq(FAMILIES, _ => Top), {}));
      reachable := new bool[|pr.edges|](_ => false);
      work := new Worklist(|pr.edges|);
    }

    /** Merges out into one node and queues it when that changed anything. */
    method Propagate(target: Id, out: State)
      requires Valid() && 1 <= target < |pr.edges| && |out.pointers| == FAMILIES
      modifies states, work`tail, work`pending, work.queue, work.queued
      ensures Valid()
      ensures states[..] == old(states[..])[target := Meet(pr.types, old(states[target]), out)]
      ensures work.pending == if states[target] == old(states[target]) || target in old(work.pending)
                              then old(work.pending) else old(work.pending) + [target]
      ensures states[target] == old(states[target]) || HeightSum(states[..]) < HeightSum(old(states[..]))
    {
      var merged := Meet(pr.types, states[target], out);
      MeetDrops(pr.types, states[target], out);
      HeightUpdate(states[..], target, merged);
      var changed := merged != states[target];
      states[target] := merged;
      if changed {
        work.Enqueue(target);
      }
    }

    method PushEdge(id: Id, target: Id, out: State, ghost was: State, ghost done: seq<Id>, ghost reach: set<Id>,
                    ghost entry: State, ghost missing: Absence, ghost all: set<Fact>)
      requires Valid() && id in reach && Reached(pr, reach) && AbsenceClosed(pr, reach, missing)
      requires target in pr.edges[id]
      requires |was.pointers| == FAMILIES && out == Transfer(pr, id, was, out.writable)
      requires Explained(pr, id, was, missing, all)
      requires Visiting(pr, states[..], reach, work.pending, id, was, out, done, entry, missing, all)
      modifies states, work`tail, work`pending, work.queue, work.queued
      ensures Valid()
      ensures Visiting(pr, states[..], reach, work.pending, id, was, out, done + [target], entry, missing, all)
      ensures HeightSum(states[..]) < HeightSum(old(states[..])) ||
              (states[..] == old(states[..]) && work.pending == old(work.pending))
      ensures old(work.pending) <= work.pending
    {
      Propagate(target, out);
      VisitEdge(pr, old(states[..]), reach, old(work.pending), work.pending, id, was, out, done, target, entry, missing, all);
      if states[target] == old(states[target]) {
        assert states[..] == old(states[..]);
      }
    }

    /** Pushes the state a statement produces along each of its edges. */
    method PushEdges(id: Id, out: State, ghost reach: set<Id>, ghost entry: State,
                     ghost missing: Absence, ghost all: set<Fact>)
      requires Valid() && Solving(pr, states[..], reach, [id] + work.pending, entry, missing, all)
      requires id in reach && Reached(pr, reach) && AbsenceClosed(pr, reach, missing)
      requires out == Transfer(pr, id, states[id], out.writable)
      modifies states, work`tail, work`pending, work.queue, work.queued
      ensures Valid() && Solving(pr, states[..], reach, work.pending, entry, missing, all)
      ensures HeightSum(states[..]) < HeightSum(old(states[..])) || work.pending == old(work.pending)
      ensures HeightSum(states[..]) <= HeightSum(old(states[..])) && old(work.pending) <= work.pending
    {
      hide Visiting, Explained;
      ghost var was := states[id];
      ghost var queue := work.pending;
      VisitStart(pr, states[..], reach, queue, id, out, entry, missing, all);
      for k := 0 to |pr.edges[id]|
        invariant Valid()
        invariant Visiting(pr, states[..], reach, work.pending, id, was, out, pr.edges[id][..k], entry, missing, all)
        invariant HeightSum(states[..]) < HeightSum(old(states[..])) ||
                  (states[..] == old(states[..]) && work.pending == queue)
        invariant queue <= work.pending
      {
        var target := pr.edges[id][k];
        assert target in pr.edges[id];
        assert pr.edges[id][..k + 1] == pr.edges[id][..k] + [target];
        PushEdge(id, target, out, was, pr.edges[id][..k], reach, entry, missing, all);
      }
      assert pr.edges[id] == pr.edges[id][..|pr.edges[id]|];
      VisitDone(pr, states[..], reach, work.pending, id, was, out, entry, missing, all);
    }

    /** Marks what the body reaches; a reachable edge to the fall-through sink is an error. */
    method MarkReachable(ghost arrivable: iset<Id>) returns (outcome: Outcome, ghost reach: set<Id>)
      requires Valid() && work.pending == [] && forall id :: 0 <= id < |pr.edges| ==> !reachable[id]
      requires pr.body in arrivable
      requires forall id, e :: id in arrivable && id < |pr.edges| && e in pr.edges[id] && e != 0 ==> e in arrivable
      modifies reachable, work`head, work`tail, work`pending, work.queue, work.queued
      ensures Valid() && (forall id :: id in reach ==> id in arrivable)
      ensures outcome == Accept || outcome.FallsOff?
      ensures outcome == Accept ==> work.pending == [] && Reached(pr, reach)
      ensures outcome == Accept ==> forall id :: 0 <= id < |pr.edges| ==> (reachable[id] <==> id in reach)
      ensures outcome.FallsOff? ==> outcome.at in arrivable && outcome.at < |pr.edges| && 0 in pr.edges[outcome.at]
    {
      hide Reached, Below, ReachableSet, SuccessorsMarked;
      work.Enqueue(pr.body);
      reachable[pr.body] := true;
      reach := {pr.body};
      while true
        invariant Valid() && Marking(pr, reach, work.pending, {}, arrivable)
        invariant forall id :: 0 <= id < |pr.edges| ==> (reachable[id] <==> id in reach)
        decreases Below(|pr.edges|) - reach, |work.pending|
      {
        var empty := work.IsEmpty();
        if empty {
          MarkingDone(pr, reach, arrivable);
          return Accept, reach;
        }
        ghost var queue := work.pending;
        MarkingDequeued(pr, reach, queue, arrivable);
        var id := work.Dequeue();
        outcome, reach := MarkSuccessors(id, reach, arrivable);
        if outcome != Accept {
          return;
        }
      }
    }

    method MarkSuccessors(id: Id, ghost before: set<Id>, ghost arrivable: iset<Id>)
      returns (outcome: Outcome, ghost reach: set<Id>)
      requires Valid() && id in before && Marking(pr, before, work.pending, {id}, arrivable)
      requires forall j :: 0 <= j < |pr.edges| ==> (reachable[j] <==> j in before)
      requires forall j, e :: j in arrivable && j < |pr.edges| && e in pr.edges[j] && e != 0 ==> e in arrivable
      modifies reachable, work`tail, work`pending, work.queue, work.queued
      ensures Valid() && before <= reach && (forall j :: j in reach ==> j in arrivable)
      ensures outcome == Accept || (outcome == FallsOff(id) && 0 in pr.edges[id])
      ensures outcome == Accept ==> Marking(pr, reach, work.pending, {}, arrivable)
      ensures forall j :: 0 <= j < |pr.edges| ==> (reachable[j] <==> j in reach)
      ensures outcome == Accept ==> reach == before ==> work.pending == old(work.pending)
    {
      reach := before;
      for i := 0 to |pr.edges[id]|
        invariant Valid() && before <= reach
        invariant Marking(pr, reach, work.pending, {id}, arrivable)
        invariant forall j :: 0 <= j < |pr.edges| ==> (reachable[j] <==> j in reach)
        invariant forall e :: e in pr.edges[id][..i] ==> e != 0 && e in reach
        invariant reach == before ==> work.pending == old(work.pending)
      {
        var target := pr.edges[id][i];
        assert target in pr.edges[id];
        assert pr.edges[id][..i + 1] == pr.edges[id][..i] + [target];
        if target == 0 {
          return FallsOff(id), reach;
        }
        if !reachable[target] {
          MarkingMore(pr, reach, work.pending, id, target, arrivable);
          reachable[target] := true;
          reach := reach + {target};
          work.Enqueue(target);
        }
      }
      assert pr.edges[id] == pr.edges[id][..|pr.edges[id]|];
      MarkingEdgesDone(pr, reach, work.pending, id, arrivable);
      return Accept, reach;
    }

    /** Nothing is known anywhere except at the entry. */
    method Fill()
      requires Valid()
      modifies states
      ensures Valid() && states[..] == seq(|pr.edges|, i => Unknown(pr))[pr.body := Entry(pr)]
    {
      var unknown := Unknown(pr);
      for i := 0 to states.Length
        invariant Valid()
        invariant forall j :: 0 <= j < i ==> states[j] == unknown
      {
        states[i] := unknown;
      }
      states[pr.body] := Entry(pr);
      assert states[..] == seq(|pr.edges|, i => Unknown(pr))[pr.body := Entry(pr)];
    }

    method EnqueueReachable(ghost reach: set<Id>)
      requires Valid() && work.pending == [] && Reached(pr, reach)
      requires forall id :: 0 <= id < |pr.edges| ==> (reachable[id] <==> id in reach)
      modifies work`tail, work`pending, work.queue, work.queued
      ensures Valid() && states[..] == old(states[..])
      ensures forall j :: j in reach ==> j in work.pending
      ensures forall i :: 0 <= i < |work.pending| ==> work.pending[i] in reach
    {
      for id := 1 to states.Length
        invariant Valid() && states[..] == old(states[..])
        invariant forall j :: 1 <= j < id && j in reach ==> j in work.pending
        invariant forall i :: 0 <= i < |work.pending| ==> work.pending[i] in reach
      {
        if reachable[id] {
          work.Enqueue(id);
        }
      }
    }

    /** Initial states, with every reachable node queued. */
    method Start(ghost reach: set<Id>, ghost missing: Absence)
      requires Valid() && work.pending == [] && Reached(pr, reach)
      requires forall id :: 0 <= id < |pr.edges| ==> (reachable[id] <==> id in reach)
      requires Explained(pr, pr.body, Entry(pr), missing, AllFacts(pr))
      modifies states, work`tail, work`pending, work.queue, work.queued
      ensures Valid() && Solving(pr, states[..], reach, work.pending, Entry(pr), missing, AllFacts(pr))
      ensures forall id :: id in reach ==> id in work.pending
    {
      Fill();
      EnqueueReachable(reach);
    }

    /** Runs the worklist to its fixpoint. The answers of the write-permission prover are arbitrary. */
    method Solve(ghost reach: set<Id>, ghost missing: Absence) returns (outcome: Outcome)
      requires Valid() && Reached(pr, reach) && AbsenceClosed(pr, reach, missing)
      requires Solving(pr, states[..], reach, work.pending, Entry(pr), missing, AllFacts(pr))
      requires forall id :: id in reach ==> id in work.pending
      modifies states, work`head, work`tail, work`pending, work.queue, work.queued
      ensures Valid() && (outcome == Accept || outcome.Unresolved? || outcome.Denied?)
      ensures outcome == Accept ==> Solving(pr, states[..], reach, [], Entry(pr), missing, AllFacts(pr))
      ensures outcome == Accept ==> forall id :: id in reach ==> Resolved(pr, id)
      ensures outcome.Unresolved? ==> outcome.at in reach && !Resolved(pr, outcome.at)
    {
      hide Reached, AbsenceClosed, Settled, Exact, Leq, Resolved;
      while true
        invariant Valid() && Solving(pr, states[..], reach, work.pending, Entry(pr), missing, AllFacts(pr))
        invariant forall j :: j in reach && j !in work.pending ==> Resolved(pr, j)
        decreases HeightSum(states[..]), |work.pending|
      {
        var empty := work.IsEmpty();
        if empty {
          return Accept;
        }
        ghost var queue := work.pending;
        var id := work.Dequeue();
        assert queue == [id] + work.pending;
        if !Resolved(pr, id) {
          return Unresolved(id);
        }
        var writable: set<nat>, permitted: bool := *, *;
        if !permitted {
          return Denied(id);
        }
        PushEdges(id, Transfer(pr, id, states[id], writable * Families()), reach, Entry(pr), missing, AllFacts(pr));
      }
    }

    method CheckStatement(id: Id) returns (outcome: Outcome)
      requires Valid() && ValidId(pr.stmts, id)
      ensures outcome == Accept <==> Passes(pr, id, states[id])
      ensures outcome != Accept ==> Culprit(outcome) == id && Justified(pr, outcome, states[id])
    {
      var s := states[id];
      if !(FlagsNeeded(pr, id) <= s.facts) {
        return FlagsUndefined(id);
      }
      if !(LocalsNeeded(pr, id) <= s.facts) {
        return LocalUnbound(id);
      }
      if !AccessesFit(pr, id, s.pointers) {
        return AccessRefused(id);
      }
      if !(OutputsNeeded(pr, id) <= s.facts) {
        return OutputUnassigned(id);
      }
      if pr.stmts[id - 1].kind == Return {
        if !(ReturnNeeds(pr, id) <= s.facts) {
          return OutputNotReturned(id);
        }
        if !KeepsPointers(pr, s.pointers) {
          return ProvenanceLost(id);
        }
        if pr.Self().never {
          return NeverReturns(id);
        }
      }
      return Accept;
    }

    method Check(ghost reach: set<Id>) returns (outcome: Outcome)
      requires Valid() && Reached(pr, reach)
      requires forall id :: 0 <= id < |pr.edges| ==> (reachable[id] <==> id in reach)
      ensures outcome == Accept ==> forall id :: id in reach ==> Passes(pr, id, states[id])
      ensures outcome != Accept ==>
        Culprit(outcome) in reach && Justified(pr, outcome, states[Culprit(outcome)])
    {
      for id := 1 to states.Length
        invariant forall j :: 1 <= j < id && j in reach ==> Passes(pr, j, states[j])
      {
        if reachable[id] {
          outcome := CheckStatement(id);
          if outcome != Accept {
            return;
          }
        }
      }
      return Accept;
    }
  }
}
