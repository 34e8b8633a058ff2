/** What a statement does when it runs, node by node in the order of evaluation, and what the verdict
    of the verifier says about such runs. */
module StatementRuns {
  import opened Cfg
  import opened Facts
  import opened Dataflow
  import opened Conformance

  /** What a run has established: the flags that are defined, the locals that are bound, the register
      bits that were assigned, and the pointer types in the registers. */
  datatype Live = Live(flags: set<nat>, bound: set<nat>, written: set<Fact>, pointers: Pointers)

  /** A step faults when it uses what is not there. */
  datatype Step = Fault | Goes(live: Live)

  datatype Found = Nothing | Is(provenance: Provenance)

  // ----- Registers and parameters -----

  predicate HasBit(r: Register, b: nat) {
    if r.bits == 64 then b < 64
    else if r.bits == 32 then b < 32
    else if r.high8 then 8 <= b < 8 + r.bits
    else b < r.bits
  }

  /** The bits of the register. */
  function BitsOf(r: Register): set<Fact> {
    if 0 <= r.family < 16 && 1 <= r.bits <= 64
    then set b: nat {:trigger Output(r.family, b)} | b < 64 && HasBit(r, b) :: Output(r.family, b)
    else {}
  }

  predicate ByOutput(v: Variable) {
    v.direction in {Out, InOut}
  }

  function OutputBits(params: seq<Variable>): set<Fact> {
    set v, f | v in params && ByOutput(v) && f in BitsOf(v.reg) :: f
  }

  /** Parameters without a register of their own have rcx, rdx, r8 and r9. */
  function Home(v: Variable, index: nat): int {
    if v.reg.family >= 0 then v.reg.family
    else if index == 0 then 1 else if index == 1 then 2 else if index == 2 then 8 else if index == 3 then 9
    else v.reg.family
  }

  /** The last of the first n parameters that is handed back in register r. */
  function LastOutput(params: seq<Variable>, n: nat, r: nat): Found
    requires n <= |params|
  {
    if n == 0 then Nothing
    else if ByOutput(params[n - 1]) && Home(params[n - 1], n - 1) == r then Is(params[n - 1].pointer)
    else LastOutput(params, n - 1, r)
  }

  /** What a call makes of register r, if it changes it: an output, the result, or no pointer. */
  function CallMakes(f: Function, r: nat): Found {
    var output := LastOutput(f.params, |f.params|, r);
    if output.Is? then output
    else if r == 0 then Is(f.returned)
    else if r in f.clobbers then Is(NoPointer)
    else Nothing
  }

  function Otherwise(found: Found, p: Provenance): Provenance {
    match found case Is(q) => q case Nothing => p
  }

  function Called(f: Function, st: Live): (r: Live)
    requires |st.pointers| == FAMILIES
    ensures |r.pointers| == FAMILIES
  {
    Live(if f.clobbersFlags then {} else st.flags, st.bound, st.written + OutputBits(f.params),
         seq(FAMILIES, r requires 0 <= r < FAMILIES => Otherwise(CallMakes(f, r), st.pointers[r])))
  }

  // ----- Expressions -----

  predicate OwnLocal(pr: Problem, v: nat) {
    1 <= v <= |pr.variables| && pr.variables[v - 1].direction == Automatic && pr.variables[v - 1].owner == pr.self
  }

  predicate LocalReady(pr: Problem, v: nat, st: Live) {
    OwnLocal(pr, v) ==> v in st.bound
  }

  predicate MayRead(pr: Problem, x: Expr, st: Live) {
    match x
    case Name(v) =>
      && LocalReady(pr, v, st)
      && (1 <= v <= |pr.variables| && ByOutput(pr.variables[v - 1]) ==> BitsOf(pr.variables[v - 1].reg) <= st.written)
    case Memory(v) => LocalReady(pr, v, st)
    case Reg(r) => BitsOf(r) <= st.written
    case _ => true
  }

  /** Operands from left to right, then the operation; arguments likewise, then the call. */
  function Eval(pr: Problem, x: Expr, st: Live): (r: Step)
    requires |st.pointers| == FAMILIES
    ensures r.Goes? ==> |r.live.pointers| == FAMILIES
    decreases x, 0
  {
    match x
    case Unary(y) => Eval(pr, y, st)
    case Binary(l, r) => (match Eval(pr, l, st) case Fault => Fault case Goes(st') => Eval(pr, r, st'))
    case CallTo(f, args) =>
      (match EvalAll(pr, args, st)
       case Fault => Fault
       case Goes(st') => Goes(if 1 <= f <= |pr.functions| then Called(pr.functions[f - 1], st') else st'))
    case _ => if MayRead(pr, x, st) then Goes(st) else Fault
  }

  function EvalAll(pr: Problem, es: seq<Expr>, st: Live): (r: Step)
    requires |st.pointers| == FAMILIES
    ensures r.Goes? ==> |r.live.pointers| == FAMILIES
    decreases es, 0
  {
    if es == [] then Goes(st)
    else match Eval(pr, es[0], st) case Fault => Fault case Goes(st') => EvalAll(pr, es[1..], st')
  }

  // ----- Statements -----

  /** The locals that an operand of an instruction names are bound. */
  predicate NamesBound(pr: Problem, x: Expr, st: Live)
    decreases x, 0
  {
    match x
    case Unary(y) => NamesBound(pr, y, st)
    case Binary(l, r) => NamesBound(pr, l, st) && NamesBound(pr, r, st)
    case CallTo(_, args) => AllNamesBound(pr, args, st)
    case Name(v) => LocalReady(pr, v, st)
    case Memory(v) => LocalReady(pr, v, st)
    case _ => true
  }

  predicate AllNamesBound(pr: Problem, es: seq<Expr>, st: Live)
    decreases es, 0
  {
    es == [] || (NamesBound(pr, es[0], st) && AllNamesBound(pr, es[1..], st))
  }

  /** A call in x leaves no flag defined. */
  predicate LosesFlags(pr: Problem, x: Expr)
    decreases x, 0
  {
    match x
    case Unary(y) => LosesFlags(pr, y)
    case Binary(l, r) => LosesFlags(pr, l) || LosesFlags(pr, r)
    case CallTo(f, args) => AnyLosesFlags(pr, args) || (1 <= f <= |pr.functions| && pr.functions[f - 1].clobbersFlags)
    case _ => false
  }

  predicate AnyLosesFlags(pr: Problem, es: seq<Expr>)
    decreases es, 0
  {
    es != [] && (LosesFlags(pr, es[0]) || AnyLosesFlags(pr, es[1..]))
  }

  function Taken(s: Source, ps: Pointers): Provenance
    requires |ps| == FAMILIES
  {
    match s case Fixed(p) => p case FromRegister(r) => if r < FAMILIES then ps[r] else NoPointer
  }

  /** An instruction reads flags, locals and register bits, then undefines and defines flags, writes
      register bits, and retypes registers from what they held before. */
  function RunInstruction(pr: Problem, id: Id, st: Live): (r: Step)
    requires pr.Valid() && ValidId(pr.stmts, id) && |st.pointers| == FAMILIES
    ensures r.Goes? ==> |r.live.pointers| == FAMILIES
  {
    var e := pr.effects[id - 1];
    if !(e.flagsRead <= st.flags) then Fault
    else if IsBranch(pr.stmts[id - 1]) then Goes(st.(flags := st.flags - e.flagsUndefined + e.flagsWritten))
    else if !AllNamesBound(pr, e.expressions, st) || !(e.operandReads <= st.written) then Fault
    else
      var kept := if AnyLosesFlags(pr, e.expressions) then {} else st.flags;
      Goes(Live(kept - e.flagsUndefined + e.flagsWritten, st.bound, st.written + e.operandWrites,
                seq(FAMILIES, r requires 0 <= r < FAMILIES =>
                  if r in e.pointerWrites then Taken(e.pointerWrites[r], st.pointers) else st.pointers[r])))
  }

  /** A pointer into the annotated space, to an element of the annotated type or an array of such. */
  predicate PointsTo(types: seq<Type>, p: Provenance, annotation: nat) {
    && p.Pointer? && 1 <= p.ptype <= |types| && 1 <= annotation <= |types|
    && var actual, wanted := types[p.ptype - 1], types[annotation - 1];
       && actual.space == wanted.space
       && (SameType(types, actual.element, wanted.element, 0)
           || (1 <= actual.element <= |types| && types[actual.element - 1].kind == 12
               && SameType(types, types[actual.element - 1].element, wanted.element, 0)))
  }

  predicate AccessesReady(pr: Problem, id: Id, ps: Pointers)
    requires pr.Valid() && ValidId(pr.stmts, id) && |ps| == FAMILIES
  {
    forall a :: a in pr.effects[id - 1].accesses ==> a.base < 16 && PointsTo(pr.types, ps[a.base], a.annotation)
  }

  /** The outputs are assigned, and the declared pointers among them are such pointers. */
  predicate ReturnsWell(pr: Problem, st: Live)
    requires pr.Valid() && |st.pointers| == FAMILIES
  {
    && !pr.Self().never && OutputBits(pr.Self().params) <= st.written
    && forall v :: v in pr.Self().params && ByOutput(v) && v.pointer.Pointer? && 0 <= v.reg.family < 16 ==>
         var p := st.pointers[v.reg.family];
         p.Pointer? && SameType(pr.types, v.pointer.ptype, p.ptype, 0)
  }

  function Perform(pr: Problem, id: Id, st: Live): (r: Step)
    requires pr.Valid() && ValidId(pr.stmts, id) && |st.pointers| == FAMILIES
    ensures r.Goes? ==> |r.live.pointers| == FAMILIES
  {
    var s, e := pr.stmts[id - 1], pr.effects[id - 1];
    if !AccessesReady(pr, id, st.pointers) then Fault
    else if s.kind == Instruction then RunInstruction(pr, id, st)
    else match EvalAll(pr, e.expressions, st)
      case Fault => Fault
      case Goes(after) =>
        if s.kind == Return && !ReturnsWell(pr, after) then Fault
        else if s.kind == Let && OwnLocal(pr, e.binds) then Goes(after.(bound := after.bound + {e.binds}))
        else Goes(after)
  }

  // ----- Functions -----

  /** The last of the first n parameters that comes in register r as 64 bits. */
  function LastInput(params: seq<Variable>, n: nat, r: nat): Found
    requires n <= |params|
  {
    if n == 0 then Nothing
    else
      var v := params[n - 1];
      var bits := if v.reg.family < 0 && n - 1 < 4 then v.bits else v.reg.bits;
      if v.direction != Out && Home(v, n - 1) == r && bits == 64 then Is(v.pointer) else LastInput(params, n - 1, r)
  }

  /** No flag is defined and no local bound; all registers hold what the caller left, except those of
      pure outputs. */
  function Start(pr: Problem): (st: Live)
    requires pr.Valid()
    ensures |st.pointers| == FAMILIES
  {
    var pure := set v, f | v in pr.Self().params && v.direction == Out && f in BitsOf(v.reg) :: f;
    Live({}, {}, (set r: nat, b: nat {:trigger Output(r, b)} | r < 16 && b < 64 :: Output(r, b)) - pure,
         seq(FAMILIES, r requires 0 <= r < FAMILIES =>
           Otherwise(LastInput(pr.Self().params, |pr.Self().params|, r), NoPointer)))
  }

  /** The state in which a run along the path reaches its last statement. */
  function Arrive(pr: Problem, path: seq<Id>): (r: Step)
    requires pr.Valid() && forall k :: 0 <= k < |path| ==> ValidId(pr.stmts, path[k])
    ensures r.Goes? ==> |r.live.pointers| == FAMILIES
  {
    if |path| <= 1 then Goes(Start(pr))
    else match Arrive(pr, path[..|path| - 1])
      case Fault => Fault
      case Goes(st) => Perform(pr, path[|path| - 2], st)
  }

  /** The run along the path does not fault, its last statement included. */
  predicate Runs(pr: Problem, path: seq<Id>)
    requires pr.Valid() && |path| > 0 && forall k :: 0 <= k < |path| ==> ValidId(pr.stmts, path[k])
  {
    match Arrive(pr, path) case Fault => false case Goes(st) => Perform(pr, path[|path| - 1], st).Goes?
  }

  // ----- The analysis follows these steps -----

  /** Footprints of instructions name register bits. */
  ghost predicate RegisterFootprints(pr: Problem)
    requires pr.Valid()
  {
    forall e, f :: e in pr.effects && (f in e.operandReads || f in e.operandWrites) ==> f.Output?
  }

  predicate Has(st: Live, f: Fact) {
    match f case Flag(b) => b in st.flags case Local(v) => v in st.bound case Output(_, _) => f in st.written
  }

  lemma SameBits(r: Register)
    ensures BitsOf(r) == ReadBits(r)
  {
  }

  lemma SameOutputBits(params: seq<Variable>)
    ensures OutputBits(params) == set v, f | v in params && IsOutput(v) && f in ReadBits(v.reg) :: f
  {
    hide BitsOf, ReadBits;
    forall v | v in params
      ensures BitsOf(v.reg) == ReadBits(v.reg)
    {
      SameBits(v.reg);
    }
  }

  lemma {:induction false} OutputsBound(params: seq<Variable>, n: nat, ps: Pointers, r: nat)
    requires n <= |params| && |ps| == FAMILIES && r < FAMILIES
    ensures BindOutputs(params, n, ps)[r] == Otherwise(LastOutput(params, n, r), ps[r])
  {
    if n > 0 {
      OutputsBound(params, n - 1, ps, r);
    }
  }

  lemma CallRetypes(f: Function, ps: Pointers)
    requires |ps| == FAMILIES
    ensures BindOutputs(f.params, |f.params|, Clobber(f, ps)) ==
            seq(FAMILIES, r requires 0 <= r < FAMILIES => Otherwise(CallMakes(f, r), ps[r]))
  {
    hide BindOutputs;
    forall r: nat | r < FAMILIES
      ensures BindOutputs(f.params, |f.params|, Clobber(f, ps))[r] == Otherwise(CallMakes(f, r), ps[r])
    {
      OutputsBound(f.params, |f.params|, Clobber(f, ps), r);
    }
  }

  predicate KillsIn(pr: Problem, nodes: seq<Expr>) {
    exists x :: x in nodes && KnownCall(pr, x) && pr.functions[x.callee - 1].clobbersFlags
  }

  function WritesIn(pr: Problem, nodes: seq<Expr>): set<Fact> {
    set x, f | x in nodes && f in CallWrites(pr, x) :: f
  }

  lemma {:induction false} CallsAppend(pr: Problem, a: seq<Expr>, b: seq<Expr>, ps: Pointers)
    requires |ps| == FAMILIES
    ensures CallPointers(pr, a + b, ps) == CallPointers(pr, b, CallPointers(pr, a, ps))
    ensures KillsIn(pr, a + b) <==> KillsIn(pr, a) || KillsIn(pr, b)
    ensures WritesIn(pr, a + b) == WritesIn(pr, a) + WritesIn(pr, b)
    decreases |b|
  {
    hide CallWrites, BindOutputs, Clobber;
    if b == [] {
      assert a + b == a;
    } else {
      var n := |b| - 1;
      assert (a + b)[..|a + b| - 1] == a + b[..n] && (a + b)[|a + b| - 1] == b[n];
      CallsAppend(pr, a, b[..n], ps);
    }
  }

  /** What an evaluation that does not fault has done. */
  ghost predicate EvaluatedAs(pr: Problem, nodes: seq<Expr>, st: Live, after: Live)
    requires |st.pointers| == FAMILIES
  {
    && after.flags == (if KillsIn(pr, nodes) then {} else st.flags) && after.bound == st.bound
    && after.written == st.written + WritesIn(pr, nodes) && after.pointers == CallPointers(pr, nodes, st.pointers)
  }

  lemma EvaluatedThen(pr: Problem, a: seq<Expr>, b: seq<Expr>, st: Live, mid: Live, after: Live)
    requires |st.pointers| == FAMILIES && EvaluatedAs(pr, a, st, mid) && EvaluatedAs(pr, b, mid, after)
    ensures EvaluatedAs(pr, a + b, st, after)
  {
    hide KillsIn, WritesIn, CallPointers;
    CallsAppend(pr, a, b, st.pointers);
  }

  lemma OneNode(pr: Problem, x: Expr, ps: Pointers)
    requires |ps| == FAMILIES
    ensures WritesIn(pr, [x]) == CallWrites(pr, x)
    ensures KillsIn(pr, [x]) <==> KnownCall(pr, x) && pr.functions[x.callee - 1].clobbersFlags
    ensures CallPointers(pr, [x], ps) ==
            if KnownCall(pr, x) then var f := pr.functions[x.callee - 1]; BindOutputs(f.params, |f.params|, Clobber(f, ps)) else ps
  {
    hide CallWrites, BindOutputs, Clobber;
    assert forall y :: y in [x] <==> y == x;
    assert [x][..|[x]| - 1] == [];
  }

  lemma EvaluatedNode(pr: Problem, x: Expr, st: Live)
    requires |st.pointers| == FAMILIES
    ensures EvaluatedAs(pr, [x], st, if KnownCall(pr, x) then Called(pr.functions[x.callee - 1], st) else st)
  {
    hide CallMakes, BindOutputs, Clobber, BitsOf, ReadBits, WritesIn, KillsIn, CallPointers;
    OneNode(pr, x, st.pointers);
    if KnownCall(pr, x) {
      CallRetypes(pr.functions[x.callee - 1], st.pointers);
      SameOutputBits(pr.functions[x.callee - 1].params);
    }
  }

  lemma {:induction false} Evaluated(pr: Problem, x: Expr, st: Live)
    requires |st.pointers| == FAMILIES && Eval(pr, x, st).Goes?
    ensures EvaluatedAs(pr, PostOrder(x), st, Eval(pr, x, st).live)
    decreases x, 0
  {
    hide EvaluatedAs, Called, MayRead;
    match x
    case Unary(y) =>
      Evaluated(pr, y, st);
      EvaluatedNode(pr, x, Eval(pr, y, st).live);
      EvaluatedThen(pr, PostOrder(y), [x], st, Eval(pr, y, st).live, Eval(pr, x, st).live);
    case Binary(l, r) =>
      Evaluated(pr, l, st);
      var mid := Eval(pr, l, st).live;
      Evaluated(pr, r, mid);
      var after := Eval(pr, r, mid).live;
      EvaluatedThen(pr, PostOrder(l), PostOrder(r), st, mid, after);
      EvaluatedNode(pr, x, after);
      EvaluatedThen(pr, PostOrder(l) + PostOrder(r), [x], st, after, after);
    case CallTo(_, args) =>
      EvaluatedList(pr, args, st);
      var mid := EvalAll(pr, args, st).live;
      EvaluatedNode(pr, x, mid);
      EvaluatedThen(pr, PostOrderAll(args), [x], st, mid, Eval(pr, x, st).live);
    case _ => EvaluatedNode(pr, x, st);
  }

  lemma {:induction false} EvaluatedList(pr: Problem, es: seq<Expr>, st: Live)
    requires |st.pointers| == FAMILIES && EvalAll(pr, es, st).Goes?
    ensures EvaluatedAs(pr, PostOrderAll(es), st, EvalAll(pr, es, st).live)
    decreases es, 0
  {
    if es != [] {
      hide EvaluatedAs, Eval;
      Evaluated(pr, es[0], st);
      var mid := Eval(pr, es[0], st).live;
      EvaluatedList(pr, es[1..], mid);
      EvaluatedThen(pr, PostOrder(es[0]), PostOrderAll(es[1..]), st, mid, EvalAll(pr, es, st).live);
    }
  }

  // ----- When an evaluation faults -----

  function OwnLocals(pr: Problem, v: nat): set<nat> {
    if OwnLocal(pr, v) then {v} else {}
  }

  /** The locals that x names. */
  function Names(pr: Problem, x: Expr): set<nat>
    decreases x, 0
  {
    match x
    case Unary(y) => Names(pr, y)
    case Binary(l, r) => Names(pr, l) + Names(pr, r)
    case CallTo(_, args) => NamesAll(pr, args)
    case Name(v) => OwnLocals(pr, v)
    case Memory(v) => OwnLocals(pr, v)
    case _ => {}
  }

  function NamesAll(pr: Problem, es: seq<Expr>): set<nat>
    decreases es, 0
  {
    if es == [] then {} else Names(pr, es[0]) + NamesAll(pr, es[1..])
  }

  /** The register bits that the calls in x assign. */
  function Assigns(pr: Problem, x: Expr): set<Fact>
    decreases x, 0
  {
    match x
    case Unary(y) => Assigns(pr, y)
    case Binary(l, r) => Assigns(pr, l) + Assigns(pr, r)
    case CallTo(f, args) => AssignsAll(pr, args) + (if 1 <= f <= |pr.functions| then OutputBits(pr.functions[f - 1].params) else {})
    case _ => {}
  }

  function AssignsAll(pr: Problem, es: seq<Expr>): set<Fact>
    decreases es, 0
  {
    if es == [] then {} else Assigns(pr, es[0]) + AssignsAll(pr, es[1..])
  }

  /** The register bits that are read before a call in x has assigned them. */
  function ReadsFirst(pr: Problem, x: Expr): set<Fact>
    decreases x, 0
  {
    match x
    case Unary(y) => ReadsFirst(pr, y)
    case Binary(l, r) => ReadsFirst(pr, l) + (ReadsFirst(pr, r) - Assigns(pr, l))
    case CallTo(_, args) => AllReadFirst(pr, args)
    case Name(v) =>
      if 1 <= v <= |pr.variables| && ByOutput(pr.variables[v - 1]) then BitsOf(pr.variables[v - 1].reg) else {}
    case Reg(r) => BitsOf(r)
    case _ => {}
  }

  function AllReadFirst(pr: Problem, es: seq<Expr>): set<Fact>
    decreases es, 0
  {
    if es == [] then {} else ReadsFirst(pr, es[0]) + (AllReadFirst(pr, es[1..]) - Assigns(pr, es[0]))
  }

  /** An evaluation goes through exactly when every local it names is bound and every register bit it
      reads is assigned, before it or by a call earlier in it. */
  lemma {:induction false} GoesExactly(pr: Problem, x: Expr, st: Live)
    requires |st.pointers| == FAMILIES
    ensures Eval(pr, x, st).Goes? <==> Names(pr, x) <= st.bound && ReadsFirst(pr, x) <= st.written
    ensures Eval(pr, x, st).Goes? ==>
              Eval(pr, x, st).live.bound == st.bound && Eval(pr, x, st).live.written == st.written + Assigns(pr, x)
    decreases x, 0
  {
    hide BitsOf, CallMakes, OutputBits;
    match x
    case Unary(y) => GoesExactly(pr, y, st);
    case Binary(l, r) =>
      GoesExactly(pr, l, st);
      if Eval(pr, l, st).Goes? {
        GoesExactly(pr, r, Eval(pr, l, st).live);
      }
    case CallTo(_, args) => ListGoesExactly(pr, args, st);
    case _ =>
  }

  lemma {:induction false} ListGoesExactly(pr: Problem, es: seq<Expr>, st: Live)
    requires |st.pointers| == FAMILIES
    ensures EvalAll(pr, es, st).Goes? <==> NamesAll(pr, es) <= st.bound && AllReadFirst(pr, es) <= st.written
    ensures EvalAll(pr, es, st).Goes? ==>
              EvalAll(pr, es, st).live.bound == st.bound && EvalAll(pr, es, st).live.written == st.written + AssignsAll(pr, es)
    decreases es, 0
  {
    hide BitsOf, CallMakes, OutputBits;
    if es != [] {
      GoesExactly(pr, es[0], st);
      if Eval(pr, es[0], st).Goes? {
        ListGoesExactly(pr, es[1..], Eval(pr, es[0], st).live);
      }
    }
  }

  /** What the verifier asks of the state before a node. */
  predicate AskedFor(pr: Problem, x: Expr, st: Live) {
    && (IsLocal(pr, Referenced(x)) ==> Referenced(x) in st.bound) && LeafReads(pr, x) <= st.written
  }

  lemma LeafAsked(pr: Problem, x: Expr, st: Live)
    requires !x.Unary? && !x.Binary? && !x.CallTo? && AskedFor(pr, x, st)
    ensures Names(pr, x) <= st.bound && ReadsFirst(pr, x) <= st.written
  {
    hide BitsOf, ReadBits;
    match x
    case Name(v) =>
      if KnownVariable(pr, v) {
        SameBits(pr.variables[v - 1].reg);
      }
    case Reg(r) => SameBits(r);
    case _ =>
  }

  /** Asking it of all nodes beforehand is enough. */
  lemma {:induction false} AskedIsEnough(pr: Problem, x: Expr, st: Live)
    requires forall y :: y in PostOrder(x) ==> AskedFor(pr, y, st)
    ensures Names(pr, x) <= st.bound && ReadsFirst(pr, x) <= st.written
    decreases x, 0
  {
    hide AskedFor;
    match x
    case Unary(y) => AskedIsEnough(pr, y, st);
    case Binary(l, r) =>
      AskedIsEnough(pr, l, st);
      AskedIsEnough(pr, r, st);
    case CallTo(_, args) => AllAskedIsEnough(pr, args, st);
    case _ =>
      assert x in PostOrder(x);
      LeafAsked(pr, x, st);
  }

  lemma {:induction false} AllAskedIsEnough(pr: Problem, es: seq<Expr>, st: Live)
    requires forall y :: y in PostOrderAll(es) ==> AskedFor(pr, y, st)
    ensures NamesAll(pr, es) <= st.bound && AllReadFirst(pr, es) <= st.written
    decreases es, 0
  {
    hide AskedFor;
    if es != [] {
      AskedIsEnough(pr, es[0], st);
      AllAskedIsEnough(pr, es[1..], st);
    }
  }

  /** The locals of an expression are those its nodes refer to. */
  lemma {:induction false} NamesAreReferenced(pr: Problem, x: Expr, v: nat)
    ensures v in Names(pr, x) <==> OwnLocal(pr, v) && exists y :: y in PostOrder(x) && Referenced(y) == v
    decreases x, 0
  {
    match x
    case Unary(y) =>
      NamesAreReferenced(pr, y, v);
      InBoth(PostOrder(y), [x], v);
    case Binary(l, r) =>
      NamesAreReferenced(pr, l, v);
      NamesAreReferenced(pr, r, v);
      InBoth(PostOrder(l), PostOrder(r), v);
      InBoth(PostOrder(l) + PostOrder(r), [x], v);
    case CallTo(_, args) =>
      AllNamesAreReferenced(pr, args, v);
      InBoth(PostOrderAll(args), [x], v);
    case _ => assert x in PostOrder(x);
  }

  lemma {:induction false} AllNamesAreReferenced(pr: Problem, es: seq<Expr>, v: nat)
    ensures v in NamesAll(pr, es) <==> OwnLocal(pr, v) && exists y :: y in PostOrderAll(es) && Referenced(y) == v
    decreases es, 0
  {
    if es != [] {
      NamesAreReferenced(pr, es[0], v);
      AllNamesAreReferenced(pr, es[1..], v);
      InBoth(PostOrder(es[0]), PostOrderAll(es[1..]), v);
    }
  }

  lemma InBoth(a: seq<Expr>, b: seq<Expr>, v: nat)
    ensures (exists y :: y in a + b && Referenced(y) == v) <==>
            (exists y :: y in a && Referenced(y) == v) || (exists y :: y in b && Referenced(y) == v)
  {
    if y :| y in a && Referenced(y) == v {
      assert y in a + b;
    } else if y :| y in b && Referenced(y) == v {
      assert y in a + b;
    }
  }

  /** Operands of an instruction only have their locals checked and their calls counted. */
  lemma {:induction false} NamesBoundIs(pr: Problem, x: Expr, st: Live)
    ensures NamesBound(pr, x, st) <==> Names(pr, x) <= st.bound
    decreases x, 0
  {
    match x
    case Unary(y) => NamesBoundIs(pr, y, st);
    case Binary(l, r) =>
      NamesBoundIs(pr, l, st);
      NamesBoundIs(pr, r, st);
    case CallTo(_, args) => AllNamesBoundIs(pr, args, st);
    case _ =>
  }

  lemma {:induction false} AllNamesBoundIs(pr: Problem, es: seq<Expr>, st: Live)
    ensures AllNamesBound(pr, es, st) <==> NamesAll(pr, es) <= st.bound
    decreases es, 0
  {
    if es != [] {
      NamesBoundIs(pr, es[0], st);
      AllNamesBoundIs(pr, es[1..], st);
    }
  }

  lemma {:induction false} LosesFlagsIs(pr: Problem, x: Expr)
    ensures LosesFlags(pr, x) <==> KillsIn(pr, PostOrder(x))
    decreases x, 0
  {
    hide KillsIn;
    match x
    case Unary(y) =>
      LosesFlagsIs(pr, y);
      KillsOne(pr, PostOrder(y), x);
    case Binary(l, r) =>
      LosesFlagsIs(pr, l);
      LosesFlagsIs(pr, r);
      CallsAppend(pr, PostOrder(l), PostOrder(r), seq(FAMILIES, _ => NoPointer));
      KillsOne(pr, PostOrder(l) + PostOrder(r), x);
    case CallTo(_, args) =>
      AnyLosesFlagsIs(pr, args);
      KillsOne(pr, PostOrderAll(args), x);
    case _ =>
      KillsOne(pr, [], x);
      assert [] + [x] == [x];
      NoneKills(pr);
  }

  lemma NoneKills(pr: Problem)
    ensures !KillsIn(pr, [])
  {
  }

  lemma KillsOne(pr: Problem, nodes: seq<Expr>, x: Expr)
    ensures KillsIn(pr, nodes + [x]) <==> KillsIn(pr, nodes) || (KnownCall(pr, x) && pr.functions[x.callee - 1].clobbersFlags)
  {
    hide KillsIn;
    CallsAppend(pr, nodes, [x], seq(FAMILIES, _ => NoPointer));
    OneNode(pr, x, seq(FAMILIES, _ => NoPointer));
  }

  lemma {:induction false} AnyLosesFlagsIs(pr: Problem, es: seq<Expr>)
    ensures AnyLosesFlags(pr, es) <==> KillsIn(pr, PostOrderAll(es))
    decreases es, 0
  {
    hide KillsIn;
    if es == [] {
      NoneKills(pr);
    } else {
      LosesFlagsIs(pr, es[0]);
      AnyLosesFlagsIs(pr, es[1..]);
      CallsAppend(pr, PostOrder(es[0]), PostOrderAll(es[1..]), seq(FAMILIES, _ => NoPointer));
    }
  }

  // ----- What a statement establishes -----

  /** The facts after a statement are those it generates and the former ones it does not kill. */
  ghost predicate TransfersAs(pr: Problem, id: Id, st: Live, after: Live)
    requires pr.Valid() && ValidId(pr.stmts, id) && |st.pointers| == FAMILIES
  {
    && after.pointers == TransferPointers(pr, id, st.pointers)
    && forall f :: f in AllFacts(pr) ==> (Has(after, f) <==> f in Gen(pr, id) || (Has(st, f) && f !in Kill(pr, id)))
  }

  lemma FactsOf(pr: Problem, f: Fact)
    requires f in AllFacts(pr)
    ensures f.Flag? ==> f in AllFlags()
  {
  }

  /** Of an instruction, what it generates and kills. */
  lemma InstructionSets(pr: Problem, id: Id, f: Fact)
    requires pr.Valid() && ValidId(pr.stmts, id) && pr.stmts[id - 1].kind == Instruction
    ensures var e := pr.effects[id - 1];
            && (f in Kill(pr, id) <==> (KillsFlags(pr, id) && f in AllFlags()) || (f.Flag? && f.bit in e.flagsUndefined))
            && (f in Gen(pr, id) <==> (f.Flag? && f.bit in e.flagsWritten) || (!IsBranch(pr.stmts[id - 1]) && f in e.operandWrites))
    ensures f in AllFlags() ==> f.Flag?
  {
    hide KillsFlags, CallWrites, PostOrderAll;
  }

  lemma InstructionFact(pr: Problem, id: Id, st: Live, f: Fact)
    requires pr.Valid() && RegisterFootprints(pr) && ValidId(pr.stmts, id) && |st.pointers| == FAMILIES && f in AllFacts(pr)
    requires pr.stmts[id - 1].kind == Instruction && RunInstruction(pr, id, st).Goes?
    ensures Has(RunInstruction(pr, id, st).live, f) <==> f in Gen(pr, id) || (Has(st, f) && f !in Kill(pr, id))
  {
    hide AllFacts, AllFlags, Gen, Kill, KillsFlags, CallWrites, KillsIn, PostOrderAll, AnyLosesFlags, AllNamesBound;
    var e := pr.effects[id - 1];
    assert e in pr.effects;
    FactsOf(pr, f);
    InstructionSets(pr, id, f);
    KillsIs(pr, id);
    if IsBranch(pr.stmts[id - 1]) {
      BranchKillsNone(pr, id);
    } else {
      AnyLosesFlagsIs(pr, e.expressions);
      assert f in e.operandWrites ==> f.Output?;
      assert AnyLosesFlags(pr, e.expressions) <==> KillsFlags(pr, id);
      match f
      case Flag(b) => assert f in AllFlags();
      case Local(_) => assert f !in Kill(pr, id) && f !in Gen(pr, id);
      case Output(_, _) => assert f !in Kill(pr, id);
    }
  }

  lemma InstructionTransfers(pr: Problem, id: Id, st: Live)
    requires pr.Valid() && RegisterFootprints(pr) && ValidId(pr.stmts, id) && |st.pointers| == FAMILIES
    requires pr.stmts[id - 1].kind == Instruction && RunInstruction(pr, id, st).Goes?
    ensures TransfersAs(pr, id, st, RunInstruction(pr, id, st).live)
  {
    hide AllFacts, Gen, Kill, AnyLosesFlags, AllNamesBound, Has;
    forall f | f in AllFacts(pr)
      ensures Has(RunInstruction(pr, id, st).live, f) <==> f in Gen(pr, id) || (Has(st, f) && f !in Kill(pr, id))
    {
      InstructionFact(pr, id, st, f);
    }
  }

  lemma KillsIs(pr: Problem, id: Id)
    requires pr.Valid() && ValidId(pr.stmts, id)
    ensures KillsFlags(pr, id) <==> KillsIn(pr, Visited(pr, id))
  {
  }

  lemma BranchKillsNone(pr: Problem, id: Id)
    requires pr.Valid() && ValidId(pr.stmts, id) && IsBranch(pr.stmts[id - 1])
    ensures !KillsFlags(pr, id)
  {
  }

  lemma StatementTransfers(pr: Problem, id: Id, st: Live)
    requires pr.Valid() && ValidId(pr.stmts, id) && |st.pointers| == FAMILIES
    requires pr.stmts[id - 1].kind != Instruction && Perform(pr, id, st).Goes?
    ensures TransfersAs(pr, id, st, Perform(pr, id, st).live)
  {
    hide AllFacts, CallWrites, KillsIn, PostOrderAll, Eval, EvalAll, AccessesReady, ReturnsWell, CallPointers, Gen, Kill;
    var e, after := pr.effects[id - 1], Perform(pr, id, st).live;
    EvaluatedList(pr, e.expressions, st);
    OutputsAre(pr, id);
    forall f | f in AllFacts(pr)
      ensures Has(after, f) <==> f in Gen(pr, id) || (Has(st, f) && f !in Kill(pr, id))
    {
      FactsOf(pr, f);
      GenKillAre(pr, id, f);
    }
  }

  /** Of a statement that is no instruction, what it generates and kills. */
  lemma GenKillAre(pr: Problem, id: Id, f: Fact)
    requires pr.Valid() && ValidId(pr.stmts, id) && pr.stmts[id - 1].kind != Instruction
    ensures f in Kill(pr, id) <==> KillsIn(pr, Visited(pr, id)) && f in AllFlags()
    ensures f in AllFlags() ==> f.Flag?
    ensures f in Gen(pr, id) <==>
            f in WritesIn(pr, Visited(pr, id)) ||
            (f.Local? && pr.stmts[id - 1].kind == Let && OwnLocal(pr, f.variable) && f.variable == pr.effects[id - 1].binds)
  {
    hide CallWrites, KillsIn, PostOrderAll, KillsFlags, OutputsWritten, WritesIn;
    KillsIs(pr, id);
    OutputsAre(pr, id);
  }

  lemma OutputsAre(pr: Problem, id: Id)
    requires pr.Valid() && ValidId(pr.stmts, id) && pr.stmts[id - 1].kind != Instruction
    ensures OutputsWritten(pr, id) == WritesIn(pr, Visited(pr, id))
    ensures forall f :: f in OutputsWritten(pr, id) ==> f.Output?
  {
  }

  lemma PerformTransfers(pr: Problem, id: Id, st: Live)
    requires pr.Valid() && RegisterFootprints(pr) && ValidId(pr.stmts, id) && |st.pointers| == FAMILIES && Perform(pr, id, st).Goes?
    ensures TransfersAs(pr, id, st, Perform(pr, id, st).live)
  {
    hide TransfersAs, RunInstruction, EvalAll, AccessesReady, ReturnsWell;
    if pr.stmts[id - 1].kind == Instruction {
      InstructionTransfers(pr, id, st);
    } else {
      StatementTransfers(pr, id, st);
    }
  }

  // ----- What a run has established -----

  lemma {:induction false} InputsAre(params: seq<Variable>, n: nat, r: nat)
    requires n <= |params| && r < FAMILIES
    ensures BindInputs(params, n)[r] == Otherwise(LastInput(params, n, r), NoPointer)
  {
    if n > 0 {
      InputsAre(params, n - 1, r);
    }
  }

  /** The state on arrival is what the definitions over paths say. */
  ghost predicate TracksPath(pr: Problem, path: seq<Id>, st: Live)
    requires pr.Valid() && forall k :: 0 <= k < |path| ==> ValidId(pr.stmts, path[k])
  {
    && st.pointers == PointersOn(pr, path)
    && forall f :: f in AllFacts(pr) ==> (Has(st, f) <==> Available(pr, path, f))
  }

  lemma StartTracks(pr: Problem, path: seq<Id>)
    requires pr.Valid() && |path| == 1 && ValidId(pr.stmts, path[0])
    ensures TracksPath(pr, path, Start(pr))
  {
    hide BitsOf, ReadBits, BindInputs, LastInput;
    forall r: nat | r < FAMILIES
      ensures EntryPointers(pr)[r] == Start(pr).pointers[r]
    {
      InputsAre(pr.Self().params, |pr.Self().params|, r);
    }
    forall f | f in AllFacts(pr)
      ensures Has(Start(pr), f) <==> Available(pr, path, f)
    {
      AvailableAtEntry(pr, path, f);
      StartFact(pr, f);
    }
  }

  lemma StartFact(pr: Problem, f: Fact)
    requires pr.Valid() && f in AllFacts(pr)
    ensures Has(Start(pr), f) <==> f in EntryFacts(pr, AllFacts(pr))
  {
    hide BitsOf, ReadBits, LastInput;
    forall v | v in pr.Self().params
      ensures BitsOf(v.reg) == ReadBits(v.reg)
    {
      SameBits(v.reg);
    }
  }

  lemma {:induction false} ArriveTracks(pr: Problem, path: seq<Id>)
    requires pr.Valid() && RegisterFootprints(pr) && |path| > 0 && forall k :: 0 <= k < |path| ==> ValidId(pr.stmts, path[k])
    requires Arrive(pr, path).Goes?
    ensures TracksPath(pr, path, Arrive(pr, path).live)
    decreases |path|
  {
    hide Perform, TransferPointers, Available, AllFacts, Start, TransfersAs;
    if |path| == 1 {
      StartTracks(pr, path);
    } else {
      var before, id := path[..|path| - 1], path[|path| - 2];
      ArriveTracks(pr, before);
      PerformTransfers(pr, id, Arrive(pr, before).live);
      TrackStep(pr, before, path[|path| - 1], Arrive(pr, before).live, Arrive(pr, path).live);
      assert before + [path[|path| - 1]] == path;
    }
  }

  lemma TrackStep(pr: Problem, path: seq<Id>, next: Id, st: Live, after: Live)
    requires pr.Valid() && |path| > 0 && ValidId(pr.stmts, next) && forall k :: 0 <= k < |path| ==> ValidId(pr.stmts, path[k])
    requires |st.pointers| == FAMILIES && TracksPath(pr, path, st) && TransfersAs(pr, path[|path| - 1], st, after)
    ensures TracksPath(pr, path + [next], after)
  {
    hide Available, AllFacts, TransferPointers, Gen, Kill;
    var longer := path + [next];
    assert longer[..|longer| - 1] == path;
    forall f | f in AllFacts(pr)
      ensures Has(after, f) <==> Available(pr, longer, f)
    {
      AvailableStep(pr, path, next, f);
    }
  }

  // ----- Verdicts about runs -----

  /** What the calls in x leave in register r in the end, if they change it. */
  function Retypes(pr: Problem, x: Expr, r: nat): Found
    decreases x, 0
  {
    match x
    case Unary(y) => Retypes(pr, y, r)
    case Binary(a, b) => if Retypes(pr, b, r).Is? then Retypes(pr, b, r) else Retypes(pr, a, r)
    case CallTo(f, args) =>
      if 1 <= f <= |pr.functions| && CallMakes(pr.functions[f - 1], r).Is? then CallMakes(pr.functions[f - 1], r)
      else RetypesAll(pr, args, r)
    case _ => Nothing
  }

  function RetypesAll(pr: Problem, es: seq<Expr>, r: nat): Found
    decreases es, 0
  {
    if es == [] then Nothing
    else if RetypesAll(pr, es[1..], r).Is? then RetypesAll(pr, es[1..], r) else Retypes(pr, es[0], r)
  }

  lemma {:induction false} Retyped(pr: Problem, x: Expr, st: Live, r: nat)
    requires |st.pointers| == FAMILIES && r < FAMILIES && Eval(pr, x, st).Goes?
    ensures Eval(pr, x, st).live.pointers[r] == Otherwise(Retypes(pr, x, r), st.pointers[r])
    decreases x, 0
  {
    hide CallMakes, OutputBits, MayRead;
    match x
    case Unary(y) => Retyped(pr, y, st, r);
    case Binary(a, b) =>
      Retyped(pr, a, st, r);
      Retyped(pr, b, Eval(pr, a, st).live, r);
    case CallTo(_, args) => AllRetyped(pr, args, st, r);
    case _ =>
  }

  lemma {:induction false} AllRetyped(pr: Problem, es: seq<Expr>, st: Live, r: nat)
    requires |st.pointers| == FAMILIES && r < FAMILIES && EvalAll(pr, es, st).Goes?
    ensures EvalAll(pr, es, st).live.pointers[r] == Otherwise(RetypesAll(pr, es, r), st.pointers[r])
    decreases es, 0
  {
    hide CallMakes;
    if es != [] {
      Retyped(pr, es[0], st, r);
      AllRetyped(pr, es[1..], Eval(pr, es[0], st).live, r);
    }
  }

  predicate IsDeclared(pr: Problem, v: Variable, p: Provenance) {
    v.pointer.Pointer? && p.Pointer? && SameType(pr.types, v.pointer.ptype, p.ptype, 0)
  }

  /** A return whose calls leave the declared pointers among the outputs alone, or as they must be. */
  predicate Quiet(pr: Problem, id: Id)
    requires pr.Valid() && ValidId(pr.stmts, id)
  {
    pr.stmts[id - 1].kind == Return ==>
      forall v :: v in pr.Self().params && ByOutput(v) && v.pointer.Pointer? && 0 <= v.reg.family < 16 ==>
        match RetypesAll(pr, pr.effects[id - 1].expressions, v.reg.family) case Nothing => true case Is(p) => IsDeclared(pr, v, p)
  }

  lemma AccessesSame(pr: Problem, id: Id, ps: Pointers)
    requires pr.Valid() && ValidId(pr.stmts, id) && |ps| == FAMILIES
    ensures AccessesReady(pr, id, ps) <==> AccessesFit(pr, id, ps)
  {
    hide PointsTo, Admits;
    forall a | a in pr.effects[id - 1].accesses
      ensures a.base < FAMILIES && PointsTo(pr.types, ps[a.base], a.annotation) <==> AccessFits(pr.types, ps, a)
    {
      if a.base < FAMILIES {
        PointsSame(pr.types, ps[a.base], a.annotation);
      }
    }
  }

  lemma PointsSame(types: seq<Type>, p: Provenance, annotation: nat)
    ensures PointsTo(types, p, annotation) <==> Admits(types, p, annotation)
  {
    hide SameType;
  }

  /** Before a statement that passes its checks, every node has what is asked for. */
  lemma NodesAsked(pr: Problem, id: Id, st: Live, x: Expr)
    requires pr.Valid() && ValidId(pr.stmts, id) && pr.stmts[id - 1].kind != Instruction
    requires forall f :: f in Needs(pr, id) ==> Has(st, f)
    requires x in Visited(pr, id)
    ensures AskedFor(pr, x, st)
  {
    hide ReadBits, PostOrderAll, ReturnNeeds, FlagsNeeded;
    if IsLocal(pr, Referenced(x)) {
      assert Local(Referenced(x)) in LocalsNeeded(pr, id);
      assert Has(st, Local(Referenced(x)));
    }
    forall f | f in LeafReads(pr, x)
      ensures f in st.written
    {
      LeafBits(pr, x, f);
      assert f in OutputsNeeded(pr, id);
      assert Has(st, f);
    }
  }

  lemma LeafBits(pr: Problem, x: Expr, f: Fact)
    requires f in LeafReads(pr, x)
    ensures f.Output?
  {
  }

  lemma PassingInstructionGoes(pr: Problem, id: Id, st: Live)
    requires pr.Valid() && RegisterFootprints(pr) && ValidId(pr.stmts, id) && |st.pointers| == FAMILIES
    requires pr.stmts[id - 1].kind == Instruction && forall f :: f in Needs(pr, id) ==> Has(st, f)
    ensures RunInstruction(pr, id, st).Goes?
  {
    hide AnyLosesFlags, AllNamesBound, PostOrderAll, ReturnNeeds;
    var e := pr.effects[id - 1];
    assert e in pr.effects;
    forall b | b in e.flagsRead
      ensures b in st.flags
    {
      assert Flag(b) in FlagsNeeded(pr, id);
      assert Has(st, Flag(b));
    }
    if !IsBranch(pr.stmts[id - 1]) {
      forall f | f in e.operandReads
        ensures f in st.written
      {
        assert f.Output? && f in OutputsNeeded(pr, id) && Has(st, f);
      }
      OperandsNamed(pr, id, st);
    }
  }

  lemma OperandsNamed(pr: Problem, id: Id, st: Live)
    requires pr.Valid() && ValidId(pr.stmts, id) && !IsBranch(pr.stmts[id - 1])
    requires forall f :: f in Needs(pr, id) ==> Has(st, f)
    ensures AllNamesBound(pr, pr.effects[id - 1].expressions, st)
  {
    hide PostOrderAll, AllNamesBound, NamesAll, ReturnNeeds, FlagsNeeded, OutputsNeeded;
    var es := pr.effects[id - 1].expressions;
    forall v | v in NamesAll(pr, es)
      ensures v in st.bound
    {
      AllNamesAreReferenced(pr, es, v);
      var y :| y in PostOrderAll(es) && Referenced(y) == v;
      assert Local(v) in LocalsNeeded(pr, id);
      assert Has(st, Local(v));
    }
    AllNamesBoundIs(pr, es, st);
  }

  /** A statement that passes its checks goes through, short of returns whose calls retype outputs. */
  lemma PassingGoes(pr: Problem, id: Id, st: Live)
    requires pr.Valid() && RegisterFootprints(pr) && ValidId(pr.stmts, id) && |st.pointers| == FAMILIES
    requires (forall f :: f in Needs(pr, id) ==> Has(st, f)) && AccessesFit(pr, id, st.pointers)
    requires pr.stmts[id - 1].kind == Return ==> KeepsPointers(pr, st.pointers) && !pr.Self().never
    ensures Perform(pr, id, st).Goes? <==> Quiet(pr, id)
  {
    hide AccessesReady, AccessesFit, RunInstruction, EvalAll, Needs, Quiet, ReturnsWell, KeepsPointers, PostOrderAll;
    AccessesSame(pr, id, st.pointers);
    if pr.stmts[id - 1].kind == Instruction {
      PassingInstructionGoes(pr, id, st);
      QuietElsewhere(pr, id);
    } else {
      var es := pr.effects[id - 1].expressions;
      forall x | x in PostOrderAll(es)
        ensures AskedFor(pr, x, st)
      {
        NodesAsked(pr, id, st, x);
      }
      AllAskedIsEnough(pr, es, st);
      ListGoesExactly(pr, es, st);
      if pr.stmts[id - 1].kind == Return {
        ReturnGoes(pr, id, st);
      } else {
        QuietElsewhere(pr, id);
      }
    }
  }

  lemma QuietElsewhere(pr: Problem, id: Id)
    requires pr.Valid() && ValidId(pr.stmts, id) && pr.stmts[id - 1].kind != Return
    ensures Quiet(pr, id)
  {
  }

  lemma ReturnGoes(pr: Problem, id: Id, st: Live)
    requires pr.Valid() && ValidId(pr.stmts, id) && |st.pointers| == FAMILIES && pr.stmts[id - 1].kind == Return
    requires EvalAll(pr, pr.effects[id - 1].expressions, st).Goes? && KeepsPointers(pr, st.pointers) && !pr.Self().never
    requires forall f :: f in Needs(pr, id) ==> Has(st, f)
    ensures ReturnsWell(pr, EvalAll(pr, pr.effects[id - 1].expressions, st).live) <==> Quiet(pr, id)
  {
    hide SameType, EvalAll, RetypesAll, Needs, OutputBits;
    var es := pr.effects[id - 1].expressions;
    var after := EvalAll(pr, es, st).live;
    OutputsThere(pr, id, st);
    ListGoesExactly(pr, es, st);
    forall r: nat | r < FAMILIES
      ensures after.pointers[r] == Otherwise(RetypesAll(pr, es, r), st.pointers[r])
    {
      AllRetyped(pr, es, st, r);
    }
  }

  lemma OutputsThere(pr: Problem, id: Id, st: Live)
    requires pr.Valid() && ValidId(pr.stmts, id) && pr.stmts[id - 1].kind == Return
    requires forall f :: f in Needs(pr, id) ==> Has(st, f)
    ensures OutputBits(pr.Self().params) <= st.written
  {
    hide ReadBits, LocalsNeeded, OutputsNeeded, FlagsNeeded;
    SameOutputBits(pr.Self().params);
    forall f | f in OutputBits(pr.Self().params)
      ensures f in st.written
    {
      assert f in ReturnNeeds(pr, id);
      assert Has(st, f);
      OutputBitIs(pr, f);
    }
  }

  lemma OutputBitIs(pr: Problem, f: Fact)
    requires pr.Valid() && f in OutputBits(pr.Self().params)
    ensures f.Output?
  {
  }

  lemma LastGoes(pr: Problem, path: seq<Id>, st: Live)
    requires pr.Valid() && InRange(pr) && RegisterFootprints(pr) && |path| > 0 && forall k :: 0 <= k < |path| ==> ValidId(pr.stmts, path[k])
    requires |st.pointers| == FAMILIES && TracksPath(pr, path, st)
    requires var id := path[|path| - 1];
             && (forall f :: f in Needs(pr, id) ==> Available(pr, path, f))
             && AccessesFit(pr, id, PointersOn(pr, path))
             && (pr.stmts[id - 1].kind == Return ==> KeepsPointers(pr, PointersOn(pr, path)) && !pr.Self().never)
    ensures Perform(pr, path[|path| - 1], st).Goes? <==> Quiet(pr, path[|path| - 1])
  {
    hide Needs, Available, AccessesFit, PointersOn, KeepsPointers, Perform, Quiet, AllFacts, Has;
    PassingGoes(pr, path[|path| - 1], st);
  }

  /** An execution goes through if every statement of it does, its last one included. */
  ghost predicate NeverFaults(pr: Problem, run: seq<Config>)
    requires pr.Valid()
  {
    Execution(pr.stmts, pr.body, run) ==>
      (forall k :: 0 <= k < |run| ==> ValidId(pr.stmts, Ids(run)[k])) && Runs(pr, Ids(run))
  }

  ghost predicate EndsQuietly(pr: Problem, run: seq<Config>)
    requires pr.Valid()
  {
    Execution(pr.stmts, pr.body, run) ==> ValidId(pr.stmts, Dest(run[|run| - 1])) && Quiet(pr, Dest(run[|run| - 1]))
  }

  lemma PrefixRuns(pr: Problem, run: seq<Config>)
    requires Execution(pr.stmts, pr.body, run) && |run| > 1
    ensures Execution(pr.stmts, pr.body, run[..|run| - 1]) && Ids(run[..|run| - 1]) == Ids(run)[..|run| - 1]
  {
  }

  /** Nothing follows a return. */
  lemma NoReturnBefore(pr: Problem, run: seq<Config>)
    requires Execution(pr.stmts, pr.body, run) && |run| > 1
    ensures ValidId(pr.stmts, Dest(run[|run| - 2])) && pr.stmts[Dest(run[|run| - 2]) - 1].kind != Return
  {
    assert Cfg.Step(pr.stmts, pr.body, run[|run| - 2], run[|run| - 2 + 1]);
  }

  lemma {:induction false} SafeRunGoes(pr: Problem, run: seq<Config>)
    requires pr.Valid() && InRange(pr) && RegisterFootprints(pr) && Safe(pr) && Execution(pr.stmts, pr.body, run)
    ensures forall k :: 0 <= k < |run| ==> ValidId(pr.stmts, Ids(run)[k])
    ensures Arrive(pr, Ids(run)).Goes?
    ensures Perform(pr, Ids(run)[|run| - 1], Arrive(pr, Ids(run)).live).Goes? <==> Quiet(pr, Ids(run)[|run| - 1])
    decreases |run|
  {
    hide Perform, Quiet, Start, TracksPath, PointersOn, Available, Execution, Needs, AccessesFit, KeepsPointers, InRange, RegisterFootprints;
    SafeOnRun(pr, run);
    var path, n := Ids(run), |run| - 1;
    if n > 0 {
      PrefixRuns(pr, run);
      SafeRunGoes(pr, run[..n]);
      NoReturnBefore(pr, run);
      QuietElsewhere(pr, path[n - 1]);
      assert path[..n][n - 1] == path[n - 1];
    }
    ArriveTracks(pr, path);
    LastGoes(pr, path, Arrive(pr, path).live);
  }

  lemma SafeOnRun(pr: Problem, run: seq<Config>)
    requires pr.Valid() && Safe(pr) && Execution(pr.stmts, pr.body, run)
    ensures |run| > 0 && SafeAt(pr, run) && forall k :: 0 <= k < |run| ==> ValidId(pr.stmts, Ids(run)[k])
  {
  }

  /** What the verdict of the verifier promises of runs: in a safe function no statement of any
      execution faults, exactly if every return that is reached is quiet. */
  lemma SafeRunsExactly(pr: Problem)
    requires pr.Valid() && InRange(pr) && RegisterFootprints(pr) && Safe(pr)
    ensures (forall run :: NeverFaults(pr, run)) <==> (forall run :: EndsQuietly(pr, run))
  {
    hide Perform, Quiet, Execution, InRange, RegisterFootprints, Safe, Arrive;
    forall run
      ensures NeverFaults(pr, run) <==> EndsQuietly(pr, run)
    {
      if Execution(pr.stmts, pr.body, run) {
        SafeRunGoes(pr, run);
        NotEmpty(pr, run);
      }
    }
  }

  lemma NotEmpty(pr: Problem, run: seq<Config>)
    requires Execution(pr.stmts, pr.body, run)
    ensures |run| > 0
  {
  }

  /** Refusals for flags and locals name a run that faults, before the statement or at it. */
  lemma LackingFaults(pr: Problem, run: seq<Config>, id: Id)
    requires pr.Valid() && InRange(pr) && RegisterFootprints(pr) && ValidId(pr.stmts, id)
    requires Lacks(pr, run, id, FlagsNeeded(pr, id)) || Lacks(pr, run, id, LocalsNeeded(pr, id))
    ensures !NeverFaults(pr, run)
  {
    hide Available, AllFacts, TransferPointers, PointersOn, Start, Execution, EvalAll, AllNamesBound, AccessesReady;
    var path := Ids(run);
    NotEmpty(pr, run);
    if Arrive(pr, path).Goes? {
      var st := Arrive(pr, path).live;
      ArriveTracks(pr, path);
      assert path[|path| - 1] == id;
      var f :| (f in FlagsNeeded(pr, id) || f in LocalsNeeded(pr, id)) && !Available(pr, path, f);
      assert f in Needs(pr, id) && Needs(pr, id) <= AllFacts(pr);
      assert !Has(st, f);
      MissingFaults(pr, id, st, f);
    }
  }

  lemma MissingFaults(pr: Problem, id: Id, st: Live, f: Fact)
    requires pr.Valid() && ValidId(pr.stmts, id) && |st.pointers| == FAMILIES && !Has(st, f)
    requires f in FlagsNeeded(pr, id) || f in LocalsNeeded(pr, id)
    ensures Perform(pr, id, st).Fault?
  {
    hide EvalAll, AllNamesBound, AccessesReady, PostOrderAll, NamesAll;
    var es := pr.effects[id - 1].expressions;
    if f in LocalsNeeded(pr, id) {
      var x :| x in Visited(pr, id) && IsLocal(pr, Referenced(x)) && f == Local(Referenced(x));
      AllNamesAreReferenced(pr, es, Referenced(x));
      AllNamesBoundIs(pr, es, st);
      ListGoesExactly(pr, es, st);
    }
  }
}
