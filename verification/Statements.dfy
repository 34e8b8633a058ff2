/** Statements and whole functions: lets, calls, ifs and returns compiled around expressions mean
    what the source says, and a compiled function keeps its contract with the caller. */
module Statements {
  import opened Words
  import opened X86
  import opened Codegen
  import opened Operations
  import opened Simulation
  import opened Calls
  import opened ExpressionProof
  import opened Frames
  import opened Abi

  datatype Stmt =
    | Let(slot: nat, value: Expr)
    | Do(value: Expr)
    | If(cond: Expr, thenBlock: seq<Stmt>, elseBlock: seq<Stmt>)
    | Return(value: Expr)

  // ----- Source meaning -----

  datatype State = State(live: Live, vars: seq<nat>)
  datatype Outcome = Next(state: State) | Exit(value: int, state: State) | Trap(trace: seq<Event>)

  ghost predicate StateOk(st: State, locals: nat) {
    LiveOk(st.live) && |st.vars| == locals && forall k :: 0 <= k < |st.vars| ==> st.vars[k] < W
  }

  function AssignLocal(st: State, live: Live, k: nat, v: int): State {
    State(live, if k < |st.vars| then st.vars[k := Rep(v)] else st.vars)
  }

  /** A register read in an expression reads the register before the statement. */
  function ExecStmt(env: Env, s: Stmt, st: State): (o: Outcome)
    requires |st.live.regs| == REGS
    ensures o.Next? || o.Exit? ==> |o.state.live.regs| == REGS
    decreases s
  {
    var r := Eval(env, if s.If? then s.cond else s.value, st.live.regs, st.vars, st.live);
    match s
    case Let(k, _) => LetOutcome(r, st, k)
    case Do(_) => DoOutcome(r, st)
    case If(_, a, b) =>
      (match r
       case Fault(tr) => Trap(tr)
       case Done(v, live) => ExecBlock(env, if v != 0 then a else b, State(live, st.vars)))
    case Return(_) => ReturnOutcome(r, st)
  }

  function LetOutcome(r: Result, st: State, k: nat): Outcome {
    match r case Fault(tr) => Trap(tr) case Done(v, live) => Next(AssignLocal(st, live, k, v))
  }

  function DoOutcome(r: Result, st: State): Outcome
    requires r.Done? ==> |r.live.regs| == REGS
  {
    match r
    case Fault(tr) => Trap(tr)
    case Done(v, live) => Next(State(live.(regs := live.regs[RAX := Rep(v)]), st.vars))
  }

  function ReturnOutcome(r: Result, st: State): Outcome {
    match r case Fault(tr) => Trap(tr) case Done(v, live) => Exit(v, State(live, st.vars))
  }

  function ExecBlock(env: Env, block: seq<Stmt>, st: State): (o: Outcome)
    requires |st.live.regs| == REGS
    ensures o.Next? || o.Exit? ==> |o.state.live.regs| == REGS
    decreases block
  {
    if block == [] then Next(st)
    else match ExecStmt(env, block[0], st)
      case Next(st') => ExecBlock(env, block[1..], st')
      case o => o
  }

  // ----- Emitted code -----

  /** rax and the flags get their kept values at the head of each branch. */
  function ResumeCode(lay: Layout): seq<Instr> {
    [Load(Register(RAX, B64, false), RBP, lay.RegisterSlot(RAX, true)), PushSlot(RBP, lay.FlagsSlot(true)), Popfq]
  }

  function BranchCode(lay: Layout, a: seq<Instr>, b: seq<Instr>): seq<Instr> {
    Conditional(ResumeCode(lay) + a, ResumeCode(lay) + b)
  }

  function StmtCode(callees: seq<Callee>, lay: Layout, epilogue: seq<Instr>, s: Stmt): seq<Instr>
    decreases s
  {
    match s
    case Let(k, e) => LetCode(callees, lay, k, e)
    case Do(e) => ExpressionCode(callees, lay, e)
    case If(e, a, b) =>
      ExpressionCode(callees, lay, e) +
      BranchCode(lay, BlockCode(callees, lay, epilogue, a), BlockCode(callees, lay, epilogue, b))
    case Return(e) => ExpressionCode(callees, lay, e) + epilogue
  }

  function BlockCode(callees: seq<Callee>, lay: Layout, epilogue: seq<Instr>, block: seq<Stmt>): seq<Instr>
    decreases block
  {
    if block == [] then []
    else StmtCode(callees, lay, epilogue, block[0]) + BlockCode(callees, lay, epilogue, block[1..])
  }

  // ----- Requirements -----

  function StmtDepth(s: Stmt): nat
    decreases s
  {
    match s
    case If(e, a, b) => Max(Depth(e), Max(BlockDepth(a), BlockDepth(b)))
    case _ => Depth(s.value)
  }

  function BlockDepth(block: seq<Stmt>): nat
    decreases block
  {
    if block == [] then 0 else Max(StmtDepth(block[0]), BlockDepth(block[1..]))
  }

  /** The spill levels that the code reaches. */
  function StmtSpills(s: Stmt): (n: nat)
    ensures n <= StmtDepth(s)
    decreases s
  {
    match s
    case If(e, a, b) => Max(Spills(e), Max(BlockSpills(a), BlockSpills(b)))
    case _ => Spills(s.value)
  }

  function BlockSpills(block: seq<Stmt>): (n: nat)
    ensures n <= BlockDepth(block)
    decreases block
  {
    if block == [] then 0 else Max(StmtSpills(block[0]), BlockSpills(block[1..]))
  }

  function StmtCalls(s: Stmt): nat
    decreases s
  {
    match s
    case If(e, a, b) => Max(CallDepth(e), Max(BlockCalls(a), BlockCalls(b)))
    case _ => CallDepth(s.value)
  }

  function BlockCalls(block: seq<Stmt>): nat
    decreases block
  {
    if block == [] then 0 else Max(StmtCalls(block[0]), BlockCalls(block[1..]))
  }

  ghost predicate StmtOk(x: Context, s: Stmt)
    decreases s
  {
    match s
    case Let(k, e) => k < x.lay.locals && Compilable(x, e)
    case If(e, a, b) => Compilable(x, e) && BlockOk(x, a) && BlockOk(x, b)
    case _ => Compilable(x, s.value)
  }

  ghost predicate BlockOk(x: Context, block: seq<Stmt>)
    decreases block
  {
    block == [] || (StmtOk(x, block[0]) && BlockOk(x, block[1..]))
  }

  // ----- Simulation -----

  /** The context for the expressions evaluated in state st. */
  function Now(x: Context, st: State): Context {
    x.(snap := st.live.regs, vars := st.vars)
  }

  /** The machine is between two statements and agrees with the source state. */
  ghost predicate Between(x: Context, st: State, m: Machine) {
    && StateOk(st, x.lay.locals) && Ready(Now(x, st), m)
    && m.regs == st.live.regs && m.flags == st.live.flags && m.trace == st.live.trace
  }

  ghost predicate SameCaller(x: Context, mem: Memory, mem': Memory) {
    forall a: int :: a >= x.rbp ==> Read(mem', a) == Read(mem, a)
  }

  /** The frame of function f, entered in state entry. */
  ghost predicate InFunction(x: Context, f: Callee, entry: Machine, mem: Memory) {
    && Ok(entry) && entry.regs[RSP] == x.rbp + 112 + FlagBytes(f) && entry.regs[RSP] + 8 < W
    && OutputsDeclared(f) && SavedArea(f, entry, x.rbp, mem)
  }

  /** What the caller gets from a function whose body ended with this value and these registers. */
  function HandedOver(f: Callee, v: int, live: Live): Behaviour
    requires |live.regs| == REGS
  {
    Behaviour(seq(REGS, r requires 0 <= r < REGS => HandedReg(f, live.regs[RAX := Rep(v)][r], r)), live.flags, map[])
  }

  ghost predicate CallerSees(f: Callee, entry: Machine, v: int, live: Live, m': Machine)
    requires Ok(entry)
  {
    && |live.regs| == REGS && Ok(m') && m'.returned && m'.trace == live.trace
    && m'.regs[RSP] == entry.regs[RSP] + 8 && m'.regs[RBP] == entry.regs[RBP]
    && (forall r :: 0 <= r < REGS && r != RSP && r != RBP ==>
          m'.regs[r] == AfterCall(f, HandedOver(f, v, live), r, entry.regs[r]))
    && m'.flags == (if f.clobbersFlags then live.flags else entry.flags)
  }

  ghost predicate Carries(x: Context, f: Callee, entry: Machine, code: seq<Instr>, m: Machine, o: Outcome) {
    && Ok(m) && Ok(entry) && Block(code)
    && var m' := Run(x.env, code, m);
       match o
       case Trap(tr) => m'.stopped && !m'.returned && m'.trace == tr
       case Next(st) => Between(x, st, m') && SameCaller(x, m.mem, m'.mem)
       case Exit(v, st) =>
         CallerSees(f, entry, v, st.live, m') &&
         forall a: int :: a >= entry.regs[RSP] ==> Read(m'.mem, a) == Read(m.mem, a)
  }

  /** Whole expressions from the state between two statements. */
  lemma ExpressionIn(x: Context, e: Expr, st: State, m: Machine)
    requires Between(x, st, m) && Compilable(x, e) && Spills(e) <= x.lay.depth && CallDepth(e) <= x.lay.calls
    ensures ExpressionRuns(Now(x, st), ExpressionCode(x.env.callees, x.lay, e), e, m)
    ensures Started(m) == st.live
  {
    SameTrees(x, Now(x, st), e);
    assert Compilable(Now(x, st), e);
    ExpressionCorrect(Now(x, st), e, m);
  }

  // ----- What an expression leaves alone -----

  /** Some function called in e clobbers or outputs register r. */
  predicate Touches(callees: seq<Callee>, e: Expr, r: nat)
    decreases e, 0
  {
    match e
    case Unary(_, y, _) => Touches(callees, y, r)
    case Binary(_, a, b, _) => Touches(callees, a, r) || Touches(callees, b, r)
    case CallTo(f, args, _) =>
      TouchesAny(callees, args, r) || (r != RSP && r != RBP && f < |callees| && Changes(callees[f], r))
    case _ => false
  }

  predicate TouchesAny(callees: seq<Callee>, es: seq<Expr>, r: nat)
    decreases es, 0
  {
    es != [] && (Touches(callees, es[0], r) || TouchesAny(callees, es[1..], r))
  }

  /** A register that no called function clobbers or outputs is the same after the expression. */
  lemma {:induction false} EvalKeeps(env: Env, e: Expr, snap: seq<nat>, vars: seq<nat>, live: Live, r: nat)
    requires |snap| == REGS && LiveOk(live) && r < REGS && !Touches(env.callees, e, r)
    ensures var o := Eval(env, e, snap, vars, live); o.Done? ==> LiveOk(o.live) && o.live.regs[r] == live.regs[r]
    decreases e, 0
  {
    match e
    case Unary(_, y, _) => EvalKeeps(env, y, snap, vars, live, r);
    case Binary(_, a, b, _) =>
      EvalKeeps(env, a, snap, vars, live, r);
      var o := Eval(env, a, snap, vars, live);
      if o.Done? {
        EvalKeeps(env, b, snap, vars, o.live, r);
      }
    case CallTo(f, args, _) => EvalAllKeeps(env, args, snap, vars, live, r);
    case _ =>
  }

  lemma {:induction false} EvalAllKeeps(env: Env, es: seq<Expr>, snap: seq<nat>, vars: seq<nat>, live: Live, r: nat)
    requires |snap| == REGS && LiveOk(live) && r < REGS && !TouchesAny(env.callees, es, r)
    ensures var o := EvalAll(env, es, snap, vars, live); o.All? ==> LiveOk(o.live) && o.live.regs[r] == live.regs[r]
    decreases es, 0
  {
    if es != [] {
      EvalKeeps(env, es[0], snap, vars, live, r);
      var o := Eval(env, es[0], snap, vars, live);
      if o.Done? {
        EvalAllKeeps(env, es[1..], snap, vars, o.live, r);
      }
    }
  }

  lemma {:induction false} NeverTouched(callees: seq<Callee>, e: Expr, r: nat)
    requires r == RSP || r == RBP
    ensures !Touches(callees, e, r)
    decreases e, 0
  {
    match e
    case Unary(_, y, _) => NeverTouched(callees, y, r);
    case Binary(_, a, b, _) =>
      NeverTouched(callees, a, r);
      NeverTouched(callees, b, r);
    case CallTo(_, args, _) => NoneTouched(callees, args, r);
    case _ =>
  }

  lemma {:induction false} NoneTouched(callees: seq<Callee>, es: seq<Expr>, r: nat)
    requires r == RSP || r == RBP
    ensures !TouchesAny(callees, es, r)
    decreases es, 0
  {
    if es != [] {
      NeverTouched(callees, es[0], r);
      NoneTouched(callees, es[1..], r);
    }
  }

  /** The frame registers of the source state are the machine's. */
  lemma FrameRegistersKept(x: Context, e: Expr, st: State, m: Machine, v: int, live: Live)
    requires Between(x, st, m) && Eval(x.env, e, st.live.regs, st.vars, st.live) == Done(v, live)
    ensures LiveOk(live) && live.regs[RSP] == m.regs[RSP] && live.regs[RBP] == m.regs[RBP]
  {
    NeverTouched(x.env.callees, e, RSP);
    NeverTouched(x.env.callees, e, RBP);
    EvalKeeps(x.env, e, st.live.regs, st.vars, st.live, RSP);
    EvalKeeps(x.env, e, st.live.regs, st.vars, st.live, RBP);
  }

  // ----- Let and call statements -----

  function LetTail(lay: Layout, k: nat): seq<Instr> {
    [Store(RBP, lay.LocalSlot(k), RAX), Load(Register(RAX, B64, false), RBP, lay.RegisterSlot(RAX, true))]
  }

  lemma LetTailRuns(x: Context, st: State, m: Machine, m1: Machine, v: int, live: Live, k: nat)
    requires Between(x, st, m) && Evaluated(Now(x, st), m, m1, v, live) && k < x.lay.locals
    ensures Block(LetTail(x.lay, k))
    ensures var m' := Run(x.env, LetTail(x.lay, k), m1);
            && Ok(m') && !m'.stopped && m'.flags == live.flags && m'.trace == live.trace
            && m'.mem == m1.mem[x.rbp + x.lay.LocalSlot(k) := Value(Rep(v))]
            && (forall r :: 0 <= r < REGS && r != RSP && r != RBP ==> m'.regs[r] == live.regs[r])
            && m'.regs[RSP] == m.regs[RSP] && m'.regs[RBP] == m.regs[RBP]
  {
    hide SameAbove;
    var store, load := LetTail(x.lay, k)[0], LetTail(x.lay, k)[1];
    var m2 := Exec(x.env, store, m1);
    assert m2 == m1.(mem := m1.mem[x.rbp + x.lay.LocalSlot(k) := Value(Rep(v))]);
    assert Read(m2.mem, KeepAt(Now(x, st), RAX)) == Value(live.regs[RAX]);
    RunTwo(x.env, store, load, m1);
  }

  lemma TrapThen(x: Context, f: Callee, entry: Machine, first: seq<Instr>, rest: seq<Instr>, m: Machine, tr: seq<Event>)
    requires Carries(x, f, entry, first, m, Trap(tr)) && Block(rest)
    ensures Carries(x, f, entry, first + rest, m, Trap(tr))
  {
    BlockAppend(first, rest);
    RunAppend(x.env, first, rest, m);
  }

  lemma ExitThen(x: Context, f: Callee, entry: Machine, first: seq<Instr>, rest: seq<Instr>, m: Machine, v: int, st: State)
    requires Carries(x, f, entry, first, m, Exit(v, st)) && Block(rest)
    ensures Carries(x, f, entry, first + rest, m, Exit(v, st))
  {
    BlockAppend(first, rest);
    RunAppend(x.env, first, rest, m);
  }

  lemma NextThen(x: Context, f: Callee, entry: Machine, first: seq<Instr>, rest: seq<Instr>, m: Machine, m1: Machine, o: Outcome)
    requires Ok(m) && Block(first) && m1 == Run(x.env, first, m) && SameCaller(x, m.mem, m1.mem)
    requires Carries(x, f, entry, rest, m1, o) && entry.regs[RSP] >= x.rbp
    ensures Carries(x, f, entry, first + rest, m, o)
  {
    BlockAppend(first, rest);
    RunAppend(x.env, first, rest, m);
  }

  lemma AboveIsCaller(x: Context, mem: Memory, mem': Memory)
    requires SameAbove(x, mem, mem')
    ensures SameCaller(x, mem, mem')
  {
  }

  /** The state after a let: the local has the value and nothing else differs from live. */
  lemma LetBetween(x: Context, st: State, m: Machine, m1: Machine, m2: Machine, v: int, live: Live, k: nat)
    requires Between(x, st, m) && Evaluated(Now(x, st), m, m1, v, live) && k < x.lay.locals
    requires live.regs[RSP] == m.regs[RSP] && live.regs[RBP] == m.regs[RBP]
    requires Ok(m2) && !m2.stopped && m2.flags == live.flags && m2.trace == live.trace
    requires m2.mem == m1.mem[x.rbp + x.lay.LocalSlot(k) := Value(Rep(v))]
    requires forall r :: 0 <= r < REGS && r != RSP && r != RBP ==> m2.regs[r] == live.regs[r]
    requires m2.regs[RSP] == m.regs[RSP] && m2.regs[RBP] == m.regs[RBP]
    ensures Between(x, AssignLocal(st, live, k, v), m2) && SameCaller(x, m.mem, m2.mem)
  {
    assert m2.regs == live.regs;
    var st' := AssignLocal(st, live, k, v);
    forall j | 0 <= j < |st'.vars|
      ensures Number(Read(m2.mem, LocalAt(Now(x, st'), j))) == st'.vars[j]
    {
      var at := LocalAt(Now(x, st), j);
      assert Number(Read(m.mem, at)) == st.vars[j];
      assert x.rbp - at <= x.lay.SnapshotBase() - 8;
      assert at == x.rbp + x.lay.LocalSlot(k) <==> j == k;
    }
  }

  /** Code that has just evaluated the expression of a statement. */
  ghost predicate Ends(x: Context, code: seq<Instr>, st: State, m: Machine, r: Result) {
    && Ok(m) && Block(code)
    && var m' := Run(x.env, code, m);
       match r
       case Fault(tr) => m'.stopped && !m'.returned && m'.trace == tr
       case Done(v, live) =>
         LiveOk(live) && Evaluated(Now(x, st), m, m', v, live) &&
         live.regs[RSP] == m.regs[RSP] && live.regs[RBP] == m.regs[RBP]
  }

  predicate Typed(e: Expr, r: Result) {
    r.Done? ==> InRange(TypeOf(e), r.value)
  }

  lemma ExpressionEnds(x: Context, e: Expr, st: State, m: Machine)
    requires Between(x, st, m) && Compilable(x, e) && Spills(e) <= x.lay.depth && CallDepth(e) <= x.lay.calls
    ensures Ends(x, ExpressionCode(x.env.callees, x.lay, e), st, m, Eval(x.env, e, st.live.regs, st.vars, st.live))
    ensures Typed(e, Eval(x.env, e, st.live.regs, st.vars, st.live))
  {
    ExpressionIn(x, e, st, m);
    match Eval(x.env, e, st.live.regs, st.vars, st.live)
    case Fault(_) =>
    case Done(v, live) => FrameRegistersKept(x, e, st, m, v, live);
  }

  lemma LetEnds(x: Context, f: Callee, entry: Machine, k: nat, code: seq<Instr>, st: State, m: Machine, r: Result)
    requires Between(x, st, m) && Ok(entry) && k < x.lay.locals && Ends(x, code, st, m, r)
    ensures Carries(x, f, entry, code + LetTail(x.lay, k), m, LetOutcome(r, st, k))
  {
    var tail := LetTail(x.lay, k);
    BlockAppend(code, tail);
    RunAppend(x.env, code, tail, m);
    match r
    case Fault(_) =>
    case Done(v, live) =>
      var m1 := Run(x.env, code, m);
      LetTailRuns(x, st, m, m1, v, live, k);
      LetBetween(x, st, m, m1, Run(x.env, tail, m1), v, live, k);
  }

  lemma LetCarries(x: Context, f: Callee, entry: Machine, k: nat, e: Expr, st: State, m: Machine)
    requires Between(x, st, m) && Ok(entry) && k < x.lay.locals && Compilable(x, e)
    requires Spills(e) <= x.lay.depth && CallDepth(e) <= x.lay.calls
    ensures Carries(x, f, entry, LetCode(x.env.callees, x.lay, k, e), m, ExecStmt(x.env, Let(k, e), st))
  {
    ExpressionEnds(x, e, st, m);
    LetEnds(x, f, entry, k, ExpressionCode(x.env.callees, x.lay, e), st, m,
            Eval(x.env, e, st.live.regs, st.vars, st.live));
  }

  lemma DoBetween(x: Context, st: State, m: Machine, m1: Machine, v: int, live: Live)
    requires Between(x, st, m) && Evaluated(Now(x, st), m, m1, v, live)
    requires live.regs[RSP] == m.regs[RSP] && live.regs[RBP] == m.regs[RBP]
    ensures var st' := State(live.(regs := live.regs[RAX := Rep(v)]), st.vars);
            Between(x, st', m1) && SameCaller(x, m.mem, m1.mem)
  {
    assert m1.regs == live.regs[RAX := Rep(v)];
    forall j | 0 <= j < |st.vars|
      ensures Number(Read(m1.mem, LocalAt(Now(x, st), j))) == st.vars[j]
    {
      assert x.rbp - LocalAt(Now(x, st), j) <= x.lay.SnapshotBase() - 8;
    }
  }

  lemma DoEnds(x: Context, f: Callee, entry: Machine, code: seq<Instr>, st: State, m: Machine, r: Result)
    requires Between(x, st, m) && Ok(entry) && Ends(x, code, st, m, r)
    ensures r.Done? ==> |r.live.regs| == REGS
    ensures Carries(x, f, entry, code, m, DoOutcome(r, st))
  {
    match r
    case Fault(_) =>
    case Done(v, live) => DoBetween(x, st, m, Run(x.env, code, m), v, live);
  }

  lemma DoCarries(x: Context, f: Callee, entry: Machine, e: Expr, st: State, m: Machine)
    requires Between(x, st, m) && Ok(entry) && Compilable(x, e) && Spills(e) <= x.lay.depth && CallDepth(e) <= x.lay.calls
    ensures Carries(x, f, entry, ExpressionCode(x.env.callees, x.lay, e), m, ExecStmt(x.env, Do(e), st))
  {
    ExpressionEnds(x, e, st, m);
    DoEnds(x, f, entry, ExpressionCode(x.env.callees, x.lay, e), st, m, Eval(x.env, e, st.live.regs, st.vars, st.live));
  }

  // ----- Return -----

  lemma SavedStays(x: Context, f: Callee, entry: Machine, mem: Memory, mem': Memory)
    requires InFunction(x, f, entry, mem) && SameCaller(x, mem, mem')
    ensures InFunction(x, f, entry, mem')
  {
    forall i | 0 <= i < SAVED
      ensures Read(mem', SlotOf(x.rbp, i)) == Value(entry.regs[SavedReg(i)])
    {
      assert SlotOf(x.rbp, i) >= x.rbp;
    }
  }

  lemma ReturnSeen(x: Context, f: Callee, entry: Machine, st: State, m: Machine, m1: Machine, m': Machine, v: int, live: Live)
    requires Between(x, st, m) && InFunction(x, f, entry, m.mem) && Evaluated(Now(x, st), m, m1, v, live)
    requires live.regs[RSP] == m.regs[RSP] && live.regs[RBP] == m.regs[RBP]
    requires ReturnedTo(f, entry, m1, m')
    ensures CallerSees(f, entry, v, live, m')
  {
    assert m1.regs == live.regs[RAX := Rep(v)];
    forall r | 0 <= r < REGS && r != RSP && r != RBP
      ensures m'.regs[r] == AfterCall(f, HandedOver(f, v, live), r, entry.regs[r])
    {
      assert X86.Returned(Handed(f, m1), r) == X86.Returned(HandedOver(f, v, live), r);
    }
  }

  lemma ReturnDone(x: Context, f: Callee, entry: Machine, m: Machine, m1: Machine, st: State, v: int, live: Live)
    requires LiveOk(live) && Between(x, st, m) && InFunction(x, f, entry, m.mem) && Evaluated(Now(x, st), m, m1, v, live)
    requires live.regs[RSP] == m.regs[RSP] && live.regs[RBP] == m.regs[RBP]
    ensures Block(EpilogueCode(f))
    ensures var m' := Run(x.env, EpilogueCode(f), m1);
            CallerSees(f, entry, v, live, m') && forall a: int :: a >= entry.regs[RSP] ==> Read(m'.mem, a) == Read(m.mem, a)
  {
    AboveIsCaller(Now(x, st), m.mem, m1.mem);
    SavedStays(x, f, entry, m.mem, m1.mem);
    EpilogueReturns(x.env, f, entry, m1, x.rbp);
    ReturnSeen(x, f, entry, st, m, m1, Run(x.env, EpilogueCode(f), m1), v, live);
  }

  lemma ReturnEnds(x: Context, f: Callee, entry: Machine, code: seq<Instr>, st: State, m: Machine, r: Result)
    requires Between(x, st, m) && InFunction(x, f, entry, m.mem) && Ends(x, code, st, m, r)
    ensures Carries(x, f, entry, code + EpilogueCode(f), m, ReturnOutcome(r, st))
  {
    EpilogueBlock(f);
    BlockAppend(code, EpilogueCode(f));
    RunAppend(x.env, code, EpilogueCode(f), m);
    match r
    case Fault(_) =>
    case Done(v, live) => ReturnDone(x, f, entry, m, Run(x.env, code, m), st, v, live);
  }

  lemma ReturnCarries(x: Context, f: Callee, entry: Machine, e: Expr, st: State, m: Machine)
    requires Between(x, st, m) && InFunction(x, f, entry, m.mem) && Compilable(x, e)
    requires Spills(e) <= x.lay.depth && CallDepth(e) <= x.lay.calls
    ensures Carries(x, f, entry, ExpressionCode(x.env.callees, x.lay, e) + EpilogueCode(f), m, ExecStmt(x.env, Return(e), st))
  {
    ExpressionEnds(x, e, st, m);
    ReturnEnds(x, f, entry, ExpressionCode(x.env.callees, x.lay, e), st, m,
               Eval(x.env, e, st.live.regs, st.vars, st.live));
  }

  lemma {:induction false} PopBlock(f: Callee, i: nat)
    requires i <= SAVED && OutputsDeclared(f)
    ensures Block(PopCode(f, i))
    decreases i
  {
    if i > 0 {
      var r := SavedReg(i - 1);
      PopBlock(f, i - 1);
      OutputFamily(f.params, r);
      BlockAppend(PopOne(f, r), PopCode(f, i - 1));
    }
  }

  lemma EpilogueBlock(f: Callee)
    requires OutputsDeclared(f)
    ensures Block(EpilogueCode(f))
  {
    PopBlock(f, SAVED);
    BlockAppend([MovReg(RSP, RBP), Pop(RBP)], PopCode(f, SAVED));
  }

  // ----- If -----

  lemma RunResume(x: Context, m: Machine, live: Live)
    requires ContextOk(x) && Ok(m) && !m.stopped && m.regs[RBP] == x.rbp && m.regs[RSP] == x.rbp - x.frame && LiveOk(live)
    requires Read(m.mem, KeepAt(x, RAX)) == Value(live.regs[RAX])
    requires Read(m.mem, x.rbp + x.lay.FlagsSlot(true)) == Saved(live.flags)
    ensures Block(ResumeCode(x.lay))
    ensures Run(x.env, ResumeCode(x.lay), m) ==
            m.(regs := m.regs[RAX := live.regs[RAX]], flags := live.flags,
               mem := m.mem[x.rbp - x.frame - 8 := Saved(live.flags)])
  {
    var load := Load(Register(RAX, B64, false), RBP, x.lay.RegisterSlot(RAX, true));
    var rest := [PushSlot(RBP, x.lay.FlagsSlot(true)), Popfq];
    var m1 := Exec(x.env, load, m);
    assert m1 == m.(regs := m.regs[RAX := live.regs[RAX]]);
    FlagsOut(x, m1);
    RunCons(x.env, load, rest, m);
    BlockAppend([load], rest);
    assert ResumeCode(x.lay) == [load] + rest;
  }

  lemma ResumeMemory(x: Context, st: State, m: Machine, mem: Memory, w: Word)
    requires Between(x, st, m) && SameAbove(Now(x, st), m.mem, mem)
    ensures var mem' := mem[x.rbp - x.frame - 8 := w];
            SameAbove(Now(x, st), m.mem, mem') &&
            forall j :: 0 <= j < |st.vars| ==> Number(Read(mem', LocalAt(x, j))) == st.vars[j]
  {
    var mem' := mem[x.rbp - x.frame - 8 := w];
    FrameSlotsInside(Now(x, st));
    assert x.lay.Arguments(x.lay.calls) >= 0;
    forall j | 0 <= j < |st.vars|
      ensures Number(Read(mem', LocalAt(x, j))) == st.vars[j]
    {
      assert LocalAt(x, j) == LocalAt(Now(x, st), j);
    }
  }

  /** Both branches start from the registers and flags the condition left. */
  lemma ResumeBetween(x: Context, st: State, m: Machine, m1: Machine, m2: Machine, v: int, live: Live)
    requires LiveOk(live) && Between(x, st, m) && Evaluated(Now(x, st), m, m1, v, live)
    requires live.regs[RSP] == m.regs[RSP] && live.regs[RBP] == m.regs[RBP]
    requires m2 == m1.(flags := m2.flags)
    ensures Block(ResumeCode(x.lay))
    ensures var m3 := Run(x.env, ResumeCode(x.lay), m2);
            Between(x, State(live, st.vars), m3) && SameCaller(x, m.mem, m3.mem)
  {
    hide Run;
    RunResume(Now(x, st), m2, live);
    var m3 := Run(x.env, ResumeCode(x.lay), m2);
    assert m3.regs == live.regs;
    ResumeMemory(x, st, m, m1.mem, Saved(live.flags));
    AboveIsCaller(Now(x, st), m.mem, m3.mem);
    ResumedBetween(x, st, live, m3);
  }

  lemma ResumedBetween(x: Context, st: State, live: Live, m: Machine)
    requires StateOk(st, x.lay.locals) && ContextOk(Now(x, st)) && LiveOk(live) && Ok(m) && !m.stopped
    requires m.regs == live.regs && m.flags == live.flags && m.trace == live.trace
    requires m.regs[RBP] == x.rbp && m.regs[RSP] == x.rbp - x.frame
    requires forall j :: 0 <= j < |st.vars| ==> Number(Read(m.mem, LocalAt(x, j))) == st.vars[j]
    ensures Between(x, State(live, st.vars), m)
  {
  }

  /** A conditional over two blocks of code, the second reached by the jump. */
  function Conditional(one: seq<Instr>, two: seq<Instr>): seq<Instr> {
    [Test(RAX)] + ([Jcc(E, |one| + 1)] + (one + ([Jmp(|two|)] + two)))
  }

  lemma RunJcc(env: Env, cond: Cond, skip: nat, rest: seq<Instr>, m: Machine)
    requires Ok(m) && !m.stopped && Good(rest) && skip <= |rest|
    ensures Good([Jcc(cond, skip)] + rest)
    ensures Run(env, [Jcc(cond, skip)] + rest, m) == Run(env, if Holds(cond, m.flags) then rest[skip..] else rest, m)
  {
    var code := [Jcc(cond, skip)] + rest;
    assert code[1..] == rest && code[1 + skip..] == rest[skip..];
  }

  lemma ExecTest(env: Env, m: Machine)
    requires Ok(m) && !m.stopped
    ensures var m1 := Exec(env, Test(RAX), m);
            m1 == m.(flags := CompareFlags(env, m.regs[RAX], 0)) && (Holds(E, m1.flags) <==> m.regs[RAX] == 0)
  {
  }

  lemma RunFirst(env: Env, one: seq<Instr>, two: seq<Instr>, m: Machine)
    requires Ok(m) && Block(one) && Block(two)
    ensures Good(one + ([Jmp(|two|)] + two)) && Run(env, one + ([Jmp(|two|)] + two), m) == Run(env, one, m)
  {
    var jump := [Jmp(|two|)] + two;
    JumpBlock(two);
    RunAppend(env, one, jump, m);
    JumpsToEnd(env, two, Run(env, one, m));
  }

  lemma RunConditional(env: Env, one: seq<Instr>, two: seq<Instr>, m: Machine)
    requires Ok(m) && !m.stopped && Block(one) && Block(two)
    ensures Block(Conditional(one, two))
    ensures var m1 := m.(flags := CompareFlags(env, m.regs[RAX], 0));
            Run(env, Conditional(one, two), m) == Run(env, if m.regs[RAX] == 0 then two else one, m1)
  {
    var rest := one + ([Jmp(|two|)] + two);
    var tail := [Jcc(E, |one| + 1)] + rest;
    var m1 := m.(flags := CompareFlags(env, m.regs[RAX], 0));
    ConditionalBlock(one, two);
    ExecTest(env, m);
    RunCons(env, Test(RAX), tail, m);
    BlockAppend([Test(RAX)], tail);
    RunFirst(env, one, two, m1);
    RunJcc(env, E, |one| + 1, rest, m1);
    assert rest[|one| + 1..] == two;
  }

  lemma JumpsToEnd(env: Env, two: seq<Instr>, m: Machine)
    requires Ok(m) && Block(two)
    ensures Good([Jmp(|two|)] + two) && Run(env, [Jmp(|two|)] + two, m) == m
  {
    JumpBlock(two);
    var code := [Jmp(|two|)] + two;
    if !m.stopped {
      assert code[1 + |two|..] == [];
    }
  }

  lemma JumpBlock(code: seq<Instr>)
    requires Block(code)
    ensures Block([Jmp(|code|)] + code)
  {
  }

  lemma ConditionalBlock(one: seq<Instr>, two: seq<Instr>)
    requires Block(one) && Block(two)
    ensures Block([Jcc(E, |one| + 1)] + (one + ([Jmp(|two|)] + two)))
  {
    JumpBlock(two);
    BlockAppend(one, [Jmp(|two|)] + two);
  }

  function IfOutcome(env: Env, r: Result, st: State, a: seq<Stmt>, b: seq<Stmt>): Outcome
    requires r.Done? ==> |r.live.regs| == REGS
  {
    match r
    case Fault(tr) => Trap(tr)
    case Done(v, live) => ExecBlock(env, if v != 0 then a else b, State(live, st.vars))
  }

  lemma RepZero(t: Ty, v: int)
    requires InRange(t, v)
    ensures Rep(v) == 0 <==> v == 0
  {
    RepInRange(t, v);
  }

  /** The chosen branch, from the state after the condition to the end of the if. */
  lemma BranchTaken(x: Context, f: Callee, entry: Machine, code: seq<Instr>, a: seq<Instr>, b: seq<Instr>,
                    st: State, m: Machine, v: int, live: Live, zero: bool, o: Outcome)
    requires Between(x, st, m) && Ends(x, code, st, m, Done(v, live)) && (zero <==> Rep(v) == 0)
    requires Ok(entry) && entry.regs[RSP] >= x.rbp && Block(a) && Block(b)
    requires forall m3 :: Between(x, State(live, st.vars), m3) && SameCaller(x, m.mem, m3.mem) ==>
               Carries(x, f, entry, if zero then b else a, m3, o)
    ensures Carries(x, f, entry, code + BranchCode(x.lay, a, b), m, o)
  {
    var m1 := Run(x.env, code, m);
    var m2 := m1.(flags := CompareFlags(x.env, m1.regs[RAX], 0));
    ResumeBetween(x, st, m, m1, m2, v, live);
    var m3 := Run(x.env, ResumeCode(x.lay), m2);
    BlockAppend(ResumeCode(x.lay), a);
    BlockAppend(ResumeCode(x.lay), b);
    RunConditional(x.env, ResumeCode(x.lay) + a, ResumeCode(x.lay) + b, m1);
    RunAppend(x.env, ResumeCode(x.lay), if zero then b else a, m2);
    BlockAppend(code, BranchCode(x.lay, a, b));
    RunAppend(x.env, code, BranchCode(x.lay, a, b), m);
    CarriesOver(x, f, entry, if zero then b else a, m, m3, code + BranchCode(x.lay, a, b), o);
  }

  lemma CarriesOver(x: Context, f: Callee, entry: Machine, branch: seq<Instr>, m: Machine, m3: Machine,
                    code: seq<Instr>, o: Outcome)
    requires Carries(x, f, entry, branch, m3, o) && Ok(m) && Block(code) && entry.regs[RSP] >= x.rbp
    requires Run(x.env, code, m) == Run(x.env, branch, m3) && SameCaller(x, m.mem, m3.mem)
    ensures Carries(x, f, entry, code, m, o)
  {
  }

  // ----- The theorem for blocks -----

  lemma {:induction false} StmtBlock(x: Context, f: Callee, s: Stmt)
    requires StmtOk(x, s) && OutputsDeclared(f)
    ensures Block(StmtCode(x.env.callees, x.lay, EpilogueCode(f), s))
    decreases s
  {
    hide ExpressionCode;
    match s
    case If(e, a, b) =>
      var one := BlockCode(x.env.callees, x.lay, EpilogueCode(f), a);
      var two := BlockCode(x.env.callees, x.lay, EpilogueCode(f), b);
      BlockBlock(x, f, a);
      BlockBlock(x, f, b);
      BranchBlock(x.lay, one, two);
      WholeBlock(x, e);
      BlockAppend(ExpressionCode(x.env.callees, x.lay, e), BranchCode(x.lay, one, two));
    case Let(k, e) =>
      WholeBlock(x, e);
      BlockAppend(ExpressionCode(x.env.callees, x.lay, e), LetTail(x.lay, k));
    case Do(e) => WholeBlock(x, e);
    case Return(e) =>
      WholeBlock(x, e);
      EpilogueBlock(f);
      BlockAppend(ExpressionCode(x.env.callees, x.lay, e), EpilogueCode(f));
  }

  lemma {:induction false} BlockBlock(x: Context, f: Callee, block: seq<Stmt>)
    requires BlockOk(x, block) && OutputsDeclared(f)
    ensures Block(BlockCode(x.env.callees, x.lay, EpilogueCode(f), block))
    decreases block
  {
    if block != [] {
      StmtBlock(x, f, block[0]);
      BlockBlock(x, f, block[1..]);
      BlockAppend(StmtCode(x.env.callees, x.lay, EpilogueCode(f), block[0]),
                  BlockCode(x.env.callees, x.lay, EpilogueCode(f), block[1..]));
    }
  }

  lemma BranchBlock(lay: Layout, a: seq<Instr>, b: seq<Instr>)
    requires Block(a) && Block(b)
    ensures Block(BranchCode(lay, a, b))
  {
    var one, two := ResumeCode(lay) + a, ResumeCode(lay) + b;
    BlockAppend(ResumeCode(lay), a);
    BlockAppend(ResumeCode(lay), b);
    ConditionalBlock(one, two);
    BlockAppend([Test(RAX)], [Jcc(E, |one| + 1)] + (one + ([Jmp(|two|)] + two)));
  }

  lemma WholeBlock(x: Context, e: Expr)
    requires Compilable(x, e)
    ensures Block(ExpressionCode(x.env.callees, x.lay, e))
  {
    SnapshotBlock(x.lay, 0);
    CodeBlock(x, e, 0, 0);
    RestoreBlock(x.lay, 1);
    BlockAppend(Code(x.env.callees, x.lay, e, 0, 0), RestoreCode(x.lay, 1));
    BlockAppend(SnapshotCode(x.lay, 0), Code(x.env.callees, x.lay, e, 0, 0) + RestoreCode(x.lay, 1));
  }

  lemma {:induction false} SnapshotBlock(lay: Layout, r: nat)
    requires r <= REGS
    ensures Block(SnapshotCode(lay, r))
    decreases REGS - r
  {
    if r < REGS {
      SnapshotBlock(lay, r + 1);
      BlockAppend([Store(RBP, lay.RegisterSlot(r, false), r), Store(RBP, lay.RegisterSlot(r, true), r)],
                  SnapshotCode(lay, r + 1));
    } else {
      BlockAppend(FlagsCode(lay, false), FlagsCode(lay, true));
      assert SnapshotCode(lay, r) == FlagsCode(lay, false) + FlagsCode(lay, true);
    }
  }

  /** The static analyses cover the block. */
  predicate StmtFits(lay: Layout, s: Stmt) {
    StmtSpills(s) <= lay.depth && StmtCalls(s) <= lay.calls
  }

  predicate BlockFits(lay: Layout, block: seq<Stmt>) {
    BlockSpills(block) <= lay.depth && BlockCalls(block) <= lay.calls
  }

  lemma {:induction false} StmtCarries(x: Context, f: Callee, entry: Machine, s: Stmt, st: State, m: Machine)
    requires StmtOk(x, s) && StmtFits(x.lay, s) && Between(x, st, m) && InFunction(x, f, entry, m.mem)
    ensures Carries(x, f, entry, StmtCode(x.env.callees, x.lay, EpilogueCode(f), s), m, ExecStmt(x.env, s, st))
    decreases s, 1
  {
    hide Carries, EpilogueCode, Eval, Ok, Compilable, Spills, CallDepth, LetCode, ExpressionCode, Typed, BranchCode;
    match s
    case Let(k, e) => LetCarries(x, f, entry, k, e, st, m);
    case Do(e) => DoCarries(x, f, entry, e, st, m);
    case Return(e) => ReturnCarries(x, f, entry, e, st, m);
    case If(e, a, b) =>
      var r := Eval(x.env, e, st.live.regs, st.vars, st.live);
      IfFits(x, e, a, b);
      ExpressionEnds(x, e, st, m);
      IfCarries(x, f, entry, e, a, b, st, m, r);
  }

  lemma IfFits(x: Context, e: Expr, a: seq<Stmt>, b: seq<Stmt>)
    requires StmtOk(x, If(e, a, b)) && StmtFits(x.lay, If(e, a, b))
    ensures Compilable(x, e) && Spills(e) <= x.lay.depth && CallDepth(e) <= x.lay.calls
    ensures BlockOk(x, a) && BlockFits(x.lay, a) && BlockOk(x, b) && BlockFits(x.lay, b)
  {
  }

  lemma {:induction false} IfCarries(x: Context, f: Callee, entry: Machine, e: Expr, a: seq<Stmt>, b: seq<Stmt>,
                                     st: State, m: Machine, r: Result)
    requires BlockOk(x, a) && BlockFits(x.lay, a) && BlockOk(x, b) && BlockFits(x.lay, b)
    requires Between(x, st, m) && InFunction(x, f, entry, m.mem)
    requires Ends(x, ExpressionCode(x.env.callees, x.lay, e), st, m, r) && Typed(e, r)
    ensures r.Done? ==> |r.live.regs| == REGS
    ensures Carries(x, f, entry,
                    ExpressionCode(x.env.callees, x.lay, e) +
                    BranchCode(x.lay, BlockCode(x.env.callees, x.lay, EpilogueCode(f), a),
                                      BlockCode(x.env.callees, x.lay, EpilogueCode(f), b)), m,
                    IfOutcome(x.env, r, st, a, b))
    decreases If(e, a, b), 0
  {
    BlockBlock(x, f, a);
    BlockBlock(x, f, b);
    if r.Done? {
      BranchesCarry(x, f, entry, if r.value != 0 then a else b, State(r.live, st.vars), m);
    }
    IfEnds(x, f, entry, ExpressionCode(x.env.callees, x.lay, e), a, b, st, m, r, e);
  }

  lemma IfEnds(x: Context, f: Callee, entry: Machine, code: seq<Instr>, a: seq<Stmt>, b: seq<Stmt>,
               st: State, m: Machine, r: Result, e: Expr)
    requires Between(x, st, m) && InFunction(x, f, entry, m.mem) && Ends(x, code, st, m, r) && Typed(e, r)
    requires Block(BlockCode(x.env.callees, x.lay, EpilogueCode(f), a))
    requires Block(BlockCode(x.env.callees, x.lay, EpilogueCode(f), b))
    requires r.Done? ==>
               var taken := if r.value != 0 then a else b;
               var st' := State(r.live, st.vars);
               forall m3 :: Between(x, st', m3) && SameCaller(x, m.mem, m3.mem) ==>
                 Carries(x, f, entry, BlockCode(x.env.callees, x.lay, EpilogueCode(f), taken), m3, ExecBlock(x.env, taken, st'))
    ensures Carries(x, f, entry,
                    code + BranchCode(x.lay, BlockCode(x.env.callees, x.lay, EpilogueCode(f), a),
                                             BlockCode(x.env.callees, x.lay, EpilogueCode(f), b)), m,
                    IfOutcome(x.env, r, st, a, b))
  {
    var one := BlockCode(x.env.callees, x.lay, EpilogueCode(f), a);
    var two := BlockCode(x.env.callees, x.lay, EpilogueCode(f), b);
    match r
    case Fault(tr) => ConditionTraps(x, f, entry, code, one, two, st, m, tr);
    case Done(v, live) =>
      RepZero(TypeOf(e), v);
      BranchTaken(x, f, entry, code, one, two, st, m, v, live, v == 0, IfOutcome(x.env, r, st, a, b));
  }

  lemma {:induction false} BranchesCarry(x: Context, f: Callee, entry: Machine, taken: seq<Stmt>, st: State, m: Machine)
    requires BlockOk(x, taken) && BlockFits(x.lay, taken) && |st.live.regs| == REGS && InFunction(x, f, entry, m.mem)
    ensures forall m3 :: Between(x, st, m3) && SameCaller(x, m.mem, m3.mem) ==>
              Carries(x, f, entry, BlockCode(x.env.callees, x.lay, EpilogueCode(f), taken), m3, ExecBlock(x.env, taken, st))
    decreases taken, 1
  {
    forall m3 | Between(x, st, m3) && SameCaller(x, m.mem, m3.mem)
      ensures Carries(x, f, entry, BlockCode(x.env.callees, x.lay, EpilogueCode(f), taken), m3, ExecBlock(x.env, taken, st))
    {
      SavedStays(x, f, entry, m.mem, m3.mem);
      BlockCarries(x, f, entry, taken, st, m3);
    }
  }

  lemma ConditionTraps(x: Context, f: Callee, entry: Machine, code: seq<Instr>, one: seq<Instr>, two: seq<Instr>,
                       st: State, m: Machine, tr: seq<Event>)
    requires Ends(x, code, st, m, Fault(tr)) && Block(one) && Block(two) && Ok(entry)
    ensures Carries(x, f, entry, code + BranchCode(x.lay, one, two), m, Trap(tr))
  {
    BranchBlock(x.lay, one, two);
    BlockAppend(code, BranchCode(x.lay, one, two));
    RunAppend(x.env, code, BranchCode(x.lay, one, two), m);
  }

  /** A compiled block takes the machine where the source takes the state: to the next statement,
      into the same trap, or back to the caller. */
  lemma {:induction false} BlockCarries(x: Context, f: Callee, entry: Machine, block: seq<Stmt>, st: State, m: Machine)
    requires BlockOk(x, block) && BlockFits(x.lay, block) && Between(x, st, m) && InFunction(x, f, entry, m.mem)
    ensures Carries(x, f, entry, BlockCode(x.env.callees, x.lay, EpilogueCode(f), block), m, ExecBlock(x.env, block, st))
    decreases block, 0
  {
    hide StmtCode, ExecStmt, Ok, StateOk;
    if block != [] {
      var first := StmtCode(x.env.callees, x.lay, EpilogueCode(f), block[0]);
      var rest := BlockCode(x.env.callees, x.lay, EpilogueCode(f), block[1..]);
      StmtCarries(x, f, entry, block[0], st, m);
      BlockBlock(x, f, block[1..]);
      match ExecStmt(x.env, block[0], st)
      case Trap(tr) => TrapThen(x, f, entry, first, rest, m, tr);
      case Exit(v, st') => ExitThen(x, f, entry, first, rest, m, v, st');
      case Next(st') =>
        var m1 := Run(x.env, first, m);
        SavedStays(x, f, entry, m.mem, m1.mem);
        BlockCarries(x, f, entry, block[1..], st', m1);
        NextThen(x, f, entry, first, rest, m, m1, ExecBlock(x.env, block[1..], st'));
    }
  }
}
