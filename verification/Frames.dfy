/** Whole expressions and the statements around them: the snapshot taken at the outermost level,
    the restore after it, and what let and if leave of the machine. */
module Frames {
  import opened Words
  import opened X86
  import opened Codegen
  import opened Operations
  import opened Simulation
  import opened Calls
  import opened ExpressionProof

  /** A function body between two statements: the frame pointers are in place, the locals are in
      their slots, and x names the current registers as the snapshot to take. */
  ghost predicate Ready(x: Context, m: Machine) {
    && ContextOk(x) && Ok(m) && !m.stopped && m.regs[RBP] == x.rbp && m.regs[RSP] == x.rbp - x.frame
    && x.snap == m.regs
    && forall k :: 0 <= k < |x.vars| ==> Number(Read(m.mem, LocalAt(x, k))) == x.vars[k]
  }

  function Started(m: Machine): Live {
    Live(m.regs, m.flags, m.trace)
  }

  /** Memory from the locals upwards: what statements may rely on. */
  ghost predicate SameAbove(x: Context, mem: Memory, mem': Memory) {
    forall a: int :: x.rbp - a <= x.lay.SnapshotBase() - 8 ==> Read(mem', a) == Read(mem, a)
  }

  // ----- The snapshot -----

  ghost predicate Snapped(x: Context, m: Machine, mem: Memory, r: nat)
    requires Ok(m)
  {
    && SameAbove(x, m.mem, mem)
    && forall k :: 0 <= k < r && k < REGS ==>
         Read(mem, SnapAt(x, k)) == Value(m.regs[k]) && Read(mem, KeepAt(x, k)) == Value(m.regs[k])
  }

  /** Only memory changed, and it holds the snapshot, the registers to keep and their flags. */
  ghost predicate SnapshotDone(x: Context, m: Machine, m': Machine)
    requires Ok(m)
  {
    && m' == m.(mem := m'.mem) && Snapped(x, m, m'.mem, REGS)
    && Read(m'.mem, x.rbp + x.lay.FlagsSlot(true)) == Saved(m.flags)
  }

  lemma ExecSnapshot(x: Context, m: Machine, m1: Machine, r: nat)
    requires ContextOk(x) && Ok(m) && Ok(m1) && r < REGS && m1 == m.(mem := m1.mem) && m.regs[RBP] == x.rbp
    requires Snapped(x, m, m1.mem, r)
    ensures var m2 := Exec(x.env, Store(RBP, x.lay.RegisterSlot(r, false), r), m1);
            var m3 := Exec(x.env, Store(RBP, x.lay.RegisterSlot(r, true), r), m2);
            m3 == m.(mem := m3.mem) && !m2.stopped == !m.stopped && Snapped(x, m, m3.mem, r + 1)
  {
  }

  lemma {:induction false} RunSnapshot(x: Context, m: Machine, m1: Machine, r: nat)
    requires ContextOk(x) && Ok(m) && !m.stopped && Ok(m1) && r <= REGS && m1 == m.(mem := m1.mem)
    requires m.regs[RBP] == x.rbp && m.regs[RSP] == x.rbp - x.frame && Snapped(x, m, m1.mem, r)
    ensures Block(SnapshotCode(x.lay, r))
    ensures SnapshotDone(x, m, Run(x.env, SnapshotCode(x.lay, r), m1))
    decreases REGS - r
  {
    if r == REGS {
      RunBothFlags(x.env, x.lay, m1);
      FlagsEndSnapshot(x, m, m1, Run(x.env, SnapshotCode(x.lay, REGS), m1));
    } else {
      var a, b := Store(RBP, x.lay.RegisterSlot(r, false), r), Store(RBP, x.lay.RegisterSlot(r, true), r);
      var rest := SnapshotCode(x.lay, r + 1);
      ExecSnapshot(x, m, m1, r);
      var m2 := Exec(x.env, a, m1);
      var m3 := Exec(x.env, b, m2);
      RunSnapshot(x, m, m3, r + 1);
      RunTwo(x.env, a, b, m1);
      BlockAppend([a, b], rest);
      RunAppend(x.env, [a, b], rest, m1);
    }
  }

  lemma FlagsKeepSnapshot(x: Context, m: Machine, mem: Memory, restore: bool)
    requires ContextOk(x) && Ok(m) && Snapped(x, m, mem, REGS)
    ensures var mem' := FlagsThroughStack(mem, m.flags, x.rbp - x.frame, x.rbp + x.lay.FlagsSlot(restore));
            Snapped(x, m, mem', REGS) && Read(mem', x.rbp + x.lay.FlagsSlot(restore)) == Saved(m.flags)
  {
    FrameSlotsInside(x);
    assert x.lay.Arguments(x.lay.calls) >= 0;
  }

  /** The flags pass through the stack into both of their slots. */
  function BothFlags(mem: Memory, flags: Flags, sp: int, rbp: int, lay: Layout): Memory {
    FlagsThroughStack(FlagsThroughStack(mem, flags, sp, rbp + lay.FlagsSlot(false)), flags, sp, rbp + lay.FlagsSlot(true))
  }

  lemma RunBothFlags(env: Env, lay: Layout, m: Machine)
    requires Ok(m) && !m.stopped && 8 <= m.regs[RSP]
    ensures Block(SnapshotCode(lay, REGS))
    ensures Run(env, SnapshotCode(lay, REGS), m) == m.(mem := BothFlags(m.mem, m.flags, m.regs[RSP], m.regs[RBP], lay))
  {
    RunFlagsCode(env, lay, m, false);
    RunFlagsCode(env, lay, Run(env, FlagsCode(lay, false), m), true);
    BlockAppend(FlagsCode(lay, false), FlagsCode(lay, true));
    RunAppend(env, FlagsCode(lay, false), FlagsCode(lay, true), m);
    assert SnapshotCode(lay, REGS) == FlagsCode(lay, false) + FlagsCode(lay, true);
  }

  lemma BothFlagsKeep(x: Context, m: Machine, mem: Memory)
    requires ContextOk(x) && Ok(m) && Snapped(x, m, mem, REGS)
    ensures var mem' := BothFlags(mem, m.flags, x.rbp - x.frame, x.rbp, x.lay);
            Snapped(x, m, mem', REGS) && Read(mem', x.rbp + x.lay.FlagsSlot(true)) == Saved(m.flags)
  {
    var one := FlagsThroughStack(mem, m.flags, x.rbp - x.frame, x.rbp + x.lay.FlagsSlot(false));
    FlagsKeepSnapshot(x, m, mem, false);
    FlagsKeepSnapshot(x, m, one, true);
  }

  lemma FlagsEndSnapshot(x: Context, m: Machine, m1: Machine, m2: Machine)
    requires ContextOk(x) && Ok(m) && Ok(m1) && m1 == m.(mem := m1.mem)
    requires m.regs[RBP] == x.rbp && m.regs[RSP] == x.rbp - x.frame && Snapped(x, m, m1.mem, REGS)
    requires m2 == m1.(mem := BothFlags(m1.mem, m1.flags, m1.regs[RSP], m1.regs[RBP], x.lay))
    ensures SnapshotDone(x, m, m2)
  {
    BothFlagsKeep(x, m, m1.mem);
  }

  /** After the snapshot the evaluator may start. */
  lemma SnapshotStarts(x: Context, m: Machine)
    requires Ready(x, m)
    ensures Block(SnapshotCode(x.lay, 0))
    ensures var m' := Run(x.env, SnapshotCode(x.lay, 0), m);
            Running(x, m', Started(m)) && SameAbove(x, m.mem, m'.mem)
  {
    RunSnapshot(x, m, m, 0);
    var m' := Run(x.env, SnapshotCode(x.lay, 0), m);
    forall k | 0 <= k < |x.vars|
      ensures Number(Read(m'.mem, LocalAt(x, k))) == x.vars[k]
    {
      assert x.rbp - LocalAt(x, k) <= x.lay.SnapshotBase() - 8;
    }
  }

  // ----- The restore -----

  /** The registers from 1 up to r have their kept values; rax is still the result. */
  ghost predicate Restoring(x: Context, m: Machine, live: Live, v: int, r: nat) {
    && ContextOk(x) && LiveOk(live) && Ok(m) && !m.stopped && m.trace == live.trace && Framed(x, m.mem, live)
    && m.regs[RBP] == x.rbp && m.regs[RSP] == x.rbp - x.frame && m.regs[RAX] == Rep(v)
    && forall k :: 1 <= k < r && k < REGS && k != RSP && k != RBP ==> m.regs[k] == live.regs[k]
  }

  lemma ExecRestore(x: Context, m: Machine, live: Live, v: int, r: nat)
    requires 1 <= r < REGS && r != RSP && r != RBP && Restoring(x, m, live, v, r)
    ensures var m' := Exec(x.env, Load(Register(r, B64, false), RBP, x.lay.RegisterSlot(r, true)), m);
            m'.mem == m.mem && Restoring(x, m', live, v, r + 1)
  {
    assert Read(m.mem, KeepAt(x, r)) == Value(live.regs[r]);
  }

  lemma {:induction false} RunRestore(x: Context, m: Machine, live: Live, v: int, r: nat)
    requires 1 <= r <= REGS && Restoring(x, m, live, v, r)
    ensures Block(RestoreCode(x.lay, r))
    ensures var m' := Run(x.env, RestoreCode(x.lay, r), m);
            Restoring(x, m', live, v, REGS) && m'.flags == live.flags && SameAbove(x, m.mem, m'.mem)
    decreases REGS - r
  {
    hide Run, SameAbove, Exec, Ok, Good, ContextOk, LiveOk, Framed, Rep;
    if r == REGS {
      RunRestoreFlags(x, m, live, v);
    } else {
      var rest := RestoreCode(x.lay, r + 1);
      if r != RSP && r != RBP {
        var load := Load(Register(r, B64, false), RBP, x.lay.RegisterSlot(r, true));
        ExecRestore(x, m, live, v, r);
        RunRestore(x, Exec(x.env, load, m), live, v, r + 1);
        RunOne(x.env, load, m);
        RunCons(x.env, load, rest, m);
        BlockAppend([load], rest);
      } else {
        assert RestoreCode(x.lay, r) == rest;
        RunRestore(x, m, live, v, r + 1);
      }
    }
  }

  lemma ExecPushFlags(x: Context, m: Machine)
    requires ContextOk(x) && Ok(m) && !m.stopped && m.regs[RBP] == x.rbp && m.regs[RSP] == x.rbp - x.frame
    ensures var w := Read(m.mem, x.rbp + x.lay.FlagsSlot(true));
            Exec(x.env, PushSlot(RBP, x.lay.FlagsSlot(true)), m) ==
            m.(regs := m.regs[RSP := x.rbp - x.frame - 8], mem := m.mem[x.rbp - x.frame - 8 := w])
  {
  }

  lemma PushPopFlags(env: Env, m: Machine, at: int, sp: nat, push: Instr, m1: Machine)
    requires Ok(m) && !m.stopped && 8 <= sp < W && m.regs[RSP] == sp && push.PushSlot? && GoodInstr(push)
    requires m1 == Exec(env, push, m)
    requires m1 == m.(regs := m.regs[RSP := sp - 8], mem := m.mem[sp - 8 := Read(m.mem, at)])
    ensures Block([push, Popfq])
    ensures Run(env, [push, Popfq], m) == m.(flags := FlagsOf(Read(m.mem, at)), mem := m.mem[sp - 8 := Read(m.mem, at)])
  {
    RunTwo(env, push, Popfq, m);
    var m2 := Exec(env, Popfq, m1);
    assert m2.regs == m.regs;
  }

  lemma FlagsOut(x: Context, m: Machine)
    requires ContextOk(x) && Ok(m) && !m.stopped && m.regs[RBP] == x.rbp && m.regs[RSP] == x.rbp - x.frame
    ensures var code := [PushSlot(RBP, x.lay.FlagsSlot(true)), Popfq];
            var w := Read(m.mem, x.rbp + x.lay.FlagsSlot(true));
            Block(code) &&
            Run(x.env, code, m) == m.(flags := FlagsOf(w), mem := m.mem[x.rbp - x.frame - 8 := w])
  {
    var push := PushSlot(RBP, x.lay.FlagsSlot(true));
    ExecPushFlags(x, m);
    PushPopFlags(x.env, m, x.rbp + x.lay.FlagsSlot(true), x.rbp - x.frame, push, Exec(x.env, push, m));
  }

  lemma RunRestoreFlags(x: Context, m: Machine, live: Live, v: int)
    requires Restoring(x, m, live, v, REGS)
    ensures Block(RestoreCode(x.lay, REGS))
    ensures var m' := Run(x.env, RestoreCode(x.lay, REGS), m);
            Restoring(x, m', live, v, REGS) && m'.flags == live.flags && SameAbove(x, m.mem, m'.mem)
  {
    hide Run;
    FlagsOut(x, m);
    FrameSlotsInside(x);
    assert x.lay.Arguments(x.lay.calls) >= 0;
  }

  // ----- Whole expressions -----

  /** After a whole expression every register is what live says, except that rax holds the value;
      flags and calls likewise, and nothing above the snapshot area has changed. */
  ghost predicate Evaluated(x: Context, m: Machine, m': Machine, v: int, live: Live)
    requires Ok(m)
  {
    && ContextOk(x) && LiveOk(live) && Ok(m') && !m'.stopped
    && m'.regs[RAX] == Rep(v) && m'.regs[RSP] == m.regs[RSP] && m'.regs[RBP] == m.regs[RBP]
    && (forall r :: 0 < r < REGS && r != RSP && r != RBP ==> m'.regs[r] == live.regs[r])
    && m'.flags == live.flags && m'.trace == live.trace && SameAbove(x, m.mem, m'.mem)
    && Read(m'.mem, KeepAt(x, RAX)) == Value(live.regs[RAX])
    && Read(m'.mem, x.rbp + x.lay.FlagsSlot(true)) == Saved(live.flags)
  }

  ghost predicate ExpressionRuns(x: Context, code: seq<Instr>, e: Expr, m: Machine) {
    && Ok(m) && |x.snap| == REGS && Block(code)
    && var m' := Run(x.env, code, m);
       match Eval(x.env, e, x.snap, x.vars, Started(m))
       case Fault(tr) => m'.stopped && !m'.returned && m'.trace == tr
       case Done(v, live) => InRange(TypeOf(e), v) && Evaluated(x, m, m', v, live)
  }

  /** A typed tree whose narrow outputs are captured before anything else of their registers has
      been written. */
  ghost predicate Compilable(x: Context, e: Expr) {
    WellFormed(x, e) && Clean(x.env.callees, e, Whole(RAX))
  }

  /** From any state between two statements the code of a whole expression leaves the typed value
      of the source in rax, every register read being a read of the registers before the
      expression, and every other register, the flags and the locals as the source leaves them. */
  lemma ExpressionCorrect(x: Context, e: Expr, m: Machine)
    requires Ready(x, m) && Compilable(x, e) && Spills(e) <= x.lay.depth && CallDepth(e) <= x.lay.calls
    ensures ExpressionRuns(x, ExpressionCode(x.env.callees, x.lay, e), e, m)
  {
    hide Running, Simulates, Code, SnapshotCode, RestoreCode, Clean, Writes, WellFormed, Run, Eval, Evaluated, SameAbove, Ready,
         ExpressionCode, Whole;
    ReadyFacts(x, m, Whole(RAX));
    var xe := Dirty(x, Whole(RAX) + Writes(x.env.callees, e));
    SnapshotStarts(Dirty(x, Whole(RAX)), m);
    var m1 := Run(x.env, SnapshotCode(x.lay, 0), m);
    RunningFacts(Dirty(x, Whole(RAX)), m1, Started(m));
    SameAboveAt(Dirty(x, Whole(RAX)), xe, m.mem, m1.mem);
    SameTrees(x, xe, e);
    CodeSimulates(xe, e, Whole(RAX), m1, Started(m), 0, 0);
    RestoreRuns(x, xe, e, Eval(x.env, e, x.snap, x.vars, Started(m)), m, m1);
    assert Block(SnapshotCode(x.lay, 0));
    RunExpressionCode(x, e, m);
  }

  lemma ReadyFacts(x: Context, m: Machine, dirt: set<Part>)
    requires Ready(x, m) && Whole(RAX) <= dirt
    ensures Ok(m) && ContextOk(x) && |x.snap| == REGS && Ready(Dirty(x, dirt), m)
  {
  }

  lemma SameAboveAt(x: Context, x': Context, mem: Memory, mem': Memory)
    requires SameAbove(x, mem, mem') && Extends(x, x')
    ensures SameAbove(x', mem, mem')
  {
  }

  lemma RunExpressionCode(x: Context, e: Expr, m: Machine)
    requires Ok(m) && Block(SnapshotCode(x.lay, 0)) && Block(Code(x.env.callees, x.lay, e, 0, 0)) && Block(RestoreCode(x.lay, 1))
    ensures Block(ExpressionCode(x.env.callees, x.lay, e))
    ensures Run(x.env, ExpressionCode(x.env.callees, x.lay, e), m) ==
            Run(x.env, RestoreCode(x.lay, 1), Run(x.env, Code(x.env.callees, x.lay, e, 0, 0), Run(x.env, SnapshotCode(x.lay, 0), m)))
  {
    hide Code, SnapshotCode, RestoreCode;
    var snapshot, code, restore := SnapshotCode(x.lay, 0), Code(x.env.callees, x.lay, e, 0, 0), RestoreCode(x.lay, 1);
    BlockAppend(code, restore);
    BlockAppend(snapshot, code + restore);
    RunAppend(x.env, snapshot, code + restore, m);
    RunAppend(x.env, code, restore, Run(x.env, snapshot, m));
  }

  lemma SimulatedParts(x: Context, code: seq<Instr>, m: Machine, result: Result, t: Ty)
    requires Ok(m) && Simulates(x, code, m, result, t, 0, 0)
    ensures Block(code)
    ensures var m' := Run(x.env, code, m);
            match result
            case Fault(tr) => m'.stopped && !m'.returned && m'.trace == tr
            case Done(v, live) => Running(x, m', live) && m'.regs[RAX] == Rep(v) && InRange(t, v) && Kept(x, m.mem, m'.mem, 0, 0)
  {
    hide Block, Run, Running, Kept;
  }

  lemma ReadyWith(x: Context, xe: Context, m: Machine)
    requires Ready(x, m) && xe == x.(dirt := xe.dirt) && Whole(RAX) <= xe.dirt
    ensures Ok(m) && Ready(xe, m)
  {
  }

  lemma EvaluatedWith(x: Context, xe: Context, m: Machine, m': Machine, v: int, live: Live)
    requires Ready(x, m) && xe == x.(dirt := xe.dirt) && Evaluated(xe, m, m', v, live)
    ensures Evaluated(x, m, m', v, live)
  {
  }

  /** What the code of e left is restored; a trap stays one. */
  lemma RestoreRuns(x: Context, xe: Context, e: Expr, result: Result, m: Machine, m1: Machine)
    requires Ready(x, m) && xe == x.(dirt := xe.dirt) && Whole(RAX) <= xe.dirt && Ok(m1) && SameAbove(xe, m.mem, m1.mem)
    requires Simulates(xe, Code(x.env.callees, x.lay, e, 0, 0), m1, result, TypeOf(e), 0, 0)
    ensures Block(RestoreCode(x.lay, 1)) && Block(Code(x.env.callees, x.lay, e, 0, 0))
    ensures var m' := Run(x.env, RestoreCode(x.lay, 1), Run(x.env, Code(x.env.callees, x.lay, e, 0, 0), m1));
            match result
            case Fault(tr) => m'.stopped && !m'.returned && m'.trace == tr
            case Done(v, live) => InRange(TypeOf(e), v) && Evaluated(x, m, m', v, live)
  {
    hide Code, RestoreCode, Running, Simulates, Ready, Kept, SameAbove, Evaluated, Whole, TypeOf, InRange;
    SimulatedParts(xe, Code(x.env.callees, x.lay, e, 0, 0), m1, result, TypeOf(e));
    var m2 := Run(x.env, Code(x.env.callees, x.lay, e, 0, 0), m1);
    RestoreBlock(x.lay, 1);
    ReadyWith(x, xe, m);
    match result
    case Fault(_) => StoppedStays(x.env, RestoreCode(x.lay, 1), m2);
    case Done(v, live) =>
      AfterRestore(xe, m, m1, m2, v, live);
      EvaluatedWith(x, xe, m, Run(x.env, RestoreCode(x.lay, 1), m2), v, live);
  }

  lemma StoppedStays(env: Env, code: seq<Instr>, m: Machine)
    requires Ok(m) && Good(code) && m.stopped
    ensures Run(env, code, m) == m
  {
  }

  lemma AfterRestore(x: Context, m: Machine, m1: Machine, m2: Machine, v: int, live: Live)
    requires Ready(x, m) && SameAbove(x, m.mem, m1.mem) && Running(x, m2, live) && m2.regs[RAX] == Rep(v)
    requires Kept(x, m1.mem, m2.mem, 0, 0) && Good(RestoreCode(x.lay, 1))
    ensures Evaluated(x, m, Run(x.env, RestoreCode(x.lay, 1), m2), v, live)
  {
    RunRestore(x, m2, live, v, 1);
    forall a: int | x.rbp - a <= x.lay.SnapshotBase() - 8
      ensures Read(m2.mem, a) == Read(m.mem, a)
    {
      assert Fixed(x.lay, 0, 0, x.rbp - a);
    }
  }

  lemma {:induction false} RestoreBlock(lay: Layout, r: nat)
    requires r <= REGS
    ensures Block(RestoreCode(lay, r))
    decreases REGS - r
  {
    if r < REGS {
      RestoreBlock(lay, r + 1);
      if r != RSP && r != RBP {
        BlockAppend([Load(Register(r, B64, false), RBP, lay.RegisterSlot(r, true))], RestoreCode(lay, r + 1));
      }
    }
  }
}
