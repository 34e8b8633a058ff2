/** Emitted expression code simulates the source meaning of the expression. */
module Simulation {
  import opened Words
  import opened X86
  import opened Codegen
  import opened Operations

  // ----- Pieces of registers -----

  /** A register as narrow outputs divide it: its low byte, its second byte, and the rest. */
  datatype Part = Part(reg: nat, at: nat)

  function Piece(x: nat, at: nat): nat {
    if at == 0 then x % 0x100 else if at == 1 then (x / 0x100) % 0x100 else x / 0x100 / 0x100
  }

  function Whole(r: nat): set<Part> {
    {Part(r, 0), Part(r, 1), Part(r, 2)}
  }

  /** What a write to the register field changes; a 32-bit write clears the upper half. */
  function FieldParts(o: Register): set<Part> {
    if o.high8 then {Part(o.family, 1)}
    else match o.width
      case B8 => {Part(o.family, 0)}
      case B16 => {Part(o.family, 0), Part(o.family, 1)}
      case _ => Whole(o.family)
  }

  /** The two register files agree outside the dirty pieces. */
  ghost predicate Agrees(dirt: set<Part>, a: seq<nat>, b: seq<nat>) {
    && |a| == REGS && |b| == REGS
    && forall r, at :: 0 <= r < REGS && 0 <= at < 3 && r != RSP && r != RBP && Part(r, at) !in dirt ==>
         Piece(a[r], at) == Piece(b[r], at)
  }

  lemma LowHalfPieces(x: nat)
    ensures x % 0x1_0000 == Piece(x, 0) + 0x100 * Piece(x, 1) && x / 0x1_0000 == Piece(x, 2)
  {
    var q := x / 0x100;
    assert x == 0x100 * q + x % 0x100 && q == 0x100 * (q / 0x100) + q % 0x100;
    SplitAt(x, q / 0x100, 0x100 * (q % 0x100) + x % 0x100);
  }

  lemma SplitAt(x: nat, t: nat, rest: nat)
    requires x == 0x1_0000 * t + rest && rest < 0x1_0000
    ensures x % 0x1_0000 == rest && x / 0x1_0000 == t
  {
  }

  /** A field of at most 16 bits replaces the pieces it covers. */
  lemma MergeIs(before: nat, o: Register, v: nat)
    requires Narrow(o) && WellFormedRegister(o)
    ensures Merge(before, o, v) ==
              (if o.high8 then Piece(before, 0) else Piece(v, 0))
              + 0x100 * (if o.high8 then Piece(v, 0) else if o.width == B8 then Piece(before, 1) else Piece(v, 1))
              + 0x1_0000 * Piece(before, 2)
  {
    LowHalfPieces(before);
    LowHalfPieces(v);
    assert before == 0x1_0000 * (before / 0x1_0000) + before % 0x1_0000;
  }

  /** Writing a narrow field keeps the other pieces. */
  lemma MergePieces(before: nat, o: Register, v: nat, at: nat)
    requires before < W && v < W && WellFormedRegister(o) && at < 3 && Part(o.family, at) !in FieldParts(o)
    ensures 0 <= Merge(before, o, v) < W && Piece(Merge(before, o, v), at) == Piece(before, at)
  {
    hide Merge;
    MergeIs(before, o, v);
    assert Piece(before, 2) < W / 0x1_0000;
    PiecesOf(if o.high8 then Piece(before, 0) else Piece(v, 0),
             if o.high8 then Piece(v, 0) else if o.width == B8 then Piece(before, 1) else Piece(v, 1),
             Piece(before, 2), Merge(before, o, v));
  }

  lemma PiecesOf(p: nat, q: nat, t: nat, x: int)
    requires p < 0x100 && q < 0x100 && x == p + 0x100 * q + 0x1_0000 * t
    ensures x >= 0 && Piece(x, 0) == p && Piece(x, 1) == q && Piece(x, 2) == t
  {
    assert x == p + 0x100 * (q + 0x100 * t);
    assert x / 0x100 == q + 0x100 * t;
  }

  /** What a narrow write leaves depends on the other pieces only. */
  lemma MergeSame(a: nat, b: nat, o: Register, v: nat)
    requires a < W && b < W && WellFormedRegister(o) && Narrow(o)
    requires forall at :: 0 <= at < 3 && Part(o.family, at) !in FieldParts(o) ==> Piece(a, at) == Piece(b, at)
    ensures Merge(a, o, v) == Merge(b, o, v)
  {
    LowHalfPieces(a);
    LowHalfPieces(b);
    assert Part(o.family, 2) !in FieldParts(o);
    assert o.high8 ==> Part(o.family, 0) !in FieldParts(o);
    assert !o.high8 && o.width == B8 ==> Part(o.family, 1) !in FieldParts(o);
  }

  lemma AgreesTrans(dirt: set<Part>, a: seq<nat>, b: seq<nat>, c: seq<nat>)
    requires Agrees(dirt, a, b) && Agrees(dirt, b, c)
    ensures Agrees(dirt, a, c)
  {
  }

  lemma WritesAgree(dirt: set<Part>, ws: set<nat>, m: Machine, m': Machine)
    requires OnlyWrites(ws, m, m') && Covers(dirt, ws)
    ensures Agrees(dirt, m'.regs, m.regs)
  {
  }

  ghost predicate Covers(dirt: set<Part>, ws: set<nat>) {
    forall r :: r in ws ==> Whole(r) <= dirt
  }

  // ----- The frame while an expression is being evaluated -----

  /** What stays fixed during one expression: the frame, the registers at its start, the locals,
      and the pieces of registers that code run so far may have written. */
  datatype Context = Context(env: Env, lay: Layout, frame: nat, rbp: nat, snap: seq<nat>, vars: seq<nat>, dirt: set<Part>)

  ghost predicate ContextOk(x: Context) {
    && |x.snap| == REGS && (forall r :: 0 <= r < REGS ==> x.snap[r] < W)
    && |x.vars| == x.lay.locals && (forall k :: 0 <= k < |x.vars| ==> x.vars[k] < W)
    && x.frame + 8 <= x.rbp < W
    && x.lay.CallBase() + x.lay.Arguments(x.lay.calls) + 24 + 8 * x.lay.outgoing <= x.frame
    && Whole(RAX) <= x.dirt
  }

  function SnapAt(x: Context, r: nat): int { x.rbp + x.lay.RegisterSlot(r, false) }
  function KeepAt(x: Context, r: nat): int { x.rbp + x.lay.RegisterSlot(r, true) }
  function LocalAt(x: Context, k: nat): int { x.rbp + x.lay.LocalSlot(k) }
  function SpillAt(x: Context, s: nat): int { x.rbp + x.lay.SpillSlot(s) }
  function CallAt(x: Context, c: nat, i: nat): int { x.rbp + x.lay.CallSlot(c, i) }

  /** The frame holds the snapshot, the locals and the state to keep after the expression. */
  ghost predicate Framed(x: Context, mem: Memory, live: Live)
    requires ContextOk(x) && |live.regs| == REGS
  {
    && Anchored(x, mem)
    && (forall r :: 0 <= r < REGS && r != RSP && r != RBP ==> Read(mem, KeepAt(x, r)) == Value(live.regs[r]))
    && Read(mem, x.rbp + x.lay.FlagsSlot(true)) == Saved(live.flags)
  }

  /** The snapshot and the locals are in the frame. */
  ghost predicate Anchored(x: Context, mem: Memory)
    requires ContextOk(x)
  {
    && (forall r :: 0 <= r < REGS ==> Read(mem, SnapAt(x, r)) == Value(x.snap[r]))
    && (forall k :: 0 <= k < |x.vars| ==> Number(Read(mem, LocalAt(x, k))) == x.vars[k])
  }

  ghost predicate LiveOk(live: Live) {
    |live.regs| == REGS && forall r :: 0 <= r < REGS ==> live.regs[r] < W
  }

  /** What no code run so far has written already has its final value. */
  ghost predicate Running(x: Context, m: Machine, live: Live) {
    && ContextOk(x) && LiveOk(live) && Ok(m) && !m.stopped
    && m.regs[RBP] == x.rbp && m.regs[RSP] == x.rbp - x.frame
    && m.trace == live.trace
    && Framed(x, m.mem, live)
    && Agrees(x.dirt, m.regs, live.regs)
  }

  /** The same context with more pieces written. */
  ghost predicate Extends(x: Context, x': Context) {
    x' == x.(dirt := x'.dirt) && x.dirt <= x'.dirt
  }

  lemma RunningMore(x: Context, x': Context, m: Machine, live: Live)
    requires Running(x, m, live) && Extends(x, x')
    ensures Running(x', m, live)
  {
  }

  /** Frame offsets that code at spill level s and call level c leaves alone: the locals, the
      spill slots below s, and the argument slots of call levels below c. */
  predicate Fixed(lay: Layout, s: nat, c: nat, offset: int) {
    || offset <= lay.SnapshotBase() - 8
    || lay.SpillBase() <= offset <= lay.SpillBase() + 8 * s - 8
    || lay.CallBase() <= offset <= lay.CallBase() + lay.Arguments(c) - 8
  }

  ghost predicate Kept(x: Context, mem: Memory, mem': Memory, s: nat, c: nat) {
    forall a: int :: Fixed(x.lay, s, c, x.rbp - a) ==> Read(mem', a) == Read(mem, a)
  }

  lemma ArgumentsGrow(lay: Layout, c: nat, d: nat)
    requires c <= d
    ensures lay.Arguments(c) <= lay.Arguments(d)
    ensures lay.Arguments(c + 1) == lay.Arguments(c) + lay.perCall * 8
  {
    assert d * (lay.perCall * 8) == c * (lay.perCall * 8) + (d - c) * (lay.perCall * 8);
    assert (c + 1) * (lay.perCall * 8) == c * (lay.perCall * 8) + lay.perCall * 8;
  }

  lemma KeptTrans(x: Context, a: Memory, b: Memory, c: Memory, s: nat, d: nat)
    requires Kept(x, a, b, s, d) && Kept(x, b, c, s, d)
    ensures Kept(x, a, c, s, d)
  {
  }

  lemma KeptWeaken(x: Context, a: Memory, b: Memory, s: nat, c: nat, s': nat, c': nat)
    requires Kept(x, a, b, s', c') && s <= s' && c <= c'
    ensures Kept(x, a, b, s, c)
  {
    ArgumentsGrow(x.lay, c, c');
  }

  /** The last argument slot stays above the outgoing area. */
  lemma FrameCovers(lay: Layout)
    ensures lay.CallBase() + lay.Arguments(lay.calls) + 24 + 8 * lay.outgoing <= lay.Frame()
    ensures lay.Frame() % 8 == 0
  {
    var n := lay.locals + lay.depth + lay.calls * lay.perCall + 39 + lay.outgoing;
    assert lay.Arguments(lay.calls) == 8 * (lay.calls * lay.perCall);
    assert lay.Needed() == 8 * n;
  }

  // ----- What each kind of step keeps -----

  lemma ScratchStep(x: Context, m: Machine, m': Machine, live: Live)
    requires Running(x, m, live) && Ok(m') && !m'.stopped && m'.mem == m.mem && m'.trace == m.trace
    requires m'.regs[RSP] == m.regs[RSP] && m'.regs[RBP] == m.regs[RBP] && Agrees(x.dirt, m'.regs, m.regs)
    ensures Running(x, m', live)
  {
    AgreesTrans(x.dirt, m'.regs, m.regs, live.regs);
  }

  /** A store below the snapshot area touches neither the snapshot nor the locals. */
  lemma StoreBelow(x: Context, mem: Memory, live: Live, at: int, w: Word)
    requires ContextOk(x) && |live.regs| == REGS && Framed(x, mem, live)
    requires x.rbp - at >= x.lay.SpillBase()
    ensures Framed(x, mem[at := w], live)
  {
  }

  lemma StoreStep(x: Context, m: Machine, live: Live, at: int, w: Word)
    requires Running(x, m, live) && x.rbp - at >= x.lay.SpillBase()
    ensures Running(x, m.(mem := m.mem[at := w]), live)
  {
    StoreBelow(x, m.mem, live, at, w);
  }

  // ----- The simulation relation -----

  /** Running the code from m gives the source result: the typed value in rax, the kept state in
      the frame, nothing fixed changed; or a trap after the same calls. */
  ghost predicate Simulates(x: Context, code: seq<Instr>, m: Machine, result: Result, t: Ty, s: nat, c: nat)
    requires Ok(m)
  {
    && Block(code)
    && var m' := Run(x.env, code, m);
       match result
       case Fault(tr) => m'.stopped && !m'.returned && m'.trace == tr
       case Done(v, live) =>
         Running(x, m', live) && m'.regs[RAX] == Rep(v) && InRange(t, v) && Kept(x, m.mem, m'.mem, s, c)
  }

  lemma EvaluatorStep(x: Context, ws: set<nat>, m: Machine, m': Machine, live: Live)
    requires Running(x, m, live) && OnlyWrites(ws, m, m') && !m'.stopped
    requires Covers(x.dirt, ws) && RSP !in ws && RBP !in ws
    ensures Running(x, m', live)
  {
    WritesAgree(x.dirt, ws, m, m');
    ScratchStep(x, m, m', live);
  }

  lemma SimulatesMore(x: Context, x': Context, code: seq<Instr>, m: Machine, result: Result, t: Ty, s: nat, c: nat)
    requires Ok(m) && Simulates(x, code, m, result, t, s, c) && Extends(x, x')
    ensures Simulates(x', code, m, result, t, s, c)
  {
    if result.Done? {
      RunningMore(x, x', Run(x.env, code, m), result.live);
    }
  }

  /** A load into rax followed by normalisation. */
  lemma LoadThenNormalize(x: Context, load: Instr, t: Ty, v: nat, n: int, m: Machine, live: Live, s: nat, c: nat)
    requires Running(x, m, live) && GoodInstr(load) && !load.Jcc? && !load.Jmp?
    requires Exec(x.env, load, m) == Put(m, RAX, v) && v < W && Wrap(t, v) == Wrap(t, n)
    ensures Simulates(x, [load] + NormalizeCode(t), m, Done(Wrap(t, n), live), t, s, c)
  {
    var m1 := Exec(x.env, load, m);
    RunOne(x.env, load, m);
    RunNormalize(x.env, t, v, m1);
    RunCons(x.env, load, NormalizeCode(t), m);
    BlockAppend([load], NormalizeCode(t));
    WrapInRange(t, n);
    EvaluatorStep(x, {RAX}, m, Run(x.env, [load] + NormalizeCode(t), m), live);
  }

  lemma LowPart(before: nat, v: nat, size: nat)
    requires before < W && v < W && (size == 0x100 || size == 0x1_0000)
    ensures var r := before - before % size + v % size;
            0 <= r < W && r % size == v % size
  {
    ModAdd(v % size, before / size, size);
    assert before == size * (before / size) + before % size;
  }

  lemma EvenPart(r: nat, v: nat)
    requires r % 0x100 == v % 0x100
    ensures r % 2 == v % 2
  {
    ModAdd(r % 0x100, (r / 0x100) * 0x80, 2);
    ModAdd(v % 0x100, (v / 0x100) * 0x80, 2);
  }

  lemma CutOfMerge(before: nat, w: Width, v: nat)
    requires before < W && v < W
    ensures var r := Merge(before, Register(RAX, w, false), v);
            0 <= r < W && Cut(r, w) == Cut(v, w)
  {
    LowPart(before, v, 0x100);
    LowPart(before, v, 0x1_0000);
  }

  lemma MergeWraps(t: Ty, before: nat, v: nat)
    requires before < W && v < W
    ensures var r := Merge(before, Register(RAX, ScalarWidth(t), false), v);
            0 <= r < W && Wrap(t, r) == Wrap(t, v)
  {
    hide Merge;
    CutOfMerge(before, ScalarWidth(t), v);
    if t == Bool {
      EvenPart(Merge(before, Register(RAX, B8, false), v), v);
    }
  }

  lemma ExecLoadLocal(x: Context, k: nat, t: Ty, m: Machine, live: Live) returns (v: nat)
    requires Running(x, m, live) && k < x.lay.locals
    ensures v < W && Wrap(t, v) == Wrap(t, x.vars[k])
    ensures Exec(x.env, Load(Register(RAX, ScalarWidth(t), false), RBP, x.lay.LocalSlot(k)), m) == Put(m, RAX, v)
  {
    assert Number(Read(m.mem, LocalAt(x, k))) == x.vars[k];
    MergeWraps(t, m.regs[RAX], x.vars[k]);
    v := Merge(m.regs[RAX], Register(RAX, ScalarWidth(t), false), x.vars[k]);
  }

  lemma SimulateLocal(x: Context, k: nat, t: Ty, m: Machine, live: Live, s: nat, c: nat)
    requires Running(x, m, live) && k < x.lay.locals
    ensures Simulates(x, Code(x.env.callees, x.lay, Local(k, t), s, c), m, Done(Wrap(t, x.vars[k]), live), t, s, c)
  {
    var load := Load(Register(RAX, ScalarWidth(t), false), RBP, x.lay.LocalSlot(k));
    var v := ExecLoadLocal(x, k, t, m, live);
    LoadThenNormalize(x, load, t, v, x.vars[k], m, live, s, c);
  }

  predicate WellFormedRegister(r: Register) {
    r.family < REGS && (r.high8 ==> r.width == B8)
  }

  lemma SimulateLeaf(x: Context, reg: Register, t: Ty, m: Machine, live: Live, s: nat, c: nat)
    requires Running(x, m, live) && WellFormedRegister(reg)
    ensures Simulates(x, LeafCode(x.lay, reg, t), m, Done(Wrap(t, Field(x.snap[reg.family], reg)), live), t, s, c)
  {
    hide GoodInstr;
    var v := Field(x.snap[reg.family], reg);
    assert Read(m.mem, SnapAt(x, reg.family)) == Value(x.snap[reg.family]);
    assert v < W;
    LoadThenNormalize(x, LeafCode(x.lay, reg, t)[0], t, v, v, m, live, s, c);
  }

  lemma SimulateConst(x: Context, v: nat, t: Ty, m: Machine, live: Live, s: nat, c: nat)
    requires Running(x, m, live) && v < W && Normalize(t, v) == v
    ensures Simulates(x, [MovImm(RAX, v)], m, Done(Wrap(t, v), live), t, s, c)
  {
    hide Normalize;
    RunOne(x.env, MovImm(RAX, v), m);
    NormalizeIsWrap(t, v);
    WrapInRange(t, v);
    EvaluatorStep(x, {RAX}, m, Exec(x.env, MovImm(RAX, v), m), live);
  }

  lemma SimulateAddress(x: Context, symbol: nat, addend: int, m: Machine, live: Live, s: nat, c: nat)
    requires Running(x, m, live)
    ensures Simulates(x, [Lea(RAX, symbol, addend)], m, Done(Rep(x.env.address(symbol) + addend), live), Ptr, s, c)
  {
    var i := Lea(RAX, symbol, addend);
    RunOne(x.env, i, m);
    EvaluatorStep(x, {RAX}, m, Exec(x.env, i, m), live);
  }

  /** Appending code that only computes in registers. */
  lemma ThenCompute(x: Context, first: seq<Instr>, second: seq<Instr>, m: Machine, lv: int, live: Live, before: Ty,
                    ws: set<nat>, value: Option<int>, t: Ty, s: nat, c: nat)
    requires Ok(m) && Simulates(x, first, m, Done(lv, live), before, s, c)
    requires Block(second) && Computes(x.env, second, Run(x.env, first, m), ws, value)
    requires Covers(x.dirt, ws) && RSP !in ws && RBP !in ws
    requires value.Some? ==> InRange(t, value.value)
    ensures Simulates(x, first + second, m, if value.None? then Fault(live.trace) else Done(value.value, live), t, s, c)
  {
    var m1 := Run(x.env, first, m);
    BlockAppend(first, second);
    RunAppend(x.env, first, second, m);
    if value.Some? {
      EvaluatorStep(x, ws, m1, Run(x.env, second, m1), live);
    }
  }

  lemma ThenFault(x: Context, first: seq<Instr>, second: seq<Instr>, m: Machine, tr: seq<Event>, before: Ty, t: Ty, s: nat, c: nat)
    requires Ok(m) && Simulates(x, first, m, Fault(tr), before, s, c) && Block(second)
    ensures Simulates(x, first + second, m, Fault(tr), t, s, c)
  {
    BlockAppend(first, second);
    RunAppend(x.env, first, second, m);
  }

  // ----- Well-formed trees -----

  /** A callee as the front end admits it: register parameters in distinct registers, stack
      parameters inside the outgoing area, and no reserved output register. */
  ghost predicate CalleeOk(x: Context, f: Callee) {
    ParamsOk(x, f) && OutputsOk(x, f)
  }

  ghost predicate ParamsOk(x: Context, f: Callee) {
    && |f.params| <= x.lay.perCall && Extra(f.params) <= 8 * x.lay.outgoing
    && forall i :: 0 <= i < |f.params| ==> ParamOk(x, f, i)
  }

  ghost predicate OutputsOk(x: Context, f: Callee) {
    forall r :: 0 <= r < REGS ==> OutputOk(x, f, r)
  }

  /** The parameter travels in a register. */
  predicate Bound(p: Param) {
    !p.onStack && p.direction != Out
  }

  ghost predicate ParamOk(x: Context, f: Callee, i: nat)
    requires i < |f.params|
  {
    var p := f.params[i];
    && (p.onStack ==> i >= 4 && p.direction == In && 8 * (i - 4) + 8 <= Extra(f.params))
    && (Bound(p) ==> WellFormedRegister(p.reg) && p.reg.family != RSP && p.reg.family != RBP &&
                     !Rebinds(f.params, i + 1, p.reg.family))
  }

  ghost predicate Rebinds(params: seq<Param>, i: nat, r: nat) {
    exists j :: i <= j < |params| && Bound(params[j]) && params[j].reg.family == r
  }

  ghost predicate OutputOk(x: Context, f: Callee, r: nat) {
    match OutputOf(f.params, r)
    case None => true
    case Some(reg) =>
      WellFormedRegister(reg) && r != RAX && r != RSP && r != RBP
  }

  // ----- What code has written -----

  /** The pieces that the code of a binary operation writes. */
  function OpParts(op: BinOp): set<Part> {
    Whole(RAX) + Whole(R10) +
    (if op == DivOp || op == ModOp then Whole(RDX) + Whole(R11) else if op == ShlOp || op == ShrOp then Whole(RCX) else {})
  }

  lemma OpPartsCover(op: BinOp)
    ensures Covers(OpParts(op), OpWrites(op))
  {
  }

  /** The pieces that binding the register arguments writes. */
  function BindParts(params: seq<Param>): set<Part> {
    if params == [] then {}
    else (if Bound(params[0]) then FieldParts(params[0].reg) else {}) + BindParts(params[1..])
  }

  lemma {:induction false} BindPartsOf(params: seq<Param>, i: nat)
    requires i < |params| && Bound(params[i])
    ensures FieldParts(params[i].reg) <= BindParts(params)
  {
    if i > 0 {
      BindPartsOf(params[1..], i - 1);
    }
  }

  /** The pieces of registers that the code of e writes, apart from rax. */
  function Writes(callees: seq<Callee>, e: Expr): set<Part>
    decreases e, 0
  {
    match e
    case Unary(_, y, _) => Writes(callees, y)
    case Binary(op, l, r, _) => Writes(callees, l) + Writes(callees, r) + OpParts(op)
    case CallTo(f, args, _) => WritesAll(callees, args) + (if f < |callees| then BindParts(callees[f].params) else {})
    case _ => {}
  }

  function WritesAll(callees: seq<Callee>, es: seq<Expr>): set<Part>
    decreases es, 0
  {
    if es == [] then {} else Writes(callees, es[0]) + WritesAll(callees, es[1..])
  }

  /** The rest of every register with a narrow output is as the source has it. */
  ghost predicate CaptureClean(f: Callee, dirt: set<Part>) {
    forall r :: 0 <= r < REGS ==> OutputClean(OutputOf(f.params, r), r, dirt)
  }

  predicate OutputClean(o: Option<Register>, r: nat, dirt: set<Part>) {
    o.Some? && Narrow(o.value) ==> (Whole(r) - FieldParts(o.value)) !! dirt
  }

  /** No narrow output is captured after code of the same expression wrote another piece of its
      register; dirt is what was written before e. */
  ghost predicate Clean(callees: seq<Callee>, e: Expr, dirt: set<Part>)
    decreases e, 0
  {
    match e
    case Unary(_, y, _) => Clean(callees, y, dirt)
    case Binary(_, l, r, _) => Clean(callees, l, dirt) && Clean(callees, r, dirt + Writes(callees, l))
    case CallTo(f, args, _) =>
      CleanAll(callees, args, dirt) &&
      (f < |callees| ==> CaptureClean(callees[f], dirt + WritesAll(callees, args) + BindParts(callees[f].params)))
    case _ => true
  }

  ghost predicate CleanAll(callees: seq<Callee>, es: seq<Expr>, dirt: set<Part>)
    decreases es, 0
  {
    es != [] ==> Clean(callees, es[0], dirt) && CleanAll(callees, es[1..], dirt + Writes(callees, es[0]))
  }

  ghost predicate WellFormed(x: Context, e: Expr)
    decreases e, 0
  {
    match e
    case Const(v, t) => v < W && Normalize(t, v) == v
    case AddressOf(_, _) => true
    case Local(k, _) => k < x.lay.locals
    case Leaf(reg, _) => WellFormedRegister(reg)
    case Unary(op, y, t) => (op == PosOp ==> Retypes(TypeOf(y), t)) && WellFormed(x, y)
    case Binary(op, l, r, t) =>
      && OperandTypes(op, t, TypeOf(l), TypeOf(r)) && WellFormed(x, l) && WellFormed(x, r)
    case CallTo(f, args, _) =>
      && f < |x.env.callees| && CalleeOk(x, x.env.callees[f])
      && WellFormedAll(x, x.env.callees[f].params, args, 0)
  }

  /** One argument for each parameter that takes one. */
  ghost predicate WellFormedAll(x: Context, params: seq<Param>, args: seq<Expr>, i: nat)
    requires i <= |params|
    decreases args, |params| - i
  {
    if i == |params| then args == []
    else if params[i].direction == Out then WellFormedAll(x, params, args, i + 1)
    else args != [] && WellFormed(x, args[0]) && WellFormedAll(x, params, args[1..], i + 1)
  }

  lemma {:induction false} SameCallee(x: Context, x': Context, f: Callee)
    requires x'.env == x.env && x'.lay == x.lay
    ensures CalleeOk(x, f) ==> CalleeOk(x', f)
  {
    if CalleeOk(x, f) {
      forall i | 0 <= i < |f.params|
        ensures ParamOk(x', f, i)
      {
        assert ParamOk(x, f, i);
      }
      forall r | 0 <= r < REGS
        ensures OutputOk(x', f, r)
      {
        assert OutputOk(x, f, r);
      }
    }
  }

  /** What is well formed does not depend on the registers and the locals. */
  lemma {:induction false} SameTrees(x: Context, x': Context, e: Expr)
    requires x'.env == x.env && x'.lay == x.lay && WellFormed(x, e)
    ensures WellFormed(x', e)
    decreases e, 0
  {
    match e
    case Unary(_, y, _) => SameTrees(x, x', y);
    case Binary(_, l, r, _) =>
      SameTrees(x, x', l);
      SameTrees(x, x', r);
    case CallTo(f, args, _) =>
      SameCallee(x, x', x.env.callees[f]);
      SameArguments(x, x', x.env.callees[f].params, args, 0);
    case _ =>
  }

  lemma {:induction false} SameArguments(x: Context, x': Context, params: seq<Param>, args: seq<Expr>, i: nat)
    requires x'.env == x.env && x'.lay == x.lay && i <= |params|
    requires WellFormedAll(x, params, args, i)
    ensures WellFormedAll(x', params, args, i)
    decreases args, |params| - i
  {
    if i == |params| {
    } else if params[i].direction == Out {
      SameArguments(x, x', params, args, i + 1);
    } else {
      SameTrees(x, x', args[0]);
      SameArguments(x, x', params, args[1..], i + 1);
    }
  }

  // ----- Binary operators -----

  lemma StoreSpill(x: Context, m: Machine, live: Live, s: nat, c: nat)
    requires Running(x, m, live) && s < x.lay.depth
    ensures var i := Store(RBP, x.lay.SpillSlot(s), RAX);
            var m' := Exec(x.env, i, m);
            Running(x, m', live) && Kept(x, m.mem, m'.mem, s, c) && m'.regs == m.regs &&
            Read(m'.mem, SpillAt(x, s)) == Value(m.regs[RAX])
  {
    StoreStep(x, m, live, SpillAt(x, s), Value(m.regs[RAX]));
  }

  lemma SimulateStored(x: Context, code: seq<Instr>, m: Machine, v: int, live: Live, t: Ty, s: nat, c: nat)
    requires Ok(m) && Simulates(x, code, m, Done(v, live), t, s + 1, c) && s < x.lay.depth
    ensures var stored := code + [Store(RBP, x.lay.SpillSlot(s), RAX)];
            && Block(stored)
            && var m' := Run(x.env, stored, m);
               Running(x, m', live) && Kept(x, m.mem, m'.mem, s, c) && Read(m'.mem, SpillAt(x, s)) == Value(Rep(v))
  {
    var i := Store(RBP, x.lay.SpillSlot(s), RAX);
    var m1 := Run(x.env, code, m);
    StoreSpill(x, m1, live, s, c);
    RunOne(x.env, i, m1);
    BlockAppend(code, [i]);
    RunAppend(x.env, code, [i], m);
    KeptWeaken(x, m.mem, m1.mem, s, c, s + 1, c);
    KeptTrans(x, m.mem, m1.mem, Exec(x.env, i, m1).mem, s, c);
  }

  lemma ExecReload(x: Context, m: Machine, l: int, s: nat)
    requires ContextOk(x) && Ok(m) && m.regs[RBP] == x.rbp && Read(m.mem, SpillAt(x, s)) == Value(Rep(l))
    ensures Exec(x.env, Load(Register(R10, B64, false), RBP, x.lay.SpillSlot(s)), m) == Put(m, R10, Rep(l))
  {
  }

  lemma ReloadLeft(x: Context, op: BinOp, t: Ty, operand: Ty, m: Machine, l: int, r: int, s: nat)
    requires ContextOk(x) && Ok(m) && !m.stopped && m.regs[RBP] == x.rbp && m.regs[RAX] == Rep(r)
    requires Read(m.mem, SpillAt(x, s)) == Value(Rep(l)) && OperandsRead(op, t, operand, l, r)
    ensures var code := [Load(Register(R10, B64, false), RBP, x.lay.SpillSlot(s))] + OperationCode(op, t, operand);
            Block(code) && Computes(x.env, code, m, OpWrites(op), BinValue(op, t, l, r))
  {
    hide InRange, IsComparison, OperationCode, Block, OperandsRead;
    var load := Load(Register(R10, B64, false), RBP, x.lay.SpillSlot(s));
    var m1 := Exec(x.env, load, m);
    ExecReload(x, m, l, s);
    RunOne(x.env, load, m);
    RunOperation(x.env, op, t, operand, l, r, m1);
    RunCons(x.env, load, OperationCode(op, t, operand), m);
    BlockAppend([load], OperationCode(op, t, operand));
  }

  /** After the right operand: reload the left one and apply the operation. */
  lemma SimulateRight(x: Context, code: seq<Instr>, op: BinOp, t: Ty, operand: Ty, right: Ty, m: Machine, l: int, r: int, live: Live,
                      s: nat, c: nat)
    requires Ok(m) && Simulates(x, code, m, Done(r, live), right, s + 1, c) && s < x.lay.depth
    requires Read(m.mem, SpillAt(x, s)) == Value(Rep(l)) && InRange(operand, l)
    requires OperandTypes(op, t, operand, right) && OpParts(op) <= x.dirt
    ensures var load := Load(Register(R10, B64, false), RBP, x.lay.SpillSlot(s));
            Simulates(x, code + ([load] + OperationCode(op, t, operand)), m,
                      match BinValue(op, t, l, r) case None => Fault(live.trace) case Some(v) => Done(v, live), t, s, c)
  {
    hide BinValue, Run;
    var second := [Load(Register(R10, B64, false), RBP, x.lay.SpillSlot(s))] + OperationCode(op, t, operand);
    var m1 := Run(x.env, code, m);
    assert Fixed(x.lay, s + 1, c, x.rbp - SpillAt(x, s));
    TypesRead(op, t, operand, right, l, r);
    ReloadLeft(x, op, t, operand, m1, l, r, s);
    KeptWeaken(x, m.mem, m1.mem, s, c, s + 1, c);
    OperationInRange(op, t, l, r);
    OpPartsCover(op);
    ThenCompute(x, code, second, m, r, live, right, OpWrites(op), BinValue(op, t, l, r), t, s, c);
  }
}
