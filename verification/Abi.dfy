/** The code around a function body: saving, probing and parameter binding before it, restoring
    after it, and the contract with the caller that both keep. */
module Abi {
  import opened Words
  import opened X86
  import opened Codegen
  import opened Operations
  import opened Simulation
  import opened Calls

  const SAVED: nat := 13

  /** The registers saved in the frame, in the order they are pushed. */
  function SavedReg(i: nat): nat {
    if i < 3 then i + 1 else i + 3
  }

  function FlagBytes(f: Callee): nat {
    if f.clobbersFlags then 0 else 8
  }

  // ----- Epilogue -----

  function PopOne(f: Callee, r: nat): seq<Instr> {
    match OutputOf(f.params, r)
    case Some(o) =>
      if Narrow(o) then [StorePart(RSP, 0, o, o), Pop(r)]
      else if o.width == B32 then [MovReg32(r, r), SkipSlot]
      else [SkipSlot]
    case None => if r in f.clobbers then [SkipSlot] else [Pop(r)]
  }

  function PopCode(f: Callee, i: nat): seq<Instr>
    requires i <= SAVED
  {
    if i == 0 then (if f.clobbersFlags then [] else [Popfq]) + [Ret]
    else PopOne(f, SavedReg(i - 1)) + PopCode(f, i - 1)
  }

  function EpilogueCode(f: Callee): seq<Instr> {
    [MovReg(RSP, RBP), Pop(RBP)] + PopCode(f, SAVED)
  }

  /** Outputs that the front end admits: whole fields of registers other than rax, rsp and rbp. */
  ghost predicate OutputsDeclared(f: Callee) {
    forall r :: 0 <= r < REGS ==> OutputDeclared(f, r)
  }

  ghost predicate OutputDeclared(f: Callee, r: nat) {
    match OutputOf(f.params, r)
    case None => true
    case Some(o) => WellFormedRegister(o) && r != RAX && r != RSP && r != RBP
  }

  function SlotOf(rbp: nat, i: nat): int {
    rbp + 8 * (SAVED - i)
  }

  /** What the prologue left above the frame pointer. */
  ghost predicate SavedArea(f: Callee, entry: Machine, rbp: nat, mem: Memory)
    requires Ok(entry)
  {
    && Read(mem, rbp) == Value(entry.regs[RBP])
    && (forall i :: 0 <= i < SAVED ==> Read(mem, SlotOf(rbp, i)) == Value(entry.regs[SavedReg(i)]))
    && (!f.clobbersFlags ==> Read(mem, rbp + 112) == Saved(entry.flags))
  }

  /** The registers a body hands to its caller: the declared field of an output register, the
      whole of any other. */
  function Handed(f: Callee, me: Machine): Behaviour
    requires Ok(me)
  {
    Behaviour(seq(REGS, r requires 0 <= r < REGS => HandedReg(f, me.regs[r], r)), me.flags, map[])
  }

  function HandedReg(f: Callee, v: nat, r: nat): nat {
    match OutputOf(f.params, r) case Some(o) => Field(v, o) case None => v
  }

  /** One saved register: afterwards it holds what the contract says, and rsp is past its slot. */
  ghost predicate PoppedOne(f: Callee, m: Machine, m': Machine, r: nat, saved: nat)
    requires r < REGS
  {
    && Ok(m) && Ok(m') && !m'.stopped && m'.flags == m.flags && m'.trace == m.trace
    && m'.regs[RSP] == m.regs[RSP] + 8
    && m'.regs[r] == AfterCall(f, Handed(f, m), r, saved)
    && (forall k :: 0 <= k < REGS && k != r && k != RSP ==> m'.regs[k] == m.regs[k])
    && forall a: int :: a != m.regs[RSP] ==> Read(m'.mem, a) == Read(m.mem, a)
  }

  lemma PatchIsMerge(saved: nat, o: Register, v: nat)
    requires saved < W && WellFormedRegister(o) && Narrow(o)
    ensures 0 <= Patch(saved, o, Field(v, o)) < W && Patch(saved, o, Field(v, o)) == Merge(saved, o, Field(v, o))
  {
    if o.high8 {
      HighPart(saved, Field(v, o));
    } else {
      LowPart(saved, Field(v, o), if o.width == B8 then 0x100 else 0x1_0000);
    }
  }

  lemma FieldSmall(v: nat, o: Register)
    ensures Field(v, o) < W
  {
  }

  lemma ExecPatch(env: Env, m: Machine, o: Register, saved: nat)
    requires Ok(m) && !m.stopped && o.family < REGS && WellFormedRegister(o) && Narrow(o) && saved < W
    requires Read(m.mem, m.regs[RSP]) == Value(saved)
    ensures Merge(saved, o, Field(m.regs[o.family], o)) < W
    ensures Exec(env, StorePart(RSP, 0, o, o), m) ==
            m.(mem := m.mem[m.regs[RSP] := Value(Merge(saved, o, Field(m.regs[o.family], o)))])
  {
    PatchIsMerge(saved, o, m.regs[o.family]);
  }

  lemma ExecPop(env: Env, m: Machine, r: nat, v: nat)
    requires Ok(m) && !m.stopped && r < REGS && r != RSP && m.regs[RSP] + 8 < W && v < W
    requires Read(m.mem, m.regs[RSP]) == Value(v)
    ensures var m' := Exec(env, Pop(r), m);
            && m' == m.(regs := m'.regs) && m'.regs[RSP] == m.regs[RSP] + 8 && m'.regs[r] == v
            && forall k :: 0 <= k < REGS && k != r && k != RSP ==> m'.regs[k] == m.regs[k]
  {
  }

  lemma RunPopNarrow(env: Env, f: Callee, m: Machine, r: nat, o: Register, saved: nat)
    requires Ok(m) && !m.stopped && r < REGS && r != RSP && m.regs[RSP] + 8 < W && saved < W
    requires OutputOf(f.params, r) == Some(o) && o.family == r && WellFormedRegister(o) && Narrow(o)
    requires Read(m.mem, m.regs[RSP]) == Value(saved)
    ensures Block(PopOne(f, r)) && PoppedOne(f, m, Run(env, PopOne(f, r), m), r, saved)
  {
    hide Run, Merge, Field, Exec, Good;
    var store, v := StorePart(RSP, 0, o, o), Merge(saved, o, Field(m.regs[r], o));
    ExecPatch(env, m, o, saved);
    FieldSmall(m.regs[r], o);
    ExecPop(env, Exec(env, store, m), r, v);
    RunTwo(env, store, Pop(r), m);
    assert AfterCall(f, Handed(f, m), r, saved) == v;
  }

  lemma RunPop32(env: Env, f: Callee, m: Machine, r: nat, o: Register, saved: nat)
    requires Ok(m) && !m.stopped && r < REGS && r != RSP && m.regs[RSP] + 8 < W
    requires OutputOf(f.params, r) == Some(o) && o.family == r && WellFormedRegister(o) && o.width == B32
    ensures Block(PopOne(f, r)) && PoppedOne(f, m, Run(env, PopOne(f, r), m), r, saved)
  {
    var cut := MovReg32(r, r);
    var m1 := Exec(env, cut, m);
    assert m1 == Put(m, r, m.regs[r] % 0x1_0000_0000);
    RunTwo(env, cut, SkipSlot, m);
  }

  lemma RunPopOne(env: Env, f: Callee, m: Machine, r: nat, saved: nat)
    requires Ok(m) && !m.stopped && r < REGS && r != RSP && r != RBP && r != RAX && m.regs[RSP] + 8 < W && saved < W
    requires OutputsDeclared(f) && Read(m.mem, m.regs[RSP]) == Value(saved)
    ensures Block(PopOne(f, r)) && PoppedOne(f, m, Run(env, PopOne(f, r), m), r, saved)
  {
    hide Read, Block, Run, OutputOf, GoodInstr, Good, Contained, Holds, DoCall, ExecMove, ExecAlu;
    OutputFamily(f.params, r);
    assert OutputDeclared(f, r);
    match OutputOf(f.params, r)
    case Some(o) =>
      if Narrow(o) {
        RunPopNarrow(env, f, m, r, o, saved);
      } else if o.width == B32 {
        RunPop32(env, f, m, r, o, saved);
      } else {
        RunOne(env, SkipSlot, m);
      }
    case None => RunOne(env, if r in f.clobbers then SkipSlot else Pop(r), m);
  }

  /** Registers 0..i of the saved list are still to be restored; me is the state at the end of
      the body. */
  ghost predicate Popping(f: Callee, entry: Machine, me: Machine, rbp: nat, m: Machine, i: nat)
    requires Ok(entry) && Ok(me) && i <= SAVED
  {
    && Ok(m) && !m.stopped && m.flags == me.flags && m.trace == me.trace
    && m.regs[RSP] == rbp + 8 * (SAVED + 1 - i) && m.regs[RBP] == entry.regs[RBP] && m.regs[RAX] == me.regs[RAX]
    && (forall k :: i <= k < SAVED ==>
          m.regs[SavedReg(k)] == AfterCall(f, Handed(f, me), SavedReg(k), entry.regs[SavedReg(k)]))
    && (forall k :: 0 <= k < i ==> m.regs[SavedReg(k)] == me.regs[SavedReg(k)])
    && (forall k :: 0 <= k < i ==> Read(m.mem, SlotOf(rbp, k)) == Value(entry.regs[SavedReg(k)]))
    && (forall a: int :: a >= rbp + 112 ==> Read(m.mem, a) == Read(me.mem, a))
  }

  lemma PopStep(f: Callee, entry: Machine, me: Machine, rbp: nat, m: Machine, m': Machine, i: nat)
    requires Ok(entry) && Ok(me) && 0 < i <= SAVED && Popping(f, entry, me, rbp, m, i)
    requires PoppedOne(f, m, m', SavedReg(i - 1), entry.regs[SavedReg(i - 1)])
    ensures Popping(f, entry, me, rbp, m', i - 1)
  {
    var r := SavedReg(i - 1);
    assert m.regs[r] == me.regs[r];
    assert Returned(Handed(f, m), r) == Returned(Handed(f, me), r);
  }

  /** The caller's view after the return. */
  ghost predicate ReturnedTo(f: Callee, entry: Machine, me: Machine, m': Machine)
    requires Ok(entry) && Ok(me)
  {
    && Ok(m') && m'.returned && m'.trace == me.trace
    && m'.regs[RSP] == entry.regs[RSP] + 8 && m'.regs[RBP] == entry.regs[RBP]
    && (forall r :: 0 <= r < REGS && r != RSP && r != RBP ==>
          m'.regs[r] == AfterCall(f, Handed(f, me), r, entry.regs[r]))
    && m'.flags == (if f.clobbersFlags then me.flags else entry.flags)
    && forall a: int :: a >= entry.regs[RSP] ==> Read(m'.mem, a) == Read(me.mem, a)
  }

  lemma SavedIndex(r: nat) returns (i: nat)
    requires r < REGS && r != RAX && r != RSP && r != RBP
    ensures i < SAVED && SavedReg(i) == r
  {
    i := if r < 4 then r - 1 else r - 3;
  }

  lemma AllRestored(f: Callee, entry: Machine, me: Machine, rbp: nat, m: Machine)
    requires Ok(entry) && Ok(me) && Popping(f, entry, me, rbp, m, 0) && OutputsDeclared(f)
    ensures forall r :: 0 <= r < REGS && r != RSP && r != RBP ==>
              m.regs[r] == AfterCall(f, Handed(f, me), r, entry.regs[r])
  {
    forall r | 0 <= r < REGS && r != RSP && r != RBP
      ensures m.regs[r] == AfterCall(f, Handed(f, me), r, entry.regs[r])
    {
      if r == RAX {
        assert OutputDeclared(f, RAX);
      } else {
        var i := SavedIndex(r);
      }
    }
  }

  lemma RunRet(env: Env, f: Callee, entry: Machine, me: Machine, rbp: nat, m: Machine)
    requires Ok(entry) && Ok(me) && Popping(f, entry, me, rbp, m, 0) && OutputsDeclared(f)
    requires entry.regs[RSP] == rbp + 112 + FlagBytes(f) && entry.regs[RSP] + 8 < W
    requires !f.clobbersFlags ==> Read(me.mem, rbp + 112) == Saved(entry.flags)
    ensures Block(PopCode(f, 0)) && ReturnedTo(f, entry, me, Run(env, PopCode(f, 0), m))
  {
    hide Run, Returned, HandedReg, DoCall, ExecMove, ExecAlu;
    AllRestored(f, entry, me, rbp, m);
    if f.clobbersFlags {
      assert PopCode(f, 0) == [Ret];
      RunOne(env, Ret, m);
    } else {
      assert PopCode(f, 0) == [Popfq, Ret];
      RunTwo(env, Popfq, Ret, m);
    }
  }

  lemma {:induction false} RunPopCode(env: Env, f: Callee, entry: Machine, me: Machine, rbp: nat, m: Machine, i: nat)
    requires Ok(entry) && Ok(me) && i <= SAVED && Popping(f, entry, me, rbp, m, i) && OutputsDeclared(f)
    requires entry.regs[RSP] == rbp + 112 + FlagBytes(f) && entry.regs[RSP] + 8 < W
    requires !f.clobbersFlags ==> Read(me.mem, rbp + 112) == Saved(entry.flags)
    ensures Block(PopCode(f, i)) && ReturnedTo(f, entry, me, Run(env, PopCode(f, i), m))
    decreases i
  {
    if i == 0 {
      RunRet(env, f, entry, me, rbp, m);
    } else {
      var r := SavedReg(i - 1);
      RunPopOne(env, f, m, r, entry.regs[r]);
      var m1 := Run(env, PopOne(f, r), m);
      PopStep(f, entry, me, rbp, m, m1, i);
      RunPopCode(env, f, entry, me, rbp, m1, i - 1);
      BlockAppend(PopOne(f, r), PopCode(f, i - 1));
      RunAppend(env, PopOne(f, r), PopCode(f, i - 1), m);
    }
  }

  /** Whatever the body did below the saved area, the epilogue returns to the caller with rsp
      just above the return address, every register as the caller's contract says, and the flags
      restored unless they are declared clobbered. */
  lemma EpilogueReturns(env: Env, f: Callee, entry: Machine, me: Machine, rbp: nat)
    requires Ok(entry) && Ok(me) && !me.stopped && me.regs[RBP] == rbp && OutputsDeclared(f)
    requires entry.regs[RSP] == rbp + 112 + FlagBytes(f) && entry.regs[RSP] + 8 < W
    requires SavedArea(f, entry, rbp, me.mem)
    ensures Block(EpilogueCode(f)) && ReturnedTo(f, entry, me, Run(env, EpilogueCode(f), me))
  {
    var move := MovReg(RSP, RBP);
    var m1 := Exec(env, move, me);
    assert m1 == Put(me, RSP, rbp);
    var m2 := Exec(env, Pop(RBP), m1);
    RunTwo(env, move, Pop(RBP), me);
    RunPopCode(env, f, entry, me, rbp, m2, SAVED);
    BlockAppend([move, Pop(RBP)], PopCode(f, SAVED));
    RunAppend(env, [move, Pop(RBP)], PopCode(f, SAVED), me);
  }

  // ----- Prologue -----

  function PushCode(i: nat): seq<Instr>
    requires i <= SAVED
    decreases SAVED - i
  {
    if i == SAVED then [Push(RBP), MovReg(RBP, RSP)] else [Push(SavedReg(i))] + PushCode(i + 1)
  }

  /** Each page of the frame is touched before the stack pointer moves beyond it. */
  function ProbeCode(remaining: nat): seq<Instr> {
    if remaining > 4096 then [LowerSp(4096), Touch] + ProbeCode(remaining - 4096)
    else if remaining > 0 then [LowerSp(remaining)] else []
  }

  /** Where the i-th stack argument lies relative to the frame pointer. */
  function IncomingSlot(f: Callee, i: nat): int {
    104 + 8 + FlagBytes(f) + 40 + (i - 4) * 8
  }

  function ParamOne(lay: Layout, f: Callee, i: nat): seq<Instr>
    requires i < |f.params|
  {
    var p := f.params[i];
    if p.direction == Out then []
    else if p.onStack then [Load(Register(RAX, B64, false), RBP, IncomingSlot(f, i)), Store(RBP, lay.LocalSlot(i), RAX)]
    else [StorePart(RBP, lay.LocalSlot(i), p.reg, Register(RAX, p.reg.width, false))]
  }

  function ParamCode(lay: Layout, f: Callee, i: nat): seq<Instr>
    requires i <= |f.params|
    decreases |f.params| - i
  {
    if i == |f.params| then [] else ParamOne(lay, f, i) + ParamCode(lay, f, i + 1)
  }

  predicate UsesStack(f: Callee) {
    |f.params| > 4 && exists i :: 0 <= i < |f.params| && f.params[i].onStack
  }

  /** rax carries the stack arguments, so it is kept meanwhile. */
  function BindParams(lay: Layout, f: Callee): seq<Instr> {
    if UsesStack(f) then
      [Store(RBP, lay.RegisterSlot(RAX, true), RAX)] +
      (ParamCode(lay, f, 0) + [Load(Register(RAX, B64, false), RBP, lay.RegisterSlot(RAX, true))])
    else ParamCode(lay, f, 0)
  }

  function FirstPush(f: Callee): seq<Instr> {
    if f.clobbersFlags then [] else [Pushfq]
  }

  function PrologueCode(lay: Layout, f: Callee): seq<Instr> {
    FirstPush(f) + (PushCode(0) + (ProbeCode(lay.Frame()) + BindParams(lay, f)))
  }

  /** Registers 0..i of the saved list are pushed below top. */
  ghost predicate Pushing(entry: Machine, m: Machine, top: nat, i: nat)
    requires Ok(entry) && i <= SAVED
  {
    && Ok(m) && !m.stopped && m.flags == entry.flags && m.trace == entry.trace
    && 8 * i <= top && m.regs == entry.regs[RSP := top - 8 * i]
    && (forall k :: 0 <= k < i ==> Read(m.mem, top - 8 * (k + 1)) == Value(entry.regs[SavedReg(k)]))
    && forall a: int :: a >= top ==> Read(m.mem, a) == Read(entry.mem, a)
  }

  lemma ExecPush(env: Env, m: Machine, r: nat)
    requires Ok(m) && !m.stopped && r < REGS && 8 <= m.regs[RSP]
    ensures Exec(env, Push(r), m) ==
            m.(regs := m.regs[RSP := m.regs[RSP] - 8], mem := m.mem[m.regs[RSP] - 8 := Value(m.regs[r])])
  {
  }

  lemma PushStep(env: Env, entry: Machine, m: Machine, top: nat, i: nat)
    requires Ok(entry) && i < SAVED && Pushing(entry, m, top, i) && 120 <= top < W
    ensures Pushing(entry, Exec(env, Push(SavedReg(i)), m), top, i + 1)
  {
    ExecPush(env, m, SavedReg(i));
    assert entry.regs[RSP := top - 8 * i][RSP := top - 8 * (i + 1)] == entry.regs[RSP := top - 8 * (i + 1)];
  }

  /** The frame pointer is set; everything of the caller that must survive is above it. */
  ghost predicate Framing(f: Callee, entry: Machine, m: Machine, rbp: nat)
    requires Ok(entry)
  {
    && Ok(m) && !m.stopped && m.trace == entry.trace
    && rbp + 112 + FlagBytes(f) == entry.regs[RSP]
    && m.regs[RBP] == rbp && SavedArea(f, entry, rbp, m.mem)
    && (forall r :: 0 <= r < REGS && r != RSP && r != RBP && r != RAX ==> m.regs[r] == entry.regs[r])
    && forall a: int :: a >= entry.regs[RSP] ==> Read(m.mem, a) == Read(entry.mem, a)
  }

  lemma RunPushLast(env: Env, entry: Machine, m: Machine, top: nat)
    requires Ok(entry) && Pushing(entry, m, top, SAVED) && 120 <= top < W
    ensures Block([Push(RBP), MovReg(RBP, RSP)])
    ensures var m' := Run(env, [Push(RBP), MovReg(RBP, RSP)], m);
            m' == m.(regs := m'.regs, mem := m.mem[top - 112 := Value(entry.regs[RBP])]) &&
            m'.regs == entry.regs[RSP := top - 112][RBP := top - 112]
  {
    ExecPush(env, m, RBP);
    RunTwo(env, Push(RBP), MovReg(RBP, RSP), m);
    assert entry.regs[RSP := top - 104][RSP := top - 112] == entry.regs[RSP := top - 112];
  }

  /** The state once rbp is pushed and set. */
  ghost predicate Pushed(entry: Machine, m: Machine, top: nat)
    requires Ok(entry)
  {
    && 120 <= top < W && Ok(m) && !m.stopped && m.flags == entry.flags && m.trace == entry.trace
    && m.regs == entry.regs[RSP := top - 112][RBP := top - 112]
    && Read(m.mem, top - 112) == Value(entry.regs[RBP])
    && (forall k :: 0 <= k < SAVED ==> Read(m.mem, top - 8 * (k + 1)) == Value(entry.regs[SavedReg(k)]))
    && forall a: int :: a >= top ==> Read(m.mem, a) == Read(entry.mem, a)
  }

  lemma {:induction false} RunPushCode(env: Env, entry: Machine, m: Machine, top: nat, i: nat)
    requires Ok(entry) && i <= SAVED && Pushing(entry, m, top, i) && 120 <= top < W
    ensures Block(PushCode(i)) && Pushed(entry, Run(env, PushCode(i), m), top)
    decreases SAVED - i
  {
    if i == SAVED {
      RunPushLast(env, entry, m, top);
    } else {
      var push := Push(SavedReg(i));
      PushStep(env, entry, m, top, i);
      RunPushCode(env, entry, Exec(env, push, m), top, i + 1);
      RunOne(env, push, m);
      RunCons(env, push, PushCode(i + 1), m);
      BlockAppend([push], PushCode(i + 1));
    }
  }

  /** rsp went down by n from where it was, and only memory below its old value was written. */
  ghost predicate Lowered(m: Machine, m': Machine, n: nat)
    requires Ok(m)
  {
    && Ok(m') && !m'.stopped && m'.trace == m.trace && n <= m.regs[RSP]
    && m'.regs == m.regs[RSP := m.regs[RSP] - n]
    && forall a: int :: a >= m.regs[RSP] ==> Read(m'.mem, a) == Read(m.mem, a)
  }

  lemma RunProbe(env: Env, m: Machine)
    requires Ok(m) && !m.stopped && 4096 <= m.regs[RSP]
    ensures Block([LowerSp(4096), Touch])
    ensures var m' := Run(env, [LowerSp(4096), Touch], m);
            Lowered(m, m', 4096) && TouchedAt(m'.mem, m.regs[RSP] - 4096)
  {
    hide Run;
    RunTwo(env, LowerSp(4096), Touch, m);
  }

  /** The byte at a has been written with zero. */
  ghost predicate TouchedAt(mem: Memory, a: int) {
    Read(mem, a).Value? && Read(mem, a).v % 0x100 == 0
  }

  /** Every page of the n bytes below sp is touched, in steps of 4096. */
  ghost predicate Probed(mem: Memory, sp: int, n: nat) {
    forall k: nat {:trigger PageAt(sp, k)} :: 1 <= k && 4096 * k < n ==> TouchedAt(mem, PageAt(sp, k))
  }

  function PageAt(sp: int, k: nat): int {
    sp - 4096 * k
  }

  lemma ProbedMore(mem: Memory, mem': Memory, sp: int, n: nat)
    requires n > 4096 && TouchedAt(mem, sp - 4096) && Probed(mem', sp - 4096, n - 4096)
    requires forall a: int :: a >= sp - 4096 ==> Read(mem', a) == Read(mem, a)
    ensures Probed(mem', sp, n)
  {
    forall k: nat | 1 <= k && 4096 * k < n
      ensures TouchedAt(mem', PageAt(sp, k))
    {
      if k > 1 {
        assert PageAt(sp, k) == PageAt(sp - 4096, k - 1);
      }
    }
  }

  lemma ProbeUnfolds(n: nat)
    requires n > 4096
    ensures ProbeCode(n) == [LowerSp(4096), Touch] + ProbeCode(n - 4096)
  {
  }

  lemma LoweredMore(m: Machine, m1: Machine, m2: Machine, n: nat)
    requires n > 4096 && Ok(m) && Lowered(m, m1, 4096) && Lowered(m1, m2, n - 4096)
    ensures Lowered(m, m2, n)
  {
    assert m.regs[RSP := m.regs[RSP] - 4096][RSP := m.regs[RSP] - n] == m.regs[RSP := m.regs[RSP] - n];
  }

  lemma LastProbe(env: Env, m: Machine, n: nat)
    requires Ok(m) && !m.stopped && n <= m.regs[RSP] && n <= 4096
    ensures Block(ProbeCode(n))
    ensures var m' := Run(env, ProbeCode(n), m); Lowered(m, m', n) && Probed(m'.mem, m.regs[RSP], n)
  {
    hide Probed;
    if n > 0 {
      RunOne(env, LowerSp(n), m);
    } else {
      assert m.regs == m.regs[RSP := m.regs[RSP]];
    }
    NothingProbed(Run(env, ProbeCode(n), m).mem, m.regs[RSP], n);
  }

  lemma NothingProbed(mem: Memory, sp: int, n: nat)
    requires n <= 4096
    ensures Probed(mem, sp, n)
  {
  }

  /** The probe loop lowers rsp by exactly the frame and skips no page on the way. */
  lemma {:induction false} ProbeLowersByFrame(env: Env, m: Machine, n: nat)
    requires Ok(m) && !m.stopped && n <= m.regs[RSP]
    ensures Block(ProbeCode(n))
    ensures var m' := Run(env, ProbeCode(n), m); Lowered(m, m', n) && Probed(m'.mem, m.regs[RSP], n)
    decreases n
  {
    hide Run, Exec, Probed, ProbeCode, TouchedAt;
    if n > 4096 {
      var rest := ProbeCode(n - 4096);
      ProbeUnfolds(n);
      RunProbe(env, m);
      var m1 := Run(env, [LowerSp(4096), Touch], m);
      ProbeLowersByFrame(env, m1, n - 4096);
      var m2 := Run(env, rest, m1);
      LoweredMore(m, m1, m2, n);
      ProbedMore(m1.mem, m2.mem, m.regs[RSP], n);
      BlockAppend([LowerSp(4096), Touch], rest);
      RunAppend(env, [LowerSp(4096), Touch], rest, m);
    } else {
      LastProbe(env, m, n);
    }
  }

  // ----- Parameters -----

  /** Parameters as the two calling conventions have them: register parameters in any register but
      rsp and rbp; stack parameters from the fifth on, and then none in rax. */
  ghost predicate ParamsDeclared(lay: Layout, f: Callee) {
    && |f.params| <= lay.locals
    && (forall i :: 0 <= i < |f.params| ==> ParamDeclared(f.params[i], i))
    && (forall i :: 0 <= i < |f.params| && UsesStack(f) ==> KeepsRax(f.params[i]))
  }

  predicate KeepsRax(p: Param) {
    Bound(p) ==> p.reg.family != RAX
  }

  ghost predicate ParamDeclared(p: Param, i: nat) {
    && (p.onStack ==> i >= 4 && p.direction == In)
    && (Bound(p) ==> WellFormedRegister(p.reg) && p.reg.family != RSP && p.reg.family != RBP)
  }

  /** The registers and the stack as the caller left them, at the call instruction. */
  function Caller(entry: Machine): Machine
    requires Ok(entry) && entry.regs[RSP] + 8 < W
  {
    entry.(regs := entry.regs[RSP := entry.regs[RSP] + 8])
  }

  /** Local i holds, in the width of the parameter, the word the caller passed. */
  ghost predicate Received(lay: Layout, f: Callee, i: nat, entry: Machine, rbp: int, mem: Memory)
    requires Ok(entry) && entry.regs[RSP] + 8 < W && i < |f.params|
  {
    f.params[i].direction != Out ==>
      WordOf(f.params[i], Number(Read(mem, rbp + lay.LocalSlot(i)))) == PassedWord(Caller(entry), f.params[i], i)
  }

  /** Binding parameters i and later: those before are in their locals. */
  ghost predicate Binding(lay: Layout, f: Callee, entry: Machine, m: Machine, rbp: nat, i: nat)
    requires Ok(entry) && entry.regs[RSP] + 8 < W
  {
    && Framing(f, entry, m, rbp) && m.regs[RSP] == rbp - lay.Frame()
    && (if UsesStack(f) then Read(m.mem, rbp + lay.RegisterSlot(RAX, true)) == Value(entry.regs[RAX])
        else m.regs[RAX] == entry.regs[RAX])
    && forall j :: 0 <= j < i && j < |f.params| ==> Received(lay, f, j, entry, rbp, m.mem)
  }

  lemma PatchKeepsField(slot: nat, r: Register, v: nat)
    requires slot < W && v < W && WellFormedRegister(r)
    ensures var w := Patch(slot, Register(RAX, r.width, false), Field(v, r));
            w < W && WordOf(Param(In, r, false), w) == Field(v, r)
  {
    PatchedLow(slot, r.width, Field(v, r));
    FieldIsCut(v, r);
  }

  lemma FieldIsCut(v: nat, r: Register)
    requires v < W && WellFormedRegister(r)
    ensures Cut(Field(v, r), r.width) == Field(v, r)
  {
  }

  lemma PatchedLow(slot: nat, width: Width, x: nat)
    requires slot < W && x < W
    ensures var w := Patch(slot, Register(RAX, width, false), x); 0 <= w < W && Cut(w, width) == Cut(x, width)
  {
    LowPart(slot, x, 0x100);
    LowPart(slot, x, 0x1_0000);
    if width == B32 {
      LowHalf(slot, x);
    }
  }

  lemma LowHalf(before: nat, v: nat)
    requires before < W && v < W
    ensures var r := before - before % 0x1_0000_0000 + v % 0x1_0000_0000;
            0 <= r < W && r % 0x1_0000_0000 == v % 0x1_0000_0000
  {
    ModAdd(v % 0x1_0000_0000, before / 0x1_0000_0000, 0x1_0000_0000);
    assert before == 0x1_0000_0000 * (before / 0x1_0000_0000) + before % 0x1_0000_0000;
  }

  /** A write below the frame pointer keeps the frame. */
  lemma FramingStore(f: Callee, entry: Machine, m: Machine, m': Machine, rbp: nat, at: int, w: Word)
    requires Ok(entry) && Framing(f, entry, m, rbp) && at < rbp
    requires Ok(m') && m' == m.(regs := m'.regs, mem := m.mem[at := w])
    requires forall r :: 0 <= r < REGS && r != RAX ==> m'.regs[r] == m.regs[r]
    ensures Framing(f, entry, m', rbp)
  {
  }

  lemma ReceivedStore(lay: Layout, f: Callee, entry: Machine, mem: Memory, mem': Memory, rbp: nat, i: nat, w: nat)
    requires Ok(entry) && entry.regs[RSP] + 8 < W && i < |f.params| && w < W
    requires forall j :: 0 <= j < i ==> Received(lay, f, j, entry, rbp, mem)
    requires f.params[i].direction != Out && WordOf(f.params[i], w) == PassedWord(Caller(entry), f.params[i], i)
    requires mem' == mem[rbp + lay.LocalSlot(i) := Value(w)]
    ensures forall j :: 0 <= j < i + 1 ==> Received(lay, f, j, entry, rbp, mem')
  {
    forall j | 0 <= j < i + 1
      ensures Received(lay, f, j, entry, rbp, mem')
    {
      assert j < i ==> Received(lay, f, j, entry, rbp, mem);
    }
  }

  /** A write to local i keeps the rest of what is being bound. */
  lemma BindingStep(lay: Layout, f: Callee, entry: Machine, m: Machine, m': Machine, rbp: nat, i: nat, w: nat)
    requires Ok(entry) && entry.regs[RSP] + 8 < W && i < |f.params| <= lay.locals && Binding(lay, f, entry, m, rbp, i)
    requires Ok(m') && m' == m.(regs := m'.regs, mem := m.mem[rbp + lay.LocalSlot(i) := Value(w)])
    requires forall r :: 0 <= r < REGS && (r != RAX || !UsesStack(f)) ==> m'.regs[r] == m.regs[r]
    requires f.params[i].direction != Out && w < W && WordOf(f.params[i], w) == PassedWord(Caller(entry), f.params[i], i)
    ensures Binding(lay, f, entry, m', rbp, i + 1)
  {
    FramingStore(f, entry, m, m', rbp, rbp + lay.LocalSlot(i), Value(w));
    ReceivedStore(lay, f, entry, m.mem, m'.mem, rbp, i, w);
  }

  lemma RunParamStack(env: Env, lay: Layout, f: Callee, entry: Machine, m: Machine, rbp: nat, i: nat)
    requires Ok(entry) && entry.regs[RSP] + 8 < W && i < |f.params| <= lay.locals && Binding(lay, f, entry, m, rbp, i)
    requires f.params[i].onStack && ParamDeclared(f.params[i], i)
    ensures Block(ParamOne(lay, f, i)) && Binding(lay, f, entry, Run(env, ParamOne(lay, f, i), m), rbp, i + 1)
  {
    hide Block, Run, Number, Read, FlagBytes, DoCall, IsStack, Field;
    assert UsesStack(f);
    var load, store := Load(Register(RAX, B64, false), RBP, IncomingSlot(f, i)), Store(RBP, lay.LocalSlot(i), RAX);
    var w := Number(Read(m.mem, rbp + IncomingSlot(f, i)));
    assert rbp + IncomingSlot(f, i) == entry.regs[RSP] + 8 + 32 + 8 * (i - 4);
    var m1 := Exec(env, load, m);
    assert m1 == Put(m, RAX, w);
    RunTwo(env, load, store, m);
    BindingStep(lay, f, entry, m, Exec(env, store, m1), rbp, i, w);
  }

  lemma RunParamRegister(env: Env, lay: Layout, f: Callee, entry: Machine, m: Machine, rbp: nat, i: nat)
    requires Ok(entry) && entry.regs[RSP] + 8 < W && i < |f.params| <= lay.locals && Binding(lay, f, entry, m, rbp, i)
    requires Bound(f.params[i]) && ParamDeclared(f.params[i], i) && (UsesStack(f) ==> KeepsRax(f.params[i]))
    ensures Block(ParamOne(lay, f, i)) && Binding(lay, f, entry, Run(env, ParamOne(lay, f, i), m), rbp, i + 1)
  {
    var p := f.params[i];
    var store := StorePart(RBP, lay.LocalSlot(i), p.reg, Register(RAX, p.reg.width, false));
    var slot := Number(Read(m.mem, rbp + lay.LocalSlot(i)));
    PatchKeepsField(slot, p.reg, m.regs[p.reg.family]);
    RunOne(env, store, m);
    BindingStep(lay, f, entry, m, Exec(env, store, m), rbp, i,
                Patch(slot, Register(RAX, p.reg.width, false), Field(m.regs[p.reg.family], p.reg)));
  }

  lemma RunParamOne(env: Env, lay: Layout, f: Callee, entry: Machine, m: Machine, rbp: nat, i: nat)
    requires Ok(entry) && entry.regs[RSP] + 8 < W && ParamsDeclared(lay, f) && i < |f.params| && Binding(lay, f, entry, m, rbp, i)
    ensures Block(ParamOne(lay, f, i)) && Binding(lay, f, entry, Run(env, ParamOne(lay, f, i), m), rbp, i + 1)
  {
    assert ParamDeclared(f.params[i], i) && (UsesStack(f) ==> KeepsRax(f.params[i]));
    if f.params[i].direction == Out {
      assert Received(lay, f, i, entry, rbp, m.mem);
    } else if f.params[i].onStack {
      RunParamStack(env, lay, f, entry, m, rbp, i);
    } else {
      RunParamRegister(env, lay, f, entry, m, rbp, i);
    }
  }

  lemma {:induction false} RunParamCode(env: Env, lay: Layout, f: Callee, entry: Machine, m: Machine, rbp: nat, i: nat)
    requires Ok(entry) && entry.regs[RSP] + 8 < W && ParamsDeclared(lay, f) && i <= |f.params| && Binding(lay, f, entry, m, rbp, i)
    ensures Block(ParamCode(lay, f, i)) && Binding(lay, f, entry, Run(env, ParamCode(lay, f, i), m), rbp, |f.params|)
    decreases |f.params| - i
  {
    hide ParamOne;
    if i < |f.params| {
      hide Run;
      var one, rest := ParamOne(lay, f, i), ParamCode(lay, f, i + 1);
      RunParamOne(env, lay, f, entry, m, rbp, i);
      RunParamCode(env, lay, f, entry, Run(env, one, m), rbp, i + 1);
      BlockAppend(one, rest);
      RunAppend(env, one, rest, m);
    }
  }

  /** The body starts: every parameter is in its local, and all registers but the frame's own
      still have the caller's values. */
  ghost predicate BodyStarts(lay: Layout, f: Callee, entry: Machine, m: Machine, rbp: nat)
    requires Ok(entry) && entry.regs[RSP] + 8 < W
  {
    && Framing(f, entry, m, rbp) && m.regs[RSP] == rbp - lay.Frame() && m.regs[RAX] == entry.regs[RAX]
    && forall j :: 0 <= j < |f.params| ==> Received(lay, f, j, entry, rbp, m.mem)
  }

  lemma RunBindParams(env: Env, lay: Layout, f: Callee, entry: Machine, m: Machine, rbp: nat)
    requires Ok(entry) && entry.regs[RSP] + 8 < W && ParamsDeclared(lay, f)
    requires Framing(f, entry, m, rbp) && m.regs[RSP] == rbp - lay.Frame() && m.regs[RAX] == entry.regs[RAX]
    ensures Block(BindParams(lay, f)) && BodyStarts(lay, f, entry, Run(env, BindParams(lay, f), m), rbp)
  {
    var params := ParamCode(lay, f, 0);
    if UsesStack(f) {
      var store := Store(RBP, lay.RegisterSlot(RAX, true), RAX);
      var load := Load(Register(RAX, B64, false), RBP, lay.RegisterSlot(RAX, true));
      RunOne(env, store, m);
      var m1 := Exec(env, store, m);
      RunParamCode(env, lay, f, entry, m1, rbp, 0);
      var m2 := Run(env, params, m1);
      RunThenOne(env, params, load, m1);
      RunCons(env, store, params + [load], m);
      BlockAppend([store], params + [load]);
      ReloadRax(env, lay, f, entry, m2, rbp);
    } else {
      RunParamCode(env, lay, f, entry, m, rbp, 0);
    }
  }

  lemma ReloadRax(env: Env, lay: Layout, f: Callee, entry: Machine, m: Machine, rbp: nat)
    requires Ok(entry) && entry.regs[RSP] + 8 < W && Binding(lay, f, entry, m, rbp, |f.params|) && UsesStack(f)
    ensures BodyStarts(lay, f, entry, Exec(env, Load(Register(RAX, B64, false), RBP, lay.RegisterSlot(RAX, true)), m), rbp)
  {
  }

  lemma PushedFrames(f: Callee, entry: Machine, flagged: Machine, m: Machine)
    requires Ok(entry) && FlagBytes(f) <= entry.regs[RSP] && entry.regs[RSP] + 8 < W && Ok(flagged)
    requires flagged.regs == entry.regs[RSP := entry.regs[RSP] - FlagBytes(f)] && flagged.trace == entry.trace
    requires !f.clobbersFlags ==> Read(flagged.mem, entry.regs[RSP] - 8) == Saved(entry.flags)
    requires forall a: int :: a >= entry.regs[RSP] ==> Read(flagged.mem, a) == Read(entry.mem, a)
    requires Pushed(flagged, m, entry.regs[RSP] - FlagBytes(f))
    ensures var rbp := entry.regs[RSP] - FlagBytes(f) - 112;
            Framing(f, entry, m, rbp) && m.regs[RSP] == rbp && m.regs[RAX] == entry.regs[RAX]
  {
    var top := entry.regs[RSP] - FlagBytes(f);
    forall i | 0 <= i < SAVED
      ensures Read(m.mem, SlotOf(top - 112, i)) == Value(entry.regs[SavedReg(i)])
    {
      assert SlotOf(top - 112, i) == top - 8 * (i + 1);
    }
  }

  lemma LoweredFrames(f: Callee, entry: Machine, m: Machine, m': Machine, n: nat, rbp: nat)
    requires Ok(entry) && Ok(m) && Framing(f, entry, m, rbp) && m.regs[RSP] == rbp && m.regs[RAX] == entry.regs[RAX]
    requires Lowered(m, m', n)
    ensures Framing(f, entry, m', rbp) && m'.regs[RSP] == rbp - n && m'.regs[RAX] == entry.regs[RAX]
  {
  }

  lemma RunFirstPush(env: Env, f: Callee, entry: Machine)
    requires Ok(entry) && !entry.stopped && 128 <= entry.regs[RSP]
    ensures Block(FirstPush(f))
    ensures var m := Run(env, FirstPush(f), entry);
            && Ok(m) && m == entry.(regs := m.regs, mem := m.mem)
            && m.regs == entry.regs[RSP := entry.regs[RSP] - FlagBytes(f)]
            && (!f.clobbersFlags ==> Read(m.mem, entry.regs[RSP] - 8) == Saved(entry.flags))
            && forall a: int :: a >= entry.regs[RSP] ==> Read(m.mem, a) == Read(entry.mem, a)
  {
    if !f.clobbersFlags {
      RunOne(env, Pushfq, entry);
    } else {
      assert entry.regs[RSP := entry.regs[RSP]] == entry.regs;
    }
  }

  /** The saved area after the pushes. */
  lemma SavesFrame(env: Env, f: Callee, entry: Machine)
    requires Ok(entry) && !entry.stopped && 128 <= entry.regs[RSP] && entry.regs[RSP] + 8 < W
    ensures Block(FirstPush(f)) && Block(PushCode(0))
    ensures var m := Run(env, PushCode(0), Run(env, FirstPush(f), entry));
            var rbp := entry.regs[RSP] - FlagBytes(f) - 112;
            Framing(f, entry, m, rbp) && m.regs[RSP] == rbp && m.regs[RAX] == entry.regs[RAX]
  {
    var top := entry.regs[RSP] - FlagBytes(f);
    RunFirstPush(env, f, entry);
    var m1 := Run(env, FirstPush(f), entry);
    assert m1.regs[RSP := top] == m1.regs;
    RunPushCode(env, m1, m1, top, 0);
    PushedFrames(f, entry, m1, Run(env, PushCode(0), m1));
  }

  lemma RunFour(env: Env, a: seq<Instr>, b: seq<Instr>, c: seq<Instr>, d: seq<Instr>, m: Machine)
    requires Ok(m) && Block(a) && Block(b) && Block(c) && Block(d)
    ensures Block(a + (b + (c + d)))
    ensures Run(env, a + (b + (c + d)), m) == Run(env, d, Run(env, c, Run(env, b, Run(env, a, m))))
  {
    BlockAppend(c, d);
    BlockAppend(b, c + d);
    BlockAppend(a, b + (c + d));
    RunAppend(env, a, b + (c + d), m);
    RunAppend(env, b, c + d, Run(env, a, m));
    RunAppend(env, c, d, Run(env, b, Run(env, a, m)));
  }

  /** From the entry of a function its prologue saves what the caller must get back, lowers rsp
      by exactly the frame, and hands every argument to its local. */
  lemma PrologueStarts(env: Env, lay: Layout, f: Callee, entry: Machine)
    requires Ok(entry) && !entry.stopped && ParamsDeclared(lay, f)
    requires 128 + lay.Frame() <= entry.regs[RSP] && entry.regs[RSP] + 8 < W
    ensures Block(PrologueCode(lay, f))
    ensures BodyStarts(lay, f, entry, Run(env, PrologueCode(lay, f), entry), entry.regs[RSP] - FlagBytes(f) - 112)
  {
    var first, push, probe, bind := FirstPush(f), PushCode(0), ProbeCode(lay.Frame()), BindParams(lay, f);
    var rbp := entry.regs[RSP] - FlagBytes(f) - 112;
    SavesFrame(env, f, entry);
    var m2 := Run(env, push, Run(env, first, entry));
    ProbeLowersByFrame(env, m2, lay.Frame());
    var m3 := Run(env, probe, m2);
    LoweredFrames(f, entry, m2, m3, lay.Frame(), rbp);
    RunBindParams(env, lay, f, entry, m3, rbp);
    RunFour(env, first, push, probe, bind, entry);
  }

  lemma FrameResidue(lay: Layout) returns (k: int)
    ensures lay.Frame() == 16 * k + (if lay.preserveFlags then 0 else 8)
  {
    k := if lay.preserveFlags then (lay.Needed() + 15) / 16 else (lay.Needed() + 7) / 16;
  }

  /** The alignment rule: rsp is a multiple of 16 in the body of every function entered with rsp
      eight above one, whatever the function saves and however large its frame is. */
  lemma BodyIsAligned(lay: Layout, f: Callee, rsp: nat)
    requires lay.preserveFlags == !f.clobbersFlags
    ensures (rsp - FlagBytes(f) - 112 - lay.Frame()) % 16 == 0 <==> rsp % 16 == 8
  {
    var k := FrameResidue(lay);
    ModAdd(rsp - 8, -7 - k, 16);
    assert rsp - FlagBytes(f) - 112 - lay.Frame() == rsp - 8 + (-7 - k) * 16;
  }
}
