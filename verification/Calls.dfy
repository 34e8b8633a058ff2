/** Calls inside expressions: argument slots, the outgoing area, register binding, and the
    callee's effect on the state that is kept. */
module Calls {
  import opened Words
  import opened X86
  import opened Codegen
  import opened Operations
  import opened Simulation

  /** Like Kept, and the argument slots of call level c below parameter i are kept too. */
  ghost predicate KeptTo(x: Context, mem: Memory, mem': Memory, s: nat, c: nat, i: nat) {
    forall a: int :: Fixed(x.lay, s, c, x.rbp - a) || IsEarlierSlot(x, c, i, a) ==> Read(mem', a) == Read(mem, a)
  }

  predicate IsEarlierSlot(x: Context, c: nat, i: nat, a: int) {
    var first := x.lay.CallBase() + x.lay.Arguments(c);
    first <= x.rbp - a <= first + 8 * i - 8
  }

  /** The slots of call level c hold the values of the parameters from i on. */
  ghost predicate Stored(x: Context, mem: Memory, params: seq<Param>, values: seq<int>, i: nat, c: nat)
    requires i <= |params|
    decreases |params| - i
  {
    if i == |params| then true
    else if params[i].direction == Out then Stored(x, mem, params, values, i + 1, c)
    else values != [] && Read(mem, CallAt(x, c, i)) == Value(Rep(values[0])) &&
         Stored(x, mem, params, values[1..], i + 1, c)
  }

  ghost predicate SimulatesAll(x: Context, code: seq<Instr>, m: Machine, results: Results, params: seq<Param>,
                               i: nat, s: nat, c: nat)
    requires Ok(m) && i <= |params|
  {
    && Block(code)
    && var m' := Run(x.env, code, m);
       match results
       case Faults(tr) => m'.stopped && !m'.returned && m'.trace == tr
       case All(values, live) =>
         Running(x, m', live) && KeptTo(x, m.mem, m'.mem, s, c, i) && Stored(x, m'.mem, params, values, i, c)
  }

  lemma CallSlotBounds(x: Context, c: nat, i: nat)
    requires c < x.lay.calls && i < x.lay.perCall
    ensures var offset := x.rbp - CallAt(x, c, i);
            && offset == x.lay.CallBase() + x.lay.Arguments(c) + 8 * i
            && offset <= x.lay.CallBase() + x.lay.Arguments(x.lay.calls) - 8
            && offset <= x.lay.CallBase() + x.lay.Arguments(c + 1) - 8
  {
    ArgumentsGrow(x.lay, c + 1, x.lay.calls);
    ArgumentsGrow(x.lay, c, c);
  }

  lemma StoreArgumentMemory(x: Context, before: Memory, mem: Memory, w: Word, i: nat, s: nat, c: nat)
    requires Kept(x, before, mem, s, c + 1) && c < x.lay.calls && i < x.lay.perCall && s <= x.lay.depth
    ensures KeptTo(x, before, mem[CallAt(x, c, i) := w], s, c, i)
  {
    CallSlotBounds(x, c, i);
    ArgumentsGrow(x.lay, c, c + 1);
    var base, next := x.lay.Arguments(c), x.lay.Arguments(c + 1);
    forall a: int | Fixed(x.lay, s, c, x.rbp - a) || IsEarlierSlot(x, c, i, a)
      ensures Read(mem[CallAt(x, c, i) := w], a) == Read(before, a)
    {
      assert Fixed(x.lay, s, c + 1, x.rbp - a);
    }
  }

  lemma RunThenOne(env: Env, code: seq<Instr>, i: Instr, m: Machine)
    requires Ok(m) && Block(code) && GoodInstr(i) && !i.Jcc? && !i.Jmp? && !Run(env, code, m).stopped
    ensures Block(code + [i]) && Run(env, code + [i], m) == Exec(env, i, Run(env, code, m))
  {
    RunOne(env, i, Run(env, code, m));
    BlockAppend(code, [i]);
    RunAppend(env, code, [i], m);
  }

  lemma ExecStoreArgument(x: Context, m: Machine, live: Live, i: nat, c: nat)
    requires Running(x, m, live)
    ensures var m' := Exec(x.env, Store(RBP, x.lay.CallSlot(c, i), RAX), m);
            Running(x, m', live) && m'.mem == m.mem[CallAt(x, c, i) := Value(m.regs[RAX])]
  {
    CallSlotBelow(x, c, i);
    StoreStep(x, m, live, CallAt(x, c, i), Value(m.regs[RAX]));
  }

  /** From m to m1 the argument of parameter i was evaluated and stored in its slot of level c. */
  ghost predicate ArgumentDone(x: Context, m: Machine, m1: Machine, v: int, live: Live, i: nat, s: nat, c: nat) {
    Running(x, m1, live) && KeptTo(x, m.mem, m1.mem, s, c, i) && Read(m1.mem, CallAt(x, c, i)) == Value(Rep(v))
  }

  /** One argument: evaluate at the next call level, then store in its slot. */
  lemma StoreArgument(x: Context, code: seq<Instr>, m: Machine, v: int, live: Live, t: Ty, i: nat, s: nat, c: nat)
    requires c < x.lay.calls && i < x.lay.perCall && s <= x.lay.depth
    requires Ok(m) && Simulates(x, code, m, Done(v, live), t, s, c + 1)
    ensures var stored := code + [Store(RBP, x.lay.CallSlot(c, i), RAX)];
            Block(stored) && ArgumentDone(x, m, Run(x.env, stored, m), v, live, i, s, c)
  {
    var m1 := Run(x.env, code, m);
    ExecStoreArgument(x, m1, live, i, c);
    StoreArgumentMemory(x, m.mem, m1.mem, Value(m1.regs[RAX]), i, s, c);
    RunThenOne(x.env, code, Store(RBP, x.lay.CallSlot(c, i), RAX), m);
  }

  lemma CallSlotBelow(x: Context, c: nat, i: nat)
    ensures x.rbp - CallAt(x, c, i) >= x.lay.SpillBase()
  {
    assert x.lay.Arguments(c) >= 0;
  }

  lemma StoredThenRest(x: Context, first: seq<Instr>, rest: seq<Instr>, m: Machine, v: int, live: Live,
                       params: seq<Param>, results: Results, i: nat, s: nat, c: nat)
    requires Ok(m) && i < |params| && params[i].direction != Out && Block(first)
    requires var m1 := Run(x.env, first, m);
             && ArgumentDone(x, m, m1, v, live, i, s, c)
             && SimulatesAll(x, rest, m1, results, params, i + 1, s, c)
    ensures SimulatesAll(x, first + rest, m,
                         match results case Faults(tr) => Faults(tr) case All(vs, l) => All([v] + vs, l), params, i, s, c)
  {
    var m1 := Run(x.env, first, m);
    var m2 := Run(x.env, rest, m1);
    BlockAppend(first, rest);
    RunAppend(x.env, first, rest, m);
    if results.All? {
      assert ([v] + results.values)[1..] == results.values;
      assert IsEarlierSlot(x, c, i + 1, CallAt(x, c, i));
      forall a: int | Fixed(x.lay, s, c, x.rbp - a) || IsEarlierSlot(x, c, i, a)
        ensures Read(m2.mem, a) == Read(m.mem, a)
      {
        assert IsEarlierSlot(x, c, i, a) ==> IsEarlierSlot(x, c, i + 1, a);
      }
    }
  }

  // ----- Passing the arguments -----

  /** The word a parameter receives when its slot holds w. */
  function WordOf(p: Param, w: nat): nat {
    if p.onStack then w else if p.reg.high8 then w % 0x100 else Cut(w, p.reg.width)
  }

  function OutgoingAt(x: Context, i: nat): int {
    x.rbp - x.frame + 32 + 8 * (i - 4)
  }

  /** The outgoing slot of parameter i lies below every slot the evaluator uses. */
  lemma OutgoingBelow(x: Context, f: Callee, i: nat, c: nat)
    requires ContextOk(x) && ParamsOk(x, f) && i < |f.params| && f.params[i].onStack && c < x.lay.calls
    ensures i >= 4 && i < x.lay.perCall
    ensures var offset := x.rbp - OutgoingAt(x, i);
            offset >= x.lay.SpillBase() && offset > x.lay.CallBase() + x.lay.Arguments(x.lay.calls) - 8
    ensures var slot := x.rbp - CallAt(x, c, i); slot <= x.lay.CallBase() + x.lay.Arguments(x.lay.calls) - 8
  {
    CallSlotBounds(x, c, i);
    assert ParamOk(x, f, i);
    assert x.lay.Arguments(x.lay.calls) >= 0;
  }

  lemma ExecStoreOut(x: Context, f: Callee, i: nat, c: nat, m: Machine, live: Live)
    requires Running(x, m, live) && ParamsOk(x, f) && i < |f.params| && f.params[i].onStack && c < x.lay.calls && i >= 4
    ensures var m' := Exec(x.env, Store(RSP, 32 + 8 * (i - 4), RAX), m);
            Running(x, m', live) && m'.mem == m.mem[OutgoingAt(x, i) := Value(m.regs[RAX])]
  {
    OutgoingBelow(x, f, i, c);
    StoreStep(x, m, live, OutgoingAt(x, i), Value(m.regs[RAX]));
  }

  lemma ExecLoadSlot(x: Context, i: nat, c: nat, m: Machine, live: Live)
    requires Running(x, m, live)
    ensures var m' := Exec(x.env, Load(Register(RAX, B64, false), RBP, x.lay.CallSlot(c, i)), m);
            Running(x, m', live) && m'.mem == m.mem && m'.regs[RAX] == Number(Read(m.mem, CallAt(x, c, i)))
  {
    ScratchStep(x, m, Exec(x.env, Load(Register(RAX, B64, false), RBP, x.lay.CallSlot(c, i)), m), live);
  }

  /** Copying one argument from its slot to the outgoing area. */
  lemma CopyOut(x: Context, f: Callee, i: nat, c: nat, m: Machine, live: Live)
    requires Running(x, m, live) && ParamsOk(x, f) && i < |f.params| && f.params[i].onStack && c < x.lay.calls && i >= 4
    ensures var code := CopyCode(x.lay, i, c);
            && Block(code)
            && var m' := Run(x.env, code, m);
               && Running(x, m', live)
               && m'.mem == m.mem[OutgoingAt(x, i) := Value(Number(Read(m.mem, CallAt(x, c, i))))]
  {
    var load, store := Load(Register(RAX, B64, false), RBP, x.lay.CallSlot(c, i)), Store(RSP, 32 + 8 * (i - 4), RAX);
    ExecLoadSlot(x, i, c, m, live);
    ExecStoreOut(x, f, i, c, Exec(x.env, load, m), live);
    RunTwo(x.env, load, store, m);
  }

  /** Copying parameter i disturbs neither the fixed slots nor the argument slots, and later
      copies do not disturb it. */
  lemma CopiedMemory(x: Context, f: Callee, i: nat, c: nat, mem: Memory, mid: Memory, end: Memory)
    requires ContextOk(x) && ParamsOk(x, f) && i < |f.params| && f.params[i].onStack && c < x.lay.calls && i >= 4
    requires mid == mem[OutgoingAt(x, i) := Value(Number(Read(mem, CallAt(x, c, i))))]
    requires StackCopied(x, mid, end, f.params, i + 1, c)
    ensures StackCopied(x, mem, end, f.params, i, c)
  {
    OutgoingBelow(x, f, i, c);
    var here := OutgoingAt(x, i);
    assert OutgoingAt(x, i + 1) == here + 8;
    forall j | i <= j < |f.params| && f.params[j].onStack
      ensures Number(Read(end, OutgoingAt(x, j))) == Number(Read(mem, CallAt(x, c, j)))
    {
      OutgoingBelow(x, f, j, c);
      assert CallAt(x, c, j) != here;
      if j == i {
        assert Read(end, here) == Read(mid, here);
      }
    }
    forall a: int | a < here || x.rbp - a <= x.lay.CallBase() + x.lay.Arguments(x.lay.calls) - 8
      ensures Read(end, a) == Read(mem, a)
    {
      assert a != here;
      assert Read(end, a) == Read(mid, a);
    }
  }

  /** From mem to end the stack parameters from i on were copied out of their slots and nothing
      at or above the outgoing slot of parameter i - 1, in particular no fixed slot, changed. */
  ghost predicate StackCopied(x: Context, mem: Memory, end: Memory, params: seq<Param>, i: nat, c: nat) {
    && (forall j :: i <= j < |params| && params[j].onStack ==>
          Number(Read(end, OutgoingAt(x, j))) == Number(Read(mem, CallAt(x, c, j))))
    && (forall a: int :: a < OutgoingAt(x, i) || x.rbp - a <= x.lay.CallBase() + x.lay.Arguments(x.lay.calls) - 8 ==>
          Read(end, a) == Read(mem, a))
  }

  ghost predicate StackDone(x: Context, m: Machine, m': Machine, live: Live, params: seq<Param>, i: nat, c: nat) {
    Ok(m) && Running(x, m', live) && StackCopied(x, m.mem, m'.mem, params, i, c)
  }

  lemma NothingCopied(x: Context, m: Machine, live: Live, params: seq<Param>, c: nat)
    requires Running(x, m, live)
    ensures StackDone(x, m, m, live, params, |params|, c)
  {
  }

  lemma {:induction false} RunStackCode(x: Context, f: Callee, i: nat, c: nat, m: Machine, live: Live)
    requires Running(x, m, live) && ParamsOk(x, f) && i <= |f.params| && c < x.lay.calls
    ensures Block(StackCode(x.lay, f.params, i, c))
    ensures StackDone(x, m, Run(x.env, StackCode(x.lay, f.params, i, c), m), live, f.params, i, c)
    decreases |f.params| - i
  {
    hide ContextOk, Ok, LiveOk, Framed;
    if i == |f.params| {
      NothingCopied(x, m, live, f.params, c);
    } else {
      var rest := StackCode(x.lay, f.params, i + 1, c);
      assert ParamOk(x, f, i);
      if f.params[i].onStack {
        var copy := CopyCode(x.lay, i, c);
        CopyOut(x, f, i, c, m, live);
        var m1 := Run(x.env, copy, m);
        RunStackCode(x, f, i + 1, c, m1, live);
        CopiedMemory(x, f, i, c, m.mem, m1.mem, Run(x.env, rest, m1).mem);
        CopyThenRest(x, copy, rest, m);
      } else {
        RunStackCode(x, f, i + 1, c, m, live);
        assert StackCode(x.lay, f.params, i, c) == rest;
        NotCopied(x, f, i, c, m.mem, Run(x.env, rest, m).mem);
      }
    }
  }

  lemma CopyThenRest(x: Context, copy: seq<Instr>, rest: seq<Instr>, m: Machine)
    requires Ok(m) && Block(copy) && Block(rest)
    ensures Block(copy + rest) && Run(x.env, copy + rest, m) == Run(x.env, rest, Run(x.env, copy, m))
  {
    BlockAppend(copy, rest);
    RunAppend(x.env, copy, rest, m);
  }

  lemma NotCopied(x: Context, f: Callee, i: nat, c: nat, mem: Memory, end: Memory)
    requires i < |f.params| && !f.params[i].onStack && StackCopied(x, mem, end, f.params, i + 1, c)
    ensures StackCopied(x, mem, end, f.params, i, c)
  {
    assert OutgoingAt(x, i) < OutgoingAt(x, i + 1);
  }

  lemma FitsWord(v: int)
    requires 0 <= v < W
    ensures v % W == v
  {
  }

  lemma FieldOfLow(before: nat, r: Register, w: nat)
    requires before < W && w < W && !r.high8 && Narrow(r)
    ensures Merge(before, r, w) % W == Merge(before, r, w) && Cut(Merge(before, r, w), r.width) == Cut(w, r.width)
  {
    if r.width == B8 {
      LowPart(before, w, 0x100);
    } else {
      LowPart(before, w, 0x1_0000);
    }
    FitsWord(Merge(before, r, w));
  }

  lemma FieldOfWide(before: nat, r: Register, w: nat)
    requires before < W && w < W && !r.high8 && !Narrow(r)
    ensures Merge(before, r, w) % W == Cut(w, r.width) && Cut(Cut(w, r.width), r.width) == Cut(w, r.width)
  {
  }

  lemma FieldOfMerge(before: nat, r: Register, w: nat)
    requires before < W && w < W && WellFormedRegister(r)
    ensures var v := Merge(before, r, w) % W;
            Field(v, r) == (if r.high8 then w % 0x100 else Cut(w, r.width))
  {
    hide Cut;
    if r.high8 {
      HighPart(before, w);
      FitsWord(Merge(before, r, w));
    } else if Narrow(r) {
      hide Merge;
      FieldOfLow(before, r, w);
    } else {
      hide Merge;
      FieldOfWide(before, r, w);
    }
  }

  lemma HighPart(before: nat, w: nat)
    requires before < W && w < W
    ensures var v := before - ((before / 0x100) % 0x100) * 0x100 + (w % 0x100) * 0x100;
            0 <= v < W && (v / 0x100) % 0x100 == w % 0x100
  {
    var low, page := before % 0x100, before / 0x100;
    assert before == 0x100 * page + low;
    LowPart(page, w, 0x100);
    var next := page - page % 0x100 + w % 0x100;
    var v := before - (page % 0x100) * 0x100 + (w % 0x100) * 0x100;
    assert v == 0x100 * next + low;
    assert v / 0x100 == next;
    assert next <= page + 0xff && page <= 0xff_ffff_ffff_ffff;
    assert page - page % 0x100 <= 0xff_ffff_ffff_ff00 by {
      assert page - page % 0x100 == 0x100 * (page / 0x100);
    }
  }

  /** Registers hold the words of the register parameters from i on. */
  ghost predicate BoundFrom(x: Context, m: Machine, params: seq<Param>, i: nat, mem: Memory, c: nat)
    requires Ok(m)
  {
    forall j :: i <= j < |params| && Bound(params[j]) ==>
      params[j].reg.family < REGS &&
      Field(m.regs[params[j].reg.family], params[j].reg) == WordOf(params[j], Number(Read(mem, CallAt(x, c, j))))
  }

  /** Loading a field that may be written. */
  lemma LoadAgrees(dirt: set<Part>, regs: seq<nat>, o: Register, v: nat)
    requires |regs| == REGS && (forall r :: 0 <= r < REGS ==> regs[r] < W) && v < W
    requires WellFormedRegister(o) && FieldParts(o) <= dirt
    ensures 0 <= Merge(regs[o.family], o, v) < W && Agrees(dirt, regs[o.family := Merge(regs[o.family], o, v) % W], regs)
  {
    var after := regs[o.family := Merge(regs[o.family], o, v) % W];
    MergeBound(regs[o.family], o, v);
    forall r, at | 0 <= r < REGS && 0 <= at < 3 && r != RSP && r != RBP && Part(r, at) !in dirt
      ensures Piece(after[r], at) == Piece(regs[r], at)
    {
      if r == o.family {
        MergePieces(regs[r], o, v, at);
      }
    }
  }

  lemma MergeBound(before: nat, o: Register, v: nat)
    requires before < W && v < W && WellFormedRegister(o)
    ensures 0 <= Merge(before, o, v) < W
  {
    if o.high8 {
      HighPart(before, v);
    } else {
      LowPart(before, v, 0x100);
      LowPart(before, v, 0x1_0000);
    }
  }

  lemma ExecBind(x: Context, f: Callee, i: nat, c: nat, m: Machine, live: Live)
    requires Running(x, m, live) && ParamsOk(x, f) && i < |f.params| && Bound(f.params[i])
    requires FieldParts(f.params[i].reg) <= x.dirt
    ensures var p := f.params[i];
            var load := Load(p.reg, RBP, x.lay.CallSlot(c, i));
            && GoodInstr(load)
            && var m' := Exec(x.env, load, m);
               && Running(x, m', live) && m'.mem == m.mem && p.reg.family < REGS
               && Field(m'.regs[p.reg.family], p.reg) == WordOf(p, Number(Read(m.mem, CallAt(x, c, i))))
               && forall r :: 0 <= r < REGS && r != p.reg.family ==> m'.regs[r] == m.regs[r]
  {
    var p := f.params[i];
    assert ParamOk(x, f, i);
    var load := Load(p.reg, RBP, x.lay.CallSlot(c, i));
    LoadAgrees(x.dirt, m.regs, p.reg, Number(Read(m.mem, CallAt(x, c, i))));
    ScratchStep(x, m, Exec(x.env, load, m), live);
    FieldOfMerge(m.regs[p.reg.family], p.reg, Number(Read(m.mem, CallAt(x, c, i))));
  }

  lemma BoundMore(x: Context, f: Callee, i: nat, m: Machine, m': Machine, mem: Memory, c: nat)
    requires ParamsOk(x, f) && i < |f.params| && Bound(f.params[i]) && Ok(m) && Ok(m')
    requires f.params[i].reg.family < REGS
    requires Field(m.regs[f.params[i].reg.family], f.params[i].reg) == WordOf(f.params[i], Number(Read(mem, CallAt(x, c, i))))
    requires BoundFrom(x, m', f.params, i + 1, mem, c)
    requires forall r :: 0 <= r < REGS && !Rebinds(f.params, i + 1, r) ==> m'.regs[r] == m.regs[r]
    ensures BoundFrom(x, m', f.params, i, mem, c)
  {
    assert ParamOk(x, f, i);
  }

  /** From m to m' the register parameters from i on were bound. */
  ghost predicate BindDone(x: Context, m: Machine, m': Machine, live: Live, params: seq<Param>, i: nat, c: nat) {
    && Ok(m) && Running(x, m', live) && m'.mem == m.mem && BoundFrom(x, m', params, i, m.mem, c)
    && forall r :: 0 <= r < REGS && !Rebinds(params, i, r) ==> m'.regs[r] == m.regs[r]
  }

  lemma BindStep(x: Context, f: Callee, i: nat, c: nat, m: Machine, m1: Machine, m2: Machine, live: Live)
    requires ParamsOk(x, f) && i < |f.params| && Bound(f.params[i]) && Ok(m) && Ok(m1) && m1.mem == m.mem
    requires f.params[i].reg.family < REGS
    requires Field(m1.regs[f.params[i].reg.family], f.params[i].reg) == WordOf(f.params[i], Number(Read(m.mem, CallAt(x, c, i))))
    requires forall r :: 0 <= r < REGS && r != f.params[i].reg.family ==> m1.regs[r] == m.regs[r]
    requires BindDone(x, m1, m2, live, f.params, i + 1, c)
    ensures BindDone(x, m, m2, live, f.params, i, c)
  {
    BoundMore(x, f, i, m1, m2, m.mem, c);
  }

  lemma BindSkip(x: Context, m: Machine, m': Machine, live: Live, params: seq<Param>, i: nat, c: nat)
    requires i < |params| && !Bound(params[i]) && BindDone(x, m, m', live, params, i + 1, c)
    ensures BindDone(x, m, m', live, params, i, c)
  {
  }

  lemma {:induction false} RunBindCode(x: Context, f: Callee, i: nat, c: nat, m: Machine, live: Live)
    requires Running(x, m, live) && ParamsOk(x, f) && i <= |f.params| && BindParts(f.params) <= x.dirt
    ensures Block(BindCode(x.lay, f.params, i, c))
    ensures BindDone(x, m, Run(x.env, BindCode(x.lay, f.params, i, c), m), live, f.params, i, c)
    decreases |f.params| - i
  {
    if i < |f.params| {
      var p := f.params[i];
      var rest := BindCode(x.lay, f.params, i + 1, c);
      if Bound(p) {
        var load := Load(p.reg, RBP, x.lay.CallSlot(c, i));
        BindPartsOf(f.params, i);
        ExecBind(x, f, i, c, m, live);
        var m1 := Exec(x.env, load, m);
        RunBindCode(x, f, i + 1, c, m1, live);
        BindStep(x, f, i, c, m, m1, Run(x.env, rest, m1), live);
        RunCons(x.env, load, rest, m);
        RunOne(x.env, load, m);
        BlockAppend([load], rest);
      } else {
        RunBindCode(x, f, i + 1, c, m, live);
        assert BindCode(x.lay, f.params, i, c) == rest;
        BindSkip(x, m, Run(x.env, rest, m), live, f.params, i, c);
      }
    }
  }

  /** The callee finds in parameter j's place the word of its slot. */
  ghost predicate Delivered(x: Context, m: Machine, params: seq<Param>, mem: Memory, i: nat, c: nat)
    requires Ok(m)
  {
    forall j :: i <= j < |params| && params[j].direction != Out ==>
      PassedWord(m, params[j], j) == WordOf(params[j], Number(Read(mem, CallAt(x, c, j))))
  }

  lemma AllDelivered(x: Context, f: Callee, m: Machine, mem: Memory, c: nat)
    requires ParamsOk(x, f) && Ok(m) && m.regs[RSP] == x.rbp - x.frame
    requires BoundFrom(x, m, f.params, 0, mem, c)
    requires forall j :: 0 <= j < |f.params| && f.params[j].onStack ==>
               Number(Read(m.mem, OutgoingAt(x, j))) == Number(Read(mem, CallAt(x, c, j)))
    ensures Delivered(x, m, f.params, mem, 0, c)
  {
    forall j | 0 <= j < |f.params| && f.params[j].direction != Out
      ensures PassedWord(m, f.params[j], j) == WordOf(f.params[j], Number(Read(mem, CallAt(x, c, j))))
    {
      assert ParamOk(x, f, j);
    }
  }

  /** The callee finds exactly the argument words of the source call. */
  lemma {:induction false} PassedWords(x: Context, m: Machine, params: seq<Param>, values: seq<int>, mem: Memory, i: nat, c: nat)
    requires Ok(m) && i <= |params| && Delivered(x, m, params, mem, i, c) && Stored(x, mem, params, values, i, c)
    ensures Passed(m, params, i) == ArgumentWords(params, values, i)
    decreases |params| - i
  {
    if i < |params| {
      if params[i].direction == Out {
        PassedWords(x, m, params, values, mem, i + 1, c);
      } else {
        PassedWords(x, m, params, values[1..], mem, i + 1, c);
        assert Number(Read(mem, CallAt(x, c, i))) == Rep(values[0]);
      }
    }
  }

  // ----- The callee's effect -----

  /** What is left of an address computation when the callee has run. */
  lemma CallKeepsFrame(x: Context, f: Callee, mem: Memory, scratch: Memory)
    requires ContextOk(x) && ParamsOk(x, f)
    ensures var limit := x.rbp - x.frame + 32 + Extra(f.params);
            forall a: int :: x.rbp - a <= x.lay.CallBase() + x.lay.Arguments(x.lay.calls) - 8 ==>
              Read(Overwrite(mem, scratch, limit), a) == Read(mem, a)
  {
  }

  lemma FrameSlotsInside(x: Context)
    ensures forall r :: 0 <= r < REGS ==> x.rbp - SnapAt(x, r) <= x.lay.CallBase() + x.lay.Arguments(x.lay.calls) - 8
    ensures forall r :: 0 <= r < REGS ==> x.rbp - KeepAt(x, r) <= x.lay.CallBase() + x.lay.Arguments(x.lay.calls) - 8
    ensures -x.lay.FlagsSlot(true) <= x.lay.CallBase() + x.lay.Arguments(x.lay.calls) - 8
    ensures forall k :: 0 <= k < x.lay.locals ==> x.rbp - LocalAt(x, k) <= x.lay.CallBase() + x.lay.Arguments(x.lay.calls) - 8
  {
    assert x.lay.Arguments(x.lay.calls) >= 0;
  }

  /** Between the call and the end of the capture: the frame already keeps the new values of the
      registers below r; the machine registers the callee changed, and all pieces not written
      before, have the values live gives them. */
  ghost predicate Capturing(x: Context, f: Callee, m: Machine, before: Live, live: Live, r: nat) {
    && ContextOk(x) && LiveOk(before) && LiveOk(live) && Ok(m) && !m.stopped
    && m.regs[RBP] == x.rbp && m.regs[RSP] == x.rbp - x.frame
    && m.trace == live.trace && m.flags == (if f.clobbersFlags then live.flags else m.flags)
    && PartlyKept(x, m.mem, before, live, r)
    && Agrees(x.dirt, m.regs, live.regs)
    && forall k :: 0 <= k < REGS && k != RSP && k != RBP && Changes(f, k) ==> m.regs[k] == live.regs[k]
  }

  ghost predicate PartlyKept(x: Context, mem: Memory, before: Live, live: Live, r: nat)
    requires ContextOk(x) && LiveOk(before) && LiveOk(live)
  {
    && Anchored(x, mem)
    && (forall k :: 0 <= k < REGS && k != RSP && k != RBP ==>
          Read(mem, KeepAt(x, k)) == Value(if k < r then live.regs[k] else before.regs[k]))
    && Read(mem, x.rbp + x.lay.FlagsSlot(true)) == Saved(before.flags)
  }

  /** What a call leaves of the state to keep when its capture reads the machine registers: a
      narrow output goes into the register as the evaluator has left it. */
  function Captured(f: Callee, b: Behaviour, live: Live, event: Event, regs: seq<nat>): (r: Live)
    requires |live.regs| == REGS && |regs| == REGS
    ensures |r.regs| == REGS
  {
    Live(seq(REGS, r requires 0 <= r < REGS =>
           if r == RSP || r == RBP then live.regs[r]
           else AfterCall(f, b, r, if NarrowOutput(f, r) then regs[r] else live.regs[r]) % W),
         if f.clobbersFlags then b.flags else live.flags,
         live.trace + [event])
  }

  predicate NarrowOutput(f: Callee, r: nat) {
    OutputOf(f.params, r).Some? && Narrow(OutputOf(f.params, r).value)
  }

  /** A register the callee changes depends on what it held only when it is a narrow output. */
  lemma SameAfterCall(x: Context, f: Callee, b: Behaviour, r: nat, before: nat, kept: nat)
    requires OutputsOk(x, f) && r < REGS && Changes(f, r) && !NarrowOutput(f, r)
    ensures AfterCall(f, b, r, before) == AfterCall(f, b, r, kept)
  {
    assert OutputOk(x, f, r);
  }

  lemma CalledRegister(x: Context, g: nat, m: Machine, live: Live, event: Event, r: nat)
    requires Running(x, m, live) && g < |x.env.callees| && CalleeOk(x, x.env.callees[g]) && r < REGS && r != RSP && r != RBP
    requires event == Event(g, Passed(m, x.env.callees[g].params, 0))
    ensures var f := x.env.callees[g];
            var b := x.env.call(g, event.args, live.trace);
            var m' := DoCall(x.env, m, g);
            && (Changes(f, r) ==> m'.regs[r] == Captured(f, b, live, event, m.regs).regs[r])
            && (!Changes(f, r) ==> m'.regs[r] == m.regs[r] && Captured(f, b, live, event, m.regs).regs[r] == live.regs[r])
  {
    var f := x.env.callees[g];
    var b := x.env.call(g, event.args, live.trace);
    if Changes(f, r) && !NarrowOutput(f, r) {
      SameAfterCall(x, f, b, r, m.regs[r], live.regs[r]);
    }
  }

  lemma CalledRegisters(x: Context, g: nat, m: Machine, live: Live, event: Event)
    requires Running(x, m, live) && g < |x.env.callees| && CalleeOk(x, x.env.callees[g])
    requires event == Event(g, Passed(m, x.env.callees[g].params, 0))
    ensures var f := x.env.callees[g];
            var b := x.env.call(g, event.args, live.trace);
            var m', live' := DoCall(x.env, m, g), Captured(f, b, live, event, m.regs);
            && (forall r :: 0 <= r < REGS && r != RSP && r != RBP && Changes(f, r) ==> m'.regs[r] == live'.regs[r])
            && Agrees(x.dirt, m'.regs, live'.regs) && m'.regs[RAX] == Returned(b, RAX)
  {
    var f := x.env.callees[g];
    var b := x.env.call(g, event.args, live.trace);
    var m', live' := DoCall(x.env, m, g), Captured(f, b, live, event, m.regs);
    forall r | 0 <= r < REGS && r != RSP && r != RBP
      ensures Changes(f, r) ==> m'.regs[r] == live'.regs[r]
      ensures !Changes(f, r) ==> m'.regs[r] == m.regs[r] && live'.regs[r] == live.regs[r]
    {
      CalledRegister(x, g, m, live, event, r);
    }
    assert OutputOk(x, f, RAX);
  }

  lemma CalledMemory(x: Context, f: Callee, mem: Memory, scratch: Memory, live: Live)
    requires ContextOk(x) && ParamsOk(x, f) && |live.regs| == REGS && Framed(x, mem, live)
    ensures var mem' := Overwrite(mem, scratch, x.rbp - x.frame + 32 + Extra(f.params));
            Framed(x, mem', live) && Kept(x, mem, mem', x.lay.depth, x.lay.calls)
  {
    CallKeepsFrame(x, f, mem, scratch);
    FrameSlotsInside(x);
    FixedInside(x);
  }

  lemma FixedInside(x: Context)
    ensures forall o: int :: Fixed(x.lay, x.lay.depth, x.lay.calls, o) ==>
              o <= x.lay.CallBase() + x.lay.Arguments(x.lay.calls) - 8
  {
    assert x.lay.Arguments(x.lay.calls) >= 0;
  }

  lemma ExecCall(x: Context, g: nat, m: Machine, live: Live, event: Event)
    requires Running(x, m, live) && g < |x.env.callees| && CalleeOk(x, x.env.callees[g])
    requires event == Event(g, Passed(m, x.env.callees[g].params, 0))
    ensures var f := x.env.callees[g];
            var b := x.env.call(g, event.args, live.trace);
            CallReturned(x, f, m, DoCall(x.env, m, g), live, Captured(f, b, live, event, m.regs), Returned(b, RAX))
  {
    hide Passed, Returned, Changes;
    var f := x.env.callees[g];
    var b := x.env.call(g, event.args, live.trace);
    var m', live' := DoCall(x.env, m, g), Captured(f, b, live, event, m.regs);
    CalledRegisters(x, g, m, live, event);
    CalledMemory(x, f, m.mem, b.scratch, live);
    CapturedKeeps(f, b, live, event, m.regs);
    CalledRest(x, g, m, live, event);
    CalledCapturing(x, f, m', live, live');
  }

  /** The machine has just returned from f: capturing may start, the result is in rax. */
  ghost predicate CallReturned(x: Context, f: Callee, m: Machine, m': Machine, before: Live, live: Live, v: nat) {
    && Capturing(x, f, m', before, live, 0) && Explains(f, before, live)
    && m'.regs[RAX] == v && Kept(x, m.mem, m'.mem, x.lay.depth, x.lay.calls)
  }

  lemma CalledRest(x: Context, g: nat, m: Machine, live: Live, event: Event)
    requires Running(x, m, live) && g < |x.env.callees|
    requires event == Event(g, Passed(m, x.env.callees[g].params, 0))
    ensures var f := x.env.callees[g];
            var b := x.env.call(g, event.args, live.trace);
            var m' := DoCall(x.env, m, g);
            && !m'.stopped && m'.trace == live.trace + [event] && m'.mem == Overwrite(m.mem, b.scratch, x.rbp - x.frame + 32 + Extra(f.params))
            && (f.clobbersFlags ==> m'.flags == b.flags)
            && m'.regs[RBP] == x.rbp && m'.regs[RSP] == x.rbp - x.frame
  {
  }

  lemma CalledCapturing(x: Context, f: Callee, m: Machine, before: Live, live: Live)
    requires LiveOk(before) && LiveOk(live) && Ok(m) && !m.stopped && ContextOk(x) && Framed(x, m.mem, before)
    requires m.regs[RBP] == x.rbp && m.regs[RSP] == x.rbp - x.frame && m.trace == live.trace
    requires f.clobbersFlags ==> m.flags == live.flags
    requires Agrees(x.dirt, m.regs, live.regs)
    requires forall r :: 0 <= r < REGS && r != RSP && r != RBP && Changes(f, r) ==> m.regs[r] == live.regs[r]
    ensures Capturing(x, f, m, before, live, 0)
  {
  }

  lemma PartlyKeptMore(x: Context, f: Callee, mem: Memory, before: Live, live: Live, r: nat)
    requires ContextOk(x) && LiveOk(before) && LiveOk(live) && r < REGS && PartlyKept(x, mem, before, live, r)
    ensures r == RSP || r == RBP || live.regs[r] == before.regs[r] ==> PartlyKept(x, mem, before, live, r + 1)
    ensures PartlyKept(x, mem[KeepAt(x, r) := Value(live.regs[r])], before, live, r + 1)
  {
  }

  lemma ExecCapture(x: Context, f: Callee, m: Machine, before: Live, live: Live, r: nat)
    requires r < REGS && Capturing(x, f, m, before, live, r)
    requires Changes(f, r) && r != RSP && r != RBP
    ensures var m' := Exec(x.env, CaptureOne(x.lay, r), m);
            Capturing(x, f, m', before, live, r + 1) && m'.regs == m.regs &&
            Kept(x, m.mem, m'.mem, x.lay.depth, x.lay.calls)
  {
    PartlyKeptMore(x, f, m.mem, before, live, r);
  }

  function FlagsThroughStack(mem: Memory, flags: Flags, sp: int, at: int): Memory {
    mem[sp - 8 := Saved(flags)][at := Saved(flags)]
  }

  /** Flags pass through the stack into their slot. */
  lemma RunFlagsCode(env: Env, lay: Layout, m: Machine, restore: bool)
    requires Ok(m) && !m.stopped && 8 <= m.regs[RSP]
    ensures Block(FlagsCode(lay, restore))
    ensures Run(env, FlagsCode(lay, restore), m) ==
            m.(mem := FlagsThroughStack(m.mem, m.flags, m.regs[RSP], m.regs[RBP] + lay.FlagsSlot(restore)))
  {
    var sp, at := m.regs[RSP] - 8, m.regs[RBP] + lay.FlagsSlot(restore);
    var m1 := Exec(env, Pushfq, m);
    assert m1 == m.(regs := m.regs[RSP := sp], mem := m.mem[sp := Saved(m.flags)]);
    var m2 := Exec(env, PopSlot(RBP, lay.FlagsSlot(restore)), m1);
    assert m2.regs == m.regs;
    RunTwo(env, Pushfq, PopSlot(RBP, lay.FlagsSlot(restore)), m);
  }

  lemma CapturedFlags(x: Context, mem: Memory, before: Live, live: Live)
    requires ContextOk(x) && LiveOk(before) && LiveOk(live) && PartlyKept(x, mem, before, live, REGS)
    ensures var mem' := FlagsThroughStack(mem, live.flags, x.rbp - x.frame, x.rbp + x.lay.FlagsSlot(true));
            Framed(x, mem', live) && Kept(x, mem, mem', x.lay.depth, x.lay.calls)
    ensures live.flags == before.flags ==> Framed(x, mem, live)
  {
    FrameSlotsInside(x);
    FixedInside(x);
    assert x.lay.Arguments(x.lay.calls) >= 0;
  }

  /** What a finished call hands to the rest of the expression. */
  ghost predicate CallDone(x: Context, m: Machine, m': Machine, live: Live) {
    Ok(m) && Running(x, m', live) && m'.regs[RAX] == m.regs[RAX] && Kept(x, m.mem, m'.mem, x.lay.depth, x.lay.calls)
  }

  lemma FinishCapture(x: Context, f: Callee, m: Machine, before: Live, live: Live)
    requires Explains(f, before, live) && Capturing(x, f, m, before, live, REGS)
    ensures Block(CaptureCode(x.lay, f, REGS))
    ensures CallDone(x, m, Run(x.env, CaptureCode(x.lay, f, REGS), m), live)
  {
    hide CallDone;
    CapturedFlags(x, m.mem, before, live);
    if f.clobbersFlags {
      assert CaptureCode(x.lay, f, REGS) == FlagsCode(x.lay, true);
      RunFlagsCode(x.env, x.lay, m, true);
      var mem := FlagsThroughStack(m.mem, live.flags, x.rbp - x.frame, x.rbp + x.lay.FlagsSlot(true));
      CaptureEnds(x, f, m, m.(mem := mem), before, live);
    } else {
      assert CaptureCode(x.lay, f, REGS) == [];
      CaptureEnds(x, f, m, m, before, live);
    }
  }

  lemma CaptureEnds(x: Context, f: Callee, m: Machine, m': Machine, before: Live, live: Live)
    requires Explains(f, before, live) && Capturing(x, f, m, before, live, REGS)
    requires Ok(m') && m' == m.(mem := m'.mem) && Framed(x, m'.mem, live) && Kept(x, m.mem, m'.mem, x.lay.depth, x.lay.calls)
    ensures CallDone(x, m, m', live)
  {
  }

  function CaptureOne(lay: Layout, r: nat): Instr {
    Store(RBP, lay.RegisterSlot(r, true), r)
  }

  lemma CaptureUnfolds(lay: Layout, f: Callee, r: nat)
    requires r < REGS
    ensures CaptureCode(lay, f, r) ==
            (if Changes(f, r) && r != RSP && r != RBP then [CaptureOne(lay, r)] else []) + CaptureCode(lay, f, r + 1)
  {
  }

  lemma CaptureStep(x: Context, m: Machine, store: Instr, rest: seq<Instr>, live: Live)
    requires Ok(m) && !m.stopped && GoodInstr(store) && !store.Jcc? && !store.Jmp? && Block(rest)
    requires var m1 := Exec(x.env, store, m);
             m1.regs == m.regs && Kept(x, m.mem, m1.mem, x.lay.depth, x.lay.calls) && CallDone(x, m1, Run(x.env, rest, m1), live)
    ensures Block([store] + rest) && CallDone(x, m, Run(x.env, [store] + rest, m), live)
  {
    var m1 := Exec(x.env, store, m);
    RunOne(x.env, store, m);
    RunCons(x.env, store, rest, m);
    BlockAppend([store], rest);
    KeptTrans(x, m.mem, m1.mem, Run(x.env, rest, m1).mem, x.lay.depth, x.lay.calls);
  }

  /** live differs from before at most where the callee changed something. */
  ghost predicate Explains(f: Callee, before: Live, live: Live) {
    && LiveOk(before) && LiveOk(live) && (!f.clobbersFlags ==> live.flags == before.flags)
    && forall k :: 0 <= k < REGS && k != RSP && k != RBP && !Changes(f, k) ==> live.regs[k] == before.regs[k]
  }

  lemma {:induction false} RunCapture(x: Context, f: Callee, m: Machine, before: Live, live: Live, r: nat)
    requires r <= REGS && Explains(f, before, live) && Capturing(x, f, m, before, live, r)
    ensures Block(CaptureCode(x.lay, f, r))
    ensures CallDone(x, m, Run(x.env, CaptureCode(x.lay, f, r), m), live)
    decreases REGS - r
  {
    hide CaptureCode;
    if r == REGS {
      FinishCapture(x, f, m, before, live);
    } else {
      var rest := CaptureCode(x.lay, f, r + 1);
      CaptureUnfolds(x.lay, f, r);
      if Changes(f, r) && r != RSP && r != RBP {
        var store := CaptureOne(x.lay, r);
        ExecCapture(x, f, m, before, live, r);
        RunCapture(x, f, Exec(x.env, store, m), before, live, r + 1);
        CaptureStep(x, m, store, rest, live);
      } else {
        PartlyKeptMore(x, f, m.mem, before, live, r);
        assert [] + rest == rest;
        RunCapture(x, f, m, before, live, r + 1);
      }
    }
  }

  // ----- The whole call -----

  /** The machine at the call instruction. */
  function AtCall(x: Context, f: Callee, m: Machine, c: nat): (r: Machine)
    requires Ok(m) && Good(StackCode(x.lay, f.params, 0, c)) && Good(BindCode(x.lay, f.params, 0, c))
    ensures Ok(r)
  {
    Run(x.env, BindCode(x.lay, f.params, 0, c), Run(x.env, StackCode(x.lay, f.params, 0, c), m))
  }

  /** At the call instruction the registers and the outgoing area hold the argument words. */
  lemma CallReady(x: Context, f: Callee, m: Machine, live: Live, values: seq<int>, c: nat)
    requires Running(x, m, live) && CalleeOk(x, f) && c < x.lay.calls
    requires Stored(x, m.mem, f.params, values, 0, c) && BindParts(f.params) <= x.dirt
    ensures Block(StackCode(x.lay, f.params, 0, c)) && Block(BindCode(x.lay, f.params, 0, c))
    ensures var m2 := AtCall(x, f, m, c);
            && Running(x, m2, live) && Passed(m2, f.params, 0) == ArgumentWords(f.params, values, 0)
            && Kept(x, m.mem, m2.mem, x.lay.depth, x.lay.calls)
  {
    RunStackCode(x, f, 0, c, m, live);
    var m1 := Run(x.env, StackCode(x.lay, f.params, 0, c), m);
    RunBindCode(x, f, 0, c, m1, live);
    var m2 := Run(x.env, BindCode(x.lay, f.params, 0, c), m1);
    SlotsStillThere(x, f, m.mem, m1.mem, c);
    BoundFromBefore(x, f, m2, m1.mem, m.mem, c);
    AllDelivered(x, f, m2, m.mem, c);
    PassedWords(x, m2, f.params, values, m.mem, 0, c);
    StackCopyKeeps(x, f, m.mem, m1.mem, c);
  }

  /** Everything after the arguments are stored. */
  lemma RunCall(x: Context, g: nat, t: Ty, m: Machine, live: Live, values: seq<int>, c: nat)
    requires Running(x, m, live) && g < |x.env.callees| && CalleeOk(x, x.env.callees[g]) && c < x.lay.calls
    requires Stored(x, m.mem, x.env.callees[g].params, values, 0, c) && BindParts(x.env.callees[g].params) <= x.dirt
    ensures var f := x.env.callees[g];
            var event := Event(g, ArgumentWords(f.params, values, 0));
            var b := x.env.call(g, event.args, live.trace);
            && Block(StackCode(x.lay, f.params, 0, c)) && Block(BindCode(x.lay, f.params, 0, c))
            && Running(x, AtCall(x, f, m, c), live)
            && Simulates(x, CallCode(f, x.lay, g, t, c), m,
                         Done(Wrap(t, Returned(b, RAX)), Captured(f, b, live, event, AtCall(x, f, m, c).regs)),
                         t, x.lay.depth, x.lay.calls)
  {
    var f := x.env.callees[g];
    var stack, bind := StackCode(x.lay, f.params, 0, c), BindCode(x.lay, f.params, 0, c);
    CallReady(x, f, m, live, values, c);
    var m1 := Run(x.env, stack, m);
    var m2 := Run(x.env, bind, m1);
    RunCallee(x, g, t, m2, live, values);
    var rest := [Instr.Call(g)] + (CaptureCode(x.lay, f, 0) + NormalizeCode(t));
    BlockAppend(bind, rest);
    BlockAppend(stack, bind + rest);
    RunAppend(x.env, stack, bind + rest, m);
    RunAppend(x.env, bind, rest, m1);
    KeptTrans(x, m.mem, m2.mem, Run(x.env, rest, m2).mem, x.lay.depth, x.lay.calls);
  }

  lemma SlotsStillThere(x: Context, f: Callee, mem: Memory, mem': Memory, c: nat)
    requires ContextOk(x) && ParamsOk(x, f) && c < x.lay.calls && StackCopied(x, mem, mem', f.params, 0, c)
    ensures forall j :: 0 <= j < |f.params| ==> Read(mem', CallAt(x, c, j)) == Read(mem, CallAt(x, c, j))
  {
    forall j | 0 <= j < |f.params|
      ensures Read(mem', CallAt(x, c, j)) == Read(mem, CallAt(x, c, j))
    {
      CallSlotBounds(x, c, j);
    }
  }

  lemma BoundFromBefore(x: Context, f: Callee, m: Machine, mem': Memory, mem: Memory, c: nat)
    requires Ok(m) && BoundFrom(x, m, f.params, 0, mem', c)
    requires forall j :: 0 <= j < |f.params| ==> Read(mem', CallAt(x, c, j)) == Read(mem, CallAt(x, c, j))
    ensures BoundFrom(x, m, f.params, 0, mem, c)
  {
  }

  lemma StackCopyKeeps(x: Context, f: Callee, mem: Memory, mem': Memory, c: nat)
    requires ContextOk(x) && StackCopied(x, mem, mem', f.params, 0, c)
    ensures Kept(x, mem, mem', x.lay.depth, x.lay.calls)
  {
    FixedInside(x);
  }

  lemma DoneSimulates(x: Context, code: seq<Instr>, m: Machine, live: Live, v: nat)
    requires Ok(m) && Block(code) && m.regs[RAX] == v && v < W && CallDone(x, m, Run(x.env, code, m), live)
    ensures Simulates(x, code, m, Done(v, live), Ptr, x.lay.depth, x.lay.calls)
  {
    hide Block;
  }

  /** Capture the callee's changes, then cut the result to its type. */
  lemma RunCaptureResult(x: Context, f: Callee, t: Ty, m: Machine, before: Live, live: Live, v: nat)
    requires Explains(f, before, live) && Capturing(x, f, m, before, live, 0) && m.regs[RAX] == v && v < W
    ensures Simulates(x, CaptureCode(x.lay, f, 0) + NormalizeCode(t), m, Done(Wrap(t, v), live), t, x.lay.depth, x.lay.calls)
  {
    var capture := CaptureCode(x.lay, f, 0);
    RunCapture(x, f, m, before, live, 0);
    DoneSimulates(x, capture, m, live, v);
    RunNormalize(x.env, t, v, Run(x.env, capture, m));
    WrapInRange(t, v);
    ThenCompute(x, capture, NormalizeCode(t), m, v, live, Ptr, {RAX}, Some(Wrap(t, v)), t, x.lay.depth, x.lay.calls);
  }

  lemma ThenSimulates(x: Context, i: Instr, code: seq<Instr>, m: Machine, result: Result, t: Ty, s: nat, c: nat)
    requires Ok(m) && !m.stopped && GoodInstr(i) && !i.Jcc? && !i.Jmp?
    requires var m1 := Exec(x.env, i, m); Simulates(x, code, m1, result, t, s, c) && Kept(x, m.mem, m1.mem, s, c)
    ensures Simulates(x, [i] + code, m, result, t, s, c)
  {
    var m1 := Exec(x.env, i, m);
    RunCons(x.env, i, code, m);
    RunOne(x.env, i, m);
    BlockAppend([i], code);
    if result.Done? {
      KeptTrans(x, m.mem, m1.mem, Run(x.env, code, m1).mem, s, c);
    }
  }

  lemma CapturedKeeps(f: Callee, b: Behaviour, live: Live, event: Event, regs: seq<nat>)
    requires LiveOk(live) && |regs| == REGS
    ensures Explains(f, live, Captured(f, b, live, event, regs))
  {
  }

  lemma RunCallee(x: Context, g: nat, t: Ty, m: Machine, live: Live, values: seq<int>)
    requires Running(x, m, live) && g < |x.env.callees| && CalleeOk(x, x.env.callees[g])
    requires Passed(m, x.env.callees[g].params, 0) == ArgumentWords(x.env.callees[g].params, values, 0)
    ensures var f := x.env.callees[g];
            var event := Event(g, ArgumentWords(f.params, values, 0));
            var b := x.env.call(g, event.args, live.trace);
            Simulates(x, [Instr.Call(g)] + (CaptureCode(x.lay, f, 0) + NormalizeCode(t)), m,
                      Done(Wrap(t, Returned(b, RAX)), Captured(f, b, live, event, m.regs)), t, x.lay.depth, x.lay.calls)
  {
    var f := x.env.callees[g];
    var event := Event(g, ArgumentWords(f.params, values, 0));
    var b := x.env.call(g, event.args, live.trace);
    var live' := Captured(f, b, live, event, m.regs);
    ExecCall(x, g, m, live, event);
    RunCaptureResult(x, f, t, Exec(x.env, Instr.Call(g), m), live, live', Returned(b, RAX));
    ThenSimulates(x, Instr.Call(g), CaptureCode(x.lay, f, 0) + NormalizeCode(t), m,
                  Done(Wrap(t, Returned(b, RAX)), live'), t, x.lay.depth, x.lay.calls);
  }

  // ----- Clean captures -----

  lemma OutputFamily(params: seq<Param>, r: nat)
    ensures OutputOf(params, r).Some? ==> OutputOf(params, r).value.family == r
  {
  }

  /** When nothing else of their registers was written before, captured outputs are the source's. */
  lemma CleanCaptures(x: Context, f: Callee, b: Behaviour, live: Live, event: Event, m: Machine)
    requires Running(x, m, live) && CalleeOk(x, f) && CaptureClean(f, x.dirt)
    ensures Captured(f, b, live, event, m.regs) == LiveAfterCall(f, b, live, event)
  {
    forall r | 0 <= r < REGS && r != RSP && r != RBP && NarrowOutput(f, r)
      ensures AfterCall(f, b, r, m.regs[r]) == AfterCall(f, b, r, live.regs[r])
    {
      CleanOutput(x, f, b, live, m, r);
    }
    assert Captured(f, b, live, event, m.regs).regs == LiveAfterCall(f, b, live, event).regs;
  }

  lemma CleanOutput(x: Context, f: Callee, b: Behaviour, live: Live, m: Machine, r: nat)
    requires Running(x, m, live) && CalleeOk(x, f) && CaptureClean(f, x.dirt)
    requires r < REGS && r != RSP && r != RBP && NarrowOutput(f, r)
    ensures AfterCall(f, b, r, m.regs[r]) == AfterCall(f, b, r, live.regs[r])
  {
    var o := OutputOf(f.params, r).value;
    assert OutputOk(x, f, r) && OutputClean(OutputOf(f.params, r), r, x.dirt);
    OutputFamily(f.params, r);
    forall at | 0 <= at < 3 && Part(r, at) !in FieldParts(o)
      ensures Piece(m.regs[r], at) == Piece(live.regs[r], at)
    {
      assert Part(r, at) in Whole(r);
    }
    MergeSame(m.regs[r], live.regs[r], o, Returned(b, r));
  }
}
