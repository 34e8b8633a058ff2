/** The x86-64 subset that expression code uses: sixteen registers, flags, a memory of 8-byte
    stack slots, and calls whose effect an environment decides from the arguments and history. */
module X86 {
  import opened Words

  const RAX: nat := 0
  const RCX: nat := 1
  const RDX: nat := 2
  const RSP: nat := 4
  const RBP: nat := 5
  const R10: nat := 10
  const R11: nat := 11
  const REGS: nat := 16

  datatype Flags = Flags(cf: bool, zf: bool, sf: bool, of: bool, other: nat)
  datatype Word = Value(v: nat) | Saved(f: Flags)
  type Memory = map<int, Word>

  function Read(mem: Memory, at: int): Word {
    if at in mem then mem[at] else Value(0)
  }

  function Number(w: Word): (v: nat)
    ensures v < W
  {
    if w.Value? then w.v % W else 0
  }

  function FlagsOf(w: Word): Flags {
    if w.Saved? then w.f else Flags(false, false, false, false, 0)
  }

  /** A register or a part of one. */
  datatype Register = Register(family: nat, width: Width, high8: bool)

  predicate Narrow(r: Register) {
    r.width == B8 || r.width == B16
  }

  /** The contents of the named part of a register that holds x. */
  function Field(x: nat, r: Register): nat {
    if r.high8 then (x / 0x100) % 0x100 else Cut(x, r.width)
  }

  /** Register contents after writing v to the named part: narrow writes keep the rest, 32-bit
      writes clear the upper half. */
  function Merge(old_: nat, r: Register, v: nat): nat {
    if r.high8 then old_ - ((old_ / 0x100) % 0x100) * 0x100 + (v % 0x100) * 0x100
    else match r.width
      case B8 => old_ - old_ % 0x100 + v % 0x100
      case B16 => old_ - old_ % 0x1_0000 + v % 0x1_0000
      case B32 => v % 0x1_0000_0000
      case B64 => v % W
  }

  /** A slot after a store to the named part of it: the rest stays, for 32 bits too. */
  function Patch(slot: nat, part: Register, v: nat): nat {
    if part.width == B32 && !part.high8 then slot - slot % 0x1_0000_0000 + v % 0x1_0000_0000 else Merge(slot, part, v)
  }

  datatype Direction = In | Out | InOut
  /** reg is where the parameter lives; onStack parameters travel in the outgoing area. */
  datatype Param = Param(direction: Direction, reg: Register, onStack: bool)
  datatype Callee = Callee(params: seq<Param>, clobbers: set<nat>, clobbersFlags: bool)

  datatype Event = Event(callee: nat, args: seq<nat>)
  datatype Behaviour = Behaviour(regs: seq<nat>, flags: Flags, scratch: Memory)

  /** What the machine does not decide: callees, link addresses, and flag bits no code reads. */
  datatype Env = Env(callees: seq<Callee>, call: (nat, seq<nat>, seq<Event>) -> Behaviour,
                     address: nat -> nat, other: (nat, nat) -> nat, alu: (nat, nat) -> Flags)

  function Returned(b: Behaviour, r: nat): (v: nat)
    ensures v < W
  {
    if r < |b.regs| then b.regs[r] % W else 0
  }

  datatype Option<T> = None | Some(value: T)

  /** The output register a callee leaves in family r; a later parameter wins. */
  function OutputOf(params: seq<Param>, r: nat): Option<Register> {
    if params == [] then None
    else
      var p := params[|params| - 1];
      if p.direction != In && p.reg.family == r then Some(p.reg) else OutputOf(params[..|params| - 1], r)
  }

  predicate Changes(f: Callee, r: nat) {
    r == RAX || r in f.clobbers || OutputOf(f.params, r).Some?
  }

  /** A register after the callee's epilogue: an output field is merged, a clobber is arbitrary,
      anything else is restored. */
  function AfterCall(f: Callee, b: Behaviour, r: nat, before: nat): nat {
    match OutputOf(f.params, r)
    case Some(reg) => Merge(before, reg, Returned(b, r))
    case None => if r == RAX || r in f.clobbers then Returned(b, r) else before
  }

  datatype Cond = E | NE | B | BE | A | AE | L | LE | G | GE
  datatype AluOp = Add | Sub | Imul | AndOp | OrOp | XorOp

  datatype Instr =
    | MovImm(dst: nat, value: nat)
    | MovReg(dst: nat, src: nat)
    | MovReg32(dst: nat, src: nat)
    | Load(reg: Register, base: nat, disp: int)
    | LoadZx(dst: nat, base: nat, disp: int, part: Register)
    | Store(base: nat, disp: int, src: nat)
    | MovZx(width: Width)
    | MovSx(width: Width)
    | AndOne
    | Alu(op: AluOp, dst: nat, src: nat)
    | Shl(dst: nat)
    | Shr(dst: nat)
    | Neg(dst: nat)
    | Not(dst: nat)
    | Cqo
    | Idiv(src: nat)
    | Div(src: nat)
    | Cmp(left: nat, right: nat)
    | Jcc(cond: Cond, skip: nat)
    | Jmp(skip: nat)
    | Pushfq
    | Popfq
    | PushSlot(base: nat, disp: int)
    | PopSlot(base: nat, disp: int)
    | Lea(dst: nat, symbol: nat, addend: int)
    | Call(callee: nat)
    | Test(src: nat)
    | Push(src: nat)
    | Pop(dst: nat)
    | LowerSp(amount: nat)
    | Touch
    | SkipSlot
    | StorePart(base: nat, disp: int, from: Register, part: Register)
    | Ret

  /** stopped: by a trap, or by returning to the caller. */
  datatype Machine = Machine(regs: seq<nat>, flags: Flags, mem: Memory, trace: seq<Event>, stopped: bool, returned: bool)

  predicate Ok(m: Machine) {
    |m.regs| == REGS && (forall r :: 0 <= r < REGS ==> m.regs[r] < W) && (m.returned ==> m.stopped)
  }

  predicate GoodInstr(i: Instr) {
    match i
    case MovImm(d, v) => d < REGS && v < W
    case MovReg(d, s) => d < REGS && s < REGS
    case MovReg32(d, s) => d < REGS && s < REGS
    case Load(r, b, _) => r.family < REGS && b < REGS
    case LoadZx(d, b, _, _) => d < REGS && b < REGS
    case Store(b, _, s) => b < REGS && s < REGS
    case Alu(_, d, s) => d < REGS && s < REGS
    case Shl(d) => d < REGS
    case Shr(d) => d < REGS
    case Neg(d) => d < REGS
    case Not(d) => d < REGS
    case Idiv(s) => s < REGS
    case Div(s) => s < REGS
    case Cmp(l, r) => l < REGS && r < REGS
    case PushSlot(b, _) => b < REGS
    case PopSlot(b, _) => b < REGS
    case Lea(d, _, _) => d < REGS
    case Test(r) => r < REGS
    case Push(r) => r < REGS
    case Pop(r) => r < REGS
    case StorePart(b, _, from, _) => b < REGS && from.family < REGS
    case _ => true
  }

  function TruncDiv(n: int, d: int): int
    requires d != 0
  {
    var q := (if n < 0 then -n else n) / (if d < 0 then -d else d);
    if (n < 0) == (d < 0) then q else -q
  }

  function AluResult(op: AluOp, a: nat, b: nat): (r: nat)
    requires a < W && b < W
    ensures r < W
  {
    match op
    case Add => (a + b) % W
    case Sub => (a - b) % W
    case Imul => (a * b) % W
    case AndOp => Bits64(And, a, b)
    case OrOp => Bits64(Or, a, b)
    case XorOp => Bits64(Xor, a, b)
  }

  function CompareFlags(env: Env, a: nat, b: nat): Flags
    requires a < W && b < W
  {
    var d := Signed(a) - Signed(b);
    Flags(a < b, a == b, (a - b) % W >= HALF, d < -HALF || d >= HALF, env.other(a, b))
  }

  predicate Holds(c: Cond, f: Flags) {
    match c
    case E => f.zf
    case NE => !f.zf
    case B => f.cf
    case BE => f.cf || f.zf
    case A => !f.cf && !f.zf
    case AE => !f.cf
    case L => f.sf != f.of
    case LE => f.zf || f.sf != f.of
    case G => !f.zf && f.sf == f.of
    case GE => f.sf == f.of
  }

  function Put(m: Machine, r: nat, v: int): Machine
    requires Ok(m) && r < REGS
  {
    m.(regs := m.regs[r := v % W])
  }

  function PassedWord(m: Machine, p: Param, i: nat): nat
    requires Ok(m)
  {
    if p.onStack then Number(Read(m.mem, m.regs[RSP] + 32 + 8 * (i - 4)))
    else if p.reg.family < REGS then Field(m.regs[p.reg.family], p.reg) else 0
  }

  /** The words the callee finds for its input parameters. */
  function Passed(m: Machine, params: seq<Param>, i: nat): seq<nat>
    requires Ok(m) && i <= |params|
    decreases |params| - i
  {
    if i == |params| then []
    else if params[i].direction == Out then Passed(m, params, i + 1)
    else [PassedWord(m, params[i], i)] + Passed(m, params, i + 1)
  }

  /** The part of the caller's frame that belongs to the callee: the shadow space and the
      outgoing stack arguments. */
  function Extra(params: seq<Param>): nat {
    if |params| > 4 && params[|params| - 1].onStack then 8 * (|params| - 4) else 0
  }

  function Overwrite(mem: Memory, scratch: Memory, limit: int): Memory {
    map a | a in mem.Keys + scratch.Keys :: if a in scratch && a < limit then scratch[a] else Read(mem, a)
  }

  function DoCall(env: Env, m: Machine, f: nat): Machine
    requires Ok(m)
  {
    if f >= |env.callees| then m.(stopped := true)
    else
      var callee := env.callees[f];
      var event := Event(f, Passed(m, callee.params, 0));
      var b := env.call(f, event.args, m.trace);
      m.(regs := seq(REGS, r requires 0 <= r < REGS =>
           if r == RSP || r == RBP then m.regs[r] else AfterCall(callee, b, r, m.regs[r]) % W),
         flags := if callee.clobbersFlags then b.flags else m.flags,
         mem := Overwrite(m.mem, b.scratch, m.regs[RSP] + 32 + Extra(callee.params)),
         trace := m.trace + [event])
  }

  function Exec(env: Env, i: Instr, m: Machine): (r: Machine)
    requires Ok(m) && GoodInstr(i)
    ensures Ok(r)
  {
    if i.Call? then DoCall(env, m, i.callee)
    else if i.Jcc? || i.Jmp? then m
    else if IsMove(i) then ExecMove(env, i, m)
    else if IsStack(i) then ExecStack(env, i, m)
    else ExecAlu(env, i, m)
  }

  predicate IsMove(i: Instr) {
    || i.MovImm? || i.MovReg? || i.MovReg32? || i.Load? || i.LoadZx? || i.Store? || i.MovZx? || i.MovSx?
    || i.Lea? || i.StorePart?
  }

  /** Data movement; the flags stay. */
  function ExecMove(env: Env, i: Instr, m: Machine): (r: Machine)
    requires Ok(m) && GoodInstr(i)
    ensures Ok(r)
  {
    match i
    case MovImm(d, v) => Put(m, d, v)
    case MovReg(d, s) => Put(m, d, m.regs[s])
    case MovReg32(d, s) => Put(m, d, m.regs[s] % 0x1_0000_0000)
    case Load(r, b, disp) =>
      Put(m, r.family, Merge(m.regs[r.family], r, Number(Read(m.mem, m.regs[b] + disp))))
    case LoadZx(d, b, disp, part) => Put(m, d, Field(Number(Read(m.mem, m.regs[b] + disp)), part))
    case Store(b, disp, s) => m.(mem := m.mem[m.regs[b] + disp := Value(m.regs[s])])
    case MovZx(w) => Put(m, RAX, Cut(m.regs[RAX], w))
    case MovSx(w) => Put(m, RAX, Normalize(I(w), m.regs[RAX]))
    case Lea(d, symbol, addend) => Put(m, d, env.address(symbol) + addend)
    case StorePart(b, disp, from, part) =>
      var at := m.regs[b] + disp;
      m.(mem := m.mem[at := Value(Patch(Number(Read(m.mem, at)), part, Field(m.regs[from.family], from)))])
    case _ => m
  }

  predicate IsStack(i: Instr) {
    || i.Pushfq? || i.Popfq? || i.PushSlot? || i.PopSlot? || i.Push? || i.Pop? || i.LowerSp? || i.Touch?
    || i.SkipSlot? || i.Ret?
  }

  /** Instructions that move the stack pointer. */
  function ExecStack(env: Env, i: Instr, m: Machine): (r: Machine)
    requires Ok(m) && GoodInstr(i)
    ensures Ok(r)
  {
    var sp := (m.regs[RSP] - 8) % W;
    match i
    case Pushfq => Put(m, RSP, sp).(mem := m.mem[sp := Saved(m.flags)])
    case Popfq => Put(m, RSP, m.regs[RSP] + 8).(flags := FlagsOf(Read(m.mem, m.regs[RSP])))
    case PushSlot(b, disp) => Put(m, RSP, sp).(mem := m.mem[sp := Read(m.mem, m.regs[b] + disp)])
    case PopSlot(b, disp) =>
      Put(m, RSP, m.regs[RSP] + 8).(mem := m.mem[m.regs[b] + disp := Read(m.mem, m.regs[RSP])])
    case Push(r) => Put(m, RSP, sp).(mem := m.mem[sp := Value(m.regs[r])])
    case Pop(r) => Put(Put(m, RSP, m.regs[RSP] + 8), r, Number(Read(m.mem, m.regs[RSP])))
    case LowerSp(n) => Put(m, RSP, m.regs[RSP] - n).(flags := env.alu(m.regs[RSP], n % W))
    case Touch =>
      m.(mem := m.mem[m.regs[RSP] := Value(Patch(Number(Read(m.mem, m.regs[RSP])), Register(RAX, B8, false), 0))])
    case SkipSlot => Put(m, RSP, m.regs[RSP] + 8)
    case Ret => Put(m, RSP, m.regs[RSP] + 8).(stopped := true, returned := true)
    case _ => m
  }

  /** Arithmetic; the flags change, except for not and the sign extension of rax into rdx. */
  function ExecAlu(env: Env, i: Instr, m: Machine): (r: Machine)
    requires Ok(m) && GoodInstr(i)
    ensures Ok(r)
  {
    match i
    case AndOne => Put(m, RAX, m.regs[RAX] % 2).(flags := env.alu(m.regs[RAX], 1))
    case Alu(op, d, s) =>
      Put(m, d, AluResult(op, m.regs[d], m.regs[s])).(flags := env.alu(m.regs[d], m.regs[s]))
    case Shl(d) =>
      Put(m, d, m.regs[d] * Pow2(m.regs[RCX] % 0x100 % 64)).(flags := env.alu(m.regs[d], m.regs[RCX]))
    case Shr(d) =>
      Put(m, d, m.regs[d] / Pow2(m.regs[RCX] % 0x100 % 64)).(flags := env.alu(m.regs[d], m.regs[RCX]))
    case Neg(d) => Put(m, d, W - m.regs[d]).(flags := env.alu(0, m.regs[d]))
    case Not(d) => Put(m, d, W - 1 - m.regs[d])
    case Cqo => Put(m, RDX, if m.regs[RAX] >= HALF then W - 1 else 0)
    case Idiv(s) => ExecIdivide(env, s, m)
    case Div(s) =>
      var n, d := m.regs[RDX] * W + m.regs[RAX], m.regs[s];
      if d == 0 || n / d >= W then m.(stopped := true)
      else Put(Put(m, RAX, n / d), RDX, n % d).(flags := env.alu(m.regs[RAX], m.regs[s]))
    case Cmp(l, r) => m.(flags := CompareFlags(env, m.regs[l], m.regs[r]))
    case Test(r) => m.(flags := CompareFlags(env, m.regs[r], 0))
    case _ => m
  }

  function ExecIdivide(env: Env, s: nat, m: Machine): (r: Machine)
    requires Ok(m) && s < REGS
    ensures Ok(r)
  {
    var n, d := Signed(m.regs[RDX]) * W + m.regs[RAX], Signed(m.regs[s]);
    if d == 0 then m.(stopped := true)
    else
      var q := TruncDiv(n, d);
      if q < -HALF || q >= HALF then m.(stopped := true)
      else Put(Put(m, RAX, q), RDX, n - q * d).(flags := env.alu(m.regs[RAX], m.regs[s]))
  }

  predicate Good(code: seq<Instr>) {
    forall k :: 0 <= k < |code| ==> GoodInstr(code[k])
  }

  /** Runs code from its first instruction to its end; a trap or a return stops the machine. */
  function Run(env: Env, code: seq<Instr>, m: Machine): (r: Machine)
    requires Ok(m) && Good(code)
    ensures Ok(r)
    decreases |code|
  {
    if m.stopped || code == [] then m
    else match code[0]
      case Jcc(c, skip) =>
        if Holds(c, m.flags) && skip < |code| then Run(env, code[1 + skip..], m) else Run(env, code[1..], m)
      case Jmp(skip) => if skip < |code| then Run(env, code[1 + skip..], m) else m
      case i => Run(env, code[1..], Exec(env, i, m))
  }

  /** No jump leaves the code. */
  predicate Contained(code: seq<Instr>) {
    forall k :: 0 <= k < |code| ==>
      (code[k].Jcc? ==> k + 1 + code[k].skip <= |code|) && (code[k].Jmp? ==> k + 1 + code[k].skip <= |code|)
  }

  predicate Block(code: seq<Instr>) {
    Good(code) && Contained(code)
  }

  lemma BlockAppend(a: seq<Instr>, b: seq<Instr>)
    requires Block(a) && Block(b)
    ensures Block(a + b)
  {
    forall k | 0 <= k < |a + b|
      ensures GoodInstr((a + b)[k])
      ensures (a + b)[k].Jcc? ==> k + 1 + (a + b)[k].skip <= |a + b|
      ensures (a + b)[k].Jmp? ==> k + 1 + (a + b)[k].skip <= |a + b|
    {
      if k < |a| {
        assert (a + b)[k] == a[k];
      } else {
        assert (a + b)[k] == b[k - |a|];
      }
    }
  }

  lemma {:induction false} RunAppend(env: Env, a: seq<Instr>, b: seq<Instr>, m: Machine)
    requires Ok(m) && Block(a) && Good(b)
    ensures Good(a + b) && Run(env, a + b, m) == Run(env, b, Run(env, a, m))
    decreases |a|
  {
    hide Exec;
    assert Good(a + b) by {
      forall k | 0 <= k < |a + b|
        ensures GoodInstr((a + b)[k])
      {
        assert (a + b)[k] == if k < |a| then a[k] else b[k - |a|];
      }
    }
    if a == [] {
      assert a + b == b;
    } else if !m.stopped {
      var n := if a[0].Jcc? && Holds(a[0].cond, m.flags) then 1 + a[0].skip else if a[0].Jmp? then 1 + a[0].skip else 1;
      assert (a + b)[0] == a[0];
      assert (a + b)[n..] == a[n..] + b;
      assert Block(a[n..]) by {
        forall k | 0 <= k < |a[n..]|
          ensures GoodInstr(a[n..][k])
          ensures a[n..][k].Jcc? ==> k + 1 + a[n..][k].skip <= |a[n..]|
          ensures a[n..][k].Jmp? ==> k + 1 + a[n..][k].skip <= |a[n..]|
        {
          assert a[n..][k] == a[n + k];
        }
      }
      var m' := if a[0].Jcc? || a[0].Jmp? then m else Exec(env, a[0], m);
      RunAppend(env, a[n..], b, m');
    }
  }
}
