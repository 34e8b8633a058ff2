/** Expression lowering in the default mode: typed trees, the meaning of a tree on the registers
    and locals it starts from, and the code the generator emits for it. */
module Codegen {
  import opened Words
  import opened X86

  datatype BinOp = AddOp | SubOp | MulOp | DivOp | ModOp | AndB | OrB | XorB | ShlOp | ShrOp
                 | EqOp | NeOp | LtOp | LeOp | GtOp | GeOp
  datatype UnOp = PosOp | NegOp | NotOp

  datatype Expr =
    | Const(value: nat, ty: Ty)                 // literal, folded or named constant
    | AddressOf(symbol: nat, addend: int)       // symbolic constant
    | Local(slot: nat, ty: Ty)                  // input parameter or let-bound local
    | Leaf(reg: Register, ty: Ty)               // machine register or output binding
    | Unary(op: UnOp, operand: Expr, ty: Ty)
    | Binary(bop: BinOp, left: Expr, right: Expr, ty: Ty)
    | CallTo(callee: nat, args: seq<Expr>, ty: Ty)

  function TypeOf(e: Expr): Ty {
    if e.AddressOf? then Ptr else e.ty
  }

  predicate IsComparison(op: BinOp) {
    op in {EqOp, NeOp, LtOp, LeOp, GtOp, GeOp}
  }

  // ----- Source meaning -----

  /** What an expression may change for the statements after it. */
  datatype Live = Live(regs: seq<nat>, flags: Flags, trace: seq<Event>)

  datatype Result = Fault(trace: seq<Event>) | Done(value: int, live: Live)
  datatype Results = Faults(trace: seq<Event>) | All(values: seq<int>, live: Live)

  function Compare(op: BinOp, l: int, r: int): int {
    if (match op
        case EqOp => l == r case NeOp => l != r case LtOp => l < r
        case LeOp => l <= r case GtOp => l > r case _ => l >= r) then 1 else 0
  }

  /** The value of a binary operation on typed values; division by zero, and the one signed
      64-bit quotient that does not fit, trap. */
  function BinValue(op: BinOp, t: Ty, l: int, r: int): Option<int> {
    match op
    case AddOp => Some(Wrap(t, l + r))
    case SubOp => Some(Wrap(t, l - r))
    case MulOp => Some(Wrap(t, l * r))
    case DivOp =>
      if r == 0 || (t == I(B64) && l == -HALF && r == -1) then None
      else Some(Wrap(t, if t.I? then TruncDiv(l, r) else l / r))
    case ModOp =>
      if r == 0 || (t == I(B64) && l == -HALF && r == -1) then None
      else Some(Wrap(t, if t.I? then l - TruncDiv(l, r) * r else l % r))
    case AndB => Some(Wrap(t, Bits64(And, Rep(l), Rep(r))))
    case OrB => Some(Wrap(t, Bits64(Or, Rep(l), Rep(r))))
    case XorB => Some(Wrap(t, Bits64(Xor, Rep(l), Rep(r))))
    case ShlOp => Some(Wrap(t, l * Pow2(Rep(r) % 64)))
    case ShrOp => Some(Wrap(t, Rep(l) / Pow2(Rep(r) % 64)))
    case _ => Some(Compare(op, l, r))
  }

  /** A plus makes a value of its own type of its operand. */
  function UnValue(op: UnOp, t: Ty, v: int): int {
    match op case PosOp => Wrap(t, v) case NegOp => Wrap(t, -v) case NotOp => Wrap(t, -v - 1)
  }

  /** The word a callee finds for an argument: all of it on the stack, the bound field otherwise. */
  function ArgumentWord(p: Param, v: int): nat {
    if p.onStack then Rep(v) else if p.reg.high8 then Rep(v) % 0x100 else Cut(Rep(v), p.reg.width)
  }

  function ArgumentWords(params: seq<Param>, values: seq<int>, i: nat): seq<nat>
    requires i <= |params|
    decreases |params| - i
  {
    if i == |params| || values == [] then []
    else if params[i].direction == Out then ArgumentWords(params, values, i + 1)
    else [ArgumentWord(params[i], values[0])] + ArgumentWords(params, values[1..], i + 1)
  }

  function LiveAfterCall(f: Callee, b: Behaviour, live: Live, event: Event): (r: Live)
    requires |live.regs| == REGS
    ensures |r.regs| == REGS
  {
    Live(seq(REGS, r requires 0 <= r < REGS =>
           if r == RSP || r == RBP then live.regs[r] else AfterCall(f, b, r, live.regs[r]) % W),
         if f.clobbersFlags then b.flags else live.flags,
         live.trace + [event])
  }

  /** Register leaves read snap, the registers at the start of the whole expression. */
  function Eval(env: Env, e: Expr, snap: seq<nat>, vars: seq<nat>, live: Live): (r: Result)
    requires |snap| == REGS && |live.regs| == REGS
    ensures r.Done? ==> |r.live.regs| == REGS
  {
    match e
    case Const(v, t) => Done(Wrap(t, v), live)
    case AddressOf(s, a) => Done(Rep(env.address(s) + a), live)
    case Local(k, t) => Done(Wrap(t, if k < |vars| then vars[k] else 0), live)
    case Leaf(reg, t) => Done(Wrap(t, if reg.family < REGS then Field(snap[reg.family], reg) else 0), live)
    case Unary(op, x, t) =>
      (match Eval(env, x, snap, vars, live)
       case Fault(tr) => Fault(tr)
       case Done(v, live') => Done(UnValue(op, t, v), live'))
    case Binary(op, l, r, t) =>
      (match Eval(env, l, snap, vars, live)
       case Fault(tr) => Fault(tr)
       case Done(lv, live') =>
         match Eval(env, r, snap, vars, live')
         case Fault(tr) => Fault(tr)
         case Done(rv, live'') =>
           match BinValue(op, t, lv, rv)
           case None => Fault(live''.trace)
           case Some(v) => Done(v, live''))
    case CallTo(f, args, t) =>
      match EvalAll(env, args, snap, vars, live)
      case Faults(tr) => Fault(tr)
      case All(vs, live') =>
        if f >= |env.callees| then Fault(live'.trace)
        else
          var callee := env.callees[f];
          var event := Event(f, ArgumentWords(callee.params, vs, 0));
          var b := env.call(f, event.args, live'.trace);
          Done(Wrap(t, Returned(b, RAX)), LiveAfterCall(callee, b, live', event))
  }

  /** Arguments are evaluated from left to right. */
  function EvalAll(env: Env, es: seq<Expr>, snap: seq<nat>, vars: seq<nat>, live: Live): (r: Results)
    requires |snap| == REGS && |live.regs| == REGS
    ensures r.All? ==> |r.live.regs| == REGS && |r.values| == |es|
  {
    if es == [] then All([], live)
    else match Eval(env, es[0], snap, vars, live)
      case Fault(tr) => Faults(tr)
      case Done(v, live') =>
        match EvalAll(env, es[1..], snap, vars, live')
        case Faults(tr) => Faults(tr)
        case All(vs, live'') => All([v] + vs, live'')
  }

  // ----- Frame layout -----

  const EXPRESSION_STATE: nat := 280

  /** The frame of a function: its locals, then the register and flag snapshots, then one spill
      slot per nesting level, then the argument slots of each call level, then the outgoing area. */
  datatype Layout = Layout(locals: nat, depth: nat, calls: nat, perCall: nat, outgoing: nat, preserveFlags: bool)
  {
    function SnapshotBase(): nat { locals * 8 + 8 }
    function SpillBase(): nat { SnapshotBase() + EXPRESSION_STATE }
    function CallBase(): nat { SpillBase() + depth * 8 }
    function Arguments(level: nat): nat { level * (perCall * 8) }

    function LocalSlot(k: nat): int { -(8 * (k + 1)) }
    function RegisterSlot(reg: nat, restore: bool): int {
      -(SnapshotBase() + reg * 8 + if restore then 128 else 0)
    }
    function FlagsSlot(restore: bool): int { -(SnapshotBase() + if restore then 264 else 256) }
    function SpillSlot(level: nat): int { -(SpillBase() + level * 8) }
    function CallSlot(level: nat, i: nat): int { -(CallBase() + Arguments(level) + i * 8) }

    function Needed(): nat {
      32 + locals * 8 + depth * 8 + Arguments(calls) + EXPRESSION_STATE + outgoing * 8
    }

    /** Rounded so that the body runs with an aligned stack pointer. */
    function Frame(): nat {
      if preserveFlags then (Needed() + 15) / 16 * 16 else (Needed() + 7) / 16 * 16 + 8
    }
  }

  function Max(a: nat, b: nat): nat {
    if a > b then a else b
  }

  function Depth(e: Expr): (d: nat)
    ensures d > 0
  {
    1 + match e
        case Unary(_, x, _) => Depth(x)
        case Binary(_, l, r, _) => Max(Depth(l), Depth(r))
        case CallTo(_, args, _) => DepthAll(args)
        case _ => 0
  }

  function DepthAll(es: seq<Expr>): nat {
    if es == [] then 0 else Max(Depth(es[0]), DepthAll(es[1..]))
  }

  /** The spill levels that the code of e reaches, at most its depth. */
  function Spills(e: Expr): (n: nat)
    ensures 0 < n <= Depth(e)
  {
    match e
    case Unary(_, x, _) => Spills(x)
    case Binary(_, l, r, _) => 1 + Max(Spills(l), Spills(r))
    case CallTo(_, args, _) => 1 + SpillsAll(args)
    case _ => 1
  }

  function SpillsAll(es: seq<Expr>): (n: nat)
    ensures n <= DepthAll(es)
  {
    if es == [] then 0 else Max(Spills(es[0]), SpillsAll(es[1..]))
  }

  function CallDepth(e: Expr): nat {
    match e
    case Unary(_, x, _) => CallDepth(x)
    case Binary(_, l, r, _) => Max(CallDepth(l), CallDepth(r))
    case CallTo(_, args, _) => 1 + CallDepthAll(args)
    case _ => 0
  }

  function CallDepthAll(es: seq<Expr>): nat {
    if es == [] then 0 else Max(CallDepth(es[0]), CallDepthAll(es[1..]))
  }

  // ----- Emitted code -----

  function ScalarWidth(t: Ty): Width {
    match t case U(w) => w case I(w) => w case Bool => B8 case Ptr => B64
  }

  function NormalizeCode(t: Ty): seq<Instr> {
    match t
    case Bool => [AndOne]
    case U(w) => if w == B64 then [] else if w == B32 then [MovReg32(RAX, RAX)] else [MovZx(w)]
    case I(w) => if w == B64 then [] else [MovSx(w)]
    case Ptr => []
  }

  function AluFor(op: BinOp): AluOp {
    match op
    case AddOp => Add case SubOp => Sub case MulOp => Imul
    case AndB => AndOp case OrB => OrOp case _ => XorOp
  }

  function CondFor(op: BinOp, signed: bool): Cond {
    match op
    case EqOp => E
    case NeOp => NE
    case LtOp => if signed then L else B
    case LeOp => if signed then LE else BE
    case GtOp => if signed then G else A
    case _ => if signed then GE else AE
  }

  /** The operation proper: left operand in r10, right operand in rax. */
  function OperationCode(op: BinOp, t: Ty, operand: Ty): seq<Instr> {
    if IsComparison(op) then
      [Cmp(R10, RAX), Jcc(CondFor(op, operand.I?), 2), MovImm(RAX, 0), Jmp(1), MovImm(RAX, 1)]
    else if op == DivOp || op == ModOp then
      [MovReg(R11, RAX), MovReg(RAX, R10)] +
      (if t.I? then [Cqo, Idiv(R11)] else [Alu(XorOp, RDX, RDX), Div(R11)]) +
      (if op == ModOp then [MovReg(RAX, RDX)] else []) + NormalizeCode(t)
    else
      (if op == ShlOp then [MovReg(RCX, RAX), Shl(R10)]
       else if op == ShrOp then [MovReg(RCX, RAX), Shr(R10)]
       else [Alu(AluFor(op), R10, RAX)]) +
      [MovReg(RAX, R10)] + NormalizeCode(t)
  }

  function UnaryCode(op: UnOp, t: Ty): seq<Instr> {
    match op
    case PosOp => []
    case NegOp => [Instr.Neg(RAX)] + NormalizeCode(t)
    case NotOp => [Instr.Not(RAX)] + NormalizeCode(t)
  }

  function LeafCode(lay: Layout, reg: Register, t: Ty): seq<Instr> {
    [if Narrow(reg) then LoadZx(RAX, RBP, lay.RegisterSlot(reg.family, false), reg)
     else Load(Register(RAX, reg.width, false), RBP, lay.RegisterSlot(reg.family, false))] + NormalizeCode(t)
  }

  /** Outgoing stack arguments are copied above the shadow space before registers are bound. */
  function StackCode(lay: Layout, params: seq<Param>, i: nat, c: nat): seq<Instr>
    requires i <= |params|
    decreases |params| - i
  {
    if i == |params| then []
    else
      (if params[i].onStack && i >= 4 then CopyCode(lay, i, c) else []) + StackCode(lay, params, i + 1, c)
  }

  function CopyCode(lay: Layout, i: nat, c: nat): seq<Instr>
    requires i >= 4
  {
    [Load(Register(RAX, B64, false), RBP, lay.CallSlot(c, i)), Store(RSP, 32 + 8 * (i - 4), RAX)]
  }

  function BindCode(lay: Layout, params: seq<Param>, i: nat, c: nat): seq<Instr>
    requires i <= |params|
    decreases |params| - i
  {
    if i == |params| then []
    else
      (if params[i].onStack || params[i].direction == Out then []
       else [Load(params[i].reg, RBP, lay.CallSlot(c, i))])
      + BindCode(lay, params, i + 1, c)
  }

  /** Registers the callee really changed become part of the state kept after the expression. */
  function CaptureCode(lay: Layout, f: Callee, r: nat): seq<Instr>
    requires r <= REGS
    decreases REGS - r
  {
    if r == REGS then (if f.clobbersFlags then FlagsCode(lay, true) else [])
    else
      (if Changes(f, r) && r != RSP && r != RBP then [Store(RBP, lay.RegisterSlot(r, true), r)] else [])
      + CaptureCode(lay, f, r + 1)
  }

  /** emit_expression_inner at spill level s and call level c. */
  function Code(callees: seq<Callee>, lay: Layout, e: Expr, s: nat, c: nat): seq<Instr>
    decreases e, 0
  {
    match e
    case Const(v, _) => [MovImm(RAX, v)]
    case AddressOf(sym, a) => [Lea(RAX, sym, a)]
    case Local(k, t) => [Load(Register(RAX, ScalarWidth(t), false), RBP, lay.LocalSlot(k))] + NormalizeCode(t)
    case Leaf(reg, t) => LeafCode(lay, reg, t)
    case Unary(op, x, t) => Code(callees, lay, x, s, c) + UnaryCode(op, t)
    case Binary(op, l, r, t) =>
      Code(callees, lay, l, s + 1, c) + [Store(RBP, lay.SpillSlot(s), RAX)] +
      (Code(callees, lay, r, s + 1, c) +
       ([Load(Register(R10, B64, false), RBP, lay.SpillSlot(s))] + OperationCode(op, t, TypeOf(l))))
    case CallTo(f, args, t) =>
      if f >= |callees| then []
      else
        ArgumentCode(callees, lay, callees[f].params, args, 0, s, c) + CallCode(callees[f], lay, f, t, c)
  }

  function CallCode(callee: Callee, lay: Layout, f: nat, t: Ty, c: nat): seq<Instr> {
    StackCode(lay, callee.params, 0, c) +
    (BindCode(lay, callee.params, 0, c) + ([Instr.Call(f)] + (CaptureCode(lay, callee, 0) + NormalizeCode(t))))
  }

  /** Evaluates the arguments from parameter i on and stores each in its slot of call level c. */
  function ArgumentCode(callees: seq<Callee>, lay: Layout, params: seq<Param>, args: seq<Expr>, i: nat, s: nat, c: nat): seq<Instr>
    requires i <= |params|
    decreases args, |params| - i
  {
    if i == |params| then []
    else if params[i].direction == Out then ArgumentCode(callees, lay, params, args, i + 1, s, c)
    else if args == [] then []
    else
      Code(callees, lay, args[0], s, c + 1) + [Store(RBP, lay.CallSlot(c, i), RAX)] +
      ArgumentCode(callees, lay, params, args[1..], i + 1, s, c)
  }

  function SnapshotCode(lay: Layout, r: nat): seq<Instr>
    requires r <= REGS
    decreases REGS - r
  {
    if r == REGS then FlagsCode(lay, false) + FlagsCode(lay, true)
    else
      [Store(RBP, lay.RegisterSlot(r, false), r), Store(RBP, lay.RegisterSlot(r, true), r)] + SnapshotCode(lay, r + 1)
  }

  function FlagsCode(lay: Layout, restore: bool): seq<Instr> {
    [Pushfq, PopSlot(RBP, lay.FlagsSlot(restore))]
  }

  function RestoreCode(lay: Layout, r: nat): seq<Instr>
    requires r <= REGS
    decreases REGS - r
  {
    if r == REGS then [PushSlot(RBP, lay.FlagsSlot(true)), Popfq]
    else
      (if r != RSP && r != RBP then [Load(Register(r, B64, false), RBP, lay.RegisterSlot(r, true))] else [])
      + RestoreCode(lay, r + 1)
  }

  /** emit_expression at the outermost level. */
  function ExpressionCode(callees: seq<Callee>, lay: Layout, e: Expr): seq<Instr> {
    SnapshotCode(lay, 0) + (Code(callees, lay, e, 0, 0) + RestoreCode(lay, 1))
  }

  /** A let statement: the value goes to the local, rax gets its kept value back. */
  function LetCode(callees: seq<Callee>, lay: Layout, slot: nat, e: Expr): seq<Instr> {
    ExpressionCode(callees, lay, e) +
    [Store(RBP, lay.LocalSlot(slot), RAX), Load(Register(RAX, B64, false), RBP, lay.RegisterSlot(RAX, true))]
  }

  // ----- What the generator accepts -----

  predicate SupportedParam(p: Param, i: nat) {
    p.onStack || p.direction == Out ||
    (p.reg.family < REGS && p.reg.family != RSP && p.reg.family != RBP)
  }

  /** The conditions whose failure makes emit_call report an error. */
  predicate Supported(callees: seq<Callee>, e: Expr)
    decreases e, 0
  {
    match e
    case Leaf(reg, _) => reg.family < REGS
    case Unary(_, x, _) => Supported(callees, x)
    case Binary(_, l, r, _) => Supported(callees, l) && Supported(callees, r)
    case CallTo(f, args, _) =>
      f < |callees| && SupportedArguments(callees, callees[f].params, args, 0)
    case _ => true
  }

  predicate SupportedArguments(callees: seq<Callee>, params: seq<Param>, args: seq<Expr>, i: nat)
    requires i <= |params|
    decreases args, |params| - i
  {
    if i == |params| then true
    else if params[i].direction == Out then SupportedArguments(callees, params, args, i + 1)
    else args != [] && Supported(callees, args[0]) && SupportedParam(params[i], i) &&
         SupportedArguments(callees, params, args[1..], i + 1)
  }
}
