/** What emitted expression code leaves in the registers it does not keep: the last operand,
    quotient, count or argument that was put there, and how a call then merges its outputs in. */
module Leftovers {
  import opened Words
  import opened X86
  import opened Codegen
  import opened Operations
  import opened Simulation
  import opened Calls
  import opened ExpressionProof

  // ----- Code that does not write a register -----

  predicate Spares(i: Instr, q: nat) {
    match i
    case MovImm(d, _) => d != q
    case MovReg(d, _) => d != q
    case MovReg32(d, _) => d != q
    case Load(r, _, _) => r.family != q
    case LoadZx(d, _, _, _) => d != q
    case Lea(d, _, _) => d != q
    case MovZx(_) => q != RAX
    case MovSx(_) => q != RAX
    case AndOne => q != RAX
    case Neg(d) => d != q
    case Not(d) => d != q
    case Store(_, _, _) => true
    case Pushfq => q != RSP
    case PopSlot(_, _) => q != RSP
    case _ => false
  }

  predicate AllSpare(code: seq<Instr>, q: nat) {
    forall k :: 0 <= k < |code| ==> Spares(code[k], q)
  }

  lemma ExecSpares(env: Env, i: Instr, m: Machine, q: nat)
    requires Ok(m) && GoodInstr(i) && Spares(i, q) && q < REGS
    ensures Exec(env, i, m).regs[q] == m.regs[q]
  {
  }

  lemma {:induction false} RunSpares(env: Env, code: seq<Instr>, m: Machine, q: nat)
    requires Ok(m) && Good(code) && AllSpare(code, q) && q < REGS
    ensures Run(env, code, m).regs[q] == m.regs[q]
    decreases |code|
  {
    hide Exec, GoodInstr;
    if code != [] && !m.stopped {
      assert Spares(code[0], q);
      ExecSpares(env, code[0], m, q);
      assert AllSpare(code[1..], q) && Good(code[1..]);
      RunSpares(env, code[1..], Exec(env, code[0], m), q);
    }
  }

  lemma SpareBoth(a: seq<Instr>, b: seq<Instr>, q: nat)
    requires AllSpare(a, q) && AllSpare(b, q)
    ensures AllSpare(a + b, q)
  {
  }

  // ----- One operation -----

  /** A register after the code of an operation on l and r that writes it. */
  function OperandLeft(op: BinOp, t: Ty, l: int, r: int, q: nat): nat {
    if IsComparison(op) then Rep(l)
    else if op == DivOp || op == ModOp then
      if q == R10 then Rep(l) else if q == R11 || r == 0 then Rep(r) else Rep(Remainder(t, l, r))
    else if q == RCX then Rep(r)
    else Rep(UnitValue(op, l, r))
  }

  lemma DivisionRuns(env: Env, op: BinOp, t: Ty, operand: Ty, m: Machine)
    requires (op == DivOp || op == ModOp) && Ok(m) && !m.stopped && Block(DivideCode(t))
    ensures Block(OperationCode(op, t, operand)) && Block(FinishDivision(op, t))
    ensures var m2 := Run(env, [MovReg(R11, RAX), MovReg(RAX, R10)], m);
            Run(env, OperationCode(op, t, operand), m) == Run(env, FinishDivision(op, t), Run(env, DivideCode(t), m2))
  {
    hide Run;
    var setup, tail := [MovReg(R11, RAX), MovReg(RAX, R10)], DivideCode(t) + FinishDivision(op, t);
    assert OperationCode(op, t, operand) == setup + tail;
    RunSetup(env, m);
    FinishBlock(op, t);
    hide DivideCode, FinishDivision;
    BlockAppend(DivideCode(t), FinishDivision(op, t));
    BlockAppend(setup, tail);
    RunAppend(env, setup, tail, m);
    RunAppend(env, DivideCode(t), FinishDivision(op, t), Run(env, setup, m));
  }

  lemma DivisionLeaves(env: Env, op: BinOp, t: Ty, operand: Ty, l: int, r: int, m: Machine, q: nat)
    requires (op == DivOp || op == ModOp) && OperandsRead(op, t, operand, l, r) && BinValue(op, t, l, r).Some?
    requires Ok(m) && !m.stopped && m.regs[R10] == Rep(l) && m.regs[RAX] == Rep(r)
    requires q in OpWrites(op) && q != RAX
    ensures Block(OperationCode(op, t, operand))
    ensures Run(env, OperationCode(op, t, operand), m).regs[q] == OperandLeft(op, t, l, r, q)
  {
    hide Run, Quotient, Remainder, Rep, BinValue, OperationCode, DivideCode, FinishDivision, Good, Contained;
    RunSetup(env, m);
    var m2 := Run(env, [MovReg(R11, RAX), MovReg(RAX, R10)], m);
    DivisionValue(op, t, l, r);
    RunDivide(env, t, l, r, m2);
    DivisionRuns(env, op, t, operand, m);
    RunFinishDivision(env, op, t, Quotient(t, l, r), Remainder(t, l, r), Run(env, DivideCode(t), m2));
  }

  lemma UnitLeaves(env: Env, op: BinOp, t: Ty, operand: Ty, l: int, r: int, m: Machine, q: nat)
    requires IsUnit(op) && Ok(m) && !m.stopped && m.regs[R10] == Rep(l) && m.regs[RAX] == Rep(r)
    requires q in OpWrites(op) && q != RAX
    ensures Block(OperationCode(op, t, operand))
    ensures Run(env, OperationCode(op, t, operand), m).regs[q] == OperandLeft(op, t, l, r, q)
  {
    hide Run, UnitValue, Rep;
    var n, finish := UnitValue(op, l, r), [MovReg(RAX, R10)] + NormalizeCode(t);
    UnitOperationCode(op, t, operand);
    RunUnit(env, op, l, r, n, m);
    if op == ShlOp || op == ShrOp {
      RunShift(env, op == ShlOp, m);
    }
    RunFinishUnit(env, t, n, Run(env, UnitCode(op), m));
    BlockAppend(UnitCode(op), finish);
    RunAppend(env, UnitCode(op), finish, m);
  }

  lemma OperationLeaves(env: Env, op: BinOp, t: Ty, operand: Ty, l: int, r: int, m: Machine, q: nat)
    requires OperandsRead(op, t, operand, l, r) && BinValue(op, t, l, r).Some?
    requires Ok(m) && !m.stopped && m.regs[R10] == Rep(l) && m.regs[RAX] == Rep(r) && q < REGS && q != RAX
    ensures Block(OperationCode(op, t, operand))
    ensures Run(env, OperationCode(op, t, operand), m).regs[q] == if q in OpWrites(op) then OperandLeft(op, t, l, r, q) else m.regs[q]
  {
    hide Run, BinValue, Rep, OperationCode, UnitValue, Remainder;
    RunOperation(env, op, t, operand, l, r, m);
    if q in OpWrites(op) {
      if IsComparison(op) {
        RunComparison(env, op, t, operand, l, r, m);
      } else if op == DivOp || op == ModOp {
        DivisionLeaves(env, op, t, operand, l, r, m, q);
      } else {
        UnitLeaves(env, op, t, operand, l, r, m, q);
      }
    }
  }

  // ----- Trees -----

  /** Register q at the call instruction when it held before while the arguments were stored. */
  function BoundTo(params: seq<Param>, values: seq<int>, i: nat, q: nat, before: nat): nat
    requires i <= |params|
    decreases |params| - i
  {
    if i == |params| then before
    else if params[i].direction == Out then BoundTo(params, values, i + 1, q, before)
    else if values == [] then before
    else
      BoundTo(params, values[1..], i + 1, q,
              if Bound(params[i]) && params[i].reg.family == q then Merge(before, params[i].reg, Rep(values[0])) % W else before)
  }

  /** Register q after the code of e when it held before; q is neither rax nor a frame register. */
  function Left(env: Env, e: Expr, snap: seq<nat>, vars: seq<nat>, live: Live, q: nat, before: nat): nat
    requires |snap| == REGS && |live.regs| == REGS
    decreases e, 0
  {
    match e
    case Unary(_, y, _) => Left(env, y, snap, vars, live, q, before)
    case Binary(op, l, r, t) =>
      (match Eval(env, l, snap, vars, live)
       case Fault(_) => before
       case Done(lv, live') =>
         match Eval(env, r, snap, vars, live')
         case Fault(_) => before
         case Done(rv, _) =>
           if q in OpWrites(op) then OperandLeft(op, t, lv, rv, q)
           else Left(env, r, snap, vars, live', q, Left(env, l, snap, vars, live, q, before)))
    case CallTo(f, args, _) =>
      if f >= |env.callees| then before
      else CallLeft(env, f, EvalAll(env, args, snap, vars, live), q, LeftAll(env, args, snap, vars, live, q, before))
    case _ => before
  }

  /** Register q after a call, when it held before while the arguments were stored. */
  function CallLeft(env: Env, f: nat, results: Results, q: nat, before: nat): nat
    requires f < |env.callees|
  {
    match results
    case Faults(_) => before
    case All(values, live) =>
      var callee := env.callees[f];
      AfterCall(callee, env.call(f, ArgumentWords(callee.params, values, 0), live.trace), q,
                BoundTo(callee.params, values, 0, q, before)) % W
  }

  function LeftAll(env: Env, es: seq<Expr>, snap: seq<nat>, vars: seq<nat>, live: Live, q: nat, before: nat): nat
    requires |snap| == REGS && |live.regs| == REGS
    decreases es, 0
  {
    if es == [] then before
    else match Eval(env, es[0], snap, vars, live)
      case Fault(_) => before
      case Done(_, live') => LeftAll(env, es[1..], snap, vars, live', q, Left(env, es[0], snap, vars, live, q, before))
  }

  /** A register that trees do not keep for themselves. */
  predicate Free(q: nat) {
    q < REGS && q != RAX && q != RSP && q != RBP
  }

  lemma NormalizeSpares(t: Ty, q: nat)
    requires q != RAX
    ensures AllSpare(NormalizeCode(t), q)
  {
  }

  lemma LeafLeaves(x: Context, e: Expr, m: Machine, s: nat, c: nat, q: nat)
    requires IsLeaf(e) && WellFormed(x, e) && Ok(m) && Free(q)
    ensures Block(Code(x.env.callees, x.lay, e, s, c)) && Run(x.env, Code(x.env.callees, x.lay, e, s, c), m).regs[q] == m.regs[q]
  {
    hide Run;
    CodeBlock(x, e, s, c);
    if e.Local? || e.Leaf? {
      NormalizeSpares(e.ty, q);
    }
    RunSpares(x.env, Code(x.env.callees, x.lay, e, s, c), m, q);
  }

  lemma UnaryLeaves(x: Context, op: UnOp, y: Expr, t: Ty, m: Machine, s: nat, c: nat, q: nat)
    requires WellFormed(x, y) && Ok(m) && Free(q)
    ensures Block(Code(x.env.callees, x.lay, y, s, c)) && Block(Code(x.env.callees, x.lay, Unary(op, y, t), s, c))
    ensures Run(x.env, Code(x.env.callees, x.lay, Unary(op, y, t), s, c), m).regs[q] ==
            Run(x.env, Code(x.env.callees, x.lay, y, s, c), m).regs[q]
  {
    hide Run, WellFormed;
    var code, tail := Code(x.env.callees, x.lay, y, s, c), UnaryCode(op, t);
    CodeBlock(x, y, s, c);
    UnaryBlock(op, t);
    NormalizeSpares(t, q);
    BlockAppend(code, tail);
    RunAppend(x.env, code, tail, m);
    RunSpares(x.env, tail, Run(x.env, code, m), q);
  }

  /** After both operands: the reload and the operation. */
  lemma TailLeaves(x: Context, op: BinOp, l: Expr, t: Ty, m: Machine, lv: int, rv: int, s: nat, q: nat)
    requires ContextOk(x) && Ok(m) && !m.stopped && m.regs[RBP] == x.rbp && m.regs[RAX] == Rep(rv) && Free(q)
    requires Read(m.mem, SpillAt(x, s)) == Value(Rep(lv)) && OperandsRead(op, t, TypeOf(l), lv, rv) && BinValue(op, t, lv, rv).Some?
    ensures Block(Tail(x, op, l, t, s))
    ensures Run(x.env, Tail(x, op, l, t, s), m).regs[q] ==
            if q in OpWrites(op) then OperandLeft(op, t, lv, rv, q) else m.regs[q]
  {
    hide Run, OperationCode, BinValue, InRange, OperandLeft, TypeOf, IsComparison;
    var load := Load(Register(R10, B64, false), RBP, x.lay.SpillSlot(s));
    ExecReload(x, m, lv, s);
    var m1 := Exec(x.env, load, m);
    OperationLeaves(x.env, op, t, TypeOf(l), lv, rv, m1, q);
    TailBlock(x, op, l, t, s);
    RunCons(x.env, load, OperationCode(op, t, TypeOf(l)), m);
  }

  lemma StoreSpares(env: Env, code: seq<Instr>, base: nat, at: int, m: Machine, q: nat)
    requires Ok(m) && Block(code) && base < REGS && q < REGS
    ensures Block(code + [Store(base, at, RAX)])
    ensures Run(env, code + [Store(base, at, RAX)], m).regs[q] == Run(env, code, m).regs[q]
  {
    hide Run;
    BlockAppend(code, [Store(base, at, RAX)]);
    RunAppend(env, code, [Store(base, at, RAX)], m);
    RunSpares(env, [Store(base, at, RAX)], Run(env, code, m), q);
  }

  lemma BinaryRuns(x: Context, op: BinOp, l: Expr, r: Expr, t: Ty, m: Machine, s: nat, c: nat)
    requires WellFormed(x, l) && WellFormed(x, r) && Ok(m)
    ensures var left, right := Code(x.env.callees, x.lay, l, s + 1, c), Code(x.env.callees, x.lay, r, s + 1, c);
            var stored, code := left + [Store(RBP, x.lay.SpillSlot(s), RAX)], Code(x.env.callees, x.lay, Binary(op, l, r, t), s, c);
            && Block(left) && Block(stored) && Block(right) && Block(Tail(x, op, l, t, s)) && Block(code)
            && Run(x.env, code, m) == Run(x.env, Tail(x, op, l, t, s), Run(x.env, right, Run(x.env, stored, m)))
  {
    hide Run, WellFormed, OperationCode, Good, Contained;
    var left, right := Code(x.env.callees, x.lay, l, s + 1, c), Code(x.env.callees, x.lay, r, s + 1, c);
    var stored, tail := left + [Store(RBP, x.lay.SpillSlot(s), RAX)], Tail(x, op, l, t, s);
    assert Code(x.env.callees, x.lay, Binary(op, l, r, t), s, c) == stored + (right + tail);
    CodeBlock(x, l, s + 1, c);
    CodeBlock(x, r, s + 1, c);
    TailBlock(x, op, l, t, s);
    hide Code, Tail;
    StoreSpares(x.env, left, RBP, x.lay.SpillSlot(s), m, 0);
    BlockAppend(right, tail);
    BlockAppend(stored, right + tail);
    RunAppend(x.env, stored, right + tail, m);
    RunAppend(x.env, right, tail, Run(x.env, stored, m));
  }

  /** From the spilled left operand to the end. */
  lemma RightLeaves(x: Context, op: BinOp, l: Expr, t: Ty, right: seq<Instr>, operand: Ty, m: Machine, lv: int, rv: int, live: Live,
                    s: nat, c: nat, q: nat)
    requires Ok(m) && s < x.lay.depth && Free(q) && BinValue(op, t, lv, rv).Some? && OperandTypes(op, t, TypeOf(l), operand)
    requires Read(m.mem, SpillAt(x, s)) == Value(Rep(lv)) && InRange(TypeOf(l), lv)
    requires Simulates(x, right, m, Done(rv, live), operand, s + 1, c)
    ensures Block(Tail(x, op, l, t, s))
    ensures Run(x.env, Tail(x, op, l, t, s), Run(x.env, right, m)).regs[q] ==
            if q in OpWrites(op) then OperandLeft(op, t, lv, rv, q) else Run(x.env, right, m).regs[q]
  {
    hide Run, OperationCode, BinValue, InRange, OperandLeft, Framed, Agrees, Tail, TypeOf, IsComparison, Rep, OpWrites;
    assert Fixed(x.lay, s + 1, c, x.rbp - SpillAt(x, s));
    TypesRead(op, t, TypeOf(l), operand, lv, rv);
    TailLeaves(x, op, l, t, Run(x.env, right, m), lv, rv, s, q);
  }

  lemma BinaryMeans(env: Env, op: BinOp, l: Expr, r: Expr, t: Ty, snap: seq<nat>, vars: seq<nat>, live: Live)
    returns (lv: int, live1: Live, rv: int, live2: Live)
    requires |snap| == REGS && |live.regs| == REGS && Eval(env, Binary(op, l, r, t), snap, vars, live).Done?
    ensures Eval(env, l, snap, vars, live) == Done(lv, live1) && |live1.regs| == REGS
    ensures Eval(env, r, snap, vars, live1) == Done(rv, live2) && BinValue(op, t, lv, rv).Some?
  {
    lv, live1 := Eval(env, l, snap, vars, live).value, Eval(env, l, snap, vars, live).live;
    rv, live2 := Eval(env, r, snap, vars, live1).value, Eval(env, r, snap, vars, live1).live;
  }

  lemma {:induction false} BinaryLeaves(x: Context, op: BinOp, l: Expr, r: Expr, t: Ty, dirt: set<Part>, m: Machine, live: Live,
                                        s: nat, c: nat, q: nat)
    requires WellFormed(x, Binary(op, l, r, t)) && Fits(x, Binary(op, l, r, t), s, c) && Running(Dirty(x, dirt), m, live) && Free(q)
    requires Clean(x.env.callees, Binary(op, l, r, t), dirt) && dirt + Writes(x.env.callees, Binary(op, l, r, t)) <= x.dirt
    requires |x.snap| == REGS && |live.regs| == REGS && Ok(m) && Eval(x.env, Binary(op, l, r, t), x.snap, x.vars, live).Done?
    ensures Block(Code(x.env.callees, x.lay, Binary(op, l, r, t), s, c))
    ensures Run(x.env, Code(x.env.callees, x.lay, Binary(op, l, r, t), s, c), m).regs[q] ==
            Left(x.env, Binary(op, l, r, t), x.snap, x.vars, live, q, m.regs[q])
    decreases Binary(op, l, r, t), 0
  {
    hide Running, Kept, Run, Code, Fits, WellFormed, Writes, Clean, OpParts, Eval, Spilled, OperandLeft, BinValue, Tail, Simulates, Ok, Rep,
         TypeOf, IsComparison, InRange, Agrees;
    var more := dirt + Writes(x.env.callees, l);
    var xl := Dirty(x, more);
    var left := Code(x.env.callees, x.lay, l, s + 1, c);
    BinaryFits(x, op, l, r, t, s, c);
    BinaryDirt(x.env.callees, op, l, r, t, dirt);
    SameTrees(x, xl, l);
    SameFit(x, xl, l, s + 1, c);
    CodeSimulates(xl, l, dirt, m, live, s + 1, c);
    var lv, live1, rv, live2 := BinaryMeans(x.env, op, l, r, t, x.snap, x.vars, live);
    DoneFacts(xl, left, m, lv, live1, TypeOf(l), s + 1, c);
    SpilledRuns(xl, left, m, lv, live1, TypeOf(l), s, c);
    var m1 := Run(x.env, left + [Store(RBP, x.lay.SpillSlot(s), RAX)], m);
    SpilledMore(xl, x, m, m1, lv, live1, s, c);
    SpilledValue(x, m, m1, lv, live1, s, c);
    CodeSimulates(x, r, more, m1, live1, s + 1, c);
    RightLeaves(x, op, l, t, Code(x.env.callees, x.lay, r, s + 1, c), TypeOf(r), m1, lv, rv, live2, s, c, q);
    BinaryRuns(x, op, l, r, t, m, s, c);
    StoreSpares(x.env, left, RBP, x.lay.SpillSlot(s), m, q);
    CodeLeaves(xl, l, dirt, m, live, s + 1, c, q);
    CodeLeaves(x, r, more, m1, live1, s + 1, c, q);
  }

  lemma SpilledValue(x: Context, m: Machine, m1: Machine, v: int, live: Live, s: nat, c: nat)
    requires Spilled(x, m, m1, v, live, s, c)
    ensures Read(m1.mem, SpillAt(x, s)) == Value(Rep(v))
  {
  }

  // ----- Calls -----

  lemma {:induction false} StackSpares(lay: Layout, params: seq<Param>, i: nat, c: nat, q: nat)
    requires i <= |params| && q != RAX
    ensures AllSpare(StackCode(lay, params, i, c), q)
    decreases |params| - i
  {
    if i < |params| {
      StackSpares(lay, params, i + 1, c, q);
      SpareBoth(if params[i].onStack && i >= 4 then CopyCode(lay, i, c) else [], StackCode(lay, params, i + 1, c), q);
    }
  }

  lemma {:induction false} CaptureSpares(lay: Layout, f: Callee, r: nat, q: nat)
    requires r <= REGS && q != RSP
    ensures AllSpare(CaptureCode(lay, f, r), q)
    decreases REGS - r
  {
    if r < REGS {
      CaptureSpares(lay, f, r + 1, q);
      CaptureUnfolds(lay, f, r);
      SpareBoth(if Changes(f, r) && r != RSP && r != RBP then [CaptureOne(lay, r)] else [], CaptureCode(lay, f, r + 1), q);
    }
  }

  lemma ExecBindLeaves(x: Context, p: Param, i: nat, c: nat, m: Machine, q: nat)
    requires Ok(m) && m.regs[RBP] == x.rbp && p.reg.family < REGS && q < REGS
    ensures var load := Load(p.reg, RBP, x.lay.CallSlot(c, i));
            Exec(x.env, load, m).regs[q] ==
            if p.reg.family == q then Merge(m.regs[q], p.reg, Number(Read(m.mem, CallAt(x, c, i)))) % W else m.regs[q]
  {
  }

  lemma BoundStep(params: seq<Param>, values: seq<int>, i: nat, q: nat, before: nat)
    requires i < |params|
    ensures params[i].direction == Out ==> BoundTo(params, values, i, q, before) == BoundTo(params, values, i + 1, q, before)
    ensures params[i].direction != Out && values != [] ==>
              BoundTo(params, values, i, q, before) ==
              BoundTo(params, values[1..], i + 1, q,
                      if Bound(params[i]) && params[i].reg.family == q then Merge(before, params[i].reg, Rep(values[0])) % W else before)
  {
    hide Merge, Rep;
  }

  lemma StoredFirst(x: Context, mem: Memory, params: seq<Param>, values: seq<int>, i: nat, c: nat)
    requires i < |params| && Stored(x, mem, params, values, i, c)
    ensures params[i].direction == Out ==> Stored(x, mem, params, values, i + 1, c)
    ensures params[i].direction != Out ==> values != [] && Number(Read(mem, CallAt(x, c, i))) == Rep(values[0]) &&
                                           Stored(x, mem, params, values[1..], i + 1, c)
  {
  }

  lemma {:induction false} BindLeaves(x: Context, f: Callee, i: nat, c: nat, m: Machine, live: Live, values: seq<int>, q: nat)
    requires Running(x, m, live) && ParamsOk(x, f) && i <= |f.params| && BindParts(f.params) <= x.dirt && q < REGS
    requires Stored(x, m.mem, f.params, values, i, c) && Ok(m)
    ensures Block(BindCode(x.lay, f.params, i, c))
    ensures Run(x.env, BindCode(x.lay, f.params, i, c), m).regs[q] == BoundTo(f.params, values, i, q, m.regs[q])
    decreases |f.params| - i
  {
    hide ParamsOk, Exec, FieldParts, Framed, Agrees, ContextOk, BoundTo, Stored, Merge, Rep, Field, Read, Number;
    BindBlock(x, f, i, c);
    if i < |f.params| {
      var p, rest := f.params[i], BindCode(x.lay, f.params, i + 1, c);
      BoundStep(f.params, values, i, q, m.regs[q]);
      StoredFirst(x, m.mem, f.params, values, i, c);
      if Bound(p) {
        var load := Load(p.reg, RBP, x.lay.CallSlot(c, i));
        BindPartsOf(f.params, i);
        ExecBind(x, f, i, c, m, live);
        ExecBindLeaves(x, p, i, c, m, q);
        BindLeaves(x, f, i + 1, c, Exec(x.env, load, m), live, values[1..], q);
        RunCons(x.env, load, rest, m);
      } else {
        BindLeaves(x, f, i + 1, c, m, live, if p.direction == Out then values else values[1..], q);
        assert BindCode(x.lay, f.params, i, c) == rest;
      }
    } else {
      BoundNone(f.params, values, q, m.regs[q]);
    }
  }

  lemma BoundNone(params: seq<Param>, values: seq<int>, q: nat, before: nat)
    ensures BoundTo(params, values, |params|, q, before) == before
  {
  }

  lemma {:induction false} StoredThere(x: Context, mem: Memory, mem': Memory, params: seq<Param>, values: seq<int>, i: nat, c: nat)
    requires i <= |params| && Stored(x, mem, params, values, i, c)
    requires forall j :: 0 <= j < |params| ==> Read(mem', CallAt(x, c, j)) == Read(mem, CallAt(x, c, j))
    ensures Stored(x, mem', params, values, i, c)
    decreases |params| - i
  {
    if i < |params| {
      StoredThere(x, mem, mem', params, if params[i].direction == Out then values else values[1..], i + 1, c);
    }
  }

  lemma AtCallLeaves(x: Context, f: Callee, m: Machine, live: Live, values: seq<int>, c: nat, q: nat)
    requires Running(x, m, live) && CalleeOk(x, f) && c < x.lay.calls && Free(q)
    requires Stored(x, m.mem, f.params, values, 0, c) && BindParts(f.params) <= x.dirt && Ok(m)
    requires Good(StackCode(x.lay, f.params, 0, c)) && Good(BindCode(x.lay, f.params, 0, c))
    ensures AtCall(x, f, m, c).regs[q] == BoundTo(f.params, values, 0, q, m.regs[q])
  {
    hide Run, BoundTo, BindCode, StackCode, ContextOk;
    RunStackCode(x, f, 0, c, m, live);
    var m1 := Run(x.env, StackCode(x.lay, f.params, 0, c), m);
    StackSpares(x.lay, f.params, 0, c, q);
    RunSpares(x.env, StackCode(x.lay, f.params, 0, c), m, q);
    RunningFacts(x, m, live);
    SlotsStillThere(x, f, m.mem, m1.mem, c);
    StoredThere(x, m.mem, m1.mem, f.params, values, 0, c);
    BindLeaves(x, f, 0, c, m1, live, values, q);
  }

  lemma DoCallLeaves(x: Context, g: nat, m: Machine, live: Live, values: seq<int>, q: nat)
    requires g < |x.env.callees| && Ok(m) && Free(q) && m.trace == live.trace
    requires Passed(m, x.env.callees[g].params, 0) == ArgumentWords(x.env.callees[g].params, values, 0)
    ensures var f := x.env.callees[g];
            DoCall(x.env, m, g).regs[q] ==
            AfterCall(f, x.env.call(g, ArgumentWords(f.params, values, 0), live.trace), q, m.regs[q]) % W
  {
    hide AfterCall, Passed, ArgumentWords, Overwrite;
  }

  /** The code after the arguments leaves q as the callee and the bound arguments have it. */
  lemma CallCodeLeaves(x: Context, g: nat, t: Ty, m: Machine, live: Live, values: seq<int>, c: nat, q: nat)
    requires g < |x.env.callees| && Running(x, m, live) && CalleeOk(x, x.env.callees[g]) && c < x.lay.calls && Free(q)
    requires Stored(x, m.mem, x.env.callees[g].params, values, 0, c) && BindParts(x.env.callees[g].params) <= x.dirt && Ok(m)
    ensures Block(CallCode(x.env.callees[g], x.lay, g, t, c))
    ensures Run(x.env, CallCode(x.env.callees[g], x.lay, g, t, c), m).regs[q] == CallLeft(x.env, g, All(values, live), q, m.regs[q])
  {
    hide Run, BoundTo, BindCode, StackCode, CaptureCode, NormalizeCode, AfterCall, ContextOk, Framed, Agrees, Stored, CalleeOk,
         DoCall, Passed, ArgumentWords;
    var f := x.env.callees[g];
    var stack, bind := StackCode(x.lay, f.params, 0, c), BindCode(x.lay, f.params, 0, c);
    var end := CaptureCode(x.lay, f, 0) + NormalizeCode(t);
    CallReady(x, f, m, live, values, c);
    var m2 := AtCall(x, f, m, c);
    AtCallLeaves(x, f, m, live, values, c, q);
    DoCallLeaves(x, g, m2, live, values, q);
    CaptureBlock(x.lay, f, 0);
    NormalizeBlock(t);
    CaptureSpares(x.lay, f, 0, q);
    NormalizeSpares(t, q);
    SpareBoth(CaptureCode(x.lay, f, 0), NormalizeCode(t), q);
    BlockAppend(CaptureCode(x.lay, f, 0), NormalizeCode(t));
    BlockAppend([Instr.Call(g)], end);
    BlockAppend(bind, [Instr.Call(g)] + end);
    BlockAppend(stack, bind + ([Instr.Call(g)] + end));
    RunAppend(x.env, stack, bind + ([Instr.Call(g)] + end), m);
    RunAppend(x.env, bind, [Instr.Call(g)] + end, Run(x.env, stack, m));
    RunCons(x.env, Instr.Call(g), end, m2);
    RunSpares(x.env, end, DoCall(x.env, m2, g), q);
  }

  lemma CallMeans(env: Env, f: nat, args: seq<Expr>, t: Ty, snap: seq<nat>, vars: seq<nat>, live: Live)
    requires |snap| == REGS && |live.regs| == REGS && f < |env.callees|
    ensures Eval(env, CallTo(f, args, t), snap, vars, live).Done? <==> EvalAll(env, args, snap, vars, live).All?
    ensures forall q, before :: Left(env, CallTo(f, args, t), snap, vars, live, q, before) ==
              CallLeft(env, f, EvalAll(env, args, snap, vars, live), q, LeftAll(env, args, snap, vars, live, q, before))
  {
  }

  lemma {:induction false} CallLeaves(x: Context, f: nat, args: seq<Expr>, t: Ty, dirt: set<Part>, m: Machine, live: Live,
                                      s: nat, c: nat, q: nat)
    requires WellFormed(x, CallTo(f, args, t)) && Fits(x, CallTo(f, args, t), s, c) && Running(Dirty(x, dirt), m, live) && Free(q)
    requires Clean(x.env.callees, CallTo(f, args, t), dirt) && dirt + Writes(x.env.callees, CallTo(f, args, t)) <= x.dirt
    requires |x.snap| == REGS && |live.regs| == REGS && Ok(m) && Eval(x.env, CallTo(f, args, t), x.snap, x.vars, live).Done?
    ensures Block(Code(x.env.callees, x.lay, CallTo(f, args, t), s, c))
    ensures Run(x.env, Code(x.env.callees, x.lay, CallTo(f, args, t), s, c), m).regs[q] ==
            Left(x.env, CallTo(f, args, t), x.snap, x.vars, live, q, m.regs[q])
    decreases CallTo(f, args, t), 0
  {
    hide Eval, EvalAll, WritesAll, WellFormedAll, FitsAll, CleanAll, Run, Running, Left, LeftAll, CallLeft, ArgumentCode, CallCode, Stored;
    var params := x.env.callees[f].params;
    CallFits(x, f, args, t, s, c);
    CallMeans(x.env, f, args, t, x.snap, x.vars, live);
    ArgumentsSimulate(x, params, args, dirt, m, live, 0, s, c);
    var code, call := ArgumentCode(x.env.callees, x.lay, params, args, 0, s, c), CallCode(x.env.callees[f], x.lay, f, t, c);
    var results := EvalAll(x.env, args, x.snap, x.vars, live);
    ArgumentsLeave(x, params, args, dirt, m, live, 0, s, c, q);
    CallCodeLeaves(x, f, t, Run(x.env, code, m), results.live, results.values, c, q);
    BlockAppend(code, call);
    RunAppend(x.env, code, call, m);
  }

  lemma AllMeans(env: Env, es: seq<Expr>, snap: seq<nat>, vars: seq<nat>, live: Live) returns (v: int, live1: Live)
    requires |snap| == REGS && |live.regs| == REGS && es != [] && EvalAll(env, es, snap, vars, live).All?
    ensures Eval(env, es[0], snap, vars, live) == Done(v, live1) && |live1.regs| == REGS && EvalAll(env, es[1..], snap, vars, live1).All?
    ensures forall q, before :: LeftAll(env, es, snap, vars, live, q, before) ==
              LeftAll(env, es[1..], snap, vars, live1, q, Left(env, es[0], snap, vars, live, q, before))
  {
    v, live1 := Eval(env, es[0], snap, vars, live).value, Eval(env, es[0], snap, vars, live).live;
  }

  lemma ArgumentPieces(x: Context, params: seq<Param>, args: seq<Expr>, m: Machine, i: nat, s: nat, c: nat, q: nat)
    requires i < |params| && params[i].direction != Out && WellFormedAll(x, params, args, i) && args != [] && Ok(m) && Free(q)
    ensures var code := Code(x.env.callees, x.lay, args[0], s, c + 1);
            var stored := code + [Store(RBP, x.lay.CallSlot(c, i), RAX)];
            var rest := ArgumentCode(x.env.callees, x.lay, params, args[1..], i + 1, s, c);
            var all := ArgumentCode(x.env.callees, x.lay, params, args, i, s, c);
            && Block(code) && Block(stored) && Block(rest) && Block(all)
            && Run(x.env, stored, m).regs[q] == Run(x.env, code, m).regs[q]
            && Run(x.env, all, m) == Run(x.env, rest, Run(x.env, stored, m))
  {
    hide Run, Code, WellFormed;
    var code := Code(x.env.callees, x.lay, args[0], s, c + 1);
    var stored := code + [Store(RBP, x.lay.CallSlot(c, i), RAX)];
    var rest := ArgumentCode(x.env.callees, x.lay, params, args[1..], i + 1, s, c);
    CodeBlock(x, args[0], s, c + 1);
    ArgumentBlock(x, params, args[1..], i + 1, s, c);
    StoreSpares(x.env, code, RBP, x.lay.CallSlot(c, i), m, q);
    BlockAppend(stored, rest);
    RunAppend(x.env, stored, rest, m);
  }

  lemma {:induction false} ArgumentsLeave(x: Context, params: seq<Param>, args: seq<Expr>, dirt: set<Part>, m: Machine, live: Live,
                                          i: nat, s: nat, c: nat, q: nat)
    requires i <= |params| <= x.lay.perCall && WellFormedAll(x, params, args, i) && c < x.lay.calls && s <= x.lay.depth
    requires FitsAll(x, args, s, c + 1) && Running(Dirty(x, dirt), m, live) && Free(q)
    requires CleanAll(x.env.callees, args, dirt) && dirt + WritesAll(x.env.callees, args) <= x.dirt
    requires |x.snap| == REGS && |live.regs| == REGS && Ok(m) && EvalAll(x.env, args, x.snap, x.vars, live).All?
    ensures Block(ArgumentCode(x.env.callees, x.lay, params, args, i, s, c))
    ensures Run(x.env, ArgumentCode(x.env.callees, x.lay, params, args, i, s, c), m).regs[q] ==
            LeftAll(x.env, args, x.snap, x.vars, live, q, m.regs[q])
    decreases args, |params| - i
  {
    if i == |params| {
    } else if params[i].direction == Out {
      ArgumentsLeave(x, params, args, dirt, m, live, i + 1, s, c, q);
    } else {
      ArgumentsFit(x, params, args, i, s, c + 1);
      FirstLeaves(x, params, args, dirt, m, live, i, s, c, q);
    }
  }

  lemma {:induction false} FirstLeaves(x: Context, params: seq<Param>, args: seq<Expr>, dirt: set<Part>, m: Machine, live: Live,
                                       i: nat, s: nat, c: nat, q: nat)
    requires i < |params| <= x.lay.perCall && params[i].direction != Out && WellFormedAll(x, params, args, i) && args != []
    requires WellFormed(x, args[0]) && Fits(x, args[0], s, c + 1) && c < x.lay.calls && s <= x.lay.depth
    requires WellFormedAll(x, params, args[1..], i + 1) && FitsAll(x, args[1..], s, c + 1) && Running(Dirty(x, dirt), m, live) && Free(q)
    requires CleanAll(x.env.callees, args, dirt) && dirt + WritesAll(x.env.callees, args) <= x.dirt
    requires |x.snap| == REGS && |live.regs| == REGS && Ok(m) && EvalAll(x.env, args, x.snap, x.vars, live).All?
    ensures Block(ArgumentCode(x.env.callees, x.lay, params, args, i, s, c))
    ensures Run(x.env, ArgumentCode(x.env.callees, x.lay, params, args, i, s, c), m).regs[q] ==
            LeftAll(x.env, args, x.snap, x.vars, live, q, m.regs[q])
    decreases args, 0
  {
    hide WellFormed, ArgumentCode, EvalAll, Writes, Eval, Clean, Simulates, Code, Run, Left, LeftAll, Fits, FitsAll, Running, WellFormedAll,
         SimulatesAll;
    var more := dirt + Writes(x.env.callees, args[0]);
    var xf := Dirty(x, more);
    SameTrees(x, xf, args[0]);
    SameArguments(x, xf, params, args, i);
    SameFit(x, xf, args[0], s, c + 1);
    RunningMore(Dirty(x, dirt), xf, m, live);
    var v, live1 := AllMeans(x.env, args, x.snap, x.vars, live);
    CodeSimulates(xf, args[0], dirt, m, live, s, c + 1);
    var m1 := FirstArgument(xf, params, args, m, live, i, s, c);
    CodeLeaves(xf, args[0], dirt, m, live, s, c + 1, q);
    ArgumentPieces(x, params, args, m, i, s, c, q);
    ArgumentsLeave(x, params, args[1..], more, m1, live1, i + 1, s, c, q);
  }

  /** From any state inside an expression the code of e leaves in every register that it does not
      keep exactly what Left says, whatever operations and calls it is made of. */
  lemma {:induction false} CodeLeaves(x: Context, e: Expr, dirt: set<Part>, m: Machine, live: Live, s: nat, c: nat, q: nat)
    requires WellFormed(x, e) && Fits(x, e, s, c) && Running(Dirty(x, dirt), m, live) && Free(q)
    requires Clean(x.env.callees, e, dirt) && dirt + Writes(x.env.callees, e) <= x.dirt
    requires |x.snap| == REGS && |live.regs| == REGS && Ok(m) && Eval(x.env, e, x.snap, x.vars, live).Done?
    ensures Block(Code(x.env.callees, x.lay, e, s, c))
    ensures Run(x.env, Code(x.env.callees, x.lay, e, s, c), m).regs[q] == Left(x.env, e, x.snap, x.vars, live, q, m.regs[q])
    decreases e, 1
  {
    hide Run, Code, OperandLeft, Running;
    match e
    case Unary(op, y, t) =>
      UnaryFits(x, op, y, t, s, c);
      CodeLeaves(x, y, dirt, m, live, s, c, q);
      UnaryLeaves(x, op, y, t, m, s, c, q);
    case Binary(op, l, r, t) => BinaryLeaves(x, op, l, r, t, dirt, m, live, s, c, q);
    case CallTo(f, args, t) => CallLeaves(x, f, args, t, dirt, m, live, s, c, q);
    case _ => LeafLeaves(x, e, m, s, c, q);
  }
}
