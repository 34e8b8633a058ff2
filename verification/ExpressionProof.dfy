/** The simulation theorem for whole expressions and for let statements. */
module ExpressionProof {
  import opened Words
  import opened X86
  import opened Codegen
  import opened Operations
  import opened Simulation
  import opened Calls

  /** The nesting levels still available cover the tree. */
  predicate Fits(x: Context, e: Expr, s: nat, c: nat) {
    s + Spills(e) <= x.lay.depth && c + CallDepth(e) <= x.lay.calls
  }

  predicate FitsAll(x: Context, es: seq<Expr>, s: nat, c: nat) {
    s + SpillsAll(es) <= x.lay.depth && c + CallDepthAll(es) <= x.lay.calls
  }

  /** The second part of a binary operation, once the left operand has been spilled. */
  lemma AfterLeft(x: Context, first: seq<Instr>, rest: seq<Instr>, m: Machine, live: Live, result: Result, t: Ty, s: nat, c: nat)
    requires Ok(m) && Block(first)
    requires var m1 := Run(x.env, first, m);
             Running(x, m1, live) && Kept(x, m.mem, m1.mem, s, c) && Simulates(x, rest, m1, result, t, s, c)
    ensures Simulates(x, first + rest, m, result, t, s, c)
  {
    var m1 := Run(x.env, first, m);
    BlockAppend(first, rest);
    RunAppend(x.env, first, rest, m);
    if result.Done? {
      KeptTrans(x, m.mem, m1.mem, Run(x.env, rest, m1).mem, s, c);
    }
  }

  lemma DivisionBlock(op: BinOp, t: Ty, operand: Ty)
    requires op == DivOp || op == ModOp
    ensures Block(OperationCode(op, t, operand))
  {
    hide Block;
    var setup, tail := [MovReg(R11, RAX), MovReg(RAX, R10)], DivideCode(t) + FinishDivision(op, t);
    FinishBlock(op, t);
    BlockAppend(DivideCode(t), FinishDivision(op, t));
    BlockAppend(setup, tail);
    assert OperationCode(op, t, operand) == setup + tail;
  }

  lemma UnitBlock(op: BinOp, t: Ty, operand: Ty)
    requires IsUnit(op)
    ensures Block(OperationCode(op, t, operand))
  {
    NormalizeBlock(t);
    UnitOperationCode(op, t, operand);
    BlockCons(MovReg(RAX, R10), NormalizeCode(t));
    BlockAppend(UnitCode(op), [MovReg(RAX, R10)] + NormalizeCode(t));
  }

  lemma OperationBlock(op: BinOp, t: Ty, operand: Ty)
    ensures Block(OperationCode(op, t, operand))
  {
    if op == DivOp || op == ModOp {
      DivisionBlock(op, t, operand);
    } else if IsUnit(op) {
      UnitBlock(op, t, operand);
    }
  }

  lemma BlockCons(i: Instr, rest: seq<Instr>)
    requires GoodInstr(i) && !i.Jcc? && !i.Jmp? && Block(rest)
    ensures Block([i] + rest)
  {
    BlockAppend([i], rest);
  }

  lemma BlockThree(first: seq<Instr>, i: Instr, rest: seq<Instr>)
    requires Block(first) && GoodInstr(i) && !i.Jcc? && !i.Jmp? && Block(rest)
    ensures Block(first + [i] + rest)
  {
    BlockAppend(first, [i]);
    BlockAppend(first + [i], rest);
  }

  lemma {:induction false} CodeBlock(x: Context, e: Expr, s: nat, c: nat)
    requires WellFormed(x, e)
    ensures Block(Code(x.env.callees, x.lay, e, s, c))
    decreases e, 1
  {
    match e
    case Const(_, _) =>
    case AddressOf(_, _) =>
    case Local(k, t) =>
      NormalizeBlock(t);
      BlockCons(Load(Register(RAX, ScalarWidth(t), false), RBP, x.lay.LocalSlot(k)), NormalizeCode(t));
    case Leaf(reg, t) =>
      NormalizeBlock(t);
      BlockCons(LeafCode(x.lay, reg, t)[0], NormalizeCode(t));
    case Unary(op, y, t) =>
      CodeBlock(x, y, s, c);
      UnaryBlock(op, t);
      BlockAppend(Code(x.env.callees, x.lay, y, s, c), UnaryCode(op, t));
    case Binary(op, l, r, t) => BinaryBlock(x, op, l, r, t, s, c);
    case CallTo(f, args, t) =>
      ArgumentBlock(x, x.env.callees[f].params, args, 0, s, c);
      CallBlock(x, x.env.callees[f], f, t, c);
      BlockAppend(ArgumentCode(x.env.callees, x.lay, x.env.callees[f].params, args, 0, s, c),
                  CallCode(x.env.callees[f], x.lay, f, t, c));
  }

  lemma {:induction false} BinaryBlock(x: Context, op: BinOp, l: Expr, r: Expr, t: Ty, s: nat, c: nat)
    requires WellFormed(x, Binary(op, l, r, t))
    ensures Block(Code(x.env.callees, x.lay, Binary(op, l, r, t), s, c))
    decreases Binary(op, l, r, t), 0
  {
    var left, right := Code(x.env.callees, x.lay, l, s + 1, c), Code(x.env.callees, x.lay, r, s + 1, c);
    CodeBlock(x, l, s + 1, c);
    CodeBlock(x, r, s + 1, c);
    TailBlock(x, op, l, t, s);
    BlockAppend(right, Tail(x, op, l, t, s));
    BlockThree(left, Store(RBP, x.lay.SpillSlot(s), RAX), right + Tail(x, op, l, t, s));
  }

  lemma {:induction false} ArgumentBlock(x: Context, params: seq<Param>, args: seq<Expr>, i: nat, s: nat, c: nat)
    requires i <= |params| && WellFormedAll(x, params, args, i)
    ensures Block(ArgumentCode(x.env.callees, x.lay, params, args, i, s, c))
    decreases args, |params| - i
  {
    if i == |params| {
    } else if params[i].direction == Out {
      ArgumentBlock(x, params, args, i + 1, s, c);
    } else {
      CodeBlock(x, args[0], s, c + 1);
      ArgumentBlock(x, params, args[1..], i + 1, s, c);
      BlockThree(Code(x.env.callees, x.lay, args[0], s, c + 1), Store(RBP, x.lay.CallSlot(c, i), RAX),
                 ArgumentCode(x.env.callees, x.lay, params, args[1..], i + 1, s, c));
    }
  }

  lemma CallBlock(x: Context, f: Callee, g: nat, t: Ty, c: nat)
    requires CalleeOk(x, f)
    ensures Block(CallCode(f, x.lay, g, t, c))
  {
    StackBlock(x, f, 0, c);
    BindBlock(x, f, 0, c);
    CaptureBlock(x.lay, f, 0);
    NormalizeBlock(t);
    var tail := CaptureCode(x.lay, f, 0) + NormalizeCode(t);
    BlockAppend(CaptureCode(x.lay, f, 0), NormalizeCode(t));
    BlockAppend([Instr.Call(g)], tail);
    BlockAppend(BindCode(x.lay, f.params, 0, c), [Instr.Call(g)] + tail);
    BlockAppend(StackCode(x.lay, f.params, 0, c), BindCode(x.lay, f.params, 0, c) + ([Instr.Call(g)] + tail));
  }

  lemma {:induction false} StackBlock(x: Context, f: Callee, i: nat, c: nat)
    requires i <= |f.params|
    ensures Block(StackCode(x.lay, f.params, i, c))
    decreases |f.params| - i
  {
    if i < |f.params| {
      StackBlock(x, f, i + 1, c);
      BlockAppend(if f.params[i].onStack && i >= 4 then CopyCode(x.lay, i, c) else [], StackCode(x.lay, f.params, i + 1, c));
    }
  }

  lemma {:induction false} BindBlock(x: Context, f: Callee, i: nat, c: nat)
    requires i <= |f.params| && ParamsOk(x, f)
    ensures Block(BindCode(x.lay, f.params, i, c))
    decreases |f.params| - i
  {
    if i < |f.params| {
      assert ParamOk(x, f, i);
      BindBlock(x, f, i + 1, c);
      BlockAppend(if Bound(f.params[i]) then [Load(f.params[i].reg, RBP, x.lay.CallSlot(c, i))] else [],
                  BindCode(x.lay, f.params, i + 1, c));
    }
  }

  lemma {:induction false} CaptureBlock(lay: Layout, f: Callee, r: nat)
    requires r <= REGS
    ensures Block(CaptureCode(lay, f, r))
    decreases REGS - r
  {
    if r < REGS {
      CaptureBlock(lay, f, r + 1);
      CaptureUnfolds(lay, f, r);
      BlockAppend(if Changes(f, r) && r != RSP && r != RBP then [CaptureOne(lay, r)] else [], CaptureCode(lay, f, r + 1));
    }
  }

  // ----- The theorem -----

  predicate IsLeaf(e: Expr) {
    e.Const? || e.AddressOf? || e.Local? || e.Leaf?
  }

  lemma SimulateIfLeaf(x: Context, e: Expr, m: Machine, live: Live, s: nat, c: nat)
    requires IsLeaf(e) && WellFormed(x, e) && Running(x, m, live)
    ensures Simulates(x, Code(x.env.callees, x.lay, e, s, c), m, Eval(x.env, e, x.snap, x.vars, live), TypeOf(e), s, c)
  {
    match e
    case Const(v, t) => SimulateConst(x, v, t, m, live, s, c);
    case AddressOf(symbol, a) => SimulateAddress(x, symbol, a, m, live, s, c);
    case Local(k, t) => SimulateLocal(x, k, t, m, live, s, c);
    case Leaf(reg, t) => SimulateLeaf(x, reg, t, m, live, s, c);
  }

  lemma UnaryFits(x: Context, op: UnOp, y: Expr, t: Ty, s: nat, c: nat)
    requires WellFormed(x, Unary(op, y, t)) && Fits(x, Unary(op, y, t), s, c)
    ensures WellFormed(x, y) && Fits(x, y, s, c) && (op == PosOp ==> Retypes(TypeOf(y), t))
  {
  }

  lemma BinaryFits(x: Context, op: BinOp, l: Expr, r: Expr, t: Ty, s: nat, c: nat)
    requires WellFormed(x, Binary(op, l, r, t)) && Fits(x, Binary(op, l, r, t), s, c)
    ensures WellFormed(x, l) && WellFormed(x, r) && Fits(x, l, s + 1, c) && Fits(x, r, s + 1, c) && s < x.lay.depth
    ensures OperandTypes(op, t, TypeOf(l), TypeOf(r))
  {
  }

  lemma CallFits(x: Context, f: nat, args: seq<Expr>, t: Ty, s: nat, c: nat)
    requires WellFormed(x, CallTo(f, args, t)) && Fits(x, CallTo(f, args, t), s, c)
    ensures f < |x.env.callees| && CalleeOk(x, x.env.callees[f]) && WellFormedAll(x, x.env.callees[f].params, args, 0)
    ensures FitsAll(x, args, s, c + 1) && c < x.lay.calls && s <= x.lay.depth
  {
  }

  lemma SpilledRuns(x: Context, code: seq<Instr>, m: Machine, v: int, live: Live, t: Ty, s: nat, c: nat)
    requires Ok(m) && Simulates(x, code, m, Done(v, live), t, s + 1, c) && s < x.lay.depth
    ensures Block(code + [Store(RBP, x.lay.SpillSlot(s), RAX)]) && InRange(t, v)
    ensures Spilled(x, m, Run(x.env, code + [Store(RBP, x.lay.SpillSlot(s), RAX)], m), v, live, s, c)
  {
    SimulateStored(x, code, m, v, live, t, s, c);
  }

  /** From m to m1 a left operand was computed and saved in its spill slot. */
  ghost predicate Spilled(x: Context, m: Machine, m1: Machine, v: int, live: Live, s: nat, c: nat) {
    Running(x, m1, live) && Kept(x, m.mem, m1.mem, s, c) && Read(m1.mem, SpillAt(x, s)) == Value(Rep(v))
  }

  /** The context with these pieces written. */
  function Dirty(x: Context, dirt: set<Part>): Context {
    x.(dirt := dirt)
  }

  /** From any state inside an expression, with the pieces in dirt written before, the code for e
      computes its source value into rax, or traps exactly when the source does and after the same
      calls; x allows for what the code itself writes. */
  lemma {:induction false} CodeSimulates(x: Context, e: Expr, dirt: set<Part>, m: Machine, live: Live, s: nat, c: nat)
    requires WellFormed(x, e) && Fits(x, e, s, c) && Running(Dirty(x, dirt), m, live)
    requires Clean(x.env.callees, e, dirt) && dirt + Writes(x.env.callees, e) <= x.dirt
    ensures Simulates(x, Code(x.env.callees, x.lay, e, s, c), m, Eval(x.env, e, x.snap, x.vars, live), TypeOf(e), s, c)
    decreases e, 2
  {
    RunningMore(Dirty(x, dirt), x, m, live);
    match e
    case Unary(op, y, t) =>
      UnaryFits(x, op, y, t, s, c);
      CodeSimulates(x, y, dirt, m, live, s, c);
      SimulateUnary(x, op, y, t, m, live, s, c);
    case Binary(op, l, r, t) => SimulateBinary(x, op, l, r, t, dirt, m, live, s, c);
    case CallTo(f, args, t) => SimulateCallTree(x, f, args, t, dirt, m, live, s, c);
    case _ => SimulateIfLeaf(x, e, m, live, s, c);
  }

  lemma SpilledMore(x: Context, x': Context, m: Machine, m1: Machine, v: int, live: Live, s: nat, c: nat)
    requires Spilled(x, m, m1, v, live, s, c) && Extends(x, x')
    ensures Running(x, m1, live) && Ok(m1) && Spilled(x', m, m1, v, live, s, c)
  {
    RunningMore(x, x', m1, live);
  }

  lemma BinaryFaults(env: Env, op: BinOp, l: Expr, r: Expr, t: Ty, snap: seq<nat>, vars: seq<nat>, live: Live, tr: seq<Event>)
    requires |snap| == REGS && |live.regs| == REGS && Eval(env, l, snap, vars, live) == Fault(tr)
    ensures Eval(env, Binary(op, l, r, t), snap, vars, live) == Fault(tr)
  {
  }

  lemma BinaryDirt(callees: seq<Callee>, op: BinOp, l: Expr, r: Expr, t: Ty, dirt: set<Part>)
    requires Clean(callees, Binary(op, l, r, t), dirt)
    ensures Clean(callees, l, dirt) && Clean(callees, r, dirt + Writes(callees, l))
    ensures Writes(callees, Binary(op, l, r, t)) == Writes(callees, l) + Writes(callees, r) + OpParts(op)
  {
  }

  lemma RunningFacts(x: Context, m: Machine, live: Live)
    requires Running(x, m, live)
    ensures ContextOk(x) && Ok(m) && LiveOk(live) && !m.stopped
  {
  }

  lemma DoneFacts(x: Context, code: seq<Instr>, m: Machine, v: int, live: Live, t: Ty, s: nat, c: nat)
    requires Ok(m) && Simulates(x, code, m, Done(v, live), t, s, c)
    ensures Block(code) && LiveOk(live)
  {
  }

  lemma SameFit(x: Context, x': Context, e: Expr, s: nat, c: nat)
    requires x'.lay == x.lay && Fits(x, e, s, c)
    ensures Fits(x', e, s, c)
  {
  }

  lemma {:induction false} SimulateBinary(x: Context, op: BinOp, l: Expr, r: Expr, t: Ty, dirt: set<Part>, m: Machine, live: Live,
                                          s: nat, c: nat)
    requires WellFormed(x, Binary(op, l, r, t)) && Fits(x, Binary(op, l, r, t), s, c) && Running(Dirty(x, dirt), m, live)
    requires Clean(x.env.callees, Binary(op, l, r, t), dirt) && dirt + Writes(x.env.callees, Binary(op, l, r, t)) <= x.dirt
    ensures Simulates(x, Code(x.env.callees, x.lay, Binary(op, l, r, t), s, c), m,
                      Eval(x.env, Binary(op, l, r, t), x.snap, x.vars, live), t, s, c)
    decreases Binary(op, l, r, t), 1
  {
    hide Running, Simulates, Kept, Run, Code, Fits, WellFormed, Writes, Clean, OpParts, Eval, Spilled;
    var more := dirt + Writes(x.env.callees, l);
    var xl := Dirty(x, more);
    var left := Code(x.env.callees, x.lay, l, s + 1, c);
    BinaryFits(x, op, l, r, t, s, c);
    BinaryDirt(x.env.callees, op, l, r, t, dirt);
    RunningMore(Dirty(x, dirt), x, m, live);
    RunningFacts(x, m, live);
    SameTrees(x, xl, l);
    SameFit(x, xl, l, s + 1, c);
    CodeSimulates(xl, l, dirt, m, live, s + 1, c);
    match Eval(x.env, l, x.snap, x.vars, live)
    case Fault(tr) =>
      SimulatesMore(xl, x, left, m, Fault(tr), TypeOf(l), s + 1, c);
      BinaryLeftFault(x, op, l, r, t, m, live, tr, s, c);
      BinaryFaults(x.env, op, l, r, t, x.snap, x.vars, live, tr);
    case Done(lv, live') =>
      DoneFacts(xl, left, m, lv, live', TypeOf(l), s + 1, c);
      SpilledRuns(xl, left, m, lv, live', TypeOf(l), s, c);
      var m1 := Run(x.env, left + [Store(RBP, x.lay.SpillSlot(s), RAX)], m);
      SpilledMore(xl, x, m, m1, lv, live', s, c);
      CodeSimulates(x, r, more, m1, live', s + 1, c);
      BinaryRight(x, op, l, r, t, m, live, lv, live', s, c);
  }

  lemma {:induction false} SimulateCallTree(x: Context, f: nat, args: seq<Expr>, t: Ty, dirt: set<Part>, m: Machine, live: Live,
                                            s: nat, c: nat)
    requires WellFormed(x, CallTo(f, args, t)) && Fits(x, CallTo(f, args, t), s, c) && Running(Dirty(x, dirt), m, live)
    requires Clean(x.env.callees, CallTo(f, args, t), dirt) && dirt + Writes(x.env.callees, CallTo(f, args, t)) <= x.dirt
    ensures Simulates(x, Code(x.env.callees, x.lay, CallTo(f, args, t), s, c), m,
                      Eval(x.env, CallTo(f, args, t), x.snap, x.vars, live), t, s, c)
    decreases CallTo(f, args, t), 1
  {
    hide Eval, WritesAll, WellFormedAll, FitsAll, CleanAll, SimulatesAll;
    var params := x.env.callees[f].params;
    var xa := Dirty(x, dirt + WritesAll(x.env.callees, args));
    var xc := Dirty(x, dirt + WritesAll(x.env.callees, args) + BindParts(params));
    CallFits(x, f, args, t, s, c);
    SameArguments(x, xa, params, args, 0);
    ArgumentsSimulate(xa, params, args, dirt, m, live, 0, s, c);
    var code := ArgumentCode(x.env.callees, x.lay, params, args, 0, s, c);
    SimulatesAllMore(xa, xc, code, m, EvalAll(x.env, args, x.snap, x.vars, live), params, 0, s, c);
    RunningMore(Dirty(x, dirt), xc, m, live);
    SameTrees(x, xc, CallTo(f, args, t));
    SimulateCall(xc, f, args, t, m, live, s, c);
    SimulatesMore(xc, x, Code(x.env.callees, x.lay, CallTo(f, args, t), s, c), m,
                  Eval(x.env, CallTo(f, args, t), x.snap, x.vars, live), t, s, c);
  }

  lemma SimulatesAllMore(x: Context, x': Context, code: seq<Instr>, m: Machine, results: Results, params: seq<Param>,
                         i: nat, s: nat, c: nat)
    requires Ok(m) && i <= |params| && SimulatesAll(x, code, m, results, params, i, s, c) && Extends(x, x')
    ensures SimulatesAll(x', code, m, results, params, i, s, c)
  {
    if results.All? {
      var m' := Run(x.env, code, m);
      RunningMore(x, x', m', results.live);
      StoredMore(x, x', m'.mem, params, results.values, i, c);
      KeptToMore(x, x', m.mem, m'.mem, s, c, i);
    }
  }

  lemma {:induction false} StoredMore(x: Context, x': Context, mem: Memory, params: seq<Param>, values: seq<int>, i: nat, c: nat)
    requires i <= |params| && Stored(x, mem, params, values, i, c) && Extends(x, x')
    ensures Stored(x', mem, params, values, i, c)
    decreases |params| - i
  {
    if i < |params| {
      if params[i].direction == Out {
        StoredMore(x, x', mem, params, values, i + 1, c);
      } else {
        StoredMore(x, x', mem, params, values[1..], i + 1, c);
      }
    }
  }

  lemma KeptToMore(x: Context, x': Context, mem: Memory, mem': Memory, s: nat, c: nat, i: nat)
    requires KeptTo(x, mem, mem', s, c, i) && Extends(x, x')
    ensures KeptTo(x', mem, mem', s, c, i)
  {
    forall a: int | Fixed(x'.lay, s, c, x'.rbp - a) || IsEarlierSlot(x', c, i, a)
      ensures Read(mem', a) == Read(mem, a)
    {
      assert IsEarlierSlot(x', c, i, a) ==> IsEarlierSlot(x, c, i, a);
    }
  }

  lemma SimulateUnary(x: Context, op: UnOp, y: Expr, t: Ty, m: Machine, live: Live, s: nat, c: nat)
    requires (op == PosOp ==> Retypes(TypeOf(y), t)) && Running(x, m, live)
    requires Simulates(x, Code(x.env.callees, x.lay, y, s, c), m, Eval(x.env, y, x.snap, x.vars, live), TypeOf(y), s, c)
    ensures Simulates(x, Code(x.env.callees, x.lay, Unary(op, y, t), s, c), m,
                      Eval(x.env, Unary(op, y, t), x.snap, x.vars, live), t, s, c)
  {
    var code := Code(x.env.callees, x.lay, y, s, c);
    match Eval(x.env, y, x.snap, x.vars, live)
    case Fault(tr) =>
      UnaryBlock(op, t);
      ThenFault(x, code, UnaryCode(op, t), m, tr, TypeOf(y), t, s, c);
    case Done(v, live') => ApplyUnary(x, code, op, TypeOf(y), t, v, m, live', s, c);
  }

  lemma ApplyUnary(x: Context, code: seq<Instr>, op: UnOp, operand: Ty, t: Ty, v: int, m: Machine, live: Live, s: nat, c: nat)
    requires Ok(m) && Simulates(x, code, m, Done(v, live), operand, s, c) && (op == PosOp ==> Retypes(operand, t))
    ensures Simulates(x, code + UnaryCode(op, t), m, Done(UnValue(op, t, v), live), t, s, c)
  {
    hide Ok, UnaryCode;
    if op == PosOp {
      CarriedWord(operand, t, v);
    }
    RunUnary(x.env, op, t, v, Run(x.env, code, m));
    WrapInRange(t, v);
    WrapInRange(t, -v);
    WrapInRange(t, -v - 1);
    ThenCompute(x, code, UnaryCode(op, t), m, v, live, operand, {RAX}, Some(UnValue(op, t, v)), t, s, c);
  }

  lemma UnaryBlock(op: UnOp, t: Ty)
    ensures Block(UnaryCode(op, t))
  {
    NormalizeBlock(t);
  }

  function Tail(x: Context, op: BinOp, l: Expr, t: Ty, s: nat): seq<Instr> {
    [Load(Register(R10, B64, false), RBP, x.lay.SpillSlot(s))] + OperationCode(op, t, TypeOf(l))
  }

  lemma TailBlock(x: Context, op: BinOp, l: Expr, t: Ty, s: nat)
    ensures Block(Tail(x, op, l, t, s))
  {
    OperationBlock(op, t, TypeOf(l));
    BlockAppend([Load(Register(R10, B64, false), RBP, x.lay.SpillSlot(s))], OperationCode(op, t, TypeOf(l)));
  }

  lemma BinaryLeftFault(x: Context, op: BinOp, l: Expr, r: Expr, t: Ty, m: Machine, live: Live, tr: seq<Event>, s: nat, c: nat)
    requires WellFormed(x, Binary(op, l, r, t)) && Running(x, m, live)
    requires Eval(x.env, l, x.snap, x.vars, live) == Fault(tr)
    requires Simulates(x, Code(x.env.callees, x.lay, l, s + 1, c), m, Fault(tr), TypeOf(l), s + 1, c)
    ensures Simulates(x, Code(x.env.callees, x.lay, Binary(op, l, r, t), s, c), m, Fault(tr), t, s, c)
  {
    hide Running, OperationCode, Eval, Fits, Clean, Writes;
    RunningFacts(x, m, live);
    var left, right := Code(x.env.callees, x.lay, l, s + 1, c), Code(x.env.callees, x.lay, r, s + 1, c);
    var store := [Store(RBP, x.lay.SpillSlot(s), RAX)];
    CodeBlock(x, r, s + 1, c);
    TailBlock(x, op, l, t, s);
    BlockAppend(right, Tail(x, op, l, t, s));
    BlockAppend(store, right + Tail(x, op, l, t, s));
    assert left + store + (right + Tail(x, op, l, t, s)) == left + (store + (right + Tail(x, op, l, t, s)));
    assert Simulates(x, left, m, Fault(tr), TypeOf(l), s, c);
    ThenFault(x, left, store + (right + Tail(x, op, l, t, s)), m, tr, TypeOf(l), t, s, c);
  }

  lemma BinaryRight(x: Context, op: BinOp, l: Expr, r: Expr, t: Ty, m: Machine, live: Live, lv: int, live': Live, s: nat, c: nat)
    requires WellFormed(x, Binary(op, l, r, t)) && s < x.lay.depth && Running(x, m, live) && OpParts(op) <= x.dirt
    requires Eval(x.env, l, x.snap, x.vars, live) == Done(lv, live') && InRange(TypeOf(l), lv)
    requires var stored := Code(x.env.callees, x.lay, l, s + 1, c) + [Store(RBP, x.lay.SpillSlot(s), RAX)];
             && Block(stored)
             && var m1 := Run(x.env, stored, m);
                && Spilled(x, m, m1, lv, live', s, c)
                && Simulates(x, Code(x.env.callees, x.lay, r, s + 1, c), m1,
                             Eval(x.env, r, x.snap, x.vars, live'), TypeOf(r), s + 1, c)
    ensures Simulates(x, Code(x.env.callees, x.lay, Binary(op, l, r, t), s, c), m,
                      Eval(x.env, Binary(op, l, r, t), x.snap, x.vars, live), t, s, c)
  {
    var stored := Code(x.env.callees, x.lay, l, s + 1, c) + [Store(RBP, x.lay.SpillSlot(s), RAX)];
    var right := Code(x.env.callees, x.lay, r, s + 1, c);
    var m1 := Run(x.env, stored, m);
    var result := Eval(x.env, Binary(op, l, r, t), x.snap, x.vars, live);
    match Eval(x.env, r, x.snap, x.vars, live')
    case Fault(tr) =>
      TailBlock(x, op, l, t, s);
      assert Simulates(x, right, m1, Fault(tr), TypeOf(r), s, c);
      ThenFault(x, right, Tail(x, op, l, t, s), m1, tr, TypeOf(r), t, s, c);
      AfterLeft(x, stored, right + Tail(x, op, l, t, s), m, live', result, t, s, c);
    case Done(rv, live'') =>
      SimulateRight(x, right, op, t, TypeOf(l), TypeOf(r), m1, lv, rv, live'', s, c);
      AfterLeft(x, stored, right + Tail(x, op, l, t, s), m, live', result, t, s, c);
  }

  // ----- Arguments and calls -----

  lemma ArgumentsFit(x: Context, params: seq<Param>, args: seq<Expr>, i: nat, s: nat, c: nat)
    requires i < |params| && params[i].direction != Out && WellFormedAll(x, params, args, i) && FitsAll(x, args, s, c)
    ensures args != [] && WellFormed(x, args[0]) && Fits(x, args[0], s, c)
    ensures WellFormedAll(x, params, args[1..], i + 1) && FitsAll(x, args[1..], s, c)
  {
  }

  lemma {:induction false} ArgumentsSimulate(x: Context, params: seq<Param>, args: seq<Expr>, dirt: set<Part>, m: Machine, live: Live,
                                             i: nat, s: nat, c: nat)
    requires i <= |params| <= x.lay.perCall && WellFormedAll(x, params, args, i) && c < x.lay.calls && s <= x.lay.depth
    requires FitsAll(x, args, s, c + 1) && Running(Dirty(x, dirt), m, live)
    requires CleanAll(x.env.callees, args, dirt) && dirt + WritesAll(x.env.callees, args) <= x.dirt
    ensures SimulatesAll(x, ArgumentCode(x.env.callees, x.lay, params, args, i, s, c), m,
                         EvalAll(x.env, args, x.snap, x.vars, live), params, i, s, c)
    decreases args, |params| - i
  {
    RunningMore(Dirty(x, dirt), x, m, live);
    if i == |params| {
      NoArguments(x, params, m, live, s, c);
    } else if params[i].direction == Out {
      ArgumentsSimulate(x, params, args, dirt, m, live, i + 1, s, c);
      SkipOutput(x, ArgumentCode(x.env.callees, x.lay, params, args, i + 1, s, c), m,
                 EvalAll(x.env, args, x.snap, x.vars, live), params, i, s, c);
    } else {
      ArgumentsFit(x, params, args, i, s, c + 1);
      FirstThenRest(x, params, args, dirt, m, live, i, s, c);
    }
  }

  lemma {:induction false} FirstThenRest(x: Context, params: seq<Param>, args: seq<Expr>, dirt: set<Part>, m: Machine, live: Live,
                                         i: nat, s: nat, c: nat)
    requires i < |params| <= x.lay.perCall && params[i].direction != Out && WellFormedAll(x, params, args, i) && args != []
    requires WellFormed(x, args[0]) && Fits(x, args[0], s, c + 1) && c < x.lay.calls && s <= x.lay.depth
    requires FitsAll(x, args, s, c + 1) && FitsAll(x, args[1..], s, c + 1) && Running(Dirty(x, dirt), m, live)
    requires CleanAll(x.env.callees, args, dirt) && dirt + WritesAll(x.env.callees, args) <= x.dirt
    ensures SimulatesAll(x, ArgumentCode(x.env.callees, x.lay, params, args, i, s, c), m,
                         EvalAll(x.env, args, x.snap, x.vars, live), params, i, s, c)
    decreases args, 0
  {
    hide WellFormed, SimulatesAll, ArgumentCode, EvalAll, Writes, Eval, Clean, Simulates, Code, TypeOf, Extends, Ok,
         Block, Run, ArgumentDone, Normalize, WellFormedRegister, IsComparison, Framed, KeptTo;
    var more := dirt + Writes(x.env.callees, args[0]);
    var xf := Dirty(x, more);
    SameTrees(x, xf, args[0]);
    SameArguments(x, xf, params, args, i);
    CodeSimulates(xf, args[0], dirt, m, live, s, c + 1);
    RunningMore(Dirty(x, dirt), xf, m, live);
    RunningMore(Dirty(x, dirt), x, m, live);
    var m1 := FirstArgument(xf, params, args, m, live, i, s, c);
    match Eval(x.env, args[0], x.snap, x.vars, live)
    case Fault(tr) =>
      SimulatesAllMore(xf, x, ArgumentCode(x.env.callees, x.lay, params, args, i, s, c), m,
                       EvalAll(x.env, args, x.snap, x.vars, live), params, i, s, c);
    case Done(v, live') =>
      ArgumentsSimulate(x, params, args[1..], more, m1, live', i + 1, s, c);
      ArgumentDoneMore(xf, x, m, m1, v, live', i, s, c);
      ArgumentThenRest(x, params, args, m, live, v, live', i, s, c);
  }

  lemma ArgumentDoneMore(x: Context, x': Context, m: Machine, m1: Machine, v: int, live: Live, i: nat, s: nat, c: nat)
    requires ArgumentDone(x, m, m1, v, live, i, s, c) && Extends(x, x')
    ensures ArgumentDone(x', m, m1, v, live, i, s, c)
  {
    RunningMore(x, x', m1, live);
    KeptToMore(x, x', m.mem, m1.mem, s, c, i);
  }

  lemma NoArguments(x: Context, params: seq<Param>, m: Machine, live: Live, s: nat, c: nat)
    requires Running(x, m, live)
    ensures SimulatesAll(x, [], m, All([], live), params, |params|, s, c)
  {
  }

  /** The first argument is stored, or its trap is the result. */
  lemma FirstArgument(x: Context, params: seq<Param>, args: seq<Expr>, m: Machine, live: Live, i: nat, s: nat, c: nat)
    returns (m1: Machine)
    requires i < |params| <= x.lay.perCall && params[i].direction != Out && WellFormedAll(x, params, args, i)
    requires c < x.lay.calls && s <= x.lay.depth && Running(x, m, live)
    requires Simulates(x, Code(x.env.callees, x.lay, args[0], s, c + 1), m,
                       Eval(x.env, args[0], x.snap, x.vars, live), TypeOf(args[0]), s, c + 1)
    ensures Ok(m1)
    ensures match Eval(x.env, args[0], x.snap, x.vars, live)
            case Fault(tr) =>
              SimulatesAll(x, ArgumentCode(x.env.callees, x.lay, params, args, i, s, c), m,
                           EvalAll(x.env, args, x.snap, x.vars, live), params, i, s, c)
            case Done(v, live') =>
              var first := Code(x.env.callees, x.lay, args[0], s, c + 1) + [Store(RBP, x.lay.CallSlot(c, i), RAX)];
              Block(first) && m1 == Run(x.env, first, m) && Running(x, m1, live') && ArgumentDone(x, m, m1, v, live', i, s, c)
  {
    var code := Code(x.env.callees, x.lay, args[0], s, c + 1);
    m1 := m;
    match Eval(x.env, args[0], x.snap, x.vars, live)
    case Fault(tr) => ArgumentFault(x, params, args, m, live, tr, i, s, c);
    case Done(v, live') =>
      StoreArgument(x, code, m, v, live', TypeOf(args[0]), i, s, c);
      m1 := Run(x.env, code + [Store(RBP, x.lay.CallSlot(c, i), RAX)], m);
  }

  lemma ArgumentThenRest(x: Context, params: seq<Param>, args: seq<Expr>, m: Machine, live: Live, v: int, live': Live,
                         i: nat, s: nat, c: nat)
    requires i < |params| && params[i].direction != Out && args != [] && Running(x, m, live) && |live'.regs| == REGS
    requires Eval(x.env, args[0], x.snap, x.vars, live) == Done(v, live')
    requires var first := Code(x.env.callees, x.lay, args[0], s, c + 1) + [Store(RBP, x.lay.CallSlot(c, i), RAX)];
             && Block(first)
             && var m1 := Run(x.env, first, m);
                && ArgumentDone(x, m, m1, v, live', i, s, c)
                && SimulatesAll(x, ArgumentCode(x.env.callees, x.lay, params, args[1..], i + 1, s, c), m1,
                                EvalAll(x.env, args[1..], x.snap, x.vars, live'), params, i + 1, s, c)
    ensures SimulatesAll(x, ArgumentCode(x.env.callees, x.lay, params, args, i, s, c), m,
                         EvalAll(x.env, args, x.snap, x.vars, live), params, i, s, c)
  {
    var first := Code(x.env.callees, x.lay, args[0], s, c + 1) + [Store(RBP, x.lay.CallSlot(c, i), RAX)];
    var rest := ArgumentCode(x.env.callees, x.lay, params, args[1..], i + 1, s, c);
    StoredThenRest(x, first, rest, m, v, live', params, EvalAll(x.env, args[1..], x.snap, x.vars, live'), i, s, c);
    assert ArgumentCode(x.env.callees, x.lay, params, args, i, s, c) == first + rest;
  }

  lemma SkipOutput(x: Context, code: seq<Instr>, m: Machine, results: Results, params: seq<Param>, i: nat, s: nat, c: nat)
    requires Ok(m) && i < |params| && params[i].direction == Out && SimulatesAll(x, code, m, results, params, i + 1, s, c)
    ensures SimulatesAll(x, code, m, results, params, i, s, c)
  {
  }

  lemma ArgumentFault(x: Context, params: seq<Param>, args: seq<Expr>, m: Machine, live: Live, tr: seq<Event>,
                      i: nat, s: nat, c: nat)
    requires i < |params| && params[i].direction != Out && WellFormedAll(x, params, args, i) && Ok(m) && |live.regs| == REGS
    requires |x.snap| == REGS && Eval(x.env, args[0], x.snap, x.vars, live) == Fault(tr)
    requires Simulates(x, Code(x.env.callees, x.lay, args[0], s, c + 1), m, Fault(tr), TypeOf(args[0]), s, c + 1)
    ensures SimulatesAll(x, ArgumentCode(x.env.callees, x.lay, params, args, i, s, c), m, Faults(tr), params, i, s, c)
  {
    var code := Code(x.env.callees, x.lay, args[0], s, c + 1);
    var store := [Store(RBP, x.lay.CallSlot(c, i), RAX)];
    var rest := ArgumentCode(x.env.callees, x.lay, params, args[1..], i + 1, s, c);
    ArgumentBlock(x, params, args[1..], i + 1, s, c);
    BlockAppend(store, rest);
    assert code + store + rest == code + (store + rest);
    ThenFault(x, code, store + rest, m, tr, TypeOf(args[0]), Ptr, s, c + 1);
  }

  lemma SimulateCall(x: Context, f: nat, args: seq<Expr>, t: Ty, m: Machine, live: Live, s: nat, c: nat)
    requires WellFormed(x, CallTo(f, args, t)) && c < x.lay.calls && s <= x.lay.depth && Running(x, m, live)
    requires BindParts(x.env.callees[f].params) <= x.dirt && CaptureClean(x.env.callees[f], x.dirt)
    requires SimulatesAll(x, ArgumentCode(x.env.callees, x.lay, x.env.callees[f].params, args, 0, s, c), m,
                          EvalAll(x.env, args, x.snap, x.vars, live), x.env.callees[f].params, 0, s, c)
    ensures Simulates(x, Code(x.env.callees, x.lay, CallTo(f, args, t), s, c), m,
                      Eval(x.env, CallTo(f, args, t), x.snap, x.vars, live), t, s, c)
  {
    var callee := x.env.callees[f];
    var arguments := ArgumentCode(x.env.callees, x.lay, callee.params, args, 0, s, c);
    var call := CallCode(callee, x.lay, f, t, c);
    match EvalAll(x.env, args, x.snap, x.vars, live)
    case Faults(tr) =>
      CallBlock(x, callee, f, t, c);
      BlockAppend(arguments, call);
      RunAppend(x.env, arguments, call, m);
    case All(values, live') =>
      var event := Event(f, ArgumentWords(callee.params, values, 0));
      var m2 := CapturedCall(x, f, args, t, m, live, values, live', s, c);
      CleanCaptures(x, callee, x.env.call(f, event.args, live'.trace), live', event, m2);
  }

  /** A call with any pieces written before it: its outputs go into the registers as the evaluator
      has left them at the call instruction. */
  lemma CapturedCall(x: Context, f: nat, args: seq<Expr>, t: Ty, m: Machine, live: Live, values: seq<int>, live': Live, s: nat, c: nat)
    returns (m2: Machine)
    requires WellFormed(x, CallTo(f, args, t)) && c < x.lay.calls && s <= x.lay.depth && Running(x, m, live)
    requires BindParts(x.env.callees[f].params) <= x.dirt
    requires EvalAll(x.env, args, x.snap, x.vars, live) == All(values, live')
    requires SimulatesAll(x, ArgumentCode(x.env.callees, x.lay, x.env.callees[f].params, args, 0, s, c), m,
                          All(values, live'), x.env.callees[f].params, 0, s, c)
    ensures |live'.regs| == REGS && |m2.regs| == REGS && Running(x, m2, live')
    ensures var callee := x.env.callees[f];
            var event := Event(f, ArgumentWords(callee.params, values, 0));
            var b := x.env.call(f, event.args, live'.trace);
            Simulates(x, Code(x.env.callees, x.lay, CallTo(f, args, t), s, c), m,
                      Done(Wrap(t, Returned(b, RAX)), Captured(callee, b, live', event, m2.regs)), t, s, c)
    ensures var callee := x.env.callees[f];
            var m1 := Run(x.env, ArgumentCode(x.env.callees, x.lay, callee.params, args, 0, s, c), m);
            Block(StackCode(x.lay, callee.params, 0, c)) && Block(BindCode(x.lay, callee.params, 0, c)) && m2 == AtCall(x, callee, m1, c)
  {
    hide BindParts, ArgumentCode, ArgumentWords, Wrap, Returned, Captured, StackCode, BindCode, AtCall, CallCode,
         CalleeOk, Stored, WellFormedAll, ContextOk, LiveOk, Framed, Bound, FieldParts;
    var callee := x.env.callees[f];
    var arguments := ArgumentCode(x.env.callees, x.lay, callee.params, args, 0, s, c);
    var call := CallCode(callee, x.lay, f, t, c);
    var m1 := Run(x.env, arguments, m);
    var event := Event(f, ArgumentWords(callee.params, values, 0));
    var b := x.env.call(f, event.args, live'.trace);
    RunCall(x, f, t, m1, live', values, c);
    m2 := AtCall(x, callee, m1, c);
    CallKeeps(x, m1.mem, Run(x.env, call, m1).mem, s, c);
    AfterLeft(x, arguments, call, m, live', Done(Wrap(t, Returned(b, RAX)), Captured(callee, b, live', event, m2.regs)), t, s, c);
  }

  lemma CallKeeps(x: Context, mem: Memory, mem': Memory, s: nat, c: nat)
    requires s <= x.lay.depth && c <= x.lay.calls
    ensures Kept(x, mem, mem', x.lay.depth, x.lay.calls) ==> Kept(x, mem, mem', s, c)
  {
    if Kept(x, mem, mem', x.lay.depth, x.lay.calls) {
      KeptWeaken(x, mem, mem', s, c, x.lay.depth, x.lay.calls);
    }
  }
}
