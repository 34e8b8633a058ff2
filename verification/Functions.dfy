/** Whole functions: the static analyses size a frame that is large enough for what the generator
    does in it, and the compiled function returns to its caller what the source body returns. */
module Functions {
  import opened Words
  import opened X86
  import opened Codegen
  import opened Operations
  import opened Simulation
  import opened Calls
  import opened ExpressionProof
  import opened Frames
  import opened Abi
  import opened Statements

  // ----- What the front end admits, without reference to a frame -----

  /** Parameters and outputs of a callee as the front end admits them. */
  ghost predicate CalleeShape(f: Callee) {
    && (forall i :: 0 <= i < |f.params| ==> ParamShape(f, i))
    && (forall r :: 0 <= r < REGS ==> OutputShape(f, r))
  }

  ghost predicate ParamShape(f: Callee, i: nat)
    requires i < |f.params|
  {
    var p := f.params[i];
    && (p.onStack ==> i >= 4 && p.direction == In && f.params[|f.params| - 1].onStack)
    && (Bound(p) ==> WellFormedRegister(p.reg) && p.reg.family != RSP && p.reg.family != RBP &&
                     !Rebinds(f.params, i + 1, p.reg.family))
  }

  ghost predicate OutputShape(f: Callee, r: nat) {
    match OutputOf(f.params, r)
    case None => true
    case Some(reg) =>
      WellFormedRegister(reg) && r != RAX && r != RSP && r != RBP
  }

  ghost predicate Shape(callees: seq<Callee>, locals: nat, e: Expr)
    decreases e, 0
  {
    match e
    case Const(v, t) => v < W && Normalize(t, v) == v
    case AddressOf(_, _) => true
    case Local(k, _) => k < locals
    case Leaf(reg, _) => WellFormedRegister(reg)
    case Unary(op, y, t) => (op == PosOp ==> Retypes(TypeOf(y), t)) && Shape(callees, locals, y)
    case Binary(op, l, r, t) =>
      && OperandTypes(op, t, TypeOf(l), TypeOf(r)) && Shape(callees, locals, l) && Shape(callees, locals, r)
    case CallTo(f, args, _) =>
      && f < |callees| && CalleeShape(callees[f])
      && ShapeAll(callees, locals, callees[f].params, args, 0)
  }

  ghost predicate ShapeAll(callees: seq<Callee>, locals: nat, params: seq<Param>, args: seq<Expr>, i: nat)
    requires i <= |params|
    decreases args, |params| - i
  {
    if i == |params| then args == []
    else if params[i].direction == Out then ShapeAll(callees, locals, params, args, i + 1)
    else args != [] && Shape(callees, locals, args[0]) && ShapeAll(callees, locals, params, args[1..], i + 1)
  }

  ghost predicate WholeShape(callees: seq<Callee>, locals: nat, e: Expr) {
    Shape(callees, locals, e) && Clean(callees, e, Whole(RAX))
  }

  ghost predicate StmtShape(callees: seq<Callee>, locals: nat, s: Stmt)
    decreases s
  {
    match s
    case Let(k, e) => k < locals && WholeShape(callees, locals, e)
    case If(e, a, b) =>
      WholeShape(callees, locals, e) && BlockShape(callees, locals, a) && BlockShape(callees, locals, b)
    case _ => WholeShape(callees, locals, s.value)
  }

  ghost predicate BlockShape(callees: seq<Callee>, locals: nat, block: seq<Stmt>)
    decreases block
  {
    block == [] || (StmtShape(callees, locals, block[0]) && BlockShape(callees, locals, block[1..]))
  }

  // ----- The static requirements -----

  /** The most parameters of any function called. */
  function ArgsNeed(callees: seq<Callee>, e: Expr): nat
    decreases e, 0
  {
    match e
    case Unary(_, y, _) => ArgsNeed(callees, y)
    case Binary(_, l, r, _) => Max(ArgsNeed(callees, l), ArgsNeed(callees, r))
    case CallTo(f, args, _) => Max(if f < |callees| then |callees[f].params| else 0, ArgsNeedAll(callees, args))
    case _ => 0
  }

  function ArgsNeedAll(callees: seq<Callee>, es: seq<Expr>): nat
    decreases es, 0
  {
    if es == [] then 0 else Max(ArgsNeed(callees, es[0]), ArgsNeedAll(callees, es[1..]))
  }

  /** The most outgoing stack arguments of any function called. */
  function StackNeed(callees: seq<Callee>, e: Expr): nat
    decreases e, 0
  {
    match e
    case Unary(_, y, _) => StackNeed(callees, y)
    case Binary(_, l, r, _) => Max(StackNeed(callees, l), StackNeed(callees, r))
    case CallTo(f, args, _) =>
      Max(if f < |callees| && Extra(callees[f].params) > 0 then |callees[f].params| - 4 else 0, StackNeedAll(callees, args))
    case _ => 0
  }

  function StackNeedAll(callees: seq<Callee>, es: seq<Expr>): nat
    decreases es, 0
  {
    if es == [] then 0 else Max(StackNeed(callees, es[0]), StackNeedAll(callees, es[1..]))
  }

  function StmtArgs(callees: seq<Callee>, s: Stmt): nat
    decreases s
  {
    match s
    case If(e, a, b) => Max(ArgsNeed(callees, e), Max(BlockArgs(callees, a), BlockArgs(callees, b)))
    case _ => ArgsNeed(callees, s.value)
  }

  function BlockArgs(callees: seq<Callee>, block: seq<Stmt>): nat
    decreases block
  {
    if block == [] then 0 else Max(StmtArgs(callees, block[0]), BlockArgs(callees, block[1..]))
  }

  function StmtStack(callees: seq<Callee>, s: Stmt): nat
    decreases s
  {
    match s
    case If(e, a, b) => Max(StackNeed(callees, e), Max(BlockStack(callees, a), BlockStack(callees, b)))
    case _ => StackNeed(callees, s.value)
  }

  function BlockStack(callees: seq<Callee>, block: seq<Stmt>): nat
    decreases block
  {
    if block == [] then 0 else Max(StmtStack(callees, block[0]), BlockStack(callees, block[1..]))
  }

  /** The frame emit_function sizes from its requirement analyses. */
  function LayoutFor(callees: seq<Callee>, f: Callee, locals: nat, body: seq<Stmt>): Layout {
    Layout(locals, BlockDepth(body), BlockCalls(body), Max(1, BlockArgs(callees, body)), BlockStack(callees, body),
           !f.clobbersFlags)
  }

  // ----- The analyses cover what the generator does -----

  lemma CalleeFits(x: Context, f: Callee)
    requires CalleeShape(f) && |f.params| <= x.lay.perCall
    requires Extra(f.params) > 0 ==> |f.params| - 4 <= x.lay.outgoing
    ensures CalleeOk(x, f)
  {
    forall i | 0 <= i < |f.params|
      ensures ParamOk(x, f, i)
    {
      assert ParamShape(f, i);
    }
    forall r | 0 <= r < REGS
      ensures OutputOk(x, f, r)
    {
      assert OutputShape(f, r);
    }
  }

  lemma {:induction false} ShapeFits(x: Context, e: Expr)
    requires Shape(x.env.callees, x.lay.locals, e)
    requires ArgsNeed(x.env.callees, e) <= x.lay.perCall && StackNeed(x.env.callees, e) <= x.lay.outgoing
    ensures WellFormed(x, e)
    decreases e, 0
  {
    match e
    case Unary(_, y, _) => ShapeFits(x, y);
    case Binary(_, l, r, _) =>
      ShapeFits(x, l);
      ShapeFits(x, r);
    case CallTo(f, args, _) =>
      CalleeFits(x, x.env.callees[f]);
      ShapeFitsAll(x, x.env.callees[f].params, args, 0);
    case _ =>
  }

  lemma {:induction false} ShapeFitsAll(x: Context, params: seq<Param>, args: seq<Expr>, i: nat)
    requires i <= |params| && ShapeAll(x.env.callees, x.lay.locals, params, args, i)
    requires ArgsNeedAll(x.env.callees, args) <= x.lay.perCall && StackNeedAll(x.env.callees, args) <= x.lay.outgoing
    ensures WellFormedAll(x, params, args, i)
    decreases args, |params| - i
  {
    if i == |params| {
    } else if params[i].direction == Out {
      ShapeFitsAll(x, params, args, i + 1);
    } else {
      ShapeFits(x, args[0]);
      ShapeFitsAll(x, params, args[1..], i + 1);
    }
  }

  lemma {:induction false} StmtShapeFits(x: Context, s: Stmt)
    requires StmtShape(x.env.callees, x.lay.locals, s)
    requires StmtArgs(x.env.callees, s) <= x.lay.perCall && StmtStack(x.env.callees, s) <= x.lay.outgoing
    ensures StmtOk(x, s)
    decreases s
  {
    match s
    case If(e, a, b) =>
      ShapeFits(x, e);
      BlockShapeFits(x, a);
      BlockShapeFits(x, b);
    case _ => ShapeFits(x, s.value);
  }

  lemma {:induction false} BlockShapeFits(x: Context, block: seq<Stmt>)
    requires BlockShape(x.env.callees, x.lay.locals, block)
    requires BlockArgs(x.env.callees, block) <= x.lay.perCall && BlockStack(x.env.callees, block) <= x.lay.outgoing
    ensures BlockOk(x, block)
    decreases block
  {
    if block != [] {
      StmtShapeFits(x, block[0]);
      BlockShapeFits(x, block[1..]);
    }
  }

  /** The layout has room for what the body reaches. */
  predicate SizedFor(callees: seq<Callee>, lay: Layout, f: Callee, body: seq<Stmt>) {
    && BlockFits(lay, body) && 1 <= lay.perCall && BlockArgs(callees, body) <= lay.perCall
    && BlockStack(callees, body) <= lay.outgoing && lay.preserveFlags == !f.clobbersFlags
  }

  lemma SizedCovers(x: Context, f: Callee, body: seq<Stmt>)
    requires BlockShape(x.env.callees, x.lay.locals, body) && SizedFor(x.env.callees, x.lay, f, body)
    ensures BlockOk(x, body) && BlockFits(x.lay, body)
    ensures x.lay.CallBase() + x.lay.Arguments(x.lay.calls) + 24 + 8 * x.lay.outgoing <= x.lay.Frame()
  {
    BlockShapeFits(x, body);
    FrameCovers(x.lay);
  }

  /** The frame sized by the analyses is large enough: every emitted level stays inside it. */
  lemma LayoutCovers(x: Context, f: Callee, body: seq<Stmt>)
    requires BlockShape(x.env.callees, x.lay.locals, body)
    requires x.lay == LayoutFor(x.env.callees, f, x.lay.locals, body)
    ensures SizedFor(x.env.callees, x.lay, f, body) && BlockOk(x, body) && BlockFits(x.lay, body)
    ensures x.lay.CallBase() + x.lay.Arguments(x.lay.calls) + 24 + 8 * x.lay.outgoing <= x.lay.Frame()
  {
    SizedCovers(x, f, body);
  }

  // ----- Functions -----

  function FunctionCode(callees: seq<Callee>, lay: Layout, f: Callee, body: seq<Stmt>): seq<Instr> {
    PrologueCode(lay, f) + BlockCode(callees, lay, EpilogueCode(f), body)
  }

  function LocalWords(lay: Layout, mem: Memory, rbp: int): (vars: seq<nat>)
    ensures |vars| == lay.locals && forall k :: 0 <= k < lay.locals ==> vars[k] == Number(Read(mem, rbp + lay.LocalSlot(k)))
  {
    seq(lay.locals, k requires 0 <= k < lay.locals => Number(Read(mem, rbp + lay.LocalSlot(k))))
  }

  /** The source state that the body starts in: the registers as the caller left them, except for
      the frame's own, and the locals with the arguments in them. */
  function StartState(lay: Layout, m: Machine, rbp: int): State {
    State(Started(m), LocalWords(lay, m.mem, rbp))
  }

  function BodyContext(env: Env, lay: Layout, m: Machine, rbp: nat): Context {
    Context(env, lay, lay.Frame(), rbp, m.regs, LocalWords(lay, m.mem, rbp), Whole(RAX))
  }

  lemma BodyIsReady(env: Env, lay: Layout, f: Callee, entry: Machine, m: Machine, rbp: nat)
    requires Ok(entry) && entry.regs[RSP] + 8 < W && BodyStarts(lay, f, entry, m, rbp) && OutputsDeclared(f)
    requires lay.Frame() + 8 <= rbp < W
    requires lay.CallBase() + lay.Arguments(lay.calls) + 24 + 8 * lay.outgoing <= lay.Frame()
    ensures var x := BodyContext(env, lay, m, rbp);
            Between(x, StartState(lay, m, rbp), m) && InFunction(x, f, entry, m.mem)
  {
  }

  /** What a run of the body's code means to the caller of the function. */
  ghost predicate FunctionEnds(f: Callee, entry: Machine, m': Machine, o: Outcome)
    requires Ok(entry)
  {
    match o
    case Trap(tr) => m'.stopped && !m'.returned && m'.trace == tr
    case Next(_) => !m'.stopped
    case Exit(v, st) => CallerSees(f, entry, v, st.live, m') && CallerStackKept(entry, m')
  }

  ghost predicate CallerStackKept(entry: Machine, m': Machine)
    requires Ok(entry)
  {
    forall a: int :: a >= entry.regs[RSP] ==> Read(m'.mem, a) == Read(entry.mem, a)
  }

  /** A function that can be compiled, entered with enough stack. */
  ghost predicate Enterable(env: Env, lay: Layout, f: Callee, body: seq<Stmt>, entry: Machine) {
    && Ok(entry) && !entry.stopped && OutputsDeclared(f)
    && SizedFor(env.callees, lay, f, body) && BlockShape(env.callees, lay.locals, body)
    && ParamsDeclared(lay, f) && 136 + lay.Frame() <= entry.regs[RSP] && entry.regs[RSP] + 8 < W
  }

  /** The frame pointer of a function entered in the given state. */
  function FramePointer(f: Callee, entry: Machine): int
    requires Ok(entry)
  {
    entry.regs[RSP] - FlagBytes(f) - 112
  }

  lemma RunBody(env: Env, lay: Layout, f: Callee, body: seq<Stmt>, entry: Machine, m: Machine, rbp: nat)
    requires Enterable(env, lay, f, body, entry) && rbp == FramePointer(f, entry)
    requires BodyStarts(lay, f, entry, m, rbp)
    ensures Block(BlockCode(env.callees, lay, EpilogueCode(f), body))
    ensures FunctionEnds(f, entry, Run(env, BlockCode(env.callees, lay, EpilogueCode(f), body), m),
                         ExecBlock(env, body, StartState(lay, m, rbp)))
  {
    var x := BodyContext(env, lay, m, rbp);
    SizedCovers(x, f, body);
    BodyIsReady(env, lay, f, entry, m, rbp);
    BlockCarries(x, f, entry, body, StartState(lay, m, rbp), m);
  }

  /** From the call on: the prologue hands every argument to its local; the body runs as its
      source meaning says; a return leaves the caller with the value in rax, the outputs in their
      fields, everything else restored, and all of the caller's stack untouched. */
  lemma FunctionCorrect(env: Env, lay: Layout, f: Callee, body: seq<Stmt>, entry: Machine)
    returns (m1: Machine)
    requires Enterable(env, lay, f, body, entry)
    ensures BodyStarts(lay, f, entry, m1, FramePointer(f, entry))
    ensures Block(FunctionCode(env.callees, lay, f, body))
    ensures FunctionEnds(f, entry, Run(env, FunctionCode(env.callees, lay, f, body), entry),
                         ExecBlock(env, body, StartState(lay, m1, FramePointer(f, entry))))
  {
    hide ExecBlock, PrologueCode;
    var first, rest := PrologueCode(lay, f), BlockCode(env.callees, lay, EpilogueCode(f), body);
    PrologueStarts(env, lay, f, entry);
    m1 := Run(env, first, entry);
    RunBody(env, lay, f, body, entry, m1, FramePointer(f, entry));
    BlockAppend(first, rest);
    RunAppend(env, first, rest, entry);
  }

  // ----- Functions that only return a constant -----

  /** The body is the return of a constant, and nothing else asks for a frame. */
  predicate IsShort(f: Callee, body: seq<Stmt>, aligned: bool) {
    !aligned && f.params == [] && |body| == 1 && body[0].Return? && body[0].value.Const?
  }

  function ShortCode(value: nat): seq<Instr> {
    [MovImm(RAX, value), Ret]
  }

  /** What the generator emits for a function. */
  function WholeCode(callees: seq<Callee>, lay: Layout, f: Callee, body: seq<Stmt>, aligned: bool): seq<Instr> {
    if IsShort(f, body, aligned) then ShortCode(body[0].value.value) else FunctionCode(callees, lay, f, body)
  }

  lemma ShortRuns(env: Env, value: nat, entry: Machine)
    requires Ok(entry) && !entry.stopped && entry.regs[RSP] + 8 < W && value < W
    ensures Block(ShortCode(value))
    ensures Run(env, ShortCode(value), entry) ==
            entry.(regs := entry.regs[RAX := value][RSP := entry.regs[RSP] + 8], stopped := true, returned := true)
  {
    RunTwo(env, MovImm(RAX, value), Ret, entry);
  }

  lemma ConstantReturn(env: Env, body: seq<Stmt>, st: State)
    requires |body| == 1 && body[0].Return? && body[0].value.Const? && |st.live.regs| == REGS
    ensures ExecBlock(env, body, st) == Exit(Wrap(body[0].value.ty, body[0].value.value), st)
  {
  }

  /** Without any frame such a function still keeps the contract: the source's value, and nothing
      else of the caller's changed. */
  lemma ShortFunctionCorrect(env: Env, f: Callee, body: seq<Stmt>, entry: Machine)
    requires IsShort(f, body, false) && Ok(entry) && !entry.stopped && entry.regs[RSP] + 8 < W
    requires var e := body[0].value; e.value < W && Normalize(e.ty, e.value) == e.value
    ensures Block(ShortCode(body[0].value.value))
    ensures FunctionEnds(f, entry, Run(env, ShortCode(body[0].value.value), entry), ExecBlock(env, body, State(Started(entry), [])))
  {
    hide Run, ExecBlock, Normalize, ShortCode, Wrap;
    var e := body[0].value;
    ShortRuns(env, e.value, entry);
    ConstantReturn(env, body, State(Started(entry), []));
    NormalizeIsWrap(e.ty, e.value);
  }

  // ----- Both sides of a call -----

  /** The caller's machine right after a call instruction pushed the return address. */
  function Called(m: Machine, address: nat): Machine
    requires Ok(m) && 8 <= m.regs[RSP]
  {
    m.(regs := m.regs[RSP := m.regs[RSP] - 8], mem := m.mem[m.regs[RSP] - 8 := Value(address)])
  }

  lemma CallRegister(env: Env, g: nat, f: Callee, m: Machine, b: Behaviour, r: nat)
    requires Ok(m) && g < |env.callees| && env.callees[g] == f && r < REGS
    requires env.call(g, Passed(m, f.params, 0), m.trace) == b
    ensures DoCall(env, m, g).regs[r] == (if r == RSP || r == RBP then m.regs[r] else AfterCall(f, b, r, m.regs[r]) % W)
    ensures DoCall(env, m, g).flags == (if f.clobbersFlags then b.flags else m.flags)
  {
  }

  /** Register r after the return, for the behaviour handed over. */
  predicate SeenAs(f: Callee, m: Machine, b: Behaviour, m': Machine, r: nat)
    requires Ok(m) && Ok(m') && r < REGS
  {
    m'.regs[r] == if r == RSP || r == RBP then m.regs[r] else AfterCall(f, b, r, m.regs[r])
  }

  lemma SeenRegister(f: Callee, m: Machine, address: nat, v: int, live: Live, m': Machine, r: nat)
    requires Ok(m) && 8 <= m.regs[RSP] && CallerSees(f, Called(m, address), v, live, m') && r < REGS
    ensures SeenAs(f, m, HandedOver(f, v, live), m', r)
  {
    assert r != RSP ==> Called(m, address).regs[r] == m.regs[r];
  }

  lemma SameRegister(env: Env, g: nat, f: Callee, m: Machine, b: Behaviour, m': Machine, r: nat)
    requires Ok(m) && Ok(m') && g < |env.callees| && env.callees[g] == f && r < REGS
    requires SeenAs(f, m, b, m', r) && env.call(g, Passed(m, f.params, 0), m.trace) == b
    ensures DoCall(env, m, g).regs[r] == m'.regs[r]
  {
    hide DoCall, Passed, AfterCall;
    CallRegister(env, g, f, m, b, r);
  }

  lemma SameFlags(env: Env, g: nat, f: Callee, m: Machine, address: nat, v: int, live: Live, m': Machine)
    requires Ok(m) && 8 <= m.regs[RSP] && g < |env.callees| && env.callees[g] == f
    requires CallerSees(f, Called(m, address), v, live, m')
    requires env.call(g, Passed(m, f.params, 0), m.trace) == HandedOver(f, v, live)
    ensures DoCall(env, m, g).flags == m'.flags
  {
    CallRegister(env, g, f, m, HandedOver(f, v, live), 0);
  }

  lemma SameFrame(m: Machine, address: nat, m': Machine)
    requires Ok(m) && 8 <= m.regs[RSP] && CallerStackKept(Called(m, address), m')
    ensures forall a: int :: a >= m.regs[RSP] ==> Read(m'.mem, a) == Read(m.mem, a)
  {
  }

  /** What the evaluator assumes of a call is what a compiled function does: the registers and
      flags after the return are those of the call step for the behaviour the body hands over,
      and the caller's frame above the shadow space is as before. */
  lemma CalleeMeetsCaller(env: Env, g: nat, f: Callee, m: Machine, address: nat, v: int, live: Live, m': Machine)
    requires Ok(m) && 8 <= m.regs[RSP] && g < |env.callees| && env.callees[g] == f
    requires CallerSees(f, Called(m, address), v, live, m') && CallerStackKept(Called(m, address), m')
    requires env.call(g, Passed(m, f.params, 0), m.trace) == HandedOver(f, v, live)
    ensures DoCall(env, m, g).regs == m'.regs && DoCall(env, m, g).flags == m'.flags
    ensures forall a: int :: a >= m.regs[RSP] ==> Read(m'.mem, a) == Read(m.mem, a)
  {
    forall r | 0 <= r < REGS
      ensures DoCall(env, m, g).regs[r] == m'.regs[r]
    {
      SeenRegister(f, m, address, v, live, m', r);
      SameRegister(env, g, f, m, HandedOver(f, v, live), m', r);
    }
    SameFlags(env, g, f, m, address, v, live, m');
    SameFrame(m, address, m');
  }
}
