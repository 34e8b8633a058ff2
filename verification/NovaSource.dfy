/** The checked part of Nova: expressions evaluated from left to right with short-circuit logic
    and checked arithmetic, and structured statements with loops, break and continue. */
module NovaSource {
  import opened Words
  import opened X86
  import opened Codegen

  /** A 64-bit word as it is stored. */
  type Quad = n: nat | n < W

  datatype Span = Span(source: Quad, start: Quad)

  datatype NExpr =
    | Lit(value: nat, ty: Ty)
    | Var(id: nat, ty: Ty)
    | Un(op: UnOp, operand: NExpr, ty: Ty)
    | Bin(bop: BinOp, left: NExpr, right: NExpr, ty: Ty, span: Span)
    | LogicalAnd(left: NExpr, right: NExpr)
    | LogicalOr(left: NExpr, right: NExpr)
    | Apply(f: nat, args: seq<NExpr>, ty: Ty, span: Span)
    | Length(handle: NExpr, width: nat, span: Span)
    | Element(handle: NExpr, index: NExpr, width: nat, ty: Ty, span: Span)
    | Member(handle: NExpr, offset: nat, width: nat, ty: Ty, span: Span)

  function TypeIn(e: NExpr): Ty {
    match e
    case LogicalAnd(_, _) => Bool
    case LogicalOr(_, _) => Bool
    case Length(_, _, _) => U(B64)
    case _ => e.ty
  }

  // ----- The world outside the function -----

  datatype Action =
    | Called(f: nat, args: seq<int>)
    | Ran(operation: nat, a: int, b: int, d: int)
    | Stored(pointer: int, width: nat, value: int)

  /** The error record of the context, and everything that was done so far. */
  datatype World = World(code: Quad, source: Quad, start: Quad, trace: seq<Action>)

  /** What a callee or the runtime answers: a value and the new error record. */
  datatype Answer = Answer(value: nat, code: Quad, source: Quad, start: Quad)

  datatype Field = Runtime | Version | Size | Entry(operation: nat)

  datatype Outside = Outside(call: (nat, seq<int>, World) -> Answer, run: (nat, int, int, int, World) -> Answer,
                             load: (int, nat, World) -> nat, table: (Field, World) -> Quad)

  const RESOLVE: nat := 8
  const LENGTH: nat := 10
  const BOUNDS: nat := 4
  const DIVISION: nat := 5
  const NO_RUNTIME: nat := 6
  const OVERFLOW: nat := 11
  const SHIFT: nat := 12
  const WRITE: nat := 0x8000_0000_0000_0000

  function After(w: World, a: Answer, action: Action): World {
    World(a.code, a.source, a.start, w.trace + [action])
  }

  /** An error found here: its code and position. */
  function Fail(w: World, code: Quad, span: Span): World {
    w.(code := code, source := span.source, start := span.start)
  }

  /** An error reported by a callee keeps its position; one without a position gets this one. */
  function Blame(w: World, span: Span): World {
    if w.source == 0 then w.(source := span.source, start := span.start) else w
  }

  datatype Evaluated = Val(v: int, w: World) | Err(w: World)
  datatype Evaluations = Vals(vs: seq<int>, w: World) | Errs(w: World)

  function Answered(t: Ty, a: Answer, w: World, span: Span): Evaluated {
    if w.code != 0 then Err(Blame(w, span)) else Val(Wrap(t, a.value), w)
  }

  predicate HasRuntime(env: Outside, operation: nat, w: World) {
    && env.table(Runtime, w) != 0 && env.table(Version, w) == 2
    && env.table(Size, w) >= (if operation < 12 then 120 else 128) && env.table(Entry(operation), w) != 0
  }

  function RunOperation(env: Outside, operation: nat, a: int, b: int, d: int, w: World, span: Span): Evaluated {
    if !HasRuntime(env, operation, w) then Err(Fail(w, NO_RUNTIME, span))
    else
      var answer := env.run(operation, a, b, d, w);
      Answered(U(B64), answer, After(w, answer, Ran(operation, a, b, d)), span)
  }

  /** Checked arithmetic: the error a binary operation must report, or none. */
  function Complaint(op: BinOp, t: Ty, l: int, r: int): Quad {
    if op == DivOp || op == ModOp then
      if r == 0 then DIVISION else if t == I(B64) && l == -HALF && r == -1 then OVERFLOW else 0
    else if op == ShlOp || op == ShrOp then (if r >= SizeBits(WidthOf(t)) then SHIFT else 0)
    else 0
  }

  function WidthOf(t: Ty): Width {
    match t case U(w) => w case I(w) => w case Bool => B8 case Ptr => B64
  }

  /** A right shift of a signed value keeps its sign; anything else is the plain operation. Shifts
      take the low six bits of their count. */
  function Arithmetic(op: BinOp, t: Ty, l: int, r: int): int {
    if op == ShrOp && t.I? then Wrap(t, l / Pow2(Rep(r) % 64))
    else match BinValue(op, t, l, r) case Some(v) => v case None => 0
  }

  /** The bytes an element access of the given width starts at. */
  function Resolve(env: Outside, h: int, offset: int, width: nat, write: bool, w: World, span: Span): Evaluated {
    RunOperation(env, RESOLVE, h, offset, width + if write then WRITE else 0, w, span)
  }

  function Get(s: map<nat, int>, k: nat): int {
    if k in s then s[k] else 0
  }

  function EvalN(env: Outside, e: NExpr, s: map<nat, int>, w: World): Evaluated
    decreases e, 0
  {
    match e
    case Lit(v, t) => Val(Wrap(t, v), w)
    case Var(k, t) => Val(Wrap(t, Get(s, k)), w)
    case Un(op, x, t) =>
      (match EvalN(env, x, s, w) case Err(w') => Err(w') case Val(v, w') => Val(UnValue(op, t, v), w'))
    case Bin(op, a, b, t, span) =>
      (match EvalN(env, a, s, w)
       case Err(w') => Err(w')
       case Val(l, w') =>
         match EvalN(env, b, s, w')
         case Err(w'') => Err(w'')
         case Val(r, w'') =>
           if Complaint(op, t, l, r) != 0 then Err(Fail(w'', Complaint(op, t, l, r), span))
           else Val(Arithmetic(op, t, l, r), w''))
    case LogicalAnd(a, b) =>
      (match EvalN(env, a, s, w) case Err(w') => Err(w') case Val(l, w') => if l == 0 then Val(0, w') else EvalN(env, b, s, w'))
    case LogicalOr(a, b) =>
      (match EvalN(env, a, s, w) case Err(w') => Err(w') case Val(l, w') => if l != 0 then Val(l, w') else EvalN(env, b, s, w'))
    case Apply(f, args, t, span) =>
      (match EvalNs(env, args, s, w)
       case Errs(w') => Err(w')
       case Vals(vs, w') =>
         var answer := env.call(f, vs, w');
         Answered(t, answer, After(w', answer, Action.Called(f, vs)), span))
    case Length(h, width, span) =>
      (match EvalN(env, h, s, w)
       case Err(w') => Err(w')
       case Val(v, w') =>
         match RunOperation(env, LENGTH, v, 0, 0, w', span)
         case Err(w'') => Err(w'')
         case Val(n, w'') => Val(if width > 1 then n / width else n, w''))
    case Element(h, index, width, t, span) =>
      (match EvalN(env, h, s, w)
       case Err(w') => Err(w')
       case Val(v, w') =>
         match EvalN(env, index, s, w')
         case Err(w'') => Err(w'')
         case Val(k, w'') =>
           if TooFar(k, width) then Err(Fail(w'', BOUNDS, span))
           else LoadFrom(env, v, Scaled(k, width), width, t, w'', span))
    case Member(h, offset, width, t, span) =>
      match EvalN(env, h, s, w)
      case Err(w') => Err(w')
      case Val(v, w') => LoadFrom(env, v, Wrap(U(B64), offset), width, t, w', span)
  }

  /** An index whose byte offset would not fit in 64 bits. */
  predicate TooFar(index: int, width: nat) {
    width > 0 && index > (W - 1) / width
  }

  function Scaled(index: int, width: nat): int {
    if width == 1 then index else Wrap(U(B64), index * width)
  }

  function LoadFrom(env: Outside, h: int, offset: int, width: nat, t: Ty, w: World, span: Span): Evaluated {
    match Resolve(env, h, offset, width, false, w, span)
    case Err(w') => Err(w')
    case Val(p, w') => Val(Wrap(t, env.load(p, width, w')), w')
  }

  function EvalNs(env: Outside, es: seq<NExpr>, s: map<nat, int>, w: World): Evaluations
    decreases es, 0
  {
    if es == [] then Vals([], w)
    else match EvalN(env, es[0], s, w)
      case Err(w') => Errs(w')
      case Val(v, w') =>
        match EvalNs(env, es[1..], s, w')
        case Errs(w'') => Errs(w'')
        case Vals(vs, w'') => Vals([v] + vs, w'')
  }

  // ----- Statements -----

  /** Where an assignment through a handle goes. */
  datatype Target = ElementOf(handle: NExpr, index: NExpr, width: nat, span: Span)
                  | MemberOf(handle: NExpr, offset: nat, span: Span)

  datatype NStmt =
    | Let(id: nat, value: NExpr)
    | Effect(value: NExpr)
    | Store(target: Target, value: NExpr, span: Span)
    | If(cond: NExpr, yes: seq<NStmt>, no: seq<NStmt>)
    | While(cond: NExpr, body: seq<NStmt>)
    | Break
    | Continue
    | Return(value: NExpr)
    | Block(body: seq<NStmt>)

  datatype Flow =
    | Normal(s: map<nat, int>, w: World)
    | Broke(s: map<nat, int>, w: World)
    | Again(s: map<nat, int>, w: World)
    | Returned(v: int, w: World)
    | Failed(w: World)
    | OutOfFuel

  function TargetWidth(t: Target): nat {
    if t.MemberOf? then 8 else t.width
  }

  /** The address is checked before the value is evaluated, and resolved again afterwards, because
      the value may have released or reallocated what it was in. */
  function Assign(env: Outside, t: Target, value: NExpr, s: map<nat, int>, w: World, span: Span): Evaluated {
    match EvalN(env, t.handle, s, w)
    case Err(w1) => Err(w1)
    case Val(h, w1) =>
      match (if t.MemberOf? then Val(Wrap(U(B64), t.offset), w1) else
             match EvalN(env, t.index, s, w1)
             case Err(w2) => Err(w2)
             case Val(k, w2) => if TooFar(k, t.width) then Err(Fail(w2, BOUNDS, t.span)) else Val(Scaled(k, t.width), w2))
      case Err(w2) => Err(w2)
      case Val(offset, w2) =>
        match Resolve(env, h, offset, TargetWidth(t), true, w2, t.span)
        case Err(w3) => Err(w3)
        case Val(_, w3) =>
          match EvalN(env, value, s, w3)
          case Err(w4) => Err(w4)
          case Val(v, w4) =>
            match Resolve(env, h, offset, TargetWidth(t), true, w4, span)
            case Err(w5) => Err(w5)
            case Val(p, w5) => Val(v, w5.(trace := w5.trace + [Stored(p, TargetWidth(t), v)]))
  }

  /** Fuel bounds the number of times a loop goes round on any one path. */
  function ExecN(env: Outside, st: NStmt, s: map<nat, int>, w: World, fuel: nat): Flow
    decreases fuel, st, 1
  {
    match st
    case Let(k, e) => (match EvalN(env, e, s, w) case Err(w') => Failed(w') case Val(v, w') => Normal(s[k := v], w'))
    case Effect(e) => (match EvalN(env, e, s, w) case Err(w') => Failed(w') case Val(_, w') => Normal(s, w'))
    case Store(t, e, span) =>
      (match Assign(env, t, e, s, w, span) case Err(w') => Failed(w') case Val(_, w') => Normal(s, w'))
    case If(c, yes, no) =>
      (match EvalN(env, c, s, w)
       case Err(w') => Failed(w')
       case Val(v, w') => ExecNs(env, if v != 0 then yes else no, s, w', fuel))
    case While(c, body) => Loop(env, c, body, s, w, fuel)
    case Break => Broke(s, w)
    case Continue => Again(s, w)
    case Return(e) => (match EvalN(env, e, s, w) case Err(w') => Failed(w') case Val(v, w') => Returned(v, w'))
    case Block(body) => ExecNs(env, body, s, w, fuel)
  }

  function Loop(env: Outside, c: NExpr, body: seq<NStmt>, s: map<nat, int>, w: World, fuel: nat): Flow
    decreases fuel, body, 1
  {
    match EvalN(env, c, s, w)
    case Err(w') => Failed(w')
    case Val(v, w') =>
      if v == 0 then Normal(s, w')
      else match ExecNs(env, body, s, w', fuel)
        case Broke(s', w'') => Normal(s', w'')
        case Normal(s', w'') => if fuel == 0 then OutOfFuel else Loop(env, c, body, s', w'', fuel - 1)
        case Again(s', w'') => if fuel == 0 then OutOfFuel else Loop(env, c, body, s', w'', fuel - 1)
        case o => o
  }

  function ExecNs(env: Outside, block: seq<NStmt>, s: map<nat, int>, w: World, fuel: nat): Flow
    decreases fuel, block, 0
  {
    if block == [] then Normal(s, w)
    else match ExecN(env, block[0], s, w, fuel)
      case Normal(s', w') => ExecNs(env, block[1..], s', w', fuel)
      case o => o
  }
}
