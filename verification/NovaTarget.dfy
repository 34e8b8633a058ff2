/** The typed statements Nova is lowered to: lets of pure expressions and of single actions, ifs,
    blocks, labels, jumps and returns. A jump goes to a label of an enclosing list. */
module NovaTarget {
  import opened Words
  import opened X86
  import opened Codegen
  import opened NovaSource

  /** LName is a temporary, which holds a value of its type; LVar is a declared variable, whose type
      its load applies. A comparison goes by whether the type of its left operand is signed. */
  datatype LExpr =
    | LConst(value: nat, ty: Ty)
    | LName(id: nat)
    | LVar(id: nat, ty: Ty)
    | LUn(op: UnOp, operand: LExpr, ty: Ty)
    | LBin(bop: BinOp, signed: bool, left: LExpr, right: LExpr, ty: Ty)

  datatype FieldName = StatusField | SourceField | TableField(field: Field)

  datatype LStmt =
    | LLet(id: nat, value: LExpr)
    | LEval(value: LExpr)
    | LRead(id: nat, field: FieldName)
    | LCall(id: nat, f: nat, args: seq<LExpr>, ty: Ty)
    | LRun(id: nat, operation: nat, a: LExpr, b: LExpr, d: LExpr)
    | LShift(id: nat, left: LExpr, right: LExpr, ty: Ty)
    | LLoad(id: nat, pointer: LExpr, width: nat, ty: Ty)
    | LStore(pointer: LExpr, width: nat, value: LExpr)
    | LError(code: Quad, span: Span)
    | LPosition(span: Span)
    | LIf(cond: LExpr, yes: seq<LStmt>, no: seq<LStmt>)
    | LBlock(body: seq<LStmt>)
    | LLabel(name: nat)
    | LJump(name: nat)
    | LReturn(value: LExpr)

  datatype Outcome =
    | Next(s: map<nat, int>, w: World)
    | Jumps(name: nat, s: map<nat, int>, w: World)
    | Exits(v: int, w: World)
    | Spent
    | Trapped

  /** What a 64-bit comparison takes v for. */
  function Reading(signed: bool, v: int): int {
    if signed then Signed(Rep(v)) else Rep(v)
  }

  /** A binary operation as the machine does it: comparisons on whole registers, with the
      signedness of the left operand. */
  function Operate(op: BinOp, signed: bool, t: Ty, l: int, r: int): Option<int> {
    if IsComparison(op) then Some(Compare(op, Reading(signed, l), Reading(signed, r))) else BinValue(op, t, l, r)
  }

  function EvalL(e: LExpr, s: map<nat, int>): int {
    match e
    case LConst(v, t) => Wrap(t, v)
    case LName(k) => Get(s, k)
    case LVar(k, t) => Wrap(t, Get(s, k))
    case LUn(op, x, t) => UnValue(op, t, EvalL(x, s))
    case LBin(op, signed, a, b, t) => (match Operate(op, signed, t, EvalL(a, s), EvalL(b, s)) case Some(v) => v case None => 0)
  }

  /** A division by zero or a quotient that does not fit, somewhere in the expression. */
  predicate Traps(e: LExpr, s: map<nat, int>) {
    match e
    case LUn(_, x, _) => Traps(x, s)
    case LBin(op, signed, a, b, t) => Traps(a, s) || Traps(b, s) || Operate(op, signed, t, EvalL(a, s), EvalL(b, s)).None?
    case _ => false
  }

  function EvalLs(es: seq<LExpr>, s: map<nat, int>): seq<int> {
    if es == [] then [] else [EvalL(es[0], s)] + EvalLs(es[1..], s)
  }

  function ReadField(env: Outside, f: FieldName, w: World): Quad {
    match f case StatusField => w.code case SourceField => w.source case TableField(k) => env.table(k, w)
  }

  /** The position of a label in a list, or its length. */
  function LabelAt(list: seq<LStmt>, l: nat): (p: nat)
    ensures p <= |list| && (p < |list| ==> list[p] == LLabel(l))
  {
    if list == [] then 0 else if list[0] == LLabel(l) then 0 else 1 + LabelAt(list[1..], l)
  }

  function Step(env: Outside, st: LStmt, s: map<nat, int>, w: World, fuel: nat): Outcome
    decreases fuel, st
  {
    match st
    case LLet(k, e) => if Traps(e, s) then Trapped else Next(s[k := EvalL(e, s)], w)
    case LEval(e) => if Traps(e, s) then Trapped else Next(s, w)
    case LRead(k, f) => Next(s[k := ReadField(env, f, w)], w)
    case LCall(k, f, args, t) =>
      var vs := EvalLs(args, s);
      var answer := env.call(f, vs, w);
      Next(s[k := Wrap(t, answer.value)], After(w, answer, Action.Called(f, vs)))
    case LRun(k, operation, a, b, d) =>
      var answer := env.run(operation, EvalL(a, s), EvalL(b, s), EvalL(d, s), w);
      Next(s[k := Wrap(U(B64), answer.value)], After(w, answer, Ran(operation, EvalL(a, s), EvalL(b, s), EvalL(d, s))))
    case LShift(k, l, r, t) =>
      Next(s[k := Wrap(t, EvalL(l, s) / Pow2(Rep(EvalL(r, s)) % 64))], w)
    case LLoad(k, p, width, t) => Next(s[k := Wrap(t, env.load(EvalL(p, s), width, w))], w)
    case LStore(p, width, v) => Next(s, w.(trace := w.trace + [Stored(EvalL(p, s), width, EvalL(v, s))]))
    case LError(code, span) => Next(s, Fail(w, code, span))
    case LPosition(span) => Next(s, w.(source := span.source, start := span.start))
    case LIf(c, yes, no) => if Traps(c, s) then Trapped else Walk(env, if EvalL(c, s) != 0 then yes else no, 0, s, w, fuel)
    case LBlock(body) => Walk(env, body, 0, s, w, fuel)
    case LLabel(_) => Next(s, w)
    case LJump(l) => Jumps(l, s, w)
    case LReturn(e) => if Traps(e, s) then Trapped else Exits(EvalL(e, s), w)
  }

  /** Runs a list from position at; only jumping back costs fuel. */
  function Walk(env: Outside, list: seq<LStmt>, at: nat, s: map<nat, int>, w: World, fuel: nat): Outcome
    decreases fuel, list, |list| - at
  {
    if at >= |list| then Next(s, w)
    else match Step(env, list[at], s, w, fuel)
      case Next(s', w') => Walk(env, list, at + 1, s', w', fuel)
      case Jumps(l, s', w') =>
        var p := LabelAt(list, l);
        if p == |list| then Jumps(l, s', w')
        else if p > at then Walk(env, list, p, s', w', fuel)
        else if fuel == 0 then Spent else Walk(env, list, p, s', w', fuel - 1)
      case o => o
  }
}
