/** How checked Nova is lowered, and that it means the same. */
module NovaLowering {
  import opened Words
  import opened X86
  import opened Codegen
  import opened NovaSource
  import opened NovaTarget

  /** Lowered code, the pure expression that then has the value, and the next free variable. */
  datatype Lowered = Lowered(code: seq<LStmt>, result: LExpr, next: nat)
  datatype LoweredAll = LoweredAll(code: seq<LStmt>, results: seq<LExpr>, next: nat)

  /** Errors above 32 bits carry their code in the upper half. */
  function GuardCode(code: Quad): Quad {
    if code > 0xffff_ffff then (code / 0x1_0000_0000) % 0x100 else code
  }

  const DIVISION_ERROR: Quad := 0x8000_0005_0000_0000

  function Zero(t: Ty): LExpr {
    LConst(0, t)
  }

  function Guard(cond: LExpr, code: Quad, span: Span): LStmt {
    LIf(cond, [LError(GuardCode(code), span), LReturn(Zero(U(B64)))], [])
  }

  /** After a call: a set status returns at once, with this position if it has none yet. */
  function Propagate(n: nat, span: Span): seq<LStmt> {
    [LRead(n, StatusField), LIf(LBin(NeOp, false, LName(n), Zero(U(B64)), Bool), BlameCode(n, span), [])]
  }

  function BlameCode(n: nat, span: Span): seq<LStmt> {
    [LRead(n + 1, SourceField), LIf(LBin(EqOp, false, LName(n + 1), Zero(U(B64)), Bool), [LPosition(span)], []),
     LReturn(Zero(U(B64)))]
  }

  /** Evaluates the three operands into temporaries, checks the runtime table and calls it. */
  function RunCode(operation: nat, a: LExpr, b: LExpr, d: LExpr, n: nat, span: Span): seq<LStmt> {
    OperandCode(a, b, d, n) + (TableCode(operation, n + 3, span) + ActionCode(operation, n, span))
  }

  function OperandCode(a: LExpr, b: LExpr, d: LExpr, n: nat): seq<LStmt> {
    [LLet(n, a), LLet(n + 1, b), LLet(n + 2, d)]
  }

  function ActionCode(operation: nat, n: nat, span: Span): seq<LStmt> {
    [LRun(n + 7, operation, LName(n), LName(n + 1), LName(n + 2))] + Propagate(n + 8, span)
  }

  function TableCode(operation: nat, n: nat, span: Span): seq<LStmt> {
    ReadAndGuard(n, Runtime, EqOp, 0, span) +
    (VersionCode(operation, n, span) + ReadAndGuard(n + 3, Entry(operation), EqOp, 0, span))
  }

  /** Reads a word and fails if it compares with the constant. */
  function ReadAndGuard(k: nat, f: Field, op: BinOp, c: nat, span: Span): seq<LStmt> {
    [LRead(k, TableField(f)), Guard(LBin(op, false, LName(k), LConst(c, U(B64)), Bool), NO_RUNTIME, span)]
  }

  function VersionCode(operation: nat, n: nat, span: Span): seq<LStmt> {
    [LRead(n + 1, TableField(Version)), LRead(n + 2, TableField(Size)),
     Guard(LBin(NeOp, false, LName(n + 1), LConst(2, U(B64)), Bool), NO_RUNTIME, span),
     Guard(LBin(LtOp, false, LName(n + 2), LConst(if operation < 12 then 120 else 128, U(B64)), Bool), NO_RUNTIME, span)]
  }

  const RUN_TEMPS: nat := 10

  function CheckCode(op: BinOp, t: Ty, l: LExpr, r: LExpr, operand: Ty, span: Span): seq<LStmt> {
    (if op == DivOp || op == ModOp then
       [Guard(LBin(EqOp, operand.I?, r, Zero(operand), Bool), DIVISION_ERROR, span)] +
       (if t == I(B64) then
          [Guard(LBin(AndB, false, LBin(EqOp, true, l, LConst(0x8000_0000_0000_0000, I(B64)), Bool),
                      LBin(EqOp, true, r, LConst(0xffff_ffff_ffff_ffff, I(B64)), Bool), Bool), OVERFLOW, span)]
        else [])
     else if op == ShlOp || op == ShrOp then
       [Guard(LBin(GeOp, operand.I?, r, LConst(SizeBits(WidthOf(t)), U(B64)), Bool), SHIFT, span)]
     else [])
  }

  function LowerBin(op: BinOp, t: Ty, signed: bool, operand: Ty, left: nat, right: nat, n: nat, span: Span): Lowered {
    var check := CheckCode(op, t, LName(left), LName(right), operand, span);
    if op == ShrOp && t.I? then Lowered(check + [LShift(n, LName(left), LName(right), t)], LName(n), n + 1)
    else Lowered(check, LBin(op, signed, LName(left), LName(right), t), n)
  }

  function ResolveCode(h: LExpr, offset: LExpr, width: nat, write: bool, n: nat, span: Span): seq<LStmt> {
    RunCode(RESOLVE, h, offset, LConst(Spec(width, write), U(B64)), n, span)
  }

  /** The byte offset of an element: the index in a temporary, checked, then scaled. */
  function OffsetCode(index: Lowered, signed: bool, width: nat, span: Span): Lowered {
    var k := index.next;
    Lowered(index.code + [LLet(k, index.result)] + OffsetTail(k, signed, width, span), LName(k + 1), k + 2)
  }

  function OffsetTail(k: nat, signed: bool, width: nat, span: Span): seq<LStmt> {
    [Guard(LBin(GtOp, signed, LName(k), LConst(if width == 0 then 0 else (W - 1) / width, U(B64)), Bool), BOUNDS, span),
     LLet(k + 1, ScaledExpr(k, signed, width))]
  }

  function ScaledExpr(k: nat, signed: bool, width: nat): LExpr {
    if width == 1 then LName(k) else LBin(MulOp, signed, LName(k), LConst(width, U(B64)), U(B64))
  }

  function Spec(width: nat, write: bool): nat {
    width + if write then WRITE else 0
  }

  function LowerLoad(h: LExpr, offset: LExpr, width: nat, t: Ty, n: nat, span: Span): Lowered {
    Lowered(ResolveCode(h, offset, width, false, n, span) + [LLoad(n + RUN_TEMPS, LName(n + 7), width, t)],
            LName(n + RUN_TEMPS), n + RUN_TEMPS + 1)
  }

  /** The element of h at an index. */
  function LowerAt(h: LExpr, index: Lowered, signed: bool, width: nat, t: Ty, span: Span): Lowered {
    var o := OffsetCode(index, signed, width, span);
    var p := LowerLoad(h, o.result, width, t, o.next, span);
    Lowered(o.code + p.code, p.result, p.next)
  }

  function Lower(e: NExpr, n: nat): (r: Lowered)
    ensures r.next >= n
    decreases e, 0
  {
    match e
    case Lit(v, t) => Lowered([], LConst(v, t), n)
    case Var(k, t) => Lowered([], LVar(k, t), n)
    case Un(op, x, t) => JoinUn(op, Lower(x, n), t)
    case Bin(op, a, b, t, span) => JoinBin(op, t, TypeIn(a).I?, TypeIn(b), Lower(a, n), Lower(b, Lower(a, n).next + 1), span)
    case LogicalAnd(a, b) => LowerLogical(Lower(a, n), Lower(b, Lower(a, n).next + 2), false)
    case LogicalOr(a, b) => LowerLogical(Lower(a, n), Lower(b, Lower(a, n).next + 2), true)
    case Apply(f, args, t, span) => JoinCall(f, LowerAll(args, n), t, span)
    case Length(h, width, span) => JoinLength(Lower(h, n), width, span)
    case Element(h, index, width, t, span) =>
      JoinElement(Lower(h, n), Lower(index, Lower(h, n).next + 1), TypeIn(index).I?, width, t, span)
    case Member(h, offset, width, t, span) => JoinMember(Lower(h, n), offset, width, t, span)
  }

  /** The value in a temporary, then more code. */
  function SaveThen(r: Lowered, rest: seq<LStmt>): seq<LStmt> {
    r.code + [LLet(r.next, r.result)] + rest
  }

  function JoinUn(op: UnOp, r: Lowered, t: Ty): Lowered {
    Lowered(r.code, LUn(op, r.result, t), r.next)
  }

  function JoinBin(op: BinOp, t: Ty, signed: bool, operand: Ty, l: Lowered, r: Lowered, span: Span): Lowered {
    var o := LowerBin(op, t, signed, operand, l.next, r.next, r.next + 1, span);
    Lowered(SaveThen(l, SaveThen(r, o.code)), o.result, o.next)
  }

  function JoinCall(f: nat, r: LoweredAll, t: Ty, span: Span): Lowered {
    Lowered(r.code + ([LCall(r.next, f, r.results, t)] + Propagate(r.next + 1, span)), LName(r.next), r.next + 3)
  }

  function JoinLength(r: Lowered, width: nat, span: Span): Lowered {
    Lowered(r.code + RunCode(LENGTH, r.result, Zero(U(B64)), Zero(U(B64)), r.next, span),
            if width > 1 then LBin(DivOp, false, LName(r.next + 7), LConst(width, U(B64)), U(B64)) else LName(r.next + 7),
            r.next + RUN_TEMPS)
  }

  function JoinElement(l: Lowered, index: Lowered, signed: bool, width: nat, t: Ty, span: Span): Lowered {
    var p := LowerAt(LName(l.next), index, signed, width, t, span);
    Lowered(SaveThen(l, p.code), p.result, p.next)
  }

  function JoinMember(l: Lowered, offset: nat, width: nat, t: Ty, span: Span): Lowered {
    var p := LowerLoad(LName(l.next), LName(l.next + 1), width, t, l.next + 2, span);
    Lowered(SaveThen(l, [LLet(l.next + 1, LConst(offset, U(B64)))] + p.code), p.result, p.next)
  }

  /** The right operand is evaluated only when the left one does not decide. */
  function LowerLogical(l: Lowered, r: Lowered, or_: bool): Lowered {
    var k := l.next;
    Lowered(l.code + [LLet(k, l.result)] +
            [LLet(k + 1, LName(k)),
             LIf(if or_ then LBin(EqOp, false, LName(k), Zero(Bool), Bool) else LName(k), r.code + [LLet(k + 1, r.result)], [])],
            LName(k + 1), if r.next > k + 2 then r.next else k + 2)
  }

  /** Each argument goes to a temporary before the next is evaluated. */
  function LowerAll(es: seq<NExpr>, n: nat): (r: LoweredAll)
    ensures r.next >= n
    decreases es, 0
  {
    if es == [] then LoweredAll([], [], n)
    else
      var first := Lower(es[0], n);
      var rest := LowerAll(es[1..], first.next + 1);
      LoweredAll(SaveThen(first, rest.code), [LName(first.next)] + rest.results, rest.next)
  }

  // ----- Lists -----

  predicate NoLabels(list: seq<LStmt>) {
    forall i :: 0 <= i < |list| ==> !list[i].LLabel?
  }

  lemma {:induction false} NoLabelThere(list: seq<LStmt>, l: nat)
    requires NoLabels(list)
    ensures LabelAt(list, l) == |list|
  {
    if list != [] {
      NoLabelThere(list[1..], l);
    }
  }

  /** What follows runs only when what came before came to its end. */
  function Then(env: Outside, o: Outcome, rest: seq<LStmt>, fuel: nat): Outcome {
    match o case Next(s, w) => Walk(env, rest, 0, s, w, fuel) case _ => o
  }

  lemma {:induction false} WalkSuffix(env: Outside, a: seq<LStmt>, b: seq<LStmt>, j: nat, s: map<nat, int>, w: World, fuel: nat)
    requires NoLabels(a + b) && j <= |b|
    ensures Walk(env, a + b, |a| + j, s, w, fuel) == Walk(env, b, j, s, w, fuel)
    decreases |b| - j
  {
    assert forall i :: 0 <= i < |b| ==> b[i] == (a + b)[|a| + i];
    if j < |b| {
      match Step(env, b[j], s, w, fuel)
      case Next(s', w') => WalkSuffix(env, a, b, j + 1, s', w', fuel);
      case Jumps(l, _, _) =>
        NoLabelThere(a + b, l);
        NoLabelThere(b, l);
      case _ =>
    }
  }

  lemma {:induction false} WalkAppendFrom(env: Outside, a: seq<LStmt>, b: seq<LStmt>, i: nat, s: map<nat, int>, w: World, fuel: nat)
    requires NoLabels(a) && NoLabels(b) && i <= |a|
    ensures Walk(env, a + b, i, s, w, fuel) == Then(env, Walk(env, a, i, s, w, fuel), b, fuel)
    decreases |a| - i
  {
    assert NoLabels(a + b);
    if i == |a| {
      WalkSuffix(env, a, b, 0, s, w, fuel);
    } else {
      assert (a + b)[i] == a[i];
      match Step(env, a[i], s, w, fuel)
      case Next(s', w') => WalkAppendFrom(env, a, b, i + 1, s', w', fuel);
      case Jumps(l, _, _) =>
        NoLabelThere(a + b, l);
        NoLabelThere(a, l);
      case _ =>
    }
  }

  lemma WalkAppend(env: Outside, a: seq<LStmt>, b: seq<LStmt>, s: map<nat, int>, w: World, fuel: nat)
    requires NoLabels(a) && NoLabels(b)
    ensures NoLabels(a + b) && Walk(env, a + b, 0, s, w, fuel) == Then(env, Walk(env, a, 0, s, w, fuel), b, fuel)
  {
    WalkAppendFrom(env, a, b, 0, s, w, fuel);
  }

  lemma WalkOne(env: Outside, st: LStmt, s: map<nat, int>, w: World, fuel: nat)
    requires !st.LLabel?
    ensures NoLabels([st]) && Walk(env, [st], 0, s, w, fuel) == Step(env, st, s, w, fuel)
  {
    match Step(env, st, s, w, fuel)
    case Next(s', w') => assert Walk(env, [st], 1, s', w', fuel) == Next(s', w');
    case Jumps(l, _, _) => NoLabelThere([st], l);
    case _ =>
  }

  lemma WalkHead(env: Outside, list: seq<LStmt>, s: map<nat, int>, w: World, fuel: nat)
    requires list != [] && NoLabels(list)
    ensures Walk(env, list, 0, s, w, fuel) == Then(env, Step(env, list[0], s, w, fuel), list[1..], fuel)
  {
    WalkOne(env, list[0], s, w, fuel);
    WalkAppend(env, [list[0]], list[1..], s, w, fuel);
    assert list == [list[0]] + list[1..];
  }

  // ----- Stores -----

  ghost predicate Agree(n: nat, s: map<nat, int>, s': map<nat, int>) {
    forall k: nat :: k < n ==> Get(s', k) == Get(s, k)
  }

  /** The expression reads only variables below n. */
  predicate Below(e: LExpr, n: nat) {
    match e
    case LConst(_, _) => true
    case LName(k) => k < n
    case LVar(k, _) => k < n
    case LUn(_, x, _) => Below(x, n)
    case LBin(_, _, a, b, _) => Below(a, n) && Below(b, n)
  }

  lemma {:induction false} SameValue(e: LExpr, n: nat, s: map<nat, int>, s': map<nat, int>)
    requires Below(e, n) && Agree(n, s, s')
    ensures EvalL(e, s') == EvalL(e, s) && Traps(e, s') == Traps(e, s)
    decreases e
  {
    match e
    case LUn(_, x, _) => SameValue(x, n, s, s');
    case LBin(_, _, a, b, _) =>
      SameValue(a, n, s, s');
      SameValue(b, n, s, s');
    case _ =>
  }

  predicate VarsBelow(e: NExpr, n: nat)
    decreases e, 0
  {
    match e
    case Lit(_, _) => true
    case Var(k, _) => k < n
    case Un(_, x, _) => VarsBelow(x, n)
    case Bin(_, a, b, _, _) => VarsBelow(a, n) && VarsBelow(b, n)
    case LogicalAnd(a, b) => VarsBelow(a, n) && VarsBelow(b, n)
    case LogicalOr(a, b) => VarsBelow(a, n) && VarsBelow(b, n)
    case Apply(_, args, _, _) => AllVarsBelow(args, n)
    case Length(h, _, _) => VarsBelow(h, n)
    case Element(h, i, _, _, _) => VarsBelow(h, n) && VarsBelow(i, n)
    case Member(h, _, _, _, _) => VarsBelow(h, n)
  }

  predicate AllVarsBelow(es: seq<NExpr>, n: nat)
    decreases es, 0
  {
    es == [] || (VarsBelow(es[0], n) && AllVarsBelow(es[1..], n))
  }

  lemma {:induction false} SameMeaning(env: Outside, e: NExpr, n: nat, s: map<nat, int>, s': map<nat, int>, w: World)
    requires VarsBelow(e, n) && Agree(n, s, s')
    ensures EvalN(env, e, s', w) == EvalN(env, e, s, w)
    decreases e, 1
  {
    match e
    case Lit(_, _) =>
    case Var(_, _) =>
    case Un(_, x, _) => SameMeaning(env, x, n, s, s', w);
    case Bin(_, a, b, _, _) => SamePair(env, e, a, b, n, s, s', w);
    case LogicalAnd(a, b) => SamePair(env, e, a, b, n, s, s', w);
    case LogicalOr(a, b) => SamePair(env, e, a, b, n, s, s', w);
    case Apply(_, args, _, _) => SameMeanings(env, args, n, s, s', w);
    case Length(h, _, _) => SameMeaning(env, h, n, s, s', w);
    case Element(h, i, _, _, _) => SamePair(env, e, h, i, n, s, s', w);
    case Member(h, _, _, _, _) => SameMeaning(env, h, n, s, s', w);
  }

  lemma {:induction false} SamePair(env: Outside, e: NExpr, a: NExpr, b: NExpr, n: nat, s: map<nat, int>, s': map<nat, int>, w: World)
    requires a < e && b < e && VarsBelow(a, n) && VarsBelow(b, n) && Agree(n, s, s')
    ensures EvalN(env, a, s', w) == EvalN(env, a, s, w)
    ensures EvalN(env, a, s, w).Val? ==> EvalN(env, b, s', EvalN(env, a, s, w).w) == EvalN(env, b, s, EvalN(env, a, s, w).w)
    decreases e, 0
  {
    SameMeaning(env, a, n, s, s', w);
    if EvalN(env, a, s, w).Val? {
      SameMeaning(env, b, n, s, s', EvalN(env, a, s, w).w);
    }
  }

  lemma {:induction false} SameMeanings(env: Outside, es: seq<NExpr>, n: nat, s: map<nat, int>, s': map<nat, int>, w: World)
    requires AllVarsBelow(es, n) && Agree(n, s, s')
    ensures EvalNs(env, es, s', w) == EvalNs(env, es, s, w)
    decreases es, 0
  {
    if es != [] {
      SameMeaning(env, es[0], n, s, s', w);
      match EvalN(env, es[0], s, w)
      case Err(_) =>
      case Val(_, w') => SameMeanings(env, es[1..], n, s, s', w');
    }
  }
}
