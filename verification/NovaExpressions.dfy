/** Lowered expressions mean what the checked source means: the same value and the same effects in
    the same order, or a return with the same first error and its position. */
module NovaExpressions {
  import opened Words
  import opened X86
  import opened Codegen
  import opened NovaSource
  import opened NovaTarget
  import opened NovaLowering

  /** The code computes ev: the value in variable k, variables below n as before; or it returns
      with the error record of ev. */
  ghost predicate Holds(env: Outside, code: seq<LStmt>, k: nat, ev: Evaluated, n: nat, s: map<nat, int>, w: World, fuel: nat) {
    && NoLabels(code)
    && var o := Walk(env, code, 0, s, w, fuel);
       match ev
       case Err(w') => o == Exits(0, w')
       case Val(v, w') => o.Next? && o.w == w' && Agree(n, s, o.s) && Get(o.s, k) == v
  }

  /** The same with the value in a pure expression over variables below r.next. */
  ghost predicate Computes(env: Outside, r: Lowered, ev: Evaluated, n: nat, s: map<nat, int>, w: World, fuel: nat) {
    && NoLabels(r.code) && Below(r.result, r.next)
    && var o := Walk(env, r.code, 0, s, w, fuel);
       match ev
       case Err(w') => o == Exits(0, w')
       case Val(v, w') =>
         o.Next? && o.w == w' && Agree(n, s, o.s) && EvalL(r.result, o.s) == v && !Traps(r.result, o.s)
  }

  lemma AgreeTrans(n: nat, m: nat, a: map<nat, int>, b: map<nat, int>, c: map<nat, int>)
    requires Agree(n, a, b) && Agree(m, b, c) && n <= m
    ensures Agree(n, a, c)
  {
  }

  lemma AgreeUpdate(n: nat, a: map<nat, int>, b: map<nat, int>, k: nat, v: int)
    requires Agree(n, a, b) && k >= n
    ensures Agree(n, a, b[k := v])
  {
  }

  lemma StopsEarly(env: Outside, a: seq<LStmt>, b: seq<LStmt>, s: map<nat, int>, w: World, w': World, fuel: nat)
    requires NoLabels(a) && NoLabels(b) && Walk(env, a, 0, s, w, fuel) == Exits(0, w')
    ensures NoLabels(a + b) && Walk(env, a + b, 0, s, w, fuel) == Exits(0, w')
  {
    WalkAppend(env, a, b, s, w, fuel);
  }

  /** Saving a computed value in the next variable. */
  lemma Save(env: Outside, r: Lowered, ev: Evaluated, n: nat, s: map<nat, int>, w: World, fuel: nat)
    requires Computes(env, r, ev, n, s, w, fuel) && n <= r.next
    ensures Holds(env, r.code + [LLet(r.next, r.result)], r.next, ev, n, s, w, fuel)
  {
    var st := LLet(r.next, r.result);
    WalkAppend(env, r.code, [st], s, w, fuel);
    match ev
    case Err(_) =>
    case Val(_, _) =>
      var o := Walk(env, r.code, 0, s, w, fuel);
      WalkOne(env, st, o.s, o.w, fuel);
  }

  lemma StepGuard(env: Outside, cond: LExpr, code: Quad, span: Span, s: map<nat, int>, w: World, fuel: nat)
    requires !Traps(cond, s)
    ensures Step(env, Guard(cond, code, span), s, w, fuel) ==
            if EvalL(cond, s) != 0 then Exits(0, Fail(w, GuardCode(code), span)) else Next(s, w)
  {
    var bad := [LError(GuardCode(code), span), LReturn(Zero(U(B64)))];
    WalkHead(env, bad, s, w, fuel);
    WalkOne(env, bad[1], s, Fail(w, GuardCode(code), span), fuel);
    assert bad[1..] == [bad[1]];
    assert Walk(env, [], 0, s, w, fuel) == Next(s, w);
  }

  // ----- Propagation -----

  /** The values of a signed type, or of one that is not, are those that a comparison reads back. */
  predicate Bounds(signed: bool, v: int) {
    if signed then -HALF <= v < HALF else 0 <= v < W
  }

  lemma ReadingKeeps(signed: bool, v: int)
    requires Bounds(signed, v)
    ensures Reading(signed, v) == v
  {
  }

  lemma TestReading(op: BinOp, signed: bool, n: nat, c: nat, s: map<nat, int>)
    requires IsComparison(op) && Bounds(signed, Get(s, n)) && Bounds(signed, c)
    ensures var e := LBin(op, signed, LName(n), LConst(c, U(B64)), Bool);
            !Traps(e, s) && EvalL(e, s) == Compare(op, Get(s, n), c)
  {
    ReadingKeeps(signed, Get(s, n));
    ReadingKeeps(signed, c);
  }

  lemma TestValue(op: BinOp, n: nat, c: nat, s: map<nat, int>)
    requires IsComparison(op) && c < W && 0 <= Get(s, n) < W
    ensures var e := LBin(op, false, LName(n), LConst(c, U(B64)), Bool);
            !Traps(e, s) && EvalL(e, s) == Compare(op, Get(s, n), c)
  {
    TestReading(op, false, n, c, s);
  }

  lemma StepPosition(env: Outside, n: nat, span: Span, s: map<nat, int>, w: World, fuel: nat)
    requires Get(s, n) == w.source
    ensures Step(env, LIf(LBin(EqOp, false, LName(n), Zero(U(B64)), Bool), [LPosition(span)], []), s, w, fuel) == Next(s, Blame(w, span))
  {
    TestValue(EqOp, n, 0, s);
    WalkOne(env, LPosition(span), s, w, fuel);
    assert Walk(env, [], 0, s, w, fuel) == Next(s, w);
  }

  lemma WalkBlame(env: Outside, n: nat, span: Span, s: map<nat, int>, w: World, fuel: nat)
    ensures Walk(env, BlameCode(n, span), 0, s, w, fuel) == Exits(0, Blame(w, span))
  {
    hide Walk;
    var bad := BlameCode(n, span);
    var s' := s[n + 1 := w.source];
    var tail := bad[1..];
    assert tail[0] == bad[1] && tail[1..] == [bad[2]];
    WalkHead(env, bad, s, w, fuel);
    StepPosition(env, n + 1, span, s', w, fuel);
    WalkHead(env, tail, s', w, fuel);
    WalkOne(env, bad[2], s', Blame(w, span), fuel);
  }

  /** After an action: its status decides between going on and returning. */
  lemma RunPropagate(env: Outside, n: nat, span: Span, s: map<nat, int>, w: World, fuel: nat)
    ensures NoLabels(Propagate(n, span))
    ensures var o := Walk(env, Propagate(n, span), 0, s, w, fuel);
            if w.code != 0 then o == Exits(0, Blame(w, span)) else o.Next? && o.w == w && Agree(n, s, o.s)
  {
    var code := Propagate(n, span);
    var s' := s[n := w.code];
    assert code[1..] == [code[1]];
    WalkHead(env, code, s, w, fuel);
    WalkOne(env, code[1], s', w, fuel);
    WalkBlame(env, n, span, s', w, fuel);
    assert Walk(env, [], 0, s', w, fuel) == Next(s', w);
    TestValue(NeOp, n, 0, s');
  }

  // ----- Runtime calls -----

  lemma RunOperands(env: Outside, a: LExpr, b: LExpr, d: LExpr, n: nat, s: map<nat, int>, w: World, fuel: nat)
    requires Below(a, n) && Below(b, n) && Below(d, n) && !Traps(a, s) && !Traps(b, s) && !Traps(d, s)
    ensures NoLabels(OperandCode(a, b, d, n))
    ensures var o := Walk(env, OperandCode(a, b, d, n), 0, s, w, fuel);
            && o.Next? && o.w == w && Agree(n, s, o.s)
            && Get(o.s, n) == EvalL(a, s) && Get(o.s, n + 1) == EvalL(b, s) && Get(o.s, n + 2) == EvalL(d, s)
  {
    var code := OperandCode(a, b, d, n);
    var s1 := s[n := EvalL(a, s)];
    SameValue(b, n, s, s1);
    var s2 := s1[n + 1 := EvalL(b, s)];
    SameValue(d, n, s, s2);
    WalkHead(env, code, s, w, fuel);
    WalkHead(env, code[1..], s1, w, fuel);
    assert code[1..][1..] == [code[2]];
    WalkOne(env, code[2], s2, w, fuel);
  }

  /** A read followed by a guard on it. */
  lemma RunReadAndGuard(env: Outside, k: nat, f: Field, op: BinOp, c: nat, span: Span, s: map<nat, int>, w: World, fuel: nat)
    requires IsComparison(op) && c < W
    ensures NoLabels(ReadAndGuard(k, f, op, c, span))
    ensures Walk(env, ReadAndGuard(k, f, op, c, span), 0, s, w, fuel) ==
            if Compare(op, env.table(f, w), c) != 0 then Exits(0, Fail(w, NO_RUNTIME, span))
            else Next(s[k := env.table(f, w)], w)
  {
    var code := ReadAndGuard(k, f, op, c, span);
    var s' := s[k := env.table(f, w)];
    assert code[1..] == [code[1]];
    WalkHead(env, code, s, w, fuel);
    WalkOne(env, code[1], s', w, fuel);
    TestValue(op, k, c, s');
    StepGuard(env, LBin(op, false, LName(k), LConst(c, U(B64)), Bool), NO_RUNTIME, span, s', w, fuel);
  }

  lemma RunVersion(env: Outside, operation: nat, n: nat, span: Span, s: map<nat, int>, w: World, fuel: nat)
    ensures NoLabels(VersionCode(operation, n, span))
    ensures var o := Walk(env, VersionCode(operation, n, span), 0, s, w, fuel);
            if env.table(Version, w) == 2 && env.table(Size, w) >= (if operation < 12 then 120 else 128)
            then o.Next? && o.w == w && Agree(n, s, o.s) else o == Exits(0, Fail(w, NO_RUNTIME, span))
  {
    hide Traps, EvalL, LabelAt;
    var code := VersionCode(operation, n, span);
    var s1 := s[n + 1 := env.table(Version, w)];
    var s2 := s1[n + 2 := env.table(Size, w)];
    WalkHead(env, code, s, w, fuel);
    WalkHead(env, code[1..], s1, w, fuel);
    assert code[1..][1..] == [code[2], code[3]];
    WalkHead(env, [code[2], code[3]], s2, w, fuel);
    assert [code[2], code[3]][1..] == [code[3]];
    WalkOne(env, code[3], s2, w, fuel);
    TestValue(NeOp, n + 1, 2, s2);
    TestValue(LtOp, n + 2, if operation < 12 then 120 else 128, s2);
    StepGuard(env, code[2].cond, NO_RUNTIME, span, s2, w, fuel);
    StepGuard(env, code[3].cond, NO_RUNTIME, span, s2, w, fuel);
  }

  lemma RunTable(env: Outside, operation: nat, n: nat, span: Span, s: map<nat, int>, w: World, fuel: nat)
    ensures NoLabels(TableCode(operation, n, span))
    ensures var o := Walk(env, TableCode(operation, n, span), 0, s, w, fuel);
            if HasRuntime(env, operation, w) then o.Next? && o.w == w && Agree(n, s, o.s)
            else o == Exits(0, Fail(w, NO_RUNTIME, span))
  {
    hide Walk;
    var first, last := ReadAndGuard(n, Runtime, EqOp, 0, span), ReadAndGuard(n + 3, Entry(operation), EqOp, 0, span);
    var version := VersionCode(operation, n, span);
    var s1 := s[n := env.table(Runtime, w)];
    RunReadAndGuard(env, n, Runtime, EqOp, 0, span, s, w, fuel);
    RunVersion(env, operation, n, span, s1, w, fuel);
    var o := Walk(env, version, 0, s1, w, fuel);
    RunReadAndGuard(env, n + 3, Entry(operation), EqOp, 0, span, if o.Next? then o.s else s1, w, fuel);
    WalkAppend(env, version, last, s1, w, fuel);
    WalkAppend(env, first, version + last, s, w, fuel);
    assert Walk(env, TableCode(operation, n, span), 0, s, w, fuel) == Then(env, Walk(env, first, 0, s, w, fuel), version + last, fuel);
    if env.table(Runtime, w) != 0 {
      assert Walk(env, version + last, 0, s1, w, fuel) == Then(env, o, last, fuel);
      if o.Next? {
        AgreeUpdate(n, s, o.s, n + 3, env.table(Entry(operation), w));
      }
    }
  }

  lemma RunAction(env: Outside, st: LStmt, k: nat, t: Ty, answer: Answer, w1: World, n: nat, span: Span,
                  s: map<nat, int>, w: World, fuel: nat)
    requires !st.LLabel? && Step(env, st, s, w, fuel) == Next(s[k := Wrap(t, answer.value)], w1) && n <= k
    ensures Holds(env, [st] + Propagate(k + 1, span), k, Answered(t, answer, w1, span), n, s, w, fuel)
  {
    var s1 := s[k := Wrap(t, answer.value)];
    WalkOne(env, st, s, w, fuel);
    RunPropagate(env, k + 1, span, s1, w1, fuel);
    WalkAppend(env, [st], Propagate(k + 1, span), s, w, fuel);
  }

  lemma RunActionCode(env: Outside, operation: nat, va: int, vb: int, vd: int, n: nat, span: Span, s: map<nat, int>, w: World, fuel: nat)
    requires Get(s, n) == va && Get(s, n + 1) == vb && Get(s, n + 2) == vd && HasRuntime(env, operation, w)
    ensures Holds(env, ActionCode(operation, n, span), n + 7, RunOperation(env, operation, va, vb, vd, w, span), n, s, w, fuel)
  {
    var run := LRun(n + 7, operation, LName(n), LName(n + 1), LName(n + 2));
    var answer := env.run(operation, va, vb, vd, w);
    RunAction(env, run, n + 7, U(B64), answer, After(w, answer, Ran(operation, va, vb, vd)), n, span, s, w, fuel);
  }

  lemma HoldsAfter(env: Outside, first: seq<LStmt>, rest: seq<LStmt>, k: nat, ev: Evaluated, n: nat, m: nat,
                   s: map<nat, int>, w: World, s1: map<nat, int>, fuel: nat)
    requires NoLabels(first) && Walk(env, first, 0, s, w, fuel) == Next(s1, w) && Agree(n, s, s1) && n <= m
    requires Holds(env, rest, k, ev, m, s1, w, fuel)
    ensures Holds(env, first + rest, k, ev, n, s, w, fuel)
  {
    WalkAppend(env, first, rest, s, w, fuel);
  }

  /** A runtime call: operands, table checks, the call, and its status. */
  lemma RunRuntime(env: Outside, operation: nat, a: LExpr, b: LExpr, d: LExpr, n: nat, span: Span,
                   s: map<nat, int>, w: World, fuel: nat)
    requires Below(a, n) && Below(b, n) && Below(d, n) && !Traps(a, s) && !Traps(b, s) && !Traps(d, s)
    ensures Holds(env, RunCode(operation, a, b, d, n, span), n + 7,
                  RunOperation(env, operation, EvalL(a, s), EvalL(b, s), EvalL(d, s), w, span), n, s, w, fuel)
  {
    var operands, table, action := OperandCode(a, b, d, n), TableCode(operation, n + 3, span), ActionCode(operation, n, span);
    var ev := RunOperation(env, operation, EvalL(a, s), EvalL(b, s), EvalL(d, s), w, span);
    RunOperands(env, a, b, d, n, s, w, fuel);
    var s1 := Walk(env, operands, 0, s, w, fuel).s;
    RunTable(env, operation, n + 3, span, s1, w, fuel);
    if HasRuntime(env, operation, w) {
      var s2 := Walk(env, table, 0, s1, w, fuel).s;
      RunActionCode(env, operation, EvalL(a, s), EvalL(b, s), EvalL(d, s), n, span, s2, w, fuel);
      HoldsAfter(env, table, action, n + 7, ev, n, n, s1, w, s2, fuel);
    } else {
      ActionNoLabels(operation, n, span);
      StopsEarly(env, table, action, s1, w, Fail(w, NO_RUNTIME, span), fuel);
    }
    HoldsAfter(env, operands, table + action, n + 7, ev, n, n, s, w, s1, fuel);
  }

  lemma ActionNoLabels(operation: nat, n: nat, span: Span)
    ensures NoLabels(ActionCode(operation, n, span))
  {
  }

  // ----- Checked arithmetic -----

  lemma {:induction false} AndZero(a: nat, b: nat, n: nat)
    requires a == 0 || b == 0
    ensures Bits(And, a, b, n) == 0
  {
    if n > 0 {
      AndZero(a / 2, b / 2, n - 1);
    }
  }

  lemma BitsStep(op: BitOp, a: nat, b: nat, n: nat)
    requires n > 0
    ensures Bits(op, a, b, n) == Bit(op, a % 2 == 1, b % 2 == 1) + 2 * Bits(op, a / 2, b / 2, n - 1)
  {
  }

  lemma AndOfBits(a: nat, b: nat, n: nat)
    requires a <= 1 && b <= 1 && n > 0
    ensures Bits(And, a, b, n) == if a == 1 && b == 1 then 1 else 0
  {
    BitsStep(And, a, b, n);
    AndZero(a / 2, b / 2, n - 1);
  }

  lemma AndWord(a: nat, b: nat, n: nat)
    requires a <= 1 && b <= 1 && n == 64
    ensures Bits64(And, a, b) == if a == 1 && b == 1 then 1 else 0
  {
    AndOfBits(a, b, n);
  }

  lemma AndBits(a: int, b: int)
    requires 0 <= a <= 1 && 0 <= b <= 1
    ensures BinValue(AndB, Bool, a, b) == Some(if a == 1 && b == 1 then 1 else 0)
  {
    AndWord(a, b, 64);
    RepOfBit(a);
    RepOfBit(b);
  }

  lemma RepOfBit(a: int)
    requires 0 <= a <= 1
    ensures Rep(a) == a
  {
  }

  function ZeroTest(r: nat, operand: Ty): LExpr {
    LBin(EqOp, operand.I?, LName(r), Zero(operand), Bool)
  }

  function QuotientTest(l: nat, r: nat): LExpr {
    LBin(AndB, false, LBin(EqOp, true, LName(l), LConst(0x8000_0000_0000_0000, I(B64)), Bool),
         LBin(EqOp, true, LName(r), LConst(0xffff_ffff_ffff_ffff, I(B64)), Bool), Bool)
  }

  function CountTest(r: nat, t: Ty, signed: bool): LExpr {
    LBin(GeOp, signed, LName(r), LConst(SizeBits(WidthOf(t)), U(B64)), Bool)
  }

  lemma ZeroTestValue(r: nat, operand: Ty, s: map<nat, int>)
    requires Bounds(operand.I?, Get(s, r))
    ensures !Traps(ZeroTest(r, operand), s) && EvalL(ZeroTest(r, operand), s) == Compare(EqOp, Get(s, r), 0)
  {
    assert Wrap(operand, 0) == 0;
    ReadingKeeps(operand.I?, Get(s, r));
    ReadingKeeps(operand.I?, 0);
  }

  lemma SignedEquals(n: nat, c: nat, v: int, s: map<nat, int>)
    requires Bounds(true, Get(s, n)) && Wrap(I(B64), c) == v && Bounds(true, v)
    ensures var e := LBin(EqOp, true, LName(n), LConst(c, I(B64)), Bool);
            !Traps(e, s) && EvalL(e, s) == Compare(EqOp, Get(s, n), v)
  {
    ReadingKeeps(true, Get(s, n));
    ReadingKeeps(true, v);
  }

  lemma QuotientTestValue(l: nat, r: nat, s: map<nat, int>)
    requires Bounds(true, Get(s, l)) && Bounds(true, Get(s, r))
    ensures !Traps(QuotientTest(l, r), s)
    ensures EvalL(QuotientTest(l, r), s) != 0 <==> Get(s, l) == -HALF && Get(s, r) == -1
  {
    var a := LBin(EqOp, true, LName(l), LConst(0x8000_0000_0000_0000, I(B64)), Bool);
    var b := LBin(EqOp, true, LName(r), LConst(0xffff_ffff_ffff_ffff, I(B64)), Bool);
    SignedEquals(l, 0x8000_0000_0000_0000, -HALF, s);
    SignedEquals(r, 0xffff_ffff_ffff_ffff, -1, s);
    AndBits(EvalL(a, s), EvalL(b, s));
  }

  lemma CountTestValue(r: nat, t: Ty, signed: bool, s: map<nat, int>)
    requires Bounds(signed, Get(s, r))
    ensures var e := CountTest(r, t, signed);
            !Traps(e, s) && EvalL(e, s) == Compare(GeOp, Get(s, r), SizeBits(WidthOf(t)))
  {
    ReadingKeeps(signed, Get(s, r));
    ReadingKeeps(signed, SizeBits(WidthOf(t)));
  }

  /** The operand types the front end leaves: comparisons and divisions have operands of one
      signedness, and a quotient has it too; so has a right shift that of its left operand. Casts
      mix any two types. */
  predicate Alike(op: BinOp, t: Ty, signed: bool, operand: Ty) {
    && (op == ShrOp ==> t.I? == signed)
    && (IsComparison(op) || op == DivOp || op == ModOp ==> signed == operand.I?)
    && (op == DivOp || op == ModOp ==> t.I? == signed)
  }

  /** The checks fall through, or return with the error the source reports. */
  ghost predicate ChecksRun(env: Outside, op: BinOp, t: Ty, l: nat, r: nat, operand: Ty, span: Span, s: map<nat, int>, w: World, fuel: nat) {
    var code := CheckCode(op, t, LName(l), LName(r), operand, span);
    var complaint := Complaint(op, t, Get(s, l), Get(s, r));
    NoLabels(code) &&
    Walk(env, code, 0, s, w, fuel) == if complaint != 0 then Exits(0, Fail(w, complaint, span)) else Next(s, w)
  }

  lemma RunDivisionChecks(env: Outside, op: BinOp, t: Ty, l: nat, r: nat, operand: Ty, span: Span, s: map<nat, int>, w: World, fuel: nat)
    requires op == DivOp || op == ModOp
    requires Bounds(operand.I?, Get(s, l)) && Bounds(operand.I?, Get(s, r)) && t.I? == operand.I?
    ensures ChecksRun(env, op, t, l, r, operand, span, s, w, fuel)
  {
    var zero := Guard(ZeroTest(r, operand), DIVISION_ERROR, span);
    ZeroTestValue(r, operand, s);
    assert GuardCode(DIVISION_ERROR) == DIVISION;
    StepGuard(env, ZeroTest(r, operand), DIVISION_ERROR, span, s, w, fuel);
    WalkOne(env, zero, s, w, fuel);
    if t == I(B64) {
      var quotient := Guard(QuotientTest(l, r), OVERFLOW, span);
      QuotientTestValue(l, r, s);
      StepGuard(env, QuotientTest(l, r), OVERFLOW, span, s, w, fuel);
      WalkOne(env, quotient, s, w, fuel);
      WalkAppend(env, [zero], [quotient], s, w, fuel);
    } else {
      assert CheckCode(op, t, LName(l), LName(r), operand, span) == [zero];
    }
  }

  lemma RunCountCheck(env: Outside, op: BinOp, t: Ty, l: nat, r: nat, operand: Ty, span: Span, s: map<nat, int>, w: World, fuel: nat)
    requires op == ShlOp || op == ShrOp
    requires Bounds(operand.I?, Get(s, r))
    ensures ChecksRun(env, op, t, l, r, operand, span, s, w, fuel)
  {
    hide Bounds;
    CountTestValue(r, t, operand.I?, s);
    StepGuard(env, CountTest(r, t, operand.I?), SHIFT, span, s, w, fuel);
    WalkOne(env, Guard(CountTest(r, t, operand.I?), SHIFT, span), s, w, fuel);
  }

  /** The guards return exactly the error the source reports. */
  lemma RunChecks(env: Outside, op: BinOp, t: Ty, signed: bool, l: nat, r: nat, operand: Ty, span: Span, s: map<nat, int>, w: World, fuel: nat)
    requires Alike(op, t, signed, operand) && Bounds(signed, Get(s, l)) && Bounds(operand.I?, Get(s, r))
    ensures ChecksRun(env, op, t, l, r, operand, span, s, w, fuel)
  {
    hide Bounds;
    if op == DivOp || op == ModOp {
      RunDivisionChecks(env, op, t, l, r, operand, span, s, w, fuel);
    } else if op == ShlOp || op == ShrOp {
      RunCountCheck(env, op, t, l, r, operand, span, s, w, fuel);
    } else {
      assert Walk(env, [], 0, s, w, fuel) == Next(s, w);
    }
  }

  function BinOutcome(op: BinOp, t: Ty, l: int, r: int, w: World, span: Span): Evaluated {
    if Complaint(op, t, l, r) != 0 then Err(Fail(w, Complaint(op, t, l, r), span)) else Val(Arithmetic(op, t, l, r), w)
  }

  /** A checked operation on two temporaries. */
  lemma RunBin(env: Outside, op: BinOp, t: Ty, signed: bool, operand: Ty, l: nat, r: nat, n: nat, span: Span, s: map<nat, int>, w: World, fuel: nat)
    requires l < n && r < n && Alike(op, t, signed, operand) && Bounds(signed, Get(s, l)) && Bounds(operand.I?, Get(s, r))
    ensures Computes(env, LowerBin(op, t, signed, operand, l, r, n, span), BinOutcome(op, t, Get(s, l), Get(s, r), w, span), n, s, w, fuel)
  {
    RunChecks(env, op, t, signed, l, r, operand, span, s, w, fuel);
    if op == ShrOp && t.I? {
      RunSignedShift(env, t, operand, l, r, n, span, s, w, fuel);
    } else {
      RunPlain(env, op, t, signed, operand, l, r, n, span, s, w, fuel);
    }
  }

  lemma RunSignedShift(env: Outside, t: Ty, operand: Ty, l: nat, r: nat, n: nat, span: Span, s: map<nat, int>, w: World, fuel: nat)
    requires l < n && r < n && t.I?
    requires ChecksRun(env, ShrOp, t, l, r, operand, span, s, w, fuel)
    ensures var check, shift := CheckCode(ShrOp, t, LName(l), LName(r), operand, span), LShift(n, LName(l), LName(r), t);
            Computes(env, Lowered(check + [shift], LName(n), n + 1), BinOutcome(ShrOp, t, Get(s, l), Get(s, r), w, span), n, s, w, fuel)
  {
    var check, shift := CheckCode(ShrOp, t, LName(l), LName(r), operand, span), LShift(n, LName(l), LName(r), t);
    WalkOne(env, shift, s, w, fuel);
    WalkAppend(env, check, [shift], s, w, fuel);
  }

  lemma RunPlain(env: Outside, op: BinOp, t: Ty, signed: bool, operand: Ty, l: nat, r: nat, n: nat, span: Span, s: map<nat, int>, w: World, fuel: nat)
    requires l < n && r < n && Alike(op, t, signed, operand) && Bounds(signed, Get(s, l)) && Bounds(operand.I?, Get(s, r))
    requires ChecksRun(env, op, t, l, r, operand, span, s, w, fuel) && !(op == ShrOp && t.I?)
    ensures var check := CheckCode(op, t, LName(l), LName(r), operand, span);
            Computes(env, Lowered(check, LBin(op, signed, LName(l), LName(r), t), n),
                     BinOutcome(op, t, Get(s, l), Get(s, r), w, span), n, s, w, fuel)
  {
    hide EvalL, Traps, CheckCode, Alike, Bounds, Arithmetic;
    var check := CheckCode(op, t, LName(l), LName(r), operand, span);
    assert Below(LBin(op, signed, LName(l), LName(r), t), n);
    if Complaint(op, t, Get(s, l), Get(s, r)) == 0 {
      PlainValue(op, t, signed, operand, l, r, s);
      assert Walk(env, check, 0, s, w, fuel) == Next(s, w);
      assert BinOutcome(op, t, Get(s, l), Get(s, r), w, span) == Val(Arithmetic(op, t, Get(s, l), Get(s, r)), w);
    }
  }

  lemma PlainValue(op: BinOp, t: Ty, signed: bool, operand: Ty, l: nat, r: nat, s: map<nat, int>)
    requires Alike(op, t, signed, operand) && Bounds(signed, Get(s, l)) && Bounds(operand.I?, Get(s, r))
    requires Complaint(op, t, Get(s, l), Get(s, r)) == 0 && !(op == ShrOp && t.I?)
    ensures var e := LBin(op, signed, LName(l), LName(r), t);
            EvalL(e, s) == Arithmetic(op, t, Get(s, l), Get(s, r)) && !Traps(e, s)
  {
    hide Complaint, Alike, Bounds, Operate, TruncDiv, Wrap, Bits64, Pow2;
    NeverTraps(op, t, Get(s, l), Get(s, r));
    OperatesAlike(op, t, signed, operand, Get(s, l), Get(s, r));
  }

  /** On operands of the types the checks admit the machine's operation is the source's. */
  lemma OperatesAlike(op: BinOp, t: Ty, signed: bool, operand: Ty, l: int, r: int)
    requires Alike(op, t, signed, operand) && Bounds(signed, l) && Bounds(operand.I?, r)
    ensures Operate(op, signed, t, l, r) == BinValue(op, t, l, r)
  {
    if IsComparison(op) {
      ReadingKeeps(signed, l);
      ReadingKeeps(signed, r);
    }
  }

  lemma NeverTraps(op: BinOp, t: Ty, l: int, r: int)
    requires Complaint(op, t, l, r) == 0
    ensures BinValue(op, t, l, r).Some?
  {
  }

  // ----- Short-circuit logic -----

  predicate Bounded(signed: bool, ev: Evaluated) {
    ev.Val? ==> Bounds(signed, ev.v)
  }

  lemma RunLogical(env: Outside, l: Lowered, r: Lowered, or_: bool, lv: Evaluated, rv: Evaluated, n: nat,
                   s: map<nat, int>, w: World, fuel: nat)
    requires Computes(env, l, lv, n, s, w, fuel) && n <= l.next && NoLabels(r.code) && Below(r.result, r.next)
    requires lv.Val? ==>
               forall s1 :: Agree(n, s, s1) && Get(s1, l.next) == lv.v ==> Computes(env, r, rv, l.next + 2, s1, lv.w, fuel)
    requires l.next + 2 <= r.next && Bounded(false, lv)
    ensures Computes(env, LowerLogical(l, r, or_),
                     LogicalOutcome(or_, lv, rv), n, s, w, fuel)
  {
    var k := l.next;
    var save := l.code + [LLet(k, l.result)];
    var cond := if or_ then LBin(EqOp, false, LName(k), Zero(Bool), Bool) else LName(k);
    var branch := r.code + [LLet(k + 1, r.result)];
    var tail := [LLet(k + 1, LName(k)), LIf(cond, branch, [])];
    Save(env, l, lv, n, s, w, fuel);
    if lv.Err? {
      StopsEarly(env, save, tail, s, w, lv.w, fuel);
    } else {
      var o := Walk(env, save, 0, s, w, fuel);
      WalkAppend(env, save, tail, s, w, fuel);
      RunDecision(env, k, cond, r, or_, lv, rv, n, s, o.s, fuel);
    }
  }

  lemma DecisionTail(env: Outside, k: nat, cond: LExpr, branch: seq<LStmt>, s: map<nat, int>, w: World, fuel: nat)
    requires NoLabels(branch) && !Traps(cond, s[k + 1 := Get(s, k)])
    ensures var tail, s1 := [LLet(k + 1, LName(k)), LIf(cond, branch, [])], s[k + 1 := Get(s, k)];
            NoLabels(tail) &&
            Walk(env, tail, 0, s, w, fuel) == if EvalL(cond, s1) != 0 then Walk(env, branch, 0, s1, w, fuel) else Next(s1, w)
  {
    var tail, s1 := [LLet(k + 1, LName(k)), LIf(cond, branch, [])], s[k + 1 := Get(s, k)];
    assert tail[1..] == [tail[1]];
    WalkHead(env, tail, s, w, fuel);
    WalkOne(env, tail[1], s1, w, fuel);
    assert Walk(env, [], 0, s1, w, fuel) == Next(s1, w);
  }

  lemma RunTaken(env: Outside, k: nat, cond: LExpr, r: Lowered, rv: Evaluated, n: nat, s: map<nat, int>, w: World, fuel: nat)
    requires n <= k && NoLabels(r.code) && !Traps(cond, s[k + 1 := Get(s, k)]) && EvalL(cond, s[k + 1 := Get(s, k)]) != 0
    requires Computes(env, r, rv, k + 2, s[k + 1 := Get(s, k)], w, fuel)
    ensures Holds(env, [LLet(k + 1, LName(k)), LIf(cond, r.code + [LLet(k + 1, r.result)], [])], k + 1, rv, n, s, w, fuel)
  {
    SaveIn(env, r, rv, k + 1, n, s[k + 1 := Get(s, k)], w, fuel);
    DecisionTail(env, k, cond, r.code + [LLet(k + 1, r.result)], s, w, fuel);
  }

  lemma RunSkipped(env: Outside, k: nat, cond: LExpr, branch: seq<LStmt>, n: nat, s: map<nat, int>, w: World, fuel: nat)
    requires n <= k && NoLabels(branch) && !Traps(cond, s[k + 1 := Get(s, k)]) && EvalL(cond, s[k + 1 := Get(s, k)]) == 0
    ensures Holds(env, [LLet(k + 1, LName(k)), LIf(cond, branch, [])], k + 1, Val(Get(s, k), w), n, s, w, fuel)
  {
    DecisionTail(env, k, cond, branch, s, w, fuel);
  }

  lemma RunDecision(env: Outside, k: nat, cond: LExpr, r: Lowered, or_: bool, lv: Evaluated, rv: Evaluated, n: nat,
                    s: map<nat, int>, s1: map<nat, int>, fuel: nat)
    requires lv.Val? && Agree(n, s, s1) && Get(s1, k) == lv.v && n <= k && k + 2 <= r.next && Bounded(false, lv)
    requires cond == if or_ then LBin(EqOp, false, LName(k), Zero(Bool), Bool) else LName(k)
    requires NoLabels(r.code) && Below(r.result, r.next)
    requires forall s2 :: Agree(n, s, s2) && Get(s2, k) == lv.v ==> Computes(env, r, rv, k + 2, s2, lv.w, fuel)
    ensures var tail := [LLet(k + 1, LName(k)), LIf(cond, r.code + [LLet(k + 1, r.result)], [])];
            Holds(env, tail, k + 1, if (lv.v == 0) == or_ then rv else lv, n, s1, lv.w, fuel)
  {
    var s2 := s1[k + 1 := lv.v];
    assert Agree(n, s, s2) && Get(s2, k) == lv.v;
    ConditionValue(k, or_, s2);
    if (lv.v == 0) == or_ {
      RunTaken(env, k, cond, r, rv, n, s1, lv.w, fuel);
    } else {
      RunSkipped(env, k, cond, r.code + [LLet(k + 1, r.result)], n, s1, lv.w, fuel);
    }
  }

  lemma ConditionValue(k: nat, or_: bool, s: map<nat, int>)
    requires Bounds(false, Get(s, k))
    ensures var cond := if or_ then LBin(EqOp, false, LName(k), Zero(Bool), Bool) else LName(k);
            !Traps(cond, s) && (EvalL(cond, s) != 0 <==> (Get(s, k) == 0) == or_)
  {
    ZeroTestValue(k, Bool, s);
  }

  /** Saving a computed value in a variable set aside for it. */
  lemma SaveIn(env: Outside, r: Lowered, ev: Evaluated, k: nat, n: nat, s: map<nat, int>, w: World, fuel: nat)
    requires n <= k && Computes(env, r, ev, k + 1, s, w, fuel)
    ensures Holds(env, r.code + [LLet(k, r.result)], k, ev, n, s, w, fuel)
  {
    var st := LLet(k, r.result);
    WalkAppend(env, r.code, [st], s, w, fuel);
    match ev
    case Err(_) =>
    case Val(_, _) =>
      var o := Walk(env, r.code, 0, s, w, fuel);
      WalkOne(env, st, o.s, o.w, fuel);
  }

  // ----- Accesses through handles -----

  /** The index check compares with the largest index as a 64-bit number, and a signed comparison
      takes the largest byte index for -1. */
  predicate IndexSafe(signed: bool, width: nat) {
    !signed || width > 1
  }

  /** Types and widths are as the checks of the front end leave them, and no index of a byte
      buffer is signed. */
  predicate Sized(e: NExpr)
    decreases e, 0
  {
    match e
    case Lit(_, _) => true
    case Var(_, _) => true
    case Un(op, x, t) => Sized(x) && (op == PosOp ==> TypeIn(x).I? == t.I?)
    case Bin(op, a, b, t, _) =>
      Sized(a) && Sized(b) && Alike(op, t, TypeIn(a).I?, TypeIn(b)) && (IsComparison(op) ==> t == Bool)
    case LogicalAnd(a, b) => Sized(a) && Sized(b) && TypeIn(a) == Bool && TypeIn(b) == Bool
    case LogicalOr(a, b) => Sized(a) && Sized(b) && TypeIn(a) == Bool && TypeIn(b) == Bool
    case Apply(_, args, _, _) => AllSized(args)
    case Length(h, width, _) => Sized(h) && 1 <= width <= 8
    case Element(h, i, width, _, _) => Sized(h) && Sized(i) && 1 <= width <= 8 && IndexSafe(TypeIn(i).I?, width)
    case Member(h, _, width, _, _) => Sized(h) && 1 <= width <= 8
  }

  predicate AllSized(es: seq<NExpr>)
    decreases es, 0
  {
    es == [] || (Sized(es[0]) && AllSized(es[1..]))
  }

  lemma WrapBounds(t: Ty, v: int)
    ensures Bounds(t.I?, Wrap(t, v))
  {
  }

  /** Every value is one of its type. */
  lemma {:induction false} ValueBounds(env: Outside, e: NExpr, s: map<nat, int>, w: World)
    requires Sized(e)
    ensures Bounded(TypeIn(e).I?, EvalN(env, e, s, w))
    decreases e
  {
    hide Get, IsComparison, Alike, AllSized, IndexSafe, Complaint, Fail, Arithmetic, EvalNs, After, RunOperation,
         TooFar, Scaled, Cut;
    match e
    case Lit(v, t) => WrapBounds(t, v);
    case Var(k, t) => WrapBounds(t, Get(s, k));
    case Un(op, x, t) =>
      ValueBounds(env, x, s, w);
      if EvalN(env, x, s, w).Val? {
        WrapBounds(t, -EvalN(env, x, s, w).v);
        WrapBounds(t, -EvalN(env, x, s, w).v - 1);
      }
    case Bin(_, _, _, _, _) => BinBounds(env, e, s, w);
    case LogicalAnd(a, b) =>
      if EvalN(env, a, s, w).Val? {
        ValueBounds(env, b, s, EvalN(env, a, s, w).w);
      }
    case LogicalOr(a, b) =>
      ValueBounds(env, a, s, w);
      if EvalN(env, a, s, w).Val? {
        ValueBounds(env, b, s, EvalN(env, a, s, w).w);
      }
    case Length(_, width, _) => LengthBounds(env, e, s, w);
    case _ =>
  }

  lemma BinBounds(env: Outside, e: NExpr, s: map<nat, int>, w: World)
    requires e.Bin? && (IsComparison(e.bop) ==> e.ty == Bool)
    ensures Bounded(e.ty.I?, EvalN(env, e, s, w))
  {
    var lv := EvalN(env, e.left, s, w);
    var rv := if lv.Val? then EvalN(env, e.right, s, lv.w) else lv;
    if lv.Val? && rv.Val? {
      ArithmeticBounds(e.bop, e.ty, lv.v, rv.v);
    }
  }

  lemma ArithmeticBounds(op: BinOp, t: Ty, l: int, r: int)
    requires IsComparison(op) ==> t == Bool
    ensures Bounds(t.I?, Arithmetic(op, t, l, r))
  {
    hide IsComparison, Bounded, EvalN, Pow2;
  }

  lemma LengthBounds(env: Outside, e: NExpr, s: map<nat, int>, w: World)
    requires e.Length? && 1 <= e.width <= 8
    ensures Bounded(false, EvalN(env, e, s, w))
  {
  }

  lemma SpecValue(width: nat, write: bool, s: map<nat, int>)
    requires width <= 8
    ensures EvalL(LConst(Spec(width, write), U(B64)), s) == Spec(width, write)
  {
  }

  lemma RunResolve(env: Outside, h: LExpr, offset: LExpr, width: nat, write: bool, n: nat, span: Span,
                   s: map<nat, int>, w: World, fuel: nat)
    requires Below(h, n) && Below(offset, n) && !Traps(h, s) && !Traps(offset, s) && width <= 8
    ensures Holds(env, ResolveCode(h, offset, width, write, n, span), n + 7,
                  Resolve(env, EvalL(h, s), EvalL(offset, s), width, write, w, span), n, s, w, fuel)
  {
    SpecValue(width, write, s);
    RunRuntime(env, RESOLVE, h, offset, LConst(Spec(width, write), U(B64)), n, span, s, w, fuel);
  }

  lemma LoadAfter(env: Outside, code: seq<LStmt>, k: nat, width: nat, t: Ty, ev: Evaluated, n: nat, m: nat,
                  s: map<nat, int>, w: World, fuel: nat)
    requires Holds(env, code, k, ev, n, s, w, fuel) && n <= m
    ensures Computes(env, Lowered(code + [LLoad(m, LName(k), width, t)], LName(m), m + 1),
                     match ev case Err(w') => Err(w') case Val(p, w') => Val(Wrap(t, env.load(p, width, w')), w'), n, s, w, fuel)
  {
    var load := LLoad(m, LName(k), width, t);
    WalkAppend(env, code, [load], s, w, fuel);
    var o := Walk(env, code, 0, s, w, fuel);
    if o.Next? {
      WalkOne(env, load, o.s, o.w, fuel);
    }
  }

  lemma RunLoad(env: Outside, h: LExpr, offset: LExpr, width: nat, t: Ty, n: nat, span: Span, s: map<nat, int>, w: World, fuel: nat)
    requires Below(h, n) && Below(offset, n) && !Traps(h, s) && !Traps(offset, s) && width <= 8
    ensures Computes(env, LowerLoad(h, offset, width, t, n, span),
                     LoadFrom(env, EvalL(h, s), EvalL(offset, s), width, t, w, span), n, s, w, fuel)
  {
    hide Below;
    RunResolve(env, h, offset, width, false, n, span, s, w, fuel);
    LoadAfter(env, ResolveCode(h, offset, width, false, n, span), n + 7, width, t,
              Resolve(env, EvalL(h, s), EvalL(offset, s), width, false, w, span), n, n + RUN_TEMPS, s, w, fuel);
  }

  function OffsetOutcome(ev: Evaluated, width: nat, span: Span): Evaluated {
    match ev
    case Err(w) => Err(w)
    case Val(k, w) => if TooFar(k, width) then Err(Fail(w, BOUNDS, span)) else Val(Scaled(k, width), w)
  }

  lemma ScaledValue(k: nat, signed: bool, width: nat, s: map<nat, int>)
    requires 1 <= width <= 8
    ensures !Traps(ScaledExpr(k, signed, width), s) && EvalL(ScaledExpr(k, signed, width), s) == Scaled(Get(s, k), width)
  {
    assert Wrap(U(B64), width) == width;
  }

  /** The guard on an index, for any index type and element width. */
  lemma RunIndexGuard(env: Outside, k: nat, signed: bool, width: nat, span: Span, v: int, s: map<nat, int>, w: World, fuel: nat)
    requires 1 <= width <= 8 && Get(s, k) == v
    ensures NoLabels(OffsetTail(k, signed, width, span))
    ensures Walk(env, OffsetTail(k, signed, width, span), 0, s, w, fuel) ==
            if Reading(signed, v) > Reading(signed, (W - 1) / width) then Exits(0, Fail(w, BOUNDS, span))
            else Next(s[k + 1 := Scaled(v, width)], w)
  {
    hide Reading;
    var code := OffsetTail(k, signed, width, span);
    StepGuard(env, code[0].cond, BOUNDS, span, s, w, fuel);
    assert code[1..] == [code[1]];
    WalkHead(env, code, s, w, fuel);
    WalkOne(env, code[1], s, w, fuel);
    ScaledValue(k, signed, width, s);
  }

  lemma RunOffsetTail(env: Outside, k: nat, signed: bool, width: nat, span: Span, v: int, s: map<nat, int>, w: World, fuel: nat)
    requires 1 <= width <= 8 && Get(s, k) == v && Bounds(signed, v) && IndexSafe(signed, width)
    ensures NoLabels(OffsetTail(k, signed, width, span))
    ensures Walk(env, OffsetTail(k, signed, width, span), 0, s, w, fuel) ==
            if TooFar(v, width) then Exits(0, Fail(w, BOUNDS, span)) else Next(s[k + 1 := Scaled(v, width)], w)
  {
    hide OffsetTail;
    RunIndexGuard(env, k, signed, width, span, v, s, w, fuel);
    ReadingKeeps(signed, v);
    ReadingKeeps(signed, (W - 1) / width);
  }

  /** The index of an element in a temporary, checked and scaled to a byte offset. */
  lemma RunOffset(env: Outside, index: Lowered, ev: Evaluated, signed: bool, width: nat, n: nat, span: Span, s: map<nat, int>, w: World, fuel: nat)
    requires 1 <= width <= 8 && n <= index.next && Computes(env, index, ev, n, s, w, fuel)
    requires Bounded(signed, ev) && IndexSafe(signed, width)
    ensures Computes(env, OffsetCode(index, signed, width, span), OffsetOutcome(ev, width, span), n, s, w, fuel)
  {
    hide Walk;
    var k := index.next;
    var save, tail := index.code + [LLet(k, index.result)], OffsetTail(k, signed, width, span);
    Save(env, index, ev, n, s, w, fuel);
    var o := Walk(env, save, 0, s, w, fuel);
    RunOffsetTail(env, k, signed, width, span, if o.Next? then Get(o.s, k) else 0, if o.Next? then o.s else map[k := 0], w, fuel);
    if o.Next? {
      RunOffsetTail(env, k, signed, width, span, Get(o.s, k), o.s, o.w, fuel);
    }
    WalkAppend(env, save, tail, s, w, fuel);
    assert OffsetCode(index, signed, width, span).code == save + tail;
  }

  // ----- The theorem -----

  lemma NoLabelsAppend(a: seq<LStmt>, b: seq<LStmt>)
    requires NoLabels(a) && NoLabels(b)
    ensures NoLabels(a + b)
  {
  }

  lemma RunCodeNoLabels(operation: nat, a: LExpr, b: LExpr, d: LExpr, n: nat, span: Span)
    ensures NoLabels(RunCode(operation, a, b, d, n, span))
  {
    ActionNoLabels(operation, n, span);
    NoLabelsAppend(VersionCode(operation, n + 3, span), ReadAndGuard(n + 6, Entry(operation), EqOp, 0, span));
    NoLabelsAppend(TableCode(operation, n + 3, span), ActionCode(operation, n, span));
  }

  lemma LowerBinBelow(op: BinOp, t: Ty, signed: bool, operand: Ty, l: nat, r: nat, n: nat, span: Span)
    requires l < n && r < n
    ensures var o := LowerBin(op, t, signed, operand, l, r, n, span);
            NoLabels(o.code) && Below(o.result, o.next) && o.next >= n
  {
  }

  predicate Fine(r: Lowered) {
    NoLabels(r.code) && Below(r.result, r.next)
  }

  lemma SaveThenFine(r: Lowered, rest: seq<LStmt>)
    requires NoLabels(r.code) && NoLabels(rest)
    ensures NoLabels(SaveThen(r, rest))
  {
  }

  lemma JoinBinFine(op: BinOp, t: Ty, signed: bool, operand: Ty, l: Lowered, r: Lowered, span: Span)
    requires Fine(l) && Fine(r) && l.next < r.next
    ensures Fine(JoinBin(op, t, signed, operand, l, r, span))
  {
    hide LowerBin;
    var o := LowerBin(op, t, signed, operand, l.next, r.next, r.next + 1, span);
    LowerBinBelow(op, t, signed, operand, l.next, r.next, r.next + 1, span);
    SaveThenFine(r, o.code);
    SaveThenFine(l, SaveThen(r, o.code));
  }

  lemma JoinCallFine(f: nat, r: LoweredAll, t: Ty, span: Span)
    requires NoLabels(r.code)
    ensures Fine(JoinCall(f, r, t, span))
  {
  }

  lemma JoinLengthFine(r: Lowered, width: nat, span: Span)
    requires Fine(r)
    ensures Fine(JoinLength(r, width, span))
  {
    RunCodeNoLabels(LENGTH, r.result, Zero(U(B64)), Zero(U(B64)), r.next, span);
  }

  lemma LoadFine(h: LExpr, offset: LExpr, width: nat, t: Ty, n: nat, span: Span)
    ensures Fine(LowerLoad(h, offset, width, t, n, span))
  {
    RunCodeNoLabels(RESOLVE, h, offset, LConst(Spec(width, false), U(B64)), n, span);
  }

  lemma JoinElementFine(l: Lowered, index: Lowered, signed: bool, width: nat, t: Ty, span: Span)
    requires Fine(l) && Fine(index)
    ensures Fine(JoinElement(l, index, signed, width, t, span))
  {
    var o := OffsetCode(index, signed, width, span);
    LoadFine(LName(l.next), o.result, width, t, o.next, span);
    SaveThenFine(index, OffsetTail(index.next, signed, width, span));
    SaveThenFine(l, o.code + LowerLoad(LName(l.next), o.result, width, t, o.next, span).code);
  }

  lemma JoinMemberFine(l: Lowered, offset: nat, width: nat, t: Ty, span: Span)
    requires Fine(l)
    ensures Fine(JoinMember(l, offset, width, t, span))
  {
    var p := LowerLoad(LName(l.next), LName(l.next + 1), width, t, l.next + 2, span);
    LoadFine(LName(l.next), LName(l.next + 1), width, t, l.next + 2, span);
    SaveThenFine(l, [LLet(l.next + 1, LConst(offset, U(B64)))] + p.code);
  }

  lemma LowerLogicalFine(l: Lowered, r: Lowered, or_: bool)
    requires Fine(l)
    ensures Fine(LowerLogical(l, r, or_))
  {
  }

  lemma {:induction false} LowerFine(e: NExpr, n: nat)
    requires VarsBelow(e, n)
    ensures Fine(Lower(e, n))
    decreases e, 2
  {
    match e
    case Lit(_, _) =>
    case Var(_, _) =>
    case Un(_, x, _) => LowerFine(x, n);
    case Bin(_, _, _, _, _) => TwoFine(e, n);
    case LogicalAnd(_, _) => TwoFine(e, n);
    case LogicalOr(_, _) => TwoFine(e, n);
    case Apply(f, args, t, span) =>
      LowerAllFine(args, n);
      JoinCallFine(f, LowerAll(args, n), t, span);
    case Length(h, width, span) =>
      LowerFine(h, n);
      JoinLengthFine(Lower(h, n), width, span);
    case Element(_, _, _, _, _) => TwoFine(e, n);
    case Member(h, offset, width, t, span) =>
      LowerFine(h, n);
      JoinMemberFine(Lower(h, n), offset, width, t, span);
  }

  /** The forms with two operands. */
  lemma {:induction false} TwoFine(e: NExpr, n: nat)
    requires VarsBelow(e, n) && (e.Bin? || e.LogicalAnd? || e.LogicalOr? || e.Element?)
    ensures Fine(Lower(e, n))
    decreases e, 1
  {
    hide JoinElement, NoLabels, Below, JoinUn;
    if e.Bin? {
      PairFine(e, e.left, e.right, n, 1);
      JoinBinFine(e.bop, e.ty, TypeIn(e.left).I?, TypeIn(e.right), Lower(e.left, n), Lower(e.right, Lower(e.left, n).next + 1), e.span);
    } else if e.Element? {
      PairFine(e, e.handle, e.index, n, 1);
      JoinElementFine(Lower(e.handle, n), Lower(e.index, Lower(e.handle, n).next + 1), TypeIn(e.index).I?, e.width, e.ty, e.span);
    } else {
      PairFine(e, e.left, e.right, n, 2);
      LowerLogicalFine(Lower(e.left, n), Lower(e.right, Lower(e.left, n).next + 2), e.LogicalOr?);
    }
  }

  lemma {:induction false} PairFine(e: NExpr, a: NExpr, b: NExpr, n: nat, gap: nat)
    requires a < e && b < e && VarsBelow(a, n) && VarsBelow(b, n)
    ensures Fine(Lower(a, n)) && Fine(Lower(b, Lower(a, n).next + gap))
    decreases e, 0
  {
    LowerFine(a, n);
    VarsBelowMore(b, n, Lower(a, n).next + gap);
    LowerFine(b, Lower(a, n).next + gap);
  }

  lemma {:induction false} LowerAllFine(es: seq<NExpr>, n: nat)
    requires AllVarsBelow(es, n)
    ensures NoLabels(LowerAll(es, n).code)
    decreases es, 0
  {
    if es != [] {
      var first := Lower(es[0], n);
      LowerFine(es[0], n);
      AllVarsBelowMore(es[1..], n, first.next + 1);
      LowerAllFine(es[1..], first.next + 1);
    }
  }

  lemma {:induction false} VarsBelowMore(e: NExpr, n: nat, m: nat)
    requires VarsBelow(e, n) && n <= m
    ensures VarsBelow(e, m)
    decreases e, 0
  {
    match e
    case Lit(_, _) =>
    case Var(_, _) =>
    case Un(_, x, _) => VarsBelowMore(x, n, m);
    case Bin(_, a, b, _, _) =>
      VarsBelowMore(a, n, m);
      VarsBelowMore(b, n, m);
    case LogicalAnd(a, b) =>
      VarsBelowMore(a, n, m);
      VarsBelowMore(b, n, m);
    case LogicalOr(a, b) =>
      VarsBelowMore(a, n, m);
      VarsBelowMore(b, n, m);
    case Apply(_, args, _, _) => AllVarsBelowMore(args, n, m);
    case Length(h, _, _) => VarsBelowMore(h, n, m);
    case Element(h, i, _, _, _) =>
      VarsBelowMore(h, n, m);
      VarsBelowMore(i, n, m);
    case Member(h, _, _, _, _) => VarsBelowMore(h, n, m);
  }

  lemma {:induction false} AllVarsBelowMore(es: seq<NExpr>, n: nat, m: nat)
    requires AllVarsBelow(es, n) && n <= m
    ensures AllVarsBelow(es, m)
    decreases es, 0
  {
    if es != [] {
      VarsBelowMore(es[0], n, m);
      AllVarsBelowMore(es[1..], n, m);
    }
  }

  // ----- Joining lowered parts -----

  lemma Weaken(env: Outside, r: Lowered, ev: Evaluated, n: nat, m: nat, s: map<nat, int>, w: World, fuel: nat)
    requires Computes(env, r, ev, m, s, w, fuel) && n <= m
    ensures Computes(env, r, ev, n, s, w, fuel)
  {
  }

  /** A value saved in a temporary, then code that computes out from it. */
  lemma SaveThenComputes(env: Outside, r: Lowered, ev: Evaluated, rest: Lowered, out: Evaluated, n: nat,
                         s: map<nat, int>, w: World, fuel: nat)
    requires Computes(env, r, ev, n, s, w, fuel) && n <= r.next && Fine(rest)
    requires match ev
             case Err(w') => out == Err(w')
             case Val(v, w') => forall s1 :: Agree(n, s, s1) && Get(s1, r.next) == v ==> Computes(env, rest, out, n, s1, w', fuel)
    ensures Computes(env, Lowered(SaveThen(r, rest.code), rest.result, rest.next), out, n, s, w, fuel)
  {
    var save := r.code + [LLet(r.next, r.result)];
    Save(env, r, ev, n, s, w, fuel);
    WalkAppend(env, save, rest.code, s, w, fuel);
  }

  /** What the second operand computes wherever the first has been saved. */
  ghost predicate Follows(env: Outside, lv: Evaluated, k: nat, r: Lowered, rv: Evaluated, gap: nat, n: nat, s: map<nat, int>, fuel: nat) {
    lv.Val? ==>
      forall s1 :: Agree(n, s, s1) && Get(s1, k) == lv.v ==> Computes(env, r, rv, k + gap, s1, lv.w, fuel)
  }

  function PairOutcome(op: BinOp, t: Ty, lv: Evaluated, rv: Evaluated, span: Span): Evaluated {
    if lv.Err? then lv else SecondOutcome(op, t, lv.v, rv, span)
  }

  function SecondOutcome(op: BinOp, t: Ty, l: int, rv: Evaluated, span: Span): Evaluated {
    if rv.Err? then rv else BinOutcome(op, t, l, rv.v, rv.w, span)
  }

  lemma RunJoinBin(env: Outside, op: BinOp, t: Ty, signed: bool, operand: Ty, l: Lowered, r: Lowered, span: Span, lv: Evaluated, rv: Evaluated,
                   out: Evaluated, n: nat, s: map<nat, int>, w: World, fuel: nat)
    requires Computes(env, l, lv, n, s, w, fuel) && n <= l.next && Fine(r) && l.next < r.next
    requires Follows(env, lv, l.next, r, rv, 1, n, s, fuel)
    requires Alike(op, t, signed, operand) && Bounded(signed, lv) && (lv.Val? ==> Bounded(operand.I?, rv))
    requires out == PairOutcome(op, t, lv, rv, span)
    ensures Computes(env, JoinBin(op, t, signed, operand, l, r, span), out, n, s, w, fuel)
  {
    hide LowerBin;
    var o := LowerBin(op, t, signed, operand, l.next, r.next, r.next + 1, span);
    var inner := Lowered(SaveThen(r, o.code), o.result, o.next);
    LowerBinBelow(op, t, signed, operand, l.next, r.next, r.next + 1, span);
    SaveThenFine(r, o.code);
    if lv.Val? {
      forall s1 | Agree(n, s, s1) && Get(s1, l.next) == lv.v
        ensures Computes(env, inner, out, n, s1, lv.w, fuel)
      {
        RunSecond(env, op, t, signed, operand, l.next, r, span, lv.v, rv, out, s1, lv.w, fuel);
        Weaken(env, inner, out, n, l.next + 1, s1, lv.w, fuel);
      }
    }
    SaveThenComputes(env, l, lv, inner, out, n, s, w, fuel);
  }

  lemma RunBinFrom(env: Outside, op: BinOp, t: Ty, signed: bool, operand: Ty, k: nat, j: nat, span: Span, l: int, r: int, n: nat,
                   s1: map<nat, int>, s2: map<nat, int>, w: World, fuel: nat)
    requires k < n <= j && Agree(n, s1, s2) && Get(s1, k) == l && Get(s2, j) == r
    requires Alike(op, t, signed, operand) && Bounds(signed, l) && Bounds(operand.I?, r)
    ensures Computes(env, LowerBin(op, t, signed, operand, k, j, j + 1, span), BinOutcome(op, t, l, r, w, span), n, s2, w, fuel)
  {
    hide LowerBin;
    assert Get(s2, k) == l;
    RunBin(env, op, t, signed, operand, k, j, j + 1, span, s2, w, fuel);
    Weaken(env, LowerBin(op, t, signed, operand, k, j, j + 1, span), BinOutcome(op, t, l, r, w, span), n, j + 1, s2, w, fuel);
  }

  lemma RunSecond(env: Outside, op: BinOp, t: Ty, signed: bool, operand: Ty, k: nat, r: Lowered, span: Span, v: int, rv: Evaluated,
                  out: Evaluated, s1: map<nat, int>, w: World, fuel: nat)
    requires Computes(env, r, rv, k + 1, s1, w, fuel) && Fine(r) && k < r.next && Get(s1, k) == v
    requires out == SecondOutcome(op, t, v, rv, span)
    requires Alike(op, t, signed, operand) && Bounds(signed, v) && Bounded(operand.I?, rv)
    ensures var o := LowerBin(op, t, signed, operand, k, r.next, r.next + 1, span);
            Computes(env, Lowered(SaveThen(r, o.code), o.result, o.next), out, k + 1, s1, w, fuel)
  {
    hide Computes, Fine, Get, Alike, Bounds, LowerBin, SaveThen, Agree, NoLabels, Below, BinOutcome, Walk, EvalL,
         Traps, IsComparison, CheckCode, Complaint, Fail, Arithmetic;
    var o := LowerBin(op, t, signed, operand, k, r.next, r.next + 1, span);
    LowerBinBelow(op, t, signed, operand, k, r.next, r.next + 1, span);
    if rv.Val? {
      forall s2 | Agree(k + 1, s1, s2) && Get(s2, r.next) == rv.v
        ensures Computes(env, o, out, k + 1, s2, rv.w, fuel)
      {
        RunBinFrom(env, op, t, signed, operand, k, r.next, span, v, rv.v, k + 1, s1, s2, rv.w, fuel);
      }
    }
    SaveThenComputes(env, r, rv, o, out, k + 1, s1, w, fuel);
  }

  lemma RunJoinUn(env: Outside, op: UnOp, r: Lowered, t: Ty, ev: Evaluated, n: nat, s: map<nat, int>, w: World, fuel: nat)
    requires Computes(env, r, ev, n, s, w, fuel)
    ensures Computes(env, JoinUn(op, r, t),
                     match ev case Err(w') => Err(w') case Val(v, w') => Val(UnValue(op, t, v), w'), n, s, w, fuel)
  {
  }

  lemma ByWidth(k: nat, width: nat, s: map<nat, int>)
    requires 1 <= width <= 8 && 0 <= Get(s, k) < W
    ensures var e := if width > 1 then LBin(DivOp, false, LName(k), LConst(width, U(B64)), U(B64)) else LName(k);
            !Traps(e, s) && EvalL(e, s) == if width > 1 then Get(s, k) / width else Get(s, k)
  {
    assert Wrap(U(B64), width) == width;
    if width > 1 {
      assert 0 <= Get(s, k) / width < W;
    }
  }

  lemma RunJoinLength(env: Outside, r: Lowered, width: nat, span: Span, ev: Evaluated, n: nat, s: map<nat, int>, w: World, fuel: nat)
    requires Computes(env, r, ev, n, s, w, fuel) && n <= r.next && 1 <= width <= 8
    ensures Computes(env, JoinLength(r, width, span),
                     match ev
                     case Err(w') => Err(w')
                     case Val(v, w') =>
                       (match RunOperation(env, LENGTH, v, 0, 0, w', span)
                        case Err(w'') => Err(w'')
                        case Val(k, w'') => Val(if width > 1 then k / width else k, w'')), n, s, w, fuel)
  {
    hide RunCode;
    var zero := Zero(U(B64));
    var run := RunCode(LENGTH, r.result, zero, zero, r.next, span);
    JoinLengthFine(r, width, span);
    RunCodeNoLabels(LENGTH, r.result, zero, zero, r.next, span);
    WalkAppend(env, r.code, run, s, w, fuel);
    var o := Walk(env, r.code, 0, s, w, fuel);
    if o.Next? {
      RunRuntime(env, LENGTH, r.result, zero, zero, r.next, span, o.s, o.w, fuel);
      var o2 := Walk(env, run, 0, o.s, o.w, fuel);
      if o2.Next? {
        ByWidth(r.next + 7, width, o2.s);
      }
    }
  }

  function LoadOutcome(env: Outside, h: int, offset: Evaluated, width: nat, t: Ty, span: Span): Evaluated {
    match offset
    case Err(w') => Err(w')
    case Val(k, w') => LoadFrom(env, h, k, width, t, w', span)
  }

  function ElementOutcome(env: Outside, lv: Evaluated, ov: Evaluated, width: nat, t: Ty, span: Span): Evaluated {
    if lv.Err? then lv else LoadOutcome(env, lv.v, ov, width, t, span)
  }

  /** ov is what the offset code computes wherever the handle has been saved. */
  lemma RunJoinElement(env: Outside, l: Lowered, index: Lowered, signed: bool, width: nat, t: Ty, span: Span, lv: Evaluated, ov: Evaluated,
                       out: Evaluated, n: nat, s: map<nat, int>, w: World, fuel: nat)
    requires Computes(env, l, lv, n, s, w, fuel) && n <= l.next && Fine(index) && l.next < index.next && 1 <= width <= 8
    requires Follows(env, lv, l.next, OffsetCode(index, signed, width, span), ov, 1, n, s, fuel)
    requires out == ElementOutcome(env, lv, ov, width, t, span)
    ensures Computes(env, JoinElement(l, index, signed, width, t, span), out, n, s, w, fuel)
  {
    var inner := LowerAt(LName(l.next), index, signed, width, t, span);
    LowerAtFine(LName(l.next), index, signed, width, t, span);
    if lv.Val? {
      forall s1 | Agree(n, s, s1) && Get(s1, l.next) == lv.v
        ensures Computes(env, inner, out, n, s1, lv.w, fuel)
      {
        RunElementLoad(env, l.next, index, signed, width, t, span, lv.v, ov, s1, lv.w, fuel);
        Weaken(env, inner, out, n, l.next + 1, s1, lv.w, fuel);
      }
    }
    SaveThenComputes(env, l, lv, inner, out, n, s, w, fuel);
  }

  lemma LowerAtFine(h: LExpr, index: Lowered, signed: bool, width: nat, t: Ty, span: Span)
    requires Fine(index)
    ensures Fine(LowerAt(h, index, signed, width, t, span))
  {
    var o := OffsetCode(index, signed, width, span);
    LoadFine(h, o.result, width, t, o.next, span);
    SaveThenFine(index, OffsetTail(index.next, signed, width, span));
    NoLabelsAppend(o.code, LowerLoad(h, o.result, width, t, o.next, span).code);
  }

  lemma RunElementLoad(env: Outside, k: nat, index: Lowered, signed: bool, width: nat, t: Ty, span: Span, h: int, ov: Evaluated,
                       s1: map<nat, int>, w: World, fuel: nat)
    requires Computes(env, OffsetCode(index, signed, width, span), ov, k + 1, s1, w, fuel)
    requires k < index.next && 1 <= width <= 8 && Get(s1, k) == h
    ensures Computes(env, LowerAt(LName(k), index, signed, width, t, span), LoadOutcome(env, h, ov, width, t, span), k + 1, s1, w, fuel)
  {
    var o := OffsetCode(index, signed, width, span);
    var p := LowerLoad(LName(k), o.result, width, t, o.next, span);
    LoadFine(LName(k), o.result, width, t, o.next, span);
    WalkAppend(env, o.code, p.code, s1, w, fuel);
    var e := Walk(env, o.code, 0, s1, w, fuel);
    if e.Next? {
      RunLoad(env, LName(k), o.result, width, t, o.next, span, e.s, e.w, fuel);
      Weaken(env, p, LoadFrom(env, h, EvalL(o.result, e.s), width, t, e.w, span), k + 1, o.next, e.s, e.w, fuel);
    }
  }

  lemma RunJoinMember(env: Outside, l: Lowered, offset: nat, width: nat, t: Ty, span: Span, lv: Evaluated, n: nat,
                      s: map<nat, int>, w: World, fuel: nat)
    requires Computes(env, l, lv, n, s, w, fuel) && n <= l.next && 1 <= width <= 8
    ensures Computes(env, JoinMember(l, offset, width, t, span),
                     match lv
                     case Err(w') => Err(w')
                     case Val(v, w') => LoadFrom(env, v, Wrap(U(B64), offset), width, t, w', span), n, s, w, fuel)
  {
    hide Computes;
    var k := l.next + 1;
    var p := LowerLoad(LName(l.next), LName(k), width, t, k + 1, span);
    var first := [LLet(k, LConst(offset, U(B64)))];
    var inner := Lowered(first + p.code, p.result, p.next);
    LoadFine(LName(l.next), LName(k), width, t, k + 1, span);
    NoLabelsAppend(first, p.code);
    if lv.Val? {
      var out := LoadFrom(env, lv.v, Wrap(U(B64), offset), width, t, lv.w, span);
      forall s1 | Agree(n, s, s1) && Get(s1, l.next) == lv.v
        ensures Computes(env, inner, out, n, s1, lv.w, fuel)
      {
        RunMemberLoad(env, l.next, offset, width, t, span, lv.v, n, s1, lv.w, fuel);
      }
      SaveThenComputes(env, l, lv, inner, out, n, s, w, fuel);
    } else {
      SaveThenComputes(env, l, lv, inner, lv, n, s, w, fuel);
    }
  }

  lemma RunMemberLoad(env: Outside, h: nat, offset: nat, width: nat, t: Ty, span: Span, v: int, n: nat,
                      s: map<nat, int>, w: World, fuel: nat)
    requires n <= h && 1 <= width <= 8 && Get(s, h) == v
    ensures var first, p := [LLet(h + 1, LConst(offset, U(B64)))], LowerLoad(LName(h), LName(h + 1), width, t, h + 2, span);
            Computes(env, Lowered(first + p.code, p.result, p.next),
                     LoadFrom(env, v, Wrap(U(B64), offset), width, t, w, span), n, s, w, fuel)
  {
    hide LowerLoad;
    var k := h + 1;
    var first, p := [LLet(k, LConst(offset, U(B64)))], LowerLoad(LName(h), LName(k), width, t, k + 1, span);
    var s1 := s[k := Wrap(U(B64), offset)];
    WalkOne(env, first[0], s, w, fuel);
    LoadFine(LName(h), LName(k), width, t, k + 1, span);
    RunLoad(env, LName(h), LName(k), width, t, k + 1, span, s1, w, fuel);
    WalkAppend(env, first, p.code, s, w, fuel);
  }

  // ----- Calls -----

  ghost predicate ComputesAll(env: Outside, r: LoweredAll, ev: Evaluations, n: nat, s: map<nat, int>, w: World, fuel: nat) {
    && NoLabels(r.code)
    && var o := Walk(env, r.code, 0, s, w, fuel);
       match ev
       case Errs(w') => o == Exits(0, w')
       case Vals(vs, w') => o.Next? && o.w == w' && Agree(n, s, o.s) && EvalLs(r.results, o.s) == vs
  }

  function FirstThen(first: Lowered, rest: LoweredAll): LoweredAll {
    LoweredAll(SaveThen(first, rest.code), [LName(first.next)] + rest.results, rest.next)
  }

  lemma RunFirstThen(env: Outside, first: Lowered, rest: LoweredAll, ev: Evaluated, evs: Evaluations, n: nat,
                     s: map<nat, int>, w: World, fuel: nat)
    requires Computes(env, first, ev, n, s, w, fuel) && n <= first.next && NoLabels(rest.code)
    requires ev.Val? ==>
               forall s1 :: Agree(n, s, s1) && Get(s1, first.next) == ev.v ==> ComputesAll(env, rest, evs, first.next + 1, s1, ev.w, fuel)
    ensures ComputesAll(env, FirstThen(first, rest),
                        if ev.Err? then Errs(ev.w) else if evs.Errs? then evs else Vals([ev.v] + evs.vs, evs.w), n, s, w, fuel)
  {
    var k := first.next;
    var save := first.code + [LLet(k, first.result)];
    Save(env, first, ev, n, s, w, fuel);
    WalkAppend(env, save, rest.code, s, w, fuel);
    if ev.Val? {
      var s1 := Walk(env, save, 0, s, w, fuel).s;
      assert ComputesAll(env, rest, evs, k + 1, s1, ev.w, fuel);
      if evs.Vals? {
        var s2 := Walk(env, rest.code, 0, s1, ev.w, fuel).s;
        assert Get(s2, k) == ev.v;
        assert ([LName(k)] + rest.results)[1..] == rest.results;
      }
    }
  }

  lemma RunJoinCall(env: Outside, f: nat, r: LoweredAll, t: Ty, span: Span, evs: Evaluations, n: nat, s: map<nat, int>, w: World, fuel: nat)
    requires ComputesAll(env, r, evs, n, s, w, fuel) && n <= r.next
    ensures Computes(env, JoinCall(f, r, t, span),
                     match evs
                     case Errs(w') => Err(w')
                     case Vals(vs, w') =>
                       var answer := env.call(f, vs, w');
                       Answered(t, answer, After(w', answer, Action.Called(f, vs)), span), n, s, w, fuel)
  {
    var call := LCall(r.next, f, r.results, t);
    var tail := [call] + Propagate(r.next + 1, span);
    WalkAppend(env, r.code, tail, s, w, fuel);
    var o := Walk(env, r.code, 0, s, w, fuel);
    if o.Next? {
      var answer := env.call(f, evs.vs, o.w);
      RunAction(env, call, r.next, t, answer, After(o.w, answer, Action.Called(f, evs.vs)), n, span, o.s, o.w, fuel);
    }
  }

  // ----- The theorem for expressions -----

  /** The lowered code of an expression computes its source value with the source's effects, or
      returns zero with the error the source reports first. */
  lemma {:induction false} LowerComputes(env: Outside, e: NExpr, n: nat, s: map<nat, int>, w: World, fuel: nat)
    requires VarsBelow(e, n) && Sized(e)
    ensures Computes(env, Lower(e, n), EvalN(env, e, s, w), n, s, w, fuel)
    decreases e, 3
  {
    match e
    case Lit(_, _) => assert Walk(env, [], 0, s, w, fuel) == Next(s, w);
    case Var(_, _) => assert Walk(env, [], 0, s, w, fuel) == Next(s, w);
    case Un(op, x, t) =>
      LowerComputes(env, x, n, s, w, fuel);
      RunJoinUn(env, op, Lower(x, n), t, EvalN(env, x, s, w), n, s, w, fuel);
    case Bin(_, _, _, _, _) => BinComputes(env, e, n, s, w, fuel);
    case LogicalAnd(_, _) => LogicalComputes(env, e, n, s, w, fuel);
    case LogicalOr(_, _) => LogicalComputes(env, e, n, s, w, fuel);
    case Apply(_, _, _, _) => CallComputes(env, e, n, s, w, fuel);
    case Length(_, _, _) => HandleComputes(env, e, n, s, w, fuel);
    case Element(_, _, _, _, _) => ElementComputes(env, e, n, s, w, fuel);
    case Member(_, _, _, _, _) => HandleComputes(env, e, n, s, w, fuel);
  }

  lemma BinMeaning(env: Outside, e: NExpr, s: map<nat, int>, w: World, lv: Evaluated, rv: Evaluated)
    requires e.Bin? && lv == EvalN(env, e.left, s, w) && rv == if lv.Val? then EvalN(env, e.right, s, lv.w) else lv
    ensures EvalN(env, e, s, w) == PairOutcome(e.bop, e.ty, lv, rv, e.span)
  {
  }

  lemma ElementMeaning(env: Outside, e: NExpr, s: map<nat, int>, w: World, lv: Evaluated, iv: Evaluated)
    requires e.Element? && lv == EvalN(env, e.handle, s, w) && iv == if lv.Val? then EvalN(env, e.index, s, lv.w) else lv
    ensures EvalN(env, e, s, w) == ElementOutcome(env, lv, OffsetOutcome(iv, e.width, e.span), e.width, e.ty, e.span)
  {
  }

  lemma {:induction false} BinComputes(env: Outside, e: NExpr, n: nat, s: map<nat, int>, w: World, fuel: nat)
    requires VarsBelow(e, n) && Sized(e) && e.Bin?
    ensures Computes(env, Lower(e, n), EvalN(env, e, s, w), n, s, w, fuel)
    decreases e, 2
  {
    hide Lower;
    var lv, rv := PairComputes(env, e, e.left, e.right, n, 1, s, w, fuel);
    BinMeaning(env, e, s, w, lv, rv);
    ValueBounds(env, e.left, s, w);
    if lv.Val? {
      ValueBounds(env, e.right, s, lv.w);
    }
    JoinedBin(env, e, n, Lower(e.left, n), Lower(e.right, Lower(e.left, n).next + 1), lv, rv, EvalN(env, e, s, w), s, w, fuel);
  }

  lemma JoinedBin(env: Outside, e: NExpr, n: nat, l: Lowered, r: Lowered, lv: Evaluated, rv: Evaluated, out: Evaluated,
                  s: map<nat, int>, w: World, fuel: nat)
    requires e.Bin? && Sized(e) && l == Lower(e.left, n) && r == Lower(e.right, l.next + 1)
    requires Computes(env, l, lv, n, s, w, fuel) && n <= l.next && Fine(r) && l.next < r.next
    requires Follows(env, lv, l.next, r, rv, 1, n, s, fuel)
    requires Bounded(TypeIn(e.left).I?, lv) && (lv.Val? ==> Bounded(TypeIn(e.right).I?, rv))
    requires out == PairOutcome(e.bop, e.ty, lv, rv, e.span)
    ensures Computes(env, Lower(e, n), out, n, s, w, fuel)
  {
    hide JoinBin, Fine, Follows, Bounded, TypeIn, PairOutcome, Alike, IsComparison, AllSized, IndexSafe, JoinUn,
         LowerLogical, JoinCall, LowerAll;
    RunJoinBin(env, e.bop, e.ty, TypeIn(e.left).I?, TypeIn(e.right), l, r, e.span, lv, rv, out, n, s, w, fuel);
  }

  lemma {:induction false} LogicalComputes(env: Outside, e: NExpr, n: nat, s: map<nat, int>, w: World, fuel: nat)
    requires VarsBelow(e, n) && Sized(e) && (e.LogicalAnd? || e.LogicalOr?)
    ensures Computes(env, Lower(e, n), EvalN(env, e, s, w), n, s, w, fuel)
    decreases e, 2
  {
    hide Lower;
    var lv, rv := PairComputes(env, e, e.left, e.right, n, 2, s, w, fuel);
    ValueBounds(env, e.left, s, w);
    JoinedLogical(env, e, n, Lower(e.left, n), Lower(e.right, Lower(e.left, n).next + 2), lv, rv, s, w, fuel);
    LogicalMeaning(env, e, s, w, lv, rv);
  }

  function LogicalOutcome(or_: bool, lv: Evaluated, rv: Evaluated): Evaluated {
    match lv case Err(w') => Err(w') case Val(v, w') => if (v == 0) == or_ then rv else Val(v, w')
  }

  lemma LogicalMeaning(env: Outside, e: NExpr, s: map<nat, int>, w: World, lv: Evaluated, rv: Evaluated)
    requires (e.LogicalAnd? || e.LogicalOr?) && lv == EvalN(env, e.left, s, w)
    requires rv == if lv.Val? then EvalN(env, e.right, s, lv.w) else lv
    ensures EvalN(env, e, s, w) == LogicalOutcome(e.LogicalOr?, lv, rv)
  {
  }

  lemma JoinedLogical(env: Outside, e: NExpr, n: nat, l: Lowered, r: Lowered, lv: Evaluated, rv: Evaluated,
                      s: map<nat, int>, w: World, fuel: nat)
    requires (e.LogicalAnd? || e.LogicalOr?) && l == Lower(e.left, n) && r == Lower(e.right, l.next + 2)
    requires Computes(env, l, lv, n, s, w, fuel) && n <= l.next && Fine(r) && l.next + 2 <= r.next
    requires Follows(env, lv, l.next, r, rv, 2, n, s, fuel) && Bounded(false, lv)
    ensures Computes(env, Lower(e, n), LogicalOutcome(e.LogicalOr?, lv, rv), n, s, w, fuel)
  {
    hide TypeIn, JoinCall, LowerAll, JoinLength, JoinElement;
    RunLogical(env, l, r, e.LogicalOr?, lv, rv, n, s, w, fuel);
  }

  lemma {:induction false} CallComputes(env: Outside, e: NExpr, n: nat, s: map<nat, int>, w: World, fuel: nat)
    requires VarsBelow(e, n) && Sized(e) && e.Apply?
    ensures Computes(env, Lower(e, n), EvalN(env, e, s, w), n, s, w, fuel)
    decreases e, 2
  {
    AllComputes(env, e.args, n, s, w, fuel);
    RunJoinCall(env, e.f, LowerAll(e.args, n), e.ty, e.span, EvalNs(env, e.args, s, w), n, s, w, fuel);
  }

  lemma {:induction false} HandleComputes(env: Outside, e: NExpr, n: nat, s: map<nat, int>, w: World, fuel: nat)
    requires VarsBelow(e, n) && Sized(e) && (e.Length? || e.Member?)
    ensures Computes(env, Lower(e, n), EvalN(env, e, s, w), n, s, w, fuel)
    decreases e, 2
  {
    var h := e.handle;
    LowerComputes(env, h, n, s, w, fuel);
    if e.Length? {
      RunJoinLength(env, Lower(h, n), e.width, e.span, EvalN(env, h, s, w), n, s, w, fuel);
    } else {
      RunJoinMember(env, Lower(h, n), e.offset, e.width, e.ty, e.span, EvalN(env, h, s, w), n, s, w, fuel);
    }
  }

  lemma {:induction false} ElementComputes(env: Outside, e: NExpr, n: nat, s: map<nat, int>, w: World, fuel: nat)
    requires VarsBelow(e, n) && Sized(e) && e.Element?
    ensures Computes(env, Lower(e, n), EvalN(env, e, s, w), n, s, w, fuel)
    decreases e, 2
  {
    hide Lower;
    var lv, iv := PairComputes(env, e, e.handle, e.index, n, 1, s, w, fuel);
    ElementMeaning(env, e, s, w, lv, iv);
    if lv.Val? {
      ValueBounds(env, e.index, s, lv.w);
    }
    JoinedElement(env, e, n, Lower(e.handle, n), Lower(e.index, Lower(e.handle, n).next + 1), lv, iv, EvalN(env, e, s, w), s, w, fuel);
  }

  lemma JoinedElement(env: Outside, e: NExpr, n: nat, l: Lowered, i: Lowered, lv: Evaluated, iv: Evaluated, out: Evaluated,
                      s: map<nat, int>, w: World, fuel: nat)
    requires e.Element? && Sized(e) && l == Lower(e.handle, n) && i == Lower(e.index, l.next + 1)
    requires Computes(env, l, lv, n, s, w, fuel) && n <= l.next && Fine(i) && l.next < i.next
    requires Follows(env, lv, l.next, i, iv, 1, n, s, fuel) && (lv.Val? ==> Bounded(TypeIn(e.index).I?, iv))
    requires out == ElementOutcome(env, lv, OffsetOutcome(iv, e.width, e.span), e.width, e.ty, e.span)
    ensures Computes(env, Lower(e, n), out, n, s, w, fuel)
  {
    hide JoinElement, Computes;
    OffsetFollows(env, l, i, TypeIn(e.index).I?, e.width, e.span, lv, iv, n, s, fuel);
    RunJoinElement(env, l, i, TypeIn(e.index).I?, e.width, e.ty, e.span, lv, OffsetOutcome(iv, e.width, e.span), out, n, s, w, fuel);
  }

  lemma OffsetFollows(env: Outside, l: Lowered, i: Lowered, signed: bool, width: nat, span: Span, lv: Evaluated, iv: Evaluated,
                      n: nat, s: map<nat, int>, fuel: nat)
    requires l.next < i.next && 1 <= width <= 8 && IndexSafe(signed, width)
    requires Follows(env, lv, l.next, i, iv, 1, n, s, fuel) && (lv.Val? ==> Bounded(signed, iv))
    ensures Follows(env, lv, l.next, OffsetCode(i, signed, width, span), OffsetOutcome(iv, width, span), 1, n, s, fuel)
  {
    hide Computes, OffsetCode;
    if lv.Val? {
      forall s1 | Agree(n, s, s1) && Get(s1, l.next) == lv.v
        ensures Computes(env, OffsetCode(i, signed, width, span), OffsetOutcome(iv, width, span), l.next + 1, s1, lv.w, fuel)
      {
        RunOffset(env, i, iv, signed, width, l.next + 1, span, s1, lv.w, fuel);
      }
    }
  }

  /** Two operands: the second computes its source value wherever the first has been saved. */
  lemma {:induction false} PairComputes(env: Outside, e: NExpr, a: NExpr, b: NExpr, n: nat, gap: nat, s: map<nat, int>, w: World, fuel: nat)
    returns (lv: Evaluated, rv: Evaluated)
    requires a < e && b < e && VarsBelow(a, n) && VarsBelow(b, n) && Sized(a) && Sized(b) && gap > 0
    ensures lv == EvalN(env, a, s, w) && rv == if lv.Val? then EvalN(env, b, s, lv.w) else lv
    ensures Computes(env, Lower(a, n), lv, n, s, w, fuel) && n <= Lower(a, n).next
    ensures Fine(Lower(b, Lower(a, n).next + gap)) && Lower(a, n).next + gap <= Lower(b, Lower(a, n).next + gap).next
    ensures Follows(env, lv, Lower(a, n).next, Lower(b, Lower(a, n).next + gap), rv, gap, n, s, fuel)
    decreases e, 1
  {
    hide Lower;
    var k := Lower(a, n).next;
    lv := EvalN(env, a, s, w);
    rv := if lv.Val? then EvalN(env, b, s, lv.w) else lv;
    LowerComputes(env, a, n, s, w, fuel);
    VarsBelowMore(b, n, k + gap);
    LowerFine(b, k + gap);
    if lv.Val? {
      forall s1 | Agree(n, s, s1) && Get(s1, k) == lv.v
        ensures Computes(env, Lower(b, k + gap), rv, k + gap, s1, lv.w, fuel)
      {
        LowerComputes(env, b, k + gap, s1, lv.w, fuel);
        SameMeaning(env, b, n, s, s1, lv.w);
      }
    }
  }

  lemma {:induction false} AllComputes(env: Outside, es: seq<NExpr>, n: nat, s: map<nat, int>, w: World, fuel: nat)
    requires AllVarsBelow(es, n) && AllSized(es)
    ensures ComputesAll(env, LowerAll(es, n), EvalNs(env, es, s, w), n, s, w, fuel)
    decreases es, 0
  {
    hide Lower, EvalN;
    if es == [] {
      assert Walk(env, [], 0, s, w, fuel) == Next(s, w);
    } else {
      var first := Lower(es[0], n);
      var rest := LowerAll(es[1..], first.next + 1);
      var ev := EvalN(env, es[0], s, w);
      var evs := if ev.Val? then EvalNs(env, es[1..], s, ev.w) else Errs(ev.w);
      LowerComputes(env, es[0], n, s, w, fuel);
      AllVarsBelowMore(es[1..], n, first.next + 1);
      LowerAllFine(es[1..], first.next + 1);
      if ev.Val? {
        forall s1 | Agree(n, s, s1) && Get(s1, first.next) == ev.v
          ensures ComputesAll(env, rest, evs, first.next + 1, s1, ev.w, fuel)
        {
          AllComputes(env, es[1..], first.next + 1, s1, ev.w, fuel);
          SameMeanings(env, es[1..], n, s, s1, ev.w);
        }
      }
      RunFirstThen(env, first, rest, ev, evs, n, s, w, fuel);
    }
  }
}