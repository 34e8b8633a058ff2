/** The machine operations at the root of an expression compute the typed source operations. */
module Operations {
  import opened Words
  import opened X86
  import opened Codegen

  lemma RunOne(env: Env, i: Instr, m: Machine)
    requires Ok(m) && GoodInstr(i) && !i.Jcc? && !i.Jmp? && !m.stopped
    ensures Block([i]) && Run(env, [i], m) == Exec(env, i, m)
  {
    assert [i][1..] == [];
  }

  lemma RunCons(env: Env, i: Instr, rest: seq<Instr>, m: Machine)
    requires Ok(m) && GoodInstr(i) && !i.Jcc? && !i.Jmp? && Good(rest) && !m.stopped
    ensures Good([i] + rest) && Run(env, [i] + rest, m) == Run(env, rest, Exec(env, i, m))
  {
    var code := [i] + rest;
    assert forall k :: 0 < k < |code| ==> code[k] == rest[k - 1];
    assert code[0] == i;
    assert code[1..] == rest;
  }

  lemma RunTwo(env: Env, a: Instr, b: Instr, m: Machine)
    requires Ok(m) && GoodInstr(a) && !a.Jcc? && !a.Jmp? && GoodInstr(b) && !b.Jcc? && !b.Jmp? && !m.stopped
    requires !Exec(env, a, m).stopped
    ensures Block([a, b]) && Run(env, [a, b], m) == Exec(env, b, Exec(env, a, m))
  {
    RunOne(env, b, Exec(env, a, m));
    RunCons(env, a, [b], m);
    assert [a, b] == [a] + [b];
  }

  /** m' differs from m at most in the registers of ws and the flags. */
  ghost predicate OnlyWrites(ws: set<nat>, m: Machine, m': Machine) {
    && Ok(m) && Ok(m') && m'.mem == m.mem && m'.trace == m.trace && m'.returned == m.returned
    && forall r :: 0 <= r < REGS && r !in ws ==> m'.regs[r] == m.regs[r]
  }

  /** The registers that the code of a binary operation writes, the reload of its left operand included. */
  function OpWrites(op: BinOp): set<nat> {
    if op == DivOp || op == ModOp then {RAX, R10, RDX, R11}
    else if op == ShlOp || op == ShrOp then {RAX, R10, RCX}
    else {RAX, R10}
  }

  lemma ExecNormalize(env: Env, t: Ty, m: Machine)
    requires Ok(m) && !m.stopped && NormalizeCode(t) != []
    ensures var i := NormalizeCode(t)[0];
            && NormalizeCode(t) == [i] && GoodInstr(i) && !i.Jcc? && !i.Jmp?
            && var m' := Exec(env, i, m);
               OnlyWrites({RAX}, m, m') && !m'.stopped && m'.regs[RAX] == Normalize(t, m.regs[RAX])
  {
  }

  lemma NothingToNormalize(t: Ty, x: nat)
    requires NormalizeCode(t) == [] && x < W
    ensures Normalize(t, x) == x
  {
  }

  lemma RunNormalize(env: Env, t: Ty, n: int, m: Machine)
    requires Ok(m) && !m.stopped && m.regs[RAX] == Rep(n)
    ensures Block(NormalizeCode(t))
    ensures var m' := Run(env, NormalizeCode(t), m);
            OnlyWrites({RAX}, m, m') && !m'.stopped && m'.regs[RAX] == Rep(Wrap(t, n))
  {
    NormalizeIsWrap(t, n);
    if NormalizeCode(t) == [] {
      NothingToNormalize(t, m.regs[RAX]);
    } else {
      ExecNormalize(env, t, m);
      RunOne(env, NormalizeCode(t)[0], m);
    }
  }

  // ----- Comparisons -----

  /** An instruction of this signedness takes the word that represents v for v. */
  predicate Reads(signed: bool, v: int) {
    if signed then -HALF <= v < HALF else 0 <= v < W
  }

  lemma ReadsRep(signed: bool, v: int)
    requires Reads(signed, v)
    ensures if signed then Signed(Rep(v)) == v else Rep(v) == v
  {
  }

  /** What the operands of an operation must be for its instructions. Equality compares words; an
      ordering goes by the type of its left operand and a division by its own; sums, products, bit
      operations and shifts work on the words whatever they stand for. */
  predicate OperandsRead(op: BinOp, t: Ty, operand: Ty, l: int, r: int) {
    if op == EqOp || op == NeOp then -W < l - r < W
    else if IsComparison(op) then Reads(operand.I?, l) && Reads(operand.I?, r)
    else if op == DivOp || op == ModOp then
      Reads(t.I?, l) && Reads(t.I?, r) && (t.I? && l == -HALF && r == -1 ==> t == I(B64))
    else true
  }

  /** Every value of the type is one that such an instruction reads as it is. */
  predicate ReadsType(signed: bool, t: Ty) {
    if signed then t.I? || t == Bool || (t.U? && t.width != B64) else !t.I?
  }

  /** All words are values. */
  predicate Wide(t: Ty) {
    t == U(B64) || t == Ptr
  }

  /** Operand types with which the operation is right on all their values: the same type, a bool on
      the right, or below 64 bits an unsigned right operand, such as a register, of a signed left
      one. */
  predicate OperandTypes(op: BinOp, t: Ty, left: Ty, right: Ty) {
    if op == EqOp || op == NeOp then t == Bool && !(left.I? && Wide(right)) && !(right.I? && Wide(left))
    else if IsComparison(op) then t == Bool && ReadsType(left.I?, right)
    else if op == DivOp || op == ModOp then
      ReadsType(t.I?, left) && ReadsType(t.I?, right) && (t.I? && left == I(B64) ==> t == left)
    else true
  }

  lemma TypeReads(signed: bool, t: Ty, v: int)
    requires ReadsType(signed, t) && InRange(t, v)
    ensures Reads(signed, v)
  {
  }

  lemma TypesRead(op: BinOp, t: Ty, left: Ty, right: Ty, l: int, r: int)
    requires OperandTypes(op, t, left, right) && InRange(left, l) && InRange(right, r)
    ensures OperandsRead(op, t, left, l, r)
  {
    hide InRange;
    if op == EqOp || op == NeOp {
      ValuesNear(left, right, l, r);
    } else if IsComparison(op) {
      TypeReads(left.I?, left, l);
      TypeReads(left.I?, right, r);
    } else if op == DivOp || op == ModOp {
      TypeReads(t.I?, left, l);
      TypeReads(t.I?, right, r);
      if l == -HALF {
        OnlyWidest(left);
      }
    }
  }

  lemma ValuesNear(left: Ty, right: Ty, l: int, r: int)
    requires InRange(left, l) && InRange(right, r) && !(left.I? && Wide(right)) && !(right.I? && Wide(left))
    ensures -W < l - r < W
  {
    TypeReads(left.I?, left, l);
    TypeReads(right.I?, right, r);
    if left.I? != right.I? {
      TypeReads(true, left, l);
      TypeReads(true, right, r);
    }
  }

  lemma OnlyWidest(t: Ty)
    requires InRange(t, -HALF)
    ensures t == I(B64)
  {
  }

  lemma SameWord(l: int, r: int)
    requires -W < l - r < W
    ensures Rep(l) == Rep(r) <==> l == r
  {
    assert l == W * (l / W) + Rep(l) && r == W * (r / W) + Rep(r);
  }

  lemma CompareDecides(env: Env, op: BinOp, t: Ty, operand: Ty, l: int, r: int)
    requires IsComparison(op) && OperandsRead(op, t, operand, l, r)
    ensures Holds(CondFor(op, operand.I?), CompareFlags(env, Rep(l), Rep(r))) <==> Compare(op, l, r) == 1
  {
    if op == EqOp || op == NeOp {
      SameWord(l, r);
    } else {
      OrderDecides(env, op, operand.I?, l, r);
    }
  }

  lemma OrderDecides(env: Env, op: BinOp, signed: bool, l: int, r: int)
    requires IsComparison(op) && op != EqOp && op != NeOp && Reads(signed, l) && Reads(signed, r)
    ensures Holds(CondFor(op, signed), CompareFlags(env, Rep(l), Rep(r))) <==> Compare(op, l, r) == 1
  {
    ReadsRep(signed, l);
    ReadsRep(signed, r);
    var a, b := Rep(l), Rep(r);
    if signed {
      SignedLess(a, b);
    }
  }

  lemma SignedLess(a: nat, b: nat)
    requires a < W && b < W
    ensures var d := Signed(a) - Signed(b);
            ((a - b) % W >= HALF) != (d < -HALF || d >= HALF) <==> Signed(a) < Signed(b)
  {
    if a >= b {
      assert (a - b) % W == a - b;
    } else {
      assert (a - b) % W == a - b + W;
    }
  }

  function Select(cond: Cond): seq<Instr> {
    [Jcc(cond, 2), MovImm(RAX, 0), Jmp(1), MovImm(RAX, 1)]
  }

  lemma RunJumpOver(env: Env, i: Instr, m: Machine)
    requires Ok(m) && !m.stopped && GoodInstr(i)
    ensures Good([Jmp(1), i]) && Run(env, [Jmp(1), i], m) == m
  {
    assert [Jmp(1), i][2..] == [];
  }

  /** The branch over the two constants leaves one in rax exactly when the condition holds. */
  lemma RunSelect(env: Env, cond: Cond, m: Machine)
    requires Ok(m) && !m.stopped
    ensures Block(Select(cond))
    ensures Run(env, Select(cond), m) == Put(m, RAX, if Holds(cond, m.flags) then 1 else 0)
  {
    var code := Select(cond);
    var rest := [Jmp(1), MovImm(RAX, 1)];
    assert code[3..] == [MovImm(RAX, 1)] && code[1..] == [MovImm(RAX, 0)] + rest;
    var zero := Exec(env, MovImm(RAX, 0), m);
    RunOne(env, MovImm(RAX, 1), m);
    RunJumpOver(env, MovImm(RAX, 1), zero);
    RunCons(env, MovImm(RAX, 0), rest, m);
  }

  /** A comparison of words and what it selects. */
  lemma RunCompare(env: Env, cond: Cond, m: Machine)
    requires Ok(m) && !m.stopped
    ensures Block([Cmp(R10, RAX)] + Select(cond))
    ensures Run(env, [Cmp(R10, RAX)] + Select(cond), m) ==
            Put(Exec(env, Cmp(R10, RAX), m), RAX, if Holds(cond, Exec(env, Cmp(R10, RAX), m).flags) then 1 else 0)
  {
    hide Select, Holds, Exec;
    CompareStep(env, m);
    RunSelect(env, cond, Exec(env, Cmp(R10, RAX), m));
    RunCons(env, Cmp(R10, RAX), Select(cond), m);
    RunOne(env, Cmp(R10, RAX), m);
    BlockAppend([Cmp(R10, RAX)], Select(cond));
  }

  lemma CompareStep(env: Env, m: Machine)
    requires Ok(m) && !m.stopped
    ensures Exec(env, Cmp(R10, RAX), m) == m.(flags := CompareFlags(env, m.regs[R10], m.regs[RAX]))
  {
  }

  lemma CompareIsBit(op: BinOp, l: int, r: int)
    ensures Rep(Compare(op, l, r)) == if Compare(op, l, r) == 1 then 1 else 0
  {
  }

  lemma RunComparison(env: Env, op: BinOp, t: Ty, operand: Ty, l: int, r: int, m: Machine)
    requires IsComparison(op) && OperandsRead(op, t, operand, l, r)
    requires Ok(m) && !m.stopped && m.regs[R10] == Rep(l) && m.regs[RAX] == Rep(r)
    ensures Block(OperationCode(op, t, operand))
    ensures var m' := Run(env, OperationCode(op, t, operand), m);
            OnlyWrites({RAX}, m, m') && !m'.stopped && m'.regs[RAX] == Rep(Compare(op, l, r))
  {
    hide OperandsRead, Compare, CompareFlags, Holds, Block, Run, Exec, Rep, CondFor;
    var cond := CondFor(op, operand.I?);
    assert OperationCode(op, t, operand) == [Cmp(R10, RAX)] + Select(cond);
    CompareDecides(env, op, t, operand, l, r);
    CompareIsBit(op, l, r);
    CompareStep(env, m);
    RunCompare(env, cond, m);
  }

  // ----- Division -----

  lemma DivisionBound(a: int, b: int)
    requires a >= 0 && b >= 1
    ensures 0 <= a / b <= a
    ensures b >= 2 && a >= 1 ==> a / b < a
  {
    var q := a / b;
    assert a == b * q + a % b;
    ProductBound(b, q);
  }

  lemma {:induction false} ProductBound(b: int, q: int)
    requires b >= 1
    ensures q >= 0 ==> b * q >= q && (b >= 2 ==> b * q >= 2 * q)
    ensures q < 0 ==> b * q < 0
    decreases b
  {
    if b > 1 {
      ProductBound(b - 1, q);
      assert b * q == (b - 1) * q + q;
    }
  }

  lemma QuotientBound(n: int, d: int)
    requires d != 0 && -HALF <= n < HALF
    ensures -HALF <= TruncDiv(n, d) <= HALF
    ensures TruncDiv(n, d) == HALF <==> n == -HALF && d == -1
  {
    var a, b := if n < 0 then -n else n, if d < 0 then -d else d;
    DivisionBound(a, b);
    if b == 1 {
      assert a / b == a;
    }
  }

  lemma SignedTraps(t: Ty, l: int, r: int)
    requires t.I? && OperandsRead(DivOp, t, t, l, r) && r != 0
    ensures BinValue(DivOp, t, l, r).None? <==> TruncDiv(l, r) >= HALF
    ensures TruncDiv(l, r) >= -HALF
  {
    QuotientBound(l, r);
  }

  lemma IdivideIs(env: Env, n: int, d: int, m: Machine)
    requires Ok(m) && !m.stopped && Signed(m.regs[RDX]) * W + m.regs[RAX] == n && Signed(m.regs[R11]) == d
    ensures var m' := Exec(env, Idiv(R11), m);
            && OnlyWrites({RAX, RDX}, m, m')
            && (m'.stopped <==> d == 0 || TruncDiv(n, d) < -HALF || TruncDiv(n, d) >= HALF)
            && (!m'.stopped ==> m'.regs[RAX] == Rep(TruncDiv(n, d)) && m'.regs[RDX] == Rep(n - TruncDiv(n, d) * d))
  {
    hide TruncDiv, Bits64, Pow2;
  }

  lemma ExecIdiv(env: Env, t: Ty, l: int, r: int, m: Machine)
    requires t.I? && OperandsRead(DivOp, t, t, l, r) && Ok(m) && !m.stopped
    requires Signed(m.regs[RDX]) * W + m.regs[RAX] == l && m.regs[R11] == Rep(r)
    ensures var m' := Exec(env, Idiv(R11), m);
            && OnlyWrites({RAX, RDX}, m, m')
            && (m'.stopped <==> BinValue(DivOp, t, l, r).None?)
            && (!m'.stopped ==> r != 0 && m'.regs[RAX] == Rep(TruncDiv(l, r)) && m'.regs[RDX] == Rep(l - TruncDiv(l, r) * r))
  {
    hide TruncDiv, Bits64, Pow2, Wrap, Compare, Exec, OnlyWrites;
    ReadsRep(true, r);
    IdivideIs(env, l, r, m);
    if r != 0 {
      SignedTraps(t, l, r);
    }
  }

  lemma RunSignedDivision(env: Env, t: Ty, l: int, r: int, m: Machine)
    requires t.I? && OperandsRead(DivOp, t, t, l, r)
    requires Ok(m) && !m.stopped && m.regs[RAX] == Rep(l) && m.regs[R11] == Rep(r)
    ensures Block([Cqo, Idiv(R11)])
    ensures var m' := Run(env, [Cqo, Idiv(R11)], m);
            && OnlyWrites({RAX, RDX}, m, m')
            && (m'.stopped <==> BinValue(DivOp, t, l, r).None?)
            && (!m'.stopped ==> r != 0 && m'.regs[RAX] == Rep(TruncDiv(l, r)) && m'.regs[RDX] == Rep(l - TruncDiv(l, r) * r))
  {
    ReadsRep(true, l);
    var m1 := Exec(env, Cqo, m);
    assert Signed(m1.regs[RDX]) * W + m1.regs[RAX] == l;
    ExecIdiv(env, t, l, r, m1);
    RunOne(env, Idiv(R11), m1);
    RunCons(env, Cqo, [Idiv(R11)], m);
    assert [Cqo, Idiv(R11)] == [Cqo] + [Idiv(R11)];
  }

  lemma {:induction false} XorSelf(a: nat, n: nat)
    ensures Bits(Xor, a, a, n) == 0
  {
    if n > 0 {
      XorSelf(a / 2, n - 1);
    }
  }

  lemma ExecDiv(env: Env, t: Ty, l: int, r: int, m: Machine)
    requires !t.I? && OperandsRead(DivOp, t, t, l, r)
    requires Ok(m) && !m.stopped && m.regs[RDX] == 0 && m.regs[RAX] == Rep(l) && m.regs[R11] == Rep(r)
    ensures var m' := Exec(env, Div(R11), m);
            && OnlyWrites({RAX, RDX}, m, m')
            && (m'.stopped <==> BinValue(DivOp, t, l, r).None?)
            && (!m'.stopped ==> m'.regs[RAX] == Rep(l / r) && m'.regs[RDX] == Rep(l % r))
  {
    ReadsRep(false, l);
    ReadsRep(false, r);
    if r != 0 {
      DivisionBound(l, r);
    }
  }

  lemma ExecClear(env: Env, m: Machine)
    requires Ok(m) && !m.stopped
    ensures var m' := Exec(env, Alu(XorOp, RDX, RDX), m);
            OnlyWrites({RDX}, m, m') && !m'.stopped && m'.regs[RDX] == 0 && m'.regs[RAX] == m.regs[RAX] && m'.regs[R11] == m.regs[R11]
  {
    XorSelf(m.regs[RDX], 64);
  }

  lemma RunUnsignedDivision(env: Env, t: Ty, l: int, r: int, m: Machine)
    requires !t.I? && OperandsRead(DivOp, t, t, l, r)
    requires Ok(m) && !m.stopped && m.regs[RAX] == Rep(l) && m.regs[R11] == Rep(r)
    ensures Block([Alu(XorOp, RDX, RDX), Div(R11)])
    ensures var m' := Run(env, [Alu(XorOp, RDX, RDX), Div(R11)], m);
            && OnlyWrites({RAX, RDX}, m, m')
            && (m'.stopped <==> BinValue(DivOp, t, l, r).None?)
            && (!m'.stopped ==> m'.regs[RAX] == Rep(l / r) && m'.regs[RDX] == Rep(l % r))
  {
    var clear := Alu(XorOp, RDX, RDX);
    ExecClear(env, m);
    ExecDiv(env, t, l, r, Exec(env, clear, m));
    RunTwo(env, clear, Div(R11), m);
  }

  function DivideCode(t: Ty): seq<Instr> {
    if t.I? then [Cqo, Idiv(R11)] else [Alu(XorOp, RDX, RDX), Div(R11)]
  }

  function FinishDivision(op: BinOp, t: Ty): seq<Instr> {
    (if op == ModOp then [MovReg(RAX, RDX)] else []) + NormalizeCode(t)
  }

  lemma RunFinishDivision(env: Env, op: BinOp, t: Ty, q: int, rest: int, m: Machine)
    requires Ok(m) && !m.stopped && m.regs[RAX] == Rep(q) && m.regs[RDX] == Rep(rest)
    ensures Block(FinishDivision(op, t))
    ensures var m' := Run(env, FinishDivision(op, t), m);
            OnlyWrites({RAX}, m, m') && !m'.stopped && m'.regs[RAX] == Rep(Wrap(t, if op == ModOp then rest else q))
  {
    if op == ModOp {
      RunOne(env, MovReg(RAX, RDX), m);
      var m1 := Exec(env, MovReg(RAX, RDX), m);
      RunNormalize(env, t, rest, m1);
      RunCons(env, MovReg(RAX, RDX), NormalizeCode(t), m);
      BlockAppend([MovReg(RAX, RDX)], NormalizeCode(t));
    } else {
      RunNormalize(env, t, q, m);
      assert FinishDivision(op, t) == NormalizeCode(t);
    }
  }

  lemma NormalizeBlock(t: Ty)
    ensures Block(NormalizeCode(t))
  {
  }

  lemma FinishBlock(op: BinOp, t: Ty)
    ensures Block(FinishDivision(op, t))
  {
    NormalizeBlock(t);
    if op == ModOp {
      BlockAppend([MovReg(RAX, RDX)], NormalizeCode(t));
    }
  }

  function Quotient(t: Ty, l: int, r: int): int
    requires r != 0
  {
    if t.I? then TruncDiv(l, r) else l / r
  }

  function Remainder(t: Ty, l: int, r: int): int
    requires r != 0
  {
    if t.I? then l - TruncDiv(l, r) * r else l % r
  }

  lemma RunDivide(env: Env, t: Ty, l: int, r: int, m: Machine)
    requires OperandsRead(DivOp, t, t, l, r)
    requires Ok(m) && !m.stopped && m.regs[RAX] == Rep(l) && m.regs[R11] == Rep(r)
    ensures Block(DivideCode(t))
    ensures var m' := Run(env, DivideCode(t), m);
            && OnlyWrites({RAX, RDX}, m, m')
            && (m'.stopped <==> BinValue(DivOp, t, l, r).None?)
            && (!m'.stopped ==> r != 0 && m'.regs[RAX] == Rep(Quotient(t, l, r)) && m'.regs[RDX] == Rep(Remainder(t, l, r)))
  {
    if t.I? {
      RunSignedDivision(env, t, l, r, m);
    } else {
      RunUnsignedDivision(env, t, l, r, m);
    }
  }

  lemma RunSetup(env: Env, m: Machine)
    requires Ok(m) && !m.stopped
    ensures Block([MovReg(R11, RAX), MovReg(RAX, R10)])
    ensures var m' := Run(env, [MovReg(R11, RAX), MovReg(RAX, R10)], m);
            OnlyWrites({RAX, R11}, m, m') && !m'.stopped && m'.regs[R11] == m.regs[RAX] && m'.regs[RAX] == m.regs[R10]
  {
    var first, second := MovReg(R11, RAX), MovReg(RAX, R10);
    var m1 := Exec(env, first, m);
    RunOne(env, second, m1);
    assert [first, second] == [first] + [second];
    RunCons(env, first, [second], m);
  }

  lemma DivisionValue(op: BinOp, t: Ty, l: int, r: int)
    requires op == DivOp || op == ModOp
    ensures BinValue(op, t, l, r).None? <==> BinValue(DivOp, t, l, r).None?
    ensures BinValue(op, t, l, r).Some? ==>
      r != 0 && BinValue(op, t, l, r).value == Wrap(t, if op == ModOp then Remainder(t, l, r) else Quotient(t, l, r))
  {
  }

  lemma DivisionShape(op: BinOp, t: Ty, operand: Ty)
    requires op == DivOp || op == ModOp
    ensures OperationCode(op, t, operand) == [MovReg(R11, RAX), MovReg(RAX, R10)] + (DivideCode(t) + FinishDivision(op, t))
  {
    hide NormalizeCode;
  }

  /** The code of a division or remainder in its three parts. */
  lemma DivisionParts(env: Env, op: BinOp, t: Ty, operand: Ty, m: Machine)
    requires (op == DivOp || op == ModOp) && Ok(m) && !m.stopped && Block(DivideCode(t))
    ensures Block([MovReg(R11, RAX), MovReg(RAX, R10)]) && Block(FinishDivision(op, t)) && Block(OperationCode(op, t, operand))
    ensures Run(env, OperationCode(op, t, operand), m) ==
            Run(env, FinishDivision(op, t), Run(env, DivideCode(t), Run(env, [MovReg(R11, RAX), MovReg(RAX, R10)], m)))
  {
    hide DivideCode, FinishDivision, OperationCode, Run, Block;
    var setup, tail := [MovReg(R11, RAX), MovReg(RAX, R10)], DivideCode(t) + FinishDivision(op, t);
    RunSetup(env, m);
    FinishBlock(op, t);
    BlockAppend(DivideCode(t), FinishDivision(op, t));
    BlockAppend(setup, tail);
    DivisionShape(op, t, operand);
    RunAppend(env, setup, tail, m);
    RunAppend(env, DivideCode(t), FinishDivision(op, t), Run(env, setup, m));
  }

  lemma RunDivision(env: Env, op: BinOp, t: Ty, operand: Ty, l: int, r: int, m: Machine)
    requires (op == DivOp || op == ModOp) && OperandsRead(op, t, operand, l, r)
    requires Ok(m) && !m.stopped && m.regs[R10] == Rep(l) && m.regs[RAX] == Rep(r)
    ensures Block(OperationCode(op, t, operand))
    ensures Computes(env, OperationCode(op, t, operand), m, OpWrites(op), BinValue(op, t, l, r))
  {
    hide DivideCode, FinishDivision, OperationCode, BinValue, Quotient, Remainder, Reads, Rep, Wrap, Block;
    RunSetup(env, m);
    var m2 := Run(env, [MovReg(R11, RAX), MovReg(RAX, R10)], m);
    RunDivide(env, t, l, r, m2);
    DivisionParts(env, op, t, operand, m);
    DivisionValue(op, t, l, r);
    var m3 := Run(env, DivideCode(t), m2);
    if !m3.stopped {
      RunFinishDivision(env, op, t, Quotient(t, l, r), Remainder(t, l, r), m3);
    }
  }

  /** From m the code computes the value into rax, or traps when there is none. */
  ghost predicate Computes(env: Env, code: seq<Instr>, m: Machine, ws: set<nat>, value: Option<int>)
    requires Ok(m) && Good(code)
  {
    var m' := Run(env, code, m);
    && OnlyWrites(ws, m, m')
    && (match value case None => m'.stopped case Some(v) => !m'.stopped && m'.regs[RAX] == Rep(v))
  }

  // ----- Shifts and the arithmetic unit -----

  function UnitCode(op: BinOp): seq<Instr> {
    if op == ShlOp then [MovReg(RCX, RAX), Shl(R10)]
    else if op == ShrOp then [MovReg(RCX, RAX), Shr(R10)]
    else [Alu(AluFor(op), R10, RAX)]
  }

  /** The typed result before it is cut to its type. */
  function UnitValue(op: BinOp, l: int, r: int): int {
    match op
    case AddOp => l + r
    case SubOp => l - r
    case MulOp => l * r
    case AndB => Bits64(And, Rep(l), Rep(r))
    case OrB => Bits64(Or, Rep(l), Rep(r))
    case XorB => Bits64(Xor, Rep(l), Rep(r))
    case ShlOp => l * Pow2(Rep(r) % 64)
    case _ => Rep(l) / Pow2(Rep(r) % 64)
  }

  predicate IsUnit(op: BinOp) {
    !IsComparison(op) && op != DivOp && op != ModOp
  }

  lemma AluValue(op: BinOp, l: int, r: int)
    requires IsUnit(op) && op != ShlOp && op != ShrOp
    ensures AluResult(AluFor(op), Rep(l), Rep(r)) == Rep(UnitValue(op, l, r))
  {
    RepSum(l, r);
    RepProduct(l, r);
  }

  lemma LowBits(x: nat)
    ensures x % 0x100 % 64 == x % 64
  {
    ModAdd(x % 0x100, 4 * (x / 0x100), 64);
  }

  lemma ShiftValue(op: BinOp, l: int, r: int)
    requires op == ShlOp || op == ShrOp
    ensures var k := Rep(r) % 0x100 % 64;
            (if op == ShlOp then Rep(l) * Pow2(k) else Rep(l) / Pow2(k)) % W == Rep(UnitValue(op, l, r))
  {
    LowBits(Rep(r));
    RepProduct(l, Pow2(Rep(r) % 64));
  }

  /** What a shift by cl leaves of x. */
  function Shifted(left: bool, x: nat, count: nat): int {
    var k := count % 0x100 % 64;
    (if left then x * Pow2(k) else x / Pow2(k)) % W
  }

  lemma ExecShift(env: Env, left: bool, m: Machine)
    requires Ok(m) && !m.stopped
    ensures var m' := Exec(env, if left then Shl(R10) else Shr(R10), m);
            OnlyWrites({R10}, m, m') && !m'.stopped && m'.regs[R10] == Shifted(left, m.regs[R10], m.regs[RCX])
  {
  }

  lemma RunShift(env: Env, left: bool, m: Machine)
    requires Ok(m) && !m.stopped
    ensures var code := [MovReg(RCX, RAX), if left then Shl(R10) else Shr(R10)];
            && Block(code)
            && var m' := Run(env, code, m);
               OnlyWrites({RCX, R10}, m, m') && !m'.stopped &&
               m'.regs[R10] == Shifted(left, m.regs[R10], m.regs[RAX]) && m'.regs[RCX] == m.regs[RAX]
  {
    hide Block, Shifted, Exec, Run;
    var move, shift := MovReg(RCX, RAX), if left then Shl(R10) else Shr(R10);
    MoveCount(env, m);
    ExecShift(env, left, Exec(env, move, m));
    RunTwo(env, move, shift, m);
  }

  lemma MoveCount(env: Env, m: Machine)
    requires Ok(m) && !m.stopped
    ensures Exec(env, MovReg(RCX, RAX), m) == Put(m, RCX, m.regs[RAX])
  {
  }

  lemma RunUnit(env: Env, op: BinOp, l: int, r: int, n: int, m: Machine)
    requires IsUnit(op) && Ok(m) && !m.stopped && m.regs[R10] == Rep(l) && m.regs[RAX] == Rep(r)
    requires n == UnitValue(op, l, r)
    ensures Block(UnitCode(op))
    ensures var m' := Run(env, UnitCode(op), m);
            OnlyWrites(OpWrites(op), m, m') && !m'.stopped && m'.regs[R10] == Rep(n)
  {
    hide AluFor, Pow2;
    if op == ShlOp || op == ShrOp {
      ShiftValue(op, l, r);
      RunShift(env, op == ShlOp, m);
    } else {
      AluValue(op, l, r);
      RunOne(env, Alu(AluFor(op), R10, RAX), m);
    }
  }

  lemma RunFinishUnit(env: Env, t: Ty, n: int, m: Machine)
    requires Ok(m) && !m.stopped && m.regs[R10] == Rep(n)
    ensures Block([MovReg(RAX, R10)] + NormalizeCode(t))
    ensures Computes(env, [MovReg(RAX, R10)] + NormalizeCode(t), m, {RAX}, Some(Wrap(t, n)))
  {
    var m2 := Exec(env, MovReg(RAX, R10), m);
    RunNormalize(env, t, n, m2);
    RunCons(env, MovReg(RAX, R10), NormalizeCode(t), m);
    RunOne(env, MovReg(RAX, R10), m);
    BlockAppend([MovReg(RAX, R10)], NormalizeCode(t));
  }

  lemma UnitOperationCode(op: BinOp, t: Ty, operand: Ty)
    requires IsUnit(op)
    ensures OperationCode(op, t, operand) == UnitCode(op) + ([MovReg(RAX, R10)] + NormalizeCode(t))
  {
  }

  lemma RunArithmetic(env: Env, op: BinOp, t: Ty, operand: Ty, l: int, r: int, n: int, m: Machine)
    requires IsUnit(op) && n == UnitValue(op, l, r)
    requires Ok(m) && !m.stopped && m.regs[R10] == Rep(l) && m.regs[RAX] == Rep(r)
    ensures Block(OperationCode(op, t, operand))
    ensures Computes(env, OperationCode(op, t, operand), m, OpWrites(op), Some(Wrap(t, n)))
  {
    var finish := [MovReg(RAX, R10)] + NormalizeCode(t);
    UnitOperationCode(op, t, operand);
    RunUnit(env, op, l, r, n, m);
    RunFinishUnit(env, t, n, Run(env, UnitCode(op), m));
    BlockAppend(UnitCode(op), finish);
    RunAppend(env, UnitCode(op), finish, m);
  }

  lemma UnitIsBinValue(op: BinOp, t: Ty, l: int, r: int)
    requires IsUnit(op)
    ensures BinValue(op, t, l, r) == Some(Wrap(t, UnitValue(op, l, r)))
  {
  }

  /** Every binary operation, from operands in r10 and rax that its instructions read as they are
      to its typed result in rax. */
  lemma RunOperation(env: Env, op: BinOp, t: Ty, operand: Ty, l: int, r: int, m: Machine)
    requires OperandsRead(op, t, operand, l, r)
    requires Ok(m) && !m.stopped && m.regs[R10] == Rep(l) && m.regs[RAX] == Rep(r)
    ensures Block(OperationCode(op, t, operand))
    ensures Computes(env, OperationCode(op, t, operand), m, OpWrites(op), BinValue(op, t, l, r))
  {
    if IsComparison(op) {
      RunComparison(env, op, t, operand, l, r, m);
      assert BinValue(op, t, l, r) == Some(Compare(op, l, r));
    } else if op == DivOp || op == ModOp {
      RunDivision(env, op, t, operand, l, r, m);
    } else {
      UnitIsBinValue(op, t, l, r);
      RunArithmetic(env, op, t, operand, l, r, UnitValue(op, l, r), m);
    }
  }

  predicate IsWord(t: Ty) {
    t == I(B64) || t == U(B64) || t == Ptr
  }

  /** Without an instruction a value of the first type becomes one of the second. */
  predicate Retypes(operand: Ty, t: Ty) {
    operand == t || (IsWord(operand) && IsWord(t))
  }

  lemma CarriedWord(operand: Ty, t: Ty, v: int)
    requires Retypes(operand, t) && InRange(operand, v)
    ensures Rep(Wrap(t, v)) == Rep(v)
  {
    if operand != t {
      RepWrapped(v);
    }
  }

  lemma RepWrapped(v: int)
    ensures Rep(v % W) == Rep(v) && Rep(v % W - W) == Rep(v)
  {
  }

  lemma RunUnary(env: Env, op: UnOp, t: Ty, v: int, m: Machine)
    requires Ok(m) && !m.stopped && m.regs[RAX] == Rep(v) && (op == PosOp ==> Rep(Wrap(t, v)) == Rep(v))
    ensures Block(UnaryCode(op, t))
    ensures Computes(env, UnaryCode(op, t), m, {RAX}, Some(UnValue(op, t, v)))
  {
    if op != PosOp {
      var i := UnaryCode(op, t)[0];
      var m1 := Exec(env, i, m);
      var n := if op == NegOp then -v else -v - 1;
      RepNegation(v);
      RunOne(env, i, m);
      RunNormalize(env, t, n, m1);
      RunCons(env, i, NormalizeCode(t), m);
      BlockAppend([i], NormalizeCode(t));
      assert UnaryCode(op, t) == [i] + NormalizeCode(t);
    }
  }

  lemma RepNegation(v: int)
    ensures (W - Rep(v)) % W == Rep(-v) && W - 1 - Rep(v) == Rep(-v - 1)
  {
    RepSum(0, v);
    RepSum(-1, v);
    assert (W - Rep(v)) % W == (0 - Rep(v)) % W;
  }

  /** Every operation has a value of its type. */
  lemma OperationInRange(op: BinOp, t: Ty, l: int, r: int)
    requires IsComparison(op) ==> t == Bool
    ensures BinValue(op, t, l, r).Some? ==> InRange(t, BinValue(op, t, l, r).value)
  {
    if IsUnit(op) {
      UnitIsBinValue(op, t, l, r);
      WrapInRange(t, UnitValue(op, l, r));
    } else if !IsComparison(op) && r != 0 {
      DivisionValue(op, t, l, r);
      WrapInRange(t, if op == ModOp then Remainder(t, l, r) else Quotient(t, l, r));
    }
  }
}
