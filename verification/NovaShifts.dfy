/** Where the guard on a shift count means what the source says, and where it does not: a constant
    count that was given the signed type of its context. */
module NovaShifts {
  import opened Words
  import opened X86
  import opened Codegen
  import opened NovaSource
  import opened NovaTarget
  import opened NovaLowering
  import opened NovaExpressions

  predicate IsShift(op: BinOp) {
    op == ShlOp || op == ShrOp
  }

  /** A shift is by less than the width of its type. */
  predicate CountFits(t: Ty, count: int) {
    0 <= count < SizeBits(WidthOf(t))
  }

  /** The guard lets exactly the fitting counts pass. */
  ghost predicate GuardKept(env: Outside, op: BinOp, t: Ty, l: nat, r: nat, operand: Ty, span: Span, s: map<nat, int>, w: World, fuel: nat) {
    Walk(env, CheckCode(op, t, LName(l), LName(r), operand, span), 0, s, w, fuel) ==
    if CountFits(t, Get(s, r)) then Next(s, w) else Exits(0, Fail(w, SHIFT, span))
  }

  lemma GuardKeptAt(env: Outside, op: BinOp, t: Ty, l: nat, r: nat, operand: Ty, span: Span, s: map<nat, int>, w: World, fuel: nat)
    requires IsShift(op) && Bounds(operand.I?, Get(s, r))
    ensures GuardKept(env, op, t, l, r, operand, span, s, w, fuel) <==> Get(s, r) >= 0
  {
    hide Walk, CheckCode;
    RunCountCheck(env, op, t, l, r, operand, span, s, w, fuel);
  }

  /** The guard is right for every count of its type if and only if that type is not signed. */
  lemma CountGuardExact(env: Outside, op: BinOp, t: Ty, l: nat, r: nat, operand: Ty, span: Span, w: World, fuel: nat)
    requires IsShift(op)
    ensures (forall v :: InRange(operand, v) ==> GuardKept(env, op, t, l, r, operand, span, map[r := v], w, fuel)) <==> !operand.I?
  {
    hide GuardKept;
    forall v | InRange(operand, v)
      ensures GuardKept(env, op, t, l, r, operand, span, map[r := v], w, fuel) <==> v >= 0
    {
      RepInRange(operand, v);
      assert Get(map[r := v], r) == v;
      GuardKeptAt(env, op, t, l, r, operand, span, map[r := v], w, fuel);
    }
    if operand.I? {
      assert InRange(operand, -1);
    } else {
      UnsignedValues(operand);
    }
  }

  lemma UnsignedValues(t: Ty)
    requires !t.I?
    ensures forall v :: InRange(t, v) ==> v >= 0
  {
  }

  /** What a shift is for: the error unless the count fits. */
  function Promised(env: Outside, e: NExpr, s: map<nat, int>, w: World): Evaluated
    requires e.Bin?
  {
    match EvalN(env, e.left, s, w)
    case Err(w') => Err(w')
    case Val(l, w') =>
      match EvalN(env, e.right, s, w')
      case Err(w'') => Err(w'')
      case Val(r, w'') => if CountFits(e.ty, r) then Val(Arithmetic(e.bop, e.ty, l, r), w'') else Err(Fail(w'', SHIFT, e.span))
  }

  /** The count that a shift comes to, if it gets that far. */
  function CountOf(env: Outside, e: NExpr, s: map<nat, int>, w: World): Evaluated
    requires e.Bin?
  {
    match EvalN(env, e.left, s, w)
    case Err(w') => Err(w')
    case Val(_, w') => EvalN(env, e.right, s, w')
  }

  /** The lowered code of a shift keeps that promise exactly when its count is not negative, which
      an unsigned count never is. */
  lemma ShiftKeptExactly(env: Outside, e: NExpr, n: nat, s: map<nat, int>, w: World, fuel: nat)
    requires e.Bin? && IsShift(e.bop) && VarsBelow(e, n) && Sized(e)
    ensures var count := CountOf(env, e, s, w);
            && (Computes(env, Lower(e, n), Promised(env, e, s, w), n, s, w, fuel) <==> (count.Val? ==> count.v >= 0))
            && (!TypeIn(e.right).I? && count.Val? ==> count.v >= 0)
  {
    hide Lower, Walk, Arithmetic;
    LowerComputes(env, e, n, s, w, fuel);
    match EvalN(env, e.left, s, w) {
      case Err(_) =>
      case Val(_, w') => ValueBounds(env, e.right, s, w');
    }
  }

  /** 1 << (0 - 1) at a given type. */
  function LastBit(t: Ty, span: Span): NExpr {
    Bin(ShlOp, Lit(1, t), Bin(SubOp, Lit(0, t), Lit(1, t), t, span), t, span)
  }

  /** For example 1 << (0 - 1): with the type of an i64 it is the least number there is, with the
      type of a u64 it is the error. */
  lemma NegativeCountPasses(env: Outside, span: Span, s: map<nat, int>, w: World, fuel: nat)
    ensures Computes(env, Lower(LastBit(I(B64), span), 0), Val(-HALF, w), 0, s, w, fuel)
    ensures Computes(env, Lower(LastBit(U(B64), span), 0), Err(Fail(w, SHIFT, span)), 0, s, w, fuel)
  {
    hide Computes, Lower;
    LastBitSigned(env, span, s, w);
    LastBitUnsigned(env, span, s, w);
    LowerComputes(env, LastBit(I(B64), span), 0, s, w, fuel);
    LowerComputes(env, LastBit(U(B64), span), 0, s, w, fuel);
  }

  lemma ShiftToLast()
    ensures BinValue(ShlOp, I(B64), 1, -1) == Some(-HALF)
  {
    assert Rep(-1) % 64 == 63;
    Pow2Table();
    assert Pow2(64) == 2 * Pow2(63);
  }

  lemma LastBitSigned(env: Outside, span: Span, s: map<nat, int>, w: World)
    ensures EvalN(env, LastBit(I(B64), span), s, w) == Val(-HALF, w)
  {
    hide Pow2;
    var t := I(B64);
    ShiftToLast();
    assert EvalN(env, Bin(SubOp, Lit(0, t), Lit(1, t), t, span), s, w) == Val(-1, w);
  }

  lemma LastBitUnsigned(env: Outside, span: Span, s: map<nat, int>, w: World)
    ensures EvalN(env, LastBit(U(B64), span), s, w) == Err(Fail(w, SHIFT, span))
  {
    var t := U(B64);
    assert EvalN(env, Bin(SubOp, Lit(0, t), Lit(1, t), t, span), s, w) == Val(W - 1, w);
  }
}
