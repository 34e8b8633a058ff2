/** Numeric casts. The compiler writes a cast as the bitwise and of its operand, of whatever integer
    type, with a mask of the target's width, and gives that the target type. */
module NovaCasts {
  import opened Words
  import opened X86
  import opened Codegen
  import opened NovaSource
  import opened NovaTarget
  import opened NovaLowering
  import opened NovaExpressions

  /** As many ones as the width has bits. */
  function Mask(w: Width): Quad {
    Words.Size(w) - 1
  }

  function Cast(x: NExpr, t: Ty, span: Span): NExpr {
    Bin(AndB, x, Lit(Mask(WidthOf(t)), U(B64)), t, span)
  }

  lemma SmallRemainder(x: nat, m: nat)
    requires x < m
    ensures x % m == x
  {
  }

  lemma Regroup(b: nat, r: nat, q: nat, p: nat)
    ensures b + 2 * (p * q + r) == (b + 2 * r) + q * (2 * p)
  {
  }

  lemma HalvedRemainder(a: nat, p: nat)
    requires p > 0
    ensures a % (2 * p) == a % 2 + 2 * (a / 2 % p)
  {
    var b, r, q := a % 2, a / 2 % p, a / 2 / p;
    assert a / 2 == p * q + r;
    Regroup(b, r, q, p);
    assert r < p;
    ModAdd(b + 2 * r, q, 2 * p);
    SmallRemainder(b + 2 * r, 2 * p);
  }

  lemma HalvedOnes(p: nat)
    requires p > 0
    ensures (2 * p - 1) % 2 == 1 && (2 * p - 1) / 2 == p - 1
  {
  }

  lemma HalvedMask(k: nat)
    requires k > 0
    ensures Pow2(k) == 2 * Pow2(k - 1) && (Pow2(k) - 1) % 2 == 1 && (Pow2(k) - 1) / 2 == Pow2(k - 1) - 1
  {
    HalvedOnes(Pow2(k - 1));
  }

  lemma AndStep(a: nat, b: nat, n: nat)
    requires n > 0 && b % 2 == 1
    ensures Bits(And, a, b, n) == a % 2 + 2 * Bits(And, a / 2, b / 2, n - 1)
  {
    BitsStep(And, a, b, n);
  }

  lemma MaskStep(a: nat, k: nat, n: nat)
    requires 0 < k <= n && Bits(And, a / 2, Pow2(k - 1) - 1, n - 1) == a / 2 % Pow2(k - 1)
    ensures Bits(And, a, Pow2(k) - 1, n) == a % Pow2(k)
  {
    hide Bits, Pow2;
    HalvedMask(k);
    AndStep(a, Pow2(k) - 1, n);
    HalvedRemainder(a, Pow2(k - 1));
  }

  /** A mask of k ones keeps the low k bits. */
  lemma {:induction false} MaskKeepsLow(a: nat, k: nat, n: nat)
    requires k <= n
    ensures Bits(And, a, Pow2(k) - 1, n) == a % Pow2(k)
    decreases n
  {
    hide Bits;
    if k == 0 {
      AndZero(a, 0, n);
    } else {
      MaskKeepsLow(a / 2, k - 1, n - 1);
      MaskStep(a, k, n);
    }
  }

  lemma MaskOfWidth(a: nat, w: Width)
    ensures Bits64(And, a, Mask(w)) == Cut(a, w)
  {
    hide Bits;
    Pow2Table();
    MaskKeepsLow(a, SizeBits(w), 64);
  }

  lemma CutTwice(n: int, w: Width)
    ensures Cut(Cut(n, w), w) == Cut(n, w)
  {
  }

  lemma MaskRep(w: Width)
    ensures Rep(Mask(w)) == Mask(w)
  {
  }

  /** The cut only sees the low bits, which the mask leaves alone. */
  lemma CastValue(t: Ty, v: int)
    requires t.U? || t.I?
    ensures BinValue(AndB, t, v, Mask(WidthOf(t))) == Some(Wrap(t, v))
  {
    hide Cut, Bits64, Rep, Mask;
    var w := WidthOf(t);
    MaskRep(w);
    MaskOfWidth(Rep(v), w);
    WrapRep(U(w), v);
    CutTwice(v, w);
  }

  function CastOutcome(t: Ty, ev: Evaluated): Evaluated {
    match ev case Err(w) => Err(w) case Val(v, w) => Val(Wrap(t, v), w)
  }

  /** A cast between any two integer types, signed or not, is the two's complement conversion: in
      the source meaning, and in the lowered code. Its tree is one the main theorem covers. */
  lemma CastConverts(env: Outside, x: NExpr, t: Ty, span: Span, n: nat, s: map<nat, int>, w: World, fuel: nat)
    requires VarsBelow(x, n) && Sized(x) && (t.U? || t.I?)
    ensures var cast, out := Cast(x, t, span), CastOutcome(t, EvalN(env, x, s, w));
            Sized(cast) && EvalN(env, cast, s, w) == out && Computes(env, Lower(cast, n), out, n, s, w, fuel)
  {
    hide Lower, Computes;
    var cast := Cast(x, t, span);
    assert Wrap(U(B64), Mask(WidthOf(t))) == Mask(WidthOf(t));
    match EvalN(env, x, s, w) {
      case Err(_) =>
      case Val(v, _) => CastValue(t, v);
    }
    LowerComputes(env, cast, n, s, w, fuel);
  }
}
