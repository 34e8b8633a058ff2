/** What the constant folder computes, and which literals a type admits, in numbers. */
module FoldedNumbers {
  import opened Words
  import opened X86
  import opened Codegen
  import opened Folding
  import opened WordMeaning

  /** The number that folding an operation of two 64-bit words gives; where there is none it is not
      folded. Sums and products must stay below 2^64, a difference may be negative, and a left shift
      drops what leaves the word. */
  ghost predicate Folded(op: BinOp, l: Folding.Word, r: Folding.Word, n: int) {
    match op
    case AddOp => n == l + r && n < 18446744073709551616
    case SubOp => n == l - r
    case MulOp => n == l * r && n < 18446744073709551616
    case DivOp => r != 0 && 0 <= l - n * r < r
    case ModOp => r != 0 && exists q: nat :: n == l - q * r && 0 <= n < r
    case AndB => n >= 0 && forall i: nat :: BitSet(n, i) <==> i < 64 && BitSet(l, i) && BitSet(r, i)
    case OrB => n >= 0 && forall i: nat :: BitSet(n, i) <==> i < 64 && (BitSet(l, i) || BitSet(r, i))
    case XorB => n >= 0 && forall i: nat :: BitSet(n, i) <==> i < 64 && BitSet(l, i) != BitSet(r, i)
    case ShlOp => r < 64 && 0 <= n < 18446744073709551616 && (l * Pow2(r) - n) % 18446744073709551616 == 0
    case ShrOp => r < 64 && n >= 0 && 0 <= l - n * Pow2(r) < Pow2(r)
    case EqOp => n == if l == r then 1 else 0
    case NeOp => n == if l != r then 1 else 0
    case LtOp => n == if l < r then 1 else 0
    case LeOp => n == if l <= r then 1 else 0
    case GtOp => n == if l > r then 1 else 0
    case GeOp => n == if l >= r then 1 else 0
  }

  /** The words have the same bits up to bit 63, and a number with no bits above is a word. */
  lemma {:induction false} NoBitsAbove(n: nat)
    requires forall i: nat :: BitSet(n, i) ==> i < 64
    ensures n < W
  {
    Pow2Table();
    if n >= W {
      var i := HighBit(n, 64);
    }
  }

  /** A number from 2^k on has a bit from k on. */
  lemma {:induction false} HighBit(n: nat, k: nat) returns (i: nat)
    requires n >= Pow2(k)
    ensures i >= k && BitSet(n, i)
    decreases n
  {
    if k == 0 {
      if n == 1 {
        i := 0;
        assert n / Pow2(0) == 1;
      } else {
        i := HighBit(n / 2, 0);
        BitAbove(n, i);
        i := i + 1;
      }
    } else {
      i := HighBit(n / 2, k - 1);
      BitAbove(n, i);
      i := i + 1;
    }
  }

  lemma BitsFolded(bit: BitOp, l: Folding.Word, r: Folding.Word, n: int)
    ensures n == Bits64(bit, l, r) <==>
      n >= 0 && forall i: nat :: BitSet(n, i) <==> i < 64 && match bit
                                 case And => BitSet(l, i) && BitSet(r, i)
                                 case Or => BitSet(l, i) || BitSet(r, i)
                                 case Xor => BitSet(l, i) != BitSet(r, i)
  {
    hide BitSet, Bits;
    forall i: nat
      ensures BitSet(Bits64(bit, l, r), i) <==> i < 64 && match bit
                case And => BitSet(l, i) && BitSet(r, i)
                case Or => BitSet(l, i) || BitSet(r, i)
                case Xor => BitSet(l, i) != BitSet(r, i)
    {
      BitsAt(bit, l, r, 64, i);
    }
    if n >= 0 && forall i: nat :: BitSet(n, i) <==> BitSet(Bits64(bit, l, r), i) {
      NoBitsAbove(n);
      Pow2Table();
      SameBits(n, Bits64(bit, l, r), 64);
    }
  }

  ghost predicate Agrees(op: BinOp, l: Folding.Word, r: Folding.Word, n: int) {
    Fold(op, l, r).Some? && Fold(op, l, r).value.Number() == n <==> Folded(op, l, r, n)
  }

  /** The folder gives n for an operation exactly when that is its number. */
  lemma FoldExactly(op: BinOp, l: Folding.Word, r: Folding.Word, n: int)
    ensures Fold(op, l, r).Some? && Fold(op, l, r).value.Number() == n <==> Folded(op, l, r, n)
  {
    assert Agrees(op, l, r, n) by {
      hide Agrees;
      match op
      case DivOp => DivisionAgrees(op, l, r, n);
      case ModOp => DivisionAgrees(op, l, r, n);
      case AndB => BitsAgree(op, And, l, r, n);
      case OrB => BitsAgree(op, Or, l, r, n);
      case XorB => BitsAgree(op, Xor, l, r, n);
      case ShlOp => LeftAgrees(l, r, n);
      case ShrOp => RightAgrees(l, r, n);
      case _ => SumAgrees(op, l, r, n);
    }
  }

  lemma SumAgrees(op: BinOp, l: Folding.Word, r: Folding.Word, n: int)
    requires op in {AddOp, SubOp, MulOp} || IsComparison(op)
    ensures Agrees(op, l, r, n)
  {
    if op == MulOp {
      ProductAgrees(l, r, l * r, n);
    } else if IsComparison(op) {
      ComparisonAgrees(op, l, r, n);
    }
  }

  lemma ProductAgrees(l: Folding.Word, r: Folding.Word, product: nat, n: int)
    requires product == l * r
    ensures Agrees(MulOp, l, r, n)
  {
  }

  lemma ComparisonAgrees(op: BinOp, l: Folding.Word, r: Folding.Word, n: int)
    requires IsComparison(op)
    ensures Agrees(op, l, r, n)
  {
  }

  lemma DivisionAgrees(op: BinOp, l: Folding.Word, r: Folding.Word, n: int)
    requires op == DivOp || op == ModOp
    ensures Agrees(op, l, r, n)
  {
    if r != 0 {
      QuotientFolded(l, r, n);
      SmallerQuotient(l, r);
      RemainderFolded(l, r, n);
    }
  }

  lemma BitsAgree(op: BinOp, bit: BitOp, l: Folding.Word, r: Folding.Word, n: int)
    requires (op == AndB && bit == And) || (op == OrB && bit == Or) || (op == XorB && bit == Xor)
    ensures Agrees(op, l, r, n)
  {
    hide Bits64, BitSet;
    BitsFolded(bit, l, r, n);
  }

  lemma LeftAgrees(l: Folding.Word, r: Folding.Word, n: int)
    ensures Agrees(ShlOp, l, r, n)
  {
    hide Pow2;
    RestFolded(l * Pow2(r), n);
  }

  lemma RightAgrees(l: Folding.Word, r: Folding.Word, n: int)
    ensures Agrees(ShrOp, l, r, n)
  {
    hide Pow2;
    var m := Pow2(r);
    QuotientFolded(l, m, n);
    SmallerQuotient(l, m);
  }

  lemma SmallerQuotient(l: nat, d: nat)
    requires d > 0
    ensures l / d <= l
  {
    Grows(l / d, d);
    FloorIs(l, d, l / d);
  }

  lemma Grows(q: nat, d: nat)
    requires d > 0
    ensures q <= d * q
  {
    assert d * q == q + (d - 1) * q;
  }

  lemma QuotientFolded(l: nat, d: nat, n: int)
    requires d > 0
    ensures n == l / d <==> 0 <= l - n * d < d
    ensures 0 <= l - n * d < d ==> n >= 0
  {
    assert n * d == d * n;
    FloorIs(l, d, n);
  }

  lemma RemainderFolded(l: nat, d: nat, n: int)
    requires d > 0
    ensures n == l % d <==> exists q: nat :: n == l - q * d && 0 <= n < d
  {
    assert l == (l / d) * d + l % d;
    if q: nat :| n == l - q * d && 0 <= n < d {
      QuotientFolded(l, d, q);
    }
  }

  lemma RestFolded(l: nat, n: int)
    ensures n == l % W <==> 0 <= n < W && (l - n) % W == 0
  {
    assert l == W * (l / W) + l % W;
    if 0 <= n < W && (l - n) % W == 0 {
      assert l - n == W * ((l - n) / W);
    }
  }

  // ----- Trees -----

  function Absolute(m: int): nat {
    if m < 0 then 0 - m else m
  }

  /** The number that a tree of literals and operations is folded to, if it is. A minus wants an operand
      that is not negative, the complement takes the magnitude of its operand, and other operations
      want two that are not negative. */
  ghost predicate Comes(t: Tree, n: int)
    decreases t
  {
    match t
    case Lit(v) => n == v
    case NegLit(v) => n + v == 0
    case BoolLit(b) => n == if b then 1 else 0
    case Direct(_) => false
    case Other(_) => false
    case Sign(PosOp, x) => Comes(x, n)
    case Sign(NegOp, x) => n <= 0 && Comes(x, 0 - n)
    case Sign(NotOp, x) => exists m :: Comes(x, m) && n == 18446744073709551615 - Absolute(m)
    case Bin(op, l, r) => exists a: Folding.Word, b: Folding.Word :: Comes(l, a) && Comes(r, b) && Folded(op, a, b, n)
  }

  lemma {:induction false} ConstantExactly(t: Tree, n: int)
    ensures ConstantOf(t).Some? && ConstantOf(t).value.Number() == n <==> Comes(t, n)
    ensures ConstantOf(t).Some? ==> (ConstantOf(t).value.negative <==> ConstantOf(t).value.Number() < 0)
    decreases t, 2
  {
    hide Fold, Folded;
    match t
    case Sign(_, _) => SignExactly(t, n);
    case Bin(_, _, _) => PairExactly(t, n);
    case _ =>
  }

  lemma {:induction false} SignExactly(t: Tree, n: int)
    requires t.Sign?
    ensures ConstantOf(t).Some? && ConstantOf(t).value.Number() == n <==> Comes(t, n)
    ensures ConstantOf(t).Some? ==> (ConstantOf(t).value.negative <==> ConstantOf(t).value.Number() < 0)
    decreases t, 1
  {
    hide Fold, Folded;
    if t.sign == NotOp {
      ComplementExactly(t, n);
    } else {
      ConstantExactly(t.operand, n);
      ConstantExactly(t.operand, 0 - n);
    }
  }

  lemma {:induction false} ComplementExactly(t: Tree, n: int)
    requires t.Sign? && t.sign == NotOp
    ensures ConstantOf(t).Some? && ConstantOf(t).value.Number() == n <==> Comes(t, n)
    ensures ConstantOf(t).Some? ==> (ConstantOf(t).value.negative <==> ConstantOf(t).value.Number() < 0)
    decreases t, 0
  {
    hide Fold, Folded;
    if ConstantOf(t.operand).Some? {
      ConstantExactly(t.operand, ConstantOf(t.operand).value.Number());
    }
    if Comes(t, n) {
      var m :| Comes(t.operand, m) && n == 18446744073709551615 - Absolute(m);
      ConstantExactly(t.operand, m);
    }
  }

  lemma {:induction false} PairExactly(t: Tree, n: int)
    requires t.Bin?
    ensures ConstantOf(t).Some? && ConstantOf(t).value.Number() == n <==> Comes(t, n)
    ensures ConstantOf(t).Some? ==> (ConstantOf(t).value.negative <==> ConstantOf(t).value.Number() < 0)
    decreases t, 1
  {
    hide Fold, Folded;
    if ConstantOf(t.left).Some? {
      ConstantExactly(t.left, ConstantOf(t.left).value.Number());
    }
    if ConstantOf(t.right).Some? {
      ConstantExactly(t.right, ConstantOf(t.right).value.Number());
    }
    if Comes(t, n) {
      var a: Folding.Word, b: Folding.Word :| Comes(t.left, a) && Comes(t.right, b) && Folded(t.op, a, b, n);
      ConstantExactly(t.left, a);
      ConstantExactly(t.right, b);
      FoldExactly(t.op, a, b, n);
    }
    if ConstantOf(t).Some? {
      var a, b := ConstantOf(t.left).value.value, ConstantOf(t.right).value.value;
      FoldExactly(t.op, a, b, n);
      FoldSigned(t.op, a, b);
    }
  }

  lemma FoldSigned(op: BinOp, l: Folding.Word, r: Folding.Word)
    ensures Fold(op, l, r).Some? ==> (Fold(op, l, r).value.negative <==> Fold(op, l, r).value.Number() < 0)
  {
    hide Bits64, Pow2, Compare;
  }

  /** A type admits the literals that are its values; an unsigned one none under a minus. */
  lemma LiteralExactly(t: Ty, value: Folding.Word, negative: bool)
    ensures LiteralFits(t, value, negative) <==>
      && (t.U? || t.I?) && !(negative && t.U?)
      && Least(t) <= (if negative then 0 - value else value) < Least(t) + Count(t)
  {
  }

  // ----- Types -----

  /** The integer type t has the number n. */
  predicate Holds(t: Ty, n: int) {
    (t.U? || t.I?) && Least(t) <= n < Least(t) + Count(t)
  }

  predicate Compares(op: BinOp) {
    op in {EqOp, NeOp, LtOp, LeOp, GtOp, GeOp}
  }

  /** The type that a tree gets where expected is wanted, if anything is; None when it is refused. A
      literal takes the expected type, without one u64, or i64 under a minus. The right operand is held
      against the type of the left one; nothing is expected of the left operand of a comparison. A number
      that the tree is folded to must be one of the expected type, and what is folded to zero divides
      nothing. */
  ghost function TypeFor(t: Tree, expected: Option<Ty>): Option<Ty>
    decreases t
  {
    match t
    case Lit(v) =>
      var ty := if expected.Some? then expected.value else U(B64);
      if Holds(ty, v) then Some(ty) else None
    case NegLit(v) =>
      var ty := if expected.Some? && (expected.value.U? || expected.value.I?) then expected.value else I(B64);
      if ty.I? && Holds(ty, 0 - v) then Some(ty) else None
    case BoolLit(_) => if expected.None? || expected.value == Bool then Some(Bool) else None
    case Direct(reg) =>
      if expected.None? || (expected.value != Bool && Bytes(expected.value) == Bytes(U(reg.width))) then Some(U(reg.width)) else None
    case Other(e) => if expected.None? || expected.value == TypeOf(e) then Some(TypeOf(e)) else None
    case Sign(_, _) => None
    case Bin(op, l, r) =>
      var s := TypeFor(l, if Compares(op) then None else expected);
      if s.None? || TypeFor(r, s).None? then None
      else if (forall n :: Comes(t, n) && expected.Some? ==> Holds(expected.value, n)) && !((op == DivOp || op == ModOp) && Comes(r, 0))
      then (if Compares(op) then Some(Bool) else s) else None
  }

  function Bytes(t: Ty): nat {
    match t
    case U(B8) => 1 case U(B16) => 2 case U(B32) => 4 case U(B64) => 8
    case I(B8) => 1 case I(B16) => 2 case I(B32) => 4 case I(B64) => 8
    case Bool => 1
    case Ptr => 8
  }

  function TypeGiven(t: Tree, expected: Option<Ty>): Option<Ty> {
    if Typed(t, expected, false).Some? then Some(TypeOf(Typed(t, expected, false).value)) else None
  }

  /** What the type checker accepts, and the type it gives. */
  lemma {:induction false} TypesExactly(t: Tree, expected: Option<Ty>)
    ensures TypeGiven(t, expected) == TypeFor(t, expected)
    decreases t
  {
    hide Fold, Folded, ConstantOf, Comes, LiteralFits;
    match t
    case Lit(v) => LiteralExactly(if expected.Some? then expected.value else U(B64), v, false);
    case NegLit(v) => LiteralExactly(if expected.Some? && Integer(expected.value) then expected.value else I(B64), v, true);
    case Bin(op, l, r) =>
      TypesExactly(l, LeftExpected(op, expected));
      if Typed(l, LeftExpected(op, expected), false).Some? {
        TypesExactly(r, TypeGiven(l, LeftExpected(op, expected)));
        ChecksAgree(t, expected);
      }
    case _ =>
  }

  /** The checks of the folded number and of the divisor. */
  lemma ChecksAgree(t: Tree, expected: Option<Ty>)
    requires t.Bin?
    ensures (if ConstantOf(t).Some?
             then expected.Some? ==> LiteralFits(expected.value, ConstantOf(t).value.value, ConstantOf(t).value.negative)
             else !((t.op == DivOp || t.op == ModOp) && ConstantOf(t.right).Some? && ConstantOf(t.right).value.value == 0)) <==>
            (forall n :: Comes(t, n) && expected.Some? ==> Holds(expected.value, n)) &&
            !((t.op == DivOp || t.op == ModOp) && Comes(t.right, 0))
  {
    hide Fold, Folded, Comes, LiteralFits;
    forall n
      ensures ConstantOf(t).Some? && ConstantOf(t).value.Number() == n <==> Comes(t, n)
    {
      ConstantExactly(t, n);
    }
    ConstantExactly(t, 0);
    ConstantExactly(t.right, 0);
    ZeroDivisor(t);
    if ConstantOf(t).Some? {
      var c := ConstantOf(t).value;
      assert Comes(t, c.Number());
      if expected.Some? {
        LiteralExactly(expected.value, c.value, c.negative);
        assert LiteralFits(expected.value, c.value, c.negative) <==> Holds(expected.value, c.Number());
      }
    }
  }

  lemma ZeroDivisor(t: Tree)
    requires t.Bin?
    ensures (t.op == DivOp || t.op == ModOp) && ConstantOf(t).Some? ==> ConstantOf(t.right).Some? && ConstantOf(t.right).value.value != 0
  {
  }
}
