/** What the words of both front ends mean: bits, wrapping, and division, said without the functions
    that compute them. */
module WordMeaning {
  import opened Words
  import opened X86
  import opened Codegen

  // ----- Bits -----

  /** Bit i of x. */
  predicate BitSet(x: nat, i: nat) {
    x / Pow2(i) % 2 == 1
  }

  lemma BitAbove(x: nat, i: nat)
    ensures BitSet(x, i + 1) <==> BitSet(x / 2, i)
  {
    DivideTwice(x, Pow2(i));
  }

  lemma DivideTwice(x: nat, m: nat)
    requires m > 0
    ensures x / (2 * m) == x / 2 / m
  {
    var q := x / 2 / m;
    var rest := x / 2 - m * q;
    assert x / 2 == m * q + rest && 0 <= rest < m;
    assert x == 2 * (x / 2) + x % 2;
    assert x == 2 * m * q + (2 * rest + x % 2) by {
      assert 2 * (m * q) == 2 * m * q;
    }
    QuotientIs(x, 2 * m, q, 2 * rest + x % 2);
  }

  lemma QuotientIs(x: int, m: int, q: int, rest: int)
    requires m > 0 && x == m * q + rest && 0 <= rest < m
    ensures x / m == q && x % m == rest
  {
    var p := x / m;
    assert x == m * p + x % m;
    Apart(m, p, q);
    Magnitude(m, p - q);
  }

  lemma Apart(m: int, p: int, q: int)
    ensures m * (p - q) == m * p - m * q
  {
  }

  /** Each bit of a bitwise operation depends on the same bit of the operands, and none is above. */
  lemma {:induction false} BitsAt(op: BitOp, a: nat, b: nat, n: nat, i: nat)
    ensures BitSet(Bits(op, a, b, n), i) <==>
            i < n && match op
                     case And => BitSet(a, i) && BitSet(b, i)
                     case Or => BitSet(a, i) || BitSet(b, i)
                     case Xor => BitSet(a, i) != BitSet(b, i)
    decreases n
  {
    if n > 0 {
      var low, high := Bit(op, a % 2 == 1, b % 2 == 1), Bits(op, a / 2, b / 2, n - 1);
      QuotientIs(low + 2 * high, 2, high, low);
      if i > 0 {
        BitAbove(low + 2 * high, i - 1);
        BitAbove(a, i - 1);
        BitAbove(b, i - 1);
        BitsAt(op, a / 2, b / 2, n - 1, i - 1);
      }
    } else {
      assert 0 / Pow2(i) == 0;
    }
  }

  /** The 64-bit operations of the folder, of the source meaning and of the machine. */
  lemma Bits64At(op: BitOp, a: nat, b: nat, i: nat)
    requires i < 64
    ensures BitSet(Bits64(op, a, b), i) <==>
            match op
            case And => BitSet(a, i) && BitSet(b, i)
            case Or => BitSet(a, i) || BitSet(b, i)
            case Xor => BitSet(a, i) != BitSet(b, i)
  {
    BitsAt(op, a, b, 64, i);
  }

  lemma {:induction false} BelowPow(x: nat, n: nat)
    requires x < Pow2(n)
    ensures x / Pow2(n) == 0 && (n > 0 ==> x / 2 < Pow2(n - 1))
  {
    QuotientIs(x, Pow2(n), 0, x);
  }

  /** Words with the same bits are the same word, so the bits say all. */
  lemma {:induction false} SameBits(a: nat, b: nat, n: nat)
    requires a < Pow2(n) && b < Pow2(n) && forall i :: 0 <= i < n ==> (BitSet(a, i) <==> BitSet(b, i))
    ensures a == b
    decreases n
  {
    if n > 0 {
      assert BitSet(a, 0) <==> BitSet(b, 0);
      assert Pow2(0) == 1;
      BelowPow(a, n);
      BelowPow(b, n);
      forall i | 0 <= i < n - 1
        ensures BitSet(a / 2, i) <==> BitSet(b / 2, i)
      {
        BitAbove(a, i);
        BitAbove(b, i);
        assert BitSet(a, i + 1) <==> BitSet(b, i + 1);
      }
      SameBits(a / 2, b / 2, n - 1);
    }
  }

  // ----- Wrapping -----

  /** The values of a type: how many there are, and the least of them. */
  function Count(t: Ty): nat {
    match t
    case U(B8) => 256 case U(B16) => 65536 case U(B32) => 4294967296 case U(B64) => 18446744073709551616
    case I(B8) => 256 case I(B16) => 65536 case I(B32) => 4294967296 case I(B64) => 18446744073709551616
    case Bool => 2
    case Ptr => 18446744073709551616
  }

  function Least(t: Ty): int {
    match t
    case I(B8) => -128 case I(B16) => -32768 case I(B32) => -2147483648 case I(B64) => -9223372036854775808
    case _ => 0
  }

  /** Wrapping gives the one value of the type that differs by a multiple of their number. */
  lemma WrapMeans(t: Ty, n: int, v: int)
    ensures Wrap(t, n) == v <==> Least(t) <= v < Least(t) + Count(t) && (n - v) % Count(t) == 0
  {
    var c, w := Count(t), Wrap(t, n);
    assert Least(t) <= w < Least(t) + c;
    var k := WrapSteps(t, n);
    assert n - w == k * c;
    ModAdd(0, k, c);
    if Least(t) <= v < Least(t) + c && (n - v) % c == 0 {
      var j := (n - v) / c;
      assert n - v == c * j && c * j == j * c;
      assert v - w == c * (k - j) by {
        assert c * (k - j) == k * c - j * c;
      }
      Magnitude(c, k - j);
    }
  }

  lemma WrapSteps(t: Ty, n: int) returns (k: int)
    ensures n - Wrap(t, n) == k * Count(t)
  {
    var c := Count(t);
    assert n == c * (n / c) + n % c && c * (n / c) == (n / c) * c;
    k := n / c + if t.I? && n % c >= Half(t.width) then 1 else 0;
    assert k * c == (n / c) * c + (k - n / c) * c;
  }

  // ----- Division -----

  /** Signed division truncates: the quotient leaves a remainder smaller than the divisor and of the
      sign of the dividend. */
  lemma TruncMeans(l: int, r: int, q: int)
    requires r != 0
    ensures TruncDiv(l, r) == q <==>
            var rest := l - q * r;
            && (l >= 0 ==> 0 <= rest) && (l <= 0 ==> rest <= 0)
            && -(if r < 0 then -r else r) < rest < (if r < 0 then -r else r)
  {
    var d, a := if r < 0 then -r else r, if l < 0 then -l else l;
    var s := if (l < 0) == (r < 0) then q else -q;
    FloorIs(a, d, s);
    assert q * r == if l < 0 then -(d * s) else d * s by {
      SignedProduct(q, r, s, d, l < 0);
    }
  }

  lemma FloorIs(a: nat, d: nat, s: int)
    requires d > 0
    ensures a / d == s <==> 0 <= a - d * s < d
  {
    assert a == d * (a / d) + a % d;
    if 0 <= a - d * s < d {
      QuotientIs(a, d, s, a - d * s);
    }
  }

  lemma SignedProduct(q: int, r: int, s: int, d: int, negative: bool)
    requires d == (if r < 0 then -r else r) && s == (if negative == (r < 0) then q else -q)
    ensures q * r == if negative then -(d * s) else d * s
  {
    assert (-q) * r == -(q * r) && q * (-r) == -(q * r) && (-q) * (-r) == q * r;
  }
}
