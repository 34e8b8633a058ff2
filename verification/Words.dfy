/** Scalar types of the two front ends and their 64-bit two's complement representation. */
module Words {

  const W: int := 0x1_0000_0000_0000_0000
  const HALF: int := 0x8000_0000_0000_0000

  datatype Width = B8 | B16 | B32 | B64
  datatype Ty = U(width: Width) | I(width: Width) | Bool | Ptr

  function Size(w: Width): nat {
    match w case B8 => 0x100 case B16 => 0x1_0000 case B32 => 0x1_0000_0000 case B64 => W
  }

  function SizeBits(w: Width): nat {
    match w case B8 => 8 case B16 => 16 case B32 => 32 case B64 => 64
  }

  /** The low bits of n, as many as the width has. */
  function Cut(n: int, w: Width): (r: nat)
    ensures r < Size(w)
  {
    match w case B8 => n % 0x100 case B16 => n % 0x1_0000 case B32 => n % 0x1_0000_0000 case B64 => n % W
  }

  function Half(w: Width): nat {
    match w case B8 => 0x80 case B16 => 0x8000 case B32 => 0x8000_0000 case B64 => HALF
  }

  /** The value of type t that n stands for when it is cut to the width of t. */
  function Wrap(t: Ty, n: int): int {
    match t
    case U(w) => Cut(n, w)
    case I(w) => var r := Cut(n, w); if r >= Half(w) then r - Size(w) else r
    case Bool => n % 2
    case Ptr => n % W
  }

  predicate InRange(t: Ty, v: int) {
    Wrap(t, v) == v
  }

  /** The register contents that represent v. */
  function Rep(v: int): (r: nat)
    ensures r < W
  {
    v % W
  }

  /** The signed reading of a register. */
  function Signed(x: nat): int {
    if x >= HALF then x - W else x
  }

  /** What the normalising instruction of type t leaves of a register. */
  function Normalize(t: Ty, x: nat): nat {
    match t
    case U(w) => Cut(x, w)
    case I(w) => var r := Cut(x, w); if r >= Half(w) then W - Size(w) + r else r
    case Bool => x % 2
    case Ptr => x
  }

  function Pow2(k: nat): (p: nat)
    ensures p > 0
  {
    if k == 0 then 1 else 2 * Pow2(k - 1)
  }

  datatype BitOp = And | Or | Xor

  function Bit(op: BitOp, a: bool, b: bool): nat {
    if (match op case And => a && b case Or => a || b case Xor => a != b) then 1 else 0
  }

  /** A bitwise operation on the low n bits. */
  function Bits(op: BitOp, a: nat, b: nat, n: nat): (r: nat)
    ensures r < Pow2(n)
  {
    if n == 0 then 0 else Bit(op, a % 2 == 1, b % 2 == 1) + 2 * Bits(op, a / 2, b / 2, n - 1)
  }

  function Bits64(op: BitOp, a: nat, b: nat): (r: nat)
    ensures r < W
  {
    Pow2Table();
    Bits(op, a, b, 64)
  }

  lemma {:induction false} Pow2Sum(a: nat, b: nat)
    ensures Pow2(a + b) == Pow2(a) * Pow2(b)
  {
    if a > 0 {
      Pow2Sum(a - 1, b);
      assert Pow2(a + b) == 2 * Pow2(a - 1 + b);
    }
  }

  lemma Pow2Table()
    ensures Pow2(8) == 0x100 && Pow2(16) == 0x1_0000 && Pow2(32) == 0x1_0000_0000 && Pow2(64) == W
  {
    assert Pow2(2) == 4 && Pow2(4) == 16;
    Pow2Sum(4, 4);
    Pow2Sum(8, 8);
    Pow2Sum(16, 16);
    Pow2Sum(32, 32);
  }

  // ----- Congruence -----

  lemma ModAdd(n: int, k: int, m: int)
    requires m > 0
    ensures (n + k * m) % m == n % m
  {
    var q := (n + k * m) / m - n / m - k;
    var r := (n + k * m) % m - n % m;
    assert n + k * m == m * ((n + k * m) / m) + (n + k * m) % m;
    assert n == m * (n / m) + n % m;
    assert k * m == m * k;
    assert m * ((n + k * m) / m) - m * (n / m) - m * k == m * q;
    assert m * q + r == 0;
    assert -m < r < m;
    Magnitude(m, q);
  }

  lemma Magnitude(m: int, q: int)
    requires m > 0
    ensures q >= 1 ==> m * q >= m
    ensures q <= -1 ==> m * q <= -m
  {
  }

  /** Cutting to 64 bits first changes nothing for a type of at most 64 bits. */
  lemma WrapRep(t: Ty, n: int)
    ensures Wrap(t, Rep(n)) == Wrap(t, n)
  {
    var q := n / W;
    assert n == W * q + Rep(n);
    ModAdd(Rep(n), q, W);
    ModAdd(Rep(n), q * 0x1_0000_0000, 0x1_0000_0000);
    ModAdd(Rep(n), q * 0x1_0000_0000_0000, 0x1_0000);
    ModAdd(Rep(n), q * 0x100_0000_0000_0000, 0x100);
    ModAdd(Rep(n), q * HALF, 2);
  }

  lemma NormalizeIsWrap(t: Ty, n: int)
    ensures Normalize(t, Rep(n)) == Rep(Wrap(t, n))
  {
    WrapRep(t, n);
  }

  lemma RepSum(a: int, b: int)
    ensures (Rep(a) + Rep(b)) % W == Rep(a + b)
    ensures (Rep(a) - Rep(b)) % W == Rep(a - b)
  {
    assert a == W * (a / W) + Rep(a);
    assert b == W * (b / W) + Rep(b);
    ModAdd(Rep(a) + Rep(b), a / W + b / W, W);
    ModAdd(Rep(a) - Rep(b), a / W - b / W, W);
  }

  lemma RepProduct(a: int, b: int)
    ensures (Rep(a) * Rep(b)) % W == Rep(a * b)
    ensures (Rep(a) * b) % W == Rep(a * b)
  {
    var p, q := a / W, b / W;
    assert a == W * p + Rep(a);
    assert b == W * q + Rep(b);
    assert a * b == Rep(a) * b + (p * b) * W by {
      assert (W * p + Rep(a)) * b == W * p * b + Rep(a) * b;
    }
    ModAdd(Rep(a) * b, p * b, W);
    assert Rep(a) * b == Rep(a) * Rep(b) + (Rep(a) * q) * W by {
      assert Rep(a) * (W * q + Rep(b)) == Rep(a) * (W * q) + Rep(a) * Rep(b);
    }
    ModAdd(Rep(a) * Rep(b), Rep(a) * q, W);
  }

  /** Registers hold values of a type faithfully. */
  lemma RepInRange(t: Ty, v: int)
    requires InRange(t, v)
    ensures t.I? ==> Signed(Rep(v)) == v && -HALF <= v < HALF
    ensures !t.I? ==> Rep(v) == v
    ensures Wrap(t, Rep(v)) == v
  {
    WrapRep(t, v);
  }

  lemma WrapInRange(t: Ty, n: int)
    ensures InRange(t, Wrap(t, n))
  {
  }
}
