/** Parts of registers by their bits, and what a call leaves in a register. */
module RegisterParts {
  import opened Words
  import opened X86
  import opened WordMeaning

  /** The lowest bit of the part, and how many it has. */
  function Lowest(r: Register): nat {
    if r.high8 then 8 else 0
  }

  function Bits(r: Register): nat {
    if r.high8 then 8 else match r.width case B8 => 8 case B16 => 16 case B32 => 32 case B64 => 64
  }

  predicate InPart(r: Register, i: nat) {
    Lowest(r) <= i < Lowest(r) + Bits(r)
  }

  /** The word with the low n bits of y and the other ones of x. */
  function Join(x: nat, y: nat, n: nat): nat {
    if n == 0 then x else y % 2 + 2 * Join(x / 2, y / 2, n - 1)
  }

  lemma {:induction false} JoinBits(x: nat, y: nat, n: nat, i: nat)
    ensures BitSet(Join(x, y, n), i) <==> if i < n then BitSet(y, i) else BitSet(x, i)
    decreases n
  {
    hide BitSet;
    if n > 0 {
      var z := Join(x, y, n);
      assert z / 2 == Join(x / 2, y / 2, n - 1) && z % 2 == y % 2;
      if i > 0 {
        BitAbove(z, i - 1);
        BitAbove(y, i - 1);
        BitAbove(x, i - 1);
        JoinBits(x / 2, y / 2, n - 1, i - 1);
      } else {
        LowestBit(z);
        LowestBit(y);
      }
    }
  }

  lemma LowestBit(x: nat)
    ensures BitSet(x, 0) <==> x % 2 == 1
  {
    assert x / Pow2(0) == x;
  }

  /** The rest of a division by 2 m, from that of the half. */
  lemma RestStep(x: nat, m: nat)
    requires m > 0
    ensures x % (2 * m) == x % 2 + 2 * ((x / 2) % m)
  {
    var q, rest := (x / 2) / m, (x / 2) % m;
    assert x / 2 == m * q + rest;
    assert (2 * m) * q == 2 * (m * q);
    QuotientIs(x, 2 * m, q, x % 2 + 2 * rest);
  }

  lemma {:induction false} JoinIs(x: nat, y: nat, n: nat)
    ensures Join(x, y, n) == x - x % Pow2(n) + y % Pow2(n)
    decreases n
  {
    if n > 0 {
      RestStep(x, Pow2(n - 1));
      RestStep(y, Pow2(n - 1));
      JoinIs(x / 2, y / 2, n - 1);
    }
  }

  lemma LowBits(x: nat, n: nat, i: nat)
    ensures BitSet(x % Pow2(n), i) <==> i < n && BitSet(x, i)
  {
    hide BitSet, Pow2;
    JoinBits(0, x, n, i);
    JoinIs(0, x, n);
    NoRest(Pow2(n));
    NoBits(i);
  }

  lemma NoRest(m: nat)
    requires m > 0
    ensures 0 % m == 0
  {
  }

  lemma NoBits(i: nat)
    ensures !BitSet(0, i)
  {
    assert 0 / Pow2(i) == 0;
  }

  lemma {:induction false} ShiftedBits(x: nat, n: nat, y: nat, i: nat)
    requires y == x / Pow2(n)
    ensures BitSet(y, i) <==> BitSet(x, i + n)
    decreases n
  {
    hide BitSet, Pow2;
    PowStep(n);
    if n > 0 {
      DivideTwice(x, Pow2(n - 1));
      ShiftedBits(x / 2, n - 1, y, i);
      BitAbove(x, i + n - 1);
    } else {
      assert x / 1 == x;
    }
  }

  lemma PowStep(n: nat)
    ensures Pow2(n) == if n == 0 then 1 else 2 * Pow2(n - 1)
  {
  }

  /** The contents of a part are its bits, moved down to bit 0. */
  lemma FieldBits(x: nat, r: Register, i: nat)
    requires x < W
    ensures BitSet(Field(x, r), i) <==> i < Bits(r) && BitSet(x, i + Lowest(r))
  {
    hide BitSet, Pow2;
    Pow2Table();
    if r.high8 {
      LowBits(x / 0x100, 8, i);
      ShiftedBits(x, 8, x / 0x100, i);
    } else {
      LowBits(x, Bits(r), i);
    }
  }

  lemma Replaced(x: nat, y: nat, n: nat, i: nat)
    ensures x - x % Pow2(n) + y % Pow2(n) >= 0
    ensures BitSet(x - x % Pow2(n) + y % Pow2(n), i) <==> if i < n then BitSet(y, i) else BitSet(x, i)
  {
    hide BitSet, Pow2;
    JoinBits(x, y, n, i);
    JoinIs(x, y, n);
  }

  /** Writing to bits 8 to 15. */
  lemma HighReplaced(x: nat, v: nat, i: nat)
    ensures x - ((x / 0x100) % 0x100) * 0x100 + (v % 0x100) * 0x100 >= 0
    ensures BitSet(x - ((x / 0x100) % 0x100) * 0x100 + (v % 0x100) * 0x100, i) <==>
              if 8 <= i < 16 then BitSet(v, i - 8) else BitSet(x, i)
  {
    hide BitSet, Pow2;
    Pow2Table();
    var z := x - ((x / 0x100) % 0x100) * 0x100 + (v % 0x100) * 0x100;
    assert z % 0x100 == x % 0x100 && z / 0x100 == x / 0x100 - (x / 0x100) % 0x100 + v % 0x100;
    if i < 8 {
      LowBits(z, 8, i);
      LowBits(x, 8, i);
    } else {
      ShiftedBits(z, 8, z / 0x100, i - 8);
      ShiftedBits(x, 8, x / 0x100, i - 8);
      Replaced(x / 0x100, v, 8, i - 8);
    }
  }

  /** Writing a part changes its bits to those of the word and leaves the rest, except that writing the
      lower 32 clears the upper ones. */
  lemma MergeBits(x: nat, r: Register, v: nat, i: nat)
    requires x < W
    ensures Merge(x, r, v) >= 0
    ensures BitSet(Merge(x, r, v), i) <==>
              if InPart(r, i) then BitSet(v, i - Lowest(r)) else BitSet(x, i) && (r.high8 || r.width != B32)
  {
    hide BitSet, Pow2, Merge;
    MergeIs(x, r, v);
    if r.high8 {
      HighReplaced(x, v, i);
    } else if Narrow(r) {
      Replaced(x, v, Bits(r), i);
    } else {
      LowBits(v, Bits(r), i);
      BelowWord(x, i);
    }
  }

  lemma MergeIs(x: nat, r: Register, v: nat)
    ensures var m := Pow2(Bits(r));
            Merge(x, r, v) == if r.high8 then x - ((x / 0x100) % 0x100) * 0x100 + (v % 0x100) * 0x100
                              else if Narrow(r) then x - x % m + v % m else v % m
  {
    hide Pow2;
    Pow2Table();
  }

  lemma BelowWord(x: nat, i: nat)
    requires x < W
    ensures BitSet(x, i) ==> i < 64
  {
    hide BitSet, Pow2;
    Pow2Table();
    LowBits(x, 64, i);
  }

  /** In memory the rest stays for 32 bits too. */
  lemma PatchBits(slot: nat, part: Register, v: nat, i: nat)
    requires slot < W
    ensures Patch(slot, part, v) >= 0
    ensures BitSet(Patch(slot, part, v), i) <==> if InPart(part, i) then BitSet(v, i - Lowest(part)) else BitSet(slot, i)
  {
    hide BitSet, Pow2;
    Pow2Table();
    if part.width == B32 && !part.high8 {
      Replaced(slot, v, 32, i);
    } else {
      MergeBits(slot, part, v, i);
    }
  }

  // ----- Calls -----

  /** Parameter k is the last that is handed back in register r. */
  predicate LastOutput(params: seq<Param>, r: nat, k: nat) {
    k < |params| && params[k].direction != In && params[k].reg.family == r &&
    forall j :: k < j < |params| ==> params[j].direction == In || params[j].reg.family != r
  }

  lemma {:induction false} OutputIs(params: seq<Param>, r: nat, reg: Register)
    ensures OutputOf(params, r) == Some(reg) <==> exists k: nat :: LastOutput(params, r, k) && params[k].reg == reg
    decreases |params|
  {
    if params != [] {
      var n := |params| - 1;
      OutputIs(params[..n], r, reg);
      if params[n].direction != In && params[n].reg.family == r {
        assert LastOutput(params, r, n);
      } else {
        forall k: nat
          ensures LastOutput(params, r, k) <==> LastOutput(params[..n], r, k)
        {
          if LastOutput(params, r, k) {
            assert k != n;
            assert forall j :: k < j < n ==> params[..n][j] == params[j];
          }
          if LastOutput(params[..n], r, k) {
            assert forall j :: k < j < n ==> params[..n][j] == params[j];
          }
        }
      }
    }
  }

  lemma {:induction false} NoOutputIs(params: seq<Param>, r: nat)
    ensures OutputOf(params, r) == None <==> forall k :: 0 <= k < |params| ==> params[k].direction == In || params[k].reg.family != r
    decreases |params|
  {
    if params != [] {
      var n := |params| - 1;
      NoOutputIs(params[..n], r);
      assert forall k :: 0 <= k < n ==> params[..n][k] == params[k];
    }
  }

  /** After a call a register has the callee's bits in the part of the last output in it, and its
      former ones outside. */
  lemma OutputLeaves(f: Callee, b: Behaviour, r: nat, before: nat, k: nat, i: nat)
    requires before < W && LastOutput(f.params, r, k)
    ensures var reg, after := f.params[k].reg, AfterCall(f, b, r, before);
            after >= 0 &&
            (BitSet(after, i) <==> if InPart(reg, i) then BitSet(Returned(b, r), i - Lowest(reg))
                                   else BitSet(before, i) && (reg.high8 || reg.width != B32))
  {
    hide Merge, BitSet;
    OutputIs(f.params, r, f.params[k].reg);
    MergeBits(before, f.params[k].reg, Returned(b, r), i);
  }

  /** Without an output it has the callee's value if it is rax or clobbered, and else its former one. */
  lemma OthersLeft(f: Callee, b: Behaviour, r: nat, before: nat)
    requires forall k :: 0 <= k < |f.params| ==> f.params[k].direction == In || f.params[k].reg.family != r
    ensures AfterCall(f, b, r, before) == if r == 0 || r in f.clobbers then Returned(b, r) else before
  {
    NoOutputIs(f.params, r);
  }

  // ----- Registers by number -----

  /** Sign extension writes register 2. */
  lemma SignExtends(env: Env, m: Machine)
    requires Ok(m)
    ensures ExecAlu(env, Cqo, m).regs == m.regs[2 := if m.regs[0] >= 0x8000_0000_0000_0000 then W - 1 else 0]
  {
  }

  /** Divisions write registers 0 and 2. */
  lemma Divides(env: Env, m: Machine, r: nat, k: nat)
    requires Ok(m) && r < REGS && k < 16 && k != 0 && k != 2
    ensures ExecAlu(env, Div(r), m).regs[k] == m.regs[k] && ExecIdivide(env, r, m).regs[k] == m.regs[k]
  {
  }

  /** Shifts take their count from register 1. */
  lemma Shifts(env: Env, m: Machine, k: nat)
    requires Ok(m) && k < 16
    ensures ExecAlu(env, Shl(k), m).regs[k] == m.regs[k] * Pow2(m.regs[1] % 64) % W
  {
    hide Pow2;
    LowCount(m.regs[1]);
  }

  /** Pushing and popping move register 4. */
  lemma Pushes(env: Env, m: Machine, r: nat)
    requires Ok(m) && r < REGS
    ensures ExecStack(env, Push(r), m).regs == m.regs[4 := (m.regs[4] - 8) % W]
    ensures ExecStack(env, SkipSlot, m).regs == m.regs[4 := (m.regs[4] + 8) % W]
  {
  }

  lemma LowCount(n: nat)
    ensures n % 0x100 % 64 == n % 64
  {
  }

  /** The frame is addressed through register 5; operands go through 10 and 11. */
  lemma ScratchRegisters()
    ensures RBP == 5 && R10 == 10 && R11 == 11
  {
  }
}
