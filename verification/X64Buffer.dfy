/** The instruction buffer that the encoder fills byte by byte. */
module X64Buffer {
  import opened X64Encoder
  import opened X64RoundTrip

  const CAPACITY: nat := 15

  /** ModRM and SIB of a memory operand. */
  function MemoryHead(rc: nat, rm: Operand): seq<nat>
    requires rm.Mem? && Check(rm).None?
  {
    if rm.base == -2 then [rc % 8 * 8 + 5]
    else [ModBits(rm) * 64 + rc % 8 * 8 + (if NeedsSib(rm) then 4 else rm.base % 8)] + if NeedsSib(rm) then [SibByte(rm)] else []
  }

  lemma AddressSplits(rc: nat, rm: Operand)
    requires rm.Mem? && Check(rm).None?
    ensures Address(rc, rm) == MemoryHead(rc, rm) + Little(rm.disp, DispSize(rm))
    ensures |MemoryHead(rc, rm)| <= 2 && |MemoryHead(rc, rm)| + DispSize(rm) <= 6
  {
  }

  lemma Joined(a: seq<nat>, b: seq<nat>, c: seq<nat>)
    ensures a + b + c == a + (b + c)
  {
  }

  lemma NothingAfter(head: seq<nat>, address: seq<nat>)
    ensures head + (address + []) == head + address
  {
    assert address + [] == address;
  }

  class Instruction {
    const bytes: array<nat>
    var length: nat
    var displacementOffset: nat
    var displacementSize: nat

    ghost predicate Valid()
      reads this
    {
      bytes.Length == CAPACITY && length <= CAPACITY
    }

    ghost function Contents(): (c: seq<nat>)
      requires Valid()
      reads this, bytes
    {
      bytes[..length]
    }

    constructor ()
      ensures Valid() && Contents() == [] && displacementOffset == 0 && displacementSize == 0 && fresh(bytes)
    {
      bytes := new nat[CAPACITY];
      length, displacementOffset, displacementSize := 0, 0, 0;
    }

    method Byte(v: nat)
      requires Valid() && length < CAPACITY
      modifies this`length, bytes
      ensures Valid() && Contents() == old(Contents()) + [v]
    {
      bytes[length] := v;
      length := length + 1;
    }

    method LittleEndian(v: int, n: nat)
      requires Valid() && length + n <= CAPACITY
      modifies this`length, bytes
      ensures Valid() && Contents() == old(Contents()) + Little(v, n)
    {
      var rest, i := v, 0;
      while i < n
        invariant 0 <= i <= n && Valid() && length == old(length) + i
        invariant Contents() + Little(rest, n - i) == old(Contents()) + Little(v, n)
      {
        ghost var before := Contents();
        Byte(rest % 256);
        assert Contents() + Little(rest / 256, n - i - 1) == before + Little(rest, n - i);
        rest := rest / 256;
        i := i + 1;
      }
    }

    /** Segment override, operand size and REX; AH..BH cannot be named beside a REX prefix. */
    method Prefix(width: nat, rex: Rex, high8: bool, segment: Segment) returns (error: Option<Error>)
      requires Valid() && length + 3 <= CAPACITY
      modifies this`length, bytes
      ensures Valid()
      ensures error == if rex.Present() && high8 then Some(HIGH8_REX) else None
      ensures Contents() == old(Contents()) + if error.Some? then [] else PrefixBytes(segment, width, rex)
    {
      if rex.Present() && high8 {
        return Some(HIGH8_REX);
      }
      if segment != NoSegment {
        Byte(if segment == FS then 0x64 else 0x65);
      }
      if width == 16 {
        Byte(0x66);
      }
      if rex.Present() {
        Byte(rex.Byte());
      }
      error := None;
    }

    /** Everything after the opcode of a memory operand, with the displacement's place noted. */
    method Memory(rc: nat, rm: Operand)
      requires Valid() && length + 6 <= CAPACITY && rm.Mem? && Check(rm).None?
      modifies this, bytes
      ensures Valid() && Contents() == old(Contents()) + Address(rc, rm)
      ensures DispSize(rm) > 0 ==> displacementSize == DispSize(rm) && displacementOffset + displacementSize == length
      ensures DispSize(rm) == 0 ==> displacementSize == old(displacementSize) && displacementOffset == old(displacementOffset)
    {
      AddressSplits(rc, rm);
      ghost var before := Contents();
      if rm.base == -2 {
        Byte(rc % 8 * 8 + 5);
      } else {
        Byte(ModBits(rm) * 64 + rc % 8 * 8 + (if NeedsSib(rm) then 4 else rm.base % 8));
        if NeedsSib(rm) {
          Byte(SibByte(rm));
        }
      }
      assert Contents() == before + MemoryHead(rc, rm);
      if DispSize(rm) > 0 {
        displacementOffset, displacementSize := length, DispSize(rm);
      }
      LittleEndian(rm.disp, DispSize(rm));
      Joined(before, MemoryHead(rc, rm), Little(rm.disp, DispSize(rm)));
    }

    method Opcode(opcode: seq<nat>)
      requires Valid() && length + |opcode| <= CAPACITY
      modifies this`length, bytes
      ensures Valid() && Contents() == old(Contents()) + opcode
    {
      var i := 0;
      while i < |opcode|
        invariant 0 <= i <= |opcode| && Valid() && length == old(length) + i
        invariant Contents() == old(Contents()) + opcode[..i]
      {
        Byte(opcode[i]);
        i := i + 1;
      }
      assert opcode[..i] == opcode;
    }

    method RegisterOrMemory(rc: nat, rm: Operand)
      requires Valid() && length + 6 <= CAPACITY && (rm.Reg? || rm.Mem?) && Check(rm).None?
      requires displacementSize == 0 && displacementOffset == 0
      modifies this, bytes
      ensures Valid() && Contents() == old(Contents()) + Address(rc, rm)
      ensures displacementSize == if rm.Mem? then DispSize(rm) else 0
      ensures displacementOffset == if displacementSize > 0 then length - displacementSize else 0
    {
      if rm.Mem? {
        Memory(rc, rm);
      } else {
        Byte(0xc0 + rc % 8 * 8 + RegCode(rm) % 8);
      }
    }

    /** Prefixes, opcode, ModRM, SIB and displacement of a register or memory operand. */
    method ModRm(opcode: seq<nat>, width: nat, reg: Option<Operand>, digit: nat, rm: Operand) returns (error: Option<Error>)
      requires Valid() && length == 0 && displacementSize == 0 && displacementOffset == 0 && 1 <= |opcode| <= 2
      requires (reg.Some? ==> reg.value.Reg?) && Check(rm).None?
      modifies this, bytes
      ensures Valid()
      ensures match ModRM(opcode, width, reg, digit, rm, [])
              case Err(e) => error == Some(e)
              case Ok(code) =>
                error == None && Contents() == code.bytes && displacementSize == code.dispSize && displacementOffset == code.dispAt
    {
      hide Address, AreBytes, DispSize, RexFor, High8, SegmentOf, RegCode;
      if !rm.Reg? && !rm.Mem? {
        return Some(FORM);
      }
      var rex := RexFor(width, reg, rm);
      error := Prefix(width, rex, High8(reg, rm), SegmentOf(rm));
      if error.Some? {
        return;
      }
      PrefixSize(SegmentOf(rm), width, rex);
      Opcode(opcode);
      RegisterOrMemory(if reg.Some? then RegCode(reg.value) else digit, rm);
      NothingAfter(PrefixBytes(SegmentOf(rm), width, rex) + opcode, Address(if reg.Some? then RegCode(reg.value) else digit, rm));
    }
  }
}
