/** The decoder inverts the encoder. */
module X64RoundTrip {
  import opened X64Encoder
  import opened X64Decoder

  // ----- Fields -----

  lemma {:induction false} NumberOfLittle(v: int, n: nat)
    ensures Number(Little(v, n)) == v % Pow256(n)
    ensures forall i :: 0 <= i < n ==> 0 <= Little(v, n)[i] < 256
    decreases n
  {
    if n > 0 {
      NumberOfLittle(v / 256, n - 1);
      assert Little(v, n)[1..] == Little(v / 256, n - 1);
      ModStep(v, Pow256(n - 1));
    }
  }

  lemma ModStep(v: int, m: nat)
    requires m > 0
    ensures v % 256 + 256 * (v / 256 % m) == v % (256 * m)
  {
    var q, r := v / 256, v % 256;
    var a, b := q / m, q % m;
    assert v == 256 * q + r && q == m * a + b;
    assert v == (256 * m) * a + (256 * b + r) by {
      assert 256 * (m * a + b) == (256 * m) * a + 256 * b;
    }
    assert 0 <= 256 * b + r < 256 * m;
    Unique(v, 256 * m, a, 256 * b + r);
  }

  lemma Unique(v: int, m: int, a: int, b: int)
    requires m > 0 && v == m * a + b && 0 <= b < m
    ensures v % m == b && v / m == a
  {
    var q, r := v / m, v % m;
    assert v == m * q + r && 0 <= r < m;
    assert m * (q - a) == b - r;
    if q - a >= 1 {
      assert m * (q - a) >= m by { Grows(m, q - a); }
    } else if q - a <= -1 {
      assert m * (a - q) >= m by { Grows(m, a - q); }
    }
  }

  lemma Grows(m: int, k: int)
    requires m > 0 && k >= 1
    ensures m * k >= m
  {
  }

  lemma PowTable()
    ensures Pow256(0) == 1 && Pow256(1) == 0x100 && Pow256(2) == 0x1_0000 && Pow256(4) == 0x1_0000_0000 && Pow256(8) == W64
  {
    assert Pow256(3) == 0x100_0000;
    assert Pow256(5) == 0x100_0000_0000;
    assert Pow256(6) == 0x1_0000_0000_0000;
    assert Pow256(7) == 0x100_0000_0000_0000;
  }

  predicate FieldSize(n: nat) {
    n == 1 || n == 2 || n == 4
  }

  /** A signed value that fits its field is read back. */
  lemma SignedField(v: int, n: nat)
    requires FieldSize(n) && -(Pow256(n) / 2) <= v < Pow256(n) / 2
    ensures SignedNumber(Little(v, n)) == v
  {
    PowTable();
    NumberOfLittle(v, n);
  }

  /** An immediate that may be sign-extended from n bytes is read back in the width of the
      operation. */
  lemma ImmField(imm: nat, signed: bool, n: nat, width: nat)
    requires imm < W64 && FieldSize(n) && Scalar(width) && 8 * n <= width
    requires Fits(imm, signed, 8 * n, true) || 8 * n == width
    ensures Extended(Little(imm, n), width) == imm % TwoTo(width)
  {
    PowTable();
    NumberOfLittle(imm, n);
    if 8 * n == width {
      FullField(imm, n, width);
    } else {
      NarrowField(imm, signed, n, width);
    }
  }

  lemma FullField(imm: nat, n: nat, width: nat)
    requires FieldSize(n) && 8 * n == width && Number(Little(imm, n)) == imm % TwoTo(width) && Pow256(n) == TwoTo(width)
    ensures Extended(Little(imm, n), width) == imm % TwoTo(width)
  {
    hide Little, Number, TwoTo, Pow256, FieldSize;
    var x, m := imm % TwoTo(width), TwoTo(width);
    Unique(x - m, m, -1, x);
    Unique(x, m, 0, x);
  }

  lemma NarrowField(imm: nat, signed: bool, n: nat, width: nat)
    requires imm < W64 && FieldSize(n) && Scalar(width) && 8 * n < width && Fits(imm, signed, 8 * n, true)
    requires Number(Little(imm, n)) == imm % Pow256(n) && Pow256(n) == TwoTo(8 * n)
    ensures Extended(Little(imm, n), width) == imm % TwoTo(width)
  {
    hide Little, Number, Pow256;
    if imm < TwoTo(8 * n) / 2 {
      assert imm % Pow256(n) == imm;
    } else {
      var s := imm - W64;
      assert -(TwoTo(8 * n) / 2) <= s < 0;
      assert imm % TwoTo(8 * n) == s + TwoTo(8 * n) by { Residue(s, 8 * n); }
      assert imm % TwoTo(width) == s + TwoTo(width) by { Residue(s, width); }
      assert s % TwoTo(width) == s + TwoTo(width) by { Unique(s, TwoTo(width), -1, s + TwoTo(width)); }
    }
  }

  /** A small negative number in 64-bit two's complement, cut to w bits. */
  lemma Residue(s: int, w: nat)
    requires Scalar(w) && -(TwoTo(w) / 2) <= s < 0
    ensures (s + W64) % TwoTo(w) == s + TwoTo(w)
  {
    match w
    case 8 => Unique(s + W64, 0x100, 0x100_0000_0000_0000 - 1, s + 0x100);
    case 16 => Unique(s + W64, 0x1_0000, 0x1_0000_0000_0000 - 1, s + 0x1_0000);
    case 32 => Unique(s + W64, 0x1_0000_0000, 0x1_0000_0000 - 1, s + 0x1_0000_0000);
    case 64 => Unique(s + W64, W64, 0, s + W64);
  }

  // ----- Prefixes -----

  /** What the decoder knows of the REX bits: nothing tells an empty prefix from none. */
  function Seen(rex: Rex): Rex {
    if rex.Present() then rex.(forced := true) else NO_REX
  }

  predicate IsPrefix(b: nat) {
    b == 0x64 || b == 0x65 || b == 0x66 || 0x40 <= b < 0x50
  }

  lemma RexByteRead(rex: Rex)
    requires rex.Present()
    ensures 0x40 <= rex.Byte() < 0x50 && RexOf(rex.Byte()) == Seen(rex)
  {
  }

  function SeenPrefixes(segment: Segment, width: nat, rex: Rex): Prefixes {
    Prefixes(segment, width == 16, Seen(rex), |PrefixBytes(segment, width, rex)|)
  }

  lemma PrefixesRead(segment: Segment, width: nat, rex: Rex, op: nat, rest: seq<nat>)
    requires !IsPrefix(op)
    ensures ReadPrefixes(PrefixBytes(segment, width, rex) + ([op] + rest)) == SeenPrefixes(segment, width, rex)
  {
    var b := PrefixBytes(segment, width, rex) + ([op] + rest);
    var n := if segment == NoSegment then 0 else 1;
    var k := if width == 16 then n + 1 else n;
    if rex.Present() {
      RexByteRead(rex);
    }
    assert b[k] == if rex.Present() then rex.Byte() else op;
    assert b[n] == if width == 16 then 0x66 else b[k];
    assert segment == NoSegment ==> b[0] != 0x64 && b[0] != 0x65;
  }

  /** The opcodes the encoder emits. */
  predicate GoodOpcode(opcode: seq<nat>) {
    (|opcode| == 1 && !IsPrefix(opcode[0]) && opcode[0] != 0x0f) || (|opcode| == 2 && opcode[0] == 0x0f)
  }

  function ShapeOf(opcode: seq<nat>): Shape
    requires GoodOpcode(opcode)
  {
    if |opcode| == 1 then OneByte(opcode[0]) else TwoByte(opcode[1])
  }

  type Decoder = seq<nat> -> Option<Decoded>

  predicate Starts(b: seq<nat>, segment: Segment, width: nat, rex: Rex, opcode: seq<nat>, tail: seq<nat>) {
    GoodOpcode(opcode) && b == PrefixBytes(segment, width, rex) + (opcode + tail)
  }

  /** How a decoder must treat prefixes and opcode: the rest of the proof needs no more of it. */
  ghost predicate HeadLaw(dec: Decoder) {
    forall b, segment, width, rex, opcode, tail {:trigger Starts(b, segment, width, rex, opcode, tail)} ::
      Starts(b, segment, width, rex, opcode, tail) ==>
        dec(b) == Moved(ReadShape(ShapeOf(opcode), tail, SeenPrefixes(segment, width, rex)),
                        |PrefixBytes(segment, width, rex)| + |opcode|)
  }

  lemma HeadRead(dec: Decoder, b: seq<nat>, segment: Segment, width: nat, rex: Rex, opcode: seq<nat>, tail: seq<nat>)
    requires HeadLaw(dec) && Starts(b, segment, width, rex, opcode, tail)
    ensures dec(b) == Moved(ReadShape(ShapeOf(opcode), tail, SeenPrefixes(segment, width, rex)),
                            |PrefixBytes(segment, width, rex)| + |opcode|)
  {
  }

  lemma DecodeReadsHead(b: seq<nat>, segment: Segment, width: nat, rex: Rex, opcode: seq<nat>, tail: seq<nat>)
    requires Starts(b, segment, width, rex, opcode, tail)
    ensures Decode(b) == Moved(ReadShape(ShapeOf(opcode), tail, SeenPrefixes(segment, width, rex)),
                               |PrefixBytes(segment, width, rex)| + |opcode|)
  {
    var head := PrefixBytes(segment, width, rex);
    assert opcode + tail == [opcode[0]] + (opcode[1..] + tail);
    PrefixesRead(segment, width, rex, opcode[0], opcode[1..] + tail);
    assert b[|head|..] == opcode + tail;
    assert (opcode + tail)[|opcode|..] == tail;
  }

  lemma DecodeObeys()
    ensures HeadLaw(Decode)
  {
    forall b, segment, width, rex, opcode, tail {:trigger Starts(b, segment, width, rex, opcode, tail)}
      | Starts(b, segment, width, rex, opcode, tail)
      ensures Decode(b) == Moved(ReadShape(ShapeOf(opcode), tail, SeenPrefixes(segment, width, rex)),
                                 |PrefixBytes(segment, width, rex)| + |opcode|)
    {
      DecodeReadsHead(b, segment, width, rex, opcode, tail);
    }
  }

  // ----- Operands -----

  function PlaceOf(o: Operand): Place
    requires o.Reg? || o.Mem?
  {
    match o
    case Reg(w, r, h) => R(w, r, h)
    case Mem(w, b, i, s, d, g) => M(w, b, i, s, d, g)
  }

  function WithWidth(p: Place, width: nat): Place {
    match p
    case R(_, r, h) => R(width, r, h)
    case M(_, b, i, s, d, g) => M(width, b, i, s, d, g)
    case _ => p
  }

  lemma RegisterRead(o: Operand, rex: Rex)
    requires o.Reg? && Check(o).None? && (o.high8 ==> !rex.Present()) && (NeedsRex(o) ==> rex.Present())
    ensures RegisterPlace(o.width, RegCode(o) % 8 + (if o.reg >= 8 then 8 else 0), Seen(rex).Present()) == PlaceOf(o)
  {
  }

  /** The prefixes agree with the register or memory operand of the ModRM byte. */
  predicate Agrees(p: Prefixes, rm: Operand)
    requires rm.Reg? || rm.Mem?
  {
    && p.rex.b == (if rm.Reg? then rm.reg >= 8 else rm.base >= 8)
    && (rm.Mem? ==> p.rex.x == (rm.index >= 8) && p.segment == rm.segment)
    && (rm.Reg? ==> (rm.high8 ==> !p.rex.Present()) && (NeedsRex(rm) ==> p.rex.Present()))
  }

  lemma ModByte(mod: nat, rc: nat, rm: nat)
    requires mod < 4 && rm < 8
    ensures var b := mod * 64 + rc % 8 * 8 + rm; b / 64 == mod && b / 8 % 8 == rc % 8 && b % 8 == rm
  {
  }

  lemma RegisterAddress(rc: nat, rm: Operand, rest: seq<nat>, p: Prefixes)
    requires rm.Reg? && Check(rm).None? && Agrees(p, rm)
    ensures ReadModRM(Address(rc, rm) + rest, p, rm.width) == Some(ModField(rc % 8, PlaceOf(rm), |Address(rc, rm)|))
  {
    ModByte(3, rc, RegCode(rm) % 8);
    assert (Address(rc, rm) + rest)[0] == 3 * 64 + rc % 8 * 8 + RegCode(rm) % 8;
  }

  lemma RipAddress(rc: nat, rm: Operand, rest: seq<nat>, p: Prefixes, width: nat)
    requires rm.Mem? && Check(rm).None? && Agrees(p, rm) && rm.base == -2
    ensures ReadModRM(Address(rc, rm) + rest, p, width) ==
            Some(ModField(rc % 8, WithWidth(PlaceOf(rm), width), |Address(rc, rm)|))
  {
    var b := Address(rc, rm) + rest;
    ModByte(0, rc, 5);
    assert b[0] == rc % 8 * 8 + 5;
    assert b[1..5] == Little(rm.disp, 4);
    PowTable();
    SignedField(rm.disp, 4);
  }

  lemma DispRead(rm: Operand)
    requires rm.Mem? && Check(rm).None?
    ensures SignedNumber(Little(rm.disp, DispSize(rm))) == rm.disp
  {
    PowTable();
    if DispSize(rm) > 0 {
      SignedField(rm.disp, DispSize(rm));
    }
  }

  lemma PlainAddress(rc: nat, rm: Operand, rest: seq<nat>, p: Prefixes, width: nat)
    requires rm.Mem? && Check(rm).None? && Agrees(p, rm) && rm.base >= 0 && !NeedsSib(rm)
    ensures ReadModRM(Address(rc, rm) + rest, p, width) ==
            Some(ModField(rc % 8, WithWidth(PlaceOf(rm), width), |Address(rc, rm)|))
  {
    var b := Address(rc, rm) + rest;
    var n := DispSize(rm);
    ModByte(ModBits(rm), rc, rm.base % 8);
    assert b[0] == ModBits(rm) * 64 + rc % 8 * 8 + rm.base % 8;
    assert b[1..1 + n] == Little(rm.disp, n);
    DispRead(rm);
  }

  lemma SibRead(rm: Operand)
    requires rm.Mem? && Check(rm).None? && rm.base >= -1
    ensures var b := SibByte(rm);
            && b % 8 == (if rm.base == -1 then 5 else rm.base % 8)
            && b / 8 % 8 == (if rm.index == -1 then 4 else rm.index % 8)
            && ScaleOf(b / 64) == rm.scale
  {
    ModByte(ScaleField(rm.scale), if rm.index == -1 then 4 else rm.index % 8, if rm.base == -1 then 5 else rm.base % 8);
  }

  lemma SibAddress(rc: nat, rm: Operand, rest: seq<nat>, p: Prefixes, width: nat)
    requires rm.Mem? && Check(rm).None? && Agrees(p, rm) && rm.base >= -1 && NeedsSib(rm)
    ensures ReadModRM(Address(rc, rm) + rest, p, width) ==
            Some(ModField(rc % 8, WithWidth(PlaceOf(rm), width), |Address(rc, rm)|))
  {
    hide NeedsSib, SibByte, Little, ScaleOf, SignedNumber, CheckReg;
    var b := Address(rc, rm) + rest;
    var n := DispSize(rm);
    ModByte(ModBits(rm), rc, 4);
    assert b[0] == ModBits(rm) * 64 + rc % 8 * 8 + 4;
    assert b[1] == SibByte(rm);
    assert b[2..2 + n] == Little(rm.disp, n);
    SibRead(rm);
    DispRead(rm);
  }

  /** Any register or memory operand is read back from its ModRM, SIB and displacement bytes. */
  lemma AddressRead(rc: nat, rm: Operand, rest: seq<nat>, p: Prefixes, width: nat)
    requires (rm.Reg? || rm.Mem?) && Check(rm).None? && Agrees(p, rm) && (rm.Reg? ==> width == rm.width)
    ensures ReadModRM(Address(rc, rm) + rest, p, width) ==
            Some(ModField(rc % 8, WithWidth(PlaceOf(rm), width), |Address(rc, rm)|))
  {
    if rm.Reg? {
      RegisterAddress(rc, rm, rest, p);
    } else if rm.base == -2 {
      RipAddress(rc, rm, rest, p, width);
    } else if NeedsSib(rm) {
      SibAddress(rc, rm, rest, p, width);
    } else {
      PlainAddress(rc, rm, rest, p, width);
    }
  }

  // ----- Forms with ModRM -----

  /** The bytes decode to the instruction, whatever follows, and the length is theirs. */
  predicate Reads(dec: Decoder, code: Code, insn: Insn, rest: seq<nat>) {
    dec(code.bytes + rest) == Some(Decoded(insn, |code.bytes|))
  }

  /** The decoder has read the prefixes and the opcode of a ModRM form, n bytes in all. */
  predicate AtModRM(p: Prefixes, width: nat, reg: Option<Operand>, rm: Operand)
    requires (rm.Reg? || rm.Mem?) && (reg.Some? ==> reg.value.Reg?)
  {
    && Agrees(p, rm) && (width != 8 ==> OperandSize(p) == width)
    && (reg.Some? ==> RegisterPlace(reg.value.width, RegCode(reg.value) % 8 + (if p.rex.r then 8 else 0), p.rex.Present())
                      == PlaceOf(reg.value))
  }

  lemma SeenAtModRM(width: nat, reg: Option<Operand>, rm: Operand)
    requires Scalar(width) && (rm.Reg? || rm.Mem?) && Check(rm).None? && (reg.Some? ==> reg.value.Reg? && Check(reg.value).None?)
    requires !(RexFor(width, reg, rm).Present() && High8(reg, rm))
    ensures AtModRM(SeenPrefixes(SegmentOf(rm), width, RexFor(width, reg, rm)), width, reg, rm)
  {
    if reg.Some? {
      RegisterRead(reg.value, RexFor(width, reg, rm));
    }
  }

  lemma Regroup(prefix: seq<nat>, opcode: seq<nat>, address: seq<nat>, imm: seq<nat>, rest: seq<nat>)
    ensures prefix + opcode + (address + imm) + rest == prefix + (opcode + (address + (imm + rest)))
  {
  }

  /** The bytes of a form begin with n bytes that the decoder has read as p and shape. */
  predicate Headed(dec: Decoder, bytes: seq<nat>, shape: Shape, address: seq<nat>, imm: seq<nat>, rest: seq<nat>, p: Prefixes, n: nat) {
    dec(bytes + rest) == Moved(ReadShape(shape, address + (imm + rest), p), n) && |bytes| == n + |address| + |imm|
  }

  lemma HeadedBytes(dec: Decoder, bytes: seq<nat>, segment: Segment, width: nat, rex: Rex, opcode: seq<nat>, address: seq<nat>, imm: seq<nat>, rest: seq<nat>)
    requires HeadLaw(dec)
    requires GoodOpcode(opcode) && bytes == PrefixBytes(segment, width, rex) + opcode + (address + imm)
    ensures Headed(dec, bytes, ShapeOf(opcode), address, imm, rest, SeenPrefixes(segment, width, rex),
                   |PrefixBytes(segment, width, rex)| + |opcode|)
  {
    Regroup(PrefixBytes(segment, width, rex), opcode, address, imm, rest);
    HeadRead(dec, bytes + rest, segment, width, rex, opcode, address + (imm + rest));
  }

  lemma ModRMBytes(opcode: seq<nat>, width: nat, reg: Option<Operand>, digit: nat, rm: Operand, imm: seq<nat>)
    requires (rm.Reg? || rm.Mem?) && Check(rm).None? && (reg.Some? ==> reg.value.Reg?) && ModRM(opcode, width, reg, digit, rm, imm).Ok?
    ensures ModRM(opcode, width, reg, digit, rm, imm).value.bytes ==
            PrefixBytes(SegmentOf(rm), width, RexFor(width, reg, rm)) + opcode + (Address(FieldCode(reg, digit), rm) + imm)
    ensures !(RexFor(width, reg, rm).Present() && High8(reg, rm))
  {
  }

  function FieldCode(reg: Option<Operand>, digit: nat): nat
    requires reg.Some? ==> reg.value.Reg?
  {
    if reg.Some? then RegCode(reg.value) else digit
  }

  lemma ModRMRead(dec: Decoder, opcode: seq<nat>, width: nat, reg: Option<Operand>, digit: nat, rm: Operand, imm: seq<nat>, rest: seq<nat>)
    returns (p: Prefixes, n: nat)
    requires HeadLaw(dec)
    requires GoodOpcode(opcode) && Scalar(width) && (rm.Reg? || rm.Mem?) && Check(rm).None?
    requires reg.Some? ==> reg.value.Reg? && Check(reg.value).None?
    requires ModRM(opcode, width, reg, digit, rm, imm).Ok?
    ensures AtModRM(p, width, reg, rm)
    ensures Headed(dec, ModRM(opcode, width, reg, digit, rm, imm).value.bytes, ShapeOf(opcode),
                   Address(FieldCode(reg, digit), rm), imm, rest, p, n)
  {
    hide AtModRM;
    var rex, segment := RexFor(width, reg, rm), SegmentOf(rm);
    var bytes, address := ModRM(opcode, width, reg, digit, rm, imm).value.bytes, Address(FieldCode(reg, digit), rm);
    p := SeenPrefixes(segment, width, rex);
    n := |PrefixBytes(segment, width, rex)| + |opcode|;
    ModRMBytes(opcode, width, reg, digit, rm, imm);
    SeenAtModRM(width, reg, rm);
    HeadedBytes(dec, bytes, segment, width, rex, opcode, address, imm, rest);
  }

  predicate WidthBit(width: nat, wide: bool) {
    Scalar(width) && (wide <==> width != 8)
  }

  /** The shapes with a register field, once the address has been read. */
  lemma ShapeRead(shape: Shape, b: seq<nat>, p: Prefixes, width: nat, f: ModField, place: Place)
    requires width == match shape
                      case RmReg(_, wide) => (if wide then OperandSize(p) else 8)
                      case RegRm(_, wide) => (if wide then OperandSize(p) else 8)
                      case RegRmFrom(_, source) => source
                      case _ => OperandSize(p)
    requires ReadModRM(b, p, width) == Some(f)
    requires place == RegisterPlace(if shape.RegRmFrom? then OperandSize(p) else width, RegNumber(f, p), p.rex.Present())
    ensures shape.RmReg? ==> ReadShape(shape, b, p) == Some(Decoded(Insn(shape.m, [f.place, place]), f.used))
    ensures shape.RegRm? || shape.RegRmFrom? ==> ReadShape(shape, b, p) == Some(Decoded(Insn(shape.m, [place, f.place]), f.used))
    ensures shape.LeaShape? && f.place.M? ==> ReadShape(shape, b, p) == Some(Decoded(Insn(Lea, [place, f.place]), f.used))
  {
  }

  /** Forms with a register field and no immediate: the register is read back as well. */
  lemma RegisterHead(shape: Shape, width: nat, reg: Operand, rm: Operand, rmWidth: nat, rest: seq<nat>, p: Prefixes)
    requires shape.RmReg? || shape.RegRm? || shape.RegRmFrom? || (shape.LeaShape? && rm.Mem?)
    requires reg.Reg? && Check(reg).None? && reg.width == width && (rm.Reg? || rm.Mem?) && Check(rm).None?
    requires rm.Reg? ==> rmWidth == rm.width
    requires match shape
             case RmReg(_, wide) => WidthBit(width, wide) && rmWidth == width
             case RegRm(_, wide) => WidthBit(width, wide) && rmWidth == width
             case RegRmFrom(_, source) => width != 8 && rmWidth == source
             case _ => width == 64 == rmWidth
    requires AtModRM(p, width, Some(reg), rm)
    ensures ReadShape(shape, Address(RegCode(reg), rm) + ([] + rest), p) ==
            Some(Decoded(Insn(if shape.LeaShape? then Lea else shape.m,
                              if shape.RmReg? then [WithWidth(PlaceOf(rm), rmWidth), PlaceOf(reg)]
                              else [PlaceOf(reg), WithWidth(PlaceOf(rm), rmWidth)]), |Address(RegCode(reg), rm)|))
  {
    var address := Address(RegCode(reg), rm);
    AddressRead(RegCode(reg), rm, [] + rest, p, rmWidth);
    ShapeRead(shape, address + ([] + rest), p, rmWidth,
              X64Decoder.ModField(RegCode(reg) % 8, WithWidth(PlaceOf(rm), rmWidth), |address|), PlaceOf(reg));
  }

  /** What a group member reads after the address. */
  function GroupPlaces(place: Place, extra: Extra, value: nat): seq<Place> {
    match extra case Nothing => [place] case One => [place, I(1)] case InCl => [place, CL] case _ => [place, I(value)]
  }

  predicate ExtraField(m: Mnemonic, extra: Extra, width: nat, imm: seq<nat>, value: nat) {
    match extra
    case ByteField => |imm| == 1 && value == if m.Shift? then imm[0] else Extended(imm, width)
    case SizeField => |imm| == FieldBytes(width) && value == Extended(imm, width)
    case _ => imm == []
  }

  lemma ExtraRead(m: Mnemonic, extra: Extra, width: nat, f: ModField, address: seq<nat>, imm: seq<nat>, value: nat, rest: seq<nat>)
    requires f.used == |address| && ExtraField(m, extra, width, imm, value)
    ensures ReadExtra(m, extra, width, f, address + (imm + rest)) ==
            Some(Decoded(Insn(m, GroupPlaces(f.place, extra, value)), |address| + |imm|))
  {
    var b := address + (imm + rest);
    ImmAt(address, imm, rest, width);
    if extra == ByteField {
      assert b[|address|] == imm[0];
    }
  }

  lemma GroupRead(g: GroupId, wide: bool, m: Mnemonic, extra: Extra, always64: bool, width: nat, b: seq<nat>, p: Prefixes, f: ModField, d: Decoded)
    requires b != [] && GroupMember(g, wide, b[0] / 8 % 8) == Member(m, extra, always64)
    requires width == if always64 then 64 else if wide then OperandSize(p) else 8
    requires ReadModRM(b, p, width) == Some(f) && ReadExtra(m, extra, width, f, b) == Some(d)
    ensures ReadShape(Group(g, wide), b, p) == Some(d)
  {
  }

  lemma GroupHead(g: GroupId, wide: bool, digit: nat, m: Mnemonic, extra: Extra, always64: bool,
                  width: nat, rm: Operand, imm: seq<nat>, value: nat, rest: seq<nat>, p: Prefixes)
    requires digit < 8 && GroupMember(g, wide, digit) == Member(m, extra, always64)
    requires (rm.Reg? || rm.Mem?) && Check(rm).None?
    requires if always64 then rm.width == 64 && width == 32 else WidthBit(width, wide) && rm.width == width
    requires ExtraField(m, extra, rm.width, imm, value) && AtModRM(p, width, None, rm)
    ensures ReadShape(Group(g, wide), Address(digit, rm) + (imm + rest), p) ==
            Some(Decoded(Insn(m, GroupPlaces(PlaceOf(rm), extra, value)), |Address(digit, rm)| + |imm|))
  {
    hide GroupMember;
    var address := Address(digit, rm);
    var f := X64Decoder.ModField(digit, PlaceOf(rm), |address|);
    AddressRead(digit, rm, imm + rest, p, rm.width);
    SamePlace(rm);
    DigitSeen(digit, rm, imm + rest);
    ExtraRead(m, extra, rm.width, f, address, imm, value, rest);
    GroupRead(g, wide, m, extra, always64, rm.width, address + (imm + rest), p, f,
              Decoded(Insn(m, GroupPlaces(PlaceOf(rm), extra, value)), |address| + |imm|));
  }

  lemma DigitSeen(digit: nat, rm: Operand, rest: seq<nat>)
    requires digit < 8 && (rm.Reg? || rm.Mem?) && Check(rm).None?
    ensures (Address(digit, rm) + rest)[0] / 8 % 8 == digit
  {
    if rm.Reg? {
      ModByte(3, digit, RegCode(rm) % 8);
    } else if rm.base == -2 {
      ModByte(0, digit, 5);
    } else {
      ModByte(ModBits(rm), digit, if NeedsSib(rm) then 4 else rm.base % 8);
    }
  }

  lemma ImulShape(byteImm: bool, b: seq<nat>, p: Prefixes, f: ModField, place: Place, value: nat)
    requires ReadModRM(b, p, OperandSize(p)) == Some(f) && place == RegisterPlace(OperandSize(p), RegNumber(f, p), p.rex.Present())
    requires ReadImm(b, f.used, if byteImm then 1 else FieldBytes(OperandSize(p)), OperandSize(p)) == Some(value)
    ensures ReadShape(RegRmImm(Imul, byteImm), b, p) ==
            Some(Decoded(Insn(Imul, [place, f.place, I(value)]), f.used + if byteImm then 1 else FieldBytes(OperandSize(p))))
  {
  }

  lemma SamePlace(rm: Operand)
    requires rm.Reg? || rm.Mem?
    ensures WithWidth(PlaceOf(rm), rm.width) == PlaceOf(rm)
  {
  }

  lemma ImmAt(address: seq<nat>, imm: seq<nat>, rest: seq<nat>, width: nat)
    ensures ReadImm(address + (imm + rest), |address|, |imm|, width) == Some(Extended(imm, width))
  {
    assert (address + (imm + rest))[|address|..|address| + |imm|] == imm;
  }

  lemma ImulBody(byteImm: bool, b: seq<nat>, p: Prefixes, code: nat, reg: Operand, place: Place, used: nat, k: nat, value: nat)
    requires reg.Reg? && reg.width == OperandSize(p) && k == if byteImm then 1 else FieldBytes(reg.width)
    requires RegisterPlace(reg.width, code + (if p.rex.r then 8 else 0), p.rex.Present()) == PlaceOf(reg)
    requires ReadModRM(b, p, reg.width) == Some(X64Decoder.ModField(code, place, used))
    requires ReadImm(b, used, k, reg.width) == Some(value)
    ensures ReadShape(RegRmImm(Imul, byteImm), b, p) == Some(Decoded(Insn(Imul, [PlaceOf(reg), place, I(value)]), used + k))
  {
    ImulShape(byteImm, b, p, X64Decoder.ModField(code, place, used), PlaceOf(reg), value);
  }

  lemma ImulHead(byteImm: bool, reg: Operand, rm: Operand, imm: seq<nat>, rest: seq<nat>, p: Prefixes)
    requires reg.Reg? && Check(reg).None? && (rm.Reg? || rm.Mem?) && Check(rm).None? && rm.width == reg.width && reg.width != 8
    requires |imm| == (if byteImm then 1 else FieldBytes(reg.width)) && AtModRM(p, reg.width, Some(reg), rm)
    ensures ReadShape(RegRmImm(Imul, byteImm), Address(RegCode(reg), rm) + (imm + rest), p) ==
            Some(Decoded(Insn(Imul, [PlaceOf(reg), PlaceOf(rm), I(Extended(imm, reg.width))]), |Address(RegCode(reg), rm)| + |imm|))
  {
    var address := Address(RegCode(reg), rm);
    AddressRead(RegCode(reg), rm, imm + rest, p, reg.width);
    ImmAt(address, imm, rest, reg.width);
    SamePlace(rm);
    ImulBody(byteImm, address + (imm + rest), p, RegCode(reg) % 8, reg, PlaceOf(rm), |address|, |imm|, Extended(imm, reg.width));
  }

  /** The head and the body of a form together. */
  lemma Finishes(dec: Decoder, code: Code, shape: Shape, address: seq<nat>, imm: seq<nat>, rest: seq<nat>, p: Prefixes, n: nat, insn: Insn)
    requires HeadLaw(dec)
    requires Headed(dec, code.bytes, shape, address, imm, rest, p, n)
    requires ReadShape(shape, address + (imm + rest), p) == Some(Decoded(insn, |address| + |imm|))
    ensures Reads(dec, code, insn, rest)
  {
  }

  // ----- Forms without ModRM -----

  lemma PlainRead(dec: Decoder, width: nat, rex: Rex, opcode: seq<nat>, imm: seq<nat>, rest: seq<nat>)
    requires HeadLaw(dec)
    requires GoodOpcode(opcode)
    ensures Headed(dec, PrefixBytes(NoSegment, width, rex) + (opcode + imm), ShapeOf(opcode), [], imm, rest,
                   SeenPrefixes(NoSegment, width, rex), |PrefixBytes(NoSegment, width, rex)| + |opcode|)
  {
    var prefix := PrefixBytes(NoSegment, width, rex);
    assert prefix + (opcode + imm) == prefix + opcode + ([] + imm);
    HeadedBytes(dec, prefix + (opcode + imm), NoSegment, width, rex, opcode, [], imm, rest);
  }

  // ----- Whole forms -----

  /** A form reads as insn when its body does after any prefixes that fit its operands. */
  lemma FormReads(dec: Decoder, opcode: seq<nat>, shape: Shape, width: nat, reg: Option<Operand>, digit: nat, rm: Operand, imm: seq<nat>,
                  insn: Insn, rest: seq<nat>)
    requires HeadLaw(dec)
    requires GoodOpcode(opcode) && ShapeOf(opcode) == shape && Scalar(width) && (rm.Reg? || rm.Mem?) && Check(rm).None?
    requires reg.Some? ==> reg.value.Reg? && Check(reg.value).None?
    requires ModRM(opcode, width, reg, digit, rm, imm).Ok?
    requires forall p :: AtModRM(p, width, reg, rm) ==>
               ReadShape(shape, Address(FieldCode(reg, digit), rm) + (imm + rest), p) ==
               Some(Decoded(insn, |Address(FieldCode(reg, digit), rm)| + |imm|))
    ensures Reads(dec, ModRM(opcode, width, reg, digit, rm, imm).value, insn, rest)
  {
    var p, n := ModRMRead(dec, opcode, width, reg, digit, rm, imm, rest);
    Finishes(dec, ModRM(opcode, width, reg, digit, rm, imm).value, shape, Address(FieldCode(reg, digit), rm), imm, rest, p, n, insn);
  }

  predicate RegisterShape(shape: Shape, reg: Operand, rm: Operand, rmWidth: nat) {
    && reg.Reg? && (rm.Reg? || rm.Mem?) && (rm.Reg? ==> rmWidth == rm.width)
    && match shape
       case RmReg(_, wide) => WidthBit(reg.width, wide) && rmWidth == reg.width
       case RegRm(_, wide) => WidthBit(reg.width, wide) && rmWidth == reg.width
       case RegRmFrom(_, source) => reg.width != 8 && rmWidth == source
       case LeaShape => rm.Mem? && reg.width == 64 == rmWidth
       case _ => false
  }

  function RegisterInsn(shape: Shape, reg: Operand, rm: Operand, rmWidth: nat): Insn
    requires RegisterShape(shape, reg, rm, rmWidth)
  {
    Insn(if shape.LeaShape? then Lea else shape.m,
         if shape.RmReg? then [WithWidth(PlaceOf(rm), rmWidth), PlaceOf(reg)] else [PlaceOf(reg), WithWidth(PlaceOf(rm), rmWidth)])
  }

  lemma RegisterForm(dec: Decoder, opcode: seq<nat>, shape: Shape, reg: Operand, rm: Operand, rmWidth: nat, rest: seq<nat>)
    requires HeadLaw(dec)
    requires RegisterShape(shape, reg, rm, rmWidth) && Check(reg).None? && Check(rm).None?
    requires GoodOpcode(opcode) && ShapeOf(opcode) == shape && ModRM(opcode, reg.width, Some(reg), 0, rm, []).Ok?
    ensures Reads(dec, ModRM(opcode, reg.width, Some(reg), 0, rm, []).value, RegisterInsn(shape, reg, rm, rmWidth), rest)
  {
    RegisterBody(shape, reg, rm, rmWidth, rest);
    FormReads(dec, opcode, shape, reg.width, Some(reg), 0, rm, [], RegisterInsn(shape, reg, rm, rmWidth), rest);
  }

  lemma RegisterBody(shape: Shape, reg: Operand, rm: Operand, rmWidth: nat, rest: seq<nat>)
    requires RegisterShape(shape, reg, rm, rmWidth) && Check(reg).None? && Check(rm).None?
    ensures forall p :: AtModRM(p, reg.width, Some(reg), rm) ==>
              ReadShape(shape, Address(FieldCode(Some(reg), 0), rm) + ([] + rest), p) ==
              Some(Decoded(RegisterInsn(shape, reg, rm, rmWidth), |Address(FieldCode(Some(reg), 0), rm)|))
  {
    forall p | AtModRM(p, reg.width, Some(reg), rm)
      ensures ReadShape(shape, Address(FieldCode(Some(reg), 0), rm) + ([] + rest), p) ==
              Some(Decoded(RegisterInsn(shape, reg, rm, rmWidth), |Address(FieldCode(Some(reg), 0), rm)|))
    {
      RegisterHead(shape, reg.width, reg, rm, rmWidth, rest, p);
    }
  }

  lemma GroupBody(g: GroupId, wide: bool, digit: nat, m: Mnemonic, extra: Extra, always64: bool,
                  width: nat, rm: Operand, imm: seq<nat>, value: nat, rest: seq<nat>)
    requires digit < 8 && GroupMember(g, wide, digit) == Member(m, extra, always64)
    requires (rm.Reg? || rm.Mem?) && Check(rm).None?
    requires if always64 then rm.width == 64 && width == 32 else WidthBit(width, wide) && rm.width == width
    requires ExtraField(m, extra, rm.width, imm, value)
    ensures forall p :: AtModRM(p, width, None, rm) ==>
              ReadShape(Group(g, wide), Address(digit, rm) + (imm + rest), p) ==
              Some(Decoded(Insn(m, GroupPlaces(PlaceOf(rm), extra, value)), |Address(digit, rm)| + |imm|))
  {
    forall p | AtModRM(p, width, None, rm)
      ensures ReadShape(Group(g, wide), Address(digit, rm) + (imm + rest), p) ==
              Some(Decoded(Insn(m, GroupPlaces(PlaceOf(rm), extra, value)), |Address(digit, rm)| + |imm|))
    {
      GroupHead(g, wide, digit, m, extra, always64, width, rm, imm, value, rest, p);
    }
  }

  lemma GroupForm(dec: Decoder, opcode: seq<nat>, g: GroupId, wide: bool, digit: nat, m: Mnemonic, extra: Extra, always64: bool,
                  width: nat, rm: Operand, imm: seq<nat>, value: nat, rest: seq<nat>)
    requires HeadLaw(dec)
    requires GoodOpcode(opcode) && ShapeOf(opcode) == Group(g, wide)
    requires digit < 8 && GroupMember(g, wide, digit) == Member(m, extra, always64)
    requires (rm.Reg? || rm.Mem?) && Check(rm).None?
    requires if always64 then rm.width == 64 && width == 32 else WidthBit(width, wide) && rm.width == width
    requires ExtraField(m, extra, rm.width, imm, value) && ModRM(opcode, width, None, digit, rm, imm).Ok?
    ensures Reads(dec, ModRM(opcode, width, None, digit, rm, imm).value, Insn(m, GroupPlaces(PlaceOf(rm), extra, value)), rest)
  {
    hide HeadLaw, GoodOpcode;
    GroupBody(g, wide, digit, m, extra, always64, width, rm, imm, value, rest);
    FormReads(dec, opcode, Group(g, wide), width, None, digit, rm, imm, Insn(m, GroupPlaces(PlaceOf(rm), extra, value)), rest);
  }

  lemma ImulForm(dec: Decoder, byteImm: bool, reg: Operand, rm: Operand, imm: seq<nat>, rest: seq<nat>)
    requires HeadLaw(dec)
    requires reg.Reg? && Check(reg).None? && (rm.Reg? || rm.Mem?) && Check(rm).None? && rm.width == reg.width && reg.width != 8
    requires |imm| == if byteImm then 1 else FieldBytes(reg.width)
    requires ModRM([if byteImm then 0x6b else 0x69], reg.width, Some(reg), 0, rm, imm).Ok?
    ensures Reads(dec, ModRM([if byteImm then 0x6b else 0x69], reg.width, Some(reg), 0, rm, imm).value,
                  Insn(Imul, [PlaceOf(reg), PlaceOf(rm), I(Extended(imm, reg.width))]), rest)
  {
    var p, n := ModRMRead(dec, [if byteImm then 0x6b else 0x69], reg.width, Some(reg), 0, rm, imm, rest);
    ImulHead(byteImm, reg, rm, imm, rest, p);
    Finishes(dec, ModRM([if byteImm then 0x6b else 0x69], reg.width, Some(reg), 0, rm, imm).value, RegRmImm(Imul, byteImm),
             Address(RegCode(reg), rm), imm, rest, p, n, Insn(Imul, [PlaceOf(reg), PlaceOf(rm), I(Extended(imm, reg.width))]));
  }

  lemma MovImmForm(dec: Decoder, d: Operand, s: Operand, rest: seq<nat>)
    requires HeadLaw(dec)
    requires d.Reg? && Check(d).None? && s.Imm? && s.imm < W64
    requires !(Rex(d.width == 64, false, false, d.reg >= 8, NeedsRex(d)).Present() && d.high8)
    ensures var rex := Rex(d.width == 64, false, false, d.reg >= 8, NeedsRex(d));
            var opcode := [(if d.width == 8 then 0xb0 else 0xb8) + RegCode(d) % 8];
            Reads(dec, Code(PrefixBytes(NoSegment, d.width, rex) + (opcode + Little(s.imm, d.width / 8)), 0, 0),
                  Insn(Mov, [PlaceOf(d), I(s.imm % TwoTo(d.width))]), rest)
  {
    hide Little, PlaceOf, SeenPrefixes, Headed, ReadShape, Starts, Moved;
    var rex := Rex(d.width == 64, false, false, d.reg >= 8, NeedsRex(d));
    var opcode := [(if d.width == 8 then 0xb0 else 0xb8) + RegCode(d) % 8];
    var imm := Little(s.imm, d.width / 8);
    var p, n := SeenPrefixes(NoSegment, d.width, rex), |PrefixBytes(NoSegment, d.width, rex)| + |opcode|;
    PlainRead(dec, d.width, rex, opcode, imm, rest);
    MovImmHead(d, s, imm, rest, p);
    Finishes(dec, Code(PrefixBytes(NoSegment, d.width, rex) + (opcode + imm), 0, 0), ShapeOf(opcode), [], imm, rest, p, n,
             Insn(Mov, [PlaceOf(d), I(s.imm % TwoTo(d.width))]));
  }

  lemma MovImmHead(d: Operand, s: Operand, imm: seq<nat>, rest: seq<nat>, p: Prefixes)
    requires d.Reg? && Check(d).None? && s.Imm? && s.imm < W64 && imm == Little(s.imm, d.width / 8)
    requires var rex := Rex(d.width == 64, false, false, d.reg >= 8, NeedsRex(d));
             p == SeenPrefixes(NoSegment, d.width, rex) && !(rex.Present() && d.high8)
    ensures ReadShape(MovImm(RegCode(d) % 8, d.width != 8), [] + (imm + rest), p) ==
            Some(Decoded(Insn(Mov, [PlaceOf(d), I(s.imm % TwoTo(d.width))]), |imm|))
  {
    hide Number, Little, Pow256;
    var b := [] + (imm + rest);
    PowTable();
    NumberOfLittle(s.imm, d.width / 8);
    RegisterRead(d, Rex(d.width == 64, false, false, d.reg >= 8, NeedsRex(d)));
    assert b[..d.width / 8] == imm;
    assert Pow256(d.width / 8) == TwoTo(d.width);
  }

  lemma AccumulatorForm(dec: Decoder, opcode: nat, m: Mnemonic, wide: bool, d: Operand, imm: seq<nat>, rest: seq<nat>)
    requires HeadLaw(dec)
    requires GoodOpcode([opcode]) && OneByte(opcode) == Accumulator(m, wide) && d.Reg? && Check(d).None? && d.reg == 0 && !d.high8
    requires WidthBit(d.width, wide) && |imm| == FieldBytes(d.width)
    ensures Reads(dec, Code(PrefixBytes(NoSegment, d.width, Rex(d.width == 64, false, false, false, false)) + ([opcode] + imm), 0, 0),
                  Insn(m, [PlaceOf(d), I(Extended(imm, d.width))]), rest)
  {
    var rex := Rex(d.width == 64, false, false, false, false);
    var p, n := SeenPrefixes(NoSegment, d.width, rex), |PrefixBytes(NoSegment, d.width, rex)| + 1;
    PlainRead(dec, d.width, rex, [opcode], imm, rest);
    ImmAt([], imm, rest, d.width);
    AccumulatorHead(m, wide, d, imm, [] + (imm + rest), p);
    Finishes(dec, Code(PrefixBytes(NoSegment, d.width, rex) + ([opcode] + imm), 0, 0), Accumulator(m, wide), [], imm, rest, p, n,
             Insn(m, [PlaceOf(d), I(Extended(imm, d.width))]));
  }

  lemma AccumulatorHead(m: Mnemonic, wide: bool, d: Operand, imm: seq<nat>, b: seq<nat>, p: Prefixes)
    requires d.Reg? && d.reg == 0 && !d.high8 && WidthBit(d.width, wide) && (wide ==> OperandSize(p) == d.width)
    requires |imm| == FieldBytes(d.width) && ReadImm(b, 0, |imm|, d.width) == Some(Extended(imm, d.width))
    ensures ReadShape(Accumulator(m, wide), b, p) == Some(Decoded(Insn(m, [PlaceOf(d), I(Extended(imm, d.width))]), |imm|))
  {
  }

  /** push imm and relative branches. */
  lemma FieldForm(dec: Decoder, opcode: seq<nat>, shape: Shape, m: Mnemonic, imm: seq<nat>, rest: seq<nat>)
    requires HeadLaw(dec)
    requires GoodOpcode(opcode) && ShapeOf(opcode) == shape
    requires (shape == ImmOnly(m, |imm|) || (shape == RelOnly(m) && |imm| == 4))
    ensures Reads(dec, Code(PrefixBytes(NoSegment, 32, NO_REX) + (opcode + imm), 0, 0), Insn(m, [I(Extended(imm, 64))]), rest)
  {
    PlainRead(dec, 32, NO_REX, opcode, imm, rest);
    ImmAt([], imm, rest, 64);
    FieldHead(shape, m, imm, [] + (imm + rest), SeenPrefixes(NoSegment, 32, NO_REX));
    Finishes(dec, Code(PrefixBytes(NoSegment, 32, NO_REX) + (opcode + imm), 0, 0), shape, [], imm, rest,
             SeenPrefixes(NoSegment, 32, NO_REX), |PrefixBytes(NoSegment, 32, NO_REX)| + |opcode|, Insn(m, [I(Extended(imm, 64))]));
  }

  lemma FieldHead(shape: Shape, m: Mnemonic, imm: seq<nat>, b: seq<nat>, p: Prefixes)
    requires (shape == ImmOnly(m, |imm|) || (shape == RelOnly(m) && |imm| == 4))
    requires ReadImm(b, 0, |imm|, 64) == Some(Extended(imm, 64))
    ensures ReadShape(shape, b, p) == Some(Decoded(Insn(m, [I(Extended(imm, 64))]), |imm|))
  {
  }

  lemma OpcodeRegisterForm(dec: Decoder, push: bool, d: Operand, rest: seq<nat>)
    requires HeadLaw(dec)
    requires d.Reg? && Check(d).None? && d.width == 64
    ensures var rex := Rex(false, false, false, d.reg >= 8, false);
            Reads(dec, Code(PrefixBytes(NoSegment, 32, rex) + [(if push then 0x50 else 0x58) + d.reg % 8], 0, 0),
                  Insn(if push then Push else Pop, [PlaceOf(d)]), rest)
  {
    var rex := Rex(false, false, false, d.reg >= 8, false);
    var opcode := [(if push then 0x50 else 0x58) + d.reg % 8];
    var p, n := SeenPrefixes(NoSegment, 32, rex), |PrefixBytes(NoSegment, 32, rex)| + 1;
    PlainRead(dec, 32, rex, opcode, [], rest);
    assert opcode + [] == opcode;
    assert ReadShape(InOpcode(if push then Push else Pop, d.reg % 8), [] + ([] + rest), p) ==
           Some(Decoded(Insn(if push then Push else Pop, [PlaceOf(d)]), 0));
    Finishes(dec, Code(PrefixBytes(NoSegment, 32, rex) + opcode, 0, 0), ShapeOf(opcode), [], [], rest, p, n,
             Insn(if push then Push else Pop, [PlaceOf(d)]));
  }

  // ----- The expected instruction -----

  function Source(s: Operand, width: nat): Place {
    match s case Imm(v, _, _) => I(v % TwoTo(width)) case Rel(v, _, _) => I(v % TwoTo(width)) case _ => PlaceOf(s)
  }

  /** What the operands say: loads and stores are moves, immediates are cut to the operation's
      width, an address operand of lea has no width of its own. */
  function Expected(m: Mnemonic, ops: seq<Operand>): Insn
    requires GoodCount(m, |ops|)
    requires ops[0].Imm? || ops[0].Rel? ==> m == Push || m == CallOp || m == JmpOp || m.Jcc?
  {
    match m
    case LoadOp => Insn(Mov, [PlaceOf(ops[0]), Source(ops[1], ops[0].width)])
    case StoreOp => Insn(Mov, [PlaceOf(ops[0]), Source(ops[1], ops[0].width)])
    case Lea => Insn(Lea, [PlaceOf(ops[0]), if ops[1].Mem? then WithWidth(PlaceOf(ops[1]), 64) else Source(ops[1], 64)])
    case Shift(_) => Insn(m, [PlaceOf(ops[0]), if ops[1].Reg? then CL else Source(ops[1], 64)])
    case Push => Insn(m, [Source(ops[0], 64)])
    case CallOp => Insn(m, [Source(ops[0], 64)])
    case JmpOp => Insn(m, [Source(ops[0], 64)])
    case Jcc(_) => Insn(m, [Source(ops[0], 64)])
    case Imul =>
      Insn(m, if |ops| == 3 then [PlaceOf(ops[0]), Source(ops[1], ops[0].width), Source(ops[2], ops[0].width)]
              else [PlaceOf(ops[0]), Source(ops[1], ops[0].width)])
    case _ => Insn(m, PlainPlaces(ops))
  }

  function PlainPlaces(ops: seq<Operand>): seq<Place>
    requires |ops| > 0 && (ops[0].Reg? || ops[0].Mem?)
  {
    if |ops| == 2 then [PlaceOf(ops[0]), Source(ops[1], ops[0].width)] else [PlaceOf(ops[0])]
  }

  lemma TwoOperandForm(dec: Decoder, m: Mnemonic, base: nat, d: Operand, s: Operand, rest: seq<nat>)
    requires HeadLaw(dec)
    requires (base == 0x88 && m == Mov) || (base == 0x84 && m == Test) || (m.Alu? && m.group < 8 && base == 8 * m.group)
    requires s.Reg? && (d.Reg? || d.Mem?) && Check(d).None? && Check(s).None? && d.width == s.width
    requires ModRM([base + if d.width == 8 then 0 else 1], d.width, Some(s), 0, d, []).Ok?
    ensures Reads(dec, ModRM([base + if d.width == 8 then 0 else 1], d.width, Some(s), 0, d, []).value, Insn(m, [PlaceOf(d), PlaceOf(s)]), rest)
  {
    hide HeadLaw;
    SamePlace(d);
    RegisterForm(dec, [base + if d.width == 8 then 0 else 1], RmReg(m, d.width != 8), s, d, d.width, rest);
  }

  lemma FromMemoryForm(dec: Decoder, m: Mnemonic, base: nat, d: Operand, s: Operand, rest: seq<nat>)
    requires HeadLaw(dec)
    requires (base == 0x8a && m == Mov) || (m.Alu? && m.group < 8 && base == 8 * m.group + 2)
    requires d.Reg? && s.Mem? && Check(d).None? && Check(s).None? && d.width == s.width
    requires ModRM([base + if d.width == 8 then 0 else 1], d.width, Some(d), 0, s, []).Ok?
    ensures Reads(dec, ModRM([base + if d.width == 8 then 0 else 1], d.width, Some(d), 0, s, []).value, Insn(m, [PlaceOf(d), PlaceOf(s)]), rest)
  {
    SamePlace(s);
    RegisterForm(dec, [base + if d.width == 8 then 0 else 1], RegRm(m, d.width != 8), d, s, d.width, rest);
  }

  lemma MovMemImmReads(dec: Decoder, d: Operand, s: Operand, rest: seq<nat>)
    requires HeadLaw(dec)
    requires d.Mem? && s.Imm? && Check(d).None? && s.imm < W64 && Scalar(d.width)
    requires Fits(s.imm, s.signed, if d.width == 64 then 32 else d.width, d.width == 64)
    requires ModRM([if d.width == 8 then 0xc6 else 0xc7], d.width, None, 0, d, Little(s.imm, ImmSize(d.width))).Ok?
    ensures Reads(dec, ModRM([if d.width == 8 then 0xc6 else 0xc7], d.width, None, 0, d, Little(s.imm, ImmSize(d.width))).value,
                  Insn(Mov, [PlaceOf(d), I(s.imm % TwoTo(d.width))]), rest)
  {
    ImmField(s.imm, s.signed, ImmSize(d.width), d.width);
    GroupForm(dec, [if d.width == 8 then 0xc6 else 0xc7], MovGroup, d.width != 8, 0, Mov, SizeField, false, d.width, d,
              Little(s.imm, ImmSize(d.width)), s.imm % TwoTo(d.width), rest);
  }

  lemma MovRegImmReads(dec: Decoder, m: Mnemonic, d: Operand, s: Operand, rest: seq<nat>)
    requires HeadLaw(dec)
    requires ValidOperand(d) && ValidOperand(s) && d.Reg? && s.Imm? && EncodeMov(m, d, s).Ok?
    ensures Reads(dec, EncodeMov(m, d, s).value, Insn(Mov, [PlaceOf(d), I(s.imm % TwoTo(d.width))]), rest)
  {
    MovImmForm(dec, d, s, rest);
  }

  lemma MovReads(dec: Decoder, m: Mnemonic, d: Operand, s: Operand, rest: seq<nat>)
    requires HeadLaw(dec)
    requires ValidOperand(d) && ValidOperand(s) && EncodeMov(m, d, s).Ok?
    ensures d.Reg? || d.Mem?
    ensures Reads(dec, EncodeMov(m, d, s).value, Insn(Mov, [PlaceOf(d), Source(s, d.width)]), rest)
  {
    match s
    case Reg(_, _, _) => TwoOperandForm(dec, Mov, 0x88, d, s, rest);
    case Mem(_, _, _, _, _, _) => FromMemoryForm(dec, Mov, 0x8a, d, s, rest);
    case _ =>
      if d.Mem? {
        MovMemImmReads(dec, d, s, rest);
      } else {
        MovRegImmReads(dec, m, d, s, rest);
      }
  }

  lemma AluReads(dec: Decoder, group: nat, d: Operand, s: Operand, rest: seq<nat>)
    requires HeadLaw(dec)
    requires group < 8 && ValidOperand(d) && ValidOperand(s) && EncodeAlu(group, d, s).Ok?
    ensures d.Reg? || d.Mem?
    ensures Reads(dec, EncodeAlu(group, d, s).value, Insn(Alu(group), [PlaceOf(d), Source(s, d.width)]), rest)
  {
    if s.Reg? {
      TwoOperandForm(dec, Alu(group), group * 8, d, s, rest);
    } else if s.Mem? {
      FromMemoryForm(dec, Alu(group), group * 8 + 2, d, s, rest);
    } else {
      AluImmReads(dec, group, d, s, rest);
    }
  }

  predicate ShortAccumulator(d: Operand, s: Operand)
    requires s.Imm?
  {
    d.Reg? && d.reg == 0 && !d.high8 && (d.width == 8 || !Fits(s.imm, s.signed, 8, true))
  }

  lemma AluImmReads(dec: Decoder, group: nat, d: Operand, s: Operand, rest: seq<nat>)
    requires HeadLaw(dec)
    requires group < 8 && ValidOperand(d) && ValidOperand(s) && EncodeAlu(group, d, s).Ok? && s.Imm?
    ensures d.Reg? || d.Mem?
    ensures Reads(dec, EncodeAlu(group, d, s).value, Insn(Alu(group), [PlaceOf(d), Source(s, d.width)]), rest)
  {
    if ShortAccumulator(d, s) {
      AluAccumulatorReads(dec, group, d, s, rest);
    } else {
      AluGroupReads(dec, group, d, s, rest);
    }
  }

  lemma AluAccumulatorReads(dec: Decoder, group: nat, d: Operand, s: Operand, rest: seq<nat>)
    requires HeadLaw(dec)
    requires group < 8 && ValidOperand(d) && s.Imm? && s.imm < W64 && ShortAccumulator(d, s) && ImmFits(d.width, s)
    ensures Reads(dec, Code(PrefixBytes(NoSegment, d.width, Rex(d.width == 64, false, false, false, false)) +
                       ([group * 8 + if d.width == 8 then 4 else 5] + Little(s.imm, ImmSize(d.width))), 0, 0),
                  Insn(Alu(group), [PlaceOf(d), I(s.imm % TwoTo(d.width))]), rest)
  {
    ImmField(s.imm, s.signed, ImmSize(d.width), d.width);
    AccumulatorForm(dec, group * 8 + if d.width == 8 then 4 else 5, Alu(group), d.width != 8, d, Little(s.imm, ImmSize(d.width)), rest);
  }

  lemma AluGroupReads(dec: Decoder, group: nat, d: Operand, s: Operand, rest: seq<nat>)
    requires HeadLaw(dec)
    requires group < 8 && ValidOperand(d) && (d.Reg? || d.Mem?) && Scalar(d.width) && s.Imm? && s.imm < W64 && ImmFits(d.width, s)
    requires var compact := Fits(s.imm, s.signed, 8, true);
             ModRM([if d.width == 8 then 0x80 else if compact then 0x83 else 0x81], d.width, None, group, d,
                   Little(s.imm, if compact then 1 else ImmSize(d.width))).Ok?
    ensures var compact := Fits(s.imm, s.signed, 8, true);
            Reads(dec, ModRM([if d.width == 8 then 0x80 else if compact then 0x83 else 0x81], d.width, None, group, d,
                        Little(s.imm, if compact then 1 else ImmSize(d.width))).value,
                  Insn(Alu(group), [PlaceOf(d), I(s.imm % TwoTo(d.width))]), rest)
  {
    if d.width != 8 && Fits(s.imm, s.signed, 8, true) {
      ImmField(s.imm, s.signed, 1, d.width);
      GroupForm(dec, [0x83], ImmediateByte, true, group, Alu(group), ByteField, false, d.width, d,
                Little(s.imm, 1), s.imm % TwoTo(d.width), rest);
    } else {
      ImmField(s.imm, s.signed, ImmSize(d.width), d.width);
      GroupForm(dec, [if d.width != 8 then 0x81 else 0x80], Immediate, d.width != 8, group, Alu(group), SizeField, false, d.width, d,
                Little(s.imm, ImmSize(d.width)), s.imm % TwoTo(d.width), rest);
    }
  }

  lemma TestReads(dec: Decoder, d: Operand, s: Operand, rest: seq<nat>)
    requires HeadLaw(dec)
    requires ValidOperand(d) && ValidOperand(s) && EncodeTest(d, s).Ok? && Scalar(d.width)
    ensures d.Reg? || d.Mem?
    ensures Reads(dec, EncodeTest(d, s).value, Insn(Test, [PlaceOf(d), Source(s, d.width)]), rest)
  {
    if s.Reg? {
      TwoOperandForm(dec, Test, 0x84, d, s, rest);
    } else if d.Reg? && d.reg == 0 && !d.high8 {
      ImmField(s.imm, s.signed, ImmSize(d.width), d.width);
      AccumulatorForm(dec, if d.width == 8 then 0xa8 else 0xa9, Test, d.width != 8, d, Little(s.imm, ImmSize(d.width)), rest);
    } else {
      TestGroupReads(dec, d, s, rest);
    }
  }

  lemma TestGroupReads(dec: Decoder, d: Operand, s: Operand, rest: seq<nat>)
    requires HeadLaw(dec)
    requires ValidOperand(d) && (d.Reg? || d.Mem?) && Scalar(d.width) && s.Imm? && s.imm < W64 && ImmFits(d.width, s)
    requires ModRM([if d.width == 8 then 0xf6 else 0xf7], d.width, None, 0, d, Little(s.imm, ImmSize(d.width))).Ok?
    ensures Reads(dec, ModRM([if d.width == 8 then 0xf6 else 0xf7], d.width, None, 0, d, Little(s.imm, ImmSize(d.width))).value,
                  Insn(Test, [PlaceOf(d), I(s.imm % TwoTo(d.width))]), rest)
  {
    ImmField(s.imm, s.signed, ImmSize(d.width), d.width);
    GroupForm(dec, [if d.width == 8 then 0xf6 else 0xf7], F6, d.width != 8, 0, Test, SizeField, false, d.width, d,
              Little(s.imm, ImmSize(d.width)), s.imm % TwoTo(d.width), rest);
  }

  predicate IsUnary(m: Mnemonic) {
    m in {Inc, Dec, Not, Neg, Mul, Div, Idiv}
  }

  lemma UnaryReads(dec: Decoder, m: Mnemonic, d: Operand, rest: seq<nat>)
    requires HeadLaw(dec)
    requires IsUnary(m) && ValidOperand(d) && EncodeUnary(m, d).Ok? && Scalar(d.width)
    ensures d.Reg? || d.Mem?
    ensures Reads(dec, EncodeUnary(m, d).value, Insn(m, [PlaceOf(d)]), rest)
  {
    hide ModRM, Starts, Moved;
    var g := if m == Inc || m == Dec then FE else F6;
    GroupForm(dec, [UnaryOpcode(m, d.width == 8)], g, d.width != 8, UnaryDigit(m), m, Nothing, false, d.width, d, [], 0, rest);
  }

  lemma ShiftClReads(dec: Decoder, digit: nat, d: Operand, rest: seq<nat>)
    requires HeadLaw(dec)
    requires digit in {0, 1, 4, 5, 7} && (d.Reg? || d.Mem?) && Check(d).None? && Scalar(d.width)
    requires ModRM([if d.width == 8 then 0xd2 else 0xd3], d.width, None, digit, d, []).Ok?
    ensures Reads(dec, ModRM([if d.width == 8 then 0xd2 else 0xd3], d.width, None, digit, d, []).value, Insn(Shift(digit), [PlaceOf(d), CL]), rest)
  {
    GroupForm(dec, [if d.width == 8 then 0xd2 else 0xd3], ShiftCl, d.width != 8, digit, Shift(digit), InCl, false, d.width, d, [], 0, rest);
  }

  lemma ShiftOneReads(dec: Decoder, digit: nat, d: Operand, rest: seq<nat>)
    requires HeadLaw(dec)
    requires digit in {0, 1, 4, 5, 7} && (d.Reg? || d.Mem?) && Check(d).None? && Scalar(d.width)
    requires ModRM([if d.width == 8 then 0xd0 else 0xd1], d.width, None, digit, d, []).Ok?
    ensures Reads(dec, ModRM([if d.width == 8 then 0xd0 else 0xd1], d.width, None, digit, d, []).value, Insn(Shift(digit), [PlaceOf(d), I(1)]), rest)
  {
    GroupForm(dec, [if d.width == 8 then 0xd0 else 0xd1], ShiftOne, d.width != 8, digit, Shift(digit), One, false, d.width, d, [], 0, rest);
  }

  lemma ShiftByteReads(dec: Decoder, digit: nat, d: Operand, k: nat, rest: seq<nat>)
    requires HeadLaw(dec)
    requires digit in {0, 1, 4, 5, 7} && (d.Reg? || d.Mem?) && Check(d).None? && Scalar(d.width) && k < 256
    requires ModRM([if d.width == 8 then 0xc0 else 0xc1], d.width, None, digit, d, [k]).Ok?
    ensures Reads(dec, ModRM([if d.width == 8 then 0xc0 else 0xc1], d.width, None, digit, d, [k]).value, Insn(Shift(digit), [PlaceOf(d), I(k)]), rest)
  {
    GroupForm(dec, [if d.width == 8 then 0xc0 else 0xc1], ShiftByte, d.width != 8, digit, Shift(digit), ByteField, false, d.width, d, [k], k, rest);
  }

  lemma ShiftImmReads(dec: Decoder, digit: nat, d: Operand, s: Operand, rest: seq<nat>)
    requires HeadLaw(dec)
    requires digit in {0, 1, 4, 5, 7} && ValidOperand(d) && s.Imm? && ValidOperand(s) && EncodeShift(digit, d, s).Ok? && Scalar(d.width)
    ensures d.Reg? || d.Mem?
    ensures Reads(dec, EncodeShift(digit, d, s).value, Insn(Shift(digit), [PlaceOf(d), I(s.imm)]), rest)
  {
    if s.imm == 1 {
      ShiftOneReads(dec, digit, d, rest);
    } else {
      ShiftByteReads(dec, digit, d, s.imm, rest);
    }
  }

  lemma ShiftReads(dec: Decoder, digit: nat, d: Operand, s: Operand, rest: seq<nat>)
    requires HeadLaw(dec)
    requires digit in {0, 1, 4, 5, 7} && ValidOperand(d) && ValidOperand(s) && EncodeShift(digit, d, s).Ok? && Scalar(d.width)
    ensures (d.Reg? || d.Mem?) && (s.Reg? || s.Imm?)
    ensures Reads(dec, EncodeShift(digit, d, s).value, Insn(Shift(digit), [PlaceOf(d), if s.Reg? then CL else Source(s, 64)]), rest)
  {
    if s.Reg? {
      ShiftClReads(dec, digit, d, rest);
    } else {
      ShiftImmReads(dec, digit, d, s, rest);
    }
  }

  /** Three-operand multiplication at width 16 with a wide immediate emits four bytes where the
      processor reads two. */
  predicate ImulSound(d: Operand, k: Option<Operand>) {
    k.Some? && k.value.Imm? && d.width == 16 ==> Fits(k.value.imm, k.value.signed, 8, true)
  }

  lemma ImulReads(dec: Decoder, d: Operand, s: Operand, k: Option<Operand>, rest: seq<nat>)
    requires HeadLaw(dec)
    requires ValidOperand(d) && ValidOperand(s) && (k.Some? ==> ValidOperand(k.value)) && EncodeImul(d, s, k).Ok? && ImulSound(d, k)
    ensures d.Reg? && (s.Reg? || s.Mem?)
    ensures Reads(dec, EncodeImul(d, s, k).value,
                  Insn(Imul, if k.Some? then [PlaceOf(d), PlaceOf(s), Source(k.value, d.width)] else [PlaceOf(d), PlaceOf(s)]), rest)
  {
    if k.None? {
      SamePlace(s);
      RegisterForm(dec, [0x0f, 0xaf], RegRm(Imul, true), d, s, d.width, rest);
    } else {
      var compact := Fits(k.value.imm, k.value.signed, 8, true);
      ImmField(k.value.imm, k.value.signed, if compact then 1 else 4, d.width);
      ImulForm(dec, compact, d, s, Little(k.value.imm, if compact then 1 else 4), rest);
    }
  }

  lemma PushPopReads(dec: Decoder, push: bool, d: Operand, rest: seq<nat>)
    requires HeadLaw(dec)
    requires ValidOperand(d) && EncodePushPop(push, d).Ok?
    ensures d.Reg? || d.Mem? || (push && d.Imm?)
    ensures Reads(dec, EncodePushPop(push, d).value, Insn(if push then Push else Pop, [Source(d, 64)]), rest)
  {
    if d.Reg? {
      OpcodeRegisterForm(dec, push, d, rest);
    } else if d.Mem? {
        GroupForm(dec, [if push then 0xff else 0x8f], if push then FE else Pop8F, true, if push then 6 else 0,
                if push then Push else Pop, Nothing, true, 32, d, [], 0, rest);
    } else {
      var n := if Fits(d.imm, d.signed, 8, true) then 1 else 4;
      ImmField(d.imm, d.signed, n, 64);
      FieldForm(dec, [if n == 1 then 0x6a else 0x68], ImmOnly(Push, n), Push, Little(d.imm, n), rest);
      assert n == 1 ==> Little(d.imm, 1) == [d.imm % 256] && [0x6a] + [d.imm % 256] == [0x6a, d.imm % 256];
    }
  }

  lemma BranchReads(dec: Decoder, call: bool, d: Operand, rest: seq<nat>)
    requires HeadLaw(dec)
    requires ValidOperand(d) && EncodeBranch(call, d).Ok?
    ensures d.Reg? || d.Mem? || d.Rel?
    ensures Reads(dec, EncodeBranch(call, d).value, Insn(if call then CallOp else JmpOp, [Source(d, 64)]), rest)
  {
    hide Extended;
    var m := if call then CallOp else JmpOp;
    if d.Rel? {
      ImmField(d.imm, d.signed, 4, 64);
      FieldForm(dec, [if call then 0xe8 else 0xe9], RelOnly(m), m, Little(d.imm, 4), rest);
    } else {
        GroupForm(dec, [0xff], FE, true, if call then 2 else 4, m, Nothing, true, 32, d, [], 0, rest);
    }
  }

  lemma JccReads(dec: Decoder, cc: nat, d: Operand, rest: seq<nat>)
    requires HeadLaw(dec)
    requires cc < 16 && ValidOperand(d) && EncodeJcc(cc, d).Ok?
    ensures d.Rel?
    ensures Reads(dec, EncodeJcc(cc, d).value, Insn(Jcc(cc), [Source(d, 64)]), rest)
  {
    ImmField(d.imm, d.signed, 4, 64);
    FieldForm(dec, [0x0f, 0x80 + cc], RelOnly(Jcc(cc)), Jcc(cc), Little(d.imm, 4), rest);
  }

  lemma ExtendReads(dec: Decoder, m: Mnemonic, d: Operand, s: Operand, rest: seq<nat>)
    requires HeadLaw(dec)
    requires m in {Movzx, Movsx, Movsxd} && ValidOperand(d) && ValidOperand(s) && EncodeExtend(m, d, s).Ok?
    ensures d.Reg? && (s.Reg? || s.Mem?)
    ensures Reads(dec, EncodeExtend(m, d, s).value, Insn(m, [PlaceOf(d), PlaceOf(s)]), rest)
  {
    SamePlace(s);
    if m == Movsxd {
      RegisterForm(dec, [0x63], RegRmFrom(Movsxd, 32), d, s, 32, rest);
    } else {
      RegisterForm(dec, [0x0f, (if m == Movzx then 0xb6 else 0xbe) + if s.width == 8 then 0 else 1], RegRmFrom(m, s.width), d, s, s.width, rest);
    }
  }

  lemma SetccReads(dec: Decoder, cc: nat, d: Operand, rest: seq<nat>)
    requires HeadLaw(dec)
    requires cc < 16 && ValidOperand(d) && EncodeSetcc(cc, d).Ok?
    ensures d.Reg? || d.Mem?
    ensures Reads(dec, EncodeSetcc(cc, d).value, Insn(Setcc(cc), [PlaceOf(d)]), rest)
  {
    GroupForm(dec, [0x0f, 0x90 + cc], SetGroup(cc), false, 0, Setcc(cc), Nothing, false, 8, d, [], 0, rest);
  }

  lemma CmovReads(dec: Decoder, cc: nat, d: Operand, s: Operand, rest: seq<nat>)
    requires HeadLaw(dec)
    requires cc < 16 && ValidOperand(d) && ValidOperand(s) && EncodeCmov(cc, d, s).Ok?
    ensures d.Reg? && (s.Reg? || s.Mem?)
    ensures Reads(dec, EncodeCmov(cc, d, s).value, Insn(Cmov(cc), [PlaceOf(d), PlaceOf(s)]), rest)
  {
    RegisterForm(dec, [0x0f, 0x40 + cc], RegRm(Cmov(cc), true), d, s, d.width, rest);
  }

  // ----- The theorem -----

  /** A form with a memory operand whose width is that of a scalar, and no multiplication by a wide
      immediate at width 16: the only cases in which the bytes mean something else. */
  predicate Sound(m: Mnemonic, ops: seq<Operand>)
    requires GoodCount(m, |ops|)
  {
    && (IsUnary(m) || m.Shift? || m == Test ==> Scalar(ops[0].width))
    && (m == Imul && |ops| == 3 ==> ImulSound(ops[0], Some(ops[2])))
  }

  lemma Accepted(m: Mnemonic, ops: seq<Operand>)
    requires GoodMnemonic(m) && Words(ops) && Encode(m, ops).Ok?
    ensures GoodCount(m, |ops|) && (forall i :: 0 <= i < |ops| ==> ValidOperand(ops[i]))
    ensures (ops[0].Imm? || ops[0].Rel?) ==> m == Push || m == CallOp || m == JmpOp || m.Jcc?
  {
    AllChecked(ops);
  }

  lemma OneOperandReads(dec: Decoder, m: Mnemonic, ops: seq<Operand>, rest: seq<nat>)
    requires HeadLaw(dec)
    requires GoodMnemonic(m) && Words(ops) && Encode(m, ops).Ok? && |ops| == 1 && GoodCount(m, 1) && Sound(m, ops)
    requires ValidOperand(ops[0]) && ((ops[0].Imm? || ops[0].Rel?) ==> m == Push || m == CallOp || m == JmpOp || m.Jcc?)
    ensures Reads(dec, Encode(m, ops).value, Expected(m, ops), rest)
  {
    if m == Push || m == Pop {
      PushPopReads(dec, m == Push, ops[0], rest);
    } else if m == CallOp || m == JmpOp {
      BranchReads(dec, m == CallOp, ops[0], rest);
    } else if m.Jcc? {
      JccReads(dec, m.cc, ops[0], rest);
    } else if m.Setcc? {
      SetccReads(dec, m.cc, ops[0], rest);
    } else {
      UnaryReads(dec, m, ops[0], rest);
    }
  }

  lemma TwoOperandReads(dec: Decoder, m: Mnemonic, ops: seq<Operand>, rest: seq<nat>)
    requires HeadLaw(dec)
    requires GoodMnemonic(m) && Words(ops) && Encode(m, ops).Ok? && |ops| == 2 && GoodCount(m, 2) && m != Imul && Sound(m, ops)
    requires ValidOperand(ops[0]) && ValidOperand(ops[1]) && !ops[0].Imm? && !ops[0].Rel?
    ensures Reads(dec, Encode(m, ops).value, Expected(m, ops), rest)
  {
    var d, s := ops[0], ops[1];
    match m
    case Lea =>
      RegisterForm(dec, [0x8d], LeaShape, d, s, 64, rest);
    case Alu(g) => AluReads(dec, g, d, s, rest);
    case Test => TestReads(dec, d, s, rest);
    case Shift(k) => ShiftReads(dec, k, d, s, rest);
    case Cmov(cc) => CmovReads(dec, cc, d, s, rest);
    case Mov => MovReads(dec, m, d, s, rest);
    case LoadOp => MovReads(dec, m, d, s, rest);
    case StoreOp => MovReads(dec, m, d, s, rest);
    case Movzx => ExtendReads(dec, m, d, s, rest);
    case Movsx => ExtendReads(dec, m, d, s, rest);
    case Movsxd => ExtendReads(dec, m, d, s, rest);
  }

  lemma SoundReads(dec: Decoder, m: Mnemonic, ops: seq<Operand>, rest: seq<nat>)
    requires HeadLaw(dec)
    requires GoodMnemonic(m) && Words(ops) && Encode(m, ops).Ok? && GoodCount(m, |ops|) && Sound(m, ops)
    ensures (ops[0].Imm? || ops[0].Rel?) ==> m == Push || m == CallOp || m == JmpOp || m.Jcc?
    ensures Reads(dec, Encode(m, ops).value, Expected(m, ops), rest)
  {
    Accepted(m, ops);
    if m == Imul {
      ImulReads(dec, ops[0], ops[1], if |ops| == 3 then Some(ops[2]) else None, rest);
    } else if |ops| == 1 {
      OneOperandReads(dec, m, ops, rest);
    } else {
      TwoOperandReads(dec, m, ops, rest);
    }
  }

  // ----- Exactly those -----

  predicate PlaceScalar(p: Place) {
    p.R? || p.M? ==> Scalar(p.width)
  }

  lemma ModRMWidth(b: seq<nat>, p: Prefixes, width: nat)
    ensures var f := ReadModRM(b, p, width);
            f.Some? && Scalar(width) ==> PlaceScalar(f.value.place)
  {
  }

  predicate FirstScalar(d: Option<Decoded>) {
    d.Some? && d.value.insn.places != [] ==> PlaceScalar(d.value.insn.places[0])
  }

  lemma GroupFirst(g: GroupId, wide: bool, b: seq<nat>, p: Prefixes)
    ensures FirstScalar(ReadGroup(g, wide, b, p))
  {
    hide ReadModRM;
    ModRMWidth(b, p, 64);
    ModRMWidth(b, p, OperandSize(p));
    ModRMWidth(b, p, 8);
  }

  /** The decoder only knows operands of scalar widths. */
  lemma ShapeFirst(shape: Shape, b: seq<nat>, p: Prefixes)
    requires shape.RegRmFrom? ==> Scalar(shape.source)
    ensures FirstScalar(ReadShape(shape, b, p))
  {
    match shape
    case Group(g, wide) => GroupFirst(g, wide, b, p);
    case RmReg(_, wide) => ModRMWidth(b, p, if wide then OperandSize(p) else 8);
    case _ =>
  }

  lemma DecodeFirst(b: seq<nat>)
    ensures FirstScalar(Decode(b))
  {
    var p := ReadPrefixes(b);
    var rest := b[p.length..];
    if rest != [] && rest[0] == 0x0f && |rest| >= 2 {
      ShapeFirst(TwoByte(rest[1]), rest[2..], p);
    } else if rest != [] && rest[0] != 0x0f {
      ShapeFirst(OneByte(rest[0]), rest[1..], p);
    }
  }

  lemma WrongWidth(m: Mnemonic, ops: seq<Operand>, rest: seq<nat>)
    requires GoodMnemonic(m) && Words(ops) && Encode(m, ops).Ok? && GoodCount(m, |ops|)
    requires (IsUnary(m) || m.Shift? || m == Test) && !Scalar(ops[0].width)
    requires (ops[0].Imm? || ops[0].Rel?) ==> m == Push || m == CallOp || m == JmpOp || m.Jcc?
    ensures !Reads(Decode, Encode(m, ops).value, Expected(m, ops), rest)
  {
    hide GoodMnemonic, Words, Encode, Scalar, Decode, CheckAll;
    DecodeFirst(Encode(m, ops).value.bytes + rest);
    assert Expected(m, ops).places[0] == PlaceOf(ops[0]);
  }

  /** The processor takes two of the four bytes for the immediate and goes on inside it. */
  lemma WrongLength(dec: Decoder, d: Operand, s: Operand, k: Operand, rest: seq<nat>, insn: Insn)
    requires HeadLaw(dec)
    requires ValidOperand(d) && ValidOperand(s) && ValidOperand(k) && EncodeImul(d, s, Some(k)).Ok? && !ImulSound(d, Some(k))
    ensures !Reads(dec, EncodeImul(d, s, Some(k)).value, insn, rest)
  {
    var imm := Little(k.imm, 4);
    var p, n := ModRMRead(dec, [0x69], 16, Some(d), 0, s, imm, rest);
    ImulHead(false, d, s, imm[..2], imm[2..] + rest, p);
    assert imm[..2] + (imm[2..] + rest) == imm + rest;
  }

  /** The decoder gives back the operation and its operands from the encoder's bytes, whatever
      follows them, exactly when the form is sound. */
  lemma DecodeInvertsEncode(m: Mnemonic, ops: seq<Operand>, rest: seq<nat>)
    requires GoodMnemonic(m) && Words(ops) && Encode(m, ops).Ok?
    ensures GoodCount(m, |ops|)
    ensures (ops[0].Imm? || ops[0].Rel?) ==> m == Push || m == CallOp || m == JmpOp || m.Jcc?
    ensures Decode(Encode(m, ops).value.bytes + rest) == Some(Decoded(Expected(m, ops), |Encode(m, ops).value.bytes|)) <==> Sound(m, ops)
  {
    Accepted(m, ops);
    DecodeObeys();
    if Sound(m, ops) {
      SoundReads(Decode, m, ops, rest);
    } else if m == Imul {
      WrongLength(Decode, ops[0], ops[1], ops[2], rest, Expected(m, ops));
    } else {
      WrongWidth(m, ops, rest);
    }
    assert Reads(Decode, Encode(m, ops).value, Expected(m, ops), rest) <==> Sound(m, ops);
  }

  /** For example imul cx, dx, 0x1234: accepted, and not what a processor reads. */
  lemma WideImulIsUnsound()
    ensures var ops := [Reg(16, 1, false), Reg(16, 2, false), Imm(0x1234, false, 0)];
            && Words(ops) && Encode(Imul, ops).Ok? && !Sound(Imul, ops)
            && Encode(Imul, ops).value.bytes == [0x66, 0x69, 0xca, 0x34, 0x12, 0, 0]
  {
    var d, s, k := Reg(16, 1, false), Reg(16, 2, false), Imm(0x1234, false, 0);
    var ops := [d, s, k];
    ImulBytes(d, s, k);
    NoneChecked(ops);
  }

  lemma {:induction false} NoneChecked(ops: seq<Operand>)
    requires forall i :: 0 <= i < |ops| ==> Check(ops[i]).None?
    ensures CheckAll(ops).None?
  {
    if ops != [] {
      NoneChecked(ops[1..]);
    }
  }

  lemma ImulBytes(d: Operand, s: Operand, k: Operand)
    requires d == Reg(16, 1, false) && s == Reg(16, 2, false) && k == Imm(0x1234, false, 0)
    ensures EncodeImul(d, s, Some(k)).Ok? && !ImulSound(d, Some(k))
    ensures EncodeImul(d, s, Some(k)).value.bytes == [0x66, 0x69, 0xca, 0x34, 0x12, 0, 0]
  {
    assert Little(0x1234, 4) == [0x34, 0x12, 0, 0];
    assert PrefixBytes(NoSegment, 16, RexFor(16, Some(d), s)) == [0x66];
  }

  /** And inc of a memory operand without a width: it increments 32 bits. */
  lemma UnsizedIncIsUnsound()
    ensures var ops := [Mem(0, 0, -1, 1, 0, NoSegment)];
            Words(ops) && Encode(Inc, ops).Ok? && !Sound(Inc, ops)
  {
    var ops := [Mem(0, 0, -1, 1, 0, NoSegment)];
    assert ops[1..] == [];
  }

  // ----- Length and displacement -----

  predicate AreBytes(b: seq<nat>) {
    forall i :: 0 <= i < |b| ==> b[i] < 256
  }

  lemma LittleBytes(v: int, n: nat)
    ensures AreBytes(Little(v, n))
  {
    NumberOfLittle(v, n);
  }

  lemma PrefixSize(segment: Segment, width: nat, rex: Rex)
    ensures |PrefixBytes(segment, width, rex)| <= 3 && AreBytes(PrefixBytes(segment, width, rex))
    ensures segment == NoSegment ==> |PrefixBytes(segment, width, rex)| <= 2
  {
  }

  lemma AddressSize(rc: nat, rm: Operand)
    requires (rm.Reg? || rm.Mem?) && Check(rm).None?
    ensures var a := Address(rc, rm);
            && 1 <= |a| <= 6 && AreBytes(a)
            && (rm.Mem? ==> DispSize(rm) < |a| && a[|a| - DispSize(rm)..] == Little(rm.disp, DispSize(rm)))
  {
    if rm.Mem? {
      LittleBytes(rm.disp, DispSize(rm));
      SibAndMod(rc, rm);
    }
  }

  lemma SibAndMod(rc: nat, rm: Operand)
    requires rm.Mem? && Check(rm).None?
    ensures rm.base >= -1 && NeedsSib(rm) ==> SibByte(rm) < 256
    ensures ModBits(rm) * 64 + rc % 8 * 8 + 7 < 256
  {
  }

  /** The recorded field is the displacement of the memory operand, immediates coming after it. */
  predicate Located(code: Code, rm: Operand) {
    if rm.Mem? && DispSize(rm) > 0
    then code.dispSize == DispSize(rm) && code.dispAt + code.dispSize <= |code.bytes| &&
         code.bytes[code.dispAt..code.dispAt + code.dispSize] == Little(rm.disp, DispSize(rm))
    else code.dispSize == 0 && code.dispAt == 0
  }

  lemma ModRMSize(opcode: seq<nat>, width: nat, reg: Option<Operand>, digit: nat, rm: Operand, imm: seq<nat>)
    requires (rm.Reg? || rm.Mem?) && Check(rm).None? && (reg.Some? ==> reg.value.Reg?)
    requires |opcode| + |imm| <= 6 && AreBytes(opcode) && AreBytes(imm) && ModRM(opcode, width, reg, digit, rm, imm).Ok?
    ensures var code := ModRM(opcode, width, reg, digit, rm, imm).value;
            1 <= |code.bytes| <= 15 && AreBytes(code.bytes) && Located(code, rm)
  {
    var rex := RexFor(width, reg, rm);
    var head := PrefixBytes(SegmentOf(rm), width, rex) + opcode;
    var address := Address(if reg.Some? then RegCode(reg.value) else digit, rm);
    PrefixSize(SegmentOf(rm), width, rex);
    AddressSize(if reg.Some? then RegCode(reg.value) else digit, rm);
    if rm.Mem? {
      FieldIn(head, address, imm, DispSize(rm));
    }
  }

  lemma FieldIn(head: seq<nat>, address: seq<nat>, imm: seq<nat>, n: nat)
    requires n <= |address|
    ensures var b := head + (address + imm); var at := |head| + |address| - n;
            at + n <= |b| && b[at..at + n] == address[|address| - n..]
  {
  }

  function MemoryOf(ops: seq<Operand>): Operand
    requires ops != []
  {
    if ops[0].Mem? || |ops| == 1 then ops[0] else ops[1]
  }

  /** What every accepted instruction is: at most fifteen bytes, with its displacement where the
      encoder says. */
  predicate Compact(code: Code, rm: Operand) {
    1 <= |code.bytes| <= 15 && AreBytes(code.bytes) && Located(code, rm)
  }

  lemma PushPopSize(push: bool, d: Operand)
    requires ValidOperand(d) && EncodePushPop(push, d).Ok?
    ensures Compact(EncodePushPop(push, d).value, d)
  {
    if d.Mem? {
      ModRMSize([if push then 0xff else 0x8f], 32, None, if push then 6 else 0, d, []);
    } else if d.Imm? {
      LittleBytes(d.imm, 4);
    }
  }

  lemma BranchSize(call: bool, d: Operand)
    requires ValidOperand(d) && EncodeBranch(call, d).Ok?
    ensures Compact(EncodeBranch(call, d).value, d)
  {
    if d.Rel? {
      LittleBytes(d.imm, 4);
    } else {
      ModRMSize([0xff], 32, None, if call then 2 else 4, d, []);
    }
  }

  lemma ConditionSize(m: Mnemonic, d: Operand)
    requires ValidOperand(d) && GoodMnemonic(m)
    requires (m.Jcc? && EncodeJcc(m.cc, d).Ok?) || (m.Setcc? && EncodeSetcc(m.cc, d).Ok?)
    ensures Compact((if m.Jcc? then EncodeJcc(m.cc, d) else EncodeSetcc(m.cc, d)).value, d)
  {
    if m.Jcc? {
      LittleBytes(d.imm, 4);
    } else {
      ModRMSize([0x0f, 0x90 + m.cc], 8, None, 0, d, []);
    }
  }

  lemma UnarySize(m: Mnemonic, d: Operand)
    requires ValidOperand(d) && IsUnary(m) && EncodeUnary(m, d).Ok?
    ensures Compact(EncodeUnary(m, d).value, d)
  {
    ModRMSize([UnaryOpcode(m, d.width == 8)], d.width, None, UnaryDigit(m), d, []);
  }

  lemma OneOperandSize(m: Mnemonic, ops: seq<Operand>)
    requires GoodMnemonic(m) && Words(ops) && Encode(m, ops).Ok? && |ops| == 1 && GoodCount(m, 1) && ValidOperand(ops[0])
    ensures Compact(Encode(m, ops).value, ops[0])
  {
    if m == Push || m == Pop {
      PushPopSize(m == Push, ops[0]);
    } else if m == CallOp || m == JmpOp {
      BranchSize(m == CallOp, ops[0]);
    } else if m.Jcc? || m.Setcc? {
      ConditionSize(m, ops[0]);
    } else {
      UnarySize(m, ops[0]);
    }
  }

  lemma MovSize(m: Mnemonic, d: Operand, s: Operand)
    requires ValidOperand(d) && ValidOperand(s) && EncodeMov(m, d, s).Ok?
    ensures Compact(EncodeMov(m, d, s).value, if d.Mem? then d else s)
  {
    hide Little;
    if s.Imm? {
      LittleBytes(s.imm, ImmSize(d.width));
      LittleBytes(s.imm, d.width / 8);
    }
    if d.Mem? {
      ModRMSize([if d.width == 8 then 0x88 else 0x89], d.width, if s.Reg? then Some(s) else None, 0, d, []);
      if s.Imm? {
        ModRMSize([if d.width == 8 then 0xc6 else 0xc7], d.width, None, 0, d, Little(s.imm, ImmSize(d.width)));
      }
    } else if s.Mem? {
      ModRMSize([if d.width == 8 then 0x8a else 0x8b], d.width, Some(d), 0, s, []);
    } else if s.Reg? {
      ModRMSize([if d.width == 8 then 0x88 else 0x89], d.width, Some(s), 0, d, []);
    } else {
      PrefixSize(NoSegment, d.width, Rex(d.width == 64, false, false, d.reg >= 8, NeedsRex(d)));
    }
  }

  lemma AluSize(group: nat, d: Operand, s: Operand)
    requires group < 8 && ValidOperand(d) && ValidOperand(s) && EncodeAlu(group, d, s).Ok?
    ensures Compact(EncodeAlu(group, d, s).value, if d.Mem? then d else s)
  {
    if s.Reg? {
      ModRMSize([group * 8 + if d.width == 8 then 0 else 1], d.width, Some(s), 0, d, []);
    } else if s.Mem? {
      ModRMSize([group * 8 + if d.width == 8 then 2 else 3], d.width, Some(d), 0, s, []);
    } else {
      var compact := Fits(s.imm, s.signed, 8, true);
      LittleBytes(s.imm, ImmSize(d.width));
      LittleBytes(s.imm, 1);
      if ShortAccumulator(d, s) {
        PrefixSize(NoSegment, d.width, Rex(d.width == 64, false, false, false, false));
      } else {
        ModRMSize([if d.width == 8 then 0x80 else if compact then 0x83 else 0x81], d.width, None, group, d,
                  Little(s.imm, if compact then 1 else ImmSize(d.width)));
      }
    }
  }

  lemma TestSize(d: Operand, s: Operand)
    requires ValidOperand(d) && ValidOperand(s) && EncodeTest(d, s).Ok?
    ensures Compact(EncodeTest(d, s).value, if d.Mem? then d else s)
  {
    if s.Reg? {
      ModRMSize([if d.width == 8 then 0x84 else 0x85], d.width, Some(s), 0, d, []);
    } else {
      LittleBytes(s.imm, ImmSize(d.width));
      if d.Reg? && d.reg == 0 && !d.high8 {
        PrefixSize(NoSegment, d.width, Rex(d.width == 64, false, false, false, false));
      } else {
        ModRMSize([if d.width == 8 then 0xf6 else 0xf7], d.width, None, 0, d, Little(s.imm, ImmSize(d.width)));
      }
    }
  }

  lemma ShiftSize(digit: nat, d: Operand, s: Operand)
    requires ValidOperand(d) && ValidOperand(s) && EncodeShift(digit, d, s).Ok?
    ensures Compact(EncodeShift(digit, d, s).value, if d.Mem? then d else s)
  {
    if s.Reg? {
      ModRMSize([if d.width == 8 then 0xd2 else 0xd3], d.width, None, digit, d, []);
    } else if s.imm == 1 {
      ModRMSize([if d.width == 8 then 0xd0 else 0xd1], d.width, None, digit, d, []);
    } else {
      ModRMSize([if d.width == 8 then 0xc0 else 0xc1], d.width, None, digit, d, [s.imm]);
    }
  }

  lemma LoadSize(m: Mnemonic, ops: seq<Operand>)
    requires GoodMnemonic(m) && Words(ops) && Encode(m, ops).Ok? && |ops| == 2 && GoodCount(m, 2)
    requires m in {Lea, Imul, Movzx, Movsx, Movsxd} || m.Cmov?
    requires ValidOperand(ops[0]) && ValidOperand(ops[1])
    ensures Compact(Encode(m, ops).value, ops[1])
  {
    hide ModRM, Located, AreBytes;
    var d, s := ops[0], ops[1];
    if m == Lea {
      ModRMSize([0x8d], 64, Some(d), 0, s, []);
    } else if m == Imul {
      ModRMSize([0x0f, 0xaf], d.width, Some(d), 0, s, []);
    } else if m == Movsxd {
      ModRMSize([0x63], 64, Some(d), 0, s, []);
    } else if m.Cmov? {
      ModRMSize([0x0f, 0x40 + m.cc], d.width, Some(d), 0, s, []);
    } else {
      ModRMSize([0x0f, (if m == Movzx then 0xb6 else 0xbe) + if s.width == 8 then 0 else 1], d.width, Some(d), 0, s, []);
    }
  }

  lemma ImulSize(d: Operand, s: Operand, k: Operand)
    requires ValidOperand(d) && ValidOperand(s) && ValidOperand(k) && EncodeImul(d, s, Some(k)).Ok?
    ensures Compact(EncodeImul(d, s, Some(k)).value, s)
  {
    var compact := Fits(k.imm, k.signed, 8, true);
    LittleBytes(k.imm, if compact then 1 else 4);
    ModRMSize([if compact then 0x6b else 0x69], d.width, Some(d), 0, s, Little(k.imm, if compact then 1 else 4));
  }

  /** No instruction is longer than fifteen bytes, and the recorded displacement field holds the
      displacement of its memory operand, wherever an immediate follows. */
  lemma EncodedIsCompact(m: Mnemonic, ops: seq<Operand>)
    requires GoodMnemonic(m) && Words(ops) && Encode(m, ops).Ok?
    ensures ops != [] && Compact(Encode(m, ops).value, MemoryOf(ops))
  {
    Accepted(m, ops);
    if |ops| == 1 {
      OneOperandSize(m, ops);
    } else if |ops| == 3 {
      ImulSize(ops[0], ops[1], ops[2]);
    } else {
      match m
      case Mov => MovSize(m, ops[0], ops[1]);
      case LoadOp => MovSize(m, ops[0], ops[1]);
      case StoreOp => MovSize(m, ops[0], ops[1]);
      case Alu(g) => AluSize(g, ops[0], ops[1]);
      case Test => TestSize(ops[0], ops[1]);
      case Shift(k) => ShiftSize(k, ops[0], ops[1]);
      case _ => LoadSize(m, ops);
    }
  }
}