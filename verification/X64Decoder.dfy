/** A decoder for the same instructions, after the Intel 64 Software Developer's Manual, volume 2:
    prefixes and REX (sections 2.1.1 and 2.2.1), ModRM and SIB (2.1.3 and 2.1.5), opcode map. */
module X64Decoder {
  import opened X64Encoder

  /** What an instruction operates on: immediates and targets are the values the processor uses,
      cut to the operand size. */
  datatype Place =
    | R(width: nat, reg: nat, high8: bool)
    | M(width: nat, base: int, index: int, scale: nat, disp: int, segment: Segment)
    | I(value: nat)
    | CL

  datatype Insn = Insn(m: Mnemonic, places: seq<Place>)
  datatype Decoded = Decoded(insn: Insn, length: nat)

  datatype Prefixes = Prefixes(segment: Segment, small: bool, rex: Rex, length: nat)

  // ----- Prefixes -----

  function SegmentByte(b: seq<nat>): (Segment, nat) {
    if b != [] && b[0] == 0x64 then (FS, 1) else if b != [] && b[0] == 0x65 then (GS, 1) else (NoSegment, 0)
  }

  function RexOf(b: nat): Rex
    requires 0x40 <= b < 0x50
  {
    Rex(b / 8 % 2 == 1, b / 4 % 2 == 1, b / 2 % 2 == 1, b % 2 == 1, true)
  }

  /** Segment override, operand size, REX. */
  function ReadPrefixes(b: seq<nat>): (p: Prefixes)
    ensures p.length <= |b|
  {
    var (segment, n) := SegmentByte(b);
    var small := n < |b| && b[n] == 0x66;
    var k := if small then n + 1 else n;
    if k < |b| && 0x40 <= b[k] < 0x50 then Prefixes(segment, small, RexOf(b[k]), k + 1)
    else Prefixes(segment, small, NO_REX, k)
  }

  function OperandSize(p: Prefixes): nat {
    if p.rex.w then 64 else if p.small then 16 else 32
  }

  // ----- Little-endian fields -----

  function Number(b: seq<nat>): (v: nat) {
    if b == [] then 0 else b[0] + 256 * Number(b[1..])
  }

  /** The signed reading of an n-byte field. */
  function SignedNumber(b: seq<nat>): int {
    if b != [] && Number(b) >= Pow256(|b|) / 2 then Number(b) - Pow256(|b|) else Number(b)
  }

  // ----- ModRM and SIB -----

  /** A general register by number: without REX, byte registers 4 to 7 are AH to BH. */
  function RegisterPlace(width: nat, number: nat, rex: bool): Place {
    if width == 8 && !rex && 4 <= number < 8 then R(8, number - 4, true) else R(width, number, false)
  }

  /** The opcode register field, the register or memory operand, and the bytes used. */
  datatype ModField = ModField(reg: nat, place: Place, used: nat)

  function ReadModRM(b: seq<nat>, p: Prefixes, width: nat): Option<ModField> {
    if b == [] then None
    else
      var mod, reg, rm := b[0] / 64, b[0] / 8 % 8, b[0] % 8;
      var high := if p.rex.b then 8 else 0;
      if mod >= 3 then Some(ModField(reg, RegisterPlace(width, rm + high, p.rex.Present()), 1))
      else if rm == 4 then ReadSib(b, p, width, mod, reg)
      else if mod == 0 && rm == 5 then
        (if |b| < 5 then None else Some(ModField(reg, M(width, -2, -1, 1, SignedNumber(b[1..5]), p.segment), 5)))
      else
        var n := DispBytes(mod);
        if |b| < 1 + n then None
        else Some(ModField(reg, M(width, rm + high, -1, 1, SignedNumber(b[1..1 + n]), p.segment), 1 + n))
  }

  function DispBytes(mod: nat): nat {
    if mod == 1 then 1 else if mod == 2 then 4 else 0
  }

  function ReadSib(b: seq<nat>, p: Prefixes, width: nat, mod: nat, reg: nat): Option<ModField>
    requires b != []
  {
    if |b| < 2 then None
    else
      var base, index := b[1] % 8, b[1] / 8 % 8 + if p.rex.x then 8 else 0;
      var none := mod == 0 && base == 5;
      var n := if none then 4 else DispBytes(mod);
      if |b| < 2 + n then None
      else
        Some(ModField(reg, M(width, if none then -1 else base + if p.rex.b then 8 else 0,
                             if index == 4 then -1 else index, if index == 4 then 1 else ScaleOf(b[1] / 64),
                             SignedNumber(b[2..2 + n]), p.segment), 2 + n))
  }

  function ScaleOf(s: nat): nat {
    if s == 0 then 1 else if s == 1 then 2 else if s == 2 then 4 else 8
  }

  // ----- Opcodes -----

  /** How the bytes after an opcode are read. wide is the w bit: operand size instead of 8 bits. */
  datatype Shape =
    | RmReg(m: Mnemonic, wide: bool)
    | RegRm(m: Mnemonic, wide: bool)
    | RegRmImm(m: Mnemonic, byteImm: bool)
    | RegRmFrom(m: Mnemonic, source: nat)
    | LeaShape
    | Group(group: GroupId, wide: bool)
    | InOpcode(m: Mnemonic, number: nat)
    | MovImm(number: nat, wide: bool)
    | Accumulator(m: Mnemonic, wide: bool)
    | ImmOnly(m: Mnemonic, bytes: nat)
    | RelOnly(m: Mnemonic)
    | BadShape

  datatype GroupId = Immediate | ImmediateByte | ShiftByte | ShiftOne | ShiftCl | MovGroup | F6 | FE | Pop8F | SetGroup(cc: nat)

  /** One-byte opcodes. */
  function OneByte(op: nat): Shape {
    if op < 0x40 then
      (if op % 8 < 2 then RmReg(Alu(op / 8), op % 2 == 1)
       else if op % 8 < 4 then RegRm(Alu(op / 8), op % 2 == 1)
       else if op % 8 < 6 then Accumulator(Alu(op / 8), op % 2 == 1) else BadShape)
    else if 0x50 <= op < 0x58 then InOpcode(Push, op - 0x50)
    else if 0x58 <= op < 0x60 then InOpcode(Pop, op - 0x58)
    else if 0xb0 <= op < 0xc0 then MovImm((op - 0xb0) % 8, op >= 0xb8)
    else match op
      case 0x63 => RegRmFrom(Movsxd, 32)
      case 0x68 => ImmOnly(Push, 4)
      case 0x69 => RegRmImm(Imul, false)
      case 0x6a => ImmOnly(Push, 1)
      case 0x6b => RegRmImm(Imul, true)
      case 0x80 => Group(Immediate, false)
      case 0x81 => Group(Immediate, true)
      case 0x83 => Group(ImmediateByte, true)
      case 0x84 => RmReg(Test, false)
      case 0x85 => RmReg(Test, true)
      case 0x88 => RmReg(Mov, false)
      case 0x89 => RmReg(Mov, true)
      case 0x8a => RegRm(Mov, false)
      case 0x8b => RegRm(Mov, true)
      case 0x8d => LeaShape
      case 0x8f => Group(Pop8F, true)
      case 0xa8 => Accumulator(Test, false)
      case 0xa9 => Accumulator(Test, true)
      case 0xc0 => Group(ShiftByte, false)
      case 0xc1 => Group(ShiftByte, true)
      case 0xc6 => Group(MovGroup, false)
      case 0xc7 => Group(MovGroup, true)
      case 0xd0 => Group(ShiftOne, false)
      case 0xd1 => Group(ShiftOne, true)
      case 0xd2 => Group(ShiftCl, false)
      case 0xd3 => Group(ShiftCl, true)
      case 0xe8 => RelOnly(CallOp)
      case 0xe9 => RelOnly(JmpOp)
      case 0xf6 => Group(F6, false)
      case 0xf7 => Group(F6, true)
      case 0xfe => Group(FE, false)
      case 0xff => Group(FE, true)
      case _ => BadShape
  }

  /** Opcodes after 0F. */
  function TwoByte(op: nat): Shape {
    if 0x40 <= op < 0x50 then RegRm(Cmov(op - 0x40), true)
    else if 0x80 <= op < 0x90 then RelOnly(Jcc(op - 0x80))
    else if 0x90 <= op < 0xa0 then Group(SetGroup(op - 0x90), false)
    else match op
      case 0xaf => RegRm(Imul, true)
      case 0xb6 => RegRmFrom(Movzx, 8)
      case 0xb7 => RegRmFrom(Movzx, 16)
      case 0xbe => RegRmFrom(Movsx, 8)
      case 0xbf => RegRmFrom(Movsx, 16)
      case _ => BadShape
  }

  /** Group members by the digit in the ModRM register field, and what follows the address: a
      byte, a field of the operand size, the constant one, the register cl, or nothing. */
  datatype Extra = Nothing | ByteField | SizeField | One | InCl
  datatype Member = Member(m: Mnemonic, extra: Extra, always64: bool) | NoMember

  function GroupMember(g: GroupId, wide: bool, digit: nat): Member {
    match g
    case Immediate => if digit < 8 then Member(Alu(digit), SizeField, false) else NoMember
    case ImmediateByte => if digit < 8 then Member(Alu(digit), ByteField, false) else NoMember
    case ShiftByte => if digit in {0, 1, 4, 5, 7} then Member(Shift(digit), ByteField, false) else NoMember
    case ShiftOne => if digit in {0, 1, 4, 5, 7} then Member(Shift(digit), One, false) else NoMember
    case ShiftCl => if digit in {0, 1, 4, 5, 7} then Member(Shift(digit), InCl, false) else NoMember
    case MovGroup => if digit == 0 then Member(Mov, SizeField, false) else NoMember
    case F6 =>
      if digit == 0 then Member(Test, SizeField, false)
      else if digit == 2 then Member(Not, Nothing, false)
      else if digit == 3 then Member(Neg, Nothing, false)
      else if digit == 4 then Member(Mul, Nothing, false)
      else if digit == 6 then Member(Div, Nothing, false)
      else if digit == 7 then Member(Idiv, Nothing, false) else NoMember
    case FE =>
      if digit == 0 then Member(Inc, Nothing, false)
      else if digit == 1 then Member(Dec, Nothing, false)
      else if digit == 2 && wide then Member(CallOp, Nothing, true)
      else if digit == 4 && wide then Member(JmpOp, Nothing, true)
      else if digit == 6 && wide then Member(Push, Nothing, true) else NoMember
    case Pop8F => if digit == 0 then Member(Pop, Nothing, true) else NoMember
    case SetGroup(cc) => Member(Setcc(cc), Nothing, false)
  }

  // ----- Instructions -----

  /** The value of a field of n bytes, sign-extended and cut to the given width. */
  function Extended(b: seq<nat>, width: nat): nat {
    SignedNumber(b) % TwoTo(width)
  }

  function FieldBytes(width: nat): nat {
    ImmSize(width)
  }

  function Finish(insn: Insn, used: nat): Option<Decoded> {
    Some(Decoded(insn, used))
  }

  /** Reads an immediate of n bytes at position at. */
  function ReadImm(b: seq<nat>, at: nat, n: nat, width: nat): Option<nat> {
    if |b| < at + n then None else Some(Extended(b[at..at + n], width))
  }

  function RegNumber(f: ModField, p: Prefixes): nat {
    f.reg + if p.rex.r then 8 else 0
  }

  function ReadShape(shape: Shape, b: seq<nat>, p: Prefixes): Option<Decoded> {
    var size := OperandSize(p);
    match shape
    case RmReg(m, wide) =>
      var width := if wide then size else 8;
      (match ReadModRM(b, p, width)
       case None => None
       case Some(f) => Finish(Insn(m, [f.place, RegisterPlace(width, RegNumber(f, p), p.rex.Present())]), f.used))
    case RegRm(m, wide) =>
      var width := if wide then size else 8;
      (match ReadModRM(b, p, width)
       case None => None
       case Some(f) => Finish(Insn(m, [RegisterPlace(width, RegNumber(f, p), p.rex.Present()), f.place]), f.used))
    case RegRmFrom(m, source) =>
      (match ReadModRM(b, p, source)
       case None => None
       case Some(f) => Finish(Insn(m, [RegisterPlace(size, RegNumber(f, p), p.rex.Present()), f.place]), f.used))
    case RegRmImm(m, byteImm) =>
      (match ReadModRM(b, p, size)
       case None => None
       case Some(f) =>
         var n := if byteImm then 1 else FieldBytes(size);
         match ReadImm(b, f.used, n, size)
         case None => None
         case Some(v) =>
           Finish(Insn(m, [RegisterPlace(size, RegNumber(f, p), p.rex.Present()), f.place, I(v)]), f.used + n))
    case LeaShape =>
      (match ReadModRM(b, p, size)
       case None => None
       case Some(f) =>
         if !f.place.M? then None
         else Finish(Insn(Lea, [RegisterPlace(size, RegNumber(f, p), p.rex.Present()), f.place]), f.used))
    case Group(g, wide) => ReadGroup(g, wide, b, p)
    case InOpcode(m, number) => Finish(Insn(m, [R(64, number + if p.rex.b then 8 else 0, false)]), 0)
    case MovImm(number, wide) =>
      var width := if wide then size else 8;
      var place := RegisterPlace(width, number + if p.rex.b then 8 else 0, p.rex.Present());
      if |b| < width / 8 then None else Finish(Insn(Mov, [place, I(Number(b[..width / 8]) % TwoTo(width))]), width / 8)
    case Accumulator(m, wide) =>
      var width := if wide then size else 8;
      (match ReadImm(b, 0, FieldBytes(width), width)
       case None => None
       case Some(v) => Finish(Insn(m, [R(width, 0, false), I(v)]), FieldBytes(width)))
    case ImmOnly(m, n) =>
      (match ReadImm(b, 0, n, 64) case None => None case Some(v) => Finish(Insn(m, [I(v)]), n))
    case RelOnly(m) =>
      (match ReadImm(b, 0, 4, 64) case None => None case Some(v) => Finish(Insn(m, [I(v)]), 4))
    case BadShape => None
  }

  function ReadGroup(g: GroupId, wide: bool, b: seq<nat>, p: Prefixes): Option<Decoded> {
    if b == [] then None
    else match GroupMember(g, wide, b[0] / 8 % 8)
      case NoMember => None
      case Member(m, extra, always64) =>
        var width := if always64 then 64 else if wide then OperandSize(p) else 8;
        match ReadModRM(b, p, width)
        case None => None
        case Some(f) => ReadExtra(m, extra, width, f, b)
  }

  function ReadExtra(m: Mnemonic, extra: Extra, width: nat, f: ModField, b: seq<nat>): Option<Decoded> {
    match extra
    case Nothing => Finish(Insn(m, [f.place]), f.used)
    case One => Finish(Insn(m, [f.place, I(1)]), f.used)
    case InCl => Finish(Insn(m, [f.place, CL]), f.used)
    case ByteField =>
      if m.Shift? then (if |b| <= f.used then None else Finish(Insn(m, [f.place, I(b[f.used])]), f.used + 1))
      else (match ReadImm(b, f.used, 1, width) case None => None case Some(v) => Finish(Insn(m, [f.place, I(v)]), f.used + 1))
    case SizeField =>
      match ReadImm(b, f.used, FieldBytes(width), width)
      case None => None
      case Some(v) => Finish(Insn(m, [f.place, I(v)]), f.used + FieldBytes(width))
  }

  /** One instruction at the head of a byte string. */
  function Decode(b: seq<nat>): Option<Decoded> {
    var p := ReadPrefixes(b);
    var rest := b[p.length..];
    if rest == [] then None
    else if rest[0] == 0x0f then
      (if |rest| < 2 then None else Moved(ReadShape(TwoByte(rest[1]), rest[2..], p), p.length + 2))
    else Moved(ReadShape(OneByte(rest[0]), rest[1..], p), p.length + 1)
  }

  function Moved(d: Option<Decoded>, n: nat): Option<Decoded> {
    match d case None => None case Some(x) => Some(x.(length := x.length + n))
  }
}
