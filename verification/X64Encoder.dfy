/** Operand checks, prefixes, ModRM, SIB and immediates of the instruction encoder. */
module X64Encoder {

  datatype Segment = NoSegment | FS | GS

  /** Registers of width 8 with high8 are AH..BH; memory base -1 is none and -2 is RIP, index -1 is
      none. Immediates hold 64 bits, two's complement when signed; width 0 means unspecified. */
  datatype Operand =
    | Reg(width: nat, reg: nat, high8: bool)
    | Imm(imm: nat, signed: bool, width: nat)
    | Rel(imm: nat, signed: bool, width: nat)
    | Mem(width: nat, base: int, index: int, scale: nat, disp: int, segment: Segment)

  datatype Mnemonic =
    | Mov | LoadOp | StoreOp | Lea | Alu(group: nat) | Test | Inc | Dec | Not | Neg | Shift(digit: nat)
    | Imul | Mul | Div | Idiv | Push | Pop | CallOp | JmpOp | Jcc(cc: nat)
    | Movzx | Movsx | Movsxd | Setcc(cc: nat) | Cmov(cc: nat)

  datatype Error = COUNT | WIDTH | REGISTER | RANGE | HIGH8_REX | FORM | SEGMENT | ADDRESS

  /** The bytes, and where the displacement is, if there is one. */
  datatype Code = Code(bytes: seq<nat>, dispAt: nat, dispSize: nat)
  datatype Result<T> = Ok(value: T) | Err(error: Error)
  datatype Option<T> = None | Some(value: T)

  const W64: nat := 0x1_0000_0000_0000_0000

  function Pow256(n: nat): (p: nat)
    ensures p > 0
  {
    if n == 0 then 1 else 256 * Pow256(n - 1)
  }

  /** The low n bytes of v, least significant first; v may be negative. */
  function Little(v: int, n: nat): (b: seq<nat>)
    ensures |b| == n
    decreases n
  {
    if n == 0 then [] else [v % 256] + Little(v / 256, n - 1)
  }

  predicate Scalar(w: nat) {
    w == 8 || w == 16 || w == 32 || w == 64
  }

  function TwoTo(w: nat): nat {
    match w case 8 => 0x100 case 16 => 0x1_0000 case 32 => 0x1_0000_0000 case _ => W64
  }

  /** Whether an immediate can be given in w bits, sign-extended or not. */
  predicate Fits(imm: nat, signed: bool, w: nat, signExtended: bool)
    requires Scalar(w)
  {
    w == 64 ||
    (if signed then imm <= TwoTo(w) / 2 - 1 || imm >= W64 - TwoTo(w) / 2
     else imm <= if signExtended then TwoTo(w) / 2 - 1 else TwoTo(w) - 1)
  }

  function CheckReg(o: Operand): Option<Error>
    requires o.Reg?
  {
    if !Scalar(o.width) then Some(WIDTH)
    else if o.reg > 15 || (o.high8 && (o.width != 8 || o.reg > 3)) then Some(REGISTER)
    else None
  }

  function CheckImm(o: Operand): Option<Error>
    requires o.Imm? || o.Rel?
  {
    if o.width != 0 && !Scalar(o.width) then Some(WIDTH)
    else if o.width != 0 && !Fits(o.imm, o.signed, o.width, false) then Some(RANGE)
    else None
  }

  function CheckMem(o: Operand): Option<Error>
    requires o.Mem?
  {
    if !Scalar(o.width) && o.width != 80 && o.width != 0 then Some(WIDTH)
    else if o.base < -2 || o.base > 15 || o.index < -1 || o.index > 15 || o.index == 4 || o.scale !in {1, 2, 4, 8}
            || (o.index == -1 && o.scale != 1) || (o.base == -2 && o.index != -1)
            || o.disp < -0x8000_0000 || o.disp > 0x7fff_ffff then Some(ADDRESS)
    else None
  }

  /** The check every operand passes before any form is tried. */
  function Check(o: Operand): Option<Error> {
    match o
    case Reg(_, _, _) => CheckReg(o)
    case Mem(_, _, _, _, _, _) => CheckMem(o)
    case _ => CheckImm(o)
  }

  predicate ValidOperand(o: Operand) {
    Check(o).None? && ((o.Imm? || o.Rel?) ==> o.imm < W64)
  }

  function CheckAll(ops: seq<Operand>): Option<Error> {
    if ops == [] then None else if Check(ops[0]).Some? then Check(ops[0]) else CheckAll(ops[1..])
  }

  // ----- Prefixes, ModRM and SIB -----

  /** REX bits; forced selects the new low byte registers without setting any. */
  datatype Rex = Rex(w: bool, r: bool, x: bool, b: bool, forced: bool)
  {
    predicate Present() { w || r || x || b || forced }
    function Byte(): nat {
      0x40 + (if w then 8 else 0) + (if r then 4 else 0) + (if x then 2 else 0) + (if b then 1 else 0)
    }
  }

  function RegCode(o: Operand): nat
    requires o.Reg?
  {
    o.reg + if o.high8 then 4 else 0
  }

  predicate NeedsRex(o: Operand)
    requires o.Reg?
  {
    o.width == 8 && !o.high8 && o.reg >= 4
  }

  function PrefixBytes(segment: Segment, width: nat, rex: Rex): seq<nat> {
    (match segment case NoSegment => [] case FS => [0x64] case GS => [0x65]) +
    (if width == 16 then [0x66] else []) + (if rex.Present() then [rex.Byte()] else [])
  }

  function RexFor(width: nat, reg: Option<Operand>, rm: Operand): Rex
    requires reg.Some? ==> reg.value.Reg?
    requires rm.Reg? || rm.Mem?
  {
    Rex(width == 64, reg.Some? && reg.value.reg >= 8, rm.Mem? && rm.index >= 8,
        if rm.Reg? then rm.reg >= 8 else rm.base >= 8,
        (reg.Some? && NeedsRex(reg.value)) || (rm.Reg? && NeedsRex(rm)))
  }

  function DispSize(rm: Operand): nat
    requires rm.Mem?
  {
    if rm.base < 0 then 4
    else if rm.disp == 0 && rm.base % 8 != 5 then 0
    else if -128 <= rm.disp <= 127 then 1 else 4
  }

  function ModBits(rm: Operand): nat
    requires rm.Mem?
  {
    if rm.base < 0 || DispSize(rm) == 0 then 0 else if DispSize(rm) == 1 then 1 else 2
  }

  predicate NeedsSib(rm: Operand)
    requires rm.Mem?
  {
    rm.index != -1 || rm.base == -1 || rm.base % 8 == 4
  }

  function ScaleField(scale: nat): nat {
    if scale == 8 then 3 else if scale == 4 then 2 else if scale == 2 then 1 else 0
  }

  function SibByte(rm: Operand): nat
    requires rm.Mem? && rm.base >= -1 && rm.index >= -1
  {
    ScaleField(rm.scale) * 64 + (if rm.index == -1 then 4 else rm.index % 8) * 8 + (if rm.base == -1 then 5 else rm.base % 8)
  }

  /** ModRM, SIB and displacement; rc is the register code or the opcode digit. */
  function Address(rc: nat, rm: Operand): seq<nat>
    requires rm.Reg? || (rm.Mem? && rm.base >= -2 && rm.index >= -1)
  {
    if rm.Reg? then [0xc0 + rc % 8 * 8 + RegCode(rm) % 8]
    else if rm.base == -2 then [rc % 8 * 8 + 5] + Little(rm.disp, 4)
    else
      [ModBits(rm) * 64 + rc % 8 * 8 + (if NeedsSib(rm) then 4 else rm.base % 8)] +
      ((if NeedsSib(rm) then [SibByte(rm)] else []) + Little(rm.disp, DispSize(rm)))
  }

  function SegmentOf(rm: Operand): Segment {
    if rm.Mem? then rm.segment else NoSegment
  }

  predicate High8(reg: Option<Operand>, rm: Operand) {
    (reg.Some? && reg.value.Reg? && reg.value.high8) || (rm.Reg? && rm.high8)
  }

  /** Prefixes, opcode, address and immediate; an AH..BH register cannot go with a REX prefix. */
  function ModRM(opcode: seq<nat>, width: nat, reg: Option<Operand>, digit: nat, rm: Operand, imm: seq<nat>): Result<Code>
    requires reg.Some? ==> reg.value.Reg?
    requires rm.Mem? ==> rm.base >= -2 && rm.index >= -1
  {
    if !rm.Reg? && !rm.Mem? then Err(FORM)
    else
      var rex := RexFor(width, reg, rm);
      if rex.Present() && High8(reg, rm) then Err(HIGH8_REX)
      else
        var head := PrefixBytes(SegmentOf(rm), width, rex) + opcode;
        var address := Address(if reg.Some? then RegCode(reg.value) else digit, rm);
        var size := if rm.Mem? then DispSize(rm) else 0;
        Ok(Code(head + (address + imm), if size > 0 then |head| + |address| - size else 0, size))
  }

  /** A form without ModRM. */
  function Plain(width: nat, rex: Rex, high8: bool, bytes: seq<nat>): Result<Code> {
    if rex.Present() && high8 then Err(HIGH8_REX) else Ok(Code(PrefixBytes(NoSegment, width, rex) + bytes, 0, 0))
  }

  const NO_REX := Rex(false, false, false, false, false)

  // ----- Families -----

  function ImmSize(w: nat): nat {
    if w == 8 then 1 else if w == 16 then 2 else 4
  }

  function EncodeMov(m: Mnemonic, d: Operand, s: Operand): Result<Code>
    requires ValidOperand(d) && ValidOperand(s)
  {
    if m == LoadOp && !(d.Reg? && s.Mem?) then Err(FORM)
    else if m == StoreOp && !d.Mem? then Err(FORM)
    else if d.Mem? then
      if !Scalar(d.width) then Err(WIDTH)
      else if s.Reg? then
        if d.width != s.width then Err(WIDTH) else ModRM([if d.width == 8 then 0x88 else 0x89], d.width, Some(s), 0, d, [])
      else if !s.Imm? then Err(FORM)
      else if !Fits(s.imm, s.signed, if d.width == 64 then 32 else d.width, d.width == 64) then Err(RANGE)
      else ModRM([if d.width == 8 then 0xc6 else 0xc7], d.width, None, 0, d, Little(s.imm, ImmSize(d.width)))
    else if !d.Reg? then Err(FORM)
    else if s.Mem? then
      if d.width != s.width then Err(WIDTH) else ModRM([if d.width == 8 then 0x8a else 0x8b], d.width, Some(d), 0, s, [])
    else if s.Reg? then
      if d.width != s.width then Err(WIDTH) else ModRM([if d.width == 8 then 0x88 else 0x89], d.width, Some(s), 0, d, [])
    else if s.Imm? then
      if !Fits(s.imm, s.signed, d.width, false) then Err(RANGE)
      else Plain(d.width, Rex(d.width == 64, false, false, d.reg >= 8, NeedsRex(d)), d.high8,
                 [(if d.width == 8 then 0xb0 else 0xb8) + RegCode(d) % 8] + Little(s.imm, d.width / 8))
    else Err(FORM)
  }

  function EncodeLea(d: Operand, s: Operand): Result<Code>
    requires ValidOperand(d) && ValidOperand(s)
  {
    if !(d.Reg? && s.Mem?) then Err(FORM)
    else if d.width != 64 then Err(WIDTH)
    else ModRM([0x8d], 64, Some(d), 0, s, [])
  }

  function EncodeAlu(group: nat, d: Operand, s: Operand): Result<Code>
    requires ValidOperand(d) && ValidOperand(s)
  {
    if !d.Reg? && !d.Mem? then Err(FORM)
    else if !Scalar(d.width) then Err(WIDTH)
    else if s.Reg? then
      if s.width != d.width then Err(WIDTH)
      else ModRM([group * 8 + if d.width == 8 then 0 else 1], d.width, Some(s), 0, d, [])
    else if s.Mem? then
      if !d.Reg? then Err(FORM)
      else if s.width != d.width then Err(WIDTH)
      else ModRM([group * 8 + if d.width == 8 then 2 else 3], d.width, Some(d), 0, s, [])
    else if !s.Imm? then Err(FORM)
    else if !ImmFits(d.width, s) then Err(RANGE)
    else
      var compact := Fits(s.imm, s.signed, 8, true);
      if d.Reg? && d.reg == 0 && !d.high8 && (d.width == 8 || !compact) then
        Plain(d.width, Rex(d.width == 64, false, false, false, false), false,
              [group * 8 + if d.width == 8 then 4 else 5] + Little(s.imm, ImmSize(d.width)))
      else
        ModRM([if d.width == 8 then 0x80 else if compact then 0x83 else 0x81], d.width, None, group, d,
              Little(s.imm, if compact then 1 else ImmSize(d.width)))
  }

  /** 64-bit forms sign-extend 32 bits; narrower ones take all bit patterns of their width. */
  predicate ImmFits(w: nat, s: Operand)
    requires s.Imm? && Scalar(w)
  {
    if w == 64 then Fits(s.imm, s.signed, 32, true) else Fits(s.imm, s.signed, w, false)
  }

  /** In the immediate form of test the width of a memory operand is not checked: 80 bits take any
      immediate, and 0 bits only zero here. */
  function EncodeTest(d: Operand, s: Operand): Result<Code>
    requires ValidOperand(d) && ValidOperand(s)
  {
    if !d.Reg? && !d.Mem? then Err(FORM)
    else if s.Reg? then
      if s.width != d.width then Err(WIDTH)
      else ModRM([if d.width == 8 then 0x84 else 0x85], d.width, Some(s), 0, d, [])
    else if !s.Imm? then Err(FORM)
    else if Scalar(d.width) && !ImmFits(d.width, s) then Err(RANGE)
    else if d.width == 0 && (s.signed || s.imm != 0) then Err(RANGE)
    else if d.Reg? && d.reg == 0 && !d.high8 then
      Plain(d.width, Rex(d.width == 64, false, false, false, false), false,
            [if d.width == 8 then 0xa8 else 0xa9] + Little(s.imm, ImmSize(d.width)))
    else ModRM([if d.width == 8 then 0xf6 else 0xf7], d.width, None, 0, d, Little(s.imm, ImmSize(d.width)))
  }

  /** One operand and an opcode digit: inc, dec, not, neg, mul, div and idiv. */
  function EncodeUnary(m: Mnemonic, d: Operand): Result<Code>
    requires ValidOperand(d)
  {
    if !d.Reg? && !d.Mem? then Err(FORM)
    else ModRM([UnaryOpcode(m, d.width == 8)], d.width, None, UnaryDigit(m), d, [])
  }

  function UnaryDigit(m: Mnemonic): nat {
    match m case Inc => 0 case Dec => 1 case Not => 2 case Neg => 3 case Mul => 4 case Div => 6 case _ => 7
  }

  function UnaryOpcode(m: Mnemonic, narrow: bool): nat {
    if m == Inc || m == Dec then (if narrow then 0xfe else 0xff) else if narrow then 0xf6 else 0xf7
  }

  function EncodeShift(digit: nat, d: Operand, s: Operand): Result<Code>
    requires ValidOperand(d) && ValidOperand(s)
  {
    if !d.Reg? && !d.Mem? then Err(FORM)
    else if s.Reg? then
      if s.reg != 1 || s.width != 8 || s.high8 then Err(REGISTER)
      else ModRM([if d.width == 8 then 0xd2 else 0xd3], d.width, None, digit, d, [])
    else if !s.Imm? then Err(FORM)
    else if s.imm > 255 then Err(RANGE)
    else if s.imm == 1 then ModRM([if d.width == 8 then 0xd0 else 0xd1], d.width, None, digit, d, [])
    else ModRM([if d.width == 8 then 0xc0 else 0xc1], d.width, None, digit, d, [s.imm])
  }

  function EncodeImul(d: Operand, s: Operand, k: Option<Operand>): Result<Code>
    requires ValidOperand(d) && ValidOperand(s) && (k.Some? ==> ValidOperand(k.value))
  {
    if !d.Reg? || !(s.Reg? || s.Mem?) then Err(FORM)
    else if d.width == 8 || d.width != s.width then Err(WIDTH)
    else if k.None? then ModRM([0x0f, 0xaf], d.width, Some(d), 0, s, [])
    else if !k.value.Imm? then Err(FORM)
    else if !Fits(k.value.imm, k.value.signed, 32, true) then Err(RANGE)
    else
      var compact := Fits(k.value.imm, k.value.signed, 8, true);
      ModRM([if compact then 0x6b else 0x69], d.width, Some(d), 0, s, Little(k.value.imm, if compact then 1 else 4))
  }

  function EncodePushPop(push: bool, d: Operand): Result<Code>
    requires ValidOperand(d)
  {
    if d.Reg? then
      if d.width != 64 || d.high8 then Err(WIDTH)
      else Plain(32, Rex(false, false, false, d.reg >= 8, false), false, [(if push then 0x50 else 0x58) + d.reg % 8])
    else if d.Mem? then
      if d.width != 64 then Err(WIDTH) else ModRM([if push then 0xff else 0x8f], 32, None, if push then 6 else 0, d, [])
    else if push && d.Imm? then
      if Fits(d.imm, d.signed, 8, true) then Plain(32, NO_REX, false, [0x6a, d.imm % 256])
      else if !Fits(d.imm, d.signed, 32, true) then Err(RANGE)
      else Plain(32, NO_REX, false, [0x68] + Little(d.imm, 4))
    else Err(FORM)
  }

  function EncodeBranch(call: bool, d: Operand): Result<Code>
    requires ValidOperand(d)
  {
    if d.Rel? then
      if !Fits(d.imm, d.signed, 32, true) then Err(RANGE)
      else Plain(32, NO_REX, false, [if call then 0xe8 else 0xe9] + Little(d.imm, 4))
    else if !d.Reg? && !d.Mem? then Err(FORM)
    else if d.width != 64 then Err(WIDTH)
    else ModRM([0xff], 32, None, if call then 2 else 4, d, [])
  }

  function EncodeJcc(cc: nat, d: Operand): Result<Code>
    requires ValidOperand(d)
  {
    if !d.Rel? then Err(FORM)
    else if !Fits(d.imm, d.signed, 32, true) then Err(RANGE)
    else Plain(32, NO_REX, false, [0x0f, 0x80 + cc] + Little(d.imm, 4))
  }

  function EncodeExtend(m: Mnemonic, d: Operand, s: Operand): Result<Code>
    requires ValidOperand(d) && ValidOperand(s)
  {
    if !d.Reg? || !(s.Reg? || s.Mem?) then Err(FORM)
    else if m == Movsxd then
      if s.width != 32 || d.width != 64 then Err(WIDTH) else ModRM([0x63], 64, Some(d), 0, s, [])
    else if (s.width != 8 && s.width != 16) || d.width <= s.width then Err(WIDTH)
    else ModRM([0x0f, (if m == Movzx then 0xb6 else 0xbe) + if s.width == 8 then 0 else 1], d.width, Some(d), 0, s, [])
  }

  function EncodeSetcc(cc: nat, d: Operand): Result<Code>
    requires ValidOperand(d)
  {
    if !d.Reg? && !d.Mem? then Err(FORM)
    else if d.width != 8 then Err(WIDTH)
    else ModRM([0x0f, 0x90 + cc], 8, None, 0, d, [])
  }

  function EncodeCmov(cc: nat, d: Operand, s: Operand): Result<Code>
    requires ValidOperand(d) && ValidOperand(s)
  {
    if !d.Reg? || !(s.Reg? || s.Mem?) then Err(FORM)
    else if d.width == 8 || d.width != s.width then Err(WIDTH)
    else ModRM([0x0f, 0x40 + cc], d.width, Some(d), 0, s, [])
  }

  predicate GoodMnemonic(m: Mnemonic) {
    match m
    case Alu(g) => g < 8
    case Shift(d) => d in {0, 1, 4, 5, 7}
    case Jcc(c) => c < 16
    case Setcc(c) => c < 16
    case Cmov(c) => c < 16
    case _ => true
  }

  predicate GoodCount(m: Mnemonic, n: nat) {
    match m
    case Imul => n == 2 || n == 3
    case Inc => n == 1
    case Dec => n == 1
    case Not => n == 1
    case Neg => n == 1
    case Mul => n == 1
    case Div => n == 1
    case Idiv => n == 1
    case Push => n == 1
    case Pop => n == 1
    case CallOp => n == 1
    case JmpOp => n == 1
    case Jcc(_) => n == 1
    case Setcc(_) => n == 1
    case _ => n == 2
  }

  lemma {:induction false} AllChecked(ops: seq<Operand>)
    requires CheckAll(ops).None?
    ensures forall i :: 0 <= i < |ops| ==> Check(ops[i]).None?
  {
    if ops != [] {
      AllChecked(ops[1..]);
      assert forall i :: 0 < i < |ops| ==> ops[i] == ops[1..][i - 1];
    }
  }

  predicate Words(ops: seq<Operand>) {
    forall i :: 0 <= i < |ops| ==> (ops[i].Imm? || ops[i].Rel?) ==> ops[i].imm < W64
  }

  function Encode(m: Mnemonic, ops: seq<Operand>): Result<Code>
    requires GoodMnemonic(m) && Words(ops)
  {
    if !GoodCount(m, |ops|) then Err(COUNT)
    else if CheckAll(ops).Some? then Err(CheckAll(ops).value)
    else
      AllChecked(ops);
      match m
      case Lea => EncodeLea(ops[0], ops[1])
      case Alu(g) => EncodeAlu(g, ops[0], ops[1])
      case Test => EncodeTest(ops[0], ops[1])
      case Shift(d) => EncodeShift(d, ops[0], ops[1])
      case Imul => EncodeImul(ops[0], ops[1], if |ops| == 3 then Some(ops[2]) else None)
      case Push => EncodePushPop(true, ops[0])
      case Pop => EncodePushPop(false, ops[0])
      case CallOp => EncodeBranch(true, ops[0])
      case JmpOp => EncodeBranch(false, ops[0])
      case Jcc(cc) => EncodeJcc(cc, ops[0])
      case Movzx => EncodeExtend(m, ops[0], ops[1])
      case Movsx => EncodeExtend(m, ops[0], ops[1])
      case Movsxd => EncodeExtend(m, ops[0], ops[1])
      case Setcc(cc) => EncodeSetcc(cc, ops[0])
      case Cmov(cc) => EncodeCmov(cc, ops[0], ops[1])
      case Mov => EncodeMov(m, ops[0], ops[1])
      case LoadOp => EncodeMov(m, ops[0], ops[1])
      case StoreOp => EncodeMov(m, ops[0], ops[1])
      case _ => EncodeUnary(m, ops[0])
  }
}
