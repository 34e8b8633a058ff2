/** Which instructions the encoder accepts, as a table of operand kinds, widths and immediate ranges. */
module X64Encodable {
  import opened X64Encoder

  // ----- Operands -----

  predicate Place(o: Operand) {
    o.Reg? || o.Mem?
  }

  predicate OfWidth(o: Operand, w: nat) {
    Place(o) && o.width == w
  }

  predicate Plainly(w: nat) {
    w in {8, 16, 32, 64}
  }

  /** The number an immediate stands for. */
  function Number(o: Operand): int
    requires o.Imm? || o.Rel?
  {
    if o.signed && o.imm >= 0x8000_0000_0000_0000 then o.imm - 0x1_0000_0000_0000_0000 else o.imm
  }

  /** It is a signed number of 8, 16 or 32 bits. */
  predicate SignedIn(o: Operand, w: nat)
    requires o.Imm? || o.Rel?
  {
    match w
    case 8 => -128 <= Number(o) <= 127
    case 16 => -32768 <= Number(o) <= 32767
    case 32 => -2147483648 <= Number(o) <= 2147483647
    case _ => true
  }

  /** It is one of these if it is marked as signed, and otherwise an unsigned one. */
  predicate BitsOf(o: Operand, w: nat)
    requires o.Imm? || o.Rel?
  {
    if o.signed then SignedIn(o, w)
    else match w
      case 8 => o.imm <= 255
      case 16 => o.imm <= 65535
      case 32 => o.imm <= 4294967295
      case _ => true
  }

  /** An operand that can stand in an instruction at all. AH to BH are registers 0 to 3. */
  predicate Sound(o: Operand) {
    match o
    case Reg(w, r, high8) => Plainly(w) && r < 16 && (high8 ==> w == 8 && r < 4)
    case Imm(_, _, w) => w == 0 || (Plainly(w) && BitsOf(o, w))
    case Rel(_, _, w) => w == 0 || (Plainly(w) && BitsOf(o, w))
    case Mem(w, base, index, scale, disp, _) =>
      && w in {0, 8, 16, 32, 64, 80} && -2 <= base <= 15 && -1 <= index <= 15 && index != 4
      && scale in {1, 2, 4, 8} && (index == -1 ==> scale == 1) && (base == -2 ==> index == -1)
      && -2147483648 <= disp <= 2147483647
  }

  // ----- The table -----

  /** How many operands there are. */
  predicate Numbered(m: Mnemonic, n: nat) {
    if m == Imul then n in {2, 3}
    else if m in {Inc, Dec, Not, Neg, Mul, Div, Idiv, Push, Pop, CallOp, JmpOp} || m.Jcc? || m.Setcc? then n == 1
    else n == 2
  }

  predicate Moves(d: Operand, s: Operand) {
    (d.Mem? && (s.Reg? || s.Imm?)) || (d.Reg? && (s.Reg? || s.Mem? || s.Imm?))
  }

  predicate Kinds(m: Mnemonic, ops: seq<Operand>)
    requires Numbered(m, |ops|)
  {
    match m
    case Mov => Moves(ops[0], ops[1])
    case LoadOp => ops[0].Reg? && ops[1].Mem?
    case StoreOp => ops[0].Mem? && (ops[1].Reg? || ops[1].Imm?)
    case Lea => ops[0].Reg? && ops[1].Mem?
    case Alu(_) => Moves(ops[0], ops[1])
    case Test => Place(ops[0]) && (ops[1].Reg? || ops[1].Imm?)
    case Shift(_) => Place(ops[0]) && (ops[1].Reg? || ops[1].Imm?)
    case Imul => ops[0].Reg? && Place(ops[1]) && (|ops| == 3 ==> ops[2].Imm?)
    case Push => Place(ops[0]) || ops[0].Imm?
    case CallOp => Place(ops[0]) || ops[0].Rel?
    case JmpOp => Place(ops[0]) || ops[0].Rel?
    case Jcc(_) => ops[0].Rel?
    case Movzx => ops[0].Reg? && Place(ops[1])
    case Movsx => ops[0].Reg? && Place(ops[1])
    case Movsxd => ops[0].Reg? && Place(ops[1])
    case Cmov(_) => ops[0].Reg? && Place(ops[1])
    case _ => Place(ops[0])
  }

  /** Places of one width where there are two; only inc, dec, not, neg, mul, div, idiv, shifts and tests
      take memory without a width, or of 80 bits. */
  predicate Widths(m: Mnemonic, ops: seq<Operand>)
    requires Numbered(m, |ops|) && Kinds(m, ops)
  {
    if m in {Mov, LoadOp, StoreOp} || m.Alu? then
      Plainly(ops[0].width) && (Place(ops[1]) ==> ops[1].width == ops[0].width)
    else if m == Test then ops[1].Reg? ==> ops[0].width == ops[1].width
    else if m == Imul || m.Cmov? then ops[0].width in {16, 32, 64} && ops[1].width == ops[0].width
    else if m == Lea then ops[0].width == 64
    else if m in {Push, Pop, CallOp, JmpOp} then Place(ops[0]) ==> ops[0].width == 64
    else if m == Movsxd then ops[0].width == 64 && ops[1].width == 32
    else if m in {Movzx, Movsx} then ops[1].width in {8, 16} && ops[0].width > ops[1].width
    else if m.Setcc? then ops[0].width == 8
    else true
  }

  /** A shift by a register is one by CL. */
  predicate CountRegister(m: Mnemonic, ops: seq<Operand>)
    requires Numbered(m, |ops|) && Kinds(m, ops)
  {
    m.Shift? && ops[1].Reg? ==> ops[1] == Reg(8, 1, false)
  }

  /** Immediates of 64-bit operations are sign-extended 32 bits, except that a register can be given
      all 64. */
  predicate Ranges(m: Mnemonic, ops: seq<Operand>)
    requires Numbered(m, |ops|) && Kinds(m, ops)
  {
    if (m in {Mov, StoreOp, Test} || m.Alu?) && ops[1].Imm? then
      (if ops[0].width == 0 then m == Test ==> !ops[1].signed && ops[1].imm == 0
       else if ops[0].width == 80 then true
       else if ops[0].width < 64 then BitsOf(ops[1], ops[0].width)
       else (m == Mov && ops[0].Reg?) || SignedIn(ops[1], 32))
    else if m.Shift? && ops[1].Imm? then 0 <= Number(ops[1]) <= 255
    else if m == Imul && |ops| == 3 then SignedIn(ops[2], 32)
    else if (m == Push && ops[0].Imm?) || ops[0].Rel? then SignedIn(ops[0], 32)
    else true
  }

  /** Only with a REX prefix: registers from 8 on, and SPL, BPL, SIL and DIL. */
  predicate Extended(o: Operand) {
    match o
    case Reg(w, r, high8) => r >= 8 || (w == 8 && !high8 && r >= 4)
    case Mem(_, base, index, _, _, _) => base >= 8 || index >= 8
    case _ => false
  }

  predicate High(o: Operand) {
    o.Reg? && o.high8
  }

  /** AH to BH do not go with a REX prefix, which 64-bit operations have as well. */
  predicate NoClash(m: Mnemonic, ops: seq<Operand>)
    requires Numbered(m, |ops|)
  {
    var n := if m.Shift? then 1 else |ops|;
    High(ops[0]) || (n > 1 && High(ops[1])) ==>
      !OfWidth(ops[0], 64) && !Extended(ops[0]) && (n > 1 ==> !Extended(ops[1]))
  }

  predicate AllSound(ops: seq<Operand>) {
    forall i :: 0 <= i < |ops| ==> Sound(ops[i])
  }

  predicate Encodable(m: Mnemonic, ops: seq<Operand>) {
    && Numbered(m, |ops|) && AllSound(ops) && Kinds(m, ops)
    && Widths(m, ops) && CountRegister(m, ops) && Ranges(m, ops) && NoClash(m, ops)
  }

  /** What an error says is true of the operands. */
  predicate Deserved(m: Mnemonic, ops: seq<Operand>, e: Error) {
    if !Numbered(m, |ops|) then e == COUNT
    else if !AllSound(ops) then exists i :: 0 <= i < |ops| && Unsound(ops[i], e)
    else match e
      case FORM => !Kinds(m, ops)
      case WIDTH =>
        var places := if |ops| == 3 then ops[..2] else ops;
        (ops[0].Mem? && !Plainly(ops[0].width)) || (Kinds(m, places) && !Widths(m, places))
      case REGISTER => Kinds(m, ops) && !CountRegister(m, ops)
      case RANGE => Kinds(m, ops) && !Ranges(m, ops)
      case HIGH8_REX => !NoClash(m, ops)
      case _ => false
  }

  /** The error an operand is refused with. */
  predicate Unsound(o: Operand, e: Error) {
    match o
    case Reg(w, r, high8) => if !Plainly(w) then e == WIDTH else e == REGISTER && (r >= 16 || (high8 && (w != 8 || r >= 4)))
    case Imm(_, _, w) => w != 0 && if !Plainly(w) then e == WIDTH else e == RANGE && !BitsOf(o, w)
    case Rel(_, _, w) => w != 0 && if !Plainly(w) then e == WIDTH else e == RANGE && !BitsOf(o, w)
    case Mem(w, _, _, _, _, _) => if w !in {0, 8, 16, 32, 64, 80} then e == WIDTH else e == ADDRESS && !Sound(o)
  }

  // ----- The checks of the encoder -----

  lemma FitsIs(imm: nat, signed: bool, width: nat, w: nat, extended: bool)
    requires Scalar(w) && imm < W64
    ensures var o := Imm(imm, signed, width); Fits(imm, signed, w, extended) <==> w == 64 || if extended then SignedIn(o, w) else BitsOf(o, w)
    ensures var o := Rel(imm, signed, width); Fits(imm, signed, w, extended) <==> w == 64 || if extended then SignedIn(o, w) else BitsOf(o, w)
  {
  }

  lemma CheckIs(o: Operand)
    requires (o.Imm? || o.Rel?) ==> o.imm < W64
    ensures Check(o).None? <==> Sound(o)
    ensures Check(o).Some? ==> Unsound(o, Check(o).value)
  {
    hide Fits, BitsOf, SignedIn;
    if (o.Imm? || o.Rel?) && Scalar(o.width) {
      FitsIs(o.imm, o.signed, o.width, o.width, false);
      WideIs(o);
    }
  }

  lemma WideIs(o: Operand)
    requires o.Imm? || o.Rel?
    ensures BitsOf(o, 64)
  {
  }

  lemma {:induction false} CheckAllIs(ops: seq<Operand>)
    requires Words(ops)
    ensures CheckAll(ops).None? <==> AllSound(ops)
    ensures CheckAll(ops).Some? ==> exists i :: 0 <= i < |ops| && Unsound(ops[i], CheckAll(ops).value)
  {
    hide Check, Sound, Unsound;
    if ops != [] {
      CheckIs(ops[0]);
      CheckAllIs(ops[1..]);
      assert forall i :: 0 < i < |ops| ==> ops[i] == ops[1..][i - 1];
      if Check(ops[0]).None? && CheckAll(ops[1..]).Some? {
        var i :| 0 <= i < |ops| - 1 && Unsound(ops[1..][i], CheckAll(ops[1..]).value);
        assert Unsound(ops[i + 1], CheckAll(ops).value);
      }
    }
  }

  // ----- The families -----

  /** The result is what the table says. */
  ghost predicate AsListed(m: Mnemonic, ops: seq<Operand>, r: Result<Code>) {
    (r.Ok? <==> Encodable(m, ops)) && (r.Err? ==> Deserved(m, ops, r.error))
  }

  predicate Clash(reg: Option<Operand>, rm: Operand, wide: bool)
    requires reg.Some? ==> reg.value.Reg?
  {
    && ((reg.Some? && reg.value.high8) || (rm.Reg? && rm.high8))
    && (wide || Extended(rm) || (reg.Some? && Extended(reg.value)))
  }

  lemma AddressedOk(opcode: seq<nat>, width: nat, reg: Option<Operand>, digit: nat, rm: Operand, imm: seq<nat>)
    requires (reg.Some? ==> reg.value.Reg?) && Place(rm) && (rm.Mem? ==> rm.base >= -2 && rm.index >= -1)
    ensures var r := ModRM(opcode, width, reg, digit, rm, imm);
            (r.Ok? <==> !Clash(reg, rm, width == 64)) && (r.Err? ==> r.error == HIGH8_REX)
  {
    hide PrefixBytes, Address, DispSize;
  }

  lemma OneClashes(m: Mnemonic, d: Operand, wide: bool)
    requires Numbered(m, 1) && Sound(d) && (wide ==> d.Mem? || (d.Reg? && d.width == 64))
    ensures NoClash(m, [d]) && !Clash(None, d, wide)
  {
  }

  lemma TwoClash(m: Mnemonic, d: Operand, s: Operand)
    requires Numbered(m, 2) && !m.Shift? && Sound(d) && Sound(s)
    ensures d.Reg? ==> (NoClash(m, [d, s]) <==> !Clash(Some(d), s, d.width == 64))
    ensures s.Reg? && Place(d) ==> (NoClash(m, [d, s]) <==> !Clash(Some(s), d, d.width == 64))
    ensures s.Imm? && Place(d) ==> NoClash(m, [d, s]) && !Clash(None, d, d.width == 64)
  {
  }

  lemma ThreeClash(d: Operand, s: Operand, k: Operand)
    requires Sound(d) && Sound(s) && k.Imm? && d.Reg?
    ensures NoClash(Imul, [d, s, k]) <==> !Clash(Some(d), s, d.width == 64)
  {
  }

  lemma ShiftClashes(m: Mnemonic, d: Operand, s: Operand)
    requires m.Shift? && Sound(d)
    ensures Place(d) ==> NoClash(m, [d, s]) && !Clash(None, d, d.width == 64)
  {
  }

  lemma RangeIs(s: Operand)
    requires s.Imm? && s.imm < W64
    ensures forall w :: Scalar(w) ==> (Fits(s.imm, s.signed, w, false) <==> w == 64 || BitsOf(s, w))
    ensures forall w :: Scalar(w) ==> (Fits(s.imm, s.signed, w, true) <==> w == 64 || SignedIn(s, w))
  {
    hide Fits, BitsOf, SignedIn;
    forall w | Scalar(w)
      ensures Fits(s.imm, s.signed, w, false) <==> w == 64 || BitsOf(s, w)
      ensures Fits(s.imm, s.signed, w, true) <==> w == 64 || SignedIn(s, w)
    {
      FitsIs(s.imm, s.signed, s.width, w, false);
      FitsIs(s.imm, s.signed, s.width, w, true);
    }
  }

  /** What the forms with a ModRM byte that are tried on two operands come to. */
  lemma FormsOf(d: Operand, s: Operand)
    requires Sound(d) && Sound(s)
    ensures d.Reg? && Place(s) ==> Addressed(Some(d), s)
    ensures s.Reg? && Place(d) ==> Addressed(Some(s), d)
    ensures Place(d) ==> Addressed(None, d)
  {
    AddressedAll(Some(d), s);
    AddressedAll(Some(s), d);
    AddressedAll(None, d);
  }

  ghost predicate Addressed(reg: Option<Operand>, rm: Operand)
    requires (reg.Some? ==> reg.value.Reg?) && Place(rm) && (rm.Mem? ==> rm.base >= -2 && rm.index >= -1)
  {
    forall opcode, width, digit, imm {:trigger ModRM(opcode, width, reg, digit, rm, imm)} ::
      AddressedAs(opcode, width, reg, digit, rm, imm)
  }

  ghost predicate AddressedAs(opcode: seq<nat>, width: nat, reg: Option<Operand>, digit: nat, rm: Operand, imm: seq<nat>)
    requires (reg.Some? ==> reg.value.Reg?) && Place(rm) && (rm.Mem? ==> rm.base >= -2 && rm.index >= -1)
  {
    var r := ModRM(opcode, width, reg, digit, rm, imm);
    (r.Ok? <==> !Clash(reg, rm, width == 64)) && (r.Err? ==> r.error == HIGH8_REX)
  }

  lemma AddressedAll(reg: Option<Operand>, rm: Operand)
    ensures (reg.Some? ==> reg.value.Reg?) && Place(rm) && (rm.Mem? ==> rm.base >= -2 && rm.index >= -1) ==> Addressed(reg, rm)
  {
    if (reg.Some? ==> reg.value.Reg?) && Place(rm) && (rm.Mem? ==> rm.base >= -2 && rm.index >= -1) {
      forall opcode, width: nat, digit: nat, imm
        ensures AddressedAs(opcode, width, reg, digit, rm, imm)
      {
        AddressedOk(opcode, width, reg, digit, rm, imm);
      }
    }
  }

  lemma MovListed(m: Mnemonic, d: Operand, s: Operand)
    requires m in {Mov, LoadOp, StoreOp} && ValidOperand(d) && ValidOperand(s) && Sound(d) && Sound(s)
    ensures AsListed(m, [d, s], EncodeMov(m, d, s))
  {
    hide ModRM, Fits, BitsOf, SignedIn, NoClash, Clash, Check, Little, Unsound, Extended;
    if s.Imm? {
      RangeIs(s);
    }
    FormsOf(d, s);
    TwoClash(m, d, s);
  }

  lemma LeaListed(d: Operand, s: Operand)
    requires ValidOperand(d) && ValidOperand(s) && Sound(d) && Sound(s)
    ensures AsListed(Lea, [d, s], EncodeLea(d, s))
  {
    hide ModRM, NoClash, Clash, Check, Unsound, Extended;
    FormsOf(d, s);
    TwoClash(Lea, d, s);
  }

  lemma AluListed(g: nat, d: Operand, s: Operand)
    requires ValidOperand(d) && ValidOperand(s) && Sound(d) && Sound(s)
    ensures AsListed(Alu(g), [d, s], EncodeAlu(g, d, s))
  {
    hide ModRM, Fits, BitsOf, SignedIn, NoClash, Clash, Check, Little, Unsound, Extended;
    if s.Imm? {
      RangeIs(s);
    }
    FormsOf(d, s);
    TwoClash(Alu(g), d, s);
  }

  lemma TestListed(d: Operand, s: Operand)
    requires ValidOperand(d) && ValidOperand(s) && Sound(d) && Sound(s)
    ensures AsListed(Test, [d, s], EncodeTest(d, s))
  {
    hide ModRM, Fits, BitsOf, SignedIn, NoClash, Clash, Check, Little, Unsound, Extended;
    if s.Imm? {
      RangeIs(s);
    }
    FormsOf(d, s);
    TwoClash(Test, d, s);
  }

  lemma UnaryListed(m: Mnemonic, d: Operand)
    requires m in {Inc, Dec, Not, Neg, Mul, Div, Idiv} && ValidOperand(d) && Sound(d)
    ensures AsListed(m, [d], EncodeUnary(m, d))
  {
    hide ModRM, NoClash, Clash, Check, Unsound, Extended;
    FormsOf(d, d);
    if d.Reg? || d.Mem? {
      OneClashes(m, d, d.width == 64);
    }
  }

  lemma ShiftListed(digit: nat, d: Operand, s: Operand)
    requires ValidOperand(d) && ValidOperand(s) && Sound(d) && Sound(s)
    ensures AsListed(Shift(digit), [d, s], EncodeShift(digit, d, s))
  {
    hide ModRM, NoClash, Clash, Check, Unsound, Extended;
    FormsOf(d, s);
    ShiftClashes(Shift(digit), d, s);
  }

  lemma ImulListed(d: Operand, s: Operand, k: Option<Operand>)
    requires ValidOperand(d) && ValidOperand(s) && (k.Some? ==> ValidOperand(k.value) && Sound(k.value)) && Sound(d) && Sound(s)
    ensures AsListed(Imul, if k.Some? then [d, s, k.value] else [d, s], EncodeImul(d, s, k))
  {
    hide ModRM, Fits, BitsOf, SignedIn, NoClash, Clash, Check, Little, Unsound, Extended;
    FormsOf(d, s);
    TwoClash(Imul, d, s);
    assert k.Some? ==> [d, s, k.value][..2] == [d, s];
    if k.Some? && k.value.Imm? {
      RangeIs(k.value);
      if d.Reg? {
        ThreeClash(d, s, k.value);
      }
    }
  }

  lemma PushPopListed(push: bool, d: Operand)
    requires ValidOperand(d) && Sound(d)
    ensures AsListed(if push then Push else Pop, [d], EncodePushPop(push, d))
  {
    hide ModRM, Fits, BitsOf, SignedIn, NoClash, Clash, Check, Little, Unsound, Extended;
    FormsOf(d, d);
    if d.Imm? {
      RangeIs(d);
      SmallSigned(d);
    }
    OneClashes(if push then Push else Pop, d, false);
  }

  lemma SmallSigned(o: Operand)
    requires o.Imm? || o.Rel?
    ensures SignedIn(o, 8) ==> SignedIn(o, 32)
  {
  }

  lemma RelRangeIs(o: Operand)
    requires o.Rel? && o.imm < W64
    ensures Fits(o.imm, o.signed, 32, true) <==> SignedIn(o, 32)
  {
    FitsIs(o.imm, o.signed, o.width, 32, true);
  }

  lemma BranchListed(call: bool, d: Operand)
    requires ValidOperand(d) && Sound(d)
    ensures AsListed(if call then CallOp else JmpOp, [d], EncodeBranch(call, d))
  {
    hide ModRM, Fits, BitsOf, SignedIn, NoClash, Clash, Check, Little, Unsound, Extended;
    FormsOf(d, d);
    if d.Rel? {
      RelRangeIs(d);
    }
    OneClashes(if call then CallOp else JmpOp, d, false);
  }

  lemma JccListed(cc: nat, d: Operand)
    requires ValidOperand(d) && Sound(d)
    ensures AsListed(Jcc(cc), [d], EncodeJcc(cc, d))
  {
    hide Fits, BitsOf, SignedIn, NoClash, Clash, Check, Little, Unsound, Extended;
    if d.Rel? {
      RelRangeIs(d);
    }
    OneClashes(Jcc(cc), d, false);
  }

  lemma ExtendListed(m: Mnemonic, d: Operand, s: Operand)
    requires m in {Movzx, Movsx, Movsxd} && ValidOperand(d) && ValidOperand(s) && Sound(d) && Sound(s)
    ensures AsListed(m, [d, s], EncodeExtend(m, d, s))
  {
    hide ModRM, NoClash, Clash, Check, Unsound, Extended;
    FormsOf(d, s);
    TwoClash(m, d, s);
  }

  lemma SetccListed(cc: nat, d: Operand)
    requires ValidOperand(d) && Sound(d)
    ensures AsListed(Setcc(cc), [d], EncodeSetcc(cc, d))
  {
    hide ModRM, NoClash, Clash, Check, Unsound, Extended;
    FormsOf(d, d);
    OneClashes(Setcc(cc), d, false);
  }

  lemma CmovListed(cc: nat, d: Operand, s: Operand)
    requires ValidOperand(d) && ValidOperand(s) && Sound(d) && Sound(s)
    ensures AsListed(Cmov(cc), [d, s], EncodeCmov(cc, d, s))
  {
    hide ModRM, NoClash, Clash, Check, Unsound, Extended;
    FormsOf(d, s);
    TwoClash(Cmov(cc), d, s);
  }

  /** The encoder accepts exactly the operands of the table, and an error says what is wrong. */
  lemma EncodesExactly(m: Mnemonic, ops: seq<Operand>)
    requires GoodMnemonic(m) && Words(ops)
    ensures Encode(m, ops).Ok? <==> Encodable(m, ops)
    ensures Encode(m, ops).Err? ==> Deserved(m, ops, Encode(m, ops).error)
  {
    hide Encodable, Deserved, Sound, Check, EncodeMov, EncodeLea, EncodeAlu, EncodeTest, EncodeShift, EncodeImul,
         EncodePushPop, EncodeBranch, EncodeJcc, EncodeExtend, EncodeSetcc, EncodeCmov, EncodeUnary;
    CheckAllIs(ops);
    if GoodCount(m, |ops|) && CheckAll(ops).None? {
      AllChecked(ops);
      Dispatched(m, ops);
    } else {
      Refused(m, ops);
    }
  }

  lemma Refused(m: Mnemonic, ops: seq<Operand>)
    requires GoodMnemonic(m) && Words(ops) && (!GoodCount(m, |ops|) || CheckAll(ops).Some?)
    ensures Encode(m, ops).Err? && !Encodable(m, ops) && Deserved(m, ops, Encode(m, ops).error)
  {
    hide Check, Sound, Unsound, BitsOf, Kinds, Widths, Ranges, NoClash, CountRegister;
    CheckAllIs(ops);
  }

  lemma Dispatched(m: Mnemonic, ops: seq<Operand>)
    requires GoodMnemonic(m) && Words(ops) && GoodCount(m, |ops|) && AllSound(ops) && CheckAll(ops).None?
    requires forall i :: 0 <= i < |ops| ==> Check(ops[i]).None?
    ensures AsListed(m, ops, Encode(m, ops))
  {
    hide AsListed, AllSound, Encode, Check, CheckAll;
    if |ops| == 1 {
      OneDispatched(m, ops);
    } else if |ops| == 2 {
      TwoDispatched(m, ops);
    } else {
      ThreeDispatched(m, ops);
    }
  }

  lemma OneDispatched(m: Mnemonic, ops: seq<Operand>)
    requires GoodMnemonic(m) && Words(ops) && |ops| == 1 && GoodCount(m, 1) && AllSound(ops) && CheckAll(ops).None?
    requires Check(ops[0]).None?
    ensures AsListed(m, ops, Encode(m, ops))
  {
    hide AsListed, Sound, Check, CheckAll, EncodeMov, EncodeLea, EncodeAlu, EncodeTest, EncodeShift, EncodeImul,
         EncodePushPop, EncodeBranch, EncodeJcc, EncodeExtend, EncodeSetcc, EncodeCmov, EncodeUnary;
    var d := ops[0];
    assert ops == [d];
    match m
    case Push => PushPopListed(true, d);
    case Pop => PushPopListed(false, d);
    case CallOp => BranchListed(true, d);
    case JmpOp => BranchListed(false, d);
    case Jcc(cc) => JccListed(cc, d);
    case Setcc(cc) => SetccListed(cc, d);
    case _ => UnaryListed(m, d);
  }

  lemma TwoDispatched(m: Mnemonic, ops: seq<Operand>)
    requires GoodMnemonic(m) && Words(ops) && |ops| == 2 && GoodCount(m, 2) && AllSound(ops) && CheckAll(ops).None?
    requires Check(ops[0]).None? && Check(ops[1]).None?
    ensures AsListed(m, ops, Encode(m, ops))
  {
    hide AsListed, Sound, Check, CheckAll, EncodeMov, EncodeLea, EncodeAlu, EncodeTest, EncodeShift, EncodeImul,
         EncodePushPop, EncodeBranch, EncodeJcc, EncodeExtend, EncodeSetcc, EncodeCmov, EncodeUnary;
    var d, s := ops[0], ops[1];
    assert ops == [d, s];
    match m
    case Lea => LeaListed(d, s);
    case Alu(g) => AluListed(g, d, s);
    case Test => TestListed(d, s);
    case Shift(n) => ShiftListed(n, d, s);
    case Imul => ImulListed(d, s, None);
    case Movzx => ExtendListed(m, d, s);
    case Movsx => ExtendListed(m, d, s);
    case Movsxd => ExtendListed(m, d, s);
    case Cmov(cc) => CmovListed(cc, d, s);
    case _ => MovListed(m, d, s);
  }

  lemma ThreeDispatched(m: Mnemonic, ops: seq<Operand>)
    requires GoodMnemonic(m) && Words(ops) && |ops| > 2 && GoodCount(m, |ops|) && AllSound(ops) && CheckAll(ops).None?
    requires forall i :: 0 <= i < |ops| ==> Check(ops[i]).None?
    ensures AsListed(m, ops, Encode(m, ops))
  {
    hide AsListed, Sound, Check, CheckAll, EncodeImul;
    assert ops == [ops[0], ops[1], ops[2]];
    ImulListed(ops[0], ops[1], Some(ops[2]));
  }
}
