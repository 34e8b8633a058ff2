/** Instructions with the bytes that the repository's tests ask for. */
module X64Golden {
  import opened X64Encoder

  predicate Gives(m: Mnemonic, ops: seq<Operand>, bytes: seq<nat>) {
    GoodMnemonic(m) && Words(ops) && Encode(m, ops).Ok? && Encode(m, ops).value.bytes == bytes
  }

  lemma LittleIs(v: int)
    ensures Little(v, 1) == [v % 256] && Little(v, 2) == [v % 256, v / 256 % 256]
    ensures Little(v, 4) == [v % 256, v / 256 % 256, v / 256 / 256 % 256, v / 256 / 256 / 256 % 256]
  {
    assert Little(v / 256 / 256 / 256, 1) == [v / 256 / 256 / 256 % 256];
    assert Little(v / 256 / 256, 2) == [v / 256 / 256 % 256, v / 256 / 256 / 256 % 256];
    assert Little(v / 256, 3) == [v / 256 % 256, v / 256 / 256 % 256, v / 256 / 256 / 256 % 256];
  }

  lemma MoveRegisters()
    ensures Gives(Mov, [Reg(64, 0, false), Reg(64, 9, false)], [0x4c, 0x89, 0xc8])
  {
  }

  lemma MoveWords()
    ensures Gives(Mov, [Reg(16, 9, false), Reg(16, 14, false)], [0x66, 0x45, 0x89, 0xf1])
  {
  }

  lemma MoveHighByte()
    ensures Gives(Mov, [Reg(8, 0, true), Reg(8, 1, false)], [0x88, 0xcc])
  {
  }

  lemma LoadIndexed()
    ensures Gives(LoadOp, [Reg(64, 8, false), Mem(64, 13, 12, 8, 0, NoSegment)], [0x4f, 0x8b, 0x44, 0xe5, 0x00])
  {
  }

  lemma LoadFromSegment()
    ensures Gives(LoadOp, [Reg(16, 8, false), Mem(16, 12, -1, 1, 0, FS)], [0x64, 0x66, 0x45, 0x8b, 0x04, 0x24])
  {
  }

  lemma LoadWithoutBase()
    ensures Gives(LoadOp, [Reg(8, 0, false), Mem(8, -1, 1, 4, 4660, NoSegment)], [0x8a, 0x04, 0x8d, 0x34, 0x12, 0x00, 0x00])
  {
    LittleIs(4660);
  }

  lemma StoreHighByte()
    ensures Gives(StoreOp, [Mem(8, 4, -1, 1, 127, NoSegment), Reg(8, 0, true)], [0x88, 0x64, 0x24, 0x7f])
  {
    LittleIs(127);
  }

  lemma AddRegisters()
    ensures Gives(Alu(0), [Reg(64, 0, false), Reg(64, 1, false)], [0x48, 0x01, 0xc8])
  {
  }

  lemma AddByte()
    ensures Gives(Alu(0), [Reg(64, 0, false), Imm(2, false, 0)], [0x48, 0x83, 0xc0, 0x02])
  {
    LittleIs(2);
  }

  lemma AddToEax()
    ensures Gives(Alu(0), [Reg(32, 0, false), Imm(128, false, 0)], [0x05, 0x80, 0x00, 0x00, 0x00])
  {
    LittleIs(128);
  }

  lemma SubtractFromAl()
    ensures Gives(Alu(5), [Reg(8, 0, false), Imm(18446744073709551615, true, 0)], [0x2c, 0xff])
  {
    LittleIs(18446744073709551615);
  }

  lemma AddCarryFromMemory()
    ensures Gives(Alu(2), [Reg(16, 9, false), Mem(16, 12, -1, 1, 0, NoSegment)], [0x66, 0x45, 0x13, 0x0c, 0x24])
  {
  }

  lemma TestMemory()
    ensures Gives(Test, [Mem(16, 0, -1, 1, 0, NoSegment), Imm(65535, false, 0)], [0x66, 0xf7, 0x00, 0xff, 0xff])
  {
    LittleIs(65535);
  }

  lemma DecrementMemory()
    ensures Gives(Dec, [Mem(16, 12, -1, 1, 0, NoSegment)], [0x66, 0x41, 0xff, 0x0c, 0x24])
  {
  }

  lemma NegateMemory()
    ensures Gives(Neg, [Mem(8, 12, -1, 1, 0, NoSegment)], [0x41, 0xf6, 0x1c, 0x24])
  {
  }

  lemma ComplementRegister()
    ensures Gives(Not, [Reg(64, 8, false)], [0x49, 0xf7, 0xd0])
  {
  }

  lemma DivideSigned()
    ensures Gives(Idiv, [Reg(64, 10, false)], [0x49, 0xf7, 0xfa])
  {
  }

  lemma ShiftLeft()
    ensures Gives(Shift(4), [Reg(64, 0, false), Imm(3, false, 0)], [0x48, 0xc1, 0xe0, 0x03])
  {
    LittleIs(3);
  }

  lemma ShiftRightByOne()
    ensures Gives(Shift(5), [Reg(64, 8, false), Imm(1, false, 0)], [0x49, 0xd1, 0xe8])
  {
    LittleIs(1);
  }

  lemma ShiftByCount()
    ensures Gives(Shift(7), [Mem(32, 13, -1, 1, 0, NoSegment), Reg(8, 1, false)], [0x41, 0xd3, 0x7d, 0x00])
  {
  }

  lemma ProductOfThree()
    ensures Gives(Imul, [Reg(16, 0, false), Reg(16, 1, false), Imm(18446744073709551615, true, 0)], [0x66, 0x6b, 0xc1, 0xff])
  {
    LittleIs(18446744073709551615);
  }

  lemma PushRegister()
    ensures Gives(Push, [Reg(64, 8, false)], [0x41, 0x50])
  {
  }

  lemma PushMinusOne()
    ensures Gives(Push, [Imm(18446744073709551615, true, 0)], [0x6a, 0xff])
  {
    LittleIs(18446744073709551615);
  }

  lemma PopMemory()
    ensures Gives(Pop, [Mem(64, 5, -1, 1, 0, NoSegment)], [0x8f, 0x45, 0x00])
  {
  }

  lemma CallRegister()
    ensures Gives(CallOp, [Reg(64, 15, false)], [0x41, 0xff, 0xd7])
  {
  }

  lemma JumpThroughMemory()
    ensures Gives(JmpOp, [Mem(64, 12, -1, 1, 0, NoSegment)], [0x41, 0xff, 0x24, 0x24])
  {
  }

  lemma JumpBack()
    ensures Gives(JmpOp, [Rel(18446744073709551611, true, 0)], [0xe9, 0xfb, 0xff, 0xff, 0xff])
  {
    LittleIs(18446744073709551611);
  }

  lemma JumpIfNotEqual()
    ensures Gives(Jcc(5), [Rel(18446744073709551610, true, 0)], [0x0f, 0x85, 0xfa, 0xff, 0xff, 0xff])
  {
    LittleIs(18446744073709551610);
  }

  lemma ExtendByte()
    ensures Gives(Movzx, [Reg(64, 0, false), Reg(8, 1, false)], [0x48, 0x0f, 0xb6, 0xc1])
  {
  }

  lemma ExtendSignedByte()
    ensures Gives(Movsx, [Reg(64, 9, false), Mem(8, 12, -1, 1, 0, NoSegment)], [0x4d, 0x0f, 0xbe, 0x0c, 0x24])
  {
  }

  lemma SetIfEqual()
    ensures Gives(Setcc(4), [Reg(8, 0, false)], [0x0f, 0x94, 0xc0])
  {
  }

  lemma MoveIfEqual()
    ensures Gives(Cmov(4), [Reg(64, 0, false), Reg(64, 1, false)], [0x48, 0x0f, 0x44, 0xc1])
  {
  }
}
