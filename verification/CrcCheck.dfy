/** The published check values of the three checksums: those of the text "123456789". */
module CrcCheck {
  import opened Checksums
  import opened CrcBits
  import opened CrcRegisters
  import opened Crc

  const DIGITS: seq<Byte> := [0x31, 0x32, 0x33, 0x34, 0x35, 0x36, 0x37, 0x38, 0x39]

  lemma FoldLast<C>(step: (C, Byte) -> C, c: C, n: nat, before: C)
    requires n < 9 && Fold(step, c, DIGITS[..n]) == before
    ensures Fold(step, c, DIGITS[..n + 1]) == step(before, DIGITS[n])
  {
    assert DIGITS[..n + 1][..n] == DIGITS[..n];
  }

  /** Without a byte the register keeps its starting value. */
  lemma NoBytes(c: bv16)
    ensures Ccitt(c, []) == c && Modbus([]) == 0xFFFF && Crc32([]) == 0
  {
    Crc32Ends([], 0xFFFF_FFFF);
  }

  lemma CcittDigit1()
    ensures CcittByte(0xFFFF, 0x31) == 0xC782
  {
    Eight(CcittBit, CcittMix(0xFFFF, 0x31));
  }

  lemma CcittDigit2()
    ensures CcittByte(0xC782, 0x32) == 0x3DBA
  {
    Eight(CcittBit, CcittMix(0xC782, 0x32));
  }

  lemma CcittDigit3()
    ensures CcittByte(0x3DBA, 0x33) == 0x5BCE
  {
    Eight(CcittBit, CcittMix(0x3DBA, 0x33));
  }

  lemma CcittDigit4()
    ensures CcittByte(0x5BCE, 0x34) == 0x5349
  {
    Eight(CcittBit, CcittMix(0x5BCE, 0x34));
  }

  lemma CcittDigit5()
    ensures CcittByte(0x5349, 0x35) == 0x4560
  {
    Eight(CcittBit, CcittMix(0x5349, 0x35));
  }

  lemma CcittDigit6()
    ensures CcittByte(0x4560, 0x36) == 0x2EF4
  {
    Eight(CcittBit, CcittMix(0x4560, 0x36));
  }

  lemma CcittDigit7()
    ensures CcittByte(0x2EF4, 0x37) == 0x7718
  {
    Eight(CcittBit, CcittMix(0x2EF4, 0x37));
  }

  lemma CcittDigit8()
    ensures CcittByte(0x7718, 0x38) == 0xA12B
  {
    Eight(CcittBit, CcittMix(0x7718, 0x38));
  }

  lemma CcittDigit9()
    ensures CcittByte(0xA12B, 0x39) == 0x29B1
  {
    Eight(CcittBit, CcittMix(0xA12B, 0x39));
  }

  lemma CcittCheck()
    ensures Ccitt(0xFFFF, DIGITS) == 0x29B1
  {
    hide CcittByte, Fold;
    FoldNothing(CcittByte, 0xFFFF);
    CcittDigit1();
    FoldLast(CcittByte, 0xFFFF, 0, 0xFFFF);
    CcittDigit2();
    FoldLast(CcittByte, 0xFFFF, 1, 0xC782);
    CcittDigit3();
    FoldLast(CcittByte, 0xFFFF, 2, 0x3DBA);
    CcittDigit4();
    FoldLast(CcittByte, 0xFFFF, 3, 0x5BCE);
    CcittDigit5();
    FoldLast(CcittByte, 0xFFFF, 4, 0x5349);
    CcittDigit6();
    FoldLast(CcittByte, 0xFFFF, 5, 0x4560);
    CcittDigit7();
    FoldLast(CcittByte, 0xFFFF, 6, 0x2EF4);
    CcittDigit8();
    FoldLast(CcittByte, 0xFFFF, 7, 0x7718);
    CcittDigit9();
    FoldLast(CcittByte, 0xFFFF, 8, 0xA12B);
    assert DIGITS[..9] == DIGITS;
  }

  lemma ModbusDigit1()
    ensures ModbusByte(0xFFFF, 0x31) == 0x947E
  {
    Eight(ModbusBit, ModbusMix(0xFFFF, 0x31));
  }

  lemma ModbusDigit2()
    ensures ModbusByte(0x947E, 0x32) == 0xF595
  {
    Eight(ModbusBit, ModbusMix(0x947E, 0x32));
  }

  lemma ModbusDigit3()
    ensures ModbusByte(0xF595, 0x33) == 0x7A75
  {
    Eight(ModbusBit, ModbusMix(0xF595, 0x33));
  }

  lemma ModbusDigit4()
    ensures ModbusByte(0x7A75, 0x34) == 0x30BA
  {
    Eight(ModbusBit, ModbusMix(0x7A75, 0x34));
  }

  lemma ModbusDigit5()
    ensures ModbusByte(0x30BA, 0x35) == 0xA471
  {
    Eight(ModbusBit, ModbusMix(0x30BA, 0x35));
  }

  lemma ModbusDigit6()
    ensures ModbusByte(0xA471, 0x36) == 0x32E4
  {
    Eight(ModbusBit, ModbusMix(0xA471, 0x36));
  }

  lemma ModbusDigit7()
    ensures ModbusByte(0x32E4, 0x37) == 0x9D73
  {
    Eight(ModbusBit, ModbusMix(0x32E4, 0x37));
  }

  lemma ModbusDigit8()
    ensures ModbusByte(0x9D73, 0x38) == 0x37DD
  {
    Eight(ModbusBit, ModbusMix(0x9D73, 0x38));
  }

  lemma ModbusDigit9()
    ensures ModbusByte(0x37DD, 0x39) == 0x4B37
  {
    Eight(ModbusBit, ModbusMix(0x37DD, 0x39));
  }

  lemma ModbusCheck()
    ensures Modbus(DIGITS) == 0x4B37
  {
    hide ModbusByte, Fold;
    FoldNothing(ModbusByte, 0xFFFF);
    ModbusDigit1();
    FoldLast(ModbusByte, 0xFFFF, 0, 0xFFFF);
    ModbusDigit2();
    FoldLast(ModbusByte, 0xFFFF, 1, 0x947E);
    ModbusDigit3();
    FoldLast(ModbusByte, 0xFFFF, 2, 0xF595);
    ModbusDigit4();
    FoldLast(ModbusByte, 0xFFFF, 3, 0x7A75);
    ModbusDigit5();
    FoldLast(ModbusByte, 0xFFFF, 4, 0x30BA);
    ModbusDigit6();
    FoldLast(ModbusByte, 0xFFFF, 5, 0xA471);
    ModbusDigit7();
    FoldLast(ModbusByte, 0xFFFF, 6, 0x32E4);
    ModbusDigit8();
    FoldLast(ModbusByte, 0xFFFF, 7, 0x9D73);
    ModbusDigit9();
    FoldLast(ModbusByte, 0xFFFF, 8, 0x37DD);
    assert DIGITS[..9] == DIGITS;
  }

  lemma Crc32Digit1()
    ensures Crc32Byte(0xFFFFFFFF, 0x31) == 0x7C231048
  {
    Eight(Crc32Bit, Crc32Mix(0xFFFFFFFF, 0x31));
  }

  lemma Crc32Digit2()
    ensures Crc32Byte(0x7C231048, 0x32) == 0xB0ACBB32
  {
    Eight(Crc32Bit, Crc32Mix(0x7C231048, 0x32));
  }

  lemma Crc32Digit3()
    ensures Crc32Byte(0xB0ACBB32, 0x33) == 0x77B79C2D
  {
    Eight(Crc32Bit, Crc32Mix(0xB0ACBB32, 0x33));
  }

  lemma Crc32Digit4()
    ensures Crc32Byte(0x77B79C2D, 0x34) == 0x641C1F5C
  {
    Eight(Crc32Bit, Crc32Mix(0x77B79C2D, 0x34));
  }

  lemma Crc32Digit5()
    ensures Crc32Byte(0x641C1F5C, 0x35) == 0x340AC5E3
  {
    Eight(Crc32Bit, Crc32Mix(0x641C1F5C, 0x35));
  }

  lemma Crc32Digit6()
    ensures Crc32Byte(0x340AC5E3, 0x36) == 0xF68D2C9E
  {
    Eight(Crc32Bit, Crc32Mix(0x340AC5E3, 0x36));
  }

  lemma Crc32Digit7()
    ensures Crc32Byte(0xF68D2C9E, 0x37) == 0xAFFC9660
  {
    Eight(Crc32Bit, Crc32Mix(0xF68D2C9E, 0x37));
  }

  lemma Crc32Digit8()
    ensures Crc32Byte(0xAFFC9660, 0x38) == 0x651F2550
  {
    Eight(Crc32Bit, Crc32Mix(0xAFFC9660, 0x38));
  }

  lemma Crc32Digit9()
    ensures Crc32Byte(0x651F2550, 0x39) == 0x340BC6D9
  {
    Eight(Crc32Bit, Crc32Mix(0x651F2550, 0x39));
  }

  lemma Crc32Check()
    ensures Crc32(DIGITS) == 0xCBF43926
  {
    hide Crc32Byte, Fold;
    FoldNothing(Crc32Byte, 0xFFFFFFFF);
    Crc32Digit1();
    FoldLast(Crc32Byte, 0xFFFFFFFF, 0, 0xFFFFFFFF);
    Crc32Digit2();
    FoldLast(Crc32Byte, 0xFFFFFFFF, 1, 0x7C231048);
    Crc32Digit3();
    FoldLast(Crc32Byte, 0xFFFFFFFF, 2, 0xB0ACBB32);
    Crc32Digit4();
    FoldLast(Crc32Byte, 0xFFFFFFFF, 3, 0x77B79C2D);
    Crc32Digit5();
    FoldLast(Crc32Byte, 0xFFFFFFFF, 4, 0x641C1F5C);
    Crc32Digit6();
    FoldLast(Crc32Byte, 0xFFFFFFFF, 5, 0x340AC5E3);
    Crc32Digit7();
    FoldLast(Crc32Byte, 0xFFFFFFFF, 6, 0xF68D2C9E);
    Crc32Digit8();
    FoldLast(Crc32Byte, 0xFFFFFFFF, 7, 0xAFFC9660);
    Crc32Digit9();
    FoldLast(Crc32Byte, 0xFFFFFFFF, 8, 0x651F2550);
    assert DIGITS[..9] == DIGITS;
    Crc32Ends(DIGITS, 0x340BC6D9);
    assert !(0x340BC6D9 as bv32) == 0xCBF43926;
  }

  lemma FoldNothing<C>(step: (C, Byte) -> C, c: C)
    ensures Fold(step, c, DIGITS[..0]) == c
  {
  }
}
