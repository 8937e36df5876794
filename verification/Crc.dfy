/** The three checksums: tables against bit steps, and what they detect. */
module Crc {
  import opened Checksums
  import opened CrcBits
  import opened CrcTables
  import opened CrcRegisters

  // ---- a table step is eight bit steps ----

  function CcittIndex(c: bv16, d: Byte): (i: bv16)
    ensures i < 256
  {
    (c >> 8) ^ d as bv16
  }

  function Crc32Index(c: bv32, d: Byte): (i: bv32)
    ensures i < 256
  {
    (c ^ d as bv32) & 0xFF
  }

  lemma IndexUp(c: bv16, d: Byte)
    ensures CcittIndex(c, d) << 8 == Xor16(c & 0xFF00, d as bv16 << 8)
  {
  }

  lemma BothHalves(c: bv16)
    ensures c == Xor16(c & 0xFF00, c & 0xFF)
  {
  }

  lemma Exchange(a: bv16, b: bv16, x: bv16)
    ensures Xor16(Xor16(a, b), x) == Xor16(Xor16(a, x), b)
  {
  }

  lemma CcittSplit(c: bv16, d: Byte)
    ensures CcittMix(c, d) == Xor16(CcittIndex(c, d) << 8, c & 0xFF)
  {
    hide CcittIndex, Xor16;
    IndexUp(c, d);
    BothHalves(c);
    Exchange(c & 0xFF00, c & 0xFF, d as bv16 << 8);
  }

  lemma LowHalf(c: bv16)
    ensures (c & 0xFF) & 0xFF00 == 0 && (c & 0xFF) << 8 == c << 8
  {
  }

  lemma CcittHalves(h: bv16, l: bv16)
    requires l & 0xFF00 == 0
    ensures Repeat(CcittBit, 8, Xor16(h, l)) == Xor16(l << 8, Ccitt8(h))
  {
    hide CcittBit, Xor16;
    CcittLinear();
    RepeatLinear(CCITT, 8, h, l);
    Eight(CcittBit, h);
    Eight(CcittBit, l);
    Ccitt8Low(l);
    Swap16(Ccitt8(h), l << 8);
  }

  lemma CcittTableStep(c: bv16, d: Byte)
    ensures CcittByte(c, d) == Xor16(c << 8, CcittAt(CcittIndex(c, d)))
  {
    hide CcittBit, Ccitt8, CcittIndex, CcittAt, Xor16;
    var i := CcittIndex(c, d);
    CcittSplit(c, d);
    LowHalf(c);
    CcittHalves(i << 8, c & 0xFF);
  }

  lemma Crc32Split(c: bv32, d: Byte)
    ensures Crc32Mix(c, d) == Xor32(Crc32Index(c, d), c & 0xFFFF_FF00)
    ensures (c & 0xFFFF_FF00) & 0xFF == 0 && (c & 0xFFFF_FF00) >> 8 == c >> 8
  {
  }

  lemma Crc32Parts(l: bv32, h: bv32)
    requires h & 0xFF == 0
    ensures Repeat(Crc32Bit, 8, Xor32(l, h)) == Xor32(h >> 8, Crc32x8(l))
  {
    hide Crc32Bit, Xor32;
    Crc32Linear();
    RepeatLinear(CRC32, 8, l, h);
    Eight(Crc32Bit, l);
    Eight(Crc32Bit, h);
    Crc32x8High(h);
    Swap32(Crc32x8(l), h >> 8);
  }

  lemma Crc32TableStep(c: bv32, d: Byte)
    ensures Crc32Byte(c, d) == Xor32(c >> 8, Crc32At(Crc32Index(c, d)))
  {
    hide Crc32Bit, Crc32x8, Crc32Index, Crc32At, Xor32;
    var i := Crc32Index(c, d);
    Crc32Split(c, d);
    Crc32Parts(i, c & 0xFFFF_FF00);
  }

  /** What the loops do in one bit step, with a branch or with a mask of all ones or all zeros. */
  lemma CcittStep(c: bv16, next: bv16)
    requires next == if c & 0x8000 != 0 then (c << 1) ^ 0x1021 else c << 1
    ensures next == CcittBit(c)
  {
  }

  lemma ModbusStep(c: bv16, next: bv16)
    requires next == if c & 1 != 0 then (c >> 1) ^ 0xA001 else c >> 1
    ensures next == ModbusBit(c)
  {
  }

  lemma Crc32Step(c: bv32, next: bv32)
    requires next == if c & 1 != 0 then (c >> 1) ^ 0xEDB8_8320 else c >> 1
    ensures next == Crc32Bit(c)
  {
  }

  lemma MaskedStep(c: bv32)
    ensures (c >> 1) ^ (0xEDB8_8320 & (0 - (c & 1))) == Crc32Bit(c)
  {
    assert c & 1 == 0 || c & 1 == 1;
  }

  // ---- the checksums, and what is detected ----

  function Ccitt(c: bv16, data: seq<Byte>): bv16 {
    Fold(CcittByte, c, data)
  }

  function Modbus(data: seq<Byte>): bv16 {
    Fold(ModbusByte, 0xFFFF, data)
  }

  function Crc32(data: seq<Byte>): bv32 {
    !Fold(Crc32Byte, 0xFFFF_FFFF, data)
  }

  lemma Crc32Ends(data: seq<Byte>, c: bv32)
    requires c == Fold(Crc32Byte, 0xFFFF_FFFF, data)
    ensures !c == Crc32(data) && c ^ 0xFFFF_FFFF == Crc32(data)
  {
    assert c ^ 0xFFFF_FFFF == !c;
  }

  /** Continuing over a second part is the checksum of both together. */
  lemma CcittContinued(c: bv16, a: seq<Byte>, b: seq<Byte>)
    ensures Ccitt(Ccitt(c, a), b) == Ccitt(c, a + b)
  {
    FoldConcat(CcittByte, c, a, b);
  }

  // ---- what is detected ----

  /** Errors within 16 consecutive bits, highest first, change the CRC16, from any starting value. */
  lemma CcittDetects(c: bv16, m: seq<Byte>, m': seq<Byte>)
    requires DifferWithin(TextBits(HighFirst, m), TextBits(HighFirst, m'), 16)
    ensures Ccitt(c, m) != Ccitt(c, m')
  {
    CcittHolds();
    CcittBitByBit();
    BitBurstDetected(CCITT, 15, CcittByte, HighFirst, c, m, m');
  }

  /** The same for the other CRC16, lowest bit of each byte first. */
  lemma ModbusDetects(m: seq<Byte>, m': seq<Byte>)
    requires DifferWithin(TextBits(LowFirst, m), TextBits(LowFirst, m'), 16)
    ensures Modbus(m) != Modbus(m')
  {
    ModbusHolds();
    ModbusBitByBit();
    BitBurstDetected(MODBUS, 15, ModbusByte, LowFirst, 0xFFFF, m, m');
  }

  lemma Complement(a: bv32, b: bv32)
    requires !a == !b
    ensures a == b
  {
    assert !!a == a && !!b == b;
  }

  /** Errors within 32 consecutive bits change the CRC32. */
  lemma Crc32Detects(m: seq<Byte>, m': seq<Byte>)
    requires DifferWithin(TextBits(LowFirst, m), TextBits(LowFirst, m'), 32)
    ensures Crc32(m) != Crc32(m')
  {
    Crc32Holds();
    Crc32BitByBit();
    BitBurstDetected(CRC32, 31, Crc32Byte, LowFirst, 0xFFFF_FFFF, m, m');
    if Crc32(m) == Crc32(m') {
      Complement(Fold(Crc32Byte, 0xFFFF_FFFF, m), Fold(Crc32Byte, 0xFFFF_FFFF, m'));
    }
  }

  /** In particular, errors within two or four consecutive bytes. */
  lemma BytesDetected(c: bv16, m: seq<Byte>, m': seq<Byte>)
    ensures DifferWithin(m, m', 2) ==> Ccitt(c, m) != Ccitt(c, m') && Modbus(m) != Modbus(m')
    ensures DifferWithin(m, m', 4) ==> Crc32(m) != Crc32(m')
  {
    hide DifferWithin, TextBits, Ccitt, Modbus, Crc32, HighFirst, LowFirst;
    BytesSplit();
    if DifferWithin(m, m', 2) {
      BytesWithinBits(HighFirst, m, m', 2);
      BytesWithinBits(LowFirst, m, m', 2);
      CcittDetects(c, m, m');
      ModbusDetects(m, m');
    }
    if DifferWithin(m, m', 4) {
      BytesWithinBits(LowFirst, m, m', 4);
      Crc32Detects(m, m');
    }
  }
}
