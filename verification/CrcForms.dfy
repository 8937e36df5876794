/** The kernel's checksums, bit by bit. */
module KernelCrc {
  import opened Checksums
  import opened CrcBits
  import opened CrcRegisters
  import opened Crc

  method CcittBits(c: bv16) returns (crc: bv16)
    ensures crc == Repeat(CcittBit, 8, c)
  {
    hide CcittBit;
    crc := c;
    for bit := 0 to 8
      invariant crc == Repeat(CcittBit, bit, c)
    {
      ghost var before := crc;
      if crc & 0x8000 != 0 {
        crc := (crc << 1) ^ 0x1021;
      } else {
        crc := crc << 1;
      }
      CcittStep(before, crc);
    }
  }

  method ModbusBits(c: bv16) returns (crc: bv16)
    ensures crc == Repeat(ModbusBit, 8, c)
  {
    hide ModbusBit;
    crc := c;
    for bit := 0 to 8
      invariant crc == Repeat(ModbusBit, bit, c)
    {
      ghost var before := crc;
      if crc & 0x0001 != 0 {
        crc := (crc >> 1) ^ 0xA001;
      } else {
        crc := crc >> 1;
      }
      ModbusStep(before, crc);
    }
  }

  method Crc32Bits(c: bv32) returns (crc: bv32)
    ensures crc == Repeat(Crc32Bit, 8, c)
  {
    hide Crc32Bit;
    crc := c;
    for bit := 0 to 8
      invariant crc == Repeat(Crc32Bit, bit, c)
    {
      ghost var before := crc;
      if crc & 1 != 0 {
        crc := (crc >> 1) ^ 0xEDB8_8320;
      } else {
        crc := crc >> 1;
      }
      Crc32Step(before, crc);
    }
  }

  method CcittUpdate(c: bv16, data: array?<Byte>, len: nat) returns (crc: bv16)
    requires data != null ==> len <= data.Length
    ensures crc == if data == null then c else Ccitt(c, data[..len])
  {
    crc := c;
    if data == null {
      return;
    }
    hide CcittMix;
    for i := 0 to len
      invariant crc == Ccitt(c, data[..i])
    {
      assert data[..i + 1][..i] == data[..i];
      crc := CcittBits(CcittMix(crc, data[i]));
    }
  }

  method Ccitt16(data: array?<Byte>, len: nat) returns (crc: bv16)
    requires data != null ==> len <= data.Length
    ensures crc == if data == null then 0xFFFF else Ccitt(0xFFFF, data[..len])
  {
    if data == null {
      return 0xFFFF;
    }
    crc := CcittUpdate(0xFFFF, data, len);
  }

  /** The same loop is used in user space. */
  method Modbus16(data: array?<Byte>, len: nat) returns (crc: bv16)
    requires data != null ==> len <= data.Length
    ensures crc == if data == null then 0xFFFF else Modbus(data[..len])
  {
    crc := 0xFFFF;
    if data == null {
      return;
    }
    hide ModbusMix;
    for i := 0 to len
      invariant crc == Modbus(data[..i])
    {
      assert data[..i + 1][..i] == data[..i];
      crc := ModbusBits(ModbusMix(crc, data[i]));
    }
  }

  method Sum32(data: array?<Byte>, len: nat) returns (crc: bv32)
    requires data != null ==> len <= data.Length
    ensures crc == if data == null then 0xFFFF_FFFF else Crc32(data[..len])
  {
    crc := 0xFFFF_FFFF;
    if data == null {
      return;
    }
    hide Crc32, Crc32Mix;
    for i := 0 to len
      invariant crc == Fold(Crc32Byte, 0xFFFF_FFFF, data[..i])
    {
      assert data[..i + 1][..i] == data[..i];
      crc := Crc32Bits(Crc32Mix(crc, data[i]));
    }
    Crc32Ends(data[..len], crc);
    return !crc;
  }
}

/** The user-space checksums that look a byte up in a table. */
module UserCrc {
  import opened Checksums
  import opened CrcBits
  import opened CrcTables
  import opened CrcRegisters
  import opened Crc

  method CcittUpdate(c: bv16, data: array?<Byte>, len: nat) returns (crc: bv16)
    requires data != null ==> len <= data.Length
    ensures crc == if data == null then c else Ccitt(c, data[..len])
  {
    crc := c;
    if data == null {
      return;
    }
    hide CcittByte, CcittIndex, CcittAt, Ccitt8, Xor16;
    for i := 0 to len
      invariant crc == Ccitt(c, data[..i])
    {
      assert data[..i + 1][..i] == data[..i];
      CcittTableStep(crc, data[i]);
      crc := Xor16(crc << 8, CcittAt(CcittIndex(crc, data[i])));
    }
  }

  method Ccitt16(data: array?<Byte>, len: nat) returns (crc: bv16)
    requires data != null ==> len <= data.Length
    ensures crc == if data == null then 0xFFFF else Ccitt(0xFFFF, data[..len])
  {
    crc := 0xFFFF;
    if data == null {
      return;
    }
    hide CcittByte, CcittIndex, CcittAt, Ccitt8, Xor16;
    for i := 0 to len
      invariant crc == Ccitt(0xFFFF, data[..i])
    {
      assert data[..i + 1][..i] == data[..i];
      CcittTableStep(crc, data[i]);
      crc := Xor16(crc << 8, CcittAt(CcittIndex(crc, data[i])));
    }
  }

  method Sum32(data: array?<Byte>, len: nat) returns (crc: bv32)
    requires data != null ==> len <= data.Length
    ensures crc == if data == null then 0 else Crc32(data[..len])
  {
    crc := 0xFFFF_FFFF;
    if data == null {
      return 0;
    }
    hide Crc32, Crc32Byte, Crc32Index, Crc32At, Crc32x8, Xor32;
    for i := 0 to len
      invariant crc == Fold(Crc32Byte, 0xFFFF_FFFF, data[..i])
    {
      assert data[..i + 1][..i] == data[..i];
      Crc32TableStep(crc, data[i]);
      crc := Xor32(crc >> 8, Crc32At(Crc32Index(crc, data[i])));
    }
    Crc32Ends(data[..len], crc);
    return crc ^ 0xFFFF_FFFF;
  }
}

/** The checksum of the shared-memory cache: the branch is replaced by a mask. */
module ShmCache {
  import opened Checksums
  import opened CrcBits
  import opened CrcRegisters
  import opened Crc

  method MaskedBits(c: bv32) returns (crc: bv32)
    ensures crc == Repeat(Crc32Bit, 8, c)
  {
    hide Crc32Bit;
    crc := c;
    for j := 0 to 8
      invariant crc == Repeat(Crc32Bit, j, c)
    {
      MaskedStep(crc);
      crc := (crc >> 1) ^ (0xEDB8_8320 & (0 - (crc & 1)));
    }
  }

  method Sum32(data: array<Byte>, len: nat) returns (crc: bv32)
    requires len <= data.Length
    ensures crc == Crc32(data[..len])
  {
    crc := 0xFFFF_FFFF;
    hide Crc32, Crc32Mix;
    for i := 0 to len
      invariant crc == Fold(Crc32Byte, 0xFFFF_FFFF, data[..i])
    {
      assert data[..i + 1][..i] == data[..i];
      crc := MaskedBits(Crc32Mix(crc, data[i]));
    }
    Crc32Ends(data[..len], crc);
    return !crc;
  }
}
