/** One step of each checksum register: it is linear, and it can be undone. */
module CrcBits {

  /** One bit, for the polynomial 0x1021, highest bit first. */
  function CcittBit(c: bv16): bv16 {
    if c & 0x8000 != 0 then (c << 1) ^ 0x1021 else c << 1
  }

  /** One bit, for the reversed polynomial 0xA001, lowest bit first. */
  function ModbusBit(c: bv16): bv16 {
    if c & 0x0001 != 0 then (c >> 1) ^ 0xA001 else c >> 1
  }

  /** One bit, for the reversed polynomial 0xEDB88320, lowest bit first. */
  function Crc32Bit(c: bv32): bv32 {
    if c & 1 != 0 then (c >> 1) ^ 0xEDB8_8320 else c >> 1
  }

  function Xor16(a: bv16, b: bv16): bv16 { a ^ b }

  function Xor32(a: bv32, b: bv32): bv32 { a ^ b }

  // ---- linear: a step of a ^ b is the step of a ^ the step of b ----

  lemma Swap16(a: bv16, b: bv16)
    ensures Xor16(a, b) == Xor16(b, a)
  {
  }

  lemma Swap32(a: bv32, b: bv32)
    ensures Xor32(a, b) == Xor32(b, a)
  {
  }

  lemma CcittBothSet(a: bv16, b: bv16)
    requires a & 0x8000 != 0 && b & 0x8000 != 0
    ensures CcittBit(Xor16(a, b)) == Xor16(CcittBit(a), CcittBit(b))
  {
  }

  lemma CcittOneSet(a: bv16, b: bv16)
    requires a & 0x8000 != 0 && b & 0x8000 == 0
    ensures CcittBit(Xor16(a, b)) == Xor16(CcittBit(a), CcittBit(b))
  {
  }

  lemma CcittNoneSet(a: bv16, b: bv16)
    requires a & 0x8000 == 0 && b & 0x8000 == 0
    ensures CcittBit(Xor16(a, b)) == Xor16(CcittBit(a), CcittBit(b))
  {
  }

  lemma CcittBitLinear(a: bv16, b: bv16)
    ensures CcittBit(Xor16(a, b)) == Xor16(CcittBit(a), CcittBit(b))
  {
    hide CcittBit, Xor16;
    if a & 0x8000 != 0 && b & 0x8000 != 0 {
      CcittBothSet(a, b);
    } else if a & 0x8000 != 0 {
      CcittOneSet(a, b);
    } else if b & 0x8000 != 0 {
      CcittOneSet(b, a);
      Swap16(a, b);
      Swap16(CcittBit(a), CcittBit(b));
    } else {
      CcittNoneSet(a, b);
    }
  }

  lemma ModbusBothSet(a: bv16, b: bv16)
    requires a & 1 != 0 && b & 1 != 0
    ensures ModbusBit(Xor16(a, b)) == Xor16(ModbusBit(a), ModbusBit(b))
  {
  }

  lemma ModbusOneSet(a: bv16, b: bv16)
    requires a & 1 != 0 && b & 1 == 0
    ensures ModbusBit(Xor16(a, b)) == Xor16(ModbusBit(a), ModbusBit(b))
  {
  }

  lemma ModbusNoneSet(a: bv16, b: bv16)
    requires a & 1 == 0 && b & 1 == 0
    ensures ModbusBit(Xor16(a, b)) == Xor16(ModbusBit(a), ModbusBit(b))
  {
  }

  lemma ModbusBitLinear(a: bv16, b: bv16)
    ensures ModbusBit(Xor16(a, b)) == Xor16(ModbusBit(a), ModbusBit(b))
  {
    hide ModbusBit, Xor16;
    if a & 1 != 0 && b & 1 != 0 {
      ModbusBothSet(a, b);
    } else if a & 1 != 0 {
      ModbusOneSet(a, b);
    } else if b & 1 != 0 {
      ModbusOneSet(b, a);
      Swap16(a, b);
      Swap16(ModbusBit(a), ModbusBit(b));
    } else {
      ModbusNoneSet(a, b);
    }
  }

  lemma Crc32BothSet(a: bv32, b: bv32)
    requires a & 1 != 0 && b & 1 != 0
    ensures Crc32Bit(Xor32(a, b)) == Xor32(Crc32Bit(a), Crc32Bit(b))
  {
  }

  lemma Crc32OneSet(a: bv32, b: bv32)
    requires a & 1 != 0 && b & 1 == 0
    ensures Crc32Bit(Xor32(a, b)) == Xor32(Crc32Bit(a), Crc32Bit(b))
  {
  }

  lemma Crc32NoneSet(a: bv32, b: bv32)
    requires a & 1 == 0 && b & 1 == 0
    ensures Crc32Bit(Xor32(a, b)) == Xor32(Crc32Bit(a), Crc32Bit(b))
  {
  }

  lemma Crc32BitLinear(a: bv32, b: bv32)
    ensures Crc32Bit(Xor32(a, b)) == Xor32(Crc32Bit(a), Crc32Bit(b))
  {
    hide Crc32Bit, Xor32;
    if a & 1 != 0 && b & 1 != 0 {
      Crc32BothSet(a, b);
    } else if a & 1 != 0 {
      Crc32OneSet(a, b);
    } else if b & 1 != 0 {
      Crc32OneSet(b, a);
      Swap32(a, b);
      Swap32(Crc32Bit(a), Crc32Bit(b));
    } else {
      Crc32NoneSet(a, b);
    }
  }

  // ---- invertible ----

  /** The bit that was shifted out is the one in which the polynomial has left its mark. */
  function CcittUnbit(r: bv16): bv16 {
    if r & 1 != 0 then ((r ^ 0x1021) >> 1) | 0x8000 else r >> 1
  }

  function ModbusUnbit(r: bv16): bv16 {
    if r & 0x8000 != 0 then ((r ^ 0xA001) << 1) | 1 else r << 1
  }

  function Crc32Unbit(r: bv32): bv32 {
    if r & 0x8000_0000 != 0 then ((r ^ 0xEDB8_8320) << 1) | 1 else r << 1
  }

  lemma CcittUnbitSet(c: bv16)
    requires c & 0x8000 != 0
    ensures CcittUnbit(CcittBit(c)) == c
  {
  }

  lemma CcittUnbitClear(c: bv16)
    requires c & 0x8000 == 0
    ensures CcittUnbit(CcittBit(c)) == c
  {
  }

  lemma ModbusUnbitSet(c: bv16)
    requires c & 1 != 0
    ensures ModbusUnbit(ModbusBit(c)) == c
  {
  }

  lemma ModbusUnbitClear(c: bv16)
    requires c & 1 == 0
    ensures ModbusUnbit(ModbusBit(c)) == c
  {
  }

  lemma Crc32UnbitSet(c: bv32)
    requires c & 1 != 0
    ensures Crc32Unbit(Crc32Bit(c)) == c
  {
  }

  lemma Crc32UnbitClear(c: bv32)
    requires c & 1 == 0
    ensures Crc32Unbit(Crc32Bit(c)) == c
  {
  }

  // ---- eight steps, where no or only known bits are shifted out ----

  function Ccitt8(c: bv16): bv16 {
    CcittBit(CcittBit(CcittBit(CcittBit(CcittBit(CcittBit(CcittBit(CcittBit(c))))))))
  }

  function Crc32x8(c: bv32): bv32 {
    Crc32Bit(Crc32Bit(Crc32Bit(Crc32Bit(Crc32Bit(Crc32Bit(Crc32Bit(Crc32Bit(c))))))))
  }

  /** The eight steps of a byte in the low half only shift it up. */
  lemma Ccitt8Low(z: bv16)
    requires z & 0xFF00 == 0
    ensures Ccitt8(z) == z << 8
  {
    assert CcittBit(z) == z << 1;
    assert CcittBit(z << 1) == z << 2;
    assert CcittBit(z << 2) == z << 3;
    assert CcittBit(z << 3) == z << 4;
    assert CcittBit(z << 4) == z << 5;
    assert CcittBit(z << 5) == z << 6;
    assert CcittBit(z << 6) == z << 7;
    assert CcittBit(z << 7) == z << 8;
  }

  lemma Crc32x8High(z: bv32)
    requires z & 0xFF == 0
    ensures Crc32x8(z) == z >> 8
  {
    assert Crc32Bit(z) == z >> 1;
    assert Crc32Bit(z >> 1) == z >> 2;
    assert Crc32Bit(z >> 2) == z >> 3;
    assert Crc32Bit(z >> 3) == z >> 4;
    assert Crc32Bit(z >> 4) == z >> 5;
    assert Crc32Bit(z >> 5) == z >> 6;
    assert Crc32Bit(z >> 6) == z >> 7;
    assert Crc32Bit(z >> 7) == z >> 8;
  }
}
