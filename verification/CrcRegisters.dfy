/** The registers of the three checksums: what they hold, and that they take a byte in bit by bit. */
module CrcRegisters {
  import opened Checksums
  import opened CrcBits

  // ---- the bits of a byte, in the order in which a register takes them ----

  function HighFirst(d: Byte): seq<bool> {
    [d & 0x80 != 0, d & 0x40 != 0, d & 0x20 != 0, d & 0x10 != 0, d & 0x08 != 0, d & 0x04 != 0, d & 0x02 != 0, d & 0x01 != 0]
  }

  function LowFirst(d: Byte): seq<bool> {
    [d & 0x01 != 0, d & 0x02 != 0, d & 0x04 != 0, d & 0x08 != 0, d & 0x10 != 0, d & 0x20 != 0, d & 0x40 != 0, d & 0x80 != 0]
  }

  lemma SameBits(d: Byte, e: Byte)
    requires (d & 0x80 != 0) == (e & 0x80 != 0) && (d & 0x40 != 0) == (e & 0x40 != 0)
    requires (d & 0x20 != 0) == (e & 0x20 != 0) && (d & 0x10 != 0) == (e & 0x10 != 0)
    requires (d & 0x08 != 0) == (e & 0x08 != 0) && (d & 0x04 != 0) == (e & 0x04 != 0)
    requires (d & 0x02 != 0) == (e & 0x02 != 0) && (d & 0x01 != 0) == (e & 0x01 != 0)
    ensures d == e
  {
  }

  lemma HighFirstSplits(d: Byte, e: Byte)
    requires HighFirst(d) == HighFirst(e)
    ensures d == e
  {
    var x, y := HighFirst(d), HighFirst(e);
    assert x[0] == y[0] && x[1] == y[1] && x[2] == y[2] && x[3] == y[3];
    assert x[4] == y[4] && x[5] == y[5] && x[6] == y[6] && x[7] == y[7];
    SameBits(d, e);
  }

  lemma LowFirstSplits(d: Byte, e: Byte)
    requires LowFirst(d) == LowFirst(e)
    ensures d == e
  {
    var x, y := LowFirst(d), LowFirst(e);
    assert x[0] == y[0] && x[1] == y[1] && x[2] == y[2] && x[3] == y[3];
    assert x[4] == y[4] && x[5] == y[5] && x[6] == y[6] && x[7] == y[7];
    SameBits(d, e);
  }

  // ---- the registers ----

  function CcittOne(b: bool): bv16 { if b then 0x8000 else 0 }

  function One16(b: bool): bv16 { if b then 1 else 0 }

  function One32(b: bool): bv32 { if b then 1 else 0 }

  function Up16(x: bv16): bv16 { x << 1 }

  function Up32(x: bv32): bv32 { x << 1 }

  function Down16(x: bv16): bv16 { x >> 1 }

  function Down32(x: bv32): bv32 { x >> 1 }

  predicate High16(x: bv16) { x & 0x8000 != 0 }

  predicate High32(x: bv32) { x & 0x8000_0000 != 0 }

  predicate Odd16(x: bv16) { x & 1 != 0 }

  predicate Odd32(x: bv32) { x & 1 != 0 }

  const CCITT := Register(Xor16, CcittBit, CcittOne, High16, Down16, Up16, Odd16)
  const MODBUS := Register(Xor16, ModbusBit, One16, Odd16, Up16, Down16, High16)
  const CRC32 := Register(Xor32, Crc32Bit, One32, Odd32, Up32, Down32, High32)

  /** A byte is first mixed into the register. */
  function CcittMix(c: bv16, d: Byte): bv16 {
    Xor16(c, d as bv16 << 8)
  }

  function ModbusMix(c: bv16, d: Byte): bv16 {
    Xor16(c, d as bv16)
  }

  function Crc32Mix(c: bv32, d: Byte): bv32 {
    Xor32(c, d as bv32)
  }

  function CcittByte(c: bv16, d: Byte): bv16 {
    Repeat(CcittBit, 8, CcittMix(c, d))
  }

  function ModbusByte(c: bv16, d: Byte): bv16 {
    Repeat(ModbusBit, 8, ModbusMix(c, d))
  }

  function Crc32Byte(c: bv32, d: Byte): bv32 {
    Repeat(Crc32Bit, 8, Crc32Mix(c, d))
  }

  // ---- they hold 16 and 32 bits ----

  lemma Cancel16(a: bv16, b: bv16, x: bv16)
    requires Xor16(a, x) == Xor16(b, x)
    ensures a == b
  {
    assert (a ^ x) ^ x == a && (b ^ x) ^ x == b;
  }

  lemma Cancel32(a: bv32, b: bv32, x: bv32)
    requires Xor32(a, x) == Xor32(b, x)
    ensures a == b
  {
    assert (a ^ x) ^ x == a && (b ^ x) ^ x == b;
  }

  lemma CcittReturns(x: bv16)
    requires !Odd16(x)
    ensures Up16(Down16(x)) == x && CcittBit(Down16(x)) == x
  {
  }

  lemma ModbusReturns(x: bv16)
    requires !High16(x)
    ensures Down16(Up16(x)) == x && ModbusBit(Up16(x)) == x
  {
  }

  lemma Crc32Returns(x: bv32)
    requires !High32(x)
    ensures Down32(Up32(x)) == x && Crc32Bit(Up32(x)) == x
  {
  }

  lemma ShiftXor16(a: bv16, b: bv16)
    ensures (a ^ b) << 1 == (a << 1) ^ (b << 1) && (a ^ b) >> 1 == (a >> 1) ^ (b >> 1)
  {
  }

  lemma ShiftXor32(a: bv32, b: bv32)
    ensures (a ^ b) << 1 == (a << 1) ^ (b << 1) && (a ^ b) >> 1 == (a >> 1) ^ (b >> 1)
  {
  }

  lemma CcittAddsLast(c: bv16, b: bool)
    ensures High16(Xor16(c, CcittOne(b))) == (High16(c) != b) && Up16(Xor16(c, CcittOne(b))) == Up16(c)
  {
  }

  lemma ModbusAddsLast(c: bv16, b: bool)
    ensures Odd16(Xor16(c, One16(b))) == (Odd16(c) != b) && Down16(Xor16(c, One16(b))) == Down16(c)
  {
  }

  lemma Crc32AddsLast(c: bv32, b: bool)
    ensures Odd32(Xor32(c, One32(b))) == (Odd32(c) != b) && Down32(Xor32(c, One32(b))) == Down32(c)
  {
  }

  predicate SpaceDown16(x: bv16, k: nat)
    decreases k
  {
    k > 0 ==> x & 1 == 0 && SpaceDown16(x >> 1, k - 1)
  }

  predicate SpaceUp16(x: bv16, k: nat)
    decreases k
  {
    k > 0 ==> x & 0x8000 == 0 && SpaceUp16(x << 1, k - 1)
  }

  predicate SpaceUp32(x: bv32, k: nat)
    decreases k
  {
    k > 0 ==> x & 0x8000_0000 == 0 && SpaceUp32(x << 1, k - 1)
  }

  lemma {:induction false} CcittRoom(x: bv16, k: nat)
    requires SpaceDown16(x, k)
    ensures Room(CCITT, x, k)
    decreases k
  {
    if k > 0 {
      CcittRoom(x >> 1, k - 1);
    }
  }

  lemma {:induction false} ModbusRoom(x: bv16, k: nat)
    requires SpaceUp16(x, k)
    ensures Room(MODBUS, x, k)
    decreases k
  {
    if k > 0 {
      ModbusRoom(x << 1, k - 1);
    }
  }

  lemma {:induction false} Crc32Room(x: bv32, k: nat)
    requires SpaceUp32(x, k)
    ensures Room(CRC32, x, k)
    decreases k
  {
    if k > 0 {
      Crc32Room(x << 1, k - 1);
    }
  }

  lemma OneBitRoomDown16()
    ensures SpaceDown16(0x8000, 15) && SpaceDown16(0, 15)
  {
    assert SpaceDown16(0x8000, 15) && SpaceDown16(0, 15);
  }

  lemma OneBitRoomUp16()
    ensures SpaceUp16(1, 15) && SpaceUp16(0, 15)
  {
    assert SpaceUp16(1, 15) && SpaceUp16(0, 15);
  }

  lemma OneBitRoomUp32()
    ensures SpaceUp32(1, 31) && SpaceUp32(0, 31)
  {
    assert SpaceUp32(0x100_0000, 7) && SpaceUp32(0, 7);
    assert SpaceUp32(0x1_0000, 15) && SpaceUp32(0, 15);
    assert SpaceUp32(0x100, 23) && SpaceUp32(0, 23);
    assert SpaceUp32(1, 31) && SpaceUp32(0, 31);
  }

  lemma CcittOneRoom(b: bool)
    ensures Room(CCITT, CcittOne(b), 15)
  {
    hide Room, SpaceDown16, SpaceUp16, SpaceUp32;
    OneBitRoomDown16();
    CcittRoom(CcittOne(b), 15);
  }

  lemma ModbusOneRoom(b: bool)
    ensures Room(MODBUS, One16(b), 15)
  {
    hide Room, SpaceDown16, SpaceUp16, SpaceUp32;
    OneBitRoomUp16();
    ModbusRoom(One16(b), 15);
  }

  lemma Crc32OneRoom(b: bool)
    ensures Room(CRC32, One32(b), 31)
  {
    hide Room, SpaceDown16, SpaceUp16, SpaceUp32;
    OneBitRoomUp32();
    Crc32Room(One32(b), 31);
  }

  lemma ShiftsXor16(a: bv16, b: bv16)
    ensures Up16(Xor16(a, b)) == Xor16(Up16(a), Up16(b)) && Down16(Xor16(a, b)) == Xor16(Down16(a), Down16(b))
  {
    ShiftXor16(a, b);
  }

  lemma ShiftsXor32(a: bv32, b: bv32)
    ensures Down32(Xor32(a, b)) == Xor32(Down32(a), Down32(b))
  {
    ShiftXor32(a, b);
  }

  lemma CcittLinear()
    ensures Linear(CCITT)
  {
    hide CcittBit, Xor16;
    forall a, b
      ensures CcittBit(Xor16(a, b)) == Xor16(CcittBit(a), CcittBit(b))
    {
      CcittBitLinear(a, b);
    }
  }

  lemma CcittInjective()
    ensures Injective(CcittBit)
  {
    hide CcittBit, CcittUnbit;
    forall c
      ensures CcittUnbit(CcittBit(c)) == c
    {
      if c & 0x8000 != 0 { CcittUnbitSet(c); } else { CcittUnbitClear(c); }
    }
  }

  lemma CcittShifts()
    ensures Returns(CCITT) && ShiftsApart(CCITT)
  {
    hide CcittBit, Xor16, Up16, Down16, Odd16;
    forall x | !Odd16(x)
      ensures Up16(Down16(x)) == x && CcittBit(Down16(x)) == x
    {
      CcittReturns(x);
    }
    forall a, b
      ensures Up16(Xor16(a, b)) == Xor16(Up16(a), Up16(b))
    {
      ShiftsXor16(a, b);
    }
  }

  lemma CcittAdds()
    ensures Cancels(CCITT) && AddsLast(CCITT)
  {
    hide Xor16, Up16, High16, CcittOne;
    forall a, b, x | Xor16(a, x) == Xor16(b, x)
      ensures a == b
    {
      Cancel16(a, b, x);
    }
    forall c, b
      ensures High16(Xor16(c, CcittOne(b))) == (High16(c) != b) && Up16(Xor16(c, CcittOne(b))) == Up16(c)
    {
      CcittAddsLast(c, b);
    }
  }

  lemma CcittHolds()
    ensures Holds(CCITT, 15)
  {
    hide Linear, Injective, Cancels, Returns, ShiftsApart, AddsLast, Room, CcittOne;
    CcittLinear();
    CcittInjective();
    CcittShifts();
    CcittAdds();
    forall b
      ensures Room(CCITT, CcittOne(b), 15)
    {
      CcittOneRoom(b);
    }
  }

  lemma ModbusLinear()
    ensures Linear(MODBUS)
  {
    hide ModbusBit, Xor16;
    forall a, b
      ensures ModbusBit(Xor16(a, b)) == Xor16(ModbusBit(a), ModbusBit(b))
    {
      ModbusBitLinear(a, b);
    }
  }

  lemma ModbusInjective()
    ensures Injective(ModbusBit)
  {
    hide ModbusBit, ModbusUnbit;
    forall c
      ensures ModbusUnbit(ModbusBit(c)) == c
    {
      if c & 1 != 0 { ModbusUnbitSet(c); } else { ModbusUnbitClear(c); }
    }
  }

  lemma ModbusShifts()
    ensures Returns(MODBUS) && ShiftsApart(MODBUS)
  {
    hide ModbusBit, Xor16, Up16, Down16, High16;
    forall x | !High16(x)
      ensures Down16(Up16(x)) == x && ModbusBit(Up16(x)) == x
    {
      ModbusReturns(x);
    }
    forall a, b
      ensures Down16(Xor16(a, b)) == Xor16(Down16(a), Down16(b))
    {
      ShiftsXor16(a, b);
    }
  }

  lemma ModbusAdds()
    ensures Cancels(MODBUS) && AddsLast(MODBUS)
  {
    hide Xor16, Down16, Odd16, One16;
    forall a, b, x | Xor16(a, x) == Xor16(b, x)
      ensures a == b
    {
      Cancel16(a, b, x);
    }
    forall c, b
      ensures Odd16(Xor16(c, One16(b))) == (Odd16(c) != b) && Down16(Xor16(c, One16(b))) == Down16(c)
    {
      ModbusAddsLast(c, b);
    }
  }

  lemma ModbusHolds()
    ensures Holds(MODBUS, 15)
  {
    hide Linear, Injective, Cancels, Returns, ShiftsApart, AddsLast, Room, One16;
    ModbusLinear();
    ModbusInjective();
    ModbusShifts();
    ModbusAdds();
    forall b
      ensures Room(MODBUS, One16(b), 15)
    {
      ModbusOneRoom(b);
    }
  }

  lemma Crc32Linear()
    ensures Linear(CRC32)
  {
    hide Crc32Bit, Xor32;
    forall a, b
      ensures Crc32Bit(Xor32(a, b)) == Xor32(Crc32Bit(a), Crc32Bit(b))
    {
      Crc32BitLinear(a, b);
    }
  }

  lemma Crc32Injective()
    ensures Injective(Crc32Bit)
  {
    hide Crc32Bit, Crc32Unbit;
    forall c
      ensures Crc32Unbit(Crc32Bit(c)) == c
    {
      if c & 1 != 0 { Crc32UnbitSet(c); } else { Crc32UnbitClear(c); }
    }
  }

  lemma Crc32Shifts()
    ensures Returns(CRC32) && ShiftsApart(CRC32)
  {
    hide Crc32Bit, Xor32, Up32, Down32, High32;
    forall x | !High32(x)
      ensures Down32(Up32(x)) == x && Crc32Bit(Up32(x)) == x
    {
      Crc32Returns(x);
    }
    forall a, b
      ensures Down32(Xor32(a, b)) == Xor32(Down32(a), Down32(b))
    {
      ShiftsXor32(a, b);
    }
  }

  lemma Crc32Adds()
    ensures Cancels(CRC32) && AddsLast(CRC32)
  {
    hide Xor32, Down32, Odd32, One32;
    forall a, b, x | Xor32(a, x) == Xor32(b, x)
      ensures a == b
    {
      Cancel32(a, b, x);
    }
    forall c, b
      ensures Odd32(Xor32(c, One32(b))) == (Odd32(c) != b) && Down32(Xor32(c, One32(b))) == Down32(c)
    {
      Crc32AddsLast(c, b);
    }
  }

  lemma Crc32Holds()
    ensures Holds(CRC32, 31)
  {
    hide Linear, Injective, Cancels, Returns, ShiftsApart, AddsLast, Room, One32;
    Crc32Linear();
    Crc32Injective();
    Crc32Shifts();
    Crc32Adds();
    forall b
      ensures Room(CRC32, One32(b), 31)
    {
      Crc32OneRoom(b);
    }
  }

  // ---- bit by bit ----

  function HighBit(b: bool, k: nat): bv16
    requires k < 8
  {
    if b then [0x8000, 0x4000, 0x2000, 0x1000, 0x0800, 0x0400, 0x0200, 0x0100][k] else 0
  }

  function LowBit(b: bool, k: nat): bv16
    requires k < 8
  {
    if b then [0x01, 0x02, 0x04, 0x08, 0x10, 0x20, 0x40, 0x80][k] else 0
  }

  function LowBit32(b: bool, k: nat): bv32
    requires k < 8
  {
    if b then [0x01, 0x02, 0x04, 0x08, 0x10, 0x20, 0x40, 0x80][k] else 0
  }

  lemma {:induction false} CcittPlaces(b: bool, k: nat)
    requires k < 8
    ensures Place(CCITT, b, k) == HighBit(b, k)
  {
    if k > 0 {
      CcittPlaces(b, k - 1);
      assert HighBit(b, k - 1) >> 1 == HighBit(b, k);
    }
  }

  lemma {:induction false} ModbusPlaces(b: bool, k: nat)
    requires k < 8
    ensures Place(MODBUS, b, k) == LowBit(b, k)
  {
    if k > 0 {
      ModbusPlaces(b, k - 1);
      assert LowBit(b, k - 1) << 1 == LowBit(b, k);
    }
  }

  lemma {:induction false} Crc32Places(b: bool, k: nat)
    requires k < 8
    ensures Place(CRC32, b, k) == LowBit32(b, k)
  {
    if k > 0 {
      Crc32Places(b, k - 1);
      assert LowBit32(b, k - 1) << 1 == LowBit32(b, k);
    }
  }

  function Gather16(p: bv16, q: bv16, r: bv16, s: bv16, t: bv16, u: bv16, v: bv16, w: bv16): bv16 {
    Xor16(Xor16(Xor16(Xor16(Xor16(Xor16(Xor16(p, q), r), s), t), u), v), w)
  }

  function AddEach16(c: bv16, p: bv16, q: bv16, r: bv16, s: bv16, t: bv16, u: bv16, v: bv16, w: bv16): bv16 {
    Xor16(Xor16(Xor16(Xor16(Xor16(Xor16(Xor16(Xor16(c, p), q), r), s), t), u), v), w)
  }

  lemma Associative16(a: bv16, b: bv16, c: bv16)
    ensures Xor16(Xor16(a, b), c) == Xor16(a, Xor16(b, c))
  {
  }

  lemma Gathered16(c: bv16, p: bv16, q: bv16, r: bv16, s: bv16, t: bv16, u: bv16, v: bv16, w: bv16)
    ensures AddEach16(c, p, q, r, s, t, u, v, w) == Xor16(c, Gather16(p, q, r, s, t, u, v, w))
  {
    hide Xor16;
    Associative16(c, p, q);
    Associative16(c, Xor16(p, q), r);
    Associative16(c, Xor16(Xor16(p, q), r), s);
    Associative16(c, Xor16(Xor16(Xor16(p, q), r), s), t);
    Associative16(c, Xor16(Xor16(Xor16(Xor16(p, q), r), s), t), u);
    Associative16(c, Xor16(Xor16(Xor16(Xor16(Xor16(p, q), r), s), t), u), v);
    Associative16(c, Xor16(Xor16(Xor16(Xor16(Xor16(Xor16(p, q), r), s), t), u), v), w);
  }

  function Gather32(p: bv32, q: bv32, r: bv32, s: bv32, t: bv32, u: bv32, v: bv32, w: bv32): bv32 {
    Xor32(Xor32(Xor32(Xor32(Xor32(Xor32(Xor32(p, q), r), s), t), u), v), w)
  }

  function AddEach32(c: bv32, p: bv32, q: bv32, r: bv32, s: bv32, t: bv32, u: bv32, v: bv32, w: bv32): bv32 {
    Xor32(Xor32(Xor32(Xor32(Xor32(Xor32(Xor32(Xor32(c, p), q), r), s), t), u), v), w)
  }

  lemma Associative32(a: bv32, b: bv32, c: bv32)
    ensures Xor32(Xor32(a, b), c) == Xor32(a, Xor32(b, c))
  {
  }

  lemma Gathered32(c: bv32, p: bv32, q: bv32, r: bv32, s: bv32, t: bv32, u: bv32, v: bv32, w: bv32)
    ensures AddEach32(c, p, q, r, s, t, u, v, w) == Xor32(c, Gather32(p, q, r, s, t, u, v, w))
  {
    hide Xor32;
    Associative32(c, p, q);
    Associative32(c, Xor32(p, q), r);
    Associative32(c, Xor32(Xor32(p, q), r), s);
    Associative32(c, Xor32(Xor32(Xor32(p, q), r), s), t);
    Associative32(c, Xor32(Xor32(Xor32(Xor32(p, q), r), s), t), u);
    Associative32(c, Xor32(Xor32(Xor32(Xor32(Xor32(p, q), r), s), t), u), v);
    Associative32(c, Xor32(Xor32(Xor32(Xor32(Xor32(Xor32(p, q), r), s), t), u), v), w);
  }

  lemma CcittGathers(d: Byte)
    ensures Gather16(HighBit(d & 0x80 != 0, 0), HighBit(d & 0x40 != 0, 1),
      HighBit(d & 0x20 != 0, 2), HighBit(d & 0x10 != 0, 3),
      HighBit(d & 0x08 != 0, 4), HighBit(d & 0x04 != 0, 5),
      HighBit(d & 0x02 != 0, 6), HighBit(d & 0x01 != 0, 7)) == d as bv16 << 8
  {
  }

  lemma CcittAddsByte(c: bv16, d: Byte)
    ensures AddAll(CCITT, c, HighFirst(d)) == CcittMix(c, d)
  {
    hide AddAll, Place, Xor16, Gather16, HighBit;
    var b := HighFirst(d);
    AddEight(CCITT, c, b);
    forall k | 0 <= k < 8
      ensures Place(CCITT, b[k], k) == HighBit(b[k], k)
    {
      CcittPlaces(b[k], k);
    }
    Gathered16(c, HighBit(b[0], 0), HighBit(b[1], 1), HighBit(b[2], 2), HighBit(b[3], 3),
      HighBit(b[4], 4), HighBit(b[5], 5), HighBit(b[6], 6), HighBit(b[7], 7));
    CcittGathers(d);
  }

  lemma ModbusGathers(d: Byte)
    ensures Gather16(LowBit(d & 0x01 != 0, 0), LowBit(d & 0x02 != 0, 1),
      LowBit(d & 0x04 != 0, 2), LowBit(d & 0x08 != 0, 3),
      LowBit(d & 0x10 != 0, 4), LowBit(d & 0x20 != 0, 5),
      LowBit(d & 0x40 != 0, 6), LowBit(d & 0x80 != 0, 7)) == d as bv16
  {
  }

  lemma ModbusAddsByte(c: bv16, d: Byte)
    ensures AddAll(MODBUS, c, LowFirst(d)) == ModbusMix(c, d)
  {
    hide AddAll, Place, Xor16, Gather16, LowBit;
    var b := LowFirst(d);
    AddEight(MODBUS, c, b);
    forall k | 0 <= k < 8
      ensures Place(MODBUS, b[k], k) == LowBit(b[k], k)
    {
      ModbusPlaces(b[k], k);
    }
    Gathered16(c, LowBit(b[0], 0), LowBit(b[1], 1), LowBit(b[2], 2), LowBit(b[3], 3),
      LowBit(b[4], 4), LowBit(b[5], 5), LowBit(b[6], 6), LowBit(b[7], 7));
    ModbusGathers(d);
  }

  lemma Crc32Gathers(d: Byte)
    ensures Gather32(LowBit32(d & 0x01 != 0, 0), LowBit32(d & 0x02 != 0, 1),
      LowBit32(d & 0x04 != 0, 2), LowBit32(d & 0x08 != 0, 3),
      LowBit32(d & 0x10 != 0, 4), LowBit32(d & 0x20 != 0, 5),
      LowBit32(d & 0x40 != 0, 6), LowBit32(d & 0x80 != 0, 7)) == d as bv32
  {
  }

  lemma Crc32AddsByte(c: bv32, d: Byte)
    ensures AddAll(CRC32, c, LowFirst(d)) == Crc32Mix(c, d)
  {
    hide AddAll, Place, Xor32, Gather32, LowBit32;
    var b := LowFirst(d);
    AddEight(CRC32, c, b);
    forall k | 0 <= k < 8
      ensures Place(CRC32, b[k], k) == LowBit32(b[k], k)
    {
      Crc32Places(b[k], k);
    }
    Gathered32(c, LowBit32(b[0], 0), LowBit32(b[1], 1), LowBit32(b[2], 2), LowBit32(b[3], 3),
      LowBit32(b[4], 4), LowBit32(b[5], 5), LowBit32(b[6], 6), LowBit32(b[7], 7));
    Crc32Gathers(d);
  }

  lemma CcittBitByBit()
    ensures BitByBit(CcittByte, Step(CCITT), HighFirst)
  {
    hide AddAll, Fold, CcittMix, CcittBit;
    CcittHolds();
    forall c, d
      ensures CcittByte(c, d) == Fold(Step(CCITT), c, HighFirst(d))
    {
      AddedAtOnce(CCITT, 15, c, HighFirst(d));
      CcittAddsByte(c, d);
    }
  }

  lemma ModbusBitByBit()
    ensures BitByBit(ModbusByte, Step(MODBUS), LowFirst)
  {
    hide AddAll, Fold, ModbusMix, ModbusBit;
    ModbusHolds();
    forall c, d
      ensures ModbusByte(c, d) == Fold(Step(MODBUS), c, LowFirst(d))
    {
      AddedAtOnce(MODBUS, 15, c, LowFirst(d));
      ModbusAddsByte(c, d);
    }
  }

  lemma Crc32BitByBit()
    ensures BitByBit(Crc32Byte, Step(CRC32), LowFirst)
  {
    hide AddAll, Fold, Crc32Mix, Crc32Bit;
    Crc32Holds();
    forall c, d
      ensures Crc32Byte(c, d) == Fold(Step(CRC32), c, LowFirst(d))
    {
      AddedAtOnce(CRC32, 31, c, LowFirst(d));
      Crc32AddsByte(c, d);
    }
  }

  lemma BytesSplit()
    ensures Splits(HighFirst) && Splits(LowFirst)
  {
    hide HighFirst, LowFirst;
    forall d, e | HighFirst(d) == HighFirst(e)
      ensures d == e
    {
      HighFirstSplits(d, e);
    }
    forall d, e | LowFirst(d) == LowFirst(e)
      ensures d == e
    {
      LowFirstSplits(d, e);
    }
    forall d
      ensures |HighFirst(d)| == 8 && |LowFirst(d)| == 8
    {
      EightEach(d);
    }
  }

  lemma EightEach(d: Byte)
    ensures |HighFirst(d)| == 8 && |LowFirst(d)| == 8
  {
  }
}
