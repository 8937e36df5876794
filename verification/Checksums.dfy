/** Checksums that take a text in piece by piece, and the errors they cannot miss. */
module Checksums {

  type Byte = bv8

  /** A checksum is computed piece by piece; the pieces are bytes or bits. */
  function Fold<C, D>(step: (C, D) -> C, c: C, data: seq<D>): C {
    if data == [] then c else step(Fold(step, c, data[..|data| - 1]), data[|data| - 1])
  }

  /** Checking one part after the other is checking the whole. */
  lemma {:induction false} FoldConcat<C, D>(step: (C, D) -> C, c: C, a: seq<D>, b: seq<D>)
    ensures Fold(step, c, a + b) == Fold(step, Fold(step, c, a), b)
  {
    if b == [] {
      assert a + b == a;
    } else {
      assert (a + b)[..|a + b| - 1] == a + b[..|b| - 1];
      FoldConcat(step, c, a, b[..|b| - 1]);
    }
  }

  ghost predicate Invertible<C(!new), D(!new)>(step: (C, D) -> C) {
    forall c, c', d :: step(c, d) == step(c', d) ==> c == c'
  }

  /** From one same state, different texts of n pieces lead to different states. */
  ghost predicate Separates<C(!new), D(!new)>(step: (C, D) -> C, n: nat) {
    forall c, w, w' :: |w| == n && |w'| == n && Fold(step, c, w) == Fold(step, c, w') ==> w == w'
  }

  lemma {:induction false} FoldInvertible<C(!new), D(!new)>(step: (C, D) -> C, c: C, c': C, data: seq<D>)
    requires Invertible(step) && Fold(step, c, data) == Fold(step, c', data)
    ensures c == c'
  {
    if data != [] {
      var before, d := data[..|data| - 1], data[|data| - 1];
      assert step(Fold(step, c, before), d) == step(Fold(step, c', before), d);
      FoldInvertible(step, c, c', before);
    }
  }

  lemma SeparatesShorter<C(!new), D(!new)>(step: (C, D) -> C, n: nat, c: C, w: seq<D>, w': seq<D>)
    requires Separates(step, n) && |w| == |w'| <= n
    requires Fold(step, c, w) == Fold(step, c, w')
    ensures w == w'
  {
    if w != [] {
      var rest := seq(n - |w|, _ => w[0]);
      FoldConcat(step, c, w, rest);
      FoldConcat(step, c, w', rest);
      assert (w + rest)[..|w|] == w && (w' + rest)[..|w|] == w';
    }
  }

  ghost predicate EqualOutside<D>(m: seq<D>, m': seq<D>, i: nat, n: nat)
    requires |m| == |m'|
  {
    i <= |m| && forall j :: 0 <= j < |m| && !(i <= j < i + n) ==> m[j] == m'[j]
  }

  /** Messages of one length that differ, but only within n consecutive pieces. */
  ghost predicate DifferWithin<D(!new)>(m: seq<D>, m': seq<D>, n: nat) {
    |m| == |m'| && m != m' && exists i: nat :: EqualOutside(m, m', i, n)
  }

  /** Every such error is detected. */
  lemma BurstDetected<C(!new), D(!new)>(step: (C, D) -> C, n: nat, c: C, m: seq<D>, m': seq<D>)
    requires Invertible(step) && Separates(step, n) && DifferWithin(m, m', n)
    ensures Fold(step, c, m) != Fold(step, c, m')
  {
    var i: nat :| EqualOutside(m, m', i, n);
    var e := if i + n <= |m| then i + n else |m|;
    var p, w, w', s := m[..i], m[i..e], m'[i..e], m[e..];
    assert m == p + (w + s) && m' == p + (w' + s);
    if Fold(step, c, m) == Fold(step, c, m') {
      FoldConcat(step, c, p, w + s);
      FoldConcat(step, c, p, w' + s);
      var q := Fold(step, c, p);
      FoldConcat(step, q, w, s);
      FoldConcat(step, q, w', s);
      FoldInvertible(step, Fold(step, q, w), Fold(step, q, w'), s);
      SeparatesShorter(step, n, q, w, w');
    }
  }

  // ---- bytes as bits ----

  /** The bits of a text, those of a byte in the order that `split` gives. */
  function TextBits(split: Byte -> seq<bool>, m: seq<Byte>): seq<bool> {
    if m == [] then [] else TextBits(split, m[..|m| - 1]) + split(m[|m| - 1])
  }

  /** Different bytes are split into different rows of eight bits. */
  ghost predicate Splits(split: Byte -> seq<bool>) {
    && (forall d :: |split(d)| == 8)
    && (forall d, e :: split(d) == split(e) ==> d == e)
  }

  ghost predicate BitByBit<C(!new)>(step: (C, Byte) -> C, bitStep: (C, bool) -> C, split: Byte -> seq<bool>) {
    forall c, d :: step(c, d) == Fold(bitStep, c, split(d))
  }

  /** Taking in bytes is taking in their bits. */
  lemma {:induction false} FoldBits<C(!new)>(step: (C, Byte) -> C, bitStep: (C, bool) -> C, split: Byte -> seq<bool>,
                                             c: C, m: seq<Byte>)
    requires BitByBit(step, bitStep, split)
    ensures Fold(step, c, m) == Fold(bitStep, c, TextBits(split, m))
  {
    if m != [] {
      var before, d := m[..|m| - 1], m[|m| - 1];
      FoldBits(step, bitStep, split, c, before);
      FoldConcat(bitStep, c, TextBits(split, before), split(d));
    }
  }

  lemma EightBits(split: Byte -> seq<bool>, d: Byte)
    requires Splits(split)
    ensures |split(d)| == 8
  {
  }

  lemma {:induction false} BitsAt(split: Byte -> seq<bool>, m: seq<Byte>, j: nat)
    requires Splits(split) && j < |m|
    ensures |TextBits(split, m)| == 8 * |m| && TextBits(split, m)[8 * j..8 * j + 8] == split(m[j])
  {
    var before := m[..|m| - 1];
    BitsLength(split, before);
    if j < |m| - 1 {
      BitsAt(split, before, j);
      assert TextBits(split, m)[8 * j..8 * j + 8] == TextBits(split, before)[8 * j..8 * j + 8];
    } else {
      EightBits(split, m[j]);
      assert (TextBits(split, before) + split(m[j]))[8 * j..8 * j + 8] == split(m[j]);
    }
    BitsLength(split, m);
  }

  lemma {:induction false} BitsLength(split: Byte -> seq<bool>, m: seq<Byte>)
    requires Splits(split)
    ensures |TextBits(split, m)| == 8 * |m|
  {
    if m != [] {
      BitsLength(split, m[..|m| - 1]);
      EightBits(split, m[|m| - 1]);
    }
  }

  /** Texts that differ within n bytes differ within 8 * n bits. */
  lemma BytesWithinBits(split: Byte -> seq<bool>, m: seq<Byte>, m': seq<Byte>, n: nat)
    requires Splits(split) && DifferWithin(m, m', n)
    ensures DifferWithin(TextBits(split, m), TextBits(split, m'), 8 * n)
  {
    var b, b' := TextBits(split, m), TextBits(split, m');
    BitsLength(split, m);
    BitsLength(split, m');
    BitsDiffer(split, m, m');
    var i: nat :| EqualOutside(m, m', i, n);
    forall t | 0 <= t < |b| && !(8 * i <= t < 8 * i + 8 * n)
      ensures b[t] == b'[t]
    {
      var j := t / 8;
      BitsAt(split, m, j);
      BitsAt(split, m', j);
      assert b[t] == b[8 * j..8 * j + 8][t % 8] && b'[t] == b'[8 * j..8 * j + 8][t % 8];
    }
    assert EqualOutside(b, b', 8 * i, 8 * n);
  }

  lemma BitsDiffer(split: Byte -> seq<bool>, m: seq<Byte>, m': seq<Byte>)
    requires Splits(split) && |m| == |m'| && m != m'
    ensures TextBits(split, m) != TextBits(split, m')
  {
    var j :| 0 <= j < |m| && m[j] != m'[j];
    BitsAt(split, m, j);
    BitsAt(split, m', j);
  }

  // ---- registers of bits, into which bits are added ----

  function Repeat<C>(f: C -> C, n: nat, c: C): C {
    if n == 0 then c else f(Repeat(f, n - 1, c))
  }

  /** A register as the step sees it. `one`: a bit as it is added, which the next step then shifts out;
      `last`: that bit of a register; `up` and `down`: the shifts alone; `top`: the bit that `up` loses. */
  datatype Register<!C> = Register(add: (C, C) -> C, bit: C -> C, one: bool -> C, last: C -> bool,
                                   up: C -> C, down: C -> C, top: C -> bool)

  ghost predicate Linear<C(!new)>(r: Register<C>) {
    forall a, b :: r.bit(r.add(a, b)) == r.add(r.bit(a), r.bit(b))
  }

  ghost predicate Injective<C(!new)>(f: C -> C) {
    forall a, b :: f(a) == f(b) ==> a == b
  }

  ghost predicate Cancels<C(!new)>(r: Register<C>) {
    forall a, b, x :: r.add(a, x) == r.add(b, x) ==> a == b
  }

  /** What is shifted up without loss comes down again, also by a step. */
  ghost predicate Returns<C(!new)>(r: Register<C>) {
    forall x :: !r.top(x) ==> r.down(r.up(x)) == x && r.bit(r.up(x)) == x
  }

  ghost predicate ShiftsApart<C(!new)>(r: Register<C>) {
    forall a, b :: r.down(r.add(a, b)) == r.add(r.down(a), r.down(b))
  }

  /** An added bit changes the last bit only. */
  ghost predicate AddsLast<C(!new)>(r: Register<C>) {
    forall c, b :: r.last(r.add(c, r.one(b))) == (r.last(c) != b) && r.down(r.add(c, r.one(b))) == r.down(c)
  }

  /** There is room to shift up k times. */
  predicate Room<C>(r: Register<C>, x: C, k: nat)
    decreases k
  {
    k > 0 ==> !r.top(x) && Room(r, r.up(x), k - 1)
  }

  /** A register of n + 1 bits. */
  ghost predicate Holds<C(!new)>(r: Register<C>, n: nat) {
    && Linear(r) && Injective(r.bit) && Cancels(r) && Returns(r) && ShiftsApart(r) && AddsLast(r)
    && forall b :: Room(r, r.one(b), n)
  }

  /** The place to which steps bring a bit k steps later. */
  function Place<C>(r: Register<C>, b: bool, k: nat): C {
    if k == 0 then r.one(b) else r.up(Place(r, b, k - 1))
  }

  predicate Sees<C>(r: Register<C>, c: C, k: nat)
    decreases k
  {
    if k == 0 then r.last(c) else Sees(r, r.down(c), k - 1)
  }

  lemma {:induction false} RoomAbove<C(!new)>(r: Register<C>, n: nat, b: bool, k: nat)
    requires Holds(r, n) && k <= n
    ensures Room(r, Place(r, b, k), n - k)
  {
    if k > 0 {
      RoomAbove(r, n, b, k - 1);
    }
  }

  /** A step brings a bit one place down. */
  lemma PlaceShifts<C(!new)>(r: Register<C>, n: nat, b: bool, k: nat)
    requires Holds(r, n) && k < n
    ensures r.bit(Place(r, b, k + 1)) == Place(r, b, k) && r.down(Place(r, b, k + 1)) == Place(r, b, k)
  {
    RoomAbove(r, n, b, k);
  }

  /** Bits added in different places do not disturb each other. */
  lemma {:induction false} PlacesApart<C(!new)>(r: Register<C>, n: nat, c: C, b: bool, j: nat, k: nat)
    requires Holds(r, n) && j <= k <= n
    ensures Sees(r, r.add(c, Place(r, b, j)), k) == (Sees(r, c, k) != (b && j == k))
    decreases k
  {
    if j > 0 {
      PlaceShifts(r, n, b, j - 1);
      PlacesApart(r, n, r.down(c), b, j - 1, k - 1);
    }
  }

  function Step<C>(r: Register<C>): (C, bool) -> C {
    (c, d) => r.bit(r.add(c, r.one(d)))
  }

  lemma {:induction false} RepeatLast<C>(f: C -> C, n: nat, c: C)
    ensures Repeat(f, n + 1, c) == Repeat(f, n, f(c))
  {
    if n > 0 {
      RepeatLast(f, n - 1, c);
    }
  }

  lemma {:induction false} RepeatLinear<C(!new)>(r: Register<C>, n: nat, a: C, b: C)
    requires Linear(r)
    ensures Repeat(r.bit, n, r.add(a, b)) == r.add(Repeat(r.bit, n, a), Repeat(r.bit, n, b))
  {
    if n > 0 {
      RepeatLinear(r, n - 1, a, b);
    }
  }

  lemma {:induction false} RepeatInjective<C(!new)>(f: C -> C, n: nat, a: C, b: C)
    requires Injective(f) && Repeat(f, n, a) == Repeat(f, n, b)
    ensures a == b
  {
    if n > 0 {
      RepeatInjective(f, n - 1, a, b);
    }
  }

  lemma StepInvertible<C(!new)>(r: Register<C>)
    requires Injective(r.bit) && Cancels(r)
    ensures Invertible(Step(r))
  {
  }

  lemma {:induction false} BroughtDown<C(!new)>(r: Register<C>, n: nat, b: bool, k: nat)
    requires Holds(r, n) && k <= n
    ensures Repeat(r.bit, k, Place(r, b, k)) == r.one(b)
  {
    if k > 0 {
      RepeatLast(r.bit, k - 1, Place(r, b, k));
      PlaceShifts(r, n, b, k - 1);
      BroughtDown(r, n, b, k - 1);
    }
  }

  /** A whole row added at once, each bit in its place. */
  function AddAll<C>(r: Register<C>, c: C, w: seq<bool>): C {
    if w == [] then c else r.add(AddAll(r, c, w[..|w| - 1]), Place(r, w[|w| - 1], |w| - 1))
  }

  /** Taking bits in one by one is adding them all first, and then doing the steps. */
  lemma {:induction false} AddedAtOnce<C(!new)>(r: Register<C>, n: nat, c: C, w: seq<bool>)
    requires Holds(r, n) && |w| <= n + 1
    ensures Fold(Step(r), c, w) == Repeat(r.bit, |w|, AddAll(r, c, w))
  {
    if w != [] {
      var k := |w| - 1;
      var v, d := w[..k], w[k];
      AddedAtOnce(r, n, c, v);
      BroughtDown(r, n, d, k);
      RepeatLinear(r, k, AddAll(r, c, v), Place(r, d, k));
    }
  }

  lemma {:induction false} BitsBelow<C(!new)>(r: Register<C>, n: nat, c: C, w: seq<bool>, k: nat)
    requires Holds(r, n) && |w| <= k <= n
    ensures Sees(r, AddAll(r, c, w), k) == Sees(r, c, k)
  {
    if w != [] {
      var j := |w| - 1;
      BitsBelow(r, n, c, w[..j], k);
      PlacesApart(r, n, AddAll(r, c, w[..j]), w[j], j, k);
    }
  }

  lemma {:induction false} AddAllInjective<C(!new)>(r: Register<C>, n: nat, c: C, w: seq<bool>, w': seq<bool>)
    requires Holds(r, n) && |w| == |w'| <= n + 1
    requires AddAll(r, c, w) == AddAll(r, c, w')
    ensures w == w'
  {
    if w != [] {
      var k := |w| - 1;
      BitsBelow(r, n, c, w[..k], k);
      BitsBelow(r, n, c, w'[..k], k);
      PlacesApart(r, n, AddAll(r, c, w[..k]), w[k], k, k);
      PlacesApart(r, n, AddAll(r, c, w'[..k]), w'[k], k, k);
      AddAllInjective(r, n, c, w[..k], w'[..k]);
      assert w == w[..k] + [w[k]] && w' == w'[..k] + [w'[k]];
    }
  }

  /** A register tells all rows of as many bits as it holds apart. */
  lemma RegisterSeparates<C(!new)>(r: Register<C>, n: nat)
    requires Holds(r, n)
    ensures Separates(Step(r), n + 1)
  {
    forall c, w, w' | |w| == n + 1 && |w'| == n + 1 && Fold(Step(r), c, w) == Fold(Step(r), c, w')
      ensures w == w'
    {
      AddedAtOnce(r, n, c, w);
      AddedAtOnce(r, n, c, w');
      RepeatInjective(r.bit, n + 1, AddAll(r, c, w), AddAll(r, c, w'));
      AddAllInjective(r, n, c, w, w');
    }
  }

  /** So no error within n + 1 consecutive bits goes unnoticed, wherever in its bytes it begins. */
  lemma BitBurstDetected<C(!new)>(r: Register<C>, n: nat, step: (C, Byte) -> C, split: Byte -> seq<bool>,
                                  c: C, m: seq<Byte>, m': seq<Byte>)
    requires Holds(r, n) && BitByBit(step, Step(r), split)
    requires DifferWithin(TextBits(split, m), TextBits(split, m'), n + 1)
    ensures Fold(step, c, m) != Fold(step, c, m')
  {
    RegisterSeparates(r, n);
    StepInvertible(r);
    FoldBits(step, Step(r), split, c, m);
    FoldBits(step, Step(r), split, c, m');
    BurstDetected(Step(r), n + 1, c, TextBits(split, m), TextBits(split, m'));
  }

  lemma {:induction false} Eight<C>(f: C -> C, c: C)
    ensures Repeat(f, 8, c) == f(f(f(f(f(f(f(f(c))))))))
  {
    assert Repeat(f, 2, c) == f(f(c));
    assert Repeat(f, 4, c) == f(f(f(f(c))));
    assert Repeat(f, 6, c) == f(f(f(f(f(f(c))))));
  }

  lemma AddEight<C>(r: Register<C>, c: C, w: seq<bool>)
    requires |w| == 8
    ensures AddAll(r, c, w) ==
      r.add(r.add(r.add(r.add(r.add(r.add(r.add(r.add(c, Place(r, w[0], 0)), Place(r, w[1], 1)), Place(r, w[2], 2)),
        Place(r, w[3], 3)), Place(r, w[4], 4)), Place(r, w[5], 5)), Place(r, w[6], 6)), Place(r, w[7], 7))
  {
    AddNext(r, c, w, 0);
    AddNext(r, c, w, 1);
    AddNext(r, c, w, 2);
    AddNext(r, c, w, 3);
    AddNext(r, c, w, 4);
    AddNext(r, c, w, 5);
    AddNext(r, c, w, 6);
    AddNext(r, c, w, 7);
    assert w[..0] == [] && w[..8] == w;
  }

  lemma AddNext<C>(r: Register<C>, c: C, w: seq<bool>, k: nat)
    requires k < |w|
    ensures AddAll(r, c, w[..k + 1]) == r.add(AddAll(r, c, w[..k]), Place(r, w[k], k))
  {
    assert w[..k + 1][..k] == w[..k];
  }
}
