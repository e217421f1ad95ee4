/** The CRC-8 of crc.c (the SMBus packet error code, section 5.4 of SMBus 2.0): the loop
    of crc8_check against a register fed one message bit at a time, and the algebra of
    that register. */
module Crc8 {

  const CRC_POLY: bv8 := 0x07
  const CRC_INIT: bv8 := 0x00

  /** Messages as bits, the most significant bit of each byte first. */
  type Bits = seq<bool>

  function TopBits(b: bv8, n: nat): (bits: Bits)
    ensures |bits| == n
    decreases n
  {
    if n == 0 then [] else [b & 0x80 != 0] + TopBits(b << 1, n - 1)
  }

  function WordBits(words: seq<bv8>, width: nat): (bits: Bits) {
    if words == [] then [] else TopBits(words[0], width) + WordBits(words[1..], width)
  }

  function MessageBits(buffer: seq<bv8>): Bits {
    WordBits(buffer, 8)
  }

  /** One round of the inner loop. */
  function Shift(crc: bv8): bv8 {
    if crc & 0x80 != 0 then (crc << 1) ^ CRC_POLY else crc << 1
  }

  function Shifts(crc: bv8, n: nat): bv8
    decreases n
  {
    if n == 0 then crc else Shifts(Shift(crc), n - 1)
  }

  /** The register after one more message bit. */
  function Feed(crc: bv8, bit: bool): bv8 {
    Shift(if bit then crc ^ 0x80 else crc)
  }

  function FeedAll(crc: bv8, bits: Bits): bv8
    decreases |bits|
  {
    if bits == [] then crc else FeedAll(Feed(crc, bits[0]), bits[1..])
  }

  function Crc(buffer: seq<bv8>): bv8 {
    FeedAll(CRC_INIT, MessageBits(buffer))
  }

  // ---------- The byte-wise loop ----------

  lemma XorShift(a: bv8, b: bv8)
    ensures (a ^ b) << 1 == (a << 1) ^ (b << 1)
    ensures (a ^ b) & 0x80 == (a & 0x80) ^ (b & 0x80)
    ensures a & 0x80 == 0x80 || a & 0x80 == 0
  {
  }

  lemma XorPoly(a: bv8, b: bv8)
    ensures (a ^ 0x07) ^ (b ^ 0x07) == a ^ b
    ensures (a ^ 0x07) ^ b == (a ^ b) ^ 0x07
    ensures a ^ (b ^ 0x07) == (a ^ b) ^ 0x07
  {
  }

  lemma ShiftLinear(a: bv8, b: bv8)
    ensures Shift(a ^ b) == Shift(a) ^ Shift(b)
  {
    XorShift(a, b);
    XorShift(b, a);
    XorPoly(a << 1, b << 1);
  }

  lemma ShiftInjective(a: bv8, b: bv8)
    ensures Shift(a) == Shift(b) <==> a == b
  {
  }

  function Left(b: bv8, n: nat): bv8
    decreases n
  {
    if n == 0 then b else Left(b << 1, n - 1)
  }

  predicate IsXor(z: bv8, x: bv8, y: bv8) {
    z == x ^ y
  }

  lemma ShiftXor(z: bv8, x: bv8, y: bv8)
    requires IsXor(z, x, y)
    ensures IsXor(Shift(z), Shift(x), Shift(y))
  {
    ShiftLinear(x, y);
  }

  lemma MoveTop(z: bv8, x: bv8, y: bv8)
    requires IsXor(z, x, y)
    ensures IsXor(z, x ^ 0x80, y ^ 0x80)
  {
  }

  lemma TopCleared(b: bv8)
    ensures b & 0x80 != 0 ==> Shift(b ^ 0x80) == b << 1
    ensures b & 0x80 == 0 ==> Shift(b) == b << 1
  {
  }

  lemma FirstBit(z: bv8, crc: bv8, b: bv8)
    requires IsXor(z, crc, b)
    ensures IsXor(Shift(z), Feed(crc, b & 0x80 != 0), b << 1)
  {
    TopCleared(b);
    if b & 0x80 != 0 {
      MoveTop(z, crc, b);
      ShiftXor(z, crc ^ 0x80, b ^ 0x80);
    } else {
      ShiftXor(z, crc, b);
    }
  }

  lemma ShiftLater(crc: bv8, b: bv8, n: nat)
    ensures Shifts(crc ^ b, n + 1) == Shifts(Feed(crc, b & 0x80 != 0) ^ (b << 1), n)
  {
    FirstBit(crc ^ b, crc, b);
  }

  lemma FeedFirst(crc: bv8, b: bv8, n: nat)
    ensures FeedAll(crc, TopBits(b, n + 1)) == FeedAll(Feed(crc, b & 0x80 != 0), TopBits(b << 1, n))
  {
    var bits := TopBits(b, n + 1);
    assert bits[0] == (b & 0x80 != 0) && bits[1..] == TopBits(b << 1, n);
  }

  lemma {:induction false} BitsAtOnce(crc: bv8, b: bv8, n: nat)
    requires Left(b, n) == 0
    ensures Shifts(crc ^ b, n) == FeedAll(crc, TopBits(b, n))
    decreases n
  {
    if n > 0 {
      ShiftLater(crc, b, n - 1);
      FeedFirst(crc, b, n - 1);
      BitsAtOnce(Feed(crc, b & 0x80 != 0), b << 1, n - 1);
    }
  }

  lemma EightShifts(b: bv8)
    ensures b << 1 << 1 << 1 << 1 << 1 << 1 << 1 << 1 == 0
  {
  }

  lemma ByteShiftedOut(b: bv8)
    ensures Left(b, 8) == 0
  {
    var half := b << 1 << 1 << 1 << 1;
    assert Left(b, 8) == Left(b << 1 << 1, 6) == Left(half, 4) == Left(half << 1 << 1, 2);
    EightShifts(b);
  }

  /** The loop's way: a whole byte is mixed in, then shifted out eight times. */
  lemma ByteAtOnce(crc: bv8, b: bv8)
    ensures FeedAll(crc, TopBits(b, 8)) == Shifts(crc ^ b, 8)
  {
    ByteShiftedOut(b);
    BitsAtOnce(crc, b, 8);
  }

  lemma {:induction false} FeedAllAppend(crc: bv8, a: Bits, b: Bits)
    ensures FeedAll(crc, a + b) == FeedAll(FeedAll(crc, a), b)
    decreases |a|
  {
    if a == [] {
      assert [] + b == b;
    } else {
      FeedAllAppend(Feed(crc, a[0]), a[1..], b);
      assert (a + b)[1..] == a[1..] + b;
    }
  }

  lemma {:induction false} WordBitsAppend(a: seq<bv8>, b: seq<bv8>, width: nat)
    ensures WordBits(a + b, width) == WordBits(a, width) + WordBits(b, width)
  {
    if a == [] {
      assert [] + b == b;
    } else {
      WordBitsAppend(a[1..], b, width);
      assert (a + b)[1..] == a[1..] + b;
      Regroup(TopBits(a[0], width), WordBits(a[1..], width), WordBits(b, width));
    }
  }

  lemma Regroup(a: Bits, b: Bits, c: Bits)
    ensures a + (b + c) == (a + b) + c
  {
  }

  lemma {:induction false} ShiftsFromBack(crc: bv8, n: nat)
    ensures Shifts(crc, n + 1) == Shift(Shifts(crc, n))
    decreases n
  {
    if n > 0 {
      ShiftsFromBack(Shift(crc), n - 1);
    }
  }

  lemma OneMoreByte(buffer: seq<bv8>, b: bv8)
    ensures Crc(buffer + [b]) == Shifts(Crc(buffer) ^ b, 8)
  {
    WordBitsAppend(buffer, [b], 8);
    OneByteBits(b);
    FeedAllAppend(CRC_INIT, MessageBits(buffer), TopBits(b, 8));
    ByteAtOnce(Crc(buffer), b);
  }

  lemma OneByteBits(b: bv8)
    ensures MessageBits([b]) == TopBits(b, 8)
  {
    assert WordBits([b], 8) == TopBits(b, 8) + WordBits([b][1..], 8);
  }

  method Crc8Check(buffer: array<bv8>, length: nat) returns (crc: bv8)
    requires length <= buffer.Length
    ensures crc == Crc(buffer[..length])
  {
    crc := CRC_INIT;
    var next, left := 0, length;
    while left > 0
      invariant next + left == length
      invariant crc == Crc(buffer[..next])
    {
      left := left - 1;
      ghost var mixed := crc ^ buffer[next];
      crc := crc ^ buffer[next];
      OneMoreByte(buffer[..next], buffer[next]);
      assert buffer[..next + 1] == buffer[..next] + [buffer[next]];
      next := next + 1;
      for i := 0 to 8
        invariant crc == Shifts(mixed, i)
      {
        ShiftsFromBack(mixed, i);
        if crc & 0x80 != 0 {
          crc := crc << 1;
          crc := crc ^ CRC_POLY;
        } else {
          crc := crc << 1;
        }
      }
    }
  }
}
