/** Channel masks and channel lists: the loop in header_check that lists the channels of a
    mask (codec/wave.c), and the macros that pack a list into a mask and test it
    (audio.h). A mask is the unsigned value of its 32 bits. */
module ChannelMasks {

  const CHANNEL_MAX := 19
  const LIST_SIZE := CHANNEL_MAX - 1
  const MASK_BITS := 32

  /** ((mask >> i) & 1) > 0 */
  predicate Bit(mask: nat, i: nat) {
    if i == 0 then mask % 2 == 1 else Bit(mask / 2, i - 1)
  }

  /** 1 << n */
  function OneAt(n: nat): nat {
    if n == 0 then 1 else 2 * OneAt(n - 1)
  }

  /** a | b */
  function Or(a: nat, b: nat): nat {
    if a == 0 && b == 0 then 0
    else 2 * Or(a / 2, b / 2) + (if a % 2 == 1 || b % 2 == 1 then 1 else 0)
  }

  /** The channels of the bits from i on. */
  function ChannelsFrom(mask: nat, i: nat): seq<nat>
    decreases MASK_BITS - i, mask
  {
    if i >= MASK_BITS then []
    else (if Bit(mask, i) then [i + 1] else []) + ChannelsFrom(mask, i + 1)
  }

  function Channels(mask: nat): seq<nat> {
    ChannelsFrom(mask, 0)
  }

  function Packed(list: seq<nat>): nat {
    if list == [] then 0
    else
      var rest, last := list[..|list| - 1], list[|list| - 1];
      if last > 0 then Or(Packed(rest), OneAt(last)) else Packed(rest)
  }

  // ---------- Bits ----------

  lemma {:induction false} OrBit(a: nat, b: nat, i: nat)
    ensures Bit(Or(a, b), i) <==> Bit(a, i) || Bit(b, i)
    decreases i
  {
    if a == 0 && b == 0 {
      NoBits(i);
    } else {
      assert Or(a, b) / 2 == Or(a / 2, b / 2);
      if i > 0 {
        OrBit(a / 2, b / 2, i - 1);
      }
    }
  }

  lemma {:induction false} NoBits(i: nat)
    ensures !Bit(0, i)
  {
    if i > 0 {
      NoBits(i - 1);
    }
  }

  lemma {:induction false} OneBit(n: nat, i: nat)
    ensures Bit(OneAt(n), i) <==> i == n
  {
    if n == 0 {
      if i > 0 {
        NoBits(i - 1);
      }
    } else {
      assert OneAt(n) / 2 == OneAt(n - 1);
      if i > 0 {
        OneBit(n - 1, i - 1);
      }
    }
  }

  lemma {:induction false} SameBits(a: nat, b: nat)
    requires forall i: nat :: Bit(a, i) == Bit(b, i)
    ensures a == b
    decreases a + b
  {
    assert Bit(a, 0) == Bit(b, 0);
    if a + b > 0 {
      forall i: nat
        ensures Bit(a / 2, i) == Bit(b / 2, i)
      {
        assert Bit(a, i + 1) == Bit(b, i + 1);
      }
      SameBits(a / 2, b / 2);
    }
  }

  ghost predicate NoBitFrom(a: nat, n: nat) {
    forall i: nat :: i >= n ==> !Bit(a, i)
  }

  /** A value is below 2^n exactly when it has no bit from n on. */
  lemma {:induction false} Bounded(a: nat, n: nat)
    ensures a < OneAt(n) <==> NoBitFrom(a, n)
    decreases n
  {
    if n > 0 {
      Bounded(a / 2, n - 1);
      if NoBitFrom(a, n) {
        forall i: nat | i >= n - 1
          ensures !Bit(a / 2, i)
        {
          assert !Bit(a, i + 1);
        }
      }
      if NoBitFrom(a / 2, n - 1) {
        forall i: nat | i >= n
          ensures !Bit(a, i)
        {
          assert !Bit(a / 2, i - 1);
        }
      }
    } else if a == 0 {
      forall i: nat
        ensures !Bit(a, i)
      {
        NoBits(i);
      }
    } else {
      var i := SomeBit(a);
    }
  }

  lemma {:induction false} SomeBit(a: nat) returns (i: nat)
    requires a > 0
    ensures Bit(a, i)
  {
    if a % 2 == 1 {
      i := 0;
    } else {
      i := SomeBit(a / 2);
      i := i + 1;
    }
  }

  // ---------- Lists and masks ----------

  ghost predicate Ascending(list: seq<nat>) {
    forall i, j :: 0 <= i < j < |list| ==> list[i] < list[j]
  }

  /** A list of the channels from i on, as bits of the mask. */
  ghost predicate BitsFrom(mask: nat, i: nat, list: seq<nat>) {
    forall v: nat :: v in list <==> i < v <= MASK_BITS && Bit(mask, v - 1)
  }

  lemma {:induction false} ChannelsAreBits(mask: nat, i: nat)
    ensures Ascending(ChannelsFrom(mask, i))
    ensures BitsFrom(mask, i, ChannelsFrom(mask, i))
    decreases MASK_BITS - i
  {
    if i < MASK_BITS {
      ChannelsAreBits(mask, i + 1);
      ListedNext(mask, i);
      if Bit(mask, i) {
        NextBit(mask, i, ChannelsFrom(mask, i + 1));
      } else {
        NoNextBit(mask, i, ChannelsFrom(mask, i + 1));
      }
    }
  }

  lemma NextBit(mask: nat, i: nat, rest: seq<nat>)
    requires i < MASK_BITS && Bit(mask, i) && Ascending(rest) && BitsFrom(mask, i + 1, rest)
    ensures Ascending([i + 1] + rest) && BitsFrom(mask, i, [i + 1] + rest)
  {
    var list := [i + 1] + rest;
    forall v: nat
      ensures v in list <==> i < v <= MASK_BITS && Bit(mask, v - 1)
    {
      assert v in list <==> v == i + 1 || v in rest;
    }
    forall k | 0 <= k < |rest|
      ensures i + 1 < rest[k]
    {
      assert rest[k] in rest;
    }
  }

  lemma NoNextBit(mask: nat, i: nat, rest: seq<nat>)
    requires i < MASK_BITS && !Bit(mask, i) && BitsFrom(mask, i + 1, rest)
    ensures BitsFrom(mask, i, [] + rest) && [] + rest == rest
  {
    assert [] + rest == rest;
    forall v: nat
      ensures v in rest <==> i < v <= MASK_BITS && Bit(mask, v - 1)
    {
      assert v == i + 1 ==> v !in rest;
    }
  }

  /** MASK_ISSET on the packed mask agrees with membership of the list. */
  lemma {:induction false} PackedBits(list: seq<nat>, v: nat)
    ensures Bit(Packed(list), v) <==> v > 0 && v in list
  {
    if list == [] {
      NoBits(v);
    } else {
      var rest, last := list[..|list| - 1], list[|list| - 1];
      PackedBits(rest, v);
      assert list == rest + [last];
      OneBit(last, v);
      OrBit(Packed(rest), OneAt(last), v);
    }
  }

  lemma PackedChannelBit(mask: nat, v: nat)
    requires NoBitFrom(mask, MASK_BITS)
    ensures Bit(Packed(Channels(mask)), v) == Bit(2 * mask, v)
  {
    PackedBits(Channels(mask), v);
    ChannelsAreBits(mask, 0);
    DoubledBit(mask, v);
  }

  lemma DoubledBit(mask: nat, v: nat)
    ensures Bit(2 * mask, v) <==> v > 0 && Bit(mask, v - 1)
  {
  }

  /** Every channel can be a shift amount of a 32-bit value. */
  ghost predicate Shiftable(list: seq<nat>) {
    forall v :: v in list ==> v < MASK_BITS
  }

  lemma PackedFits(list: seq<nat>)
    requires Shiftable(list)
    ensures Packed(list) < OneAt(MASK_BITS)
  {
    Bounded(Packed(list), MASK_BITS);
    forall i: nat | i >= MASK_BITS
      ensures !Bit(Packed(list), i)
    {
      PackedBits(list, i);
    }
  }

  lemma ShiftableBits(mask: nat)
    requires NoBitFrom(mask, MASK_BITS)
    ensures Shiftable(Channels(mask)) <==> NoBitFrom(mask, MASK_BITS - 1)
  {
    ChannelsAreBits(mask, 0);
    if Shiftable(Channels(mask)) {
      forall i: nat | i >= MASK_BITS - 1
        ensures !Bit(mask, i)
      {
        assert i + 1 !in Channels(mask);
      }
    }
  }

  lemma Powers()
    ensures OneAt(18) == 0x4_0000 && OneAt(31) == 0x8000_0000 && OneAt(32) == 0x1_0000_0000
  {
    PowersAdd(9, 9);
    PowersAdd(18, 9);
    PowersAdd(27, 4);
  }

  lemma {:induction false} PowersAdd(m: nat, n: nat)
    ensures OneAt(m + n) == OneAt(m) * OneAt(n)
    decreases n
  {
    if n > 0 {
      PowersAdd(m, n - 1);
      assert OneAt(m) * OneAt(n) == 2 * (OneAt(m) * OneAt(n - 1));
    }
  }

  /** The channels of a mask can be packed into 32 bits exactly when the mask is below
      2^31, and packing them then shifts the mask left by one. */
  lemma PackedChannelsExactly(mask: nat)
    requires mask < 0x1_0000_0000
    ensures Shiftable(Channels(mask)) <==> mask < 0x8000_0000
    ensures mask < 0x8000_0000 ==> Packed(Channels(mask)) == 2 * mask
  {
    Powers();
    Bounded(mask, MASK_BITS);
    Bounded(mask, MASK_BITS - 1);
    ShiftableBits(mask);
    if mask < 0x8000_0000 {
      forall v: nat
        ensures Bit(Packed(Channels(mask)), v) == Bit(2 * mask, v)
      {
        PackedChannelBit(mask, v);
      }
      SameBits(Packed(Channels(mask)), 2 * mask);
    }
  }

  /** Every listed channel is one the rest of the program knows. */
  ghost predicate KnownChannels(list: seq<nat>) {
    forall v :: v in list ==> 0 < v < CHANNEL_MAX
  }

  lemma KnownChannelBits(mask: nat)
    requires NoBitFrom(mask, MASK_BITS)
    ensures KnownChannels(Channels(mask)) <==> NoBitFrom(mask, LIST_SIZE)
  {
    ChannelsAreBits(mask, 0);
    if KnownChannels(Channels(mask)) {
      forall i: nat | i >= LIST_SIZE
        ensures !Bit(mask, i)
      {
        assert i + 1 !in Channels(mask);
      }
    }
  }

  /** The listed channels are known exactly when the mask is below 2^18; the list is then
      ascending and fits. */
  lemma KnownChannelsExactly(mask: nat)
    requires mask < 0x1_0000_0000
    ensures KnownChannels(Channels(mask)) <==> mask < 0x4_0000
    ensures Ascending(Channels(mask))
    ensures KnownChannels(Channels(mask)) ==> |Channels(mask)| <= 18
  {
    Powers();
    Bounded(mask, MASK_BITS);
    Bounded(mask, LIST_SIZE);
    KnownChannelBits(mask);
    ChannelsAreBits(mask, 0);
    if KnownChannels(Channels(mask)) {
      AscendingFits(Channels(mask), LIST_SIZE);
    }
  }

  lemma {:induction false} AscendingFits(list: seq<nat>, bound: nat)
    requires Ascending(list) && forall v :: v in list ==> 0 < v <= bound
    ensures |list| <= bound
    decreases bound
  {
    if list != [] {
      var rest, last := list[..|list| - 1], list[|list| - 1];
      assert last in list;
      assert forall v :: v in rest ==> v in list;
      assert forall k :: 0 <= k < |rest| ==> rest[k] == list[k] < last;
      AscendingFits(rest, last - 1);
    }
  }

  // ---------- One entry per bit ----------

  /** The number of bits set. */
  function Ones(mask: nat): nat {
    if mask == 0 then 0 else mask % 2 + Ones(mask / 2)
  }

  /** mask >> i */
  function Shifted(mask: nat, i: nat): nat {
    if i == 0 then mask else Shifted(mask / 2, i - 1)
  }

  lemma {:induction false} ShiftedNext(mask: nat, i: nat)
    ensures Bit(mask, i) <==> Shifted(mask, i) % 2 == 1
    ensures Shifted(mask, i + 1) == Shifted(mask, i) / 2
  {
    if i > 0 {
      ShiftedNext(mask / 2, i - 1);
    }
  }

  lemma {:induction false} ShiftedOut(mask: nat, n: nat)
    requires mask < OneAt(n)
    ensures Shifted(mask, n) == 0
  {
    if n > 0 {
      ShiftedOut(mask / 2, n - 1);
    }
  }

  lemma {:induction false} EntryPerBitFrom(mask: nat, i: nat)
    requires i <= MASK_BITS && Shifted(mask, MASK_BITS) == 0
    ensures |ChannelsFrom(mask, i)| == Ones(Shifted(mask, i))
    decreases MASK_BITS - i
  {
    if i < MASK_BITS {
      EntryPerBitFrom(mask, i + 1);
      ListedNext(mask, i);
      ShiftedNext(mask, i);
    }
  }

  /** The list has one entry per set bit, so it overruns exactly with more than 18 set. */
  lemma EntryPerBit(mask: nat)
    requires mask < 0x1_0000_0000
    ensures |Channels(mask)| == Ones(mask)
  {
    Powers();
    ShiftedOut(mask, MASK_BITS);
    EntryPerBitFrom(mask, 0);
  }

  // ---------- The loops ----------

  /** The loop of header_check, writing into memory that is long enough; the list itself has
      18 entries. */
  method ListChannels(mask: nat, list: array<nat>) returns (len: nat)
    requires |Channels(mask)| <= list.Length
    modifies list
    ensures len <= list.Length && list[..len] == Channels(mask)
    ensures forall k :: len <= k < list.Length ==> list[k] == old(list[k])
  {
    len := 0;
    ghost var done: seq<nat> := [];
    for i := 0 to MASK_BITS
      invariant done + ChannelsFrom(mask, i) == Channels(mask)
      invariant len == |done| && list[..len] == done
      invariant forall k :: len <= k < list.Length ==> list[k] == old(list[k])
    {
      if Bit(mask, i) {
        ListedNext(mask, i);
        assert done + ChannelsFrom(mask, i) == (done + [i + 1]) + ChannelsFrom(mask, i + 1);
        assert |done + [i + 1]| <= |Channels(mask)|;
        list[len] := i + 1;
        len := len + 1;
        done := done + [i + 1];
      } else {
        ListedNext(mask, i);
      }
    }
  }

  lemma ListedNext(mask: nat, i: nat)
    requires i < MASK_BITS
    ensures ChannelsFrom(mask, i) == (if Bit(mask, i) then [i + 1] else []) + ChannelsFrom(mask, i + 1)
  {
  }

  /** MASK_ARR_PACK on channels that C can shift by. */
  method Pack(list: seq<nat>) returns (mask: nat)
    requires Shiftable(list)
    ensures mask == Packed(list) < 0x1_0000_0000
  {
    Powers();
    mask := 0;
    for i := 0 to |list|
      invariant mask == Packed(list[..i])
    {
      assert list[..i + 1][..i] == list[..i];
      if list[i] > 0 {
        mask := Or(mask, OneAt(list[i]));
      }
    }
    assert list[..|list|] == list;
    PackedFits(list);
  }
}
