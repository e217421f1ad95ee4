/** Which corruptions of a message crc8_check detects, for messages of every length. */
module CrcDetection {
  import opened Crc8
  import CrcRemainder

  /** The bit positions in which two messages differ. */
  function Difference(a: Bits, b: Bits): (d: Bits)
    requires |a| == |b|
    ensures |d| == |a|
  {
    if a == [] then [] else [a[0] != b[0]] + Difference(a[1..], b[1..])
  }

  // ---------- Linearity ----------

  lemma FlipBoth(x: bv8, y: bv8)
    ensures (x ^ 0x80) ^ (y ^ 0x80) == x ^ y
    ensures (x ^ 0x80) ^ y == (x ^ y) ^ 0x80
    ensures x ^ (y ^ 0x80) == (x ^ y) ^ 0x80
  {
  }

  function Mixed(crc: bv8, bit: bool): bv8 {
    if bit then crc ^ 0x80 else crc
  }

  lemma MixedXor(z: bv8, x: bv8, y: bv8, p: bool, q: bool)
    requires IsXor(z, x, y)
    ensures IsXor(Mixed(z, p != q), Mixed(x, p), Mixed(y, q))
  {
    FlipBoth(x, y);
  }

  lemma FeedLinear(z: bv8, x: bv8, y: bv8, p: bool, q: bool)
    requires IsXor(z, x, y)
    ensures IsXor(Feed(z, p != q), Feed(x, p), Feed(y, q))
  {
    MixedXor(z, x, y, p, q);
    ShiftXor(Mixed(z, p != q), Mixed(x, p), Mixed(y, q));
  }

  lemma {:induction false} FeedAllLinear(z: bv8, x: bv8, y: bv8, a: Bits, b: Bits)
    requires |a| == |b| && IsXor(z, x, y)
    ensures IsXor(FeedAll(z, Difference(a, b)), FeedAll(x, a), FeedAll(y, b))
    decreases |a|
  {
    if a != [] {
      var d := Difference(a, b);
      FeedLinear(z, x, y, a[0], b[0]);
      FeedAllLinear(Feed(z, d[0]), Feed(x, a[0]), Feed(y, b[0]), a[1..], b[1..]);
      assert d[1..] == Difference(a[1..], b[1..]);
    }
  }

  /** Corruption is detected exactly when the error pattern alone gives a nonzero CRC. */
  lemma DetectedByDifference(a: seq<bv8>, b: seq<bv8>)
    requires |a| == |b|
    ensures |MessageBits(a)| == |MessageBits(b)|
    ensures Crc(a) == Crc(b) <==> FeedAll(0, Difference(MessageBits(a), MessageBits(b))) == 0
  {
    WordBitsLength(a, 8);
    WordBitsLength(b, 8);
    FeedAllLinear(0, 0, 0, MessageBits(a), MessageBits(b));
    XorZero(Crc(a), Crc(b));
  }

  /** Corruption goes undetected exactly when the generator divides the error polynomial. */
  lemma UndetectedExactly(a: seq<bv8>, b: seq<bv8>)
    requires |a| == |b|
    ensures |MessageBits(a)| == |MessageBits(b)|
    ensures Crc(a) == Crc(b) <==>
              CrcRemainder.IsMultiple(CrcRemainder.MessagePoly(Difference(MessageBits(a), MessageBits(b))))
  {
    DetectedByDifference(a, b);
    CrcRemainder.FedToZeroExactly(Difference(MessageBits(a), MessageBits(b)));
  }

  lemma XorZero(x: bv8, y: bv8)
    ensures x ^ y == 0 <==> x == y
  {
  }

  lemma {:induction false} WordBitsLength(words: seq<bv8>, width: nat)
    ensures |WordBits(words, width)| == width * |words|
  {
    if words != [] {
      WordBitsLength(words[1..], width);
    }
  }

  // ---------- Errors confined to part of the message ----------

  predicate Quiet(d: Bits) {
    forall i :: 0 <= i < |d| ==> !d[i]
  }

  lemma {:induction false} QuietShifts(crc: bv8, d: Bits)
    requires Quiet(d)
    ensures FeedAll(crc, d) == Shifts(crc, |d|)
    decreases |d|
  {
    if d != [] {
      QuietShifts(Feed(crc, d[0]), d[1..]);
    }
  }

  lemma ShiftZero(crc: bv8)
    ensures Shift(crc) == 0 <==> crc == 0
  {
  }

  lemma {:induction false} ShiftsZero(crc: bv8, n: nat)
    ensures Shifts(crc, n) == 0 <==> crc == 0
    decreases n
  {
    if n > 0 {
      ShiftZero(crc);
      ShiftsZero(Shift(crc), n - 1);
    }
  }

  /** Undisturbed bits before and after the error change nothing. */
  lemma OnlyTheErrorMatters(d: Bits, i: nat, j: nat)
    requires i <= j <= |d| && Quiet(d[..i]) && Quiet(d[j..])
    ensures FeedAll(0, d) == 0 <==> FeedAll(0, d[i..j]) == 0
  {
    assert d == d[..i] + (d[i..j] + d[j..]);
    FeedAllAppend(0, d[..i], d[i..j] + d[j..]);
    QuietShifts(0, d[..i]);
    ShiftsZero(0, i);
    FeedAllAppend(0, d[i..j], d[j..]);
    QuietShifts(FeedAll(0, d[i..j]), d[j..]);
    ShiftsZero(FeedAll(0, d[i..j]), |d| - j);
  }

  predicate Within(d: Bits, start: nat, end: nat) {
    forall i :: 0 <= i < |d| && d[i] ==> start <= i < end
  }

  lemma OnlyTheWindowMatters(d: Bits, start: nat, end: nat)
    requires start <= end <= |d| && Within(d, start, end)
    ensures FeedAll(0, d) == 0 <==> FeedAll(0, d[start..end]) == 0
  {
    OnlyTheErrorMatters(d, start, end);
  }

  // ---------- Two flipped bits ----------

  lemma {:induction false} ShiftsAdd(crc: bv8, m: nat, n: nat)
    ensures Shifts(crc, m + n) == Shifts(Shifts(crc, m), n)
    decreases m
  {
    if m > 0 {
      ShiftsAdd(Shift(crc), m - 1, n);
    }
  }

  function FourShifts(x: bv8): bv8 {
    Shift(Shift(Shift(Shift(x))))
  }

  lemma Octet(n: nat, x: bv8, half: bv8, y: bv8)
    requires Shifts(0x80, n) == x && FourShifts(x) == half && FourShifts(half) == y
    ensures Shifts(0x80, n + 8) == y
  {
    ShiftsAdd(0x80, n, 4);
    ShiftsAdd(0x80, n + 4, 4);
    FourAtOnce(x);
    FourAtOnce(half);
  }

  lemma FourAtOnce(x: bv8)
    ensures Shifts(x, 4) == FourShifts(x)
  {
    assert Shifts(x, 4) == Shifts(Shift(Shift(x)), 2);
  }

  lemma ReturnsAfter127()
    ensures Shifts(0x80, 127) == 0x80
  {
    Octet(0, 0x80, 0x38, 0x89);
    Octet(8, 0x89, 0xa8, 0xb6);
    Octet(16, 0xb6, 0x51, 0x0b);
    Octet(24, 0x0b, 0xb0, 0x31);
    Octet(32, 0x31, 0x19, 0x97);
    Octet(40, 0x97, 0x4f, 0xec);
    Octet(48, 0xec, 0xea, 0x8a);
    Octet(56, 0x8a, 0x98, 0xbf);
    Octet(64, 0xbf, 0xc1, 0x34);
    Octet(72, 0x34, 0x49, 0x8c);
    Octet(80, 0x8c, 0xf8, 0xad);
    Octet(88, 0xad, 0xe6, 0x4a);
    Octet(96, 0x4a, 0xbc, 0xf1);
    Octet(104, 0xf1, 0x3d, 0xd9);
    Octet(112, 0xd9, 0xb3, 0x01);
    ShiftsAdd(0x80, 120, 7);
    assert Shifts(0x01, 7) == 0x80;
  }

  predicate Returns(n: nat) {
    Shifts(0x80, n) == 0x80
  }

  lemma {:induction false} ShiftsInjective(x: bv8, y: bv8, n: nat)
    ensures Shifts(x, n) == Shifts(y, n) <==> x == y
    decreases n
  {
    if n > 0 {
      ShiftInjective(x, y);
      ShiftsInjective(Shift(x), Shift(y), n - 1);
    }
  }

  lemma ReturnsDifference(m: nat, n: nat)
    requires Returns(n) && n <= m
    ensures Returns(m) <==> Returns(m - n)
  {
    ShiftsAdd(0x80, m - n, n);
    ShiftsInjective(Shifts(0x80, m - n), 0x80, n);
  }

  /** Two return times have a common divisor that is one too. */
  lemma {:induction false} ReturnsTogether(m: nat, n: nat) returns (g: nat, p: nat, q: nat)
    requires Returns(m) && Returns(n) && 0 < n
    ensures 0 < g && Returns(g) && m == p * g && n == q * g
    decreases m + n
  {
    if m == 0 {
      g, p, q := n, 0, 1;
    } else if n <= m {
      ReturnsDifference(m, n);
      g, p, q := ReturnsTogether(m - n, n);
      p := p + q;
    } else {
      ReturnsDifference(n, m);
      g, q, p := ReturnsTogether(n - m, m);
      q := q + p;
    }
  }

  lemma DivisorOf127(p: nat, g: nat)
    requires p * g == 127 && g < 127
    ensures g == 1
  {
    assert p > 1;
    assert p < 12 || g < 12;
  }

  lemma NoEarlyReturn(n: nat)
    requires 0 < n < 127
    ensures !Returns(n)
  {
    assert !Returns(1);
    if Returns(n) {
      ReturnsAfter127();
      var g, p, q := ReturnsTogether(127, n);
      assert g <= n;
      DivisorOf127(p, g);
    }
  }

  /** The shift-and-reduce step has period 127. */
  lemma {:induction false} ReturnsExactly(n: nat)
    ensures Returns(n) <==> n % 127 == 0
  {
    if n >= 127 {
      ReturnsAfter127();
      ReturnsDifference(n, 127);
      ReturnsExactly(n - 127);
    } else if n > 0 {
      NoEarlyReturn(n);
    }
  }

  lemma FlipsAtEnds(between: Bits)
    requires Quiet(between)
    ensures FeedAll(0, [true] + (between + [true])) == Feed(Shifts(0x80, |between| + 1), true)
  {
    assert ([true] + (between + [true]))[1..] == between + [true];
    FeedAllAppend(Feed(0, true), between, [true]);
    QuietShifts(Feed(0, true), between);
  }

  lemma FlippedBack(crc: bv8)
    ensures Feed(crc, true) == 0 <==> crc == 0x80
  {
    ShiftZero(crc ^ 0x80);
    XorZero(crc, 0x80);
  }

  lemma TwoFlips(d: Bits, i: nat, j: nat)
    requires i < j < |d| && d[i] && d[j]
    requires forall k :: 0 <= k < |d| && k != i && k != j ==> !d[k]
    ensures FeedAll(0, d) == 0 <==> (j - i) % 127 == 0
  {
    OnlyTheWindowMatters(d, i, j + 1);
    var between := d[i + 1..j];
    assert d[i..j + 1] == [true] + (between + [true]);
    FlipsAtEnds(between);
    FlippedBack(Shifts(0x80, j - i));
    ReturnsExactly(j - i);
  }

  /** Two flipped bits go undetected exactly when their distance is a multiple of 127. */
  lemma TwoFlipsUndetectedExactly(a: seq<bv8>, b: seq<bv8>, i: nat, j: nat)
    requires |a| == |b| && i < j < |MessageBits(a)| == |MessageBits(b)|
    requires forall k :: 0 <= k < |MessageBits(a)| ==> (MessageBits(a)[k] != MessageBits(b)[k] <==> k == i || k == j)
    ensures Crc(a) == Crc(b) <==> (j - i) % 127 == 0
  {
    DetectedByDifference(a, b);
    DifferenceAt(MessageBits(a), MessageBits(b));
    TwoFlips(Difference(MessageBits(a), MessageBits(b)), i, j);
  }

  lemma {:induction false} DifferenceAt(a: Bits, b: Bits)
    requires |a| == |b|
    ensures forall k :: 0 <= k < |a| ==> Difference(a, b)[k] == (a[k] != b[k])
  {
    if a != [] {
      DifferenceAt(a[1..], b[1..]);
    }
  }

  // ---------- Bursts of at most eight bits ----------

  /** Ones in the low 8 - n bits. */
  function LowBits(n: nat): bv8 {
    if n == 0 then 0xff else if n == 1 then 0x7f else if n == 2 then 0x3f else if n == 3 then 0x1f
    else if n == 4 then 0x0f else if n == 5 then 0x07 else if n == 6 then 0x03 else if n == 7 then 0x01 else 0x00
  }

  function PackOne(bit: bool, rest: bv8): bv8 {
    if bit then (rest >> 1) | 0x80 else rest >> 1
  }

  /** At most eight bits as the top bits of a byte. */
  function Pack(w: Bits): bv8 {
    if w == [] then 0 else PackOne(w[0], Pack(w[1..]))
  }

  lemma PackOneTop(bit: bool, rest: bv8, low: bv8)
    requires rest & low == 0 && low & 1 == 1
    ensures PackOne(bit, rest) << 1 == rest
    ensures PackOne(bit, rest) & 0x80 != 0 <==> bit
    ensures PackOne(bit, rest) & (low >> 1) == 0
  {
  }

  predicate Above(b: bv8, n: nat) {
    b & LowBits(n) == 0
  }

  lemma PackOneAbove(bit: bool, rest: bv8, n: nat)
    requires n < 8 && Above(rest, n)
    ensures Above(PackOne(bit, rest), n + 1)
    ensures PackOne(bit, rest) << 1 == rest
    ensures PackOne(bit, rest) & 0x80 != 0 <==> bit
  {
    PackOneTop(bit, rest, LowBits(n));
  }

  /** The byte consists of w and nothing below it. */
  predicate Holds(b: bv8, w: Bits) {
    TopBits(b, |w|) == w && Left(b, |w|) == 0
  }

  lemma UnpackOne(b: bv8, bit: bool, rest: bv8, w: Bits)
    requires b << 1 == rest && (b & 0x80 != 0 <==> bit) && Holds(rest, w)
    ensures Holds(b, [bit] + w)
  {
    assert |[bit] + w| == |w| + 1;
  }

  lemma {:induction false} PackAbove(w: Bits)
    requires |w| <= 8
    ensures Above(Pack(w), |w|)
  {
    if w != [] {
      PackAbove(w[1..]);
      PackOneAbove(w[0], Pack(w[1..]), |w| - 1);
    }
  }

  lemma {:induction false} PackHolds(w: Bits)
    requires |w| <= 8
    ensures Holds(Pack(w), w)
  {
    if w != [] {
      PackHolds(w[1..]);
      PackAbove(w[1..]);
      PackOneAbove(w[0], Pack(w[1..]), |w| - 1);
      UnpackOne(PackOne(w[0], Pack(w[1..])), w[0], Pack(w[1..]), w[1..]);
      assert w == [w[0]] + w[1..];
    }
  }

  lemma {:induction false} NoTopBits(n: nat)
    ensures Quiet(TopBits(0, n))
    decreases n
  {
    if n > 0 {
      NoTopBits(n - 1);
    }
  }

  lemma ShortErrorSeen(w: Bits)
    requires |w| <= 8 && !Quiet(w)
    ensures FeedAll(0, w) != 0
  {
    PackHolds(w);
    NoTopBits(|w|);
    BitsAtOnce(0, Pack(w), |w|);
    ShiftsZero(Pack(w), |w|);
    XorZero(0, Pack(w));
  }

  lemma BurstSeen(d: Bits, start: nat, k: nat)
    requires k < |d| && d[k]
    requires forall i :: 0 <= i < |d| && d[i] ==> start <= i < start + 8
    ensures FeedAll(0, d) != 0
  {
    var end := if start + 8 <= |d| then start + 8 else |d|;
    OnlyTheWindowMatters(d, start, end);
    assert d[start..end][k - start];
    ShortErrorSeen(d[start..end]);
  }

  lemma {:induction false} SomeDifference(a: Bits, b: Bits) returns (k: nat)
    requires |a| == |b| && a != b
    ensures k < |a| && a[k] != b[k]
  {
    if a[0] != b[0] {
      k := 0;
    } else {
      assert a == [a[0]] + a[1..] && b == [b[0]] + b[1..];
      k := SomeDifference(a[1..], b[1..]);
      k := k + 1;
    }
  }

  /** Any corruption confined to eight consecutive bits, wherever they start, is detected. */
  lemma BurstDetected(a: seq<bv8>, b: seq<bv8>, start: nat)
    requires |a| == |b| && MessageBits(a) != MessageBits(b) && |MessageBits(a)| == |MessageBits(b)|
    requires forall k :: 0 <= k < |MessageBits(a)| && MessageBits(a)[k] != MessageBits(b)[k] ==> start <= k < start + 8
    ensures Crc(a) != Crc(b)
  {
    DetectedByDifference(a, b);
    DifferenceAt(MessageBits(a), MessageBits(b));
    var k := SomeDifference(MessageBits(a), MessageBits(b));
    BurstSeen(Difference(MessageBits(a), MessageBits(b)), start, k);
  }

  /** x^8 + x^2 + x + 1 as an error pattern. */
  const GENERATOR: Bits := [true, false, false, false, false, false, true, true, true]

  lemma GeneratorBits()
    ensures Holds(0x83, GENERATOR[..8]) && Shifts(0x83, 8) == 0x80 && GENERATOR == GENERATOR[..8] + [true]
  {
    ByteShiftedOut(0x83);
    assert TopBits(0x83, 8) == [true] + TopBits(0x06, 7);
    assert TopBits(0x06, 7) == [false, false] + TopBits(0x18, 5);
    assert TopBits(0x18, 5) == [false, false] + TopBits(0x60, 3);
    assert TopBits(0x60, 3) == [false, true, true];
  }

  lemma FedLast(w: Bits, last: bool)
    ensures FeedAll(0, w + [last]) == 0 <==> FeedAll(0, w) == (if last then 0x80 else 0)
  {
    FeedAllAppend(0, w, [last]);
    ShiftZero(Mixed(FeedAll(0, w), last));
    XorZero(FeedAll(0, w), 0x80);
  }

  lemma FedToTop(w: Bits)
    requires |w| == 8
    ensures FeedAll(0, w) == 0x80 <==> w == GENERATOR[..8]
  {
    GeneratorBits();
    PackHolds(w);
    FedByte(w, Pack(w));
    FedByte(GENERATOR[..8], 0x83);
    ShiftsInjective(Pack(w), 0x83, 8);
    SameByte(Pack(w), w, GENERATOR[..8]);
  }

  lemma SameByte(b: bv8, w: Bits, v: Bits)
    requires Holds(b, w) && |w| == |v|
    ensures Holds(b, v) <==> w == v
  {
  }

  lemma FedByte(w: Bits, b: bv8)
    requires Holds(b, w)
    ensures FeedAll(0, w) == Shifts(b, |w|)
  {
    BitsAtOnce(0, b, |w|);
    ZeroXor(b);
  }

  lemma FedToZero(w: Bits)
    requires |w| <= 8
    ensures FeedAll(0, w) == 0 <==> Quiet(w)
  {
    if Quiet(w) {
      QuietShifts(0, w);
      ShiftsZero(0, |w|);
    } else {
      ShortErrorSeen(w);
    }
  }

  lemma SplitLast(w: Bits, last: bool, v: Bits, end: bool)
    requires |w| == |v|
    ensures w + [last] == v + [end] <==> w == v && last == end
  {
    if w + [last] == v + [end] {
      assert w == (w + [last])[..|w|] == v;
      assert last == (w + [last])[|w|] == end;
    }
  }

  /** Nine bits feed the register to zero exactly when they are the generator. */
  lemma NineBits(w: Bits, last: bool)
    requires |w| == 8
    ensures FeedAll(0, w + [last]) == 0 <==> (Quiet(w) && !last) || w + [last] == GENERATOR
  {
    FedLast(w, last);
    GeneratorBits();
    SplitLast(w, last, GENERATOR[..8], true);
    if last {
      FedToTop(w);
    } else {
      FedToZero(w);
    }
  }

  lemma ZeroXor(x: bv8)
    ensures 0 ^ x == x
  {
  }

  /** A corruption confined to nine consecutive bits is missed exactly when it is the
      generator itself. */
  lemma NineBitBurstMissedExactly(a: seq<bv8>, b: seq<bv8>, start: nat)
    requires |a| == |b| && start + 9 <= |MessageBits(a)| == |MessageBits(b)| && MessageBits(a) != MessageBits(b)
    requires forall k :: 0 <= k < |MessageBits(a)| && MessageBits(a)[k] != MessageBits(b)[k] ==> start <= k < start + 9
    ensures Crc(a) == Crc(b) <==> Difference(MessageBits(a), MessageBits(b))[start..start + 9] == GENERATOR
  {
    DetectedByDifference(a, b);
    DifferenceAt(MessageBits(a), MessageBits(b));
    var k := SomeDifference(MessageBits(a), MessageBits(b));
    var d := Difference(MessageBits(a), MessageBits(b));
    WindowHolds(d, start, k);
    NineBitsWithin(d, start, d[start..start + 9]);
  }

  lemma NineBitsWithin(d: Bits, start: nat, w: Bits)
    requires start + 9 <= |d| && Within(d, start, start + 9) && w == d[start..start + 9] && !Quiet(w)
    ensures FeedAll(0, d) == 0 <==> w == GENERATOR
  {
    OnlyTheWindowMatters(d, start, start + 9);
    NineBitWindow(w);
  }

  lemma NineBitWindow(w: Bits)
    requires |w| == 9 && !Quiet(w)
    ensures FeedAll(0, w) == 0 <==> w == GENERATOR
  {
    assert w == w[..8] + [w[8]];
    var k :| 0 <= k < 9 && w[k];
    assert k < 8 ==> w[..8][k];
    NineBits(w[..8], w[8]);
  }

  lemma WindowHolds(d: Bits, start: nat, k: nat)
    requires start + 9 <= |d| && k < |d| && d[k] && Within(d, start, start + 9)
    ensures !Quiet(d[start..start + 9])
  {
    assert d[start..start + 9][k - start];
  }

  // ---------- Odd numbers of flipped bits ----------

  function Parity(bits: Bits): bool {
    bits != [] && bits[0] != Parity(bits[1..])
  }

  function Flips(d: Bits): nat {
    if d == [] then 0 else (if d[0] then 1 else 0) + Flips(d[1..])
  }

  function RegisterParity(crc: bv8): bool {
    (crc & 0x80 != 0) != ((crc & 0x40 != 0) != ((crc & 0x20 != 0) != ((crc & 0x10 != 0)
    != ((crc & 0x08 != 0) != ((crc & 0x04 != 0) != ((crc & 0x02 != 0) != (crc & 0x01 != 0)))))))
  }

  lemma FeedParity(crc: bv8, bit: bool)
    ensures RegisterParity(Feed(crc, bit)) == (RegisterParity(crc) != bit)
  {
  }

  lemma {:induction false} FeedAllParity(crc: bv8, bits: Bits)
    ensures RegisterParity(FeedAll(crc, bits)) == (RegisterParity(crc) != Parity(bits))
    decreases |bits|
  {
    if bits != [] {
      FeedParity(crc, bits[0]);
      FeedAllParity(Feed(crc, bits[0]), bits[1..]);
    }
  }

  /** The CRC has the message's bit parity. */
  lemma CrcParity(buffer: seq<bv8>)
    ensures RegisterParity(Crc(buffer)) == Parity(MessageBits(buffer))
  {
    FeedAllParity(0, MessageBits(buffer));
  }

  lemma {:induction false} OddFlips(a: Bits, b: Bits)
    requires |a| == |b|
    ensures Flips(Difference(a, b)) % 2 == 1 <==> Parity(a) != Parity(b)
  {
    if a != [] {
      OddFlips(a[1..], b[1..]);
    }
  }

  /** Any odd number of flipped bits is detected. */
  lemma OddFlipsDetected(a: seq<bv8>, b: seq<bv8>)
    requires |MessageBits(a)| == |MessageBits(b)|
    requires Flips(Difference(MessageBits(a), MessageBits(b))) % 2 == 1
    ensures Crc(a) != Crc(b)
  {
    OddFlips(MessageBits(a), MessageBits(b));
    CrcParity(a);
    CrcParity(b);
  }

  // ---------- Concatenation ----------

  /** A prefix matters only through its CRC. */
  lemma CrcOfConcatenation(a: seq<bv8>, b: seq<bv8>)
    ensures Crc(a + b) == FeedAll(Crc(a), MessageBits(b))
  {
    WordBitsAppend(a, b, 8);
    FeedAllAppend(0, MessageBits(a), MessageBits(b));
  }

  /** The receiver's check: appending a byte gives zero exactly when it is the CRC. */
  lemma AppendedCrcExactly(buffer: seq<bv8>, c: bv8)
    ensures Crc(buffer + [c]) == 0 <==> c == Crc(buffer)
  {
    OneMoreByte(buffer, c);
    ShiftsZero(Crc(buffer) ^ c, 8);
    XorZero(Crc(buffer), c);
  }

  // ---------- The check value ----------

  /** "123456789" */
  const DIGITS: seq<bv8> := [0x31, 0x32, 0x33, 0x34, 0x35, 0x36, 0x37, 0x38, 0x39]

  lemma EightShiftsOf(x: bv8, half: bv8, after: bv8)
    requires FourShifts(x) == half && FourShifts(half) == after
    ensures Shifts(x, 8) == after
  {
    ShiftsAdd(x, 4, 4);
    FourAtOnce(x);
    FourAtOnce(half);
  }

  lemma ThenByte(before: seq<bv8>, b: bv8, crc: bv8, half: bv8, after: bv8)
    requires |before| < 9 && before == DIGITS[..|before|] && DIGITS[|before|] == b
    requires Crc(before) == crc && FourShifts(crc ^ b) == half && FourShifts(half) == after
    ensures Crc(DIGITS[..|before| + 1]) == after
  {
    OneMoreByte(before, b);
    EightShiftsOf(crc ^ b, half, after);
    assert DIGITS[..|before| + 1] == before + [b];
  }

  /** The usual check value of this CRC. */
  lemma CheckValue()
    ensures Crc(DIGITS) == 0xf4
  {
    assert Crc(DIGITS[..0]) == 0x00;
    ThenByte(DIGITS[..0], 0x31, 0x00, 0x19, 0x97);
    ThenByte(DIGITS[..1], 0x32, 0x97, 0x66, 0x72);
    ThenByte(DIGITS[..2], 0x33, 0x72, 0x0c, 0xc0);
    ThenByte(DIGITS[..3], 0x34, 0xc0, 0x6d, 0xc2);
    ThenByte(DIGITS[..4], 0x35, 0xc2, 0x5d, 0xcb);
    ThenByte(DIGITS[..5], 0x36, 0xcb, 0xfd, 0xfd);
    ThenByte(DIGITS[..6], 0x37, 0xfd, 0x84, 0x78);
    ThenByte(DIGITS[..7], 0x38, 0x78, 0x1c, 0xc7);
    ThenByte(DIGITS[..8], 0x39, 0xc7, 0xcd, 0xf4);
    assert DIGITS[..9] == DIGITS;
  }
}
