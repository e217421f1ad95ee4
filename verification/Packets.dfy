/** The packets whose encoder and decoder share a layout (package/package.c): the control
    header, the detect request and the detect response, on a little-endian machine. */
module Packets {

  type Byte = b: nat | b < 256
  type Bytes = seq<Byte>

  const SERVER_CONNECTED := 1
  const SERVER_DISCONNECTED := 2
  const AF_INET := 2
  const AF_INET6 := 10
  const TWO_TO_THE_16 := 0x1_0000
  const TWO_TO_THE_32 := 0x1_0000_0000

  /** BIT_4TO8 */
  function TwoNibbles(a: nat, b: nat): Byte {
    16 * (a % 16) + b % 16
  }

  function Little16(x: nat): Bytes {
    [x % 256, x / 256 % 256]
  }

  function Little32(x: nat): Bytes {
    [x % 256, x / 256 % 256, x / 0x1_0000 % 256, x / 0x100_0000 % 256]
  }

  function Read16(p: Bytes, at: nat): nat
    requires at + 2 <= |p|
  {
    (p[at] as nat) + 256 * (p[at + 1] as nat)
  }

  function Read32(p: Bytes, at: nat): nat
    requires at + 4 <= |p|
  {
    Read16(p, at) + 0x1_0000 * Read16(p, at + 2)
  }

  lemma Read16Little(x: nat)
    ensures Read16(Little16(x), 0) == x % TWO_TO_THE_16
  {
    var high := x / 256;
    assert x == 256 * high + x % 256;
    assert high == 256 * (high / 256) + high % 256;
    assert x == TWO_TO_THE_16 * (high / 256) + Read16(Little16(x), 0);
  }

  lemma HighBytes(x: nat)
    ensures x / 0x100_0000 == x / 0x1_0000 / 256
  {
  }

  lemma HighHalf(x: nat)
    ensures x % TWO_TO_THE_32 == x % TWO_TO_THE_16 + 0x1_0000 * (x / 0x1_0000 % TWO_TO_THE_16)
  {
    var high := x / 0x1_0000;
    assert x == 0x1_0000 * high + x % TWO_TO_THE_16;
    assert high == TWO_TO_THE_16 * (high / TWO_TO_THE_16) + high % TWO_TO_THE_16;
  }

  lemma Read32Little(x: nat)
    ensures Read32(Little32(x), 0) == x % TWO_TO_THE_32
    ensures Read16(Little32(x), 0) == x % TWO_TO_THE_16
  {
    Read16Little(x);
    Read16Little(x / 0x1_0000);
    HighBytes(x);
    HighHalf(x);
    assert Little32(x)[2..] == Little16(x / 0x1_0000);
  }

  /** The number of address bytes a packet of family sf carries. */
  function AddressSize(sf: nat): nat {
    if sf == AF_INET then 4 else 16
  }

  /** An address: its family and the sixteen bytes of the union. */
  datatype Address = Address(family: nat, bytes: Bytes) {
    predicate Valid() { |bytes| == 16 }
  }

  /** Equality of what a packet of family sf carries of an address. */
  predicate SameAddress(sf: nat, a: Address, b: Address)
    requires a.Valid() && b.Valid()
  {
    a.family == b.family && a.bytes[..AddressSize(sf)] == b.bytes[..AddressSize(sf)]
  }

  function CopyAddress(sf: nat, into: Address, p: Bytes, at: nat): Bytes
    requires into.Valid() && at + AddressSize(sf) <= |p|
  {
    p[at..at + AddressSize(sf)] + into.bytes[AddressSize(sf)..]
  }

  // ---------- Control header ----------

  datatype ControlHeader = ControlHeader(ver: nat, cmd: nat, spid: nat) {
    predicate Valid() { ver < 256 && spid < TWO_TO_THE_32 }
  }

  function EncodeHeader(h: ControlHeader): Bytes {
    [TwoNibbles(h.ver, h.cmd)] + Little32(h.spid)
  }

  function DecodeHeader(p: Bytes): ControlHeader
    requires |p| >= 5
  {
    ControlHeader(p[0] / 16, p[0] % 16, Read32(p, 1))
  }

  lemma HeaderFields(h: ControlHeader, rest: Bytes)
    requires h.Valid()
    ensures DecodeHeader(EncodeHeader(h) + rest) == ControlHeader(h.ver % 16, h.cmd % 16, h.spid)
  {
    var p := EncodeHeader(h) + rest;
    assert p[1..5] == Little32(h.spid);
    Read32At(p, 1, Little32(h.spid));
    Read32Little(h.spid);
    NibblesBack(h.ver, h.cmd);
  }

  /** A control header survives exactly when version and command fit four bits. */
  lemma HeaderRoundTripExactly(h: ControlHeader, rest: Bytes)
    requires h.Valid()
    ensures DecodeHeader(EncodeHeader(h) + rest) == h <==> h.ver < 16 && h.cmd < 16
  {
    HeaderFields(h, rest);
    Nibble(h.ver);
    Nibble(h.cmd);
  }

  lemma Nibble(a: nat)
    ensures a % 16 == a <==> a < 16
  {
  }

  lemma Read32At(p: Bytes, at: nat, word: Bytes)
    requires |word| == 4 && at + 4 <= |p| && p[at..at + 4] == word
    ensures Read32(p, at) == Read32(word, 0)
  {
  }

  lemma NibblesBack(a: nat, b: nat)
    ensures TwoNibbles(a, b) / 16 == a % 16 && TwoNibbles(a, b) % 16 == b % 16
  {
  }

  // ---------- Detect response ----------

  datatype DetectResponse = DetectResponse(ver: nat, kind: nat, addr: Address) {
    predicate Valid() { ver < 16 && kind < 16 && addr.Valid() }
  }

  function EncodeResponse(sf: nat, r: DetectResponse): Bytes
    requires r.Valid()
  {
    [TwoNibbles(r.ver, r.kind)] + r.addr.bytes[..AddressSize(sf)]
  }

  /** Decoding into an existing structure leaves the address bytes beyond the packet's. */
  function DecodeResponse(sf: nat, into: DetectResponse, p: Bytes): DetectResponse
    requires into.Valid() && |p| >= 1 + AddressSize(sf)
  {
    DetectResponse(p[0] / 16, p[0] % 16, Address(sf, CopyAddress(sf, into.addr, p, 1)))
  }

  predicate SameResponse(sf: nat, a: DetectResponse, b: DetectResponse)
    requires a.addr.Valid() && b.addr.Valid()
  {
    a.ver == b.ver && a.kind == b.kind && SameAddress(sf, a.addr, b.addr)
  }

  /** A detect response survives exactly when its address has the packet's family. */
  lemma ResponseRoundTripExactly(sf: nat, r: DetectResponse, into: DetectResponse, rest: Bytes)
    requires r.Valid() && into.Valid()
    ensures |EncodeResponse(sf, r)| == if sf == AF_INET then 5 else 17
    ensures SameResponse(sf, DecodeResponse(sf, into, EncodeResponse(sf, r) + rest), r) <==> r.addr.family == sf
  {
    var p := EncodeResponse(sf, r) + rest;
    assert p[1..1 + AddressSize(sf)] == r.addr.bytes[..AddressSize(sf)];
    var decoded := DecodeResponse(sf, into, p);
    assert decoded.addr.bytes[..AddressSize(sf)] == r.addr.bytes[..AddressSize(sf)];
  }

  // ---------- Detect request ----------

  datatype DetectRequest = DetectRequest(
    ver: nat, connected: nat, addr: Address, id: nat, mac: Bytes, rateMask: nat, bitsMask: nat, dataPort: nat)
  {
    predicate Valid() {
      && ver < 16 && connected < 16 && addr.Valid() && id < TWO_TO_THE_32 && |mac| == 6
      && rateMask < TWO_TO_THE_16 && bitsMask < 256 && dataPort < TWO_TO_THE_16
    }
  }

  function FirstByte(r: DetectRequest): Byte {
    16 * (r.ver % 16) + (if r.connected != 0 then 8 else 0) + (if r.addr.family == AF_INET6 then 4 else 0)
  }

  function Tail(r: DetectRequest): Bytes
    requires r.Valid()
  {
    Little32(r.id) + r.mac + Little16(r.rateMask) + [r.bitsMask] + Little16(r.dataPort)
  }

  function EncodeRequest(sf: nat, r: DetectRequest): Bytes
    requires r.Valid()
  {
    [FirstByte(r)] + r.addr.bytes[..AddressSize(sf)] + Tail(r)
  }

  /** Only two of the four bytes written for the id are read back. */
  function DecodeRequest(sf: nat, into: DetectRequest, p: Bytes): DetectRequest
    requires into.Valid() && |p| >= 16 + AddressSize(sf)
  {
    var at := 1 + AddressSize(sf);
    DetectRequest(
      p[0] / 16, p[0] / 8 % 2,
      Address(if p[0] / 4 % 2 == 1 then AF_INET6 else AF_INET, CopyAddress(sf, into.addr, p, 1)),
      Read16(p, at), p[at + 4..at + 10], Read16(p, at + 10), p[at + 12], Read16(p, at + 13))
  }

  predicate SameRequest(sf: nat, a: DetectRequest, b: DetectRequest)
    requires a.addr.Valid() && b.addr.Valid()
  {
    && a.ver == b.ver && a.connected == b.connected && SameAddress(sf, a.addr, b.addr) && a.id == b.id
    && a.mac == b.mac && a.rateMask == b.rateMask && a.bitsMask == b.bitsMask && a.dataPort == b.dataPort
  }

  lemma BitFields(ver: nat, connected: nat, six: nat)
    requires ver < 16 && connected < 2 && six < 2
    ensures var b := 16 * ver + 8 * connected + 4 * six;
            b / 16 == ver && b / 8 % 2 == connected && b / 4 % 2 == six
  {
  }

  lemma FirstByteFields(r: DetectRequest)
    requires r.Valid()
    ensures FirstByte(r) / 16 == r.ver
    ensures FirstByte(r) / 8 % 2 == if r.connected != 0 then 1 else 0
    ensures FirstByte(r) / 4 % 2 == if r.addr.family == AF_INET6 then 1 else 0
  {
    BitFields(r.ver, if r.connected != 0 then 1 else 0, if r.addr.family == AF_INET6 then 1 else 0);
  }

  predicate Lies(p: Bytes, at: nat, part: Bytes) {
    at + |part| <= |p| && p[at..at + |part|] == part
  }

  lemma PartOfPart(p: Bytes, at: nat, t: Bytes, i: nat, part: Bytes)
    requires Lies(p, at, t) && Lies(t, i, part)
    ensures Lies(p, at + i, part)
  {
    forall k | 0 <= k < |part|
      ensures p[at + i + k] == part[k]
    {
      assert p[at..at + |t|][i + k] == t[i + k];
      assert t[i..i + |part|][k] == part[k];
    }
  }

  lemma ReadPart(p: Bytes, at: nat, part: Bytes)
    requires Lies(p, at, part) && |part| >= 2
    ensures Read16(p, at) == Read16(part, 0)
  {
    assert p[at] == p[at..at + |part|][0] && p[at + 1] == p[at..at + |part|][1];
  }

  lemma Appended(a: Bytes, b: Bytes, c: Bytes)
    ensures Lies(a + b + c, |a|, b)
  {
  }

  lemma TailParts(r: DetectRequest)
    requires r.Valid()
    ensures |Tail(r)| == 15 && Lies(Tail(r), 0, Little32(r.id)) && Lies(Tail(r), 4, r.mac)
    ensures Lies(Tail(r), 10, Little16(r.rateMask)) && Lies(Tail(r), 12, [r.bitsMask])
    ensures Lies(Tail(r), 13, Little16(r.dataPort))
  {
  }

  lemma Number16(p: Bytes, at: nat, x: nat)
    requires Lies(p, at, Little16(x)) && x < TWO_TO_THE_16
    ensures Read16(p, at) == x
  {
    ReadPart(p, at, Little16(x));
    Read16Little(x);
  }

  lemma LowHalfOfNumber32(p: Bytes, at: nat, x: nat)
    requires Lies(p, at, Little32(x))
    ensures Read16(p, at) == x % TWO_TO_THE_16
  {
    ReadPart(p, at, Little32(x));
    Read32Little(x);
  }

  lemma TailLies(r: DetectRequest, p: Bytes, at: nat)
    requires r.Valid() && Lies(p, at, Tail(r))
    ensures Lies(p, at, Little32(r.id)) && Lies(p, at + 4, r.mac) && Lies(p, at + 10, Little16(r.rateMask))
    ensures Lies(p, at + 12, [r.bitsMask]) && Lies(p, at + 13, Little16(r.dataPort))
  {
    TailParts(r);
    PartOfPart(p, at, Tail(r), 0, Little32(r.id));
    PartOfPart(p, at, Tail(r), 4, r.mac);
    PartOfPart(p, at, Tail(r), 10, Little16(r.rateMask));
    PartOfPart(p, at, Tail(r), 12, [r.bitsMask]);
    PartOfPart(p, at, Tail(r), 13, Little16(r.dataPort));
  }

  lemma TailFields(r: DetectRequest, p: Bytes, at: nat)
    requires r.Valid() && Lies(p, at, Tail(r))
    ensures |Tail(r)| == 15 && at + 15 <= |p|
    ensures Read16(p, at) == r.id % TWO_TO_THE_16 && p[at + 4..at + 10] == r.mac
    ensures Read16(p, at + 10) == r.rateMask && p[at + 12] == r.bitsMask && Read16(p, at + 13) == r.dataPort
  {
    TailLies(r, p, at);
    LowHalfOfNumber32(p, at, r.id);
    Number16(p, at + 10, r.rateMask);
    Number16(p, at + 13, r.dataPort);
    assert p[at + 12..at + 13][0] == r.bitsMask;
  }

  /** What is left of a detect request after encoding and decoding. */
  lemma RequestFields(sf: nat, r: DetectRequest, into: DetectRequest, rest: Bytes)
    requires r.Valid() && into.Valid()
    ensures |EncodeRequest(sf, r)| == if sf == AF_INET then 20 else 32
    ensures var d := DecodeRequest(sf, into, EncodeRequest(sf, r) + rest);
            && d.ver == r.ver && d.connected == (if r.connected != 0 then 1 else 0)
            && d.addr.family == (if r.addr.family == AF_INET6 then AF_INET6 else AF_INET)
            && d.addr.bytes[..AddressSize(sf)] == r.addr.bytes[..AddressSize(sf)]
            && d.id == r.id % TWO_TO_THE_16
            && d.mac == r.mac && d.rateMask == r.rateMask && d.bitsMask == r.bitsMask && d.dataPort == r.dataPort
  {
    var before := [FirstByte(r)] + r.addr.bytes[..AddressSize(sf)];
    var p := EncodeRequest(sf, r) + rest;
    assert p == before + Tail(r) + rest;
    Appended(before, Tail(r), rest);
    TailFields(r, p, |before|);
    FirstByteFields(r);
    assert p[1..1 + AddressSize(sf)] == r.addr.bytes[..AddressSize(sf)];
    var decoded := DecodeRequest(sf, into, p);
    assert decoded.addr.bytes[..AddressSize(sf)] == r.addr.bytes[..AddressSize(sf)];
  }

  /** A detect request survives exactly when it is connected or not (0 or 1), has an IPv4
      or IPv6 address, and its id fits sixteen bits. */
  lemma RequestRoundTripExactly(sf: nat, r: DetectRequest, into: DetectRequest, rest: Bytes)
    requires r.Valid() && into.Valid()
    ensures |EncodeRequest(sf, r)| == if sf == AF_INET then 20 else 32
    ensures SameRequest(sf, DecodeRequest(sf, into, EncodeRequest(sf, r) + rest), r)
            <==> r.connected < 2 && r.addr.family in {AF_INET, AF_INET6} && r.id < TWO_TO_THE_16
  {
    RequestFields(sf, r, into, rest);
    LowHalf(r.id);
  }

  lemma LowHalf(x: nat)
    ensures x % TWO_TO_THE_16 == x <==> x < TWO_TO_THE_16
  {
  }

  /** The smallest id that is cut arrives as 0. */
  lemma IdCut(sf: nat, r: DetectRequest, into: DetectRequest, rest: Bytes)
    requires r.Valid() && into.Valid() && r.id == TWO_TO_THE_16
    ensures DecodeRequest(sf, into, EncodeRequest(sf, r) + rest).id == 0
  {
    RequestFields(sf, r, into, rest);
  }

  /** A disconnected server is announced as a connected one. */
  lemma DisconnectedArrivesConnected(sf: nat, r: DetectRequest, into: DetectRequest, rest: Bytes)
    requires r.Valid() && into.Valid() && r.connected == SERVER_DISCONNECTED
    ensures DecodeRequest(sf, into, EncodeRequest(sf, r) + rest).connected == SERVER_CONNECTED
  {
    RequestFields(sf, r, into, rest);
  }

  // ---------- The packets, byte by byte ----------

  /** The n bytes from `at` on as a number, least significant byte first. */
  function Number(p: Bytes, at: nat, n: nat): nat
    requires at + n <= |p|
    decreases n
  {
    if n == 0 then 0 else (p[at] as nat) + 256 * Number(p, at + 1, n - 1)
  }

  lemma Number16Is(p: Bytes, at: nat)
    requires at + 2 <= |p|
    ensures Number(p, at, 2) == Read16(p, at)
  {
    assert Number(p, at + 1, 1) == p[at + 1] as nat + 256 * Number(p, at + 2, 0);
  }

  lemma TwoMore(p: Bytes, at: nat, n: nat)
    requires at + n + 2 <= |p|
    ensures Number(p, at, n + 2) == Read16(p, at) + 0x1_0000 * Number(p, at + 2, n)
  {
    assert Number(p, at, n + 2) == p[at] as nat + 256 * Number(p, at + 1, n + 1);
  }

  lemma Number32Reads(p: Bytes, at: nat)
    requires at + 4 <= |p|
    ensures Number(p, at, 4) == Read32(p, at)
  {
    Number16Is(p, at + 2);
    TwoMore(p, at, 2);
  }

  lemma Read32Is(p: Bytes, at: nat, word: Bytes, x: nat)
    requires Lies(p, at, word) && word == Little32(x) && x < TWO_TO_THE_32
    ensures Read32(p, at) == x
  {
    Read32Little(x);
    Read32At(p, at, word);
  }

  lemma Number32Is(p: Bytes, at: nat, x: nat)
    requires Lies(p, at, Little32(x)) && x < TWO_TO_THE_32
    ensures Number(p, at, 4) == x
  {
    Read32Is(p, at, Little32(x), x);
    Number32Reads(p, at);
  }

  /** The bytes of a control header. */
  lemma HeaderBytes(h: ControlHeader)
    requires h.Valid()
    ensures var p := EncodeHeader(h);
            |p| == 5 && p[0] / 16 == h.ver % 16 && p[0] % 16 == h.cmd % 16 && Number(p, 1, 4) == h.spid
  {
    NibblesBack(h.ver, h.cmd);
    Number32Is(EncodeHeader(h), 1, h.spid);
  }

  /** The bytes of a detect response. */
  lemma ResponseBytes(sf: nat, r: DetectResponse)
    requires r.Valid()
    ensures var p, at := EncodeResponse(sf, r), if sf == 2 then 5 else 17;
            |p| == at && p[0] / 16 == r.ver && p[0] % 16 == r.kind && p[1..] == r.addr.bytes[..at - 1]
  {
    NibblesBack(r.ver, r.kind);
  }

  lemma LowestBits(r: DetectRequest)
    requires r.Valid()
    ensures FirstByte(r) % 4 == 0
  {
  }

  /** The bytes of a detect request, whose address ends at 5 or 17. */
  lemma RequestBytes(sf: nat, r: DetectRequest)
    requires r.Valid()
    ensures var p, at := EncodeRequest(sf, r), if sf == 2 then 5 else 17;
            && |p| == at + 15
            && p[0] / 16 == r.ver && p[0] / 8 % 2 == (if r.connected != 0 then 1 else 0)
            && p[0] / 4 % 2 == (if r.addr.family == 10 then 1 else 0) && p[0] % 4 == 0
            && p[1..at] == r.addr.bytes[..at - 1]
            && Number(p, at, 4) == r.id && p[at + 4..at + 10] == r.mac
            && Number(p, at + 10, 2) == r.rateMask && p[at + 12] == r.bitsMask && Number(p, at + 13, 2) == r.dataPort
  {
    var p, before := EncodeRequest(sf, r), [FirstByte(r)] + r.addr.bytes[..AddressSize(sf)];
    var at := |before|;
    assert p == before + Tail(r) + [];
    Appended(before, Tail(r), []);
    TailFields(r, p, at);
    TailLies(r, p, at);
    FirstByteFields(r);
    LowestBits(r);
    Number32Is(p, at, r.id);
    Number16Is(p, at + 10);
    Number16Is(p, at + 13);
    assert p[1..at] == before[1..];
  }

  // ---------- The encoders ----------

  /** memcpy */
  method Copy(pack: array<Byte>, ptr: nat, bytes: Bytes) returns (next: nat)
    requires ptr + |bytes| <= pack.Length
    modifies pack
    ensures next == ptr + |bytes| && pack[..next] == old(pack[..ptr]) + bytes
    ensures forall i :: next <= i < pack.Length ==> pack[i] == old(pack[i])
  {
    next := ptr + |bytes|;
    forall i | 0 <= i < |bytes| {
      pack[ptr + i] := bytes[i];
    }
  }

  method ControlHeaderEncode(pack: array<Byte>, ctl: ControlHeader) returns (size: nat)
    requires ctl.Valid() && pack.Length >= 5
    modifies pack
    ensures size == 5 && pack[..size] == EncodeHeader(ctl)
    ensures forall i :: size <= i < pack.Length ==> pack[i] == old(pack[i])
  {
    var ptr := Copy(pack, 0, [TwoNibbles(ctl.ver, ctl.cmd)]);
    size := Copy(pack, ptr, Little32(ctl.spid));
  }

  method DetectResponseEncode(sf: nat, pack: array<Byte>, res: DetectResponse) returns (size: nat)
    requires res.Valid() && pack.Length >= 1 + AddressSize(sf)
    modifies pack
    ensures size == 1 + AddressSize(sf) && pack[..size] == EncodeResponse(sf, res)
    ensures forall i :: size <= i < pack.Length ==> pack[i] == old(pack[i])
  {
    var ptr := Copy(pack, 0, [TwoNibbles(res.ver, res.kind)]);
    size := Copy(pack, ptr, res.addr.bytes[..AddressSize(sf)]);
  }

  method TailEncode(pack: array<Byte>, start: nat, req: DetectRequest) returns (next: nat)
    requires req.Valid() && start + 15 <= pack.Length
    modifies pack
    ensures next == start + 15 && pack[..next] == old(pack[..start]) + Tail(req)
    ensures forall i :: next <= i < pack.Length ==> pack[i] == old(pack[i])
  {
    ghost var before := pack[..start];
    var ptr := Copy(pack, start, Little32(req.id));
    ptr := Copy(pack, ptr, req.mac);
    ptr := Copy(pack, ptr, Little16(req.rateMask));
    ptr := Copy(pack, ptr, [req.bitsMask]);
    next := Copy(pack, ptr, Little16(req.dataPort));
    assert pack[..next] == before + Tail(req);
  }

  method DetectRequestEncode(sf: nat, pack: array<Byte>, req: DetectRequest) returns (size: nat)
    requires req.Valid() && pack.Length >= 16 + AddressSize(sf)
    modifies pack
    ensures size == 16 + AddressSize(sf) && pack[..size] == EncodeRequest(sf, req)
    ensures forall i :: size <= i < pack.Length ==> pack[i] == old(pack[i])
  {
    var ptr := Copy(pack, 0, [FirstByte(req)]);
    ptr := Copy(pack, ptr, req.addr.bytes[..AddressSize(sf)]);
    size := TailEncode(pack, ptr, req);
  }

  // ---------- The decoders ----------

  // The structures that the decoders fill field by field.

  class ControlHeaderFields {
    var ver: nat
    var cmd: nat
    var spid: nat

    constructor () {
      ver, cmd, spid := 0, 0, 0;
    }

    function Value(): ControlHeader
      reads this
    {
      ControlHeader(ver, cmd, spid)
    }
  }

  class DetectResponseFields {
    var ver: nat
    var kind: nat
    var addr: Address

    constructor () {
      ver, kind, addr := 0, 0, Address(0, seq(16, _ => 0));
    }

    function Value(): DetectResponse
      reads this
    {
      DetectResponse(ver, kind, addr)
    }
  }

  class DetectRequestFields {
    var ver: nat
    var connected: nat
    var addr: Address
    var id: nat
    var mac: Bytes
    var rateMask: nat
    var bitsMask: nat
    var dataPort: nat

    constructor () {
      ver, connected, addr, id, mac := 0, 0, Address(0, seq(16, _ => 0)), 0, seq(6, _ => 0);
      rateMask, bitsMask, dataPort := 0, 0, 0;
    }

    function Value(): DetectRequest
      reads this
    {
      DetectRequest(ver, connected, addr, id, mac, rateMask, bitsMask, dataPort)
    }
  }

  method ControlHeaderDecode(ctl: ControlHeaderFields, pack: array<Byte>)
    requires pack.Length >= 5
    modifies ctl
    ensures ctl.Value() == DecodeHeader(pack[..])
  {
    ctl.ver, ctl.cmd := pack[0] / 16, pack[0] % 16;
    ctl.spid := Read32(pack[..], 1);
  }

  method DetectResponseDecode(sf: nat, res: DetectResponseFields, pack: array<Byte>)
    requires res.Value().Valid() && pack.Length >= 1 + AddressSize(sf)
    modifies res
    ensures res.Value() == DecodeResponse(sf, old(res.Value()), pack[..])
  {
    res.ver, res.kind := pack[0] / 16, pack[0] % 16;
    res.addr := res.addr.(bytes := CopyAddress(sf, res.addr, pack[..], 1));
    res.addr := res.addr.(family := sf);
  }

  method DetectRequestDecode(sf: nat, req: DetectRequestFields, pack: array<Byte>)
    requires req.Value().Valid() && pack.Length >= 16 + AddressSize(sf)
    modifies req
    ensures req.Value() == DecodeRequest(sf, old(req.Value()), pack[..])
  {
    req.ver := pack[0] / 16;
    req.connected := pack[0] / 8 % 2;
    req.addr := req.addr.(family := if pack[0] / 4 % 2 == 1 then AF_INET6 else AF_INET);
    var ptr := 1;
    req.addr := req.addr.(bytes := CopyAddress(sf, req.addr, pack[..], ptr));
    ptr := ptr + AddressSize(sf);
    req.id := Read16(pack[..], ptr);
    ptr := ptr + 4;
    req.mac := pack[ptr..ptr + 6];
    ptr := ptr + 6;
    req.rateMask := Read16(pack[..], ptr);
    ptr := ptr + 2;
    req.bitsMask := pack[ptr];
    ptr := ptr + 1;
    req.dataPort := Read16(pack[..], ptr);
  }
}
