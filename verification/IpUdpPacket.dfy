/** Building and checking the IPv4/UDP packets of the probes (sections 3.1 of RFC 791 and RFC 768). */
module IpUdpPacket {
  import opened CTypes
  import opened BitOps
  import opened Checksum

  const IPV4_HEADER := 20
  const UDP_HEADER := 8
  const PROTOCOL_UDP := 17

  type Address = a: Bytes | |a| == 4 witness [0, 0, 0, 0]

  /** Who sends what to whom. */
  datatype Flow = Flow(source: Address, destination: Address, sourcePort: uint16, destinationPort: uint16,
                       payload: Bytes)

  function Be16(v: uint16): (b: Bytes)
    ensures |b| == 2 && ReadBe16(b, 0) == v
  {
    [v / 256, v % 256]
  }

  /** A checksum field not filled in yet. */
  const BLANK: Bytes := [0, 0]

  /** The header in front of its checksum. */
  function HeaderStart(size: uint16, identification: uint16): (h: Bytes)
    ensures |h| == 10
  {
    [0x45, 0] + Be16(size) + Be16(identification) + Be16(0x4000) + [64, PROTOCOL_UDP]
  }

  lemma StartBytes(size: uint16, identification: uint16)
    ensures var h := HeaderStart(size, identification);
            && h[0] == 0x45 && h[1] == 0 && h[2] == size / 256 && h[3] == size % 256
            && h[4] == identification / 256 && h[5] == identification % 256
            && h[6] == 0x40 && h[7] == 0 && h[8] == 64 && h[9] == 17
  {}

  function Header(size: uint16, identification: uint16, f: Flow, checksum: Bytes): (h: Bytes)
    requires |checksum| == 2
    ensures |h| == IPV4_HEADER
  {
    HeaderStart(size, identification) + checksum + (f.source + f.destination)
  }

  /** The datagram in front of its checksum. */
  function DatagramStart(f: Flow): (u: Bytes)
    requires |f.payload| <= 65507
    ensures |u| == 6
  {
    Be16(f.sourcePort) + Be16(f.destinationPort) + Be16(UDP_HEADER + |f.payload|)
  }

  function Datagram(f: Flow, checksum: Bytes): (u: Bytes)
    requires |f.payload| <= 65507 && |checksum| == 2
    ensures |u| == UDP_HEADER + |f.payload|
  {
    DatagramStart(f) + checksum + f.payload
  }

  /** The sum under the UDP checksum: pseudo header and datagram. */
  function UdpSum(source: Bytes, destination: Bytes, udp: Bytes): nat {
    WordSum(source) + WordSum(destination) + PROTOCOL_UDP + |udp| + WordSum(udp)
  }

  function PacketSize(f: Flow): nat {
    IPV4_HEADER + UDP_HEADER + |f.payload|
  }

  function HeaderChecksumOf(f: Flow, identification: uint16): uint16
    requires |f.payload| <= 65507
  {
    Complement(WordSum(Header(PacketSize(f), identification, f, BLANK)))
  }

  function UdpChecksumOf(f: Flow): uint16
    requires |f.payload| <= 65507
  {
    NonZero(Complement(UdpSum(f.source, f.destination, Datagram(f, BLANK))))
  }

  function Packet(f: Flow, identification: uint16): (p: Bytes)
    requires |f.payload| <= 65507
    ensures |p| == PacketSize(f)
  {
    Header(PacketSize(f), identification, f, Be16(HeaderChecksumOf(f, identification)))
    + Datagram(f, Be16(UdpChecksumOf(f)))
  }

  /** What the validator accepts when it expects the given flow. */
  predicate Accepts(packet: Bytes, f: Flow) {
    && |packet| >= IPV4_HEADER + UDP_HEADER
    && packet[0] == 0x45 && packet[9] == PROTOCOL_UDP
    && var total := ReadBe16(packet, 2);
    && IPV4_HEADER + UDP_HEADER <= total <= |packet|
    && ReadBe16(packet, 6) % 0x4000 == 0
    && Complement(WordSum(packet[..IPV4_HEADER])) == 0
    && packet[12..16] == f.source && packet[16..20] == f.destination
    && ReadBe16(packet, 20) == f.sourcePort && ReadBe16(packet, 22) == f.destinationPort
    && ReadBe16(packet, 24) == total - IPV4_HEADER == UDP_HEADER + |f.payload|
    && (ReadBe16(packet, 26) != 0 ==>
          Complement(UdpSum(packet[12..16], packet[16..20], packet[IPV4_HEADER..total])) == 0)
    && packet[28..total] == f.payload
  }

  /** A checksum field at an even offset adds itself to the sum. */
  lemma WordSumField(start: Bytes, field: Bytes, rest: Bytes)
    requires |start| % 2 == 0 && |field| == 2
    ensures WordSum(start + field + rest) == WordSum(start) + ReadBe16(field, 0) + WordSum(rest)
  {
    assert start + field + rest == start + (field + rest);
    assert (field + rest)[2..] == rest;
    WordSumConcat(start, field + rest);
  }

  lemma BuiltHeaderSum(f: Flow, identification: uint16)
    requires |f.payload| <= 65507
    ensures var checksum := Be16(HeaderChecksumOf(f, identification));
            Complement(WordSum(Header(PacketSize(f), identification, f, checksum))) == 0
  {
    var start, rest := HeaderStart(PacketSize(f), identification), f.source + f.destination;
    var sum := WordSum(Header(PacketSize(f), identification, f, BLANK));
    WordSumField(start, BLANK, rest);
    WordSumField(start, Be16(Complement(sum)), rest);
    ComplementCancels(sum);
  }

  lemma UdpSumField(f: Flow, checksum: uint16)
    requires |f.payload| <= 65507
    ensures UdpSum(f.source, f.destination, Datagram(f, Be16(checksum)))
         == UdpSum(f.source, f.destination, Datagram(f, BLANK)) + checksum
  {
    WordSumField(DatagramStart(f), BLANK, f.payload);
    WordSumField(DatagramStart(f), Be16(checksum), f.payload);
  }

  lemma BuiltUdpSum(f: Flow)
    requires |f.payload| <= 65507
    ensures Complement(UdpSum(f.source, f.destination, Datagram(f, Be16(UdpChecksumOf(f))))) == 0
  {
    var checksum := UdpChecksumOf(f);
    UdpSumField(f, checksum);
    var sum := UdpSum(f.source, f.destination, Datagram(f, BLANK));
    var total := UdpSum(f.source, f.destination, Datagram(f, Be16(checksum)));
    assert total == sum + NonZero(Complement(sum));
    NonZeroCancels(sum, total);
  }

  /** The fields the validator reads, in a packet made of a header and a datagram. */
  lemma Fields(f: Flow, identification: uint16, headerChecksum: Bytes, udpChecksum: Bytes, tail: Bytes)
    requires |f.payload| <= 65507 && |headerChecksum| == |udpChecksum| == 2
    ensures var h, u := Header(PacketSize(f), identification, f, headerChecksum), Datagram(f, udpChecksum);
            var p := h + u + tail;
            && p[0] == 0x45 && p[9] == PROTOCOL_UDP && ReadBe16(p, 2) == PacketSize(f) && ReadBe16(p, 6) == 0x4000
            && p[..IPV4_HEADER] == h && p[12..16] == f.source && p[16..20] == f.destination
            && ReadBe16(p, 20) == f.sourcePort && ReadBe16(p, 22) == f.destinationPort
            && ReadBe16(p, 24) == UDP_HEADER + |f.payload| && ReadBe16(p, 26) == ReadBe16(udpChecksum, 0)
            && p[IPV4_HEADER..PacketSize(f)] == u && p[28..PacketSize(f)] == f.payload
  {
    var h, u := Header(PacketSize(f), identification, f, headerChecksum), Datagram(f, udpChecksum);
    var p := h + u + tail;
    assert p[..IPV4_HEADER] == h && p[IPV4_HEADER..PacketSize(f)] == u;
    assert forall k | 0 <= k < 20 :: p[k] == h[k];
    assert forall k | 0 <= k < 8 :: p[20 + k] == u[k];
    assert h[12..16] == f.source && h[16..20] == f.destination && u[8..] == f.payload;
    assert p[12..16] == h[12..16] && p[16..20] == h[16..20] && p[28..PacketSize(f)] == u[8..];
  }

  lemma BuiltFields(f: Flow, identification: uint16, tail: Bytes)
    requires |f.payload| <= 65507
    ensures var p, t := Packet(f, identification), Packet(f, identification) + tail;
            && t[0] == 0x45 && t[9] == PROTOCOL_UDP && ReadBe16(t, 2) == PacketSize(f) && ReadBe16(t, 6) == 0x4000
            && t[12..16] == f.source && t[16..20] == f.destination
            && ReadBe16(t, 20) == f.sourcePort && ReadBe16(t, 22) == f.destinationPort
            && ReadBe16(t, 24) == UDP_HEADER + |f.payload| && ReadBe16(t, 26) == ReadBe16(p, 26) != 0
            && t[28..PacketSize(f)] == f.payload
            && t[..IPV4_HEADER] == p[..IPV4_HEADER] && t[IPV4_HEADER..PacketSize(f)] == p[IPV4_HEADER..]
            && Complement(WordSum(p[..IPV4_HEADER])) == 0
            && Complement(UdpSum(f.source, f.destination, p[IPV4_HEADER..])) == 0
  {
    Fields(f, identification, Be16(HeaderChecksumOf(f, identification)), Be16(UdpChecksumOf(f)), tail);
    Fields(f, identification, Be16(HeaderChecksumOf(f, identification)), Be16(UdpChecksumOf(f)), []);
    assert Packet(f, identification) + [] == Packet(f, identification);
    BuiltHeaderSum(f, identification);
    BuiltUdpSum(f);
  }

  /** A built packet, whatever follows it, is accepted exactly for the flow it was built for. */
  lemma BuiltIsAccepted(f: Flow, identification: uint16, tail: Bytes, expected: Flow)
    requires |f.payload| <= 65507
    ensures Accepts(Packet(f, identification) + tail, expected) <==> expected == f
  {
    BuiltFields(f, identification, tail);
  }

  /** Every byte of a built packet but the checksums, which are right: the sums that cover them are nonzero
      multiples of 65535, and the UDP checksum is not zero. */
  lemma BuiltBytes(f: Flow, identification: uint16)
    requires |f.payload| <= 65507
    ensures var p, n := Packet(f, identification), |f.payload|;
            && |p| == 28 + n && p[0] == 0x45 && p[1] == 0
            && 256 * (p[2] as int) + p[3] == 28 + n
            && 256 * (p[4] as int) + p[5] == identification
            && p[6] == 0x40 && p[7] == 0 && p[8] == 64 && p[9] == 17
            && p[12..16] == f.source && p[16..20] == f.destination
            && 256 * (p[20] as int) + p[21] == f.sourcePort && 256 * (p[22] as int) + p[23] == f.destinationPort
            && 256 * (p[24] as int) + p[25] == 8 + n && (p[26] != 0 || p[27] != 0) && p[28..] == f.payload
    ensures var p := Packet(f, identification);
            && WordSum(p[..20]) != 0 && WordSum(p[..20]) % 65535 == 0
            && var sum := UdpSum(p[12..16], p[16..20], p[20..]); sum != 0 && sum % 65535 == 0
  {
    var p := Packet(f, identification);
    BuiltFields(f, identification, []);
    assert p + [] == p;
    ComplementZero(WordSum(p[..20]));
    ComplementZero(UdpSum(f.source, f.destination, p[20..]));
    StartBytes(PacketSize(f), identification);
    assert p[..10] == HeaderStart(PacketSize(f), identification);
    assert forall k | 0 <= k < 10 :: p[k] == p[..10][k];
  }

  // ---------- every packet the validator accepts ----------

  /** The parts of a packet that the validator lets be anything. */
  datatype Free = Free(tos: uint8, identification: Bytes, flags: uint8, ttl: uint8, headerChecksum: Bytes,
                       udpChecksum: Bytes, tail: Bytes)

  function WireStart(f: Flow, x: Free): (h: Bytes)
    requires |f.payload| <= 65507
  {
    [0x45, x.tos] + Be16(28 + |f.payload|) + x.identification + [x.flags, 0, x.ttl, 17]
  }

  function WirePorts(f: Flow): (u: Bytes)
    requires |f.payload| <= 65507
  {
    Be16(f.sourcePort) + Be16(f.destinationPort) + Be16(8 + |f.payload|)
  }

  /** A packet of the flow with these parts. */
  function Wire(f: Flow, x: Free): (p: Bytes)
    requires |f.payload| <= 65507
  {
    WireStart(f, x) + x.headerChecksum + f.source + f.destination + WirePorts(f) + x.udpChecksum + f.payload + x.tail
  }

  /** The fields are as long as they have to be, it is not a fragment, and the checksums are right: the
      sums that cover them are nonzero multiples of 65535, or there is no UDP checksum. */
  ghost predicate Sound(f: Flow, x: Free) {
    && |f.payload| <= 65507 && |x.identification| == |x.headerChecksum| == |x.udpChecksum| == 2 && x.flags % 64 == 0
    && var p, n := Wire(f, x), |f.payload|;
    && |p| >= 28 + n
    && WordSum(p[..20]) != 0 && WordSum(p[..20]) % 65535 == 0
    && (x.udpChecksum == [0, 0]
        || var sum := UdpSum(f.source, f.destination, p[20..28 + n]); sum != 0 && sum % 65535 == 0)
  }

  lemma SplitPacket(p: Bytes, n: nat)
    requires |p| >= 28 + n
    ensures p == p[..10] + p[10..12] + p[12..16] + p[16..20] + p[20..26] + p[26..28] + p[28..28 + n] + p[28 + n..]
  {}

  lemma WireFields(f: Flow, x: Free)
    requires |f.payload| <= 65507 && |x.identification| == |x.headerChecksum| == |x.udpChecksum| == 2
    ensures var p, n := Wire(f, x), |f.payload|;
            && |p| >= 28 + n && p[..10] == WireStart(f, x) && p[10..12] == x.headerChecksum
            && p[12..16] == f.source && p[16..20] == f.destination && p[20..26] == WirePorts(f)
            && p[26..28] == x.udpChecksum && p[28..28 + n] == f.payload && p[28 + n..] == x.tail
  {
    assert |WireStart(f, x)| == 10 && |WirePorts(f)| == 6;
  }

  /** What the validator reads in the first ten bytes, the ports and the checksum. */
  lemma FieldBytes(p: Bytes)
    requires |p| >= 28
    ensures ReadBe16(p, 2) == Join(p[2], p[3]) && ReadBe16(p, 20) == Join(p[20], p[21])
    ensures ReadBe16(p, 6) % 0x4000 == 0 <==> p[6] % 64 == 0 && p[7] == 0
    ensures ReadBe16(p, 26) == 0 <==> p[26..28] == [0, 0]
    ensures p[20..26] == [p[20], p[21], p[22], p[23], p[24], p[25]]
    ensures p[..10] == [p[0], p[1], p[2], p[3], p[4], p[5], p[6], p[7], p[8], p[9]]
  {
    assert p[26..28] == [p[26], p[27]];
  }

  lemma Be16OfJoin(a: uint8, b: uint8, v: uint16)
    ensures Be16(v) == [a, b] <==> Join(a, b) == v
  {}

  lemma StartRead(p: Bytes, f: Flow, x: Free)
    requires |p| >= 28 && |f.payload| <= 65507 && |x.identification| == 2 && x.flags % 64 == 0
    requires p[..10] == WireStart(f, x) && p[20..26] == WirePorts(f)
    ensures p[0] == 0x45 && p[9] == 17 && ReadBe16(p, 2) == 28 + |f.payload| && ReadBe16(p, 6) % 0x4000 == 0
    ensures ReadBe16(p, 20) == f.sourcePort && ReadBe16(p, 22) == f.destinationPort
    ensures ReadBe16(p, 24) == 8 + |f.payload|
  {
    FieldBytes(p);
    Be16OfJoin(p[2], p[3], 28 + |f.payload|);
    Be16OfJoin(p[20], p[21], f.sourcePort);
    Be16OfJoin(p[22], p[23], f.destinationPort);
    Be16OfJoin(p[24], p[25], 8 + |f.payload|);
    assert Be16(28 + |f.payload|) == WireStart(f, x)[2..4] && p[..10][2..4] == [p[2], p[3]];
    assert WirePorts(f)[0..2] == Be16(f.sourcePort) && p[20..26][0..2] == [p[20], p[21]];
    assert WirePorts(f)[2..4] == Be16(f.destinationPort) && p[20..26][2..4] == [p[22], p[23]];
    assert WirePorts(f)[4..6] == Be16(8 + |f.payload|) && p[20..26][4..6] == [p[24], p[25]];
  }

  lemma WireAccepted(f: Flow, x: Free)
    requires Sound(f, x)
    ensures Accepts(Wire(f, x), f)
  {
    var p, n := Wire(f, x), |f.payload|;
    WireFields(f, x);
    StartRead(p, f, x);
    FieldBytes(p);
    ComplementZero(WordSum(p[..20]));
    ComplementZero(UdpSum(f.source, f.destination, p[20..28 + n]));
  }

  lemma AcceptedStart(p: Bytes, f: Flow, x: Free)
    requires Accepts(p, f) && |f.payload| <= 65507
    requires x == Free(p[1], p[4..6], p[6], p[8], p[10..12], p[26..28], p[28 + |f.payload|..])
    ensures p[..10] == WireStart(f, x) && p[20..26] == WirePorts(f)
  {
    FieldBytes(p);
    Be16OfJoin(p[2], p[3], 28 + |f.payload|);
    Be16OfJoin(p[20], p[21], f.sourcePort);
    Be16OfJoin(p[22], p[23], f.destinationPort);
    Be16OfJoin(p[24], p[25], 8 + |f.payload|);
  }

  lemma AcceptedParts(p: Bytes, f: Flow, x: Free)
    requires Accepts(p, f) && |f.payload| <= 65507
    requires x == Free(p[1], p[4..6], p[6], p[8], p[10..12], p[26..28], p[28 + |f.payload|..])
    ensures p == Wire(f, x)
  {
    AcceptedStart(p, f, x);
    SplitPacket(p, |f.payload|);
  }

  lemma AcceptedSound(p: Bytes, f: Flow, x: Free)
    requires Accepts(p, f) && |f.payload| <= 65507 && p == Wire(f, x)
    requires |x.identification| == |x.headerChecksum| == 2 && x.flags == p[6] && x.udpChecksum == p[26..28]
    ensures Sound(f, x)
  {
    FieldBytes(p);
    ComplementZero(WordSum(p[..20]));
    ComplementZero(UdpSum(f.source, f.destination, p[20..28 + |f.payload|]));
  }

  lemma AcceptedIsWire(p: Bytes, f: Flow) returns (x: Free)
    requires Accepts(p, f)
    ensures Sound(f, x) && p == Wire(f, x)
  {
    x := Free(p[1], p[4..6], p[6], p[8], p[10..12], p[26..28], p[28 + |f.payload|..]);
    AcceptedParts(p, f, x);
    AcceptedSound(p, f, x);
  }

  /** The validator accepts a packet for a flow exactly if it is one of that flow, unfragmented and without
      options, whose checksums are right or, for UDP, absent; everything else in it is free. */
  lemma AcceptsExactly(p: Bytes, f: Flow)
    ensures Accepts(p, f) <==> exists x :: Sound(f, x) && p == Wire(f, x)
  {
    if Accepts(p, f) {
      var x := AcceptedIsWire(p, f);
    }
    if exists x :: Sound(f, x) && p == Wire(f, x) {
      var x :| Sound(f, x) && p == Wire(f, x);
      WireAccepted(f, x);
    }
  }

  lemma HeaderChangeRejected(f: Flow, identification: uint16, i: nat, v: uint8, tail: Bytes, expected: Flow)
    requires |f.payload| <= 65507 && i < IPV4_HEADER && v != Packet(f, identification)[i]
    ensures !Accepts(Packet(f, identification)[i := v] + tail, expected)
  {
    var p := Packet(f, identification);
    var h := p[..IPV4_HEADER];
    BuiltFields(f, identification, []);
    assert (p[i := v] + tail)[..IPV4_HEADER] == h[i := v];
    ComplementZero(WordSum(h));
    ComplementZero(WordSum(h[i := v]));
    ChangeBreaksSum(h, i, v, 0);
  }

  lemma ChangeBreaksUdpSum(source: Bytes, destination: Bytes, udp: Bytes, i: nat, v: uint8)
    requires i < |udp| && v != udp[i] && Complement(UdpSum(source, destination, udp)) == 0
    ensures Complement(UdpSum(source, destination, udp[i := v])) != 0
  {
    ComplementZero(UdpSum(source, destination, udp));
    ComplementZero(UdpSum(source, destination, udp[i := v]));
    ChangeBreaksSum(udp, i, v, WordSum(source) + WordSum(destination) + PROTOCOL_UDP + |udp|);
  }

  lemma UntouchedSlice(p: Bytes, i: nat, v: uint8, tail: Bytes, low: nat, high: nat)
    requires low <= high <= |p| && i < |p| && !(low <= i < high)
    ensures (p[i := v] + tail)[low..high] == p[low..high]
  {}

  lemma DatagramChangeRejected(f: Flow, identification: uint16, i: nat, v: uint8, tail: Bytes, expected: Flow)
    requires |f.payload| <= 65507 && IPV4_HEADER <= i < PacketSize(f) && v != Packet(f, identification)[i]
    requires ReadBe16(Packet(f, identification)[i := v], 26) != 0
    ensures !Accepts(Packet(f, identification)[i := v] + tail, expected)
  {
    var p := Packet(f, identification);
    var q, u := p[i := v] + tail, p[IPV4_HEADER..];
    BuiltFields(f, identification, []);
    assert p + [] == p;
    UntouchedSlice(p, i, v, tail, 12, 16);
    UntouchedSlice(p, i, v, tail, 16, 20);
    assert q[2] == p[2] && q[3] == p[3] && q[26] == p[i := v][26] && q[27] == p[i := v][27];
    assert q[IPV4_HEADER..PacketSize(f)] == u[i - IPV4_HEADER := v];
    ChangeBreaksUdpSum(f.source, f.destination, u, i - IPV4_HEADER, v);
  }

  lemma ZeroedFieldAccepted(f: Flow, identification: uint16, q: Bytes, tail: Bytes)
    requires |f.payload| <= 65507 && |q| == PacketSize(f)
    requires forall k | 0 <= k < |q| && k != 26 && k != 27 :: q[k] == Packet(f, identification)[k]
    requires ReadBe16(q, 26) == 0
    ensures Accepts(q + tail, f)
  {
    var hc := Be16(HeaderChecksumOf(f, identification));
    assert q[26] == 0 && q[27] == 0;
    assert q == Header(PacketSize(f), identification, f, hc) + Datagram(f, BLANK);
    Fields(f, identification, hc, BLANK, tail);
    BuiltHeaderSum(f, identification);
  }

  ghost predicate Acceptable(packet: Bytes) {
    exists expected :: Accepts(packet, expected)
  }

  /** A one-byte change is rejected whatever flow the validator expects, unless it turns the UDP
      checksum field into zero, which the validator reads as "no checksum". */
  lemma CorruptionDetected(f: Flow, identification: uint16, i: nat, v: uint8, tail: Bytes)
    requires |f.payload| <= 65507 && i < PacketSize(f) && v != Packet(f, identification)[i]
    ensures var q := Packet(f, identification)[i := v];
            Acceptable(q + tail) <==> ReadBe16(q, 26) == 0
  {
    var q := Packet(f, identification)[i := v];
    BuiltFields(f, identification, []);
    if ReadBe16(q, 26) == 0 {
      ZeroedFieldAccepted(f, identification, q, tail);
    } else {
      forall expected ensures !Accepts(q + tail, expected) {
        if i < IPV4_HEADER {
          HeaderChangeRejected(f, identification, i, v, tail, expected);
        } else {
          DatagramChangeRejected(f, identification, i, v, tail, expected);
        }
      }
    }
  }

  /** A change of byte i to v after which some flow is still accepted. */
  ghost predicate SlipsThrough(packet: Bytes, tail: Bytes, i: nat, v: uint8) {
    i < |packet| && v != packet[i] && Acceptable(packet[i := v] + tail)
  }

  lemma ChecksumField(f: Flow, identification: uint16)
    requires |f.payload| <= 65507
    ensures var p, c := Packet(f, identification), UdpChecksumOf(f); p[26] == c / 256 && p[27] == c % 256 && c != 0
  {
    var h := Header(PacketSize(f), identification, f, Be16(HeaderChecksumOf(f, identification)));
    assert Packet(f, identification)[26..28] == Be16(UdpChecksumOf(f));
  }

  /** Such a change exists exactly for packets with a zero byte in their UDP checksum field. */
  lemma UndetectedChange(f: Flow, identification: uint16, tail: Bytes)
    requires |f.payload| <= 65507
    ensures (exists i, v :: SlipsThrough(Packet(f, identification), tail, i, v))
            <==> UdpChecksumOf(f) < 256 || UdpChecksumOf(f) % 256 == 0
  {
    var p, c := Packet(f, identification), UdpChecksumOf(f);
    BuiltFields(f, identification, []);
    ChecksumField(f, identification);
    if exists i, v :: SlipsThrough(p, tail, i, v) {
      var i, v :| SlipsThrough(p, tail, i, v);
      CorruptionDetected(f, identification, i, v, tail);
      assert i == 26 || i == 27;
    }
    if c < 256 {
      CorruptionDetected(f, identification, 27, 0, tail);
      assert SlipsThrough(p, tail, 27, 0);
    } else if c % 256 == 0 {
      CorruptionDetected(f, identification, 26, 0, tail);
      assert SlipsThrough(p, tail, 26, 0);
    }
  }

  lemma FieldSum(v: uint16)
    ensures WordSum(Be16(v)) == v
  {
    assert Be16(v)[2..] == [];
  }

  /** What the UDP checksum adds up. */
  lemma DatagramSum(f: Flow)
    requires |f.payload| <= 65507
    ensures UdpSum(f.source, f.destination, Datagram(f, BLANK))
         == WordSum(f.source) + WordSum(f.destination) + PROTOCOL_UDP + 2 * (UDP_HEADER + |f.payload|)
            + f.sourcePort + f.destinationPort + WordSum(f.payload)
  {
    var source, destination, size := Be16(f.sourcePort), Be16(f.destinationPort), Be16(UDP_HEADER + |f.payload|);
    FieldSum(f.sourcePort);
    FieldSum(UDP_HEADER + |f.payload|);
    WordSumField(source, destination, size);
    WordSumField(DatagramStart(f), BLANK, f.payload);
  }

  /** Empty datagrams whose checksum is 0x0100. */
  predicate HasZeroByte(f: Flow) {
    f.payload == [] && WordSum(f.source) + WordSum(f.destination) + f.sourcePort + f.destinationPort == 65246
  }

  lemma ZeroByteChecksum(f: Flow)
    requires HasZeroByte(f)
    ensures UdpChecksumOf(f) == 0x0100
  {
    DatagramSum(f);
    FoldIsRemainder(UdpSum(f.source, f.destination, Datagram(f, BLANK)));
  }

  /** Unset addresses, source port 65246, destination port 0. */
  lemma ExampleFlow() returns (f: Flow)
    ensures HasZeroByte(f)
  {
    var unset: Address := [0, 0, 0, 0];
    SumOfFour(unset);
    f := Flow(unset, unset, 65246, 0, []);
  }

  /** There are packets that a change gets through. */
  lemma UndetectedChangeExists(identification: uint16, tail: Bytes) returns (f: Flow)
    ensures HasZeroByte(f) && exists i, v :: SlipsThrough(Packet(f, identification), tail, i, v)
  {
    f := ExampleFlow();
    ZeroByteChecksum(f);
    UndetectedChange(f, identification, tail);
  }

  /** No 32-bit sum over a UDP datagram wraps, nor over an IPv4 header. */
  lemma UdpSumFits(source: Bytes, destination: Bytes, udp: Bytes)
    requires |source| == |destination| == 4 && |udp| <= 65535
    ensures UdpSum(source, destination, udp) < U32
  {
    WordSumBound(source);
    WordSumBound(destination);
    WordSumBound(udp);
  }

  lemma HeaderSumFits(header: Bytes)
    requires |header| == IPV4_HEADER
    ensures WordSum(header) < U32
  {
    WordSumBound(header);
  }

  function Splice(data: Bytes, at: nat, piece: Bytes): (r: Bytes)
    requires at + |piece| <= |data|
    ensures |r| == |data|
  {
    data[..at] + piece + data[at + |piece|..]
  }

  function Zeros(n: nat): Bytes {
    seq(n, _ => 0)
  }

  /** Writing at the end of what is already written. */
  lemma SpliceNext(done: Bytes, left: nat, rest: Bytes, piece: Bytes)
    requires |piece| <= left
    ensures Splice(done + Zeros(left) + rest, |done|, piece) == done + piece + Zeros(left - |piece|) + rest
  {}

  /** Overwriting a field. */
  lemma SpliceField(start: Bytes, field: Bytes, rest: Bytes, piece: Bytes)
    requires |field| == |piece|
    ensures Splice(start + field + rest, |start|, piece) == start + piece + rest
  {}

  method WriteBe16(output: array<uint8>, at: nat, value: uint16)
    requires at + 2 <= output.Length
    modifies output
    ensures output[..] == Splice(old(output[..]), at, Be16(value))
  {
    output[at] := value / 256;
    output[at + 1] := value % 256;
  }

  /** memcpy of `size` bytes. */
  method Copy(output: array<uint8>, at: nat, data: array<uint8>, size: nat)
    requires output != data && at + size <= output.Length && size <= data.Length
    modifies output
    ensures output[..] == Splice(old(output[..]), at, data[..size])
  {
    forall k | 0 <= k < size { output[at + k] := data[k]; }
  }

  method Ipv4Checksum(header: array<uint8>) returns (r: uint16)
    requires header.Length >= IPV4_HEADER
    ensures r == Complement(WordSum(header[..IPV4_HEADER]))
  {
    var sum := ChecksumAdd(0, header, 0, IPV4_HEADER);
    HeaderSumFits(header[..IPV4_HEADER]);
    r := ChecksumFinish(sum);
  }

  method UdpChecksum(source: array<uint8>, sourceAt: nat, destination: array<uint8>, destinationAt: nat,
                     udp: array<uint8>, udpAt: nat, udpSize: nat)
    returns (r: uint16)
    requires sourceAt + 4 <= source.Length && destinationAt + 4 <= destination.Length
    requires udpAt + udpSize <= udp.Length && udpSize <= 65535
    ensures r == Complement(UdpSum(source[sourceAt..sourceAt + 4], destination[destinationAt..destinationAt + 4],
                                   udp[udpAt..udpAt + udpSize]))
  {
    ghost var s := source[sourceAt..sourceAt + 4];
    ghost var d := destination[destinationAt..destinationAt + 4];
    ghost var u := udp[udpAt..udpAt + udpSize];
    UdpSumFits(s, d, u);
    var sum := ChecksumAdd(0, source, sourceAt, 4);
    assert sum == WordSum(s);
    sum := ChecksumAdd(sum, destination, destinationAt, 4);
    assert sum == WordSum(s) + WordSum(d);
    sum := Wrap32(sum + PROTOCOL_UDP);
    sum := Wrap32(sum + udpSize % U16);
    assert sum == WordSum(s) + WordSum(d) + PROTOCOL_UDP + |u|;
    sum := ChecksumAdd(sum, udp, udpAt, udpSize);
    assert sum == UdpSum(s, d, u);
    r := ChecksumFinish(sum);
  }

  /** The bytes of an array the caller may have left out. */
  function Contents(data: array?<uint8>, size: nat): Bytes
    requires data != null ==> size <= data.Length
    reads data
  {
    if data == null then [] else data[..size]
  }

  /** The header up to its checksum, over zeroes. */
  method WriteHeaderStart(output: array<uint8>, packetSize: uint16, identification: uint16,
                          ghost left: nat, ghost rest: Bytes)
    requires left >= 10 && output[..] == Zeros(left) + rest
    modifies output
    ensures output[..] == HeaderStart(packetSize, identification) + Zeros(left - 10) + rest
  {
    output[0] := 0x45;
    output[1] := 0;
    ghost var done: Bytes := [0x45, 0];
    assert output[..] == done + Zeros(left - 2) + rest;
    SpliceNext(done, left - 2, rest, Be16(packetSize));
    WriteBe16(output, 2, packetSize);
    done := done + Be16(packetSize);
    SpliceNext(done, left - 4, rest, Be16(identification));
    WriteBe16(output, 4, identification);
    done := done + Be16(identification);
    SpliceNext(done, left - 6, rest, Be16(0x4000));
    WriteBe16(output, 6, 0x4000);
    done := done + Be16(0x4000);
    ghost var before := output[..];
    output[8] := 64;
    output[9] := PROTOCOL_UDP;
    assert output[..] == Splice(before, 8, [64, PROTOCOL_UDP]);
    SpliceNext(done, left - 8, rest, [64, PROTOCOL_UDP]);
  }

  /** A field left out stays zero. */
  lemma SkipField(done: Bytes, left: nat, rest: Bytes)
    requires left >= 2
    ensures done + Zeros(left) + rest == done + BLANK + Zeros(left - 2) + rest
  {
    assert Zeros(left) == BLANK + Zeros(left - 2);
  }

  lemma NextWritten(before: Bytes, after: Bytes, done: Bytes, left: nat, rest: Bytes, piece: Bytes)
    requires |piece| <= left && before == done + Zeros(left) + rest && after == Splice(before, |done|, piece)
    ensures after == done + piece + Zeros(left - |piece|) + rest
  {
    SpliceNext(done, left, rest, piece);
  }

  lemma Regroup(a: Bytes, b: Bytes, c: Bytes, d: Bytes, e: Bytes)
    ensures a + b + c + d + e == a + (b + c + d + e)
    ensures (a + (b + c + d + e))[..|a + b + c|] == a + (b + c)
  {
    assert a + b + c + d + e == (a + (b + c)) + (d + e);
  }

  lemma AddressesCopied(s1: Bytes, s2: Bytes, s3: Bytes, start: Bytes, source: Bytes, destination: Bytes,
                        left: nat, rest: Bytes)
    requires |start| == 10 && |source| == |destination| == 4 && left >= IPV4_HEADER
    requires s1 == start + Zeros(left - 10) + rest
    requires s2 == Splice(s1, 12, source) && s3 == Splice(s2, 16, destination)
    ensures s3 == start + BLANK + (source + destination + Zeros(left - IPV4_HEADER) + rest)
    ensures s3[..IPV4_HEADER] == start + BLANK + (source + destination)
  {
    var before := start + BLANK;
    SkipField(start, left - 10, rest);
    NextWritten(s1, s2, before, left - 12, rest, source);
    NextWritten(s2, s3, before + source, left - 16, rest, destination);
    Regroup(before, source, destination, Zeros(left - IPV4_HEADER), rest);
  }

  /** The whole header over zeroes, its checksum last. */
  method WriteHeader(output: array<uint8>, source: array<uint8>, destination: array<uint8>,
                     packetSize: uint16, identification: uint16, ghost left: nat, ghost rest: Bytes)
    returns (checksum: uint16)
    requires output != source && output != destination && source.Length >= 4 && destination.Length >= 4
    requires left >= IPV4_HEADER && output[..] == Zeros(left) + rest
    modifies output
    ensures var start := HeaderStart(packetSize, identification);
            && checksum == Complement(WordSum(start + BLANK + (source[..4] + destination[..4])))
            && output[..] == start + Be16(checksum)
                             + (source[..4] + destination[..4] + Zeros(left - IPV4_HEADER) + rest)
  {
    ghost var start := HeaderStart(packetSize, identification);
    WriteHeaderStart(output, packetSize, identification, left, rest);
    ghost var s1 := output[..];
    Copy(output, 12, source, 4);
    ghost var s2 := output[..];
    Copy(output, 16, destination, 4);
    AddressesCopied(s1, s2, output[..], start, source[..4], destination[..4], left, rest);
    checksum := Ipv4Checksum(output);
    SpliceField(start, BLANK, source[..4] + destination[..4] + Zeros(left - IPV4_HEADER) + rest, Be16(checksum));
    WriteBe16(output, 10, checksum);
  }

  lemma PortsWritten(s0: Bytes, s1: Bytes, s2: Bytes, s3: Bytes, done: Bytes, f: Flow, rest: Bytes)
    requires |f.payload| <= 65507 && |done| == IPV4_HEADER && s0 == done + Zeros(UDP_HEADER + |f.payload|) + rest
    requires s1 == Splice(s0, 20, Be16(f.sourcePort)) && s2 == Splice(s1, 22, Be16(f.destinationPort))
    requires s3 == Splice(s2, 24, Be16(UDP_HEADER + |f.payload|))
    ensures s3 == done + DatagramStart(f) + Zeros(2 + |f.payload|) + rest
  {
    var n, a, b := |f.payload|, Be16(f.sourcePort), Be16(f.destinationPort);
    SpliceNext(done, 8 + n, rest, a);
    SpliceNext(done + a, 6 + n, rest, b);
    SpliceNext(done + a + b, 4 + n, rest, Be16(UDP_HEADER + n));
    assert done + a + b + Be16(UDP_HEADER + n) == done + DatagramStart(f);
  }

  lemma PayloadCopied(s3: Bytes, s4: Bytes, done: Bytes, f: Flow, rest: Bytes)
    requires |f.payload| <= 65507 && |done| == IPV4_HEADER
    requires s3 == done + DatagramStart(f) + Zeros(2 + |f.payload|) + rest
    requires s4 == Splice(s3, 28, f.payload)
    ensures s4 == done + Datagram(f, BLANK) + rest
  {
    var before := done + DatagramStart(f) + BLANK;
    assert s3 == before + Zeros(|f.payload|) + rest;
    SpliceNext(before, |f.payload|, rest, f.payload);
    assert s4 == before + f.payload + rest;
  }

  /** The UDP header and payload over zeroes, the checksum still missing. */
  method WriteDatagram(output: array<uint8>, payload: array?<uint8>, payloadSize: nat,
                       sourcePort: uint16, destinationPort: uint16, ghost done: Bytes, ghost f: Flow, ghost rest: Bytes)
    requires payload != output && payloadSize <= 65507
    requires if payload == null then payloadSize == 0 else payloadSize <= payload.Length
    requires f.sourcePort == sourcePort && f.destinationPort == destinationPort
    requires f.payload == Contents(payload, payloadSize)
    requires |done| == IPV4_HEADER && output[..] == done + Zeros(UDP_HEADER + payloadSize) + rest
    modifies output
    ensures output[..] == done + Datagram(f, BLANK) + rest
  {
    ghost var s0 := output[..];
    WriteBe16(output, 20, sourcePort);
    ghost var s1 := output[..];
    WriteBe16(output, 22, destinationPort);
    ghost var s2 := output[..];
    WriteBe16(output, 24, UDP_HEADER + payloadSize);
    ghost var s3 := output[..];
    PortsWritten(s0, s1, s2, s3, done, f, rest);
    if payloadSize != 0 {
      Copy(output, 28, payload, payloadSize);
    } else {
      assert s3 == Splice(s3, 28, []);
    }
    PayloadCopied(s3, output[..], done, f, rest);
  }

  /** memset to zero. */
  method ZeroFill(output: array<uint8>, size: nat)
    requires size <= output.Length
    modifies output
    ensures output[..] == Zeros(size) + old(output[size..])
  {
    forall k | 0 <= k < size { output[k] := 0; }
  }

  lemma HeaderWritten(s: Bytes, f: Flow, identification: uint16, checksum: uint16, rest: Bytes)
    requires |f.payload| <= 65507
    requires s == HeaderStart(PacketSize(f), identification) + Be16(checksum)
                  + (f.source + f.destination + Zeros(UDP_HEADER + |f.payload|) + rest)
    ensures s == Header(PacketSize(f), identification, f, Be16(checksum)) + Zeros(UDP_HEADER + |f.payload|) + rest
  {}

  method BuildHeader(output: array<uint8>, source: array<uint8>, destination: array<uint8>, identification: uint16,
                     size: uint16, ghost f: Flow)
    returns (checksum: uint16)
    requires output != source && output != destination && source.Length >= 4 && destination.Length >= 4
    requires |f.payload| <= 65507 && size == PacketSize(f) <= output.Length
    requires f.source == source[..4] && f.destination == destination[..4]
    modifies output
    ensures checksum == HeaderChecksumOf(f, identification)
    ensures output[..] == Header(size, identification, f, Be16(checksum)) + Zeros(UDP_HEADER + |f.payload|)
                          + old(output[size..])
  {
    ghost var rest := output[size..];
    ZeroFill(output, size);
    checksum := WriteHeader(output, source, destination, size, identification, size, rest);
    HeaderWritten(output[..], f, identification, checksum, rest);
  }

  lemma DatagramAt(s: Bytes, h: Bytes, f: Flow, rest: Bytes)
    requires |f.payload| <= 65507 && |h| == IPV4_HEADER && s == h + Datagram(f, BLANK) + rest
    ensures s[20..PacketSize(f)] == Datagram(f, BLANK)
  {}

  lemma DatagramSealed(before: Bytes, after: Bytes, h: Bytes, f: Flow, checksum: uint16, rest: Bytes)
    requires |f.payload| <= 65507 && |h| == IPV4_HEADER
    requires before == h + Datagram(f, BLANK) + rest && after == Splice(before, 26, Be16(checksum))
    ensures after == h + Datagram(f, Be16(checksum)) + rest
  {
    assert before == (h + DatagramStart(f)) + BLANK + (f.payload + rest);
    SpliceField(h + DatagramStart(f), BLANK, f.payload + rest, Be16(checksum));
  }

  method SealDatagram(output: array<uint8>, source: array<uint8>, destination: array<uint8>, udpSize: uint16,
                      ghost h: Bytes, ghost f: Flow, ghost rest: Bytes)
    returns (stored: uint16)
    requires output != source && output != destination && source.Length >= 4 && destination.Length >= 4
    requires |f.payload| <= 65507 && udpSize == UDP_HEADER + |f.payload| && |h| == IPV4_HEADER
    requires f.source == source[..4] && f.destination == destination[..4]
    requires output[..] == h + Datagram(f, BLANK) + rest
    modifies output
    ensures stored == UdpChecksumOf(f)
    ensures output[..] == h + Datagram(f, Be16(stored)) + rest
  {
    ghost var before := output[..];
    DatagramAt(before, h, f, rest);
    var checksum := UdpChecksum(source, 0, destination, 0, output, 20, udpSize);
    stored := if checksum == 0 then 0xFFFF else checksum;
    WriteBe16(output, 26, stored);
    DatagramSealed(before, output[..], h, f, stored, rest);
  }

  lemma PacketBuilt(s: Bytes, f: Flow, identification: uint16, hc: uint16, uc: uint16, rest: Bytes)
    requires |f.payload| <= 65507
    requires hc == HeaderChecksumOf(f, identification) && uc == UdpChecksumOf(f)
    requires s == Header(PacketSize(f), identification, f, Be16(hc)) + Datagram(f, Be16(uc)) + rest
    ensures s == Packet(f, identification) + rest
  {}

  /** The part of the builder after its checks. */
  method BuildChecked(output: array<uint8>, source: array<uint8>, destination: array<uint8>, identification: uint16,
                      payload: array?<uint8>, sourcePort: uint16, destinationPort: uint16, payloadSize: nat,
                      ghost f: Flow)
    requires output != source && output != destination && output != payload
    requires source.Length >= 4 && destination.Length >= 4 && payloadSize <= 65507
    requires if payload == null then payloadSize == 0 else payloadSize <= payload.Length
    requires f == Flow(source[..4], destination[..4], sourcePort, destinationPort, Contents(payload, payloadSize))
    requires PacketSize(f) <= output.Length
    modifies output
    ensures output[..] == Packet(f, identification) + old(output[PacketSize(f)..])
  {
    var udpSize := UDP_HEADER + payloadSize;
    var size := IPV4_HEADER + udpSize;
    ghost var rest := output[size..];
    var headerChecksum := BuildHeader(output, source, destination, identification, size, f);
    ghost var h := Header(size, identification, f, Be16(headerChecksum));
    WriteDatagram(output, payload, payloadSize, sourcePort, destinationPort, h, f, rest);
    var udpChecksum := SealDatagram(output, source, destination, udpSize, h, f, rest);
    PacketBuilt(output[..], f, identification, headerChecksum, udpChecksum, rest);
  }

  predicate Refused(output: array?<uint8>, outputCapacity: nat, source: array?<uint8>, destination: array?<uint8>,
                    payload: array?<uint8>, payloadSize: nat)
  {
    || output == null || source == null || destination == null || (payload == null && payloadSize != 0)
    || payloadSize > 65507 || outputCapacity < IPV4_HEADER + UDP_HEADER + payloadSize
  }

  method Build(output: array?<uint8>, outputCapacity: nat, source: array?<uint8>, destination: array?<uint8>,
               sourcePort: uint16, destinationPort: uint16, identification: uint16,
               payload: array?<uint8>, payloadSize: nat)
    returns (size: nat)
    requires output != null ==> outputCapacity <= output.Length
    requires output == null || (output != source && output != destination && output != payload)
    requires source != null ==> source.Length >= 4
    requires destination != null ==> destination.Length >= 4
    requires payload != null ==> payloadSize <= payload.Length
    modifies output
    ensures Refused(output, outputCapacity, source, destination, payload, payloadSize) ==>
              size == 0 && (output != null ==> output[..] == old(output[..]))
    ensures !Refused(output, outputCapacity, source, destination, payload, payloadSize) ==>
              var f := Flow(source[..4], destination[..4], sourcePort, destinationPort, Contents(payload, payloadSize));
              size == PacketSize(f) && output[..] == Packet(f, identification) + old(output[size..])
  {
    if output == null || source == null || destination == null || (payload == null && payloadSize != 0)
       || payloadSize > 65507 {
      return 0;
    }
    size := IPV4_HEADER + UDP_HEADER + payloadSize;
    if size > 65535 || outputCapacity < size {
      return 0;
    }
    ghost var f := Flow(source[..4], destination[..4], sourcePort, destinationPort, Contents(payload, payloadSize));
    BuildChecked(output, source, destination, identification, payload, sourcePort, destinationPort, payloadSize, f);
  }

  method SameBytes(a: array<uint8>, at: nat, b: array<uint8>, size: nat) returns (same: bool)
    requires at + size <= a.Length && size <= b.Length
    ensures same <==> a[at..at + size] == b[..size]
  {
    for k := 0 to size
      invariant a[at..at + k] == b[..k]
    {
      if a[at + k] != b[k] {
        assert a[at..at + size][k] != b[..size][k];
        return false;
      }
    }
    return true;
  }

  function ReadAt(data: array<uint8>, at: nat): uint16
    requires at + 2 <= data.Length
    reads data
  {
    Join(data[at], data[at + 1])
  }

  lemma FragmentMask(fragment: uint16)
    ensures And(fragment, 0x3FFF) == fragment % 0x4000
  {
    assert Pow2(7) == 128;
    assert Pow2(14) == 128 * 128;
    AndMask(fragment, 14);
  }

  method Validate(packet: array?<uint8>, packetSize: nat, source: array?<uint8>, destination: array?<uint8>,
                  sourcePort: uint16, destinationPort: uint16, payload: array?<uint8>, payloadSize: nat)
    returns (ok: bool)
    requires packet != null ==> packetSize <= packet.Length
    requires source != null ==> source.Length >= 4
    requires destination != null ==> destination.Length >= 4
    requires payload != null ==> payloadSize <= payload.Length
    ensures ok <==> && packet != null && source != null && destination != null
                    && (payload == null ==> payloadSize == 0)
                    && Accepts(packet[..packetSize], Flow(source[..4], destination[..4], sourcePort, destinationPort,
                                                          Contents(payload, payloadSize)))
  {
    if packet == null || source == null || destination == null || (payload == null && payloadSize != 0)
       || packetSize < IPV4_HEADER + UDP_HEADER || packet[0] != 0x45 || packet[9] != PROTOCOL_UDP {
      return false;
    }
    ghost var p := packet[..packetSize];
    var total, fragment := ReadAt(packet, 2), ReadAt(packet, 6);
    var headerChecksum := Ipv4Checksum(packet);
    var sameSource := SameBytes(packet, 12, source, 4);
    var sameDestination := SameBytes(packet, 16, destination, 4);
    FragmentMask(fragment);
    assert p[..IPV4_HEADER] == packet[..IPV4_HEADER] && p[12..16] == packet[12..16] && p[16..20] == packet[16..20];
    if total < IPV4_HEADER + UDP_HEADER || total > packetSize || And(fragment, 0x3FFF) != 0 || headerChecksum != 0
       || !sameSource || !sameDestination {
      return false;
    }
    var udpSize := ReadAt(packet, 24);
    if ReadAt(packet, 20) != sourcePort || ReadAt(packet, 22) != destinationPort || udpSize != total - IPV4_HEADER
       || udpSize != UDP_HEADER + payloadSize {
      return false;
    }
    assert p[IPV4_HEADER..total] == packet[20..20 + udpSize];
    if ReadAt(packet, 26) != 0 {
      var checksum := UdpChecksum(packet, 12, packet, 16, packet, 20, udpSize);
      if checksum != 0 {
        return false;
      }
    }
    assert p[28..total] == packet[28..28 + payloadSize];
    if payload == null {
      return true;
    }
    ok := SameBytes(packet, 28, payload, payloadSize);
  }
}
