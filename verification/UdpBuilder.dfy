/** The UDP-over-IP datagram builders of the raw-send tool, and their round trip through both parsers. */
module UdpBuilder {
  import opened Base
  import opened Addresses
  import opened InternetChecksum
  import opened IpDatagram

  const UDP: byte := 17

  datatype Flow<A> = Flow(source: A, destination: A, sourcePort: u16, destinationPort: u16)

  // ----- Wire images, written as concatenated fields -----

  function Ipv4Header(f: Flow<Ipv4Addr>, totalLen: u16, ttl: byte, checksum: u16): (h: seq<byte>)
    ensures |h| == 20
  {
    [0x45, 0] + Be16(totalLen) + [0, 0, 0, 0, ttl, UDP] + Be16(checksum) + f.source + f.destination
  }

  function Ipv6Header(f: Flow<Ipv6Addr>, payloadLen: u16, hopLimit: byte): (h: seq<byte>)
    ensures |h| == 40
  {
    [0x60, 0, 0, 0] + Be16(payloadLen) + [UDP, hopLimit] + f.source + f.destination
  }

  function UdpPacket<A>(f: Flow<A>, payload: seq<byte>, checksum: u16): (p: seq<byte>)
    requires 8 + |payload| <= 0xffff
    ensures |p| == 8 + |payload|
  {
    Be16(f.sourcePort) + Be16(f.destinationPort) + Be16(8 + |payload|) + Be16(checksum) + payload
  }

  /** Pseudo-header of RFC 768, followed by the packet. */
  function PseudoV4(f: Flow<Ipv4Addr>, packet: seq<byte>): (p: seq<byte>)
    requires |packet| <= 0xffff
    ensures |p| == 12 + |packet|
  {
    f.source + f.destination + [0, UDP] + Be16(|packet|) + packet
  }

  /** Pseudo-header of section 8.1 of RFC 8200, followed by the packet. */
  function PseudoV6(f: Flow<Ipv6Addr>, packet: seq<byte>): (p: seq<byte>)
    requires |packet| <= 0xffff
    ensures |p| == 40 + |packet|
  {
    f.source + f.destination + ([0, 0] + Be16(|packet|)) + [0, 0, 0, UDP] + packet
  }

  function NormalizeUdpChecksum(checksum: u16): u16 {
    if checksum == 0 then 0xffff else checksum
  }

  function UdpChecksumV4(f: Flow<Ipv4Addr>, payload: seq<byte>): u16
    requires 8 + |payload| <= 0xffff
  {
    NormalizeUdpChecksum(Checksum(PseudoV4(f, UdpPacket(f, payload, 0))))
  }

  function UdpChecksumV6(f: Flow<Ipv6Addr>, payload: seq<byte>): u16
    requires 8 + |payload| <= 0xffff
  {
    NormalizeUdpChecksum(Checksum(PseudoV6(f, UdpPacket(f, payload, 0))))
  }

  function Ipv4UdpDatagram(f: Flow<Ipv4Addr>, payload: seq<byte>, ttl: byte): (d: seq<byte>)
    requires 28 + |payload| <= 0xffff
    ensures |d| == 28 + |payload|
  {
    Ipv4Header(f, 28 + |payload|, ttl, Checksum(Ipv4Header(f, 28 + |payload|, ttl, 0)))
    + UdpPacket(f, payload, UdpChecksumV4(f, payload))
  }

  function Ipv6UdpDatagram(f: Flow<Ipv6Addr>, payload: seq<byte>, hopLimit: byte): (d: seq<byte>)
    requires 8 + |payload| <= 0xffff
    ensures |d| == 48 + |payload|
  {
    Ipv6Header(f, 8 + |payload|, hopLimit) + UdpPacket(f, payload, UdpChecksumV6(f, payload))
  }

  // ----- The builders, writing slices of a zeroed buffer -----

  /** Copies `s` right behind the part of the buffer that starts at `from`. */
  method CopyNext(a: array<byte>, ghost from: nat, at: nat, s: seq<byte>)
    requires from <= at && at + |s| <= a.Length
    modifies a
    ensures a[..from] == old(a[..from])
    ensures a[from..at + |s|] == old(a[from..at]) + s
    ensures a[at + |s|..] == old(a[at + |s|..])
  {
    forall i | 0 <= i < |s| {
      a[at + i] := s[i];
    }
  }

  method PseudoChecksumV4(f: Flow<Ipv4Addr>, packet: seq<byte>) returns (checksum: u16)
    requires |packet| <= 0xffff
    ensures checksum == NormalizeUdpChecksum(Checksum(PseudoV4(f, packet)))
  {
    var pseudo: seq<byte> := f.source;
    pseudo := pseudo + f.destination;
    pseudo := pseudo + [0];
    pseudo := pseudo + [UDP];
    pseudo := pseudo + Be16(|packet|);
    pseudo := pseudo + packet;
    assert pseudo == PseudoV4(f, packet);
    WordSumBound(pseudo);
    var raw := OnesComplementChecksum(pseudo);
    checksum := NormalizeUdpChecksum(raw);
  }

  method PseudoChecksumV6(f: Flow<Ipv6Addr>, packet: seq<byte>) returns (checksum: u16)
    requires |packet| <= 0xffff
    ensures checksum == NormalizeUdpChecksum(Checksum(PseudoV6(f, packet)))
  {
    var pseudo: seq<byte> := f.source;
    pseudo := pseudo + f.destination;
    pseudo := pseudo + ([0, 0] + Be16(|packet|));
    pseudo := pseudo + [0, 0, 0, UDP];
    pseudo := pseudo + packet;
    assert pseudo == PseudoV6(f, packet);
    WordSumBound(pseudo);
    var raw := OnesComplementChecksum(pseudo);
    checksum := NormalizeUdpChecksum(raw);
  }

  method WriteUdpPacket<A>(a: array<byte>, at: nat, f: Flow<A>, payload: seq<byte>)
    requires 8 + |payload| <= 0xffff && at + 8 + |payload| == a.Length
    modifies a
    ensures a[..at] == old(a[..at])
    ensures a[at..] == UdpPacket(f, payload, 0)
  {
    CopyNext(a, at, at, Be16(f.sourcePort));
    assert a[at..at + 2] == Be16(f.sourcePort);
    CopyNext(a, at, at + 2, Be16(f.destinationPort));
    CopyNext(a, at, at + 4, Be16(8 + |payload|));
    CopyNext(a, at, at + 6, Be16(0));
    CopyNext(a, at, at + 8, payload);
    assert a[at..] == a[at..at + 8 + |payload|];
  }

  /** Stores a 16-bit field and reports its effect on the part of the buffer from `start` to `end`. */
  method StoreField(a: array<byte>, ghost start: nat, ghost end: nat, at: nat, field: u16)
    requires start <= at && at + 2 <= end <= a.Length
    modifies a
    ensures a[start..end] == WithChecksum(old(a[start..end]), at - start, field)
    ensures a[..start] == old(a[..start]) && a[end..] == old(a[end..])
  {
    a[at] := field / 0x100;
    a[at + 1] := field % 0x100;
  }

  lemma UdpPacketWithChecksum<A>(f: Flow<A>, payload: seq<byte>, checksum: u16)
    requires 8 + |payload| <= 0xffff
    ensures WithChecksum(UdpPacket(f, payload, 0), 6, checksum) == UdpPacket(f, payload, checksum)
  {
  }

  lemma Ipv4HeaderWithChecksum(f: Flow<Ipv4Addr>, totalLen: u16, ttl: byte, checksum: u16)
    ensures WithChecksum(Ipv4Header(f, totalLen, ttl, 0), 10, checksum) == Ipv4Header(f, totalLen, ttl, checksum)
  {
  }

  method WriteIpv4Header(a: array<byte>, f: Flow<Ipv4Addr>, totalLen: u16, ttl: byte)
    requires a.Length >= 20 && forall i :: 0 <= i < 20 ==> a[i] == 0
    modifies a
    ensures a[..20] == Ipv4Header(f, totalLen, ttl, 0)
  {
    a[0] := 0x45;
    assert a[0..2] == [0x45, 0];
    CopyNext(a, 0, 2, Be16(totalLen));
    a[8] := ttl;
    a[9] := UDP;
    assert a[0..10] == a[0..4] + [0, 0, 0, 0, ttl, UDP];
    assert a[0..12] == a[0..10] + Be16(0);
    CopyNext(a, 0, 12, f.source);
    CopyNext(a, 0, 16, f.destination);
    assert a[..20] == a[0..20];
  }

  method WriteIpv6Header(a: array<byte>, f: Flow<Ipv6Addr>, payloadLen: u16, hopLimit: byte)
    requires a.Length >= 40 && forall i :: 0 <= i < 40 ==> a[i] == 0
    modifies a
    ensures a[..40] == Ipv6Header(f, payloadLen, hopLimit)
  {
    a[0] := 0x60;
    assert a[0..4] == [0x60, 0, 0, 0];
    CopyNext(a, 0, 4, Be16(payloadLen));
    a[6] := UDP;
    a[7] := hopLimit;
    assert a[0..8] == a[0..6] + [UDP, hopLimit];
    CopyNext(a, 0, 8, f.source);
    CopyNext(a, 0, 24, f.destination);
    assert a[..40] == a[0..40];
  }

  method BuildIpv4UdpDatagram(f: Flow<Ipv4Addr>, payload: seq<byte>, ttl: byte) returns (r: Option<seq<byte>>)
    ensures r.Some? <==> 28 + |payload| <= 0xffff
    ensures r.Some? ==> r.value == Ipv4UdpDatagram(f, payload, ttl)
  {
    var totalLen := 20 + 8 + |payload|;
    if totalLen > 0xffff {
      return None;
    }
    var datagram := new byte[totalLen](_ => 0);
    WriteIpv4Header(datagram, f, totalLen, ttl);
    WriteUdpPacket(datagram, 20, f, payload);

    var udpChecksum := PseudoChecksumV4(f, datagram[20..]);
    UdpPacketWithChecksum(f, payload, udpChecksum);
    assert datagram[20..] == datagram[20..totalLen];
    StoreField(datagram, 20, totalLen, 26, udpChecksum);

    WordSumBound(datagram[..20]);
    var headerChecksum := OnesComplementChecksum(datagram[..20]);
    Ipv4HeaderWithChecksum(f, totalLen, ttl, headerChecksum);
    assert datagram[..20] == datagram[0..20] && datagram[20..] == datagram[20..totalLen];
    StoreField(datagram, 0, 20, 10, headerChecksum);
    assert datagram[..] == datagram[0..20] + datagram[20..];
    return Some(datagram[..]);
  }

  method BuildIpv6UdpDatagram(f: Flow<Ipv6Addr>, payload: seq<byte>, hopLimit: byte) returns (r: Option<seq<byte>>)
    ensures r.Some? <==> 8 + |payload| <= 0xffff
    ensures r.Some? ==> r.value == Ipv6UdpDatagram(f, payload, hopLimit)
  {
    var payloadLen := 8 + |payload|;
    if payloadLen > 0xffff {
      return None;
    }
    var datagram := new byte[40 + payloadLen](_ => 0);
    WriteIpv6Header(datagram, f, payloadLen, hopLimit);
    WriteUdpPacket(datagram, 40, f, payload);

    var udpChecksum := PseudoChecksumV6(f, datagram[40..]);
    UdpPacketWithChecksum(f, payload, udpChecksum);
    assert datagram[40..] == datagram[40..40 + payloadLen];
    StoreField(datagram, 40, 40 + payloadLen, 46, udpChecksum);
    assert datagram[..] == datagram[..40] + datagram[40..40 + payloadLen];
    return Some(datagram[..]);
  }

  // ----- Round trip -----

  lemma Ipv4HeaderVerifies(f: Flow<Ipv4Addr>, totalLen: u16, ttl: byte)
    ensures Checksum(Ipv4Header(f, totalLen, ttl, Checksum(Ipv4Header(f, totalLen, ttl, 0)))) == 0
  {
    var zeroed := Ipv4Header(f, totalLen, ttl, 0);
    var c := Checksum(zeroed);
    Ipv4HeaderWithChecksum(f, totalLen, ttl, c);
    StoredChecksumVerifies(zeroed, 10, c);
  }

  /** The fields of a header image, byte by byte. */
  lemma Ipv4HeaderFields(h: seq<byte>, f: Flow<Ipv4Addr>, totalLen: u16, ttl: byte, checksum: u16)
    requires h == Ipv4Header(f, totalLen, ttl, checksum)
    ensures h[0] == 0x45 && h[1] == 0 && FromBe16(h[2], h[3]) == totalLen && h[8] == ttl && h[9] == UDP
    ensures h[12..16] == f.source && h[16..20] == f.destination
  {
    var len := Be16(totalLen);
    assert h[2] == len[0] && h[3] == len[1];
  }

  lemma Ipv6HeaderFields(h: seq<byte>, f: Flow<Ipv6Addr>, payloadLen: u16, hopLimit: byte)
    requires h == Ipv6Header(f, payloadLen, hopLimit)
    ensures h[0] == 0x60 && h[1] == 0 && FromBe16(h[4], h[5]) == payloadLen && h[6] == UDP && h[7] == hopLimit
    ensures h[8..24] == f.source && h[24..40] == f.destination
  {
    var len := Be16(payloadLen);
    assert h[4] == len[0] && h[5] == len[1];
  }

  lemma UdpFields<A>(p: seq<byte>, f: Flow<A>, payload: seq<byte>, checksum: u16)
    requires 8 + |payload| <= 0xffff && p == UdpPacket(f, payload, checksum)
    ensures p[0..2] == Be16(f.sourcePort) && p[2..4] == Be16(f.destinationPort)
    ensures p[4..6] == Be16(|p|) && p[8..] == payload
  {
  }

  /** A packet behind a header keeps its fields, moved by the header's length. */
  lemma FieldsBehind(h: seq<byte>, p: seq<byte>, d: seq<byte>, k: nat)
    requires d == h + p && k == |h| && |p| >= 8
    ensures d[k..k + 2] == p[0..2] && d[k + 2..k + 4] == p[2..4] && d[k + 4..k + 6] == p[4..6] && d[k + 8..] == p[8..]
  {
  }

  /** A datagram parses by its header alone. */
  lemma Ipv4Parses(d: seq<byte>, h: seq<byte>, source: Ipv4Addr, destination: Ipv4Addr, ttl: byte)
    requires |h| == 20 && |d| >= 20 && d[..20] == h
    requires h[0] == 0x45 && h[1] == 0 && FromBe16(h[2], h[3]) == |d| && h[8] == ttl && h[9] == UDP
    requires h[12..16] == source && h[16..20] == destination && Checksum(h) == 0
    ensures var p := ParsedDatagram(Ipv4, V4(source), V4(destination), UDP, 20, ttl);
            && ParseRawIpDatagram(d) == Some(p)
            && ParseCompleteIpDatagram(d) ==
               (if p.source.IsUnspecified() || p.destination.IsUnspecified() then None
                else Some(CompleteDatagram(p, 0)))
  {
    assert forall i :: 0 <= i < 20 ==> d[i] == h[i];
    assert d[12..16] == h[12..16] && d[16..20] == h[16..20];
    StrictRefinesLenient(d);
  }

  lemma Ipv6Parses(d: seq<byte>, h: seq<byte>, source: Ipv6Addr, destination: Ipv6Addr, hopLimit: byte)
    requires |h| == 40 && |d| >= 40 && d[..40] == h
    requires h[0] == 0x60 && h[1] == 0 && FromBe16(h[4], h[5]) == |d| - 40 && h[6] == UDP && h[7] == hopLimit
    requires h[8..24] == source && h[24..40] == destination
    ensures var p := ParsedDatagram(Ipv6, V6(source), V6(destination), UDP, 40, hopLimit);
            && ParseRawIpDatagram(d) == Some(p)
            && ParseCompleteIpDatagram(d) ==
               (if p.source.IsUnspecified() || p.destination.IsUnspecified() then None
                else Some(CompleteDatagram(p, 0)))
  {
    assert forall i :: 0 <= i < 40 ==> d[i] == h[i];
    assert d[8..24] == h[8..24] && d[24..40] == h[24..40];
  }

  /** Parsing a built IPv4 datagram gives back every argument, and the strict parser agrees exactly
      when both addresses are concrete. */
  lemma Ipv4RoundTrip(f: Flow<Ipv4Addr>, payload: seq<byte>, ttl: byte)
    requires 28 + |payload| <= 0xffff
    ensures var d := Ipv4UdpDatagram(f, payload, ttl);
            var p := ParsedDatagram(Ipv4, V4(f.source), V4(f.destination), UDP, 20, ttl);
            && ParseRawIpDatagram(d) == Some(p)
            && ParseCompleteIpDatagram(d) ==
               (if p.source.IsUnspecified() || p.destination.IsUnspecified() then None
                else Some(CompleteDatagram(p, 0)))
            && d[20..22] == Be16(f.sourcePort) && d[22..24] == Be16(f.destinationPort)
            && d[24..26] == Be16(|d| - 20) && d[28..] == payload
  {
    var d, len := Ipv4UdpDatagram(f, payload, ttl), 28 + |payload|;
    var checksum := Checksum(Ipv4Header(f, len, ttl, 0));
    var h, packet := Ipv4Header(f, len, ttl, checksum), UdpPacket(f, payload, UdpChecksumV4(f, payload));
    assert d == h + packet && d[..20] == h;
    Ipv4HeaderFields(h, f, len, ttl, checksum);
    Ipv4HeaderVerifies(f, len, ttl);
    Ipv4Parses(d, h, f.source, f.destination, ttl);
    UdpFields(packet, f, payload, UdpChecksumV4(f, payload));
    FieldsBehind(h, packet, d, 20);
  }

  lemma Ipv6RoundTrip(f: Flow<Ipv6Addr>, payload: seq<byte>, hopLimit: byte)
    requires 8 + |payload| <= 0xffff
    ensures var d := Ipv6UdpDatagram(f, payload, hopLimit);
            var p := ParsedDatagram(Ipv6, V6(f.source), V6(f.destination), UDP, 40, hopLimit);
            && ParseRawIpDatagram(d) == Some(p)
            && ParseCompleteIpDatagram(d) ==
               (if p.source.IsUnspecified() || p.destination.IsUnspecified() then None
                else Some(CompleteDatagram(p, 0)))
            && d[40..42] == Be16(f.sourcePort) && d[42..44] == Be16(f.destinationPort)
            && d[44..46] == Be16(|d| - 40) && d[48..] == payload
  {
    var d, len := Ipv6UdpDatagram(f, payload, hopLimit), 8 + |payload|;
    var h, packet := Ipv6Header(f, len, hopLimit), UdpPacket(f, payload, UdpChecksumV6(f, payload));
    assert d == h + packet && d[..40] == h;
    Ipv6HeaderFields(h, f, len, hopLimit);
    Ipv6Parses(d, h, f.source, f.destination, hopLimit);
    UdpFields(packet, f, payload, UdpChecksumV6(f, payload));
    FieldsBehind(h, packet, d, 40);
  }

  /** The transmitted UDP checksum is never zero and the receiver's pseudo-header sum verifies, for
      every payload of even or odd length. */
  lemma Ipv4UdpChecksumVerifies(f: Flow<Ipv4Addr>, payload: seq<byte>, ttl: byte)
    requires 28 + |payload| <= 0xffff
    ensures var d := Ipv4UdpDatagram(f, payload, ttl);
            && FromBe16(d[26], d[27]) != 0
            && Checksum(PseudoV4(f, d[20..])) == 0
  {
    var d := Ipv4UdpDatagram(f, payload, ttl);
    var c := UdpChecksumV4(f, payload);
    assert d[20..] == UdpPacket(f, payload, c);
    assert d[26] == d[20..][6] == c / 0x100 && d[27] == d[20..][7] == c % 0x100;
    var zeroed := PseudoV4(f, UdpPacket(f, payload, 0));
    assert PseudoV4(f, UdpPacket(f, payload, c)) == WithChecksum(zeroed, 18, c);
    StoredChecksumVerifies(zeroed, 18, c);
  }

  lemma Ipv6UdpChecksumVerifies(f: Flow<Ipv6Addr>, payload: seq<byte>, hopLimit: byte)
    requires 8 + |payload| <= 0xffff
    ensures var d := Ipv6UdpDatagram(f, payload, hopLimit);
            && FromBe16(d[46], d[47]) != 0
            && Checksum(PseudoV6(f, d[40..])) == 0
  {
    var d := Ipv6UdpDatagram(f, payload, hopLimit);
    var c := UdpChecksumV6(f, payload);
    assert d[40..] == UdpPacket(f, payload, c);
    assert d[46] == d[40..][6] == c / 0x100 && d[47] == d[40..][7] == c % 0x100;
    var zeroed := PseudoV6(f, UdpPacket(f, payload, 0));
    assert PseudoV6(f, UdpPacket(f, payload, c)) == WithChecksum(zeroed, 46, c);
    StoredChecksumVerifies(zeroed, 46, c);
  }
}
