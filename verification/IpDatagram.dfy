/** Parsing of complete IP datagrams (lenient and strict) and the in-place TTL patch. */
module IpDatagram {
  import opened Base
  import opened Addresses
  import opened InternetChecksum

  datatype ParsedDatagram = ParsedDatagram(
    family: Family, source: IpAddr, destination: IpAddr, protocol: byte, headerLen: nat, ttl: byte)

  /** What the strict parser adds to the common fields. */
  datatype CompleteDatagram = CompleteDatagram(base: ParsedDatagram, trafficClass: byte)

  // ----- Lenient parser (src/raw/datagram.rs) -----

  function ParseIpv4(d: seq<byte>): Option<ParsedDatagram> {
    if |d| < 20 then None else
    var ihl := d[0] % 16 * 4;
    if ihl < 20 || |d| < ihl then None else
    var totalLen := FromBe16(d[2], d[3]);
    if totalLen < ihl || totalLen != |d| then None else
    Some(ParsedDatagram(Ipv4, V4(d[12..16]), V4(d[16..20]), d[9], ihl, d[8]))
  }

  function ParseIpv6(d: seq<byte>): Option<ParsedDatagram> {
    if |d| < 40 then None else
    if 40 + FromBe16(d[4], d[5]) != |d| then None else
    Some(ParsedDatagram(Ipv6, V6(d[8..24]), V6(d[24..40]), d[6], 40, d[7]))
  }

  function ParseRawIpDatagram(d: seq<byte>): Option<ParsedDatagram> {
    if |d| == 0 then None
    else if d[0] / 16 == 4 then ParseIpv4(d)
    else if d[0] / 16 == 6 then ParseIpv6(d)
    else None
  }

  // ----- Strict parser (src/raw_ip/datagram.rs) -----

  function ParseCompleteIpv4(d: seq<byte>): Option<CompleteDatagram> {
    if |d| < 20 || d[0] / 16 != 4 then None else
    var headerLen := d[0] % 16 * 4;
    if headerLen < 20 || |d| < headerLen then None else
    var totalLen := FromBe16(d[2], d[3]);
    if totalLen != |d| || totalLen < headerLen then None else
    if PairChecksum(d[..headerLen]) != 0 then None else
    var source, destination := V4(d[12..16]), V4(d[16..20]);
    if source.IsUnspecified() || destination.IsUnspecified() then None else
    Some(CompleteDatagram(ParsedDatagram(Ipv4, source, destination, d[9], headerLen, d[8]), d[1]))
  }

  function ParseCompleteIpv6(d: seq<byte>): Option<CompleteDatagram> {
    if |d| < 40 || d[0] / 16 != 6 then None else
    if 40 + FromBe16(d[4], d[5]) != |d| then None else
    var source, destination := V6(d[8..24]), V6(d[24..40]);
    if source.IsUnspecified() || destination.IsUnspecified() then None else
    Some(CompleteDatagram(ParsedDatagram(Ipv6, source, destination, d[6], 40, d[7]), d[0] % 16 * 16 + d[1] / 16))
  }

  function ParseCompleteIpDatagram(d: seq<byte>): Option<CompleteDatagram> {
    if |d| == 0 then None
    else if d[0] / 16 == 4 then ParseCompleteIpv4(d)
    else if d[0] / 16 == 6 then ParseCompleteIpv6(d)
    else None
  }

  /** The strict parser accepts exactly the leniently accepted datagrams that have concrete addresses
      and, for IPv4, a header that verifies; both report the same fields. */
  lemma StrictRefinesLenient(d: seq<byte>)
    ensures ParseCompleteIpDatagram(d).Some? <==>
            && ParseRawIpDatagram(d).Some?
            && var p := ParseRawIpDatagram(d).value;
            && !p.source.IsUnspecified() && !p.destination.IsUnspecified()
            && (p.family == Ipv4 ==> Checksum(d[..p.headerLen]) == 0)
    ensures ParseCompleteIpDatagram(d).Some? ==>
              ParseRawIpDatagram(d) == Some(ParseCompleteIpDatagram(d).value.base)
  {
    if ParseRawIpDatagram(d).Some? {
      var p := ParseRawIpDatagram(d).value;
      ImplementationsAgreeIff(d[..p.headerLen]);
    }
  }

  // ----- TTL / hop-limit override -----

  function ZeroedWithTtl(d: seq<byte>, ttl: byte): seq<byte>
    requires |d| >= 20
  {
    d[8 := ttl][10 := 0][11 := 0]
  }

  function TtlPatched(d: seq<byte>, ttl: byte): (r: seq<byte>)
    requires ParseRawIpDatagram(d).Some?
    ensures |r| == |d|
  {
    var p := ParseRawIpDatagram(d).value;
    if p.family == Ipv4 then
      var z := ZeroedWithTtl(d, ttl);
      WithChecksum(z, 10, Checksum(z[..p.headerLen]))
    else
      d[7 := ttl]
  }

  method ApplyTtlOrHopLimitOverride(d: seq<byte>, parsed: ParsedDatagram, ttl: byte) returns (patched: seq<byte>)
    requires ParseRawIpDatagram(d) == Some(parsed)
    ensures patched == TtlPatched(d, ttl)
  {
    patched := d;
    match parsed.family {
      case Ipv4 =>
        patched := patched[8 := ttl];
        patched := patched[10 := 0];
        patched := patched[11 := 0];
        WordSumBound(patched[..parsed.headerLen]);
        var checksum := OnesComplementChecksum(patched[..parsed.headerLen]);
        patched := patched[10 := checksum / 0x100];
        patched := patched[11 := checksum % 0x100];
      case Ipv6 =>
        patched := patched[7 := ttl];
    }
  }

  predicate SameExcept(d: seq<byte>, r: seq<byte>, changed: set<int>) {
    |r| == |d| && forall i :: 0 <= i < |d| && i !in changed ==> r[i] == d[i]
  }

  function StoredChecksum(d: seq<byte>): u16
    requires |d| >= 20
  {
    FromBe16(d[10], d[11])
  }

  /** Filling the checksum field of a zeroed header: the computed value is the only one that makes the
      header verify without storing the second zero 0xffff. */
  lemma FieldIsUnique(z: seq<byte>, h: nat, c: u16)
    requires 20 <= h <= |z| && z[0] > 0 && z[10] == 0 && z[11] == 0
    ensures c == Checksum(z[..h]) <==> Checksum(WithChecksum(z, 10, c)[..h]) == 0 && c != 0xffff
  {
    var r := WithChecksum(z, 10, c);
    HeaderSumPositive(z[..h]);
    HeaderWithField(z, h, r);
    ChecksumCompletesSum(z[..h], c);
    VerifiesIff(r[..h]);
  }

  predicate IsIpv4Patch(d: seq<byte>, h: nat, ttl: byte, r: seq<byte>)
    requires 20 <= h <= |d|
  {
    && SameExcept(d, r, {8, 10, 11}) && r[8] == ttl
    && Checksum(r[..h]) == 0
    && StoredChecksum(r) != 0xffff
  }

  /** The IPv4 patch is the only datagram that carries the new TTL, differs from the input in the TTL
      and checksum bytes alone, has a header that verifies and does not store 0xffff. */
  lemma Ipv4PatchIsUnique(d: seq<byte>, ttl: byte, r: seq<byte>)
    requires ParseRawIpDatagram(d).Some? && ParseRawIpDatagram(d).value.family == Ipv4
    ensures r == TtlPatched(d, ttl) <==> IsIpv4Patch(d, ParseRawIpDatagram(d).value.headerLen, ttl, r)
  {
    var h := ParseRawIpDatagram(d).value.headerLen;
    var z := ZeroedWithTtl(d, ttl);
    if r == TtlPatched(d, ttl) {
      FieldIsUnique(z, h, Checksum(z[..h]));
    }
    if IsIpv4Patch(d, h, ttl, r) {
      RestoreField(z, r);
      FieldIsUnique(z, h, StoredChecksum(r));
    }
  }

  lemma RestoreField(z: seq<byte>, r: seq<byte>)
    requires |z| >= 20 && SameExcept(z, r, {10, 11})
    ensures r == WithChecksum(z, 10, StoredChecksum(r))
  {
  }

  lemma HeaderSumPositive(h: seq<byte>)
    requires |h| >= 2 && h[0] > 0
    ensures WordSum(h) > 0
  {
  }

  /** Filling the zeroed checksum field of a header adds exactly the stored value to its sum. */
  lemma HeaderWithField(z: seq<byte>, h: nat, r: seq<byte>)
    requires 20 <= h <= |z| && SameExcept(z, r, {10, 11}) && z[10] == 0 && z[11] == 0
    ensures WordSum(r[..h]) == WordSum(z[..h]) + StoredChecksum(r)
  {
    assert r[..h] == z[..h][10 := r[10]][11 := r[11]];
    WordSumReplace(z[..h], 10, r[10], r[11]);
  }

  /** Every other parsed field survives the patch, and only the listed bytes move. */
  lemma OverrideKeepsOtherFields(d: seq<byte>, ttl: byte)
    requires ParseRawIpDatagram(d).Some?
    ensures var p := ParseRawIpDatagram(d).value;
            && ParseRawIpDatagram(TtlPatched(d, ttl)) == Some(p.(ttl := ttl))
            && SameExcept(d, TtlPatched(d, ttl), if p.family == Ipv4 then {8, 10, 11} else {7})
  {
    var p := ParseRawIpDatagram(d).value;
    var t := TtlPatched(d, ttl);
    if p.family == Ipv4 {
      Ipv4PatchIsUnique(d, ttl, t);
      assert t[12..16] == d[12..16] && t[16..20] == d[16..20];
    } else {
      assert t[8..24] == d[8..24] && t[24..40] == d[24..40];
    }
  }

  /** A patched datagram passes the strict parser whenever its addresses are concrete, even if the
      input's own checksum was wrong. */
  lemma OverridePassesStrictParser(d: seq<byte>, ttl: byte)
    requires ParseRawIpDatagram(d).Some?
    ensures var p := ParseRawIpDatagram(d).value;
            var strict := ParseCompleteIpDatagram(TtlPatched(d, ttl));
            if p.source.IsUnspecified() || p.destination.IsUnspecified() then strict == None
            else strict.Some? && strict.value.base == p.(ttl := ttl)
  {
    var t := TtlPatched(d, ttl);
    OverrideKeepsOtherFields(d, ttl);
    StrictRefinesLenient(t);
    if ParseRawIpDatagram(d).value.family == Ipv4 {
      Ipv4PatchIsUnique(d, ttl, t);
    }
  }

  /** The last override wins. */
  lemma OverrideAbsorbs(d: seq<byte>, first: byte, second: byte)
    requires ParseRawIpDatagram(d).Some?
    ensures ParseRawIpDatagram(TtlPatched(d, first)).Some?
    ensures TtlPatched(TtlPatched(d, first), second) == TtlPatched(d, second)
  {
    OverrideKeepsOtherFields(d, first);
    if ParseRawIpDatagram(d).value.family == Ipv4 {
      var once := TtlPatched(d, first);
      var twice := TtlPatched(once, second);
      OverrideKeepsOtherFields(once, second);
      Ipv4PatchIsUnique(once, second, twice);
      Ipv4PatchIsUnique(d, second, twice);
    }
  }

  /** Overriding with the TTL already present is the identity for IPv6, and for IPv4 exactly when the
      header verifies and does not store 0xffff. */
  lemma OverrideWithOwnTtl(d: seq<byte>)
    requires ParseRawIpDatagram(d).Some?
    ensures var p := ParseRawIpDatagram(d).value;
            TtlPatched(d, p.ttl) == d <==>
            (p.family == Ipv4 ==> Checksum(d[..p.headerLen]) == 0 && StoredChecksum(d) != 0xffff)
  {
    var p := ParseRawIpDatagram(d).value;
    if p.family == Ipv4 {
      Ipv4PatchIsUnique(d, p.ttl, d);
    }
  }

  predicate IsSecondZeroExample(d: seq<byte>) {
    d == [0x45, 0, 0, 20, 0, 0, 0, 0, 1, 17, 0xff, 0xff, 1, 1, 1, 1, 0xb7, 0xd8, 0, 0]
  }

  /** A valid header that stores 0xffff: the patch with its own TTL rewrites the field to zero. */
  lemma OwnTtlChangesSecondZero(d: seq<byte>)
    requires IsSecondZeroExample(d)
    ensures ParseCompleteIpDatagram(d).Some?
    ensures ParseRawIpDatagram(d).Some? && TtlPatched(d, ParseRawIpDatagram(d).value.ttl) != d
  {
    assert d[..20] == d;
    SecondZeroSum(d);
    VerifiesIff(d);
    var p := ParsedDatagram(Ipv4, V4(d[12..16]), V4(d[16..20]), 17, 20, 1);
    assert ParseRawIpDatagram(d) == Some(p);
    assert p.source.Octets()[0] != 0 && p.destination.Octets()[0] != 0;
    StrictRefinesLenient(d);
    OverrideWithOwnTtl(d);
  }

  lemma SecondZeroTail(d: seq<byte>)
    requires IsSecondZeroExample(d)
    ensures WordSum(d[10..]) == 0xffff + 0x101 + 0x101 + 0xb7d8
  {
    NextWord(d, 10);
    NextWord(d, 12);
    NextWord(d, 14);
    NextWord(d, 16);
    NextWord(d, 18);
  }

  lemma SecondZeroSum(d: seq<byte>)
    requires IsSecondZeroExample(d)
    ensures WordSum(d) == 2 * 0xffff
  {
    assert d == d[0..];
    NextWord(d, 0);
    NextWord(d, 2);
    NextWord(d, 4);
    NextWord(d, 6);
    NextWord(d, 8);
    SecondZeroTail(d);
  }
}
