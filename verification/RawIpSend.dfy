/** Generic raw-IP sockets on Linux: selection, opening and sending, with the IPv6 socket cache keyed by the
    header fields the kernel fills in. */
module RawIpSend {
  import opened Base
  import opened Addresses
  import opened IpDatagram
  import opened Selectors
  import opened SocketCache

  datatype RawIpConfig = RawIpConfig(
    family: Option<Family>, bindAddr: Option<IpAddr>, interfaceAddr: Option<IpAddr>, interfaceIndex: Option<u32>)

  // ----- Configuration (src/raw_ip/config.rs) -----

  function Validate(config: RawIpConfig): Result<(), MctxError> {
    if config.bindAddr.None? && config.interfaceAddr.None? && config.interfaceIndex.None? then
      Err(RawInterfaceRequired)
    else if config.interfaceIndex == Some(0) then Err(RawInterfaceRequired)
    else if config.bindAddr.Some? && !IsConcrete(config.bindAddr.value) then Err(InvalidRawBindAddress)
    else if config.bindAddr.Some? && config.family.Some?
            && config.family.value != config.bindAddr.value.AddressFamily() then
      Err(RawBindAddressFamilyMismatch)
    else if config.interfaceAddr.Some? && !IsConcrete(config.interfaceAddr.value) then Err(InvalidInterfaceAddress)
    else if config.interfaceAddr.Some? && config.family.Some?
            && config.family.value != config.interfaceAddr.value.AddressFamily() then
      Err(OutgoingInterfaceFamilyMismatch)
    else if config.bindAddr.Some? && config.interfaceAddr.Some?
            && config.bindAddr.value.AddressFamily() != config.interfaceAddr.value.AddressFamily() then
      Err(OutgoingInterfaceFamilyMismatch)
    else if config.family.None? && config.bindAddr.None? && config.interfaceAddr.None? then
      Err(RawPacketTransmitUnsupported)
    else Ok(())
  }

  function ResolvedFamily(config: RawIpConfig): Result<Family, MctxError> {
    if Validate(config).Err? then Err(Validate(config).error)
    else if config.family.Some? then Ok(config.family.value)
    else if config.bindAddr.Some? then Ok(config.bindAddr.value.AddressFamily())
    else if config.interfaceAddr.Some? then Ok(config.interfaceAddr.value.AddressFamily())
    else Err(RawPacketTransmitUnsupported)
  }

  /** Validation settles the family: the last fallback is never taken, and no address contradicts it. */
  lemma ValidConfigHasOneFamily(config: RawIpConfig)
    requires Validate(config).Ok?
    ensures ResolvedFamily(config).Ok?
    ensures config.bindAddr.Some? ==> config.bindAddr.value.AddressFamily() == ResolvedFamily(config).value
    ensures config.interfaceAddr.Some? ==> config.interfaceAddr.value.AddressFamily() == ResolvedFamily(config).value
  {
  }

  // ----- Interface selection -----

  datatype RawIpSelection = RawIpSelection(
    family: Family, bindAddr: Option<IpAddr>, interfaceAddr: Option<IpAddr>, interface: u32)

  function GivenAddresses(bindAddr: Option<IpAddr>, interfaceAddr: Option<IpAddr>): seq<IpAddr> {
    (if bindAddr.Some? then [bindAddr.value] else []) + (if interfaceAddr.Some? then [interfaceAddr.value] else [])
  }

  /** Selectors that agree on one interface agree on no other. */
  lemma AgreementIsUnique(config: RawIpConfig, resolve: Resolver, a: u32, b: u32)
    requires Validate(config).Ok?
    requires Agree(config.interfaceIndex, GivenAddresses(config.bindAddr, config.interfaceAddr), resolve, a)
    requires Agree(config.interfaceIndex, GivenAddresses(config.bindAddr, config.interfaceAddr), resolve, b)
    ensures a == b
  {
    var given := GivenAddresses(config.bindAddr, config.interfaceAddr);
    if given != [] {
      assert given[0] in given;
    }
  }

  /** The configured index, if any, and the given addresses all designate the interface. */
  ghost predicate Agree(index: Option<u32>, addresses: seq<IpAddr>, resolve: Resolver, interface: u32) {
    && (index.Some? ==> index.value == interface)
    && (forall a :: a in addresses ==> resolve(a) == Ok(interface))
  }

  /** Folds the addresses into the configured index: finds the one interface everything agrees on, and fails
      exactly when there is nothing to go by, an address of the wrong family, or no such interface. */
  method CombineSelectors(index: Option<u32>, addresses: seq<IpAddr>, family: Family, resolve: Resolver)
    returns (r: Result<u32, MctxError>)
    ensures r.Ok? ==> Agree(index, addresses, resolve, r.value)
    ensures r.Ok? <==>
            && (index.Some? || addresses != [])
            && (forall a :: a in addresses ==> a.AddressFamily() == family)
            && (exists i: u32 :: Agree(index, addresses, resolve, i))
  {
    var resolved := index;
    for n := 0 to |addresses|
      invariant resolved.None? <==> index.None? && n == 0
      invariant index.Some? ==> resolved == index
      invariant forall k :: 0 <= k < n ==>
                  && addresses[k].AddressFamily() == family
                  && resolved.Some? && resolve(addresses[k]) == Ok(resolved.value)
    {
      if addresses[n].AddressFamily() != family {
        return Err(OutgoingInterfaceFamilyMismatch);
      }
      var candidate := resolve(addresses[n]);
      if candidate.Err? {
        return Err(candidate.error);
      }
      if resolved.Some? && resolved.value != candidate.value {
        assert index.None? ==> resolve(addresses[0]) == Ok(resolved.value);
        return Err(InterfaceDiscoveryFailed);
      }
      resolved := Some(candidate.value);
    }
    if resolved.None? {
      return Err(RawInterfaceRequired);
    }
    assert Agree(index, addresses, resolve, resolved.value);
    return Ok(resolved.value);
  }

  /** A valid configuration resolves exactly when some interface is designated by all its selectors. */
  method ResolveSelection(config: RawIpConfig, resolve: Resolver) returns (r: Result<RawIpSelection, MctxError>)
    ensures Validate(config).Err? ==> r == Err(Validate(config).error)
    ensures var addresses := GivenAddresses(config.bindAddr, config.interfaceAddr);
            && (r.Ok? ==>
                  && ResolvedFamily(config) == Ok(r.value.family)
                  && r.value.bindAddr == config.bindAddr && r.value.interfaceAddr == config.interfaceAddr
                  && Agree(config.interfaceIndex, addresses, resolve, r.value.interface))
            && (r.Ok? <==>
                  Validate(config).Ok? && exists i: u32 :: Agree(config.interfaceIndex, addresses, resolve, i))
  {
    var valid := Validate(config);
    if valid.Err? {
      return Err(valid.error);
    }
    ValidConfigHasOneFamily(config);
    var family := ResolvedFamily(config).value;
    var interface := CombineSelectors(
      config.interfaceIndex, GivenAddresses(config.bindAddr, config.interfaceAddr), family, resolve);
    if interface.Err? {
      return Err(interface.error);
    }
    return Ok(RawIpSelection(family, config.bindAddr, config.interfaceAddr, interface.value));
  }

  // ----- Sockets -----

  const IPPROTO_RAW: u32 := 255

  /** A raw socket with the options it was opened with. */
  datatype RawSocket = RawSocket(
    family: Family, protocol: u32, headerIncluded: bool, bindAddr: Option<IpAddr>, bindScope: u32, device: u32,
    unicastHops: Option<byte>, trafficClass: Option<byte>)

  /** Results of the calls that open one socket: before, at, and after pinning it to its interface. */
  datatype OpenCalls = OpenCalls(setup: Option<MctxError>, device: Option<MctxError>, options: Option<MctxError>)

  function OpenRawSocket(s: RawIpSelection, protocol: u32, calls: OpenCalls): Result<RawSocket, MctxError> {
    if calls.setup.Some? then Err(calls.setup.value)
    else if s.interface == 0 then Err(RawInterfaceRequired)
    else if calls.device.Some? then Err(calls.device.value)
    else
      var bound := if s.bindAddr.Some? && s.bindAddr.value.AddressFamily() == s.family then s.bindAddr else None;
      var scope := if bound.Some? && bound.value.IsUnicastLinkLocal() then s.interface else 0;
      Ok(RawSocket(s.family, protocol, s.family == Ipv4, bound, scope, s.interface, None, None))
  }

  datatype Ipv6SocketKey = Ipv6SocketKey(protocol: byte, hopLimit: byte, trafficClass: byte)

  function OpenIpv6Socket(s: RawIpSelection, key: Ipv6SocketKey, calls: OpenCalls): Result<RawSocket, MctxError> {
    match OpenRawSocket(s, key.protocol, calls)
    case Err(e) => Err(e)
    case Ok(socket) =>
      if calls.options.Some? then Err(calls.options.value)
      else Ok(socket.(unicastHops := Some(key.hopLimit), trafficClass := Some(key.trafficClass)))
  }

  function DestinationScope(destination: Ipv6Addr, interface: u32): u32 {
    if V6(destination).IsUnicastLinkLocal() || NeedsZone(destination) then interface else 0
  }

  /** One `send_to`. */
  datatype Transmission = Transmission(socket: RawSocket, bytes: seq<byte>, destination: IpAddr, scope: u32)

  /** The transmission that `d` should give rise to. */
  ghost predicate IsIpv6Transmission(t: Transmission, s: RawIpSelection, d: seq<byte>) {
    && ParseCompleteIpDatagram(d).Some?
    && var p := ParseCompleteIpDatagram(d).value;
    && p.base.family == Ipv6
    && s.bindAddr == Some(p.base.source)
    && t.socket == RawSocket(Ipv6, p.base.protocol, false, Some(p.base.source),
                             if p.base.source.IsUnicastLinkLocal() then s.interface else 0, s.interface,
                             Some(p.base.ttl), Some(p.trafficClass))
    && t.bytes == d[40..]
    && t.destination == p.base.destination
    && t.scope == DestinationScope(p.base.destination.v6, s.interface)
  }

  /** What is handed over determines the supplied datagram up to its flow label: another datagram gives rise to
      the same transmission exactly when it agrees on every other bit. */
  lemma TransmissionForgetsFlowLabel(t: Transmission, s: RawIpSelection, d: seq<byte>, e: seq<byte>)
    requires IsIpv6Transmission(t, s, d)
    ensures IsIpv6Transmission(t, s, e) <==>
            |e| == |d| && e[0] == d[0] && e[1] / 16 == d[1] / 16 && e[4..] == d[4..]
  {
    if |e| == |d| && e[0] == d[0] && e[1] / 16 == d[1] / 16 && e[4..] == d[4..] {
      SameBeyondFlowLabel(d, e);
    }
    if IsIpv6Transmission(t, s, e) {
      FieldsDetermine(d, e);
    }
  }

  /** Agreement beyond the flow label is agreement of all parsed fields and the payload. */
  lemma SameBeyondFlowLabel(d: seq<byte>, e: seq<byte>)
    requires ParseCompleteIpDatagram(d).Some? && ParseCompleteIpDatagram(d).value.base.family == Ipv6
    requires |e| == |d| && e[0] == d[0] && e[1] / 16 == d[1] / 16 && e[4..] == d[4..]
    ensures ParseCompleteIpDatagram(e) == ParseCompleteIpDatagram(d) && e[40..] == d[40..]
  {
    var x, y := d[4..], e[4..];
    assert e[4] == y[0] == d[4] && e[5] == y[1] == d[5] && e[6] == y[2] == d[6] && e[7] == y[3] == d[7];
    assert e[8..24] == y[4..20] == x[4..20] == d[8..24];
    assert e[24..40] == y[20..36] == x[20..36] == d[24..40];
    assert e[40..] == y[36..] == x[36..] == d[40..];
  }

  lemma FieldsDetermine(d: seq<byte>, e: seq<byte>)
    requires ParseCompleteIpDatagram(d).Some? && ParseCompleteIpDatagram(d) == ParseCompleteIpDatagram(e)
    requires ParseCompleteIpDatagram(d).value.base.family == Ipv6 && e[40..] == d[40..]
    ensures |e| == |d| && e[0] == d[0] && e[1] / 16 == d[1] / 16 && e[4..] == d[4..]
  {
    Nibbles(d[0], d[1]);
    Nibbles(e[0], e[1]);
    Be16OfParsed(d[4], d[5]);
    Be16OfParsed(e[4], e[5]);
    assert |d| == 40 + |d[40..]| && |e| == 40 + |e[40..]|;
    assert Be16(|d| - 40) == [d[4], d[5]] && Be16(|e| - 40) == [e[4], e[5]];
    assert [d[4], d[5]][0] == [e[4], e[5]][0] && [d[4], d[5]][1] == [e[4], e[5]][1];
    assert d[4..] == [d[4], d[5], d[6], d[7]] + d[8..24] + d[24..40] + d[40..];
    assert e[4..] == [e[4], e[5], e[6], e[7]] + e[8..24] + e[24..40] + e[40..];
  }

  lemma Nibbles(b0: byte, b1: byte)
    requires b0 / 16 == 6
    ensures var tc := b0 % 16 * 16 + b1 / 16;
            tc < 0x100 && 6 * 16 + tc / 16 == b0 && tc % 16 == b1 / 16
  {
  }

  lemma Be16OfParsed(hi: byte, lo: byte)
    ensures Be16(FromBe16(hi, lo)) == [hi, lo]
  {
  }

  /** A socket opened with the key of a datagram transmits that datagram. */
  lemma KeyedSocketTransmits(s: RawIpSelection, socket: RawSocket, d: seq<byte>)
    requires s.family == Ipv6 && ParseCompleteIpDatagram(d).Some?
    requires var p := ParseCompleteIpDatagram(d).value;
             && p.base.family == Ipv6 && s.bindAddr == Some(p.base.source)
             && OpenedWithKey(s, KeyOf(p), socket)
    ensures var p := ParseCompleteIpDatagram(d).value.base;
            IsIpv6Transmission(
              Transmission(socket, d[40..], p.destination, DestinationScope(p.destination.v6, s.interface)), s, d)
  {
  }

  function KeyOf(p: CompleteDatagram): Ipv6SocketKey {
    Ipv6SocketKey(p.base.protocol, p.base.ttl, p.trafficClass)
  }

  ghost predicate OpenedWithKey(s: RawIpSelection, key: Ipv6SocketKey, socket: RawSocket) {
    OpenIpv6Socket(s, key, OpenCalls(None, None, None)) == Ok(socket)
  }

  // ----- The socket object -----

  class RawIpTransmitSocket {
    const selection: RawIpSelection
    const ipv4Socket: Option<RawSocket>
    const protocolSockets: Option<BoundedSocketCache<Ipv6SocketKey, RawSocket>>

    ghost function Caches(): set<object> {
      if protocolSockets.Some? then {protocolSockets.value} else {}
    }

    /** The IPv4 socket is the one opened for the selection; every socket the cache ever created carries the
        options of its key. */
    ghost predicate Valid()
      reads this, Caches()
    {
      && (selection.family == Ipv4 ==>
            ipv4Socket.Some?
            && OpenRawSocket(selection, IPPROTO_RAW, OpenCalls(None, None, None)) == Ok(ipv4Socket.value))
      && (selection.family == Ipv6 ==>
            && protocolSockets.Some? && protocolSockets.value.Valid()
            && selection.bindAddr.Some? && selection.bindAddr.value.V6?
            && forall e :: e in protocolSockets.value.history ==> OpenedWithKey(selection, e.0, e.1))
    }

    constructor (selection: RawIpSelection, ipv4Socket: Option<RawSocket>,
                 protocolSockets: Option<BoundedSocketCache<Ipv6SocketKey, RawSocket>>)
      ensures this.selection == selection && this.ipv4Socket == ipv4Socket && this.protocolSockets == protocolSockets
    {
      this.selection, this.ipv4Socket, this.protocolSockets := selection, ipv4Socket, protocolSockets;
    }

    /** `written` is the kernel's answer to the `send_to`, `calls` those of a socket opened on the way. */
    method SendIpDatagram(d: seq<byte>, calls: OpenCalls, written: Result<nat, int>)
      returns (r: Result<nat, MctxError>, handed: Option<Transmission>)
      requires Valid()
      modifies Caches()
      ensures Valid()
      ensures handed.Some? && selection.family == Ipv6 ==> IsIpv6Transmission(handed.value, selection, d)
      ensures handed.Some? && selection.family == Ipv4 ==>
                && ParseCompleteIpDatagram(d).Some?
                && var p := ParseCompleteIpDatagram(d).value.base;
                && p.family == Ipv4
                && handed.value == Transmission(ipv4Socket.value, d, p.destination, 0)
      // A datagram is refused for its form, its family or a source the kernel would rewrite, or because the
      // socket for its header fields cannot be opened.
      ensures var parse := ParseCompleteIpDatagram(d);
              handed.None? ==>
                || parse.None? || parse.value.base.family != selection.family
                || (selection.family == Ipv6 && selection.bindAddr != Some(parse.value.base.source))
                || (selection.family == Ipv6 && (calls.setup.Some? || calls.device.Some? || calls.options.Some?
                                                 || selection.interface == 0))
      ensures r.Ok? <==> handed.Some? && written == Ok(|handed.value.bytes|)
      ensures r.Ok? ==> r.value == |d|
    {
      var parse := ParseCompleteIpDatagram(d);
      if parse.None? || parse.value.base.family != selection.family {
        return Err(InvalidRawIpDatagram), None;
      }
      var p := parse.value;
      match p.base.family {
        case Ipv4 =>
          handed := Some(Transmission(ipv4Socket.value, d, p.base.destination, 0));
          r := FullSend(written, |d|, |d|);
        case Ipv6 =>
          r, handed := SendIpv6(p, d, calls, written);
      }
    }

    function FullSend(written: Result<nat, int>, expected: nat, reported: nat): Result<nat, MctxError> {
      if written.Err? then Err(RawSendFailed(written.error))
      else if written.value != expected then Err(PartialSend(written.value, expected))
      else Ok(reported)
    }

    method CachedSocket(key: Ipv6SocketKey, calls: OpenCalls) returns (r: Result<RawSocket, MctxError>)
      requires Valid() && selection.family == Ipv6
      modifies Caches()
      ensures Valid()
      ensures r.Ok? ==> OpenedWithKey(selection, key, r.value)
      ensures selection.interface != 0 && calls == OpenCalls(None, None, None) ==> r.Ok?
    {
      var created := OpenIpv6Socket(selection, key, calls);
      r := protocolSockets.value.GetOrTryInsertWith(key, created);
    }

    method SendIpv6(p: CompleteDatagram, d: seq<byte>, calls: OpenCalls, written: Result<nat, int>)
      returns (r: Result<nat, MctxError>, handed: Option<Transmission>)
      requires Valid() && selection.family == Ipv6 && ParseCompleteIpDatagram(d) == Some(p) && p.base.family == Ipv6
      modifies Caches()
      ensures Valid()
      ensures handed.Some? ==> IsIpv6Transmission(handed.value, selection, d)
      ensures (selection.bindAddr == Some(p.base.source) && selection.interface != 0
               && calls == OpenCalls(None, None, None)) ==> handed.Some?
      ensures r.Ok? <==> handed.Some? && written == Ok(|handed.value.bytes|)
      ensures r.Ok? ==> r.value == |d|
    {
      if selection.bindAddr.value != p.base.source {
        return Err(RawDatagramSourceMismatch(p.base.source, selection.bindAddr.value)), None;
      }
      var key := KeyOf(p);
      var socket := CachedSocket(key, calls);
      if socket.Err? {
        return Err(socket.error), None;
      }
      var payload := d[p.base.headerLen..];
      KeyedSocketTransmits(selection, socket.value, d);
      handed := Some(Transmission(socket.value, payload, p.base.destination,
                                  DestinationScope(p.base.destination.v6, selection.interface)));
      r := FullSend(written, |payload|, |d|);
    }
  }

  /** Opens a socket, probing an IPv6 one first so that opening fails early. */
  method OpenRawIpSocket(config: RawIpConfig, resolve: Resolver, calls: OpenCalls)
    returns (r: Result<RawIpTransmitSocket, MctxError>)
    ensures r.Ok? ==>
              && fresh(r.value) && fresh(r.value.Caches()) && r.value.Valid()
              && ResolvedFamily(config) == Ok(r.value.selection.family)
              && r.value.selection.bindAddr == config.bindAddr && r.value.selection.interface != 0
              && Agree(config.interfaceIndex, GivenAddresses(config.bindAddr, config.interfaceAddr), resolve,
                       r.value.selection.interface)
    // A socket opens exactly for a valid configuration whose selectors agree on a real interface, with a bind
    // address if it is IPv6, and socket calls that work.
    ensures r.Ok? <==>
              && Validate(config).Ok?
              && (exists i: u32 :: i != 0 && Agree(config.interfaceIndex,
                                                   GivenAddresses(config.bindAddr, config.interfaceAddr), resolve, i))
              && (ResolvedFamily(config) == Ok(Ipv6) ==> config.bindAddr.Some?)
              && calls.setup.None? && calls.device.None?
  {
    var selected := ResolveSelection(config, resolve);
    if selected.Err? {
      return Err(selected.error);
    }
    var s := selected.value;
    ValidConfigHasOneFamily(config);
    forall i: u32 | Agree(config.interfaceIndex, GivenAddresses(config.bindAddr, config.interfaceAddr), resolve, i)
      ensures i == s.interface
    {
      AgreementIsUnique(config, resolve, i, s.interface);
    }
    if s.family == Ipv6 && !(s.bindAddr.Some? && s.bindAddr.value.V6?) {
      return Err(RawPacketTransmitUnsupported);
    }
    var probe := OpenRawSocket(s, IPPROTO_RAW, calls);
    if probe.Err? {
      return Err(probe.error);
    }
    match s.family {
      case Ipv4 =>
        var socket := new RawIpTransmitSocket(s, Some(probe.value), None);
        return Ok(socket);
      case Ipv6 =>
        var cache := new BoundedSocketCache<Ipv6SocketKey, RawSocket>();
        var socket := new RawIpTransmitSocket(s, None, Some(cache));
        return Ok(socket);
    }
  }
}
