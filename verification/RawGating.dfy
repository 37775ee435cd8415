/** Raw multicast publications on Linux: configuration, opening, and the gate every datagram passes. */
module RawGating {
  import opened Base
  import opened Addresses
  import opened IpDatagram
  import opened RouteDump
  import opened RouteEgress
  import opened Selectors

  datatype ValidationMode = StrictMulticastDestination | AllowAnyDestination
  datatype EgressMode = Explicit | RouteSelected

  datatype RawConfig = RawConfig(
    family: Option<Family>, outgoingInterface: Option<OutgoingInterface>, bindAddr: Option<IpAddr>,
    ttl: Option<byte>, loopback: Option<bool>, validationMode: ValidationMode, egressMode: EgressMode)

  // ----- Configuration (src/raw/config.rs) -----

  function ValidateRouteSelected(config: RawConfig): Result<(), MctxError> {
    if config.bindAddr.Some? || config.outgoingInterface.Some? then Err(RawPacketTransmitUnsupported)
    else if config.family.None? then Err(RawPacketTransmitUnsupported)
    else if config.ttl.Some? then Err(RawPacketTransmitUnsupported)
    else Ok(())
  }

  function ValidateInterface(family: Option<Family>, interface: OutgoingInterface): Result<(), MctxError> {
    match interface
    case ByIpv4Addr(a) =>
      if !IsConcrete(V4(a)) then Err(InvalidInterfaceAddress)
      else if family == Some(Ipv6) then Err(OutgoingInterfaceFamilyMismatch)
      else Ok(())
    case ByIpv6Addr(a) =>
      if !IsConcrete(V6(a)) then Err(InvalidInterfaceAddress)
      else if family == Some(Ipv4) then Err(OutgoingInterfaceFamilyMismatch)
      else Ok(())
    case ByIpv6Index(i) =>
      if i == 0 then Err(InvalidIpv6InterfaceIndex)
      else if family == Some(Ipv4) then Err(OutgoingInterfaceFamilyMismatch)
      else Ok(())
  }

  function Validate(config: RawConfig): Result<(), MctxError> {
    if config.egressMode == RouteSelected then ValidateRouteSelected(config)
    else if config.bindAddr.None? && config.outgoingInterface.None? then Err(RawInterfaceRequired)
    else if config.bindAddr.Some? && !IsConcrete(config.bindAddr.value) then Err(InvalidRawBindAddress)
    else if config.bindAddr.Some? && config.family.Some?
            && config.family.value != config.bindAddr.value.AddressFamily() then
      Err(RawBindAddressFamilyMismatch)
    else if config.outgoingInterface.None? then Ok(())
    else match ValidateInterface(config.family, config.outgoingInterface.value)
      case Err(e) => Err(e)
      case Ok(_) =>
        if config.bindAddr.Some?
           && config.outgoingInterface.value.InterfaceFamily() != config.bindAddr.value.AddressFamily() then
          Err(OutgoingInterfaceFamilyMismatch)
        else Ok(())
  }

  function ConfiguredFamily(config: RawConfig): Option<Family> {
    if config.family.Some? then config.family
    else if config.bindAddr.Some? then Some(config.bindAddr.value.AddressFamily())
    else if config.outgoingInterface.Some? then Some(config.outgoingInterface.value.InterfaceFamily())
    else None
  }

  /** A validated configuration has one family, and every part of it that implies a family implies that one. */
  lemma ValidConfigHasOneFamily(config: RawConfig)
    requires Validate(config).Ok?
    ensures ConfiguredFamily(config).Some?
    ensures var f := ConfiguredFamily(config).value;
            && (config.family.Some? ==> config.family.value == f)
            && (config.bindAddr.Some? ==> config.bindAddr.value.AddressFamily() == f)
            && (config.outgoingInterface.Some? ==> config.outgoingInterface.value.InterfaceFamily() == f)
            && (config.egressMode == Explicit ==> config.bindAddr.Some? || config.outgoingInterface.Some?)
  {
  }

  // ----- Interface selection (src/raw/platform.rs) -----

  datatype Ipv4Selection = Ipv4Selection(bindAddr: Ipv4Addr, interfaceAddr: Ipv4Addr, interface: u32)
  datatype Ipv6Selection = Ipv6Selection(bindAddr: Option<Ipv6Addr>, interface: u32)

  function ResolveIpv4Selection(config: RawConfig, resolve: Resolver): Result<Ipv4Selection, MctxError> {
    var bind := if config.bindAddr.Some? && config.bindAddr.value.V4? then Some(config.bindAddr.value.v4) else None;
    var named := if config.outgoingInterface.Some? && config.outgoingInterface.value.ByIpv4Addr?
                 then Some(config.outgoingInterface.value.v4) else None;
    var interfaceAddr := if named.Some? then named else bind;
    if interfaceAddr.None? then Err(RawInterfaceRequired) else
    var bindAddr := bind.GetOr(interfaceAddr.value);
    match resolve(V4(interfaceAddr.value))
    case Err(e) => Err(e)
    case Ok(interface) =>
      var bindIndex := if bindAddr == interfaceAddr.value then Ok(interface) else resolve(V4(bindAddr));
      if bindIndex.Err? then Err(bindIndex.error)
      else if bindIndex.value != interface then Err(InterfaceDiscoveryFailed)
      else Ok(Ipv4Selection(bindAddr, interfaceAddr.value, interface))
  }

  function NamedIpv6Index(config: RawConfig, resolve: Resolver): Result<Option<u32>, MctxError> {
    match config.outgoingInterface
    case Some(ByIpv6Index(i)) => Ok(Some(i))
    case Some(ByIpv6Addr(a)) =>
      (match resolve(V6(a)) case Ok(i) => Ok(Some(i)) case Err(e) => Err(e))
    case _ => Ok(None)
  }

  function ResolveIpv6Selection(config: RawConfig, resolve: Resolver): Result<Ipv6Selection, MctxError> {
    var named := if config.outgoingInterface.Some? && config.outgoingInterface.value.ByIpv6Addr?
                 then Some(config.outgoingInterface.value.v6) else None;
    var bind := if config.bindAddr.Some? && config.bindAddr.value.V6? then Some(config.bindAddr.value.v6) else named;
    match NamedIpv6Index(config, resolve)
    case Err(e) => Err(e)
    case Ok(explicit) =>
      var bindIndex :=
        if bind.None? then Ok(None)
        else if bind == named then Ok(explicit)
        else match resolve(V6(bind.value)) case Ok(i) => Ok(Some(i)) case Err(e) => Err(e);
      if bindIndex.Err? then Err(bindIndex.error)
      else if bind.Some? && bindIndex.value.Some? && explicit.Some? && bindIndex.value != explicit then
        Err(Ipv6SourceInterfaceMismatch(bind.value, bindIndex.value.value, explicit.value))
      else
        var interface := if explicit.Some? then explicit else bindIndex.value;
        if interface.None? then Err(RawInterfaceRequired)
        else Ok(Ipv6Selection(bind, interface.value))
  }

  function ConfiguredSelectors(config: RawConfig): seq<Selector> {
    OutgoingSelector(config.outgoingInterface) + AddressSelector(config.bindAddr)
  }

  function SelectedInterface(config: RawConfig, resolve: Resolver): Result<u32, MctxError> {
    if ConfiguredFamily(config) == Some(Ipv4) then
      match ResolveIpv4Selection(config, resolve) case Ok(s) => Ok(s.interface) case Err(e) => Err(e)
    else
      match ResolveIpv6Selection(config, resolve) case Ok(s) => Ok(s.interface) case Err(e) => Err(e)
  }

  /** Both families' case analyses select an interface exactly when every configured selector designates it;
      there is at most one such interface. */
  lemma SelectionIff(config: RawConfig, resolve: Resolver, interface: u32)
    requires Validate(config).Ok? && config.egressMode == Explicit
    ensures SelectedInterface(config, resolve) == Ok(interface) <==>
            AllDesignate(ConfiguredSelectors(config), resolve, interface)
    ensures AllDesignate(ConfiguredSelectors(config), resolve, interface) ==>
              forall other: u32 :: AllDesignate(ConfiguredSelectors(config), resolve, other) ==> other == interface
  {
    ValidConfigHasOneFamily(config);
    forall other: u32 | AllDesignate(ConfiguredSelectors(config), resolve, interface)
                        && AllDesignate(ConfiguredSelectors(config), resolve, other)
      ensures other == interface
    {
      DesignatedInterfaceIsUnique(ConfiguredSelectors(config), resolve, other, interface);
    }
    var selectors, o := ConfiguredSelectors(config), OutgoingSelector(config.outgoingInterface);
    if config.outgoingInterface.Some? {
      assert selectors[0] == o[0];
    }
    if config.bindAddr.Some? {
      assert selectors[|o|] == Address(config.bindAddr.value);
    }
  }

  // ----- Sockets -----

  datatype Backend = RawIpv4 | RawIpv6Explicit | RawIpv6RouteSelected

  datatype Ipv4RawSocket = Ipv4RawSocket(
    bindAddr: Option<Ipv4Addr>, multicastInterface: Option<Ipv4Addr>, multicastLoop: Option<bool>)

  datatype PacketSocket = PacketSocket(interface: u32)

  const MAX_PACKET_INTERFACE := 0x7fff_ffff

  /** Results of the system calls of one send. */
  datatype SendCalls = SendCalls(
    linkFailure: u32 -> Option<MctxError>, notifications: seq<NotificationRecv>, requestError: Option<int>,
    dump: seq<Recv>, written: Result<nat, int>)

  function OpenPacketSocket(interface: u32, linkFailure: u32 -> Option<MctxError>): Result<PacketSocket, MctxError> {
    if interface > MAX_PACKET_INTERFACE then Err(InterfaceDiscoveryFailed)
    else if linkFailure(interface).Some? then Err(linkFailure(interface).value)
    else Ok(PacketSocket(interface))
  }

  function Opened<S>(r: Result<S, MctxError>): Option<S> {
    if r.Ok? then Some(r.value) else None
  }

  datatype Via = Ipv4Socket(socket: Ipv4RawSocket) | Link(interface: u32, packet: PacketSocket)

  /** One `sendto`. */
  datatype Transmission = Transmission(bytes: seq<byte>, destination: IpAddr, via: Via)

  datatype Report = Report(
    family: Family, source: IpAddr, destination: IpAddr, protocol: byte, bytesSent: nat,
    localBindAddr: Option<IpAddr>, outgoingInterface: Option<OutgoingInterface>, interface: Option<u32>)

  // ----- The gate -----

  function ValidateDatagram(p: ParsedDatagram, config: RawConfig): Result<(), MctxError> {
    if config.family.Some? && config.family.value != p.family then Err(InvalidRawIpDatagram)
    else if config.bindAddr.Some? && config.bindAddr.value.AddressFamily() != p.family then
      Err(RawBindAddressFamilyMismatch)
    else if config.outgoingInterface.Some? && config.outgoingInterface.value.InterfaceFamily() != p.family then
      Err(OutgoingInterfaceFamilyMismatch)
    else if config.validationMode == StrictMulticastDestination && !p.destination.IsMulticast() then
      Err(InvalidRawMulticastDestination)
    else Ok(())
  }

  function NotMulticast(config: RawConfig): MctxError {
    if config.validationMode == StrictMulticastDestination then InvalidRawMulticastDestination
    else RawPacketTransmitUnsupported
  }

  /** What a datagram must be to reach the wire. The validation mode does not occur. */
  ghost predicate Admissible(config: RawConfig, family: Family, d: seq<byte>) {
    && ParseRawIpDatagram(d).Some?
    && var p := ParseRawIpDatagram(d).value;
    && p.family == family
    && p.destination.AddressFamily() == family && p.destination.IsMulticast()
    && (family == Ipv6 && config.ttl.Some? ==> config.ttl.value == p.ttl)
  }

  /** The bytes that reach the wire: the caller's, patched only for a differing IPv4 override. */
  function Wire(config: RawConfig, d: seq<byte>): seq<byte>
    requires ParseRawIpDatagram(d).Some?
  {
    var p := ParseRawIpDatagram(d).value;
    if p.family == Ipv4 && config.ttl.Some? && config.ttl.value != p.ttl then TtlPatched(d, config.ttl.value) else d
  }

  /** Whatever is sent carries the configured TTL or hop limit, if there is one, and otherwise exactly the
      fields the caller supplied. */
  lemma WireCarriesConfiguredTtl(config: RawConfig, family: Family, d: seq<byte>)
    requires Admissible(config, family, d)
    ensures var p := ParseRawIpDatagram(d).value;
            ParseRawIpDatagram(Wire(config, d)) == Some(p.(ttl := config.ttl.GetOr(p.ttl)))
    ensures |Wire(config, d)| == |d|
  {
    var p := ParseRawIpDatagram(d).value;
    if Wire(config, d) != d {
      OverrideKeepsOtherFields(d, config.ttl.value);
    }
  }

  class RawTransmitSocket {
    const backend: Backend
    const family: Family
    const interface: Option<u32>
    const localBindAddr: Option<IpAddr>
    const ipv4Socket: Option<Ipv4RawSocket>
    const route: Option<LinuxIpv6RouteEgress<PacketSocket>>
    var packetSocket: Option<PacketSocket>

    ghost function Routes(): set<object> {
      if route.Some? then {route.value} else {}
    }

    /** What opening a socket for `config` establishes and every send keeps. */
    ghost predicate OpenedFor(config: RawConfig)
      reads this, Routes()
    {
      && Validate(config).Ok?
      && ConfiguredFamily(config) == Some(family)
      && (config.egressMode == RouteSelected ==> interface.None? && localBindAddr.None?)
      && (match backend
          case RawIpv4 => family == Ipv4 && ipv4Socket.Some?
          case RawIpv6Explicit =>
            && family == Ipv6 && config.egressMode == Explicit && interface.Some?
            && (packetSocket.Some? ==>
                  packetSocket.value.interface == interface.value <= MAX_PACKET_INTERFACE)
          case RawIpv6RouteSelected =>
            && family == Ipv6 && config.egressMode == RouteSelected && route.Some? && route.value.Valid()
            && (route.value.cached.Some? ==>
                  var kept := route.value.cached.value;
                  kept.socket.interface == kept.interface <= MAX_PACKET_INTERFACE))
    }

    constructor (backend: Backend, family: Family, interface: Option<u32>, localBindAddr: Option<IpAddr>,
                 ipv4Socket: Option<Ipv4RawSocket>, route: Option<LinuxIpv6RouteEgress<PacketSocket>>)
      ensures this.backend == backend && this.family == family && this.interface == interface
      ensures this.localBindAddr == localBindAddr && this.ipv4Socket == ipv4Socket && this.route == route
      ensures packetSocket == None
    {
      this.backend, this.family, this.interface := backend, family, interface;
      this.localBindAddr, this.ipv4Socket, this.route := localBindAddr, ipv4Socket, route;
      packetSocket := None;
    }

    function MakeReport(config: RawConfig, p: ParsedDatagram, bytesSent: nat): Report {
      Report(p.family, p.source, p.destination, p.protocol, bytesSent,
             localBindAddr, config.outgoingInterface, interface)
    }

    /** The one cached packet socket of an explicit IPv6 publication. */
    method CachedPacketSocket(calls: SendCalls) returns (r: Result<PacketSocket, MctxError>)
      requires interface.Some?
      requires packetSocket.Some? ==> packetSocket.value.interface == interface.value <= MAX_PACKET_INTERFACE
      modifies this`packetSocket
      ensures r == if old(packetSocket).Some? then Ok(old(packetSocket).value)
                   else OpenPacketSocket(interface.value, calls.linkFailure)
      ensures packetSocket == if r.Ok? then Some(r.value) else None
    {
      if packetSocket.Some? {
        return Ok(packetSocket.value);
      }
      r := OpenPacketSocket(interface.value, calls.linkFailure);
      if r.Ok? {
        packetSocket := Some(r.value);
      }
    }

    /** `handed` is what was passed to the kernel, whether or not the kernel took it. */
    method Send(config: RawConfig, d: seq<byte>, calls: SendCalls)
      returns (r: Result<Report, MctxError>, handed: Option<Transmission>)
      requires OpenedFor(config)
      modifies this`packetSocket, Routes()
      ensures OpenedFor(config)
      // Only admissible datagrams reach the kernel, in the bytes and to the group they should.
      ensures handed.Some? ==>
                && Admissible(config, family, d)
                && handed.value.bytes == Wire(config, d)
                && handed.value.destination == ParseRawIpDatagram(d).value.destination
      ensures handed.Some? ==>
                match backend
                case RawIpv4 => handed.value.via == Ipv4Socket(ipv4Socket.value)
                case RawIpv6Explicit => handed.value.via == Link(interface.value, PacketSocket(interface.value))
                case RawIpv6RouteSelected =>
                  handed.value.via.Link? && handed.value.via.packet == PacketSocket(handed.value.via.interface)
      // Everything else is refused before any state changes.
      ensures !Admissible(config, family, d) ==> r.Err? && handed.None? && packetSocket == old(packetSocket)
      ensures !Admissible(config, family, d) && route.Some? ==> route.value.cached == old(route.value.cached)
      // An admissible datagram fails to reach the kernel only for want of a link.
      ensures Admissible(config, family, d) ==>
                match backend
                case RawIpv4 => handed.Some?
                case RawIpv6Explicit =>
                  handed.Some? <==> old(packetSocket).Some?
                                    || OpenPacketSocket(interface.value, calls.linkFailure).Ok?
                case RawIpv6RouteSelected => handed.None? ==> r.Err? && r.error.RouteSelectionFailed?
      // Success is the kernel's; packet sockets must take the whole datagram.
      ensures r.Ok? <==> handed.Some? && calls.written.Ok? && (family == Ipv6 ==> calls.written.value == |d|)
      ensures r.Ok? ==>
                var p := ParseRawIpDatagram(d).value;
                r.value == Report(family, p.source, p.destination, p.protocol, calls.written.value, localBindAddr,
                                  config.outgoingInterface,
                                  if backend.RawIpv6RouteSelected? then Some(handed.value.via.interface) else interface)
      // A route whose link refused the datagram is forgotten.
      ensures backend.RawIpv6RouteSelected? && handed.Some? && r.Err? ==> route.value.cached == None
    {
      handed := None;
      ValidConfigHasOneFamily(config);
      var parse := ParseRawIpDatagram(d);
      if parse.None? {
        return Err(InvalidRawIpDatagram), None;
      }
      var p := parse.value;
      var valid := ValidateDatagram(p, config);
      if valid.Err? {
        return Err(valid.error), None;
      }
      match backend {
        case RawIpv4 =>
          var datagram := d;
          if config.ttl.Some? && config.ttl.value != p.ttl {
            datagram := ApplyTtlOrHopLimitOverride(d, p, config.ttl.value);
          }
          r, handed := SendIpv4(config, p, datagram, calls);
        case RawIpv6Explicit =>
          r, handed := SendIpv6(config, p, d, calls);
        case RawIpv6RouteSelected =>
          r, handed := SendRouteSelected(config, p, d, calls);
      }
    }

    method SendIpv4(config: RawConfig, p: ParsedDatagram, datagram: seq<byte>, calls: SendCalls)
      returns (r: Result<Report, MctxError>, handed: Option<Transmission>)
      requires ipv4Socket.Some?
      ensures handed == if p.destination.V4? && p.destination.IsMulticast()
                        then Some(Transmission(datagram, p.destination, Ipv4Socket(ipv4Socket.value))) else None
      ensures r.Ok? <==> handed.Some? && calls.written.Ok?
      ensures r.Ok? ==> r.value == MakeReport(config, p, calls.written.value)
    {
      if p.destination.V6? {
        return Err(RawPacketTransmitUnsupported), None;
      }
      if !p.destination.IsMulticast() {
        return Err(NotMulticast(config)), None;
      }
      handed := Some(Transmission(datagram, p.destination, Ipv4Socket(ipv4Socket.value)));
      r := if calls.written.Ok? then Ok(MakeReport(config, p, calls.written.value))
           else Err(RawSendFailed(calls.written.error));
    }

    /** The result of handing `n` bytes to a packet socket. */
    function PacketResult(written: Result<nat, int>, n: nat): Result<nat, MctxError> {
      if written.Err? then Err(RawSendFailed(written.error))
      else if written.value != n then Err(PartialSend(written.value, n))
      else Ok(n)
    }

    method SendIpv6(config: RawConfig, p: ParsedDatagram, d: seq<byte>, calls: SendCalls)
      returns (r: Result<Report, MctxError>, handed: Option<Transmission>)
      requires OpenedFor(config) && backend.RawIpv6Explicit?
      modifies this`packetSocket
      ensures OpenedFor(config)
      ensures var passes := p.destination.V6? && p.destination.IsMulticast()
                            && (config.ttl.Some? ==> config.ttl.value == p.ttl);
              && (handed.Some? <==> passes && (old(packetSocket).Some?
                                               || OpenPacketSocket(interface.value, calls.linkFailure).Ok?))
              && (!passes ==> packetSocket == old(packetSocket))
      ensures handed.Some? ==>
                handed.value == Transmission(d, p.destination, Link(interface.value, PacketSocket(interface.value)))
      ensures r.Ok? <==> handed.Some? && calls.written == Ok(|d|)
      ensures r.Ok? ==> r.value == MakeReport(config, p, |d|)
    {
      if p.destination.V4? {
        return Err(InvalidRawIpDatagram), None;
      }
      if !p.destination.IsMulticast() {
        return Err(NotMulticast(config)), None;
      }
      if config.ttl.Some? && config.ttl.value != p.ttl {
        return Err(RawPacketTransmitUnsupported), None;
      }
      var socket := CachedPacketSocket(calls);
      if socket.Err? {
        return Err(socket.error), None;
      }
      handed := Some(Transmission(d, p.destination, Link(interface.value, socket.value)));
      var sent := PacketResult(calls.written, |d|);
      r := if sent.Ok? then Ok(MakeReport(config, p, sent.value)) else Err(sent.error);
    }

    method SendRouteSelected(config: RawConfig, p: ParsedDatagram, d: seq<byte>, calls: SendCalls)
      returns (r: Result<Report, MctxError>, handed: Option<Transmission>)
      requires OpenedFor(config) && backend.RawIpv6RouteSelected?
      modifies route.value
      ensures OpenedFor(config)
      ensures var passes := p.destination.V6? && p.destination.IsMulticast();
              && (handed.Some? ==> passes)
              && (passes && handed.None? ==> r.Err? && r.error.RouteSelectionFailed?)
              && (!passes ==> route.value.cached == old(route.value.cached))
      ensures handed.Some? ==>
                var via := handed.value.via;
                && via.Link? && via.packet == PacketSocket(via.interface)
                && handed.value == Transmission(d, p.destination, via)
      ensures r.Ok? <==> handed.Some? && calls.written == Ok(|d|)
      ensures r.Ok? ==> r.value == MakeReport(config, p, |d|).(localBindAddr := None,
                                                               interface := Some(handed.value.via.interface))
      ensures handed.Some? && r.Err? ==> route.value.cached == None
    {
      if p.destination.V4? {
        return Err(InvalidRawIpDatagram), None;
      }
      if !p.destination.IsMulticast() {
        return Err(NotMulticast(config)), None;
      }
      var egress := route.value.Egress(p.destination.v6, calls.notifications, calls.requestError, calls.dump,
                                       (i: u32) => Opened(OpenPacketSocket(i, calls.linkFailure)));
      if egress.Err? {
        return Err(RouteSelectionFailed(egress.error)), None;
      }
      var (interface, socket) := egress.value;
      handed := Some(Transmission(d, p.destination, Link(interface, socket)));
      var sent := PacketResult(calls.written, |d|);
      if sent.Err? {
        route.value.Invalidate(interface);
        return Err(sent.error), handed;
      }
      r := Ok(Report(p.family, p.source, p.destination, p.protocol, sent.value,
                     None, config.outgoingInterface, Some(interface)));
    }
  }

  /** Opens the socket of a publication; `failure` is what its socket calls report. */
  method OpenRawTransmitSocket(config: RawConfig, resolve: Resolver, failure: Option<MctxError>)
    returns (r: Result<RawTransmitSocket, MctxError>)
    ensures r.Ok? ==> fresh(r.value) && fresh(r.value.Routes()) && r.value.OpenedFor(config)
    // An explicit publication is pinned to the interface all its selectors designate.
    ensures r.Ok? && config.egressMode == Explicit ==>
              r.value.interface.Some? && AllDesignate(ConfiguredSelectors(config), resolve, r.value.interface.value)
    ensures r.Ok? <==>
            && Validate(config).Ok?
            && (config.egressMode == Explicit ==>
                  exists i: u32 :: AllDesignate(ConfiguredSelectors(config), resolve, i))
            && (ConfiguredFamily(config) == Some(Ipv6) ==> config.loopback != Some(true))
            && (ConfiguredFamily(config) == Some(Ipv4) || config.egressMode == RouteSelected ==> failure.None?)
  {
    var valid := Validate(config);
    if valid.Err? {
      return Err(valid.error);
    }
    ValidConfigHasOneFamily(config);
    if config.egressMode == RouteSelected {
      match ConfiguredFamily(config) {
        case Some(Ipv4) => r := OpenRouteSelectedV4(config, failure);
        case Some(Ipv6) => r := OpenRouteSelectedV6(config, failure);
        case None => assert false; r := Err(RawInterfaceRequired);
      }
    } else {
      forall i: u32
        ensures SelectedInterface(config, resolve) == Ok(i) <==>
                AllDesignate(ConfiguredSelectors(config), resolve, i)
      {
        SelectionIff(config, resolve, i);
      }
      match ConfiguredFamily(config) {
        case Some(Ipv4) => r := OpenExplicitV4(config, resolve, failure);
        case _ => r := OpenExplicitV6(config, resolve);
      }
    }
  }

  method OpenExplicitV4(config: RawConfig, resolve: Resolver, failure: Option<MctxError>)
    returns (r: Result<RawTransmitSocket, MctxError>)
    requires Validate(config).Ok? && ConfiguredFamily(config) == Some(Ipv4) && config.egressMode == Explicit
    ensures r.Ok? <==> SelectedInterface(config, resolve).Ok? && failure.None?
    ensures r.Ok? ==> fresh(r.value) && r.value.Routes() == {} && r.value.OpenedFor(config)
    ensures r.Ok? ==> r.value.interface == Some(SelectedInterface(config, resolve).value)
  {
    var selection := ResolveIpv4Selection(config, resolve);
    if selection.Err? {
      return Err(selection.error);
    }
    if failure.Some? {
      return Err(failure.value);
    }
    var s := selection.value;
    var socket := new RawTransmitSocket(
      RawIpv4, Ipv4, Some(s.interface), Some(V4(s.bindAddr)),
      Some(Ipv4RawSocket(Some(s.bindAddr), Some(s.interfaceAddr), config.loopback)), None);
    return Ok(socket);
  }

  method OpenExplicitV6(config: RawConfig, resolve: Resolver) returns (r: Result<RawTransmitSocket, MctxError>)
    requires Validate(config).Ok? && ConfiguredFamily(config) == Some(Ipv6) && config.egressMode == Explicit
    ensures r.Ok? <==> SelectedInterface(config, resolve).Ok? && config.loopback != Some(true)
    ensures r.Ok? ==> fresh(r.value) && r.value.Routes() == {} && r.value.OpenedFor(config)
    ensures r.Ok? ==> r.value.interface == Some(SelectedInterface(config, resolve).value)
  {
    var selection := ResolveIpv6Selection(config, resolve);
    if selection.Err? {
      return Err(selection.error);
    }
    if config.loopback == Some(true) {
      return Err(RawPacketTransmitUnsupported);
    }
    var s := selection.value;
    var bindAddr := if s.bindAddr.Some? then Some(V6(s.bindAddr.value)) else None;
    var socket := new RawTransmitSocket(RawIpv6Explicit, Ipv6, Some(s.interface), bindAddr, None, None);
    return Ok(socket);
  }

  method OpenRouteSelectedV4(config: RawConfig, failure: Option<MctxError>)
    returns (r: Result<RawTransmitSocket, MctxError>)
    requires Validate(config).Ok? && ConfiguredFamily(config) == Some(Ipv4) && config.egressMode == RouteSelected
    ensures r.Ok? <==> failure.None?
    ensures r.Ok? ==> fresh(r.value) && r.value.Routes() == {} && r.value.OpenedFor(config)
  {
    if failure.Some? {
      return Err(failure.value);
    }
    var socket := new RawTransmitSocket(
      RawIpv4, Ipv4, None, None, Some(Ipv4RawSocket(None, None, config.loopback)), None);
    return Ok(socket);
  }

  method OpenRouteSelectedV6(config: RawConfig, failure: Option<MctxError>)
    returns (r: Result<RawTransmitSocket, MctxError>)
    requires Validate(config).Ok? && ConfiguredFamily(config) == Some(Ipv6) && config.egressMode == RouteSelected
    ensures r.Ok? <==> failure.None? && config.loopback != Some(true)
    ensures r.Ok? ==> fresh(r.value) && fresh(r.value.Routes()) && r.value.OpenedFor(config)
  {
    if config.loopback == Some(true) {
      return Err(RawPacketTransmitUnsupported);
    }
    if failure.Some? {
      return Err(failure.value);
    }
    var route := new LinuxIpv6RouteEgress<PacketSocket>();
    var socket := new RawTransmitSocket(RawIpv6RouteSelected, Ipv6, None, None, None, Some(route));
    return Ok(socket);
  }
}
