/** Local egress selectors, the errors of configuration and sending, and what it means for several
    selectors to designate one interface. */
module Selectors {
  import opened Base
  import opened Addresses
  import opened RouteEgress

  datatype OutgoingInterface = ByIpv4Addr(v4: Ipv4Addr) | ByIpv6Addr(v6: Ipv6Addr) | ByIpv6Index(index: u32) {
    function InterfaceFamily(): Family {
      if ByIpv4Addr? then Ipv4 else Ipv6
    }
  }

  datatype MctxError =
    | InvalidDestinationPort
    | InvalidMulticastGroup
    | InvalidSourcePort
    | InvalidSourceAddress
    | SourceAddressFamilyMismatch
    | InvalidInterfaceAddress
    | InvalidIpv6InterfaceIndex
    | OutgoingInterfaceFamilyMismatch
    | InterfaceDiscoveryFailed
    | Ipv6SourceInterfaceMismatch(source: Ipv6Addr, sourceIndex: u32, outgoingIndex: u32)
    | Ipv6ScopedMulticastRequiresInterface
    | ExistingSocketAddressFamilyMismatch
    | ExistingSocketAddressMismatch(expectedAddr: IpAddr, actualAddr: IpAddr)
    | ExistingSocketPortMismatch(expectedPort: u16, actualPort: u16)
    | SocketBindFailed(errno: int)
    | SocketOptionFailed(errno: int)
    | SocketConnectFailed(errno: int)
    | RawInterfaceRequired
    | InvalidRawBindAddress
    | RawBindAddressFamilyMismatch
    | RawPacketTransmitUnsupported
    | RawSocketCreateFailed(errno: int)
    | RawUnsupportedLinkType
    | InvalidRawIpDatagram
    | InvalidRawMulticastDestination
    | RawDatagramSourceMismatch(datagramSource: IpAddr, configuredBind: IpAddr)
    | RawSendFailed(errno: int)
    | PartialSend(written: nat, expected: nat)
    | RouteSelectionFailed(cause: EgressError)

  /** The host's address-to-interface lookup: any function. */
  type Resolver = IpAddr -> Result<u32, MctxError>

  datatype Selector = Address(ip: IpAddr) | Index(index: u32) {
    predicate Designates(resolve: Resolver, interface: u32) {
      match this
      case Address(ip) => resolve(ip) == Ok(interface)
      case Index(i) => i == interface
    }
  }

  function InterfaceSelector(interface: OutgoingInterface): Selector {
    match interface
    case ByIpv4Addr(a) => Address(V4(a))
    case ByIpv6Addr(a) => Address(V6(a))
    case ByIpv6Index(i) => Index(i)
  }

  /** Every selector designates this one interface. */
  predicate AllDesignate(selectors: seq<Selector>, resolve: Resolver, interface: u32) {
    forall i :: 0 <= i < |selectors| ==> selectors[i].Designates(resolve, interface)
  }

  /** A nonempty list of selectors designates at most one interface. */
  lemma DesignatedInterfaceIsUnique(selectors: seq<Selector>, resolve: Resolver, a: u32, b: u32)
    requires selectors != [] && AllDesignate(selectors, resolve, a) && AllDesignate(selectors, resolve, b)
    ensures a == b
  {
    assert selectors[0].Designates(resolve, a) && selectors[0].Designates(resolve, b);
  }

  function AddressSelector(ip: Option<IpAddr>): seq<Selector> {
    if ip.Some? then [Address(ip.value)] else []
  }

  function OutgoingSelector(interface: Option<OutgoingInterface>): seq<Selector> {
    if interface.Some? then [InterfaceSelector(interface.value)] else []
  }

  /** Usable as a local address. */
  predicate IsConcrete(ip: IpAddr) {
    !ip.IsMulticast() && !ip.IsUnspecified()
  }

  /** Interface-local and link-local groups. */
  predicate NeedsZone(group: Ipv6Addr) {
    Ipv6MulticastScope(group) in {Some(InterfaceLocal), Some(LinkLocal)}
  }
}
