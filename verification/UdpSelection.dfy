/** Interface selection and socket configuration of IPv6 UDP publications. */
module UdpSelection {
  import opened Base
  import opened Addresses
  import opened Selectors

  datatype PublicationConfig = PublicationConfig(
    group: IpAddr, dstPort: u16, outgoingInterface: Option<OutgoingInterface>,
    sourcePort: Option<u16>, sourceAddr: Option<IpAddr>, ttl: u32, loopback: bool)

  const ADDR_IN_USE := 98

  // ----- Validation (src/config.rs) -----

  function Validate(config: PublicationConfig): Result<(), MctxError> {
    if config.dstPort == 0 then Err(InvalidDestinationPort)
    else if !config.group.IsMulticast() then Err(InvalidMulticastGroup)
    else if config.sourcePort == Some(0) then Err(InvalidSourcePort)
    else if config.sourceAddr.Some? && !IsConcrete(config.sourceAddr.value) then Err(InvalidSourceAddress)
    else if config.sourceAddr.Some? && config.sourceAddr.value.AddressFamily() != config.group.AddressFamily() then
      Err(SourceAddressFamilyMismatch)
    else match config.outgoingInterface
      case None => Ok(())
      case Some(interface) =>
        if interface.InterfaceFamily() != config.group.AddressFamily() then Err(OutgoingInterfaceFamilyMismatch)
        else match interface
          case ByIpv4Addr(a) => if IsConcrete(V4(a)) then Ok(()) else Err(InvalidInterfaceAddress)
          case ByIpv6Addr(a) => if IsConcrete(V6(a)) then Ok(()) else Err(InvalidInterfaceAddress)
          case ByIpv6Index(i) => if i == 0 then Err(InvalidIpv6InterfaceIndex) else Ok(())
  }

  /** A validated IPv6 publication. */
  predicate IsIpv6(config: PublicationConfig) {
    Validate(config).Ok? && config.group.V6?
  }

  // ----- Selection, as the code computes it -----

  function SourceAddrV6(config: PublicationConfig): Option<Ipv6Addr>
    requires IsIpv6(config)
  {
    match config.sourceAddr
    case Some(V4(_)) => assert false; None
    case Some(V6(a)) => Some(a)
    case None => None
  }

  function InterfaceAddrV6(config: PublicationConfig): Option<Ipv6Addr>
    requires IsIpv6(config)
  {
    match config.outgoingInterface
    case Some(ByIpv4Addr(_)) => assert false; None
    case Some(ByIpv6Addr(a)) => Some(a)
    case Some(ByIpv6Index(_)) => None
    case None => None
  }

  function Resolved(resolve: Resolver, a: Ipv6Addr): Result<Option<u32>, MctxError> {
    match resolve(V6(a))
    case Ok(index) => Ok(Some(index))
    case Err(e) => Err(e)
  }

  function ExplicitInterfaceIndexV6(config: PublicationConfig, resolve: Resolver): Result<Option<u32>, MctxError>
    requires IsIpv6(config)
  {
    match config.outgoingInterface
    case Some(ByIpv4Addr(_)) => assert false; Ok(None)
    case Some(ByIpv6Index(i)) => Ok(Some(i))
    case Some(ByIpv6Addr(a)) => Resolved(resolve, a)
    case None => Ok(None)
  }

  function SourceInterfaceIndex(source: Option<Ipv6Addr>, interfaceAddr: Option<Ipv6Addr>,
                                explicit: Option<u32>, resolve: Resolver): Result<Option<u32>, MctxError>
  {
    if source.None? then Ok(None)
    else if interfaceAddr == source then Ok(explicit)
    else if V6(source.value).IsUnicastLinkLocal() && explicit.Some? then Ok(explicit)
    else Resolved(resolve, source.value)
  }

  /** What the configuration decides before any socket call. */
  datatype Selection = Selection(interface: Option<u32>, bindSource: Option<Ipv6Addr>, bindScope: u32)

  function SelectV6(config: PublicationConfig, resolve: Resolver): Result<Selection, MctxError>
    requires IsIpv6(config)
  {
    var source := SourceAddrV6(config);
    var interfaceAddr := InterfaceAddrV6(config);
    match ExplicitInterfaceIndexV6(config, resolve)
    case Err(e) => Err(e)
    case Ok(explicit) =>
      match SourceInterfaceIndex(source, interfaceAddr, explicit, resolve)
      case Err(e) => Err(e)
      case Ok(sourceIndex) =>
        if source.Some? && sourceIndex.Some? && explicit.Some? && sourceIndex != explicit then
          Err(Ipv6SourceInterfaceMismatch(source.value, sourceIndex.value, explicit.value))
        else
          var effective := if explicit.Some? then explicit else sourceIndex;
          var bindSource := if source.Some? then source else interfaceAddr;
          if bindSource.Some? && V6(bindSource.value).IsUnicastLinkLocal() then
            if effective.None? then Err(InterfaceDiscoveryFailed)
            else Ok(Selection(effective, bindSource, effective.value))
          else Ok(Selection(effective, bindSource, 0))
  }

  // ----- Selection, as it is meant -----

  /** The selectors that are looked up: a link-local source is taken on trust when an interface is named,
      because its address alone does not say which link it is on. */
  function ConsultedSelectors(config: PublicationConfig): seq<Selector> {
    OutgoingSelector(config.outgoingInterface)
    + if config.sourceAddr.Some? && config.sourceAddr.value.IsUnicastLinkLocal() && config.outgoingInterface.Some?
      then [] else AddressSelector(config.sourceAddr)
  }

  /** All consulted selectors designate the one selected interface, and the socket is bound to the explicit
      source, else the interface address, zoned exactly when it is link-local. */
  ghost predicate IsSelection(config: PublicationConfig, resolve: Resolver, s: Selection) {
    && (s.interface.None? <==> ConsultedSelectors(config) == [])
    && (s.interface.Some? ==> AllDesignate(ConsultedSelectors(config), resolve, s.interface.value))
    && (match config.sourceAddr
        case Some(ip) => s.bindSource == Some(ip.Octets())
        case None =>
          match config.outgoingInterface
          case Some(ByIpv6Addr(a)) => s.bindSource == Some(a)
          case _ => s.bindSource == None)
    && (if s.bindSource.Some? && V6(s.bindSource.value).IsUnicastLinkLocal()
        then s.interface == Some(s.bindScope) else s.bindScope == 0)
  }

  /** The code's case analysis computes exactly the intended selection, whatever the resolver; no other
      interface is designated by all consulted selectors. */
  lemma SelectionIff(config: PublicationConfig, resolve: Resolver, s: Selection)
    requires IsIpv6(config)
    ensures SelectV6(config, resolve) == Ok(s) <==> IsSelection(config, resolve, s)
    ensures IsSelection(config, resolve, s) && s.interface.Some? ==>
              forall other: u32 ::
                AllDesignate(ConsultedSelectors(config), resolve, other) ==> other == s.interface.value
  {
    if s.interface.Some? {
      AllDesignateLists(config, resolve, s.interface.value);
      forall other: u32 | IsSelection(config, resolve, s) && AllDesignate(ConsultedSelectors(config), resolve, other)
        ensures other == s.interface.value
      {
        DesignatedInterfaceIsUnique(ConsultedSelectors(config), resolve, other, s.interface.value);
      }
    }
  }

  lemma AllDesignateLists(config: PublicationConfig, resolve: Resolver, interface: u32)
    requires IsIpv6(config)
    ensures AllDesignate(ConsultedSelectors(config), resolve, interface) <==>
            && (config.outgoingInterface.Some? ==>
                  InterfaceSelector(config.outgoingInterface.value).Designates(resolve, interface))
            && (config.sourceAddr.Some?
                && !(config.sourceAddr.value.IsUnicastLinkLocal() && config.outgoingInterface.Some?) ==>
                  Address(config.sourceAddr.value).Designates(resolve, interface))
  {
    var selectors := ConsultedSelectors(config);
    var o := OutgoingSelector(config.outgoingInterface);
    if AllDesignate(selectors, resolve, interface) {
      if config.outgoingInterface.Some? {
        assert selectors[0] == o[0];
      }
      if |selectors| > |o| {
        assert selectors[|o|] == Address(config.sourceAddr.value);
      }
    }
  }

  /** Selection fails only with the resolver's own answer for a consulted address, or because two consulted
      selectors really designate different interfaces; the link-local discovery error never arises here. */
  lemma SelectionErrors(config: PublicationConfig, resolve: Resolver)
    requires IsIpv6(config) && SelectV6(config, resolve).Err?
    ensures var e := SelectV6(config, resolve).error;
            || (exists i :: 0 <= i < |ConsultedSelectors(config)| && ConsultedSelectors(config)[i].Address?
                            && resolve(ConsultedSelectors(config)[i].ip) == Err(e))
            || (&& e.Ipv6SourceInterfaceMismatch? && e.sourceIndex != e.outgoingIndex
                && config.sourceAddr == Some(V6(e.source)) && config.outgoingInterface.Some?
                && Address(V6(e.source)).Designates(resolve, e.sourceIndex)
                && InterfaceSelector(config.outgoingInterface.value).Designates(resolve, e.outgoingIndex))
  {
    var selectors := ConsultedSelectors(config);
    var o := OutgoingSelector(config.outgoingInterface);
    if config.outgoingInterface.Some? {
      assert selectors[0] == o[0];
    }
    if |selectors| > |o| {
      assert selectors[|o|] == Address(config.sourceAddr.value);
    }
  }

  // ----- The socket -----

  /** `scope` is the IPv6 zone, zero for IPv4. */
  datatype SocketAddr = SocketAddr(ip: IpAddr, port: u16, scope: u32)

  datatype LocalName = Unreadable | NotIp | Named(addr: SocketAddr)

  predicate IsUnbound(addr: SocketAddr) {
    addr.port == 0 && addr.ip.IsUnspecified()
  }

  predicate MatchesBindConstraints(local: SocketAddr, requested: SocketAddr) {
    && local.ip.AddressFamily() == requested.ip.AddressFamily()
    && (requested.ip.IsUnspecified() || requested.ip == local.ip)
    && (requested.port == 0 || requested.port == local.port)
    && (requested.ip.V6? ==> requested.scope == 0 || requested.scope == local.scope)
  }

  function ValidateExistingSocket(local: LocalName, config: PublicationConfig): Result<(), MctxError> {
    match local
    case Unreadable => Ok(())
    case NotIp => Err(ExistingSocketAddressFamilyMismatch)
    case Named(addr) =>
      if addr.ip.AddressFamily() != config.group.AddressFamily() then Err(ExistingSocketAddressFamilyMismatch)
      else if IsUnbound(addr) then Ok(())
      else if config.sourceAddr.Some? && config.sourceAddr.value.AddressFamily() == addr.ip.AddressFamily()
              && addr.ip != config.sourceAddr.value then
        Err(ExistingSocketAddressMismatch(config.sourceAddr.value, addr.ip))
      else if config.sourcePort.Some? && addr.port != config.sourcePort.value then
        Err(ExistingSocketPortMismatch(config.sourcePort.value, addr.port))
      else Ok(())
  }

  /** The address to bind, when the configuration constrains it at all. */
  function BindRequest(config: PublicationConfig, s: Selection): Option<SocketAddr> {
    if s.bindSource.None? && config.sourcePort.None? then None
    else Some(SocketAddr(V6(s.bindSource.GetOr(UNSPECIFIED)), config.sourcePort.GetOr(0), s.bindScope))
  }

  /** The socket a caller hands in is refused at the bind exactly when the early check refuses it, or it is
      bound to another address than the named interface's, or to the right link-local address in another
      zone. */
  lemma BindRefusalIff(config: PublicationConfig, resolve: Resolver, s: Selection, addr: SocketAddr)
    requires IsIpv6(config) && SelectV6(config, resolve) == Ok(s)
    requires addr.ip.V6? && !IsUnbound(addr)
    ensures (BindRequest(config, s).Some? && !MatchesBindConstraints(addr, BindRequest(config, s).value)) <==>
            || ValidateExistingSocket(Named(addr), config).Err?
            || (config.sourceAddr.None? && config.outgoingInterface.Some? && config.outgoingInterface.value.ByIpv6Addr?
                && addr.ip != V6(config.outgoingInterface.value.v6))
            || (s.bindScope != 0 && addr.scope != s.bindScope)
  {
    SelectionIff(config, resolve, s);
    if s.bindSource.Some? {
      assert IsConcrete(V6(s.bindSource.value));
    }
  }

  /** Results of the socket calls; `bind` says which name the socket then has. */
  datatype Syscalls = Syscalls(
    setNonblocking: Option<int>, setOnlyV6: Option<int>, bind: SocketAddr -> Result<SocketAddr, int>,
    setInterface: Option<int>, setLoop: Option<int>, setHops: Option<int>, connect: Option<int>)
  {
    /** The kernel binds to what was asked, filling in what was left open. */
    ghost predicate BindsAsAsked() {
      forall a :: bind(a).Ok? ==> MatchesBindConstraints(bind(a).value, a)
    }

    ghost predicate AllSucceed() {
      && setNonblocking.None? && setOnlyV6.None? && setInterface.None? && setLoop.None? && setHops.None?
      && connect.None? && forall a :: bind(a).Ok?
    }
  }

  /** What the configuration demands of the name of a configured socket. */
  ghost predicate BoundAsSelected(local: LocalName, config: PublicationConfig, s: Selection) {
    && (s.bindSource.Some? ==> local.Named? && local.addr.ip == V6(s.bindSource.value))
    && (s.bindScope != 0 ==> local.Named? && local.addr.scope == s.bindScope)
    && (config.sourcePort.Some? ==> local.Named? && local.addr.port == config.sourcePort.value)
  }

  /** A name that satisfies the bind request is the selected one. */
  lemma RequestDemandsSelection(config: PublicationConfig, resolve: Resolver, s: Selection, local: LocalName)
    requires IsIpv6(config) && IsSelection(config, resolve, s)
    requires BindRequest(config, s).Some? ==>
               local.Named? && MatchesBindConstraints(local.addr, BindRequest(config, s).value)
    ensures BoundAsSelected(local, config, s)
  {
    if s.bindSource.Some? {
      assert IsConcrete(V6(s.bindSource.value));
    }
  }

  /** The socket's current name leaves room for the bind request. */
  predicate CanBind(local: LocalName, request: Option<SocketAddr>) {
    request.Some? ==>
      local.Unreadable?
      || (local.Named? && (IsUnbound(local.addr) || MatchesBindConstraints(local.addr, request.value)))
  }

  function DestinationScopeId(group: Ipv6Addr, interface: u32): u32 {
    match Ipv6MulticastScope(group)
    case Some(InterfaceLocal) => interface
    case Some(LinkLocal) => interface
    case _ => 0
  }

  class UdpSocket {
    var local: LocalName
    var nonblocking: bool
    var onlyV6: bool
    var multicastInterface: Option<u32>
    var multicastLoop: Option<bool>
    var multicastHops: Option<u32>
    var peer: Option<SocketAddr>

    constructor (local: LocalName)
      ensures this.local == local && peer == None && multicastInterface == None
    {
      this.local := local;
      nonblocking, onlyV6 := false, false;
      multicastInterface, multicastLoop, multicastHops, peer := None, None, None, None;
    }

    /** One interface, designated by every consulted selector, carries the multicast, zones the destination
        of interface-local and link-local groups, and zones a link-local source. */
    ghost predicate ConfiguredFor(config: PublicationConfig, resolve: Resolver, destination: SocketAddr)
      requires IsIpv6(config)
      reads this
    {
      && SelectV6(config, resolve).Ok?
      && var s := SelectV6(config, resolve).value;
      && IsSelection(config, resolve, s)
      && BoundAsSelected(local, config, s)
      && (s.interface.Some? ==> multicastInterface == s.interface)
      && (if NeedsZone(config.group.v6) then s.interface == Some(destination.scope) else destination.scope == 0)
      && destination.ip == config.group && destination.port == config.dstPort
      && peer == Some(destination)
      && multicastLoop == Some(config.loopback) && multicastHops == Some(config.ttl)
    }

    /** Keeps a name that already satisfies the request and binds an unbound socket; never rebinds. */
    method BindIfNeeded(requested: SocketAddr, calls: Syscalls) returns (r: Result<(), MctxError>)
      requires calls.BindsAsAsked()
      modifies this`local
      ensures r.Ok? ==> local.Named? && MatchesBindConstraints(local.addr, requested)
      ensures old(local).Named? && !IsUnbound(old(local).addr) ==>
                local == old(local) && (r.Ok? <==> MatchesBindConstraints(old(local).addr, requested))
      ensures r.Err? ==> local == old(local)
      ensures old(local).NotIp? ==> r == Err(ExistingSocketAddressFamilyMismatch)
      ensures old(local).Unreadable? || (old(local).Named? && IsUnbound(old(local).addr)) ==>
                (r.Ok? <==> calls.bind(requested).Ok?)
    {
      if local.NotIp? {
        return Err(ExistingSocketAddressFamilyMismatch);
      }
      if local.Named? && !IsUnbound(local.addr) {
        if MatchesBindConstraints(local.addr, requested) {
          return Ok(());
        }
        return Err(SocketBindFailed(ADDR_IN_USE));
      }
      var bound := calls.bind(requested);
      if bound.Err? {
        return Err(SocketBindFailed(bound.error));
      }
      local := Named(bound.value);
      return Ok(());
    }

    method ConfigureV6(config: PublicationConfig, resolve: Resolver, calls: Syscalls)
      returns (r: Result<SocketAddr, MctxError>)
      requires IsIpv6(config) && calls.BindsAsAsked()
      modifies this`local, this`multicastInterface, this`multicastLoop, this`multicastHops, this`peer
      ensures r.Ok? ==> ConfiguredFor(config, resolve, r.value)
      ensures r.Ok? && BindRequest(config, SelectV6(config, resolve).value).None? ==> local == old(local)
      ensures r.Ok? && SelectV6(config, resolve).value.interface.None? ==> multicastInterface == old(multicastInterface)
      // When every socket call works, these are the only reasons to refuse.
      ensures calls.AllSucceed() ==>
                (r.Ok? <==>
                  && SelectV6(config, resolve).Ok?
                  && CanBind(old(local), BindRequest(config, SelectV6(config, resolve).value))
                  && (NeedsZone(config.group.v6) ==> SelectV6(config, resolve).value.interface.Some?))
      // Failure: never connected. A selection error leaves the socket alone; a group that needs a zone but
      // names no interface is refused even when every socket call works.
      ensures r.Err? ==> peer == old(peer)
      ensures SelectV6(config, resolve).Err? ==>
                && r == Err(SelectV6(config, resolve).error)
                && local == old(local) && multicastInterface == old(multicastInterface)
      ensures SelectV6(config, resolve).Ok? && SelectV6(config, resolve).value.interface.None?
              && NeedsZone(config.group.v6) ==>
                && r.Err?
                && (config.sourcePort.None? && calls.setLoop.None? && calls.setHops.None? ==>
                      r == Err(Ipv6ScopedMulticastRequiresInterface))
      ensures old(local).Named? && !IsUnbound(old(local).addr) ==> local == old(local)
    {
      var selected := SelectV6(config, resolve);
      if selected.Err? {
        return Err(selected.error);
      }
      var s := selected.value;
      SelectionIff(config, resolve, s);
      var request := BindRequest(config, s);
      if request.Some? {
        var bound := BindIfNeeded(request.value, calls);
        if bound.Err? {
          return Err(bound.error);
        }
      }
      RequestDemandsSelection(config, resolve, s, local);
      if s.interface.Some? {
        if calls.setInterface.Some? {
          return Err(SocketOptionFailed(calls.setInterface.value));
        }
        multicastInterface := s.interface;
      }
      if calls.setLoop.Some? {
        return Err(SocketOptionFailed(calls.setLoop.value));
      }
      multicastLoop := Some(config.loopback);
      if calls.setHops.Some? {
        return Err(SocketOptionFailed(calls.setHops.value));
      }
      multicastHops := Some(config.ttl);
      var scope := 0;
      if NeedsZone(config.group.v6) {
        if s.interface.None? {
          return Err(Ipv6ScopedMulticastRequiresInterface);
        }
        scope := s.interface.value;
      } else {
        scope := DestinationScopeId(config.group.v6, s.interface.GetOr(0));
      }
      var destination := SocketAddr(config.group, config.dstPort, scope);
      if calls.connect.Some? {
        return Err(SocketConnectFailed(calls.connect.value));
      }
      peer := Some(destination);
      return Ok(destination);
    }

    /** `configure_socket` for an IPv6 publication, on a new socket or one the caller hands in. */
    method Configure(config: PublicationConfig, existing: bool, resolve: Resolver, calls: Syscalls)
      returns (r: Result<SocketAddr, MctxError>)
      requires IsIpv6(config) && calls.BindsAsAsked()
      modifies this
      ensures r.Ok? ==> nonblocking && onlyV6 == (!existing || old(onlyV6)) && ConfiguredFor(config, resolve, r.value)
      // A socket that is already bound keeps its name, and is accepted only with an IPv6 one.
      ensures existing && old(local).Named? && !IsUnbound(old(local).addr) ==> local == old(local)
      ensures existing && old(local).Named? && old(local).addr.ip.V4? ==>
                r == Err(ExistingSocketAddressFamilyMismatch) && unchanged(this)
      ensures existing && ValidateExistingSocket(old(local), config).Err? ==>
                r == Err(ValidateExistingSocket(old(local), config).error) && unchanged(this)
      ensures r.Err? ==> peer == old(peer)
    {
      if existing {
        var checked := ValidateExistingSocket(local, config);
        if checked.Err? {
          return Err(checked.error);
        }
      }
      if calls.setNonblocking.Some? {
        return Err(SocketOptionFailed(calls.setNonblocking.value));
      }
      nonblocking := true;
      if !existing {
        if calls.setOnlyV6.Some? {
          return Err(SocketOptionFailed(calls.setOnlyV6.value));
        }
        onlyV6 := true;
      }
      r := ConfigureV6(config, resolve, calls);
    }
  }
}
