/** The parsers of a NETLINK_ROUTE dump: the nested message, attribute and next-hop loops. */
module RouteDump {
  import opened Base
  import opened Addresses
  import opened Ipv6Prefix
  import opened Netlink

  const AF_INET6 := 10
  const RT_TABLE_MAIN: u32 := 254
  const RTA_DST := 1
  const RTA_OIF := 4
  const RTA_PRIORITY := 6
  const RTA_MULTIPATH := 9
  const RTA_TABLE := 15
  const RTN_UNICAST := 1
  const RTN_MULTICAST := 5
  const RTN_BLACKHOLE := 6
  const RTN_UNREACHABLE := 7
  const RTN_PROHIBIT := 8
  const EAGAIN := 11
  const EACCES := 13
  const ENETUNREACH := 101
  const ENOBUFS := 105

  const ROUTE_HEADER_LEN := 12
  const ATTRIBUTE_HEADER_LEN := 4
  const NEXT_HOP_LEN := 8
  const MAX_DATAGRAM_LEN := 1024 * 1024

  datatype NetError = Os(errno: int) | InvalidData

  datatype Disposition = Interface(index: u32) | Unroutable(errno: int)

  datatype Candidate = Candidate(prefixLen: nat, priority: u32, disposition: Disposition)

  predicate IsBetterThan(c: Candidate, current: Option<Candidate>) {
    current.None?
    || c.prefixLen > current.value.prefixLen
    || (c.prefixLen == current.value.prefixLen && c.priority < current.value.priority)
  }

  function SaturatingNeg(e: i32): i32 {
    if e == -0x8000_0000 then 0x7fff_ffff else -e
  }

  // ----- Next hops -----

  function NextHopsFrom(value: seq<byte>, at: nat): Result<Option<u32>, NetError>
    decreases |value| - at
  {
    if at + NEXT_HOP_LEN > |value| then Ok(None) else
    var len := FromLe16(value, at);
    if len < NEXT_HOP_LEN || at + len > |value| then Err(InvalidData) else
    var index := AsI32(FromLe32(value, at + 4));
    if value[at + 2] % 2 == 0 && index > 0 then Ok(Some(index))
    else NextHopsFrom(value, at + Align(len))
  }

  method ParseMultipathInterface(value: seq<byte>) returns (r: Result<Option<u32>, NetError>)
    ensures r == NextHopsFrom(value, 0)
  {
    var offset := 0;
    while offset + NEXT_HOP_LEN <= |value|
      invariant NextHopsFrom(value, offset) == NextHopsFrom(value, 0)
      decreases |value| - offset
    {
      var len := FromLe16(value, offset);
      if len < NEXT_HOP_LEN || offset + len > |value| {
        return Err(InvalidData);
      }
      var index := AsI32(FromLe32(value, offset + 4));
      if value[offset + 2] % 2 == 0 && index > 0 {
        return Ok(Some(index));
      }
      offset := offset + Align(len);
    }
    return Ok(None);
  }

  // ----- Attributes -----

  /** What the attribute loop has gathered so far. */
  datatype Gathered = Gathered(
    table: u32, prefix: Ipv6Addr, interface: Option<u32>, multipath: Option<u32>, priority: u32)

  function ReadU32(value: seq<byte>): Result<u32, NetError> {
    if |value| < 4 then Err(InvalidData) else Ok(FromLe32(value, 0))
  }

  /** The effect of one attribute on the gathered fields. */
  function Absorb(g: Gathered, kind: u16, value: seq<byte>): Result<Gathered, NetError> {
    if kind == RTA_DST then
      if |value| < 16 then Err(InvalidData) else Ok(g.(prefix := value[..16]))
    else if kind == RTA_OIF then
      var index := ReadU32(value);
      if index.Err? then Err(index.error)
      else if index.value == 0 then Err(InvalidData)
      else Ok(g.(interface := Some(index.value)))
    else if kind == RTA_PRIORITY then
      var priority := ReadU32(value);
      if priority.Err? then Err(priority.error) else Ok(g.(priority := priority.value))
    else if kind == RTA_TABLE then
      var table := ReadU32(value);
      if table.Err? then Err(table.error) else Ok(g.(table := table.value))
    else if kind == RTA_MULTIPATH then
      var hop := NextHopsFrom(value, 0);
      if hop.Err? then Err(hop.error) else Ok(g.(multipath := hop.value))
    else Ok(g)
  }

  function AttributesFrom(payload: seq<byte>, at: nat, g: Gathered): Result<Gathered, NetError>
    decreases |payload| - at
  {
    if at + ATTRIBUTE_HEADER_LEN > |payload| then Ok(g) else
    var len := FromLe16(payload, at);
    if len < ATTRIBUTE_HEADER_LEN || at + len > |payload| then Err(InvalidData) else
    var next := Absorb(g, FromLe16(payload, at + 2) % 0x4000, payload[at + ATTRIBUTE_HEADER_LEN..at + len]);
    if next.Err? then next else AttributesFrom(payload, at + Align(len), next.value)
  }

  /** The candidate a route offers once its attributes are known. */
  function Conclude(g: Gathered, prefixLen: nat, kind: byte, destination: Ipv6Addr)
    : Result<Option<Candidate>, NetError>
    requires prefixLen <= 128
  {
    if g.table != RT_TABLE_MAIN || !PrefixMatches(destination, g.prefix, prefixLen) then Ok(None)
    else if kind == RTN_UNICAST || kind == RTN_MULTICAST then
      if g.interface.Some? then Ok(Some(Candidate(prefixLen, g.priority, Interface(g.interface.value))))
      else if g.multipath.Some? then Ok(Some(Candidate(prefixLen, g.priority, Interface(g.multipath.value))))
      else Err(InvalidData)
    else if kind == RTN_BLACKHOLE || kind == RTN_UNREACHABLE then
      Ok(Some(Candidate(prefixLen, g.priority, Unroutable(ENETUNREACH))))
    else if kind == RTN_PROHIBIT then
      Ok(Some(Candidate(prefixLen, g.priority, Unroutable(EACCES))))
    else Ok(None)
  }

  function RouteCandidate(payload: seq<byte>, destination: Ipv6Addr): Result<Option<Candidate>, NetError> {
    if |payload| < ROUTE_HEADER_LEN then Err(InvalidData)
    else if payload[0] != AF_INET6 || payload[1] > 128 then Ok(None)
    else
      var g := AttributesFrom(payload, ROUTE_HEADER_LEN, Gathered(payload[4], UNSPECIFIED, None, None, 0));
      if g.Err? then Err(g.error) else Conclude(g.value, payload[1], payload[7], destination)
  }

  method ParseRouteCandidate(payload: seq<byte>, destination: Ipv6Addr)
    returns (r: Result<Option<Candidate>, NetError>)
    ensures r == RouteCandidate(payload, destination)
  {
    if |payload| < ROUTE_HEADER_LEN {
      return Err(InvalidData);
    }
    if payload[0] != AF_INET6 || payload[1] > 128 {
      return Ok(None);
    }
    var g := Gathered(payload[4], UNSPECIFIED, None, None, 0);
    var offset := Align(ROUTE_HEADER_LEN);
    ghost var start := AttributesFrom(payload, ROUTE_HEADER_LEN, g);
    while offset + ATTRIBUTE_HEADER_LEN <= |payload|
      invariant AttributesFrom(payload, offset, g) == start
      decreases |payload| - offset
    {
      var len := FromLe16(payload, offset);
      if len < ATTRIBUTE_HEADER_LEN || offset + len > |payload| {
        return Err(InvalidData);
      }
      var value := payload[offset + ATTRIBUTE_HEADER_LEN..offset + len];
      var kind := FromLe16(payload, offset + 2) % 0x4000;
      if kind == RTA_MULTIPATH {
        var hop := ParseMultipathInterface(value);
        if hop.Err? {
          return Err(hop.error);
        }
        g := g.(multipath := hop.value);
      } else {
        var next := Absorb(g, kind, value);
        if next.Err? {
          return Err(next.error);
        }
        g := next.value;
      }
      offset := offset + Align(len);
    }
    return Conclude(g, payload[1], payload[7], destination);
  }

  // ----- Messages -----

  /** What one message of the dump does. */
  datatype Event = Skip | Offer(candidate: Candidate) | Stop | Fail(error: NetError)

  function MessageEvent(b: seq<byte>, at: nat, sequence: u32, destination: Ipv6Addr): Event
    requires WellFramed(b, at)
  {
    var len, kind, body := MessageLen(b, at), MessageType(b, at), at + HEADER_LEN;
    if MessageSequence(b, at) != sequence then Skip
    else if MessageFlags(b, at) / 0x10 % 2 != 0 then Fail(Os(EAGAIN))
    else if kind == NLMSG_ERROR then
      if body + 4 > |b| then Fail(InvalidData) else StatusEvent(AsI32(FromLe32(b, body)), Skip)
    else if kind == NLMSG_DONE then
      if body + 4 <= at + len then StatusEvent(AsI32(FromLe32(b, body)), Stop) else Stop
    else if kind == RTM_NEWROUTE then
      var c := RouteCandidate(b[body..at + len], destination);
      if c.Err? then Fail(c.error) else if c.value.None? then Skip else Offer(c.value.value)
    else if kind == NLMSG_OVERRUN then Fail(Os(ENOBUFS))
    else Skip
  }

  function StatusEvent(status: i32, onSuccess: Event): Event {
    if status != 0 then Fail(Os(SaturatingNeg(status))) else onSuccess
  }

  datatype DumpState = More(best: Option<Candidate>) | Finished(best: Option<Candidate>) | Failed(error: NetError)

  function Prefer(c: Candidate, best: Option<Candidate>): Option<Candidate> {
    if IsBetterThan(c, best) then Some(c) else best
  }

  function Apply(e: Event, best: Option<Candidate>): DumpState {
    match e
    case Skip => More(best)
    case Offer(c) => More(Prefer(c, best))
    case Stop => Finished(best)
    case Fail(error) => Failed(error)
  }

  function DumpFrom(b: seq<byte>, at: nat, sequence: u32, destination: Ipv6Addr, best: Option<Candidate>): DumpState
    decreases |b| - at
  {
    if at + HEADER_LEN > |b| then More(best)
    else if !WellFramed(b, at) then Failed(InvalidData)
    else
      var state := Apply(MessageEvent(b, at, sequence, destination), best);
      if state.More? then DumpFrom(b, at + Align(MessageLen(b, at)), sequence, destination, state.best) else state
  }

  method ParseRouteDumpDatagram(buffer: seq<byte>, sequence: u32, destination: Ipv6Addr, current: Option<Candidate>)
    returns (finished: Result<bool, NetError>, best: Option<Candidate>)
    ensures match DumpFrom(buffer, 0, sequence, destination, current)
            case More(b) => finished == Ok(false) && best == b
            case Finished(b) => finished == Ok(true) && best == b
            case Failed(e) => finished == Err(e)
  {
    best := current;
    var offset := 0;
    while offset + HEADER_LEN <= |buffer|
      invariant DumpFrom(buffer, offset, sequence, destination, best)
                == DumpFrom(buffer, 0, sequence, destination, current)
      decreases |buffer| - offset
    {
      var messageLen := MessageLen(buffer, offset);
      if messageLen < HEADER_LEN || offset + messageLen > |buffer| {
        return Err(InvalidData), best;
      }
      if MessageSequence(buffer, offset) == sequence {
        if MessageFlags(buffer, offset) / 0x10 % 2 != 0 {
          return Err(Os(EAGAIN)), best;
        }
        var payloadOffset := offset + HEADER_LEN;
        var kind := MessageType(buffer, offset);
        if kind == NLMSG_ERROR {
          if payloadOffset + 4 > |buffer| {
            return Err(InvalidData), best;
          }
          var error := AsI32(FromLe32(buffer, payloadOffset));
          if error != 0 {
            return Err(Os(SaturatingNeg(error))), best;
          }
        } else if kind == NLMSG_DONE {
          if payloadOffset + 4 <= offset + messageLen {
            var error := AsI32(FromLe32(buffer, payloadOffset));
            if error != 0 {
              return Err(Os(SaturatingNeg(error))), best;
            }
          }
          return Ok(true), best;
        } else if kind == RTM_NEWROUTE {
          var candidate := ParseRouteCandidate(buffer[payloadOffset..offset + messageLen], destination);
          if candidate.Err? {
            return Err(candidate.error), best;
          }
          if candidate.value.Some? && IsBetterThan(candidate.value.value, best) {
            best := candidate.value;
          }
        } else if kind == NLMSG_OVERRUN {
          return Err(Os(ENOBUFS)), best;
        }
      }
      offset := offset + Align(messageLen);
    }
    return Ok(false), best;
  }

  // ----- Receiving a whole dump -----

  /** Result of one blocking receive on the request socket; an exhausted stream is the receive timeout. */
  datatype Recv = Datagram(bytes: seq<byte>) | RecvFailed(errno: int)

  function Selected(best: Option<Candidate>): Result<u32, NetError> {
    match best
    case None => Err(Os(ENETUNREACH))
    case Some(c) => match c.disposition case Interface(i) => Ok(i) case Unroutable(e) => Err(Os(e))
  }

  function ReceiveFrom(recvs: seq<Recv>, sequence: u32, destination: Ipv6Addr, best: Option<Candidate>)
    : Result<u32, NetError>
  {
    if recvs == [] then Err(Os(EAGAIN))
    else match recvs[0]
      case RecvFailed(e) => Err(Os(e))
      case Datagram(bytes) =>
        if |bytes| == 0 || |bytes| > MAX_DATAGRAM_LEN then Err(InvalidData)
        else match DumpFrom(bytes, 0, sequence, destination, best)
          case More(b) => ReceiveFrom(recvs[1..], sequence, destination, b)
          case Finished(b) => Selected(b)
          case Failed(e) => Err(e)
  }

  method ReceiveRouteDump(recvs: seq<Recv>, sequence: u32, destination: Ipv6Addr)
    returns (r: Result<u32, NetError>)
    ensures r == ReceiveFrom(recvs, sequence, destination, None)
  {
    var best: Option<Candidate> := None;
    var i := 0;
    while i < |recvs|
      invariant i <= |recvs|
      invariant ReceiveFrom(recvs[i..], sequence, destination, best) == ReceiveFrom(recvs, sequence, destination, None)
    {
      assert recvs[i..][1..] == recvs[i + 1..];
      if recvs[i].RecvFailed? {
        return Err(Os(recvs[i].errno));
      }
      var bytes := recvs[i].bytes;
      if |bytes| == 0 || |bytes| > MAX_DATAGRAM_LEN {
        return Err(InvalidData);
      }
      var finished, next := ParseRouteDumpDatagram(bytes, sequence, destination, best);
      if finished.Err? {
        return Err(finished.error);
      }
      best := next;
      if finished.value {
        return Selected(best);
      }
      i := i + 1;
    }
    return Err(Os(EAGAIN));
  }
}
