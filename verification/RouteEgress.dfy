/** The route-selected egress object: its one-entry cache, sequence numbers and notification drain. */
module RouteEgress {
  import opened Base
  import opened Addresses
  import opened Netlink
  import opened RouteDump

  /** Result of one nonblocking receive on the notification socket. */
  datatype NotificationRecv =
    | Notification(bytes: seq<byte>)
    | Interrupted
    | WouldBlock
    | NoBuffers
    | ReceiveError(errno: int)

  datatype EgressError = ScopedMulticastRequiresInterface | SendFailed(cause: NetError) | OpenFailed

  datatype CachedRoute<S> = CachedRoute(destination: Ipv6Addr, interface: u32, socket: S)

  /** An empty datagram, and any buffer the scan flags, asks for invalidation. */
  predicate Invalidates(bytes: seq<byte>) {
    bytes == [] || ScanFrom(Truncated(bytes), 0)
  }

  /** What draining a stream of receives reports; an exhausted stream is an empty queue. */
  function Drain(recvs: seq<NotificationRecv>, invalidated: bool): Result<bool, NetError> {
    if recvs == [] then Ok(invalidated)
    else match recvs[0]
      case Interrupted => Drain(recvs[1..], invalidated)
      case WouldBlock => Ok(invalidated)
      case NoBuffers => Ok(true)
      case ReceiveError(e) => Err(Os(e))
      case Notification(bytes) =>
        if bytes == [] then Ok(true) else Drain(recvs[1..], invalidated || Invalidates(bytes))
  }

  method DrainInvalidationNotifications(recvs: seq<NotificationRecv>) returns (r: Result<bool, NetError>)
    ensures r == Drain(recvs, false)
  {
    var invalidated := false;
    var i := 0;
    while i < |recvs|
      invariant i <= |recvs|
      invariant Drain(recvs[i..], invalidated) == Drain(recvs, false)
    {
      assert recvs[i..][1..] == recvs[i + 1..];
      match recvs[i] {
        case Interrupted =>
        case WouldBlock => return Ok(invalidated);
        case NoBuffers => return Ok(true);
        case ReceiveError(e) => return Err(Os(e));
        case Notification(bytes) =>
          if |bytes| == 0 {
            return Ok(true);
          }
          var found := NotificationBufferInvalidatesRoute(Truncated(bytes));
          invalidated := invalidated || found;
      }
      i := i + 1;
    }
    return Ok(invalidated);
  }

  /** A drain that ends without error reports exactly whether it consumed an invalidating datagram or the
      receive buffer overran. */
  lemma {:induction false} DrainReportsInvalidation(recvs: seq<NotificationRecv>, invalidated: bool)
    requires forall r :: r in recvs ==> r.Notification? || r.Interrupted?
    ensures Drain(recvs, invalidated)
            == Ok(invalidated || exists r :: r in recvs && r.Notification? && Invalidates(r.bytes))
    ensures Drain(recvs + [NoBuffers], invalidated) == Ok(true)
    decreases |recvs|
  {
    if recvs == [] {
      assert recvs + [NoBuffers] == [NoBuffers];
    } else {
      assert (recvs + [NoBuffers])[1..] == recvs[1..] + [NoBuffers];
      assert recvs == [recvs[0]] + recvs[1..];
      var flag := invalidated || (recvs[0].Notification? && Invalidates(recvs[0].bytes));
      DrainReportsInvalidation(recvs[1..], flag);
    }
  }

  predicate RouteSelectableScope(group: Ipv6Addr) {
    group[1] % 16 != 1 && group[1] % 16 != 2
  }

  /** The next dump sequence number, skipping zero on wrap-around. */
  function NextSequence(sequence: u32): (next: u32)
    ensures next != 0 && next != sequence
  {
    if sequence == 0xffff_ffff then 1 else sequence + 1
  }

  /** What one call may do: `before` and `sequence` are the entry and the number it starts from, `open` is what
      opening a packet socket on an interface would give, `after` and `next` are what it leaves. */
  ghost predicate IsEgress<S>(
    destination: Ipv6Addr, notifications: seq<NotificationRecv>, sendError: Option<int>, dump: seq<Recv>,
    open: u32 -> Option<S>, before: Option<CachedRoute<S>>, sequence: u32,
    after: Option<CachedRoute<S>>, next: u32, r: Result<(u32, S), EgressError>)
  {
    var drained := Drain(notifications, false);
    // Nothing is touched before the drain has succeeded.
    if !RouteSelectableScope(destination) then
      r == Err(ScopedMulticastRequiresInterface) && after == before && next == sequence
    else if drained.Err? then
      r == Err(SendFailed(drained.error)) && after == before && next == sequence
    else
      var kept := if drained.value then None else before;
      if kept.Some? && kept.value.destination == destination then
        // A kept entry for the destination answers.
        r == Ok((kept.value.interface, kept.value.socket)) && after == kept && next == sequence
      else
        // Otherwise one fresh dump does, and only a dump whose interface also opened replaces the entry.
        var answer := if sendError.Some? then Err(Os(sendError.value))
                      else ReceiveFrom(dump, sequence, destination, None);
        && next == NextSequence(sequence)
        && if answer.Err? then r == Err(SendFailed(answer.error)) && after == kept
           else if open(answer.value).None? then r == Err(OpenFailed) && after == kept
           else var socket := open(answer.value).value;
                && r == Ok((answer.value, socket))
                && after == Some(CachedRoute(destination, answer.value, socket))
  }

  class LinuxIpv6RouteEgress<S> {
    var nextSequence: u32
    var cached: Option<CachedRoute<S>>

    /** Zero never marks a request of this socket. */
    ghost predicate Valid()
      reads this
    {
      nextSequence != 0
    }

    constructor ()
      ensures Valid() && cached == None
    {
      nextSequence := 1;
      cached := None;
    }

    /** Sends one dump request (unless `sendError` is set) and reads the answer. */
    method Lookup(destination: Ipv6Addr, sendError: Option<int>, dump: seq<Recv>) returns (r: Result<u32, NetError>)
      requires Valid()
      modifies this`nextSequence
      ensures Valid() && nextSequence == NextSequence(old(nextSequence))
      ensures r == if sendError.Some? then Err(Os(sendError.value))
                   else ReceiveFrom(dump, old(nextSequence), destination, None)
    {
      var sequence := nextSequence;
      nextSequence := NextSequence(nextSequence);
      if sendError.Some? {
        return Err(Os(sendError.value));
      }
      r := ReceiveRouteDump(dump, sequence, destination);
    }

    method Egress(destination: Ipv6Addr, notifications: seq<NotificationRecv>,
                  sendError: Option<int>, dump: seq<Recv>, open: u32 -> Option<S>)
      returns (r: Result<(u32, S), EgressError>)
      requires Valid()
      modifies this
      ensures Valid()
      ensures IsEgress(destination, notifications, sendError, dump, open, old(cached), old(nextSequence),
                       cached, nextSequence, r)
    {
      if !RouteSelectableScope(destination) {
        return Err(ScopedMulticastRequiresInterface);
      }
      var drained := DrainInvalidationNotifications(notifications);
      if drained.Err? {
        return Err(SendFailed(drained.error));
      }
      if drained.value {
        cached := None;
      }
      if cached.Some? && cached.value.destination == destination {
        return Ok((cached.value.interface, cached.value.socket));
      }
      var interface := Lookup(destination, sendError, dump);
      if interface.Err? {
        return Err(SendFailed(interface.error));
      }
      var socket := open(interface.value);
      if socket.None? {
        return Err(OpenFailed);
      }
      cached := Some(CachedRoute(destination, interface.value, socket.value));
      return Ok((interface.value, socket.value));
    }

    /** Drops the entry after a failed send, if it still names that interface. */
    method Invalidate(interface: u32)
      modifies this`cached
      ensures cached == if old(cached).Some? && old(cached).value.interface == interface then None else old(cached)
    {
      if cached.Some? && cached.value.interface == interface {
        cached := None;
      }
    }
  }
}
