/** Netlink framing: length-prefixed records padded to four bytes (sections 2.2 and 2.3.2 of RFC 3549),
    and the notification scan that decides whether a cached route must be dropped. */
module Netlink {
  import opened Base

  const HEADER_LEN := 16
  const NLMSG_ERROR := 2
  const NLMSG_DONE := 3
  const NLMSG_OVERRUN := 4
  const RTM_NEWLINK := 16
  const RTM_DELLINK := 17
  const RTM_NEWROUTE := 24
  const RTM_DELROUTE := 25

  const RECEIVE_BUFFER_LEN := 8192

  function Align(length: nat): (r: nat)
    ensures length <= r < length + 4 && r % 4 == 0
  {
    (length + 3) / 4 * 4
  }

  // ----- Message headers -----

  function MessageLen(b: seq<byte>, at: nat): u32
    requires at + HEADER_LEN <= |b|
  {
    FromLe32(b, at)
  }

  function MessageType(b: seq<byte>, at: nat): u16
    requires at + HEADER_LEN <= |b|
  {
    FromLe16(b, at + 4)
  }

  function MessageFlags(b: seq<byte>, at: nat): u16
    requires at + HEADER_LEN <= |b|
  {
    FromLe16(b, at + 6)
  }

  function MessageSequence(b: seq<byte>, at: nat): u32
    requires at + HEADER_LEN <= |b|
  {
    FromLe32(b, at + 8)
  }

  /** A whole message, with a usable length, starts at `at`. */
  predicate WellFramed(b: seq<byte>, at: nat) {
    && at + HEADER_LEN <= |b|
    && HEADER_LEN <= MessageLen(b, at)
    && at + MessageLen(b, at) <= |b|
  }

  // ----- Notification scan -----

  predicate TypeInvalidatesRoute(messageType: u16) {
    messageType == RTM_NEWLINK || messageType == RTM_DELLINK
    || messageType == RTM_NEWROUTE || messageType == RTM_DELROUTE
  }

  /** `starts` walks from `at` over well-framed, harmless messages, each beginning at the aligned end of
      the one before, to a last position with less than a header's worth of bytes behind it. */
  ghost predicate HarmlessRun(b: seq<byte>, at: nat, starts: seq<nat>) {
    && |starts| > 0 && starts[0] == at
    && starts[|starts| - 1] + HEADER_LEN > |b|
    && forall i :: 0 <= i < |starts| - 1 ==>
         && WellFramed(b, starts[i])
         && !TypeInvalidatesRoute(MessageType(b, starts[i]))
         && starts[i + 1] == starts[i] + Align(MessageLen(b, starts[i]))
  }

  predicate ScanFrom(b: seq<byte>, at: nat)
    decreases |b| - at
  {
    if at + HEADER_LEN > |b| then false
    else if !WellFramed(b, at) then true
    else if TypeInvalidatesRoute(MessageType(b, at)) then true
    else ScanFrom(b, at + Align(MessageLen(b, at)))
  }

  method NotificationBufferInvalidatesRoute(buffer: seq<byte>) returns (invalidates: bool)
    ensures invalidates == ScanFrom(buffer, 0)
    ensures !invalidates <==> exists starts :: HarmlessRun(buffer, 0, starts)
  {
    ScanIsExact(buffer, 0);
    var offset := 0;
    while offset + HEADER_LEN <= |buffer|
      invariant ScanFrom(buffer, offset) == ScanFrom(buffer, 0)
      decreases |buffer| - offset
    {
      var messageLen := MessageLen(buffer, offset);
      if messageLen < HEADER_LEN || offset + messageLen > |buffer| {
        return true;
      }
      if TypeInvalidatesRoute(MessageType(buffer, offset)) {
        return true;
      }
      offset := offset + Align(messageLen);
    }
    return false;
  }

  /** The scan is silent exactly on runs of harmless messages: any malformed length and any reachable
      route or link message forces invalidation. */
  lemma {:induction false} ScanIsExact(b: seq<byte>, at: nat)
    ensures !ScanFrom(b, at) <==> exists starts :: HarmlessRun(b, at, starts)
    decreases |b| - at
  {
    if at + HEADER_LEN > |b| {
      assert HarmlessRun(b, at, [at]);
    } else if WellFramed(b, at) && !TypeInvalidatesRoute(MessageType(b, at)) {
      var next := at + Align(MessageLen(b, at));
      ScanIsExact(b, next);
      if !ScanFrom(b, at) {
        var rest :| HarmlessRun(b, next, rest);
        assert HarmlessRun(b, at, [at] + rest);
      } else {
        forall starts | HarmlessRun(b, at, starts)
          ensures false
        {
          assert HarmlessRun(b, next, starts[1..]);
        }
      }
    }
  }

  /** A datagram that opens with a route or link message header. */
  predicate OpensWithRouteChange(b: seq<byte>) {
    |b| >= HEADER_LEN && TypeInvalidatesRoute(MessageType(b, 0))
  }

  function Truncated(b: seq<byte>): seq<byte> {
    if |b| <= RECEIVE_BUFFER_LEN then b else b[..RECEIVE_BUFFER_LEN]
  }

  /** Cutting a change notification off at the receive buffer cannot hide it. */
  lemma ChangeSurvivesTruncation(b: seq<byte>)
    requires OpensWithRouteChange(b)
    ensures ScanFrom(Truncated(b), 0)
  {
    assert MessageType(Truncated(b), 0) == MessageType(b, 0);
  }
}
