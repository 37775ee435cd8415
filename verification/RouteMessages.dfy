/** Route dumps as lists of messages: their wire encoding, what they mean, and the proof that the
    nested parsing loops compute that meaning for every well-formed dump. */
module RouteMessages {
  import opened Base
  import opened Addresses
  import opened Ipv6Prefix
  import opened Netlink
  import opened RouteDump

  datatype NextHop = NextHop(flags: byte, weight: byte, index: i32, nested: seq<byte>)

  datatype AttributeBody =
    | Dst(prefix: Ipv6Addr)
    | Oif(interface: u32)
    | Priority(priority: u32)
    | Table(table: u32)
    | Multipath(hops: seq<NextHop>)
    | Unknown(kind: u16, value: seq<byte>)

  /** `flagBits` are the two top bits of the kind field, which the parser masks out. */
  datatype Attribute = Attribute(flagBits: nat, body: AttributeBody)

  datatype Route = Route(
    family: byte, dstLen: byte, srcLen: byte, tos: byte,
    table: byte, protocol: byte, scope: byte, kind: byte, flags: u32, attributes: seq<Attribute>)

  datatype MessageBody =
    | NewRoute(route: Route)
    | ErrorReply(status: i32, echo: seq<byte>)
    | Done(status: i32, extra: seq<byte>)
    | DoneBare
    | Overrun(payload: seq<byte>)
    | OtherMessage(kind: u16, payload: seq<byte>)

  datatype Message = Message(flags: u16, sequence: u32, pid: u32, body: MessageBody)

  // ----- What the abstract messages mean -----

  /** The first next hop that is alive and names an interface. */
  function FirstUsable(hops: seq<NextHop>): Option<u32> {
    if hops == [] then None
    else if hops[0].flags % 2 == 0 && hops[0].index > 0 then Some(hops[0].index)
    else FirstUsable(hops[1..])
  }

  function KindOf(body: AttributeBody): u16 {
    match body
    case Dst(_) => RTA_DST
    case Oif(_) => RTA_OIF
    case Priority(_) => RTA_PRIORITY
    case Table(_) => RTA_TABLE
    case Multipath(_) => RTA_MULTIPATH
    case Unknown(kind, _) => kind
  }

  /** The last attribute of a kind: repeated attributes override earlier ones. */
  function LastOf(attributes: seq<Attribute>, kind: u16): Option<AttributeBody> {
    if attributes == [] then None
    else
      var last := attributes[|attributes| - 1].body;
      if KindOf(last) == kind then Some(last) else LastOf(attributes[..|attributes| - 1], kind)
  }

  function Summary(headerTable: byte, attributes: seq<Attribute>): Gathered {
    var table, prefix := LastOf(attributes, RTA_TABLE), LastOf(attributes, RTA_DST);
    var oif, multipath := LastOf(attributes, RTA_OIF), LastOf(attributes, RTA_MULTIPATH);
    var priority := LastOf(attributes, RTA_PRIORITY);
    Gathered(
      if table.Some? && table.value.Table? then table.value.table else headerTable,
      if prefix.Some? && prefix.value.Dst? then prefix.value.prefix else UNSPECIFIED,
      if oif.Some? && oif.value.Oif? then Some(oif.value.interface) else None,
      if multipath.Some? && multipath.value.Multipath? then FirstUsable(multipath.value.hops) else None,
      if priority.Some? && priority.value.Priority? then priority.value.priority else 0)
  }

  predicate NamesInterfaceZero(attributes: seq<Attribute>) {
    exists i :: 0 <= i < |attributes| && attributes[i].body == Oif(0)
  }

  function RouteMeaning(r: Route, destination: Ipv6Addr): Result<Option<Candidate>, NetError> {
    if r.family != AF_INET6 || r.dstLen > 128 then Ok(None)
    else if NamesInterfaceZero(r.attributes) then Err(InvalidData)
    else Conclude(Summary(r.table, r.attributes), r.dstLen, r.kind, destination)
  }

  function MessageMeaning(m: Message, sequence: u32, destination: Ipv6Addr): Event {
    if m.sequence != sequence then Skip
    else if m.flags / 0x10 % 2 != 0 then Fail(Os(EAGAIN))
    else match m.body
      case NewRoute(route) =>
        var c := RouteMeaning(route, destination);
        if c.Err? then Fail(c.error) else if c.value.None? then Skip else Offer(c.value.value)
      case ErrorReply(status, _) => StatusEvent(status, Skip)
      case Done(status, _) => StatusEvent(status, Stop)
      case DoneBare => Stop
      case Overrun(_) => Fail(Os(ENOBUFS))
      case OtherMessage(_, _) => Skip
  }

  // ----- Wire encoding -----

  function Padded(record: seq<byte>): (p: seq<byte>)
    ensures |p| == Align(|record|)
  {
    record + seq(Align(|record|) - |record|, _ => 0)
  }

  predicate HopFits(h: NextHop) {
    NEXT_HOP_LEN + |h.nested| <= 0xffff
  }

  function EncodeHop(h: NextHop): (s: seq<byte>)
    requires HopFits(h)
    ensures |s| == NEXT_HOP_LEN + |h.nested|
  {
    Le16(NEXT_HOP_LEN + |h.nested|) + [h.flags, h.weight] + Le32(AsU32(h.index)) + h.nested
  }

  function EncodeHops(hops: seq<NextHop>): seq<byte>
    requires forall h :: h in hops ==> HopFits(h)
  {
    if hops == [] then [] else Padded(EncodeHop(hops[0])) + EncodeHops(hops[1..])
  }

  predicate BodyFits(body: AttributeBody) {
    && (body.Multipath? ==> forall h :: h in body.hops ==> HopFits(h))
    && (body.Unknown? ==>
          body.kind < 0x4000 && body.kind != RTA_DST && body.kind != RTA_OIF && body.kind != RTA_PRIORITY
          && body.kind != RTA_TABLE && body.kind != RTA_MULTIPATH)
  }

  function EncodeValue(body: AttributeBody): seq<byte>
    requires BodyFits(body)
  {
    match body
    case Dst(prefix) => prefix
    case Oif(index) => Le32(index)
    case Priority(priority) => Le32(priority)
    case Table(table) => Le32(table)
    case Multipath(hops) => EncodeHops(hops)
    case Unknown(_, value) => value
  }

  predicate AttributeFits(a: Attribute) {
    a.flagBits < 4 && BodyFits(a.body) && ATTRIBUTE_HEADER_LEN + |EncodeValue(a.body)| <= 0xffff
  }

  function EncodeAttribute(a: Attribute): (s: seq<byte>)
    requires AttributeFits(a)
    ensures |s| == ATTRIBUTE_HEADER_LEN + |EncodeValue(a.body)|
  {
    Le16(ATTRIBUTE_HEADER_LEN + |EncodeValue(a.body)|) + Le16(KindOf(a.body) + a.flagBits * 0x4000)
    + EncodeValue(a.body)
  }

  predicate AttributesFit(attributes: seq<Attribute>) {
    forall a :: a in attributes ==> AttributeFits(a)
  }

  function EncodeAttributes(attributes: seq<Attribute>): seq<byte>
    requires AttributesFit(attributes)
  {
    if attributes == [] then [] else Padded(EncodeAttribute(attributes[0])) + EncodeAttributes(attributes[1..])
  }

  function RouteHeader(r: Route): (s: seq<byte>)
    ensures |s| == ROUTE_HEADER_LEN
  {
    [r.family, r.dstLen, r.srcLen, r.tos, r.table, r.protocol, r.scope, r.kind] + Le32(r.flags)
  }

  predicate BodyIsEncodable(body: MessageBody) {
    && (body.NewRoute? ==> AttributesFit(body.route.attributes))
    && (body.OtherMessage? ==>
          body.kind != NLMSG_ERROR && body.kind != NLMSG_DONE && body.kind != NLMSG_OVERRUN
          && body.kind != RTM_NEWROUTE)
  }

  function EncodePayload(body: MessageBody): seq<byte>
    requires BodyIsEncodable(body)
  {
    match body
    case NewRoute(route) => RouteHeader(route) + EncodeAttributes(route.attributes)
    case ErrorReply(status, echo) => Le32(AsU32(status)) + echo
    case Done(status, extra) => Le32(AsU32(status)) + extra
    case DoneBare => []
    case Overrun(payload) => payload
    case OtherMessage(_, payload) => payload
  }

  function TypeOf(body: MessageBody): u16 {
    match body
    case NewRoute(_) => RTM_NEWROUTE
    case ErrorReply(_, _) => NLMSG_ERROR
    case Done(_, _) => NLMSG_DONE
    case DoneBare => NLMSG_DONE
    case Overrun(_) => NLMSG_OVERRUN
    case OtherMessage(kind, _) => kind
  }

  predicate WellFormed(m: Message) {
    BodyIsEncodable(m.body) && HEADER_LEN + |EncodePayload(m.body)| < 0x1_0000_0000
  }

  function EncodeMessage(m: Message): (s: seq<byte>)
    requires WellFormed(m)
    ensures |s| == HEADER_LEN + |EncodePayload(m.body)|
  {
    Le32(HEADER_LEN + |EncodePayload(m.body)|) + Le16(TypeOf(m.body)) + Le16(m.flags)
    + Le32(m.sequence) + Le32(m.pid) + EncodePayload(m.body)
  }

  predicate AllWellFormed(messages: seq<Message>) {
    forall m :: m in messages ==> WellFormed(m)
  }

  function EncodeMessages(messages: seq<Message>): seq<byte>
    requires AllWellFormed(messages)
  {
    if messages == [] then [] else Padded(EncodeMessage(messages[0])) + EncodeMessages(messages[1..])
  }

  // ----- Reading a record back out of its surroundings -----

  /** A padded record behind any prefix reads back, and the next one starts at its aligned end. */
  lemma RecordInContext(before: seq<byte>, record: seq<byte>, after: seq<byte>)
    ensures var b := before + (Padded(record) + after);
            && |before| + |record| <= |b|
            && b[|before|..|before| + |record|] == record
            && (forall i :: 0 <= i < |record| ==> b[|before| + i] == record[i])
            && b == (before + Padded(record)) + after
            && |before + Padded(record)| == |before| + Align(|record|)
  {
    var b := before + (Padded(record) + after);
    assert forall i :: 0 <= i < |record| ==> b[|before| + i] == Padded(record)[i];
  }

  /** Fields of such a record read the same in place. */
  lemma ReadInContext(before: seq<byte>, record: seq<byte>, after: seq<byte>, k: nat)
    requires k + 2 <= |record|
    ensures var b := before + (Padded(record) + after);
            && |before| + |record| <= |b|
            && b[|before| + k] == record[k]
            && FromLe16(b, |before| + k) == FromLe16(record, k)
            && (k + 4 <= |record| ==> FromLe32(b, |before| + k) == FromLe32(record, k))
  {
    RecordInContext(before, record, after);
    var b := before + (Padded(record) + after);
    assert b[|before| + k] == record[k] && b[|before| + (k + 1)] == record[k + 1];
    if k + 4 <= |record| {
      assert b[|before| + (k + 2)] == record[k + 2] && b[|before| + (k + 3)] == record[k + 3];
    }
  }

  lemma Rebracket(before: seq<byte>, p: seq<byte>, after: seq<byte>)
    ensures before + (p + after) == (before + p) + after && |before + p| == |before| + |p|
  {
  }

  lemma SuffixInContext(before: seq<byte>, record: seq<byte>, after: seq<byte>, k: nat)
    requires k <= |record|
    ensures var b := before + (Padded(record) + after);
            |before| + |record| <= |b| && b[|before| + k..|before| + |record|] == record[k..]
  {
    RecordInContext(before, record, after);
    var b, at := before + (Padded(record) + after), |before|;
    assert b[at + k..at + |record|] == b[at..at + |record|][k..];
  }

  lemma HopFields(h: NextHop)
    requires HopFits(h)
    ensures var r := EncodeHop(h);
            && FromLe16(r, 0) == |r|
            && r[2] == h.flags
            && AsI32(FromLe32(r, 4)) == h.index
  {
    var r := EncodeHop(h);
    assert r[0..2] == Le16(|r|) && r[4..8] == Le32(AsU32(h.index));
    Le16RoundTrip(r, 0, |r|);
    Le32RoundTrip(r, 4, AsU32(h.index));
  }

  lemma {:induction false} HopsRoundTrip(before: seq<byte>, hops: seq<NextHop>)
    requires forall h :: h in hops ==> HopFits(h)
    ensures NextHopsFrom(before + EncodeHops(hops), |before|) == Ok(FirstUsable(hops))
    decreases |hops|
  {
    if hops != [] {
      HopInContext(before, hops[0], EncodeHops(hops[1..]));
      HopsRoundTrip(before + Padded(EncodeHop(hops[0])), hops[1..]);
    }
  }

  /** The loop's reading of one encoded next hop behind any prefix. */
  lemma HopInContext(before: seq<byte>, h: NextHop, after: seq<byte>)
    requires HopFits(h)
    ensures var record := EncodeHop(h);
            var b, at := before + (Padded(record) + after), |before|;
            && at + |record| <= |b|
            && FromLe16(b, at) == |record|
            && b[at + 2] == h.flags
            && AsI32(FromLe32(b, at + 4)) == h.index
            && b == (before + Padded(record)) + after
            && |before + Padded(record)| == at + Align(|record|)
  {
    var record := EncodeHop(h);
    HopFields(h);
    RecordInContext(before, record, after);
    ReadInContext(before, record, after, 0);
    ReadInContext(before, record, after, 2);
    ReadInContext(before, record, after, 4);
  }

  lemma TwoFields(first: u16, second: u16, tail: seq<byte>)
    ensures var r := Le16(first) + Le16(second) + tail;
            FromLe16(r, 0) == first && FromLe16(r, 2) == second && r[4..] == tail
  {
    var r := Le16(first) + Le16(second) + tail;
    assert r[0..2] == Le16(first) && r[2..4] == Le16(second);
    Le16RoundTrip(r, 0, first);
    Le16RoundTrip(r, 2, second);
  }

  lemma AttributeFields(a: Attribute)
    requires AttributeFits(a)
    ensures var r := EncodeAttribute(a);
            && FromLe16(r, 0) == |r|
            && FromLe16(r, 2) % 0x4000 == KindOf(a.body)
            && r[ATTRIBUTE_HEADER_LEN..] == EncodeValue(a.body)
  {
    var value := EncodeValue(a.body);
    TwoFields(ATTRIBUTE_HEADER_LEN + |value|, KindOf(a.body) + a.flagBits * 0x4000, value);
    FlagsMaskOff(KindOf(a.body), a.flagBits);
  }

  lemma FlagsMaskOff(kind: nat, flagBits: nat)
    requires kind < 0x4000
    ensures (kind + flagBits * 0x4000) % 0x4000 == kind
  {
  }

  /** Absorbing one encoded attribute moves the summary on by that attribute. */
  lemma AbsorbExtendsSummary(headerTable: byte, done: seq<Attribute>, a: Attribute)
    requires AttributeFits(a)
    ensures Absorb(Summary(headerTable, done), KindOf(a.body), EncodeValue(a.body))
            == if a.body == Oif(0) then Err(InvalidData) else Ok(Summary(headerTable, done + [a]))
  {
    var value, longer := EncodeValue(a.body), done + [a];
    assert longer[..|longer| - 1] == done;
    match a.body
    case Dst(prefix) => assert value[..16] == prefix;
    case Oif(index) => Le32RoundTrip(value, 0, index);
    case Priority(priority) => Le32RoundTrip(value, 0, priority);
    case Table(table) => Le32RoundTrip(value, 0, table);
    case Multipath(hops) =>
      HopsRoundTrip([], hops);
      assert [] + EncodeHops(hops) == value;
    case Unknown(_, _) =>
  }

  lemma {:induction false} AttributesRoundTrip(
    before: seq<byte>, headerTable: byte, done: seq<Attribute>, rest: seq<Attribute>)
    requires AttributesFit(rest)
    ensures AttributesFrom(before + EncodeAttributes(rest), |before|, Summary(headerTable, done))
            == if NamesInterfaceZero(rest) then Err(InvalidData) else Ok(Summary(headerTable, done + rest))
    decreases |rest|
  {
    if rest == [] {
      assert done + rest == done;
    } else {
      var a, record, after := rest[0], EncodeAttribute(rest[0]), EncodeAttributes(rest[1..]);
      var b := before + EncodeAttributes(rest);
      AttributeFields(a);
      AttributeStep(before, record, after, Summary(headerTable, done), KindOf(a.body), EncodeValue(a.body), b);
      AbsorbExtendsSummary(headerTable, done, a);
      AttributesRoundTrip(before + Padded(record), headerTable, done + [a], rest[1..]);
      assert done + [a] + rest[1..] == done + rest;
      NamesZeroStep(rest);
    }
  }

  lemma NamesZeroStep(attributes: seq<Attribute>)
    requires attributes != []
    ensures NamesInterfaceZero(attributes) <==>
            attributes[0].body == Oif(0) || NamesInterfaceZero(attributes[1..])
  {
    assert attributes == [attributes[0]] + attributes[1..];
  }

  /** The loop reads the record's own length, kind and value, wherever the record lies. */
  lemma AttributeReads(
    before: seq<byte>, record: seq<byte>, after: seq<byte>, kind: u16, value: seq<byte>, b: seq<byte>, at: nat)
    requires |record| >= ATTRIBUTE_HEADER_LEN
    requires FromLe16(record, 0) == |record| && FromLe16(record, 2) % 0x4000 == kind
    requires record[ATTRIBUTE_HEADER_LEN..] == value
    requires b == before + (Padded(record) + after) && at == |before|
    ensures at + |record| <= |b| && FromLe16(b, at) == |record| && FromLe16(b, at + 2) % 0x4000 == kind
    ensures b[at + ATTRIBUTE_HEADER_LEN..at + |record|] == value
  {
    ReadInContext(before, record, after, 0);
    ReadInContext(before, record, after, 2);
    SuffixInContext(before, record, after, ATTRIBUTE_HEADER_LEN);
  }

  /** The prefix extended by the padded record ends where the next turn begins. */
  lemma NextPrefix(before: seq<byte>, record: seq<byte>, after: seq<byte>, b: seq<byte>)
    requires b == before + (Padded(record) + after)
    ensures b == (before + Padded(record)) + after && |before + Padded(record)| == |before| + Align(|record|)
  {
    Rebracket(before, Padded(record), after);
  }

  /** One turn of the attribute loop over a padded record behind any prefix. */
  lemma AttributeStep(
    before: seq<byte>, record: seq<byte>, after: seq<byte>, g: Gathered, kind: u16, value: seq<byte>, b: seq<byte>)
    requires |record| >= ATTRIBUTE_HEADER_LEN
    requires FromLe16(record, 0) == |record| && FromLe16(record, 2) % 0x4000 == kind
    requires record[ATTRIBUTE_HEADER_LEN..] == value
    requires b == before + (Padded(record) + after)
    ensures b == (before + Padded(record)) + after
    ensures var next := Absorb(g, kind, value);
            AttributesFrom(b, |before|, g)
            == if next.Err? then next else AttributesFrom(b, |before + Padded(record)|, next.value)
  {
    AttributeReads(before, record, after, kind, value, b, |before|);
    NextPrefix(before, record, after, b);
    AttributesUnfold(b, |before|, g, kind, value, |record|, |before + Padded(record)|);
  }

  lemma AttributesUnfold(b: seq<byte>, at: nat, g: Gathered, kind: u16, value: seq<byte>, len: nat, end: nat)
    requires ATTRIBUTE_HEADER_LEN <= len && at + len <= |b| && end == at + Align(len)
    requires FromLe16(b, at) == len && FromLe16(b, at + 2) % 0x4000 == kind
    requires b[at + ATTRIBUTE_HEADER_LEN..at + len] == value
    ensures var next := Absorb(g, kind, value);
            AttributesFrom(b, at, g) == if next.Err? then next else AttributesFrom(b, end, next.value)
  {
  }

  lemma RouteRoundTrip(r: Route, destination: Ipv6Addr)
    requires AttributesFit(r.attributes)
    ensures RouteCandidate(EncodePayload(NewRoute(r)), destination) == RouteMeaning(r, destination)
  {
    var header := RouteHeader(r);
    var payload := header + EncodeAttributes(r.attributes);
    assert payload[0] == header[0] && payload[1] == header[1] && payload[4] == header[4] && payload[7] == header[7];
    AttributesRoundTrip(header, r.table, [], r.attributes);
    assert [] + r.attributes == r.attributes;
  }

  // ----- Messages in place -----

  /** The header fields of an encoded message, and its body right behind them. */
  lemma MessageFields(m: Message)
    requires WellFormed(m)
    ensures var r := EncodeMessage(m);
            && FromLe32(r, 0) == |r|
            && FromLe16(r, 4) == TypeOf(m.body)
            && FromLe16(r, 6) == m.flags
            && FromLe32(r, 8) == m.sequence
            && r[HEADER_LEN..] == EncodePayload(m.body)
  {
    var payload := EncodePayload(m.body);
    HeaderFields(HEADER_LEN + |payload|, TypeOf(m.body), m.flags, m.sequence, m.pid, payload);
  }

  lemma HeaderFields(len: u32, kind: u16, flags: u16, sequence: u32, pid: u32, tail: seq<byte>)
    ensures var r := Le32(len) + Le16(kind) + Le16(flags) + Le32(sequence) + Le32(pid) + tail;
            && FromLe32(r, 0) == len && FromLe16(r, 4) == kind && FromLe16(r, 6) == flags
            && FromLe32(r, 8) == sequence && r[HEADER_LEN..] == tail
  {
    var r := Le32(len) + Le16(kind) + Le16(flags) + Le32(sequence) + Le32(pid) + tail;
    assert r[0..4] == Le32(len) && r[4..6] == Le16(kind) && r[6..8] == Le16(flags) && r[8..12] == Le32(sequence);
    Le32RoundTrip(r, 0, len);
    Le16RoundTrip(r, 4, kind);
    Le16RoundTrip(r, 6, flags);
    Le32RoundTrip(r, 8, sequence);
  }

  /** An encoded status word, read at the start of a message body. */
  lemma StatusWord(status: i32, tail: seq<byte>)
    ensures FromLe32(Le32(AsU32(status)) + tail, 0) == AsU32(status)
  {
    var p := Le32(AsU32(status)) + tail;
    assert p[0..4] == Le32(AsU32(status));
    Le32RoundTrip(p, 0, AsU32(status));
  }

  /** The message loop's header reading of one padded record behind any prefix. */
  lemma HeaderInContext(before: seq<byte>, record: seq<byte>, after: seq<byte>)
    requires |record| >= HEADER_LEN && FromLe32(record, 0) == |record|
    ensures var b, at := before + (Padded(record) + after), |before|;
            && WellFramed(b, at)
            && MessageLen(b, at) == |record|
            && MessageType(b, at) == FromLe16(record, 4)
            && MessageFlags(b, at) == FromLe16(record, 6)
            && MessageSequence(b, at) == FromLe32(record, 8)
            && b[at + HEADER_LEN..at + |record|] == record[HEADER_LEN..]
            && (|record| >= HEADER_LEN + 4 ==>
                  FromLe32(b, at + HEADER_LEN) == FromLe32(record[HEADER_LEN..], 0))
  {
    RecordInContext(before, record, after);
    ReadInContext(before, record, after, 0);
    ReadInContext(before, record, after, 4);
    ReadInContext(before, record, after, 6);
    ReadInContext(before, record, after, 8);
    SuffixInContext(before, record, after, HEADER_LEN);
    if |record| >= HEADER_LEN + 4 {
      ReadInContext(before, record, after, HEADER_LEN);
    }
  }

  lemma EventInContext(before: seq<byte>, m: Message, after: seq<byte>, sequence: u32, destination: Ipv6Addr)
    requires WellFormed(m)
    ensures var b := before + (Padded(EncodeMessage(m)) + after);
            && WellFramed(b, |before|)
            && MessageLen(b, |before|) == |EncodeMessage(m)|
            && MessageEvent(b, |before|, sequence, destination) == MessageMeaning(m, sequence, destination)
  {
    MessageFields(m);
    var record := EncodeMessage(m);
    HeaderInContext(before, record, after);
    var b := before + (Padded(record) + after);
    if m.body.NewRoute? {
      RouteEvent(b, |before|, m, sequence, destination);
    } else {
      StatusEventInPlace(b, |before|, m, sequence, destination);
    }
  }

  /** `m` has been read at `at`: its header fields and its body are in place. */
  ghost predicate ReadsAs(b: seq<byte>, at: nat, m: Message)
    requires WellFormed(m)
  {
    && WellFramed(b, at)
    && MessageLen(b, at) == HEADER_LEN + |EncodePayload(m.body)|
    && MessageType(b, at) == TypeOf(m.body)
    && MessageFlags(b, at) == m.flags
    && MessageSequence(b, at) == m.sequence
    && b[at + HEADER_LEN..at + MessageLen(b, at)] == EncodePayload(m.body)
    && (|EncodePayload(m.body)| >= 4 ==> FromLe32(b, at + HEADER_LEN) == FromLe32(EncodePayload(m.body), 0))
  }

  lemma RouteEvent(b: seq<byte>, at: nat, m: Message, sequence: u32, destination: Ipv6Addr)
    requires WellFormed(m) && ReadsAs(b, at, m) && m.body.NewRoute?
    ensures MessageEvent(b, at, sequence, destination) == MessageMeaning(m, sequence, destination)
  {
    RouteRoundTrip(m.body.route, destination);
  }

  lemma StatusEventInPlace(b: seq<byte>, at: nat, m: Message, sequence: u32, destination: Ipv6Addr)
    requires WellFormed(m) && ReadsAs(b, at, m) && !m.body.NewRoute?
    ensures MessageEvent(b, at, sequence, destination) == MessageMeaning(m, sequence, destination)
  {
    match m.body
    case ErrorReply(status, echo) => StatusWord(status, echo);
    case Done(status, extra) => StatusWord(status, extra);
    case _ =>
  }

  /** What a list of messages does to the best candidate so far. */
  function RunMessages(messages: seq<Message>, sequence: u32, destination: Ipv6Addr, best: Option<Candidate>)
    : DumpState
  {
    if messages == [] then More(best)
    else
      var state := Apply(MessageMeaning(messages[0], sequence, destination), best);
      if state.More? then RunMessages(messages[1..], sequence, destination, state.best) else state
  }

  /** One datagram: the byte loop computes what its message list does. */
  lemma {:induction false} DatagramRefinesList(
    before: seq<byte>, messages: seq<Message>, sequence: u32, destination: Ipv6Addr, best: Option<Candidate>)
    requires AllWellFormed(messages)
    ensures DumpFrom(before + EncodeMessages(messages), |before|, sequence, destination, best)
            == RunMessages(messages, sequence, destination, best)
    decreases |messages|
  {
    if messages != [] {
      var m, rest := messages[0], messages[1..];
      var record, after := EncodeMessage(m), EncodeMessages(rest);
      var b := before + EncodeMessages(messages);
      MessageStep(before, m, record, after, sequence, destination, best, b);
      var state := Apply(MessageMeaning(m, sequence, destination), best);
      if state.More? {
        DatagramRefinesList(before + Padded(record), rest, sequence, destination, state.best);
      }
    }
  }

  /** One turn of the message loop over a padded record behind any prefix. */
  lemma MessageStep(before: seq<byte>, m: Message, record: seq<byte>, after: seq<byte>, sequence: u32,
                    destination: Ipv6Addr, best: Option<Candidate>, b: seq<byte>)
    requires WellFormed(m) && record == EncodeMessage(m)
    requires b == before + (Padded(record) + after)
    ensures b == (before + Padded(record)) + after
    ensures var state := Apply(MessageMeaning(m, sequence, destination), best);
            DumpFrom(b, |before|, sequence, destination, best)
            == if state.More? then DumpFrom(b, |before + Padded(record)|, sequence, destination, state.best)
               else state
  {
    EventInContext(before, m, after, sequence, destination);
    NextPrefix(before, record, after, b);
    DumpUnfold(b, |before|, sequence, destination, best, MessageMeaning(m, sequence, destination), |record|,
               |before + Padded(record)|);
  }

  lemma DumpUnfold(b: seq<byte>, at: nat, sequence: u32, destination: Ipv6Addr, best: Option<Candidate>,
                   event: Event, len: nat, end: nat)
    requires WellFramed(b, at) && MessageLen(b, at) == len && end == at + Align(len)
    requires MessageEvent(b, at, sequence, destination) == event
    ensures var state := Apply(event, best);
            DumpFrom(b, at, sequence, destination, best)
            == if state.More? then DumpFrom(b, end, sequence, destination, state.best) else state
  {
  }

  // ----- Whole dumps -----

  function Flatten(datagrams: seq<seq<Message>>): seq<Message> {
    if datagrams == [] then [] else datagrams[0] + Flatten(datagrams[1..])
  }

  predicate Receivable(messages: seq<Message>) {
    messages != [] && AllWellFormed(messages) && |EncodeMessages(messages)| <= MAX_DATAGRAM_LEN
  }

  predicate AllReceivable(datagrams: seq<seq<Message>>) {
    forall d :: d in datagrams ==> Receivable(d)
  }

  function EncodeDatagrams(datagrams: seq<seq<Message>>): seq<Recv>
    requires AllReceivable(datagrams)
  {
    if datagrams == [] then []
    else
      assert Receivable(datagrams[0]);
      [Datagram(EncodeMessages(datagrams[0]))] + EncodeDatagrams(datagrams[1..])
  }

  function Verdict(state: DumpState): Result<u32, NetError> {
    match state
    case More(_) => Err(Os(EAGAIN))
    case Finished(best) => Selected(best)
    case Failed(e) => Err(e)
  }

  lemma {:induction false} RunConcat(
    first: seq<Message>, second: seq<Message>, sequence: u32, destination: Ipv6Addr, best: Option<Candidate>)
    ensures var state := RunMessages(first, sequence, destination, best);
            RunMessages(first + second, sequence, destination, best)
            == if state.More? then RunMessages(second, sequence, destination, state.best) else state
    decreases |first|
  {
    if first == [] {
      assert first + second == second;
    } else {
      assert (first + second)[1..] == first[1..] + second;
      var state := Apply(MessageMeaning(first[0], sequence, destination), best);
      if state.More? {
        RunConcat(first[1..], second, sequence, destination, state.best);
      }
    }
  }

  /** However the message list is cut into datagrams, receiving it gives the verdict of the whole list. */
  lemma {:induction false} DumpRefinesList(
    datagrams: seq<seq<Message>>, sequence: u32, destination: Ipv6Addr, best: Option<Candidate>)
    requires AllReceivable(datagrams)
    ensures ReceiveFrom(EncodeDatagrams(datagrams), sequence, destination, best)
            == Verdict(RunMessages(Flatten(datagrams), sequence, destination, best))
    decreases |datagrams|
  {
    if datagrams != [] {
      var first, rest := datagrams[0], datagrams[1..];
      assert Receivable(first);
      var bytes := EncodeMessages(first);
      assert bytes == Padded(EncodeMessage(first[0])) + EncodeMessages(first[1..]);
      assert [] + bytes == bytes;
      DatagramRefinesList([], first, sequence, destination, best);
      RunConcat(first, Flatten(rest), sequence, destination, best);
      assert EncodeDatagrams(datagrams)[1..] == EncodeDatagrams(rest);
      var state := RunMessages(first, sequence, destination, best);
      if state.More? {
        DumpRefinesList(rest, sequence, destination, state.best);
      }
    }
  }

  // ----- The route a complete dump selects -----

  /** Longest prefix first, then lowest priority value. */
  predicate Beats(a: Candidate, b: Candidate) {
    a.prefixLen > b.prefixLen || (a.prefixLen == b.prefixLen && a.priority < b.priority)
  }

  /** `cs[k]` is the first candidate that no other one beats. */
  ghost predicate FirstBest(cs: seq<Candidate>, k: int) {
    && 0 <= k < |cs|
    && (forall i :: 0 <= i < |cs| ==> !Beats(cs[i], cs[k]))
    && (forall i :: 0 <= i < k ==> Beats(cs[k], cs[i]))
  }

  /** The candidates offered by a list of messages, in order. */
  function Offers(messages: seq<Message>, sequence: u32, destination: Ipv6Addr): seq<Candidate> {
    if messages == [] then []
    else
      var last := MessageMeaning(messages[|messages| - 1], sequence, destination);
      var before := Offers(messages[..|messages| - 1], sequence, destination);
      if last.Offer? then before + [last.candidate] else before
  }

  /** The messages before `n` neither end nor fail the dump. */
  ghost predicate OpenUntil(messages: seq<Message>, n: nat, sequence: u32, destination: Ipv6Addr)
    requires n <= |messages|
  {
    forall i :: 0 <= i < n ==>
      var e := MessageMeaning(messages[i], sequence, destination); e.Skip? || e.Offer?
  }

  ghost predicate IsSelection(cs: seq<Candidate>, best: Option<Candidate>) {
    if cs == [] then best == None else exists k :: FirstBest(cs, k) && best == Some(cs[k])
  }

  lemma SelectionStep(cs: seq<Candidate>, best: Option<Candidate>, c: Candidate)
    requires IsSelection(cs, best)
    ensures IsSelection(cs + [c], Prefer(c, best))
  {
    var longer := cs + [c];
    if cs == [] {
      assert FirstBest(longer, 0);
    } else {
      var k :| FirstBest(cs, k) && best == Some(cs[k]);
      if IsBetterThan(c, best) {
        assert FirstBest(longer, |cs|);
      } else {
        assert longer[k] == cs[k];
        assert FirstBest(longer, k);
      }
    }
  }

  lemma {:induction false} OpenRunSelects(messages: seq<Message>, sequence: u32, destination: Ipv6Addr)
    requires OpenUntil(messages, |messages|, sequence, destination)
    ensures var state := RunMessages(messages, sequence, destination, None);
            state.More? && IsSelection(Offers(messages, sequence, destination), state.best)
    decreases |messages|
  {
    if messages != [] {
      var init, last := messages[..|messages| - 1], messages[|messages| - 1];
      OpenRunSelects(init, sequence, destination);
      RunConcat(init, [last], sequence, destination, None);
      assert messages == init + [last];
      var best := RunMessages(init, sequence, destination, None).best;
      var meaning := MessageMeaning(last, sequence, destination);
      OneMessage(last, sequence, destination, best);
      if meaning.Offer? {
        SelectionStep(Offers(init, sequence, destination), best, meaning.candidate);
      }
    }
  }

  lemma OneMessage(m: Message, sequence: u32, destination: Ipv6Addr, best: Option<Candidate>)
    ensures RunMessages([m], sequence, destination, best)
            == Apply(MessageMeaning(m, sequence, destination), best)
  {
    assert [m][1..] == [];
  }

  /** Main theorem: for every list of well-formed messages, encoded with four-byte alignment and cut into
      datagrams at any message boundaries, the nested loops answer from the first message that ends or
      fails the dump. A dump that ends gives the interface or errno of the first best candidate offered
      before its end, or ENETUNREACH when there is none; a failing message gives its own error; a dump
      that never ends times out. */
  lemma DumpSelectsFirstBest(datagrams: seq<seq<Message>>, n: nat, sequence: u32, destination: Ipv6Addr)
    requires AllReceivable(datagrams)
    requires n <= |Flatten(datagrams)| && OpenUntil(Flatten(datagrams), n, sequence, destination)
    ensures var all := Flatten(datagrams);
            var offers := Offers(all[..n], sequence, destination);
            var r := ReceiveFrom(EncodeDatagrams(datagrams), sequence, destination, None);
            if n == |all| then r == Err(Os(EAGAIN))
            else
              var event := MessageMeaning(all[n], sequence, destination);
              && (event.Fail? ==> r == Err(event.error))
              && (event.Stop? ==>
                    if offers == [] then r == Err(Os(ENETUNREACH))
                    else exists k :: FirstBest(offers, k) && r == Selected(Some(offers[k])))
  {
    var all := Flatten(datagrams);
    DumpRefinesList(datagrams, sequence, destination, None);
    OpenRunSelects(all[..n], sequence, destination);
    if n == |all| {
      assert all[..n] == all;
    } else {
      RunToMessage(all, n, sequence, destination);
    }
  }

  /** A run that is still open at message `n` goes on with that message. */
  lemma RunToMessage(all: seq<Message>, n: nat, sequence: u32, destination: Ipv6Addr)
    requires n < |all| && RunMessages(all[..n], sequence, destination, None).More?
    ensures var best := RunMessages(all[..n], sequence, destination, None).best;
            var state := Apply(MessageMeaning(all[n], sequence, destination), best);
            RunMessages(all, sequence, destination, None)
            == if state.More? then RunMessages(all[n + 1..], sequence, destination, state.best) else state
  {
    var best := RunMessages(all[..n], sequence, destination, None).best;
    assert all == all[..n] + ([all[n]] + all[n + 1..]);
    RunConcat(all[..n], [all[n]] + all[n + 1..], sequence, destination, None);
    RunConcat([all[n]], all[n + 1..], sequence, destination, best);
    OneMessage(all[n], sequence, destination, best);
  }

  /** The candidate a route stands for: main table, numerically covering the destination, of a usable kind,
      with the route's own output interface or else that of its first usable next hop. */
  ghost predicate StandsFor(r: Route, destination: Ipv6Addr, c: Candidate) {
    var s := Summary(r.table, r.attributes);
    && r.family == AF_INET6 && r.dstLen <= 128 && !NamesInterfaceZero(r.attributes)
    && s.table == RT_TABLE_MAIN
    && TopBits(destination, r.dstLen) == TopBits(s.prefix, r.dstLen)
    && c.prefixLen == r.dstLen && c.priority == s.priority
    && (r.kind in {RTN_UNICAST, RTN_MULTICAST} ==>
          (s.interface.Some? || s.multipath.Some?)
          && c.disposition == Interface(if s.interface.Some? then s.interface.value else s.multipath.value))
    && (r.kind in {RTN_BLACKHOLE, RTN_UNREACHABLE} ==> c.disposition == Unroutable(ENETUNREACH))
    && (r.kind == RTN_PROHIBIT ==> c.disposition == Unroutable(EACCES))
    && r.kind in {RTN_UNICAST, RTN_MULTICAST, RTN_BLACKHOLE, RTN_UNREACHABLE, RTN_PROHIBIT}
  }

  /** A message offers a candidate exactly when it belongs to the dump, is not marked interrupted, and its
      route stands for that candidate. */
  lemma OfferIff(m: Message, sequence: u32, destination: Ipv6Addr, c: Candidate)
    ensures MessageMeaning(m, sequence, destination) == Offer(c) <==>
            && m.sequence == sequence && m.flags / 0x10 % 2 == 0 && m.body.NewRoute?
            && StandsFor(m.body.route, destination, c)
  {
    if m.body.NewRoute? && m.body.route.dstLen <= 128 {
      var r := m.body.route;
      PrefixMatchIsNumeric(destination, Summary(r.table, r.attributes).prefix, r.dstLen);
    }
  }

  /** Every candidate comes from a message of this dump whose route stands for it. */
  lemma {:induction false} OffersAreMatchingRoutes(
    messages: seq<Message>, sequence: u32, destination: Ipv6Addr, k: nat) returns (i: nat)
    requires k < |Offers(messages, sequence, destination)|
    ensures i < |messages| && messages[i].sequence == sequence && messages[i].body.NewRoute?
    ensures StandsFor(messages[i].body.route, destination, Offers(messages, sequence, destination)[k])
    decreases |messages|
  {
    var init, last := messages[..|messages| - 1], messages[|messages| - 1];
    if k < |Offers(init, sequence, destination)| {
      i := OffersAreMatchingRoutes(init, sequence, destination, k);
    } else {
      i := |messages| - 1;
      OfferIff(last, sequence, destination, Offers(messages, sequence, destination)[k]);
    }
  }
}
