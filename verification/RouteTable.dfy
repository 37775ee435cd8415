/** The route a table selects, and the proof that receiving a dump of the table finds it. */
module RouteTable {
  import opened Base
  import opened Addresses
  import opened Ipv6Prefix
  import opened RouteDump
  import opened RouteMessages

  type Table = seq<Route>

  /** The best candidate of the routes, unless one of them makes the parser fail. */
  function FoldRoutes(routes: seq<Route>, destination: Ipv6Addr): Result<Option<Candidate>, NetError> {
    if routes == [] then Ok(None)
    else
      var before := FoldRoutes(routes[..|routes| - 1], destination);
      var last := RouteMeaning(routes[|routes| - 1], destination);
      if before.Err? then before
      else if last.Err? then Err(last.error)
      else if last.value.None? then before
      else Ok(Prefer(last.value.value, before.value))
  }

  /** The interface or error the table selects for a destination. */
  function BestRoute(table: Table, destination: Ipv6Addr): Result<u32, NetError> {
    var best := FoldRoutes(table, destination);
    if best.Err? then Err(best.error) else Selected(best.value)
  }

  // ----- What the best route is -----

  /** A route the parser rejects: it names interface zero, or is in force for the destination without naming
      any interface. */
  ghost predicate RouteFails(r: Route, destination: Ipv6Addr) {
    var s := Summary(r.table, r.attributes);
    && r.family == AF_INET6 && r.dstLen <= 128
    && (|| NamesInterfaceZero(r.attributes)
        || (&& s.table == RT_TABLE_MAIN
            && TopBits(destination, r.dstLen) == TopBits(s.prefix, r.dstLen)
            && r.kind in {RTN_UNICAST, RTN_MULTICAST}
            && s.interface.None? && s.multipath.None?))
  }

  lemma RouteFailsIff(r: Route, destination: Ipv6Addr)
    ensures RouteMeaning(r, destination).Err? <==> RouteFails(r, destination)
  {
    if r.dstLen <= 128 {
      PrefixMatchIsNumeric(destination, Summary(r.table, r.attributes).prefix, r.dstLen);
    }
  }

  lemma StandsForIff(r: Route, destination: Ipv6Addr, c: Candidate)
    ensures RouteMeaning(r, destination) == Ok(Some(c)) <==> StandsFor(r, destination, c)
  {
    var m := Message(0, 1, 0, NewRoute(r));
    OfferIff(m, 1, destination, c);
  }

  /** Route `k` is the first of the table's routes whose candidate no other one beats. */
  ghost predicate IsBest(table: Table, destination: Ipv6Addr, k: int, c: Candidate) {
    && 0 <= k < |table| && StandsFor(table[k], destination, c)
    && forall j, e :: 0 <= j < |table| && StandsFor(table[j], destination, e) ==>
         !Beats(e, c) && (j < k ==> Beats(c, e))
  }

  ghost predicate NoRouteFails(table: Table, destination: Ipv6Addr) {
    forall k :: 0 <= k < |table| ==> !RouteFails(table[k], destination)
  }

  ghost predicate IsFold(table: Table, destination: Ipv6Addr, best: Option<Candidate>) {
    if best.None? then forall k, c :: 0 <= k < |table| ==> !StandsFor(table[k], destination, c)
    else exists k :: IsBest(table, destination, k, best.value)
  }

  lemma {:induction false} FoldIsBest(table: Table, destination: Ipv6Addr)
    ensures FoldRoutes(table, destination).Ok? <==> NoRouteFails(table, destination)
    ensures FoldRoutes(table, destination).Ok? ==>
              IsFold(table, destination, FoldRoutes(table, destination).value)
    decreases |table|
  {
    if table != [] {
      var init, last := table[..|table| - 1], table[|table| - 1];
      FoldIsBest(init, destination);
      RouteFailsIff(last, destination);
      if NoRouteFails(init, destination) && RouteMeaning(last, destination).Ok? {
        FoldStep(init, last, destination, FoldRoutes(init, destination).value);
        assert init + [last] == table;
      }
    }
  }

  /** One more route moves the best candidate on. */
  lemma FoldStep(init: Table, last: Route, destination: Ipv6Addr, best: Option<Candidate>)
    requires IsFold(init, destination, best) && RouteMeaning(last, destination).Ok?
    ensures var c := RouteMeaning(last, destination).value;
            IsFold(init + [last], destination, if c.None? then best else Prefer(c.value, best))
  {
    var table, meaning := init + [last], RouteMeaning(last, destination).value;
    forall e
      ensures StandsFor(last, destination, e) <==> meaning == Some(e)
    {
      StandsForIff(last, destination, e);
    }
    if meaning.Some? && (best.None? || Beats(meaning.value, best.value)) {
      NewBest(init, last, destination, best, meaning.value);
    } else if best.Some? {
      var k :| IsBest(init, destination, k, best.value);
      assert IsBest(table, destination, k, best.value);
    }
  }

  lemma NewBest(init: Table, last: Route, destination: Ipv6Addr, best: Option<Candidate>, c: Candidate)
    requires IsFold(init, destination, best) && (best.Some? ==> Beats(c, best.value))
    requires forall e :: StandsFor(last, destination, e) <==> e == c
    ensures IsBest(init + [last], destination, |init|, c)
  {
    var table := init + [last];
    forall j, e | 0 <= j < |table| && StandsFor(table[j], destination, e)
      ensures !Beats(e, c) && (j < |init| ==> Beats(c, e))
    {
      if j < |init| {
        assert table[j] == init[j] && StandsFor(init[j], destination, e);
        if best.Some? {
          var k :| IsBest(init, destination, k, best.value);
          assert !Beats(e, best.value);
        }
      }
    }
  }

  lemma BestIsUnique(table: Table, destination: Ipv6Addr, k: int, c: Candidate, j: int, e: Candidate)
    requires IsBest(table, destination, k, c) && IsBest(table, destination, j, e)
    ensures k == j && c == e
  {
    StandsForIff(table[k], destination, c);
    StandsForIff(table[j], destination, e);
    assert StandsFor(table[k], destination, c) && StandsFor(table[j], destination, e);
    assert !Beats(e, c) && !Beats(c, e);
  }

  /** The table selects an interface exactly when none of its routes makes the parser fail and the first
      best of the candidates its routes stand for names that interface. */
  lemma BestRouteIff(table: Table, destination: Ipv6Addr, interface: u32)
    ensures BestRoute(table, destination) == Ok(interface) <==>
            && NoRouteFails(table, destination)
            && exists k, c :: IsBest(table, destination, k, c) && c.disposition == Interface(interface)
  {
    FoldIsBest(table, destination);
    if NoRouteFails(table, destination) {
      var best := FoldRoutes(table, destination).value;
      if best.Some? {
        var k :| IsBest(table, destination, k, best.value);
        forall j, e | IsBest(table, destination, j, e)
          ensures e == best.value
        {
          BestIsUnique(table, destination, k, best.value, j, e);
        }
      }
    }
  }

  // ----- Receiving a dump of the table -----

  /** Not marked as part of a dump that a change interrupted. */
  predicate Unmarked(m: Message) {
    m.flags / 0x10 % 2 == 0
  }

  /** The `k`-th message of the table's dump: its routes in order, then the end. */
  predicate Says(m: Message, table: Table, k: nat, sequence: u32) {
    && k <= |table| && m.sequence == sequence && Unmarked(m)
    && if k < |table| then m.body == NewRoute(table[k])
       else m.body.DoneBare? || (m.body.Done? && m.body.status == 0)
  }

  ghost predicate IsDump(messages: seq<Message>, table: Table, sequence: u32) {
    && |messages| == |table| + 1
    && forall k :: 0 <= k < |messages| ==> Says(messages[k], table, k, sequence)
  }

  /** The messages of one request. */
  function OfSequence(messages: seq<Message>, sequence: u32): seq<Message> {
    if messages == [] then []
    else (if messages[0].sequence == sequence then [messages[0]] else []) + OfSequence(messages[1..], sequence)
  }

  /** Messages of other requests, wherever they stand, change nothing. */
  lemma {:induction false} OthersAreIgnored(
    messages: seq<Message>, sequence: u32, destination: Ipv6Addr, best: Option<Candidate>)
    ensures RunMessages(messages, sequence, destination, best)
            == RunMessages(OfSequence(messages, sequence), sequence, destination, best)
    decreases |messages|
  {
    if messages != [] {
      var state := Apply(MessageMeaning(messages[0], sequence, destination), best);
      var mine, others := OfSequence(messages, sequence), OfSequence(messages[1..], sequence);
      if messages[0].sequence == sequence {
        assert mine == [messages[0]] + others;
        RunConcat([messages[0]], others, sequence, destination, best);
        OneMessage(messages[0], sequence, destination, best);
      } else {
        assert mine == others;
      }
      if state.More? {
        OthersAreIgnored(messages[1..], sequence, destination, state.best);
      }
    }
  }

  /** What the first `k` messages of a dump leave behind. */
  lemma {:induction false} RunDump(
    messages: seq<Message>, table: Table, sequence: u32, destination: Ipv6Addr, k: nat)
    requires IsDump(messages, table, sequence) && k <= |table|
    ensures RunMessages(messages[..k], sequence, destination, None)
            == var best := FoldRoutes(table[..k], destination);
               if best.Err? then Failed(best.error) else More(best.value)
    decreases k
  {
    if k > 0 {
      RunDump(messages, table, sequence, destination, k - 1);
      var m := messages[k - 1];
      assert Says(m, table, k - 1, sequence);
      assert messages[..k] == messages[..k - 1] + [m];
      assert table[..k][..k - 1] == table[..k - 1];
      RunConcat(messages[..k - 1], [m], sequence, destination, None);
      var best := FoldRoutes(table[..k - 1], destination);
      if best.Ok? {
        OneMessage(m, sequence, destination, best.value);
      }
    }
  }

  /** Receiving the dump of a table, cut into datagrams anywhere and mixed with messages of other requests,
      answers the table's best route. */
  lemma ReceivedDumpIsBestRoute(datagrams: seq<seq<Message>>, table: Table, sequence: u32, destination: Ipv6Addr)
    requires AllReceivable(datagrams)
    requires IsDump(OfSequence(Flatten(datagrams), sequence), table, sequence)
    ensures ReceiveFrom(EncodeDatagrams(datagrams), sequence, destination, None) == BestRoute(table, destination)
  {
    var mine := OfSequence(Flatten(datagrams), sequence);
    DumpRefinesList(datagrams, sequence, destination, None);
    OthersAreIgnored(Flatten(datagrams), sequence, destination, None);
    RunDump(mine, table, sequence, destination, |table|);
    assert table[..|table|] == table;
    var end := mine[|table|];
    assert Says(end, table, |table|, sequence);
    assert mine == mine[..|table|] + [end];
    RunConcat(mine[..|table|], [end], sequence, destination, None);
    var best := FoldRoutes(table, destination);
    if best.Ok? {
      OneMessage(end, sequence, destination, best.value);
    }
  }
}
