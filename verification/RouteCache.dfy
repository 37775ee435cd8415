/** Coherence of the cached route while the kernel's table changes between any two steps of a call, in
    particular between any two messages of a dump. */
module RouteCache {
  import opened Base
  import opened Addresses
  import opened Netlink
  import opened RouteDump
  import opened RouteMessages
  import opened RouteTable
  import opened RouteEgress

  // ----- The machine -----

  datatype Entry = Entry(destination: Ipv6Addr, interface: u32)

  /** A message waiting on the request socket, with the number of the request it answers. */
  datatype Reply = Reply(request: nat, message: Message)

  /** The kernel's side of a dump: whose request it answers, the generation it began in, how much it sent. */
  datatype Kernel = Resting | Sending(request: nat, since: nat, sent: nat)

  /** Where the one call that holds the lock stands. While it receives a dump, `best` is the parser's; the
      generation and table of the request and the number of messages taken record the history. */
  datatype Pc =
    | Idle
    | Draining(destination: Ipv6Addr, invalidated: bool)
    | Checking(destination: Ipv6Addr)
    | Dumping(destination: Ipv6Addr, best: Option<Candidate>, since: nat, table: Table, got: nat)
    | Collected(destination: Ipv6Addr, answer: Result<u32, NetError>)
    | Opening(destination: Ipv6Addr, interface: u32)

  /** The record of one call: the entry and the request count it began with, the receives of its drain, and
      the messages it has taken from the request socket. */
  datatype Call = Call(cached: Option<Entry>, requests: nat, notices: seq<NotificationRecv>, taken: seq<Message>)

  /** `generation` counts table changes and `requests` dump requests; `seen` lists every table that was
      current during the running call, and `call` records what the call has consumed. */
  datatype State = State(
    table: Table, generation: nat,
    queue: seq<seq<byte>>, overrun: bool,
    requests: nat, kernel: Kernel, replies: seq<Reply>,
    cached: Option<Entry>, pc: Pc, seen: seq<Table>, call: Call)

  datatype Step =
    // the environment
    | ChangeTable(table: Table, notice: seq<byte>)
    | ChangeTableOverrun(table: Table)
    | Notify(notice: seq<byte>)
    | Emit(message: Message)
    // draining
    | Begin(destination: Ipv6Addr)
    | ReceiveNotice
    | ReceiveInterrupted
    | QueueEmpty
    | ReceiveOverrun
    | DrainFails(errno: int)
    // lookup
    | Hit
    | RequestDump(refusal: Option<Message>)
    | RequestFails
    | ReceiveReply(dropped: nat)
    | Answer
    | Store
    | GiveUp
    // after a failed send
    | Drop(interface: u32)

  ghost predicate Init(s: State) {
    && s.queue == [] && !s.overrun && s.cached == None && s.pc == Idle && s.generation == 0
    && s.requests == 0 && s.kernel == Resting && s.replies == []
  }

  function Change(s: State, table: Table): State {
    s.(table := table, generation := s.generation + 1, seen := s.seen + [table])
  }

  /** The sequence number of the `n`-th request: 1, 2, ... and round again without zero. */
  function SequenceOf(n: nat): u32
    requires n > 0
  {
    (n - 1) % 0xffff_ffff + 1
  }

  predicate EndsDump(m: Message) {
    m.body.Done? || m.body.DoneBare?
  }

  /** What a running dump may send next: the message its table has at this place, or, once the table has
      changed since the dump began, anything. */
  predicate MaySend(s: State, m: Message) {
    && s.kernel.Sending? && s.kernel.request > 0
    && m.sequence == SequenceOf(s.kernel.request)
    && (s.generation == s.kernel.since ==> Says(m, s.table, s.kernel.sent, m.sequence))
  }

  /** The state after one more receive of the drain. */
  function Heard(s: State, r: NotificationRecv): State {
    s.(call := s.call.(notices := s.call.notices + [r]))
  }

  predicate IsRefusal(m: Message, sequence: u32) {
    m.sequence == sequence && m.body.ErrorReply? && m.body.status != 0
  }

  /** The parser's state after the first waiting message. */
  function Received(s: State): DumpState
    requires s.pc.Dumping? && s.replies != [] && s.requests > 0
  {
    Apply(MessageMeaning(s.replies[0].message, SequenceOf(s.requests), s.pc.destination), s.pc.best)
  }

  /** Every change of the main table queues a datagram opening with a route or link message, or sets the
      overrun flag; any other notifications may arrive as well. The kernel runs one dump per socket and
      refuses another while it does. A finished or failed parse may drop the rest of its datagram; what it
      leaves waiting meets the next request. */
  ghost predicate Next(s: State, step: Step, t: State) {
    match step
    case ChangeTable(table, notice) =>
      OpensWithRouteChange(notice) && t == Change(s, table).(queue := s.queue + [notice])
    case ChangeTableOverrun(table) => t == Change(s, table).(overrun := true)
    case Notify(notice) => t == s.(queue := s.queue + [notice])
    case Emit(message) =>
      MaySend(s, message)
      && t == s.(replies := s.replies + [Reply(s.kernel.request, message)],
                 kernel := if EndsDump(message) then Resting else s.kernel.(sent := s.kernel.sent + 1))
    case Begin(destination) =>
      s.pc.Idle? && RouteSelectableScope(destination)
      && t == s.(pc := Draining(destination, false), seen := [s.table], call := Call(s.cached, s.requests, [], []))
    case ReceiveNotice =>
      s.pc.Draining? && s.queue != []
      && var h := Heard(s, Notification(s.queue[0])).(queue := s.queue[1..]);
         t == (if s.queue[0] == [] then h.(cached := None, pc := Checking(s.pc.destination))
               else h.(pc := Draining(s.pc.destination, s.pc.invalidated || Invalidates(s.queue[0]))))
    case ReceiveInterrupted => s.pc.Draining? && t == Heard(s, Interrupted)
    case QueueEmpty =>
      s.pc.Draining? && s.queue == [] && !s.overrun
      && t == Heard(s, WouldBlock).(
                cached := if s.pc.invalidated then None else s.cached, pc := Checking(s.pc.destination))
    case ReceiveOverrun =>
      s.pc.Draining? && s.overrun
      && t == Heard(s, NoBuffers).(overrun := false, cached := None, pc := Checking(s.pc.destination))
    case DrainFails(errno) => s.pc.Draining? && t == Heard(s, ReceiveError(errno)).(pc := Idle)
    case Hit =>
      s.pc.Checking? && s.cached.Some? && s.cached.value.destination == s.pc.destination
      && t == s.(pc := Idle)
    case RequestDump(refusal) =>
      Misses(s)
      && (if refusal.Some? then IsRefusal(refusal.value, SequenceOf(s.requests + 1)) else s.kernel.Resting?)
      && t == s.(requests := s.requests + 1,
                 kernel := if refusal.Some? then s.kernel else Sending(s.requests + 1, s.generation, 0),
                 replies := if refusal.Some? then s.replies + [Reply(s.requests + 1, refusal.value)] else s.replies,
                 pc := Dumping(s.pc.destination, None, s.generation, s.table, 0))
    case RequestFails => Misses(s) && t == s.(requests := s.requests + 1, pc := Idle)
    case ReceiveReply(dropped) =>
      s.pc.Dumping? && s.replies != [] && s.requests > 0 && dropped < |s.replies|
      && var rest, took := s.replies[1..], s.(call := s.call.(taken := s.call.taken + [s.replies[0].message]));
         (match Received(s)
          case More(best) =>
            dropped == 0
            && t == took.(replies := rest, pc := s.pc.(
                         best := best, got := if s.replies[0].request == s.requests then s.pc.got + 1 else s.pc.got))
          case Finished(best) =>
            t == took.(replies := rest[dropped..], pc := Collected(s.pc.destination, Selected(best)))
          case Failed(_) => t == took.(replies := rest[dropped..], pc := Idle))
    case Answer =>
      s.pc.Collected? && s.pc.answer.Ok?
      && t == s.(pc := Opening(s.pc.destination, s.pc.answer.value))
    case Store =>
      s.pc.Opening? && t == s.(cached := Some(Entry(s.pc.destination, s.pc.interface)), pc := Idle)
    case GiveUp =>
      // receive error or timeout, unroutable answer, socket that does not open
      (s.pc.Dumping? || s.pc.Collected? || s.pc.Opening?) && t == s.(pc := Idle)
    case Drop(interface) =>
      s.pc.Idle?
      && t == s.(cached := if s.cached.Some? && s.cached.value.interface == interface then None else s.cached)
  }

  predicate Misses(s: State) {
    s.pc.Checking? && (s.cached.Some? ==> s.cached.value.destination != s.pc.destination)
  }

  // ----- The request socket -----

  /** The waiting messages that answer one request. */
  function Mine(replies: seq<Reply>, request: nat): seq<Message> {
    if replies == [] then []
    else (if replies[0].request == request then [replies[0].message] else []) + Mine(replies[1..], request)
  }

  lemma {:induction false} MineConcat(a: seq<Reply>, b: seq<Reply>, request: nat)
    ensures Mine(a + b, request) == Mine(a, request) + Mine(b, request)
    decreases |a|
  {
    if a == [] {
      assert a + b == b;
    } else {
      var first := if a[0].request == request then [a[0].message] else [];
      var rest := a[1..] + b;
      assert a + b == [a[0]] + rest;
      MineConcat(a[1..], b, request);
      MineOfFirst(a[0], rest, request);
      assert first + (Mine(a[1..], request) + Mine(b, request)) == (first + Mine(a[1..], request)) + Mine(b, request);
    }
  }

  lemma MineOfFirst(r: Reply, rest: seq<Reply>, request: nat)
    ensures Mine([r] + rest, request) == (if r.request == request then [r.message] else []) + Mine(rest, request)
  {
    assert ([r] + rest)[1..] == rest;
  }

  lemma {:induction false} MineOfNewRequest(replies: seq<Reply>, request: nat)
    requires forall r :: r in replies ==> r.request < request
    ensures Mine(replies, request) == []
  {
    if replies != [] {
      MineOfNewRequest(replies[1..], request);
    }
  }

  /** Requests less than a full round of sequence numbers apart carry different ones. */
  lemma SequencesDiffer(a: nat, b: nat)
    requires 0 < a < b < a + 0xffff_ffff
    ensures SequenceOf(a) != SequenceOf(b)
  {
    var x: int, y: int := a - 1, b - 1;
    assert x == 0xffff_ffff * (x / 0xffff_ffff) + x % 0xffff_ffff;
    assert y == 0xffff_ffff * (y / 0xffff_ffff) + y % 0xffff_ffff;
  }

  /** The numbering is the one the egress object draws. */
  lemma SequencesFollow(n: nat)
    requires n > 0
    ensures SequenceOf(n + 1) == NextSequence(SequenceOf(n))
  {
    var x: int, w: int := n - 1, (n - 1) % 0xffff_ffff;
    assert x == 0xffff_ffff * (x / 0xffff_ffff) + w;
    if w == 0xffff_fffe {
      assert n == 0xffff_ffff * (x / 0xffff_ffff + 1);
    } else {
      assert n == 0xffff_ffff * (x / 0xffff_ffff) + (w + 1);
    }
  }

  /** Every waiting message carries the sequence number of an earlier or the current request. */
  ghost predicate SocketOk(s: State) {
    && (forall r :: r in s.replies ==> 0 < r.request <= s.requests && r.message.sequence == SequenceOf(r.request))
    && (s.kernel.Sending? ==> 0 < s.kernel.request <= s.requests && s.kernel.since <= s.generation)
  }

  /** A message the parser fails on: marked interrupted, or an error reply. */
  predicate Spoils(m: Message) {
    !Unmarked(m) || (m.body.ErrorReply? && m.body.status != 0)
  }

  /** The parser holds the fold of the routes taken so far, all from the table of the request, and each waiting
      message is the next of that table's dump or spoils it. */
  ghost predicate FollowsDump(s: State)
    requires s.pc.Dumping? && s.requests > 0
  {
    && s.pc.got <= |s.pc.table| && FoldRoutes(s.pc.table[..s.pc.got], s.pc.destination) == Ok(s.pc.best)
    && WaitingOk(s, Mine(s.replies, s.requests))
  }

  ghost predicate WaitingOk(s: State, mine: seq<Message>)
    requires s.pc.Dumping? && s.requests > 0
  {
    && (forall j :: 0 <= j < |mine| ==>
          Spoils(mine[j]) || Says(mine[j], s.pc.table, s.pc.got + j, SequenceOf(s.requests)))
    && (IsMine(s) ==> s.kernel.sent == s.pc.got + |mine|)
  }

  /** The kernel is still sending the dump of the running call. */
  predicate IsMine(s: State) {
    s.kernel.Sending? && s.kernel.request == s.requests
  }

  /** The dump of the running call: while the table has not changed, the parser follows it; after a change
      nothing is known of it, but an invalidation is pending. */
  ghost predicate DumpOk(s: State)
    requires s.pc.Dumping?
  {
    && s.requests > 0
    && s.pc.since <= s.generation
    && (IsMine(s) ==> s.kernel.since == s.pc.since)
    && (if s.generation == s.pc.since then s.table == s.pc.table && FollowsDump(s) else Pending(s))
  }

  // ----- Coherence -----

  ghost predicate Pending(s: State) {
    s.overrun || exists b :: b in s.queue && Invalidates(b)
  }

  predicate CorrectIn(table: Table, e: Option<Entry>) {
    e.Some? ==> BestRoute(table, e.value.destination) == Ok(e.value.interface)
  }

  ghost predicate Coherent(s: State) {
    Pending(s) || CorrectIn(s.table, s.cached)
  }

  ghost predicate WasCorrect(seen: seq<Table>, e: Option<Entry>) {
    e.Some? ==> exists t :: t in seen && CorrectIn(t, e)
  }

  ghost predicate Inv(s: State) {
    && SocketOk(s)
    && (Coherent(s) || (s.pc.Draining? && s.pc.invalidated))
    && (!s.pc.Idle? ==> s.table in s.seen)
    && (s.pc.Checking? ==> WasCorrect(s.seen, s.cached))
    && (s.pc.Dumping? ==> DumpOk(s))
    && (s.pc.Collected? ==> Pending(s) || BestRoute(s.table, s.pc.destination) == s.pc.answer)
    && (s.pc.Opening? ==> Pending(s) || BestRoute(s.table, s.pc.destination) == Ok(s.pc.interface))
  }

  /** The one step that can lose an invalidation: the drain fails after it already consumed one. */
  predicate LosesInvalidation(s: State, step: Step) {
    step.DrainFails? && s.pc.Draining? && s.pc.invalidated
  }

  /** A received leftover is less than a full round of sequence numbers old. */
  predicate Recognisable(s: State, step: Step) {
    step.ReceiveReply? && s.replies != [] ==> s.requests < s.replies[0].request + 0xffff_ffff
  }

  lemma PendingGrows(s: State, t: State, notice: seq<byte>)
    requires t.queue == s.queue + [notice] && t.overrun == s.overrun
    ensures Pending(s) ==> Pending(t)
    ensures OpensWithRouteChange(notice) ==> Pending(t)
  {
    assert notice in t.queue;
    if OpensWithRouteChange(notice) {
      ChangeSurvivesTruncation(notice);
    }
    if Pending(s) && !s.overrun {
      var b :| b in s.queue && Invalidates(b);
      assert b in t.queue;
    }
  }

  // ----- Every step keeps coherence, whatever an interrupted dump sends -----

  lemma EnvironmentKeepsInv(s: State, step: Step, t: State)
    requires Inv(s) && Next(s, step, t)
    requires step.ChangeTable? || step.ChangeTableOverrun? || step.Notify?
    ensures Inv(t)
  {
    if !step.ChangeTableOverrun? {
      PendingGrows(s, t, step.notice);
    }
    assert forall u :: u in s.seen ==> u in t.seen;
    if !step.Notify? {
      assert Pending(t);
    }
  }

  lemma StepKeepsSocket(s: State, step: Step, t: State)
    requires SocketOk(s) && Next(s, step, t)
    ensures SocketOk(t) && s.requests <= t.requests
  {
    forall r | r in t.replies
      ensures 0 < r.request <= t.requests && r.message.sequence == SequenceOf(r.request)
    {
      if r !in s.replies {
        assert step.Emit? || step.RequestDump?;
      }
    }
  }

  /** What the kernel sends, if it is the next message of the dump or spoils it, the parser can follow. */
  lemma EmitKeepsFollowing(s: State, step: Step, t: State)
    requires s.pc.Dumping? && s.requests > 0 && FollowsDump(s) && Next(s, step, t) && step.Emit?
    requires IsMine(s) ==>
               Spoils(step.message) || Says(step.message, s.pc.table, s.kernel.sent, SequenceOf(s.requests))
    ensures FollowsDump(t)
  {
    var reply := Reply(s.kernel.request, step.message);
    var mine, more := Mine(s.replies, s.requests), Mine(t.replies, s.requests);
    assert more == mine + (if reply.request == s.requests then [step.message] else []) by {
      MineConcat(s.replies, [reply], s.requests);
      assert [reply][1..] == [];
    }
  }

  lemma EmitKeepsInv(s: State, step: Step, t: State)
    requires Inv(s) && Next(s, step, t) && step.Emit?
    ensures Inv(t)
  {
    StepKeepsSocket(s, step, t);
    assert Pending(s) ==> Pending(t);
    if s.pc.Dumping? && s.generation == s.pc.since {
      EmitKeepsFollowing(s, step, t);
    }
  }

  lemma DrainKeepsInv(s: State, step: Step, t: State)
    requires Inv(s) && Next(s, step, t) && !LosesInvalidation(s, step)
    requires step.Begin? || step.ReceiveNotice? || step.ReceiveInterrupted? || step.QueueEmpty?
             || step.ReceiveOverrun? || step.DrainFails?
    ensures Inv(t)
  {
    if step.ReceiveNotice? && s.queue[0] != [] {
      assert s.queue == [s.queue[0]] + t.queue;
      if Pending(s) && !Invalidates(s.queue[0]) && !s.overrun {
        var b :| b in s.queue && Invalidates(b);
        assert b in t.queue;
      }
    }
  }

  /** A new request begins an empty dump. */
  lemma RequestFollows(s: State, step: Step, t: State)
    requires SocketOk(s) && Next(s, step, t) && step.RequestDump?
    ensures t.requests > 0 && FollowsDump(t)
  {
    MineOfNewRequest(s.replies, t.requests);
    if step.refusal.Some? {
      var reply := Reply(t.requests, step.refusal.value);
      MineConcat(s.replies, [reply], t.requests);
      assert [reply][1..] == [];
      assert Mine(t.replies, t.requests) == [step.refusal.value];
    }
    assert t.pc.table[..0] == [];
  }

  lemma RequestKeepsInv(s: State, step: Step, t: State)
    requires Inv(s) && Next(s, step, t) && (step.RequestDump? || step.RequestFails?)
    ensures Inv(t)
  {
    StepKeepsSocket(s, step, t);
    assert Pending(s) ==> Pending(t);
    if step.RequestDump? {
      RequestFollows(s, step, t);
    }
  }

  /** Receiving a message of the followed dump takes the parser one route further, to the best route of the
      table of the request, or to a failure. */
  lemma ReceivedIsNext(s: State)
    requires SocketOk(s) && s.pc.Dumping? && s.requests > 0 && FollowsDump(s)
    requires s.replies != [] && s.replies[0].request == s.requests
    ensures var m, table := s.replies[0].message, s.pc.table;
            match Received(s)
            case More(best) =>
              && Says(m, table, s.pc.got, m.sequence) && s.pc.got < |table|
              && FoldRoutes(table[..s.pc.got + 1], s.pc.destination) == Ok(best)
            case Finished(best) => Selected(best) == BestRoute(table, s.pc.destination)
            case Failed(_) => true
  {
    var m, k := s.replies[0].message, s.pc.got;
    assert Mine(s.replies, s.requests)[0] == m;
    assert s.replies[0] in s.replies;
    if k < |s.pc.table| {
      assert s.pc.table[..k + 1][..k] == s.pc.table[..k];
    } else {
      assert s.pc.table[..k] == s.pc.table;
    }
  }

  /** A leftover of an earlier request changes nothing the parser holds. */
  lemma LeftoverIsSkipped(s: State, step: Step, t: State)
    requires SocketOk(s) && Next(s, step, t) && step.ReceiveReply? && Recognisable(s, step)
    requires s.replies[0].request != s.requests
    ensures t == s.(replies := s.replies[1..], call := t.call)
  {
    assert s.replies[0] in s.replies;
    SequencesDiffer(s.replies[0].request, s.requests);
  }

  lemma ReceiveFollows(s: State, step: Step, t: State)
    requires SocketOk(s) && Next(s, step, t) && step.ReceiveReply? && Recognisable(s, step)
    requires FollowsDump(s)
    ensures t.pc.Dumping? ==> FollowsDump(t)
    ensures t.pc.Collected? ==> t.pc.answer == BestRoute(s.pc.table, s.pc.destination)
  {
    if s.replies[0].request != s.requests {
      LeftoverFollows(s, step, t);
    } else if t.pc.Dumping? {
      NextRouteFollows(s, step, t);
    } else {
      ReceivedIsNext(s);
    }
  }

  lemma LeftoverFollows(s: State, step: Step, t: State)
    requires SocketOk(s) && Next(s, step, t) && step.ReceiveReply? && Recognisable(s, step)
    requires FollowsDump(s) && s.replies[0].request != s.requests
    ensures t.pc == s.pc && FollowsDump(t)
  {
    LeftoverIsSkipped(s, step, t);
    assert Mine(t.replies, t.requests) == Mine(s.replies, s.requests);
  }

  lemma NextRouteFollows(s: State, step: Step, t: State)
    requires SocketOk(s) && Next(s, step, t) && step.ReceiveReply?
    requires FollowsDump(s) && s.replies[0].request == s.requests && t.pc.Dumping?
    ensures FollowsDump(t)
  {
    var mine := Mine(s.replies, s.requests);
    ReceivedIsNext(s);
    assert mine[1..] == Mine(t.replies, t.requests);
    ShiftWaiting(s, t, mine);
  }

  lemma ShiftWaiting(s: State, t: State, mine: seq<Message>)
    requires s.pc.Dumping? && s.requests > 0 && mine != [] && WaitingOk(s, mine)
    requires t.pc.Dumping? && t.requests == s.requests && t.kernel == s.kernel
    requires t.pc.table == s.pc.table && t.pc.got == s.pc.got + 1
    ensures WaitingOk(t, mine[1..])
  {
    forall j | 0 <= j < |mine[1..]|
      ensures Spoils(mine[1..][j]) || Says(mine[1..][j], t.pc.table, t.pc.got + j, SequenceOf(t.requests))
    {
      assert mine[1..][j] == mine[j + 1];
    }
  }

  lemma ReceiveKeepsInv(s: State, step: Step, t: State)
    requires Inv(s) && Next(s, step, t) && step.ReceiveReply? && Recognisable(s, step)
    ensures Inv(t)
  {
    StepKeepsSocket(s, step, t);
    assert Pending(s) ==> Pending(t);
    if s.generation == s.pc.since {
      ReceiveFollows(s, step, t);
    }
  }

  lemma LookupKeepsInv(s: State, step: Step, t: State)
    requires Inv(s) && Next(s, step, t)
    requires step.Hit? || step.Answer? || step.Store? || step.GiveUp? || step.Drop?
    ensures Inv(t)
  {
    assert t.queue == s.queue && t.overrun == s.overrun;
  }

  lemma StepKeepsInv(s: State, step: Step, t: State)
    requires Inv(s) && Next(s, step, t) && !LosesInvalidation(s, step) && Recognisable(s, step)
    ensures Inv(t)
  {
    if step.ChangeTable? || step.ChangeTableOverrun? || step.Notify? {
      EnvironmentKeepsInv(s, step, t);
    } else if step.Emit? {
      EmitKeepsInv(s, step, t);
    } else if step.RequestDump? || step.RequestFails? {
      RequestKeepsInv(s, step, t);
    } else if step.ReceiveReply? {
      ReceiveKeepsInv(s, step, t);
    } else if step.Hit? || step.Answer? || step.Store? || step.GiveUp? || step.Drop? {
      LookupKeepsInv(s, step, t);
    } else {
      DrainKeepsInv(s, step, t);
    }
  }

  // ----- Runs -----

  ghost predicate IsRun(states: seq<State>, steps: seq<Step>) {
    && |states| == |steps| + 1
    && Init(states[0])
    && forall i :: 0 <= i < |steps| ==> Next(states[i], steps[i], states[i + 1])
  }

  /** No drain of the run fails after consuming an invalidation; in particular this holds when receives
      fail only with EINTR, EWOULDBLOCK or ENOBUFS. No leftover of an aborted dump is received after a full
      round of sequence numbers. */
  ghost predicate IsOrderly(states: seq<State>, steps: seq<Step>)
    requires |states| == |steps| + 1
  {
    forall i :: 0 <= i < |steps| ==> !LosesInvalidation(states[i], steps[i]) && Recognisable(states[i], steps[i])
  }

  lemma {:induction false} RunKeepsInv(states: seq<State>, steps: seq<Step>, n: nat)
    requires IsRun(states, steps) && IsOrderly(states, steps) && n < |states|
    ensures Inv(states[n])
  {
    if n > 0 {
      RunKeepsInv(states, steps, n - 1);
      StepKeepsInv(states[n - 1], steps[n - 1], states[n]);
    }
  }

  /** A run of fewer than 2^32 requests receives no leftover that old. */
  lemma {:induction false} ShortRunsAreRecognisable(states: seq<State>, steps: seq<Step>, n: nat)
    requires IsRun(states, steps) && n < |states|
    ensures SocketOk(states[n])
    ensures states[n].requests <= 0xffff_ffff && n < |steps| ==> Recognisable(states[n], steps[n])
  {
    if n > 0 {
      ShortRunsAreRecognisable(states, steps, n - 1);
      StepKeepsSocket(states[n - 1], steps[n - 1], states[n]);
    }
    if states[n].replies != [] {
      assert states[n].replies[0] in states[n].replies;
    }
  }

  /** What the call returns, when `step` is one that ends it successfully. */
  function Returned(s: State, step: Step): Option<Entry> {
    if step.Hit? && s.pc.Checking? && s.cached.Some? then Some(Entry(s.pc.destination, s.cached.value.interface))
    else if step.Store? && s.pc.Opening? then Some(Entry(s.pc.destination, s.pc.interface))
    else None
  }

  /** Over every run, whatever the kernel sends of a dump that a change interrupted, with nothing pending a
      cached entry is the best route of the current table: between calls and inside every call, except while a
      drain holds an invalidation it has not yet acted on. */
  lemma CacheIsCoherent(states: seq<State>, steps: seq<Step>, n: nat)
    requires IsRun(states, steps) && IsOrderly(states, steps) && n < |states|
    ensures var s := states[n];
            !(s.pc.Draining? && s.pc.invalidated) && !Pending(s) && s.cached.Some? ==>
              BestRoute(s.table, s.cached.value.destination) == Ok(s.cached.value.interface)
  {
    RunKeepsInv(states, steps, n);
  }

  // ----- Answers, when interrupted dumps are marked -----

  /** The kernel marks what it sends of a dump after the table has changed. */
  predicate Marks(s: State, step: Step) {
    step.Emit? && s.kernel.Sending? && s.generation != s.kernel.since ==> !Unmarked(step.message)
  }

  ghost predicate MarksInterrupted(states: seq<State>, steps: seq<Step>)
    requires |states| == |steps| + 1
  {
    forall i :: 0 <= i < |steps| ==> Marks(states[i], steps[i])
  }

  ghost predicate WasAnswer(seen: seq<Table>, destination: Ipv6Addr, answer: Result<u32, NetError>) {
    exists t :: t in seen && BestRoute(t, destination) == answer
  }

  /** Even after a change, the parser holds nothing but the table of the request. */
  ghost predicate AnswerInv(s: State) {
    && (s.pc.Dumping? ==> s.requests > 0 && s.pc.table in s.seen && FollowsDump(s))
    && (s.pc.Collected? ==> WasAnswer(s.seen, s.pc.destination, s.pc.answer))
    && (s.pc.Opening? ==> WasAnswer(s.seen, s.pc.destination, Ok(s.pc.interface)))
  }

  lemma QuietStepKeepsAnswerInv(s: State, step: Step, t: State)
    requires AnswerInv(s) && Next(s, step, t)
    requires !step.Emit? && !step.RequestDump? && !step.ReceiveReply?
    ensures AnswerInv(t)
  {
    assert forall u :: u in s.seen && !step.Begin? ==> u in t.seen;
  }

  lemma StepKeepsAnswerInv(s: State, step: Step, t: State)
    requires Inv(s) && AnswerInv(s) && Next(s, step, t) && Recognisable(s, step) && Marks(s, step)
    ensures AnswerInv(t)
  {
    if step.Emit? {
      if s.pc.Dumping? {
        EmitKeepsFollowing(s, step, t);
      }
    } else if step.RequestDump? {
      RequestFollows(s, step, t);
    } else if step.ReceiveReply? {
      ReceiveFollows(s, step, t);
    } else {
      QuietStepKeepsAnswerInv(s, step, t);
    }
  }

  lemma {:induction false} RunKeepsAnswerInv(states: seq<State>, steps: seq<Step>, n: nat)
    requires IsRun(states, steps) && IsOrderly(states, steps) && MarksInterrupted(states, steps) && n < |states|
    ensures AnswerInv(states[n])
  {
    if n > 0 {
      RunKeepsAnswerInv(states, steps, n - 1);
      RunKeepsInv(states, steps, n - 1);
      StepKeepsAnswerInv(states[n - 1], steps[n - 1], states[n]);
    }
  }

  /** However the table changes while a dump is sent and received, an answer that is collected is the best
      route of one table, the one that was current when the dump was requested. */
  lemma CollectedAnswerIsOfOneTable(states: seq<State>, steps: seq<Step>, n: nat)
    requires IsRun(states, steps) && IsOrderly(states, steps) && MarksInterrupted(states, steps) && n < |steps|
    requires steps[n].ReceiveReply? && states[n + 1].pc.Collected?
    ensures var s, t := states[n], states[n + 1];
            && s.pc.Dumping? && s.pc.table in s.seen
            && t.pc.answer == BestRoute(s.pc.table, s.pc.destination)
            && (s.pc.table == s.table || Pending(s))
  {
    RunKeepsInv(states, steps, n);
    RunKeepsAnswerInv(states, steps, n);
    assert Next(states[n], steps[n], states[n + 1]);
    ReceiveFollows(states[n], steps[n], states[n + 1]);
  }

  /** `seen` holds only tables that were current since the running call began. */
  lemma {:induction false} SeenTablesWereCurrent(states: seq<State>, steps: seq<Step>, n: nat, table: Table)
    returns (i: nat)
    requires IsRun(states, steps) && n < |states| && !states[n].pc.Idle? && table in states[n].seen
    ensures i <= n && states[i].table == table
    ensures forall j :: i <= j <= n ==> !states[j].pc.Idle?
    decreases n
  {
    i := n;
    if n > 0 && table != states[n].table {
      assert Next(states[n - 1], steps[n - 1], states[n]);
      i := SeenTablesWereCurrent(states, steps, n - 1, table);
    }
  }

  /** Every successful call returns an interface that was the best route at some instant of that call, even
      with changes between drain, request, any two messages of the dump, and store. An answer from the cache
      needs no marks for this. */
  lemma AnswerWasCorrectDuringCall(states: seq<State>, steps: seq<Step>, n: nat) returns (i: nat)
    requires IsRun(states, steps) && IsOrderly(states, steps) && n < |steps|
    requires Returned(states[n], steps[n]).Some?
    requires steps[n].Hit? || MarksInterrupted(states, steps)
    ensures i <= n && (forall j :: i <= j <= n ==> !states[j].pc.Idle?)
    ensures CorrectIn(states[i].table, Returned(states[n], steps[n]))
  {
    var s := states[n];
    var answer := Returned(s, steps[n]).value;
    RunKeepsInv(states, steps, n);
    assert Next(s, steps[n], states[n + 1]);
    var t: Table;
    if steps[n].Hit? {
      t :| t in s.seen && CorrectIn(t, s.cached);
    } else {
      RunKeepsAnswerInv(states, steps, n);
      t :| t in s.seen && BestRoute(t, answer.destination) == Ok(answer.interface);
    }
    i := SeenTablesWereCurrent(states, steps, n, t);
  }
}
