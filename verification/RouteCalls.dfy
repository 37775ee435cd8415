/** Calls of the egress object seen from the machine: every call of every run is one the object may make, an
    undisturbed one can always be made, and two runs show which assumptions on the kernel are needed. */
module RouteCalls {
  import opened Base
  import opened Addresses
  import opened Netlink
  import opened RouteDump
  import opened RouteMessages
  import opened RouteTable
  import opened RouteEgress
  import opened RouteCache

  // ----- Every call is one the egress object may make -----

  /** A receive after which the drain goes on. */
  predicate Passes(r: NotificationRecv) {
    r.Interrupted? || (r.Notification? && r.bytes != [])
  }

  function Flagged(notices: seq<NotificationRecv>): bool {
    notices != []
    && var last := notices[|notices| - 1];
       Flagged(notices[..|notices| - 1]) || (last.Notification? && Invalidates(last.bytes))
  }

  lemma {:induction false} DrainPasses(before: seq<NotificationRecv>, rest: seq<NotificationRecv>)
    requires forall r :: r in before ==> Passes(r)
    ensures Drain(before + rest, false) == Drain(rest, Flagged(before))
    decreases |before|
  {
    if before == [] {
      assert before + rest == rest;
    } else {
      var init, last := before[..|before| - 1], before[|before| - 1];
      assert before + rest == init + ([last] + rest);
      DrainPasses(init, [last] + rest);
      assert last in before && ([last] + rest)[1..] == rest;
    }
  }

  /** The drain that ends with one more receive. */
  lemma DrainEnds(before: seq<NotificationRecv>, last: NotificationRecv)
    requires forall r :: r in before ==> Passes(r)
    ensures last.Interrupted? || (last.Notification? && last.bytes != []) ==>
              Flagged(before + [last]) == (Flagged(before) || (last.Notification? && Invalidates(last.bytes)))
    ensures last.WouldBlock? ==> Drain(before + [last], false) == Ok(Flagged(before))
    ensures last.NoBuffers? || (last.Notification? && last.bytes == []) ==> Drain(before + [last], false) == Ok(true)
    ensures last.ReceiveError? ==> Drain(before + [last], false) == Err(Os(last.errno))
  {
    DrainPasses(before, [last]);
    assert (before + [last])[..|before|] == before;
  }

  /** The entry the drain has left. */
  function Kept(call: Call): Option<Entry> {
    if Drain(call.notices, false) == Ok(true) then None else call.cached
  }

  /** The parser's verdict on the messages the call has taken. */
  function Parsed(s: State): DumpState
    requires !s.pc.Idle? && s.requests > 0
  {
    RunMessages(s.call.taken, SequenceOf(s.requests), s.pc.destination, None)
  }

  ghost predicate HasMissed(s: State)
    requires !s.pc.Idle?
  {
    && s.requests == s.call.requests + 1
    && (s.cached.Some? ==> s.cached.value.destination != s.pc.destination)
  }

  /** What the call has consumed explains where it stands. */
  ghost predicate CallInv(s: State) {
    !s.pc.Idle? ==>
      && RouteSelectableScope(s.pc.destination)
      && (s.pc.Draining? ==>
            && s.cached == s.call.cached && (forall r :: r in s.call.notices ==> Passes(r))
            && s.pc.invalidated == Flagged(s.call.notices))
      && (!s.pc.Draining? ==> Drain(s.call.notices, false).Ok? && s.cached == Kept(s.call))
      && (s.pc.Draining? || s.pc.Checking? ==> s.requests == s.call.requests && s.call.taken == [])
      && (s.pc.Dumping? ==> HasMissed(s) && Parsed(s) == More(s.pc.best))
      && (s.pc.Collected? ==> HasMissed(s) && Verdict(Parsed(s)) == s.pc.answer)
      && (s.pc.Opening? ==> HasMissed(s) && Verdict(Parsed(s)) == Ok(s.pc.interface))
  }

  /** Taking one more message. */
  lemma TakenParses(s: State, t: State)
    requires s.pc.Dumping? && s.requests > 0 && s.replies != [] && Parsed(s) == More(s.pc.best)
    requires t.call.taken == s.call.taken + [s.replies[0].message]
    ensures RunMessages(t.call.taken, SequenceOf(s.requests), s.pc.destination, None) == Received(s)
  {
    var m := s.replies[0].message;
    RunConcat(s.call.taken, [m], SequenceOf(s.requests), s.pc.destination, None);
    OneMessage(m, SequenceOf(s.requests), s.pc.destination, s.pc.best);
  }

  lemma DrainKeepsCallInv(s: State, step: Step, t: State)
    requires CallInv(s) && Next(s, step, t) && s.pc.Draining?
    ensures CallInv(t)
  {
    if t.call.notices != s.call.notices {
      var last := t.call.notices[|s.call.notices|];
      assert t.call.notices == s.call.notices + [last];
      DrainEnds(s.call.notices, last);
    }
  }

  lemma StepKeepsCallInv(s: State, step: Step, t: State)
    requires CallInv(s) && Next(s, step, t)
    ensures CallInv(t)
  {
    if s.pc.Draining? {
      DrainKeepsCallInv(s, step, t);
    } else if step.ReceiveReply? {
      TakenParses(s, t);
    }
  }

  lemma {:induction false} RunKeepsCallInv(states: seq<State>, steps: seq<Step>, n: nat)
    requires IsRun(states, steps) && n < |states|
    ensures CallInv(states[n])
  {
    if n > 0 {
      RunKeepsCallInv(states, steps, n - 1);
      assert Next(states[n - 1], steps[n - 1], states[n]);
      StepKeepsCallInv(states[n - 1], steps[n - 1], states[n]);
    }
  }

  /** An entry as the egress object keeps it, the socket left aside. */
  function Bare(e: Option<Entry>): Option<CachedRoute<()>> {
    if e.Some? then Some(CachedRoute(e.value.destination, e.value.interface, ())) else None
  }

  /** One datagram for each message. */
  function Singles(messages: seq<Message>): (r: seq<seq<Message>>)
    ensures |r| == |messages|
    ensures forall i :: 0 <= i < |r| ==> r[i] == [messages[i]]
  {
    seq(|messages|, i requires 0 <= i < |messages| => [messages[i]])
  }

  lemma {:induction false} FlattenSingles(messages: seq<Message>)
    ensures Flatten(Singles(messages)) == messages
  {
    if messages != [] {
      assert Singles(messages)[1..] == Singles(messages[1..]);
      FlattenSingles(messages[1..]);
    }
  }

  lemma SinglesAreReceived(messages: seq<Message>, sequence: u32, destination: Ipv6Addr)
    requires AllReceivable(Singles(messages))
    ensures ReceiveFrom(EncodeDatagrams(Singles(messages)), sequence, destination, None)
            == Verdict(RunMessages(messages, sequence, destination, None))
  {
    DumpRefinesList(Singles(messages), sequence, destination, None);
    FlattenSingles(messages);
  }

  /** A step that ends a call, with what the call has consumed, as `IsEgress` sees it. */
  ghost predicate EndsAsEgress(s: State, step: Step, t: State, sendError: Option<int>, open: u32 -> Option<()>,
                               r: Result<(u32, ()), EgressError>)
    requires !s.pc.Idle? && AllReceivable(Singles(t.call.taken))
  {
    && IsEgress(s.pc.destination, t.call.notices, sendError, EncodeDatagrams(Singles(t.call.taken)), open,
                Bare(t.call.cached), SequenceOf(t.call.requests + 1),
                Bare(t.cached), SequenceOf(t.requests + 1), r)
    && Returned(s, step) == if r.Ok? then Some(Entry(s.pc.destination, r.value.0)) else None
  }

  lemma EndsBeforeLookup(s: State, step: Step, t: State) returns (r: Result<(u32, ()), EgressError>)
    requires CallInv(s) && Next(s, step, t) && !s.pc.Idle? && AllReceivable(Singles(t.call.taken))
    requires step.DrainFails? || step.Hit?
    ensures EndsAsEgress(s, step, t, None, _ => None, r)
  {
    if step.DrainFails? {
      DrainEnds(s.call.notices, ReceiveError(step.errno));
      r := Err(SendFailed(Os(step.errno)));
    } else {
      r := Ok((s.cached.value.interface, ()));
    }
  }

  /** What a call that found no entry returns. */
  function MissResult(sendError: Option<int>, verdict: Result<u32, NetError>, open: u32 -> Option<()>)
    : Result<(u32, ()), EgressError>
  {
    if sendError.Some? then Err(SendFailed(Os(sendError.value)))
    else if verdict.Err? then Err(SendFailed(verdict.error))
    else if open(verdict.value).None? then Err(OpenFailed)
    else Ok((verdict.value, open(verdict.value).value))
  }

  /** The last branch of `IsEgress`, for a lookup that answered `answer`. */
  lemma MissedEgress(
    destination: Ipv6Addr, notices: seq<NotificationRecv>, sendError: Option<int>, dump: seq<Recv>,
    open: u32 -> Option<()>, before: Option<Entry>, sequence: u32, after: Option<Entry>, next: u32,
    answer: Result<u32, NetError>)
    requires RouteSelectableScope(destination) && Drain(notices, false).Ok?
    requires answer == ReceiveFrom(dump, sequence, destination, None) && next == NextSequence(sequence)
    requires var kept := if Drain(notices, false).value then None else before;
             && (kept.Some? ==> kept.value.destination != destination)
             && after == (var r := MissResult(sendError, answer, open);
                          if r.Ok? then Some(Entry(destination, r.value.0)) else kept)
    ensures IsEgress(destination, notices, sendError, dump, open, Bare(before), sequence, Bare(after), next,
                     MissResult(sendError, answer, open))
  {
    if answer.Ok? && open(answer.value).Some? {
      match open(answer.value).value
      case () =>
    }
  }

  /** The verdict of a call's messages. */
  function VerdictOf(destination: Ipv6Addr, call: Call): Result<u32, NetError> {
    Verdict(RunMessages(call.taken, SequenceOf(call.requests + 1), destination, None))
  }

  lemma MissIsEgress(destination: Ipv6Addr, call: Call, sendError: Option<int>, open: u32 -> Option<()>,
                     after: Option<Entry>)
    requires RouteSelectableScope(destination) && Drain(call.notices, false).Ok?
    requires Kept(call).Some? ==> Kept(call).value.destination != destination
    requires AllReceivable(Singles(call.taken))
    requires var r := MissResult(sendError, VerdictOf(destination, call), open);
             after == if r.Ok? then Some(Entry(destination, r.value.0)) else Kept(call)
    ensures IsEgress(destination, call.notices, sendError, EncodeDatagrams(Singles(call.taken)), open,
                     Bare(call.cached), SequenceOf(call.requests + 1), Bare(after), SequenceOf(call.requests + 2),
                     MissResult(sendError, VerdictOf(destination, call), open))
  {
    var sequence, next := SequenceOf(call.requests + 1), SequenceOf(call.requests + 2);
    var dump, answer := EncodeDatagrams(Singles(call.taken)), VerdictOf(destination, call);
    assert next == NextSequence(sequence) by {
      SequencesFollow(call.requests + 1);
    }
    assert ReceiveFrom(dump, sequence, destination, None) == answer by {
      SinglesAreReceived(call.taken, sequence, destination);
    }
    MissedEgress(destination, call.notices, sendError, dump, open, call.cached, sequence, after, next, answer);
  }

  /** What the call has consumed, and that it found no entry, when the step ends it after a lookup. */
  ghost predicate EndsMissed(s: State, t: State)
    requires !s.pc.Idle?
  {
    && RouteSelectableScope(s.pc.destination) && Drain(t.call.notices, false).Ok?
    && (Kept(t.call).Some? ==> Kept(t.call).value.destination != s.pc.destination)
    && t.requests == t.call.requests + 1
  }

  lemma EndsAfterMiss(s: State, step: Step, t: State, sendError: Option<int>, open: u32 -> Option<()>)
    requires !s.pc.Idle? && EndsMissed(s, t) && AllReceivable(Singles(t.call.taken))
    requires var r := MissResult(sendError, VerdictOf(s.pc.destination, t.call), open);
             && Returned(s, step) == (if r.Ok? then Some(Entry(s.pc.destination, r.value.0)) else None)
             && t.cached == if r.Ok? then Returned(s, step) else Kept(t.call)
    ensures EndsAsEgress(s, step, t, sendError, open, MissResult(sendError, VerdictOf(s.pc.destination, t.call), open))
  {
    MissIsEgress(s.pc.destination, t.call, sendError, open, t.cached);
  }

  /** The facts a missed call ends with, read off what it has consumed. */
  lemma MissedCall(s: State, step: Step, t: State)
    requires CallInv(s) && Next(s, step, t) && t.pc.Idle?
    requires step.RequestFails? || step.ReceiveReply? || step.GiveUp? || step.Store?
    ensures EndsMissed(s, t) && (!step.Store? ==> t.cached == Kept(t.call))
    ensures step.GiveUp? || step.Store? ==> VerdictOf(s.pc.destination, t.call) == Verdict(Parsed(s))
    ensures step.ReceiveReply? ==> VerdictOf(s.pc.destination, t.call) == Err(Received(s).error)
  {
    if step.ReceiveReply? {
      TakenParses(s, t);
    }
  }

  /** Every call of every run, with whatever changes, notices, leftovers and failures in between, is one the
      egress object may make: on the receives its drain consumed and the messages its parser took, `IsEgress`
      relates the entry and sequence number before the call to those after it and to what it returned. */
  lemma EveryCallIsEgress(states: seq<State>, steps: seq<Step>, n: nat)
    returns (sendError: Option<int>, open: u32 -> Option<()>, r: Result<(u32, ()), EgressError>)
    requires IsRun(states, steps) && n < |steps| && !states[n].pc.Idle? && states[n + 1].pc.Idle?
    requires AllReceivable(Singles(states[n + 1].call.taken))
    ensures EndsAsEgress(states[n], steps[n], states[n + 1], sendError, open, r)
  {
    var s, step, t := states[n], steps[n], states[n + 1];
    assert Next(s, step, t);
    RunKeepsCallInv(states, steps, n);
    sendError, open := None, _ => None;
    if step.DrainFails? || step.Hit? {
      r := EndsBeforeLookup(s, step, t);
    } else {
      if step.Store? {
        open := _ => Some(());
      } else if step.RequestFails? {
        sendError := Some(0);
      }
      MissedCall(s, step, t);
      EndsAfterMiss(s, step, t, sendError, open);
      r := MissResult(sendError, VerdictOf(s.pc.destination, t.call), open);
    }
  }

  // ----- An undisturbed call -----

  ghost predicate IsPath(states: seq<State>, steps: seq<Step>) {
    |states| == |steps| + 1 && forall i :: 0 <= i < |steps| ==> Next(states[i], steps[i], states[i + 1])
  }

  /** The receives that empty a queue. */
  function Notices(queue: seq<seq<byte>>): (r: seq<NotificationRecv>)
    ensures |r| == |queue|
  {
    seq(|queue|, i requires 0 <= i < |queue| => Notification(queue[i]))
  }

  /** The drain steps of the machine decide what the draining loop of the code decides. */
  lemma {:induction false} UndisturbedDrain(s: State) returns (states: seq<State>, steps: seq<Step>)
    requires s.pc.Draining? && !s.overrun
    ensures IsPath(states, steps) && states[0] == s
    ensures var t, drained := states[|steps|], Drain(Notices(s.queue), s.pc.invalidated);
            && drained.Ok? && t.pc == Checking(s.pc.destination)
            && t == s.(queue := t.queue, pc := t.pc, call := t.call,
                       cached := if drained.value then None else s.cached)
            && (s.queue == [] ==> t.queue == [])
    decreases |s.queue|
  {
    if s.queue == [] {
      var t := Heard(s, WouldBlock).(
                 cached := if s.pc.invalidated then None else s.cached, pc := Checking(s.pc.destination));
      states, steps := [s, t], [QueueEmpty];
    } else {
      assert Notices(s.queue)[1..] == Notices(s.queue[1..]);
      var h := Heard(s, Notification(s.queue[0])).(queue := s.queue[1..]);
      if s.queue[0] == [] {
        states, steps := [s, h.(cached := None, pc := Checking(s.pc.destination))], [ReceiveNotice];
      } else {
        var t := h.(pc := Draining(s.pc.destination, s.pc.invalidated || Invalidates(s.queue[0])));
        var tail, rest := UndisturbedDrain(t);
        states, steps := [s] + tail, [ReceiveNotice] + rest;
        assert states[|steps|] == tail[|rest|];
      }
    }
  }

  /** Left alone, with no earlier dump unfinished, the machine answers and caches exactly as the egress object
      does: the kept entry for the destination, or else the best route of the table. */
  lemma UndisturbedCall(s: State, destination: Ipv6Addr) returns (states: seq<State>, steps: seq<Step>)
    requires s.pc.Idle? && !s.overrun && RouteSelectableScope(destination) && s.kernel.Resting? && s.replies == []
    ensures IsPath(states, steps) && states[0] == s && steps != []
    ensures var t, answered := states[|steps|], Returned(states[|steps| - 1], steps[|steps| - 1]);
            && t.pc.Idle? && Drain(Notices(s.queue), false).Ok?
            && t.table == s.table && !t.overrun && (s.queue == [] ==> t.queue == [])
            && var kept := if Drain(Notices(s.queue), false).value then None else s.cached;
            if kept.Some? && kept.value.destination == destination then t.cached == kept == answered
            else if BestRoute(s.table, destination).Ok? then
              t.cached == answered == Some(Entry(destination, BestRoute(s.table, destination).value))
            else t.cached == kept && answered == None
  {
    var first := s.(pc := Draining(destination, false), seen := [s.table], call := Call(s.cached, s.requests, [], []));
    var drain, drainSteps := UndisturbedDrain(first);
    var c := drain[|drainSteps|];
    var tail, rest := UndisturbedLookup(c);
    var opening, openingSteps := [s] + drain, [Begin(destination)] + drainSteps;
    assert opening[|openingSteps|] == c;
    states, steps := PathsChain(opening, openingSteps, tail, rest);
  }

  lemma PathsJoin(states: seq<State>, steps: seq<Step>, tail: seq<State>, rest: seq<Step>)
    requires IsPath(states, steps) && IsPath(tail, rest) && states[|steps|] == tail[0]
    ensures IsPath(states + tail[1..], steps + rest)
    ensures forall i :: 0 <= i <= |rest| ==> (states + tail[1..])[|steps| + i] == tail[i]
  {
    var all, more := states + tail[1..], steps + rest;
    assert all[..|states|] == states;
    assert forall i :: 0 <= i <= |rest| ==> all[|steps| + i] == tail[i];
    forall i | 0 <= i < |more|
      ensures Next(all[i], more[i], all[i + 1])
    {
      if i < |steps| {
        assert Next(states[i], steps[i], states[i + 1]);
      } else {
        var j := i - |steps|;
        assert all[|steps| + j] == tail[j] && all[|steps| + (j + 1)] == tail[j + 1];
        assert Next(tail[j], rest[j], tail[j + 1]);
      }
    }
  }

  lemma UndisturbedLookup(c: State) returns (states: seq<State>, steps: seq<Step>)
    requires c.pc.Checking? && c.kernel.Resting? && c.replies == []
    ensures IsPath(states, steps) && states[0] == c && steps != []
    ensures var t, answered := states[|steps|], Returned(states[|steps| - 1], steps[|steps| - 1]);
            && t.pc.Idle? && t.table == c.table && t.overrun == c.overrun && t.queue == c.queue
            && if c.cached.Some? && c.cached.value.destination == c.pc.destination then t.cached == c.cached == answered
               else if BestRoute(c.table, c.pc.destination).Ok? then
                 t.cached == answered == Some(Entry(c.pc.destination, BestRoute(c.table, c.pc.destination).value))
               else t.cached == c.cached && answered == None
  {
    if !Misses(c) {
      return [c, c.(pc := Idle)], [Hit];
    }
    states, steps := UndisturbedMiss(c);
    if !states[|steps|].pc.Idle? {
      states, steps := UndisturbedFinish(states, steps);
    }
  }

  lemma UndisturbedMiss(c: State) returns (states: seq<State>, steps: seq<Step>)
    requires Misses(c) && c.kernel.Resting? && c.replies == []
    ensures IsPath(states, steps) && states[0] == c && steps != []
    ensures var t, answer := states[|steps|], BestRoute(c.table, c.pc.destination);
            && t == c.(requests := t.requests, kernel := t.kernel, pc := t.pc, call := t.call)
            && (t.pc == Collected(c.pc.destination, answer)
                || (t.pc.Idle? && answer.Err? && Returned(states[|steps| - 1], steps[|steps| - 1]) == None))
  {
    var d := c.(requests := c.requests + 1, kernel := Sending(c.requests + 1, c.generation, 0),
                pc := Dumping(c.pc.destination, None, c.generation, c.table, 0));
    assert c.table[..0] == [];
    var dump, dumpSteps := UndisturbedDump(d);
    states, steps := PathsChain([c, d], [RequestDump(None)], dump, dumpSteps);
  }

  /** From the collected answer to the end of the call. */
  lemma UndisturbedFinish(before: seq<State>, beforeSteps: seq<Step>) returns (states: seq<State>, steps: seq<Step>)
    requires IsPath(before, beforeSteps) && before[|beforeSteps|].pc.Collected?
    ensures IsPath(states, steps) && states[0] == before[0] && steps != []
    ensures var e, t := before[|beforeSteps|], states[|steps|];
            var answered := Returned(states[|steps| - 1], steps[|steps| - 1]);
            && t.pc.Idle? && t == e.(pc := Idle, cached := t.cached)
            && if e.pc.answer.Ok? then t.cached == answered == Some(Entry(e.pc.destination, e.pc.answer.value))
               else t.cached == e.cached && answered == None
  {
    var e := before[|beforeSteps|];
    if e.pc.answer.Err? {
      states, steps := ExtendPath(before, beforeSteps, GiveUp, e.(pc := Idle));
    } else {
      var interface := e.pc.answer.value;
      states, steps := ExtendPath(before, beforeSteps, Answer, e.(pc := Opening(e.pc.destination, interface)));
      var done := e.(cached := Some(Entry(e.pc.destination, interface)), pc := Idle);
      states, steps := ExtendPath(states, steps, Store, done);
    }
  }

  /** The kernel sends the next message of the dump and the parser takes it. */
  lemma UndisturbedTurn(d: State) returns (m: Message, sent: State, t: State)
    requires d.pc.Dumping? && d.requests > 0 && d.replies == [] && d.pc.got <= |d.table|
    requires d.kernel == Sending(d.requests, d.generation, d.pc.got)
    ensures Next(d, Emit(m), sent) && Next(sent, ReceiveReply(0), t)
    ensures d.pc.got == |d.table| ==>
              t == d.(kernel := Resting, pc := Collected(d.pc.destination, Selected(d.pc.best)), call := t.call)
    ensures d.pc.got < |d.table| ==>
              var meaning := RouteMeaning(d.table[d.pc.got], d.pc.destination);
              && t == d.(kernel := d.kernel.(sent := d.pc.got + 1), pc := t.pc, call := t.call)
              && if meaning.Err? then t.pc == Idle
                 else
                   var best := if meaning.value.None? then d.pc.best else Prefer(meaning.value.value, d.pc.best);
                   t.pc == d.pc.(got := d.pc.got + 1, best := best)
  {
    var k, sequence := d.pc.got, SequenceOf(d.requests);
    m := Message(0, sequence, 0, if k < |d.table| then NewRoute(d.table[k]) else DoneBare);
    var reply := Reply(d.requests, m);
    assert d.replies + [reply] == [reply];
    sent := d.(replies := [reply], kernel := if k < |d.table| then d.kernel.(sent := k + 1) else Resting);
    assert sent.replies[1..] == [] && sent.replies[1..][0..] == [];
    var state := Received(sent);
    var pc := match state
      case More(best) => d.pc.(best := best, got := k + 1)
      case Finished(best) => Collected(d.pc.destination, Selected(best))
      case Failed(_) => Idle;
    t := sent.(replies := [], pc := pc, call := sent.call.(taken := sent.call.taken + [m]));
  }

  /** The dump runs until it ends or a route makes the parser fail. */
  lemma {:induction false} UndisturbedDump(d: State) returns (states: seq<State>, steps: seq<Step>)
    requires d.pc.Dumping? && d.requests > 0 && d.replies == [] && d.pc.got <= |d.table|
    requires d.kernel == Sending(d.requests, d.generation, d.pc.got)
    requires FoldRoutes(d.table[..d.pc.got], d.pc.destination) == Ok(d.pc.best)
    ensures IsPath(states, steps) && states[0] == d && steps != []
    ensures var t, answer := states[|steps|], BestRoute(d.table, d.pc.destination);
            && t == d.(kernel := t.kernel, pc := t.pc, call := t.call)
            && (t.pc == Collected(d.pc.destination, answer)
                || (t.pc.Idle? && answer.Err? && Returned(states[|steps| - 1], steps[|steps| - 1]) == None))
    decreases |d.table| - d.pc.got
  {
    var m, sent, t := UndisturbedTurn(d);
    TurnFolds(d);
    states, steps := [d, sent, t], [Emit(m), ReceiveReply(0)];
    if t.pc.Dumping? {
      var tail, rest := UndisturbedDump(t);
      states, steps := PathsChain(states, steps, tail, rest);
    }
  }

  lemma PathsChain(first: seq<State>, firstSteps: seq<Step>, tail: seq<State>, rest: seq<Step>)
    returns (states: seq<State>, steps: seq<Step>)
    requires IsPath(first, firstSteps) && IsPath(tail, rest) && first[|firstSteps|] == tail[0] && rest != []
    ensures IsPath(states, steps) && states[0] == first[0] && steps != []
    ensures states[|steps|] == tail[|rest|]
    ensures states[|steps| - 1] == tail[|rest| - 1] && steps[|steps| - 1] == rest[|rest| - 1]
  {
    PathsJoin(first, firstSteps, tail, rest);
    states, steps := first + tail[1..], firstSteps + rest;
  }

  /** What one turn does to the fold of the routes. */
  lemma TurnFolds(d: State)
    requires d.pc.Dumping? && d.pc.got <= |d.table|
    requires FoldRoutes(d.table[..d.pc.got], d.pc.destination) == Ok(d.pc.best)
    ensures d.pc.got == |d.table| ==> Selected(d.pc.best) == BestRoute(d.table, d.pc.destination)
    ensures d.pc.got < |d.table| ==>
              var meaning := RouteMeaning(d.table[d.pc.got], d.pc.destination);
              if meaning.Err? then BestRoute(d.table, d.pc.destination).Err?
              else FoldRoutes(d.table[..d.pc.got + 1], d.pc.destination)
                   == Ok(if meaning.value.None? then d.pc.best else Prefer(meaning.value.value, d.pc.best))
  {
    var k := d.pc.got;
    if k == |d.table| {
      assert d.table[..k] == d.table;
    } else {
      assert d.table[..k + 1][..k] == d.table[..k];
      if RouteMeaning(d.table[k], d.pc.destination).Err? {
        FoldFails(d.table, d.pc.destination, k + 1);
      }
    }
  }

  lemma {:induction false} FoldFails(table: Table, destination: Ipv6Addr, k: nat)
    requires k <= |table| && FoldRoutes(table[..k], destination).Err?
    ensures FoldRoutes(table, destination).Err?
    decreases |table|
  {
    if k == |table| {
      assert table[..k] == table;
    } else {
      var init := table[..|table| - 1];
      assert init[..k] == table[..k];
      FoldFails(init, destination, k);
    }
  }

  lemma ExtendPath(states: seq<State>, steps: seq<Step>, step: Step, t: State)
    returns (longer: seq<State>, more: seq<Step>)
    requires IsPath(states, steps) && Next(states[|steps|], step, t)
    ensures IsPath(longer, more) && longer == states + [t] && more == steps + [step]
    ensures longer[0] == states[0] && longer[|more|] == t
    ensures longer[|more| - 1] == states[|steps|] && more[|more| - 1] == step
  {
    longer, more := states + [t], steps + [step];
  }

  // ----- The drain that fails -----

  function AfterDrainFails(s: State, errno: int): State {
    Heard(s, ReceiveError(errno)).(pc := Idle)
  }

  const NO_CALL := Call(None, 0, [], [])

  const DEMO: Ipv6Addr := [0xff, 0x3e, 0, 0, 0, 0, 0, 0, 0, 0, 0, 0, 0x80, 0, 0x12, 0x34]

  /** A receive error keeps coherence in every coherent situation exactly when the drain has not yet
      consumed an invalidation. */
  lemma DrainFailureKeepsInvIff(destination: Ipv6Addr, invalidated: bool, errno: int)
    ensures (forall s: State :: Inv(s) && s.pc == Draining(destination, invalidated) ==> Inv(AfterDrainFails(s, errno)))
            <==> !invalidated
  {
    if invalidated {
      var pc, cached := Draining(destination, true), Some(Entry(DEMO, 2));
      var s := State([], 0, [], false, 0, Resting, [], cached, pc, [[]], NO_CALL);
      assert BestRoute([], DEMO) == Err(Os(ENETUNREACH));
      assert Inv(s) && !Inv(AfterDrainFails(s, errno));
    }
  }

  function DefaultRoute(interface: u32): Route {
    Route(AF_INET6, 0, 0, 0, 254, 0, 0, RTN_UNICAST, 0, [Attribute(0, Oif(interface))])
  }

  lemma DefaultRouteIsBest(interface: u32, destination: Ipv6Addr)
    requires interface != 0
    ensures BestRoute([DefaultRoute(interface)], destination) == Ok(interface)
  {
    var route := DefaultRoute(interface);
    var a := route.attributes;
    assert a[..0] == [];
    assert LastOf(a, RTA_OIF) == Some(Oif(interface)) && LastOf(a, RTA_MULTIPATH) == None;
    assert LastOf(a, RTA_TABLE) == LastOf(a, RTA_DST) == LastOf(a, RTA_PRIORITY) == None;
    assert !NamesInterfaceZero(a);
    assert destination[..0] == UNSPECIFIED[..0];
    assert RouteMeaning(route, destination) == Ok(Some(Candidate(0, 0, Interface(interface))));
    assert FoldRoutes([route][..0], destination) == Ok(None) by {
      assert [route][..0] == [];
    }
  }

  /** From any idle state with an entry for DEMO, the table may lose its routes and the next call may read the
      notice and then fail. */
  lemma DrainReadsNoticeAndFails(before: seq<State>, beforeSteps: seq<Step>, notice: seq<byte>)
    returns (states: seq<State>, steps: seq<Step>)
    requires IsPath(before, beforeSteps) && OpensWithRouteChange(notice)
    requires var s := before[|beforeSteps|]; s.pc.Idle? && !s.overrun && s.queue == []
    ensures IsPath(states, steps) && states[0] == before[0]
    ensures var s, t := before[|beforeSteps|], states[|steps|];
            t.pc.Idle? && !t.overrun && t.queue == [] && t.table == [] && t.cached == s.cached
  {
    ChangeSurvivesTruncation(notice);
    var changed := Change(before[|beforeSteps|], []).(queue := [notice]);
    states, steps := ExtendPath(before, beforeSteps, ChangeTable([], notice), changed);
    var call := Call(changed.cached, changed.requests, [], []);
    var draining := changed.(pc := Draining(DEMO, false), seen := [[]], call := call);
    states, steps := ExtendPath(states, steps, Begin(DEMO), draining);
    var consumed := Heard(draining, Notification(notice)).(queue := [], pc := Draining(DEMO, true));
    states, steps := ExtendPath(states, steps, ReceiveNotice, consumed);
    states, steps := ExtendPath(states, steps, DrainFails(5), AfterDrainFails(consumed, 5));
  }

  /** A reachable run in which a receive error after a consumed invalidation leaves a stale entry behind
      with nothing pending: a first call caches the default route, the table loses it, the drain of the next
      call reads the notice and then fails. */
  lemma FailedDrainLosesInvalidation(notice: seq<byte>) returns (states: seq<State>, steps: seq<Step>)
    requires OpensWithRouteChange(notice)
    ensures IsRun(states, steps)
    ensures var last := states[|states| - 1];
            last.pc.Idle? && !Pending(last) && last.cached.Some?
            && BestRoute(last.table, last.cached.value.destination) != Ok(last.cached.value.interface)
  {
    var start := State([DefaultRoute(2)], 0, [], false, 0, Resting, [], None, Idle, [], NO_CALL);
    DefaultRouteIsBest(2, DEMO);
    states, steps := UndisturbedCall(start, DEMO);
    states, steps := DrainReadsNoticeAndFails(states, steps, notice);
    assert BestRoute([], DEMO) == Err(Os(ENETUNREACH));
  }

  // ----- The dump that is not marked -----

  /** A default route of some priority. */
  function WeightedRoute(interface: u32, priority: u32): Route {
    Route(AF_INET6, 0, 0, 0, 254, 0, 0, RTN_UNICAST, 0,
          [Attribute(0, Oif(interface)), Attribute(0, Priority(priority))])
  }

  lemma WeightedRouteMeans(interface: u32, priority: u32)
    requires interface != 0
    ensures RouteMeaning(WeightedRoute(interface, priority), DEMO)
            == Ok(Some(Candidate(0, priority, Interface(interface))))
  {
    var a := WeightedRoute(interface, priority).attributes;
    var first := a[..1];
    assert first[..0] == [] && a[..|a| - 1] == first;
    assert LastOf(first, RTA_OIF) == Some(Oif(interface)) && LastOf(first, RTA_MULTIPATH) == None;
    assert LastOf(first, RTA_TABLE) == None && LastOf(first, RTA_DST) == None;
    assert LastOf(a, RTA_OIF) == Some(Oif(interface)) && LastOf(a, RTA_MULTIPATH) == None;
    assert LastOf(a, RTA_TABLE) == None && LastOf(a, RTA_DST) == None;
    assert LastOf(a, RTA_PRIORITY) == Some(Priority(priority));
    assert !NamesInterfaceZero(a);
    assert DEMO[..0] == UNSPECIFIED[..0];
  }

  /** Of two default routes the one of lower priority value is best, the first of two equal ones. */
  lemma BestOfTwo(i: u32, p: u32, j: u32, q: u32)
    requires i != 0 && j != 0
    ensures BestRoute([WeightedRoute(i, p), WeightedRoute(j, q)], DEMO) == Ok(if q < p then j else i)
  {
    WeightedRouteMeans(i, p);
    WeightedRouteMeans(j, q);
    var a, b := WeightedRoute(i, p), WeightedRoute(j, q);
    assert [a, b][..1] == [a] && [a][..0] == [];
    assert FoldRoutes([a], DEMO) == Ok(Some(Candidate(0, p, Interface(i))));
  }

  function Before(): Table {
    [WeightedRoute(2, 10), WeightedRoute(3, 0)]
  }

  function After(): Table {
    [WeightedRoute(4, 0), WeightedRoute(5, 20)]
  }

  /** An orderly path on which every dump message, marked or not, is that of the table current when it is sent. */
  ghost predicate SendsCurrent(states: seq<State>, steps: seq<Step>) {
    && IsPath(states, steps)
    && forall i :: 0 <= i < |steps| ==>
         && !LosesInvalidation(states[i], steps[i]) && Recognisable(states[i], steps[i])
         && (steps[i].Emit? && states[i].kernel.Sending? ==>
               Says(steps[i].message, states[i].table, states[i].kernel.sent, steps[i].message.sequence))
  }

  lemma ExtendCurrent(states: seq<State>, steps: seq<Step>, step: Step, t: State)
    returns (longer: seq<State>, more: seq<Step>)
    requires SendsCurrent(states, steps)
    requires var s := states[|steps|];
             && Next(s, step, t) && !LosesInvalidation(s, step) && Recognisable(s, step)
             && (step.Emit? && s.kernel.Sending? ==>
                   Says(step.message, s.table, s.kernel.sent, step.message.sequence))
    ensures SendsCurrent(longer, more) && longer == states + [t] && more == steps + [step]
    ensures longer[0] == states[0] && longer[|more|] == t
  {
    longer, more := states + [t], steps + [step];
  }

  /** A call for DEMO has asked for a dump of the first table. */
  function Asked(): State {
    State(Before(), 0, [], false, 1, Sending(1, 0, 0), [], None, Dumping(DEMO, None, 0, Before(), 0), [Before()],
          Call(None, 0, [WouldBlock], []))
  }

  lemma AskForDump() returns (states: seq<State>, steps: seq<Step>)
    ensures SendsCurrent(states, steps) && Init(states[0]) && states[|steps|] == Asked()
  {
    var start := State(Before(), 0, [], false, 0, Resting, [], None, Idle, [], NO_CALL);
    states, steps := [start], [];
    var draining := start.(pc := Draining(DEMO, false), seen := [Before()], call := Call(None, 0, [], []));
    states, steps := ExtendCurrent(states, steps, Begin(DEMO), draining);
    var checking := draining.(pc := Checking(DEMO), call := Call(None, 0, [WouldBlock], []));
    assert [] + [WouldBlock] == [WouldBlock];
    states, steps := ExtendCurrent(states, steps, QueueEmpty, checking);
    states, steps := ExtendCurrent(states, steps, RequestDump(None), Asked());
  }

  /** The first message is sent, the table changes, and the rest is sent from the second table. */
  function Mixed(): seq<Message> {
    [Message(0, 1, 0, NewRoute(WeightedRoute(2, 10))), Message(0, 1, 0, NewRoute(WeightedRoute(5, 20))),
     Message(0, 1, 0, DoneBare)]
  }

  function Waiting(from: nat): (r: seq<Reply>)
    requires from <= 3
    ensures |r| == 3 - from && forall i :: 0 <= i < |r| ==> r[i] == Reply(1, Mixed()[from + i])
  {
    seq(3 - from, i requires 0 <= i < 3 - from => Reply(1, Mixed()[from + i]))
  }

  /** The whole dump waits. */
  function Sent(notice: seq<byte>): State {
    Asked().(table := After(), generation := 1, queue := [notice], seen := [Before(), After()],
             kernel := Resting, replies := Waiting(0))
  }

  /** After the first message and the change. */
  function Changed(notice: seq<byte>): State {
    Asked().(table := After(), generation := 1, queue := [notice], seen := [Before(), After()],
             kernel := Sending(1, 0, 1), replies := [Reply(1, Mixed()[0])])
  }

  lemma SendFirst(before: seq<State>, beforeSteps: seq<Step>, notice: seq<byte>)
    returns (states: seq<State>, steps: seq<Step>)
    requires SendsCurrent(before, beforeSteps) && before[|beforeSteps|] == Asked() && OpensWithRouteChange(notice)
    ensures SendsCurrent(states, steps) && states[0] == before[0] && states[|steps|] == Changed(notice)
  {
    var m := Mixed()[0];
    var first := Asked().(replies := [Reply(1, m)], kernel := Sending(1, 0, 1));
    assert [] + [Reply(1, m)] == first.replies;
    states, steps := ExtendCurrent(before, beforeSteps, Emit(m), first);
    assert [] + [notice] == [notice] && [Before()] + [After()] == [Before(), After()];
    states, steps := ExtendCurrent(states, steps, ChangeTable(After(), notice), Changed(notice));
  }

  lemma SendMixed(before: seq<State>, beforeSteps: seq<Step>, notice: seq<byte>)
    returns (states: seq<State>, steps: seq<Step>)
    requires SendsCurrent(before, beforeSteps) && before[|beforeSteps|] == Asked() && OpensWithRouteChange(notice)
    ensures SendsCurrent(states, steps) && states[0] == before[0] && states[|steps|] == Sent(notice)
  {
    states, steps := SendFirst(before, beforeSteps, notice);
    var m := Mixed();
    var second := Changed(notice).(replies := [Reply(1, m[0]), Reply(1, m[1])], kernel := Sending(1, 0, 2));
    assert [Reply(1, m[0])] + [Reply(1, m[1])] == second.replies;
    states, steps := ExtendCurrent(states, steps, Emit(m[1]), second);
    assert second.replies + [Reply(1, m[2])] == Waiting(0);
    states, steps := ExtendCurrent(states, steps, Emit(m[2]), Sent(notice));
  }

  /** After `k` of the three messages have been taken. */
  function Taken(notice: seq<byte>, k: nat, pc: Pc): State
    requires k <= 3
  {
    Sent(notice).(replies := Waiting(k), pc := pc, call := Call(None, 0, [WouldBlock], Mixed()[..k]))
  }

  function MidDump(k: nat): Pc {
    Dumping(DEMO, if k == 0 then None else Some(Candidate(0, 10, Interface(2))), 0, Before(), k)
  }

  lemma ReceivesRoute(notice: seq<byte>, k: nat)
    requires k < 2
    ensures var s := Taken(notice, k, MidDump(k));
            Received(s) == More(Some(Candidate(0, 10, Interface(2))))
  {
    WeightedRouteMeans(2, 10);
    WeightedRouteMeans(5, 20);
    assert Waiting(k)[0] == Reply(1, Mixed()[k]);
  }

  lemma TakeRoute(before: seq<State>, beforeSteps: seq<Step>, notice: seq<byte>, k: nat)
    returns (states: seq<State>, steps: seq<Step>)
    requires k < 2 && SendsCurrent(before, beforeSteps) && before[|beforeSteps|] == Taken(notice, k, MidDump(k))
    ensures SendsCurrent(states, steps) && states[0] == before[0]
    ensures states[|steps|] == Taken(notice, k + 1, MidDump(k + 1))
  {
    var s, t := Taken(notice, k, MidDump(k)), Taken(notice, k + 1, MidDump(k + 1));
    assert Next(s, ReceiveReply(0), t) by {
      ReceivesRoute(notice, k);
      assert Waiting(k)[1..] == Waiting(k + 1) && Mixed()[..k] + [Mixed()[k]] == Mixed()[..k + 1];
    }
    states, steps := ExtendCurrent(before, beforeSteps, ReceiveReply(0), t);
  }

  lemma TakeEnd(before: seq<State>, beforeSteps: seq<Step>, notice: seq<byte>)
    returns (states: seq<State>, steps: seq<Step>)
    requires SendsCurrent(before, beforeSteps) && before[|beforeSteps|] == Taken(notice, 2, MidDump(2))
    ensures SendsCurrent(states, steps) && states[0] == before[0] && |steps| > 0
    ensures states[|steps|] == Taken(notice, 3, Opening(DEMO, 2))
  {
    assert Waiting(2)[1..][0..] == Waiting(3) && Mixed()[..2] + [Mixed()[2]] == Mixed()[..3];
    states, steps := ExtendCurrent(before, beforeSteps, ReceiveReply(0), Taken(notice, 3, Collected(DEMO, Ok(2))));
    states, steps := ExtendCurrent(states, steps, Answer, Taken(notice, 3, Opening(DEMO, 2)));
  }

  /** Why answers need the marks: an orderly run in which every dump message is that of the table current when
      it is sent, unmarked, the table changes once in the middle of the dump, and the call returns an interface
      that is the best route of no table seen during it. */
  lemma UnmarkedDumpMisleads(notice: seq<byte>) returns (states: seq<State>, steps: seq<Step>, n: nat)
    requires OpensWithRouteChange(notice)
    ensures IsRun(states, steps) && IsOrderly(states, steps) && SendsCurrent(states, steps) && n < |steps|
    ensures Returned(states[n], steps[n]) == Some(Entry(DEMO, 2))
    ensures forall table :: table in states[n].seen ==> BestRoute(table, DEMO).Ok? && BestRoute(table, DEMO) != Ok(2)
  {
    states, steps := AskForDump();
    states, steps := SendMixed(states, steps, notice);
    assert Mixed()[..0] == [];
    states, steps := TakeRoute(states, steps, notice, 0);
    states, steps := TakeRoute(states, steps, notice, 1);
    states, steps := TakeEnd(states, steps, notice);
    n := |steps|;
    var last := Taken(notice, 3, Opening(DEMO, 2));
    states, steps := ExtendCurrent(states, steps, Store, last.(cached := Some(Entry(DEMO, 2)), pc := Idle));
    BestOfTwo(2, 10, 3, 0);
    BestOfTwo(4, 0, 5, 20);
  }
}
