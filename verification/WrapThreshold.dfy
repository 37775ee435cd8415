/** How many write sections one read of a publication's counters may span: the sequence value wraps, and the
    exact threshold is 2^63. */
module WrapThreshold {
  import opened Base
  import opened SequenceLock
  import opened Metrics

  const HALF: nat := 0x8000_0000_0000_0000

  /** A state that some run of publication records reaches. */
  ghost predicate Reachable(s: State) {
    exists states: seq<State>, steps: seq<Step> :: EndsIn(states, steps, s)
  }

  ghost predicate EndsIn(states: seq<State>, steps: seq<Step>, s: State) {
    IsRecordRun(OfPublication, states, steps) && states[|steps|] == s
  }

  lemma ReachableNext(s: State, step: Step, s': State)
    requires Reachable(s) && Next(s, step, s') && (step.StartWrite? ==> IsRecord(OfPublication, step.adds))
    ensures Reachable(s')
  {
    var states: seq<State>, steps: seq<Step> :| EndsIn(states, steps, s);
    assert EndsIn(states + [s'], steps + [step], s');
  }

  // ----- The witness: thread 0 keeps sending empty payloads, thread 1 reads -----

  /** `sections` sends are recorded; the reader began before all of them and has loaded the call counter. */
  function MidRead(sections: nat): State {
    State(Wrap(2 * sections), [Wrap(sections), Wrap(sections), 0, 0], map[0 := Quiet, 1 := Reading(0, 0, [0])],
          2 * sections, [sections, sections, 0, 0], None)
  }

  function Success(): seq<Add> {
    RecordSuccess(OfPublication, 0)
  }

  /** The guard of a new section is live, with nothing added yet. */
  function Entered(sections: nat): State {
    Set(MidRead(sections), 0, Writing(Success())).(
      value := Wrap(2 * sections + 1), version := 2 * sections + 1, holder := Some(0))
  }

  /** All three counters of the section have been bumped. */
  function Added(sections: nat): State {
    Set(Entered(sections), 0, Writing([])).(
      counters := [Wrap(sections + 1), Wrap(sections + 1), 0, 0], totals := [sections + 1, sections + 1, 0, 0])
  }

  lemma Contend(sections: nat)
    requires Reachable(MidRead(sections))
    ensures Reachable(Set(MidRead(sections), 0, Contending(Success(), Wrap(2 * sections))))
  {
    var m := MidRead(sections);
    var wants := Set(m, 0, WantsWrite(Success()));
    ReachableNext(m, StartWrite(0, Success()), wants);
    var contending := Set(m, 0, Contending(Success(), m.value));
    assert contending.threads == Set(wants, 0, Contending(Success(), m.value)).threads;
    ReachableNext(wants, LoadValue(0), contending);
  }

  lemma EvenVersion(sections: nat)
    ensures Wrap(2 * sections) % 2 == 0 && Wrap(Wrap(2 * sections) + 1) == Wrap(2 * sections + 1)
  {
    var version := 2 * sections;
    WrapAdd(version, 1);
    WrapParity(version);
  }

  /** Any quiet moment of the witness: the exchange takes the guard. */
  lemma TakeGuard(s: State, value: u64, next: u64, version: nat, adds: seq<Add>, s': State)
    requires s.threads == map[0 := Contending(adds, value), 1 := Reading(0, 0, [0])]
    requires s.value == value && value % 2 == 0 && next == Wrap(value + 1) && s.version == version
    requires s' == s.(value := next, version := version + 1, holder := Some(0), threads := s'.threads)
    requires s'.threads == map[0 := Writing(adds), 1 := Reading(0, 0, [0])]
    ensures Next(s, CasSucceeds(0), s')
  {
    assert s'.threads == s.threads[0 := Writing(adds)];
  }

  lemma EnterSection(sections: nat)
    requires Reachable(MidRead(sections))
    ensures Reachable(Entered(sections))
  {
    Contend(sections);
    var value := Wrap(2 * sections);
    var contending, entered := Set(MidRead(sections), 0, Contending(Success(), value)), Entered(sections);
    EvenVersion(sections);
    assert contending.threads == map[0 := Contending(Success(), value), 1 := Reading(0, 0, [0])];
    assert entered.threads == map[0 := Writing(Success()), 1 := Reading(0, 0, [0])];
    TakeGuard(contending, value, Wrap(2 * sections + 1), 2 * sections, Success(), entered);
    ReachableNext(contending, CasSucceeds(0), entered);
  }

  /** After the call counter of the section has been bumped. */
  function CallAdded(sections: nat): State {
    Set(Entered(sections), 0, Writing([Add(1, 1), Add(2, 0)])).(
      counters := [Wrap(sections + 1), Wrap(sections), 0, 0], totals := [sections + 1, sections, 0, 0])
  }

  function PacketAdded(sections: nat): State {
    Set(CallAdded(sections), 0, Writing([Add(2, 0)])).(
      counters := [Wrap(sections + 1), Wrap(sections + 1), 0, 0], totals := [sections + 1, sections + 1, 0, 0])
  }

  lemma AddCall(sections: nat)
    requires Reachable(Entered(sections))
    ensures Reachable(CallAdded(sections))
  {
    WrapAdd(sections, 1);
    assert Success()[1..] == [Add(1, 1), Add(2, 0)];
    ReachableNext(Entered(sections), AddCounter(0), CallAdded(sections));
  }

  lemma AddPacket(sections: nat)
    requires Reachable(CallAdded(sections))
    ensures Reachable(PacketAdded(sections))
  {
    WrapAdd(sections, 1);
    assert [Add(1, 1), Add(2, 0)][1..] == [Add(2, 0)];
    ReachableNext(CallAdded(sections), AddCounter(0), PacketAdded(sections));
  }

  lemma RecordSection(sections: nat)
    requires Reachable(Entered(sections))
    ensures Reachable(Added(sections))
  {
    AddCall(sections);
    AddPacket(sections);
    assert [Add(2, 0)][1..] == [];
    assert Added(sections).threads == Set(PacketAdded(sections), 0, Writing([])).threads;
    ReachableNext(PacketAdded(sections), AddCounter(0), Added(sections));
  }

  lemma OneMoreSection(sections: nat)
    requires Reachable(MidRead(sections))
    ensures Reachable(MidRead(sections + 1))
  {
    EnterSection(sections);
    RecordSection(sections);
    WrapAdd(2 * sections + 1, 1);
    var done := MidRead(sections + 1);
    assert done.threads == Set(Added(sections), 0, Quiet).threads;
    ReachableNext(Added(sections), DropGuard(0), done);
  }

  function Fresh(): State {
    State(0, [0, 0, 0, 0], map[0 := Quiet, 1 := Quiet], 0, [0, 0, 0, 0], None)
  }

  lemma BeginRead()
    ensures Reachable(Set(Fresh(), 1, Reading(0, 0, [])))
  {
    var start := Fresh();
    assert EndsIn([start], [], start);
    var wants := Set(start, 1, WantsRead);
    ReachableNext(start, StartRead(1), wants);
    var empty := Set(start, 1, Reading(0, 0, []));
    assert empty.threads == Set(wants, 1, Reading(0, 0, [])).threads;
    ReachableNext(wants, LoadBefore(1), empty);
  }

  lemma LoadCalls()
    ensures Reachable(MidRead(0))
  {
    BeginRead();
    var empty := Set(Fresh(), 1, Reading(0, 0, []));
    assert [] + [empty.counters[0]] == [0];
    assert MidRead(0).threads == Set(empty, 1, Reading(0, 0, [0])).threads;
    ReachableNext(empty, LoadCounter(1), MidRead(0));
  }

  lemma {:induction false} ManySections(sections: nat)
    ensures Reachable(MidRead(sections))
    decreases sections
  {
    if sections == 0 {
      LoadCalls();
    } else {
      ManySections(sections - 1);
      OneMoreSection(sections - 1);
    }
  }

  /** The state in which the reader of the witness has loaded everything. */
  function Torn(): State {
    Set(MidRead(HALF), 1, Reading(0, 0, [0, HALF, 0, 0]))
  }

  lemma LoadRest()
    ensures Reachable(Torn())
  {
    ManySections(HALF);
    var m := MidRead(HALF);
    assert [0] + [m.counters[1]] == [0, HALF];
    var two := Set(m, 1, Reading(0, 0, [0, HALF]));
    ReachableNext(m, LoadCounter(1), two);
    assert [0, HALF] + [m.counters[2]] == [0, HALF, 0];
    var three := Set(m, 1, Reading(0, 0, [0, HALF, 0]));
    ReachableNext(two, LoadCounter(1), three);
    assert [0, HALF, 0] + [m.counters[3]] == [0, HALF, 0, 0];
    ReachableNext(three, LoadCounter(1), Torn());
  }

  /** How many write sections complete inside the read attempt that ends with this step. */
  function Spanned(s: State, step: Step): int {
    if step.thread in s.threads && s.threads[step.thread].Reading?
    then (s.version as int - s.threads[step.thread].began as int) / 2 else 0
  }

  /** A run of a publication in which exactly 2^63 successful sends are recorded inside one read, the value
      wraps back to where the read began, and the accepted snapshot shows packets without calls. */
  lemma TornReadAtWrap() returns (states: seq<State>, steps: seq<Step>, n: nat)
    ensures IsRecordRun(OfPublication, states, steps) && n < |steps|
    ensures Accepted(states[n], steps[n]).Some? && Spanned(states[n], steps[n]) == HALF
    ensures !Balanced(OfPublication, Accepted(states[n], steps[n]).value)
    ensures Accepted(states[n], steps[n]).value != states[n].counters
  {
    LoadRest();
    states, steps :| EndsIn(states, steps, Torn());
    n := |steps|;
    var end := Set(Torn(), 1, Quiet);
    assert Next(Torn(), LoadAfter(1), end);
    states, steps := states + [end], steps + [LoadAfter(1)];
    assert states[n] == Torn() && steps[n] == LoadAfter(1);
  }

  // ----- The threshold -----

  /** Every accepted read that spans at most `k` write sections returns the counters of one instant. */
  ghost predicate ConsistentUpTo(k: nat) {
    forall states: seq<State>, steps: seq<Step>, n: nat ::
      IsRecordRun(OfPublication, states, steps) && n < |steps| && Accepted(states[n], steps[n]).Some?
      && Spanned(states[n], steps[n]) <= k ==>
        Accepted(states[n], steps[n]).value == states[n].counters
  }

  /** Reads are consistent up to `k` sections if and only if `k` is below 2^63. */
  lemma ThresholdIsExact(k: nat)
    ensures ConsistentUpTo(k) <==> k < HALF
  {
    if k < HALF {
      forall states: seq<State>, steps: seq<Step>, n: nat |
        IsRecordRun(OfPublication, states, steps) && n < |steps| && Accepted(states[n], steps[n]).Some?
        && Spanned(states[n], steps[n]) <= k
        ensures Accepted(states[n], steps[n]).value == states[n].counters
      {
        SnapshotIsConsistent(states, steps, n);
      }
    } else {
      var states, steps, n := TornReadAtWrap();
      assert Spanned(states[n], steps[n]) <= k;
    }
  }
}
