/** The counters of a publication and of a context under their sequence locks, the snapshots read from
    them, and the samplers that turn snapshots into deltas. */
module Metrics {
  import opened Base
  import opened SequenceLock

  // ----- Counters -----

  const PUBLICATIONS_ADDED := 0
  const PUBLICATIONS_REMOVED := 1

  /** Which counters a lock guards: the four of a publication, or the six of a context. */
  datatype Layout = OfPublication | OfContext {
    function Width(): nat { if OfPublication? then 4 else 6 }
    function Calls(): nat { if OfPublication? then 0 else 2 }
    function Packets(): nat { if OfPublication? then 1 else 3 }
    function Bytes(): nat { if OfPublication? then 2 else 4 }
    function Errors(): nat { if OfPublication? then 3 else 5 }
  }

  function RecordSuccess(l: Layout, bytes: nat): seq<Add> {
    [Add(l.Calls(), 1), Add(l.Packets(), 1), Add(l.Bytes(), bytes)]
  }

  function RecordError(l: Layout): seq<Add> {
    [Add(l.Calls(), 1), Add(l.Errors(), 1)]
  }

  /** One send, or, in a context, one publication that comes or goes. */
  ghost predicate IsRecord(l: Layout, adds: seq<Add>) {
    || adds == RecordError(l)
    || (exists bytes: nat :: adds == RecordSuccess(l, bytes))
    || (l.OfContext? && (adds == [Add(PUBLICATIONS_ADDED, 1)] || adds == [Add(PUBLICATIONS_REMOVED, 1)]))
  }

  /** Calls minus outcomes, over pending additions and over totals. */
  function Balance(l: Layout, adds: seq<Add>): int {
    if adds == [] then 0 else Weight(l, adds[0]) + Balance(l, adds[1..])
  }

  function Weight(l: Layout, a: Add): int {
    if a.index == l.Calls() then a.amount as int
    else if a.index == l.Packets() || a.index == l.Errors() then -(a.amount as int)
    else 0
  }

  function Skew(l: Layout, totals: seq<nat>): int
    requires |totals| == l.Width()
  {
    totals[l.Calls()] as int - totals[l.Packets()] as int - totals[l.Errors()] as int
  }

  lemma RecordsBalance(l: Layout, adds: seq<Add>)
    requires IsRecord(l, adds)
    ensures Balance(l, adds) == 0
  {
    if adds == RecordError(l) {
      assert adds[1..] == [Add(l.Errors(), 1)] && adds[1..][1..] == [];
      assert Balance(l, adds[1..][1..]) == 0;
    } else if |adds| == 3 {
      var bytes: nat :| adds == RecordSuccess(l, bytes);
      assert adds[1..] == [Add(l.Packets(), 1), Add(l.Bytes(), bytes)];
      assert adds[1..][1..] == [Add(l.Bytes(), bytes)] && adds[1..][1..][1..] == [];
      assert Balance(l, adds[1..][1..]) == 0 && Balance(l, adds[1..]) == -1;
    } else {
      assert adds[1..] == [];
      assert Balance(l, adds[1..]) == 0;
    }
  }

  /** A run in which every write section makes one record. */
  ghost predicate IsRecordRun(l: Layout, states: seq<State>, steps: seq<Step>) {
    && IsRun(states, steps)
    && |states[0].counters| == l.Width()
    && forall i :: 0 <= i < |steps| && steps[i].StartWrite? ==> IsRecord(l, steps[i].adds)
  }

  ghost predicate Ledger(l: Layout, s: State) {
    && |s.counters| == |s.totals| == l.Width()
    && (forall t :: t in s.threads && s.threads[t].WantsWrite? ==> IsRecord(l, s.threads[t].adds))
    && (forall t :: t in s.threads && s.threads[t].Contending? ==> IsRecord(l, s.threads[t].adds))
    && (s.holder.Some? ==>
          && s.holder.value in s.threads && s.threads[s.holder.value].Writing?
          && Skew(l, s.totals) + Balance(l, s.threads[s.holder.value].rest) == 0)
    && (s.holder.None? ==> Skew(l, s.totals) == 0)
  }

  lemma StepKeepsLedger(l: Layout, s: State, step: Step, s': State)
    requires Inv(s) && Ledger(l, s) && Next(s, step, s')
    requires step.StartWrite? ==> IsRecord(l, step.adds)
    ensures Ledger(l, s')
  {
    assert ThreadOk(s, step.thread, s.threads[step.thread]);
    if step.CasSucceeds? {
      WrapParity(s.version);
      RecordsBalance(l, s.threads[step.thread].adds);
    } else if step.AddCounter? {
      AddKeepsLedger(l, s, step, s');
    }
  }

  lemma AddKeepsLedger(l: Layout, s: State, step: Step, s': State)
    requires Inv(s) && Ledger(l, s) && Next(s, step, s') && step.AddCounter?
    ensures Ledger(l, s')
  {
    assert ThreadOk(s, step.thread, s.threads[step.thread]);
    var rest := s.threads[step.thread].rest;
    assert Balance(l, rest) == Weight(l, rest[0]) + Balance(l, rest[1..]);
    assert Skew(l, s'.totals) == Skew(l, s.totals) + Weight(l, rest[0]);
  }

  lemma {:induction false} RunKeepsLedger(l: Layout, states: seq<State>, steps: seq<Step>, n: nat)
    requires IsRecordRun(l, states, steps) && n < |states|
    ensures Ledger(l, states[n])
  {
    if n > 0 {
      RunKeepsLedger(l, states, steps, n - 1);
      RunKeepsInv(states, steps, n - 1);
      StepKeepsLedger(l, states[n - 1], steps[n - 1], states[n]);
    }
  }

  ghost predicate PointwiseLeq(a: seq<nat>, b: seq<nat>) {
    |a| == |b| && forall k :: 0 <= k < |a| ==> a[k] <= b[k]
  }

  lemma {:induction false} TotalsGrow(states: seq<State>, steps: seq<Step>, i: nat, j: nat)
    requires IsRun(states, steps) && i <= j < |states|
    ensures PointwiseLeq(states[i].totals, states[j].totals)
    decreases j
  {
    if i < j {
      TotalsGrow(states, steps, i, j - 1);
      assert Next(states[j - 1], steps[j - 1], states[j]);
    }
  }

  // ----- Snapshots -----

  /** Step `n` returns a snapshot, within the wrap bound of the lock. */
  ghost predicate SnapshotAt(states: seq<State>, steps: seq<Step>, n: int, snapshot: seq<u64>) {
    && |states| == |steps| + 1 && 0 <= n < |steps|
    && Accepted(states[n], steps[n]) == Some(snapshot)
    && WithinWrapBound(states[n], steps[n])
  }

  ghost predicate NoCounterOverflow(s: State) {
    forall k :: 0 <= k < |s.totals| ==> s.totals[k] < U64_MODULUS
  }

  lemma SnapshotIsTotals(states: seq<State>, steps: seq<Step>, n: nat, snapshot: seq<u64>)
    requires IsRun(states, steps) && SnapshotAt(states, steps, n, snapshot)
    ensures |snapshot| == |states[n].totals|
    ensures forall k :: 0 <= k < |snapshot| ==> snapshot[k] == Wrap(states[n].totals[k])
    ensures NoCounterOverflow(states[n]) ==> snapshot == states[n].totals
  {
    SnapshotIsConsistent(states, steps, n);
    RunKeepsInv(states, steps, n);
  }

  /** send_calls = packets_sent + send_errors. */
  predicate Balanced(l: Layout, counters: seq<nat>) {
    |counters| == l.Width() && counters[l.Calls()] == counters[l.Packets()] + counters[l.Errors()]
  }

  /** Every snapshot has send_calls = packets_sent + send_errors: modulo 2^64 always, and exactly while the
      call counter has not wrapped. */
  lemma SnapshotBalances(l: Layout, states: seq<State>, steps: seq<Step>, n: nat, snapshot: seq<u64>)
    requires IsRecordRun(l, states, steps) && SnapshotAt(states, steps, n, snapshot)
    ensures |snapshot| == l.Width()
    ensures snapshot[l.Calls()] == Wrap(snapshot[l.Packets()] as int + snapshot[l.Errors()] as int)
    ensures |states[n].totals| == l.Width()
    ensures states[n].totals[l.Calls()] < U64_MODULUS ==> Balanced(l, snapshot)
  {
    var s := states[n];
    SnapshotIsTotals(states, steps, n, snapshot);
    SnapshotIsConsistent(states, steps, n);
    RunKeepsLedger(l, states, steps, n);
    WrapSum(s.totals[l.Packets()], s.totals[l.Errors()]);
  }

  lemma WrapSum(a: nat, b: nat)
    ensures Wrap(a + b) == Wrap(Wrap(a) as int + Wrap(b) as int)
    ensures a + b < U64_MODULUS ==> Wrap(a) == a && Wrap(b) == b
  {
    WrapAdd(a, Wrap(b));
    WrapAdd(b, a);
  }

  /** A snapshot returned later is pointwise no smaller. */
  lemma SnapshotsAreMonotone(
    states: seq<State>, steps: seq<Step>, i: nat, j: nat, earlier: seq<u64>, later: seq<u64>)
    requires IsRun(states, steps) && i <= j
    requires SnapshotAt(states, steps, i, earlier) && SnapshotAt(states, steps, j, later)
    requires NoCounterOverflow(states[j])
    ensures PointwiseLeq(earlier, later)
  {
    TotalsGrow(states, steps, i, j);
    SnapshotIsTotals(states, steps, i, earlier);
    SnapshotIsTotals(states, steps, j, later);
  }

  // ----- Deltas and samplers -----

  /** Cumulative counters, in the order the snapshot type lists them, and a wall-clock time. */
  datatype Snapshot = Snapshot(counters: seq<u64>, capturedAt: nat)

  datatype Delta = Delta(interval: nat, counters: seq<nat>)

  /** None exactly when some counter moved backwards. */
  function DeltaSinceDuration(current: seq<u64>, earlier: seq<u64>, interval: nat): Option<Delta>
    requires |current| == |earlier|
  {
    if exists k :: 0 <= k < |current| && current[k] < earlier[k] then None
    else Some(Delta(interval, seq(|current|, k requires 0 <= k < |current| => current[k] - earlier[k])))
  }

  datatype SamplerState = SamplerState(previous: Option<Snapshot>, sampledAt: Option<nat>)

  function DeltaAt(p: SamplerState, current: Snapshot, at: nat): Option<Delta>
    requires p.previous.Some? ==> |p.previous.value.counters| == |current.counters|
  {
    if p.previous.Some? && p.sampledAt.Some? && p.sampledAt.value <= at then
      DeltaSinceDuration(current.counters, p.previous.value.counters, at - p.sampledAt.value)
    else None
  }

  /** Both samplers: they differ only in which counters their snapshots list. */
  class MetricsSampler {
    const width: nat
    var previous: Option<Snapshot>
    var previousSampledAt: Option<nat>

    ghost predicate Valid()
      reads this
    {
      previous.Some? ==> |previous.value.counters| == width
    }

    function State(): SamplerState
      reads this
    {
      SamplerState(previous, previousSampledAt)
    }

    constructor (width: nat)
      ensures Valid() && this.width == width && State() == SamplerState(None, None)
    {
      this.width := width;
      previous := None;
      previousSampledAt := None;
    }

    method SampleSnapshotAt(current: Snapshot, sampledAt: nat) returns (delta: Option<Delta>)
      requires Valid() && |current.counters| == width
      modifies this
      ensures Valid()
      ensures delta == DeltaAt(old(State()), current, sampledAt)
      ensures State() == SamplerState(Some(current), Some(sampledAt))
    {
      delta := None;
      if previous.Some? && previousSampledAt.Some? && previousSampledAt.value <= sampledAt {
        delta := DeltaSinceDuration(
          current.counters, previous.value.counters, sampledAt - previousSampledAt.value);
      }
      previous := Some(current);
      previousSampledAt := Some(sampledAt);
    }

    /** The wall-clock variant compares capture times and clears the monotonic baseline. */
    method SampleSnapshot(current: Snapshot) returns (delta: Option<Delta>)
      requires Valid() && |current.counters| == width
      modifies this
      ensures Valid()
      ensures delta.Some? <==>
                && old(previous).Some?
                && old(previous).value.capturedAt <= current.capturedAt
                && forall k :: 0 <= k < width ==> old(previous).value.counters[k] <= current.counters[k]
      ensures delta.Some? ==>
                delta == DeltaSinceDuration(current.counters, old(previous).value.counters,
                                            current.capturedAt - old(previous).value.capturedAt)
      ensures State() == SamplerState(Some(current), None)
    {
      delta := None;
      if previous.Some? && previous.value.capturedAt <= current.capturedAt {
        delta := DeltaSinceDuration(
          current.counters, previous.value.counters, current.capturedAt - previous.value.capturedAt);
      }
      previous := Some(current);
      previousSampledAt := None;
    }

    method Reset()
      modifies this
      ensures Valid() && State() == SamplerState(None, None)
    {
      previous := None;
      previousSampledAt := None;
    }
  }

  /** One supplied snapshot and its monotonic instant. */
  datatype Sample = Sample(snapshot: Snapshot, at: nat)

  ghost predicate SameWidth(samples: seq<Sample>, width: nat) {
    forall i :: 0 <= i < |samples| ==> |samples[i].snapshot.counters| == width
  }

  /** The deltas of successive `SampleSnapshotAt` calls on a fresh sampler. */
  function Deltas(samples: seq<Sample>, width: nat): (ds: seq<Option<Delta>>)
    requires SameWidth(samples, width)
    ensures |ds| == |samples|
  {
    if samples == [] then []
    else
      var init, last := samples[..|samples| - 1], samples[|samples| - 1];
      Deltas(init, width) + [DeltaAt(After(init), last.snapshot, last.at)]
  }

  function After(samples: seq<Sample>): SamplerState {
    if samples == [] then SamplerState(None, None)
    else SamplerState(Some(samples[|samples| - 1].snapshot), Some(samples[|samples| - 1].at))
  }

  function SumCounter(ds: seq<Option<Delta>>, k: nat): nat {
    if ds == [] then 0
    else
      SumCounter(ds[..|ds| - 1], k) + AmountIn(ds[|ds| - 1], k)
  }

  function AmountIn(d: Option<Delta>, k: nat): nat {
    if d.Some? && k < |d.value.counters| then d.value.counters[k] else 0
  }

  function SumInterval(ds: seq<Option<Delta>>): nat {
    if ds == [] then 0
    else
      var d := ds[|ds| - 1];
      SumInterval(ds[..|ds| - 1]) + if d.Some? then d.value.interval else 0
  }

  ghost predicate Ascending(samples: seq<Sample>) {
    forall i, j :: 0 <= i <= j < |samples| ==>
      samples[i].at <= samples[j].at && PointwiseLeq(samples[i].snapshot.counters, samples[j].snapshot.counters)
  }

  /** Over any ascending run of samples no delta after the first is lost, and the deltas add up to the
      difference between the last and the first snapshot. */
  lemma {:induction false} DeltasTelescope(samples: seq<Sample>, width: nat, k: nat)
    requires samples != [] && SameWidth(samples, width) && Ascending(samples) && k < width
    ensures var ds := Deltas(samples, width);
            var first, last := samples[0], samples[|samples| - 1];
            && ds[0] == None
            && (forall i :: 0 < i < |ds| ==> ds[i].Some?)
            && SumCounter(ds, k) == last.snapshot.counters[k] - first.snapshot.counters[k]
            && SumInterval(ds) == last.at - first.at
    decreases |samples|
  {
    var init := samples[..|samples| - 1];
    var ds, before := Deltas(samples, width), Deltas(init, width);
    assert ds[..|ds| - 1] == before;
    assert SumCounter(ds, k) == SumCounter(before, k) + AmountIn(ds[|ds| - 1], k);
    if init != [] {
      DeltasTelescope(init, width, k);
      LastDelta(samples, width, k);
      assert forall i :: 0 <= i < |before| ==> ds[i] == before[i];
    }
  }

  /** The last of at least two ascending samples yields the delta against the one before. */
  lemma LastDelta(samples: seq<Sample>, width: nat, k: nat)
    requires |samples| >= 2 && SameWidth(samples, width) && Ascending(samples) && k < width
    ensures var before, last := samples[|samples| - 2], samples[|samples| - 1];
            var d := Deltas(samples, width)[|samples| - 1];
            && d.Some? && d.value.interval == last.at - before.at
            && AmountIn(d, k) == last.snapshot.counters[k] - before.snapshot.counters[k]
  {
    var init := samples[..|samples| - 1];
    assert init[|init| - 1] == samples[|samples| - 2];
    assert PointwiseLeq(samples[|samples| - 2].snapshot.counters, samples[|samples| - 1].snapshot.counters);
  }

  // ----- From the lock to the sampler -----

  /** Sample `i` is the snapshot that the run returns at step `at[i]`. */
  ghost predicate SampledFrom(states: seq<State>, steps: seq<Step>, ns: seq<nat>, samples: seq<Sample>) {
    && |ns| == |samples|
    && (forall i :: 0 <= i < |ns| ==> SnapshotAt(states, steps, ns[i], samples[i].snapshot.counters))
    && (forall i, j :: 0 <= i <= j < |ns| ==> ns[i] <= ns[j] && samples[i].at <= samples[j].at)
  }

  lemma SamplesAreOrdered(l: Layout, states: seq<State>, steps: seq<Step>, ns: seq<nat>, samples: seq<Sample>)
    requires IsRecordRun(l, states, steps) && samples != [] && SampledFrom(states, steps, ns, samples)
    requires NoCounterOverflow(states[ns[|ns| - 1]])
    ensures SameWidth(samples, l.Width()) && Ascending(samples)
    ensures forall i :: 0 <= i < |samples| ==> Balanced(l, samples[i].snapshot.counters)
  {
    forall i | 0 <= i < |samples|
      ensures NoCounterOverflow(states[ns[i]]) && Balanced(l, samples[i].snapshot.counters)
    {
      TotalsGrow(states, steps, ns[i], ns[|ns| - 1]);
      SnapshotBalances(l, states, steps, ns[i], samples[i].snapshot.counters);
    }
    forall i, j | 0 <= i <= j < |samples|
      ensures PointwiseLeq(samples[i].snapshot.counters, samples[j].snapshot.counters)
    {
      SnapshotsAreMonotone(states, steps, ns[i], ns[j], samples[i].snapshot.counters, samples[j].snapshot.counters);
    }
  }

  /** No delta after the first is lost, each accounts every call as one packet or one error, and counter `k`
      of the deltas adds up to last minus first. */
  ghost predicate Conserves(l: Layout, samples: seq<Sample>, k: nat)
    requires samples != [] && SameWidth(samples, l.Width()) && k < l.Width()
  {
    var ds := Deltas(samples, l.Width());
    var first, last := samples[0].snapshot.counters, samples[|samples| - 1].snapshot.counters;
    && ds[0] == None
    && (forall i :: 0 < i < |ds| ==> ds[i].Some? && Balanced(l, ds[i].value.counters))
    && SumCounter(ds, k) == last[k] as int - first[k] as int
  }

  /** Sampling live counters, of a publication or of a context, while any number of threads record: with no
      counter overflow the deltas conserve every counter. */
  lemma SampledRunConserves(
    l: Layout, states: seq<State>, steps: seq<Step>, ns: seq<nat>, samples: seq<Sample>, k: nat)
    requires IsRecordRun(l, states, steps) && samples != [] && SampledFrom(states, steps, ns, samples)
    requires NoCounterOverflow(states[ns[|ns| - 1]]) && k < l.Width()
    ensures SameWidth(samples, l.Width()) && Conserves(l, samples, k)
  {
    SamplesAreOrdered(l, states, steps, ns, samples);
    DeltasTelescope(samples, l.Width(), k);
    forall i | 0 < i < |samples|
      ensures Balanced(l, Deltas(samples, l.Width())[i].value.counters)
    {
      DeltaOfSample(samples, l.Width(), i);
    }
  }

  lemma {:induction false} DeltaOfSample(samples: seq<Sample>, width: nat, i: nat)
    requires SameWidth(samples, width) && i < |samples|
    ensures Deltas(samples, width)[i] == DeltaAt(After(samples[..i]), samples[i].snapshot, samples[i].at)
    decreases |samples|
  {
    var init := samples[..|samples| - 1];
    if i < |init| {
      DeltaOfSample(init, width, i);
      assert init[..i] == samples[..i];
    }
  }
}
