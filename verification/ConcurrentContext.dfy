/** Concurrent sends through one context: each is recorded first under the lock of its publication and then
    under the lock of the context, one atomic addition at a time, while other threads send and read. */
module ConcurrentContext {
  import opened Base
  import opened Metrics
  import Lock = SequenceLock
  import opened ContextLedger

  // ----- The machine -----

  /** What a thread is doing for the context. */
  datatype Task =
    | Resting
    | Publishing(slot: nat, outcome: Outcome)   // recording a send in its publication
    | Between(slot: nat, outcome: Outcome)      // recorded there, not yet begun in the context
    | Recording(slot: nat, outcome: Outcome)    // recording the send in the context
    | Administering                             // recording a publication that comes or goes

  /** A publication the context has, or has had and given away. */
  datatype Slot = Slot(lock: Lock.State, live: bool)

  datatype SendReport = SendReport(slot: nat, bytes: u64)

  /** A running `send_all` of one thread: the publications in the order of the list, the reports appended so
      far, and the outcomes of the sends that are recorded on both sides. */
  datatype Batch = NoBatch | Batch(order: seq<nat>, reports: seq<SendReport>, made: seq<Outcome>)

  datatype State = State(context: Lock.State, slots: seq<Slot>, tasks: seq<Task>, batches: seq<Batch>)

  /** Besides starting a record, a thread takes the remaining steps of either lock, those of readers included. */
  datatype Step =
    | Send(thread: nat, slot: nat, outcome: Outcome)
    | InPublication(slot: nat, step: Lock.Step)
    | RecordInContext(thread: nat)
    | InContext(step: Lock.Step)
    | AddPublication(thread: nat, lock: Lock.State)
    | RemovePublication(thread: nat, slot: nat)
    | StartAll(thread: nat, order: seq<nat>)
    | EndAll(thread: nat)

  function Record(l: Layout, o: Outcome): seq<Lock.Add> {
    match o
    case Sent(bytes) => RecordSuccess(l, bytes)
    case SendError(_) => RecordError(l)
  }

  ghost predicate HasThreads(lock: Lock.State, n: nat) {
    forall t: nat :: t in lock.threads <==> t < n
  }

  ghost predicate AllRest(s: State) {
    forall t :: 0 <= t < |s.tasks| ==> s.tasks[t].Resting?
  }

  ghost predicate NobodyAdministers(s: State) {
    forall t :: 0 <= t < |s.tasks| ==> !s.tasks[t].Administering?
  }

  ghost predicate Init(s: State) {
    && Lock.Init(s.context) && |s.context.counters| == OfContext.Width() && HasThreads(s.context, |s.tasks|)
    && s.slots == [] && AllRest(s) && |s.batches| == |s.tasks| && NoBatches(s)
  }

  ghost predicate NoBatches(s: State) {
    forall t :: 0 <= t < |s.batches| ==> s.batches[t].NoBatch?
  }

  /** The list holds every live publication once. */
  ghost predicate ListsLive(slots: seq<Slot>, order: seq<nat>) {
    && (forall j :: 0 <= j < |order| ==> order[j] < |slots| && slots[order[j]].live)
    && (forall i :: 0 <= i < |slots| && slots[i].live ==> i in order)
    && (forall i, j :: 0 <= i < j < |order| ==> order[i] != order[j])
  }

  predicate HasFailed(b: Batch) {
    b.Batch? && b.made != [] && b.made[|b.made| - 1].SendError?
  }

  /** The batch is over: a send has failed, or all are made. */
  predicate IsOver(b: Batch) {
    b.Batch? && (HasFailed(b) || |b.made| == |b.order|)
  }

  /** Inside a batch, the send is the next of its list. */
  predicate IsTurn(b: Batch, slot: nat) {
    b.Batch? ==> !IsOver(b) && |b.made| < |b.order| && b.order[|b.made|] == slot
  }

  /** One more send is recorded: its outcome counts, and a success is reported. */
  function Made(b: Batch, slot: nat, o: Outcome): Batch {
    if b.NoBatch? then b
    else Batch(b.order, b.reports + if o.Sent? then [SendReport(slot, o.bytes)] else [], b.made + [o])
  }

  function AfterContextBatches(s: State, step: Lock.Step): seq<Batch> {
    if step.DropGuard? && step.thread < |s.tasks| == |s.batches| && s.tasks[step.thread].Recording?
    then
      var t, task := step.thread, s.tasks[step.thread];
      s.batches[t := Made(s.batches[t], task.slot, task.outcome)]
    else s.batches
  }

  ghost predicate SlotMoves(s: State, i: nat, step: Lock.Step, s': State) {
    && i < |s.slots| == |s'.slots| && s'.context == s.context
    && s'.slots == s.slots[i := Slot(s'.slots[i].lock, s.slots[i].live)]
    && Lock.Next(s.slots[i].lock, step, s'.slots[i].lock)
  }

  function AfterPublicationStep(s: State, step: Lock.Step): seq<Task> {
    if step.DropGuard? && step.thread < |s.tasks| && s.tasks[step.thread].Publishing?
    then s.tasks[step.thread := Between(s.tasks[step.thread].slot, s.tasks[step.thread].outcome)] else s.tasks
  }

  function AfterContextStep(s: State, step: Lock.Step): seq<Task> {
    if step.DropGuard? && step.thread < |s.tasks| then s.tasks[step.thread := Resting] else s.tasks
  }

  /** Adding and removing borrow the context exclusively; sending shares it. */
  ghost predicate Next(s: State, step: Step, s': State) {
    match step
    case Send(t, i, o) =>
      t < |s.tasks| && s.tasks[t].Resting? && NobodyAdministers(s)
      && SlotMoves(s, i, Lock.StartWrite(t, Record(OfPublication, o)), s') && s.slots[i].live
      && s'.tasks == s.tasks[t := Publishing(i, o)]
      && t < |s.batches| && IsTurn(s.batches[t], i) && s'.batches == s.batches
    case InPublication(i, step) =>
      !step.StartWrite? && SlotMoves(s, i, step, s') && s'.tasks == AfterPublicationStep(s, step)
      && s'.batches == s.batches
    case RecordInContext(t) =>
      t < |s.tasks| && s.tasks[t].Between? && s'.slots == s.slots
      && Lock.Next(s.context, Lock.StartWrite(t, Record(OfContext, s.tasks[t].outcome)), s'.context)
      && s'.tasks == s.tasks[t := Recording(s.tasks[t].slot, s.tasks[t].outcome)] && s'.batches == s.batches
    case InContext(step) =>
      !step.StartWrite? && Lock.Next(s.context, step, s'.context) && s'.slots == s.slots
      && s'.tasks == AfterContextStep(s, step) && s'.batches == AfterContextBatches(s, step)
    case AddPublication(t, lock) =>
      t < |s.tasks| && AllRest(s) && NoBatches(s) && s'.batches == s.batches
      && Lock.Init(lock) && |lock.counters| == OfPublication.Width() && HasThreads(lock, |s.tasks|)
      && s'.slots == s.slots + [Slot(lock, true)]
      && Lock.Next(s.context, Lock.StartWrite(t, [Lock.Add(PUBLICATIONS_ADDED, 1)]), s'.context)
      && s'.tasks == s.tasks[t := Administering]
    case RemovePublication(t, i) =>
      t < |s.tasks| && AllRest(s) && NoBatches(s) && s'.batches == s.batches && i < |s.slots| && s.slots[i].live
      && s'.slots == s.slots[i := Slot(s.slots[i].lock, false)]
      && Lock.Next(s.context, Lock.StartWrite(t, [Lock.Add(PUBLICATIONS_REMOVED, 1)]), s'.context)
      && s'.tasks == s.tasks[t := Administering]
    case StartAll(t, order) =>
      t < |s.tasks| == |s.batches| && s.tasks[t].Resting? && NobodyAdministers(s)
      && s.batches[t].NoBatch? && ListsLive(s.slots, order)
      && s' == s.(batches := s.batches[t := Batch(order, [], [])])
    case EndAll(t) =>
      t < |s.tasks| == |s.batches| && s.tasks[t].Resting? && IsOver(s.batches[t])
      && s' == s.(batches := s.batches[t := NoBatch])
  }

  ghost predicate IsRun(states: seq<State>, steps: seq<Step>) {
    && |states| == |steps| + 1
    && Init(states[0])
    && forall i :: 0 <= i < |steps| ==> Next(states[i], steps[i], states[i + 1])
  }

  // ----- Sums -----

  function Sum(s: seq<nat>): nat {
    if s == [] then 0 else Sum(s[..|s| - 1]) + s[|s| - 1]
  }

  lemma {:induction false} SumUpdate(s: seq<nat>, i: nat, v: nat)
    requires i < |s|
    ensures Sum(s[i := v]) + s[i] == Sum(s) + v
    decreases |s|
  {
    var init := s[..|s| - 1];
    if i < |init| {
      assert s[i := v][..|init|] == init[i := v];
      SumUpdate(init, i, v);
    } else {
      assert s[i := v][..|init|] == init;
    }
  }

  lemma SumAppend(s: seq<nat>, v: nat)
    ensures Sum(s + [v]) == Sum(s) + v
  {
    assert (s + [v])[..|s|] == s;
  }

  lemma {:induction false} SumZero(s: seq<nat>)
    requires forall i :: 0 <= i < |s| ==> s[i] == 0
    ensures Sum(s) == 0
  {
    if s != [] {
      SumZero(s[..|s| - 1]);
    }
  }

  lemma {:induction false} SumPlus(a: seq<nat>, b: seq<nat>, c: seq<nat>)
    requires |a| == |b| == |c| && forall i :: 0 <= i < |a| ==> a[i] == b[i] + c[i]
    ensures Sum(a) == Sum(b) + Sum(c)
    decreases |a|
  {
    if a != [] {
      SumPlus(a[..|a| - 1], b[..|b| - 1], c[..|c| - 1]);
    }
  }

  // ----- What is still to be added -----

  /** What a list of additions adds to one counter. */
  function Amount(adds: seq<Lock.Add>, index: nat): nat {
    if adds == [] then 0 else (if adds[0].index == index then adds[0].amount else 0) + Amount(adds[1..], index)
  }

  predicate IsWriter(th: Lock.Thread) {
    th.WantsWrite? || th.Contending? || th.Writing?
  }

  /** The additions a thread has yet to make under a lock. */
  function PendingOf(lock: Lock.State, t: nat): seq<Lock.Add> {
    if t !in lock.threads then []
    else match lock.threads[t]
      case WantsWrite(adds) => adds
      case Contending(adds, _) => adds
      case Writing(rest) => rest
      case _ => []
  }

  /** What thread `t` has yet to add to the context, for a send it has begun to record. */
  function Owed(s: State, t: nat): seq<Lock.Add>
    requires t < |s.tasks|
  {
    match s.tasks[t]
    case Publishing(_, o) => Record(OfContext, o)
    case Between(_, o) => Record(OfContext, o)
    case _ => PendingOf(s.context, t)
  }

  /** What thread `t` has yet to add to the publication it sends through. */
  function Due(s: State, t: nat): seq<Lock.Add>
    requires t < |s.tasks|
  {
    match s.tasks[t]
    case Publishing(i, _) => if i < |s.slots| then PendingOf(s.slots[i].lock, t) else []
    case _ => []
  }

  function OwedAmounts(s: State, c: nat): (r: seq<nat>)
    ensures |r| == |s.tasks|
    ensures forall t :: 0 <= t < |r| ==> r[t] == Amount(Owed(s, t), c)
  {
    seq(|s.tasks|, t requires 0 <= t < |s.tasks| => Amount(Owed(s, t), c))
  }

  function DueAmounts(s: State, p: nat): (r: seq<nat>)
    ensures |r| == |s.tasks|
    ensures forall t :: 0 <= t < |r| ==> r[t] == Amount(Due(s, t), p)
  {
    seq(|s.tasks|, t requires 0 <= t < |s.tasks| => Amount(Due(s, t), p))
  }

  /** The unwrapped counter `p` of each publication, live, removed, or either. */
  function SlotTotals(slots: seq<Slot>, p: nat): (r: seq<nat>)
    ensures |r| == |slots|
    ensures forall i :: 0 <= i < |r| ==> r[i] == if p < |slots[i].lock.totals| then slots[i].lock.totals[p] else 0
  {
    seq(|slots|, i requires 0 <= i < |slots| => if p < |slots[i].lock.totals| then slots[i].lock.totals[p] else 0)
  }

  /** Counter `c` of the context together with what is owed to it. */
  function Credit(s: State, c: nat): nat
    requires c < |s.context.totals|
  {
    s.context.totals[c] + Sum(OwedAmounts(s, c))
  }

  /** Counter `p` of all publications together with what is due to them. */
  function Debit(s: State, p: nat): nat {
    Sum(SlotTotals(s.slots, p)) + Sum(DueAmounts(s, p))
  }

  // ----- The invariant -----

  ghost predicate TaskOk(s: State, t: nat)
    requires t < |s.tasks|
  {
    && t in s.context.threads
    && (IsWriter(s.context.threads[t]) <==> s.tasks[t].Recording? || s.tasks[t].Administering?)
    && (s.tasks[t].Publishing? ==> s.tasks[t].slot < |s.slots|)
    && forall i :: 0 <= i < |s.slots| ==>
         && t in s.slots[i].lock.threads
         && (IsWriter(s.slots[i].lock.threads[t]) <==> s.tasks[t].Publishing? && s.tasks[t].slot == i)
  }

  ghost predicate LocksOk(s: State) {
    && Lock.Inv(s.context) && |s.context.totals| == OfContext.Width() && HasThreads(s.context, |s.tasks|)
    && forall i :: 0 <= i < |s.slots| ==>
         && Lock.Inv(s.slots[i].lock) && |s.slots[i].lock.totals| == OfPublication.Width()
         && HasThreads(s.slots[i].lock, |s.tasks|)
  }

  ghost predicate Shape(s: State) {
    LocksOk(s) && forall t :: 0 <= t < |s.tasks| ==> TaskOk(s, t)
  }

  /** A step of a lock moves what its thread has pending into the totals, and touches no other thread. */
  lemma LockStepMoves(l: Lock.State, step: Lock.Step, l': Lock.State, c: nat)
    requires Lock.Inv(l) && Lock.Next(l, step, l') && c < |l.totals|
    ensures Lock.Inv(l') && |l'.totals| == |l.totals| && l'.threads.Keys == l.threads.Keys
    ensures forall t :: t in l.threads && t != step.thread ==> l'.threads[t] == l.threads[t]
    ensures !step.StartWrite? ==>
              && l'.totals[c] + Amount(PendingOf(l', step.thread), c)
                 == l.totals[c] + Amount(PendingOf(l, step.thread), c)
              && (IsWriter(l'.threads[step.thread]) <==> IsWriter(l.threads[step.thread]) && !step.DropGuard?)
              && (step.DropGuard? ==> PendingOf(l, step.thread) == [])
    ensures step.StartWrite? ==>
              && l'.totals == l.totals && PendingOf(l', step.thread) == step.adds
              && l.threads[step.thread].Quiet? && IsWriter(l'.threads[step.thread])
  {
    Lock.StepKeepsInv(l, step, l');
  }

  /** What a step of the machine commits the context to, and the publications. */
  function Granted(step: Step): seq<Lock.Add> {
    match step
    case Send(_, _, o) => Record(OfContext, o)
    case AddPublication(_, _) => [Lock.Add(PUBLICATIONS_ADDED, 1)]
    case RemovePublication(_, _) => [Lock.Add(PUBLICATIONS_REMOVED, 1)]
    case _ => []
  }

  function Charged(step: Step): seq<Lock.Add> {
    if step.Send? then Record(OfPublication, step.outcome) else []
  }

  /** If only one thread's debts move, the sums move with it. */
  lemma OwedMoves(s: State, s': State, t: nat, c: nat)
    requires t < |s.tasks| == |s'.tasks|
    requires forall u :: 0 <= u < |s.tasks| && u != t ==> Owed(s', u) == Owed(s, u)
    ensures Sum(OwedAmounts(s', c)) + Amount(Owed(s, t), c) == Sum(OwedAmounts(s, c)) + Amount(Owed(s', t), c)
  {
    SumUpdate(OwedAmounts(s, c), t, Amount(Owed(s', t), c));
    assert OwedAmounts(s', c) == OwedAmounts(s, c)[t := Amount(Owed(s', t), c)];
  }

  lemma DueMoves(s: State, s': State, t: nat, p: nat)
    requires t < |s.tasks| == |s'.tasks|
    requires forall u :: 0 <= u < |s.tasks| && u != t ==> Due(s', u) == Due(s, u)
    ensures Sum(DueAmounts(s', p)) + Amount(Due(s, t), p) == Sum(DueAmounts(s, p)) + Amount(Due(s', t), p)
  {
    SumUpdate(DueAmounts(s, p), t, Amount(Due(s', t), p));
    assert DueAmounts(s', p) == DueAmounts(s, p)[t := Amount(Due(s', t), p)];
  }

  lemma SlotTotalMoves(slots: seq<Slot>, slots': seq<Slot>, i: nat, p: nat)
    requires i < |slots| == |slots'| && slots' == slots[i := slots'[i]]
    requires p < |slots[i].lock.totals| == |slots'[i].lock.totals|
    ensures Sum(SlotTotals(slots', p)) + slots[i].lock.totals[p] == Sum(SlotTotals(slots, p)) + slots'[i].lock.totals[p]
  {
    SumUpdate(SlotTotals(slots, p), i, slots'[i].lock.totals[p]);
    assert SlotTotals(slots', p) == SlotTotals(slots, p)[i := slots'[i].lock.totals[p]];
  }

  /** One thread starts a record in the context, or takes a step under its lock; publications stay. */
  lemma ContextMoves(s: State, step: Lock.Step, s': State, t: nat, c: nat)
    requires Shape(s) && c < |s.context.totals| && t == step.thread && t < |s.tasks|
    requires Lock.Next(s.context, step, s'.context)
    requires |s'.tasks| == |s.tasks| && forall u :: 0 <= u < |s.tasks| && u != t ==> s'.tasks[u] == s.tasks[u]
    ensures |s'.context.totals| == |s.context.totals|
    ensures Sum(OwedAmounts(s', c)) + Amount(Owed(s, t), c) == Sum(OwedAmounts(s, c)) + Amount(Owed(s', t), c)
  {
    LockStepMoves(s.context, step, s'.context, c);
    assert forall u :: 0 <= u < |s.tasks| && u != t ==> TaskOk(s, u);
    OwedMoves(s, s', t, c);
  }

  lemma ContextKeepsLocks(s: State, step: Lock.Step, s': State)
    requires Shape(s) && Lock.Next(s.context, step, s'.context) && |s'.tasks| == |s.tasks|
    requires forall i :: 0 <= i < |s'.slots| ==>
               (i < |s.slots| && s'.slots[i].lock == s.slots[i].lock)
               || (&& Lock.Inv(s'.slots[i].lock) && |s'.slots[i].lock.totals| == OfPublication.Width()
                   && HasThreads(s'.slots[i].lock, |s.tasks|))
    ensures LocksOk(s') && step.thread < |s.tasks|
  {
    LockStepMoves(s.context, step, s'.context, 0);
  }

  lemma InContextKeepsShape(s: State, step: Lock.Step, s': State)
    requires Shape(s) && Next(s, InContext(step), s')
    ensures Shape(s')
  {
    ContextKeepsLocks(s, step, s');
    LockStepMoves(s.context, step, s'.context, 0);
    assert TaskOk(s, step.thread);
    forall u | 0 <= u < |s.tasks|
      ensures TaskOk(s', u)
    {
      assert TaskOk(s, u);
    }
  }

  /** What the step takes off the thread's debt, it puts into the context's counter. */
  lemma ContextBalances(s: State, step: Lock.Step, s': State, c: nat)
    requires Shape(s) && Next(s, InContext(step), s') && c < |s.context.totals|
    requires step.thread < |s.tasks|
    ensures |s'.context.totals| == |s.context.totals|
    ensures s'.context.totals[c] + Amount(Owed(s', step.thread), c)
            == s.context.totals[c] + Amount(Owed(s, step.thread), c)
  {
    LockStepMoves(s.context, step, s'.context, c);
    assert TaskOk(s, step.thread);
  }

  lemma DueStays(s: State, step: Lock.Step, s': State, p: nat)
    requires Shape(s) && Next(s, InContext(step), s')
    ensures DueAmounts(s', p) == DueAmounts(s, p)
  {
    forall u | 0 <= u < |s.tasks|
      ensures Due(s', u) == Due(s, u)
    {
      assert TaskOk(s, u);
    }
  }

  lemma InContextMoves(s: State, step: Lock.Step, s': State, c: nat, p: nat)
    requires Shape(s) && Next(s, InContext(step), s') && c < |s.context.totals|
    ensures c < |s'.context.totals| && Credit(s', c) == Credit(s, c) && Debit(s', p) == Debit(s, p)
  {
    var t := step.thread;
    assert t < |s.tasks| by {
      ContextKeepsLocks(s, step, s');
    }
    DueStays(s, step, s', p);
    ContextBalances(s, step, s', c);
    ContextMoves(s, step, s', t, c);
  }

  lemma RecordInContextMoves(s: State, t: nat, s': State, c: nat, p: nat)
    requires Shape(s) && Next(s, RecordInContext(t), s') && c < |s.context.totals|
    ensures Shape(s') && c < |s'.context.totals| && Credit(s', c) == Credit(s, c) && Debit(s', p) == Debit(s, p)
  {
    var step := Lock.StartWrite(t, Record(OfContext, s.tasks[t].outcome));
    ContextKeepsLocks(s, step, s');
    LockStepMoves(s.context, step, s'.context, c);
    forall u | 0 <= u < |s.tasks|
      ensures TaskOk(s', u) && Due(s', u) == Due(s, u)
    {
      assert TaskOk(s, u);
    }
    assert DueAmounts(s', p) == DueAmounts(s, p);
    ContextMoves(s, step, s', t, c);
  }

  lemma AdministerKeepsShape(s: State, step: Step, s': State)
    requires Shape(s) && Next(s, step, s') && (step.AddPublication? || step.RemovePublication?)
    ensures Shape(s')
  {
    var start := Lock.StartWrite(step.thread, Granted(step));
    ContextKeepsLocks(s, start, s') by {
      if step.AddPublication? {
        InitKeepsInv(step.lock);
      }
    }
    LockStepMoves(s.context, start, s'.context, 0);
    forall u | 0 <= u < |s.tasks|
      ensures TaskOk(s', u)
    {
      assert TaskOk(s, u);
    }
  }

  lemma AdministerMoves(s: State, step: Step, s': State, c: nat, p: nat)
    requires Shape(s) && Next(s, step, s') && (step.AddPublication? || step.RemovePublication?)
    requires c < |s.context.totals| && p < OfPublication.Width()
    ensures c < |s'.context.totals| && Credit(s', c) == Credit(s, c) + Amount(Granted(step), c)
    ensures Debit(s', p) == Debit(s, p)
  {
    var t := step.thread;
    var start := Lock.StartWrite(t, Granted(step));
    assert DueAmounts(s', p) == DueAmounts(s, p);
    SlotsKeepTotals(s, step, s', p);
    assert Owed(s, t) == [] by {
      assert TaskOk(s, t);
    }
    assert Owed(s', t) == Granted(step) && s'.context.totals == s.context.totals by {
      LockStepMoves(s.context, start, s'.context, c);
    }
    ContextMoves(s, start, s', t, c);
  }

  /** A publication comes with zero counters, and keeps its counters when it goes. */
  lemma SlotsKeepTotals(s: State, step: Step, s': State, p: nat)
    requires Next(s, step, s') && (step.AddPublication? || step.RemovePublication?)
    ensures Sum(SlotTotals(s'.slots, p)) == Sum(SlotTotals(s.slots, p))
  {
    if step.AddPublication? {
      SumAppend(SlotTotals(s.slots, p), 0);
      assert SlotTotals(s'.slots, p) == SlotTotals(s.slots, p) + [0];
    } else {
      assert SlotTotals(s'.slots, p) == SlotTotals(s.slots, p);
    }
  }

  lemma InitKeepsInv(l: Lock.State)
    requires Lock.Init(l)
    ensures Lock.Inv(l)
  {
  }

  lemma SlotKeepsLocks(s: State, i: nat, step: Lock.Step, s': State)
    requires Shape(s) && SlotMoves(s, i, step, s') && |s'.tasks| == |s.tasks|
    ensures LocksOk(s') && step.thread < |s.tasks|
  {
    LockStepMoves(s.slots[i].lock, step, s'.slots[i].lock, 0);
  }

  lemma OtherDueStays(s: State, i: nat, step: Lock.Step, s': State, u: nat)
    requires Shape(s) && SlotMoves(s, i, step, s') && |s'.tasks| == |s.tasks|
    requires u < |s.tasks| && u != step.thread && s'.tasks[u] == s.tasks[u]
    ensures Due(s', u) == Due(s, u)
  {
    LockStepMoves(s.slots[i].lock, step, s'.slots[i].lock, 0);
    assert TaskOk(s, u);
  }

  /** A step under the lock of publication `i` touches the debts of one thread only. */
  lemma PublicationMoves(s: State, i: nat, step: Lock.Step, s': State, t: nat, p: nat)
    requires Shape(s) && SlotMoves(s, i, step, s') && t == step.thread && t < |s.tasks|
    requires p < OfPublication.Width()
    requires |s'.tasks| == |s.tasks| && forall u :: 0 <= u < |s.tasks| && u != t ==> s'.tasks[u] == s.tasks[u]
    ensures Sum(DueAmounts(s', p)) + Amount(Due(s, t), p) == Sum(DueAmounts(s, p)) + Amount(Due(s', t), p)
    ensures Sum(SlotTotals(s'.slots, p)) + s.slots[i].lock.totals[p]
            == Sum(SlotTotals(s.slots, p)) + s'.slots[i].lock.totals[p]
  {
    forall u | 0 <= u < |s.tasks| && u != t
      ensures Due(s', u) == Due(s, u)
    {
      OtherDueStays(s, i, step, s', u);
    }
    DueMoves(s, s', t, p);
    LockStepMoves(s.slots[i].lock, step, s'.slots[i].lock, p);
    SlotTotalMoves(s.slots, s'.slots, i, p);
  }

  lemma SendMoves(s: State, step: Step, s': State, c: nat, p: nat)
    requires Shape(s) && Next(s, step, s') && step.Send?
    requires c < |s.context.totals| && p < OfPublication.Width()
    ensures Shape(s') && c < |s'.context.totals| && Credit(s', c) == Credit(s, c) + Amount(Granted(step), c)
    ensures Debit(s', p) == Debit(s, p) + Amount(Charged(step), p)
  {
    var t, i := step.thread, step.slot;
    var start := Lock.StartWrite(t, Charged(step));
    SlotKeepsLocks(s, i, start, s');
    LockStepMoves(s.slots[i].lock, start, s'.slots[i].lock, p);
    forall u | 0 <= u < |s.tasks|
      ensures TaskOk(s', u) && (u != t ==> Owed(s', u) == Owed(s, u))
    {
      assert TaskOk(s, u);
    }
    assert TaskOk(s, t) && Owed(s, t) == [] && Due(s, t) == [];
    OwedMoves(s, s', t, c);
    PublicationMoves(s, i, start, s', t, p);
  }

  lemma InPublicationKeepsShape(s: State, i: nat, step: Lock.Step, s': State)
    requires Shape(s) && Next(s, InPublication(i, step), s')
    ensures Shape(s')
  {
    SlotKeepsLocks(s, i, step, s');
    LockStepMoves(s.slots[i].lock, step, s'.slots[i].lock, 0);
    assert TaskOk(s, step.thread);
    forall u | 0 <= u < |s.tasks|
      ensures TaskOk(s', u)
    {
      assert TaskOk(s, u);
    }
  }

  lemma OwedStays(s: State, i: nat, step: Lock.Step, s': State, c: nat)
    requires Next(s, InPublication(i, step), s')
    ensures OwedAmounts(s', c) == OwedAmounts(s, c)
  {
    assert forall u :: 0 <= u < |s.tasks| ==> Owed(s', u) == Owed(s, u);
  }

  lemma InPublicationMoves(s: State, i: nat, step: Lock.Step, s': State, c: nat, p: nat)
    requires Shape(s) && Next(s, InPublication(i, step), s')
    requires c < |s.context.totals| && p < OfPublication.Width()
    ensures c < |s'.context.totals| && Credit(s', c) == Credit(s, c) && Debit(s', p) == Debit(s, p)
  {
    var t := step.thread;
    assert t < |s.tasks| by {
      SlotKeepsLocks(s, i, step, s');
    }
    OwedStays(s, i, step, s', c);
    PublicationMoves(s, i, step, s', t, p);
    PublicationBalances(s, i, step, s', p);
  }

  /** What the step takes off the thread's debt, it puts into the publication's counter. */
  lemma PublicationBalances(s: State, i: nat, step: Lock.Step, s': State, p: nat)
    requires Shape(s) && Next(s, InPublication(i, step), s') && p < OfPublication.Width()
    requires step.thread < |s.tasks|
    ensures |s'.slots[i].lock.totals| == |s.slots[i].lock.totals| == OfPublication.Width()
    ensures s'.slots[i].lock.totals[p] + Amount(Due(s', step.thread), p)
            == s.slots[i].lock.totals[p] + Amount(Due(s, step.thread), p)
  {
    LockStepMoves(s.slots[i].lock, step, s'.slots[i].lock, p);
    assert TaskOk(s, step.thread);
  }

  lemma BatchStepMoves(s: State, step: Step, s': State, c: nat, p: nat)
    requires Shape(s) && Next(s, step, s') && (step.StartAll? || step.EndAll?) && c < |s.context.totals|
    ensures Shape(s') && c < |s'.context.totals| && Credit(s', c) == Credit(s, c) && Debit(s', p) == Debit(s, p)
  {
    forall t | 0 <= t < |s.tasks|
      ensures TaskOk(s', t)
    {
      assert TaskOk(s, t);
    }
    assert OwedAmounts(s', c) == OwedAmounts(s, c) && DueAmounts(s', p) == DueAmounts(s, p);
  }

  /** Every step keeps the shape, commits the context and the publications to what it starts, and otherwise
      only moves debts into totals. */
  lemma StepMoves(s: State, step: Step, s': State, c: nat, p: nat)
    requires Shape(s) && Next(s, step, s') && c < |s.context.totals| && p < OfPublication.Width()
    ensures Shape(s') && c < |s'.context.totals|
    ensures Credit(s', c) == Credit(s, c) + Amount(Granted(step), c)
    ensures Debit(s', p) == Debit(s, p) + Amount(Charged(step), p)
  {
    if step.Send? {
      SendMoves(s, step, s', c, p);
    } else if step.InPublication? {
      InPublicationKeepsShape(s, step.slot, step.step, s');
      InPublicationMoves(s, step.slot, step.step, s', c, p);
    } else if step.RecordInContext? {
      RecordInContextMoves(s, step.thread, s', c, p);
    } else if step.InContext? {
      InContextKeepsShape(s, step.step, s');
      InContextMoves(s, step.step, s', c, p);
    } else if step.StartAll? || step.EndAll? {
      BatchStepMoves(s, step, s', c, p);
    } else {
      AdministerKeepsShape(s, step, s');
      AdministerMoves(s, step, s', c, p);
    }
  }

  // ----- The ledger -----

  datatype Kind = Calls | Packets | Bytes | Errors

  function IndexOf(l: Layout, k: Kind): nat {
    match k
    case Calls => l.Calls()
    case Packets => l.Packets()
    case Bytes => l.Bytes()
    case Errors => l.Errors()
  }

  function EffectOn(o: Outcome, k: Kind): nat {
    match k
    case Calls => 1
    case Packets => if o.Sent? then 1 else 0
    case Bytes => if o.Sent? then o.bytes else 0
    case Errors => if o.Sent? then 0 else 1
  }

  /** A record has the same effect on a publication as on a context, and none on the publication counts. */
  lemma RecordAmounts(l: Layout, o: Outcome, k: Kind)
    ensures Amount(Record(l, o), IndexOf(l, k)) == EffectOn(o, k)
    ensures Amount(Record(OfContext, o), PUBLICATIONS_ADDED) == 0
    ensures Amount(Record(OfContext, o), PUBLICATIONS_REMOVED) == 0
  {
    AmountOfRecord(l, o, IndexOf(l, k));
    AmountOfRecord(OfContext, o, PUBLICATIONS_ADDED);
    AmountOfRecord(OfContext, o, PUBLICATIONS_REMOVED);
  }

  lemma AmountOfRecord(l: Layout, o: Outcome, c: nat)
    ensures Amount(Record(l, o), c)
            == (if c == l.Calls() then 1 else 0)
               + (if o.Sent? && c == l.Packets() then 1 else 0)
               + (if o.Sent? && c == l.Bytes() then o.bytes else 0)
               + (if !o.Sent? && c == l.Errors() then 1 else 0)
  {
    var r := Record(l, o);
    if o.Sent? {
      assert r[1..] == [Lock.Add(l.Packets(), 1), Lock.Add(l.Bytes(), o.bytes)];
      assert r[1..][1..] == [Lock.Add(l.Bytes(), o.bytes)] && r[1..][1..][1..] == [];
      assert Amount(r[1..][1..], c) == if c == l.Bytes() then o.bytes else 0;
    } else {
      assert r[1..] == [Lock.Add(l.Errors(), 1)] && r[1..][1..] == [];
      assert Amount(r[1..], c) == if c == l.Errors() then 1 else 0;
    }
  }

  /** One for each publication that has been taken out. */
  function Gone(slots: seq<Slot>): (r: seq<nat>)
    ensures |r| == |slots|
    ensures forall i :: 0 <= i < |r| ==> r[i] == if slots[i].live then 0 else 1
  {
    seq(|slots|, i requires 0 <= i < |slots| => if slots[i].live then 0 else 1)
  }

  ghost predicate KindBalanced(s: State, k: Kind)
    requires |s.context.totals| == OfContext.Width()
  {
    Credit(s, IndexOf(OfContext, k)) == Debit(s, IndexOf(OfPublication, k))
  }

  ghost predicate CountsBalanced(s: State)
    requires |s.context.totals| == OfContext.Width()
  {
    && Credit(s, PUBLICATIONS_ADDED) == |s.slots|
    && Credit(s, PUBLICATIONS_REMOVED) == Sum(Gone(s.slots))
  }

  ghost predicate Ledger(s: State)
    requires |s.context.totals| == OfContext.Width()
  {
    CountsBalanced(s) && forall k: Kind :: KindBalanced(s, k)
  }

  /** What a step commits, it commits in equal measure. */
  lemma CommitmentsMatch(step: Step, k: Kind)
    ensures Amount(Granted(step), IndexOf(OfContext, k)) == Amount(Charged(step), IndexOf(OfPublication, k))
    ensures Amount(Granted(step), PUBLICATIONS_ADDED) == if step.AddPublication? then 1 else 0
    ensures Amount(Granted(step), PUBLICATIONS_REMOVED) == if step.RemovePublication? then 1 else 0
  {
    if step.Send? {
      RecordAmounts(OfContext, step.outcome, k);
      RecordAmounts(OfPublication, step.outcome, k);
    } else if step.AddPublication? || step.RemovePublication? {
      assert Granted(step)[1..] == [];
    }
  }

  lemma SlotsCount(s: State, step: Step, s': State)
    requires Next(s, step, s')
    ensures |s'.slots| == |s.slots| + if step.AddPublication? then 1 else 0
    ensures Sum(Gone(s'.slots)) == Sum(Gone(s.slots)) + if step.RemovePublication? then 1 else 0
  {
    if step.AddPublication? {
      SumAppend(Gone(s.slots), 0);
      assert Gone(s'.slots) == Gone(s.slots) + [0];
    } else if step.RemovePublication? {
      SumUpdate(Gone(s.slots), step.slot, 1);
      assert Gone(s'.slots) == Gone(s.slots)[step.slot := 1];
    } else {
      assert Gone(s'.slots) == Gone(s.slots);
    }
  }

  lemma StepKeepsLedger(s: State, step: Step, s': State)
    requires Shape(s) && Ledger(s) && Next(s, step, s')
    ensures Shape(s') && Ledger(s')
  {
    CountsStayBalanced(s, step, s');
    forall k: Kind
      ensures KindBalanced(s', k)
    {
      KindStaysBalanced(s, step, s', k);
    }
  }

  lemma CountsStayBalanced(s: State, step: Step, s': State)
    requires Shape(s) && CountsBalanced(s) && Next(s, step, s')
    ensures Shape(s') && CountsBalanced(s')
  {
    assert Shape(s') && Credit(s', PUBLICATIONS_ADDED) == Credit(s, PUBLICATIONS_ADDED)
                                                          + Amount(Granted(step), PUBLICATIONS_ADDED) by {
      StepMoves(s, step, s', PUBLICATIONS_ADDED, 0);
    }
    assert Credit(s', PUBLICATIONS_REMOVED) == Credit(s, PUBLICATIONS_REMOVED)
                                               + Amount(Granted(step), PUBLICATIONS_REMOVED) by {
      StepMoves(s, step, s', PUBLICATIONS_REMOVED, 0);
    }
    CommitmentsMatch(step, Calls);
    SlotsCount(s, step, s');
  }

  lemma KindStaysBalanced(s: State, step: Step, s': State, k: Kind)
    requires Shape(s) && KindBalanced(s, k) && Next(s, step, s')
    ensures Shape(s') && KindBalanced(s', k)
  {
    StepMoves(s, step, s', IndexOf(OfContext, k), IndexOf(OfPublication, k));
    CommitmentsMatch(step, k);
  }

  lemma InitLedger(s: State)
    requires Init(s)
    ensures Shape(s) && Ledger(s)
  {
    InitKeepsInv(s.context);
    forall c | 0 <= c < OfContext.Width()
      ensures Credit(s, c) == 0
    {
      SumZero(OwedAmounts(s, c));
    }
    forall p | 0 <= p < OfPublication.Width()
      ensures Debit(s, p) == 0
    {
      SumZero(DueAmounts(s, p));
    }
  }

  lemma {:induction false} RunKeepsLedger(states: seq<State>, steps: seq<Step>, n: nat)
    requires IsRun(states, steps) && n < |states|
    ensures Shape(states[n]) && Ledger(states[n])
  {
    if n == 0 {
      InitLedger(states[0]);
    } else {
      var s, step, s' := states[n - 1], steps[n - 1], states[n];
      assert Next(s, step, s');
      RunKeepsLedger(states, steps, n - 1);
      StepKeepsLedger(s, step, s');
    }
  }

  // ----- Conservation -----

  /** Counter `p` of the live publications, or of the removed ones. */
  function PartTotals(slots: seq<Slot>, live: bool, p: nat): (r: seq<nat>)
    ensures |r| == |slots|
    ensures forall i :: 0 <= i < |r| ==> r[i] == if slots[i].live == live then SlotTotals(slots, p)[i] else 0
  {
    seq(|slots|, i requires 0 <= i < |slots| => if slots[i].live == live then SlotTotals(slots, p)[i] else 0)
  }

  /** In every state of every run, and for each of the four send counters: the context's total and what the
      sends in flight still owe it equal what the live and the removed publications have counted and what is
      still due to them. */
  lemma TotalsAndDebtsBalance(states: seq<State>, steps: seq<Step>, n: nat, k: Kind)
    requires IsRun(states, steps) && n < |states|
    ensures var s, c, p := states[n], IndexOf(OfContext, k), IndexOf(OfPublication, k);
            && |s.context.totals| == OfContext.Width()
            && s.context.totals[c] + Sum(OwedAmounts(s, c))
               == Sum(PartTotals(s.slots, true, p)) + Sum(PartTotals(s.slots, false, p)) + Sum(DueAmounts(s, p))
            && ((forall t :: 0 <= t < |s.tasks| ==> !s.tasks[t].Publishing?) ==> Sum(DueAmounts(s, p)) == 0)
  {
    var s, p := states[n], IndexOf(OfPublication, k);
    RunKeepsLedger(states, steps, n);
    assert KindBalanced(s, k);
    SumPlus(SlotTotals(s.slots, p), PartTotals(s.slots, true, p), PartTotals(s.slots, false, p));
    if forall t :: 0 <= t < |s.tasks| ==> !s.tasks[t].Publishing? {
      SumZero(DueAmounts(s, p));
    }
  }

  lemma RestOwesNothing(s: State, c: nat, p: nat)
    requires Shape(s) && AllRest(s)
    ensures Sum(OwedAmounts(s, c)) == 0 && Sum(DueAmounts(s, p)) == 0
  {
    forall t | 0 <= t < |s.tasks|
      ensures Owed(s, t) == [] && Due(s, t) == []
    {
      assert TaskOk(s, t);
    }
    SumZero(OwedAmounts(s, c));
    SumZero(DueAmounts(s, p));
  }

  /** Whenever nothing is in flight, each total the context holds is exactly the sum of the counters of the
      publications it has and had, and the publications it has number added minus removed. */
  lemma QuiescentTotalsAreExact(states: seq<State>, steps: seq<Step>, n: nat, k: Kind)
    requires IsRun(states, steps) && n < |states| && AllRest(states[n])
    ensures var s, c, p := states[n], IndexOf(OfContext, k), IndexOf(OfPublication, k);
            && |s.context.totals| == |s.context.counters| == OfContext.Width()
            && s.context.totals[c] == Sum(PartTotals(s.slots, true, p)) + Sum(PartTotals(s.slots, false, p))
            && s.context.counters[c] == Wrap(s.context.totals[c])
            && s.context.totals[PUBLICATIONS_ADDED] == |s.slots|
            && s.context.totals[PUBLICATIONS_REMOVED] == Sum(Gone(s.slots))
  {
    var s, p := states[n], IndexOf(OfPublication, k);
    RunKeepsLedger(states, steps, n);
    TotalsAndDebtsBalance(states, steps, n, k);
    RestOwesNothing(s, IndexOf(OfContext, k), p);
    RestOwesNothing(s, PUBLICATIONS_ADDED, p);
    RestOwesNothing(s, PUBLICATIONS_REMOVED, p);
  }

  // ----- The context lags, and never leads -----

  /** What is due to a publication is part of the send being recorded. */
  ghost predicate DuesBounded(s: State) {
    forall t: nat, k: Kind :: t < |s.tasks| && s.tasks[t].Publishing? ==>
      Amount(Due(s, t), IndexOf(OfPublication, k)) <= EffectOn(s.tasks[t].outcome, k)
  }

  lemma DueOnlyShrinks(s: State, step: Step, s': State, t: nat, k: Kind)
    requires Shape(s) && DuesBounded(s) && Next(s, step, s') && |s'.tasks| == |s.tasks|
    requires t < |s.tasks| && s'.tasks[t].Publishing?
    ensures Amount(Due(s', t), IndexOf(OfPublication, k)) <= EffectOn(s'.tasks[t].outcome, k)
  {
    if step.Send? {
      DueOfSend(s, step, s', t, k);
    } else if step.InPublication? {
      DueOfRecord(s, step.slot, step.step, s', t, k);
    } else {
      assert s'.tasks[t] == s.tasks[t] && Due(s', t) == Due(s, t);
    }
  }

  lemma DueOfRecord(s: State, i: nat, step: Lock.Step, s': State, t: nat, k: Kind)
    requires Shape(s) && DuesBounded(s) && Next(s, InPublication(i, step), s') && |s'.tasks| == |s.tasks|
    requires t < |s.tasks| && s'.tasks[t].Publishing?
    ensures Amount(Due(s', t), IndexOf(OfPublication, k)) <= EffectOn(s'.tasks[t].outcome, k)
  {
    assert s'.tasks[t] == s.tasks[t];
    if t == step.thread {
      PublicationBalances(s, i, step, s', IndexOf(OfPublication, k));
    } else {
      OtherDueStays(s, i, step, s', t);
    }
  }

  lemma DueOfSend(s: State, step: Step, s': State, t: nat, k: Kind)
    requires Shape(s) && DuesBounded(s) && Next(s, step, s') && step.Send? && |s'.tasks| == |s.tasks|
    requires t < |s.tasks| && s'.tasks[t].Publishing?
    ensures Amount(Due(s', t), IndexOf(OfPublication, k)) <= EffectOn(s'.tasks[t].outcome, k)
  {
    var start := Lock.StartWrite(step.thread, Charged(step));
    if t == step.thread {
      LockStepMoves(s.slots[step.slot].lock, start, s'.slots[step.slot].lock, 0);
      RecordAmounts(OfPublication, step.outcome, k);
    } else {
      OtherDueStays(s, step.slot, start, s', t);
    }
  }

  lemma {:induction false} RunKeepsDuesBounded(states: seq<State>, steps: seq<Step>, n: nat)
    requires IsRun(states, steps) && n < |states|
    ensures DuesBounded(states[n])
  {
    if n > 0 {
      var s, step, s' := states[n - 1], steps[n - 1], states[n];
      RunKeepsDuesBounded(states, steps, n - 1);
      RunKeepsLedger(states, steps, n - 1);
      assert Next(s, step, s');
      forall t: nat, k: Kind | t < |s'.tasks| && s'.tasks[t].Publishing?
        ensures Amount(Due(s', t), IndexOf(OfPublication, k)) <= EffectOn(s'.tasks[t].outcome, k)
      {
        DueOnlyShrinks(s, step, s', t, k);
      }
    }
  }

  lemma {:induction false} SumLeq(a: seq<nat>, b: seq<nat>)
    requires |a| == |b| && forall i :: 0 <= i < |a| ==> a[i] <= b[i]
    ensures Sum(a) <= Sum(b)
    decreases |a|
  {
    if a != [] {
      SumLeq(a[..|a| - 1], b[..|b| - 1]);
    }
  }

  /** In no state of any run does a total of the context exceed what its publications have counted. */
  lemma ContextNeverLeads(states: seq<State>, steps: seq<Step>, n: nat, k: Kind)
    requires IsRun(states, steps) && n < |states|
    ensures var s, c, p := states[n], IndexOf(OfContext, k), IndexOf(OfPublication, k);
            && |s.context.totals| == OfContext.Width()
            && s.context.totals[c] <= Sum(PartTotals(s.slots, true, p)) + Sum(PartTotals(s.slots, false, p))
  {
    var s, c, p := states[n], IndexOf(OfContext, k), IndexOf(OfPublication, k);
    TotalsAndDebtsBalance(states, steps, n, k);
    RunKeepsDuesBounded(states, steps, n);
    forall t | 0 <= t < |s.tasks|
      ensures DueAmounts(s, p)[t] <= OwedAmounts(s, c)[t]
    {
      if s.tasks[t].Publishing? {
        RecordAmounts(OfContext, s.tasks[t].outcome, k);
      }
    }
    SumLeq(DueAmounts(s, p), OwedAmounts(s, c));
  }

  // ----- Sending to all -----

  /** The reports of the successful prefix. */
  function ReportsOf(order: seq<nat>, made: seq<Outcome>): (r: seq<SendReport>)
    requires |made| <= |order|
    ensures |r| == Successes(made)
    ensures forall j :: 0 <= j < |r| ==> made[j].Sent? && r[j] == SendReport(order[j], made[j].bytes)
  {
    seq(Successes(made), j requires 0 <= j < Successes(made) => SendReport(order[j], made[j].bytes))
  }

  /** Only the last of the sends made can have failed, and what the thread is sending is the next one. */
  ghost predicate BatchOk(s: State, t: nat)
    requires t < |s.batches| == |s.tasks|
  {
    s.batches[t].Batch? ==>
      var b, task := s.batches[t], s.tasks[t];
      && ListsLive(s.slots, b.order) && |b.made| <= |b.order|
      && |b.made| <= Successes(b.made) + 1
      && b.reports == ReportsOf(b.order, b.made)
      && !task.Administering?
      && (task.Publishing? || task.Between? || task.Recording? ==> IsTurn(b, task.slot))
  }

  ghost predicate BatchesOk(s: State) {
    |s.batches| == |s.tasks| && forall t :: 0 <= t < |s.tasks| ==> BatchOk(s, t)
  }

  lemma {:induction false} SuccessesOfMore(made: seq<Outcome>, o: Outcome)
    requires Successes(made) == |made|
    ensures Successes(made + [o]) == if o.Sent? then |made| + 1 else |made|
    decreases |made|
  {
    if made == [] {
      assert ([] + [o])[1..] == [];
    } else {
      assert (made + [o])[1..] == made[1..] + [o];
      SuccessesOfMore(made[1..], o);
    }
  }

  lemma MadeKeepsBatch(b: Batch, slot: nat, o: Outcome)
    requires b.Batch? && IsTurn(b, slot) && |b.made| <= |b.order|
    requires |b.made| <= Successes(b.made) + 1 && b.reports == ReportsOf(b.order, b.made)
    ensures var m := Made(b, slot, o);
            && |m.made| <= |m.order| && |m.made| <= Successes(m.made) + 1
            && m.reports == ReportsOf(m.order, m.made)
  {
    var m := Made(b, slot, o);
    assert Successes(b.made) == |b.made|;
    SuccessesOfMore(b.made, o);
    assert m.made[..|b.made|] == b.made;
    assert m.reports == ReportsOf(m.order, m.made);
  }

  lemma LiveStays(s: State, step: Step, s': State, order: seq<nat>)
    requires Next(s, step, s') && !step.AddPublication? && !step.RemovePublication? && ListsLive(s.slots, order)
    ensures ListsLive(s'.slots, order)
  {
    assert |s'.slots| == |s.slots| && forall i :: 0 <= i < |s.slots| ==> s'.slots[i].live == s.slots[i].live;
  }

  /** A thread that leaves its batch alone. */
  lemma BatchStays(s: State, step: Step, s': State, t: nat)
    requires BatchesOk(s) && Next(s, step, s') && t < |s.tasks| == |s'.tasks| == |s'.batches|
    requires s'.batches[t] == s.batches[t]
    requires (step.InContext? && step.step.DropGuard? && step.step.thread == t) ==> s'.tasks[t].Resting?
    ensures BatchOk(s', t)
  {
    assert BatchOk(s, t);
    if s.batches[t].Batch? {
      LiveStays(s, step, s', s.batches[t].order);
    }
  }

  /** A thread whose record in the context ends. */
  lemma BatchGrows(s: State, step: Lock.Step, s': State)
    requires BatchesOk(s) && Next(s, InContext(step), s') && s'.batches != s.batches
    ensures step.thread < |s'.batches| == |s'.tasks| && BatchOk(s', step.thread)
  {
    var t := step.thread;
    assert BatchOk(s, t);
    if s.batches[t].Batch? {
      MadeKeepsBatch(s.batches[t], s.tasks[t].slot, s.tasks[t].outcome);
      LiveStays(s, InContext(step), s', s.batches[t].order);
    }
  }

  lemma StepKeepsBatches(s: State, step: Step, s': State)
    requires BatchesOk(s) && Next(s, step, s')
    ensures BatchesOk(s')
  {
    forall t | 0 <= t < |s'.tasks|
      ensures BatchOk(s', t)
    {
      if step.InContext? && s'.batches != s.batches && t == step.step.thread {
        BatchGrows(s, step.step, s');
      } else if !step.StartAll? && !step.EndAll? {
        BatchStays(s, step, s', t);
      } else {
        assert BatchOk(s, t);
      }
    }
  }

  lemma {:induction false} RunKeepsBatches(states: seq<State>, steps: seq<Step>, n: nat)
    requires IsRun(states, steps) && n < |states|
    ensures BatchesOk(states[n])
  {
    if n > 0 {
      var s, step, s' := states[n - 1], steps[n - 1], states[n];
      assert Next(s, step, s');
      RunKeepsBatches(states, steps, n - 1);
      StepKeepsBatches(s, step, s');
    }
  }

  /** Whatever other threads do meanwhile, a `send_all` that ends has appended exactly the reports of its
      successful prefix, in the order of the list; it has stopped after its one failure, or has sent once
      through every publication the context has. */
  lemma SendAllReportsPrefix(states: seq<State>, steps: seq<Step>, n: nat)
    requires IsRun(states, steps) && n < |steps| && steps[n].EndAll?
    ensures var s, t := states[n], steps[n].thread;
            && t < |s.batches| && s.batches[t].Batch?
            && var b := s.batches[t];
            && ListsLive(s.slots, b.order)
            && |b.made| <= |b.order| && b.reports == ReportsOf(b.order, b.made)
            && (if Successes(b.made) == |b.made| then |b.made| == |b.order|
                else |b.made| == Successes(b.made) + 1 && b.made[|b.made| - 1].SendError?)
  {
    RunKeepsBatches(states, steps, n);
    assert Next(states[n], steps[n], states[n + 1]);
    assert BatchOk(states[n], steps[n].thread);
  }

  // ----- The context's lock on its own -----

  /** The step a step of the machine takes under the context's lock. */
  function ContextStep(s: State, step: Step): Option<Lock.Step> {
    match step
    case InContext(inner) => Some(inner)
    case RecordInContext(t) =>
      if t < |s.tasks| && s.tasks[t].Between?
      then Some(Lock.StartWrite(t, Record(OfContext, s.tasks[t].outcome))) else None
    case AddPublication(t, _) => Some(Lock.StartWrite(t, Granted(step)))
    case RemovePublication(t, _) => Some(Lock.StartWrite(t, Granted(step)))
    case _ => None
  }

  /** The first `n` steps, seen by the context's lock: `at[i]` is where state `i` lies in its run. */
  ghost predicate IsView(states: seq<State>, steps: seq<Step>, n: nat,
                         ls: seq<Lock.State>, lsteps: seq<Lock.Step>, at: seq<nat>)
    requires |states| == |steps| + 1 && n < |states|
  {
    && IsRecordRun(OfContext, ls, lsteps)
    && |at| == n + 1 && at[n] == |lsteps|
    && (forall i :: 0 <= i <= n ==> at[i] < |ls| && ls[at[i]] == states[i].context)
    && (forall i, j :: 0 <= i <= j <= n ==> at[i] <= at[j])
    && (forall i :: 0 <= i < n && ContextStep(states[i], steps[i]).Some? ==>
          at[i] < |lsteps| && lsteps[at[i]] == ContextStep(states[i], steps[i]).value)
  }

  lemma ContextStepIsRecorded(s: State, step: Step, s': State)
    requires Next(s, step, s')
    ensures ContextStep(s, step).None? ==> s'.context == s.context
    ensures ContextStep(s, step).Some? ==>
              var inner := ContextStep(s, step).value;
              Lock.Next(s.context, inner, s'.context)
              && (inner.StartWrite? ==> IsRecord(OfContext, inner.adds))
  {
    if step.RecordInContext? {
      var o := s.tasks[step.thread].outcome;
      assert o.Sent? ==> Record(OfContext, o) == RecordSuccess(OfContext, o.bytes);
    }
  }

  /** Every run of the machine is, for the context's lock, a run of records. */
  lemma {:induction false} ContextView(states: seq<State>, steps: seq<Step>, n: nat)
    returns (ls: seq<Lock.State>, lsteps: seq<Lock.Step>, at: seq<nat>)
    requires IsRun(states, steps) && n < |states|
    ensures IsView(states, steps, n, ls, lsteps, at)
  {
    if n == 0 {
      return [states[0].context], [], [0];
    }
    ls, lsteps, at := ContextView(states, steps, n - 1);
    ls, lsteps, at := ViewGrows(states, steps, n - 1, ls, lsteps, at);
  }

  lemma ViewGrows(states: seq<State>, steps: seq<Step>, n: nat,
                  ls: seq<Lock.State>, lsteps: seq<Lock.Step>, at: seq<nat>)
    returns (ls': seq<Lock.State>, lsteps': seq<Lock.Step>, at': seq<nat>)
    requires IsRun(states, steps) && n < |steps| && IsView(states, steps, n, ls, lsteps, at)
    ensures IsView(states, steps, n + 1, ls', lsteps', at')
  {
    var inner := ContextStep(states[n], steps[n]);
    assert Next(states[n], steps[n], states[n + 1]);
    ContextStepIsRecorded(states[n], steps[n], states[n + 1]);
    if inner.None? {
      ls', lsteps', at' := ls, lsteps, at + [at[n]];
    } else {
      ls', lsteps' := ls + [states[n + 1].context], lsteps + [inner.value];
      at' := at + [|lsteps'|];
      RecordRunGrows(ls, lsteps, inner.value, states[n + 1].context);
    }
    ViewExtends(states, steps, n, ls, lsteps, at, ls', lsteps', at');
  }

  /** What was in view stays in view. */
  lemma ViewExtends(states: seq<State>, steps: seq<Step>, n: nat,
                    ls: seq<Lock.State>, lsteps: seq<Lock.Step>, at: seq<nat>,
                    ls': seq<Lock.State>, lsteps': seq<Lock.Step>, at': seq<nat>)
    requires |states| == |steps| + 1 && n < |steps| && IsView(states, steps, n, ls, lsteps, at)
    requires IsRecordRun(OfContext, ls', lsteps') && ls <= ls' && lsteps <= lsteps'
    requires at' == at + [|lsteps'|] && ls'[|lsteps'|] == states[n + 1].context
    requires var inner := ContextStep(states[n], steps[n]);
             inner.Some? ==> lsteps' == lsteps + [inner.value]
    ensures IsView(states, steps, n + 1, ls', lsteps', at')
  {
    forall i | 0 <= i <= n + 1
      ensures at'[i] < |ls'| && ls'[at'[i]] == states[i].context
    {
      if i <= n {
        assert at'[i] == at[i];
      }
    }
    forall i, j | 0 <= i <= j <= n + 1
      ensures at'[i] <= at'[j]
    {
      if i <= n {
        assert at'[i] == at[i] <= at[n] == |lsteps|;
      }
    }
    forall i | 0 <= i < n + 1 && ContextStep(states[i], steps[i]).Some?
      ensures at'[i] < |lsteps'| && lsteps'[at'[i]] == ContextStep(states[i], steps[i]).value
    {
      assert at'[i] == at[i];
    }
  }

  lemma RecordRunGrows(ls: seq<Lock.State>, lsteps: seq<Lock.Step>, step: Lock.Step, l: Lock.State)
    requires IsRecordRun(OfContext, ls, lsteps) && Lock.Next(ls[|lsteps|], step, l)
    requires step.StartWrite? ==> IsRecord(OfContext, step.adds)
    ensures IsRecordRun(OfContext, ls + [l], lsteps + [step])
  {
  }

  /** Step `n` returns a snapshot of the context, within the wrap bound of its lock. */
  ghost predicate ContextSnapshotAt(states: seq<State>, steps: seq<Step>, n: int, snapshot: seq<u64>) {
    && |states| == |steps| + 1 && 0 <= n < |steps| && steps[n].InContext?
    && Lock.Accepted(states[n].context, steps[n].step) == Some(snapshot)
    && Lock.WithinWrapBound(states[n].context, steps[n].step)
  }

  /** Every snapshot of a context, taken while threads send, come and go, has calls = packets + errors. */
  lemma ContextSnapshotBalances(states: seq<State>, steps: seq<Step>, n: nat, snapshot: seq<u64>)
    requires IsRun(states, steps) && ContextSnapshotAt(states, steps, n, snapshot)
    ensures |snapshot| == OfContext.Width() == |states[n].context.totals|
    ensures snapshot[OfContext.Calls()]
            == Wrap(snapshot[OfContext.Packets()] as int + snapshot[OfContext.Errors()] as int)
    ensures states[n].context.totals[OfContext.Calls()] < U64_MODULUS ==> Balanced(OfContext, snapshot)
  {
    var ls, lsteps, at := ContextView(states, steps, n + 1);
    assert ContextStep(states[n], steps[n]) == Some(steps[n].step);
    assert SnapshotAt(ls, lsteps, at[n], snapshot);
    SnapshotBalances(OfContext, ls, lsteps, at[n], snapshot);
  }

  /** Sample `i` is the snapshot of the context that the run returns at step `ns[i]`. */
  ghost predicate ContextSampledFrom(states: seq<State>, steps: seq<Step>, ns: seq<nat>, samples: seq<Sample>) {
    && |ns| == |samples|
    && (forall i :: 0 <= i < |ns| ==> ContextSnapshotAt(states, steps, ns[i], samples[i].snapshot.counters))
    && (forall i, j :: 0 <= i <= j < |ns| ==> ns[i] <= ns[j] && samples[i].at <= samples[j].at)
  }

  /** Sampling a context while any number of threads send through it: no delta is lost, each accounts every
      call as one packet or one error, and each of the six counters adds up to last minus first. */
  lemma SampledContextConserves(states: seq<State>, steps: seq<Step>, ns: seq<nat>, samples: seq<Sample>, c: nat)
    requires IsRun(states, steps) && samples != [] && ContextSampledFrom(states, steps, ns, samples)
    requires NoCounterOverflow(states[ns[|ns| - 1]].context) && c < OfContext.Width()
    ensures SameWidth(samples, OfContext.Width()) && Conserves(OfContext, samples, c)
  {
    var ls, lsteps, at := ContextView(states, steps, |steps|);
    var ms := seq(|ns|, i requires 0 <= i < |ns| => at[ns[i]]);
    forall i | 0 <= i < |ms|
      ensures SnapshotAt(ls, lsteps, ms[i], samples[i].snapshot.counters)
    {
      assert ContextStep(states[ns[i]], steps[ns[i]]) == Some(steps[ns[i]].step);
    }
    assert SampledFrom(ls, lsteps, ms, samples);
    SampledRunConserves(OfContext, ls, lsteps, ms, samples, c);
  }
}
