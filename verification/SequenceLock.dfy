/** The metrics sequence lock: any number of writer and reader threads interleaving single atomic
    operations, sequentially consistent. */
module SequenceLock {
  import opened Base

  /** One `fetch_add` on a counter. */
  datatype Add = Add(index: nat, amount: nat)

  datatype Thread =
    | Quiet
    | WantsWrite(adds: seq<Add>)
    | Contending(adds: seq<Add>, current: u64)
    | Writing(rest: seq<Add>)
    | WantsRead
    | Reading(before: u64, began: nat, got: seq<u64>)

  /** `value` and `counters` are the shared atomics. `version`, `totals` and `holder` record the history:
      how often `value` was bumped, what each counter would be without wrapping, whose guard is live. */
  datatype State = State(
    value: u64, counters: seq<u64>, threads: map<nat, Thread>,
    version: nat, totals: seq<nat>, holder: Option<nat>)

  datatype Step =
    | StartWrite(thread: nat, adds: seq<Add>)
    | LoadValue(thread: nat)
    | Spin(thread: nat)
    | CasSucceeds(thread: nat)
    | CasFails(thread: nat)
    | AddCounter(thread: nat)
    | DropGuard(thread: nat)
    | StartRead(thread: nat)
    | LoadBefore(thread: nat)
    | LoadCounter(thread: nat)
    | LoadAfter(thread: nat)

  function Set(s: State, t: nat, th: Thread): State {
    s.(threads := s.threads[t := th])
  }

  predicate InRange(adds: seq<Add>, n: nat) {
    forall a :: a in adds ==> a.index < n
  }

  ghost predicate Init(s: State) {
    && s.value == 0 && s.version == 0 && s.holder == None
    && |s.totals| == |s.counters|
    && (forall i :: 0 <= i < |s.counters| ==> s.counters[i] == 0 && s.totals[i] == 0)
    && (forall t :: t in s.threads ==> s.threads[t].Quiet?)
  }

  ghost predicate Next(s: State, step: Step, s': State) {
    && step.thread in s.threads
    && var t := step.thread;
       var th := s.threads[t];
       match step
       case StartWrite(_, adds) =>
         th.Quiet? && InRange(adds, |s.counters|) && s' == Set(s, t, WantsWrite(adds))
       case LoadValue(_) => th.WantsWrite? && s' == Set(s, t, Contending(th.adds, s.value))
       case Spin(_) => th.Contending? && th.current % 2 == 1 && s' == Set(s, t, th.(current := s.value))
       case CasSucceeds(_) =>
         th.Contending? && th.current % 2 == 0 && s.value == th.current
         && s' == Set(s, t, Writing(th.adds)).(
                    value := Wrap(th.current + 1), version := s.version + 1, holder := Some(t))
       case CasFails(_) =>
         // the weak exchange may also fail spuriously
         th.Contending? && th.current % 2 == 0 && s' == Set(s, t, th.(current := s.value))
       case AddCounter(_) =>
         th.Writing? && th.rest != [] && th.rest[0].index < |s.counters| == |s.totals|
         && var a := th.rest[0];
            s' == Set(s, t, Writing(th.rest[1..])).(
                    counters := s.counters[a.index := Wrap(s.counters[a.index] + a.amount)],
                    totals := s.totals[a.index := s.totals[a.index] + a.amount])
       case DropGuard(_) =>
         th.Writing? && th.rest == []
         && s' == Set(s, t, Quiet).(value := Wrap(s.value + 1), version := s.version + 1, holder := None)
       case StartRead(_) => th.Quiet? && s' == Set(s, t, WantsRead)
       case LoadBefore(_) =>
         th.WantsRead? && s' == if s.value % 2 == 1 then s else Set(s, t, Reading(s.value, s.version, []))
       case LoadCounter(_) =>
         th.Reading? && |th.got| < |s.counters|
         && s' == Set(s, t, th.(got := th.got + [s.counters[|th.got|]]))
       case LoadAfter(_) =>
         th.Reading? && |th.got| == |s.counters|
         && s' == Set(s, t, if s.value == th.before then Quiet else WantsRead)
  }

  /** The snapshot that this step returns, if it accepts one. */
  function Accepted(s: State, step: Step): Option<seq<u64>> {
    if step.LoadAfter? && step.thread in s.threads && s.threads[step.thread].Reading?
       && s.threads[step.thread].before == s.value
    then Some(s.threads[step.thread].got) else None
  }

  // ----- The invariant -----

  predicate ReaderOk(s: State, th: Thread) {
    th.Reading? ==>
      && th.before == Wrap(th.began) && th.began % 2 == 0 && th.began <= s.version
      && |th.got| <= |s.counters|
      && (th.began == s.version ==> th.got == s.counters[..|th.got|])
  }

  predicate ThreadOk(s: State, t: nat, th: Thread) {
    && (th.Writing? <==> s.holder == Some(t))
    && (th.WantsWrite? ==> InRange(th.adds, |s.counters|))
    && (th.Contending? ==> InRange(th.adds, |s.counters|))
    && (th.Writing? ==> InRange(th.rest, |s.counters|))
    && ReaderOk(s, th)
  }

  ghost predicate Inv(s: State) {
    && s.value == Wrap(s.version)
    && |s.totals| == |s.counters|
    && (forall i :: 0 <= i < |s.counters| ==> s.counters[i] == Wrap(s.totals[i]))
    && (s.version % 2 == 1 <==> s.holder.Some?)
    && (s.holder.Some? ==> s.holder.value in s.threads)
    && (forall t :: t in s.threads ==> ThreadOk(s, t, s.threads[t]))
  }

  lemma WrapParity(a: nat)
    ensures Wrap(a) % 2 == a % 2
  {
    EvenShift(0x8000_0000_0000_0000 * (a / U64_MODULUS), Wrap(a));
  }

  lemma EvenShift(k: nat, w: nat)
    ensures (2 * k + w) % 2 == w % 2
  {
  }

  lemma WriterStepKeepsInv(s: State, step: Step, s': State)
    requires Inv(s) && Next(s, step, s')
    requires step.CasSucceeds? || step.AddCounter? || step.DropGuard?
    ensures Inv(s')
  {
    WrapAdd(s.version, 1);
    WrapParity(s.version);
    if step.AddCounter? {
      var a := s.threads[step.thread].rest[0];
      WrapAdd(s.totals[a.index], a.amount);
    }
    forall t | t in s'.threads
      ensures ThreadOk(s', t, s'.threads[t])
    {
      assert t in s.threads && ThreadOk(s, t, s.threads[t]);
      assert ThreadOk(s, step.thread, s.threads[step.thread]);
    }
  }

  lemma ApproachStepKeepsInv(s: State, step: Step, s': State)
    requires Inv(s) && Next(s, step, s')
    requires step.StartWrite? || step.LoadValue? || step.Spin? || step.CasFails? || step.StartRead?
    ensures Inv(s')
  {
    forall t | t in s'.threads
      ensures ThreadOk(s', t, s'.threads[t])
    {
      assert t in s.threads && ThreadOk(s, t, s.threads[t]);
    }
  }

  lemma ReaderStepKeepsInv(s: State, step: Step, s': State)
    requires Inv(s) && Next(s, step, s')
    requires step.LoadBefore? || step.LoadCounter? || step.LoadAfter?
    ensures Inv(s')
  {
    WrapParity(s.version);
    var th := s.threads[step.thread];
    assert ThreadOk(s, step.thread, th);
    forall t | t in s'.threads
      ensures ThreadOk(s', t, s'.threads[t])
    {
      assert t in s.threads && ThreadOk(s, t, s.threads[t]);
    }
  }

  lemma StepKeepsInv(s: State, step: Step, s': State)
    requires Inv(s) && Next(s, step, s')
    ensures Inv(s')
  {
    if step.CasSucceeds? || step.AddCounter? || step.DropGuard? {
      WriterStepKeepsInv(s, step, s');
    } else if step.LoadBefore? || step.LoadCounter? || step.LoadAfter? {
      ReaderStepKeepsInv(s, step, s');
    } else {
      ApproachStepKeepsInv(s, step, s');
    }
  }

  // ----- Runs -----

  ghost predicate IsRun(states: seq<State>, steps: seq<Step>) {
    && |states| == |steps| + 1
    && Init(states[0])
    && forall i :: 0 <= i < |steps| ==> Next(states[i], steps[i], states[i + 1])
  }

  lemma {:induction false} RunKeepsInv(states: seq<State>, steps: seq<Step>, n: nat)
    requires IsRun(states, steps) && n < |states|
    ensures Inv(states[n])
  {
    if n > 0 {
      RunKeepsInv(states, steps, n - 1);
      StepKeepsInv(states[n - 1], steps[n - 1], states[n]);
    }
  }

  /** The value is odd exactly while one write guard is live, and there are never two. */
  lemma GuardsAreExclusive(states: seq<State>, steps: seq<Step>, n: nat)
    requires IsRun(states, steps) && n < |states|
    ensures var s := states[n];
            s.value % 2 == 1 <==> exists t :: t in s.threads && s.threads[t].Writing?
    ensures var s := states[n];
            forall t, u :: t in s.threads && u in s.threads && s.threads[t].Writing? && s.threads[u].Writing? ==> t == u
  {
    var s := states[n];
    RunKeepsInv(states, steps, n);
    WrapParity(s.version);
    forall t | t in s.threads
      ensures s.threads[t].Writing? <==> s.holder == Some(t)
    {
      assert ThreadOk(s, t, s.threads[t]);
    }
    if s.holder.Some? {
      assert s.holder.value in s.threads && s.threads[s.holder.value].Writing?;
    }
  }

  /** Fewer than 2^63 write sections complete inside the read attempt that ends with this step. */
  predicate WithinWrapBound(s: State, step: Step) {
    step.thread in s.threads && s.threads[step.thread].Reading?
    && s.version - s.threads[step.thread].began < U64_MODULUS
  }

  lemma SameResidueNearby(a: nat, b: nat)
    requires a <= b < a + U64_MODULUS && Wrap(a) == Wrap(b)
    ensures a == b
  {
    var d := b - a;
    assert b == U64_MODULUS * (b / U64_MODULUS) + Wrap(b);
    assert a == U64_MODULUS * (a / U64_MODULUS) + Wrap(a);
  }

  /** Every accepted snapshot equals all counters at the single instant of its second check, when no writer
      is inside. */
  lemma SnapshotIsConsistent(states: seq<State>, steps: seq<Step>, n: nat)
    requires IsRun(states, steps) && n < |steps|
    requires Accepted(states[n], steps[n]).Some? && WithinWrapBound(states[n], steps[n])
    ensures var s := states[n];
            && Accepted(s, steps[n]).value == s.counters
            && forall t :: t in s.threads ==> !s.threads[t].Writing?
  {
    var s := states[n];
    RunKeepsInv(states, steps, n);
    assert Next(s, steps[n], states[n + 1]);
    var th := s.threads[steps[n].thread];
    assert ThreadOk(s, steps[n].thread, th);
    SameResidueNearby(th.began, s.version);
    assert s.counters[..|th.got|] == s.counters;
    forall t | t in s.threads
      ensures !s.threads[t].Writing?
    {
      assert ThreadOk(s, t, s.threads[t]);
    }
  }
}
