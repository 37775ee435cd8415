/** The linear-scan context, one call at a time: the same transitions of the abstract map as the indexed
    owner, and a ledger in which every send is counted once in its publication and once in the totals.
    Module ConcurrentContext interleaves the calls. */
module ContextLedger {
  import opened Base
  import opened Owners

  /** Cumulative atomics, wrapping at 64 bits. */
  datatype Counters = Counters(calls: u64, packets: u64, bytes: u64, errors: u64)

  const ZERO := Counters(0, 0, 0, 0)

  function Plus(a: Counters, b: Counters): Counters {
    Counters(Sum64(a.calls, b.calls), Sum64(a.packets, b.packets), Sum64(a.bytes, b.bytes), Sum64(a.errors, b.errors))
  }

  function Sum64(a: u64, b: u64): u64 {
    Wrap(a as int + b as int)
  }

  lemma Sum64Assoc(a: u64, b: u64, c: u64)
    ensures Sum64(Sum64(a, b), c) == Sum64(a, Sum64(b, c))
  {
    WrapAdd(a as int + b as int, c);
    WrapAdd(b as int + c as int, a);
  }

  lemma PlusAssoc(a: Counters, b: Counters, c: Counters)
    ensures Plus(Plus(a, b), c) == Plus(a, Plus(b, c))
  {
    Sum64Assoc(a.calls, b.calls, c.calls);
    Sum64Assoc(a.packets, b.packets, c.packets);
    Sum64Assoc(a.bytes, b.bytes, c.bytes);
    Sum64Assoc(a.errors, b.errors, c.errors);
  }

  lemma MoveLast(a: Counters, b: Counters, c: Counters)
    ensures Plus(Plus(a, b), c) == Plus(Plus(a, c), b)
  {
    PlusAssoc(a, b, c);
    PlusAssoc(a, c, b);
  }

  lemma PlusZero(a: Counters)
    ensures Plus(a, ZERO) == a && Plus(ZERO, a) == a
  {
  }

  /** What the socket reported for one send. */
  datatype Outcome = Sent(bytes: u64) | SendError(errno: int)

  function Effect(o: Outcome): Counters {
    match o
    case Sent(bytes) => Counters(1, 1, bytes, 0)
    case SendError(_) => Counters(1, 0, 0, 1)
  }

  datatype Report = Report(id: u64, bytes: u64)

  datatype SendFailure = NotFound | SendFailed(errno: int)

  type Entry<C> = Publication<C, Counters>

  /** Sum of the per-publication counters. */
  function Total<C>(ps: seq<Entry<C>>): Counters {
    if ps == [] then ZERO else Plus(Total(ps[..|ps| - 1]), ps[|ps| - 1].state)
  }

  function Counted<C>(p: Entry<C>, o: Outcome): Entry<C> {
    p.(state := Plus(p.state, Effect(o)))
  }

  lemma {:induction false} TotalAfterSend<C>(ps: seq<Entry<C>>, i: nat, o: Outcome)
    requires i < |ps|
    ensures Total(ps[i := Counted(ps[i], o)]) == Plus(Total(ps), Effect(o))
    decreases |ps|
  {
    var init, last := ps[..|ps| - 1], ps[|ps| - 1];
    var updated := ps[i := Counted(ps[i], o)];
    if i == |init| {
      assert updated[..|init|] == init;
      PlusAssoc(Total(init), last.state, Effect(o));
    } else {
      assert updated[..|init|] == init[i := Counted(init[i], o)];
      TotalAfterSend(init, i, o);
      MoveLast(Total(init), Effect(o), last.state);
    }
  }

  /** Exchanging one entry of the list exchanges its share of the total. */
  lemma {:induction false} TotalAfterReplace<C>(ps: seq<Entry<C>>, i: nat, p: Entry<C>)
    requires i < |ps|
    ensures Plus(Total(ps[i := p]), ps[i].state) == Plus(Total(ps), p.state)
    decreases |ps|
  {
    var init, last := ps[..|ps| - 1], ps[|ps| - 1];
    var replaced := ps[i := p];
    if i == |init| {
      assert replaced[..|init|] == init;
      MoveLast(Total(init), p.state, last.state);
    } else {
      assert replaced[..|init|] == init[i := p];
      TotalAfterReplace(init, i, p);
      MoveLast(Total(init[i := p]), last.state, ps[i].state);
      MoveLast(Total(init), last.state, p.state);
    }
  }

  lemma TotalAfterSwapRemove<C>(ps: seq<Entry<C>>, i: nat)
    requires i < |ps|
    ensures Plus(Total(SwapRemove(ps, i)), ps[i].state) == Total(ps)
  {
    var init, last := ps[..|ps| - 1], ps[|ps| - 1];
    if i < |init| {
      TotalAfterReplace(init, i, last);
    }
  }

  /** How many sends succeed before the first failure. */
  function Successes(outcomes: seq<Outcome>): (n: nat)
    ensures n <= |outcomes|
    ensures forall i :: 0 <= i < n ==> outcomes[i].Sent?
    ensures n < |outcomes| ==> outcomes[n].SendError?
  {
    if outcomes == [] || outcomes[0].SendError? then 0 else 1 + Successes(outcomes[1..])
  }

  /** The first failure is where the prefix of successes ends. */
  lemma {:induction false} SuccessesIs(outcomes: seq<Outcome>, n: nat)
    requires n <= |outcomes| && (forall i :: 0 <= i < n ==> outcomes[i].Sent?)
    requires n < |outcomes| ==> outcomes[n].SendError?
    ensures Successes(outcomes) == n
    decreases |outcomes|
  {
    if n > 0 {
      SuccessesIs(outcomes[1..], n - 1);
    }
  }

  function Reports<C>(ps: seq<Entry<C>>, outcomes: seq<Outcome>, n: nat): (r: seq<Report>)
    requires n <= |ps| == |outcomes| && forall i :: 0 <= i < n ==> outcomes[i].Sent?
    ensures |r| == n
  {
    seq(n, i requires 0 <= i < n => Report(ps[i].id, outcomes[i].bytes))
  }

  class Context<C(==)> {
    var publications: seq<Entry<C>>
    var nextId: nat
    var added: u64
    var removed: u64
    var totals: Counters
    /** What publications taken out of the context had counted. */
    ghost var retired: Counters

    ghost function Abstract(): View<C, Counters>
      reads this
    {
      View(MapOf(publications), nextId)
    }

    /** The ledger: totals cover live and removed publications, and active = added - removed. */
    ghost predicate Valid()
      reads this
    {
      && IdsDistinct(publications) && Sound(Abstract())
      && totals == Plus(Total(publications), retired)
      && added == Sum64(removed, Wrap(|publications|))
    }

    constructor ()
      ensures Valid() && Abstract() == View(map[], 1) && totals == ZERO
    {
      publications := [];
      nextId := 1;
      added := 0;
      removed := 0;
      totals := ZERO;
      retired := ZERO;
    }

    method FindPosition(id: u64) returns (position: Option<nat>)
      requires Valid()
      ensures position.Some? ==> position.value < |publications| && publications[position.value].id == id
      ensures position.Some? <==> id in Abstract().live
    {
      MapOfLists(publications);
      for i := 0 to |publications|
        invariant forall j :: 0 <= j < i ==> publications[j].id != id
      {
        if publications[i].id == id {
          return Some(i);
        }
      }
      return None;
    }

    method GetPublication(id: u64) returns (found: Option<Entry<C>>)
      requires Valid()
      ensures found == Take(Abstract(), id).1
    {
      MapOfLists(publications);
      var position := FindPosition(id);
      if position.None? {
        return None;
      }
      return Some(publications[position.value]);
    }

    method AddPublication(config: C, setup: Result<(), OwnerError>) returns (r: Result<u64, OwnerError>)
      requires Valid() && nextId < U64_MODULUS - 1
      modifies this
      ensures Valid() && totals == old(totals)
      ensures (Abstract(), r)
              == Add(old(Abstract()), config, if setup.Ok? then Ok(ZERO) else Err(setup.error))
    {
      StepStaysSound(Abstract(), DoAdd(config, if setup.Ok? then Ok(ZERO) else Err(setup.error)));
      var taken := ScanConfig(publications, config, None, Abstract());
      if taken {
        return Err(DuplicatePublication);
      }
      var id := nextId;
      nextId := nextId + 1;
      if setup.Err? {
        return Err(setup.error);
      }
      InsertPublication(Publication(id, config, ZERO));
      return Ok(id);
    }

    method InsertPublication(publication: Entry<C>)
      requires IdsDistinct(publications) && publication.id !in MapOf(publications) && publication.state == ZERO
      requires totals == Plus(Total(publications), retired) && added == Sum64(removed, Wrap(|publications|))
      modifies this`publications, this`added
      ensures IdsDistinct(publications)
      ensures MapOf(publications)
              == old(MapOf(publications))[publication.id := Live(publication.config, publication.state)]
      ensures totals == Plus(Total(publications), retired) && added == Sum64(removed, Wrap(|publications|))
    {
      PushMap(publications, publication);
      assert (publications + [publication])[..|publications|] == publications;
      PlusZero(Total(publications));
      CountOneMore(removed, |publications|);
      publications := publications + [publication];
      added := Sum64(added, 1);
    }

    method TakePublication(id: u64) returns (taken: Option<Entry<C>>)
      requires Valid()
      modifies this
      ensures Valid() && totals == old(totals)
      ensures (Abstract(), taken) == Take(old(Abstract()), id)
    {
      MapOfLists(publications);
      var position := FindPosition(id);
      if position.None? {
        return None;
      }
      var index := position.value;
      var publication := publications[index];
      SwapRemoveMap(publications, index);
      TotalAfterSwapRemove(publications, index);
      PlusAssoc(Total(SwapRemove(publications, index)), publication.state, retired);
      CountOneMore(removed, |publications| - 1);
      publications := SwapRemove(publications, index);
      removed := Sum64(removed, 1);
      retired := Plus(publication.state, retired);
      return Some(publication);
    }

    /** The snapshot of a quiescent context; the gauge is added minus removed while the counters that
        enter it have not wrapped. */
    method MetricsSnapshot() returns (added: u64, removed: u64, active: nat, totals: Counters)
      requires Valid()
      ensures added == this.added && removed == this.removed && active == |publications| && totals == this.totals
      ensures active + removed < U64_MODULUS ==> active == added - removed
    {
      added, removed, active, totals := this.added, this.removed, |publications|, this.totals;
    }

    /** One send is counted in its publication and in the totals alike; an unknown id is counted nowhere. */
    method Send(id: u64, outcome: Outcome) returns (r: Result<Report, SendFailure>)
      requires Valid()
      modifies this`publications, this`totals
      ensures Valid()
      ensures id !in old(Abstract()).live ==>
                r == Err(NotFound) && totals == old(totals) && publications == old(publications)
      ensures id in old(Abstract()).live ==>
                var before := old(Abstract()).live[id];
                && totals == Plus(old(totals), Effect(outcome))
                && Abstract().live == old(Abstract()).live[id := before.(state := Plus(before.state, Effect(outcome)))]
                && r == (match outcome
                         case Sent(bytes) => Ok(Report(id, bytes))
                         case SendError(e) => Err(SendFailed(e)))
    {
      MapOfLists(publications);
      var position := FindPosition(id);
      if position.None? {
        return Err(NotFound);
      }
      CountSend(position.value, outcome);
      match outcome {
        case Sent(bytes) => return Ok(Report(id, bytes));
        case SendError(e) => return Err(SendFailed(e));
      }
    }

    /** The publication's own counters first, then the context's. */
    method CountSend(i: nat, outcome: Outcome)
      requires Valid() && i < |publications|
      modifies this`publications, this`totals
      ensures Valid()
      ensures publications == old(publications)[i := Counted(old(publications)[i], outcome)]
      ensures totals == Plus(old(totals), Effect(outcome))
      ensures var p := old(publications)[i];
              Abstract().live == old(Abstract()).live[p.id := Live(p.config, Plus(p.state, Effect(outcome)))]
    {
      var p := Counted(publications[i], outcome);
      MapOfLists(publications);
      UpdateMap(publications, i, p);
      SameConfigsStaySound(Abstract(), p.id, p.state, MapOf(publications[i := p]));
      TotalAfterSend(publications, i, outcome);
      MoveLast(Total(publications), Effect(outcome), retired);
      publications := publications[i := p];
      totals := Plus(totals, Effect(outcome));
    }

    /** Sends to every publication in order and stops at the first failure: exactly the reports of the
        successful prefix are appended, and the one failure is counted like any other send. */
    method SendAll(outcomes: seq<Outcome>, out: seq<Report>) returns (r: Result<nat, SendFailure>, out': seq<Report>)
      requires Valid() && |outcomes| == |publications|
      modifies this`publications, this`totals
      ensures Valid()
      ensures var n := Successes(outcomes);
              && out' == out + Reports(old(publications), outcomes, n)
              && r == (if n == |outcomes| then Ok(n) else Err(SendFailed(outcomes[n].errno)))
              && |publications| == |outcomes|
              && forall i :: 0 <= i < |outcomes| ==>
                   var before := old(publications)[i];
                   publications[i] == if i <= n then Counted(before, outcomes[i]) else before
    {
      out' := out;
      var i := 0;
      while i < |publications|
        invariant Valid() && |publications| == |outcomes| && i <= |outcomes|
        invariant forall j :: 0 <= j < i ==> outcomes[j].Sent?
        invariant out' == out + Reports(old(publications), outcomes, i)
        invariant forall j :: 0 <= j < |outcomes| ==>
                    var before := old(publications)[j];
                    publications[j] == if j < i then Counted(before, outcomes[j]) else before
      {
        var id := publications[i].id;
        CountSend(i, outcomes[i]);
        match outcomes[i] {
          case SendError(e) =>
            SuccessesIs(outcomes, i);
            return Err(SendFailed(e)), out';
          case Sent(bytes) =>
            out' := out' + [Report(id, bytes)];
        }
        i := i + 1;
      }
      SuccessesIs(outcomes, i);
      return Ok(|out'| - |out|), out';
    }
  }

  lemma CountOneMore(removed: u64, active: nat)
    ensures Sum64(removed, Wrap(active + 1)) == Sum64(Sum64(removed, Wrap(active)), 1)
    ensures Sum64(Sum64(removed, 1), Wrap(active)) == Sum64(removed, Wrap(active + 1))
  {
    WrapAdd(active, 1);
    Sum64Assoc(removed, Wrap(active), 1);
    Sum64Assoc(removed, 1, Wrap(active));
  }

  lemma SameConfigsStaySound<C>(v: View<C, Counters>, id: u64, state: Counters, live: map<u64, Live<C, Counters>>)
    requires Sound(v) && id in v.live && live == v.live[id := v.live[id].(state := state)]
    ensures Sound(View(live, v.nextId))
  {
  }
}
