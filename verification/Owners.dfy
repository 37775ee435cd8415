/** Owners of publications: an abstract map of live publications and the indexed owner with its swap-remove
    repair. The linear-scan owner of module ContextLedger performs the same transitions of the map. */
module Owners {
  import opened Base

  datatype OwnerError = DuplicatePublication | PublicationNotFound | SetupFailed(code: int)

  /** One live publication: its configuration and whatever state hangs on its socket. */
  datatype Live<C, S> = Live(config: C, state: S)

  datatype View<C, S> = View(live: map<u64, Live<C, S>>, nextId: nat)

  datatype Publication<C, S> = Publication(id: u64, config: C, state: S)

  // ----- Transitions of the abstract map -----

  ghost predicate ConfigTaken<C, S>(v: View<C, S>, config: C, except: Option<u64>) {
    exists id :: id in v.live && Some(id) != except && v.live[id].config == config
  }

  /** A duplicate is refused before an id is drawn; a failed setup has already consumed its id. */
  ghost function Add<C, S>(v: View<C, S>, config: C, setup: Result<S, OwnerError>)
    : (View<C, S>, Result<u64, OwnerError>)
    requires v.nextId < U64_MODULUS - 1
  {
    if ConfigTaken(v, config, None) then (v, Err(DuplicatePublication))
    else if setup.Err? then (v.(nextId := v.nextId + 1), Err(setup.error))
    else (View(v.live[v.nextId := Live(config, setup.value)], v.nextId + 1), Ok(v.nextId))
  }

  ghost function Replace<C, S>(v: View<C, S>, id: u64, config: C, setup: Result<S, OwnerError>)
    : (View<C, S>, Result<(), OwnerError>)
  {
    if id !in v.live then (v, Err(PublicationNotFound))
    else if ConfigTaken(v, config, Some(id)) then (v, Err(DuplicatePublication))
    else if setup.Err? then (v, Err(setup.error))
    else (v.(live := v.live[id := Live(config, setup.value)]), Ok(()))
  }

  function Take<C, S>(v: View<C, S>, id: u64): (View<C, S>, Option<Publication<C, S>>) {
    if id !in v.live then (v, None)
    else (v.(live := v.live - {id}), Some(Publication(id, v.live[id].config, v.live[id].state)))
  }

  ghost predicate ConfigsDistinct<C, S>(v: View<C, S>) {
    forall a, b :: a in v.live && b in v.live && v.live[a].config == v.live[b].config ==> a == b
  }

  ghost predicate Sound<C, S>(v: View<C, S>) {
    ConfigsDistinct(v) && forall id :: id in v.live ==> id < v.nextId
  }

  // ----- Runs over the abstract map -----

  datatype Op<C, S> =
    | DoAdd(config: C, setup: Result<S, OwnerError>)
    | DoReplace(id: u64, config: C, setup: Result<S, OwnerError>)
    | DoTake(id: u64)

  ghost function Step<C, S>(v: View<C, S>, op: Op<C, S>): (View<C, S>, Option<u64>)
    requires v.nextId < U64_MODULUS - 1
  {
    match op
    case DoAdd(config, setup) =>
      var (next, r) := Add(v, config, setup);
      (next, if r.Ok? then Some(r.value) else None)
    case DoReplace(id, config, setup) => (Replace(v, id, config, setup).0, None)
    case DoTake(id) => (Take(v, id).0, None)
  }

  /** A run of operations, each on the view the one before left, with the ids they issued. */
  ghost predicate IsRun<C, S>(views: seq<View<C, S>>, ops: seq<Op<C, S>>, issued: seq<Option<u64>>) {
    && |views| == |ops| + 1 && |issued| == |ops|
    && Sound(views[0])
    && forall i :: 0 <= i < |ops| ==>
         views[i].nextId < U64_MODULUS - 1 && Step(views[i], ops[i]) == (views[i + 1], issued[i])
  }

  lemma {:induction false} RunStaysSound<C, S>(
    views: seq<View<C, S>>, ops: seq<Op<C, S>>, issued: seq<Option<u64>>, i: nat, j: nat)
    requires IsRun(views, ops, issued) && i <= j < |views|
    ensures Sound(views[j]) && views[i].nextId <= views[j].nextId
    decreases j
  {
    if j > 0 {
      RunStaysSound(views, ops, issued, if i < j then i else j - 1, j - 1);
      assert Step(views[j - 1], ops[j - 1]) == (views[j], issued[j - 1]);
    }
  }

  /** Live configurations stay pairwise distinct, and an issued id is new: it was live at no earlier point
      of the run, is issued at no other, and, once gone, is never live again. */
  lemma IdsAreNeverReused<C, S>(
    views: seq<View<C, S>>, ops: seq<Op<C, S>>, issued: seq<Option<u64>>, i: nat, j: nat)
    requires IsRun(views, ops, issued) && i < |ops| && issued[i].Some? && j < |views|
    ensures ConfigsDistinct(views[j])
    ensures j <= i ==> issued[i].value !in views[j].live
    ensures j < |ops| && j != i ==> issued[j] != issued[i]
    ensures forall k :: i < k <= j && issued[i].value !in views[k].live ==> issued[i].value !in views[j].live
  {
    assert Step(views[i], ops[i]) == (views[i + 1], issued[i]);
    RunStaysSound(views, ops, issued, 0, j);
    if j <= i {
      RunStaysSound(views, ops, issued, j, i);
    } else {
      RunStaysSound(views, ops, issued, i + 1, j);
    }
    if j < |ops| && j != i {
      assert Step(views[j], ops[j]) == (views[j + 1], issued[j]);
      if j < i {
        RunStaysSound(views, ops, issued, j + 1, i);
      }
    }
    forall k | i < k <= j && issued[i].value !in views[k].live
      ensures issued[i].value !in views[j].live
    {
      GoneStaysGone(views, ops, issued, i, k, j);
    }
  }

  lemma {:induction false} GoneStaysGone<C, S>(
    views: seq<View<C, S>>, ops: seq<Op<C, S>>, issued: seq<Option<u64>>, i: nat, k: nat, j: nat)
    requires IsRun(views, ops, issued) && i < |ops| && issued[i].Some? && i < k <= j < |views|
    requires issued[i].value !in views[k].live
    ensures issued[i].value !in views[j].live
    decreases j
  {
    if k < j {
      GoneStaysGone(views, ops, issued, i, k, j - 1);
      assert Step(views[i], ops[i]) == (views[i + 1], issued[i]);
      assert Step(views[j - 1], ops[j - 1]) == (views[j], issued[j - 1]);
      RunStaysSound(views, ops, issued, i + 1, j - 1);
    }
  }

  // ----- The list behind both owners -----

  ghost predicate IdsDistinct<C, S>(ps: seq<Publication<C, S>>) {
    forall i, j :: 0 <= i < |ps| && 0 <= j < |ps| && ps[i].id == ps[j].id ==> i == j
  }

  /** `live` is the map of the publications in the list. */
  ghost predicate Lists<C, S>(ps: seq<Publication<C, S>>, live: map<u64, Live<C, S>>) {
    && IdsDistinct(ps)
    && (forall i :: 0 <= i < |ps| ==> ps[i].id in live && live[ps[i].id] == Live(ps[i].config, ps[i].state))
    && (forall id :: id in live ==> exists i :: 0 <= i < |ps| && ps[i].id == id)
  }

  /** The list always has exactly one such map. */
  ghost function MapOf<C, S>(ps: seq<Publication<C, S>>): map<u64, Live<C, S>> {
    if ps == [] then map[]
    else
      var p := ps[|ps| - 1];
      MapOf(ps[..|ps| - 1])[p.id := Live(p.config, p.state)]
  }

  lemma {:induction false} MapOfLists<C, S>(ps: seq<Publication<C, S>>)
    requires IdsDistinct(ps)
    ensures Lists(ps, MapOf(ps))
    decreases |ps|
  {
    if ps != [] {
      var init := ps[..|ps| - 1];
      MapOfLists(init);
      forall id | id in MapOf(ps)
        ensures exists i :: 0 <= i < |ps| && ps[i].id == id
      {
        if id == ps[|ps| - 1].id {
        } else {
          var i :| 0 <= i < |init| && init[i].id == id;
          assert ps[i].id == id;
        }
      }
    }
  }

  lemma ListsIsUnique<C, S>(ps: seq<Publication<C, S>>, a: map<u64, Live<C, S>>, b: map<u64, Live<C, S>>)
    requires Lists(ps, a) && Lists(ps, b)
    ensures a == b
  {
    forall id
      ensures id in a <==> id in b
      ensures id in a ==> a[id] == b[id]
    {
      if id in a {
        var i :| 0 <= i < |ps| && ps[i].id == id;
      }
      if id in b {
        var i :| 0 <= i < |ps| && ps[i].id == id;
      }
    }
  }

  function SwapRemove<T>(s: seq<T>, index: nat): (r: seq<T>)
    requires index < |s|
    ensures |r| == |s| - 1
    ensures forall i :: 0 <= i < |r| ==> r[i] == if i == index then s[|s| - 1] else s[i]
  {
    var init := s[..|s| - 1];
    if index < |init| then init[index := s[|s| - 1]] else init
  }

  lemma PushLists<C, S>(ps: seq<Publication<C, S>>, live: map<u64, Live<C, S>>, p: Publication<C, S>)
    requires Lists(ps, live) && p.id !in live
    ensures Lists(ps + [p], live[p.id := Live(p.config, p.state)])
  {
    var longer := ps + [p];
    var after := live[p.id := Live(p.config, p.state)];
    forall id | id in after
      ensures exists i :: 0 <= i < |longer| && longer[i].id == id
    {
      if id == p.id {
        assert longer[|ps|].id == id;
      } else {
        var i :| 0 <= i < |ps| && ps[i].id == id;
        assert longer[i].id == id;
      }
    }
  }

  lemma SwapRemoveLists<C, S>(ps: seq<Publication<C, S>>, live: map<u64, Live<C, S>>, index: nat)
    requires Lists(ps, live) && index < |ps|
    ensures Lists(SwapRemove(ps, index), live - {ps[index].id})
  {
    var shorter := SwapRemove(ps, index);
    forall id | id in live - {ps[index].id}
      ensures exists i :: 0 <= i < |shorter| && shorter[i].id == id
    {
      var i :| 0 <= i < |ps| && ps[i].id == id;
      assert shorter[if i == |ps| - 1 then index else i].id == id;
    }
  }

  lemma UpdateLists<C, S>(ps: seq<Publication<C, S>>, live: map<u64, Live<C, S>>, index: nat, p: Publication<C, S>)
    requires Lists(ps, live) && index < |ps| && p.id == ps[index].id
    ensures Lists(ps[index := p], live[p.id := Live(p.config, p.state)])
  {
    var updated := ps[index := p];
    var after := live[p.id := Live(p.config, p.state)];
    forall id | id in after
      ensures exists i :: 0 <= i < |updated| && updated[i].id == id
    {
      assert id in live;
      var i :| 0 <= i < |ps| && ps[i].id == id;
      assert updated[i].id == id;
    }
  }

  // ----- How the list operations move the map -----

  lemma PushMap<C, S>(ps: seq<Publication<C, S>>, p: Publication<C, S>)
    requires IdsDistinct(ps) && p.id !in MapOf(ps)
    ensures IdsDistinct(ps + [p])
    ensures MapOf(ps + [p]) == MapOf(ps)[p.id := Live(p.config, p.state)]
  {
    MapOfLists(ps);
    PushLists(ps, MapOf(ps), p);
    assert (ps + [p])[..|ps|] == ps;
  }

  lemma SwapRemoveMap<C, S>(ps: seq<Publication<C, S>>, index: nat)
    requires IdsDistinct(ps) && index < |ps|
    ensures IdsDistinct(SwapRemove(ps, index))
    ensures MapOf(SwapRemove(ps, index)) == MapOf(ps) - {ps[index].id}
    ensures ps[index].id in MapOf(ps) && MapOf(ps)[ps[index].id] == Live(ps[index].config, ps[index].state)
  {
    MapOfLists(ps);
    SwapRemoveLists(ps, MapOf(ps), index);
    MapOfLists(SwapRemove(ps, index));
    ListsIsUnique(SwapRemove(ps, index), MapOf(SwapRemove(ps, index)), MapOf(ps) - {ps[index].id});
  }

  lemma UpdateMap<C, S>(ps: seq<Publication<C, S>>, index: nat, p: Publication<C, S>)
    requires IdsDistinct(ps) && index < |ps| && p.id == ps[index].id
    ensures IdsDistinct(ps[index := p])
    ensures p.id in MapOf(ps) && MapOf(ps[index := p]) == MapOf(ps)[p.id := Live(p.config, p.state)]
  {
    MapOfLists(ps);
    UpdateLists(ps, MapOf(ps), index, p);
    MapOfLists(ps[index := p]);
    ListsIsUnique(ps[index := p], MapOf(ps[index := p]), MapOf(ps)[p.id := Live(p.config, p.state)]);
  }

  lemma StepStaysSound<C, S>(v: View<C, S>, op: Op<C, S>)
    requires Sound(v) && v.nextId < U64_MODULUS - 1
    ensures Sound(Step(v, op).0)
  {
  }

  // ----- The index map -----

  /** `indices` lists exactly the ids of the list, each with the slot that holds it. */
  ghost predicate Indexes<C, S>(indices: map<u64, nat>, ps: seq<Publication<C, S>>) {
    && (forall i :: 0 <= i < |ps| ==> ps[i].id in indices && indices[ps[i].id] == i)
    && (forall id :: id in indices ==> indices[id] < |ps| && ps[indices[id]].id == id)
  }

  lemma IndexListsLiveIds<C, S>(indices: map<u64, nat>, ps: seq<Publication<C, S>>, id: u64)
    requires IdsDistinct(ps) && Indexes(indices, ps)
    ensures id in indices <==> id in MapOf(ps)
    ensures id in indices ==>
              var p := ps[indices[id]]; p.id == id && MapOf(ps)[id] == Live(p.config, p.state)
  {
    MapOfLists(ps);
  }

  lemma PushIndexes<C, S>(indices: map<u64, nat>, ps: seq<Publication<C, S>>, p: Publication<C, S>)
    requires Indexes(indices, ps) && p.id !in indices
    ensures Indexes(indices[p.id := |ps|], ps + [p])
  {
  }

  /** Removing an id and re-pointing the publication that was moved into its slot repairs the index. */
  lemma SwapRemoveIndexes<C, S>(indices: map<u64, nat>, ps: seq<Publication<C, S>>, index: nat)
    requires IdsDistinct(ps) && Indexes(indices, ps) && index < |ps|
    ensures var shorter := SwapRemove(ps, index);
            var without := indices - {ps[index].id};
            Indexes(if index < |shorter| then without[shorter[index].id := index] else without, shorter)
  {
  }

  /** The scan of `ensure_publication_config_is_unique`. */
  method ScanConfig<C(==), S>(ps: seq<Publication<C, S>>, config: C, except: Option<u64>,
                              ghost v: View<C, S>) returns (taken: bool)
    requires IdsDistinct(ps) && v.live == MapOf(ps)
    ensures taken <==> ConfigTaken(v, config, except)
  {
    MapOfLists(ps);
    for i := 0 to |ps|
      invariant forall j :: 0 <= j < i ==> Some(ps[j].id) == except || ps[j].config != config
    {
      if Some(ps[i].id) != except && ps[i].config == config {
        assert ps[i].id in v.live;
        return true;
      }
    }
    return false;
  }

  // ----- The indexed owner (RawContext; RawIpContext has the same fields and no replacement) -----

  class IndexedOwner<C(==), S> {
    var publications: seq<Publication<C, S>>
    var indices: map<u64, nat>
    var nextId: nat

    ghost function Abstract(): View<C, S>
      reads this
    {
      View(MapOf(publications), nextId)
    }

    ghost predicate Valid()
      reads this
    {
      IdsDistinct(publications) && Sound(Abstract()) && Indexes(indices, publications)
    }

    constructor ()
      ensures Valid() && Abstract() == View(map[], 1)
    {
      publications := [];
      indices := map[];
      nextId := 1;
    }

    method GetPublication(id: u64) returns (found: Option<Publication<C, S>>)
      requires Valid()
      ensures found == Take(Abstract(), id).1
    {
      IndexListsLiveIds(indices, publications, id);
      if id !in indices {
        return None;
      }
      return Some(publications[indices[id]]);
    }

    method AddPublication(config: C, setup: Result<S, OwnerError>) returns (r: Result<u64, OwnerError>)
      requires Valid() && nextId < U64_MODULUS - 1
      modifies this
      ensures Valid() && (Abstract(), r) == Add(old(Abstract()), config, setup)
    {
      StepStaysSound(Abstract(), DoAdd(config, setup));
      var taken := ScanConfig(publications, config, None, Abstract());
      if taken {
        return Err(DuplicatePublication);
      }
      var id := nextId;
      nextId := nextId + 1;
      if setup.Err? {
        return Err(setup.error);
      }
      var publication := Publication(id, config, setup.value);
      IndexListsLiveIds(indices, publications, id);
      Push(publication);
      return Ok(id);
    }

    /** Stores a publication and its slot. */
    method Push(publication: Publication<C, S>)
      requires IdsDistinct(publications) && Indexes(indices, publications) && publication.id !in indices
      modifies this`publications, this`indices
      ensures IdsDistinct(publications) && Indexes(indices, publications)
      ensures MapOf(publications)
              == old(MapOf(publications))[publication.id := Live(publication.config, publication.state)]
    {
      IndexListsLiveIds(indices, publications, publication.id);
      PushMap(publications, publication);
      PushIndexes(indices, publications, publication);
      indices := indices[publication.id := |publications|];
      publications := publications + [publication];
    }

    method ReplacePublication(id: u64, config: C, setup: Result<S, OwnerError>) returns (r: Result<(), OwnerError>)
      requires Valid()
      modifies this`publications
      ensures Valid() && (Abstract(), r) == Replace(old(Abstract()), id, config, setup)
      ensures r.Err? ==> publications == old(publications)
    {
      IndexListsLiveIds(indices, publications, id);
      if id !in indices {
        return Err(PublicationNotFound);
      }
      var index := indices[id];
      var taken := ScanConfig(publications, config, Some(id), Abstract());
      if taken {
        return Err(DuplicatePublication);
      }
      if setup.Err? {
        return Err(setup.error);
      }
      var replacement := Publication(id, config, setup.value);
      UpdateMap(publications, index, replacement);
      publications := publications[index := replacement];
      return Ok(());
    }

    method TakePublication(id: u64) returns (taken: Option<Publication<C, S>>)
      requires Valid()
      modifies this`publications, this`indices
      ensures Valid() && (Abstract(), taken) == Take(old(Abstract()), id)
    {
      IndexListsLiveIds(indices, publications, id);
      if id !in indices {
        return None;
      }
      var index := indices[id];
      SwapRemoveMap(publications, index);
      SwapRemoveIndexes(indices, publications, index);
      indices := indices - {id};
      var publication := publications[index];
      publications := SwapRemove(publications, index);
      if index < |publications| {
        var movedId := publications[index].id;
        indices := indices[movedId := index];
      }
      return Some(publication);
    }

    method RemovePublication(id: u64) returns (removed: bool)
      requires Valid()
      modifies this`publications, this`indices
      ensures Valid() && Abstract() == Take(old(Abstract()), id).0
      ensures removed <==> id in old(Abstract()).live
    {
      var taken := TakePublication(id);
      removed := taken.Some?;
    }
  }
}
