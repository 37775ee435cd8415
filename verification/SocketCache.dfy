/** The bounded first-in-first-out socket cache. */
module SocketCache {
  import opened Base

  const CAPACITY := 16

  /** The most recent insertions that fit the cache. */
  function Recent<K, S>(history: seq<(K, S)>): (r: seq<(K, S)>)
    ensures |r| == if |history| <= CAPACITY then |history| else CAPACITY
  {
    if |history| <= CAPACITY then history else history[|history| - CAPACITY..]
  }

  function KeysOf<K, S>(pairs: seq<(K, S)>): (keys: seq<K>)
    ensures |keys| == |pairs|
    ensures forall i :: 0 <= i < |pairs| ==> keys[i] == pairs[i].0
  {
    seq(|pairs|, i requires 0 <= i < |pairs| => pairs[i].0)
  }

  ghost predicate Distinct<K>(keys: seq<K>) {
    forall i, j :: 0 <= i < j < |keys| ==> keys[i] != keys[j]
  }

  /** `sockets` holds exactly the pairs. */
  ghost predicate Holds<K, S>(sockets: map<K, S>, pairs: seq<(K, S)>) {
    && (forall i :: 0 <= i < |pairs| ==> pairs[i].0 in sockets && sockets[pairs[i].0] == pairs[i].1)
    && (forall k :: k in sockets ==> exists i :: 0 <= i < |pairs| && pairs[i].0 == k)
  }

  /** Taking the newest pair out of the list takes its key out of the map. */
  lemma DropNewest<K, S>(sockets: map<K, S>, pairs: seq<(K, S)>, init: seq<(K, S)>, last: (K, S))
    requires Holds(sockets, pairs) && Distinct(KeysOf(pairs)) && pairs == init + [last]
    ensures Holds(sockets - {last.0}, init) && Distinct(KeysOf(init)) && last.0 in sockets
  {
    var smaller := sockets - {last.0};
    assert KeysOf(init) == KeysOf(pairs)[..|init|];
    assert pairs[|init|] == last;
    forall k | k in smaller
      ensures exists i :: 0 <= i < |init| && init[i].0 == k
    {
      var i :| 0 <= i < |pairs| && pairs[i].0 == k;
      assert init[i].0 == k;
    }
    forall i | 0 <= i < |init|
      ensures init[i].0 in smaller && smaller[init[i].0] == init[i].1
    {
      assert KeysOf(pairs)[i] != KeysOf(pairs)[|init|] && pairs[i] == init[i];
    }
  }

  lemma {:induction false} DistinctKeysCount<K, S>(sockets: map<K, S>, pairs: seq<(K, S)>)
    requires Holds(sockets, pairs) && Distinct(KeysOf(pairs))
    ensures |sockets| == |pairs|
    decreases |pairs|
  {
    if pairs == [] {
      assert sockets == map[];
    } else {
      var init, last := pairs[..|pairs| - 1], pairs[|pairs| - 1];
      DropNewest(sockets, pairs, init, last);
      DistinctKeysCount(sockets - {last.0}, init);
      assert sockets.Keys == (sockets - {last.0}).Keys + {last.0};
    }
  }

  /** A miss appends its key; a full cache loses the oldest insertion, and nothing else. */
  lemma InsertSlidesWindow<K, S>(history: seq<(K, S)>, pair: (K, S))
    ensures Recent(history + [pair])
            == (if |history| >= CAPACITY then Recent(history)[1..] else Recent(history)) + [pair]
  {
  }

  lemma DropOldest<K, S>(sockets: map<K, S>, pairs: seq<(K, S)>)
    requires pairs != [] && Holds(sockets, pairs) && Distinct(KeysOf(pairs))
    ensures Holds(sockets - {pairs[0].0}, pairs[1..]) && Distinct(KeysOf(pairs[1..]))
  {
    assert KeysOf(pairs[1..]) == KeysOf(pairs)[1..];
    var smaller := sockets - {pairs[0].0};
    forall i | 0 <= i < |pairs[1..]|
      ensures pairs[1..][i].0 in smaller
    {
      assert KeysOf(pairs)[i + 1] != KeysOf(pairs)[0];
    }
    forall k | k in smaller
      ensures exists i :: 0 <= i < |pairs[1..]| && pairs[1..][i].0 == k
    {
      var i :| 0 <= i < |pairs| && pairs[i].0 == k;
      assert pairs[1..][i - 1].0 == k;
    }
  }

  lemma AddNewest<K, S>(sockets: map<K, S>, pairs: seq<(K, S)>, pair: (K, S))
    requires Holds(sockets, pairs) && Distinct(KeysOf(pairs)) && pair.0 !in sockets
    ensures Holds(sockets[pair.0 := pair.1], pairs + [pair]) && Distinct(KeysOf(pairs + [pair]))
  {
    assert KeysOf(pairs + [pair]) == KeysOf(pairs) + [pair.0];
    var larger := sockets[pair.0 := pair.1];
    forall k | k in larger
      ensures exists i :: 0 <= i < |pairs + [pair]| && (pairs + [pair])[i].0 == k
    {
      if k == pair.0 {
        assert (pairs + [pair])[|pairs|].0 == k;
      } else {
        var i :| 0 <= i < |pairs| && pairs[i].0 == k;
        assert (pairs + [pair])[i].0 == k;
      }
    }
  }

  class BoundedSocketCache<K(==), S> {
    var sockets: map<K, S>
    var insertionOrder: seq<K>
    /** Every socket ever created by a miss, with the key it was created for. */
    ghost var history: seq<(K, S)>

    /** The contents are exactly the most recent insertions, queued oldest first without duplicates. */
    ghost predicate Valid()
      reads this
    {
      && insertionOrder == KeysOf(Recent(history))
      && Distinct(insertionOrder)
      && Holds(sockets, Recent(history))
    }

    constructor ()
      ensures Valid() && history == []
    {
      sockets := map[];
      insertionOrder := [];
      history := [];
    }

    method Len() returns (n: nat)
      requires Valid()
      ensures n == |Recent(history)| <= CAPACITY
    {
      DistinctKeysCount(sockets, Recent(history));
      n := |sockets|;
    }

    /** `created` is what opening a socket for this key would give; it is consulted on a miss only. */
    method GetOrTryInsertWith<E>(key: K, created: Result<S, E>) returns (r: Result<S, E>)
      requires Valid()
      modifies this
      ensures Valid()
      // A returned socket was created for exactly this key.
      ensures r.Ok? ==> (key, r.value) in history
      ensures key in old(sockets) ==>
                r == Ok(old(sockets)[key]) && history == old(history) && sockets == old(sockets)
      ensures key !in old(sockets) ==> r == created
      ensures key !in old(sockets) && created.Err? ==>
                history == old(history) && sockets == old(sockets) && insertionOrder == old(insertionOrder)
      ensures key !in old(sockets) && created.Ok? ==> history == old(history) + [(key, created.value)]
    {
      if key in sockets {
        ghost var i :| 0 <= i < |Recent(history)| && Recent(history)[i].0 == key;
        assert (key, sockets[key]) in history;
        return Ok(sockets[key]);
      }
      if created.Err? {
        return created;
      }
      var socket := created.value;
      DistinctKeysCount(sockets, Recent(history));
      InsertSlidesWindow(history, (key, socket));
      ghost var window := Recent(history);
      if |sockets| == CAPACITY && |insertionOrder| > 0 {
        var evicted := insertionOrder[0];
        DropOldest(sockets, window);
        window := window[1..];
        insertionOrder := insertionOrder[1..];
        sockets := sockets - {evicted};
      }
      AddNewest(sockets, window, (key, socket));
      insertionOrder := insertionOrder + [key];
      sockets := sockets[key := socket];
      history := history + [(key, socket)];
      return Ok(socket);
    }
  }
}
