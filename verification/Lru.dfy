/** The order of the mapping cache as a function of the opens alone. */
module Lru {
  import opened Core

  /** keys without k. */
  function Remove<K(==,!new)>(keys: seq<K>, k: K): (r: seq<K>)
    ensures forall x :: x in r <==> x in keys && x != k
    ensures |r| <= |keys|
  {
    if keys == [] then []
    else
      var init := Remove(keys[..|keys| - 1], k);
      if keys[|keys| - 1] == k then init else init + [keys[|keys| - 1]]
  }

  /** The newest n keys. */
  function LastN<K(!new)>(keys: seq<K>, n: nat): (r: seq<K>)
    ensures |r| <= n && |r| <= |keys|
    ensures forall x :: x in r ==> x in keys
  {
    if |keys| <= n then keys else keys[|keys| - n..]
  }

  /** One cached open of k; ok is the daemon's answer, which a hit does not ask for. */
  function Access<K(==,!new)>(keys: seq<K>, k: K, ok: bool, capacity: nat): seq<K> {
    if k in keys then Remove(keys, k) + [k]
    else if ok then LastN(keys + [k], capacity)
    else keys
  }

  /** A cached open, and whether the daemon would grant it. */
  datatype Open<K> = Open(key: K, ok: bool)

  /** The cache after a run of opens that starts with these keys: with none, or with those that
      a clear has left. */
  function ReplayFrom<K(==,!new)>(start: seq<K>, opens: seq<Open<K>>, capacity: nat): seq<K> {
    if opens == [] then start
    else
      var last := opens[|opens| - 1];
      Access(ReplayFrom(start, opens[..|opens| - 1], capacity), last.key, last.ok, capacity)
  }

  function Replay<K(==,!new)>(opens: seq<Open<K>>, capacity: nat): seq<K> {
    ReplayFrom([], opens, capacity)
  }

  /** The starting keys and then the keys of the opens that succeeded, oldest first. */
  function SucceededFrom<K(==,!new)>(start: seq<K>, opens: seq<Open<K>>, capacity: nat): seq<K> {
    if opens == [] then start
    else
      var init, last := opens[..|opens| - 1], opens[|opens| - 1];
      SucceededFrom(start, init, capacity)
      + if last.key in ReplayFrom(start, init, capacity) || last.ok then [last.key] else []
  }

  function Succeeded<K(==,!new)>(opens: seq<Open<K>>, capacity: nat): seq<K> {
    SucceededFrom([], opens, capacity)
  }

  // ----- recency, defined without a cache -----

  /** k's last position in h. */
  function LastAt<K(==,!new)>(h: seq<K>, k: K): (i: nat)
    requires k in h
    ensures i < |h| && h[i] == k
    ensures forall j :: i < j < |h| ==> h[j] != k
  {
    if h[|h| - 1] == k then |h| - 1 else LastAt(h[..|h| - 1], k)
  }

  /** keys are the distinct members of h, in the order of their last occurrences. */
  ghost predicate ByLastAccess<K(!new)>(keys: seq<K>, h: seq<K>) {
    && (forall k :: k in keys <==> k in h)
    && Distinct(keys)
    && (forall i, j :: 0 <= i < j < |keys| ==> LastAt(h, keys[i]) < LastAt(h, keys[j]))
  }

  function Recency<K(==,!new)>(h: seq<K>): seq<K> {
    if h == [] then [] else Remove(Recency(h[..|h| - 1]), h[|h| - 1]) + [h[|h| - 1]]
  }

  lemma {:induction false} RemoveKeepsOrder<K(!new)>(keys: seq<K>, k: K, i: nat, j: nat)
    requires i < j < |Remove(keys, k)|
    ensures exists a, b :: 0 <= a < b < |keys| && keys[a] == Remove(keys, k)[i] && keys[b] == Remove(keys, k)[j]
    decreases |keys|
  {
    var init := keys[..|keys| - 1];
    var r := Remove(init, k);
    if j < |r| {
      RemoveKeepsOrder(init, k, i, j);
      var a, b :| 0 <= a < b < |init| && init[a] == r[i] && init[b] == r[j];
      assert keys[a] == r[i] && keys[b] == r[j];
    } else {
      assert r[i] in init;
      var a :| 0 <= a < |init| && init[a] == r[i];
      assert keys[a] == Remove(keys, k)[i] && keys[|keys| - 1] == Remove(keys, k)[j];
    }
  }

  /** Recency is the independent notion: distinct keys ordered by last access. */
  lemma {:induction false} RecencyIsByLastAccess<K(!new)>(h: seq<K>)
    ensures ByLastAccess(Recency(h), h)
  {
    if h != [] {
      var init, k := h[..|h| - 1], h[|h| - 1];
      var before, keys := Recency(init), Recency(h);
      RecencyIsByLastAccess(init);
      forall x ensures x in keys <==> x in h {
        if x in h && x != k {
          assert x in init;
        }
      }
      forall i, j | 0 <= i < j < |keys|
        ensures keys[i] != keys[j] && LastAt(h, keys[i]) < LastAt(h, keys[j])
      {
        assert keys[i] in Remove(before, k);
        if j < |keys| - 1 {
          RemoveKeepsOrder(before, k, i, j);
          assert keys[j] in Remove(before, k);
        }
      }
    }
  }

  // ----- the cache holds the newest of them -----

  lemma {:induction false} RemoveAbsent<K(!new)>(keys: seq<K>, k: K)
    requires k !in keys
    ensures Remove(keys, k) == keys
  {
    if keys != [] {
      RemoveAbsent(keys[..|keys| - 1], k);
    }
  }

  lemma {:induction false} RemoveConcat<K(!new)>(xs: seq<K>, ys: seq<K>, k: K)
    ensures Remove(xs + ys, k) == Remove(xs, k) + Remove(ys, k)
    decreases |ys|
  {
    if ys == [] {
      assert xs + ys == xs;
    } else {
      assert (xs + ys)[..|xs + ys| - 1] == xs + ys[..|ys| - 1];
      RemoveConcat(xs, ys[..|ys| - 1], k);
    }
  }

  lemma {:induction false} RemoveOne<K(!new)>(keys: seq<K>, k: K)
    requires Distinct(keys) && k in keys
    ensures |Remove(keys, k)| == |keys| - 1
  {
    var init := keys[..|keys| - 1];
    if keys[|keys| - 1] == k {
      RemoveAbsent(init, k);
    } else {
      RemoveOne(init, k);
    }
  }

  lemma {:induction false} RemoveAt<K(!new)>(keys: seq<K>, i: nat)
    requires Distinct(keys) && i < |keys|
    ensures Remove(keys, keys[i]) == keys[..i] + keys[i + 1..]
    decreases |keys|
  {
    var last := |keys| - 1;
    var init := keys[..last];
    if i == last {
      forall x | x in init ensures x != keys[i] {
        var j :| 0 <= j < |init| && init[j] == x;
        assert keys[j] != keys[i];
      }
      RemoveAbsent(init, keys[i]);
      assert keys[..i] + keys[i + 1..] == init;
    } else {
      RemoveAt(init, i);
      assert init[..i] == keys[..i] && init[i + 1..] + [keys[last]] == keys[i + 1..];
      assert init[..i] + init[i + 1..] + [keys[last]] == init[..i] + (init[i + 1..] + [keys[last]]);
    }
  }

  /** The newest n keys are the end of the list, n of them or all there are. */
  lemma LastNIsTheEnd<K(!new)>(keys: seq<K>, n: nat)
    ensures |LastN(keys, n)| == if |keys| < n then |keys| else n
    ensures forall i :: 0 <= i < |LastN(keys, n)| ==> LastN(keys, n)[i] == keys[|keys| - |LastN(keys, n)| + i]
  {
  }

  /** Cutting off what LastN drops. */
  lemma SplitLastN<K(!new)>(keys: seq<K>, n: nat) returns (front: seq<K>)
    ensures keys == front + LastN(keys, n)
    ensures front == [] || |LastN(keys, n)| == n
  {
    front := keys[..|keys| - |LastN(keys, n)|];
  }

  lemma LastNOfConcat<K(!new)>(front: seq<K>, tail: seq<K>, n: nat)
    requires |tail| <= n && (front == [] || |tail| == n)
    ensures LastN(front + tail, n) == tail
  {
  }

  lemma DistinctParts<K(!new)>(front: seq<K>, tail: seq<K>, k: K)
    requires Distinct(front + tail) && k in tail
    ensures k !in front && Distinct(tail)
  {
    var keys := front + tail;
    var j :| 0 <= j < |tail| && tail[j] == k;
    forall i | 0 <= i < |front| ensures front[i] != k {
      assert keys[i] != keys[|front| + j];
    }
    forall a, b | 0 <= a < b < |tail| ensures tail[a] != tail[b] {
      assert keys[|front| + a] != keys[|front| + b];
    }
  }

  /** Touching a key among the newest n commutes with taking the newest n. */
  lemma TouchInside<K(!new)>(keys: seq<K>, k: K, n: nat)
    requires Distinct(keys) && k in LastN(keys, n)
    ensures LastN(Remove(keys, k) + [k], n) == Remove(LastN(keys, n), k) + [k]
  {
    var tail := LastN(keys, n);
    var front := SplitLastN(keys, n);
    DistinctParts(front, tail, k);
    RemoveConcat(front, tail, k);
    RemoveAbsent(front, k);
    RemoveOne(tail, k);
    assert Remove(keys, k) + [k] == front + (Remove(tail, k) + [k]);
    LastNOfConcat(front, Remove(tail, k) + [k], n);
  }

  /** A key that is not among the newest n pushes the oldest of them out. */
  lemma PushOutside<K(!new)>(keys: seq<K>, k: K, n: nat)
    requires k !in LastN(keys, n)
    ensures LastN(Remove(keys, k) + [k], n) == LastN(LastN(keys, n) + [k], n)
  {
    var tail := LastN(keys, n);
    var front := SplitLastN(keys, n);
    RemoveConcat(front, tail, k);
    RemoveAbsent(tail, k);
    assert Remove(keys, k) + [k] == Remove(front, k) + (tail + [k]);
    if |tail| < n {
      assert Remove(keys, k) + [k] == tail + [k];
    } else {
      LastNIgnoresFront(Remove(front, k), tail + [k], n);
    }
  }

  lemma LastNIgnoresFront<K(!new)>(front: seq<K>, tail: seq<K>, n: nat)
    requires n <= |tail|
    ensures LastN(front + tail, n) == LastN(tail, n)
  {
  }

  lemma {:induction false} RecencyOfDistinct<K(!new)>(keys: seq<K>)
    requires Distinct(keys)
    ensures Recency(keys) == keys
  {
    if keys != [] {
      var init, last := keys[..|keys| - 1], keys[|keys| - 1];
      LastIsNew(keys);
      RecencyOfDistinct(init);
      RemoveAbsent(init, last);
    }
  }

  lemma LastIsNew<K(!new)>(keys: seq<K>)
    requires Distinct(keys) && keys != []
    ensures Distinct(keys[..|keys| - 1]) && keys[|keys| - 1] !in keys[..|keys| - 1]
  {
    var n := |keys| - 1;
    forall x | x in keys[..n] ensures x != keys[n] {
      var i :| 0 <= i < n && keys[..n][i] == x;
      assert keys[i] != keys[n];
    }
  }

  /** From any start within the capacity the cache is exactly the last `capacity` distinct keys
      among the starting ones and those opened successfully since, in last-access order. */
  lemma {:induction false} CacheIsMostRecentFrom<K(!new)>(start: seq<K>, opens: seq<Open<K>>, capacity: nat)
    requires Distinct(start) && |start| <= capacity
    ensures ReplayFrom(start, opens, capacity) == LastN(Recency(SucceededFrom(start, opens, capacity)), capacity)
  {
    if opens == [] {
      RecencyOfDistinct(start);
    } else {
      var init, last := opens[..|opens| - 1], opens[|opens| - 1];
      CacheIsMostRecentFrom(start, init, capacity);
      var h := SucceededFrom(start, init, capacity);
      var recent, cache := Recency(h), ReplayFrom(start, init, capacity);
      RecencyIsByLastAccess(h);
      assert (h + [last.key])[..|h|] == h;
      assert h + [] == h;
      if last.key in cache {
        TouchInside(recent, last.key, capacity);
      } else if last.ok {
        PushOutside(recent, last.key, capacity);
      }
    }
  }

  /** From the empty cache: the last `capacity` distinct successfully opened keys. */
  lemma CacheIsMostRecent<K(!new)>(opens: seq<Open<K>>, capacity: nat)
    ensures Replay(opens, capacity) == LastN(Recency(Succeeded(opens, capacity)), capacity)
  {
    CacheIsMostRecentFrom([], opens, capacity);
  }

  /** Inclusion: if all opens succeed, from any start that fits into the smaller cache, a hit at
      one capacity is a hit at every larger one. */
  lemma LargerCacheHitsToo<K(!new)>(start: seq<K>, opens: seq<Open<K>>, small: nat, large: nat, k: K)
    requires Distinct(start) && |start| <= small <= large && (forall i :: 0 <= i < |opens| ==> opens[i].ok)
    requires k in ReplayFrom(start, opens, small)
    ensures k in ReplayFrom(start, opens, large)
  {
    CacheIsMostRecentFrom(start, opens, small);
    CacheIsMostRecentFrom(start, opens, large);
    AllSucceed(start, opens, small, large);
    LastNGrows(Recency(SucceededFrom(start, opens, small)), small, large, k);
  }

  lemma LastNGrows<K(!new)>(keys: seq<K>, small: nat, large: nat, k: K)
    requires small <= large && k in LastN(keys, small)
    ensures k in LastN(keys, large)
  {
    var x, y := LastN(keys, small), LastN(keys, large);
    var i :| 0 <= i < |x| && x[i] == k;
    assert y[|y| - |x| + i] == x[i];
  }

  lemma {:induction false} AllSucceed<K(!new)>(start: seq<K>, opens: seq<Open<K>>, small: nat, large: nat)
    requires forall i :: 0 <= i < |opens| ==> opens[i].ok
    ensures SucceededFrom(start, opens, small) == SucceededFrom(start, opens, large)
  {
    if opens != [] {
      AllSucceed(start, opens[..|opens| - 1], small, large);
    }
  }
}
