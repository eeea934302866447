/** The client's mapping cache as sequential code (mstore/client.py). */
module ClientCache {
  import opened Core
  import opened Mapping
  import Lru

  /** _MappingState: its three fields stand for one OS mapping. */
  class MappingState {
    var m: Map

    constructor ()
      ensures m == FRESH
    {
      m := FRESH;
    }

    method AcquireLease() returns (ok: bool)
      modifies this
      ensures ok == Acquire(old(m)).Some?
      ensures m == if ok then Acquire(old(m)).value else old(m)
    {
      if m.closed {
        return false;
      }
      m := m.(leases := m.leases + 1);
      return true;
    }

    method ReleaseLease()
      modifies this
      ensures m == Release(old(m))
    {
      if m.leases > 0 {
        m := m.(leases := m.leases - 1);
      }
      MaybeCloseLocked();
    }

    method SetCachedFlag(cached: bool)
      modifies this
      ensures m == SetCached(old(m), cached)
    {
      m := m.(cached := cached);
      MaybeCloseLocked();
    }

    method MaybeCloseLocked()
      modifies this
      ensures m == MaybeClose(old(m))
    {
      if m.cached || m.leases != 0 || m.closed {
        return;
      }
      if m.exports > 0 {
        m := m.(blocked := true);
      } else {
        m := m.(closed := true);
      }
    }
  }

  /** SharedObject: a lease with a flag that makes close() idempotent. */
  class SharedObject {
    const state: MappingState
    var released: bool

    constructor (state: MappingState)
      ensures this.state == state && !released
    {
      this.state := state;
      this.released := false;
    }

    method Close()
      modifies this, state
      ensures released
      ensures state.m == if old(released) then old(state.m) else Release(old(state.m))
    {
      if released {
        return;
      }
      released := true;
      state.ReleaseLease();
    }
  }

  const MODES := ["read", "write"]

  predicate KnownMode(mode: string): (r: bool)
    ensures r <==> mode == "read" || mode == "write"
  {
    mode in MODES
  }

  /** The arguments of clear_cache; None matches everything. */
  datatype Filter = Filter(objectId: Option<string>, token: Option<string>, mode: Option<string>)

  predicate Matches(f: Filter, k: Key) {
    && (f.objectId.Some? ==> k.objectId == f.objectId.value)
    && (f.token.Some? ==> k.token == f.token.value)
    && (f.mode.Some? ==> k.mode == f.mode.value)
  }

  /** The entries that match a filter, or those that do not, in their order. */
  function Chosen(cache: seq<Cached>, f: Filter, matching: bool): seq<Cached> {
    Filtered(cache, (c: Cached) => Matches(f, c.key) == matching)
  }

  /** The keys that a clear leaves. */
  function Cleared(keys: seq<Key>, f: Filter): (r: seq<Key>)
    ensures forall k :: k in r <==> k in keys && !Matches(f, k)
  {
    Filtered(keys, (k: Key) => !Matches(f, k))
  }

  /** A clear leaves exactly the keys that differ from one of its filters, in their order; so
      without any filter it leaves none. */
  lemma ClearLeavesExactly(keys: seq<Key>, f: Filter)
    ensures forall k :: k in Cleared(keys, f) <==>
      && k in keys
      && (|| (f.objectId.Some? && k.objectId != f.objectId.value)
          || (f.token.Some? && k.token != f.token.value)
          || (f.mode.Some? && k.mode != f.mode.value))
    ensures f == Filter(None, None, None) ==> Cleared(keys, f) == []
    ensures forall xs, ys :: keys == xs + ys ==> Cleared(keys, f) == Cleared(xs, f) + Cleared(ys, f)
  {
    if f == Filter(None, None, None) && Cleared(keys, f) != [] {
      assert Cleared(keys, f)[0] in Cleared(keys, f);
    }
    forall xs, ys | keys == xs + ys ensures Cleared(keys, f) == Cleared(xs, f) + Cleared(ys, f) {
      FilteredSplits(xs, ys, (k: Key) => !Matches(f, k));
    }
  }

  datatype Cached = Cached(key: Key, state: MappingState)

  function CachedKeys(cache: seq<Cached>): (keys: seq<Key>)
    ensures |keys| == |cache|
    ensures forall i :: 0 <= i < |cache| ==> keys[i] == cache[i].key
  {
    seq(|cache|, i requires 0 <= i < |cache| => cache[i].key)
  }

  ghost function StatesOf(cache: seq<Cached>): set<MappingState> {
    set c | c in cache :: c.state
  }

  /** cache without entry i. */
  function Dropped(cache: seq<Cached>, i: nat): seq<Cached>
    requires i < |cache|
  {
    cache[..i] + cache[i + 1..]
  }

  /** No other entry has the key or the mapping of entry i. */
  ghost predicate Sole(cache: seq<Cached>, i: nat)
    requires i < |cache|
  {
    forall j :: 0 <= j < |cache| && j != i ==> cache[j].key != cache[i].key && cache[j].state != cache[i].state
  }

  /** Keys and mappings occur once. */
  ghost predicate Once(cache: seq<Cached>) {
    forall i :: 0 <= i < |cache| ==> Sole(cache, i)
  }

  lemma OnceDistinct(cache: seq<Cached>)
    requires Once(cache)
    ensures Distinct(CachedKeys(cache))
  {
    forall i, j | 0 <= i < j < |cache| ensures CachedKeys(cache)[i] != CachedKeys(cache)[j] {
      assert Sole(cache, i);
    }
  }

  /** Different entries have different keys and mappings. */
  lemma EntriesApart(cache: seq<Cached>, c: Cached, d: Cached)
    requires Once(cache) && c in cache && d in cache && c != d
    ensures c.state != d.state && c.key != d.key
  {
    var i :| 0 <= i < |cache| && cache[i] == c;
    assert Sole(cache, i);
  }

  /** Taking out one entry. */
  lemma DroppedKeys(cache: seq<Cached>, i: nat)
    requires Once(cache) && i < |cache|
    ensures CachedKeys(Dropped(cache, i)) == Lru.Remove(CachedKeys(cache), cache[i].key)
  {
    OnceDistinct(cache);
    Lru.RemoveAt(CachedKeys(cache), i);
    assert CachedKeys(Dropped(cache, i)) == CachedKeys(cache)[..i] + CachedKeys(cache)[i + 1..];
  }

  lemma DroppedOnce(cache: seq<Cached>, i: nat)
    requires Once(cache) && i < |cache|
    ensures Once(Dropped(cache, i))
  {
    var d := Dropped(cache, i);
    forall a | 0 <= a < |d| ensures Sole(d, a) {
      var x := if a < i then a else a + 1;
      assert Sole(cache, x);
      forall b | 0 <= b < |d| && b != a ensures d[b].key != d[a].key && d[b].state != d[a].state {
        var y := if b < i then b else b + 1;
        assert d[b] == cache[y];
      }
    }
  }

  lemma DroppedEntries(cache: seq<Cached>, i: nat)
    requires Once(cache) && i < |cache|
    ensures forall k :: 0 <= k < |Dropped(cache, i)| ==>
      Dropped(cache, i)[k].state != cache[i].state && Dropped(cache, i)[k].key != cache[i].key
    ensures forall k :: 0 <= k < |Dropped(cache, i)| ==> Dropped(cache, i)[k] in cache
    ensures forall c :: c in cache ==> (c in Dropped(cache, i) <==> c.state != cache[i].state)
  {
    var d := Dropped(cache, i);
    assert Sole(cache, i);
    forall k | 0 <= k < |d| ensures d[k] in cache && d[k].state != cache[i].state && d[k].key != cache[i].key {
      assert d[k] == cache[if k < i then k else k + 1];
    }
    forall c | c in cache ensures c in d <==> c.state != cache[i].state {
      var j :| 0 <= j < |cache| && cache[j] == c;
      if j < i {
        assert d[j] == c;
      } else if j > i {
        assert d[j - 1] == c;
      }
    }
  }

  /** Adding an entry at the new end. */
  lemma AppendedEntry(cache: seq<Cached>, c: Cached)
    requires Once(cache)
    requires forall i :: 0 <= i < |cache| ==> cache[i].key != c.key && cache[i].state != c.state
    ensures Once(cache + [c]) && CachedKeys(cache + [c]) == CachedKeys(cache) + [c.key]
  {
    var d := cache + [c];
    forall i | 0 <= i < |d| ensures Sole(d, i) {
      if i < |cache| {
        assert Sole(cache, i);
      }
    }
  }

  /** move_to_end. */
  lemma MovedEntry(cache: seq<Cached>, i: nat)
    requires Once(cache) && i < |cache|
    ensures var moved := Dropped(cache, i) + [cache[i]];
      && Once(moved) && CachedKeys(moved) == Lru.Remove(CachedKeys(cache), cache[i].key) + [cache[i].key]
      && (forall c :: c in moved <==> c in cache)
  {
    DroppedKeys(cache, i);
    DroppedOnce(cache, i);
    DroppedEntries(cache, i);
    AppendedEntry(Dropped(cache, i), cache[i]);
    forall c | c in cache ensures c in Dropped(cache, i) + [cache[i]] {
      var j :| 0 <= j < |cache| && cache[j] == c;
      if j != i {
        assert Sole(cache, i);
      }
    }
  }

  class Client {
    const capacity: nat
    var cache: seq<Cached>
    var hits: nat
    var misses: nat
    var evictions: nat

    ghost function States(): set<MappingState>
      reads this
    {
      StatesOf(cache)
    }

    /** Keys and mappings are cached once, within the capacity, and every cached mapping
        knows that it is. */
    ghost predicate Valid()
      reads this, States()
    {
      && |cache| <= capacity && Once(cache)
      && (forall c :: c in cache ==> c.state.m.cached)
    }

    /** No cached mapping has been closed behind the client's back. */
    ghost predicate AllOpen()
      reads this, States()
    {
      forall c :: c in cache ==> !c.state.m.closed
    }

    constructor (capacity: nat)
      ensures this.capacity == capacity && cache == [] && Valid() && AllOpen()
      ensures hits == misses == evictions == 0
    {
      this.capacity := capacity;
      cache := [];
      hits, misses, evictions := 0, 0, 0;
    }

    method Find(key: Key) returns (i: nat)
      ensures i <= |cache|
      ensures i < |cache| ==> cache[i].key == key
      ensures i == |cache| <==> key !in CachedKeys(cache)
    {
      i := 0;
      while i < |cache| && cache[i].key != key
        invariant i <= |cache|
        invariant forall j :: 0 <= j < i ==> cache[j].key != key
      {
        i := i + 1;
      }
      if i < |cache| {
        assert CachedKeys(cache)[i] == key;
      }
    }

    /** _cache_get: a live entry becomes the newest; a closed one is dropped. */
    method CacheGet(key: Key) returns (state: MappingState?)
      requires Valid()
      modifies this`cache, this`hits, this`misses, States()
      ensures Valid()
      ensures hits == old(hits) + (if state != null then 1 else 0)
      ensures misses == old(misses) + (if state != null then 0 else 1)
      ensures state != null ==> Cached(key, state) in old(cache) && Cached(key, state) in cache
      ensures state != null ==> key in old(CachedKeys(cache)) && !state.m.closed
      ensures state != null ==> CachedKeys(cache) == Lru.Remove(old(CachedKeys(cache)), key) + [key]
      ensures state == null ==> CachedKeys(cache) == Lru.Remove(old(CachedKeys(cache)), key)
      ensures old(AllOpen()) ==> AllOpen() && (state != null <==> key in old(CachedKeys(cache)))
      ensures FlagsFollow(old(cache)) && forall c :: c in cache ==> c in old(cache)
      ensures old(AllOpen()) ==> state != null || cache == old(cache)
      ensures state != null ==> forall c :: c in old(cache) ==> c in cache
    {
      var i := Find(key);
      if i == |cache| {
        Lru.RemoveAbsent(CachedKeys(cache), key);
        misses := misses + 1;
        return null;
      }
      var found := cache[i];
      if found.state.m.closed {
        DropAt(i);
        misses := misses + 1;
        return null;
      }
      MoveToEnd(i);
      hits := hits + 1;
      return found.state;
    }

    /** What became of the mappings of `before`: those that left the cache are flagged out
        (and closed, if nothing else holds them), the others are as they were. */
    twostate predicate FlagsFollow(before: seq<Cached>)
      reads this, StatesOf(before)
    {
      forall i :: 0 <= i < |before| ==>
        before[i].state.m == if before[i] in cache then old(before[i].state.m)
          else SetCached(old(before[i].state.m), false)
    }

    /** _cache_put: the new entry replaces the old one of its key, and the oldest entries go
        until the cache fits. */
    method CachePut(key: Key, state: MappingState)
      requires Valid() && forall c :: c in cache && c.state == state ==> c.key == key
      modifies this`cache, this`evictions, States(), state
      ensures Valid()
      ensures CachedKeys(cache) == if capacity == 0 then old(CachedKeys(cache))
        else Lru.LastN(Lru.Remove(old(CachedKeys(cache)), key) + [key], capacity)
      ensures FlagsFollow(old(cache))
      ensures capacity > 0 ==> cache[|cache| - 1] == Cached(key, state) && state.m == SetCached(old(state.m), true)
      ensures capacity == 0 ==> cache == old(cache) && state.m == old(state.m)
      ensures forall c :: c in cache ==> c == Cached(key, state) || c in old(cache)
      ensures evictions == old(evictions) + if capacity == 0 then 0
        else |Lru.Remove(old(CachedKeys(cache)), key)| + 1 - |cache|
    {
      if capacity > 0 {
        PutLive(key, state);
      }
    }

    method PutLive(key: Key, state: MappingState)
      requires Valid() && capacity > 0 && forall c :: c in cache && c.state == state ==> c.key == key
      modifies this`cache, this`evictions, States(), state
      ensures Valid()
      ensures CachedKeys(cache) == Lru.LastN(Lru.Remove(old(CachedKeys(cache)), key) + [key], capacity)
      ensures FlagsFollow(old(cache))
      ensures |cache| > 0 && cache[|cache| - 1] == Cached(key, state) && state.m == SetCached(old(state.m), true)
      ensures forall c :: c in cache ==> c == Cached(key, state) || c in old(cache)
      ensures evictions == old(evictions) + |Lru.Remove(old(CachedKeys(cache)), key)| + 1 - |cache|
    {
      Insert(key, state);
      Evict(old(cache), state);
    }

    /** The evictions, and what they do to the entries of `before`, from which all of the cache
        but its newest entry comes. */
    method Evict(ghost before: seq<Cached>, ghost newest: MappingState)
      requires capacity > 0 && |cache| > 0 && Once(cache) && (forall c :: c in cache ==> c.state.m.cached)
      requires Once(before) && newest !in StatesOf(cache[..|cache| - 1])
      requires forall i :: 0 <= i < |cache| - 1 ==> cache[i] in before
      modifies this`cache, this`evictions, StatesOf(before)
      ensures Valid() && 0 < |cache| && cache[|cache| - 1] == old(cache[|cache| - 1])
      ensures newest.m == old(newest.m)
      ensures CachedKeys(cache) == Lru.LastN(old(CachedKeys(cache)), capacity)
      ensures forall c :: c in cache ==> c in old(cache)
      ensures forall i :: 0 <= i < |before| ==>
        before[i].state.m ==
          if before[i] in old(cache) && before[i] !in cache then SetCached(old(before[i].state.m), false)
          else old(before[i].state.m)
      ensures evictions == old(evictions) + |old(cache)| - |cache|
    {
      ghost var all := cache;
      SameEntry(before, all);
      Settle(before);
      assert cache == Newest(all, capacity);
      NewestKeys(all, capacity);
      NewestEnd(all, capacity);
      OnceNewest(all, capacity);
    }

    /** The replacement, before any eviction. */
    method Insert(key: Key, state: MappingState)
      requires Valid() && forall c :: c in cache && c.state == state ==> c.key == key
      modifies this`cache, States(), state
      ensures |cache| > 0 && Once(cache) && cache[|cache| - 1] == Cached(key, state)
      ensures state !in StatesOf(cache[..|cache| - 1])
      ensures CachedKeys(cache) == Lru.Remove(old(CachedKeys(cache)), key) + [key]
      ensures FlagsFollow(old(cache)) && state.m == SetCached(old(state.m), true)
      ensures forall c :: c in cache ==> c.state.m.cached
      ensures forall i :: 0 <= i < |cache| - 1 ==> cache[i] in old(cache)
    {
      TakeOut(key, state);
      state.SetCachedFlag(true);
      AppendedEntry(cache, Cached(key, state));
      assert (cache + [Cached(key, state)])[..|cache|] == cache;
      cache := cache + [Cached(key, state)];
    }

    /** The pop of the old entry, whose mapping is flagged out unless it is the new one. */
    method TakeOut(key: Key, state: MappingState)
      requires Valid() && forall c :: c in cache && c.state == state ==> c.key == key
      modifies this`cache, States()
      ensures Valid() && key !in CachedKeys(cache) && state !in States()
      ensures forall i :: 0 <= i < |cache| ==> cache[i].key != key && cache[i].state != state && cache[i] in old(cache)
      ensures CachedKeys(cache) == Lru.Remove(old(CachedKeys(cache)), key)
      ensures forall i :: 0 <= i < |old(cache)| && old(cache)[i].state == state ==> state.m == old(state.m)
      ensures forall i :: 0 <= i < |old(cache)| && old(cache)[i].state != state ==>
        (old(cache)[i].state.m == if old(cache)[i] in cache then old(cache[i].state.m)
          else SetCached(old(cache[i].state.m), false))
    {
      var i := Find(key);
      OnlyHolder(cache, i, key, state);
      if i == |cache| {
        Lru.RemoveAbsent(CachedKeys(cache), key);
        ForeignKeys(cache, key);
      } else if cache[i].state != state {
        DropAt(i);
      } else {
        PopSame(i);
      }
    }

    /** The pop of an entry whose mapping stays flagged. */
    method PopSame(i: nat)
      requires Valid() && i < |cache|
      modifies this`cache
      ensures Valid() && CachedKeys(cache) == Lru.Remove(old(CachedKeys(cache)), old(cache[i].key))
      ensures forall k :: 0 <= k < |cache| ==>
        cache[k].key != old(cache[i].key) && cache[k].state != old(cache[i].state) && cache[k] in old(cache)
      ensures forall k :: 0 <= k < |old(cache)| && k != i ==> old(cache)[k] in cache
    {
      DroppedKeys(cache, i);
      DroppedOnce(cache, i);
      DroppedEntries(cache, i);
      assert Sole(cache, i);
      cache := Dropped(cache, i);
    }

    method MoveToEnd(i: nat)
      requires Valid() && i < |cache|
      modifies this`cache
      ensures Valid() && (old(AllOpen()) ==> AllOpen())
      ensures CachedKeys(cache) == Lru.Remove(old(CachedKeys(cache)), old(cache[i].key)) + [old(cache[i].key)]
      ensures forall c :: c in cache <==> c in old(cache)
    {
      MovedEntry(cache, i);
      cache := Dropped(cache, i) + [cache[i]];
    }

    /** The pop of entry i. */
    method DropAt(i: nat)
      requires Valid() && i < |cache|
      modifies this`cache, States()
      ensures Valid() && (old(AllOpen()) ==> AllOpen())
      ensures CachedKeys(cache) == Lru.Remove(old(CachedKeys(cache)), old(cache[i].key))
      ensures forall c :: c in cache ==> c.key != old(cache[i].key) && c in old(cache)
      ensures FlagsFollow(old(cache))
    {
      var dropped := cache[i].state;
      DroppedKeys(cache, i);
      DroppedOnce(cache, i);
      DroppedEntries(cache, i);
      cache := Dropped(cache, i);
      dropped.SetCachedFlag(false);
    }

    /** The eviction loop. */
    method Shrink()
      requires capacity > 0 && |cache| > 0 && Once(cache)
      modifies this`cache, this`evictions, StatesOf(cache[..|cache| - 1])
      ensures cache == Newest(old(cache), capacity)
      ensures evictions == old(evictions) + |old(cache)| - |cache|
      ensures forall i :: 0 <= i < |old(cache)| - |cache| ==>
        old(cache)[i].state.m == SetCached(old(cache[i].state.m), false)
      ensures forall i :: |old(cache)| - |cache| <= i < |old(cache)| ==> old(cache)[i].state.m == old(cache[i].state.m)
    {
      ghost var all, k := cache, 0;
      while |cache| > capacity
        invariant 0 <= k <= |all| && cache == all[k..] && evictions == old(evictions) + k
        invariant |all| <= capacity ==> k == 0
        invariant |all| > capacity ==> k <= |all| - capacity
        invariant forall i :: 0 <= i < k ==> all[i].state.m == SetCached(old(all[i].state.m), false)
        invariant forall i :: k <= i < |all| ==> all[i].state.m == old(all[i].state.m)
        decreases |cache|
      {
        var evicted := cache[0];
        assert evicted == all[k] && Sole(all, k) && all[..|all| - 1][k] == evicted;
        cache := cache[1..];
        evictions := evictions + 1;
        evicted.state.SetCachedFlag(false);
        k := k + 1;
      }
    }

    /** The eviction loop on a cache whose mappings are all flagged. */
    method ShrinkFlagged()
      requires capacity > 0 && |cache| > 0 && Once(cache) && forall c :: c in cache ==> c.state.m.cached
      modifies this`cache, this`evictions, StatesOf(cache[..|cache| - 1])
      ensures cache == Newest(old(cache), capacity)
      ensures (forall c :: c in cache ==> c.state.m.cached) && forall c :: c in cache ==> c in old(cache)
      ensures evictions == old(evictions) + |old(cache)| - |cache|
      ensures forall i :: 0 <= i < |old(cache)| - |cache| ==>
        old(cache)[i].state.m == SetCached(old(cache[i].state.m), false)
      ensures forall i :: |old(cache)| - |cache| <= i < |old(cache)| ==> old(cache)[i].state.m == old(cache[i].state.m)
    {
      ghost var all := cache;
      Shrink();
      forall c | c in cache ensures c in all && c.state.m.cached {
        var i :| 0 <= i < |cache| && cache[i] == c;
        assert all[|all| - |cache| + i] == c && c in all;
      }
    }

    /** The same, entry by entry of `before`. */
    method Settle(ghost before: seq<Cached>)
      requires capacity > 0 && |cache| > 0 && Once(cache)
      requires GoneForGood(before, cache) && forall c :: c in cache ==> c.state.m.cached
      modifies this`cache, this`evictions, StatesOf(cache[..|cache| - 1])
      ensures cache == Newest(old(cache), capacity)
      ensures evictions == old(evictions) + |old(cache)| - |cache|
      ensures (forall c :: c in cache ==> c.state.m.cached) && forall c :: c in cache ==> c in old(cache)
      ensures forall i :: 0 <= i < |before| ==>
        before[i].state.m ==
          if before[i] in old(cache) && before[i] !in cache then SetCached(old(before[i].state.m), false)
          else old(before[i].state.m)
    {
      ghost var all := cache;
      ShrinkFlagged();
      forall i | 0 <= i < |before|
        ensures before[i].state.m ==
          if before[i] in all && before[i] !in cache then SetCached(old(before[i].state.m), false)
          else old(before[i].state.m)
      {
        if before[i] in all {
          var j :| 0 <= j < |all| && all[j] == before[i];
          StaysIfNew(all, capacity, j);
        }
      }
    }

    /** clear_cache: drops the entries that match the filters; None for the ValueError. */
    method ClearCache(filter: Filter) returns (count: Option<nat>)
      requires Valid()
      modifies this`cache, States()
      ensures Valid() && (old(AllOpen()) ==> AllOpen())
      ensures count.None? <==> filter.mode.Some? && !KnownMode(filter.mode.value)
      ensures count.None? ==> cache == old(cache)
      ensures count.Some? ==> cache == Chosen(old(cache), filter, false) && count.value == |old(cache)| - |cache|
      ensures count.Some? ==> CachedKeys(cache) == Cleared(old(CachedKeys(cache)), filter)
      ensures FlagsFollow(old(cache))
    {
      if filter.mode.Some? && !KnownMode(filter.mode.value) {
        return None;
      }
      ghost var all := cache;
      var kept, gone := Partition(cache, filter);
      ChosenOnce(all, filter, false);
      ChosenOnce(all, filter, true);
      ChosenApart(all, filter);
      cache := kept;
      Uncache(gone);
      return Some(|gone|);
    }

    /** open: a cached hit needs no server; granted is the server's answer otherwise.
        None for an exception. */
    method Open(key: Key, useCache: bool, granted: bool) returns (lease: SharedObject?)
      requires Valid() && AllOpen()
      modifies this, States()
      ensures Valid() && AllOpen()
      ensures lease != null <==>
        KnownMode(key.mode) && ((useCache && key in old(CachedKeys(cache))) || granted)
      ensures lease != null ==> fresh(lease) && !lease.released && !lease.state.m.closed
      ensures lease != null && useCache && key in old(CachedKeys(cache)) ==> Cached(key, lease.state) in old(cache)
      ensures lease != null && !(useCache && key in old(CachedKeys(cache))) ==>
        fresh(lease.state) && lease.state.m == FRESH.(leases := 1, cached := useCache && capacity > 0)
      ensures hits == old(hits) + (if useCache && KnownMode(key.mode) && key in old(CachedKeys(cache)) then 1 else 0)
      ensures misses ==
        old(misses) + (if useCache && KnownMode(key.mode) && key !in old(CachedKeys(cache)) then 1 else 0)
      ensures CachedKeys(cache) ==
        if useCache && KnownMode(key.mode) then Lru.Access(old(CachedKeys(cache)), key, granted, capacity)
        else old(CachedKeys(cache))
      ensures forall c :: c in old(cache) && (lease == null || c.state != lease.state) ==>
        (c.state.m == if c in cache then old(c.state.m) else SetCached(old(c.state.m), false))
      ensures forall c :: c in old(cache) && lease != null && c.state == lease.state ==>
        c.state.m == old(c.state.m).(leases := old(c.state.m.leases) + 1)
    {
      if !KnownMode(key.mode) {
        return null;
      }
      if useCache {
        lease := OpenHit(key);
        if lease != null {
          return lease;
        }
        Lru.RemoveAbsent(CachedKeys(cache), key);
      }
      if !granted {
        return null;
      }
      lease := OpenMiss(key, useCache);
    }

    /** The cached half of open. */
    method OpenHit(key: Key) returns (lease: SharedObject?)
      requires Valid() && AllOpen()
      modifies this`cache, this`hits, this`misses, States()
      ensures Valid() && AllOpen()
      ensures lease != null <==> key in old(CachedKeys(cache))
      ensures hits == old(hits) + (if lease != null then 1 else 0)
      ensures misses == old(misses) + (if lease != null then 0 else 1)
      ensures lease == null ==> cache == old(cache) && forall c :: c in cache ==> c.state.m == old(c.state.m)
      ensures lease != null ==> fresh(lease) && !lease.released && !lease.state.m.closed
      ensures lease != null ==> Cached(key, lease.state) in old(cache)
      ensures lease != null ==> CachedKeys(cache) == Lru.Remove(old(CachedKeys(cache)), key) + [key]
      ensures lease != null ==> forall c :: c in old(cache) ==> c in cache
      ensures lease != null ==> forall c :: c in old(cache) ==>
        c.state.m == if c.state == lease.state then old(c.state.m).(leases := old(c.state.m.leases) + 1)
          else old(c.state.m)
    {
      var cached := CacheGet(key);
      if cached == null {
        return null;
      }
      lease := Lease(cached);
    }

    /** The half of open after the server's answer. */
    method OpenMiss(key: Key, useCache: bool) returns (lease: SharedObject)
      requires Valid() && AllOpen()
      modifies this`cache, this`evictions, States()
      ensures Valid() && AllOpen() && fresh(lease) && !lease.released
      ensures fresh(lease.state) && lease.state.m == FRESH.(leases := 1, cached := useCache && capacity > 0)
      ensures CachedKeys(cache) ==
        if !useCache || capacity == 0 then old(CachedKeys(cache))
        else Lru.LastN(Lru.Remove(old(CachedKeys(cache)), key) + [key], capacity)
      ensures FlagsFollow(old(cache))
    {
      var state := Attach(key, useCache);
      lease := Lease(state);
    }

    /** A new mapping for a granted open. */
    method Attach(key: Key, useCache: bool) returns (state: MappingState)
      requires Valid() && AllOpen()
      modifies this`cache, this`evictions, States()
      ensures Valid() && AllOpen() && fresh(state)
      ensures state.m == FRESH.(cached := useCache && capacity > 0)
      ensures CachedKeys(cache) ==
        if !useCache || capacity == 0 then old(CachedKeys(cache))
        else Lru.LastN(Lru.Remove(old(CachedKeys(cache)), key) + [key], capacity)
      ensures FlagsFollow(old(cache))
    {
      state := new MappingState();
      if useCache {
        CachePut(key, state);
      }
    }
  }

  method Lease(state: MappingState) returns (lease: SharedObject)
    requires !state.m.closed
    modifies state
    ensures fresh(lease) && !lease.released && lease.state == state
    ensures state.m == old(state.m).(leases := old(state.m.leases) + 1)
  {
    var ok := state.AcquireLease();
    lease := new SharedObject(state);
  }

  /** The entries that stay and those that go; the keys that stay in terms of keys alone. */
  method Partition(cache: seq<Cached>, filter: Filter) returns (kept: seq<Cached>, gone: seq<Cached>)
    ensures kept == Chosen(cache, filter, false) && gone == Chosen(cache, filter, true)
    ensures |kept| + |gone| == |cache| && CachedKeys(kept) == Cleared(CachedKeys(cache), filter)
  {
    kept, gone := Sift(cache, filter);
    ChosenKeys(cache, filter);
  }

  method Sift(cache: seq<Cached>, filter: Filter) returns (kept: seq<Cached>, gone: seq<Cached>)
    ensures kept == Chosen(cache, filter, false) && gone == Chosen(cache, filter, true)
    ensures |kept| + |gone| == |cache|
  {
    gone, kept := [], [];
    var i := 0;
    while i < |cache|
      invariant i <= |cache| && |gone| + |kept| == i
      invariant kept == Chosen(cache[..i], filter, false) && gone == Chosen(cache[..i], filter, true)
    {
      assert cache[..i + 1][..i] == cache[..i];
      if Matches(filter, cache[i].key) {
        gone := gone + [cache[i]];
      } else {
        kept := kept + [cache[i]];
      }
      i := i + 1;
    }
    assert cache[..i] == cache;
  }

  method Uncache(gone: seq<Cached>)
    requires Once(gone)
    modifies StatesOf(gone)
    ensures forall c :: c in gone ==> c.state.m == SetCached(old(c.state.m), false)
  {
    var i := 0;
    while i < |gone|
      invariant i <= |gone|
      invariant forall j :: 0 <= j < i ==> gone[j].state.m == SetCached(old(gone[j].state.m), false)
      invariant forall j :: i <= j < |gone| ==> gone[j].state.m == old(gone[j].state.m)
    {
      assert Sole(gone, i);
      gone[i].state.SetCachedFlag(false);
      i := i + 1;
    }
  }

  function Newest(cache: seq<Cached>, n: nat): seq<Cached> {
    if |cache| <= n then cache else cache[|cache| - n..]
  }

  lemma NewestEnd(cache: seq<Cached>, n: nat)
    requires n > 0 && cache != []
    ensures var newest := Newest(cache, n);
      0 < |newest| <= n && newest[|newest| - 1] == cache[|cache| - 1] && cache[|cache| - 1] in newest
  {
    assert Newest(cache, n)[|Newest(cache, n)| - 1] == cache[|cache| - 1];
  }

  lemma NewestKeys(cache: seq<Cached>, n: nat)
    ensures CachedKeys(Newest(cache, n)) == Lru.LastN(CachedKeys(cache), n)
  {
  }

  lemma OnceNewest(cache: seq<Cached>, n: nat)
    requires Once(cache)
    ensures Once(Newest(cache, n))
  {
    var d := |cache| - |Newest(cache, n)|;
    forall i | 0 <= i < |cache| - d ensures Sole(Newest(cache, n), i) {
      assert Sole(cache, d + i);
    }
  }

  lemma StaysIfNew(cache: seq<Cached>, n: nat, i: nat)
    requires Once(cache) && i < |cache|
    ensures cache[i] in Newest(cache, n) <==> i >= |cache| - |Newest(cache, n)|
  {
    var d := |cache| - |Newest(cache, n)|;
    assert Sole(cache, i);
    if i >= d {
      assert Newest(cache, n)[i - d] == cache[i];
    }
  }

  /** A mapping that is cached under no other key is cached at most at the place of this key. */
  lemma OnlyHolder(cache: seq<Cached>, i: nat, key: Key, state: MappingState)
    requires Once(cache) && i <= |cache| && (i < |cache| ==> cache[i].key == key)
    requires i == |cache| <==> key !in CachedKeys(cache)
    requires forall c :: c in cache && c.state == state ==> c.key == key
    ensures forall j :: 0 <= j < |cache| && cache[j].state == state ==> j == i
  {
    forall j | 0 <= j < |cache| && cache[j].state == state ensures j == i {
      assert cache[j] in cache && CachedKeys(cache)[j] == key;
      if i < |cache| {
        assert Sole(cache, i);
      }
    }
  }

  /** The entries of `before` that went took their mappings with them. */
  ghost predicate GoneForGood(before: seq<Cached>, after: seq<Cached>)
    requires |after| > 0
  {
    forall i :: 0 <= i < |before| && before[i] !in after ==> before[i].state !in StatesOf(after[..|after| - 1])
  }

  lemma SameEntry(before: seq<Cached>, after: seq<Cached>)
    requires Once(before) && |after| > 0
    requires forall i :: 0 <= i < |after| - 1 ==> after[i] in before
    ensures GoneForGood(before, after)
    ensures StatesOf(after[..|after| - 1]) <= StatesOf(before)
  {
    var older := after[..|after| - 1];
    forall i, j | 0 <= i < |before| && before[i] !in after && 0 <= j < |older|
      ensures before[i].state != older[j].state {
      assert older[j] == after[j];
      EntriesApart(before, before[i], older[j]);
    }
    forall j | 0 <= j < |older| ensures older[j].state in StatesOf(before) {
      assert older[j] == after[j] && after[j] in before;
    }
  }

  lemma OnceInit(cache: seq<Cached>)
    requires Once(cache) && cache != []
    ensures Once(cache[..|cache| - 1])
    ensures forall c :: c in cache[..|cache| - 1] ==>
      c.key != cache[|cache| - 1].key && c.state != cache[|cache| - 1].state
  {
    var n := |cache| - 1;
    assert Dropped(cache, n) == cache[..n];
    DroppedOnce(cache, n);
    DroppedEntries(cache, n);
  }

  lemma ChosenSubset(cache: seq<Cached>, f: Filter, matching: bool)
    ensures |Chosen(cache, f, matching)| <= |cache|
    ensures forall i :: 0 <= i < |Chosen(cache, f, matching)| ==>
      Chosen(cache, f, matching)[i] in cache && Matches(f, Chosen(cache, f, matching)[i].key) == matching
    ensures forall i :: 0 <= i < |cache| && Matches(f, cache[i].key) == matching ==>
      cache[i] in Chosen(cache, f, matching)
  {
  }

  lemma {:induction false} ChosenKeys(cache: seq<Cached>, f: Filter)
    ensures CachedKeys(Chosen(cache, f, false)) == Cleared(CachedKeys(cache), f)
  {
    if cache != [] {
      var init, last := cache[..|cache| - 1], cache[|cache| - 1];
      ChosenKeys(init, f);
      var tail := if Matches(f, last.key) then [] else [last];
      ChosenLast(cache, f);
      ClearedLast(CachedKeys(cache), f);
      assert CachedKeys(cache)[..|cache| - 1] == CachedKeys(init);
      KeysOfConcat(Chosen(init, f, false), tail);
    } else {
      assert CachedKeys(cache) == [];
    }
  }

  lemma KeysOfConcat(xs: seq<Cached>, ys: seq<Cached>)
    ensures CachedKeys(xs + ys) == CachedKeys(xs) + CachedKeys(ys)
  {
  }

  lemma ChosenLast(cache: seq<Cached>, f: Filter)
    requires cache != []
    ensures var init, last := cache[..|cache| - 1], cache[|cache| - 1];
      Chosen(cache, f, false) == Chosen(init, f, false) + if Matches(f, last.key) then [] else [last]
  {
  }

  lemma ClearedLast(keys: seq<Key>, f: Filter)
    requires keys != []
    ensures var init, last := keys[..|keys| - 1], keys[|keys| - 1];
      Cleared(keys, f) == Cleared(init, f) + if Matches(f, last) then [] else [last]
  {
  }

  lemma {:induction false} ChosenOnce(cache: seq<Cached>, f: Filter, matching: bool)
    requires Once(cache)
    ensures Once(Chosen(cache, f, matching))
  {
    if cache != [] {
      var init, last := cache[..|cache| - 1], cache[|cache| - 1];
      var chosen := Chosen(init, f, matching);
      OnceInit(cache);
      ChosenOnce(init, f, matching);
      ChosenSubset(init, f, matching);
      forall i | 0 <= i < |chosen| ensures chosen[i].key != last.key && chosen[i].state != last.state {
        assert chosen[i] in init;
      }
      AppendedEntry(chosen, last);
      assert chosen + [] == chosen;
    }
  }

  /** What stays shares no mapping with what goes. */
  lemma ChosenApart(cache: seq<Cached>, f: Filter)
    requires Once(cache)
    ensures var kept, gone := Chosen(cache, f, false), Chosen(cache, f, true);
      && (forall c :: c in cache ==> (c in gone <==> c !in kept))
      && (forall i :: 0 <= i < |kept| ==> kept[i] in cache && kept[i].state !in StatesOf(gone))
      && (forall c :: c in gone ==> c.state in StatesOf(cache))
  {
    var kept, gone := Chosen(cache, f, false), Chosen(cache, f, true);
    ChosenSubset(cache, f, false);
    ChosenSubset(cache, f, true);
    forall i, j | 0 <= i < |kept| && 0 <= j < |gone| ensures kept[i].state != gone[j].state {
      EntriesApart(cache, kept[i], gone[j]);
    }
  }

  lemma ForeignKeys(cache: seq<Cached>, key: Key)
    requires key !in CachedKeys(cache)
    ensures forall c :: c in cache ==> c.key != key
  {
    forall c | c in cache ensures c.key != key {
      var i :| 0 <= i < |cache| && cache[i] == c;
      assert CachedKeys(cache)[i] == c.key;
    }
  }
}
