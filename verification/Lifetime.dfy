/** The mapping cache under threads (mstore/client.py): every interleaving of open, close,
    eviction, replacement and clearing, at the granularity of the locks. */
module Lifetime {
  import opened Core
  import opened Mapping

  /** Where an open() or its SharedObject stands: before acquire, acquired, or acquire raised. */
  datatype Phase = Opening | Held | Failed

  /** A SharedObject. unshared: its mapping comes from a miss and has not been cached. entering:
      threads in close() that have read `_released` as false but not yet set it. leaving:
      threads that have set it but not yet called release. done: release has run. */
  datatype Obj = Obj(m: nat, key: Key, phase: Phase, unshared: bool, released: bool, entering: nat, leaving: nat,
      done: bool)

  datatype Entry = Entry(key: Key, m: nat)

  /** set_cached(flag) on mapping m, still to be run by the holder of the cache lock. */
  datatype Flag = Flag(m: nat, cached: bool)

  /** pending is what the current holder of the cache lock has yet to do; the lock is free
      when nothing is pending. The cache is ordered from oldest to newest.
      asked: opens whose request has been answered, but whose mapping has not been attached.
      Client.close is two critical sections: clearing says that the holder of the cache lock is
      a close, closers counts the closes between the two, shut is `_closed`. */
  datatype State = State(
    maps: map<nat, Map>, objs: map<nat, Obj>, cache: seq<Entry>, pending: seq<Flag>, capacity: nat,
    asked: map<nat, Key>, clearing: bool, closers: nat, shut: bool)

  datatype Action =
    | Ask(o: nat, key: Key)           // _request returns what an open or create asked for
    | Abandon(o: nat)                 // _open_mapping raises
    | Miss(o: nat, m: nat)            // a new mapping is attached; its SharedObject is about to be built
    | Hit(o: nat, i: nat)             // _cache_get finds entry i and moves it to the end
    | Stale(i: nat)                   // _cache_get finds entry i closed and drops it
    | Put(o: nat)                     // _cache_put of a missed mapping
    | SetFlag                         // the cache-lock holder runs one set_cached
    | Clear(keys: set<Key>)           // clear_cache, for the keys that its filters select
    | CloseClears                     // Client.close enters clear_cache
    | CloseMarks                      // Client.close sets _closed
    | AcquireStep(o: nat)             // SharedObject.__init__ reaches acquire
    | Enter(o: nat) | Mark(o: nat) | Leave(o: nat)  // the three steps of SharedObject.close
    | ExportStep(m: nat) | UnexportStep(m: nat)

  function Without(cache: seq<Entry>, keys: set<Key>): (r: seq<Entry>)
    ensures forall e :: e in r <==> e in cache && e.key !in keys
    ensures |r| <= |cache|
  {
    Filtered(cache, (e: Entry) => e.key !in keys)
  }

  function Selected(cache: seq<Entry>, keys: set<Key>): (r: seq<Entry>)
    ensures forall e :: e in r <==> e in cache && e.key in keys
  {
    Filtered(cache, (e: Entry) => e.key in keys)
  }

  function Flags(entries: seq<Entry>, cached: bool): (r: seq<Flag>)
    ensures |r| == |entries|
    ensures forall i :: 0 <= i < |r| ==> r[i] == Flag(entries[i].m, cached)
  {
    seq(|entries|, i requires 0 <= i < |entries| => Flag(entries[i].m, cached))
  }

  predicate Enabled(s: State, a: Action) {
    match a
    case Ask(o, _) => o !in s.objs && o !in s.asked && !s.shut
    case Abandon(o) => o in s.asked
    case Miss(o, m) => o in s.asked && o !in s.objs && m !in s.maps
    case Hit(o, i) =>
      s.pending == [] && o !in s.objs && o !in s.asked && i < |s.cache| && s.cache[i].m in s.maps &&
        !s.maps[s.cache[i].m].closed
    case Stale(i) =>
      s.pending == [] && i < |s.cache| && s.cache[i].m in s.maps && s.maps[s.cache[i].m].closed
    case Put(o) => s.pending == [] && s.capacity > 0 && o in s.objs && s.objs[o].phase == Opening && s.objs[o].unshared
    case SetFlag => s.pending != [] && s.pending[0].m in s.maps
    case Clear(_) => s.pending == []
    case CloseClears => s.pending == []
    case CloseMarks => s.closers > 0
    case AcquireStep(o) =>  // the opening thread has finished its own _cache_put
      o in s.objs && s.objs[o].phase == Opening && s.objs[o].m in s.maps && Flag(s.objs[o].m, true) !in s.pending
    case Enter(o) => o in s.objs && s.objs[o].phase != Opening && !s.objs[o].released
    case Mark(o) => o in s.objs && s.objs[o].entering > 0
    case Leave(o) => o in s.objs && s.objs[o].leaving > 0 && s.objs[o].m in s.maps
    case ExportStep(m) => m in s.maps && !s.maps[m].closed
    case UnexportStep(m) => m in s.maps
  }

  /** The cache after a put: the old entry of the key goes, the new one comes last, and the
      oldest entries beyond the capacity go. */
  function InsertInto(cache: seq<Entry>, e: Entry, capacity: nat): (r: (seq<Entry>, seq<Flag>)) {
    var all := Without(cache, {e.key}) + [e];
    var excess := if |all| > capacity then |all| - capacity else 0;
    (all[excess..], Flags(Selected(cache, {e.key}), false) + [Flag(e.m, true)] + Flags(all[..excess], false))
  }

  function Inserted(s: State, o: nat): (r: (seq<Entry>, seq<Flag>))
    requires Enabled(s, Put(o))
  {
    InsertInto(s.cache, Entry(s.objs[o].key, s.objs[o].m), s.capacity)
  }

  function Do(s: State, a: Action): State
    requires Enabled(s, a)
  {
    match a
    case Ask(o, key) => s.(asked := s.asked[o := key])
    case Abandon(o) => s.(asked := s.asked - {o})
    case Miss(o, m) =>
      s.(maps := s.maps[m := FRESH], objs := s.objs[o := Obj(m, s.asked[o], Opening, true, false, 0, 0, false)],
         asked := s.asked - {o})
    case Hit(o, i) =>
      var e := s.cache[i];
      s.(cache := s.cache[..i] + s.cache[i + 1..] + [e],
         objs := s.objs[o := Obj(e.m, e.key, Opening, false, false, 0, 0, false)])
    case Stale(i) =>
      s.(cache := s.cache[..i] + s.cache[i + 1..], pending := [Flag(s.cache[i].m, false)])
    case Put(o) =>
      var (cache, flags) := Inserted(s, o);
      s.(cache := cache, pending := flags, objs := s.objs[o := s.objs[o].(unshared := false)])
    case SetFlag =>
      var f := s.pending[0];
      var cleared := s.clearing && |s.pending| == 1;
      s.(maps := s.maps[f.m := SetCached(s.maps[f.m], f.cached)], pending := s.pending[1..],
         clearing := s.clearing && !cleared, closers := s.closers + if cleared then 1 else 0)
    case Clear(keys) =>
      s.(cache := Without(s.cache, keys), pending := Flags(Selected(s.cache, keys), false))
    case CloseClears =>
      s.(cache := [], pending := Flags(s.cache, false),
         clearing := s.cache != [], closers := s.closers + if s.cache == [] then 1 else 0)
    case CloseMarks => s.(shut := true, closers := s.closers - 1)
    case AcquireStep(o) =>
      var x := s.objs[o];
      var r := Acquire(s.maps[x.m]);
      if r.None? then s.(objs := s.objs[o := x.(phase := Failed)])
      else s.(maps := s.maps[x.m := r.value], objs := s.objs[o := x.(phase := Held)])
    case Enter(o) => s.(objs := s.objs[o := s.objs[o].(entering := s.objs[o].entering + 1)])
    case Mark(o) =>
      var x := s.objs[o];
      s.(objs := s.objs[o := x.(entering := x.entering - 1, released := true, leaving := x.leaving + 1)])
    case Leave(o) =>
      var x := s.objs[o];
      s.(maps := s.maps[x.m := Release(s.maps[x.m])], objs := s.objs[o := x.(leaving := x.leaving - 1, done := true)])
    case ExportStep(m) => s.(maps := s.maps[m := Export(s.maps[m])])
    case UnexportStep(m) => s.(maps := s.maps[m := Unexport(s.maps[m])])
  }

  /** No two threads race through close() of the same object. */
  predicate Serial(s: State, a: Action) {
    a.Enter? && a.o in s.objs ==> s.objs[a.o].entering == 0
  }

  predicate Run(s: State, acts: seq<Action>)
    decreases |acts|
  {
    acts == [] || (Enabled(s, acts[0]) && Run(Do(s, acts[0]), acts[1..]))
  }

  predicate SerialRun(s: State, acts: seq<Action>)
    decreases |acts|
  {
    acts == [] || (Enabled(s, acts[0]) && Serial(s, acts[0]) && SerialRun(Do(s, acts[0]), acts[1..]))
  }

  function After(s: State, acts: seq<Action>): State
    requires Run(s, acts)
    decreases |acts|
  {
    if acts == [] then s else After(Do(s, acts[0]), acts[1..])
  }

  function Start(capacity: nat): State {
    State(map[], map[], [], [], capacity, map[], false, 0, false)
  }

  lemma {:induction false} SerialRunsRun(s: State, acts: seq<Action>)
    requires SerialRun(s, acts)
    ensures Run(s, acts)
    decreases |acts|
  {
    if acts != [] {
      SerialRunsRun(Do(s, acts[0]), acts[1..]);
    }
  }

  // ----- the invariant -----

  /** The object has acquired its mapping and not given it back. */
  predicate Leases(x: Obj, m: nat) {
    x.m == m && x.phase == Held && !x.done
  }

  function Holders(objs: map<nat, Obj>, m: nat): set<nat> {
    set o | o in objs && Leases(objs[o], m)
  }

  predicate InCache(cache: seq<Entry>, m: nat) {
    exists i :: 0 <= i < |cache| && cache[i].m == m
  }

  predicate InPending(pending: seq<Flag>, m: nat) {
    exists i :: 0 <= i < |pending| && pending[i].m == m
  }

  /** Each mapping is cached at most once, each key leads to one mapping, and each mapping
      waits for at most one flag. */
  predicate NoDuplicates(cache: seq<Entry>, pending: seq<Flag>) {
    && (forall i, j :: 0 <= i < j < |cache| ==> cache[i].m != cache[j].m && cache[i].key != cache[j].key)
    && (forall i, j :: 0 <= i < j < |pending| ==> pending[i].m != pending[j].m)
  }

  /** Once all pending flags are set, exactly the cache's mappings are flagged. */
  predicate FlagsAgree(maps: map<nat, Map>, cache: seq<Entry>, pending: seq<Flag>) {
    && (forall i :: 0 <= i < |pending| ==> (pending[i].cached <==> InCache(cache, pending[i].m)))
    && (forall m :: m in maps && !InPending(pending, m) ==> (maps[m].cached <==> InCache(cache, m)))
  }

  /** A closed mapping has no lease and is out of the cache for good. */
  predicate ClosedIsFinal(maps: map<nat, Map>, cache: seq<Entry>) {
    forall m :: m in maps && maps[m].closed ==> maps[m].leases == 0 && !maps[m].cached && !InCache(cache, m)
  }

  predicate CacheSound(maps: map<nat, Map>, cache: seq<Entry>, pending: seq<Flag>) {
    && (forall i :: 0 <= i < |cache| ==> cache[i].m in maps)
    && (forall i :: 0 <= i < |pending| ==> pending[i].m in maps)
    && NoDuplicates(cache, pending) && FlagsAgree(maps, cache, pending) && ClosedIsFinal(maps, cache)
  }

  /** The lease count is the number of acquired, unreleased objects. */
  predicate LeasesCounted(maps: map<nat, Map>, objs: map<nat, Obj>) {
    forall m :: m in maps ==> maps[m].leases == |Holders(objs, m)|
  }

  /** Some open() has the mapping in hand and is about to acquire it. */
  predicate Arriving(objs: map<nat, Obj>, m: nat) {
    exists o :: o in objs && objs[o].m == m && objs[o].phase == Opening
  }

  /** A mapping that nothing owns is on its way to its first owner, or was closed, or a close
      met an exported buffer. */
  predicate NothingLeaks(maps: map<nat, Map>, objs: map<nat, Obj>) {
    && (forall m :: m in maps && maps[m].leases == 0 && !maps[m].cached ==>
          maps[m].closed || maps[m].blocked || Arriving(objs, m))
    && (forall m :: m in maps && (maps[m].blocked || maps[m].exports > 0) ==> maps[m].everExported)
  }

  /** close() runs at most once per object. */
  predicate CloseOnce(objs: map<nat, Obj>) {
    forall o :: o in objs ==> ClosesOnce(objs[o])
  }

  predicate ClosesOnce(x: Obj) {
    && x.entering + x.leaving + (if x.done then 1 else 0) <= 1
    && (x.released <==> x.leaving > 0 || x.done)
    && (x.phase == Opening ==> x.entering == 0 && !x.released)
  }

  predicate LeasesSound(maps: map<nat, Map>, objs: map<nat, Obj>) {
    && (forall o :: o in objs ==> objs[o].m in maps && (objs[o].phase == Failed ==> maps[objs[o].m].closed))
    && LeasesCounted(maps, objs) && NothingLeaks(maps, objs) && CloseOnce(objs)
  }

  /** A mapping that just arrived is known to its own open() only. */
  predicate FreshIsPrivate(maps: map<nat, Map>, objs: map<nat, Obj>, cache: seq<Entry>, pending: seq<Flag>) {
    forall o :: o in objs && Arrived(objs[o]) ==>
      && (forall q :: q in objs && q != o ==> objs[q].m != objs[o].m)
      && !InCache(cache, objs[o].m) && !InPending(pending, objs[o].m)
      && objs[o].m in maps && !maps[objs[o].m].closed
  }

  predicate Arrived(x: Obj) {
    x.unshared && x.phase == Opening
  }

  /** While a put is under way, only the opening thread knows the mapping, and has not
      acquired it. */
  predicate PutsArePrivate(objs: map<nat, Obj>, pending: seq<Flag>) {
    forall o :: o in objs && Flag(objs[o].m, true) in pending ==> objs[o].phase == Opening
  }

  predicate Inv(s: State) {
    && CacheSound(s.maps, s.cache, s.pending) && LeasesSound(s.maps, s.objs)
    && FreshIsPrivate(s.maps, s.objs, s.cache, s.pending) && PutsArePrivate(s.objs, s.pending)
  }

  lemma StartsSound(capacity: nat)
    ensures Inv(Start(capacity))
  {
  }

  // ----- every step keeps it -----

  lemma HoldersUnchanged(objs: map<nat, Obj>, o: nat, x: Obj)
    requires forall m :: (o in objs && Leases(objs[o], m)) <==> Leases(x, m)
    ensures forall m :: Holders(objs[o := x], m) == Holders(objs, m)
  {
  }

  lemma ArrivingKept(objs: map<nat, Obj>, o: nat, x: Obj)
    requires o in objs && objs[o].phase == Opening ==> x.phase == Opening && x.m == objs[o].m
    ensures forall m :: Arriving(objs, m) ==> Arriving(objs[o := x], m)
  {
    forall m | Arriving(objs, m) ensures Arriving(objs[o := x], m) {
      var q :| q in objs && objs[q].m == m && objs[q].phase == Opening;
      assert q in objs[o := x] && objs[o := x][q].m == m;
    }
  }

  /** Changing one object, but no lease, leaves the books in order. */
  lemma ObjUpdateSound(maps: map<nat, Map>, objs: map<nat, Obj>, o: nat, x: Obj)
    requires LeasesSound(maps, objs) && x.m in maps && ClosesOnce(x) && (x.phase == Failed ==> maps[x.m].closed)
    requires forall m :: (o in objs && Leases(objs[o], m)) <==> Leases(x, m)
    requires o in objs && objs[o].phase == Opening ==> x.phase == Opening && x.m == objs[o].m
    ensures LeasesSound(maps, objs[o := x])
  {
    HoldersUnchanged(objs, o, x);
    ArrivingKept(objs, o, x);
  }

  lemma MissSound(maps: map<nat, Map>, objs: map<nat, Obj>, o: nat, m: nat, key: Key)
    requires LeasesSound(maps, objs) && o !in objs && m !in maps
    ensures LeasesSound(maps[m := FRESH], objs[o := Obj(m, key, Opening, true, false, 0, 0, false)])
  {
    var x := Obj(m, key, Opening, true, false, 0, 0, false);
    HoldersUnchanged(objs, o, x);
    ArrivingKept(objs, o, x);
    assert Holders(objs, m) == {};
    assert objs[o := x][o].phase == Opening;
  }

  lemma MissKeepsInv(s: State, a: Action)
    requires Inv(s) && a.Miss? && Enabled(s, a)
    ensures Inv(Do(s, a))
  {
    MissSound(s.maps, s.objs, a.o, a.m, s.asked[a.o]);
    MissCacheSound(s.maps, s.cache, s.pending, a.m);
    MissStaysPrivate(s.maps, s.objs, s.cache, s.pending, a.o, a.m, s.asked[a.o]);
  }

  lemma MissCacheSound(maps: map<nat, Map>, cache: seq<Entry>, pending: seq<Flag>, m: nat)
    requires CacheSound(maps, cache, pending) && m !in maps
    ensures CacheSound(maps[m := FRESH], cache, pending) && !InCache(cache, m) && !InPending(pending, m)
  {
  }

  lemma MissStaysPrivate(maps: map<nat, Map>, objs: map<nat, Obj>, cache: seq<Entry>, pending: seq<Flag>, o: nat,
      m: nat, key: Key)
    requires FreshIsPrivate(maps, objs, cache, pending) && PutsArePrivate(objs, pending)
    requires o !in objs && m !in maps && !InCache(cache, m) && !InPending(pending, m)
    requires forall q :: q in objs ==> objs[q].m in maps
    ensures var objs' := objs[o := Obj(m, key, Opening, true, false, 0, 0, false)];
      FreshIsPrivate(maps[m := FRESH], objs', cache, pending) && PutsArePrivate(objs', pending)
  {
  }

  lemma HitKeepsInv(s: State, a: Action)
    requires Inv(s) && a.Hit? && Enabled(s, a)
    ensures Inv(Do(s, a))
  {
    HitSound(s, a.o, a.i);
    HitDoes(s, a.o, a.i);
  }

  lemma HitDoes(s: State, o: nat, i: nat)
    requires Enabled(s, Hit(o, i))
    ensures var e := s.cache[i];
      Do(s, Hit(o, i)) == s.(cache := s.cache[..i] + s.cache[i + 1..] + [e],
                             objs := s.objs[o := Obj(e.m, e.key, Opening, false, false, 0, 0, false)])
  {
  }

  lemma HitSound(s: State, o: nat, i: nat)
    requires Inv(s) && s.pending == [] && o !in s.objs && i < |s.cache|
    ensures var e := s.cache[i];
      Inv(s.(cache := s.cache[..i] + s.cache[i + 1..] + [e],
             objs := s.objs[o := Obj(e.m, e.key, Opening, false, false, 0, 0, false)]))
  {
    var e := s.cache[i];
    var x := Obj(e.m, e.key, Opening, false, false, 0, 0, false);
    ObjUpdateSound(s.maps, s.objs, o, x);
    MoveSound(s.maps, s.cache, i);
    HitStaysPrivate(s.maps, s.objs, s.cache, o, i, x);
  }

  lemma HitStaysPrivate(maps: map<nat, Map>, objs: map<nat, Obj>, cache: seq<Entry>, o: nat, i: nat, x: Obj)
    requires FreshIsPrivate(maps, objs, cache, []) && PutsArePrivate(objs, [])
    requires o !in objs && i < |cache| && x.m == cache[i].m && !Arrived(x)
    ensures var moved := cache[..i] + cache[i + 1..] + [cache[i]];
      FreshIsPrivate(maps, objs[o := x], moved, []) && PutsArePrivate(objs[o := x], [])
  {
    MovedToEnd(cache, i);
    assert InCache(cache, cache[i].m);
  }

  /** Moving an entry to the end keeps the set of cached mappings. */
  lemma MovedToEnd(cache: seq<Entry>, i: nat)
    requires i < |cache|
    ensures var moved := cache[..i] + cache[i + 1..] + [cache[i]];
      forall m :: InCache(moved, m) <==> InCache(cache, m)
  {
    var moved := cache[..i] + cache[i + 1..] + [cache[i]];
    forall m | InCache(cache, m) ensures InCache(moved, m) {
      var j :| 0 <= j < |cache| && cache[j].m == m;
      var k := if j < i then j else if j == i then |cache| - 1 else j - 1;
      assert moved[k].m == m;
    }
  }

  lemma MoveSound(maps: map<nat, Map>, cache: seq<Entry>, i: nat)
    requires CacheSound(maps, cache, []) && i < |cache|
    ensures CacheSound(maps, cache[..i] + cache[i + 1..] + [cache[i]], [])
  {
    MovedToEnd(cache, i);
  }

  /** The cache never holds a closed mapping while its lock is free: the branch of _cache_get
      that drops one is dead. */
  lemma StaleNeverHappens(s: State, i: nat)
    requires Inv(s)
    ensures !Enabled(s, Stale(i))
  {
    if i < |s.cache| {
      assert InCache(s.cache, s.cache[i].m);
    }
  }

  lemma EnterKeepsInv(s: State, o: nat)
    requires Inv(s) && Enabled(s, Enter(o)) && Serial(s, Enter(o))
    ensures Inv(Do(s, Enter(o)))
  {
    var t := s.(objs := s.objs[o := s.objs[o].(entering := s.objs[o].entering + 1)]);
    assert Do(s, Enter(o)) == t;
    assert Inv(t) by {
      EnterSound(s, o);
    }
  }

  lemma EnterSound(s: State, o: nat)
    requires Inv(s) && o in s.objs && s.objs[o].entering == 0 && !s.objs[o].released && s.objs[o].phase != Opening
    ensures Inv(s.(objs := s.objs[o := s.objs[o].(entering := s.objs[o].entering + 1)]))
  {
    Entered(s.objs, o);
    ClosingSound(s, o, s.objs[o].(entering := s.objs[o].entering + 1));
  }

  lemma Entered(objs: map<nat, Obj>, o: nat)
    requires CloseOnce(objs) && o in objs && objs[o].entering == 0 && !objs[o].released && objs[o].phase != Opening
    ensures ClosesOnce(objs[o].(entering := objs[o].entering + 1))
  {
  }

  lemma MarkKeepsInv(s: State, o: nat)
    requires Inv(s) && Enabled(s, Mark(o))
    ensures Inv(Do(s, Mark(o)))
  {
    MarkSound(s, o);
    MarkDoes(s, o);
  }

  lemma MarkDoes(s: State, o: nat)
    requires Enabled(s, Mark(o))
    ensures var x := s.objs[o];
      Do(s, Mark(o)) ==
        s.(objs := s.objs[o := x.(entering := x.entering - 1, released := true, leaving := x.leaving + 1)])
  {
  }

  lemma MarkSound(s: State, o: nat)
    requires Inv(s) && o in s.objs && s.objs[o].entering > 0
    ensures var x := s.objs[o];
      Inv(s.(objs := s.objs[o := x.(entering := x.entering - 1, released := true, leaving := x.leaving + 1)]))
  {
    var x := s.objs[o];
    var y := x.(entering := x.entering - 1, released := true, leaving := x.leaving + 1);
    assert ClosesOnce(y) && x.phase != Opening by {
      PastTheCheck(s.objs, o);
    }
    ClosingSound(s, o, y);
  }

  lemma PastTheCheck(objs: map<nat, Obj>, o: nat)
    requires CloseOnce(objs) && o in objs && objs[o].entering > 0
    ensures objs[o].phase != Opening && objs[o].entering == 1 && objs[o].leaving == 0
    ensures ClosesOnce(objs[o].(entering := objs[o].entering - 1, released := true, leaving := objs[o].leaving + 1))
  {
    assert ClosesOnce(objs[o]);
  }

  /** A step inside close() changes nothing but the object's own progress. */
  lemma ClosingSound(s: State, o: nat, x: Obj)
    requires Inv(s) && o in s.objs && s.objs[o].phase != Opening && ClosesOnce(x)
    requires x == s.objs[o].(entering := x.entering, released := x.released, leaving := x.leaving)
    ensures Inv(s.(objs := s.objs[o := x]))
  {
    ObjUpdateSound(s.maps, s.objs, o, x);
    ClosingStaysPrivate(s.maps, s.objs, s.cache, s.pending, o, x);
  }

  lemma ClosingStaysPrivate(maps: map<nat, Map>, objs: map<nat, Obj>, cache: seq<Entry>, pending: seq<Flag>, o: nat,
      x: Obj)
    requires FreshIsPrivate(maps, objs, cache, pending) && PutsArePrivate(objs, pending) && o in objs
    requires objs[o].phase != Opening && x.m == objs[o].m && x.phase == objs[o].phase
    ensures FreshIsPrivate(maps, objs[o := x], cache, pending) && PutsArePrivate(objs[o := x], pending)
  {
    LeavesPrivacy(maps, objs, cache, pending, o, x);
  }

  // set_cached, acquire and release

  /** Privacy survives any change of a mapping that closes nothing just arrived, and any
      change of an object that has left the opening phase. */
  lemma StaysPrivate(maps: map<nat, Map>, objs: map<nat, Obj>, cache: seq<Entry>, pending: seq<Flag>, m: nat, y: Map)
    requires FreshIsPrivate(maps, objs, cache, pending)
    requires y.closed ==> m in maps && (maps[m].closed || forall o :: o in objs && Arrived(objs[o]) ==> objs[o].m != m)
    ensures FreshIsPrivate(maps[m := y], objs, cache, pending)
  {
  }

  lemma LeavesPrivacy(maps: map<nat, Map>, objs: map<nat, Obj>, cache: seq<Entry>, pending: seq<Flag>, o: nat, x: Obj)
    requires FreshIsPrivate(maps, objs, cache, pending) && o in objs && x.m == objs[o].m && !Arrived(x)
    ensures FreshIsPrivate(maps, objs[o := x], cache, pending)
  {
  }

  lemma SetFlagKeepsInv(s: State, a: Action)
    requires Inv(s) && a.SetFlag? && Enabled(s, a)
    ensures Inv(Do(s, a))
  {
    var s' := Do(s, a);
    FlagStepSound(s, s');
    FlagDoes(s, a);
  }

  lemma FlagDoes(s: State, a: Action)
    requires a.SetFlag? && Enabled(s, a)
    ensures var f, s' := s.pending[0], Do(s, a);
      s'.maps == s.maps[f.m := SetCached(s.maps[f.m], f.cached)] && s'.pending == s.pending[1..] &&
      s'.objs == s.objs && s'.cache == s.cache
  {
  }

  lemma FlagStepSound(s: State, s': State)
    requires Inv(s) && s.pending != []
    ensures var f := s.pending[0];
      (&& s'.maps == s.maps[f.m := SetCached(s.maps[f.m], f.cached)] && s'.pending == s.pending[1..]
       && s'.objs == s.objs && s'.cache == s.cache) ==> Inv(s')
  {
    var f := s.pending[0];
    var y := SetCached(s.maps[f.m], f.cached);
    FlagSound(s.maps, s.cache, s.pending);
    assert InPending(s.pending, f.m);
    MapUpdateSound(s.maps, s.objs, f.m, y);
    assert forall m :: InPending(s.pending[1..], m) ==> InPending(s.pending, m);
    StaysPrivate(s.maps, s.objs, s.cache, s.pending, f.m, y);
  }

  lemma FlagSound(maps: map<nat, Map>, cache: seq<Entry>, pending: seq<Flag>)
    requires CacheSound(maps, cache, pending) && pending != []
    ensures var f := pending[0]; CacheSound(maps[f.m := SetCached(maps[f.m], f.cached)], cache, pending[1..])
  {
    var f := pending[0];
    forall m | InPending(pending, m) && m != f.m ensures InPending(pending[1..], m) {
      var i :| 0 <= i < |pending| && pending[i].m == m;
      assert pending[1..][i - 1].m == m;
    }
  }

  /** Changing a mapping, but neither its lease count nor its safety from leaking. */
  lemma MapUpdateSound(maps: map<nat, Map>, objs: map<nat, Obj>, m: nat, y: Map)
    requires LeasesSound(maps, objs) && m in maps && y.leases == maps[m].leases
    requires maps[m].closed ==> y.closed
    requires y.leases == 0 && !y.cached ==> y.closed || y.blocked || Arriving(objs, m)
    requires y.blocked || y.exports > 0 ==> y.everExported
    ensures LeasesSound(maps[m := y], objs)
  {
  }

  /** Changing a mapping, but not its flag; closing only what is out of the cache. */
  lemma UnflaggedUpdateSound(maps: map<nat, Map>, cache: seq<Entry>, pending: seq<Flag>, m: nat, y: Map)
    requires CacheSound(maps, cache, pending) && m in maps && y.cached == maps[m].cached
    requires y.closed ==> y.leases == 0 && !y.cached && !InCache(cache, m)
    ensures CacheSound(maps[m := y], cache, pending)
  {
  }

  lemma {:induction false} HolderJoins(objs: map<nat, Obj>, o: nat, x: Obj)
    requires o in objs && x.m == objs[o].m && !Leases(objs[o], x.m) && Leases(x, x.m)
    ensures |Holders(objs[o := x], x.m)| == |Holders(objs, x.m)| + 1
    ensures forall m :: m != x.m ==> Holders(objs[o := x], m) == Holders(objs, m)
  {
    assert Holders(objs[o := x], x.m) == Holders(objs, x.m) + {o};
  }

  lemma {:induction false} HolderLeaves(objs: map<nat, Obj>, o: nat, x: Obj)
    requires o in objs && x.m == objs[o].m && Leases(objs[o], x.m) && !Leases(x, x.m)
    ensures |Holders(objs[o := x], x.m)| == |Holders(objs, x.m)| - 1
    ensures forall m :: m != x.m ==> Holders(objs[o := x], m) == Holders(objs, m)
  {
    assert Holders(objs, x.m) == Holders(objs[o := x], x.m) + {o};
  }

  lemma AcquireSound(maps: map<nat, Map>, objs: map<nat, Obj>, o: nat)
    requires LeasesSound(maps, objs) && o in objs && objs[o].phase == Opening && !maps[objs[o].m].closed
    ensures LeasesSound(maps[objs[o].m := Acquire(maps[objs[o].m]).value], objs[o := objs[o].(phase := Held)])
  {
    HolderJoins(objs, o, objs[o].(phase := Held));
    AcquireLeaksNothing(maps, objs, o);
  }

  lemma AcquireLeaksNothing(maps: map<nat, Map>, objs: map<nat, Obj>, o: nat)
    requires NothingLeaks(maps, objs) && o in objs && objs[o].m in maps && !maps[objs[o].m].closed
    ensures NothingLeaks(maps[objs[o].m := Acquire(maps[objs[o].m]).value], objs[o := objs[o].(phase := Held)])
  {
    ArrivingElsewhere(objs, o, objs[o].(phase := Held));
  }

  lemma ArrivingElsewhere(objs: map<nat, Obj>, o: nat, x: Obj)
    requires o in objs
    ensures forall m :: m != objs[o].m && Arriving(objs, m) ==> Arriving(objs[o := x], m)
  {
    forall m | m != objs[o].m && Arriving(objs, m) ensures Arriving(objs[o := x], m) {
      var q :| q in objs && objs[q].m == m && objs[q].phase == Opening;
      assert objs[o := x][q] == objs[q];
    }
  }

  lemma FailSound(maps: map<nat, Map>, objs: map<nat, Obj>, o: nat)
    requires LeasesSound(maps, objs) && o in objs && objs[o].phase == Opening && maps[objs[o].m].closed
    ensures LeasesSound(maps, objs[o := objs[o].(phase := Failed)])
  {
    HoldersUnchanged(objs, o, objs[o].(phase := Failed));
    ArrivingElsewhere(objs, o, objs[o].(phase := Failed));
  }

  lemma AcquireKeepsInv(s: State, a: Action)
    requires Inv(s) && a.AcquireStep? && Enabled(s, a)
    ensures Inv(Do(s, a))
  {
    var x := s.objs[a.o];
    if s.maps[x.m].closed {
      FailSound(s.maps, s.objs, a.o);
      LeavesPrivacy(s.maps, s.objs, s.cache, s.pending, a.o, x.(phase := Failed));
    } else {
      var y := Acquire(s.maps[x.m]).value;
      AcquireSound(s.maps, s.objs, a.o);
      UnflaggedUpdateSound(s.maps, s.cache, s.pending, x.m, y);
      LeavesPrivacy(s.maps, s.objs, s.cache, s.pending, a.o, x.(phase := Held));
      StaysPrivate(s.maps, s.objs[a.o := x.(phase := Held)], s.cache, s.pending, x.m, y);
    }
  }

  function Left(x: Obj): Obj
    requires x.leaving > 0
  {
    x.(leaving := x.leaving - 1, done := true)
  }

  lemma LeaveSound(maps: map<nat, Map>, objs: map<nat, Obj>, o: nat)
    requires LeasesSound(maps, objs) && o in objs && objs[o].leaving > 0
    requires maps[objs[o].m].closed ==> maps[objs[o].m].leases == 0
    requires objs[o].phase != Opening && (objs[o].phase == Held ==> !objs[o].done)
    ensures LeasesSound(maps[objs[o].m := Release(maps[objs[o].m])], objs[o := Left(objs[o])])
  {
    LeaveCounts(maps, objs, o);
    LeaveLeaksNothing(maps, objs, o);
    LeaveClosesOnce(objs, o);
  }

  lemma LeaveLeaksNothing(maps: map<nat, Map>, objs: map<nat, Obj>, o: nat)
    requires NothingLeaks(maps, objs) && o in objs && objs[o].leaving > 0 && objs[o].phase != Opening
    requires objs[o].m in maps
    ensures NothingLeaks(maps[objs[o].m := Release(maps[objs[o].m])], objs[o := Left(objs[o])])
  {
    ArrivingKept(objs, o, Left(objs[o]));
  }

  lemma LeaveClosesOnce(objs: map<nat, Obj>, o: nat)
    requires CloseOnce(objs) && o in objs && objs[o].leaving > 0
    ensures CloseOnce(objs[o := Left(objs[o])])
  {
    assert ClosesOnce(objs[o]);
  }

  lemma LeaveCounts(maps: map<nat, Map>, objs: map<nat, Obj>, o: nat)
    requires LeasesCounted(maps, objs) && o in objs && objs[o].m in maps && objs[o].leaving > 0
    requires maps[objs[o].m].closed ==> maps[objs[o].m].leases == 0
    requires objs[o].phase != Opening && (objs[o].phase == Held ==> !objs[o].done)
    requires objs[o].phase == Failed ==> maps[objs[o].m].closed
    ensures LeasesCounted(maps[objs[o].m := Release(maps[objs[o].m])], objs[o := Left(objs[o])])
  {
    if objs[o].phase == Held {
      HolderLeaves(objs, o, Left(objs[o]));
    } else {
      HoldersUnchanged(objs, o, Left(objs[o]));
    }
  }

  /** A release closes only a mapping that is out of the cache: a flag that is still to be
      set belongs to a put, and then nobody but the putter knows the mapping. */
  lemma NotCachedIfClosing(maps: map<nat, Map>, objs: map<nat, Obj>, cache: seq<Entry>, pending: seq<Flag>, o: nat)
    requires CacheSound(maps, cache, pending) && PutsArePrivate(objs, pending)
    requires o in objs && objs[o].phase != Opening && objs[o].m in maps
    ensures Release(maps[objs[o].m]).closed ==> !InCache(cache, objs[o].m)
  {
    var m := objs[o].m;
    if InPending(pending, m) {
      var i :| 0 <= i < |pending| && pending[i].m == m;
      assert pending[i] in pending && pending[i] == Flag(m, pending[i].cached);
    }
  }

  lemma LeaveKeepsInv(s: State, a: Action)
    requires Inv(s) && a.Leave? && Enabled(s, a)
    ensures Inv(Do(s, a))
  {
    var x := s.objs[a.o];
    var y := Release(s.maps[x.m]);
    LeaveSound(s.maps, s.objs, a.o);
    NotCachedIfClosing(s.maps, s.objs, s.cache, s.pending, a.o);
    UnflaggedUpdateSound(s.maps, s.cache, s.pending, x.m, y);
    LeavesPrivacy(s.maps, s.objs, s.cache, s.pending, a.o, Left(x));
    StaysPrivate(s.maps, s.objs[a.o := Left(x)], s.cache, s.pending, x.m, y);
  }

  lemma ExportKeepsInv(s: State, a: Action)
    requires Inv(s) && a.ExportStep? && Enabled(s, a)
    ensures Inv(Do(s, a))
  {
    MapUpdateSound(s.maps, s.objs, a.m, Export(s.maps[a.m]));
    UnflaggedUpdateSound(s.maps, s.cache, s.pending, a.m, Export(s.maps[a.m]));
    StaysPrivate(s.maps, s.objs, s.cache, s.pending, a.m, Export(s.maps[a.m]));
  }

  lemma UnexportKeepsInv(s: State, a: Action)
    requires Inv(s) && a.UnexportStep? && Enabled(s, a)
    ensures Inv(Do(s, a))
  {
    MapUpdateSound(s.maps, s.objs, a.m, Unexport(s.maps[a.m]));
    UnflaggedUpdateSound(s.maps, s.cache, s.pending, a.m, Unexport(s.maps[a.m]));
    StaysPrivate(s.maps, s.objs, s.cache, s.pending, a.m, Unexport(s.maps[a.m]));
  }

  // the cache operations

  lemma {:induction false} FilterKeepsDistinct(cache: seq<Entry>, keep: Entry -> bool)
    requires NoDuplicates(cache, [])
    ensures NoDuplicates(Filtered(cache, keep), [])
  {
    if cache != [] {
      var init, last := cache[..|cache| - 1], cache[|cache| - 1];
      var r := Filtered(init, keep);
      FilterKeepsDistinct(init, keep);
      forall i | 0 <= i < |r| ensures r[i].m != last.m && r[i].key != last.key {
        assert r[i] in init;
      }
    }
  }

  lemma SplitKeepsDistinct(cache: seq<Entry>, keys: set<Key>)
    requires NoDuplicates(cache, [])
    ensures NoDuplicates(Without(cache, keys), []) && NoDuplicates(Selected(cache, keys), [])
  {
    FilterKeepsDistinct(cache, (e: Entry) => e.key !in keys);
    FilterKeepsDistinct(cache, (e: Entry) => e.key in keys);
  }

  /** In a cache without duplicates different entries have different mappings. */
  lemma DistinctMaps(cache: seq<Entry>, x: Entry, y: Entry)
    requires NoDuplicates(cache, []) && x in cache && y in cache && x != y
    ensures x.m != y.m
  {
  }

  lemma InCacheByEntry(cache: seq<Entry>, m: nat)
    ensures InCache(cache, m) <==> exists e :: e in cache && e.m == m
  {
    if InCache(cache, m) {
      var i :| 0 <= i < |cache| && cache[i].m == m;
      assert cache[i] in cache;
    }
  }

  /** Every cached mapping is kept or gets a flag, and none both. */
  lemma DropCovers(cache: seq<Entry>, keys: set<Key>)
    requires NoDuplicates(cache, [])
    ensures var kept, flags := Without(cache, keys), Flags(Selected(cache, keys), false);
      && (forall m :: InCache(cache, m) <==> InCache(kept, m) || InPending(flags, m))
      && (forall i :: 0 <= i < |flags| ==> !InCache(kept, flags[i].m))
  {
    var kept, dropped := Without(cache, keys), Selected(cache, keys);
    var flags := Flags(dropped, false);
    forall i | 0 <= i < |flags| ensures !InCache(kept, flags[i].m) && InCache(cache, flags[i].m) {
      assert dropped[i] in cache;
      InCacheByEntry(kept, flags[i].m);
      InCacheByEntry(cache, flags[i].m);
      forall e | e in kept ensures e.m != dropped[i].m {
        DistinctMaps(cache, e, dropped[i]);
      }
    }
    forall m ensures InCache(cache, m) ==> InCache(kept, m) || InPending(flags, m) {
      InCacheByEntry(cache, m);
      if e :| e in cache && e.m == m {
        if e in kept {
          InCacheByEntry(kept, m);
        } else {
          var i :| 0 <= i < |dropped| && dropped[i] == e;
          assert flags[i].m == m;
        }
      }
    }
    forall m ensures InCache(kept, m) ==> InCache(cache, m) {
      InCacheByEntry(cache, m);
      InCacheByEntry(kept, m);
    }
  }

  /** Dropping entries and lining up their flags. */
  lemma DropSound(maps: map<nat, Map>, cache: seq<Entry>, keys: set<Key>)
    requires CacheSound(maps, cache, [])
    ensures CacheSound(maps, Without(cache, keys), Flags(Selected(cache, keys), false))
  {
    var kept, dropped := Without(cache, keys), Selected(cache, keys);
    SplitKeepsDistinct(cache, keys);
    DropCovers(cache, keys);
    forall i | 0 <= i < |kept| ensures kept[i].m in maps {
      assert kept[i] in cache;
    }
    forall i | 0 <= i < |dropped| ensures dropped[i].m in maps {
      assert dropped[i] in cache;
    }
  }

  lemma ClearKeepsInv(s: State, a: Action)
    requires Inv(s) && a.Clear? && Enabled(s, a)
    ensures Inv(Do(s, a))
  {
    DropSound(s.maps, s.cache, a.keys);
    DropsStayPrivate(s, Without(s.cache, a.keys), Flags(Selected(s.cache, a.keys), false));
  }

  /** Privacy survives when the cache shrinks and only its own mappings get flags. */
  lemma DropsStayPrivate(s: State, cache: seq<Entry>, flags: seq<Flag>)
    requires Inv(s) && s.pending == []
    requires forall e :: e in cache ==> e in s.cache
    requires forall f :: f in flags ==> !f.cached && InCache(s.cache, f.m)
    ensures FreshIsPrivate(s.maps, s.objs, cache, flags) && PutsArePrivate(s.objs, flags)
  {
    forall m ensures InCache(cache, m) ==> InCache(s.cache, m) {
      InCacheByEntry(cache, m);
      InCacheByEntry(s.cache, m);
    }
    forall m ensures InPending(flags, m) ==> InCache(s.cache, m) {
      if InPending(flags, m) {
        var i :| 0 <= i < |flags| && flags[i].m == m;
        assert flags[i] in flags;
      }
    }
  }

  /** Appending an entry together with its flag. */
  lemma AppendSound(maps: map<nat, Map>, cache: seq<Entry>, pending: seq<Flag>, e: Entry)
    requires CacheSound(maps, cache, pending) && e.m in maps && !maps[e.m].closed
    requires !InCache(cache, e.m) && !InPending(pending, e.m)
    requires forall x :: x in cache ==> x.key != e.key
    ensures CacheSound(maps, cache + [e], pending + [Flag(e.m, true)])
  {
    var cache', pending' := cache + [e], pending + [Flag(e.m, true)];
    forall m ensures InCache(cache', m) <==> InCache(cache, m) || m == e.m {
      if InCache(cache, m) {
        var i :| 0 <= i < |cache| && cache[i].m == m;
        assert cache'[i].m == m;
      }
      assert cache'[|cache|].m == e.m;
    }
    forall m ensures InPending(pending', m) <==> InPending(pending, m) || m == e.m {
      if InPending(pending, m) {
        var i :| 0 <= i < |pending| && pending[i].m == m;
        assert pending'[i].m == m;
      }
      assert pending'[|pending|].m == e.m;
    }
    forall i, j | 0 <= i < j < |cache'| ensures cache'[i].m != cache'[j].m && cache'[i].key != cache'[j].key {
      assert cache[i] in cache;
    }
    forall i, j | 0 <= i < j < |pending'| ensures pending'[i].m != pending'[j].m {
      assert pending'[i] == pending[i];
    }
  }

  lemma CutMembers(cache: seq<Entry>, n: nat)
    requires n <= |cache|
    ensures forall m :: InCache(cache, m) <==> InCache(cache[n..], m) || InPending(Flags(cache[..n], false), m)
  {
    var newer, flags := cache[n..], Flags(cache[..n], false);
    forall m ensures InCache(cache, m) <==> InCache(newer, m) || InPending(flags, m) {
      if InCache(cache, m) {
        var i :| 0 <= i < |cache| && cache[i].m == m;
        if i < n {
          assert flags[i].m == m;
        } else {
          assert newer[i - n].m == m;
        }
      }
    }
  }

  lemma PendingConcat(x: seq<Flag>, y: seq<Flag>)
    ensures forall m :: InPending(x + y, m) <==> InPending(x, m) || InPending(y, m)
  {
    forall m ensures InPending(x + y, m) <==> InPending(x, m) || InPending(y, m) {
      if InPending(x, m) {
        var i :| 0 <= i < |x| && x[i].m == m;
        assert (x + y)[i].m == m;
      } else if InPending(y, m) {
        var i :| 0 <= i < |y| && y[i].m == m;
        assert (x + y)[|x| + i].m == m;
      }
    }
  }

  lemma CutApart(cache: seq<Entry>, pending: seq<Flag>, n: nat)
    requires NoDuplicates(cache, pending) && n <= |cache|
    requires forall i :: 0 <= i < n ==> !InPending(pending, cache[i].m)
    ensures NoDuplicates(cache[n..], pending + Flags(cache[..n], false))
    ensures forall i :: 0 <= i < n ==> !InCache(cache[n..], cache[i].m)
  {
    var newer, all := cache[n..], pending + Flags(cache[..n], false);
    forall i, j | 0 <= i < j < |all| ensures all[i].m != all[j].m {
      if i < |pending| <= j {
        assert !InPending(pending, cache[j - |pending|].m);
      }
    }
    forall i | 0 <= i < n ensures !InCache(newer, cache[i].m) {
      forall j | 0 <= j < |newer| ensures newer[j].m != cache[i].m {
        assert newer[j] == cache[n + j];
      }
    }
  }

  /** Evicting the n oldest entries. */
  lemma EvictSound(maps: map<nat, Map>, cache: seq<Entry>, pending: seq<Flag>, n: nat)
    requires CacheSound(maps, cache, pending) && n <= |cache|
    requires forall i :: 0 <= i < n ==> !InPending(pending, cache[i].m)
    ensures CacheSound(maps, cache[n..], pending + Flags(cache[..n], false))
  {
    CutMembers(cache, n);
    PendingConcat(pending, Flags(cache[..n], false));
    CutApart(cache, pending, n);
  }

  lemma PutKeepsInv(s: State, a: Action)
    requires Inv(s) && a.Put? && Enabled(s, a)
    ensures Inv(Do(s, a))
  {
    var x, s' := s.objs[a.o], Do(s, a);
    PutReady(s, a.o);
    PutSound(s, a.o);
    PutStaysPrivate(s, a.o);
    ObjUpdateSound(s.maps, s.objs, a.o, s'.objs[a.o]);
  }

  lemma PutReady(s: State, o: nat)
    requires Inv(s) && Enabled(s, Put(o))
    ensures CacheSound(s.maps, s.cache, [])
    ensures var m := s.objs[o].m; m in s.maps && !s.maps[m].closed && !InCache(s.cache, m)
  {
    assert s.pending == [] && Arrived(s.objs[o]);
  }

  lemma PutSound(s: State, o: nat)
    requires Enabled(s, Put(o)) && CacheSound(s.maps, s.cache, [])
    requires var m := s.objs[o].m; m in s.maps && !s.maps[m].closed && !InCache(s.cache, m)
    ensures var (cache, flags) := Inserted(s, o); CacheSound(s.maps, cache, flags)
  {
    InsertSound(s.maps, s.cache, Entry(s.objs[o].key, s.objs[o].m), s.capacity);
  }

  lemma InsertSound(maps: map<nat, Map>, cache: seq<Entry>, e: Entry, capacity: nat)
    requires CacheSound(maps, cache, []) && e.m in maps && !maps[e.m].closed && !InCache(cache, e.m) && capacity > 0
    ensures var (cache', flags) := InsertInto(cache, e, capacity); CacheSound(maps, cache', flags)
  {
    var kept := Without(cache, {e.key});
    var flags := Flags(Selected(cache, {e.key}), false);
    var all := kept + [e];
    DropSound(maps, cache, {e.key});
    NotInParts(cache, {e.key}, e.m);
    AppendSound(maps, kept, flags, e);
    KeptNotPending(maps, kept, flags, e);
    EvictSound(maps, all, flags + [Flag(e.m, true)], if |all| > capacity then |all| - capacity else 0);
  }

  /** None of the kept entries is waiting for a flag. */
  lemma KeptNotPending(maps: map<nat, Map>, kept: seq<Entry>, flags: seq<Flag>, e: Entry)
    requires CacheSound(maps, kept, flags) && !InCache(kept, e.m)
    requires forall i :: 0 <= i < |flags| ==> !flags[i].cached
    ensures forall i :: 0 <= i < |kept| ==> !InPending(flags + [Flag(e.m, true)], (kept + [e])[i].m)
  {
    var pending := flags + [Flag(e.m, true)];
    forall i | 0 <= i < |kept| ensures !InPending(pending, (kept + [e])[i].m) {
      assert InCache(kept, kept[i].m);
      forall j | 0 <= j < |pending| ensures pending[j].m != kept[i].m {
        if j < |flags| {
          assert !InCache(kept, flags[j].m);
        }
      }
    }
  }

  lemma NotInParts(cache: seq<Entry>, keys: set<Key>, m: nat)
    requires !InCache(cache, m)
    ensures !InCache(Without(cache, keys), m) && !InPending(Flags(Selected(cache, keys), false), m)
  {
    InCacheByEntry(cache, m);
    InCacheByEntry(Without(cache, keys), m);
    var dropped := Selected(cache, keys);
    forall i | 0 <= i < |dropped| ensures dropped[i].m != m {
      assert dropped[i] in cache;
    }
  }

  lemma PutStaysPrivate(s: State, o: nat)
    requires Inv(s) && Enabled(s, Put(o))
    ensures var (cache, flags) := Inserted(s, o); var objs := s.objs[o := s.objs[o].(unshared := false)];
      FreshIsPrivate(s.maps, objs, cache, flags) && PutsArePrivate(objs, flags)
  {
    PutMembers(s, o);
    var (cache, flags) := Inserted(s, o);
    PrivateAround(s, o, cache, flags);
  }

  lemma PrivateAround(s: State, o: nat, cache: seq<Entry>, flags: seq<Flag>)
    requires FreshIsPrivate(s.maps, s.objs, s.cache, []) && o in s.objs && Arrived(s.objs[o])
    requires forall i :: 0 <= i < |cache| ==> cache[i].m == s.objs[o].m || InCache(s.cache, cache[i].m)
    requires forall i :: 0 <= i < |flags| ==>
      (flags[i].m == s.objs[o].m || InCache(s.cache, flags[i].m)) && (flags[i].cached ==> flags[i].m == s.objs[o].m)
    ensures var objs := s.objs[o := s.objs[o].(unshared := false)];
      FreshIsPrivate(s.maps, objs, cache, flags) && PutsArePrivate(objs, flags)
  {
  }

  /** The cache and the flags after a put concern the new mapping and those cached before. */
  lemma PutMembers(s: State, o: nat)
    requires Enabled(s, Put(o))
    ensures var (cache, flags) := Inserted(s, o);
      && (forall i :: 0 <= i < |cache| ==> cache[i].m == s.objs[o].m || InCache(s.cache, cache[i].m))
      && (forall i :: 0 <= i < |flags| ==>
            && (flags[i].m == s.objs[o].m || InCache(s.cache, flags[i].m))
            && (flags[i].cached ==> flags[i].m == s.objs[o].m))
  {
    var (cache, flags) := Inserted(s, o);
    var m := s.objs[o].m;
    var dropped := Selected(s.cache, {s.objs[o].key});
    var all := Without(s.cache, {s.objs[o].key}) + [Entry(s.objs[o].key, m)];
    forall e | e in all ensures e.m == m || InCache(s.cache, e.m) {
      InCacheByEntry(s.cache, e.m);
    }
    forall e | e in dropped ensures InCache(s.cache, e.m) {
      InCacheByEntry(s.cache, e.m);
    }
    forall i | 0 <= i < |cache| ensures cache[i].m == m || InCache(s.cache, cache[i].m) {
      assert cache[i] in all;
    }
    forall i | 0 <= i < |flags|
      ensures (flags[i].m == m || InCache(s.cache, flags[i].m)) && (flags[i].cached ==> flags[i].m == m)
    {
      if i < |dropped| {
        assert dropped[i] in dropped;
      } else if i > |dropped| {
        assert all[i - |dropped| - 1] in all;
      }
    }
  }

  lemma CloseClearsKeepsInv(s: State, a: Action)
    requires Inv(s) && a.CloseClears? && Enabled(s, a)
    ensures Inv(Do(s, a))
  {
    EvictSound(s.maps, s.cache, [], |s.cache|);
    assert s.cache[..|s.cache|] == s.cache && s.cache[|s.cache|..] == [];
    assert [] + Flags(s.cache, false) == Flags(s.cache, false);
    forall f | f in Flags(s.cache, false) ensures InCache(s.cache, f.m) {
      var i :| 0 <= i < |s.cache| && Flags(s.cache, false)[i] == f;
      assert s.cache[i].m == f.m;
    }
    DropsStayPrivate(s, [], Flags(s.cache, false));
  }

  lemma StepKeepsInv(s: State, a: Action)
    requires Inv(s) && Enabled(s, a) && Serial(s, a)
    ensures Inv(Do(s, a))
  {
    match a
    case Ask(_, _) =>
    case Abandon(_) =>
    case Miss(_, _) => MissKeepsInv(s, a);
    case Hit(_, _) => HitKeepsInv(s, a);
    case Stale(i) => StaleNeverHappens(s, i);
    case Put(_) => PutKeepsInv(s, a);
    case SetFlag => SetFlagKeepsInv(s, a);
    case Clear(_) => ClearKeepsInv(s, a);
    case CloseClears => CloseClearsKeepsInv(s, a);
    case CloseMarks =>
    case AcquireStep(_) => AcquireKeepsInv(s, a);
    case Enter(o) => EnterKeepsInv(s, o);
    case Mark(o) => MarkKeepsInv(s, o);
    case Leave(_) => LeaveKeepsInv(s, a);
    case ExportStep(_) => ExportKeepsInv(s, a);
    case UnexportStep(_) => UnexportKeepsInv(s, a);
  }
}
