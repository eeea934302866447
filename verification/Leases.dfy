/** What the mapping cache promises over whole runs, and where its promises end. */
module Leases {
  import opened Core
  import opened Mapping
  import Lru
  import opened Lifetime

  lemma {:induction false} RunKeepsInv(s: State, acts: seq<Action>)
    requires Inv(s) && SerialRun(s, acts)
    ensures Run(s, acts) && Inv(After(s, acts))
    decreases |acts|
  {
    SerialRunsRun(s, acts);
    if acts != [] {
      StepKeepsInv(s, acts[0]);
      RunKeepsInv(Do(s, acts[0]), acts[1..]);
    }
  }

  /** In every state that threads can reach by any interleaving in which no two of them race
      through close() of one object: the lease count of a mapping is the number of acquired,
      unreleased objects on it; while there is one, the mapping is open; what the cache hands
      out is open; and an object whose acquire failed sits on a closed mapping. */
  lemma MappingsOutliveLeases(capacity: nat, acts: seq<Action>)
    requires SerialRun(Start(capacity), acts)
    ensures Run(Start(capacity), acts)
    ensures var s := After(Start(capacity), acts);
      && (forall m :: m in s.maps ==> s.maps[m].leases == |Holders(s.objs, m)|)
      && (forall o :: o in s.objs && s.objs[o].phase == Held && !s.objs[o].done ==>
            s.objs[o].m in s.maps && !s.maps[s.objs[o].m].closed)
      && (forall i :: 0 <= i < |s.cache| ==> s.cache[i].m in s.maps && !s.maps[s.cache[i].m].closed)
      && (forall o :: o in s.objs && s.objs[o].phase == Failed ==> s.objs[o].m in s.maps && s.maps[s.objs[o].m].closed)
  {
    StartsSound(capacity);
    RunKeepsInv(Start(capacity), acts);
    var s := After(Start(capacity), acts);
    forall o | o in s.objs && s.objs[o].phase == Held && !s.objs[o].done
      ensures s.objs[o].m in s.maps && !s.maps[s.objs[o].m].closed
    {
      assert o in Holders(s.objs, s.objs[o].m);
    }
    forall i | 0 <= i < |s.cache| ensures s.cache[i].m in s.maps && !s.maps[s.cache[i].m].closed {
      assert InCache(s.cache, s.cache[i].m);
    }
  }

  /** Whatever the interleaving, the client closes a mapping only when it is uncached, without
      leases and without exports, and never opens it again. */
  lemma ClosesOnlyWhenFree(s: State, a: Action, m: nat)
    requires Enabled(s, a) && m in s.maps
    ensures m in Do(s, a).maps
    ensures var x, y := s.maps[m], Do(s, a).maps[m];
      && (x.closed ==> y.closed)
      && (y.closed && !x.closed ==> !y.cached && y.leases == 0 && y.exports == 0)
  {
    if a.Leave? || a.SetFlag? {
      ClosesExactly(s, a);
    } else {
      OthersLeaveOpen(s, a, m);
    }
  }

  /** When a mapping is closed, exactly: a release that leaves it unleased and uncached closes
      it, and so does unflagging an unleased one, if and only if no buffer is exported then. */
  lemma ClosesExactly(s: State, a: Action)
    requires Enabled(s, a) && (a.Leave? || a.SetFlag?)
    ensures var m := if a.Leave? then s.objs[a.o].m else s.pending[0].m;
      m in Do(s, a).maps && Do(s, a).maps == s.maps[m := Do(s, a).maps[m]] &&
      var x, y := s.maps[m], Do(s, a).maps[m];
      if a.Leave? then
        && (y.closed <==> x.closed || (x.leases <= 1 && !x.cached && x.exports == 0))
        && y.leases == (if x.leases > 0 then x.leases - 1 else 0) && y.cached == x.cached && y.exports == x.exports
      else
        && (y.closed <==> x.closed || (!s.pending[0].cached && x.leases == 0 && x.exports == 0))
        && y.leases == x.leases && y.cached == s.pending[0].cached && y.exports == x.exports
  {
  }

  /** No other step closes a mapping or changes its flag, and only acquire counts a lease. */
  lemma OthersLeaveOpen(s: State, a: Action, m: nat)
    requires Enabled(s, a) && m in s.maps && !a.Leave? && !a.SetFlag?
    ensures m in Do(s, a).maps
    ensures var x, y := s.maps[m], Do(s, a).maps[m];
      && y.closed == x.closed && y.cached == x.cached
      && y.leases == x.leases + (if a.AcquireStep? && s.objs[a.o].m == m && !x.closed then 1 else 0)
      && y.exports == x.exports + (if a == ExportStep(m) then 1 else 0)
           - (if a == UnexportStep(m) && x.exports > 0 then 1 else 0)
  {
  }

  // ----- the order of the cache under threads -----

  function Keys(cache: seq<Entry>): (keys: seq<Key>)
    ensures |keys| == |cache|
    ensures forall i :: 0 <= i < |keys| ==> keys[i] == cache[i].key
  {
    seq(|cache|, i requires 0 <= i < |cache| => cache[i].key)
  }

  lemma {:induction false} KeysWithout(cache: seq<Entry>, k: Key)
    ensures Keys(Without(cache, {k})) == Lru.Remove(Keys(cache), k)
  {
    if cache != [] {
      var n := |cache| - 1;
      KeysWithout(cache[..n], k);
      assert Keys(cache)[..n] == Keys(cache[..n]);
      var last := if cache[n].key == k then [] else [cache[n]];
      WithoutLast(cache, k);
      KeysConcat(Without(cache[..n], {k}), last);
    }
  }

  lemma KeysConcat(xs: seq<Entry>, ys: seq<Entry>)
    ensures Keys(xs + ys) == Keys(xs) + Keys(ys)
  {
  }

  lemma WithoutLast(cache: seq<Entry>, k: Key)
    requires cache != []
    ensures var init, last := cache[..|cache| - 1], cache[|cache| - 1];
      Without(cache, {k}) == Without(init, {k}) + if last.key == k then [] else [last]
  {
  }

  /** The threads' critical sections keep the cache in the order of the sequential client: a
      hit moves its key to the end, a put appends its key and drops the oldest beyond the
      capacity, a clear takes its keys, and no other step changes it. */
  lemma CacheOrderIsLru(s: State, a: Action)
    requires Enabled(s, a) && Distinct(Keys(s.cache))
    ensures var keys, after := Keys(s.cache), Keys(Do(s, a).cache);
      match a
      case Hit(_, i) => after == Lru.Remove(keys, keys[i]) + [keys[i]]
      case Stale(i) => after == Lru.Remove(keys, keys[i])
      case Put(o) => after == Lru.LastN(Lru.Remove(keys, s.objs[o].key) + [s.objs[o].key], s.capacity)
      case Clear(gone) => forall k :: k in after <==> k in keys && k !in gone
      case CloseClears => after == []
      case _ => after == keys
  {
    match a
    case Hit(o, i) => HitOrder(s, o, i);
    case Stale(i) => StaleOrder(s, i);
    case Put(o) => PutOrder(s, o);
    case Clear(gone) => ClearedKeys(s.cache, gone);
    case _ =>
  }

  lemma HitOrder(s: State, o: nat, i: nat)
    requires Enabled(s, Hit(o, i)) && Distinct(Keys(s.cache))
    ensures Keys(Do(s, Hit(o, i)).cache) == Lru.Remove(Keys(s.cache), Keys(s.cache)[i]) + [Keys(s.cache)[i]]
  {
    MovedKeys(s.cache, i);
  }

  lemma StaleOrder(s: State, i: nat)
    requires Enabled(s, Stale(i)) && Distinct(Keys(s.cache))
    ensures Keys(Do(s, Stale(i)).cache) == Lru.Remove(Keys(s.cache), Keys(s.cache)[i])
  {
    MovedKeys(s.cache, i);
  }

  lemma PutOrder(s: State, o: nat)
    requires Enabled(s, Put(o))
    ensures var k := s.objs[o].key;
      Keys(Do(s, Put(o)).cache) == Lru.LastN(Lru.Remove(Keys(s.cache), k) + [k], s.capacity)
  {
    InsertedKeys(s.cache, Entry(s.objs[o].key, s.objs[o].m), s.capacity);
  }

  lemma MovedKeys(cache: seq<Entry>, i: nat)
    requires Distinct(Keys(cache)) && i < |cache|
    ensures Keys(cache[..i] + cache[i + 1..]) == Lru.Remove(Keys(cache), cache[i].key)
    ensures Keys(cache[..i] + cache[i + 1..] + [cache[i]]) == Lru.Remove(Keys(cache), cache[i].key) + [cache[i].key]
  {
    Lru.RemoveAt(Keys(cache), i);
    assert Keys(cache[..i] + cache[i + 1..]) == Keys(cache)[..i] + Keys(cache)[i + 1..];
  }

  lemma InsertedKeys(cache: seq<Entry>, e: Entry, capacity: nat)
    ensures Keys(InsertInto(cache, e, capacity).0) == Lru.LastN(Lru.Remove(Keys(cache), e.key) + [e.key], capacity)
  {
    KeysWithout(cache, e.key);
    var others := Without(cache, {e.key});
    KeysConcat(others, [e]);
    assert Keys([e]) == [e.key];
    NewestKeys(others + [e], capacity);
  }

  lemma NewestKeys(all: seq<Entry>, capacity: nat)
    ensures Keys(all[if |all| > capacity then |all| - capacity else 0..]) == Lru.LastN(Keys(all), capacity)
  {
  }

  lemma ClearedKeys(cache: seq<Entry>, gone: set<Key>)
    ensures forall k :: k in Keys(Without(cache, gone)) <==> k in Keys(cache) && k !in gone
  {
    var left := Without(cache, gone);
    forall k ensures k in Keys(left) <==> k in Keys(cache) && k !in gone {
      if i :| 0 <= i < |left| && Keys(left)[i] == k {
        assert left[i] in left;
        var j :| 0 <= j < |cache| && cache[j] == left[i];
        assert Keys(cache)[j] == k;
      }
      if k in Keys(cache) && k !in gone {
        var j :| 0 <= j < |cache| && Keys(cache)[j] == k;
        assert cache[j] in left;
        var i :| 0 <= i < |left| && left[i] == cache[j];
        assert Keys(left)[i] == k;
      }
    }
  }

  /** close() still runs for an object whose acquire failed, and takes nobody's lease. */
  lemma FailedCloseIsHarmless(s: State, o: nat)
    requires Inv(s) && Enabled(s, Leave(o)) && s.objs[o].phase == Failed
    ensures Do(s, Leave(o)).maps == s.maps
  {
  }

  // ----- shutting down -----

  /** No open is under way: neither waiting for its mapping nor about to acquire it. */
  predicate NoneOpening(s: State) {
    s.asked == map[] && forall o :: o in s.objs ==> s.objs[o].phase != Opening
  }

  /** Nothing is left to do: no open is under way, every object is released, and the holder of
      the cache lock has finished. */
  predicate Finished(s: State) {
    NoneOpening(s) && s.pending == [] && forall o :: o in s.objs && s.objs[o].phase == Held ==> s.objs[o].done
  }

  /** The client has let go of the mapping: it is closed, or nothing owns it and a close met a
      live export. */
  predicate LetGo(m: Map) {
    m.closed || (m.blocked && m.everExported && !m.cached && m.leases == 0)
  }

  /** A finished run has let go of every mapping exactly if its cache is empty. */
  lemma ReclaimsExactly(s: State)
    requires Inv(s) && Finished(s)
    ensures (forall m :: m in s.maps ==> LetGo(s.maps[m])) <==> s.cache == []
  {
    if s.cache == [] {
      forall m | m in s.maps ensures LetGo(s.maps[m]) {
        assert Holders(s.objs, m) == {};
        assert !InCache(s.cache, m) && !InPending(s.pending, m);
        assert !Arriving(s.objs, m);
      }
    } else {
      var m := s.cache[0].m;
      assert InCache(s.cache, m) && !InPending(s.pending, m);
      assert m in s.maps && s.maps[m].cached && !s.maps[m].closed;
    }
  }

  lemma FinishedRunReclaimsExactly(capacity: nat, acts: seq<Action>)
    requires SerialRun(Start(capacity), acts) && Run(Start(capacity), acts) && Finished(After(Start(capacity), acts))
    ensures var s := After(Start(capacity), acts);
      (forall m :: m in s.maps ==> LetGo(s.maps[m])) <==> s.cache == []
  {
    StartsSound(capacity);
    RunKeepsInv(Start(capacity), acts);
    ReclaimsExactly(After(Start(capacity), acts));
  }

  predicate NoAsk(acts: seq<Action>) {
    forall i :: 0 <= i < |acts| ==> !acts[i].Ask?
  }

  /** An open waits for its mapping from its answer until the mapping is attached or given up. */
  lemma WaitingExactly(s: State, a: Action, o: nat)
    requires Enabled(s, a)
    ensures o in Do(s, a).asked <==>
      (a.Ask? && a.o == o) || (o in s.asked && a != Abandon(o) && !(a.Miss? && a.o == o))
    ensures Do(s, a).shut <==> s.shut || a.CloseMarks?
  {
  }

  /** A cleared cache stays empty while no open is under way and none begins. */
  lemma {:induction false} StaysCleared(s: State, acts: seq<Action>)
    requires s.cache == [] && NoneOpening(s) && Run(s, acts) && (s.shut || NoAsk(acts))
    ensures After(s, acts).cache == [] && NoneOpening(After(s, acts))
    ensures s.shut ==> After(s, acts).shut
    decreases |acts|
  {
    if acts != [] {
      assert !acts[0].Ask?;
      var t := Do(s, acts[0]);
      assert t.cache == [] && NoneOpening(t);
      StaysCleared(t, acts[1..]);
    }
  }

  /** When Client.close overlaps no open (none is under way as it begins to clear, and none
      gets its answer before it has set `_closed`), then once every object is released and
      the last clear has finished, the client has let go of every mapping. */
  lemma EverythingIsReclaimed(capacity: nat, before: seq<Action>, during: seq<Action>, after: seq<Action>)
    requires SerialRun(Start(capacity), before) && Run(Start(capacity), before)
    requires var s := After(Start(capacity), before);
      Enabled(s, CloseClears) && NoneOpening(s)
      && SerialRun(Do(s, CloseClears), during) && Run(Do(s, CloseClears), during) && NoAsk(during)
    requires var s := After(Do(After(Start(capacity), before), CloseClears), during);
      Enabled(s, CloseMarks) && SerialRun(Do(s, CloseMarks), after) && Run(Do(s, CloseMarks), after)
      && Finished(After(Do(s, CloseMarks), after))
    ensures var t := After(Do(After(Do(After(Start(capacity), before), CloseClears), during), CloseMarks), after);
      forall m :: m in t.maps ==> LetGo(t.maps[m])
  {
    StartsSound(capacity);
    RunKeepsInv(Start(capacity), before);
    var s1 := Do(After(Start(capacity), before), CloseClears);
    StepKeepsInv(After(Start(capacity), before), CloseClears);
    RunKeepsInv(s1, during);
    StaysCleared(s1, during);
    var s2 := After(s1, during);
    StepKeepsInv(s2, CloseMarks);
    RunKeepsInv(Do(s2, CloseMarks), after);
    StaysCleared(Do(s2, CloseMarks), after);
    ReclaimsExactly(After(Do(s2, CloseMarks), after));
  }

  // ----- runs, step by step -----

  ghost predicate Leads(s: State, acts: seq<Action>, t: State) {
    Run(s, acts) && After(s, acts) == t
  }

  lemma FirstStep(s: State, a: Action, rest: seq<Action>, t: State)
    requires Enabled(s, a) && Leads(Do(s, a), rest, t)
    ensures Leads(s, [a] + rest, t)
    ensures Serial(s, a) && SerialRun(Do(s, a), rest) ==> SerialRun(s, [a] + rest)
  {
    assert ([a] + rest)[1..] == rest;
  }

  lemma {:induction false} LeadsOn(s: State, acts: seq<Action>, t: State, more: seq<Action>, u: State)
    requires Leads(s, acts, t) && Leads(t, more, u)
    ensures Leads(s, acts + more, u)
    decreases |acts|
  {
    if acts == [] {
      assert acts + more == more;
    } else {
      LeadsOn(Do(s, acts[0]), acts[1..], t, more, u);
      assert [acts[0]] + (acts[1..] + more) == acts + more;
      FirstStep(s, acts[0], acts[1..] + more, u);
    }
  }

  // ----- two threads in close() of one object -----

  /** What the race does: a second thread also passes the check of `_released`, and both
      release. */
  function Race(o: nat): seq<Action> {
    [Enter(o)] + ([Mark(o)] + ([Mark(o)] + ([Leave(o)] + [Leave(o)])))
  }

  /** The state that it leaves. */
  function Raced(s: State, o: nat): State
    requires o in s.objs && s.objs[o].m in s.maps
  {
    var x := s.objs[o];
    s.(maps := s.maps[x.m := Release(Release(s.maps[x.m]))],
       objs := s.objs[o := x.(entering := 0, released := true, leaving := 0, done := true)])
  }

  /** Both threads have passed the check and set the flag. */
  function Marked(s: State, o: nat): State
    requires o in s.objs
  {
    s.(objs := s.objs[o := s.objs[o].(entering := 0, released := true, leaving := 2)])
  }

  lemma MarksLead(s: State, o: nat, rest: seq<Action>, t: State)
    requires o in s.objs && s.objs[o].phase == Held
    requires s.objs[o].entering == 1 && s.objs[o].leaving == 0 && !s.objs[o].released && Leads(Marked(s, o), rest, t)
    ensures Leads(s, [Enter(o)] + ([Mark(o)] + ([Mark(o)] + rest)), t)
  {
    var s1 := Do(s, Enter(o));
    var s2 := Do(s1, Mark(o));
    assert Do(s2, Mark(o)) == Marked(s, o);
    FirstStep(s2, Mark(o), rest, t);
    FirstStep(s1, Mark(o), [Mark(o)] + rest, t);
    FirstStep(s, Enter(o), [Mark(o)] + ([Mark(o)] + rest), t);
  }

  lemma LeavesLead(s: State, o: nat, t: State)
    requires o in s.objs && s.objs[o].m in s.maps && s.objs[o].leaving == 2
    requires t == s.(maps := s.maps[s.objs[o].m := Release(Release(s.maps[s.objs[o].m]))],
                     objs := s.objs[o := s.objs[o].(leaving := 0, done := true)])
    ensures Leads(s, [Leave(o)] + [Leave(o)], t)
  {
    var s1 := Do(s, Leave(o));
    assert Do(s1, Leave(o)) == t;
    FirstStep(s1, Leave(o), [], t);
    FirstStep(s, Leave(o), [Leave(o)], t);
  }

  lemma RaceLeads(s: State, o: nat)
    requires o in s.objs && s.objs[o].m in s.maps && s.objs[o].phase == Held
    requires s.objs[o].entering == 1 && s.objs[o].leaving == 0 && !s.objs[o].released
    ensures Leads(s, Race(o), Raced(s, o))
  {
    LeavesLead(Marked(s, o), o, Raced(s, o));
    MarksLead(s, o, [Leave(o)] + [Leave(o)], Raced(s, o));
  }

  /** When the race does harm, exactly. From every reachable state in which a thread is past
      the check in close() of an acquired object: the race is there; the books still balance
      after it if and only if no other object holds the mapping; and it closes the mapping
      under a live lease if and only if exactly one other object holds it and neither the
      cache nor an export keeps it open. */
  lemma RaceHarmsExactly(s: State, o: nat)
    requires Inv(s) && o in s.objs && s.objs[o].phase == Held && s.objs[o].entering == 1 && !s.objs[o].released
    ensures s.objs[o].m in s.maps && Leads(s, Race(o), Raced(s, o))
    ensures var m, t := s.objs[o].m, Raced(s, o);
      && Holders(t.objs, m) == Holders(s.objs, m) - {o}
      && (t.maps[m].leases == |Holders(t.objs, m)| <==> Holders(s.objs, m) == {o})
      && (t.maps[m].closed && Holders(t.objs, m) != {} <==>
            |Holders(s.objs, m)| == 2 && !s.maps[m].cached && s.maps[m].exports == 0)
  {
    assert ClosesOnce(s.objs[o]);
    RaceLeads(s, o);
    RaceCounts(s.maps, s.objs, o);
  }

  /** Two releases of an open mapping that has n leases. */
  lemma ReleasedTwice(m: Map)
    requires m.leases > 0 && !m.closed
    ensures Release(Release(m)).leases == if m.leases == 1 then 0 else m.leases - 2
    ensures Release(Release(m)).closed <==> m.leases <= 2 && !m.cached && m.exports == 0
  {
  }

  lemma RaceCounts(maps: map<nat, Map>, objs: map<nat, Obj>, o: nat)
    requires o in objs && objs[o].m in maps && Leases(objs[o], objs[o].m)
    requires var m := maps[objs[o].m]; m.leases == |Holders(objs, objs[o].m)| && (m.closed ==> m.leases == 0)
    ensures var m, x := objs[o].m, objs[o].(entering := 0, released := true, leaving := 0, done := true);
      var h, k, y := Holders(objs, m), Holders(objs[o := x], m), Release(Release(maps[m]));
      && k == h - {o}
      && (y.leases == |k| <==> h == {o})
      && (y.closed && k != {} <==> |h| == 2 && !maps[m].cached && maps[m].exports == 0)
  {
    var h := Holders(objs, objs[o].m);
    var x := objs[o].(entering := 0, released := true, leaving := 0, done := true);
    assert o in h && |h - {o}| == |h| - 1;
    assert Holders(objs[o := x], objs[o].m) == h - {o};
    SoleHolder(h, o);
    ReleasedTwice(maps[objs[o].m]);
  }

  lemma SoleHolder(h: set<nat>, o: nat)
    requires o in h
    ensures h == {o} <==> |h| == 1
    ensures h - {o} != {} <==> |h| > 1
  {
    assert |h - {o}| == |h| - 1;
    if |h| == 1 {
      assert h - {o} == {};
      assert h == {o} + (h - {o});
    }
  }

  // ----- the conditions are needed -----

  const K := Key("object", "token", "read")

  /** A state of a client with capacity 1 and nothing pending or asked. */
  function Plain(maps: map<nat, Map>, objs: map<nat, Obj>, cache: seq<Entry>, shut: bool): State {
    State(maps, objs, cache, [], 1, map[], false, 0, shut)
  }

  /** An object that has acquired mapping 0. */
  function Holding(): Obj {
    Obj(0, K, Held, false, false, 0, 0, false)
  }

  lemma FirstInsert()
    ensures InsertInto([], Entry(K, 0), 1) == ([Entry(K, 0)], [Flag(0, true)])
  {
    var e := Entry(K, 0);
    var all := Without([], {e.key}) + [e];
    assert all == [e] && all[0..] == all && all[..0] == [];
    assert Flags([], false) == [] && Flags([], false) + [Flag(0, true)] + Flags([], false) == [Flag(0, true)];
  }

  /** The mapping 0 cached and held by object 0. */
  function Opened(shut: bool): State {
    Plain(map[0 := Map(1, true, false, 0, false, false)], map[0 := Holding()], [Entry(K, 0)], shut)
  }

  /** The mapping 0 attached for object 0. */
  function Attached(shut: bool): State {
    Plain(map[0 := FRESH], map[0 := Obj(0, K, Opening, true, false, 0, 0, false)], [], shut)
  }

  lemma CachedPut(shut: bool, rest: seq<Action>, t: State) returns (acts: seq<Action>)
    requires Leads(Opened(shut), rest, t) && SerialRun(Opened(shut), rest)
    ensures Leads(Attached(shut), acts, t) && SerialRun(Attached(shut), acts)
  {
    var s2 := Attached(shut);
    FirstInsert();
    var s3 := Do(s2, Put(0));
    var s4 := Do(s3, SetFlag);
    assert Do(s4, AcquireStep(0)) == Opened(shut);
    FirstStep(s4, AcquireStep(0), rest, t); acts := [AcquireStep(0)] + rest;
    FirstStep(s3, SetFlag, acts, t);        acts := [SetFlag] + acts;
    FirstStep(s2, Put(0), acts, t);         acts := [Put(0)] + acts;
  }

  /** A cached open from a state that has been asked for object 0, up to its acquire. */
  lemma CachedOpen(shut: bool, rest: seq<Action>, t: State) returns (acts: seq<Action>)
    requires Leads(Opened(shut), rest, t) && SerialRun(Opened(shut), rest)
    ensures var s := Plain(map[], map[], [], shut).(asked := map[0 := K]); Leads(s, acts, t) && SerialRun(s, acts)
  {
    var s1 := Plain(map[], map[], [], shut).(asked := map[0 := K]);
    assert Do(s1, Miss(0, 0)) == Attached(shut);
    acts := CachedPut(shut, rest, t);
    FirstStep(s1, Miss(0, 0), acts, t);
    acts := [Miss(0, 0)] + acts;
  }

  /** Two objects on the mapping 0, which has left the cache, and a thread past the check in
      close() of object 0. */
  function Shared(): State {
    Plain(map[0 := Map(2, false, false, 0, false, false)], map[0 := Holding().(entering := 1), 1 := Holding()], [],
      false)
  }

  lemma SecondOpen() returns (acts: seq<Action>)
    ensures var s := Opened(false);
      Leads(s, acts, Shared()) && SerialRun(s, acts)
  {
    var s0 := Opened(false);
    var s1 := Do(s0, Hit(1, 0));
    assert Do(s1, AcquireStep(1)) == Plain(map[0 := Map(2, true, false, 0, false, false)],
                                           map[0 := Holding(), 1 := Holding()], [Entry(K, 0)], false);
    acts := ClearAndClose();
    FirstStep(s1, AcquireStep(1), acts, Shared());   acts := [AcquireStep(1)] + acts;
    FirstStep(s0, Hit(1, 0), acts, Shared());        acts := [Hit(1, 0)] + acts;
  }

  lemma ClearAndClose() returns (acts: seq<Action>)
    ensures var s := Plain(map[0 := Map(2, true, false, 0, false, false)], map[0 := Holding(), 1 := Holding()],
      [Entry(K, 0)], false);
      Leads(s, acts, Shared()) && SerialRun(s, acts)
  {
    var s2 := Plain(map[0 := Map(2, true, false, 0, false, false)], map[0 := Holding(), 1 := Holding()], [Entry(K, 0)],
      false);
    var s3 := Do(s2, Clear({K}));
    assert Selected([Entry(K, 0)], {K}) == [Entry(K, 0)] && Without([Entry(K, 0)], {K}) == [];
    assert s3.pending == [Flag(0, false)];
    var s4 := Do(s3, SetFlag);
    assert Do(s4, Enter(0)) == Shared();
    FirstStep(s4, Enter(0), [], Shared());      acts := [Enter(0)] + [];
    FirstStep(s3, SetFlag, acts, Shared());     acts := [SetFlag] + acts;
    FirstStep(s2, Clear({K}), acts, Shared());  acts := [Clear({K})] + acts;
  }

  lemma SharedIsReachable() returns (acts: seq<Action>)
    ensures Leads(Start(1), acts, Shared()) && SerialRun(Start(1), acts)
  {
    acts := SecondOpen();
    acts := CachedOpen(false, acts, Shared());
    assert Do(Start(1), Ask(0, K)) == Plain(map[], map[], [], false).(asked := map[0 := K]);
    FirstStep(Start(1), Ask(0, K), acts, Shared());
    acts := [Ask(0, K)] + acts;
  }

  /** Without the condition on close(): an instance of the race that closes a mapping under an
      object that still holds its lease and that nobody is closing. */
  lemma RacingCloseStealsALease() returns (acts: seq<Action>, t: State)
    ensures Leads(Start(1), acts, t)
    ensures 1 in t.objs && Leases(t.objs[1], 0) && !t.objs[1].released && t.objs[1].entering == 0
    ensures 0 in t.maps && t.maps[0].closed
  {
    acts := SharedIsReachable();
    StartsSound(1);
    RunKeepsInv(Start(1), acts);
    RaceHarmsExactly(Shared(), 0);
    assert Holders(Shared().objs, 0) == {0, 1};
    t := Raced(Shared(), 0);
    LeadsOn(Start(1), acts, Shared(), Race(0), t);
    acts := acts + Race(0);
  }

  /** Without the condition on open(): an open whose answer came before `_closed` was set
      attaches its mapping after Client.close has finished and puts it into the cache, where
      nothing will ever drop it. */
  lemma LateOpenLeaks() returns (acts: seq<Action>, t: State)
    ensures Leads(Start(1), acts, t) && SerialRun(Start(1), acts)
    ensures |acts| > 3 && acts[1] == CloseClears && acts[2] == CloseMarks
    ensures t.shut && Finished(t) && 0 in t.maps && !t.maps[0].closed && !t.maps[0].everExported
  {
    acts, t := LateClose();
    acts := CachedOpen(true, acts, t);
    var s1 := Do(Start(1), Ask(0, K));
    var s2 := Do(s1, CloseClears);
    assert Flags([], false) == [];
    assert Do(s2, CloseMarks) == Plain(map[], map[], [], true).(asked := map[0 := K]);
    FirstStep(s2, CloseMarks, acts, t);        acts := [CloseMarks] + acts;
    FirstStep(s1, CloseClears, acts, t);       acts := [CloseClears] + acts;
    FirstStep(Start(1), Ask(0, K), acts, t);   acts := [Ask(0, K)] + acts;
  }

  lemma LateClose() returns (acts: seq<Action>, t: State)
    ensures var s := Opened(true);
      Leads(s, acts, t) && SerialRun(s, acts)
    ensures |acts| > 0 && t == Plain(map[0 := Map(0, true, false, 0, false, false)],
                                     map[0 := Holding().(released := true, done := true)], [Entry(K, 0)], true)
  {
    var s := Opened(true);
    var s5 := Do(s, Enter(0));
    var s6 := Do(s5, Mark(0));
    t := Do(s6, Leave(0));
    FirstStep(s6, Leave(0), [], t);   acts := [Leave(0)] + [];
    FirstStep(s5, Mark(0), acts, t);  acts := [Mark(0)] + acts;
    FirstStep(s, Enter(0), acts, t);  acts := [Enter(0)] + acts;
  }
}
