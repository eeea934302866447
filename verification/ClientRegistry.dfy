/** A client that caches mappings, together with the daemon's registry and all other clients
    (mstore/client.py over mstore/server.py). */
module ClientRegistry {
  import opened Core
  import opened Mapping
  import Registry
  import Server
  import Capabilities
  import ClientCache
  import Lru

  /** What validate looked at when an entry was opened. */
  datatype Grant = Grant(reg: Registry.State, now: real)

  /** The daemon, the client's cached keys in LRU order, and the grant behind each of them. */
  datatype System = System(world: Server.World, cache: seq<Key>, grants: map<Key, Grant>)

  /** Steps of the client, and of everybody else. An event is what the daemon serves: Other
      also stands for requests of this client that bypass its cache, and for requests whose
      reply it never saw. */
  datatype Action =
    | Open(key: Key, useCache: bool, e: Server.Event)
    | Delete(e: Server.Event)
    | Clear(filter: ClientCache.Filter)
    | Other(e: Server.Event)

  datatype Setup = Setup(hash: string -> string, capacity: nat)

  predicate Hit(s: System, a: Action) {
    a.Open? && a.useCache && a.key in s.cache
  }

  predicate Served(s: System, a: Action) {
    !a.Clear? && !Hit(s, a) && (a.Open? ==> a.key.mode in ClientCache.MODES)
  }

  predicate Enabled(c: Setup, s: System, a: Action) {
    && (Served(s, a) ==> Server.Fresh(c.hash, s.world, a.e))
    && (a.Open? ==> a.e.req == Server.OpenReq(a.key.objectId, a.key.token, a.key.mode))
    && (a.Delete? ==> a.e.req.DeleteReq?)
  }

  function Reply(c: Setup, s: System, e: Server.Event): Server.Reply {
    Server.Handle(c.hash, s.world.reg, e).1
  }

  /** The open succeeds: from the cache, or because the daemon grants it. */
  predicate Succeeds(c: Setup, s: System, a: Action) {
    a.Open? && a.key.mode in ClientCache.MODES && (Hit(s, a) || Reply(c, s, a.e).Opened?)
  }

  function Do(c: Setup, s: System, a: Action): System {
    var w := if Served(s, a) then Server.Step(c.hash, s.world, a.e) else s.world;
    match a
    case Open(key, useCache, e) =>
      if key.mode !in ClientCache.MODES then s
      else if !useCache then s.(world := w)
      else
        System(w, Lru.Access(s.cache, key, Reply(c, s, e).Opened?, c.capacity),
               if Hit(s, a) || !Reply(c, s, e).Opened? then s.grants else s.grants[key := Grant(s.world.reg, e.now)])
    case Delete(e) =>
      s.(world := w, cache :=
        if Reply(c, s, e).Deleted? && e.req.DeleteReq? then
          ClientCache.Cleared(s.cache, ClientCache.Filter(Some(e.req.oid), None, None))
        else s.cache)
    case Clear(f) =>
      if f.mode.Some? && f.mode.value !in ClientCache.MODES then s else s.(cache := ClientCache.Cleared(s.cache, f))
    case Other(_) => s.(world := w)
  }

  predicate Run(c: Setup, s: System, acts: seq<Action>)
    decreases |acts|
  {
    acts == [] || (Enabled(c, s, acts[0]) && Run(c, Do(c, s, acts[0]), acts[1..]))
  }

  function After(c: Setup, s: System, acts: seq<Action>): System
    decreases |acts|
  {
    if acts == [] then s else After(c, Do(c, s, acts[0]), acts[1..])
  }

  function Start(now: real): System {
    System(Server.Start(now), [], map[])
  }

  /** What each step does to the cache: an open with the cache follows the order of Lru.Access,
      a confirmed delete takes the keys of its object, a clear those that its filters select,
      and nothing else changes it. */
  lemma CacheChangesExactly(c: Setup, s: System, a: Action)
    requires Enabled(c, s, a)
    ensures var after := Do(c, s, a).cache;
      match a
      case Open(key, useCache, e) =>
        if useCache && (key.mode == "read" || key.mode == "write") then
          after == Lru.Access(s.cache, key, Reply(c, s, e).Opened?, c.capacity)
        else after == s.cache
      case Delete(e) =>
        if Reply(c, s, e).Deleted? then forall k :: k in after <==> k in s.cache && k.objectId != e.req.oid
        else after == s.cache
      case Clear(f) =>
        if f.mode.Some? && f.mode.value != "read" && f.mode.value != "write" then after == s.cache
        else forall k :: k in after <==>
          && k in s.cache
          && (|| (f.objectId.Some? && k.objectId != f.objectId.value)
              || (f.token.Some? && k.token != f.token.value)
              || (f.mode.Some? && k.mode != f.mode.value))
      case Other(_) => after == s.cache
  {
    match a
    case Delete(e) => ClientCache.ClearLeavesExactly(s.cache, ClientCache.Filter(Some(e.req.oid), None, None));
    case Clear(f) => ClientCache.ClearLeavesExactly(s.cache, f);
    case _ =>
  }

  // ----- cached entries were authorised -----

  function Permission(mode: string): Registry.Want {
    Registry.One(if mode == "write" then Registry.WRITE else Registry.READ)
  }

  predicate Authorised(c: Setup, k: Key, g: Grant) {
    k.mode in ClientCache.MODES && Capabilities.Accepts(c.hash, g.reg, g.now, k.objectId, k.token, Permission(k.mode))
  }

  /** If the token is still on record, it is the token of the grant, perhaps revoked since. */
  predicate SameToken(c: Setup, s: System, k: Key, g: Grant) {
    var h := c.hash(k.token);
    && h in s.world.usedHashes && h in g.reg.tokens && g.now <= s.world.now
    && (h in s.world.reg.tokens ==> s.world.reg.tokens[h].(revoked := false) == g.reg.tokens[h])
  }

  ghost predicate Inv(c: Setup, s: System) {
    && Server.Inv(s.world)
    && forall k :: k in s.cache ==> k in s.grants && Authorised(c, k, s.grants[k]) && SameToken(c, s, k, s.grants[k])
  }

  lemma StartsSound(c: Setup, now: real)
    ensures Inv(c, Start(now))
  {
  }

  lemma OpenedIsAuthorised(c: Setup, s: System, key: Key, e: Server.Event)
    requires Server.Inv(s.world) && e.req == Server.OpenReq(key.objectId, key.token, key.mode)
    requires key.mode in ClientCache.MODES && Reply(c, s, e).Opened?
    ensures Authorised(c, key, Grant(s.world.reg, e.now))
    ensures c.hash(key.token) in s.world.reg.tokens && !s.world.reg.tokens[c.hash(key.token)].revoked
  {
  }

  /** A step of the daemon keeps what is known about a cached entry. */
  lemma SameTokenStays(c: Setup, s: System, e: Server.Event, k: Key, g: Grant)
    requires Server.Inv(s.world) && Server.Fresh(c.hash, s.world, e) && SameToken(c, s, k, g)
    ensures SameToken(c, s.(world := Server.Step(c.hash, s.world, e)), k, g)
  {
    Capabilities.StepKeepsHistory(c.hash, s.world, e);
    Capabilities.StepOnToken(c.hash, s.world, e, k.objectId, k.token);
  }

  lemma StepKeepsInv(c: Setup, s: System, a: Action)
    requires Inv(c, s) && Enabled(c, s, a)
    ensures Inv(c, Do(c, s, a))
  {
    if Served(s, a) {
      Server.StepKeepsInv(c.hash, s.world, a.e);
    }
    var t := Do(c, s, a);
    forall k | k in t.cache
      ensures k in t.grants && Authorised(c, k, t.grants[k]) && SameToken(c, t, k, t.grants[k])
    {
      if k in s.cache {
        if Served(s, a) {
          SameTokenStays(c, s, a.e, k, s.grants[k]);
        }
      } else {
        OpenedIsAuthorised(c, s, k, a.e);
        assert SameToken(c, s.(world := s.world.(now := a.e.later)), k, Grant(s.world.reg, a.e.now));
      }
    }
  }

  lemma {:induction false} RunKeepsInv(c: Setup, s: System, acts: seq<Action>)
    requires Inv(c, s) && Run(c, s, acts)
    ensures Inv(c, After(c, s, acts))
    decreases |acts|
  {
    if acts != [] {
      StepKeepsInv(c, s, acts[0]);
      RunKeepsInv(c, Do(c, s, acts[0]), acts[1..]);
    }
  }

  /** In every run each cached entry was authorised, for its own object, token and mode, by
      the validate call that opened it. */
  lemma CachedWasAuthorised(c: Setup, start: real, acts: seq<Action>, k: Key)
    requires Run(c, Start(start), acts) && k in After(c, Start(start), acts).cache
    ensures var s := After(c, Start(start), acts);
      && (k.mode == "read" || k.mode == "write") && k in s.grants
      && Capabilities.Accepts(c.hash, s.grants[k].reg, s.grants[k].now, k.objectId, k.token, Registry.One(k.mode))
  {
    StartsSound(c, start);
    RunKeepsInv(c, Start(start), acts);
  }

  /** How far a hit can outlive its capability: the daemon would refuse the same open at that
      moment exactly if the token has been revoked, has expired, or went with its object. */
  lemma HitOutlivesOnlyCancelled(c: Setup, start: real, acts: seq<Action>, k: Key, now: real)
    requires Run(c, Start(start), acts) && k in After(c, Start(start), acts).cache
    ensures var s, h := After(c, Start(start), acts), c.hash(k.token);
      Capabilities.Accepts(c.hash, s.world.reg, now, k.objectId, k.token, Registry.One(k.mode)) <==>
        h in s.world.reg.tokens && !s.world.reg.tokens[h].revoked && !Registry.Expired(s.world.reg.tokens[h], now)
  {
    StartsSound(c, start);
    RunKeepsInv(c, Start(start), acts);
    var s := After(c, Start(start), acts);
    Capabilities.AcceptsExactly(c.hash, s.world, now, k.objectId, k.token, Permission(k.mode));
  }

  // ----- deletion -----

  predicate Gone(s: System, oid: string) {
    oid in s.world.usedIds && oid !in s.world.reg.objects && forall k :: k in s.cache ==> k.objectId != oid
  }

  lemma GoneStaysGone(c: Setup, s: System, a: Action, oid: string)
    requires Enabled(c, s, a) && Gone(s, oid)
    ensures Gone(Do(c, s, a), oid) && (a.Open? && a.key.objectId == oid ==> !Succeeds(c, s, a))
  {
    if Served(s, a) {
      Capabilities.DeletedStepsOn(c.hash, s.world, a.e, oid);
    }
  }

  /** None of the client's opens of the object succeeds, from the cache or otherwise. */
  ghost predicate NeverOpened(c: Setup, s: System, acts: seq<Action>, oid: string)
    decreases |acts|
  {
    acts == [] ||
    (&& (acts[0].Open? && acts[0].key.objectId == oid ==> !Succeeds(c, s, acts[0]))
     && NeverOpened(c, Do(c, s, acts[0]), acts[1..], oid))
  }

  lemma {:induction false} GoneForGood(c: Setup, s: System, acts: seq<Action>, oid: string)
    requires Gone(s, oid) && Run(c, s, acts)
    ensures NeverOpened(c, s, acts, oid) && Gone(After(c, s, acts), oid)
    decreases |acts|
  {
    if acts != [] {
      GoneStaysGone(c, s, acts[0], oid);
      GoneForGood(c, Do(c, s, acts[0]), acts[1..], oid);
    }
  }

  /** After a delete that the daemon confirmed, no later open of the object by this client
      hits the cache or is granted, whatever everybody does. */
  lemma DeleteIsFinal(c: Setup, start: real, before: seq<Action>, e: Server.Event, later: seq<Action>)
    requires Run(c, Start(start), before)
    requires var s := After(c, Start(start), before);
      Enabled(c, s, Delete(e)) && Reply(c, s, e).Deleted? && Run(c, Do(c, s, Delete(e)), later)
    ensures var s := Do(c, After(c, Start(start), before), Delete(e));
      NeverOpened(c, s, later, e.req.oid) && forall k :: k in After(c, s, later).cache ==> k.objectId != e.req.oid
  {
    StartsSound(c, start);
    RunKeepsInv(c, Start(start), before);
    GoneForGood(c, Do(c, After(c, Start(start), before), Delete(e)), later, e.req.oid);
  }
}
