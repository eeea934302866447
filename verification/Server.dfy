/** The daemon: one registry step per request (mstore/server.py, _handle), and what holds of
    every run. */
module Server {
  import opened Core
  import opened Registry

  datatype Request =
    | Ping
    | CreateReq(size: int)
    | OpenReq(oid: string, token: string, mode: string)
    | InfoReq(oid: string, token: string)
    | GrantReq(oid: string, token: string, permissions: Want, expiresIn: Option<Lifetime>)
    | RevokeReq(oid: string, token: string, target: string)
    | DeleteReq(oid: string, token: string)
    | UnknownOp(oid: string)

  datatype Reply =
    | Pong
    | Created(oid: string, token: string)
    | Opened(oid: string)
    | Told(permissions: set<string>, expiresAt: Option<Float>)
    | Granted(token: string)
    | Revoked
    | Deleted
    | Refused(why: Refusal)

  /** The registry with its history: who derived which token from which, and every object id
      and token hash ever handed out. */
  datatype World = World(reg: State, parent: map<string, string>, usedIds: set<string>, usedHashes: set<string>,
      now: real)

  /** A request with the clock readings and the fresh names that the daemon draws for it; later
      is the second reading of a grant. */
  datatype Event = Event(req: Request, now: real, later: real, freshId: string, freshRaw: string)

  function OpenPermission(mode: string): Option<string> {
    if mode == "write" then Some(WRITE) else if mode == "read" then Some(READ) else None
  }

  /** _handle: dispatch to the registry. */
  function Handle(hash: string -> string, s: State, e: Event): (State, Reply) {
    match e.req
    case Ping => (s, Pong)
    case CreateReq(size) =>
      var (t, r) := Create(hash, s, size, e.freshId, e.freshRaw);
      (t, if r.Ok? then Created(e.freshId, r.value) else Refused(r.error))
    case OpenReq(oid, token, mode) =>
      if oid == "" || OpenPermission(mode).None? then (s, Refused(InvalidRequest))
      else
        var r := Validate(hash, s, e.now, oid, token, One(OpenPermission(mode).value));
        (s, if r.Ok? then Opened(oid) else Refused(r.error))
    case InfoReq(oid, token) =>
      if oid == "" then (s, Refused(InvalidRequest))
      else
        var r := Validate(hash, s, e.now, oid, token, One(INFO));
        (s, if r.Ok? then Told(r.value.permissions, r.value.expiresAt) else Refused(r.error))
    case GrantReq(oid, token, permissions, expiresIn) =>
      if oid == "" then (s, Refused(InvalidRequest))
      else
        var (t, r) := Issue(hash, s, e.now, e.later, oid, token, permissions, expiresIn, e.freshRaw);
        (t, if r.Ok? then Granted(r.value) else Refused(r.error))
    case RevokeReq(oid, token, target) =>
      if oid == "" || target == "" then (s, Refused(InvalidRequest))
      else
        var (t, r) := Revoke(hash, s, e.now, oid, token, target);
        (t, if r.None? then Revoked else Refused(r.value))
    case DeleteReq(oid, token) =>
      if oid == "" then (s, Refused(InvalidRequest))
      else
        var (t, r) := Delete(hash, s, e.now, oid, token);
        (t, if r.None? then Deleted else Refused(r.value))
    case UnknownOp(_) => (s, Refused(InvalidRequest))
  }

  /** One served request, with the history it leaves. */
  function Step(hash: string -> string, w: World, e: Event): World {
    var (s, reply) := Handle(hash, w.reg, e);
    match reply
    case Created(oid, raw) =>
      World(s, w.parent, w.usedIds + {oid}, w.usedHashes + {hash(raw)}, e.later)
    case Granted(raw) =>
      World(s, w.parent[hash(raw) := hash(e.req.token)], w.usedIds, w.usedHashes + {hash(raw)}, e.later)
    case _ => w.(reg := s, now := e.later)
  }

  /** The clock does not run backwards; drawn ids and tokens are new. */
  predicate Fresh(hash: string -> string, w: World, e: Event) {
    && w.now <= e.now <= e.later
    && e.freshId !in w.usedIds && e.freshId != ""
    && hash(e.freshRaw) !in w.usedHashes && e.freshRaw != ""
  }

  predicate Run(hash: string -> string, w: World, es: seq<Event>)
    decreases |es|
  {
    es == [] || (Fresh(hash, w, es[0]) && Run(hash, Step(hash, w, es[0]), es[1..]))
  }

  function After(hash: string -> string, w: World, es: seq<Event>): World
    decreases |es|
  {
    if es == [] then w else After(hash, Step(hash, w, es[0]), es[1..])
  }

  function Start(now: real): World {
    World(State(map[], map[]), map[], {}, {}, now)
  }

  // ----- what every step keeps -----

  /** There is a time at which this expiry is reached. */
  predicate Ends(e: Option<Float>) {
    e.Some? && e.value.Finite?
  }

  /** An expiry that comes no later than another one, if that one comes at all. */
  predicate NoLater(e: Option<Float>, limit: Option<Float>) {
    Ends(limit) ==> Ends(e) && e.value.t <= limit.value.t
  }

  /** For the same object, with no permission of its own. */
  predicate Within(t: Token, from: Token) {
    t.objectId == from.objectId && t.permissions <= from.permissions
  }

  predicate Attenuated(t: Token, from: Token) {
    Within(t, from) && NoLater(t.expiresAt, from.expiresAt)
  }

  ghost predicate Inv(w: World) {
    && w.reg.objects.Keys <= w.usedIds
    && w.reg.tokens.Keys <= w.usedHashes
    && (forall h :: h in w.reg.tokens ==> TokenSound(w.reg, w.reg.tokens[h]))
    && (forall h :: h in w.reg.tokens && h in w.parent ==>
          w.parent[h] in w.reg.tokens && Within(w.reg.tokens[h], w.reg.tokens[w.parent[h]]))
    && w.parent.Keys <= w.usedHashes
  }

  /** The token names a live object, carries its generation and has a closed permission set. */
  predicate TokenSound(s: State, t: Token) {
    && t.objectId in s.objects
    && t.generation == s.objects[t.objectId].generation
    && Closed(t.permissions)
  }

  lemma StartsSound(now: real)
    ensures Inv(Start(now))
  {
  }

  lemma CreateKeepsInv(hash: string -> string, w: World, e: Event)
    requires Inv(w) && Fresh(hash, w, e) && e.req.CreateReq?
    ensures Inv(Step(hash, w, e))
  {
  }

  lemma GrantKeepsInv(hash: string -> string, w: World, e: Event)
    requires Inv(w) && Fresh(hash, w, e) && e.req.GrantReq?
    ensures Inv(Step(hash, w, e))
  {
    if Handle(hash, w.reg, e).1.Granted? {
      var t := GrantAdds(hash, w, e);
      DerivedKeepsInv(w, hash(e.freshRaw), t, hash(e.req.token), e.later);
    }
  }

  /** What a grant adds: one token that the issuer's own record allows. */
  lemma GrantAdds(hash: string -> string, w: World, e: Event) returns (t: Token)
    requires Inv(w) && Fresh(hash, w, e) && e.req.GrantReq? && Handle(hash, w.reg, e).1.Granted?
    ensures TokenSound(w.reg, t) && hash(e.req.token) in w.reg.tokens
    ensures Within(t, w.reg.tokens[hash(e.req.token)])
    ensures Step(hash, w, e) ==
      World(w.reg.(tokens := w.reg.tokens[hash(e.freshRaw) := t]), w.parent[hash(e.freshRaw) := hash(e.req.token)],
            w.usedIds, w.usedHashes + {hash(e.freshRaw)}, e.later)
  {
    NormalizeCloses(e.req.permissions);
    t := Step(hash, w, e).reg.tokens[hash(e.freshRaw)];
  }

  lemma DerivedKeepsInv(w: World, h: string, t: Token, issuer: string, later: real)
    requires Inv(w) && h !in w.usedHashes && TokenSound(w.reg, t)
    requires issuer in w.reg.tokens && Within(t, w.reg.tokens[issuer])
    ensures Inv(World(w.reg.(tokens := w.reg.tokens[h := t]), w.parent[h := issuer], w.usedIds, w.usedHashes + {h},
                      later))
  {
  }

  lemma RevokeKeepsInv(hash: string -> string, w: World, e: Event)
    requires Inv(w) && Fresh(hash, w, e) && e.req.RevokeReq?
    ensures Inv(Step(hash, w, e))
  {
  }

  lemma DeleteKeepsInv(hash: string -> string, w: World, e: Event)
    requires Inv(w) && Fresh(hash, w, e) && e.req.DeleteReq?
    ensures Inv(Step(hash, w, e))
  {
  }

  lemma StepKeepsInv(hash: string -> string, w: World, e: Event)
    requires Inv(w) && Fresh(hash, w, e)
    ensures Inv(Step(hash, w, e))
  {
    match e.req
    case CreateReq(_) => CreateKeepsInv(hash, w, e);
    case GrantReq(_, _, _, _) => GrantKeepsInv(hash, w, e);
    case RevokeReq(_, _, _) => RevokeKeepsInv(hash, w, e);
    case DeleteReq(_, _) => DeleteKeepsInv(hash, w, e);
    case _ =>
  }

  lemma {:induction false} RunKeepsInv(hash: string -> string, w: World, es: seq<Event>)
    requires Inv(w) && Run(hash, w, es)
    ensures Inv(After(hash, w, es))
    decreases |es|
  {
    if es != [] {
      StepKeepsInv(hash, w, es[0]);
      RunKeepsInv(hash, Step(hash, w, es[0]), es[1..]);
    }
  }

  // ----- expiry -----

  /** No token on record outlives its issuer. */
  ghost predicate Timely(w: World) {
    forall h :: h in w.reg.tokens && h in w.parent && w.parent[h] in w.reg.tokens ==>
      NoLater(w.reg.tokens[h].expiresAt, w.reg.tokens[w.parent[h]].expiresAt)
  }

  /** The request is granted a lifetime of NaN by a token whose own time ends. */
  predicate MintsEndless(hash: string -> string, s: State, e: Event) {
    && Handle(hash, s, e).1.Granted? && e.req.GrantReq? && e.req.expiresIn == Some(Number(NaN))
    && hash(e.req.token) in s.tokens && Ends(s.tokens[hash(e.req.token)].expiresAt)
  }

  /** A delegated expiry comes no later than the issuer's, unless it is NaN and the issuer's
      time ends. */
  lemma DelegatedInTime(issuer: Option<Float>, later: real, seconds: Option<Float>)
    requires seconds != Some(MinusInfinite) && issuer != Some(MinusInfinite)
    ensures NoLater(DelegatedExpiry(issuer, later, seconds), issuer) <==> !(seconds == Some(NaN) && Ends(issuer))
  {
  }

  /** Every grant hands on a part of the issuer's permissions; and it is attenuated, in time
      as well, if and only if it is not a NaN minted from a token whose time ends. */
  lemma GrantAttenuatesExactly(hash: string -> string, w: World, e: Event)
    requires Inv(w) && Fresh(hash, w, e) && e.req.GrantReq? && Handle(hash, w.reg, e).1.Granted?
    ensures hash(e.freshRaw) in Step(hash, w, e).reg.tokens && hash(e.req.token) in w.reg.tokens
    ensures var t, issuer := Step(hash, w, e).reg.tokens[hash(e.freshRaw)], w.reg.tokens[hash(e.req.token)];
      Within(t, issuer) && (Attenuated(t, issuer) <==> !MintsEndless(hash, w.reg, e))
  {
  }

  /** One step keeps all tokens in time exactly if it does not mint an endless one. */
  lemma StepKeepsTimely(hash: string -> string, w: World, e: Event)
    requires Inv(w) && Fresh(hash, w, e) && Timely(w)
    ensures Timely(Step(hash, w, e)) <==> !MintsEndless(hash, w.reg, e)
  {
    var w' := Step(hash, w, e);
    if Handle(hash, w.reg, e).1.Granted? {
      GrantAttenuatesExactly(hash, w, e);
      var h := hash(e.freshRaw);
      assert h in w'.reg.tokens && w'.parent[h] == hash(e.req.token);
    }
  }

  /** No grant asks for a lifetime of NaN. */
  predicate NoNaN(es: seq<Event>) {
    forall i :: 0 <= i < |es| ==> !(es[i].req.GrantReq? && es[i].req.expiresIn == Some(Number(NaN)))
  }

  lemma {:induction false} RunKeepsTimely(hash: string -> string, w: World, es: seq<Event>)
    requires Inv(w) && Run(hash, w, es) && Timely(w) && NoNaN(es)
    ensures Timely(After(hash, w, es))
    decreases |es|
  {
    if es != [] {
      StepKeepsInv(hash, w, es[0]);
      StepKeepsTimely(hash, w, es[0]);
      RunKeepsTimely(hash, Step(hash, w, es[0]), es[1..]);
    }
  }
}
