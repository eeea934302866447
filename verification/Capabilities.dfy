/** What the registry promises over whole runs of the daemon. */
module Capabilities {
  import opened Core
  import opened Registry
  import opened Server

  // ----- attenuation -----

  /** path leads from a token through its issuers, each one the parent of the one before. */
  predicate Derivation(w: World, path: seq<string>) {
    path != [] && forall i :: 0 <= i < |path| - 1 ==> path[i] in w.parent && path[i + 1] == w.parent[path[i]]
  }

  /** Along the whole derivation of a token every ancestor is still on record for the same
      object and has all its permissions; and if no token outlives its own issuer, none
      outlives any ancestor. */
  lemma {:induction false} AttenuationAlongDerivation(w: World, path: seq<string>)
    requires Inv(w) && Derivation(w, path) && path[0] in w.reg.tokens
    ensures forall i :: 0 <= i < |path| ==>
      path[i] in w.reg.tokens && Within(w.reg.tokens[path[0]], w.reg.tokens[path[i]])
    ensures Timely(w) ==> forall i :: 0 <= i < |path| ==> Attenuated(w.reg.tokens[path[0]], w.reg.tokens[path[i]])
    decreases |path|
  {
    if |path| > 1 {
      assert path[1] == w.parent[path[0]];
      var rest := path[1..];
      forall i | 0 <= i < |rest| - 1 ensures rest[i] in w.parent && rest[i + 1] == w.parent[rest[i]] {
        assert rest[i] == path[i + 1] && rest[i + 1] == path[i + 2];
      }
      AttenuationAlongDerivation(w, rest);
      forall i | 1 <= i < |path|
        ensures path[i] in w.reg.tokens && Within(w.reg.tokens[path[0]], w.reg.tokens[path[i]])
        ensures Timely(w) ==> Attenuated(w.reg.tokens[path[0]], w.reg.tokens[path[i]])
      {
        assert path[i] == rest[i - 1];
      }
    }
  }

  /** In every state that the daemon reaches no token has a permission that one of its
      ancestors lacks. If no grant of the run asked for a lifetime of NaN, none outlives an
      ancestor either. */
  lemma AttenuationEverywhere(hash: string -> string, start: real, es: seq<Event>, path: seq<string>)
    requires Run(hash, Start(start), es)
    requires var w := After(hash, Start(start), es); Derivation(w, path) && path[0] in w.reg.tokens
    ensures var w := After(hash, Start(start), es);
      && (forall h :: h in w.reg.tokens ==> TokenSound(w.reg, w.reg.tokens[h]))
      && (forall i :: 0 <= i < |path| ==>
            path[i] in w.reg.tokens && w.reg.tokens[path[i]].objectId == w.reg.tokens[path[0]].objectId &&
            w.reg.tokens[path[0]].permissions <= w.reg.tokens[path[i]].permissions)
      && (NoNaN(es) ==> forall i :: 0 <= i < |path| ==>
            match w.reg.tokens[path[i]].expiresAt
            case Some(Finite(limit)) =>
              var own := w.reg.tokens[path[0]].expiresAt;
              own.Some? && own.value.Finite? && own.value.t <= limit
            case _ => true)
  {
    StartsSound(start);
    RunKeepsInv(hash, Start(start), es);
    if NoNaN(es) {
      RunKeepsTimely(hash, Start(start), es);
    }
    AttenuationAlongDerivation(After(hash, Start(start), es), path);
  }

  // ----- acceptance -----

  predicate Accepts(hash: string -> string, s: State, now: real, oid: string, raw: string, required: Want) {
    Validate(hash, s, now, oid, raw, required).Ok?
  }

  /** In a reachable state validate amounts to four checks on the token alone: the object is
      necessarily there and the generation necessarily current. */
  lemma AcceptsExactly(hash: string -> string, w: World, now: real, oid: string, raw: string, required: Want)
    requires Inv(w)
    ensures Accepts(hash, w.reg, now, oid, raw, required) <==>
      (&& raw != "" && Required(required).Ok? && hash(raw) in w.reg.tokens
       && var t := w.reg.tokens[hash(raw)];
         t.objectId == oid && !t.revoked && !Expired(t, now) && Required(required).value <= t.permissions)
  {
    if hash(raw) in w.reg.tokens {
      assert TokenSound(w.reg, w.reg.tokens[hash(raw)]);
    }
  }

  /** And the reason of every refusal: the first that applies of an unnamed token, an unknown
      permission, an object that is not there, a token that is not the object's, a revoked one,
      one whose time is up, and one that lacks a permission. */
  lemma RefusalsHaveReasons(hash: string -> string, w: World, now: real, oid: string, raw: string, required: Want)
    requires Inv(w)
    ensures var v := Validate(hash, w.reg, now, oid, raw, required);
      var asked := raw != "" && Required(required).Ok?;
      var there := asked && oid in w.reg.objects;
      var ours := there && hash(raw) in w.reg.tokens && w.reg.tokens[hash(raw)].objectId == oid;
      var revoked := ours && w.reg.tokens[hash(raw)].revoked;
      var late := ours && match w.reg.tokens[hash(raw)].expiresAt
        case Some(Finite(limit)) => now >= limit
        case Some(MinusInfinite) => true
        case _ => false;
      && (v == Err(AuthenticationError) <==> raw == "" || (there && !ours))
      && (v == Err(InvalidRequest) <==> raw != "" && !asked)
      && (v == Err(ObjectNotFound) <==> asked && !there)
      && (v == Err(TokenRevoked) <==> revoked)
      && (v == Err(TokenExpired) <==> late && !revoked)
      && (v == Err(PermissionDenied) <==>
            ours && !revoked && !late && !(Required(required).value <= w.reg.tokens[hash(raw)].permissions))
  {
    NormalizeCloses(required);
    if hash(raw) in w.reg.tokens {
      assert TokenSound(w.reg, w.reg.tokens[hash(raw)]);
    }
  }

  /** The event revokes this token, or deletes this object. */
  predicate Cancels(hash: string -> string, s: State, e: Event, oid: string, raw: string) {
    match Handle(hash, s, e).1
    case Revoked => e.req.oid == oid && hash(e.req.target) == hash(raw)
    case Deleted => e.req.oid == oid
    case _ => false
  }

  /** One step leaves the standing of an issued token as it was, unless it cancels it. */
  lemma StepAcceptance(hash: string -> string, w: World, e: Event, now: real, oid: string, raw: string, required: Want)
    requires Inv(w) && Fresh(hash, w, e) && hash(raw) in w.usedHashes
    ensures Accepts(hash, Step(hash, w, e).reg, now, oid, raw, required) <==>
      Accepts(hash, w.reg, now, oid, raw, required) && !Cancels(hash, w.reg, e, oid, raw)
  {
    StepKeepsInv(hash, w, e);
    AcceptsExactly(hash, w, now, oid, raw, required);
    AcceptsExactly(hash, Step(hash, w, e), now, oid, raw, required);
    StepOnToken(hash, w, e, oid, raw);
  }

  /** What one step does to the record of an issued token. */
  lemma StepOnToken(hash: string -> string, w: World, e: Event, oid: string, raw: string)
    requires Inv(w) && Fresh(hash, w, e) && hash(raw) in w.usedHashes
    ensures var h, s := hash(raw), Step(hash, w, e).reg;
      && (h in s.tokens ==> h in w.reg.tokens && s.tokens[h].(revoked := w.reg.tokens[h].revoked) == w.reg.tokens[h])
      && (h in w.reg.tokens && w.reg.tokens[h].objectId == oid && !w.reg.tokens[h].revoked ==>
            (Cancels(hash, w.reg, e, oid, raw) <==> h !in s.tokens || s.tokens[h].revoked))
      && (h in w.reg.tokens && h in s.tokens && w.reg.tokens[h].revoked ==> s.tokens[h].revoked)
  {
  }

  predicate CancelledDuring(hash: string -> string, w: World, es: seq<Event>, oid: string, raw: string)
    decreases |es|
  {
    es != [] && (Cancels(hash, w.reg, es[0], oid, raw) ||
      CancelledDuring(hash, Step(hash, w, es[0]), es[1..], oid, raw))
  }

  lemma StepKeepsHistory(hash: string -> string, w: World, e: Event)
    ensures w.usedHashes <= Step(hash, w, e).usedHashes && w.usedIds <= Step(hash, w, e).usedIds
  {
  }

  /** Over any run: an issued token is accepted at the end exactly if it would have been
      accepted at the start, at that time of day, and nothing in between cancelled it. */
  lemma {:induction false} RunAcceptance(
    hash: string -> string, w: World, es: seq<Event>, now: real, oid: string, raw: string, required: Want)
    requires Inv(w) && Run(hash, w, es) && hash(raw) in w.usedHashes
    ensures Accepts(hash, After(hash, w, es).reg, now, oid, raw, required) <==>
      Accepts(hash, w.reg, now, oid, raw, required) && !CancelledDuring(hash, w, es, oid, raw)
    decreases |es|
  {
    if es != [] {
      var w1 := Step(hash, w, es[0]);
      StepAcceptance(hash, w, es[0], now, oid, raw, required);
      StepKeepsInv(hash, w, es[0]);
      StepKeepsHistory(hash, w, es[0]);
      RunAcceptance(hash, w1, es[1..], now, oid, raw, required);
    }
  }

  /** Rejection is permanent: once an issued token is refused for an object and a permission,
      it is refused at every later time in every later state. */
  lemma RejectionIsPermanent(
    hash: string -> string, w: World, es: seq<Event>, now: real, later: real, oid: string, raw: string, required: Want)
    requires Inv(w) && Run(hash, w, es) && hash(raw) in w.usedHashes && now <= later
    requires !Accepts(hash, w.reg, now, oid, raw, required)
    ensures !Accepts(hash, After(hash, w, es).reg, later, oid, raw, required)
  {
    RunAcceptance(hash, w, es, later, oid, raw, required);
    AcceptsExactly(hash, w, now, oid, raw, required);
    AcceptsExactly(hash, w, later, oid, raw, required);
  }

  // ----- what requests need and what they yield -----

  /** The guards of the requests, read back from the dispatch for use elsewhere. */
  lemma RequestsAreGuarded(hash: string -> string, s: State, e: Event)
    ensures Handle(hash, s, e).1.Refused? ==> Handle(hash, s, e).0 == s
    ensures e.req.Ping? ==> Handle(hash, s, e).1 == Pong
    ensures !e.req.Ping? && !e.req.CreateReq? && (e.req.UnknownOp? || e.req.oid == "") ==>
      Handle(hash, s, e).1 == Refused(InvalidRequest)
    ensures e.req.OpenReq? && e.req.oid != "" ==>
      (Handle(hash, s, e).1 == Opened(e.req.oid) <==>
        || (e.req.mode == "read" && Accepts(hash, s, e.now, e.req.oid, e.req.token, One(READ)))
        || (e.req.mode == "write" && Accepts(hash, s, e.now, e.req.oid, e.req.token, One(WRITE))))
    ensures e.req.InfoReq? && e.req.oid != "" ==>
      (Handle(hash, s, e).1.Told? <==> Accepts(hash, s, e.now, e.req.oid, e.req.token, One(INFO)))
    ensures e.req.DeleteReq? && e.req.oid != "" ==>
      (Handle(hash, s, e).1.Deleted? <==> Accepts(hash, s, e.now, e.req.oid, e.req.token, One(DELETE)))
    ensures e.req.GrantReq? && e.req.oid != "" ==>
      (Handle(hash, s, e).1.Granted? <==>
        && Accepts(hash, s, e.now, e.req.oid, e.req.token, One(GRANT))
        && Normalize(e.req.permissions).Ok? &&
          Normalize(e.req.permissions).value <= s.tokens[hash(e.req.token)].permissions
        && (e.req.expiresIn.Some? ==> Seconds(e.req.expiresIn.value).Ok?))
    ensures e.req.RevokeReq? && e.req.oid != "" ==>
      (Handle(hash, s, e).1.Revoked? <==>
        && e.req.target != "" && Accepts(hash, s, e.now, e.req.oid, e.req.token, One(GRANT))
        && hash(e.req.target) in s.tokens && s.tokens[hash(e.req.target)].objectId == e.req.oid
        && !(s.tokens[hash(e.req.target)].permissions == ALL_PERMISSIONS && e.req.target == e.req.token))
  {
  }

  /** Why a request about a named object is refused: for the reason that validate has, or for
      one of its own, which a grant brings up before (unknown permissions) or after. */
  lemma RefusedRequests(hash: string -> string, s: State, e: Event, why: Refusal)
    requires !e.req.Ping? && !e.req.CreateReq? && !e.req.UnknownOp? && e.req.oid != ""
    ensures var refused := Handle(hash, s, e).1 == Refused(why);
      match e.req
      case OpenReq(oid, token, mode) =>
        refused <==> if mode == "read" then Validate(hash, s, e.now, oid, token, One("read")) == Err(why)
                     else if mode == "write" then Validate(hash, s, e.now, oid, token, One("write")) == Err(why)
                     else why == InvalidRequest
      case InfoReq(oid, token) => refused <==> Validate(hash, s, e.now, oid, token, One("info")) == Err(why)
      case DeleteReq(oid, token) => refused <==> Validate(hash, s, e.now, oid, token, One("delete")) == Err(why)
      case GrantReq(oid, token, permissions, expiresIn) =>
        var v := Validate(hash, s, e.now, oid, token, One("grant"));
        refused <==>
          if Normalize(permissions).Err? then why == InvalidRequest
          else if v.Err? then v == Err(why)
          else if !(Normalize(permissions).value <= v.value.permissions) then why == PermissionDenied
          else expiresIn.Some? && Seconds(expiresIn.value) == Err(why)
      case RevokeReq(oid, token, target) =>
        var v := Validate(hash, s, e.now, oid, token, One("grant"));
        var known := hash(target) in s.tokens && s.tokens[hash(target)].objectId == oid;
        var owner := known && s.tokens[hash(target)].permissions == {"read", "write", "grant", "delete", "info"};
        refused <==>
          if target == "" then why == InvalidRequest
          else if v.Err? then v == Err(why)
          else if !known then why == AuthenticationError
          else why == InvalidRequest && target == token && owner
      case _ => true
  {
    NormalizeCloses(if e.req.GrantReq? then e.req.permissions else One("grant"));
  }

  /** A granted token is good for exactly what was asked for, until its own expiry and no
      longer than its issuer's; asked for NaN seconds, for ever. */
  lemma GrantDelivers(hash: string -> string, w: World, e: Event, now: real, required: Want)
    requires Inv(w) && Fresh(hash, w, e) && e.req.GrantReq? && Handle(hash, w.reg, e).1.Granted?
    ensures Handle(hash, w.reg, e).1 == Granted(e.freshRaw) && hash(e.req.token) in w.reg.tokens
    ensures Accepts(hash, Step(hash, w, e).reg, now, e.req.oid, e.freshRaw, required) <==>
      && Required(required).Ok? && Required(required).value <= Normalize(e.req.permissions).value
      && match e.req.expiresIn
         case None => !Expired(w.reg.tokens[hash(e.req.token)], now)
         case Some(Number(Finite(seconds))) =>
           !Expired(w.reg.tokens[hash(e.req.token)], now) && now < e.later + seconds
         case Some(Number(Infinite)) => !Expired(w.reg.tokens[hash(e.req.token)], now)
         case Some(Number(NaN)) => true
         case _ => false
  {
    StepKeepsInv(hash, w, e);
    AcceptsExactly(hash, Step(hash, w, e), now, e.req.oid, e.freshRaw, required);
  }

  /** The token of a new object is good for every permission at any time. (Asked for the alias
      "admin" as a single permission, validate refuses every token: no token holds that name.) */
  lemma CreateDelivers(hash: string -> string, w: World, e: Event, now: real, required: Want)
    requires Inv(w) && Fresh(hash, w, e) && e.req.CreateReq?
    ensures Handle(hash, w.reg, e).1 == if e.req.size > 0 then Created(e.freshId, e.freshRaw)
      else Refused(InvalidRequest)
    ensures e.req.size > 0 ==>
      && (Accepts(hash, Step(hash, w, e).reg, now, e.freshId, e.freshRaw, required) <==>
            Required(required).Ok? && required != One("admin"))
      && e.freshId in Step(hash, w, e).reg.objects && Step(hash, w, e).reg.objects[e.freshId] == Obj(e.req.size, 1)
  {
    StepKeepsInv(hash, w, e);
    AcceptsExactly(hash, Step(hash, w, e), now, e.freshId, e.freshRaw, required);
    NormalizeCloses(required);
  }

  /** A revoked token is refused, and a deletion refuses every token of its object; each for
      that reason, unless the question itself is at fault. */
  lemma CancellingCancels(hash: string -> string, w: World, e: Event, now: real, oid: string, raw: string,
      required: Want)
    requires Inv(w) && Fresh(hash, w, e) && Cancels(hash, w.reg, e, oid, raw)
    ensures !Accepts(hash, Step(hash, w, e).reg, now, oid, raw, required)
    ensures raw != "" && Required(required).Ok? ==>
      Validate(hash, Step(hash, w, e).reg, now, oid, raw, required) ==
        Err(if Handle(hash, w.reg, e).1.Deleted? then ObjectNotFound else TokenRevoked)
  {
    StepKeepsInv(hash, w, e);
    AcceptsExactly(hash, Step(hash, w, e), now, oid, raw, required);
    RefusalsHaveReasons(hash, Step(hash, w, e), now, oid, raw, required);
  }

  /** What info tells about a token: the operations for which the daemon accepts it at that
      moment, and until when it will. */
  lemma InfoTellsStanding(hash: string -> string, w: World, e: Event, now: real)
    requires Inv(w) && e.req.InfoReq? && Handle(hash, w.reg, e).1.Told?
    ensures var told, s, oid, token := Handle(hash, w.reg, e).1, w.reg, e.req.oid, e.req.token;
      && told.permissions <= {"read", "write", "grant", "delete", "info"}
      && (forall q :: q in {"read", "write", "grant", "delete", "info"} ==>
            (q in told.permissions <==> Accepts(hash, s, e.now, oid, token, One(q))))
      && (Accepts(hash, s, now, oid, token, One("info")) <==>
            match told.expiresAt
            case Some(Finite(limit)) => now < limit
            case Some(MinusInfinite) => false
            case _ => true)
  {
    var oid, token := e.req.oid, e.req.token;
    forall q | q in {"read", "write", "grant", "delete", "info"}
      ensures Required(One(q)) == Ok({q})
      ensures q in Handle(hash, w.reg, e).1.permissions <==> Accepts(hash, w.reg, e.now, oid, token, One(q))
    {
      NormalizeCloses(One(q));
      AcceptsExactly(hash, w, e.now, oid, token, One(q));
    }
    AcceptsExactly(hash, w, now, oid, token, One("info"));
  }

  // ----- a lifetime of NaN -----

  /** An object is created, its owner grants a token for ten seconds, and one second later that
      token grants another one for NaN seconds. */
  function EndlessRun(): seq<Event> {
    [Event(CreateReq(1), 0.0, 0.0, "object", "a"),
     Event(GrantReq("object", "a", Many({READ, GRANT}), Some(Number(Finite(10.0)))), 0.0, 0.0, "x", "bb"),
     Event(GrantReq("object", "bb", Many({READ}), Some(Number(NaN))), 1.0, 1.0, "x", "ccc")]
  }

  /** The records of the three tokens. */
  function Owner(): Token {
    Token("object", ALL_PERMISSIONS, 1, None, false)
  }

  function Brief(): Token {
    Token("object", {READ, GRANT, INFO}, 1, Some(Finite(10.0)), false)
  }

  function Endless(): Token {
    Token("object", {READ, INFO}, 1, Some(NaN), false)
  }

  /** The worlds of the run, in which a raw token is its own hash. */
  function Worlds(i: nat): World {
    var objects := map["object" := Obj(1, 1)];
    if i == 0 then Start(0.0)
    else if i == 1 then World(State(objects, map["a" := Owner()]), map[], {"object"}, {"a"}, 0.0)
    else if i == 2 then
      World(State(objects, map["a" := Owner(), "bb" := Brief()]), map["bb" := "a"], {"object"}, {"a", "bb"}, 0.0)
    else
      World(State(objects, map["a" := Owner(), "bb" := Brief(), "ccc" := Endless()]),
            map["bb" := "a", "ccc" := "bb"], {"object"}, {"a", "bb", "ccc"}, 1.0)
  }

  function Plain(raw: string): string {
    raw
  }

  lemma FirstEvent()
    ensures Fresh(Plain, Worlds(0), EndlessRun()[0]) && Step(Plain, Worlds(0), EndlessRun()[0]) == Worlds(1)
  {
  }

  lemma SecondEvent()
    ensures Fresh(Plain, Worlds(1), EndlessRun()[1]) && Step(Plain, Worlds(1), EndlessRun()[1]) == Worlds(2)
  {
    assert WRITE !in {READ, GRANT} && {READ, GRANT} + {INFO} == {READ, GRANT, INFO};
    assert Normalize(Many({READ, GRANT})) == Ok({READ, GRANT, INFO});
    assert Validate(Plain, Worlds(1).reg, 0.0, "object", "a", One(GRANT)) == Ok(Owner());
  }

  lemma ThirdEvent()
    ensures Fresh(Plain, Worlds(2), EndlessRun()[2]) && Step(Plain, Worlds(2), EndlessRun()[2]) == Worlds(3)
  {
    assert WRITE !in {READ} && {READ} + {INFO} == {READ, INFO};
    assert Normalize(Many({READ})) == Ok({READ, INFO});
    assert Validate(Plain, Worlds(2).reg, 1.0, "object", "bb", One(GRANT)) == Ok(Brief());
  }

  /** The condition of AttenuationEverywhere is needed: the run is there, and at every time
      after the issuer has expired, the token that it derived is still accepted. */
  lemma EndlessTokenOutlivesItsIssuer(now: real)
    requires now >= 10.0
    ensures Run(Plain, Start(0.0), EndlessRun())
    ensures var w := After(Plain, Start(0.0), EndlessRun());
      && "ccc" in w.parent && w.parent["ccc"] == "bb"
      && Validate(Plain, w.reg, now, "object", "bb", One(READ)) == Err(TokenExpired)
      && Accepts(Plain, w.reg, now, "object", "ccc", One(READ))
  {
    FirstEvent();
    SecondEvent();
    ThirdEvent();
    var es := EndlessRun();
    RunOfThree(Plain, es, Worlds(0), Worlds(1), Worlds(2), Worlds(3));
  }

  lemma RunOfThree(hash: string -> string, es: seq<Event>, w0: World, w1: World, w2: World, w3: World)
    requires |es| == 3
    requires Fresh(hash, w0, es[0]) && Step(hash, w0, es[0]) == w1
    requires Fresh(hash, w1, es[1]) && Step(hash, w1, es[1]) == w2
    requires Fresh(hash, w2, es[2]) && Step(hash, w2, es[2]) == w3
    ensures Run(hash, w0, es) && After(hash, w0, es) == w3
  {
    var es1 := es[1..];
    var es2 := es1[1..];
    assert es1[0] == es[1] && es2[0] == es[2] && es2[1..] == [];
    assert Run(hash, w3, es2[1..]) && After(hash, w3, es2[1..]) == w3;
    assert Run(hash, w2, es2) && After(hash, w2, es2) == w3;
    assert Run(hash, w1, es1) && After(hash, w1, es1) == w3;
  }

  // ----- isolation -----

  /** The object a request is about. */
  function Subject(e: Event): Option<string> {
    match e.req
    case Ping => None
    case CreateReq(_) => Some(e.freshId)
    case UnknownOp(_) => None
    case _ => Some(e.req.oid)
  }

  /** No request about one object changes any validation outcome for another, down to the
      reason of a refusal. */
  lemma Isolation(hash: string -> string, w: World, e: Event, now: real, oid: string, raw: string, required: Want)
    requires Inv(w) && Fresh(hash, w, e) && Subject(e) != Some(oid)
    ensures Validate(hash, Step(hash, w, e).reg, now, oid, raw, required)
         == Validate(hash, w.reg, now, oid, raw, required)
  {
    var s, s' := w.reg, Step(hash, w, e).reg;
    assert oid in s'.objects <==> oid in s.objects;
    assert oid in s.objects ==> s'.objects[oid] == s.objects[oid];
    ForeignTokens(hash, w, e, oid, raw);
  }

  /** A request about another object changes no token of this one and adds none. */
  lemma ForeignTokens(hash: string -> string, w: World, e: Event, oid: string, raw: string)
    requires Inv(w) && Fresh(hash, w, e) && Subject(e) != Some(oid)
    ensures var h, s, s' := hash(raw), w.reg, Step(hash, w, e).reg;
      && (h in s.tokens && s.tokens[h].objectId == oid ==> h in s'.tokens && s'.tokens[h] == s.tokens[h])
      && (h in s'.tokens && s'.tokens[h].objectId == oid ==> h in s.tokens && s.tokens[h].objectId == oid)
  {
  }

  // ----- deletion -----

  /** A deletion removes the object and exactly its tokens. */
  lemma DeleteIsExact(hash: string -> string, w: World, e: Event)
    requires Inv(w) && Handle(hash, w.reg, e).1.Deleted?
    ensures var s := Step(hash, w, e).reg;
      && s.objects.Keys == w.reg.objects.Keys - {e.req.oid}
      && (forall h :: h in s.tokens <==> h in w.reg.tokens && w.reg.tokens[h].objectId != e.req.oid)
      && (forall h :: h in s.tokens ==> s.tokens[h] == w.reg.tokens[h])
      && (forall h :: h in w.reg.tokens && h in w.parent && h !in s.tokens ==> w.parent[h] !in s.tokens)
  {
  }

  /** A deleted object stays deleted: ids are never drawn twice. */
  lemma {:induction false} DeletedStaysDeleted(hash: string -> string, w: World, es: seq<Event>, oid: string)
    requires Run(hash, w, es) && oid in w.usedIds && oid !in w.reg.objects
    ensures oid in After(hash, w, es).usedIds && oid !in After(hash, w, es).reg.objects
    decreases |es|
  {
    if es != [] {
      DeletedStepsOn(hash, w, es[0], oid);
      DeletedStaysDeleted(hash, Step(hash, w, es[0]), es[1..], oid);
    }
  }

  /** While an object lives its record stays as it was created. */
  lemma {:induction false} RecordsStand(hash: string -> string, w: World, es: seq<Event>, oid: string)
    requires Inv(w) && Run(hash, w, es) && oid in w.usedIds && oid in After(hash, w, es).reg.objects
    ensures oid in w.reg.objects && After(hash, w, es).reg.objects[oid] == w.reg.objects[oid]
    decreases |es|
  {
    if oid !in w.reg.objects {
      DeletedStaysDeleted(hash, w, es, oid);
    } else if es != [] {
      StepKeepsInv(hash, w, es[0]);
      StepKeepsHistory(hash, w, es[0]);
      RecordsStand(hash, Step(hash, w, es[0]), es[1..], oid);
    }
  }

  lemma DeletedStepsOn(hash: string -> string, w: World, e: Event, oid: string)
    requires Fresh(hash, w, e) && oid in w.usedIds && oid !in w.reg.objects
    ensures oid in Step(hash, w, e).usedIds && oid !in Step(hash, w, e).reg.objects
  {
  }
}
