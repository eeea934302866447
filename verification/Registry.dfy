/** The capability registry (examples/zeromq_mutable_shm_chain/mstore/registry.py). */
module Registry {
  import opened Core

  const READ := "read"
  const WRITE := "write"
  const GRANT := "grant"
  const DELETE := "delete"
  const INFO := "info"
  const ALL_PERMISSIONS: set<string> := {READ, WRITE, GRANT, DELETE, INFO}

  datatype Refusal =
    InvalidRequest | AuthenticationError | ObjectNotFound | TokenRevoked | TokenExpired | PermissionDenied
    | InternalError  // any other exception

  /** A permission argument: one name, or a collection of names. */
  datatype Want = One(name: string) | Many(names: set<string>)

  /** A Python float; rounding is left aside. */
  datatype Float = Finite(t: real) | Infinite | MinusInfinite | NaN

  /** `x < y`: NaN compares false with everything. */
  predicate Less(x: Float, y: Float) {
    match (x, y)
    case (Finite(s), Finite(t)) => s < t
    case (Finite(_), Infinite) => true
    case (MinusInfinite, Finite(_)) => true
    case (MinusInfinite, Infinite) => true
    case _ => false
  }

  /** `min(x, y)`: the first argument, unless the second is less. */
  function Min(x: Float, y: Float): Float {
    if Less(y, x) then y else x
  }

  function Plus(now: real, d: Float): Float {
    match d
    case Finite(t) => Finite(now + t)
    case _ => d
  }

  /** `now >= limit`. */
  predicate Reached(now: real, limit: Float) {
    match limit
    case Finite(t) => now >= t
    case MinusInfinite => true
    case _ => false
  }

  /** What a request may carry as expires_in: a number, an int beyond the range of floats, or
      something that does not compare with 0. */
  datatype Lifetime = Number(f: Float) | HugeInt(positive: bool) | NoNumber

  /** `expires_in <= 0` and `float(expires_in)`, with their exceptions. */
  function Seconds(l: Lifetime): Result<Float, Refusal> {
    match l
    case NoNumber => Err(InternalError)
    case HugeInt(positive) => Err(if positive then InternalError else InvalidRequest)
    case Number(f) => if Less(f, Finite(0.0)) || f == Finite(0.0) then Err(InvalidRequest) else Ok(f)
  }

  /** A lifetime is accepted exactly if it is a number of floats that is positive, infinite or
      NaN; what does not compare, and what no float can hold, is an internal error. */
  lemma LifetimeIsChecked(l: Lifetime)
    ensures Seconds(l).Ok? <==> l.Number? && (l.f == Infinite || l.f == NaN || (l.f.Finite? && l.f.t > 0.0))
    ensures Seconds(l).Ok? ==> Seconds(l).value == l.f
    ensures Seconds(l) == Err(InternalError) <==> l == NoNumber || l == HugeInt(true)
    ensures Seconds(l).Err? && Seconds(l) != Err(InternalError) ==> Seconds(l) == Err(InvalidRequest)
  {
  }

  datatype Obj = Obj(size: int, generation: nat)

  datatype Token = Token(
    objectId: string, permissions: set<string>, generation: nat, expiresAt: Option<Float>, revoked: bool)

  /** Objects by id, tokens by the hash of the raw token. */
  datatype State = State(objects: map<string, Obj>, tokens: map<string, Token>)

  function Normalize(value: Want): Result<set<string>, Refusal> {
    if value == One("read") then Ok({READ, INFO})
    else if value == One("write") then Ok({READ, WRITE, INFO})
    else if value == One("admin") then Ok(ALL_PERMISSIONS)
    else
      var names := if value.One? then {value.name} else value.names;
      if !(names <= ALL_PERMISSIONS) then Err(InvalidRequest)
      else
        var withRead := if WRITE in names then names + {READ} else names;
        Ok(if withRead != {} then withRead + {INFO} else withRead)
  }

  /** Write implies read, and any permission implies info. */
  predicate Closed(permissions: set<string>) {
    && permissions <= ALL_PERMISSIONS
    && (WRITE in permissions ==> READ in permissions)
    && (permissions != {} ==> INFO in permissions)
  }

  /** The permissions that an argument names; "admin" stands for all of them. */
  function Named(value: Want): set<string> {
    match value
    case One(name) => if name == "admin" then ALL_PERMISSIONS else {name}
    case Many(names) => names
  }

  /** Normalising accepts exactly known names, and yields the least closed set that contains
      what was asked for: read is added to write, and info to anything. */
  lemma NormalizeCloses(value: Want)
    ensures var names := if value == One("admin") then {"read", "write", "grant", "delete", "info"}
        else if value.One? then {value.name} else value.names;
      && (Normalize(value).Err? ==> Normalize(value) == Err(InvalidRequest))
      && (Normalize(value).Ok? <==> names <= {"read", "write", "grant", "delete", "info"})
      && (Normalize(value).Ok? ==> forall p :: p in Normalize(value).value <==>
            (p in names || (p == "read" && "write" in names) || (p == "info" && names != {})))
    ensures Normalize(value).Ok? <==> Named(value) <= ALL_PERMISSIONS
    ensures Normalize(value).Ok? ==>
      && Closed(Normalize(value).value) && Named(value) <= Normalize(value).value
      && forall p | Closed(p) && Named(value) <= p :: Normalize(value).value <= p
    ensures Closed(Named(value)) ==> Normalize(value) == Ok(Named(value))
  {
    assert Named(One("read")) == {READ} && Named(One("write")) == {WRITE};
    if Closed(Named(value)) {
      assert Normalize(value).value == Named(value);
    }
  }

  /** What validate checks the token against: a single name stands for itself alone. */
  function Required(required: Want): Result<set<string>, Refusal> {
    var all := Normalize(required);
    if all.Ok? && required.One? && required.name != INFO then Ok({required.name}) else all
  }

  /** One known name asks for itself alone ("admin" for a permission of that name, which no
      token has), a collection for all that it normalises to. */
  lemma RequiredNames(required: Want)
    ensures Required(required).Ok? <==> Normalize(required).Ok?
    ensures Required(required).Ok? && required.One? ==> Required(required).value == {required.name}
    ensures required.Many? ==> Required(required) == Normalize(required)
  {
    NormalizeCloses(required);
  }

  predicate Expired(t: Token, now: real) {
    t.expiresAt.Some? && Reached(now, t.expiresAt.value)
  }

  function Validate(hash: string -> string, s: State, now: real, oid: string, raw: string, required: Want):
      Result<Token, Refusal> {
    if raw == "" then Err(AuthenticationError) else
    var needed := Required(required);
    if needed.Err? then Err(needed.error)
    else if oid !in s.objects then Err(ObjectNotFound)
    else if hash(raw) !in s.tokens || s.tokens[hash(raw)].objectId != oid then Err(AuthenticationError)
    else
      var t := s.tokens[hash(raw)];
      if t.revoked then Err(TokenRevoked)
      else if Expired(t, now) then Err(TokenExpired)
      else if t.generation != s.objects[oid].generation then Err(AuthenticationError)
      else if !(needed.value <= t.permissions) then Err(PermissionDenied)
      else Ok(t)
  }

  function Create(hash: string -> string, s: State, size: int, oid: string, raw: string):
      (State, Result<string, Refusal>) {
    if size <= 0 then (s, Err(InvalidRequest))
    else
      (State(s.objects[oid := Obj(size, 1)], s.tokens[hash(raw) := Token(oid, ALL_PERMISSIONS, 1, None, false)]),
        Ok(raw))
  }

  /** The expiry of a delegated token: its own, or the issuer's where that is less. */
  function DelegatedExpiry(issuer: Option<Float>, later: real, seconds: Option<Float>): Option<Float> {
    match seconds
    case None => issuer
    case Some(d) => Some(if issuer.Some? then Min(Plus(later, d), issuer.value) else Plus(later, d))
  }

  /** issue_token; the clock is read at now, to validate the issuer, and again at later. */
  function Issue(hash: string -> string, s: State, now: real, later: real, oid: string, issuerRaw: string,
                 permissions: Want, expiresIn: Option<Lifetime>, raw: string): (State, Result<string, Refusal>)
  {
    var requested := Normalize(permissions);
    if requested.Err? then (s, Err(requested.error)) else
    var issuer := Validate(hash, s, now, oid, issuerRaw, One(GRANT));
    if issuer.Err? then (s, Err(issuer.error))
    else if !(requested.value <= issuer.value.permissions) then (s, Err(PermissionDenied))
    else if expiresIn.Some? && Seconds(expiresIn.value).Err? then (s, Err(Seconds(expiresIn.value).error))
    else if oid !in s.objects then (s, Err(ObjectNotFound))
    else
      var seconds := if expiresIn.Some? then Some(Seconds(expiresIn.value).value) else None;
      var t := Token(oid, requested.value, s.objects[oid].generation,
                     DelegatedExpiry(issuer.value.expiresAt, later, seconds), false);
      (s.(tokens := s.tokens[hash(raw) := t]), Ok(raw))
  }

  function Revoke(hash: string -> string, s: State, now: real, oid: string, issuerRaw: string, targetRaw: string):
      (State, Option<Refusal>) {
    var issuer := Validate(hash, s, now, oid, issuerRaw, One(GRANT));
    if issuer.Err? then (s, Some(issuer.error))
    else if hash(targetRaw) !in s.tokens || s.tokens[hash(targetRaw)].objectId != oid then
      (s, Some(AuthenticationError))
    else
      var t := s.tokens[hash(targetRaw)];
      if t.permissions == ALL_PERMISSIONS && targetRaw == issuerRaw then (s, Some(InvalidRequest))
      else (s.(tokens := s.tokens[hash(targetRaw) := t.(revoked := true)]), None)
  }

  function WithoutObject(tokens: map<string, Token>, oid: string): map<string, Token> {
    map h | h in tokens && tokens[h].objectId != oid :: tokens[h]
  }

  function Delete(hash: string -> string, s: State, now: real, oid: string, raw: string): (State, Option<Refusal>) {
    var t := Validate(hash, s, now, oid, raw, One(DELETE));
    if t.Err? then (s, Some(t.error))
    else (State(s.objects - {oid}, WithoutObject(s.tokens, oid)), None)
  }

  /** The registry object: two dictionaries that its methods update in place. Clock readings,
      fresh ids and fresh raw tokens are arguments. */
  class Registry {
    const hash: string -> string
    var objects: map<string, Obj>
    var tokens: map<string, Token>

    function Abstract(): State
      reads this
    {
      State(objects, tokens)
    }

    constructor (hash: string -> string)
      ensures this.hash == hash && Abstract() == State(map[], map[])
    {
      this.hash := hash;
      this.objects := map[];
      this.tokens := map[];
    }

    method CreateObject(size: int, oid: string, raw: string) returns (r: Result<string, Refusal>)
      modifies this
      ensures (Abstract(), r) == Create(hash, old(Abstract()), size, oid, raw)
    {
      if size <= 0 {
        return Err(InvalidRequest);
      }
      objects := objects[oid := Obj(size, 1)];
      IssueLocked(oid, ALL_PERMISSIONS, None, raw);
      return Ok(raw);
    }

    method IssueLocked(oid: string, permissions: set<string>, expiresAt: Option<Float>, raw: string)
      requires oid in objects
      modifies this`tokens
      ensures tokens == old(tokens)[hash(raw) := Token(oid, permissions, objects[oid].generation, expiresAt, false)]
    {
      tokens := tokens[hash(raw) := Token(oid, permissions, objects[oid].generation, expiresAt, false)];
    }

    method ValidateToken(now: real, oid: string, raw: string, required: Want) returns (r: Result<Token, Refusal>)
      ensures r == Validate(hash, Abstract(), now, oid, raw, required)
    {
      if raw == "" {
        return Err(AuthenticationError);
      }
      var needed := Normalize(required);
      if needed.Err? {
        return Err(needed.error);
      }
      var names := needed.value;
      if required.One? && required.name != INFO {
        names := {required.name};
      }
      if oid !in objects {
        return Err(ObjectNotFound);
      }
      if hash(raw) !in tokens || tokens[hash(raw)].objectId != oid {
        return Err(AuthenticationError);
      }
      var t := tokens[hash(raw)];
      if t.revoked {
        return Err(TokenRevoked);
      }
      if t.expiresAt.Some? && Reached(now, t.expiresAt.value) {
        return Err(TokenExpired);
      }
      if t.generation != objects[oid].generation {
        return Err(AuthenticationError);
      }
      if !(names <= t.permissions) {
        return Err(PermissionDenied);
      }
      return Ok(t);
    }

    method IssueToken(now: real, later: real, oid: string, issuerRaw: string, permissions: Want,
                      expiresIn: Option<Lifetime>, raw: string) returns (r: Result<string, Refusal>)
      modifies this`tokens
      ensures (Abstract(), r) == Issue(hash, old(Abstract()), now, later, oid, issuerRaw, permissions, expiresIn, raw)
    {
      var requested := Normalize(permissions);
      if requested.Err? {
        return Err(requested.error);
      }
      var issuer := ValidateToken(now, oid, issuerRaw, One(GRANT));
      if issuer.Err? {
        return Err(issuer.error);
      }
      if !(requested.value <= issuer.value.permissions) {
        return Err(PermissionDenied);
      }
      var expiresAt: Option<Float> := None;
      if expiresIn.Some? {
        var seconds := Seconds(expiresIn.value);
        if seconds.Err? {
          return Err(seconds.error);
        }
        expiresAt := Some(Plus(later, seconds.value));
        if issuer.value.expiresAt.Some? {
          expiresAt := Some(Min(expiresAt.value, issuer.value.expiresAt.value));
        }
      } else if issuer.value.expiresAt.Some? {
        expiresAt := issuer.value.expiresAt;
      }
      IssueLocked(oid, requested.value, expiresAt, raw);
      return Ok(raw);
    }

    method RevokeToken(now: real, oid: string, issuerRaw: string, targetRaw: string) returns (r: Option<Refusal>)
      modifies this`tokens
      ensures (Abstract(), r) == Revoke(hash, old(Abstract()), now, oid, issuerRaw, targetRaw)
    {
      var issuer := ValidateToken(now, oid, issuerRaw, One(GRANT));
      if issuer.Err? {
        return Some(issuer.error);
      }
      if hash(targetRaw) !in tokens || tokens[hash(targetRaw)].objectId != oid {
        return Some(AuthenticationError);
      }
      var target := tokens[hash(targetRaw)];
      if target.permissions == ALL_PERMISSIONS && targetRaw == issuerRaw {
        return Some(InvalidRequest);
      }
      tokens := tokens[hash(targetRaw) := target.(revoked := true)];
      return None;
    }

    /** Drops the object, then its tokens one after the other. */
    method DeleteObject(now: real, oid: string, raw: string) returns (r: Option<Refusal>)
      modifies this
      ensures (Abstract(), r) == Delete(hash, old(Abstract()), now, oid, raw)
    {
      var t := ValidateToken(now, oid, raw, One(DELETE));
      if t.Err? {
        return Some(t.error);
      }
      ghost var before := tokens;
      objects := objects - {oid};
      var doomed := set h | h in tokens && tokens[h].objectId == oid;
      while doomed != {}
        invariant doomed <= tokens.Keys <= before.Keys
        invariant forall h :: h in tokens ==> tokens[h] == before[h]
        invariant forall h :: h in before && before[h].objectId != oid ==> h in tokens
        invariant forall h :: h in tokens && tokens[h].objectId == oid ==> h in doomed
        invariant forall h :: h in doomed ==> tokens[h].objectId == oid
        invariant objects == old(objects) - {oid}
        decreases |doomed|
      {
        var h :| h in doomed;
        tokens := tokens - {h};
        doomed := doomed - {h};
      }
      assert tokens == WithoutObject(before, oid);
      return None;
    }
  }
}
