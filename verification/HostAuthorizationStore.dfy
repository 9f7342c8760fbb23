/** HostAuthorizationStore: the validation loops, activation and lookup of
    hub/src/host-authorization-store.ts, proved against the model. */
module HostAuthorizationStore {
  import opened Collections
  import opened HostAuthorization

  method ValidateSortedList(list: seq<Text>) returns (error: Option<InputError>)
    ensures error == ListError(list)
  {
    for i := 0 to |list|
      invariant ListError(list[..i]).None?
    {
      assert list[..i + 1][..i] == list[..i];
      if i > 0 && list[i - 1] >= list[i] {
        error := Some(if list[i - 1] == list[i] then DuplicateKey else Noncanonical);
        assert ListError(list[..i + 1]) == error;
        ErrorPersists(list, i + 1);
        return;
      }
    }
    assert list[..|list|] == list;
    return None;
  }

  /** The first error found is the error reported. */
  lemma {:induction false} ErrorPersists(list: seq<Text>, n: nat)
    requires n <= |list| && ListError(list[..n]).Some?
    ensures ListError(list) == ListError(list[..n])
    decreases |list|
  {
    if n == |list| {
      assert list[..n] == list;
    } else {
      var front := list[..|list| - 1];
      assert front[..n] == list[..n];
      ErrorPersists(front, n);
    }
  }

  lemma {:induction false} MappingErrorPersists(ms: seq<Mapping>, n: nat)
    requires n <= |ms| && MappingsError(ms[..n]).Some?
    ensures MappingsError(ms) == MappingsError(ms[..n])
    decreases |ms|
  {
    if n == |ms| {
      assert ms[..n] == ms;
    } else {
      var front := ms[..|ms| - 1];
      assert front[..n] == ms[..n];
      MappingErrorPersists(front, n);
    }
  }

  method ValidateMapping(m: Mapping) returns (error: Option<InputError>)
    ensures error == MappingError(m)
  {
    error := ValidateSortedList(m.ssm);
    if error.None? {
      error := ValidateSortedList(m.git);
    }
    if error.None? {
      error := ValidateSortedList(m.ghcr);
    }
  }

  /** One turn of the mapping loop; `seen` holds the keys of the accepted prefix. */
  method ValidateNext(front: seq<Mapping>, m: Mapping, seen: set<(Text, Text)>) returns (error: Option<InputError>)
    requires forall k :: k in seen <==> exists j :: 0 <= j < |front| && (front[j].jwt, front[j].instance) == k
    ensures error == NextError(front, m)
  {
    error := ValidateMapping(m);
    if error.Some? {
      return;
    }
    assert (m.jwt, m.instance) in seen <==> exists j :: 0 <= j < |front| && SameKey(front[j], m);
    if (m.jwt, m.instance) in seen {
      return Some(DuplicateKey);
    }
    return if front != [] && KeyAfter(front[|front| - 1], m) then Some(Noncanonical) else None;
  }

  method ValidateMappings(ms: seq<Mapping>) returns (error: Option<InputError>)
    ensures error == MappingsError(ms)
  {
    hide NextError, MappingError;
    var seen: set<(Text, Text)> := {};
    for i := 0 to |ms|
      invariant MappingsError(ms[..i]).None?
      invariant forall k :: k in seen <==> exists j :: 0 <= j < |ms[..i]| && (ms[..i][j].jwt, ms[..i][j].instance) == k
    {
      var front, m := ms[..i], ms[i];
      error := ValidateNext(front, m, seen);
      assert ms[..i + 1] == front + [m];
      if error.Some? {
        MappingErrorPersists(ms, i + 1);
        return;
      }
      seen := seen + {(m.jwt, m.instance)};
    }
    assert ms[..|ms|] == ms;
    return None;
  }

  method ValidateGeneration(d: Document) returns (error: Option<InputError>)
    ensures error == GenerationError(d)
  {
    if d.generation < 1 || d.expiresAt <= d.issuedAt {
      return Some(Malformed);
    }
    if (d.generation == 1 && d.previous.Some?) || (d.generation > 1 && d.previous.None?) {
      return Some(Malformed);
    }
    error := ValidateMappings(d.mappings);
  }

  class AuthorizationStore {
    const env: Trust
    var head: Option<Head>
    var generations: map<nat, Stored>

    ghost function State(): Store
      reads this
    {
      Store(head, generations)
    }

    constructor (env: Trust)
      ensures State() == EMPTY && this.env == env
    {
      this.env := env;
      head, generations := None, map[];
    }

    method ActivateGeneration(sub: Submission, expects: Expectation, now: Time) returns (reply: ActivationReply)
      modifies this
      ensures (State(), reply) == Activate(env, old(State()), sub, expects, now)
    {
      if sub.Unreadable? {
        return Rejected(sub.error);
      }
      var d := sub.document;
      var error := ValidateGeneration(d);
      if error.Some? {
        return Rejected(error.value);
      }
      if now < d.issuedAt {
        return NotYetValid;
      }
      if now >= d.expiresAt {
        return Expired;
      }
      if !env.verified(d) {
        return SignatureInvalid;
      }
      var hash := env.hash(d);
      var currentHash := if head.None? then None else Some(head.value.hash);
      if !expects.Unchecked? && expects.hash != currentHash {
        return HeadMismatch;
      }
      if head.Some? && d.generation <= head.value.generation {
        return if head.value.generation == d.generation
          && head.value.hash == hash
          then Replay(d.generation, hash) else Stale;
      }
      if d.generation in generations {
        var existing := generations[d.generation];
        return if existing.hash == hash && existing.document == d then Replay(d.generation, hash) else Conflict;
      }
      if head.None? {
        if d.generation != 1 || d.previous.Some? {
          return Stale;
        }
      } else if d.previous != Some(head.value.hash) {
        return Stale;
      }
      generations := generations[d.generation := Stored(d.generation, hash, d)];
      head := Some(Head(d.generation, hash));
      return Activated(d.generation, hash);
    }

    method LookupMapping(jwt: Text, instance: Text, callerRole: bool, expects: Expectation, now: Time)
        returns (reply: LookupReply)
      ensures reply == Lookup(env, State(), jwt, instance, callerRole, expects, now)
    {
      if callerRole {
        return CallerRoleDenied;
      }
      if head.None? {
        return NotFound;
      }
      if !expects.Unchecked? && expects.hash != Some(head.value.hash) {
        return LookupHeadMismatch;
      }
      var g := head.value.generation;
      if g !in generations || generations[g].generation != g || generations[g].hash != head.value.hash {
        return LookupInvalidState;
      }
      var d := generations[g].document;
      var error := ValidateGeneration(d);
      if error.Some? || env.hash(d) != head.value.hash || !env.verified(d) {
        return LookupInvalidState;
      }
      if now < d.issuedAt {
        return LookupNotYetValid;
      }
      if now >= d.expiresAt {
        return LookupExpired;
      }
      var mapping := FindMapping(d.mappings, jwt, instance);
      if mapping.Some? {
        return Authorized(d.generation, head.value.hash, mapping.value);
      }
      var sameHash := exists i :: 0 <= i < |d.mappings| && d.mappings[i].jwt == jwt;
      return if sameHash then CrossInstance else NotFound;
    }
  }
}
