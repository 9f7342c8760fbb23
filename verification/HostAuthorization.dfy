/** The host authorization ledger of hub/src/host-authorization-store.ts: signed generations,
    each naming its predecessor's hash, and lookups against the newest one. */
module HostAuthorization {
  import opened Collections

  type Hash = nat
  type Text = nat
  type Time = nat

  datatype Mapping = Mapping(
    jwt: Text, instance: Text, role: Text, audience: Text, namespace: Text,
    ssm: seq<Text>, git: seq<Text>, ghcr: seq<Text>)

  /** A signed generation. Its canonical serialization is the only one the parser accepts, so
      document and serialized text determine each other. */
  datatype Document = Document(
    generation: nat, previous: Option<Hash>, issuer: Text, issuedAt: Time, expiresAt: Time,
    mappings: seq<Mapping>, signature: Text)

  datatype InputError = Malformed | Noncanonical | DuplicateKey

  /** What the JSON layer makes of a submitted string. */
  datatype Submission = Unreadable(error: InputError) | Readable(document: Document)

  /** SHA-256 over the serialization and the Ed25519 check under the trusted key. */
  datatype Trust = Trust(hash: Document -> Hash, verified: Document -> bool)

  ghost predicate CollisionFree(env: Trust) {
    forall a, b :: env.hash(a) == env.hash(b) ==> a == b
  }

  // ----------------------------------------------------------- validation

  function FirstOf(a: Option<InputError>, b: Option<InputError>): Option<InputError> {
    if a.Some? then a else b
  }

  /** validateSortedList: the first pair out of order decides the error. */
  function ListError(list: seq<Text>): Option<InputError> {
    if |list| <= 1 then None
    else
      var a, b := list[|list| - 2], list[|list| - 1];
      FirstOf(ListError(list[..|list| - 1]), if a == b then Some(DuplicateKey) else if a > b then Some(Noncanonical)
        else None)
  }

  function MappingError(m: Mapping): Option<InputError> {
    FirstOf(ListError(m.ssm), FirstOf(ListError(m.git), ListError(m.ghcr)))
  }

  predicate SameKey(a: Mapping, b: Mapping) {
    a.jwt == b.jwt && a.instance == b.instance
  }

  /** compareMappingKeys(a, b) > 0. */
  predicate KeyAfter(a: Mapping, b: Mapping) {
    a.jwt > b.jwt || (a.jwt == b.jwt && a.instance > b.instance)
  }

  /** What one more mapping after an accepted prefix is refused for. */
  function NextError(front: seq<Mapping>, m: Mapping): Option<InputError> {
    FirstOf(MappingError(m),
      if exists i :: 0 <= i < |front| && SameKey(front[i], m) then Some(DuplicateKey)
      else if front != [] && KeyAfter(front[|front| - 1], m) then Some(Noncanonical) else None)
  }

  function MappingsError(ms: seq<Mapping>): Option<InputError> {
    if ms == [] then None
    else FirstOf(MappingsError(ms[..|ms| - 1]), NextError(ms[..|ms| - 1], ms[|ms| - 1]))
  }

  /** validateGenerationInput. */
  function GenerationError(d: Document): Option<InputError> {
    if d.generation < 1 || d.expiresAt <= d.issuedAt || (d.generation == 1 && d.previous.Some?)
       || (d.generation > 1 && d.previous.None?) then Some(Malformed)
    else MappingsError(d.mappings)
  }

  ghost predicate Increasing(list: seq<Text>) {
    forall i, j :: 0 <= i < j < |list| ==> list[i] < list[j]
  }

  /** The mapping table a valid generation carries: keys strictly increasing, lists too. */
  ghost predicate Canonical(ms: seq<Mapping>) {
    && (forall i, j :: 0 <= i < j < |ms| ==> KeyAfter(ms[j], ms[i]))
    && (forall i :: 0 <= i < |ms| ==> Increasing(ms[i].ssm) && Increasing(ms[i].git) && Increasing(ms[i].ghcr))
  }

  lemma {:induction false} ListErrorExact(list: seq<Text>)
    ensures ListError(list).None? <==> Increasing(list)
  {
    if |list| > 1 {
      ListErrorExact(list[..|list| - 1]);
      if ListError(list).None? {
        forall i, j | 0 <= i < j < |list| ensures list[i] < list[j] {
          assert list[..|list| - 1][i] == list[i];
          assert i < |list| - 2 ==> list[..|list| - 1][i] < list[..|list| - 1][|list| - 2];
        }
      }
    }
  }

  lemma MappingErrorExact(m: Mapping)
    ensures MappingError(m).None? <==> Increasing(m.ssm) && Increasing(m.git) && Increasing(m.ghcr)
  {
    hide ListError, Increasing;
    ListErrorExact(m.ssm);
    ListErrorExact(m.git);
    ListErrorExact(m.ghcr);
  }

  /** After canonical mappings the next one is accepted exactly when its key is the greatest. */
  lemma NextErrorExact(front: seq<Mapping>, m: Mapping)
    requires forall i, j :: 0 <= i < j < |front| ==> KeyAfter(front[j], front[i])
    ensures NextError(front, m).None? <==> MappingError(m).None? && forall i :: 0 <= i < |front| ==>
            KeyAfter(m, front[i])
  {
    hide MappingError;
    if NextError(front, m).None? {
      forall i | 0 <= i < |front| ensures KeyAfter(m, front[i]) {
        assert !SameKey(front[i], m) && !SameKey(front[|front| - 1], m);
        assert i < |front| - 1 ==> KeyAfter(front[|front| - 1], front[i]);
      }
    }
  }

  lemma CanonicalSnoc(front: seq<Mapping>, m: Mapping)
    ensures Canonical(front + [m]) <==>
            && Canonical(front) && (forall i :: 0 <= i < |front| ==> KeyAfter(m, front[i]))
            && Increasing(m.ssm) && Increasing(m.git) && Increasing(m.ghcr)
  {
    hide Increasing, KeyAfter;
    var ms := front + [m];
    assert ms[|front|] == m && forall i :: 0 <= i < |front| ==> ms[i] == front[i];
    if Canonical(ms) {
      forall i | 0 <= i < |front| ensures KeyAfter(m, front[i]) {
        assert KeyAfter(ms[|front|], ms[i]);
      }
    }
  }

  /** The validator accepts exactly the canonical mapping tables. */
  lemma {:induction false} MappingsErrorExact(ms: seq<Mapping>)
    ensures MappingsError(ms).None? <==> Canonical(ms)
  {
    hide NextError, MappingError, KeyAfter, Increasing;
    if ms != [] {
      var front, last := ms[..|ms| - 1], ms[|ms| - 1];
      MappingsErrorExact(front);
      MappingErrorExact(last);
      assert front + [last] == ms;
      CanonicalSnoc(front, last);
      if Canonical(front) {
        NextErrorExact(front, last);
      }
    }
  }

  // ---------------------------------------------------------------- store

  datatype Head = Head(generation: nat, hash: Hash)
  datatype Stored = Stored(generation: nat, hash: Hash, document: Document)
  datatype Store = Store(head: Option<Head>, generations: map<nat, Stored>)

  const EMPTY := Store(None, map[])

  datatype ActivationReply =
    | Activated(generation: nat, hash: Hash) | Replay(generation: nat, hash: Hash)
    | HeadMismatch | Stale | Conflict | Expired | NotYetValid | SignatureInvalid
    | Rejected(error: InputError) | InvalidState

  /** The caller's expectation about the head: none, no head yet, or this hash. */
  datatype Expectation = Unchecked | Expects(hash: Option<Hash>)

  function HeadHash(s: Store): Option<Hash> {
    if s.head.None? then None else Some(s.head.value.hash)
  }

  predicate Meets(s: Store, e: Expectation) {
    e.Unchecked? || e.hash == HeadHash(s)
  }

  /** The checks made before the transaction. */
  function Precheck(env: Trust, sub: Submission, now: Time): Option<ActivationReply> {
    if sub.Unreadable? then Some(Rejected(sub.error))
    else
      var d := sub.document;
      if GenerationError(d).Some? then Some(Rejected(GenerationError(d).value))
      else if now < d.issuedAt then Some(NotYetValid)
      else if now >= d.expiresAt then Some(Expired)
      else if !env.verified(d) then Some(SignatureInvalid)
      else None
  }

  function Activate(env: Trust, s: Store, sub: Submission, expects: Expectation, now: Time): (Store, ActivationReply) {
    if Precheck(env, sub, now).Some? then (s, Precheck(env, sub, now).value)
    else
      var d := sub.document;
      var hash := env.hash(d);
      if !Meets(s, expects) then (s, HeadMismatch)
      else if s.head.Some? && d.generation <= s.head.value.generation then
        (s, if s.head.value == Head(d.generation, hash) then Replay(d.generation, hash) else Stale)
      else if d.generation in s.generations then
        var existing := s.generations[d.generation];
        (s, if existing.hash == hash && existing.document == d then Replay(d.generation, hash) else Conflict)
      else if s.head.None? && (d.generation != 1 || d.previous.Some?) then (s, Stale)
      else if s.head.Some? && d.previous != Some(s.head.value.hash) then (s, Stale)
      else
        (Store(Some(Head(d.generation, hash)), s.generations[d.generation := Stored(d.generation, hash, d)]),
         Activated(d.generation, hash))
  }

  datatype LookupReply =
    | Authorized(generation: nat, hash: Hash, mapping: Mapping)
    | CallerRoleDenied | CrossInstance | NotFound | LookupHeadMismatch | LookupExpired
    | LookupNotYetValid | LookupInvalidState

  function FindMapping(ms: seq<Mapping>, jwt: Text, instance: Text): (m: Option<Mapping>)
    ensures m.Some? ==> m.value in ms && m.value.jwt == jwt && m.value.instance == instance
    ensures m.None? ==> forall x :: x in ms ==> x.jwt != jwt || x.instance != instance
  {
    if ms == [] then None
    else if ms[0].jwt == jwt && ms[0].instance == instance then Some(ms[0])
    else FindMapping(ms[1..], jwt, instance)
  }

  function Lookup(env: Trust, s: Store, jwt: Text, instance: Text, callerRole: bool, expects: Expectation,
      now: Time): LookupReply {
    if callerRole then CallerRoleDenied
    else if s.head.None? then NotFound
    else if !Meets(s, expects) then LookupHeadMismatch
    else
      var head := s.head.value;
      if head.generation !in s.generations || s.generations[head.generation].generation != head.generation
         || s.generations[head.generation].hash != head.hash then LookupInvalidState
      else
        var d := s.generations[head.generation].document;
        if GenerationError(d).Some? || env.hash(d) != head.hash || !env.verified(d) then LookupInvalidState
        else if now < d.issuedAt then LookupNotYetValid
        else if now >= d.expiresAt then LookupExpired
        else
          var m := FindMapping(d.mappings, jwt, instance);
          if m.Some? then Authorized(d.generation, head.hash, m.value)
          else if exists i :: 0 <= i < |d.mappings| && d.mappings[i].jwt == jwt then CrossInstance
          else NotFound
  }

  // ----------------------------------------------------------------- logs

  /** One hash chain: it starts at generation 1 and each link names its predecessor. */
  ghost predicate Chain(env: Trust, log: seq<Document>) {
    && (forall i :: 0 <= i < |log| ==> GenerationError(log[i]).None? && env.verified(log[i]))
    && (log != [] ==> log[0].generation == 1)
    && (forall i :: 0 < i < |log| ==>
      log[i - 1].generation < log[i].generation && log[i].previous == Some(env.hash(log[i - 1])))
  }

  /** The store that holds exactly the history `log`. */
  ghost function Represent(env: Trust, log: seq<Document>): Store {
    if log == [] then EMPTY
    else
      var d := log[|log| - 1];
      Store(Some(Head(d.generation, env.hash(d))),
            Represent(env, log[..|log| - 1]).generations[d.generation := Stored(d.generation, env.hash(d), d)])
  }

  lemma {:induction false} GenerationsAreTheLog(env: Trust, log: seq<Document>, g: nat)
    requires Chain(env, log) && g in Represent(env, log).generations
    ensures log != [] && g <= log[|log| - 1].generation
  {
    if |log| > 1 && g != log[|log| - 1].generation {
      GenerationsAreTheLog(env, log[..|log| - 1], g);
    }
  }

  lemma ChainGrows(env: Trust, log: seq<Document>, d: Document)
    requires Chain(env, log) && GenerationError(d).None? && env.verified(d)
    requires log == [] ==> d.generation == 1
    requires log != [] ==> log[|log| - 1].generation < d.generation && d.previous == Some(env.hash(log[|log| - 1]))
    ensures Chain(env, log + [d]) && Represent(env, log + [d]).head == Some(Head(d.generation, env.hash(d)))
  {
    hide GenerationError;
    var all := log + [d];
    assert all[|log|] == d && all[..|log|] == log;
    forall i | 0 <= i < |all| ensures GenerationError(all[i]).None? && env.verified(all[i]) {
      assert i < |log| ==> all[i] == log[i];
    }
    forall i | 0 < i < |all|
      ensures all[i - 1].generation < all[i].generation && all[i].previous == Some(env.hash(all[i - 1]))
    {
      assert all[i - 1] == log[i - 1];
      assert i < |log| ==> all[i] == log[i];
    }
  }

  /** What a chain knows about its own head and stored generations. */
  lemma RepresentHead(env: Trust, log: seq<Document>, g: nat)
    requires Chain(env, log)
    ensures var s := Represent(env, log);
            && (log == [] ==> s.head.None?)
            && (log != [] ==> s.head == Some(Head(log[|log| - 1].generation, env.hash(log[|log| - 1]))))
            && (s.head.None? || s.head.value.generation < g ==> g !in s.generations)
  {
    if g in Represent(env, log).generations {
      GenerationsAreTheLog(env, log, g);
    }
  }

  /** Activation only ever appends to the chain, and never finds it in conflict or broken. */
  lemma ActivateAppends(env: Trust, log: seq<Document>, sub: Submission, expects: Expectation, now: Time)
    requires Chain(env, log)
    ensures var (t, reply) := Activate(env, Represent(env, log), sub, expects, now);
            && !reply.Conflict? && !reply.InvalidState?
            && (reply.Activated? ==>
              sub.Readable? && Chain(env, log + [sub.document]) && t == Represent(env, log + [sub.document]))
            && (!reply.Activated? ==> t == Represent(env, log))
  {
    hide GenerationError, Meets, Represent;
    if Precheck(env, sub, now).None? {
      var d := sub.document;
      RepresentHead(env, log, d.generation);
      if Activate(env, Represent(env, log), sub, expects, now).1.Activated? {
        ChainGrows(env, log, d);
        RepresentSnoc(env, log, d);
      }
    }
  }

  lemma RepresentSnoc(env: Trust, log: seq<Document>, d: Document)
    ensures Represent(env, log + [d]) == Store(Some(Head(d.generation, env.hash(d))),
                                               Represent(env, log).generations[d.generation := Stored(d.generation,
                                                 env.hash(d), d)])
  {
    assert (log + [d])[..|log|] == log;
  }

  datatype Command = Command(submission: Submission, expects: Expectation, now: Time)

  function Run(env: Trust, commands: seq<Command>): Store {
    if commands == [] then EMPTY
    else
      var c := commands[|commands| - 1];
      Activate(env, Run(env, commands[..|commands| - 1]), c.submission, c.expects, c.now).0
  }

  /** The generations a run activated, oldest first. */
  function History(env: Trust, commands: seq<Command>): seq<Document> {
    if commands == [] then []
    else
      var front, c := commands[..|commands| - 1], commands[|commands| - 1];
      if Activate(env, Run(env, front), c.submission, c.expects, c.now).1.Activated? && c.submission.Readable?
      then History(env, front) + [c.submission.document] else History(env, front)
  }

  /** Every reachable store is its history, one hash chain from the head back to generation 1. */
  lemma {:induction false} RunIsItsHistory(env: Trust, commands: seq<Command>)
    ensures Chain(env, History(env, commands)) && Run(env, commands) == Represent(env, History(env, commands))
  {
    if commands != [] {
      var front, c := commands[..|commands| - 1], commands[|commands| - 1];
      RunIsItsHistory(env, front);
      ActivateAppends(env, History(env, front), c.submission, c.expects, c.now);
    }
  }

  /** History is append-only over any continuation of a run. */
  lemma {:induction false} HistoryIsAppendOnly(env: Trust, before: seq<Command>, after: seq<Command>)
    ensures History(env, before) <= History(env, before + after)
  {
    if after == [] {
      assert before + after == before;
    } else {
      var front := after[..|after| - 1];
      HistoryIsAppendOnly(env, before, front);
      assert (before + after)[..|before + after| - 1] == before + front;
    }
  }

  lemma {:induction false} EqualTipsEqualChains(env: Trust, a: seq<Document>, b: seq<Document>)
    requires CollisionFree(env) && Chain(env, a) && Chain(env, b) && a != [] && b != []
    requires env.hash(a[|a| - 1]) == env.hash(b[|b| - 1])
    ensures a == b
  {
    var m, n := |a| - 1, |b| - 1;
    assert a[m] == b[n];
    if m > 0 && n > 0 {
      EqualTipsEqualChains(env, a[..m], b[..n]);
      assert a == a[..m] + [a[m]] && b == b[..n] + [b[n]];
    } else {
      GenerationOneIsFirst(env, a);
      GenerationOneIsFirst(env, b);
    }
  }

  lemma GenerationOneIsFirst(env: Trust, log: seq<Document>)
    requires Chain(env, log) && log != []
    ensures log[|log| - 1].previous.None? <==> |log| == 1
  {
    var last := log[|log| - 1];
    if |log| > 1 {
      assert last.previous == Some(env.hash(log[|log| - 2]));
    } else {
      assert GenerationError(last).None?;
    }
  }

  /** Two stores with the same head hash went through the same history. */
  lemma EqualHeadsEqualHistories(env: Trust, a: seq<Command>, b: seq<Command>)
    requires CollisionFree(env)
    requires Run(env, a).head.Some? && Run(env, b).head.Some?
    requires Run(env, a).head.value.hash == Run(env, b).head.value.hash
    ensures History(env, a) == History(env, b) && Run(env, a) == Run(env, b)
  {
    RunIsItsHistory(env, a);
    RunIsItsHistory(env, b);
    EqualTipsEqualChains(env, History(env, a), History(env, b));
  }

  /** In a reachable store a conflict or a broken record is never reported. */
  lemma ActivateNeverConflicts(env: Trust, commands: seq<Command>, sub: Submission, expects: Expectation, now: Time)
    ensures var reply := Activate(env, Run(env, commands), sub, expects, now).1;
            !reply.Conflict? && !reply.InvalidState?
  {
    RunIsItsHistory(env, commands);
    ActivateAppends(env, History(env, commands), sub, expects, now);
  }

  lemma CanonicalKeysAreUnique(ms: seq<Mapping>, a: Mapping, b: Mapping)
    requires Canonical(ms) && a in ms && b in ms && SameKey(a, b)
    ensures a == b
  {
    var i :| 0 <= i < |ms| && ms[i] == a;
    var j :| 0 <= j < |ms| && ms[j] == b;
  }

  /** The mapping a lookup in the newest generation may hand out. */
  ghost predicate Grants(env: Trust, log: seq<Document>, jwt: Text, instance: Text, expects: Expectation, now: Time,
      m: Mapping) {
    && log != [] && Meets(Represent(env, log), expects)
    && log[|log| - 1].issuedAt <= now < log[|log| - 1].expiresAt
    && m in log[|log| - 1].mappings && m.jwt == jwt && m.instance == instance
  }

  lemma FindMappingExact(ms: seq<Mapping>, jwt: Text, instance: Text, m: Mapping)
    requires Canonical(ms)
    ensures FindMapping(ms, jwt, instance) == Some(m) <==> m in ms && m.jwt == jwt && m.instance == instance
  {
    if m in ms && m.jwt == jwt && m.instance == instance {
      CanonicalKeysAreUnique(ms, m, FindMapping(ms, jwt, instance).value);
    }
  }

  lemma LookupOnChain(env: Trust, log: seq<Document>, jwt: Text, instance: Text, expects: Expectation, now: Time,
      m: Mapping)
    requires Chain(env, log)
    ensures var reply := Lookup(env, Represent(env, log), jwt, instance, false, expects, now);
            && !reply.LookupInvalidState?
            && (reply.Authorized? && reply.mapping == m <==> Grants(env, log, jwt, instance, expects, now, m))
            && (reply.Authorized? ==>
              log != [] && reply.generation == log[|log| - 1].generation && reply.hash == env.hash(log[|log| - 1]))
  {
    hide MappingsError, Canonical, FindMapping, Meets;
    if log != [] {
      var d := log[|log| - 1];
      assert GenerationError(d).None?;
      MappingsErrorExact(d.mappings);
      FindMappingExact(d.mappings, jwt, instance, m);
    }
  }

  /** A lookup authorizes exactly the one matching mapping of the newest generation, inside its
      validity interval and against the expected head. */
  lemma LookupIsExact(env: Trust, commands: seq<Command>, jwt: Text, instance: Text, expects: Expectation, now: Time,
      m: Mapping)
    ensures var log := History(env, commands);
            var reply := Lookup(env, Run(env, commands), jwt, instance, false, expects, now);
            && !reply.LookupInvalidState?
            && (reply.Authorized? && reply.mapping == m <==> Grants(env, log, jwt, instance, expects, now, m))
            && (reply.Authorized? ==>
              log != [] && reply.generation == log[|log| - 1].generation && reply.hash == env.hash(log[|log| - 1]))
  {
    RunIsItsHistory(env, commands);
    LookupOnChain(env, History(env, commands), jwt, instance, expects, now, m);
  }
}
