/** The replay authority of hub/src/executor-replay-store.ts and the envelope verifier of
    hub/src/executor-envelope-verifier.ts that consumes it. */
module ReplayModel {
  import opened Collections

  type Key = nat
  type Digest = nat
  type Time = nat

  const MAX_EXECUTOR_ENVELOPE_TTL_MS: nat := 15 * 60 * 1000
  const MAX_SWEEP_LIMIT: nat := 1_000

  datatype Record = Record(digest: Digest, expiresAt: Time)
  type Rows = map<Key, Record>

  datatype ConsumeReply = Accepted | Rejected | InvalidRequest

  function Consume(rows: Rows, key: Key, digest: Digest, expiresAt: Time, now: Time): (Rows, ConsumeReply) {
    if expiresAt <= now then (rows, InvalidRequest)
    else if key in rows && rows[key].expiresAt > now then (rows, Rejected)
    else (rows[key := Record(digest, expiresAt)], Accepted)
  }

  // ---------------------------------------------------------------- sweep

  predicate IsLeast(m: Key, s: set<Key>) {
    m in s && forall x :: x in s ==> m <= x
  }

  lemma {:induction false} LeastExists(s: set<Key>)
    requires s != {}
    ensures exists m :: IsLeast(m, s)
  {
    var y :| y in s;
    if s == {y} {
      assert IsLeast(y, s);
    } else {
      LeastExists(s - {y});
      var m :| IsLeast(m, s - {y});
      var least := if m <= y then m else y;
      forall x | x in s ensures least <= x {
        assert x == y || x in s - {y};
      }
      assert IsLeast(least, s);
    }
  }

  /** The order in which storage lists keys. */
  function Ascending(s: set<Key>): (keys: seq<Key>)
    ensures forall x :: x in keys <==> x in s
    ensures forall i, j :: 0 <= i < j < |keys| ==> keys[i] < keys[j]
  {
    if s == {} then []
    else
      LeastExists(s);
      var m :| IsLeast(m, s);
      [m] + Ascending(s - {m})
  }

  predicate After(cursor: Option<Key>, k: Key) {
    cursor.None? || k > cursor.value
  }

  /** `list({ prefix, limit, startAfter })`. */
  function Page(rows: Rows, limit: nat, cursor: Option<Key>): (page: seq<Key>)
    ensures |page| <= limit
  {
    var keys := Ascending(set k | k in rows && After(cursor, k));
    if |keys| <= limit then keys else keys[..limit]
  }

  function Swept(rows: Rows, page: seq<Key>, now: Time): Rows {
    map k | k in rows && !(k in page && rows[k].expiresAt <= now) :: rows[k]
  }

  datatype SweepReply = SweptRows(removed: nat, nextAfter: Option<Key>) | InvalidSweep

  predicate ValidLimit(limit: nat) {
    0 < limit <= MAX_SWEEP_LIMIT
  }

  function Sweep(rows: Rows, now: Time, limit: nat, cursor: Option<Key>): Rows {
    if ValidLimit(limit) then Swept(rows, Page(rows, limit, cursor), now) else rows
  }

  function NextAfter(page: seq<Key>, limit: nat): Option<Key>
    requires limit > 0
  {
    if |page| >= limit then Some(page[|page| - 1]) else None
  }

  // ------------------------------------------------------------- verifier

  datatype Envelope = Envelope(
    version: nat, audience: nat, role: nat, manifestDigest: Digest, bodyDigest: Digest, nonce: nat,
    expiresAt: Time, body: nat, signature: nat)

  /** `authentic` is the shape, digest and signature check; `scopeKey` hashes the replay scope. */
  datatype Verifier = Verifier(authentic: Envelope -> bool, scopeKey: (nat, nat, nat) -> Key)

  predicate Timely(e: Envelope, now: Time) {
    now < e.expiresAt <= now + MAX_EXECUTOR_ENVELOPE_TTL_MS
  }

  function KeyOf(v: Verifier, e: Envelope): Key {
    v.scopeKey(e.audience, e.role, e.nonce)
  }

  datatype VerifyReply = Body(body: nat) | EnvelopeInvalid | ReplayRejected

  function VerifyAndConsume(v: Verifier, rows: Rows, e: Envelope, now: Time): (Rows, VerifyReply) {
    if !Timely(e, now) || !v.authentic(e) then (rows, EnvelopeInvalid)
    else
      var (next, reply) := Consume(rows, KeyOf(v, e), e.bodyDigest, e.expiresAt, now);
      (next, match reply
             case Accepted => Body(e.body)
             case Rejected => ReplayRejected
             case InvalidRequest => EnvelopeInvalid)
  }

  // ----------------------------------------------------------------- runs

  /** One call. `now` is the time the caller captured before its awaits, on which the transaction
      decides; `at` is when the transaction commits. */
  datatype Event =
    | DoConsume(key: Key, digest: Digest, expiresAt: Time, now: Time, at: Time)
    | DoVerify(envelope: Envelope, now: Time, at: Time)
    | DoSweep(limit: nat, cursor: Option<Key>, now: Time, at: Time)

  function Step(v: Verifier, rows: Rows, e: Event): Rows {
    match e
    case DoConsume(key, digest, expiresAt, now, _) => Consume(rows, key, digest, expiresAt, now).0
    case DoVerify(envelope, now, _) => VerifyAndConsume(v, rows, envelope, now).0
    case DoSweep(limit, cursor, now, _) => Sweep(rows, now, limit, cursor)
  }

  /** Transactions in the order in which they commit. */
  function Run(v: Verifier, events: seq<Event>): Rows {
    if events == [] then map[]
    else Step(v, Run(v, events[..|events| - 1]), events[|events| - 1])
  }

  /** The rows that event n of a run finds. */
  function Found(v: Verifier, events: seq<Event>, n: nat): Rows
    requires n <= |events|
  {
    Run(v, events[..n])
  }

  /** When the scope an event asks for would expire; a sweep asks for none. */
  function ExpiryOf(e: Event): Time {
    match e
    case DoConsume(_, _, expiresAt, _, _) => expiresAt
    case DoVerify(envelope, _, _) => envelope.expiresAt
    case DoSweep(_, _, _, _) => 0
  }

  /** A well-formed request to consume the scope `key`. */
  predicate AsksFor(v: Verifier, e: Event, key: Key) {
    match e
    case DoConsume(k, _, expiresAt, now, _) => k == key && now < expiresAt
    case DoVerify(envelope, now, _) => KeyOf(v, envelope) == key && Timely(envelope, now) && v.authentic(envelope)
    case DoSweep(_, _, _, _) => false
  }

  /** Event n accepted a consumption of `key`. */
  predicate AcceptedAt(v: Verifier, events: seq<Event>, n: nat, key: Key) {
    n < |events| &&
    match events[n]
    case DoConsume(k, digest, expiresAt, now, _) =>
      k == key && Consume(Found(v, events, n), k, digest, expiresAt, now).1.Accepted?
    case DoVerify(envelope, now, _) =>
      KeyOf(v, envelope) == key && VerifyAndConsume(v, Found(v, events, n), envelope, now).1.Body?
    case DoSweep(_, _, _, _) => false
  }

  /** Event n was a sweep that removed the row of `key`. */
  predicate RemovedAt(v: Verifier, events: seq<Event>, n: nat, key: Key) {
    n < |events| && events[n].DoSweep? && key in Found(v, events, n) && key !in Found(v, events, n + 1)
  }
}
