/** The provider-operation protocol of hub/src/provider-operation-store.ts: ten statuses, one
    fence per target, signed control decisions and a deadline watchdog, one step per transaction. */
module ProviderModel {
  import opened Collections

  type Time = nat
  type Token = nat

  const MAX_PROVIDER_OPERATION_LIFETIME_MS: nat := 15 * 60_000
  const MAX_CONTROL_DECISION_TTL_MS: nat := 15 * 60_000

  datatype Status =
    | Prepared | Dispatching | AwaitingVerification | CancelRequested | NeedsReconciliation
    | CancelNeedsReconciliation | Succeeded | Failed | Cancelled | Superseded

  datatype Capability = NativeCas | EnforcedExclusive | OwnerRiskGate | Blocked

  datatype Check = CheckUnknown | CheckPassed | CheckFailed

  datatype Code =
    | CapabilityBlocked | DeadlinePassed | WatchdogDeadline | NotApplied | CancelledByControl
    | SupersededByControl | VerificationFailed | CancelRequiresReconciliation | Reported(code: Token)

  datatype Request = Request(
    operationId: Id, generation: Token, fingerprint: Token, sourceDigest: Token, target: Token,
    targetDigest: Token, oldGeneration: Option<Token>, currentGeneration: Option<Token>,
    intendedGeneration: Token, kmsEnvelope: Token, operator: Token, capability: Capability,
    deadlineAt: Time)

  datatype Record = Record(
    request: Request, status: Status, createdAt: Time, updatedAt: Time, completedAt: Option<Time>,
    invocation: Option<Id>, attempt: nat, observed: Option<Token>, canary: Check,
    postconditions: Check, failure: Option<Code>)

  datatype Fence = Fence(operationId: Id, targetDigest: Token)

  datatype DispatchStatus = Committed | Rejected | Dropped | Ambiguous

  datatype Response = Response(
    status: DispatchStatus, oid: Option<Token>, canary: Check, postconditions: Check, error: Option<Token>)

  datatype Action = Cancel | ReplayOnce | ConfirmApplied | ConfirmNotApplied | Supersede

  datatype Decision = Decision(
    action: Action, operationId: Id, generation: Token, fingerprint: Token, sourceDigest: Token,
    targetDigest: Token, currentOid: Option<Token>, issuer: Token, nonce: Token, issuedAt: Time,
    expiresAt: Time, approvalNonce: Option<Token>)

  datatype Consumption = Consumption(operationId: Id, action: Action, consumedAt: Time)

  datatype Verification = Verification(oid: Token, canaryPassed: bool, postconditionsPassed: bool)

  datatype LastSuccess = LastSuccess(operationId: Id, generation: Token, sourceDigest: Token, oid: Token,
    completedAt: Time)

  datatype Store = Store(
    records: map<Id, Record>, fences: map<Token, Fence>, active: seq<Id>,
    consumed: map<Token, Consumption>, outcomes: map<(Id, Id), Response>,
    lastSuccess: map<(Token, Token, Token), LastSuccess>)

  const EMPTY := Store(map[], map[], [], map[], map[], map[])

  predicate Terminal(status: Status) {
    status.Succeeded? || status.Failed? || status.Cancelled? || status.Superseded?
  }

  // ---------------------------------------------- fence and index helpers

  function AddActive(active: seq<Id>, id: Id): seq<Id> {
    if id in active then active else active + [id]
  }

  function ReleaseFence(fences: map<Token, Fence>, rec: Record): map<Token, Fence> {
    var t := rec.request.target;
    if t in fences && fences[t].operationId == rec.request.operationId then fences - {t} else fences
  }

  /** Write a record; a terminal one gives up its fence and its index entry, any other is indexed. */
  function Settle(s: Store, id: Id, rec: Record): Store {
    if Terminal(rec.status) then
      s.(records := s.records[id := rec], fences := ReleaseFence(s.fences, rec), active := Without(s.active, id))
    else
      s.(records := s.records[id := rec], active := AddActive(s.active, id))
  }

  // ---------------------------------------------------------------- start

  datatype StartReply = IsPrepared(op: Record) | IsExisting(op: Record) | IsFenced(op: Record) | IsConflict | IsInvalid

  predicate ValidStart(req: Request, now: Time) {
    now < req.deadlineAt <= now + MAX_PROVIDER_OPERATION_LIFETIME_MS
  }

  function Fresh(req: Request, now: Time): Record {
    Record(req, Prepared, now, now, None, None, 0, None, CheckUnknown, CheckUnknown, None)
  }

  function Start(s: Store, req: Request, now: Time): (Store, StartReply) {
    var id := req.operationId;
    if !ValidStart(req, now) then (s, IsInvalid)
    else if id in s.records then
      var rec := s.records[id];
      if rec.request != req then (s, IsConflict)
      else (s.(active := if Terminal(rec.status) then s.active else AddActive(s.active, id)), IsExisting(rec))
    else if req.target in s.fences && s.fences[req.target].operationId in s.records
            && !Terminal(s.records[s.fences[req.target].operationId].status) then
      var owner := s.fences[req.target].operationId;
      (s.(active := AddActive(s.active, owner)), IsFenced(s.records[owner]))
    else
      var rec := Fresh(req, now);
      (s.(records := s.records[id := rec], fences := s.fences[req.target := Fence(id, req.targetDigest)],
      active := AddActive(s.active, id)), IsPrepared(rec))
  }

  // ---------------------------------------------------------------- claim

  datatype ClaimReply = Claimed(op: Record, invocation: Id) | NotClaimed | ClaimUnknown

  function ClaimFailure(rec: Record, code: Code, now: Time): Record {
    rec.(status := Failed, updatedAt := now, completedAt := Some(now), failure := Some(code))
  }

  function Dispatched(rec: Record, invocation: Id, now: Time): Record {
    rec.(status := Dispatching, updatedAt := now, invocation := Some(invocation), attempt := rec.attempt + 1)
  }

  function Claim(s: Store, id: Id, invocation: Id, now: Time): (Store, ClaimReply) {
    if id !in s.records then (s, ClaimUnknown)
    else
      var rec := s.records[id];
      if !rec.status.Prepared? then (s, NotClaimed)
      else if rec.request.capability.Blocked?
        then (Settle(s, id, ClaimFailure(rec, CapabilityBlocked, now)), NotClaimed)
      else if now >= rec.request.deadlineAt then (Settle(s, id, ClaimFailure(rec, DeadlinePassed, now)), NotClaimed)
      else
        var next := Dispatched(rec, invocation, now);
        (s.(records := s.records[id := next]), Claimed(next, invocation))
  }

  // ------------------------------------------------------------- outcomes

  datatype Reply = Current(op: Record) | UnknownOperation | OutcomeConflict | Refused

  predicate ValidResponse(r: Response) {
    && (r.status.Committed? ==> r.oid.Some?)
    && (r.status.Rejected? ==> r.error.Some?)
    && (!r.status.Committed? ==> r.canary.CheckUnknown? && r.postconditions.CheckUnknown?)
  }

  function OutcomeStatus(rec: Record, r: Response, now: Time): Status {
    if r.status.Rejected? then (if rec.status.CancelRequested? then Cancelled else Failed)
    else if rec.status.CancelRequested? then CancelNeedsReconciliation
    else if r.status.Committed? && now < rec.request.deadlineAt then AwaitingVerification
    else NeedsReconciliation
  }

  function WithOutcome(rec: Record, r: Response, now: Time): Record {
    var status := OutcomeStatus(rec, r, now);
    rec.(status := status, updatedAt := now, completedAt := if Terminal(status) then Some(now) else None,
    invocation := None, observed := if r.oid.Some? then r.oid else rec.observed,
    canary := r.canary, postconditions := r.postconditions,
    failure := if now >= rec.request.deadlineAt && !r.status.Rejected? then Some(DeadlinePassed)
    else if r.error.Some? then Some(Reported(r.error.value)) else None)
  }

  function RecordOutcome(s: Store, id: Id, invocation: Id, r: Response, now: Time): (Store, Reply) {
    if !ValidResponse(r) then (s, Refused)
    else if id !in s.records then (s, UnknownOperation)
    else if (id, invocation) in s.outcomes then
      (s, if s.outcomes[(id, invocation)] == r then Current(s.records[id]) else OutcomeConflict)
    else
      var rec := s.records[id];
      if rec.invocation != Some(invocation)
        || !(rec.status.Dispatching? || rec.status.CancelRequested?)
        then (s, Refused)
      else
        var next := WithOutcome(rec, r, now);
        (Settle(s.(outcomes := s.outcomes[(id, invocation) := r]), id, next), Current(next))
  }

  // ------------------------------------------------------------ decisions

  predicate DecisionTimely(d: Decision, now: Time) {
    && d.issuedAt < d.expiresAt && d.issuedAt <= now < d.expiresAt
    && now - d.issuedAt <= MAX_CONTROL_DECISION_TTL_MS && d.expiresAt - now <= MAX_CONTROL_DECISION_TTL_MS
  }

  predicate Bound(d: Decision, rec: Record) {
    && d.operationId == rec.request.operationId && d.generation == rec.request.generation
    && d.fingerprint == rec.request.fingerprint && d.sourceDigest == rec.request.sourceDigest
    && d.targetDigest == rec.request.targetDigest && d.issuer == rec.request.operator
    && (d.currentOid == rec.observed || (d.action.ConfirmApplied? && rec.observed.None? && d.currentOid.Some?))
  }

  predicate Approved(d: Decision, capability: Capability) {
    if capability.OwnerRiskGate? then d.action.Cancel? || d.approvalNonce == Some(d.nonce)
    else d.approvalNonce.None?
  }

  function Cancelling(rec: Record, now: Time): Record {
    var status := match rec.status
      case Prepared => Cancelled
      case Dispatching => CancelRequested
      case AwaitingVerification => CancelRequested
      case NeedsReconciliation => CancelNeedsReconciliation
      case other => other;
    rec.(status := status, updatedAt := now,
    completedAt := if rec.status.Prepared? then Some(now) else rec.completedAt,
    failure := if status.Cancelled? then Some(CancelledByControl) else rec.failure)
  }

  /** applyDecisionTransition; None is a rejected decision. */
  function Decide(rec: Record, d: Decision, now: Time): Option<Record> {
    var c := rec.request.capability;
    if !Approved(d, c) then None
    else match d.action
      case Cancel => if Terminal(rec.status) then None else Some(Cancelling(rec, now))
      case ReplayOnce =>
        if !rec.status.NeedsReconciliation? || !(c.EnforcedExclusive? || c.OwnerRiskGate?) then None
        else Some(rec.(status := Prepared, updatedAt := now, invocation := None, completedAt := None, failure := None))
      case ConfirmApplied =>
        if !rec.status.NeedsReconciliation? || d.currentOid.None?
          || (rec.observed.Some? && rec.observed != d.currentOid)
           || !(c.NativeCas? || c.OwnerRiskGate?) then None
        else Some(rec.(status := AwaitingVerification, updatedAt := now, invocation := None, observed := d.currentOid))
      case ConfirmNotApplied =>
        if !(rec.status.NeedsReconciliation? || rec.status.CancelNeedsReconciliation?)
           || !(c.NativeCas? || c.OwnerRiskGate?) || d.currentOid != rec.observed then None
        else
          var cancelled := rec.status.CancelNeedsReconciliation?;
          Some(rec.(status := if cancelled then Cancelled else Failed, updatedAt := now, completedAt := Some(now),
          invocation := None, failure := Some(if cancelled then CancelledByControl else NotApplied)))
      case Supersede =>
        if !(rec.status.NeedsReconciliation? || rec.status.CancelNeedsReconciliation?) then None
        else Some(rec.(status := Superseded, updatedAt := now, completedAt := Some(now), invocation := None,
          failure := Some(SupersededByControl)))
  }

  /** `trusted` stands for the checks made before the transaction: a configured key, a valid
      signature over the canonical bytes, the expected issuer and the binding to an earlier read. */
  predicate Accepts(s: Store, d: Decision, trusted: bool, now: Time) {
    trusted && DecisionTimely(d, now) && d.operationId in s.records && Bound(d, s.records[d.operationId])
    && d.nonce !in s.consumed && Decide(s.records[d.operationId], d, now).Some?
  }

  function ApplyDecision(s: Store, d: Decision, trusted: bool, now: Time): (Store, Reply) {
    if !Accepts(s, d, trusted, now) then (s, Refused)
    else
      var rec := s.records[d.operationId];
      var next := Decide(rec, d, now).value;
      var s1 := s.(consumed := s.consumed[d.nonce := Consumption(d.operationId, d.action, now)]);
      if next.status != rec.status
        || next.updatedAt != rec.updatedAt
        then (Settle(s1, d.operationId, next), Current(next))
      else (s1, Current(next))
  }

  // --------------------------------------------------------------- verify

  function VerifyStatus(rec: Record, v: Verification, now: Time): Status {
    if now >= rec.request.deadlineAt then
      (if rec.status.CancelRequested? then CancelNeedsReconciliation else NeedsReconciliation)
    else if rec.status.CancelRequested? then CancelNeedsReconciliation
    else if !v.canaryPassed || !v.postconditionsPassed then NeedsReconciliation
    else Succeeded
  }

  function Verified(rec: Record, v: Verification, now: Time): Record {
    var status := VerifyStatus(rec, v, now);
    rec.(status := status, updatedAt := now, completedAt := if status.Succeeded? then Some(now) else None,
    observed := Some(v.oid), canary := if v.canaryPassed then CheckPassed else CheckFailed,
    postconditions := if v.postconditionsPassed then CheckPassed else CheckFailed, invocation := None,
    failure := if now >= rec.request.deadlineAt then Some(DeadlinePassed)
    else if rec.status.CancelRequested? then Some(CancelRequiresReconciliation)
    else if status.Succeeded? then rec.failure else Some(VerificationFailed),
    request := if status.Succeeded? then rec.request.(currentGeneration := Some(rec.request.intendedGeneration))
      else rec.request)
  }

  function Verify(s: Store, id: Id, v: Verification, now: Time): (Store, Reply) {
    if id !in s.records then (s, UnknownOperation)
    else
      var rec := s.records[id];
      if Terminal(rec.status) then (s, Current(rec))
      else if !(rec.status.AwaitingVerification? || rec.status.CancelRequested?) then (s, Refused)
      else if rec.observed.Some? && rec.observed.value != v.oid then (s, Refused)
      else
        var next := Verified(rec, v, now);
        var s1 := if next.status.Succeeded? then
                    s.(lastSuccess := s.lastSuccess[(rec.request.target, rec.request.targetDigest,
                      rec.request.fingerprint)
                  := LastSuccess(id, rec.request.generation, rec.request.sourceDigest, v.oid, now)])
                  else s;
        (Settle(s1, id, next), Current(next))
  }

  // ------------------------------------------------------------- watchdog

  predicate Due(rec: Record, now: Time) {
    !Terminal(rec.status) && now >= rec.request.deadlineAt
  }

  /** What a tick makes of one listed operation. */
  function Expired(rec: Record, now: Time): Record {
    if !Due(rec, now) then rec
    else if rec.status.Prepared? then
      rec.(status := Failed, updatedAt := now, completedAt := Some(now), invocation := None,
        failure := Some(DeadlinePassed))
    else if rec.status.Dispatching? || rec.status.AwaitingVerification? || rec.status.CancelRequested? then
      rec.(status := if rec.status.CancelRequested? then CancelNeedsReconciliation else NeedsReconciliation,
      updatedAt := now, completedAt := None, invocation := None,
      failure := if rec.failure.Some? then rec.failure else Some(WatchdogDeadline))
    else rec
  }

  function ExpiredRecords(records: map<Id, Record>, ids: seq<Id>, now: Time): (r: map<Id, Record>)
    ensures r.Keys == records.Keys
  {
    map id | id in records :: if id in ids then Expired(records[id], now) else records[id]
  }

  /** Does a tick over `ids` fail operation `id`, so that its fence opens? */
  predicate Fails(records: map<Id, Record>, ids: seq<Id>, id: Id, now: Time) {
    id in ids && id in records && Due(records[id], now) && records[id].status.Prepared?
  }

  function OpenFences(s: Store, ids: seq<Id>, now: Time): map<Token, Fence> {
    map t | t in s.fences && !(Fails(s.records, ids, s.fences[t].operationId, now)
              && s.records[s.fences[t].operationId].request.target == t) :: s.fences[t]
  }

  function Kept(records: map<Id, Record>, ids: seq<Id>, now: Time): (r: seq<Id>)
    ensures forall x :: x in r <==>
            x in ids && x in records && !Terminal(records[x].status) && now < records[x].request.deadlineAt
  {
    if ids == [] then []
    else
      var rest := Kept(records, ids[..|ids| - 1], now);
      var x := ids[|ids| - 1];
      if x in records && !Terminal(records[x].status) && now < records[x].request.deadlineAt then rest + [x] else rest
  }

  /** The operations a tick looks at: listed before the transaction, indexed, listed inside it.
      Both listings are empty when prefix listing is unavailable. */
  function Watched(s: Store, discovered: seq<Id>, listed: seq<Id>): seq<Id> {
    Dedup(discovered + s.active + listed)
  }

  function Tick(s: Store, ids: seq<Id>, now: Time): Store {
    s.(records := ExpiredRecords(s.records, ids, now), fences := OpenFences(s, ids, now),
      active := Kept(s.records, ids, now))
  }

  function Watchdog(s: Store, discovered: seq<Id>, listed: seq<Id>, now: Time): Store {
    Tick(s, Watched(s, discovered, listed), now)
  }

  // ----------------------------------------------------------------- runs

  datatype Command =
    | DoStart(request: Request, now: Time)
    | DoClaim(id: Id, invocation: Id, now: Time)
    | DoOutcome(id: Id, invocation: Id, response: Response, now: Time)
    | DoDecision(decision: Decision, trusted: bool, now: Time)
    | DoVerify(id: Id, verification: Verification, now: Time)
    | DoWatchdog(discovered: seq<Id>, listed: seq<Id>, now: Time)

  function Step(s: Store, c: Command): Store {
    match c
    case DoStart(request, now) => Start(s, request, now).0
    case DoClaim(id, invocation, now) => Claim(s, id, invocation, now).0
    case DoOutcome(id, invocation, response, now) => RecordOutcome(s, id, invocation, response, now).0
    case DoDecision(decision, trusted, now) => ApplyDecision(s, decision, trusted, now).0
    case DoVerify(id, verification, now) => Verify(s, id, verification, now).0
    case DoWatchdog(discovered, listed, now) => Watchdog(s, discovered, listed, now)
  }

  /** Any interleaving of transactions, oldest first. */
  function Run(s: Store, commands: seq<Command>): Store {
    if commands == [] then s
    else Step(Run(s, commands[..|commands| - 1]), commands[|commands| - 1])
  }
}
