/** The durable executor scheduler of hub/src/executor-operation-store.ts as a state machine:
    every storage transaction is one step function on the values the store keeps. */
module ExecutorModel {
  import opened Collections

  type Digest = nat
  type Time = nat

  const MAX_ACTIVE_OPERATIONS: nat := 256
  const MAX_OPERATION_LIFETIME_MS: nat := 15 * 60_000

  datatype Status =
    | Active | Queued | TimedOut | Succeeded | Failed
    | NeedsReconciliation | CancelRequested | CancelNeedsReconciliation

  datatype Alert = InvocationTimeout | WatchdogDeadline

  datatype Request = Request(
    operationId: Id, schedule: Digest, exclusive: bool, invocationId: Id, fingerprint: Digest,
    generation: nat, source: Digest, target: Digest, config: Digest, deadlineAt: Time)

  datatype Record = Record(
    request: Request, status: Status, createdAt: Time, startedAt: Option<Time>,
    completedAt: Option<Time>, timeoutAt: Option<Time>, alert: Option<Alert>,
    attempts: nat, invocation: Option<Id>)

  datatype OutcomeStatus = OutcomeTimedOut | OutcomeSucceeded | OutcomeFailed

  datatype Outcome = Outcome(status: OutcomeStatus, observedAt: Time, result: Option<Digest>)

  /** Records, active index, queue, lane keys and invocation outcomes. Keeping them in separate
      maps is where operation ids outside the reserved words `active` and `queue` are assumed. */
  datatype Store = Store(
    records: map<Id, Record>, active: seq<Id>, queue: seq<Id>, lanes: map<Digest, Id>,
    outcomes: map<(Id, Id), Outcome>)

  const EMPTY := Store(map[], [], [], map[], map[])

  predicate Holds(status: Status) {
    status.Active? || status.TimedOut? || status.CancelRequested?
  }

  predicate Terminal(status: Status) {
    status.Succeeded? || status.Failed? || status.NeedsReconciliation?
  }

  function OrElse<T>(value: Option<T>, fallback: T): T {
    if value.Some? then value.value else fallback
  }

  // ---------------------------------------------------------------- begin

  datatype BeginReply =
    | Started(operation: Record) | Coalesced(operation: Record) | Enqueued(operation: Record)
    | Existing(operation: Record) | Conflict | InvalidRequest | Unavailable

  predicate ValidStart(req: Request, now: Time) {
    now < req.deadlineAt <= now + MAX_OPERATION_LIFETIME_MS
  }

  predicate SameIdentity(rec: Record, req: Request) {
    rec.request.fingerprint == req.fingerprint && rec.request.schedule == req.schedule
    && rec.request.exclusive == req.exclusive
  }

  function Resumed(rec: Record, invocation: Id, now: Time): Record {
    rec.(status := Active, startedAt := Some(OrElse(rec.startedAt, now)),
    invocation := Some(invocation), attempts := rec.attempts + 1)
  }

  /** A promoted operation has no invocation yet; the next matching request takes it over. */
  function Resume(s: Store, id: Id, invocation: Id, now: Time): Store
    requires id in s.records
  {
    var rec := s.records[id];
    var active := Dedup(s.active);
    s.(records := s.records[id := Resumed(rec, invocation, now)],
    lanes := if rec.request.exclusive then s.lanes[rec.request.schedule := id] else s.lanes,
    active := if id in active then s.active else active + [id])
  }

  /** Does the lane key name an operation that still executes? */
  predicate LaneBusy(s: Store, lane: Digest) {
    lane in s.lanes && s.lanes[lane] in s.records && Holds(s.records[s.lanes[lane]].status)
  }

  function Fresh(req: Request, starts: bool, now: Time): Record {
    Record(req, if starts then Active else Queued, now, if starts then Some(now) else None,
           None, None, None, 0, if starts then Some(req.invocationId) else None)
  }

  function Admit(s: Store, req: Request, now: Time): Store {
    var starts := !req.exclusive || !LaneBusy(s, req.schedule);
    var s1 := s.(records := s.records[req.operationId := Fresh(req, starts, now)]);
    if starts then
      s1.(active := Dedup(s.active) + [req.operationId],
      lanes := if req.exclusive then s.lanes[req.schedule := req.operationId] else s.lanes)
    else
      s1.(queue := s.queue + [req.operationId])
  }

  function Begin(s: Store, req: Request, now: Time): (Store, BeginReply) {
    var id := req.operationId;
    if !ValidStart(req, now) then (s, InvalidRequest)
    else if id in s.records then
      var rec := s.records[id];
      if !SameIdentity(rec, req) then (s, Conflict)
      else if !(rec.status.Active? || rec.status.TimedOut?) then (s, Existing(rec))
      else if rec.invocation == Some(req.invocationId) then (s, Coalesced(rec))
      else if rec.invocation.None? then
        (Resume(s, id, req.invocationId, now), Started(Resumed(rec, req.invocationId, now)))
      else (s, Existing(rec))
    else if |Dedup(s.active)| + |s.queue| >= MAX_ACTIVE_OPERATIONS then (s, Unavailable)
    else
      var t := Admit(s, req, now);
      (t, if t.records[id].status.Active? then Started(t.records[id]) else Enqueued(t.records[id]))
  }

  // ------------------------------------------- timeout, cancel, completion

  datatype Reply = Current(operation: Record) | Unknown | Mismatch

  function WriteOutcome(outcomes: map<(Id, Id), Outcome>, id: Id, invocation: Id, outcome: Outcome)
    : map<(Id, Id), Outcome>
  {
    if (id, invocation) in outcomes then outcomes else outcomes[(id, invocation) := outcome]
  }

  function InvocationTimedOut(rec: Record, now: Time): Record {
    rec.(status := TimedOut, timeoutAt := Some(OrElse(rec.timeoutAt, now)),
    alert := Some(OrElse(rec.alert, InvocationTimeout)), attempts := rec.attempts + 1)
  }

  function RecordTimeout(s: Store, id: Id, invocation: Id, now: Time): (Store, Reply) {
    if id !in s.records then (s, Unknown)
    else
      var rec := s.records[id];
      var s1 := s.(outcomes := WriteOutcome(s.outcomes, id, invocation, Outcome(OutcomeTimedOut, now, None)));
      if !rec.status.Active? || rec.invocation != Some(invocation) then (s1, Current(rec))
      else
        var timedOut := InvocationTimedOut(rec, now);
        (s1.(records := s.records[id := timedOut]), Current(timedOut))
  }

  function Cancelling(rec: Record, now: Time): Record {
    rec.(status := CancelRequested, alert := Some(OrElse(rec.alert, WatchdogDeadline)),
    timeoutAt := Some(OrElse(rec.timeoutAt, now)))
  }

  function RequestCancel(s: Store, id: Id, now: Time): (Store, Reply) {
    if id !in s.records then (s, Unknown)
    else
      var rec := s.records[id];
      if !rec.status.Active? && !rec.status.TimedOut? then (s, Current(rec))
      else (s.(records := s.records[id := Cancelling(rec, now)]), Current(Cancelling(rec, now)))
  }

  /** May `id` be promoted into `lane`? The queue is scanned with exactly this test. */
  predicate Candidate(s: Store, id: Id, lane: Digest) {
    id !in s.active && id in s.records && s.records[id].status.Queued?
    && s.records[id].request.schedule == lane
  }

  /** The comparator of promoteNextQueued: creation time, then identifier. */
  predicate Precedes(s: Store, a: Id, b: Id)
    requires a in s.records && b in s.records
  {
    s.records[a].createdAt < s.records[b].createdAt
    || (s.records[a].createdAt == s.records[b].createdAt && a < b)
  }

  /** The first candidate among `ids` once sorted by the comparator. */
  function Earliest(s: Store, ids: seq<Id>, lane: Digest): (best: Option<Id>)
    ensures best.None? ==> forall x :: x in ids ==> !Candidate(s, x, lane)
    ensures best.Some? ==> best.value in ids && Candidate(s, best.value, lane)
    ensures best.Some? ==> forall x :: x in ids && Candidate(s, x, lane) ==> !Precedes(s, x, best.value)
  {
    if ids == [] then None
    else
      var best := Earliest(s, ids[..|ids| - 1], lane);
      var last := ids[|ids| - 1];
      if Candidate(s, last, lane) && (best.None? || Precedes(s, last, best.value)) then Some(last) else best
  }

  function Promoted(rec: Record, now: Time): Record {
    rec.(status := Active, startedAt := Some(now), invocation := None)
  }

  function Promote(s: Store, id: Id, lane: Digest, now: Time): Store
    requires id in s.records
  {
    s.(records := s.records[id := Promoted(s.records[id], now)], queue := Without(s.queue, id),
    active := s.active + [id], lanes := s.lanes[lane := id])
  }

  /** An operation that stopped executing gives its lane to the earliest queued operation. */
  function ReleaseLane(s: Store, id: Id, now: Time): Store {
    if id !in s.records || !s.records[id].request.exclusive then s
    else
      var lane := s.records[id].request.schedule;
      var s1 := if lane in s.lanes && s.lanes[lane] == id then s.(lanes := s.lanes - {lane}) else s;
      var next := Earliest(s1, s1.queue, lane);
      if next.None? then s1 else Promote(s1, next.value, lane, now)
  }

  function Finished(rec: Record, ok: bool, now: Time): Record {
    rec.(status := if ok then Succeeded else Failed, completedAt := Some(now), invocation := None)
  }

  function Retire(s: Store, id: Id, rec: Record): Store {
    s.(records := s.records[id := rec], active := Without(Dedup(s.active), id))
  }

  function Complete(s: Store, id: Id, invocation: Id, ok: bool, result: Option<Digest>, now: Time): (Store, Reply) {
    if id !in s.records then (s, Unknown)
    else
      var rec := s.records[id];
      if Terminal(rec.status) then (s, Current(rec))
      else if rec.invocation != Some(invocation) || !Holds(rec.status) then (s, Mismatch)
      else
        var done := Finished(rec, ok, now);
        var outcome := Outcome(if ok then OutcomeSucceeded else OutcomeFailed, now, result);
        var s1 := s.(outcomes := WriteOutcome(s.outcomes, id, invocation, outcome));
        (ReleaseLane(Retire(s1, id, done), id, now), Current(done))
  }

  // ------------------------------------------------------------- watchdog

  function TerminalDeadline(rec: Record): Time {
    rec.request.deadlineAt + MAX_OPERATION_LIFETIME_MS
  }

  /** When the alarm for an indexed operation is due. */
  function AlarmAt(rec: Record): Time {
    if rec.status.Active? then rec.request.deadlineAt else TerminalDeadline(rec)
  }

  /** What one watchdog tick makes of one indexed operation. */
  function Swept(rec: Record, now: Time): Record {
    if rec.status.Active? && now >= rec.request.deadlineAt then
      rec.(status := TimedOut, timeoutAt := Some(OrElse(rec.timeoutAt, now)),
      alert := Some(OrElse(rec.alert, WatchdogDeadline)), attempts := rec.attempts + 1)
    else if (rec.status.TimedOut? || rec.status.CancelRequested?) && now >= TerminalDeadline(rec) then
      rec.(status := NeedsReconciliation, alert := Some(OrElse(rec.alert, WatchdogDeadline)),
      timeoutAt := Some(OrElse(rec.timeoutAt, now)), completedAt := Some(now), invocation := None)
    else rec
  }

  function SweptRecords(records: map<Id, Record>, ids: seq<Id>, now: Time): (r: map<Id, Record>)
    ensures r.Keys == records.Keys
  {
    map id | id in records :: if id in ids then Swept(records[id], now) else records[id]
  }

  /** The indexed operations a tick keeps: they execute before and after it. */
  function Remaining(records: map<Id, Record>, ids: seq<Id>, now: Time): (r: seq<Id>)
    ensures forall x :: x in r <==>
            x in ids && x in records && Holds(records[x].status) && Holds(Swept(records[x], now).status)
  {
    if ids == [] then []
    else
      var rest := Remaining(records, ids[..|ids| - 1], now);
      var x := ids[|ids| - 1];
      if x in records && Holds(records[x].status) && Holds(Swept(records[x], now).status) then rest + [x] else rest
  }

  /** The indexed operations a tick hands to reconciliation. */
  function Terminalized(records: map<Id, Record>, ids: seq<Id>, now: Time): (r: seq<Id>)
    ensures forall x :: x in r <==>
            x in ids && x in records && Holds(records[x].status) && !Holds(Swept(records[x], now).status)
  {
    if ids == [] then []
    else
      var rest := Terminalized(records, ids[..|ids| - 1], now);
      var x := ids[|ids| - 1];
      if x in records && Holds(records[x].status) && !Holds(Swept(records[x], now).status) then rest + [x] else rest
  }

  function Sweep(s: Store, now: Time): Store {
    var ids := Dedup(s.active);
    s.(records := SweptRecords(s.records, ids, now), active := Remaining(s.records, ids, now))
  }

  function ReleaseAll(s: Store, done: seq<Id>, now: Time): Store {
    if done == [] then s
    else ReleaseLane(ReleaseAll(s, done[..|done| - 1], now), done[|done| - 1], now)
  }

  function Watchdog(s: Store, now: Time): Store {
    ReleaseAll(Sweep(s, now), Terminalized(s.records, Dedup(s.active), now), now)
  }

  // ----------------------------------------------------------------- runs

  datatype Command =
    | DoBegin(request: Request, now: Time)
    | DoTimeout(id: Id, invocation: Id, now: Time)
    | DoComplete(id: Id, invocation: Id, ok: bool, result: Option<Digest>, now: Time)
    | DoCancel(id: Id, now: Time)
    | DoWatchdog(now: Time)

  function Step(s: Store, c: Command): Store {
    match c
    case DoBegin(request, now) => Begin(s, request, now).0
    case DoTimeout(id, invocation, now) => RecordTimeout(s, id, invocation, now).0
    case DoComplete(id, invocation, ok, result, now) => Complete(s, id, invocation, ok, result, now).0
    case DoCancel(id, now) => RequestCancel(s, id, now).0
    case DoWatchdog(now) => Watchdog(s, now)
  }

  /** Any interleaving of transactions, oldest first. */
  function Run(s: Store, commands: seq<Command>): Store {
    if commands == [] then s
    else Step(Run(s, commands[..|commands| - 1]), commands[|commands| - 1])
  }
}
