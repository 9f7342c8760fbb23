/** What every executor call answers and writes, stated field by field for the caller and proved of
    the step functions: an operation id is admitted, resumed, timed out, cancelled, completed and
    swept exactly so. */
module ExecutorLaws {
  import opened Collections
  import opened ExecutorModel
  import opened ExecutorSafety
  import opened ExecutorEdges
  import ExecutorStore
  import ExecutorProgress

  /** The records of `s` with one of them, and nothing else of it, replaced. */
  ghost predicate OnlyRecord(s: Store, t: Store, id: Id, rec: Record) {
    && t.records == s.records[id := rec]
    && t.active == s.active && t.queue == s.queue && t.lanes == s.lanes && t.outcomes == s.outcomes
  }

  // ---------------------------------------------------------------- begin

  /** A new operation: refused for an untimely deadline or a store of 256, queued behind a running
      exclusive operation of its lane, started otherwise. */
  lemma NewOperationLaw(s: Store, req: Request, now: Time)
    requires Inv(s) && req.operationId !in s.records
    ensures var (t, reply) := Begin(s, req, now);
            var id := req.operationId;
            var held := exists x :: x in s.records && s.records[x].request.exclusive && x in s.active
                                    && s.records[x].request.schedule == req.schedule;
            if req.deadlineAt <= now || req.deadlineAt > now + 900_000 then t == s && reply == InvalidRequest
            else if |s.active| + |s.queue| >= 256 then t == s && reply == Unavailable
            else if req.exclusive && held then
              var rec := Record(req, Queued, now, None, None, None, None, 0, None);
              reply == Enqueued(rec) && t == s.(records := s.records[id := rec], queue := s.queue + [id])
            else
              var rec := Record(req, Active, now, Some(now), None, None, None, 0, Some(req.invocationId));
              && reply == Started(rec)
              && t == s.(records := s.records[id := rec], active := s.active + [id],
                         lanes := if req.exclusive then s.lanes[req.schedule := id] else s.lanes)
  {
    hide Dedup, Distinct;
    DedupOfDistinct(s.active);
    if req.schedule in s.lanes {
      assert Owns(s, {}, s.lanes[req.schedule]);
    }
    forall x | x in s.records && s.records[x].request.exclusive && x in s.active ensures Owns(s, {}, x) {}
  }

  /** A known operation: a request that differs in fingerprint, schedule or exclusiveness conflicts;
      the running invocation is joined; a promoted or timed-out operation without invocation is taken
      over by the caller's; everything else is shown as it is. */
  lemma KnownOperationLaw(s: Store, req: Request, now: Time)
    requires Inv(s) && req.operationId in s.records
    ensures var (t, reply) := Begin(s, req, now);
            var id := req.operationId;
            var rec := s.records[id];
            if req.deadlineAt <= now || req.deadlineAt > now + 900_000 then t == s && reply == InvalidRequest
            else if rec.request.fingerprint != req.fingerprint || rec.request.schedule != req.schedule
                    || rec.request.exclusive != req.exclusive
            then t == s && reply == Conflict
            else if rec.status != Active && rec.status != TimedOut then t == s && reply == Existing(rec)
            else if rec.invocation == Some(req.invocationId) then t == s && reply == Coalesced(rec)
            else if rec.invocation != None then t == s && reply == Existing(rec)
            else
              var next := Record(
                rec.request, Active, rec.createdAt, if rec.startedAt == None then Some(now) else rec.startedAt,
                rec.completedAt, rec.timeoutAt, rec.alert, rec.attempts + 1, Some(req.invocationId));
              reply == Started(next) && OnlyRecord(s, t, id, next)
  {
    hide Dedup, Distinct;
    var id := req.operationId;
    DedupOfDistinct(s.active);
    if Holds(s.records[id].status) {
      assert id in s.active;
      if s.records[id].request.exclusive {
        assert Owns(s, {}, id);
        assert s.lanes[s.records[id].request.schedule := id] == s.lanes;
      }
    }
  }

  // ------------------------------------------- timeout, cancel, completion

  /** An invocation's first outcome stands. */
  function FirstOutcome(s: Store, id: Id, invocation: Id, outcome: Outcome): map<(Id, Id), Outcome> {
    if (id, invocation) in s.outcomes then s.outcomes else s.outcomes[(id, invocation) := outcome]
  }

  /** A timeout is noted for every known operation, and moves it only under its running invocation. */
  lemma TimeoutLaw(s: Store, id: Id, invocation: Id, now: Time)
    ensures var (t, reply) := RecordTimeout(s, id, invocation, now);
            if id !in s.records then t == s && reply == Unknown
            else
              var rec := s.records[id];
              var noted := s.(outcomes := FirstOutcome(s, id, invocation, Outcome(OutcomeTimedOut, now, None)));
              if rec.status != Active || rec.invocation != Some(invocation) then t == noted && reply == Current(rec)
              else
                var next := Record(
                  rec.request, TimedOut, rec.createdAt, rec.startedAt, rec.completedAt,
                  if rec.timeoutAt == None then Some(now) else rec.timeoutAt,
                  if rec.alert == None then Some(InvocationTimeout) else rec.alert, rec.attempts + 1, rec.invocation);
                OnlyRecord(noted, t, id, next) && reply == Current(next)
  {
  }

  /** A cancel is requested of a running operation and leaves its invocation in place. */
  lemma CancelLaw(s: Store, id: Id, now: Time)
    ensures var (t, reply) := RequestCancel(s, id, now);
            if id !in s.records then t == s && reply == Unknown
            else
              var rec := s.records[id];
              if rec.status != Active && rec.status != TimedOut then t == s && reply == Current(rec)
              else
                var next := Record(
                  rec.request, CancelRequested, rec.createdAt, rec.startedAt, rec.completedAt,
                  if rec.timeoutAt == None then Some(now) else rec.timeoutAt,
                  if rec.alert == None then Some(WatchdogDeadline) else rec.alert, rec.attempts, rec.invocation);
                OnlyRecord(s, t, id, next) && reply == Current(next)
  {
  }

  /** A completion is refused unless it comes under the running invocation, answers a finished
      operation with what it is, and otherwise finishes it and takes it out of the index. */
  lemma CompletionLaw(s: Store, id: Id, invocation: Id, ok: bool, result: Option<Digest>, now: Time)
    ensures var (t, reply) := Complete(s, id, invocation, ok, result, now);
            if id !in s.records then t == s && reply == Unknown
            else
              var rec := s.records[id];
              if rec.status == Succeeded || rec.status == Failed || rec.status == NeedsReconciliation
              then t == s && reply == Current(rec)
              else if rec.invocation != Some(invocation)
                      || !(rec.status == Active || rec.status == TimedOut || rec.status == CancelRequested)
              then t == s && reply == Mismatch
              else
                var next := Record(
                  rec.request, if ok then Succeeded else Failed, rec.createdAt, rec.startedAt, Some(now),
                  rec.timeoutAt, rec.alert, rec.attempts, None);
                && reply == Current(next) && id in t.records && t.records[id] == next && id !in t.active
                && t.outcomes == FirstOutcome(s, id, invocation,
                                              Outcome(if ok then OutcomeSucceeded else OutcomeFailed, now, result))
                && (forall x :: x in s.active && x != id ==> x in t.active)
                && (forall x :: x in s.records && x != id && s.records[x].status != Queued ==>
                      x in t.records && t.records[x] == s.records[x])
  {
    hide ReleaseLane, Retire;
    if id in s.records && Holds(s.records[id].status) && s.records[id].invocation == Some(invocation) {
      var done := Finished(s.records[id], ok, now);
      var outcome := Outcome(if ok then OutcomeSucceeded else OutcomeFailed, now, result);
      var s1 := s.(outcomes := WriteOutcome(s.outcomes, id, invocation, outcome));
      RetireLaw(s1, id, done);
      HandoverKeeps(Retire(s1, id, done), id, now);
    }
  }

  lemma RetireLaw(s: Store, id: Id, rec: Record)
    ensures var t := Retire(s, id, rec);
            && t.records == s.records[id := rec] && t.outcomes == s.outcomes
            && forall x :: x in t.active <==> x in s.active && x != id
  {
  }

  /** Handing a lane on takes nothing out of the index, adds to it only what was queued, and keeps
      every record that was not queued. */
  lemma HandoverKeeps(s: Store, id: Id, now: Time)
    ensures var t := ReleaseLane(s, id, now);
            && t.outcomes == s.outcomes
            && (forall x :: x in s.active ==> x in t.active)
            && (forall x :: x in t.active ==> x in s.active || (x in s.records && s.records[x].status == Queued))
            && (forall x :: x in s.records && s.records[x].status != Queued ==>
                  x in t.records && t.records[x] == s.records[x])
  {
    hide Earliest, Without;
  }

  /** The caller whose begin starts an operation can complete it: nothing but its own invocation is
      asked for, whether the operation was new, promoted or taken over after a timeout. */
  lemma StartedCanComplete(s: Store, req: Request, now: Time, ok: bool, result: Option<Digest>, later: Time)
    requires Inv(s) && Begin(s, req, now).1.Started?
    ensures var t := Begin(s, req, now).0;
            var (u, reply) := Complete(t, req.operationId, req.invocationId, ok, result, later);
            && reply.Current? && reply.operation.status == (if ok then Succeeded else Failed)
            && req.operationId in u.records && u.records[req.operationId] == reply.operation
            && reply.operation.completedAt == Some(later)
  {
    hide Inv, Begin, Complete;
    if req.operationId in s.records {
      KnownOperationLaw(s, req, now);
    } else {
      NewOperationLaw(s, req, now);
    }
    CompletionLaw(Begin(s, req, now).0, req.operationId, req.invocationId, ok, result, later);
  }

  // ------------------------------------------------------------ promotion

  /** What a promotion makes of the record it takes from the queue. */
  ghost predicate PromotedFields(rec: Record, next: Record, now: Time) {
    next == Record(
              rec.request, Active, rec.createdAt, Some(now), rec.completedAt, rec.timeoutAt, rec.alert,
              rec.attempts, None)
  }

  lemma ReleasePromotesFields(s: Store, id: Id, now: Time, x: Id)
    requires x in s.records && s.records[x].status.Queued?
    ensures var t := ReleaseLane(s, id, now);
            x in t.records && (t.records[x] == s.records[x] || PromotedFields(s.records[x], t.records[x], now))
  {
    hide Earliest, Without;
  }

  lemma {:induction false} ReleaseAllPromotesFields(s: Store, done: seq<Id>, now: Time, x: Id)
    requires x in s.records && s.records[x].status.Queued?
    ensures var t := ReleaseAll(s, done, now);
            x in t.records && (t.records[x] == s.records[x] || PromotedFields(s.records[x], t.records[x], now))
  {
    hide ReleaseLane;
    if done != [] {
      var front, last := done[..|done| - 1], done[|done| - 1];
      ReleaseAllPromotesFields(s, front, now, x);
      if ReleaseAll(s, front, now).records[x].status.Queued? {
        ReleasePromotesFields(ReleaseAll(s, front, now), last, now, x);
      } else {
        ReleasePromotes(ReleaseAll(s, front, now), last, now, x);
      }
    }
  }

  // ------------------------------------------------------------- watchdog

  /** What one tick makes of each record: a running operation past its deadline times out, one past
      its deadline by a quarter of an hour is handed to reconciliation, a queued one may be promoted,
      and no other field of any record changes. */
  lemma TickLaw(s: Store, now: Time, x: Id)
    requires Inv(s) && x in s.records
    ensures var t := Watchdog(s, now); var rec := s.records[x];
            && x in t.records && t.outcomes == s.outcomes
            && if rec.status == Active && now >= rec.request.deadlineAt then
                 t.records[x] == Record(
                   rec.request, TimedOut, rec.createdAt, rec.startedAt, rec.completedAt,
                   if rec.timeoutAt == None then Some(now) else rec.timeoutAt,
                   if rec.alert == None then Some(WatchdogDeadline) else rec.alert, rec.attempts + 1, rec.invocation)
               else if (rec.status == TimedOut || rec.status == CancelRequested)
                 && now >= rec.request.deadlineAt + 900_000 then
                 t.records[x] == Record(
                   rec.request, NeedsReconciliation, rec.createdAt, rec.startedAt, Some(now),
                   if rec.timeoutAt == None then Some(now) else rec.timeoutAt,
                   if rec.alert == None then Some(WatchdogDeadline) else rec.alert, rec.attempts, None)
               else t.records[x] == rec || (rec.status == Queued && PromotedFields(rec, t.records[x], now))
  {
    hide Dedup, Remaining, Terminalized, ReleaseAll, Laned, Distinct;
    var u, done := Sweep(s, now), Terminalized(s.records, Dedup(s.active), now);
    ReleaseAllKeepsOutcomes(u, done, now);
    if s.records[x].status.Queued? {
      assert x !in s.active;
      ReleaseAllPromotesFields(u, done, now, x);
    } else {
      ExecutorProgress.ReleaseAllKeepsSettled(u, done, now, x);
    }
  }

  lemma {:induction false} ReleaseAllKeepsOutcomes(s: Store, done: seq<Id>, now: Time)
    ensures ReleaseAll(s, done, now).outcomes == s.outcomes
  {
    hide Earliest, Without;
    if done != [] {
      ReleaseAllKeepsOutcomes(s, done[..|done| - 1], now);
    }
  }

  /** What a tick reports: the operations that time out, and those handed to reconciliation. */
  lemma TickReportsLaw(s: Store, now: Time, x: Id)
    requires Inv(s)
    ensures x in ExecutorStore.Marked(s.records, Dedup(s.active), now) <==>
            x in s.records && s.records[x].status == Active && now >= s.records[x].request.deadlineAt
    ensures x in Terminalized(s.records, Dedup(s.active), now) <==>
            && x in s.records && (s.records[x].status == TimedOut || s.records[x].status == CancelRequested)
            && now >= s.records[x].request.deadlineAt + 900_000
  {
    hide Dedup, Terminalized, ExecutorStore.Marked, Laned, Distinct;
    MarkedExactly(s.records, Dedup(s.active), now, x);
  }

  lemma {:induction false} MarkedExactly(records: map<Id, Record>, ids: seq<Id>, now: Time, x: Id)
    ensures x in ExecutorStore.Marked(records, ids, now) <==>
            x in ids && x in records && records[x].status.Active? && now >= records[x].request.deadlineAt
  {
    if ids != [] {
      var front, last := ids[..|ids| - 1], ids[|ids| - 1];
      MarkedExactly(records, front, now, x);
      assert x in ids <==> x in front || x == last;
    }
  }

  /** The alarm of an executing operation is the first time at which a tick acts on it. */
  lemma AlarmIsWhenATickActs(rec: Record, now: Time)
    requires rec.status == Active || rec.status == TimedOut || rec.status == CancelRequested
    ensures now >= AlarmAt(rec) <==> Swept(rec, now).status != rec.status
    ensures AlarmAt(rec) == rec.request.deadlineAt + if rec.status == Active then 0 else 900_000
  {
  }
}
