/** DurableExecutorOperationStore: the transactions of hub/src/executor-operation-store.ts as
    methods that rewrite the stored maps, each proved against its step function. */
module ExecutorStore {
  import opened Collections
  import opened ExecutorModel
  import opened ExecutorSafety
  import opened ExecutorProgress

  /** The operations whose deadline one tick reports as passed. */
  function Marked(records: map<Id, Record>, ids: seq<Id>, now: Time): seq<Id> {
    if ids == [] then []
    else
      var rest := Marked(records, ids[..|ids| - 1], now);
      var x := ids[|ids| - 1];
      if x in records && records[x].status.Active? && now >= records[x].request.deadlineAt then rest + [x] else rest
  }

  /** Writing a record under a new identifier and indexing it keeps the alarm least. */
  lemma LeastDueGrows(records: map<Id, Record>, ids: seq<Id>, alarm: Option<Time>, id: Id, rec: Record)
    requires LeastDue(records, ids, alarm) && id !in ids
    ensures LeastDue(records[id := rec], ids + [id], EarlierAlarm(alarm, AlarmAt(rec)))
  {
    var r, all, next := records[id := rec], ids + [id], EarlierAlarm(alarm, AlarmAt(rec));
    if next == alarm && alarm.Some? {
      var x :| x in ids && x in records && AlarmAt(records[x]) == alarm.value;
      assert x in all && AlarmAt(r[x]) == next.value;
    } else {
      assert id in all && AlarmAt(r[id]) == next.value;
    }
  }

  lemma LeastDueFrame(records: map<Id, Record>, ids: seq<Id>, alarm: Option<Time>, id: Id, rec: Record)
    requires LeastDue(records, ids, alarm) && id !in ids
    ensures LeastDue(records[id := rec], ids, alarm)
  {
    if alarm.Some? {
      var x :| x in ids && x in records && AlarmAt(records[x]) == alarm.value;
      assert AlarmAt(records[id := rec][x]) == alarm.value;
    }
  }

  lemma SweptSnoc(records: map<Id, Record>, ids: seq<Id>, id: Id, now: Time)
    requires id !in ids
    ensures id in records ==>
              && SweptRecords(records, ids, now)[id] == records[id]
              && SweptRecords(records, ids + [id], now)
                == SweptRecords(records, ids, now)[id := Swept(records[id], now)]
    ensures id !in records ==> SweptRecords(records, ids + [id], now) == SweptRecords(records, ids, now)
  {
  }

  lemma NothingSwept(records: map<Id, Record>, ids: seq<Id>, now: Time)
    ensures SweptRecords(records, ids[..0], now) == records && LeastDue(records, [], None)
  {
  }

  class OperationStore {
    var records: map<Id, Record>
    var active: seq<Id>
    var queue: seq<Id>
    var lanes: map<Digest, Id>
    var outcomes: map<(Id, Id), Outcome>

    ghost function State(): Store
      reads this
    {
      Store(records, active, queue, lanes, outcomes)
    }

    constructor ()
      ensures State() == EMPTY
    {
      records, active, queue, lanes, outcomes := map[], [], [], map[], map[];
    }

    method BeginOperation(req: Request, now: Time) returns (reply: BeginReply)
      modifies this
      ensures (State(), reply) == Begin(old(State()), req, now)
    {
      if !ValidStart(req, now) {
        return InvalidRequest;
      }
      var id := req.operationId;
      if id in records {
        var existing := records[id];
        if !SameIdentity(existing, req) {
          return Conflict;
        }
        if existing.status.Active? || existing.status.TimedOut? {
          if existing.invocation == Some(req.invocationId) {
            return Coalesced(existing);
          }
          if existing.invocation.None? {
            var indexed := Dedup(active);
            var resumed := Resumed(existing, req.invocationId, now);
            records := records[id := resumed];
            if existing.request.exclusive {
              lanes := lanes[existing.request.schedule := id];
            }
            if id !in indexed {
              active := indexed + [id];
            }
            return Started(resumed);
          }
        }
        return Existing(existing);
      }

      var indexed := Dedup(active);
      if |indexed| + |queue| >= MAX_ACTIVE_OPERATIONS {
        return Unavailable;
      }
      var lane := req.schedule;
      var busy := false;
      if req.exclusive && lane in lanes {
        if lanes[lane] in records && Holds(records[lanes[lane]].status) {
          busy := true;
        } else {
          lanes := lanes - {lane};
        }
      }
      var operation := Fresh(req, !busy, now);
      records := records[id := operation];
      if operation.status.Active? {
        active := indexed + [id];
        if req.exclusive {
          assert lanes[lane := id] == old(lanes)[lane := id];
          lanes := lanes[lane := id];
        }
        return Started(operation);
      }
      queue := queue + [id];
      return Enqueued(operation);
    }

    method RecordInvocationTimeout(id: Id, invocation: Id, now: Time) returns (reply: Reply)
      modifies this
      ensures (State(), reply) == RecordTimeout(old(State()), id, invocation, now)
    {
      if id !in records {
        return Unknown;
      }
      var current := records[id];
      outcomes := WriteOutcome(outcomes, id, invocation, Outcome(OutcomeTimedOut, now, None));
      if !current.status.Active? || current.invocation != Some(invocation) {
        return Current(current);
      }
      var timedOut := InvocationTimedOut(current, now);
      records := records[id := timedOut];
      return Current(timedOut);
    }

    method RequestCancellation(id: Id, now: Time) returns (reply: Reply)
      modifies this
      ensures (State(), reply) == RequestCancel(old(State()), id, now)
    {
      if id !in records {
        return Unknown;
      }
      var current := records[id];
      if !current.status.Active? && !current.status.TimedOut? {
        return Current(current);
      }
      var requested := Cancelling(current, now);
      records := records[id := requested];
      return Current(requested);
    }

    /** The first queued candidate of `lane` in (creation time, identifier) order. */
    method NextQueued(remaining: seq<Id>, lane: Digest) returns (best: Option<Id>)
      ensures best == Earliest(State().(active := remaining), queue, lane)
    {
      best := None;
      ghost var s := State().(active := remaining);
      for i := 0 to |queue|
        invariant best == Earliest(s, queue[..i], lane)
      {
        var id := queue[i];
        assert queue[..i + 1][..i] == queue[..i];
        if id !in remaining && id in records && records[id].status.Queued? && records[id].request.schedule == lane {
          if best.None? || records[id].createdAt < records[best.value].createdAt
             || (records[id].createdAt == records[best.value].createdAt && id < best.value) {
            best := Some(id);
          }
        }
      }
      assert queue[..|queue|] == queue;
    }

    /** Free the lane of a stopped operation and promote into it; `remaining` is the index so far. */
    method Release(id: Id, remaining: seq<Id>, now: Time) returns (index: seq<Id>, promoted: Option<Id>)
      requires id in records
      modifies this`records, this`queue, this`lanes
      ensures State().(active := index) == ReleaseLane(old(State()).(active := remaining), id, now)
      ensures promoted.None? ==> index == remaining && records == old(records)
      ensures promoted.Some? ==> promoted.value in old(records) && promoted.value !in remaining
                                 && index == remaining + [promoted.value]
                                 && records == old(records)[promoted.value := Promoted(old(records)[promoted.value],
                                   now)]
    {
      index, promoted := remaining, None;
      if !records[id].request.exclusive {
        return;
      }
      var lane := records[id].request.schedule;
      if lane in lanes && lanes[lane] == id {
        lanes := lanes - {lane};
      }
      promoted := NextQueued(remaining, lane);
      if promoted.Some? {
        records := records[promoted.value := Promoted(records[promoted.value], now)];
        queue := Without(queue, promoted.value);
        index := remaining + [promoted.value];
        lanes := lanes[lane := promoted.value];
      }
    }

    method CompleteOperation(id: Id, invocation: Id, ok: bool, result: Option<Digest>, now: Time) returns (reply: Reply)
      modifies this
      ensures (State(), reply) == Complete(old(State()), id, invocation, ok, result, now)
    {
      if id !in records {
        return Unknown;
      }
      var current := records[id];
      if Terminal(current.status) {
        return Current(current);
      }
      if current.invocation != Some(invocation) || !Holds(current.status) {
        return Mismatch;
      }
      outcomes := WriteOutcome(outcomes, id, invocation,
        Outcome(if ok then OutcomeSucceeded else OutcomeFailed, now, result));
      var done := Finished(current, ok, now);
      records := records[id := done];
      var remaining := Without(Dedup(active), id);
      var promoted;
      remaining, promoted := Release(id, remaining, now);
      active := remaining;
      return Current(done);
    }

    /** The first loop of watchdog: time out, hand to reconciliation, or keep each indexed operation. */
    method SweepIndex(ids: seq<Id>, now: Time)
      returns (marked: seq<Id>, stopped: seq<Id>, remaining: seq<Id>, nextAlarm: Option<Time>)
      requires Distinct(ids)
      modifies this`records
      ensures records == SweptRecords(old(records), ids, now)
      ensures marked == Marked(old(records), ids, now)
      ensures remaining == Remaining(old(records), ids, now)
      ensures stopped == Terminalized(old(records), ids, now)
      ensures LeastDue(records, remaining, nextAlarm)
    {
      hide SweptRecords, LeastDue, Dedup;
      marked, stopped, remaining, nextAlarm := [], [], [], None;
      NothingSwept(records, ids, now);
      for i := 0 to |ids|
        invariant records == SweptRecords(old(records), ids[..i], now)
        invariant marked == Marked(old(records), ids[..i], now)
        invariant remaining == Remaining(old(records), ids[..i], now)
        invariant stopped == Terminalized(old(records), ids[..i], now)
        invariant LeastDue(records, remaining, nextAlarm)
      {
        var id := ids[i];
        assert ids[..i + 1] == ids[..i] + [id];
        assert id !in ids[..i];
        SweptSnoc(old(records), ids[..i], id, now);
        if id in records {
          var operation := records[id];
          if Holds(operation.status) {
            var swept := Swept(operation, now);
            if Holds(swept.status) {
              LeastDueGrows(records, remaining, nextAlarm, id, swept);
              if operation.status.Active? && now >= operation.request.deadlineAt {
                marked := marked + [id];
              }
              remaining := remaining + [id];
              nextAlarm := EarlierAlarm(nextAlarm, AlarmAt(swept));
            } else {
              LeastDueFrame(records, remaining, nextAlarm, id, swept);
              stopped := stopped + [id];
            }
            records := records[id := swept];
          } else {
            assert records[id := operation] == records;
          }
        }
      }
      assert ids[..|ids|] == ids;
    }

    /** The second loop of watchdog: release the lanes of the stopped operations in order. */
    method ReleaseStopped(stopped: seq<Id>, kept: seq<Id>, due: Option<Time>, now: Time)
      returns (remaining: seq<Id>, nextAlarm: Option<Time>)
      requires forall x :: x in stopped ==> x in records
      requires LeastDue(records, kept, due)
      modifies this`records, this`queue, this`lanes
      ensures State().(active := remaining) == ReleaseAll(old(State()).(active := kept), stopped, now)
      ensures LeastDue(records, remaining, nextAlarm)
    {
      remaining, nextAlarm := kept, due;
      for i := 0 to |stopped|
        invariant State().(active := remaining) == ReleaseAll(old(State()).(active := kept), stopped[..i], now)
        invariant forall x :: x in stopped ==> x in records
        invariant LeastDue(records, remaining, nextAlarm)
      {
        assert stopped[..i + 1][..i] == stopped[..i];
        ghost var before, was := records, remaining;
        var promoted;
        remaining, promoted := Release(stopped[i], remaining, now);
        if promoted.Some? {
          LeastDueGrows(before, was, nextAlarm, promoted.value, records[promoted.value]);
          nextAlarm := EarlierAlarm(nextAlarm, records[promoted.value].request.deadlineAt);
        }
      }
      assert stopped[..|stopped|] == stopped;
    }

    /** One tick. The returned alarm is absent exactly when nothing is left in the index, and
        otherwise the least due time left there, but never at or before `now`. */
    method RunWatchdog(now: Time) returns (marked: seq<Id>, terminalized: seq<Id>, nextAlarm: Option<Time>)
      modifies this
      ensures State() == Watchdog(old(State()), now)
      ensures marked == Marked(old(records), Dedup(old(active)), now)
      ensures terminalized == Terminalized(old(records), Dedup(old(active)), now)
      ensures exists least: Option<Time> ::
                && LeastDue(records, active, least)
                && nextAlarm == if least.None? then None else Some(if least.value > now then least.value else now + 1)
    {
      var remaining, least;
      marked, terminalized, remaining, least := SweepIndex(Dedup(active), now);
      remaining, least := ReleaseStopped(terminalized, remaining, least, now);
      active := remaining;
      nextAlarm := if least.None? then None else Some(if least.value > now then least.value else now + 1);
    }
  }
}
