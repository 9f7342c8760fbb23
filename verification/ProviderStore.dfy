/** DurableProviderOperationStore and the dispatch body that drives it, as methods that rewrite the
    stored maps, each proved against its step function. */
module ProviderStore {
  import opened Collections
  import opened ProviderModel
  import opened ProviderSafety
  import opened ProviderAttempts

  lemma ExpiredSnoc(records: map<Id, Record>, ids: seq<Id>, id: Id, now: Time)
    requires id in records && id !in ids
    ensures ExpiredRecords(records, ids, now)[id] == records[id]
    ensures ExpiredRecords(records, ids + [id], now)
            == ExpiredRecords(records, ids, now)[id := Expired(records[id], now)]
  {
  }

  /** What one more operation adds to the lists a tick reports. */
  lemma ListsSnoc(records: map<Id, Record>, ids: seq<Id>, id: Id, now: Time)
    ensures var known := id in records && !Terminal(records[id].status);
            var due := known && now >= records[id].request.deadlineAt;
            && Kept(records, ids + [id], now)
              == (if known && !due then Kept(records, ids, now) + [id] else Kept(records, ids, now))
            && ExpiredIds(records, ids + [id], now)
               == (if due && records[id].status.Prepared? then ExpiredIds(records, ids, now) + [id]
                 else ExpiredIds(records, ids, now))
            && ReconciledIds(records, ids + [id], now)
               == (if due && !records[id].status.Prepared?
                 && Timed(records[id].status)
                 then ReconciledIds(records, ids, now) + [id]
                   else ReconciledIds(records, ids, now))
  {
    assert (ids + [id])[..|ids|] == ids;
  }

  lemma LeastDeadlineSnoc(records: map<Id, Record>, ids: seq<Id>, id: Id)
    requires id in records
    ensures LeastDeadline(records, ids + [id])
            == EarlierAlarm(LeastDeadline(records, ids), records[id].request.deadlineAt)
  {
    assert (ids + [id])[..|ids|] == ids;
  }

  lemma NothingSwept(s: Store, ids: seq<Id>, now: Time)
    ensures ExpiredRecords(s.records, ids[..0], now) == s.records && OpenFences(s, ids[..0], now) == s.fences
    ensures Kept(s.records, ids[..0], now) == [] && ExpiredIds(s.records, ids[..0], now) == []
    ensures ReconciledIds(s.records, ids[..0], now) == [] && LeastDeadline(s.records, []) == None
  {
  }

  lemma FencesSnoc(s: Store, ids: seq<Id>, id: Id, now: Time)
    requires id in s.records && s.records[id].request.operationId == id
    ensures OpenFences(s, ids + [id], now)
         == if Due(s.records[id], now) && s.records[id].status.Prepared?
            then ReleaseFence(OpenFences(s, ids, now), s.records[id]) else OpenFences(s, ids, now)
  {
    assert forall x :: Fails(s.records, ids + [id], x, now) <==>
        Fails(s.records, ids, x, now) || (x == id && Due(s.records[id], now) && s.records[id].status.Prepared?);
  }

  /** The least deadline over `ids`, absent when there are none. */
  function LeastDeadline(records: map<Id, Record>, ids: seq<Id>): Option<Time> {
    if ids == [] then None
    else
      var rest := LeastDeadline(records, ids[..|ids| - 1]);
      var x := ids[|ids| - 1];
      if x in records then EarlierAlarm(rest, records[x].request.deadlineAt) else rest
  }

  /** `alarm` is the least deadline over `ids`, absent exactly when there are none. */
  ghost predicate IsLeast(records: map<Id, Record>, ids: seq<Id>, alarm: Option<Time>) {
    && (alarm.None? <==> ids == [])
    && (forall x :: x in ids ==> x in records && alarm.Some? && alarm.value <= records[x].request.deadlineAt)
    && (alarm.Some? ==> exists x :: x in ids && x in records && records[x].request.deadlineAt == alarm.value)
  }

  lemma {:induction false} LeastDeadlineIsLeast(records: map<Id, Record>, ids: seq<Id>)
    requires forall x :: x in ids ==> x in records
    ensures IsLeast(records, ids, LeastDeadline(records, ids))
  {
    if ids != [] {
      var front, last := ids[..|ids| - 1], ids[|ids| - 1];
      LeastDeadlineIsLeast(records, front);
      assert forall x :: x in ids <==> x in front || x == last;
      if LeastDeadline(records, ids) == LeastDeadline(records, front) && front != [] {
        var x :| x in front && records[x].request.deadlineAt == LeastDeadline(records, front).value;
        assert x in ids;
      } else {
        assert last in ids;
      }
    }
  }

  /** A tick keeps requests, so what is least before it is least after it. */
  lemma TickKeepsLeast(records: map<Id, Record>, ids: seq<Id>, kept: seq<Id>, now: Time, alarm: Option<Time>)
    requires IsLeast(records, kept, alarm)
    ensures IsLeast(ExpiredRecords(records, ids, now), kept, alarm)
  {
    var t := ExpiredRecords(records, ids, now);
    assert forall x :: x in records ==> t[x].request == records[x].request;
    if alarm.Some? {
      var x :| x in kept && x in records && records[x].request.deadlineAt == alarm.value;
      assert t[x].request.deadlineAt == alarm.value;
    }
  }

  /** The operations a tick reports as failed before dispatch. */
  function ExpiredIds(records: map<Id, Record>, ids: seq<Id>, now: Time): seq<Id> {
    if ids == [] then []
    else
      var rest := ExpiredIds(records, ids[..|ids| - 1], now);
      var x := ids[|ids| - 1];
      if x in records && Due(records[x], now) && records[x].status.Prepared? then rest + [x] else rest
  }

  /** The operations a tick reports as handed to reconciliation. */
  function ReconciledIds(records: map<Id, Record>, ids: seq<Id>, now: Time): seq<Id> {
    if ids == [] then []
    else
      var rest := ReconciledIds(records, ids[..|ids| - 1], now);
      var x := ids[|ids| - 1];
      if x in records && Due(records[x], now) && !records[x].status.Prepared?
        && Timed(records[x].status)
        then rest + [x] else rest
  }

  /** Everything outside the store that a dispatch body meets on its way to the target. */
  datatype Preparation = Usable | WrongBinding | PrepareFailed
  datatype TargetResult = Applied(oid: Token) | TargetAmbiguous | MisboundResult | TargetThrew(invoked: bool)

  function AmbiguousResponse(code: Token): Response {
    Response(Ambiguous, None, CheckUnknown, CheckUnknown, Some(code))
  }

  const ENVELOPE_BINDING_MISMATCH: Token := 1
  const PREPARE_UNAVAILABLE: Token := 2
  const DISPATCH_UNAVAILABLE: Token := 3
  const RESPONSE_BINDING_MISMATCH: Token := 4
  const RESPONSE_AMBIGUOUS: Token := 5

  /** What a claimed dispatch reports: committed only when the target applied the write. */
  function DispatchResponse(preparation: Preparation, target: TargetResult): (r: Response)
    ensures r.status.Committed? <==> preparation.Usable? && target.Applied?
    ensures r.status.Committed? ==> r.oid == Some(target.oid)
    ensures !r.status.Committed? ==> r.status.Ambiguous? && r.oid.None?
  {
    if preparation != Usable then
      AmbiguousResponse(if preparation.WrongBinding? then ENVELOPE_BINDING_MISMATCH else PREPARE_UNAVAILABLE)
    else match target
      case Applied(oid) => Response(Committed, Some(oid), CheckUnknown, CheckUnknown, None)
      case TargetAmbiguous => AmbiguousResponse(RESPONSE_AMBIGUOUS)
      case MisboundResult => AmbiguousResponse(RESPONSE_BINDING_MISMATCH)
      case TargetThrew(_) => AmbiguousResponse(DISPATCH_UNAVAILABLE)
  }

  /** A start that can lead to a claim leaves the operation stored and every outcome alone. */
  lemma StartedIsStored(s: Store, req: Request, now: Time)
    ensures var (t, reply) := Start(s, req, now);
            && t.outcomes == s.outcomes
            && (reply.IsPrepared? || reply.IsExisting? ==> req.operationId in t.records)
  {
  }

  lemma ClaimIsStored(s: Store, id: Id, invocation: Id, now: Time)
    ensures var (t, reply) := Claim(s, id, invocation, now);
            && t.outcomes == s.outcomes && (id in s.records ==> id in t.records)
            && (reply.Claimed? ==> id in t.records && RunsUnder(t.records[id], invocation))
  {
  }

  predicate RunsUnder(rec: Record, invocation: Id) {
    rec.invocation == Some(invocation) && rec.status.Dispatching?
  }

  /** The outcome of an invocation that was just claimed is recorded, unless that invocation already
      has another one. */
  lemma ClaimedIsRecorded(s: Store, id: Id, invocation: Id, r: Response, now: Time)
    requires id in s.records && RunsUnder(s.records[id], invocation) && ValidResponse(r)
    ensures var (t, reply) := RecordOutcome(s, id, invocation, r, now);
            && id in t.records
            && if (id, invocation) in s.outcomes && s.outcomes[(id, invocation)] != r then reply == OutcomeConflict
               else reply == Current(t.records[id])
  {
  }

  class OperationStore {
    var records: map<Id, Record>
    var fences: map<Token, Fence>
    var active: seq<Id>
    var consumed: map<Token, Consumption>
    var outcomes: map<(Id, Id), Response>
    var lastSuccess: map<(Token, Token, Token), LastSuccess>

    ghost function State(): Store
      reads this
    {
      Store(records, fences, active, consumed, outcomes, lastSuccess)
    }

    constructor ()
      ensures State() == EMPTY
    {
      records, fences, active, consumed, outcomes, lastSuccess := map[], map[], [], map[], map[], map[];
    }

    method StartOperation(req: Request, now: Time) returns (reply: StartReply)
      modifies this
      ensures (State(), reply) == Start(old(State()), req, now)
    {
      if !ValidStart(req, now) {
        return IsInvalid;
      }
      var id := req.operationId;
      if id in records {
        var existing := records[id];
        if existing.request != req {
          return IsConflict;
        }
        if !Terminal(existing.status) {
          active := AddActive(active, id);
        }
        return IsExisting(existing);
      }
      if req.target in fences {
        var owner := fences[req.target].operationId;
        if owner in records && !Terminal(records[owner].status) {
          active := AddActive(active, owner);
          return IsFenced(records[owner]);
        }
        fences := fences - {req.target};
      }
      var operation := Fresh(req, now);
      records := records[id := operation];
      assert fences[req.target := Fence(id, req.targetDigest)]
        == old(fences)[req.target := Fence(id, req.targetDigest)];
      fences := fences[req.target := Fence(id, req.targetDigest)];
      active := AddActive(active, id);
      return IsPrepared(operation);
    }

    /** Put a record, then release or refresh its fence and index entry. */
    method Put(id: Id, rec: Record)
      modifies this`records, this`fences, this`active
      ensures State() == Settle(old(State()), id, rec)
    {
      records := records[id := rec];
      if Terminal(rec.status) {
        fences := ReleaseFence(fences, rec);
        active := Without(active, id);
      } else {
        active := AddActive(active, id);
      }
    }

    method ClaimOperation(id: Id, invocation: Id, now: Time) returns (reply: ClaimReply)
      modifies this
      ensures (State(), reply) == Claim(old(State()), id, invocation, now)
    {
      if id !in records {
        return ClaimUnknown;
      }
      var current := records[id];
      if !current.status.Prepared? {
        return NotClaimed;
      }
      if current.request.capability.Blocked? {
        Put(id, ClaimFailure(current, CapabilityBlocked, now));
        return NotClaimed;
      }
      if now >= current.request.deadlineAt {
        Put(id, ClaimFailure(current, DeadlinePassed, now));
        return NotClaimed;
      }
      var dispatching := Dispatched(current, invocation, now);
      records := records[id := dispatching];
      return Claimed(dispatching, invocation);
    }

    method RecordDispatchOutcome(id: Id, invocation: Id, response: Response, now: Time) returns (reply: Reply)
      modifies this
      ensures (State(), reply) == RecordOutcome(old(State()), id, invocation, response, now)
    {
      if !ValidResponse(response) {
        return Refused;
      }
      if id !in records {
        return UnknownOperation;
      }
      var current := records[id];
      if (id, invocation) in outcomes {
        if outcomes[(id, invocation)] != response {
          return OutcomeConflict;
        }
        return Current(current);
      }
      if current.invocation != Some(invocation) || !(current.status.Dispatching? || current.status.CancelRequested?) {
        return Refused;
      }
      outcomes := outcomes[(id, invocation) := response];
      var finished := WithOutcome(current, response, now);
      Put(id, finished);
      return Current(finished);
    }

    method ApplyControlDecision(d: Decision, trusted: bool, now: Time) returns (reply: Reply)
      modifies this
      ensures (State(), reply) == ApplyDecision(old(State()), d, trusted, now)
    {
      if !trusted || !DecisionTimely(d, now) || d.operationId !in records {
        return Refused;
      }
      var operation := records[d.operationId];
      if !Bound(d, operation) || d.nonce in consumed {
        return Refused;
      }
      var next := Decide(operation, d, now);
      if next.None? {
        return Refused;
      }
      consumed := consumed[d.nonce := Consumption(d.operationId, d.action, now)];
      if next.value.status != operation.status || next.value.updatedAt != operation.updatedAt {
        Put(d.operationId, next.value);
      }
      return Current(next.value);
    }

    method VerifyOperation(id: Id, v: Verification, now: Time) returns (reply: Reply)
      modifies this
      ensures (State(), reply) == Verify(old(State()), id, v, now)
    {
      if id !in records {
        return UnknownOperation;
      }
      var current := records[id];
      if Terminal(current.status) {
        return Current(current);
      }
      if !(current.status.AwaitingVerification? || current.status.CancelRequested?) {
        return Refused;
      }
      if current.observed.Some? && current.observed.value != v.oid {
        return Refused;
      }
      var finished := Verified(current, v, now);
      if finished.status.Succeeded? {
        var key := (current.request.target, current.request.targetDigest, current.request.fingerprint);
        lastSuccess := lastSuccess[key := LastSuccess(id, current.request.generation, current.request.sourceDigest,
          v.oid, now)];
      }
      Put(id, finished);
      return Current(finished);
    }

    /** One iteration of the watchdog loop: expire or reconcile one watched operation in place.
        The ghost arguments are the store at the start of the loop and the operations done so far. */
    method SweepOne(id: Id, now: Time, ghost s: Store, ghost done: seq<Id>)
      requires id !in done
      requires forall x :: x in s.records ==> s.records[x].request.operationId == x
      requires records == ExpiredRecords(s.records, done, now) && fences == OpenFences(s, done, now)
      modifies this`records, this`fences
      ensures records == ExpiredRecords(s.records, done + [id], now) && fences == OpenFences(s, done + [id], now)
    {
      if id in records {
        var operation := records[id];
        ExpiredSnoc(s.records, done, id, now);
        FencesSnoc(s, done, id, now);
        if Due(operation, now) && operation.status.Prepared? {
          fences := ReleaseFence(fences, operation);
        }
        records := records[id := Expired(operation, now)];
      } else {
        assert ExpiredRecords(s.records, done + [id], now) == records;
        assert OpenFences(s, done + [id], now) == fences;
      }
    }

    /** The watchdog loop. */
    method Sweep(ids: seq<Id>, now: Time)
      returns (expired: seq<Id>, reconciled: seq<Id>, remaining: seq<Id>, nextAlarm: Option<Time>)
      requires Distinct(ids)
      requires forall id :: id in records ==> records[id].request.operationId == id
      modifies this`records, this`fences
      ensures records == ExpiredRecords(old(records), ids, now)
      ensures fences == OpenFences(old(State()), ids, now)
      ensures remaining == Kept(old(records), ids, now)
      ensures expired == ExpiredIds(old(records), ids, now)
      ensures reconciled == ReconciledIds(old(records), ids, now)
      ensures nextAlarm == LeastDeadline(old(records), remaining)
    {
      hide ExpiredRecords, OpenFences, Fails, Expired, Kept, ExpiredIds, ReconciledIds, LeastDeadline;
      ghost var s := State();
      expired, reconciled, remaining, nextAlarm := [], [], [], None;
      NothingSwept(s, ids, now);
      for i := 0 to |ids|
        invariant records == ExpiredRecords(s.records, ids[..i], now)
        invariant fences == OpenFences(s, ids[..i], now)
        invariant remaining == Kept(s.records, ids[..i], now)
        invariant expired == ExpiredIds(s.records, ids[..i], now)
        invariant reconciled == ReconciledIds(s.records, ids[..i], now)
        invariant nextAlarm == LeastDeadline(s.records, remaining)
      {
        var id := ids[i];
        assert ids[..i + 1] == ids[..i] + [id];
        assert id !in ids[..i];
        ListsSnoc(s.records, ids[..i], id, now);
        if id in records {
          ExpiredSnoc(s.records, ids[..i], id, now);
          assert records[id] == s.records[id];
        }
        if id in records && !Terminal(records[id].status) {
          var operation := records[id];
          if now < operation.request.deadlineAt {
            LeastDeadlineSnoc(s.records, remaining, id);
            remaining := remaining + [id];
            nextAlarm := EarlierAlarm(nextAlarm, operation.request.deadlineAt);
          } else if operation.status.Prepared? {
            expired := expired + [id];
          } else if Timed(operation.status) {
            reconciled := reconciled + [id];
          }
        }
        SweepOne(id, now, s, ids[..i]);
      }
      assert ids[..|ids|] == ids;
    }

    method RunWatchdog(discovered: seq<Id>, listed: seq<Id>, now: Time)
      returns (expired: seq<Id>, reconciled: seq<Id>, nextAlarm: Option<Time>)
      requires forall id :: id in records ==> records[id].request.operationId == id
      modifies this
      ensures State() == Watchdog(old(State()), discovered, listed, now)
      ensures expired == ExpiredIds(old(records), Watched(old(State()), discovered, listed), now)
      ensures reconciled == ReconciledIds(old(records), Watched(old(State()), discovered, listed), now)
      ensures exists least: Option<Time> ::
                && IsLeast(records, active, least)
                && nextAlarm == if least.None? then None else Some(if least.value > now then least.value else now + 1)
    {
      hide IsLeast, LeastDeadline, ExpiredRecords, OpenFences;
      ghost var was := records;
      ghost var ids := Dedup(discovered + active + listed);
      var remaining, least;
      expired, reconciled, remaining, least := Sweep(Dedup(discovered + active + listed), now);
      active := remaining;
      LeastDeadlineIsLeast(was, remaining);
      TickKeepsLeast(was, ids, remaining, now, least);
      nextAlarm := match least
        case None => None
        case Some(t) => Some(if t > now then t else now + 1);
    }

    /** The write under a claim: nothing is sent without a usable preparation. */
    method WriteTarget(preparation: Preparation, target: TargetResult) returns (wrote: bool, response: Response)
      ensures wrote <==> preparation.Usable? && (target.TargetThrew? ==> target.invoked)
      ensures response == DispatchResponse(preparation, target) && ValidResponse(response)
    {
      wrote := false;
      if preparation != Usable {
        response := AmbiguousResponse(if preparation.WrongBinding? then ENVELOPE_BINDING_MISMATCH
          else PREPARE_UNAVAILABLE);
      } else {
        wrote := !target.TargetThrew? || target.invoked;
        response := match target
          case Applied(oid) => Response(Committed, Some(oid), CheckUnknown, CheckUnknown, None)
          case TargetAmbiguous => AmbiguousResponse(RESPONSE_AMBIGUOUS)
          case MisboundResult => AmbiguousResponse(RESPONSE_BINDING_MISMATCH)
          case TargetThrew(_) => AmbiguousResponse(DISPATCH_UNAVAILABLE);
      }
    }

    /** executeProviderDispatchBody after its request checks: start, claim, prepare, write, record.
        `commands` are the transactions it issued; the target is written only under a claim made
        by this very body. */
    method DispatchBody(req: Request, invocation: Id, preparation: Preparation, target: TargetResult, now: Time)
      returns (wrote: bool, status: Option<Status>, ghost commands: seq<Command>)
      modifies this
      ensures State() == Run(old(State()), commands)
      ensures |commands| <= 3
      ensures wrote ==> |commands| == 3 && Claims(Run(old(State()), commands[..1]), commands[1], req.operationId)
      ensures wrote <==> |commands| == 3 && preparation.Usable? && (target.TargetThrew? ==> target.invoked)
      ensures |commands| == 3 ==>
              commands[2] == DoOutcome(req.operationId, invocation, DispatchResponse(preparation, target), now)
      ensures commands != [] && commands[0] == DoStart(req, now)
      ensures var reply := Start(old(State()), req, now).1;
              && (|commands| >= 2 <==> reply.IsPrepared? || (reply.IsExisting? && reply.op.status == Prepared))
              && (|commands| == 1 ==> status == if reply.IsFenced? || reply.IsExisting? then Some(reply.op.status)
                                                else None)
      ensures |commands| >= 2 ==>
              && commands[1] == DoClaim(req.operationId, invocation, now)
              && (|commands| == 3 <==> Claims(Run(old(State()), commands[..1]), commands[1], req.operationId))
      ensures |commands| >= 2 ==>
              var id := req.operationId;
              var was := old(State()).outcomes;
              && id in State().records
              && if |commands| == 3 && (id, invocation) in was
                    && was[(id, invocation)] != DispatchResponse(preparation, target)
                 then status == None else status == Some(State().records[id].status)
    {
      hide Start, Claim, RecordOutcome, DispatchResponse, ValidResponse;
      wrote, status := false, None;
      ghost var s0 := State();
      commands := [DoStart(req, now)];
      var started := StartOperation(req, now);
      StartedIsStored(s0, req, now);
      assert commands[..0] == [] && Run(s0, commands) == Step(Run(s0, []), commands[0]);
      if started.IsInvalid? || started.IsConflict? {
        return;
      }
      if started.IsFenced? || (started.IsExisting? && !started.op.status.Prepared?) {
        status := Some(started.op.status);
        return;
      }

      ghost var first := commands;
      ghost var s1 := State();
      var claimed := ClaimOperation(req.operationId, invocation, now);
      ClaimIsStored(s1, req.operationId, invocation, now);
      commands := first + [DoClaim(req.operationId, invocation, now)];
      assert commands[..1] == first;
      if !claimed.Claimed? {
        status := if req.operationId in records then Some(records[req.operationId].status) else None;
        return;
      }

      ghost var second := commands;
      ghost var s2 := State();
      assert s2 == Run(s0, second);
      assert Claims(s1, second[1], req.operationId);
      var response;
      wrote, response := WriteTarget(preparation, target);
      ClaimedIsRecorded(s2, req.operationId, invocation, response, now);
      var recorded := RecordDispatchOutcome(req.operationId, invocation, response, now);
      commands := second + [DoOutcome(req.operationId, invocation, response, now)];
      assert commands[..2] == second && commands[..1] == first;
      status := if recorded.Current? then Some(recorded.op.status) else None;
    }
  }
}
