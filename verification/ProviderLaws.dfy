/** What every provider call answers and writes, stated field by field for the caller and proved of
    the step functions: admission, claim, outcome, decision, verification and tick. */
module ProviderLaws {
  import opened Collections
  import opened ProviderModel
  import opened ProviderSafety
  import ProviderStore

  predicate Over(status: Status) {
    status == Succeeded || status == Failed || status == Cancelled || status == Superseded
  }

  /** Operation `id` now shows `next`: an operation that is over gives up its target's fence and its
      index entry, any other is indexed, and nothing else of records, fences and index changes. */
  ghost predicate Shows(s: Store, t: Store, id: Id, next: Record) {
    && t.records == s.records[id := next]
    && t.fences == (if Over(next.status) then s.fences - {next.request.target} else s.fences)
    && forall x :: x in t.active <==> if x == id then !Over(next.status) else x in s.active
  }

  lemma SettleShows(s: Store, id: Id, next: Record)
    requires Fenced(s) && id in s.records && !Terminal(s.records[id].status)
    requires next.request.target == s.records[id].request.target && next.request.operationId == id
    ensures Shows(s, Settle(s, id, next), id, next)
    ensures var t := Settle(s, id, next);
            t.consumed == s.consumed && t.outcomes == s.outcomes && t.lastSuccess == s.lastSuccess
  {
    hide Without;
    FenceIsOwn(s, id);
  }

  // ---------------------------------------------------------------- start

  /** An unresolved operation of this target. */
  ghost predicate Occupied(s: Store, target: Token, owner: Id) {
    owner in s.records && !Over(s.records[owner].status) && s.records[owner].request.target == target
  }

  /** The request a record was started with agrees with this one in every field. */
  predicate AgreesFieldByField(a: Request, b: Request) {
    && a.operationId == b.operationId && a.generation == b.generation && a.fingerprint == b.fingerprint
    && a.sourceDigest == b.sourceDigest && a.target == b.target && a.targetDigest == b.targetDigest
    && a.oldGeneration == b.oldGeneration && a.currentGeneration == b.currentGeneration
    && a.intendedGeneration == b.intendedGeneration && a.kmsEnvelope == b.kmsEnvelope
    && a.operator == b.operator && a.capability == b.capability && a.deadlineAt == b.deadlineAt
  }

  /** A known operation is shown exactly when every start field agrees, and conflicts otherwise; a
      new one is fenced by the unresolved operation of its target, and prepared when there is none. */
  lemma StartLaw(s: Store, req: Request, now: Time)
    requires Inv(s)
    ensures var (t, reply) := Start(s, req, now);
            var id := req.operationId;
            if req.deadlineAt <= now || req.deadlineAt > now + 900_000 then t == s && reply == IsInvalid
            else if id in s.records then
              var rec := s.records[id];
              if AgreesFieldByField(rec.request, req) then
                && reply == IsExisting(rec)
                && t == s.(active := if Over(rec.status) || id in s.active then s.active else s.active + [id])
              else t == s && reply == IsConflict
            else if exists owner :: Occupied(s, req.target, owner) then
              && reply.IsFenced?
              && exists owner ::
                 && Occupied(s, req.target, owner) && reply == IsFenced(s.records[owner])
                 && t == s.(active := if owner in s.active then s.active else s.active + [owner])
            else
              var rec := Record(req, Prepared, now, now, None, None, 0, None, CheckUnknown, CheckUnknown, None);
              && reply == IsPrepared(rec)
              && t == s.(records := s.records[id := rec], fences := s.fences[req.target := Fence(id, req.targetDigest)],
                         active := s.active + [id])
  {
    hide Sound;
    var id := req.operationId;
    if id in s.records {
      assert AgreesFieldByField(s.records[id].request, req) <==> s.records[id].request == req;
    } else if req.target in s.fences {
      assert Occupied(s, req.target, s.fences[req.target].operationId);
    } else {
      assert id !in s.active;
    }
  }

  // ---------------------------------------------------------------- claim

  /** A claim is granted to a prepared, unblocked operation before its deadline, and to no other. */
  lemma ClaimLaw(s: Store, id: Id, invocation: Id, now: Time)
    requires Inv(s)
    ensures var (t, reply) := Claim(s, id, invocation, now);
            && t.consumed == s.consumed && t.outcomes == s.outcomes && t.lastSuccess == s.lastSuccess
            && if id !in s.records then t == s && reply == ClaimUnknown
               else
                 var rec := s.records[id];
                 if rec.status != Prepared then t == s && reply == NotClaimed
                 else if rec.request.capability == Blocked || now >= rec.request.deadlineAt then
                   var code := if rec.request.capability == Blocked then CapabilityBlocked else DeadlinePassed;
                   && reply == NotClaimed
                   && Shows(s, t, id, Record(
                        rec.request, Failed, rec.createdAt, now, Some(now), rec.invocation, rec.attempt, rec.observed,
                        rec.canary, rec.postconditions, Some(code)))
                 else
                   var next := Record(
                     rec.request, Dispatching, rec.createdAt, now, rec.completedAt, Some(invocation), rec.attempt + 1,
                     rec.observed, rec.canary, rec.postconditions, rec.failure);
                   reply == Claimed(next, invocation) && Shows(s, t, id, next)
  {
    hide Settle, Sound;
    if id in s.records && s.records[id].status.Prepared? {
      var rec := s.records[id];
      SettleShows(s, id, ClaimFailure(rec, CapabilityBlocked, now));
      SettleShows(s, id, ClaimFailure(rec, DeadlinePassed, now));
    }
  }

  // -------------------------------------------------------------- outcome

  /** An outcome counts once per invocation and only under the running one; a rejection ends the
      operation, a commit in time awaits verification, anything else needs reconciliation. */
  lemma OutcomeLaw(s: Store, id: Id, invocation: Id, r: Response, now: Time)
    requires Inv(s)
    ensures var (t, reply) := RecordOutcome(s, id, invocation, r, now);
            && t.consumed == s.consumed && t.lastSuccess == s.lastSuccess
            && if (r.status == Committed && r.oid == None) || (r.status == Rejected && r.error == None)
                  || (r.status != Committed && (r.canary != CheckUnknown || r.postconditions != CheckUnknown))
               then t == s && reply == Refused
               else if id !in s.records then t == s && reply == UnknownOperation
               else if (id, invocation) in s.outcomes then
                 t == s && reply == if s.outcomes[(id, invocation)] == r then Current(s.records[id])
                   else OutcomeConflict
               else
                 var rec := s.records[id];
                 if rec.invocation != Some(invocation) || (rec.status != Dispatching && rec.status != CancelRequested)
                 then t == s && reply == Refused
                 else
                   var late := now >= rec.request.deadlineAt;
                   var status :=
                     if r.status == Rejected then (if rec.status == Dispatching then Failed else Cancelled)
                     else if rec.status == CancelRequested then CancelNeedsReconciliation
                     else if r.status == Committed && !late then AwaitingVerification else NeedsReconciliation;
                   var next := Record(
                     rec.request, status, rec.createdAt, now, if r.status == Rejected then Some(now) else None, None,
                     rec.attempt, if r.oid == None then rec.observed else r.oid, r.canary, r.postconditions,
                     if late && r.status != Rejected then Some(DeadlinePassed)
                     else if r.error == None then None else Some(Reported(r.error.value)));
                   && reply == Current(next) && Shows(s, t, id, next)
                   && t.outcomes == s.outcomes[(id, invocation) := r]
  {
    hide Settle, Sound;
    if id in s.records && (s.records[id].status.Dispatching? || s.records[id].status.CancelRequested?) {
      SettleShows(s.(outcomes := s.outcomes[(id, invocation) := r]), id, WithOutcome(s.records[id], r, now));
    }
  }

  // ------------------------------------------------------------- decision

  /** The decision names this very operation, its generation, source, target and observed state. */
  predicate Names(d: Decision, rec: Record) {
    && d.operationId == rec.request.operationId && d.generation == rec.request.generation
    && d.fingerprint == rec.request.fingerprint && d.sourceDigest == rec.request.sourceDigest
    && d.targetDigest == rec.request.targetDigest && d.issuer == rec.request.operator
    && (d.currentOid == rec.observed || (d.action == ConfirmApplied && rec.observed == None && d.currentOid != None))
  }

  /** What the operation's capability and status let the action do. */
  predicate Permits(d: Decision, rec: Record) {
    var c := rec.request.capability;
    && (if c != OwnerRiskGate then d.approvalNonce == None else d.action == Cancel || d.approvalNonce == Some(d.nonce))
    && match d.action
       case Cancel => !Over(rec.status)
       case ReplayOnce => rec.status == NeedsReconciliation && (c == EnforcedExclusive || c == OwnerRiskGate)
       case ConfirmApplied =>
         rec.status == NeedsReconciliation && (c == NativeCas || c == OwnerRiskGate) && d.currentOid != None
       case ConfirmNotApplied =>
         && (rec.status == NeedsReconciliation || rec.status == CancelNeedsReconciliation)
         && (c == NativeCas || c == OwnerRiskGate)
       case Supersede => rec.status == NeedsReconciliation || rec.status == CancelNeedsReconciliation
  }

  /** What a permitted decision makes of the record. */
  function Decided(d: Decision, rec: Record, now: Time): Record {
    match d.action
    case Cancel =>
      var status :=
        if rec.status == Prepared then Cancelled
        else if rec.status == Dispatching || rec.status == AwaitingVerification then CancelRequested
        else if rec.status == NeedsReconciliation then CancelNeedsReconciliation else rec.status;
      Record(rec.request, status, rec.createdAt, now, if rec.status == Prepared then Some(now) else rec.completedAt,
             rec.invocation, rec.attempt, rec.observed, rec.canary, rec.postconditions,
             if rec.status == Prepared then Some(CancelledByControl) else rec.failure)
    case ReplayOnce =>
      Record(rec.request, Prepared, rec.createdAt, now, None, None, rec.attempt, rec.observed, rec.canary,
             rec.postconditions, None)
    case ConfirmApplied =>
      Record(rec.request, AwaitingVerification, rec.createdAt, now, rec.completedAt, None, rec.attempt, d.currentOid,
             rec.canary, rec.postconditions, rec.failure)
    case ConfirmNotApplied =>
      var gone := rec.status == CancelNeedsReconciliation;
      Record(rec.request, if gone then Cancelled else Failed, rec.createdAt, now, Some(now), None, rec.attempt,
             rec.observed, rec.canary, rec.postconditions, Some(if gone then CancelledByControl else NotApplied))
    case Supersede =>
      Record(rec.request, Superseded, rec.createdAt, now, Some(now), None, rec.attempt, rec.observed, rec.canary,
             rec.postconditions, Some(SupersededByControl))
  }

  lemma DecideAsPermitted(rec: Record, d: Decision, now: Time)
    requires Names(d, rec)
    ensures Decide(rec, d, now) == if Permits(d, rec) then Some(Decided(d, rec, now)) else None
  {
  }

  /** A decision is applied exactly when it is trusted, fresh within a quarter of an hour either way,
      names the operation as it stands, has an unused nonce and is permitted. */
  lemma DecisionLaw(s: Store, d: Decision, trusted: bool, now: Time)
    requires Inv(s)
    ensures var (t, reply) := ApplyDecision(s, d, trusted, now);
            var id := d.operationId;
            if && trusted && d.issuedAt <= now < d.expiresAt && now - d.issuedAt <= 900_000
              && d.expiresAt - now <= 900_000
               && id in s.records && Names(d, s.records[id]) && d.nonce !in s.consumed && Permits(d, s.records[id])
            then
              var next := Decided(d, s.records[id], now);
              && reply == Current(next) && t.records == s.records[id := next]
              && t.fences == (if Over(next.status) then s.fences - {next.request.target} else s.fences)
              && t.consumed == s.consumed[d.nonce := Consumption(id, d.action, now)]
              && t.outcomes == s.outcomes && t.lastSuccess == s.lastSuccess
              && (forall x :: x != id ==> (x in t.active <==> x in s.active))
              && (Over(next.status) ==> id !in t.active)
            else t == s && reply == Refused
  {
    hide Settle, Sound, Decide, Decided, Permits;
    var id := d.operationId;
    if id in s.records && Names(d, s.records[id]) {
      DecideAsPermitted(s.records[id], d, now);
      if Permits(d, s.records[id]) {
        DecidedKeepsTarget(d, s.records[id], now);
        var s1 := s.(consumed := s.consumed[d.nonce := Consumption(id, d.action, now)]);
        SettleShows(s1, id, Decided(d, s.records[id], now));
      }
    }
  }

  lemma DecidedKeepsTarget(d: Decision, rec: Record, now: Time)
    requires Permits(d, rec)
    ensures Decided(d, rec, now).request == rec.request && !Terminal(rec.status)
            && Decided(d, rec, now).updatedAt == now
    ensures Decided(d, rec, now).status == rec.status ==> Decided(d, rec, now) == rec.(updatedAt := now)
    ensures Over(Decided(d, rec, now).status) ==> Decided(d, rec, now).status != rec.status
  {
  }

  // --------------------------------------------------------- verification

  /** A verification is taken of an operation that awaits it or is being cancelled, if it saw the
      state the operation observed; success needs time left, no cancel and both checks passed. */
  lemma VerificationLaw(s: Store, id: Id, v: Verification, now: Time)
    requires Inv(s)
    ensures var (t, reply) := Verify(s, id, v, now);
            && t.consumed == s.consumed && t.outcomes == s.outcomes
            && if id !in s.records then t == s && reply == UnknownOperation
               else
                 var rec := s.records[id];
                 if Over(rec.status) then t == s && reply == Current(rec)
                 else if rec.status != AwaitingVerification && rec.status != CancelRequested then t == s
                   && reply == Refused
                 else if rec.observed != None && rec.observed != Some(v.oid) then t == s && reply == Refused
                 else
                   var late, cancel := now >= rec.request.deadlineAt, rec.status == CancelRequested;
                   var won := !late && !cancel && v.canaryPassed && v.postconditionsPassed;
                   var q := rec.request;
                   var next := Record(
                     if won then q.(currentGeneration := Some(q.intendedGeneration)) else q,
                     if won then Succeeded else if cancel then CancelNeedsReconciliation else NeedsReconciliation,
                     rec.createdAt, now, if won then Some(now) else None, None, rec.attempt, Some(v.oid),
                     if v.canaryPassed then CheckPassed else CheckFailed,
                     if v.postconditionsPassed then CheckPassed else CheckFailed,
                     if late then Some(DeadlinePassed) else if cancel then Some(CancelRequiresReconciliation)
                     else if won then rec.failure else Some(VerificationFailed));
                   && reply == Current(next) && Shows(s, t, id, next)
                   && t.lastSuccess == (if won then s.lastSuccess[(q.target, q.targetDigest, q.fingerprint) :=
                        LastSuccess(id, q.generation, q.sourceDigest, v.oid, now)] else s.lastSuccess)
  {
    hide Settle, Sound;
    if id in s.records && (s.records[id].status.AwaitingVerification? || s.records[id].status.CancelRequested?) {
      var rec := s.records[id];
      var next := Verified(rec, v, now);
      var key := (rec.request.target, rec.request.targetDigest, rec.request.fingerprint);
      var entry := LastSuccess(id, rec.request.generation, rec.request.sourceDigest, v.oid, now);
      SettleShows(s, id, next);
      SettleShows(s.(lastSuccess := s.lastSuccess[key := entry]), id, next);
    }
  }

  // ----------------------------------------------------------------- tick

  /** What a tick makes of one record. */
  function Overdue(rec: Record, now: Time): Record {
    if now < rec.request.deadlineAt then rec
    else if rec.status == Prepared then
      Record(rec.request, Failed, rec.createdAt, now, Some(now), None, rec.attempt, rec.observed, rec.canary,
             rec.postconditions, Some(DeadlinePassed))
    else if rec.status == Dispatching || rec.status == AwaitingVerification || rec.status == CancelRequested then
      Record(rec.request, if rec.status == CancelRequested then CancelNeedsReconciliation else NeedsReconciliation,
             rec.createdAt, now, None, None, rec.attempt, rec.observed, rec.canary, rec.postconditions,
             if rec.failure == None then Some(WatchdogDeadline) else rec.failure)
    else rec
  }

  /** A tick fails overdue operations that were never dispatched, opening their fences, hands every
      other overdue live one to reconciliation, keeps in the index only operations with time left, and
      reports both kinds. */
  lemma TickLaw(s: Store, discovered: seq<Id>, listed: seq<Id>, now: Time, x: Id)
    requires Inv(s)
    ensures var t := Watchdog(s, discovered, listed, now); var ids := Watched(s, discovered, listed);
            && t.consumed == s.consumed && t.outcomes == s.outcomes && t.lastSuccess == s.lastSuccess
            && (x in t.records <==> x in s.records)
            && (x in s.records ==> t.records[x] == Overdue(s.records[x], now))
            && (x in t.active ==> x in s.records && !Over(s.records[x].status) && now < s.records[x].request.deadlineAt)
            && (x in s.active && now < s.records[x].request.deadlineAt ==> x in t.active)
            && (x in ProviderStore.ExpiredIds(s.records, ids, now) <==>
                x in s.records && s.records[x].status == Prepared && now >= s.records[x].request.deadlineAt)
            && (x in ProviderStore.ReconciledIds(s.records, ids, now) <==>
                && x in s.records && now >= s.records[x].request.deadlineAt
                && (s.records[x].status == Dispatching || s.records[x].status == AwaitingVerification
                    || s.records[x].status == CancelRequested))
  {
    hide Dedup, Kept, OpenFences, Fenced, Sound, ProviderStore.ExpiredIds, ProviderStore.ReconciledIds;
    ReportedExactly(s.records, Watched(s, discovered, listed), now, x);
    if x in s.records && Timed(s.records[x].status) {
      assert x in Watched(s, discovered, listed);
    }
  }

  lemma {:induction false} ReportedExactly(records: map<Id, Record>, ids: seq<Id>, now: Time, x: Id)
    ensures x in ProviderStore.ExpiredIds(records, ids, now) <==>
            x in ids && x in records && Due(records[x], now) && records[x].status.Prepared?
    ensures x in ProviderStore.ReconciledIds(records, ids, now) <==>
            && x in ids && x in records && Due(records[x], now)
            && !records[x].status.Prepared? && Timed(records[x].status)
  {
    if ids != [] {
      var front, last := ids[..|ids| - 1], ids[|ids| - 1];
      ReportedExactly(records, front, now, x);
      assert x in ids <==> x in front || x == last;
    }
  }

  /** A tick opens exactly the fences of the operations it fails. */
  lemma TickFenceLaw(s: Store, discovered: seq<Id>, listed: seq<Id>, now: Time, target: Token)
    requires Inv(s)
    ensures var t := Watchdog(s, discovered, listed, now);
            && (target in t.fences <==>
                exists owner :: Occupied(s, target, owner) && !(s.records[owner].status == Prepared
                                                          && now >= s.records[owner].request.deadlineAt))
            && (target in t.fences ==> target in s.fences && t.fences[target] == s.fences[target])
  {
    hide Dedup, Kept, Sound;
    if target in s.fences {
      var owner := s.fences[target].operationId;
      assert Occupied(s, target, owner);
      assert s.records[owner].status.Prepared? ==> owner in Watched(s, discovered, listed);
    }
  }
}
