/** Which transaction moves which provider operation where: the complete table of status changes. */
module ProviderEdges {
  import opened Collections
  import opened ProviderModel
  import opened ProviderSafety

  predicate MayConfirm(c: Capability) {
    c.NativeCas? || c.OwnerRiskGate?
  }

  /** What a control decision may do to a status under each dispatch capability. */
  ghost predicate DecisionEdge(action: Action, capability: Capability, was: Status, next: Status) {
    match action
    case Cancel =>
      || (was.Prepared? && next.Cancelled?)
      || ((was.Dispatching? || was.AwaitingVerification?) && next.CancelRequested?)
      || (was.NeedsReconciliation? && next.CancelNeedsReconciliation?)
    case ReplayOnce =>
      was.NeedsReconciliation? && next.Prepared? && (capability.EnforcedExclusive? || capability.OwnerRiskGate?)
    case ConfirmApplied => was.NeedsReconciliation? && next.AwaitingVerification? && MayConfirm(capability)
    case ConfirmNotApplied =>
      && MayConfirm(capability)
      && ((was.NeedsReconciliation? && next.Failed?) || (was.CancelNeedsReconciliation? && next.Cancelled?))
    case Supersede => (was.NeedsReconciliation? || was.CancelNeedsReconciliation?) && next.Superseded?
  }

  ghost predicate OutcomeEdge(was: Record, r: Response, now: Time, next: Status) {
    match was.status
    case Dispatching =>
      || (next.Failed? && r.status.Rejected?)
      || (next.AwaitingVerification? && r.status.Committed? && now < was.request.deadlineAt)
      || (next.NeedsReconciliation? && !r.status.Rejected? && !(r.status.Committed? && now < was.request.deadlineAt))
    case CancelRequested => if r.status.Rejected? then next.Cancelled? else next.CancelNeedsReconciliation?
    case _ => false
  }

  ghost predicate VerifyEdge(was: Record, v: Verification, now: Time, next: Status) {
    match was.status
    case AwaitingVerification =>
      if now < was.request.deadlineAt && v.canaryPassed
        && v.postconditionsPassed
        then next.Succeeded? else next.NeedsReconciliation?
    case CancelRequested => next.CancelNeedsReconciliation?
    case _ => false
  }

  ghost predicate ExpiryEdge(was: Status, next: Status) {
    || (was.Prepared? && next.Failed?)
    || ((was.Dispatching? || was.AwaitingVerification?) && next.NeedsReconciliation?)
    || (was.CancelRequested? && next.CancelNeedsReconciliation?)
  }

  /** `c` moves operation `x`, recorded as `was`, to status `next`. */
  ghost predicate Edge(s: Store, c: Command, x: Id, was: Record, next: Status) {
    match c
    case DoStart(_, _) => false
    case DoClaim(id, invocation, now) =>
      && x == id && was.status.Prepared?
      && next == if !was.request.capability.Blocked? && now < was.request.deadlineAt then Dispatching else Failed
    case DoOutcome(id, invocation, response, now) =>
      && x == id && was.invocation == Some(invocation) && (id, invocation) !in s.outcomes && ValidResponse(response)
      && OutcomeEdge(was, response, now, next)
    case DoDecision(d, trusted, now) =>
      && x == d.operationId && trusted && d.nonce !in s.consumed && DecisionTimely(d, now) && Bound(d, was)
      && Approved(d, was.request.capability) && (d.action.ConfirmApplied? ==> d.currentOid.Some?)
      && DecisionEdge(d.action, was.request.capability, was.status, next)
    case DoVerify(id, v, now) =>
      x == id && (was.observed.None? || was.observed == Some(v.oid)) && VerifyEdge(was, v, now, next)
    case DoWatchdog(_, _, now) => now >= was.request.deadlineAt && ExpiryEdge(was.status, next)
  }

  ghost predicate MovedBy(s: Store, c: Command, x: Id, t: Store)
    requires x in s.records
  {
    && x in t.records
    && (t.records[x].status == s.records[x].status || Edge(s, c, x, s.records[x], t.records[x].status))
  }

  lemma SettleWrites(s: Store, id: Id, rec: Record)
    ensures Settle(s, id, rec).records == s.records[id := rec]
  {
  }

  lemma ClaimMoves(s: Store, c: Command, x: Id)
    requires c.DoClaim? && x in s.records
    ensures MovedBy(s, c, x, Step(s, c))
    ensures x == c.id && s.records[x].status.Prepared? ==> Step(s, c).records[x].status != Prepared
  {
    hide Settle;
    if c.id in s.records {
      SettleWrites(s, c.id, ClaimFailure(s.records[c.id], CapabilityBlocked, c.now));
      SettleWrites(s, c.id, ClaimFailure(s.records[c.id], DeadlinePassed, c.now));
    }
  }

  lemma OutcomeMoves(s: Store, c: Command, x: Id)
    requires c.DoOutcome? && x in s.records
    ensures MovedBy(s, c, x, Step(s, c))
  {
    hide Settle;
    if c.id in s.records {
      SettleWrites(s.(outcomes := s.outcomes[(c.id, c.invocation) := c.response]), c.id,
        WithOutcome(s.records[c.id], c.response, c.now));
    }
  }

  lemma DecideMoves(rec: Record, d: Decision, now: Time)
    requires Decide(rec, d, now).Some?
    ensures Approved(d, rec.request.capability) && (d.action.ConfirmApplied? ==> d.currentOid.Some?)
    ensures var next := Decide(rec, d, now).value.status;
            next == rec.status || DecisionEdge(d.action, rec.request.capability, rec.status, next)
  {
  }

  lemma DecisionMoves(s: Store, c: Command, x: Id)
    requires c.DoDecision? && x in s.records
    ensures MovedBy(s, c, x, Step(s, c))
  {
    hide Settle, Decide, DecisionEdge, Bound, DecisionTimely, Approved;
    var d := c.decision;
    if Accepts(s, d, c.trusted, c.now) {
      DecideMoves(s.records[d.operationId], d, c.now);
      var s1 := s.(consumed := s.consumed[d.nonce := Consumption(d.operationId, d.action, c.now)]);
      SettleWrites(s1, d.operationId, Decide(s.records[d.operationId], d, c.now).value);
    }
  }

  lemma VerifyMoves(s: Store, c: Command, x: Id)
    requires c.DoVerify? && x in s.records
    ensures MovedBy(s, c, x, Step(s, c))
  {
    hide Settle;
    if c.id in s.records {
      var rec := s.records[c.id];
      var next := Verified(rec, c.verification, c.now);
      var key := (rec.request.target, rec.request.targetDigest, rec.request.fingerprint);
      var entry := LastSuccess(c.id, rec.request.generation, rec.request.sourceDigest, c.verification.oid, c.now);
      SettleWrites(s, c.id, next);
      SettleWrites(s.(lastSuccess := s.lastSuccess[key := entry]), c.id, next);
    }
  }

  lemma WatchdogMoves(s: Store, c: Command, x: Id)
    requires c.DoWatchdog? && x in s.records
    ensures MovedBy(s, c, x, Step(s, c))
  {
    hide Kept, OpenFences, Dedup;
  }

  /** No status changes without its cause, whatever the store holds. */
  lemma EdgesHaveCauses(s: Store, c: Command, x: Id)
    requires x in s.records
    ensures MovedBy(s, c, x, Step(s, c))
  {
    hide Step, Edge;
    match c {
      case DoStart(request, now) => StartMoves(s, request, now, x);
      case DoClaim(_, _, _) => ClaimMoves(s, c, x);
      case DoOutcome(_, _, _, _) => OutcomeMoves(s, c, x);
      case DoDecision(_, _, _) => DecisionMoves(s, c, x);
      case DoVerify(_, _, _) => VerifyMoves(s, c, x);
      case DoWatchdog(_, _, _) => WatchdogMoves(s, c, x);
    }
  }

  lemma StartMoves(s: Store, req: Request, now: Time, x: Id)
    requires x in s.records
    ensures MovedBy(s, DoStart(req, now), x, Step(s, DoStart(req, now)))
  {
    StartEvolves(s, req, now, x);
  }

  lemma DecideFollowsEdge(rec: Record, d: Decision, now: Time, next: Status)
    requires Bound(d, rec) && Approved(d, rec.request.capability) && (d.action.ConfirmApplied? ==> d.currentOid.Some?)
    requires DecisionEdge(d.action, rec.request.capability, rec.status, next)
    ensures Decide(rec, d, now).Some? && Decide(rec, d, now).value.status == next && next != rec.status
  {
  }

  /** An approved decision whose edge exists and whose state matches is carried out. */
  lemma DecisionTakesEffect(s: Store, d: Decision, now: Time, next: Status)
    requires d.operationId in s.records
    requires Edge(s, DoDecision(d, true, now), d.operationId, s.records[d.operationId], next)
    ensures var t := Step(s, DoDecision(d, true, now));
            && d.operationId in t.records && t.records[d.operationId].status == next
            && d.nonce in t.consumed && t.consumed[d.nonce] == Consumption(d.operationId, d.action, now)
  {
    hide Settle, Decide, Bound, DecisionTimely, Approved, DecisionEdge;
    var rec := s.records[d.operationId];
    DecideFollowsEdge(rec, d, now, next);
    var s1 := s.(consumed := s.consumed[d.nonce := Consumption(d.operationId, d.action, now)]);
    SettleWrites(s1, d.operationId, Decide(rec, d, now).value);
    SettleKeepsConsumed(s1, d.operationId, Decide(rec, d, now).value);
  }

  lemma SettleKeepsConsumed(s: Store, id: Id, rec: Record)
    ensures Settle(s, id, rec).consumed == s.consumed
  {
  }

  /** Due operations of a consistent store are all moved by one tick. */
  lemma ExpiryTakesEffect(s: Store, discovered: seq<Id>, listed: seq<Id>, now: Time, x: Id)
    requires Inv(s) && x in s.records && Timed(s.records[x].status) && now >= s.records[x].request.deadlineAt
    ensures var t := Watchdog(s, discovered, listed, now);
            && x in t.records
            && ExpiryEdge(s.records[x].status, t.records[x].status)
  {
    hide Kept, OpenFences, Dedup, Fenced, Sound;
    assert x in Watched(s, discovered, listed);
  }

  lemma ClaimActs(s: Store, c: Command, next: Status)
    requires c.DoClaim? && c.id in s.records && Edge(s, c, c.id, s.records[c.id], next)
    ensures Step(s, c).records[c.id].status == next
  {
    hide Settle;
    SettleWrites(s, c.id, ClaimFailure(s.records[c.id], CapabilityBlocked, c.now));
    SettleWrites(s, c.id, ClaimFailure(s.records[c.id], DeadlinePassed, c.now));
  }

  lemma OutcomeActs(s: Store, c: Command, next: Status)
    requires c.DoOutcome? && c.id in s.records && Edge(s, c, c.id, s.records[c.id], next)
    ensures Step(s, c).records[c.id].status == next
  {
    hide Settle;
    SettleWrites(s.(outcomes := s.outcomes[(c.id, c.invocation) := c.response]), c.id,
      WithOutcome(s.records[c.id], c.response, c.now));
  }

  lemma VerifyActs(s: Store, c: Command, next: Status)
    requires c.DoVerify? && c.id in s.records && Edge(s, c, c.id, s.records[c.id], next)
    ensures Step(s, c).records[c.id].status == next
  {
    hide Settle;
    var rec := s.records[c.id];
    var after := Verified(rec, c.verification, c.now);
    var key := (rec.request.target, rec.request.targetDigest, rec.request.fingerprint);
    var entry := LastSuccess(c.id, rec.request.generation, rec.request.sourceDigest, c.verification.oid, c.now);
    SettleWrites(s, c.id, after);
    SettleWrites(s.(lastSuccess := s.lastSuccess[key := entry]), c.id, after);
  }

  lemma ExpiryIsOneStatus(was: Status, a: Status, b: Status)
    requires ExpiryEdge(was, a) && ExpiryEdge(was, b)
    ensures a == b && Timed(was)
  {
  }

  /** Every cause in the table takes effect in a consistent store; with EdgesHaveCauses the table is
      exactly what the six transactions do to statuses. */
  lemma CausesTakeEffect(s: Store, c: Command, x: Id, next: Status)
    requires Inv(s) && x in s.records && Edge(s, c, x, s.records[x], next)
    ensures x in Step(s, c).records && Step(s, c).records[x].status == next
  {
    hide Step, Inv;
    EdgesHaveCauses(s, c, x);
    match c {
      case DoClaim(_, _, _) => ClaimActs(s, c, next);
      case DoOutcome(_, _, _, _) => OutcomeActs(s, c, next);
      case DoDecision(d, trusted, now) => DecisionTakesEffect(s, d, now, next);
      case DoVerify(_, _, _) => VerifyActs(s, c, next);
      case DoWatchdog(discovered, listed, now) => WatchdogActs(s, discovered, listed, now, x, next);
      case _ =>
    }
  }

  lemma WatchdogActs(s: Store, discovered: seq<Id>, listed: seq<Id>, now: Time, x: Id, next: Status)
    requires Inv(s) && x in s.records && now >= s.records[x].request.deadlineAt && ExpiryEdge(s.records[x].status, next)
    ensures var t := Step(s, DoWatchdog(discovered, listed, now)); x in t.records && t.records[x].status == next
  {
    hide Watchdog, Inv;
    ExpiryIsOneStatus(s.records[x].status, next, next);
    ExpiryTakesEffect(s, discovered, listed, now, x);
    ExpiryIsOneStatus(s.records[x].status, next, Watchdog(s, discovered, listed, now).records[x].status);
  }
}
