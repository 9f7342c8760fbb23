/** What every run of the provider protocol keeps: one unresolved operation per target, finality
    of terminal and cancelled operations, backed success, and an index the watchdog can rely on. */
module ProviderSafety {
  import opened Collections
  import opened ProviderModel

  /** Statuses that still owe a deadline reaction. */
  predicate Timed(status: Status) {
    status.Prepared? || status.Dispatching? || status.AwaitingVerification? || status.CancelRequested?
  }

  predicate CancelAccepted(status: Status) {
    status.CancelRequested? || status.CancelNeedsReconciliation? || status.Cancelled? || status.Superseded?
  }

  /** Facts about one record: dispatch was claimed before anything later, and success is backed. */
  ghost predicate Sound(rec: Record) {
    && (rec.status.Dispatching? || rec.status.AwaitingVerification? || rec.status.CancelRequested?
        || rec.status.NeedsReconciliation? || rec.status.CancelNeedsReconciliation? || rec.status.Succeeded? ==>
          rec.attempt >= 1)
    && (rec.request.capability.Blocked? ==> rec.attempt == 0)
    && (rec.status.Succeeded? ==>
          && rec.completedAt.Some? && rec.completedAt.value < rec.request.deadlineAt
          && rec.canary.CheckPassed? && rec.postconditions.CheckPassed? && rec.observed.Some?)
  }

  ghost predicate Fenced(s: Store) {
    && (forall id :: id in s.records && !Terminal(s.records[id].status) ==>
          s.records[id].request.target in s.fences && s.fences[s.records[id].request.target].operationId == id)
    && (forall t :: t in s.fences ==>
          && s.fences[t].operationId in s.records && !Terminal(s.records[s.fences[t].operationId].status)
          && s.records[s.fences[t].operationId].request.target == t
          && s.records[s.fences[t].operationId].request.targetDigest == s.fences[t].targetDigest)
  }

  ghost predicate Watchable(s: Store) {
    && (forall id :: id in s.records && Timed(s.records[id].status) ==> id in s.active)
    && (forall id :: id in s.active ==> id in s.records && !Terminal(s.records[id].status))
  }

  ghost predicate Inv(s: Store) {
    && (forall id :: id in s.records ==> s.records[id].request.operationId == id && Sound(s.records[id]))
    && Fenced(s) && Watchable(s)
  }

  /** Everything of a request except the generation reference that success rewrites. */
  predicate SameRequest(a: Request, b: Request) {
    b == a.(currentGeneration := b.currentGeneration)
  }

  /** How one record may change in one step. */
  ghost predicate Evolves(a: Record, b: Record) {
    && SameRequest(a.request, b.request)
    && (Terminal(a.status) ==> b == a)
    && (CancelAccepted(a.status) ==> CancelAccepted(b.status))
    && a.attempt <= b.attempt
  }

  // ------------------------------------------------ writing a single record

  /** The fence of an unresolved operation is its own, and no other operation shares its target. */
  lemma FenceIsOwn(s: Store, id: Id)
    requires Fenced(s) && id in s.records && !Terminal(s.records[id].status)
    ensures var own := s.records[id].request.target;
            && own in s.fences && s.fences[own].operationId == id
            && (forall x :: x in s.records && x != id && !Terminal(s.records[x].status) ==>
              s.records[x].request.target != own)
            && (forall k :: k in s.fences && k != own ==> s.fences[k].operationId != id)
  {
    var own := s.records[id].request.target;
    forall k | k in s.fences && k != own
      ensures s.fences[k].operationId != id
    {
      assert s.records[s.fences[k].operationId].request.target == k;
    }
  }

  lemma SettleFences(s: Store, id: Id, rec: Record)
    requires Fenced(s)
    requires id in s.records && !Terminal(s.records[id].status) && rec.request.operationId == id
    requires rec.request.target == s.records[id].request.target
    requires rec.request.targetDigest == s.records[id].request.targetDigest
    ensures Fenced(Settle(s, id, rec))
  {
    hide Without;
    FenceIsOwn(s, id);
    var t := Settle(s, id, rec);
    assert t.records == s.records[id := rec];
    assert t.fences == if Terminal(rec.status) then s.fences - {rec.request.target} else s.fences;
  }

  lemma SettleIndex(s: Store, id: Id, rec: Record)
    requires Watchable(s) && id in s.records
    ensures Watchable(Settle(s, id, rec))
  {
    hide Without;
    var t := Settle(s, id, rec);
    assert forall x :: x != id ==> (x in t.active <==> x in s.active);
  }

  /** Moving an unresolved operation to any sound record of the same request keeps everything. */
  lemma SettleKeepsInv(s: Store, id: Id, rec: Record)
    requires Inv(s)
    requires id in s.records && !Terminal(s.records[id].status)
    requires SameRequest(s.records[id].request, rec.request) && Sound(rec)
    ensures Inv(Settle(s, id, rec))
  {
    SettleFences(s, id, rec);
    SettleIndex(s, id, rec);
  }

  /** Indexing an unresolved operation again keeps everything. */
  lemma IndexingKeepsInv(s: Store, id: Id)
    requires Inv(s) && id in s.records && !Terminal(s.records[id].status)
    ensures Inv(s.(active := AddActive(s.active, id)))
  {
    hide Sound;
  }

  /** A fresh operation takes the fence of a target nobody holds. */
  lemma FreshKeepsInv(s: Store, t: Store, req: Request, now: Time)
    requires Inv(s) && req.operationId !in s.records && req.target !in s.fences
    requires t.records == s.records[req.operationId := Fresh(req, now)]
    requires t.fences == s.fences[req.target := Fence(req.operationId, req.targetDigest)]
    requires t.active == AddActive(s.active, req.operationId)
    ensures Inv(t)
  {
    assert Sound(Fresh(req, now));
    assert forall x :: x in s.records && !Terminal(s.records[x].status) ==> s.records[x].request.target != req.target;
  }

  lemma StartKeepsInv(s: Store, req: Request, now: Time)
    requires Inv(s)
    ensures Inv(Start(s, req, now).0)
  {
    hide Sound, AddActive, Watchable;
    var t := Start(s, req, now).0;
    var id := req.operationId;
    if ValidStart(req, now) {
      if id in s.records {
        if !Terminal(s.records[id].status) {
          IndexingKeepsInv(s, id);
        }
      } else if req.target in s.fences {
        IndexingKeepsInv(s, s.fences[req.target].operationId);
      } else {
        FreshKeepsInv(s, t, req, now);
      }
    }
  }

  lemma ClaimKeepsInv(s: Store, id: Id, invocation: Id, now: Time)
    requires Inv(s)
    ensures Inv(Claim(s, id, invocation, now).0)
  {
    if id in s.records && s.records[id].status.Prepared? {
      var rec := s.records[id];
      if rec.request.capability.Blocked? {
        SettleKeepsInv(s, id, ClaimFailure(rec, CapabilityBlocked, now));
      } else if now >= rec.request.deadlineAt {
        SettleKeepsInv(s, id, ClaimFailure(rec, DeadlinePassed, now));
      } else {
        assert id in s.active;
        SettleKeepsInv(s, id, Dispatched(rec, invocation, now));
      }
    }
  }

  lemma OutcomeKeepsInv(s: Store, id: Id, invocation: Id, r: Response, now: Time)
    requires Inv(s)
    ensures Inv(RecordOutcome(s, id, invocation, r, now).0)
  {
    if id in s.records && (s.records[id].status.Dispatching? || s.records[id].status.CancelRequested?) {
      SettleKeepsInv(s.(outcomes := s.outcomes[(id, invocation) := r]), id, WithOutcome(s.records[id], r, now));
    }
  }

  lemma DecideIsSound(rec: Record, d: Decision, now: Time)
    requires Sound(rec) && Decide(rec, d, now).Some?
    ensures var next := Decide(rec, d, now).value; Sound(next) && next.request == rec.request && !Terminal(rec.status)
    ensures Evolves(rec, Decide(rec, d, now).value)
  {
  }

  lemma DecisionKeepsInv(s: Store, d: Decision, trusted: bool, now: Time)
    requires Inv(s)
    ensures Inv(ApplyDecision(s, d, trusted, now).0)
  {
    if Accepts(s, d, trusted, now) {
      DecideIsSound(s.records[d.operationId], d, now);
      var s1 := s.(consumed := s.consumed[d.nonce := Consumption(d.operationId, d.action, now)]);
      assert Inv(s1);
      SettleKeepsInv(s1, d.operationId, Decide(s.records[d.operationId], d, now).value);
    }
  }

  lemma VerifyKeepsInv(s: Store, id: Id, v: Verification, now: Time)
    requires Inv(s)
    ensures Inv(Verify(s, id, v, now).0)
  {
    if id in s.records && (s.records[id].status.AwaitingVerification? || s.records[id].status.CancelRequested?) {
      var rec := s.records[id];
      var next := Verified(rec, v, now);
      SettleKeepsInv(s, id, next);
      if next.status.Succeeded? {
        var key := (rec.request.target, rec.request.targetDigest, rec.request.fingerprint);
        var entry := LastSuccess(id, rec.request.generation, rec.request.sourceDigest, v.oid, now);
        SettleKeepsInv(s.(lastSuccess := s.lastSuccess[key := entry]), id, next);
      }
    }
  }

  lemma ExpiredIsSound(rec: Record, now: Time)
    requires Sound(rec)
    ensures Sound(Expired(rec, now)) && Expired(rec, now).request == rec.request && Evolves(rec, Expired(rec, now))
    ensures Terminal(Expired(rec, now).status) && !Terminal(rec.status) <==> Due(rec, now) && rec.status.Prepared?
  {
  }

  lemma TickFences(s: Store, ids: seq<Id>, now: Time)
    requires Inv(s)
    ensures Fenced(Tick(s, ids, now))
  {
    var t := Tick(s, ids, now);
    forall id | id in s.records
      ensures t.records[id].request == s.records[id].request
      ensures Terminal(t.records[id].status) <==> Terminal(s.records[id].status) || Fails(s.records, ids, id, now)
    {
      ExpiredIsSound(s.records[id], now);
    }
  }

  lemma TickKeepsInv(s: Store, ids: seq<Id>, now: Time)
    requires Inv(s) && forall id :: id in s.active ==> id in ids
    ensures Inv(Tick(s, ids, now))
  {
    TickFences(s, ids, now);
    var t := Tick(s, ids, now);
    forall id | id in s.records
      ensures Sound(t.records[id]) && t.records[id].request == s.records[id].request
      ensures Timed(t.records[id].status) ==> id in t.active
    {
      ExpiredIsSound(s.records[id], now);
    }
  }

  lemma WatchdogKeepsInv(s: Store, discovered: seq<Id>, listed: seq<Id>, now: Time)
    requires Inv(s)
    ensures Inv(Watchdog(s, discovered, listed, now))
  {
    hide Tick, Dedup;
    TickKeepsInv(s, Watched(s, discovered, listed), now);
  }

  lemma StepKeepsInv(s: Store, c: Command)
    requires Inv(s)
    ensures Inv(Step(s, c))
  {
    hide Inv, Start, Claim, RecordOutcome, ApplyDecision, Verify, Tick;
    match c
    case DoStart(request, now) => StartKeepsInv(s, request, now);
    case DoClaim(id, invocation, now) => ClaimKeepsInv(s, id, invocation, now);
    case DoOutcome(id, invocation, response, now) => OutcomeKeepsInv(s, id, invocation, response, now);
    case DoDecision(decision, trusted, now) => DecisionKeepsInv(s, decision, trusted, now);
    case DoVerify(id, verification, now) => VerifyKeepsInv(s, id, verification, now);
    case DoWatchdog(discovered, listed, now) => WatchdogKeepsInv(s, discovered, listed, now);
  }

  lemma {:induction false} RunKeepsInv(s: Store, commands: seq<Command>)
    requires Inv(s)
    ensures Inv(Run(s, commands))
  {
    hide Inv, Step;
    if commands != [] {
      RunKeepsInv(s, commands[..|commands| - 1]);
      StepKeepsInv(Run(s, commands[..|commands| - 1]), commands[|commands| - 1]);
    }
  }

  // --------------------------------------------------------- whole-run facts

  /** In every reachable store a target has one unresolved operation at most, and it owns the fence. */
  lemma OneUnresolvedPerTarget(commands: seq<Command>, a: Id, b: Id)
    requires var s := Run(EMPTY, commands);
             && a in s.records && !Terminal(s.records[a].status) && b in s.records && !Terminal(s.records[b].status)
             && s.records[a].request.target == s.records[b].request.target
    ensures a == b
    ensures var s := Run(EMPTY, commands);
            var t := s.records[a].request.target; t in s.fences && s.fences[t].operationId == a
  {
    RunKeepsInv(EMPTY, commands);
  }

  /** Success means a claimed dispatch, both checks passed, a known state, all before the deadline. */
  lemma SuccessIsBacked(commands: seq<Command>, id: Id)
    requires id in Run(EMPTY, commands).records && Run(EMPTY, commands).records[id].status.Succeeded?
    ensures var rec := Run(EMPTY, commands).records[id];
            && rec.attempt >= 1 && rec.completedAt.Some? && rec.completedAt.value < rec.request.deadlineAt
            && rec.canary.CheckPassed? && rec.postconditions.CheckPassed? && rec.observed.Some?
  {
    RunKeepsInv(EMPTY, commands);
  }

  /** After a tick nothing timed is overdue, even with no prefix listing, and no terminal
      operation is left in the index. */
  lemma WatchdogLeavesNothingOverdue(commands: seq<Command>, discovered: seq<Id>, listed: seq<Id>, now: Time)
    ensures var t := Watchdog(Run(EMPTY, commands), discovered, listed, now);
            && (forall id :: id in t.records && Timed(t.records[id].status) ==> now < t.records[id].request.deadlineAt)
            && (forall id :: id in t.records && Timed(t.records[id].status) ==> id in t.active)
            && (forall id :: id in t.active ==> id in t.records && !Terminal(t.records[id].status))
  {
    var s := Run(EMPTY, commands);
    RunKeepsInv(EMPTY, commands);
    TickKeepsInv(s, Watched(s, discovered, listed), now);
  }

  lemma OutcomeEvolves(rec: Record, r: Response, now: Time)
    requires rec.status.Dispatching? || rec.status.CancelRequested?
    ensures Evolves(rec, WithOutcome(rec, r, now))
  {
  }

  lemma VerifyEvolves(rec: Record, v: Verification, now: Time)
    requires rec.status.AwaitingVerification? || rec.status.CancelRequested?
    ensures Evolves(rec, Verified(rec, v, now))
  {
  }

  lemma SettleEvolves(s: Store, x: Id, rec: Record, id: Id)
    requires id in s.records && (x == id ==> Evolves(s.records[id], rec))
    ensures id in Settle(s, x, rec).records && Evolves(s.records[id], Settle(s, x, rec).records[id])
  {
  }

  lemma StartEvolves(s: Store, req: Request, now: Time, id: Id)
    requires id in s.records
    ensures id in Start(s, req, now).0.records && Start(s, req, now).0.records[id] == s.records[id]
  {
  }

  lemma ClaimEvolves(s: Store, x: Id, invocation: Id, now: Time, id: Id)
    requires id in s.records
    ensures id in Claim(s, x, invocation, now).0.records
            && Evolves(s.records[id], Claim(s, x, invocation, now).0.records[id])
  {
    hide Settle;
    if x in s.records && s.records[x].status.Prepared? {
      SettleEvolves(s, x, ClaimFailure(s.records[x], CapabilityBlocked, now), id);
      SettleEvolves(s, x, ClaimFailure(s.records[x], DeadlinePassed, now), id);
    }
  }

  lemma OutcomeStepEvolves(s: Store, x: Id, invocation: Id, r: Response, now: Time, id: Id)
    requires id in s.records
    ensures var t := RecordOutcome(s, x, invocation, r, now).0; id in t.records && Evolves(s.records[id], t.records[id])
  {
    hide Evolves, Settle, WithOutcome;
    StaysEvolves(s.records[id]);
    if x in s.records && (s.records[x].status.Dispatching? || s.records[x].status.CancelRequested?) {
      OutcomeEvolves(s.records[x], r, now);
      SettleEvolves(s.(outcomes := s.outcomes[(x, invocation) := r]), x, WithOutcome(s.records[x], r, now), id);
    }
  }

  lemma StaysEvolves(rec: Record)
    ensures Evolves(rec, rec)
  {
  }

  lemma EvolvesOnward(a: Record, b: Record, c: Record)
    requires Evolves(a, b) && Evolves(b, c)
    ensures Evolves(a, c)
  {
  }

  lemma WatchdogEvolves(s: Store, discovered: seq<Id>, listed: seq<Id>, now: Time, id: Id)
    requires id in s.records && Sound(s.records[id])
    ensures var t := Watchdog(s, discovered, listed, now); id in t.records && Evolves(s.records[id], t.records[id])
  {
    hide Expired, Evolves, Sound, Kept, OpenFences, Dedup;
    StaysEvolves(s.records[id]);
    ExpiredIsSound(s.records[id], now);
  }

  lemma StepEvolves(s: Store, c: Command, id: Id)
    requires Inv(s) && id in s.records
    ensures id in Step(s, c).records && Evolves(s.records[id], Step(s, c).records[id])
  {
    hide Fenced, Watchable, Sound, Evolves, Start, Claim, RecordOutcome, ApplyDecision, Verify, Watchdog;
    StaysEvolves(s.records[id]);
    match c
    case DoStart(request, now) => StartEvolves(s, request, now, id);
    case DoClaim(x, invocation, now) => ClaimEvolves(s, x, invocation, now, id);
    case DoOutcome(x, invocation, response, now) => OutcomeStepEvolves(s, x, invocation, response, now, id);
    case DoDecision(d, trusted, now) => DecisionEvolves(s, d, trusted, now, id);
    case DoVerify(x, v, now) => VerifyStepEvolves(s, x, v, now, id);
    case DoWatchdog(discovered, listed, now) => WatchdogEvolves(s, discovered, listed, now, id);
  }

  lemma DecisionEvolves(s: Store, d: Decision, trusted: bool, now: Time, id: Id)
    requires Inv(s) && id in s.records
    ensures var t := ApplyDecision(s, d, trusted, now).0; id in t.records && Evolves(s.records[id], t.records[id])
  {
    if Accepts(s, d, trusted, now) {
      DecideIsSound(s.records[d.operationId], d, now);
      var s1 := s.(consumed := s.consumed[d.nonce := Consumption(d.operationId, d.action, now)]);
      SettleEvolves(s1, d.operationId, Decide(s.records[d.operationId], d, now).value, id);
    }
  }

  lemma VerifyStepEvolves(s: Store, x: Id, v: Verification, now: Time, id: Id)
    requires id in s.records
    ensures var t := Verify(s, x, v, now).0; id in t.records && Evolves(s.records[id], t.records[id])
  {
    if x in s.records && (s.records[x].status.AwaitingVerification? || s.records[x].status.CancelRequested?) {
      VerifyEvolves(s.records[x], v, now);
    }
  }

  lemma {:induction false} RunEvolves(s: Store, commands: seq<Command>, id: Id)
    requires Inv(s) && id in s.records
    ensures id in Run(s, commands).records && Evolves(s.records[id], Run(s, commands).records[id])
  {
    hide Inv, Step, Evolves;
    if commands == [] {
      StaysEvolves(s.records[id]);
    } else {
      var front := commands[..|commands| - 1];
      RunEvolves(s, front, id);
      RunKeepsInv(s, front);
      StepEvolves(Run(s, front), commands[|commands| - 1], id);
      EvolvesOnward(s.records[id], Run(s, front).records[id], Run(s, commands).records[id]);
    }
  }

  /** A terminal record is frozen for the rest of any run. */
  lemma TerminalIsFinal(before: seq<Command>, after: seq<Command>, id: Id)
    requires id in Run(EMPTY, before).records && Terminal(Run(EMPTY, before).records[id].status)
    ensures var t := Run(Run(EMPTY, before), after); id in t.records && t.records[id] == Run(EMPTY, before).records[id]
  {
    RunKeepsInv(EMPTY, before);
    RunEvolves(Run(EMPTY, before), after, id);
  }

  lemma AcceptedCancel(s: Store, d: Decision, now: Time)
    requires d.action.Cancel? && Accepts(s, d, true, now)
    requires d.operationId in s.records && s.records[d.operationId].request.operationId == d.operationId
    ensures var t := Step(s, DoDecision(d, true, now));
            d.operationId in t.records && CancelAccepted(t.records[d.operationId].status)
  {
  }

  lemma CancelPersists(a: Record, b: Record)
    requires Evolves(a, b) && CancelAccepted(a.status)
    ensures CancelAccepted(b.status)
  {
  }

  lemma ReachableIsConsistent(commands: seq<Command>)
    ensures Inv(Run(EMPTY, commands))
  {
    RunKeepsInv(EMPTY, commands);
  }

  /** After an accepted cancel decision every later status is one of the four cancellation outcomes. */
  lemma CancelIsIrrevocable(before: seq<Command>, d: Decision, now: Time, after: seq<Command>)
    requires d.action.Cancel? && Accepts(Run(EMPTY, before), d, true, now)
    ensures var t := Run(Step(Run(EMPTY, before), DoDecision(d, true, now)), after);
            d.operationId in t.records && CancelAccepted(t.records[d.operationId].status)
  {
    hide Step, Run, Fenced, Watchable, Sound, Evolves;
    var s := Run(EMPTY, before);
    ReachableIsConsistent(before);
    AcceptedCancel(s, d, now);
    var u := Step(s, DoDecision(d, true, now));
    StepKeepsInv(s, DoDecision(d, true, now));
    RunEvolves(u, after, d.operationId);
    CancelPersists(u.records[d.operationId], Run(u, after).records[d.operationId]);
  }
}
