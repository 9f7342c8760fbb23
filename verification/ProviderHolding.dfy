/** When two dispatch bodies hold one operation at once: exactly when a replay decision frees it
    under the first, and never when claims are as late as the ticks before them and only a holder
    records its own outcome. */
module ProviderHolding {
  import opened Collections
  import opened ProviderModel
  import opened ProviderSafety
  import ProviderEdges
  import opened ProviderAttempts
  import opened ProviderBodies

  /** The store before event n, and the transaction that event n issues. */
  function StoreAt(events: seq<Event>, n: nat): Store
    requires n <= |events|
  {
    Unfold(events[..n]).store
  }

  function Act(events: seq<Event>, n: nat): Option<Command>
    requires n < |events|
  {
    CommandOf(Unfold(events[..n]), events[n])
  }

  lemma StoreMoves(events: seq<Event>, n: nat)
    requires n < |events|
    ensures Unfold(events[..n + 1]) == Happen(Unfold(events[..n]), events[n])
    ensures var c := Act(events, n);
            StoreAt(events, n + 1) == if c.Some? then Step(StoreAt(events, n), c.value) else StoreAt(events, n)
    ensures Inv(StoreAt(events, n))
  {
    hide Step, Inv, Moved, CommandOf;
    assert events[..n + 1][..n] == events[..n];
    BodiesAreBalanced(events[..n], 0);
    ReachableIsConsistent(Transactions(events[..n]));
  }

  predicate PreparedAt(events: seq<Event>, n: nat, id: Id)
    requires n <= |events|
  {
    id in StoreAt(events, n).records && StoreAt(events, n).records[id].status.Prepared?
  }

  predicate ReplaysAt(events: seq<Event>, n: nat, id: Id) {
    n < |events| && Act(events, n).Some? && Replays(StoreAt(events, n), Act(events, n).value, id)
  }

  /** What takes a prepared operation out of that status: a claim of it, a tick at or past its
      deadline, an accepted cancel. */
  predicate Leaves(s: Store, c: Command, id: Id) {
    || (c.DoClaim? && c.id == id)
    || (c.DoWatchdog? && id in s.records && c.now >= s.records[id].request.deadlineAt)
    || (c.DoDecision? && c.decision.operationId == id && c.decision.action.Cancel?
      && Accepts(s, c.decision, c.trusted, c.now))
  }

  predicate LeavesAt(events: seq<Event>, n: nat, id: Id) {
    n < |events| && Act(events, n).Some? && Leaves(StoreAt(events, n), Act(events, n).value, id)
  }

  // ---------------------------------------------------- prepared operations

  lemma PreparedStays(s: Store, c: Command, id: Id)
    requires Inv(s) && id in s.records && s.records[id].status.Prepared?
    ensures id in Step(s, c).records && (Step(s, c).records[id].status.Prepared? <==> !Leaves(s, c, id))
  {
    hide Inv, Step, Accepts, Decide;
    ProviderEdges.EdgesHaveCauses(s, c, id);
    if c.DoClaim? && c.id == id {
      ProviderEdges.ClaimMoves(s, c, id);
    } else if c.DoWatchdog? {
      if c.now >= s.records[id].request.deadlineAt {
        ProviderEdges.CausesTakeEffect(s, c, id, Failed);
      }
    } else if c.DoDecision? {
      DecisionOnPrepared(s, c, id);
    }
  }

  lemma DecisionOnPrepared(s: Store, c: Command, id: Id)
    requires c.DoDecision? && id in s.records && s.records[id].status.Prepared?
    ensures id in Step(s, c).records && (Step(s, c).records[id].status.Prepared? <==> !Leaves(s, c, id))
  {
    hide Bound, DecisionTimely, Approved;
  }

  lemma ReplayPrepares(s: Store, c: Command, id: Id)
    requires id in s.records && !s.records[id].status.Prepared?
    ensures id in Step(s, c).records && (Step(s, c).records[id].status.Prepared? <==> Replays(s, c, id))
  {
    hide Step, Accepts, Decide;
    ProviderEdges.EdgesHaveCauses(s, c, id);
    if c.DoDecision? {
      ReplayDecision(s, c, id);
    }
  }

  lemma ReplayDecision(s: Store, c: Command, id: Id)
    requires c.DoDecision? && id in s.records && !s.records[id].status.Prepared?
    ensures id in Step(s, c).records && (Step(s, c).records[id].status.Prepared? <==> Replays(s, c, id))
  {
    hide Bound, DecisionTimely, Approved;
  }

  /** Since m an applied replay, and nothing that takes the operation away again before n. */
  ghost predicate FreedSince(events: seq<Event>, m: nat, n: nat, id: Id) {
    m < n && ReplaysAt(events, m, id) && forall x :: m < x < n ==> !LeavesAt(events, x, id)
  }

  lemma ReplaysArePrepared(s: Store, c: Command, id: Id)
    requires Replays(s, c, id)
    ensures id in s.records && !s.records[id].status.Prepared?
  {
    hide Bound, DecisionTimely, Approved;
  }

  lemma ReplaysAreKnown(events: seq<Event>, n: nat, id: Id)
    requires ReplaysAt(events, n, id)
    ensures id in StoreAt(events, n).records && !PreparedAt(events, n, id)
  {
    hide Replays, Act, StoreAt;
    ReplaysArePrepared(StoreAt(events, n), Act(events, n).value, id);
  }

  /** How one event decides whether a known operation is prepared after it. */
  lemma PreparedStep(events: seq<Event>, n: nat, id: Id)
    requires n < |events| && id in StoreAt(events, n).records
    ensures id in StoreAt(events, n + 1).records
    ensures PreparedAt(events, n + 1, id) <==>
            if PreparedAt(events, n, id) then !LeavesAt(events, n, id) else ReplaysAt(events, n, id)
  {
    hide Step, Inv, Act, Leaves, Replays, StoreAt;
    StoreMoves(events, n);
    if Act(events, n).Some? {
      if PreparedAt(events, n, id) {
        PreparedStays(StoreAt(events, n), Act(events, n).value, id);
      } else {
        ReplayPrepares(StoreAt(events, n), Act(events, n).value, id);
      }
    }
  }

  lemma {:induction false} FreedIsPrepared(events: seq<Event>, m: nat, n: nat, id: Id)
    requires n <= |events| && FreedSince(events, m, n, id)
    ensures id in StoreAt(events, n).records && PreparedAt(events, n, id)
    decreases n
  {
    hide StoreAt, PreparedAt, LeavesAt, ReplaysAt;
    if m == n - 1 {
      ReplaysAreKnown(events, m, id);
    } else {
      FreedIsPrepared(events, m, n - 1, id);
      assert !LeavesAt(events, n - 1, id);
    }
    PreparedStep(events, n - 1, id);
  }

  lemma {:induction false} PreparedWasFreed(events: seq<Event>, i: nat, n: nat, id: Id) returns (m: nat)
    requires i <= n <= |events| && id in StoreAt(events, i).records && !PreparedAt(events, i, id)
             && PreparedAt(events, n, id)
    ensures i <= m && FreedSince(events, m, n, id)
    decreases n
  {
    hide StoreAt, PreparedAt, LeavesAt, ReplaysAt;
    KnownStays(events, i, n - 1, id);
    PreparedStep(events, n - 1, id);
    if PreparedAt(events, n - 1, id) {
      m := PreparedWasFreed(events, i, n - 1, id);
    } else {
      m := n - 1;
    }
  }

  /** A record stays, and what it was asked for stays with it. */
  lemma {:induction false} KnownStays(events: seq<Event>, i: nat, n: nat, id: Id)
    requires i <= n <= |events| && id in StoreAt(events, i).records
    ensures var s, t := StoreAt(events, i), StoreAt(events, n);
            id in t.records && SameRequest(s.records[id].request, t.records[id].request)
    decreases n
  {
    hide Step, Inv, Act;
    if i < n {
      KnownStays(events, i, n - 1, id);
      StoreMoves(events, n - 1);
      if Act(events, n - 1).Some? {
        StepEvolves(StoreAt(events, n - 1), Act(events, n - 1).value, id);
      }
    }
  }

  // ------------------------------------------------------------ two holders

  /** Event i is a claim of body a that succeeds on operation `id`. */
  predicate ClaimsAt(events: seq<Event>, i: nat, a: BodyId, id: Id) {
    && i < |events| && events[i] == BodyClaim(a) && At(Unfold(events[..i]), a, Started)
    && Unfold(events[..i]).bodies[a].request.operationId == id
    && Claims(StoreAt(events, i), Act(events, i).value, id)
  }

  lemma ClaimTakesPrepared(s: Store, c: Command, id: Id)
    requires Claims(s, c, id)
    ensures id in Step(s, c).records && !Step(s, c).records[id].status.Prepared?
    ensures Step(s, c).records[id].request == s.records[id].request
    ensures !s.records[id].request.capability.Blocked?
  {
  }

  lemma ClaimSucceedsExactly(s: Store, c: Command, id: Id)
    requires c.DoClaim? && c.id == id && id in s.records && !s.records[id].request.capability.Blocked?
    ensures Claims(s, c, id) <==> s.records[id].status.Prepared? && c.now < s.records[id].request.deadlineAt
  {
    hide Settle;
  }

  /** A claim of an operation that was claimed at i succeeds exactly when it carries a time before
      the deadline and a replay since i freed the operation, with no claim, due tick or cancel after. */
  lemma ReclaimedExactly(events: seq<Event>, i: nat, a: BodyId, n: nat, b: BodyId, id: Id)
    requires ClaimsAt(events, i, a, id) && i < n < |events| && events[n] == BodyClaim(b)
    requires At(Unfold(events[..n]), b, Started) && Unfold(events[..n]).bodies[b].request.operationId == id
    ensures id in StoreAt(events, n).records
    ensures ClaimsAt(events, n, b, id) <==>
            && Unfold(events[..n]).bodies[b].now < StoreAt(events, n).records[id].request.deadlineAt
            && exists m: nat :: i < m && FreedSince(events, m, n, id)
  {
    hide Step, Inv, Claims;
    StoreMoves(events, i);
    ClaimTakesPrepared(StoreAt(events, i), Act(events, i).value, id);
    KnownStays(events, i + 1, n, id);
    ClaimSucceedsExactly(StoreAt(events, n), Act(events, n).value, id);
    if PreparedAt(events, n, id) {
      var m := PreparedWasFreed(events, i + 1, n, id);
      assert i < m && FreedSince(events, m, n, id);
    }
    if m: nat :| i < m && FreedSince(events, m, n, id) {
      FreedIsPrepared(events, m, n, id);
    }
  }

  /** While body a still holds its claim, another body comes to hold the operation beside it under
      exactly that condition. */
  lemma SecondHolderExactly(events: seq<Event>, i: nat, a: BodyId, n: nat, b: BodyId, id: Id)
    requires ClaimsAt(events, i, a, id) && i < n < |events| && events[n] == BodyClaim(b) && a != b
    requires At(Unfold(events[..n]), a, Holding) && Unfold(events[..n]).bodies[a].request.operationId == id
    requires At(Unfold(events[..n]), b, Started) && Unfold(events[..n]).bodies[b].request.operationId == id
    ensures id in StoreAt(events, n).records
    ensures {a, b} <= Holders(Unfold(events[..n + 1]), id) <==>
            && Unfold(events[..n]).bodies[b].now < StoreAt(events, n).records[id].request.deadlineAt
            && exists m: nat :: i < m && FreedSince(events, m, n, id)
  {
    hide Step, Inv, FreedSince;
    ReclaimedExactly(events, i, a, n, b, id);
    StoreMoves(events, n);
  }

  // ------------------------------------------------------------ one at a time

  /** The bodies that may still write or have written without recording. */
  function Live(y: System, id: Id): set<BodyId> {
    set b | b in y.bodies && y.bodies[b].request.operationId == id
            && (y.bodies[b].stage == Holding || y.bodies[b].stage == Written)
  }

  /** A claim carries a time no earlier than any tick before it, as one that carries its commit time does. */
  ghost predicate ClaimsAreCurrent(events: seq<Event>) {
    forall x, n :: 0 <= x < n < |events| && Act(events, x).Some? && Act(events, x).value.DoWatchdog?
                   && Act(events, n).Some? && Act(events, n).value.DoClaim? ==>
      Act(events, x).value.now <= Act(events, n).value.now
  }

  /** An outcome for a live body's invocation is recorded by that body. */
  ghost predicate OwnOutcomes(events: seq<Event>) {
    forall n, b :: 0 <= n < |events| && Act(events, n).Some? && Act(events, n).value.DoOutcome?
                   && b in Live(Unfold(events[..n]), Act(events, n).value.id)
                   && Unfold(events[..n]).bodies[b].invocation == Act(events, n).value.invocation ==>
      events[n].BodyRecord? && events[n].body == b
  }

  ghost predicate Ticked(events: seq<Event>, n: nat, deadline: Time)
    requires n <= |events|
  {
    exists x :: 0 <= x < n && Act(events, x).Some? && Act(events, x).value.DoWatchdog?
      && Act(events, x).value.now >= deadline
  }

  /** The operation is dispatched under this very body, or can never be claimed again. */
  ghost predicate Guarded(events: seq<Event>, n: nat, b: BodyId, id: Id)
    requires n <= |events| && b in Unfold(events[..n]).bodies
  {
    var s := StoreAt(events, n);
    && id in s.records
    && (|| (s.records[id].status.Dispatching?
      && s.records[id].invocation == Some(Unfold(events[..n]).bodies[b].invocation))
        || CancelAccepted(s.records[id].status)
        || Ticked(events, n, s.records[id].request.deadlineAt))
  }

  ghost predicate Exclusive(events: seq<Event>, n: nat, id: Id)
    requires n <= |events|
  {
    && (forall b :: b in Live(Unfold(events[..n]), id) ==> Guarded(events, n, b, id))
    && forall a, b :: a in Live(Unfold(events[..n]), id) && b in Live(Unfold(events[..n]), id) ==> a == b
  }

  /** A dispatched operation leaves that status only by its own outcome, a cancel or a due tick. */
  lemma DispatchedStays(s: Store, c: Command, id: Id, invocation: Id)
    requires Inv(s) && id in s.records && s.records[id].status.Dispatching?
             && s.records[id].invocation == Some(invocation)
    requires c.DoOutcome? ==> c.id != id || c.invocation != invocation
    ensures var t := Step(s, c);
            && id in t.records
            && (|| (t.records[id].status.Dispatching? && t.records[id].invocation == Some(invocation))
                || CancelAccepted(t.records[id].status)
                || (c.DoWatchdog? && c.now >= s.records[id].request.deadlineAt))
  {
    hide Inv, Settle, Kept, OpenFences, Dedup, Bound, DecisionTimely, Approved;
    match c {
      case DoStart(request, now) => StartEvolves(s, request, now, id);
      case DoClaim(x, _, _) =>
        if x in s.records {
          ProviderEdges.SettleWrites(s, x, ClaimFailure(s.records[x], CapabilityBlocked, c.now));
          ProviderEdges.SettleWrites(s, x, ClaimFailure(s.records[x], DeadlinePassed, c.now));
        }
      case DoOutcome(x, invocation, response, now) =>
        if x in s.records {
          ProviderEdges.SettleWrites(s.(outcomes := s.outcomes[(x, invocation) := response]), x,
            WithOutcome(s.records[x], response, now));
        }
      case DoDecision(_, _, _) => DispatchedDecision(s, c, id, invocation);
      case DoVerify(x, v, now) => OtherVerify(s, c, id);
      case DoWatchdog(_, _, _) =>
    }
  }

  lemma DispatchedDecision(s: Store, c: Command, id: Id, invocation: Id)
    requires c.DoDecision? && id in s.records && s.records[id].status.Dispatching?
             && s.records[id].invocation == Some(invocation)
    ensures var t := Step(s, c);
            id in t.records && (t.records[id] == s.records[id] || CancelAccepted(t.records[id].status))
  {
    hide Bound, DecisionTimely, Approved;
  }

  lemma OtherVerify(s: Store, c: Command, id: Id)
    requires c.DoVerify? && id in s.records && s.records[id].status.Dispatching?
    ensures var t := Step(s, c); id in t.records && t.records[id] == s.records[id]
  {
    hide Settle;
    if c.id in s.records && c.id != id {
      var rec := s.records[c.id];
      var next := Verified(rec, c.verification, c.now);
      var key := (rec.request.target, rec.request.targetDigest, rec.request.fingerprint);
      var entry := LastSuccess(c.id, rec.request.generation, rec.request.sourceDigest, c.verification.oid, c.now);
      ProviderEdges.SettleWrites(s, c.id, next);
      ProviderEdges.SettleWrites(s.(lastSuccess := s.lastSuccess[key := entry]), c.id, next);
    }
  }

  lemma TickedStays(events: seq<Event>, n: nat, deadline: Time)
    requires n < |events| && Ticked(events, n, deadline)
    ensures Ticked(events, n + 1, deadline)
  {
  }

  /** A guard holds on while its body stays live. */
  lemma GuardStays(events: seq<Event>, n: nat, b: BodyId, id: Id)
    requires n < |events| && OwnOutcomes(events)
    requires b in Live(Unfold(events[..n]), id) && b in Live(Unfold(events[..n + 1]), id) && Guarded(events, n, b, id)
    ensures Guarded(events, n + 1, b, id)
  {
    hide Step, Inv, Act, Claim, Start;
    StoreMoves(events, n);
    var s, c := StoreAt(events, n), Act(events, n);
    KnownStays(events, n, n + 1, id);
    BodyKeepsInvocation(Unfold(events[..n]), events[n], b);
    if c.Some? {
      StepEvolves(s, c.value, id);
      if Ticked(events, n, s.records[id].request.deadlineAt) {
        TickedStays(events, n, s.records[id].request.deadlineAt);
      } else if !CancelAccepted(s.records[id].status) {
        if c.value.DoOutcome? && c.value.id == id && c.value.invocation == Unfold(events[..n]).bodies[b].invocation {
          RecordedIsNotLive(Unfold(events[..n]), events[n]);
        } else {
          DispatchedStays(s, c.value, id, Unfold(events[..n]).bodies[b].invocation);
        }
      }
    } else if Ticked(events, n, s.records[id].request.deadlineAt) {
      TickedStays(events, n, s.records[id].request.deadlineAt);
    }
  }

  lemma BodyKeepsInvocation(y: System, e: Event, b: BodyId)
    requires b in y.bodies
    ensures b in Happen(y, e).bodies && Happen(y, e).bodies[b].invocation == y.bodies[b].invocation
    ensures Happen(y, e).bodies[b].request == y.bodies[b].request
  {
    hide Step, Start, Claim;
  }

  lemma RecordedIsNotLive(y: System, e: Event)
    requires e.BodyRecord? && e.body in y.bodies && (At(y, e.body, Holding) || At(y, e.body, Written))
    ensures forall id :: e.body !in Live(Happen(y, e), id)
  {
    hide Step;
  }

  /** Only a claim that succeeds makes a body live. */
  lemma LiveByClaim(events: seq<Event>, n: nat, b: BodyId, id: Id)
    requires n < |events| && b in Live(Unfold(events[..n + 1]), id) && b !in Live(Unfold(events[..n]), id)
    ensures ClaimsAt(events, n, b, id)
  {
    hide Step, Start, Claim;
    StoreMoves(events, n);
  }

  lemma ClaimIsGuarded(s: Store, c: Command, id: Id)
    requires Claims(s, c, id)
    ensures var t := Step(s, c);
            id in t.records && t.records[id].status.Dispatching? && t.records[id].invocation == Some(c.invocation)
  {
    hide Settle;
  }

  /** No claim succeeds on a guarded operation. */
  lemma GuardRefuses(events: seq<Event>, n: nat, a: BodyId, b: BodyId, id: Id)
    requires ClaimsAreCurrent(events) && n < |events| && a in Unfold(events[..n]).bodies && Guarded(events, n, a, id)
    ensures !ClaimsAt(events, n, b, id)
  {
    hide Step, Inv;
    if ClaimsAt(events, n, b, id) {
      ClaimsAreTimely(StoreAt(events, n), Act(events, n).value, id);
    }
  }

  lemma {:induction false} BodiesAreExclusive(events: seq<Event>, n: nat, id: Id)
    requires ClaimsAreCurrent(events) && OwnOutcomes(events) && n <= |events|
    ensures Exclusive(events, n, id)
    decreases n
  {
    hide Step, Inv, Guarded, ClaimsAreCurrent, OwnOutcomes, ClaimsAt;
    if n == 0 {
      assert Live(Unfold(events[..0]), id) == {};
    } else {
      var k := n - 1;
      BodiesAreExclusive(events, k, id);
      var before, after := Live(Unfold(events[..k]), id), Live(Unfold(events[..n]), id);
      forall a, b | a in before && b in after && b !in before ensures false {
        LiveByClaim(events, k, b, id);
        GuardRefuses(events, k, a, b, id);
      }
      forall b | b in after ensures Guarded(events, n, b, id) {
        if b in before {
          GuardStays(events, k, b, id);
        } else {
          LiveByClaim(events, k, b, id);
          NewIsGuarded(events, k, b, id);
        }
      }
      forall a, b | a in after && b in after && a !in before && b !in before ensures a == b {
        LiveByClaim(events, k, a, id);
        LiveByClaim(events, k, b, id);
        OneClaimPerEvent(events, k, a, b, id);
      }
    }
  }

  lemma NewIsGuarded(events: seq<Event>, n: nat, b: BodyId, id: Id)
    requires ClaimsAt(events, n, b, id) && b in Unfold(events[..n + 1]).bodies
    ensures Guarded(events, n + 1, b, id)
  {
    hide Step, Inv, Claims;
    StoreMoves(events, n);
    BodyKeepsInvocation(Unfold(events[..n]), events[n], b);
    ClaimIsGuarded(StoreAt(events, n), Act(events, n).value, id);
  }

  lemma OneClaimPerEvent(events: seq<Event>, n: nat, a: BodyId, b: BodyId, id: Id)
    requires ClaimsAt(events, n, a, id) && ClaimsAt(events, n, b, id)
    ensures a == b
  {
  }

  /** If claims are current and outcomes are recorded by their own bodies, no two bodies are ever
      between claim and record of one operation at once. */
  lemma OneLiveBody(events: seq<Event>, id: Id, a: BodyId, b: BodyId)
    requires ClaimsAreCurrent(events) && OwnOutcomes(events)
    requires a in Live(Unfold(events), id) && b in Live(Unfold(events), id)
    ensures a == b
  {
    assert events[..|events|] == events;
    BodiesAreExclusive(events, |events|, id);
  }

  // ---------------------------------------------------------- both at once

  const TARGET: Request :=
    Request(1, 2, 3, 4, 5, 6, None, None, 2, 7, 8, EnforcedExclusive, 10)

  const REPLAY: Decision := Decision(ReplayOnce, 1, 2, 3, 4, 6, None, 8, 9, 11, 12, None)

  /** The operation through the run below: prepared and claimed at 5. */
  lemma PreparedAndClaimed()
    ensures var prepared := Start(EMPTY, TARGET, 5).0; var claimed := Claim(prepared, 1, 7, 5).0;
            && Start(EMPTY, TARGET, 5).1.IsPrepared? && Claim(prepared, 1, 7, 5).1.Claimed?
            && claimed.records == map[1 := Dispatched(ProviderModel.Fresh(TARGET, 5), 7, 5)] && claimed.active == [1]
            && claimed.consumed == map[]
  {
    assert Start(EMPTY, TARGET, 5).0.active == [1];
  }

  /** Expired at 10. */
  lemma ExpiredAtTen(s: Store)
    requires s.records == map[1 := Dispatched(ProviderModel.Fresh(TARGET, 5), 7, 5)] && s.active == [1]
    ensures var t := Watchdog(s, [], [], 10);
            t.records == map[1 := Expired(Dispatched(ProviderModel.Fresh(TARGET, 5), 7, 5), 10)]
              && t.consumed == s.consumed
  {
    hide Kept, OpenFences, Expired;
    assert 1 in s.active;
    assert 1 in Watched(s, [], []);
  }

  /** Replayed at 11, and then claimed with the time 6. */
  lemma ReplayedAtEleven(s: Store)
    requires s.records == map[1 := Expired(Dispatched(ProviderModel.Fresh(TARGET, 5), 7, 5), 10)] && s.consumed == map[]
    ensures Claim(ApplyDecision(s, REPLAY, true, 11).0, 1, 8, 6).1.Claimed?
  {
    assert Accepts(s, REPLAY, true, 11);
  }

  lemma TwoSpawned()
    ensures var y := Happen(Happen(IDLE, Spawn(1, TARGET, 7, 5)), Spawn(2, TARGET, 8, 6));
            && y.store == EMPTY
            && y.bodies == map[1 := Body(TARGET, 7, 5, Ready, 0, 0), 2 := Body(TARGET, 8, 6, Ready, 0, 0)]
  {
  }

  lemma FirstHolds(y: System)
    requires y.store == EMPTY
    requires y.bodies == map[1 := Body(TARGET, 7, 5, Ready, 0, 0), 2 := Body(TARGET, 8, 6, Ready, 0, 0)]
    ensures var z := Happen(Happen(Happen(y, BodyStart(1)), BodyStart(2)), BodyClaim(1));
            && z.store == Claim(Start(EMPTY, TARGET, 5).0, 1, 7, 5).0
            && z.bodies == map[1 := Body(TARGET, 7, 5, Holding, 1, 0), 2 := Body(TARGET, 8, 6, Started, 0, 0)]
  {
    hide Happen, Start, Claim;
    PreparedAndClaimed();
    StartsGoOn(y);
    ClaimGoesOn(Happen(Happen(y, BodyStart(1)), BodyStart(2)), 1);
  }

  lemma SecondHolds(y: System)
    requires y.store == Claim(Start(EMPTY, TARGET, 5).0, 1, 7, 5).0
    requires y.bodies == map[1 := Body(TARGET, 7, 5, Holding, 1, 0), 2 := Body(TARGET, 8, 6, Started, 0, 0)]
    ensures var z := Happen(Happen(Happen(y, Transaction(DoWatchdog([], [], 10))),
                                   Transaction(DoDecision(REPLAY, true, 11))), BodyClaim(2));
            z.bodies == map[1 := Body(TARGET, 7, 5, Holding, 1, 0), 2 := Body(TARGET, 8, 6, Holding, 1, 0)]
  {
    hide Happen, Start, Claim, Watchdog, ApplyDecision, Expired;
    PreparedAndClaimed();
    ExpiredAtTen(y.store);
    ReplayedAtEleven(Watchdog(y.store, [], [], 10));
    TransactionsLeaveBodies(y);
    ClaimGoesOn(Happen(Happen(y, Transaction(DoWatchdog([], [], 10))), Transaction(DoDecision(REPLAY, true, 11))), 2);
  }

  /** Body 1 claims at 5 and stands; a tick at 10 and a replay at 11 free the operation; body 2, which
      captured 6 and had seen it prepared, claims it beside body 1. */
  lemma TwoBodiesMayHold()
    ensures var events := [Spawn(1, TARGET, 7, 5), Spawn(2, TARGET, 8, 6), BodyStart(1), BodyStart(2), BodyClaim(1),
                           Transaction(DoWatchdog([], [], 10)), Transaction(DoDecision(REPLAY, true, 11)),
                             BodyClaim(2)];
            {1, 2} <= Holders(Unfold(events), 1)
  {
    hide Happen, Unfold, Start, Claim;
    TwoSpawned();
    var y2 := Happen(Happen(IDLE, Spawn(1, TARGET, 7, 5)), Spawn(2, TARGET, 8, 6));
    FirstHolds(y2);
    SecondHolds(Happen(Happen(Happen(y2, BodyStart(1)), BodyStart(2)), BodyClaim(1)));
    UnfoldEight([Spawn(1, TARGET, 7, 5), Spawn(2, TARGET, 8, 6), BodyStart(1), BodyStart(2), BodyClaim(1),
                 Transaction(DoWatchdog([], [], 10)), Transaction(DoDecision(REPLAY, true, 11)), BodyClaim(2)]);
  }

  /** Starting it again finds it prepared and changes nothing. */
  lemma AgainIsExisting()
    ensures var s := Start(EMPTY, TARGET, 5).0; var (t, reply) := Start(s, TARGET, 6);
            t == s && reply.IsExisting? && reply.op.status.Prepared?
  {
  }

  lemma StartGoesOn(y: System, b: BodyId)
    requires At(y, b, Ready)
    requires var reply := Start(y.store, y.bodies[b].request, y.bodies[b].now).1;
             reply.IsPrepared? || (reply.IsExisting? && reply.op.status.Prepared?)
    ensures var z := Happen(y, BodyStart(b)); var body := y.bodies[b];
            && z.store == Start(y.store, body.request, body.now).0
            && z.bodies == y.bodies[b := body.(stage := Started)]
  {
    hide Start;
  }

  lemma StartsGoOn(y: System)
    requires y.store == EMPTY
    requires y.bodies == map[1 := Body(TARGET, 7, 5, Ready, 0, 0), 2 := Body(TARGET, 8, 6, Ready, 0, 0)]
    ensures var z := Happen(Happen(y, BodyStart(1)), BodyStart(2));
            && z.store == Start(EMPTY, TARGET, 5).0
            && z.bodies == map[1 := Body(TARGET, 7, 5, Started, 0, 0), 2 := Body(TARGET, 8, 6, Started, 0, 0)]
  {
    hide Start, Happen;
    PreparedAndClaimed();
    AgainIsExisting();
    StartGoesOn(y, 1);
    StartGoesOn(Happen(y, BodyStart(1)), 2);
  }

  lemma ClaimGoesOn(y: System, b: BodyId)
    requires At(y, b, Started)
    requires var body := y.bodies[b]; Claim(y.store, body.request.operationId, body.invocation, body.now).1.Claimed?
    ensures var z := Happen(y, BodyClaim(b)); var body := y.bodies[b];
            && z.store == Claim(y.store, body.request.operationId, body.invocation, body.now).0
            && z.bodies == y.bodies[b := body.(stage := Holding, claims := body.claims + 1)]
  {
    hide Claim;
  }

  lemma TransactionsLeaveBodies(y: System)
    ensures var z := Happen(Happen(y, Transaction(DoWatchdog([], [], 10))), Transaction(DoDecision(REPLAY, true, 11)));
            && z.bodies == y.bodies
            && z.store == ApplyDecision(Watchdog(y.store, [], [], 10), REPLAY, true, 11).0
  {
    hide Watchdog, ApplyDecision;
  }

  lemma UnfoldEight(es: seq<Event>)
    requires |es| == 8
    ensures Unfold(es) == Happen(Happen(Happen(Happen(Happen(Happen(Happen(Happen(IDLE,
              es[0]), es[1]), es[2]), es[3]), es[4]), es[5]), es[6]), es[7])
  {
    hide Happen;
    assert Unfold(es[..0]) == IDLE;
    forall k | 0 <= k < 8 ensures Unfold(es[..k + 1]) == Happen(Unfold(es[..k]), es[k]) {
      assert es[..k + 1][..k] == es[..k];
    }
    assert es[..8] == es;
  }
}
