/** Counting over whole runs: attempts are claims, claims are paid for by the first start and by
    applied replay decisions, and a nonce acts once. */
module ProviderAttempts {
  import opened Collections
  import opened ProviderModel
  import opened ProviderSafety

  predicate Claims(s: Store, c: Command, id: Id) {
    c.DoClaim? && c.id == id && Claim(s, c.id, c.invocation, c.now).1.Claimed?
  }

  predicate Replays(s: Store, c: Command, id: Id) {
    c.DoDecision? && c.decision.operationId == id && c.decision.action.ReplayOnce?
      && Accepts(s, c.decision, c.trusted, c.now)
  }

  predicate Consumes(s: Store, c: Command, nonce: Token) {
    c.DoDecision? && c.decision.nonce == nonce && Accepts(s, c.decision, c.trusted, c.now)
  }

  function One(b: bool): nat {
    if b then 1 else 0
  }

  function ClaimCount(commands: seq<Command>, id: Id): nat {
    if commands == [] then 0
    else
      var front := commands[..|commands| - 1];
      ClaimCount(front, id) + One(Claims(Run(EMPTY, front), commands[|commands| - 1], id))
  }

  function ReplayCount(commands: seq<Command>, id: Id): nat {
    if commands == [] then 0
    else
      var front := commands[..|commands| - 1];
      ReplayCount(front, id) + One(Replays(Run(EMPTY, front), commands[|commands| - 1], id))
  }

  function NonceCount(commands: seq<Command>, nonce: Token): nat {
    if commands == [] then 0
    else
      var front := commands[..|commands| - 1];
      NonceCount(front, nonce) + One(Consumes(Run(EMPTY, front), commands[|commands| - 1], nonce))
  }

  function AttemptOf(s: Store, id: Id): nat {
    if id in s.records then s.records[id].attempt else 0
  }

  /** Claims made plus the claim a prepared operation may still make. */
  function Budget(s: Store, id: Id): nat {
    if id in s.records then s.records[id].attempt + One(s.records[id].status.Prepared?) else 0
  }

  predicate Replayable(s: Store, id: Id) {
    id in s.records && (s.records[id].request.capability.EnforcedExclusive?
      || s.records[id].request.capability.OwnerRiskGate?)
  }

  lemma SettledCounts(s: Store, x: Id, rec: Record, id: Id)
    requires x in s.records && rec.attempt == s.records[x].attempt && SameRequest(s.records[x].request, rec.request)
    requires rec.status.Prepared? ==> s.records[x].status.Prepared?
    ensures var t := Settle(s, x, rec);
            AttemptOf(t, id) == AttemptOf(s, id) && Budget(t, id) <= Budget(s, id)
              && (Replayable(t, id) <==> Replayable(s, id))
  {
  }

  /** What one step does to an operation's attempt, budget and replayability. */
  ghost predicate Accounted(s: Store, c: Command, id: Id) {
    var t := Step(s, c);
    && AttemptOf(t, id) == AttemptOf(s, id) + One(Claims(s, c, id))
    && (id in s.records ==>
      Budget(t, id) <= Budget(s, id) + One(Replays(s, c, id)) && (Replayable(t, id) <==> Replayable(s, id)))
    && (id !in s.records ==> Budget(t, id) <= 1 && !Replays(s, c, id))
    && (Replays(s, c, id) ==> Replayable(s, id))
  }

  lemma StartAccounted(s: Store, c: Command, id: Id)
    requires c.DoStart?
    ensures Accounted(s, c, id)
  {
    if id in s.records {
      StartEvolves(s, c.request, c.now, id);
    }
  }

  lemma ClaimAccounted(s: Store, c: Command, id: Id)
    requires c.DoClaim?
    ensures Accounted(s, c, id)
  {
    hide Without, SameRequest;
    if c.id in s.records && s.records[c.id].status.Prepared? {
      var rec := s.records[c.id];
      var blocked, late := ClaimFailure(rec, CapabilityBlocked, c.now), ClaimFailure(rec, DeadlinePassed, c.now);
      assert SameRequest(rec.request, blocked.request)
        && SameRequest(rec.request, late.request) by { SameRequestIsReflexive(rec.request); }
      if rec.request.capability.Blocked? {
        SettledCounts(s, c.id, blocked, id);
      } else if c.now >= rec.request.deadlineAt {
        SettledCounts(s, c.id, late, id);
      }
    }
  }

  lemma SameRequestIsReflexive(r: Request)
    ensures SameRequest(r, r)
  {
  }

  lemma OutcomeAccounted(s: Store, c: Command, id: Id)
    requires c.DoOutcome?
    ensures Accounted(s, c, id)
  {
    if c.id in s.records {
      SettledCounts(s.(outcomes := s.outcomes[(c.id, c.invocation) := c.response]), c.id,
        WithOutcome(s.records[c.id], c.response, c.now), id);
    }
  }

  lemma DecisionAccounted(s: Store, c: Command, id: Id)
    requires c.DoDecision?
    ensures Accounted(s, c, id)
  {
    var d := c.decision;
    if Accepts(s, d, c.trusted, c.now) && !d.action.ReplayOnce? {
      var s1 := s.(consumed := s.consumed[d.nonce := Consumption(d.operationId, d.action, c.now)]);
      SettledCounts(s1, d.operationId, Decide(s.records[d.operationId], d, c.now).value, id);
    }
  }

  lemma VerifyAccounted(s: Store, c: Command, id: Id)
    requires c.DoVerify?
    ensures Accounted(s, c, id)
  {
    if c.id in s.records {
      var rec := s.records[c.id];
      var next := Verified(rec, c.verification, c.now);
      SettledCounts(s, c.id, next, id);
      var key := (rec.request.target, rec.request.targetDigest, rec.request.fingerprint);
      var entry := LastSuccess(c.id, rec.request.generation, rec.request.sourceDigest, c.verification.oid, c.now);
      SettledCounts(s.(lastSuccess := s.lastSuccess[key := entry]), c.id, next, id);
    }
  }

  lemma StepAccounted(s: Store, c: Command, id: Id)
    ensures Accounted(s, c, id)
  {
    match c
    case DoStart(_, _) => StartAccounted(s, c, id);
    case DoClaim(_, _, _) => ClaimAccounted(s, c, id);
    case DoOutcome(_, _, _, _) => OutcomeAccounted(s, c, id);
    case DoDecision(_, _, _) => DecisionAccounted(s, c, id);
    case DoVerify(_, _, _) => VerifyAccounted(s, c, id);
    case DoWatchdog(_, _, _) =>
  }

  lemma {:induction false} RunAccounted(commands: seq<Command>, id: Id)
    ensures var s := Run(EMPTY, commands);
            && AttemptOf(s, id) == ClaimCount(commands, id)
            && Budget(s, id) <= 1 + ReplayCount(commands, id)
            && (ReplayCount(commands, id) > 0 ==> Replayable(s, id))
  {
    if commands != [] {
      var front := commands[..|commands| - 1];
      RunAccounted(front, id);
      StepAccounted(Run(EMPTY, front), commands[|commands| - 1], id);
    }
  }

  /** `attempt` counts the successful claims; only applied replays buy a second one, a native
      compare-and-swap never gets it, and a blocked operation is never claimed at all. */
  lemma AttemptsAreBounded(commands: seq<Command>, id: Id)
    requires id in Run(EMPTY, commands).records
    ensures var rec := Run(EMPTY, commands).records[id];
            && rec.attempt == ClaimCount(commands, id)
            && rec.attempt <= 1 + ReplayCount(commands, id)
            && (rec.request.capability.NativeCas? ==> rec.attempt <= 1)
            && (rec.request.capability.Blocked? ==> rec.attempt == 0)
  {
    RunAccounted(commands, id);
    RunKeepsInv(EMPTY, commands);
  }

  /** Every successful claim happens strictly before the operation's deadline. */
  lemma ClaimsAreTimely(s: Store, c: Command, id: Id)
    requires Claims(s, c, id)
    ensures id in s.records && s.records[id].status.Prepared? && c.now < s.records[id].request.deadlineAt
    ensures !s.records[id].request.capability.Blocked?
  {
  }

  /** Later commands leave what a record was asked for alone. */
  lemma {:induction false} RequestIsFixed(commands: seq<Command>, i: nat, n: nat, id: Id)
    requires i <= n <= |commands| && id in Run(EMPTY, commands[..i]).records
    ensures var s, t := Run(EMPTY, commands[..i]), Run(EMPTY, commands[..n]);
            id in t.records && Evolves(s.records[id], t.records[id])
    decreases n
  {
    hide Step, Evolves, Inv;
    if n == i {
      StaysEvolves(Run(EMPTY, commands[..i]).records[id]);
    } else {
      RequestIsFixed(commands, i, n - 1, id);
      assert commands[..n][..n - 1] == commands[..n - 1];
      var s, t := Run(EMPTY, commands[..n - 1]), Run(EMPTY, commands[..n]);
      ReachableIsConsistent(commands[..n - 1]);
      StepEvolves(s, commands[n - 1], id);
      EvolvesOnward(Run(EMPTY, commands[..i]).records[id], s.records[id], t.records[id]);
    }
  }

  /** Every claim of a run carries a time strictly before the deadline that its operation shows for
      the rest of the run, and a blocked operation is never claimed. */
  lemma ClaimsMeetTheDeadline(commands: seq<Command>, i: nat, id: Id)
    requires i < |commands| && Claims(Run(EMPTY, commands[..i]), commands[i], id)
    ensures var s := Run(EMPTY, commands);
            && id in s.records && commands[i].now < s.records[id].request.deadlineAt
            && !s.records[id].request.capability.Blocked?
  {
    hide Claims;
    ClaimsAreTimely(Run(EMPTY, commands[..i]), commands[i], id);
    assert commands[..|commands|] == commands;
    RequestIsFixed(commands, i, |commands|, id);
  }

  lemma StepConsumes(s: Store, c: Command, nonce: Token)
    ensures nonce in Step(s, c).consumed <==> nonce in s.consumed || Consumes(s, c, nonce)
    ensures Consumes(s, c, nonce) ==> nonce !in s.consumed
  {
  }

  lemma {:induction false} RunConsumes(commands: seq<Command>, nonce: Token)
    ensures NonceCount(commands, nonce) == One(nonce in Run(EMPTY, commands).consumed)
  {
    if commands != [] {
      var front := commands[..|commands| - 1];
      RunConsumes(front, nonce);
      StepConsumes(Run(EMPTY, front), commands[|commands| - 1], nonce);
    }
  }

  /** A decision nonce takes effect at most once in any run. */
  lemma NonceActsOnce(commands: seq<Command>, nonce: Token)
    ensures NonceCount(commands, nonce) <= 1
  {
    RunConsumes(commands, nonce);
  }
}
