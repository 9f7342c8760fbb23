/** Which transaction moves which executor operation where: the complete table of status changes,
    in both directions, and exact admission. */
module ExecutorEdges {
  import opened Collections
  import opened ExecutorModel
  import opened ExecutorSafety
  import ExecutorProgress

  /** `c` moves operation `x`, recorded as `was`, to status `next`. */
  ghost predicate Edge(c: Command, x: Id, was: Record, next: Status) {
    match c
    case DoBegin(request, now) =>
      && x == request.operationId && was.status.TimedOut? && was.invocation.None? && next.Active?
      && ValidStart(request, now) && SameIdentity(was, request)
    case DoTimeout(id, invocation, now) =>
      x == id && was.status.Active? && was.invocation == Some(invocation) && next.TimedOut?
    case DoCancel(id, now) =>
      x == id && (was.status.Active? || was.status.TimedOut?) && next.CancelRequested?
    case DoComplete(id, invocation, ok, result, now) =>
      || (x == id && Holds(was.status) && was.invocation == Some(invocation)
        && next == if ok then Succeeded else Failed)
      || (x != id && was.status.Queued? && next.Active?)
    case DoWatchdog(now) =>
      || (was.status.Active? && next.TimedOut? && now >= was.request.deadlineAt)
      || ((was.status.TimedOut? || was.status.CancelRequested?) && next.NeedsReconciliation?
          && now >= was.request.deadlineAt + MAX_OPERATION_LIFETIME_MS)
      || (was.status.Queued? && next.Active?)
  }

  ghost predicate Unmoved(s: Store, t: Store, x: Id)
    requires x in s.records
  {
    x in t.records && t.records[x].status == s.records[x].status
  }

  /** Releasing lanes changes no status except from queued to active. */
  ghost predicate OnlyPromoted(s: Store, t: Store, x: Id)
    requires x in s.records
  {
    x in t.records && (t.records[x] == s.records[x] || (s.records[x].status.Queued? && t.records[x].status.Active?))
  }

  lemma ReleasePromotes(s: Store, id: Id, now: Time, x: Id)
    requires x in s.records
    ensures OnlyPromoted(s, ReleaseLane(s, id, now), x)
  {
    hide Earliest, Without;
  }

  lemma {:induction false} ReleaseAllPromotes(s: Store, done: seq<Id>, now: Time, x: Id)
    requires x in s.records
    ensures OnlyPromoted(s, ReleaseAll(s, done, now), x)
  {
    hide ReleaseLane;
    if done != [] {
      ReleaseAllPromotes(s, done[..|done| - 1], now, x);
      ReleasePromotes(ReleaseAll(s, done[..|done| - 1], now), done[|done| - 1], now, x);
    }
  }

  lemma WatchdogEdges(s: Store, now: Time, x: Id)
    requires x in s.records
    ensures var t := Watchdog(s, now);
            && x in t.records
            && (Unmoved(s, t, x) || Edge(DoWatchdog(now), x, s.records[x], t.records[x].status))
  {
    hide Dedup, Remaining, Terminalized, ReleaseAll;
    ReleaseAllPromotes(Sweep(s, now), Terminalized(s.records, Dedup(s.active), now), now, x);
  }

  lemma CompleteEdges(s: Store, c: Command, x: Id)
    requires x in s.records && c.DoComplete?
    ensures var t := Step(s, c); x in t.records && (Unmoved(s, t, x) || Edge(c, x, s.records[x], t.records[x].status))
  {
    hide Dedup, Without, ReleaseLane;
    if c.id in s.records && Holds(s.records[c.id].status) {
      var done := Finished(s.records[c.id], c.ok, c.now);
      var outcome := Outcome(if c.ok then OutcomeSucceeded else OutcomeFailed, c.now, c.result);
      var s1 := s.(outcomes := WriteOutcome(s.outcomes, c.id, c.invocation, outcome));
      ReleasePromotes(Retire(s1, c.id, done), c.id, c.now, x);
    }
  }

  /** No status changes without its cause. */
  lemma EdgesHaveCauses(s: Store, c: Command, x: Id)
    requires x in s.records
    ensures var t := Step(s, c); x in t.records && (Unmoved(s, t, x) || Edge(c, x, s.records[x], t.records[x].status))
  {
    hide Dedup, Watchdog, Complete, ReleaseLane;
    match c {
      case DoWatchdog(now) => WatchdogEdges(s, now, x);
      case DoComplete(_, _, _, _, _) => CompleteEdges(s, c, x);
      case _ =>
    }
  }

  lemma WatchdogActs(s: Store, now: Time, x: Id, next: Status)
    requires Inv(s) && x in s.records && !s.records[x].status.Queued? && Edge(DoWatchdog(now), x, s.records[x], next)
    ensures x in Watchdog(s, now).records && Watchdog(s, now).records[x].status == next
  {
    hide Dedup, Remaining, Terminalized, ReleaseAll, Distinct, Laned;
    assert x in Dedup(s.active);
    ReleaseAllPromotes(Sweep(s, now), Terminalized(s.records, Dedup(s.active), now), now, x);
  }

  lemma CompleteActs(s: Store, c: Command, next: Status)
    requires c.DoComplete? && c.id in s.records && !s.records[c.id].status.Queued?
             && Edge(c, c.id, s.records[c.id], next)
    ensures c.id in Step(s, c).records && Step(s, c).records[c.id].status == next
  {
    hide Dedup, Without, ReleaseLane;
    var done := Finished(s.records[c.id], c.ok, c.now);
    var outcome := Outcome(if c.ok then OutcomeSucceeded else OutcomeFailed, c.now, c.result);
    var s1 := s.(outcomes := WriteOutcome(s.outcomes, c.id, c.invocation, outcome));
    ReleasePromotes(Retire(s1, c.id, done), c.id, c.now, c.id);
  }

  /** And every cause takes effect on an operation that is not waiting in the queue. */
  lemma CausesTakeEffect(s: Store, c: Command, x: Id, next: Status)
    requires Inv(s) && x in s.records && !s.records[x].status.Queued? && Edge(c, x, s.records[x], next)
    ensures x in Step(s, c).records && Step(s, c).records[x].status == next
  {
    hide Inv, Dedup, Watchdog, Complete;
    match c {
      case DoWatchdog(now) => WatchdogActs(s, now, x, next);
      case DoComplete(_, _, _, _, _) =>
        CompleteActs(s, c, next);
      case _ =>
    }
  }

  /** Somebody executes exclusively in the lane. */
  ghost predicate LaneHeld(s: Store, lane: Digest) {
    exists x :: Owns(s, {}, x) && s.records[x].request.schedule == lane
  }

  /** A new operation is refused only for an untimely deadline or a full store; otherwise it
      starts at once, unless it is exclusive and its lane is held, and then it joins the queue last. */
  lemma AdmissionIsExact(s: Store, req: Request, now: Time)
    requires Inv(s) && req.operationId !in s.records
    ensures var (t, reply) := Begin(s, req, now);
            var id := req.operationId;
            if !(now < req.deadlineAt <= now + MAX_OPERATION_LIFETIME_MS) then t == s && reply == InvalidRequest
            else if |s.active| + |s.queue| >= MAX_ACTIVE_OPERATIONS then t == s && reply == Unavailable
            else
              && id in t.records && t.records[id].request == req && t.records[id].createdAt == now
              && (reply == if req.exclusive
                && LaneHeld(s, req.schedule)
                then Enqueued(t.records[id]) else Started(t.records[id]))
              && (t.records[id].status == if reply.Enqueued? then Queued else Active)
              && t.queue == (if reply.Enqueued? then s.queue + [id] else s.queue)
              && t.active == (if reply.Enqueued? then s.active else s.active + [id])
  {
    hide Dedup, Distinct;
    DedupOfDistinct(s.active);
    if req.schedule in s.lanes {
      assert Owns(s, {}, s.lanes[req.schedule]);
    }
  }

  // ------------------------------------------------------ first come first served

  /** `x` newly holds its lane in `t`. */
  ghost predicate TakesLane(s: Store, t: Store, x: Id) {
    && x in t.records && t.records[x].request.exclusive && Holds(t.records[x].status)
    && !(x in s.records && Holds(s.records[x].status))
  }

  /** Nothing queued in the lane of `x` was created strictly before it. */
  ghost predicate FirstInLine(t: Store, x: Id)
    requires x in t.records
  {
    forall q ::
      && q in t.records && t.records[q].status.Queued?
      && t.records[q].request.schedule == t.records[x].request.schedule ==>
      t.records[x].createdAt <= t.records[q].createdAt
  }

  /** A release leaves identities alone and queues nothing. */
  ghost predicate KeepsLines(s: Store, t: Store) {
    && t.records.Keys == s.records.Keys
    && forall x :: x in s.records ==>
         && t.records[x].request == s.records[x].request && t.records[x].createdAt == s.records[x].createdAt
         && (t.records[x].status.Queued? ==> s.records[x].status.Queued?)
  }

  lemma ReleaseKeepsLines(s: Store, id: Id, now: Time)
    ensures KeepsLines(s, ReleaseLane(s, id, now))
  {
    hide Earliest, Without;
  }

  /** The operation a release promotes is first in its line. */
  lemma PromotedIsFirst(s: Store, id: Id, now: Time, x: Id)
    requires Indexed(s) && TakesLane(s, ReleaseLane(s, id, now), x)
    ensures FirstInLine(ReleaseLane(s, id, now), x)
  {
    hide Earliest, Without, Distinct;
    ReleaseKeepsLines(s, id, now);
    var t := ReleaseLane(s, id, now);
    var lane := s.records[id].request.schedule;
    forall q | q in t.records && t.records[q].status.Queued?
      && t.records[q].request.schedule == t.records[x].request.schedule
      ensures t.records[x].createdAt <= t.records[q].createdAt
    {
      assert q in s.queue && q !in s.active;
    }
  }

  lemma LinesKeepFirst(s: Store, t: Store, x: Id)
    requires KeepsLines(s, t) && x in s.records && FirstInLine(s, x)
    ensures FirstInLine(t, x)
  {
  }

  lemma LinesKeepExclusive(s: Store, t: Store, x: Id)
    requires KeepsLines(s, t) && x in t.records
    ensures x in s.records && s.records[x].request == t.records[x].request
  {
  }

  lemma {:induction false} ReleaseAllIsFair(s: Store, done: seq<Id>, now: Time, x: Id)
    requires Indexed(s) && TakesLane(s, ReleaseAll(s, done, now), x)
    ensures FirstInLine(ReleaseAll(s, done, now), x)
  {
    hide Indexed, ReleaseLane, FirstInLine, KeepsLines;
    if done != [] {
      var front, last := done[..|done| - 1], done[|done| - 1];
      var t := ReleaseAll(s, front, now);
      ExecutorProgress.ReleaseAllLowersWeight(s, front, now);
      if TakesLane(s, t, x) {
        ReleaseAllIsFair(s, front, now, x);
        ReleaseKeepsLines(t, last, now);
        LinesKeepFirst(t, ReleaseLane(t, last, now), x);
      } else {
        ReleaseKeepsLines(t, last, now);
        assert TakesLane(t, ReleaseLane(t, last, now), x) by { LinesKeepExclusive(t, ReleaseLane(t, last, now), x); }
        PromotedIsFirst(t, last, now, x);
      }
    }
  }

  lemma QueuedLaneIsBusy(s: Store, q: Id)
    requires Inv(s) && q in s.records && s.records[q].status.Queued?
    ensures LaneBusy(s, s.records[q].request.schedule)
  {
    assert q in s.queue;
    assert Owns(s, {}, s.lanes[s.records[q].request.schedule]);
  }

  lemma AdmittedIsFirst(s: Store, req: Request, now: Time)
    requires Inv(s) && req.operationId !in s.records && TakesLane(s, Begin(s, req, now).0, req.operationId)
    ensures FirstInLine(Begin(s, req, now).0, req.operationId)
  {
    hide Dedup, Distinct;
    DedupOfDistinct(s.active);
    forall q | q in s.records && s.records[q].status.Queued?
      ensures s.records[q].request.schedule != req.schedule
    {
      QueuedLaneIsBusy(s, q);
    }
  }

  lemma WatchdogIsFair(s: Store, now: Time, x: Id)
    requires Inv(s) && TakesLane(s, Watchdog(s, now), x)
    ensures FirstInLine(Watchdog(s, now), x)
  {
    hide Dedup, Remaining, Terminalized, ReleaseAll, Indexed, Laned;
    SweepIndexes(s, now);
    assert !(x in Sweep(s, now).records && Holds(Sweep(s, now).records[x].status));
    ReleaseAllIsFair(Sweep(s, now), Terminalized(s.records, Dedup(s.active), now), now, x);
  }

  lemma CompleteIsFair(s: Store, c: Command, x: Id)
    requires Inv(s) && c.DoComplete? && TakesLane(s, Step(s, c), x)
    ensures FirstInLine(Step(s, c), x)
  {
    hide Dedup, Without, ReleaseLane, Indexed, Laned, FirstInLine;
    if c.id in s.records && Holds(s.records[c.id].status) && s.records[c.id].invocation == Some(c.invocation) {
      var done := Finished(s.records[c.id], c.ok, c.now);
      var outcome := Outcome(if c.ok then OutcomeSucceeded else OutcomeFailed, c.now, c.result);
      var outcomes := WriteOutcome(s.outcomes, c.id, c.invocation, outcome);
      OutcomesAreIrrelevant(s, outcomes, {});
      var s1 := s.(outcomes := outcomes);
      RetireIndexes(s1, c.id, done);
      PromotedIsFirst(Retire(s1, c.id, done), c.id, c.now, x);
    }
  }

  /** Whatever the clock does, no exclusive operation comes to hold its lane while one of the same
      lane that was created strictly earlier is queued. */
  lemma NoneIsOvertaken(s: Store, c: Command, x: Id)
    requires Inv(s) && TakesLane(s, Step(s, c), x)
    ensures FirstInLine(Step(s, c), x)
  {
    hide Inv, Complete, Watchdog, FirstInLine, Dedup;
    match c {
      case DoBegin(request, now) => AdmittedIsFirst(s, request, now);
      case DoComplete(_, _, _, _, _) => CompleteIsFair(s, c, x);
      case DoWatchdog(now) => WatchdogIsFair(s, now, x);
      case _ =>
    }
  }

  /** Over whole runs: the step that gives x its lane passes over nobody who waited longer. */
  lemma NoOvertakingAtAnyStep(commands: seq<Command>, c: Command, x: Id)
    requires TakesLane(Run(EMPTY, commands), Run(EMPTY, commands + [c]), x)
    ensures FirstInLine(Run(EMPTY, commands + [c]), x)
  {
    hide Step, Inv, FirstInLine, TakesLane;
    assert (commands + [c])[..|commands|] == commands;
    ExecutorProgress.EmptyKeepsInv(commands);
    NoneIsOvertaken(Run(EMPTY, commands), c, x);
  }
}
