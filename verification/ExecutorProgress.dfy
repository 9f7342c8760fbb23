/** Progress and fairness of the executor scheduler: alarms, draining by watchdog ticks alone,
    first-come-first-served lanes, and the finality of terminal records. */
module ExecutorProgress {
  import opened Collections
  import opened ExecutorModel
  import opened ExecutorSafety

  // ---------------------------------------------------- terminal records

  lemma {:induction false} ReleaseAllKeepsSettled(s: Store, done: seq<Id>, now: Time, x: Id)
    requires x in s.records && !s.records[x].status.Queued?
    ensures x in ReleaseAll(s, done, now).records && ReleaseAll(s, done, now).records[x] == s.records[x]
  {
    hide Earliest, Without;
    if done != [] {
      ReleaseAllKeepsSettled(s, done[..|done| - 1], now, x);
    }
  }

  lemma WatchdogKeepsTerminal(s: Store, now: Time, x: Id)
    requires x in s.records && Terminal(s.records[x].status)
    ensures x in Watchdog(s, now).records && Watchdog(s, now).records[x] == s.records[x]
  {
    hide Dedup, Terminalized, Remaining, ReleaseAll;
    var t := Sweep(s, now);
    assert t.records[x] == s.records[x];
    ReleaseAllKeepsSettled(t, Terminalized(s.records, Dedup(s.active), now), now, x);
  }

  lemma CompleteKeepsTerminal(s: Store, id: Id, invocation: Id, ok: bool, result: Option<Digest>, now: Time, x: Id)
    requires x in s.records && Terminal(s.records[x].status)
    ensures var t := Complete(s, id, invocation, ok, result, now).0; x in t.records && t.records[x] == s.records[x]
  {
    hide Dedup, Without, Earliest;
  }

  /** No transaction rewrites a terminal record. */
  lemma TerminalIsFinal(s: Store, c: Command, x: Id)
    requires x in s.records && Terminal(s.records[x].status)
    ensures x in Step(s, c).records && Step(s, c).records[x] == s.records[x]
  {
    hide Watchdog, Complete, Dedup;
    match c {
      case DoWatchdog(now) => WatchdogKeepsTerminal(s, now, x);
      case DoComplete(id, invocation, ok, result, now) => CompleteKeepsTerminal(s, id, invocation, ok, result, now, x);
      case _ =>
    }
  }

  // -------------------------------------------------------------- alarms

  /** `alarm` is the least due time over `ids`, absent exactly when there are none. */
  ghost predicate LeastDue(records: map<Id, Record>, ids: seq<Id>, alarm: Option<Time>) {
    && (alarm.None? <==> ids == [])
    && (forall id :: id in ids && id in records && alarm.Some? ==> alarm.value <= AlarmAt(records[id]))
    && (alarm.Some? ==> exists id :: id in ids && id in records && AlarmAt(records[id]) == alarm.value)
  }

  // -------------------------------------------------------------- weight

  function Weight(rec: Record): nat {
    match rec.status
    case Queued => 3
    case Active => 2
    case TimedOut => 1
    case CancelRequested => 1
    case _ => 0
  }

  function IndexWeight(records: map<Id, Record>, ids: seq<Id>): nat {
    if ids == [] then 0
    else
      var id := ids[|ids| - 1];
      IndexWeight(records, ids[..|ids| - 1]) + if id in records then Weight(records[id]) else 0
  }

  /** Everything the scheduler still has to see through: the index and the queue. */
  function StoreWeight(s: Store): nat {
    IndexWeight(s.records, s.active) + IndexWeight(s.records, s.queue)
  }

  /** The clock is past every deadline still in play, grace period included. */
  ghost predicate PastAll(s: Store, now: Time) {
    forall id :: id in s.records && (id in s.active || id in s.queue) ==> TerminalDeadline(s.records[id]) <= now
  }

  lemma {:induction false} IndexWeightFrame(a: map<Id, Record>, b: map<Id, Record>, ids: seq<Id>)
    requires forall id :: id in ids ==> (id in a <==> id in b) && (id in a && id in b ==> a[id] == b[id])
    ensures IndexWeight(a, ids) == IndexWeight(b, ids)
  {
    if ids != [] {
      IndexWeightFrame(a, b, ids[..|ids| - 1]);
    }
  }

  lemma {:induction false} IndexWeightWithout(records: map<Id, Record>, ids: seq<Id>, x: Id)
    requires Distinct(ids) && x in ids && x in records
    ensures IndexWeight(records, Without(ids, x)) + Weight(records[x]) == IndexWeight(records, ids)
  {
    var front, last := ids[..|ids| - 1], ids[|ids| - 1];
    assert ids == front + [last];
    if last == x {
      assert x !in front;
      WithoutAbsent(front, x);
    } else {
      IndexWeightWithout(records, front, x);
      var rest := Without(front, x);
      assert (rest + [last])[..|rest|] == rest;
    }
  }

  lemma {:induction false} WithoutAbsent(ids: seq<Id>, x: Id)
    requires x !in ids
    ensures Without(ids, x) == ids
  {
    if ids != [] {
      WithoutAbsent(ids[..|ids| - 1], x);
      assert ids == ids[..|ids| - 1] + [ids[|ids| - 1]];
    }
  }

  /** A promotion trades a queued operation of weight 3 for an active one of weight 2. */
  lemma PromoteLowersWeight(s: Store, id: Id, lane: Digest, now: Time)
    requires Indexed(s) && id in s.queue
    ensures StoreWeight(Promote(s, id, lane, now)) < StoreWeight(s)
  {
    var t := Promote(s, id, lane, now);
    IndexWeightWithout(s.records, s.queue, id);
    IndexWeightFrame(s.records, t.records, Without(s.queue, id));
    IndexWeightFrame(s.records, t.records, s.active);
    assert t.active[..|t.active| - 1] == s.active;
  }

  lemma ReleaseLowersWeight(s: Store, id: Id, now: Time)
    requires Indexed(s)
    ensures StoreWeight(ReleaseLane(s, id, now)) <= StoreWeight(s)
    ensures Indexed(ReleaseLane(s, id, now))
  {
    if id in s.records && s.records[id].request.exclusive {
      var lane := s.records[id].request.schedule;
      var s1 := if lane in s.lanes && s.lanes[lane] == id then s.(lanes := s.lanes - {lane}) else s;
      var next := Earliest(s1, s1.queue, lane);
      if next.Some? {
        PromoteLowersWeight(s1, next.value, lane, now);
        PromoteIndexes(s1, next.value, lane, now);
      }
    }
  }

  lemma {:induction false} ReleaseAllLowersWeight(s: Store, done: seq<Id>, now: Time)
    requires Indexed(s)
    ensures StoreWeight(ReleaseAll(s, done, now)) <= StoreWeight(s)
    ensures Indexed(ReleaseAll(s, done, now))
  {
    if done != [] {
      ReleaseAllLowersWeight(s, done[..|done| - 1], now);
      ReleaseLowersWeight(ReleaseAll(s, done[..|done| - 1], now), done[|done| - 1], now);
    }
  }

  lemma SweptLosesOne(rec: Record, now: Time)
    requires Holds(rec.status) && TerminalDeadline(rec) <= now
    ensures Weight(Swept(rec, now)) + 1 == Weight(rec)
    ensures !Holds(Swept(rec, now).status) ==> Weight(rec) == 1
  {
  }

  /** Past its deadlines every indexed operation loses exactly one unit of weight. */
  lemma {:induction false} SweepLowersIndex(records: map<Id, Record>, swept: map<Id, Record>, ids: seq<Id>, now: Time)
    requires forall id :: id in ids ==>
             id in records && Holds(records[id].status) && TerminalDeadline(records[id]) <= now
    requires forall id :: id in ids ==> id in swept && swept[id] == Swept(records[id], now)
    ensures IndexWeight(swept, Remaining(records, ids, now)) + |ids| == IndexWeight(records, ids)
  {
    if ids != [] {
      var front, x := ids[..|ids| - 1], ids[|ids| - 1];
      SweepLowersIndex(records, swept, front, now);
      SweptLosesOne(records[x], now);
      var rest := Remaining(records, front, now);
      assert (rest + [x])[..|rest|] == rest;
    }
  }

  lemma SweepLowersWeight(s: Store, now: Time)
    requires Inv(s) && PastAll(s, now)
    ensures StoreWeight(Sweep(s, now)) + |s.active| == StoreWeight(s)
  {
    DedupOfDistinct(s.active);
    SweepLowersIndex(s.records, SweptRecords(s.records, s.active, now), s.active, now);
    IndexWeightFrame(s.records, Sweep(s, now).records, s.queue);
  }

  /** A tick past every deadline lowers the weight by at least the size of the index. */
  lemma TickLowersWeight(s: Store, now: Time)
    requires Inv(s) && PastAll(s, now)
    ensures StoreWeight(Watchdog(s, now)) + |s.active| <= StoreWeight(s)
  {
    SweepLowersWeight(s, now);
    SweepIndexes(s, now);
    ReleaseAllLowersWeight(Sweep(s, now), Terminalized(s.records, Dedup(s.active), now), now);
  }

  /** Releasing lanes moves operations from the queue to the index and changes no deadline. */
  ghost predicate SamePool(s: Store, t: Store) {
    forall id :: id in t.records && (id in t.active || id in t.queue) ==>
      id in s.records && (id in s.active || id in s.queue) && t.records[id].request == s.records[id].request
  }

  lemma ReleaseKeepsPool(s: Store, id: Id, now: Time)
    ensures SamePool(s, ReleaseLane(s, id, now))
  {
    hide Earliest, Without;
  }

  lemma {:induction false} ReleaseAllKeepsPool(s: Store, done: seq<Id>, now: Time)
    ensures SamePool(s, ReleaseAll(s, done, now))
  {
    hide ReleaseLane;
    if done != [] {
      var front := ReleaseAll(s, done[..|done| - 1], now);
      ReleaseAllKeepsPool(s, done[..|done| - 1], now);
      ReleaseKeepsPool(front, done[|done| - 1], now);
    }
  }

  lemma TickKeepsPastAll(s: Store, now: Time, later: Time)
    requires PastAll(s, later)
    ensures PastAll(Watchdog(s, now), later)
  {
    var done := Terminalized(s.records, Dedup(s.active), now);
    ReleaseAllKeepsPool(Sweep(s, now), done, now);
    assert SamePool(s, Sweep(s, now));
  }

  /** Queued work always waits behind an indexed lane owner. */
  lemma QueueNeedsIndex(s: Store)
    requires Inv(s)
    ensures s.queue != [] ==> s.active != []
  {
    if s.queue != [] {
      var first := s.queue[0];
      assert first in s.queue;
      var owner := s.lanes[s.records[first].request.schedule];
      assert Owns(s, {}, owner);
      assert owner in s.active;
    }
  }

  lemma IndexIsHeavy(s: Store)
    requires Indexed(s)
    ensures s.active != [] ==> StoreWeight(s) > 0
  {
    if s.active != [] {
      assert s.active[|s.active| - 1] in s.active;
    }
  }

  ghost function Ticks(nows: seq<Time>): (commands: seq<Command>)
    ensures |commands| == |nows| && forall i :: 0 <= i < |nows| ==> commands[i] == DoWatchdog(nows[i])
  {
    seq(|nows|, i requires 0 <= i < |nows| => DoWatchdog(nows[i]))
  }

  lemma {:induction false} TicksLowerWeight(s: Store, nows: seq<Time>)
    requires Inv(s) && forall i :: 0 <= i < |nows| ==> PastAll(s, nows[i])
    ensures Inv(Run(s, Ticks(nows)))
    ensures forall later :: PastAll(s, later) ==> PastAll(Run(s, Ticks(nows)), later)
    ensures Run(s, Ticks(nows)).active == [] || StoreWeight(Run(s, Ticks(nows))) + |nows| <= StoreWeight(s)
  {
    if nows != [] {
      var front, now := nows[..|nows| - 1], nows[|nows| - 1];
      TicksLowerWeight(s, front);
      assert Ticks(nows)[..|nows| - 1] == Ticks(front);
      var t := Run(s, Ticks(front));
      StepKeepsInv(t, DoWatchdog(now));
      TickLowersWeight(t, now);
      forall later | PastAll(t, later) ensures PastAll(Watchdog(t, now), later) {
        TickKeepsPastAll(t, now, later);
      }
      if t.active == [] {
        QueueNeedsIndex(t);
        assert Watchdog(t, now).active == [];
      }
    }
  }

  /** Watchdog ticks alone empty index and queue once the clock has passed every deadline: as
      many ticks as the store weighs always suffice. */
  lemma TicksDrainTheStore(commands: seq<Command>, nows: seq<Time>)
    requires forall i :: 0 <= i < |nows| ==> PastAll(Run(EMPTY, commands), nows[i])
    requires |nows| >= StoreWeight(Run(EMPTY, commands))
    ensures var t := Run(Run(EMPTY, commands), Ticks(nows)); t.active == [] && t.queue == []
  {
    var s := Run(EMPTY, commands);
    RunKeepsInv(EMPTY, commands);
    TicksLowerWeight(s, nows);
    var t := Run(s, Ticks(nows));
    IndexIsHeavy(t);
    QueueNeedsIndex(t);
  }

  // ---------------------------------------------------------- first come

  /** Nothing was created after `clock`, and every lane owner is at least as old as its queue. */
  ghost predicate FirstCome(s: Store, clock: Time) {
    && (forall id :: id in s.records ==> s.records[id].createdAt <= clock)
    && (forall id :: id in s.queue && id in s.records && s.records[id].request.schedule in s.lanes
                     && s.lanes[s.records[id].request.schedule] in s.records ==>
          s.records[s.lanes[s.records[id].request.schedule]].createdAt <= s.records[id].createdAt)
  }

  lemma AdmitFirstCome(s: Store, req: Request, now: Time)
    requires Inv(s) && FirstCome(s, now) && req.operationId !in s.records
    ensures FirstCome(Admit(s, req, now), now)
  {
    hide Dedup, Distinct;
    var t := Admit(s, req, now);
    if req.exclusive && req.schedule in s.lanes {
      assert Owns(s, {}, s.lanes[req.schedule]);
    }
    forall q | q in t.queue && q in t.records && t.records[q].request.schedule in t.lanes
               && t.lanes[t.records[q].request.schedule] in t.records
      ensures t.records[t.lanes[t.records[q].request.schedule]].createdAt <= t.records[q].createdAt
    {
      if q in s.queue {
        assert q in s.records && s.records[q].request.schedule in s.lanes;
        assert Owns(s, {}, s.lanes[s.records[q].request.schedule]);
      }
    }
  }

  lemma ResumeFirstCome(s: Store, id: Id, invocation: Id, now: Time)
    requires Inv(s) && FirstCome(s, now)
    requires id in s.records && Holds(s.records[id].status)
    ensures FirstCome(Resume(s, id, invocation, now), now)
  {
    var rec := s.records[id];
    if rec.request.exclusive {
      assert Owns(s, {}, id);
      assert s.lanes[rec.request.schedule := id] == s.lanes;
    }
    assert Resume(s, id, invocation, now).lanes == s.lanes;
  }

  lemma BeginFirstCome(s: Store, req: Request, now: Time)
    requires Inv(s) && FirstCome(s, now)
    ensures FirstCome(Begin(s, req, now).0, now)
  {
    if req.operationId !in s.records {
      AdmitFirstCome(s, req, now);
    } else if Holds(s.records[req.operationId].status) {
      ResumeFirstCome(s, req.operationId, req.invocationId, now);
    }
  }

  lemma SweepFirstCome(s: Store, now: Time, clock: Time)
    requires FirstCome(s, clock)
    ensures FirstCome(Sweep(s, now), clock)
  {
    var t := Sweep(s, now);
    assert forall x :: x in s.records ==>
        t.records[x].createdAt == s.records[x].createdAt && t.records[x].request == s.records[x].request;
  }

  lemma ReleaseFirstCome(s: Store, id: Id, now: Time, clock: Time)
    requires Indexed(s) && FirstCome(s, clock)
    ensures FirstCome(ReleaseLane(s, id, now), clock)
  {
    hide Distinct, Without, Earliest;
    var t := ReleaseLane(s, id, now);
    forall q | q in t.queue && q in t.records && t.records[q].request.schedule in t.lanes
               && t.lanes[t.records[q].request.schedule] in t.records
      ensures t.records[t.lanes[t.records[q].request.schedule]].createdAt <= t.records[q].createdAt
    {
      assert q in s.queue;
    }
  }

  lemma {:induction false} ReleaseAllFirstCome(s: Store, done: seq<Id>, now: Time, clock: Time)
    requires Indexed(s) && FirstCome(s, clock)
    ensures FirstCome(ReleaseAll(s, done, now), clock)
  {
    if done != [] {
      ReleaseAllFirstCome(s, done[..|done| - 1], now, clock);
      ReleaseAllLowersWeight(s, done[..|done| - 1], now);
      ReleaseFirstCome(ReleaseAll(s, done[..|done| - 1], now), done[|done| - 1], now, clock);
    }
  }

  lemma RetireFirstCome(s: Store, id: Id, rec: Record, outcomes: map<(Id, Id), Outcome>, clock: Time)
    requires FirstCome(s, clock) && id in s.records
    requires rec.request == s.records[id].request && rec.createdAt == s.records[id].createdAt
    ensures FirstCome(Retire(s.(outcomes := outcomes), id, rec), clock)
  {
    hide Dedup, Without;
  }

  lemma CompleteFirstCome(s: Store, id: Id, invocation: Id, ok: bool, result: Option<Digest>, now: Time, clock: Time)
    requires Inv(s) && FirstCome(s, clock)
    ensures FirstCome(Complete(s, id, invocation, ok, result, now).0, clock)
  {
    hide FirstCome, Indexed, Laned, Retire, ReleaseLane, WriteOutcome;
    if id in s.records && Holds(s.records[id].status) && s.records[id].invocation == Some(invocation) {
      var done := Finished(s.records[id], ok, now);
      var outcome := Outcome(if ok then OutcomeSucceeded else OutcomeFailed, now, result);
      var outcomes := WriteOutcome(s.outcomes, id, invocation, outcome);
      OutcomesAreIrrelevant(s, outcomes, {});
      var s1 := s.(outcomes := outcomes);
      RetireKeepsInv(s1, id, done);
      RetireFirstCome(s, id, done, outcomes, clock);
      ReleaseFirstCome(Retire(s1, id, done), id, now, clock);
    }
  }

  lemma WatchdogFirstCome(s: Store, now: Time, clock: Time)
    requires Inv(s) && FirstCome(s, clock)
    ensures FirstCome(Watchdog(s, now), clock)
  {
    SweepIndexes(s, now);
    SweepFirstCome(s, now, clock);
    ReleaseAllFirstCome(Sweep(s, now), Terminalized(s.records, Dedup(s.active), now), now, clock);
  }

  ghost predicate Ordered(commands: seq<Command>) {
    forall i, j :: 0 <= i <= j < |commands| ==> commands[i].now <= commands[j].now
  }

  function Clock(commands: seq<Command>): Time {
    if commands == [] then 0 else commands[|commands| - 1].now
  }

  lemma StepFirstCome(s: Store, c: Command)
    requires Inv(s) && FirstCome(s, c.now)
    ensures FirstCome(Step(s, c), c.now)
  {
    hide Inv, Begin, Complete, Watchdog;
    match c
    case DoBegin(request, now) => BeginFirstCome(s, request, now);
    case DoComplete(id, invocation, ok, result, now) => CompleteFirstCome(s, id, invocation, ok, result, now, now);
    case DoWatchdog(now) => WatchdogFirstCome(s, now, now);
    case DoTimeout(_, _, _) =>
    case DoCancel(_, _) =>
  }

  lemma {:induction false} RunFirstCome(commands: seq<Command>)
    requires Ordered(commands)
    ensures FirstCome(Run(EMPTY, commands), Clock(commands))
  {
    hide Inv, Step;
    if commands != [] {
      var front, c := commands[..|commands| - 1], commands[|commands| - 1];
      RunFirstCome(front);
      EmptyKeepsInv(front);
      var s := Run(EMPTY, front);
      assert Clock(front) <= c.now;
      assert FirstCome(s, c.now);
      StepFirstCome(s, c);
    }
  }

  lemma EmptyKeepsInv(commands: seq<Command>)
    ensures Inv(Run(EMPTY, commands))
  {
    RunKeepsInv(EMPTY, commands);
  }

  /** Under a nondecreasing clock no exclusive operation executes while an operation of the same
      lane that was created strictly earlier is still queued. */
  lemma NoOvertaking(commands: seq<Command>, runner: Id, waiting: Id)
    requires Ordered(commands)
    requires var s := Run(EMPTY, commands);
             && Owns(s, {}, runner) && waiting in s.records && s.records[waiting].status.Queued?
             && s.records[runner].request.schedule == s.records[waiting].request.schedule
    ensures var s := Run(EMPTY, commands); s.records[runner].createdAt <= s.records[waiting].createdAt
  {
    RunKeepsInv(EMPTY, commands);
    RunFirstCome(commands);
  }
}
