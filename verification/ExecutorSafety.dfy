/** What every interleaving of executor transactions keeps: index, queue and lanes agree with
    the records, each lane runs one exclusive operation, and queued work never waits alone. */
module ExecutorSafety {
  import opened Collections
  import opened ExecutorModel

  /** The index is exactly the executing operations and the queue exactly the queued ones. */
  ghost predicate Indexed(s: Store) {
    && Distinct(s.active) && Distinct(s.queue)
    && (forall id :: id in s.records ==> s.records[id].request.operationId == id)
    && (forall id :: id in s.active <==> id in s.records && Holds(s.records[id].status))
    && (forall id :: id in s.queue <==> id in s.records && s.records[id].status.Queued?)
    && |s.active| + |s.queue| <= MAX_ACTIVE_OPERATIONS
  }

  /** An operation that owns its lane: it executes, or it is in `done`, stopped but not released. */
  ghost predicate Owns(s: Store, done: set<Id>, id: Id) {
    id in s.records && s.records[id].request.exclusive && (Holds(s.records[id].status) || id in done)
  }

  /** Lane keys and lane owners name each other, and queued work waits behind an owner. */
  ghost predicate Laned(s: Store, done: set<Id>) {
    && (forall id :: Owns(s, done, id) ==>
          s.records[id].request.schedule in s.lanes && s.lanes[s.records[id].request.schedule] == id)
    && (forall lane :: lane in s.lanes ==>
          Owns(s, done, s.lanes[lane]) && s.records[s.lanes[lane]].request.schedule == lane)
    && (forall id :: id in s.queue && id in s.records ==>
          s.records[id].request.exclusive && s.records[id].request.schedule in s.lanes)
  }

  ghost predicate Inv(s: Store) {
    Indexed(s) && Laned(s, {})
  }

  // ------------------------------------------------- steps on one record

  /** Rewriting an executing record as an executing record of the same request keeps everything. */
  lemma RewriteHolder(s: Store, id: Id, rec: Record)
    requires Inv(s)
    requires id in s.records && Holds(s.records[id].status)
    requires rec.request == s.records[id].request && Holds(rec.status)
    ensures Inv(s.(records := s.records[id := rec]))
  {
    var t := s.(records := s.records[id := rec]);
    assert forall x :: Owns(t, {}, x) <==> Owns(s, {}, x);
  }

  lemma ResumeKeepsInv(s: Store, id: Id, invocation: Id, now: Time)
    requires Inv(s)
    requires id in s.records && Holds(s.records[id].status)
    ensures Inv(Resume(s, id, invocation, now))
  {
    var rec := s.records[id];
    RewriteHolder(s, id, Resumed(rec, invocation, now));
    if rec.request.exclusive {
      assert Owns(s, {}, id);
      assert s.lanes[rec.request.schedule := id] == s.lanes;
    }
    assert id in Dedup(s.active);
  }

  lemma AdmitIndexes(s: Store, req: Request, now: Time)
    requires Inv(s)
    requires req.operationId !in s.records
    requires |s.active| + |s.queue| < MAX_ACTIVE_OPERATIONS
    ensures Indexed(Admit(s, req, now))
  {
    hide Dedup, Distinct;
    DedupOfDistinct(s.active);
    if !req.exclusive || !LaneBusy(s, req.schedule) {
      DistinctSnoc(s.active, req.operationId);
    } else {
      DistinctSnoc(s.queue, req.operationId);
    }
  }

  /** A new operation that starts takes its lane, which no owner holds. */
  lemma StartLanes(s: Store, t: Store, id: Id, rec: Record)
    requires Laned(s, {}) && id !in s.records && id !in s.queue && Holds(rec.status)
    requires t.records == s.records[id := rec] && t.queue == s.queue
    requires rec.request.exclusive ==> rec.request.schedule !in s.lanes
    requires t.lanes == if rec.request.exclusive then s.lanes[rec.request.schedule := id] else s.lanes
    ensures Laned(t, {})
  {
    assert forall x :: x != id ==> (Owns(t, {}, x) <==> Owns(s, {}, x));
  }

  /** A new operation that waits does so behind the owner of its lane. */
  lemma QueueLanes(s: Store, t: Store, id: Id, rec: Record)
    requires Laned(s, {}) && id !in s.records && rec.status.Queued?
    requires rec.request.exclusive && rec.request.schedule in s.lanes
    requires t.records == s.records[id := rec] && t.queue == s.queue + [id] && t.lanes == s.lanes
    ensures Laned(t, {})
  {
    assert forall x :: Owns(t, {}, x) <==> Owns(s, {}, x);
  }

  lemma AdmitLanes(s: Store, req: Request, now: Time)
    requires Laned(s, {})
    requires req.operationId !in s.records && req.operationId !in s.queue
    ensures Laned(Admit(s, req, now), {})
  {
    hide Dedup;
    var t := Admit(s, req, now);
    var id := req.operationId;
    if req.exclusive && req.schedule in s.lanes {
      assert Owns(s, {}, s.lanes[req.schedule]);
      QueueLanes(s, t, id, t.records[id]);
    } else {
      StartLanes(s, t, id, t.records[id]);
    }
  }

  lemma BeginKeepsInv(s: Store, req: Request, now: Time)
    requires Inv(s)
    ensures Inv(Begin(s, req, now).0)
  {
    hide Dedup, Admit, Resume, Laned;
    var id := req.operationId;
    DedupOfDistinct(s.active);
    if id in s.records {
      if Holds(s.records[id].status) {
        ResumeKeepsInv(s, id, req.invocationId, now);
      }
    } else if |s.active| + |s.queue| < MAX_ACTIVE_OPERATIONS {
      AdmitIndexes(s, req, now);
      AdmitLanes(s, req, now);
    }
  }

  lemma OutcomesAreIrrelevant(s: Store, outcomes: map<(Id, Id), Outcome>, done: set<Id>)
    requires Indexed(s) && Laned(s, done)
    ensures Indexed(s.(outcomes := outcomes)) && Laned(s.(outcomes := outcomes), done)
  {
    var t := s.(outcomes := outcomes);
    assert forall x :: Owns(t, done, x) <==> Owns(s, done, x);
  }

  lemma RecordTimeoutKeepsInv(s: Store, id: Id, invocation: Id, now: Time)
    requires Inv(s)
    ensures Inv(RecordTimeout(s, id, invocation, now).0)
  {
    if id in s.records {
      var outcomes := WriteOutcome(s.outcomes, id, invocation, Outcome(OutcomeTimedOut, now, None));
      var s1 := s.(outcomes := outcomes);
      OutcomesAreIrrelevant(s, outcomes, {});
      if s.records[id].status.Active? {
        RewriteHolder(s1, id, InvocationTimedOut(s.records[id], now));
      }
    }
  }

  lemma RequestCancelKeepsInv(s: Store, id: Id, now: Time)
    requires Inv(s)
    ensures Inv(RequestCancel(s, id, now).0)
  {
    if id in s.records && Holds(s.records[id].status) {
      RewriteHolder(s, id, Cancelling(s.records[id], now));
    }
  }

  // ------------------------------------------------------------- release

  lemma PromoteIndexes(s: Store, id: Id, lane: Digest, now: Time)
    requires Indexed(s) && id in s.queue
    ensures Indexed(Promote(s, id, lane, now))
    ensures |Promote(s, id, lane, now).queue| == |s.queue| - 1
  {
    WithoutDistinct(s.queue, id);
    DistinctSnoc(s.active, id);
  }

  /** The freed lane goes to a queued operation of that lane. */
  lemma PromoteLanes(s: Store, done: set<Id>, id: Id, lane: Digest, now: Time)
    requires Indexed(s)
    requires lane !in s.lanes
    requires forall x :: Owns(s, done, x) ==>
                           s.records[x].request.schedule in s.lanes && s.lanes[s.records[x].request.schedule] == x
    requires forall l :: l in s.lanes ==> Owns(s, done, s.lanes[l]) && s.records[s.lanes[l]].request.schedule == l
    requires forall x :: x in s.queue && x in s.records ==>
                           s.records[x].request.exclusive
                             && (s.records[x].request.schedule in s.lanes || s.records[x].request.schedule == lane)
    requires id in s.queue && id !in done && s.records[id].request.schedule == lane
    ensures Laned(Promote(s, id, lane, now), done)
  {
    var t := Promote(s, id, lane, now);
    assert forall x :: x != id ==> (Owns(t, done, x) <==> Owns(s, done, x));
  }

  /** The lane of a stopped operation is handed on: `id` leaves the unreleased set. */
  lemma ReleaseKeepsInv(s: Store, done: set<Id>, id: Id, now: Time)
    requires Indexed(s) && Laned(s, done)
    requires id in done && id in s.records && !Holds(s.records[id].status)
    requires forall x :: x in done && x in s.records ==> !s.records[x].status.Queued?
    ensures Indexed(ReleaseLane(s, id, now)) && Laned(ReleaseLane(s, id, now), done - {id})
  {
    hide Earliest, Without, Distinct;
    var rest := done - {id};
    if s.records[id].request.exclusive {
      var lane := s.records[id].request.schedule;
      assert Owns(s, done, id);
      var s1 := s.(lanes := s.lanes - {lane});
      assert forall x :: Owns(s1, rest, x) <==> x != id && Owns(s, done, x);
      var next := Earliest(s1, s1.queue, lane);
      if next.Some? {
        PromoteIndexes(s1, next.value, lane, now);
        PromoteLanes(s1, rest, next.value, lane, now);
      } else {
        assert forall x :: x in s.queue ==> x !in s1.active;
        assert forall x :: x in s1.queue ==> !Candidate(s1, x, lane);
      }
    } else {
      assert forall x :: Owns(s, rest, x) <==> Owns(s, done, x);
    }
  }

  /** Stopping an executing operation leaves it as the one unreleased lane owner. */
  lemma RetireIndexes(s: Store, id: Id, rec: Record)
    requires Indexed(s)
    requires id in s.records && Holds(s.records[id].status)
    requires rec.request == s.records[id].request && Terminal(rec.status)
    ensures Indexed(Retire(s, id, rec))
  {
    hide Dedup, Without, Distinct;
    DedupOfDistinct(s.active);
    WithoutDistinct(s.active, id);
  }

  lemma RetireKeepsInv(s: Store, id: Id, rec: Record)
    requires Inv(s)
    requires id in s.records && Holds(s.records[id].status)
    requires rec.request == s.records[id].request && Terminal(rec.status)
    ensures Indexed(Retire(s, id, rec)) && Laned(Retire(s, id, rec), {id})
  {
    hide Dedup, Without, Distinct, Indexed;
    RetireIndexes(s, id, rec);
    var t := Retire(s, id, rec);
    assert forall x :: Owns(t, {id}, x) <==> Owns(s, {}, x);
  }

  lemma CompleteKeepsInv(s: Store, id: Id, invocation: Id, ok: bool, result: Option<Digest>, now: Time)
    requires Inv(s)
    ensures Inv(Complete(s, id, invocation, ok, result, now).0)
  {
    if id in s.records && Holds(s.records[id].status) && s.records[id].invocation == Some(invocation) {
      var done := Finished(s.records[id], ok, now);
      var outcome := Outcome(if ok then OutcomeSucceeded else OutcomeFailed, now, result);
      var outcomes := WriteOutcome(s.outcomes, id, invocation, outcome);
      OutcomesAreIrrelevant(s, outcomes, {});
      var s1 := s.(outcomes := outcomes);
      RetireKeepsInv(s1, id, done);
      ReleaseKeepsInv(Retire(s1, id, done), {id}, id, now);
      assert {id} - {id} == {};
    }
  }

  // ------------------------------------------------------------ watchdog

  lemma {:induction false} RemainingDistinct(records: map<Id, Record>, ids: seq<Id>, now: Time)
    requires Distinct(ids)
    ensures Distinct(Remaining(records, ids, now)) && |Remaining(records, ids, now)| <= |ids|
  {
    if ids != [] {
      RemainingDistinct(records, ids[..|ids| - 1], now);
      assert ids[|ids| - 1] !in ids[..|ids| - 1];
    }
  }

  lemma SweepIndexes(s: Store, now: Time)
    requires Inv(s)
    ensures Indexed(Sweep(s, now))
  {
    hide Dedup, Remaining, Distinct, Laned;
    DedupOfDistinct(s.active);
    RemainingDistinct(s.records, s.active, now);
  }

  /** The sweep stops some operations; exactly those are lane owners awaiting release. */
  lemma SweepLanes(s: Store, now: Time, done: set<Id>)
    requires Inv(s)
    requires forall x :: x in done <==> x in Terminalized(s.records, Dedup(s.active), now)
    ensures Laned(Sweep(s, now), done)
  {
    hide Dedup, Distinct, Remaining, Terminalized;
    var t := Sweep(s, now);
    forall x ensures Owns(t, done, x) <==> Owns(s, {}, x) {
      if x in s.records {
        assert t.records[x].request == s.records[x].request;
      }
    }
  }

  ghost function Ids(s: seq<Id>): set<Id> {
    set x | x in s
  }

  lemma ReleaseKeepsTerminal(s: Store, id: Id, now: Time)
    ensures var t := ReleaseLane(s, id, now);
            forall x :: x in s.records && Terminal(s.records[x].status) ==>
              x in t.records && t.records[x] == s.records[x]
  {
    hide Earliest, Without;
  }

  lemma {:induction false} ReleaseAllKeepsInv(s: Store, done: seq<Id>, pending: set<Id>, now: Time)
    requires Indexed(s) && Laned(s, Ids(done) + pending)
    requires Distinct(done) && Ids(done) !! pending
    requires forall x :: x in Ids(done) + pending ==> x in s.records && Terminal(s.records[x].status)
    ensures Indexed(ReleaseAll(s, done, now)) && Laned(ReleaseAll(s, done, now), pending)
    ensures forall x :: x in s.records && Terminal(s.records[x].status) ==>
                          x in ReleaseAll(s, done, now).records && ReleaseAll(s, done, now).records[x] == s.records[x]
  {
    hide Indexed, Laned, ReleaseLane;
    if done == [] {
      assert Ids(done) + pending == pending;
    } else {
      var front, last := done[..|done| - 1], done[|done| - 1];
      assert done == front + [last];
      assert last !in front;
      assert Ids(front) + (pending + {last}) == Ids(done) + pending;
      ReleaseAllKeepsInv(s, front, pending + {last}, now);
      var t := ReleaseAll(s, front, now);
      ReleaseKeepsInv(t, pending + {last}, last, now);
      ReleaseKeepsTerminal(t, last, now);
      assert pending + {last} - {last} == pending;
    }
  }

  lemma {:induction false} TerminalizedDistinct(records: map<Id, Record>, ids: seq<Id>, now: Time)
    requires Distinct(ids)
    ensures Distinct(Terminalized(records, ids, now))
  {
    if ids != [] {
      TerminalizedDistinct(records, ids[..|ids| - 1], now);
      assert ids[|ids| - 1] !in ids[..|ids| - 1];
    }
  }

  lemma StoppedAreTerminal(s: Store, now: Time, x: Id)
    requires x in Terminalized(s.records, Dedup(s.active), now)
    ensures x in Sweep(s, now).records && Terminal(Sweep(s, now).records[x].status)
  {
    hide Dedup, Terminalized, Remaining;
  }

  lemma WatchdogKeepsInv(s: Store, now: Time)
    requires Inv(s)
    ensures Inv(Watchdog(s, now))
  {
    hide Indexed, Laned, Dedup, Terminalized, Sweep, ReleaseAll, Distinct, Terminal;
    var done := Terminalized(s.records, Dedup(s.active), now);
    TerminalizedDistinct(s.records, Dedup(s.active), now);
    SweepIndexes(s, now);
    SweepLanes(s, now, Ids(done));
    assert Ids(done) + {} == Ids(done);
    forall x | x in Ids(done) ensures x in Sweep(s, now).records && Terminal(Sweep(s, now).records[x].status) {
      StoppedAreTerminal(s, now, x);
    }
    ReleaseAllKeepsInv(Sweep(s, now), done, {}, now);
  }

  // ---------------------------------------------------------------- runs

  lemma StepKeepsInv(s: Store, c: Command)
    requires Inv(s)
    ensures Inv(Step(s, c))
  {
    match c
    case DoBegin(request, now) => BeginKeepsInv(s, request, now);
    case DoTimeout(id, invocation, now) => RecordTimeoutKeepsInv(s, id, invocation, now);
    case DoComplete(id, invocation, ok, result, now) => CompleteKeepsInv(s, id, invocation, ok, result, now);
    case DoCancel(id, now) => RequestCancelKeepsInv(s, id, now);
    case DoWatchdog(now) => WatchdogKeepsInv(s, now);
  }

  /** Every reachable store satisfies the invariant. */
  lemma {:induction false} RunKeepsInv(s: Store, commands: seq<Command>)
    requires Inv(s)
    ensures Inv(Run(s, commands))
  {
    if commands != [] {
      RunKeepsInv(s, commands[..|commands| - 1]);
      StepKeepsInv(Run(s, commands[..|commands| - 1]), commands[|commands| - 1]);
    }
  }

  /** The scheduler's promise, spelled out over every run from the empty store. */
  lemma ReachableStoreIsConsistent(commands: seq<Command>)
    ensures var s := Run(EMPTY, commands);
            && (forall id :: id in s.active <==> id in s.records && Holds(s.records[id].status))
            && (forall id :: id in s.queue <==> id in s.records && s.records[id].status.Queued?)
            && |s.active| + |s.queue| <= MAX_ACTIVE_OPERATIONS
            && (forall a, b :: Owns(s, {}, a) && Owns(s, {}, b) ==>
                  s.records[a].request.schedule == s.records[b].request.schedule ==> a == b)
            && (forall lane :: lane in s.lanes ==>
                  Owns(s, {}, s.lanes[lane]) && s.records[s.lanes[lane]].request.schedule == lane)
            && (forall id :: id in s.records && s.records[id].status.Queued? ==>
                  s.records[id].request.schedule in s.lanes)
  {
    RunKeepsInv(EMPTY, commands);
  }
}
