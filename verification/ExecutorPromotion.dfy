/** Exactly when a queued operation is promoted: when the step stops the holder of its lane and no
    other operation queued there precedes it. */
module ExecutorPromotion {
  import opened Collections
  import opened ExecutorModel
  import opened ExecutorSafety
  import opened ExecutorEdges
  import ExecutorProgress

  ghost predicate InLine(s: Store, q: Id, lane: Digest) {
    q in s.records && s.records[q].status.Queued? && s.records[q].request.schedule == lane
  }

  /** No other operation queued in its lane precedes `x`, by creation time and then identifier. */
  ghost predicate Next(s: Store, x: Id)
    requires x in s.records
  {
    forall q :: InLine(s, q, s.records[x].request.schedule) && q != x ==> Precedes(s, x, q)
  }

  /** Two stores with the same operations queued in the lane of `x` agree on who is next. */
  lemma SameLineSameNext(s: Store, t: Store, x: Id)
    requires x in s.records && x in t.records
    requires t.records[x].request == s.records[x].request && t.records[x].createdAt == s.records[x].createdAt
    requires forall q: Id :: InLine(s, q, s.records[x].request.schedule) <==>
             InLine(t, q, s.records[x].request.schedule)
    requires forall q: Id :: q in s.records && q in t.records ==> t.records[q].createdAt == s.records[q].createdAt
    ensures Next(s, x) <==> Next(t, x)
  {
  }

  /** One release promotes exactly the next of the lane it frees. */
  lemma ReleaseExactly(s: Store, id: Id, now: Time, x: Id)
    requires Indexed(s) && id in s.records && !s.records[id].status.Queued?
    requires x in s.records && s.records[x].status.Queued?
    ensures var t := ReleaseLane(s, id, now);
            && x in t.records
            && (t.records[x].status.Active? <==>
                  s.records[id].request.exclusive && s.records[id].request.schedule == s.records[x].request.schedule
                  && Next(s, x))
            && (!t.records[x].status.Active? ==> t.records[x] == s.records[x])
  {
    hide Without, Distinct;
    var lane := s.records[id].request.schedule;
    if s.records[id].request.exclusive {
      var s1 := if lane in s.lanes && s.lanes[lane] == id then s.(lanes := s.lanes - {lane}) else s;
      assert x in s.queue && forall q: Id :: InLine(s, q, lane) <==> q in s1.queue && Candidate(s1, q, lane);
      EarliestIsNext(s1, lane, x);
    }
  }

  lemma EarliestIsNext(s: Store, lane: Digest, x: Id)
    requires x in s.records
    requires forall q: Id :: InLine(s, q, lane) <==> q in s.queue && Candidate(s, q, lane)
    ensures InLine(s, x, lane) ==> (Earliest(s, s.queue, lane) == Some(x) <==> Next(s, x))
    ensures Earliest(s, s.queue, lane) == Some(x) ==> InLine(s, x, lane)
  {
    var best := Earliest(s, s.queue, lane);
    if InLine(s, x, lane) {
      assert best.Some? && InLine(s, best.value, lane);
    }
  }

  /** The stopped operations: recorded, not queued, and no two of them exclusive in one lane. */
  ghost predicate OneEach(s: Store, done: seq<Id>) {
    && (forall i :: 0 <= i < |done| ==> done[i] in s.records && !s.records[done[i]].status.Queued?)
    && forall i, j ::
         && 0 <= i < j < |done|
         && s.records[done[i]].request.exclusive && s.records[done[j]].request.exclusive ==>
         s.records[done[i]].request.schedule != s.records[done[j]].request.schedule
  }

  /** One of the stopped operations held `lane`. */
  ghost predicate Frees(s: Store, done: seq<Id>, lane: Digest)
    requires OneEach(s, done)
  {
    exists i :: 0 <= i < |done| && s.records[done[i]].request.exclusive && s.records[done[i]].request.schedule == lane
  }

  ghost predicate PromotedOr(s: Store, t: Store, x: Id, promoted: bool)
    requires x in s.records
  {
    x in t.records && (t.records[x].status.Active? <==> promoted) && (!promoted ==> t.records[x] == s.records[x])
  }

  /** A series of releases promotes exactly the next of every lane it frees. */
  lemma {:induction false} ReleaseAllExactly(s: Store, done: seq<Id>, now: Time, x: Id)
    requires Indexed(s) && OneEach(s, done) && x in s.records && s.records[x].status.Queued?
    ensures PromotedOr(s, ReleaseAll(s, done, now), x, Frees(s, done, s.records[x].request.schedule) && Next(s, x))
  {
    hide Indexed, ReleaseLane, Next;
    if done != [] {
      var front, last := done[..|done| - 1], done[|done| - 1];
      var lane := s.records[x].request.schedule;
      var t := ReleaseAll(s, front, now);
      assert OneEach(s, front);
      assert Frees(s, done, lane) <==>
          Frees(s, front, lane) || (s.records[last].request.exclusive && s.records[last].request.schedule == lane);
      ReleaseAllExactly(s, front, now, x);
      ExecutorProgress.ReleaseAllLowersWeight(s, front, now);
      ExecutorProgress.ReleaseAllKeepsSettled(s, front, now, last);
      if t.records[x].status.Active? {
        ReleasePromotes(t, last, now, x);
      } else {
        ReleaseExactly(t, last, now, x);
        if s.records[last].request.exclusive && s.records[last].request.schedule == lane {
          UnfreedLineStays(s, front, now, x);
        }
      }
    }
  }

  /** Releases in other lanes leave the line of `x` alone. */
  lemma {:induction false} UnfreedLineStays(s: Store, done: seq<Id>, now: Time, x: Id)
    requires Indexed(s) && OneEach(s, done) && x in s.records && s.records[x].status.Queued?
    requires !Frees(s, done, s.records[x].request.schedule)
    ensures x in ReleaseAll(s, done, now).records && (Next(ReleaseAll(s, done, now), x) <==> Next(s, x))
    decreases |done|, 1
  {
    hide Indexed, ReleaseAll, Next;
    var lane := s.records[x].request.schedule;
    var t := ReleaseAll(s, done, now);
    AllKeepLines(s, done, now);
    forall q: Id | InLine(s, q, lane) ensures InLine(t, q, lane) {
      UnfreedStays(s, done, now, q);
    }
    UnfreedStays(s, done, now, x);
    SameLineSameNext(s, t, x);
  }

  /** A queued operation whose lane is not freed is left alone. */
  lemma {:induction false} UnfreedStays(s: Store, done: seq<Id>, now: Time, q: Id)
    requires Indexed(s) && OneEach(s, done) && q in s.records && s.records[q].status.Queued?
    requires !Frees(s, done, s.records[q].request.schedule)
    ensures q in ReleaseAll(s, done, now).records && ReleaseAll(s, done, now).records[q] == s.records[q]
    decreases |done|, 0
  {
    hide Indexed, ReleaseLane, Next;
    if done != [] {
      var front, last := done[..|done| - 1], done[|done| - 1];
      assert OneEach(s, front);
      UnfreedStays(s, front, now, q);
      ExecutorProgress.ReleaseAllLowersWeight(s, front, now);
      ExecutorProgress.ReleaseAllKeepsSettled(s, front, now, last);
      ReleaseExactly(ReleaseAll(s, front, now), last, now, q);
    }
  }

  lemma {:induction false} AllKeepLines(s: Store, done: seq<Id>, now: Time)
    ensures KeepsLines(s, ReleaseAll(s, done, now))
  {
    hide ReleaseLane;
    if done != [] {
      AllKeepLines(s, done[..|done| - 1], now);
      ReleaseKeepsLines(ReleaseAll(s, done[..|done| - 1], now), done[|done| - 1], now);
    }
  }

  // ---------------------------------------------------------------- steps

  /** The step stops `h`, the exclusive holder of `lane`. */
  ghost predicate StopsHolder(s: Store, t: Store, h: Id, lane: Digest) {
    && Owns(s, {}, h) && s.records[h].request.schedule == lane
    && h in t.records && !Holds(t.records[h].status)
  }

  ghost predicate PromotedAsStopped(s: Store, t: Store, x: Id)
    requires x in s.records
  {
    && x in t.records
    && (t.records[x].status.Active? <==>
      (exists h :: StopsHolder(s, t, h, s.records[x].request.schedule)) && Next(s, x))
  }

  lemma CompletePromotes(s: Store, c: Command, x: Id)
    requires Inv(s) && c.DoComplete? && x in s.records && s.records[x].status.Queued?
    requires c.id in s.records && Holds(s.records[c.id].status) && s.records[c.id].invocation == Some(c.invocation)
    ensures PromotedAsStopped(s, Step(s, c), x)
  {
    hide Dedup, Without, ReleaseLane, Indexed, Laned, Next;
    var done := Finished(s.records[c.id], c.ok, c.now);
    var outcome := Outcome(if c.ok then OutcomeSucceeded else OutcomeFailed, c.now, c.result);
    var outcomes := WriteOutcome(s.outcomes, c.id, c.invocation, outcome);
    OutcomesAreIrrelevant(s, outcomes, {});
    var s1 := s.(outcomes := outcomes);
    RetireIndexes(s1, c.id, done);
    var r := Retire(s1, c.id, done);
    SameLineSameNext(s, r, x);
    ReleaseExactly(r, c.id, c.now, x);
    ReleaseKeepsTerminal(r, c.id, c.now);
    var t := Step(s, c);
    assert t == ReleaseLane(r, c.id, c.now);
    var lane := s.records[x].request.schedule;
    if s.records[c.id].request.exclusive && s.records[c.id].request.schedule == lane {
      assert StopsHolder(s, t, c.id, lane);
    }
    forall h: Id | StopsHolder(s, t, h, lane) ensures h == c.id {
      EdgesHaveCauses(s, c, h);
    }
  }

  lemma SweptLineStays(s: Store, now: Time, x: Id)
    requires Inv(s) && x in s.records && s.records[x].status.Queued?
    ensures var t := Sweep(s, now); x in t.records && t.records[x] == s.records[x] && (Next(s, x) <==> Next(t, x))
  {
    hide Dedup, Remaining, Next, Laned;
    SameLineSameNext(s, Sweep(s, now), x);
  }

  lemma StoppedAreApart(s: Store, now: Time)
    requires Inv(s)
    ensures OneEach(Sweep(s, now), Terminalized(s.records, Dedup(s.active), now))
  {
    hide Dedup, Remaining, Terminalized;
    var done := Terminalized(s.records, Dedup(s.active), now);
    TerminalizedDistinct(s.records, Dedup(s.active), now);
    forall i | 0 <= i < |done| ensures done[i] in s.records && Holds(s.records[done[i]].status) {
      assert done[i] in done;
    }
    forall i, j | 0 <= i < j < |done| && s.records[done[i]].request.exclusive && s.records[done[j]].request.exclusive
      ensures s.records[done[i]].request.schedule != s.records[done[j]].request.schedule
    {
      assert Owns(s, {}, done[i]) && Owns(s, {}, done[j]);
    }
    forall i | 0 <= i < |done|
      ensures done[i] in Sweep(s, now).records && !Sweep(s, now).records[done[i]].status.Queued?
    {
      StoppedAreTerminal(s, now, done[i]);
    }
  }

  /** A tick stops exactly the operations it hands to reconciliation. */
  lemma TickStops(s: Store, now: Time, h: Id)
    requires Inv(s) && h in s.records && Holds(s.records[h].status)
    ensures var t := Watchdog(s, now);
            h in t.records && (!Holds(t.records[h].status) <==> h in Terminalized(s.records, Dedup(s.active), now))
  {
    hide Dedup, Remaining, Terminalized, ReleaseAll, Laned;
    assert h in Dedup(s.active);
    var u := Sweep(s, now);
    ExecutorProgress.ReleaseAllKeepsSettled(u, Terminalized(s.records, Dedup(s.active), now), now, h);
  }

  lemma WatchdogPromotes(s: Store, now: Time, x: Id)
    requires Inv(s) && x in s.records && s.records[x].status.Queued?
    ensures PromotedAsStopped(s, Watchdog(s, now), x)
  {
    hide Dedup, Remaining, Terminalized, ReleaseAll, Indexed, Laned, Next, Sweep;
    var u, done := Sweep(s, now), Terminalized(s.records, Dedup(s.active), now);
    var t, lane := Watchdog(s, now), s.records[x].request.schedule;
    StoppedAreApart(s, now);
    SweepIndexes(s, now);
    SweptLineStays(s, now, x);
    SweepKeepsRequests(s, now);
    ReleaseAllExactly(u, done, now, x);
    if Frees(u, done, lane) {
      var i :| 0 <= i < |done| && u.records[done[i]].request.exclusive && u.records[done[i]].request.schedule == lane;
      assert done[i] in done;
      TickStops(s, now, done[i]);
      assert StopsHolder(s, t, done[i], lane);
    }
    forall h: Id | StopsHolder(s, t, h, lane) ensures Frees(u, done, lane) {
      TickStops(s, now, h);
      var i :| 0 <= i < |done| && done[i] == h;
    }
  }

  lemma SweepKeepsRequests(s: Store, now: Time)
    ensures Sweep(s, now).records.Keys == s.records.Keys
    ensures forall x :: x in s.records ==> Sweep(s, now).records[x].request == s.records[x].request
  {
    hide Dedup, Remaining;
  }

  /** The other transactions stop no holder and promote nobody. */
  lemma QuietStep(s: Store, c: Command, x: Id)
    requires Inv(s) && x in s.records && s.records[x].status.Queued?
    requires !c.DoWatchdog? && !c.DoComplete?
    ensures PromotedAsStopped(s, Step(s, c), x)
  {
    hide Step, Inv, Next;
    var t := Step(s, c);
    EdgesHaveCauses(s, c, x);
    forall h: Id | h in s.records && Holds(s.records[h].status) ensures h in t.records && Holds(t.records[h].status) {
      EdgesHaveCauses(s, c, h);
    }
  }

  lemma IdleComplete(s: Store, c: Command, x: Id)
    requires c.DoComplete? && x in s.records && s.records[x].status.Queued?
    requires !(c.id in s.records && Holds(s.records[c.id].status) && s.records[c.id].invocation == Some(c.invocation))
    ensures PromotedAsStopped(s, Step(s, c), x)
  {
    hide Next, ReleaseLane, Retire;
    assert Step(s, c) == s;
  }

  /** In a consistent store a queued operation is promoted exactly when the step stops the exclusive
      holder of its lane and no other operation queued there precedes it. */
  lemma PromotedExactly(s: Store, c: Command, x: Id)
    requires Inv(s) && x in s.records && s.records[x].status.Queued?
    ensures var t := Step(s, c); var lane := s.records[x].request.schedule;
            && x in t.records
            && (t.records[x].status.Active? <==>
                  (exists h :: StopsHolder(s, t, h, lane)) && forall q :: InLine(s, q, lane) && q != x ==>
                    Precedes(s, x, q))
  {
    hide Inv, Complete, Watchdog, Begin, RecordTimeout, RequestCancel;
    match c {
      case DoWatchdog(now) => WatchdogPromotes(s, now, x);
      case DoComplete(id, invocation, _, _, _) =>
        if id in s.records && Holds(s.records[id].status) && s.records[id].invocation == Some(invocation) {
          CompletePromotes(s, c, x);
        } else {
          IdleComplete(s, c, x);
        }
      case _ => QuietStep(s, c, x);
    }
  }
}
