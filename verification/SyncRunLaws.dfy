/** What starting, completing and reporting sync runs answer and write in a consistent store, field by
    field. */
module SyncRunLaws {
  import opened Collections
  import opened SyncRunModel
  import opened SyncRunSafety

  /** The record of a run that has just started. */
  function Begun(id: RunId, startedAt: nat, metadata: Metadata): Record {
    Record(id, metadata, startedAt, None, None, Started, StartedClass, None, None)
  }

  lemma BusyExactly(s: Store)
    requires Inv(s)
    ensures Busy(s) <==> exists k: RunId :: IsStarted(s, k)
    ensures forall k: RunId :: IsStarted(s, k) ==> s.active == Some(k)
  {
    hide Numbered, Pointed, Newer;
    if s.active.Some? {
      assert IsStarted(s, s.active.value);
    }
  }

  /** A start is refused exactly while a run is started, and otherwise makes the given run the active
      one. */
  lemma StartLaw(s: Store, id: RunId, startedAt: nat, metadata: Metadata)
    requires Inv(s)
    ensures PutStarted(s, id, startedAt, metadata) ==
            if exists k: RunId :: IsStarted(s, k) then (s, AlreadyActive)
            else (s.(runs := s.runs[id := Begun(id, startedAt, metadata)], active := Some(id)),
                  Run(Begun(id, startedAt, metadata)))
  {
    hide Inv, Busy;
    BusyExactly(s);
  }

  /** Ensuring a run answers the started one, and otherwise starts the given one. */
  lemma EnsureLaw(s: Store, id: RunId, startedAt: nat, metadata: Metadata)
    requires Inv(s)
    ensures forall k: RunId :: IsStarted(s, k) ==> EnsureStarted(s, id, startedAt, metadata) == (s, Run(s.runs[k]))
    ensures !(exists k: RunId :: IsStarted(s, k)) ==>
              EnsureStarted(s, id, startedAt, metadata) ==
              (s.(runs := s.runs[id := Begun(id, startedAt, metadata)], active := Some(id)),
               Run(Begun(id, startedAt, metadata)))
  {
    hide Inv, Busy;
    BusyExactly(s);
  }

  /** A completion answers an unknown run with nothing and a finished one with its record, changing
      neither; the first completion of a started run writes the outcome under the next number, makes
      no run active, and moves each pointer to the newest of the runs it is about. */
  lemma CompletionLaw(s: Store, id: RunId, endedAt: Stamp, exitCode: int, reason: Reason)
    requires Inv(s)
    ensures var (t, reply) := Complete(s, id, endedAt, exitCode, reason);
            if id !in s.runs then t == s && reply == NotFound
            else if s.runs[id].status != Started then t == s && reply == Run(s.runs[id])
            else if s.counter == Some(9_007_199_254_740_991) then t == s && reply == InvalidSequence
            else
              var number := if s.counter == None then 1 else s.counter.value + 1;
              var clean := reason == Exit && exitCode == 0;
              var was := s.runs[id];
              var next := Record(
                id, was.metadata, was.startedAt, Some(number), Some(endedAt), if clean then Succeeded else Failed,
                if reason == RuntimeSignal then SignalClass else if clean then CleanExit else NonzeroExit,
                Some(exitCode), Some(reason));
              && reply == Run(next) && t.runs == s.runs[id := next] && t.active == None && t.counter == Some(number)
              && (forall m: RunId :: t.lastCompletion == Some(m) <==> NewestTerminal(t, m))
              && (forall m: RunId :: t.lastSuccess == Some(m) <==> NewestClean(t, m))
  {
    hide Pointed, NewestTerminal, NewestClean, Complete, Numbered, Named;
    if id in s.runs && s.runs[id].status == Started && CanCount(s.counter) {
      FirstCompletionKeepsInv(s, id, endedAt, exitCode, reason);
      FirstCompletionWrites(s, id, endedAt, exitCode, reason);
      var t := Complete(s, id, endedAt, exitCode, reason).0;
      forall m: RunId
        ensures t.lastCompletion == Some(m) <==> NewestTerminal(t, m)
        ensures t.lastSuccess == Some(m) <==> NewestClean(t, m)
      {
        PointersAreExact(t, m);
      }
    } else {
      OtherCompletions(s, id, endedAt, exitCode, reason);
    }
    CountersAreSafe(s);
  }

  lemma CountersAreSafe(s: Store)
    requires Inv(s)
    ensures CanCount(s.counter) <==> s.counter != Some(9_007_199_254_740_991)
  {
    hide Named, Pointed;
  }

  lemma OtherCompletions(s: Store, id: RunId, endedAt: Stamp, exitCode: int, reason: Reason)
    requires Inv(s) && !(id in s.runs && s.runs[id].status == Started && CanCount(s.counter))
    ensures Complete(s, id, endedAt, exitCode, reason) ==
            (s, if id !in s.runs then NotFound else if s.runs[id].status != Started then Run(s.runs[id])
              else InvalidSequence)
  {
    hide Inv;
    if id in s.runs && s.runs[id].status != Started {
      RepeatedCompletionIsInert(s, id, endedAt, exitCode, reason);
    }
  }

  lemma FirstCompletionWrites(s: Store, id: RunId, endedAt: Stamp, exitCode: int, reason: Reason)
    requires Named(s) && id in s.runs && s.runs[id].status == Started && CanCount(s.counter)
    ensures var (t, reply) := Complete(s, id, endedAt, exitCode, reason);
            var number := if s.counter == None then 1 else s.counter.value + 1;
            var clean := reason == Exit && exitCode == 0;
            var was := s.runs[id];
            var next := Record(
              id, was.metadata, was.startedAt, Some(number), Some(endedAt), if clean then Succeeded else Failed,
              if reason == RuntimeSignal then SignalClass else if clean then CleanExit else NonzeroExit,
              Some(exitCode), Some(reason));
            reply == Run(next) && t.runs == s.runs[id := next] && t.active == None && t.counter == Some(number)
  {
    hide Newer, CleanSuccess;
  }

  /** Of two finished runs the one that ended later is newer, at the same time the one completed later;
      a readable time counts as later than an unreadable one, and two unreadable ones go by run id. */
  lemma NewerLaw(s: Store, j: RunId, k: RunId)
    requires Inv(s) && Terminal(s, j) && Terminal(s, k) && j != k
    ensures var a, b := s.runs[j], s.runs[k];
            Newer(a, b) <==>
            match (a.endedAt, b.endedAt)
            case (Some(At(x)), Some(At(y))) => x > y || (x == y && a.sequence.value > b.sequence.value)
            case (Some(At(_)), _) => true
            case (_, Some(At(_))) => false
            case _ => j > k
  {
  }

  /** Every finished run ended at a readable time, and none before one completed earlier. */
  ghost predicate ClockFollowsNumbers(s: Store)
    requires Numbered(s)
  {
    && (forall k :: Terminal(s, k) ==> s.runs[k].endedAt.Some? && s.runs[k].endedAt.value.At?)
    && forall j, k :: Terminal(s, j) && Terminal(s, k) && s.runs[j].sequence.value < s.runs[k].sequence.value ==>
         s.runs[j].endedAt.value.ms <= s.runs[k].endedAt.value.ms
  }

  /** With such a clock the completion pointer names the run completed last. */
  lemma LastCompletionIsTheLast(s: Store, m: RunId)
    requires Inv(s) && ClockFollowsNumbers(s)
    ensures s.lastCompletion == Some(m) <==>
            && Terminal(s, m)
            && forall k :: Terminal(s, k) ==> s.runs[k].sequence.value <= s.runs[m].sequence.value
  {
    hide Newer;
    PointersAreExact(s, m);
    if Terminal(s, m) {
      forall k | Terminal(s, k) && k != m
        ensures Newer(s.runs[m], s.runs[k]) <==> s.runs[m].sequence.value > s.runs[k].sequence.value
      {
        NewerLaw(s, m, k);
      }
    }
  }

  /** Every answer of the health report: active while a run is started, unknown without a clean success,
      then, about the newest clean success, drift before staleness, and degraded when the newest
      completion failed. */
  lemma HealthLaw(s: Store, now: int, expected: Option<nat>, threshold: nat)
    requires Inv(s)
    ensures var health := HealthStatus(s, now, expected, threshold);
            && (health == Active <==> exists k: RunId :: IsStarted(s, k))
            && (health == Unknown <==> !(exists k: RunId :: IsStarted(s, k)) && !(exists k :: Clean(s, k)))
            && forall m: RunId, c: RunId ::
                 && NewestClean(s, m) && NewestTerminal(s, c)
                 && !(exists k: RunId :: IsStarted(s, k)) ==>
                 health ==
                 if expected != None && s.runs[m].metadata.fingerprint != expected then FingerprintDrift
                 else if threshold == 0 || now - EndTime(s.runs[m]).ms >= 1000 * threshold then Stale
                 else if s.runs[c].status == Failed then Degraded else Healthy
  {
    hide Newer, Busy, LastCompletion, LastSuccess, NewestTerminal, Pointed, Numbered, Named;
    BusyExactly(s);
    PointersResolve(s);
    SuccessPointerExists(s);
    forall m: RunId
      ensures s.lastCompletion == Some(m) <==> NewestTerminal(s, m)
      ensures s.lastSuccess == Some(m) <==> NewestClean(s, m)
    {
      PointersAreExact(s, m);
    }
    if s.lastSuccess.Some? {
      AgeIsElapsed(now, EndTime(s.runs[s.lastSuccess.value]).ms, threshold);
    }
  }

  lemma SuccessPointerExists(s: Store)
    requires Inv(s)
    ensures s.lastSuccess.Some? <==> exists k :: Clean(s, k)
  {
    hide Newer;
  }

  /** Whole elapsed seconds reach a threshold exactly when the elapsed time does. */
  lemma AgeIsElapsed(now: int, ended: int, threshold: nat)
    ensures AgeSeconds(now, ended) >= threshold <==> threshold == 0 || now - ended >= 1000 * threshold
  {
  }
}
