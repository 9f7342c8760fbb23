/** One started run at a time, and pointers that always name the maximum, whatever the clock did. */
module SyncRunSafety {
  import opened Collections
  import opened SyncRunModel

  // ---------------------------------------------------------------- order

  /** `isCompletionNewer` is a strict order on all records, stamped and sequenced or not. */
  lemma NewerIsAStrictOrder(a: Record, b: Record, c: Record)
    ensures !Newer(a, a)
    ensures Newer(a, b) ==> !Newer(b, a)
    ensures Newer(a, b) && Newer(b, c) ==> Newer(a, c)
  {
  }

  ghost predicate Terminal(s: Store, k: RunId) {
    k in s.runs && s.runs[k].status != Started
  }

  ghost predicate Clean(s: Store, k: RunId) {
    k in s.runs && CleanSuccess(s.runs[k])
  }

  ghost predicate NewestTerminal(s: Store, m: RunId) {
    Terminal(s, m) && forall k :: Terminal(s, k) && k != m ==> Newer(s.runs[m], s.runs[k])
  }

  ghost predicate NewestClean(s: Store, m: RunId) {
    Clean(s, m) && forall k :: Clean(s, k) && k != m ==> Newer(s.runs[m], s.runs[k])
  }

  // ------------------------------------------------------------ invariant

  ghost predicate Named(s: Store) {
    && (forall k :: k in s.runs ==> k != 0 && s.runs[k].runId == k)
    && (forall k :: k in s.runs ==> (s.runs[k].status == Started <==> s.active == Some(k)))
    && (s.active.Some? ==> s.active.value in s.runs)
  }

  ghost predicate Numbered(s: Store) {
    && (s.counter.Some? ==> 0 < s.counter.value <= MAX_SAFE_INTEGER)
    && (forall k :: Terminal(s, k) ==>
          s.counter.Some? && s.runs[k].sequence.Some? && 0 < s.runs[k].sequence.value <= s.counter.value)
    && (forall j, k :: Terminal(s, j) && Terminal(s, k) && j != k ==> s.runs[j].sequence != s.runs[k].sequence)
  }

  ghost predicate Pointed(s: Store) {
    && (if s.lastCompletion.Some? then NewestTerminal(s, s.lastCompletion.value) else forall k :: !Terminal(s, k))
    && (if s.lastSuccess.Some? then NewestClean(s, s.lastSuccess.value) else forall k :: !Clean(s, k))
  }

  ghost predicate Inv(s: Store) {
    Named(s) && Numbered(s) && Pointed(s)
  }

  /** Two terminal runs of a consistent store are always ordered. */
  lemma NewerIsTotal(s: Store, j: RunId, k: RunId)
    requires Numbered(s) && (forall i :: i in s.runs ==> s.runs[i].runId == i) && Terminal(s, j) && Terminal(s, k)
             && j != k
    ensures Newer(s.runs[j], s.runs[k]) || Newer(s.runs[k], s.runs[j])
  {
    assert s.runs[j].sequence != s.runs[k].sequence;
  }

  lemma CleanIsTerminal(s: Store, k: RunId)
    requires Clean(s, k)
    ensures Terminal(s, k)
  {
  }

  // ---------------------------------------------------------------- steps

  /** Pointers and numbers see finished runs only. */
  lemma SameFinishedRuns(s: Store, t: Store)
    requires s.counter == t.counter && s.lastCompletion == t.lastCompletion && s.lastSuccess == t.lastSuccess
    requires forall k :: Terminal(s, k) == Terminal(t, k)
    requires forall k :: Terminal(s, k) && Terminal(t, k) ==> t.runs[k] == s.runs[k]
    ensures Numbered(s) ==> Numbered(t)
    ensures Pointed(s) ==> Pointed(t)
  {
    hide Newer;
    forall k ensures Clean(s, k) == Clean(t, k) {
      assert Terminal(s, k) == Terminal(t, k);
    }
  }

  lemma PutStartedKeepsInv(s: Store, id: RunId, startedAt: nat, metadata: Metadata)
    requires Inv(s) && id != 0 && id !in s.runs
    ensures Inv(PutStarted(s, id, startedAt, metadata).0)
  {
    hide Newer, Numbered, Pointed;
    var next := PutStarted(s, id, startedAt, metadata).0;
    if !Busy(s) {
      assert forall k :: k in s.runs ==> s.runs[k].status != Started;
      SameFinishedRuns(s, next);
    }
  }

  /** Advancing past a newly terminal run takes the maximum of the old maximum and the new run. */
  lemma AdvanceTakesMaximum(before: Store, put: Store, r: Record)
    requires Pointed(before) && Named(before) && r.runId != 0 && r.status != Started
    requires put.runs == before.runs[r.runId := r]
    requires put.lastCompletion == before.lastCompletion && put.lastSuccess == before.lastSuccess
    requires !Terminal(before, r.runId) && Numbered(put) && forall i :: i in put.runs ==> put.runs[i].runId == i
    ensures Pointed(AdvanceSuccess(AdvanceCompletion(put, r), r))
  {
    hide NewestTerminal, NewestClean, Newer, CleanSuccess;
    var first := AdvanceCompletion(put, r);
    var next := AdvanceSuccess(first, r);
    CompletionAdvances(before, put, r);
    assert first.runs == put.runs && first.counter == put.counter;
    SameRunsSamePredicates(put, first);
    SuccessAdvances(before, first, r);
    SameRunsSameMaximum(first, next);
  }

  lemma SameRunsSameMaximum(s: Store, t: Store)
    requires s.runs == t.runs
    ensures forall m :: NewestTerminal(s, m) == NewestTerminal(t, m)
    ensures forall k :: Terminal(s, k) == Terminal(t, k)
  {
  }

  ghost predicate CompletionPointed(s: Store) {
    if s.lastCompletion.Some? then NewestTerminal(s, s.lastCompletion.value) else forall k :: !Terminal(s, k)
  }

  ghost predicate SuccessPointed(s: Store) {
    if s.lastSuccess.Some? then NewestClean(s, s.lastSuccess.value) else forall k :: !Clean(s, k)
  }

  lemma CompletionAdvances(before: Store, put: Store, r: Record)
    requires CompletionPointed(before) && (forall k :: k in before.runs ==> k != 0)
    requires r.runId != 0 && r.status != Started && !Terminal(before, r.runId)
    requires put.runs == before.runs[r.runId := r] && put.lastCompletion == before.lastCompletion
    requires Numbered(put) && forall i :: i in put.runs ==> put.runs[i].runId == i
    ensures CompletionPointed(AdvanceCompletion(put, r))
  {
    var next := AdvanceCompletion(put, r);
    assert Terminal(put, r.runId);
    forall k | k != r.runId ensures Terminal(next, k) == Terminal(before, k) {}
    if put.lastCompletion.Some? {
      var m := put.lastCompletion.value;
      NewerIsTotal(put, m, r.runId);
      forall k | Terminal(next, k) && k != next.lastCompletion.value
        ensures Newer(next.runs[next.lastCompletion.value], next.runs[k])
      {
        if k != r.runId {
          assert Terminal(before, k);
          NewerIsAStrictOrder(r, put.runs[m], put.runs[k]);
        }
      }
    }
  }

  lemma SuccessAdvances(before: Store, put: Store, r: Record)
    requires SuccessPointed(before) && (forall k :: k in before.runs ==> k != 0)
    requires r.runId != 0 && r.status != Started && !Terminal(before, r.runId)
    requires put.runs == before.runs[r.runId := r] && put.lastSuccess == before.lastSuccess
    requires Numbered(put) && forall i :: i in put.runs ==> put.runs[i].runId == i
    ensures SuccessPointed(AdvanceSuccess(put, r))
  {
    var next := AdvanceSuccess(put, r);
    forall k | k != r.runId ensures Clean(next, k) == Clean(before, k) {}
    assert !Clean(before, r.runId);
    if CleanSuccess(r) && put.lastSuccess.Some? {
      var m := put.lastSuccess.value;
      NewerIsTotal(put, m, r.runId);
      forall k | Clean(next, k) && k != next.lastSuccess.value
        ensures Newer(next.runs[next.lastSuccess.value], next.runs[k])
      {
        if k != r.runId {
          NewerIsAStrictOrder(r, put.runs[m], put.runs[k]);
        }
      }
    } else if put.lastSuccess.Some? {
      assert NewestClean(next, put.lastSuccess.value);
    }
  }

  lemma PutKeepsNumbers(s: Store, id: RunId, r: Record, put: Store)
    requires Named(s) && Numbered(s) && CanCount(s.counter) && id in s.runs && !Terminal(s, id)
    requires r.sequence == Some(NextCount(s.counter))
    requires put.runs == s.runs[id := r] && put.counter == r.sequence
    ensures Numbered(put)
  {
    forall k | k != id ensures Terminal(put, k) == Terminal(s, k) {}
  }

  lemma FirstCompletionKeepsInv(s: Store, id: RunId, endedAt: Stamp, exitCode: int, reason: Reason)
    requires Inv(s) && id in s.runs && s.runs[id].status == Started && CanCount(s.counter)
    ensures Inv(Complete(s, id, endedAt, exitCode, reason).0)
  {
    hide Pointed, Numbered, Newer, CleanSuccess;
    var n := NextCount(s.counter);
    var r := Finished(s.runs[id], n, endedAt, exitCode, reason);
    var put := s.(counter := Some(n), runs := s.runs[id := r]);
    PutKeepsNumbers(s, id, r, put);
    AdvanceTakesMaximum(s, put, r);
    var advanced := AdvanceSuccess(AdvanceCompletion(put, r), r);
    var next := ClearActive(advanced, id);
    assert next.active == None && next.runs == put.runs;
    SameRunsSamePredicates(put, next);
    SameRunsSamePredicates(advanced, next);
  }

  lemma SameRunsSamePredicates(s: Store, t: Store)
    requires s.runs == t.runs && s.counter == t.counter
    ensures Numbered(s) == Numbered(t)
    ensures s.lastCompletion == t.lastCompletion && s.lastSuccess == t.lastSuccess ==> Pointed(s) == Pointed(t)
  {
    assert forall k :: Terminal(s, k) == Terminal(t, k) && Clean(s, k) == Clean(t, k);
  }

  /** Completing a run again changes nothing: the pointers already reach it. */
  lemma RepeatedCompletionIsInert(s: Store, id: RunId, endedAt: Stamp, exitCode: int, reason: Reason)
    requires Inv(s) && Terminal(s, id)
    ensures Complete(s, id, endedAt, exitCode, reason) == (s, Run(s.runs[id]))
  {
    var r := s.runs[id];
    var m := s.lastCompletion.value;
    NewerIsAStrictOrder(s.runs[m], r, r);
    if CleanSuccess(r) {
      assert Clean(s, id);
      NewerIsAStrictOrder(s.runs[s.lastSuccess.value], r, r);
    }
  }

  lemma CompleteKeepsInv(s: Store, id: RunId, endedAt: Stamp, exitCode: int, reason: Reason)
    requires Inv(s)
    ensures Inv(Complete(s, id, endedAt, exitCode, reason).0)
  {
    if id in s.runs {
      if s.runs[id].status != Started {
        RepeatedCompletionIsInert(s, id, endedAt, exitCode, reason);
      } else if CanCount(s.counter) {
        FirstCompletionKeepsInv(s, id, endedAt, exitCode, reason);
      }
    }
  }

  lemma StepKeepsInv(s: Store, c: Command)
    requires Inv(s) && (!c.DoComplete? ==> c.id != 0 && c.id !in s.runs)
    ensures Inv(Step(s, c))
  {
    hide Inv, PutStarted, Complete;
    match c {
      case DoStart(id, startedAt, metadata) => PutStartedKeepsInv(s, id, startedAt, metadata);
      case DoEnsure(id, startedAt, metadata) => PutStartedKeepsInv(s, id, startedAt, metadata);
      case DoComplete(id, endedAt, exitCode, reason) => CompleteKeepsInv(s, id, endedAt, exitCode, reason);
    }
  }

  /** Every stored run was created by a command that carried its id. */
  lemma {:induction false} RunsComeFromCommands(commands: seq<Command>, k: RunId)
    requires k in Execute(EMPTY, commands).runs
    ensures exists i :: 0 <= i < |commands| && !commands[i].DoComplete? && commands[i].id == k
    decreases |commands|
  {
    if commands != [] {
      var front, last := commands[..|commands| - 1], commands[|commands| - 1];
      if k in Execute(EMPTY, front).runs {
        RunsComeFromCommands(front, k);
        var i :| 0 <= i < |front| && !front[i].DoComplete? && front[i].id == k;
        assert commands[i] == front[i];
      } else {
        assert !last.DoComplete? && last.id == k;
      }
    }
  }

  /** With fresh ids every reachable store is consistent: ids, counter and pointers. */
  lemma {:induction false} ReachableStoreIsConsistent(commands: seq<Command>)
    requires FreshIds(commands)
    ensures Inv(Execute(EMPTY, commands))
    decreases |commands|
  {
    hide Inv, Step;
    if commands == [] {
      assert Inv(EMPTY) by { EmptyIsConsistent(); }
    } else {
      var front, last := commands[..|commands| - 1], commands[|commands| - 1];
      ReachableStoreIsConsistent(front);
      var s := Execute(EMPTY, front);
      if !last.DoComplete? && last.id in s.runs {
        RunsComeFromCommands(front, last.id);
        assert false;
      }
      StepKeepsInv(s, last);
    }
  }

  lemma EmptyIsConsistent()
    ensures Inv(EMPTY)
  {
  }

  /** At most one run is started, and it is the one the active key names. */
  lemma OneStartedRun(commands: seq<Command>, j: RunId, k: RunId)
    requires FreshIds(commands)
    requires var s := Execute(EMPTY, commands);
             j in s.runs && k in s.runs && s.runs[j].status == Started && s.runs[k].status == Started
    ensures j == k && Execute(EMPTY, commands).active == Some(j)
  {
    ReachableStoreIsConsistent(commands);
  }

  lemma PointersAreExact(s: Store, m: RunId)
    requires Inv(s)
    ensures s.lastCompletion == Some(m) <==> NewestTerminal(s, m)
    ensures s.lastSuccess == Some(m) <==> NewestClean(s, m)
  {
    if NewestTerminal(s, m) && s.lastCompletion != Some(m) {
      NewerIsAStrictOrder(s.runs[m], s.runs[s.lastCompletion.value], s.runs[m]);
      assert false;
    }
    if NewestClean(s, m) && s.lastSuccess != Some(m) {
      NewerIsAStrictOrder(s.runs[m], s.runs[s.lastSuccess.value], s.runs[m]);
      assert false;
    }
  }

  /** The last-completion pointer names a run exactly when that run is newer than every other
      terminal run, and the last-success pointer likewise among clean successes. */
  lemma PointersNameTheMaximum(commands: seq<Command>, m: RunId)
    requires FreshIds(commands)
    ensures var s := Execute(EMPTY, commands);
            && (s.lastCompletion == Some(m) <==> NewestTerminal(s, m))
            && (s.lastSuccess == Some(m) <==> NewestClean(s, m))
  {
    ReachableStoreIsConsistent(commands);
    PointersAreExact(Execute(EMPTY, commands), m);
  }

  /** A finished run's record never changes again. */
  lemma StepKeepsTerminal(s: Store, c: Command, k: RunId)
    requires Terminal(s, k) && (!c.DoComplete? ==> c.id !in s.runs)
    ensures Terminal(Step(s, c), k) && Step(s, c).runs[k] == s.runs[k]
  {
  }

  /** With fresh ids a finished record is frozen for the rest of any run. */
  lemma {:induction false} FinishedIsFrozen(before: seq<Command>, after: seq<Command>, k: RunId)
    requires FreshIds(before + after) && Terminal(Execute(EMPTY, before), k)
    ensures var t := Execute(EMPTY, before + after); Terminal(t, k) && t.runs[k] == Execute(EMPTY, before).runs[k]
    decreases |after|
  {
    hide Step;
    if after == [] {
      assert before + after == before;
    } else {
      var front, last := after[..|after| - 1], after[|after| - 1];
      var all := before + after;
      assert all[..|all| - 1] == before + front && all[|all| - 1] == last;
      FinishedIsFrozen(before, front, k);
      if !last.DoComplete? && last.id in Execute(EMPTY, before + front).runs {
        RunsComeFromCommands(before + front, last.id);
        assert false;
      }
      StepKeepsTerminal(Execute(EMPTY, before + front), last, k);
    }
  }

  // -------------------------------------------------------------- counter

  function Finishes(s: Store): set<RunId> {
    set k | k in s.runs && s.runs[k].status != Started
  }

  ghost predicate Counted(s: Store) {
    |Finishes(s)| == if s.counter.None? then 0 else s.counter.value
  }

  lemma CompletionCounts(s: Store, id: RunId, endedAt: Stamp, exitCode: int, reason: Reason)
    requires Counted(s) && id in s.runs && s.runs[id].status == Started && CanCount(s.counter)
    ensures Counted(Complete(s, id, endedAt, exitCode, reason).0)
  {
    hide Newer, CleanSuccess;
    var n := NextCount(s.counter);
    var r := Finished(s.runs[id], n, endedAt, exitCode, reason);
    var next := Complete(s, id, endedAt, exitCode, reason).0;
    assert next.runs == s.runs[id := r] && next.counter == Some(n);
    assert Finishes(next) == Finishes(s) + {id};
  }

  lemma StartCounts(s: Store, id: RunId, startedAt: nat, metadata: Metadata)
    requires Counted(s) && id !in s.runs
    ensures Counted(PutStarted(s, id, startedAt, metadata).0)
  {
    assert Finishes(PutStarted(s, id, startedAt, metadata).0) == Finishes(s);
  }

  lemma StepCounts(s: Store, c: Command)
    requires Inv(s) && Counted(s) && (!c.DoComplete? ==> c.id !in s.runs)
    ensures Counted(Step(s, c))
  {
    hide Inv, Counted, PutStarted;
    match c {
      case DoStart(id, startedAt, metadata) => StartCounts(s, id, startedAt, metadata);
      case DoEnsure(id, startedAt, metadata) => StartCounts(s, id, startedAt, metadata);
      case DoComplete(id, endedAt, exitCode, reason) =>
        if id in s.runs {
          if s.runs[id].status != Started {
            RepeatedCompletionIsInert(s, id, endedAt, exitCode, reason);
          } else if CanCount(s.counter) {
            CompletionCounts(s, id, endedAt, exitCode, reason);
          }
        }
    }
  }

  /** The counter is the number of finished runs, however often completions repeat, so completion
      fails for want of a sequence only after 2^53 - 1 runs have finished. */
  lemma {:induction false} CounterCountsFinishedRuns(commands: seq<Command>)
    requires FreshIds(commands)
    ensures Counted(Execute(EMPTY, commands))
    decreases |commands|
  {
    hide Inv, Step;
    if commands != [] {
      var front, last := commands[..|commands| - 1], commands[|commands| - 1];
      CounterCountsFinishedRuns(front);
      ReachableStoreIsConsistent(front);
      if !last.DoComplete? && last.id in Execute(EMPTY, front).runs {
        RunsComeFromCommands(front, last.id);
        assert false;
      }
      StepCounts(Execute(EMPTY, front), last);
    }
  }

  /** The first completion writes what happened into the run's own record and no other: success is
      exactly a zero exit, and it is a clean one exactly when its end time can be read. */
  lemma CompletionIsClassified(s: Store, id: RunId, endedAt: Stamp, exitCode: int, reason: Reason)
    requires id in s.runs && s.runs[id].status == Started && CanCount(s.counter)
    ensures var (t, reply) := Complete(s, id, endedAt, exitCode, reason);
            && t.runs.Keys == s.runs.Keys && (forall k :: k in s.runs && k != id ==> t.runs[k] == s.runs[k])
            && reply == Run(t.runs[id])
            && t.runs[id].endedAt == Some(endedAt) && t.runs[id].exitCode == Some(exitCode)
              && t.runs[id].reason == Some(reason)
            && t.runs[id].metadata == s.runs[id].metadata && t.runs[id].startedAt == s.runs[id].startedAt
            && (t.runs[id].status == Succeeded <==> reason == Exit && exitCode == 0)
            && (t.runs[id].status == Failed <==> reason == RuntimeSignal || exitCode != 0)
            && (t.runs[id].classification == SignalClass <==> reason == RuntimeSignal)
            && (CleanSuccess(t.runs[id]) <==> reason == Exit && exitCode == 0 && endedAt.At?)
  {
    hide Newer;
  }

  /** Command i completes run k, and its record says so. */
  ghost predicate Explains(c: Command, k: RunId, r: Record) {
    && c.DoComplete? && c.id == k
    && r.endedAt == Some(c.endedAt) && r.exitCode == Some(c.exitCode) && r.reason == Some(c.reason)
    && (r.status == Succeeded <==> c.reason == Exit && c.exitCode == 0)
    && (CleanSuccess(r) <==> c.reason == Exit && c.exitCode == 0 && c.endedAt.At?)
  }

  /** In every run a finished record tells the completion that finished it, and counts as a clean
      success exactly when that completion was a zero exit at a readable time. */
  lemma {:induction false} FinishedRecordsAreExplained(commands: seq<Command>, k: RunId)
    requires FreshIds(commands) && Terminal(Execute(EMPTY, commands), k)
    ensures exists i :: 0 <= i < |commands| && Explains(commands[i], k, Execute(EMPTY, commands).runs[k])
    decreases |commands|
  {
    hide Step, CleanSuccess, Inv, Complete;
    if commands != [] {
      var front, last := commands[..|commands| - 1], commands[|commands| - 1];
      var s := Execute(EMPTY, front);
      if !last.DoComplete? && last.id in s.runs {
        RunsComeFromCommands(front, last.id);
        assert false;
      }
      if Terminal(s, k) {
        FinishedRecordsAreExplained(front, k);
        StepKeepsTerminal(s, last, k);
        var i :| 0 <= i < |front| && Explains(front[i], k, s.runs[k]);
        assert commands[i] == front[i];
      } else {
        FirstFinish(s, last, k);
        assert Explains(commands[|commands| - 1], k, Execute(EMPTY, commands).runs[k]);
      }
    }
  }

  lemma FirstFinish(s: Store, c: Command, k: RunId)
    requires !Terminal(s, k) && Terminal(Step(s, c), k)
    ensures Explains(c, k, Step(s, c).runs[k])
  {
    hide Newer, CleanSuccess;
    if c.DoComplete? && c.id in s.runs && s.runs[c.id].status == Started && CanCount(s.counter) {
      CompletionIsClassified(s, c.id, c.endedAt, c.exitCode, c.reason);
    }
  }

  /** A terminal run is never passed over, even in a store whose pointers were lost or damaged:
      after any completion call for it, the completion pointer names it or a run it is not newer than. */
  lemma CompletionIsNeverForgotten(s: Store, id: RunId, endedAt: Stamp, exitCode: int, reason: Reason)
    requires id in s.runs && s.runs[id].runId == id && (s.runs[id].status != Started || CanCount(s.counter))
    ensures var next := Complete(s, id, endedAt, exitCode, reason).0;
            && next.lastCompletion.Some? && Terminal(next, next.lastCompletion.value)
            && !Newer(next.runs[id], next.runs[next.lastCompletion.value])
            && (Clean(next, id) ==>
                  && next.lastSuccess.Some? && Clean(next, next.lastSuccess.value)
                  && !Newer(next.runs[id], next.runs[next.lastSuccess.value]))
  {
    var next := Complete(s, id, endedAt, exitCode, reason).0;
    NewerIsAStrictOrder(next.runs[id], next.runs[id], next.runs[id]);
  }

  // --------------------------------------------------------------- health

  ghost predicate FreshSuccess(s: Store, m: RunId, now: int, expected: Option<nat>, threshold: nat) {
    && NewestClean(s, m)
    && !IsStale(s.runs[m], now, threshold)
    && (expected.None? || s.runs[m].metadata.fingerprint == expected)
  }

  ghost predicate QuietAndHealthy(s: Store, now: int, expected: Option<nat>, threshold: nat) {
    && (forall k :: k in s.runs ==> s.runs[k].status != Started)
    && (exists m :: FreshSuccess(s, m, now, expected, threshold))
    && (exists c :: NewestTerminal(s, c) && s.runs[c].status != Failed)
  }

  /** The pointers resolve: no dangling id, no record of the wrong kind. */
  lemma PointersResolve(s: Store)
    requires Inv(s)
    ensures Busy(s) <==> exists k :: k in s.runs && s.runs[k].status == Started
    ensures s.lastCompletion.Some? ==> s.lastCompletion.value in s.runs
    ensures s.lastSuccess.Some? ==> s.lastSuccess.value in s.runs && s.lastCompletion.Some?
    ensures LastCompletion(s) == if s.lastCompletion.Some? then Some(s.runs[s.lastCompletion.value]) else None
    ensures LastSuccess(s) == if s.lastSuccess.Some? then Some(s.runs[s.lastSuccess.value]) else None
  {
    hide Newer;
    if s.active.Some? {
      assert s.runs[s.active.value].status == Started;
    }
    if s.lastSuccess.Some? {
      CleanIsTerminal(s, s.lastSuccess.value);
    }
  }

  lemma ConsistentHealth(s: Store, now: int, expected: Option<nat>, threshold: nat)
    requires Inv(s)
    ensures HealthStatus(s, now, expected, threshold) == Healthy <==> QuietAndHealthy(s, now, expected, threshold)
  {
    hide Inv, Newer, Busy, LastCompletion, LastSuccess, IsStale, NewestClean, NewestTerminal;
    PointersResolve(s);
    forall m: RunId
      ensures s.lastCompletion == Some(m) <==> NewestTerminal(s, m)
      ensures s.lastSuccess == Some(m) <==> NewestClean(s, m)
    {
      PointersAreExact(s, m);
    }
    if HealthStatus(s, now, expected, threshold) == Healthy {
      assert FreshSuccess(s, s.lastSuccess.value, now, expected, threshold);
      assert NewestTerminal(s, s.lastCompletion.value);
    }
  }

  /** Health reads only the pointers, and in every reachable store it is what the whole set of
      runs says: no started run, a newest clean success that is recent and matches, and a newest
      completion that did not fail. */
  lemma HealthyExactly(commands: seq<Command>, now: int, expected: Option<nat>, threshold: nat)
    requires FreshIds(commands)
    ensures var s := Execute(EMPTY, commands);
            HealthStatus(s, now, expected, threshold) == Healthy <==> QuietAndHealthy(s, now, expected, threshold)
  {
    ReachableStoreIsConsistent(commands);
    ConsistentHealth(Execute(EMPTY, commands), now, expected, threshold);
  }

  // ------------------------------------------------------------- the edge

  /** Run ids that are never given to two runs, one of which may be empty. */
  ghost predicate DistinctIds(commands: seq<Command>) {
    forall i, j :: 0 <= i < j < |commands| && !commands[i].DoComplete? && !commands[j].DoComplete? ==>
        commands[i].id != commands[j].id
  }

  ghost predicate IsStarted(s: Store, k: RunId) {
    k in s.runs && s.runs[k].status == Started
  }

  ghost predicate TwoStarted(s: Store) {
    exists j, k :: IsStarted(s, j) && IsStarted(s, k) && j != k
  }

  /** Command n starts a run while the run with the empty id is started and no other is active. */
  ghost predicate StartsBesideEmpty(commands: seq<Command>, n: nat) {
    && n < |commands| && !commands[n].DoComplete?
    && IsStarted(Execute(EMPTY, commands[..n]), 0) && !Busy(Execute(EMPTY, commands[..n]))
  }

  /** A started run with a nonempty id is the active one, and so blocks every other start. */
  lemma {:induction false} NonemptyIsActive(commands: seq<Command>, k: RunId)
    requires k != 0 && IsStarted(Execute(EMPTY, commands), k)
    ensures Execute(EMPTY, commands).active == Some(k)
    decreases |commands|
  {
    if commands != [] {
      var front, last := commands[..|commands| - 1], commands[|commands| - 1];
      var s := Execute(EMPTY, front);
      if IsStarted(s, k) {
        NonemptyIsActive(front, k);
      }
      OwnIds(front);
      StepKeepsActive(s, last, k);
    }
  }

  lemma StepKeepsActive(s: Store, c: Command, k: RunId)
    requires k != 0 && (IsStarted(s, k) ==> s.active == Some(k)) && IsStarted(Step(s, c), k)
    requires forall x :: x in s.runs ==> s.runs[x].runId == x
    ensures Step(s, c).active == Some(k)
  {
    hide Newer, CleanSuccess;
  }

  lemma {:induction false} OwnIds(commands: seq<Command>)
    ensures forall x :: x in Execute(EMPTY, commands).runs ==> Execute(EMPTY, commands).runs[x].runId == x
    decreases |commands|
  {
    hide Newer, CleanSuccess;
    if commands != [] {
      OwnIds(commands[..|commands| - 1]);
    }
  }

  lemma BesideEmptyIsTwo(commands: seq<Command>, n: nat)
    requires DistinctIds(commands) && StartsBesideEmpty(commands, n)
    ensures TwoStarted(Execute(EMPTY, commands[..n + 1]))
  {
    var front := commands[..n];
    var s := Execute(EMPTY, front);
    assert commands[..n + 1][..n] == front;
    RunsComeFromCommands(front, 0);
    var i :| 0 <= i < |front| && !front[i].DoComplete? && front[i].id == 0;
    assert commands[i] == front[i];
    var t := Execute(EMPTY, commands[..n + 1]);
    assert t == Step(s, commands[n]);
    assert IsStarted(t, 0) && IsStarted(t, commands[n].id);
  }

  lemma SecondStartIsBesideEmpty(commands: seq<Command>, n: nat)
    requires n < |commands| && !TwoStarted(Execute(EMPTY, commands[..n]))
             && TwoStarted(Execute(EMPTY, commands[..n + 1]))
    ensures StartsBesideEmpty(commands, n)
  {
    var front := commands[..n];
    var s, c := Execute(EMPTY, front), commands[n];
    assert commands[..n + 1][..n] == front;
    var t := Execute(EMPTY, commands[..n + 1]);
    assert t == Step(s, c);
    var j, k :| IsStarted(t, j) && IsStarted(t, k) && j != k;
    CompletionStartsNone(s, c);
    assert !c.DoComplete? && !Busy(s);
    var x := if j == c.id then k else j;
    assert IsStarted(s, x);
    if x != 0 {
      NonemptyIsActive(front, x);
    }
  }

  /** Only a start that is not blocked makes a run started, and only its own. */
  lemma CompletionStartsNone(s: Store, c: Command)
    ensures forall x :: IsStarted(Step(s, c), x) ==> IsStarted(s, x) || (x == c.id && !c.DoComplete? && !Busy(s))
  {
    hide Newer, CleanSuccess;
  }

  /** With distinct ids two runs are started at once, at some point of a run, exactly when somewhere
      in it a run is started while the one with the empty id is started and no other is active. */
  lemma TwoStartedExactly(commands: seq<Command>)
    requires DistinctIds(commands)
    ensures (exists n :: 0 <= n <= |commands| && TwoStarted(Execute(EMPTY, commands[..n])))
       <==> (exists n: nat :: StartsBesideEmpty(commands, n))
  {
    hide TwoStarted, DistinctIds, Execute;
    if n: nat :| StartsBesideEmpty(commands, n) {
      BesideEmptyIsTwo(commands, n);
    }
    if n :| 0 <= n <= |commands| && TwoStarted(Execute(EMPTY, commands[..n])) {
      FirstTwo(commands, n);
    }
  }

  lemma {:induction false} FirstTwo(commands: seq<Command>, n: nat)
    requires n <= |commands| && TwoStarted(Execute(EMPTY, commands[..n]))
    ensures exists m: nat :: StartsBesideEmpty(commands, m)
  {
    if n == 0 {
      assert false;
    } else if TwoStarted(Execute(EMPTY, commands[..n - 1])) {
      FirstTwo(commands, n - 1);
    } else {
      SecondStartIsBesideEmpty(commands, n - 1);
    }
  }

  /** An empty run id is taken for no run at all: a second run starts beside it. */
  lemma EmptyIdIsForgotten(meta: Metadata)
    ensures var s := Execute(EMPTY, [DoStart(0, 0, meta), DoStart(1, 0, meta)]);
            && 0 in s.runs && s.runs[0].status == Started
            && 1 in s.runs && s.runs[1].status == Started
  {
    var commands := [DoStart(0, 0, meta), DoStart(1, 0, meta)];
    assert commands[..1] == [DoStart(0, 0, meta)];
    assert commands[..1][..0] == [];
    assert Execute(EMPTY, commands[..1]) == Step(EMPTY, DoStart(0, 0, meta));
  }
}
