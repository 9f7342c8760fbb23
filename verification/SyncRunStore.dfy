/** The sync-run functions as they run, each one transaction over the stored keys. */
module SyncRunStore {
  import opened Collections
  import opened SyncRunModel

  class RunStorage {
    var runs: map<RunId, Record>
    var active: Option<RunId>
    var counter: Option<int>
    var lastCompletion: Option<RunId>
    var lastSuccess: Option<RunId>

    ghost function State(): Store
      reads this
    {
      Store(runs, active, counter, lastCompletion, lastSuccess)
    }

    constructor ()
      ensures State() == EMPTY
    {
      runs, active, counter, lastCompletion, lastSuccess := map[], None, None, None, None;
    }

    method PutStartedRun(id: RunId, startedAt: nat, metadata: Metadata) returns (reply: Reply)
      modifies this
      ensures (State(), reply) == PutStarted(old(State()), id, startedAt, metadata)
    {
      var record := NewRecord(id, startedAt, metadata);
      if active.Some? && active.value != 0 {
        if active.value in runs && runs[active.value].status == Started {
          return AlreadyActive;
        }
        active := None;
      }
      runs := runs[id := record];
      active := Some(id);
      reply := Run(record);
    }

    method EnsureStartedRun(id: RunId, startedAt: nat, metadata: Metadata) returns (reply: Reply)
      modifies this
      ensures (State(), reply) == EnsureStarted(old(State()), id, startedAt, metadata)
    {
      if active.Some? && active.value != 0 {
        if active.value in runs && runs[active.value].status == Started {
          return Run(runs[active.value]);
        }
        active := None;
      }
      var record := NewRecord(id, startedAt, metadata);
      runs := runs[id := record];
      active := Some(id);
      reply := Run(record);
    }

    method NextCompletionSequence() returns (next: Option<int>)
      modifies this`counter
      ensures next.Some? <==> CanCount(old(counter))
      ensures counter == if next.Some? then next else old(counter)
      ensures next.Some? ==> next.value == NextCount(old(counter))
    {
      if counter.Some? && (counter.value < 0 || counter.value >= MAX_SAFE_INTEGER) {
        return None;
      }
      next := Some((if counter.Some? then counter.value else 0) + 1);
      counter := next;
    }

    method AdvanceLastCompletion(candidate: Record)
      modifies this`lastCompletion
      ensures State() == AdvanceCompletion(old(State()), candidate)
    {
      if candidate.status == Started {
        return;
      }
      if lastCompletion.None? || lastCompletion.value == 0 {
        lastCompletion := Some(candidate.runId);
        return;
      }
      var current := lastCompletion.value;
      if current == candidate.runId {
        return;
      }
      if current !in runs || runs[current].status == Started || Newer(candidate, runs[current]) {
        lastCompletion := Some(candidate.runId);
      }
    }

    method AdvanceLastSuccess(candidate: Record)
      modifies this`lastSuccess
      ensures State() == AdvanceSuccess(old(State()), candidate)
    {
      if !CleanSuccess(candidate) {
        return;
      }
      if lastSuccess.None? || lastSuccess.value == 0 {
        lastSuccess := Some(candidate.runId);
        return;
      }
      var current := lastSuccess.value;
      if current == candidate.runId {
        return;
      }
      if current !in runs || !CleanSuccess(runs[current]) || Newer(candidate, runs[current]) {
        lastSuccess := Some(candidate.runId);
      }
    }

    method ClearActiveRun(id: RunId)
      modifies this`active
      ensures State() == ClearActive(old(State()), id)
    {
      if active == Some(id) {
        active := None;
      }
    }

    method CompleteRun(id: RunId, endedAt: Stamp, exitCode: int, reason: Reason) returns (reply: Reply)
      modifies this
      ensures (State(), reply) == Complete(old(State()), id, endedAt, exitCode, reason)
    {
      if id !in runs {
        return NotFound;
      }
      var started := runs[id];
      if started.status != Started {
        AdvanceLastCompletion(started);
        if CleanSuccess(started) {
          AdvanceLastSuccess(started);
        }
        ClearActiveRun(id);
        return Run(started);
      }
      var sequence := NextCompletionSequence();
      if sequence.None? {
        return InvalidSequence;
      }
      var finished := Finished(started, sequence.value, endedAt, exitCode, reason);
      runs := runs[id := finished];
      AdvanceLastCompletion(finished);
      if reason == Exit && exitCode == 0 {
        AdvanceLastSuccess(finished);
      }
      ClearActiveRun(id);
      reply := Run(finished);
    }
  }
}
