/** Sync runs of hub/src/store.ts: run records, the active key, a completion counter and the two
    pointers to the newest completion and the newest clean success. */
module SyncRunModel {
  import opened Collections

  /** Run ids in code-unit order; 0 is the empty string, the only id JavaScript treats as absent. */
  type RunId = nat

  const MAX_SAFE_INTEGER: int := 0x1F_FFFF_FFFF_FFFF

  /** What `Date.parse` makes of an end time. */
  datatype Stamp = Unparseable | At(ms: int)

  datatype Status = Started | Succeeded | Failed
  datatype Class = StartedClass | CleanExit | NonzeroExit | SignalClass
  datatype Reason = Exit | RuntimeSignal

  datatype Metadata = Metadata(imageDigest: Option<nat>, fingerprint: Option<nat>, targetCount: Option<nat>)

  datatype Record = Record(
    runId: RunId, metadata: Metadata, startedAt: nat, sequence: Option<int>, endedAt: Option<Stamp>,
    status: Status, classification: Class, exitCode: Option<int>, reason: Option<Reason>)

  datatype Store = Store(
    runs: map<RunId, Record>, active: Option<RunId>, counter: Option<int>,
    lastCompletion: Option<RunId>, lastSuccess: Option<RunId>)

  datatype Reply = NotFound | Run(record: Record) | AlreadyActive | InvalidSequence

  const EMPTY: Store := Store(map[], None, None, None, None)

  // ---------------------------------------------------------------- order

  function EndTime(r: Record): Stamp {
    if r.endedAt.Some? then r.endedAt.value else Unparseable
  }

  function ValidSequence(value: Option<int>): Option<int> {
    if value.Some? && 0 < value.value <= MAX_SAFE_INTEGER then value else None
  }

  /** `isCompletionNewer`. */
  predicate Newer(candidate: Record, current: Record) {
    var a, b := EndTime(candidate), EndTime(current);
    if a.At? && b.At? then
      if a != b then a.ms > b.ms
      else
        var x, y := ValidSequence(candidate.sequence), ValidSequence(current.sequence);
        if x.Some? || y.Some? then x.Some? && (y.None? || x.value > y.value)
        else candidate.runId > current.runId
    else if a.At? then true
    else if b.At? then false
    else candidate.runId > current.runId
  }

  predicate CleanSuccess(r: Record) {
    && r.status == Succeeded && r.classification == CleanExit
    && r.exitCode == Some(0) && r.reason == Some(Exit) && EndTime(r).At?
  }

  // ---------------------------------------------------------------- start

  function NewRecord(id: RunId, startedAt: nat, metadata: Metadata): Record {
    Record(id, metadata, startedAt, None, None, Started, StartedClass, None, None)
  }

  /** The active key names a run that is still started. */
  predicate Busy(s: Store) {
    s.active.Some? && s.active.value != 0 && s.active.value in s.runs && s.runs[s.active.value].status == Started
  }

  function PutStarted(s: Store, id: RunId, startedAt: nat, metadata: Metadata): (Store, Reply) {
    if Busy(s) then (s, AlreadyActive)
    else
      var record := NewRecord(id, startedAt, metadata);
      (s.(runs := s.runs[id := record], active := Some(id)), Run(record))
  }

  /** `id` is the random id drawn when a run has to be created. */
  function EnsureStarted(s: Store, id: RunId, startedAt: nat, metadata: Metadata): (Store, Reply) {
    if Busy(s) then (s, Run(s.runs[s.active.value])) else PutStarted(s, id, startedAt, metadata)
  }

  // ------------------------------------------------------------- complete

  function Present(pointer: Option<RunId>): Option<RunId> {
    if pointer == Some(0) then None else pointer
  }

  function AdvanceCompletion(s: Store, r: Record): Store {
    if r.status == Started then s
    else
      var current := Present(s.lastCompletion);
      if current.None? then s.(lastCompletion := Some(r.runId))
      else if current.value == r.runId then s
      else if current.value !in s.runs || s.runs[current.value].status == Started || Newer(r, s.runs[current.value])
      then s.(lastCompletion := Some(r.runId))
      else s
  }

  function AdvanceSuccess(s: Store, r: Record): Store {
    if !CleanSuccess(r) then s
    else
      var current := Present(s.lastSuccess);
      if current.None? then s.(lastSuccess := Some(r.runId))
      else if current.value == r.runId then s
      else if current.value !in s.runs || !CleanSuccess(s.runs[current.value]) || Newer(r, s.runs[current.value])
      then s.(lastSuccess := Some(r.runId))
      else s
  }

  function ClearActive(s: Store, id: RunId): Store {
    if s.active == Some(id) then s.(active := None) else s
  }

  predicate CanCount(counter: Option<int>) {
    counter.None? || 0 <= counter.value < MAX_SAFE_INTEGER
  }

  function NextCount(counter: Option<int>): int {
    (if counter.None? then 0 else counter.value) + 1
  }

  function Finished(started: Record, sequence: int, endedAt: Stamp, exitCode: int, reason: Reason): Record {
    var clean := reason == Exit && exitCode == 0;
    started.(
      sequence := Some(sequence), endedAt := Some(endedAt),
      status := if clean then Succeeded else Failed,
      classification := if reason == RuntimeSignal then SignalClass else if clean then CleanExit else NonzeroExit,
      exitCode := Some(exitCode), reason := Some(reason))
  }

  function Complete(s: Store, id: RunId, endedAt: Stamp, exitCode: int, reason: Reason): (Store, Reply) {
    if id !in s.runs then (s, NotFound)
    else if s.runs[id].status != Started then
      (ClearActive(AdvanceSuccess(AdvanceCompletion(s, s.runs[id]), s.runs[id]), id), Run(s.runs[id]))
    else if !CanCount(s.counter) then (s, InvalidSequence)
    else
      var n := NextCount(s.counter);
      var r := Finished(s.runs[id], n, endedAt, exitCode, reason);
      var put := s.(counter := Some(n), runs := s.runs[id := r]);
      (ClearActive(AdvanceSuccess(AdvanceCompletion(put, r), r), id), Run(r))
  }

  // --------------------------------------------------------------- health

  datatype Health = Active | Unknown | FingerprintDrift | Stale | Degraded | Healthy

  function AgeSeconds(now: int, ended: int): nat {
    var age := (now - ended) / 1000;
    if age < 0 then 0 else age
  }

  function LastCompletion(s: Store): Option<Record> {
    var id := Present(s.lastCompletion);
    if id.Some? && id.value in s.runs && s.runs[id.value].status != Started then Some(s.runs[id.value]) else None
  }

  function LastSuccess(s: Store): (r: Option<Record>)
    ensures r.Some? ==> CleanSuccess(r.value)
  {
    var id := Present(s.lastSuccess);
    if id.Some? && id.value in s.runs && CleanSuccess(s.runs[id.value]) then Some(s.runs[id.value]) else None
  }

  predicate IsStale(success: Record, now: int, threshold: nat) {
    EndTime(success).At? ==> AgeSeconds(now, EndTime(success).ms) >= threshold
  }

  function HealthStatus(s: Store, now: int, expected: Option<nat>, threshold: nat): Health {
    var success, completion := LastSuccess(s), LastCompletion(s);
    if Busy(s) then Active
    else if success.None? then Unknown
    else if expected.Some? && success.value.metadata.fingerprint != expected then FingerprintDrift
    else if IsStale(success.value, now, threshold) then Stale
    else if completion.Some? && completion.value.status == Failed then Degraded
    else Healthy
  }

  // ----------------------------------------------------------------- runs

  datatype Command =
    | DoStart(id: RunId, startedAt: nat, metadata: Metadata)
    | DoEnsure(id: RunId, startedAt: nat, metadata: Metadata)
    | DoComplete(id: RunId, endedAt: Stamp, exitCode: int, reason: Reason)

  function Step(s: Store, c: Command): Store {
    match c
    case DoStart(id, startedAt, metadata) => PutStarted(s, id, startedAt, metadata).0
    case DoEnsure(id, startedAt, metadata) => EnsureStarted(s, id, startedAt, metadata).0
    case DoComplete(id, endedAt, exitCode, reason) => Complete(s, id, endedAt, exitCode, reason).0
  }

  function Execute(s: Store, commands: seq<Command>): Store
    decreases |commands|
  {
    if commands == [] then s
    else Step(Execute(s, commands[..|commands| - 1]), commands[|commands| - 1])
  }

  /** Run ids are not empty and are never given to two runs. */
  ghost predicate FreshIds(commands: seq<Command>) {
    && (forall i :: 0 <= i < |commands| && !commands[i].DoComplete? ==> commands[i].id != 0)
    && (forall i, j :: 0 <= i < j < |commands| && !commands[i].DoComplete? && !commands[j].DoComplete? ==>
          commands[i].id != commands[j].id)
  }
}
