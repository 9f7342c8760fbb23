/** The candidate control executor of scripts/candidate_git_control.py: one signed capability, one
    Git remote, and any number of executors that read refs one at a time and race a single atomic
    push each. */
module GitControlModel {
  import opened Collections

  type Ref = nat
  type Oid = nat
  type Pid = nat
  type Refs = map<Ref, Oid>

  datatype Operation = Operation(ref: Ref, expected: Oid, desired: Oid)

  datatype Capability = Capability(claimRef: Ref, completionRef: Ref, operations: seq<Operation>)

  /** What capability validation guarantees about the refs it binds. */
  predicate ValidCapability(cap: Capability) {
    && cap.claimRef != cap.completionRef
    && cap.operations != []
    && (forall i :: 0 <= i < |cap.operations| ==>
          && cap.operations[i].expected != cap.operations[i].desired
          && cap.operations[i].ref != cap.claimRef
          && cap.operations[i].ref != cap.completionRef)
    && (forall i, j :: 0 <= i < j < |cap.operations| ==> cap.operations[i].ref != cap.operations[j].ref)
  }

  // ------------------------------------------------------- the bound refs

  /** Claim, completion, then the operation refs. */
  function Targets(cap: Capability): (refs: seq<Ref>)
    ensures |refs| == |cap.operations| + 2
  {
    [cap.claimRef, cap.completionRef] + seq(|cap.operations|, i
      requires 0 <= i < |cap.operations| => cap.operations[i].ref)
  }

  /** The first check reads the completion ref before the claim ref. */
  function CheckOrder(cap: Capability): (refs: seq<Ref>)
    ensures |refs| == |cap.operations| + 2
  {
    [cap.completionRef, cap.claimRef] + Targets(cap)[2..]
  }

  function At(refs: Refs, ref: Ref): Option<Oid> {
    if ref in refs then Some(refs[ref]) else None
  }

  function Snapshot(refs: Refs, names: seq<Ref>): (oids: seq<Option<Oid>>)
    ensures |oids| == |names|
    ensures forall i :: 0 <= i < |names| ==> oids[i] == At(refs, names[i])
  {
    seq(|names|, i requires 0 <= i < |names| => At(refs, names[i]))
  }

  function ExpectedOids(cap: Capability): (oids: seq<Option<Oid>>)
    ensures |oids| == |cap.operations|
  {
    seq(|cap.operations|, i requires 0 <= i < |cap.operations| => Some(cap.operations[i].expected))
  }

  function DesiredOids(cap: Capability): (oids: seq<Option<Oid>>)
    ensures |oids| == |cap.operations|
  {
    seq(|cap.operations|, i requires 0 <= i < |cap.operations| => Some(cap.operations[i].desired))
  }

  /** The bound refs before the transaction, and after the push of `claim` landed. */
  function Before(cap: Capability): (oids: seq<Option<Oid>>)
    ensures |oids| == |cap.operations| + 2
  {
    [None, None] + ExpectedOids(cap)
  }

  function Landed(cap: Capability, claim: Oid): (oids: seq<Option<Oid>>)
    ensures |oids| == |cap.operations| + 2
  {
    [Some(claim), Some(claim)] + DesiredOids(cap)
  }

  // ------------------------------------------------------ the atomic push

  datatype Update = Update(ref: Ref, lease: Option<Oid>, oid: Oid)

  /** One lease and one refspec per bound ref. */
  function PushArguments(cap: Capability, claim: Oid): (updates: seq<Update>)
    ensures |updates| == |cap.operations| + 2
  {
    [Update(cap.claimRef, None, claim), Update(cap.completionRef, None, claim)]
    + seq(|cap.operations|, i requires 0 <= i < |cap.operations| =>
        Update(cap.operations[i].ref, Some(cap.operations[i].expected), cap.operations[i].desired))
  }

  /** Git checks a lease unless the ref is already where the push wants it. */
  predicate Accepts(refs: Refs, updates: seq<Update>) {
    forall u :: u in updates ==> At(refs, u.ref) == u.lease || At(refs, u.ref) == Some(u.oid)
  }

  function Store(refs: Refs, updates: seq<Update>): Refs
    decreases |updates|
  {
    if updates == [] then refs
    else Store(refs[updates[0].ref := updates[0].oid], updates[1..])
  }

  function Push(refs: Refs, updates: seq<Update>): Refs {
    if Accepts(refs, updates) then Store(refs, updates) else refs
  }

  // ------------------------------------------------------------ executors

  datatype Failure =
    | AlreadyCompleted | Inconsistent | PreconditionFailed
    | ReadbackMismatch | CasDenied | ReplaySucceeded | ReplayChangedState

  /** Where one `execute` call stands. `seen` lists what the reads of the current pass returned. */
  datatype Executor =
    | Checking(seen: seq<Option<Oid>>)
    | Claiming
    | AwaitingPush
    | Confirming(ok: bool, seen: seq<Option<Oid>>)
    | Probing(seen: seq<Option<Oid>>)
    | Replaying(before: seq<Option<Oid>>)
    | AwaitingReplay(before: seq<Option<Oid>>)
    | Reprobing(before: seq<Option<Oid>>, ok: bool, seen: seq<Option<Oid>>)
    | Emitted
    | Failed(why: Failure)

  /** Claim commits hash a payload with a random invocation id, so they differ between executors
      and between the claim and the replay of one executor. */
  datatype Protocol = Protocol(cap: Capability, claim: Pid -> Oid, replay: Pid -> Oid)

  ghost predicate ValidProtocol(p: Protocol) {
    && ValidCapability(p.cap)
    && (forall i, j :: p.claim(i) == p.claim(j) ==> i == j)
    && (forall i, j :: p.claim(i) != p.replay(j))
  }

  function AfterCheck(cap: Capability, seen: seq<Option<Oid>>): Executor
    requires |seen| == |cap.operations| + 2
  {
    var completion, claim, operations := seen[0], seen[1], seen[2..];
    if claim.Some? || completion.Some? then
      if claim.Some? && claim == completion && operations == DesiredOids(cap) then Failed(AlreadyCompleted)
      else Failed(Inconsistent)
    else if operations != ExpectedOids(cap) then Failed(PreconditionFailed)
    else Claiming
  }

  function AfterConfirm(cap: Capability, claim: Oid, ok: bool, seen: seq<Option<Oid>>): Executor {
    if seen != Landed(cap, claim) then Failed(if ok then ReadbackMismatch else CasDenied) else Probing([])
  }

  function AfterReprobe(cap: Capability, claim: Oid, before: seq<Option<Oid>>, ok: bool,
      seen: seq<Option<Oid>>): Executor {
    if ok then Failed(ReplaySucceeded)
    else if before != Landed(cap, claim) || seen != Landed(cap, claim) then Failed(ReplayChangedState)
    else Emitted
  }

  /** The ref the executor reads next, if it is reading. */
  function NextRead(cap: Capability, e: Executor): Option<Ref> {
    var k := if e.Checking? || e.Confirming? || e.Probing? || e.Reprobing? then |e.seen| else |cap.operations| + 2;
    if k >= |cap.operations| + 2 then None
    else if e.Checking? then Some(CheckOrder(cap)[k])
    else Some(Targets(cap)[k])
  }

  function Observe(p: Protocol, pid: Pid, e: Executor, value: Option<Oid>): Executor {
    var n := |p.cap.operations| + 2;
    match e
    case Checking(seen) =>
      if |seen| + 1 == n then AfterCheck(p.cap, seen + [value]) else Checking(seen + [value])
    case Confirming(ok, seen) =>
      if |seen| + 1 == n then AfterConfirm(p.cap, p.claim(pid), ok, seen + [value]) else Confirming(ok, seen + [value])
    case Probing(seen) =>
      if |seen| + 1 == n then Replaying(seen + [value]) else Probing(seen + [value])
    case Reprobing(before, ok, seen) =>
      if |seen| + 1 == n then AfterReprobe(p.cap, p.claim(pid), before, ok, seen + [value])
      else Reprobing(before, ok, seen + [value])
    case _ => e
  }

  // --------------------------------------------------------------- system

  /** `sent` holds every push handed to the network; `landings` lists the pushes that moved refs;
      `atLanding` is where every executor stood when the last of them did. */
  datatype System = System(
    refs: Refs, sent: set<Oid>, landings: seq<Oid>, executors: map<Pid, Executor>, atLanding: map<Pid, Executor>)

  function ExecutorOf(s: System, pid: Pid): Executor {
    if pid in s.executors then s.executors[pid] else Checking([])
  }

  /** A push once sent may reach the remote at any later time, more than once or never, and its
      answer may be lost; other writers may move any ref the capability does not bind. */
  datatype Event =
    | Read(pid: Pid)
    | Send(pid: Pid)
    | Deliver(oid: Oid)
    | Answer(pid: Pid, ok: bool)
    | OtherWrite(ref: Ref, value: Option<Oid>)

  function StepRead(p: Protocol, s: System, pid: Pid): System {
    var e := ExecutorOf(s, pid);
    var ref := NextRead(p.cap, e);
    if ref.None? then s
    else s.(executors := s.executors[pid := Observe(p, pid, e, At(s.refs, ref.value))])
  }

  function StepSend(p: Protocol, s: System, pid: Pid): System {
    match ExecutorOf(s, pid)
    case Claiming => s.(sent := s.sent + {p.claim(pid)}, executors := s.executors[pid := AwaitingPush])
    case Replaying(before) => s.(sent := s.sent + {p.replay(pid)},
      executors := s.executors[pid := AwaitingReplay(before)])
    case _ => s
  }

  function StepDeliver(p: Protocol, s: System, oid: Oid): System {
    if oid !in s.sent then s
    else
      var refs := Push(s.refs, PushArguments(p.cap, oid));
      if refs == s.refs then s
      else s.(refs := refs, landings := s.landings + [oid], atLanding := s.executors)
  }

  /** The exit code is zero only for a push that landed. */
  function StepAnswer(p: Protocol, s: System, pid: Pid, ok: bool): System {
    match ExecutorOf(s, pid)
    case AwaitingPush =>
      s.(executors := s.executors[pid := Confirming(ok && p.claim(pid) in s.landings, [])])
    case AwaitingReplay(before) =>
      s.(executors := s.executors[pid := Reprobing(before, ok && p.replay(pid) in s.landings, [])])
    case _ => s
  }

  function StepOther(p: Protocol, s: System, ref: Ref, value: Option<Oid>): System {
    if ref in Targets(p.cap) then s
    else s.(refs := if value.Some? then s.refs[ref := value.value] else s.refs - {ref})
  }

  function Step(p: Protocol, s: System, e: Event): System {
    match e
    case Read(pid) => StepRead(p, s, pid)
    case Send(pid) => StepSend(p, s, pid)
    case Deliver(oid) => StepDeliver(p, s, oid)
    case Answer(pid, ok) => StepAnswer(p, s, pid, ok)
    case OtherWrite(ref, value) => StepOther(p, s, ref, value)
  }

  function Start(refs: Refs): System {
    System(refs, {}, [], map[], map[])
  }

  function Run(p: Protocol, s: System, events: seq<Event>): System
    decreases |events|
  {
    if events == [] then s
    else Step(p, Run(p, s, events[..|events| - 1]), events[|events| - 1])
  }
}
