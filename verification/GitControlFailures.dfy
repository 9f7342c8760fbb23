/** Which failure an executor reports, exactly: on a clean remote it is decided by how many reads its
    first check had made when the claim landed, on any other remote by the refs themselves. */
module GitControlFailures {
  import opened Collections
  import opened GitControlModel
  import opened GitControlSafety

  // ------------------------------------------------------- the first check

  lemma BeforeIsNotLanded(cap: Capability, c: Oid)
    ensures Before(cap) != Landed(cap, c)
  {
    assert Before(cap)[0] == None && Landed(cap, c)[0] == Some(c);
  }

  /** What the first check decides, in terms of the bound refs. */
  lemma CheckExplains(cap: Capability, refs: Refs)
    ensures var bound := Snapshot(refs, Targets(cap));
            var outcome := AfterCheck(cap, Snapshot(refs, CheckOrder(cap)));
            && (outcome == Claiming <==> bound == Before(cap))
            && (outcome != Claiming ==>
              outcome in {Failed(AlreadyCompleted), Failed(Inconsistent), Failed(PreconditionFailed)})
            && (outcome == Failed(AlreadyCompleted) <==> exists c :: bound == Landed(cap, c))
            && (outcome == Failed(PreconditionFailed) <==>
                  At(refs, cap.claimRef).None? && At(refs, cap.completionRef).None? && bound != Before(cap))
  {
    var bound := Snapshot(refs, Targets(cap));
    var seen := Snapshot(refs, CheckOrder(cap));
    CheckSeesTargets(cap, refs);
    if seen[1].Some? && seen[0] == seen[1] && seen[2..] == DesiredOids(cap) {
      assert bound == Landed(cap, seen[1].value);
    }
    forall c: Oid | bound == Landed(cap, c)
      ensures seen[1] == Some(c) && seen[0] == Some(c) && seen[2..] == DesiredOids(cap)
    {
      assert bound[2..] == seen[2..] && Landed(cap, c)[2..] == DesiredOids(cap);
      assert bound[0] == Some(c) && bound[1] == Some(c);
    }
    if bound == Before(cap) {
      assert bound[2..] == seen[2..] && Before(cap)[2..] == ExpectedOids(cap);
      assert bound[0] == None && bound[1] == None;
    }
  }

  /** What a first check sees that had made k reads when the push of `claim` landed. */
  ghost function Mixed(cap: Capability, claim: Oid, k: nat): (seen: seq<Option<Oid>>)
    requires k <= |cap.operations| + 2
    ensures |seen| == |cap.operations| + 2
    ensures forall i :: 0 <= i < |seen| ==> seen[i] == if i < k then Before(cap)[i] else Landed(cap, claim)[i]
  {
    Before(cap)[..k] + Landed(cap, claim)[k..]
  }

  /** The check's verdict by the number of reads made before the landing. */
  ghost function Verdict(cap: Capability, k: nat): Executor {
    if k == 0 then Failed(AlreadyCompleted)
    else if k == 1 then Failed(Inconsistent)
    else if k < |cap.operations| + 2 then Failed(PreconditionFailed)
    else Claiming
  }

  lemma MixedIsJudged(cap: Capability, claim: Oid, k: nat)
    requires ValidCapability(cap) && k <= |cap.operations| + 2
    ensures AfterCheck(cap, Mixed(cap, claim, k)) == Verdict(cap, k)
  {
    var seen := Mixed(cap, claim, k);
    assert seen[0] == if k == 0 then Some(claim) else None;
    assert seen[1] == if k <= 1 then Some(claim) else None;
    if k <= 2 {
      assert seen[2..] == DesiredOids(cap);
    } else {
      assert seen[2] == Some(cap.operations[0].expected) && DesiredOids(cap)[0] == Some(cap.operations[0].desired);
    }
    if k < |cap.operations| + 2 {
      var last := |cap.operations| - 1;
      assert seen[last + 2] == Some(cap.operations[last].desired) && seen[2..][last] == seen[last + 2];
      assert ExpectedOids(cap)[last] == Some(cap.operations[last].expected);
    } else {
      assert seen[2..] == ExpectedOids(cap);
    }
  }

  // ------------------------------------------------------------- all runs

  /** Reads the first check has made; all of them once it is over. */
  function ReadsMade(cap: Capability, e: Executor): nat {
    if e.Checking? then |e.seen| else |cap.operations| + 2
  }

  /** Reads the executor's first check had made when the claim landed, or has made if none has. */
  function ReadsBeforeLanding(p: Protocol, s: System, pid: Pid): nat {
    if s.landings == [] then ReadsMade(p.cap, ExecutorOf(s, pid))
    else ReadsMade(p.cap, if pid in s.atLanding then s.atLanding[pid] else Checking([]))
  }

  /** On a clean remote the count explains what each executor has seen and how its check ended. */
  ghost predicate CheckInv(p: Protocol, s: System, pid: Pid) {
    var k, n := ReadsBeforeLanding(p, s, pid), |p.cap.operations| + 2;
    match ExecutorOf(s, pid)
    case Checking(seen) =>
      && k <= |seen| < n
      && seen == if s.landings == [] then Before(p.cap)[..|seen|] else Mixed(p.cap, s.landings[0], k)[..|seen|]
    case Failed(why) => if why == CasDenied then k == n else Failed(why) == Verdict(p.cap, k)
    case _ => k == n
  }

  /** On any other remote the verdict is that of the refs it started with. */
  ghost predicate DirtyInv(p: Protocol, start: Refs, s: System, pid: Pid) {
    var e := ExecutorOf(s, pid);
    e.Failed? ==> e == AfterCheck(p.cap, Snapshot(start, CheckOrder(p.cap)))
  }

  ghost predicate FailureInv(p: Protocol, start: Refs, s: System) {
    if Clean(p, start) then forall pid: Pid :: CheckInv(p, s, pid) else forall pid: Pid :: DirtyInv(p, start, s, pid)
  }

  lemma CheckSees(p: Protocol, start: Refs, s: System, i: nat)
    requires Clean(p, start) && RefsInv(p, start, s) && i < |p.cap.operations| + 2
    ensures At(s.refs, CheckOrder(p.cap)[i]) == if s.landings == [] then Before(p.cap)[i]
            else Landed(p.cap, s.landings[0])[i]
  {
    hide CheckOrder, Targets, ExpectedOids, DesiredOids;
    var j := if i == 0 then 1 else if i == 1 then 0 else i;
    CheckSeesTargets(p.cap, s.refs);
    assert Snapshot(s.refs, CheckOrder(p.cap))[i] == Snapshot(s.refs, Targets(p.cap))[j];
  }

  lemma NextSeen(all: seq<Option<Oid>>, seen: seq<Option<Oid>>, value: Option<Oid>)
    requires |seen| < |all| && seen == all[..|seen|] && value == all[|seen|]
    ensures seen + [value] == all[..|seen| + 1]
    ensures |seen| + 1 == |all| ==> seen + [value] == all
  {
  }

  lemma CheckStep(p: Protocol, s: System, pid: Pid, seen: seq<Option<Oid>>)
    requires ExecutorOf(s, pid) == Checking(seen) && |seen| < |p.cap.operations| + 2
    ensures var next := seen + [At(s.refs, CheckOrder(p.cap)[|seen|])];
            StepRead(p, s, pid) == s.(executors := s.executors[pid :=
              if |next| == |p.cap.operations| + 2 then AfterCheck(p.cap, next) else Checking(next)])
  {
    hide AfterCheck, CheckOrder;
  }

  /** A first check that has seen `all` ends as its count says. */
  lemma CheckEnds(p: Protocol, s: System, k: nat, all: seq<Option<Oid>>)
    requires ValidProtocol(p) && k <= |p.cap.operations| + 2
    requires if s.landings == [] then all == Before(p.cap)
             && k == |p.cap.operations| + 2 else all == Mixed(p.cap, s.landings[0], k)
    ensures AfterCheck(p.cap, all) == Verdict(p.cap, k)
  {
    hide AfterCheck, Before, Landed;
    if s.landings == [] {
      assert Before(p.cap) == Mixed(p.cap, 0, k);
      MixedIsJudged(p.cap, 0, k);
    } else {
      MixedIsJudged(p.cap, s.landings[0], k);
    }
  }

  /** One more read of a first check. */
  lemma ReadKeepsCheck(p: Protocol, start: Refs, s: System, pid: Pid)
    requires ValidProtocol(p) && Clean(p, start) && RefsInv(p, start, s) && CheckInv(p, s, pid)
             && ExecutorOf(s, pid).Checking?
    ensures CheckInv(p, StepRead(p, s, pid), pid)
  {
    hide RefsInv, Clean, CheckOrder, Before, Landed, AfterCheck, StepRead, ValidProtocol, Mixed;
    var seen, n := ExecutorOf(s, pid).seen, |p.cap.operations| + 2;
    var k := ReadsBeforeLanding(p, s, pid);
    var all := if s.landings == [] then Before(p.cap) else Mixed(p.cap, s.landings[0], k);
    CheckSees(p, start, s, |seen|);
    CheckStep(p, s, pid, seen);
    NextSeen(all, seen, At(s.refs, CheckOrder(p.cap)[|seen|]));
    if |seen| + 1 == n {
      CheckEnds(p, s, if s.landings == [] then n else k, all);
    }
  }

  /** Past the check, a step of this executor keeps the count and fails only as denied. */
  lemma LaterKeepsCheck(p: Protocol, start: Refs, s: System, t: System, pid: Pid)
    requires CheckInv(p, s, pid) && !ExecutorOf(s, pid).Checking? && !ExecutorOf(s, pid).Failed?
    requires t.landings == s.landings && t.atLanding == s.atLanding
    requires !ExecutorOf(t, pid).Checking? && (ExecutorOf(t, pid).Failed? ==> ExecutorOf(t, pid).why == CasDenied)
    ensures CheckInv(p, t, pid)
  {
  }

  /** Past the check the only failure an executor can still report is a denied push. */
  lemma LaterFailsDenied(p: Protocol, start: Refs, s: System, pid: Pid)
    requires Inv(p, start, s) && Inv(p, start, StepRead(p, s, pid))
    requires !ExecutorOf(s, pid).Checking? && !ExecutorOf(s, pid).Failed?
    ensures var e := ExecutorOf(StepRead(p, s, pid), pid); !e.Checking? && (e.Failed? ==> e.why == CasDenied)
  {
    var t := StepRead(p, s, pid);
    assert ExecutorInv(p, start, t.landings, pid, ExecutorOf(t, pid));
  }

  lemma OthersKeepCheck(p: Protocol, s: System, t: System, q: Pid)
    requires CheckInv(p, s, q) && ExecutorOf(t, q) == ExecutorOf(s, q)
    requires t.landings == s.landings && t.atLanding == s.atLanding
    ensures CheckInv(p, t, q)
  {
  }

  lemma LandingKeepsCheck(p: Protocol, s: System, t: System, oid: Oid, q: Pid)
    requires CheckInv(p, s, q) && t.executors == s.executors
    requires s.landings == [] && t.landings == [oid] && t.atLanding == s.executors
    ensures CheckInv(p, t, q)
  {
    var e := ExecutorOf(s, q);
    if e.Checking? {
      assert Before(p.cap)[..|e.seen|] == Mixed(p.cap, oid, |e.seen|)[..|e.seen|];
    }
  }

  lemma InvHasRefs(p: Protocol, start: Refs, s: System)
    requires Inv(p, start, s)
    ensures RefsInv(p, start, s)
  {
  }

  lemma ReadFrames(p: Protocol, s: System, pid: Pid)
    ensures var t := StepRead(p, s, pid);
            && t.landings == s.landings && t.atLanding == s.atLanding
            && forall q: Pid :: q != pid ==> ExecutorOf(t, q) == ExecutorOf(s, q)
  {
    hide Observe, NextRead;
  }

  lemma OwnReadKeepsCheck(p: Protocol, start: Refs, s: System, q: Pid)
    requires ValidProtocol(p) && Clean(p, start) && Inv(p, start, s) && CheckInv(p, s, q)
    ensures CheckInv(p, StepRead(p, s, q), q)
  {
    hide CheckInv, Clean, Inv, StepRead;
    ReadFrames(p, s, q);
    InvHasRefs(p, start, s);
    var t := StepRead(p, s, q);
    if ExecutorOf(s, q).Checking? {
      ReadKeepsCheck(p, start, s, q);
    } else if ExecutorOf(s, q).Failed? {
      FailedStays(p, s, q);
      OthersKeepCheck(p, s, t, q);
    } else {
      StepReadKeepsInv(p, start, s, q);
      LaterFailsDenied(p, start, s, q);
      LaterKeepsCheck(p, start, s, t, q);
    }
  }

  lemma CleanStep(p: Protocol, start: Refs, s: System, e: Event, q: Pid)
    requires ValidProtocol(p) && Clean(p, start) && Inv(p, start, s) && CheckInv(p, s, q)
    ensures CheckInv(p, Step(p, s, e), q)
  {
    hide CheckInv, Clean, ExecutorInv, StepRead;
    var t := Step(p, s, e);
    match e {
      case Read(pid) =>
        if pid != q {
          ReadFrames(p, s, pid);
          OthersKeepCheck(p, s, t, q);
        } else {
          OwnReadKeepsCheck(p, start, s, q);
        }
      case Send(pid) =>
        if ExecutorOf(t, q) == ExecutorOf(s, q) {
          OthersKeepCheck(p, s, t, q);
        } else {
          LaterKeepsCheck(p, start, s, t, q);
        }
      case Answer(pid, ok) =>
        if ExecutorOf(t, q) == ExecutorOf(s, q) {
          OthersKeepCheck(p, s, t, q);
        } else {
          LaterKeepsCheck(p, start, s, t, q);
        }
      case Deliver(oid) =>
        if t.landings == s.landings {
          OthersKeepCheck(p, s, t, q);
        } else {
          StepDeliverKeepsInv(p, start, s, oid);
          LandingKeepsCheck(p, s, t, oid, q);
        }
      case OtherWrite(ref, value) => OthersKeepCheck(p, s, t, q);
    }
  }

  lemma FailedStays(p: Protocol, s: System, pid: Pid)
    requires ExecutorOf(s, pid).Failed?
    ensures StepRead(p, s, pid) == s
  {
  }

  lemma DirtyStep(p: Protocol, start: Refs, s: System, e: Event, q: Pid)
    requires ValidProtocol(p) && !Clean(p, start) && Inv(p, start, s) && DirtyInv(p, start, s, q)
    ensures DirtyInv(p, start, Step(p, s, e), q)
  {
    hide Clean, AfterCheck, CheckOrder, Snapshot, Landed, Before, Targets;
    var was := ExecutorOf(s, q);
    assert ExecutorInv(p, start, s.landings, q, was);
    assert s.landings == [];
    if e.Read? && e.pid == q && NextRead(p.cap, was).Some? {
      var all := Snapshot(start, CheckOrder(p.cap));
      ReadSeesState(p, start, s, was);
      PrefixGrows(was.seen, all, At(s.refs, NextRead(p.cap, was).value));
    }
  }

  lemma {:induction false} RunKeepsFailures(p: Protocol, start: Refs, events: seq<Event>)
    requires ValidProtocol(p)
    ensures Inv(p, start, Run(p, Start(start), events)) && FailureInv(p, start, Run(p, Start(start), events))
    decreases |events|
  {
    hide Inv, Step, CheckInv, DirtyInv, Clean;
    StartIsConsistent(p, start);
    RunKeepsInv(p, start, Start(start), events);
    if events == [] {
      StartExplains(p, start);
    } else {
      var front, e := events[..|events| - 1], events[|events| - 1];
      RunKeepsFailures(p, start, front);
      var s := Run(p, Start(start), front);
      forall q: Pid
        ensures if Clean(p, start) then CheckInv(p, Step(p, s, e), q) else DirtyInv(p, start, Step(p, s, e), q)
      {
        if Clean(p, start) {
          CleanStep(p, start, s, e, q);
        } else {
          DirtyStep(p, start, s, e, q);
        }
      }
    }
  }

  lemma StartExplains(p: Protocol, start: Refs)
    ensures FailureInv(p, start, Start(start))
  {
  }

  // -------------------------------------------------------- main theorems

  /** On a clean remote an executor whose first check is over reports a completed transaction exactly
      when the claim landed before its first read, an inconsistent one exactly when it landed between
      the first and the second, a failed precondition exactly when it landed later but before the
      last; and it goes on to push exactly when all reads came before any landing. */
  lemma FailureTellsWhenTheClaimLanded(p: Protocol, start: Refs, events: seq<Event>, pid: Pid)
    requires ValidProtocol(p) && Snapshot(start, Targets(p.cap)) == Before(p.cap)
    requires !ExecutorOf(Run(p, Start(start), events), pid).Checking?
    ensures var s := Run(p, Start(start), events); var e := ExecutorOf(s, pid);
            var k := ReadsBeforeLanding(p, s, pid);
            && (e == Failed(AlreadyCompleted) <==> k == 0)
            && (e == Failed(Inconsistent) <==> k == 1)
            && (e == Failed(PreconditionFailed) <==> 2 <= k < |p.cap.operations| + 2)
            && (!e.Failed? || e.why == CasDenied <==> k == |p.cap.operations| + 2)
  {
    RunKeepsFailures(p, start, events);
    var s := Run(p, Start(start), events);
    assert CheckInv(p, s, pid);
  }

  /** On any other remote no claim ever lands, every finished check fails, and how depends on the
      refs alone: completed when they are some claim's landed state, a failed precondition when
      claim and completion are absent, inconsistent otherwise. */
  lemma DirtyRemoteIsRefused(p: Protocol, start: Refs, events: seq<Event>, pid: Pid)
    requires ValidProtocol(p) && Snapshot(start, Targets(p.cap)) != Before(p.cap)
    ensures var s := Run(p, Start(start), events); var e := ExecutorOf(s, pid);
            && s.landings == []
            && (e.Checking? || e.Failed?)
            && (e.Failed? ==>
                  && (e.why == AlreadyCompleted <==>
                    exists c: Oid :: Snapshot(start, Targets(p.cap)) == Landed(p.cap, c))
                  && (e.why == PreconditionFailed <==>
                    At(start, p.cap.claimRef).None? && At(start, p.cap.completionRef).None?)
                  && e.why in {AlreadyCompleted, PreconditionFailed, Inconsistent})
  {
    RunKeepsFailures(p, start, events);
    var s := Run(p, Start(start), events);
    assert ExecutorInv(p, start, s.landings, pid, ExecutorOf(s, pid));
    assert DirtyInv(p, start, s, pid);
    CheckExplains(p.cap, start);
  }
}
