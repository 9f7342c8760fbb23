/** Whatever the interleaving: one claim lands at most, its refs move together and stay, and one
    executor at most emits a readback. */
module GitControlSafety {
  import opened Collections
  import opened GitControlModel

  // ------------------------------------------------------ the atomic push

  ghost predicate DistinctRefs(updates: seq<Update>) {
    forall i, j :: 0 <= i < j < |updates| ==> updates[i].ref != updates[j].ref
  }

  lemma {:induction false} StoreAt(refs: Refs, updates: seq<Update>, ref: Ref)
    requires DistinctRefs(updates)
    ensures forall i :: 0 <= i < |updates| && updates[i].ref == ref ==>
            At(Store(refs, updates), ref) == Some(updates[i].oid)
    ensures (forall i :: 0 <= i < |updates| ==> updates[i].ref != ref) ==>
            At(Store(refs, updates), ref) == At(refs, ref)
    decreases |updates|
  {
    if updates != [] {
      var first, rest := updates[0], updates[1..];
      var next := refs[first.ref := first.oid];
      StoreAt(next, rest, ref);
      assert forall i :: 0 <= i < |rest| ==> rest[i] == updates[i + 1];
      forall i | 0 <= i < |updates| && updates[i].ref == ref
        ensures At(Store(refs, updates), ref) == Some(updates[i].oid)
      {
        if i > 0 {
          assert rest[i - 1] == updates[i];
        }
      }
    }
  }

  lemma ArgumentsFollowTargets(cap: Capability, claim: Oid, i: nat)
    requires i < |cap.operations| + 2
    ensures var u := PushArguments(cap, claim)[i];
            u == Update(Targets(cap)[i], Before(cap)[i], u.oid) && Some(u.oid) == Landed(cap, claim)[i]
  {
  }

  lemma TargetsAreDistinct(cap: Capability, claim: Oid)
    requires ValidCapability(cap)
    ensures DistinctRefs(PushArguments(cap, claim))
    ensures forall i, j :: 0 <= i < j < |Targets(cap)| ==> Targets(cap)[i] != Targets(cap)[j]
  {
  }

  /** On the bound refs a stored push is the landed state; elsewhere it changes nothing. */
  lemma StoreLands(cap: Capability, refs: Refs, claim: Oid)
    requires ValidCapability(cap)
    ensures var next := Store(refs, PushArguments(cap, claim));
            && Snapshot(next, Targets(cap)) == Landed(cap, claim)
            && forall ref :: ref !in Targets(cap) ==> At(next, ref) == At(refs, ref)
  {
    var updates := PushArguments(cap, claim);
    var next := Store(refs, updates);
    TargetsAreDistinct(cap, claim);
    forall i | 0 <= i < |Targets(cap)| ensures At(next, Targets(cap)[i]) == Landed(cap, claim)[i] {
      ArgumentsFollowTargets(cap, claim, i);
      StoreAt(refs, updates, Targets(cap)[i]);
    }
    forall ref | ref !in Targets(cap) ensures At(next, ref) == At(refs, ref) {
      forall i | 0 <= i < |updates| ensures updates[i].ref != ref {
        ArgumentsFollowTargets(cap, claim, i);
        assert Targets(cap)[i] in Targets(cap);
      }
      StoreAt(refs, updates, ref);
    }
  }

  /** A push lands exactly when every bound ref is as expected or already as wanted. */
  lemma AcceptsExactly(cap: Capability, refs: Refs, claim: Oid)
    ensures Accepts(refs, PushArguments(cap, claim)) <==>
            forall i :: 0 <= i < |Targets(cap)| ==>
              At(refs, Targets(cap)[i]) == Before(cap)[i] || At(refs, Targets(cap)[i]) == Landed(cap, claim)[i]
  {
    var updates := PushArguments(cap, claim);
    forall i | 0 <= i < |updates|
      ensures updates[i] in updates && updates[i] == Update(Targets(cap)[i], Before(cap)[i], updates[i].oid)
      ensures Some(updates[i].oid) == Landed(cap, claim)[i]
    {
      ArgumentsFollowTargets(cap, claim, i);
    }
  }

  lemma SameEverywhere(a: Refs, b: Refs)
    requires forall ref :: At(a, ref) == At(b, ref)
    ensures a == b
  {
    forall ref ensures ref in a <==> ref in b {
      assert At(a, ref) == At(b, ref);
    }
    forall ref | ref in a ensures a[ref] == b[ref] {
      assert At(a, ref) == At(b, ref);
    }
  }

  /** A push on refs another push has already claimed moves nothing. */
  lemma SecondPushIsInert(cap: Capability, refs: Refs, winner: Oid, claim: Oid)
    requires ValidCapability(cap) && Snapshot(refs, Targets(cap)) == Landed(cap, winner)
    ensures Push(refs, PushArguments(cap, claim)) == refs
  {
    AcceptsExactly(cap, refs, claim);
    assert At(refs, Targets(cap)[0]) == Some(winner);
    if Accepts(refs, PushArguments(cap, claim)) {
      assert claim == winner;
      StoreLands(cap, refs, claim);
      var next := Store(refs, PushArguments(cap, claim));
      forall ref ensures At(next, ref) == At(refs, ref) {
        if ref in Targets(cap) {
          var i :| 0 <= i < |Targets(cap)| && Targets(cap)[i] == ref;
          assert At(next, ref) == Landed(cap, claim)[i] == At(refs, ref);
        }
      }
      SameEverywhere(next, refs);
    }
  }

  /** On untouched refs the push takes the whole landed state and does move something. */
  lemma FirstPushLands(cap: Capability, refs: Refs, claim: Oid)
    requires ValidCapability(cap) && Snapshot(refs, Targets(cap)) == Before(cap)
    ensures var next := Push(refs, PushArguments(cap, claim));
            && next != refs
            && Snapshot(next, Targets(cap)) == Landed(cap, claim)
            && forall ref :: ref !in Targets(cap) ==> At(next, ref) == At(refs, ref)
  {
    AcceptsExactly(cap, refs, claim);
    StoreLands(cap, refs, claim);
    var next := Push(refs, PushArguments(cap, claim));
    assert At(next, Targets(cap)[0]) == Some(claim) && At(refs, Targets(cap)[0]) == None;
  }

  // ------------------------------------------------------------ invariant

  ghost predicate Clean(p: Protocol, start: Refs) {
    Snapshot(start, Targets(p.cap)) == Before(p.cap)
  }

  ghost predicate IsPrefix(seen: seq<Option<Oid>>, all: seq<Option<Oid>>) {
    |seen| < |all| && forall k :: 0 <= k < |seen| ==> seen[k] == all[k]
  }

  ghost predicate ExecutorInv(p: Protocol, start: Refs, landings: seq<Oid>, pid: Pid, e: Executor) {
    match e
    case Checking(seen) =>
      && |seen| < |p.cap.operations| + 2
      && (landings == [] ==> IsPrefix(seen, Snapshot(start, CheckOrder(p.cap))))
    case Claiming => Clean(p, start)
    case AwaitingPush => Clean(p, start)
    case Confirming(ok, seen) =>
      && Clean(p, start)
      && |seen| < |p.cap.operations| + 2
      && (ok ==> landings == [p.claim(pid)] && IsPrefix(seen, Landed(p.cap, p.claim(pid))))
      && (|seen| > 0 && seen[0] == Some(p.claim(pid)) ==> landings == [p.claim(pid)])
    case Probing(seen) =>
      landings == [p.claim(pid)] && IsPrefix(seen, Landed(p.cap, p.claim(pid)))
    case Replaying(before) =>
      landings == [p.claim(pid)] && before == Landed(p.cap, p.claim(pid))
    case AwaitingReplay(before) =>
      landings == [p.claim(pid)] && before == Landed(p.cap, p.claim(pid))
    case Reprobing(before, ok, seen) =>
      && landings == [p.claim(pid)] && before == Landed(p.cap, p.claim(pid))
      && !ok && IsPrefix(seen, Landed(p.cap, p.claim(pid)))
    case Emitted => landings == [p.claim(pid)]
    case Failed(why) =>
      && why != ReadbackMismatch && why != ReplaySucceeded && why != ReplayChangedState
      && (Clean(p, start) && why != CasDenied ==> landings != [])
  }

  ghost predicate RefsInv(p: Protocol, start: Refs, s: System) {
    && |s.landings| <= 1
    && (s.landings == [] ==> Snapshot(s.refs, Targets(p.cap)) == Snapshot(start, Targets(p.cap)))
    && (s.landings != [] ==>
          && Clean(p, start)
          && Snapshot(s.refs, Targets(p.cap)) == Landed(p.cap, s.landings[0])
          && exists pid :: s.landings[0] == p.claim(pid))
  }

  ghost predicate SentInv(p: Protocol, start: Refs, s: System) {
    && (s.sent != {} ==> Clean(p, start))
    && (s.landings == [] ==> forall oid :: oid in s.sent ==> exists pid :: oid == p.claim(pid))
  }

  ghost predicate Inv(p: Protocol, start: Refs, s: System) {
    && RefsInv(p, start, s)
    && SentInv(p, start, s)
    && forall pid :: ExecutorInv(p, start, s.landings, pid, ExecutorOf(s, pid))
  }

  // ---------------------------------------------------------------- steps

  /** Seen from the check, the bound refs are the same values with claim and completion exchanged. */
  lemma CheckSeesTargets(cap: Capability, refs: Refs)
    ensures var seen, bound := Snapshot(refs, CheckOrder(cap)), Snapshot(refs, Targets(cap));
            bound == [seen[1], seen[0]] + seen[2..]
  {
    var seen, bound := Snapshot(refs, CheckOrder(cap)), Snapshot(refs, Targets(cap));
    assert CheckOrder(cap)[0] == Targets(cap)[1] && CheckOrder(cap)[1] == Targets(cap)[0];
    forall k | 2 <= k < |seen| ensures seen[k] == bound[k] {
      assert CheckOrder(cap)[k] == Targets(cap)[k];
    }
  }

  lemma CheckIsSound(p: Protocol, start: Refs, s: System, pid: Pid, seen: seq<Option<Oid>>)
    requires ValidProtocol(p) && RefsInv(p, start, s) && |seen| == |p.cap.operations| + 2
    requires s.landings == [] ==> seen == Snapshot(start, CheckOrder(p.cap))
    ensures ExecutorInv(p, start, s.landings, pid, AfterCheck(p.cap, seen))
  {
    hide Snapshot, CheckOrder, Targets, ExpectedOids, DesiredOids;
    if s.landings == [] {
      CheckSeesTargets(p.cap, start);
      var initial := Snapshot(start, Targets(p.cap));
      assert initial[0] == seen[1] && initial[1] == seen[0] && initial[2..] == seen[2..];
      assert Before(p.cap)[2..] == ExpectedOids(p.cap);
      assert Clean(p, start) <==> seen[0].None? && seen[1].None? && seen[2..] == ExpectedOids(p.cap);
    }
  }

  lemma ReadSeesState(p: Protocol, start: Refs, s: System, e: Executor)
    requires RefsInv(p, start, s) && NextRead(p.cap, e).Some?
    ensures var k := |e.seen|; var value := At(s.refs, NextRead(p.cap, e).value);
            && k < |p.cap.operations| + 2
            && (e.Checking? && s.landings == [] ==> value == Snapshot(start, CheckOrder(p.cap))[k])
            && (!e.Checking? && s.landings == [] ==> value == Snapshot(start, Targets(p.cap))[k])
            && (!e.Checking? && s.landings != [] ==> value == Landed(p.cap, s.landings[0])[k])
  {
    hide Before;
    var k := |e.seen|;
    var now, initial := Snapshot(s.refs, Targets(p.cap)), Snapshot(start, Targets(p.cap));
    if e.Checking? && s.landings == [] {
      assert now[0] == initial[0] && now[1] == initial[1] && now[k] == initial[k];
      assert CheckOrder(p.cap)[k] == if k == 0 then Targets(p.cap)[1] else if k == 1 then Targets(p.cap)[0]
        else Targets(p.cap)[k];
    }
  }

  lemma PrefixGrows(seen: seq<Option<Oid>>, all: seq<Option<Oid>>, value: Option<Oid>)
    requires IsPrefix(seen, all) && value == all[|seen|]
    ensures if |seen| + 1 == |all| then seen + [value] == all else IsPrefix(seen + [value], all)
  {
  }

  lemma ObserveKeepsInv(p: Protocol, start: Refs, s: System, pid: Pid, e: Executor)
    requires ValidProtocol(p) && RefsInv(p, start, s) && ExecutorInv(p, start, s.landings, pid, e)
             && NextRead(p.cap, e).Some?
    ensures ExecutorInv(p, start, s.landings, pid, Observe(p, pid, e, At(s.refs, NextRead(p.cap, e).value)))
  {
    hide Snapshot, CheckOrder, Targets, Landed, Before, AfterCheck;
    var value := At(s.refs, NextRead(p.cap, e).value);
    var all := Landed(p.cap, p.claim(pid));
    ReadSeesState(p, start, s, e);
    match e {
      case Checking(seen) =>
        if s.landings == [] {
          PrefixGrows(seen, Snapshot(start, CheckOrder(p.cap)), value);
        }
        if |seen| + 1 == |p.cap.operations| + 2 {
          CheckIsSound(p, start, s, pid, seen + [value]);
        }
      case Confirming(ok, seen) =>
        ConfirmKeepsInv(p, start, s, pid, e, value);
      case Probing(seen) =>
        PrefixGrows(seen, all, value);
      case Reprobing(before, ok, seen) =>
        PrefixGrows(seen, all, value);
      case _ =>
    }
  }

  lemma ConfirmKeepsInv(p: Protocol, start: Refs, s: System, pid: Pid, e: Executor, value: Option<Oid>)
    requires ValidProtocol(p) && RefsInv(p, start, s) && ExecutorInv(p, start, s.landings, pid, e) && e.Confirming?
    requires s.landings == [] ==> value == Snapshot(start, Targets(p.cap))[|e.seen|]
    requires s.landings != [] ==> value == Landed(p.cap, s.landings[0])[|e.seen|]
    ensures ExecutorInv(p, start, s.landings, pid, Observe(p, pid, e, value))
  {
    var seen := e.seen + [value];
    var all := Landed(p.cap, p.claim(pid));
    if |e.seen| == 0 {
      assert s.landings == [] ==> value == Before(p.cap)[0];
    } else {
      assert seen[0] == e.seen[0];
    }
    assert seen[0] == Some(p.claim(pid)) ==> s.landings == [p.claim(pid)];
    if e.ok {
      PrefixGrows(e.seen, all, value);
    }
    if seen == all {
      assert all[0] == Some(p.claim(pid));
    }
  }

  lemma StepReadKeepsInv(p: Protocol, start: Refs, s: System, pid: Pid)
    requires ValidProtocol(p) && Inv(p, start, s)
    ensures Inv(p, start, StepRead(p, s, pid))
  {
    hide ExecutorInv, RefsInv, NextRead, Observe;
    var e := ExecutorOf(s, pid);
    var next := StepRead(p, s, pid);
    if NextRead(p.cap, e).Some? {
      ObserveKeepsInv(p, start, s, pid, e);
      RefsInvFrame(p, start, s, next);
      forall q ensures ExecutorInv(p, start, next.landings, q, ExecutorOf(next, q)) {
        assert q != pid ==> ExecutorOf(next, q) == ExecutorOf(s, q);
      }
    }
  }

  lemma RefsInvFrame(p: Protocol, start: Refs, s: System, next: System)
    requires RefsInv(p, start, s) && next.landings == s.landings
    requires Snapshot(next.refs, Targets(p.cap)) == Snapshot(s.refs, Targets(p.cap))
    ensures RefsInv(p, start, next)
  {
  }

  lemma StepSendKeepsInv(p: Protocol, start: Refs, s: System, pid: Pid)
    requires ValidProtocol(p) && Inv(p, start, s)
    ensures Inv(p, start, StepSend(p, s, pid))
  {
    var e := ExecutorOf(s, pid);
    var next := StepSend(p, s, pid);
    assert ExecutorInv(p, start, s.landings, pid, e);
    RefsInvFrame(p, start, s, next);
    forall q ensures ExecutorInv(p, start, next.landings, q, ExecutorOf(next, q)) {
      assert ExecutorInv(p, start, s.landings, q, ExecutorOf(s, q));
      assert q != pid ==> ExecutorOf(next, q) == ExecutorOf(s, q);
    }
  }

  lemma StepAnswerKeepsInv(p: Protocol, start: Refs, s: System, pid: Pid, ok: bool)
    requires ValidProtocol(p) && Inv(p, start, s)
    ensures Inv(p, start, StepAnswer(p, s, pid, ok))
  {
    var e := ExecutorOf(s, pid);
    var next := StepAnswer(p, s, pid, ok);
    assert ExecutorInv(p, start, s.landings, pid, e);
    RefsInvFrame(p, start, s, next);
    assert s.landings == [] || s.landings[0] != p.replay(pid);
    forall q ensures ExecutorInv(p, start, next.landings, q, ExecutorOf(next, q)) {
      assert ExecutorInv(p, start, s.landings, q, ExecutorOf(s, q));
      assert q != pid ==> ExecutorOf(next, q) == ExecutorOf(s, q);
    }
  }

  lemma StepOtherKeepsInv(p: Protocol, start: Refs, s: System, ref: Ref, value: Option<Oid>)
    requires Inv(p, start, s)
    ensures Inv(p, start, StepOther(p, s, ref, value))
  {
    hide ExecutorInv, RefsInv;
    var next := StepOther(p, s, ref, value);
    if ref !in Targets(p.cap) {
      forall i | 0 <= i < |Targets(p.cap)| ensures At(next.refs, Targets(p.cap)[i]) == At(s.refs, Targets(p.cap)[i]) {
        assert Targets(p.cap)[i] in Targets(p.cap);
      }
      assert Snapshot(next.refs, Targets(p.cap)) == Snapshot(s.refs, Targets(p.cap));
    }
    RefsInvFrame(p, start, s, next);
    forall q ensures ExecutorInv(p, start, next.landings, q, ExecutorOf(next, q)) {
      assert ExecutorOf(next, q) == ExecutorOf(s, q);
    }
  }

  /** An executor's knowledge survives the first landing. */
  lemma LandingKeepsExecutor(p: Protocol, start: Refs, oid: Oid, pid: Pid, e: Executor)
    requires ExecutorInv(p, start, [], pid, e)
    ensures ExecutorInv(p, start, [oid], pid, e)
  {
  }

  lemma StepDeliverKeepsInv(p: Protocol, start: Refs, s: System, oid: Oid)
    requires ValidProtocol(p) && Inv(p, start, s)
    ensures Inv(p, start, StepDeliver(p, s, oid))
  {
    hide ExecutorInv;
    var next := StepDeliver(p, s, oid);
    if oid in s.sent {
      if s.landings != [] {
        SecondPushIsInert(p.cap, s.refs, s.landings[0], oid);
        assert next == s;
      } else {
        FirstPushLands(p.cap, s.refs, oid);
        assert next.landings == [oid];
        forall q ensures ExecutorInv(p, start, next.landings, q, ExecutorOf(next, q)) {
          assert ExecutorOf(next, q) == ExecutorOf(s, q);
          LandingKeepsExecutor(p, start, oid, q, ExecutorOf(s, q));
        }
      }
    }
  }

  lemma StepKeepsInv(p: Protocol, start: Refs, s: System, e: Event)
    requires ValidProtocol(p) && Inv(p, start, s)
    ensures Inv(p, start, Step(p, s, e))
  {
    match e {
      case Read(pid) => StepReadKeepsInv(p, start, s, pid);
      case Send(pid) => StepSendKeepsInv(p, start, s, pid);
      case Deliver(oid) => StepDeliverKeepsInv(p, start, s, oid);
      case Answer(pid, ok) => StepAnswerKeepsInv(p, start, s, pid, ok);
      case OtherWrite(ref, value) => StepOtherKeepsInv(p, start, s, ref, value);
    }
  }

  lemma {:induction false} RunKeepsInv(p: Protocol, start: Refs, s: System, events: seq<Event>)
    requires ValidProtocol(p) && Inv(p, start, s)
    ensures Inv(p, start, Run(p, s, events))
    decreases |events|
  {
    hide Inv, Step;
    if events != [] {
      RunKeepsInv(p, start, s, events[..|events| - 1]);
      StepKeepsInv(p, start, Run(p, s, events[..|events| - 1]), events[|events| - 1]);
    }
  }

  lemma StartIsConsistent(p: Protocol, start: Refs)
    ensures Inv(p, start, Start(start))
  {
  }

  // ------------------------------------------------------- main theorems

  /** In every reachable state at most one push has moved refs, it was some executor's claim, and
      the bound refs are all as they were or all as that push wants them. */
  lemma OneClaimLandsWhole(p: Protocol, start: Refs, events: seq<Event>)
    requires ValidProtocol(p)
    ensures var s := Run(p, Start(start), events); var bound := Snapshot(s.refs, Targets(p.cap));
            || (s.landings == [] && bound == Snapshot(start, Targets(p.cap)))
            || (exists pid :: s.landings == [p.claim(pid)] && bound == Landed(p.cap, p.claim(pid))
                              && Snapshot(start, Targets(p.cap)) == Before(p.cap))
  {
    StartIsConsistent(p, start);
    RunKeepsInv(p, start, Start(start), events);
    var s := Run(p, Start(start), events);
    if s.landings != [] {
      var pid :| s.landings[0] == p.claim(pid);
      assert s.landings == [p.claim(pid)];
    }
  }

  lemma StepKeepsLanding(p: Protocol, start: Refs, s: System, e: Event)
    requires ValidProtocol(p) && Inv(p, start, s) && s.landings != []
    ensures Step(p, s, e).landings == s.landings
  {
    if e.Deliver? {
      SecondPushIsInert(p.cap, s.refs, s.landings[0], e.oid);
    }
  }

  lemma {:induction false} LandingIsFinal(p: Protocol, start: Refs, s: System, events: seq<Event>)
    requires ValidProtocol(p) && Inv(p, start, s) && s.landings != []
    ensures Run(p, s, events).landings == s.landings
    decreases |events|
  {
    hide Inv, Step;
    if events != [] {
      var front := events[..|events| - 1];
      RunKeepsInv(p, start, s, front);
      LandingIsFinal(p, start, s, front);
      StepKeepsLanding(p, start, Run(p, s, front), events[|events| - 1]);
    }
  }

  /** Once claim and completion are set, every bound ref keeps its value whatever happens next. */
  lemma LandedRefsNeverMove(p: Protocol, start: Refs, events: seq<Event>, more: seq<Event>)
    requires ValidProtocol(p) && Run(p, Start(start), events).landings != []
    ensures var s := Run(p, Start(start), events); var later := Run(p, s, more);
            && later.landings == s.landings
            && Snapshot(later.refs, Targets(p.cap)) == Snapshot(s.refs, Targets(p.cap))
  {
    StartIsConsistent(p, start);
    RunKeepsInv(p, start, Start(start), events);
    var s := Run(p, Start(start), events);
    LandingIsFinal(p, start, s, more);
    RunKeepsInv(p, start, s, more);
  }

  /** At most one executor emits a readback, and what it reports is so: the refs were as expected
      before, and hold its own claim and the desired values now. */
  lemma OneReadback(p: Protocol, start: Refs, events: seq<Event>, a: Pid, b: Pid)
    requires ValidProtocol(p)
    requires var s := Run(p, Start(start), events); ExecutorOf(s, a).Emitted? && ExecutorOf(s, b).Emitted?
    ensures a == b
    ensures Snapshot(start, Targets(p.cap)) == Before(p.cap)
    ensures Snapshot(Run(p, Start(start), events).refs, Targets(p.cap)) == Landed(p.cap, p.claim(a))
  {
    StartIsConsistent(p, start);
    RunKeepsInv(p, start, Start(start), events);
    var s := Run(p, Start(start), events);
    assert ExecutorInv(p, start, s.landings, a, ExecutorOf(s, a));
    assert ExecutorInv(p, start, s.landings, b, ExecutorOf(s, b));
  }

  /** Three failures are never reported: a push that answered success reads back as wanted, the
      replay never succeeds, and it never disturbs the bound refs. On a clean remote an executor
      is turned away before its push only because another one has landed. */
  lemma FailuresAreExplained(p: Protocol, start: Refs, events: seq<Event>, pid: Pid)
    requires ValidProtocol(p) && ExecutorOf(Run(p, Start(start), events), pid).Failed?
    ensures var s := Run(p, Start(start), events); var why := ExecutorOf(s, pid).why;
            && why in {AlreadyCompleted, Inconsistent, PreconditionFailed, CasDenied}
            && (why != CasDenied && Snapshot(start, Targets(p.cap)) == Before(p.cap) ==> s.landings != [])
  {
    StartIsConsistent(p, start);
    RunKeepsInv(p, start, Start(start), events);
    var s := Run(p, Start(start), events);
    assert ExecutorInv(p, start, s.landings, pid, ExecutorOf(s, pid));
  }

  // -------------------------------------------------- a misleading report

  lemma RunSnoc(p: Protocol, s: System, events: seq<Event>, e: Event)
    ensures Run(p, s, events + [e]) == Step(p, Run(p, s, events), e)
  {
    assert (events + [e])[..|events|] == events;
  }

  ghost predicate Race(p: Protocol) {
    p == Protocol(Capability(0, 1, [Operation(2, 10, 11)]), i => 2 * i, i => 2 * i + 1)
  }

  lemma CheckReads(p: Protocol, s: System, pid: Pid, seen: seq<Option<Oid>>)
    requires ExecutorOf(s, pid) == Checking(seen) && |seen| <= |p.cap.operations|
    ensures var value := At(s.refs, CheckOrder(p.cap)[|seen|]);
            Step(p, s, Read(pid)) == s.(executors := s.executors[pid := Checking(seen + [value])])
  {
  }

  /** Executor 8 reads clean refs and sends its claim, after executor 7 has read completion. */
  lemma RaceOpens(p: Protocol)
    requires Race(p)
    ensures var s := Step(p,
            Step(p, Step(p, Step(p, Step(p, Start(map[2 := 10]), Read(7)), Read(8)), Read(8)), Read(8)), Send(8));
            s.refs == map[2 := 10] && 16 in s.sent && ExecutorOf(s, 7) == Checking([None])
  {
    hide Step, CheckOrder;
    RaceOrder(p);
    var none: Option<Oid> := None;
    var empty: seq<Option<Oid>> := [];
    assert empty + [none] == [none] && [none] + [none] == [none, none];
    var s0 := Start(map[2 := 10]);
    CheckReads(p, s0, 7, empty);
    var s1 := Step(p, s0, Read(7));
    CheckReads(p, s1, 8, empty);
    var s2 := Step(p, s1, Read(8));
    CheckReads(p, s2, 8, [none]);
    var s3 := Step(p, s2, Read(8));
    assert s3.executors == map[7 := Checking([none]), 8 := Checking([none, none])];
    LastReadClears(p, s3);
  }

  lemma RaceOrder(p: Protocol)
    requires Race(p)
    ensures CheckOrder(p.cap) == [1, 0, 2]
  {
  }

  lemma LastReadClears(p: Protocol, s: System)
    requires Race(p) && s.refs == map[2 := 10]
    requires s.executors == map[7 := Checking([None]), 8 := Checking([None, None])]
    ensures var t := Step(p, Step(p, s, Read(8)), Send(8));
            t.refs == map[2 := 10] && 16 in t.sent && ExecutorOf(t, 7) == Checking([None])
  {
    assert CheckOrder(p.cap) == [1, 0, 2] && ExpectedOids(p.cap) == [Some(10)];
    var none: Option<Oid> := None;
    assert ([none, none] + [Some(10)])[2..] == [Some(10)];
    assert ExecutorOf(Step(p, s, Read(8)), 8) == Claiming;
  }

  /** The claim lands; executor 7 then finds a claim beside the completion it saw missing. */
  lemma RaceCloses(p: Protocol, s: System)
    requires Race(p) && s.refs == map[2 := 10] && 16 in s.sent && ExecutorOf(s, 7) == Checking([None])
    ensures ExecutorOf(Step(p, Step(p, Step(p, s, Deliver(16)), Read(7)), Read(7)), 7) == Failed(Inconsistent)
  {
    assert Targets(p.cap) == [0, 1, 2] && CheckOrder(p.cap) == [1, 0, 2];
    assert ExpectedOids(p.cap) == [Some(10)];
    FirstPushLands(p.cap, s.refs, 16);
    var s6 := Step(p, s, Deliver(16));
    assert Snapshot(s6.refs, Targets(p.cap))[0] == Some(16);
    var s7 := Step(p, s6, Read(7));
    assert ExecutorOf(s7, 7) == Checking([None, Some(16)]);
  }

  /** The first check reads completion before claim, so a push landing between the two reads makes
      the loser report an inconsistent remote although the remote never is. */
  lemma RaceReportsInconsistency(p: Protocol)
    requires Race(p)
    ensures ValidProtocol(p) && Snapshot(map[2 := 10], Targets(p.cap)) == Before(p.cap)
    ensures var events := [Read(7), Read(8), Read(8), Read(8), Send(8), Deliver(16), Read(7), Read(7)];
            ExecutorOf(Run(p, Start(map[2 := 10]), events), 7) == Failed(Inconsistent)
  {
    hide Step;
    assert Targets(p.cap) == [0, 1, 2] && ExpectedOids(p.cap) == [Some(10)];
    var events := [Read(7), Read(8), Read(8), Read(8), Send(8), Deliver(16), Read(7), Read(7)];
    RaceOpens(p);
    var s := Step(p, Step(p, Step(p, Step(p, Step(p, Start(map[2 := 10]), Read(7)), Read(8)), Read(8)), Read(8)),
      Send(8));
    RaceCloses(p, s);
    RunOfEight(p, Start(map[2 := 10]), events);
  }

  lemma RunOfEight(p: Protocol, s: System, es: seq<Event>)
    requires |es| == 8
    ensures Run(p, s, es) == Step(p, Step(p, Step(p, Step(p, Step(p, Step(p, Step(p, Step(p, s,
              es[0]), es[1]), es[2]), es[3]), es[4]), es[5]), es[6]), es[7])
  {
    hide Step;
    assert Run(p, s, es[..0]) == s;
    forall k | 0 <= k < 8 ensures Run(p, s, es[..k + 1]) == Step(p, Run(p, s, es[..k]), es[k]) {
      assert es[..k + 1] == es[..k] + [es[k]];
      RunSnoc(p, s, es[..k], es[k]);
    }
    assert es[..8] == es;
  }
}
