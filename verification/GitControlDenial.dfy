/** When a push is reported as denied, exactly, and whether a readback can still come: a claim that
    lands after its executor began to confirm completes the transaction with nobody left to say so. */
module GitControlDenial {
  import opened Collections
  import opened GitControlModel
  import opened GitControlSafety
  import GitControlFailures

  /** Reads the confirming pass has made; all of them once it is over. */
  function ConfirmReads(cap: Capability, e: Executor): nat {
    match e
    case Checking(_) => 0
    case Claiming => 0
    case AwaitingPush => 0
    case Confirming(_, seen) => |seen|
    case Failed(why) => if why == CasDenied then |cap.operations| + 2 else 0
    case _ => |cap.operations| + 2
  }

  /** Reads the executor's confirming pass had made when the claim landed, or has made if none has. */
  function ConfirmReadsBeforeLanding(p: Protocol, s: System, pid: Pid): nat {
    if s.landings == [] then ConfirmReads(p.cap, ExecutorOf(s, pid))
    else ConfirmReads(p.cap, if pid in s.atLanding then s.atLanding[pid] else Checking([]))
  }

  /** The executor's own claim landed before its first confirming read. */
  predicate LandedInTime(p: Protocol, s: System, pid: Pid) {
    s.landings == [p.claim(pid)] && ConfirmReadsBeforeLanding(p, s, pid) == 0
  }

  /** The executor has handed its claim to the network. */
  predicate HasPushed(e: Executor) {
    !e.Checking? && !e.Claiming? && (e.Failed? ==> e.why == CasDenied)
  }

  /** The confirming pass is over. */
  predicate HasConfirmed(e: Executor) {
    HasPushed(e) && !e.AwaitingPush? && !e.Confirming?
  }

  ghost predicate DenialInv(p: Protocol, s: System, pid: Pid) {
    && (p.claim(pid) in s.sent ==> HasPushed(ExecutorOf(s, pid)))
    && match ExecutorOf(s, pid)
       case Confirming(_, seen) =>
         && |seen| < |p.cap.operations| + 2
         && (s.landings != [] ==> ConfirmReadsBeforeLanding(p, s, pid) <= |seen|)
         && if LandedInTime(p, s, pid) then seen == Landed(p.cap, p.claim(pid))[..|seen|]
            else |seen| > 0 ==> seen[0] != Some(p.claim(pid))
       case Checking(_) => ConfirmReadsBeforeLanding(p, s, pid) == 0
       case Claiming => ConfirmReadsBeforeLanding(p, s, pid) == 0
       case AwaitingPush => ConfirmReadsBeforeLanding(p, s, pid) == 0
       case _ =>
         HasConfirmed(ExecutorOf(s, pid)) ==> (ExecutorOf(s, pid).Failed? <==> !LandedInTime(p, s, pid))
  }

  ghost predicate AllInv(p: Protocol, start: Refs, s: System) {
    && Inv(p, start, s)
    && (forall oid :: oid in s.landings ==> oid in s.sent)
    && forall pid: Pid :: DenialInv(p, s, pid)
  }

  // ---------------------------------------------------------------- steps

  /** What a confirming read sees, in terms of who landed. */
  lemma ConfirmSees(p: Protocol, start: Refs, s: System, pid: Pid)
    requires ValidProtocol(p) && Inv(p, start, s) && ExecutorOf(s, pid).Confirming?
    requires |ExecutorOf(s, pid).seen| < |p.cap.operations| + 2
    ensures var k := |ExecutorOf(s, pid).seen|; var value := At(s.refs, Targets(p.cap)[k]);
            && (s.landings == [p.claim(pid)] ==> value == Landed(p.cap, p.claim(pid))[k])
            && (k == 0 && s.landings != [p.claim(pid)] ==> value != Some(p.claim(pid)))
  {
    var k := |ExecutorOf(s, pid).seen|;
    assert ExecutorInv(p, start, s.landings, pid, ExecutorOf(s, pid));
    assert Snapshot(s.refs, Targets(p.cap))[k] == At(s.refs, Targets(p.cap)[k]);
    if s.landings != [] && k == 0 {
      assert Landed(p.cap, s.landings[0])[0] == Some(s.landings[0]);
    }
  }

  lemma ConfirmStep(p: Protocol, s: System, pid: Pid)
    requires ExecutorOf(s, pid).Confirming? && |ExecutorOf(s, pid).seen| < |p.cap.operations| + 2
    ensures var e := ExecutorOf(s, pid); var next := e.seen + [At(s.refs, Targets(p.cap)[|e.seen|])];
            StepRead(p, s, pid) == s.(executors := s.executors[pid :=
              if |next| == |p.cap.operations| + 2 then AfterConfirm(p.cap, p.claim(pid), e.ok, next)
              else Confirming(e.ok, next)])
  {
    hide AfterConfirm, Targets;
  }

  lemma ConfirmGrows(all: seq<Option<Oid>>, seen: seq<Option<Oid>>, value: Option<Oid>)
    requires |seen| < |all| && seen == all[..|seen|] && value == all[|seen|]
    ensures seen + [value] == all[..|seen| + 1]
    ensures |seen| + 1 == |all| ==> seen + [value] == all
  {
  }

  lemma ConfirmReadKeepsDenial(p: Protocol, start: Refs, s: System, pid: Pid)
    requires ValidProtocol(p) && Inv(p, start, s) && DenialInv(p, s, pid) && ExecutorOf(s, pid).Confirming?
    ensures DenialInv(p, StepRead(p, s, pid), pid)
  {
    hide Inv, ValidProtocol, StepRead, Targets, Landed;
    var e := ExecutorOf(s, pid);
    var value := At(s.refs, Targets(p.cap)[|e.seen|]);
    var all := Landed(p.cap, p.claim(pid));
    ConfirmSees(p, start, s, pid);
    ConfirmStep(p, s, pid);
    if LandedInTime(p, s, pid) {
      ConfirmGrows(all, e.seen, value);
    } else {
      assert all[0] == Some(p.claim(pid)) by { LandedFirst(p.cap, p.claim(pid)); }
      LateIsNotAnswered(p, start, s, pid);
      assert (e.seen + [value])[0] == if |e.seen| == 0 then value else e.seen[0];
    }
  }

  /** A push that was answered landed in time. */
  lemma LateIsNotAnswered(p: Protocol, start: Refs, s: System, pid: Pid)
    requires Inv(p, start, s) && DenialInv(p, s, pid) && ExecutorOf(s, pid).Confirming? && !LandedInTime(p, s, pid)
    ensures !ExecutorOf(s, pid).ok
  {
    var e := ExecutorOf(s, pid);
    assert ExecutorInv(p, start, s.landings, pid, e);
    LandedFirst(p.cap, p.claim(pid));
  }

  lemma LandedFirst(cap: Capability, claim: Oid)
    ensures Landed(cap, claim)[0] == Some(claim)
  {
  }

  /** An executor that did not move, while neither refs landed nor its own push was sent. */
  lemma StillKeepsDenial(p: Protocol, s: System, t: System, q: Pid)
    requires DenialInv(p, s, q) && ExecutorOf(t, q) == ExecutorOf(s, q)
    requires t.landings == s.landings && t.atLanding == s.atLanding
    requires p.claim(q) in t.sent ==> p.claim(q) in s.sent
    ensures DenialInv(p, t, q)
  {
  }

  /** Past the confirming pass an executor's later stages never fail. */
  lemma LaterKeepsDenial(p: Protocol, s: System, t: System, q: Pid)
    requires DenialInv(p, s, q) && HasConfirmed(ExecutorOf(s, q)) && !ExecutorOf(s, q).Failed?
    requires HasConfirmed(ExecutorOf(t, q)) && !ExecutorOf(t, q).Failed?
    requires t.landings == s.landings && t.atLanding == s.atLanding
    ensures DenialInv(p, t, q)
  {
  }

  lemma LaterReadGoesOn(p: Protocol, start: Refs, s: System, q: Pid)
    requires ValidProtocol(p) && Inv(p, start, s) && DenialInv(p, s, q)
    requires HasConfirmed(ExecutorOf(s, q)) && !ExecutorOf(s, q).Failed?
    ensures var e := ExecutorOf(StepRead(p, s, q), q); HasConfirmed(e) && !e.Failed?
  {
    StepReadKeepsInv(p, start, s, q);
    var t := StepRead(p, s, q);
    assert ExecutorInv(p, start, t.landings, q, ExecutorOf(t, q));
    assert ExecutorInv(p, start, s.landings, q, ExecutorOf(s, q));
  }

  lemma CheckingReadKeepsDenial(p: Protocol, s: System, q: Pid)
    requires DenialInv(p, s, q) && ExecutorOf(s, q).Checking?
    ensures DenialInv(p, StepRead(p, s, q), q)
  {
    hide Landed, CheckOrder, Targets, ExpectedOids, DesiredOids;
  }

  lemma QuietRead(p: Protocol, s: System, q: Pid)
    requires var e := ExecutorOf(s, q); e.Claiming? || e.AwaitingPush? || e.Failed?
    ensures StepRead(p, s, q) == s
  {
  }

  lemma ReadKeepsDenial(p: Protocol, start: Refs, s: System, pid: Pid, q: Pid)
    requires ValidProtocol(p) && Inv(p, start, s) && DenialInv(p, s, q)
    ensures DenialInv(p, StepRead(p, s, pid), q)
  {
    hide Inv, ValidProtocol, DenialInv, StepRead;
    ReadChangesOne(p, s, pid);
    var t := StepRead(p, s, pid);
    var e := ExecutorOf(s, q);
    if pid != q {
      StillKeepsDenial(p, s, t, q);
    } else if e.Checking? {
      CheckingReadKeepsDenial(p, s, q);
    } else if e.Confirming? {
      ConfirmReadKeepsDenial(p, start, s, q);
    } else if e.Claiming? || e.AwaitingPush? || e.Failed? {
      QuietRead(p, s, q);
    } else {
      LaterReadGoesOn(p, start, s, q);
      LaterKeepsDenial(p, s, t, q);
    }
  }

  lemma ReadChangesOne(p: Protocol, s: System, pid: Pid)
    ensures var t := StepRead(p, s, pid);
            && t.landings == s.landings && t.atLanding == s.atLanding && t.sent == s.sent
            && forall q: Pid :: q != pid ==> ExecutorOf(t, q) == ExecutorOf(s, q)
  {
    hide Observe, NextRead;
  }

  lemma SendKeepsDenial(p: Protocol, s: System, pid: Pid, q: Pid)
    requires ValidProtocol(p) && DenialInv(p, s, q)
    ensures DenialInv(p, StepSend(p, s, pid), q)
  {
    hide Landed;
  }

  lemma AnswerKeepsDenial(p: Protocol, s: System, pid: Pid, ok: bool, q: Pid)
    requires DenialInv(p, s, q)
    ensures DenialInv(p, StepAnswer(p, s, pid, ok), q)
  {
    hide Landed;
    var t := StepAnswer(p, s, pid, ok);
    if pid == q && ExecutorOf(s, q).AwaitingPush? {
      assert ExecutorOf(t, q).seen == Landed(p.cap, p.claim(q))[..0];
    }
  }

  /** A landing finds every executor where `atLanding` then says. */
  lemma LandingKeepsDenial(p: Protocol, s: System, t: System, oid: Oid, q: Pid)
    requires ValidProtocol(p) && DenialInv(p, s, q) && s.landings == []
    requires t.executors == s.executors && t.sent == s.sent && t.landings == [oid] && t.atLanding == s.executors
    ensures DenialInv(p, t, q)
  {
    var e := ExecutorOf(s, q);
    if e.Confirming? {
      assert e.seen == [] ==> e.seen == Landed(p.cap, p.claim(q))[..0];
    }
  }

  lemma StepKeepsDenial(p: Protocol, start: Refs, s: System, e: Event, q: Pid)
    requires ValidProtocol(p) && Inv(p, start, s) && DenialInv(p, s, q)
    ensures DenialInv(p, Step(p, s, e), q)
  {
    hide ValidProtocol, DenialInv, ExecutorInv, StepRead, StepSend, StepAnswer;
    var t := Step(p, s, e);
    match e {
      case Read(pid) => ReadKeepsDenial(p, start, s, pid, q);
      case Send(pid) => SendKeepsDenial(p, s, pid, q);
      case Answer(pid, ok) => AnswerKeepsDenial(p, s, pid, ok, q);
      case OtherWrite(_, _) => StillKeepsDenial(p, s, t, q);
      case Deliver(oid) =>
        if t.landings == s.landings {
          StillKeepsDenial(p, s, t, q);
        } else {
          StepDeliverKeepsInv(p, start, s, oid);
          LandingKeepsDenial(p, s, t, oid, q);
        }
    }
  }

  lemma LandingsWereSent(p: Protocol, s: System, e: Event)
    requires forall oid :: oid in s.landings ==> oid in s.sent
    ensures forall oid :: oid in Step(p, s, e).landings ==> oid in Step(p, s, e).sent
  {
    hide Push, Observe, NextRead;
  }

  lemma StepKeepsAll(p: Protocol, start: Refs, s: System, e: Event)
    requires ValidProtocol(p) && AllInv(p, start, s)
    ensures AllInv(p, start, Step(p, s, e))
  {
    hide Inv, Step, DenialInv;
    StepKeepsInv(p, start, s, e);
    LandingsWereSent(p, s, e);
    forall q: Pid ensures DenialInv(p, Step(p, s, e), q) {
      StepKeepsDenial(p, start, s, e, q);
    }
  }

  lemma {:induction false} RunKeepsAll(p: Protocol, start: Refs, s: System, events: seq<Event>)
    requires ValidProtocol(p) && AllInv(p, start, s)
    ensures AllInv(p, start, Run(p, s, events))
    decreases |events|
  {
    hide AllInv, Step;
    if events != [] {
      RunKeepsAll(p, start, s, events[..|events| - 1]);
      StepKeepsAll(p, start, Run(p, s, events[..|events| - 1]), events[|events| - 1]);
    }
  }

  lemma ReachableAll(p: Protocol, start: Refs, events: seq<Event>)
    requires ValidProtocol(p)
    ensures AllInv(p, start, Run(p, Start(start), events))
  {
    StartIsConsistent(p, start);
    RunKeepsAll(p, start, Start(start), events);
  }

  // ------------------------------------------------------------- progress

  /** The winner's next step towards its readback, and how many of them are left. */
  function NextEvent(e: Executor, pid: Pid): Event {
    match e
    case AwaitingPush => Answer(pid, false)
    case AwaitingReplay(_) => Answer(pid, false)
    case Replaying(_) => Send(pid)
    case _ => Read(pid)
  }

  function Rank(cap: Capability, e: Executor): int {
    var n := |cap.operations| + 2;
    match e
    case AwaitingPush => 3 * n + 6
    case Confirming(_, seen) => 3 * n + 5 - |seen|
    case Probing(seen) => 2 * n + 5 - |seen|
    case Replaying(_) => n + 5
    case AwaitingReplay(_) => n + 4
    case Reprobing(_, _, seen) => n + 3 - |seen|
    case _ => 0
  }

  ghost predicate Winning(p: Protocol, start: Refs, s: System, w: Pid) {
    AllInv(p, start, s) && LandedInTime(p, s, w)
  }

  /** A winner in time is past its push and has not failed. */
  lemma WinnerStands(p: Protocol, start: Refs, s: System, w: Pid)
    requires Winning(p, start, s, w)
    ensures var e := ExecutorOf(s, w); HasPushed(e) && !e.Failed?
  {
    hide Inv;
    assert p.claim(w) in s.landings;
    assert DenialInv(p, s, w);
  }

  lemma WinnerMoves(p: Protocol, start: Refs, s: System, w: Pid)
    requires ValidProtocol(p) && Inv(p, start, s)
    requires var e := ExecutorOf(s, w); HasPushed(e) && !e.Failed? && !e.Emitted?
    requires var e := ExecutorOf(Step(p, s, NextEvent(ExecutorOf(s, w), w)), w); HasPushed(e) && !e.Failed?
    ensures var t := Step(p, s, NextEvent(ExecutorOf(s, w), w));
            0 <= Rank(p.cap, ExecutorOf(t, w)) < Rank(p.cap, ExecutorOf(s, w)) && t.landings == s.landings
              && t.atLanding == s.atLanding
  {
    hide Targets, CheckOrder, Landed;
    assert ExecutorInv(p, start, s.landings, w, ExecutorOf(s, w));
  }

  lemma WinnerAdvances(p: Protocol, start: Refs, s: System, w: Pid)
    requires ValidProtocol(p) && Winning(p, start, s, w) && !ExecutorOf(s, w).Emitted?
    ensures var t := Step(p, s, NextEvent(ExecutorOf(s, w), w));
            Winning(p, start, t, w) && 0 <= Rank(p.cap, ExecutorOf(t, w)) < Rank(p.cap, ExecutorOf(s, w))
  {
    hide Step, Inv, DenialInv, Rank, HasPushed;
    var e := NextEvent(ExecutorOf(s, w), w);
    var t := Step(p, s, e);
    WinnerStands(p, start, s, w);
    StepKeepsAll(p, start, s, e);
    assert LandedInTime(p, t, w) by { OwnStepKeepsLanding(p, s, e); }
    WinnerStands(p, start, t, w);
    WinnerMoves(p, start, s, w);
  }

  lemma OwnStepKeepsLanding(p: Protocol, s: System, e: Event)
    requires !e.Deliver?
    ensures Step(p, s, e).landings == s.landings && Step(p, s, e).atLanding == s.atLanding
  {
    hide Observe, NextRead;
  }

  lemma RunCons(p: Protocol, s: System, e: Event, more: seq<Event>)
    ensures Run(p, s, [e] + more) == Run(p, Step(p, s, e), more)
    decreases |more|
  {
    hide Step;
    if more == [] {
      assert [e] + more == [e];
      assert Run(p, s, [e][..0]) == s;
    } else {
      var front, last := more[..|more| - 1], more[|more| - 1];
      RunCons(p, s, e, front);
      assert ([e] + more)[..|[e] + more| - 1] == [e] + front;
    }
  }

  /** A winner in time emits if it is left to run. */
  lemma {:induction false} WinnerCanEmit(p: Protocol, start: Refs, s: System, w: Pid) returns (more: seq<Event>)
    requires ValidProtocol(p) && Winning(p, start, s, w)
    ensures ExecutorOf(Run(p, s, more), w).Emitted?
    decreases Rank(p.cap, ExecutorOf(s, w))
  {
    hide Winning, Step, Rank;
    if ExecutorOf(s, w).Emitted? {
      more := [];
    } else {
      WinnerAdvances(p, start, s, w);
      var e := NextEvent(ExecutorOf(s, w), w);
      var rest := WinnerCanEmit(p, start, Step(p, s, e), w);
      RunCons(p, s, e, rest);
      more := [e] + rest;
    }
  }

  lemma {:induction false} LandingFixesReads(p: Protocol, start: Refs, s: System, events: seq<Event>)
    requires ValidProtocol(p) && Inv(p, start, s) && s.landings != []
    ensures Run(p, s, events).landings == s.landings && Run(p, s, events).atLanding == s.atLanding
    decreases |events|
  {
    hide Inv, Step;
    if events != [] {
      var front, e := events[..|events| - 1], events[|events| - 1];
      LandingFixesReads(p, start, s, front);
      RunKeepsInv(p, start, s, front);
      StepKeepsLanding(p, start, Run(p, s, front), e);
      LandedStepKeepsReads(p, start, Run(p, s, front), e);
    }
  }

  lemma LandedStepKeepsReads(p: Protocol, start: Refs, s: System, e: Event)
    requires ValidProtocol(p) && Inv(p, start, s) && s.landings != []
    ensures Step(p, s, e).atLanding == s.atLanding
  {
    if e.Deliver? {
      SecondPushIsInert(p.cap, s.refs, s.landings[0], e.oid);
    } else {
      OwnStepKeepsLanding(p, s, e);
    }
  }

  // -------------------------------------------------------- main theorems

  /** An executor whose confirming pass is over reports a denied push exactly when its own claim had
      not landed before the first read of that pass: it never landed, another one did, or it was late. */
  lemma DeniedExactly(p: Protocol, start: Refs, events: seq<Event>, pid: Pid)
    requires ValidProtocol(p) && HasConfirmed(ExecutorOf(Run(p, Start(start), events), pid))
    ensures var s := Run(p, Start(start), events);
            ExecutorOf(s, pid) == Failed(CasDenied) <==> !LandedInTime(p, s, pid)
  {
    hide Inv, Run;
    ReachableAll(p, start, events);
    assert DenialInv(p, Run(p, Start(start), events), pid);
  }

  /** Once a claim has landed, some continuation ends in a readback exactly when all confirming reads
      of its executor follow the landing. */
  lemma ReadbackCanComeExactly(p: Protocol, start: Refs, events: seq<Event>, w: Pid)
    requires ValidProtocol(p) && Run(p, Start(start), events).landings == [p.claim(w)]
    ensures var s := Run(p, Start(start), events);
            (exists pid: Pid, more :: ExecutorOf(Run(p, s, more), pid).Emitted?) <==>
              ConfirmReadsBeforeLanding(p, s, w) == 0
  {
    hide Inv, Run, DenialInv;
    ReachableAll(p, start, events);
    var s := Run(p, Start(start), events);
    if ConfirmReadsBeforeLanding(p, s, w) == 0 {
      var more := WinnerCanEmit(p, start, s, w);
    }
    if pid: Pid, more :| ExecutorOf(Run(p, s, more), pid).Emitted? {
      EmitterIsInTime(p, start, s, more, pid);
    }
  }

  lemma EmitterIsInTime(p: Protocol, start: Refs, s: System, more: seq<Event>, pid: Pid)
    requires ValidProtocol(p) && AllInv(p, start, s) && s.landings != []
    requires ExecutorOf(Run(p, s, more), pid).Emitted?
    ensures LandedInTime(p, s, pid)
  {
    hide Inv, Run;
    RunKeepsAll(p, start, s, more);
    LandingFixesReads(p, start, s, more);
    assert DenialInv(p, Run(p, s, more), pid);
  }

  /** A push reported as denied may still land. The transaction is then complete and no executor
      will ever emit its readback. */
  lemma DeniedPushMayCompleteSilently(p: Protocol, start: Refs, events: seq<Event>, pid: Pid, q: Pid, more: seq<Event>)
    requires ValidProtocol(p)
    requires var s := Run(p, Start(start), events);
             ExecutorOf(s, pid) == Failed(CasDenied) && s.landings == [] && p.claim(pid) in s.sent
    ensures var t := Run(p, Start(start), events + [Deliver(p.claim(pid))]);
            && Snapshot(t.refs, Targets(p.cap)) == Landed(p.cap, p.claim(pid))
            && !ExecutorOf(Run(p, t, more), q).Emitted?
  {
    hide ExecutorInv, DenialInv, Run;
    ReachableAll(p, start, events);
    var s := Run(p, Start(start), events);
    FirstPushLands(p.cap, s.refs, p.claim(pid));
    RunSnoc(p, Start(start), events, Deliver(p.claim(pid)));
    ReachableAll(p, start, events + [Deliver(p.claim(pid))]);
    var t := Run(p, Start(start), events + [Deliver(p.claim(pid))]);
    assert t.landings == [p.claim(pid)] && t.atLanding == s.executors;
    assert ExecutorOf(s, pid) == s.executors[pid];
    if ExecutorOf(Run(p, t, more), q).Emitted? {
      EmitterIsInTime(p, start, t, more, q);
      assert false;
    }
  }

  lemma OneRead(p: Protocol, s: System, pid: Pid, e: Executor, ref: Ref)
    requires ExecutorOf(s, pid) == e && NextRead(p.cap, e) == Some(ref)
    ensures Step(p, s, Read(pid)) == s.(executors := s.executors[pid := Observe(p, pid, e, At(s.refs, ref))])
  {
    hide NextRead, Observe;
  }

  lemma LastCheckClears(p: Protocol)
    requires Race(p)
    ensures AfterCheck(p.cap, [None, None, Some(10)]) == Claiming
  {
    assert ExpectedOids(p.cap) == [Some(10)];
    var none: Option<Oid> := None;
    assert [none, none, Some(10)][2..] == [Some(10)];
  }

  /** The whole first check of a capability with one operation. */
  lemma ThreeReads(p: Protocol, s: System, pid: Pid)
    requires |p.cap.operations| == 1 && ExecutorOf(s, pid) == Checking([])
    ensures var order := CheckOrder(p.cap);
            var seen := [At(s.refs, order[0]), At(s.refs, order[1]), At(s.refs, order[2])];
            var t := StepRead(p, StepRead(p, StepRead(p, s, pid), pid), pid);
            t == s.(executors := s.executors[pid := AfterCheck(p.cap, seen)])
  {
    hide StepRead, CheckOrder, AfterCheck, At;
    var order := CheckOrder(p.cap);
    var a, b, c := At(s.refs, order[0]), At(s.refs, order[1]), At(s.refs, order[2]);
    assert [] + [a] == [a] && [a] + [b] == [a, b] && [a, b] + [c] == [a, b, c];
    GitControlFailures.CheckStep(p, s, pid, []);
    var s1 := StepRead(p, s, pid);
    GitControlFailures.CheckStep(p, s1, pid, [a]);
    var s2 := StepRead(p, s1, pid);
    GitControlFailures.CheckStep(p, s2, pid, [a, b]);
    assert StepRead(p, s2, pid).executors == s.executors[pid := AfterCheck(p.cap, [a, b, c])];
  }

  /** Executor 8 checks clean refs. */
  lemma CheckIsClear(p: Protocol)
    requires Race(p)
    ensures var s := Start(map[2 := 10]);
            Step(p, Step(p, Step(p, s, Read(8)), Read(8)), Read(8)) == s.(executors := map[8 := Claiming])
  {
    hide StepRead, AfterCheck;
    RaceOrder(p);
    LastCheckClears(p);
    ThreeReads(p, Start(map[2 := 10]), 8);
  }

  /** It sends its push, which does not arrive yet. */
  lemma PushIsUnderway(p: Protocol)
    requires Race(p)
    ensures var s := Start(map[2 := 10]);
            var t := Step(p, Step(p, Step(p, Step(p, Step(p, s, Read(8)), Read(8)), Read(8)), Send(8)),
              Answer(8, true));
            t.refs == map[2 := 10] && t.landings == [] && t.sent == {16}
              && t.executors == map[8 := Confirming(false, [])]
  {
    hide StepRead;
    CheckIsClear(p);
  }

  /** Its confirming pass then sees the refs as they were. */
  lemma ConfirmSeesNothing(p: Protocol, s: System)
    requires Race(p) && s.refs == map[2 := 10] && s.executors == map[8 := Confirming(false, [])]
    ensures var t := Step(p, Step(p, Step(p, s, Read(8)), Read(8)), Read(8));
            t.executors == map[8 := Failed(CasDenied)] && t.landings == s.landings && t.sent == s.sent
  {
    assert Targets(p.cap) == [0, 1, 2];
    var none: Option<Oid> := None;
    var empty: seq<Option<Oid>> := [];
    assert empty + [none] == [none] && [none] + [none] == [none, none];
    LandedFirst(p.cap, 16);
    hide Targets, Landed;
    OneRead(p, s, 8, Confirming(false, empty), 0);
    var s1 := Step(p, s, Read(8));
    OneRead(p, s1, 8, Confirming(false, [none]), 1);
    var s2 := Step(p, s1, Read(8));
    OneRead(p, s2, 8, Confirming(false, [none, none]), 2);
  }

  /** Such a run on a clean remote: the push is reported as denied while it is still underway. */
  lemma DenialMayComeTooSoon(p: Protocol)
    requires Race(p)
    ensures ValidProtocol(p) && Snapshot(map[2 := 10], Targets(p.cap)) == Before(p.cap)
    ensures var events := [Read(8), Read(8), Read(8), Send(8), Answer(8, true), Read(8), Read(8), Read(8)];
            var s := Run(p, Start(map[2 := 10]), events);
            ExecutorOf(s, 8) == Failed(CasDenied) && s.landings == [] && p.claim(8) in s.sent
  {
    hide Step;
    assert Targets(p.cap) == [0, 1, 2] && ExpectedOids(p.cap) == [Some(10)];
    var s := Start(map[2 := 10]);
    PushIsUnderway(p);
    ConfirmSeesNothing(p,
      Step(p, Step(p, Step(p, Step(p, Step(p, s, Read(8)), Read(8)), Read(8)), Send(8)), Answer(8, true)));
    RunOfEight(p, s, [Read(8), Read(8), Read(8), Send(8), Answer(8, true), Read(8), Read(8), Read(8)]);
  }
}
