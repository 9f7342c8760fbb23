/** One executor alone on its remote, as the code runs it: a provider object that authorizes and
    counts every call, and `execute` driving it step by step. */
module GitControlProvider {
  import opened Collections
  import opened GitControlModel
  import GitControlSafety
  import opened GitControlFailures

  datatype Authority = Allowed | RemoteOutsideAllowlist | RefOutsideNamespace

  /** The capability's remote and namespace; validation puts every bound ref inside them. */
  datatype Scope = Scope(remote: nat, namespace: Ref -> bool)

  function AuthorizeTarget(scope: Scope, remote: nat, ref: Ref): Authority {
    if remote != scope.remote then RemoteOutsideAllowlist
    else if !scope.namespace(ref) then RefOutsideNamespace
    else Allowed
  }

  predicate Bound(scope: Scope, cap: Capability) {
    ValidCapability(cap) && forall ref :: ref in Targets(cap) ==> scope.namespace(ref)
  }

  /** A push may fail to arrive, and the answer of one that arrived may be lost. */
  datatype Delivery = Delivery(arrives: bool, answered: bool)

  class Provider {
    const cap: Capability
    const scope: Scope
    var refs: Refs
    var calls: nat

    constructor (cap: Capability, scope: Scope, refs: Refs)
      ensures this.cap == cap && this.scope == scope && this.refs == refs && calls == 0
    {
      this.cap, this.scope, this.refs, this.calls := cap, scope, refs, 0;
    }

    method ReadOptional(remote: nat, ref: Ref) returns (authority: Authority, oid: Option<Oid>)
      modifies this`calls
      ensures authority == AuthorizeTarget(scope, remote, ref)
      ensures calls == if authority.Allowed? then old(calls) + 1 else old(calls)
      ensures oid == if authority.Allowed? then At(refs, ref) else None
    {
      authority := AuthorizeTarget(scope, remote, ref);
      oid := None;
      if authority.Allowed? {
        calls := calls + 1;
        oid := At(refs, ref);
      }
    }

    /** Nothing outside the capability reaches the remote. */
    method DenialProbe(remote: nat, ref: Ref) returns (outcome: Option<Authority>)
      ensures outcome.Some? <==> remote != scope.remote || !scope.namespace(ref)
      ensures outcome.Some? ==> outcome.value == AuthorizeTarget(scope, remote, ref)
    {
      var authority := AuthorizeTarget(scope, remote, ref);
      outcome := if authority.Allowed? then None else Some(authority);
    }

    method ReadAll(names: seq<Ref>) returns (seen: seq<Option<Oid>>)
      requires forall ref :: ref in names ==> scope.namespace(ref)
      modifies this`calls
      ensures seen == Snapshot(refs, names) && calls == old(calls) + |names|
    {
      seen := [];
      var i := 0;
      while i < |names|
        invariant 0 <= i <= |names| && |seen| == i && calls == old(calls) + i
        invariant forall k :: 0 <= k < i ==> seen[k] == At(refs, names[k])
      {
        assert names[i] in names;
        var _, oid := ReadOptional(scope.remote, names[i]);
        seen := seen + [oid];
        i := i + 1;
      }
      assert seen == Snapshot(refs, names);
    }

    method PushClaim(claim: Oid, delivery: Delivery) returns (ok: bool)
      requires Bound(scope, cap)
      modifies this
      ensures refs == if delivery.arrives then Push(old(refs), PushArguments(cap, claim)) else old(refs)
      ensures ok == (delivery.arrives && delivery.answered && Accepts(old(refs), PushArguments(cap, claim)))
      ensures calls == old(calls) + 1
    {
      calls := calls + 1;
      ok := false;
      if delivery.arrives {
        ok := delivery.answered && Accepts(refs, PushArguments(cap, claim));
        refs := Push(refs, PushArguments(cap, claim));
      }
    }

    /** The replay after a completed claim: the probe passes exactly when the winner's state is on
        the refs and the replay is not taken for a success; a replay that reports success or finds
        or leaves another state fails, each with its own error. */
    method CompletedReplayProbe(winner: Oid, replay: Oid, delivery: Delivery) returns (outcome: Executor)
      requires Bound(scope, cap)
      modifies this
      ensures refs == if delivery.arrives then Push(old(refs), PushArguments(cap, replay)) else old(refs)
      ensures outcome == Failed(ReplaySucceeded) <==>
                delivery.arrives && delivery.answered && Accepts(old(refs), PushArguments(cap, replay))
      ensures outcome != Failed(ReplaySucceeded) ==>
                outcome == if Snapshot(old(refs), Targets(cap)) == Landed(cap, winner) then Emitted
                  else Failed(ReplayChangedState)
      ensures winner != replay && Snapshot(old(refs), Targets(cap)) == Landed(cap, winner) ==>
              outcome == Emitted && refs == old(refs)
      ensures calls == old(calls) + 2 * (|cap.operations| + 2) + 1
    {
      var before := ReadAll(Targets(cap));
      if before == Landed(cap, winner) {
        GitControlSafety.SecondPushIsInert(cap, refs, winner, replay);
        GitControlSafety.AcceptsExactly(cap, refs, replay);
        assert Landed(cap, winner)[0] == Some(winner) && Landed(cap, replay)[0] == Some(replay)
          && Before(cap)[0] == None;
        assert At(refs, Targets(cap)[0]) == Landed(cap, winner)[0];
      }
      var ok := PushClaim(replay, delivery);
      var after := ReadAll(Targets(cap));
      outcome := AfterReprobe(cap, winner, before, ok, after);
    }

    /** The whole of `execute`, alone on the remote: it emits exactly when the bound refs are as
        expected and the push arrives, answered or not; every refusal leaves the remote as it was
        and says why. */
    method Execute(claim: Oid, replay: Oid, delivery: Delivery, replayDelivery: Delivery) returns (outcome: Executor)
      requires Bound(scope, cap) && claim != replay
      modifies this
      ensures outcome.Emitted? || outcome.Failed?
      ensures outcome.Emitted? <==> Snapshot(old(refs), Targets(cap)) == Before(cap) && delivery.arrives
      ensures outcome.Emitted? ==>
                && Snapshot(refs, Targets(cap)) == Landed(cap, claim)
                && (forall ref :: ref !in Targets(cap) ==> At(refs, ref) == At(old(refs), ref))
                && calls == old(calls) + 4 * (|cap.operations| + 2) + 2
      ensures outcome.Failed? ==> refs == old(refs)
      ensures outcome == Failed(AlreadyCompleted) <==> exists c :: Snapshot(old(refs), Targets(cap)) == Landed(cap, c)
      ensures outcome == Failed(CasDenied) <==> Snapshot(old(refs), Targets(cap)) == Before(cap) && !delivery.arrives
      ensures outcome == Failed(PreconditionFailed) <==>
                && At(old(refs), cap.claimRef).None? && At(old(refs), cap.completionRef).None?
                && Snapshot(old(refs), Targets(cap)) != Before(cap)
    {
      NamesAreBound(scope, cap);
      var seen := ReadAll(CheckOrder(cap));
      outcome := AfterCheck(cap, seen);
      CheckExplains(cap, refs);
      if outcome.Failed? {
        return;
      }
      GitControlSafety.FirstPushLands(cap, refs, claim);
      GitControlSafety.AcceptsExactly(cap, refs, claim);
      var ok := PushClaim(claim, delivery);
      seen := ReadAll(Targets(cap));
      BeforeIsNotLanded(cap, claim);
      outcome := AfterConfirm(cap, claim, ok, seen);
      if outcome.Failed? {
        return;
      }
      outcome := CompletedReplayProbe(claim, replay, replayDelivery);
    }
  }

  lemma NamesAreBound(scope: Scope, cap: Capability)
    requires Bound(scope, cap)
    ensures forall ref :: ref in CheckOrder(cap) ==> scope.namespace(ref)
  {
    assert Targets(cap)[0] in Targets(cap) && Targets(cap)[1] in Targets(cap);
    forall ref | ref in CheckOrder(cap) ensures ref in Targets(cap) {
      var k :| 0 <= k < |CheckOrder(cap)| && CheckOrder(cap)[k] == ref;
      assert k >= 2 ==> Targets(cap)[k] == ref;
    }
  }
}
