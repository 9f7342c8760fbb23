/** Dispatch bodies as the processes they are: any number of them, each with its own place in the
    code, interleaved step by step with every other transaction. Target writes follow claims. */
module ProviderBodies {
  import opened Collections
  import opened ProviderModel
  import opened ProviderAttempts

  type BodyId = nat

  /** Where one dispatch body stands: before start, before claim, holding its claim, after its
      target write, or ended, whether it recorded an outcome, was turned away or crashed. */
  datatype Stage = Ready | Started | Holding | Written | Ended

  /** A body carries its request, its invocation and the time it captured, and counts what it did. */
  datatype Body = Body(request: Request, invocation: Id, now: Time, stage: Stage, claims: nat, writes: nat)

  /** Any number of bodies over one store; `writes` counts the target writes of every operation. */
  datatype System = System(store: Store, bodies: map<BodyId, Body>, writes: multiset<Id>)

  datatype Event =
    | Transaction(command: Command)
    | Spawn(body: BodyId, request: Request, invocation: Id, now: Time)
    | BodyStart(body: BodyId)
    | BodyClaim(body: BodyId)
    | BodyWrite(body: BodyId)
    | BodyRecord(body: BodyId, response: Response)
    | BodyCrash(body: BodyId)

  const IDLE := System(EMPTY, map[], multiset{})

  predicate At(y: System, b: BodyId, stage: Stage) {
    b in y.bodies && y.bodies[b].stage == stage
  }

  /** The store transaction an event issues, if the body stands where it can. */
  function CommandOf(y: System, e: Event): Option<Command> {
    match e
    case Transaction(c) => Some(c)
    case BodyStart(b) =>
      if At(y, b, Ready) then Some(DoStart(y.bodies[b].request, y.bodies[b].now)) else None
    case BodyClaim(b) =>
      if At(y, b, Started)
        then Some(DoClaim(y.bodies[b].request.operationId, y.bodies[b].invocation, y.bodies[b].now)) else None
    case BodyRecord(b, response) =>
      if At(y, b, Holding) || At(y, b, Written)
      then Some(DoOutcome(y.bodies[b].request.operationId, y.bodies[b].invocation, response, y.bodies[b].now)) else None
    case _ => None
  }

  /** The body after its own step; start and claim go on only on the answers that let them. */
  function Moved(y: System, e: Event): map<BodyId, Body> {
    match e
    case Transaction(_) => y.bodies
    case Spawn(b, request, invocation, now) =>
      if b in y.bodies then y.bodies else y.bodies[b := Body(request, invocation, now, Ready, 0, 0)]
    case BodyStart(b) =>
      if !At(y, b, Ready) then y.bodies
      else
        var reply := Start(y.store, y.bodies[b].request, y.bodies[b].now).1;
        var goes := reply.IsPrepared? || (reply.IsExisting? && reply.op.status.Prepared?);
        y.bodies[b := y.bodies[b].(stage := if goes then Started else Ended)]
    case BodyClaim(b) =>
      if !At(y, b, Started) then y.bodies
      else
        var body := y.bodies[b];
        if Claim(y.store, body.request.operationId, body.invocation, body.now).1.Claimed?
        then y.bodies[b := body.(stage := Holding, claims := body.claims + 1)]
        else y.bodies[b := body.(stage := Ended)]
    case BodyWrite(b) =>
      if At(y, b, Holding) then y.bodies[b := y.bodies[b].(stage := Written, writes := y.bodies[b].writes + 1)]
        else y.bodies
    case BodyRecord(b, _) =>
      if At(y, b, Holding) || At(y, b, Written) then y.bodies[b := y.bodies[b].(stage := Ended)] else y.bodies
    case BodyCrash(b) => if b in y.bodies then y.bodies[b := y.bodies[b].(stage := Ended)] else y.bodies
  }

  function Happen(y: System, e: Event): System {
    var c := CommandOf(y, e);
    System(
      if c.Some? then Step(y.store, c.value) else y.store,
      Moved(y, e),
      if e.BodyWrite? && At(y, e.body, Holding) then y.writes + multiset{y.bodies[e.body].request.operationId}
        else y.writes)
  }

  function Unfold(events: seq<Event>): System {
    if events == [] then IDLE
    else Happen(Unfold(events[..|events| - 1]), events[|events| - 1])
  }

  /** The store transactions of a history, those of bodies and those of others. */
  function Transactions(events: seq<Event>): seq<Command> {
    if events == [] then []
    else
      var front := events[..|events| - 1];
      var c := CommandOf(Unfold(front), events[|events| - 1]);
      if c.Some? then Transactions(front) + [c.value] else Transactions(front)
  }

  /** What a body has claimed and written, by its stage. */
  ghost predicate Paced(body: Body) {
    match body.stage
    case Ready => body.claims == 0 && body.writes == 0
    case Started => body.claims == 0 && body.writes == 0
    case Holding => body.claims == 1 && body.writes == 0
    case Written => body.claims == 1 && body.writes == 1
    case Ended => body.writes <= body.claims <= 1
  }

  /** The bodies of an operation that hold an unused claim, and those that have written. */
  function Holders(y: System, id: Id): set<BodyId> {
    set b | b in y.bodies && y.bodies[b].request.operationId == id && y.bodies[b].stage == Holding
  }

  function Writers(y: System, id: Id): set<BodyId> {
    set b | b in y.bodies && y.bodies[b].request.operationId == id && y.bodies[b].writes > 0
  }

  ghost predicate Balanced(y: System, id: Id) {
    && (forall b :: b in y.bodies ==> Paced(y.bodies[b]))
    && y.writes[id] == |Writers(y, id)|
    && |Holders(y, id)| + y.writes[id] <= AttemptOf(y.store, id)
  }

  lemma SubsetIsSmaller(a: set<BodyId>, b: set<BodyId>)
    requires a <= b
    ensures |a| <= |b|
  {
    if a != {} {
      var x :| x in a;
      SubsetIsSmaller(a - {x}, b - {x});
    }
  }

  lemma HoldersShrink(y: System, t: System, id: Id)
    requires forall b :: b in Holders(t, id) ==> b in Holders(y, id)
    ensures |Holders(t, id)| <= |Holders(y, id)|
  {
    SubsetIsSmaller(Holders(t, id), Holders(y, id));
  }

  lemma BodyClaimBalances(y: System, e: Event, id: Id)
    requires e.BodyClaim? && Balanced(y, id)
    ensures Balanced(Happen(y, e), id)
  {
    hide Step, Start, Claim, Accounted;
    var t := Happen(y, e);
    if At(y, e.body, Started) {
      var body := y.bodies[e.body];
      var own := body.request.operationId;
      ClaimsAreCounted(y.store, DoClaim(own, body.invocation, body.now), id);
      assert Writers(t, id) == Writers(y, id);
      if own == id && t.bodies[e.body].stage == Holding {
        assert Holders(t, id) == Holders(y, id) + {e.body};
      } else {
        HoldersShrink(y, t, id);
      }
    }
  }

  /** A claim raises the attempt of its operation exactly when it succeeds. */
  lemma ClaimsAreCounted(s: Store, c: Command, id: Id)
    requires c.DoClaim?
    ensures AttemptOf(Step(s, c), id) ==
            AttemptOf(s, id) + One(c.id == id && Claim(s, c.id, c.invocation, c.now).1.Claimed?)
  {
    hide Step, Claim;
    StepAccounted(s, c, id);
  }

  /** A writing body leaves the holders for the writers. */
  lemma WriterChangesSides(y: System, b: BodyId, id: Id)
    requires At(y, b, Holding) && y.bodies[b].writes == 0
    ensures var t := Happen(y, BodyWrite(b)); var own := y.bodies[b].request.operationId == id;
            && Writers(t, id) == Writers(y, id) + (if own then {b} else {})
            && Holders(t, id) == Holders(y, id) - (if own then {b} else {})
            && b !in Writers(y, id) && (own ==> b in Holders(y, id))
  {
  }

  lemma BodyWriteBalances(y: System, e: Event, id: Id)
    requires e.BodyWrite? && Balanced(y, id)
    ensures Balanced(Happen(y, e), id)
  {
    hide Writers, Holders, Step;
    if At(y, e.body, Holding) {
      WriterChangesSides(y, e.body, id);
    } else {
      IdleWrite(y, e);
    }
  }

  lemma IdleWrite(y: System, e: Event)
    requires e.BodyWrite? && !At(y, e.body, Holding)
    ensures Happen(y, e) == y
  {
  }

  lemma OtherEventBalances(y: System, e: Event, id: Id)
    requires !e.BodyClaim? && !e.BodyWrite? && Balanced(y, id)
    ensures Balanced(Happen(y, e), id)
  {
    hide Step, Start, Claim;
    var t := Happen(y, e);
    var c := CommandOf(y, e);
    if c.Some? {
      AttemptsNeverFall(y.store, c.value, id);
    }
    assert Writers(t, id) == Writers(y, id);
    HoldersShrink(y, t, id);
  }

  lemma AttemptsNeverFall(s: Store, c: Command, id: Id)
    ensures AttemptOf(Step(s, c), id) >= AttemptOf(s, id)
  {
    hide Step;
    StepAccounted(s, c, id);
  }

  lemma {:induction false} BodiesAreBalanced(events: seq<Event>, id: Id)
    ensures Unfold(events).store == Run(EMPTY, Transactions(events))
    ensures Balanced(Unfold(events), id)
  {
    hide Balanced, Step, Moved;
    if events == [] {
      IdleIsBalanced(id);
    } else {
      var front, e := events[..|events| - 1], events[|events| - 1];
      BodiesAreBalanced(front, id);
      var y := Unfold(front);
      if CommandOf(y, e).Some? {
        var cs := Transactions(events);
        assert cs[..|cs| - 1] == Transactions(front);
      }
      if e.BodyClaim? {
        BodyClaimBalances(y, e, id);
      } else if e.BodyWrite? {
        BodyWriteBalances(y, e, id);
      } else {
        OtherEventBalances(y, e, id);
      }
    }
  }

  lemma IdleIsBalanced(id: Id)
    ensures Balanced(IDLE, id)
  {
  }

  /** However bodies and other callers interleave, a body writes at most once and only under its own
      claim, which it makes at most once. */
  lemma OneWritePerClaim(events: seq<Event>, b: BodyId)
    requires b in Unfold(events).bodies
    ensures var body := Unfold(events).bodies[b]; body.writes <= body.claims <= 1
  {
    BodiesAreBalanced(events, 0);
  }

  /** And the writes of an operation are those of different bodies, never more than its attempts,
      hence never more than one plus its applied replays. */
  lemma WritesAreBounded(events: seq<Event>, id: Id)
    ensures Unfold(events).writes[id] == |Writers(Unfold(events), id)|
    ensures Unfold(events).writes[id] <= AttemptOf(Unfold(events).store, id)
    ensures Unfold(events).writes[id] <= 1 + ReplayCount(Transactions(events), id)
  {
    BodiesAreBalanced(events, id);
    RunAccounted(Transactions(events), id);
  }
}
