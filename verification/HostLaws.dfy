/** What activation and lookup answer, exactly, in terms of the history a ledger went through, and
    which fault of a submitted generation is reported. */
module HostLaws {
  import opened Collections
  import opened HostAuthorization

  // --------------------------------------------------------------- faults

  /** The first entry that does not exceed its predecessor decides: equal is a duplicate, smaller is
      out of order. */
  lemma {:induction false} ListFaultLaw(list: seq<Text>, i: nat)
    requires 0 < i < |list| && Increasing(list[..i]) && list[i] <= list[i - 1]
    ensures ListError(list) == Some(if list[i] == list[i - 1] then DuplicateKey else Noncanonical)
    decreases |list|
  {
    var front := list[..|list| - 1];
    if i == |list| - 1 {
      assert front == list[..i];
      ListErrorExact(front);
    } else {
      assert front[..i] == list[..i];
      ListFaultLaw(front, i);
    }
  }

  /** The lists of a mapping are read in the order ssm, git, ghcr. */
  lemma MappingFaultLaw(m: Mapping)
    ensures MappingError(m) ==
            if !Increasing(m.ssm) then ListError(m.ssm)
            else if !Increasing(m.git) then ListError(m.git)
            else if !Increasing(m.ghcr) then ListError(m.ghcr) else None
  {
    hide ListError, Increasing;
    ListErrorExact(m.ssm);
    ListErrorExact(m.git);
    ListErrorExact(m.ghcr);
  }

  /** The first faulty mapping decides: its own lists first, then a key that came before, then a key
      smaller than the one before it. */
  lemma {:induction false} MappingsFaultLaw(ms: seq<Mapping>, i: nat)
    requires i < |ms| && Canonical(ms[..i])
    requires var m := ms[i];
             || !Increasing(m.ssm) || !Increasing(m.git) || !Increasing(m.ghcr)
             || (exists j :: 0 <= j < i && ms[j].jwt == m.jwt && ms[j].instance == m.instance)
             || (i > 0 && (ms[i - 1].jwt > m.jwt || (ms[i - 1].jwt == m.jwt && ms[i - 1].instance > m.instance)))
    ensures var m := ms[i];
            MappingsError(ms) ==
            if !Increasing(m.ssm) then ListError(m.ssm)
            else if !Increasing(m.git) then ListError(m.git)
            else if !Increasing(m.ghcr) then ListError(m.ghcr)
            else if exists j :: 0 <= j < i && ms[j].jwt == m.jwt && ms[j].instance == m.instance then Some(DuplicateKey)
            else Some(Noncanonical)
    decreases |ms|
  {
    hide ListError, MappingError, Increasing, Canonical;
    var m, front := ms[i], ms[..|ms| - 1];
    if i == |ms| - 1 {
      assert front == ms[..i];
      MappingsErrorExact(front);
      MappingFaultLaw(m);
      ListErrorExact(m.ssm);
      ListErrorExact(m.git);
      ListErrorExact(m.ghcr);
      assert (exists j :: 0 <= j < i && ms[j].jwt == m.jwt && ms[j].instance == m.instance) <==>
             (exists j :: 0 <= j < |front| && SameKey(front[j], m));
    } else {
      assert front[..i] == ms[..i] && front[i] == m;
      assert forall j :: 0 <= j < i ==> front[j] == ms[j];
      ListErrorExact(m.ssm);
      ListErrorExact(m.git);
      ListErrorExact(m.ghcr);
      MappingsFaultLaw(front, i);
    }
  }

  /** Generation, predecessor and validity interval of a well-formed generation. */
  predicate FieldsInOrder(d: Document) {
    && d.generation >= 1 && d.issuedAt < d.expiresAt
    && (d.generation == 1 <==> d.previous == None)
  }

  lemma GenerationFaultLaw(d: Document)
    ensures GenerationError(d) == if !FieldsInOrder(d) then Some(Malformed) else MappingsError(d.mappings)
    ensures GenerationError(d).None? <==> FieldsInOrder(d) && Canonical(d.mappings)
  {
    hide MappingsError, Canonical;
    MappingsErrorExact(d.mappings);
  }

  // ----------------------------------------------------------- activation

  /** The hash a caller may expect of the head: that of the newest generation, if any. */
  function TipHash(env: Trust, log: seq<Document>): Option<Hash> {
    if log == [] then None else Some(env.hash(log[|log| - 1]))
  }

  /** What activation answers on the ledger of a history. */
  ghost function Answer(env: Trust, log: seq<Document>, d: Document, expects: Expectation, now: Time): ActivationReply
    requires FieldsInOrder(d) && Canonical(d.mappings)
  {
    if now < d.issuedAt then NotYetValid
    else if now >= d.expiresAt then Expired
    else if !env.verified(d) then SignatureInvalid
    else if expects.Expects? && expects.hash != TipHash(env, log) then HeadMismatch
    else if log == [] then (if d.generation == 1 then Activated(1, env.hash(d)) else Stale)
    else
      var tip := log[|log| - 1];
      if d.generation > tip.generation && d.previous == Some(env.hash(tip)) then Activated(d.generation, env.hash(d))
      else if d.generation == tip.generation && env.hash(d) == env.hash(tip) then Replay(d.generation, env.hash(d))
      else Stale
  }

  lemma AnswerOnChain(env: Trust, log: seq<Document>, d: Document, expects: Expectation, now: Time)
    requires Chain(env, log) && FieldsInOrder(d) && Canonical(d.mappings)
    ensures Activate(env, Represent(env, log), Readable(d), expects, now).1 == Answer(env, log, d, expects, now)
  {
    hide GenerationError, Canonical, Chain, Represent;
    GenerationFaultLaw(d);
    RepresentHead(env, log, d.generation);
  }

  /** In every run: an unreadable or ill-formed generation is rejected, and a well-formed one is
      answered from the history alone. It is activated exactly when it is verified, in its interval,
      under the expected head, and either the first of an empty ledger or later than the newest
      generation and naming its hash; the history then grows by it, and otherwise stays. */
  lemma ActivationLaw(env: Trust, commands: seq<Command>, sub: Submission, expects: Expectation, now: Time)
    ensures var log := History(env, commands);
            var reply := Activate(env, Run(env, commands), sub, expects, now).1;
            && (if sub.Unreadable? then reply == Rejected(sub.error)
                else if !FieldsInOrder(sub.document) then reply == Rejected(Malformed)
                else if !Canonical(sub.document.mappings)
                then MappingsError(sub.document.mappings).Some?
                  && reply == Rejected(MappingsError(sub.document.mappings).value)
                else reply == Answer(env, log, sub.document, expects, now))
            && History(env, commands + [Command(sub, expects, now)]) ==
               if reply.Activated? && sub.Readable? then log + [sub.document] else log
  {
    hide GenerationError, MappingsError, Canonical, Represent;
    RunIsItsHistory(env, commands);
    assert (commands + [Command(sub, expects, now)])[..|commands|] == commands;
    if sub.Readable? {
      GenerationFaultLaw(sub.document);
      MappingsErrorExact(sub.document.mappings);
      if FieldsInOrder(sub.document) && Canonical(sub.document.mappings) {
        AnswerOnChain(env, History(env, commands), sub.document, expects, now);
      }
    }
  }

  /** The conditions of an activation, written out. */
  lemma ActivatedExactly(env: Trust, commands: seq<Command>, sub: Submission, expects: Expectation, now: Time)
    ensures var log := History(env, commands);
            Activate(env, Run(env, commands), sub, expects, now).1.Activated? <==>
            && sub.Readable? && FieldsInOrder(sub.document) && Canonical(sub.document.mappings)
            && env.verified(sub.document) && sub.document.issuedAt <= now < sub.document.expiresAt
            && (expects.Unchecked? || expects.hash == TipHash(env, log))
            && (if log == [] then sub.document.generation == 1
                else && sub.document.generation > log[|log| - 1].generation
                     && sub.document.previous == Some(env.hash(log[|log| - 1])))
  {
    hide Activate, Canonical;
    ActivationLaw(env, commands, sub, expects, now);
  }

  // --------------------------------------------------------------- lookup

  lemma LookupOnHistory(env: Trust, log: seq<Document>, jwt: Text, instance: Text, role: bool, expects: Expectation,
      now: Time)
    requires Chain(env, log)
    ensures LookupAnswer(env, log, jwt, instance, role, expects, now,
                         Lookup(env, Represent(env, log), jwt, instance, role, expects, now))
  {
    hide MappingsError, Canonical;
    if log != [] {
      var d := log[|log| - 1];
      assert GenerationError(d).None?;
      GenerationFaultLaw(d);
      forall m | m in d.mappings && m.jwt == jwt && m.instance == instance
        ensures FindMapping(d.mappings, jwt, instance) == Some(m)
      {
        FindMappingExact(d.mappings, jwt, instance, m);
      }
      assert (exists i :: 0 <= i < |d.mappings| && d.mappings[i].jwt == jwt) <==>
        exists m :: m in d.mappings && m.jwt == jwt;
    }
  }

  /** What a lookup answers on the ledger of a history. */
  ghost predicate LookupAnswer(env: Trust, log: seq<Document>, jwt: Text, instance: Text, role: bool,
      expects: Expectation, now: Time, reply: LookupReply) {
    if role then reply == CallerRoleDenied
    else if log == [] then reply == NotFound
    else
      var tip := log[|log| - 1];
      if expects.Expects? && expects.hash != Some(env.hash(tip)) then reply == LookupHeadMismatch
      else if now < tip.issuedAt then reply == LookupNotYetValid
      else if now >= tip.expiresAt then reply == LookupExpired
      else if exists m :: m in tip.mappings && m.jwt == jwt && m.instance == instance then
        forall m :: m in tip.mappings && m.jwt == jwt && m.instance == instance ==>
          reply == Authorized(tip.generation, env.hash(tip), m)
      else if exists m :: m in tip.mappings && m.jwt == jwt then reply == CrossInstance
      else reply == NotFound
  }

  /** In every run a lookup is answered from the newest generation: a caller that names its role is
      denied, the head and the interval come before the mapping, and a caller known under another
      instance is told so. */
  lemma LookupLaw(env: Trust, commands: seq<Command>, jwt: Text, instance: Text, role: bool, expects: Expectation,
      now: Time)
    ensures LookupAnswer(env, History(env, commands), jwt, instance, role, expects, now,
                         Lookup(env, Run(env, commands), jwt, instance, role, expects, now))
  {
    hide Lookup, LookupAnswer;
    RunIsItsHistory(env, commands);
    LookupOnHistory(env, History(env, commands), jwt, instance, role, expects, now);
  }
}
