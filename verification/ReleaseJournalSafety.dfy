/** What the release journal promises: its own writes load, events are idempotent, a torn append
    is never read as a new state, the last hash pins the whole journal, and completion is earned. */
module ReleaseJournalSafety {
  import opened Collections
  import opened ReleaseJournal

  // ------------------------------------------------------------ appending

  lemma FirstRowAccepted(c: Codec, e: Entry)
    requires e.Init?
    ensures Accepted(c, [FirstRow(c, e)])
  {
  }

  lemma LinkedSnoc(c: Codec, rows: seq<Row>, e: Entry, i: nat)
    requires rows != [] && i < |rows| && Linked(c, rows, i)
    ensures Linked(c, rows + [NextRow(c, rows, e)], i)
  {
  }

  lemma AdmissibleSnoc(rows: seq<Row>, r: Row, i: nat)
    requires 0 < i < |rows|
    ensures Admissible(rows + [r], i) <==> Admissible(rows, i)
  {
    var all := rows + [r];
    assert forall j :: 0 <= j <= i ==> all[j] == rows[j];
  }

  /** A checked event with a new identifier extends an accepted journal to an accepted one,
      unless it takes the reserved identifier; then the loader refuses the result. */
  lemma NextRowAccepted(c: Codec, rows: seq<Row>, e: Entry)
    requires Accepted(c, rows) && e.Transition? && e.transaction == rows[0].entry.transaction
    requires FindEvent(rows, e.event) == |rows| && CheckTransition(StateOf(rows[|rows| - 1].entry), e)
    ensures Accepted(c, rows + [NextRow(c, rows, e)]) <==> e.event != INIT_EVENT
  {
    var r := NextRow(c, rows, e);
    var all := rows + [r];
    assert all[|rows|] == r && all[0] == rows[0] && all[|rows| - 1] == rows[|rows| - 1];
    assert Linked(c, all, |rows|);
    forall i | 0 <= i < |rows| ensures Linked(c, all, i) {
      LinkedSnoc(c, rows, e, i);
    }
    forall i | 0 < i < |rows| ensures Admissible(all, i) {
      AdmissibleSnoc(rows, r, i);
    }
    assert forall j :: 0 <= j < |rows| ==> all[j] == rows[j];
    assert Admissible(all, |rows|) <==> e.event != INIT_EVENT;
  }

  // ----------------------------------------------------- successful calls

  /** A successful initialize leaves a journal the loader accepts, headed by that very event. */
  lemma InitializeLeavesLoadable(c: Codec, file: Option<seq<Byte>>, e: Entry)
    requires Canonical(c) && e.Init? && Initialize(c, file, e).1.Done?
    ensures var (after, reply) := Initialize(c, file, e);
            Load(c, after).Some? && Load(c, after).value[0].entry == e && reply == Done(StatusOf(Load(c, after).value))
  {
    if file.None? {
      var rows := [FirstRow(c, e)];
      FirstRowAccepted(c, e);
      AppendIsText(c, [], FirstRow(c, e));
      assert [] + rows == rows;
      TextIsLoaded(c, rows);
    }
  }

  /** A successful transition leaves a journal the loader accepts exactly when its event
      identifier is not the reserved one; the reserved one bricks the journal. */
  lemma SubmitLeavesLoadable(c: Codec, file: Option<seq<Byte>>, e: Entry)
    requires Canonical(c) && e.Transition? && Submit(c, file, e).1.Done?
    ensures var (after, reply) := Submit(c, file, e);
            && (Load(c, after).Some? <==> e.event != INIT_EVENT)
            && (Load(c, after).Some? ==>
              reply == Done(StatusOf(Load(c, after).value))
                && FindEvent(Load(c, after).value, e.event) < |Load(c, after).value|)
  {
    var rows := Load(c, file).value;
    LoadedIsText(c, file);
    var i := FindEvent(rows, e.event);
    if i < |rows| {
      assert Admissible(rows, i);
    } else {
      var r := NextRow(c, rows, e);
      AppendIsText(c, rows, r);
      TextIsLoaded(c, rows + [r]);
      NextRowAccepted(c, rows, e);
      assert (rows + [r])[|rows|].entry == e;
      assert (rows + [r])[..|rows|] == rows;
    }
  }

  lemma FirstLoad(c: Codec, e: Entry)
    requires Canonical(c) && e.Init?
    ensures Load(c, Initialize(c, None, e).0) == Some([FirstRow(c, e)])
  {
    hide Canonical, ParseLines, Accepted;
    var rows := [FirstRow(c, e)];
    FirstRowAccepted(c, e);
    AppendIsText(c, [], FirstRow(c, e));
    assert [] + rows == rows;
    TextIsLoaded(c, rows);
  }

  /** The reserved identifier is reachable: a transition of a fresh journal may carry it, is
      accepted and written, and from then on every load fails. */
  lemma ReservedEventBricksTheJournal(c: Codec)
    requires Canonical(c)
    ensures var e := Init(1, Beta, 2, 3, 4, 5);
            var bad := Transition(1, INIT_EVENT, Prepared, Approved, 6, None, None);
            var file := Initialize(c, None, e).0;
            Submit(c, file, bad).1.Done? && Load(c, Submit(c, file, bad).0).None?
  {
    hide Canonical, Initialize, Load, Append;
    var e := Init(1, Beta, 2, 3, 4, 5);
    var bad := Transition(1, INIT_EVENT, Prepared, Approved, 6, None, None);
    var file := Initialize(c, None, e).0;
    var rows := [FirstRow(c, e)];
    FirstLoad(c, e);
    assert FindEvent(rows, INIT_EVENT) == 1;
    SubmitLeavesLoadable(c, file, bad);
  }

  /** Resubmitting an event that succeeded changes no byte and succeeds again. */
  lemma ResubmissionIsIdempotent(c: Codec, file: Option<seq<Byte>>, e: Entry)
    requires Canonical(c) && e.Transition? && e.event != INIT_EVENT && Submit(c, file, e).1.Done?
    ensures Submit(c, Submit(c, file, e).0, e) == Submit(c, file, e)
  {
    var rows := Load(c, file).value;
    LoadedIsText(c, file);
    if FindEvent(rows, e.event) == |rows| {
      var r := NextRow(c, rows, e);
      AppendIsText(c, rows, r);
      NextRowAccepted(c, rows, e);
      TextIsLoaded(c, rows + [r]);
      assert (rows + [r])[..|rows|] == rows;
      assert FindEvent(rows + [r], e.event) == |rows|;
    }
  }

  lemma ReinitializeIsIdempotent(c: Codec, file: Option<seq<Byte>>, e: Entry)
    requires Canonical(c) && e.Init? && Initialize(c, file, e).1.Done?
    ensures Initialize(c, Initialize(c, file, e).0, e) == Initialize(c, file, e)
  {
    InitializeLeavesLoadable(c, file, e);
  }

  // -------------------------------------------------------------- crashes

  /** A crash after any proper prefix of an append reads as the old journal or is refused. */
  lemma TornAppendIsNotRead(c: Codec, rows: seq<Row>, r: Row, n: nat)
    requires Canonical(c) && n < |c.encode(r)| + 1
    ensures var torn := Some(Text(c, rows) + (c.encode(r) + [NEWLINE])[..n]);
            Load(c, torn) == if n == 0 then Load(c, Some(Text(c, rows))) else None
  {
    var part := (c.encode(r) + [NEWLINE])[..n];
    if n == 0 {
      assert Text(c, rows) + part == Text(c, rows);
    } else {
      assert part[n - 1] == c.encode(r)[n - 1];
      var data := Text(c, rows) + part;
      assert data[|data| - 1] == part[n - 1];
    }
  }

  /** A refused journal is never repaired: every later call fails and leaves the bytes alone. */
  lemma RefusedJournalIsFrozen(c: Codec, file: Option<seq<Byte>>, init: Entry, e: Entry)
    requires file.Some? && Load(c, file).None? && init.Init? && e.Transition?
    ensures Initialize(c, file, init) == (file, JournalError) && Submit(c, file, e) == (file, JournalError)
  {
  }

  // --------------------------------------------------------------- hashes

  lemma PrefixAccepted(c: Codec, rows: seq<Row>)
    requires Accepted(c, rows) && |rows| > 1
    ensures Accepted(c, rows[..|rows| - 1])
  {
    var front := rows[..|rows| - 1];
    forall i | 0 <= i < |front| ensures Linked(c, front, i) {
      assert Linked(c, rows, i);
    }
    forall i | 0 < i < |front| ensures Admissible(front, i) {
      assert rows == front + [rows[|rows| - 1]];
      AdmissibleSnoc(front, rows[|rows| - 1], i);
    }
  }

  lemma {:induction false} EqualLastHashEqualRows(c: Codec, a: seq<Row>, b: seq<Row>)
    requires CollisionFree(c) && Accepted(c, a) && Accepted(c, b)
    requires a[|a| - 1].hash == b[|b| - 1].hash
    ensures a == b
  {
    var m, n := |a| - 1, |b| - 1;
    assert Linked(c, a, m) && Linked(c, b, n);
    assert a[m] == b[n];
    if m > 0 {
      PrefixAccepted(c, a);
      PrefixAccepted(c, b);
      EqualLastHashEqualRows(c, a[..m], b[..n]);
    }
    assert a == a[..m] + [a[m]] && b == b[..n] + [b[n]];
  }

  /** The last record hash pins the whole journal, bytes included. */
  lemma EqualLastHashEqualJournals(c: Codec, f: Option<seq<Byte>>, g: Option<seq<Byte>>)
    requires Canonical(c) && CollisionFree(c) && Load(c, f).Some? && Load(c, g).Some?
    requires StatusOf(Load(c, f).value).hash == StatusOf(Load(c, g).value).hash
    ensures f == g
  {
    LoadedIsText(c, f);
    LoadedIsText(c, g);
    EqualLastHashEqualRows(c, Load(c, f).value, Load(c, g).value);
  }

  // ----------------------------------------------------------- completion

  /** How many rows moved the transaction into `state`. */
  function Visits(rows: seq<Row>, state: State): nat {
    if rows == [] then 0
    else Visits(rows[..|rows| - 1], state) + if StateOf(rows[|rows| - 1].entry) == state then 1 else 0
  }

  /** Where a transaction stands decides how often it was approved and dispatched, and which
      evidence it must have left. */
  lemma {:induction false} PathIsForced(c: Codec, rows: seq<Row>)
    requires Accepted(c, rows)
    ensures var state := StateOf(rows[|rows| - 1].entry);
            && Visits(rows, Approved) == (if state.Prepared? then 0 else 1)
            && Visits(rows, Dispatching) == (if state.Prepared? || state.Approved? then 0 else 1)
            && (state.Dispatched? ==> LatestExternal(rows).Some?)
            && (state.NeedsReconciliation? ==> LatestObservation(rows).Some?)
            && (state.Completed? ==> LatestExternal(rows).Some? || LatestObservation(rows).Some?)
  {
    if |rows| == 1 {
      assert rows[..0] == [];
    } else {
      PrefixAccepted(c, rows);
      PathIsForced(c, rows[..|rows| - 1]);
      assert Admissible(rows, |rows| - 1);
    }
  }

  /** A completed journal was approved exactly once, dispatched exactly once, and its status
      shows an external identifier or an observation digest. */
  lemma CompletionIsEarned(c: Codec, file: Option<seq<Byte>>)
    requires Load(c, file).Some? && StatusOf(Load(c, file).value).state.Completed?
    ensures var rows := Load(c, file).value;
            && Visits(rows, Approved) == 1 && Visits(rows, Dispatching) == 1
            && (StatusOf(rows).external.Some? || StatusOf(rows).observation.Some?)
  {
    PathIsForced(c, Load(c, file).value);
  }

  // ----------------------------------------------------------------- runs

  /** Any sequence of calls, starting without a file. */
  function Run(c: Codec, calls: seq<Entry>): Option<seq<Byte>> {
    if calls == [] then None
    else
      var file, e := Run(c, calls[..|calls| - 1]), calls[|calls| - 1];
      if e.Init? then Initialize(c, file, e).0 else Submit(c, file, e).0
  }

  lemma RunSnoc(c: Codec, calls: seq<Entry>, e: Entry)
    ensures var file := Run(c, calls);
            Run(c, calls + [e]) == if e.Init? then Initialize(c, file, e).0 else Submit(c, file, e).0
  {
    assert (calls + [e])[..|calls|] == calls;
  }

  /** Call i is a transition with the reserved identifier that succeeds. */
  predicate TakesReserved(c: Codec, calls: seq<Entry>, i: nat) {
    && i < |calls| && calls[i].Transition? && calls[i].event == INIT_EVENT
    && Submit(c, Run(c, calls[..i]), calls[i]).1.Done?
  }

  /** One call keeps a file readable unless it is that transition. */
  lemma CallKeepsLoadable(c: Codec, file: Option<seq<Byte>>, e: Entry)
    requires Canonical(c) && (file.Some? ==> Load(c, file).Some?)
    ensures var after := if e.Init? then Initialize(c, file, e).0 else Submit(c, file, e).0;
            after.Some? ==>
              (Load(c, after).None? <==> e.Transition? && e.event == INIT_EVENT && Submit(c, file, e).1.Done?)
  {
    if e.Init? && Initialize(c, file, e).1.Done? {
      InitializeLeavesLoadable(c, file, e);
    } else if e.Transition? && Submit(c, file, e).1.Done? {
      SubmitLeavesLoadable(c, file, e);
    }
  }

  /** The file that any sequence of calls leaves is refused by the loader exactly when one of them
      was a transition with the reserved identifier that succeeded. */
  lemma {:induction false} RunIsRefusedExactly(c: Codec, calls: seq<Entry>)
    requires Canonical(c) && Run(c, calls).Some?
    ensures Load(c, Run(c, calls)).None? <==> exists i: nat :: TakesReserved(c, calls, i)
  {
    hide Canonical, Load, Initialize, Submit;
    if calls == [] {
      assert false;
    } else {
      var front, e := calls[..|calls| - 1], calls[|calls| - 1];
      var file := Run(c, front);
      assert calls == front + [e];
      RunSnoc(c, front, e);
      forall i: nat | i < |front| ensures TakesReserved(c, calls, i) == TakesReserved(c, front, i) {
        assert calls[..i] == front[..i];
      }
      assert TakesReserved(c, calls, |front|) <==> e.Transition? && e.event == INIT_EVENT && Submit(c, file, e).1.Done?;
      if file.Some? {
        RunIsRefusedExactly(c, front);
      } else {
        NothingTakenYet(c, front);
      }
      if file.Some? && Load(c, file).None? {
        CallKeepsRefused(c, file, e);
      } else {
        CallKeepsLoadable(c, file, e);
      }
    }
  }

  lemma CallKeepsRefused(c: Codec, file: Option<seq<Byte>>, e: Entry)
    requires file.Some? && Load(c, file).None?
    ensures (if e.Init? then Initialize(c, file, e).0 else Submit(c, file, e).0) == file
    ensures e.Transition? ==> !Submit(c, file, e).1.Done?
  {
    if e.Init? {
      RefusedJournalIsFrozen(c, file, e, Transition(0, 0, Prepared, Prepared, 0, None, None));
    } else {
      RefusedJournalIsFrozen(c, file, Init(0, Beta, 0, 0, 0, 0), e);
    }
  }

  /** Without a file no transition has succeeded. */
  lemma {:induction false} NothingTakenYet(c: Codec, calls: seq<Entry>)
    requires Run(c, calls).None?
    ensures forall i: nat :: !TakesReserved(c, calls, i)
  {
    if calls != [] {
      var front, e := calls[..|calls| - 1], calls[|calls| - 1];
      assert calls == front + [e];
      RunSnoc(c, front, e);
      assert Run(c, front).None?;
      NothingTakenYet(c, front);
      forall i: nat | i < |front| ensures TakesReserved(c, calls, i) == TakesReserved(c, front, i) {
        assert calls[..i] == front[..i];
      }
    }
  }

  /** After a successful transition with the reserved identifier no call of any later sequence
      changes a byte, and no load ever succeeds again. */
  lemma {:induction false} ReservedEventIsForever(c: Codec, before: seq<Entry>, bad: Entry, after: seq<Entry>)
    requires Canonical(c) && bad.Transition? && bad.event == INIT_EVENT && Submit(c, Run(c, before), bad).1.Done?
    ensures Run(c, before + [bad] + after) == Run(c, before + [bad])
    ensures Run(c, before + [bad] + after).Some? && Load(c, Run(c, before + [bad] + after)).None?
    decreases |after|
  {
    hide Canonical, Load, Initialize;
    if after == [] {
      assert before + [bad] + after == before + [bad];
      RunSnoc(c, before, bad);
      SubmitLeavesLoadable(c, Run(c, before), bad);
    } else {
      var front, e := after[..|after| - 1], after[|after| - 1];
      ReservedEventIsForever(c, before, bad, front);
      assert before + [bad] + after == (before + [bad] + front) + [e];
      RunSnoc(c, before + [bad] + front, e);
      CallKeepsRefused(c, Run(c, before + [bad] + front), e);
    }
  }

  /** Calls that avoid the reserved identifier can never produce a file the loader refuses. */
  lemma RunIsLoadable(c: Codec, calls: seq<Entry>)
    requires Canonical(c) && forall i :: 0 <= i < |calls| && calls[i].Transition? ==> calls[i].event != INIT_EVENT
    ensures Run(c, calls).Some? ==> Load(c, Run(c, calls)).Some?
  {
    if Run(c, calls).Some? {
      RunIsRefusedExactly(c, calls);
    }
  }
}
