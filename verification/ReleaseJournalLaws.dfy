/** What every journal call answers and writes, exactly, and which files the loader accepts: those
    that some sequence of calls writes. */
module ReleaseJournalLaws {
  import opened Collections
  import opened ReleaseJournal
  import opened ReleaseJournalSafety

  // ----------------------------------------------------------- transition

  /** The edges a transaction may take. */
  predicate Leads(from: State, to: State) {
    || (from == Prepared && to == Approved)
    || (from == Approved && to == Dispatching)
    || (from == Dispatching && (to == Dispatched || to == NeedsReconciliation))
    || (from == Dispatched && (to == Completed || to == NeedsReconciliation))
    || (from == NeedsReconciliation && (to == Dispatched || to == Completed))
  }

  /** Where the last row left the transaction. */
  function Stands(rows: seq<Row>): State
    requires rows != []
  {
    match rows[|rows| - 1].entry
    case Init(_, _, _, _, _, _) => Prepared
    case Transition(_, _, _, to, _, _, _) => to
  }

  /** The edge is one of these, leaves from where the transaction stands, and carries an external id
      into dispatched and an observation into or out of reconciliation. */
  predicate Admitted(rows: seq<Row>, e: Entry)
    requires rows != [] && e.Transition?
  {
    && e.from == Stands(rows) && Leads(e.from, e.to)
    && (e.to == Dispatched ==> e.external != None)
    && (e.to == NeedsReconciliation || e.from == NeedsReconciliation ==> e.observation != None)
  }

  /** A transition succeeds exactly when its very entry is already a row after the first, or its id is
      in none, its transaction is the journal's and its edge is admitted; it conflicts exactly for a
      foreign transaction or a known id with another entry; the bytes grow by its one row exactly when
      it is new and succeeds. */
  lemma SubmitLaw(c: Codec, file: Option<seq<Byte>>, e: Entry)
    requires Canonical(c) && e.Transition?
    ensures var (after, reply) := Submit(c, file, e);
            if Load(c, file).None? then after == file && reply == JournalError
            else
              var rows := Load(c, file).value;
              if rows[0].entry.transaction != e.transaction then after == file && reply == ConflictError
              else if exists i :: 0 < i < |rows| && rows[i].entry == e
              then after == file && reply == Done(StatusOf(rows))
              else if exists i :: 0 < i < |rows| && rows[i].entry.Transition? && rows[i].entry.event == e.event
              then after == file && reply == ConflictError
              else if !Admitted(rows, e) then after == file && reply == JournalError
              else
                var previous := Some(rows[|rows| - 1].hash);
                var row := Row(|rows|, previous, e, c.digest(|rows|, previous, e));
                && after == Some(file.value + c.encode(row) + [NEWLINE])
                && reply == Done(StatusOf(rows + [row]))
  {
    hide Canonical, Load;
    if Load(c, file).Some? {
      var rows := Load(c, file).value;
      LoadedIsText(c, file);
      EventsAreOne(c, rows, e);
      var r := NextRow(c, rows, e);
      assert file.value + c.encode(r) + [NEWLINE] == file.value + (c.encode(r) + [NEWLINE]);
    }
  }

  /** The row that carries an event id is the only one that does. */
  lemma EventsAreOne(c: Codec, rows: seq<Row>, e: Entry)
    requires Accepted(c, rows) && e.Transition?
    ensures var i := FindEvent(rows, e.event);
            && (i == |rows| <==> forall j :: 0 < j < |rows| ==>
              !(rows[j].entry.Transition? && rows[j].entry.event == e.event))
            && (i < |rows| ==> (rows[i].entry == e <==> exists j :: 0 < j < |rows| && rows[j].entry == e))
  {
    var i := FindEvent(rows, e.event);
    if i < |rows| {
      forall j | 0 < j < |rows| && rows[j].entry == e ensures j == i {
        assert Admissible(rows, if j < i then i else j);
      }
    }
  }

  // ----------------------------------------------------------- initialize

  /** A missing file becomes a journal of one row; an existing one answers the entry it began with,
      and no other. */
  lemma InitializeLaw(c: Codec, file: Option<seq<Byte>>, e: Entry)
    requires e.Init?
    ensures var (after, reply) := Initialize(c, file, e);
            if file.None? then
              var row := Row(0, None, e, c.digest(0, None, e));
              after == Some(c.encode(row) + [NEWLINE]) && reply == Done(StatusOf([row]))
            else
              && after == file
              && reply == match Load(c, file)
                          case None => JournalError
                          case Some(rows) => if rows[0].entry == e then Done(StatusOf(rows)) else ConflictError
  {
    var row := FirstRow(c, e);
    assert [] + (c.encode(row) + [NEWLINE]) == c.encode(row) + [NEWLINE];
  }

  // --------------------------------------------------------------- status

  /** What each row says: its external id or its observation, absent in the first row. */
  function Externals(rows: seq<Row>): (values: seq<Option<Token>>)
    ensures |values| == |rows|
  {
    seq(|rows|, i requires 0 <= i < |rows| => if rows[i].entry.Init? then None else rows[i].entry.external)
  }

  function Observations(rows: seq<Row>): (values: seq<Option<Token>>)
    ensures |values| == |rows|
  {
    seq(|rows|, i requires 0 <= i < |rows| => if rows[i].entry.Init? then None else rows[i].entry.observation)
  }

  /** `shown` is the last value present, absent when none is. */
  ghost predicate ShowsLast(values: seq<Option<Token>>, shown: Option<Token>) {
    if shown == None then forall i :: 0 <= i < |values| ==> values[i] == None
    else exists i :: 0 <= i < |values| && values[i] == shown && forall j :: i < j < |values| ==> values[j] == None
  }

  lemma ShowsLastSnoc(values: seq<Option<Token>>, shown: Option<Token>, next: Option<Token>)
    requires ShowsLast(values, shown)
    ensures ShowsLast(values + [next], if next != None then next else shown)
  {
    var all := values + [next];
    if next != None {
      assert all[|values|] == next;
    } else if shown != None {
      var i :| 0 <= i < |values| && values[i] == shown && forall j :: i < j < |values| ==> values[j] == None;
      assert all[i] == shown;
    }
  }

  lemma {:induction false} LatestAreLast(rows: seq<Row>)
    ensures ShowsLast(Externals(rows), LatestExternal(rows)) && ShowsLast(Observations(rows), LatestObservation(rows))
  {
    if rows != [] {
      var front, last := rows[..|rows| - 1], rows[|rows| - 1];
      LatestAreLast(front);
      ShowsLastSnoc(Externals(front), LatestExternal(front), ExternalOf(last.entry));
      ShowsLastSnoc(Observations(front), LatestObservation(front), ObservationOf(last.entry));
      assert Externals(rows) == Externals(front) + [ExternalOf(last.entry)];
      assert Observations(rows) == Observations(front) + [ObservationOf(last.entry)];
    }
  }

  /** A status shows where the journal stands and the last external id and observation it carries. */
  lemma StatusLaw(rows: seq<Row>)
    requires rows != [] && rows[0].entry.Init?
    ensures var status := StatusOf(rows); var last := rows[|rows| - 1];
            && status.hash == last.hash && status.sequence == last.sequence && status.state == Stands(rows)
            && status.channel == rows[0].entry.channel && status.transaction == rows[0].entry.transaction
            && ShowsLast(Externals(rows), status.external) && ShowsLast(Observations(rows), status.observation)
  {
    LatestAreLast(rows);
  }

  // --------------------------------------------------------------- loader

  function Entries(rows: seq<Row>): (calls: seq<Entry>)
    ensures |calls| == |rows| && forall i :: 0 <= i < |rows| ==> calls[i] == rows[i].entry
  {
    seq(|rows|, i requires 0 <= i < |rows| => rows[i].entry)
  }

  /** Submitting the entries of an accepted journal one by one writes that journal. */
  lemma {:induction false} AcceptedIsWritten(c: Codec, rows: seq<Row>)
    requires Canonical(c) && Accepted(c, rows)
    ensures Run(c, Entries(rows)) == Some(Text(c, rows))
  {
    hide Canonical, Load, Text;
    var n := |rows| - 1;
    var front, last := rows[..n], rows[n];
    assert rows == front + [last];
    assert Linked(c, rows, n);
    assert Entries(rows) == Entries(front) + [last.entry];
    RunSnoc(c, Entries(front), last.entry);
    if n == 0 {
      assert Run(c, Entries(front)).None? by { assert Entries(front) == []; }
      InitializeLaw(c, None, last.entry);
      OneRowText(c, last);
    } else {
      PrefixAccepted(c, rows);
      AcceptedIsWritten(c, front);
      TextIsLoaded(c, front);
      assert Admissible(rows, n);
      LastIsNew(c, rows);
      AppendIsText(c, front, last);
    }
  }

  lemma OneRowText(c: Codec, row: Row)
    ensures Text(c, [row]) == c.encode(row) + [NEWLINE]
  {
    TextSnoc(c, [], row);
    assert [] + [row] == [row];
    assert [] + (c.encode(row) + [NEWLINE]) == c.encode(row) + [NEWLINE];
  }

  /** The last entry of an accepted journal is one its front takes as new. */
  lemma LastIsNew(c: Codec, rows: seq<Row>)
    requires Accepted(c, rows) && |rows| > 1
    ensures var front, e := rows[..|rows| - 1], rows[|rows| - 1].entry;
            && e.Transition? && e.event != INIT_EVENT && FindEvent(front, e.event) == |front|
            && front[0].entry.transaction == e.transaction
            && CheckTransition(StateOf(front[|front| - 1].entry), e)
            && NextRow(c, front, e) == rows[|rows| - 1]
  {
    var n := |rows| - 1;
    assert Admissible(rows, n) && Linked(c, rows, n);
    assert forall j :: 0 <= j < n ==> rows[..n][j] == rows[j];
  }

  /** The loader accepts a file exactly when some sequence of calls without the reserved event id
      writes it: it neither takes a journal no caller could have written nor refuses one that a caller
      has. */
  lemma LoadedExactlyWhatCallsWrite(c: Codec, file: Option<seq<Byte>>)
    requires Canonical(c)
    ensures Load(c, file).Some? <==>
            file.Some? && exists calls :: Innocent(calls) && Run(c, calls) == file
  {
    hide Canonical, Load, Run, Accepted;
    if Load(c, file).Some? {
      var rows := Load(c, file).value;
      LoadedIsText(c, file);
      AcceptedIsWritten(c, rows);
      EntriesAreInnocent(c, rows);
      assert Innocent(Entries(rows)) && Run(c, Entries(rows)) == file;
    }
    if calls :| Innocent(calls) && Run(c, calls) == file {
      RunIsLoadable(c, calls);
      NoFileIsRefused(c);
    }
  }

  ghost predicate Innocent(calls: seq<Entry>) {
    forall i :: 0 <= i < |calls| && calls[i].Transition? ==> calls[i].event != INIT_EVENT
  }

  lemma NoFileIsRefused(c: Codec)
    ensures Load(c, None).None?
  {
  }

  lemma EntriesAreInnocent(c: Codec, rows: seq<Row>)
    requires Accepted(c, rows)
    ensures Innocent(Entries(rows))
  {
    forall i | 0 <= i < |rows| && rows[i].entry.Transition? ensures rows[i].entry.event != INIT_EVENT {
      assert i > 0;
      assert Admissible(rows, i);
    }
  }
}
