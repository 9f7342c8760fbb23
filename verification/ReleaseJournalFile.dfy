/** The journal as a file that calls append to: the chain loop, the loader and the two writing
    operations of scripts/release_transaction.py, proved against the model. */
module ReleaseJournalFile {
  import opened Collections
  import opened ReleaseJournal
  import opened ReleaseJournalSafety

  /** _validate_chain: one pass carrying the state, the events seen and the prior hash. */
  method ValidateChain(c: Codec, rows: seq<Row>) returns (ok: bool)
    ensures ok <==> Accepted(c, rows)
  {
    if rows == [] || !rows[0].entry.Init? {
      return false;
    }
    var transaction := rows[0].entry.transaction;
    var current := Prepared;
    var seen: set<Token> := {INIT_EVENT};
    var prior: Option<Hash> := None;
    for i := 0 to |rows|
      invariant forall k :: 0 <= k < i ==> Linked(c, rows, k)
      invariant forall k :: 0 < k < i ==> Admissible(rows, k)
      invariant current == if i == 0 then Prepared else StateOf(rows[i - 1].entry)
      invariant prior == if i == 0 then None else Some(rows[i - 1].hash)
      invariant forall x :: x in seen <==>
                x == INIT_EVENT || exists k :: 0 < k < i && rows[k].entry.Transition? && rows[k].entry.event == x
    {
      var row := rows[i];
      if row.sequence != i || row.previous != prior || c.digest(row.sequence, row.previous, row.entry) != row.hash {
        assert !Linked(c, rows, i);
        return false;
      }
      assert Linked(c, rows, i);
      if row.entry.Init? {
        if i != 0 {
          assert !Admissible(rows, i);
          return false;
        }
      } else {
        if row.entry.transaction != transaction || row.entry.event in seen || !CheckTransition(current, row.entry) {
          assert !Admissible(rows, i);
          return false;
        }
        assert Admissible(rows, i);
        seen := seen + {row.entry.event};
        current := row.entry.to;
      }
      prior := Some(row.hash);
    }
    return true;
  }

  class Journal {
    const codec: Codec
    var file: Option<seq<Byte>>

    constructor (codec: Codec)
      ensures file.None? && this.codec == codec
    {
      this.codec := codec;
      file := None;
    }

    method LoadRows() returns (rows: Option<seq<Row>>)
      ensures rows == Load(codec, file)
    {
      if file.None? {
        return None;
      }
      rows := ParseLines(codec, file.value);
      if rows.Some? {
        var ok := ValidateChain(codec, rows.value);
        if !ok {
          rows := None;
        }
      }
    }

    method AppendRow(row: Row)
      modifies this
      ensures file == Append(codec, old(file), row)
    {
      file := Some((if file.None? then [] else file.value) + (codec.encode(row) + [NEWLINE]));
    }

    method InitializeJournal(e: Entry) returns (reply: Reply)
      requires e.Init?
      modifies this
      ensures (file, reply) == Initialize(codec, old(file), e)
    {
      var candidate := FirstRow(codec, e);
      if file.Some? {
        var rows := LoadRows();
        if rows.None? {
          return JournalError;
        }
        return if rows.value[0].entry != e then ConflictError else Done(StatusOf(rows.value));
      }
      AppendRow(candidate);
      return Done(StatusOf([candidate]));
    }

    method SubmitTransition(e: Entry) returns (reply: Reply)
      requires e.Transition?
      modifies this
      ensures (file, reply) == Submit(codec, old(file), e)
    {
      var loaded := LoadRows();
      if loaded.None? {
        return JournalError;
      }
      var rows := loaded.value;
      if rows[0].entry.transaction != e.transaction {
        return ConflictError;
      }
      var existing := FindEvent(rows, e.event);
      if existing < |rows| {
        return if rows[existing].entry == e then Done(StatusOf(rows)) else ConflictError;
      }
      if !CheckTransition(StateOf(rows[|rows| - 1].entry), e) {
        return JournalError;
      }
      var row := NextRow(codec, rows, e);
      AppendRow(row);
      return Done(StatusOf(rows + [row]));
    }
  }
}
