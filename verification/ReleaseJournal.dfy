/** The release transaction journal of scripts/release_transaction.py: hash-linked canonical
    lines in an append-only file, a loader that accepts only whole chains, and idempotent events. */
module ReleaseJournal {
  import opened Collections

  type Hash = nat
  type Token = nat

  const NEWLINE: Byte := 10
  /** The event identifier `init`, which the loader reserves for the first row. */
  const INIT_EVENT: Token := 0

  datatype State = Prepared | Approved | Dispatching | Dispatched | Completed | NeedsReconciliation
  datatype Channel = Beta | Stable

  /** The caller-controlled part of a row, which idempotency compares. */
  datatype Entry =
    | Init(transaction: Token, channel: Channel, sourceSha: Token, artifact: Token, intent: Token, timestamp: Token)
    | Transition(transaction: Token, event: Token, from: State, to: State, timestamp: Token,
                 external: Option<Token>, observation: Option<Token>)

  datatype Row = Row(sequence: nat, previous: Option<Hash>, entry: Entry, hash: Hash)

  /** Canonical JSON with its parser, and SHA-256 over the unsigned canonical bytes. */
  datatype Codec = Codec(
    encode: Row -> seq<Byte>, parse: seq<Byte> -> Option<Row>, digest: (nat, Option<Hash>, Entry) -> Hash)

  /** A line is accepted only in its canonical form, and canonical JSON never spans lines. */
  ghost predicate Canonical(c: Codec) {
    && (forall r :: c.parse(c.encode(r)) == Some(r) && c.encode(r) != [] && NEWLINE !in c.encode(r))
    && (forall b :: c.parse(b).Some? ==> c.encode(c.parse(b).value) == b)
  }

  ghost predicate CollisionFree(c: Codec) {
    forall a: nat, p, e, b: nat, q, f :: c.digest(a, p, e) == c.digest(b, q, f) ==> a == b && p == q && e == f
  }

  // ---------------------------------------------------------------- chain

  predicate Allowed(from: State, to: State) {
    match from
    case Prepared => to.Approved?
    case Approved => to.Dispatching?
    case Dispatching => to.Dispatched? || to.NeedsReconciliation?
    case Dispatched => to.Completed? || to.NeedsReconciliation?
    case NeedsReconciliation => to.Dispatched? || to.Completed?
    case Completed => false
  }

  /** _check_transition: the edge exists and carries the evidence it needs. */
  predicate CheckTransition(current: State, e: Entry)
    requires e.Transition?
  {
    && e.from == current && Allowed(current, e.to)
    && (e.to.Dispatched? ==> e.external.Some?)
    && (e.to.NeedsReconciliation? || current.NeedsReconciliation? ==> e.observation.Some?)
  }

  function StateOf(e: Entry): State {
    if e.Init? then Prepared else e.to
  }

  predicate Linked(c: Codec, rows: seq<Row>, i: nat)
    requires i < |rows|
  {
    && rows[i].sequence == i
    && rows[i].previous == (if i == 0 then None else Some(rows[i - 1].hash))
    && c.digest(i, rows[i].previous, rows[i].entry) == rows[i].hash
  }

  predicate Admissible(rows: seq<Row>, i: nat)
    requires 0 < i < |rows|
  {
    var e := rows[i].entry;
    && e.Transition? && e.transaction == rows[0].entry.transaction && e.event != INIT_EVENT
    && (forall j :: 0 < j < i && rows[j].entry.Transition? ==> rows[j].entry.event != e.event)
    && CheckTransition(StateOf(rows[i - 1].entry), e)
  }

  /** _validate_chain, as a property of the rows. */
  predicate Accepted(c: Codec, rows: seq<Row>) {
    && rows != [] && rows[0].entry.Init?
    && (forall i :: 0 <= i < |rows| ==> Linked(c, rows, i))
    && (forall i :: 0 < i < |rows| ==> Admissible(rows, i))
  }

  // ---------------------------------------------------------------- bytes

  function Text(c: Codec, rows: seq<Row>): seq<Byte> {
    if rows == [] then [] else Text(c, rows[..|rows| - 1]) + (c.encode(rows[|rows| - 1]) + [NEWLINE])
  }

  /** The lines of a text that ends with a newline, last line first off. */
  function LastLineStart(data: seq<Byte>): (start: nat)
    ensures start <= |data| && (start > 0 ==> data[start - 1] == NEWLINE)
    ensures forall k :: start <= k < |data| ==> data[k] != NEWLINE
  {
    if data == [] || data[|data| - 1] == NEWLINE then |data| else LastLineStart(data[..|data| - 1])
  }

  /** Parse every line; None as soon as one is malformed or the tail is incomplete. */
  function ParseLines(c: Codec, data: seq<Byte>): Option<seq<Row>>
    decreases |data|
  {
    if data == [] then Some([])
    else if data[|data| - 1] != NEWLINE then None
    else
      var body := data[..|data| - 1];
      var start := LastLineStart(body);
      var front := ParseLines(c, body[..start]);
      var last := c.parse(body[start..]);
      if front.None? || last.None? then None else Some(front.value + [last.value])
  }

  /** _load_rows; a missing or empty file, a partial tail, a foreign line or a broken chain is None. */
  function Load(c: Codec, file: Option<seq<Byte>>): Option<seq<Row>> {
    if file.None? then None
    else
      var rows := ParseLines(c, file.value);
      if rows.Some? && Accepted(c, rows.value) then rows else None
  }

  // ----------------------------------------------------------- operations

  datatype Status = Status(
    channel: Channel, hash: Hash, sequence: nat, state: State, transaction: Token,
    external: Option<Token>, observation: Option<Token>)

  function ExternalOf(e: Entry): Option<Token> {
    if e.Transition? then e.external else None
  }

  function ObservationOf(e: Entry): Option<Token> {
    if e.Transition? then e.observation else None
  }

  function LatestExternal(rows: seq<Row>): Option<Token> {
    if rows == [] then None
    else if ExternalOf(rows[|rows| - 1].entry).Some? then ExternalOf(rows[|rows| - 1].entry)
    else LatestExternal(rows[..|rows| - 1])
  }

  function LatestObservation(rows: seq<Row>): Option<Token> {
    if rows == [] then None
    else if ObservationOf(rows[|rows| - 1].entry).Some? then ObservationOf(rows[|rows| - 1].entry)
    else LatestObservation(rows[..|rows| - 1])
  }

  function StatusOf(rows: seq<Row>): Status
    requires rows != [] && rows[0].entry.Init?
  {
    var last := rows[|rows| - 1];
    Status(rows[0].entry.channel, last.hash, last.sequence, StateOf(last.entry), rows[0].entry.transaction,
           LatestExternal(rows), LatestObservation(rows))
  }

  datatype Reply = Done(status: Status) | JournalError | ConflictError

  function FirstRow(c: Codec, e: Entry): Row {
    Row(0, None, e, c.digest(0, None, e))
  }

  function NextRow(c: Codec, rows: seq<Row>, e: Entry): Row
    requires rows != []
  {
    var previous := Some(rows[|rows| - 1].hash);
    Row(|rows|, previous, e, c.digest(|rows|, previous, e))
  }

  function Append(c: Codec, file: Option<seq<Byte>>, r: Row): Option<seq<Byte>> {
    Some((if file.None? then [] else file.value) + (c.encode(r) + [NEWLINE]))
  }

  function Initialize(c: Codec, file: Option<seq<Byte>>, e: Entry): (Option<seq<Byte>>, Reply)
    requires e.Init?
  {
    if file.None? then (Append(c, file, FirstRow(c, e)), Done(StatusOf([FirstRow(c, e)])))
    else
      var rows := Load(c, file);
      if rows.None? then (file, JournalError)
      else if rows.value[0].entry != e then (file, ConflictError)
      else (file, Done(StatusOf(rows.value)))
  }

  /** The row after the first that already carries this event identifier. */
  function FindEvent(rows: seq<Row>, event: Token): (i: nat)
    ensures i <= |rows|
    ensures i < |rows| ==> 0 < i && rows[i].entry.Transition? && rows[i].entry.event == event
    ensures i == |rows| ==> forall j :: 0 < j < |rows| && rows[j].entry.Transition? ==> rows[j].entry.event != event
  {
    if rows == [] then 0
    else
      var last := |rows| - 1;
      var i := FindEvent(rows[..last], event);
      if i < last then i
      else if last > 0 && rows[last].entry.Transition? && rows[last].entry.event == event then last
      else |rows|
  }

  function Submit(c: Codec, file: Option<seq<Byte>>, e: Entry): (Option<seq<Byte>>, Reply)
    requires e.Transition?
  {
    var loaded := Load(c, file);
    if loaded.None? then (file, JournalError)
    else
      var rows := loaded.value;
      var i := FindEvent(rows, e.event);
      if rows[0].entry.transaction != e.transaction then (file, ConflictError)
      else if i < |rows| then (file, if rows[i].entry == e then Done(StatusOf(rows)) else ConflictError)
      else if !CheckTransition(StateOf(rows[|rows| - 1].entry), e) then (file, JournalError)
      else
        var r := NextRow(c, rows, e);
        (Append(c, file, r), Done(StatusOf(rows + [r])))
  }

  // --------------------------------------------------------- text and rows

  lemma {:induction false} LastLineIs(data: seq<Byte>, line: seq<Byte>)
    requires NEWLINE !in line && (data == [] || data[|data| - 1] == NEWLINE)
    ensures LastLineStart(data + line) == |data|
    decreases |line|
  {
    if line == [] {
      assert data + line == data;
    } else {
      assert (data + line)[..|data + line| - 1] == data + line[..|line| - 1];
      LastLineIs(data, line[..|line| - 1]);
    }
  }

  lemma TextEnds(c: Codec, rows: seq<Row>)
    ensures rows == [] ==> Text(c, rows) == []
    ensures rows != [] ==> Text(c, rows) != [] && Text(c, rows)[|Text(c, rows)| - 1] == NEWLINE
  {
  }

  /** One more complete line parses as one more row. */
  lemma ParseSnoc(c: Codec, head: seq<Byte>, line: seq<Byte>)
    requires NEWLINE !in line && (head == [] || head[|head| - 1] == NEWLINE)
    ensures ParseLines(c, head + (line + [NEWLINE]))
         == if ParseLines(c, head).None?
           || c.parse(line).None?
           then None else Some(ParseLines(c, head).value + [c.parse(line).value])
  {
    var data := head + (line + [NEWLINE]);
    assert data[..|data| - 1] == head + line;
    LastLineIs(head, line);
    assert (head + line)[..|head|] == head && (head + line)[|head|..] == line;
  }

  /** The loader reads back exactly the rows that were written. */
  lemma {:induction false} ParseOfText(c: Codec, rows: seq<Row>)
    requires Canonical(c)
    ensures ParseLines(c, Text(c, rows)) == Some(rows)
  {
    hide Canonical, LastLineStart;
    if rows != [] {
      hide ParseLines;
      var front, last := rows[..|rows| - 1], rows[|rows| - 1];
      ParseOfText(c, front);
      TextEnds(c, front);
      CodecRoundTrips(c, last);
      ParseSnoc(c, Text(c, front), c.encode(last));
      assert front + [last] == rows;
    }
  }

  lemma CodecRoundTrips(c: Codec, r: Row)
    requires Canonical(c)
    ensures c.parse(c.encode(r)) == Some(r) && NEWLINE !in c.encode(r)
  {
  }

  lemma LinesAreCanonical(c: Codec, line: seq<Byte>)
    requires Canonical(c) && c.parse(line).Some?
    ensures c.encode(c.parse(line).value) == line
  {
  }

  /** Whatever the loader parses is the canonical text of the rows it returns. */
  lemma {:induction false} TextOfParse(c: Codec, data: seq<Byte>)
    requires Canonical(c) && ParseLines(c, data).Some?
    ensures Text(c, ParseLines(c, data).value) == data
    decreases |data|
  {
    hide Canonical, LastLineStart;
    if data != [] {
      var body := data[..|data| - 1];
      var start := LastLineStart(body);
      var head, line := body[..start], body[start..];
      TextOfParse(c, head);
      LinesAreCanonical(c, line);
      var front, last := ParseLines(c, head).value, c.parse(line).value;
      TextSnoc(c, front, last);
      assert ParseLines(c, data).value == front + [last];
      assert head + (line + [NEWLINE]) == data;
    }
  }

  lemma TextSnoc(c: Codec, rows: seq<Row>, r: Row)
    ensures Text(c, rows + [r]) == Text(c, rows) + (c.encode(r) + [NEWLINE])
  {
    assert (rows + [r])[..|rows|] == rows;
  }

  lemma LoadedIsText(c: Codec, file: Option<seq<Byte>>)
    requires Canonical(c) && Load(c, file).Some?
    ensures file == Some(Text(c, Load(c, file).value)) && Accepted(c, Load(c, file).value)
  {
    TextOfParse(c, file.value);
  }

  lemma TextIsLoaded(c: Codec, rows: seq<Row>)
    requires Canonical(c)
    ensures Load(c, Some(Text(c, rows))) == if Accepted(c, rows) then Some(rows) else None
  {
    ParseOfText(c, rows);
  }

  lemma AppendIsText(c: Codec, rows: seq<Row>, r: Row)
    ensures Append(c, Some(Text(c, rows)), r) == Some(Text(c, rows + [r]))
  {
    TextSnoc(c, rows, r);
  }
}
