/** The key-value migration ledger of hub/src/kv-migration-store.ts: fencing epochs, prepare,
    acknowledge, commit, and tombstones gated by scans, with the validator that re-checks reads. */
module MigrationModel {
  import opened Collections

  type Key = nat
  type Digest = nat
  type Time = nat

  datatype Row = Row(v1: Key, digest: Digest, v2: Key)
  datatype SourceRow = SourceRow(v1: Key, digest: Digest)
  datatype Ack = Ack(v1: Key, digest: Digest)
  datatype Scan = Scan(id: Key, at: Time, rows: seq<SourceRow>)
  datatype Status = Prepared | Committed | TombstoneAuthorized

  datatype Migration = Migration(
    id: Id, epoch: nat, rows: seq<Row>, status: Status, acks: seq<Ack>, scans: seq<Scan>,
    zeros: nat, window: Option<Time>)

  datatype Head = Head(id: Id, epoch: nat)

  datatype Store = Store(head: Option<Head>, migrations: map<Id, Migration>)

  const EMPTY := Store(None, map[])

  // ----------------------------------------------------------- validation

  /** validateRows: v1 keys strictly increasing, v2 keys pairwise different. */
  predicate ValidRows(rows: seq<Row>) {
    && (forall i, j :: 0 <= i < j < |rows| ==> rows[i].v1 < rows[j].v1)
    && (forall i, j :: 0 <= i < j < |rows| ==> rows[i].v2 != rows[j].v2)
  }

  predicate ValidSourceRows(rows: seq<SourceRow>) {
    forall i, j :: 0 <= i < j < |rows| ==> rows[i].v1 < rows[j].v1
  }

  predicate Binds(rows: seq<Row>, ack: Ack) {
    exists k :: 0 <= k < |rows| && rows[k].v1 == ack.v1 && rows[k].digest == ack.digest
  }

  predicate SortedAcks(acks: seq<Ack>) {
    forall i, j :: 0 <= i < j < |acks| ==> acks[i].v1 < acks[j].v1
  }

  predicate ValidAcks(rows: seq<Row>, acks: seq<Ack>) {
    SortedAcks(acks) && (forall i :: 0 <= i < |acks| ==> Binds(rows, acks[i]))
  }

  predicate ValidScans(scans: seq<Scan>) {
    && (forall i :: 0 <= i < |scans| ==> ValidSourceRows(scans[i].rows))
    && (forall i, j :: 0 <= i < j < |scans| ==> scans[i].at < scans[j].at)
    && (forall i, j :: 0 <= i < j < |scans| ==> scans[i].id != scans[j].id)
  }

  function TrailingZeros(scans: seq<Scan>): nat {
    if scans == [] || scans[|scans| - 1].rows != [] then 0 else 1 + TrailingZeros(scans[..|scans| - 1])
  }

  /** trailingZeroScansSince: the zero scans at the end that were observed at or after `since`. */
  function TrailingZerosSince(scans: seq<Scan>, since: Time): (n: nat)
    ensures n <= |scans|
  {
    if scans == [] || scans[|scans| - 1].rows != [] || scans[|scans| - 1].at < since then 0
    else 1 + TrailingZerosSince(scans[..|scans| - 1], since)
  }

  /** validStoredMigration. */
  predicate Valid(m: Migration) {
    && m.epoch >= 1 && ValidRows(m.rows) && ValidAcks(m.rows, m.acks) && ValidScans(m.scans)
    && TrailingZeros(m.scans) == m.zeros
    && (!m.status.Prepared? ==> |m.acks| == |m.rows|)
  }

  // -------------------------------------------------------------- lookups

  function FindV1(rows: seq<Row>, key: Key): (row: Option<Row>)
    ensures row.Some? ==> row.value in rows && row.value.v1 == key
    ensures row.None? ==> forall r :: r in rows ==> r.v1 != key
  {
    if rows == [] then None else if rows[0].v1 == key then Some(rows[0]) else FindV1(rows[1..], key)
  }

  function FindV2(rows: seq<Row>, key: Key): (row: Option<Row>)
    ensures row.Some? ==> row.value in rows && row.value.v2 == key
    ensures row.None? ==> forall r :: r in rows ==> r.v2 != key
  {
    if rows == [] then None else if rows[0].v2 == key then Some(rows[0]) else FindV2(rows[1..], key)
  }

  function FindAck(acks: seq<Ack>, key: Key): (ack: Option<Ack>)
    ensures ack.Some? ==> ack.value in acks && ack.value.v1 == key
    ensures ack.None? ==> forall a :: a in acks ==> a.v1 != key
  {
    if acks == [] then None else if acks[0].v1 == key then Some(acks[0]) else FindAck(acks[1..], key)
  }

  function FindScan(scans: seq<Scan>, id: Key): (scan: Option<Scan>)
    ensures scan.Some? ==> scan.value in scans && scan.value.id == id
    ensures scan.None? ==> forall x :: x in scans ==> x.id != id
  {
    if scans == [] then None else if scans[0].id == id then Some(scans[0]) else FindScan(scans[1..], id)
  }

  /** How many bound rows have no acknowledgement yet. */
  function Unacknowledged(rows: seq<Row>, acks: seq<Ack>): (n: nat)
    ensures n == 0 ==> forall r :: r in rows ==> FindAck(acks, r.v1).Some?
  {
    if rows == [] then 0
    else Unacknowledged(rows[1..], acks) + if FindAck(acks, rows[0].v1).Some? then 0 else 1
  }

  /** The sorted list with one more acknowledgement. */
  function InsertAck(acks: seq<Ack>, ack: Ack): seq<Ack> {
    if acks == [] || ack.v1 < acks[0].v1 then [ack] + acks else [acks[0]] + InsertAck(acks[1..], ack)
  }

  // ---------------------------------------------------------------- steps

  datatype Reply =
    | PreparedNow | Existing | StaleEpoch | Conflict | Invalid | InvalidState
    | Applied | Duplicate | DigestMismatch | NotFound | Closed
    | Observed(zeros: nat) | DuplicateScan(zeros: nat) | ScanMismatch
    | CommittedNow | Pending(remaining: nat)
    | Authorized | SafetyWindow | ZeroScanGate | WindowMismatch | NotCommitted
    | V1Allowed(v2: Key) | V2Allowed(v2: Key) | OldEpochRejected | StaleReadRejected
    | TombstoneRequired | NotBound | ReadPending

  predicate IsHead(s: Store, m: Migration) {
    s.head == Some(Head(m.id, m.epoch))
  }

  function Put(s: Store, m: Migration): Store {
    s.(migrations := s.migrations[m.id := m])
  }

  function Prepare(s: Store, id: Id, epoch: nat, rows: seq<Row>): (Store, Reply) {
    if epoch < 1 || !ValidRows(rows) then (s, Invalid)
    else if id in s.migrations then
      var m := s.migrations[id];
      if !Valid(m) || s.head.None? then (s, InvalidState)
      else if !IsHead(s, m) then (s, StaleEpoch)
      else if m.id == id && m.epoch == epoch && m.rows == rows then (s, Existing)
      else (s, Conflict)
    else if s.head.Some? && epoch <= s.head.value.epoch then (s, StaleEpoch)
    else if s.head.Some?
      && (s.head.value.id !in s.migrations || !Valid(s.migrations[s.head.value.id]))
      then (s, InvalidState)
    else if s.head.Some? && s.migrations[s.head.value.id].status.Prepared? then (s, Conflict)
    else
      (Store(Some(Head(id, epoch)), s.migrations[id := Migration(id, epoch, rows, Prepared, [], [], 0, None)]),
        PreparedNow)
  }

  /** The checks every writing call makes on the stored record before it looks at the request. */
  function Opened(s: Store, id: Id, epoch: nat): Option<Reply> {
    if id !in s.migrations then Some(NotFound)
    else if !Valid(s.migrations[id]) then Some(InvalidState)
    else if s.migrations[id].epoch != epoch then Some(StaleEpoch)
    else if s.head.None? then Some(InvalidState)
    else if !IsHead(s, s.migrations[id]) then Some(StaleEpoch)
    else None
  }

  function Acknowledge(s: Store, id: Id, epoch: nat, v1: Key, digest: Digest): (Store, Reply) {
    if epoch < 1 then (s, Invalid)
    else if Opened(s, id, epoch).Some? then (s, Opened(s, id, epoch).value)
    else
      var m := s.migrations[id];
      var row := FindV1(m.rows, v1);
      var existing := FindAck(m.acks, v1);
      if !m.status.Prepared? then (s, Closed)
      else if row.None? then (s, NotFound)
      else if existing.Some? then (s, if existing.value.digest == digest then Duplicate else DigestMismatch)
      else if row.value.digest != digest then (s, DigestMismatch)
      else (Put(s, m.(acks := InsertAck(m.acks, Ack(v1, digest)))), Applied)
  }

  predicate KnownSubset(seen: seq<SourceRow>, rows: seq<Row>) {
    forall i :: 0 <= i < |seen| ==>
      exists k :: 0 <= k < |rows| && rows[k].v1 == seen[i].v1 && rows[k].digest == seen[i].digest
  }

  function WithScan(m: Migration, scan: Scan): Migration {
    m.(scans := m.scans + [scan], zeros := if scan.rows == [] then m.zeros + 1 else 0)
  }

  function ObserveScan(s: Store, id: Id, epoch: nat, scan: Scan): (Store, Reply) {
    if epoch < 1 || !ValidSourceRows(scan.rows) then (s, Invalid)
    else if Opened(s, id, epoch).Some? then (s, Opened(s, id, epoch).value)
    else
      var m := s.migrations[id];
      var duplicate := FindScan(m.scans, scan.id);
      if duplicate.Some? then (s, if duplicate.value == scan then DuplicateScan(m.zeros) else InvalidState)
      else if m.scans != [] && scan.at <= m.scans[|m.scans| - 1].at then (s, Invalid)
      else
        var next := WithScan(m, scan);
        (Put(s, next), if KnownSubset(scan.rows, m.rows) then Observed(next.zeros) else ScanMismatch)
  }

  function Commit(s: Store, id: Id, epoch: nat): (Store, Reply) {
    if epoch < 1 then (s, Invalid)
    else if id !in s.migrations then (s, NotFound)
    else
      var m := s.migrations[id];
      if !Valid(m) then (s, InvalidState)
      else if m.epoch != epoch then (s, StaleEpoch)
      else if m.status.TombstoneAuthorized? then (s, Closed)
      else if m.status.Committed? then (s, CommittedNow)
      else if Unacknowledged(m.rows, m.acks) != 0 then (s, Pending(Unacknowledged(m.rows, m.acks)))
      else if s.head.None? then (s, InvalidState)
      else if !IsHead(s, m) then (s, StaleEpoch)
      else (Put(s, m.(status := Committed)), CommittedNow)
  }

  function Tombstone(s: Store, id: Id, epoch: nat, window: Time, required: nat, now: Time): (Store, Reply) {
    if epoch < 1 || required < 1 then (s, Invalid)
    else if Opened(s, id, epoch).Some? then (s, Opened(s, id, epoch).value)
    else
      var m := s.migrations[id];
      if m.status.Prepared? then (s, NotCommitted)
      else if m.window.Some? && m.window.value != window then (s, WindowMismatch)
      else if m.status.TombstoneAuthorized? then (s, Authorized)
      else
        var windowed := m.(window := Some(window));
        if now < window then (Put(s, windowed), SafetyWindow)
        else if TrailingZerosSince(m.scans, window) < required then (Put(s, windowed), ZeroScanGate)
        else (Put(s, windowed.(status := TombstoneAuthorized)), Authorized)
  }

  datatype Source = FromV1 | FromV2

  function ReadDecision(s: Store, id: Id, epoch: nat, source: Source, key: Key, observed: Option<Digest>): Reply {
    if epoch < 1 then Invalid
    else if id !in s.migrations then NotFound
    else
      var m := s.migrations[id];
      if !Valid(m) || s.head.None? then InvalidState
      else if !IsHead(s, m) then OldEpochRejected
      else
        var row := if source.FromV1? then FindV1(m.rows, key) else FindV2(m.rows, key);
        if row.None? then NotBound
        else if observed.Some? && observed.value != row.value.digest then StaleReadRejected
        else if source.FromV1?
          then (if m.status.TombstoneAuthorized? then TombstoneRequired else V1Allowed(row.value.v2))
        else if m.status.Prepared? then ReadPending
        else V2Allowed(row.value.v2)
  }

  // ----------------------------------------------------------------- runs

  datatype Command =
    | DoPrepare(id: Id, epoch: nat, rows: seq<Row>)
    | DoAcknowledge(id: Id, epoch: nat, v1: Key, digest: Digest)
    | DoScan(id: Id, epoch: nat, scan: Scan)
    | DoCommit(id: Id, epoch: nat)
    | DoTombstone(id: Id, epoch: nat, window: Time, required: nat, now: Time)

  function Exec(s: Store, c: Command): (Store, Reply) {
    match c
    case DoPrepare(id, epoch, rows) => Prepare(s, id, epoch, rows)
    case DoAcknowledge(id, epoch, v1, digest) => Acknowledge(s, id, epoch, v1, digest)
    case DoScan(id, epoch, scan) => ObserveScan(s, id, epoch, scan)
    case DoCommit(id, epoch) => Commit(s, id, epoch)
    case DoTombstone(id, epoch, window, required, now) => Tombstone(s, id, epoch, window, required, now)
  }

  /** Any interleaving of transactions, oldest first; reads change nothing. */
  function Run(s: Store, commands: seq<Command>): Store {
    if commands == [] then s
    else Exec(Run(s, commands[..|commands| - 1]), commands[|commands| - 1]).0
  }
}
