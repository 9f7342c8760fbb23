/** KVMigrationStore: the validator loops and the six transactions of
    hub/src/kv-migration-store.ts, proved against the predicates and steps of the model. */
module MigrationStore {
  import opened Collections
  import opened MigrationModel

  method ValidateRows(rows: seq<Row>) returns (ok: bool)
    ensures ok <==> ValidRows(rows)
  {
    var v2Keys: set<Key> := {};
    for i := 0 to |rows|
      invariant ValidRows(rows[..i])
      invariant forall k :: k in v2Keys <==> exists j :: 0 <= j < i && rows[j].v2 == k
    {
      if i > 0 && rows[i - 1].v1 >= rows[i].v1 {
        return false;
      }
      if rows[i].v2 in v2Keys {
        return false;
      }
      v2Keys := v2Keys + {rows[i].v2};
      assert forall a :: 0 <= a < i - 1 ==> rows[..i][a].v1 < rows[..i][i - 1].v1;
    }
    assert rows[..|rows|] == rows;
    return true;
  }

  method ValidateSourceRows(rows: seq<SourceRow>) returns (ok: bool)
    ensures ok <==> ValidSourceRows(rows)
  {
    for i := 0 to |rows|
      invariant forall a, b :: 0 <= a < b < i ==> rows[a].v1 < rows[b].v1
    {
      if i > 0 && rows[i - 1].v1 >= rows[i].v1 {
        return false;
      }
    }
    return true;
  }

  method ValidateAcks(rows: seq<Row>, acks: seq<Ack>) returns (ok: bool)
    requires ValidRows(rows)
    ensures ok <==> ValidAcks(rows, acks)
  {
    for i := 0 to |acks|
      invariant forall a, b :: 0 <= a < b < i ==> acks[a].v1 < acks[b].v1
      invariant forall a :: 0 <= a < i ==> Binds(rows, acks[a])
    {
      if i > 0 && acks[i - 1].v1 >= acks[i].v1 {
        return false;
      }
      var bound := FindV1(rows, acks[i].v1);
      if bound.None? || bound.value.digest != acks[i].digest {
        FirstBoundDecides(rows, acks[i]);
        return false;
      }
      FirstBoundDecides(rows, acks[i]);
    }
    return true;
  }

  /** With strictly increasing keys the first row of a key is the only one. */
  lemma FirstBoundDecides(rows: seq<Row>, ack: Ack)
    requires ValidRows(rows)
    ensures Binds(rows, ack) <==> FindV1(rows, ack.v1).Some? && FindV1(rows, ack.v1).value.digest == ack.digest
  {
    var found := FindV1(rows, ack.v1);
    if found.Some? {
      var i :| 0 <= i < |rows| && rows[i] == found.value;
      if Binds(rows, ack) {
        var k :| 0 <= k < |rows| && rows[k].v1 == ack.v1 && rows[k].digest == ack.digest;
        assert k == i;
      }
    }
  }

  method ValidateScans(scans: seq<Scan>) returns (ok: bool)
    ensures ok <==> ValidScans(scans)
  {
    var ids: set<Key> := {};
    for i := 0 to |scans|
      invariant forall a :: 0 <= a < i ==> ValidSourceRows(scans[a].rows)
      invariant forall a, b :: 0 <= a < b < i ==> scans[a].at < scans[b].at
      invariant forall a, b :: 0 <= a < b < i ==> scans[a].id != scans[b].id
      invariant forall k :: k in ids <==> exists j :: 0 <= j < i && scans[j].id == k
    {
      var sorted := ValidateSourceRows(scans[i].rows);
      if !sorted || scans[i].id in ids {
        return false;
      }
      ids := ids + {scans[i].id};
      if i > 0 && scans[i].at <= scans[i - 1].at {
        return false;
      }
    }
    return true;
  }

  method CountTrailingZeros(scans: seq<Scan>) returns (count: nat)
    ensures count == TrailingZeros(scans)
  {
    count := 0;
    var index := |scans|;
    assert scans[..index] == scans;
    while index > 0
      invariant 0 <= index <= |scans|
      invariant TrailingZeros(scans) == count + TrailingZeros(scans[..index])
    {
      assert scans[..index][..index - 1] == scans[..index - 1];
      if scans[index - 1].rows != [] {
        break;
      }
      count := count + 1;
      index := index - 1;
    }
  }

  method CountTrailingZerosSince(scans: seq<Scan>, since: Time) returns (count: nat)
    ensures count == TrailingZerosSince(scans, since)
  {
    count := 0;
    var index := |scans|;
    assert scans[..index] == scans;
    while index > 0
      invariant 0 <= index <= |scans|
      invariant TrailingZerosSince(scans, since) == count + TrailingZerosSince(scans[..index], since)
    {
      assert scans[..index][..index - 1] == scans[..index - 1];
      if scans[index - 1].rows != [] || scans[index - 1].at < since {
        break;
      }
      count := count + 1;
      index := index - 1;
    }
  }

  /** validStoredMigration, loop by loop. */
  method ValidStoredMigration(m: Migration) returns (ok: bool)
    ensures ok <==> Valid(m)
  {
    if m.epoch < 1 {
      return false;
    }
    ok := ValidateRows(m.rows);
    if !ok {
      return;
    }
    ok := ValidateAcks(m.rows, m.acks);
    if !ok {
      return;
    }
    ok := ValidateScans(m.scans);
    if !ok {
      return;
    }
    var trailing := CountTrailingZeros(m.scans);
    return trailing == m.zeros && (m.status.Prepared? || |m.acks| == |m.rows|);
  }

  class KVMigrationStore {
    var head: Option<Head>
    var migrations: map<Id, Migration>

    ghost function State(): Store
      reads this
    {
      Store(head, migrations)
    }

    constructor ()
      ensures State() == EMPTY
    {
      head, migrations := None, map[];
    }

    method PrepareMigration(id: Id, epoch: nat, rows: seq<Row>) returns (reply: Reply)
      modifies this
      ensures (State(), reply) == Prepare(old(State()), id, epoch, rows)
    {
      var ok := ValidateRows(rows);
      if epoch < 1 || !ok {
        return Invalid;
      }
      if id in migrations {
        var existing := migrations[id];
        ok := ValidStoredMigration(existing);
        if !ok || head.None? {
          return InvalidState;
        }
        if head != Some(Head(existing.id, existing.epoch)) {
          return StaleEpoch;
        }
        return if existing.id == id && existing.epoch == epoch && existing.rows == rows then Existing else Conflict;
      }
      if head.Some? {
        if epoch <= head.value.epoch {
          return StaleEpoch;
        }
        if head.value.id !in migrations {
          return InvalidState;
        }
        var prior := migrations[head.value.id];
        ok := ValidStoredMigration(prior);
        if !ok {
          return InvalidState;
        }
        if prior.status.Prepared? {
          return Conflict;
        }
      }
      migrations := migrations[id := Migration(id, epoch, rows, Prepared, [], [], 0, None)];
      head := Some(Head(id, epoch));
      return PreparedNow;
    }

    /** Load a record for writing: present, valid, of this epoch, and the head. */
    method Open(id: Id, epoch: nat) returns (refusal: Option<Reply>)
      ensures refusal == Opened(State(), id, epoch)
    {
      if id !in migrations {
        return Some(NotFound);
      }
      var m := migrations[id];
      var ok := ValidStoredMigration(m);
      if !ok {
        return Some(InvalidState);
      }
      if m.epoch != epoch {
        return Some(StaleEpoch);
      }
      if head.None? {
        return Some(InvalidState);
      }
      return if head == Some(Head(m.id, m.epoch)) then None else Some(StaleEpoch);
    }

    method AcknowledgeApplied(id: Id, epoch: nat, v1: Key, digest: Digest) returns (reply: Reply)
      modifies this
      ensures (State(), reply) == Acknowledge(old(State()), id, epoch, v1, digest)
    {
      if epoch < 1 {
        return Invalid;
      }
      var refusal := Open(id, epoch);
      if refusal.Some? {
        return refusal.value;
      }
      var m := migrations[id];
      if !m.status.Prepared? {
        return Closed;
      }
      var row := FindV1(m.rows, v1);
      if row.None? {
        return NotFound;
      }
      var existing := FindAck(m.acks, v1);
      if existing.Some? {
        return if existing.value.digest == digest then Duplicate else DigestMismatch;
      }
      if row.value.digest != digest {
        return DigestMismatch;
      }
      migrations := migrations[m.id := m.(acks := InsertAck(m.acks, Ack(v1, digest)))];
      return Applied;
    }

    method ObserveFullScan(id: Id, epoch: nat, scan: Scan) returns (reply: Reply)
      modifies this
      ensures (State(), reply) == ObserveScan(old(State()), id, epoch, scan)
    {
      var ok := ValidateSourceRows(scan.rows);
      if epoch < 1 || !ok {
        return Invalid;
      }
      var refusal := Open(id, epoch);
      if refusal.Some? {
        return refusal.value;
      }
      var m := migrations[id];
      var duplicate := FindScan(m.scans, scan.id);
      if duplicate.Some? {
        return if duplicate.value == scan then DuplicateScan(m.zeros) else InvalidState;
      }
      if m.scans != [] && scan.at <= m.scans[|m.scans| - 1].at {
        return Invalid;
      }
      var next := WithScan(m, scan);
      migrations := migrations[m.id := next];
      return if KnownSubset(scan.rows, m.rows) then Observed(next.zeros) else ScanMismatch;
    }

    method CommitMigration(id: Id, epoch: nat) returns (reply: Reply)
      modifies this
      ensures (State(), reply) == Commit(old(State()), id, epoch)
    {
      if epoch < 1 {
        return Invalid;
      }
      if id !in migrations {
        return NotFound;
      }
      var m := migrations[id];
      var ok := ValidStoredMigration(m);
      if !ok {
        return InvalidState;
      }
      if m.epoch != epoch {
        return StaleEpoch;
      }
      if m.status.TombstoneAuthorized? {
        return Closed;
      }
      if m.status.Committed? {
        return CommittedNow;
      }
      var remaining := Unacknowledged(m.rows, m.acks);
      if remaining != 0 {
        return Pending(remaining);
      }
      if head.None? {
        return InvalidState;
      }
      if head != Some(Head(m.id, m.epoch)) {
        return StaleEpoch;
      }
      migrations := migrations[m.id := m.(status := Committed)];
      head := Some(Head(m.id, m.epoch));
      return CommittedNow;
    }

    method AuthorizeTombstone(id: Id, epoch: nat, window: Time, required: nat, now: Time) returns (reply: Reply)
      modifies this
      ensures (State(), reply) == Tombstone(old(State()), id, epoch, window, required, now)
    {
      if epoch < 1 || required < 1 {
        return Invalid;
      }
      var refusal := Open(id, epoch);
      if refusal.Some? {
        return refusal.value;
      }
      var m := migrations[id];
      if m.status.Prepared? {
        return NotCommitted;
      }
      if m.window.Some? && m.window.value != window {
        return WindowMismatch;
      }
      m := m.(window := Some(window));
      if m.status.TombstoneAuthorized? {
        return Authorized;
      }
      migrations := migrations[m.id := m];
      if now < window {
        return SafetyWindow;
      }
      var zeros := CountTrailingZerosSince(m.scans, window);
      if zeros < required {
        return ZeroScanGate;
      }
      migrations := migrations[m.id := m.(status := TombstoneAuthorized)];
      assert old(migrations)[m.id := m][m.id := m.(status := TombstoneAuthorized)]
          == old(migrations)[m.id := m.(status := TombstoneAuthorized)];
      return Authorized;
    }

    method DecideRead(id: Id, epoch: nat, source: Source, key: Key, observed: Option<Digest>) returns (reply: Reply)
      ensures reply == ReadDecision(State(), id, epoch, source, key, observed)
    {
      if epoch < 1 {
        return Invalid;
      }
      if id !in migrations {
        return NotFound;
      }
      var m := migrations[id];
      var ok := ValidStoredMigration(m);
      if !ok || head.None? {
        return InvalidState;
      }
      if head != Some(Head(m.id, m.epoch)) {
        return OldEpochRejected;
      }
      var row := if source.FromV1? then FindV1(m.rows, key) else FindV2(m.rows, key);
      if row.None? {
        return NotBound;
      }
      if observed.Some? && observed.value != row.value.digest {
        return StaleReadRejected;
      }
      if source.FromV1? {
        return if m.status.TombstoneAuthorized? then TombstoneRequired else V1Allowed(row.value.v2);
      }
      return if m.status.Prepared? then ReadPending else V2Allowed(row.value.v2);
    }
  }
}
