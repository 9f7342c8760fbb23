/** What every call on the migration ledger answers and writes in a consistent store, stated by the
    rows, acknowledgements and scans themselves. */
module MigrationLaws {
  import opened Collections
  import opened MigrationModel
  import opened MigrationSafety

  /** The migration the head names, under the epoch the caller names. */
  ghost predicate IsCurrent(s: Store, id: Id, epoch: nat) {
    id in s.migrations && s.migrations[id].epoch == epoch && s.head == Some(Head(id, epoch))
  }

  /** Rows in strictly increasing v1 order with no v2 key twice. */
  ghost predicate OrderedRows(rows: seq<Row>) {
    && (forall i, j :: 0 <= i < j < |rows| ==> rows[i].v1 < rows[j].v1)
    && forall i, j :: 0 <= i < |rows| && 0 <= j < |rows| && rows[i].v2 == rows[j].v2 ==> i == j
  }

  /** The rows without an acknowledgement of the digest they are bound to. */
  ghost function Missing(m: Migration): set<Row> {
    set r | r in m.rows && Ack(r.v1, r.digest) !in m.acks
  }

  // -------------------------------------------------------------- prepare

  lemma PrepareLaw(s: Store, id: Id, epoch: nat, rows: seq<Row>)
    requires Inv(s)
    ensures var (t, reply) := Prepare(s, id, epoch, rows);
            if epoch == 0 || !OrderedRows(rows) then t == s && reply == Invalid
            else if id in s.migrations then
              var m := s.migrations[id];
              t == s && reply == if s.head != Some(Head(id, m.epoch)) then StaleEpoch
                                 else if m.epoch == epoch && m.rows == rows then Existing else Conflict
            else if s.head.Some? && epoch <= s.head.value.epoch then t == s && reply == StaleEpoch
            else if exists x :: x in s.migrations && s.migrations[x].status == Prepared then t == s && reply == Conflict
            else
              && reply == PreparedNow && t.head == Some(Head(id, epoch))
              && t.migrations == s.migrations[id := Migration(id, epoch, rows, Prepared, [], [], 0, None)]
  {
    hide Valid, Backed;
    assert OrderedRows(rows) <==> ValidRows(rows);
    if id in s.migrations {
      OwnId(s, id);
    }
    if s.head.Some? {
      assert s.migrations[s.head.value.id].status == Prepared <==>
          exists x :: x in s.migrations && s.migrations[x].status == Prepared;
    }
  }

  // --------------------------------------------------------- acknowledge

  /** An acknowledgement is taken while the head is prepared, of a bound row, with its digest, once. */
  lemma AcknowledgeLaw(s: Store, id: Id, epoch: nat, v1: Key, digest: Digest)
    requires Inv(s)
    ensures var (t, reply) := Acknowledge(s, id, epoch, v1, digest);
            if epoch == 0 then t == s && reply == Invalid
            else if id !in s.migrations then t == s && reply == NotFound
            else if !IsCurrent(s, id, epoch) then t == s && reply == StaleEpoch
            else
              var m := s.migrations[id];
              if m.status != Prepared then t == s && reply == Closed
              else if forall r :: r in m.rows ==> r.v1 != v1 then t == s && reply == NotFound
              else if exists a :: a in m.acks && a.v1 == v1 then
                t == s && reply == if Ack(v1, digest) in m.acks then Duplicate else DigestMismatch
              else if forall r :: r in m.rows && r.v1 == v1 ==> r.digest != digest
              then t == s && reply == DigestMismatch
              else
                && reply == Applied && t.head == s.head && t.migrations.Keys == s.migrations.Keys
                && (forall x :: x in s.migrations && x != id ==> t.migrations[x] == s.migrations[x])
                && t.migrations[id] == m.(acks := t.migrations[id].acks)
                && SortedAcks(t.migrations[id].acks)
                && forall a :: a in t.migrations[id].acks <==> a in m.acks || a == Ack(v1, digest)
  {
    hide Valid, Backed, InsertAck, Headed, SelfValid;
    OpenedLaw(s, id, epoch);
    if IsCurrent(s, id, epoch) {
      hide Inv;
      var m := s.migrations[id];
      OwnIdHere(s, id);
      ValidAcksAreOne(s, id);
      if forall a :: a in m.acks ==> a.v1 != v1 {
        InsertKeepsOrder(m.acks, Ack(v1, digest));
      }
      RowsAreOne(s, id);
    }
  }

  lemma OwnIdHere(s: Store, id: Id)
    requires Inv(s) && id in s.migrations
    ensures s.migrations[id].id == id
  {
    hide Valid, Backed;
  }

  lemma OpenedLaw(s: Store, id: Id, epoch: nat)
    requires Inv(s)
    ensures Opened(s, id, epoch) ==
            if id !in s.migrations then Some(NotFound) else if !IsCurrent(s, id, epoch) then Some(StaleEpoch) else None
  {
    hide Valid, Backed;
  }

  lemma ValidAcksAreOne(s: Store, id: Id)
    requires Inv(s) && id in s.migrations
    ensures SortedAcks(s.migrations[id].acks)
    ensures forall a, b :: a in s.migrations[id].acks && b in s.migrations[id].acks && a.v1 == b.v1 ==> a == b
  {
    hide Headed, Backed;
    var acks := s.migrations[id].acks;
    forall a, b | a in acks && b in acks && a.v1 == b.v1 ensures a == b {
      var i :| 0 <= i < |acks| && acks[i] == a;
      var j :| 0 <= j < |acks| && acks[j] == b;
    }
  }

  lemma RowsAreOne(s: Store, id: Id)
    requires Inv(s) && id in s.migrations
    ensures var rows := s.migrations[id].rows;
            && (forall a, b :: a in rows && b in rows && a.v1 == b.v1 ==> a == b)
            && (forall a, b :: a in rows && b in rows && a.v2 == b.v2 ==> a == b)
  {
    hide Headed, Backed;
    var rows := s.migrations[id].rows;
    forall a, b | a in rows && b in rows && (a.v1 == b.v1 || a.v2 == b.v2) ensures a == b {
      var i :| 0 <= i < |rows| && rows[i] == a;
      var j :| 0 <= j < |rows| && rows[j] == b;
    }
  }

  // ----------------------------------------------------------------- scan

  /** A scan is appended unless its id is known or its time is not the latest; it restarts or extends
      the count of zero scans, and mismatches exactly when it saw a row the migration does not bind. */
  lemma ScanLaw(s: Store, id: Id, epoch: nat, scan: Scan)
    requires Inv(s)
    ensures var (t, reply) := ObserveScan(s, id, epoch, scan);
            if epoch == 0 || exists i, j :: 0 <= i < j < |scan.rows| && scan.rows[i].v1 >= scan.rows[j].v1
            then t == s && reply == Invalid
            else if id !in s.migrations then t == s && reply == NotFound
            else if !IsCurrent(s, id, epoch) then t == s && reply == StaleEpoch
            else
              var m := s.migrations[id];
              if scan in m.scans then t == s && reply == DuplicateScan(m.zeros)
              else if exists x :: x in m.scans && x.id == scan.id then t == s && reply == InvalidState
              else if exists x :: x in m.scans && x.at >= scan.at then t == s && reply == Invalid
              else
                var zeros := if scan.rows == [] then m.zeros + 1 else 0;
                && t == s.(migrations := s.migrations[id := m.(scans := m.scans + [scan], zeros := zeros)])
                && reply == if forall x :: x in scan.rows ==>
                  exists r :: r in m.rows && r.v1 == x.v1 && r.digest == x.digest
                            then Observed(zeros) else ScanMismatch
  {
    hide Valid, Backed, Headed, SelfValid, KnownSubset;
    OpenedLaw(s, id, epoch);
    if IsCurrent(s, id, epoch) {
      var m := s.migrations[id];
      OwnIdHere(s, id);
      ScansAreOne(s, id, scan);
      KnownSubsetByRows(scan.rows, m.rows);
    }
  }

  lemma ScansAreOne(s: Store, id: Id, scan: Scan)
    requires Inv(s) && id in s.migrations
    ensures var scans := s.migrations[id].scans;
            && (forall a, b :: a in scans && b in scans && a.id == b.id ==> a == b)
            && (scans != [] ==> (scan.at <= scans[|scans| - 1].at <==> exists x :: x in scans && x.at >= scan.at))
  {
    hide Headed, Backed;
    var scans := s.migrations[id].scans;
    forall a, b | a in scans && b in scans && a.id == b.id ensures a == b {
      var i :| 0 <= i < |scans| && scans[i] == a;
      var j :| 0 <= j < |scans| && scans[j] == b;
    }
    if scans != [] {
      assert scans[|scans| - 1] in scans;
      if x :| x in scans && x.at >= scan.at {
        var i :| 0 <= i < |scans| && scans[i] == x;
        assert x.at <= scans[|scans| - 1].at;
      }
    }
  }

  lemma KnownSubsetByRows(seen: seq<SourceRow>, rows: seq<Row>)
    ensures KnownSubset(seen, rows) <==>
            forall x :: x in seen ==> exists r :: r in rows && r.v1 == x.v1 && r.digest == x.digest
  {
    if KnownSubset(seen, rows) {
      forall x | x in seen ensures exists r :: r in rows && r.v1 == x.v1 && r.digest == x.digest {
        var i :| 0 <= i < |seen| && seen[i] == x;
        var k :| 0 <= k < |rows| && rows[k].v1 == x.v1 && rows[k].digest == x.digest;
        assert rows[k] in rows;
      }
    }
    if forall x :: x in seen ==> exists r :: r in rows && r.v1 == x.v1 && r.digest == x.digest {
      forall i | 0 <= i < |seen|
        ensures exists k :: 0 <= k < |rows| && rows[k].v1 == seen[i].v1 && rows[k].digest == seen[i].digest
      {
        assert seen[i] in seen;
        var r :| r in rows && r.v1 == seen[i].v1 && r.digest == seen[i].digest;
        var k :| 0 <= k < |rows| && rows[k] == r;
      }
    }
  }

  // --------------------------------------------------------------- commit

  /** The count of unacknowledged rows is the number of rows that miss their own acknowledgement. */
  lemma {:induction false} UnacknowledgedCounts(rows: seq<Row>, acks: seq<Ack>)
    requires forall i, j :: 0 <= i < j < |rows| ==> rows[i] != rows[j]
    requires forall r :: r in rows ==> (FindAck(acks, r.v1).Some? <==> Ack(r.v1, r.digest) in acks)
    ensures Unacknowledged(rows, acks) == |set r | r in rows && Ack(r.v1, r.digest) !in acks|
  {
    if rows == [] {
      assert (set r | r in rows && Ack(r.v1, r.digest) !in acks) == {};
    } else {
      var first, rest := rows[0], rows[1..];
      RestIsDistinct(rows);
      UnacknowledgedCounts(rest, acks);
      var missing := set r | r in rest && Ack(r.v1, r.digest) !in acks;
      assert first !in missing;
      assert (set r | r in rows && Ack(r.v1, r.digest) !in acks)
          == if Ack(first.v1, first.digest) in acks then missing else missing + {first};
    }
  }

  lemma RestIsDistinct(rows: seq<Row>)
    requires rows != [] && forall i, j :: 0 <= i < j < |rows| ==> rows[i] != rows[j]
    ensures rows[0] !in rows[1..] && forall r :: r in rows <==> r == rows[0] || r in rows[1..]
    ensures forall i, j :: 0 <= i < j < |rows[1..]| ==> rows[1..][i] != rows[1..][j]
  {
  }

  lemma MissingIsCounted(m: Migration)
    requires Valid(m)
    ensures Unacknowledged(m.rows, m.acks) == |Missing(m)|
  {
    forall i, j | 0 <= i < j < |m.rows| ensures m.rows[i] != m.rows[j] {
      assert m.rows[i].v1 < m.rows[j].v1;
    }
    forall r | r in m.rows ensures FindAck(m.acks, r.v1).Some? <==> Ack(r.v1, r.digest) in m.acks {
      if FindAck(m.acks, r.v1).Some? {
        AckOfRowIsItsOwn(m, r, FindAck(m.acks, r.v1).value);
      }
    }
    UnacknowledgedCounts(m.rows, m.acks);
  }

  lemma AckOfRowIsItsOwn(m: Migration, r: Row, a: Ack)
    requires Valid(m) && r in m.rows && a in m.acks && a.v1 == r.v1
    ensures a == Ack(r.v1, r.digest)
  {
    var i :| 0 <= i < |m.acks| && m.acks[i] == a;
    assert Binds(m.rows, m.acks[i]);
    var j :| 0 <= j < |m.rows| && m.rows[j].v1 == a.v1 && m.rows[j].digest == a.digest;
    var k :| 0 <= k < |m.rows| && m.rows[k] == r;
    assert j == k;
  }

  /** A prepared migration under its epoch is committed exactly when every row has an acknowledgement
      with the digest it is bound to; otherwise the answer is how many rows miss theirs. */
  lemma CommitLaw(s: Store, id: Id, epoch: nat)
    requires Inv(s)
    ensures var (t, reply) := Commit(s, id, epoch);
            if epoch == 0 then t == s && reply == Invalid
            else if id !in s.migrations then t == s && reply == NotFound
            else
              var m := s.migrations[id];
              if m.epoch != epoch then t == s && reply == StaleEpoch
              else if m.status == TombstoneAuthorized then t == s && reply == Closed
              else if m.status == Committed then t == s && reply == CommittedNow
              else if forall r :: r in m.rows ==> Ack(r.v1, r.digest) in m.acks then
                reply == CommittedNow && t == s.(migrations := s.migrations[id := m.(status := Committed)])
              else t == s && reply == Pending(|set r | r in m.rows && Ack(r.v1, r.digest) !in m.acks|)
  {
    hide Valid, Backed, Unacknowledged;
    if id in s.migrations {
      var m := s.migrations[id];
      OwnIdHere(s, id);
      MissingIsCounted(m);
      if forall r :: r in m.rows ==> Ack(r.v1, r.digest) in m.acks {
        assert Missing(m) == {};
      } else {
        var r :| r in m.rows && Ack(r.v1, r.digest) !in m.acks;
        assert r in Missing(m);
      }
    }
  }

  /** And so in every run, from the empty ledger on. */
  lemma ReachableCommitLaw(commands: seq<Command>, id: Id)
    requires var s := Run(EMPTY, commands);
             id in s.migrations && s.migrations[id].status == Prepared
    ensures var s := Run(EMPTY, commands); var m := s.migrations[id];
            Commit(s, id, m.epoch) ==
            if forall r :: r in m.rows ==> Ack(r.v1, r.digest) in m.acks
            then (s.(migrations := s.migrations[id := m.(status := Committed)]), CommittedNow)
            else (s, Pending(|set r | r in m.rows && Ack(r.v1, r.digest) !in m.acks|))
  {
    hide Run, Commit, Backed;
    ReachableIsConsistent(commands);
    assert Valid(Run(EMPTY, commands).migrations[id]);
    CommitLaw(Run(EMPTY, commands), id, Run(EMPTY, commands).migrations[id].epoch);
  }

  // ------------------------------------------------------------ tombstone

  /** The last n scans were zero scans observed at or after `since`. */
  ghost predicate EndsInZeros(scans: seq<Scan>, n: nat, since: Time) {
    n <= |scans| && forall i :: |scans| - n <= i < |scans| ==> scans[i].rows == [] && scans[i].at >= since
  }

  lemma {:induction false} TrailingZerosExactly(scans: seq<Scan>, n: nat, since: Time)
    ensures TrailingZerosSince(scans, since) >= n <==> EndsInZeros(scans, n, since)
  {
    if n > 0 && scans != [] {
      var front, last := scans[..|scans| - 1], scans[|scans| - 1];
      TrailingZerosExactly(front, n - 1, since);
      if EndsInZeros(scans, n, since) {
        assert EndsInZeros(front, n - 1, since);
      }
      if last.rows == [] && last.at >= since && EndsInZeros(front, n - 1, since) {
        assert EndsInZeros(scans, n, since);
      }
    }
  }

  /** A first authorization needs a committed head, a window that agrees with the recorded one and has
      come, and the required number of zero scans since; a refusal for time or scans records the window. */
  lemma TombstoneLaw(s: Store, id: Id, epoch: nat, window: Time, required: nat, now: Time)
    requires Inv(s)
    ensures var (t, reply) := Tombstone(s, id, epoch, window, required, now);
            if epoch == 0 || required == 0 then t == s && reply == Invalid
            else if id !in s.migrations then t == s && reply == NotFound
            else if !IsCurrent(s, id, epoch) then t == s && reply == StaleEpoch
            else
              var m := s.migrations[id];
              var windowed := m.(window := Some(window));
              if m.status == Prepared then t == s && reply == NotCommitted
              else if m.window != None && m.window != Some(window) then t == s && reply == WindowMismatch
              else if m.status == TombstoneAuthorized then t == s && reply == Authorized
              else if now < window then t == s.(migrations := s.migrations[id := windowed]) && reply == SafetyWindow
              else if !EndsInZeros(m.scans, required, window)
              then t == s.(migrations := s.migrations[id := windowed]) && reply == ZeroScanGate
              else
                && t == s.(migrations := s.migrations[id := windowed.(status := TombstoneAuthorized)])
                && reply == Authorized
  {
    hide Valid, Backed, Headed, SelfValid, TrailingZerosSince, EndsInZeros;
    OpenedLaw(s, id, epoch);
    if id in s.migrations {
      OwnIdHere(s, id);
      TrailingZerosExactly(s.migrations[id].scans, required, window);
    }
  }

  // ----------------------------------------------------------------- read

  /** A read is decided by the head's own row for the key it names. */
  lemma ReadLaw(s: Store, id: Id, epoch: nat, source: Source, key: Key, observed: Option<Digest>, row: Row)
    requires Inv(s) && epoch >= 1 && id in s.migrations && s.head == Some(Head(id, s.migrations[id].epoch))
    requires row in s.migrations[id].rows && key == if source == FromV1 then row.v1 else row.v2
    ensures var m := s.migrations[id];
            ReadDecision(s, id, epoch, source, key, observed) ==
            if observed != None && observed != Some(row.digest) then StaleReadRejected
            else if source == FromV1
              then (if m.status == TombstoneAuthorized then TombstoneRequired else V1Allowed(row.v2))
            else if m.status == Prepared then ReadPending else V2Allowed(row.v2)
  {
    hide Backed, Valid;
    OwnIdHere(s, id);
    RowsAreOne(s, id);
  }

  lemma UnboundReadLaw(s: Store, id: Id, epoch: nat, source: Source, key: Key, observed: Option<Digest>)
    requires Inv(s)
    requires id in s.migrations ==> forall r :: r in s.migrations[id].rows ==>
             key != if source == FromV1 then r.v1 else r.v2
    ensures ReadDecision(s, id, epoch, source, key, observed) ==
            if epoch == 0 then Invalid else if id !in s.migrations then NotFound
            else if s.head != Some(Head(id, s.migrations[id].epoch)) then OldEpochRejected else NotBound
  {
    hide Backed;
    if id in s.migrations {
      OwnIdHere(s, id);
    }
  }
}
