/** What every run of the migration ledger keeps: increasing epochs, one prepared migration at
    most, frozen predecessors, self-valid records, readable rows and backed tombstones. */
module MigrationSafety {
  import opened Collections
  import opened MigrationModel

  /** The head names the newest migration; every other one is past its prepare phase. */
  ghost predicate Headed(s: Store) {
    && (s.head.None? ==> s.migrations == map[])
    && (s.head.Some? ==> s.head.value.id in s.migrations && s.migrations[s.head.value.id].epoch == s.head.value.epoch)
    && (forall id :: id in s.migrations ==> s.migrations[id].id == id)
    && (forall id :: id in s.migrations && s.head.Some? && id != s.head.value.id ==>
          s.migrations[id].epoch < s.head.value.epoch && !s.migrations[id].status.Prepared?)
  }

  ghost predicate SelfValid(s: Store) {
    forall id :: id in s.migrations ==> Valid(s.migrations[id])
  }

  ghost predicate Inv(s: Store) {
    && Headed(s) && SelfValid(s)
    && (forall id :: id in s.migrations && s.migrations[id].status.TombstoneAuthorized? ==> Backed(s.migrations[id], 1))
  }

  /** A contiguous block of at least n zero scans, all at or after the recorded safety window. */
  ghost predicate Backed(m: Migration, n: nat) {
    && m.window.Some?
    && exists lo, hi :: 0 <= lo <= hi <= |m.scans| && hi - lo >= n && ZeroBlock(m.scans, lo, hi, m.window.value)
  }

  ghost predicate ZeroBlock(scans: seq<Scan>, lo: nat, hi: nat, since: Time) {
    hi <= |scans| && forall i :: lo <= i < hi ==> scans[i].rows == [] && scans[i].at >= since
  }

  function Rank(status: Status): nat {
    match status
    case Prepared => 0
    case Committed => 1
    case TombstoneAuthorized => 2
  }

  /** How one record may grow: identity fixed, logs append-only, window write-once, status upward. */
  ghost predicate Grows(a: Migration, b: Migration) {
    && b.id == a.id && b.epoch == a.epoch && b.rows == a.rows
    && a.scans <= b.scans
    && (forall ack :: ack in a.acks ==> ack in b.acks)
    && (a.window.Some? ==> b.window == a.window)
    && Rank(a.status) <= Rank(b.status)
  }

  // --------------------------------------------- acknowledgements as sets

  ghost function Keys(keys: seq<Key>): set<Key> {
    set k | k in keys
  }

  ghost function RowKeys(rows: seq<Row>): (keys: seq<Key>)
    ensures |keys| == |rows| && forall i :: 0 <= i < |rows| ==> keys[i] == rows[i].v1
  {
    seq(|rows|, i requires 0 <= i < |rows| => rows[i].v1)
  }

  ghost function AckKeys(acks: seq<Ack>): (keys: seq<Key>)
    ensures |keys| == |acks| && forall i :: 0 <= i < |acks| ==> keys[i] == acks[i].v1
  {
    seq(|acks|, i requires 0 <= i < |acks| => acks[i].v1)
  }

  lemma {:induction false} IncreasingHasNoRepeats(keys: seq<Key>)
    requires forall i, j :: 0 <= i < j < |keys| ==> keys[i] < keys[j]
    ensures |Keys(keys)| == |keys|
  {
    if keys != [] {
      var front, last := keys[..|keys| - 1], keys[|keys| - 1];
      IncreasingHasNoRepeats(front);
      assert last !in Keys(front);
      assert Keys(keys) == Keys(front) + {last};
    }
  }

  lemma {:induction false} SubsetCardinality(a: set<Key>, b: set<Key>)
    requires a <= b
    ensures |a| <= |b|
    ensures |a| == |b| ==> a == b
  {
    if a != {} {
      var x :| x in a;
      SubsetCardinality(a - {x}, b - {x});
      assert a == (a - {x}) + {x} && b == (b - {x}) + {x};
    }
  }

  /** Valid acknowledgements are as many as the rows exactly when every row has one. */
  lemma AckedIffComplete(rows: seq<Row>, acks: seq<Ack>)
    requires ValidRows(rows) && ValidAcks(rows, acks)
    ensures |acks| == |rows| <==> forall r :: r in rows ==> r.v1 in Keys(AckKeys(acks))
  {
    var a, b := Keys(AckKeys(acks)), Keys(RowKeys(rows));
    IncreasingHasNoRepeats(AckKeys(acks));
    IncreasingHasNoRepeats(RowKeys(rows));
    forall k | k in a ensures k in b {
      var i :| 0 <= i < |acks| && AckKeys(acks)[i] == k;
      assert Binds(rows, acks[i]);
      var j :| 0 <= j < |rows| && rows[j].v1 == acks[i].v1 && rows[j].digest == acks[i].digest;
      assert RowKeys(rows)[j] == k;
    }
    SubsetCardinality(a, b);
    if |acks| == |rows| {
      forall r | r in rows ensures r.v1 in a {
        var j :| 0 <= j < |rows| && rows[j] == r;
        assert RowKeys(rows)[j] == r.v1;
      }
    }
    if forall r :: r in rows ==> r.v1 in a {
      forall k | k in b ensures k in a {
        var j :| 0 <= j < |rows| && RowKeys(rows)[j] == k;
        assert rows[j] in rows;
      }
      assert a == b;
    }
  }

  /** Every row carries an acknowledgement with the digest it is bound to. */
  ghost predicate FullyAcknowledged(m: Migration) {
    forall r :: r in m.rows ==> Ack(r.v1, r.digest) in m.acks
  }

  lemma PastPreparedIsAcknowledged(m: Migration)
    requires Valid(m) && !m.status.Prepared?
    ensures FullyAcknowledged(m)
  {
    AckedIffComplete(m.rows, m.acks);
    forall r | r in m.rows ensures Ack(r.v1, r.digest) in m.acks {
      assert r.v1 in Keys(AckKeys(m.acks));
      var i :| 0 <= i < |m.acks| && AckKeys(m.acks)[i] == r.v1;
      assert Binds(m.rows, m.acks[i]);
      var j :| 0 <= j < |m.rows| && m.rows[j].v1 == m.acks[i].v1 && m.rows[j].digest == m.acks[i].digest;
      var k :| 0 <= k < |m.rows| && m.rows[k] == r;
      assert j == k;
      assert m.acks[i] == Ack(r.v1, r.digest);
    }
  }

  lemma {:induction false} InsertKeepsOrder(acks: seq<Ack>, ack: Ack)
    requires SortedAcks(acks) && forall a :: a in acks ==> a.v1 != ack.v1
    ensures SortedAcks(InsertAck(acks, ack))
    ensures forall a :: a in InsertAck(acks, ack) <==> a in acks || a == ack
  {
    if acks != [] && acks[0].v1 < ack.v1 {
      assert acks == [acks[0]] + acks[1..];
      InsertKeepsOrder(acks[1..], ack);
      var rest := InsertAck(acks[1..], ack);
      forall i | 0 <= i < |rest| ensures acks[0].v1 < rest[i].v1 {
        assert rest[i] in acks[1..] || rest[i] == ack;
      }
    }
  }

  // ----------------------------------------------------- record by record

  lemma AcknowledgedIsValid(m: Migration, v1: Key, digest: Digest)
    requires Valid(m) && m.status.Prepared?
    requires FindAck(m.acks, v1).None? && FindV1(m.rows, v1).Some? && FindV1(m.rows, v1).value.digest == digest
    ensures var n := m.(acks := InsertAck(m.acks, Ack(v1, digest))); Valid(n) && Grows(m, n)
  {
    var ack := Ack(v1, digest);
    InsertKeepsOrder(m.acks, ack);
    var row := FindV1(m.rows, v1).value;
    var k :| 0 <= k < |m.rows| && m.rows[k] == row;
    assert Binds(m.rows, ack);
    var all := InsertAck(m.acks, ack);
    forall i | 0 <= i < |all| ensures Binds(m.rows, all[i]) {
      assert all[i] in all;
    }
  }

  lemma ScannedIsValid(m: Migration, scan: Scan)
    requires Valid(m) && ValidSourceRows(scan.rows) && FindScan(m.scans, scan.id).None?
    requires m.scans == [] || m.scans[|m.scans| - 1].at < scan.at
    ensures Valid(WithScan(m, scan)) && Grows(m, WithScan(m, scan))
  {
    var n := WithScan(m, scan);
    assert n.scans[..|n.scans| - 1] == m.scans;
    forall i | 0 <= i < |m.scans| ensures m.scans[i].id != scan.id && m.scans[i].at < scan.at {
      assert m.scans[i] in m.scans;
    }
  }

  lemma CommittedIsValid(m: Migration)
    requires Valid(m) && m.status.Prepared? && Unacknowledged(m.rows, m.acks) == 0
    ensures Valid(m.(status := Committed)) && Grows(m, m.(status := Committed))
  {
    forall r | r in m.rows ensures r.v1 in Keys(AckKeys(m.acks)) {
      var ack := FindAck(m.acks, r.v1).value;
      var i :| 0 <= i < |m.acks| && m.acks[i] == ack;
      assert AckKeys(m.acks)[i] == r.v1;
    }
    AckedIffComplete(m.rows, m.acks);
  }

  lemma {:induction false} TrailingIsZeroBlock(scans: seq<Scan>, since: Time)
    ensures ZeroBlock(scans, |scans| - TrailingZerosSince(scans, since), |scans|, since)
  {
    if scans != [] && scans[|scans| - 1].rows == [] && scans[|scans| - 1].at >= since {
      TrailingIsZeroBlock(scans[..|scans| - 1], since);
    }
  }

  lemma TombstonedIsBacked(m: Migration, window: Time, required: nat)
    requires TrailingZerosSince(m.scans, window) >= required
    ensures Backed(m.(window := Some(window), status := TombstoneAuthorized), required)
  {
    TrailingIsZeroBlock(m.scans, window);
    var n := m.(window := Some(window), status := TombstoneAuthorized);
    assert ZeroBlock(n.scans, |n.scans| - TrailingZerosSince(m.scans, window), |n.scans|, window);
  }

  lemma BackedGrows(a: Migration, b: Migration, n: nat)
    requires Backed(a, n) && Grows(a, b)
    ensures Backed(b, n)
  {
    var lo, hi :| 0 <= lo <= hi <= |a.scans| && hi - lo >= n && ZeroBlock(a.scans, lo, hi, a.window.value);
    assert ZeroBlock(b.scans, lo, hi, b.window.value);
  }

  // ------------------------------------------------------------- the steps

  /** Rewriting the head record by a valid growth of it keeps the invariant. */
  lemma PutKeepsInv(s: Store, m: Migration)
    requires Inv(s) && m.id in s.migrations && IsHead(s, s.migrations[m.id])
    requires Valid(m) && Grows(s.migrations[m.id], m)
    requires m.status.TombstoneAuthorized? ==> Backed(m, 1)
    ensures Inv(Put(s, m))
  {
  }

  lemma OwnId(s: Store, id: Id)
    requires Headed(s) && id in s.migrations
    ensures s.migrations[id].id == id
  {
  }

  lemma PrepareKeepsHead(s: Store, id: Id, epoch: nat, rows: seq<Row>)
    requires Headed(s)
    ensures Headed(Prepare(s, id, epoch, rows).0)
  {
    var t := Prepare(s, id, epoch, rows).0;
    if t != s {
      assert id !in s.migrations;
      assert forall x :: x in s.migrations ==> t.migrations[x] == s.migrations[x];
    }
  }

  lemma FreshIsValid(id: Id, epoch: nat, rows: seq<Row>)
    requires epoch >= 1 && ValidRows(rows)
    ensures Valid(Migration(id, epoch, rows, Prepared, [], [], 0, None))
  {
  }

  lemma PrepareKeepsInv(s: Store, id: Id, epoch: nat, rows: seq<Row>)
    requires Inv(s)
    ensures Inv(Prepare(s, id, epoch, rows).0)
  {
    hide Headed, Valid, ValidRows, Grows;
    PrepareKeepsHead(s, id, epoch, rows);
    var (t, reply) := Prepare(s, id, epoch, rows);
    if reply.PreparedNow? {
      FreshIsValid(id, epoch, rows);
      assert t.migrations == s.migrations[id := Migration(id, epoch, rows, Prepared, [], [], 0, None)];
    } else {
      assert t == s;
    }
  }

  lemma AcknowledgeKeepsInv(s: Store, id: Id, epoch: nat, v1: Key, digest: Digest)
    requires Inv(s)
    ensures Inv(Acknowledge(s, id, epoch, v1, digest).0)
  {
    hide Headed, Valid, Grows, ZeroBlock;
    if Acknowledge(s, id, epoch, v1, digest).1.Applied? {
      OwnId(s, id);
      AcknowledgedIsValid(s.migrations[id], v1, digest);
      PutKeepsInv(s, s.migrations[id].(acks := InsertAck(s.migrations[id].acks, Ack(v1, digest))));
    }
  }

  lemma ScanKeepsInv(s: Store, id: Id, epoch: nat, scan: Scan)
    requires Inv(s)
    ensures Inv(ObserveScan(s, id, epoch, scan).0)
  {
    hide Headed, Valid, Grows, ZeroBlock, ValidSourceRows, KnownSubset;
    var reply := ObserveScan(s, id, epoch, scan).1;
    if reply.Observed? || reply.ScanMismatch? {
      var m := s.migrations[id];
      OwnId(s, id);
      ScannedIsValid(m, scan);
      if m.status.TombstoneAuthorized? {
        BackedGrows(m, WithScan(m, scan), 1);
      }
      PutKeepsInv(s, WithScan(m, scan));
    }
  }

  lemma CommitKeepsInv(s: Store, id: Id, epoch: nat)
    requires Inv(s)
    ensures Inv(Commit(s, id, epoch).0)
  {
    if Commit(s, id, epoch).1.CommittedNow? && s.migrations[id].status.Prepared? {
      CommittedIsValid(s.migrations[id]);
      PutKeepsInv(s, s.migrations[id].(status := Committed));
    }
  }

  lemma TombstoneKeepsInv(s: Store, id: Id, epoch: nat, window: Time, required: nat, now: Time)
    requires Inv(s)
    ensures Inv(Tombstone(s, id, epoch, window, required, now).0)
  {
    if Tombstone(s, id, epoch, window, required, now).0 != s {
      var m := s.migrations[id];
      PutKeepsInv(s, m.(window := Some(window)));
      if TrailingZerosSince(m.scans, window) >= required {
        TombstonedIsBacked(m, window, required);
        TombstonedIsBacked(m, window, 1);
        PutKeepsInv(s, m.(window := Some(window), status := TombstoneAuthorized));
      }
    }
  }

  lemma ExecKeepsInv(s: Store, c: Command)
    requires Inv(s)
    ensures Inv(Exec(s, c).0)
  {
    match c
    case DoPrepare(id, epoch, rows) => PrepareKeepsInv(s, id, epoch, rows);
    case DoAcknowledge(id, epoch, v1, digest) => AcknowledgeKeepsInv(s, id, epoch, v1, digest);
    case DoScan(id, epoch, scan) => ScanKeepsInv(s, id, epoch, scan);
    case DoCommit(id, epoch) => CommitKeepsInv(s, id, epoch);
    case DoTombstone(id, epoch, window, required, now) => TombstoneKeepsInv(s, id, epoch, window, required, now);
  }

  lemma {:induction false} RunKeepsInv(s: Store, commands: seq<Command>)
    requires Inv(s)
    ensures Inv(Run(s, commands))
  {
    hide Inv, Exec;
    if commands != [] {
      RunKeepsInv(s, commands[..|commands| - 1]);
      ExecKeepsInv(Run(s, commands[..|commands| - 1]), commands[|commands| - 1]);
    }
  }

  // --------------------------------------------------------- whole-run facts

  /** Epochs only rise, at most one migration is prepared and it is the head, and every
      superseded one has each of its rows acknowledged with the bound digest. */
  lemma ReachableLedgerIsConsistent(commands: seq<Command>)
    ensures var s := Run(EMPTY, commands);
            && (forall id :: id in s.migrations ==> Valid(s.migrations[id]))
            && (forall id :: id in s.migrations && s.migrations[id].status.Prepared? ==> IsHead(s, s.migrations[id]))
            && (forall id :: id in s.migrations && !IsHead(s, s.migrations[id]) ==>
                  FullyAcknowledged(s.migrations[id]) && s.head.Some? && s.migrations[id].epoch < s.head.value.epoch)
  {
    RunKeepsInv(EMPTY, commands);
    var s := Run(EMPTY, commands);
    forall id | id in s.migrations && !IsHead(s, s.migrations[id])
      ensures FullyAcknowledged(s.migrations[id]) && s.head.Some? && s.migrations[id].epoch < s.head.value.epoch
    {
      PastPreparedIsAcknowledged(s.migrations[id]);
    }
  }

  /** One step never lowers the head epoch, moves the head only upward, grows the head record
      and leaves every superseded record exactly as it was. */
  ghost predicate FencedStep(s: Store, t: Store) {
    && (s.head.Some? ==> t.head.Some? && s.head.value.epoch <= t.head.value.epoch)
    && (s.head.Some? && t.head != s.head ==>
      s.head.value.epoch < t.head.value.epoch && t.head.value.id !in s.migrations)
    && (forall id :: id in s.migrations ==> id in t.migrations && Grows(s.migrations[id], t.migrations[id]))
    && (forall id :: id in s.migrations && id in t.migrations && !IsHead(s, s.migrations[id]) ==>
      t.migrations[id] == s.migrations[id])
  }

  lemma PutIsFenced(s: Store, m: Migration)
    requires Headed(s) && m.id in s.migrations && IsHead(s, s.migrations[m.id]) && Grows(s.migrations[m.id], m)
    ensures FencedStep(s, Put(s, m))
  {
  }

  lemma PrepareIsFenced(s: Store, id: Id, epoch: nat, rows: seq<Row>)
    requires Headed(s)
    ensures FencedStep(s, Prepare(s, id, epoch, rows).0)
  {
    var t := Prepare(s, id, epoch, rows).0;
    if t != s {
      assert id !in s.migrations;
      assert forall x :: x in s.migrations ==> t.migrations[x] == s.migrations[x];
    }
  }

  lemma StayIsFenced(s: Store)
    ensures FencedStep(s, s)
  {
  }

  lemma AcknowledgeIsFenced(s: Store, id: Id, epoch: nat, v1: Key, digest: Digest)
    requires Headed(s)
    ensures FencedStep(s, Acknowledge(s, id, epoch, v1, digest).0)
  {
    hide Valid, Grows, FencedStep, Headed;
    if Acknowledge(s, id, epoch, v1, digest).1.Applied? {
      OwnId(s, id);
      AcknowledgedIsValid(s.migrations[id], v1, digest);
      PutIsFenced(s, s.migrations[id].(acks := InsertAck(s.migrations[id].acks, Ack(v1, digest))));
    } else {
      StayIsFenced(s);
    }
  }

  lemma ScanIsFenced(s: Store, id: Id, epoch: nat, scan: Scan)
    requires Headed(s)
    ensures FencedStep(s, ObserveScan(s, id, epoch, scan).0)
  {
    var reply := ObserveScan(s, id, epoch, scan).1;
    if reply.Observed? || reply.ScanMismatch? {
      ScannedIsValid(s.migrations[id], scan);
      PutIsFenced(s, WithScan(s.migrations[id], scan));
    }
  }

  lemma CommitIsFenced(s: Store, id: Id, epoch: nat)
    requires Headed(s)
    ensures FencedStep(s, Commit(s, id, epoch).0)
  {
    if Commit(s, id, epoch).1.CommittedNow? && s.migrations[id].status.Prepared? {
      PutIsFenced(s, s.migrations[id].(status := Committed));
    }
  }

  lemma TombstoneIsFenced(s: Store, id: Id, epoch: nat, window: Time, required: nat, now: Time)
    requires Headed(s)
    ensures FencedStep(s, Tombstone(s, id, epoch, window, required, now).0)
  {
    if Tombstone(s, id, epoch, window, required, now).0 != s {
      var m := s.migrations[id];
      PutIsFenced(s, m.(window := Some(window)));
      PutIsFenced(s, m.(window := Some(window), status := TombstoneAuthorized));
    }
  }

  lemma ExecIsFenced(s: Store, c: Command)
    requires Headed(s)
    ensures FencedStep(s, Exec(s, c).0)
  {
    match c
    case DoPrepare(id, epoch, rows) => PrepareIsFenced(s, id, epoch, rows);
    case DoAcknowledge(id, epoch, v1, digest) => AcknowledgeIsFenced(s, id, epoch, v1, digest);
    case DoScan(id, epoch, scan) => ScanIsFenced(s, id, epoch, scan);
    case DoCommit(id, epoch) => CommitIsFenced(s, id, epoch);
    case DoTombstone(id, epoch, window, required, now) => TombstoneIsFenced(s, id, epoch, window, required, now);
  }

  lemma {:induction false} RunGrows(s: Store, commands: seq<Command>, id: Id)
    requires Inv(s) && id in s.migrations
    ensures var t := Run(s, commands);
            && s.head.Some? && t.head.Some? && s.head.value.epoch <= t.head.value.epoch
            && id in t.migrations && Grows(s.migrations[id], t.migrations[id])
            && (!IsHead(s, s.migrations[id]) ==> t.migrations[id] == s.migrations[id] && !IsHead(t, t.migrations[id]))
  {
    if commands != [] {
      var front := commands[..|commands| - 1];
      RunGrows(s, front, id);
      RunKeepsInv(s, front);
      ExecIsFenced(Run(s, front), commands[|commands| - 1]);
    }
  }

  /** A superseded migration is frozen and fenced off for the rest of any run. */
  lemma SupersededIsFrozen(before: seq<Command>, after: seq<Command>, id: Id)
    requires id in Run(EMPTY, before).migrations && !IsHead(Run(EMPTY, before), Run(EMPTY, before).migrations[id])
    ensures var t := Run(Run(EMPTY, before), after);
            && id in t.migrations && t.migrations[id] == Run(EMPTY, before).migrations[id]
            && forall epoch: nat, source, key, observed :: epoch >= 1 ==>
                 ReadDecision(t, id, epoch, source, key, observed).OldEpochRejected?
  {
    RunKeepsInv(EMPTY, before);
    RunGrows(Run(EMPTY, before), after, id);
    RunKeepsInv(Run(EMPTY, before), after);
  }

  /** A scan of the head migration whose identifier is already recorded with other contents. */
  predicate ReusesScan(s: Store, c: Command) {
    && c.DoScan? && c.epoch >= 1 && ValidSourceRows(c.scan.rows)
    && c.id in s.migrations && s.migrations[c.id].epoch == c.epoch && IsHead(s, s.migrations[c.id])
    && FindScan(s.migrations[c.id].scans, c.scan.id).Some?
    && FindScan(s.migrations[c.id].scans, c.scan.id).value != c.scan
  }

  lemma OpenedNeverInvalid(s: Store, id: Id, epoch: nat)
    requires Headed(s) && SelfValid(s)
    ensures Opened(s, id, epoch) != Some(InvalidState)
    ensures Opened(s, id, epoch).None? <==>
            id in s.migrations && s.migrations[id].epoch == epoch && IsHead(s, s.migrations[id])
  {
  }

  lemma ScanInvalidState(s: Store, c: Command)
    requires Headed(s) && SelfValid(s) && c.DoScan?
    ensures Exec(s, c).1.InvalidState? <==> ReusesScan(s, c)
  {
    OpenedNeverInvalid(s, c.id, c.epoch);
  }

  lemma PrepareNeverInvalid(s: Store, id: Id, epoch: nat, rows: seq<Row>)
    requires Headed(s) && SelfValid(s)
    ensures !Prepare(s, id, epoch, rows).1.InvalidState?
  {
  }

  lemma CommitNeverInvalid(s: Store, id: Id, epoch: nat)
    requires Headed(s) && SelfValid(s)
    ensures !Commit(s, id, epoch).1.InvalidState?
  {
  }

  lemma AcknowledgeNeverInvalid(s: Store, id: Id, epoch: nat, v1: Key, digest: Digest)
    requires Headed(s) && SelfValid(s)
    ensures !Acknowledge(s, id, epoch, v1, digest).1.InvalidState?
  {
    hide Headed, SelfValid, Opened, InsertAck;
    OpenedNeverInvalid(s, id, epoch);
    OpenedIsKnown(s, id, epoch);
  }

  lemma TombstoneNeverInvalid(s: Store, id: Id, epoch: nat, window: Time, required: nat, now: Time)
    requires Headed(s) && SelfValid(s)
    ensures !Tombstone(s, id, epoch, window, required, now).1.InvalidState?
  {
    hide Headed, SelfValid, Opened, TrailingZerosSince;
    OpenedNeverInvalid(s, id, epoch);
    OpenedIsKnown(s, id, epoch);
  }

  lemma OpenedIsKnown(s: Store, id: Id, epoch: nat)
    ensures Opened(s, id, epoch).None? ==> id in s.migrations
  {
    hide Valid;
  }

  lemma OthersNeverInvalid(s: Store, c: Command)
    requires Headed(s) && SelfValid(s) && !c.DoScan?
    ensures !Exec(s, c).1.InvalidState?
  {
    hide Headed, SelfValid, Prepare, Commit, Acknowledge, Tombstone;
    match c
    case DoPrepare(id, epoch, rows) => PrepareNeverInvalid(s, id, epoch, rows);
    case DoCommit(id, epoch) => CommitNeverInvalid(s, id, epoch);
    case DoAcknowledge(id, epoch, v1, digest) => AcknowledgeNeverInvalid(s, id, epoch, v1, digest);
    case DoTombstone(id, epoch, window, required, now) => TombstoneNeverInvalid(s, id, epoch, window, required, now);
  }

  /** The ledger never rejects its own data: `invalid_state` is answered exactly when a scan
      identifier comes back with other contents. */
  lemma InvalidStateOnlyForReusedScan(commands: seq<Command>, c: Command)
    ensures Exec(Run(EMPTY, commands), c).1.InvalidState? <==> ReusesScan(Run(EMPTY, commands), c)
  {
    RunKeepsInv(EMPTY, commands);
    if c.DoScan? {
      ScanInvalidState(Run(EMPTY, commands), c);
    } else {
      OthersNeverInvalid(Run(EMPTY, commands), c);
    }
  }

  /** A read decision of a reachable store never reports invalid state. */
  lemma ReadsAreNeverInvalid(commands: seq<Command>, id: Id, epoch: nat, source: Source, key: Key,
      observed: Option<Digest>)
    ensures !ReadDecision(Run(EMPTY, commands), id, epoch, source, key, observed).InvalidState?
  {
    hide Run, Valid, FindV1, FindV2;
    ReachableIsConsistent(commands);
  }

  /** Every bound row of the head migration is readable from v1 or from v2 in every state. */
  lemma HeadRowsAreReadable(commands: seq<Command>, row: Row, epoch: nat)
    requires epoch >= 1
    requires var s := Run(EMPTY, commands);
             s.head.Some? && s.head.value.id in s.migrations && row in s.migrations[s.head.value.id].rows
    ensures var s := Run(EMPTY, commands); var id := s.head.value.id;
            || ReadDecision(s, id, epoch, FromV1, row.v1, Some(row.digest)) == V1Allowed(row.v2)
            || ReadDecision(s, id, epoch, FromV2, row.v2, Some(row.digest)) == V2Allowed(row.v2)
  {
    hide Run, Headed, SelfValid, Backed, ReadDecision;
    ReachableIsConsistent(commands);
    HeadRowIsReadable(Run(EMPTY, commands), row, epoch);
  }

  lemma HeadRowIsReadable(s: Store, row: Row, epoch: nat)
    requires Headed(s) && SelfValid(s) && epoch >= 1
    requires s.head.Some? && s.head.value.id in s.migrations && row in s.migrations[s.head.value.id].rows
    ensures var id := s.head.value.id;
            || ReadDecision(s, id, epoch, FromV1, row.v1, Some(row.digest)) == V1Allowed(row.v2)
            || ReadDecision(s, id, epoch, FromV2, row.v2, Some(row.digest)) == V2Allowed(row.v2)
  {
    hide FindV1, FindV2, ValidRows, ValidAcks, ValidScans, TrailingZeros;
    var m := s.migrations[s.head.value.id];
    var k :| 0 <= k < |m.rows| && m.rows[k] == row;
    FindIsTheRow(m.rows, k);
  }

  lemma FindIsTheRow(rows: seq<Row>, k: nat)
    requires ValidRows(rows) && k < |rows|
    ensures FindV1(rows, rows[k].v1) == Some(rows[k]) && FindV2(rows, rows[k].v2) == Some(rows[k])
  {
    var a, b := FindV1(rows, rows[k].v1), FindV2(rows, rows[k].v2);
    assert rows[k] in rows;
    var i :| 0 <= i < |rows| && rows[i] == a.value;
    var j :| 0 <= j < |rows| && rows[j] == b.value;
    assert i == k && j == k;
  }

  /** A read from v2 is allowed only once every bound row is acknowledged with its digest. */
  lemma V2ReadIsBacked(commands: seq<Command>, id: Id, epoch: nat, key: Key, observed: Option<Digest>)
    requires ReadDecision(Run(EMPTY, commands), id, epoch, FromV2, key, observed).V2Allowed?
    ensures var s := Run(EMPTY, commands);
            && id in s.migrations && IsHead(s, s.migrations[id])
            && FullyAcknowledged(s.migrations[id])
  {
    RunKeepsInv(EMPTY, commands);
    PastPreparedIsAcknowledged(Run(EMPTY, commands).migrations[id]);
  }

  lemma ReachableIsConsistent(commands: seq<Command>)
    ensures Inv(Run(EMPTY, commands))
  {
    RunKeepsInv(EMPTY, commands);
  }

  /** The call that first authorizes has seen its window pass and the required zero scans. */
  lemma AuthorizationIsBacked(s: Store, id: Id, epoch: nat, window: Time, required: nat, now: Time)
    requires Headed(s) && Tombstone(s, id, epoch, window, required, now).1.Authorized?
    requires id in s.migrations && !s.migrations[id].status.TombstoneAuthorized?
    ensures var u := Tombstone(s, id, epoch, window, required, now).0;
            && id in u.migrations && u.migrations[id].status.TombstoneAuthorized?
            && u.migrations[id].window == Some(window) && window <= now && Backed(u.migrations[id], required)
  {
    hide Valid, Backed;
    TombstonedIsBacked(s.migrations[id], window, required);
  }

  lemma TombstoneStays(a: Migration, b: Migration)
    requires Grows(a, b) && a.status.TombstoneAuthorized? && a.window.Some?
    ensures b.status.TombstoneAuthorized? && b.window == a.window
  {
  }

  /** A call that moves a migration to the tombstone found its required zero scans inside the
      safety window, and neither the status nor the backing is ever lost again. */
  lemma TombstoneIsPermanentAndBacked(before: seq<Command>, id: Id, epoch: nat, window: Time, required: nat,
      now: Time, after: seq<Command>)
    requires var s := Run(EMPTY, before);
             && Tombstone(s, id, epoch, window, required, now).1.Authorized?
             && id in s.migrations && !s.migrations[id].status.TombstoneAuthorized?
    ensures var t := Run(Tombstone(Run(EMPTY, before), id, epoch, window, required, now).0, after);
            && id in t.migrations && t.migrations[id].status.TombstoneAuthorized?
            && t.migrations[id].window == Some(window) && window <= now && Backed(t.migrations[id], required)
  {
    hide Run, Inv, Grows, Backed, Tombstone;
    var s := Run(EMPTY, before);
    ReachableIsConsistent(before);
    TombstoneKeepsInv(s, id, epoch, window, required, now);
    var u := Tombstone(s, id, epoch, window, required, now).0;
    AuthorizationIsBacked(s, id, epoch, window, required, now);
    RunGrows(u, after, id);
    BackedGrows(u.migrations[id], Run(u, after).migrations[id], required);
    TombstoneStays(u.migrations[id], Run(u, after).migrations[id]);
  }

  /** An `authorized` answer by itself does not vouch for the asked number of scans: once the
      tombstone stands, a repeat call is answered without counting. Four calls lead there. */
  lemma RepeatAuthorizationSkipsTheCount()
    ensures var scan := Scan(7, 10, []);
            var s := Run(EMPTY, [DoPrepare(1, 1, []), DoCommit(1, 1), DoScan(1, 1, scan), DoTombstone(1, 1, 5, 1, 20)]);
            && s == Store(Some(Head(1, 1)), map[1 := Migration(1, 1, [], TombstoneAuthorized, [], [scan], 1, Some(5))])
            && Tombstone(s, 1, 1, 5, 99, 20) == (s, Authorized) && !Backed(s.migrations[1], 99)
  {
    hide Exec, Run;
    var scan := Scan(7, 10, []);
    var commands := [DoPrepare(1, 1, []), DoCommit(1, 1), DoScan(1, 1, scan), DoTombstone(1, 1, 5, 1, 20)];
    PrepareAndCommit();
    ScanOnce(scan);
    AuthorizeOnce(scan);
    RunOfFour(EMPTY, commands);
    var m := Migration(1, 1, [], TombstoneAuthorized, [], [scan], 1, Some(5));
    if Backed(m, 99) {
      BackedNeedsScans(m, 99);
    }
  }

  lemma PrepareAndCommit()
    ensures var m := Migration(1, 1, [], Prepared, [], [], 0, None);
            && Exec(EMPTY, DoPrepare(1, 1, [])).0 == Alone(m)
            && Exec(Alone(m), DoCommit(1, 1)).0 == Alone(m.(status := Committed))
  {
  }

  lemma ScanOnce(scan: Scan)
    requires scan == Scan(7, 10, [])
    ensures var m := Migration(1, 1, [], Committed, [], [], 0, None);
            Exec(Alone(m), DoScan(1, 1, scan)).0 == Alone(m.(scans := [scan], zeros := 1))
  {
    hide Valid, FindScan;
    var m := Migration(1, 1, [], Committed, [], [], 0, None);
    AloneIsOpen(m);
    assert FindScan([], 7).None?;
    assert WithScan(m, scan) == m.(scans := [scan], zeros := 1) by { assert [] + [scan] == [scan]; }
  }

  lemma AuthorizeOnce(scan: Scan)
    requires scan == Scan(7, 10, [])
    ensures var n := Migration(1, 1, [], Committed, [], [scan], 1, None);
            var done := n.(status := TombstoneAuthorized, window := Some(5));
            && Exec(Alone(n), DoTombstone(1, 1, 5, 1, 20)).0 == Alone(done)
            && Tombstone(Alone(done), 1, 1, 5, 99, 20) == (Alone(done), Authorized)
  {
    hide Valid, TrailingZerosSince;
    var n := Migration(1, 1, [], Committed, [], [scan], 1, None);
    AloneIsOpen(n);
    AloneIsOpen(n.(status := TombstoneAuthorized, window := Some(5)));
    OneZeroScan(scan);
  }

  /** A migration without rows, with at most the one zero scan, alone in its store. */
  lemma AloneIsOpen(m: Migration)
    requires m.id == 1 && m.epoch == 1 && m.rows == [] && m.acks == []
    requires (m.scans == [] && m.zeros == 0) || (m.scans == [Scan(7, 10, [])] && m.zeros == 1)
    ensures Opened(Alone(m), 1, 1).None?
  {
    OneZeroScan(Scan(7, 10, []));
  }

  ghost function Alone(m: Migration): Store {
    Store(Some(Head(m.id, m.epoch)), map[m.id := m])
  }

  lemma OneZeroScan(scan: Scan)
    requires scan.rows == []
    ensures TrailingZeros([scan]) == 1 && (scan.at >= 5 ==> TrailingZerosSince([scan], 5) == 1)
    ensures TrailingZeros([]) == 0
  {
    assert [scan][..0] == [];
  }

  lemma RunOfFour(s: Store, cs: seq<Command>)
    requires |cs| == 4
    ensures Run(s, cs) == Exec(Exec(Exec(Exec(s, cs[0]).0, cs[1]).0, cs[2]).0, cs[3]).0
  {
    hide Exec;
    assert cs[..3][..2] == cs[..2] && cs[..2][..1] == cs[..1] && cs[..1][..0] == [];
    assert Run(s, cs[..1]) == Exec(s, cs[0]).0;
    assert Run(s, cs[..2]) == Exec(Run(s, cs[..1]), cs[1]).0;
    assert Run(s, cs[..3]) == Exec(Run(s, cs[..2]), cs[2]).0;
  }

  /** The call that decides vouches for its count; a repeat call changes nothing. */
  lemma AuthorizedVouchesWhenItDecides(s: Store, id: Id, epoch: nat, window: Time, required: nat, now: Time)
    requires Inv(s) && id in s.migrations && Tombstone(s, id, epoch, window, required, now).1.Authorized?
    ensures !s.migrations[id].status.TombstoneAuthorized? ==>
              Backed(Tombstone(s, id, epoch, window, required, now).0.migrations[id], required)
    ensures s.migrations[id].status.TombstoneAuthorized? ==> Tombstone(s, id, epoch, window, required, now).0 == s
  {
    if !s.migrations[id].status.TombstoneAuthorized? {
      TombstonedIsBacked(s.migrations[id], window, required);
    }
  }

  /** The call answers `authorized` although no block of n zero scans backs the record. */
  ghost predicate Unbacked(s: Store, id: Id, epoch: nat, window: Time, n: nat, now: Time) {
    var (t, reply) := Tombstone(s, id, epoch, window, n, now);
    reply.Authorized? && id in t.migrations && !Backed(t.migrations[id], n)
  }

  lemma BackedNeedsScans(m: Migration, n: nat)
    requires Backed(m, n)
    ensures n <= |m.scans|
  {
  }

  /** Some requirement is authorized unbacked exactly when the migration already was authorized
      with that window: then the requirement of the repeated call is never looked at. */
  lemma UnbackedAuthorizationExactly(s: Store, id: Id, epoch: nat, window: Time, now: Time)
    requires Inv(s) && epoch >= 1 && Opened(s, id, epoch).None?
    ensures (exists n: nat :: Unbacked(s, id, epoch, window, n, now)) <==>
            s.migrations[id].status.TombstoneAuthorized? && s.migrations[id].window == Some(window)
  {
    hide Valid, Headed;
    var m := s.migrations[id];
    if m.status.TombstoneAuthorized? && m.window == Some(window) {
      var n := |m.scans| + 1;
      if Backed(m, n) {
        BackedNeedsScans(m, n);
      }
      assert Unbacked(s, id, epoch, window, n, now);
    }
    if exists n: nat :: Unbacked(s, id, epoch, window, n, now) {
      var n: nat :| Unbacked(s, id, epoch, window, n, now);
      AuthorizedVouchesWhenItDecides(s, id, epoch, window, n, now);
    }
  }
}
