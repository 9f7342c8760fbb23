/** What the replay store promises although callers capture their time before the transaction:
    exactly when a scope reopens, and that no two acceptances of one scope overlap in real time. */
module ReplaySafety {
  import opened Collections
  import opened ReplayModel

  /** One clock that does not go back: times are captured before the commit, commits are in order. */
  ghost predicate Clocked(events: seq<Event>) {
    && (forall i :: 0 <= i < |events| ==> events[i].now <= events[i].at)
    && (forall i, j :: 0 <= i <= j < |events| ==> events[i].at <= events[j].at)
  }

  // ------------------------------------------------------ the row of a scope

  /** What one transaction does to one row. */
  lemma RowStep(v: Verifier, events: seq<Event>, n: nat, key: Key)
    requires n < |events|
    ensures var rows, next, e := Found(v, events, n), Found(v, events, n + 1), events[n];
            if AcceptedAt(v, events, n, key) then
              && AsksFor(v, e, key)
              && (key in rows ==> rows[key].expiresAt <= e.now)
              && key in next && next[key].expiresAt == ExpiryOf(e) && e.now < ExpiryOf(e)
            else if RemovedAt(v, events, n, key) then rows[key].expiresAt <= e.now
            else (key in next <==> key in rows) && (key in rows ==> next[key] == rows[key])
  {
    assert events[..n + 1][..n] == events[..n];
    hide Page;
  }

  /** An acceptance holds its row, at least as long, until a sweep removes it. */
  lemma {:induction false} AcceptancePersists(v: Verifier, events: seq<Event>, i: nat, n: nat, key: Key)
    requires i < n <= |events| && AcceptedAt(v, events, i, key)
    requires forall m :: i < m < n ==> !RemovedAt(v, events, m, key)
    ensures key in Found(v, events, n) && Found(v, events, n)[key].expiresAt >= ExpiryOf(events[i])
    decreases n
  {
    hide AcceptedAt, RemovedAt, Found, ExpiryOf;
    RowStep(v, events, n - 1, key);
    if i < n - 1 {
      AcceptancePersists(v, events, i, n - 1, key);
      assert !RemovedAt(v, events, n - 1, key);
    }
  }

  /** Every row was put there by an acceptance that no sweep has undone. */
  lemma {:induction false} RowHasWriter(v: Verifier, events: seq<Event>, n: nat, key: Key) returns (i: nat)
    requires n <= |events| && key in Found(v, events, n)
    ensures i < n && AcceptedAt(v, events, i, key) && ExpiryOf(events[i]) == Found(v, events, n)[key].expiresAt
    ensures forall m :: i < m < n ==> !RemovedAt(v, events, m, key)
    decreases n
  {
    if n == 0 {
      assert false;
    } else {
      hide AcceptedAt, ExpiryOf;
      RowStep(v, events, n - 1, key);
      if AcceptedAt(v, events, n - 1, key) {
        i := n - 1;
      } else {
        assert !RemovedAt(v, events, n - 1, key);
        i := RowHasWriter(v, events, n - 1, key);
      }
    }
  }

  // ---------------------------------------------------------- acceptance

  /** Acceptance i of the scope still stands at event n: its row was not swept away in between. */
  ghost predicate Stands(v: Verifier, events: seq<Event>, i: nat, n: nat, key: Key) {
    i < n && AcceptedAt(v, events, i, key) && forall m :: i < m < n ==> !RemovedAt(v, events, m, key)
  }

  lemma AskedIsDecidedByRow(v: Verifier, events: seq<Event>, n: nat, key: Key)
    requires n < |events| && AsksFor(v, events[n], key)
    ensures var rows := Found(v, events, n);
            AcceptedAt(v, events, n, key) <==> (key in rows ==> rows[key].expiresAt <= events[n].now)
  {
  }

  /** A well-formed request is refused exactly when an earlier acceptance of its scope stands and
      lasts beyond the time the caller captured. No order of the captured times is assumed. */
  lemma RefusedExactlyWhileHeld(v: Verifier, events: seq<Event>, n: nat, key: Key)
    requires n < |events| && AsksFor(v, events[n], key)
    ensures !AcceptedAt(v, events, n, key) <==>
            exists i: nat :: Stands(v, events, i, n, key) && ExpiryOf(events[i]) > events[n].now
  {
    hide AcceptedAt, RemovedAt, Found, ExpiryOf, AsksFor;
    AskedIsDecidedByRow(v, events, n, key);
    if key in Found(v, events, n) {
      var i := RowHasWriter(v, events, n, key);
      assert Stands(v, events, i, n, key);
    }
    forall i: nat | Stands(v, events, i, n, key)
      ensures key in Found(v, events, n) && Found(v, events, n)[key].expiresAt >= ExpiryOf(events[i])
    {
      AcceptancePersists(v, events, i, n, key);
    }
  }

  /** A sweep in (i, n) removed the row, and nothing accepted since reaches the time captured at n. */
  ghost predicate Reopens(v: Verifier, events: seq<Event>, i: nat, m: nat, n: nat, key: Key)
    requires n < |events|
  {
    && i < m < n && RemovedAt(v, events, m, key)
    && forall x :: m < x < n && AcceptedAt(v, events, x, key) ==> ExpiryOf(events[x]) <= events[n].now
  }

  lemma {:induction false} LastRemoval(v: Verifier, events: seq<Event>, i: nat, n: nat, key: Key) returns (m: nat)
    requires exists x :: i < x < n && RemovedAt(v, events, x, key)
    ensures i < m < n && RemovedAt(v, events, m, key) && forall x :: m < x < n ==> !RemovedAt(v, events, x, key)
    decreases n
  {
    if RemovedAt(v, events, n - 1, key) && i < n - 1 {
      m := n - 1;
    } else {
      m := LastRemoval(v, events, i, n - 1, key);
    }
  }

  /** A request inside the interval of an earlier acceptance is accepted exactly when a sweep that
      committed between the two removed the row and nothing that lasts was accepted after it. */
  lemma ReopenedExactly(v: Verifier, events: seq<Event>, i: nat, n: nat, key: Key)
    requires i < n < |events| && AcceptedAt(v, events, i, key) && AsksFor(v, events[n], key)
    requires events[n].now < ExpiryOf(events[i])
    ensures AcceptedAt(v, events, n, key) <==> exists m: nat :: Reopens(v, events, i, m, n, key)
  {
    hide AcceptedAt, RemovedAt, Found, ExpiryOf, AsksFor;
    RefusedExactlyWhileHeld(v, events, n, key);
    if AcceptedAt(v, events, n, key) {
      assert !Stands(v, events, i, n, key);
      var m := LastRemoval(v, events, i, n, key);
      forall x | m < x < n && AcceptedAt(v, events, x, key) ensures ExpiryOf(events[x]) <= events[n].now {
        assert Stands(v, events, x, n, key);
      }
      assert Reopens(v, events, i, m, n, key);
    }
    if m: nat :| Reopens(v, events, i, m, n, key) {
      forall x: nat | Stands(v, events, x, n, key) ensures ExpiryOf(events[x]) <= events[n].now {
        assert m < x || !(x < m < n);
        assert !AcceptedAt(v, events, m, key) by { SweepAcceptsNothing(v, events, m, key); }
      }
    }
  }

  lemma SweepAcceptsNothing(v: Verifier, events: seq<Event>, m: nat, key: Key)
    requires RemovedAt(v, events, m, key)
    ensures !AcceptedAt(v, events, m, key)
  {
  }

  /** The first sweep that removes an accepted row carries a time at or past its expiry. */
  lemma RemovalIsLate(v: Verifier, events: seq<Event>, i: nat, m: nat, key: Key)
    requires Stands(v, events, i, m, key) && RemovedAt(v, events, m, key)
    ensures events[m].now >= ExpiryOf(events[i])
  {
    AcceptancePersists(v, events, i, m, key);
    hide AcceptedAt, Found, ExpiryOf;
    SweepAcceptsNothing(v, events, m, key);
    RowStep(v, events, m, key);
  }

  lemma {:induction false} FirstRemoval(v: Verifier, events: seq<Event>, i: nat, n: nat, key: Key) returns (m: nat)
    requires exists x :: i < x < n && RemovedAt(v, events, x, key)
    ensures i < m < n && RemovedAt(v, events, m, key) && forall x :: i < x < m ==> !RemovedAt(v, events, x, key)
    decreases n
  {
    if exists x :: i < x < n - 1 && RemovedAt(v, events, x, key) {
      m := FirstRemoval(v, events, i, n - 1, key);
    } else {
      m := n - 1;
    }
  }

  /** The [committed, expires) intervals of one scope never overlap: a later acceptance commits no
      sooner than the earlier one has expired, whatever the captured times and the sweeps. */
  lemma IntervalsNeverOverlap(v: Verifier, events: seq<Event>, i: nat, n: nat, key: Key)
    requires Clocked(events) && i < n && AcceptedAt(v, events, i, key) && AcceptedAt(v, events, n, key)
    ensures ExpiryOf(events[i]) <= events[n].at
  {
    hide AcceptedAt, RemovedAt, Found, ExpiryOf, AsksFor;
    assert n < |events| && AsksFor(v, events[n], key) by { AcceptedWasAsked(v, events, n, key); }
    if events[n].now < ExpiryOf(events[i]) {
      ReopenedExactly(v, events, i, n, key);
      var r :| Reopens(v, events, i, r, n, key);
      var m := FirstRemoval(v, events, i, n, key);
      RemovalIsLate(v, events, i, m, key);
      assert events[m].now <= events[m].at <= events[n].at;
    }
  }

  lemma AcceptedWasAsked(v: Verifier, events: seq<Event>, n: nat, key: Key)
    requires AcceptedAt(v, events, n, key)
    ensures n < |events| && AsksFor(v, events[n], key)
  {
  }

  /** Over any run at most one call that commits before the envelope expires gets its body. */
  lemma EnvelopeAcceptedAtMostOnce(v: Verifier, events: seq<Event>, e: Envelope, i: nat, n: nat)
    requires Clocked(events) && i < |events| && n < |events|
    requires events[i].DoVerify? && events[i].envelope == e && AcceptedAt(v, events, i, KeyOf(v, e))
             && events[i].at < e.expiresAt
    requires events[n].DoVerify? && events[n].envelope == e && AcceptedAt(v, events, n, KeyOf(v, e))
             && events[n].at < e.expiresAt
    ensures i == n
  {
    if i < n {
      IntervalsNeverOverlap(v, events, i, n, KeyOf(v, e));
    } else if n < i {
      IntervalsNeverOverlap(v, events, n, i, KeyOf(v, e));
    }
  }

  /** The condition is needed: with a clock that only goes forward, a call that captured 6 and
      commits at 11, after a sweep at 10, gets the body of an envelope accepted at 5. */
  lemma LateCommitIsAcceptedAgain(v: Verifier, e: Envelope)
    requires v.authentic(e) && e.expiresAt == 10
    ensures var events := [DoVerify(e, 5, 5), DoSweep(1, None, 10, 10), DoVerify(e, 6, 11)];
            Clocked(events) && AcceptedAt(v, events, 0, KeyOf(v, e)) && AcceptedAt(v, events, 2, KeyOf(v, e))
  {
    var events := [DoVerify(e, 5, 5), DoSweep(1, None, 10, 10), DoVerify(e, 6, 11)];
    var key := KeyOf(v, e);
    assert events[..0] == [] && events[..1] == [events[0]] && events[..2] == [events[0], events[1]];
    assert Found(v, events, 0) == map[];
    assert events[..1][..0] == [];
    assert Found(v, events, 1) == map[key := Record(e.bodyDigest, 10)];
    assert events[..2][..1] == events[..1];
    PageCovers(Found(v, events, 1), 1, None, key);
    var page := Page(Found(v, events, 1), 1, None);
    if |page| > 0 {
      assert page[0] in page;
      PageIsAfter(Found(v, events, 1), 1, None, page[0]);
    }
    assert Found(v, events, 2) == map[];
  }

  // ---------------------------------------------------------- sweep passes

  /** The first `limit` of ascending keys are those up to the last of them. */
  lemma PrefixCovers(keys: seq<Key>, limit: nat, k: Key)
    requires 0 < limit <= |keys| && k in keys
    requires forall i, j :: 0 <= i < j < |keys| ==> keys[i] < keys[j]
    ensures k in keys[..limit] <==> k <= keys[limit - 1]
  {
    var i :| 0 <= i < |keys| && keys[i] == k;
    if i < limit {
      assert keys[..limit][i] == k;
      assert i < limit - 1 ==> keys[i] < keys[limit - 1];
    } else {
      assert keys[limit - 1] < keys[i];
    }
  }

  /** A page holds every listed key up to its last one, and all of them when it is not full. */
  lemma PageCovers(rows: Rows, limit: nat, cursor: Option<Key>, k: Key)
    requires limit > 0 && k in rows && After(cursor, k)
    ensures var page := Page(rows, limit, cursor);
            k in page <==> (NextAfter(page, limit).None? || k <= NextAfter(page, limit).value)
  {
    hide Ascending;
    var keys := Ascending(set x | x in rows && After(cursor, x));
    assert k in keys;
    if |keys| >= limit {
      PrefixCovers(keys, limit, k);
      assert keys[..limit][limit - 1] == keys[limit - 1];
      assert |keys| == limit ==> keys[..limit] == keys;
    }
  }

  lemma PageIsAfter(rows: Rows, limit: nat, cursor: Option<Key>, k: Key)
    requires k in Page(rows, limit, cursor)
    ensures k in rows && After(cursor, k)
  {
    var keys := Ascending(set x | x in rows && After(cursor, x));
    assert k in keys;
  }

  /** Rows still to be removed once the cursor has passed: expired rows at or before it are gone. */
  ghost function SweptThrough(rows: Rows, cursor: Option<Key>, now: Time): Rows {
    map k | k in rows && !(!After(cursor, k) && rows[k].expiresAt <= now) :: rows[k]
  }

  /** One page moves the frontier from the cursor to the next cursor. */
  lemma SweepAdvances(all: Rows, rows: Rows, now: Time, limit: nat, cursor: Option<Key>)
    requires limit > 0 && rows == if cursor.None? then all else SweptThrough(all, cursor, now)
    ensures var page := Page(rows, limit, cursor); var next := NextAfter(page, limit);
            && (next.Some? ==>
                  && After(cursor, next.value) && next.value in all
                  && Swept(rows, page, now) == SweptThrough(all, next, now))
            && (next.None? ==> Swept(rows, page, now) == map k | k in all && all[k].expiresAt > now :: all[k])
  {
    var page := Page(rows, limit, cursor);
    var next := NextAfter(page, limit);
    if next.Some? {
      PageIsAfter(rows, limit, cursor, next.value);
    }
    forall k | k in rows && After(cursor, k)
      ensures k in page <==> (next.None? || k <= next.value)
    {
      PageCovers(rows, limit, cursor, k);
    }
    forall k | k in page ensures k in rows && After(cursor, k) {
      PageIsAfter(rows, limit, cursor, k);
    }
  }
}
