/** What consuming, verifying and sweeping answer and write, exactly. */
module ReplayLaws {
  import opened Collections
  import opened ReplayModel

  /** A scope is taken unless the request is already over or a stored row outlasts the given time;
      the row then holds exactly the given digest and expiry. */
  lemma ConsumeLaw(rows: Rows, key: Key, digest: Digest, expiresAt: Time, now: Time)
    ensures Consume(rows, key, digest, expiresAt, now) ==
            if expiresAt <= now then (rows, InvalidRequest)
            else if key in rows && now < rows[key].expiresAt then (rows, Rejected)
            else (rows[key := Record(digest, expiresAt)], ConsumeReply.Accepted)
  {
  }

  /** An envelope's body is handed out exactly when it is authentic, ends within a quarter of an hour,
      and its audience, role and nonce are free; that scope is then held until the envelope expires. */
  lemma VerifyLaw(v: Verifier, rows: Rows, e: Envelope, now: Time)
    ensures var key := v.scopeKey(e.audience, e.role, e.nonce);
            VerifyAndConsume(v, rows, e, now) ==
            if !v.authentic(e) || e.expiresAt <= now || e.expiresAt - now > 900_000 then (rows, EnvelopeInvalid)
            else if key in rows && now < rows[key].expiresAt then (rows, ReplayRejected)
            else (rows[key := Record(e.bodyDigest, e.expiresAt)], Body(e.body))
  {
  }

  /** The keys a sweep may list. */
  ghost function Listed(rows: Rows, cursor: Option<Key>): set<Key> {
    set k | k in rows && (cursor == None || k > cursor.value)
  }

  lemma {:induction false} AscendingKeys(s: set<Key>)
    ensures |Ascending(s)| == |s|
  {
    if s != {} {
      var keys := Ascending(s);
      AscendingKeys(s - {keys[0]});
      assert Ascending(s) == [keys[0]] + Ascending(s - {keys[0]});
    }
  }

  /** The first keys of an ascending list are all below the others. */
  lemma PrefixIsLeast(keys: seq<Key>, n: nat, k: Key, other: Key)
    requires n <= |keys| && forall i, j :: 0 <= i < j < |keys| ==> keys[i] < keys[j]
    requires k in keys[..n] && other in keys && other !in keys[..n]
    ensures k < other
  {
    var i :| 0 <= i < n && keys[..n][i] == k;
    var j :| 0 <= j < |keys| && keys[j] == other;
    assert j >= n;
  }

  /** The first `limit` keys of an ascending list, all of them when there are fewer. */
  lemma FirstKeys(keys: seq<Key>, limit: nat, page: seq<Key>)
    requires forall i, j :: 0 <= i < j < |keys| ==> keys[i] < keys[j]
    requires page == if |keys| <= limit then keys else keys[..limit]
    ensures |page| == (if |keys| <= limit then |keys| else limit)
    ensures forall i, j :: 0 <= i < j < |page| ==> page[i] < page[j]
    ensures forall k :: k in page ==> k in keys
    ensures forall k: Key, other: Key :: k in page && other in keys && other !in page ==> k < other
  {
    if |keys| > limit {
      forall k: Key, other: Key | k in page && other in keys && other !in page ensures k < other {
        PrefixIsLeast(keys, limit, k, other);
      }
    }
  }

  /** A page is the least keys after the cursor, as many as there are up to the limit. */
  lemma PageLaw(rows: Rows, limit: nat, cursor: Option<Key>)
    ensures var page, listed := Page(rows, limit, cursor), Listed(rows, cursor);
            && |page| == (if |listed| <= limit then |listed| else limit)
            && (forall i, j :: 0 <= i < j < |page| ==> page[i] < page[j])
            && (forall k :: k in page ==> k in listed)
            && (forall k: Key, other: Key :: k in page && other in listed && other !in page ==> k < other)
  {
    var listed := Listed(rows, cursor);
    assert listed == set k | k in rows && After(cursor, k);
    hide Ascending, Listed;
    AscendingKeys(listed);
    FirstKeys(Ascending(listed), limit, Page(rows, limit, cursor));
  }

  /** A sweep with a limit from 1 to 1000 deletes the rows of its page that have expired by `now`;
      with any other limit nothing. */
  lemma SweepLaw(rows: Rows, now: Time, limit: nat, cursor: Option<Key>, key: Key)
    ensures var t := Sweep(rows, now, limit, cursor);
            && (key in t <==>
                  && key in rows
                  && !(1 <= limit <= 1000 && key in Page(rows, limit, cursor) && rows[key].expiresAt <= now))
            && (key in t ==> t[key] == rows[key])
  {
    hide Page;
  }
}
