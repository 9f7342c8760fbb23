/** The replay store as it runs: rows in storage, one transaction per call. */
module ReplayStore {
  import opened Collections
  import opened ReplayModel
  import ReplaySafety

  ghost function Ahead(rows: Rows, cursor: Option<Key>): set<Key> {
    set k | k in rows && After(cursor, k)
  }

  class DurableReplayStore {
    var rows: Rows

    constructor ()
      ensures rows == map[]
    {
      rows := map[];
    }

    method ConsumeScope(key: Key, digest: Digest, expiresAt: Time, now: Time) returns (reply: ConsumeReply)
      modifies this
      ensures (rows, reply) == Consume(old(rows), key, digest, expiresAt, now)
    {
      if expiresAt <= now {
        return InvalidRequest;
      }
      if key in rows {
        if rows[key].expiresAt > now {
          return Rejected;
        }
        rows := rows - {key};
      }
      rows := rows[key := Record(digest, expiresAt)];
      assert rows == old(rows)[key := Record(digest, expiresAt)];
      reply := Accepted;
    }

    /** One page. Only expired rows of the page go, and the count is the number of rows that went. */
    method SweepPage(now: Time, limit: nat, cursor: Option<Key>) returns (reply: SweepReply)
      modifies this
      ensures rows == Sweep(old(rows), now, limit, cursor)
      ensures reply.InvalidSweep? <==> !ValidLimit(limit)
      ensures reply.SweptRows? ==>
                && reply.removed == |old(rows)| - |rows|
                && reply.nextAfter == NextAfter(Page(old(rows), limit, cursor), limit)
    {
      if !ValidLimit(limit) {
        return InvalidSweep;
      }
      hide Page, Swept;
      ghost var before := rows;
      var page := Page(rows, limit, cursor);
      var removed: nat := 0;
      var inspected := 0;
      var last: Option<Key> := None;
      NothingInspected(before, page, now);
      while inspected < |page|
        invariant 0 <= inspected <= |page|
        invariant rows == Swept(before, page[..inspected], now)
        invariant removed == |before| - |rows|
        invariant last == if inspected == 0 then None else Some(page[inspected - 1])
      {
        var key := page[inspected];
        OneMoreRow(before, page, inspected, now);
        inspected := inspected + 1;
        last := Some(key);
        if key in rows && rows[key].expiresAt <= now {
          RemovalCounts(rows, key);
          rows := rows - {key};
          removed := removed + 1;
        }
      }
      assert page[..|page|] == page;
      reply := SweptRows(removed, if |page| >= limit then last else None);
    }

    /** A pass that follows the returned cursor at a fixed time ends, and removes exactly the rows
        that have expired by then. */
    method SweepAll(now: Time, limit: nat) returns (removed: nat)
      requires ValidLimit(limit)
      modifies this
      ensures rows == map k | k in old(rows) && old(rows)[k].expiresAt > now :: old(rows)[k]
      ensures removed == |old(rows)| - |rows|
    {
      hide Page, Swept;
      ghost var all := rows;
      removed := 0;
      var cursor: Option<Key> := None;
      var more := true;
      while more
        invariant more ==> rows == if cursor.None? then all else ReplaySafety.SweptThrough(all, cursor, now)
        invariant !more ==> rows == map k | k in all && all[k].expiresAt > now :: all[k]
        invariant removed == |all| - |rows|
        decreases more, Ahead(all, cursor)
      {
        ReplaySafety.SweepAdvances(all, rows, now, limit, cursor);
        var reply := SweepPage(now, limit, cursor);
        removed := removed + reply.removed;
        more := reply.nextAfter.Some?;
        if more {
          assert reply.nextAfter.value in Ahead(all, cursor) - Ahead(all, reply.nextAfter);
          cursor := reply.nextAfter;
        }
      }
    }

    /** `now` is the time the caller captured before the signature check; only the last step, the
        consume transaction, touches the store. */
    method VerifyEnvelope(v: Verifier, envelope: Envelope, now: Time) returns (reply: VerifyReply)
      modifies this
      ensures (rows, reply) == VerifyAndConsume(v, old(rows), envelope, now)
    {
      if envelope.expiresAt <= now || envelope.expiresAt - now > MAX_EXECUTOR_ENVELOPE_TTL_MS
        || !v.authentic(envelope) {
        return EnvelopeInvalid;
      }
      var consumed := ConsumeScope(KeyOf(v, envelope), envelope.bodyDigest, envelope.expiresAt, now);
      match consumed {
        case Accepted => reply := Body(envelope.body);
        case Rejected => reply := ReplayRejected;
        case InvalidRequest => reply := EnvelopeInvalid;
      }
    }
  }

  lemma NothingInspected(all: Rows, page: seq<Key>, now: Time)
    ensures Swept(all, page[..0], now) == all
  {
  }

  lemma OneMoreRow(all: Rows, page: seq<Key>, n: nat, now: Time)
    requires n < |page|
    ensures var rows, key := Swept(all, page[..n], now), page[n];
            Swept(all, page[..n + 1], now) == if key in rows && rows[key].expiresAt <= now then rows - {key} else rows
  {
    assert page[..n + 1] == page[..n] + [page[n]];
  }

  lemma RemovalCounts(rows: Rows, key: Key)
    requires key in rows
    ensures |rows - {key}| == |rows| - 1
  {
    assert (rows - {key}).Keys == rows.Keys - {key};
    assert |(rows - {key}).Keys| == |rows - {key}|;
    assert |rows.Keys| == |rows|;
  }
}
