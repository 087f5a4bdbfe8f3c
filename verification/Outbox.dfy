/** The timeout outbox table: claims under SKIP LOCKED, and the two outcomes of a publication. */
module Outbox {
  import opened Domain

  const DEFAULT_LEASE := 30_000_000_000
  const DEFAULT_MAX_ATTEMPTS := 10

  /** A row a claim may take: unpublished, due, with attempts left. */
  predicate Due(row: OutboxRow, now: int, maxAttempts: int) {
    row.publishedAt.None? && row.nextAttemptAt <= now && row.attempts < maxAttempts
  }

  /** The first `limit` due rows from row `i` on, in id order, skipping locked ones. */
  function Pick(rows: seq<OutboxRow>, locked: set<int>, now: int, limit: int, maxAttempts: int, i: nat): seq<int>
    requires i <= |rows|
    decreases |rows| - i
  {
    if limit <= 0 || i == |rows| then []
    else if i !in locked && Due(rows[i], now, maxAttempts)
    then [i] + Pick(rows, locked, now, limit - 1, maxAttempts, i + 1)
    else Pick(rows, locked, now, limit, maxAttempts, i + 1)
  }

  /** The claimed rows with one more attempt and a lease; all others as they were. */
  function Leased(rows: seq<OutboxRow>, ids: seq<int>, until: int): (r: seq<OutboxRow>)
    ensures |r| == |rows|
  {
    seq(|rows|, i requires 0 <= i < |rows| =>
      if i in ids then rows[i].(attempts := rows[i].attempts + 1, nextAttemptAt := until) else rows[i])
  }

  /** A claim takes due, unlocked, distinct rows in ascending order, at most `limit`. */
  lemma {:induction false} PickedAreDue(rows: seq<OutboxRow>, locked: set<int>, now: int, limit: int, maxAttempts: int, i: nat)
    requires i <= |rows|
    ensures var ids := Pick(rows, locked, now, limit, maxAttempts, i);
      && (limit >= 0 ==> |ids| <= limit)
      && (forall k :: 0 <= k < |ids| ==> i <= ids[k] < |rows| && ids[k] !in locked && Due(rows[ids[k]], now, maxAttempts))
      && (forall j, k :: 0 <= j < k < |ids| ==> ids[j] < ids[k])
    decreases |rows| - i
  {
    if limit > 0 && i < |rows| {
      if i !in locked && Due(rows[i], now, maxAttempts) {
        PickedAreDue(rows, locked, now, limit - 1, maxAttempts, i + 1);
      } else {
        PickedAreDue(rows, locked, now, limit, maxAttempts, i + 1);
      }
    }
  }

  /** It leaves an eligible row behind only when the limit is used up on earlier rows. */
  lemma {:induction false} PickedFirst(
    rows: seq<OutboxRow>, locked: set<int>, now: int, limit: nat, maxAttempts: int, i: nat, r: int)
    requires i <= r < |rows| && r !in locked && Due(rows[r], now, maxAttempts)
    ensures var ids := Pick(rows, locked, now, limit, maxAttempts, i);
      r in ids || (|ids| == limit && forall x :: x in ids ==> x < r)
    decreases |rows| - i
  {
    if limit > 0 && i < r {
      if i !in locked && Due(rows[i], now, maxAttempts) {
        PickedFirst(rows, locked, now, limit - 1, maxAttempts, i + 1, r);
      } else {
        PickedFirst(rows, locked, now, limit, maxAttempts, i + 1, r);
      }
    }
  }

  class OutboxTable {
    var rows: seq<OutboxRow>

    constructor ()
      ensures rows == []
    {
      rows := [];
    }

    method SelectDue(locked: set<int>, now: int, limit: int, maxAttempts: int) returns (ids: seq<int>)
      ensures ids == Pick(rows, locked, now, limit, maxAttempts, 0)
    {
      ids := [];
      var i := 0;
      while i < |rows| && |ids| < limit
        invariant 0 <= i <= |rows|
        invariant Pick(rows, locked, now, limit, maxAttempts, 0)
               == ids + Pick(rows, locked, now, limit - |ids|, maxAttempts, i)
      {
        if i !in locked && Due(rows[i], now, maxAttempts) {
          ids := ids + [i];
        }
        i := i + 1;
      }
    }

    /** Selects due rows, leases them, and returns them as leased. */
    method ClaimPending(locked: set<int>, now: int, limit: int, leaseDuration: int, maxAttempts: int)
      returns (ids: seq<int>, claimed: seq<OutboxRow>)
      modifies this
      ensures var lease := if leaseDuration <= 0 then DEFAULT_LEASE else leaseDuration;
        var cap := if maxAttempts <= 0 then DEFAULT_MAX_ATTEMPTS else maxAttempts;
        && ids == Pick(old(rows), locked, now, limit, cap, 0)
        && rows == Leased(old(rows), ids, now + lease)
        && |claimed| == |ids|
        && forall k :: 0 <= k < |ids| ==> 0 <= ids[k] < |rows| && claimed[k] == rows[ids[k]]
    {
      var lease := if leaseDuration <= 0 then DEFAULT_LEASE else leaseDuration;
      var cap := if maxAttempts <= 0 then DEFAULT_MAX_ATTEMPTS else maxAttempts;
      if limit <= 0 {
        assert Leased(rows, [], now + lease) == rows;
        return [], [];
      }
      ids := SelectDue(locked, now, limit, cap);
      PickedAreDue(rows, locked, now, limit, cap, 0);
      claimed := ReadLeased(ids, now + lease);
      LeaseRows(ids, now + lease);
    }

    /** The selected rows with the attempt and lease of the local copy. */
    method ReadLeased(ids: seq<int>, until: int) returns (claimed: seq<OutboxRow>)
      requires forall k :: 0 <= k < |ids| ==> 0 <= ids[k] < |rows|
      ensures |claimed| == |ids| && forall k :: 0 <= k < |ids| ==> claimed[k] == Leased(rows, ids, until)[ids[k]]
    {
      claimed := [];
      for k := 0 to |ids|
        invariant |claimed| == k
        invariant forall j :: 0 <= j < k ==> claimed[j] == Leased(rows, ids, until)[ids[j]]
      {
        var event := rows[ids[k]];
        assert ids[k] in ids;
        claimed := claimed + [event.(attempts := event.attempts + 1, nextAttemptAt := until)];
      }
    }

    /** The update of every row whose id is listed. */
    method LeaseRows(ids: seq<int>, until: int)
      modifies this
      ensures rows == Leased(old(rows), ids, until)
    {
      var i := 0;
      while i < |rows|
        invariant 0 <= i <= |rows| == |old(rows)|
        invariant forall j :: 0 <= j < i ==> rows[j] == Leased(old(rows), ids, until)[j]
        invariant forall j :: i <= j < |rows| ==> rows[j] == old(rows)[j]
      {
        if i in ids {
          rows := rows[i := rows[i].(attempts := rows[i].attempts + 1, nextAttemptAt := until)];
        }
        i := i + 1;
      }
    }

    method MarkPublished(i: nat, now: int)
      requires i < |rows|
      modifies this
      ensures rows == Published(old(rows), i, now)
    {
      if rows[i].publishedAt.None? {
        rows := rows[i := rows[i].(publishedAt := Some(now))];
      }
    }

    method MarkFailed(i: nat, nextAttemptAt: int)
      requires i < |rows|
      modifies this
      ensures rows == Postponed(old(rows), i, nextAttemptAt)
    {
      if rows[i].publishedAt.None? {
        rows := rows[i := rows[i].(nextAttemptAt := nextAttemptAt)];
      }
    }
  }

  function Published(rows: seq<OutboxRow>, i: nat, now: int): seq<OutboxRow>
    requires i < |rows|
  {
    if rows[i].publishedAt.None? then rows[i := rows[i].(publishedAt := Some(now))] else rows
  }

  function Postponed(rows: seq<OutboxRow>, i: nat, at: int): seq<OutboxRow>
    requires i < |rows|
  {
    if rows[i].publishedAt.None? then rows[i := rows[i].(nextAttemptAt := at)] else rows
  }
}
