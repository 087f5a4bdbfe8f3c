/** The timeout worker: publishing claimed outbox rows to the delay queues, and consuming what comes out. */
module TimeoutWorker {
  import opened Domain
  import opened Outbox
  import opened Backoff
  import OutboxLease
  import DelayLadder
  import Tables
  import Protocol
  import StockGuard
  import OrderService
  import Items
  import opened Integrity
  import opened Effects

  // ---- publishing ----

  datatype Topology = Topology(ladders: seq<DelayLadder.Rung>, delayRoutingKey: string, delayQueue: string)

  /** A message as published: its routing key and, in the legacy single queue only, its own lifetime. */
  datatype Publishing = Publishing(orderId: int, timeoutAt: int, routingKey: string, expirationMs: Option<int>)

  /** How publishing one claimed row went; `built` and `at` are clock readings. */
  datatype Fate =
    | Sent(built: int, at: int)         // confirmed, and marked published
    | Unmarked(built: int)              // confirmed, but the mark failed
    | Refused(built: int, at: int)      // not confirmed, and the failure recorded
    | Unrecorded(built: int)            // not confirmed, and the record failed

  function ExpirationMilliseconds(now: int, timeoutAt: int): (ms: int)
    ensures ms >= 1
    ensures timeoutAt - now >= DelayLadder.MILLISECOND ==>
      timeoutAt - now - DelayLadder.MILLISECOND < ms * DelayLadder.MILLISECOND <= timeoutAt - now
  {
    var remaining := DelayLadder.Milliseconds(timeoutAt - now);
    if remaining < 1 then 1 else remaining
  }

  method BuildPublishing(now: int, row: OutboxRow, topology: Topology) returns (message: Publishing)
    ensures message.orderId == row.orderId && message.timeoutAt == row.timeoutAt
    ensures message == PublishingFor(now, row, topology)
  {
    var delay := row.timeoutAt - now;
    var routingKey, expiration := topology.delayRoutingKey, None;
    if topology.ladders != [] {
      var rung := DelayLadder.MatchDelayLadder(topology.ladders, delay);
      routingKey := rung.routingKey;
    } else if topology.delayQueue != "" {
      expiration := Some(ExpirationMilliseconds(now, row.timeoutAt));
    }
    if routingKey == "" {
      routingKey := topology.delayRoutingKey;
    }
    return Publishing(row.orderId, row.timeoutAt, routingKey, expiration);
  }

  function PublishingFor(now: int, row: OutboxRow, topology: Topology): Publishing {
    var rungKey := if topology.ladders == [] then "" else DelayLadder.FirstFit(topology.ladders, row.timeoutAt - now).routingKey;
    Publishing(
      row.orderId, row.timeoutAt,
      if rungKey == "" then topology.delayRoutingKey else rungKey,
      if topology.ladders == [] && topology.delayQueue != "" then Some(ExpirationMilliseconds(now, row.timeoutAt)) else None)
  }

  // ---- what the delay queues hold ----

  /** A message as it reached the broker: built at `built` for `row`, routed on arrival at `at`. */
  datatype Arrival = Arrival(built: int, row: OutboxRow, at: int)

  /** The queue bound to a routing key receives the arrivals routed to it, in order. */
  function Routed(arrivals: seq<Arrival>, topology: Topology, key: string): (r: seq<Arrival>)
    ensures forall m :: m in r ==> m in arrivals && PublishingFor(m.built, m.row, topology).routingKey == key
  {
    if arrivals == [] then []
    else
      var init, last := arrivals[..|arrivals| - 1], arrivals[|arrivals| - 1];
      Routed(init, topology, key) + (if PublishingFor(last.built, last.row, topology).routingKey == key then [last] else [])
  }

  /** A message leaves after the queue's lifetime or its own, whichever is shorter. */
  function Lifetime(message: Publishing, queueTtlMs: int): int {
    DelayLadder.MILLISECOND *
      (if message.expirationMs.Some? && message.expirationMs.value < queueTtlMs then message.expirationMs.value else queueTtlMs)
  }

  function Queued(arrivals: seq<Arrival>, topology: Topology, queueTtlMs: int): (r: seq<DelayLadder.Message>)
    ensures |r| == |arrivals|
    ensures forall i :: 0 <= i < |r| ==> r[i] == DelayLadder.Message(
      arrivals[i].at, Lifetime(PublishingFor(arrivals[i].built, arrivals[i].row, topology), queueTtlMs))
  {
    seq(|arrivals|, i requires 0 <= i < |arrivals| => DelayLadder.Message(
      arrivals[i].at, Lifetime(PublishingFor(arrivals[i].built, arrivals[i].row, topology), queueTtlMs)))
  }

  predicate InArrivalOrder(arrivals: seq<Arrival>) {
    forall j, k :: 0 <= j < k < |arrivals| ==> arrivals[j].at <= arrivals[k].at
  }

  lemma {:induction false} RoutedInOrder(arrivals: seq<Arrival>, topology: Topology, key: string)
    requires InArrivalOrder(arrivals)
    ensures InArrivalOrder(Routed(arrivals, topology, key))
  {
    if arrivals != [] {
      var init := arrivals[..|arrivals| - 1];
      RoutedInOrder(init, topology, key);
      forall m | m in Routed(init, topology, key) ensures m.at <= arrivals[|arrivals| - 1].at {
        var k :| 0 <= k < |init| && init[k] == m;
      }
    }
  }

  /** Whatever the worker publishes, the queue of a rung holds messages in arrival order that all live as long as the
      rung, because a laddered message carries no lifetime of its own. */
  lemma RungQueuesAreUniform(arrivals: seq<Arrival>, topology: Topology, rung: DelayLadder.Rung)
    requires topology.ladders != [] && InArrivalOrder(arrivals)
    ensures DelayLadder.RungQueue(
      Queued(Routed(arrivals, topology, rung.routingKey), topology, DelayLadder.TtlMs(rung)), rung)
  {
    RoutedInOrder(arrivals, topology, rung.routingKey);
  }

  /** From the worker to the end of the delay: the `i`-th message of the queue chosen for it comes out exactly one rung
      after it arrived, and if the remaining delay is within the largest rung, not before its deadline. */
  lemma PublishedArrivesOnTime(arrivals: seq<Arrival>, topology: Topology, rung: DelayLadder.Rung, i: nat)
    requires topology.ladders != [] && DelayLadder.SortedRungs(topology.ladders) && DelayLadder.WholeMilliseconds(topology.ladders)
    requires InArrivalOrder(arrivals) && i < |Routed(arrivals, topology, rung.routingKey)|
    requires var m := Routed(arrivals, topology, rung.routingKey)[i];
      && m.built <= m.at
      && rung == DelayLadder.FirstFit(topology.ladders, m.row.timeoutAt - m.built)
      && DelayLadder.Reaches(topology.ladders, m.row.timeoutAt - m.built)
    ensures var routed := Routed(arrivals, topology, rung.routingKey);
      var departure := DelayLadder.DepartsAt(Queued(routed, topology, DelayLadder.TtlMs(rung)), i);
      departure == routed[i].at + rung.duration && departure >= routed[i].row.timeoutAt
  {
    hide Routed, DelayLadder.FirstFit, DelayLadder.DepartsAt, DelayLadder.RungQueue;
    var m := Routed(arrivals, topology, rung.routingKey)[i];
    RungQueuesAreUniform(arrivals, topology, rung);
    DelayLadder.NeverBeforeDeadline(topology.ladders, m.built, m.row.timeoutAt,
      Queued(Routed(arrivals, topology, rung.routingKey), topology, DelayLadder.TtlMs(rung)), i);
  }

  predicate DistinctKeys(ladders: seq<DelayLadder.Rung>) {
    && (forall r :: 0 <= r < |ladders| ==> ladders[r].routingKey != "")
    && (forall q, r :: 0 <= q < r < |ladders| ==> ladders[q].routingKey != ladders[r].routingKey)
  }

  /** A routed arrival stands behind those routed before it. */
  lemma {:induction false} RoutedAt(arrivals: seq<Arrival>, topology: Topology, key: string, k: nat)
    requires k < |arrivals| && PublishingFor(arrivals[k].built, arrivals[k].row, topology).routingKey == key
    ensures var i := |Routed(arrivals[..k], topology, key)|;
      i < |Routed(arrivals, topology, key)| && Routed(arrivals, topology, key)[i] == arrivals[k]
  {
    hide PublishingFor;
    var n := |arrivals| - 1;
    if k < n {
      RoutedAt(arrivals[..n], topology, key, k);
      assert arrivals[..n][..k] == arrivals[..k];
    }
  }

  /** Where the `k`-th event that reached the broker goes: into the queue of `rung`, which is the least rung covering its
      delay, or a largest one when none does; and when it comes out. */
  ghost predicate GoesTo(arrivals: seq<Arrival>, topology: Topology, k: nat, rung: DelayLadder.Rung)
    requires k < |arrivals|
  {
    var m := arrivals[k];
    var delay := m.row.timeoutAt - m.built;
    var routed := Routed(arrivals, topology, rung.routingKey);
    var i := |Routed(arrivals[..k], topology, rung.routingKey)|;
    && rung in topology.ladders
    && (forall other :: other in topology.ladders && other != rung ==> m !in Routed(arrivals, topology, other.routingKey))
    && i < |routed| && routed[i] == m
    && var departure := DelayLadder.DepartsAt(Queued(routed, topology, DelayLadder.TtlMs(rung)), i);
    && departure == m.at + rung.duration
    && if exists r :: r in topology.ladders && r.duration >= delay
       then && rung.duration >= delay && departure >= m.row.timeoutAt
            && (forall r :: r in topology.ladders && r.duration >= delay ==> rung.duration <= r.duration)
       else forall r :: r in topology.ladders ==> r.duration <= rung.duration
  }

  /** Every published event, at any position, is in the queue of exactly one configured rung, the least that covers its
      delay if any does, and then comes out no earlier than its deadline. */
  lemma PublishedToLeastRung(arrivals: seq<Arrival>, topology: Topology, k: nat)
    requires topology.ladders != [] && DelayLadder.SortedRungs(topology.ladders) && DelayLadder.WholeMilliseconds(topology.ladders)
    requires DistinctKeys(topology.ladders)
    requires InArrivalOrder(arrivals) && k < |arrivals| && arrivals[k].built <= arrivals[k].at
    ensures exists rung :: GoesTo(arrivals, topology, k, rung)
  {
    hide Routed, PublishingFor, DelayLadder.DepartsAt, DelayLadder.FirstFit, DelayLadder.Reaches, Queued, DelayLadder.TtlMs,
      InArrivalOrder, DelayLadder.SortedRungs, DelayLadder.WholeMilliseconds, DistinctKeys;
    var m := arrivals[k];
    var rung := DelayLadder.FirstFit(topology.ladders, m.row.timeoutAt - m.built);
    RungKey(topology, m.built, m.row);
    RoutedAt(arrivals, topology, rung.routingKey, k);
    DelayLadder.FirstFitIsLeast(topology.ladders, m.row.timeoutAt - m.built);
    ReachesIn(topology.ladders, m.row.timeoutAt - m.built);
    Departure(arrivals, topology, rung, |Routed(arrivals[..k], topology, rung.routingKey)|);
    forall other | other in topology.ladders && other != rung ensures m !in Routed(arrivals, topology, other.routingKey) {
      KeysTell(topology.ladders, rung, other);
    }
    assert GoesTo(arrivals, topology, k, rung);
  }

  lemma ReachesIn(ladders: seq<DelayLadder.Rung>, delay: int)
    ensures DelayLadder.Reaches(ladders, delay) <==> exists r :: r in ladders && r.duration >= delay
  {
    if DelayLadder.Reaches(ladders, delay) {
      var i :| 0 <= i < |ladders| && ladders[i].duration >= delay;
      assert ladders[i] in ladders;
    }
  }

  lemma KeysTell(ladders: seq<DelayLadder.Rung>, a: DelayLadder.Rung, b: DelayLadder.Rung)
    requires DistinctKeys(ladders) && a in ladders && b in ladders && a != b
    ensures a.routingKey != b.routingKey
  {
  }

  /** The worker publishes with the key of the rung it matched. */
  lemma RungKey(topology: Topology, now: int, row: OutboxRow)
    requires topology.ladders != [] && DelayLadder.SortedRungs(topology.ladders) && DistinctKeys(topology.ladders)
    ensures PublishingFor(now, row, topology).routingKey
      == DelayLadder.FirstFit(topology.ladders, row.timeoutAt - now).routingKey
  {
    DelayLadder.FirstFitIsLeast(topology.ladders, row.timeoutAt - now);
  }

  /** Any message of a rung's queue leaves one rung after it arrived. */
  lemma Departure(arrivals: seq<Arrival>, topology: Topology, rung: DelayLadder.Rung, i: nat)
    requires topology.ladders != [] && InArrivalOrder(arrivals) && DelayLadder.WholeMilliseconds(topology.ladders)
    requires rung in topology.ladders && i < |Routed(arrivals, topology, rung.routingKey)|
    ensures var routed := Routed(arrivals, topology, rung.routingKey);
      DelayLadder.DepartsAt(Queued(routed, topology, DelayLadder.TtlMs(rung)), i) == routed[i].at + rung.duration
  {
    hide Routed, DelayLadder.DepartsAt, PublishingFor, InArrivalOrder;
    RungQueuesAreUniform(arrivals, topology, rung);
    assert DelayLadder.TtlMs(rung) * DelayLadder.MILLISECOND == rung.duration;
    DelayLadder.UniformTtlOnTime(Queued(Routed(arrivals, topology, rung.routingKey), topology, DelayLadder.TtlMs(rung)), i);
  }

  /** The ladders used without configuration meet all of this. */
  const PRODUCTION_LADDERS := [
    DelayLadder.Rung(5 * DelayLadder.MINUTE, "delay.5m", "order.timeout.delay.5m"),
    DelayLadder.Rung(15 * DelayLadder.MINUTE, "delay.15m", "order.timeout.delay.15m"),
    DelayLadder.Rung(30 * DelayLadder.MINUTE, "delay.30m", "order.timeout.delay.30m")]

  lemma ProductionLaddersFit()
    ensures DelayLadder.SortedRungs(PRODUCTION_LADDERS) && DelayLadder.WholeMilliseconds(PRODUCTION_LADDERS)
    ensures DistinctKeys(PRODUCTION_LADDERS)
  {
    KeysDiffer();
  }

  lemma KeysDiffer()
    ensures "delay.5m" != "delay.15m" && "delay.15m" != "delay.30m" && "delay.5m" != "delay.30m"
  {
    assert |"delay.5m"| == 8 && |"delay.15m"| == 9 && |"delay.30m"| == 9;
    assert "delay.15m"[6] == '1' && "delay.30m"[6] == '3';
  }

  /** Without ladders everything goes to the delay key, with a lifetime of its own when there is a delay queue: the
      remaining whole milliseconds, at least one. */
  lemma LegacyRouting(now: int, row: OutboxRow, topology: Topology)
    requires topology.ladders == []
    ensures var message := PublishingFor(now, row, topology);
      && message.routingKey == topology.delayRoutingKey
      && (message.expirationMs.Some? <==> topology.delayQueue != "")
      && (message.expirationMs.Some? ==>
            var left, ms := row.timeoutAt - now, message.expirationMs.value;
            if left < DelayLadder.MILLISECOND then ms == 1
            else left - DelayLadder.MILLISECOND < ms * DelayLadder.MILLISECOND <= left)
  {
  }

  // ---- publishing a batch ----

  predicate InIdOrder(ids: seq<int>) {
    forall j, k :: 0 <= j < k < |ids| ==> ids[j] < ids[k]
  }

  /** The claimed rows, as the publisher holds them. */
  predicate Copies(claimed: seq<OutboxRow>, ids: seq<int>, rows: seq<OutboxRow>)
    requires InTable(ids, |rows|)
  {
    |claimed| == |ids| && forall k :: 0 <= k < |ids| ==> claimed[k] == rows[ids[k]]
  }

  predicate InTable(ids: seq<int>, n: nat) {
    forall k :: 0 <= k < |ids| ==> 0 <= ids[k] < n
  }

  /** The rows after one publication. */
  function Marked(rows: seq<OutboxRow>, i: int, fate: Fate, retryDelay: int): (r: seq<OutboxRow>)
    requires 0 <= i < |rows|
    ensures |r| == |rows| && forall j :: 0 <= j < |rows| && j != i ==> r[j] == rows[j]
  {
    match fate
    case Sent(_, at) => Published(rows, i, at)
    case Refused(_, at) =>
      Postponed(rows, i, at + CalculateExponentialBackoff(retryDelay, rows[i].attempts, MAX_OUTBOX_BACKOFF))
    case _ => rows
  }

  /** The rows after publishing the claimed ones in order; the first that is not sent and marked ends the batch. */
  function Delivered(rows: seq<OutboxRow>, ids: seq<int>, fate: int -> Fate, retryDelay: int): (r: seq<OutboxRow>)
    requires InTable(ids, |rows|)
    ensures |r| == |rows|
    decreases |ids|
  {
    if ids == [] then rows
    else
      var marked := Marked(rows, ids[0], fate(ids[0]), retryDelay);
      if fate(ids[0]).Sent? then Delivered(marked, ids[1..], fate, retryDelay) else marked
  }

  /** How many leading rows are sent and marked. */
  function SentCount(ids: seq<int>, fate: int -> Fate): (n: nat)
    ensures n <= |ids| && forall i :: i in ids[..n] ==> fate(i).Sent?
  {
    if ids == [] || !fate(ids[0]).Sent? then 0
    else
      var m := SentCount(ids[1..], fate);
      assert ids[..1 + m] == [ids[0]] + ids[1..][..m];
      1 + m
  }

  /** The effect of a batch row by row: sent rows are published, the first refused one is postponed by its back-off,
      everything behind it keeps its lease, and no other row changes. */
  lemma {:induction false} DeliveredAt(rows: seq<OutboxRow>, ids: seq<int>, fate: int -> Fate, retryDelay: int, i: int)
    requires InTable(ids, |rows|) && forall k :: 0 <= k < |ids| ==> rows[ids[k]].publishedAt.None?
    requires InIdOrder(ids) && 0 <= i < |rows|
    ensures var n := SentCount(ids, fate);
      Delivered(rows, ids, fate, retryDelay)[i] ==
        if i in ids[..n] then rows[i].(publishedAt := Some(fate(i).at))
        else if n < |ids| && i == ids[n] && fate(i).Refused? then
          rows[i].(nextAttemptAt := fate(i).at + CalculateExponentialBackoff(retryDelay, rows[i].attempts, MAX_OUTBOX_BACKOFF))
        else rows[i]
    decreases |ids|
  {
    hide CalculateExponentialBackoff;
    if ids != [] && fate(ids[0]).Sent? {
      var n, rest := SentCount(ids, fate), ids[1..];
      var first := Published(rows, ids[0], fate(ids[0]).at);
      assert forall k :: 0 <= k < |rest| ==> rest[k] == ids[k + 1];
      assert ids[..n] == [ids[0]] + rest[..n - 1];
      assert ids[0] !in rest;
      DeliveredAt(first, rest, fate, retryDelay, i);
      assert i != ids[0] ==> first[i] == rows[i];
    }
  }

  lemma BatchStep(rows: seq<OutboxRow>, ids: seq<int>, k: nat, fate: int -> Fate, retryDelay: int)
    requires InTable(ids, |rows|) && k <= |ids|
    ensures k == |ids| ==> Delivered(rows, ids[k..], fate, retryDelay) == rows && SentCount(ids[k..], fate) == 0
    ensures k < |ids| ==>
      && SentCount(ids[k..], fate) == (if fate(ids[k]).Sent? then 1 + SentCount(ids[k + 1..], fate) else 0)
      && var marked := Marked(rows, ids[k], fate(ids[k]), retryDelay);
      Delivered(rows, ids[k..], fate, retryDelay)
        == if fate(ids[k]).Sent? then Delivered(marked, ids[k + 1..], fate, retryDelay) else marked
  {
    hide CalculateExponentialBackoff;
    if k < |ids| {
      assert ids[k..][0] == ids[k] && ids[k..][1..] == ids[k + 1..];
    }
  }

  /** The messages are those of the first rows, in order. */
  predicate MessagesFor(
    published: seq<Publishing>, ids: seq<int>, fate: int -> Fate, rows: seq<OutboxRow>, topology: Topology)
    requires InTable(ids, |rows|)
  {
    |published| <= |ids|
    && forall k :: 0 <= k < |published| ==> published[k] == PublishingFor(fate(ids[k]).built, rows[ids[k]], topology)
  }

  class Worker {
    const table: OutboxTable
    const topology: Topology
    const retryDelay: int
    const batchSize: int

    constructor (table: OutboxTable, topology: Topology, retryDelay: int, batchSize: int)
      ensures this.table == table && this.topology == topology
      ensures this.retryDelay == retryDelay && this.batchSize == batchSize
    {
      this.table, this.topology, this.retryDelay, this.batchSize := table, topology, retryDelay, batchSize;
    }

    /** Claims a batch and publishes it row by row, stopping at the first row that fails. */
    method PublishBatch(locked: set<int>, now: int, fate: int -> Fate) returns (ids: seq<int>, published: seq<Publishing>)
      modifies table
      ensures ids == Pick(old(table.rows), locked, now, batchSize, DEFAULT_MAX_ATTEMPTS, 0)
      ensures InTable(ids, |old(table.rows)|)
      ensures var lease := if retryDelay <= 0 then DEFAULT_LEASE else retryDelay;
        table.rows == Delivered(Leased(old(table.rows), ids, now + lease), ids, fate, retryDelay)
      ensures |published| == if SentCount(ids, fate) < |ids| then SentCount(ids, fate) + 1 else |ids|
      ensures MessagesFor(published, ids, fate, old(table.rows), topology)
    {
      hide Pick, Leased, Delivered, SentCount, InTable, MessagesFor, Copies, InIdOrder;
      ghost var was := table.rows;
      var claimed;
      ids, claimed := Claim(locked, now);
      published := PublishAll(ids, claimed, fate);
      SameMessages(published, was, ids, now + if retryDelay <= 0 then DEFAULT_LEASE else retryDelay, fate, topology);
    }

    /** The claim: as much as the batch size allows, leased for the retry delay. */
    method Claim(locked: set<int>, now: int) returns (ids: seq<int>, claimed: seq<OutboxRow>)
      modifies table
      ensures ids == Pick(old(table.rows), locked, now, batchSize, DEFAULT_MAX_ATTEMPTS, 0)
      ensures table.rows == Leased(old(table.rows), ids, now + if retryDelay <= 0 then DEFAULT_LEASE else retryDelay)
      ensures InTable(ids, |old(table.rows)|) && InIdOrder(ids) && Copies(claimed, ids, table.rows)
    {
      hide Pick, Leased, InIdOrder;
      PickedInTable(table.rows, locked, now, batchSize);
      var lease := if retryDelay <= 0 then DEFAULT_LEASE else retryDelay;
      ids, claimed := table.ClaimPending(locked, now, batchSize, lease, DEFAULT_MAX_ATTEMPTS);
    }

    /** The loop over the claimed rows. */
    method PublishAll(ids: seq<int>, claimed: seq<OutboxRow>, fate: int -> Fate) returns (published: seq<Publishing>)
      requires InTable(ids, |table.rows|) && InIdOrder(ids) && Copies(claimed, ids, table.rows)
      modifies table
      ensures table.rows == Delivered(old(table.rows), ids, fate, retryDelay)
      ensures |published| == if SentCount(ids, fate) < |ids| then SentCount(ids, fate) + 1 else |ids|
      ensures MessagesFor(published, ids, fate, old(table.rows), topology)
    {
      hide CalculateExponentialBackoff, PublishingFor, Delivered, SentCount, Marked;
      published := [];
      assert ids[0..] == ids;
      for k := 0 to |ids|
        invariant |table.rows| == |old(table.rows)| && |published| == k
        invariant SentCount(ids, fate) == k + SentCount(ids[k..], fate)
        invariant Delivered(old(table.rows), ids, fate, retryDelay) == Delivered(table.rows, ids[k..], fate, retryDelay)
        invariant forall j :: k <= j < |ids| ==> table.rows[ids[j]] == claimed[j]
        invariant forall j :: 0 <= j < k ==> published[j] == PublishingFor(fate(ids[j]).built, claimed[j], topology)
      {
        BatchStep(table.rows, ids, k, fate, retryDelay);
        var message, sent := PublishOne(ids[k], claimed[k], fate(ids[k]));
        published := published + [message];
        if !sent {
          return;
        }
      }
      BatchStep(table.rows, ids, |ids|, fate, retryDelay);
    }

    /** One turn of the loop: publish the row, then mark it or record the failure. */
    method PublishOne(i: int, row: OutboxRow, fate: Fate) returns (message: Publishing, sent: bool)
      requires 0 <= i < |table.rows| && table.rows[i] == row
      modifies table
      ensures message == PublishingFor(fate.built, row, topology) && sent == fate.Sent?
      ensures table.rows == Marked(old(table.rows), i, fate, retryDelay)
    {
      message := BuildPublishing(fate.built, row, topology);
      sent := false;
      match fate {
        case Sent(_, at) =>
          table.MarkPublished(i, at);
          sent := true;
        case Unmarked(_) =>
        case Refused(_, at) =>
          var backoff := CalculateExponentialBackoff(retryDelay, row.attempts, MAX_OUTBOX_BACKOFF);
          table.MarkFailed(i, at + backoff);
        case Unrecorded(_) =>
      }
    }
  }

  lemma PickedInTable(rows: seq<OutboxRow>, locked: set<int>, now: int, limit: int)
    ensures var ids := Pick(rows, locked, now, limit, DEFAULT_MAX_ATTEMPTS, 0);
      InTable(ids, |rows|) && InIdOrder(ids)
  {
    hide Pick;
    PickedAreDue(rows, locked, now, limit, DEFAULT_MAX_ATTEMPTS, 0);
  }

  /** A message does not depend on the claim bookkeeping. */
  lemma SameMessages(published: seq<Publishing>, rows: seq<OutboxRow>, ids: seq<int>, until: int, fate: int -> Fate, topology: Topology)
    requires InTable(ids, |rows|)
    ensures MessagesFor(published, ids, fate, Leased(rows, ids, until), topology)
      == MessagesFor(published, ids, fate, rows, topology)
  {
    forall k | 0 <= k < |ids|
      ensures PublishingFor(fate(ids[k]).built, Leased(rows, ids, until)[ids[k]], topology)
        == PublishingFor(fate(ids[k]).built, rows[ids[k]], topology)
    {
    }
    hide PublishingFor, Leased;
  }

  // ---- a batch as a run of the pool ----

  /** The readings of a batch never go back, starting from `now`. */
  predicate Readings(ids: seq<int>, fate: int -> Fate, now: int)
    decreases |ids|
  {
    ids == [] ||
      match fate(ids[0])
      case Sent(_, at) => at >= now && Readings(ids[1..], fate, at)
      case Refused(_, at) => at >= now
      case _ => true
  }

  /** The marks of a batch, each after the clock has moved to its reading. */
  function MarkSteps(rows: seq<OutboxRow>, ids: seq<int>, fate: int -> Fate): seq<OutboxLease.Step>
    requires InTable(ids, |rows|)
    decreases |ids|
  {
    if ids == [] then []
    else
      match fate(ids[0])
      case Sent(_, at) => [OutboxLease.Tick(at), OutboxLease.Publish(ids[0], at)] + MarkSteps(rows, ids[1..], fate)
      case Refused(_, at) => [OutboxLease.Tick(at), OutboxLease.Fail(ids[0], rows[ids[0]].attempts, at)]
      case _ => []
  }

  lemma RunTwo(s: OutboxLease.Pool, a: OutboxLease.Step, b: OutboxLease.Step, rest: seq<OutboxLease.Step>)
    requires OutboxLease.Enabled(s, a) && OutboxLease.Enabled(OutboxLease.Apply(s, a), b)
    requires var two := OutboxLease.Apply(OutboxLease.Apply(s, a), b); OutboxLease.Feasible(two, rest)
    ensures var two, steps := OutboxLease.Apply(OutboxLease.Apply(s, a), b), [a, b] + rest;
      && OutboxLease.Feasible(s, steps) && OutboxLease.Run(s, steps) == OutboxLease.Run(two, rest)
      && (OutboxLease.TimelyRun(two, rest) && OutboxLease.Timely(s, a) && OutboxLease.Timely(OutboxLease.Apply(s, a), b)
          ==> OutboxLease.TimelyRun(s, steps))
  {
    hide OutboxLease.Apply, OutboxLease.Enabled, OutboxLease.Timely;
    var steps := [a, b] + rest;
    assert steps[1..] == [b] + rest && steps[1..][1..] == rest;
  }

  /** Publishing a claimed batch, while other publishers hold other rows, is a run of the pool whose failure records are
      timely. When others step in between, each record is covered by FailureWithinLeaseIsTimely. */
  lemma {:induction false} BatchIsTimelyRun(s: OutboxLease.Pool, ids: seq<int>, fate: int -> Fate)
    requires OutboxLease.PoolInv(s) && Readings(ids, fate, s.now)
    requires forall k :: 0 <= k < |ids| ==> ids[k] !in OutboxLease.LockedRows(s)
    requires InTable(ids, |s.rows|) && forall k :: 0 <= k < |ids| ==> s.rows[ids[k]].attempts >= 1
    ensures var steps := MarkSteps(s.rows, ids, fate);
      && OutboxLease.Feasible(s, steps) && OutboxLease.TimelyRun(s, steps)
      && OutboxLease.Run(s, steps).rows == Delivered(s.rows, ids, fate, s.retryDelay)
    decreases |ids|
  {
    hide OutboxLease.Claims, CalculateExponentialBackoff, OutboxLease.DisjointClaims, OutboxLease.ClaimInv;
    if ids != [] && (fate(ids[0]).Sent? || fate(ids[0]).Refused?) {
      var i, at := ids[0], fate(ids[0]).at;
      var tick := OutboxLease.Tick(at);
      var ticked := OutboxLease.Apply(s, tick);
      assert OutboxLease.LockedRows(ticked) == OutboxLease.LockedRows(s);
      OutboxLease.StepKeeps(s, tick);
      var mark := if fate(i).Sent? then OutboxLease.Publish(i, at) else OutboxLease.Fail(i, s.rows[i].attempts, at);
      var marked := OutboxLease.Apply(ticked, mark);
      OutboxLease.StepKeeps(ticked, mark);
      assert OutboxLease.LockedRows(marked) == OutboxLease.LockedRows(s);
      if fate(i).Sent? {
        BatchIsTimelyRun(marked, ids[1..], fate);
        SameMarks(s.rows, marked.rows, ids[1..], fate);
        RunTwo(s, tick, mark, MarkSteps(s.rows, ids[1..], fate));
      } else {
        RunTwo(s, tick, mark, []);
        assert [tick, mark] + [] == [tick, mark];
      }
    }
  }

  /** The marks depend on the attempt counts only. */
  lemma {:induction false} SameMarks(a: seq<OutboxRow>, b: seq<OutboxRow>, ids: seq<int>, fate: int -> Fate)
    requires |a| == |b| && forall i :: 0 <= i < |a| ==> a[i].attempts == b[i].attempts
    requires InTable(ids, |a|)
    ensures MarkSteps(a, ids, fate) == MarkSteps(b, ids, fate)
    decreases |ids|
  {
    if ids != [] {
      SameMarks(a, b, ids[1..], fate);
    }
  }

  // ---- consuming ----

  /** A delivery: the order id, when the body decodes to a valid event, and the death count of its headers;
      `at` and `link` are the clock and the state of Redis while it is handled. */
  datatype Delivery = Delivery(orderId: Option<int>, deaths: int, at: int, link: StockGuard.Link)

  datatype Verdict = Acked | DeadLettered | Requeued

  const MAX_CANCEL_RETRIES := 3

  /** The timeout has nothing left to do for this order: it left Pending, or no event of it was ever recorded. */
  predicate Closed(db: Tables.Db, o: int) {
    o !in db.outbox || !Protocol.HasStatus(db, o, Pending)
  }

  predicate NotEarly(db: Tables.Db, o: int, now: int) {
    o in db.outbox ==> db.outbox[o].timeoutAt <= now
  }

  /** Closed orders stay closed. */
  ghost predicate StaysClosed(db: Tables.Db, after: Tables.Db) {
    forall o :: Closed(db, o) ==> Closed(after, o)
  }

  lemma CancelCloses(db: Tables.Db, u: int, o: int, now: int)
    ensures var (after, out) := Tables.CancelTx(db, u, o, now, true);
      && StaysClosed(db, after) && after.outbox == db.outbox
      && (out == Tables.Moved ==> Closed(after, o))
      && after.orders.Keys == db.orders.Keys && (forall q :: q in db.orders && q != o ==> after.orders[q] == db.orders[q])
  {
    hide Tables.LinesOf, Items.Aggregate, Tables.LockedCovers, Tables.Released, Tables.RollbackLogs;
  }

  /** The delivery is a timeout event of order `o` whose deadline has passed. */
  predicate DueFor(db: Tables.Db, d: Delivery, o: int) {
    d.orderId == Some(o) && OrderService.Overdue(db, o, d.at)
  }

  /** What one delivery does to the tables: events due for a Pending order cancel it at the time of handling;
      nothing else changes. */
  ghost predicate Handled(db: Tables.Db, after: Tables.Db, d: Delivery) {
    if exists o :: DueFor(db, d, o) && Protocol.HasStatus(db, o, Pending)
    then Cancels(db, after, d.orderId.value, d.at, true)
    else after == db
  }

  predicate ValidDeliveries(deliveries: seq<Delivery>) {
    forall k :: 0 <= k < |deliveries| && deliveries[k].orderId.Some? ==> deliveries[k].orderId.value > 0
  }

  /** Every recorded event belongs to an order. */
  lemma OrderOfEvent(db: Tables.Db, o: int, timeout: int)
    requires Inv(db, timeout)
    ensures o in db.outbox <==> o in db.orders
  {
    hide StockInv, LedgerInv, KeysInv, OrderInv;
  }

  /** What the consume loop does with one delivery. */
  method Handle(service: OrderService.Service, d: Delivery) returns (verdict: Verdict)
    requires d.orderId.Some? ==> d.orderId.value > 0
    modifies service.sql, service.guard
    ensures StaysClosed(old(service.sql.State()), service.sql.State())
    ensures verdict.Acked? ==> d.orderId.Some? && Closed(service.sql.State(), d.orderId.value)
    ensures verdict.Acked? ==> NotEarly(old(service.sql.State()), d.orderId.value, d.at)
    ensures !verdict.Acked? ==>
      service.sql.State() == old(service.sql.State()) && service.guard.State() == old(service.guard.State())
    ensures !verdict.Acked? ==> (verdict.DeadLettered? <==> d.orderId.None? || d.deaths >= MAX_CANCEL_RETRIES)
    ensures d.orderId.Some? && NotEarly(old(service.sql.State()), d.orderId.value, d.at) && Closed(old(service.sql.State()), d.orderId.value) ==>
      verdict.Acked? && service.sql.State() == old(service.sql.State())
    ensures service.sql.outbox == old(service.sql.outbox)
    ensures Inv(old(service.sql.State()), service.timeout) ==>
      && Inv(service.sql.State(), service.timeout)
      && Handled(old(service.sql.State()), service.sql.State(), d)
      && (forall o :: DueFor(old(service.sql.State()), d, o) ==> verdict.Acked?)
      && (forall o :: DueFor(old(service.sql.State()), d, o) && Protocol.HasStatus(service.sql.State(), o, Cancelled) ==>
            OrderService.Restored(old(service.guard.State()), service.guard.State(), o, d.link))
  {
    hide Tables.CancelTx, Protocol.Apply, OrderService.Settle, Protocol.Enabled, Inv, Cancels, StockGuard.GivesBack;
    if d.orderId.None? {
      return DeadLettered;
    }
    var o := d.orderId.value;
    ghost var db := service.sql.State();
    if o in db.orders {
      CancelCloses(db, db.orders[o].userId, o, d.at);
      if Inv(db, service.timeout) {
        CancelKeeps(db, db.orders[o].userId, o, d.at, true, service.timeout);
      }
    }
    if Inv(db, service.timeout) {
      OrderOfEvent(db, o, service.timeout);
    }
    var reply := service.CancelExpiredOrder(o, d.at, d.link);
    if reply != OrderService.Done && reply != OrderService.Ignored {
      return if d.deaths >= MAX_CANCEL_RETRIES then DeadLettered else Requeued;
    }
    return Acked;
  }

  /** Delivery `k` is the first that is due for the order. */
  predicate FirstDue(db: Tables.Db, ds: seq<Delivery>, o: int, k: int) {
    0 <= k < |ds| && DueFor(db, ds[k], o) && forall j :: 0 <= j < k ==> !DueFor(db, ds[j], o)
  }

  predicate NoneDue(db: Tables.Db, ds: seq<Delivery>, o: int) {
    forall j :: 0 <= j < |ds| ==> !DueFor(db, ds[j], o)
  }

  /** A Pending order is cancelled by its first due delivery, at that time; without one, or past Pending, it is untouched. */
  ghost predicate OrderAfter(db: Tables.Db, after: Tables.Db, ds: seq<Delivery>, o: int)
    requires o in db.orders
  {
    && o in after.orders
    && (NoneDue(db, ds, o) || !db.orders[o].status.Pending? ==> after.orders[o] == db.orders[o])
    && (db.orders[o].status.Pending? ==> forall k :: FirstDue(db, ds, o, k) ==>
          after.orders[o] == db.orders[o].(status := Cancelled, cancelledAt := Some(ds[k].at)))
  }

  lemma {:induction false} SomeFirst(db: Tables.Db, ds: seq<Delivery>, o: int)
    requires !NoneDue(db, ds, o)
    ensures exists k :: FirstDue(db, ds, o, k)
  {
    if !NoneDue(db, ds[..|ds| - 1], o) {
      SomeFirst(db, ds[..|ds| - 1], o);
      var k :| FirstDue(db, ds[..|ds| - 1], o, k);
      assert FirstDue(db, ds, o, k);
    } else {
      assert forall j :: 0 <= j < |ds| - 1 ==> ds[..|ds| - 1][j] == ds[j];
      assert FirstDue(db, ds, o, |ds| - 1);
    }
  }

  lemma OrderAfterStep(db: Tables.Db, mid: Tables.Db, after: Tables.Db, ds: seq<Delivery>, d: Delivery, o: int)
    requires o in db.orders && OrderAfter(db, mid, ds, o) && mid.outbox == db.outbox && Handled(mid, after, d)
    ensures OrderAfter(db, after, ds + [d], o)
  {
    var all := ds + [d];
    assert all[|ds|] == d && forall j :: 0 <= j < |ds| ==> all[j] == ds[j];
    hide Tables.LinesOf, StockMoves, LogsAdded;
    assert DueFor(mid, d, o) <==> DueFor(db, d, o);
    if db.orders[o].status.Pending? && !NoneDue(db, ds, o) {
      SomeFirst(db, ds, o);
      var k :| FirstDue(db, ds, o, k);
      assert FirstDue(db, all, o, k) && after.orders[o] == mid.orders[o];
    }
  }

  /** The consume loop over any deliveries, repeated, early or undecodable ones included. */
  method Consume(service: OrderService.Service, deliveries: seq<Delivery>) returns (verdicts: seq<Verdict>)
    requires ValidDeliveries(deliveries)
    modifies service.sql, service.guard
    ensures |verdicts| == |deliveries|
    ensures StaysClosed(old(service.sql.State()), service.sql.State())
    ensures forall k :: 0 <= k < |verdicts| && verdicts[k].Acked? ==>
      deliveries[k].orderId.Some? && Closed(service.sql.State(), deliveries[k].orderId.value)
    ensures Inv(old(service.sql.State()), service.timeout) ==>
      && Inv(service.sql.State(), service.timeout)
      && service.sql.State().orders.Keys == old(service.sql.State()).orders.Keys
      && (forall o :: o in old(service.sql.State()).orders ==>
            OrderAfter(old(service.sql.State()), service.sql.State(), deliveries, o))
      && (forall k, o :: 0 <= k < |deliveries| && DueFor(old(service.sql.State()), deliveries[k], o) ==> verdicts[k].Acked?)
  {
    hide Closed, Inv, Handled, OrderAfter, DueFor;
    ghost var db := service.sql.State();
    verdicts := [];
    forall o | o in db.orders ensures OrderAfter(db, db, [], o) {
      NoDeliveries(db, o);
    }
    assert deliveries[..0] == [];
    for k := 0 to |deliveries|
      invariant |verdicts| == k
      invariant StaysClosed(old(service.sql.State()), service.sql.State())
      invariant forall j :: 0 <= j < k && verdicts[j].Acked? ==>
        deliveries[j].orderId.Some? && Closed(service.sql.State(), deliveries[j].orderId.value)
      invariant service.sql.outbox == db.outbox
      invariant Inv(db, service.timeout) ==>
        && Inv(service.sql.State(), service.timeout) && service.sql.State().orders.Keys == db.orders.Keys
        && (forall o :: o in db.orders ==> OrderAfter(db, service.sql.State(), deliveries[..k], o))
        && (forall j, o :: 0 <= j < k && DueFor(db, deliveries[j], o) ==> verdicts[j].Acked?)
    {
      ghost var mid := service.sql.State();
      assert deliveries[..k + 1] == deliveries[..k] + [deliveries[k]];
      var verdict := Handle(service, deliveries[k]);
      verdicts := verdicts + [verdict];
      if Inv(db, service.timeout) {
        forall o ensures DueFor(mid, deliveries[k], o) <==> DueFor(db, deliveries[k], o) {
          SameEvents(db, mid, deliveries[k], o);
        }
        SameOrders(mid, service.sql.State(), deliveries[k]);
        forall o | o in db.orders ensures OrderAfter(db, service.sql.State(), deliveries[..k + 1], o) {
          OrderAfterStep(db, mid, service.sql.State(), deliveries[..k], deliveries[k], o);
        }
      }
    }
    assert deliveries[..|deliveries|] == deliveries;
  }

  lemma NoDeliveries(db: Tables.Db, o: int)
    requires o in db.orders
    ensures OrderAfter(db, db, [], o)
  {
  }

  lemma SameEvents(db: Tables.Db, mid: Tables.Db, d: Delivery, o: int)
    requires mid.outbox == db.outbox
    ensures DueFor(mid, d, o) <==> DueFor(db, d, o)
  {
  }

  lemma SameOrders(db: Tables.Db, after: Tables.Db, d: Delivery)
    requires Handled(db, after, d)
    ensures after.orders.Keys == db.orders.Keys
  {
    hide StockMoves, LogsAdded, Tables.LinesOf;
  }
}
