/** Comparing the Redis counters with MySQL stock, and writing MySQL stock back. */
module Reconcile {
  import opened Domain
  import opened Items
  import opened Tables
  import opened StockGuard
  import opened Sums

  /** One line of the report; no counter means the key is missing, otherwise the two quantities differ. */
  datatype Difference = Difference(productId: int, stock: int, counter: Option<int>)

  datatype Report = Report(checkedCount: nat, diffCount: nat, items: seq<Difference>)

  datatype Outcome =
    | ReadFailed
    | NothingToFix(report: Report)
    | Reported(report: Report)       // repair not enabled
    | NoWriter(report: Report)       // repair enabled, but nothing to write with
    | Repaired(report: Report)

  predicate Differs(inv: map<int, Inventory>, available: map<int, int>, p: int) {
    p in inv && p > 0 && Lookup(available, p) != Some(inv[p].stock)
  }

  function Entry(inv: map<int, Inventory>, available: map<int, int>, p: int): Difference {
    Difference(p, StockOf(inv, p), Lookup(available, p))
  }

  predicate Increasing(items: seq<Difference>) {
    forall i, j :: 0 <= i < j < |items| ==> items[i].productId < items[j].productId
  }

  predicate Listed(items: seq<Difference>, p: int) {
    exists i :: 0 <= i < |items| && items[i].productId == p
  }

  /** Sound and complete: a product is listed exactly when it differs, once, in product order, with both quantities. */
  ghost predicate IsReport(inv: map<int, Inventory>, available: map<int, int>, report: Report) {
    && report.checkedCount == |set p | p in inv && p > 0|
    && report.diffCount == |report.items|
    && Increasing(report.items)
    && (forall p :: Listed(report.items, p) <==> Differs(inv, available, p))
    && (forall d :: d in report.items ==> d == Entry(inv, available, d.productId))
  }

  function ProductsOf(items: seq<Difference>): (r: set<int>)
    ensures forall p :: p in r <==> Listed(items, p)
  {
    set i | 0 <= i < |items| :: items[i].productId
  }

  lemma {:induction false} IncreasingCount(items: seq<Difference>)
    requires Increasing(items)
    ensures |ProductsOf(items)| == |items|
  {
    if items == [] {
      assert ProductsOf(items) == {};
    } else {
      var init, last := items[..|items| - 1], items[|items| - 1];
      assert Increasing(init) && !Listed(init, last.productId);
      assert items == init + [last];
      hide Increasing, Listed, ProductsOf;
      IncreasingCount(init);
      ProductsSnoc(init, last);
      assert last.productId !in ProductsOf(init);
    }
  }

  lemma ProductsSnoc(items: seq<Difference>, d: Difference)
    ensures ProductsOf(items + [d]) == ProductsOf(items) + {d.productId}
  {
    forall p ensures p in ProductsOf(items + [d]) <==> p in ProductsOf(items) || p == d.productId {
      ListedSnoc(items, d, p);
    }
  }

  /** The difference count is the number of products whose key is missing or wrong. */
  lemma DiffCountExact(inv: map<int, Inventory>, available: map<int, int>, report: Report)
    requires IsReport(inv, available, report)
    ensures report.diffCount == |set p | p in inv && Differs(inv, available, p)|
    ensures report.diffCount == 0 <==> forall p :: p in inv && p > 0 ==> p in available && available[p] == inv[p].stock
  {
    IncreasingCount(report.items);
    assert ProductsOf(report.items) == set p | p in inv && Differs(inv, available, p);
    if report.diffCount == 0 {
      forall p | p in inv && p > 0 ensures p in available && available[p] == inv[p].stock {
        assert !Listed(report.items, p);
      }
    } else {
      assert Listed(report.items, report.items[0].productId);
    }
  }

  /** Whether the repair of `p` can succeed: it is written when not negative and its command gets through. */
  predicate Repairable(inv: map<int, Inventory>, reached: set<int>, p: int) {
    StockOf(inv, p) >= 0 && p in reached
  }

  /** The counters a repair writes. */
  function Repairs(inv: map<int, Inventory>, available: map<int, int>, reached: set<int>): map<int, int> {
    map p | p in inv && Differs(inv, available, p) && Repairable(inv, reached, p) :: inv[p].stock
  }

  /** What the repair loop writes, whatever list it is given: each reached command in turn, negative stock skipped. */
  function FixWrites(items: seq<Difference>, reached: set<int>): map<int, int> {
    if items == [] then map[]
    else
      var writes, last := FixWrites(items[..|items| - 1], reached), items[|items| - 1];
      if last.productId in reached && last.productId > 0 && last.stock >= 0 then writes[last.productId := last.stock] else writes
  }

  lemma FixStep(items: seq<Difference>, reached: set<int>, k: nat)
    requires k < |items|
    ensures var d := items[k];
      FixWrites(items[..k + 1], reached)
      == if d.productId in reached && d.productId > 0 && d.stock >= 0
         then FixWrites(items[..k], reached)[d.productId := d.stock] else FixWrites(items[..k], reached)
  {
    assert items[..k + 1][..k] == items[..k];
  }

  lemma {:induction false} FixWritesAt(items: seq<Difference>, reached: set<int>, p: int)
    requires Increasing(items)
    ensures p in FixWrites(items, reached) ==> Listed(items, p) && p in reached && p > 0
    ensures forall d :: d in items && d.productId == p ==>
      (p in FixWrites(items, reached) <==> p in reached && p > 0 && d.stock >= 0)
      && (p in FixWrites(items, reached) ==> FixWrites(items, reached)[p] == d.stock)
  {
    if items != [] {
      var init, last := items[..|items| - 1], items[|items| - 1];
      FixWritesAt(init, reached, p);
      assert items == init + [last];
      ListedSnoc(init, last, p);
      if last.productId == p {
        assert !Listed(init, p);
      }
      forall d | d in items && d.productId == p ensures d == last || d in init {
      }
    }
  }

  /** A fresh report is repaired completely: every listed product that can be written is. */
  lemma FixWritesRepairs(inv: map<int, Inventory>, available: map<int, int>, reached: set<int>, report: Report)
    requires IsReport(inv, available, report)
    ensures FixWrites(report.items, reached) == Repairs(inv, available, reached)
  {
    hide FixWrites;
    var fixed, repairs := FixWrites(report.items, reached), Repairs(inv, available, reached);
    forall p ensures p in fixed <==> p in repairs
             ensures p in fixed ==> fixed[p] == repairs[p]
    {
      FixWritesAt(report.items, reached, p);
      if Listed(report.items, p) {
        var i :| 0 <= i < |report.items| && report.items[i].productId == p;
        assert report.items[i] in report.items;
      }
    }
  }

  /** With nothing in between, a second report lists exactly what the repair could not write,
      so it is empty if and only if every listed product was repairable. */
  lemma SecondReport(inv: map<int, Inventory>, available: map<int, int>, reached: set<int>, first: Report, second: Report)
    requires IsReport(inv, available, first)
    requires IsReport(inv, available + Repairs(inv, available, reached), second)
    ensures forall p :: Listed(second.items, p) <==> Listed(first.items, p) && !Repairable(inv, reached, p)
    ensures second.diffCount == 0 <==> forall p :: Listed(first.items, p) ==> Repairable(inv, reached, p)
  {
    var after := available + Repairs(inv, available, reached);
    forall p ensures Differs(inv, after, p) <==> Differs(inv, available, p) && !Repairable(inv, reached, p) {
    }
    if second.diffCount != 0 {
      assert Listed(second.items, second.items[0].productId);
    }
  }

  function WritableStocks(inv: map<int, Inventory>): map<int, int> {
    map p | p in inv && p > 0 && inv[p].stock >= 0 :: inv[p].stock
  }

  lemma WritesOfAll(inv: map<int, Inventory>, rows: seq<Item>)
    requires Ascending(rows)
    requires forall p :: Mentions(rows, p) <==> p in inv
    requires forall x :: x in rows ==> x.productId in inv && x.quantity == inv[x.productId].stock
    ensures Writes(rows) == WritableStocks(inv)
  {
    hide Writes, QtyOf;
    forall p ensures p in Writes(rows) <==> p in WritableStocks(inv)
             ensures p in Writes(rows) ==> Writes(rows)[p] == inv[p].stock
    {
      WritesAt(rows, p);
      if p in inv {
        var i :| 0 <= i < |rows| && rows[i].productId == p;
        QtyOfLine(rows, i);
        assert rows[i] in rows;
      }
    }
  }

  /** Whether the counters of every stocked product can be read. */
  predicate Readable(inv: map<int, Inventory>, available: map<int, int>, link: Link, garbled: set<int>) {
    (forall p :: p in inv ==> p <= 0)
    || (link == Up && forall p :: p in inv && p > 0 && p in available ==> p !in garbled)
  }

  /** A healthy Redis can always be read, and so can any Redis when nothing is stocked. */
  lemma HealthyReads(inv: map<int, Inventory>, available: map<int, int>, link: Link, garbled: set<int>)
    ensures Readable(inv, available, Up, {})
    ensures Readable(map[], available, link, garbled)
    ensures link != Up && (exists p :: p in inv && p > 0) ==> !Readable(inv, available, link, garbled)
    ensures (exists p :: p in inv && p > 0 && p in available && p in garbled) ==> !Readable(inv, available, link, garbled)
  {
  }

  /** Every counter is as before or now equals its stock. */
  ghost predicate SomeWritten(before: map<int, int>, after: map<int, int>, stocks: map<int, int>) {
    forall p :: Lookup(after, p) == Lookup(before, p) || (p in stocks && Lookup(after, p) == Some(stocks[p]))
  }

  /** What a rebuild from the rows leaves behind, in terms of the stock MySQL answered. */
  lemma RebuildWrites(inv: map<int, Inventory>, rows: seq<Item>, available: map<int, int>, link: Link, executed: nat)
    requires Ascending(rows)
    requires forall p :: Mentions(rows, p) <==> p in inv
    requires forall x :: x in rows ==> x.productId in inv && x.quantity == inv[x.productId].stock
    ensures |Pipeline(rows)| == |WritableStocks(inv)|
    ensures var after := available + Writes(Sent(Pipeline(rows), link, executed));
      && SomeWritten(available, after, WritableStocks(inv))
      && (link == Down ==> after == available)
      && (link == Up ==> after == available + WritableStocks(inv))
  {
    hide Writes, Pipeline, WritableStocks, Mentions, SomeWritten;
    WritesOfAll(inv, rows);
    PipelineWrites(rows);
    PipelineCount(rows);
    PartWrites(rows, Sent(Pipeline(rows), link, executed));
    SomeOf(available, Writes(Sent(Pipeline(rows), link, executed)), WritableStocks(inv));
    if link == Down {
      NoWrites();
    }
  }

  lemma SomeOf(available: map<int, int>, part: map<int, int>, stocks: map<int, int>)
    requires forall p :: p in part ==> p in stocks && part[p] == stocks[p]
    ensures SomeWritten(available, available + part, stocks)
  {
  }

  lemma NoWrites()
    ensures Writes([]) == map[]
  {
  }

  /** MySQL's answer is a parameter, None when the query fails: its tables may change before the Redis commands run. */
  class Reconciler {
    const guard: Guard

    constructor (guard: Guard)
      ensures this.guard == guard
    {
      this.guard := guard;
    }

    /** The inventory rows of the answer by ascending product id. */
    method ListAllInventories(inv: map<int, Inventory>) returns (rows: seq<Item>)
      ensures Ascending(rows)
      ensures forall p :: Mentions(rows, p) <==> p in inv
      ensures forall x :: x in rows ==> x.productId in inv && x.quantity == inv[x.productId].stock
    {
      var stocks := map p | p in inv :: inv[p].stock;
      rows := ListByProduct(stocks);
    }

    /** Writes every stock quantity that is not negative; other counters keep their values. When the reply is lost, only
        counters of such products can have changed, each to its stock. */
    method RebuildRedisInventoryStock(answer: Option<map<int, Inventory>>, link: Link, executed: nat)
      returns (count: Option<nat>)
      modifies guard
      ensures guard.reservations == old(guard.reservations)
      ensures answer.None? || link == Down ==> guard.available == old(guard.available)
      ensures answer.Some? && link == Up ==>
        guard.available == old(guard.available) + WritableStocks(answer.value) && count == Some(|WritableStocks(answer.value)|)
      ensures answer.Some? ==> SomeWritten(old(guard.available), guard.available, WritableStocks(answer.value))
      ensures count.Some? <==> answer.Some? && (link == Up || |WritableStocks(answer.value)| == 0)
    {
      if answer.None? {
        return None;
      }
      var rows := ListAllInventories(answer.value);
      RebuildWrites(answer.value, rows, guard.available, link, executed);
      hide Writes, Pipeline, SomeWritten, WritableStocks, Ascending, Mentions, Sent;
      count := guard.RebuildInventoryStocks(rows, link, executed);
    }

    /** The positive product ids of the rows. */
    method CheckedIds(rows: seq<Item>) returns (ids: seq<int>)
      requires Ascending(rows)
      ensures forall p :: p in ids <==> p > 0 && Mentions(rows, p)
      ensures |ids| == |set p | p in ids|
    {
      ids := [];
      for k := 0 to |rows|
        invariant forall p :: p in ids <==> p > 0 && Mentions(rows[..k], p)
        invariant |ids| == |set p | p in ids|
      {
        var q := rows[k].productId;
        assert rows[..k + 1] == rows[..k] + [rows[k]];
        forall p ensures Mentions(rows[..k + 1], p) <==> Mentions(rows[..k], p) || p == q {
          MentionsSnoc(rows[..k], rows[k], p);
        }
        if q > 0 {
          assert q !in ids;
          assert (set p | p in ids + [q]) == (set p | p in ids) + {q};
          ids := ids + [q];
        }
      }
      assert rows[..|rows|] == rows;
    }

    /** The comparison: of the rows MySQL answered with the counters as they are now. */
    method ReconcileRedisInventoryStock(answer: Option<map<int, Inventory>>, link: Link, garbled: set<int>)
      returns (report: Option<Report>)
      ensures report.Some? <==> answer.Some? && Readable(answer.value, guard.available, link, garbled)
      ensures report.Some? ==> IsReport(answer.value, guard.available, report.value)
    {
      if answer.None? {
        return None;
      }
      var rows := ListAllInventories(answer.value);
      var ids := CheckedIds(rows);
      assert forall p :: p in ids <==> p in answer.value && p > 0;
      assert (set p | p in ids) == (set p | p in answer.value && p > 0);
      var counters := guard.GetInventoryStocks(ids, link, garbled);
      if counters.None? {
        return None;
      }
      var items := Compare(rows, answer.value, counters.value);
      return Some(Report(|ids|, |items|, items));
    }

    /** The comparison loop. */
    method Compare(rows: seq<Item>, ghost inv: map<int, Inventory>, counters: map<int, Option<int>>) returns (items: seq<Difference>)
      requires Ascending(rows) && forall p :: Mentions(rows, p) <==> p in inv
      requires forall x :: x in rows ==> x.productId in inv && x.quantity == inv[x.productId].stock
      requires forall p :: p in inv && p > 0 ==> p in counters && counters[p] == Lookup(guard.available, p)
      ensures Increasing(items)
      ensures forall p :: Listed(items, p) <==> Differs(inv, guard.available, p)
      ensures forall d :: d in items ==> d == Entry(inv, guard.available, d.productId)
    {
      ghost var available := guard.available;
      items := [];
      assert forall p :: Differs(inv, available, p) ==> Mentions(rows, p);
      hide Differs, Entry, Ascending;
      for k := 0 to |rows|
        invariant Increasing(items)
        invariant forall d :: d in items ==> d == Entry(inv, available, d.productId)
        invariant forall p :: Listed(items, p) <==> Mentions(rows[..k], p) && Differs(inv, available, p)
      {
        assert rows[k] in rows;
        items := CompareRow(rows, k, inv, available, items, counters);
      }
      assert rows[..|rows|] == rows;
    }

    /** One turn of it. */
    method CompareRow(rows: seq<Item>, k: nat, ghost inv: map<int, Inventory>, ghost available: map<int, int>,
                      items: seq<Difference>, counters: map<int, Option<int>>) returns (more: seq<Difference>)
      requires Ascending(rows) && k < |rows| && Increasing(items)
      requires rows[k].productId in inv && rows[k].quantity == inv[rows[k].productId].stock
      requires rows[k].productId > 0 ==>
        rows[k].productId in counters && counters[rows[k].productId] == Lookup(available, rows[k].productId)
      requires forall d :: d in items ==> d == Entry(inv, available, d.productId)
      requires forall p :: Listed(items, p) <==> Mentions(rows[..k], p) && Differs(inv, available, p)
      ensures Increasing(more)
      ensures forall d :: d in more ==> d == Entry(inv, available, d.productId)
      ensures forall p :: Listed(more, p) <==> Mentions(rows[..k + 1], p) && Differs(inv, available, p)
    {
      var x := rows[k];
      more := items;
      if x.productId > 0 {
        var counter := counters[x.productId];
        if counter.None? {
          more := items + [Difference(x.productId, x.quantity, None)];
        } else if counter.value != x.quantity {
          more := items + [Difference(x.productId, x.quantity, counter)];
        }
      }
      forall d | d in items ensures d.productId < x.productId {
        var i :| 0 <= i < |items| && items[i] == d;
        assert Listed(items, d.productId);
      }
      assert rows[..k + 1] == rows[..k] + [x];
      forall p ensures Mentions(rows[..k + 1], p) <==> Mentions(rows[..k], p) || p == x.productId {
        MentionsSnoc(rows[..k], x, p);
      }
      assert !Mentions(rows[..k], x.productId);
      if more != items {
        forall p ensures Listed(more, p) <==> Listed(items, p) || p == x.productId {
          ListedSnoc(items, more[|items|], p);
        }
      }
    }

    /** Writes the listed quantity of each listed product, whatever has happened since the report was made; `reached` are
        the products whose command gets through. */
    method AutoFixRedisInventoryStock(items: seq<Difference>, reached: set<int>)
      modifies guard
      ensures guard.State() == Redis(old(guard.available) + FixWrites(items, reached), old(guard.reservations))
    {
      ghost var was := guard.available;
      for k := 0 to |items|
        invariant guard.available == was + FixWrites(items[..k], reached)
        invariant guard.reservations == old(guard.reservations)
      {
        var d := items[k];
        FixStep(items, reached, k);
        WriteOne(was, FixWrites(items[..k], reached), d.productId, d.stock);
        guard.SetInventoryStock(d.productId, d.stock, if d.productId in reached then Up else Down);
      }
      assert items[..|items|] == items;
    }

    /** One turn of the reconcile worker. */
    method RunOnce(
      answer: Option<map<int, Inventory>>, link: Link, garbled: set<int>, autoFix: bool, hasWriter: bool, reached: set<int>)
      returns (outcome: Outcome)
      modifies guard
      ensures !outcome.ReadFailed? <==> answer.Some? && Readable(answer.value, old(guard.available), link, garbled)
      ensures !outcome.ReadFailed? ==> IsReport(answer.value, old(guard.available), outcome.report)
      ensures !outcome.ReadFailed? ==> (outcome.NothingToFix? <==> outcome.report.diffCount == 0)
      ensures outcome.Reported? ==> !autoFix
      ensures outcome.NoWriter? ==> autoFix && !hasWriter
      ensures outcome.Repaired? ==> autoFix && hasWriter
      ensures outcome.Repaired? ==>
        guard.State() == Redis(old(guard.available) + Repairs(answer.value, old(guard.available), reached), old(guard.reservations))
      ensures !outcome.Repaired? ==> guard.State() == old(guard.State())
    {
      var reconciled := ReconcileRedisInventoryStock(answer, link, garbled);
      if reconciled.None? {
        return ReadFailed;
      }
      var report := reconciled.value;
      if report.diffCount > 0 {
        if autoFix {
          if !hasWriter {
            return NoWriter(report);
          }
          FixWritesRepairs(answer.value, guard.available, reached, report);
          AutoFixRedisInventoryStock(report.items, reached);
          return Repaired(report);
        }
        return Reported(report);
      }
      return NothingToFix(report);
    }
  }

  /** Executing some of the commands writes some of the counters. */
  lemma {:induction false} PartWrites(rows: seq<Item>, part: seq<Item>)
    requires Ascending(rows) && part <= Pipeline(rows)
    ensures forall p :: p in Writes(part) ==> p in Writes(rows) && Writes(part)[p] == Writes(rows)[p]
  {
    if part != [] {
      var n := |part| - 1;
      PartWrites(rows, part[..n]);
      assert part[n] in Pipeline(rows);
      PipelineMembers(rows, part[n]);
      var i :| 0 <= i < |rows| && rows[i] == part[n];
      WritesAt(rows, part[n].productId);
      QtyOfLine(rows, i);
    }
  }

  lemma ListedSnoc(items: seq<Difference>, d: Difference, p: int)
    ensures Listed(items + [d], p) <==> Listed(items, p) || p == d.productId
  {
    var all := items + [d];
    assert all[|items|] == d;
    if Listed(items, p) {
      var i :| 0 <= i < |items| && items[i].productId == p;
      assert all[i].productId == p;
    }
  }
}
