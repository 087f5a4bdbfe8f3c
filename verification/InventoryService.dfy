/** Supplying stock: the service calls, and a repair of the counters as a run of the protocol. */
module InventoryService {
  import opened Domain
  import opened Tables
  import opened StockGuard
  import opened Protocol
  import opened ProtocolSafety
  import opened Drift
  import opened Sums
  import opened Reconcile
  import opened Effects
  import OrderService

  class Service {
    const sql: MySql
    const guard: Guard
    const timeout: int

    constructor (sql: MySql, guard: Guard, timeout: int)
      ensures this.sql == sql && this.guard == guard && this.timeout == timeout
    {
      this.sql, this.guard, this.timeout := sql, guard, timeout;
    }

    /** Commits first, then seeds the counter. */
    method InitInventory(p: int, q: int, now: int, link: Link) returns (out: SupplyOutcome)
      requires p > 0
      modifies sql, guard
      ensures out == InitTx(old(sql.State()), p, q).1
      ensures !out.Supplied? ==> sql.State() == old(sql.State()) && guard.State() == old(guard.State())
      ensures out.Supplied? ==>
        var s := OrderService.Alone(old(sql.State()), old(guard.State()), now, timeout);
        OrderService.SameStores(OrderService.Settle(Apply(s, InitStock(0, p, q)), link), sql, guard)
      ensures out.Supplied? <==> q >= 0 && p in old(sql.products) && p !in old(sql.inventory)
      ensures out.Supplied? ==>
        && sql.State() == old(sql.State()).(
             inventory := old(sql.inventory)[p := Inventory(q, 0)],
             logs := old(sql.logs) + [StockLog(p, 0, q, q, InitialStock)])
        && guard.reservations == old(guard.reservations)
        && guard.available == if link == Down then old(guard.available) else old(guard.available)[p := q]
    {
      hide OrderService.Settle, Apply, InitTx, Enabled;
      InitExact(sql.State(), p, q);
      ghost var s := OrderService.Alone(sql.State(), guard.State(), now, timeout);
      SupplyAlone(s, p, q, link);
      out := sql.InitInventory(p, q);
      if out.Supplied? {
        guard.SetInventoryStock(p, q, link);
      }
    }

    /** Commits first, then increments the counter, or writes the new quantity where there is none. */
    method AddInventory(p: int, q: int, now: int, link: Link) returns (out: SupplyOutcome)
      requires p > 0
      modifies sql, guard
      ensures out == AddTx(old(sql.State()), p, q).1
      ensures !out.Supplied? ==> sql.State() == old(sql.State()) && guard.State() == old(guard.State())
      ensures out.Supplied? && out.after < 0 ==>
        sql.State() == AddTx(old(sql.State()), p, q).0 && guard.State() == old(guard.State())
      ensures out.Supplied? && out.after >= 0 ==>
        var s := OrderService.Alone(old(sql.State()), old(guard.State()), now, timeout);
        OrderService.SameStores(OrderService.Settle(Apply(s, AddStock(0, p, q)), link), sql, guard)
      ensures out.Supplied? <==> q > 0 && p in old(sql.inventory) && p in old(sql.products)
      ensures out.Supplied? ==>
        var row, counters := old(sql.inventory)[p], old(guard.available);
        && sql.State() == old(sql.State()).(
             inventory := old(sql.inventory)[p := Inventory(row.stock + q, row.locked)],
             logs := old(sql.logs) + [StockLog(p, row.stock, q, row.stock + q, ManualAdd)])
        && guard.reservations == old(guard.reservations)
        && guard.available ==
             if link == Down || row.stock + q < 0 then counters
             else if p in counters then counters[p := counters[p] + q] else counters[p := row.stock + q]
    {
      hide OrderService.Settle, Apply, AddTx, Enabled;
      AddExact(sql.State(), p, q);
      ghost var s := OrderService.Alone(sql.State(), guard.State(), now, timeout);
      SupplyAlone(s, p, q, link);
      var locks;
      out, locks := sql.AddInventory(p, q);
      if out.Supplied? {
        guard.IncrInventoryStock(p, q, out.after, link);
      }
    }
  }

  lemma SupplyAlone(s: Sys, p: int, q: int, link: Link)
    requires s.calls == map[] && p > 0
    ensures var (after, out) := InitTx(s.db, p, q);
      && (!out.Supplied? ==> after == s.db)
      && (out.Supplied? ==>
          && q >= 0
          && var end := OrderService.Settle(Apply(s, InitStock(0, p, q)), link);
          end.db == after && end.redis == if link != Down then SetStock(s.redis, p, q) else s.redis)
    ensures var (after, out) := AddTx(s.db, p, q);
      && (!out.Supplied? ==> after == s.db)
      && (out.Supplied? ==>
          && q > 0 && out.after == StockOf(s.db.inventory, p) + q
          && var end := OrderService.Settle(Apply(s, AddStock(0, p, q)), link);
          end.db == after && end.redis == if link != Down then Increase(s.redis, p, q, out.after) else s.redis)
  {
    hide SetStock, Increase;
  }

  // ---- the repair loop as a run ----

  /** One read and one write per listed product, nothing in between. */
  function FixSteps(ids: seq<int>): seq<Step> {
    if ids == [] then [] else [ReadStock(0, ids[0]), RunRedis(0, false)] + FixSteps(ids[1..])
  }

  function StocksOf(inv: map<int, Inventory>, ids: seq<int>): map<int, int> {
    map p | p in inv && p in ids :: inv[p].stock
  }

  lemma FixOne(s: Sys, p: int)
    requires 0 !in s.calls && p in s.db.inventory
    ensures Enabled(s, ReadStock(0, p)) && Enabled(Apply(s, ReadStock(0, p)), RunRedis(0, false))
    ensures Apply(Apply(s, ReadStock(0, p)), RunRedis(0, false))
      == s.(redis := SetStock(s.redis, p, s.db.inventory[p].stock))
  {
    assert s.calls[0 := Overwriting(p, s.db.inventory[p].stock)] - {0} == s.calls;
  }

  lemma RunTwo(s: Sys, a: Step, b: Step, rest: seq<Step>)
    requires Enabled(s, a) && Enabled(Apply(s, a), b) && Feasible(Apply(Apply(s, a), b), rest)
    ensures Feasible(s, [a, b] + rest) && Run(s, [a, b] + rest) == Run(Apply(Apply(s, a), b), rest)
  {
    hide Apply, Enabled;
    var steps := [a, b] + rest;
    assert steps[1..] == [b] + rest && steps[1..][1..] == rest;
  }

  lemma StocksMerge(available: map<int, int>, inv: map<int, Inventory>, ids: seq<int>)
    requires ids != [] && ids[0] in inv
    ensures available[ids[0] := inv[ids[0]].stock] + StocksOf(inv, ids[1..]) == available + StocksOf(inv, ids)
  {
    assert forall p :: p in ids <==> p == ids[0] || p in ids[1..];
  }

  lemma {:induction false} FixRun(s: Sys, ids: seq<int>)
    requires 0 !in s.calls && forall p :: p in ids ==> p in s.db.inventory
    ensures Feasible(s, FixSteps(ids))
    ensures Run(s, FixSteps(ids))
      == s.(redis := Redis(s.redis.available + StocksOf(s.db.inventory, ids), s.redis.reservations))
    decreases |ids|
  {
    hide Apply, Enabled, Feasible, Run, StocksOf;
    if ids == [] {
      NoFix(s);
    } else {
      FixOne(s, ids[0]);
      var fixed := s.(redis := SetStock(s.redis, ids[0], s.db.inventory[ids[0]].stock));
      FixRun(fixed, ids[1..]);
      RunTwo(s, ReadStock(0, ids[0]), RunRedis(0, false), FixSteps(ids[1..]));
      StocksMerge(s.redis.available, s.db.inventory, ids);
    }
  }

  lemma NoFix(s: Sys)
    ensures Feasible(s, FixSteps([])) && Run(s, FixSteps([])) == s
    ensures s.redis.available + StocksOf(s.db.inventory, []) == s.redis.available
  {
  }

  function IdsOf(items: seq<Difference>): (ids: seq<int>)
    ensures forall p :: p in ids <==> Listed(items, p)
  {
    var ids := seq(|items|, i requires 0 <= i < |items| => items[i].productId);
    assert forall i :: 0 <= i < |items| ==> ids[i] == items[i].productId;
    ids
  }

  /** Drift moves with the counter alone when only counters change. */
  lemma DriftOfCounter(s: Sys, end: Sys, p: int)
    requires end.db == s.db && end.increased == s.increased && end.preDeducted == s.preDeducted
    requires end.redis.reservations == s.redis.reservations && p in end.redis.available
    ensures DriftOf(end, p)
      == end.redis.available[p] - StockOf(s.db.inventory, p) + Sum(IdleQty(s, p)) + Unapplied(s, p) - Sum(BypassQty(s, p))
  {
    hide Sum;
    assert IdleQty(end, p) == IdleQty(s, p) && BypassQty(end, p) == BypassQty(s, p);
  }

  /** A repair of everything the report lists, with nothing in between, makes every counter equal the stock and leaves
      as drift exactly what is outstanding, so none when no reservation of an order that is not live, no bypassing
      order and no unapplied addition concerns the product. */
  lemma RepairZeroesDrift(s: Sys, report: Report, p: int)
    requires 0 !in s.calls && IsReport(s.db.inventory, s.redis.available, report)
    requires p in s.db.inventory && p > 0
    ensures var steps := FixSteps(IdsOf(report.items));
      && Feasible(s, steps)
      && var end := Run(s, steps);
      && end.db == s.db && end.redis.reservations == s.redis.reservations
      && p in end.redis.available && end.redis.available[p] == s.db.inventory[p].stock
      && DriftOf(end, p) == Sum(IdleQty(s, p)) + Unapplied(s, p) - Sum(BypassQty(s, p))
  {
    hide Feasible, Run, FixSteps, Sum, Unapplied, IdleQty, BypassQty, DriftOf, IdsOf, Listed;
    var ids := IdsOf(report.items);
    FixRun(s, ids);
    DriftOfCounter(s, Run(s, FixSteps(ids)), p);
  }
}
