/** Reading the stock ledger: running balance, supply, and the entries that belong to one order. */
module Ledger {
  import opened Domain
  import opened Items
  import opened Tables

  /** Stock after the last log of product `p`; 0 before its first log. */
  function Balance(logs: seq<StockLog>, p: int): int {
    if logs == [] then 0
    else
      var last := logs[|logs| - 1];
      if last.productId == p then last.after else Balance(logs[..|logs| - 1], p)
  }

  /** Every log starts where the previous log of its product ended, and moves by its own change. */
  predicate Chain(logs: seq<StockLog>) {
    logs == []
    || (var n := |logs| - 1;
        var last := logs[n];
        && Chain(logs[..n])
        && last.before == Balance(logs[..n], last.productId)
        && last.after == last.before + last.change)
  }

  /** Quantity that entered for product `p`: initial stock plus manual additions. */
  function Supply(logs: seq<StockLog>, p: int): int {
    if logs == [] then 0
    else
      var last := logs[|logs| - 1];
      Supply(logs[..|logs| - 1], p)
        + (if last.productId == p && (last.reason.InitialStock? || last.reason.ManualAdd?) then last.change else 0)
  }

  /** Manual additions alone. */
  function Added(logs: seq<StockLog>, p: int): int {
    if logs == [] then 0
    else
      var last := logs[|logs| - 1];
      Added(logs[..|logs| - 1], p)
        + (if last.productId == p && last.reason.ManualAdd? then last.change else 0)
  }

  /** What the deduct logs of an order took, in log order. */
  function Deductions(logs: seq<StockLog>, o: int): seq<Item> {
    if logs == [] then []
    else
      var last := logs[|logs| - 1];
      Deductions(logs[..|logs| - 1], o)
        + (if last.reason == OrderDeduct(o) then [Item(last.productId, -last.change)] else [])
  }

  /** What the rollback logs of an order gave back, in log order. */
  function Rollbacks(logs: seq<StockLog>, o: int): seq<Item> {
    if logs == [] then []
    else
      var last := logs[|logs| - 1];
      Rollbacks(logs[..|logs| - 1], o)
        + (if last.reason.OrderRollback? && last.reason.orderId == o then [Item(last.productId, last.change)] else [])
  }

  /** Whether a timeout rollback of the order is on record. */
  predicate TimeoutRollback(logs: seq<StockLog>, o: int) {
    exists i :: 0 <= i < |logs| && logs[i].reason == OrderRollback(o, true)
  }

  /** The ledger agrees with the stock column. */
  ghost predicate Agrees(logs: seq<StockLog>, inv: map<int, Inventory>) {
    Chain(logs) && forall p :: Balance(logs, p) == StockOf(inv, p)
  }

  // ---- appending one log ----

  lemma SnocBalance(logs: seq<StockLog>, x: StockLog)
    ensures forall p :: Balance(logs + [x], p) == if x.productId == p then x.after else Balance(logs, p)
    ensures Chain(logs + [x]) <==>
      Chain(logs) && x.before == Balance(logs, x.productId) && x.after == x.before + x.change
  {
    assert (logs + [x])[..|logs|] == logs;
  }

  lemma SnocSupply(logs: seq<StockLog>, x: StockLog)
    ensures forall p ::
      Supply(logs + [x], p)
      == Supply(logs, p) + (if x.productId == p && (x.reason.InitialStock? || x.reason.ManualAdd?) then x.change else 0)
  {
    assert (logs + [x])[..|logs|] == logs;
  }

  lemma SnocAdded(logs: seq<StockLog>, x: StockLog)
    ensures forall p ::
      Added(logs + [x], p) == Added(logs, p) + (if x.productId == p && x.reason.ManualAdd? then x.change else 0)
  {
    assert (logs + [x])[..|logs|] == logs;
  }

  lemma SnocEntries(logs: seq<StockLog>, x: StockLog)
    ensures forall o ::
      Deductions(logs + [x], o)
      == Deductions(logs, o) + (if x.reason == OrderDeduct(o) then [Item(x.productId, -x.change)] else [])
    ensures forall o ::
      Rollbacks(logs + [x], o)
      == Rollbacks(logs, o) + (if x.reason.OrderRollback? && x.reason.orderId == o then [Item(x.productId, x.change)] else [])
  {
    assert (logs + [x])[..|logs|] == logs;
  }

  /** A deduct batch continues the chain, lowers each balance by the ordered quantity, and records exactly its lines. */
  ghost predicate DeductionsAppended(logs: seq<StockLog>, inv: map<int, Inventory>, o: int, items: seq<Item>) {
    var more := logs + DeductLogs(inv, o, items);
    && Chain(more)
    && (forall p :: Balance(more, p) == StockOf(inv, p) - QtyOf(items, p))
    && (forall p :: Supply(more, p) == Supply(logs, p))
    && (forall p :: Added(more, p) == Added(logs, p))
    && (forall q :: Deductions(more, q) == Deductions(logs, q) + (if q == o then items else []))
    && (forall q :: Rollbacks(more, q) == Rollbacks(logs, q))
    && (forall q :: TimeoutRollback(more, q) <==> TimeoutRollback(logs, q))
  }

  lemma {:induction false} AppendDeductions(logs: seq<StockLog>, inv: map<int, Inventory>, o: int, items: seq<Item>)
    requires Agrees(logs, inv)
    ensures DeductionsAppended(logs, inv, o, items)
  {
    if items == [] {
      assert logs + DeductLogs(inv, o, items) == logs;
    } else {
      AppendDeductions(logs, inv, o, items[..|items| - 1]);
      AppendOneDeduction(logs, inv, o, items[..|items| - 1], items[|items| - 1]);
      assert items == items[..|items| - 1] + [items[|items| - 1]];
    }
  }

  lemma DeductLogsSnoc(inv: map<int, Inventory>, o: int, init: seq<Item>, x: Item)
    ensures var before := StockOf(inv, x.productId) - QtyOf(init, x.productId);
      DeductLogs(inv, o, init + [x]) == DeductLogs(inv, o, init) + [StockLog(x.productId, before, -x.quantity, before - x.quantity, OrderDeduct(o))]
  {
    assert (init + [x])[..|init|] == init;
  }

  lemma AppendOneDeduction(logs: seq<StockLog>, inv: map<int, Inventory>, o: int, init: seq<Item>, x: Item)
    requires DeductionsAppended(logs, inv, o, init)
    ensures DeductionsAppended(logs, inv, o, init + [x])
  {
    hide QtyOf, Balance, Chain, Supply, Added, Deductions, Rollbacks, DeductLogs, TimeoutRollback;
    var mid := logs + DeductLogs(inv, o, init);
    var before := StockOf(inv, x.productId) - QtyOf(init, x.productId);
    var log := StockLog(x.productId, before, -x.quantity, before - x.quantity, OrderDeduct(o));
    DeductLogsSnoc(inv, o, init, x);
    assert logs + DeductLogs(inv, o, init + [x]) == mid + [log];
    forall p ensures QtyOf(init + [x], p) == QtyOf(init, p) + (if x.productId == p then x.quantity else 0) {
      QtyOfSnoc(init, x, p);
    }
    SnocBalance(mid, log);
    SnocSupply(mid, log);
    SnocAdded(mid, log);
    SnocEntries(mid, log);
    SnocTimeout(mid, log);
    forall q ensures Deductions(mid + [log], q) == Deductions(logs, q) + (if q == o then init + [x] else []) {
    }
  }

  lemma SnocTimeout(logs: seq<StockLog>, x: StockLog)
    ensures forall q :: TimeoutRollback(logs + [x], q) <==> TimeoutRollback(logs, q) || x.reason == OrderRollback(q, true)
  {
    forall q ensures TimeoutRollback(logs + [x], q) <==> TimeoutRollback(logs, q) || x.reason == OrderRollback(q, true) {
      if TimeoutRollback(logs, q) {
        var i :| 0 <= i < |logs| && logs[i].reason == OrderRollback(q, true);
        assert (logs + [x])[i].reason == OrderRollback(q, true);
      }
      if x.reason == OrderRollback(q, true) {
        assert (logs + [x])[|logs|].reason == OrderRollback(q, true);
      }
      if TimeoutRollback(logs + [x], q) && x.reason != OrderRollback(q, true) {
        var i :| 0 <= i < |logs| + 1 && (logs + [x])[i].reason == OrderRollback(q, true);
        assert logs[i].reason == OrderRollback(q, true);
      }
    }
  }

  /** A rollback batch likewise, raising balances. */
  ghost predicate RollbacksAppended(
    logs: seq<StockLog>, inv: map<int, Inventory>, o: int, items: seq<Item>, byTimeout: bool)
  {
    var more := logs + RollbackLogs(inv, o, items, byTimeout);
    && Chain(more)
    && (forall p :: Balance(more, p) == StockOf(inv, p) + QtyOf(items, p))
    && (forall p :: Supply(more, p) == Supply(logs, p))
    && (forall p :: Added(more, p) == Added(logs, p))
    && (forall q :: Deductions(more, q) == Deductions(logs, q))
    && (forall q :: Rollbacks(more, q) == Rollbacks(logs, q) + (if q == o then items else []))
    && (forall q :: TimeoutRollback(more, q) <==> TimeoutRollback(logs, q) || (byTimeout && q == o && items != []))
  }

  lemma {:induction false} AppendRollbacks(
    logs: seq<StockLog>, inv: map<int, Inventory>, o: int, items: seq<Item>, byTimeout: bool)
    requires Agrees(logs, inv)
    ensures RollbacksAppended(logs, inv, o, items, byTimeout)
  {
    if items == [] {
      assert logs + RollbackLogs(inv, o, items, byTimeout) == logs;
    } else {
      AppendRollbacks(logs, inv, o, items[..|items| - 1], byTimeout);
      AppendOneRollback(logs, inv, o, items[..|items| - 1], items[|items| - 1], byTimeout);
      assert items == items[..|items| - 1] + [items[|items| - 1]];
    }
  }

  lemma RollbackLogsSnoc(inv: map<int, Inventory>, o: int, init: seq<Item>, x: Item, byTimeout: bool)
    ensures var before := StockOf(inv, x.productId) + QtyOf(init, x.productId);
      RollbackLogs(inv, o, init + [x], byTimeout) == RollbackLogs(inv, o, init, byTimeout) + [StockLog(x.productId, before, x.quantity, before + x.quantity, OrderRollback(o, byTimeout))]
  {
    assert (init + [x])[..|init|] == init;
  }

  lemma AppendOneRollback(
    logs: seq<StockLog>, inv: map<int, Inventory>, o: int, init: seq<Item>, x: Item, byTimeout: bool)
    requires RollbacksAppended(logs, inv, o, init, byTimeout)
    ensures RollbacksAppended(logs, inv, o, init + [x], byTimeout)
  {
    hide QtyOf, Balance, Chain, Supply, Added, Deductions, Rollbacks, RollbackLogs, TimeoutRollback;
    var mid := logs + RollbackLogs(inv, o, init, byTimeout);
    var before := StockOf(inv, x.productId) + QtyOf(init, x.productId);
    var log := StockLog(x.productId, before, x.quantity, before + x.quantity, OrderRollback(o, byTimeout));
    RollbackLogsSnoc(inv, o, init, x, byTimeout);
    assert logs + RollbackLogs(inv, o, init + [x], byTimeout) == mid + [log];
    forall p ensures QtyOf(init + [x], p) == QtyOf(init, p) + (if x.productId == p then x.quantity else 0) {
      QtyOfSnoc(init, x, p);
    }
    SnocBalance(mid, log);
    SnocSupply(mid, log);
    SnocAdded(mid, log);
    SnocEntries(mid, log);
    SnocTimeout(mid, log);
    forall q ensures Rollbacks(mid + [log], q) == Rollbacks(logs, q) + (if q == o then init + [x] else []) {
    }
  }
}
