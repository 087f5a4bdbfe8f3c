/** What each transaction decides and changes, field by field. */
module Effects {
  import opened Domain
  import opened Items
  import opened Sums
  import opened Tables
  import opened Integrity

  // ---- shapes of change ----

  predicate Known(inv: map<int, Inventory>, lines: seq<Item>) {
    forall k :: 0 <= k < |lines| ==> lines[k].productId in inv
  }

  /** The row of each line moves by its quantity, times the signs; every other row stays. */
  ghost predicate StockMoves(
    inv: map<int, Inventory>, after: map<int, Inventory>, lines: seq<Item>, stockSign: int, lockedSign: int)
  {
    && after.Keys == inv.Keys && Known(inv, lines)
    && (forall k :: 0 <= k < |lines| ==>
          var row, q := inv[lines[k].productId], lines[k].quantity;
          after[lines[k].productId] == Inventory(row.stock + stockSign * q, row.locked + lockedSign * q))
    && (forall p :: p in inv && !Mentions(lines, p) ==> after[p] == inv[p])
  }

  /** One log per line, in line order, from the stock before to the stock after. */
  predicate LogsAdded(
    logs: seq<StockLog>, after: seq<StockLog>, inv: map<int, Inventory>, lines: seq<Item>, sign: int, reason: Reason)
  {
    && Known(inv, lines) && |after| == |logs| + |lines| && logs <= after
    && forall k :: 0 <= k < |lines| ==>
         var before, change := inv[lines[k].productId].stock, sign * lines[k].quantity;
         after[|logs| + k] == StockLog(lines[k].productId, before, change, before + change, reason)
  }

  /** Price times quantity of each line, by position. */
  ghost function Amounts(products: map<int, Product>, items: seq<Item>): map<int, int>
    requires forall k :: 0 <= k < |items| ==> items[k].productId in products
  {
    map k: int | 0 <= k < |items| :: products[items[k].productId].priceFen * items[k].quantity
  }

  predicate Sellable(db: Db, x: Item) {
    x.productId in db.products && db.products[x.productId].onSale
  }

  predicate InStock(db: Db, x: Item) {
    x.productId in db.inventory && db.inventory[x.productId].stock >= x.quantity
  }

  predicate AllSellable(db: Db, items: seq<Item>) {
    forall k :: 0 <= k < |items| ==> Sellable(db, items[k])
  }

  predicate AllInStock(db: Db, items: seq<Item>) {
    forall k :: 0 <= k < |items| ==> InStock(db, items[k])
  }

  /** Everything a successful creation writes, and nothing else. */
  ghost predicate Creates(db: Db, after: Db, a: CreateArgs) {
    var o := a.orderId;
    && AllSellable(db, a.items) && Known(db.inventory, a.items)
    && after.products == db.products
    && after.orders
       == db.orders[o := Order(a.userId, Sum(Amounts(db.products, a.items)), Pending, a.now, None, None, None)]
    && o in after.items && after.items == db.items[o := after.items[o]] && |after.items[o]| == |a.items|
    && (forall k :: 0 <= k < |a.items| ==>
          var x, price := a.items[k], db.products[a.items[k].productId].priceFen;
          after.items[o][k] == OrderItem(x.productId, price, x.quantity, price * x.quantity))
    && after.keys == db.keys[(a.userId, a.key) := KeyRecord(a.items, Some(o), AlreadyCreated)]
    && StockMoves(db.inventory, after.inventory, a.items, -1, 1)
    && LogsAdded(db.logs, after.logs, db.inventory, a.items, -1, OrderDeduct(o))
    && after.outbox == db.outbox[o := OutboxRow(o, a.userId, a.now + a.timeout, None, 0, a.now)]
  }

  /** Cancelling: the order is Cancelled at `now`, each of its lines is back in stock and logged, nothing else changes. */
  ghost predicate Cancels(db: Db, after: Db, o: int, now: int, byTimeout: bool) {
    && o in db.orders
    && after == db.(
         orders := db.orders[o := db.orders[o].(status := Cancelled, cancelledAt := Some(now))],
         inventory := after.inventory, logs := after.logs)
    && StockMoves(db.inventory, after.inventory, LinesOf(db, o), 1, -1)
    && LogsAdded(db.logs, after.logs, db.inventory, LinesOf(db, o), 1, OrderRollback(o, byTimeout))
  }

  /** Paying: the order is Paid at `now`, each of its lines leaves the locked quantity, nothing else changes. */
  ghost predicate Pays(db: Db, after: Db, o: int, now: int) {
    && o in db.orders
    && after == db.(
         orders := db.orders[o := db.orders[o].(status := Paid, paidAt := Some(now))],
         inventory := after.inventory)
    && StockMoves(db.inventory, after.inventory, LinesOf(db, o), 0, -1)
  }

  /** Finishing: the order is Finished at `now`, nothing else changes. */
  predicate Finishes(db: Db, after: Db, o: int, now: int) {
    && o in db.orders
    && after == db.(orders := db.orders[o := db.orders[o].(status := Finished, completedAt := Some(now))])
  }

  // ---- what a creation decides ----

  /** The first line that fails the sale check fails it so. */
  predicate FirstUnsellable(db: Db, items: seq<Item>, offSale: bool) {
    exists k :: 0 <= k < |items| && (forall j :: 0 <= j < k ==> Sellable(db, items[j])) && !Sellable(db, items[k])
      && (items[k].productId in db.products <==> offSale)
  }

  predicate FirstShort(db: Db, items: seq<Item>, short: bool) {
    exists k :: 0 <= k < |items| && (forall j :: 0 <= j < k ==> InStock(db, items[j])) && !InStock(db, items[k])
      && (items[k].productId in db.inventory <==> short)
  }

  /** The verdict on the first use of a key, from the tables alone. */
  ghost predicate Decides(db: Db, a: CreateArgs, out: CreateOutcome) {
    var sellable, stocked := AllSellable(db, a.items), AllInStock(db, a.items);
    && (out == Created <==> sellable && stocked && a.orderId !in db.orders && a.orderId !in db.outbox)
    && (out == ProductNotFound <==> FirstUnsellable(db, a.items, false))
    && (out == ProductOffSale <==> FirstUnsellable(db, a.items, true))
    && (out == InventoryNotFound <==> sellable && a.orderId !in db.orders && FirstShort(db, a.items, false))
    && (out == InsufficientStock <==> sellable && a.orderId !in db.orders && FirstShort(db, a.items, true))
    && (out == StorageError <==> sellable && (a.orderId in db.orders || (stocked && a.orderId in db.outbox)))
  }

  lemma {:induction false} ProductFaultExact(db: Db, items: seq<Item>, k: nat)
    requires k <= |items| && (forall j :: 0 <= j < k ==> Sellable(db, items[j]))
    ensures ProductFault(db.products, items, k) == None <==> AllSellable(db, items)
    ensures ProductFault(db.products, items, k) == Some(ProductNotFound) <==> FirstUnsellable(db, items, false)
    ensures ProductFault(db.products, items, k) == Some(ProductOffSale) <==> FirstUnsellable(db, items, true)
    decreases |items| - k
  {
    if k < |items| {
      if Sellable(db, items[k]) {
        ProductFaultExact(db, items, k + 1);
      } else {
        OnlyFirst(db, items, k);
      }
    }
  }

  /** There is one first line that fails. */
  lemma OnlyFirst(db: Db, items: seq<Item>, k: nat)
    requires k < |items| && (forall j :: 0 <= j < k ==> Sellable(db, items[j])) && !Sellable(db, items[k])
    ensures !AllSellable(db, items)
    ensures forall offSale :: FirstUnsellable(db, items, offSale) <==> (items[k].productId in db.products <==> offSale)
  {
    forall i | 0 <= i < |items| && (forall j :: 0 <= j < i ==> Sellable(db, items[j])) && !Sellable(db, items[i]) ensures i == k {
    }
  }

  lemma {:induction false} StockFaultExact(db: Db, items: seq<Item>, k: nat)
    requires k <= |items| && (forall j :: 0 <= j < k ==> InStock(db, items[j])) && Distinct(items)
    ensures StockFault(db.inventory, items, k) == None <==> AllInStock(db, items)
    ensures StockFault(db.inventory, items, k) == Some(InventoryNotFound) <==> FirstShort(db, items, false)
    ensures StockFault(db.inventory, items, k) == Some(InsufficientStock) <==> FirstShort(db, items, true)
    decreases |items| - k
  {
    hide QtyOf;
    if k < |items| {
      QtyOfBefore(items, k);
      QtyOfPrefix(items, k, items[k].productId);
      if InStock(db, items[k]) {
        StockFaultExact(db, items, k + 1);
      } else {
        OnlyFirstShort(db, items, k);
      }
    }
  }

  lemma OnlyFirstShort(db: Db, items: seq<Item>, k: nat)
    requires k < |items| && (forall j :: 0 <= j < k ==> InStock(db, items[j])) && !InStock(db, items[k])
    ensures !AllInStock(db, items)
    ensures forall short :: FirstShort(db, items, short) <==> (items[k].productId in db.inventory <==> short)
  {
    forall i | 0 <= i < |items| && (forall j :: 0 <= j < i ==> InStock(db, items[j])) && !InStock(db, items[i]) ensures i == k {
    }
  }

  /** For an unused key the transaction creates exactly when every product is on sale, every line is covered by stock and
      the order id is unused, and otherwise reports the first thing wrong. */
  lemma VerdictExact(db: Db, a: CreateArgs)
    requires (a.userId, a.key) !in db.keys && Distinct(a.items)
    ensures Decides(db, a, CreateTx(db, a).1)
    ensures CreateTx(db, a).1 != Created ==> CreateTx(db, a).0 == db
  {
    hide AllSellable, AllInStock, FirstUnsellable, FirstShort, ProductFault, StockFault, Distinct, Written;
    ProductFaultExact(db, a.items, 0);
    StockFaultExact(db, a.items, 0);
    FaultKinds(db, a.items);
  }

  lemma FaultKinds(db: Db, items: seq<Item>)
    ensures AllSellable(db, items) ==> !FirstUnsellable(db, items, false) && !FirstUnsellable(db, items, true)
    ensures AllInStock(db, items) ==> !FirstShort(db, items, false) && !FirstShort(db, items, true)
  {
  }

  // ---- what the transactions change ----

  lemma {:induction false} TotalIsSum(products: map<int, Product>, items: seq<Item>)
    requires forall k :: 0 <= k < |items| ==> items[k].productId in products
    ensures TotalFen(products, items) == Sum(Amounts(products, items))
  {
    if items == [] {
      SumZero(Amounts(products, items));
    } else {
      var n := |items| - 1;
      TotalIsSum(products, items[..n]);
      var last := products[items[n].productId].priceFen * items[n].quantity;
      assert Amounts(products, items) == Amounts(products, items[..n])[n := last];
      SumUpdate(Amounts(products, items[..n]), n, last);
    }
  }

  lemma {:induction false} RowsAt(products: map<int, Product>, items: seq<Item>, k: nat)
    requires k < |items| && items[k].productId in products
    ensures |Rows(products, items)| == |items|
    ensures var x, price := items[k], products[items[k].productId].priceFen;
      Rows(products, items)[k] == OrderItem(x.productId, price, x.quantity, price * x.quantity)
  {
    var n := |items| - 1;
    assert |Rows(products, items[..n])| == n by { RowCount(products, items[..n]); }
    if k < n {
      RowsAt(products, items[..n], k);
    }
  }

  lemma RowCount(products: map<int, Product>, items: seq<Item>)
    ensures |Rows(products, items)| == |items|
  {
    assert |Lines(Rows(products, items))| == |items|;
  }

  lemma {:induction false} DeductLogAt(inv: map<int, Inventory>, o: int, items: seq<Item>, k: nat)
    requires Distinct(items) && k < |items|
    ensures var x, before := items[k], StockOf(inv, items[k].productId);
      DeductLogs(inv, o, items)[k] == StockLog(x.productId, before, -x.quantity, before - x.quantity, OrderDeduct(o))
  {
    hide QtyOf;
    var n := |items| - 1;
    if k < n {
      DeductLogAt(inv, o, items[..n], k);
    } else {
      QtyOfBefore(items, n);
    }
  }

  lemma {:induction false} RollbackLogAt(inv: map<int, Inventory>, o: int, items: seq<Item>, byTimeout: bool, k: nat)
    requires Distinct(items) && k < |items|
    ensures var x, before := items[k], StockOf(inv, items[k].productId);
      RollbackLogs(inv, o, items, byTimeout)[k]
      == StockLog(x.productId, before, x.quantity, before + x.quantity, OrderRollback(o, byTimeout))
  {
    hide QtyOf;
    var n := |items| - 1;
    if k < n {
      RollbackLogAt(inv, o, items[..n], byTimeout, k);
    } else {
      QtyOfBefore(items, n);
    }
  }

  lemma StockExact(inv: map<int, Inventory>, lines: seq<Item>)
    requires Distinct(lines) && Known(inv, lines)
    ensures StockMoves(inv, Reserved(inv, lines), lines, -1, 1)
    ensures StockMoves(inv, Released(inv, lines), lines, 1, -1)
    ensures StockMoves(inv, Consumed(inv, lines), lines, 0, -1)
  {
    hide QtyOf;
    forall k | 0 <= k < |lines| ensures QtyOf(lines, lines[k].productId) == lines[k].quantity {
      QtyOfLine(lines, k);
    }
    forall p | !Mentions(lines, p) ensures QtyOf(lines, p) == 0 {
      QtyOfAbsent(lines, p);
    }
    hide Distinct, Mentions;
  }

  lemma LogsExact(logs: seq<StockLog>, inv: map<int, Inventory>, o: int, lines: seq<Item>, byTimeout: bool)
    requires Distinct(lines) && Known(inv, lines)
    ensures LogsAdded(logs, logs + DeductLogs(inv, o, lines), inv, lines, -1, OrderDeduct(o))
    ensures LogsAdded(logs, logs + RollbackLogs(inv, o, lines, byTimeout), inv, lines, 1, OrderRollback(o, byTimeout))
  {
    hide DeductLogs, RollbackLogs;
    forall k | 0 <= k < |lines|
      ensures DeductLogs(inv, o, lines)[k]
        == StockLog(lines[k].productId, inv[lines[k].productId].stock, -lines[k].quantity,
                    inv[lines[k].productId].stock - lines[k].quantity, OrderDeduct(o))
      ensures RollbackLogs(inv, o, lines, byTimeout)[k]
        == StockLog(lines[k].productId, inv[lines[k].productId].stock, lines[k].quantity,
                    inv[lines[k].productId].stock + lines[k].quantity, OrderRollback(o, byTimeout))
    {
      DeductLogAt(inv, o, lines, k);
      RollbackLogAt(inv, o, lines, byTimeout, k);
    }
    hide Distinct;
  }

  /** A creation writes exactly the order with its prices, its rows, stock, logs, key and outbox row. */
  lemma CreateExact(db: Db, a: CreateArgs)
    requires Distinct(a.items) && CreateTx(db, a).1 == Created
    ensures (a.userId, a.key) !in db.keys && Creates(db, CreateTx(db, a).0, a)
  {
    hide ProductFault, StockFault, Rows, DeductLogs, Reserved, TotalFen, StockMoves, LogsAdded, Sum, Amounts, AllInStock,
      FirstUnsellable, FirstShort, Distinct;
    assert (a.userId, a.key) !in db.keys;
    VerdictExact(db, a);
    StockKnown(db, a.items);
    TotalIsSum(db.products, a.items);
    RowCount(db.products, a.items);
    forall k | 0 <= k < |a.items|
      ensures var x, price := a.items[k], db.products[a.items[k].productId].priceFen;
        Rows(db.products, a.items)[k] == OrderItem(x.productId, price, x.quantity, price * x.quantity)
    {
      RowsAt(db.products, a.items, k);
    }
    StockExact(db.inventory, a.items);
    LogsExact(db.logs, db.inventory, a.orderId, a.items, false);
  }

  lemma StockKnown(db: Db, items: seq<Item>)
    requires AllInStock(db, items)
    ensures Known(db.inventory, items)
  {
  }

  /** On a consistent database, what the transaction answers and writes. */
  lemma TransactionExact(db: Db, a: CreateArgs, timeout: int)
    requires Inv(db, timeout) && Distinct(a.items)
    ensures var (after, out) := CreateTx(db, a);
      var key := (a.userId, a.key);
      var created := key !in db.keys && AllSellable(db, a.items) && AllInStock(db, a.items) && a.orderId !in db.orders;
      && (out == Created <==> created)
      && (if created then Creates(db, after, a) else after == db)
      && (key in db.keys ==>
            && db.keys[key].orderId.Some?
            && out == if db.keys[key].digest == a.items then Replayed(db.keys[key].orderId.value) else KeyConflict)
      && (key !in db.keys ==> Decides(db, a, out) && !out.Replayed?)
  {
    hide StockInv, LedgerInv, KeysInv, OrdersInv, FreshVerdict, ReplayOutcome, Written, AllSellable, AllInStock, Creates,
      FirstUnsellable, FirstShort, Distinct;
    assert db.outbox.Keys == db.orders.Keys by { OutboxPerOrder(db, timeout); }
    if (a.userId, a.key) in db.keys {
      ReplayIsExact(db, a, timeout);
    } else {
      VerdictExact(db, a);
    }
    if CreateTx(db, a).1 == Created {
      CreateExact(db, a);
    }
  }

  lemma OutboxPerOrder(db: Db, timeout: int)
    requires OrdersInv(db, timeout)
    ensures db.outbox.Keys == db.orders.Keys
  {
    hide OrderInv;
  }

  lemma OrderLines(db: Db, o: int, timeout: int)
    requires OrdersInv(db, timeout) && o in db.orders
    ensures Distinct(LinesOf(db, o)) && Known(db.inventory, LinesOf(db, o))
  {
    hide LinesOf, Priced, SubtotalSum, Bound;
    assert OrderInv(db, o, timeout);
  }

  /** On a consistent database a user's Pending order is cancelled exactly, and nothing else is. */
  lemma CancelExact(db: Db, u: int, o: int, now: int, byTimeout: bool, timeout: int)
    requires Inv(db, timeout)
    ensures var (after, out) := CancelTx(db, u, o, now, byTimeout);
      if InStatus(db, u, o, Pending) then out == Moved && Cancels(db, after, o, now, byTimeout) else out == NotInState && after == db
  {
    hide StockInv, LedgerInv, KeysInv, OrdersInv, LinesOf, Aggregate, LockedCovers, Released, RollbackLogs, StockMoves, LogsAdded,
      Distinct, Known;
    if InStatus(db, u, o, Pending) {
      LockedSuffices(db, o, timeout);
      OrderLines(db, o, timeout);
      StockExact(db.inventory, LinesOf(db, o));
      LogsExact(db.logs, db.inventory, o, LinesOf(db, o), byTimeout);
    }
  }

  lemma PayExact(db: Db, u: int, o: int, now: int, timeout: int)
    requires Inv(db, timeout)
    ensures var (after, out) := PayTx(db, u, o, now);
      if InStatus(db, u, o, Pending) then out == Moved && Pays(db, after, o, now) else out == NotInState && after == db
  {
    hide StockInv, LedgerInv, KeysInv, OrdersInv, LinesOf, Aggregate, LockedCovers, Consumed, StockMoves, Distinct, Known;
    if InStatus(db, u, o, Pending) {
      LockedSuffices(db, o, timeout);
      OrderLines(db, o, timeout);
      StockExact(db.inventory, LinesOf(db, o));
    }
  }

  lemma FinishExact(db: Db, u: int, o: int, now: int)
    ensures var (after, out) := FinishTx(db, u, o, now);
      if InStatus(db, u, o, Paid) then out == Moved && Finishes(db, after, o, now) else out == NotInState && after == db
  {
  }

  /** Stock is added exactly to a stocked, existing product, by a positive quantity. */
  lemma AddExact(db: Db, p: int, q: int)
    ensures var (after, out) := AddTx(db, p, q);
      && (out.Supplied? <==> q > 0 && p in db.inventory && p in db.products)
      && (out == InvalidQuantity <==> q <= 0)
      && (out == NoInventory <==> q > 0 && p !in db.inventory)
      && (!out.Supplied? ==> after == db)
      && (out.Supplied? ==>
            var row := db.inventory[p];
            && out.after == row.stock + q
            && after == db.(
                 inventory := db.inventory[p := Inventory(row.stock + q, row.locked)],
                 logs := db.logs + [StockLog(p, row.stock, q, row.stock + q, ManualAdd)]))
  {
  }

  /** A product is stocked first exactly when it exists, has no row yet, and the quantity is not negative. */
  lemma InitExact(db: Db, p: int, q: int)
    ensures var (after, out) := InitTx(db, p, q);
      && (out.Supplied? <==> q >= 0 && p in db.products && p !in db.inventory)
      && (out == InvalidQuantity <==> q < 0)
      && (out == NoProduct <==> q >= 0 && p !in db.products)
      && (!out.Supplied? ==> after == db)
      && (out.Supplied? ==>
            && out.after == q
            && after == db.(
                 inventory := db.inventory[p := Inventory(q, 0)], logs := db.logs + [StockLog(p, 0, q, q, InitialStock)]))
  {
  }
}
