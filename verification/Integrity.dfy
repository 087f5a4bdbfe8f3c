/** What every committed database state satisfies, and that each transaction keeps it. */
module Integrity {
  import opened Domain
  import opened Items
  import opened Sums
  import opened Tables
  import opened Ledger

  predicate Shipped(s: Status) {
    s.Paid? || s.Finished?
  }

  /** Quantity of product `p` that order `o` keeps locked. */
  function PendingOf(db: Db, o: int, p: int): int {
    if o in db.orders && db.orders[o].status.Pending? then QtyOf(LinesOf(db, o), p) else 0
  }

  /** Quantity of product `p` that order `o` has taken for good. */
  function ShippedOf(db: Db, o: int, p: int): int {
    if o in db.orders && Shipped(db.orders[o].status) then QtyOf(LinesOf(db, o), p) else 0
  }

  ghost function PendingQty(db: Db, p: int): map<int, int> {
    map o | o in db.orders :: PendingOf(db, o, p)
  }

  ghost function ShippedQty(db: Db, p: int): map<int, int> {
    map o | o in db.orders :: ShippedOf(db, o, p)
  }

  /** Stock is never negative, the locked column is the total over Pending orders, and nothing is lost. */
  ghost predicate ProductStock(db: Db, p: int)
    requires p in db.inventory
  {
    var row := db.inventory[p];
    && row.stock >= 0
    && row.locked == Sum(PendingQty(db, p))
    && row.stock + row.locked + Sum(ShippedQty(db, p)) == Supply(db.logs, p)
  }

  ghost predicate StockInv(db: Db) {
    forall p :: p in db.inventory ==> ProductStock(db, p)
  }

  /** An order owns exactly its deductions, and its rollbacks once it is Cancelled. */
  ghost predicate OrderLedger(db: Db, o: int) {
    && Deductions(db.logs, o) == LinesOf(db, o)
    && Rollbacks(db.logs, o) == if o in db.orders && db.orders[o].status.Cancelled? then LinesOf(db, o) else []
  }

  /** The ledger chains up to the stock column. */
  ghost predicate LedgerInv(db: Db) {
    && Agrees(db.logs, db.inventory)
    && (forall p :: p !in db.inventory ==> Supply(db.logs, p) == 0)
    && (forall o :: OrderLedger(db, o))
  }

  /** An instant is recorded exactly for the states the order has entered. */
  predicate Stamps(order: Order) {
    && (order.paidAt.Some? <==> Shipped(order.status))
    && (order.completedAt.Some? <==> order.status.Finished?)
    && (order.cancelledAt.Some? <==> order.status.Cancelled?)
  }

  predicate Priced(rows: seq<OrderItem>) {
    forall i :: 0 <= i < |rows| ==> rows[i].subtotalFen == rows[i].priceFen * rows[i].quantity
  }

  predicate Stocked(inv: map<int, Inventory>, lines: seq<Item>) {
    forall i :: 0 <= i < |lines| ==> lines[i].productId in inv
  }

  /** Item rows of an order: at least one, distinct ascending products, bound, known to inventory. */
  predicate GoodLines(inv: map<int, Inventory>, lines: seq<Item>) {
    lines != [] && Ascending(lines) && Bound(lines) && Stocked(inv, lines)
  }

  /** An order with its item rows and outbox row. */
  predicate OrderInv(db: Db, o: int, timeout: int) {
    && o in db.orders && o in db.items && o in db.outbox
    && var order, rows, event := db.orders[o], db.items[o], db.outbox[o];
    && o > 0
    && GoodLines(db.inventory, LinesOf(db, o))
    && Priced(rows) && order.totalFen == SubtotalSum(rows)
    && Stamps(order)
    && event.orderId == o && event.userId == order.userId && event.timeoutAt == order.createdAt + timeout
  }

  predicate OrdersInv(db: Db, timeout: int) {
    && db.items.Keys == db.orders.Keys && db.outbox.Keys == db.orders.Keys
    && forall o :: o in db.orders ==> OrderInv(db, o, timeout)
  }

  /** A committed key points to an order of its user, made from the recorded request. */
  predicate KeyInv(db: Db, k: (int, string))
    requires k in db.keys
  {
    var record := db.keys[k];
    && record.state.AlreadyCreated? && record.orderId.Some?
    && var o := record.orderId.value;
    && o in db.orders && db.orders[o].userId == k.0 && LinesOf(db, o) == record.digest
  }

  /** Keys and orders are in one-to-one correspondence. */
  ghost predicate KeysInv(db: Db) {
    && (forall k :: k in db.keys ==> KeyInv(db, k))
    && (forall k, l :: k in db.keys && l in db.keys && db.keys[k].orderId == db.keys[l].orderId ==> k == l)
    && (forall o :: o in db.orders ==> exists k :: k in db.keys && db.keys[k].orderId == Some(o))
  }

  ghost predicate Inv(db: Db, timeout: int) {
    StockInv(db) && LedgerInv(db) && OrdersInv(db, timeout) && KeysInv(db)
  }

  const EmptyDb := Db(map[], map[], map[], map[], map[], [], map[])

  lemma EmptyInv(timeout: int)
    ensures Inv(EmptyDb, timeout)
  {
  }

  // ---- totals when one order row changes ----

  /** All orders other than `o`, and their rows, are as before. */
  ghost predicate OthersSame(db: Db, after: Db, o: int) {
    && after.orders.Keys == db.orders.Keys + {o}
    && (forall q :: q in db.orders && q != o ==> after.orders[q] == db.orders[q])
    && (forall q :: q != o ==> LinesOf(after, q) == LinesOf(db, q))
  }

  lemma TotalsMove(db: Db, after: Db, o: int, p: int)
    requires OthersSame(db, after, o)
    ensures Sum(PendingQty(after, p)) == Sum(PendingQty(db, p)) - PendingOf(db, o, p) + PendingOf(after, o, p)
    ensures Sum(ShippedQty(after, p)) == Sum(ShippedQty(db, p)) - ShippedOf(db, o, p) + ShippedOf(after, o, p)
  {
    hide QtyOf, Sum, LinesOf;
    assert PendingQty(after, p) == PendingQty(db, p)[o := PendingOf(after, o, p)];
    SumUpdate(PendingQty(db, p), o, PendingOf(after, o, p));
    assert ShippedQty(after, p) == ShippedQty(db, p)[o := ShippedOf(after, o, p)];
    SumUpdate(ShippedQty(db, p), o, ShippedOf(after, o, p));
  }

  lemma TotalsStay(db: Db, after: Db, p: int)
    requires after.orders == db.orders && after.items == db.items
    ensures PendingQty(after, p) == PendingQty(db, p) && ShippedQty(after, p) == ShippedQty(db, p)
  {
    hide QtyOf;
    assert forall o :: LinesOf(after, o) == LinesOf(db, o);
  }

  // ---- creation ----

  lemma {:induction false} StockSuffices(inv: map<int, Inventory>, items: seq<Item>, k: nat)
    requires k <= |items| && StockFault(inv, items, k) == None
    ensures forall j :: k <= j < |items| ==>
      items[j].productId in inv && QtyOf(items[..j + 1], items[j].productId) <= inv[items[j].productId].stock
    decreases |items| - k
  {
    hide QtyOf;
    if k < |items| {
      StockSuffices(inv, items, k + 1);
    }
  }

  /** No oversell: an accepted creation leaves every stock column non-negative. */
  lemma ReservedNonNegative(inv: map<int, Inventory>, items: seq<Item>, p: int)
    requires StockFault(inv, items, 0) == None && Distinct(items)
    requires p in inv && inv[p].stock >= 0
    ensures QtyOf(items, p) <= inv[p].stock
  {
    StockSuffices(inv, items, 0);
    hide QtyOf, StockFault;
    if Mentions(items, p) {
      var k :| 0 <= k < |items| && items[k].productId == p;
      QtyOfBefore(items, k);
      QtyOfPrefix(items, k, p);
      QtyOfLine(items, k);
    } else {
      QtyOfAbsent(items, p);
    }
  }

  /** The amount loop and the item loop agree on the total. */
  lemma {:induction false} TotalIsSubtotals(products: map<int, Product>, items: seq<Item>)
    ensures SubtotalSum(Rows(products, items)) == TotalFen(products, items)
    ensures Priced(Rows(products, items))
  {
    if items != [] {
      var n := |items| - 1;
      TotalIsSubtotals(products, items[..n]);
      var r := Rows(products, items[..n]);
      assert Rows(products, items) == r + [RowFor(products, items[n])];
      assert (r + [RowFor(products, items[n])])[..|r|] == r;
    }
  }

  predicate CreateReady(a: CreateArgs) {
    a.orderId > 0 && a.items != [] && Ascending(a.items) && Bound(a.items)
  }

  /** Shape of the database after a creation, in the terms the invariants use. */
  lemma WrittenShape(db: Db, a: CreateArgs)
    requires CreateVerdict(db, a) == Created && OrdersInv(db, a.timeout)
    ensures a.orderId !in db.orders && a.orderId !in db.items && a.orderId !in db.outbox
    ensures LinesOf(Written(db, a), a.orderId) == a.items
    ensures OthersSame(db, Written(db, a), a.orderId)
    ensures Stocked(db.inventory, a.items)
    ensures (a.userId, a.key) !in db.keys
  {
    StockSuffices(db.inventory, a.items, 0);
    hide Rows, QtyOf, OrderInv, StockFault, ProductFault;
    var after := Written(db, a);
    forall q | q != a.orderId ensures LinesOf(after, q) == LinesOf(db, q) {
    }
  }

  lemma CreateKeepsStock(db: Db, a: CreateArgs)
    requires StockInv(db) && LedgerInv(db) && OrdersInv(db, a.timeout)
    requires CreateReady(a) && CreateVerdict(db, a) == Created
    ensures StockInv(Written(db, a))
  {
    hide QtyOf, LinesOf, Supply, Balance, Chain, Deductions, Rollbacks, DeductLogs, Rows, OrderInv,
      StockFault, ProductFault, TotalFen, Added, TimeoutRollback, PendingQty, ShippedQty, Sum, OrderLedger;
    WrittenShape(db, a);
    AppendDeductions(db.logs, db.inventory, a.orderId, a.items);
    var after := Written(db, a);
    forall p | p in after.inventory ensures ProductStock(after, p) {
      assert ProductStock(db, p);
      ReservedNonNegative(db.inventory, a.items, p);
      TotalsMove(db, after, a.orderId, p);
      assert ProductStock(after, p);
    }
  }

  lemma CreateKeepsLedger(db: Db, a: CreateArgs)
    requires LedgerInv(db) && OrdersInv(db, a.timeout)
    requires CreateReady(a) && CreateVerdict(db, a) == Created
    ensures LedgerInv(Written(db, a))
  {
    hide QtyOf, LinesOf, Supply, Balance, Chain, Deductions, Rollbacks, DeductLogs, Rows, OrderInv,
      StockFault, ProductFault, TotalFen, Added, TimeoutRollback;
    WrittenShape(db, a);
    AppendDeductions(db.logs, db.inventory, a.orderId, a.items);
    forall p | p !in db.inventory ensures QtyOf(a.items, p) == 0 {
      QtyOfAbsent(a.items, p);
    }
    var after := Written(db, a);
    forall o ensures OrderLedger(after, o) {
      assert OrderLedger(db, o);
      assert a.orderId !in db.items ==> LinesOf(db, a.orderId) == [] by { NoLines(db, a.orderId); }
    }
  }

  lemma NoLines(db: Db, o: int)
    ensures o !in db.items ==> LinesOf(db, o) == []
  {
  }

  lemma CreateKeepsOrders(db: Db, a: CreateArgs)
    requires OrdersInv(db, a.timeout)
    requires CreateReady(a) && CreateVerdict(db, a) == Created
    ensures OrdersInv(Written(db, a), a.timeout)
  {
    hide Written, OrderInv, CreateVerdict, CreateReady, LinesOf;
    WrittenKeys(db, a);
    NewOrderInv(db, a);
    forall o | o in db.orders ensures OrderInv(Written(db, a), o, a.timeout) {
      OldOrderInv(db, a, o);
    }
  }

  lemma WrittenKeys(db: Db, a: CreateArgs)
    requires OrdersInv(db, a.timeout) && CreateVerdict(db, a) == Created
    ensures var after := Written(db, a);
      && after.orders.Keys == db.orders.Keys + {a.orderId}
      && after.items.Keys == after.orders.Keys && after.outbox.Keys == after.orders.Keys
  {
    hide OrderInv, CreateVerdict, Rows, DeductLogs, Reserved, TotalFen;
  }

  lemma NewOrderInv(db: Db, a: CreateArgs)
    requires OrdersInv(db, a.timeout) && CreateReady(a) && CreateVerdict(db, a) == Created
    ensures OrderInv(Written(db, a), a.orderId, a.timeout)
  {
    WrittenShape(db, a);
    TotalIsSubtotals(db.products, a.items);
    hide OrdersInv, CreateVerdict, Rows, DeductLogs, TotalFen, SubtotalSum, Priced, LinesOf, QtyOf, Ascending, Bound;
  }

  lemma OthersKeepLines(db: Db, a: CreateArgs, o: int)
    requires OrdersInv(db, a.timeout) && CreateVerdict(db, a) == Created && o in db.orders
    ensures o != a.orderId && LinesOf(Written(db, a), o) == LinesOf(db, o)
  {
    hide Written, OrdersInv, CreateVerdict, LinesOf;
    WrittenShape(db, a);
  }

  /** Rows of other orders are not touched, and no inventory row goes away. */
  lemma OldOrderInv(db: Db, a: CreateArgs, o: int)
    requires OrdersInv(db, a.timeout) && CreateVerdict(db, a) == Created && o in db.orders
    ensures OrderInv(Written(db, a), o, a.timeout)
  {
    hide CreateVerdict, Rows, DeductLogs, TotalFen, SubtotalSum, Priced, LinesOf, QtyOf, Ascending, Bound, OthersSame, Stamps;
    var after := Written(db, a);
    assert o != a.orderId && LinesOf(after, o) == LinesOf(db, o) by { OthersKeepLines(db, a, o); }
    assert OrderInv(db, o, a.timeout);
  }

  lemma CreateKeepsKeys(db: Db, a: CreateArgs)
    requires KeysInv(db) && OrdersInv(db, a.timeout)
    requires CreateReady(a) && CreateVerdict(db, a) == Created
    ensures KeysInv(Written(db, a))
  {
    hide QtyOf, Rows, TotalFen, DeductLogs, LinesOf, StockFault, ProductFault, Reserved, OrdersInv, CreateVerdict;
    WrittenShape(db, a);
    var after := Written(db, a);
    var key := (a.userId, a.key);
    forall k | k in db.keys ensures KeyInv(after, k) && after.keys[k] == db.keys[k] && db.keys[k].orderId != Some(a.orderId) {
      assert KeyInv(db, k);
    }
    assert KeyInv(after, key);
    forall o | o in after.orders ensures exists k :: k in after.keys && after.keys[k].orderId == Some(o) {
      KeyOfOrder(db, after, key, o, a.orderId);
    }
  }

  lemma KeyOfOrder(db: Db, after: Db, key: (int, string), o: int, created: int)
    requires key in after.keys && after.keys[key].orderId == Some(created)
    requires forall k :: k in db.keys ==> k in after.keys && after.keys[k] == db.keys[k]
    requires o == created || exists k :: k in db.keys && db.keys[k].orderId == Some(o)
    ensures exists k :: k in after.keys && after.keys[k].orderId == Some(o)
  {
    if o != created {
      var k :| k in db.keys && db.keys[k].orderId == Some(o);
      assert k in after.keys && after.keys[k].orderId == Some(o);
    }
  }

  /** Creation keeps every invariant; any other verdict leaves the database as it was. */
  lemma CreateKeeps(db: Db, a: CreateArgs)
    requires Inv(db, a.timeout) && CreateReady(a)
    ensures Inv(CreateTx(db, a).0, a.timeout)
    ensures CreateTx(db, a).1 != Created ==> CreateTx(db, a).0 == db
  {
    hide Written, StockInv, LedgerInv, OrdersInv, KeysInv, CreateReady, CreateVerdict;
    if CreateVerdict(db, a) == Created {
      CreateKeepsStock(db, a);
      CreateKeepsLedger(db, a);
      CreateKeepsOrders(db, a);
      CreateKeepsKeys(db, a);
    }
  }

  /** On a consistent database a used key is answered by its order or by a conflict, and by nothing else:
      the "state invalid" and "being created" answers cannot occur. */
  lemma ReplayIsExact(db: Db, a: CreateArgs, timeout: int)
    requires Inv(db, timeout) && (a.userId, a.key) in db.keys
    ensures db.keys[(a.userId, a.key)].orderId.Some?
    ensures var record := db.keys[(a.userId, a.key)];
      CreateVerdict(db, a) == if record.digest == a.items then Replayed(record.orderId.value) else KeyConflict
  {
    assert KeyInv(db, (a.userId, a.key));
    assert OrderInv(db, db.keys[(a.userId, a.key)].orderId.value, timeout);
  }

  // ---- leaving Pending ----

  lemma PendingBounds(db: Db, o: int, p: int, timeout: int)
    requires StockInv(db) && OrdersInv(db, timeout)
    requires o in db.orders && db.orders[o].status.Pending? && p in db.inventory
    ensures 0 <= QtyOf(LinesOf(db, o), p) <= db.inventory[p].locked
  {
    hide QtyOf, LinesOf, Sum, Supply, SubtotalSum;
    var m := PendingQty(db, p);
    forall q | q in m ensures m[q] >= 0 {
      assert OrderInv(db, q, timeout);
      QtyOfNonNegative(LinesOf(db, q), p);
    }
    SumNonNegative(m);
    assert m[o] == QtyOf(LinesOf(db, o), p);
    assert ProductStock(db, p);
  }

  /** The locked column covers a Pending order at every line of the release and consume loops. */
  lemma LockedSuffices(db: Db, o: int, timeout: int)
    requires StockInv(db) && OrdersInv(db, timeout)
    requires o in db.orders && db.orders[o].status.Pending?
    ensures Aggregate(LinesOf(db, o)) == LinesOf(db, o)
    ensures LockedCovers(db.inventory, LinesOf(db, o))
  {
    assert OrderInv(db, o, timeout);
    AggregateOfAscending(LinesOf(db, o));
    LockedFromSuffices(db, o, timeout, 0);
  }

  lemma {:induction false} LockedFromSuffices(db: Db, o: int, timeout: int, k: nat)
    requires StockInv(db) && OrdersInv(db, timeout)
    requires o in db.orders && db.orders[o].status.Pending?
    requires k <= |LinesOf(db, o)|
    ensures LockedFrom(db.inventory, LinesOf(db, o), k)
    decreases |LinesOf(db, o)| - k
  {
    assert OrderInv(db, o, timeout);
    var lines := LinesOf(db, o);
    if k < |lines| {
      QtyOfBefore(lines, k);
      QtyOfLine(lines, k);
      PendingBounds(db, o, lines[k].productId, timeout);
      LockedFromSuffices(db, o, timeout, k + 1);
    }
  }

  /** `after` is `db` with the status of order `o` changed and the stock columns possibly rewritten. */
  ghost predicate StatusChanged(db: Db, after: Db, o: int, to: Status, now: int) {
    && o in db.orders
    && after.orders == db.orders[o := Stamped(db.orders[o], to, now)]
    && after.items == db.items && after.outbox == db.outbox && after.keys == db.keys
    && after.inventory.Keys == db.inventory.Keys
  }

  lemma StatusChangedShape(db: Db, after: Db, o: int, to: Status, now: int)
    requires StatusChanged(db, after, o, to, now)
    ensures OthersSame(db, after, o)
    ensures forall q :: LinesOf(after, q) == LinesOf(db, q)
  {
    forall q ensures LinesOf(after, q) == LinesOf(db, q) {
    }
  }

  /** Any conditional status change that stamps the order properly keeps orders and keys. */
  lemma StatusKeepsOrders(db: Db, after: Db, o: int, to: Status, now: int, timeout: int)
    requires OrdersInv(db, timeout) && StatusChanged(db, after, o, to, now) && Stamps(after.orders[o])
    ensures OrdersInv(after, timeout)
  {
    StatusChangedShape(db, after, o, to, now);
    hide LinesOf, SubtotalSum, Priced, Bound, Ascending;
    forall q | q in after.orders ensures OrderInv(after, q, timeout) {
      assert OrderInv(db, q, timeout);
    }
  }

  lemma StatusKeepsKeys(db: Db, after: Db, o: int, to: Status, now: int)
    requires KeysInv(db) && StatusChanged(db, after, o, to, now)
    ensures KeysInv(after)
  {
    StatusChangedShape(db, after, o, to, now);
    hide LinesOf;
    forall k | k in after.keys ensures KeyInv(after, k) {
      assert KeyInv(db, k);
    }
  }

  lemma CancelKeepsStock(db: Db, after: Db, o: int, now: int, byTimeout: bool, timeout: int)
    requires StockInv(db) && LedgerInv(db) && OrdersInv(db, timeout)
    requires o in db.orders && db.orders[o].status.Pending? && StatusChanged(db, after, o, Cancelled, now)
    requires after.inventory == Released(db.inventory, LinesOf(db, o))
    requires after.logs == db.logs + RollbackLogs(db.inventory, o, LinesOf(db, o), byTimeout)
    ensures StockInv(after)
  {
    hide QtyOf, LinesOf, Supply, Balance, Chain, Deductions, Rollbacks, RollbackLogs, OrderInv,
      PendingQty, ShippedQty, Sum, Added, TimeoutRollback, OrderLedger;
    AppendRollbacks(db.logs, db.inventory, o, LinesOf(db, o), byTimeout);
    StatusChangedShape(db, after, o, Cancelled, now);
    forall p | p in after.inventory ensures ProductStock(after, p) {
      assert ProductStock(db, p);
      PendingBounds(db, o, p, timeout);
      TotalsMove(db, after, o, p);
      assert ProductStock(after, p);
    }
  }

  lemma CancelKeepsLedger(db: Db, after: Db, o: int, now: int, byTimeout: bool, timeout: int)
    requires LedgerInv(db) && OrdersInv(db, timeout)
    requires o in db.orders && db.orders[o].status.Pending? && StatusChanged(db, after, o, Cancelled, now)
    requires after.inventory == Released(db.inventory, LinesOf(db, o))
    requires after.logs == db.logs + RollbackLogs(db.inventory, o, LinesOf(db, o), byTimeout)
    ensures LedgerInv(after)
  {
    hide QtyOf, LinesOf, Supply, Balance, Chain, Deductions, Rollbacks, RollbackLogs, Added, TimeoutRollback, SubtotalSum;
    AppendRollbacks(db.logs, db.inventory, o, LinesOf(db, o), byTimeout);
    StatusChangedShape(db, after, o, Cancelled, now);
    assert OrderInv(db, o, timeout);
    forall p | p !in db.inventory ensures QtyOf(LinesOf(db, o), p) == 0 {
      QtyOfAbsent(LinesOf(db, o), p);
    }
    forall q ensures OrderLedger(after, q) {
      assert OrderLedger(db, q);
    }
  }

  /** Cancelling a Pending order always succeeds, and no other order is touched by it. */
  lemma CancelKeeps(db: Db, u: int, o: int, now: int, byTimeout: bool, timeout: int)
    requires Inv(db, timeout)
    ensures CancelTx(db, u, o, now, byTimeout).1 == if InStatus(db, u, o, Pending) then Moved else NotInState
    ensures Inv(CancelTx(db, u, o, now, byTimeout).0, timeout)
  {
    hide LinesOf, Aggregate, RollbackLogs, LockedCovers, StockInv, LedgerInv, KeysInv, QtyOf, SubtotalSum, GoodLines, Priced;
    if InStatus(db, u, o, Pending) {
      LockedSuffices(db, o, timeout);
      assert OrderInv(db, o, timeout);
      var after := CancelTx(db, u, o, now, byTimeout).0;
      CancelKeepsStock(db, after, o, now, byTimeout, timeout);
      CancelKeepsLedger(db, after, o, now, byTimeout, timeout);
      StatusKeepsOrders(db, after, o, Cancelled, now, timeout);
      StatusKeepsKeys(db, after, o, Cancelled, now);
    }
  }

  /** A status change that is not a cancellation and moves no stock leaves the ledger reading alone. */
  lemma StatusKeepsLedger(db: Db, after: Db, o: int, to: Status, now: int)
    requires LedgerInv(db) && StatusChanged(db, after, o, to, now) && after.logs == db.logs
    requires !to.Cancelled? && !db.orders[o].status.Cancelled?
    requires forall p :: p in db.inventory ==> after.inventory[p].stock == db.inventory[p].stock
    ensures LedgerInv(after)
  {
    StatusChangedShape(db, after, o, to, now);
    hide LinesOf, Supply, Balance, Chain, Deductions, Rollbacks;
    forall q ensures OrderLedger(after, q) {
      assert OrderLedger(db, q);
    }
  }

  lemma PayKeepsStock(db: Db, after: Db, o: int, now: int)
    requires StockInv(db)
    requires o in db.orders && db.orders[o].status.Pending? && StatusChanged(db, after, o, Paid, now)
    requires after.inventory == Consumed(db.inventory, LinesOf(db, o)) && after.logs == db.logs
    ensures StockInv(after)
  {
    hide QtyOf, Sum, LinesOf, Supply, PendingQty, ShippedQty;
    StatusChangedShape(db, after, o, Paid, now);
    forall p | p in after.inventory ensures ProductStock(after, p) {
      assert ProductStock(db, p);
      TotalsMove(db, after, o, p);
      assert ProductStock(after, p);
    }
  }

  /** Paying a Pending order always succeeds. */
  lemma PayKeeps(db: Db, u: int, o: int, now: int, timeout: int)
    requires Inv(db, timeout)
    ensures PayTx(db, u, o, now).1 == if InStatus(db, u, o, Pending) then Moved else NotInState
    ensures Inv(PayTx(db, u, o, now).0, timeout)
  {
    hide LinesOf, Aggregate, LockedCovers, StockInv, LedgerInv, KeysInv, QtyOf, SubtotalSum, GoodLines, Priced;
    if InStatus(db, u, o, Pending) {
      LockedSuffices(db, o, timeout);
      assert OrderInv(db, o, timeout);
      var after := PayTx(db, u, o, now).0;
      PayKeepsStock(db, after, o, now);
      StatusKeepsLedger(db, after, o, Paid, now);
      StatusKeepsOrders(db, after, o, Paid, now, timeout);
      StatusKeepsKeys(db, after, o, Paid, now);
    }
  }

  lemma FinishKeepsStock(db: Db, after: Db, o: int, now: int)
    requires StockInv(db)
    requires o in db.orders && db.orders[o].status.Paid? && StatusChanged(db, after, o, Finished, now)
    requires after.inventory == db.inventory && after.logs == db.logs
    ensures StockInv(after)
  {
    hide QtyOf, Sum, LinesOf, Supply, PendingQty, ShippedQty;
    StatusChangedShape(db, after, o, Finished, now);
    forall p | p in after.inventory ensures ProductStock(after, p) {
      assert ProductStock(db, p);
      TotalsMove(db, after, o, p);
      assert ProductStock(after, p);
    }
  }

  lemma FinishKeeps(db: Db, u: int, o: int, now: int, timeout: int)
    requires Inv(db, timeout)
    ensures FinishTx(db, u, o, now).1 == if InStatus(db, u, o, Paid) then Moved else NotInState
    ensures Inv(FinishTx(db, u, o, now).0, timeout)
  {
    hide LinesOf, StockInv, LedgerInv, KeysInv, QtyOf, SubtotalSum, GoodLines, Priced;
    if InStatus(db, u, o, Paid) {
      assert OrderInv(db, o, timeout);
      var after := FinishTx(db, u, o, now).0;
      FinishKeepsStock(db, after, o, now);
      StatusKeepsLedger(db, after, o, Finished, now);
      StatusKeepsOrders(db, after, o, Finished, now, timeout);
      StatusKeepsKeys(db, after, o, Finished, now);
    }
  }

  // ---- supply ----

  /** `after` is `db` with stock of `p` supplied and logged. */
  ghost predicate SuppliedBy(db: Db, after: Db, p: int, log: StockLog) {
    && log.productId == p && (log.reason.InitialStock? || log.reason.ManualAdd?)
    && log.before == StockOf(db.inventory, p) && log.after == log.before + log.change
    && after == db.(inventory := after.inventory, logs := db.logs + [log])
    && after.inventory.Keys == db.inventory.Keys + {p} && after.inventory[p].stock == log.after >= 0
    && (forall q :: q in db.inventory && q != p ==> after.inventory[q] == db.inventory[q])
    && after.inventory[p].locked == if p in db.inventory then db.inventory[p].locked else 0
  }

  lemma SupplyKeepsStock(db: Db, after: Db, p: int, log: StockLog, timeout: int)
    requires StockInv(db) && LedgerInv(db) && OrdersInv(db, timeout) && SuppliedBy(db, after, p, log)
    ensures StockInv(after)
  {
    hide QtyOf, LinesOf, Sum, Supply, PendingQty, ShippedQty, OrderInv, OrderLedger, Balance, Chain;
    SnocSupply(db.logs, log);
    forall q | q in after.inventory ensures ProductStock(after, q) {
      TotalsStay(db, after, q);
      if q in db.inventory {
        assert ProductStock(db, q);
      } else {
        NewProductUnsold(db, q, timeout);
      }
      assert ProductStock(after, q);
    }
  }

  lemma SupplyKeepsLedger(db: Db, after: Db, p: int, log: StockLog)
    requires LedgerInv(db) && SuppliedBy(db, after, p, log)
    ensures LedgerInv(after)
  {
    hide LinesOf, Supply, Balance, Chain, Deductions, Rollbacks;
    SnocSupply(db.logs, log);
    SnocBalance(db.logs, log);
    SnocEntries(db.logs, log);
    forall q ensures OrderLedger(after, q) {
      SameItemsLines(db, after, q);
      assert OrderLedger(db, q);
    }
  }

  lemma SameItemsLines(db: Db, after: Db, q: int)
    requires after.items == db.items
    ensures LinesOf(after, q) == LinesOf(db, q)
  {
  }

  lemma SameOrdersKeep(db: Db, after: Db, timeout: int)
    requires OrdersInv(db, timeout) && KeysInv(db)
    requires after.orders == db.orders && after.items == db.items && after.outbox == db.outbox && after.keys == db.keys
    requires db.inventory.Keys <= after.inventory.Keys
    ensures OrdersInv(after, timeout) && KeysInv(after)
  {
    forall q ensures LinesOf(after, q) == LinesOf(db, q) {
    }
    hide LinesOf, SubtotalSum, Priced, Bound, Ascending;
    forall o | o in after.orders ensures OrderInv(after, o, timeout) {
      assert OrderInv(db, o, timeout);
    }
    forall k | k in after.keys ensures KeyInv(after, k) {
      assert KeyInv(db, k);
    }
  }

  /** A product without an inventory row has no orders. */
  lemma NewProductUnsold(db: Db, p: int, timeout: int)
    requires OrdersInv(db, timeout) && p !in db.inventory
    ensures Sum(PendingQty(db, p)) == 0 && Sum(ShippedQty(db, p)) == 0
  {
    forall o | o in db.orders ensures QtyOf(LinesOf(db, o), p) == 0 {
      assert OrderInv(db, o, timeout);
      QtyOfAbsent(LinesOf(db, o), p);
    }
    SumZero(PendingQty(db, p));
    SumZero(ShippedQty(db, p));
  }

  lemma SupplyKeeps(db: Db, after: Db, p: int, log: StockLog, timeout: int)
    requires Inv(db, timeout) && SuppliedBy(db, after, p, log)
    ensures Inv(after, timeout)
  {
    hide StockInv, LedgerInv, OrdersInv, KeysInv;
    SupplyKeepsStock(db, after, p, log, timeout);
    SupplyKeepsLedger(db, after, p, log);
    SameOrdersKeep(db, after, timeout);
  }

  lemma AddKeeps(db: Db, p: int, q: int, timeout: int)
    requires Inv(db, timeout)
    ensures Inv(AddTx(db, p, q).0, timeout)
  {
    hide LedgerInv, OrdersInv, KeysInv, Sum, Supply, PendingQty, ShippedQty;
    if AddTx(db, p, q).1.Supplied? {
      assert ProductStock(db, p);
      var before := db.inventory[p].stock;
      SupplyKeeps(db, AddTx(db, p, q).0, p, StockLog(p, before, q, before + q, ManualAdd), timeout);
    }
  }

  lemma InitKeeps(db: Db, p: int, q: int, timeout: int)
    requires Inv(db, timeout)
    ensures Inv(InitTx(db, p, q).0, timeout)
  {
    hide Inv;
    if InitTx(db, p, q).1.Supplied? {
      SupplyKeeps(db, InitTx(db, p, q).0, p, StockLog(p, 0, q, q, InitialStock), timeout);
    }
  }

  /** Catalogue edits do not touch stock. */
  lemma ProductsKeep(db: Db, products: map<int, Product>, timeout: int)
    requires Inv(db, timeout)
    ensures Inv(db.(products := products), timeout)
  {
    hide Supply, Balance, Chain, Deductions, Rollbacks, OrdersInv, KeysInv, Sum, PendingQty, ShippedQty;
    var after := db.(products := products);
    SameOrdersKeep(db, after, timeout);
    forall p | p in after.inventory ensures ProductStock(after, p) {
      assert ProductStock(db, p);
      TotalsStay(db, after, p);
    }
    forall o ensures OrderLedger(after, o) {
      assert OrderLedger(db, o);
    }
  }
}
