/** The MySQL tables: each transaction as a function of the whole database, and the row-by-row code behind it. */
module Tables {
  import opened Domain
  import opened Items

  datatype Db = Db(
    products: map<int, Product>,
    inventory: map<int, Inventory>,
    orders: map<int, Order>,
    items: map<int, seq<OrderItem>>,
    keys: map<(int, string), KeyRecord>,
    logs: seq<StockLog>,
    outbox: map<int, OutboxRow>)

  /** Arguments of the create transaction; `items` is sorted and is also what the request digest covers. */
  datatype CreateArgs = CreateArgs(
    userId: int, key: string, orderId: int, items: seq<Item>, now: int, timeout: int)

  datatype CreateOutcome =
    | Created
    | Replayed(orderId: int)
    | KeyConflict
    | StillBeingCreated
    | KeyStateInvalid
    | ProductNotFound
    | ProductOffSale
    | InventoryNotFound
    | InsufficientStock
    | StorageError

  datatype MoveOutcome = Moved | NotInState | StockRowFailed

  datatype SupplyOutcome = Supplied(after: int) | InvalidQuantity | NoInventory | NoProduct | InventoryExists

  function Lines(rows: seq<OrderItem>): (r: seq<Item>)
    ensures |r| == |rows|
    ensures forall i :: 0 <= i < |rows| ==> r[i] == Item(rows[i].productId, rows[i].quantity)
  {
    seq(|rows|, i requires 0 <= i < |rows| => Item(rows[i].productId, rows[i].quantity))
  }

  function LinesOf(db: Db, o: int): seq<Item> {
    if o in db.items then Lines(db.items[o]) else []
  }

  function StockOf(inv: map<int, Inventory>, p: int): int {
    if p in inv then inv[p].stock else 0
  }

  function PriceOf(products: map<int, Product>, p: int): int {
    if p in products then products[p].priceFen else 0
  }

  // ---- effect of each transaction on the stock columns and the ledger ----

  function Reserved(inv: map<int, Inventory>, items: seq<Item>): map<int, Inventory> {
    map p | p in inv :: Inventory(inv[p].stock - QtyOf(items, p), inv[p].locked + QtyOf(items, p))
  }

  function Consumed(inv: map<int, Inventory>, items: seq<Item>): map<int, Inventory> {
    map p | p in inv :: inv[p].(locked := inv[p].locked - QtyOf(items, p))
  }

  function DeductLogs(inv: map<int, Inventory>, o: int, items: seq<Item>): (r: seq<StockLog>)
    ensures |r| == |items|
  {
    if items == [] then []
    else
      var n := |items| - 1;
      var x := items[n];
      var before := StockOf(inv, x.productId) - QtyOf(items[..n], x.productId);
      DeductLogs(inv, o, items[..n])
        + [StockLog(x.productId, before, -x.quantity, before - x.quantity, OrderDeduct(o))]
  }

  function RollbackLogs(inv: map<int, Inventory>, o: int, items: seq<Item>, byTimeout: bool): (r: seq<StockLog>)
    ensures |r| == |items|
  {
    if items == [] then []
    else
      var n := |items| - 1;
      var x := items[n];
      var before := StockOf(inv, x.productId) + QtyOf(items[..n], x.productId);
      RollbackLogs(inv, o, items[..n], byTimeout)
        + [StockLog(x.productId, before, x.quantity, before + x.quantity, OrderRollback(o, byTimeout))]
  }

  function Released(inv: map<int, Inventory>, items: seq<Item>): map<int, Inventory> {
    map p | p in inv :: Inventory(inv[p].stock + QtyOf(items, p), inv[p].locked - QtyOf(items, p))
  }

  lemma PrefixCons(x: Resource, a: seq<Resource>, b: seq<Resource>)
    requires a <= b
    ensures [x] + a <= [x] + b
  {
  }

  /** Inventory rows locked by a loop over the lines. */
  function RowLocks(items: seq<Item>): (r: seq<Resource>)
    ensures |r| == |items|
    ensures forall i :: 0 <= i < |items| ==> r[i] == InventoryRow(items[i].productId)
  {
    seq(|items|, i requires 0 <= i < |items| => InventoryRow(items[i].productId))
  }

  // One more line of a loop only touches the row of its product and adds one log.

  lemma QtyStep(inv: map<int, Inventory>, items: seq<Item>, k: nat)
    requires k < |items|
    ensures forall p :: p in inv ==>
      QtyOf(items[..k + 1], p) == QtyOf(items[..k], p) + (if items[k].productId == p then items[k].quantity else 0)
  {
    forall p | p in inv
      ensures QtyOf(items[..k + 1], p) == QtyOf(items[..k], p) + (if items[k].productId == p then items[k].quantity else 0)
    {
      QtyOfPrefix(items, k, p);
    }
  }

  lemma ReserveStep(inv: map<int, Inventory>, o: int, items: seq<Item>, k: nat)
    requires k < |items| && items[k].productId in inv
    ensures var p, q := items[k].productId, items[k].quantity;
      var row := Reserved(inv, items[..k])[p];
      && row.stock == StockOf(inv, p) - QtyOf(items[..k], p)
      && row.stock - q == StockOf(inv, p) - QtyOf(items[..k + 1], p)
      && Reserved(inv, items[..k + 1]) == Reserved(inv, items[..k])[p := Inventory(row.stock - q, row.locked + q)]
      && DeductLogs(inv, o, items[..k + 1])
         == DeductLogs(inv, o, items[..k]) + [StockLog(p, row.stock, -q, row.stock - q, OrderDeduct(o))]
  {
    QtyStep(inv, items, k);
    assert items[..k + 1][..k] == items[..k];
  }

  lemma ReleaseStep(inv: map<int, Inventory>, o: int, items: seq<Item>, k: nat, byTimeout: bool)
    requires k < |items| && items[k].productId in inv
    ensures var p, q := items[k].productId, items[k].quantity;
      var row := Released(inv, items[..k])[p];
      && Released(inv, items[..k + 1]) == Released(inv, items[..k])[p := Inventory(row.stock + q, row.locked - q)]
      && RollbackLogs(inv, o, items[..k + 1], byTimeout)
         == RollbackLogs(inv, o, items[..k], byTimeout) + [StockLog(p, row.stock, q, row.stock + q, OrderRollback(o, byTimeout))]
  {
    hide QtyOf, RollbackLogs;
    RollbackLogsStep(inv, o, items, k, byTimeout);
    QtyStep(inv, items, k);
  }

  lemma RollbackLogsStep(inv: map<int, Inventory>, o: int, items: seq<Item>, k: nat, byTimeout: bool)
    requires k < |items|
    ensures var p, q := items[k].productId, items[k].quantity;
      var before := StockOf(inv, p) + QtyOf(items[..k], p);
      RollbackLogs(inv, o, items[..k + 1], byTimeout)
      == RollbackLogs(inv, o, items[..k], byTimeout) + [StockLog(p, before, q, before + q, OrderRollback(o, byTimeout))]
  {
    hide QtyOf, StockOf;
    assert items[..k + 1][..k] == items[..k];
  }

  lemma ConsumeStep(inv: map<int, Inventory>, items: seq<Item>, k: nat)
    requires k < |items| && items[k].productId in inv
    ensures var p, q := items[k].productId, items[k].quantity;
      var row := Consumed(inv, items[..k])[p];
      Consumed(inv, items[..k + 1]) == Consumed(inv, items[..k])[p := row.(locked := row.locked - q)]
  {
    QtyStep(inv, items, k);
  }

  lemma RowStep(products: map<int, Product>, items: seq<Item>, k: nat)
    requires k < |items|
    ensures RowLocks(items[..k + 1]) == RowLocks(items[..k]) + [InventoryRow(items[k].productId)]
    ensures RowLocks(items[..k + 1]) <= RowLocks(items)
    ensures Rows(products, items[..k + 1]) == Rows(products, items[..k]) + [RowFor(products, items[k])]
  {
    assert items[..k + 1][..k] == items[..k];
  }

  /** First line, in loop order, whose product cannot be sold. */
  function ProductFault(products: map<int, Product>, items: seq<Item>, k: nat): (r: Option<CreateOutcome>)
    requires k <= |items|
    ensures r.Some? ==> r.value == ProductNotFound || r.value == ProductOffSale
    decreases |items| - k
  {
    if k == |items| then None
    else if items[k].productId !in products then Some(ProductNotFound)
    else if !products[items[k].productId].onSale then Some(ProductOffSale)
    else ProductFault(products, items, k + 1)
  }

  /** First line, in loop order, that the stock left by earlier lines cannot cover. */
  function StockFault(inv: map<int, Inventory>, items: seq<Item>, k: nat): (r: Option<CreateOutcome>)
    requires k <= |items|
    ensures r.Some? ==> r.value == InventoryNotFound || r.value == InsufficientStock
    decreases |items| - k
  {
    if k == |items| then None
    else if items[k].productId !in inv then Some(InventoryNotFound)
    else if StockOf(inv, items[k].productId) - QtyOf(items[..k + 1], items[k].productId) < 0 then Some(InsufficientStock)
    else StockFault(inv, items, k + 1)
  }

  /** Whether every line finds enough locked quantity, after the earlier lines took theirs. */
  predicate LockedCovers(inv: map<int, Inventory>, items: seq<Item>) {
    LockedFrom(inv, items, 0)
  }

  predicate LockedFrom(inv: map<int, Inventory>, items: seq<Item>, k: nat)
    requires k <= |items|
    decreases |items| - k
  {
    k == |items| || (LineLocked(inv, items, k) && LockedFrom(inv, items, k + 1))
  }

  predicate LineLocked(inv: map<int, Inventory>, items: seq<Item>, k: nat)
    requires k < |items|
  {
    var p := items[k].productId;
    p in inv && inv[p].locked - QtyOf(items[..k], p) >= items[k].quantity
  }

  /** The row stored for a line: the price of the moment and the subtotal. */
  function RowFor(products: map<int, Product>, x: Item): OrderItem {
    var price := PriceOf(products, x.productId);
    OrderItem(x.productId, price, x.quantity, price * x.quantity)
  }

  function Rows(products: map<int, Product>, items: seq<Item>): (r: seq<OrderItem>)
    ensures Lines(r) == items
  {
    if items == [] then []
    else
      var n := |items| - 1;
      var x := items[n];
      var r := Rows(products, items[..n]) + [RowFor(products, x)];
      assert items == items[..n] + [x];
      assert Lines(r) == Lines(Rows(products, items[..n])) + [x];
      r
  }

  function TotalFen(products: map<int, Product>, items: seq<Item>): int {
    if items == [] then 0
    else
      var n := |items| - 1;
      TotalFen(products, items[..n]) + PriceOf(products, items[n].productId) * items[n].quantity
  }

  function SubtotalSum(rows: seq<OrderItem>): int {
    if rows == [] then 0 else SubtotalSum(rows[..|rows| - 1]) + rows[|rows| - 1].subtotalFen
  }

  // ---- transactions as functions ----

  function ReplayOutcome(db: Db, a: CreateArgs): CreateOutcome
    requires (a.userId, a.key) in db.keys
  {
    var record := db.keys[(a.userId, a.key)];
    if record.digest != a.items then KeyConflict
    else
      match record.state
      case BeingCreated => StillBeingCreated
      case AlreadyCreated =>
        match record.orderId
        case None => KeyStateInvalid
        case Some(o) =>
          if o > 0 && o in db.orders && db.orders[o].userId == a.userId then Replayed(o) else KeyStateInvalid
  }

  function CreateVerdict(db: Db, a: CreateArgs): CreateOutcome {
    if (a.userId, a.key) in db.keys then ReplayOutcome(db, a) else FreshVerdict(db, a)
  }

  /** What decides a first use of an idempotency key. */
  function FreshVerdict(db: Db, a: CreateArgs): (r: CreateOutcome)
    ensures !r.Replayed?
  {
    if ProductFault(db.products, a.items, 0).Some? then ProductFault(db.products, a.items, 0).value
    else if a.orderId in db.orders then StorageError
    else if StockFault(db.inventory, a.items, 0).Some? then StockFault(db.inventory, a.items, 0).value
    else if a.orderId in db.outbox then StorageError
    else Created
  }

  function NewOrder(db: Db, a: CreateArgs): Order {
    Order(a.userId, TotalFen(db.products, a.items), Pending, a.now, None, None, None)
  }

  function NewOutboxRow(a: CreateArgs): OutboxRow {
    OutboxRow(a.orderId, a.userId, a.now + a.timeout, None, 0, a.now)
  }

  /** Everything a successful creation writes. */
  function Written(db: Db, a: CreateArgs): Db {
    var o := a.orderId;
    Db(db.products,
       Reserved(db.inventory, a.items),
       db.orders[o := NewOrder(db, a)],
       db.items[o := Rows(db.products, a.items)],
       db.keys[(a.userId, a.key) := KeyRecord(a.items, Some(o), AlreadyCreated)],
       db.logs + DeductLogs(db.inventory, o, a.items),
       db.outbox[o := NewOutboxRow(a)])
  }

  function CreateTx(db: Db, a: CreateArgs): (Db, CreateOutcome) {
    var verdict := CreateVerdict(db, a);
    (if verdict == Created then Written(db, a) else db, verdict)
  }

  /** The provisional key row does not influence what is written after it. */
  lemma ProvisionalKeyIrrelevant(db: Db, a: CreateArgs, record: KeyRecord)
    ensures var mid := db.(keys := db.keys[(a.userId, a.key) := record]);
      Written(mid, a) == Written(db, a) && FreshVerdict(mid, a) == FreshVerdict(db, a)
  {
  }

  predicate InStatus(db: Db, u: int, o: int, s: Status) {
    o in db.orders && db.orders[o].userId == u && db.orders[o].status == s
  }

  /** The row a conditional status change writes: new status and the matching instant. */
  function Stamped(order: Order, to: Status, now: int): Order {
    match to
    case Pending => order.(status := to)
    case Paid => order.(status := to, paidAt := Some(now))
    case Finished => order.(status := to, completedAt := Some(now))
    case Cancelled => order.(status := to, cancelledAt := Some(now))
  }

  function Patched(db: Db, o: int, to: Status, now: int): Db
    requires o in db.orders
  {
    db.(orders := db.orders[o := Stamped(db.orders[o], to, now)])
  }

  function CancelTx(db: Db, u: int, o: int, now: int, byTimeout: bool): (Db, MoveOutcome) {
    if !InStatus(db, u, o, Pending) then (db, NotInState)
    else
      var lines := Aggregate(LinesOf(db, o));
      if !LockedCovers(db.inventory, lines) then (db, StockRowFailed)
      else
        (Patched(db, o, Cancelled, now).(
           inventory := Released(db.inventory, lines),
           logs := db.logs + RollbackLogs(db.inventory, o, lines, byTimeout)),
         Moved)
  }

  function PayTx(db: Db, u: int, o: int, now: int): (Db, MoveOutcome) {
    if !InStatus(db, u, o, Pending) then (db, NotInState)
    else
      var lines := Aggregate(LinesOf(db, o));
      if !LockedCovers(db.inventory, lines) then (db, StockRowFailed)
      else (Patched(db, o, Paid, now).(inventory := Consumed(db.inventory, lines)), Moved)
  }

  function FinishTx(db: Db, u: int, o: int, now: int): (Db, MoveOutcome) {
    if !InStatus(db, u, o, Paid) then (db, NotInState)
    else (Patched(db, o, Finished, now), Moved)
  }

  function AddTx(db: Db, p: int, q: int): (Db, SupplyOutcome) {
    if q <= 0 then (db, InvalidQuantity)
    else if p !in db.inventory then (db, NoInventory)
    else if p !in db.products then (db, NoProduct)
    else
      var before := db.inventory[p].stock;
      (db.(inventory := db.inventory[p := db.inventory[p].(stock := before + q)],
           logs := db.logs + [StockLog(p, before, q, before + q, ManualAdd)]),
       Supplied(before + q))
  }

  function InitTx(db: Db, p: int, q: int): (Db, SupplyOutcome) {
    if q < 0 then (db, InvalidQuantity)
    else if p !in db.products then (db, NoProduct)
    else if p in db.inventory then (db, InventoryExists)
    else
      (db.(inventory := db.inventory[p := Inventory(q, 0)],
           logs := db.logs + [StockLog(p, 0, q, q, InitialStock)]),
       Supplied(q))
  }

  // ---- the tables as they are updated, row by row ----

  class MySql {
    var products: map<int, Product>
    var inventory: map<int, Inventory>
    var orders: map<int, Order>
    var items: map<int, seq<OrderItem>>
    var keys: map<(int, string), KeyRecord>
    var logs: seq<StockLog>
    var outbox: map<int, OutboxRow>

    function State(): Db
      reads this
    {
      Db(products, inventory, orders, items, keys, logs, outbox)
    }

    constructor (db: Db)
      ensures State() == db
    {
      products, inventory, orders, items := db.products, db.inventory, db.orders, db.items;
      keys, logs, outbox := db.keys, db.logs, db.outbox;
    }

    /** Transaction rollback. */
    method Rollback(saved: Db)
      modifies this
      ensures State() == saved
    {
      products, inventory, orders, items := saved.products, saved.inventory, saved.orders, saved.items;
      keys, logs, outbox := saved.keys, saved.logs, saved.outbox;
    }

    method TryCreateOrderIdempotencyKey(u: int, key: string, digest: seq<Item>) returns (acquired: bool)
      modifies this`keys
      ensures acquired <==> (u, key) !in old(keys)
      ensures keys == if acquired then old(keys)[(u, key) := KeyRecord(digest, None, BeingCreated)] else old(keys)
    {
      if (u, key) in keys {
        return false;
      }
      keys := keys[(u, key) := KeyRecord(digest, None, BeingCreated)];
      return true;
    }

    method CompleteOrderIdempotencyKey(u: int, key: string, o: int) returns (rows: int)
      modifies this`keys
      ensures rows == if (u, key) in old(keys) && old(keys)[(u, key)].state == BeingCreated then 1 else 0
      ensures keys == if rows == 1 then old(keys)[(u, key) := old(keys)[(u, key)].(orderId := Some(o), state := AlreadyCreated)] else old(keys)
    {
      if (u, key) in keys && keys[(u, key)].state == BeingCreated {
        keys := keys[(u, key) := keys[(u, key)].(orderId := Some(o), state := AlreadyCreated)];
        return 1;
      }
      return 0;
    }

    method ReserveInventory(p: int, q: int) returns (ok: bool)
      modifies this`inventory
      ensures ok <==> p in old(inventory) && old(inventory)[p].stock >= q
      ensures inventory == if ok then old(inventory)[p := Inventory(old(inventory)[p].stock - q, old(inventory)[p].locked + q)] else old(inventory)
    {
      ok := p in inventory && inventory[p].stock >= q;
      if ok {
        inventory := inventory[p := Inventory(inventory[p].stock - q, inventory[p].locked + q)];
      }
    }

    method ReleaseLockedInventory(p: int, q: int) returns (ok: bool)
      modifies this`inventory
      ensures ok <==> p in old(inventory) && old(inventory)[p].locked >= q
      ensures inventory == if ok then old(inventory)[p := Inventory(old(inventory)[p].stock + q, old(inventory)[p].locked - q)] else old(inventory)
    {
      ok := p in inventory && inventory[p].locked >= q;
      if ok {
        inventory := inventory[p := Inventory(inventory[p].stock + q, inventory[p].locked - q)];
      }
    }

    method ConsumeLockedInventory(p: int, q: int) returns (ok: bool)
      modifies this`inventory
      ensures ok <==> p in old(inventory) && old(inventory)[p].locked >= q
      ensures inventory == if ok then old(inventory)[p := old(inventory)[p].(locked := old(inventory)[p].locked - q)] else old(inventory)
    {
      ok := p in inventory && inventory[p].locked >= q;
      if ok {
        inventory := inventory[p := inventory[p].(locked := inventory[p].locked - q)];
      }
    }

    /** Compare-and-set on the order row. */
    method PatchOrderStatus(u: int, o: int, from: Status, to: Status, now: int) returns (rows: int)
      modifies this`orders
      ensures rows == if InStatus(old(State()), u, o, from) then 1 else 0
      ensures State() == if rows == 1 then Patched(old(State()), o, to, now) else old(State())
    {
      if InStatus(State(), u, o, from) {
        orders := orders[o := Stamped(orders[o], to, now)];
        return 1;
      }
      return 0;
    }

    /** The product loop and the amount loop of order creation. */
    method PriceItems(lines: seq<Item>) returns (fault: Option<CreateOutcome>, total: int)
      ensures fault == ProductFault(products, lines, 0)
      ensures fault == None ==> total == TotalFen(products, lines)
      ensures fault == None ==> forall k :: 0 <= k < |lines| ==> lines[k].productId in products
    {
      total := 0;
      for k := 0 to |lines|
        invariant ProductFault(products, lines, 0) == ProductFault(products, lines, k)
        invariant forall j :: 0 <= j < k ==> lines[j].productId in products
      {
        if lines[k].productId !in products {
          return Some(ProductNotFound), 0;
        }
        if !products[lines[k].productId].onSale {
          return Some(ProductOffSale), 0;
        }
      }
      for k := 0 to |lines|
        invariant total == TotalFen(products, lines[..k])
      {
        assert lines[..k + 1][..k] == lines[..k];
        total := total + products[lines[k].productId].priceFen * lines[k].quantity;
      }
      assert lines[..|lines|] == lines;
      return None, total;
    }

    /** Lock the inventory row of a line, check it and reserve. */
    method ReserveRow(ghost inv: map<int, Inventory>, lines: seq<Item>, k: nat)
      returns (fault: Option<CreateOutcome>, before: int)
      requires k < |lines| && inventory == Reserved(inv, lines[..k])
      modifies this`inventory
      ensures fault == None ==> StockFault(inv, lines, k) == StockFault(inv, lines, k + 1)
      ensures fault != None ==> fault == StockFault(inv, lines, k)
      ensures fault == None ==>
        && lines[k].productId in inv && before == Reserved(inv, lines[..k])[lines[k].productId].stock
        && inventory == Reserved(inv, lines[..k + 1])
    {
      var x := lines[k];
      if x.productId !in inventory {
        return Some(InventoryNotFound), 0;
      }
      ReserveStep(inv, 0, lines, k);
      before := inventory[x.productId].stock;
      if before - x.quantity < 0 {
        return Some(InsufficientStock), before;
      }
      var ok := ReserveInventory(x.productId, x.quantity);
      if !ok {
        return Some(InsufficientStock), before;
      }
      fault := None;
    }

    /** Write the item row of a line. */
    method CreateOrderItem(ghost was: map<int, seq<OrderItem>>, o: int, lines: seq<Item>, k: nat)
      requires k < |lines| && lines[k].productId in products
      requires items == was[o := Rows(products, lines[..k])]
      modifies this`items
      ensures items == was[o := Rows(products, lines[..k + 1])]
    {
      RowStep(products, lines, k);
      items := items[o := items[o] + [RowFor(products, lines[k])]];
    }

    /** Write the deduct log of a reserved line. */
    method CreateDeductLog(ghost was: Db, o: int, lines: seq<Item>, k: nat, before: int)
      requires k < |lines| && lines[k].productId in was.inventory
      requires before == Reserved(was.inventory, lines[..k])[lines[k].productId].stock
      requires logs == was.logs + DeductLogs(was.inventory, o, lines[..k])
      modifies this`logs
      ensures logs == was.logs + DeductLogs(was.inventory, o, lines[..k + 1])
    {
      var x := lines[k];
      ReserveStep(was.inventory, o, lines, k);
      logs := logs + [StockLog(x.productId, before, -x.quantity, before - x.quantity, OrderDeduct(o))];
    }

    /** The per-item loop of order creation; on a fault the rows written so far are left to be rolled back. */
    method ReserveItems(o: int, lines: seq<Item>) returns (fault: Option<CreateOutcome>, locks: seq<Resource>)
      requires forall k :: 0 <= k < |lines| ==> lines[k].productId in products
      modifies this`inventory, this`items, this`logs
      ensures fault == StockFault(old(inventory), lines, 0)
      ensures fault == None ==> inventory == Reserved(old(inventory), lines)
      ensures fault == None ==> items == old(items)[o := Rows(products, lines)]
      ensures fault == None ==> logs == old(logs) + DeductLogs(old(inventory), o, lines)
      ensures locks <= RowLocks(lines)
      ensures fault == None ==> locks == RowLocks(lines)
    {
      locks := [];
      items := items[o := []];
      for k := 0 to |lines|
        invariant inventory == Reserved(old(inventory), lines[..k])
        invariant items == old(items)[o := Rows(products, lines[..k])]
        invariant logs == old(logs) + DeductLogs(old(inventory), o, lines[..k])
        invariant StockFault(old(inventory), lines, 0) == StockFault(old(inventory), lines, k)
        invariant locks == RowLocks(lines[..k])
      {
        RowStep(products, lines, k);
        locks := locks + [InventoryRow(lines[k].productId)];
        var before;
        fault, before := ReserveRow(old(inventory), lines, k);
        if fault.Some? {
          return;
        }
        CreateOrderItem(old(items), o, lines, k);
        CreateDeductLog(old(State()), o, lines, k, before);
      }
      assert lines[..|lines|] == lines;
      fault := None;
    }

    /** Row locks of order creation, in the order the statements take them. */
    static function CreateLocks(a: CreateArgs): seq<Resource> {
      [KeyRow(a.userId, a.key)] + MoveLocks(a.orderId, a.items)
    }

    /** What the create transaction writes once it owns the idempotency key. */
    method WriteOrder(a: CreateArgs) returns (out: CreateOutcome, locks: seq<Resource>)
      requires (a.userId, a.key) in keys && keys[(a.userId, a.key)] == KeyRecord(a.items, None, BeingCreated)
      modifies this
      ensures out == FreshVerdict(old(State()), a)
      ensures out.Created? ==> State() == Written(old(State()), a)
      ensures locks <= MoveLocks(a.orderId, a.items)
      ensures out.Created? ==> locks == MoveLocks(a.orderId, a.items)
    {
      hide StockFault, ProductFault, Reserved, DeductLogs, Rows, TotalFen, RowLocks;
      locks := [];
      var fault, total := PriceItems(a.items);
      if fault.Some? {
        out := fault.value;
        return;
      }
      locks := [OrderRow(a.orderId)];
      if a.orderId in orders {
        out := StorageError;
        return;
      }
      orders := orders[a.orderId := Order(a.userId, total, Pending, a.now, None, None, None)];
      var stockFault, rowLocks := ReserveItems(a.orderId, a.items);
      locks := locks + rowLocks;
      if stockFault.Some? {
        out := stockFault.value;
        return;
      }
      var rows := CompleteOrderIdempotencyKey(a.userId, a.key, a.orderId);
      if rows != 1 {
        out := KeyStateInvalid;
        return;
      }
      if a.orderId in outbox {
        out := StorageError;
        return;
      }
      outbox := outbox[a.orderId := OutboxRow(a.orderId, a.userId, a.now + a.timeout, None, 0, a.now)];
      out := Created;
    }

    /** Body of the create transaction; rows written before a failure are still there. */
    method CreateOrderBody(a: CreateArgs) returns (out: CreateOutcome, locks: seq<Resource>)
      modifies this
      ensures out == CreateVerdict(old(State()), a)
      ensures out.Created? ==> State() == Written(old(State()), a)
      ensures out.Replayed? ==> State() == old(State())
      ensures locks <= CreateLocks(a)
      ensures out.Created? ==> locks == CreateLocks(a)
    {
      ghost var was := State();
      locks := [KeyRow(a.userId, a.key)];
      var acquired := TryCreateOrderIdempotencyKey(a.userId, a.key, a.items);
      if !acquired {
        out := ReplayOutcome(State(), a);
        return;
      }
      var rest;
      out, rest := WriteOrder(a);
      PrefixCons(KeyRow(a.userId, a.key), rest, MoveLocks(a.orderId, a.items));
      locks := [KeyRow(a.userId, a.key)] + rest;
      ProvisionalKeyIrrelevant(was, a, KeyRecord(a.items, None, BeingCreated));
    }

    /** The create transaction: all of its writes, or none. */
    method CreateOrder(a: CreateArgs) returns (out: CreateOutcome, locks: seq<Resource>)
      modifies this
      ensures (State(), out) == CreateTx(old(State()), a)
      ensures locks <= CreateLocks(a)
      ensures out.Created? ==> locks == CreateLocks(a)
    {
      var saved := State();
      out, locks := CreateOrderBody(a);
      if !out.Created? && !out.Replayed? {
        Rollback(saved);
      }
    }

    /** Row locks of the transactions that move a pending order. */
    static function MoveLocks(o: int, lines: seq<Item>): seq<Resource> {
      [OrderRow(o)] + RowLocks(lines)
    }

    /** One round of the cancel loop: lock the row, move locked back to stock, write the stock log. */
    method ReleaseLine(ghost was: Db, o: int, lines: seq<Item>, k: nat, byTimeout: bool) returns (ok: bool)
      requires k < |lines| && inventory == Released(was.inventory, lines[..k])
      requires logs == was.logs + RollbackLogs(was.inventory, o, lines[..k], byTimeout)
      modifies this`inventory, this`logs
      ensures ok <==> LineLocked(was.inventory, lines, k)
      ensures ok ==> inventory == Released(was.inventory, lines[..k + 1])
      ensures ok ==> logs == was.logs + RollbackLogs(was.inventory, o, lines[..k + 1], byTimeout)
    {
      var x := lines[k];
      if x.productId !in inventory {
        return false;
      }
      ReleaseStep(was.inventory, o, lines, k, byTimeout);
      var before := inventory[x.productId].stock;
      ok := ReleaseLockedInventory(x.productId, x.quantity);
      if ok {
        logs := logs + [StockLog(x.productId, before, x.quantity, before + x.quantity, OrderRollback(o, byTimeout))];
      }
    }

    method ReleaseItems(o: int, lines: seq<Item>, byTimeout: bool) returns (ok: bool, locks: seq<Resource>)
      modifies this`inventory, this`logs
      ensures ok <==> LockedCovers(old(inventory), lines)
      ensures ok ==> inventory == Released(old(inventory), lines)
      ensures ok ==> logs == old(logs) + RollbackLogs(old(inventory), o, lines, byTimeout)
      ensures locks <= RowLocks(lines)
      ensures ok ==> locks == RowLocks(lines)
    {
      locks := [];
      for k := 0 to |lines|
        invariant inventory == Released(old(inventory), lines[..k])
        invariant logs == old(logs) + RollbackLogs(old(inventory), o, lines[..k], byTimeout)
        invariant LockedCovers(old(inventory), lines) == LockedFrom(old(inventory), lines, k)
        invariant locks == RowLocks(lines[..k])
      {
        RowStep(products, lines, k);
        locks := locks + [InventoryRow(lines[k].productId)];
        var released := ReleaseLine(old(State()), o, lines, k, byTimeout);
        if !released {
          return false, locks;
        }
      }
      assert lines[..|lines|] == lines;
      return true, locks;
    }

    /** Conditional cancel of a pending order, used by users and by the timeout consumer. */
    method CancelPendingOrder(u: int, o: int, now: int, byTimeout: bool) returns (out: MoveOutcome, locks: seq<Resource>)
      modifies this
      ensures (State(), out) == CancelTx(old(State()), u, o, now, byTimeout)
      ensures locks <= MoveLocks(o, Aggregate(LinesOf(old(State()), o)))
      ensures out == Moved ==> locks == MoveLocks(o, Aggregate(LinesOf(old(State()), o)))
    {
      var saved := State();
      locks := [OrderRow(o)];
      var rows := PatchOrderStatus(u, o, Pending, Cancelled, now);
      if rows == 0 {
        return NotInState, locks;
      }
      var lines := AggregateAndSort(LinesOf(State(), o));
      var ok, rowLocks := ReleaseItems(o, lines, byTimeout);
      locks := locks + rowLocks;
      if !ok {
        Rollback(saved);
        return StockRowFailed, locks;
      }
      return Moved, locks;
    }

    /** The consume loop of payment. */
    method ConsumeLine(ghost inv: map<int, Inventory>, lines: seq<Item>, k: nat) returns (ok: bool)
      requires k < |lines| && inventory == Consumed(inv, lines[..k])
      modifies this`inventory
      ensures ok <==> LineLocked(inv, lines, k)
      ensures ok ==> inventory == Consumed(inv, lines[..k + 1])
    {
      ok := ConsumeLockedInventory(lines[k].productId, lines[k].quantity);
      if ok {
        ConsumeStep(inv, lines, k);
      }
    }

    method ConsumeItems(lines: seq<Item>) returns (ok: bool, locks: seq<Resource>)
      modifies this`inventory
      ensures ok <==> LockedCovers(old(inventory), lines)
      ensures ok ==> inventory == Consumed(old(inventory), lines)
      ensures locks <= RowLocks(lines)
      ensures ok ==> locks == RowLocks(lines)
    {
      locks := [];
      for k := 0 to |lines|
        invariant inventory == Consumed(old(inventory), lines[..k])
        invariant LockedCovers(old(inventory), lines) == LockedFrom(old(inventory), lines, k)
        invariant locks == RowLocks(lines[..k])
      {
        RowStep(products, lines, k);
        locks := locks + [InventoryRow(lines[k].productId)];
        var consumed := ConsumeLine(old(inventory), lines, k);
        if !consumed {
          return false, locks;
        }
      }
      assert lines[..|lines|] == lines;
      return true, locks;
    }

    method PayOrder(u: int, o: int, now: int) returns (out: MoveOutcome, locks: seq<Resource>)
      modifies this
      ensures (State(), out) == PayTx(old(State()), u, o, now)
      ensures locks <= MoveLocks(o, Aggregate(LinesOf(old(State()), o)))
      ensures out == Moved ==> locks == MoveLocks(o, Aggregate(LinesOf(old(State()), o)))
    {
      var saved := State();
      locks := [OrderRow(o)];
      var rows := PatchOrderStatus(u, o, Pending, Paid, now);
      if rows == 0 {
        return NotInState, locks;
      }
      var lines := AggregateAndSort(LinesOf(State(), o));
      var ok, rowLocks := ConsumeItems(lines);
      locks := locks + rowLocks;
      if !ok {
        Rollback(saved);
        return StockRowFailed, locks;
      }
      return Moved, locks;
    }

    method FinishOrder(u: int, o: int, now: int) returns (out: MoveOutcome)
      modifies this
      ensures (State(), out) == FinishTx(old(State()), u, o, now)
    {
      var rows := PatchOrderStatus(u, o, Paid, Finished, now);
      return if rows == 0 then NotInState else Moved;
    }

    method AddInventory(p: int, q: int) returns (out: SupplyOutcome, locks: seq<Resource>)
      modifies this
      ensures (State(), out) == AddTx(old(State()), p, q)
      ensures locks == if q <= 0 then [] else [InventoryRow(p)]
    {
      if q <= 0 {
        return InvalidQuantity, [];
      }
      locks := [InventoryRow(p)];
      if p !in inventory {
        return NoInventory, locks;
      }
      if p !in products {
        return NoProduct, locks;
      }
      var before := inventory[p].stock;
      inventory := inventory[p := inventory[p].(stock := before + q)];
      logs := logs + [StockLog(p, before, q, before + q, ManualAdd)];
      return Supplied(before + q), locks;
    }

    method InitInventory(p: int, q: int) returns (out: SupplyOutcome)
      modifies this
      ensures (State(), out) == InitTx(old(State()), p, q)
    {
      if q < 0 {
        return InvalidQuantity;
      }
      if p !in products {
        return NoProduct;
      }
      if p in inventory {
        return InventoryExists;
      }
      inventory := inventory[p := Inventory(q, 0)];
      logs := logs + [StockLog(p, 0, q, q, InitialStock)];
      return Supplied(q);
    }
  }
}
