/** Records of the order system, one datatype per table row or request part.
    Identifiers, quantities, amounts and instants are mathematical integers. */
module Domain {

  datatype Option<+T> = None | Some(value: T)

  /** One line of a create-order request, and the part of an order-item row that inventory code reads. */
  datatype Item = Item(productId: int, quantity: int)

  datatype Product = Product(priceFen: int, onSale: bool)

  /** `stock` can be sold, `locked` belongs to orders that are still Pending. */
  datatype Inventory = Inventory(stock: int, locked: int)

  datatype Status = Pending | Paid | Finished | Cancelled

  datatype Order = Order(
    userId: int,
    totalFen: int,
    status: Status,
    createdAt: int,
    paidAt: Option<int>,
    completedAt: Option<int>,
    cancelledAt: Option<int>)

  datatype OrderItem = OrderItem(productId: int, priceFen: int, quantity: int, subtotalFen: int)

  /** Business reason of a stock log; order logs carry the order id, rollbacks also who asked for them. */
  datatype Reason =
    | InitialStock
    | ManualAdd
    | OrderDeduct(orderId: int)
    | OrderRollback(orderId: int, byTimeout: bool)

  datatype StockLog = StockLog(productId: int, before: int, change: int, after: int, reason: Reason)

  datatype KeyState = BeingCreated | AlreadyCreated

  /** The request digest is injective on canonical item lists, so the list itself stands for it. */
  datatype KeyRecord = KeyRecord(digest: seq<Item>, orderId: Option<int>, state: KeyState)

  /** A row of the timeout outbox. */
  datatype OutboxRow = OutboxRow(
    orderId: int,
    userId: int,
    timeoutAt: int,
    publishedAt: Option<int>,
    attempts: int,
    nextAttemptAt: int)

  /** Rows that transactions lock exclusively. */
  datatype Resource = KeyRow(userId: int, key: string) | OrderRow(orderId: int) | InventoryRow(productId: int)
}
