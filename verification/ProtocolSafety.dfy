/** What every reachable state of the system satisfies. */
module ProtocolSafety {
  import opened Domain
  import opened Items
  import opened Sums
  import opened Tables
  import opened Ledger
  import opened Integrity
  import opened StockGuard
  import opened Protocol

  // ---- how the database may change ----

  predicate Advances(a: Status, b: Status) {
    a == b || a.Pending? || (a.Paid? && b.Finished?)
  }

  predicate Keeps(a: Option<int>, b: Option<int>) {
    a.Some? ==> a == b
  }

  /** One committed order before and after: only the status moves, forward, and recorded instants stay. */
  predicate OrderEvolves(a: Order, b: Order) {
    && a.userId == b.userId && a.totalFen == b.totalFen && a.createdAt == b.createdAt
    && Advances(a.status, b.status)
    && Keeps(a.paidAt, b.paidAt) && Keeps(a.completedAt, b.completedAt) && Keeps(a.cancelledAt, b.cancelledAt)
  }

  ghost predicate Evolves(db: Db, after: Db) {
    && (forall o :: o in db.orders ==> o in after.orders && OrderEvolves(db.orders[o], after.orders[o]))
    && (forall o :: o in db.orders ==> LinesOf(after, o) == LinesOf(db, o))
    && (forall o :: o in db.outbox ==> o in after.outbox && after.outbox[o] == db.outbox[o])
    && (forall k :: k in db.keys ==> k in after.keys && after.keys[k] == db.keys[k])
    && db.inventory.Keys <= after.inventory.Keys
    && db.logs <= after.logs
  }

  lemma EvolvesTransitive(a: Db, b: Db, c: Db)
    requires Evolves(a, b) && Evolves(b, c)
    ensures Evolves(a, c)
  {
    hide LinesOf;
  }

  /** The order a step may commit. */
  predicate Commits(s: Sys, step: Step, o: int)
    requires Enabled(s, step)
  {
    step.CommitCreate? && o == s.calls[step.call].orderId
  }

  lemma CreateEvolves(db: Db, a: CreateArgs)
    requires OrdersInv(db, a.timeout) && CreateVerdict(db, a) == Created
    ensures Evolves(db, Written(db, a))
    ensures forall o :: o in Written(db, a).orders ==> o in db.orders || o == a.orderId
  {
    hide LinesOf, Rows, DeductLogs, OrdersInv, QtyOf, CreateVerdict;
    WrittenShape(db, a);
  }

  lemma StatusEvolves(db: Db, after: Db, o: int, to: Status, now: int, timeout: int)
    requires OrdersInv(db, timeout) && StatusChanged(db, after, o, to, now)
    requires to != db.orders[o].status && Advances(db.orders[o].status, to)
    requires db.logs <= after.logs
    ensures Evolves(db, after) && after.orders.Keys == db.orders.Keys
  {
    hide LinesOf, OrdersInv;
    StatusChangedShape(db, after, o, to, now);
    StampsOf(db, o, timeout);
  }

  lemma StampsOf(db: Db, o: int, timeout: int)
    requires OrdersInv(db, timeout) && o in db.orders
    ensures Stamps(db.orders[o])
  {
    hide LinesOf, Stamps, Priced, SubtotalSum, GoodLines;
    assert OrderInv(db, o, timeout);
  }

  lemma SameEvolves(db: Db, after: Db)
    requires after.orders == db.orders && after.items == db.items && after.outbox == db.outbox && after.keys == db.keys
    requires db.inventory.Keys <= after.inventory.Keys && db.logs <= after.logs
    ensures Evolves(db, after)
  {
    assert forall o :: LinesOf(after, o) == LinesOf(db, o);
    hide LinesOf;
  }

  lemma CancelEvolves(db: Db, u: int, o: int, now: int, byTimeout: bool, timeout: int)
    requires OrdersInv(db, timeout)
    ensures var after := CancelTx(db, u, o, now, byTimeout).0;
      Evolves(db, after) && after.orders.Keys == db.orders.Keys
  {
    hide LinesOf, Aggregate, LockedCovers, RollbackLogs, OrdersInv;
    var (after, out) := CancelTx(db, u, o, now, byTimeout);
    if out == Moved {
      StatusEvolves(db, after, o, Cancelled, now, timeout);
    } else {
      SameEvolves(db, after);
    }
  }

  lemma PayEvolves(db: Db, u: int, o: int, now: int, timeout: int)
    requires OrdersInv(db, timeout)
    ensures var after := PayTx(db, u, o, now).0;
      Evolves(db, after) && after.orders.Keys == db.orders.Keys
  {
    hide LinesOf, Aggregate, LockedCovers, OrdersInv;
    var (after, out) := PayTx(db, u, o, now);
    if out == Moved {
      StatusEvolves(db, after, o, Paid, now, timeout);
    } else {
      SameEvolves(db, after);
    }
  }

  lemma FinishEvolves(db: Db, u: int, o: int, now: int, timeout: int)
    requires OrdersInv(db, timeout)
    ensures var after := FinishTx(db, u, o, now).0;
      Evolves(db, after) && after.orders.Keys == db.orders.Keys
  {
    hide LinesOf, OrdersInv;
    var (after, out) := FinishTx(db, u, o, now);
    if out == Moved {
      StatusEvolves(db, after, o, Finished, now, timeout);
    } else {
      SameEvolves(db, after);
    }
  }

  /** The database after a step. */
  function NextDb(s: Sys, step: Step): Db
    requires Enabled(s, step)
  {
    match step
    case EditProducts(products) => s.db.(products := products)
    case InitStock(_, p, q) => InitTx(s.db, p, q).0
    case AddStock(_, p, q) => AddTx(s.db, p, q).0
    case CommitCreate(c) => CreateTx(s.db, CreateArgsOf(s, s.calls[c])).0
    case CommitPay(c) => PayTx(s.db, s.calls[c].userId, s.calls[c].orderId, s.now).0
    case CommitFinish(c) => FinishTx(s.db, s.calls[c].userId, s.calls[c].orderId, s.now).0
    case CommitCancel(c) => CancelTx(s.db, s.calls[c].userId, s.calls[c].orderId, s.now, false).0
    case CommitExpire(c) => CancelTx(s.db, s.calls[c].userId, s.calls[c].orderId, s.now, true).0
    case _ => s.db
  }

  /** Transactions that do not succeed write nothing. */
  lemma FailedTransactionsWriteNothing(db: Db, a: CreateArgs, u: int, o: int, now: int, byTimeout: bool)
    ensures CreateTx(db, a).1 != Created ==> CreateTx(db, a).0 == db
    ensures PayTx(db, u, o, now).1 != Moved ==> PayTx(db, u, o, now).0 == db
    ensures CancelTx(db, u, o, now, byTimeout).1 != Moved ==> CancelTx(db, u, o, now, byTimeout).0 == db
  {
    hide CreateVerdict, Written, LockedCovers, Aggregate, LinesOf, Released, Consumed, RollbackLogs;
  }

  lemma ApplyNextDb(s: Sys, step: Step)
    requires Enabled(s, step)
    ensures Apply(s, step).db == NextDb(s, step)
  {
    hide Apply, NextDb, Enabled;
    if step.CommitCreate? || step.CommitPay? || step.CommitFinish? || step.CommitCancel? || step.CommitExpire? {
      CommitNextDb(s, step);
    } else {
      OtherNextDb(s, step);
    }
  }

  lemma OtherNextDb(s: Sys, step: Step)
    requires Enabled(s, step)
    requires !step.CommitCreate? && !step.CommitPay? && !step.CommitFinish? && !step.CommitCancel? && !step.CommitExpire?
    ensures Apply(s, step).db == NextDb(s, step)
  {
    hide InitTx, AddTx, SortedItems, PreDeduct, Release, Confirm, Increase, SetStock, Bound, Distinct, InStatus, HasStatus;
  }

  lemma CommitNextDb(s: Sys, step: Step)
    requires Enabled(s, step)
    requires step.CommitCreate? || step.CommitPay? || step.CommitFinish? || step.CommitCancel? || step.CommitExpire?
    ensures Apply(s, step).db == NextDb(s, step)
  {
    hide CreateTx, CancelTx, PayTx, FinishTx;
    var call := s.calls[step.call];
    if step.CommitCreate? {
      FailedTransactionsWriteNothing(s.db, CreateArgsOf(s, call), 0, 0, 0, false);
    } else {
      FailedTransactionsWriteNothing(s.db, CreateArgs(0, "", 0, [], 0, 0), call.userId, call.orderId, s.now, step.CommitExpire?);
    }
  }

  /** Redis after a step. */
  function NextRedis(s: Sys, step: Step): Redis
    requires Enabled(s, step)
  {
    match step
    case BeginCreate(_, _, _, o, items, link) =>
      if link == Down then s.redis else PreDeduct(s.redis, o, SortedItems(items)).0
    case RunRedis(c, _) => DoRedis(s, s.calls[c]).redis
    case _ => s.redis
  }

  lemma ApplyNextRedis(s: Sys, step: Step)
    requires Enabled(s, step)
    ensures Apply(s, step).redis == NextRedis(s, step)
  {
    hide CreateTx, CancelTx, PayTx, FinishTx, InitTx, AddTx, SortedItems, PreDeduct, Release, Confirm, Increase, SetStock, Bound, Distinct;
  }

  /** Every step lets the database evolve, and only a create commit adds an order. */
  lemma StepEvolves(s: Sys, step: Step)
    requires OrdersInv(s.db, s.timeout) && Enabled(s, step)
    ensures Evolves(s.db, Apply(s, step).db)
    ensures forall o :: o in Apply(s, step).db.orders && o !in s.db.orders ==> Commits(s, step, o)
  {
    hide LinesOf, OrdersInv, Written, CreateVerdict, CancelTx, PayTx, FinishTx, Evolves, Apply;
    ApplyNextDb(s, step);
    match step {
      case CommitCreate(c) =>
        var a := CreateArgsOf(s, s.calls[c]);
        if CreateVerdict(s.db, a) == Created {
          CreateEvolves(s.db, a);
        } else {
          SameEvolves(s.db, s.db);
        }
      case CommitPay(c) => PayEvolves(s.db, s.calls[c].userId, s.calls[c].orderId, s.now, s.timeout);
      case CommitFinish(c) => FinishEvolves(s.db, s.calls[c].userId, s.calls[c].orderId, s.now, s.timeout);
      case CommitCancel(c) => CancelEvolves(s.db, s.calls[c].userId, s.calls[c].orderId, s.now, false, s.timeout);
      case CommitExpire(c) => CancelEvolves(s.db, s.calls[c].userId, s.calls[c].orderId, s.now, true, s.timeout);
      case _ => SameEvolves(s.db, NextDb(s, step));
    }
  }

  // ---- invariants ----

  /** Calls that hold an order id not yet, or never to be, committed. */
  predicate HoldsNewId(call: Call) {
    call.Creating? || call.Releasing?
  }

  ghost predicate UniqueNewIds(s: Sys) {
    forall c, d ::
      c in s.calls && d in s.calls && HoldsNewId(s.calls[c]) && HoldsNewId(s.calls[d])
      && s.calls[c].orderId == s.calls[d].orderId
      ==> c == d
  }

  /** What a call in progress may rely on when it takes its next step, whatever the others did meanwhile. */
  predicate CallInv(s: Sys, call: Call) {
    match call
    case Creating(_, _, o, items, applied) =>
      && o > 0 && o in s.usedIds && o !in s.db.orders && o !in s.credits
      && items != [] && Ascending(items) && Bound(items)
      && (o in s.preDeducted <==> o in s.redis.reservations)
      && (applied ==> o in s.redis.reservations)
      && (o in s.redis.reservations ==> s.redis.reservations[o] == items)
    case Releasing(o) => o in s.usedIds && o !in s.db.orders
    case Confirming(o) => o in s.db.orders && Shipped(s.db.orders[o].status)
    case Restoring(o) => HasStatus(s.db, o, Cancelled)
    case Expiring(_, o) => o in s.db.outbox && s.now >= s.db.outbox[o].timeoutAt
    case Increasing(p, delta, fallback) => delta > 0 && fallback >= 0 && p in s.db.inventory
    case Overwriting(p, q) => q >= 0 && p in s.db.inventory
    case _ => true
  }

  ghost predicate CallsInv(s: Sys) {
    UniqueNewIds(s) && forall c :: c in s.calls ==> CallInv(s, s.calls[c])
  }

  /** A reservation holds the lines of its order; a Pending order that was pre-deducted still has one. */
  ghost predicate ReservationsInv(s: Sys) {
    && s.preDeducted <= s.usedIds && s.db.orders.Keys <= s.usedIds
    && (forall o :: o in s.redis.reservations ==>
          && o in s.preDeducted && Bound(s.redis.reservations[o])
          && (o in s.db.orders ==> s.redis.reservations[o] == LinesOf(s.db, o)))
    && (forall o :: HasStatus(s.db, o, Pending) && o in s.preDeducted ==> o in s.redis.reservations)
  }

  /** A reservation is credited back at most once, and only for an order that is not live. */
  ghost predicate CreditsInv(s: Sys) {
    forall o :: o in s.credits ==>
      s.credits[o] == 1 && o in s.usedIds && o !in s.redis.reservations && !Live(s.db, o)
  }

  /** No counter is ever negative, and counters exist for stocked products only. */
  ghost predicate CountersInv(s: Sys) {
    NonNegative(s.redis.available) && s.redis.available.Keys <= s.db.inventory.Keys
  }

  /** Every successful answer is what the key record says. */
  ghost predicate AnswersInv(s: Sys) {
    forall a :: a in s.answers ==>
      (a.userId, a.key) in s.db.keys && s.db.keys[(a.userId, a.key)].orderId == Some(a.orderId)
  }

  /** A timeout cancellation happened at or after the stored deadline. */
  ghost predicate DeadlinesInv(s: Sys) {
    forall o :: TimeoutRollback(s.db.logs, o) ==>
      && o in s.db.orders && o in s.db.outbox
      && s.db.orders[o].cancelledAt.Some?
      && s.db.orders[o].cancelledAt.value >= s.db.outbox[o].timeoutAt
  }

  function PendingIncrease(call: Call, p: int): int {
    if call.Increasing? && call.productId == p then call.delta else 0
  }

  ghost function InFlight(s: Sys, p: int): map<int, int> {
    map c | c in s.calls :: PendingIncrease(s.calls[c], p)
  }

  /** Redis never sees more additions than the ledger holds. */
  ghost predicate IncreasesInv(s: Sys) {
    forall p :: IncreasedOf(s, p) + Sum(InFlight(s, p)) <= Added(s.db.logs, p)
  }

  ghost predicate SysInv(s: Sys) {
    && Inv(s.db, s.timeout)
    && CallsInv(s) && ReservationsInv(s) && CreditsInv(s) && CountersInv(s)
    && AnswersInv(s) && DeadlinesInv(s) && IncreasesInv(s)
  }

  lemma InitialInv(products: map<int, Product>, now: int, timeout: int)
    ensures SysInv(Initial(products, now, timeout))
  {
    var s := Initial(products, now, timeout);
    EmptyInv(timeout);
    ProductsKeep(EmptyDb, products, timeout);
    forall p ensures Sum(InFlight(s, p)) == 0 {
      SumZero(InFlight(s, p));
    }
  }

  // ---- each invariant survives each step ----

  lemma DbKept(s: Sys, step: Step)
    requires SysInv(s) && Enabled(s, step)
    ensures Inv(Apply(s, step).db, s.timeout)
    ensures Apply(s, step).timeout == s.timeout
  {
    hide Inv, PreDeduct, Release, SortedItems, CreateTx, CancelTx, PayTx, FinishTx, AddTx, InitTx,
      ReservationsInv, CreditsInv, CountersInv, AnswersInv, DeadlinesInv, IncreasesInv;
    match step {
      case EditProducts(products) => ProductsKeep(s.db, products, s.timeout);
      case InitStock(c, p, q) => InitKeeps(s.db, p, q, s.timeout);
      case AddStock(c, p, q) => AddKeeps(s.db, p, q, s.timeout);
      case CommitCreate(c) =>
        assert CallInv(s, s.calls[c]);
        CreateKeeps(s.db, CreateArgsOf(s, s.calls[c]));
      case CommitPay(c) => PayKeeps(s.db, s.calls[c].userId, s.calls[c].orderId, s.now, s.timeout);
      case CommitFinish(c) => FinishKeeps(s.db, s.calls[c].userId, s.calls[c].orderId, s.now, s.timeout);
      case CommitCancel(c) => CancelKeeps(s.db, s.calls[c].userId, s.calls[c].orderId, s.now, false, s.timeout);
      case CommitExpire(c) => CancelKeeps(s.db, s.calls[c].userId, s.calls[c].orderId, s.now, true, s.timeout);
      case _ =>
    }
  }

  /** Steps that can change what Redis or the history knows of order `o`. */
  predicate TouchesReservation(s: Sys, step: Step, o: int)
    requires Enabled(s, step)
  {
    || (step.BeginCreate? && step.orderId == o)
    || (step.RunRedis? && var call := s.calls[step.call];
        (call.Releasing? || call.Restoring? || call.Confirming?) && call.orderId == o)
  }

  /** The two systems know the same about order `o`'s reservation. */
  ghost predicate SameReservation(s: Sys, after: Sys, o: int) {
    && (o in after.redis.reservations <==> o in s.redis.reservations)
    && (o in s.redis.reservations ==> after.redis.reservations[o] == s.redis.reservations[o])
    && (o in after.preDeducted <==> o in s.preDeducted)
    && after.credits[o] == s.credits[o]
  }

  lemma ReservationStable(s: Sys, step: Step, o: int)
    requires Enabled(s, step) && !TouchesReservation(s, step, o)
    ensures SameReservation(s, Apply(s, step), o)
  {
    hide CreateTx, CancelTx, PayTx, FinishTx, InitTx, AddTx, SortedItems, PreDeduct, DoRedis, DoBeginCreate, Bound, Distinct;
    match step {
      case RunRedis(c, again) => RedisStable(s, s.calls[c], o);
      case BeginCreate(c, u, key, q, items, link) => BeginStable(s, c, u, key, q, items, link, o);
      case _ =>
    }
  }

  lemma BeginStable(s: Sys, c: int, u: int, key: string, q: int, items: seq<Item>, link: Link, o: int)
    requires q != o
    ensures SameReservation(s, DoBeginCreate(s, c, u, key, q, items, link), o)
  {
    hide CheckFrom, Deducted, SortedItems;
  }

  lemma RedisStable(s: Sys, call: Call, o: int)
    requires RedisPending(call)
    requires (call.Releasing? || call.Restoring? || call.Confirming?) ==> call.orderId != o
    ensures SameReservation(s, DoRedis(s, call), o)
  {
    hide Credited;
  }

  lemma IdsGrow(s: Sys, step: Step)
    requires Enabled(s, step)
    ensures s.usedIds <= Apply(s, step).usedIds
  {
    hide CreateTx, CancelTx, PayTx, FinishTx, InitTx, AddTx, SortedItems, PreDeduct, Release, Bound, Distinct;
  }

  /** A call keeps what it relies on across a step of somebody else. */
  lemma CallInvStable(s: Sys, step: Step, c: int)
    requires Inv(s.db, s.timeout) && CallsInv(s) && ReservationsInv(s) && Enabled(s, step) && c in s.calls
    requires c in Apply(s, step).calls && Apply(s, step).calls[c] == s.calls[c]
    ensures CallInv(Apply(s, step), s.calls[c])
  {
    hide CreateTx, CancelTx, PayTx, FinishTx, InitTx, AddTx, SortedItems, LinesOf, Ascending, Bound, Distinct,
      StockInv, LedgerInv, KeysInv, OrdersInv, PreDeduct, Release, Confirm, ReservationsInv, DoRedis;
    StepEvolves(s, step);
    assert CallInv(s, s.calls[c]);
    if HoldsNewId(s.calls[c]) {
      NewIdStaysNew(s, step, c);
    }
    ClockStays(s, step);
  }

  lemma ClockStays(s: Sys, step: Step)
    requires Enabled(s, step)
    ensures Apply(s, step).now >= s.now && Apply(s, step).timeout == s.timeout
  {
    hide CreateTx, CancelTx, PayTx, FinishTx, InitTx, AddTx, SortedItems, PreDeduct, Release;
  }

  lemma NewIdStaysNew(s: Sys, step: Step, c: int)
    requires OrdersInv(s.db, s.timeout) && CallsInv(s) && ReservationsInv(s) && Enabled(s, step)
    requires c in s.calls && HoldsNewId(s.calls[c])
    requires c in Apply(s, step).calls && Apply(s, step).calls[c] == s.calls[c]
    ensures var o, after := s.calls[c].orderId, Apply(s, step);
      && o !in after.db.orders && o in after.usedIds
      && (s.calls[c].Creating? ==> SameReservation(s, after, o))
  {
    hide CancelTx, PayTx, FinishTx, InitTx, AddTx, SortedItems, LinesOf, Ascending, Bound, Distinct, OrdersInv,
      PreDeduct, Release, Confirm, Written, CreateVerdict, Evolves;
    var o := s.calls[c].orderId;
    StepEvolves(s, step);
    IdsGrow(s, step);
    assert CallInv(s, s.calls[c]);
    if step.CommitCreate? && s.calls[step.call].orderId == o {
      assert step.call == c;
    }
    if TouchesReservation(s, step, o) {
      if step.RunRedis? {
        assert CallInv(s, s.calls[step.call]);
      }
    } else {
      ReservationStable(s, step, o);
    }
  }

  predicate HasCall(step: Step) {
    !step.Tick? && !step.EditProducts?
  }

  /** A step only moves its own call. */
  lemma OtherCallsSame(s: Sys, step: Step, d: int)
    requires Enabled(s, step) && (HasCall(step) ==> d != step.call)
    ensures d in Apply(s, step).calls <==> d in s.calls
    ensures d in s.calls ==> Apply(s, step).calls[d] == s.calls[d]
  {
    hide CreateTx, CancelTx, PayTx, FinishTx, InitTx, AddTx, SortedItems, PreDeduct, Release, Bound, Distinct;
  }

  /** What the moving call turns into. */
  function NextCall(s: Sys, step: Step): Option<Call>
    requires Enabled(s, step) && HasCall(step)
  {
    var after := Apply(s, step);
    if step.call in after.calls then Some(after.calls[step.call]) else None
  }

  lemma BeginCreateCallInv(s: Sys, step: Step)
    requires CallsInv(s) && ReservationsInv(s) && CreditsInv(s)
    requires Enabled(s, step) && step.BeginCreate?
    ensures NextCall(s, step).Some? ==> CallInv(Apply(s, step), NextCall(s, step).value)
  {
    hide CheckFrom, Deducted, SortedItems, Bound, Distinct, Ascending;
    SortedOfDistinct(step.items);
    SortedKeeps(step.items);
    assert step.orderId !in s.redis.reservations;
  }

  lemma CreateCallInv(s: Sys, step: Step)
    requires CallsInv(s) && Enabled(s, step) && (step.CommitCreate? || step.AbortCreate?)
    ensures NextCall(s, step).Some? ==> CallInv(Apply(s, step), NextCall(s, step).value)
  {
    hide UniqueNewIds, CreateVerdict, Written, Bound, Ascending;
    assert CallInv(s, s.calls[step.call]);
  }

  lemma MoveCallInv(s: Sys, step: Step)
    requires Enabled(s, step) && (step.CommitPay? || step.CommitCancel? || step.CommitExpire? || step.CommitFinish?)
    ensures NextCall(s, step).Some? ==> CallInv(Apply(s, step), NextCall(s, step).value)
  {
    hide Aggregate, LinesOf, LockedCovers, RollbackLogs, Released, Consumed;
  }

  lemma SupplyCallInv(s: Sys, step: Step)
    requires StockInv(s.db) && Enabled(s, step) && (step.ReadStock? || step.AddStock? || step.InitStock?)
    ensures NextCall(s, step).Some? ==> CallInv(Apply(s, step), NextCall(s, step).value)
  {
    hide Sum, Supply, PendingQty, ShippedQty;
    if !step.InitStock? {
      assert step.productId in s.db.inventory ==> ProductStock(s.db, step.productId);
    }
  }

  lemma BeginMoveCallInv(s: Sys, step: Step)
    requires Enabled(s, step) && (step.BeginPay? || step.BeginFinish? || step.BeginCancel? || step.BeginExpire?)
    ensures NextCall(s, step).Some? ==> CallInv(Apply(s, step), NextCall(s, step).value)
  {
  }

  lemma RunKeepsCalls(s: Sys, step: Step)
    requires Enabled(s, step) && (step.RunRedis? || step.Drop?)
    ensures Apply(s, step).calls == if step.RunRedis? && step.again then s.calls else s.calls - {step.call}
  {
    hide Release, Confirm, Increase, SetStock;
  }

  /** The moving call satisfies its invariant in its new place. */
  lemma MovedCallInv(s: Sys, step: Step)
    requires Inv(s.db, s.timeout) && CallsInv(s) && ReservationsInv(s) && CreditsInv(s)
    requires Enabled(s, step) && HasCall(step)
    ensures NextCall(s, step).Some? ==> CallInv(Apply(s, step), NextCall(s, step).value)
  {
    hide Apply, Inv, CallsInv, CallInv, ReservationsInv, CreditsInv, InStatus, Bound, Distinct, StockInv;
    InvParts(s.db, s.timeout);
    match step {
      case BeginCreate(_, _, _, _, _, _) => BeginCreateCallInv(s, step);
      case RunRedis(c, again) =>
        RunKeepsCalls(s, step);
        if again {
          CallInvStable(s, step, c);
        }
      case ReadStock(_, _) => SupplyCallInv(s, step);
      case AddStock(_, _, _) => SupplyCallInv(s, step);
      case InitStock(_, _, _) => SupplyCallInv(s, step);
      case BeginPay(_, _, _) => BeginMoveCallInv(s, step);
      case BeginFinish(_, _, _) => BeginMoveCallInv(s, step);
      case BeginCancel(_, _, _) => BeginMoveCallInv(s, step);
      case BeginExpire(_, _) => BeginMoveCallInv(s, step);
      case CommitCreate(c) => CreateCallInv(s, step);
      case AbortCreate(c) => CreateCallInv(s, step);
      case CommitPay(_) => MoveCallInv(s, step);
      case CommitCancel(_) => MoveCallInv(s, step);
      case CommitExpire(_) => MoveCallInv(s, step);
      case CommitFinish(_) => MoveCallInv(s, step);
      case Drop(_) => RunKeepsCalls(s, step);
    }
  }

  lemma CallsKept(s: Sys, step: Step)
    requires Inv(s.db, s.timeout) && CallsInv(s) && ReservationsInv(s) && CreditsInv(s) && Enabled(s, step)
    ensures CallsInv(Apply(s, step))
  {
    hide Inv, ReservationsInv, CreditsInv, CallInv, Apply, Enabled, UniqueNewIds;
    var after := Apply(s, step);
    forall d | d in after.calls ensures CallInv(after, after.calls[d]) {
      if HasCall(step) && d == step.call {
        MovedCallInv(s, step);
      } else {
        OtherCallsSame(s, step, d);
        CallInvStable(s, step, d);
      }
    }
    NewIdsKept(s, step);
  }

  /** A call that holds a new order id after the step held it before, or has just drawn it. */
  lemma NewIdOrigin(s: Sys, step: Step, d: int)
    requires Enabled(s, step) && d in Apply(s, step).calls && HoldsNewId(Apply(s, step).calls[d])
    ensures var o := Apply(s, step).calls[d].orderId;
      || (d in s.calls && HoldsNewId(s.calls[d]) && s.calls[d].orderId == o)
      || (step.BeginCreate? && d == step.call && o == step.orderId)
  {
    hide CreateTx, CancelTx, PayTx, FinishTx, InitTx, AddTx, SortedItems, PreDeduct, Release, Bound, Distinct;
  }

  lemma NewIdsKept(s: Sys, step: Step)
    requires CallsInv(s) && Enabled(s, step)
    ensures UniqueNewIds(Apply(s, step))
  {
    hide Apply;
    var after := Apply(s, step);
    forall c, d | c in after.calls && d in after.calls && HoldsNewId(after.calls[c]) && HoldsNewId(after.calls[d])
        && after.calls[c].orderId == after.calls[d].orderId
      ensures c == d
    {
      NewIdOrigin(s, step, c);
      NewIdOrigin(s, step, d);
      if step.BeginCreate? {
        assert forall e :: e in s.calls ==> CallInv(s, s.calls[e]);
      }
    }
  }

  /** The lines a create commit stores are those the call carried. */
  lemma CommittedLines(s: Sys, step: Step, o: int)
    requires OrdersInv(s.db, s.timeout) && Enabled(s, step)
    requires o in Apply(s, step).db.orders && o !in s.db.orders
    ensures Commits(s, step, o)
    ensures LinesOf(Apply(s, step).db, o) == s.calls[step.call].items
    ensures HasStatus(Apply(s, step).db, o, Pending)
  {
    hide OrdersInv, LinesOf, CreateVerdict, Rows, DeductLogs, Reserved, Apply, CancelTx, PayTx, FinishTx;
    StepEvolves(s, step);
    ApplyNextDb(s, step);
    var a := CreateArgsOf(s, s.calls[step.call]);
    if CreateVerdict(s.db, a) == Created {
      WrittenShape(s.db, a);
    }
  }

  /** Where an order's reservation is after its own Redis step. */
  lemma TouchedReservation(s: Sys, step: Step, o: int)
    requires CallsInv(s) && ReservationsInv(s) && Enabled(s, step) && TouchesReservation(s, step, o)
    ensures step.RunRedis? ==> o !in Apply(s, step).redis.reservations && !HasStatus(s.db, o, Pending)
    ensures step.RunRedis? ==> (o in Apply(s, step).preDeducted <==> o in s.preDeducted) && Apply(s, step).db == s.db
    ensures step.BeginCreate? ==> o !in s.db.orders && Apply(s, step).db == s.db
    ensures step.BeginCreate? && o in Apply(s, step).redis.reservations ==>
      o in Apply(s, step).preDeducted && Bound(Apply(s, step).redis.reservations[o])
  {
    hide Apply, DoBeginCreate, DoRedis, UniqueNewIds, LinesOf, Bound, Distinct;
    ApplyUnfolds(s, step);
    match step {
      case BeginCreate(c, u, key, _, items, link) => BegunReservation(s, c, u, key, o, items, link);
      case RunRedis(c, _) =>
        assert CallInv(s, s.calls[c]);
        RanReservation(s, s.calls[c]);
    }
  }

  /** The two kinds of step that reach Redis. */
  lemma ApplyUnfolds(s: Sys, step: Step)
    requires Enabled(s, step)
    ensures step.BeginCreate? ==>
      Apply(s, step) == DoBeginCreate(s, step.call, step.userId, step.key, step.orderId, step.items, step.link)
    ensures step.RunRedis? ==>
      var ran := DoRedis(s, s.calls[step.call]);
      Apply(s, step) == if step.again then ran else Done(ran, step.call)
  {
    hide DoBeginCreate, DoRedis, Bound, Distinct, InStatus;
  }

  lemma BegunReservation(s: Sys, c: int, u: int, key: string, o: int, items: seq<Item>, link: Link)
    requires Bound(items) && (o in s.redis.reservations ==> o in s.preDeducted && Bound(s.redis.reservations[o]))
    ensures var after := DoBeginCreate(s, c, u, key, o, items, link);
      && after.db == s.db
      && (o in after.redis.reservations ==> o in after.preDeducted && Bound(after.redis.reservations[o]))
  {
    hide CheckFrom, Deducted, SortedItems, Bound, Distinct;
    SortedBound(items);
  }

  lemma SortedBound(items: seq<Item>)
    requires Bound(items)
    ensures Bound(SortedItems(items))
  {
    var lines := SortedItems(items);
    forall i | 0 <= i < |lines| ensures lines[i].productId > 0 && lines[i].quantity > 0 {
      assert lines[i] in multiset(items);
    }
  }

  lemma RanReservation(s: Sys, call: Call)
    requires call.Releasing? || call.Restoring? || call.Confirming?
    ensures var after := DoRedis(s, call);
      call.orderId !in after.redis.reservations && after.preDeducted == s.preDeducted && after.db == s.db
  {
    hide Credited;
  }

  lemma ReservationsKept(s: Sys, step: Step)
    requires OrdersInv(s.db, s.timeout) && CallsInv(s) && ReservationsInv(s) && Enabled(s, step)
    ensures ReservationsInv(Apply(s, step))
  {
    hide Apply, OrdersInv, LinesOf, Bound, UniqueNewIds, Distinct, InitTx, AddTx;
    var after := Apply(s, step);
    StepEvolves(s, step);
    IdsKept(s, step);
    forall o | o in after.redis.reservations
      ensures o in after.preDeducted && Bound(after.redis.reservations[o])
      ensures o in after.db.orders ==> after.redis.reservations[o] == LinesOf(after.db, o)
    {
      if TouchesReservation(s, step, o) {
        TouchedReservation(s, step, o);
      } else {
        ReservationStable(s, step, o);
        if o in after.db.orders && o !in s.db.orders {
          CommittedLines(s, step, o);
          assert CallInv(s, s.calls[step.call]);
        }
      }
    }
    forall o | HasStatus(after.db, o, Pending) && o in after.preDeducted ensures o in after.redis.reservations {
      if TouchesReservation(s, step, o) {
        TouchedReservation(s, step, o);
      } else {
        ReservationStable(s, step, o);
        if o !in s.db.orders {
          CommittedLines(s, step, o);
          assert CallInv(s, s.calls[step.call]);
        }
      }
    }
  }

  lemma IdsKept(s: Sys, step: Step)
    requires OrdersInv(s.db, s.timeout) && CallsInv(s) && ReservationsInv(s) && Enabled(s, step)
    ensures Apply(s, step).preDeducted <= Apply(s, step).usedIds
    ensures Apply(s, step).db.orders.Keys <= Apply(s, step).usedIds
  {
    hide OrdersInv, LinesOf, Bound, UniqueNewIds, Apply;
    StepEvolves(s, step);
    IdsGrow(s, step);
    forall o | o in Apply(s, step).db.orders ensures o in Apply(s, step).usedIds {
      if o !in s.db.orders {
        assert CallInv(s, s.calls[step.call]);
      }
    }
    PreDeductedGrows(s, step);
  }

  lemma PreDeductedGrows(s: Sys, step: Step)
    requires Enabled(s, step) && s.preDeducted <= s.usedIds
    ensures Apply(s, step).preDeducted <= Apply(s, step).usedIds
  {
    hide CreateTx, CancelTx, PayTx, FinishTx, InitTx, AddTx, SortedItems, PreDeduct, Release, Bound, Distinct;
  }

  /** At most one credit per order, and never for a live order: a credited order was cancelled or will never commit. */
  lemma CreditsKept(s: Sys, step: Step)
    requires OrdersInv(s.db, s.timeout) && CallsInv(s) && ReservationsInv(s) && CreditsInv(s) && Enabled(s, step)
    ensures CreditsInv(Apply(s, step))
  {
    hide Apply, OrdersInv, LinesOf, Bound, UniqueNewIds, Distinct, InitTx, AddTx;
    var after := Apply(s, step);
    StepEvolves(s, step);
    IdsGrow(s, step);
    if step.CommitCreate? {
      assert CallInv(s, s.calls[step.call]);
    }
    forall o | o in after.credits
      ensures after.credits[o] == 1 && o in after.usedIds && o !in after.redis.reservations && !Live(after.db, o)
    {
      if TouchesReservation(s, step, o) {
        TouchedCredit(s, step, o);
      } else {
        ReservationStable(s, step, o);
        assert o in s.credits;
      }
    }
  }

  lemma TouchedCredit(s: Sys, step: Step, o: int)
    requires CallsInv(s) && ReservationsInv(s) && CreditsInv(s) && Enabled(s, step) && TouchesReservation(s, step, o)
    ensures o in Apply(s, step).credits ==>
      && Apply(s, step).credits[o] == 1 && o in Apply(s, step).usedIds
      && o !in Apply(s, step).redis.reservations && !Live(Apply(s, step).db, o)
  {
    hide CheckFrom, Deducted, Credited, SortedItems, Bound, Distinct, UniqueNewIds, LinesOf, Increase, SetStock;
    match step {
      case BeginCreate(_, _, _, _, _, _) => assert o !in s.credits;
      case RunRedis(c, _) =>
        assert CallInv(s, s.calls[c]);
        assert o in s.redis.reservations ==> o !in s.credits && o in s.usedIds;
    }
  }

  lemma CountersKept(s: Sys, step: Step)
    requires Enabled(s, step) && CallsInv(s) && ReservationsInv(s) && CountersInv(s)
    requires Evolves(s.db, Apply(s, step).db)
    ensures CountersInv(Apply(s, step))
  {
    hide Apply, SortedItems, PreDeduct, Release, UniqueNewIds, LinesOf, Bound, Distinct, Ascending, InitTx, AddTx;
    ApplyNextRedis(s, step);
    match step {
      case BeginCreate(_, _, _, o, items, _) =>
        SortedOfDistinct(items);
        AscendingDistinct(SortedItems(items));
        PreDeductKeepsNonNegative(s.redis, o, SortedItems(items));
        PreDeductKeys(s.redis, o, SortedItems(items));
      case RunRedis(c, _) =>
        assert CallInv(s, s.calls[c]);
        if s.calls[c].Releasing? || s.calls[c].Restoring? {
          ReleaseKeepsNonNegative(s.redis, s.calls[c].orderId);
        }
      case _ =>
    }
  }

  lemma AscendingDistinct(items: seq<Item>)
    requires Ascending(items)
    ensures Distinct(items)
  {
  }

  lemma PreDeductKeys(r: Redis, o: int, items: seq<Item>)
    ensures PreDeduct(r, o, items).0.available.Keys == r.available.Keys
  {
    hide QtyOf, CheckFrom;
  }

  lemma ReleaseKeepsNonNegative(r: Redis, o: int)
    requires NonNegative(r.available) && (o in r.reservations ==> Bound(r.reservations[o]))
    ensures NonNegative(Release(r, o).available) && Release(r, o).available.Keys == r.available.Keys
  {
    if o in r.reservations {
      forall p | p in r.available ensures QtyOf(r.reservations[o], p) >= 0 {
        QtyOfNonNegative(r.reservations[o], p);
      }
    }
    hide QtyOf, Bound;
  }

  /** A create commit that answers names the order its key points to afterwards. */
  lemma CommitAnswer(db: Db, a: CreateArgs, timeout: int)
    requires Inv(db, timeout)
    ensures var (after, out) := CreateTx(db, a);
      && (out == Created ==> (a.userId, a.key) in after.keys && after.keys[(a.userId, a.key)].orderId == Some(a.orderId))
      && (out.Replayed? ==> (a.userId, a.key) in after.keys && after.keys[(a.userId, a.key)].orderId == Some(out.orderId))
  {
    hide StockInv, LedgerInv, Reserved, Rows, DeductLogs, FreshVerdict, OrdersInv;
    if (a.userId, a.key) in db.keys {
      ReplayIsExact(db, a, timeout);
    }
  }

  lemma NewAnswers(s: Sys, step: Step, a: Answer)
    requires Enabled(s, step) && a in Apply(s, step).answers && a !in s.answers
    ensures step.CommitCreate?
    ensures var call := s.calls[step.call];
      var out := CreateTx(s.db, CreateArgsOf(s, call)).1;
      a.userId == call.userId && a.key == call.key
      && ((out == Created && a.orderId == call.orderId) || (out.Replayed? && a.orderId == out.orderId))
  {
    hide CreateTx, CancelTx, PayTx, FinishTx, InitTx, AddTx, SortedItems, PreDeduct, Release, Bound, Distinct;
  }

  /** All successful answers for one user and key name one order. */
  lemma AnswersKept(s: Sys, step: Step)
    requires Inv(s.db, s.timeout) && AnswersInv(s) && Enabled(s, step)
    ensures AnswersInv(Apply(s, step))
  {
    hide Apply, CreateTx, CancelTx, PayTx, FinishTx, InitTx, AddTx, LinesOf, Bound, Distinct, StockInv, LedgerInv, KeysInv, OrdersInv;
    StepEvolves(s, step);
    ApplyNextDb(s, step);
    forall a | a in Apply(s, step).answers
      ensures (a.userId, a.key) in Apply(s, step).db.keys
      ensures Apply(s, step).db.keys[(a.userId, a.key)].orderId == Some(a.orderId)
    {
      if a !in s.answers {
        NewAnswers(s, step, a);
        CommitAnswer(s.db, CreateArgsOf(s, s.calls[step.call]), s.timeout);
      }
    }
  }

  /** What a step appends to the ledger, as far as additions and timeout rollbacks are concerned. */
  lemma LedgerStep(s: Sys, step: Step)
    requires Inv(s.db, s.timeout) && Enabled(s, step)
    ensures forall p ::
      Added(NextDb(s, step).logs, p)
      == Added(s.db.logs, p) + (if step.AddStock? && step.productId == p then step.quantity else 0)
    ensures forall o :: TimeoutRollback(NextDb(s, step).logs, o) ==>
      TimeoutRollback(s.db.logs, o)
      || (step.CommitExpire? && o == s.calls[step.call].orderId
          && InStatus(s.db, s.calls[step.call].userId, o, Pending)
          && o in NextDb(s, step).orders && NextDb(s, step).orders[o].cancelledAt == Some(s.now))
  {
    hide StockInv, KeysInv, OrderLedger, Added, Supply, Balance, Chain, TimeoutRollback, Deductions, Rollbacks,
      DeductLogs, RollbackLogs, LinesOf, Aggregate, LockedCovers, Rows, Reserved, Released, Consumed, CreateVerdict, QtyOf,
      OrdersInv;
    match step {
      case InitStock(_, p, q) =>
        var log := StockLog(p, 0, q, q, InitialStock);
        SnocAdded(s.db.logs, log);
        SnocTimeout(s.db.logs, log);
      case AddStock(_, p, q) =>
        var before := s.db.inventory[p].stock;
        var log := StockLog(p, before, q, before + q, ManualAdd);
        SnocAdded(s.db.logs, log);
        SnocTimeout(s.db.logs, log);
      case CommitCreate(c) =>
        AppendDeductions(s.db.logs, s.db.inventory, s.calls[c].orderId, s.calls[c].items);
      case CommitCancel(c) =>
        AppendRollbacks(s.db.logs, s.db.inventory, s.calls[c].orderId, Aggregate(LinesOf(s.db, s.calls[c].orderId)), false);
      case CommitExpire(c) =>
        AppendRollbacks(s.db.logs, s.db.inventory, s.calls[c].orderId, Aggregate(LinesOf(s.db, s.calls[c].orderId)), true);
      case _ =>
    }
  }

  lemma DeadlinesKept(s: Sys, step: Step)
    requires Inv(s.db, s.timeout) && CallsInv(s) && DeadlinesInv(s) && Enabled(s, step)
    ensures DeadlinesInv(Apply(s, step))
  {
    hide Apply, TimeoutRollback, StockInv, KeysInv, LedgerInv, OrdersInv, LinesOf, UniqueNewIds,
      CreateTx, CancelTx, PayTx, FinishTx, InitTx, AddTx, Bound, Distinct;
    StepEvolves(s, step);
    ApplyNextDb(s, step);
    LedgerStep(s, step);
    if step.CommitExpire? {
      assert CallInv(s, s.calls[step.call]);
    }
  }

  function IncreaseAt(s: Sys, c: int, p: int): int {
    if c in s.calls then PendingIncrease(s.calls[c], p) else 0
  }

  lemma InFlightMove(s: Sys, step: Step, p: int)
    requires Enabled(s, step) && HasCall(step)
    ensures Sum(InFlight(Apply(s, step), p))
      == Sum(InFlight(s, p)) - IncreaseAt(s, step.call, p) + IncreaseAt(Apply(s, step), step.call, p)
  {
    hide Apply, Sum, Enabled;
    var after, c := Apply(s, step), step.call;
    forall d | d != c ensures d in after.calls <==> d in s.calls
      ensures d in s.calls ==> after.calls[d] == s.calls[d] {
      OtherCallsSame(s, step, d);
    }
    assert InFlight(after, p) - {c} == InFlight(s, p) - {c};
    SumDelete(InFlight(after, p), c);
    SumDelete(InFlight(s, p), c);
  }

  lemma InFlightSame(s: Sys, step: Step, p: int)
    requires Enabled(s, step) && !HasCall(step)
    ensures InFlight(Apply(s, step), p) == InFlight(s, p)
  {
  }

  /** An increment is counted when it runs, and at most what the call carried. */
  lemma IncreaseMoves(s: Sys, step: Step, p: int)
    requires CallsInv(s) && Enabled(s, step)
    ensures IncreasedOf(Apply(s, step), p) + (if HasCall(step) then IncreaseAt(Apply(s, step), step.call, p) else 0)
      <= IncreasedOf(s, p) + (if HasCall(step) then IncreaseAt(s, step.call, p) else 0)
         + (if step.AddStock? && step.productId == p then step.quantity else 0)
  {
    hide CreateTx, CancelTx, PayTx, FinishTx, InitTx, SortedItems, PreDeduct, Release, Bound, Distinct, UniqueNewIds;
    if step.RunRedis? || step.Drop? {
      assert CallInv(s, s.calls[step.call]);
    }
  }

  /** Committed additions that no call will bring to Redis any more. */
  ghost function Lost(s: Sys, p: int): int {
    Added(s.db.logs, p) - IncreasedOf(s, p) - Sum(InFlight(s, p))
  }

  /** What is lost stays lost. */
  lemma LostGrows(s: Sys, step: Step, p: int)
    requires Inv(s.db, s.timeout) && CallsInv(s) && Enabled(s, step)
    ensures Lost(Apply(s, step), p) >= Lost(s, p)
  {
    hide Apply, Inv, CallsInv, Added, Sum, InFlight, NextDb, Enabled;
    ApplyNextDb(s, step);
    LedgerStep(s, step);
    if HasCall(step) {
      InFlightMove(s, step, p);
    } else {
      InFlightSame(s, step, p);
    }
    IncreaseMoves(s, step, p);
  }

  lemma IncreasesKept(s: Sys, step: Step)
    requires Inv(s.db, s.timeout) && CallsInv(s) && IncreasesInv(s) && Enabled(s, step)
    ensures IncreasesInv(Apply(s, step))
  {
    hide Apply, Inv, CallsInv, Added, Sum, InFlight, Enabled;
    forall p ensures IncreasedOf(Apply(s, step), p) + Sum(InFlight(Apply(s, step), p)) <= Added(Apply(s, step).db.logs, p) {
      LostGrows(s, step, p);
    }
  }

  /** The invariant survives every step. */
  lemma StepKeeps(s: Sys, step: Step)
    requires SysInv(s) && Enabled(s, step)
    ensures SysInv(Apply(s, step))
  {
    hide Apply, Inv, CallsInv, ReservationsInv, CreditsInv, CountersInv, AnswersInv, DeadlinesInv, IncreasesInv;
    DbKept(s, step);
    CallsKept(s, step);
    assert OrdersInv(s.db, s.timeout) by { InvParts(s.db, s.timeout); }
    ReservationsKept(s, step);
    CreditsKept(s, step);
    StepEvolves(s, step);
    CountersKept(s, step);
    AnswersKept(s, step);
    DeadlinesKept(s, step);
    IncreasesKept(s, step);
  }

  lemma InvParts(db: Db, timeout: int)
    requires Inv(db, timeout)
    ensures StockInv(db) && LedgerInv(db) && OrdersInv(db, timeout) && KeysInv(db)
  {
    hide StockInv, LedgerInv, OrdersInv, KeysInv;
  }

  /** Safety over whole runs, and how the database may have evolved meanwhile. */
  lemma {:induction false} RunKeeps(s: Sys, steps: seq<Step>)
    requires SysInv(s) && Feasible(s, steps)
    ensures SysInv(Run(s, steps)) && Evolves(s.db, Run(s, steps).db)
    decreases |steps|
  {
    hide SysInv, Evolves, Apply, Enabled;
    if steps == [] {
      SameEvolves(s.db, s.db);
    } else {
      StepKeeps(s, steps[0]);
      assert OrdersInv(s.db, s.timeout) by { SysOrders(s); }
      StepEvolves(s, steps[0]);
      RunKeeps(Apply(s, steps[0]), steps[1..]);
      EvolvesTransitive(s.db, Apply(s, steps[0]).db, Run(s, steps).db);
    }
  }

  lemma SysOrders(s: Sys)
    requires SysInv(s)
    ensures OrdersInv(s.db, s.timeout)
  {
    hide OrdersInv, StockInv, LedgerInv, KeysInv;
  }
}
