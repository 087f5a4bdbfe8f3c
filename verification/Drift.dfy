/** How far the Redis counters may drift from MySQL stock, exactly. */
module Drift {
  import opened Domain
  import opened Items
  import opened Sums
  import opened Tables
  import opened Ledger
  import opened Integrity
  import opened StockGuard
  import opened Protocol
  import opened ProtocolSafety

  /** Quantity of `p` in the reservation of an order that is not live: never committed, or cancelled. */
  function IdleOf(s: Sys, o: int, p: int): int {
    if o in s.redis.reservations && !Live(s.db, o) then QtyOf(s.redis.reservations[o], p) else 0
  }

  /** Quantity of `p` in a live order that was never pre-deducted. */
  function BypassOf(s: Sys, o: int, p: int): int {
    if Live(s.db, o) && o !in s.preDeducted then QtyOf(LinesOf(s.db, o), p) else 0
  }

  ghost function IdleQty(s: Sys, p: int): map<int, int> {
    map o | o in s.redis.reservations :: IdleOf(s, o, p)
  }

  ghost function BypassQty(s: Sys, p: int): map<int, int> {
    map o | o in s.db.orders :: BypassOf(s, o, p)
  }

  /** Additions committed in MySQL that Redis has not applied: still in flight, or lost. */
  function Unapplied(s: Sys, p: int): int {
    Added(s.db.logs, p) - IncreasedOf(s, p)
  }

  /** A missing counter counts as zero. */
  function CounterOf(s: Sys, p: int): int {
    if p in s.redis.available then s.redis.available[p] else 0
  }

  /** Left side minus right side of the drift equation
      counter + idle reservations + unapplied additions = stock + live orders that bypassed Redis. */
  ghost function DriftOf(s: Sys, p: int): int {
    CounterOf(s, p) + Sum(IdleQty(s, p)) + Unapplied(s, p)
      - StockOf(s.db.inventory, p) - Sum(BypassQty(s, p))
  }

  // ---- a step concerns at most one order ----

  /** The order a step concerns; 0 when it concerns none. */
  function Focus(s: Sys, step: Step): int
    requires Enabled(s, step)
  {
    match step
    case BeginCreate(_, _, _, o, _, _) => o
    case CommitCreate(c) => s.calls[c].orderId
    case CommitPay(c) => s.calls[c].orderId
    case CommitFinish(c) => s.calls[c].orderId
    case CommitCancel(c) => s.calls[c].orderId
    case CommitExpire(c) => s.calls[c].orderId
    case RunRedis(c, _) =>
      var call := s.calls[c];
      if call.Releasing? || call.Restoring? || call.Confirming? then call.orderId else 0
    case _ => 0
  }

  /** Nothing about order `q` differs between the two states. */
  ghost predicate SameOrder(s: Sys, after: Sys, q: int) {
    && SameReservation(s, after, q)
    && (q in after.db.orders <==> q in s.db.orders)
    && (Live(after.db, q) <==> Live(s.db, q))
    && (q in s.db.orders ==> LinesOf(after.db, q) == LinesOf(s.db, q))
  }

  /** A transaction leaves other orders' rows alone. */
  lemma OtherRows(s: Sys, step: Step, q: int)
    requires Enabled(s, step) && q != Focus(s, step)
    ensures q in NextDb(s, step).orders <==> q in s.db.orders
    ensures q in s.db.orders ==> NextDb(s, step).orders[q] == s.db.orders[q]
  {
    hide LinesOf, CreateVerdict, Aggregate, LockedCovers, RollbackLogs, DeductLogs, Rows, Released, Consumed, Reserved,
      Bound, Distinct, TotalFen;
  }

  lemma FocusOnly(s: Sys, step: Step, q: int)
    requires OrdersInv(s.db, s.timeout) && Enabled(s, step) && q != Focus(s, step)
    ensures SameOrder(s, Apply(s, step), q)
  {
    hide Apply, Enabled, OrdersInv, LinesOf, NextDb, TouchesReservation;
    assert !TouchesReservation(s, step, q) by { FocusTouches(s, step, q); }
    ReservationStable(s, step, q);
    StepEvolves(s, step);
    ApplyNextDb(s, step);
    OtherRows(s, step, q);
  }

  lemma FocusTouches(s: Sys, step: Step, q: int)
    requires Enabled(s, step) && q != Focus(s, step)
    ensures !TouchesReservation(s, step, q)
  {
    hide Bound, Distinct, InStatus, HasStatus;
  }

  lemma IdleMove(s: Sys, after: Sys, o: int, p: int)
    requires forall q :: q != o ==> SameOrder(s, after, q)
    ensures Sum(IdleQty(after, p)) == Sum(IdleQty(s, p)) - IdleOf(s, o, p) + IdleOf(after, o, p)
  {
    hide Sum, QtyOf, LinesOf, Live;
    forall q | q != o
      ensures q in after.redis.reservations <==> q in s.redis.reservations
      ensures IdleOf(after, q, p) == IdleOf(s, q, p)
    {
      assert SameOrder(s, after, q);
    }
    assert IdleQty(after, p) - {o} == IdleQty(s, p) - {o};
    SumDelete(IdleQty(after, p), o);
    SumDelete(IdleQty(s, p), o);
  }

  lemma BypassMove(s: Sys, after: Sys, o: int, p: int)
    requires forall q :: q != o ==> SameOrder(s, after, q)
    ensures Sum(BypassQty(after, p)) == Sum(BypassQty(s, p)) - BypassOf(s, o, p) + BypassOf(after, o, p)
  {
    hide Sum, QtyOf, LinesOf;
    forall q | q != o
      ensures q in after.db.orders <==> q in s.db.orders
      ensures q in s.db.orders ==> BypassOf(after, q, p) == BypassOf(s, q, p)
    {
      assert SameOrder(s, after, q);
    }
    assert BypassQty(after, p) - {o} == BypassQty(s, p) - {o};
    SumDelete(BypassQty(after, p), o);
    SumDelete(BypassQty(s, p), o);
  }

  /** The part of the drift that a step about order `o` can move. */
  function Local(s: Sys, o: int, p: int): int {
    CounterOf(s, p) + IdleOf(s, o, p) + Unapplied(s, p) - StockOf(s.db.inventory, p) - BypassOf(s, o, p)
  }

  predicate Overwrites(s: Sys, step: Step, p: int)
    requires Enabled(s, step)
  {
    step.RunRedis? && s.calls[step.call].Overwriting? && s.calls[step.call].productId == p
  }

  /** No reservation holds any of the product. */
  predicate Unreserved(s: Sys, p: int) {
    forall o :: o in s.redis.reservations ==> QtyOf(s.redis.reservations[o], p) == 0
  }

  /** Stocked in MySQL, not yet known to Redis. */
  predicate Keyless(s: Sys, p: int) {
    p in s.db.inventory && p !in s.redis.available && Unreserved(s, p)
  }

  /** The step does not write the counter of `p` absolutely: it has one that is not overwritten, or has none before
      and after. */
  predicate Steady(s: Sys, step: Step, p: int)
    requires Enabled(s, step)
  {
    (p in s.redis.available && !Overwrites(s, step, p)) || (Keyless(s, p) && p !in Apply(s, step).redis.available)
  }

  /** A script only reserves products that have counters. */
  lemma ReservesKnown(r: Redis, o: int, items: seq<Item>, p: int)
    requires p !in r.available && o !in r.reservations && o in PreDeduct(r, o, items).0.reservations
    ensures QtyOf(PreDeduct(r, o, items).0.reservations[o], p) == 0
  {
    PreDeductAllOrNothing(r, o, items);
    QtyOfAbsent(items, p);
  }

  /** While a product has no counter nothing of it gets reserved. */
  lemma UnreservedKept(s: Sys, step: Step, p: int)
    requires SysInv(s) && Enabled(s, step) && p !in s.redis.available && Unreserved(s, p)
    ensures Unreserved(Apply(s, step), p)
  {
    hide Apply, Inv, CreditsInv, CountersInv, AnswersInv, DeadlinesInv, IncreasesInv, PreDeduct, Bound, Distinct, UniqueNewIds,
      InitTx, AddTx, QtyOf;
    var after := Apply(s, step);
    forall o | o in after.redis.reservations ensures QtyOf(after.redis.reservations[o], p) == 0 {
      if !TouchesReservation(s, step, o) {
        ReservationStable(s, step, o);
      } else {
        TouchedReservation(s, step, o);
        ApplyNextRedis(s, step);
        if o !in s.redis.reservations && step.BeginCreate? {
          ReservesKnown(s.redis, o, SortedItems(step.items), p);
        }
      }
    }
  }

  // ---- each kind of step balances ----

  lemma BeginBalances(s: Sys, step: Step, p: int)
    requires SysInv(s) && Enabled(s, step) && step.BeginCreate? && Steady(s, step, p)
    ensures p in s.redis.available ==> p in Apply(s, step).redis.available
    ensures Local(Apply(s, step), step.orderId, p) == Local(s, step.orderId, p)
  {
    hide Apply, SysInv, SortedItems, PreDeduct, Bound, Distinct, QtyOf, LinesOf, StockOf, Unreserved;
    ApplyNextDb(s, step);
    ApplyNextRedis(s, step);
    HistoryKept(s, step);
    NewIdNotLive(s, step.orderId);
    if p in s.redis.available {
      ReservedFresh(s.redis, step.orderId, SortedItems(step.items), p);
    } else {
      UnreservedKept(s, step, p);
      UnreservedIdle(s, step.orderId, p);
      UnreservedIdle(Apply(s, step), step.orderId, p);
    }
  }

  /** An unused order id belongs to no order and has no reservation. */
  lemma NewIdNotLive(s: Sys, o: int)
    requires SysInv(s) && o !in s.usedIds
    ensures o !in s.db.orders && o !in s.redis.reservations
  {
    hide Inv, CallsInv, CreditsInv, CountersInv, AnswersInv, DeadlinesInv, IncreasesInv, LinesOf, Bound;
  }

  /** What a fresh pre-deduction takes from a counter, it reserves. */
  lemma ReservedFresh(r: Redis, o: int, items: seq<Item>, p: int)
    requires o !in r.reservations && p in r.available
    ensures var after := PreDeduct(r, o, items).0;
      && p in after.available
      && r.available[p] == after.available[p] + (if o in after.reservations then QtyOf(after.reservations[o], p) else 0)
  {
    hide QtyOf, CheckFrom;
  }

  lemma UnreservedIdle(s: Sys, o: int, p: int)
    requires Unreserved(s, p)
    ensures IdleOf(s, o, p) == 0
  {
    hide QtyOf;
  }

  lemma CreateBalances(s: Sys, step: Step, p: int)
    requires SysInv(s) && Enabled(s, step) && step.CommitCreate? && Steady(s, step, p)
    ensures p in s.redis.available ==> p in Apply(s, step).redis.available
    ensures Local(Apply(s, step), Focus(s, step), p) == Local(s, Focus(s, step), p)
  {
    hide Apply, Bound, Ascending, ReservationsInv, CreditsInv, AnswersInv, DeadlinesInv, IncreasesInv, StockInv, LedgerInv,
      KeysInv, OrdersInv, QtyOf, Added, LinesOf, FreshVerdict, ReplayOutcome, Rows, DeductLogs, UniqueNewIds;
    var call := s.calls[step.call];
    assert CallInv(s, call);
    ReservationStable(s, step, call.orderId) by {
      assert !TouchesReservation(s, step, call.orderId);
    }
    ApplyNextDb(s, step);
    ApplyNextRedis(s, step);
    LedgerStep(s, step);
    HistoryKept(s, step);
    var a := CreateArgsOf(s, call);
    if CreateVerdict(s.db, a) == Created {
      WrittenShape(s.db, a);
    }
  }

  /** Steps that run no increment leave the increment history alone. */
  lemma HistoryKept(s: Sys, step: Step)
    requires Enabled(s, step) && (step.RunRedis? ==> !s.calls[step.call].Increasing?)
    ensures Apply(s, step).increased == s.increased
  {
    hide CreateTx, CancelTx, PayTx, FinishTx, InitTx, AddTx, SortedItems, PreDeduct, Release, Bound, Distinct;
  }

  /** Paying and finishing change neither stock nor ledger, and a live order stays live. */
  lemma PayMoves(s: Sys, step: Step, p: int)
    requires Enabled(s, step) && (step.CommitPay? || step.CommitFinish?)
    ensures var after, o := NextDb(s, step), s.calls[step.call].orderId;
      && StockOf(after.inventory, p) == StockOf(s.db.inventory, p) && after.logs == s.db.logs
      && after.items == s.db.items && (Live(after, o) <==> Live(s.db, o))
  {
    hide PayTx, FinishTx, Live, StockOf;
    PayTxMoves(s.db, s.calls[step.call].userId, s.calls[step.call].orderId, s.now, p);
  }

  lemma PayTxMoves(db: Db, u: int, o: int, now: int, p: int)
    ensures var after := PayTx(db, u, o, now).0;
      && StockOf(after.inventory, p) == StockOf(db.inventory, p) && after.logs == db.logs
      && after.items == db.items && (Live(after, o) <==> Live(db, o))
    ensures var after := FinishTx(db, u, o, now).0;
      && StockOf(after.inventory, p) == StockOf(db.inventory, p) && after.logs == db.logs
      && after.items == db.items && (Live(after, o) <==> Live(db, o))
  {
    hide QtyOf, LinesOf, LockedCovers, Aggregate;
  }

  lemma PayBalances(s: Sys, step: Step, p: int)
    requires SysInv(s) && Enabled(s, step) && (step.CommitPay? || step.CommitFinish?) && Steady(s, step, p)
    ensures p in s.redis.available ==> p in Apply(s, step).redis.available
    ensures Local(Apply(s, step), Focus(s, step), p) == Local(s, Focus(s, step), p)
  {
    hide Apply, SysInv, NextDb, Live, QtyOf, Added, LinesOf, StockOf, Unreserved;
    var o := Focus(s, step);
    ReservationStable(s, step, o) by {
      assert !TouchesReservation(s, step, o);
    }
    ApplyNextDb(s, step);
    ApplyNextRedis(s, step);
    PayMoves(s, step, p);
    SameLines(s.db, NextDb(s, step), o);
    HistoryKept(s, step);
  }

  /** Cancelling gives back what the order held, and ends its life. */
  lemma CancelMoves(db: Db, u: int, o: int, now: int, byTimeout: bool, p: int, timeout: int)
    requires Inv(db, timeout) && p in db.inventory
    ensures var (after, out) := CancelTx(db, u, o, now, byTimeout);
      && after.items == db.items
      && (out == Moved ==>
            && HasStatus(db, o, Pending) && !Live(after, o)
            && StockOf(after.inventory, p) == StockOf(db.inventory, p) + QtyOf(LinesOf(db, o), p))
      && (out != Moved ==> after == db)
  {
    hide Inv, QtyOf, LinesOf, LockedCovers, Aggregate, RollbackLogs;
    if InStatus(db, u, o, Pending) {
      InvParts(db, timeout);
      LockedSuffices(db, o, timeout);
    }
  }

  /** A Pending order of a tracked product either holds a reservation or bypassed Redis. */
  lemma PendingTracked(s: Sys, o: int, p: int)
    requires ReservationsInv(s) && HasStatus(s.db, o, Pending)
    ensures o in s.preDeducted ==> o in s.redis.reservations && s.redis.reservations[o] == LinesOf(s.db, o)
    ensures o in s.redis.reservations ==> o in s.preDeducted && s.redis.reservations[o] == LinesOf(s.db, o)
  {
    hide LinesOf, Bound;
  }

  lemma CancelBalances(s: Sys, step: Step, p: int)
    requires SysInv(s) && Enabled(s, step) && (step.CommitCancel? || step.CommitExpire?) && Steady(s, step, p)
    ensures p in s.redis.available ==> p in Apply(s, step).redis.available
    ensures Local(Apply(s, step), Focus(s, step), p) == Local(s, Focus(s, step), p)
  {
    hide Apply, Inv, CallsInv, ReservationsInv, CreditsInv, AnswersInv, DeadlinesInv, IncreasesInv, CancelTx,
      QtyOf, Added, LinesOf, StockOf;
    var o := Focus(s, step);
    ReservationStable(s, step, o) by {
      assert !TouchesReservation(s, step, o);
    }
    ApplyNextDb(s, step);
    ApplyNextRedis(s, step);
    LedgerStep(s, step);
    HistoryKept(s, step);
    SameLines(s.db, NextDb(s, step), o) by {
      CancelMoves(s.db, s.calls[step.call].userId, o, s.now, step.CommitExpire?, p, s.timeout);
    }
    CancelMoves(s.db, s.calls[step.call].userId, o, s.now, step.CommitExpire?, p, s.timeout);
    if HasStatus(s.db, o, Pending) {
      PendingTracked(s, o, p);
    }
  }

  lemma ReleaseBalances(s: Sys, o: int, p: int)
    requires (p in s.redis.available || Unreserved(s, p)) && !Live(s.db, o)
    ensures p in s.redis.available ==> p in DoRelease(s, o).redis.available
    ensures Local(DoRelease(s, o), o, p) == Local(s, o, p)
  {
    hide QtyOf, Added, LinesOf, StockOf;
  }

  /** The scripts balance, one at a time. */
  lemma ScriptBalances(s: Sys, call: Call, p: int)
    requires RedisPending(call) && CallInv(s, call)
    requires p in s.redis.available || (Unreserved(s, p) && p !in DoRedis(s, call).redis.available)
    requires p in s.redis.available && call.Overwriting? ==> call.productId != p
    ensures var o := if call.Releasing? || call.Restoring? || call.Confirming? then call.orderId else 0;
      Local(DoRedis(s, call), o, p) == Local(s, o, p)
    ensures p in s.redis.available ==> p in DoRedis(s, call).redis.available
  {
    hide QtyOf, Added, LinesOf, StockOf, Release, DoRelease, Bound, Ascending;
    match call {
      case Releasing(o) => ReleaseBalances(s, o, p);
      case Restoring(o) => ReleaseBalances(s, o, p);
      case _ =>
    }
  }

  lemma RedisBalances(s: Sys, step: Step, p: int)
    requires SysInv(s) && Enabled(s, step) && step.RunRedis? && Steady(s, step, p)
    ensures p in s.redis.available ==> p in Apply(s, step).redis.available
    ensures Local(Apply(s, step), Focus(s, step), p) == Local(s, Focus(s, step), p)
  {
    hide SysInv, DoRedis, CallInv, Unreserved, QtyOf, Added, LinesOf, StockOf;
    var call := s.calls[step.call];
    assert CallInv(s, call) by { PendingCall(s, step.call); }
    var after := Apply(s, step);
    assert after == DoRedis(s, call) || after == Done(DoRedis(s, call), step.call);
    ScriptBalances(s, call, p);
  }

  lemma PendingCall(s: Sys, c: int)
    requires SysInv(s) && c in s.calls
    ensures CallInv(s, s.calls[c])
  {
    hide CallInv, Inv, UniqueNewIds, ReservationsInv, CreditsInv, CountersInv, AnswersInv, DeadlinesInv, IncreasesInv;
  }

  /** Steps that belong to no order and reach no script. */
  predicate Supplies(step: Step) {
    !step.BeginCreate? && !step.CommitCreate? && !step.CommitPay? && !step.CommitFinish?
    && !step.CommitCancel? && !step.CommitExpire? && !step.RunRedis?
  }

  /** Stock supplied in MySQL is exactly what the ledger counts as added, once the product has its row. */
  lemma SupplyMoves(s: Sys, step: Step, p: int)
    requires Inv(s.db, s.timeout) && Enabled(s, step) && Supplies(step) && p in s.db.inventory
    ensures StockOf(NextDb(s, step).inventory, p) - StockOf(s.db.inventory, p)
      == Added(NextDb(s, step).logs, p) - Added(s.db.logs, p)
    ensures NextDb(s, step).orders == s.db.orders && NextDb(s, step).items == s.db.items
  {
    hide Inv, Added, CreateTx, CancelTx, PayTx, FinishTx, Bound, Distinct;
    LedgerStep(s, step);
  }

  lemma SupplyBalances(s: Sys, step: Step, p: int)
    requires SysInv(s) && Enabled(s, step) && Steady(s, step, p) && Supplies(step)
    ensures p in s.redis.available ==> p in Apply(s, step).redis.available
    ensures Local(Apply(s, step), Focus(s, step), p) == Local(s, Focus(s, step), p)
  {
    hide Apply, Inv, CallsInv, ReservationsInv, CreditsInv, AnswersInv, DeadlinesInv, IncreasesInv,
      QtyOf, Added, LinesOf, StockOf, Bound, Distinct, InStatus, InitTx, AddTx, NextDb, Unreserved;
    ReservationStable(s, step, 0) by {
      assert !TouchesReservation(s, step, 0);
    }
    ApplyNextDb(s, step);
    ApplyNextRedis(s, step);
    SupplyMoves(s, step, p);
    SameLines(s.db, NextDb(s, step), 0);
    HistoryKept(s, step);
  }

  lemma SameLines(a: Db, b: Db, o: int)
    requires a.items == b.items
    ensures LinesOf(a, o) == LinesOf(b, o)
  {
  }

  lemma StepBalances(s: Sys, step: Step, p: int)
    requires SysInv(s) && Enabled(s, step) && Steady(s, step, p)
    ensures p in s.redis.available ==> p in Apply(s, step).redis.available
    ensures Local(Apply(s, step), Focus(s, step), p) == Local(s, Focus(s, step), p)
  {
    hide Apply, SysInv, Local, Steady;
    match step {
      case BeginCreate(_, _, _, _, _, _) => BeginBalances(s, step, p);
      case CommitCreate(_) => CreateBalances(s, step, p);
      case CommitPay(_) => PayBalances(s, step, p);
      case CommitFinish(_) => PayBalances(s, step, p);
      case CommitCancel(_) => CancelBalances(s, step, p);
      case CommitExpire(_) => CancelBalances(s, step, p);
      case RunRedis(_, _) => RedisBalances(s, step, p);
      case _ => SupplyBalances(s, step, p);
    }
  }

  /** The drift of a product changes only when its counter is written absolutely. */
  lemma DriftStep(s: Sys, step: Step, p: int)
    requires SysInv(s) && Enabled(s, step) && Steady(s, step, p)
    ensures p in s.redis.available ==> p in Apply(s, step).redis.available
    ensures p !in s.redis.available ==> Keyless(Apply(s, step), p)
    ensures DriftOf(Apply(s, step), p) == DriftOf(s, p)
  {
    hide Apply, SysInv, IdleOf, BypassOf, Unapplied, IdleQty, BypassQty, Sum, Enabled, Focus, Evolves, Unreserved;
    var after, o := Apply(s, step), Focus(s, step);
    assert OrdersInv(s.db, s.timeout) by { SysOrders(s); }
    forall q | q != o ensures SameOrder(s, after, q) {
      FocusOnly(s, step, q);
    }
    StepBalances(s, step, p);
    IdleMove(s, after, o, p);
    BypassMove(s, after, o, p);
    if p !in s.redis.available {
      UnreservedKept(s, step, p);
      InventoryGrows(s, step);
    }
  }

  lemma InventoryGrows(s: Sys, step: Step)
    requires SysInv(s) && Enabled(s, step)
    ensures s.db.inventory.Keys <= Apply(s, step).db.inventory.Keys
  {
    hide Apply, SysInv, Enabled;
    SysOrders(s);
    StepEvolves(s, step);
  }
}
