/** Seeded before sale: the drift equation from the moment a product is first stocked. */
module Seeding {
  import opened Domain
  import opened Items
  import opened Sums
  import opened Tables
  import opened Ledger
  import opened Integrity
  import opened StockGuard
  import opened Protocol
  import opened ProtocolSafety
  import opened Drift
  import opened Guarantees

  /** Redis and the ledger know nothing of the product. */
  predicate Unknown(s: Sys, p: int) {
    && p !in s.redis.available && Unreserved(s, p)
    && Added(s.db.logs, p) == 0 && IncreasedOf(s, p) == 0
  }

  /** Products without an inventory row are unknown. */
  ghost predicate NewProductsInv(s: Sys) {
    forall p :: p !in s.db.inventory ==> Unknown(s, p)
  }

  lemma IncreaseStaysUnknown(s: Sys, step: Step, p: int)
    requires CallsInv(s) && Enabled(s, step) && p !in s.db.inventory
    ensures IncreasedOf(Apply(s, step), p) == IncreasedOf(s, p)
  {
    hide CreateTx, CancelTx, PayTx, FinishTx, InitTx, AddTx, SortedItems, PreDeduct, Release, Bound, Distinct, UniqueNewIds;
    if step.RunRedis? {
      assert CallInv(s, s.calls[step.call]);
    }
  }

  lemma NewProductsKept(s: Sys, step: Step)
    requires SysInv(s) && NewProductsInv(s) && Enabled(s, step)
    ensures NewProductsInv(Apply(s, step))
  {
    hide Apply, SysInv, Added, Mentions, Evolves, CreateTx, CancelTx, PayTx, FinishTx, InitTx, Bound, Distinct;
    var after := Apply(s, step);
    InventoryGrows(s, step);
    assert Inv(s.db, s.timeout) && CallsInv(s) by { SysParts(s); }
    ApplyNextDb(s, step);
    LedgerStep(s, step);
    StepKeeps(s, step);
    forall p | p !in after.db.inventory ensures Unknown(after, p) {
      assert Unknown(s, p);
      IncreaseStaysUnknown(s, step, p);
      UnreservedKept(s, step, p);
      assert p !in after.redis.available by { CountersStocked(after); }
    }
  }

  lemma CountersStocked(s: Sys)
    requires SysInv(s)
    ensures s.redis.available.Keys <= s.db.inventory.Keys
  {
    hide Inv, CallsInv, ReservationsInv, CreditsInv, AnswersInv, DeadlinesInv, IncreasesInv;
  }

  lemma {:induction false} NewProductsRun(s: Sys, steps: seq<Step>)
    requires SysInv(s) && NewProductsInv(s) && Feasible(s, steps)
    ensures NewProductsInv(Run(s, steps))
    decreases |steps|
  {
    hide SysInv, NewProductsInv, Apply, Enabled;
    if steps != [] {
      StepKeeps(s, steps[0]);
      NewProductsKept(s, steps[0]);
      NewProductsRun(Apply(s, steps[0]), steps[1..]);
    }
  }

  lemma ReachableUnknown(s: Sys, p: int)
    requires Reachable(s) && p !in s.db.inventory
    ensures Unknown(s, p)
  {
    hide SysInv, Feasible, Run, Unknown;
    var products, now, timeout, steps :|
      Feasible(Initial(products, now, timeout), steps) && Run(Initial(products, now, timeout), steps) == s;
    InitialInv(products, now, timeout);
    assert NewProductsInv(Initial(products, now, timeout)) by { InitialUnknown(products, now, timeout); }
    NewProductsRun(Initial(products, now, timeout), steps);
  }

  lemma InitialUnknown(products: map<int, Product>, now: int, timeout: int)
    ensures NewProductsInv(Initial(products, now, timeout))
  {
  }

  /** Right after its first stocking nothing of a product is reserved, ordered or unapplied, and it has no counter. */
  lemma StockedIsQuiet(s: Sys, c: int, p: int, q: int)
    requires Reachable(s) && Enabled(s, InitStock(c, p, q))
    ensures var mid := Apply(s, InitStock(c, p, q));
      && Quiet(mid, p) && Keyless(mid, p) && StockOf(mid.db.inventory, p) == q && DriftOf(mid, p) == -q
      && c in mid.calls && mid.calls[c] == Overwriting(p, q)
  {
    hide Reachable, Inv, LinesOf, Mentions, CallsInv, ReservationsInv, CreditsInv, CountersInv, AnswersInv, DeadlinesInv,
      IncreasesInv, Sum, Bound;
    ReachableSafe(s);
    ReachableUnknown(s, p);
    SysOrders(s);
    var mid := Apply(s, InitStock(c, p, q));
    SnocAdded(s.db.logs, StockLog(p, 0, q, q, InitialStock));
    assert IncreasedOf(mid, p) == IncreasedOf(s, p);
    forall o | o in mid.db.orders ensures !Mentions(LinesOf(mid.db, o), p) {
      assert LinesOf(mid.db, o) == LinesOf(s.db, o) by { SameLines(s.db, mid.db, o); }
      NotStocked(s.db, o, p, s.timeout);
    }
    forall o | o in mid.redis.reservations ensures !Mentions(mid.redis.reservations[o], p) {
      ReservationBound(s, o);
      QtyOfNonNegative(s.redis.reservations[o], p);
    }
    QuietSums(mid, p);
  }

  lemma ReservationBound(s: Sys, o: int)
    requires SysInv(s) && o in s.redis.reservations
    ensures Bound(s.redis.reservations[o])
  {
    hide Inv, CallsInv, CreditsInv, CountersInv, AnswersInv, DeadlinesInv, IncreasesInv, Bound, LinesOf;
  }

  lemma NotStocked(db: Db, o: int, p: int, timeout: int)
    requires OrdersInv(db, timeout) && o in db.orders && p !in db.inventory
    ensures !Mentions(LinesOf(db, o), p)
  {
    hide LinesOf, Priced, SubtotalSum, Bound, Ascending;
    assert OrderInv(db, o, timeout);
  }

  /** Whatever happened before the product was stocked, whatever interleaves between that commit and its seed, sales of
      the product included, and whatever interleaves afterwards: as long as the seed is the first command to give it a
      counter and nobody overwrites that, the drift equation holds. The guard overstates stock by at most the orders
      that bypassed it, and equals stock whenever nothing is outstanding. */
  lemma SeededBeforeSale(s: Sys, c: int, p: int, q: int, gap: seq<Step>, again: bool, steps: seq<Step>)
    requires Reachable(s) && Enabled(s, InitStock(c, p, q))
    requires Feasible(Apply(s, InitStock(c, p, q)), gap)
    requires var late := Run(Apply(s, InitStock(c, p, q)), gap);
      && p !in late.redis.available && c in late.calls && late.calls[c] == Overwriting(p, q)
      && Enabled(late, RunRedis(c, again))
      && Feasible(Apply(late, RunRedis(c, again)), steps) && NeverOverwritten(Apply(late, RunRedis(c, again)), steps, p)
    ensures var end := Run(Apply(Run(Apply(s, InitStock(c, p, q)), gap), RunRedis(c, again)), steps);
      && Balanced(end, p)
      && var counter, stock := end.redis.available[p], StockOf(end.db.inventory, p);
      && counter <= stock + Sum(BypassQty(end, p))
      && (Quiet(end, p) ==> counter == stock)
  {
    hide Reachable, SysInv, Apply, Enabled, Feasible, Run, NeverOverwritten, Quiet, Sum, Unapplied, IdleQty, BypassQty,
      Overwrites, Keyless;
    var mid, seed := Apply(s, InitStock(c, p, q)), RunRedis(c, again);
    StockedIsQuiet(s, c, p, q);
    ReachableSafe(s);
    StepKeeps(s, InitStock(c, p, q));
    KeylessOverRun(mid, gap, p);
    RunKeeps(mid, gap);
    var late := Run(mid, gap);
    SeedZeroesDrift(late, c, p, q, again);
    StepKeeps(late, seed);
    DriftOverRun(Apply(late, seed), steps, p);
    RunKeeps(Apply(late, seed), steps);
    BalancedGuard(Run(Apply(late, seed), steps), p);
  }

  lemma SeedZeroesDrift(s: Sys, c: int, p: int, q: int, again: bool)
    requires p !in s.redis.available && c in s.calls && s.calls[c] == Overwriting(p, q)
    requires Enabled(s, RunRedis(c, again))
    ensures p in Apply(s, RunRedis(c, again)).redis.available
    ensures DriftOf(Apply(s, RunRedis(c, again)), p) == DriftOf(s, p) + q
  {
    hide Apply, Sum, Unapplied, IdleQty, BypassQty;
    OverwriteDrift(s, RunRedis(c, again), p);
  }

  /** What the equation means for the counter. */
  lemma BalancedGuard(s: Sys, p: int)
    requires SysInv(s) && p in s.redis.available && DriftOf(s, p) == 0
    ensures Balanced(s, p)
    ensures s.redis.available[p] <= StockOf(s.db.inventory, p) + Sum(BypassQty(s, p))
    ensures Quiet(s, p) ==> s.redis.available[p] == StockOf(s.db.inventory, p)
  {
    hide SysInv, Quiet, Sum, Unapplied, IdleQty, BypassQty;
    OutstandingNonNegative(s, p);
    if Quiet(s, p) {
      QuietSums(s, p);
      QuietUnapplied(s, p);
    }
  }

  /** The seed may follow its commit at once. */
  lemma SeededAtOnce(s: Sys, c: int, p: int, q: int, steps: seq<Step>)
    requires Reachable(s) && Enabled(s, InitStock(c, p, q))
    requires var mid := Apply(s, InitStock(c, p, q));
      Enabled(mid, RunRedis(c, false)) && Feasible(Apply(mid, RunRedis(c, false)), steps)
      && NeverOverwritten(Apply(mid, RunRedis(c, false)), steps, p)
    ensures var end := Run(Apply(Apply(s, InitStock(c, p, q)), RunRedis(c, false)), steps);
      Balanced(end, p) && end.redis.available[p] <= StockOf(end.db.inventory, p) + Sum(BypassQty(end, p))
  {
    hide Reachable, Apply, Enabled, NeverOverwritten, Quiet, Sum, Unapplied, IdleQty, BypassQty, Unreserved;
    StockedIsQuiet(s, c, p, q);
    SeededBeforeSale(s, c, p, q, [], false, steps);
  }

  /** When the seed is lost and an addition's fallback creates the counter instead, the equation misses by fallback
      minus increment minus first stock, whatever happened between; so it holds exactly when these cancel. */
  lemma FallbackInsteadOfSeed(s: Sys, c: int, p: int, q: int, gap: seq<Step>, d: int, again: bool, steps: seq<Step>)
    requires Reachable(s) && Enabled(s, InitStock(c, p, q))
    requires Feasible(Apply(s, InitStock(c, p, q)), gap)
    requires var late := Run(Apply(s, InitStock(c, p, q)), gap);
      && p !in late.redis.available && d in late.calls && late.calls[d].Increasing? && late.calls[d].productId == p
      && Enabled(late, RunRedis(d, again))
      && Feasible(Apply(late, RunRedis(d, again)), steps) && NeverOverwritten(Apply(late, RunRedis(d, again)), steps, p)
    ensures var late := Run(Apply(s, InitStock(c, p, q)), gap);
      var end := Run(Apply(late, RunRedis(d, again)), steps);
      && p in end.redis.available
      && DriftOf(end, p) == late.calls[d].fallback - late.calls[d].delta - q
      && (Balanced(end, p) <==> late.calls[d].fallback == q + late.calls[d].delta)
  {
    hide Reachable, SysInv, Apply, Enabled, Feasible, Run, NeverOverwritten, Quiet, Sum, Unapplied, IdleQty, BypassQty,
      Overwrites, Keyless;
    var mid, step := Apply(s, InitStock(c, p, q)), RunRedis(d, again);
    StockedIsQuiet(s, c, p, q);
    ReachableSafe(s);
    StepKeeps(s, InitStock(c, p, q));
    KeylessOverRun(mid, gap, p);
    RunKeeps(mid, gap);
    var late := Run(mid, gap);
    FallbackDrift(late, step, p);
    StepKeeps(late, step);
    DriftOverRun(Apply(late, step), steps, p);
  }
}
