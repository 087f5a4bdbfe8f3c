/** The promises of the order service, over every run from the empty shop. */
module Guarantees {
  import opened Domain
  import opened Items
  import opened Sums
  import opened Tables
  import opened Ledger
  import opened Integrity
  import opened StockGuard
  import opened Protocol
  import opened ProtocolSafety
  import opened Drift

  /** States that some run reaches. */
  ghost predicate Reachable(s: Sys) {
    exists products, now, timeout, steps ::
      Feasible(Initial(products, now, timeout), steps) && Run(Initial(products, now, timeout), steps) == s
  }

  lemma ReachableSafe(s: Sys)
    requires Reachable(s)
    ensures SysInv(s)
  {
    hide SysInv, Evolves, Feasible, Run, Initial;
    var products, now, timeout, steps :|
      Feasible(Initial(products, now, timeout), steps) && Run(Initial(products, now, timeout), steps) == s;
    InitialInv(products, now, timeout);
    RunKeeps(Initial(products, now, timeout), steps);
  }

  lemma {:induction false} RunSnoc(s: Sys, steps: seq<Step>, step: Step)
    requires Feasible(s, steps) && Enabled(Run(s, steps), step)
    ensures Feasible(s, steps + [step]) && Run(s, steps + [step]) == Apply(Run(s, steps), step)
    decreases |steps|
  {
    hide Enabled, Apply;
    if steps == [] {
      assert steps + [step] == [step] && [step][1..] == [];
      assert Feasible(Apply(s, step), []);
    } else {
      RunSnoc(Apply(s, steps[0]), steps[1..], step);
      assert (steps + [step])[1..] == steps[1..] + [step];
    }
  }

  lemma ReachableStep(s: Sys, step: Step)
    requires Reachable(s) && Enabled(s, step)
    ensures Reachable(Apply(s, step))
  {
    hide Initial, Enabled, Apply, Feasible, Run;
    var products, now, timeout, steps :|
      Feasible(Initial(products, now, timeout), steps) && Run(Initial(products, now, timeout), steps) == s;
    RunSnoc(Initial(products, now, timeout), steps, step);
  }

  lemma ReachableInitial(products: map<int, Product>, now: int, timeout: int)
    ensures Reachable(Initial(products, now, timeout))
  {
    hide Initial;
    assert Feasible(Initial(products, now, timeout), []) && Run(Initial(products, now, timeout), []) == Initial(products, now, timeout);
  }

  // ---- MySQL ----

  /** No oversell and conservation, whatever Redis answered: stock and locked are never negative, locked is what Pending
      orders hold, and with the shipped quantity they add up to all stock ever supplied. */
  lemma Conservation(s: Sys, p: int)
    requires Reachable(s) && p in s.db.inventory
    ensures var row := s.db.inventory[p];
      && row.stock >= 0 && row.locked >= 0
      && row.locked == Sum(PendingQty(s.db, p))
      && row.stock + row.locked + Sum(ShippedQty(s.db, p)) == Supply(s.db.logs, p)
  {
    ReachableSafe(s);
    assert Inv(s.db, s.timeout) by { SysParts(s); }
    InvParts(s.db, s.timeout);
    hide Sum, Supply, Reachable, SysInv, Inv, OrdersInv, LedgerInv, KeysInv, PendingOf;
    assert ProductStock(s.db, p);
    forall o | o in s.db.orders ensures PendingOf(s.db, o, p) >= 0 {
      PendingNonNegative(s.db, o, p, s.timeout);
    }
    SumNonNegative(PendingQty(s.db, p));
  }

  lemma PendingNonNegative(db: Db, o: int, p: int, timeout: int)
    requires OrdersInv(db, timeout) && o in db.orders
    ensures PendingOf(db, o, p) >= 0
  {
    hide LinesOf, QtyOf, SubtotalSum, Priced, Ascending, Bound, Stamps, Stocked;
    assert OrderInv(db, o, timeout);
    QtyOfNonNegative(LinesOf(db, o), p);
  }

  /** The ledger of a product starts at zero, chains without gaps and ends at the stock column. */
  lemma FaithfulLedger(s: Sys, i: nat)
    requires Reachable(s) && i < |s.db.logs|
    ensures var log := s.db.logs[i];
      log.before == Balance(s.db.logs[..i], log.productId) && log.after == log.before + log.change
    ensures forall p :: p in s.db.inventory ==> Balance(s.db.logs, p) == s.db.inventory[p].stock
  {
    ReachableSafe(s);
    hide Balance, Supply, OrderLedger;
    ChainAt(s.db.logs, i);
    forall p | p in s.db.inventory ensures Balance(s.db.logs, p) == s.db.inventory[p].stock {
      assert Balance(s.db.logs, p) == StockOf(s.db.inventory, p);
    }
  }

  lemma {:induction false} ChainAt(logs: seq<StockLog>, i: nat)
    requires Chain(logs) && i < |logs|
    ensures logs[i].before == Balance(logs[..i], logs[i].productId) && logs[i].after == logs[i].before + logs[i].change
  {
    hide Balance;
    var n := |logs| - 1;
    if i < n {
      ChainAt(logs[..n], i);
      assert logs[..n][..i] == logs[..i];
    }
  }

  /** Everything recorded with a committed order. */
  lemma CommittedBundle(s: Sys, o: int)
    requires Reachable(s) && o in s.db.orders
    ensures o in s.db.items && o in s.db.outbox
    ensures var order, lines := s.db.orders[o], LinesOf(s.db, o);
      && lines != [] && Distinct(lines) && Bound(lines)
      && order.totalFen == SubtotalSum(s.db.items[o]) && Priced(s.db.items[o])
      && Stamps(order)
      && Deductions(s.db.logs, o) == lines
      && Rollbacks(s.db.logs, o) == (if order.status.Cancelled? then lines else [])
      && s.db.outbox[o].timeoutAt == order.createdAt + s.timeout
    ensures exists k :: k in s.db.keys && s.db.keys[k].orderId == Some(o)
    ensures forall k, l ::
      k in s.db.keys && l in s.db.keys && s.db.keys[k].orderId == Some(o) && s.db.keys[l].orderId == Some(o) ==> k == l
  {
    ReachableSafe(s);
    hide LinesOf, SubtotalSum, Priced, Deductions, Rollbacks, Supply, Balance, Chain, Bound;
    assert OrderInv(s.db, o, s.timeout);
    assert OrderLedger(s.db, o);
    AscendingDistinct(LinesOf(s.db, o));
  }

  /** How often an order leaves Pending during a run. */
  ghost function Departures(s: Sys, steps: seq<Step>, o: int): nat
    requires Feasible(s, steps)
    decreases |steps|
  {
    if steps == [] then 0
    else
      var next := Apply(s, steps[0]);
      (if HasStatus(s.db, o, Pending) && !HasStatus(next.db, o, Pending) then 1 else 0)
        + Departures(next, steps[1..], o)
  }

  predicate Settled(db: Db, o: int) {
    o in db.orders && !db.orders[o].status.Pending?
  }

  /** Whatever pay, cancel and timeout race on an order, it leaves Pending at most once,
      and has done so exactly when it is found settled. */
  lemma {:induction false} LeavesPendingOnce(s: Sys, steps: seq<Step>, o: int)
    requires SysInv(s) && Feasible(s, steps)
    ensures Departures(s, steps, o) == if !Settled(s.db, o) && Settled(Run(s, steps).db, o) then 1 else 0
    decreases |steps|
  {
    hide SysInv, Apply, Enabled;
    if steps != [] {
      var next := Apply(s, steps[0]);
      StepKeeps(s, steps[0]);
      SysOrders(s);
      StepEvolves(s, steps[0]);
      RunKeeps(next, steps[1..]);
      LeavesPendingOnce(next, steps[1..], o);
      if o in next.db.orders && o !in s.db.orders {
        CommittedLines(s, steps[0], o);
      }
    }
  }

  /** The timeout consumer cancels an order at or after its stored deadline, never before. */
  lemma TimeoutNeverEarly(s: Sys, o: int)
    requires Reachable(s) && TimeoutRollback(s.db.logs, o)
    ensures HasStatus(s.db, o, Cancelled)
    ensures s.db.orders[o].cancelledAt.Some?
    ensures s.db.orders[o].cancelledAt.value >= s.db.orders[o].createdAt + s.timeout
  {
    ReachableSafe(s);
    hide TimeoutRollback, SubtotalSum, LinesOf, Priced, GoodLines;
    assert OrderInv(s.db, o, s.timeout);
  }

  // ---- idempotency ----

  /** All successful answers for a user and key name the same order, which is that user's and matches the request. */
  lemma OneOrderPerKey(s: Sys, a: Answer, b: Answer)
    requires Reachable(s) && a in s.answers && b in s.answers && a.userId == b.userId && a.key == b.key
    ensures a.orderId == b.orderId
    ensures OwnedBy(s.db, a.userId, a.orderId)
    ensures (a.userId, a.key) in s.db.keys
    ensures LinesOf(s.db, a.orderId) == s.db.keys[(a.userId, a.key)].digest
  {
    ReachableSafe(s);
    hide LinesOf;
    assert KeyInv(s.db, (a.userId, a.key));
  }

  /** The guard turns a request away exactly when Redis is heard, knows no reservation of the new order id, and the first
      line not covered by its counter has a counter. Either way MySQL is unchanged so far. */
  lemma RefusedIff(s: Sys, step: Step)
    requires Enabled(s, step) && step.BeginCreate?
    ensures var lines := SortedItems(step.items);
      var refused := step.link == Up && step.orderId !in s.redis.reservations && ShortAtFirstGap(s.redis.available, lines);
      && Apply(s, step).db == s.db
      && (refused <==> step.call !in Apply(s, step).calls)
      && (!refused ==>
            && Apply(s, step).calls[step.call].Creating?
            && CreateArgsOf(s, Apply(s, step).calls[step.call]) == CreateArgs(step.userId, step.key, step.orderId, lines, s.now, s.timeout))
  {
    hide SortedItems, Bound, Distinct, ShortAtFirstGap, CheckFrom;
    InsufficientIff(s.redis.available, SortedItems(step.items), 0);
  }

  /** A repeated request with an unchanged body is answered with the original order exactly when the guard does not refuse
      it: whatever others do until its transaction, that transaction then answers the original order and changes nothing.
      (The transaction may still fail for its own reasons; then there is no answer, and MySQL is unchanged too.) */
  lemma ReplayIff(s: Sys, step: Step, steps: seq<Step>)
    requires SysInv(s) && Enabled(s, step) && step.BeginCreate?
    requires (step.userId, step.key) in s.db.keys
    requires s.db.keys[(step.userId, step.key)].digest == SortedItems(step.items)
    requires Feasible(Apply(s, step), steps)
    ensures var refused := step.link == Up && step.orderId !in s.redis.reservations
        && ShortAtFirstGap(s.redis.available, SortedItems(step.items));
      var begun := Apply(s, step);
      var late := Run(begun, steps);
      && begun.db == s.db
      && (refused <==> step.call !in begun.calls)
      && (!refused && step.call in late.calls && late.calls[step.call] == begun.calls[step.call] ==>
            && s.db.keys[(step.userId, step.key)].orderId.Some?
            && Enabled(late, CommitCreate(step.call)) && Enabled(late, AbortCreate(step.call))
            && Apply(late, CommitCreate(step.call)).db == late.db
            && Apply(late, CommitCreate(step.call)).answers
                 == late.answers + {Answer(step.userId, step.key, s.db.keys[(step.userId, step.key)].orderId.value)}
            && Apply(late, AbortCreate(step.call)).db == late.db
            && Apply(late, AbortCreate(step.call)).answers == late.answers)
  {
    hide SysInv, SortedItems, Bound, Distinct, ShortAtFirstGap, Feasible, Run, Apply, Enabled, CreateTx;
    RefusedIff(s, step);
    var begun := Apply(s, step);
    StepKeeps(s, step);
    RunKeeps(begun, steps);
    var late := Run(begun, steps);
    if step.call in begun.calls && step.call in late.calls && late.calls[step.call] == begun.calls[step.call] {
      ReplayCommit(late, step.call);
    }
  }

  /** The transaction of a create call whose key is taken by the same request. */
  lemma ReplayCommit(s: Sys, c: int)
    requires SysInv(s) && c in s.calls && s.calls[c].Creating?
    requires var key := (s.calls[c].userId, s.calls[c].key);
      key in s.db.keys && s.db.keys[key].digest == s.calls[c].items
    ensures var key := (s.calls[c].userId, s.calls[c].key);
      && s.db.keys[key].orderId.Some?
      && Enabled(s, CommitCreate(c)) && Enabled(s, AbortCreate(c))
      && Apply(s, CommitCreate(c)).db == s.db
      && Apply(s, CommitCreate(c)).answers == s.answers + {Answer(key.0, key.1, s.db.keys[key].orderId.value)}
      && Apply(s, AbortCreate(c)).db == s.db && Apply(s, AbortCreate(c)).answers == s.answers
  {
    hide SysInv, Apply, CreateVerdict, Written;
    assert Inv(s.db, s.timeout) by { SysParts(s); }
    ReplayIsExact(s.db, CreateArgsOf(s, s.calls[c]), s.timeout);
    CreateEnds(s, c);
  }

  lemma CreateEnds(s: Sys, c: int)
    requires c in s.calls && s.calls[c].Creating?
    ensures Enabled(s, CommitCreate(c)) && Apply(s, CommitCreate(c)) == DoCommitCreate(s, c)
    ensures Enabled(s, AbortCreate(c)) && Apply(s, AbortCreate(c)) == Compensate(s, c)
  {
    hide DoCommitCreate, Compensate;
  }

  // ---- Redis ----

  predicate NeverOverwritten(s: Sys, steps: seq<Step>, p: int)
    requires Feasible(s, steps)
    decreases |steps|
  {
    steps == [] || (!Overwrites(s, steps[0], p) && NeverOverwritten(Apply(s, steps[0]), steps[1..], p))
  }

  /** Over any run that does not overwrite the counter of `p`, its drift stays what it was. */
  lemma {:induction false} DriftOverRun(s: Sys, steps: seq<Step>, p: int)
    requires SysInv(s) && Feasible(s, steps) && p in s.redis.available && NeverOverwritten(s, steps, p)
    ensures p in Run(s, steps).redis.available
    ensures DriftOf(Run(s, steps), p) == DriftOf(s, p)
    decreases |steps|
  {
    hide SysInv, Apply, Enabled, Overwrites, DriftOf;
    if steps != [] {
      StepKeeps(s, steps[0]);
      assert Steady(s, steps[0], p);
      DriftStep(s, steps[0], p);
      DriftOverRun(Apply(s, steps[0]), steps[1..], p);
    }
  }

  /** Counters are never removed. */
  lemma {:induction false} CountersStay(s: Sys, steps: seq<Step>)
    requires Feasible(s, steps)
    ensures s.redis.available.Keys <= Run(s, steps).redis.available.Keys
    decreases |steps|
  {
    hide Apply, Enabled;
    if steps != [] {
      StepKeepsCounters(s, steps[0]);
      CountersStay(Apply(s, steps[0]), steps[1..]);
    }
  }

  lemma StepKeepsCounters(s: Sys, step: Step)
    requires Enabled(s, step)
    ensures s.redis.available.Keys <= Apply(s, step).redis.available.Keys
  {
    hide Apply, SortedItems, PreDeduct, CreateTx, CancelTx, PayTx, FinishTx, InitTx, AddTx, Bound, Distinct, InStatus;
    ApplyNextRedis(s, step);
    if step.BeginCreate? {
      PreDeductKeys(s.redis, step.orderId, SortedItems(step.items));
    }
  }

  /** Over any run at whose end a product still has no counter, its drift stays what it was and nothing gets reserved,
      even if the product is sold meanwhile. */
  lemma {:induction false} KeylessOverRun(s: Sys, steps: seq<Step>, p: int)
    requires SysInv(s) && Feasible(s, steps) && Keyless(s, p) && p !in Run(s, steps).redis.available
    ensures Keyless(Run(s, steps), p)
    ensures DriftOf(Run(s, steps), p) == DriftOf(s, p)
    decreases |steps|
  {
    hide SysInv, Apply, Enabled, DriftOf, Unreserved;
    if steps != [] {
      CountersStay(Apply(s, steps[0]), steps[1..]);
      assert Steady(s, steps[0], p);
      StepKeeps(s, steps[0]);
      DriftStep(s, steps[0], p);
      KeylessOverRun(Apply(s, steps[0]), steps[1..], p);
    }
  }

  /** Overwriting a counter sets the drift; writing the current stock leaves exactly the imbalance of what is outstanding. */
  lemma OverwriteDrift(s: Sys, step: Step, p: int)
    requires Enabled(s, step) && Overwrites(s, step, p)
    ensures p in Apply(s, step).redis.available
    ensures DriftOf(Apply(s, step), p)
      == s.calls[step.call].quantity - StockOf(s.db.inventory, p)
         + Sum(IdleQty(s, p)) + Unapplied(s, p) - Sum(BypassQty(s, p))
  {
    hide Sum, QtyOf, LinesOf, Added;
    var after := Apply(s, step);
    assert IdleQty(after, p) == IdleQty(s, p);
    assert BypassQty(after, p) == BypassQty(s, p);
  }

  /** An increment that finds no counter writes its fallback instead, and moves the drift by fallback minus increment. */
  lemma FallbackDrift(s: Sys, step: Step, p: int)
    requires Enabled(s, step) && step.RunRedis? && s.calls[step.call].Increasing? && s.calls[step.call].productId == p
    requires p !in s.redis.available
    ensures var call, after := s.calls[step.call], Apply(s, step);
      && p in after.redis.available && after.redis.available[p] == call.fallback
      && DriftOf(after, p) == DriftOf(s, p) + call.fallback - call.delta
  {
    hide Sum, QtyOf, LinesOf, Added;
    var after := Apply(s, step);
    assert IdleQty(after, p) == IdleQty(s, p);
    assert BypassQty(after, p) == BypassQty(s, p);
  }

  /** The drift equation. */
  ghost predicate Balanced(s: Sys, p: int) {
    && p in s.redis.available
    && s.redis.available[p] + Sum(IdleQty(s, p)) + Unapplied(s, p) == StockOf(s.db.inventory, p) + Sum(BypassQty(s, p))
  }

  /** After a counter is written with its current stock, the equation holds at the end of any run that does not write it
      again exactly if it held of the outstanding quantities at the moment of writing. */
  lemma RepairIsExactIff(s: Sys, fix: Step, steps: seq<Step>, p: int)
    requires SysInv(s) && Enabled(s, fix) && Overwrites(s, fix, p)
    requires s.calls[fix.call].quantity == StockOf(s.db.inventory, p)
    requires Feasible(Apply(s, fix), steps) && NeverOverwritten(Apply(s, fix), steps, p)
    ensures Balanced(Run(Apply(s, fix), steps), p) <==> Sum(IdleQty(s, p)) + Unapplied(s, p) == Sum(BypassQty(s, p))
  {
    hide SysInv, Apply, Enabled, Overwrites, IdleQty, BypassQty, Sum, Unapplied;
    OverwriteDrift(s, fix, p);
    StepKeeps(s, fix);
    DriftOverRun(Apply(s, fix), steps, p);
  }

  /** Nothing concerning `p` is outstanding. */
  predicate Quiet(s: Sys, p: int) {
    && (forall o :: o in s.redis.reservations && !Live(s.db, o) ==> !Mentions(s.redis.reservations[o], p))
    && (forall o :: o in s.db.orders && Live(s.db, o) && o !in s.preDeducted ==> !Mentions(LinesOf(s.db, o), p))
    && Unapplied(s, p) == 0
  }

  lemma QuietSums(s: Sys, p: int)
    requires Quiet(s, p)
    ensures Sum(IdleQty(s, p)) == 0 && Sum(BypassQty(s, p)) == 0
  {
    hide LinesOf, Added;
    forall o | o in s.redis.reservations ensures IdleOf(s, o, p) == 0 {
      if !Live(s.db, o) {
        QtyOfAbsent(s.redis.reservations[o], p);
      }
    }
    forall o | o in s.db.orders ensures BypassOf(s, o, p) == 0 {
      if Live(s.db, o) && o !in s.preDeducted {
        QtyOfAbsent(LinesOf(s.db, o), p);
      }
    }
    SumZero(IdleQty(s, p));
    SumZero(BypassQty(s, p));
  }

  lemma OutstandingNonNegative(s: Sys, p: int)
    requires SysInv(s)
    ensures Sum(IdleQty(s, p)) >= 0 && Unapplied(s, p) >= 0
  {
    hide QtyOf, LinesOf, Added, Inv, CallsInv, CreditsInv, CountersInv, AnswersInv, DeadlinesInv, Bound;
    forall o | o in s.redis.reservations ensures IdleOf(s, o, p) >= 0 {
      QtyOfNonNegative(s.redis.reservations[o], p);
    }
    SumNonNegative(IdleQty(s, p));
    InFlightNonNegative(s, p);
  }

  lemma InFlightNonNegative(s: Sys, p: int)
    requires SysInv(s)
    ensures Sum(InFlight(s, p)) >= 0
  {
    hide Inv, CreditsInv, CountersInv, AnswersInv, DeadlinesInv, IncreasesInv, ReservationsInv, UniqueNewIds;
    forall c | c in s.calls ensures PendingIncrease(s.calls[c], p) >= 0 {
      assert CallInv(s, s.calls[c]);
    }
    SumNonNegative(InFlight(s, p));
  }

  /** The same without the additions: earlier increments may have been lost, but none is on its way. */
  ghost predicate Undisturbed(s: Sys, p: int) {
    && Sum(IdleQty(s, p)) == 0 && Sum(BypassQty(s, p)) == 0
    && (forall c :: c in s.calls ==> PendingIncrease(s.calls[c], p) == 0)
  }

  lemma {:induction false} LostOverRun(s: Sys, steps: seq<Step>, p: int)
    requires SysInv(s) && Feasible(s, steps)
    ensures Lost(Run(s, steps), p) >= Lost(s, p)
    decreases |steps|
  {
    hide SysInv, Apply, Enabled, Lost;
    if steps != [] {
      assert Inv(s.db, s.timeout) && CallsInv(s) by { SysParts(s); }
      LostGrows(s, steps[0], p);
      StepKeeps(s, steps[0]);
      LostOverRun(Apply(s, steps[0]), steps[1..], p);
    }
  }

  lemma SysParts(s: Sys)
    requires SysInv(s)
    ensures Inv(s.db, s.timeout) && CallsInv(s)
  {
    hide Inv, CallsInv;
  }

  /** A counter written with its current stock, by a repair or a seeding, while nothing of the product is idle, bypassed
      or on its way: from then on, through any interleaving with any Redis command lost or repeated, the drift equation
      holds exactly for what happened since. Increments lost before the write are repaired by it. */
  lemma OverwrittenGuardIsExact(s: Sys, fix: Step, steps: seq<Step>, p: int)
    requires SysInv(s) && Enabled(s, fix) && Overwrites(s, fix, p)
    requires s.calls[fix.call].quantity == StockOf(s.db.inventory, p) && Undisturbed(s, p)
    requires Feasible(Apply(s, fix), steps) && NeverOverwritten(Apply(s, fix), steps, p)
    ensures var end := Run(Apply(s, fix), steps);
      && p in end.redis.available
      && var counter, stock := end.redis.available[p], StockOf(end.db.inventory, p);
      && counter + Sum(IdleQty(end, p)) + (Unapplied(end, p) - Unapplied(s, p)) == stock + Sum(BypassQty(end, p))
      && Sum(IdleQty(end, p)) >= 0 && Unapplied(end, p) >= Unapplied(s, p)
      && counter <= stock + Sum(BypassQty(end, p))
  {
    hide SysInv, Apply, Enabled, Overwrites, IdleQty, BypassQty, Sum, InFlight, PendingIncrease, Undisturbed;
    OverwriteDrift(s, fix, p);
    UndisturbedSums(s, p);
    StepKeeps(s, fix);
    DriftOverRun(Apply(s, fix), steps, p);
    RunKeeps(Apply(s, fix), steps);
    assert Inv(s.db, s.timeout) && CallsInv(s) by { SysParts(s); }
    LostGrows(s, fix, p);
    LostOverRun(Apply(s, fix), steps, p);
    var end := Run(Apply(s, fix), steps);
    OutstandingNonNegative(end, p);
    InFlightNonNegative(end, p);
  }

  lemma UndisturbedSums(s: Sys, p: int)
    requires Undisturbed(s, p)
    ensures Sum(IdleQty(s, p)) == 0 && Sum(BypassQty(s, p)) == 0 && Sum(InFlight(s, p)) == 0
  {
    SumZero(InFlight(s, p));
  }

  /** For a counter seeded before any addition was lost, the equation is the absolute one: the guard overstates stock
      by at most the orders that bypassed it, and equals it whenever nothing is outstanding. */
  lemma SeededGuardIsExact(s: Sys, seed: Step, steps: seq<Step>, p: int)
    requires SysInv(s) && Enabled(s, seed) && Overwrites(s, seed, p)
    requires s.calls[seed.call].quantity == StockOf(s.db.inventory, p) && Quiet(s, p)
    requires Feasible(Apply(s, seed), steps) && NeverOverwritten(Apply(s, seed), steps, p)
    ensures var end := Run(Apply(s, seed), steps);
      && p in end.redis.available
      && var counter, stock := end.redis.available[p], StockOf(end.db.inventory, p);
      && counter + Sum(IdleQty(end, p)) + Unapplied(end, p) == stock + Sum(BypassQty(end, p))
      && counter <= stock + Sum(BypassQty(end, p))
      && (Quiet(end, p) ==> counter == stock)
  {
    hide SysInv, Apply, Enabled, Overwrites, Unapplied, IdleQty, BypassQty, Sum, Quiet, Undisturbed;
    assert Unapplied(s, p) == 0 && Undisturbed(s, p) by { QuietUndisturbed(s, p); }
    OverwrittenGuardIsExact(s, seed, steps, p);
    var end := Run(Apply(s, seed), steps);
    if Quiet(end, p) {
      QuietSums(end, p);
      QuietUnapplied(end, p);
    }
  }

  /** With every addition applied, none can be on its way. */
  lemma QuietUndisturbed(s: Sys, p: int)
    requires SysInv(s) && Quiet(s, p)
    ensures Unapplied(s, p) == 0 && Undisturbed(s, p)
  {
    hide Inv, CreditsInv, CountersInv, AnswersInv, DeadlinesInv, ReservationsInv, UniqueNewIds, Added, Quiet, IdleQty, BypassQty;
    QuietSums(s, p);
    QuietUnapplied(s, p);
    forall c | c in s.calls ensures PendingIncrease(s.calls[c], p) >= 0 {
      assert CallInv(s, s.calls[c]);
    }
    SumNonNegative(InFlight(s, p));
    assert IncreasedOf(s, p) + Sum(InFlight(s, p)) <= Added(s.db.logs, p);
    forall c | c in s.calls ensures PendingIncrease(s.calls[c], p) == 0 {
      assert InFlight(s, p)[c] <= 0;
    }
  }

  lemma QuietUnapplied(s: Sys, p: int)
    requires Quiet(s, p)
    ensures Unapplied(s, p) == 0
  {
  }

  // ---- compensation ----

  lemma {:induction false} CreditsGrow(s: Sys, steps: seq<Step>)
    requires Feasible(s, steps)
    ensures s.credits <= Run(s, steps).credits
    decreases |steps|
  {
    hide Enabled;
    if steps != [] {
      CreditsGrowStep(s, steps[0]);
      hide Apply;
      CreditsGrow(Apply(s, steps[0]), steps[1..]);
    }
  }

  lemma CreditsGrowStep(s: Sys, step: Step)
    requires Enabled(s, step)
    ensures s.credits <= Apply(s, step).credits
  {
    hide CreateTx, CancelTx, PayTx, FinishTx, InitTx, AddTx, SortedItems, PreDeduct, Release, Bound, Distinct;
  }

  /** A reservation is credited back at most once in any run, and an order whose reservation was credited is not live
      then nor at any later time: it was cancelled, or it never commits. */
  lemma CreditedAtMostOnce(s: Sys, steps: seq<Step>, o: int)
    requires Reachable(s) && Feasible(s, steps)
    ensures Run(s, steps).credits[o] <= 1
    ensures o in s.credits ==> !Live(s.db, o) && !Live(Run(s, steps).db, o)
  {
    hide SysInv, Live, Apply, Enabled, Run, Feasible;
    ReachableSafe(s);
    RunKeeps(s, steps);
    CreditsGrow(s, steps);
    CreditedNotLive(s, o);
    CreditedNotLive(Run(s, steps), o);
  }

  lemma CreditedNotLive(s: Sys, o: int)
    requires SysInv(s)
    ensures s.credits[o] <= 1 && (o in s.credits ==> !Live(s.db, o))
  {
    hide Inv, CallsInv, ReservationsInv, CountersInv, AnswersInv, DeadlinesInv, IncreasesInv;
  }

  /** A reservation left behind by a lost confirm of a paid order is never released. */
  lemma PaidNeverCredited(s: Sys, steps: seq<Step>, o: int)
    requires Reachable(s) && Feasible(s, steps) && o in s.db.orders && Shipped(s.db.orders[o].status)
    ensures o !in Run(s, steps).credits
    ensures o in Run(s, steps).db.orders && Shipped(Run(s, steps).db.orders[o].status)
  {
    hide SysInv, Apply, Enabled, Run, Feasible;
    ReachableSafe(s);
    RunKeeps(s, steps);
    CreditedNotLive(Run(s, steps), o);
  }

  /** Cancelling again repairs a restore that was lost: every existing counter gets its quantity back. */
  lemma RepeatedCancelRepairs(s: Sys, c: int, o: int)
    requires SysInv(s) && HasStatus(s.db, o, Cancelled) && o in s.redis.reservations && c !in s.calls
    ensures var steps := [BeginCancel(c, s.db.orders[o].userId, o), RunRedis(c, false)];
      && Feasible(s, steps)
      && var end := Run(s, steps);
      && end.db == s.db && end.calls == s.calls
      && end.redis.reservations == s.redis.reservations - {o}
      && end.redis.available.Keys == s.redis.available.Keys
      && forall p :: p in s.redis.available ==> end.redis.available[p] == s.redis.available[p] + QtyOf(LinesOf(s.db, o), p)
  {
    hide Inv, CallsInv, CreditsInv, CountersInv, AnswersInv, DeadlinesInv, IncreasesInv, QtyOf, LinesOf, Bound;
    var u := s.db.orders[o].userId;
    var steps := [BeginCancel(c, u, o), RunRedis(c, false)];
    var mid := Apply(s, steps[0]);
    assert mid == Goto(s, c, Restoring(o));
    assert steps[1..] == [RunRedis(c, false)];
    assert steps[1..][1..] == [];
    var end := Apply(mid, steps[1]);
    assert end.calls == s.calls;
    assert Feasible(end, []) && Run(end, []) == end;
    assert Feasible(mid, steps[1..]) && Run(mid, steps[1..]) == end;
  }

  // ---- two promises that do not hold unconditionally ----

  /** A shop with one product, `quantity` pieces in stock and its counter seeded. */
  lemma SeededShop(quantity: int) returns (s: Sys)
    requires quantity >= 0
    ensures Reachable(s)
    ensures s.db == Db(map[1 := Product(10, true)], map[1 := Inventory(quantity, 0)], map[], map[], map[],
                       [StockLog(1, 0, quantity, quantity, InitialStock)], map[])
    ensures s.redis == Redis(map[1 := quantity], map[])
    ensures s.calls == map[] && s.usedIds == {} && s.now == 0 && s.timeout == 60 && s.preDeducted == {} && s.answers == {}
  {
    hide Reachable;
    s := Initial(map[1 := Product(10, true)], 0, 60);
    ReachableInitial(map[1 := Product(10, true)], 0, 60);
    ReachableStep(s, InitStock(1, 1, quantity));
    s := Apply(s, InitStock(1, 1, quantity));
    ReachableStep(s, RunRedis(1, false));
    s := Apply(s, RunRedis(1, false));
    assert s.calls == map[];
  }

  /** One line is its own canonical list. */
  lemma OneLine(x: Item)
    ensures SortedItems([x]) == [x] && Distinct([x]) && QtyOf([x], x.productId) == x.quantity
    ensures forall p :: p != x.productId ==> QtyOf([x], p) == 0
    ensures [x][..1] == [x]
  {
    assert [x][..0] == [];
    assert SortedItems([x]) == Insert(x, SortedItems([]));
    QtyOfSnoc([], x, x.productId);
    assert [] + [x] == [x];
  }

  lemma BeginOneLine(s: Sys, c: int, u: int, key: string, o: int, x: Item)
    requires Enabled(s, BeginCreate(c, u, key, o, [x], Up)) && o !in s.redis.reservations
    requires x.productId in s.redis.available
    ensures var counter := s.redis.available[x.productId];
      Apply(s, BeginCreate(c, u, key, o, [x], Up)) ==
        if counter < x.quantity then s.(usedIds := s.usedIds + {o}, preDeducted := s.preDeducted)
        else s.(
          redis := Redis(s.redis.available[x.productId := counter - x.quantity], s.redis.reservations[o := [x]]),
          usedIds := s.usedIds + {o},
          preDeducted := s.preDeducted + {o},
          calls := s.calls[c := Creating(u, key, o, [x], true)])
  {
    OneLine(x);
    hide SortedItems, QtyOf;
    var counter := s.redis.available[x.productId];
    if counter >= x.quantity {
      assert CheckFrom(s.redis.available, [x], 0) == CheckFrom(s.redis.available, [x], 1) == Applied;
      assert Deducted(s.redis.available, [x]) == s.redis.available[x.productId := counter - x.quantity];
    }
  }

  lemma CommitOneLine(s: Sys, c: int, x: Item)
    requires c in s.calls && s.calls[c].Creating? && s.calls[c].items == [x]
    requires x.productId in s.db.products && s.db.products[x.productId].onSale
    requires x.productId in s.db.inventory && s.db.inventory[x.productId].stock >= x.quantity
    requires (s.calls[c].userId, s.calls[c].key) !in s.db.keys
    requires s.calls[c].orderId !in s.db.orders && s.calls[c].orderId !in s.db.outbox
    ensures var done, key := Apply(s, CommitCreate(c)), (s.calls[c].userId, s.calls[c].key);
      && key in done.db.keys && done.db.keys[key].digest == [x]
      && done.redis == s.redis && done.calls == s.calls - {c} && done.usedIds == s.usedIds
  {
    OneLine(x);
    hide SortedItems, QtyOf, Rows, DeductLogs, TotalFen, Reserved;
    var a := CreateArgsOf(s, s.calls[c]);
    assert ProductFault(s.db.products, [x], 0) == ProductFault(s.db.products, [x], 1) == None;
    assert StockFault(s.db.inventory, [x], 0) == StockFault(s.db.inventory, [x], 1) == None;
    assert CreateVerdict(s.db, a) == Created;
  }

  /** The documented "same key, same request, same order" fails when the guard has run out meanwhile. */
  lemma ReplayCanBeRefused()
    ensures exists s, step ::
      && Reachable(s) && Enabled(s, step) && step.BeginCreate?
      && (step.userId, step.key) in s.db.keys
      && s.db.keys[(step.userId, step.key)].digest == SortedItems(step.items)
      && step.call !in Apply(s, step).calls
  {
    hide Reachable;
    var s := SeededShop(1);
    var x := Item(1, 1);
    OneLine(x);
    var begin := BeginCreate(1, 7, "k", 100, [x], Up);
    assert Enabled(s, begin);
    BeginOneLine(s, 1, 7, "k", 100, x);
    ReachableStep(s, begin);
    hide Apply, SortedItems, Distinct, Bound;
    var begun := Apply(s, begin);
    CommitOneLine(begun, 1, x);
    ReachableStep(begun, CommitCreate(1));
    var done := Apply(begun, CommitCreate(1));
    RefuseAgain(done, x);
  }

  lemma RefuseAgain(done: Sys, x: Item)
    requires Reachable(done) && x == Item(1, 1)
    requires 1 !in done.calls && 101 !in done.usedIds && 101 !in done.redis.reservations
    requires 1 in done.redis.available && done.redis.available[1] == 0
    requires (7, "k") in done.db.keys && done.db.keys[(7, "k")].digest == [x]
    ensures exists s, step ::
      && Reachable(s) && Enabled(s, step) && step.BeginCreate?
      && (step.userId, step.key) in s.db.keys
      && s.db.keys[(step.userId, step.key)].digest == SortedItems(step.items)
      && step.call !in Apply(s, step).calls
  {
    hide Reachable, SortedItems;
    OneLine(x);
    var again := BeginCreate(1, 7, "k", 101, [x], Up);
    assert Enabled(done, again);
    BeginOneLine(done, 1, 7, "k", 101, x);
    hide Apply;
    assert 1 !in Apply(done, again).calls;
  }

  /** A repair, writing the current stock of product 1 in state `s`, after which `steps` lead to rest with the guard above
      the stock, though nobody wrote the counter again and no order exists. */
  ghost predicate RepairOverstates(s: Sys, fix: Step, steps: seq<Step>) {
    && Reachable(s) && Enabled(s, fix) && Overwrites(s, fix, 1)
    && 1 in s.db.inventory && s.calls[fix.call].quantity == s.db.inventory[1].stock
    && Feasible(Apply(s, fix), steps) && NeverOverwritten(Apply(s, fix), steps, 1)
    && var end := Run(Apply(s, fix), steps);
    && end.calls == map[] && end.db.orders == map[]
    && 1 in end.redis.available && 1 in end.db.inventory && end.redis.available[1] > end.db.inventory[1].stock
  }

  /** Fixing a counter while a pre-deduction is outstanding can leave the guard above the stock for good. */
  lemma FixCanOverstate()
    ensures exists s, fix, steps :: RepairOverstates(s, fix, steps)
  {
    hide Reachable, RepairOverstates;
    var s := SeededShop(5);
    var x := Item(1, 2);
    OneLine(x);
    assert Enabled(s, BeginCreate(1, 7, "k", 100, [x], Up));
    BeginOneLine(s, 1, 7, "k", 100, x);
    ReachableStep(s, BeginCreate(1, 7, "k", 100, [x], Up));
    s := Apply(s, BeginCreate(1, 7, "k", 100, [x], Up));
    FixThenAbort(s, x);
  }

  lemma FixThenAbort(s: Sys, x: Item)
    requires Reachable(s) && x == Item(1, 2)
    requires s.calls == map[1 := Creating(7, "k", 100, [x], true)] && s.db.orders == map[]
    requires s.redis == Redis(map[1 := 3], map[100 := [x]]) && s.db.inventory == map[1 := Inventory(5, 0)]
    ensures exists s, fix, steps :: RepairOverstates(s, fix, steps)
  {
    hide Reachable, QtyOf, Feasible, Run, NeverOverwritten, SortedItems, Bound, Distinct;
    var read, fix := Apply(s, ReadStock(2, 1)), RunRedis(2, false);
    ReachableStep(s, ReadStock(2, 1));
    assert read.calls == s.calls[2 := Overwriting(1, 5)];
    var written := Apply(read, fix);
    assert written.calls == s.calls;
    AbortAfterFix(written, x);
    assert RepairOverstates(read, fix, [AbortCreate(1), RunRedis(1, false)]);
  }

  lemma AbortAfterFix(s: Sys, x: Item)
    requires x == Item(1, 2)
    requires s.calls == map[1 := Creating(7, "k", 100, [x], true)] && s.db.orders == map[]
    requires s.redis == Redis(map[1 := 5], map[100 := [x]]) && s.db.inventory == map[1 := Inventory(5, 0)]
    ensures var steps := [AbortCreate(1), RunRedis(1, false)];
      && Feasible(s, steps) && NeverOverwritten(s, steps, 1)
      && var end := Run(s, steps);
      end.calls == map[] && end.db == s.db && end.redis == Redis(map[1 := 7], map[])
  {
    var aborted := s.(calls := map[1 := Releasing(100)]);
    assert Apply(s, AbortCreate(1)) == aborted;
    ReleaseAfterAbort(aborted, x);
    hide Apply;
    assert [AbortCreate(1), RunRedis(1, false)][1..] == [RunRedis(1, false)];
  }

  lemma ReleaseAfterAbort(s: Sys, x: Item)
    requires x == Item(1, 2) && s.calls == map[1 := Releasing(100)] && s.redis == Redis(map[1 := 5], map[100 := [x]])
    ensures var steps := [RunRedis(1, false)];
      && Feasible(s, steps) && NeverOverwritten(s, steps, 1)
      && var end := Run(s, steps);
      end.calls == map[] && end.db == s.db && end.redis == Redis(map[1 := 7], map[])
  {
    hide QtyOf;
    var released := Apply(s, RunRedis(1, false));
    OneLine(x);
    assert Credited(map[1 := 5], [x]) == map[1 := 7];
    assert released.calls == map[];
    assert [RunRedis(1, false)][1..] == [];
    assert Feasible(released, []) && NeverOverwritten(released, [], 1);
  }

  /** The fallback can overstate too: of two additions whose counter is missing, the later one writes a fallback that
      already counts the earlier one, which is then added again. */
  lemma FallbackCanOverstate()
    ensures exists s ::
      && Reachable(s) && s.calls == map[] && s.db.orders == map[]
      && 1 in s.redis.available && 1 in s.db.inventory && s.redis.available[1] > s.db.inventory[1].stock
  {
    hide Reachable;
    var s := Initial(map[1 := Product(10, true)], 0, 60);
    ReachableInitial(map[1 := Product(10, true)], 0, 60);
    ReachableStep(s, InitStock(1, 1, 5));
    s := Apply(s, InitStock(1, 1, 5));
    ReachableStep(s, Drop(1));
    s := Apply(s, Drop(1));
    ReachableStep(s, AddStock(2, 1, 5));
    s := Apply(s, AddStock(2, 1, 5));
    assert s.calls == map[2 := Increasing(1, 5, 10)];
    ReachableStep(s, AddStock(3, 1, 3));
    s := Apply(s, AddStock(3, 1, 3));
    LaterFirst(s);
  }

  lemma LaterFirst(s: Sys)
    requires Reachable(s) && s.db.orders == map[] && s.redis.available == map[]
    requires s.calls == map[2 := Increasing(1, 5, 10), 3 := Increasing(1, 3, 13)]
    requires s.db.inventory == map[1 := Inventory(13, 0)]
    ensures exists s ::
      && Reachable(s) && s.calls == map[] && s.db.orders == map[]
      && 1 in s.redis.available && 1 in s.db.inventory && s.redis.available[1] > s.db.inventory[1].stock
  {
    hide Reachable;
    ReachableStep(s, RunRedis(3, false));
    var written := Apply(s, RunRedis(3, false));
    assert written.calls == map[2 := Increasing(1, 5, 10)];
    ReachableStep(written, RunRedis(2, false));
    var end := Apply(written, RunRedis(2, false));
    assert end.calls == map[] && end.redis.available == map[1 := 18];
  }
}
