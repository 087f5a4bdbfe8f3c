/** Row locks: transactions that take them in ascending rank cannot deadlock. */
module LockOrder {
  import opened Domain
  import opened Items
  import opened Tables
  import opened Integrity
  import opened Effects

  /** A transaction in progress: it holds the first `held` locks of its plan. */
  datatype Tx = Tx(plan: seq<Resource>, held: nat)

  type LockTable = map<int, Tx>

  datatype LockStep =
    | Begin(tx: int, plan: seq<Resource>)
    | Acquire(tx: int)
    | Finish(tx: int)     // commit, once every lock is held
    | Rollback(tx: int)   // abort or early return, at any time

  // ---- ranks ----

  function Class(r: Resource): int {
    match r case KeyRow(_, _) => 0 case OrderRow(_) => 1 case InventoryRow(_) => 2
  }

  /** Key rows before order rows before inventory rows, the latter by product id. */
  predicate Below(a: Resource, b: Resource) {
    Class(a) < Class(b) || (a.InventoryRow? && b.InventoryRow? && a.productId < b.productId)
  }

  predicate AscendingRank(plan: seq<Resource>) {
    forall i, j :: 0 <= i < j < |plan| ==> Below(plan[i], plan[j])
  }

  // ---- the plans of the service ----

  lemma RowLocksAscend(items: seq<Item>)
    requires Ascending(items)
    ensures AscendingRank(RowLocks(items))
  {
  }

  /** Every transaction of the service plans its locks in strictly ascending rank. */
  lemma ServicePlansAscend(a: CreateArgs, o: int, lines: seq<Item>, p: int)
    requires Ascending(a.items)
    ensures AscendingRank(MySql.CreateLocks(a))
    ensures AscendingRank(MySql.MoveLocks(o, Aggregate(lines)))
    ensures AscendingRank([OrderRow(o)])
    ensures AscendingRank([InventoryRow(p)])
  {
    RowLocksAscend(a.items);
    RowLocksAscend(Aggregate(lines));
  }

  /** Every row that differs between the two databases is in the plan. */
  ghost predicate ChangesLocked(db: Db, after: Db, plan: seq<Resource>) {
    && after.inventory.Keys == db.inventory.Keys
    && (forall p :: p in db.inventory && after.inventory[p] != db.inventory[p] ==> InventoryRow(p) in plan)
    && (forall o :: o in after.orders && (o !in db.orders || after.orders[o] != db.orders[o]) ==> OrderRow(o) in plan)
    && (forall k :: k in after.keys && (k !in db.keys || after.keys[k] != db.keys[k]) ==> KeyRow(k.0, k.1) in plan)
  }

  lemma LinesLocked(items: seq<Item>, p: int)
    requires Mentions(items, p)
    ensures InventoryRow(p) in RowLocks(items)
  {
    var i :| 0 <= i < |items| && items[i].productId == p;
    assert RowLocks(items)[i] == InventoryRow(p);
  }

  /** The plans are complete: whatever a transaction changes in stock, order and key rows, it has locked. */
  lemma PlansCoverChanges(db: Db, a: CreateArgs, u: int, o: int, now: int, byTimeout: bool, timeout: int)
    requires Inv(db, timeout) && Distinct(a.items)
    ensures CreateTx(db, a).1 == Created ==> ChangesLocked(db, CreateTx(db, a).0, MySql.CreateLocks(a))
    ensures PayTx(db, u, o, now).1 == Moved ==>
      ChangesLocked(db, PayTx(db, u, o, now).0, MySql.MoveLocks(o, Aggregate(LinesOf(db, o))))
    ensures CancelTx(db, u, o, now, byTimeout).1 == Moved ==>
      ChangesLocked(db, CancelTx(db, u, o, now, byTimeout).0, MySql.MoveLocks(o, Aggregate(LinesOf(db, o))))
  {
    hide Inv, CreateTx, PayTx, CancelTx, Distinct, Aggregate, LinesOf, Creates, Pays, Cancels, ChangesLocked;
    if CreateTx(db, a).1 == Created {
      CreateExact(db, a);
      CreateLocked(db, CreateTx(db, a).0, a);
    }
    PayExact(db, u, o, now, timeout);
    CancelExact(db, u, o, now, byTimeout, timeout);
    if PayTx(db, u, o, now).1 == Moved || CancelTx(db, u, o, now, byTimeout).1 == Moved {
      PendingLines(db, u, o, timeout);
      MoveLocked(db, PayTx(db, u, o, now).0, o, now, byTimeout);
      MoveLocked(db, CancelTx(db, u, o, now, byTimeout).0, o, now, byTimeout);
    }
  }

  lemma PendingLines(db: Db, u: int, o: int, timeout: int)
    requires Inv(db, timeout) && InStatus(db, u, o, Pending)
    ensures Aggregate(LinesOf(db, o)) == LinesOf(db, o)
  {
    hide Aggregate, LinesOf, LockedCovers;
    LockedSuffices(db, o, timeout);
  }

  lemma CreateLocked(db: Db, after: Db, a: CreateArgs)
    requires Creates(db, after, a)
    ensures ChangesLocked(db, after, MySql.CreateLocks(a))
  {
    hide LogsAdded, Amounts, RowLocks;
    forall p | p in db.inventory && after.inventory[p] != db.inventory[p] ensures InventoryRow(p) in MySql.CreateLocks(a) {
      LinesLocked(a.items, p);
    }
    var plan := MySql.CreateLocks(a);
    assert plan[0] == KeyRow(a.userId, a.key) && plan[1] == OrderRow(a.orderId);
  }

  lemma MoveLocked(db: Db, after: Db, o: int, now: int, byTimeout: bool)
    ensures Pays(db, after, o, now) || Cancels(db, after, o, now, byTimeout) ==>
      ChangesLocked(db, after, MySql.MoveLocks(o, LinesOf(db, o)))
  {
    hide LogsAdded, RowLocks, LinesOf;
    var plan := MySql.MoveLocks(o, LinesOf(db, o));
    assert plan[0] == OrderRow(o);
    if Pays(db, after, o, now) || Cancels(db, after, o, now, byTimeout) {
      forall p | p in db.inventory && after.inventory[p] != db.inventory[p] ensures InventoryRow(p) in plan {
        LinesLocked(LinesOf(db, o), p);
      }
    }
  }

  // ---- the lock manager ----

  predicate Holds(tx: Tx, r: Resource) {
    exists i :: 0 <= i < tx.held && i < |tx.plan| && tx.plan[i] == r
  }

  predicate Wants(tx: Tx) {
    tx.held < |tx.plan|
  }

  /** Transaction `t` waits for a lock that `u` holds. */
  predicate WaitsFor(table: LockTable, t: int, u: int) {
    t in table && u in table && t != u && Wants(table[t]) && Holds(table[u], table[t].plan[table[t].held])
  }

  predicate Blocked(table: LockTable, t: int) {
    exists u :: u in table && WaitsFor(table, t, u)
  }

  predicate Enabled(table: LockTable, step: LockStep) {
    match step
    case Begin(t, plan) => t !in table && AscendingRank(plan)
    case Acquire(t) => t in table && Wants(table[t]) && !Blocked(table, t)
    case Finish(t) => t in table && !Wants(table[t])
    case Rollback(t) => t in table
  }

  function Apply(table: LockTable, step: LockStep): LockTable
    requires Enabled(table, step)
  {
    match step
    case Begin(t, plan) => table[t := Tx(plan, 0)]
    case Acquire(t) => table[t := table[t].(held := table[t].held + 1)]
    case Finish(t) => table - {t}
    case Rollback(t) => table - {t}
  }

  predicate Feasible(table: LockTable, steps: seq<LockStep>)
    decreases |steps|
  {
    steps == [] || (Enabled(table, steps[0]) && Feasible(Apply(table, steps[0]), steps[1..]))
  }

  function Run(table: LockTable, steps: seq<LockStep>): LockTable
    requires Feasible(table, steps)
    decreases |steps|
  {
    if steps == [] then table else Run(Apply(table, steps[0]), steps[1..])
  }

  /** Plans ascend, and a row is held by one transaction at a time. */
  predicate TableInv(table: LockTable) {
    && (forall t :: t in table ==> AscendingRank(table[t].plan) && table[t].held <= |table[t].plan|)
    && (forall t, u :: t in table && u in table && t != u ==> Disjoint(table[t], table[u]))
  }

  predicate Disjoint(a: Tx, b: Tx) {
    forall i, j :: 0 <= i < a.held && 0 <= j < b.held && i < |a.plan| && j < |b.plan| ==> a.plan[i] != b.plan[j]
  }

  lemma StepKeeps(table: LockTable, step: LockStep)
    requires TableInv(table) && Enabled(table, step)
    ensures TableInv(Apply(table, step))
  {
    if step.Acquire? {
      var t := step.tx;
      var r := table[t].plan[table[t].held];
      forall u | u in table && u != t
        ensures Disjoint(Apply(table, step)[t], table[u]) && Disjoint(table[u], Apply(table, step)[t])
      {
        assert Disjoint(table[t], table[u]) && Disjoint(table[u], table[t]);
        assert !WaitsFor(table, t, u);
        assert !Holds(table[u], r);
      }
    }
  }

  lemma {:induction false} RunKeeps(table: LockTable, steps: seq<LockStep>)
    requires TableInv(table) && Feasible(table, steps)
    ensures TableInv(Run(table, steps))
    decreases |steps|
  {
    if steps != [] {
      StepKeeps(table, steps[0]);
      hide TableInv, Enabled, Apply;
      RunKeeps(Apply(table, steps[0]), steps[1..]);
    }
  }

  /** The next lock of a transaction. */
  function Next(table: LockTable, t: int): Resource
    requires t in table && Wants(table[t])
  {
    table[t].plan[table[t].held]
  }

  /** Whoever is waited for, if it waits too, waits higher up. */
  lemma WaitsAscend(table: LockTable, t: int, u: int)
    requires TableInv(table) && WaitsFor(table, t, u) && Wants(table[u])
    ensures Below(Next(table, t), Next(table, u))
  {
    var i :| 0 <= i < table[u].held && i < |table[u].plan| && table[u].plan[i] == Next(table, t);
  }

  /** Each element waits for the next. */
  predicate WaitChain(table: LockTable, ts: seq<int>) {
    forall i :: 0 <= i < |ts| - 1 ==> WaitsFor(table, ts[i], ts[i + 1])
  }

  lemma {:induction false} ChainAscends(table: LockTable, ts: seq<int>, k: nat)
    requires TableInv(table) && WaitChain(table, ts) && 0 < k < |ts|
    requires ts[k] in table && Wants(table[ts[k]])
    ensures WaitsFor(table, ts[0], ts[1]) && Below(Next(table, ts[0]), Next(table, ts[k]))
  {
    assert WaitsFor(table, ts[0], ts[1]);
    assert WaitsFor(table, ts[k - 1], ts[k]);
    WaitsAscend(table, ts[k - 1], ts[k]);
    if k > 1 {
      ChainAscends(table, ts, k - 1);
    }
  }

  /** No reachable lock table holds a wait cycle. */
  lemma NoWaitCycle(steps: seq<LockStep>, ts: seq<int>)
    requires Feasible(map[], steps)
    ensures !(|ts| >= 2 && WaitChain(Run(map[], steps), ts) && ts[|ts| - 1] == ts[0])
  {
    RunKeeps(map[], steps);
    var table := Run(map[], steps);
    if |ts| >= 2 && WaitChain(table, ts) && ts[|ts| - 1] == ts[0] {
      assert WaitsFor(table, ts[0], ts[1]);
      ChainAscends(table, ts, |ts| - 1);
    }
  }

  /** A transaction that can acquire its next lock, or commit. */
  predicate CanStep(table: LockTable, t: int) {
    Enabled(table, Acquire(t)) || Enabled(table, Finish(t))
  }

  /** While any transaction is unfinished, some transaction can acquire or commit without anybody rolling back. */
  lemma Progress(steps: seq<LockStep>, t: int)
    requires Feasible(map[], steps) && t in Run(map[], steps)
    ensures exists u :: CanStep(Run(map[], steps), u)
  {
    RunKeeps(map[], steps);
    FindRunner(Run(map[], steps), t, {});
  }

  /** Follow the waits from `t`; `seen` are those already passed, all waiting lower down. */
  lemma {:induction false} FindRunner(table: LockTable, t: int, seen: set<int>)
    requires TableInv(table) && t in table && t !in seen && seen <= table.Keys
    requires forall u :: u in seen && Wants(table[t]) ==> Wants(table[u]) && Below(Next(table, u), Next(table, t))
    ensures exists u :: CanStep(table, u)
    decreases |table.Keys - seen|
  {
    if CanStep(table, t) {
    } else {
      var u :| u in table && WaitsFor(table, t, u);
      if !Wants(table[u]) {
        assert CanStep(table, u);
      } else {
        WaitsAscend(table, t, u);
        assert table.Keys - (seen + {t}) < table.Keys - seen by {
          assert t in table.Keys - seen;
        }
        Shrinks(table.Keys - (seen + {t}), table.Keys - seen);
        FindRunner(table, u, seen + {t});
      }
    }
  }

  lemma Shrinks(a: set<int>, b: set<int>)
    requires a < b
    ensures |a| < |b|
  {
    assert b == a + (b - a);
  }
}
