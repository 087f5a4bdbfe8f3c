/** What each step of the protocol does, in terms of rows, counters and the call's next stage. */
module StepEffects {
  import opened Domain
  import opened Items
  import opened Tables
  import opened Integrity
  import opened Effects
  import opened StockGuard
  import opened Protocol
  import opened ProtocolSafety

  /** The call is over. */
  predicate Ended(s: Sys, after: Sys, c: int) {
    after.calls == s.calls - {c} && after.redis == s.redis
  }

  /** The call goes on to its Redis command. */
  predicate GoesOn(s: Sys, after: Sys, c: int, call: Call) {
    after.calls == s.calls[c := call] && after.redis == s.redis
  }

  /** Paying pays a Pending order exactly and goes on to confirm; a stale read changes nothing. */
  lemma PayStep(s: Sys, c: int)
    requires SysInv(s) && Enabled(s, CommitPay(c))
    ensures var call, after := s.calls[c], Apply(s, CommitPay(c));
      if InStatus(s.db, call.userId, call.orderId, Pending)
      then Pays(s.db, after.db, call.orderId, s.now) && GoesOn(s, after, c, Confirming(call.orderId))
      else after.db == s.db && Ended(s, after, c)
  {
    hide Inv, SysInv, Pays, PayTx;
    assert Inv(s.db, s.timeout) by { Consistent(s); }
    PayExact(s.db, s.calls[c].userId, s.calls[c].orderId, s.now, s.timeout);
  }

  /** Finishing finishes a Paid order exactly; a stale read changes nothing. */
  lemma FinishStep(s: Sys, c: int)
    requires Enabled(s, CommitFinish(c))
    ensures var call, after := s.calls[c], Apply(s, CommitFinish(c));
      && Ended(s, after, c)
      && if InStatus(s.db, call.userId, call.orderId, Paid) then Finishes(s.db, after.db, call.orderId, s.now) else after.db == s.db
  {
    hide Finishes, FinishTx;
    FinishExact(s.db, s.calls[c].userId, s.calls[c].orderId, s.now);
  }

  /** Cancelling, by the user or the timeout, cancels a Pending order exactly and goes on to the restore. */
  lemma CancelStep(s: Sys, step: Step)
    requires SysInv(s) && Enabled(s, step) && (step.CommitCancel? || step.CommitExpire?)
    ensures var call, after := s.calls[step.call], Apply(s, step);
      if InStatus(s.db, call.userId, call.orderId, Pending)
      then Cancels(s.db, after.db, call.orderId, s.now, step.CommitExpire?) && GoesOn(s, after, step.call, Restoring(call.orderId))
      else after.db == s.db && Ended(s, after, step.call)
  {
    hide Inv, SysInv, Cancels, CancelTx;
    assert Inv(s.db, s.timeout) by { Consistent(s); }
    CancelExact(s.db, s.calls[step.call].userId, s.calls[step.call].orderId, s.now, step.CommitExpire?, s.timeout);
  }

  lemma Consistent(s: Sys)
    requires SysInv(s)
    ensures Inv(s.db, s.timeout) && CallsInv(s)
  {
    hide Inv, CallsInv;
  }

  /** A create commit creates exactly for an unused key when every line can be sold, and otherwise changes nothing, answers
      a repeat with the recorded order, and gives back a reservation known to be its own. */
  lemma CreateStep(s: Sys, c: int)
    requires SysInv(s) && Enabled(s, CommitCreate(c))
    ensures var call, after := s.calls[c], Apply(s, CommitCreate(c));
      var a, key := CreateArgs(call.userId, call.key, call.orderId, call.items, s.now, s.timeout), (call.userId, call.key);
      if key !in s.db.keys && AllSellable(s.db, call.items) && AllInStock(s.db, call.items)
      then Creates(s.db, after.db, a) && Ended(s, after, c)
        && after.answers == s.answers + {Answer(call.userId, call.key, call.orderId)}
      else
        && after.db == s.db
        && (if call.applied then GoesOn(s, after, c, Releasing(call.orderId)) else Ended(s, after, c))
        && after.answers == s.answers +
             (if key in s.db.keys && s.db.keys[key].digest == call.items && s.db.keys[key].orderId.Some?
              then {Answer(call.userId, call.key, s.db.keys[key].orderId.value)} else {})
  {
    hide Inv, SysInv, Creates, CreateTx, AllSellable, AllInStock, Apply, Decides;
    assert Inv(s.db, s.timeout) && CallsInv(s) by { Consistent(s); }
    var a := CreateArgsOf(s, s.calls[c]);
    NewOrderId(s, c);
    TransactionExact(s.db, a, s.timeout);
    CommitUnfolds(s, c);
  }

  lemma CommitUnfolds(s: Sys, c: int)
    requires Enabled(s, CommitCreate(c))
    ensures Apply(s, CommitCreate(c)) == DoCommitCreate(s, c)
  {
    hide DoCommitCreate;
  }

  lemma NewOrderId(s: Sys, c: int)
    requires CallsInv(s) && c in s.calls && s.calls[c].Creating?
    ensures s.calls[c].orderId !in s.db.orders && Distinct(s.calls[c].items)
  {
    hide UniqueNewIds, Bound;
    assert CallInv(s, s.calls[c]);
    AscendingDistinct(s.calls[c].items);
  }

  /** Supplying stock changes exactly its row and ledger, and goes on to the counter. */
  lemma SupplyStep(s: Sys, step: Step)
    requires Enabled(s, step) && (step.AddStock? || step.InitStock? || step.ReadStock?)
    ensures var p, c, after := step.productId, step.call, Apply(s, step);
      && (step.AddStock? ==>
            && p in s.db.inventory && p in s.db.products && step.quantity > 0
            && var row, q := s.db.inventory[p], step.quantity;
            && after.db == s.db.(
                 inventory := s.db.inventory[p := Inventory(row.stock + q, row.locked)],
                 logs := s.db.logs + [StockLog(p, row.stock, q, row.stock + q, ManualAdd)])
            && GoesOn(s, after, c, Increasing(p, q, row.stock + q)))
      && (step.InitStock? ==>
            && p !in s.db.inventory && p in s.db.products && step.quantity >= 0
            && var q := step.quantity;
            && after.db == s.db.(
                 inventory := s.db.inventory[p := Inventory(q, 0)], logs := s.db.logs + [StockLog(p, 0, q, q, InitialStock)])
            && GoesOn(s, after, c, Overwriting(p, q)))
      && (step.ReadStock? ==>
            && p in s.db.inventory && after.db == s.db && GoesOn(s, after, c, Overwriting(p, s.db.inventory[p].stock)))
  {
  }

  /** What each Redis command does to the counters and reservations. */
  lemma ScriptStep(s: Sys, c: int, again: bool)
    requires Enabled(s, RunRedis(c, again))
    ensures var call, redis, after := s.calls[c], s.redis, Apply(s, RunRedis(c, again)).redis;
      && (call.Releasing? || call.Restoring? ==> GivesBack(redis, after, call.orderId))
      && (call.Confirming? ==> after.available == redis.available && after.reservations == redis.reservations - {call.orderId})
      && (call.Overwriting? ==>
            after.available == redis.available[call.productId := call.quantity] && after.reservations == redis.reservations)
      && (call.Increasing? ==>
            && after.reservations == redis.reservations
            && after.available == redis.available[call.productId :=
                 if call.productId in redis.available then redis.available[call.productId] + call.delta else call.fallback])
    ensures Apply(s, RunRedis(c, again)).db == s.db
    ensures Apply(s, RunRedis(c, again)).calls == if again then s.calls else s.calls - {c}
  {
    hide Release, GivesBack;
    if s.calls[c].Releasing? || s.calls[c].Restoring? {
      ReleaseGivesBack(s.redis, s.calls[c].orderId);
    }
  }
}
