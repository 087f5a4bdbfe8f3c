/** The running system: one database, one Redis, any number of service calls in progress.
    Database transactions and Lua scripts are single steps; everything between them may interleave,
    Redis commands issued after a commit may be repeated, delayed for ever or lost, and calls may die. */
module Protocol {
  import opened Domain
  import opened Items
  import opened Tables
  import opened StockGuard

  /** Where a call stands between two atomic steps. */
  datatype Call =
    | Creating(userId: int, key: string, orderId: int, items: seq<Item>, applied: bool)
    | Releasing(orderId: int)
    | Paying(userId: int, orderId: int)
    | Confirming(orderId: int)
    | Finishing(userId: int, orderId: int)
    | Cancelling(userId: int, orderId: int)
    | Expiring(userId: int, orderId: int)
    | Restoring(orderId: int)
    | Increasing(productId: int, delta: int, fallback: int)
    | Overwriting(productId: int, quantity: int)

  /** A successful answer to a create-order request. */
  datatype Answer = Answer(userId: int, key: string, orderId: int)

  /** `usedIds` to `answers` record history; no step of the code reads them except that new ids are fresh. */
  datatype Sys = Sys(
    db: Db,
    redis: Redis,
    calls: map<int, Call>,
    now: int,
    timeout: int,
    usedIds: set<int>,
    preDeducted: set<int>,
    credits: multiset<int>,
    increased: map<int, int>,
    answers: set<Answer>)

  datatype Step =
    | Tick(to: int)
    | EditProducts(products: map<int, Product>)
    | InitStock(call: int, productId: int, quantity: int)
    | AddStock(call: int, productId: int, quantity: int)
    | ReadStock(call: int, productId: int)
    | BeginCreate(call: int, userId: int, key: string, orderId: int, items: seq<Item>, link: Link)
    | CommitCreate(call: int)
    | AbortCreate(call: int)
    | BeginPay(call: int, userId: int, orderId: int)
    | CommitPay(call: int)
    | BeginFinish(call: int, userId: int, orderId: int)
    | CommitFinish(call: int)
    | BeginCancel(call: int, userId: int, orderId: int)
    | CommitCancel(call: int)
    | BeginExpire(call: int, orderId: int)
    | CommitExpire(call: int)
    | RunRedis(call: int, again: bool)
    | Drop(call: int)

  function Initial(products: map<int, Product>, now: int, timeout: int): Sys {
    Sys(Db(products, map[], map[], map[], map[], [], map[]), Redis(map[], map[]), map[], now, timeout,
        {}, {}, multiset{}, map[], {})
  }

  predicate HasStatus(db: Db, o: int, s: Status) {
    o in db.orders && db.orders[o].status == s
  }

  /** A committed order that has not been cancelled. */
  predicate Live(db: Db, o: int) {
    o in db.orders && !db.orders[o].status.Cancelled?
  }

  predicate OwnedBy(db: Db, u: int, o: int) {
    o in db.orders && db.orders[o].userId == u
  }

  function IncreasedOf(s: Sys, p: int): int {
    if p in s.increased then s.increased[p] else 0
  }

  function CreateArgsOf(s: Sys, call: Call): CreateArgs
    requires call.Creating?
  {
    CreateArgs(call.userId, call.key, call.orderId, call.items, s.now, s.timeout)
  }

  /** A step is enabled when the code can take it. */
  predicate Enabled(s: Sys, step: Step) {
    match step
    case Tick(to) => to >= s.now
    case EditProducts(_) => true
    case InitStock(c, p, q) => c !in s.calls && p > 0 && InitTx(s.db, p, q).1.Supplied?
    case AddStock(c, p, q) => c !in s.calls && p > 0 && AddTx(s.db, p, q).1.Supplied?
    case ReadStock(c, p) => c !in s.calls && p in s.db.inventory
    case BeginCreate(c, u, _, o, items, _) =>
      c !in s.calls && o > 0 && o !in s.usedIds && items != [] && Bound(items) && Distinct(items)
    case CommitCreate(c) => c in s.calls && s.calls[c].Creating?
    case AbortCreate(c) => c in s.calls && s.calls[c].Creating?
    case BeginPay(c, u, o) => c !in s.calls && InStatus(s.db, u, o, Pending)
    case CommitPay(c) => c in s.calls && s.calls[c].Paying?
    case BeginFinish(c, u, o) => c !in s.calls && InStatus(s.db, u, o, Paid)
    case CommitFinish(c) => c in s.calls && s.calls[c].Finishing?
    case BeginCancel(c, u, o) =>
      c !in s.calls && (InStatus(s.db, u, o, Pending) || InStatus(s.db, u, o, Cancelled))
    case CommitCancel(c) => c in s.calls && s.calls[c].Cancelling?
    case BeginExpire(c, o) =>
      c !in s.calls && o in s.db.outbox && s.now >= s.db.outbox[o].timeoutAt
      && (HasStatus(s.db, o, Pending) || HasStatus(s.db, o, Cancelled))
    case CommitExpire(c) => c in s.calls && s.calls[c].Expiring?
    case RunRedis(c, again) => c in s.calls && RedisPending(s.calls[c]) && (s.calls[c].Increasing? ==> !again)
    case Drop(c) => c in s.calls
  }

  predicate RedisPending(call: Call) {
    call.Releasing? || call.Confirming? || call.Restoring? || call.Increasing? || call.Overwriting?
  }

  function Goto(s: Sys, c: int, call: Call): Sys {
    s.(calls := s.calls[c := call])
  }

  function Done(s: Sys, c: int): Sys {
    s.(calls := s.calls - {c})
  }

  /** After a create transaction that did not create: give the reservation back when one is known. */
  function Compensate(s: Sys, c: int): Sys
    requires c in s.calls && s.calls[c].Creating?
  {
    if s.calls[c].applied then Goto(s, c, Releasing(s.calls[c].orderId)) else Done(s, c)
  }

  function DoBeginCreate(s: Sys, c: int, u: int, key: string, o: int, items: seq<Item>, link: Link): Sys {
    var lines := SortedItems(items);
    var (redis, reply) := if link == Down then (s.redis, Missing) else PreDeduct(s.redis, o, lines);
    var begun := s.(
      redis := redis,
      usedIds := s.usedIds + {o},
      preDeducted := if o in redis.reservations then s.preDeducted + {o} else s.preDeducted);
    if link == Up && reply == Insufficient then begun
    else Goto(begun, c, Creating(u, key, o, lines, link == Up && reply == Applied))
  }

  function DoCommitCreate(s: Sys, c: int): Sys
    requires c in s.calls && s.calls[c].Creating?
  {
    var call := s.calls[c];
    var (db, out) := CreateTx(s.db, CreateArgsOf(s, call));
    match out
    case Created => Done(s, c).(db := db, answers := s.answers + {Answer(call.userId, call.key, call.orderId)})
    case Replayed(o) => Compensate(s, c).(answers := s.answers + {Answer(call.userId, call.key, o)})
    case _ => Compensate(s, c)
  }

  function DoRedis(s: Sys, call: Call): Sys
    requires RedisPending(call)
  {
    match call
    case Releasing(o) => DoRelease(s, o)
    case Restoring(o) => DoRelease(s, o)
    case Confirming(o) => s.(redis := Confirm(s.redis, o))
    case Increasing(p, delta, fallback) =>
      s.(redis := Increase(s.redis, p, delta, fallback), increased := s.increased[p := IncreasedOf(s, p) + delta])
    case Overwriting(p, q) => s.(redis := SetStock(s.redis, p, q))
  }

  function DoRelease(s: Sys, o: int): Sys {
    s.(redis := Release(s.redis, o),
       credits := if o in s.redis.reservations then s.credits + multiset{o} else s.credits)
  }

  function Apply(s: Sys, step: Step): Sys
    requires Enabled(s, step)
  {
    match step
    case Tick(to) => s.(now := to)
    case EditProducts(products) => s.(db := s.db.(products := products))
    case InitStock(c, p, q) => Goto(s, c, Overwriting(p, q)).(db := InitTx(s.db, p, q).0)
    case AddStock(c, p, q) =>
      Goto(s, c, Increasing(p, q, AddTx(s.db, p, q).1.after)).(db := AddTx(s.db, p, q).0)
    case ReadStock(c, p) => Goto(s, c, Overwriting(p, s.db.inventory[p].stock))
    case BeginCreate(c, u, key, o, items, link) => DoBeginCreate(s, c, u, key, o, items, link)
    case CommitCreate(c) => DoCommitCreate(s, c)
    case AbortCreate(c) => Compensate(s, c)
    case BeginPay(c, u, o) => Goto(s, c, Paying(u, o))
    case CommitPay(c) =>
      var (db, out) := PayTx(s.db, s.calls[c].userId, s.calls[c].orderId, s.now);
      if out == Moved then Goto(s, c, Confirming(s.calls[c].orderId)).(db := db) else Done(s, c)
    case BeginFinish(c, u, o) => Goto(s, c, Finishing(u, o))
    case CommitFinish(c) => Done(s, c).(db := FinishTx(s.db, s.calls[c].userId, s.calls[c].orderId, s.now).0)
    case BeginCancel(c, u, o) =>
      if InStatus(s.db, u, o, Cancelled) then Goto(s, c, Restoring(o)) else Goto(s, c, Cancelling(u, o))
    case CommitCancel(c) => DoCancel(s, c, s.calls[c].userId, s.calls[c].orderId, false)
    case BeginExpire(c, o) =>
      if HasStatus(s.db, o, Cancelled) then Goto(s, c, Restoring(o))
      else Goto(s, c, Expiring(s.db.orders[o].userId, o))
    case CommitExpire(c) => DoCancel(s, c, s.calls[c].userId, s.calls[c].orderId, true)
    case RunRedis(c, again) =>
      var s' := DoRedis(s, s.calls[c]);
      if again then s' else Done(s', c)
    case Drop(c) => Done(s, c)
  }

  function DoCancel(s: Sys, c: int, u: int, o: int, byTimeout: bool): Sys {
    var (db, out) := CancelTx(s.db, u, o, s.now, byTimeout);
    if out == Moved then Goto(s, c, Restoring(o)).(db := db) else Done(s, c)
  }

  // ---- runs ----

  predicate Feasible(s: Sys, steps: seq<Step>)
    decreases |steps|
  {
    steps == [] || (Enabled(s, steps[0]) && Feasible(Apply(s, steps[0]), steps[1..]))
  }

  function Run(s: Sys, steps: seq<Step>): Sys
    requires Feasible(s, steps)
    decreases |steps|
  {
    if steps == [] then s else Run(Apply(s, steps[0]), steps[1..])
  }
}
