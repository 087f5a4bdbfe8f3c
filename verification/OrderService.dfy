/** The order service calls as they are coded, each shown to be a run of the protocol when nothing interleaves. */
module OrderService {
  import opened Domain
  import opened Items
  import opened Tables
  import opened StockGuard
  import opened Protocol
  import opened ProtocolSafety
  import opened Integrity
  import opened Effects

  datatype CreateReply =
    | Accepted(orderId: int)
    | InvalidUser
    | InvalidKey
    | DuplicateItem
    | Rejected(reason: CreateOutcome)

  datatype MoveReply =
    | Done
    | OrderNotFound
    | AlreadyPaid
    | AlreadyFinished
    | AlreadyCancelled
    | NotPaid
    | StateConflict
    | StockFailure
    | NotYetDue
    | Ignored

  // ---- key validation ----

  function Utf8Length(key: string): nat {
    if key == "" then 0
    else
      var c := key[0] as int;
      (if c < 0x80 then 1 else if c < 0x800 then 2 else if c < 0x1_0000 then 3 else 4) + Utf8Length(key[1..])
  }

  /** Unicode white space, as strings.TrimSpace trims it. */
  predicate IsSpace(c: char) {
    var n := c as int;
    9 <= n <= 13 || n in {0x20, 0x85, 0xA0, 0x1680, 0x2028, 0x2029, 0x202F, 0x205F, 0x3000} || 0x2000 <= n <= 0x200A
  }

  predicate ValidKey(key: string) {
    (exists i :: 0 <= i < |key| && !IsSpace(key[i])) && Utf8Length(key) <= 128
  }

  lemma {:induction false} Utf8Bounds(key: string)
    ensures |key| <= Utf8Length(key) <= 4 * |key|
    ensures (forall i :: 0 <= i < |key| ==> key[i] as int < 0x80) ==> Utf8Length(key) == |key|
  {
    if key != "" {
      Utf8Bounds(key[1..]);
    }
  }

  /** Every ASCII key of up to 128 characters that is not blank is accepted, and nothing longer or blank is. */
  lemma KeysAccepted(key: string)
    ensures (forall i :: 0 <= i < |key| ==> key[i] as int < 0x80) ==>
      (ValidKey(key) <==> |key| <= 128 && exists i :: 0 <= i < |key| && key[i] as int != 0x20 && !(9 <= key[i] as int <= 13))
    ensures |key| > 128 || (forall i :: 0 <= i < |key| ==> IsSpace(key[i])) ==> !ValidKey(key)
  {
    Utf8Bounds(key);
  }

  // ---- a call running alone ----

  /** The system as one call finds it: its order id is unused and nobody else is in progress. */
  function Alone(db: Db, redis: Redis, now: int, timeout: int): Sys {
    Sys(db, redis, map[], now, timeout, {}, {}, multiset{}, map[], {})
  }

  /** The Redis command of call 0, if it is left with one and the command gets through. */
  function Settle(s: Sys, link: Link): Sys {
    if 0 in s.calls && RedisPending(s.calls[0]) && link != Down then Apply(s, RunRedis(0, false)) else s
  }

  /** A lone create call after its pre-deduction. */
  function Begun(s: Sys, u: int, key: string, o: int, items: seq<Item>, link: Link): (begun: Sys)
    requires s.calls == map[] && s.usedIds == {} && o > 0 && items != [] && Bound(items) && Distinct(items)
    ensures begun.calls == map[] || (begun.calls.Keys == {0} && begun.calls[0].Creating?)
  {
    Apply(s, BeginCreate(0, u, key, o, items, link))
  }

  /** And after its transaction, which may fail for its own reasons, and its compensation. */
  function Attempted(begun: Sys, fails: bool, link: Link): Sys
    requires 0 in begun.calls && begun.calls[0].Creating?
  {
    Settle(Apply(begun, if fails then AbortCreate(0) else CommitCreate(0)), link)
  }

  function Verdict(begun: Sys, fails: bool): CreateOutcome
    requires 0 in begun.calls && begun.calls[0].Creating?
  {
    if fails then StorageError else CreateTx(begun.db, CreateArgsOf(begun, begun.calls[0])).1
  }

  ghost predicate SameStores(s: Sys, sql: MySql, guard: Guard)
    reads sql, guard
  {
    sql.State() == s.db && guard.State() == s.redis
  }

  function ReplyTo(out: CreateOutcome, orderId: int): CreateReply {
    match out
    case Created => Accepted(orderId)
    case Replayed(o) => Accepted(o)
    case _ => Rejected(out)
  }

  // ---- what the runs of a lone call come to ----

  lemma SettleShape(s: Sys, link: Link)
    ensures 0 !in s.calls ==> Settle(s, link) == s
    ensures 0 in s.calls && (s.calls[0].Releasing? || s.calls[0].Restoring?) ==>
      var end := Settle(s, link);
      end.db == s.db && end.redis == if link != Down then Release(s.redis, s.calls[0].orderId) else s.redis
    ensures 0 in s.calls && s.calls[0].Confirming? ==>
      var end := Settle(s, link);
      end.db == s.db && end.redis == if link != Down then Confirm(s.redis, s.calls[0].orderId) else s.redis
  {
    hide Release, Confirm, Increase, SetStock;
  }

  lemma BeginAlone(db: Db, redis: Redis, now: int, timeout: int, u: int, key: string, o: int, items: seq<Item>, link: Link)
    requires o > 0 && items != [] && Bound(items) && Distinct(items)
    ensures var lines := SortedItems(items);
      var (after, answer) := if link == Down then (redis, Missing) else PreDeduct(redis, o, lines);
      var begun := Begun(Alone(db, redis, now, timeout), u, key, o, items, link);
      && begun.db == db && begun.redis == after && begun.now == now && begun.timeout == timeout
      && begun.calls == if link == Up && answer == Insufficient then map[]
                        else map[0 := Creating(u, key, o, lines, link == Up && answer == Applied)]
  {
    hide SortedItems, PreDeduct, Bound, Distinct;
  }

  lemma CommitShape(begun: Sys, u: int, key: string, o: int, lines: seq<Item>, applied: bool)
    requires begun.calls == map[0 := Creating(u, key, o, lines, applied)]
    ensures var (after, out) := CreateTx(begun.db, CreateArgsOf(begun, begun.calls[0]));
      var done := Apply(begun, CommitCreate(0));
      && done.db == after && done.redis == begun.redis
      && done.calls == if out != Created && applied then map[0 := Releasing(o)] else map[]
  {
    hide CreateTx, Apply, PayTx, CancelTx;
    CommitUnfolds(begun);
    FailedTransactionsWriteNothing(begun.db, CreateArgsOf(begun, begun.calls[0]), 0, 0, 0, false);
    assert begun.calls - {0} == map[];
  }

  lemma CommitUnfolds(s: Sys)
    requires 0 in s.calls && s.calls[0].Creating?
    ensures Apply(s, CommitCreate(0)) == DoCommitCreate(s, 0)
  {
    hide DoCommitCreate;
  }

  lemma CommitAlone(begun: Sys, u: int, key: string, o: int, lines: seq<Item>, applied: bool, link: Link)
    requires begun.calls == map[0 := Creating(u, key, o, lines, applied)]
    ensures var (after, out) := CreateTx(begun.db, CreateArgsOf(begun, begun.calls[0]));
      var end := Attempted(begun, false, link);
      && end.db == after
      && end.redis == if out != Created && applied && link != Down then Release(begun.redis, o) else begun.redis
  {
    hide CreateTx, Release, Settle, RedisPending, Apply;
    CommitShape(begun, u, key, o, lines, applied);
    SettleShape(Apply(begun, CommitCreate(0)), link);
  }

  /** A transaction that fails for its own reasons writes nothing and is compensated alike. */
  lemma AbortAlone(begun: Sys, u: int, key: string, o: int, lines: seq<Item>, applied: bool, link: Link)
    requires begun.calls == map[0 := Creating(u, key, o, lines, applied)]
    ensures var end := Attempted(begun, true, link);
      && end.db == begun.db
      && end.redis == if applied && link != Down then Release(begun.redis, o) else begun.redis
  {
    hide Release, Settle, RedisPending;
    SettleShape(Apply(begun, AbortCreate(0)), link);
    if !applied {
      assert Apply(begun, AbortCreate(0)).calls == map[];
    }
  }

  /** The commit of a payment, and the confirm that follows a successful one. */
  lemma CommitPayAlone(s: Sys, u: int, o: int, link: Link)
    requires s.calls == map[0 := Paying(u, o)]
    ensures var (after, out) := PayTx(s.db, u, o, s.now);
      var end := Settle(Apply(s, CommitPay(0)), link);
      end.db == after && end.redis == if out == Moved && link != Down then Confirm(s.redis, o) else s.redis
  {
    hide PayTx, Confirm, Settle, Apply, RedisPending;
    var end := Apply(s, CommitPay(0));
    CommitPayStep(s, u, o);
    SettleShape(end, link);
    FailedTransactionsWriteNothing(s.db, CreateArgs(0, "", 0, [], 0, 0), u, o, s.now, false);
    if PayTx(s.db, u, o, s.now).1 == Moved {
      assert end.calls[0] == Confirming(o);
    } else {
      assert 0 !in end.calls;
    }
  }

  lemma CommitPayStep(s: Sys, u: int, o: int)
    requires s.calls == map[0 := Paying(u, o)]
    ensures var (after, out) := PayTx(s.db, u, o, s.now);
      Apply(s, CommitPay(0)) == if out == Moved then Goto(s, 0, Confirming(o)).(db := after) else Protocol.Done(s, 0)
  {
    hide PayTx, Goto, Protocol.Done;
  }

  lemma PayAlone(s: Sys, u: int, o: int, link: Link)
    requires s.calls == map[] && InStatus(s.db, u, o, Pending)
    ensures var (after, out) := PayTx(s.db, u, o, s.now);
      var end := Settle(Apply(Apply(s, BeginPay(0, u, o)), CommitPay(0)), link);
      && end.db == after && out != NotInState
      && end.redis == if out == Moved && link != Down then Confirm(s.redis, o) else s.redis
  {
    hide Confirm, Settle, LockedCovers, Aggregate, Consumed, Patched, LinesOf;
    CommitPayAlone(Apply(s, BeginPay(0, u, o)), u, o, link);
  }

  /** The cancel transaction, and the restore that follows a successful one. */
  lemma DoCancelAlone(s: Sys, u: int, o: int, byTimeout: bool, link: Link)
    requires s.calls.Keys == {0}
    ensures var (after, out) := CancelTx(s.db, u, o, s.now, byTimeout);
      var end := Settle(DoCancel(s, 0, u, o, byTimeout), link);
      end.db == after && end.redis == if out == Moved && link != Down then Release(s.redis, o) else s.redis
  {
    hide CancelTx, Release, Settle;
    SettleShape(DoCancel(s, 0, u, o, byTimeout), link);
    FailedTransactionsWriteNothing(s.db, CreateArgs(0, "", 0, [], 0, 0), u, o, s.now, byTimeout);
    var end := DoCancel(s, 0, u, o, byTimeout);
    if CancelTx(s.db, u, o, s.now, byTimeout).1 == Moved {
      assert end.calls[0] == Restoring(o);
    } else {
      assert 0 !in end.calls;
    }
  }

  lemma CancelAlone(s: Sys, u: int, o: int, link: Link)
    requires s.calls == map[] && InStatus(s.db, u, o, Pending)
    ensures var (after, out) := CancelTx(s.db, u, o, s.now, false);
      var end := Settle(Apply(Apply(s, BeginCancel(0, u, o)), CommitCancel(0)), link);
      && end.db == after && out != NotInState
      && end.redis == if out == Moved && link != Down then Release(s.redis, o) else s.redis
  {
    hide Release, Settle, LockedCovers, Aggregate, Released, Patched, LinesOf, RollbackLogs, DoCancel;
    DoCancelAlone(Apply(s, BeginCancel(0, u, o)), u, o, false, link);
  }

  lemma ExpireAlone(s: Sys, u: int, o: int, link: Link)
    requires s.calls == map[] && o in s.db.outbox && s.now >= s.db.outbox[o].timeoutAt
    requires InStatus(s.db, u, o, Pending)
    ensures var (after, out) := CancelTx(s.db, u, o, s.now, true);
      var end := Settle(Apply(Apply(s, BeginExpire(0, o)), CommitExpire(0)), link);
      && end.db == after && out != NotInState
      && end.redis == if out == Moved && link != Down then Release(s.redis, o) else s.redis
  {
    hide Release, Settle, LockedCovers, Aggregate, Released, Patched, LinesOf, RollbackLogs, DoCancel;
    DoCancelAlone(Apply(s, BeginExpire(0, o)), u, o, true, link);
  }

  /** Cancelling what is already cancelled only repeats the restore. */
  lemma RestoreAlone(s: Sys, u: int, o: int, link: Link)
    requires s.calls == map[] && InStatus(s.db, u, o, Cancelled)
    ensures var end := Settle(Apply(s, BeginCancel(0, u, o)), link);
      end.db == s.db && end.redis == if link != Down then Release(s.redis, o) else s.redis
    ensures o in s.db.outbox && s.now >= s.db.outbox[o].timeoutAt ==>
      var end := Settle(Apply(s, BeginExpire(0, o)), link);
      end.db == s.db && end.redis == if link != Down then Release(s.redis, o) else s.redis
  {
    hide Release, Settle;
    SettleShape(Apply(s, BeginCancel(0, u, o)), link);
    if o in s.db.outbox && s.now >= s.db.outbox[o].timeoutAt {
      SettleShape(Apply(s, BeginExpire(0, o)), link);
    }
  }

  // ---- what the calls come to, in terms of the stores ----

  /** The guard turns the request away. */
  predicate Refused(redis: Redis, a: CreateArgs, link: Link) {
    link == Up && ShortAtFirstGap(redis.available, a.items)
  }

  /** The lines of a create call stay off the counters: they were taken, and not known to be taken for nothing. */
  predicate Taken(redis: Redis, a: CreateArgs, link: Link, created: bool, releaseLink: Link) {
    link != Down && Covered(redis.available, a.items) && (created || link == ReplyLost || releaseLink == Down)
  }

  /** The restore after a cancellation, if its command gets through. */
  predicate Restored(redis: Redis, after: Redis, o: int, link: Link) {
    if link == Down then after == redis else GivesBack(redis, after, o)
  }

  /** The event is on record and its deadline has passed. */
  predicate Overdue(db: Db, o: int, now: int) {
    o in db.outbox && db.outbox[o].timeoutAt <= now
  }

  /** The answer of a create call with an unused order id, and both stores after it. */
  ghost predicate CreateAnswers(
    db: Db, redis: Redis, after: Db, afterRedis: Redis, a: CreateArgs, link: Link, fails: bool, releaseLink: Link,
    reply: CreateReply)
  {
    var key := (a.userId, a.key);
    var created := !Refused(redis, a, link) && !fails && key !in db.keys
      && AllSellable(db, a.items) && AllInStock(db, a.items) && a.orderId !in db.orders;
    && (if created then Creates(db, after, a) && reply == Accepted(a.orderId) else after == db)
    && (if Taken(redis, a, link, created, releaseLink) then Takes(redis, afterRedis, a.orderId, a.items) else afterRedis == redis)
    && (Refused(redis, a, link) ==> reply == Rejected(InsufficientStock))
    && (!Refused(redis, a, link) && fails ==> reply == Rejected(StorageError))
    && (!Refused(redis, a, link) && !fails && key in db.keys ==>
          && db.keys[key].orderId.Some?
          && reply == if db.keys[key].digest == a.items then Accepted(db.keys[key].orderId.value) else Rejected(KeyConflict))
    && (!Refused(redis, a, link) && !fails && key !in db.keys && !created ==>
          reply.Rejected? && Decides(db, a, reply.reason))
  }

  /** A turned away request leaves both stores alone. */
  lemma RefusedAnswers(db: Db, redis: Redis, a: CreateArgs, fails: bool, releaseLink: Link)
    requires a.orderId !in redis.reservations && PreDeduct(redis, a.orderId, a.items).1 == Insufficient
    ensures PreDeduct(redis, a.orderId, a.items).0 == redis
    ensures CreateAnswers(db, redis, db, redis, a, Up, fails, releaseLink, Rejected(InsufficientStock))
  {
    hide CheckFrom, ShortAtFirstGap, Covered, Decides, AllSellable, AllInStock, Creates, Takes;
    InsufficientIff(redis.available, a.items, 0);
    CheckIsCovered(redis.available, a.items, 0);
  }

  /** The pre-deduction of a request that goes on, and the release that may follow. */
  lemma GuardOfCreate(redis: Redis, a: CreateArgs, link: Link, created: bool, releaseLink: Link)
    requires a.orderId !in redis.reservations
    ensures var (mid, answer) := if link == Down then (redis, Missing) else PreDeduct(redis, a.orderId, a.items);
      var end := if !created && link == Up && answer == Applied && releaseLink != Down then Release(mid, a.orderId) else mid;
      && (Refused(redis, a, link) <==> link == Up && answer == Insufficient)
      && (if Taken(redis, a, link, created, releaseLink) then Takes(redis, end, a.orderId, a.items) else end == redis)
  {
    hide CheckFrom, ShortAtFirstGap, Covered, QtyOf, Release;
    InsufficientIff(redis.available, a.items, 0);
    CheckIsCovered(redis.available, a.items, 0);
    PreDeductAllOrNothing(redis, a.orderId, a.items);
    ReleaseUndoesPreDeduct(redis, a.orderId, a.items);
  }

  /** A create call that is not turned away. */
  lemma GoingOnAnswers(db: Db, redis: Redis, a: CreateArgs, link: Link, fails: bool, releaseLink: Link, timeout: int)
    requires Inv(db, timeout) && Distinct(a.items) && a.orderId !in redis.reservations
    requires link == Up ==> PreDeduct(redis, a.orderId, a.items).1 != Insufficient
    ensures var (mid, answer) := if link == Down then (redis, Missing) else PreDeduct(redis, a.orderId, a.items);
      var (after, out) := if fails then (db, StorageError) else CreateTx(db, a);
      var end := if out != Created && link == Up && answer == Applied && releaseLink != Down then Release(mid, a.orderId) else mid;
      CreateAnswers(db, redis, after, end, a, link, fails, releaseLink, ReplyTo(out, a.orderId))
  {
    hide Inv, Distinct, PreDeduct, Release, CreateTx, Refused, Taken, Takes, Creates, AllSellable, AllInStock, Decides;
    var out := if fails then StorageError else CreateTx(db, a).1;
    GuardOfCreate(redis, a, link, out == Created, releaseLink);
    TransactionExact(db, a, timeout);
  }

  /** Any accepted answer is the order that the user's key record names afterwards. */
  lemma AcceptedIsRecorded(db: Db, a: CreateArgs)
    ensures var (after, out) := CreateTx(db, a);
      var reply := ReplyTo(out, a.orderId);
      reply.Accepted? ==> (a.userId, a.key) in after.keys && after.keys[(a.userId, a.key)].orderId == Some(reply.orderId)
  {
    hide FreshVerdict, Rows, DeductLogs, Reserved, TotalFen;
  }

  /** A payment as one function of both stores. */
  function PayAnswer(db: Db, redis: Redis, u: int, o: int, now: int, link: Link): (Db, Redis, MoveReply) {
    if !OwnedBy(db, u, o) then (db, redis, OrderNotFound)
    else
      match db.orders[o].status
      case Paid => (db, redis, AlreadyPaid)
      case Finished => (db, redis, AlreadyFinished)
      case Cancelled => (db, redis, AlreadyCancelled)
      case Pending =>
        var (after, out) := PayTx(db, u, o, now);
        match out
        case NotInState => (after, redis, StateConflict)
        case StockRowFailed => (after, redis, StockFailure)
        case Moved => (after, if link == Down then redis else Confirm(redis, o), Done)
  }

  /** It is the protocol run of a lone payment, and on a consistent database pays exactly. */
  lemma PayAnswerMeans(db: Db, redis: Redis, u: int, o: int, now: int, timeout: int, link: Link)
    ensures var (after, end, reply) := PayAnswer(db, redis, u, o, now, link);
      && (!InStatus(db, u, o, Pending) ==>
            && after == db && end == redis
            && reply == (if !OwnedBy(db, u, o) then OrderNotFound
                         else match db.orders[o].status
                           case Paid => AlreadyPaid case Finished => AlreadyFinished case _ => AlreadyCancelled))
      && (InStatus(db, u, o, Pending) ==>
            var last := Settle(Apply(Apply(Alone(db, redis, now, timeout), BeginPay(0, u, o)), CommitPay(0)), link);
            && last.db == after && last.redis == end
            && reply == if PayTx(db, u, o, now).1 == Moved then Done else StockFailure)
      && (Inv(db, timeout) && InStatus(db, u, o, Pending) ==>
            && reply == Done && Pays(db, after, o, now)
            && end.available == redis.available
            && end.reservations == if link == Down then redis.reservations else redis.reservations - {o})
  {
    hide Apply, Settle, PayTx, Enabled, Inv, Pays;
    FailedTransactionsWriteNothing(db, CreateArgs(0, "", 0, [], 0, 0), u, o, now, false);
    if InStatus(db, u, o, Pending) {
      PayAlone(Alone(db, redis, now, timeout), u, o, link);
      if Inv(db, timeout) {
        PayExact(db, u, o, now, timeout);
      }
    }
  }

  /** A timeout event as one function of both stores. */
  function ExpireAnswer(db: Db, redis: Redis, o: int, now: int, link: Link): (Db, Redis, MoveReply) {
    if o !in db.outbox then (db, redis, Ignored)
    else if now < db.outbox[o].timeoutAt then (db, redis, NotYetDue)
    else if o !in db.orders then (db, redis, Ignored)
    else
      match db.orders[o].status
      case Cancelled => (db, if link == Down then redis else Release(redis, o), Done)
      case Pending =>
        var (after, out) := CancelTx(db, db.orders[o].userId, o, now, true);
        if out == StockRowFailed then (after, redis, StockFailure)
        else (after, if out == Moved && link != Down then Release(redis, o) else redis, Done)
      case _ => (db, redis, Ignored)
  }

  /** What it answers and changes. */
  lemma ExpireAnswerMeans(db: Db, redis: Redis, o: int, now: int, timeout: int, link: Link)
    ensures var (after, end, reply) := ExpireAnswer(db, redis, o, now, link);
      && (!Overdue(db, o, now) || (!HasStatus(db, o, Pending) && !HasStatus(db, o, Cancelled)) ==>
            && after == db && end == redis
            && reply == (if o in db.outbox && now < db.outbox[o].timeoutAt then NotYetDue else Ignored))
      && (Overdue(db, o, now) && HasStatus(db, o, Cancelled) ==>
            after == db && reply == Done && Restored(redis, end, o, link))
      && (Overdue(db, o, now) && HasStatus(db, o, Pending) ==>
            && after == CancelTx(db, db.orders[o].userId, o, now, true).0
            && reply == if CancelTx(db, db.orders[o].userId, o, now, true).1 == Moved then Done else StockFailure)
      && (reply != Done ==> after == db && end == redis)
      && (Inv(db, timeout) && Overdue(db, o, now) && HasStatus(db, o, Pending) ==>
            reply == Done && Cancels(db, after, o, now, true) && Restored(redis, end, o, link))
  {
    hide CancelTx, Release, Inv, Cancels, Restored;
    if Overdue(db, o, now) && HasStatus(db, o, Pending) {
      ExpirePending(db, redis, o, now, timeout, link);
    } else if Overdue(db, o, now) && HasStatus(db, o, Cancelled) {
      ReleaseRestores(redis, o, link);
    }
  }

  lemma ReleaseRestores(redis: Redis, o: int, link: Link)
    ensures Restored(redis, if link == Down then redis else Release(redis, o), o, link)
  {
    hide Release, GivesBack;
    ReleaseGivesBack(redis, o);
  }

  lemma ExpirePending(db: Db, redis: Redis, o: int, now: int, timeout: int, link: Link)
    requires Overdue(db, o, now) && HasStatus(db, o, Pending)
    ensures var (after, end, reply) := ExpireAnswer(db, redis, o, now, link);
      var cancelled := CancelTx(db, db.orders[o].userId, o, now, true);
      && after == cancelled.0 && reply == (if cancelled.1 == Moved then Done else StockFailure)
      && (reply != Done ==> after == db && end == redis)
      && (Inv(db, timeout) ==> reply == Done && Cancels(db, after, o, now, true) && Restored(redis, end, o, link))
  {
    hide CancelTx, CreateTx, PayTx, Release, Inv, Cancels, Restored;
    var u := db.orders[o].userId;
    PendingIsCancelled(db, u, o, now, true);
    ReleaseRestores(redis, o, link);
    if Inv(db, timeout) {
      CancelExact(db, u, o, now, true, timeout);
    }
  }

  lemma PendingIsCancelled(db: Db, u: int, o: int, now: int, byTimeout: bool)
    requires InStatus(db, u, o, Pending)
    ensures CancelTx(db, u, o, now, byTimeout).1 != NotInState
    ensures CancelTx(db, u, o, now, byTimeout).1 != Moved ==> CancelTx(db, u, o, now, byTimeout).0 == db
  {
    hide LinesOf, Aggregate, LockedCovers, Released, RollbackLogs;
  }

  /** It is the protocol run of a lone timeout cancel. */
  lemma ExpireAnswerIsRun(db: Db, redis: Redis, o: int, now: int, timeout: int, link: Link)
    requires Overdue(db, o, now)
    ensures HasStatus(db, o, Cancelled) ==>
      var last := Settle(Apply(Alone(db, redis, now, timeout), BeginExpire(0, o)), link);
      (last.db, last.redis) == (ExpireAnswer(db, redis, o, now, link).0, ExpireAnswer(db, redis, o, now, link).1)
    ensures HasStatus(db, o, Pending) ==>
      var last := Settle(Apply(Apply(Alone(db, redis, now, timeout), BeginExpire(0, o)), CommitExpire(0)), link);
      (last.db, last.redis) == (ExpireAnswer(db, redis, o, now, link).0, ExpireAnswer(db, redis, o, now, link).1)
  {
    hide Apply, Settle, CancelTx, Release, Enabled;
    if o in db.orders {
      var s, u := Alone(db, redis, now, timeout), db.orders[o].userId;
      if HasStatus(db, o, Cancelled) {
        RestoreAlone(s, u, o, link);
      } else if HasStatus(db, o, Pending) {
        ExpireAlone(s, u, o, link);
      }
    }
  }

  /** Pre-deduction, transaction and compensation as one function of both stores. */
  function Submitted(db: Db, redis: Redis, a: CreateArgs, link: Link, fails: bool, releaseLink: Link): (Db, Redis, CreateReply) {
    var (mid, answer) := if link == Down then (redis, Missing) else PreDeduct(redis, a.orderId, a.items);
    if link == Up && answer == Insufficient then (db, mid, Rejected(InsufficientStock))
    else
      var (after, out) := if fails then (db, StorageError) else CreateTx(db, a);
      var end := if out != Created && link == Up && answer == Applied && releaseLink != Down then Release(mid, a.orderId) else mid;
      (after, end, ReplyTo(out, a.orderId))
  }

  lemma SubmittedAnswers(db: Db, redis: Redis, a: CreateArgs, link: Link, fails: bool, releaseLink: Link, timeout: int)
    requires Inv(db, timeout) && Distinct(a.items) && a.orderId !in redis.reservations
    ensures var (after, end, reply) := Submitted(db, redis, a, link, fails, releaseLink);
      CreateAnswers(db, redis, after, end, a, link, fails, releaseLink, reply)
  {
    hide Inv, Distinct, PreDeduct, Release, CreateTx, CreateAnswers;
    if link == Up && PreDeduct(redis, a.orderId, a.items).1 == Insufficient {
      RefusedAnswers(db, redis, a, fails, releaseLink);
    } else {
      GoingOnAnswers(db, redis, a, link, fails, releaseLink, timeout);
    }
  }

  lemma SubmittedRecorded(db: Db, redis: Redis, a: CreateArgs, link: Link, fails: bool, releaseLink: Link)
    ensures var (after, end, reply) := Submitted(db, redis, a, link, fails, releaseLink);
      reply.Accepted? ==> (a.userId, a.key) in after.keys && after.keys[(a.userId, a.key)].orderId == Some(reply.orderId)
  {
    hide PreDeduct, Release, CreateTx;
    AcceptedIsRecorded(db, a);
  }

  /** The same as a run of the protocol. */
  lemma SubmittedIsRun(db: Db, redis: Redis, u: int, key: string, o: int, items: seq<Item>, now: int, timeout: int,
                       link: Link, fails: bool, releaseLink: Link)
    requires o > 0 && items != [] && Bound(items) && Distinct(items)
    ensures var a := CreateArgs(u, key, o, SortedItems(items), now, timeout);
      var (after, end, reply) := Submitted(db, redis, a, link, fails, releaseLink);
      var begun := Begun(Alone(db, redis, now, timeout), u, key, o, items, link);
      if 0 in begun.calls
      then var last := Attempted(begun, fails, releaseLink);
        last.db == after && last.redis == end && reply == ReplyTo(Verdict(begun, fails), o)
      else begun.db == after && begun.redis == end && reply == Rejected(InsufficientStock)
  {
    hide Bound, Distinct, SortedItems, CreateTx, PreDeduct, Release, Begun, Attempted;
    BeginAlone(db, redis, now, timeout, u, key, o, items, link);
    var begun := Begun(Alone(db, redis, now, timeout), u, key, o, items, link);
    if 0 in begun.calls {
      AbortAlone(begun, u, key, o, begun.calls[0].items, begun.calls[0].applied, releaseLink);
      CommitAlone(begun, u, key, o, begun.calls[0].items, begun.calls[0].applied, releaseLink);
    }
  }

  lemma LinesDistinct(items: seq<Item>)
    requires Distinct(items)
    ensures Distinct(SortedItems(items))
  {
    SortedOfDistinct(items);
  }

  class Service {
    const sql: MySql
    const guard: Guard
    const timeout: int

    constructor (sql: MySql, guard: Guard, timeout: int)
      ensures this.sql == sql && this.guard == guard && this.timeout == timeout
    {
      this.sql, this.guard, this.timeout := sql, guard, timeout;
    }

    /** Validation, canonical items, Redis pre-deduction, one MySQL transaction, compensation.
        `fails` is a transaction that errors for its own reasons, a lost connection or a lock timeout. */
    method CreateOrder(
      userId: int, key: string, items: seq<Item>, orderId: int, now: int, link: Link, fails: bool, releaseLink: Link)
      returns (reply: CreateReply)
      requires orderId > 0 && items != [] && Bound(items)
      modifies sql, guard
      ensures userId <= 0 ==> reply == InvalidUser
      ensures userId > 0 && !ValidKey(key) ==> reply == InvalidKey
      ensures userId > 0 && ValidKey(key) && !Distinct(items) ==> reply == DuplicateItem
      ensures userId <= 0 || !ValidKey(key) || !Distinct(items) ==>
        sql.State() == old(sql.State()) && guard.State() == old(guard.State())
      ensures userId > 0 && ValidKey(key) && Distinct(items) ==>
        var begun := Begun(Alone(old(sql.State()), old(guard.State()), now, timeout), userId, key, orderId, items, link);
        if 0 in begun.calls
        then SameStores(Attempted(begun, fails, releaseLink), sql, guard) && reply == ReplyTo(Verdict(begun, fails), orderId)
        else SameStores(begun, sql, guard) && reply == Rejected(InsufficientStock)
      ensures reply.Accepted? ==> (userId, key) in sql.keys && sql.keys[(userId, key)].orderId == Some(reply.orderId)
      ensures userId > 0 && ValidKey(key) && Distinct(items) && orderId !in old(guard.reservations) && Inv(old(sql.State()), timeout) ==>
        var a := CreateArgs(userId, key, orderId, SortedItems(items), now, timeout);
        CreateAnswers(old(sql.State()), old(guard.State()), sql.State(), guard.State(), a, link, fails, releaseLink, reply)
    {
      if userId <= 0 {
        return InvalidUser;
      }
      if !ValidKey(key) {
        return InvalidKey;
      }
      var ok := ValidateDuplicateItems(items);
      if !ok {
        return DuplicateItem;
      }
      hide Bound, Distinct, ValidKey, SortedItems, Begun, Attempted, Verdict, Inv, CreateAnswers, Submitted;
      ghost var db, redis := sql.State(), guard.State();
      var a := CreateArgs(userId, key, orderId, SortedItems(items), now, timeout);
      SortedKeeps(items);
      reply := Submit(a, link, fails, releaseLink);
      SubmittedIsRun(db, redis, userId, key, orderId, items, now, timeout, link, fails, releaseLink);
      SubmittedRecorded(db, redis, a, link, fails, releaseLink);
      if orderId !in redis.reservations && Inv(db, timeout) {
        LinesDistinct(items);
        SubmittedAnswers(db, redis, a, link, fails, releaseLink, timeout);
      }
    }

    /** From the pre-deduction on. */
    method Submit(a: CreateArgs, link: Link, fails: bool, releaseLink: Link) returns (reply: CreateReply)
      requires a.orderId > 0 && a.items != []
      modifies sql, guard
      ensures (sql.State(), guard.State(), reply)
        == Submitted(old(sql.State()), old(guard.State()), a, link, fails, releaseLink)
    {
      hide CreateTx, PreDeduct, Release;
      var applied, insufficient := guard.PreDeductInventory(a.orderId, a.items, link);
      if insufficient {
        return Rejected(InsufficientStock);
      }
      var out := StorageError;
      if !fails {
        var locks;
        out, locks := sql.CreateOrder(a);
      }
      if !out.Created? && applied {
        guard.ReleaseReservation(a.orderId, releaseLink);
      }
      reply := ReplyTo(out, a.orderId);
    }

    /** A stale read, then the conditional transaction, then the confirm. */
    method PayOrder(userId: int, orderId: int, now: int, link: Link) returns (reply: MoveReply)
      requires orderId > 0
      modifies sql, guard
      ensures !InStatus(old(sql.State()), userId, orderId, Pending) ==>
        && sql.State() == old(sql.State()) && guard.State() == old(guard.State())
        && reply == (if !OwnedBy(old(sql.State()), userId, orderId) then OrderNotFound
                     else match old(sql.orders)[orderId].status
                       case Paid => AlreadyPaid case Finished => AlreadyFinished case _ => AlreadyCancelled)
      ensures InStatus(old(sql.State()), userId, orderId, Pending) ==>
        var s := Alone(old(sql.State()), old(guard.State()), now, timeout);
        && SameStores(Settle(Apply(Apply(s, BeginPay(0, userId, orderId)), CommitPay(0)), link), sql, guard)
        && reply == if PayTx(s.db, userId, orderId, now).1 == Moved then Done else StockFailure
      ensures Inv(old(sql.State()), timeout) && InStatus(old(sql.State()), userId, orderId, Pending) ==>
        && reply == Done && Pays(old(sql.State()), sql.State(), orderId, now)
        && guard.available == old(guard.available)
        && guard.reservations == if link == Down then old(guard.reservations) else old(guard.reservations) - {orderId}
    {
      hide Apply, Settle, PayTx, Confirm, Enabled, Inv, Pays, PayAnswer;
      PayAnswerMeans(sql.State(), guard.State(), userId, orderId, now, timeout, link);
      reply := PayOnce(userId, orderId, now, link);
    }

    method PayOnce(userId: int, orderId: int, now: int, link: Link) returns (reply: MoveReply)
      requires orderId > 0
      modifies sql, guard
      ensures (sql.State(), guard.State(), reply) == PayAnswer(old(sql.State()), old(guard.State()), userId, orderId, now, link)
    {
      hide PayTx;
      if orderId !in sql.orders || sql.orders[orderId].userId != userId {
        return OrderNotFound;
      }
      match sql.orders[orderId].status {
        case Paid => return AlreadyPaid;
        case Finished => return AlreadyFinished;
        case Cancelled => return AlreadyCancelled;
        case Pending =>
      }
      var out, locks := sql.PayOrder(userId, orderId, now);
      match out {
        case NotInState => return StateConflict;
        case StockRowFailed => return StockFailure;
        case Moved =>
      }
      guard.ConfirmPreDeductedInventory(orderId, link);
      reply := Done;
    }

    method FinishOrder(userId: int, orderId: int, now: int) returns (reply: MoveReply)
      modifies sql
      ensures sql.State() == FinishTx(old(sql.State()), userId, orderId, now).0
      ensures var db := old(sql.State());
        reply == if !OwnedBy(db, userId, orderId) then OrderNotFound
                 else match db.orders[orderId].status
                   case Pending => NotPaid case Cancelled => AlreadyCancelled
                   case Finished => AlreadyFinished case Paid => Done
      ensures if InStatus(old(sql.State()), userId, orderId, Paid)
        then reply == Done && Finishes(old(sql.State()), sql.State(), orderId, now)
        else reply != Done && sql.State() == old(sql.State())
    {
      FinishExact(sql.State(), userId, orderId, now);
      if orderId !in sql.orders || sql.orders[orderId].userId != userId {
        return OrderNotFound;
      }
      match sql.orders[orderId].status {
        case Pending => return NotPaid;
        case Cancelled => return AlreadyCancelled;
        case Finished => return AlreadyFinished;
        case Paid =>
      }
      var out := sql.FinishOrder(userId, orderId, now);
      reply := if out == Moved then Done else StateConflict;
    }

    /** Cancelling a cancelled order succeeds again and repeats the restore. */
    method CancelOrder(userId: int, orderId: int, now: int, link: Link) returns (reply: MoveReply)
      requires orderId > 0
      modifies sql, guard
      ensures var db := old(sql.State());
        !InStatus(db, userId, orderId, Pending) && !InStatus(db, userId, orderId, Cancelled) ==>
          && sql.State() == db && guard.State() == old(guard.State())
          && reply == (if !OwnedBy(db, userId, orderId) then OrderNotFound
                       else if db.orders[orderId].status.Paid? then AlreadyPaid else AlreadyFinished)
      ensures InStatus(old(sql.State()), userId, orderId, Cancelled) ==>
        var s := Alone(old(sql.State()), old(guard.State()), now, timeout);
        SameStores(Settle(Apply(s, BeginCancel(0, userId, orderId)), link), sql, guard) && reply == Done
      ensures InStatus(old(sql.State()), userId, orderId, Pending) ==>
        var s := Alone(old(sql.State()), old(guard.State()), now, timeout);
        && SameStores(Settle(Apply(Apply(s, BeginCancel(0, userId, orderId)), CommitCancel(0)), link), sql, guard)
        && reply == if CancelTx(s.db, userId, orderId, now, false).1 == Moved then Done else StockFailure
      ensures Inv(old(sql.State()), timeout) && InStatus(old(sql.State()), userId, orderId, Pending) ==>
        && reply == Done && Cancels(old(sql.State()), sql.State(), orderId, now, false)
        && Restored(old(guard.State()), guard.State(), orderId, link)
      ensures InStatus(old(sql.State()), userId, orderId, Cancelled) ==>
        sql.State() == old(sql.State()) && Restored(old(guard.State()), guard.State(), orderId, link)
    {
      hide Apply, Settle, CancelTx, Release, Enabled, Inv, Cancels, GivesBack;
      if Inv(sql.State(), timeout) {
        CancelExact(sql.State(), userId, orderId, now, false, timeout);
      }
      ReleaseGivesBack(guard.State(), orderId);
      ghost var s := Alone(sql.State(), guard.State(), now, timeout);
      var restored, idempotent := false, false;
      if orderId !in sql.orders || sql.orders[orderId].userId != userId {
        return OrderNotFound;
      }
      match sql.orders[orderId].status {
        case Paid => return AlreadyPaid;
        case Finished => return AlreadyFinished;
        case Cancelled =>
          RestoreAlone(s, userId, orderId, link);
          idempotent := true;
        case Pending =>
          CancelAlone(s, userId, orderId, link);
          var out, locks := sql.CancelPendingOrder(userId, orderId, now, false);
          match out {
            case NotInState => return StateConflict;
            case StockRowFailed => return StockFailure;
            case Moved => restored := true;
          }
      }
      if restored || idempotent {
        guard.ReleaseReservation(orderId, link);
      }
      reply := Done;
    }

    /** The timeout consumer: unknown events and orders past Pending are ignored, early ones refused. */
    method CancelExpiredOrder(orderId: int, now: int, link: Link) returns (reply: MoveReply)
      requires orderId > 0
      modifies sql, guard
      ensures var db := old(sql.State());
        (orderId !in db.outbox || now < db.outbox[orderId].timeoutAt
         || (!HasStatus(db, orderId, Pending) && !HasStatus(db, orderId, Cancelled))) ==>
          && sql.State() == db && guard.State() == old(guard.State())
          && reply == (if orderId in db.outbox && now < db.outbox[orderId].timeoutAt then NotYetDue else Ignored)
      ensures var s := Alone(old(sql.State()), old(guard.State()), now, timeout);
        orderId in s.db.outbox && now >= s.db.outbox[orderId].timeoutAt && HasStatus(s.db, orderId, Cancelled) ==>
          SameStores(Settle(Apply(s, BeginExpire(0, orderId)), link), sql, guard) && sql.State() == s.db && reply == Done
      ensures var s := Alone(old(sql.State()), old(guard.State()), now, timeout);
        orderId in s.db.outbox && now >= s.db.outbox[orderId].timeoutAt && HasStatus(s.db, orderId, Pending) ==>
          && SameStores(Settle(Apply(Apply(s, BeginExpire(0, orderId)), CommitExpire(0)), link), sql, guard)
          && sql.State() == CancelTx(s.db, s.db.orders[orderId].userId, orderId, now, true).0
          && reply == if CancelTx(s.db, s.db.orders[orderId].userId, orderId, now, true).1 == Moved then Done else StockFailure
      ensures reply != Done ==> sql.State() == old(sql.State()) && guard.State() == old(guard.State())
      ensures Inv(old(sql.State()), timeout) && Overdue(old(sql.State()), orderId, now) && HasStatus(old(sql.State()), orderId, Pending) ==>
        && reply == Done && Cancels(old(sql.State()), sql.State(), orderId, now, true)
        && Restored(old(guard.State()), guard.State(), orderId, link)
      ensures Overdue(old(sql.State()), orderId, now) && HasStatus(old(sql.State()), orderId, Cancelled) ==>
        Restored(old(guard.State()), guard.State(), orderId, link)
    {
      hide Apply, Settle, CancelTx, Release, Enabled, Inv, Cancels, GivesBack, ExpireAnswer;
      ExpireAnswerMeans(sql.State(), guard.State(), orderId, now, timeout, link);
      if Overdue(sql.State(), orderId, now) {
        ExpireAnswerIsRun(sql.State(), guard.State(), orderId, now, timeout, link);
      }
      reply := ExpireOnce(orderId, now, link);
    }

    method ExpireOnce(orderId: int, now: int, link: Link) returns (reply: MoveReply)
      requires orderId > 0
      modifies sql, guard
      ensures (sql.State(), guard.State(), reply) == ExpireAnswer(old(sql.State()), old(guard.State()), orderId, now, link)
    {
      hide CancelTx, Release;
      if orderId !in sql.outbox {
        return Ignored;
      }
      if now < sql.outbox[orderId].timeoutAt {
        return NotYetDue;
      }
      if orderId !in sql.orders {
        return Ignored;
      }
      var restored, alreadyCancelled := false, false;
      match sql.orders[orderId].status {
        case Cancelled => alreadyCancelled := true;
        case Pending =>
          var out, locks := sql.CancelPendingOrder(sql.orders[orderId].userId, orderId, now, true);
          if out == StockRowFailed {
            return StockFailure;
          }
          restored := out == Moved;
        case _ => return Ignored;
      }
      if restored || alreadyCancelled {
        guard.ReleaseReservation(orderId, link);
      }
      reply := Done;
    }
  }
}
