# Order, inventory and stock-guard protocol

A Dafny model of the Go back end's order service: orders and stock in MySQL, a stock guard in Redis that is
consulted first and may fail at any time, an outbox with delay queues that cancels unpaid orders, and a Snowflake
id generator.

`dafny verify dfyconfig.toml` checks the whole project.

## How it is built

| layer | files | content |
|---|---|---|
| records | `Domain.dfy`, `Items.dfy`, `Sums.dfy` | rows, item lists, totals over maps |
| stores | `StockGuard.dfy`, `Tables.dfy`, `Outbox.dfy` | classes whose methods are the Lua scripts and table updates, loop by loop, each proved against a function of the whole store |
| invariants | `Ledger.dfy`, `Integrity.dfy`, `Effects.dfy` | what each committed database satisfies, kept by each transaction; what each transaction decides and changes, field by field |
| protocol | `Protocol.dfy`, `ProtocolSafety.dfy`, `StepEffects.dfy` | a transition system: any number of calls, each transaction and each script one step, everything in between interleaves; calls may die, Redis commands may be lost, repeated or late |
| results | `Drift.dfy`, `Guarantees.dfy`, `Seeding.dfy`, `LockOrder.dfy` | theorems over every reachable state and every run |
| services | `OrderService.dfy`, `InventoryService.dfy`, `Reconcile.dfy`, `TimeoutWorker.dfy` | the service and worker methods as coded; a call that nothing interrupts is shown to be a run of the protocol |
| components | `OutboxLease.dfy`, `DelayLadder.dfy`, `Backoff.dfy`, `IdGen.dfy` | lease claims by several publishers, delay queues, 64-bit back-off, id packing |

Main results, hardest first:

- **Drift equation.** Once the seed gives a product its counter, every interleaving before, between and after keeps:
  counter + quantities reserved by orders that are not live + additions Redis has not applied = MySQL stock +
  quantities of live orders that bypassed Redis. Calls, sales of the product included, may step between the stocking
  commit and its seed. The guard then overstates stock only by bypassing orders and is exact at rest. For a repair
  (autofix) the equation holds afterwards if and only if what is outstanding at the write balances; it also repairs
  increments lost before. A repair during an outstanding pre-deduction (`FixCanOverstate`), and an addition's fallback
  that races another addition (`FallbackCanOverstate`), can leave the guard above the stock for good.
- **Conservation and no oversell** whatever Redis answers, and `locked_quantity` equal to the total over Pending orders,
  so the "insufficient locked stock" branches of cancel and pay cannot be taken.
- **At most once**: an order leaves Pending at most once, a reservation is credited back at most once and only for an
  order that never commits or is cancelled; a cancel repeated later repairs a lost restore.
- **Idempotency**: all successful answers for one user and key name one order. An unchanged repeat is turned away if and
  only if the first line not covered by its Redis counter has a counter; otherwise its transaction, whenever it commits
  and whatever others did, answers the original order and changes nothing.
- **Exact effects**: what each transaction decides and changes, field by field, from prices to instants, and with it the
  answer of every service call, of the timeout consumer and of the id generator.
- **Deadlock freedom** from ascending lock plans, which the transactions are shown to follow.
- **Outbox lease spacing**: after a failure record all further claims keep a lease apart if and only if the record does
  not set the next attempt of a row that can still be claimed before the end of one of its leases. Records read no
  earlier than the latest claim all meet that if and only if the configured delay is at most ten minutes.
- **Delay ladder** from the published message to its arrival; **back-off** exact if and only if the cap is at most 2^62;
  **Snowflake** ids increasing for every clock.

## Assumptions taken from the code's surroundings

- Item quantities and product ids are positive and a request names at least one item: request binding
  (`internal/request/order_request.go:3-11`). Amounts do not overflow int64, and quantities are below 10^14, where Lua
  numbers and cjson are exact.
- A transaction's error means it did not commit. Order ids are unique (the default generator fixes worker 1, so one
  process, or distinct workers).
- The request digest is injective on canonical item lists; the list stands for it.

## Where code and documentation disagree

- `docs/idempotency.md` promises the old order for every unchanged repeat. The code asks Redis first
  (`internal/service/order_service.go:45-56`) and looks the key up later (`:73`), so a repeat can be refused as
  insufficient stock: `Guarantees.ReplayIff` and `Guarantees.ReplayCanBeRefused` follow the code.
- `docs/transaction_design.md:26` says Redis only caches product details; the code keeps a stock guard there.
- The retry delay may be configured up to one hour (`config/rabbitmq_config.go:17`), but a recorded failure postpones by
  at most ten minutes (`internal/ordertimeout/worker.go:406-410`), which undercuts a longer lease.

## Model

| member | source | states |
|---|---|---|
| Seeding.SeededBeforeSale | internal/service/inventory_service.go:38-70 | from any reachable state, with any run between the commit of the first stock and the seed that gives the product its counter, and any run after it that does not overwrite the counter, whichever commands are lost: the drift equation holds, the guard overstates only by bypassing orders and is exact when nothing is outstanding |
| Seeding.FallbackInsteadOfSeed | internal/bizcache/inventory_stock_guard.go:96-103 | when an increment's fallback creates the counter instead of a lost seed, the equation misses by exactly fallback minus increment minus first stock; it holds if and only if these cancel |
| Guarantees.FallbackDrift | internal/bizcache/inventory_stock_guard.go:96-103 | an increment that finds no counter moves the drift by fallback minus increment |
| Guarantees.FallbackCanOverstate | internal/bizcache/inventory_stock_guard.go:96-103 | a reachable state at rest, with no order, whose counter exceeds stock because two additions met a missing counter in the other order |
| Seeding.StockedIsQuiet | internal/service/inventory_service.go:38-70 | right after its first stocking a product has no counter and nothing of it is reserved, ordered or unapplied anywhere |
| Guarantees.KeylessOverRun | internal/bizcache/inventory_stock_guard.go:48-76 | while a product has no counter nothing of it gets reserved and its drift stays what it was, even if it is sold |
| Guarantees.SeededGuardIsExact | internal/bizcache/inventory_stock_guard.go:48-103 | after seeding, for every interleaving with commands lost or repeated, the drift equation holds absolutely; the guard overstates only by bypassing orders and is exact when nothing is outstanding |
| Guarantees.RepairIsExactIff | internal/inventoryreconcile/worker.go:115-117 | after an overwrite with current stock the drift equation holds at the end of every run that does not overwrite again if and only if what was outstanding at the write balanced |
| Guarantees.OverwrittenGuardIsExact | internal/inventoryreconcile/worker.go:115-117 | after an overwrite with current stock while nothing is idle, bypassing or on its way, the equation holds for everything since; earlier lost increments are repaired |
| Guarantees.OverwriteDrift | internal/bizcache/inventory_stock_guard.go:175-188 | an overwrite sets the drift to exactly the error of the written value plus what is outstanding |
| Guarantees.FixCanOverstate | internal/inventoryreconcile/worker.go:115-117 | a reachable state, a repair writing the current stock there, and a run without further writes to rest with no order, at whose end the counter exceeds stock |
| Guarantees.DriftOverRun | internal/service/order_service.go:45-234 | the drift of a product is constant over every run that does not overwrite its counter |
| Drift.DriftStep | internal/service/order_service.go:416-707 | no step of create, pay, finish, cancel, timeout or supply moves the drift of a product, with or without a counter, unless it writes the counter absolutely |
| Guarantees.Conservation | internal/dao/inventory_dao.go:55-100 | in every reachable state stock and locked are non-negative, locked is the total over Pending orders, and stock + locked + shipped is all that was ever supplied |
| Guarantees.FaithfulLedger | internal/service/order_service.go:156-193 | every log starts where the previous one of its product ended, moves by its change, and the last one is the stock column |
| Guarantees.CommittedBundle | internal/service/order_service.go:111-213 | a committed order has distinct items, the total of its subtotals, deductions equal to its items, rollbacks exactly when Cancelled, instants exactly as its status implies, one outbox deadline and exactly one key |
| Guarantees.LeavesPendingOnce | internal/dao/order_dao.go:76-83 | over any run an order departs from Pending at most once, and exactly once if it ends settled |
| Guarantees.TimeoutNeverEarly | internal/service/order_service.go:463-511 | an order rolled back by timeout is Cancelled, at an instant not before creation plus timeout |
| Guarantees.OneOrderPerKey | internal/service/order_service.go:73-109 | all successful answers for a user and key name one order, owned by that user, whose items are the recorded request |
| Guarantees.ReplayIff | internal/service/order_service.go:45-109 | an unchanged repeat is refused if and only if Redis answers and the first uncovered line has a counter; otherwise, after any run of the others, its transaction answers the original order and changes nothing, or fails without answer or change |
| Guarantees.RefusedIff | internal/bizcache/inventory_stock_guard.go:48-76 | which create requests the guard turns away, in terms of the counters, and that the others go on with their canonical items |
| StockGuard.InsufficientIff | internal/bizcache/inventory_stock_guard.go:48-76 | the script answers insufficient if and only if the first line not covered has a counter |
| Guarantees.ReplayCanBeRefused | internal/service/order_service.go:53-56 | a reachable state and an unchanged repeat that the guard refuses |
| Guarantees.CreditedAtMostOnce | internal/bizcache/inventory_stock_guard.go:78-94 | over any run a reservation is credited at most once, and a credited order is never live again |
| Guarantees.PaidNeverCredited | internal/bizcache/inventory_stock_guard.go:155-173 | the reservation of a paid order, even one whose confirm was lost, is never credited |
| Guarantees.RepeatedCancelRepairs | internal/service/order_service.go:426-454 | cancelling a cancelled order whose restore was lost credits its reservation exactly then |
| Guarantees.ReachableSafe | internal/service/order_service.go:28-707 | every reachable state satisfies the whole system invariant |
| ProtocolSafety.StepKeeps | internal/service/order_service.go:28-707 | each atomic step of each call, whatever the others do, keeps the system invariant |
| ProtocolSafety.RunKeeps | internal/service/order_service.go:28-707 | so does every run; committed orders only move forward and logs, keys and outbox entries are never rewritten |
| ProtocolSafety.StepEvolves | internal/dao/order_dao.go:76-83 | a step moves order states forward only, keeps recorded instants, and only a create commit adds an order |
| ProtocolSafety.CreditsKept | internal/bizcache/inventory_stock_guard.go:288-311 | a step never credits a live order or an order twice |
| ProtocolSafety.LostGrows | internal/service/inventory_service.go:134-135 | an addition whose Redis increment was lost stays lost |
| ProtocolSafety.FailedTransactionsWriteNothing | internal/service/order_service.go:216-234 | a create, pay or cancel transaction that does not succeed leaves MySQL unchanged |
| Effects.VerdictExact | internal/service/order_service.go:111-201 | for an unused key the transaction creates if and only if every product exists and is on sale, every line is covered by stock and the order id is unused; each refusal names the first thing wrong |
| Effects.CreateExact | internal/service/order_service.go:126-210 | a creation writes row i with the product's price and price times quantity, the sum of these as total, stock and locked moved by each line, one log per line, the completed key and the fresh outbox row, and nothing else |
| Effects.TransactionExact | internal/service/order_service.go:72-213 | on a consistent database: created, replayed, in conflict or refused, with exactly these effects |
| Effects.CancelExact | internal/service/order_service.go:513-570 | a Pending order becomes Cancelled at the given instant, each line is back in stock and logged with its reason, nothing else changes; otherwise nothing does |
| Effects.PayExact | internal/service/order_service.go:631-653 | a Pending order becomes Paid at the given instant, each line leaves the locked quantity, nothing else changes; otherwise nothing does |
| Effects.FinishExact | internal/service/order_service.go:690-700 | a Paid order becomes Finished at the given instant, nothing else changes; otherwise nothing does |
| Effects.AddExact | internal/service/inventory_service.go:85-130 | when stock is added, and the one row and one log that change |
| Effects.InitExact | internal/service/inventory_service.go:18-68 | when a product is stocked first, and the one row and one log that appear |
| StepEffects.CreateStep | internal/service/order_service.go:72-229 | the protocol's create commit: exact effect, recorded answer, and the release that follows exactly when the reservation is known to be its own |
| StepEffects.PayStep | internal/service/order_service.go:631-660 | the protocol's pay commit pays exactly and goes on to confirm; a stale read changes nothing |
| StepEffects.CancelStep | internal/service/order_service.go:436-511 | the protocol's cancel commits cancel exactly and go on to the restore; a stale read changes nothing |
| StepEffects.FinishStep | internal/service/order_service.go:690-707 | the protocol's finish commit finishes exactly; a stale read changes nothing |
| StepEffects.SupplyStep | internal/service/inventory_service.go:38-135 | the protocol's supply steps change exactly their row and ledger and go on to the counter |
| StepEffects.ScriptStep | internal/bizcache/inventory_stock_guard.go:78-203 | what each Redis command of the protocol does to counters and reservations |
| Integrity.CreateKeeps | internal/service/order_service.go:72-213 | the create transaction keeps every database invariant and writes nothing unless it creates |
| Integrity.CancelKeeps | internal/service/order_service.go:513-570 | the cancel transaction keeps every database invariant |
| Integrity.PayKeeps | internal/service/order_service.go:601-662 | the pay transaction keeps every database invariant |
| Integrity.FinishKeeps | internal/service/order_service.go:664-707 | finishing keeps every database invariant |
| Integrity.AddKeeps | internal/service/inventory_service.go:85-136 | adding stock keeps every database invariant |
| Integrity.InitKeeps | internal/service/inventory_service.go:18-72 | first stocking keeps every database invariant |
| Integrity.LockedSuffices | internal/dao/inventory_dao.go:72-100 | in a consistent database every line of a Pending order finds enough locked stock, also midway through the loop |
| Integrity.ReservedNonNegative | internal/service/order_service.go:146-167 | an accepted creation never takes more of a product than its stock |
| Integrity.ReplayIsExact | internal/service/order_service.go:77-109 | a used key is answered by its order or by a conflict; the "state invalid" and "being created" answers cannot occur on committed data |
| Integrity.TotalIsSubtotals | internal/service/order_service.go:126-180 | the amount loop and the item loop, computed separately, agree |
| Ledger.AppendDeductions | internal/service/order_service.go:182-193 | a deduct batch continues the chain, lowers each balance by the ordered quantity and records exactly its lines |
| Ledger.AppendRollbacks | internal/service/order_service.go:548-567 | a rollback batch continues the chain and gives back exactly its lines |
| Tables.MySql.CreateOrder | internal/service/order_service.go:72-213 | the row-by-row transaction writes the whole bundle or nothing, answers as decided by key, products and stock, and locks in plan order |
| Tables.MySql.ReserveItems | internal/service/order_service.go:146-194 | the item loop reserves every line with its row and log, or reports the first line that fails |
| Tables.MySql.CancelPendingOrder | internal/service/order_service.go:513-570 | compare-and-set, then stock given back and logged line by line, or nothing |
| Tables.MySql.PayOrder | internal/service/order_service.go:631-653 | compare-and-set, then locked stock consumed line by line, or nothing |
| Tables.MySql.AddInventory | internal/service/inventory_service.go:91-130 | adds to stock under the row lock and logs before and after |
| Tables.MySql.InitInventory | internal/service/inventory_service.go:18-68 | creates the row and its first log once per product |
| Tables.MySql.PatchOrderStatus | internal/dao/order_dao.go:76-83 | changes one row exactly when user, order and current state match, stamping the matching instant |
| Tables.MySql.CompleteOrderIdempotencyKey | internal/dao/order_idempotency_key.go:30-39 | completes the row once, from the being-created state |
| Tables.MySql.PriceItems | internal/service/order_service.go:111-130 | finds the first unsellable line in order, or the total that CreateExact states at the products' prices |
| OrderService.Service.CreateOrder | internal/service/order_service.go:28-234 | the protocol run of a lone call; any accepted answer is the order the user's key record names afterwards; on consistent data the exact answer and both stores for every request: refused, failed, replayed, in conflict, created at the current prices, or rejected with its reason, with Redis as before unless the reservation stands |
| OrderService.Service.PayOrder | internal/service/order_service.go:601-662 | the answer for each current state and the protocol run of a lone payment; on consistent data a Pending order is paid exactly and its reservation confirmed |
| OrderService.Service.FinishOrder | internal/service/order_service.go:664-707 | the answer for each current state; done if and only if the user's order was Paid, which is then Finished at that instant with all else unchanged |
| OrderService.Service.CancelOrder | internal/service/order_service.go:416-461 | the answer for each current state and the protocol run of a lone cancel; on consistent data a Pending order is cancelled exactly and its reservation given back; repeating it repeats only the restore |
| OrderService.Service.CancelExpiredOrder | internal/service/order_service.go:463-511 | unknown, early and settled orders change nothing; on consistent data a due Pending order is cancelled exactly, as by the protocol, and its reservation given back |
| OrderService.KeysAccepted | internal/service/order_service.go:29-35 | which keys are accepted: ASCII ones up to 128 characters that are not blank, and none longer or blank |
| StockGuard.PreDeductAllOrNothing | internal/bizcache/inventory_stock_guard.go:48-76 | a fresh pre-deduction applies if and only if every line is covered, then takes every line; otherwise nothing moves |
| StockGuard.PreDeductKeepsNonNegative | internal/bizcache/inventory_stock_guard.go:48-76 | check-then-decrement keeps counters non-negative because products are distinct |
| StockGuard.OverdraftIff | internal/bizcache/inventory_stock_guard.go:48-76 | without distinctness the script overdraws exactly when the lines of a product together exceed its counter |
| StockGuard.DuplicateLinesOverdraw | internal/service/order_service.go:236-246 | two lines of one product, each covered, drive a counter below zero: why duplicates are rejected first |
| StockGuard.ReleaseUndoesPreDeduct | internal/bizcache/inventory_stock_guard.go:78-94 | releasing what was just reserved restores Redis exactly |
| StockGuard.ScriptsAreIdempotent | internal/bizcache/inventory_stock_guard.go:48-94 | repeated pre-deduct, release and confirm for one order change nothing further |
| StockGuard.Guard.RunPreDeduct | internal/bizcache/inventory_stock_guard.go:48-76 | the two loops of the script compute the pre-deduction |
| StockGuard.Guard.RunRelease | internal/bizcache/inventory_stock_guard.go:78-94 | the release loop credits every line whose counter exists, then deletes the reservation |
| StockGuard.Guard.PreDeductInventory | internal/bizcache/inventory_stock_guard.go:105-145 | an unreachable Redis or a lost reply is neither applied nor insufficient, though the script may have run |
| StockGuard.Guard.IncrInventoryStock | internal/bizcache/inventory_stock_guard.go:190-203 | increments an existing counter, or writes the fallback |
| StockGuard.Guard.GetInventoryStocks | internal/bizcache/inventory_stock_guard.go:234-286 | one entry per positive id, empty exactly for missing keys; fails if and only if Redis is needed and does not answer or holds a value that is no integer |
| StockGuard.Guard.RebuildInventoryStocks | internal/bizcache/inventory_stock_guard.go:205-232 | writes exactly the non-negative rows with positive ids and counts them; when the pipeline fails, some first part of it has been written and no count is given |
| StockGuard.PipelineCount | internal/bizcache/inventory_stock_guard.go:214-231 | with distinct products the count is the number of counters written |
| StockGuard.WritesAt | internal/bizcache/inventory_stock_guard.go:205-232 | each written counter carries the quantity of its own row |
| InventoryService.Service.InitInventory | internal/service/inventory_service.go:18-72 | when it succeeds, exactly the row and log written, then the counter seeded with the quantity; the protocol run of a lone call; a refusal changes neither store |
| InventoryService.Service.AddInventory | internal/service/inventory_service.go:85-136 | when it succeeds, exactly the row and log written, then the counter incremented or set to the new stock; the protocol run of a lone call |
| InventoryService.RepairZeroesDrift | internal/inventoryreconcile/worker.go:85-127 | an uninterrupted repair is a run that makes every counter equal stock and leaves as drift exactly what is outstanding |
| Reconcile.Reconciler.ReconcileRedisInventoryStock | internal/service/inventory_service.go:158-207 | for whatever MySQL answered earlier and the counters read now: a product is listed, once and in order, if and only if its key is missing or differs; no report exactly when a read fails |
| Reconcile.DiffCountExact | internal/service/inventory_service.go:158-207 | the difference count is the number of such products, zero if and only if every counter equals stock |
| Reconcile.Reconciler.AutoFixRedisInventoryStock | internal/service/inventory_service.go:210-218 | for any list, however stale: writes exactly the listed quantities that are not negative and whose command gets through; reservations untouched |
| Reconcile.FixWritesRepairs | internal/inventoryreconcile/worker.go:115-117 | on a fresh report these writes are the stock of exactly the products that differ |
| Reconcile.SecondReport | internal/inventoryreconcile/worker.go:85-127 | a second report lists exactly what the repair could not write, so it is empty if and only if all was repairable |
| Reconcile.Reconciler.RunOnce | internal/inventoryreconcile/worker.go:85-144 | report, then repair only when enabled, possible and something differs; in every other outcome Redis is unchanged |
| Reconcile.Reconciler.RebuildRedisInventoryStock | internal/service/inventory_service.go:138-156 | every stocked product's counter equals its stock, others keep theirs, and the count is exact; after a failure each counter is as before or equals its stock |
| LockOrder.ServicePlansAscend | internal/service/order_service.go:513-570 | each transaction's lock plan is strictly ascending: key row, order row, inventory rows by product |
| LockOrder.PlansCoverChanges | internal/service/order_service.go:146-167 | whatever stock, order or key row a create, pay or cancel changes is in its lock plan |
| LockOrder.NoWaitCycle | internal/service/order_service.go:72-167 | no reachable lock table holds a wait cycle of any length |
| LockOrder.Progress | internal/service/order_service.go:631-653 | while a transaction is unfinished, some transaction can lock or commit without a rollback |
| Items.ValidateDuplicateItems | internal/service/order_service.go:236-246 | accepts if and only if no product occurs twice |
| Items.SortedItems | internal/service/order_service.go:248-257 | a sorted permutation by product, then quantity |
| Items.CanonicalForm | internal/service/order_service.go:248-277 | two requests have one canonical form, hence one digest, if and only if their item multisets are equal |
| Items.AggregateAndSort | internal/service/order_service.go:572-599 | strictly ascending products, exactly those of the valid rows, each with its total |
| Items.AggregateUnique | internal/service/order_service.go:572-599 | there is only one such list, so map iteration order cannot matter |
| Items.AggregateOfAscending | internal/service/order_service.go:572-599 | the stored lines of an order are their own aggregate |
| Outbox.OutboxTable.ClaimPending | internal/dao/order_timeout_outbox_dao.go:46-105 | claims the first due unlocked rows, adds one attempt and the lease to exactly those, returns them as stored |
| Outbox.PickedAreDue | internal/dao/order_timeout_outbox_dao.go:64-75 | at most the limit, each unpublished, due, unlocked and with attempts left, in id order |
| Outbox.PickedFirst | internal/dao/order_timeout_outbox_dao.go:64-75 | an eligible row is left behind only when the limit is used up on earlier rows |
| OutboxLease.RunKeeps | internal/dao/order_timeout_outbox_dao.go:46-130 | over every run of several publishers: open claims are disjoint, attempts count the claims and never exceed ten, published rows are frozen and never claimed again |
| OutboxLease.SpacedAfterFailureIff | internal/dao/order_timeout_outbox_dao.go:117-130 | after a failure record all continuations with such records keep claims a lease apart if and only if it does not set the next attempt of a claimable row before the end of a lease of that row |
| OutboxLease.RunKeepsLease | internal/dao/order_timeout_outbox_dao.go:46-130 | so claims of a row are a lease apart over every run of such records, whatever the delay |
| OutboxLease.FailureWithinLeaseIff | internal/ordertimeout/worker.go:400-418 | for a worker whose own lease still runs the condition is: reading plus back-off is not before the end of that lease |
| OutboxLease.FailureWithinLeaseIsTimely | internal/ordertimeout/worker.go:400-418 | a failure recorded before its own lease runs out is timely, whatever other publishers did meanwhile |
| OutboxLease.LeaseSpacingIff | internal/ordertimeout/worker.go:378-426 | claims of a row are a lease apart in every run with timely failure records if and only if the delay is at most ten minutes |
| OutboxLease.LongDelayBreaksSpacing | internal/ordertimeout/worker.go:406-410 | a longer delay has a run with two claims inside one lease |
| OutboxLease.StaleFailureBreaksSpacing | internal/dao/order_timeout_outbox_dao.go:117-130 | so has any delay when a failure is recorded with a reading from before a newer claim |
| TimeoutWorker.Worker.PublishBatch | internal/ordertimeout/worker.go:378-426 | claims a batch and publishes in order up to the first row that fails; which rows change, and every message published |
| TimeoutWorker.DeliveredAt | internal/ordertimeout/worker.go:400-424 | row by row: sent rows are published, the first refused one waits its back-off, the rest keep their lease, no other row moves |
| TimeoutWorker.BatchIsTimelyRun | internal/ordertimeout/worker.go:378-426 | publishing a batch, while other publishers hold other rows, is a run with timely failure records |
| TimeoutWorker.RungQueuesAreUniform | internal/ordertimeout/worker.go:428-461 | whatever is published, a rung's queue holds messages in arrival order that all live as long as the rung |
| TimeoutWorker.PublishedArrivesOnTime | internal/ordertimeout/worker.go:428-461 | a published event leaves the queue chosen for it exactly one rung after arrival, and within the largest rung not before its deadline |
| TimeoutWorker.BuildPublishing | internal/ordertimeout/worker.go:428-461 | builds the message whose routing PublishedToLeastRung and LegacyRouting pin down |
| TimeoutWorker.PublishedToLeastRung | internal/ordertimeout/worker.go:428-461 | with distinct keys every published event is in the queue of exactly one configured rung, the least covering its delay if any does, and then comes out no earlier than its deadline, one rung after it arrived |
| TimeoutWorker.LegacyRouting | internal/ordertimeout/worker.go:449-458 | without ladders: the delay key, and the remaining whole milliseconds as lifetime exactly when there is a delay queue |
| TimeoutWorker.ProductionLaddersFit | internal/ordertimeout/worker.go:43-59 | the built-in ladders are sorted, whole milliseconds, with distinct keys |
| TimeoutWorker.ExpirationMilliseconds | internal/ordertimeout/worker.go:677-683 | at least one millisecond, and never past the deadline by rounding |
| TimeoutWorker.CancelCloses | internal/service/order_service.go:463-511 | a timeout cancel closes its order and reopens none |
| TimeoutWorker.Handle | internal/ordertimeout/worker.go:502-547 | on consistent data an event due for a Pending order cancels it at that time, gives its stock and reservation back and is acknowledged; nothing else changes the tables; acknowledged only past the deadline and past Pending; failures change nothing and are requeued or dead-lettered by the death count |
| TimeoutWorker.Consume | internal/ordertimeout/worker.go:502-547 | after any sequence of deliveries every Pending order is Cancelled at its first due delivery if it has one, every other order is untouched, due deliveries are acknowledged, and acknowledged orders stay closed |
| DelayLadder.SortLadders | internal/ordertimeout/worker.go:132-140 | a sorted permutation of the configured ladders |
| DelayLadder.MatchDelayLadder | internal/ordertimeout/worker.go:359-376 | the first rung long enough, else the last, else the default |
| DelayLadder.FirstFitIsLeast | internal/ordertimeout/worker.go:359-376 | on sorted ladders it is the least rung that covers the delay, or a largest one |
| DelayLadder.ChoiceIgnoresTies | internal/ordertimeout/worker.go:132-140 | an unstable sort cannot change the chosen duration |
| DelayLadder.TtlIsDuration | internal/ordertimeout/worker.go:235-239 | a rung's queue lifetime is its duration in whole milliseconds, at least one |
| DelayLadder.OnTimeIff | internal/ordertimeout/worker.go:235-245 | a message leaves a head-expiry queue on time if and only if nothing ahead of it expires later |
| DelayLadder.UniformTtlOnTime | internal/ordertimeout/worker.go:235-245 | with one lifetime per queue every message leaves exactly then |
| DelayLadder.PerMessageTtlBlocks | internal/ordertimeout/worker.go:442-454 | with lifetimes per message a short one is held up by a long one |
| DelayLadder.NeverBeforeDeadline | internal/ordertimeout/worker.go:428-461 | within the largest rung a timeout event arrives exactly one rung after enqueueing and never before its deadline |
| DelayLadder.OnTimeIffCovered | internal/ordertimeout/worker.go:359-376 | over all contents of the queue and all enqueue instants an event never comes out before its deadline if and only if some rung covers its delay |
| DelayLadder.EnqueuedAtOnceIff | internal/ordertimeout/worker.go:359-376 | enqueued at once, behind anything, it comes out no earlier than its deadline if and only if some rung covers its delay |
| Backoff.BackoffValue | internal/ordertimeout/worker.go:327-353 | no intermediate value wraps: the result is the capped doubling, and the cap outright from attempt 63 |
| Backoff.ExactIff | internal/ordertimeout/worker.go:327-353 | it equals the mathematical capped doubling on all bases and attempts if and only if the cap is at most 2^62 |
| Backoff.BackoffMonotone | internal/ordertimeout/worker.go:327-353 | a later attempt never waits less |
| Backoff.BackoffAtLeast | internal/ordertimeout/worker.go:327-353 | never below the smaller of base and cap, never above the cap |
| IdGen.Snowflake.Create | pkg/idgen/idgen.go:56-70 | refuses a worker outside ten bits, then an epoch not in the past |
| IdGen.Snowflake.NextIDWithError | pkg/idgen/idgen.go:88-120 | the drift check, second reading, sequence wrap and spin loop compute the call that CallAnswers describes |
| IdGen.CallAnswers | pkg/idgen/idgen.go:88-120 | over the readings alone: the clock is reported if and only if the first reading is more than 100 behind or the first two are behind, with that drift; otherwise the accepted reading is issued with sequence 0, the next sequence in the same millisecond, or after 4095 the first later reading with 0 |
| IdGen.CallIncreases | pkg/idgen/idgen.go:88-120 | a call issues an id past all earlier ones, or reports the clock and changes nothing |
| IdGen.IdsIncrease | pkg/idgen/idgen.go:88-120 | for every clock in the window ids strictly increase, lie in [0, 2^63) and carry the worker |
| IdGen.WorkersNeverCollide | pkg/idgen/idgen.go:115-120 | generators with different workers never issue the same id |
| IdGen.UnpackPack | pkg/idgen/idgen.go:115-120 | an id determines its time, worker and sequence |
| IdGen.PackValue | pkg/idgen/idgen.go:115-120 | shifts and ors equal positional arithmetic inside the 41-bit window; the sign bit is taken exactly beyond it |
| IdGen.PositiveIds | pkg/idgen/idgen.go:136-142 | the default generator's ids are positive |

## Left out

- IdGen.IdsIncrease: clock readings before the epoch or 2^41 ms after it, where ids leave the positive 63-bit range, are excluded.
- IdGen.WorkersNeverCollide: two processes that share a worker id may collide; the default generator fixes worker 1.
- OrderService.Service.CreateOrder: trimming of the key is modelled only as "has a non-space character"; message texts, order numbers, metrics, and the HTTP answer are not modelled. A key row another transaction has inserted but not committed is covered only as a call that aborts.
- LockOrder.ServicePlansAscend: the outbox row a create inserts last is new and private to it, and is not a lock in the plan. Shared locks on users rows, taken through the foreign keys of orders and idempotency keys (`migrations/00009_add_order_ownership.sql:25`, `:39`), are not in the plans; no modelled transaction locks a users row exclusively.
- TimeoutWorker.Handle: the death count is a parameter. Requeueing does not raise it in this code, so no bound on retries is claimed.
- Reconcile.Reconciler.RunOnce: nothing steps between its Redis read and its writes; writes that come later are covered by AutoFixRedisInventoryStock on any list and by Guarantees.OverwriteDrift for any written quantity.
- InventoryService.Service.AddInventory: an increment is applied at most once per call; a client library that resends a timed-out increment could apply it twice, which the drift equation does not cover.
- Redis key expiry, eviction and loss of the reservation hashes: keys stay until a command removes them.
- Liveness of automatic cancellation: a row that used its ten attempts is never claimed again; safety and spacing are proved instead.
- Dead-letter consumer (`internal/ordertimeout/worker.go:549-620`): always acknowledges.
- RabbitMQ connections, confirms and reconnects: only enqueue, expiry, delivery (possibly repeated), acknowledgement and requeue appear.
- JSON, SHA-256 and UUIDs: injective digest and fresh values; DATETIME rounding of instants.
- `sort.Slice` is modelled as an insertion sort by the same key; nil rows in slices and nil receivers do not occur.
- The 12 and 10 bit masks of the generator are written as remainders; its mutex as calls one after another.
- HTTP handlers, middleware, configuration checks, authentication, users, product catalogue and its cache, the web front end, metrics: no protocol state, or plumbing.
