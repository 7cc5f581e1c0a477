# GoPay: verified models of its payment core

GoPay is a payment gateway between business systems and the WeChat, Alipay and Stripe channels. This
project models the parts of it whose guarantees span many requests or many lines of code, and proves
what those parts keep. `dafny verify dfyconfig.toml` checks the whole project. Automatic induction is
switched off throughout, so every induction is spelled out.

**Orders under concurrent requests** (`Orders`, `Lifecycle`, `Webhooks`, `Refunds`, `Gateway`). `CreateOrder`
(check, channel call, insert), `Refund` (unlocked read, provider call, insert of a transaction, unguarded
status write) and the webhook handlers (locked status update, then a notification) are cut into atomic
actions over one `orders` table. A disabled action changes nothing, so *every* sequence of actions is a
run and every theorem about runs ranges over all interleavings, all failures of the database, and all
answers of the channels. A write to the database is acknowledged, fails, or takes effect while its
acknowledgement is lost. The class `Gateway.Gateway` holds the handlers as imperative code; each method
is proved to change the tables exactly as its own actions do, and to answer and notify as stated.

**Delivery of notifications** (`Notify`, `Deliveries`, `NotifyService`). A pool of 100 workers, at most
five attempts with doubling waits, deferral when the pool is full, the periodic sweep, the reset of the
admin pages, and `RetryNotify`, which starts a delivery outside the pool. Every database write, HTTP call
and sleep of a delivery is an action of its own. The class `NotifyService.NotifyService` is the code, and
refines the protocol.

**Both together** (`Composition`): handlers and deliveries over one shared table.

**Reconciliation** (`Reconcile`, `ReportStore`, `ReportHistory`, `BillAmounts`). The two-sided `compare`, which WeChat and
Alipay share line by line, and the storage of its report: an upsert, then a READ COMMITTED transaction whose
DELETE meets the rows committed by then and whose inserts show when it commits. Calls interleave between
any two of these.

**Configuration secrets** (`ConfigKeys`, `ConfigCrypto`). Encrypting, decrypting and masking over
arbitrary JSON trees. The laws are proved position by position: a tree is compared with its transform at
every path, so maps, arrays and any nesting are covered by one induction.

**Arithmetic and time windows** (`TokenBucket`, `LocalRateLimit`, `Nonce`, `Float64`, `Amounts`, `AmountScan`).
The Redis token bucket with expiring keys, the per-IP limiter with its background cleanup, the nonce window, and
the conversions between yuan and cents over IEEE 754 binary64 rounding to nearest, ties to even, which is
defined here rather than assumed.

## What turned out to hold only under a condition

Each of these is stated as an exact condition or with a concrete input.

- Refund takes no lock. From a safe state, an order can come to have k SUCCESS refund transactions exactly
  when it is pending or paid, whatever k, or when k is at most the number recorded plus its refunds past the
  status check (`Refunds.OverlappingRefundsBound`). An order whose refunds neither overlap nor are interrupted
  has at most one (`Refunds.ExclusiveRefundsOnce`); status writes that fail leave it paid and refundable, so
  refunds one after the other can also all succeed (`Refunds.FailedMarksRepeat`).
- A payment whose commit took effect but was not acknowledged to its webhook is never notified by a webhook
  (`Lifecycle.UntoldPaymentNotNotified`); its row is left for the scheduler.
- Refund notifications are exactly as many as the accepted refund updates that a webhook was told of
  (`Webhooks.RefundNotificationsCounted`), but further ones can be started, any number of them, exactly
  while the order is not closed (`Webhooks.RefundNotifiedAgainExactlyWhen`).
- No request handler ever closes an order, although closed is a declared status
  (`Webhooks.StatusReachableExactlyForward`).
- A notified order can become failed when another delivery of it is still under way, and only then
  (`Deliveries.FailureOverwritesExactlyWhen`); a run from nothing gets there (`Deliveries.SuccessCanBeLost`).
- A deferred refund notification is never made up for by the sweep
  (`Composition.RefundedOrdersAreNeverSwept`). The sweep is sure to list an order exactly when fewer than
  100 eligible ones are as old, and may list it exactly when fewer than 100 are older
  (`NotifyService.SweepReach`).
- A request reads the clock before it reaches Redis. With readings up to `late` seconds behind, the token
  bucket's limit on every interval, and the invisibility of its key expiry, hold exactly when burst * window
  is at most (2 * window - late) * rate, or burst is 0 (`TokenBucket.LimitHoldsExactlyWhen`): with no lag that
  is burst <= 2 * rate, with a second's lag and the code's window of a second burst <= rate. The readings must
  not go back: requests that read two seconds in turn can be admitted without bound
  (`TokenBucket.DisorderBreaksLimit`).
- A nonce protects a request exactly when its time stamp plus the longest wait between its two checks is
  not ahead of the server's clock (`Nonce.ReplayExactlyWhenAhead`).
- The per-IP cleanup is invisible, to requests that may wait up to `delay` for the lock after reading the
  clock, exactly when none waits or the refill over one minute less the wait covers the burst
  (`LocalRateLimit.CleanupInvisibleExactlyWhen`). With the rate of 100 and the burst of 200 that
  cmd/gopay/main.go:110-113 configures, that is for waits of up to 58 seconds.
- Decryption undoes encryption exactly on trees without an already prefixed text
  (`ConfigCrypto.RoundTripExactly`); only the nearest key decides what is masked
  (`ConfigCrypto.NestedObjectEscapesMask`).
- `compare` conserves money, for the unique numbers and positive amounts of the orders table, exactly when
  no paid order's number occurs twice in the bill (`Reconcile.ConservedExactlyWhen`); what it explains in
  excess is the money of the repetitions (`Reconcile.ExplainsSurplusToo`).
- The rows of a GenerateReport call are stored exactly when it committed and no committed call of the same
  report issued its DELETE after that commit (`ReportHistory.RowsStoredExactlyWhen`). So of two overlapping
  calls one can leave the summary and the other the details (`ReportHistory.OverlappingCallsMix`), and two
  that both issue their DELETE before either commits leave the rows of both, even when they found the same
  (`ReportHistory.OverlappingCallsPileUp`).
- Parsing a printed amount loses one cent for exactly the amounts c for which, with k such that
  2^(k-7) <= c/100 < 2^(k-6), c is below 2^k and c * 2^(59-k) leaves between 33 and 49 modulo 100
  (`Amounts.ParseExactWhen`), 29 cents among them; an honest bill reconciles exactly when it holds none
  (`BillAmounts.HonestBillReconciles`).

Where the code and its documentation differ, the code is followed. The backoff comment and the design
documents list waits of 1, 2, 4, 8 and 16 seconds, but the code never sleeps after the fifth attempt, so
a delivery waits 15 seconds in all. `UpdateOrderStatus` receives the paid amount and never compares it. A
refund writes its own time into `paid_at`.

## Model

| member | source | states |
|---|---|---|
| Orders.UpdateStatus | internal/service/order_service.go:184-249 | the locked transaction succeeds exactly for a pending order, or a move to refunded of an order that is not closed; a missing, a paid or refunded, and a closed order each get their own error; only status and paid_at of one row change, and those of an order already refunded do not |
| Lifecycle.StepAdvancesRows | internal/service/refund_service.go:189-204 | any single piece of any request only adds fresh pending rows and moves statuses forward; identities and notification columns stay |
| Lifecycle.StepKeepsRefundsSafe | internal/service/refund_service.go:56-124 | a refund that read "paid" keeps seeing a row that is paid or refunded, whatever runs between its pieces |
| Lifecycle.StepKeepsAmounts | internal/service/refund_service.go:75-81 | every row amount, and every amount about to be sent or ever sent to a provider, is positive and within its order |
| Lifecycle.StepKeepsPairs | internal/service/order_service.go:149-154 | the pair index and the ownership of created orders survive every step |
| Lifecycle.RunKeepsSafe | internal/service/order_service.go:72-166 | the three invariants above hold after every run from a safe state |
| Lifecycle.RunAdvancesRows | internal/service/order_service.go:184-249 | over whole runs no order disappears, moves backwards or changes identity |
| Lifecycle.RefundsAlwaysSafe | internal/service/refund_service.go:189-204 | in every run from the empty system the final unguarded write finds its row paid or refunded, and providers are asked for positive amounts within the order |
| Lifecycle.OneOrderPerPair | internal/service/order_service.go:94-154 | however CreateOrder calls interleave, a pair has one row and at most one successful caller |
| Lifecycle.InsertReportsDuplicates | internal/service/order_service.go:149-154 | an insert under a fresh number ends with ORDER_EXISTS exactly when the pair is taken, whether the database names the index or only the two columns, and otherwise with the new order |
| Lifecycle.StepKeepsHookCounts | internal/handler/webhook.go:93-113 | the counting invariant of commits and notifications survives every step |
| Lifecycle.OnePaymentNotification | internal/handler/webhook.go:93-113 | in every run an order has at most one committed payment, is paid only with exactly one, and has no more notifications than commits a webhook was told of, fewer only while the one told webhook has still to notify |
| Lifecycle.UntoldPaymentNotNotified | internal/service/order_service.go:242-244 | a payment of whose commit no webhook was told is never notified by a webhook |
| Lifecycle.NotificationFollowsItsCommit | internal/handler/webhook.go:93-134 | a webhook that notifies a payment or a refund, or is about to, has its own commit in the trace before |
| Webhooks.HandlersNeverClose | internal/handler/webhook.go:93-134 | no run of request handlers closes an order |
| Webhooks.StatusReachableExactlyForward | internal/service/order_service.go:206-230 | by request handlers, an order can reach exactly the forward statuses other than closed, and closed only if it is closed already; a caller of UpdateOrderStatus free to name any status could reach exactly the forward ones |
| Webhooks.StepKeepsRefundCounts | internal/handler/webhook.go:115-134 | refund commits and refund notifications stay counted along every step, and a webhook about to notify a refund finds it refunded |
| Webhooks.RefundNotificationsCounted | internal/handler/webhook.go:115-134 | in every run, the refund notifications started plus the webhooks about to start one are exactly the accepted refund updates that a webhook was told of |
| Webhooks.RefundNotificationsRepeat | internal/service/order_service.go:216-222 | k refund webhooks on an order that is not closed start k notifications |
| Webhooks.RefundNotifiedAgainExactlyWhen | internal/service/order_service.go:216-228 | from a reachable state, k > 0 further refund notifications of an order can be started if and only if it is not closed |
| Refunds.StepKeepsOneRefund | internal/service/refund_service.go:107-113 | without overlap among an order's own refunds, a success stays its last refund transaction |
| Refunds.ExclusiveRefundsOnce | internal/service/refund_service.go:68-113 | when the refunds of an order neither overlap nor are interrupted between record and status, it has at most one SUCCESS refund transaction and none after it, whatever other orders do |
| Refunds.PotentialBounds | internal/service/refund_service.go:60-113 | no run without a new refund exceeds the successes recorded plus those still possible |
| Refunds.AllSucceed | internal/service/refund_service.go:89-113 | and some run reaches that number |
| Refunds.InFlightRefundsBound | internal/service/refund_service.go:89-113 | without a new refund, k SUCCESS transactions are reachable if and only if k is at most those recorded plus those still possible |
| Refunds.OverlappingRefundsBound | internal/service/refund_service.go:64-113 | over all runs from a safe state, an order can come to have k SUCCESS transactions if and only if it is pending or paid or k is at most that number |
| Refunds.FailedMarksRepeat | internal/service/refund_service.go:107-113 | k refunds one after the other whose status writes fail leave k more SUCCESS transactions and the order still paid |
| Refunds.AnyNumberOfRefunds | internal/service/refund_service.go:64-113 | for any k, some run from the empty system leaves one order with k SUCCESS refund transactions |
| Gateway.Gateway.constructor | migrations/001_init_schema.up.sql:20-52 | the tables start empty |
| Gateway.Gateway.UpdateOrderStatus | internal/service/order_service.go:184-249 | one row changes exactly for a pending order or a paid one that is refunded; the errors are those of UpdateStatus; a fault changes nothing, and a lost acknowledgement of the commit is an error although the update took effect |
| Gateway.Gateway.SaveOrder | internal/service/order_service.go:393-408 | inserts exactly when both unique indexes allow it, and otherwise reports a violated index; a lost acknowledgement leaves the row |
| Gateway.Gateway.CreateOrder | internal/service/order_service.go:72-166 | run alone it is its three actions; each rejection has its exact cause; the stored row is the request, pending, unpaid, with notification to do and counter zero, and is there exactly if the write was not lost and number and pair were free |
| Gateway.Gateway.Refund | internal/service/refund_service.go:56-124 | run alone it is its four actions; each rejection has its exact cause; a paid order with an amount within it sends that amount, or the whole amount if none was asked, once; the row becomes refunded, and nothing else of it changes, exactly on a recorded SUCCESS whose status write takes effect |
| Gateway.Gateway.CheckRefund | internal/service/refund_service.go:64-81 | which check stops a refund, and the amount it goes on with |
| Gateway.Gateway.CallProvider | internal/service/refund_service.go:83-124 | the provider is called once with the amount given, and its answer alone decides the result, the record and the status write |
| Gateway.Gateway.FinishRefund | internal/service/refund_service.go:107-113 | the transaction is kept even if the status write fails; only a SUCCESS writes the status |
| Gateway.Gateway.HandleWebhook | internal/handler/webhook.go:92-135 | run alone it is its three actions; which reports change which rows and to what, and the exact events: a commit, followed by its notification if the webhook was told of it |
| Gateway.Gateway.ApplyReport | internal/handler/webhook.go:231-271 | paid and refunded reports update the order, others do not; the handler goes on exactly when the update was accepted and acknowledged |
| Gateway.Gateway.StartNotification | internal/handler/webhook.go:112-133 | starts the payment or the refund notification that fits the report |
| Notify.StepPool | internal/service/notify_service.go:77-100 | a step adds a pooled delivery with its slot, ends one with its slot, or does neither |
| Notify.PoolAlwaysBalanced | internal/service/notify_service.go:77-139 | in every run occupied slots equal the live pooled deliveries and never exceed 100, whatever fails and however many manual deliveries run |
| Notify.DispatchTakesSlotOrDefers | internal/service/notify_service.go:77-100 | a dispatch starts one delivery of the order exactly when fewer than 100 pooled ones run, and else leaves one deferral log; the row is untouched |
| Notify.StepKeepsNothingStranded | internal/service/notify_service.go:201-220 | the cover of pending orders survives every step whose status write succeeds |
| Notify.PendingOrdersCovered | internal/service/notify_service.go:174-225 | in every run whose final status writes succeed, a pending order with a raised counter has a delivery that will still write its status, even if logs and counters fail |
| Notify.QuietPendingOrdersSwept | internal/service/order_service.go:284-294 | once no delivery runs, every paid pending order has counter zero and meets the sweep's filter |
| Notify.ResetMakesEligible | internal/service/notify_service.go:433-443 | a manual retry of a paid order meets the filter of the sweep again and starts a delivery of that order |
| Deliveries.DeliveryTrail | internal/service/notify_service.go:182-224 | if its own log and counter writes succeed, a delivery that ended after k attempts left k logs and k increments and slept 2^(k-1) - 1 seconds; only its last log is a success, or all five failed and one alert was raised |
| Deliveries.EndedDelivery | internal/service/notify_service.go:182-224 | in numbers: k logs, k increments and 0, 1, 3, 7 or 15 seconds for a delivery on attempt k, five failed logs, five increments, 15 seconds and one alert for one that gave up |
| Deliveries.DeliveryEnds | internal/service/notify_service.go:182-224 | in every run a delivery takes at most 25 actions of its own |
| Deliveries.CanEnd | internal/service/notify_service.go:77-100 | a live delivery is never blocked: its own actions end it, freeing its slot and leaving other deliveries alone |
| Deliveries.FailureOverwritesExactlyWhen | internal/service/notify_service.go:204-220 | in a reachable state an order that is not failed can end up failed without a new delivery if and only if one of its deliveries may still fail all its attempts |
| Deliveries.SuccessCanBeLost | internal/service/notify_service.go:204-220 | a run from the empty system leaves an order notified that can end up failed without a new delivery |
| NotifyService.SweepReach | internal/service/order_service.go:284-294 | every result of the query lists an eligible order if and only if fewer than `limit` others are as old, and some result does if and only if fewer than `limit` are strictly older |
| NotifyService.CutIsSweep | internal/service/order_service.go:284-294 | the first `limit` of any list of the eligible orders, oldest first, are a result of the query |
| NotifyService.FirstSuccess | internal/service/notify_service.go:182-215 | the attempts made are those up to the first success, and at most all of them |
| NotifyService.OutcomeDecided | internal/service/notify_service.go:182-224 | a delivery gives up exactly after five refused attempts, and otherwise succeeds with its first accepted one |
| NotifyService.FinalRowColumns | internal/service/notify_service.go:201-220 | the row a whole delivery leaves: one more for each increment that succeeded, notified or failed_notify by its last answer unless that write fails, every other column and row as before |
| NotifyService.LogsInOrder | internal/service/notify_service.go:189-198 | one log row for each attempt whose insert succeeded, with its result, in the order of the attempts |
| NotifyService.NotifyService.NotifyAsync | internal/service/notify_service.go:77-100 | takes a slot and starts a delivery of the order below 100 slots, and else leaves a deferral log |
| NotifyService.NotifyService.Deliver | internal/service/notify_service.go:81-96 | does only its own actions, leaves the row, the logs and the alert that its answers call for, ends in their outcome, and frees exactly one slot on every path; without an app or a payload it changes neither rows nor logs nor alerts |
| NotifyService.NotifyService.NotifyWithRetryPayload | internal/service/notify_service.go:174-225 | the effect on the row, the logs and the alerts is that of the attempts its answers call for; its steps are actions of the protocol |
| NotifyService.NotifyService.RetryLoop | internal/service/notify_service.go:182-225 | the loop and what follows it have exactly that effect |
| NotifyService.NotifyService.TryOnce | internal/service/notify_service.go:182-215 | one turn: log and counter first, then the status on success, or the wait unless it was the last attempt |
| NotifyService.NotifyService.Attempt | internal/service/notify_service.go:185-202 | one request leaves one log and one increment, in this order |
| NotifyService.NotifyService.GiveUp | internal/service/notify_service.go:218-224 | the order becomes failed_notify unless the write fails, and one alert is raised in any case |
| NotifyService.NotifyService.SaveNotifyLog | internal/service/notify_service.go:327-343 | appends one log row, or none on a fault |
| NotifyService.NotifyService.IncrementRetryCount | internal/service/order_service.go:269-281 | adds one to the counter of one row |
| NotifyService.NotifyService.UpdateNotifyStatus | internal/service/order_service.go:252-266 | writes one row's notification status, whatever it was before |
| NotifyService.NotifyService.AlertOps | internal/service/notify_service.go:373-381 | raises one alert |
| NotifyService.NotifyService.FreeSlot | internal/service/notify_service.go:82-82 | frees one slot and ends the delivery |
| NotifyService.NotifyService.ListPendingNotifyOrders | internal/service/order_service.go:284-325 | returns paid orders still pending with a counter below 5 only, oldest first, without repetition, at most `limit`, and leaves one out only when full and no younger than all it lists |
| NotifyService.NotifyService.ProcessPendingNotifies | internal/service/notify_service.go:451-473 | is a sweep query for at most 100 orders followed by one dispatch per listed order, in order: the first ones get the free slots, the rest one deferral log each; a query that fails dispatches nothing |
| NotifyService.NotifyService.DispatchNext | internal/service/notify_service.go:468-470 | takes the next listed order off the list and starts its delivery, or leaves its deferral log |
| NotifyService.NotifyService.RetryNotify | internal/service/notify_service.go:402-448 | each error has its exact cause; a reset that takes effect sets counter zero and pending, and nothing else; only an acknowledged one starts a delivery of the order, which takes no slot |
| Composition.HandlerKeepsSound | internal/handler/webhook.go:92-135 | handlers keep every invariant of the notification service |
| Composition.NotifierKeepsSound | internal/service/notify_service.go:174-225 | deliveries, sweeps and resets keep every invariant of the handlers |
| Composition.MoveStrandsNothing | internal/service/notify_service.go:201-220 | no move whose final status write succeeds strands a pending order |
| Composition.WholeStaysSound | internal/service/notify_service.go:174-225 | in every run of both together: refunds safe, one payment notification, refund notifications counted, pool balanced; and no pending order stranded if the final status writes succeed |
| Composition.NotificationDispatched | internal/handler/webhook.go:112-133 | the notification a webhook starts is a delivery of the very order it committed, or its deferral log when 100 run |
| Composition.WholeMovesForward | internal/service/order_service.go:184-249 | and statuses only move forward |
| Composition.RefundedOrdersAreNeverSwept | internal/service/order_service.go:284-294 | once refunded, an order is in no later sweep |
| Reconcile.InternalMap | internal/reconciliation/wechat.go:157-160 | the index knows exactly the internal numbers and keeps the last order of each |
| Reconcile.ExternalMap | internal/reconciliation/wechat.go:163-166 | the index knows exactly the billed numbers |
| Reconcile.IndexOrders | internal/reconciliation/wechat.go:157-160 | the loop builds that index |
| Reconcile.IndexBill | internal/reconciliation/wechat.go:163-166 | the loop builds that index |
| Reconcile.CheckBill | internal/reconciliation/wechat.go:169-186 | the loop computes matched, missing and mismatched as specified |
| Reconcile.CheckOrders | internal/reconciliation/wechat.go:189-194 | the loop computes the extra orders as specified |
| Reconcile.Compare | internal/reconciliation/wechat.go:151-204 | the whole method computes Comparison, whose lists and numbers the next rows characterise |
| Reconcile.RecordsPartition | internal/reconciliation/alipay.go:177-194 | every record is counted or listed exactly once, duplicates included |
| Reconcile.ComparisonReportsAll | internal/reconciliation/alipay.go:159-212 | what each list holds, said of the two input lists alone: a mismatch carries the internal amount, the billed amount, and internal minus billed; totals add up; success means empty lists |
| Reconcile.ListedAsOften | internal/reconciliation/alipay.go:176-202 | a missing number is listed once for each record that names it, an extra one once for each order, and the matched records are those with the last amount of their order |
| Reconcile.SuccessMeans | internal/reconciliation/wechat.go:197-201 | for any lists, success if and only if both sides name the same orders and every record has the last amount of its order |
| Reconcile.SuccessMeansEqualSides | internal/reconciliation/wechat.go:197-201 | with unique numbers, success if and only if the sides are the same map from number to amount |
| Reconcile.ExplainsSurplusToo | internal/reconciliation/wechat.go:151-204 | with unique internal numbers, the report explains the difference of the totals plus the money of repeated bill records of paid orders |
| Reconcile.ConservedExactlyWhen | internal/reconciliation/wechat.go:151-204 | with unique internal numbers and positive amounts, the report explains exactly the difference of the totals if and only if no paid order's number occurs twice in the bill |
| Reconcile.MoneyConserved | internal/reconciliation/wechat.go:151-204 | with unique numbers, internal minus external total equals mismatch differences plus extra minus missing amounts |
| Reconcile.DuplicatesBreakConservation | internal/reconciliation/wechat.go:180-180 | a doubled record is matched twice: success, and the law fails |
| ReportStore.ApplyKeepsKeys | internal/reconciliation/reconciliation.go:135-201 | one id per key for good |
| ReportHistory.RunAgrees | internal/reconciliation/reconciliation.go:203-243 | in any interleaving, the detail table is the rows of the surviving commits, in the order of the commits |
| ReportHistory.RowsStoredExactlyWhen | internal/reconciliation/reconciliation.go:203-243 | all rows of a call are stored if it committed and no committed call of its report issued its DELETE after that commit, and none otherwise |
| ReportHistory.ApplyStores | internal/reconciliation/reconciliation.go:135-243 | an upsert changes the summary of its own key alone, a commit the details of its own key alone, a DELETE nothing yet |
| ReportHistory.LastWriteWins | internal/reconciliation/reconciliation.go:105-133 | however calls interleave and fail, a key holds the summary of its last upsert and the details of its surviving transactions |
| ReportHistory.ReportCountsItsDetails | internal/reconciliation/reconciliation.go:135-243 | one report row per key, whose counts equal its detail rows of each type if and only if its last upsert carries the counts of all surviving transactions together |
| ReportHistory.LastGenerationStands | internal/reconciliation/reconciliation.go:105-133 | a call with no other write of its key from its upsert on leaves what it alone would, counts and details in agreement, whatever came before |
| ReportHistory.OverlappingCallsMix | internal/reconciliation/reconciliation.go:123-130 | two overlapping calls can leave the summary of one and the details of the other |
| ReportHistory.OverlappingCallsPileUp | internal/reconciliation/reconciliation.go:203-212 | two calls that issue their DELETE before either commits leave the rows of both |
| ReportStore.ReconciliationService.SaveReport | internal/reconciliation/reconciliation.go:135-201 | stores total, matched, missing, extra and mismatch counts, success and path under the key, keeping the id of an existing row; other rows stay; a lost acknowledgement is an error although the row is saved |
| ReportStore.ReconciliationService.DetailsWithout | internal/reconciliation/reconciliation.go:210-212 | keeps exactly the rows of other reports, in order |
| ReportStore.ReconciliationService.InsertDetails | internal/reconciliation/reconciliation.go:214-240 | the three loops insert every difference in order, or stop at the insert that fails |
| ReportStore.ReconciliationService.SaveReportDetails | internal/reconciliation/reconciliation.go:203-243 | replaces the rows of the report by one for each missing, extra and mismatched order, in this order, or changes nothing if BEGIN, DELETE, an insert or COMMIT fails; a lost acknowledgement of COMMIT is an error although the rows are replaced |
| ReportStore.ReconciliationService.GenerateReport | internal/reconciliation/reconciliation.go:105-133 | writes nothing, the report row alone, or the report row and its details, by where it failed; succeeds exactly when all of it did; without a database it writes nothing and succeeds |
| BillAmounts.HonestBillTotal | internal/reconciliation/alipay.go:152-156 | a bill that prints every order's own amount falls short by at most a cent an order and never exceeds |
| BillAmounts.HonestBillReconciles | internal/reconciliation/alipay.go:152-212 | its reconciliation succeeds if and only if no amount is one of those that lose a cent |
| BillAmounts.TwentyNineCentsMismatch | internal/reconciliation/wechat.go:144-148 | an order of 29 cents fails against an honest bill |
| ConfigKeys.IsSensitiveConfigKey | internal/service/config_crypto.go:29-37 | the search loop decides Sensitive |
| ConfigKeys.SensitiveMeansTokenInside | internal/service/config_crypto.go:12-37 | a key is sensitive if and only if one of the six tokens occurs in it, in any case of its letters; the trimming never matters |
| ConfigCrypto.TransformConfigValue | internal/service/config_crypto.go:104-157 | the recursive code with its loops and early error returns computes Transform, for any order of map iteration |
| ConfigCrypto.TransformAt | internal/service/config_crypto.go:104-157 | all modes keep shape, keys, lengths and other leaves at every position, and change a text by the string case under its nearest key |
| ConfigCrypto.FailsAt | internal/service/config_crypto.go:137-149 | a failing traversal fails at some text |
| ConfigCrypto.NearestKeyIsLast | internal/service/config_crypto.go:104-125 | the key that judges a text is the last object key on its way; arrays pass theirs on |
| ConfigCrypto.TransformsInto | internal/service/config_crypto.go:104-157 | a tree whose texts the string case turns into those of another is turned into it |
| ConfigCrypto.EncryptSealsSecrets | internal/service/config_crypto.go:132-139 | encryption seals exactly the non-empty texts under a sensitive key without the prefix, at any depth |
| ConfigCrypto.DecryptOpensEncrypted | internal/service/config_crypto.go:140-147 | decryption opens exactly the texts with the prefix, under any key |
| ConfigCrypto.FailsExactlyWithKey | internal/service/config_crypto.go:132-147 | with a key, a traversal fails if and only if sealing a secret, or opening an encrypted text, fails |
| ConfigCrypto.RoundTripExactly | internal/service/config_crypto.go:132-149 | decrypt(encrypt(v)) = v if and only if no text of v already carries the prefix |
| ConfigCrypto.EncryptWithoutKey | internal/service/config_crypto.go:136-138 | without a key, encryption fails if and only if there is a plain secret |
| ConfigCrypto.DecryptWithoutKey | internal/service/config_crypto.go:144-146 | without a key, decryption fails if and only if there is an encrypted text |
| ConfigCrypto.EncryptIdempotent | internal/service/config_crypto.go:133-135 | encrypting again changes nothing, with any key or none and fresh nonces |
| ConfigCrypto.MaskHidesEncryption | internal/service/config_crypto.go:126-151 | mask(encrypt(v)) = mask(v) |
| ConfigCrypto.MaskCoversSecrets | internal/service/config_crypto.go:126-151 | after masking every encrypted text and every non-empty text under a sensitive key is the mask at any depth, all others are as before, and masking is idempotent |
| ConfigCrypto.NestedObjectEscapesMask | internal/service/config_crypto.go:106-114 | a text in an object under a sensitive key is judged by its own key alone |
| ConfigCrypto.LawsCanBeMet | pkg/security/encryption.go:52-100 | the assumptions made of Seal and Open are satisfiable |
| TokenBucket.TokensStayInRange | pkg/limiter/limiter.go:36-60 | stored tokens lie between 0 and burst after any requests, under any clock and any expiry |
| TokenBucket.KeptBudget | pkg/limiter/limiter.go:44-52 | admissions plus what is left never exceed what was there plus the refill |
| TokenBucket.KeptIntervalBound | pkg/limiter/limiter.go:44-52 | without expiry, any stretch of requests of length T from any bucket is admitted at most burst + rate*T/window times |
| TokenBucket.KeptIntervals | pkg/limiter/limiter.go:44-52 | so does every interval inside a run without expiry |
| TokenBucket.ExpiryChangesNothing | pkg/limiter/limiter.go:53-54 | if what is refilled in the keys' life, less the lag of a reading, covers the burst, every possible expiry gives the decisions of keys that never expire |
| TokenBucket.TwoBurstsAdmitted | pkg/limiter/limiter.go:53-54 | a run with expiry that admits two full bursts as early as the readings allow |
| TokenBucket.LimitHoldsExactlyWhen | pkg/limiter/limiter.go:36-63 | for any bound on the lag of readings, every interval of every run admits at most burst + rate*T/window, and expiry goes unnoticed, if and only if that refill covers the burst |
| TokenBucket.DisorderBreaksLimit | pkg/limiter/limiter.go:47-54 | readings out of order can admit any number of requests within two seconds of readings |
| TokenBucket.TokenBucketLimiter.constructor | pkg/limiter/limiter.go:25-32 | the window is one second |
| TokenBucket.TokenBucketLimiter.RunScript | pkg/limiter/limiter.go:36-60 | admits exactly if the stored tokens, or the burst if none, plus the refill since the stored time, cut at the burst, are at least one; stores one less and the time only when it admits; other keys are untouched |
| TokenBucket.TokenBucketLimiter.Allow | pkg/limiter/limiter.go:35-70 | answers as the script; a Redis error allows nothing, whether or not the script was run |
| LocalRateLimit.EntriesDifferOnlyByExpired | pkg/middleware/local_rate_limit.go:38-69 | with and without cleanups, the maps differ only by entries any later request would replace |
| LocalRateLimit.CleanupIsInvisible | pkg/middleware/local_rate_limit.go:38-69 | for every interleaving with monotone readings, every request gets the answer it would get without cleanups |
| LocalRateLimit.CoveredCleanupIsInvisible | pkg/middleware/local_rate_limit.go:38-69 | with late readings too, if the refill over an entry's life, less the wait, covers the burst |
| LocalRateLimit.LateRunSeesCleanup | pkg/middleware/local_rate_limit.go:54-57 | otherwise a run with the code's own limiter gets another answer because of a cleanup |
| LocalRateLimit.CleanupInvisibleExactlyWhen | pkg/middleware/local_rate_limit.go:26-69 | for every configuration and bound on the wait, the cleanup is invisible in every lock order if and only if no request waits or that refill covers the burst |
| LocalRateLimit.Normalize | pkg/middleware/local_rate_limit.go:27-32 | a rate that is not positive becomes one, a burst that is not positive becomes the rate, good settings are kept |
| LocalRateLimit.RateLimitMiddleware.constructor | pkg/middleware/local_rate_limit.go:34-35 | the map starts empty |
| LocalRateLimit.RateLimitMiddleware.HandleRequest | pkg/middleware/local_rate_limit.go:52-69 | asks the limiter of the entry, or a new one if there is none or its life has passed, and extends the entry by one minute |
| LocalRateLimit.RateLimitMiddleware.CleanUp | pkg/middleware/local_rate_limit.go:41-49 | removes exactly the entries whose life has passed |
| Nonce.NonceRemembered | pkg/security/access_control.go:135-166 | an accepted nonce stays as long as the clock is within the window of its acceptance, whatever is cleaned up |
| Nonce.NeverReplayed | pkg/middleware/signature.go:44-63 | a request whose time stamp, plus the wait of a replay between its two checks, is not ahead of the clock is never accepted again |
| Nonce.ReplayExactlyWhenAhead | pkg/middleware/signature.go:44-63 | and otherwise some schedule accepts it again |
| Nonce.NonceManager.constructor | pkg/security/access_control.go:125-132 | the cache starts empty |
| Nonce.NonceManager.CheckNonce | pkg/security/access_control.go:135-149 | accepts exactly unknown nonces and records them |
| Nonce.NonceManager.CleanupExpired | pkg/security/access_control.go:152-166 | removes exactly the nonces older than 300 seconds |
| Nonce.CheckFreshness | pkg/middleware/signature.go:37-63 | rejects in order an incomplete header, a bad time stamp, one more than 300 seconds off either way, and a known nonce; records a nonce only when it passes; without a nonce checker the window alone decides |
| Float64.RoundError | pkg/channel/alipay/provider.go:343-349 | rounding errs by at most 2^-53 of the value |
| Float64.RoundDyadic | pkg/channel/alipay/provider.go:343-349 | multiples of a small power of two are exact, and nothing above one rounds below it |
| Amounts.DecimalReadsBack | pkg/channel/alipay/provider.go:343-343 | a number printed with two decimals scans as that number |
| AmountScan.ReadsPoint | pkg/channel/alipay/provider.go:340-345 | a number with a point is read as its digits over the power of ten of its places, however many, whatever follows but an exponent |
| AmountScan.ReadsWhole | pkg/channel/alipay/provider.go:340-345 | and without a point as the whole number |
| AmountScan.ReadsNothing | pkg/channel/alipay/provider.go:340-345 | a text with nothing to read is zero cents |
| Amounts.FormatIsExact | pkg/channel/alipay/provider.go:348-350 | below 2^51 cents, formatAmount prints exactly the cents |
| Amounts.ParseLosesAtMostOneCent | pkg/channel/alipay/provider.go:340-345 | what formatAmount printed parses back as itself or one cent less |
| Amounts.LossDecided | pkg/channel/alipay/provider.go:343-344 | the product of the second rounding falls below the cents if and only if the amount is one that loses a cent, a condition on integers |
| Amounts.ParseExactWhen | pkg/channel/alipay/provider.go:340-350 | parsing what formatAmount printed gives one cent less for exactly those amounts, and the amount for all others below 2^51 |
| Amounts.QuartersAreExact | pkg/channel/alipay/provider.go:340-350 | multiples of 25 cents, whole yuan among them, come back as they are |
| Amounts.TwentyNineCents | pkg/channel/alipay/provider.go:340-345 | 29 cents come back as 28 |

## Left out

- HTTP routing, JSON binding, response bodies, signature verification and the statuses told to channels: plumbing around the modelled steps.
- The WeChat, Alipay and Stripe SDKs, bill download, gzip and CSV reading: a provider is an arbitrary answer, a bill a list of parsed records.
- The database engine: a row is a map entry, a FOR UPDATE transaction or a single statement is one atomic step, a unique index is a guard on the insert; which of two broken indexes is reported is left open. Waiting for row locks inside the detail transaction is not modelled: it only rules out orders of commits.
- AES-GCM: only that Open inverts Seal, that sealed text carries the prefix, and (for the converse of the round trip) that opening shortens a text.
- Random order, refund and transaction numbers and goroutine identities are parameters; an insert under a taken order number is modelled as a violation of the number index.
- Nil requests and results, statuses other than the declared constants, the nil refund response of a broken provider, and cancellation of a request's context.
- Payloads of notifications and the order copy read before the update: only rows, logs and alerts matter to what is proved.
- Crashes of the process in mid-delivery, and real time: waits are counted, not lived through.
- Go's range over a map with the entries deleted during it is modelled as visiting every key once.
- int64 overflow in amount differences and totals: amounts are unbounded integers there.
- Signs, exponents, underscores, hexadecimal and non-finite numbers, leading spaces in amounts to parse; negative amounts to format; floats below 2^-8, where the modelled rounding is coarser than the machine's; amounts from 2^51 cents.
- Lua's number formatting when tokens are stored, and negative rates or bursts, in the token bucket. The exact condition of its limit is for readings that reach Redis in order.
- The limiter of golang.org/x/time/rate is not part of this model: any deterministic limiter stands in for it, and, where late clock readings matter, an ideal token bucket, without floating point or the cutting of waits to whole nanoseconds.
- Lower-casing of letters outside ASCII, except the two whose lower case is an ASCII letter: the tokens are ASCII.
- QueryRefund, order queries, the channel manager, admin pages other than the two resets, statistics, alert transport, audit log, certificate checks and key rotation.
- NotifyService.NotifyService.ProcessPendingNotifies: the sweep of one scheduler; concurrent sweeps are covered by dispatches of the protocol but not as two pending lists.
