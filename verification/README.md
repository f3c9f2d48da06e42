# Ledgers, leases and sessions of a commerce backend

Dafny models of the stateful core of two backends that serve the same product: a Laravel
server (`apps/server`) and a TypeScript backend (`packages/backend-next`). The models say what
each transaction does to its tables, and the lemmas say what holds in every run.

| files | what they model |
|---|---|
| `Credits`, `CreditInvariant`, `CreditTheorems`, `CreditEffects`, `CreditWallet` | credit lots, reservations and the signed ledger of one wallet |
| `RefundCredits`, `RefundDesk` | the credits that refunds of a paid order hold and take back |
| `Payments`, `PaymentTheorems`, `PaymentEffects`, `PaymentTables` | orders, webhook events, expiry, reconciliation and refunds |
| `Withdrawals`, `WithdrawalInvariant`, `WithdrawalSystem`, `WithdrawalTheorems`, `WithdrawalEffects`, `WithdrawalTables` | withdrawals under owners, administrators, leased workers, callbacks and polls |
| `Sessions`, `SessionRefinement`, `SessionTheorems`, `SessionHistory`, `SessionTables` | refresh-token rotation, written twice in the source, and the family machine both refine |
| `RateLimits`, `RateLimitTheorems`, `RateLimitTables` | the two rate limiters and the bounds they give |
| `CanonicalJson`, `CanonicalJsonPrint`, `CanonicalJsonTheorems`, `CanonicalJsonRead`, `Idempotency` | the canonical printer and the idempotency table built on it |
| `MemoryStore`, `MemoryStoreTheorems` | the promise queue that serialises transactions |
| `Outbox`, `OutboxTheorems`, `OutboxTables` | the message outbox with leases and retries |
| `Paging` | offset cursors |
| `TsBilling`, `TsBillingTheorems`, `TsBillingTables` | the TypeScript lots and their consumption |
| `Common`, `EarliestFirst`, `Decimal` | sums over tables, the greedy allocation rule, decimal text |

How the models are built:

- One database or store transaction is one atomic step. A thrown error keeps the old state. The
  payout worker is split at its transactions, and the memory store at its awaits.
- Functions on values specify each step. Classes update their tables in place, with the loops of
  the source, and are proved equal to those functions. Lemmas are about the functions: over whole
  runs, and, in the modules ending in `Effects`, on what each transaction refuses and stores.
- Clocks are integers that never go back. Ids and tokens are fresh. Hashes are injective.
- A query whose order the database leaves open is any answer that satisfies its conditions.
- Calls into providers, the catalog and the subscription service are parameters: any result, or a
  throw.

What the code does that a reader may not expect, each shown by a lemma:

- A release can put credit back on a lot that was already written off. From then on every sweep
  of that wallet aborts (`CreditTheorems.SweepCanGetStuck`, `CreditTheorems.StuckForever`).
- A withdrawal cancelled between the claim and the first read of `process` is sent to the
  provider (`WithdrawalTheorems.CancelledCanBeInitiated`).
- The PHP limiter lets 2L + 2c - 4 callers through in a stretch of one window, where L is the limit
  but at least 2 and c callers may stand between question and hit; a hit that comes late erases a
  running block (`RateLimitTheorems.PhpBoundIsReached`, `RateLimitTheorems.LateHitErasesBlock`).
- A body with two different keys that the locale comparison ties has rewritings with the same
  meaning that idempotency rejects (`CanonicalJsonTheorems.OrderOfKeysIgnoredExactlyWithoutTies`,
  `Idempotency.TiedBodyIsRejected`).
- A payment event that names the reference of another attempt of its provider aborts, and the paid
  order stays open (`PaymentTheorems.TakenReferenceAborts`).
- A refund request retried after its confirmation is refused by the checks in front of its key
  instead of replayed (`PaymentTheorems.RetriedRefundIsNoOp`).
- A refund above what an owner has available leaves a negative balance
  (`WithdrawalTheorems.RefundOverdraws`).
- A credit lot without expiry is consumed before one that expires in the year 9999 or later
  (`TsBillingTheorems.ConsumeIsBestExactlyBefore9999`).

`dafny verify dfyconfig.toml` checks the project.

## Model

| member | source | states |
|---|---|---|
| `EarliestFirst.GreedyDraws` | apps/server/app/Domain/Billing/CreditService.php:48 | Walking the lots and taking the minimum of need and amount draws exactly the need, or everything when that is not enough, and never more than a lot has. |
| `EarliestFirst.GreedyDrawsLeastAlive` | apps/server/app/Domain/Billing/CreditService.php:47-48 | Exchange argument: over lots in order of expiry, no drawing of at least as much touches less of what is still alive at any later instant. |
| `CreditInvariant.WalkHolds` | apps/server/app/Domain/Billing/CreditService.php:48 | The loop of reserve is a list of positive holds whose sum is what it has taken, and no lot is overdrawn. |
| `CreditInvariant.CountersInRange` | apps/server/app/Domain/Billing/CreditService.php:41-135 | In every wallet that keeps double entry, remaining, reserved and written-off quantities of a lot lie between 0 and what was granted. |
| `CreditInvariant.ReserveKeepsInv` | apps/server/app/Domain/Billing/CreditService.php:41-54 | Reserving, refused or not, keeps the ledger equal to the lots and each lot equal to its holds. |
| `CreditInvariant.SettleKeepsInv` | apps/server/app/Domain/Billing/CreditService.php:56-71 | Confirming or releasing keeps the ledger equal to the lots and each lot equal to its holds. |
| `CreditInvariant.RefundKeepsInv` | apps/server/app/Domain/Billing/CreditService.php:90-103 | Reserving the lot of a paid order keeps the same equations, whatever was held before. |
| `CreditInvariant.GrantKeepsInv` | apps/server/app/Domain/Billing/CreditService.php:123-127 | Every kind of grant keeps the same equations, the new lot included. |
| `CreditInvariant.SweepKeepsInv` | apps/server/app/Domain/Billing/CreditService.php:128-134 | A sweep that succeeds keeps the same equations and accounts for every unit it writes off. |
| `CreditInvariant.EveryRunBalances` | apps/server/app/Domain/Billing/CreditService.php:41-135 | In every run from an empty wallet: ledger sum = sum of remaining; reserved of a lot = its allocations in RESERVED reservations; total of a lot = remaining + reserved + confirmed + expired. |
| `CreditTheorems.EarliestExpiryFirstIsBest` | apps/server/app/Domain/Billing/CreditService.php:46-50 | For every instant, the unexpired credit left after reserve is at least what any other way of drawing the same quantity from the same lots leaves. |
| `CreditTheorems.ReserveSucceedsExactlyWhenCovered` | apps/server/app/Domain/Billing/CreditService.php:43-50 | INSUFFICIENT_CREDITS exactly when the unexpired total is too small; success exactly when it is large enough and the reference is new. |
| `CreditTheorems.BalanceSplits` | apps/server/app/Domain/Billing/CreditService.php:105-111 | The reported balance is the spendable credit plus what expired lots still hold; the two agree exactly when no lot waits for the sweep. |
| `CreditTheorems.SweepClears` | apps/server/app/Domain/Billing/CreditService.php:131-132 | A successful sweep empties exactly the expired lots and touches no other. |
| `CreditTheorems.SweptBalanceIsLargestReservation` | apps/server/app/Domain/Billing/CreditService.php:105-111 | After a successful sweep the balance is exactly the largest quantity a fresh reservation accepts at that instant. |
| `CreditTheorems.SweepAbortsExactlyWhenStuck` | apps/server/app/Domain/Billing/CreditService.php:128-135 | The sweep aborts on the unique scope exactly when some expired lot holds credit although it was written off before. |
| `CreditTheorems.StepKeepsStuck` | apps/server/app/Domain/Billing/CreditService.php:41-135 | No operation of the service gets a stuck lot unstuck. |
| `CreditTheorems.StuckForever` | apps/server/app/Domain/Billing/CreditService.php:65-132 | From the first stuck lot on, in every run, every sweep aborts and the balance stays above what can be spent. |
| `CreditTheorems.GetsStuckExactlyByRelease` | apps/server/app/Domain/Billing/CreditService.php:56-71 | A wallet without a stuck lot gets one in a step exactly when the step releases a RESERVED reservation that holds credit of an expired lot already written off. |
| `CreditTheorems.SweepCanGetStuck` | apps/server/app/Domain/Billing/CreditService.php:65-132 | A concrete run of grant, reserve, sweep and release that gets a lot stuck: the sweep does not always succeed. |
| `CreditTheorems.RunExtends` | apps/server/app/Domain/Billing/CreditService.php:56-71 | In every run a settled reservation never changes again and idempotency keys are kept. |
| `CreditTheorems.RetriedReserveIsNoOp` | apps/server/app/Domain/Billing/CreditService.php:44-53 | Retrying a reservation with its key at any later point of any run, at any later instant, returns the first reservation and changes nothing. |
| `CreditTheorems.ReleaseUndoesReserve` | apps/server/app/Domain/Billing/CreditService.php:41-71 | Releasing a reservation at once restores every lot counter and the balance. |
| `CreditEffects.RefundTakesTheOrdersLot` | apps/server/app/Domain/Billing/CreditService.php:90-103 | REFUND_CREDITS_ALREADY_USED exactly when no lot has a PURCHASE entry of this order, or the first such lot holds less than the quantity; otherwise the quantity is held on that lot and every other lot is unchanged. |
| `CreditEffects.ReservationStored` | apps/server/app/Domain/Billing/CreditService.php:43-53 | A fresh reservation is one RESERVED row of the quantity, made of holds on lots of the query that add up to it, one RESERVE entry under its reference and one key. |
| `CreditEffects.SettlementStored` | apps/server/app/Domain/Billing/CreditService.php:56-71 | A reservation is settled once: a confirmation consumes its holds and books nothing, a release gives them back and books them under its reference. |
| `CreditEffects.GrantStored` | apps/server/app/Domain/Billing/CreditService.php:123-127 | A fresh grant is one entry of the kind of its operation and one full lot that names it, refused for a key of the wrong length or without a quantity. |
| `CreditEffects.ReservationKeyIsBound` | apps/server/app/Domain/Billing/CreditService.php:44-53 | At every later point of every run a used key is answered with the first reservation for the same quantity and reference, and refused as a body mismatch for any other. |
| `CreditEffects.GrantKeyIsBound` | apps/server/app/Domain/Billing/CreditService.php:80-97 | The same for purchases, administrative grants, refunds and paid orders. |
| `CreditWallet.WalletTables.Grant` | apps/server/app/Domain/Billing/CreditService.php:123-127 | The in-place grant is the specified one: replay by key, body mismatch, invalid quantity, or one entry and one lot. |
| `CreditWallet.WalletTables.WalkLots` | apps/server/app/Domain/Billing/CreditService.php:48 | The loop over lot rows computes the specified walk: new lots, allocations in order, what is left. |
| `CreditWallet.WalletTables.Reserve` | apps/server/app/Domain/Billing/CreditService.php:41-54 | The in-place reserve has exactly the specified effect, and a throw after the loop rolls the loop back. |
| `CreditWallet.WalletTables.MoveBack` | apps/server/app/Domain/Billing/CreditService.php:62-66 | One update per allocation moves each quantity out of reserved, and back into remaining unless confirmed. |
| `CreditWallet.WalletTables.Settle` | apps/server/app/Domain/Billing/CreditService.php:56-71 | The in-place settlement has exactly the specified effect on lots, reservation and ledger. |
| `CreditWallet.WalletTables.ReserveForRefund` | apps/server/app/Domain/Billing/CreditService.php:90-103 | The in-place reservation of the lot of a paid order has exactly the specified effect or error. |
| `CreditWallet.WalletTables.Expire` | apps/server/app/Domain/Billing/CreditService.php:128-134 | The sweep loop has exactly the specified effect, and rolls back as a whole when the unique index refuses one entry. |
| `CreditWallet.WalletTables.Summary` | apps/server/app/Domain/Billing/CreditService.php:105-108 | After a sweep the sum over the ledger is the unexpired credit; the call fails exactly on a stuck lot and then changes nothing. |
| `CreditWallet.WalletTables.AdjustDown` | apps/server/app/Domain/Billing/CreditService.php:117-118 | A negative adjustment takes its quantity once out of balance and spendable credit; retried with its key it debits nothing more. |
| `CreditWallet.ReserveDebits` | apps/server/app/Domain/Billing/CreditService.php:46-51 | A reservation lowers balance and spendable credit by exactly its quantity. |
| `RefundCredits.ReleaseUndoesHold` | apps/server/app/Domain/Payments/RefundService.php:37-43 | Holding the credits of a refund and releasing them at once restores every lot and the balance, and leaves a released reservation behind. |
| `RefundCredits.FailedRequestRestores` | apps/server/app/Domain/Payments/RefundService.php:40-46 | A refund that the provider refuses leaves every lot counter, the balance and the refunded amount as they were. |
| `RefundCredits.FailedConfirmGivesBack` | apps/server/app/Domain/Payments/RefundService.php:63 | A refund that fails later gives back exactly what its reservation holds, lot by lot, and its share of the balance. |
| `RefundCredits.Reachable` | apps/server/app/Domain/Payments/RefundService.php:19-83 | In every run, mixed with any other credit operation, each refund holds exactly its share, in the state its status calls for, and no two share a reservation. |
| `RefundCredits.FullyRefundedTakesBackAlmostAll` | apps/server/app/Domain/Payments/RefundService.php:36 | k confirmed refunds that add up to the whole amount take back between included - k + 1 and included credits. |
| `RefundDesk.Desk.Hold` | apps/server/app/Domain/Payments/RefundService.php:36-46 | The hold, with its release in the failure branch, has exactly the specified effect on the wallet. |
| `RefundDesk.Desk.Request` | apps/server/app/Domain/Payments/RefundService.php:19-51 | The in-place request has exactly the specified effect, also where the provider throws. |
| `RefundDesk.Desk.Confirm` | apps/server/app/Domain/Payments/RefundService.php:53-82 | The in-place confirmation has exactly the specified effect; an excessive one changes nothing. |
| `PaymentTheorems.SettleMeetsOnlyTheReferenceIndex` | apps/server/app/Domain/Payments/PaymentWebhookProcessor.php:33-48 | Settling an open order of a reachable shop throws UNIQUE_VIOLATION exactly when another attempt of the same provider already holds the reference of the event; no other unique index fires. |
| `PaymentTheorems.TakenReferenceAborts` | apps/server/database/migrations/2026_07_18_000002_create_fangabase_finance.php:20 | A concrete run of two checkouts in which a SUCCEEDED event for the second order carries the reference of the first: the event aborts and the order stays PENDING. |
| `PaymentTheorems.PaidAtMostOnce` | apps/server/app/Domain/Payments/PaymentWebhookProcessor.php:18-56 | In every run of events, expiry, review and refunds an order has at most one PAYMENT row, one announcement and one purchase lot, all together or none. |
| `PaymentTheorems.NeverPendingAgain` | apps/server/app/Domain/Payments/PaymentMaintenanceService.php:11-19 | In every run an order never becomes PENDING again and never loses a payment row. |
| `PaymentTheorems.PaidExactlyWhenSucceeded` | apps/server/app/Domain/Payments/PaymentWebhookProcessor.php:34-48 | An order has its PAYMENT row exactly when it was SUCCEEDED at some point so far. |
| `PaymentTheorems.RedeliveredEventIsNoOp` | apps/server/app/Domain/Payments/PaymentWebhookProcessor.php:21-24 | An event processed once is answered DUPLICATE and changes nothing at every later point of every run. |
| `PaymentTheorems.RefundsAreBounded` | apps/server/app/Domain/Payments/RefundService.php:63-70 | In every reachable state the refunded amount is the sum of the confirmed refunds and never exceeds the order. |
| `PaymentTheorems.RefundIndexNeverFires` | apps/server/app/Domain/Payments/RefundService.php:29-33 | In a reachable shop the unique index over attempt and key never refuses a refund: a used key is still recorded. |
| `PaymentTheorems.RetriedRefundIsNoOp` | apps/server/app/Domain/Payments/RefundService.php:19-30 | A refund request retried with its key at any later point of any run never opens a second refund: it gets the first answer exactly while the checks in front of the key still pass. |
| `PaymentTheorems.ConfirmationRefusedExactlyWhenExcessive` | apps/server/app/Domain/Payments/RefundService.php:64 | A confirmation is refused for its amount exactly when the confirmed refunds would exceed the order. |
| `PaymentEffects.PaymentBookedExactlyWhen` | apps/server/app/Domain/Payments/PaymentWebhookProcessor.php:18-56 | In every run a step books a payment of an order exactly when it is an unseen SUCCEEDED event of its provider for its amount and currency, the order is open, no other attempt of the provider holds the reference and the calls it needs succeed. |
| `PaymentEffects.EventAnswered` | apps/server/app/Domain/Payments/PaymentWebhookProcessor.php:21-54 | The exact condition of NOT_FOUND, PAYMENT_EVENT_MISMATCH, PAYMENT_TRANSITION_INVALID and the index violation, and the whole tables after every accepted event. |
| `PaymentEffects.UpperForgetsCase` | apps/server/app/Domain/Payments/PaymentWebhookProcessor.php:29 | Two currency texts compare equal exactly when they differ in the case of letters only. |
| `PaymentEffects.CheckoutStored` | apps/server/app/Domain/Payments/CheckoutService.php:27-55 | A checkout stores one PENDING order and attempt exactly when no attempt of the provider holds the reference it gave. |
| `PaymentEffects.ExpiredExactlyWhen` | apps/server/app/Domain/Payments/PaymentMaintenanceService.php:14-17 | An order expires exactly when it is open and its time has come, with its attempt unless that one is over; nothing else changes. |
| `PaymentEffects.StatusTellsRefunds` | apps/server/app/Domain/Payments/RefundService.php:66-69 | In every run the REFUND rows of an order add up to its refunded amount, and SUCCEEDED, PARTIALLY_REFUNDED and REFUNDED mean none, a part and all of the price. |
| `PaymentEffects.ConfirmationStored` | apps/server/app/Domain/Payments/RefundService.php:56-81 | Every answer of a confirmation, and the refund, order, REFUND row and message it writes. |
| `PaymentEffects.RefundRequestStored` | apps/server/app/Domain/Payments/RefundService.php:21-50 | Every refusal of a refund request in the order of the checks, the replay of its key, and what an accepted one stores. |
| `PaymentEffects.BlankIsTrimmedAway` | apps/server/app/Domain/Payments/RefundService.php:21 | A reason counts as missing exactly when trimming both ends leaves nothing of it. |
| `PaymentTables.Tables.SettleOrder` | apps/server/app/Domain/Payments/PaymentWebhookProcessor.php:34-48 | The writes of the SUCCEEDED branch, in order, amount to the specified settlement or its error, the taken reference included. |
| `PaymentTables.Tables.Receive` | apps/server/app/Domain/Payments/PaymentWebhookProcessor.php:18-56 | The in-place processor has exactly the specified effect; a thrown error also forgets that the event was seen. |
| `PaymentTables.Tables.PlaceOrder` | apps/server/app/Domain/Payments/CheckoutService.php:27-55 | A checkout inserts order and attempt, or throws when the provider gave a reference that another attempt of it holds, and keeps the invariant of the shop. |
| `PaymentTables.Tables.Expire` | apps/server/app/Domain/Payments/PaymentMaintenanceService.php:11-19 | The bulk update expires exactly the overdue open orders and their open attempts. |
| `PaymentTables.Tables.Review` | apps/server/app/Domain/Payments/PaymentReconciliationService.php:27-33 | The review branch overwrites the status of order and attempt, whatever it was, and keeps the invariant of the shop. |
| `PaymentTables.Tables.Request` | apps/server/app/Domain/Payments/RefundService.php:19-51 | The in-place refund request answers and changes the tables exactly as specified: checks, key replay, refusal by the credit hold, failed provider. |
| `PaymentTables.Tables.Confirm` | apps/server/app/Domain/Payments/RefundService.php:53-82 | The in-place refund confirmation answers and changes the tables exactly as specified. |
| `WithdrawalInvariant.AppendInserts` | apps/server/app/Domain/Withdrawals/WithdrawalLedger.php:28-33 | In reachable tables insert-or-ignore never ignores: each scope is appended once. |
| `WithdrawalInvariant.MoveRefusedOnlyByGraph` | apps/server/app/Domain/Withdrawals/WithdrawalService.php:89-95 | A transition is refused exactly by the status graph; the unique index of the history never fires. |
| `WithdrawalInvariant.ResultIsOneChange` | apps/server/app/Domain/Withdrawals/PayoutWorker.php:47-63 | A provider result is refused only before approval, ignored by a terminal withdrawal, and otherwise sets the reported status with the ledger rows it calls for. |
| `WithdrawalInvariant.FailureIsOneChange` | apps/server/app/Domain/Withdrawals/PayoutWorker.php:37-44 | The failure branch of process either only reschedules or closes an exhausted withdrawal with its release. |
| `WithdrawalInvariant.CancelIsOneChange` | apps/server/app/Domain/Withdrawals/WithdrawalService.php:51-60 | An accepted cancellation is one status change, to CANCELLED, with its release. |
| `WithdrawalInvariant.CallbackIsOneChange` | apps/server/app/Domain/Withdrawals/PayoutCallbackProcessor.php:13-25 | An accepted new callback is at most one status change together with its dedupe row. |
| `WithdrawalSystem.LedgerFollowsStatus` | apps/server/app/Domain/Withdrawals/PayoutWorker.php:15-63 | Under every interleaving: active = {RESERVE}, CANCELLED or FAILED = {RESERVE, RELEASE}, PAID = {RESERVE, RELEASE, PAID}. |
| `WithdrawalTheorems.MoneyIsConserved` | apps/server/app/Domain/Withdrawals/WithdrawalLedger.php:13-40 | In every reachable state available + reserved + paid = PAYMENT + ADJUSTMENT_CREDIT - REFUND per owner and currency; without refunds no balance is ever negative. |
| `WithdrawalTheorems.EffectConserves` | apps/server/app/Domain/Withdrawals/WithdrawalService.php:36-41 | Every step keeps available + reserved + paid equal to the inflow, and turns a non-negative balance negative exactly when it is an outside refund of that owner and currency above what is available. |
| `WithdrawalTheorems.RefundOverdraws` | apps/server/app/Domain/Withdrawals/WithdrawalLedger.php:16-26 | A run of one step, a refund for an owner without money, that leaves the balance at minus its amount. |
| `WithdrawalTheorems.RetriedRequestIsNoOp` | apps/server/app/Domain/Withdrawals/WithdrawalService.php:35-44 | A withdrawal request retried with its key at any later point of any run returns the first withdrawal and reserves nothing more. |
| `WithdrawalTheorems.PayingIsNetZero` | apps/server/app/Domain/Withdrawals/PayoutWorker.php:58-59 | Paying out books a release and a payment that cancel, so the available balance does not move. |
| `WithdrawalEffects.ResultStored` | apps/server/app/Domain/Withdrawals/PayoutWorker.php:47-63 | applyResult in full: what is refused, what changes nothing, and for news the whole tables: status, provider reference, released claim, history, ledger rows and message. |
| `WithdrawalEffects.ReferenceIsLastReported` | apps/server/app/Domain/Withdrawals/PayoutWorker.php:56 | In every run the stored provider reference is the one of the last report that changed the status, and none before the first. |
| `WithdrawalEffects.CallbackStored` | apps/server/app/Domain/Withdrawals/PayoutCallbackProcessor.php:13-25 | A new callback is refused exactly for an unknown withdrawal, another provider or another reference than the stored one; otherwise its report is stored. |
| `WithdrawalEffects.PollStored` | apps/server/app/Domain/Withdrawals/PayoutPollingService.php:14-16 | The provider is asked exactly for a withdrawal under way that has a reference, and what it reports is stored. |
| `WithdrawalEffects.CancelStored` | apps/server/app/Domain/Withdrawals/WithdrawalService.php:51-60 | A cancellation is accepted exactly from its owner in REQUESTED, VERIFYING or APPROVED, and gives the reserve back. |
| `WithdrawalEffects.AdminStored` | apps/server/app/Domain/Withdrawals/WithdrawalService.php:74-87 | Verification starts from REQUESTED only and approval from VERIFYING only, which makes the withdrawal due at once. |
| `WithdrawalEffects.RequestStored` | apps/server/app/Domain/Withdrawals/WithdrawalService.php:26-46 | Every refusal of a request in the order of the checks, the replay of its key, and the rows of a new withdrawal. |
| `WithdrawalEffects.AvailableIs` | apps/server/app/Domain/Withdrawals/WithdrawalLedger.php:16-26 | The available balance is the total of payments, adjustments and releases less refunds, reserves and payouts. |
| `WithdrawalEffects.AnomalyDetected` | apps/server/app/Domain/Withdrawals/WithdrawalReconciliationService.php:22-28 | The exact condition of each ledger code of the detector. |
| `WithdrawalEffects.FailureStored` | apps/server/app/Domain/Withdrawals/PayoutWorker.php:37-44 | A failure frees the claim and delays the next one by 1, 2, 4 up to 1024 seconds; after the last attempt it closes the withdrawal and gives the reserve back. |
| `WithdrawalEffects.ClaimLeases` | apps/server/app/Domain/Withdrawals/PayoutWorker.php:17-22 | A claim takes exactly APPROVED or SENT rows that are due and not leased, the oldest first up to the limit, leases each until exactly leaseSeconds later and counts one attempt. |
| `WithdrawalEffects.LeaseExcludesClaims` | apps/server/app/Domain/Withdrawals/PayoutWorker.php:18-20 | In every interleaving a withdrawal is claimed twice only when the first lease has run out or a report or failure of it was recorded in between. |
| `WithdrawalTheorems.FirstTerminalWins` | apps/server/app/Domain/Withdrawals/PayoutWorker.php:47-63 | Folding any list of results over APPROVED, SENT or PENDING leaves all tables exactly as the first result followed by the first terminal one does; without a terminal one the withdrawal is PENDING. |
| `WithdrawalTheorems.RedeliveredCallbackIsNoOp` | apps/server/app/Domain/Withdrawals/PayoutCallbackProcessor.php:15-24 | A callback processed once is a duplicate and changes nothing at every later point of every run. |
| `WithdrawalTheorems.StatusesAreWrittenOnce` | apps/server/database/migrations/2026_07_22_000009_add_transactional_withdrawals.php:42 | In every run a withdrawal takes each status at most once, so no history insert can violate its unique index. |
| `WithdrawalTheorems.NoLedgerAnomaly` | apps/server/app/Domain/Withdrawals/WithdrawalReconciliationService.php:22-28 | PAID_LEDGER_MISMATCH and RESERVE_NOT_RELEASED are unreachable, even with other steps between the two reads. |
| `WithdrawalTheorems.CancelledIsInitiatedExactlyWhenReadCancelled` | apps/server/app/Domain/Withdrawals/PayoutWorker.php:29-36 | A cancelled withdrawal is sent to the provider exactly when process had read CANCELLED at its first line. |
| `WithdrawalTheorems.CancelledCanBeInitiated` | apps/server/app/Domain/Withdrawals/PayoutWorker.php:32-35 | A concrete interleaving of claim, cancel and process that pays a withdrawal whose reserve was released. |
| `WithdrawalTheorems.AttemptsCountClaims` | apps/server/app/Domain/Withdrawals/PayoutWorker.php:20 | In every run attempts counts the claims of a withdrawal. |
| `WithdrawalTheorems.ClaimsAreBounded` | apps/server/app/Domain/Withdrawals/PayoutWorker.php:15-44 | When every claim is followed by its process, a withdrawal is claimed at most max_attempts times and has then left APPROVED and SENT. |
| `WithdrawalTables.Tables.ComputeAvailable` | apps/server/app/Domain/Withdrawals/WithdrawalLedger.php:16-26 | One pass over the rows gives the signed sum of the owner and currency. |
| `WithdrawalTables.Tables.InsertOrIgnore` | apps/server/app/Domain/Withdrawals/WithdrawalLedger.php:28-33 | A row is appended exactly when its scope is new. |
| `WithdrawalTables.Tables.Transit` | apps/server/app/Domain/Withdrawals/WithdrawalService.php:89-93 | The in-place transition has exactly the specified effect or refusal. |
| `WithdrawalTables.Tables.SubmitRequest` | apps/server/app/Domain/Withdrawals/WithdrawalService.php:26-46 | The in-place request checks limits, currency and account, replays a used key, and otherwise reserves exactly when the balance allows it. |
| `WithdrawalTables.Tables.CancelByOwner` | apps/server/app/Domain/Withdrawals/WithdrawalService.php:51-60 | The in-place cancellation has exactly the specified effect or error. |
| `WithdrawalTables.Tables.AdminMove` | apps/server/app/Domain/Withdrawals/WithdrawalService.php:74-87 | The in-place administrative transition has exactly the specified effect or error. |
| `WithdrawalTables.Tables.ClaimBatch` | apps/server/app/Domain/Withdrawals/PayoutWorker.php:17-22 | The claiming loop leases each row of the query, counts one attempt each and touches no other row. |
| `WithdrawalTables.Tables.WriteOutcome` | apps/server/app/Domain/Withdrawals/PayoutWorker.php:55-61 | The second half of applyResult writes row, ledger and outbox as specified. |
| `WithdrawalTables.Tables.StoreResult` | apps/server/app/Domain/Withdrawals/PayoutWorker.php:47-63 | The in-place applyResult has exactly the specified effect or error. |
| `WithdrawalTables.Tables.GiveUpOrRetry` | apps/server/app/Domain/Withdrawals/PayoutWorker.php:37-44 | The in-place failure branch has exactly the specified effect. |
| `WithdrawalTables.Tables.Receive` | apps/server/app/Domain/Withdrawals/PayoutCallbackProcessor.php:13-25 | The in-place callback processor has exactly the specified effect; a throw also drops the dedupe row. |
| `WithdrawalTables.Tables.Poll` | apps/server/app/Domain/Withdrawals/PayoutPollingService.php:12-17 | A poll leaves all tables and gives the answer exactly as specified: UNKNOWN, the stored status, a failed query, or what the provider reports. |
| `WithdrawalTheorems.PollAnswers` | apps/server/app/Domain/Withdrawals/PayoutPollingService.php:14-16 | Polling a withdrawal that exists answers its status after the poll, or that the query failed, and never UNKNOWN. |
| `WithdrawalTables.Tables.Reconcile` | apps/server/app/Domain/Withdrawals/WithdrawalReconciliationService.php:14-34 | Over reachable tables every anomaly the run counts is a failed query, never a ledger that disagrees with a status. |
| `SessionRefinement.TsRefines` | packages/backend-next/src/identity.ts:226-278 | One step of the TypeScript service is one step of the abstract family machine, with the same answer. |
| `SessionRefinement.PhpRefines` | apps/server/app/Domain/Identity/RefreshSessionService.php:15-93 | One step of the PHP service, cleanup included, is one step of the family machine, with the same answer. |
| `SessionRefinement.SearchesAgree` | packages/backend-next/src/identity.ts:228-249 | The searches over previous and current hashes find exactly the family that a token belongs to. |
| `SessionRefinement.PhpRotation` | apps/server/app/Domain/Identity/RefreshSessionIssuer.php:12-33 | Rotation appends one row to the chain of its family and closes the row before it. |
| `SessionRefinement.PhpCleanup` | apps/server/app/Domain/Identity/RefreshSessionService.php:90-93 | Deleting the expired rows drops the ended tokens at the front of every chain and nothing else. |
| `SessionRefinement.SameDecisions` | apps/server/app/Domain/Identity/RefreshSessionService.php:15-63 | On every request sequence without cleanup the PHP and the TypeScript service accept, reject and kill alike. |
| `SessionTheorems.TokenRotatesOnce` | apps/server/app/Domain/Identity/RefreshSessionService.php:20-39 | In every run of the family machine each token is exchanged at most once. |
| `SessionTheorems.ServicesRotateOnce` | packages/backend-next/src/identity.ts:228-259 | In every run of either service, for PHP also with cleanups, a token rotates at most once. |
| `SessionTheorems.PhpReplayKills` | apps/server/app/Domain/Identity/RefreshSessionService.php:20-23 | PHP, in every run from the empty table: after a replay no token of a row of that family, the newest included, is accepted for anything again. |
| `SessionTheorems.TsReplayKills` | packages/backend-next/src/identity.ts:228-242 | TypeScript, in every run from no sessions: presenting an old token of a session is answered as a replay, and after it no token of the session is accepted for anything again. |
| `SessionTheorems.FamiliesAreChains` | apps/server/app/Domain/Identity/RefreshSessionService.php:26-47 | In every reachable table every row but the newest of a family is rotated, revoked and names a later row of the family: at most one row is live. |
| `SessionTheorems.CleanupDeletesPrefix` | apps/server/app/Domain/Identity/RefreshSessionService.php:90-93 | With a row cleanup deletes every older row of the family. |
| `SessionHistory.AcceptedExactlyWhen` | apps/server/app/Domain/Identity/RefreshSessionService.php:15-88 | In every run of either service, told from requests and answers alone: a token is accepted exactly when it was issued less than 2592000 seconds ago and since then neither exchanged nor logged out, its login not replayed and its user not logged out everywhere; a token that only came late is answered AUTH_REQUIRED. |
| `SessionHistory.ReplayedExactlyWhen` | packages/backend-next/src/identity.ts:228-242 | In every run of either service a replay is answered exactly to a refresh whose token was exchanged before; after a cleanup PHP may answer AUTH_REQUIRED instead. |
| `SessionHistory.OldVersionRefused` | apps/server/app/Domain/Identity/RefreshSessionService.php:118-121 | A row issued under another session version than its user has now is refused, revoked or not. |
| `SessionHistory.LogoutRaisesVersion` | apps/server/app/Domain/Identity/RefreshSessionService.php:77-88 | A logout everywhere raises the version of its user by one, revokes all rows of that user and leaves the others alone. |
| `SessionTables.RefreshSessionService.FindLocked` | apps/server/app/Domain/Identity/RefreshSessionService.php:95-107 | The search finds the row of the token or none. |
| `SessionTables.RefreshSessionService.Rotate` | apps/server/app/Domain/Identity/RefreshSessionService.php:15-63 | The in-place rotation is the specified step: replay kills the family, an unusable row is refused, otherwise one row is closed and one opened. |
| `SessionTables.RefreshSessionService.LogoutCurrent` | apps/server/app/Domain/Identity/RefreshSessionService.php:65-75 | The in-place logout is the specified step. |
| `SessionTables.RefreshSessionService.LogoutEverywhere` | apps/server/app/Domain/Identity/RefreshSessionService.php:77-88 | The in-place logout of all sessions is the specified step, with the version raised by one. |
| `SessionTables.RefreshSessionService.CleanupExpired` | apps/server/app/Domain/Identity/RefreshSessionService.php:90-93 | The in-place cleanup is the specified step and answers how many rows it deleted. |
| `SessionTables.RefreshSessionService.Insert` | apps/server/app/Domain/Identity/RefreshSessionIssuer.php:12-33 | A new row joins the given family, or opens the one named by its own id. |
| `SessionTables.IdentityService.RefreshSession` | packages/backend-next/src/identity.ts:226-266 | The in-place refresh is the specified step, with both searches as loops. |
| `SessionTables.IdentityService.LogoutSession` | packages/backend-next/src/identity.ts:268-273 | The logout behind its authentication is the specified step. |
| `SessionTables.IdentityService.LogoutAllSessions` | packages/backend-next/src/identity.ts:464-467 | The loop over all sessions revokes exactly those of the user. |
| `RateLimitTheorems.PhpPassesAreSpread` | apps/server/app/Domain/Identity/PersistentRateLimiter.php:13-76 | In every interleaving of questions and hits with at most c callers between the two, no half-open stretch of one window holds more than 2L + 2c - 4 passes, L = max(limit, 2); for c = 1 that is 2L - 2. |
| `RateLimitTheorems.PhpBoundIsReached` | apps/server/app/Domain/Identity/PersistentRateLimiter.php:42-74 | For every limit and every c a legal run reaches 2L + 2c - 4 passes within one time unit: the bound is tight, and a limit of 1 lets two callers through. |
| `RateLimitTheorems.RefusedExactlyWhen` | apps/server/app/Domain/Identity/PersistentRateLimiter.php:23-25 | After any interleaving a caller is refused exactly when the open window has L passes or more and the last of them is less than a window ago. |
| `RateLimitTheorems.LateHitErasesBlock` | apps/server/app/Domain/Identity/PersistentRateLimiter.php:42-53 | A hit in a blocked window lifts the block exactly when it comes after the end of the window. |
| `RateLimitTheorems.TogetherAllPass` | apps/server/app/Domain/Identity/PersistentRateLimiter.php:13-33 | Any number of callers that all ask before any of them hits pass at one instant: without a bound on c there is no bound on the passes. |
| `RateLimitTheorems.TsPassesAreSparse` | packages/backend-next/src/identity.ts:444-462 | In every run any closed stretch of one window holds at most limit passes. |
| `RateLimitTheorems.TsAllowsExactly` | packages/backend-next/src/identity.ts:450-461 | A caller passes exactly when fewer than limit passes lie in the closed window before it. |
| `RateLimitTables.PersistentRateLimiter.AssertAllowed` | apps/server/app/Domain/Identity/PersistentRateLimiter.php:13-33 | The in-place question gives the specified verdict and record, and leaves other scopes alone. |
| `RateLimitTables.PersistentRateLimiter.Hit` | apps/server/app/Domain/Identity/PersistentRateLimiter.php:35-76 | The in-place hit gives the specified record and leaves other scopes alone. |
| `RateLimitTables.PersistentRateLimiter.AskThenHit` | apps/server/app/Domain/Withdrawals/WithdrawalService.php:30-31 | Asking and then hitting is a question followed by a hit of the run model, and a refusal leaves the run without a hit. |
| `RateLimitTables.AttemptLog.ConsumeRateLimit` | packages/backend-next/src/identity.ts:444-462 | The in-place log changes for one key only, and not at all on a refusal. |
| `CanonicalJsonPrint.EscapeDelimited` | packages/backend-next/src/crypto.ts:106 | The escaped text of a string, closed by a quote, determines the string and what follows, lone surrogates included. |
| `CanonicalJsonPrint.StringReadsBack` | packages/backend-next/src/crypto.ts:104-106 | What the printer escapes reads back, by section 7 of RFC 8259, as the string it was, for every sequence of UTF-16 units. |
| `CanonicalJsonPrint.PrintDelimited` | packages/backend-next/src/crypto.ts:98-107 | A printed value determines the value and where its text ends. |
| `CanonicalJsonRead.EscapeIsStringify` | packages/backend-next/src/crypto.ts:106 | Which escape JSON.stringify writes for every code unit: seven short ones, six units with lower-case digits, or the unit itself. |
| `CanonicalJsonRead.ReadsBack` | packages/backend-next/src/crypto.ts:98-107 | An independent reader of compact RFC 8259 texts reads what is printed as the value it was, up to where it ends. |
| `CanonicalJsonRead.CanonicalReadsBack` | packages/backend-next/src/crypto.ts:98-107 | The canonical text is one JSON text and nothing more: read back it gives the value with its entries sorted, which means the same. |
| `CanonicalJsonTheorems.SortThenPrint` | packages/backend-next/src/crypto.ts:98-107 | Sorting inside the printer is the same as sorting every object first and then printing plainly. |
| `CanonicalJsonTheorems.NormalKeepsMeaning` | packages/backend-next/src/crypto.ts:102-105 | Sorting the entries everywhere keeps what the value means. |
| `CanonicalJsonTheorems.SortedOrderIsUnique` | packages/backend-next/src/crypto.ts:103 | Without ties a set of members has one sorted order. |
| `CanonicalJsonTheorems.CanonicalIsInjective` | packages/backend-next/src/crypto.ts:98-107 | Equal canonical texts mean equal JSON values, for every comparator. |
| `CanonicalJsonTheorems.CanonicalAgreesExactly` | packages/backend-next/src/crypto.ts:98-107 | For a value without tied keys, and any total preorder as comparator, another value has the same canonical text exactly when it is the same JSON value. |
| `CanonicalJsonTheorems.OrderOfKeysIgnoredExactlyWithoutTies` | packages/backend-next/src/crypto.ts:103 | All ways to write a JSON value print alike exactly when no object in it holds two different keys that the comparator ties. |
| `CanonicalJsonTheorems.SortIsStable` | packages/backend-next/src/crypto.ts:103 | Entries whose keys tie keep their order through the sort. |
| `CanonicalJsonTheorems.TiesHaveReordering` | packages/backend-next/src/crypto.ts:102-105 | A value with tied keys at any depth has another way to be written that means the same and is sorted differently. |
| `Idempotency.AnsweredOnce` | packages/backend-next/src/common.ts:93-115 | In every run and for every comparator, an operation that has answered never runs again and a different JSON value is rejected; the same value gets the first answer whenever the first body has no tied keys. |
| `Idempotency.NeverRunsAgain` | packages/backend-next/src/common.ts:101-112 | Once an operation has answered, every later call of its scope leaves the table alone and gets that answer or IDEMPOTENCY_BODY_MISMATCH, by the canonical text of its body. |
| `Idempotency.TiedBodyIsRejected` | packages/backend-next/src/common.ts:101-106 | A first body with tied keys has a rewriting with the same meaning that is rejected as a mismatch. |
| `Idempotency.IdempotencyTable.WithIdempotency` | packages/backend-next/src/common.ts:93-115 | The in-place table answers, rejects, runs and records exactly as specified. |
| `MemoryStoreTheorems.SerialisedInCallOrder` | packages/backend-next/src/store.ts:20-37 | Under every interleaving the committed state is the serial run of the ended operations in call order, throwing ones leaving no trace, and no two run at once. |
| `MemoryStoreTheorems.OnlyFirstResumes` | packages/backend-next/src/store.ts:23-28 | Only the first unfinished transaction can go on. |
| `MemoryStoreTheorems.QueueDrains` | packages/backend-next/src/store.ts:23-36 | While a call is unfinished one transaction can go on, and each step brings the end nearer. |
| `MemoryStoreTheorems.ReplayIsCommitted` | packages/backend-next/src/identity.ts:231-242 | In every run of a store that serves session requests, once a refresh of a replayed token has ended its family is revoked in the committed state, and stays so. |
| `MemoryStoreTheorems.CommittedIsFold` | packages/backend-next/src/store.ts:29-33 | A store that serves session requests holds the fold of the requests that have ended, in call order. |
| `MemoryStore.Memory.Continue` | packages/backend-next/src/store.ts:28-36 | One stretch of a transaction is the specified step: wait, clone, run to the next await, commit or drop. |
| `OutboxTheorems.FinishesAreBounded` | packages/backend-next/src/infrastructure.ts:31-85 | For any interleaved workers a message has at most five effective finishes, failures first; SENT exactly after a success, DEAD exactly after five failures, a lease exactly while PROCESSING. |
| `OutboxTheorems.FinalForGood` | packages/backend-next/src/infrastructure.ts:71-85 | SENT and DEAD are never left. |
| `OutboxTheorems.LeaseExcludesOthers` | packages/backend-next/src/infrastructure.ts:34-48 | However the workers interleave, a leased message stays as it is and in no other batch until its lease runs out or a finish takes effect on it. |
| `OutboxTheorems.ClaimLeasesForAMinute` | packages/backend-next/src/infrastructure.ts:32-50 | A claim takes exactly due messages, the earliest in the list and at most those asked for between 1 and 100, leases each for 60000 milliseconds and changes nothing else. |
| `OutboxTheorems.NoSecondClaimForAMinute` | packages/backend-next/src/infrastructure.ts:38-44 | For 60000 milliseconds after its claim no other claim takes the message, unless a finish takes effect on it. |
| `OutboxTheorems.DeliveryTakesNext` | packages/backend-next/src/infrastructure.ts:53-67 | A delivery finishes the next message of its worker and nothing else. |
| `OutboxTheorems.EnqueuedIsDueAtOnce` | packages/backend-next/src/common.ts:72-91 | A new message waits at the end of the list and is due from its own instant on. |
| `OutboxTheorems.ClaimTakesOldestDue` | packages/backend-next/src/infrastructure.ts:34-43 | A due message is claimed unless the batch is full of earlier due messages. |
| `OutboxTheorems.FailureDelaysNextClaim` | packages/backend-next/src/infrastructure.ts:78-83 | After a failure a message waits 30, 60, 120 or 240 seconds, and after the fifth for ever. |
| `OutboxTheorems.LoneRunSettlesBatch` | packages/backend-next/src/infrastructure.ts:53-67 | A run on its own settles every claimed message by the result of its delivery and touches no other. |
| `OutboxTables.OutboxWorker.ClaimBatch` | packages/backend-next/src/infrastructure.ts:32-50 | The claiming loops take the specified batch and lease exactly its messages. |
| `OutboxTables.OutboxWorker.FinishMessage` | packages/backend-next/src/infrastructure.ts:71-85 | The in-place finish has exactly the specified effect, guarded by the status alone. |
| `OutboxTables.OutboxWorker.RunOnce` | packages/backend-next/src/infrastructure.ts:31-69 | An undisturbed run finishes the whole batch, each message at its own instant, and counts successes and failures. |
| `Paging.CursorRoundTrip` | packages/backend-next/src/common.ts:148-155 | Printing and parsing a cursor undo each other. |
| `Paging.TrailingTextIgnored` | packages/backend-next/src/common.ts:148 | Text after the number of a cursor is ignored, not rejected. |
| `Paging.LeadingSpaceIgnored` | packages/backend-next/src/common.ts:148 | White space in front of the number of a cursor is ignored. |
| `Paging.NegativeCursorRefused` | packages/backend-next/src/common.ts:149-150 | A cursor with a negative number is refused. |
| `Paging.PageHolds` | packages/backend-next/src/common.ts:145-157 | A page holds the elements from its offset on, as many as asked for between 1 and 100, 25 without a whole number, or as are left; a cursor is refused exactly when it has no number prefix or one that is negative or not exact. |
| `Paging.PagesTile` | packages/backend-next/src/common.ts:140-158 | After any pages under any limits the data is a front part of the list, the cursor is where it ends, and it grows. |
| `Paging.LastPageCompletes` | packages/backend-next/src/common.ts:151-156 | When the cursor is null the pages together are the list. |
| `Paging.ReadingNeverStops` | packages/backend-next/src/common.ts:140-158 | A non-null cursor always leads to another page, and after one page per element the cursor is null. |
| `Decimal.PrintDenotes` | packages/backend-next/src/common.ts:155 | The decimal text of a number denotes that number. |
| `TsBillingTheorems.ChosenAreSorted` | packages/backend-next/src/billing.ts:133-148 | The lots walked are exactly the candidates, each once, in order of the comparator. |
| `TsBillingTheorems.WalkedLots` | packages/backend-next/src/billing.ts:125-148 | The lots walked are exactly those of the owner and currency with credit left and unexpired; earlier expiry first, then the older, and lots without expiry between those before and those from the year 9999 on. |
| `TsBillingTheorems.ConsumptionRefused` | packages/backend-next/src/billing.ts:125-164 | A consumption is refused for its amount, then for missing credit, then for a taken reference, each exactly. |
| `TsBillingTheorems.WalkAt` | packages/backend-next/src/billing.ts:151-156 | Each lot of the loop gives exactly what the greedy allocation takes from it. |
| `TsBillingTheorems.BestExactlyWhenDeadFirst` | packages/backend-next/src/billing.ts:141-156 | The walk is optimal at an instant for every amount exactly when lots dead by then are walked first. |
| `TsBillingTheorems.ConsumeIsBestExactlyBefore9999` | packages/backend-next/src/billing.ts:132-156 | Optimal for every amount exactly unless a lot that never expires meets one that expires in the year 9999 or later, by the instant looked at. |
| `TsBillingTheorems.ConsumeSucceedsExactlyWhenCovered` | packages/backend-next/src/billing.ts:125-164 | A consumption succeeds exactly when the amount is valid, the unexpired lots cover it and the reference is new; repeated it changes nothing. |
| `TsBillingTheorems.ConsumedLots` | packages/backend-next/src/billing.ts:151-156 | A consumption takes exactly the amount from its owner and currency, overdraws no lot and touches no other owner or currency. |
| `TsBillingTheorems.RunKeepsAgreed` | packages/backend-next/src/billing.ts:66-72 | In every run the ledger of each owner sums to what the lots hold, per currency and over all currencies. |
| `TsBillingTheorems.NewLotIsBooked` | packages/backend-next/src/billing.ts:102-118 | A grant or purchase of a valid amount always gets its ledger entry. |
| `TsBillingTheorems.LotStored` | packages/backend-next/src/billing.ts:101-121 | A grant or purchase of a valid amount adds exactly one lot and one CREDIT entry under the name of the lot. |
| `TsBillingTheorems.ConflictIsUndoneByTheStore` | packages/backend-next/src/billing.ts:151-163 | A taken reference throws after the lots were drained; only dropping the working copy keeps lots and ledger in agreement. |
| `TsBillingTables.BillingService.Append` | packages/backend-next/src/billing.ts:286-306 | An entry is appended exactly when owner, kind and reference are new together. |
| `TsBillingTables.BillingService.Grant` | packages/backend-next/src/billing.ts:101-121 | The in-place grant has exactly the specified effect or error. |
| `TsBillingTables.BillingService.Draw` | packages/backend-next/src/billing.ts:151-156 | The loop with its early exit computes the specified walk. |
| `TsBillingTables.BillingService.Use` | packages/backend-next/src/billing.ts:125-164 | The in-place consumption leaves the specified lots, ledger and result, also where it throws. |
| `TsBillingTables.BillingService.AvailableMinor` | packages/backend-next/src/billing.ts:66-72 | The reduction over all entries of an owner is the recorded sum over every currency. |

## Left out

- Owners and wallets: the credit model follows one wallet; row locks, the creation of a missing wallet, the unit column and the metadata of entries are not modelled.
- Rows that the source finds by UUID are found by their position; a reservation, order or lot that belongs to another wallet does not occur.
- PersistentIdempotency: its pending marker cannot be seen by another transaction and is not modelled; body hashes are compared as bodies.
- Credit purchases: reading the plan and the price is not modelled; a grant gets its quantity as an input.
- Administrative grants and adjustments: the role and the reason are not checked here, and the audit row is not in the state.
- RefundCredits.Reachable: reservations of refunds are settled by refunds alone; an operator settling one by hand is not a step.
- Payments: each order has the single attempt of its checkout. The call to the provider at checkout, the key of the checkout, its immediate event for the local provider (an event step of its own here), the audit rows and the revoked entitlements of refunded subscriptions are not modelled.
- PaymentTables.Tables.Review: the audit row of the same transaction is not in the state.
- PaymentTables.Tables.Request: whether the credits of the order can be held is an input here; the hold itself is `RefundDesk.Desk.Hold`, on the wallet.
- PaymentTables.Tables.Confirm: the settlement of the credit hold in the same transaction is in `RefundDesk.Desk.Confirm`; the refund is named by its position instead of the provider's reference.
- RefundDesk.Desk.Request: follows the credits of one order; the replay by key and the check for a confirmed attempt are in `PaymentTables.Tables.Request`.
- RefundDesk.Desk.Confirm: the money row, the outbox row and the lookup by provider are in `PaymentTables.Tables.Confirm`.
- SubscriptionService and CatalogService: calls into them only succeed or throw.
- Withdrawals: the rate limit in front of a request is `RateLimits`; payout accounts are known only as verified or not, and their encryption, suspended owners and the audit rows are left out; an administrative step is told whether its checks passed.
- RECONCILED is in the status graph but no modelled code writes it.
- Withdrawal history: the forced write from APPROVED to SENT adds no history row, so the rows do not form an unbroken chain, and nothing here says they do.
- Sessions: suspended users, wrong CSRF tokens and password changes, all of which revoke or refuse sessions; the deletion of revoked and expired records by `Scheduler.run` in infrastructure.ts.
- SessionRefinement.SameDecisions: request sequences without cleanup; after a cleanup PHP answers AUTH_REQUIRED where it would have answered a replay.
- RateLimitTheorems.PhpPassesAreSpread: fractions of a second that the database drops, and `clear`, are not part of the runs; a caller is one question and at most one hit.
- CanonicalJson: JSON values only; `undefined` inside a body, and the placing of integer-like keys by the language, are not modelled. The text of a number is taken from the language.
- Idempotency.AnsweredOnce: the replay of the same value is promised for a first body without tied keys; `Idempotency.TiedBodyIsRejected` shows what happens otherwise.
- CanonicalJsonRead.ReadsBack: the reader takes texts without white space between tokens, and any run of digits, signs, point and exponent mark as a number.
- MemoryStore: the value an operation returns, and an operation that keeps its working copy and writes to it later.
- Outbox: the encryption of payloads and the delivery itself, which may succeed or fail; crashes are workers that never go on. `Scheduler` and `redactMetrics` are not modelled.
- OutboxTables.OutboxWorker.RunOnce: without another worker in between; the runs of OutboxTheorems interleave them.
- Paging: lists longer than 2^53 - 1 elements.
- TsBilling: expiry texts that are not ISO instants in UTC up to the year 9999, the rounding of sums above 2^53, and the idempotency and role checks around a grant, which `Idempotency` and the router own. `consume` has no caller in the repository.
- The TypeScript withdrawals, organisations, catalog, uploads, notifications, OAuth, mail, HTTP routing and the Postgres store: plumbing, foreign calls, or code without these guarantees.
