# dsr-export in Dafny

This is a model of the core of dsr-export, a small ledger and export service for
daily sales reports (DSRs). Four pieces make up the core:

- **Ledger** (`src/services/account.services.ts`). `recordPayment` credits an
  account once per external payment id. `recordTransfer` moves an amount
  between two accounts in one database transaction. It is idempotent on the
  external transfer id, locks the two rows in id order and writes a debit and
  a credit row to `transactions`.
- **Retry helper** (`src/utils/retry.ts`). `retryWithBackoff` calls an action
  until it returns, at most max(1, `maxAttempts`) times, and waits `baseDelayMs * 2^(k-1)`
  after the k-th failure when another call follows.
- **Export worker** (`src/workers/dsr.worker.ts`). One claim transaction
  selects up to five eligible `dsr_exports` rows, skipping rows locked by a
  concurrent claim, and marks them `processing`. `handleExport` then calls the
  accounting client under the retry helper. It records either completion or a
  failure, with exponential backoff and a give-up after three failed attempts.
- **DSR services** (`src/services/dsr.services.ts`). These are lookups of
  validation accounts, export rows and reports, a compare-and-set toggle of an
  account's active flag, and `exportDSRReport`, which creates an export row.

The files:

- `base.dfy`: `Option`, `Result` and `Pow2`.
- `retry.dfy`: the retry loop as a method, proved against the functions
  `Calls` and `Schedule`.
- `ledger.dfy`: the ledger tables as the class `LedgerDb`, with `Valid()` as
  its invariant. That invariant covers unique payment and transfer ids,
  transfers between distinct existing accounts of positive amounts, and
  exactly two entries per transfer. The file also proves, over the balance
  maps, that a transfer keeps the total and keeps balances non-negative.
- `dsr_data.dfy`: the tables shared by the worker and the services
  (`validation_accounts`, `dsr_reports`, `dsr_exports`) as the class `DsrDb`.
- `export_worker.dfy`: the claim and the attempt.
- `dsr_service.dfy`: the services.

A database transaction works on a copy of the tables. COMMIT assigns the
copy to the fields; ROLLBACK returns without assigning, so a refused call
changes nothing. SQL comparisons with NULL are false. Every SET expression of
an UPDATE reads the row as it was before the statement. `NOW()` is a parameter
`now` in seconds. The accounting client is a sequence of call outcomes. The
rows held by a concurrent claim (`SKIP LOCKED`) are a parameter `locked`.

The model follows the code as written, including these points where its
behaviour is easy to misread:

- `exportDSRReport` inserts its row with status `processing` and no start
  time, yet replies `pending` (src/services/dsr.services.ts:147-163). The
  claim query never selects such a row: a NULL start time is never older than
  two minutes. So the worker never exports it (`InitiatedExportNeverClaimed`),
  provided `processing_started_at` has no column default.
- The idempotency key sent to the accounting client reads `exportRow.storeId`.
  The claimed row has no such field; the query selects `store_id`. So the key
  is `"undefined-" + report date`, and all stores share one key per date
  (`KeyIgnoresStore`).
- Idempotent replays return `{ success: true, idempotent: true }`
  (`PaymentReply(true)`, `AlreadyApplied`). A first payment returns
  `idempotent: false`, and a successful transfer returns only a message.
- `recordPayment` does not check the amount or the account. A negative amount
  can take a balance below zero (`NegativePaymentScenario`). A payment for an
  account that does not exist is still recorded, and no balance changes
  (when `payments` has no foreign key; see "## Left out").
- A refused transfer rolls back its `transfers` row as well. So the same
  transfer id can succeed later (`RetryAfterInsufficientFundsScenario`).
- The duplicate check of a transfer id comes before the account checks. So
  replaying a committed transfer id reports `AlreadyApplied` even when the
  accounts or funds would now refuse it.

## Model

| member | source | states |
|---|---|---|
| `Base.Pow2` | src/utils/retry.ts:18 | 2^n, the factor of both backoff schedules; it is at least 1 |
| `Retry.Cap` | src/utils/retry.ts:12-16 | the loop makes at most this many calls: one when `maxAttempts` < 1, otherwise `maxAttempts` |
| `Retry.CallsFrom` | src/utils/retry.ts:8-17 | the number of calls made is past the calls already failed and at most the cap; the last call made succeeded or was the last permitted one; every call before it failed |
| `Retry.Calls` | src/utils/retry.ts:8-17 | the number of calls the loop makes: up to and including the first success, or all max(1, maxAttempts) when none succeeds; proved in `Retry.CallsFrom`, `Retry.FirstSuccessStops` and `Retry.AllFailuresExhaustCap` |
| `Retry.Schedule` | src/utils/retry.ts:18-19 | the waits after the first n failures, in order; its length and its k-th entry are proved in `Retry.ScheduleAt` |
| `Retry.ScheduleAt` | src/utils/retry.ts:18-19 | the k-th wait is `baseDelayMs * 2^k`, and there is one wait per failure that is followed by another call |
| `Retry.RetryWithBackoff` | src/utils/retry.ts:1-22 | returns the first success, or rethrows the last permitted call's error unchanged; makes 1..max(1, maxAttempts) calls, every call before the last having failed; an error result only after all permitted calls; requests exactly the backoff schedule of delays |
| `Retry.DefaultSchedule` | src/utils/retry.ts:1-19 | under the defaults (3 attempts, 500 ms), a job that always fails is called 3 times and waits 500 ms and then 1000 ms |
| `Retry.FirstSuccessStops` | src/utils/retry.ts:9-10 | the first success among the permitted calls ends the loop after exactly that call |
| `Retry.AllFailuresExhaustCap` | src/utils/retry.ts:11-16 | when every permitted call fails, all of them are made |
| `Ledger.CreditEffect` | src/services/account.services.ts:22-26 | the payment credit adds `amount` to its account and to no other, keeps the set of accounts, raises the total by `amount` when the account exists, changes nothing when it does not, and keeps balances non-negative for a non-negative amount |
| `Ledger.Credited` | src/services/account.services.ts:22-26 | the balances after `UPDATE accounts SET balance = balance + amount WHERE id = accountId`, which change no row when the account is missing; its effect is proved in `Ledger.CreditEffect` |
| `Ledger.DebitCredit` | src/services/account.services.ts:80-97 | the guarded debit and the credit take `amount` from the source and give it to the destination, leave the source at or above zero, change no other account, keep the set of accounts and the total, and keep all balances non-negative |
| `Ledger.Moved` | src/services/account.services.ts:80-97 | the balances after the debit of the source and the credit of the destination; its effect is proved in `Ledger.DebitCredit` |
| `Ledger.LockOrder` | src/services/account.services.ts:64-74 | the two account rows are locked lower id first; the pair holds exactly the two parties and is strictly ordered when they differ |
| `Ledger.EntriesFor` | src/services/account.services.ts:103-111 | the `transactions` rows of the committed transfers are two per transfer |
| `Ledger.EntriesForAt` | src/services/account.services.ts:103-111 | entry j belongs to transfer j/2, carries its amount, and is the debit when j is even and the credit when j is odd |
| `Ledger.DoubleEntry` | src/services/account.services.ts:103-111 | every committed transfer owns exactly two entries, its debit and its credit of its amount, and no other entry refers to it |
| `Ledger.EntriesBalanced` | src/services/account.services.ts:103-111 | the debits and credits of all committed transfers sum to zero |
| `Ledger.TransfersUnique` | src/services/account.services.ts:51-62 | no two committed transfers share an external id; the later of the two is between two distinct existing accounts, of a positive amount |
| `Ledger.TransferRowOk` | src/services/account.services.ts:41-78 | every committed transfer, the first included, is between two distinct existing accounts and of a positive amount |
| `Ledger.TransferIds` | src/services/account.services.ts:51-56 | the external ids of the committed transfers, against which the INSERT's ON CONFLICT tests; that each row's id is in it is proved in `Ledger.TransferIdsHas` |
| `Ledger.TransfersOk` | src/services/account.services.ts:51-62 | the transfers table as the unique key and the checks leave it: each row has an id unused before it, distinct existing parties, and a positive amount; its consequences are proved in `Ledger.TransfersUnique` and `Ledger.TransfersOkAppend` |
| `Ledger.TransfersOkAppend` | src/services/account.services.ts:51-56 | appending a transfer with a fresh id between distinct existing accounts, of a positive amount, keeps the transfers table valid and adds its id to the ids in use |
| `Ledger.TransferIdsHas` | src/services/account.services.ts:51-56 | the external id of every committed transfer is among the ids in use |
| `Ledger.LedgerDb.RecordPayment` | src/services/account.services.ts:3-36 | idempotent exactly when the external id was already recorded, and then changes nothing; otherwise it records the payment under its id and credits the account if it exists; keeps the invariant; never touches transfers or entries |
| `Ledger.LedgerDb.RecordTransfer` | src/services/account.services.ts:38-121 | refuses the same account, then a non-positive amount; replays a known id as already applied; otherwise refuses missing accounts and then insufficient funds; every outcome except success changes no table; success moves the amount, appends the transfer and its debit and credit entries, and keeps the invariant |
| `Ledger.TransferReplayScenario` | src/services/account.services.ts:51-62 | 1000/500 with a transfer of 300 gives 700/800 and one debit and one credit of 300; the identical replay is an idempotent no-op |
| `Ledger.SameAccountScenario` | src/services/account.services.ts:41-43 | a transfer to the same account is refused and changes nothing |
| `Ledger.RetryAfterInsufficientFundsScenario` | src/services/account.services.ts:84-90 | a transfer refused for funds leaves no transfer row, so the same id succeeds after a payment; a replayed payment credits once |
| `Ledger.NegativePaymentScenario` | src/services/account.services.ts:22-26 | a payment of -150 on a balance of 100 is applied and leaves -50 |
| `ExportWorker.SelectBatch` | src/workers/dsr.worker.ts:13-37 | the selected rows are eligible, join their report and are not locked by another claim; there are min(5, number of such rows) of them |
| `ExportWorker.Eligible` | src/workers/dsr.worker.ts:25-33 | the WHERE clause of the claim: pending and due (or with no due time), or processing and started more than two minutes ago; proved in `ExportWorker.NeverEligible`, `ExportWorker.ClaimedRowReclaim`, `ExportWorker.CompletionIsFinal` and `ExportWorker.FailureSchedule` |
| `ExportWorker.Claimable` | src/workers/dsr.worker.ts:13-37 | the rows the claim query can return: eligible export rows that join their report; `ExportWorker.SelectBatch` takes min(5, unlocked ones) of them and `ExportWorker.ClaimIsExclusive` shows a batch leaves it |
| `ExportWorker.Claimed` | src/workers/dsr.worker.ts:46-51 | a row as the claim UPDATE leaves it: processing, started now; proved in `ExportWorker.ClaimedRowReclaim` |
| `ExportWorker.AfterClaim` | src/workers/dsr.worker.ts:46-51 | the export rows after the claim UPDATE of a batch, which touches only the batch; proved in `ExportWorker.ClaimIsExclusive` |
| `ExportWorker.ClaimBatch` | src/workers/dsr.worker.ts:10-53 | the claim returns min(5, claimable and unlocked) rows with their report's figures, marks exactly those `processing` from now, changes nothing when none are claimable, and leaves accounts and reports alone |
| `ExportWorker.ClaimedRowReclaim` | src/workers/dsr.worker.ts:30-33 | a claimed row becomes claimable again exactly when more than two minutes have passed since the claim |
| `ExportWorker.ClaimIsExclusive` | src/workers/dsr.worker.ts:46-51 | within two minutes of a claim, no claim selects any row of its batch; rows outside the batch are unchanged |
| `ExportWorker.NeverEligible` | src/workers/dsr.worker.ts:25-33 | completed and failed rows, and processing rows without a start time, are never selected |
| `ExportWorker.KeyIgnoresStore` | src/workers/dsr.worker.ts:75 | two jobs for the same date get the same idempotency key whatever their stores |
| `ExportWorker.IdempotencyKey` | src/workers/dsr.worker.ts:75 | the key as the source builds it, from a field the row does not have, so "undefined-" + date; proved in `ExportWorker.KeyIgnoresStore` |
| `ExportWorker.Payload` | src/workers/dsr.worker.ts:69-76 | the store, date, figures and key sent to the accounting client; `ExportWorker.HandleExport` sends exactly it |
| `ExportWorker.HandleExport` | src/workers/dsr.worker.ts:67-109 | sends the job's store, date, figures and key; the outcome is the result of the retry loop under its defaults; only the job's own row gets the completion or the failure update |
| `ExportWorker.Completion` | src/workers/dsr.worker.ts:79-88 | the success UPDATE: completed, with the transaction id and the export time; proved in `ExportWorker.CompletionIsFinal` |
| `ExportWorker.Failure` | src/workers/dsr.worker.ts:93-107 | the failure UPDATE, every SET reading the old row; proved in `ExportWorker.FailureSchedule` and `ExportWorker.ThreeFailuresGiveUp` |
| `ExportWorker.AfterAttempt` | src/workers/dsr.worker.ts:67-107 | the row after one attempt: the success update on a returned id, the failure update on a thrown error; `ExportWorker.HandleExport` applies it to the job's row |
| `ExportWorker.CompletionIsFinal` | src/workers/dsr.worker.ts:79-88 | success completes the row with the transaction id and time, keeps the retry count, and the row is never claimed again |
| `ExportWorker.FailureSchedule` | src/workers/dsr.worker.ts:90-107 | a failure counts one attempt, records the message or 'Unkown error', waits 10 s * 2^old count, and fails the row exactly when the new count reaches 3; the row is claimable again exactly when it is pending and due |
| `ExportWorker.ThreeFailuresGiveUp` | src/workers/dsr.worker.ts:91-103 | a fresh job that fails three times waits 10 s and then 20 s, then is failed with a count of 3 and is never claimed again |
| `DsrService.ValidationAccountStatus` | src/services/dsr.services.ts:5-24 | succeeds exactly when the account number exists, returning that account's number, client name and active flag; otherwise 'No accounts match' |
| `DsrService.ChangeAccountStatus` | src/services/dsr.services.ts:26-46 | succeeds exactly when the account exists with the opposite flag, then sets the flag and returns its id and new flag; otherwise status 400 and no change |
| `DsrService.WithActive` | src/services/dsr.services.ts:29-37 | the accounts with one account's active flag set; `DsrService.ToggleRoundTrip` proves that toggling back restores them |
| `DsrService.ToggleRoundTrip` | src/services/dsr.services.ts:26-37 | a toggle followed by the opposite toggle restores the accounts; repeating the same toggle is refused |
| `DsrService.GetExportStatus` | src/services/dsr.services.ts:48-75 | succeeds exactly when an export row exists for the store and date, returning its status, transaction id, export time, retry count and last error; otherwise status 404 |
| `DsrService.DsrPreview` | src/services/dsr.services.ts:77-106 | an empty store id or date is refused before the lookup; otherwise succeeds exactly when the report exists, returning its account and figures |
| `DsrService.ExportDsrReport` | src/services/dsr.services.ts:108-179 | a missing report gives 404, then a missing or inactive account gives 400; otherwise the reply is 'pending', idempotent exactly when a row already exists for the key; only a first export inserts the new row |
| `DsrService.Exportable` | src/services/dsr.services.ts:115-145 | the report exists and its account is an active validation account; `DsrService.ExportDsrReport` succeeds exactly then |
| `DsrService.NewExportRow` | src/services/dsr.services.ts:147-156 | the inserted row: processing, retry count 0, every other column null; `DsrService.InitiatedExportNeverClaimed` proves no claim selects it |
| `DsrService.InitiatedExportNeverClaimed` | src/services/dsr.services.ts:147-156 | the inserted row is `processing` with no start time, so no claim at any time selects it |
| `DsrService.ExportScenario` | src/services/dsr.services.ts:108-179 | exporting twice gives a first and an idempotent 'pending' reply, and the next claim selects nothing |

## Left out

- Connections, the pool, row locks and concurrent callers are left out. Each
  call is atomic. A concurrent claim enters only as the set of rows it holds.
- The polling timer and the `Promise.all` dispatch of claimed rows are left
  out. So is the sleeping between retries; the model returns the list of
  delays instead. `NOW()` is a parameter.
- The accounting client is not part of this model. Its calls are a sequence
  of outcomes. `HandleExport` therefore needs at least three outcomes.
- Storage failures are left out, and so are the catch paths that only they
  reach. This includes the claim's catch, which would still dispatch rows
  read before a failed UPDATE. It also includes a failing completion UPDATE,
  which the source would record as a failed attempt.
- The connection that `recordTransfer` takes before its argument checks is
  not released on those early errors. This resource leak is not modelled.
- `RecordTransfer`: the branch that finds no destination row after the debit
  cannot happen here. The lock step has just shown both rows exist, and the
  transaction is atomic.
- The database schema is not part of this model, including foreign keys.
  A transfer naming a missing account is refused at the lock step, as the
  code does. A foreign key on `transfers` would throw at the INSERT instead.
  Likewise a payment naming a missing account is recorded without a credit;
  a foreign key on `payments.account_id` would make the INSERT throw and the
  payment roll back.
- The columns the `exportDSRReport` INSERT does not list are taken to have
  no DEFAULT, so they are NULL; in particular `processing_started_at` is
  assumed to have no default, which is why the new row is never claimed.
- Amounts, `maxAttempts` and `baseDelayMs` are whole numbers. JavaScript
  numbers that are fractional or non-finite are not modelled, so
  `Number.isInteger` reduces to the sign check. `Number(...)` of the report
  figures is left out: the figures stay as the text the driver returns.
- Serial row ids are modelled by keys. A transfer's id is its position in
  `transfers`. An export row is identified by its unique (store, date) pair.
- The rendering of `report_date` by the database driver is taken to be the
  date string itself: inside the idempotency key, and in the `reportDate`
  that `GetExportStatus` and `DsrPreview` return (they return the input
  string where the source returns the row's column).
- Console logging is left out.
