# Digital wallet ledger: a Dafny model

This project models the money-transfer core of a Laravel digital wallet. The
model has three parts:

- the transfer controller. It validates a request, charges a 1.5% commission,
  checks the sender's balance, debits the sender, credits the receiver and
  records a `completed` transaction, all inside one database transaction.
- the `transactions` table that holds those records.
- the history page. It lists a user's transactions, newest first, together
  with the user's current balance.

Money is integer cents throughout. This matches the `decimal(16, 2)` columns.
The submitted amount is an exact decimal, `Decimal(digits, scale)`, which is
rounded half away from zero to cents, as PHP's `round($x, 2)` does. The model
keeps the gap between the positivity check and that rounding. An amount such
as 0.004 passes the "greater than zero" rule, rounds to 0.00 and is recorded
as a zero transfer (`Transfers.SubCentAmountRecordedAsZero`).

Modules, one per concern:

- `Money` (money.dfy): rounding, commission and total debit.
- `TransactionsTable` (transactions_table.dfy): the row datatype with the
  derived `TotalDebited()`, the status enum, defaults, column ranges and
  selection by participant.
- `Database` (database.dfy): the ledger state, meaning balances plus the
  transaction log. It holds the schema constraints, the sum of balances and
  the cascading delete.
- `Transfers` (transfers.dfy): the transfer as a function of the state, and
  the lemmas about it.
- `History` (history.dfy): the history query.
- `Wallet` (wallet.dfy): class `Ledger`. Its `Transfer` method updates the
  balances and the log in place. It is proved equal to `Transfers.TransferStep`
  and to keep the schema constraints.

The model follows the code in these points:

- A validation failure is one error that lists every failing field, as
  Laravel reports them.
- A positive amount below half a cent passes validation and rounds to 0.00.
  A sender whose balance is not negative then sends a 0.00 transfer, and a
  0.00 row is recorded. A sender with a negative balance is refused by the
  balance check.
- Nothing in the core rejects a negative balance. The model proves that a
  transfer keeps non-negative balances non-negative.

## Model

| member | source | states |
|---|---|---|
| `Money.RoundHalfAway` | app/Http/Controllers/Transaction/StoreController.php:32-34 | the result is the integer nearest to n/d, with halves going away from zero (PHP `round`) |
| `Money.RoundHalfAwayUnique` | app/Http/Controllers/Transaction/StoreController.php:32-34 | the nearest-integer bracket determines the rounded value uniquely |
| `Money.ToCents` | app/Http/Controllers/Transaction/StoreController.php:32 | the submitted amount rounded half-up to cents; a non-negative input gives non-negative cents; a positive input with at most 2 decimals gives positive cents |
| `Money.ToCentsExact` | app/Http/Controllers/Transaction/StoreController.php:32 | an amount with at most two fractional digits is kept exactly |
| `Money.Commission` | app/Http/Controllers/Transaction/StoreController.php:33 | the commission is 1.5% of the amount rounded half-up to cents, and lies between 0 and the amount |
| `Money.TotalDebit` | app/Http/Controllers/Transaction/StoreController.php:34 | the total is amount plus commission exactly, which equals the amount times 1.015 rounded half-up |
| `Money.CommissionFreeUpTo33Cents` | app/Http/Controllers/Transaction/StoreController.php:33 | the commission is zero exactly for amounts up to 0.33 |
| `Money.CommissionExample` | app/Http/Controllers/Transaction/StoreController.php:32-34 | 100.00 gives a commission of 1.50 and a total of 101.50 |
| `Money.ToCentsExamples` | app/Http/Controllers/Transaction/StoreController.php:32 | 0.004 rounds to 0.00, 1.005 to 1.01, and 100.00 stays 100.00 |
| `TransactionsTable.SuppliedValuesStored` | database/migrations/2025_10_03_125624_create_transactions_table.php:28-31 | a supplied fee and status are stored as given with the other columns, total_debited is amount plus fee, and an inserted row fits its columns |
| `TransactionsTable.TotalDebitedBinds` | database/migrations/2025_10_03_125624_create_transactions_table.php:28-30 | for a non-negative amount and fee, the insert is refused exactly when amount plus fee exceeds 99999999999999.99, so the generated total is the binding column |
| `TransactionsTable.DefaultsApply` | database/migrations/2025_10_03_125624_create_transactions_table.php:29-31 | a row inserted without fee and status is `pending`, has fee 0, and its total_debited equals its amount |
| `TransactionsTable.Involving` | app/Http/Controllers/Transaction/IndexController.php:20-22 | keeps exactly the rows where the user is sender or receiver, each with its stored multiplicity |
| `TransactionsTable.Unrelated` | database/migrations/2025_10_03_125624_create_transactions_table.php:16-26 | keeps exactly the rows where the user is neither sender nor receiver, each with its stored multiplicity |
| `TransactionsTable.UnrelatedIdsIncreasing` | database/migrations/2025_10_03_125624_create_transactions_table.php:15 | removing rows keeps the surviving rows' auto-increment ids in increasing order |
| `Database.DeleteUser` | database/migrations/2025_10_03_125624_create_transactions_table.php:16-26 | deleting a user removes that user's balance and every transaction naming the user as sender or receiver, and nothing else |
| `Database.DeleteUserWellFormed` | database/migrations/2025_10_03_125624_create_transactions_table.php:16-26 | after the cascade, every remaining row still references existing users and the schema constraints hold |
| `Database.DeleteUserWithoutCascade` | database/migrations/2025_10_03_125624_create_transactions_table.php:16-26 | deleting a user when the foreign keys are not created removes only that user's balance; the transaction log is untouched |
| `Database.OrphanedRowAfterDelete` | database/migrations/2025_10_03_125624_create_transactions_table.php:16-26 | without the cascade, deleting the sender of a stored transaction breaks the foreign-key constraint; with the cascade it holds |
| `History.InsertByDate` | app/Http/Controllers/Transaction/IndexController.php:23 | inserting a row into a newest-first list keeps it newest first and adds exactly that row |
| `History.Latest` | app/Http/Controllers/Transaction/IndexController.php:23 | the rows in non-increasing creation-time order, as a permutation of the input |
| `History.HistoryOf` | app/Http/Controllers/Transaction/IndexController.php:20-23 | the history is newest first and holds exactly the stored rows in which the user is sender or receiver, each as often as stored |
| `Transfers.InvalidFields` | app/Http/Controllers/Transaction/StoreController.php:18-21 | the receiver field fails exactly when it is missing or names no user; the amount field fails exactly when it is missing, non-numeric or not greater than zero; no field fails exactly when both are valid |
| `Transfers.Settle` | app/Http/Controllers/Transaction/StoreController.php:54-55 | the sender is debited the total, the receiver credited the amount, and every other balance and the set of accounts are unchanged |
| `Transfers.TransferStep` | app/Http/Controllers/Transaction/StoreController.php:16-79 | every rejection leaves balances, log and id counter unchanged; a transfer succeeds if and only if the request is valid, names another user, the sender covers the total, the row fits its columns and nothing in the database transaction raises |
| `Transfers.InvalidRequestRejected` | app/Http/Controllers/Transaction/StoreController.php:18-21 | a missing or unknown receiver, or a missing, non-numeric or non-positive amount, is rejected with exactly the failing fields named, and nothing changes |
| `Transfers.SelfTransferRejected` | app/Http/Controllers/Transaction/StoreController.php:26-30 | a transfer to oneself is always rejected and changes nothing |
| `Transfers.InsufficientBalanceRejected` | app/Http/Controllers/Transaction/StoreController.php:37-48 | a sender whose balance is below amount plus commission gets "insufficient balance", and nothing changes |
| `Transfers.TransferMovesMoney` | app/Http/Controllers/Transaction/StoreController.php:54-55 | on success the sender loses amount plus commission, the receiver gains the amount, and no other balance or account changes |
| `Transfers.TransferAppendsRecord` | app/Http/Controllers/Transaction/StoreController.php:58-64 | on success exactly one `completed` row is appended, carrying sender, receiver, amount, commission, the next id and the clock reading; its total_debited is what the sender lost |
| `Transfers.TransferConservation` | app/Http/Controllers/Transaction/StoreController.php:54-55 | on success the sum of all balances falls by exactly the commission, which no account receives |
| `Transfers.TransferKeepsBalancesNonNegative` | app/Http/Controllers/Transaction/StoreController.php:46-55 | after a successful transfer the sender's balance is non-negative, and non-negative balances stay non-negative |
| `Transfers.TransferWellFormed` | app/Http/Controllers/Transaction/StoreController.php:58-64 | a transfer keeps the foreign keys, column ranges and increasing ids of the transactions table |
| `Transfers.ExampleTransfer` | app/Http/Controllers/Transaction/StoreController.php:32-64 | balances 1000.00 and 500.00; sending 100.00 leaves 898.50 and 600.00 and records commission 1.50 |
| `Transfers.ExampleInsufficient` | app/Http/Controllers/Transaction/StoreController.php:37-39 | a balance of 10.00 cannot send 100.00; nothing changes |
| `Transfers.SubCentAmountRecordedAsZero` | app/Http/Controllers/Transaction/StoreController.php:20-34 | for a sender with a non-negative balance, 0.004 passes the positivity rule and a transfer of 0.00 with no commission is recorded; no balance changes |
| `Wallet.Ledger.Transfer` | app/Http/Controllers/Transaction/StoreController.php:16-79 | the in-place transfer equals `TransferStep`, keeps the schema constraints, and leaves the state untouched on every rejection; on success it moves exactly the money above and appends one row |
| `Wallet.Ledger.Index` | app/Http/Controllers/Transaction/IndexController.php:15-30 | returns the user's current balance and their newest-first history, and modifies nothing |
| `Wallet.Ledger.DeleteUser` | database/migrations/2025_10_03_125624_create_transactions_table.php:16-26 | deleting a user cascades to the user's transactions and keeps the schema constraints |

## Left out

- Row locks (`lockForUpdate`) and the isolation of the database transaction are left out. So is the sender-then-receiver lock order and the deadlock it allows. The model is one sequential ledger, and each transfer is one atomic step.
- The pre-check outside the transaction and the re-check under the lock read the same balance in a sequential model, so one check stands for both. The model also does not distinguish the two error keys, `transactions` and `balance`, that these checks report.
- PHP floating point is left out: the `(float)` cast, `round` on doubles, and the precision lost above 2^53. Amounts are exact decimals and cents.
- The model does not parse the request body. A missing, non-numeric or non-id field is represented as `None`.
- Any exception raised inside the database transaction's closure is the parameter `dbFault`. Examples are a lost connection, a lock timeout, or a failure of the event dispatch inside the closure. The clock behind `created_at` is the parameter `now`.
- A decimal column out of range is treated as an insert failure, which assumes strict SQL mode. The range of the `users.balance` column is not modelled, because the users table is not part of this model.
- A rolled-back insert does not consume an auto-increment id here.
- The order among rows with equal `created_at` is one fixed choice. SQL leaves that order unspecified; the model proves only that the order is non-increasing.
- Redirects, flash messages, the rethrow of validation errors, `report($e)` and `Inertia::render` are left out. Only the outcomes are kept.
- The broadcast event (app/Events/TransactionCreated.php) is left out. It is dispatched inside the database transaction. If the dispatch throws, the transaction rolls back and the request fails; that case is covered only through `dbFault`.
- The Eloquent model, its relations and eager loading are left out. So are routes, authentication and the frontend. The sender is passed in as the authenticated user id and must exist.
- The user deletion that triggers the cascade happens outside the core. `DeleteUser` models only its effect on the two tables.
- The model takes the migration's cascading foreign keys as declared. `Database.DeleteUser` is the cascade. The "## Findings" row below records why the schema may lack them.

## Findings

| source | as written | input that shows it | evidently intended | confidence | as-written member | corrected member |
|---|---|---|---|---|---|---|
| database/migrations/2025_10_03_125624_create_transactions_table.php:16-26 | `->name('transactions_sender_id_foreign')` (and the receiver twin) is chained onto the foreign-key command that `constrained('users')` returns. It overwrites that command's `name` attribute, which the schema builder uses to pick the compiler for the command, so plausibly no foreign key and no cascade is created | a user who sent a stored transaction is deleted; the transaction row stays with a `sender_id` that names no user | both foreign keys exist and cascade on delete | medium; not executed; the schema builder is not part of this model | `Database.OrphanedRowAfterDelete` (over `Database.DeleteUserWithoutCascade`) | `Database.DeleteUser`, with `Database.DeleteUserWellFormed` |
