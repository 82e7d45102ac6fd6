# Pool table tracker: a Dafny model of its money paths

The pool table tracker lets the owner of coin-operated pool tables watch the
tables' balances and takings and withdraw money from them. This project models
the parts of the system that move or report money:

- the in-memory store of the Node server (`server/storage.ts`): its lookups, the
  transaction listing ordered newest first, and `createWithdrawal`, which checks
  the password, records a completed withdrawal and drains the account's tables
  one by one in store order;
- the Node routes (`server/routes.ts`): login, the dashboard summary, the
  transaction search with its table filter, and the withdrawal handler with its
  schema, account, balance and password checks and their status codes;
- the record shapes and column defaults of `shared/schema.ts`;
- the withdrawal dialog of the web client (`client/src/components/withdraw-modal.tsx`)
  and the filters of the transactions page (`client/src/pages/transactions.tsx`);
- the WordPress plugin (`PoolTableTracker-main/attached_assets/pooltable-api_1749385824034.php`):
  `get_device_balance`, `withdraw_funds`, `update_device_info` and
  `get_device_transactions`.

Both back ends drain a withdrawal the same greedy way: visit balances in some
order and take from each positive one as much as is still owed. The Node store
visits its tables in insertion order; the plugin visits the account's positive
balances largest first. `Allocation.Allocate` is that drain over an arbitrary
visiting order. Both back ends are proved to be instances of it
(`Storage.DrainAccountIsAllocate`, `Plugin.VisitIsAllocate`). The properties
proved once about `Allocate` then hold for both: exact conservation when the
balances cover the request, and balances after the covering point left alone.

Modelling conventions:

- Money is a whole number of cents (`Money.Cents`). The `decimal(10,2)` range is
  the predicate `Money.FitsDecimal`.
- JavaScript `Map`s and SQL tables are sequences in insertion order.
- Timestamps are natural numbers. Identifiers the source generates from the
  clock or a random number (`WD…` ids) are parameters.
- Sorting is a stable insertion sort, descending by a key (`Seqs.SortDesc`).

Modules, one per file: `Results`, `Seqs`, `Money`, `Text` (ASCII lower-casing
and substring search for SQL `LIKE`), `Allocation`, `Schema`, `Storage`,
`Routes`, `WithdrawModal`, `TransactionsPage`, `Plugin`.

## Model

| member | source | states |
|---|---|---|
| Allocation.Allocate | server/storage.ts:215-226 | the drain keeps one balance per input; balances that are not positive are untouched and positive ones end between zero and their old value; a request that is not positive changes nothing |
| Allocation.Deduction | server/storage.ts:215-226 | a table gives up nothing once the request is met or when its balance is not positive, otherwise the smaller of its balance and what is still owed |
| Allocation.TakenIsCappedAmount | server/storage.ts:209-226 | the drain takes the requested amount when the positive balances cover it and all of them otherwise, whatever the visiting order |
| Allocation.Conservation | server/storage.ts:209-226 | when the balances total at least the amount, their total drops by exactly the amount |
| Allocation.UntouchedOnceCovered | server/storage.ts:215-226 | once the balances visited so far cover the request, every later balance is left as it was |
| Allocation.DrainExample | server/storage.ts:209-226 | tables holding 300, 100 and 50 drained by 350 hold 0, 50 and 50 |
| Schema.InsertPoolTable | shared/schema.ts:14-28 | a new table gets zero balance, earnings and games and status "active" unless given, and is stamped with the registration time |
| Schema.InsertWithdrawal | shared/schema.ts:43-50 | a new withdrawal has status "completed" unless given, and is dated now |
| Schema.Balances | shared/schema.ts:14-28 | the balance column of a list of tables, position by position |
| Storage.GetUser | server/storage.ts:118-120 | the user found has the id; none is found exactly when no user has it |
| Storage.GetUserByUsername | server/storage.ts:122-126 | the user found has the username; none exactly when no user has it; with unique usernames it is that user |
| Storage.ValidateUserPassword | server/storage.ts:166-169 | with unique usernames, true exactly when the user exists and the password matches |
| Storage.GetPoolTablesByAccount | server/storage.ts:140-144 | exactly the account's tables, in store order |
| Storage.GetTransactionsByAccount | server/storage.ts:146-154 | a permutation of the account's transactions, newest first |
| Storage.GetWithdrawalsByAccount | server/storage.ts:156-164 | a permutation of the account's withdrawals, newest first |
| Storage.TransactionListingKeepsTies | server/storage.ts:146-154 | transactions with the same date keep their store order in the listing |
| Storage.DrainTable | server/storage.ts:215-226 | a drained table loses exactly the deduction and only its balance and update time change; an untaken table stays as it was |
| Storage.DrainAccount | server/storage.ts:209-226 | the drain over the store returns one table for every table it is given |
| Storage.AccountTotal | server/routes.ts:171-172 | the account's total is the front-to-back running sum of the balances of its tables, and zero when it has none |
| Storage.DrainAccountPointwise | server/storage.ts:209-226 | other accounts' tables are untouched, the account's tables are only debited, and a request that is not positive changes nothing |
| Storage.DrainAccountKeepsOwnTables | server/storage.ts:209-226 | the drain keeps the account's tables, in order, with only balances and update times changed |
| Storage.DrainAccountIsAllocate | server/storage.ts:209-226 | the account's new balances are the greedy drain of its balances in store order |
| Storage.DrainEverythingEmpties | server/storage.ts:209-226 | draining the whole total of an account none of whose tables is in debt leaves every one of its tables at zero |
| Storage.PutWithdrawal | server/storage.ts:196-206 | the withdrawal is stored under its id, replacing only a record with the same id, and appended when the id is new |
| Storage.PutWithdrawalKeepsIdsUnique | server/storage.ts:196-206 | storing a withdrawal keeps withdrawal ids unique |
| Storage.CreateWithdrawal | server/storage.ts:189-230 | fails exactly when the password check fails; otherwise records a completed withdrawal of the amount and drains only the account's tables |
| Storage.CreateWithdrawalConserves | server/storage.ts:209-226 | a covered withdrawal lowers the account's total by exactly the amount |
| Storage.CreateWithdrawalUncovered | server/storage.ts:209-213 | an uncovered request still succeeds with a completed withdrawal but drains no table |
| Storage.CreateWithdrawalAppendsOne | server/storage.ts:196-206 | with a fresh id, the withdrawal list grows by exactly the new record |
| Storage.CreateWithdrawalKeepsValid | server/storage.ts:189-230 | creating a withdrawal keeps the store's uniqueness invariants |
| Routes.Login | server/routes.ts:20-51 | 400 exactly when a field is missing, 401 exactly when the credentials do not match, otherwise the view of the matching user |
| Routes.Summarize | server/routes.ts:67-83 | the dashboard totals are the sums over the tables, and the active count is the number of tables whose status is "active" |
| Routes.LookupUser | server/routes.ts:56-61 | the user found has the requested id; none exactly when the id is missing or unknown |
| Routes.Dashboard | server/routes.ts:54-92 | 404 exactly when the user is unknown; otherwise the user's tables, all five figures summarized over exactly those tables, and the first ten of the newest-first listing |
| Routes.RecentAreNewest | server/routes.ts:87 | every recent transaction is at least as new as every one left off the dashboard |
| Routes.DefaultTableAddsNothing | shared/schema.ts:21-25 | a table inserted with defaults adds one to the table count and to the active count, and nothing to the money totals |
| Routes.SearchTransactions | server/routes.ts:110-139 | 400 exactly without an account; otherwise exactly the account's transactions matching the search and table, newest first |
| Routes.FiltersKeepOrder | server/routes.ts:123-133 | the search and table filters keep the listing's order |
| Routes.SearchAndTableCommute | server/routes.ts:123-133 | filtering by table first and then by search gives the same list |
| Routes.EmptySearchMatchesAll | server/routes.ts:123-129 | the empty search text matches every transaction |
| Routes.ParseWithdraw | server/routes.ts:11-15 | a withdrawal body parses exactly when all three fields are there and the amount is at least 100 |
| Routes.HandleWithdrawal | server/routes.ts:157-206 | fails with exactly one of the four errors under exactly its condition, checked in source order; otherwise the store's withdrawal result |
| Routes.HandledWithdrawalConserves | server/routes.ts:157-206 | a successful withdrawal lowers the account's total by exactly the amount |
| Routes.WithdrawingEverything | server/routes.ts:171-181 | with the right password, a total of at least 100.00 and no table of the account in debt, withdrawing the whole total succeeds and leaves every table of the account at zero |
| WithdrawModal.HandleSubmit | client/src/components/withdraw-modal.tsx:70-103 | each toast is shown exactly under its condition in check order, and only an amount passing all checks is sent |
| WithdrawModal.WholeBalanceIsSent | client/src/components/withdraw-modal.tsx:93-101 | withdrawing exactly the available balance is sent |
| WithdrawModal.SentAmountPassesServerChecks | client/src/components/withdraw-modal.tsx:70-103 | an amount the dialog sends passes the server's schema and balance checks |
| WithdrawModal.HandleClose | client/src/components/withdraw-modal.tsx:105-110 | closing is ignored while a withdrawal is in flight, and otherwise clears the amount |
| WithdrawModal.OnAnswer | client/src/components/withdraw-modal.tsx:39-67 | any answer settles the withdrawal; only a successful one clears the amount and closes the dialog |
| WithdrawModal.SuccessLikeClose | client/src/components/withdraw-modal.tsx:39-59 | for a withdrawal in flight, a successful answer leaves the dialog as a manual close after settling would, while a manual close in flight does nothing |
| WithdrawModal.AnswerReenablesClose | client/src/components/withdraw-modal.tsx:39-67 | after any answer a manual close works again and clears the amount |
| TransactionsPage.FinalFiltered | client/src/pages/transactions.tsx:37-48 | exactly the loaded transactions passing the type and table filters, in order; nothing before loading |
| TransactionsPage.TypeSelectionKeepsItsKind | client/src/pages/transactions.tsx:37-42 | selecting payments or withdrawals shows exactly the transactions of that type |
| TransactionsPage.NoSelectionShowsAll | client/src/pages/transactions.tsx:37-48 | with no type and no table selected, every loaded transaction is shown |
| TransactionsPage.GetTableName | client/src/pages/transactions.tsx:63-66 | the name of a loaded table with that device id, or the device id itself |
| TransactionsPage.TableNameOfUniqueDevice | client/src/pages/transactions.tsx:63-66 | with unique device ids, a named table's device shows the table's name |
| Plugin.GetDeviceBalance | PoolTableTracker-main/attached_assets/pooltable-api_1749385824034.php:254-268 | the balance of the device's first row, or zero when it has none |
| Plugin.Candidates | PoolTableTracker-main/attached_assets/pooltable-api_1749385824034.php:306-312 | exactly the account's rows with a positive balance, once each, largest balance first |
| Plugin.CandidatesCover | PoolTableTracker-main/attached_assets/pooltable-api_1749385824034.php:288-312 | the candidates' balances cover the account's total |
| Plugin.Visit | PoolTableTracker-main/attached_assets/pooltable-api_1749385824034.php:314-338 | the loop makes at most one update per row it is given, and none when nothing is owed |
| Plugin.AccountTotal | PoolTableTracker-main/attached_assets/pooltable-api_1749385824034.php:288-292 | the total is the sum of the balances of exactly the rows whose device the account has registered, and zero when there are none |
| Plugin.VisitDeducts | PoolTableTracker-main/attached_assets/pooltable-api_1749385824034.php:314-338 | the loop takes the smaller of the request and the positive balances it visits |
| Plugin.VisitSteps | PoolTableTracker-main/attached_assets/pooltable-api_1749385824034.php:314-338 | each update is to a visited row, sets its balance to the old balance less the deduction, and each row is updated at most once |
| Plugin.ApplyStepsEffect | PoolTableTracker-main/attached_assets/pooltable-api_1749385824034.php:324-330 | the updated rows get their new balances and every other row is unchanged |
| Plugin.ApplyStepsTotal | PoolTableTracker-main/attached_assets/pooltable-api_1749385824034.php:314-338 | the account's total drops by what the updates took |
| Plugin.VisitIsAllocate | PoolTableTracker-main/attached_assets/pooltable-api_1749385824034.php:314-338 | the loop with its early exit leaves the visited balances as the greedy drain does |
| Plugin.WithdrawStepsFacts | PoolTableTracker-main/attached_assets/pooltable-api_1749385824034.php:314-338 | a covered request is taken in full, in at least one update, each to a distinct candidate row |
| Plugin.FirstOwner | PoolTableTracker-main/attached_assets/pooltable-api_1749385824034.php:342-345 | some registration of the account, none exactly when the account has no device |
| Plugin.WithdrawFundsAsWritten | PoolTableTracker-main/attached_assets/pooltable-api_1749385824034.php:273-377 | 400 for a non-positive amount and for insufficient funds, exactly; otherwise the drain and one new ledger row naming the last device drawn on, carrying minus that update's deduction and showing that device's new balance, a device the account owns |
| Plugin.WithdrawConserves | PoolTableTracker-main/attached_assets/pooltable-api_1749385824034.php:288-338 | a withdrawal lowers the account's total by exactly the amount |
| Plugin.WithdrawTouchesCandidatesOnly | PoolTableTracker-main/attached_assets/pooltable-api_1749385824034.php:306-338 | only candidate rows change, only in their balance, and only downwards to no less than zero |
| Plugin.WithdrawIsAllocate | PoolTableTracker-main/attached_assets/pooltable-api_1749385824034.php:306-338 | the candidates' new balances are the greedy drain of their balances, largest first |
| Plugin.LedgerRecordsLastStepOnly | PoolTableTracker-main/attached_assets/pooltable-api_1749385824034.php:341-359 | the ledger row shows the whole withdrawal exactly when one device covered it |
| Plugin.LedgerExample | PoolTableTracker-main/attached_assets/pooltable-api_1749385824034.php:341-359 | a 350 withdrawal from balances 300, 100 and 50 is recorded as a single -50 row |
| Plugin.WithdrawFunds | PoolTableTracker-main/attached_assets/pooltable-api_1749385824034.php:273-377 | the same checks and drain, with one ledger row per device drawn on |
| Plugin.WithdrawFundsLedger | PoolTableTracker-main/attached_assets/pooltable-api_1749385824034.php:341-359 | the new ledger rows total minus the amount, and each shows the new balance of one of the account's devices |
| Plugin.UpdatedRegistrations | PoolTableTracker-main/attached_assets/pooltable-api_1749385824034.php:399-423 | only the device's registrations change, and only in the fields given |
| Plugin.UpdatedBalances | PoolTableTracker-main/attached_assets/pooltable-api_1749385824034.php:426-462 | balance fields update the device's rows when it has one and append a new row otherwise |
| Plugin.UpdateDeviceInfo | PoolTableTracker-main/attached_assets/pooltable-api_1749385824034.php:382-469 | 404 exactly when the device is not registered; otherwise the two updates and an unchanged ledger |
| Plugin.UpdateKeepsDevice | PoolTableTracker-main/attached_assets/pooltable-api_1749385824034.php:382-469 | after an update the device is still registered and has a balance row when balance fields were given |
| Plugin.UpdateDeviceInfoIdempotent | PoolTableTracker-main/attached_assets/pooltable-api_1749385824034.php:382-469 | applying the same update twice is the same as applying it once |
| Plugin.EmptyUpdateChangesNothing | PoolTableTracker-main/attached_assets/pooltable-api_1749385824034.php:399-462 | an update with no fields succeeds and changes nothing |
| Plugin.UpdatedBalanceReadsBack | PoolTableTracker-main/attached_assets/pooltable-api_1749385824034.php:426-462 | after setting the balance, the device's balance reads back as the value set |
| Plugin.UpdatedFirstRow | PoolTableTracker-main/attached_assets/pooltable-api_1749385824034.php:426-462 | after an update carrying a balance, the device has a first balance row and it holds that balance, whether the row was rewritten or appended |
| Plugin.DeviceLedger | PoolTableTracker-main/attached_assets/pooltable-api_1749385824034.php:483-497 | exactly the device's ledger rows matching the search, newest first |
| Plugin.DeviceLedgerIsStable | PoolTableTracker-main/attached_assets/pooltable-api_1749385824034.php:495 | in the model's ordering, rows with equal timestamps keep ledger order (a choice the SQL leaves open) |
| Plugin.FalsySearchReturnsAll | PoolTableTracker-main/attached_assets/pooltable-api_1749385824034.php:488-493 | a missing, empty or "0" search returns every row of the device |
| Plugin.DayIndex | PoolTableTracker-main/attached_assets/pooltable-api_1749385824034.php:500-515 | the bucket found has the day; none is found exactly when no bucket has it |
| Plugin.AddRowKeepsGrouped | PoolTableTracker-main/attached_assets/pooltable-api_1749385824034.php:500-515 | adding one row keeps the buckets one per day, each holding exactly its day's rows in order |
| Plugin.GroupByDay | PoolTableTracker-main/attached_assets/pooltable-api_1749385824034.php:500-515 | one non-empty bucket per day present, each holding exactly that day's rows in order |
| Plugin.BucketKeepsOrder | PoolTableTracker-main/attached_assets/pooltable-api_1749385824034.php:495-515 | each day's bucket stays newest first |
| Plugin.GetDeviceTransactions | PoolTableTracker-main/attached_assets/pooltable-api_1749385824034.php:477-518 | every selected row is in its day's bucket, and each bucket is exactly that day's selected rows, newest first |
| Text.Lower | PoolTableTracker-main/attached_assets/pooltable-api_1749385824034.php:488-493 | lower-casing keeps the length and maps each ASCII letter to its lower-case form |
| Text.ContainsAt | PoolTableTracker-main/attached_assets/pooltable-api_1749385824034.php:488-493 | the substring search finds the text exactly when it occurs at some position |

## Left out

- Floating point: amounts are whole cents. `parseFloat`, JavaScript number rounding and the PHP `(float)` casts are not modelled.
- Identifier and clock sources (`Date.now()`, `time()`, `rand`, auto-increment ids) are parameters.
- The PHP `DATE()` grouping is `timestamp / 86400`. The database time zone is not modelled.
- SQL plumbing is not modelled: `START TRANSACTION`/`COMMIT`/`ROLLBACK`, prepared statements, and the PHP error-catching path that returns 500.
- The Node handlers' 500 "Internal server error" answer is not modelled: no modelled store operation throws anything but the password error.
- Concurrency between requests is not modelled. Each operation is one atomic state transition.
- The React rendering, toasts, query invalidation and hooks are not modelled. The dialog keeps only its open flag, amount text and pending flag.
- Support tickets, `createUser` and the sample data seeded by the Node store are not modelled.
- The plugin's `login_user`, `get_user_data`, `get_user_devices` and `get_device_by_id` are left out. They are response views of rows this model already holds.
- The Node routes that list pool tables and withdrawals are left out. They return `GetPoolTablesByAccount` and `GetWithdrawalsByAccount` unchanged.
- `sanitize_text_field` and `esc_like` are not modelled. The search text is taken as already cleaned.
- Plugin.AccountTotal counts each balance row once when the account has a registration for its device. The SQL `JOIN` counts a row once per matching registration, so duplicate registrations are not modelled.
- Plugin.Candidates: `device_balances` is taken to hold one row per device. Rows are addressed by position, and an `UPDATE … WHERE device_id` touches only the visited row.
- Plugin.Candidates orders equal balances by row position. SQL leaves that order unspecified.
- Plugin.InsertedBalanceRow: a balance row inserted by `update_device_info` gives the columns not supplied the value 0. The column defaults are not part of the visible source.
- Plugin.LikeMatch: `LIKE` compares after ASCII lower-casing only. Collation rules beyond ASCII letters are not modelled.
- Routes.MatchesSearch: the case-insensitive match folds ASCII letters only, where JavaScript's `toLowerCase` folds every cased letter. A search for "élise" does not match a payer named "ÉLISE" in the model, though the server matches it.
- SearchTransactions: its contract holds for the ASCII-only folding of `Routes.MatchesSearch`, so for text with non-ASCII cased letters it promises less than the server does.
- Plugin.DeviceLedgerIsStable: `ORDER BY transaction_date DESC` fixes no order among rows with equal timestamps. The model keeps ledger order there, and the lemma is about that choice, not about the database.
- Plugin.FirstOwner: `LIMIT 1` without `ORDER BY` picks no particular registration. The model takes the first in registration order; its contract promises only some registration of the account.
- Storage.CreateWithdrawal never fails for an uncovered amount. The route checks the balance first, and the store itself does not check it again.
- WithdrawModal.HandleSubmit: the dialog's mutation passes only the account and the amount, and where a password would come from is not visible in the dialog. WithdrawModal.SentAmountPassesServerChecks assumes a password is sent; a body without one is answered 400 by the withdrawal schema (`Routes.ParseWithdraw`).

## Findings

| source | as written | input that shows it | evidently intended | confidence | as-written member | corrected member |
|---|---|---|---|---|---|---|
| PoolTableTracker-main/attached_assets/pooltable-api_1749385824034.php:341-359 | after the loop, `withdraw_funds` inserts one ledger row from the loop's last iteration: the last device, minus that device's deduction, and that device's new balance | devices of one account holding 300.00, 100.00 and 50.00; withdrawing 350.00 drains 300.00 and 50.00, and the ledger records only -50.00 with running balance 50.00 | the ledger records the whole withdrawal: its rows total -350.00, one row per device drawn on | not executed | Plugin.WithdrawFundsAsWritten (Plugin.LedgerRecordsLastStepOnly, Plugin.LedgerExample) | Plugin.WithdrawFunds (Plugin.WithdrawFundsLedger) |

Two behaviours of the code, modelled as written:

- The Node store records a withdrawal as "completed" even when the account's tables do not cover it. Only the route refuses such an amount.
- The withdrawal handler checks the account and the balance before the password. A wrong password is therefore reported only for a covered amount (`Routes.HandleWithdrawal`).
