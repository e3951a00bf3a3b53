# simplebank ledger, modelled in Dafny

This project models the ledger behind the simplebank service. The ledger has three tables, `accounts`, `entries` and `transfers`, each reached through one controller package. The routine `TransferTx` composes statements on those tables to move money from one account to another.

## Structure

- `int64.dfy` (module `Int64`) holds Go's `int64` and its wrap-around `+`, `-` and unary `-`.
  - Balances and amounts are Go `int64` values. The code never checks for overflow, so the model writes the wrap-around out explicitly.
- `models.dfy` (module `Models`) holds the row records `Account`, `Entry` and `Transfer`, and the zero-valued records a controller returns when its query yields no row.
- `tables.dfy` (module `Tables`) holds the value `Store`: the three tables as maps from id to row, plus the id sequence of each table.
  - Each SQL statement is one function on a `Store`, giving the new tables and what `RETURNING` yields.
  - `ORDER BY id LIMIT … OFFSET …` is the pair `OrderedIds` / `Page`.
- `ledger.dfy` (module `LedgerDb`) holds the class `Ledger`, the shared `*sqlx.DB` handle.
  - Its fields are the three maps and the three id counters.
  - It has one method per controller function, each proved to have exactly the effect of its statement's `Store` function.
  - The listing functions fill their result in a row loop (`ScanRows`).
- `transfer.dfy` (module `Transfer`) holds `TransferTx` and what it guarantees.
  - `TransferTx` is the method over a `Ledger`. It issues the seven statements in order and returns at the first error.
  - `TransferTxSpec` is the same sequence as a function on `Store`.
  - The lemmas state what a successful transfer and a failing transfer do.
- `locking.dfy` (module `Locking`) holds the package-level `mutex` of `TransferTx`, for calls taken one after another.
  - It models `TransferTx` as written, which leaves the mutex held after a failing balance step.
  - It also models the corrected `TransferTx`, which releases the mutex on every return. The rest of the model follows this corrected behaviour.

### How the code's behaviour is modelled

The model follows what the code does, including where its names promise more (a transaction, argument checks):

- **Failures.** A database failure of a statement is an explicit input, `dbError`. For `TransferTx` it is `failAt`, the statement the database rejects.
  - A rejected statement has no effect.
  - The controller then returns its zero-valued record together with an error.
- **Missing rows are not errors.** Every controller that reads its result through a row cursor returns the zero-valued record and no error when no row matches. This covers `GetAccountByIDForUpdate`, `UpdateAccount`, `DeleteAccout`, `GetEntryByID`, `UpdateEntry`, `DeleteEntry` and `GetTransferByID`.
  - Only `GetAccountByID` reports a missing row as an error. It scans a single-row query, and that scan reports "no rows".
- **No argument checks.** `TransferTx` never rejects:
  - a from-account equal to the to-account,
  - a missing account,
  - an amount of either sign,
  - a balance that goes negative.
- **No rollback.** Every statement of `TransferTx` runs on the shared handle, not on the transaction that `execTx` opens. A failing statement stops the ones after it but undoes none before it.
- **The to-account is re-read.** It is read after the from-account has been rewritten. A transfer from an account to itself therefore debits it and then credits it back.

## Model

| member | source | states |
|---|---|---|
| `Int64.Wrap` | pkg/models/models.go:10 | The int64 that Go yields for a mathematical value: congruent to it modulo 2^64, and equal to it whenever it is in range. |
| `Int64.Add` | pkg/controllers/transfer/transferController.go:98 | Go's `+` on int64: exact when there is no overflow, otherwise wrapped modulo 2^64. |
| `Int64.Sub` | pkg/controllers/transfer/transferController.go:86 | Go's `-` on int64: exact when there is no overflow, otherwise wrapped modulo 2^64. |
| `Int64.Neg` | pkg/controllers/transfer/transferController.go:64 | Go's unary `-`: the negation of every int64 except the minimum, which it leaves unchanged. |
| `Int64.SubThenAdd` | pkg/controllers/transfer/transferController.go:84-99 | Taking `amount` off a balance and then adding it back restores the balance, overflow or not. |
| `Int64.SubSub` | pkg/controllers/transfer/transferController.go:84-87 | The decrease of the debited balance, `old - (old - amount)`, is exactly `amount` in int64 arithmetic. |
| `Int64.AddSub` | pkg/controllers/transfer/transferController.go:96-99 | The increase of the credited balance, `(old + amount) - old`, is exactly `amount` in int64 arithmetic. |
| `Tables.Store.InsertAccount` | pkg/controllers/account/accountController.go:32-54 | The new row has a fresh nonzero id and the given owner, currency, balance and timestamp. It is added and nothing else changes. Reading that id back gives the row. The table invariant is kept. |
| `Tables.Store.SelectAccount` | pkg/controllers/account/accountController.go:71-92 | The stored row when the id is present; otherwise the zero-valued account, whose id differs from any requested nonzero id. |
| `Tables.Store.SetBalance` | pkg/controllers/account/accountController.go:120-142 | Only the balance of that one row changes; id, owner, currency and timestamp are kept, and other rows and tables are untouched. A missing id changes nothing and yields the zero-valued account. |
| `Tables.Store.DeleteAccountRow` | pkg/controllers/account/accountController.go:144-166 | Exactly the row with that id leaves the table; the remaining rows are unchanged. It returns the id, or 0 when no row had it. |
| `Tables.Store.AccountIds` | pkg/controllers/account/accountController.go:95 | Lists exactly the stored account ids, in strictly ascending order. |
| `Tables.Store.InsertEntry` | pkg/controllers/entry/entryController.go:31-53 | The new entry has a fresh nonzero id and the given account id, amount and timestamp. It is added, and the accounts table, including every balance, is unchanged. |
| `Tables.Store.SelectEntry` | pkg/controllers/entry/entryController.go:55-76 | The stored entry when the id is present; otherwise the zero-valued entry. |
| `Tables.Store.SetAmount` | pkg/controllers/entry/entryController.go:104-126 | Only the amount of the matching entry changes; other fields and rows are unchanged. A missing id changes nothing and yields the zero-valued entry. |
| `Tables.Store.DeleteEntryRow` | pkg/controllers/entry/entryController.go:128-150 | Exactly that entry leaves the table and the rest are unchanged. It returns the id, or 0 when there was no such entry. |
| `Tables.Store.EntryIds` | pkg/controllers/entry/entryController.go:79 | Lists exactly the stored entry ids, in strictly ascending order. |
| `Tables.Store.InsertTransfer` | pkg/controllers/transfer/transferController.go:114-136 | The new transfer has a fresh nonzero id and the given from, to, amount and timestamp. It is added, and the other tables are unchanged. Reading that id back gives the row. |
| `Tables.Store.SelectTransfer` | pkg/controllers/transfer/transferController.go:138-159 | The stored transfer when the id is present; otherwise the zero-valued transfer. |
| `Tables.OrderedIds` | pkg/controllers/account/accountController.go:95 | `ORDER BY id`: every id below the bound that is in the key set appears, nothing else appears, and the ids strictly ascend. |
| `Tables.Page` | pkg/controllers/account/accountController.go:95 | `LIMIT l OFFSET o`: at most `l` ids; none when the offset is past the end; otherwise exactly `min(l, n - o)` ids, the i-th being the listing's `o + i`-th. |
| `Tables.PageOfOrdered` | pkg/controllers/account/accountController.go:94-117 | Every id of a page comes from the listing, and the page keeps its strictly ascending order. |
| `Tables.PagesAreConsecutive` | api/account.go:74-77 | Pages of one size at offsets `n * size` and `(n + 1) * size` join into the page of twice that size at `n * size`: consecutive pages neither overlap nor leave a gap. |
| `LedgerDb.ScanRows` | pkg/controllers/account/accountController.go:107-115 | The `rows.Next()` loop appends one row per id, in cursor order: the result has the cursor's length and its k-th row is the stored row of the k-th id. |
| `LedgerDb.Ledger.CreateAccount` | pkg/controllers/account/accountController.go:32-54 | On success, the tables and the returned row are exactly `InsertAccount`'s. On a database error, nothing changes and the zero-valued account is returned with the error. |
| `LedgerDb.Ledger.GetAccountByID` | pkg/controllers/account/accountController.go:56-69 | An error exactly when the database fails or the id is missing. Otherwise it returns the stored row, so a row just created reads back equal. |
| `LedgerDb.Ledger.GetAccountByIDForUpdate` | pkg/controllers/account/accountController.go:71-92 | The stored row when present. The zero-valued account and no error when absent. An error only when the database fails. |
| `LedgerDb.Ledger.GetAccountAll` | pkg/controllers/account/accountController.go:94-118 | An error exactly on a database failure or a negative limit or offset. Otherwise it returns the stored rows of `Page(AccountIds, limit, offset)`, in order: at most `limit` rows, ascending by id, each one a stored row. |
| `LedgerDb.Ledger.UpdateAccount` | pkg/controllers/account/accountController.go:120-142 | On success, the tables and the returned row are exactly `SetBalance`'s. On a database error, nothing changes. |
| `LedgerDb.Ledger.DeleteAccount` | pkg/controllers/account/accountController.go:144-166 | On success, the tables and the returned id are exactly `DeleteAccountRow`'s. On a database error, nothing changes and 0 is returned. |
| `LedgerDb.Ledger.CreateEntry` | pkg/controllers/entry/entryController.go:31-53 | On success, the tables and the returned entry are exactly `InsertEntry`'s, so no balance changes. On a database error, nothing changes. |
| `LedgerDb.Ledger.GetEntryByID` | pkg/controllers/entry/entryController.go:55-76 | The stored entry, unchanged, when present. The zero-valued entry and no error when absent. |
| `LedgerDb.Ledger.GetEntryAll` | pkg/controllers/entry/entryController.go:78-102 | An error exactly on a database failure or a negative limit or offset. Otherwise it returns the stored entries of `Page(EntryIds, limit, offset)`, in order: at most `limit`, ascending by id. |
| `LedgerDb.Ledger.UpdateEntry` | pkg/controllers/entry/entryController.go:104-126 | On success, the tables and the returned entry are exactly `SetAmount`'s. On a database error, nothing changes. |
| `LedgerDb.Ledger.DeleteEntry` | pkg/controllers/entry/entryController.go:128-150 | On success, the tables and the returned id are exactly `DeleteEntryRow`'s, so a missing id gives 0 and no error. On a database error, nothing changes. |
| `LedgerDb.Ledger.CreateTransfer` | pkg/controllers/transfer/transferController.go:114-136 | On success, the tables and the returned transfer are exactly `InsertTransfer`'s. On a database error, nothing changes. |
| `LedgerDb.Ledger.GetTransferByID` | pkg/controllers/transfer/transferController.go:138-159 | The stored transfer when present. The zero-valued transfer and no error when absent. |
| `Transfer.TransferTxSpec` | pkg/controllers/transfer/transferController.go:51-112 | An error exactly when some statement fails. In every case: the set of accounts is kept, every account other than from and to is unchanged, every earlier entry and transfer is kept, and the table invariant holds. |
| `Transfer.BalanceSteps` | pkg/controllers/transfer/transferController.go:79-103 | The balance steps fail exactly when a statement from the first re-read on fails. They touch no entry or transfer, no account other than from and to, and no earlier result field. |
| `Transfer.TransferTx` | pkg/controllers/transfer/transferController.go:51-112 | Issuing the statements one by one on the shared `Ledger`, returning at the first error, leaves exactly the tables, result and error of `TransferTxSpec`. |
| `Transfer.TransferAddsOneTransfer` | pkg/controllers/transfer/transferController.go:57 | With no failure there is no error, whatever the arguments. Exactly one transfer row is added: it carries the arguments and a fresh nonzero id, and `GetTransferByID` finds it. |
| `Transfer.TransferAddsTwoEntries` | pkg/controllers/transfer/transferController.go:62-75 | Exactly two entries are added, with fresh distinct nonzero ids: the from-account's with `-amount` and the to-account's with `amount`. Their int64 sum is 0, and both read back. |
| `Transfer.TransferMovesBalances` | pkg/controllers/transfer/transferController.go:80-99 | For distinct stored accounts, the from-row becomes its old row with balance `old - amount`, and the to-row its old row with balance `old + amount`. The returned snapshots are those rows, and the decrease equals the increase equals `amount`. |
| `Transfer.OverdraftIsAccepted` | pkg/controllers/transfer/transferController.go:80-90 | A transfer of more than the from-balance succeeds and leaves that balance negative. |
| `Transfer.SelfTransferKeepsBalance` | pkg/controllers/transfer/transferController.go:80-99 | When from equals to, the call succeeds and the accounts table ends as it began. The from-snapshot shows the debited balance and the to-snapshot the restored one. |
| `Transfer.MissingFromAccountIsNoError` | pkg/controllers/transfer/transferController.go:80-90 | When no statement is rejected (foreign keys of the schema are left out), a missing from-account is no error: the result reports the zero-valued account, no account row appears, and the to-account is still credited. |
| `Transfer.FailureKeepsEarlierWrites` | pkg/controllers/transfer/transferController.go:54-106 | A failure at step k returns an error and keeps exactly the writes of the steps before k, as a successful call would have made them. No later step's write is there. |
| `Transfer.TransferRepeatedly` | pkg/controllers/tests/transfers_test.go:98-104 | After n successful transfers of `amount` from A to B, A holds `initial - n * amount` and B holds `initial + n * amount`, taken as int64: no update is lost. |
| `Locking.AfterInserts` | pkg/controllers/transfer/transferController.go:57-79 | The tables as TransferTx reaches `mutex.Lock()`: the transfer and the entries of a successful call are there, and the accounts are untouched. |
| `Locking.TransferTxAsWritten` | pkg/controllers/transfer/transferController.go:51-112 | TransferTx with the mutex as written. It blocks exactly when the mutex is held and no insert failed. A call that returns has `TransferTxSpec`'s outcome. From a free mutex, the mutex ends held exactly when a balance step failed, and a held mutex stays held. |
| `Locking.TransferTxCorrected` | pkg/controllers/transfer/transferController.go:79-103 | TransferTx with the unlock deferred: the same outcomes as `TransferTxSpec`, and a free mutex stays free whatever fails. |
| `Locking.FailureThenTransferBlocks` | pkg/controllers/transfer/transferController.go:79-103 | After a failing balance step, the mutex is left held. The next call, with nothing failing, writes its transfer and entries, leaves the balances alone and never returns. |
| `Locking.RunCorrected` | pkg/controllers/transfer/transferController.go:51-112 | A sequence of calls with the corrected TransferTx: one ending per call, and the table invariant kept. |
| `Locking.CorrectedCallsAllReturn` | pkg/controllers/transfer/transferController.go:79-103 | With the corrected unlock, every call of any sequence returns, and the mutex ends free. |
| `Transfer.OneMoreTransfer` | pkg/controllers/transfer/transferController.go:84-99 | One more transfer moves both running totals on by exactly `amount`, in int64 arithmetic. |

## Findings

| source | as written | input that shows it | evidently intended | confidence | as-written member | corrected member |
|---|---|---|---|---|---|---|
| pkg/controllers/transfer/transferController.go:79-103 | `mutex.Lock()` at :79 is released only by the `mutex.Unlock()` at :103. The error returns at :82, :89, :94 and :101 skip it and leave the mutex held. | A TransferTx whose re-read of the from-account fails, followed by any TransferTx. The second call writes its transfer and two entries, then waits at :79 forever. | The mutex is released on every return (`defer mutex.Unlock()`). | high; not executed | `Locking.FailureThenTransferBlocks` | `Locking.CorrectedCallsAllReturn` |

## Left out

- The `sync.Mutex` is modelled only in `Locking`, for calls taken one after another. A failing balance step leaves it held, and every later `TransferTx` then writes its transfer and two entries and blocks forever at the lock (see Findings). `TransferTx`, `TransferTxSpec` and `TransferRepeatedly` follow the corrected behaviour and let later calls complete. Mutual exclusion between concurrent callers is not modelled.
- The `FOR UPDATE` row lock of `GetAccountByIDForUpdate` is left out. The read is modelled as a plain read.
- Concurrent callers are left out. The goroutines of the transfer test become the sequential loop of `TransferRepeatedly`.
- `execTx`'s begin, commit and rollback are left out. They are driver behaviour, and no statement of `TransferTx` runs on that transaction.
- The transaction handle's own failures at begin or commit are left out. A failure of `BeginTx` or `Commit` would make `TransferTx` return an error, and the model has no input for it.
- Logging (`log.Println` in `DeleteAccout`, `UpdateEntry` and `DeleteEntry`) is left out. It writes to the process log and changes no table or result.
- Driver mechanics are left out: error-wrapping strings, the `sql.ErrNoRows` comparisons and row scanning beyond its result. Only the error flag and the result are modelled.
- The `sql.ErrNoRows` branches after `QueryContext` cannot be taken, so the model has no such branch. `QueryContext` never returns that error, and this includes the branch in `DeleteEntry` that would have reported a missing entry.
- A scan error after a statement has already written is left out. The model treats a failing statement as having no effect.
- Foreign keys and other constraints of the schema are left out, since the schema is not part of this model. A statement they would reject appears only as a generic database failure (`dbError`).
- Timestamps are left out as wall-clock values. `createdAt` is the opaque parameter `now`, stamped on insert and never changed. All three inserts of one transfer receive the same `now`.
- Ids are kept as unbounded integers. Exhaustion of the `int64` id sequences is not modelled.
- The `int32` limit and offset of the listing parameters are kept as unbounded integers. A negative value is an error, as the database refuses it.
- The HTTP layer (`api/`) is not part of this model, apart from its page-to-offset arithmetic, which `PagesAreConsecutive` is about. Server startup and connection (`main.go`, `pkg/connection`) and random test data (`pkg/util/random.go`) are not part of this model either. They are routing, I/O and clock-seeded randomness.
- The `Limit` and `Offset` fields of `models.Account` are not modelled; no code reads them.
