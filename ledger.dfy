/** The database handle the controllers share: the three tables and their id
    sequences, updated in place by one method per controller function of
    pkg/controllers/account and pkg/controllers/entry, and by the transfer
    statements of pkg/controllers/transfer.

    `dbError` stands for the driver reporting an error for the statement
    (connection loss, a constraint of the schema, a lock timeout): the statement
    then has no effect, and the controller returns the zero-valued record and
    an error, as the `return &res, errors.Wrap(...)` paths do. */
module LedgerDb {
  import opened Int64
  import opened Models
  import opened Tables

  /** The `for rows.Next() { ... res = append(res, row) }` loop of a listing
      query: one row of `table` per id of the cursor, in cursor order. */
  method ScanRows<R>(table: map<int, R>, cursor: seq<int>) returns (rows: seq<R>)
    requires forall k :: 0 <= k < |cursor| ==> cursor[k] in table
    ensures |rows| == |cursor|
    ensures forall k :: 0 <= k < |rows| ==> rows[k] == table[cursor[k]]
  {
    rows := [];
    var n := 0;
    while n < |cursor|
      invariant 0 <= n <= |cursor|
      invariant |rows| == n
      invariant forall k :: 0 <= k < n ==> rows[k] == table[cursor[k]]
    {
      rows := rows + [table[cursor[n]]];
      n := n + 1;
    }
  }

  class Ledger {
    var accounts: map<int, Account>
    var entries: map<int, Entry>
    var transfers: map<int, Transfer>
    var nextAccountId: int
    var nextEntryId: int
    var nextTransferId: int

    /** The tables as a value. */
    function State(): Store
      reads this
    {
      Store(accounts, entries, transfers, nextAccountId, nextEntryId, nextTransferId)
    }

    ghost predicate Valid()
      reads this
    {
      State().Valid()
    }

    constructor ()
      ensures Valid() && State() == Empty
    {
      accounts, entries, transfers := map[], map[], map[];
      nextAccountId, nextEntryId, nextTransferId := 1, 1, 1;
    }

    // ---- pkg/controllers/account ----------------------------------------

    /** CreateAccount: a fresh row with the given owner, currency and balance. */
    method CreateAccount(owner: string, currency: string, balance: int64, now: int, dbError: bool)
      returns (res: Account, err: bool)
      requires Valid()
      modifies this
      ensures Valid()
      ensures err == dbError
      ensures dbError ==> res == ZeroAccount && State() == old(State())
      ensures !dbError ==> (State(), res) == old(State()).InsertAccount(owner, currency, balance, now)
    {
      if dbError {
        return ZeroAccount, true;
      }
      res := Account(nextAccountId, owner, currency, balance, now);
      accounts := accounts[res.id := res];
      nextAccountId := nextAccountId + 1;
      err := false;
    }

    /** GetAccountByID: a single-row query whose scan reports "no rows" as an
        error, so a missing id is an error here. */
    method GetAccountByID(id: int, dbError: bool) returns (res: Account, err: bool)
      ensures err <==> dbError || id !in accounts
      ensures !err ==> res == accounts[id]
      ensures err ==> res == ZeroAccount
    {
      if dbError || id !in accounts {
        return ZeroAccount, true;
      }
      res, err := accounts[id], false;
    }

    /** GetAccountByIDForUpdate, read without its row lock: a cursor query, so a
        missing id yields the zero-valued account and no error. */
    method GetAccountByIDForUpdate(id: int, dbError: bool) returns (res: Account, err: bool)
      ensures err == dbError
      ensures !dbError && id in accounts ==> res == accounts[id]
      ensures dbError || id !in accounts ==> res == ZeroAccount
    {
      res, err := ZeroAccount, dbError;
      if !dbError && id in accounts {
        res := accounts[id];
      }
    }

    /** GetAccountAll: `ORDER BY id LIMIT limit OFFSET offset`, the rows the
        cursor yields appended one by one. The database refuses a negative
        LIMIT or OFFSET. */
    method GetAccountAll(limit: int, offset: int, dbError: bool) returns (res: seq<Account>, err: bool)
      requires Valid()
      ensures err <==> dbError || limit < 0 || offset < 0
      ensures err ==> res == []
      ensures !err ==>
        var page := Page(State().AccountIds(), limit, offset);
        |res| == |page| && forall k :: 0 <= k < |res| ==> page[k] in accounts && res[k] == accounts[page[k]]
      ensures !err ==> |res| <= limit
      ensures forall k :: 0 <= k < |res| ==> res[k].id in accounts && accounts[res[k].id] == res[k]
      ensures forall i, j :: 0 <= i < j < |res| ==> res[i].id < res[j].id
    {
      if dbError || limit < 0 || offset < 0 {
        return [], true;
      }
      var ids := State().AccountIds();
      var cursor := Page(ids, limit, offset);
      PageOfOrdered(ids, limit, offset);
      res := ScanRows(accounts, cursor);
      err := false;
    }

    /** UpdateAccount: sets the balance of one row; a missing id changes
        nothing and yields the zero-valued account without an error. */
    method UpdateAccount(id: int, balance: int64, dbError: bool) returns (res: Account, err: bool)
      requires Valid()
      modifies this
      ensures Valid()
      ensures err == dbError
      ensures dbError ==> res == ZeroAccount && State() == old(State())
      ensures !dbError ==> (State(), res) == old(State()).SetBalance(id, balance)
    {
      if dbError {
        return ZeroAccount, true;
      }
      res, err := ZeroAccount, false;
      if id in accounts {
        res := accounts[id].(balance := balance);
        accounts := accounts[id := res];
      }
    }

    /** DeleteAccout (so spelled in the source): removes the row and returns its
        id, or 0 when there was no such row. */
    method DeleteAccount(id: int, dbError: bool) returns (res: int, err: bool)
      requires Valid()
      modifies this
      ensures Valid()
      ensures err == dbError
      ensures dbError ==> res == 0 && State() == old(State())
      ensures !dbError ==> (State(), res) == old(State()).DeleteAccountRow(id)
    {
      if dbError {
        return 0, true;
      }
      res := if id in accounts then id else 0;
      accounts := accounts - {id};
      err := false;
    }

    // ---- pkg/controllers/entry ------------------------------------------

    /** CreateEntry: a fresh entry; no account balance is touched. */
    method CreateEntry(accountId: int, amount: int64, now: int, dbError: bool) returns (res: Entry, err: bool)
      requires Valid()
      modifies this
      ensures Valid()
      ensures err == dbError
      ensures dbError ==> res == ZeroEntry && State() == old(State())
      ensures !dbError ==> (State(), res) == old(State()).InsertEntry(accountId, amount, now)
    {
      if dbError {
        return ZeroEntry, true;
      }
      res := Entry(nextEntryId, accountId, amount, now);
      entries := entries[res.id := res];
      nextEntryId := nextEntryId + 1;
      err := false;
    }

    /** GetEntryByID: a cursor query, so a missing id yields the zero-valued
        entry and no error. */
    method GetEntryByID(id: int, dbError: bool) returns (res: Entry, err: bool)
      ensures err == dbError
      ensures !dbError && id in entries ==> res == entries[id]
      ensures dbError || id !in entries ==> res == ZeroEntry
    {
      res, err := ZeroEntry, dbError;
      if !dbError && id in entries {
        res := entries[id];
      }
    }

    /** GetEntryAll: `ORDER BY id LIMIT limit OFFSET offset` over entries. */
    method GetEntryAll(limit: int, offset: int, dbError: bool) returns (res: seq<Entry>, err: bool)
      requires Valid()
      ensures err <==> dbError || limit < 0 || offset < 0
      ensures err ==> res == []
      ensures !err ==>
        var page := Page(State().EntryIds(), limit, offset);
        |res| == |page| && forall k :: 0 <= k < |res| ==> page[k] in entries && res[k] == entries[page[k]]
      ensures !err ==> |res| <= limit
      ensures forall k :: 0 <= k < |res| ==> res[k].id in entries && entries[res[k].id] == res[k]
      ensures forall i, j :: 0 <= i < j < |res| ==> res[i].id < res[j].id
    {
      if dbError || limit < 0 || offset < 0 {
        return [], true;
      }
      var ids := State().EntryIds();
      var cursor := Page(ids, limit, offset);
      PageOfOrdered(ids, limit, offset);
      res := ScanRows(entries, cursor);
      err := false;
    }

    /** UpdateEntry: sets the amount of one entry; a missing id changes nothing
        and yields the zero-valued entry without an error. */
    method UpdateEntry(id: int, amount: int64, dbError: bool) returns (res: Entry, err: bool)
      requires Valid()
      modifies this
      ensures Valid()
      ensures err == dbError
      ensures dbError ==> res == ZeroEntry && State() == old(State())
      ensures !dbError ==> (State(), res) == old(State()).SetAmount(id, amount)
    {
      if dbError {
        return ZeroEntry, true;
      }
      res, err := ZeroEntry, false;
      if id in entries {
        res := entries[id].(amount := amount);
        entries := entries[id := res];
      }
    }

    /** DeleteEntry: removes the entry and returns its id, or 0 without an
        error when there was none (its "no rows" branch cannot be reached). */
    method DeleteEntry(id: int, dbError: bool) returns (res: int, err: bool)
      requires Valid()
      modifies this
      ensures Valid()
      ensures err == dbError
      ensures dbError ==> res == 0 && State() == old(State())
      ensures !dbError ==> (State(), res) == old(State()).DeleteEntryRow(id)
    {
      if dbError {
        return 0, true;
      }
      res := if id in entries then id else 0;
      entries := entries - {id};
      err := false;
    }

    // ---- pkg/controllers/transfer ---------------------------------------

    /** CreateTransfer: a fresh transfer row with the given from, to and amount. */
    method CreateTransfer(fromAccountId: int, toAccountId: int, amount: int64, now: int, dbError: bool)
      returns (res: Transfer, err: bool)
      requires Valid()
      modifies this
      ensures Valid()
      ensures err == dbError
      ensures dbError ==> res == ZeroTransfer && State() == old(State())
      ensures !dbError ==> (State(), res) == old(State()).InsertTransfer(fromAccountId, toAccountId, amount, now)
    {
      if dbError {
        return ZeroTransfer, true;
      }
      res := Transfer(nextTransferId, fromAccountId, toAccountId, amount, now);
      transfers := transfers[res.id := res];
      nextTransferId := nextTransferId + 1;
      err := false;
    }

    /** GetTransferByID: a cursor query, so a missing id yields the zero-valued
        transfer and no error. */
    method GetTransferByID(id: int, dbError: bool) returns (res: Transfer, err: bool)
      ensures err == dbError
      ensures !dbError && id in transfers ==> res == transfers[id]
      ensures dbError || id !in transfers ==> res == ZeroTransfer
    {
      res, err := ZeroTransfer, dbError;
      if !dbError && id in transfers {
        res := transfers[id];
      }
    }
  }
}
