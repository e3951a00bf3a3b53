/** The relational store behind the controllers: the tables `accounts`, `entries`
    and `transfers`, each a map from id to row, and the id sequence of each table.
    Every function below is the effect of one SQL statement that succeeds; a
    statement that fails is handled by its caller and changes nothing. */
module Tables {
  import opened Int64
  import opened Models

  datatype Store = Store(
    accounts: map<int, Account>,
    entries: map<int, Entry>,
    transfers: map<int, Transfer>,
    nextAccountId: int,
    nextEntryId: int,
    nextTransferId: int)
  {
    /** Every stored row sits under its own id, and every id the sequences
        handed out is positive and below the next one they will hand out. */
    ghost predicate Valid() {
      && 1 <= nextAccountId && 1 <= nextEntryId && 1 <= nextTransferId
      && (forall id :: id in accounts ==> 1 <= id < nextAccountId && accounts[id].id == id)
      && (forall id :: id in entries ==> 1 <= id < nextEntryId && entries[id].id == id)
      && (forall id :: id in transfers ==> 1 <= id < nextTransferId && transfers[id].id == id)
    }

    // ---- accounts -------------------------------------------------------

    /** `INSERT INTO accounts (owner, currency, balance) ... RETURNING *`. */
    function InsertAccount(owner: string, currency: string, balance: int64, now: int): (r: (Store, Account))
      requires Valid()
      ensures r.0.Valid()
      ensures r.1.id > 0 && r.1.id !in accounts
      ensures r.1.owner == owner && r.1.currency == currency && r.1.balance == balance && r.1.createdAt == now
      ensures r.0.accounts == accounts[r.1.id := r.1]
      ensures r.0.entries == entries && r.0.transfers == transfers
      ensures r.0.nextEntryId == nextEntryId && r.0.nextTransferId == nextTransferId
      ensures r.0.SelectAccount(r.1.id) == r.1
    {
      var row := Account(nextAccountId, owner, currency, balance, now);
      (this.(accounts := accounts[row.id := row], nextAccountId := nextAccountId + 1), row)
    }

    /** `SELECT * FROM accounts WHERE id = $1` read through a row cursor: the
        stored row, or the zero-valued account when there is none. */
    function SelectAccount(id: int): (a: Account)
      requires Valid()
      ensures id in accounts <==> a.id == id && id != 0
      ensures id in accounts ==> a == accounts[id]
      ensures id !in accounts ==> a == ZeroAccount
    {
      if id in accounts then accounts[id] else ZeroAccount
    }

    /** `UPDATE accounts SET balance = $1 WHERE id = $2 RETURNING *`: only the
        balance of that one row changes; a missing id updates nothing and
        yields the zero-valued account. */
    function SetBalance(id: int, balance: int64): (r: (Store, Account))
      requires Valid()
      ensures r.0.Valid()
      ensures id in accounts ==> r.1.balance == balance && r.1.(balance := accounts[id].balance) == accounts[id]
      ensures id in accounts ==> r.0.accounts == accounts[id := r.1]
      ensures id !in accounts ==> r.0 == this && r.1 == ZeroAccount
      ensures r.0.accounts.Keys == accounts.Keys
      ensures r.0.entries == entries && r.0.transfers == transfers
      ensures r.0.nextAccountId == nextAccountId && r.0.nextEntryId == nextEntryId
      ensures r.0.nextTransferId == nextTransferId
    {
      if id in accounts then
        var row := accounts[id].(balance := balance);
        (this.(accounts := accounts[id := row]), row)
      else
        (this, ZeroAccount)
    }

    /** `DELETE FROM accounts WHERE id = $1 RETURNING id`: the id of the removed
        row, or 0 when no row had that id. */
    function DeleteAccountRow(id: int): (r: (Store, int))
      requires Valid()
      ensures r.0.Valid()
      ensures r.0.accounts.Keys == accounts.Keys - {id}
      ensures forall k :: k in r.0.accounts ==> r.0.accounts[k] == accounts[k]
      ensures r.1 == (if id in accounts then id else 0)
      ensures r.0.entries == entries && r.0.transfers == transfers
      ensures r.0.nextAccountId == nextAccountId && r.0.nextEntryId == nextEntryId
      ensures r.0.nextTransferId == nextTransferId
    {
      (this.(accounts := accounts - {id}), if id in accounts then id else 0)
    }

    /** The ids of `accounts` in the order of `ORDER BY id`. */
    function AccountIds(): (ids: seq<int>)
      requires Valid()
      ensures forall i :: 0 <= i < |ids| ==> ids[i] in accounts
      ensures forall id :: id in accounts ==> id in ids
      ensures forall i, j :: 0 <= i < j < |ids| ==> ids[i] < ids[j]
    {
      OrderedIds(accounts.Keys, nextAccountId)
    }

    // ---- entries --------------------------------------------------------

    /** `INSERT INTO entries (account_id, amount) ... RETURNING *`. */
    function InsertEntry(accountId: int, amount: int64, now: int): (r: (Store, Entry))
      requires Valid()
      ensures r.0.Valid()
      ensures r.1.id > 0 && r.1.id !in entries
      ensures r.1.accountId == accountId && r.1.amount == amount && r.1.createdAt == now
      ensures r.0.entries == entries[r.1.id := r.1]
      ensures r.0.accounts == accounts && r.0.transfers == transfers
      ensures r.0.nextAccountId == nextAccountId && r.0.nextTransferId == nextTransferId
      ensures r.0.SelectEntry(r.1.id) == r.1
    {
      var row := Entry(nextEntryId, accountId, amount, now);
      (this.(entries := entries[row.id := row], nextEntryId := nextEntryId + 1), row)
    }

    /** `SELECT * FROM entries WHERE id = $1` through a row cursor. */
    function SelectEntry(id: int): (e: Entry)
      requires Valid()
      ensures id in entries <==> e.id == id && id != 0
      ensures id in entries ==> e == entries[id]
      ensures id !in entries ==> e == ZeroEntry
    {
      if id in entries then entries[id] else ZeroEntry
    }

    /** `UPDATE entries SET amount = $1 WHERE id = $2 RETURNING *`. */
    function SetAmount(id: int, amount: int64): (r: (Store, Entry))
      requires Valid()
      ensures r.0.Valid()
      ensures id in entries ==> r.1.amount == amount && r.1.(amount := entries[id].amount) == entries[id]
      ensures id in entries ==> r.0.entries == entries[id := r.1]
      ensures id !in entries ==> r.0 == this && r.1 == ZeroEntry
      ensures r.0.entries.Keys == entries.Keys
      ensures r.0.accounts == accounts && r.0.transfers == transfers
      ensures r.0.nextAccountId == nextAccountId && r.0.nextEntryId == nextEntryId
      ensures r.0.nextTransferId == nextTransferId
    {
      if id in entries then
        var row := entries[id].(amount := amount);
        (this.(entries := entries[id := row]), row)
      else
        (this, ZeroEntry)
    }

    /** `DELETE FROM entries WHERE id = $1 RETURNING id`. */
    function DeleteEntryRow(id: int): (r: (Store, int))
      requires Valid()
      ensures r.0.Valid()
      ensures r.0.entries.Keys == entries.Keys - {id}
      ensures forall k :: k in r.0.entries ==> r.0.entries[k] == entries[k]
      ensures r.1 == (if id in entries then id else 0)
      ensures r.0.accounts == accounts && r.0.transfers == transfers
      ensures r.0.nextAccountId == nextAccountId && r.0.nextEntryId == nextEntryId
      ensures r.0.nextTransferId == nextTransferId
    {
      (this.(entries := entries - {id}), if id in entries then id else 0)
    }

    /** The ids of `entries` in the order of `ORDER BY id`. */
    function EntryIds(): (ids: seq<int>)
      requires Valid()
      ensures forall i :: 0 <= i < |ids| ==> ids[i] in entries
      ensures forall id :: id in entries ==> id in ids
      ensures forall i, j :: 0 <= i < j < |ids| ==> ids[i] < ids[j]
    {
      OrderedIds(entries.Keys, nextEntryId)
    }

    // ---- transfers ------------------------------------------------------

    /** `INSERT INTO transfers (from_account_id, to_account_id, amount) ... RETURNING *`. */
    function InsertTransfer(fromAccountId: int, toAccountId: int, amount: int64, now: int): (r: (Store, Transfer))
      requires Valid()
      ensures r.0.Valid()
      ensures r.1.id > 0 && r.1.id !in transfers
      ensures r.1.fromAccountId == fromAccountId && r.1.toAccountId == toAccountId
      ensures r.1.amount == amount && r.1.createdAt == now
      ensures r.0.transfers == transfers[r.1.id := r.1]
      ensures r.0.accounts == accounts && r.0.entries == entries
      ensures r.0.nextAccountId == nextAccountId && r.0.nextEntryId == nextEntryId
      ensures r.0.SelectTransfer(r.1.id) == r.1
    {
      var row := Transfer(nextTransferId, fromAccountId, toAccountId, amount, now);
      (this.(transfers := transfers[row.id := row], nextTransferId := nextTransferId + 1), row)
    }

    /** `SELECT * FROM transfers WHERE id = $1` through a row cursor. */
    function SelectTransfer(id: int): (t: Transfer)
      requires Valid()
      ensures id in transfers <==> t.id == id && id != 0
      ensures id in transfers ==> t == transfers[id]
      ensures id !in transfers ==> t == ZeroTransfer
    {
      if id in transfers then transfers[id] else ZeroTransfer
    }
  }

  /** The table without rows whose id sequences start at 1. */
  const Empty: Store := Store(map[], map[], map[], 1, 1, 1)

  /** The ids of `keys` that lie in [1, hi), in ascending order: the order in
      which `ORDER BY id` returns the rows of a table. */
  function OrderedIds(keys: set<int>, hi: int): (ids: seq<int>)
    decreases hi
    ensures forall i :: 0 <= i < |ids| ==> ids[i] in keys && 1 <= ids[i] < hi
    ensures forall x :: x in keys && 1 <= x < hi ==> x in ids
    ensures forall i, j :: 0 <= i < j < |ids| ==> ids[i] < ids[j]
  {
    if hi <= 1 then [] else OrderedIds(keys, hi - 1) + (if hi - 1 in keys then [hi - 1] else [])
  }

  /** `LIMIT limit OFFSET offset` applied to an ordered result: skip the first
      `offset` rows, then return at most `limit` of the rest. */
  function Page(ids: seq<int>, limit: int, offset: int): (page: seq<int>)
    requires 0 <= limit && 0 <= offset
    ensures |page| <= limit
    ensures offset >= |ids| ==> page == []
    ensures offset < |ids| ==> |page| == (if limit <= |ids| - offset then limit else |ids| - offset)
    ensures forall i :: 0 <= i < |page| ==> offset + i < |ids| && page[i] == ids[offset + i]
  {
    if offset >= |ids| then []
    else ids[offset .. if limit <= |ids| - offset then offset + limit else |ids|]
  }

  /** Every id of a page is an id of the listing it came from, and the page
      keeps that listing's strictly ascending order. */
  lemma PageOfOrdered(ids: seq<int>, limit: int, offset: int)
    requires 0 <= limit && 0 <= offset
    requires forall i, j :: 0 <= i < j < |ids| ==> ids[i] < ids[j]
    ensures forall i :: 0 <= i < |Page(ids, limit, offset)| ==> Page(ids, limit, offset)[i] in ids
    ensures forall i, j :: 0 <= i < j < |Page(ids, limit, offset)| ==>
              Page(ids, limit, offset)[i] < Page(ids, limit, offset)[j]
  {
    var page := Page(ids, limit, offset);
    forall i, j | 0 <= i < j < |page| ensures page[i] < page[j] {
      assert page[i] == ids[offset + i] && page[j] == ids[offset + j];
    }
  }

  /** Consecutive pages of one listing never overlap and leave no gap:
      page n+1 starts where page n ends. */
  lemma {:induction false} PagesAreConsecutive(ids: seq<int>, size: int, n: nat)
    requires 0 < size
    ensures Page(ids, size, n * size) + Page(ids, size, (n + 1) * size)
            == Page(ids, 2 * size, n * size)
  {
    var lo := n * size;
    assert (n + 1) * size == lo + size;
    var a, b, c := Page(ids, size, lo), Page(ids, size, lo + size), Page(ids, 2 * size, lo);
    if lo >= |ids| {
    } else {
      assert |a + b| == |c|;
      forall i | 0 <= i < |c| ensures (a + b)[i] == c[i] {
        if i < |a| {
        } else {
          assert b[i - |a|] == ids[lo + size + (i - |a|)];
        }
      }
    }
  }
}
