/** TransferTx (pkg/controllers/transfer/transferController.go): insert a
    transfer, insert a debit and a credit entry, then re-read and rewrite the
    balance of the from-account and of the to-account. Every statement goes to
    the shared database handle rather than to the transaction that execTx
    opens, so a failing statement stops the remaining ones but undoes nothing.
    Nothing checks the arguments: the accounts may coincide or be missing, the
    amount may have any sign, and a balance may go negative. */
module Transfer {
  import opened Int64
  import opened Models
  import opened Tables
  import opened LedgerDb

  datatype Option<T> = None | Some(value: T)

  datatype TransferTxParams = TransferTxParams(fromAccountId: int, toAccountId: int, amount: int64)

  /** TransferTxResult: each field is nil (None) until its step assigns it. */
  datatype TransferTxResult = TransferTxResult(
    transfer: Option<Transfer>,
    fromAccount: Option<Account>,
    toAccount: Option<Account>,
    entryFrom: Option<Entry>,
    entryTo: Option<Entry>)

  const NoResult: TransferTxResult := TransferTxResult(None, None, None, None, None)

  /** The statements TransferTx issues, in the order it issues them. */
  datatype Step =
    | InsertTransferRow | InsertFromEntry | InsertToEntry
    | ReadFromAccount | UpdateFromAccount | ReadToAccount | UpdateToAccount
  {
    function Index(): (i: nat)
      ensures 1 <= i <= 7
    {
      match this
      case InsertTransferRow => 1
      case InsertFromEntry => 2
      case InsertToEntry => 3
      case ReadFromAccount => 4
      case UpdateFromAccount => 5
      case ReadToAccount => 6
      case UpdateToAccount => 7
    }
  }

  /** The tables after the call, what the call returns, and whether it returned an error. */
  datatype TxOutcome = TxOutcome(store: Store, result: TransferTxResult, failed: bool)

  /** TransferTx on the tables `s` when the statement `failAt` (if any) is the
      one the database rejects. */
  function TransferTxSpec(s: Store, args: TransferTxParams, now: int, failAt: Option<Step>): (o: TxOutcome)
    requires s.Valid()
    ensures o.store.Valid()
    ensures o.failed <==> failAt.Some?
    ensures o.store.accounts.Keys == s.accounts.Keys
    ensures forall id :: id in s.accounts && id != args.fromAccountId && id != args.toAccountId ==>
              o.store.accounts[id] == s.accounts[id]
    ensures forall id :: id in s.entries ==> id in o.store.entries && o.store.entries[id] == s.entries[id]
    ensures forall id :: id in s.transfers ==> id in o.store.transfers && o.store.transfers[id] == s.transfers[id]
  {
    if failAt == Some(InsertTransferRow) then
      TxOutcome(s, NoResult.(transfer := Some(ZeroTransfer)), true)
    else
      var (s1, t) := s.InsertTransfer(args.fromAccountId, args.toAccountId, args.amount, now);
      var r1 := NoResult.(transfer := Some(t));
      if failAt == Some(InsertFromEntry) then
        TxOutcome(s1, r1.(entryFrom := Some(ZeroEntry)), true)
      else
        var (s2, e1) := s1.InsertEntry(args.fromAccountId, Neg(args.amount), now);
        var r2 := r1.(entryFrom := Some(e1));
        if failAt == Some(InsertToEntry) then
          TxOutcome(s2, r2.(entryTo := Some(ZeroEntry)), true)
        else
          var (s3, e2) := s2.InsertEntry(args.toAccountId, args.amount, now);
          BalanceSteps(s3, r2.(entryTo := Some(e2)), args, failAt)
  }

  /** The read-and-rewrite of the two balances, the part of TransferTx that the
      source runs under its mutex. */
  function BalanceSteps(s: Store, r: TransferTxResult, args: TransferTxParams, failAt: Option<Step>): (o: TxOutcome)
    requires s.Valid()
    ensures o.store.Valid()
    ensures o.failed <==> failAt.Some? && failAt.value.Index() >= 4
    ensures o.store.entries == s.entries && o.store.transfers == s.transfers
    ensures o.store.accounts.Keys == s.accounts.Keys
    ensures forall id :: id in s.accounts && id != args.fromAccountId && id != args.toAccountId ==>
              o.store.accounts[id] == s.accounts[id]
    ensures o.result.transfer == r.transfer && o.result.entryFrom == r.entryFrom && o.result.entryTo == r.entryTo
  {
    if failAt == Some(ReadFromAccount) then
      TxOutcome(s, r, true)
    else
      var account1 := s.SelectAccount(args.fromAccountId);
      if failAt == Some(UpdateFromAccount) then
        TxOutcome(s, r.(fromAccount := Some(ZeroAccount)), true)
      else
        var (s1, a1) := s.SetBalance(args.fromAccountId, Sub(account1.balance, args.amount));
        var r1 := r.(fromAccount := Some(a1));
        if failAt == Some(ReadToAccount) then
          TxOutcome(s1, r1, true)
        else
          var account2 := s1.SelectAccount(args.toAccountId);
          if failAt == Some(UpdateToAccount) then
            TxOutcome(s1, r1.(toAccount := Some(ZeroAccount)), true)
          else
            var (s2, a2) := s1.SetBalance(args.toAccountId, Add(account2.balance, args.amount));
            TxOutcome(s2, r1.(toAccount := Some(a2)), false)
  }

  /** TransferTx, statement by statement, on the shared handle `db`. */
  method TransferTx(db: Ledger, args: TransferTxParams, now: int, failAt: Option<Step>)
    returns (result: TransferTxResult, failed: bool)
    requires db.Valid()
    modifies db
    ensures db.Valid()
    ensures TxOutcome(db.State(), result, failed) == TransferTxSpec(old(db.State()), args, now, failAt)
  {
    result := NoResult;
    var transfer, err := db.CreateTransfer(args.fromAccountId, args.toAccountId, args.amount, now,
                                           failAt == Some(InsertTransferRow));
    result := result.(transfer := Some(transfer));
    if err {
      return result, true;
    }

    var entryFrom, entryTo;
    entryFrom, err := db.CreateEntry(args.fromAccountId, Neg(args.amount), now, failAt == Some(InsertFromEntry));
    result := result.(entryFrom := Some(entryFrom));
    if err {
      return result, true;
    }
    entryTo, err := db.CreateEntry(args.toAccountId, args.amount, now, failAt == Some(InsertToEntry));
    result := result.(entryTo := Some(entryTo));
    if err {
      return result, true;
    }
    ghost var afterInserts := db.State();
    ghost var resultAfterInserts := result;

    var account1, fromAccount;
    account1, err := db.GetAccountByIDForUpdate(args.fromAccountId, failAt == Some(ReadFromAccount));
    if err {
      return result, true;
    }
    fromAccount, err := db.UpdateAccount(args.fromAccountId, Sub(account1.balance, args.amount),
                                         failAt == Some(UpdateFromAccount));
    result := result.(fromAccount := Some(fromAccount));
    if err {
      return result, true;
    }

    var account2, toAccount;
    account2, err := db.GetAccountByIDForUpdate(args.toAccountId, failAt == Some(ReadToAccount));
    if err {
      return result, true;
    }
    toAccount, err := db.UpdateAccount(args.toAccountId, Add(account2.balance, args.amount),
                                       failAt == Some(UpdateToAccount));
    result := result.(toAccount := Some(toAccount));
    if err {
      return result, true;
    }
    failed := false;
    assert TxOutcome(db.State(), result, failed) == BalanceSteps(afterInserts, resultAfterInserts, args, failAt);
  }

  // ---- what a successful transfer does ------------------------------------

  /** With no statement failing, TransferTx returns no error whatever its
      arguments, and adds exactly one transfer row carrying them, under a fresh
      nonzero id that GetTransferByID then finds. */
  lemma TransferAddsOneTransfer(s: Store, args: TransferTxParams, now: int)
    requires s.Valid()
    ensures var o := TransferTxSpec(s, args, now, None);
      && !o.failed
      && o.result.transfer.Some?
      && var t := o.result.transfer.value;
      && t.id > 0 && t.id !in s.transfers
      && t.fromAccountId == args.fromAccountId && t.toAccountId == args.toAccountId && t.amount == args.amount
      && o.store.transfers == s.transfers[t.id := t]
      && o.store.SelectTransfer(t.id) == t
  {
  }

  /** With no statement failing, TransferTx adds exactly two entries, a debit
      of the from-account and a credit of the to-account, whose amounts cancel
      out in int64 arithmetic. */
  lemma TransferAddsTwoEntries(s: Store, args: TransferTxParams, now: int)
    requires s.Valid()
    ensures var o := TransferTxSpec(s, args, now, None);
      && o.result.entryFrom.Some? && o.result.entryTo.Some?
      && var e1, e2 := o.result.entryFrom.value, o.result.entryTo.value;
      && e1.id > 0 && e2.id > 0 && e1.id != e2.id && e1.id !in s.entries && e2.id !in s.entries
      && e1.accountId == args.fromAccountId && e1.amount == Neg(args.amount)
      && e2.accountId == args.toAccountId && e2.amount == args.amount
      && Add(e1.amount, e2.amount) == 0
      && o.store.entries == s.entries[e1.id := e1][e2.id := e2]
      && o.store.SelectEntry(e1.id) == e1 && o.store.SelectEntry(e2.id) == e2
  {
    var a := args.amount;
    WrapInner(-(a as int), a);
    assert Add(Neg(a), a) == Wrap(0);
  }

  /** Between two distinct stored accounts, TransferTx debits the from-account
      by `amount` and credits the to-account by `amount` (int64 arithmetic),
      changes nothing else about either row, returns both rows as rewritten,
      and what the one loses is exactly what the other gains. */
  lemma TransferMovesBalances(s: Store, args: TransferTxParams, now: int)
    requires s.Valid()
    requires args.fromAccountId != args.toAccountId
    requires args.fromAccountId in s.accounts && args.toAccountId in s.accounts
    ensures var o := TransferTxSpec(s, args, now, None);
      var from, to := s.accounts[args.fromAccountId], s.accounts[args.toAccountId];
      && o.store.accounts[args.fromAccountId] == from.(balance := Sub(from.balance, args.amount))
      && o.store.accounts[args.toAccountId] == to.(balance := Add(to.balance, args.amount))
      && o.result.fromAccount == Some(o.store.accounts[args.fromAccountId])
      && o.result.toAccount == Some(o.store.accounts[args.toAccountId])
      && Sub(from.balance, o.store.accounts[args.fromAccountId].balance) == args.amount
      && Sub(o.store.accounts[args.toAccountId].balance, to.balance) == args.amount
  {
    var from, to := s.accounts[args.fromAccountId], s.accounts[args.toAccountId];
    SubSub(from.balance, args.amount);
    AddSub(to.balance, args.amount);
  }

  /** Nothing checks that the from-account can cover the amount: a transfer of
      more than its balance goes through without an error and leaves that
      balance negative. */
  lemma OverdraftIsAccepted(s: Store, args: TransferTxParams, now: int)
    requires s.Valid()
    requires args.fromAccountId != args.toAccountId
    requires args.fromAccountId in s.accounts && args.toAccountId in s.accounts
    requires s.accounts[args.fromAccountId].balance < args.amount
    requires Min <= s.accounts[args.fromAccountId].balance - args.amount
    ensures var o := TransferTxSpec(s, args, now, None);
      && !o.failed
      && o.store.accounts[args.fromAccountId].balance == s.accounts[args.fromAccountId].balance - args.amount
      && o.store.accounts[args.fromAccountId].balance < 0
  {
  }

  /** A transfer from an account to itself leaves its balance as it was: the
      to-account is re-read after the from-account was debited. The returned
      from-snapshot shows the debited balance, the to-snapshot the restored one. */
  lemma SelfTransferKeepsBalance(s: Store, args: TransferTxParams, now: int)
    requires s.Valid()
    requires args.fromAccountId == args.toAccountId && args.fromAccountId in s.accounts
    ensures var o := TransferTxSpec(s, args, now, None);
      var a := s.accounts[args.fromAccountId];
      && !o.failed
      && o.store.accounts == s.accounts
      && o.result.fromAccount == Some(a.(balance := Sub(a.balance, args.amount)))
      && o.result.toAccount == Some(a)
  {
    var a := s.accounts[args.fromAccountId];
    SubThenAdd(a.balance, args.amount);
    assert a.(balance := a.balance) == a;
  }

  /** When no statement is rejected, a missing from-account is not an error:
      its read yields the zero-valued account, its update touches no row, and
      the zero-valued account is what the result reports, while the transfer
      row, the entries and the credit of the to-account are written as usual.
      (A foreign key of the schema, which this model leaves out, would reject
      the transfer insert instead: that is the case `failAt` names.) */
  lemma MissingFromAccountIsNoError(s: Store, args: TransferTxParams, now: int)
    requires s.Valid()
    requires args.fromAccountId !in s.accounts
    ensures var o := TransferTxSpec(s, args, now, None);
      && !o.failed
      && o.result.fromAccount == Some(ZeroAccount)
      && o.store.accounts.Keys == s.accounts.Keys
      && (args.toAccountId in s.accounts ==>
            o.store.accounts[args.toAccountId].balance == Add(s.accounts[args.toAccountId].balance, args.amount))
  {
  }

  // ---- what a failing transfer leaves behind ------------------------------

  /** A statement that fails stops the ones after it but undoes none before
      it: the tables hold exactly the writes of the statements that ran, the
      same rows a successful call would have written by that point. */
  lemma FailureKeepsEarlierWrites(s: Store, args: TransferTxParams, now: int, k: Step)
    requires s.Valid()
    ensures var o, ok := TransferTxSpec(s, args, now, Some(k)), TransferTxSpec(s, args, now, None);
      var debited := s.SetBalance(args.fromAccountId, Sub(s.SelectAccount(args.fromAccountId).balance, args.amount)).0;
      && o.failed
      && (k.Index() == 1 ==> o.store == s)
      && (k.Index() >= 2 ==> o.store.transfers == ok.store.transfers && o.result.transfer == ok.result.transfer)
      && (k.Index() <= 2 ==> o.store.entries == s.entries)
      && (k.Index() == 3 ==>
            o.result.entryFrom == ok.result.entryFrom
            && o.store.entries == s.entries[ok.result.entryFrom.value.id := ok.result.entryFrom.value])
      && (k.Index() >= 4 ==> o.store.entries == ok.store.entries)
      && (k.Index() <= 5 ==> o.store.accounts == s.accounts)
      && (k.Index() >= 6 ==> o.store.accounts == debited.accounts)
  {
  }

  // ---- repeated transfers -------------------------------------------------

  /** `n` successful TransferTx calls with the same arguments, one after the
      other: the from-account ends at its initial balance minus n * amount and
      the to-account at its initial balance plus n * amount, both taken as
      int64 values, so no update is lost. */
  method TransferRepeatedly(db: Ledger, args: TransferTxParams, now: int, n: nat)
    requires db.Valid()
    requires args.fromAccountId != args.toAccountId
    requires args.fromAccountId in db.accounts && args.toAccountId in db.accounts
    modifies db
    ensures db.Valid()
    ensures db.accounts.Keys == old(db.accounts.Keys)
    ensures db.accounts[args.fromAccountId].balance == Wrap(old(db.accounts[args.fromAccountId].balance) - n * args.amount)
    ensures db.accounts[args.toAccountId].balance == Wrap(old(db.accounts[args.toAccountId].balance) + n * args.amount)
  {
    ghost var b1, b2 := db.accounts[args.fromAccountId].balance, db.accounts[args.toAccountId].balance;
    var i := 0;
    ghost var moved := 0;
    while i < n
      invariant 0 <= i <= n
      invariant moved == i * args.amount
      invariant db.Valid()
      invariant db.accounts.Keys == old(db.accounts.Keys)
      invariant db.accounts[args.fromAccountId].balance == Wrap(b1 - moved)
      invariant db.accounts[args.toAccountId].balance == Wrap(b2 + moved)
    {
      ghost var before := db.State();
      var result, failed := TransferTx(db, args, now, None);
      ghost var next := moved + args.amount;
      OneMoreTransfer(before, db.State(), args, now, b1, b2, moved, next);
      NextMultiple(i, args.amount);
      i, moved := i + 1, next;
    }
  }

  /** One more transfer moves the running totals on by one `amount`. */
  lemma OneMoreTransfer(p: Store, t: Store, args: TransferTxParams, now: int, b1: int, b2: int, before: int, after: int)
    requires p.Valid()
    requires t == TransferTxSpec(p, args, now, None).store
    requires args.fromAccountId != args.toAccountId
    requires args.fromAccountId in p.accounts && args.toAccountId in p.accounts
    requires p.accounts[args.fromAccountId].balance == Wrap(b1 - before)
    requires p.accounts[args.toAccountId].balance == Wrap(b2 + before)
    requires after == before + args.amount
    ensures args.fromAccountId in t.accounts && args.toAccountId in t.accounts
    ensures t.accounts[args.fromAccountId].balance == Wrap(b1 - after)
    ensures t.accounts[args.toAccountId].balance == Wrap(b2 + after)
  {
    TransferMovesBalances(p, args, now);
    SubAccumulates(p.accounts[args.fromAccountId].balance, b1, before, args.amount, after);
    AddAccumulates(p.accounts[args.toAccountId].balance, b2, before, args.amount, after);
  }

  lemma NextMultiple(i: int, a: int)
    ensures (i + 1) * a == i * a + a
  {
  }
}
