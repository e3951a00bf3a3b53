/** The package-level `mutex` of TransferTx (pkg/controllers/transfer/
    transferController.go:32). TransferTx takes it just before re-reading the
    from-account and releases it only after rewriting the to-account, so each
    of the four error returns in between leaves it held. A `sync.Mutex`
    belongs to no goroutine: once it is left held, every later TransferTx
    writes its transfer and its two entries and then waits at `mutex.Lock()`
    forever. Calls are taken one after another; the state carried from call
    to call is the tables and whether the mutex is held. */
module Locking {
  import opened Models
  import opened Tables
  import opened Transfer

  /** The tables, and whether `mutex` is held, between two calls. */
  datatype Process = Process(store: Store, locked: bool)

  /** How a call ends: it returns its outcome, or it waits at `mutex.Lock()`
      and never returns. */
  datatype Call = Returned(outcome: TxOutcome) | Blocked

  /** One call of TransferTx: its arguments, its timestamp and the statement
      the database rejects, if any. */
  datatype TxCall = TxCall(args: TransferTxParams, now: int, failAt: Option<Step>)

  /** The tables once the three inserts of TransferTx have run, when it
      reaches `mutex.Lock()`: the transfer and the entries of a successful
      call are there, the balances are not yet touched. */
  function AfterInserts(s: Store, args: TransferTxParams, now: int): (t: Store)
    requires s.Valid()
    ensures t.Valid()
    ensures t.accounts == s.accounts
    ensures t.transfers == TransferTxSpec(s, args, now, None).store.transfers
    ensures t.entries == TransferTxSpec(s, args, now, None).store.entries
  {
    TransferTxSpec(s, args, now, Some(ReadFromAccount)).store
  }

  /** TransferTx as written: a failure among the inserts returns before the
      lock; a held mutex stops the call at the lock for good; otherwise the
      call runs, and the mutex stays held exactly when a balance step failed. */
  function TransferTxAsWritten(p: Process, args: TransferTxParams, now: int, failAt: Option<Step>): (r: (Process, Call))
    requires p.store.Valid()
    ensures r.0.store.Valid()
    ensures r.1.Blocked? <==> p.locked && (failAt.None? || failAt.value.Index() >= 4)
    ensures r.1.Blocked? ==> r.0 == Process(AfterInserts(p.store, args, now), true)
    ensures r.1.Returned? ==> r.1.outcome == TransferTxSpec(p.store, args, now, failAt) && r.0.store == r.1.outcome.store
    ensures !p.locked ==> (r.0.locked <==> failAt.Some? && failAt.value.Index() >= 4)
    ensures p.locked ==> r.0.locked
  {
    var o := TransferTxSpec(p.store, args, now, failAt);
    if failAt.Some? && failAt.value.Index() <= 3 then
      (p.(store := o.store), Returned(o))
    else if p.locked then
      (Process(AfterInserts(p.store, args, now), true), Blocked)
    else
      (Process(o.store, o.failed), Returned(o))
  }

  /** TransferTx with `defer mutex.Unlock()` after `mutex.Lock()`: every
      return releases the mutex. */
  function TransferTxCorrected(p: Process, args: TransferTxParams, now: int, failAt: Option<Step>): (r: (Process, Call))
    requires p.store.Valid()
    ensures r.0.store.Valid()
    ensures r.1.Blocked? <==> p.locked && (failAt.None? || failAt.value.Index() >= 4)
    ensures r.1.Returned? ==> r.1.outcome == TransferTxSpec(p.store, args, now, failAt) && r.0.store == r.1.outcome.store
    ensures !p.locked ==> !r.0.locked
  {
    var o := TransferTxSpec(p.store, args, now, failAt);
    if failAt.Some? && failAt.value.Index() <= 3 then
      (p.(store := o.store), Returned(o))
    else if p.locked then
      (Process(AfterInserts(p.store, args, now), true), Blocked)
    else
      (Process(o.store, false), Returned(o))
  }

  /** A failed re-read or rewrite of a balance returns its error with the
      mutex still held; the next TransferTx, though nothing fails in it,
      writes its transfer and its two entries and then never returns. */
  lemma FailureThenTransferBlocks(s: Store, first: TransferTxParams, now1: int, k: Step,
                                  second: TransferTxParams, now2: int)
    requires s.Valid()
    requires k.Index() >= 4
    ensures var (p1, c1) := TransferTxAsWritten(Process(s, false), first, now1, Some(k));
      var (p2, c2) := TransferTxAsWritten(p1, second, now2, None);
      && c1.Returned? && c1.outcome.failed && p1.locked
      && c2 == Blocked && p2.locked
      && p2.store.transfers == TransferTxSpec(p1.store, second, now2, None).store.transfers
      && p2.store.entries == TransferTxSpec(p1.store, second, now2, None).store.entries
      && p2.store.accounts == p1.store.accounts
  {
  }

  /** The calls run one after another with the corrected TransferTx. */
  function RunCorrected(p: Process, calls: seq<TxCall>): (r: (Process, seq<Call>))
    requires p.store.Valid()
    ensures r.0.store.Valid()
    ensures |r.1| == |calls|
    decreases |calls|
  {
    if calls == [] then (p, [])
    else
      var (p1, c) := TransferTxCorrected(p, calls[0].args, calls[0].now, calls[0].failAt);
      var (p2, cs) := RunCorrected(p1, calls[1..]);
      (p2, [c] + cs)
  }

  /** With the mutex released on every return, a run of calls that starts
      with it free returns from every call, whatever fails along the way,
      and leaves it free. */
  lemma {:induction false} CorrectedCallsAllReturn(p: Process, calls: seq<TxCall>)
    requires p.store.Valid() && !p.locked
    ensures !RunCorrected(p, calls).0.locked
    ensures forall i :: 0 <= i < |calls| ==> RunCorrected(p, calls).1[i].Returned?
    decreases |calls|
  {
    if calls != [] {
      var (p1, c) := TransferTxCorrected(p, calls[0].args, calls[0].now, calls[0].failAt);
      CorrectedCallsAllReturn(p1, calls[1..]);
      var cs := RunCorrected(p1, calls[1..]).1;
      assert RunCorrected(p, calls).1 == [c] + cs;
      forall i | 0 <= i < |calls| ensures RunCorrected(p, calls).1[i].Returned? {
        if i > 0 {
          assert RunCorrected(p, calls).1[i] == cs[i - 1];
        }
      }
    }
  }
}
