/** The three row shapes of the ledger (pkg/models/models.go). Ids are kept as
    unbounded integers; balances and amounts are Go int64 values; `createdAt`
    is the opaque timestamp the store stamps on a new row and never changes. */
module Models {
  import opened Int64

  datatype Account = Account(id: int, owner: string, currency: string, balance: int64, createdAt: int)

  datatype Entry = Entry(id: int, accountId: int, amount: int64, createdAt: int)

  datatype Transfer = Transfer(id: int, fromAccountId: int, toAccountId: int, amount: int64, createdAt: int)

  /** The zero-valued records a controller hands back when its query yields no row. */
  const ZeroAccount: Account := Account(0, "", "", 0, 0)
  const ZeroEntry: Entry := Entry(0, 0, 0, 0)
  const ZeroTransfer: Transfer := Transfer(0, 0, 0, 0, 0)
}
