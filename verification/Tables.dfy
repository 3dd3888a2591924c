/** The rows of the ledger's tables (backend/data/tables). Ids are positions: a fresh id is the
    next position, where the service draws a random UUID. Instants count from an epoch. */
module Tables {
  import opened Wrappers
  import opened Money
  import Rates

  type AccountId = nat
  type TxnId = nat
  type PostingId = nat
  type HoldId = nat
  type Instant = int

  datatype Account = Account(tenant: string, path: string, currency: Currency, isOpen: bool)

  datatype Snapshot = Snapshot(tenant: string, balance: int, version: int, asOf: Option<PostingId>)

  /** A requested posting: a signed amount against one account (`PostingSpec`). */
  datatype Leg = Leg(account: AccountId, amount: int, effectiveAt: Instant)

  datatype Side = DebitSide | CreditSide

  datatype Memo =
    | Text(text: string)
    | FxLeg(text: string, side: Side, rate: real, provenance: Rates.Provenance)
    | ReversalOf(txn: TxnId)

  datatype Transaction = Transaction(tenant: string, memo: Memo, corrects: Option<TxnId>, createdAt: Instant)

  datatype Posting = Posting(id: PostingId, txn: TxnId, leg: Leg, createdAt: Instant)

  datatype EventStatus = Pending | Published

  datatype Event = Event(id: nat, tenant: string, txn: TxnId, memo: Memo, corrects: Option<TxnId>, legs: seq<Leg>,
                         status: EventStatus, createdAt: Instant, publishedAt: Option<Instant>)

  datatype HoldState = Active | Captured | Released

  datatype Hold = Hold(tenant: string, account: AccountId, amount: int, state: HoldState, memo: string, expiresAt: Instant,
                       capturedTxn: Option<TxnId>, capturedAmount: Option<int>, resolvedAt: Option<Instant>)

  /** The primary key of an idempotency record. */
  datatype Key = Key(tenant: string, endpoint: string, key: string)

  datatype Response =
    | TransferResponse(txn: TxnId, sourceBalance: int, destinationBalance: int)
    | HoldResponse(id: HoldId, hold: Hold, posted: int, available: int)
    | ReversalResponse(txn: TxnId, corrects: TxnId, memo: Memo, createdAt: Instant)

  datatype Record = Record(fingerprint: int, response: Response, createdAt: Instant)

  /** All committed rows, and the clock. `seeded` is kept for the model only: the snapshot row
      each account began with, which is zero for accounts that `open_account` created. */
  datatype Ledger = Ledger(
    accounts: seq<Account>,
    seeded: map<AccountId, Snapshot>,
    snapshots: map<AccountId, Snapshot>,
    txns: seq<Transaction>,
    postings: seq<Posting>,
    events: seq<Event>,
    holds: seq<Hold>,
    records: map<Key, Record>,
    rates: seq<Rates.Rate>,
    clock: Instant)

  /** One transaction to be posted. */
  datatype Entry = Entry(legs: seq<Leg>, memo: Memo, corrects: Option<TxnId>)
}
