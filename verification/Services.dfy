/** The money-moving services, as functions on the committed tables: each reads what the service
    reads, decides as it decides, and names the rows it would write. `Commit` applies them. */
module Services {
  import opened Wrappers
  import opened Money
  import opened Tables
  import opened PostingEngine
  import Rates

  type Positive = n: int | n > 0 witness 1

  datatype TransferRequest = TransferRequest(source: AccountId, destination: AccountId, amount: Positive, memo: string,
                                             effectiveAt: Option<Instant>)
  datatype PlaceRequest = PlaceRequest(account: AccountId, amount: Positive, memo: string, expiresAt: Option<Instant>)
  datatype CaptureRequest = CaptureRequest(destination: AccountId, amount: Option<Positive>, memo: string)
  datatype ReverseRequest = ReverseRequest(txn: TxnId, memo: string)

  datatype Failure =
    | AccountNotFoundOrClosed
    | NoSnapshot
    | InsufficientFunds
    | CurrencyMismatch
    | NoRate
    | ConversionAccountMissing
    | ConversionAccountAmbiguous
    | IdempotencyConflict
    | HoldNotFound
    | WrongHoldState
    | CaptureExceedsHold
    | TransactionNotFound
    | CannotReverseReversal
    | AlreadyReversed
    | NotPostable(error: PostError)

  datatype Outcome = Done(response: Response) | Replayed(response: Response) | Refused(failure: Failure)

  // ----- Balances (backend/services/balances_service.py) -----

  datatype Balance = Balance(posted: int, held: int) {
    function Available(): int { posted - held }
  }

  predicate Reserves(h: Hold, tenant: string, a: AccountId, now: Instant) {
    h.account == a && h.tenant == tenant && h.state == Active && h.expiresAt > now
  }

  function HeldTotal(holds: seq<Hold>, tenant: string, a: AccountId, now: Instant): int {
    if holds == [] then 0
    else
      var h := holds[|holds| - 1];
      HeldTotal(holds[..|holds| - 1], tenant, a, now) + (if Reserves(h, tenant, a, now) then h.amount else 0)
  }

  function CurrentBalance(l: Ledger, tenant: string, a: AccountId): Option<int> {
    if a in l.snapshots && l.snapshots[a].tenant == tenant then Some(l.snapshots[a].balance) else None
  }

  function AvailableBalance(l: Ledger, tenant: string, a: AccountId, now: Instant): Option<Balance> {
    match CurrentBalance(l, tenant, a)
    case Some(posted) => Some(Balance(posted, HeldTotal(l.holds, tenant, a, now)))
    case None => None
  }

  // ----- Accounts and idempotency keys -----

  predicate Usable(accounts: seq<Account>, tenant: string, a: AccountId) {
    a < |accounts| && accounts[a].tenant == tenant && accounts[a].isOpen
  }

  datatype LookupResult = Miss | Hit(response: Response) | Conflict

  function Lookup(records: map<Key, Record>, key: Key, fingerprint: int): LookupResult {
    if key !in records then Miss
    else if records[key].fingerprint != fingerprint then Conflict
    else Hit(records[key].response)
  }

  // ----- Conversion accounts (backend/services/fx_service.py) -----

  function ConversionPath(c: Currency): string {
    "platform.fx.conversion." +
    match c
    case USD => "usd"
    case EUR => "eur"
    case GBP => "gbp"
    case CAD => "cad"
  }

  predicate IsConversionPath(path: string) {
    exists c: Currency :: path == ConversionPath(c)
  }

  function ConversionAccounts(accounts: seq<Account>, tenant: string, c: Currency): seq<AccountId> {
    if accounts == [] then []
    else
      var a := |accounts| - 1;
      ConversionAccounts(accounts[..a], tenant, c)
      + (if Usable(accounts, tenant, a) && accounts[a].path == ConversionPath(c) then [a] else [])
  }

  function ConversionAccount(accounts: seq<Account>, tenant: string, c: Currency): Result<AccountId, Failure> {
    var found := ConversionAccounts(accounts, tenant, c);
    if found == [] then Err(ConversionAccountMissing)
    else if |found| > 1 then Err(ConversionAccountAmbiguous)
    else Ok(found[0])
  }

  function TwoLegs(source: AccountId, destination: AccountId, amount: int, effectiveAt: Instant): seq<Leg> {
    [Leg(source, -amount, effectiveAt), Leg(destination, amount, effectiveAt)]
  }

  /** The two single-currency entries of a conversion. */
  function RouteConversion(l: Ledger, tenant: string, source: AccountId, destination: AccountId, amount: int,
                           effectiveAt: Instant, memo: string): Result<seq<Entry>, Failure>
    requires source < |l.accounts| && destination < |l.accounts|
  {
    var from, to := l.accounts[source].currency, l.accounts[destination].currency;
    match Rates.Resolve(l.rates, from, to, effectiveAt)
    case Err(_) => Err(NoRate)
    case Ok(rate) =>
      var target := Convert(amount, from, to, rate.rate);
      match ConversionAccount(l.accounts, tenant, from)
      case Err(f) => Err(f)
      case Ok(fromConversion) =>
        match ConversionAccount(l.accounts, tenant, to)
        case Err(f) => Err(f)
        case Ok(toConversion) =>
          Ok([Entry(TwoLegs(source, fromConversion, amount, effectiveAt), FxLeg(memo, DebitSide, rate.rate, rate.provenance), None),
              Entry(TwoLegs(toConversion, destination, target, effectiveAt), FxLeg(memo, CreditSide, rate.rate, rate.provenance), None)])
  }

  // ----- The rows one request writes, and their commit -----

  datatype HoldChange = KeepHolds | PlaceHold(hold: Hold) | MarkCaptured(id: HoldId, amount: int) | MarkReleased(id: HoldId)

  datatype Reply =
    | TransferReply(source: AccountId, destination: AccountId)
    | NewHoldReply
    | HoldReply(id: HoldId)
    | ReversalReply(corrects: TxnId)

  datatype Writes = Writes(tenant: string, at: Instant, entries: seq<Entry>, holdChange: HoldChange,
                           key: Option<Key>, fingerprint: int, reply: Reply)

  function ChangeHolds(holds: seq<Hold>, change: HoldChange, txn: TxnId, at: Instant): seq<Hold> {
    match change
    case KeepHolds => holds
    case PlaceHold(h) => holds + [h]
    case MarkCaptured(id, amount) =>
      if id >= |holds| then holds
      else holds[id := holds[id].(state := Captured, capturedTxn := Some(txn), capturedAmount := Some(amount), resolvedAt := Some(at))]
    case MarkReleased(id) =>
      if id >= |holds| then holds
      else holds[id := holds[id].(state := Released, resolvedAt := Some(at))]
  }

  function BalanceOr(l: Ledger, a: AccountId): int {
    if a in l.snapshots then l.snapshots[a].balance else 0
  }

  /** The holds a response's available figure is computed from. Placing flushes its row first;
      capture marks its hold after the last flush, and the application's sessions do not autoflush
      (backend/data/database/engine.py:46-48), so there the hold still counts. */
  function HoldsSeenByReply(l: Ledger, after: Ledger, change: HoldChange): seq<Hold> {
    if change.MarkCaptured? then l.holds else after.holds
  }

  function HoldFigures(l: Ledger, after: Ledger, w: Writes, id: HoldId): Response {
    var h := if id < |after.holds| then after.holds[id] else Hold(w.tenant, 0, 0, Released, "", 0, None, None, None);
    var posted := BalanceOr(after, h.account);
    HoldResponse(id, h, posted, posted - HeldTotal(HoldsSeenByReply(l, after, w.holdChange), w.tenant, h.account, l.clock))
  }

  function ResponseFor(l: Ledger, after: Ledger, w: Writes): Response {
    match w.reply
    case TransferReply(source, destination) =>
      TransferResponse(|l.txns|, BalanceOr(after, source), BalanceOr(after, destination))
    case NewHoldReply => HoldFigures(l, after, w, |l.holds|)
    case HoldReply(id) => HoldFigures(l, after, w, id)
    case ReversalReply(corrects) =>
      ReversalResponse(|l.txns|, corrects, if w.entries == [] then Text("") else w.entries[0].memo, w.at)
  }

  /** Postings and holds of `w`, before its idempotency record. */
  function Moved(l: Ledger, w: Writes): Ledger {
    PostAll(l, w.tenant, w.at, w.entries).(holds := ChangeHolds(l.holds, w.holdChange, |l.txns|, w.at))
  }

  function Commit(l: Ledger, w: Writes): Ledger {
    var moved := Moved(l, w);
    match w.key
    case None => moved
    case Some(k) => moved.(records := l.records[k := Record(w.fingerprint, ResponseFor(l, moved, w), w.at)])
  }

  function Finish(l: Ledger, staged: Result<Writes, Failure>): (Ledger, Outcome) {
    match staged
    case Err(f) => (l, Refused(f))
    case Ok(w) => (Commit(l, w), Done(ResponseFor(l, Moved(l, w), w)))
  }

  // ----- Transfers (backend/services/transfers_service.py) -----

  const TRANSFERS := "transfers.create"

  function CheckFunds(l: Ledger, tenant: string, a: AccountId, amount: int, now: Instant): Option<Failure> {
    match AvailableBalance(l, tenant, a, now)
    case None => Some(NoSnapshot)
    case Some(balance) => if balance.Available() < amount then Some(InsufficientFunds) else None
  }

  function TransferEntries(l: Ledger, tenant: string, req: TransferRequest, at: Instant): Result<seq<Entry>, Failure>
    requires Usable(l.accounts, tenant, req.source) && Usable(l.accounts, tenant, req.destination)
  {
    var effectiveAt := if req.effectiveAt.Some? then req.effectiveAt.value else at;
    if l.accounts[req.source].currency != l.accounts[req.destination].currency then
      RouteConversion(l, tenant, req.source, req.destination, req.amount, effectiveAt, req.memo)
    else
      Ok([Entry(TwoLegs(req.source, req.destination, req.amount, effectiveAt), Text(req.memo), None)])
  }

  /** What a transfer that passed its funds check writes. */
  function TransferWrites(l: Ledger, tenant: string, req: TransferRequest, key: Key, fingerprint: int, at: Instant): Result<Writes, Failure>
    requires Usable(l.accounts, tenant, req.source) && Usable(l.accounts, tenant, req.destination)
  {
    match TransferEntries(l, tenant, req, at)
    case Err(f) => Err(f)
    case Ok(entries) =>
      Ok(Writes(tenant, at, entries, KeepHolds, Some(key), fingerprint, TransferReply(req.source, req.destination)))
  }

  function StageTransfer(l: Ledger, tenant: string, req: TransferRequest, key: Key, fingerprint: int): Result<Writes, Failure> {
    if !Usable(l.accounts, tenant, req.source) || !Usable(l.accounts, tenant, req.destination) then Err(AccountNotFoundOrClosed)
    else
      match CheckFunds(l, tenant, req.source, req.amount, l.clock)
      case Some(f) => Err(f)
      case None => TransferWrites(l, tenant, req, key, fingerprint, l.clock)
  }

  function ExecuteTransfer(l: Ledger, tenant: string, req: TransferRequest, key: string, fingerprint: int): (Ledger, Outcome) {
    var k := Key(tenant, TRANSFERS, key);
    match Lookup(l.records, k, fingerprint)
    case Hit(response) => (l, Replayed(response))
    case Conflict => (l, Refused(IdempotencyConflict))
    case Miss => Finish(l, StageTransfer(l, tenant, req, k, fingerprint))
  }

  // ----- Holds (backend/services/holds_service.py) -----

  const PLACE := "holds.place"
  const DEFAULT_TTL: int := 7 * 24 * 60 * 60 * 1_000_000

  function PlaceWrites(tenant: string, req: PlaceRequest, key: Key, fingerprint: int, at: Instant): Writes {
    var expiresAt := if req.expiresAt.Some? then req.expiresAt.value else at + DEFAULT_TTL;
    var hold := Hold(tenant, req.account, req.amount, Active, req.memo, expiresAt, None, None, None);
    Writes(tenant, at, [], PlaceHold(hold), Some(key), fingerprint, NewHoldReply)
  }

  function StagePlace(l: Ledger, tenant: string, req: PlaceRequest, key: Key, fingerprint: int): Result<Writes, Failure> {
    if !Usable(l.accounts, tenant, req.account) then Err(AccountNotFoundOrClosed)
    else
      match CheckFunds(l, tenant, req.account, req.amount, l.clock)
      case Some(f) => Err(f)
      case None => Ok(PlaceWrites(tenant, req, key, fingerprint, l.clock))
  }

  function Place(l: Ledger, tenant: string, req: PlaceRequest, key: string, fingerprint: int): (Ledger, Outcome) {
    var k := Key(tenant, PLACE, key);
    match Lookup(l.records, k, fingerprint)
    case Hit(response) => (l, Replayed(response))
    case Conflict => (l, Refused(IdempotencyConflict))
    case Miss => Finish(l, StagePlace(l, tenant, req, k, fingerprint))
  }

  /** A hold's figures as `release_hold` and a replayed capture report them. */
  function HoldView(l: Ledger, tenant: string, id: HoldId): Response
    requires id < |l.holds|
  {
    var h := l.holds[id];
    match AvailableBalance(l, tenant, h.account, l.clock)
    case None => HoldResponse(id, h, 0, 0)
    case Some(b) => HoldResponse(id, h, b.posted, b.Available())
  }

  function CaptureAmount(h: Hold, req: CaptureRequest): int {
    if req.amount.Some? then req.amount.value else h.amount
  }

  /** What capture decides before it takes the lock, on the hold row as it read it. */
  function CaptureRefusal(accounts: seq<Account>, tenant: string, h: Hold, req: CaptureRequest): Option<Failure> {
    if h.state != Active then Some(WrongHoldState)
    else if !Usable(accounts, tenant, h.account) || !Usable(accounts, tenant, req.destination) then Some(AccountNotFoundOrClosed)
    else if accounts[h.account].currency != accounts[req.destination].currency then Some(CurrencyMismatch)
    else if CaptureAmount(h, req) > h.amount then Some(CaptureExceedsHold)
    else None
  }

  function CheckPosted(l: Ledger, tenant: string, a: AccountId, amount: int): Option<Failure> {
    match CurrentBalance(l, tenant, a)
    case None => Some(InsufficientFunds)
    case Some(posted) => if posted < amount then Some(InsufficientFunds) else None
  }

  function CaptureWrites(tenant: string, id: HoldId, h: Hold, req: CaptureRequest, at: Instant): Writes {
    var amount := CaptureAmount(h, req);
    var memo := if req.memo != "" then req.memo else h.memo;
    Writes(tenant, at, [Entry(TwoLegs(h.account, req.destination, amount, at), Text(memo), None)],
           MarkCaptured(id, amount), None, 0, HoldReply(id))
  }

  function StageCapture(l: Ledger, tenant: string, id: HoldId, req: CaptureRequest): Result<Writes, Failure>
    requires id < |l.holds|
  {
    var h := l.holds[id];
    match CaptureRefusal(l.accounts, tenant, h, req)
    case Some(f) => Err(f)
    case None =>
      match CheckPosted(l, tenant, h.account, CaptureAmount(h, req))
      case Some(f) => Err(f)
      case None => Ok(CaptureWrites(tenant, id, h, req, l.clock))
  }

  function Capture(l: Ledger, tenant: string, id: HoldId, req: CaptureRequest): (Ledger, Outcome) {
    if id >= |l.holds| || l.holds[id].tenant != tenant then (l, Refused(HoldNotFound))
    else if l.holds[id].state == Captured then (l, Replayed(HoldView(l, tenant, id)))
    else Finish(l, StageCapture(l, tenant, id, req))
  }

  function Release(l: Ledger, tenant: string, id: HoldId): (Ledger, Outcome) {
    if id >= |l.holds| || l.holds[id].tenant != tenant then (l, Refused(HoldNotFound))
    else
      match l.holds[id].state
      case Captured => (l, Refused(WrongHoldState))
      case Released => (l, Replayed(HoldView(l, tenant, id)))
      case Active =>
        var released := l.(holds := ChangeHolds(l.holds, MarkReleased(id), 0, l.clock));
        (released, Done(HoldView(released, tenant, id)))
  }

  // ----- Reversals (backend/services/reversals_service.py) -----

  const REVERSALS := "reversals.create"

  function PostingsOf(ps: seq<Posting>, txn: TxnId): seq<Posting> {
    if ps == [] then []
    else PostingsOf(ps[..|ps| - 1], txn) + (if ps[|ps| - 1].txn == txn then [ps[|ps| - 1]] else [])
  }

  predicate HasReversal(txns: seq<Transaction>, tenant: string, txn: TxnId) {
    exists t <- txns :: t.tenant == tenant && t.corrects == Some(txn)
  }

  function Negated(ps: seq<Posting>, effectiveAt: Instant): (legs: seq<Leg>)
    ensures |legs| == |ps|
  {
    seq(|ps|, i requires 0 <= i < |ps| => Leg(ps[i].leg.account, -ps[i].leg.amount, effectiveAt))
  }

  function ReverseRefusal(l: Ledger, tenant: string, txn: TxnId): Option<Failure> {
    if txn >= |l.txns| || l.txns[txn].tenant != tenant then Some(TransactionNotFound)
    else if l.txns[txn].corrects.Some? then Some(CannotReverseReversal)
    else if HasReversal(l.txns, tenant, txn) then Some(AlreadyReversed)
    else if PostingsOf(l.postings, txn) == [] then Some(TransactionNotFound)
    else None
  }

  function ReverseWrites(l: Ledger, tenant: string, req: ReverseRequest, key: Key, fingerprint: int, at: Instant): Writes {
    var memo := if req.memo != "" then Text(req.memo) else ReversalOf(req.txn);
    Writes(tenant, at, [Entry(Negated(PostingsOf(l.postings, req.txn), at), memo, Some(req.txn))],
           KeepHolds, Some(key), fingerprint, ReversalReply(req.txn))
  }

  function StageReverse(l: Ledger, tenant: string, req: ReverseRequest, key: Key, fingerprint: int): Result<Writes, Failure> {
    match ReverseRefusal(l, tenant, req.txn)
    case Some(f) => Err(f)
    case None =>
      var w := ReverseWrites(l, tenant, req, key, fingerprint, l.clock);
      match Validate(l.accounts, w.entries[0].legs)
      case Err(e) => Err(NotPostable(e))
      case Ok(_) => Ok(w)
  }

  function Reverse(l: Ledger, tenant: string, req: ReverseRequest, key: string, fingerprint: int): (Ledger, Outcome) {
    var k := Key(tenant, REVERSALS, key);
    match Lookup(l.records, k, fingerprint)
    case Hit(response) => (l, Replayed(response))
    case Conflict => (l, Refused(IdempotencyConflict))
    case Miss => Finish(l, StageReverse(l, tenant, req, k, fingerprint))
  }

  // ----- Accounts and the sweeper -----

  function OpenAccount(l: Ledger, tenant: string, path: string, currency: Currency): Ledger {
    var a, zero := |l.accounts|, Snapshot(tenant, 0, 0, None);
    l.(accounts := l.accounts + [Account(tenant, path, currency, true)],
       snapshots := l.snapshots[a := zero], seeded := l.seeded[a := zero])
  }

  /** `sweep_once` in backend/services/idempotency_sweeper.py: what survives the DELETE. */
  function Unswept(records: map<Key, Record>, cutoff: Instant): map<Key, Record> {
    map k | k in records && records[k].createdAt >= cutoff :: records[k]
  }
}
