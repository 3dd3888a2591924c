/** What can still go below zero: reversals check no funds, and neither does the conversion account
    that pays a conversion out. When each does, exactly. */
module Overdrafts {
  import opened Wrappers
  import opened Money
  import opened Tables
  import opened PostingEngine
  import opened Services
  import opened ServiceLaws
  import opened ServiceEffects
  import opened Funds
  import opened SerialRuns
  import Conversion
  import Rates

  // ----- Reversals -----

  lemma ReversalMovesAvailable(db: Ledger, tenant: string, req: ReverseRequest, key: Key, fp: int, at: Instant, a: AccountId)
    requires Valid(db) && ReverseRefusal(db, tenant, req.txn).None? && a < |db.accounts|
    ensures var db' := Commit(db, ReverseWrites(db, tenant, req, key, fp, at));
      && db'.accounts == db.accounts && db'.clock == db.clock
      && AvailableAt(db', a, db.clock) == AvailableAt(db, a, db.clock) - NetOfLegs(db.events[req.txn].legs, a)
  {
    var w := ReverseWrites(db, tenant, req, key, fp, at);
    ReversalIsWellPosted(db, tenant, req, at);
    CommitMovesAvailable(db, w, a);
    NetOfOne(w.entries[0], a);
    UndoingNets(w.entries[0].legs, db.events[req.txn].legs, a);
  }

  /** Committing a reversal leaves funds safe exactly when every ordinary account still has to spend
      what the original brought it. */
  lemma ReversalCommitIsSafeIff(db: Ledger, tenant: string, req: ReverseRequest, key: Key, fp: int, at: Instant)
    requires Valid(db) && ReverseRefusal(db, tenant, req.txn).None?
    ensures FundsSafe(Commit(db, ReverseWrites(db, tenant, req, key, fp, at)))
        <==> forall a: nat | a < |db.accounts| && Ordinary(db.accounts, a) ::
               AvailableAt(db, a, db.clock) >= NetOfLegs(db.events[req.txn].legs, a)
  {
    var db' := Commit(db, ReverseWrites(db, tenant, req, key, fp, at));
    MovedFrame(db, ReverseWrites(db, tenant, req, key, fp, at));
    forall a: nat | a < |db.accounts|
      ensures AvailableAt(db', a, db.clock) == AvailableAt(db, a, db.clock) - NetOfLegs(db.events[req.txn].legs, a)
    {
      ReversalMovesAvailable(db, tenant, req, key, fp, at, a);
    }
  }

  // ----- A run that ends below zero -----

  function Pay(x: AccountId, y: AccountId, amount: Positive): TransferRequest {
    TransferRequest(x, y, amount, "", None)
  }

  /** Two open accounts of one tenant and currency. */
  predicate CanPay(l: Ledger, tenant: string, x: AccountId, y: AccountId) {
    && Usable(l.accounts, tenant, x) && Usable(l.accounts, tenant, y)
    && l.accounts[x].currency == l.accounts[y].currency
  }

  function PaymentWrites(l: Ledger, tenant: string, x: AccountId, y: AccountId, amount: int, key: string): Writes {
    Writes(tenant, l.clock, [Entry(TwoLegs(x, y, amount, l.clock), Text(""), None)], KeepHolds,
           Some(Key(tenant, TRANSFERS, key)), 0, TransferReply(x, y))
  }

  /** From `l` to `l'`, `amount` was paid from `x` to `y` in one transaction. */
  ghost predicate Paid(l: Ledger, l': Ledger, tenant: string, x: AccountId, y: AccountId, amount: int, key: string) {
    && l'.accounts == l.accounts && l'.clock == l.clock
    && (forall a: nat | a < |l.accounts| :: AvailableAt(l', a, l.clock) == AvailableAt(l, a, l.clock) + Move(x, y, amount, a))
    && l'.records.Keys == l.records.Keys + {Key(tenant, TRANSFERS, key)}
    && |l'.txns| == |l.txns| + 1 && |l'.events| == |l'.txns|
    && l'.txns[|l.txns|].tenant == tenant && l'.txns[|l.txns|].corrects.None?
    && l'.events[|l.txns|].legs == TwoLegs(x, y, amount, l.clock)
  }

  lemma PaymentMovesAvailable(l: Ledger, tenant: string, x: AccountId, y: AccountId, amount: int, key: string, a: AccountId)
    requires Consistent(l) && CanPay(l, tenant, x, y) && a < |l.accounts|
    ensures var l' := Commit(l, PaymentWrites(l, tenant, x, y, amount, key));
      && l'.accounts == l.accounts && l'.clock == l.clock
      && AvailableAt(l', a, l.clock) == AvailableAt(l, a, l.clock) + Move(x, y, amount, a)
  {
    var w := PaymentWrites(l, tenant, x, y, amount, key);
    TwoLegsWellPosted(l.accounts, tenant, x, y, amount, l.clock);
    CommitMovesAvailable(l, w, a);
    NetOfOne(w.entries[0], a);
    NetOfTwoLegs(x, y, amount, l.clock, a);
  }

  lemma PaymentIsPaid(l: Ledger, tenant: string, x: AccountId, y: AccountId, amount: int, key: string)
    requires Consistent(l) && CanPay(l, tenant, x, y)
    ensures Paid(l, Commit(l, PaymentWrites(l, tenant, x, y, amount, key)), tenant, x, y, amount, key)
  {
    var w := PaymentWrites(l, tenant, x, y, amount, key);
    MovedFrame(l, w);
    CommitRecords(l, w, 0);
    CorrectsAt(l, w, |l.txns|);
    PostAllFrame(l, w.tenant, w.at, w.entries);
    forall a: nat | a < |l.accounts|
      ensures AvailableAt(Commit(l, w), a, l.clock) == AvailableAt(l, a, l.clock) + Move(x, y, amount, a)
    {
      PaymentMovesAvailable(l, tenant, x, y, amount, key, a);
    }
  }

  lemma PaymentSucceeds(l: Ledger, tenant: string, x: AccountId, y: AccountId, amount: Positive, key: string)
    requires Valid(l) && CanPay(l, tenant, x, y)
    requires AvailableAt(l, x, l.clock) >= amount && Key(tenant, TRANSFERS, key) !in l.records
    ensures Apply(l, DoTransfer(tenant, Pay(x, y, amount), key, 0)) == Commit(l, PaymentWrites(l, tenant, x, y, amount, key))
  {
    ServiceReadsAvailable(l, tenant, x, l.clock);
  }

  /** Serving a payment keeps every invariant of a serial run and pays it. */
  lemma ServedPayment(l: Ledger, tenant: string, x: AccountId, y: AccountId, amount: Positive, key: string)
    requires Valid(l) && SerialSound(l) && CanPay(l, tenant, x, y)
    requires AvailableAt(l, x, l.clock) >= amount && Key(tenant, TRANSFERS, key) !in l.records
    ensures var l' := Apply(l, DoTransfer(tenant, Pay(x, y, amount), key, 0));
      Valid(l') && SerialSound(l') && Grows(l, l') && Paid(l, l', tenant, x, y, amount, key)
  {
    StepKeepsEverything(l, DoTransfer(tenant, Pay(x, y, amount), key, 0));
    PaymentSucceeds(l, tenant, x, y, amount, key);
    PaymentIsPaid(l, tenant, x, y, amount, key);
  }

  lemma NotYetReversed(l: Ledger, tenant: string, txn: TxnId)
    requires SerialSound(l)
    requires forall i: nat | txn < i < |l.txns| :: l.txns[i].corrects.None?
    ensures !HasReversal(l.txns, tenant, txn)
  {
    forall i: nat | i < |l.txns| ensures l.txns[i].corrects != Some(txn) {
      assert CorrectsSoundly(l, i);
    }
  }

  lemma ReversalCommits(l: Ledger, tenant: string, req: ReverseRequest, key: string)
    requires Valid(l) && ReverseRefusal(l, tenant, req.txn).None? && Key(tenant, REVERSALS, key) !in l.records
    ensures Apply(l, DoReverse(tenant, req, key, 0)) == Commit(l, ReverseWrites(l, tenant, req, Key(tenant, REVERSALS, key), 0, l.clock))
  {
    ReversalIsWellPosted(l, tenant, req, l.clock);
  }

  lemma ReversingTakesBack(l: Ledger, tenant: string, txn: TxnId, a: AccountId, key: string)
    requires Valid(l) && SerialSound(l) && a < |l.accounts| && Key(tenant, REVERSALS, key) !in l.records
    requires txn < |l.txns| && l.txns[txn].tenant == tenant
    requires forall i: nat | txn <= i < |l.txns| :: l.txns[i].corrects.None?
    ensures var end := Apply(l, DoReverse(tenant, ReverseRequest(txn, ""), key, 0));
      && end.accounts == l.accounts && end.clock == l.clock
      && AvailableAt(end, a, l.clock) == AvailableAt(l, a, l.clock) - NetOfLegs(l.events[txn].legs, a)
  {
    NotYetReversed(l, tenant, txn);
    TransactionHasPostings(l, txn);
    ReversalCommits(l, tenant, ReverseRequest(txn, ""), key);
    ReversalMovesAvailable(l, tenant, ReverseRequest(txn, ""), Key(tenant, REVERSALS, key), 0, l.clock, a);
  }

  lemma RunOfThree(l: Ledger, x: Step, y: Step, z: Step)
    ensures Run(l, [x, y, z]) == Apply(Apply(Apply(l, x), y), z)
  {
    assert [x, y, z][..2] == [x, y];
    assert [x, y][..1] == [x];
    assert [x][..0] == [];
    assert Run(l, [x]) == Apply(l, x);
  }

  /** After two payments the first can still be reversed, and took from `a` what it brought. */
  lemma FirstOfTwoIsReversible(l: Ledger, l1: Ledger, l2: Ledger, tenant: string, payer: AccountId, a: AccountId, payee: AccountId,
      amount: int, all: int, k1: string, k2: string, k3: string)
    requires Valid(l2) && SerialSound(l2) && Grows(l1, l2) && a < |l.accounts| && a != payer && a != payee
    requires Paid(l, l1, tenant, payer, a, amount, k1) && Paid(l1, l2, tenant, a, payee, all, k2)
    requires all == AvailableAt(l, a, l.clock) + amount && Key(tenant, REVERSALS, k3) !in l.records
    ensures var end := Apply(l2, DoReverse(tenant, ReverseRequest(|l.txns|, ""), k3, 0));
      && end.accounts == l.accounts && end.clock == l.clock && AvailableAt(end, a, l.clock) == 0 - amount
  {
    var txn := |l.txns|;
    assert l2.txns[txn] == l1.txns[txn] && SameEvent(l1.events[txn], l2.events[txn]);
    forall i: nat | txn <= i < |l2.txns| ensures l2.txns[i].corrects.None? {
      assert i == txn || i == |l1.txns|;
    }
    assert AvailableAt(l1, a, l.clock) == AvailableAt(l, a, l.clock) + Move(payer, a, amount, a);
    assert AvailableAt(l2, a, l1.clock) == AvailableAt(l1, a, l1.clock) + Move(a, payee, all, a);
    ReversingTakesBack(l2, tenant, txn, a, k3);
    NetOfTwoLegs(payer, a, amount, l.clock, a);
  }

  /** `a` receives `amount`, spends all it has, and the payment it received is reversed: nothing
      refuses that, and `a` is left owing exactly `amount`. */
  lemma ReversingASpentPaymentOverdraws(l: Ledger, tenant: string, payer: AccountId, a: AccountId, payee: AccountId,
      amount: Positive, all: Positive, k1: string, k2: string, k3: string)
    requires Valid(l) && SerialSound(l)
    requires CanPay(l, tenant, payer, a) && CanPay(l, tenant, a, payee) && a != payer && a != payee
    requires AvailableAt(l, payer, l.clock) >= amount && all == AvailableAt(l, a, l.clock) + amount
    requires Key(tenant, TRANSFERS, k1) !in l.records && Key(tenant, TRANSFERS, k2) !in l.records && k1 != k2
    requires Key(tenant, REVERSALS, k3) !in l.records
    ensures var end := Run(l, [DoTransfer(tenant, Pay(payer, a, amount), k1, 0), DoTransfer(tenant, Pay(a, payee, all), k2, 0),
                               DoReverse(tenant, ReverseRequest(|l.txns|, ""), k3, 0)]);
      && end.accounts == l.accounts && end.clock == l.clock
      && AvailableAt(end, a, l.clock) == 0 - amount
  {
    var first, second := DoTransfer(tenant, Pay(payer, a, amount), k1, 0), DoTransfer(tenant, Pay(a, payee, all), k2, 0);
    RunOfThree(l, first, second, DoReverse(tenant, ReverseRequest(|l.txns|, ""), k3, 0));
    ServedPayment(l, tenant, payer, a, amount, k1);
    TwoPayments(l, Apply(l, first), tenant, payer, a, payee, amount, all, k1, k2, k3);
  }

  lemma TwoPayments(l: Ledger, l1: Ledger, tenant: string, payer: AccountId, a: AccountId, payee: AccountId,
      amount: Positive, all: Positive, k1: string, k2: string, k3: string)
    requires Valid(l1) && SerialSound(l1) && Paid(l, l1, tenant, payer, a, amount, k1)
    requires CanPay(l, tenant, a, payee) && a != payer && a != payee
    requires all == AvailableAt(l, a, l.clock) + amount && k1 != k2
    requires Key(tenant, TRANSFERS, k2) !in l.records && Key(tenant, REVERSALS, k3) !in l.records
    ensures var end := Apply(Apply(l1, DoTransfer(tenant, Pay(a, payee, all), k2, 0)),
                             DoReverse(tenant, ReverseRequest(|l.txns|, ""), k3, 0));
      && end.accounts == l.accounts && end.clock == l.clock && AvailableAt(end, a, l.clock) == 0 - amount
  {
    assert AvailableAt(l1, a, l.clock) == AvailableAt(l, a, l.clock) + Move(payer, a, amount, a);
    ServedPayment(l1, tenant, a, payee, all, k2);
    FirstOfTwoIsReversible(l, l1, Apply(l1, DoTransfer(tenant, Pay(a, payee, all), k2, 0)), tenant, payer, a, payee,
      amount, all, k1, k2, k3);
  }

  // ----- Conversion accounts -----

  lemma ConversionPathsDiffer(c: Currency, d: Currency)
    ensures ConversionPath(c) == ConversionPath(d) <==> c == d
  {
    var n := |"platform.fx.conversion."|;
    assert ConversionPath(c)[n] != ConversionPath(d)[n] || c == d;
  }

  /** What a conversion costs the account that pays it out: the value, rounded once; and, were it the
      source as well, the amount. */
  function PayoutCost(l: Ledger, tenant: string, req: TransferRequest): int
    requires req.source < |l.accounts| && req.destination < |l.accounts|
  {
    var from, to := l.accounts[req.source].currency, l.accounts[req.destination].currency;
    if CanConvert(l, tenant, from, to, EffectiveAt(l, req)) then
      var payer := ConversionAccount(l.accounts, tenant, to).value;
      var rate := Rates.Resolve(l.rates, from, to, EffectiveAt(l, req)).value.rate;
      (if req.destination == payer then 0 else Conversion.Scaled(req.amount, Conversion.Scale(Exponent(from), Exponent(to), rate)))
      + (if req.source == payer then req.amount else 0)
    else 0
  }

  lemma PayoutIsItsDelta(l: Ledger, tenant: string, req: TransferRequest)
    requires req.source < |l.accounts| && req.destination < |l.accounts|
    requires l.accounts[req.source].currency != l.accounts[req.destination].currency
    requires ConversionAccount(l.accounts, tenant, l.accounts[req.destination].currency).Ok?
    ensures TransferDelta(l, tenant, req, ConversionAccount(l.accounts, tenant, l.accounts[req.destination].currency).value)
         == -PayoutCost(l, tenant, req)
  {
    var from, to := l.accounts[req.source].currency, l.accounts[req.destination].currency;
    ConversionAccountIsUsable(l.accounts, tenant, from);
    ConversionAccountIsUsable(l.accounts, tenant, to);
    ConversionPathsDiffer(from, to);
  }

  /** The account that pays a conversion out has nothing below zero afterwards exactly when it had
      that much to spend; the service does not look. One that holds nothing is overdrawn by the value. */
  lemma ConversionLeavesPayerCoveredIff(l: Ledger, tenant: string, req: TransferRequest, key: string, fp: int)
    requires Valid(l) && TransferSucceeds(l, tenant, req, key)
    requires l.accounts[req.source].currency != l.accounts[req.destination].currency
    ensures ConversionAccount(l.accounts, tenant, l.accounts[req.destination].currency).Ok?
    ensures var payer := ConversionAccount(l.accounts, tenant, l.accounts[req.destination].currency).value;
      var after := ExecuteTransfer(l, tenant, req, key, fp).0;
      && payer < |l.accounts| && after.accounts == l.accounts
      && AvailableAt(after, payer, l.clock) == AvailableAt(l, payer, l.clock) - PayoutCost(l, tenant, req)
      && (AvailableAt(after, payer, l.clock) >= 0 <==> AvailableAt(l, payer, l.clock) >= PayoutCost(l, tenant, req))
  {
    var to := l.accounts[req.destination].currency;
    ConversionAccountIsUsable(l.accounts, tenant, to);
    PayoutIsItsDelta(l, tenant, req);
    TransferEffect(l, tenant, req, key, fp, ConversionAccount(l.accounts, tenant, to).value);
  }
}
