/** Every service writes balanced, single-tenant transactions, so committing what it stages keeps the
    ledger consistent, whatever else was committed in between. Whether they are of one currency each
    is a matter of the chart. */
module ServiceLaws {
  import opened Wrappers
  import opened Money
  import opened Tables
  import opened PostingEngine
  import opened Services

  // ----- Validity of a committed state -----

  predicate HoldWellFormed(accounts: seq<Account>, h: Hold) {
    h.amount > 0 && h.account < |accounts| && accounts[h.account].tenant == h.tenant
  }

  predicate HoldsWellFormed(l: Ledger) {
    forall i | 0 <= i < |l.holds| :: HoldWellFormed(l.accounts, l.holds[i])
  }

  ghost predicate Valid(l: Ledger) {
    Consistent(l) && HoldsWellFormed(l)
  }

  // ----- What is staged is well posted -----

  lemma TwoLegsWellPosted(accounts: seq<Account>, tenant: string, x: AccountId, y: AccountId, amount: int, at: Instant)
    requires x < |accounts| && y < |accounts|
    requires accounts[x].tenant == tenant && accounts[y].tenant == tenant
    ensures WellPosted(accounts, tenant, TwoLegs(x, y, amount, at))
  {
    var legs := TwoLegs(x, y, amount, at);
    assert legs[..1] == [Leg(x, -amount, at)];
    assert SumOf(legs[..1]) == -amount;
  }

  lemma {:induction false} ConversionAccountsMatch(accounts: seq<Account>, tenant: string, c: Currency, a: AccountId)
    requires a in ConversionAccounts(accounts, tenant, c)
    ensures Usable(accounts, tenant, a) && accounts[a].path == ConversionPath(c)
  {
    var last := |accounts| - 1;
    if a in ConversionAccounts(accounts[..last], tenant, c) {
      ConversionAccountsMatch(accounts[..last], tenant, c, a);
    }
  }

  lemma ConversionAccountIsUsable(accounts: seq<Account>, tenant: string, c: Currency)
    ensures var found := ConversionAccount(accounts, tenant, c);
      found.Ok? ==> Usable(accounts, tenant, found.value) && accounts[found.value].path == ConversionPath(c)
  {
    var found := ConversionAccount(accounts, tenant, c);
    if found.Ok? {
      ConversionAccountsMatch(accounts, tenant, c, found.value);
    }
  }

  /** The account found for a currency, if one is found, holds it. Accounts are found by path alone,
      and `open_account` takes any currency at any path. */
  predicate HoldsItsCurrency(accounts: seq<Account>, tenant: string, c: Currency) {
    var found := ConversionAccount(accounts, tenant, c);
    found.Ok? ==> found.value < |accounts| && accounts[found.value].currency == c
  }

  /** The two accounts a conversion goes through hold the two currencies it is between. */
  predicate ConvertsHonestly(accounts: seq<Account>, tenant: string, req: TransferRequest) {
    req.source < |accounts| && req.destination < |accounts|
    && accounts[req.source].currency != accounts[req.destination].currency ==>
      && HoldsItsCurrency(accounts, tenant, accounts[req.source].currency)
      && HoldsItsCurrency(accounts, tenant, accounts[req.destination].currency)
  }

  lemma TransferIsWellPosted(l: Ledger, tenant: string, req: TransferRequest, at: Instant)
    requires Usable(l.accounts, tenant, req.source) && Usable(l.accounts, tenant, req.destination)
    requires TransferEntries(l, tenant, req, at).Ok?
    ensures AllWellPosted(l.accounts, tenant, TransferEntries(l, tenant, req, at).value)
  {
    var from, to := l.accounts[req.source].currency, l.accounts[req.destination].currency;
    var entries := TransferEntries(l, tenant, req, at).value;
    if from == to {
      var effectiveAt := if req.effectiveAt.Some? then req.effectiveAt.value else at;
      TwoLegsWellPosted(l.accounts, tenant, req.source, req.destination, req.amount, effectiveAt);
    } else {
      ConversionAccountIsUsable(l.accounts, tenant, from);
      ConversionAccountIsUsable(l.accounts, tenant, to);
      var debit, credit := entries[0].legs, entries[1].legs;
      TwoLegsWellPosted(l.accounts, tenant, debit[0].account, debit[1].account, debit[1].amount, debit[0].effectiveAt);
      TwoLegsWellPosted(l.accounts, tenant, credit[0].account, credit[1].account, credit[1].amount, credit[0].effectiveAt);
    }
  }

  lemma SingleCurrencyOfTwo(accounts: seq<Account>, x: AccountId, y: AccountId, amount: int, at: Instant)
    requires x < |accounts| && y < |accounts|
    ensures SingleCurrency(accounts, TwoLegs(x, y, amount, at)) <==> accounts[x].currency == accounts[y].currency
  {
    var legs := TwoLegs(x, y, amount, at);
    assert legs[0] in legs && legs[1] in legs;
  }

  /** What a transfer posts stays within one currency per transaction exactly when it does not
      convert, or converts through accounts of the right currencies. */
  lemma TransferIsSingleCurrencyIff(l: Ledger, tenant: string, req: TransferRequest, at: Instant)
    requires Usable(l.accounts, tenant, req.source) && Usable(l.accounts, tenant, req.destination)
    requires TransferEntries(l, tenant, req, at).Ok?
    ensures AllSingleCurrency(l.accounts, TransferEntries(l, tenant, req, at).value)
        <==> ConvertsHonestly(l.accounts, tenant, req)
  {
    var from, to := l.accounts[req.source].currency, l.accounts[req.destination].currency;
    var entries := TransferEntries(l, tenant, req, at).value;
    if from == to {
      var effectiveAt := if req.effectiveAt.Some? then req.effectiveAt.value else at;
      SingleCurrencyOfTwo(l.accounts, req.source, req.destination, req.amount, effectiveAt);
    } else {
      ConversionAccountIsUsable(l.accounts, tenant, from);
      ConversionAccountIsUsable(l.accounts, tenant, to);
      var debit, credit := entries[0].legs, entries[1].legs;
      SingleCurrencyOfTwo(l.accounts, debit[0].account, debit[1].account, debit[1].amount, debit[0].effectiveAt);
      SingleCurrencyOfTwo(l.accounts, credit[0].account, credit[1].account, credit[1].amount, credit[0].effectiveAt);
    }
  }

  /** Every account at a conversion path holds the currency the path names. */
  predicate HonestPaths(accounts: seq<Account>) {
    forall a <- accounts, c: Currency :: a.path == ConversionPath(c) ==> a.currency == c
  }

  /** A chart kept that way admits every conversion. */
  lemma HonestPathsConvertHonestly(accounts: seq<Account>, tenant: string, req: TransferRequest)
    requires HonestPaths(accounts)
    ensures ConvertsHonestly(accounts, tenant, req)
  {
    if req.source < |accounts| && req.destination < |accounts| {
      ConversionAccountIsUsable(accounts, tenant, accounts[req.source].currency);
      ConversionAccountIsUsable(accounts, tenant, accounts[req.destination].currency);
    }
  }

  lemma CaptureIsWellPosted(l: Ledger, tenant: string, id: HoldId, h: Hold, req: CaptureRequest, at: Instant)
    requires HoldWellFormed(l.accounts, h) && CaptureRefusal(l.accounts, tenant, h, req).None?
    ensures AllWellPosted(l.accounts, tenant, CaptureWrites(tenant, id, h, req, at).entries)
  {
    TwoLegsWellPosted(l.accounts, tenant, h.account, req.destination, CaptureAmount(h, req), at);
  }

  /** A capture refuses two currencies. */
  lemma CaptureIsSingleCurrency(accounts: seq<Account>, tenant: string, id: HoldId, h: Hold, req: CaptureRequest, at: Instant)
    requires CaptureRefusal(accounts, tenant, h, req).None?
    ensures AllSingleCurrency(accounts, CaptureWrites(tenant, id, h, req, at).entries)
  {
    SingleCurrencyOfTwo(accounts, h.account, req.destination, CaptureAmount(h, req), at);
  }

  // ----- A transaction's postings are its event's legs -----

  function LegsOf(ps: seq<Posting>): seq<Leg> {
    seq(|ps|, i requires 0 <= i < |ps| => ps[i].leg)
  }

  lemma {:induction false} PostingsOfConcat(ps: seq<Posting>, added: seq<Posting>, txn: TxnId)
    ensures PostingsOf(ps + added, txn) == PostingsOf(ps, txn) + PostingsOf(added, txn)
  {
    if added == [] {
      assert ps + added == ps;
    } else {
      PostingsOfConcat(ps, added[..|added| - 1], txn);
      assert (ps + added)[..|ps + added| - 1] == ps + added[..|added| - 1];
    }
  }

  lemma {:induction false} PostingsOfUniform(ps: seq<Posting>, own: TxnId, txn: TxnId)
    requires forall p <- ps :: p.txn == own
    ensures PostingsOf(ps, txn) == if own == txn then ps else []
  {
    if ps == [] {
    } else {
      PostingsOfUniform(ps[..|ps| - 1], own, txn);
    }
  }

  lemma LegsOfConcat(ps: seq<Posting>, added: seq<Posting>)
    ensures LegsOf(ps + added) == LegsOf(ps) + LegsOf(added)
  {
  }

  lemma PostingsForHoldsLegs(start: nat, e: Event)
    ensures LegsOf(PostingsFor(start, e)) == e.legs
    ensures forall p <- PostingsFor(start, e) :: p.txn == e.txn
  {
  }

  lemma {:induction false} JournalHoldsLegs(events: seq<Event>, txn: TxnId)
    requires forall t | 0 <= t < |events| :: events[t].txn == t
    ensures LegsOf(PostingsOf(Journal(events), txn)) == if txn < |events| then events[txn].legs else []
  {
    if events == [] {
    } else {
      var front, last := events[..|events| - 1], events[|events| - 1];
      var before := Journal(front);
      var added := PostingsFor(|before|, last);
      JournalHoldsLegs(front, txn);
      PostingsOfConcat(before, added, txn);
      PostingsForHoldsLegs(|before|, last);
      PostingsOfUniform(added, |events| - 1, txn);
      LegsOfConcat(PostingsOf(before, txn), PostingsOf(added, txn));
    }
  }

  lemma TransactionHasItsLegs(l: Ledger, txn: TxnId)
    requires Consistent(l) && txn < |l.txns|
    ensures LegsOf(PostingsOf(l.postings, txn)) == l.events[txn].legs
  {
    forall t: nat | t < |l.events| ensures l.events[t].txn == t { assert EventDescribes(l, t); }
    JournalHoldsLegs(l.events, txn);
  }

  /** `legs` undoes `original`: same accounts in the same order, every amount negated. */
  predicate Undoes(legs: seq<Leg>, original: seq<Leg>) {
    && |legs| == |original|
    && forall i | 0 <= i < |legs| :: legs[i].account == original[i].account && legs[i].amount == -original[i].amount
  }

  lemma {:induction false} UndoingSums(legs: seq<Leg>, original: seq<Leg>)
    requires Undoes(legs, original)
    ensures SumOf(legs) == -SumOf(original)
  {
    if legs == [] {
    } else {
      UndoingSums(legs[..|legs| - 1], original[..|original| - 1]);
    }
  }

  lemma UndoingIsWellPosted(accounts: seq<Account>, tenant: string, legs: seq<Leg>, original: seq<Leg>)
    requires Undoes(legs, original) && WellPosted(accounts, tenant, original)
    ensures WellPosted(accounts, tenant, legs)
  {
    UndoingSums(legs, original);
    forall leg | leg in legs ensures exists o <- original :: o.account == leg.account {
      var i :| 0 <= i < |legs| && legs[i] == leg;
      assert original[i] in original;
    }
  }

  lemma UndoingIsSingleCurrency(accounts: seq<Account>, legs: seq<Leg>, original: seq<Leg>)
    requires Undoes(legs, original) && SingleCurrency(accounts, original)
    ensures SingleCurrency(accounts, legs)
  {
    forall leg | leg in legs ensures exists o <- original :: o.account == leg.account {
      var i :| 0 <= i < |legs| && legs[i] == leg;
      assert original[i] in original;
    }
  }

  lemma WellPostedValidates(accounts: seq<Account>, tenant: string, legs: seq<Leg>)
    requires WellPosted(accounts, tenant, legs)
    ensures Validate(accounts, legs).Ok?
  {
  }

  lemma NegatingUndoes(ps: seq<Posting>, at: Instant)
    ensures Undoes(Negated(ps, at), LegsOf(ps))
  {
  }

  /** A reversal always passes the engine: it negates a transaction that did. */
  lemma ReversalIsWellPosted(l: Ledger, tenant: string, req: ReverseRequest, at: Instant)
    requires Consistent(l) && ReverseRefusal(l, tenant, req.txn).None?
    ensures var legs := Negated(PostingsOf(l.postings, req.txn), at);
      && Undoes(legs, l.events[req.txn].legs)
      && WellPosted(l.accounts, tenant, legs)
      && Validate(l.accounts, legs).Ok?
  {
    var ps := PostingsOf(l.postings, req.txn);
    TransactionHasItsLegs(l, req.txn);
    NegatingUndoes(ps, at);
    assert EventDescribes(l, req.txn);
    UndoingIsWellPosted(l.accounts, tenant, Negated(ps, at), l.events[req.txn].legs);
    WellPostedValidates(l.accounts, tenant, Negated(ps, at));
  }

  // ----- Committing keeps validity -----

  /** A well-formed set of writes: whoever staged it, whenever. */
  predicate WritesWellFormed(accounts: seq<Account>, w: Writes) {
    && AllWellPosted(accounts, w.tenant, w.entries)
    && (w.holdChange.PlaceHold? ==> HoldWellFormed(accounts, w.holdChange.hold))
  }

  lemma MovedFrame(l: Ledger, w: Writes)
    ensures var l' := Commit(l, w);
      && l'.accounts == l.accounts && l'.seeded == l.seeded && l'.rates == l.rates && l'.clock == l.clock
      && l'.holds == ChangeHolds(l.holds, w.holdChange, |l.txns|, w.at)
      && l'.txns == PostAll(l, w.tenant, w.at, w.entries).txns
      && l'.events == PostAll(l, w.tenant, w.at, w.entries).events
      && l'.postings == PostAll(l, w.tenant, w.at, w.entries).postings
      && l'.snapshots == PostAll(l, w.tenant, w.at, w.entries).snapshots
      && l'.records == match w.key {
           case None => l.records
           case Some(k) => l.records[k := Record(w.fingerprint, ResponseFor(l, Moved(l, w), w), w.at)]
         }
  {
    PostAllFrame(l, w.tenant, w.at, w.entries);
  }

  lemma CommitKeepsConsistent(l: Ledger, w: Writes)
    requires Consistent(l) && AllWellPosted(l.accounts, w.tenant, w.entries)
    ensures Consistent(Commit(l, w))
  {
    MovedFrame(l, w);
    PostAllKeepsConsistent(l, w.tenant, w.at, w.entries);
    var posted, l' := PostAll(l, w.tenant, w.at, w.entries), Commit(l, w);
    forall t: nat | t < |l'.txns| ensures EventDescribes(l', t) { assert EventDescribes(posted, t); }
  }

  /** Each new event carries what was posted. */
  lemma CommitRecords(l: Ledger, w: Writes, i: nat)
    requires |l.txns| == |l.events| && i < |w.entries|
    ensures var l', t := Commit(l, w), |l.txns| + i;
      && l'.accounts == l.accounts && t < |l'.txns| && t < |l'.events|
      && l'.txns[t].tenant == w.tenant && l'.events[t].legs == w.entries[i].legs
  {
    var posted := PostAll(l, w.tenant, w.at, w.entries);
    MovedFrame(l, w);
    PostAllFrame(l, w.tenant, w.at, w.entries);
    assert posted.txns[|l.txns| + i] == Transaction(w.tenant, w.entries[i].memo, w.entries[i].corrects, w.at);
    assert posted.events[|l.events| + i].legs == w.entries[i].legs;
  }

  lemma CommitKeepsCurrenciesApartIff(l: Ledger, w: Writes)
    requires |l.txns| == |l.events| && CurrenciesApart(l)
    ensures CurrenciesApart(Commit(l, w)) <==> AllSingleCurrency(l.accounts, w.entries)
  {
    var l', n := Commit(l, w), |l.events|;
    MovedFrame(l, w);
    PostAllFrame(l, w.tenant, w.at, w.entries);
    forall i | 0 <= i < |w.entries| ensures l'.events[n + i].legs == w.entries[i].legs {
      CommitRecords(l, w, i);
    }
    if AllSingleCurrency(l.accounts, w.entries) {
      forall t | 0 <= t < |l'.events| ensures SingleCurrency(l'.accounts, l'.events[t].legs) {
        if t < n { assert l'.events[t] == l'.events[..n][t]; } else { assert l'.events[n + (t - n)].legs == w.entries[t - n].legs; }
      }
    }
    if CurrenciesApart(l') {
      forall i | 0 <= i < |w.entries| ensures SingleCurrency(l.accounts, w.entries[i].legs) {
        assert l'.events[n + i].legs == w.entries[i].legs;
      }
    }
  }

  lemma ChangeKeepsHoldsWellFormed(accounts: seq<Account>, holds: seq<Hold>, change: HoldChange, txn: TxnId, at: Instant)
    requires forall i | 0 <= i < |holds| :: HoldWellFormed(accounts, holds[i])
    requires change.PlaceHold? ==> HoldWellFormed(accounts, change.hold)
    ensures var holds' := ChangeHolds(holds, change, txn, at);
      forall i | 0 <= i < |holds'| :: HoldWellFormed(accounts, holds'[i])
  {
  }

  lemma CommitKeepsValid(l: Ledger, w: Writes)
    requires Valid(l) && WritesWellFormed(l.accounts, w)
    ensures Valid(Commit(l, w))
  {
    CommitKeepsConsistent(l, w);
    MovedFrame(l, w);
    ChangeKeepsHoldsWellFormed(l.accounts, l.holds, w.holdChange, |l.txns|, w.at);
  }

  lemma StagedTransferIsWellFormed(l: Ledger, tenant: string, req: TransferRequest, key: Key, fingerprint: int, at: Instant)
    requires Usable(l.accounts, tenant, req.source) && Usable(l.accounts, tenant, req.destination)
    ensures var staged := TransferWrites(l, tenant, req, key, fingerprint, at);
      staged.Ok? ==> WritesWellFormed(l.accounts, staged.value)
  {
    if TransferEntries(l, tenant, req, at).Ok? {
      TransferIsWellPosted(l, tenant, req, at);
    }
  }

  lemma StagedReversalIsWellFormed(l: Ledger, tenant: string, req: ReverseRequest, key: Key, fingerprint: int, at: Instant)
    requires Consistent(l) && ReverseRefusal(l, tenant, req.txn).None?
    ensures WritesWellFormed(l.accounts, ReverseWrites(l, tenant, req, key, fingerprint, at))
  {
    ReversalIsWellPosted(l, tenant, req, at);
  }

  /** A reversal mixes no currencies if what it undoes does not. */
  lemma ReversalIsSingleCurrency(l: Ledger, tenant: string, req: ReverseRequest, key: Key, fingerprint: int, at: Instant)
    requires Consistent(l) && CurrenciesApart(l) && ReverseRefusal(l, tenant, req.txn).None?
    ensures AllSingleCurrency(l.accounts, ReverseWrites(l, tenant, req, key, fingerprint, at).entries)
  {
    ReversalIsWellPosted(l, tenant, req, at);
    UndoingIsSingleCurrency(l.accounts, Negated(PostingsOf(l.postings, req.txn), at), l.events[req.txn].legs);
  }

  lemma StagedCaptureIsWellFormed(l: Ledger, tenant: string, id: HoldId, req: CaptureRequest)
    requires HoldsWellFormed(l) && id < |l.holds|
    ensures var staged := StageCapture(l, tenant, id, req);
      staged.Ok? ==> WritesWellFormed(l.accounts, staged.value)
  {
    if StageCapture(l, tenant, id, req).Ok? {
      CaptureIsWellPosted(l, tenant, id, l.holds[id], req, l.clock);
    }
  }
}
