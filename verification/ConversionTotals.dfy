/** A conversion's accounts are found by path alone. What a conversion does to each currency's total,
    and when that is nothing. */
module ConversionTotals {
  import opened Wrappers
  import opened Money
  import opened Tables
  import opened PostingEngine
  import opened Services
  import opened ServiceLaws
  import opened ServiceEffects
  import opened Conservation
  import opened Funds
  import InterleavedFunds
  import Rates

  function OfCurrency(accounts: seq<Account>, a: AccountId, c: Currency, amount: int): int
    requires a < |accounts|
  {
    if accounts[a].currency == c then amount else 0
  }

  lemma TwoLegsShiftTotal(l: Ledger, tenant: string, at: Instant, e: Entry, x: AccountId, y: AccountId, amount: int,
      effectiveAt: Instant, c: Currency)
    requires OneRowPerAccount(l) && SnapshotsAgree(l) && SameTenant(l.accounts, tenant, e.legs)
    requires e.legs == TwoLegs(x, y, amount, effectiveAt)
    ensures x < |l.accounts| && y < |l.accounts|
    ensures Total(l.accounts, Post(l, tenant, at, e).snapshots, c)
         == Total(l.accounts, l.snapshots, c) - OfCurrency(l.accounts, x, c, amount) + OfCurrency(l.accounts, y, c, amount)
  {
    assert e.legs[0] in e.legs && e.legs[1] in e.legs;
    PostShiftsTotal(l, tenant, at, e, c);
    LegsInOfTwo(l.accounts, e.legs[0], e.legs[1], c);
  }

  lemma CommitShiftsTotals(l: Ledger, w: Writes, tenant: string, x: AccountId, y: AccountId, amount: int,
      u: AccountId, v: AccountId, value: int, effectiveAt: Instant, c: Currency)
    requires OneRowPerAccount(l) && SnapshotsAgree(l) && w.tenant == tenant && |w.entries| == 2
    requires w.entries[0].legs == TwoLegs(x, y, amount, effectiveAt) && w.entries[1].legs == TwoLegs(u, v, value, effectiveAt)
    requires SameTenant(l.accounts, tenant, w.entries[0].legs) && SameTenant(l.accounts, tenant, w.entries[1].legs)
    ensures x < |l.accounts| && y < |l.accounts| && u < |l.accounts| && v < |l.accounts|
    ensures Commit(l, w).accounts == l.accounts
    ensures Total(l.accounts, Commit(l, w).snapshots, c)
         == Total(l.accounts, l.snapshots, c)
            - OfCurrency(l.accounts, x, c, amount) + OfCurrency(l.accounts, y, c, amount)
            - OfCurrency(l.accounts, u, c, value) + OfCurrency(l.accounts, v, c, value)
  {
    var e, f := w.entries[0], w.entries[1];
    MovedFrame(l, w);
    assert w.entries == [e, f];
    PostAllTwo(l, tenant, w.at, e, f);
    TwoLegsShiftTotal(l, tenant, w.at, e, x, y, amount, effectiveAt, c);
    PostKeepsAgreement(l, tenant, w.at, e);
    TwoLegsShiftTotal(Post(l, tenant, w.at, e), tenant, w.at, f, u, v, value, effectiveAt, c);
  }

  // ----- One conversion -----

  predicate Converts(l: Ledger, tenant: string, req: TransferRequest, key: string) {
    TransferSucceeds(l, tenant, req, key) && l.accounts[req.source].currency != l.accounts[req.destination].currency
  }

  function Collector(l: Ledger, tenant: string, req: TransferRequest, key: string): (a: AccountId)
    requires Converts(l, tenant, req, key)
    ensures Usable(l.accounts, tenant, a) && a in ConversionAccounts(l.accounts, tenant, l.accounts[req.source].currency)
  {
    ConversionAccountIsUsable(l.accounts, tenant, l.accounts[req.source].currency);
    ConversionAccount(l.accounts, tenant, l.accounts[req.source].currency).value
  }

  function Payer(l: Ledger, tenant: string, req: TransferRequest, key: string): (a: AccountId)
    requires Converts(l, tenant, req, key)
    ensures Usable(l.accounts, tenant, a) && a in ConversionAccounts(l.accounts, tenant, l.accounts[req.destination].currency)
  {
    ConversionAccountIsUsable(l.accounts, tenant, l.accounts[req.destination].currency);
    ConversionAccount(l.accounts, tenant, l.accounts[req.destination].currency).value
  }

  function ValueOf(l: Ledger, tenant: string, req: TransferRequest, key: string): int
    requires Converts(l, tenant, req, key)
  {
    var from, to := l.accounts[req.source].currency, l.accounts[req.destination].currency;
    Convert(req.amount, from, to, Rates.Resolve(l.rates, from, to, EffectiveAt(l, req)).value.rate)
  }

  lemma ConversionCommits(l: Ledger, tenant: string, req: TransferRequest, key: string, fp: int)
    requires Valid(l) && Converts(l, tenant, req, key)
    ensures var k, at := Key(tenant, TRANSFERS, key), EffectiveAt(l, req);
      var w := TransferWrites(l, tenant, req, k, fp, l.clock);
      && w.Ok? && ExecuteTransfer(l, tenant, req, key, fp).0 == Commit(l, w.value)
      && w.value.tenant == tenant && w.value.at == l.clock && |w.value.entries| == 2
      && w.value.entries[0].legs == TwoLegs(req.source, Collector(l, tenant, req, key), req.amount, at)
      && w.value.entries[1].legs == TwoLegs(Payer(l, tenant, req, key), req.destination, ValueOf(l, tenant, req, key), at)
      && SameTenant(l.accounts, tenant, w.value.entries[0].legs) && SameTenant(l.accounts, tenant, w.value.entries[1].legs)
  {
    ServiceReadsAvailable(l, tenant, req.source, l.clock);
  }

  /** What a conversion adds to one currency's total. */
  function TotalShift(l: Ledger, tenant: string, req: TransferRequest, key: string, c: Currency): int
    requires Converts(l, tenant, req, key)
  {
    var value := ValueOf(l, tenant, req, key);
    - OfCurrency(l.accounts, req.source, c, req.amount) + OfCurrency(l.accounts, Collector(l, tenant, req, key), c, req.amount)
    - OfCurrency(l.accounts, Payer(l, tenant, req, key), c, value) + OfCurrency(l.accounts, req.destination, c, value)
  }

  lemma ConversionShiftsTotals(l: Ledger, tenant: string, req: TransferRequest, key: string, fp: int, c: Currency)
    requires Valid(l) && Converts(l, tenant, req, key)
    ensures var after := ExecuteTransfer(l, tenant, req, key, fp).0;
      && after.accounts == l.accounts
      && Total(l.accounts, after.snapshots, c) == Total(l.accounts, l.snapshots, c) + TotalShift(l, tenant, req, key, c)
  {
    ConversionCommits(l, tenant, req, key, fp);
    CommittedConversionShifts(l, tenant, req, key, TransferWrites(l, tenant, req, Key(tenant, TRANSFERS, key), fp, l.clock).value, c);
  }

  lemma CommittedConversionShifts(l: Ledger, tenant: string, req: TransferRequest, key: string, w: Writes, c: Currency)
    requires Valid(l) && Converts(l, tenant, req, key) && w.tenant == tenant && |w.entries| == 2
    requires w.entries[0].legs == TwoLegs(req.source, Collector(l, tenant, req, key), req.amount, EffectiveAt(l, req))
    requires w.entries[1].legs == TwoLegs(Payer(l, tenant, req, key), req.destination, ValueOf(l, tenant, req, key), EffectiveAt(l, req))
    requires SameTenant(l.accounts, tenant, w.entries[0].legs) && SameTenant(l.accounts, tenant, w.entries[1].legs)
    ensures Commit(l, w).accounts == l.accounts
    ensures Total(l.accounts, Commit(l, w).snapshots, c) == Total(l.accounts, l.snapshots, c) + TotalShift(l, tenant, req, key, c)
  {
    CommitShiftsTotals(l, w, tenant, req.source, Collector(l, tenant, req, key), req.amount,
      Payer(l, tenant, req, key), req.destination, ValueOf(l, tenant, req, key), EffectiveAt(l, req), c);
  }

  /** A conversion moves no currency's total exactly when its collecting account holds the source's
      currency and its paying account the destination's, or pays nothing. */
  lemma ConversionKeepsTotalsIff(l: Ledger, tenant: string, req: TransferRequest, key: string, fp: int)
    requires Valid(l) && Rates.NonNegativeRates(l.rates) && Converts(l, tenant, req, key)
    ensures var after := ExecuteTransfer(l, tenant, req, key, fp).0;
      TotalsKept(l, after.snapshots)
      <==> && HoldsItsCurrency(l.accounts, tenant, l.accounts[req.source].currency)
           && (HoldsItsCurrency(l.accounts, tenant, l.accounts[req.destination].currency) || ValueOf(l, tenant, req, key) == 0)
  {
    var after := ExecuteTransfer(l, tenant, req, key, fp).0;
    forall c: Currency
      ensures Total(l.accounts, after.snapshots, c) == Total(l.accounts, l.snapshots, c) + TotalShift(l, tenant, req, key, c)
    {
      ConversionShiftsTotals(l, tenant, req, key, fp, c);
    }
    TotalsKeptIff(l, after.snapshots, tenant, req, key);
    ValueIsNotNegative(l, tenant, req, key);
    ShiftsVanishIff(l, tenant, req, key);
  }

  lemma ValueIsNotNegative(l: Ledger, tenant: string, req: TransferRequest, key: string)
    requires Rates.NonNegativeRates(l.rates) && Converts(l, tenant, req, key)
    ensures ValueOf(l, tenant, req, key) >= 0
  {
    var from, to := l.accounts[req.source].currency, l.accounts[req.destination].currency;
    Rates.ResolvedRateIsNonNegative(l.rates, from, to, EffectiveAt(l, req));
    InterleavedFunds.ConversionPaysNoLess(req.amount, from, to, Rates.Resolve(l.rates, from, to, EffectiveAt(l, req)).value.rate);
  }

  ghost predicate NothingShifts(l: Ledger, tenant: string, req: TransferRequest, key: string)
    requires Converts(l, tenant, req, key)
  {
    forall c: Currency :: TotalShift(l, tenant, req, key, c) == 0
  }

  lemma TotalsKeptIff(l: Ledger, after: map<AccountId, Snapshot>, tenant: string, req: TransferRequest, key: string)
    requires Converts(l, tenant, req, key)
    requires forall c: Currency ::
      Total(l.accounts, after, c) == Total(l.accounts, l.snapshots, c) + TotalShift(l, tenant, req, key, c)
    ensures TotalsKept(l, after) <==> NothingShifts(l, tenant, req, key)
  {
    if TotalsKept(l, after) {
      forall c: Currency ensures TotalShift(l, tenant, req, key, c) == 0 {
        assert Total(l.accounts, after, c) == Total(l.accounts, l.snapshots, c);
      }
    }
  }

  lemma ShiftsVanishIff(l: Ledger, tenant: string, req: TransferRequest, key: string)
    requires Converts(l, tenant, req, key) && ValueOf(l, tenant, req, key) >= 0
    ensures NothingShifts(l, tenant, req, key)
      <==> && HoldsItsCurrency(l.accounts, tenant, l.accounts[req.source].currency)
           && (HoldsItsCurrency(l.accounts, tenant, l.accounts[req.destination].currency) || ValueOf(l, tenant, req, key) == 0)
  {
    var from, to := l.accounts[req.source].currency, l.accounts[req.destination].currency;
    assert TotalShift(l, tenant, req, key, from) == 0 && TotalShift(l, tenant, req, key, to) == 0
      <== NothingShifts(l, tenant, req, key);
  }

  // ----- A mislabelled conversion account -----

  predicate Shifted(l: Ledger, l': Ledger, c: Currency, change: int) {
    l'.accounts == l.accounts && Total(l.accounts, l'.snapshots, c) == Total(l.accounts, l.snapshots, c) + change
  }

  /** Collected on an account of another currency, the amount leaves the one total and enters the other. */
  lemma MiscollectedConversionShifts(l: Ledger, tenant: string, req: TransferRequest, key: string, fp: int)
    requires Valid(l) && Converts(l, tenant, req, key)
    requires !HoldsItsCurrency(l.accounts, tenant, l.accounts[req.source].currency)
    requires HoldsItsCurrency(l.accounts, tenant, l.accounts[req.destination].currency)
    ensures var after := ExecuteTransfer(l, tenant, req, key, fp).0;
      && Shifted(l, after, l.accounts[req.source].currency, 0 - req.amount)
      && Shifted(l, after, l.accounts[Collector(l, tenant, req, key)].currency, req.amount)
  {
    ConversionShiftsTotals(l, tenant, req, key, fp, l.accounts[req.source].currency);
    ConversionShiftsTotals(l, tenant, req, key, fp, l.accounts[Collector(l, tenant, req, key)].currency);
  }

  /** Dollars are collected on an account that was opened in pounds. */
  const MISLABELLED: Ledger :=
    Ledger([Account("t", "cash", USD, true), Account("t", "shop", EUR, true),
            Account("t", "platform.fx.conversion.usd", GBP, true), Account("t", "platform.fx.conversion.eur", EUR, true)],
           map[0 := Snapshot("t", 100, 0, None), 1 := Snapshot("t", 0, 0, None),
               2 := Snapshot("t", 0, 0, None), 3 := Snapshot("t", 0, 0, None)],
           map[0 := Snapshot("t", 100, 0, None), 1 := Snapshot("t", 0, 0, None),
               2 := Snapshot("t", 0, 0, None), 3 := Snapshot("t", 0, 0, None)],
           [], [], [], [], map[], [Rates.Rate(0, USD, EUR, 1.0, "manual", 0)], 0)

  lemma MislabelledAccountsAreFound()
    ensures ConversionAccounts(MISLABELLED.accounts, "t", USD) == [2]
    ensures ConversionAccounts(MISLABELLED.accounts, "t", EUR) == [3]
  {
    var accounts := MISLABELLED.accounts;
    var three, two, one := accounts[..3], accounts[..2], accounts[..1];
    assert three[..2] == two && two[..1] == one && one[..0] == [];
    assert one[0].path[0] == 'c' && two[1].path[0] == 's';
    assert ConversionPath(USD) == "platform.fx.conversion.usd" && ConversionPath(EUR) == "platform.fx.conversion.eur";
    assert accounts[2].path[|"platform.fx.conversion."|] == 'u' && accounts[3].path[|"platform.fx.conversion."|] == 'e';
    forall c: Currency | c == USD || c == EUR ensures ConversionAccounts(one, "t", c) == [] {
      assert ConversionAccounts(one[..0], "t", c) == [];
      assert ConversionPath(c)[0] == 'p';
    }
    forall c: Currency | c == USD || c == EUR ensures ConversionAccounts(two, "t", c) == [] {
      assert ConversionPath(c)[0] == 'p';
    }
    assert three[2].path == ConversionPath(USD) && three[2].path != ConversionPath(EUR);
    assert ConversionAccounts(three, "t", USD) == [2] && ConversionAccounts(three, "t", EUR) == [];
  }

  lemma UnusedLedgerIsValid(l: Ledger)
    requires l.txns == [] && l.postings == [] && l.events == [] && l.holds == []
    requires OneRowPerAccount(l) && l.seeded == l.snapshots
    ensures Valid(l)
  {
  }

  lemma MislabelledIsValid()
    ensures Valid(MISLABELLED)
  {
    forall a ensures a in MISLABELLED.snapshots <==> 0 <= a < |MISLABELLED.accounts| {}
    UnusedLedgerIsValid(MISLABELLED);
  }

  lemma MislabelledRateResolves()
    ensures Rates.Resolve(MISLABELLED.rates, USD, EUR, 0).Ok?
  {
    assert MISLABELLED.rates[..0] == [];
  }

  lemma MislabelledTransferConverts(req: TransferRequest)
    requires req == TransferRequest(0, 1, 100, "", None)
    ensures Converts(MISLABELLED, "t", req, "k")
    ensures !HoldsItsCurrency(MISLABELLED.accounts, "t", USD) && HoldsItsCurrency(MISLABELLED.accounts, "t", EUR)
    ensures MISLABELLED.accounts[Collector(MISLABELLED, "t", req, "k")].currency == GBP
  {
    MislabelledAccountsAreFound();
    MislabelledRateResolves();
    assert AvailableAt(MISLABELLED, 0, 0) == 100;
  }

  /** One transfer of a dollar there, and the dollars total a dollar less, the pounds a pound more. */
  lemma MislabelledConversionShiftsTotals(req: TransferRequest)
    requires req == TransferRequest(0, 1, 100, "", None)
    ensures Valid(MISLABELLED) && Converts(MISLABELLED, "t", req, "k")
    ensures Shifted(MISLABELLED, ExecuteTransfer(MISLABELLED, "t", req, "k", 0).0, USD, -100)
    ensures Shifted(MISLABELLED, ExecuteTransfer(MISLABELLED, "t", req, "k", 0).0, GBP, 100)
  {
    MislabelledIsValid();
    MislabelledTransferConverts(req);
    MiscollectedConversionShifts(MISLABELLED, "t", req, "k", 0);
  }
}
