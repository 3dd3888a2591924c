/** What each service call is worth to its caller: what it answers in every case, exactly when it
    succeeds, what then moves on every account, and that a call which does not succeed leaves no trace. */
module ServiceEffects {
  import opened Wrappers
  import opened Money
  import opened Tables
  import opened PostingEngine
  import opened Services
  import opened ServiceLaws
  import opened Funds
  import Conversion
  import Rates

  /** What moving `amount` from `x` to `y` does to the balance of `a`. */
  function Move(x: AccountId, y: AccountId, amount: int, a: AccountId): int {
    (if a == y then amount else 0) - (if a == x then amount else 0)
  }

  /** An open account of the tenant's own. */
  predicate OpenTo(l: Ledger, tenant: string, a: AccountId) {
    a < |l.accounts| && l.accounts[a].tenant == tenant && l.accounts[a].isOpen
  }

  /** What a call under a key that was recorded answers. */
  function Retried(r: Record, fp: int): Outcome {
    if r.fingerprint == fp then Replayed(r.response) else Refused(IdempotencyConflict)
  }

  lemma CommitAddsOne(l: Ledger, w: Writes)
    requires |w.entries| == 1
    ensures Adds(l, Commit(l, w), w.tenant, w.at, w.entries[0].memo, w.entries[0].corrects, w.entries[0].legs)
  {
    MovedFrame(l, w);
    assert w.entries == [w.entries[0]];
    PostAllOne(l, w.tenant, w.at, w.entries[0]);
    PostAdds(l, w.tenant, w.at, w.entries[0]);
  }

  lemma CommitAddsTwo(l: Ledger, w: Writes)
    requires |w.entries| == 2 && w.entries[0].corrects.None? && w.entries[1].corrects.None?
    ensures AddsTwo(l, Commit(l, w), w.tenant, w.at, w.entries[0].memo, w.entries[0].legs, w.entries[1].memo, w.entries[1].legs)
  {
    MovedFrame(l, w);
    assert w.entries == [w.entries[0], w.entries[1]];
    PostAllTwo(l, w.tenant, w.at, w.entries[0], w.entries[1]);
    PostTwiceAddsTwo(l, w.tenant, w.at, w.entries[0], w.entries[1]);
  }

  // ----- Conversion accounts -----

  /** The path of a currency's conversion account. */
  function PathOf(c: Currency): string {
    match c
    case USD => "platform.fx.conversion.usd"
    case EUR => "platform.fx.conversion.eur"
    case GBP => "platform.fx.conversion.gbp"
    case CAD => "platform.fx.conversion.cad"
  }

  predicate AtPath(accounts: seq<Account>, tenant: string, c: Currency, a: AccountId) {
    a < |accounts| && accounts[a].tenant == tenant && accounts[a].isOpen && accounts[a].path == PathOf(c)
  }

  lemma PathsAreWritten(c: Currency)
    ensures ConversionPath(c) == PathOf(c)
  {
  }

  lemma ConversionAccountsSnoc(accounts: seq<Account>, tenant: string, c: Currency)
    requires accounts != []
    ensures var n := |accounts| - 1;
      ConversionAccounts(accounts, tenant, c)
        == ConversionAccounts(accounts[..n], tenant, c) + (if AtPath(accounts, tenant, c, n) then [n] else [])
    ensures forall a: nat | a < |accounts| - 1 :: AtPath(accounts[..|accounts| - 1], tenant, c, a) <==> AtPath(accounts, tenant, c, a)
  {
    PathsAreWritten(c);
  }

  /** The search finds every one there is, once, in order. */
  lemma {:induction false} ConversionAccountsAreAll(accounts: seq<Account>, tenant: string, c: Currency)
    ensures var found := ConversionAccounts(accounts, tenant, c);
      && (forall a: nat :: a in found <==> AtPath(accounts, tenant, c, a))
      && forall i, j | 0 <= i < j < |found| :: found[i] < found[j]
  {
    if accounts == [] {
    } else {
      var n := |accounts| - 1;
      var before := ConversionAccounts(accounts[..n], tenant, c);
      ConversionAccountsAreAll(accounts[..n], tenant, c);
      ConversionAccountsSnoc(accounts, tenant, c);
      forall i | 0 <= i < |before| ensures before[i] < n {
        assert before[i] in before;
        assert AtPath(accounts[..n], tenant, c, before[i]);
      }
      forall a: nat ensures a in ConversionAccounts(accounts, tenant, c) <==> AtPath(accounts, tenant, c, a) {
        assert a in before <==> AtPath(accounts[..n], tenant, c, a);
      }
    }
  }

  /** It answers with an account exactly when that is the only one, and otherwise says which is wrong. */
  lemma ConversionAccountSays(accounts: seq<Account>, tenant: string, c: Currency)
    ensures match ConversionAccount(accounts, tenant, c)
      case Ok(a) => AtPath(accounts, tenant, c, a) && forall b: nat | AtPath(accounts, tenant, c, b) :: b == a
      case Err(f) =>
        if forall b: nat :: !AtPath(accounts, tenant, c, b) then f == ConversionAccountMissing
        else f == ConversionAccountAmbiguous
             && exists a: nat, b: nat :: a != b && AtPath(accounts, tenant, c, a) && AtPath(accounts, tenant, c, b)
  {
    var found := ConversionAccounts(accounts, tenant, c);
    ConversionAccountsAreAll(accounts, tenant, c);
    if found == [] {
      forall b: nat ensures !AtPath(accounts, tenant, c, b) { assert b !in found; }
    } else {
      assert AtPath(accounts, tenant, c, found[0]) by { assert found[0] in found; }
      if |found| > 1 {
        assert AtPath(accounts, tenant, c, found[1]) by { assert found[1] in found; }
        assert found[0] != found[1];
      } else {
        forall b: nat | AtPath(accounts, tenant, c, b) ensures b == found[0] { assert b in found; }
      }
    }
  }

  // ----- Transfers -----

  predicate CanConvert(l: Ledger, tenant: string, from: Currency, to: Currency, at: Instant) {
    && Rates.Resolve(l.rates, from, to, at).Ok?
    && ConversionAccount(l.accounts, tenant, from).Ok? && ConversionAccount(l.accounts, tenant, to).Ok?
  }

  function EffectiveAt(l: Ledger, req: TransferRequest): Instant {
    if req.effectiveAt.Some? then req.effectiveAt.value else l.clock
  }

  predicate TransferSucceeds(l: Ledger, tenant: string, req: TransferRequest, key: string) {
    && Key(tenant, "transfers.create", key) !in l.records
    && OpenTo(l, tenant, req.source) && OpenTo(l, tenant, req.destination)
    && AvailableAt(l, req.source, l.clock) >= req.amount
    && (l.accounts[req.source].currency == l.accounts[req.destination].currency
        || CanConvert(l, tenant, l.accounts[req.source].currency, l.accounts[req.destination].currency, EffectiveAt(l, req)))
  }

  /** In one currency the amount moves from source to destination. Across currencies it moves to the
      source currency's conversion account, and its value, rounded half to even once, moves from the
      destination currency's conversion account. */
  function TransferDelta(l: Ledger, tenant: string, req: TransferRequest, a: AccountId): int
    requires req.source < |l.accounts| && req.destination < |l.accounts|
  {
    var from, to := l.accounts[req.source].currency, l.accounts[req.destination].currency;
    if from == to then Move(req.source, req.destination, req.amount, a)
    else if CanConvert(l, tenant, from, to, EffectiveAt(l, req)) then
      var rate := Rates.Resolve(l.rates, from, to, EffectiveAt(l, req)).value.rate;
      var value := Conversion.Scaled(req.amount, Conversion.Scale(Exponent(from), Exponent(to), rate));
      Move(req.source, ConversionAccount(l.accounts, tenant, from).value, req.amount, a)
      + Move(ConversionAccount(l.accounts, tenant, to).value, req.destination, value, a)
    else 0
  }

  lemma TransferEntriesNet(l: Ledger, tenant: string, req: TransferRequest, a: AccountId)
    requires Usable(l.accounts, tenant, req.source) && Usable(l.accounts, tenant, req.destination)
    ensures var entries := TransferEntries(l, tenant, req, l.clock);
      var from, to := l.accounts[req.source].currency, l.accounts[req.destination].currency;
      && (entries.Ok? <==> from == to || CanConvert(l, tenant, from, to, EffectiveAt(l, req)))
      && (entries.Ok? ==> NetOf(entries.value, a) == TransferDelta(l, tenant, req, a))
  {
    var from, to := l.accounts[req.source].currency, l.accounts[req.destination].currency;
    var entries, at := TransferEntries(l, tenant, req, l.clock), EffectiveAt(l, req);
    if entries.Ok? {
      if from == to {
        NetOfOne(entries.value[0], a);
        NetOfTwoLegs(req.source, req.destination, req.amount, at, a);
      } else {
        var rate := Rates.Resolve(l.rates, from, to, at).value.rate;
        Conversion.ConvertRoundsOnce(req.amount, from, to, rate);
        NetOfTwo(entries.value[0], entries.value[1], a);
        NetOfTwoLegs(req.source, ConversionAccount(l.accounts, tenant, from).value, req.amount, at, a);
        NetOfTwoLegs(ConversionAccount(l.accounts, tenant, to).value, req.destination, Convert(req.amount, from, to, rate), at, a);
      }
    }
  }

  /** Why a transfer under a new key fails, if it does, in the order in which the service looks. */
  function TransferFailure(l: Ledger, tenant: string, req: TransferRequest): Option<Failure> {
    if !OpenTo(l, tenant, req.source) || !OpenTo(l, tenant, req.destination) then Some(AccountNotFoundOrClosed)
    else if AvailableAt(l, req.source, l.clock) < req.amount then Some(InsufficientFunds)
    else if l.accounts[req.source].currency == l.accounts[req.destination].currency then None
    else ConversionFailure(l, tenant, l.accounts[req.source].currency, l.accounts[req.destination].currency, EffectiveAt(l, req))
  }

  function ConversionFailure(l: Ledger, tenant: string, from: Currency, to: Currency, at: Instant): Option<Failure> {
    var collector, payer := ConversionAccount(l.accounts, tenant, from), ConversionAccount(l.accounts, tenant, to);
    if Rates.Resolve(l.rates, from, to, at).Err? then Some(NoRate)
    else if collector.Err? then Some(collector.error)
    else if payer.Err? then Some(payer.error)
    else None
  }

  /** A key that was used answers as it did then, or conflicts. Under a new key a transfer succeeds exactly
      when it can; if not it says why, and changes nothing. */
  lemma TransferSucceedsIff(l: Ledger, tenant: string, req: TransferRequest, key: string, fp: int)
    requires Valid(l)
    ensures var (after, outcome) := ExecuteTransfer(l, tenant, req, key, fp);
      var k := Key(tenant, "transfers.create", key);
      && (outcome.Done? <==> TransferSucceeds(l, tenant, req, key))
      && (!outcome.Done? ==>
            && after == l
            && (k in l.records ==> outcome == Retried(l.records[k], fp))
            && (k !in l.records ==> TransferFailure(l, tenant, req).Some? && outcome == Refused(TransferFailure(l, tenant, req).value)))
  {
    if OpenTo(l, tenant, req.source) && OpenTo(l, tenant, req.destination) {
      ServiceReadsAvailable(l, tenant, req.source, l.clock);
      TransferEntriesNet(l, tenant, req, req.source);
    }
  }

  /** A transfer that succeeds moves exactly this on every account, answers with the balances it
      leaves, and records that answer under its key. */
  lemma TransferEffect(l: Ledger, tenant: string, req: TransferRequest, key: string, fp: int, a: AccountId)
    requires Valid(l) && TransferSucceeds(l, tenant, req, key) && a < |l.accounts|
    ensures var (after, outcome) := ExecuteTransfer(l, tenant, req, key, fp);
      && BalanceOr(after, a) == BalanceOr(l, a) + TransferDelta(l, tenant, req, a)
      && after.accounts == l.accounts && after.holds == l.holds && after.clock == l.clock
      && outcome == Done(TransferResponse(|l.txns|, BalanceOr(after, req.source), BalanceOr(after, req.destination)))
      && after.records == l.records[Key(tenant, "transfers.create", key) := Record(fp, outcome.response, l.clock)]
  {
    var k := Key(tenant, TRANSFERS, key);
    ServiceReadsAvailable(l, tenant, req.source, l.clock);
    TransferEntriesNet(l, tenant, req, a);
    var w := TransferWrites(l, tenant, req, k, fp, l.clock).value;
    TransferIsWellPosted(l, tenant, req, l.clock);
    CommitMovesBalance(l, w, a);
    MovedFrame(l, w);
  }

  function TransferStaged(l: Ledger, tenant: string, req: TransferRequest, key: string, fp: int): Writes
    requires OpenTo(l, tenant, req.source) && OpenTo(l, tenant, req.destination) && TransferEntries(l, tenant, req, l.clock).Ok?
  {
    Writes(tenant, l.clock, TransferEntries(l, tenant, req, l.clock).value, KeepHolds, Some(Key(tenant, TRANSFERS, key)), fp,
           TransferReply(req.source, req.destination))
  }

  lemma TransferCommits(l: Ledger, tenant: string, req: TransferRequest, key: string, fp: int)
    requires Valid(l) && TransferSucceeds(l, tenant, req, key)
    ensures TransferEntries(l, tenant, req, l.clock).Ok?
    ensures ExecuteTransfer(l, tenant, req, key, fp).0 == Commit(l, TransferStaged(l, tenant, req, key, fp))
  {
    ServiceReadsAvailable(l, tenant, req.source, l.clock);
  }

  /** Within one currency a transfer adds one transaction of two legs, source first, effective when the
      request says and otherwise now. */
  lemma TransferRows(l: Ledger, tenant: string, req: TransferRequest, key: string, fp: int)
    requires Valid(l) && TransferSucceeds(l, tenant, req, key)
    requires l.accounts[req.source].currency == l.accounts[req.destination].currency
    ensures var at := if req.effectiveAt.Some? then req.effectiveAt.value else l.clock;
      Adds(l, ExecuteTransfer(l, tenant, req, key, fp).0, tenant, l.clock, Text(req.memo), None,
           [Leg(req.source, 0 - req.amount, at), Leg(req.destination, req.amount, at)])
  {
    TransferCommits(l, tenant, req, key, fp);
    CommitAddsOne(l, TransferStaged(l, tenant, req, key, fp));
  }

  /** Across currencies it adds two: the amount from the source to `collector`, and `value` from `payer` to
      the destination, both saying at what rate and whose. */
  predicate ConversionAdds(l: Ledger, after: Ledger, tenant: string, req: TransferRequest, collector: AccountId, payer: AccountId,
      rate: real, provenance: Rates.Provenance, value: int)
  {
    var at := if req.effectiveAt.Some? then req.effectiveAt.value else l.clock;
    AddsTwo(l, after, tenant, l.clock,
      FxLeg(req.memo, DebitSide, rate, provenance), [Leg(req.source, 0 - req.amount, at), Leg(collector, req.amount, at)],
      FxLeg(req.memo, CreditSide, rate, provenance), [Leg(payer, -value, at), Leg(req.destination, value, at)])
  }

  /** Both entries of a conversion. */
  predicate IsConversion(entries: seq<Entry>, req: TransferRequest, collector: AccountId, payer: AccountId, rate: real,
      provenance: Rates.Provenance, at: Instant, value: int)
  {
    && |entries| == 2
    && entries[0] == Entry(TwoLegs(req.source, collector, req.amount, at), FxLeg(req.memo, DebitSide, rate, provenance), None)
    && entries[1] == Entry(TwoLegs(payer, req.destination, value, at), FxLeg(req.memo, CreditSide, rate, provenance), None)
  }

  lemma ConversionLands(l: Ledger, tenant: string, req: TransferRequest, w: Writes, collector: AccountId, payer: AccountId,
      rate: real, provenance: Rates.Provenance, value: int)
    requires w.tenant == tenant && w.at == l.clock
    requires IsConversion(w.entries, req, collector, payer, rate, provenance, EffectiveAt(l, req), value)
    ensures ConversionAdds(l, Commit(l, w), tenant, req, collector, payer, rate, provenance, value)
  {
    CommitAddsTwo(l, w);
  }

  /** The rate and the two accounts a conversion finds. */
  predicate ConvertsAt(l: Ledger, tenant: string, req: TransferRequest, rate: Rates.ResolvedRate, collector: AccountId, payer: AccountId) {
    && OpenTo(l, tenant, req.source) && OpenTo(l, tenant, req.destination)
    && l.accounts[req.source].currency != l.accounts[req.destination].currency
    && Rates.Resolve(l.rates, l.accounts[req.source].currency, l.accounts[req.destination].currency, EffectiveAt(l, req)) == Ok(rate)
    && ConversionAccount(l.accounts, tenant, l.accounts[req.source].currency) == Ok(collector)
    && ConversionAccount(l.accounts, tenant, l.accounts[req.destination].currency) == Ok(payer)
  }

  lemma ConversionEntries(l: Ledger, tenant: string, req: TransferRequest, rate: Rates.ResolvedRate, collector: AccountId, payer: AccountId,
      value: int)
    requires ConvertsAt(l, tenant, req, rate, collector, payer)
    requires value == Convert(req.amount, l.accounts[req.source].currency, l.accounts[req.destination].currency, rate.rate)
    ensures TransferEntries(l, tenant, req, l.clock).Ok?
    ensures IsConversion(TransferEntries(l, tenant, req, l.clock).value, req, collector, payer, rate.rate, rate.provenance,
      EffectiveAt(l, req), value)
  {
  }

  lemma ConversionRows(l: Ledger, tenant: string, req: TransferRequest, key: string, fp: int, rate: Rates.ResolvedRate,
      collector: AccountId, payer: AccountId, value: int)
    requires Valid(l) && TransferSucceeds(l, tenant, req, key) && ConvertsAt(l, tenant, req, rate, collector, payer)
    requires value == Convert(req.amount, l.accounts[req.source].currency, l.accounts[req.destination].currency, rate.rate)
    ensures ConversionAdds(l, ExecuteTransfer(l, tenant, req, key, fp).0, tenant, req, collector, payer, rate.rate, rate.provenance, value)
  {
    TransferCommits(l, tenant, req, key, fp);
    ConversionEntries(l, tenant, req, rate, collector, payer, value);
    ConversionLands(l, tenant, req, TransferStaged(l, tenant, req, key, fp), collector, payer, rate.rate, rate.provenance, value);
  }

  /** A conversion for which the asked direction is quoted goes at that quote, through the only accounts at
      the two currencies' paths, and pays the amount times the quote, rounded half to even. */
  lemma ConversionGoesAtTheQuote(l: Ledger, tenant: string, req: TransferRequest, key: string, fp: int, quote: Rates.Rate,
      collector: AccountId, payer: AccountId)
    requires Valid(l) && TransferSucceeds(l, tenant, req, key)
    requires l.accounts[req.source].currency != l.accounts[req.destination].currency
    requires Rates.Governs(l.rates, l.accounts[req.source].currency, l.accounts[req.destination].currency, EffectiveAt(l, req), quote)
    requires AtPath(l.accounts, tenant, l.accounts[req.source].currency, collector)
    requires AtPath(l.accounts, tenant, l.accounts[req.destination].currency, payer)
    ensures ConversionAdds(l, ExecuteTransfer(l, tenant, req, key, fp).0, tenant, req, collector, payer,
      quote.rate, Rates.Direct(quote.source), Conversion.AtRate(req.amount, quote.rate))
  {
    var from, to := l.accounts[req.source].currency, l.accounts[req.destination].currency;
    Rates.DirectQuoteIsUsed(l.rates, from, to, EffectiveAt(l, req), quote);
    ConversionAccountSays(l.accounts, tenant, from);
    ConversionAccountSays(l.accounts, tenant, to);
    var rate := Rates.Resolve(l.rates, from, to, EffectiveAt(l, req)).value;
    ConversionRows(l, tenant, req, key, fp, rate, collector, payer, Convert(req.amount, from, to, quote.rate));
    Conversion.ConvertPaysAmountTimesRate(req.amount, from, to, quote.rate);
  }

  /** One for which only the other direction is quoted goes at the reciprocal of that quote. */
  lemma ConversionGoesAtTheReciprocal(l: Ledger, tenant: string, req: TransferRequest, key: string, fp: int, quote: Rates.Rate,
      inverse: real, collector: AccountId, payer: AccountId)
    requires Valid(l) && TransferSucceeds(l, tenant, req, key)
    requires l.accounts[req.source].currency != l.accounts[req.destination].currency
    requires Rates.Unquoted(l.rates, l.accounts[req.source].currency, l.accounts[req.destination].currency, EffectiveAt(l, req))
    requires Rates.Governs(l.rates, l.accounts[req.destination].currency, l.accounts[req.source].currency, EffectiveAt(l, req), quote)
    requires inverse * quote.rate == 1.0
    requires AtPath(l.accounts, tenant, l.accounts[req.source].currency, collector)
    requires AtPath(l.accounts, tenant, l.accounts[req.destination].currency, payer)
    ensures ConversionAdds(l, ExecuteTransfer(l, tenant, req, key, fp).0, tenant, req, collector, payer,
      inverse, Rates.Reciprocal(quote.source), Conversion.AtRate(req.amount, inverse))
  {
    var from, to := l.accounts[req.source].currency, l.accounts[req.destination].currency;
    Rates.ReciprocalIs(l.rates, from, to, EffectiveAt(l, req), quote, inverse);
    ConversionAccountSays(l.accounts, tenant, from);
    ConversionAccountSays(l.accounts, tenant, to);
    var rate := Rates.Resolve(l.rates, from, to, EffectiveAt(l, req)).value;
    ConversionRows(l, tenant, req, key, fp, rate, collector, payer, Convert(req.amount, from, to, inverse));
    Conversion.ConvertPaysAmountTimesRate(req.amount, from, to, inverse);
  }

  // ----- Holds -----

  predicate PlaceSucceeds(l: Ledger, tenant: string, req: PlaceRequest, key: string) {
    && Key(tenant, "holds.place", key) !in l.records
    && OpenTo(l, tenant, req.account)
    && AvailableAt(l, req.account, l.clock) >= req.amount
  }

  /** When the request says, or in seven days. */
  function Expiry(l: Ledger, req: PlaceRequest): Instant {
    if req.expiresAt.Some? then req.expiresAt.value else l.clock + 604_800_000_000
  }

  lemma PlaceSucceedsIff(l: Ledger, tenant: string, req: PlaceRequest, key: string, fp: int)
    requires Valid(l)
    ensures var (after, outcome) := Place(l, tenant, req, key, fp);
      var k := Key(tenant, "holds.place", key);
      && (outcome.Done? <==> PlaceSucceeds(l, tenant, req, key))
      && (!outcome.Done? ==>
            && after == l
            && outcome == if k in l.records then Retried(l.records[k], fp)
                          else Refused(if OpenTo(l, tenant, req.account) then InsufficientFunds else AccountNotFoundOrClosed))
  {
    if OpenTo(l, tenant, req.account) {
      ServiceReadsAvailable(l, tenant, req.account, l.clock);
    }
  }

  function PlacedHold(l: Ledger, tenant: string, req: PlaceRequest): Hold {
    Hold(tenant, req.account, req.amount, Active, req.memo, Expiry(l, req), None, None, None)
  }

  lemma PlaceStages(l: Ledger, tenant: string, req: PlaceRequest, key: string, fp: int)
    requires Valid(l) && PlaceSucceeds(l, tenant, req, key)
    ensures var k := Key(tenant, PLACE, key);
      Place(l, tenant, req, key, fp) == Finish(l, Ok(PlaceWrites(tenant, req, k, fp, l.clock)))
  {
    ServiceReadsAvailable(l, tenant, req.account, l.clock);
  }

  lemma PlacementLands(l: Ledger, tenant: string, req: PlaceRequest, k: Key, fp: int)
    ensures var (after, outcome) := Finish(l, Ok(PlaceWrites(tenant, req, k, fp, l.clock)));
      && after.(holds := l.holds, records := l.records) == l
      && after.holds == l.holds + [PlacedHold(l, tenant, req)]
      && outcome == Done(HoldResponse(|l.holds|, PlacedHold(l, tenant, req), BalanceOr(after, req.account),
           BalanceOr(after, req.account) - HeldTotal(after.holds, tenant, req.account, l.clock)))
      && after.records == l.records[k := Record(fp, outcome.response, l.clock)]
  {
  }

  lemma PlaceCommits(l: Ledger, tenant: string, req: PlaceRequest, key: string, fp: int)
    requires Valid(l) && PlaceSucceeds(l, tenant, req, key)
    ensures var (after, outcome) := Place(l, tenant, req, key, fp);
      && after.(holds := l.holds, records := l.records) == l
      && after.holds == l.holds + [PlacedHold(l, tenant, req)]
      && outcome == Done(HoldResponse(|l.holds|, PlacedHold(l, tenant, req), BalanceOr(after, req.account),
           BalanceOr(after, req.account) - HeldTotal(after.holds, tenant, req.account, l.clock)))
      && after.records == l.records[Key(tenant, PLACE, key) := Record(fp, outcome.response, l.clock)]
  {
    PlaceStages(l, tenant, req, key, fp);
    PlacementLands(l, tenant, req, Key(tenant, PLACE, key), fp);
  }

  lemma AddedHoldTakes(l: Ledger, after: Ledger, h: Hold, a: AccountId)
    requires after.(holds := l.holds, records := l.records) == l && after.holds == l.holds + [h] && a < |l.accounts|
    ensures AvailableAt(after, a, l.clock) == AvailableAt(l, a, l.clock) - Reserved(h, l.accounts[a].tenant, a, l.clock)
  {
    HeldAfterChange(l.holds, PlaceHold(h), 0, l.clock, l.accounts[a].tenant, a, l.clock);
  }

  /** A placement moves no money: it takes the amount out of what its account can spend, and out of
      no other account's, until it expires; and it answers with what is left to spend. */
  lemma PlaceEffect(l: Ledger, tenant: string, req: PlaceRequest, key: string, fp: int, a: AccountId)
    requires Valid(l) && PlaceSucceeds(l, tenant, req, key) && a < |l.accounts|
    ensures var (after, outcome) := Place(l, tenant, req, key, fp);
      && after.(holds := l.holds, records := l.records) == l
      && after.holds == l.holds + [PlacedHold(l, tenant, req)]
      && AvailableAt(after, a, l.clock)
         == AvailableAt(l, a, l.clock) - (if a == req.account && Expiry(l, req) > l.clock then req.amount else 0)
      && outcome == Done(HoldResponse(|l.holds|, PlacedHold(l, tenant, req), BalanceOr(after, req.account),
                                      AvailableAt(after, req.account, l.clock)))
      && after.records == l.records[Key(tenant, "holds.place", key) := Record(fp, outcome.response, l.clock)]
  {
    var after := Place(l, tenant, req, key, fp).0;
    PlaceCommits(l, tenant, req, key, fp);
    AddedHoldTakes(l, after, PlacedHold(l, tenant, req), a);
    AddedHoldTakes(l, after, PlacedHold(l, tenant, req), req.account);
  }

  /** What a capture asks for: the amount it names, and otherwise all that is held. */
  function Asked(h: Hold, req: CaptureRequest): int {
    match req.amount
    case Some(x) => x
    case None => h.amount
  }

  predicate CaptureSucceeds(l: Ledger, tenant: string, id: HoldId, req: CaptureRequest) {
    && id < |l.holds| && l.holds[id].tenant == tenant && l.holds[id].state == Active
    && OpenTo(l, tenant, l.holds[id].account) && OpenTo(l, tenant, req.destination)
    && l.accounts[l.holds[id].account].currency == l.accounts[req.destination].currency
    && Asked(l.holds[id], req) <= l.holds[id].amount
    && BalanceOr(l, l.holds[id].account) >= Asked(l.holds[id], req)
  }

  /** The hold as it is, and what its account has and can spend. */
  function HoldAnswer(l: Ledger, id: HoldId): Response
    requires id < |l.holds| && l.holds[id].account < |l.accounts|
  {
    HoldResponse(id, l.holds[id], BalanceOr(l, l.holds[id].account), AvailableAt(l, l.holds[id].account, l.clock))
  }

  lemma HoldViewAnswers(l: Ledger, tenant: string, id: HoldId)
    requires Valid(l) && id < |l.holds| && l.holds[id].tenant == tenant
    ensures l.holds[id].account < |l.accounts| && HoldView(l, tenant, id) == HoldAnswer(l, id)
  {
    var a := l.holds[id].account;
    assert HoldWellFormed(l.accounts, l.holds[id]);
    assert a in l.snapshots && Agrees(l.snapshots[a], l.seeded[a], l.postings, a);
  }

  /** Why a capture of an active hold fails, in the order in which the service looks. */
  function CaptureFailure(l: Ledger, tenant: string, h: Hold, req: CaptureRequest): Failure {
    if !OpenTo(l, tenant, h.account) || !OpenTo(l, tenant, req.destination) then AccountNotFoundOrClosed
    else if l.accounts[h.account].currency != l.accounts[req.destination].currency then CurrencyMismatch
    else if Asked(h, req) > h.amount then CaptureExceedsHold
    else InsufficientFunds
  }

  /** What a capture answers that does not go through. */
  function CaptureRefused(l: Ledger, tenant: string, id: HoldId, req: CaptureRequest): Outcome
    requires id < |l.holds| ==> l.holds[id].account < |l.accounts|
  {
    if id >= |l.holds| || l.holds[id].tenant != tenant then Refused(HoldNotFound)
    else
      match l.holds[id].state
      case Captured => Replayed(HoldAnswer(l, id))
      case Released => Refused(WrongHoldState)
      case Active => Refused(CaptureFailure(l, tenant, l.holds[id], req))
  }

  /** A capture succeeds exactly when it can. A captured hold replays, with what its account has now; any
      other failure says why; and none changes anything. */
  lemma CaptureSucceedsIff(l: Ledger, tenant: string, id: HoldId, req: CaptureRequest)
    requires Valid(l)
    ensures var (after, outcome) := Capture(l, tenant, id, req);
      && (outcome.Done? <==> CaptureSucceeds(l, tenant, id, req))
      && (!outcome.Done? ==> after == l)
      && (id < |l.holds| ==> l.holds[id].account < |l.accounts|)
      && (!outcome.Done? ==> outcome == CaptureRefused(l, tenant, id, req))
  {
    if id < |l.holds| {
      assert HoldWellFormed(l.accounts, l.holds[id]);
      if l.holds[id].tenant == tenant { HoldViewAnswers(l, tenant, id); }
      if OpenTo(l, tenant, l.holds[id].account) { ServiceReadsAvailable(l, tenant, l.holds[id].account, l.clock); }
    }
  }

  lemma CaptureCommits(l: Ledger, tenant: string, id: HoldId, req: CaptureRequest)
    requires Valid(l) && CaptureSucceeds(l, tenant, id, req)
    ensures var h := l.holds[id];
      var w := CaptureWrites(tenant, id, h, req, l.clock);
      Capture(l, tenant, id, req).0 == Commit(l, w) && WritesWellFormed(l.accounts, w)
  {
    ServiceReadsAvailable(l, tenant, l.holds[id].account, l.clock);
    StagedCaptureIsWellFormed(l, tenant, id, req);
  }

  /** A capture moves what it asks for to the destination, and nothing else, in one transaction dated now,
      with its own memo or else the hold's. */
  lemma CaptureMovesMoney(l: Ledger, tenant: string, id: HoldId, req: CaptureRequest, a: AccountId)
    requires Valid(l) && CaptureSucceeds(l, tenant, id, req) && a < |l.accounts|
    ensures var h, amount := l.holds[id], Asked(l.holds[id], req);
      var after := Capture(l, tenant, id, req).0;
      && BalanceOr(after, a) == BalanceOr(l, a) + Move(h.account, req.destination, amount, a)
      && Adds(l, after, tenant, l.clock, Text(if req.memo == "" then h.memo else req.memo), None,
              [Leg(h.account, 0 - amount, l.clock), Leg(req.destination, amount, l.clock)])
  {
    var h := l.holds[id];
    var w := CaptureWrites(tenant, id, h, req, l.clock);
    CaptureCommits(l, tenant, id, req);
    CommitMovesBalance(l, w, a);
    CommitAddsOne(l, w);
    NetOfOne(w.entries[0], a);
    NetOfTwoLegs(h.account, req.destination, Asked(h, req), l.clock, a);
  }

  /** However little it captures, it gives up the whole reservation, and no other; it records what it
      captured, and answers with the hold so marked. */
  lemma CaptureEndsReservation(l: Ledger, tenant: string, id: HoldId, req: CaptureRequest, a: AccountId)
    requires Valid(l) && CaptureSucceeds(l, tenant, id, req) && a < |l.accounts|
    ensures var h, amount := l.holds[id], Asked(l.holds[id], req);
      var (after, outcome) := Capture(l, tenant, id, req);
      && after.holds == l.holds[id := h.(state := Captured, capturedTxn := Some(|l.txns|), capturedAmount := Some(amount),
                                         resolvedAt := Some(l.clock))]
      && after.records == l.records && after.accounts == l.accounts && after.clock == l.clock
      && outcome.Done? && outcome.response.HoldResponse?
      && outcome.response.id == id && outcome.response.hold == after.holds[id]
      && HeldTotal(after.holds, l.accounts[a].tenant, a, l.clock)
         == HeldTotal(l.holds, l.accounts[a].tenant, a, l.clock) - Reserved(h, l.accounts[a].tenant, a, l.clock)
  {
    var w := CaptureWrites(tenant, id, l.holds[id], req, l.clock);
    CaptureCommits(l, tenant, id, req);
    CaptureSucceedsIff(l, tenant, id, req);
    MovedFrame(l, w);
    HeldAfterChange(l.holds, w.holdChange, |l.txns|, w.at, l.accounts[a].tenant, a, l.clock);
  }

  lemma ReleasingKeepsValid(l: Ledger, id: HoldId)
    requires Valid(l) && id < |l.holds|
    ensures Valid(l.(holds := ChangeHolds(l.holds, MarkReleased(id), 0, l.clock)))
  {
    var after := l.(holds := ChangeHolds(l.holds, MarkReleased(id), 0, l.clock));
    forall t: nat | t < |after.txns| ensures EventDescribes(after, t) { assert EventDescribes(l, t); }
  }

  /** A release gives back exactly what the hold still reserved, and moves no money. */
  lemma ReleaseEffect(l: Ledger, tenant: string, id: HoldId, a: AccountId)
    requires Valid(l) && a < |l.accounts|
    ensures var (after, outcome) := Release(l, tenant, id);
      && (outcome.Done? <==> id < |l.holds| && l.holds[id].tenant == tenant && l.holds[id].state == Active)
      && (!outcome.Done? ==> after == l)
      && after.(holds := l.holds) == l
      && (outcome.Done? ==>
            && AvailableAt(after, a, l.clock) == AvailableAt(l, a, l.clock) + Reserved(l.holds[id], l.accounts[a].tenant, a, l.clock)
            && after.holds == l.holds[id := l.holds[id].(state := Released, resolvedAt := Some(l.clock))])
  {
    HeldAfterChange(l.holds, MarkReleased(id), 0, l.clock, l.accounts[a].tenant, a, l.clock);
  }

  /** It answers with what the account has and can then spend; so does releasing a released hold; a
      captured one refuses. */
  lemma ReleaseAnswers(l: Ledger, tenant: string, id: HoldId)
    requires Valid(l)
    ensures var (after, outcome) := Release(l, tenant, id);
      && (id < |l.holds| ==> |after.holds| == |l.holds| && after.holds[id].account < |after.accounts|)
      && outcome ==
           if id >= |l.holds| || l.holds[id].tenant != tenant then Refused(HoldNotFound)
           else match l.holds[id].state
             case Captured => Refused(WrongHoldState)
             case Released => Replayed(HoldAnswer(after, id))
             case Active => Done(HoldAnswer(after, id))
  {
    if id < |l.holds| {
      assert HoldWellFormed(l.accounts, l.holds[id]);
      if l.holds[id].tenant == tenant {
        HoldViewAnswers(l, tenant, id);
        ReleasingKeepsValid(l, id);
        HoldViewAnswers(l.(holds := ChangeHolds(l.holds, MarkReleased(id), 0, l.clock)), tenant, id);
      }
    }
  }

  // ----- Reversals -----

  predicate ReverseSucceeds(l: Ledger, tenant: string, txn: TxnId, key: string) {
    && Key(tenant, "reversals.create", key) !in l.records
    && txn < |l.txns| && l.txns[txn].tenant == tenant && l.txns[txn].corrects.None?
    && !WasReversed(l, tenant, txn)
  }

  predicate WasReversed(l: Ledger, tenant: string, txn: TxnId) {
    exists i: nat :: i < |l.txns| && l.txns[i].tenant == tenant && l.txns[i].corrects == Some(txn)
  }

  lemma WasReversedIff(l: Ledger, tenant: string, txn: TxnId)
    ensures WasReversed(l, tenant, txn) <==> HasReversal(l.txns, tenant, txn)
  {
    if HasReversal(l.txns, tenant, txn) {
      var t :| t in l.txns && t.tenant == tenant && t.corrects == Some(txn);
      var i :| 0 <= i < |l.txns| && l.txns[i] == t;
    }
  }

  /** Why a reversal under a new key fails, in the order in which the service looks. */
  function ReverseFailure(l: Ledger, tenant: string, txn: TxnId): Failure {
    if txn >= |l.txns| || l.txns[txn].tenant != tenant then TransactionNotFound
    else if l.txns[txn].corrects.Some? then CannotReverseReversal
    else AlreadyReversed
  }

  lemma TransactionHasPostings(l: Ledger, txn: TxnId)
    requires Consistent(l) && txn < |l.txns|
    ensures PostingsOf(l.postings, txn) != []
  {
    TransactionHasItsLegs(l, txn);
    assert EventDescribes(l, txn);
    assert |LegsOf(PostingsOf(l.postings, txn))| >= 2;
  }

  lemma ReversalStagesIff(l: Ledger, tenant: string, req: ReverseRequest, k: Key, fp: int)
    requires Valid(l)
    ensures StageReverse(l, tenant, req, k, fp).Ok? <==> ReverseRefusal(l, tenant, req.txn).None?
  {
    if ReverseRefusal(l, tenant, req.txn).None? {
      ReversalIsWellPosted(l, tenant, req, l.clock);
    }
  }

  /** A key that was used answers as it did then, or conflicts; under a new key a reversal succeeds exactly
      when it can, and otherwise says why. */
  lemma ReverseSucceedsIff(l: Ledger, tenant: string, req: ReverseRequest, key: string, fp: int)
    requires Valid(l)
    ensures var (after, outcome) := Reverse(l, tenant, req, key, fp);
      var k := Key(tenant, "reversals.create", key);
      && (outcome.Done? <==> ReverseSucceeds(l, tenant, req.txn, key))
      && (!outcome.Done? ==>
            && after == l
            && outcome == if k in l.records then Retried(l.records[k], fp) else Refused(ReverseFailure(l, tenant, req.txn)))
  {
    if req.txn < |l.txns| { TransactionHasPostings(l, req.txn); }
    WasReversedIff(l, tenant, req.txn);
    ReversalStagesIff(l, tenant, req, Key(tenant, REVERSALS, key), fp);
  }

  /** The original's accounts in order, every amount negated, every leg dated `at`. */
  function Opposite(legs: seq<Leg>, at: Instant): (r: seq<Leg>)
    ensures |r| == |legs|
  {
    seq(|legs|, i requires 0 <= i < |legs| => Leg(legs[i].account, 0 - legs[i].amount, at))
  }

  lemma ReversalWrites(l: Ledger, tenant: string, req: ReverseRequest, key: string, fp: int)
    requires Valid(l) && ReverseSucceeds(l, tenant, req.txn, key)
    ensures var w := ReverseWrites(l, tenant, req, Key(tenant, REVERSALS, key), fp, l.clock);
      && Reverse(l, tenant, req, key, fp) == Finish(l, Ok(w))
      && AllWellPosted(l.accounts, tenant, w.entries)
      && w.entries[0].legs == Opposite(l.events[req.txn].legs, l.clock)
      && Undoes(w.entries[0].legs, l.events[req.txn].legs)
  {
    TransactionHasPostings(l, req.txn);
    WasReversedIff(l, tenant, req.txn);
    ReversalIsWellPosted(l, tenant, req, l.clock);
    TransactionHasItsLegs(l, req.txn);
    var ps := PostingsOf(l.postings, req.txn);
    assert forall i | 0 <= i < |ps| :: LegsOf(ps)[i] == ps[i].leg;
    assert Negated(ps, l.clock) == Opposite(LegsOf(ps), l.clock);
  }

  /** A reversal adds one transaction, which names the original and undoes it leg by leg, dated now; it
      takes back, on every account, exactly what its original moved there. Funds are not checked, and holds
      are left alone. It answers with what it added, and records that answer. */
  lemma ReverseEffect(l: Ledger, tenant: string, req: ReverseRequest, key: string, fp: int, a: AccountId)
    requires Valid(l) && ReverseSucceeds(l, tenant, req.txn, key) && a < |l.accounts|
    ensures var (after, outcome) := Reverse(l, tenant, req, key, fp);
      var memo := if req.memo == "" then ReversalOf(req.txn) else Text(req.memo);
      && BalanceOr(after, a) == BalanceOr(l, a) - NetOfLegs(l.events[req.txn].legs, a)
      && Adds(l, after, tenant, l.clock, memo, Some(req.txn), Opposite(l.events[req.txn].legs, l.clock))
      && after.holds == l.holds && after.accounts == l.accounts && after.clock == l.clock
      && outcome == Done(ReversalResponse(|l.txns|, req.txn, memo, l.clock))
      && after.records == l.records[Key(tenant, "reversals.create", key) := Record(fp, outcome.response, l.clock)]
  {
    var w := ReverseWrites(l, tenant, req, Key(tenant, REVERSALS, key), fp, l.clock);
    ReversalWrites(l, tenant, req, key, fp);
    CommitMovesBalance(l, w, a);
    NetOfOne(w.entries[0], a);
    UndoingNets(w.entries[0].legs, l.events[req.txn].legs, a);
    ReversalLands(l, w);
  }

  /** What is committed and answered of one entry that corrects something. */
  lemma ReversalLands(l: Ledger, w: Writes)
    requires |w.entries| == 1 && w.holdChange.KeepHolds? && w.key.Some? && w.reply.ReversalReply?
    ensures var (after, outcome) := Finish(l, Ok(w));
      && Adds(l, after, w.tenant, w.at, w.entries[0].memo, w.entries[0].corrects, w.entries[0].legs)
      && after.holds == l.holds && after.accounts == l.accounts && after.clock == l.clock
      && outcome == Done(ReversalResponse(|l.txns|, w.reply.corrects, w.entries[0].memo, w.at))
      && after.records == l.records[w.key.value := Record(w.fingerprint, outcome.response, w.at)]
  {
    CommitAddsOne(l, w);
    MovedFrame(l, w);
  }
}
