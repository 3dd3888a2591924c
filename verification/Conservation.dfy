/** No money appears or disappears: per currency, all balances together never move. */
module Conservation {
  import opened Wrappers
  import opened Money
  import opened Tables
  import opened PostingEngine

  /** The sum of one currency's balances. */
  function Total(accounts: seq<Account>, rows: map<AccountId, Snapshot>, c: Currency): int {
    if accounts == [] then 0
    else
      var a := |accounts| - 1;
      Total(accounts[..a], rows, c) + (if accounts[a].currency == c && a in rows then rows[a].balance else 0)
  }

  /** What postings add to one currency. */
  function NetIn(accounts: seq<Account>, ps: seq<Posting>, c: Currency): int {
    if ps == [] then 0
    else
      var leg := ps[|ps| - 1].leg;
      NetIn(accounts, ps[..|ps| - 1], c)
      + (if leg.account < |accounts| && accounts[leg.account].currency == c then leg.amount else 0)
  }

  lemma {:induction false} NetInAdds(accounts: seq<Account>, ps: seq<Posting>, added: seq<Posting>, c: Currency)
    ensures NetIn(accounts, ps + added, c) == NetIn(accounts, ps, c) + NetIn(accounts, added, c)
  {
    if added == [] {
      assert ps + added == ps;
    } else {
      NetInAdds(accounts, ps, added[..|added| - 1], c);
      assert (ps + added)[..|ps + added| - 1] == ps + added[..|added| - 1];
    }
  }

  lemma {:induction false} NetInByAccount(accounts: seq<Account>, ps: seq<Posting>, c: Currency)
    requires accounts != []
    ensures var a := |accounts| - 1;
      NetIn(accounts, ps, c) == NetIn(accounts[..a], ps, c) + (if accounts[a].currency == c then Recompute(ps, a) else 0)
  {
    if ps == [] {
    } else {
      NetInByAccount(accounts, ps[..|ps| - 1], c);
    }
  }

  lemma {:induction false} NetInNoAccounts(ps: seq<Posting>, c: Currency)
    ensures NetIn([], ps, c) == 0
  {
    if ps == [] {
    } else {
      NetInNoAccounts(ps[..|ps| - 1], c);
    }
  }

  /** Snapshots that agree with the postings total the seeds plus what was posted. */
  lemma {:induction false} TotalsFollowPostings(accounts: seq<Account>, rows: map<AccountId, Snapshot>,
      base: map<AccountId, Snapshot>, ps: seq<Posting>, c: Currency)
    requires forall a: nat | a < |accounts| :: a in rows && a in base && Agrees(rows[a], base[a], ps, a)
    ensures Total(accounts, rows, c) == Total(accounts, base, c) + NetIn(accounts, ps, c)
  {
    if accounts == [] {
      NetInNoAccounts(ps, c);
    } else {
      var a := |accounts| - 1;
      TotalsFollowPostings(accounts[..a], rows, base, ps, c);
      NetInByAccount(accounts, ps, c);
      assert Agrees(rows[a], base[a], ps, a);
    }
  }

  // ----- Single-currency transactions cancel -----

  lemma {:induction false} OneCurrencyNets(accounts: seq<Account>, ps: seq<Posting>, legs: seq<Leg>, own: Currency, c: Currency)
    requires |ps| == |legs|
    requires forall i | 0 <= i < |ps| :: ps[i].leg == legs[i]
    requires forall leg <- legs :: leg.account < |accounts| && accounts[leg.account].currency == own
    ensures NetIn(accounts, ps, c) == if c == own then SumOf(legs) else 0
  {
    if ps == [] {
    } else {
      OneCurrencyNets(accounts, ps[..|ps| - 1], legs[..|legs| - 1], own, c);
    }
  }

  lemma WellPostedCancels(accounts: seq<Account>, tenant: string, start: nat, e: Event, c: Currency)
    requires WellPosted(accounts, tenant, e.legs) && SingleCurrency(accounts, e.legs)
    ensures NetIn(accounts, PostingsFor(start, e), c) == 0
  {
    assert e.legs[0] in e.legs;
    OneCurrencyNets(accounts, PostingsFor(start, e), e.legs, accounts[e.legs[0].account].currency, c);
  }

  lemma {:induction false} JournalCancels(accounts: seq<Account>, events: seq<Event>, c: Currency)
    requires forall e <- events :: WellPosted(accounts, e.tenant, e.legs) && SingleCurrency(accounts, e.legs)
    ensures NetIn(accounts, Journal(events), c) == 0
  {
    if events == [] {
    } else {
      var front, last := events[..|events| - 1], events[|events| - 1];
      JournalCancels(accounts, front, c);
      WellPostedCancels(accounts, last.tenant, |Journal(front)|, last, c);
      NetInAdds(accounts, Journal(front), PostingsFor(|Journal(front)|, last), c);
    }
  }

  /** In every consistent state in which no transaction mixed currencies, each currency's balances
      still total what they were seeded with. */
  lemma MoneyIsConserved(l: Ledger, c: Currency)
    requires Consistent(l) && CurrenciesApart(l)
    ensures Total(l.accounts, l.snapshots, c) == Total(l.accounts, l.seeded, c)
  {
    forall e <- l.events ensures WellPosted(l.accounts, e.tenant, e.legs) && SingleCurrency(l.accounts, e.legs) {
      var t :| 0 <= t < |l.events| && l.events[t] == e;
      assert EventDescribes(l, t);
    }
    JournalCancels(l.accounts, l.events, c);
    TotalsFollowPostings(l.accounts, l.snapshots, l.seeded, l.postings, c);
  }

  /** The engine checks one sum, not one per currency: a posting it accepts moves a currency's
      total by exactly what its legs net to there. */
  lemma PostMovesTotalBy(l: Ledger, tenant: string, at: Instant, e: Entry, c: Currency)
    requires OneRowPerAccount(l) && SnapshotsAgree(l) && SameTenant(l.accounts, tenant, e.legs)
    ensures Total(l.accounts, Post(l, tenant, at, e).snapshots, c)
         == Total(l.accounts, l.snapshots, c) + NetIn(l.accounts, PostingsFor(|l.postings|, EventFor(l, tenant, at, e)), c)
  {
    var l' := Post(l, tenant, at, e);
    PostKeepsAgreement(l, tenant, at, e);
    TotalsFollowPostings(l.accounts, l.snapshots, l.seeded, l.postings, c);
    TotalsFollowPostings(l.accounts, l'.snapshots, l.seeded, l'.postings, c);
    NetInAdds(l.accounts, l.postings, PostingsFor(|l.postings|, EventFor(l, tenant, at, e)), c);
  }

  /** What legs add to one currency. */
  function LegsIn(accounts: seq<Account>, legs: seq<Leg>, c: Currency): int {
    if legs == [] then 0
    else
      var leg := legs[|legs| - 1];
      LegsIn(accounts, legs[..|legs| - 1], c)
      + (if leg.account < |accounts| && accounts[leg.account].currency == c then leg.amount else 0)
  }

  lemma {:induction false} NetInOfLegs(accounts: seq<Account>, ps: seq<Posting>, legs: seq<Leg>, c: Currency)
    requires |ps| == |legs| && forall i | 0 <= i < |ps| :: ps[i].leg == legs[i]
    ensures NetIn(accounts, ps, c) == LegsIn(accounts, legs, c)
  {
    if ps == [] {
    } else {
      NetInOfLegs(accounts, ps[..|ps| - 1], legs[..|legs| - 1], c);
    }
  }

  lemma PostShiftsTotal(l: Ledger, tenant: string, at: Instant, e: Entry, c: Currency)
    requires OneRowPerAccount(l) && SnapshotsAgree(l) && SameTenant(l.accounts, tenant, e.legs)
    ensures Total(l.accounts, Post(l, tenant, at, e).snapshots, c) == Total(l.accounts, l.snapshots, c) + LegsIn(l.accounts, e.legs, c)
  {
    PostMovesTotalBy(l, tenant, at, e, c);
    NetInOfLegs(l.accounts, PostingsFor(|l.postings|, EventFor(l, tenant, at, e)), e.legs, c);
  }

  ghost predicate TotalsKept(l: Ledger, after: map<AccountId, Snapshot>) {
    forall c: Currency :: Total(l.accounts, after, c) == Total(l.accounts, l.snapshots, c)
  }

  ghost predicate BalancesPerCurrency(accounts: seq<Account>, legs: seq<Leg>) {
    forall c: Currency :: LegsIn(accounts, legs, c) == 0
  }

  /** The engine only sums all legs. Legs it accepts from one tenant keep every currency's total
      exactly when they sum to zero in each currency: that is left to its callers. */
  lemma EngineConservesIff(l: Ledger, tenant: string, at: Instant, e: Entry)
    requires OneRowPerAccount(l) && SnapshotsAgree(l)
    requires Validate(l.accounts, e.legs).Ok? && SameTenant(l.accounts, tenant, e.legs)
    ensures TotalsKept(l, Post(l, tenant, at, e).snapshots) <==> BalancesPerCurrency(l.accounts, e.legs)
  {
    var after := Post(l, tenant, at, e).snapshots;
    if TotalsKept(l, after) {
      forall c: Currency ensures LegsIn(l.accounts, e.legs, c) == 0 {
        PostShiftsTotal(l, tenant, at, e, c);
        assert Total(l.accounts, after, c) == Total(l.accounts, l.snapshots, c);
      }
    } else {
      var c: Currency :| Total(l.accounts, after, c) != Total(l.accounts, l.snapshots, c);
      PostShiftsTotal(l, tenant, at, e, c);
      assert LegsIn(l.accounts, e.legs, c) != 0;
    }
  }

  lemma LegsInOfTwo(accounts: seq<Account>, x: Leg, y: Leg, c: Currency)
    requires x.account < |accounts| && y.account < |accounts|
    ensures LegsIn(accounts, [x, y], c)
         == (if accounts[x.account].currency == c then x.amount else 0) + (if accounts[y.account].currency == c then y.amount else 0)
  {
    assert [x, y][..1] == [x];
    assert [x][..0] == [];
    assert LegsIn(accounts, [x], c) == if accounts[x.account].currency == c then x.amount else 0;
  }

  /** Two opposite legs always pass the engine, and keep the totals exactly when they share a currency. */
  lemma OppositeLegsConserveIff(accounts: seq<Account>, x: Leg, y: Leg)
    requires x.account < |accounts| && y.account < |accounts| && x.amount == -y.amount
    ensures Validate(accounts, [x, y]).Ok?
    ensures BalancesPerCurrency(accounts, [x, y])
        <==> accounts[x.account].currency == accounts[y.account].currency || x.amount == 0
  {
    assert [x, y][..1] == [x];
    assert SumOf([x]) == x.amount;
    LegsInOfTwo(accounts, x, y, accounts[x.account].currency);
    forall c: Currency ensures LegsIn(accounts, [x, y], c)
      == (if accounts[x.account].currency == c then x.amount else 0) + (if accounts[y.account].currency == c then y.amount else 0)
    {
      LegsInOfTwo(accounts, x, y, c);
    }
  }
}
