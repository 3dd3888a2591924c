/** The double-entry posting engine (backend/services/postings_engine.py): what a balanced
    transaction does to the tables, and why every view of the money then agrees. */
module PostingEngine {
  import opened Wrappers
  import opened Money
  import opened Tables

  // ----- Sums over postings: the slow, exact path -----

  /** `recompute` in backend/services/balances_service.py. */
  function Recompute(ps: seq<Posting>, a: AccountId): int {
    if ps == [] then 0
    else Recompute(ps[..|ps| - 1], a) + (if ps[|ps| - 1].leg.account == a then ps[|ps| - 1].leg.amount else 0)
  }

  function PostingCount(ps: seq<Posting>, a: AccountId): nat {
    if ps == [] then 0
    else PostingCount(ps[..|ps| - 1], a) + (if ps[|ps| - 1].leg.account == a then 1 else 0)
  }

  function LastPosting(ps: seq<Posting>, a: AccountId): Option<PostingId> {
    if ps == [] then None
    else if ps[|ps| - 1].leg.account == a then Some(ps[|ps| - 1].id)
    else LastPosting(ps[..|ps| - 1], a)
  }

  function SumOf(legs: seq<Leg>): int {
    if legs == [] then 0 else SumOf(legs[..|legs| - 1]) + legs[|legs| - 1].amount
  }

  // ----- The fold into the snapshots: the fast path -----

  function ApplyToSnapshot(s: Snapshot, p: Posting): Snapshot {
    Snapshot(s.tenant, s.balance + p.leg.amount, s.version + 1, Some(p.id))
  }

  /** What the engine's loop makes of one row. */
  function Folded(s: Snapshot, ps: seq<Posting>, a: AccountId): Snapshot {
    if ps == [] then s
    else
      var before := Folded(s, ps[..|ps| - 1], a);
      if ps[|ps| - 1].leg.account == a then ApplyToSnapshot(before, ps[|ps| - 1]) else before
  }

  /** The snapshot UPDATE only touches rows of the acting tenant. */
  function FoldAll(snapshots: map<AccountId, Snapshot>, tenant: string, ps: seq<Posting>): map<AccountId, Snapshot> {
    map a | a in snapshots :: if snapshots[a].tenant == tenant then Folded(snapshots[a], ps, a) else snapshots[a]
  }

  predicate Agrees(s: Snapshot, base: Snapshot, ps: seq<Posting>, a: AccountId) {
    && s.tenant == base.tenant
    && s.balance == base.balance + Recompute(ps, a)
    && s.version == base.version + PostingCount(ps, a)
    && s.asOf == (if LastPosting(ps, a).Some? then LastPosting(ps, a) else base.asOf)
  }

  lemma {:induction false} FoldingKeepsAgreement(s: Snapshot, base: Snapshot, ps: seq<Posting>, added: seq<Posting>, a: AccountId)
    requires Agrees(s, base, ps, a)
    ensures Agrees(Folded(s, added, a), base, ps + added, a)
  {
    if added == [] {
      assert ps + added == ps;
    } else {
      var front := added[..|added| - 1];
      FoldingKeepsAgreement(s, base, ps, front, a);
      assert (ps + added)[..|ps + added| - 1] == ps + front;
    }
  }

  lemma {:induction false} CountsAdd(ps: seq<Posting>, added: seq<Posting>, a: AccountId)
    ensures PostingCount(ps + added, a) == PostingCount(ps, a) + PostingCount(added, a)
  {
    if added == [] {
      assert ps + added == ps;
    } else {
      CountsAdd(ps, added[..|added| - 1], a);
      assert (ps + added)[..|ps + added| - 1] == ps + added[..|added| - 1];
    }
  }

  lemma {:induction false} SumsAdd(ps: seq<Posting>, added: seq<Posting>, a: AccountId)
    ensures Recompute(ps + added, a) == Recompute(ps, a) + Recompute(added, a)
  {
    if added == [] {
      assert ps + added == ps;
    } else {
      SumsAdd(ps, added[..|added| - 1], a);
      assert (ps + added)[..|ps + added| - 1] == ps + added[..|added| - 1];
    }
  }

  lemma {:induction false} CountIsPositiveIff(ps: seq<Posting>, a: AccountId)
    ensures PostingCount(ps, a) > 0 <==> exists p <- ps :: p.leg.account == a
  {
    if ps == [] {
    } else {
      CountIsPositiveIff(ps[..|ps| - 1], a);
      assert ps == ps[..|ps| - 1] + [ps[|ps| - 1]];
    }
  }

  // ----- Posting one transaction -----

  datatype PostError = TooFewLegs | Unbalanced(total: int) | UnknownAccount

  function Validate(accounts: seq<Account>, legs: seq<Leg>): Result<(), PostError> {
    if |legs| < 2 then Err(TooFewLegs)
    else if SumOf(legs) != 0 then Err(Unbalanced(SumOf(legs)))
    else if exists leg <- legs :: leg.account >= |accounts| then Err(UnknownAccount)
    else Ok(())
  }

  /** The engine refuses fewer than two legs, then legs that do not sum to zero, and the database a leg
      on an account that does not exist; it accepts everything else. */
  lemma ValidateSays(accounts: seq<Account>, legs: seq<Leg>)
    ensures Validate(accounts, legs) ==
      if |legs| == 0 || |legs| == 1 then Err(TooFewLegs)
      else if SumOf(legs) < 0 || SumOf(legs) > 0 then Err(Unbalanced(SumOf(legs)))
      else if forall i | 0 <= i < |legs| :: legs[i].account < |accounts| then Ok(())
      else Err(UnknownAccount)
  {
    if forall i | 0 <= i < |legs| :: legs[i].account < |accounts| {
    } else {
      var i :| 0 <= i < |legs| && legs[i].account >= |accounts|;
      assert legs[i] in legs;
    }
  }

  function PostingsFor(start: nat, e: Event): (ps: seq<Posting>)
    ensures |ps| == |e.legs|
  {
    seq(|e.legs|, i requires 0 <= i < |e.legs| => Posting(start + i, e.txn, e.legs[i], e.createdAt))
  }

  function EventFor(l: Ledger, tenant: string, at: Instant, e: Entry): Event {
    Event(|l.txns|, tenant, |l.txns|, e.memo, e.corrects, e.legs, Pending, at, None)
  }

  /** The tables after one validated transaction. */
  function Post(l: Ledger, tenant: string, at: Instant, e: Entry): Ledger {
    var event := EventFor(l, tenant, at, e);
    var added := PostingsFor(|l.postings|, event);
    l.(txns := l.txns + [Transaction(tenant, e.memo, e.corrects, at)],
       postings := l.postings + added,
       snapshots := FoldAll(l.snapshots, tenant, added),
       events := l.events + [event])
  }

  // ----- The rows that makes -----

  function RowsOf(start: nat, txn: TxnId, legs: seq<Leg>, at: Instant): (ps: seq<Posting>)
    ensures |ps| == |legs|
  {
    seq(|legs|, i requires 0 <= i < |legs| => Posting(start + i, txn, legs[i], at))
  }

  /** `after` has one transaction more than `l`, with these legs, and its event, all dated `at`. */
  predicate Adds(l: Ledger, after: Ledger, tenant: string, at: Instant, memo: Memo, corrects: Option<TxnId>, legs: seq<Leg>) {
    && after.txns == l.txns + [Transaction(tenant, memo, corrects, at)]
    && after.postings == l.postings + RowsOf(|l.postings|, |l.txns|, legs, at)
    && after.events == l.events + [Event(|l.txns|, tenant, |l.txns|, memo, corrects, legs, Pending, at, None)]
  }

  /** Or two, one after the other. */
  predicate AddsTwo(l: Ledger, after: Ledger, tenant: string, at: Instant, memo: Memo, legs: seq<Leg>, next: Memo, others: seq<Leg>) {
    var t, n := |l.txns|, |l.postings|;
    && after.txns == l.txns + [Transaction(tenant, memo, None, at), Transaction(tenant, next, None, at)]
    && after.postings == l.postings + RowsOf(n, t, legs, at) + RowsOf(n + |legs|, t + 1, others, at)
    && after.events == l.events + [Event(t, tenant, t, memo, None, legs, Pending, at, None),
                                   Event(t + 1, tenant, t + 1, next, None, others, Pending, at, None)]
  }

  lemma PostAdds(l: Ledger, tenant: string, at: Instant, e: Entry)
    ensures Adds(l, Post(l, tenant, at, e), tenant, at, e.memo, e.corrects, e.legs)
  {
    assert PostingsFor(|l.postings|, EventFor(l, tenant, at, e)) == RowsOf(|l.postings|, |l.txns|, e.legs, at);
  }

  lemma PostTwiceAddsTwo(l: Ledger, tenant: string, at: Instant, e: Entry, f: Entry)
    requires e.corrects.None? && f.corrects.None?
    ensures AddsTwo(l, Post(Post(l, tenant, at, e), tenant, at, f), tenant, at, e.memo, e.legs, f.memo, f.legs)
  {
    var mid := Post(l, tenant, at, e);
    PostAdds(l, tenant, at, e);
    PostAdds(mid, tenant, at, f);
  }

  function PostAll(l: Ledger, tenant: string, at: Instant, entries: seq<Entry>): Ledger {
    if entries == [] then l
    else Post(PostAll(l, tenant, at, entries[..|entries| - 1]), tenant, at, entries[|entries| - 1])
  }

  // ----- What every committed state satisfies -----

  ghost predicate OneRowPerAccount(l: Ledger) {
    && (forall a :: a in l.snapshots <==> 0 <= a < |l.accounts|)
    && l.seeded.Keys == l.snapshots.Keys
    && forall a <- l.snapshots :: l.seeded[a].tenant == l.accounts[a].tenant
  }

  predicate SnapshotsAgree(l: Ledger)
    requires l.seeded.Keys == l.snapshots.Keys
  {
    forall a <- l.snapshots :: Agrees(l.snapshots[a], l.seeded[a], l.postings, a)
  }

  predicate SameTenant(accounts: seq<Account>, tenant: string, legs: seq<Leg>) {
    forall leg <- legs :: leg.account < |accounts| && accounts[leg.account].tenant == tenant
  }

  predicate SingleCurrency(accounts: seq<Account>, legs: seq<Leg>) {
    forall x <- legs, y <- legs ::
      && x.account < |accounts| && y.account < |accounts|
      && accounts[x.account].currency == accounts[y.account].currency
  }

  /** A transaction the engine accepts, drawn on one tenant. */
  predicate WellPosted(accounts: seq<Account>, tenant: string, legs: seq<Leg>) {
    && |legs| >= 2
    && SumOf(legs) == 0
    && SameTenant(accounts, tenant, legs)
  }

  predicate EventDescribes(l: Ledger, t: TxnId)
    requires t < |l.txns| && t < |l.events|
  {
    var e, txn := l.events[t], l.txns[t];
    && e.id == t && e.txn == t
    && e.tenant == txn.tenant && e.memo == txn.memo && e.corrects == txn.corrects && e.createdAt == txn.createdAt
    && WellPosted(l.accounts, e.tenant, e.legs)
  }

  predicate EventsDescribe(l: Ledger) {
    && |l.events| == |l.txns|
    && forall t: nat | t < |l.txns| :: EventDescribes(l, t)
  }

  /** The postings table, rebuilt from the events alone. */
  function Journal(events: seq<Event>): seq<Posting> {
    if events == [] then []
    else
      var before := Journal(events[..|events| - 1]);
      before + PostingsFor(|before|, events[|events| - 1])
  }

  ghost predicate Consistent(l: Ledger) {
    && OneRowPerAccount(l)
    && SnapshotsAgree(l)
    && EventsDescribe(l)
    && l.postings == Journal(l.events)
  }

  // ----- Posting keeps it -----

  lemma PostKeepsAgreement(l: Ledger, tenant: string, at: Instant, e: Entry)
    requires OneRowPerAccount(l) && SnapshotsAgree(l)
    requires SameTenant(l.accounts, tenant, e.legs)
    ensures OneRowPerAccount(Post(l, tenant, at, e)) && SnapshotsAgree(Post(l, tenant, at, e))
  {
    var l' := Post(l, tenant, at, e);
    var added := PostingsFor(|l.postings|, EventFor(l, tenant, at, e));
    forall a | a in l'.snapshots
      ensures Agrees(l'.snapshots[a], l'.seeded[a], l'.postings, a)
    {
      FoldingKeepsAgreement(l.snapshots[a], l.seeded[a], l.postings, added, a);
      if l.snapshots[a].tenant != tenant {
        ForeignRowsAreUntouched(l.snapshots[a], added, a);
      }
    }
  }

  lemma {:induction false} ForeignRowsAreUntouched(s: Snapshot, ps: seq<Posting>, a: AccountId)
    requires forall p <- ps :: p.leg.account != a
    ensures Folded(s, ps, a) == s
  {
    if ps == [] {
    } else {
      ForeignRowsAreUntouched(s, ps[..|ps| - 1], a);
    }
  }

  /** The UPDATE's tenant filter is silent. A leg on another tenant's account is written but not
      folded, so posting keeps snapshots and postings in step exactly when there is no such leg. */
  lemma PostKeepsAgreementIff(l: Ledger, tenant: string, at: Instant, e: Entry)
    requires OneRowPerAccount(l) && SnapshotsAgree(l)
    requires Validate(l.accounts, e.legs).Ok?
    ensures SnapshotsAgree(Post(l, tenant, at, e)) <==> SameTenant(l.accounts, tenant, e.legs)
  {
    if SameTenant(l.accounts, tenant, e.legs) {
      PostKeepsAgreement(l, tenant, at, e);
    } else {
      var leg :| leg in e.legs && !(leg.account < |l.accounts| && l.accounts[leg.account].tenant == tenant);
      var a, l' := leg.account, Post(l, tenant, at, e);
      var added := PostingsFor(|l.postings|, EventFor(l, tenant, at, e));
      var i :| 0 <= i < |e.legs| && e.legs[i] == leg;
      assert added[i].leg.account == a;
      CountIsPositiveIff(added, a);
      CountsAdd(l.postings, added, a);
      assert a in l.snapshots && l'.snapshots[a] == l.snapshots[a];
      assert !Agrees(l'.snapshots[a], l'.seeded[a], l'.postings, a);
    }
  }

  /** Such a leg is accepted and written, and the row of its account never hears of it. */
  lemma ForeignLegIsNotFolded(l: Ledger, tenant: string, at: Instant, e: Entry, x: AccountId, y: AccountId, amount: int)
    requires OneRowPerAccount(l) && SnapshotsAgree(l) && x < |l.accounts| && y < |l.accounts|
    requires l.accounts[x].tenant == tenant && l.accounts[y].tenant != tenant
    requires e.legs == [Leg(x, -amount, at), Leg(y, amount, at)]
    ensures Validate(l.accounts, e.legs).Ok?
    ensures var l' := Post(l, tenant, at, e);
      && y in l.snapshots && y in l'.snapshots && l'.snapshots[y] == l.snapshots[y]
      && Recompute(l'.postings, y) == Recompute(l.postings, y) + amount
      && !SnapshotsAgree(l')
  {
    var added := PostingsFor(|l.postings|, EventFor(l, tenant, at, e));
    assert e.legs[..1] == [e.legs[0]];
    assert SumOf(e.legs[..1]) == -amount;
    assert y in l.snapshots && e.legs[1] in e.legs;
    SecondOfTwoIsCounted(added, x, y, amount);
    SumsAdd(l.postings, added, y);
    PostKeepsAgreementIff(l, tenant, at, e);
  }

  lemma SecondOfTwoIsCounted(ps: seq<Posting>, x: AccountId, y: AccountId, amount: int)
    requires |ps| == 2 && ps[0].leg.account == x && x != y && ps[1].leg.account == y && ps[1].leg.amount == amount
    ensures Recompute(ps, y) == amount
  {
    assert ps[..1][..0] == [];
    assert Recompute(ps[..1], y) == 0;
  }

  lemma PostKeepsDescriptions(l: Ledger, tenant: string, at: Instant, e: Entry)
    requires EventsDescribe(l) && WellPosted(l.accounts, tenant, e.legs)
    ensures EventsDescribe(Post(l, tenant, at, e))
  {
    var l' := Post(l, tenant, at, e);
    forall t: nat | t < |l'.txns| ensures EventDescribes(l', t) {
      if t < |l.txns| { assert EventDescribes(l, t); }
    }
  }

  lemma PostKeepsConsistent(l: Ledger, tenant: string, at: Instant, e: Entry)
    requires Consistent(l) && WellPosted(l.accounts, tenant, e.legs)
    ensures Consistent(Post(l, tenant, at, e))
  {
    var l' := Post(l, tenant, at, e);
    PostKeepsAgreement(l, tenant, at, e);
    PostKeepsDescriptions(l, tenant, at, e);
    assert l'.events[..|l'.events| - 1] == l.events;
  }

  predicate AllSameTenant(accounts: seq<Account>, tenant: string, entries: seq<Entry>) {
    forall e <- entries :: SameTenant(accounts, tenant, e.legs)
  }

  lemma {:induction false} PostAllKeepsAgreement(l: Ledger, tenant: string, at: Instant, entries: seq<Entry>)
    requires OneRowPerAccount(l) && SnapshotsAgree(l) && AllSameTenant(l.accounts, tenant, entries)
    ensures var l' := PostAll(l, tenant, at, entries);
      l'.accounts == l.accounts && OneRowPerAccount(l') && SnapshotsAgree(l')
  {
    if entries == [] {
    } else {
      var front := entries[..|entries| - 1];
      PostAllKeepsAgreement(l, tenant, at, front);
      PostKeepsAgreement(PostAll(l, tenant, at, front), tenant, at, entries[|entries| - 1]);
    }
  }

  /** Entries that stay within one currency each. */
  predicate AllSingleCurrency(accounts: seq<Account>, entries: seq<Entry>) {
    forall i | 0 <= i < |entries| :: SingleCurrency(accounts, entries[i].legs)
  }

  /** No committed transaction mixes currencies. The engine does not see to that. */
  predicate CurrenciesApart(l: Ledger) {
    forall t | 0 <= t < |l.events| :: SingleCurrency(l.accounts, l.events[t].legs)
  }

  predicate AllWellPosted(accounts: seq<Account>, tenant: string, entries: seq<Entry>) {
    forall e <- entries :: WellPosted(accounts, tenant, e.legs)
  }

  lemma {:induction false} PostAllKeepsConsistent(l: Ledger, tenant: string, at: Instant, entries: seq<Entry>)
    requires Consistent(l) && AllWellPosted(l.accounts, tenant, entries)
    ensures Consistent(PostAll(l, tenant, at, entries))
    ensures PostAll(l, tenant, at, entries).accounts == l.accounts
    ensures PostAll(l, tenant, at, entries).seeded == l.seeded
  {
    if entries == [] {
    } else {
      var front := entries[..|entries| - 1];
      PostAllKeepsConsistent(l, tenant, at, front);
      PostKeepsConsistent(PostAll(l, tenant, at, front), tenant, at, entries[|entries| - 1]);
    }
  }

  lemma PostAllOne(l: Ledger, tenant: string, at: Instant, e: Entry)
    ensures PostAll(l, tenant, at, [e]) == Post(l, tenant, at, e)
  {
    assert [e][..0] == [];
  }

  lemma PostAllTwo(l: Ledger, tenant: string, at: Instant, e: Entry, f: Entry)
    ensures PostAll(l, tenant, at, [e, f]) == Post(Post(l, tenant, at, e), tenant, at, f)
  {
    assert [e, f][..1] == [e];
    PostAllOne(l, tenant, at, e);
  }

  /** Posting several entries touches nothing but the four money tables. */
  lemma {:induction false} PostAllFrame(l: Ledger, tenant: string, at: Instant, entries: seq<Entry>)
    ensures var l' := PostAll(l, tenant, at, entries);
      && l'.(txns := l.txns, postings := l.postings, snapshots := l.snapshots, events := l.events) == l
      && |l'.txns| == |l.txns| + |entries|
      && l'.txns[..|l.txns|] == l.txns
      && |l'.events| == |l.events| + |entries|
      && l'.events[..|l.events|] == l.events
      && (forall i | 0 <= i < |entries| ::
           && l'.txns[|l.txns| + i] == Transaction(tenant, entries[i].memo, entries[i].corrects, at)
           && l'.events[|l.events| + i].legs == entries[i].legs && l'.events[|l.events| + i].memo == entries[i].memo)
  {
    if entries == [] {
    } else {
      PostAllFrame(l, tenant, at, entries[..|entries| - 1]);
    }
  }
}
