/** The admin journal (backend/services/admin_service.py) and its cursor
    (backend/routers/admin_routes.py): pages of one account's postings, oldest first. */
module AdminJournal {
  import opened Wrappers
  import opened Tables
  import opened Ordering
  import opened PostingEngine

  datatype JournalRow = JournalRow(posting: PostingId, txn: TxnId, amount: int, effectiveAt: Instant, createdAt: Instant,
                                   memo: Memo, corrects: Option<TxnId>)

  function JournalRank(p: Posting): Rank {
    Rank(p.leg.effectiveAt, p.id)
  }

  predicate Past(after: Option<Instant>, t: Instant) {
    after.Some? ==> t > after.value
  }

  /** The query's WHERE, inner join included. */
  function Selected(txns: seq<Transaction>, a: AccountId, after: Option<Instant>): Posting -> bool {
    (p: Posting) => p.leg.account == a && p.txn < |txns| && Past(after, p.leg.effectiveAt)
  }

  function Rest(l: Ledger, a: AccountId, after: Option<Instant>): seq<Posting> {
    Sort(Filter(l.postings, Selected(l.txns, a, after)), JournalRank)
  }

  function Page(l: Ledger, a: AccountId, after: Option<Instant>, limit: nat): seq<Posting> {
    Take(Rest(l, a, after), limit)
  }

  function RowOf(l: Ledger, p: Posting): JournalRow
    requires p.txn < |l.txns|
  {
    JournalRow(p.id, p.txn, p.leg.amount, p.leg.effectiveAt, p.createdAt, l.txns[p.txn].memo, l.txns[p.txn].corrects)
  }

  lemma PageIsSelected(l: Ledger, a: AccountId, after: Option<Instant>, limit: nat)
    ensures forall p <- Page(l, a, after, limit) :: p in l.postings && Selected(l.txns, a, after)(p)
  {
    var rows := Filter(l.postings, Selected(l.txns, a, after));
    SortMembers(rows, JournalRank);
    forall p | p in Page(l, a, after, limit) ensures p in l.postings && Selected(l.txns, a, after)(p) {
      assert p in multiset(Sort(rows, JournalRank));
      assert p in multiset(rows);
      FilterMembers(l.postings, Selected(l.txns, a, after), p);
    }
  }

  function AccountJournal(l: Ledger, tenant: string, a: AccountId, after: Option<Instant>, limit: nat): Option<seq<JournalRow>> {
    if a >= |l.accounts| || l.accounts[a].tenant != tenant then None
    else
      PageIsSelected(l, a, after, limit);
      var page := Page(l, a, after, limit);
      Some(seq(|page|, i requires 0 <= i < |page| => assert page[i] in page; RowOf(l, page[i])))
  }

  /** The router's rule: a full page ends in a cursor, a short one ends the journal. */
  function NextCursor(page: seq<Posting>, limit: nat): Option<Instant>
    requires limit > 0
  {
    if |page| == limit then Some(page[|page| - 1].leg.effectiveAt) else None
  }

  // ----- Following the cursor -----

  function Later(t: Instant): Posting -> bool {
    (p: Posting) => p.leg.effectiveAt > t
  }

  /** What remains after a cursor that was reached is the later part of what remained before. */
  lemma RestShrinks(l: Ledger, a: AccountId, after: Option<Instant>, t: Instant)
    requires Past(after, t)
    ensures Rest(l, a, Some(t)) == Filter(Rest(l, a, after), Later(t))
  {
    FilterBoth(l.postings, l.txns, a, after, t);
    SortFilter(Filter(l.postings, Selected(l.txns, a, after)), JournalRank, Later(t));
  }

  lemma {:induction false} FilterBoth(ps: seq<Posting>, txns: seq<Transaction>, a: AccountId, after: Option<Instant>, t: Instant)
    requires Past(after, t)
    ensures Filter(ps, Selected(txns, a, Some(t))) == Filter(Filter(ps, Selected(txns, a, after)), Later(t))
  {
    if ps == [] {
    } else {
      var front, last := ps[..|ps| - 1], ps[|ps| - 1];
      FilterBoth(front, txns, a, after, t);
      assert ps == front + [last];
      FilterSnoc(front, last, Selected(txns, a, Some(t)));
      FilterSnoc(front, last, Selected(txns, a, after));
      FilterSnoc(Filter(front, Selected(txns, a, after)), last, Later(t));
    }
  }

  lemma {:induction false} FilterDropsOne(s: seq<Posting>, keep: Posting -> bool, i: nat)
    requires i < |s| && !keep(s[i])
    ensures |Filter(s, keep)| < |s|
  {
    if i == |s| - 1 {
    } else {
      FilterDropsOne(s[..|s| - 1], keep, i);
    }
  }

  lemma CursorMovesOn(l: Ledger, a: AccountId, after: Option<Instant>, limit: nat)
    requires limit > 0 && |Page(l, a, after, limit)| == limit
    ensures var t := Page(l, a, after, limit)[limit - 1].leg.effectiveAt;
      && Past(after, t)
      && Rest(l, a, Some(t)) == Filter(Rest(l, a, after), Later(t))
      && |Rest(l, a, Some(t))| < |Rest(l, a, after)|
  {
    var page := Page(l, a, after, limit);
    PageIsSelected(l, a, after, limit);
    assert page[limit - 1] in page;
    var t := page[limit - 1].leg.effectiveAt;
    RestShrinks(l, a, after, t);
    FilterDropsOne(Rest(l, a, after), Later(t), limit - 1);
  }

  /** Everything a client sees that follows `next_cursor` until it is null. */
  function Follow(l: Ledger, a: AccountId, after: Option<Instant>, limit: nat): seq<Posting>
    requires limit > 0
    decreases |Rest(l, a, after)|
  {
    var page := Page(l, a, after, limit);
    if NextCursor(page, limit).None? then page
    else
      CursorMovesOn(l, a, after, limit);
      page + Follow(l, a, NextCursor(page, limit), limit)
  }

  // ----- What the pages add up to -----

  predicate Ordered(s: seq<Posting>) {
    forall i, j | 0 <= i < j < |s| :: s[i].leg.effectiveAt <= s[j].leg.effectiveAt
  }

  /** No page of `limit` rows ends between two postings of one instant. */
  predicate SplitsCleanly(s: seq<Posting>, limit: nat)
    requires limit > 0
  {
    |s| <= limit || (s[limit - 1].leg.effectiveAt < s[limit].leg.effectiveAt && SplitsCleanly(s[limit..], limit))
  }

  lemma RestIsOrdered(l: Ledger, a: AccountId, after: Option<Instant>)
    ensures Ordered(Rest(l, a, after))
  {
    var r := Rest(l, a, after);
    SortSorts(Filter(l.postings, Selected(l.txns, a, after)), JournalRank);
    forall i, j | 0 <= i < j < |r| ensures r[i].leg.effectiveAt <= r[j].leg.effectiveAt {
      assert !Less(JournalRank(r[j]), JournalRank(r[i]));
    }
  }

  lemma FrontIsNotLater(s: seq<Posting>, limit: nat)
    requires Ordered(s) && 0 < limit <= |s|
    ensures var t := s[limit - 1].leg.effectiveAt;
      Filter(s, Later(t)) == Filter(s[limit..], Later(t))
  {
    var t := s[limit - 1].leg.effectiveAt;
    assert s == s[..limit] + s[limit..];
    FilterConcat(s[..limit], s[limit..], Later(t));
    forall p | p in s[..limit] ensures !Later(t)(p) {
      var i :| 0 <= i < limit && s[i] == p;
      if i < limit - 1 { assert s[i].leg.effectiveAt <= s[limit - 1].leg.effectiveAt; }
    }
    FilterNone(s[..limit], Later(t));
  }

  lemma AllAreLater(s: seq<Posting>, t: Instant)
    requires Ordered(s) && s != [] && s[0].leg.effectiveAt > t
    ensures Filter(s, Later(t)) == s
  {
    forall p | p in s ensures Later(t)(p) {
      var i :| 0 <= i < |s| && s[i] == p;
      if i > 0 { assert s[0].leg.effectiveAt <= s[i].leg.effectiveAt; }
    }
    FilterAll(s, Later(t));
  }

  /** In an ordered journal the rows later than the `limit`th are a suffix, and the suffix starts
      right there exactly when the page ended cleanly. */
  lemma LaterIsASuffix(s: seq<Posting>, limit: nat)
    requires Ordered(s) && 0 < limit <= |s|
    ensures var t := s[limit - 1].leg.effectiveAt;
      var rest := Filter(s, Later(t));
      if limit < |s| && s[limit].leg.effectiveAt == t then |rest| < |s| - limit else rest == s[limit..]
  {
    var t := s[limit - 1].leg.effectiveAt;
    FrontIsNotLater(s, limit);
    if limit < |s| {
      assert s[limit - 1].leg.effectiveAt <= s[limit].leg.effectiveAt;
      if s[limit].leg.effectiveAt == t {
        FilterDropsOne(s[limit..], Later(t), 0);
      } else {
        AllAreLater(s[limit..], t);
      }
    }
  }

  /** A full page, and what a client sees after it. */
  lemma FollowStep(l: Ledger, a: AccountId, after: Option<Instant>, limit: nat)
    requires limit > 0 && |Rest(l, a, after)| >= limit
    ensures var s := Rest(l, a, after);
      var t := s[limit - 1].leg.effectiveAt;
      && Follow(l, a, after, limit) == s[..limit] + Follow(l, a, Some(t), limit)
      && |Rest(l, a, Some(t))| < |s|
      && (if limit < |s| && s[limit].leg.effectiveAt == t then |Rest(l, a, Some(t))| < |s| - limit
          else Rest(l, a, Some(t)) == s[limit..])
  {
    var s := Rest(l, a, after);
    assert Page(l, a, after, limit) == s[..limit];
    CursorMovesOn(l, a, after, limit);
    RestIsOrdered(l, a, after);
    LaterIsASuffix(s, limit);
  }

  lemma {:induction false} FollowIsNoLonger(l: Ledger, a: AccountId, after: Option<Instant>, limit: nat)
    requires limit > 0
    ensures |Follow(l, a, after, limit)| <= |Rest(l, a, after)|
    decreases |Rest(l, a, after)|
  {
    var s := Rest(l, a, after);
    if |s| < limit {
    } else {
      FollowStep(l, a, after, limit);
      FollowIsNoLonger(l, a, Some(s[limit - 1].leg.effectiveAt), limit);
    }
  }

  lemma ShortJournalIsOnePage(l: Ledger, a: AccountId, after: Option<Instant>, limit: nat)
    requires limit > 0 && |Rest(l, a, after)| < limit
    ensures Follow(l, a, after, limit) == Rest(l, a, after)
  {
  }

  lemma PrefixCompletesIff<T>(s: seq<T>, n: nat, rest: seq<T>)
    requires n <= |s|
    ensures s[..n] + rest == s <==> rest == s[n..]
  {
    assert (s[..n] + rest)[n..] == rest;
    assert s == s[..n] + s[n..];
  }

  lemma SplitsCleanlyStep(s: seq<Posting>, limit: nat)
    requires Ordered(s) && 0 < limit < |s|
    ensures SplitsCleanly(s, limit) <==> s[limit].leg.effectiveAt != s[limit - 1].leg.effectiveAt && SplitsCleanly(s[limit..], limit)
  {
    assert s[limit - 1].leg.effectiveAt <= s[limit].leg.effectiveAt;
  }

  /** Following the cursor yields what remains, in order and complete, exactly when no page ends
      inside a group of postings with one effective instant: the cursor skips the group's rest. */
  lemma {:induction false} FollowingIsCompleteIff(l: Ledger, a: AccountId, after: Option<Instant>, limit: nat)
    requires limit > 0
    ensures Follow(l, a, after, limit) == Rest(l, a, after) <==> SplitsCleanly(Rest(l, a, after), limit)
    decreases |Rest(l, a, after)|
  {
    var s := Rest(l, a, after);
    if |s| < limit {
      ShortJournalIsOnePage(l, a, after, limit);
    } else {
      var t := s[limit - 1].leg.effectiveAt;
      FollowStep(l, a, after, limit);
      var rest := Follow(l, a, Some(t), limit);
      PrefixCompletesIff(s, limit, rest);
      FollowIsNoLonger(l, a, Some(t), limit);
      FollowingIsCompleteIff(l, a, Some(t), limit);
      if limit < |s| {
        RestIsOrdered(l, a, after);
        SplitsCleanlyStep(s, limit);
      }
    }
  }

  lemma TiedRowsAreOnePage(l: Ledger, a: AccountId, t: Instant)
    requires |Rest(l, a, None)| == 2 && forall p <- Rest(l, a, None) :: p.leg.effectiveAt == t
    ensures |Follow(l, a, None, 1)| == 1 && Follow(l, a, None, 1) != Rest(l, a, None)
  {
    var s := Rest(l, a, None);
    assert s[0] in s && s[1] in s;
    FollowStep(l, a, None, 1);
    FollowIsNoLonger(l, a, Some(t), 1);
  }

  lemma TiedPostingsAreTheJournal(l: Ledger, a: AccountId, t: Instant)
    requires |l.postings| == 2
    requires forall p <- l.postings :: Selected(l.txns, a, None)(p) && p.leg.effectiveAt == t
    ensures |Rest(l, a, None)| == 2 && forall p <- Rest(l, a, None) :: p.leg.effectiveAt == t
  {
    FilterAll(l.postings, Selected(l.txns, a, None));
    SortMembers(l.postings, JournalRank);
    forall p | p in Rest(l, a, None) ensures p in l.postings {
      assert p in multiset(Rest(l, a, None));
    }
  }

  /** An account pays itself, which the engine accepts; pages of one row show the first posting and then
      say that there is no more. */
  lemma SelfTransferLosesARow(l: Ledger, tenant: string, at: Instant, e: Entry, a: AccountId, amount: int)
    requires a < |l.accounts| && l.postings == [] && e.legs == [Leg(a, -amount, at), Leg(a, amount, at)]
    ensures Validate(l.accounts, e.legs).Ok?
    ensures var l' := Post(l, tenant, at, e);
      |Rest(l', a, None)| == 2 && |Follow(l', a, None, 1)| == 1 && Follow(l', a, None, 1) != Rest(l', a, None)
  {
    assert e.legs[..1] == [e.legs[0]];
    assert SumOf(e.legs[..1]) == -amount;
    TiedPostingsAreTheJournal(Post(l, tenant, at, e), a, at);
    TiedRowsAreOnePage(Post(l, tenant, at, e), a, at);
  }

  predicate DistinctInstants(s: seq<Posting>) {
    forall i, j | 0 <= i < j < |s| :: s[i].leg.effectiveAt != s[j].leg.effectiveAt
  }

  lemma {:induction false} DistinctInstantsSplitCleanly(s: seq<Posting>, limit: nat)
    requires limit > 0 && Ordered(s) && DistinctInstants(s)
    ensures SplitsCleanly(s, limit)
  {
    if |s| <= limit {
    } else {
      assert s[limit - 1].leg.effectiveAt != s[limit].leg.effectiveAt;
      DistinctInstantsSplitCleanly(s[limit..], limit);
    }
  }

  /** With distinct effective instants every page size gives the whole journal, in order. */
  lemma DistinctInstantsGiveTheWholeJournal(l: Ledger, a: AccountId, limit: nat)
    requires limit > 0 && DistinctInstants(Rest(l, a, None))
    ensures Follow(l, a, None, limit) == Rest(l, a, None)
  {
    RestIsOrdered(l, a, None);
    DistinctInstantsSplitCleanly(Rest(l, a, None), limit);
    FollowingIsCompleteIff(l, a, None, limit);
  }

  // ----- No posting twice -----

  predicate DistinctPostings(ps: seq<Posting>) {
    forall i, j | 0 <= i < j < |ps| :: ps[i].id != ps[j].id
  }

  lemma {:induction false} SelectedIsDistinct(ps: seq<Posting>, keep: Posting -> bool)
    requires DistinctPostings(ps)
    ensures DistinctRanks(Filter(ps, keep), JournalRank)
  {
    if ps == [] {
    } else {
      var front, last := ps[..|ps| - 1], ps[|ps| - 1];
      SelectedIsDistinct(front, keep);
      forall p | p in Filter(front, keep) ensures JournalRank(p) != JournalRank(last) {
        FilterMembers(front, keep, p);
      }
    }
  }

  lemma {:induction false} FollowedAreSelected(l: Ledger, a: AccountId, after: Option<Instant>, limit: nat)
    requires limit > 0
    ensures forall p <- Follow(l, a, after, limit) :: p in l.postings && Selected(l.txns, a, after)(p)
    decreases |Rest(l, a, after)|
  {
    var page := Page(l, a, after, limit);
    PageIsSelected(l, a, after, limit);
    if |page| < limit {
    } else {
      var t := page[limit - 1].leg.effectiveAt;
      CursorMovesOn(l, a, after, limit);
      FollowedAreSelected(l, a, Some(t), limit);
      assert Follow(l, a, after, limit) == page + Follow(l, a, Some(t), limit);
    }
  }

  lemma PageIsStrict(l: Ledger, a: AccountId, after: Option<Instant>, limit: nat)
    requires DistinctPostings(l.postings)
    ensures StrictlySorted(Page(l, a, after, limit), JournalRank)
  {
    SelectedIsDistinct(l.postings, Selected(l.txns, a, after));
    DistinctSortIsStrict(Filter(l.postings, Selected(l.txns, a, after)), JournalRank);
  }

  /** Whatever the ties, no posting is ever shown twice or out of order. */
  lemma {:induction false} FollowingNeverRepeats(l: Ledger, a: AccountId, after: Option<Instant>, limit: nat)
    requires limit > 0 && DistinctPostings(l.postings)
    ensures StrictlySorted(Follow(l, a, after, limit), JournalRank)
    decreases |Rest(l, a, after)|
  {
    var page := Page(l, a, after, limit);
    PageIsStrict(l, a, after, limit);
    if |page| < limit {
    } else {
      var t := page[limit - 1].leg.effectiveAt;
      CursorMovesOn(l, a, after, limit);
      FollowingNeverRepeats(l, a, Some(t), limit);
      FollowedAreSelected(l, a, Some(t), limit);
      StrictConcat(page, Follow(l, a, Some(t), limit), t);
    }
  }

  lemma StrictConcat(page: seq<Posting>, rest: seq<Posting>, t: Instant)
    requires StrictlySorted(page, JournalRank) && StrictlySorted(rest, JournalRank)
    requires page != [] && page[|page| - 1].leg.effectiveAt == t
    requires forall p <- rest :: p.leg.effectiveAt > t
    ensures StrictlySorted(page + rest, JournalRank)
  {
    var s := page + rest;
    forall i, j | 0 <= i < j < |s| ensures Less(JournalRank(s[i]), JournalRank(s[j])) {
      if i < |page| <= j {
        assert rest[j - |page|] in rest;
        if i < |page| - 1 { assert Less(JournalRank(page[i]), JournalRank(page[|page| - 1])); }
      }
    }
  }

  // ----- The ledger's own postings -----

  lemma {:induction false} JournalNumbersItsPostings(events: seq<Event>)
    ensures forall i | 0 <= i < |Journal(events)| :: Journal(events)[i].id == i
  {
    if events == [] {
    } else {
      JournalNumbersItsPostings(events[..|events| - 1]);
    }
  }

  /** In every consistent ledger, and so in every state services can reach, following the cursor
      shows no posting twice, and shows them all exactly when no page cuts a group of ties. */
  lemma ConsistentJournalNeverRepeats(l: Ledger, a: AccountId, limit: nat)
    requires limit > 0 && Consistent(l)
    ensures StrictlySorted(Follow(l, a, None, limit), JournalRank)
    ensures Follow(l, a, None, limit) == Rest(l, a, None) <==> SplitsCleanly(Rest(l, a, None), limit)
  {
    JournalNumbersItsPostings(l.events);
    FollowingNeverRepeats(l, a, None, limit);
    FollowingIsCompleteIff(l, a, None, limit);
  }

  /** The inner join drops nothing: the whole journal is every posting of the account. */
  lemma JournalShowsEveryPosting(l: Ledger, a: AccountId, p: Posting)
    requires Consistent(l)
    ensures p in Rest(l, a, None) <==> p in l.postings && p.leg.account == a
  {
    var selected := Filter(l.postings, Selected(l.txns, a, None));
    SortMembers(selected, JournalRank);
    assert p in multiset(Rest(l, a, None)) <==> p in multiset(selected);
    FilterMembers(l.postings, Selected(l.txns, a, None), p);
    if p in l.postings {
      forall t: nat | t < |l.events| ensures l.events[t].txn == t { assert EventDescribes(l, t); }
      JournalKeepsLegs(l.events, p);
    }
  }

  lemma {:induction false} JournalKeepsLegs(events: seq<Event>, p: Posting)
    requires forall t | 0 <= t < |events| :: events[t].txn == t
    requires p in Journal(events)
    ensures p.txn < |events| && p.leg in events[p.txn].legs
  {
    var front, last := events[..|events| - 1], events[|events| - 1];
    var before := Journal(front);
    if p in before {
      JournalKeepsLegs(front, p);
    } else {
      assert p in PostingsFor(|before|, last);
    }
  }

  lemma PostingIsItsTransactions(l: Ledger, p: Posting)
    requires Consistent(l) && p in l.postings
    ensures p.txn < |l.txns| && p.leg.account < |l.accounts|
    ensures l.txns[p.txn].tenant == l.accounts[p.leg.account].tenant
  {
    forall t: nat | t < |l.events| ensures l.events[t].txn == t { assert EventDescribes(l, t); }
    JournalKeepsLegs(l.events, p);
    assert EventDescribes(l, p.txn);
  }

  /** A row is a posting and the audit fields of its transaction. */
  predicate Shows(l: Ledger, row: JournalRow, p: Posting) {
    && row.posting == p.id && row.txn == p.txn && row.amount == p.leg.amount
    && row.effectiveAt == p.leg.effectiveAt && row.createdAt == p.createdAt
    && p.txn < |l.txns| && row.memo == l.txns[p.txn].memo && row.corrects == l.txns[p.txn].corrects
  }

  predicate Before(x: JournalRow, effectiveAt: Instant, id: PostingId) {
    x.effectiveAt < effectiveAt || (x.effectiveAt == effectiveAt && x.posting < id)
  }

  /** The account's postings that take effect after the cursor. */
  predicate Due(a: AccountId, after: Option<Instant>, p: Posting) {
    p.leg.account == a && (after == None || p.leg.effectiveAt > after.value)
  }

  lemma RowsShowThePage(l: Ledger, tenant: string, a: AccountId, after: Option<Instant>, limit: nat)
    requires a < |l.accounts| && l.accounts[a].tenant == tenant
    ensures var journal, page := AccountJournal(l, tenant, a, after, limit), Page(l, a, after, limit);
      journal.Some? && |journal.value| == |page| && forall i | 0 <= i < |page| :: Shows(l, journal.value[i], page[i])
  {
    PageIsSelected(l, a, after, limit);
    var page := Page(l, a, after, limit);
    forall i | 0 <= i < |page| ensures page[i] in page {}
  }

  lemma PageIsTheFront(l: Ledger, a: AccountId, after: Option<Instant>, limit: nat, p: Posting)
    requires DistinctPostings(l.postings) && p in Rest(l, a, after)
    ensures var page := Page(l, a, after, limit);
      p in page || (|page| == limit && forall i | 0 <= i < |page| :: Less(JournalRank(page[i]), JournalRank(p)))
  {
    var s := Rest(l, a, after);
    SelectedIsDistinct(l.postings, Selected(l.txns, a, after));
    DistinctSortIsStrict(Filter(l.postings, Selected(l.txns, a, after)), JournalRank);
    var k :| 0 <= k < |s| && s[k] == p;
    if k < limit {
      assert Page(l, a, after, limit)[k] == p;
    }
  }

  lemma DuePostingsRemain(l: Ledger, a: AccountId, after: Option<Instant>, p: Posting)
    requires Consistent(l)
    ensures p in Rest(l, a, after) <==> p in l.postings && Due(a, after, p)
  {
    var selected := Filter(l.postings, Selected(l.txns, a, after));
    SortMembers(selected, JournalRank);
    assert p in multiset(Rest(l, a, after)) <==> p in multiset(selected);
    FilterMembers(l.postings, Selected(l.txns, a, after), p);
    if p in l.postings { PostingIsItsTransactions(l, p); }
  }

  predicate RowsAreDue(l: Ledger, rows: seq<JournalRow>, a: AccountId, after: Option<Instant>) {
    forall i | 0 <= i < |rows| :: ShowsOne(l, rows[i], a, after)
  }

  predicate ShowsOne(l: Ledger, row: JournalRow, a: AccountId, after: Option<Instant>) {
    exists p <- l.postings :: Due(a, after, p) && Shows(l, row, p)
  }

  predicate RowsInOrder(rows: seq<JournalRow>) {
    forall i, j | 0 <= i < j < |rows| :: Before(rows[i], rows[j].effectiveAt, rows[j].posting)
  }

  /** Every posting that is due is shown, or comes after a full page. */
  predicate ShownOrLater(l: Ledger, rows: seq<JournalRow>, limit: nat, p: Posting) {
    || (exists i | 0 <= i < |rows| :: Shows(l, rows[i], p))
    || (|rows| == limit && forall i | 0 <= i < |rows| :: Before(rows[i], p.leg.effectiveAt, p.id))
  }

  lemma PageIsDue(l: Ledger, rows: seq<JournalRow>, a: AccountId, after: Option<Instant>, limit: nat)
    requires |rows| == |Page(l, a, after, limit)| && forall i | 0 <= i < |rows| :: Shows(l, rows[i], Page(l, a, after, limit)[i])
    ensures RowsAreDue(l, rows, a, after)
  {
    var page := Page(l, a, after, limit);
    PageIsSelected(l, a, after, limit);
    forall i | 0 <= i < |rows| ensures ShowsOne(l, rows[i], a, after) {
      assert page[i] in page && Shows(l, rows[i], page[i]);
      assert page[i] in l.postings && Due(a, after, page[i]);
    }
  }

  lemma PageInOrder(l: Ledger, rows: seq<JournalRow>, a: AccountId, after: Option<Instant>, limit: nat)
    requires DistinctPostings(l.postings)
    requires |rows| == |Page(l, a, after, limit)| && forall i | 0 <= i < |rows| :: Shows(l, rows[i], Page(l, a, after, limit)[i])
    ensures RowsInOrder(rows)
  {
    var page := Page(l, a, after, limit);
    PageIsStrict(l, a, after, limit);
    forall i, j | 0 <= i < j < |rows| ensures Before(rows[i], rows[j].effectiveAt, rows[j].posting) {
      assert Shows(l, rows[i], page[i]) && Shows(l, rows[j], page[j]);
      assert Less(JournalRank(page[i]), JournalRank(page[j]));
    }
  }

  lemma PageLeavesTheLater(l: Ledger, rows: seq<JournalRow>, a: AccountId, after: Option<Instant>, limit: nat, p: Posting)
    requires Consistent(l) && DistinctPostings(l.postings) && p in l.postings && Due(a, after, p)
    requires |rows| == |Page(l, a, after, limit)| && forall i | 0 <= i < |rows| :: Shows(l, rows[i], Page(l, a, after, limit)[i])
    ensures ShownOrLater(l, rows, limit, p)
  {
    var page := Page(l, a, after, limit);
    DuePostingsRemain(l, a, after, p);
    PageIsTheFront(l, a, after, limit, p);
    if p in page {
      var i :| 0 <= i < |page| && page[i] == p;
      assert Shows(l, rows[i], p);
    } else {
      forall i | 0 <= i < |rows| ensures Before(rows[i], p.leg.effectiveAt, p.id) { assert Shows(l, rows[i], page[i]); }
    }
  }

  /** What a page shows, in full: postings that are due, in order of effect and of id where that ties, at
      most `limit`; and any that is due and not shown comes after a full page. */
  lemma JournalShowsTheFirstDue(l: Ledger, tenant: string, a: AccountId, after: Option<Instant>, limit: nat)
    requires Consistent(l) && a < |l.accounts| && l.accounts[a].tenant == tenant
    ensures AccountJournal(l, tenant, a, after, limit).Some?
    ensures var rows := AccountJournal(l, tenant, a, after, limit).value;
      && |rows| <= limit && RowsAreDue(l, rows, a, after) && RowsInOrder(rows)
      && forall p <- l.postings | Due(a, after, p) :: ShownOrLater(l, rows, limit, p)
  {
    RowsShowThePage(l, tenant, a, after, limit);
    var rows := AccountJournal(l, tenant, a, after, limit).value;
    JournalNumbersItsPostings(l.events);
    PageIsDue(l, rows, a, after, limit);
    PageInOrder(l, rows, a, after, limit);
    forall p | p in l.postings && Due(a, after, p) ensures ShownOrLater(l, rows, limit, p) {
      PageLeavesTheLater(l, rows, a, after, limit, p);
    }
  }

  /** A tenant gets nothing of an account that is not its own; of one that is, a page of that account's
      postings, each with the memo and correction of a transaction of the same tenant. */
  lemma JournalStaysInItsTenant(l: Ledger, tenant: string, a: AccountId, after: Option<Instant>, limit: nat)
    requires Consistent(l)
    ensures var journal := AccountJournal(l, tenant, a, after, limit);
      && (journal.Some? <==> a < |l.accounts| && l.accounts[a].tenant == tenant)
      && (journal.Some? ==>
            && |journal.value| <= limit
            && forall row <- journal.value ::
                 && row.txn < |l.txns| && l.txns[row.txn].tenant == tenant
                 && row.memo == l.txns[row.txn].memo && row.corrects == l.txns[row.txn].corrects
                 && exists p <- l.postings :: p.id == row.posting && p.txn == row.txn && p.leg.account == a && p.leg.amount == row.amount)
  {
    var journal := AccountJournal(l, tenant, a, after, limit);
    if journal.Some? {
      var page := Page(l, a, after, limit);
      PageIsSelected(l, a, after, limit);
      forall row | row in journal.value
        ensures row.txn < |l.txns| && l.txns[row.txn].tenant == tenant
        ensures exists p <- l.postings :: p.id == row.posting && p.txn == row.txn && p.leg.account == a && p.leg.amount == row.amount
      {
        var i :| 0 <= i < |page| && journal.value[i] == row;
        assert page[i] in page;
        PostingIsItsTransactions(l, page[i]);
      }
    }
  }
}
