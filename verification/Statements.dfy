/** Statements (backend/services/statements_service.py): a window of an account's postings in
    effective order, with a running balance. */
module Statements {
  import opened Tables
  import opened Ordering
  import opened PostingEngine

  datatype StatementRow = StatementRow(posting: PostingId, effectiveAt: Instant, amount: int, running: int)

  function StatementRank(p: Posting): Rank {
    Rank(p.leg.effectiveAt, p.createdAt)
  }

  function InWindow(a: AccountId, start: Instant, end: Instant): Posting -> bool {
    (p: Posting) => p.leg.account == a && start <= p.leg.effectiveAt < end
  }

  /** What the query may return: the window's postings in effective and then creation order. Rows
      that tie on both come in any order. */
  predicate IsAnswer(answer: seq<Posting>, ps: seq<Posting>, a: AccountId, start: Instant, end: Instant) {
    multiset(answer) == multiset(Filter(ps, InWindow(a, start, end))) && Sorted(answer, StatementRank)
  }

  /** One such answer: ties in table order. */
  function Window(ps: seq<Posting>, a: AccountId, start: Instant, end: Instant): seq<Posting> {
    Sort(Filter(ps, InWindow(a, start, end)), StatementRank)
  }

  lemma WindowIsAnAnswer(ps: seq<Posting>, a: AccountId, start: Instant, end: Instant)
    ensures IsAnswer(Window(ps, a, start, end), ps, a, start, end)
  {
    SortMembers(Filter(ps, InWindow(a, start, end)), StatementRank);
    SortSorts(Filter(ps, InWindow(a, start, end)), StatementRank);
  }

  function SumAmounts(ps: seq<Posting>): int {
    if ps == [] then 0 else SumAmounts(ps[..|ps| - 1]) + ps[|ps| - 1].leg.amount
  }

  /** What the statement says of its `i`th row: the opening balance plus everything up to it. */
  function RowAt(window: seq<Posting>, opening: int, i: nat): StatementRow
    requires i < |window|
  {
    StatementRow(window[i].id, window[i].leg.effectiveAt, window[i].leg.amount, opening + SumAmounts(window[..i + 1]))
  }

  function Rows(window: seq<Posting>, opening: int): (rows: seq<StatementRow>)
    ensures |rows| == |window|
  {
    seq(|window|, i requires 0 <= i < |window| => RowAt(window, opening, i))
  }

  /** The balance a statement closes at, whatever the order of its rows. */
  function Closing(ps: seq<Posting>, a: AccountId, start: Instant, end: Instant, opening: int): int {
    opening + SumAmounts(Filter(ps, InWindow(a, start, end)))
  }

  /** Each row shows its posting, and a balance that its amount moves on from the row before. */
  predicate Carries(rows: seq<StatementRow>, answer: seq<Posting>, opening: int) {
    && |rows| == |answer|
    && forall i | 0 <= i < |rows| ::
         && rows[i].posting == answer[i].id && rows[i].effectiveAt == answer[i].leg.effectiveAt && rows[i].amount == answer[i].leg.amount
         && rows[i].running == (if i == 0 then opening else rows[i - 1].running) + answer[i].leg.amount
  }

  lemma RowsCarry(answer: seq<Posting>, opening: int)
    ensures Carries(Rows(answer, opening), answer, opening)
  {
    forall i | 0 <= i < |answer| ensures SumAmounts(answer[..i + 1]) == SumAmounts(answer[..i]) + answer[i].leg.amount {
      assert answer[..i + 1][..i] == answer[..i];
    }
  }

  /** What the query may return, row by row: exactly the account's postings that take effect from `start`
      and before `end`, in order of effect, and of creation where that ties. */
  lemma AnswersAreInOrder(answer: seq<Posting>, ps: seq<Posting>, a: AccountId, start: Instant, end: Instant)
    requires IsAnswer(answer, ps, a, start, end)
    ensures forall p :: p in answer <==> p in ps && p.leg.account == a && start <= p.leg.effectiveAt && p.leg.effectiveAt < end
    ensures forall i, j | 0 <= i < j < |answer| ::
      && answer[i].leg.effectiveAt <= answer[j].leg.effectiveAt
      && (answer[i].leg.effectiveAt == answer[j].leg.effectiveAt ==> answer[i].createdAt <= answer[j].createdAt)
  {
    forall p ensures p in answer <==> p in ps && p.leg.account == a && start <= p.leg.effectiveAt && p.leg.effectiveAt < end {
      FilterMembers(ps, InWindow(a, start, end), p);
      assert p in multiset(answer) <==> p in multiset(Filter(ps, InWindow(a, start, end)));
    }
    forall i, j | 0 <= i < j < |answer|
      ensures answer[i].leg.effectiveAt <= answer[j].leg.effectiveAt
      ensures answer[i].leg.effectiveAt == answer[j].leg.effectiveAt ==> answer[i].createdAt <= answer[j].createdAt
    {
      assert !Less(StatementRank(answer[j]), StatementRank(answer[i]));
    }
  }

  /** `stream_statement`: one pass over the rows as the database returns them, carrying the running
      balance. */
  method StreamStatement(ps: seq<Posting>, a: AccountId, start: Instant, end: Instant, opening: int, answer: seq<Posting>)
    returns (rows: seq<StatementRow>)
    requires IsAnswer(answer, ps, a, start, end)
    ensures rows == Rows(answer, opening)
    ensures Carries(rows, answer, opening)
    ensures rows != [] ==> rows[|rows| - 1].running == Closing(ps, a, start, end, opening)
  {
    var running := opening;
    rows := [];
    for i := 0 to |answer|
      invariant running == opening + SumAmounts(answer[..i])
      invariant |rows| == i && forall j | 0 <= j < i :: rows[j] == RowAt(answer, opening, j)
    {
      assert answer[..i + 1][..i] == answer[..i];
      running := running + answer[i].leg.amount;
      rows := rows + [StatementRow(answer[i].id, answer[i].leg.effectiveAt, answer[i].leg.amount, running)];
    }
    assert answer[..|answer|] == answer;
    SumIsPermutationInvariant(answer, Filter(ps, InWindow(a, start, end)));
    RowsCarry(answer, opening);
  }

  // ----- Statements compose -----

  lemma {:induction false} SumsConcat(xs: seq<Posting>, ys: seq<Posting>)
    ensures SumAmounts(xs + ys) == SumAmounts(xs) + SumAmounts(ys)
  {
    if ys == [] {
      assert xs + ys == xs;
    } else {
      SumsConcat(xs, ys[..|ys| - 1]);
      assert (xs + ys)[..|xs + ys| - 1] == xs + ys[..|ys| - 1];
    }
  }

  lemma RowsConcat(xs: seq<Posting>, ys: seq<Posting>, opening: int)
    ensures Rows(xs + ys, opening) == Rows(xs, opening) + Rows(ys, opening + SumAmounts(xs))
  {
    var whole := Rows(xs + ys, opening);
    var split := Rows(xs, opening) + Rows(ys, opening + SumAmounts(xs));
    forall i | 0 <= i < |xs + ys| ensures whole[i] == split[i] {
      if i < |xs| {
        assert (xs + ys)[..i + 1] == xs[..i + 1];
      } else {
        assert (xs + ys)[..i + 1] == xs + ys[..i - |xs| + 1];
        SumsConcat(xs, ys[..i - |xs| + 1]);
      }
    }
  }

  /** `f` with `last` appended if it is kept. */
  function Kept(f: seq<Posting>, last: Posting, keep: bool): seq<Posting> {
    if keep then f + [last] else f
  }

  lemma KeptSplits(f: seq<Posting>, g: seq<Posting>, h: seq<Posting>, last: Posting, inG: bool, inH: bool)
    requires multiset(f) == multiset(g) + multiset(h) && !(inG && inH)
    ensures multiset(Kept(f, last, inG || inH)) == multiset(Kept(g, last, inG)) + multiset(Kept(h, last, inH))
  {
    assert multiset(f + [last]) == multiset(f) + multiset{last};
  }

  lemma FilterKeeps(front: seq<Posting>, last: Posting, keep: Posting -> bool)
    ensures Filter(front + [last], keep) == Kept(Filter(front, keep), last, keep(last))
  {
    FilterSnoc(front, last, keep);
  }

  lemma {:induction false} WindowsSplit(ps: seq<Posting>, a: AccountId, start: Instant, mid: Instant, end: Instant)
    requires start <= mid <= end
    ensures multiset(Filter(ps, InWindow(a, start, end)))
         == multiset(Filter(ps, InWindow(a, start, mid))) + multiset(Filter(ps, InWindow(a, mid, end)))
  {
    if ps == [] {
    } else {
      var front, last := ps[..|ps| - 1], ps[|ps| - 1];
      var whole, first, second := InWindow(a, start, end), InWindow(a, start, mid), InWindow(a, mid, end);
      WindowsSplit(front, a, start, mid, end);
      assert ps == front + [last];
      FilterKeeps(front, last, whole);
      FilterKeeps(front, last, first);
      FilterKeeps(front, last, second);
      KeptSplits(Filter(front, whole), Filter(front, first), Filter(front, second), last, first(last), second(last));
    }
  }

  lemma WindowSumsSplit(ps: seq<Posting>, a: AccountId, start: Instant, mid: Instant, end: Instant)
    requires start <= mid <= end
    ensures SumAmounts(Filter(ps, InWindow(a, start, end)))
         == SumAmounts(Filter(ps, InWindow(a, start, mid))) + SumAmounts(Filter(ps, InWindow(a, mid, end)))
  {
    var whole, first, second := Filter(ps, InWindow(a, start, end)), Filter(ps, InWindow(a, start, mid)), Filter(ps, InWindow(a, mid, end));
    WindowsSplit(ps, a, start, mid, end);
    assert multiset(first + second) == multiset(first) + multiset(second);
    SumIsPermutationInvariant(whole, first + second);
    SumsConcat(first, second);
  }

  lemma AnswerIsInItsWindow(answer: seq<Posting>, ps: seq<Posting>, a: AccountId, start: Instant, end: Instant, i: nat)
    requires IsAnswer(answer, ps, a, start, end) && i < |answer|
    ensures InWindow(a, start, end)(answer[i])
  {
    assert answer[i] in multiset(answer);
    assert answer[i] in Filter(ps, InWindow(a, start, end));
    FilterMembers(ps, InWindow(a, start, end), answer[i]);
  }

  lemma AnswersJoinSorted(x: seq<Posting>, y: seq<Posting>, ps: seq<Posting>, a: AccountId, start: Instant, mid: Instant, end: Instant)
    requires IsAnswer(x, ps, a, start, mid) && IsAnswer(y, ps, a, mid, end)
    ensures Sorted(x + y, StatementRank)
  {
    forall i, j | 0 <= i < j < |x + y| ensures !Less(StatementRank((x + y)[j]), StatementRank((x + y)[i])) {
      if i < |x| <= j {
        AnswerIsInItsWindow(x, ps, a, start, mid, i);
        AnswerIsInItsWindow(y, ps, a, mid, end, j - |x|);
      }
    }
  }

  lemma AnswersJoin(x: seq<Posting>, y: seq<Posting>, ps: seq<Posting>, a: AccountId, start: Instant, mid: Instant, end: Instant)
    requires start <= mid <= end
    requires IsAnswer(x, ps, a, start, mid) && IsAnswer(y, ps, a, mid, end)
    ensures IsAnswer(x + y, ps, a, start, end)
  {
    WindowsSplit(ps, a, start, mid, end);
    AnswersJoinSorted(x, y, ps, a, start, mid, end);
    assert multiset(x + y) == multiset(x) + multiset(y);
  }

  lemma AnswerSums(answer: seq<Posting>, ps: seq<Posting>, a: AccountId, start: Instant, end: Instant, opening: int)
    requires IsAnswer(answer, ps, a, start, end)
    ensures Closing(ps, a, start, end, opening) == opening + SumAmounts(answer)
  {
    SumIsPermutationInvariant(answer, Filter(ps, InWindow(a, start, end)));
  }

  lemma ClosingsCompose(ps: seq<Posting>, a: AccountId, start: Instant, mid: Instant, end: Instant, opening: int)
    requires start <= mid <= end
    ensures Closing(ps, a, start, end, opening) == Closing(ps, a, mid, end, Closing(ps, a, start, mid, opening))
  {
    WindowSumsSplit(ps, a, start, mid, end);
  }

  lemma RowsContinue(x: seq<Posting>, y: seq<Posting>, opening: int, carried: int)
    requires carried == opening + SumAmounts(x)
    ensures Rows(x + y, opening) == Rows(x, opening) + Rows(y, carried)
  {
    RowsConcat(x, y, opening);
  }

  /** Whatever the order of ties, a statement for [start, mid), then one for [mid, end) opened at its
      closing balance, is a statement for [start, end), and closes where that does. */
  lemma StatementsCompose(ps: seq<Posting>, a: AccountId, start: Instant, mid: Instant, end: Instant, opening: int,
      x: seq<Posting>, y: seq<Posting>)
    requires start <= mid <= end
    requires IsAnswer(x, ps, a, start, mid) && IsAnswer(y, ps, a, mid, end)
    ensures IsAnswer(x + y, ps, a, start, end)
    ensures Rows(x + y, opening) == Rows(x, opening) + Rows(y, Closing(ps, a, start, mid, opening))
    ensures Closing(ps, a, start, end, opening) == Closing(ps, a, mid, end, Closing(ps, a, start, mid, opening))
  {
    AnswersJoin(x, y, ps, a, start, mid, end);
    AnswerSums(x, ps, a, start, mid, opening);
    RowsContinue(x, y, opening, Closing(ps, a, start, mid, opening));
    ClosingsCompose(ps, a, start, mid, end, opening);
  }

  // ----- Statements are immutable once issued -----

  /** Both queries may return exactly the same rows. */
  ghost predicate SameAnswers(before: seq<Posting>, after: seq<Posting>, a: AccountId, start: Instant, end: Instant) {
    forall answer: seq<Posting> :: IsAnswer(answer, after, a, start, end) <==> IsAnswer(answer, before, a, start, end)
  }

  /** Appending postings leaves an issued statement as it was exactly when none of them falls into
      its window: a backdated posting does change it. */
  lemma IssuedStatementStandsIff(ps: seq<Posting>, added: seq<Posting>, a: AccountId, start: Instant, end: Instant)
    ensures SameAnswers(ps, ps + added, a, start, end) <==> forall p <- added :: !InWindow(a, start, end)(p)
  {
    FilterConcat(ps, added, InWindow(a, start, end));
    if forall p <- added :: !InWindow(a, start, end)(p) {
      FilterNone(added, InWindow(a, start, end));
      assert Filter(ps + added, InWindow(a, start, end)) == Filter(ps, InWindow(a, start, end));
    } else {
      var p :| p in added && InWindow(a, start, end)(p);
      FilterMembers(added, InWindow(a, start, end), p);
      var answer := Window(ps, a, start, end);
      WindowIsAnAnswer(ps, a, start, end);
      assert |multiset(Filter(ps + added, InWindow(a, start, end)))| > |multiset(answer)|;
      assert !IsAnswer(answer, ps + added, a, start, end);
    }
  }

  /** A transaction posted after the window closed, one of whose legs takes effect in it, does that. */
  lemma BackdatedPostingChangesTheStatement(l: Ledger, tenant: string, at: Instant, e: Entry, i: nat, a: AccountId, start: Instant, end: Instant)
    requires end <= at && i < |e.legs| && e.legs[i].account == a && start <= e.legs[i].effectiveAt < end
    ensures !SameAnswers(l.postings, Post(l, tenant, at, e).postings, a, start, end)
  {
    var added := PostingsFor(|l.postings|, EventFor(l, tenant, at, e));
    assert added[i] in added && InWindow(a, start, end)(added[i]);
    IssuedStatementStandsIff(l.postings, added, a, start, end);
  }

  /** Where an account's (effective, created) instants are distinct, the query has only one possible order. */
  lemma StatementOrderIsForced(ps: seq<Posting>, a: AccountId, start: Instant, end: Instant, answer: seq<Posting>)
    requires DistinctRanks(Filter(ps, InWindow(a, start, end)), StatementRank)
    requires IsAnswer(answer, ps, a, start, end)
    ensures answer == Window(ps, a, start, end)
  {
    var rows := Filter(ps, InWindow(a, start, end));
    DistinctSortIsStrict(rows, StatementRank);
    SortMembers(rows, StatementRank);
    StrictOrderIsUnique(Sort(rows, StatementRank), answer, StatementRank);
  }

  // ----- A full statement closes at the balance -----

  lemma {:induction false} SumIsPermutationInvariant(xs: seq<Posting>, ys: seq<Posting>)
    requires multiset(xs) == multiset(ys)
    ensures SumAmounts(xs) == SumAmounts(ys)
  {
    if xs == [] {
      assert |ys| == |multiset(ys)| == 0;
    } else {
      var n, x := |xs| - 1, xs[|xs| - 1];
      assert x in multiset(ys);
      var i :| 0 <= i < |ys| && ys[i] == x;
      var rest := ys[..i] + ys[i + 1..];
      assert ys == ys[..i] + ([x] + ys[i + 1..]);
      LastMember(xs);
      assert multiset(ys) == multiset(rest) + multiset{x};
      WithoutLast(multiset(xs[..n]), multiset(rest), x);
      SumIsPermutationInvariant(xs[..n], rest);
      SumsConcat(ys[..i], [x] + ys[i + 1..]);
      SumsConcat([x], ys[i + 1..]);
      SumsConcat(ys[..i], ys[i + 1..]);
      assert [x][..0] == [];
    }
  }

  lemma {:induction false} WindowedSumIsRecompute(ps: seq<Posting>, a: AccountId, start: Instant, end: Instant)
    requires forall p <- ps :: p.leg.account == a ==> start <= p.leg.effectiveAt < end
    ensures SumAmounts(Filter(ps, InWindow(a, start, end))) == Recompute(ps, a)
  {
    if ps == [] {
    } else {
      var front, last := ps[..|ps| - 1], ps[|ps| - 1];
      WindowedSumIsRecompute(front, a, start, end);
      assert ps == front + [last];
      FilterSnoc(front, last, InWindow(a, start, end));
      var f := Filter(front, InWindow(a, start, end));
      assert (f + [last])[..|f|] == f;
    }
  }

  /** A statement over a window that covers everything, opened where the account was seeded, closes
      at the snapshot. */
  lemma FullStatementClosesAtTheSnapshot(l: Ledger, a: AccountId, start: Instant, end: Instant)
    requires Consistent(l) && a < |l.accounts|
    requires forall p <- l.postings :: p.leg.account == a ==> start <= p.leg.effectiveAt < end
    ensures a in l.snapshots && a in l.seeded
    ensures Closing(l.postings, a, start, end, l.seeded[a].balance) == l.snapshots[a].balance
  {
    assert a in l.snapshots && Agrees(l.snapshots[a], l.seeded[a], l.postings, a);
    WindowedSumIsRecompute(l.postings, a, start, end);
  }
}
