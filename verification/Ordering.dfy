/** ORDER BY over two integer columns, WHERE, and what they owe each other. */
module Ordering {
  datatype Rank = Rank(major: int, minor: int)

  predicate Less(x: Rank, y: Rank) {
    x.major < y.major || (x.major == y.major && x.minor < y.minor)
  }

  function Filter<T>(s: seq<T>, keep: T -> bool): (r: seq<T>)
    ensures |r| <= |s|
  {
    if s == [] then []
    else Filter(s[..|s| - 1], keep) + (if keep(s[|s| - 1]) then [s[|s| - 1]] else [])
  }

  /** Inserts after every element it does not precede. */
  function Insert<T>(s: seq<T>, x: T, rank: T -> Rank): (r: seq<T>)
    ensures |r| == |s| + 1
  {
    if s != [] && Less(rank(x), rank(s[|s| - 1])) then Insert(s[..|s| - 1], x, rank) + [s[|s| - 1]]
    else s + [x]
  }

  /** Equal ranks keep their table order; a query may return them in any order. */
  function Sort<T>(s: seq<T>, rank: T -> Rank): (r: seq<T>)
    ensures |r| == |s|
  {
    if s == [] then [] else Insert(Sort(s[..|s| - 1], rank), s[|s| - 1], rank)
  }

  /** LIMIT. */
  function Take<T>(s: seq<T>, limit: nat): seq<T> {
    if limit < |s| then s[..limit] else s
  }

  predicate Sorted<T>(s: seq<T>, rank: T -> Rank) {
    forall i, j | 0 <= i < j < |s| :: !Less(rank(s[j]), rank(s[i]))
  }

  predicate StrictlySorted<T>(s: seq<T>, rank: T -> Rank) {
    forall i, j | 0 <= i < j < |s| :: Less(rank(s[i]), rank(s[j]))
  }

  predicate DistinctRanks<T>(s: seq<T>, rank: T -> Rank) {
    forall i, j | 0 <= i < j < |s| :: rank(s[i]) != rank(s[j])
  }

  // ----- Filtering -----

  lemma {:induction false} FilterConcat<T>(s: seq<T>, t: seq<T>, keep: T -> bool)
    ensures Filter(s + t, keep) == Filter(s, keep) + Filter(t, keep)
  {
    if t == [] {
      assert s + t == s;
    } else {
      FilterConcat(s, t[..|t| - 1], keep);
      assert (s + t)[..|s + t| - 1] == s + t[..|t| - 1];
    }
  }

  lemma {:induction false} FilterMembers<T>(s: seq<T>, keep: T -> bool, x: T)
    ensures x in Filter(s, keep) <==> x in s && keep(x)
  {
    if s == [] {
    } else {
      FilterMembers(s[..|s| - 1], keep, x);
      assert s == s[..|s| - 1] + [s[|s| - 1]];
    }
  }

  lemma {:induction false} FilterAll<T>(s: seq<T>, keep: T -> bool)
    requires forall x <- s :: keep(x)
    ensures Filter(s, keep) == s
  {
    if s == [] {
    } else {
      var front, last := s[..|s| - 1], s[|s| - 1];
      assert s == front + [last] && last in s;
      FilterAll(front, keep);
    }
  }

  lemma {:induction false} FilterNone<T>(s: seq<T>, keep: T -> bool)
    requires forall x <- s :: !keep(x)
    ensures Filter(s, keep) == []
  {
    if s == [] {
    } else {
      FilterNone(s[..|s| - 1], keep);
    }
  }

  lemma FilterSnoc<T>(s: seq<T>, x: T, keep: T -> bool)
    ensures Filter(s + [x], keep) == if keep(x) then Filter(s, keep) + [x] else Filter(s, keep)
  {
    assert (s + [x])[..|s|] == s;
  }

  // ----- Sorting -----

  lemma LastMember<T>(s: seq<T>)
    requires s != []
    ensures multiset(s) == multiset(s[..|s| - 1]) + multiset{s[|s| - 1]}
  {
    assert s == s[..|s| - 1] + [s[|s| - 1]];
  }

  lemma {:induction false} InsertMembers<T>(s: seq<T>, x: T, rank: T -> Rank)
    ensures multiset(Insert(s, x, rank)) == multiset(s) + multiset{x}
  {
    if s != [] && Less(rank(x), rank(s[|s| - 1])) {
      InsertMembers(s[..|s| - 1], x, rank);
      LastMember(s);
    }
  }

  lemma {:induction false} SortMembers<T>(s: seq<T>, rank: T -> Rank)
    ensures multiset(Sort(s, rank)) == multiset(s)
  {
    if s == [] {
    } else {
      SortMembers(s[..|s| - 1], rank);
      InsertMembers(Sort(s[..|s| - 1], rank), s[|s| - 1], rank);
      LastMember(s);
    }
  }

  lemma InsertedElement<T>(s: seq<T>, x: T, rank: T -> Rank, i: nat)
    requires i < |s| + 1
    ensures Insert(s, x, rank)[i] == x || Insert(s, x, rank)[i] in s
  {
    var r := Insert(s, x, rank);
    InsertMembers(s, x, rank);
    assert r[i] in multiset(r);
    assert r[i] in multiset(s) + multiset{x};
  }

  lemma SortedSnoc<T>(s: seq<T>, last: T, rank: T -> Rank)
    requires Sorted(s, rank)
    requires forall i | 0 <= i < |s| :: !Less(rank(last), rank(s[i]))
    ensures Sorted(s + [last], rank)
  {
  }

  lemma NotBelowTheLast<T>(s: seq<T>, rank: T -> Rank, i: nat)
    requires Sorted(s, rank) && i < |s|
    ensures !Less(rank(s[|s| - 1]), rank(s[i]))
  {
    if i < |s| - 1 { assert !Less(rank(s[|s| - 1]), rank(s[i])); }
  }

  lemma {:induction false} InsertKeepsSorted<T>(s: seq<T>, x: T, rank: T -> Rank)
    requires Sorted(s, rank)
    ensures Sorted(Insert(s, x, rank), rank)
  {
    forall i | 0 <= i < |s| ensures !Less(rank(s[|s| - 1]), rank(s[i])) { NotBelowTheLast(s, rank, i); }
    if s != [] && Less(rank(x), rank(s[|s| - 1])) {
      var front := s[..|s| - 1];
      InsertKeepsSorted(front, x, rank);
      var r := Insert(front, x, rank);
      forall i | 0 <= i < |r| ensures !Less(rank(s[|s| - 1]), rank(r[i])) {
        InsertedElement(front, x, rank, i);
      }
      SortedSnoc(r, s[|s| - 1], rank);
    } else {
      SortedSnoc(s, x, rank);
    }
  }

  lemma {:induction false} SortSorts<T>(s: seq<T>, rank: T -> Rank)
    ensures Sorted(Sort(s, rank), rank)
  {
    if s == [] {
    } else {
      SortSorts(s[..|s| - 1], rank);
      InsertKeepsSorted(Sort(s[..|s| - 1], rank), s[|s| - 1], rank);
    }
  }

  lemma InsertBeforeLast<T>(s: seq<T>, last: T, x: T, rank: T -> Rank)
    requires Less(rank(x), rank(last))
    ensures Insert(s + [last], x, rank) == Insert(s, x, rank) + [last]
  {
    assert (s + [last])[..|s|] == s;
  }

  lemma {:induction false} InsertFilter<T>(s: seq<T>, x: T, rank: T -> Rank, keep: T -> bool)
    requires Sorted(s, rank)
    ensures Filter(Insert(s, x, rank), keep)
         == if keep(x) then Insert(Filter(s, keep), x, rank) else Filter(s, keep)
  {
    if s != [] && Less(rank(x), rank(s[|s| - 1])) {
      var front, last := s[..|s| - 1], s[|s| - 1];
      InsertFilter(front, x, rank, keep);
      assert s == front + [last];
      FilterSnoc(Insert(front, x, rank), last, keep);
      FilterSnoc(front, last, keep);
      InsertBeforeLast(Filter(front, keep), last, x, rank);
    } else {
      FilterSnoc(s, x, keep);
      forall y | y in Filter(s, keep) ensures !Less(rank(x), rank(y)) {
        FilterMembers(s, keep, y);
        var i :| 0 <= i < |s| && s[i] == y;
        if i < |s| - 1 { assert !Less(rank(s[|s| - 1]), rank(s[i])); }
      }
      InsertAtEnd(Filter(s, keep), x, rank);
    }
  }

  lemma InsertAtEnd<T>(s: seq<T>, x: T, rank: T -> Rank)
    requires forall y <- s :: !Less(rank(x), rank(y))
    ensures Insert(s, x, rank) == s + [x]
  {
  }

  lemma SortSnoc<T>(s: seq<T>, x: T, rank: T -> Rank)
    ensures Sort(s + [x], rank) == Insert(Sort(s, rank), x, rank)
  {
    assert (s + [x])[..|s|] == s;
  }

  lemma SortFilterSnoc<T>(front: seq<T>, last: T, rank: T -> Rank, keep: T -> bool)
    requires Sort(Filter(front, keep), rank) == Filter(Sort(front, rank), keep)
    ensures Sort(Filter(front + [last], keep), rank) == Filter(Sort(front + [last], rank), keep)
  {
    var sorted := Sort(front, rank);
    SortSnoc(front, last, rank);
    FilterSnoc(front, last, keep);
    SortSnoc(Filter(front, keep), last, rank);
    assert Filter(Insert(sorted, last, rank), keep)
        == if keep(last) then Insert(Filter(sorted, keep), last, rank) else Filter(sorted, keep) by {
      SortSorts(front, rank);
      InsertFilter(sorted, last, rank, keep);
    }
  }

  /** WHERE commutes with ORDER BY. */
  lemma {:induction false} SortFilter<T>(s: seq<T>, rank: T -> Rank, keep: T -> bool)
    ensures Sort(Filter(s, keep), rank) == Filter(Sort(s, rank), keep)
  {
    if s == [] {
    } else {
      SortFilter(s[..|s| - 1], rank, keep);
      SortFilterSnoc(s[..|s| - 1], s[|s| - 1], rank, keep);
      assert s == s[..|s| - 1] + [s[|s| - 1]];
    }
  }

  lemma {:induction false} InsertKeepsStrict<T>(s: seq<T>, x: T, rank: T -> Rank)
    requires StrictlySorted(s, rank)
    requires forall y <- s :: rank(y) != rank(x)
    ensures StrictlySorted(Insert(s, x, rank), rank)
  {
    if s != [] && Less(rank(x), rank(s[|s| - 1])) {
      var front := s[..|s| - 1];
      InsertKeepsStrict(front, x, rank);
      var r := Insert(front, x, rank);
      forall i | 0 <= i < |r| ensures Less(rank(r[i]), rank(s[|s| - 1])) {
        InsertedElement(front, x, rank, i);
      }
    } else {
      forall i | 0 <= i < |s| ensures Less(rank(s[i]), rank(x)) {
        if i < |s| - 1 { assert Less(rank(s[i]), rank(s[|s| - 1])); }
      }
    }
  }

  lemma {:induction false} DistinctSortIsStrict<T>(s: seq<T>, rank: T -> Rank)
    requires DistinctRanks(s, rank)
    ensures StrictlySorted(Sort(s, rank), rank)
  {
    if s == [] {
    } else {
      var front, last := s[..|s| - 1], s[|s| - 1];
      DistinctSortIsStrict(front, rank);
      SortMembers(front, rank);
      forall y | y in Sort(front, rank) ensures rank(y) != rank(last) {
        assert y in multiset(Sort(front, rank));
        assert y in multiset(front);
      }
      InsertKeepsStrict(Sort(front, rank), last, rank);
    }
  }

  /** With distinct ranks any sorted arrangement of the same rows is the same sequence. */
  lemma {:induction false} StrictOrderIsUnique<T>(s: seq<T>, r: seq<T>, rank: T -> Rank)
    requires StrictlySorted(s, rank) && Sorted(r, rank) && multiset(s) == multiset(r)
    ensures s == r
  {
    assert |s| == |multiset(s)| == |multiset(r)| == |r|;
    if s == [] {
    } else {
      LastIsForced(s, r, rank);
      LastMember(s);
      LastMember(r);
      WithoutLast(multiset(s[..|s| - 1]), multiset(r[..|r| - 1]), s[|s| - 1]);
      StrictOrderIsUnique(s[..|s| - 1], r[..|r| - 1], rank);
    }
  }

  lemma LastIsForced<T>(s: seq<T>, r: seq<T>, rank: T -> Rank)
    requires StrictlySorted(s, rank) && Sorted(r, rank) && multiset(s) == multiset(r)
    requires |s| == |r| > 0
    ensures s[|s| - 1] == r[|r| - 1]
  {
    var n := |s| - 1;
    assert s[n] in multiset(r) && r[n] in multiset(s);
    var i :| 0 <= i <= n && r[i] == s[n];
    var j :| 0 <= j <= n && s[j] == r[n];
    if j < n {
      assert Less(rank(s[j]), rank(s[n]));
    }
  }

  lemma WithoutLast<T>(a: multiset<T>, b: multiset<T>, x: T)
    requires a + multiset{x} == b + multiset{x}
    ensures a == b
  {
    assert a == (a + multiset{x}) - multiset{x};
    assert b == (b + multiset{x}) - multiset{x};
  }
}
