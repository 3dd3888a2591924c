/** The transactional outbox (backend/services/outbox_service.py): ordered dispatch. */
module Outbox {
  import opened Wrappers
  import opened Tables
  import opened Ordering

  function EventRank(e: Event): Rank {
    Rank(e.createdAt, e.id)
  }

  function PendingOf(tenant: string): Event -> bool {
    (e: Event) => e.tenant == tenant && e.status == Pending
  }

  /** The tenant's pending events, oldest first. */
  function Queue(events: seq<Event>, tenant: string): seq<Event> {
    Sort(Filter(events, PendingOf(tenant)), EventRank)
  }

  function IdsOf(events: seq<Event>): set<nat> {
    set e <- events :: e.id
  }

  function Publish(e: Event, now: Instant): Event {
    e.(status := Published, publishedAt := Some(now))
  }

  function MarkPublished(events: seq<Event>, ids: set<nat>, now: Instant): (r: seq<Event>)
    ensures |r| == |events|
  {
    seq(|events|, i requires 0 <= i < |events| => if events[i].id in ids then Publish(events[i], now) else events[i])
  }

  function PublishEach(batch: seq<Event>, now: Instant): (r: seq<Event>)
    ensures |r| == |batch|
  {
    seq(|batch|, i requires 0 <= i < |batch| => Publish(batch[i], now))
  }

  /** `dispatch_pending`: the table afterwards. The events returned are `PublishEach` of the batch. */
  function Dispatch(events: seq<Event>, tenant: string, limit: nat, now: Instant): seq<Event> {
    MarkPublished(events, IdsOf(Take(Queue(events, tenant), limit)), now)
  }

  predicate DistinctIds(events: seq<Event>) {
    forall i, j | 0 <= i < j < |events| :: events[i].id != events[j].id
  }

  // ----- The queue -----

  lemma {:induction false} FilterKeepsDistinctRanks(s: seq<Event>, keep: Event -> bool)
    requires DistinctIds(s)
    ensures DistinctRanks(Filter(s, keep), EventRank)
  {
    if s == [] {
    } else {
      var front, last := s[..|s| - 1], s[|s| - 1];
      FilterKeepsDistinctRanks(front, keep);
      forall e | e in Filter(front, keep) ensures EventRank(e) != EventRank(last) {
        FilterMembers(front, keep, e);
      }
    }
  }

  lemma QueueMembers(events: seq<Event>, tenant: string, e: Event)
    ensures e in Queue(events, tenant) <==> e in events && PendingOf(tenant)(e)
  {
    var pending := Filter(events, PendingOf(tenant));
    SortMembers(pending, EventRank);
    FilterMembers(events, PendingOf(tenant), e);
    assert e in multiset(Queue(events, tenant)) <==> e in multiset(pending);
  }

  lemma QueueIsStrict(events: seq<Event>, tenant: string)
    requires DistinctIds(events)
    ensures StrictlySorted(Queue(events, tenant), EventRank)
    ensures DistinctIds(Queue(events, tenant))
  {
    var q := Queue(events, tenant);
    FilterKeepsDistinctRanks(events, PendingOf(tenant));
    DistinctSortIsStrict(Filter(events, PendingOf(tenant)), EventRank);
    forall i, j | 0 <= i < j < |q| ensures q[i].id != q[j].id {
      QueueMembers(events, tenant, q[i]);
      QueueMembers(events, tenant, q[j]);
      assert q[i] in q && q[j] in q;
      assert Less(EventRank(q[i]), EventRank(q[j]));
    }
  }

  function NotAmong(ids: set<nat>): Event -> bool {
    (e: Event) => e.id !in ids
  }

  lemma {:induction false} PendingAfterMarking(events: seq<Event>, tenant: string, ids: set<nat>, now: Instant)
    ensures Filter(MarkPublished(events, ids, now), PendingOf(tenant))
         == Filter(Filter(events, PendingOf(tenant)), NotAmong(ids))
  {
    if events == [] {
    } else {
      var front, last := events[..|events| - 1], events[|events| - 1];
      PendingAfterMarking(front, tenant, ids, now);
      var marked := if last.id in ids then Publish(last, now) else last;
      assert MarkPublished(events, ids, now) == MarkPublished(front, ids, now) + [marked];
      assert events == front + [last];
      FilterSnoc(MarkPublished(front, ids, now), marked, PendingOf(tenant));
      FilterSnoc(front, last, PendingOf(tenant));
      FilterSnoc(Filter(front, PendingOf(tenant)), last, NotAmong(ids));
    }
  }

  lemma LaterIdIsNew(q: seq<Event>, n: nat, e: Event)
    requires n <= |q| && DistinctIds(q) && e in q[n..]
    ensures e.id !in IdsOf(q[..n])
  {
    var j :| n <= j < |q| && q[j] == e;
    forall f | f in q[..n] ensures f.id != e.id {
      var i :| 0 <= i < n && q[i] == f;
    }
  }

  lemma FilterDropsFront(q: seq<Event>, n: nat)
    requires n <= |q| && DistinctIds(q)
    ensures Filter(q, NotAmong(IdsOf(q[..n]))) == q[n..]
  {
    var ids := IdsOf(q[..n]);
    assert q == q[..n] + q[n..];
    forall e | e in q[..n] ensures !NotAmong(ids)(e) {}
    FilterConcat(q[..n], q[n..], NotAmong(ids));
    FilterNone(q[..n], NotAmong(ids));
    forall e | e in q[n..] ensures NotAmong(ids)(e) {
      LaterIdIsNew(q, n, e);
    }
    FilterAll(q[n..], NotAmong(ids));
  }

  /** Dispatch takes the front of the queue and leaves exactly the rest, in the same order. */
  lemma DispatchTakesTheFront(events: seq<Event>, tenant: string, limit: nat, now: Instant)
    requires DistinctIds(events)
    ensures Queue(Dispatch(events, tenant, limit, now), tenant) == Queue(events, tenant)[|Take(Queue(events, tenant), limit)|..]
  {
    var q := Queue(events, tenant);
    var n := |Take(q, limit)|;
    assert Take(q, limit) == q[..n];
    var ids := IdsOf(q[..n]);
    PendingAfterMarking(events, tenant, ids, now);
    SortFilter(Filter(events, PendingOf(tenant)), EventRank, NotAmong(ids));
    QueueIsStrict(events, tenant);
    FilterDropsFront(q, n);
  }

  /** The queue holds exactly the tenant's pending events, oldest first, and by id where that ties. */
  lemma QueueIsOldestFirst(events: seq<Event>, tenant: string)
    requires DistinctIds(events)
    ensures var q := Queue(events, tenant);
      && (forall e :: e in q <==> e in events && e.tenant == tenant && e.status == Pending)
      && forall i, j | 0 <= i < j < |q| ::
           q[i].createdAt < q[j].createdAt || (q[i].createdAt == q[j].createdAt && q[i].id < q[j].id)
  {
    var q := Queue(events, tenant);
    QueueIsStrict(events, tenant);
    forall e ensures e in q <==> e in events && e.tenant == tenant && e.status == Pending {
      QueueMembers(events, tenant, e);
    }
    forall i, j | 0 <= i < j < |q|
      ensures q[i].createdAt < q[j].createdAt || (q[i].createdAt == q[j].createdAt && q[i].id < q[j].id)
    {
      assert Less(EventRank(q[i]), EventRank(q[j]));
    }
  }

  /** `published` is the front of `q`, published at `now`. */
  predicate AreStamped(published: seq<Event>, q: seq<Event>, now: Instant) {
    && |published| <= |q|
    && forall i | 0 <= i < |published| :: published[i] == q[i].(status := Published, publishedAt := Some(now))
  }

  lemma BatchIsStamped(q: seq<Event>, limit: nat, now: Instant)
    ensures AreStamped(PublishEach(Take(q, limit), now), q, now)
  {
  }

  /** Dispatch marks the events it takes as published and stamps them; nothing else about them changes, and
      nothing at all about the others. */
  lemma DispatchStampsItsBatch(events: seq<Event>, tenant: string, limit: nat, now: Instant, i: nat)
    requires DistinctIds(events) && i < |events|
    ensures var q, after := Queue(events, tenant), Dispatch(events, tenant, limit, now);
      && |after| == |events|
      && after[i] == if events[i] in q[..if limit < |q| then limit else |q|]
                     then events[i].(status := Published, publishedAt := Some(now)) else events[i]
  {
    var q := Queue(events, tenant);
    var batch := Take(q, limit);
    assert batch == q[..if limit < |q| then limit else |q|];
    if events[i].id in IdsOf(batch) {
      var b :| b in batch && b.id == events[i].id;
      QueueMembers(events, tenant, b);
      var j :| 0 <= j < |events| && events[j] == b;
      assert j == i;
    }
  }

  lemma MarkingKeepsIds(events: seq<Event>, ids: set<nat>, now: Instant)
    ensures var after := MarkPublished(events, ids, now);
      && |after| == |events|
      && forall i | 0 <= i < |events| :: after[i] == events[i] || after[i] == Publish(events[i], now)
  {
  }

  // ----- Published events form a prefix -----

  predicate InPlace(e: Event, f: Event, tenant: string) {
    e.tenant == tenant && f.tenant == tenant && f.status == Published && Less(EventRank(e), EventRank(f)) ==> e.status == Published
  }

  /** No published event of the tenant comes after one that still waits. */
  predicate PublishedPrefix(events: seq<Event>, tenant: string) {
    forall i, j | 0 <= i < |events| && 0 <= j < |events| ::
      InPlace(events[i], events[j], tenant)
  }

  lemma FrontIsDownwardClosed(q: seq<Event>, n: nat, e: Event, f: Event)
    requires n <= |q| && StrictlySorted(q, EventRank)
    requires e in q && f in q[..n] && Less(EventRank(e), EventRank(f))
    ensures e in q[..n]
  {
    var i :| 0 <= i < n && q[i] == f;
    var j :| 0 <= j < |q| && q[j] == e;
    if i <= j {
      assert i == j || Less(EventRank(q[i]), EventRank(q[j]));
    }
    assert q[..n][j] == e;
  }

  lemma PublishedTogether(events: seq<Event>, tenant: string, limit: nat, e: Event, f: Event)
    requires DistinctIds(events)
    requires e in events && f in events && PendingOf(tenant)(e) && PendingOf(tenant)(f)
    requires Less(EventRank(e), EventRank(f))
    ensures var ids := IdsOf(Take(Queue(events, tenant), limit)); f.id in ids ==> e.id in ids
  {
    var q := Queue(events, tenant);
    var n := |Take(q, limit)|;
    assert Take(q, limit) == q[..n];
    if f.id in IdsOf(q[..n]) {
      var b :| b in q[..n] && b.id == f.id;
      QueueMembers(events, tenant, b);
      QueueMembers(events, tenant, e);
      QueueIsStrict(events, tenant);
      FrontIsDownwardClosed(q, n, e, f);
    }
  }

  lemma DispatchKeepsPrefix(events: seq<Event>, tenant: string, limit: nat, now: Instant)
    requires DistinctIds(events) && PublishedPrefix(events, tenant)
    ensures PublishedPrefix(Dispatch(events, tenant, limit, now), tenant)
  {
    var after := Dispatch(events, tenant, limit, now);
    forall i, j | 0 <= i < |after| && 0 <= j < |after|
      ensures InPlace(after[i], after[j], tenant)
    {
      var e, f := events[i], events[j];
      assert InPlace(e, f, tenant);
      if PendingOf(tenant)(e) && PendingOf(tenant)(f) && Less(EventRank(e), EventRank(f)) {
        PublishedTogether(events, tenant, limit, e, f);
      }
    }
  }

  lemma BatchIsTheActors(events: seq<Event>, actor: string, limit: nat, i: nat)
    requires DistinctIds(events) && i < |events|
    ensures events[i].id in IdsOf(Take(Queue(events, actor), limit)) ==> events[i].tenant == actor
  {
    if events[i].id in IdsOf(Take(Queue(events, actor), limit)) {
      var b :| b in Take(Queue(events, actor), limit) && b.id == events[i].id;
      QueueMembers(events, actor, b);
    }
  }

  /** Dispatching for one tenant touches no other tenant's events, and keeps their order of publication. */
  lemma DispatchSparesOthers(events: seq<Event>, actor: string, limit: nat, now: Instant, tenant: string)
    requires DistinctIds(events) && actor != tenant
    ensures var after := Dispatch(events, actor, limit, now);
      && (forall i | 0 <= i < |events| && events[i].tenant == tenant :: after[i] == events[i])
      && (PublishedPrefix(events, tenant) ==> PublishedPrefix(after, tenant))
  {
    var after := Dispatch(events, actor, limit, now);
    forall i | 0 <= i < |events| && events[i].tenant == tenant ensures after[i] == events[i] {
      BatchIsTheActors(events, actor, limit, i);
    }
    if PublishedPrefix(events, tenant) {
      forall i, j | 0 <= i < |after| && 0 <= j < |after| ensures InPlace(after[i], after[j], tenant) {
        assert InPlace(events[i], events[j], tenant);
      }
    }
  }

  predicate AfterAllPublished(events: seq<Event>, e: Event) {
    forall j | 0 <= j < |events| && events[j].tenant == e.tenant && events[j].status == Published ::
      !Less(EventRank(e), EventRank(events[j]))
  }

  /** A new pending event keeps the prefix exactly when nothing already published sorts after it. Two
      things break that: an event lands when its request commits but is dated when it was staged
      (`Publication`), and of two events of one instant the later may draw the smaller random id. */
  lemma EnqueueKeepsPrefixIff(events: seq<Event>, e: Event)
    requires PublishedPrefix(events, e.tenant) && e.status == Pending
    ensures PublishedPrefix(events + [e], e.tenant) <==> AfterAllPublished(events, e)
  {
    var after := events + [e];
    if AfterAllPublished(events, e) {
      forall i, j | 0 <= i < |after| && 0 <= j < |after| ensures InPlace(after[i], after[j], e.tenant) {
        if i < |events| && j < |events| { assert InPlace(events[i], events[j], e.tenant); }
      }
    } else {
      var j :| 0 <= j < |events| && events[j].tenant == e.tenant && events[j].status == Published
        && Less(EventRank(e), EventRank(events[j]));
      assert !InPlace(after[|events|], after[j], e.tenant);
    }
  }

  datatype Action = Enqueue(event: Event) | Deliver(limit: nat, now: Instant)

  function Act(events: seq<Event>, tenant: string, a: Action): seq<Event> {
    match a
    case Enqueue(e) => events + [e]
    case Deliver(limit, now) => Dispatch(events, tenant, limit, now)
  }

  function ActAll(events: seq<Event>, tenant: string, actions: seq<Action>): seq<Event> {
    if actions == [] then events
    else Act(ActAll(events, tenant, actions[..|actions| - 1]), tenant, actions[|actions| - 1])
  }

  /** Every enqueued event is new, pending, and sorts after what its tenant already published. */
  predicate InOrder(events: seq<Event>, tenant: string, actions: seq<Action>) {
    actions == [] ||
    (var before, a := ActAll(events, tenant, actions[..|actions| - 1]), actions[|actions| - 1];
     && InOrder(events, tenant, actions[..|actions| - 1])
     && (a.Enqueue? ==> IsNew(before, a.event) && (a.event.tenant == tenant ==> AfterAllPublished(before, a.event))))
  }

  predicate IsNew(events: seq<Event>, e: Event) {
    e.status == Pending && forall i | 0 <= i < |events| :: events[i].id != e.id
  }

  lemma EnqueueForAnother(events: seq<Event>, tenant: string, e: Event)
    requires PublishedPrefix(events, tenant) && e.tenant != tenant
    ensures PublishedPrefix(events + [e], tenant)
  {
    var after := events + [e];
    forall i, j | 0 <= i < |after| && 0 <= j < |after| ensures InPlace(after[i], after[j], tenant) {
      if i < |events| && j < |events| { assert InPlace(events[i], events[j], tenant); }
    }
  }

  lemma {:induction false} PublishedIsAlwaysAPrefix(events: seq<Event>, tenant: string, actions: seq<Action>)
    requires DistinctIds(events) && PublishedPrefix(events, tenant) && InOrder(events, tenant, actions)
    ensures DistinctIds(ActAll(events, tenant, actions))
    ensures PublishedPrefix(ActAll(events, tenant, actions), tenant)
  {
    if actions == [] {
    } else {
      var front, a := actions[..|actions| - 1], actions[|actions| - 1];
      PublishedIsAlwaysAPrefix(events, tenant, front);
      var before := ActAll(events, tenant, front);
      match a
      case Enqueue(e) =>
        if e.tenant == tenant { EnqueueKeepsPrefixIff(before, e); } else { EnqueueForAnother(before, tenant, e); }
      case Deliver(limit, now) =>
        DispatchKeepsPrefix(before, tenant, limit, now);
    }
  }

  // ----- Draining the queue -----

  /** The batches that repeated dispatch returns until one comes back empty. */
  function Drain(events: seq<Event>, tenant: string, limit: nat, now: Instant): seq<seq<Event>>
    requires limit > 0 && DistinctIds(events)
    decreases |Queue(events, tenant)|
  {
    if Queue(events, tenant) == [] then []
    else
      DispatchTakesTheFront(events, tenant, limit, now);
      [PublishEach(Take(Queue(events, tenant), limit), now)] + Drain(Dispatch(events, tenant, limit, now), tenant, limit, now)
  }

  function Flatten<T>(batches: seq<seq<T>>): seq<T> {
    if batches == [] then [] else batches[0] + Flatten(batches[1..])
  }

  function CeilDiv(n: nat, k: nat): nat
    requires k > 0
  {
    (n + k - 1) / k
  }

  lemma QuotientBetween(x: nat, k: nat, d: nat)
    requires k > 0 && k * d <= x < k * d + k
    ensures x / k == d
  {
    var q := x / k;
    assert x == k * q + x % k;
    assert (d - q) * k == k * d - k * q && (q - d) * k == k * q - k * d;
    NoWholeMultipleBelow(d - q, k);
    NoWholeMultipleBelow(q - d, k);
  }

  lemma {:induction false} ProductIsNonNegative(a: nat, k: nat)
    ensures a * k >= 0
  {
    if a == 0 {
    } else {
      ProductIsNonNegative(a - 1, k);
      assert a * k == (a - 1) * k + k;
    }
  }

  lemma NoWholeMultipleBelow(a: int, k: nat)
    ensures a <= 0 || a * k >= k
  {
    if a > 0 {
      ProductIsNonNegative(a - 1, k);
      assert a * k == (a - 1) * k + k;
    }
  }

  lemma CeilDivStep(n: nat, k: nat)
    requires k > 0 && n > 0
    ensures CeilDiv(n, k) == 1 + (if n <= k then 0 else CeilDiv(n - k, k))
  {
    if n <= k {
      QuotientBetween(n + k - 1, k, 1);
    } else {
      var d := CeilDiv(n - k, k);
      assert k * d <= n - 1 < k * d + k;
      assert k * (d + 1) == k * d + k;
      QuotientBetween(n + k - 1, k, d + 1);
    }
  }

  lemma PublishEachSplits(q: seq<Event>, n: nat, now: Instant)
    requires n <= |q|
    ensures PublishEach(q, now) == PublishEach(q[..n], now) + PublishEach(q[n..], now)
  {
  }

  lemma FlattenCons<T>(batch: seq<T>, rest: seq<seq<T>>)
    ensures Flatten([batch] + rest) == batch + Flatten(rest)
  {
    assert ([batch] + rest)[1..] == rest;
  }

  lemma DrainUnfolds(events: seq<Event>, tenant: string, limit: nat, now: Instant)
    requires limit > 0 && DistinctIds(events) && Queue(events, tenant) != []
    ensures DistinctIds(Dispatch(events, tenant, limit, now))
    ensures var batch := PublishEach(Take(Queue(events, tenant), limit), now);
      Drain(events, tenant, limit, now) == [batch] + Drain(Dispatch(events, tenant, limit, now), tenant, limit, now)
  {
  }

  /** With nothing new, repeated dispatch returns every pending event once, in order. */
  lemma {:induction false} DrainDeliversTheQueueOnce(events: seq<Event>, tenant: string, limit: nat, now: Instant)
    requires limit > 0 && DistinctIds(events)
    ensures Flatten(Drain(events, tenant, limit, now)) == PublishEach(Queue(events, tenant), now)
    decreases |Queue(events, tenant)|
  {
    var q := Queue(events, tenant);
    if q == [] {
    } else {
      var n, after := |Take(q, limit)|, Dispatch(events, tenant, limit, now);
      DrainUnfolds(events, tenant, limit, now);
      DispatchTakesTheFront(events, tenant, limit, now);
      DrainDeliversTheQueueOnce(after, tenant, limit, now);
      FlattenCons(PublishEach(Take(q, limit), now), Drain(after, tenant, limit, now));
      assert Take(q, limit) == q[..n];
      PublishEachSplits(q, n, now);
    }
  }

  lemma QueueShrinksByTheLimit(events: seq<Event>, tenant: string, limit: nat, now: Instant)
    requires DistinctIds(events)
    ensures var n := |Queue(events, tenant)|;
      |Queue(Dispatch(events, tenant, limit, now), tenant)| == if n <= limit then 0 else n - limit
  {
    DispatchTakesTheFront(events, tenant, limit, now);
  }

  /** It does so in `ceil(n / limit)` batches, and leaves nothing pending. */
  lemma {:induction false} DrainTakesCeilBatches(events: seq<Event>, tenant: string, limit: nat, now: Instant)
    requires limit > 0 && DistinctIds(events)
    ensures |Drain(events, tenant, limit, now)| == CeilDiv(|Queue(events, tenant)|, limit)
    decreases |Queue(events, tenant)|
  {
    var n := |Queue(events, tenant)|;
    if n == 0 {
      QuotientBetween(limit - 1, limit, 0);
    } else {
      var after := Dispatch(events, tenant, limit, now);
      DrainUnfolds(events, tenant, limit, now);
      QueueShrinksByTheLimit(events, tenant, limit, now);
      DrainTakesCeilBatches(after, tenant, limit, now);
      CeilDivStep(n, limit);
      QuotientBetween(limit - 1, limit, 0);
    }
  }
}
