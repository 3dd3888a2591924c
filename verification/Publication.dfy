/** Publication order when requests overlap. An event's `created_at` is taken when its row is staged
    (backend/data/tables/outbox.py:43) and the row lands when its request commits, so an older event
    can land behind younger ones that are already published. When it does, exactly. */
module Publication {
  import opened Wrappers
  import opened Tables
  import opened Services
  import opened ServiceLaws
  import opened Interleaving
  import ExactlyOnce
  import Ordering
  import Outbox
  import PostingEngine
  import ServedAlone

  /** Events are numbered as they land. */
  predicate Numbered(l: Ledger) {
    |l.txns| == |l.events| && forall i | 0 <= i < |l.events| :: l.events[i].id == i
  }

  /** Whether `e` comes before `f` in the order of dispatch. */
  predicate Older(e: Event, f: Event) {
    Ordering.Less(Outbox.EventRank(e), Outbox.EventRank(f))
  }

  // ----- One commit -----

  /** Nothing of the tenant that is published was created after `at`. */
  predicate PublishedBy(events: seq<Event>, tenant: string, at: Instant) {
    forall j | 0 <= j < |events| && events[j].tenant == tenant && events[j].status == Published :: events[j].createdAt <= at
  }

  /** `after` is `before` and then new events of `tenant`, all of one instant. */
  predicate Lands(before: seq<Event>, after: seq<Event>, tenant: string, at: Instant) {
    && before <= after
    && (forall i | 0 <= i < |after| :: after[i].id == i)
    && (forall i | |before| <= i < |after| ::
          after[i].tenant == tenant && after[i].status == Pending && after[i].createdAt == at)
  }

  lemma {:induction false} PostedEventsLand(l: Ledger, tenant: string, at: Instant, entries: seq<Entry>)
    requires Numbered(l)
    ensures var l' := PostingEngine.PostAll(l, tenant, at, entries);
      && Numbered(l') && Lands(l.events, l'.events, tenant, at) && |l'.events| == |l.events| + |entries|
  {
    if entries == [] {
    } else {
      PostedEventsLand(l, tenant, at, entries[..|entries| - 1]);
    }
  }

  lemma CommitLands(l: Ledger, w: Writes)
    requires Numbered(l)
    ensures var l' := Commit(l, w);
      && Numbered(l') && Lands(l.events, l'.events, w.tenant, w.at) && |l'.events| == |l.events| + |w.entries|
  {
    MovedFrame(l, w);
    PostedEventsLand(l, w.tenant, w.at, w.entries);
  }

  lemma LandingKeepsPrefixIf(before: seq<Event>, after: seq<Event>, actor: string, at: Instant, tenant: string)
    requires Lands(before, after, actor, at) && Outbox.PublishedPrefix(before, tenant)
    requires actor == tenant ==> PublishedBy(before, tenant, at)
    ensures Outbox.PublishedPrefix(after, tenant)
  {
    forall i, j | 0 <= i < |after| && 0 <= j < |after| ensures Outbox.InPlace(after[i], after[j], tenant) {
      if j < |before| {
        assert after[j] == before[j];
        if i < |before| { assert after[i] == before[i] && Outbox.InPlace(before[i], before[j], tenant); }
      }
    }
  }

  lemma LandingKeepsPrefixOnlyIf(before: seq<Event>, after: seq<Event>, tenant: string, at: Instant)
    requires Lands(before, after, tenant, at) && |before| < |after| && Outbox.PublishedPrefix(after, tenant)
    ensures PublishedBy(before, tenant, at)
  {
    forall j | 0 <= j < |before| && before[j].tenant == tenant && before[j].status == Published
      ensures before[j].createdAt <= at
    {
      assert after[j] == before[j];
      assert Outbox.InPlace(after[|before|], after[j], tenant);
    }
  }

  /** A commit that posts keeps its tenant's published events a prefix exactly when none of them was
      created after its own. A request that staged first and commits last fails that. */
  lemma CommitKeepsPublishedPrefixIff(db: Ledger, w: Writes)
    requires Numbered(db) && Outbox.PublishedPrefix(db.events, w.tenant) && w.entries != []
    ensures Outbox.PublishedPrefix(Commit(db, w).events, w.tenant) <==> PublishedBy(db.events, w.tenant, w.at)
  {
    CommitLands(db, w);
    if PublishedBy(db.events, w.tenant, w.at) {
      LandingKeepsPrefixIf(db.events, Commit(db, w).events, w.tenant, w.at, w.tenant);
    }
    if Outbox.PublishedPrefix(Commit(db, w).events, w.tenant) {
      LandingKeepsPrefixOnlyIf(db.events, Commit(db, w).events, w.tenant, w.at);
    }
  }

  // ----- One mark -----

  /** Marking `ids` leaves nothing waiting that is older than something it marks. */
  predicate LeavesNothingOlder(events: seq<Event>, ids: set<nat>, tenant: string) {
    forall i, j | 0 <= i < |events| && 0 <= j < |events| :: Together(events[i], events[j], ids, tenant)
  }

  predicate Together(e: Event, f: Event, ids: set<nat>, tenant: string) {
    e.tenant == tenant && f.tenant == tenant && f.id in ids && Older(e, f) ==> e.status == Published || e.id in ids
  }

  /** A dispatcher's mark keeps the prefix exactly when it leaves nothing older waiting. */
  lemma MarkKeepsPublishedPrefixIff(events: seq<Event>, ids: set<nat>, now: Instant, tenant: string)
    requires Outbox.PublishedPrefix(events, tenant)
    ensures Outbox.PublishedPrefix(Outbox.MarkPublished(events, ids, now), tenant) <==> LeavesNothingOlder(events, ids, tenant)
  {
    var after := Outbox.MarkPublished(events, ids, now);
    if LeavesNothingOlder(events, ids, tenant) {
      forall i, j | 0 <= i < |after| && 0 <= j < |after| ensures Outbox.InPlace(after[i], after[j], tenant) {
        assert Outbox.InPlace(events[i], events[j], tenant) && Together(events[i], events[j], ids, tenant);
      }
    }
    if Outbox.PublishedPrefix(after, tenant) {
      forall i, j | 0 <= i < |events| && 0 <= j < |events| ensures Together(events[i], events[j], ids, tenant) {
        assert Outbox.InPlace(after[i], after[j], tenant);
      }
    }
  }

  lemma NumberedIsDistinct(l: Ledger)
    requires Numbered(l)
    ensures Outbox.DistinctIds(l.events)
  {
  }

  lemma WhatIsReadIsKnown(l: Ledger, actor: string, limit: nat, e: Event)
    requires Numbered(l) && e in Ordering.Take(Outbox.Queue(l.events, actor), limit)
    ensures e in l.events && e.id < |l.events| && l.events[e.id] == e && e.tenant == actor && e.status == Pending
  {
    Outbox.QueueMembers(l.events, actor, e);
  }

  /** A batch just read leaves nothing older behind. */
  lemma ReadingLeavesNothingOlder(l: Ledger, actor: string, limit: nat, tenant: string)
    requires Numbered(l) && Outbox.PublishedPrefix(l.events, tenant)
    ensures LeavesNothingOlder(l.events, Outbox.IdsOf(Ordering.Take(Outbox.Queue(l.events, actor), limit)), tenant)
  {
    var ids := Outbox.IdsOf(Ordering.Take(Outbox.Queue(l.events, actor), limit));
    NumberedIsDistinct(l);
    forall i, j | 0 <= i < |l.events| && 0 <= j < |l.events| ensures Together(l.events[i], l.events[j], ids, tenant) {
      var e, f := l.events[i], l.events[j];
      if e.tenant == tenant && f.tenant == tenant && f.id in ids && Older(e, f) && e.status != Published {
        var b :| b in Ordering.Take(Outbox.Queue(l.events, actor), limit) && b.id == f.id;
        WhatIsReadIsKnown(l, actor, limit, b);
        Outbox.PublishedTogether(l.events, tenant, limit, e, f);
      }
    }
  }

  // ----- Every run -----

  /** The event is published, or in the hands of some dispatcher. */
  predicate HandedOver(s: System, e: Event) {
    e.status == Published || exists d :: d in s.batches && e.id in Outbox.IdsOf(s.batches[d].events)
  }

  predicate BatchInOrder(db: Ledger, b: Batch, tenant: string) {
    && (forall id <- Outbox.IdsOf(b.events) :: id < |db.events|)
    && LeavesNothingOlder(db.events, Outbox.IdsOf(b.events), tenant)
  }

  predicate InOrder(s: System, tenant: string) {
    && Numbered(s.db) && Outbox.PublishedPrefix(s.db.events, tenant)
    && forall d <- s.batches :: BatchInOrder(s.db, s.batches[d], tenant)
  }

  /** Nothing of the tenant that was handed over was created after `at`. */
  predicate HandedOverBy(s: System, tenant: string, at: Instant) {
    forall j | 0 <= j < |s.db.events| && s.db.events[j].tenant == tenant && HandedOver(s, s.db.events[j]) ::
      s.db.events[j].createdAt <= at
  }

  /** The tenant's posting requests commit before anything younger is handed over. */
  predicate LandsInOrder(s: System, step: Step, tenant: string) {
    GoesThrough(s, step) && s.requests[step.id].phase.writes.tenant == tenant && s.requests[step.id].phase.writes.entries != [] ==>
      HandedOverBy(s, tenant, s.requests[step.id].phase.writes.at)
  }

  lemma PrefixAfterLanding(db: Ledger, w: Writes, tenant: string)
    requires Numbered(db) && Outbox.PublishedPrefix(db.events, tenant)
    requires w.tenant == tenant && w.entries != [] ==> PublishedBy(db.events, tenant, w.at)
    ensures Outbox.PublishedPrefix(Commit(db, w).events, tenant)
  {
    CommitLands(db, w);
    if w.entries == [] {
      assert Commit(db, w).events == db.events;
    } else {
      LandingKeepsPrefixIf(db.events, Commit(db, w).events, w.tenant, w.at, tenant);
    }
  }

  lemma BatchStaysInOrder(db: Ledger, after: Ledger, w: Writes, b: Batch, tenant: string)
    requires BatchInOrder(db, b, tenant) && Lands(db.events, after.events, w.tenant, w.at)
    requires w.tenant == tenant && |db.events| < |after.events| ==> CreatedBy(db.events, Outbox.IdsOf(b.events), tenant, w.at)
    ensures BatchInOrder(after, b, tenant)
  {
    var before, ids := db.events, Outbox.IdsOf(b.events);
    forall i, j | 0 <= i < |after.events| && 0 <= j < |after.events|
      ensures Together(after.events[i], after.events[j], ids, tenant)
    {
      if j < |before| {
        assert after.events[j] == before[j];
        if i < |before| { assert after.events[i] == before[i] && Together(before[i], before[j], ids, tenant); }
      }
    }
  }

  /** Of the tenant's events, those among `ids` were created by then. */
  predicate CreatedBy(events: seq<Event>, ids: set<nat>, tenant: string, at: Instant) {
    forall j | 0 <= j < |events| && events[j].tenant == tenant && events[j].id in ids :: events[j].createdAt <= at
  }

  lemma HandedOverCoversAll(s: System, tenant: string, at: Instant)
    requires HandedOverBy(s, tenant, at)
    ensures PublishedBy(s.db.events, tenant, at)
    ensures forall d <- s.batches :: CreatedBy(s.db.events, Outbox.IdsOf(s.batches[d].events), tenant, at)
  {
    forall j | 0 <= j < |s.db.events| && s.db.events[j].tenant == tenant && s.db.events[j].status == Published
      ensures s.db.events[j].createdAt <= at
    {
      assert HandedOver(s, s.db.events[j]);
    }
    forall d | d in s.batches ensures CreatedBy(s.db.events, Outbox.IdsOf(s.batches[d].events), tenant, at) {
      forall j | 0 <= j < |s.db.events| && s.db.events[j].tenant == tenant && s.db.events[j].id in Outbox.IdsOf(s.batches[d].events)
        ensures s.db.events[j].createdAt <= at
      {
        assert HandedOver(s, s.db.events[j]);
      }
    }
  }

  lemma CommittedStaysInOrder(s: System, w: Writes, tenant: string)
    requires InOrder(s, tenant) && (w.tenant == tenant && w.entries != [] ==> HandedOverBy(s, tenant, w.at))
    ensures InOrder(s.(db := Commit(s.db, w)), tenant)
  {
    CommitLands(s.db, w);
    if w.tenant == tenant && w.entries != [] { HandedOverCoversAll(s, tenant, w.at); }
    PrefixAfterLanding(s.db, w, tenant);
    forall d | d in s.batches ensures BatchInOrder(Commit(s.db, w), s.batches[d], tenant) {
      BatchStaysInOrder(s.db, Commit(s.db, w), w, s.batches[d], tenant);
    }
  }

  lemma CommitKeepsInOrder(lockKey: AccountId -> int, s: System, id: nat, tenant: string)
    requires InOrder(s, tenant) && LandsInOrder(s, CommitRequest(id), tenant)
    ensures InOrder(Do(lockKey, s, CommitRequest(id)), tenant)
  {
    if GoesThrough(s, CommitRequest(id)) {
      CommittedStaysInOrder(s, s.requests[id].phase.writes, tenant);
    }
  }

  /** Marking only publishes, so no other batch falls behind. */
  lemma MarkingKeepsBatch(db: Ledger, ids: set<nat>, now: Instant, b: Batch, tenant: string)
    requires BatchInOrder(db, b, tenant)
    ensures BatchInOrder(db.(events := Outbox.MarkPublished(db.events, ids, now)), b, tenant)
  {
    var after := Outbox.MarkPublished(db.events, ids, now);
    forall i, j | 0 <= i < |after| && 0 <= j < |after| ensures Together(after[i], after[j], Outbox.IdsOf(b.events), tenant) {
      assert Together(db.events[i], db.events[j], Outbox.IdsOf(b.events), tenant);
    }
  }

  lemma MarkKeepsInOrder(lockKey: AccountId -> int, s: System, dispatcher: nat, tenant: string)
    requires InOrder(s, tenant)
    ensures InOrder(Do(lockKey, s, DispatchMark(dispatcher)), tenant)
  {
    if dispatcher in s.batches {
      var b := s.batches[dispatcher];
      MarkKeepsPublishedPrefixIff(s.db.events, Outbox.IdsOf(b.events), b.at, tenant);
      forall d | d in s.batches - {dispatcher}
        ensures BatchInOrder(Do(lockKey, s, DispatchMark(dispatcher)).db, s.batches[d], tenant)
      {
        MarkingKeepsBatch(s.db, Outbox.IdsOf(b.events), b.at, s.batches[d], tenant);
      }
    }
  }

  lemma ReadKeepsInOrder(lockKey: AccountId -> int, s: System, dispatcher: nat, actor: string, limit: nat, tenant: string)
    requires InOrder(s, tenant)
    ensures InOrder(Do(lockKey, s, DispatchRead(dispatcher, actor, limit)), tenant)
  {
    var batch := Ordering.Take(Outbox.Queue(s.db.events, actor), limit);
    ReadingLeavesNothingOlder(s.db, actor, limit, tenant);
    forall id | id in Outbox.IdsOf(batch) ensures id < |s.db.events| {
      var e :| e in batch && e.id == id;
      WhatIsReadIsKnown(s.db, actor, limit, e);
    }
  }

  predicate HandsNothingOver(s: System, s': System) {
    && s'.db.txns == s.db.txns && s'.db.events == s.db.events
    && forall d <- s'.batches :: d in s.batches && s'.batches[d] == s.batches[d]
  }

  lemma OtherStepsHandNothingOver(lockKey: AccountId -> int, s: System, step: Step)
    requires !step.CommitRequest? && !step.DispatchRead? && !step.DispatchMark?
    ensures HandsNothingOver(s, Do(lockKey, s, step))
  {
  }

  lemma SameEventsStayInOrder(s: System, s': System, tenant: string)
    requires InOrder(s, tenant) && HandsNothingOver(s, s')
    ensures InOrder(s', tenant)
  {
    forall d | d in s'.batches ensures BatchInOrder(s'.db, s'.batches[d], tenant) {
      assert BatchInOrder(s.db, s.batches[d], tenant);
    }
  }

  lemma StepKeepsInOrder(lockKey: AccountId -> int, s: System, step: Step, tenant: string)
    requires InOrder(s, tenant) && LandsInOrder(s, step, tenant)
    ensures InOrder(Do(lockKey, s, step), tenant)
  {
    match step
    case CommitRequest(id) => CommitKeepsInOrder(lockKey, s, id, tenant);
    case DispatchRead(dispatcher, actor, limit) => ReadKeepsInOrder(lockKey, s, dispatcher, actor, limit, tenant);
    case DispatchMark(dispatcher) => MarkKeepsInOrder(lockKey, s, dispatcher, tenant);
    case _ =>
      OtherStepsHandNothingOver(lockKey, s, step);
      SameEventsStayInOrder(s, Do(lockKey, s, step), tenant);
  }

  predicate OrderlyRun(lockKey: AccountId -> int, s: System, steps: seq<Step>, tenant: string) {
    steps == [] ||
    (OrderlyRun(lockKey, s, steps[..|steps| - 1], tenant)
     && LandsInOrder(DoAll(lockKey, s, steps[..|steps| - 1]), steps[|steps| - 1], tenant))
  }

  /** Over every interleaving of requests and dispatchers, overlapping and crashing: as long as each
      posting request of the tenant commits before anything younger of it is handed over, what is
      published of it is always its oldest events. */
  lemma {:induction false} OrderlyRunsPublishAPrefix(lockKey: AccountId -> int, s: System, steps: seq<Step>, tenant: string)
    requires InOrder(s, tenant) && OrderlyRun(lockKey, s, steps, tenant)
    ensures InOrder(DoAll(lockKey, s, steps), tenant)
    ensures Outbox.PublishedPrefix(DoAll(lockKey, s, steps).db.events, tenant)
  {
    if steps == [] {
    } else {
      var front := steps[..|steps| - 1];
      OrderlyRunsPublishAPrefix(lockKey, s, front, tenant);
      StepKeepsInOrder(lockKey, DoAll(lockKey, s, front), steps[|steps| - 1], tenant);
    }
  }

  // ----- A run that fails -----

  /** One reversal is staged; time passes; another is served in full; and everything is dispatched. */
  function Overtaken(tenant: string, req: ReverseRequest, k1: string, elapsed: nat, again: ReverseRequest, k2: string): seq<Step> {
    ExactlyOnce.SlowRequest(tenant, req, k1, elapsed) + [Begin(2, tenant, ReverseOp(again), k2, 0), Stage(2), CommitRequest(2)]
  }

  /** Then the first commits. */
  function LateLanding(tenant: string, req: ReverseRequest, k1: string, elapsed: nat, again: ReverseRequest, k2: string,
      limit: nat): seq<Step>
  {
    Overtaken(tenant, req, k1, elapsed, again, k2) + [DispatchRead(0, tenant, limit), DispatchMark(0), CommitRequest(1)]
  }

  lemma OvertakenFlies(lockKey: AccountId -> int, s: System, tenant: string, req: ReverseRequest, k1: string, elapsed: nat,
      again: ReverseRequest, k2: string)
    requires ServedAlone.Quiet(s)
    requires Key(tenant, REVERSALS, k1) !in s.db.records && Key(tenant, REVERSALS, k2) !in s.db.records
    requires ReverseRefusal(s.db, tenant, req.txn).None? && ReverseRefusal(s.db, tenant, again.txn).None?
    ensures var late := ExactlyOnce.Later(s, elapsed);
      var r := Request(tenant, ReverseOp(req), Key(tenant, REVERSALS, k1), 0, s.db.clock,
                       Staged(ExactlyOnce.ReversalStaged(s.db, tenant, req, k1)));
      DoAll(lockKey, s, Overtaken(tenant, req, k1, elapsed, again, k2))
        == ServedAlone.InFlight(ServedAlone.Landed(late, ExactlyOnce.ReversalStaged(late.db, tenant, again, k2)), 1, r)
  {
    var late, first := ExactlyOnce.Later(s, elapsed), ExactlyOnce.SlowRequest(tenant, req, k1, elapsed);
    var r := Request(tenant, ReverseOp(req), Key(tenant, REVERSALS, k1), 0, s.db.clock,
                     Staged(ExactlyOnce.ReversalStaged(s.db, tenant, req, k1)));
    ExactlyOnce.SlowRequestStages(lockKey, s, tenant, req, k1, elapsed);
    ServedAlone.DoThree(lockKey, s, first, Begin(2, tenant, ReverseOp(again), k2, 0), Stage(2), CommitRequest(2));
    ExactlyOnce.RefusalReadsTwoTables(s.db, late.db, tenant, again.txn);
    ServedAlone.ReversalBeside(lockKey, ServedAlone.InFlight(late, 1, r), 1, r, 2, tenant, again, k2);
  }

  /** With room for everything, dispatch publishes all that the tenant has pending. */
  lemma AllIsPublished(events: seq<Event>, tenant: string, limit: nat, now: Instant, i: nat)
    requires |events| <= limit && i < |events| && events[i].tenant == tenant
    ensures Outbox.Dispatch(events, tenant, limit, now)[i].status == Published
    ensures Outbox.Dispatch(events, tenant, limit, now)[i].createdAt == events[i].createdAt
  {
    if events[i].status == Pending {
      Outbox.QueueMembers(events, tenant, events[i]);
      assert events[i] in Ordering.Take(Outbox.Queue(events, tenant), limit);
    }
  }

  /** What lands older than something published breaks the prefix. */
  lemma LandingBehindBreaksThePrefix(db: Ledger, w: Writes, j: nat)
    requires Numbered(db) && w.entries != [] && j < |db.events|
    requires db.events[j].tenant == w.tenant && db.events[j].status == Published && db.events[j].createdAt > w.at
    ensures !Outbox.PublishedPrefix(Commit(db, w).events, w.tenant)
  {
    CommitLands(db, w);
    if Outbox.PublishedPrefix(Commit(db, w).events, w.tenant) {
      LandingKeepsPrefixOnlyIf(db.events, Commit(db, w).events, w.tenant, w.at);
      assert false;
    }
  }

  lemma LateAfterDispatch(db: Ledger, quick: Writes, slow: Writes, limit: nat, now: Instant)
    requires Numbered(db) && |quick.entries| == 1 && |slow.entries| == 1 && quick.tenant == slow.tenant && slow.at < quick.at
    requires |db.events| < limit
    ensures var landed := Commit(db, quick);
      var dispatched := landed.(events := Outbox.Dispatch(landed.events, slow.tenant, limit, now));
      !Outbox.PublishedPrefix(Commit(dispatched, slow).events, slow.tenant)
  {
    var landed := Commit(db, quick);
    var dispatched := landed.(events := Outbox.Dispatch(landed.events, slow.tenant, limit, now));
    CommitLands(db, quick);
    AllIsPublished(landed.events, slow.tenant, limit, now, |db.events|);
    LandingBehindBreaksThePrefix(dispatched, slow, |db.events|);
  }

  /** Two reversals, at different instants; the one staged first commits after the other was
      published: its event lands behind. */
  lemma LateEventBreaksTheOrder(lockKey: AccountId -> int, s: System, tenant: string, req: ReverseRequest, k1: string, elapsed: nat,
      again: ReverseRequest, k2: string, limit: nat)
    requires ServedAlone.Quiet(s) && s.batches == map[] && Numbered(s.db) && elapsed > 0 && |s.db.events| < limit
    requires k1 != k2 && Key(tenant, REVERSALS, k1) !in s.db.records && Key(tenant, REVERSALS, k2) !in s.db.records
    requires ReverseRefusal(s.db, tenant, req.txn).None? && ReverseRefusal(s.db, tenant, again.txn).None?
    ensures !Outbox.PublishedPrefix(DoAll(lockKey, s, LateLanding(tenant, req, k1, elapsed, again, k2, limit)).db.events, tenant)
  {
    var late := ExactlyOnce.Later(s, elapsed);
    var slow, quick := ExactlyOnce.ReversalStaged(s.db, tenant, req, k1), ExactlyOnce.ReversalStaged(late.db, tenant, again, k2);
    var r := Request(tenant, ReverseOp(req), Key(tenant, REVERSALS, k1), 0, s.db.clock, Staged(slow));
    var landed, overtaken := ServedAlone.Landed(late, quick), Overtaken(tenant, req, k1, elapsed, again, k2);
    OvertakenFlies(lockKey, s, tenant, req, k1, elapsed, again, k2);
    ServedAlone.DoThree(lockKey, s, overtaken, DispatchRead(0, tenant, limit), DispatchMark(0), CommitRequest(1));
    MovedFrame(late.db, quick);
    DispatchedBeside(lockKey, landed, r, tenant, limit);
    LateAfterDispatch(late.db, quick, slow, limit, landed.db.clock);
  }

  /** Everything is dispatched while `r` is in flight, and then `r` commits. */
  lemma DispatchedBeside(lockKey: AccountId -> int, s: System, r: Request, tenant: string, limit: nat)
    requires ServedAlone.Quiet(s) && 0 !in s.batches && r.op.ReverseOp? && r.phase.Staged?
    requires r.phase.writes.key.Some? && r.phase.writes.key.value !in s.db.records
    ensures var flying := ServedAlone.InFlight(s, 1, r);
      Do(lockKey, Do(lockKey, Do(lockKey, flying, DispatchRead(0, tenant, limit)), DispatchMark(0)), CommitRequest(1)).db
        == Commit(s.db.(events := Outbox.Dispatch(s.db.events, tenant, limit, s.db.clock)), r.phase.writes)
  {
    var flying := ServedAlone.InFlight(s, 1, r);
    var db' := s.db.(events := Outbox.Dispatch(s.db.events, tenant, limit, s.db.clock));
    ServedAlone.DispatchServedAlone(lockKey, flying, 0, tenant, limit);
    var quiet := s.(db := db', delivered := s.delivered + Ordering.Take(Outbox.Queue(s.db.events, tenant), limit));
    ServedAlone.CommitAlone(lockKey, quiet, 1, r);
  }
}
