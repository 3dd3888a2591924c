/** At-least-once delivery, end to end: dispatchers that overlap and crash hand some events over more
    than once, publish none that was not handed over, and a consumer of all they hand over ends with
    the committed figures. */
module Delivery {
  import opened Wrappers
  import opened Tables
  import opened PostingEngine
  import opened Services
  import opened ServiceLaws
  import opened Interleaving
  import opened InterleavedSafety
  import opened Publication
  import Consumer
  import ExactlyOnce
  import Ordering
  import Outbox
  import ServedAlone

  // ----- Handed over before it is marked -----

  predicate IsCommitted(db: Ledger, e: Event) {
    e.id < |db.events| && e.legs == db.events[e.id].legs
  }

  /** What is published, or about to be, was handed over; what was handed over is committed. */
  predicate DeliveredFirst(s: System) {
    && Numbered(s.db)
    && (forall k | 0 <= k < |s.delivered| :: IsCommitted(s.db, s.delivered[k]))
    && (forall i | 0 <= i < |s.db.events| && s.db.events[i].status == Published :: i in Outbox.IdsOf(s.delivered))
    && forall d <- s.batches :: Outbox.IdsOf(s.batches[d].events) <= Outbox.IdsOf(s.delivered)
  }

  lemma CommittedStaysDelivered(s: System, w: Writes)
    requires DeliveredFirst(s)
    ensures DeliveredFirst(s.(db := Commit(s.db, w)))
  {
    CommitLands(s.db, w);
    forall k | 0 <= k < |s.delivered| ensures IsCommitted(Commit(s.db, w), s.delivered[k]) {
      assert IsCommitted(s.db, s.delivered[k]);
    }
  }

  lemma CommitKeepsDelivered(lockKey: AccountId -> int, s: System, id: nat)
    requires DeliveredFirst(s)
    ensures DeliveredFirst(Do(lockKey, s, CommitRequest(id)))
  {
    if id in s.requests && s.requests[id].phase.Staged? {
      CommittedStaysDelivered(s, s.requests[id].phase.writes);
    }
  }

  lemma IdsOfBoth(x: seq<Event>, y: seq<Event>)
    ensures Outbox.IdsOf(x + y) == Outbox.IdsOf(x) + Outbox.IdsOf(y)
  {
    forall id | id in Outbox.IdsOf(x) + Outbox.IdsOf(y) ensures id in Outbox.IdsOf(x + y) {
      var e :| (e in x || e in y) && e.id == id;
      assert e in x + y;
    }
  }

  lemma ReadKeepsDelivered(lockKey: AccountId -> int, s: System, dispatcher: nat, tenant: string, limit: nat)
    requires DeliveredFirst(s)
    ensures DeliveredFirst(Do(lockKey, s, DispatchRead(dispatcher, tenant, limit)))
  {
    var batch := Ordering.Take(Outbox.Queue(s.db.events, tenant), limit);
    IdsOfBoth(s.delivered, batch);
    forall k | 0 <= k < |batch| ensures IsCommitted(s.db, batch[k]) {
      WhatIsReadIsKnown(s.db, tenant, limit, batch[k]);
    }
  }

  lemma MarkKeepsDelivered(lockKey: AccountId -> int, s: System, dispatcher: nat)
    requires DeliveredFirst(s)
    ensures DeliveredFirst(Do(lockKey, s, DispatchMark(dispatcher)))
  {
    if dispatcher in s.batches {
      var ids, after := Outbox.IdsOf(s.batches[dispatcher].events), Marked(s.db.events, s.batches[dispatcher]);
      forall k | 0 <= k < |s.delivered| ensures IsCommitted(s.db.(events := after), s.delivered[k]) {
        assert IsCommitted(s.db, s.delivered[k]);
      }
      forall i | 0 <= i < |after| && after[i].status == Published ensures i in Outbox.IdsOf(s.delivered) {
        assert s.db.events[i].id == i && (i in ids || s.db.events[i].status == Published);
      }
    }
  }

  lemma SameEventsStayDelivered(s: System, s': System)
    requires DeliveredFirst(s) && HandsNothingOver(s, s') && s'.delivered == s.delivered
    ensures DeliveredFirst(s')
  {
    forall k | 0 <= k < |s'.delivered| ensures IsCommitted(s'.db, s'.delivered[k]) {
      assert IsCommitted(s.db, s.delivered[k]);
    }
  }

  lemma OtherStepsDeliverNothing(lockKey: AccountId -> int, s: System, step: Step)
    requires !step.DispatchRead?
    ensures Do(lockKey, s, step).delivered == s.delivered
  {
  }

  lemma StepKeepsDelivered(lockKey: AccountId -> int, s: System, step: Step)
    requires DeliveredFirst(s)
    ensures DeliveredFirst(Do(lockKey, s, step))
  {
    match step
    case CommitRequest(id) => CommitKeepsDelivered(lockKey, s, id);
    case DispatchRead(dispatcher, tenant, limit) => ReadKeepsDelivered(lockKey, s, dispatcher, tenant, limit);
    case DispatchMark(dispatcher) => MarkKeepsDelivered(lockKey, s, dispatcher);
    case _ =>
      OtherStepsHandNothingOver(lockKey, s, step);
      OtherStepsDeliverNothing(lockKey, s, step);
      SameEventsStayDelivered(s, Do(lockKey, s, step));
  }

  /** Over every interleaving, an event is published only after it was handed over. */
  lemma {:induction false} PublishedWasDelivered(lockKey: AccountId -> int, s: System, steps: seq<Step>)
    requires DeliveredFirst(s)
    ensures DeliveredFirst(DoAll(lockKey, s, steps))
  {
    if steps == [] {
    } else {
      var front := steps[..|steps| - 1];
      PublishedWasDelivered(lockKey, s, front);
      StepKeepsDelivered(lockKey, DoAll(lockKey, s, front), steps[|steps| - 1]);
    }
  }

  // ----- What a consumer then knows -----

  function MessageOf(e: Event): Consumer.Message {
    Consumer.Message(e.id, e.legs)
  }

  function Messages(delivered: seq<Event>): (ms: seq<Consumer.Message>)
    ensures |ms| == |delivered|
  {
    seq(|delivered|, i requires 0 <= i < |delivered| => MessageOf(delivered[i]))
  }

  lemma MessagesCarryTheIds(delivered: seq<Event>)
    ensures Consumer.Ids(Messages(delivered)) == Outbox.IdsOf(delivered)
  {
    forall id | id in Outbox.IdsOf(delivered) ensures id in Consumer.Ids(Messages(delivered)) {
      var e :| e in delivered && e.id == id;
      var i :| 0 <= i < |delivered| && delivered[i] == e;
      assert Messages(delivered)[i].id == id;
    }
  }

  /** A consumer that starts from the opening figures and takes in everything handed over. */
  function ConsumerFigures(s: System): map<AccountId, Consumer.Figures> {
    Consumer.ConsumeAll(Consumer.Replica({}, Consumer.Opening(s.db.seeded)), Messages(s.delivered)).figures
  }

  predicate NothingPending(db: Ledger) {
    forall i | 0 <= i < |db.events| :: db.events[i].status == Published
  }

  lemma EverythingWasDelivered(s: System, a: AccountId)
    requires DeliveredFirst(s) && Consistent(s.db) && NothingPending(s.db) && a < |s.db.accounts|
    ensures a in s.db.snapshots && a in ConsumerFigures(s)
    ensures ConsumerFigures(s)[a] == Consumer.Figures(s.db.snapshots[a].balance, s.db.snapshots[a].version)
  {
    MessagesCarryTheIds(s.delivered);
    forall i | 0 <= i < |s.delivered| ensures Messages(s.delivered)[i].legs == s.db.events[Messages(s.delivered)[i].id].legs {
      assert IsCommitted(s.db, s.delivered[i]);
    }
    forall t: nat | t < |s.db.events| ensures t in Consumer.Ids(Messages(s.delivered)) {
      assert s.db.events[t].status == Published;
    }
    Consumer.AtLeastOnceDeliveryRebuildsSnapshots(s.db, Messages(s.delivered), a);
  }

  /** Whatever requests raced, however dispatchers overlapped and crashed: once nothing is pending, a
      consumer that drops repeated ids has every account's committed balance and version. */
  lemma DrainedOutboxRebuildsSnapshots(lockKey: AccountId -> int, s: System, steps: seq<Step>, a: AccountId)
    requires Inv(lockKey, s) && DeliveredFirst(s)
    ensures var end := DoAll(lockKey, s, steps);
      NothingPending(end.db) && a < |end.db.accounts| ==>
        && a in end.db.snapshots && a in ConsumerFigures(end)
        && ConsumerFigures(end)[a] == Consumer.Figures(end.db.snapshots[a].balance, end.db.snapshots[a].version)
  {
    EveryInterleavingKeepsTheLedgerValid(lockKey, s, steps);
    PublishedWasDelivered(lockKey, s, steps);
    if NothingPending(DoAll(lockKey, s, steps).db) && a < |DoAll(lockKey, s, steps).db.accounts| {
      EverythingWasDelivered(DoAll(lockKey, s, steps), a);
    }
  }

  // ----- Twice -----

  function FrontOf(db: Ledger, tenant: string, limit: nat): seq<Event> {
    Ordering.Take(Outbox.Queue(db.events, tenant), limit)
  }

  /** Two dispatchers read one after the other, before either marks. */
  function BothRead(tenant: string, limit: nat, elapsed: nat): seq<Step> {
    [DispatchRead(0, tenant, limit), TickStep(elapsed), DispatchRead(1, tenant, limit)]
  }

  function BothMark(tenant: string, limit: nat, elapsed: nat): seq<Step> {
    BothRead(tenant, limit, elapsed) + [DispatchMark(0)] + [DispatchMark(1)]
  }

  /** After `s`, `dispatcher` has read and handed over `batch`. */
  function HandsOver(s: System, dispatcher: nat, batch: seq<Event>): System {
    s.(batches := s.batches[dispatcher := Batch(batch, s.db.clock)], delivered := s.delivered + batch)
  }

  lemma ReadHandsOver(lockKey: AccountId -> int, s: System, dispatcher: nat, tenant: string, limit: nat)
    requires dispatcher !in s.batches
    ensures Do(lockKey, s, DispatchRead(dispatcher, tenant, limit)) == HandsOver(s, dispatcher, FrontOf(s.db, tenant, limit))
  {
  }

  lemma CrashForgets(lockKey: AccountId -> int, s: System, dispatcher: nat, batch: seq<Event>)
    requires s.batches == map[]
    ensures Do(lockKey, HandsOver(s, dispatcher, batch), DispatcherCrash(dispatcher)) == s.(delivered := s.delivered + batch)
  {
    assert s.batches[dispatcher := Batch(batch, s.db.clock)] - {dispatcher} == s.batches;
  }

  lemma TimePasses(lockKey: AccountId -> int, s: System, elapsed: nat)
    ensures Do(lockKey, s, TickStep(elapsed)) == ExactlyOnce.Later(s, elapsed)
  {
  }

  lemma BothReadTheFront(lockKey: AccountId -> int, s: System, tenant: string, limit: nat, elapsed: nat)
    requires s.batches == map[]
    ensures var batch := FrontOf(s.db, tenant, limit);
      DoAll(lockKey, s, BothRead(tenant, limit, elapsed)) == HandsOver(ExactlyOnce.Later(HandsOver(s, 0, batch), elapsed), 1, batch)
  {
    var steps, once := BothRead(tenant, limit, elapsed), HandsOver(s, 0, FrontOf(s.db, tenant, limit));
    ServedAlone.DoThree(lockKey, s, [], steps[0], steps[1], steps[2]);
    assert [] + [steps[0], steps[1], steps[2]] == steps;
    ReadHandsOver(lockKey, s, 0, tenant, limit);
    TimePasses(lockKey, once, elapsed);
    ReadHandsOver(lockKey, ExactlyOnce.Later(once, elapsed), 1, tenant, limit);
  }

  lemma MarkedTwice(events: seq<Event>, batch: seq<Event>, first: Instant, second: Instant)
    ensures Marked(Marked(events, Batch(batch, first)), Batch(batch, second)) == Marked(events, Batch(batch, second))
  {
  }

  /** The consumer got `batch` twice; the table is as if it had been marked once, at `at`. */
  predicate DeliveredTwice(s: System, end: System, batch: seq<Event>, at: Instant) {
    end.delivered == s.delivered + batch + batch && end.db.events == Marked(s.db.events, Batch(batch, at))
  }

  lemma BothBatchesAreMarked(lockKey: AccountId -> int, s: System, batch: seq<Event>, elapsed: nat)
    requires s.batches == map[]
    ensures var read := HandsOver(ExactlyOnce.Later(HandsOver(s, 0, batch), elapsed), 1, batch);
      DeliveredTwice(s, Do(lockKey, Do(lockKey, read, DispatchMark(0)), DispatchMark(1)), batch, s.db.clock + elapsed)
  {
    MarkedTwice(s.db.events, batch, s.db.clock, s.db.clock + elapsed);
  }

  lemma BothMarkUnfolds(lockKey: AccountId -> int, s: System, tenant: string, limit: nat, elapsed: nat)
    ensures DoAll(lockKey, s, BothMark(tenant, limit, elapsed))
      == Do(lockKey, Do(lockKey, DoAll(lockKey, s, BothRead(tenant, limit, elapsed)), DispatchMark(0)), DispatchMark(1))
  {
    var front := BothRead(tenant, limit, elapsed);
    DoOneMore(lockKey, s, front, DispatchMark(0));
    DoOneMore(lockKey, s, front + [DispatchMark(0)], DispatchMark(1));
  }

  /** Both get and hand over the same events; the tables end as if only the second had, with its stamp. */
  lemma TwoDispatchersDeliverTwice(lockKey: AccountId -> int, s: System, tenant: string, limit: nat, elapsed: nat)
    requires s.batches == map[]
    ensures DeliveredTwice(s, DoAll(lockKey, s, BothMark(tenant, limit, elapsed)), FrontOf(s.db, tenant, limit), s.db.clock + elapsed)
  {
    BothMarkUnfolds(lockKey, s, tenant, limit, elapsed);
    BothReadTheFront(lockKey, s, tenant, limit, elapsed);
    BothBatchesAreMarked(lockKey, s, FrontOf(s.db, tenant, limit), elapsed);
  }

  /** A dispatcher that dies between handing over and marking leaves the same events to be handed over
      again. */
  lemma CrashedDispatcherRedelivers(lockKey: AccountId -> int, s: System, tenant: string, limit: nat)
    requires s.batches == map[]
    ensures var batch := FrontOf(s.db, tenant, limit);
      var end := DoAll(lockKey, s, [DispatchRead(0, tenant, limit), DispatcherCrash(0), DispatchRead(1, tenant, limit)]);
      end.db == s.db && end.delivered == s.delivered + batch + batch
  {
    var steps := [DispatchRead(0, tenant, limit), DispatcherCrash(0), DispatchRead(1, tenant, limit)];
    var batch := FrontOf(s.db, tenant, limit);
    ServedAlone.DoThree(lockKey, s, [], steps[0], steps[1], steps[2]);
    assert [] + [steps[0], steps[1], steps[2]] == steps;
    ReadHandsOver(lockKey, s, 0, tenant, limit);
    CrashForgets(lockKey, s, 0, batch);
    ReadHandsOver(lockKey, s.(delivered := s.delivered + batch), 1, tenant, limit);
  }
}
