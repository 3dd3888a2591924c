/** The other side of the outbox: a consumer that drops event ids it has seen rebuilds every
    account's figures from the payloads alone, whatever the order and however often delivered. */
module Consumer {
  import opened Wrappers
  import opened Tables
  import opened PostingEngine
  import opened ServiceLaws

  /** What a delivered payload carries (backend/services/postings_engine.py:106-119). */
  datatype Message = Message(id: nat, legs: seq<Leg>)

  /** An account's balance and number of postings. */
  datatype Figures = Figures(balance: int, version: int)

  datatype Replica = Replica(seen: set<nat>, figures: map<AccountId, Figures>)

  function AddLeg(f: Figures, leg: Leg): Figures {
    Figures(f.balance + leg.amount, f.version + 1)
  }

  function ApplyLegs(figures: map<AccountId, Figures>, legs: seq<Leg>): map<AccountId, Figures> {
    if legs == [] then figures
    else
      var before, leg := ApplyLegs(figures, legs[..|legs| - 1]), legs[|legs| - 1];
      if leg.account in before then before[leg.account := AddLeg(before[leg.account], leg)] else before
  }

  function Consume(r: Replica, m: Message): Replica {
    if m.id in r.seen then r else Replica(r.seen + {m.id}, ApplyLegs(r.figures, m.legs))
  }

  function ConsumeAll(r: Replica, ms: seq<Message>): Replica {
    if ms == [] then r else Consume(ConsumeAll(r, ms[..|ms| - 1]), ms[|ms| - 1])
  }

  // ----- What has been applied so far -----

  datatype Measure = Balance | Version

  function Read(f: Figures, m: Measure): int {
    if m == Balance then f.balance else f.version
  }

  function Weight(leg: Leg, m: Measure): int {
    if m == Balance then leg.amount else 1
  }

  function OfLegs(legs: seq<Leg>, a: AccountId, m: Measure): int {
    if legs == [] then 0
    else OfLegs(legs[..|legs| - 1], a, m) + (if legs[|legs| - 1].account == a then Weight(legs[|legs| - 1], m) else 0)
  }

  function OfSeen(events: seq<Event>, seen: set<nat>, a: AccountId, m: Measure): int {
    if events == [] then 0
    else
      var n := |events| - 1;
      OfSeen(events[..n], seen, a, m) + (if n in seen then OfLegs(events[n].legs, a, m) else 0)
  }

  lemma {:induction false} ApplyingLegsAdds(figures: map<AccountId, Figures>, legs: seq<Leg>, a: AccountId, m: Measure)
    requires a in figures
    ensures a in ApplyLegs(figures, legs)
    ensures Read(ApplyLegs(figures, legs)[a], m) == Read(figures[a], m) + OfLegs(legs, a, m)
  {
    if legs == [] {
    } else {
      ApplyingLegsAdds(figures, legs[..|legs| - 1], a, m);
    }
  }

  lemma {:induction false} SeeingOneMore(events: seq<Event>, seen: set<nat>, id: nat, a: AccountId, m: Measure)
    requires id !in seen
    ensures OfSeen(events, seen + {id}, a, m)
         == OfSeen(events, seen, a, m) + (if id < |events| then OfLegs(events[id].legs, a, m) else 0)
  {
    if events == [] {
    } else {
      SeeingOneMore(events[..|events| - 1], seen, id, a, m);
    }
  }

  lemma {:induction false} SeeingNone(events: seq<Event>, a: AccountId, m: Measure)
    ensures OfSeen(events, {}, a, m) == 0
  {
    if events == [] {
    } else {
      SeeingNone(events[..|events| - 1], a, m);
    }
  }

  /** Every message is the payload of a committed event. */
  predicate Genuine(events: seq<Event>, ms: seq<Message>) {
    forall i | 0 <= i < |ms| :: ms[i].id < |events| && ms[i].legs == events[ms[i].id].legs
  }

  function Ids(ms: seq<Message>): set<nat> {
    set i | 0 <= i < |ms| :: ms[i].id
  }

  lemma IdsGrow(ms: seq<Message>)
    requires ms != []
    ensures Ids(ms) == Ids(ms[..|ms| - 1]) + {ms[|ms| - 1].id}
  {
    var front := ms[..|ms| - 1];
    assert forall i | 0 <= i < |front| :: front[i] == ms[i];
  }

  lemma {:induction false} ReplicaSees(r: Replica, ms: seq<Message>)
    requires r.seen == {}
    ensures ConsumeAll(r, ms).seen == Ids(ms)
  {
    if ms == [] {
    } else {
      ReplicaSees(r, ms[..|ms| - 1]);
      IdsGrow(ms);
    }
  }

  lemma {:induction false} ReplicaTracksWhatItSaw(events: seq<Event>, start: map<AccountId, Figures>, ms: seq<Message>, a: AccountId, m: Measure)
    requires Genuine(events, ms) && a in start
    ensures var figures := ConsumeAll(Replica({}, start), ms).figures;
      a in figures && Read(figures[a], m) == Read(start[a], m) + OfSeen(events, Ids(ms), a, m)
  {
    if ms == [] {
      assert Ids(ms) == {};
      SeeingNone(events, a, m);
    } else {
      var front, last := ms[..|ms| - 1], ms[|ms| - 1];
      var r := ConsumeAll(Replica({}, start), front);
      ReplicaTracksWhatItSaw(events, start, front, a, m);
      ReplicaSees(Replica({}, start), front);
      IdsGrow(ms);
      if last.id !in Ids(front) {
        ApplyingLegsAdds(r.figures, last.legs, a, m);
        SeeingOneMore(events, Ids(front), last.id, a, m);
      } else {
        assert Ids(ms) == Ids(front);
      }
    }
  }

  // ----- All of it is the postings table -----

  function OfPostings(ps: seq<Posting>, a: AccountId, m: Measure): int {
    if m == Balance then Recompute(ps, a) else PostingCount(ps, a)
  }

  lemma {:induction false} PostingsForFigures(ps: seq<Posting>, legs: seq<Leg>, a: AccountId, m: Measure)
    requires |ps| == |legs| && forall i | 0 <= i < |ps| :: ps[i].leg == legs[i]
    ensures OfLegs(legs, a, m) == OfPostings(ps, a, m)
  {
    if ps == [] {
    } else {
      PostingsForFigures(ps[..|ps| - 1], legs[..|legs| - 1], a, m);
    }
  }

  lemma {:induction false} AllSeenIsTheJournal(events: seq<Event>, seen: set<nat>, a: AccountId, m: Measure)
    requires forall t: nat | t < |events| :: t in seen
    ensures OfSeen(events, seen, a, m) == OfPostings(Journal(events), a, m)
  {
    if events == [] {
    } else {
      var n := |events| - 1;
      var before := Journal(events[..n]);
      var added := PostingsFor(|before|, events[n]);
      AllSeenIsTheJournal(events[..n], seen, a, m);
      PostingsForFigures(added, events[n].legs, a, m);
      SumsAdd(before, added, a);
      CountsAdd(before, added, a);
    }
  }

  function Opening(seeded: map<AccountId, Snapshot>): map<AccountId, Figures> {
    map a | a in seeded :: Figures(seeded[a].balance, seeded[a].version)
  }

  /** Any delivery that contains every event at least once, in any order and with any repeats,
      rebuilds exactly the committed balance and version of every account. */
  lemma AtLeastOnceDeliveryRebuildsSnapshots(l: Ledger, ms: seq<Message>, a: AccountId)
    requires Consistent(l) && a < |l.accounts|
    requires Genuine(l.events, ms) && forall t: nat | t < |l.events| :: t in Ids(ms)
    ensures a in l.snapshots && a in ConsumeAll(Replica({}, Opening(l.seeded)), ms).figures
    ensures ConsumeAll(Replica({}, Opening(l.seeded)), ms).figures[a] == Figures(l.snapshots[a].balance, l.snapshots[a].version)
  {
    assert a in l.snapshots && Agrees(l.snapshots[a], l.seeded[a], l.postings, a);
    ReplicaTracksWhatItSaw(l.events, Opening(l.seeded), ms, a, Balance);
    ReplicaTracksWhatItSaw(l.events, Opening(l.seeded), ms, a, Version);
    AllSeenIsTheJournal(l.events, Ids(ms), a, Balance);
    AllSeenIsTheJournal(l.events, Ids(ms), a, Version);
  }
}
