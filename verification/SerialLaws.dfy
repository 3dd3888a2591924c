/** What a reader of the ledger may conclude after any serial run. */
module SerialLaws {
  import opened Wrappers
  import opened Money
  import opened Tables
  import opened PostingEngine
  import opened Services
  import opened ServiceLaws
  import opened SerialRuns
  import opened Conservation
  import opened Funds
  import Ordering
  import Outbox
  import ServiceEffects

  // ----- Totals -----

  lemma {:induction false} TotalIgnoresOtherRows(accounts: seq<Account>, rows: map<AccountId, Snapshot>, more: map<AccountId, Snapshot>, c: Currency)
    requires forall a: nat | a < |accounts| :: (a in rows <==> a in more) && (a in rows ==> more[a] == rows[a])
    ensures Total(accounts, more, c) == Total(accounts, rows, c)
  {
    if accounts == [] {
    } else {
      TotalIgnoresOtherRows(accounts[..|accounts| - 1], rows, more, c);
    }
  }

  lemma OpeningSeedsNothing(l: Ledger, tenant: string, path: string, currency: Currency, c: Currency)
    ensures var l' := OpenAccount(l, tenant, path, currency);
      Total(l'.accounts, l'.seeded, c) == Total(l.accounts, l.seeded, c)
  {
    var l' := OpenAccount(l, tenant, path, currency);
    assert l'.accounts[..|l.accounts|] == l.accounts;
    TotalIgnoresOtherRows(l.accounts, l.seeded, l'.seeded, c);
  }

  lemma StepSeedsNothing(l: Ledger, step: Step, c: Currency)
    requires Valid(l) && SerialSound(l) && Admissible(l, step)
    ensures Total(Apply(l, step).accounts, Apply(l, step).seeded, c) == Total(l.accounts, l.seeded, c)
  {
    StepCommitsItsStage(l, step);
    if StagedBy(l, step).Some? {
      MovedFrame(l, StagedBy(l, step).value);
    } else if step.Open? {
      OpeningSeedsNothing(l, step.tenant, step.path, step.currency, c);
    }
  }

  lemma {:induction false} RunSeedsNothing(l: Ledger, steps: seq<Step>, c: Currency)
    requires Valid(l) && SerialSound(l) && AdmissibleRun(l, steps)
    ensures Total(Run(l, steps).accounts, Run(l, steps).seeded, c) == Total(l.accounts, l.seeded, c)
  {
    if steps == [] {
    } else {
      var front := steps[..|steps| - 1];
      RunSeedsNothing(l, front, c);
      RunKeepsEverything(l, front);
      StepSeedsNothing(Run(l, front), steps[|steps| - 1], c);
    }
  }

  /** A transfer that goes through keeps currencies apart exactly when it converts through accounts of
      the right currencies. */
  lemma TransferKeepsCurrenciesApartIff(l: Ledger, tenant: string, req: TransferRequest, key: string, fp: int)
    requires Valid(l) && CurrenciesApart(l) && ExecuteTransfer(l, tenant, req, key, fp).1.Done?
    ensures CurrenciesApart(ExecuteTransfer(l, tenant, req, key, fp).0) <==> ConvertsHonestly(l.accounts, tenant, req)
  {
    var w := StageTransfer(l, tenant, req, Key(tenant, TRANSFERS, key), fp).value;
    TransferIsSingleCurrencyIff(l, tenant, req, l.clock);
    CommitKeepsCurrenciesApartIff(l, w);
  }

  /** A transfer that goes through converts, if it does, through accounts of the right currencies; a
      direct engine call stays within one currency. */
  predicate PostsHonestly(l: Ledger, step: Step) {
    match step
    case PostRaw(_, entry) => SingleCurrency(l.accounts, entry.legs)
    case DoTransfer(tenant, req, key, fp) =>
      ExecuteTransfer(l, tenant, req, key, fp).1.Done? ==> ConvertsHonestly(l.accounts, tenant, req)
    case _ => true
  }

  predicate HonestRun(l: Ledger, steps: seq<Step>) {
    steps == [] ||
    (HonestRun(l, steps[..|steps| - 1]) && PostsHonestly(Run(l, steps[..|steps| - 1]), steps[|steps| - 1]))
  }

  lemma HonestStageIsSingleCurrency(l: Ledger, step: Step)
    requires Valid(l) && CurrenciesApart(l) && PostsHonestly(l, step) && StagedBy(l, step).Some?
    ensures AllSingleCurrency(l.accounts, StagedBy(l, step).value.entries)
  {
    match step
    case DoTransfer(tenant, req, key, fp) => TransferIsSingleCurrencyIff(l, tenant, req, l.clock);
    case DoCapture(tenant, id, req) => CaptureIsSingleCurrency(l.accounts, tenant, id, l.holds[id], req, l.clock);
    case DoReverse(tenant, req, key, fp) =>
      ReversalIsSingleCurrency(l, tenant, req, Key(tenant, REVERSALS, key), fp, l.clock);
    case _ =>
  }

  lemma SameLegsStayApart(l: Ledger, l': Ledger)
    requires CurrenciesApart(l) && l.accounts <= l'.accounts && SameEvents(l.events, l'.events)
    ensures CurrenciesApart(l')
  {
    forall t | 0 <= t < |l'.events| ensures SingleCurrency(l'.accounts, l'.events[t].legs) {
      assert SameEvent(l.events[t], l'.events[t]) && SingleCurrency(l.accounts, l.events[t].legs);
    }
  }

  lemma StepKeepsCurrenciesApart(l: Ledger, step: Step)
    requires Valid(l) && CurrenciesApart(l) && PostsHonestly(l, step)
    ensures CurrenciesApart(Apply(l, step))
  {
    StepCommitsItsStage(l, step);
    if StagedBy(l, step).Some? {
      HonestStageIsSingleCurrency(l, step);
      CommitKeepsCurrenciesApartIff(l, StagedBy(l, step).value);
    } else {
      SameLegsStayApart(l, Apply(l, step));
    }
  }

  lemma {:induction false} RunKeepsCurrenciesApart(l: Ledger, steps: seq<Step>)
    requires Valid(l) && SerialSound(l) && AdmissibleRun(l, steps) && CurrenciesApart(l) && HonestRun(l, steps)
    ensures CurrenciesApart(Run(l, steps))
  {
    if steps == [] {
    } else {
      var front := steps[..|steps| - 1];
      RunKeepsCurrenciesApart(l, front);
      RunKeepsEverything(l, front);
      StepKeepsCurrenciesApart(Run(l, front), steps[|steps| - 1]);
    }
  }

  /** Transfers, conversions through accounts of the right currencies, captures, reversals, new
      accounts: no run changes what all balances of a currency come to. */
  lemma TotalsNeverMove(l: Ledger, steps: seq<Step>, c: Currency)
    requires Valid(l) && SerialSound(l) && AdmissibleRun(l, steps) && CurrenciesApart(l) && HonestRun(l, steps)
    ensures Total(Run(l, steps).accounts, Run(l, steps).snapshots, c) == Total(l.accounts, l.snapshots, c)
  {
    RunKeepsEverything(l, steps);
    RunKeepsCurrenciesApart(l, steps);
    RunSeedsNothing(l, steps, c);
    MoneyIsConserved(l, c);
    MoneyIsConserved(Run(l, steps), c);
  }

  // ----- Snapshots -----

  lemma StepKeepsSeeds(l: Ledger, step: Step, a: AccountId)
    requires a in l.seeded && a < |l.accounts|
    ensures a in Apply(l, step).seeded && Apply(l, step).seeded[a] == l.seeded[a]
  {
    StepCommitsItsStage(l, step);
    if StagedBy(l, step).Some? { MovedFrame(l, StagedBy(l, step).value); }
  }

  lemma {:induction false} RunKeepsSeeds(l: Ledger, steps: seq<Step>, a: AccountId)
    requires Valid(l) && SerialSound(l) && AdmissibleRun(l, steps) && a < |l.accounts|
    ensures a in l.seeded && a in Run(l, steps).seeded && Run(l, steps).seeded[a] == l.seeded[a]
  {
    assert a in l.snapshots;
    if steps == [] {
    } else {
      var front := steps[..|steps| - 1];
      RunKeepsSeeds(l, front, a);
      RunKeepsEverything(l, front);
      StepKeepsSeeds(Run(l, front), steps[|steps| - 1], a);
    }
  }

  lemma {:induction false} LastOfConcat(ps: seq<Posting>, added: seq<Posting>, a: AccountId)
    ensures LastPosting(ps + added, a) == if LastPosting(added, a).Some? then LastPosting(added, a) else LastPosting(ps, a)
  {
    if added == [] {
      assert ps + added == ps;
    } else {
      LastOfConcat(ps, added[..|added| - 1], a);
      assert (ps + added)[..|ps + added| - 1] == ps + added[..|added| - 1];
    }
  }

  /** `after` is `before`, moved by the postings in `added`. */
  predicate MovedBy(before: Snapshot, after: Snapshot, added: seq<Posting>, a: AccountId) {
    && after.balance == before.balance + Recompute(added, a)
    && after.version == before.version + PostingCount(added, a)
    && after.asOf == (if LastPosting(added, a).Some? then LastPosting(added, a) else before.asOf)
  }

  lemma AgreementsDifferByTheAdded(before: Snapshot, after: Snapshot, seed: Snapshot, ps: seq<Posting>, added: seq<Posting>, a: AccountId)
    requires Agrees(before, seed, ps, a) && Agrees(after, seed, ps + added, a)
    ensures MovedBy(before, after, added, a)
  {
    SumsAdd(ps, added, a);
    CountsAdd(ps, added, a);
    LastOfConcat(ps, added, a);
  }

  lemma GrownRowsFollow(l: Ledger, l': Ledger, a: AccountId)
    requires Consistent(l) && Consistent(l') && l.postings <= l'.postings
    requires a in l.seeded && a in l'.seeded && l'.seeded[a] == l.seeded[a]
    ensures a in l.snapshots && a in l'.snapshots
    ensures MovedBy(l.snapshots[a], l'.snapshots[a], l'.postings[|l.postings|..], a)
  {
    var added := l'.postings[|l.postings|..];
    assert l'.postings == l.postings + added;
    assert a in l.snapshots && Agrees(l.snapshots[a], l.seeded[a], l.postings, a);
    assert a in l'.snapshots && Agrees(l'.snapshots[a], l'.seeded[a], l'.postings, a);
    AgreementsDifferByTheAdded(l.snapshots[a], l'.snapshots[a], l.seeded[a], l.postings, added, a);
  }

  /** Over a run, an account's snapshot moves by exactly the postings the run added to it: their
      sum, their number, and the last of them as watermark. */
  lemma SnapshotsFollowNewPostings(l: Ledger, steps: seq<Step>, a: AccountId)
    requires Valid(l) && SerialSound(l) && AdmissibleRun(l, steps) && a < |l.accounts|
    ensures a in l.snapshots && a in Run(l, steps).snapshots && |l.postings| <= |Run(l, steps).postings|
    ensures MovedBy(l.snapshots[a], Run(l, steps).snapshots[a], Run(l, steps).postings[|l.postings|..], a)
  {
    RunKeepsEverything(l, steps);
    RunKeepsSeeds(l, steps, a);
    GrownRowsFollow(l, Run(l, steps), a);
  }

  // ----- Holds -----

  /** Once captured, a hold answers every later capture as it is, with what its account then has and can
      spend, and no later request moves money for it again. */
  lemma CapturedHoldIsFinal(l: Ledger, steps: seq<Step>, id: HoldId, req: CaptureRequest)
    requires Valid(l) && SerialSound(l) && AdmissibleRun(l, steps)
    requires id < |l.holds| && l.holds[id].state == Captured
    ensures var end := Run(l, steps);
      && id < |end.holds| && end.holds[id] == l.holds[id]
      && end.holds[id].account < |end.accounts|
      && Capture(end, l.holds[id].tenant, id, req) == (end, Replayed(ServiceEffects.HoldAnswer(end, id)))
      && Release(end, l.holds[id].tenant, id) == (end, Refused(WrongHoldState))
  {
    var end := Run(l, steps);
    RunKeepsEverything(l, steps);
    assert HoldEvolves(l.holds[id], end.holds[id]);
    ServiceEffects.CaptureSucceedsIff(end, l.holds[id].tenant, id, req);
  }

  /** And a released one answers every later release that way, and refuses to be captured. */
  lemma ReleasedHoldIsFinal(l: Ledger, steps: seq<Step>, id: HoldId, req: CaptureRequest)
    requires Valid(l) && SerialSound(l) && AdmissibleRun(l, steps)
    requires id < |l.holds| && l.holds[id].state == Released
    ensures var end := Run(l, steps);
      && id < |end.holds| && end.holds[id] == l.holds[id]
      && end.holds[id].account < |end.accounts|
      && Release(end, l.holds[id].tenant, id) == (end, Replayed(ServiceEffects.HoldAnswer(end, id)))
      && Capture(end, l.holds[id].tenant, id, req) == (end, Refused(WrongHoldState))
  {
    var end := Run(l, steps);
    RunKeepsEverything(l, steps);
    assert HoldEvolves(l.holds[id], end.holds[id]);
    ServiceEffects.ReleaseAnswers(end, l.holds[id].tenant, id);
  }

  // ----- Reversals -----

  lemma {:induction false} RecomputeIsNet(ps: seq<Posting>, a: AccountId)
    ensures Recompute(ps, a) == NetOfLegs(LegsOf(ps), a)
  {
    if ps == [] {
    } else {
      RecomputeIsNet(ps[..|ps| - 1], a);
      assert LegsOf(ps)[..|ps| - 1] == LegsOf(ps[..|ps| - 1]);
    }
  }

  /** A reversal and its original cancel on every account, whatever was posted in between; the
      original is no reversal, and no third transaction claims to reverse it. */
  lemma ReversalCancelsItsOriginal(l: Ledger, i: TxnId, a: AccountId)
    requires Valid(l) && SerialSound(l) && i < |l.txns| && l.txns[i].corrects.Some?
    ensures var j := l.txns[i].corrects.value;
      && j < i && l.txns[j].corrects.None?
      && Recompute(PostingsOf(l.postings, i), a) + Recompute(PostingsOf(l.postings, j), a) == 0
      && forall k: nat | k < |l.txns| && k != i :: l.txns[k].corrects != Some(j)
  {
    var j := l.txns[i].corrects.value;
    assert CorrectsSoundly(l, i);
    TransactionHasItsLegs(l, i);
    TransactionHasItsLegs(l, j);
    RecomputeIsNet(PostingsOf(l.postings, i), a);
    RecomputeIsNet(PostingsOf(l.postings, j), a);
    UndoingNets(l.events[i].legs, l.events[j].legs, a);
    forall k: nat | k < |l.txns| && k != i ensures l.txns[k].corrects != Some(j) {
      if k < i && l.txns[k].corrects.Some? { assert l.txns[k].corrects != l.txns[i].corrects; }
    }
  }

  /** In every later state a second reversal is refused, and so is reversing the reversal. */
  lemma SecondReversalIsRefused(l: Ledger, steps: seq<Step>, i: TxnId, req: ReverseRequest, key: string, fp: int)
    requires Valid(l) && SerialSound(l) && AdmissibleRun(l, steps)
    requires i < |l.txns| && l.txns[i].corrects == Some(req.txn)
    requires Lookup(Run(l, steps).records, Key(l.txns[i].tenant, REVERSALS, key), fp).Miss?
    ensures Reverse(Run(l, steps), l.txns[i].tenant, req, key, fp) == (Run(l, steps), Refused(AlreadyReversed))
    ensures Reverse(Run(l, steps), l.txns[i].tenant, ReverseRequest(i, req.memo), key, fp) == (Run(l, steps), Refused(CannotReverseReversal))
  {
    var end := Run(l, steps);
    RunKeepsEverything(l, steps);
    assert end.txns[i] == l.txns[i];
    assert CorrectsSoundly(end, i);
    assert end.txns[i] in end.txns;
    assert HasReversal(end.txns, l.txns[i].tenant, req.txn);
  }

  // ----- Publication order -----

  /** Published events come first, and no event is from the future. */
  predicate OutboxSound(l: Ledger, tenant: string) {
    Outbox.PublishedPrefix(l.events, tenant) && forall i | 0 <= i < |l.events| :: l.events[i].createdAt <= l.clock
  }

  lemma {:induction false} PostedEventsArePending(l: Ledger, tenant: string, at: Instant, entries: seq<Entry>)
    requires |l.txns| == |l.events|
    ensures var l' := PostAll(l, tenant, at, entries);
      && |l'.txns| == |l'.events| && l.events <= l'.events
      && forall i | |l.events| <= i < |l'.events| ::
           l'.events[i].id == i && l'.events[i].status == Pending && l'.events[i].createdAt == at
  {
    if entries == [] {
    } else {
      PostedEventsArePending(l, tenant, at, entries[..|entries| - 1]);
    }
  }

  /** What is enqueued now sorts after everything enqueued before. */
  lemma NewEventsKeepThePrefix(before: seq<Event>, after: seq<Event>, tenant: string, now: Instant)
    requires before <= after && Outbox.PublishedPrefix(before, tenant)
    requires forall i | 0 <= i < |before| :: before[i].id == i && before[i].createdAt <= now
    requires forall i | |before| <= i < |after| :: after[i].id == i && after[i].status == Pending && after[i].createdAt == now
    ensures Outbox.PublishedPrefix(after, tenant)
  {
    forall i, j | 0 <= i < |after| && 0 <= j < |after| ensures Outbox.InPlace(after[i], after[j], tenant) {
      if j < |before| {
        assert after[j] == before[j];
        if i < |before| {
          assert after[i] == before[i] && Outbox.InPlace(before[i], before[j], tenant);
        } else {
          assert !Ordering.Less(Outbox.EventRank(after[i]), Outbox.EventRank(after[j]));
        }
      }
    }
  }

  lemma EventsAreNumbered(l: Ledger)
    requires Consistent(l)
    ensures forall i | 0 <= i < |l.events| :: l.events[i].id == i
  {
    forall i: nat | i < |l.events| ensures l.events[i].id == i { assert EventDescribes(l, i); }
  }

  lemma StagedNow(l: Ledger, step: Step)
    ensures StagedBy(l, step).Some? ==> StagedBy(l, step).value.at == l.clock
  {
  }

  lemma CommitKeepsOutboxSound(l: Ledger, w: Writes, tenant: string)
    requires Consistent(l) && OutboxSound(l, tenant) && w.at == l.clock
    ensures OutboxSound(Commit(l, w), tenant)
  {
    MovedFrame(l, w);
    EventsAreNumbered(l);
    PostedEventsArePending(l, w.tenant, w.at, w.entries);
    NewEventsKeepThePrefix(l.events, Commit(l, w).events, tenant, l.clock);
  }

  lemma DispatchKeepsOutboxSound(l: Ledger, actor: string, limit: nat, tenant: string)
    requires Consistent(l) && OutboxSound(l, tenant)
    ensures OutboxSound(l.(events := Outbox.Dispatch(l.events, actor, limit, l.clock)), tenant)
  {
    EventsAreNumbered(l);
    Outbox.MarkingKeepsIds(l.events, Outbox.IdsOf(Ordering.Take(Outbox.Queue(l.events, actor), limit)), l.clock);
    if actor == tenant {
      Outbox.DispatchKeepsPrefix(l.events, tenant, limit, l.clock);
    } else {
      Outbox.DispatchSparesOthers(l.events, actor, limit, l.clock, tenant);
    }
  }

  lemma StepKeepsOutboxSound(l: Ledger, step: Step, tenant: string)
    requires Valid(l) && Admissible(l, step) && OutboxSound(l, tenant)
    ensures OutboxSound(Apply(l, step), tenant)
  {
    StepCommitsItsStage(l, step);
    if StagedBy(l, step).Some? {
      StagedNow(l, step);
      CommitKeepsOutboxSound(l, StagedBy(l, step).value, tenant);
    } else if step.DoDispatch? {
      DispatchKeepsOutboxSound(l, step.tenant, step.limit, tenant);
    }
  }

  /** Over any serial run each tenant's published events are the oldest ones, however posting and
      dispatching alternate; events of one instant rank in the order they were posted. */
  lemma {:induction false} RunPublishesInOrder(l: Ledger, steps: seq<Step>, tenant: string)
    requires Valid(l) && SerialSound(l) && AdmissibleRun(l, steps) && OutboxSound(l, tenant)
    ensures OutboxSound(Run(l, steps), tenant)
  {
    if steps == [] {
    } else {
      var front := steps[..|steps| - 1];
      RunPublishesInOrder(l, front, tenant);
      RunKeepsEverything(l, front);
      StepKeepsOutboxSound(Run(l, front), steps[|steps| - 1], tenant);
    }
  }
}
