/** What a reader may conclude after any interleaving: captures of live holds do not lack funds, and
    no currency's total has moved. */
module InterleavedLaws {
  import opened Wrappers
  import opened Money
  import opened Tables
  import opened PostingEngine
  import opened Services
  import opened ServiceLaws
  import opened Conservation
  import opened Funds
  import opened Interleaving
  import opened InterleavedFunds
  import opened InterleavedSafety
  import SerialLaws

  // ----- Reservations hold -----

  /** A hold of an ordinary account that still reserves its funds, and a capture of it that fits. */
  predicate CanCapture(db: Ledger, tenant: string, id: HoldId, req: CaptureRequest) {
    && id < |db.holds| && db.holds[id].tenant == tenant && Ordinary(db.accounts, db.holds[id].account)
    && Reserves(db.holds[id], tenant, db.holds[id].account, db.clock)
    && CaptureRefusal(db.accounts, tenant, db.holds[id], req).None?
  }

  /** Served now, the capture succeeds, and what the account can spend grows by what was held and not
      captured. */
  predicate CaptureGoesThrough(db: Ledger, tenant: string, id: HoldId, req: CaptureRequest)
    requires CanCapture(db, tenant, id, req)
  {
    var h, after := db.holds[id], Capture(db, tenant, id, req).0;
    && StageCapture(db, tenant, id, req).Ok?
    && after.accounts == db.accounts
    && AvailableAt(after, h.account, db.clock) - AvailableAt(db, h.account, db.clock)
       == h.amount - (if req.destination == h.account then 0 else CaptureAmount(h, req))
  }

  /** In any state a disciplined run reaches, a hold that still reserves its funds can be captured for
      up to its amount. */
  lemma LiveHoldsAreAlwaysCapturable(lockKey: AccountId -> int, s: System, steps: seq<Step>, tenant: string, id: HoldId, req: CaptureRequest)
    requires Inv(lockKey, s) && Funded(s) && DisciplinedRun(lockKey, s, steps)
    ensures var db := DoAll(lockKey, s, steps).db;
      CanCapture(db, tenant, id, req) ==> CaptureGoesThrough(db, tenant, id, req)
  {
    NoInterleavingOverdraws(lockKey, s, steps);
    var db := DoAll(lockKey, s, steps).db;
    if CanCapture(db, tenant, id, req) {
      ReservationGuarantee(db, tenant, id, req);
    }
  }

  /** A capture in flight of a hold that still reserves its funds, on an ordinary account. */
  predicate CapturesLiveHold(db: Ledger, r: Request) {
    && r.op.CaptureOp? && r.op.id < |db.holds| && Ordinary(db.accounts, r.op.hold.account)
    && Reserves(db.holds[r.op.id], r.tenant, r.op.hold.account, db.clock)
  }

  /** And such a capture passes its check of the posted balance, whatever else is in flight. */
  lemma CapturesInFlightAreCleared(lockKey: AccountId -> int, s: System, steps: seq<Step>, id: nat)
    requires Inv(lockKey, s) && Funded(s) && DisciplinedRun(lockKey, s, steps)
    ensures var end := DoAll(lockKey, s, steps);
      id in end.requests && CapturesLiveHold(end.db, end.requests[id]) ==> AfterPosted(end.db, end.requests[id]) == Some(Cleared)
  {
    NoInterleavingOverdraws(lockKey, s, steps);
    var end := DoAll(lockKey, s, steps);
    if id in end.requests && CapturesLiveHold(end.db, end.requests[id]) {
      LiveCaptureIsCleared(end.db, end.requests[id]);
    }
  }

  lemma LiveCaptureIsCleared(db: Ledger, r: Request)
    requires Valid(db) && FundsSafe(db) && RequestSound(db, r) && r.op.CaptureOp?
    requires Ordinary(db.accounts, r.op.hold.account)
    requires Reserves(db.holds[r.op.id], r.tenant, r.op.hold.account, db.clock)
    ensures AfterPosted(db, r) == Some(Cleared)
  {
    var a := r.op.hold.account;
    PositiveAmounts(db);
    HeldCoversEachHold(db.holds, r.op.id, r.tenant, a, db.clock);
    ServiceReadsAvailable(db, r.tenant, a, db.clock);
    assert AvailableAt(db, a, db.clock) >= 0;
  }

  // ----- Totals -----

  lemma StepSeedsNothing(lockKey: AccountId -> int, s: System, step: Step, c: Currency)
    ensures var s' := Do(lockKey, s, step);
      Total(s'.db.accounts, s'.db.seeded, c) == Total(s.db.accounts, s.db.seeded, c)
  {
    if step.CommitRequest? && step.id in s.requests && s.requests[step.id].phase.Staged? {
      MovedFrame(s.db, s.requests[step.id].phase.writes);
    } else if step.OpenStep? {
      SerialLaws.OpeningSeedsNothing(s.db, step.tenant, step.path, step.currency, c);
    }
  }

  lemma {:induction false} RunSeedsNothing(lockKey: AccountId -> int, s: System, steps: seq<Step>, c: Currency)
    ensures var end := DoAll(lockKey, s, steps);
      Total(end.db.accounts, end.db.seeded, c) == Total(s.db.accounts, s.db.seeded, c)
  {
    if steps == [] {
    } else {
      RunSeedsNothing(lockKey, s, steps[..|steps| - 1], c);
      StepSeedsNothing(lockKey, DoAll(lockKey, s, steps[..|steps| - 1]), steps[|steps| - 1], c);
    }
  }

  /** Currencies are apart in what is committed, and will be in what is staged. */
  predicate ApartThroughout(s: System) {
    && CurrenciesApart(s.db)
    && forall id <- s.requests ::
         s.requests[id].phase.Staged? ==> AllSingleCurrency(s.db.accounts, s.requests[id].phase.writes.entries)
  }

  /** What the source leaves to its operators: a transfer about to be staged converts, if it does,
      through accounts of the right currencies. */
  predicate StagesHonestly(s: System, step: Step) {
    step.Stage? && step.id in s.requests && s.requests[step.id].op.TransferOp? && StagedWrites(s.db, s.requests[step.id]).Some? ==>
      ConvertsHonestly(s.db.accounts, s.requests[step.id].tenant, s.requests[step.id].op.transfer)
  }

  lemma HonestStagingIsSingleCurrency(db: Ledger, r: Request)
    requires Valid(db) && RequestSound(db, r) && CurrenciesApart(db) && StagedWrites(db, r).Some?
    requires r.op.TransferOp? ==> ConvertsHonestly(db.accounts, r.tenant, r.op.transfer)
    ensures AllSingleCurrency(db.accounts, StagedWrites(db, r).value.entries)
  {
    match r.op
    case TransferOp(t) => TransferIsSingleCurrencyIff(db, r.tenant, t, db.clock);
    case PlaceOp(p) =>
    case CaptureOp(id, h, req) => CaptureIsSingleCurrency(db.accounts, r.tenant, id, h, req, db.clock);
    case ReleaseOp(id) =>
    case ReverseOp(req) => ReversalIsSingleCurrency(db, r.tenant, req, r.key, r.fingerprint, db.clock);
  }

  lemma MoreAccountsStayApart(accounts: seq<Account>, more: seq<Account>, entries: seq<Entry>)
    requires accounts <= more && AllSingleCurrency(accounts, entries)
    ensures AllSingleCurrency(more, entries)
  {
    forall i | 0 <= i < |entries| ensures SingleCurrency(more, entries[i].legs) {
      assert SingleCurrency(accounts, entries[i].legs);
    }
  }

  lemma CommittedStaysApart(s: System, s': System, w: Writes)
    requires Consistent(s.db) && ApartThroughout(s) && AllSingleCurrency(s.db.accounts, w.entries)
    requires s'.db == Commit(s.db, w) && forall id <- s'.requests :: id in s.requests && s'.requests[id] == s.requests[id]
    ensures ApartThroughout(s')
  {
    MovedFrame(s.db, w);
    CommitKeepsCurrenciesApartIff(s.db, w);
  }

  lemma CommitStaysApart(lockKey: AccountId -> int, s: System, id: nat)
    requires Inv(lockKey, s) && ApartThroughout(s)
    ensures ApartThroughout(Do(lockKey, s, CommitRequest(id)))
  {
    CommitLandsOrRollsBack(lockKey, s, id);
    if GoesThrough(s, CommitRequest(id)) {
      CommittedStaysApart(s, Do(lockKey, s, CommitRequest(id)), s.requests[id].phase.writes);
    }
  }

  lemma StageStaysApart(lockKey: AccountId -> int, s: System, id: nat)
    requires Inv(lockKey, s) && ApartThroughout(s) && StagesHonestly(s, Stage(id))
    ensures ApartThroughout(Do(lockKey, s, Stage(id)))
  {
    if id in s.requests && ReadyToStage(s.requests[id]) && StagedWrites(s.db, s.requests[id]).Some? {
      assert RequestSound(s.db, s.requests[id]);
      HonestStagingIsSingleCurrency(s.db, s.requests[id]);
    }
  }

  /** Steps that commit and stage nothing leave legs and accounts as they were, or add an account. */
  lemma OtherStepStaysApart(lockKey: AccountId -> int, s: System, step: Step)
    requires ApartThroughout(s) && !step.CommitRequest? && !step.Stage?
    ensures ApartThroughout(Do(lockKey, s, step))
  {
    var s' := Do(lockKey, s, step);
    OtherStepGrows(lockKey, s, step);
    SerialLaws.SameLegsStayApart(s.db, s'.db);
    forall id | id in s'.requests && s'.requests[id].phase.Staged?
      ensures AllSingleCurrency(s'.db.accounts, s'.requests[id].phase.writes.entries)
    {
      OtherStepStagesNothing(lockKey, s, step, id);
      MoreAccountsStayApart(s.db.accounts, s'.db.accounts, s.requests[id].phase.writes.entries);
    }
  }

  lemma StepStaysApart(lockKey: AccountId -> int, s: System, step: Step)
    requires Inv(lockKey, s) && ApartThroughout(s) && StagesHonestly(s, step)
    ensures ApartThroughout(Do(lockKey, s, step))
  {
    match step
    case CommitRequest(id) => CommitStaysApart(lockKey, s, id);
    case Stage(id) => StageStaysApart(lockKey, s, id);
    case _ => OtherStepStaysApart(lockKey, s, step);
  }

  predicate HonestRun(lockKey: AccountId -> int, s: System, steps: seq<Step>) {
    steps == [] ||
    (HonestRun(lockKey, s, steps[..|steps| - 1])
     && StagesHonestly(DoAll(lockKey, s, steps[..|steps| - 1]), steps[|steps| - 1]))
  }

  lemma {:induction false} RunStaysApart(lockKey: AccountId -> int, s: System, steps: seq<Step>)
    requires Inv(lockKey, s) && ApartThroughout(s) && HonestRun(lockKey, s, steps)
    ensures ApartThroughout(DoAll(lockKey, s, steps))
  {
    if steps == [] {
    } else {
      var front := steps[..|steps| - 1];
      RunStaysApart(lockKey, s, front);
      EveryInterleavingKeepsTheLedgerValid(lockKey, s, front);
      StepStaysApart(lockKey, DoAll(lockKey, s, front), steps[|steps| - 1]);
    }
  }

  /** No interleaving, with every race, crash and reversal in it, moves what all balances of a currency
      come to, as long as what is staged converts through accounts of the right currencies. */
  lemma NoInterleavingMovesTotals(lockKey: AccountId -> int, s: System, steps: seq<Step>, c: Currency)
    requires Inv(lockKey, s) && ApartThroughout(s) && HonestRun(lockKey, s, steps)
    ensures var db := DoAll(lockKey, s, steps).db;
      Total(db.accounts, db.snapshots, c) == Total(s.db.accounts, s.db.snapshots, c)
  {
    EveryInterleavingKeepsTheLedgerValid(lockKey, s, steps);
    RunStaysApart(lockKey, s, steps);
    RunSeedsNothing(lockKey, s, steps, c);
    MoneyIsConserved(s.db, c);
    MoneyIsConserved(DoAll(lockKey, s, steps).db, c);
  }
}
