/** Lifting the commit conditions of `Races` to runs: under any interleaving in which each capture and
    release commits on a hold that is still open, and each reversal before any other of the same
    transaction, holds resolve once, reversals pair one-to-one and nothing recorded is rewritten. */
module ResolvedOnce {
  import opened Wrappers
  import opened Tables
  import opened PostingEngine
  import opened Services
  import opened ServiceLaws
  import opened Interleaving
  import opened InterleavedSafety
  import SerialRuns
  import ServiceEffects

  /** What `req` would reverse is there, is the tenant's and reverses nothing; and `e` undoes it. */
  predicate Reverses(db: Ledger, tenant: string, txn: TxnId, e: Entry) {
    && txn < |db.txns| && txn < |db.events|
    && db.txns[txn].tenant == tenant && db.txns[txn].corrects.None?
    && e.corrects == Some(txn) && Undoes(e.legs, db.events[txn].legs)
  }

  /** Beyond what every interleaving keeps of staged writes: which of them correct something, and how. */
  predicate StagedSerially(db: Ledger, r: Request) {
    r.phase.Staged? ==>
      var w := r.phase.writes;
      match r.op
      case ReverseOp(req) => |w.entries| == 1 && Reverses(db, r.tenant, req.txn, w.entries[0])
      case PlaceOp(_) =>
        w.holdChange.PlaceHold? && w.holdChange.hold.state == Active
        && w.holdChange.hold.capturedTxn.None? && w.holdChange.hold.capturedAmount.None?
      case _ => forall i | 0 <= i < |w.entries| :: w.entries[i].corrects.None?
  }

  ghost predicate SerialInv(lockKey: AccountId -> int, s: System) {
    && Inv(lockKey, s) && SerialRuns.SerialSound(s.db)
    && forall id | id in s.requests :: StagedSerially(s.db, s.requests[id])
  }

  /** A capture or release about to commit finds its hold open; a reversal finds no other. */
  predicate StillOpen(s: System, step: Step) {
    GoesThrough(s, step) ==>
      match s.requests[step.id].op
      case CaptureOp(id, _, _) => id < |s.db.holds| && s.db.holds[id].state == Active
      case ReleaseOp(id) => id < |s.db.holds| && s.db.holds[id].state == Active
      case ReverseOp(req) => !HasReversal(s.db.txns, s.requests[step.id].tenant, req.txn)
      case _ => true
  }

  // ----- Staging -----

  lemma StagingIsSerial(db: Ledger, r: Request)
    requires Valid(db) && StagedWrites(db, r).Some?
    ensures StagedSerially(db, r.(phase := Staged(StagedWrites(db, r).value)))
  {
    match r.op
    case TransferOp(t) => SerialRuns.TransferCorrectsNothing(db, r.tenant, t, db.clock);
    case ReverseOp(req) => ReversalIsWellPosted(db, r.tenant, req, db.clock);
    case _ =>
  }

  lemma StagedSeriallyGrows(db: Ledger, db': Ledger, r: Request)
    requires SerialRuns.Grows(db, db') && StagedSerially(db, r)
    ensures StagedSerially(db', r)
  {
    if r.phase.Staged? && r.op.ReverseOp? {
      var txn := r.op.reverse.txn;
      assert SerialRuns.SameEvent(db.events[txn], db'.events[txn]);
    }
  }

  // ----- Committing -----

  lemma OpenReversalIsSerial(db: Ledger, tenant: string, txn: TxnId, e: Entry)
    requires Consistent(db) && Reverses(db, tenant, txn, e) && !HasReversal(db.txns, tenant, txn)
    ensures |db.txns| == |db.events| && SerialRuns.EntryIsSerial(db, tenant, e)
  {
    ServiceEffects.TransactionHasPostings(db, txn);
  }

  lemma OpenCommitIsSerial(s: System, id: nat)
    requires Valid(s.db) && GoesThrough(s, CommitRequest(id)) && StillOpen(s, CommitRequest(id))
    requires RequestSound(s.db, s.requests[id]) && StagedSerially(s.db, s.requests[id])
    ensures SerialRuns.WritesAreSerial(s.db, s.requests[id].phase.writes)
  {
    var r, w := s.requests[id], s.requests[id].phase.writes;
    match r.op
    case ReverseOp(req) => OpenReversalIsSerial(s.db, r.tenant, req.txn, w.entries[0]);
    case CaptureOp(hold, h, req) => assert HoldWellFormed(s.db.accounts, h);
    case _ =>
  }

  lemma OpenCommitStaysSerial(lockKey: AccountId -> int, s: System, id: nat, w: Writes)
    requires SerialInv(lockKey, s) && GoesThrough(s, CommitRequest(id)) && StillOpen(s, CommitRequest(id))
    requires s.requests[id].phase.writes == w
    ensures SerialRuns.SerialSound(Commit(s.db, w)) && SerialRuns.Grows(s.db, Commit(s.db, w))
    ensures forall i | i in s.requests :: StagedSerially(Commit(s.db, w), s.requests[i])
  {
    assert RequestSound(s.db, s.requests[id]) && StagedSerially(s.db, s.requests[id]);
    OpenCommitIsSerial(s, id);
    SerialRuns.CommitKeepsEverything(s.db, w);
    forall i | i in s.requests ensures StagedSerially(Commit(s.db, w), s.requests[i]) {
      StagedSeriallyGrows(s.db, Commit(s.db, w), s.requests[i]);
    }
  }

  lemma FewerRequestsStaySerial(lockKey: AccountId -> int, s: System, s': System)
    requires Inv(lockKey, s') && SerialRuns.SerialSound(s'.db)
    requires s'.requests.Keys <= s.requests.Keys && forall i <- s'.requests :: s'.requests[i] == s.requests[i]
    requires forall i | i in s.requests :: StagedSerially(s'.db, s.requests[i])
    ensures SerialInv(lockKey, s')
  {
    forall i | i in s'.requests ensures StagedSerially(s'.db, s'.requests[i]) {
      assert StagedSerially(s'.db, s.requests[i]);
    }
  }

  lemma CommitKeepsSerial(lockKey: AccountId -> int, s: System, id: nat)
    requires SerialInv(lockKey, s) && StillOpen(s, CommitRequest(id))
    ensures SerialInv(lockKey, Do(lockKey, s, CommitRequest(id)))
    ensures SerialRuns.Grows(s.db, Do(lockKey, s, CommitRequest(id)).db)
  {
    StepKeepsInv(lockKey, s, CommitRequest(id));
    CommitLandsOrRollsBack(lockKey, s, id);
    SerialRuns.GrowsFromItself(s.db);
    if GoesThrough(s, CommitRequest(id)) {
      OpenCommitStaysSerial(lockKey, s, id, s.requests[id].phase.writes);
    }
    FewerRequestsStaySerial(lockKey, s, Do(lockKey, s, CommitRequest(id)));
  }

  lemma StageChangesOne(lockKey: AccountId -> int, s: System, id: nat)
    ensures var s' := Do(lockKey, s, Stage(id));
      && s'.db == s.db && s'.requests.Keys <= s.requests.Keys
      && forall i <- s'.requests ::
           || s'.requests[i] == s.requests[i]
           || (StagedWrites(s.db, s.requests[i]).Some?
               && s'.requests[i] == s.requests[i].(phase := Staged(StagedWrites(s.db, s.requests[i]).value)))
  {
  }

  lemma StageKeepsSerial(lockKey: AccountId -> int, s: System, id: nat)
    requires SerialInv(lockKey, s)
    ensures SerialInv(lockKey, Do(lockKey, s, Stage(id)))
    ensures Do(lockKey, s, Stage(id)).db == s.db
  {
    var s' := Do(lockKey, s, Stage(id));
    StepKeepsInv(lockKey, s, Stage(id));
    StageChangesOne(lockKey, s, id);
    forall i | i in s'.requests ensures StagedSerially(s'.db, s'.requests[i]) {
      if s'.requests[i] != s.requests[i] { StagingIsSerial(s.db, s.requests[i]); }
    }
  }

  lemma OtherStepKeepsSerial(lockKey: AccountId -> int, s: System, step: Step)
    requires SerialInv(lockKey, s) && !step.CommitRequest? && !step.Stage?
    ensures SerialInv(lockKey, Do(lockKey, s, step))
    ensures SerialRuns.Grows(s.db, Do(lockKey, s, step).db)
  {
    var s' := Do(lockKey, s, step);
    StepKeepsInv(lockKey, s, step);
    OtherStepGrows(lockKey, s, step);
    SameHistoryStaysSound(s.db, s'.db);
    forall id | id in s'.requests ensures StagedSerially(s'.db, s'.requests[id]) {
      if s'.requests[id].phase.Staged? {
        OtherStepStagesNothing(lockKey, s, step, id);
        StagedSeriallyGrows(s.db, s'.db, s.requests[id]);
      }
    }
  }

  lemma SameHistoryStaysSound(db: Ledger, db': Ledger)
    requires SerialRuns.SerialSound(db)
    requires db'.txns == db.txns && db'.holds == db.holds && SerialRuns.SameEvents(db.events, db'.events)
    ensures SerialRuns.SerialSound(db')
  {
    SerialRuns.RedispatchKeepsSound(db, db.(events := db'.events));
    SerialRuns.SameRowsStaySound(db.(events := db'.events), db');
  }

  lemma StepKeepsSerial(lockKey: AccountId -> int, s: System, step: Step)
    requires SerialInv(lockKey, s) && StillOpen(s, step)
    ensures SerialInv(lockKey, Do(lockKey, s, step))
    ensures SerialRuns.Grows(s.db, Do(lockKey, s, step).db)
  {
    match step
    case CommitRequest(id) => CommitKeepsSerial(lockKey, s, id);
    case Stage(id) =>
      StageKeepsSerial(lockKey, s, id);
      SerialRuns.GrowsFromItself(s.db);
    case _ => OtherStepKeepsSerial(lockKey, s, step);
  }

  predicate OpenRun(lockKey: AccountId -> int, s: System, steps: seq<Step>) {
    steps == [] ||
    (OpenRun(lockKey, s, steps[..|steps| - 1]) && StillOpen(DoAll(lockKey, s, steps[..|steps| - 1]), steps[|steps| - 1]))
  }

  /** Over every such interleaving: every captured hold names its own transaction, reversals are
      one-to-one with what they undo, and nothing once recorded or resolved changes. */
  lemma {:induction false} OpenRunsResolveOnce(lockKey: AccountId -> int, s: System, steps: seq<Step>)
    requires SerialInv(lockKey, s) && OpenRun(lockKey, s, steps)
    ensures SerialInv(lockKey, DoAll(lockKey, s, steps))
    ensures SerialRuns.SerialSound(DoAll(lockKey, s, steps).db) && SerialRuns.Grows(s.db, DoAll(lockKey, s, steps).db)
  {
    if steps == [] {
      SerialRuns.GrowsFromItself(s.db);
    } else {
      var front := steps[..|steps| - 1];
      OpenRunsResolveOnce(lockKey, s, front);
      StepKeepsSerial(lockKey, DoAll(lockKey, s, front), steps[|steps| - 1]);
      SerialRuns.GrowsIsTransitive(s.db, DoAll(lockKey, s, front).db, DoAll(lockKey, s, steps).db);
    }
  }
}
