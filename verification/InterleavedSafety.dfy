/** What survives every interleaving: the ledger stays consistent, whatever happens and whoever
    races whom. */
module InterleavedSafety {
  import opened Wrappers
  import opened Money
  import opened Tables
  import opened PostingEngine
  import opened Services
  import opened ServiceLaws
  import opened Funds
  import opened Interleaving
  import Outbox
  import SerialRuns

  // ----- What is known about a request in flight -----

  predicate SameTerms(h: Hold, k: Hold) {
    h.tenant == k.tenant && h.account == k.account && h.amount == k.amount && h.expiresAt == k.expiresAt
  }

  predicate OpSound(db: Ledger, tenant: string, op: Op) {
    match op
    case TransferOp(t) => Usable(db.accounts, tenant, t.source) && Usable(db.accounts, tenant, t.destination)
    case PlaceOp(p) => Usable(db.accounts, tenant, p.account)
    case CaptureOp(id, h, req) =>
      && HoldWellFormed(db.accounts, h) && h.tenant == tenant
      && CaptureRefusal(db.accounts, tenant, h, req).None?
      && id < |db.holds| && SameTerms(h, db.holds[id])
    case ReleaseOp(id) => id < |db.holds|
    case ReverseOp(_) => true
  }

  ghost predicate WritesSound(accounts: seq<Account>, r: Request, w: Writes) {
    && w.tenant == r.tenant
    && w.key == (if Keyed(r.op) then Some(r.key) else None)
    && (Keyed(r.op) ==> w.fingerprint == r.fingerprint)
    && WritesWellFormed(accounts, w)
    && match r.op
       case TransferOp(_) => w.holdChange.KeepHolds?
       case PlaceOp(p) =>
         w.entries == [] && w.holdChange.PlaceHold? && w.holdChange.hold.account == p.account && w.holdChange.hold.amount == p.amount
       case CaptureOp(id, h, req) =>
         && w.holdChange == MarkCaptured(id, CaptureAmount(h, req))
         && |w.entries| == 1 && w.entries[0].legs == TwoLegs(h.account, req.destination, CaptureAmount(h, req), w.at)
       case ReleaseOp(id) => w.entries == [] && w.holdChange == MarkReleased(id)
       case ReverseOp(_) => w.holdChange.KeepHolds?
  }

  ghost predicate RequestSound(db: Ledger, r: Request) {
    && r.began <= db.clock
    && OpSound(db, r.tenant, r.op)
    && (r.phase.Staged? ==> r.phase.writes.at <= db.clock && WritesSound(db.accounts, r, r.phase.writes))
  }

  predicate HoldsItsLock(lockKey: AccountId -> int, s: System, id: nat)
    requires id in s.requests
  {
    var r := s.requests[id];
    TakesLock(r.op) && r.phase != Admitted ==>
      lockKey(Source(r.op)) in s.locks && s.locks[lockKey(Source(r.op))] == id
  }

  ghost predicate Inv(lockKey: AccountId -> int, s: System) {
    && Valid(s.db)
    && (forall id | id in s.requests :: RequestSound(s.db, s.requests[id]))
    && (forall id | id in s.requests :: HoldsItsLock(lockKey, s, id))
  }

  // ----- The committed tables only move forward -----

  predicate Forward(db: Ledger, db': Ledger) {
    && db.accounts <= db'.accounts
    && |db.holds| <= |db'.holds|
    && (forall i | 0 <= i < |db.holds| :: SameTerms(db.holds[i], db'.holds[i]))
    && db.clock <= db'.clock
  }

  lemma WellPostedForward(accounts: seq<Account>, more: seq<Account>, tenant: string, entries: seq<Entry>)
    requires AllWellPosted(accounts, tenant, entries) && accounts <= more
    ensures AllWellPosted(more, tenant, entries)
  {
    forall e | e in entries ensures WellPosted(more, tenant, e.legs) {
      SerialRuns.WellPostedWiderChart(accounts, more, tenant, e.legs);
    }
  }

  lemma WritesSoundForward(accounts: seq<Account>, more: seq<Account>, r: Request, w: Writes)
    requires WritesSound(accounts, r, w) && accounts <= more
    ensures WritesSound(more, r, w)
  {
    WellPostedForward(accounts, more, w.tenant, w.entries);
  }

  lemma RequestSoundForward(db: Ledger, db': Ledger, r: Request)
    requires RequestSound(db, r) && Forward(db, db')
    ensures RequestSound(db', r)
  {
    if r.phase.Staged? {
      WritesSoundForward(db.accounts, db'.accounts, r, r.phase.writes);
    }
  }

  lemma CommitForward(db: Ledger, w: Writes)
    ensures Forward(db, Commit(db, w))
  {
    MovedFrame(db, w);
  }

  // ----- Staging -----

  lemma StagingIsSound(db: Ledger, r: Request)
    requires Valid(db) && RequestSound(db, r)
    ensures StagedWrites(db, r).Some? ==>
      WritesSound(db.accounts, r, StagedWrites(db, r).value) && StagedWrites(db, r).value.at == db.clock
  {
    if StagedWrites(db, r).Some? {
      match r.op
      case TransferOp(t) =>
        StagedTransferIsWellFormed(db, r.tenant, t, r.key, r.fingerprint, db.clock);
      case PlaceOp(p) =>
      case CaptureOp(id, h, req) => CaptureIsWellPosted(db, r.tenant, id, h, req, db.clock);
      case ReleaseOp(id) =>
      case ReverseOp(req) => StagedReversalIsWellFormed(db, r.tenant, req, r.key, r.fingerprint, db.clock);
    }
  }

  // ----- Soundness is kept by every step -----

  lemma DropKeepsInv(lockKey: AccountId -> int, s: System, id: nat)
    requires Inv(lockKey, s)
    ensures Inv(lockKey, Drop(s, id))
  {
    var s' := Drop(s, id);
    forall i | i in s'.requests ensures HoldsItsLock(lockKey, s', i) { assert HoldsItsLock(lockKey, s, i); }
  }

  lemma AdvanceKeepsInv(lockKey: AccountId -> int, s: System, id: nat, phase: Option<Phase>)
    requires Inv(lockKey, s) && id in s.requests
    requires s.requests[id].phase != Admitted || !TakesLock(s.requests[id].op)
    requires phase.Some? && phase.value.Staged? ==>
      phase.value.writes.at <= s.db.clock && WritesSound(s.db.accounts, s.requests[id].(phase := phase.value), phase.value.writes)
    ensures Inv(lockKey, Advance(s, id, phase))
  {
    if phase.None? {
      DropKeepsInv(lockKey, s, id);
    } else {
      var s' := Advance(s, id, phase);
      forall i | i in s'.requests ensures RequestSound(s'.db, s'.requests[i]) && HoldsItsLock(lockKey, s', i) {
        assert RequestSound(s.db, s.requests[i]) && HoldsItsLock(lockKey, s, i);
      }
    }
  }

  lemma AcquireKeepsInv(lockKey: AccountId -> int, s: System, id: nat)
    requires Inv(lockKey, s)
    ensures Inv(lockKey, Do(lockKey, s, Acquire(id)))
  {
    var s' := Do(lockKey, s, Acquire(id));
    if s' != s {
      forall i | i in s'.requests ensures RequestSound(s'.db, s'.requests[i]) && HoldsItsLock(lockKey, s', i) {
        assert RequestSound(s.db, s.requests[i]) && HoldsItsLock(lockKey, s, i);
      }
    }
  }

  lemma BeginKeepsInv(lockKey: AccountId -> int, s: System, step: Step)
    requires Inv(lockKey, s) && step.Begin?
    ensures Inv(lockKey, Do(lockKey, s, step))
  {
    var s' := Do(lockKey, s, step);
    if s' != s {
      if step.op.CaptureOp? { assert HoldWellFormed(s.db.accounts, s.db.holds[step.op.id]); }
      forall i | i in s'.requests ensures RequestSound(s'.db, s'.requests[i]) && HoldsItsLock(lockKey, s', i) {
        if i != step.id { assert RequestSound(s.db, s.requests[i]) && HoldsItsLock(lockKey, s, i); }
      }
    }
  }

  lemma StageKeepsInv(lockKey: AccountId -> int, s: System, id: nat)
    requires Inv(lockKey, s)
    ensures Inv(lockKey, Do(lockKey, s, Stage(id)))
  {
    if id in s.requests && ReadyToStage(s.requests[id]) {
      var r := s.requests[id];
      assert RequestSound(s.db, r);
      StagingIsSound(s.db, r);
      match StagedWrites(s.db, r)
      case None => DropKeepsInv(lockKey, s, id);
      case Some(w) =>
        assert WritesSound(s.db.accounts, r.(phase := Staged(w)), w);
        AdvanceKeepsInv(lockKey, s, id, Some(Staged(w)));
    }
  }

  lemma NewTablesKeepInv(lockKey: AccountId -> int, s: System, db': Ledger)
    requires Inv(lockKey, s)
    requires Valid(db') && Forward(s.db, db')
    ensures Inv(lockKey, s.(db := db'))
  {
    var s' := s.(db := db');
    forall i | i in s'.requests ensures RequestSound(db', s'.requests[i]) && HoldsItsLock(lockKey, s', i) {
      assert RequestSound(s.db, s.requests[i]) && HoldsItsLock(lockKey, s, i);
      RequestSoundForward(s.db, db', s.requests[i]);
    }
  }

  lemma CommitKeepsInv(lockKey: AccountId -> int, s: System, id: nat)
    requires Inv(lockKey, s)
    ensures Inv(lockKey, Do(lockKey, s, CommitRequest(id)))
  {
    if id in s.requests && s.requests[id].phase.Staged? {
      var w := s.requests[id].phase.writes;
      assert RequestSound(s.db, s.requests[id]);
      CommitKeepsValid(s.db, w);
      CommitForward(s.db, w);
      MovedFrame(s.db, w);
      DropKeepsInv(lockKey, s, id);
      NewTablesKeepInv(lockKey, Drop(s, id), Commit(s.db, w));
      InvIgnoresLog(lockKey, Drop(s, id).(db := Commit(s.db, w)), Do(lockKey, s, CommitRequest(id)).log);
    }
  }

  lemma InvIgnoresLog(lockKey: AccountId -> int, s: System, log: seq<Execution>)
    requires Inv(lockKey, s)
    ensures Inv(lockKey, s.(log := log))
  {
    forall i | i in s.requests ensures HoldsItsLock(lockKey, s.(log := log), i) { assert HoldsItsLock(lockKey, s, i); }
  }

  lemma InvIgnoresSweeps(lockKey: AccountId -> int, s: System, sweeps: map<nat, Instant>)
    requires Inv(lockKey, s)
    ensures Inv(lockKey, s.(sweeps := sweeps))
  {
    forall i | i in s.requests ensures HoldsItsLock(lockKey, s.(sweeps := sweeps), i) { assert HoldsItsLock(lockKey, s, i); }
  }

  lemma InvIgnoresBatches(lockKey: AccountId -> int, s: System, batches: map<nat, Batch>, delivered: seq<Event>)
    requires Inv(lockKey, s)
    ensures Inv(lockKey, s.(batches := batches, delivered := delivered))
  {
    var s' := s.(batches := batches, delivered := delivered);
    forall i | i in s.requests ensures HoldsItsLock(lockKey, s', i) { assert HoldsItsLock(lockKey, s, i); }
  }

  lemma MarkingKeepsValid(db: Ledger, b: Batch)
    requires Valid(db)
    ensures Valid(db.(events := Marked(db.events, b)))
  {
    Outbox.MarkingKeepsIds(db.events, Outbox.IdsOf(b.events), b.at);
    SerialRuns.RedispatchKeepsValid(db, db.(events := Marked(db.events, b)));
  }

  lemma MarkKeepsInv(lockKey: AccountId -> int, s: System, dispatcher: nat)
    requires Inv(lockKey, s)
    ensures Inv(lockKey, Do(lockKey, s, DispatchMark(dispatcher)))
  {
    if dispatcher in s.batches {
      var db' := s.db.(events := Marked(s.db.events, s.batches[dispatcher]));
      MarkingKeepsValid(s.db, s.batches[dispatcher]);
      NewTablesKeepInv(lockKey, s, db');
      InvIgnoresBatches(lockKey, s.(db := db'), s.batches - {dispatcher}, s.delivered);
    }
  }

  predicate ChangesTablesOnly(step: Step) {
    step.OpenStep? || step.QuoteStep? || step.TickStep?
  }

  lemma TableStepKeepsInv(lockKey: AccountId -> int, s: System, step: Step)
    requires Inv(lockKey, s) && ChangesTablesOnly(step)
    ensures Inv(lockKey, Do(lockKey, s, step))
  {
    var db' := Do(lockKey, s, step).db;
    match step {
      case OpenStep(tenant, path, currency) => SerialRuns.OpenKeepsValid(s.db, tenant, path, currency);
      case _ => SerialRuns.BookkeepingKeepsValid(s.db, db');
    }
    NewTablesKeepInv(lockKey, s, db');
  }

  lemma SweepKeepsInv(lockKey: AccountId -> int, s: System, sweep: nat)
    requires Inv(lockKey, s)
    ensures Inv(lockKey, Do(lockKey, s, SweepDelete(sweep)))
  {
    if sweep in s.sweeps {
      var db' := s.db.(records := Unswept(s.db.records, s.sweeps[sweep]));
      SerialRuns.BookkeepingKeepsValid(s.db, db');
      NewTablesKeepInv(lockKey, s, db');
      InvIgnoresSweeps(lockKey, s.(db := db'), s.sweeps - {sweep});
    }
  }

  lemma StepKeepsInv(lockKey: AccountId -> int, s: System, step: Step)
    requires Inv(lockKey, s)
    ensures Inv(lockKey, Do(lockKey, s, step))
  {
    match step
    case Begin(_, _, _, _, _) => BeginKeepsInv(lockKey, s, step);
    case Acquire(id) => AcquireKeepsInv(lockKey, s, id);
    case ReadPosted(id) =>
      if id in s.requests && s.requests[id].phase == Locked && TakesLock(s.requests[id].op) {
        AdvanceKeepsInv(lockKey, s, id, AfterPosted(s.db, s.requests[id]));
      }
    case ReadHeld(id) =>
      if Do(lockKey, s, step) != s {
        AdvanceKeepsInv(lockKey, s, id, None);
        AdvanceKeepsInv(lockKey, s, id, Some(Cleared));
      }
    case Stage(id) => StageKeepsInv(lockKey, s, id);
    case CommitRequest(id) => CommitKeepsInv(lockKey, s, id);
    case Crash(id) => DropKeepsInv(lockKey, s, id);
    case SweepBegin(sweep, minAge) => InvIgnoresSweeps(lockKey, s, s.sweeps[sweep := s.db.clock - minAge]);
    case SweepDelete(sweep) => SweepKeepsInv(lockKey, s, sweep);
    case DispatchRead(_, _, _) => InvIgnoresBatches(lockKey, s, Do(lockKey, s, step).batches, Do(lockKey, s, step).delivered);
    case DispatchMark(dispatcher) => MarkKeepsInv(lockKey, s, dispatcher);
    case DispatcherCrash(dispatcher) => InvIgnoresBatches(lockKey, s, s.batches - {dispatcher}, s.delivered);
    case _ => TableStepKeepsInv(lockKey, s, step);
  }

  // ----- What a step leaves alone -----

  /** A commit lands all of its writes or none, and other requests stay as they are. */
  lemma CommitLandsOrRollsBack(lockKey: AccountId -> int, s: System, id: nat)
    ensures var s', commit := Do(lockKey, s, CommitRequest(id)), CommitRequest(id);
      && s'.db == (if GoesThrough(s, commit) then Commit(s.db, s.requests[id].phase.writes) else s.db)
      && s'.requests.Keys <= s.requests.Keys && forall i <- s'.requests :: s'.requests[i] == s.requests[i]
  {
  }


  /** Other steps change no transaction and no hold, and events only in status. */
  lemma OtherStepGrows(lockKey: AccountId -> int, s: System, step: Step)
    requires !step.CommitRequest?
    ensures var s' := Do(lockKey, s, step);
      && SerialRuns.Grows(s.db, s'.db) && s'.db.txns == s.db.txns && s'.db.holds == s.db.holds
      && SerialRuns.SameEvents(s.db.events, s'.db.events)
  {
    SerialRuns.GrowsFromItself(s.db);
  }

  lemma OtherStepStagesNothing(lockKey: AccountId -> int, s: System, step: Step, id: nat)
    requires !step.CommitRequest? && !step.Stage?
    requires id in Do(lockKey, s, step).requests && Do(lockKey, s, step).requests[id].phase.Staged?
    ensures id in s.requests && s.requests[id] == Do(lockKey, s, step).requests[id]
  {
  }

  // ----- Locks are let go -----

  /** Every lock taken is held by a request in flight that needs it. */
  predicate NoLockLeaks(lockKey: AccountId -> int, s: System) {
    forall k <- s.locks ::
      && s.locks[k] in s.requests
      && TakesLock(s.requests[s.locks[k]].op) && lockKey(Source(s.requests[s.locks[k]].op)) == k
  }

  lemma DropLeaksNoLock(lockKey: AccountId -> int, s: System, id: nat)
    requires NoLockLeaks(lockKey, s)
    ensures NoLockLeaks(lockKey, Drop(s, id))
  {
  }

  lemma AdvanceLeaksNoLock(lockKey: AccountId -> int, s: System, id: nat, phase: Option<Phase>)
    requires NoLockLeaks(lockKey, s) && id in s.requests
    ensures NoLockLeaks(lockKey, Advance(s, id, phase))
  {
    if phase.None? { DropLeaksNoLock(lockKey, s, id); }
  }

  lemma CommitLeaksNoLock(lockKey: AccountId -> int, s: System, id: nat)
    requires NoLockLeaks(lockKey, s)
    ensures NoLockLeaks(lockKey, Do(lockKey, s, CommitRequest(id)))
  {
    DropLeaksNoLock(lockKey, s, id);
    if id in s.requests && s.requests[id].phase.Staged? {
      assert Do(lockKey, s, CommitRequest(id)).requests == Drop(s, id).requests;
      assert Do(lockKey, s, CommitRequest(id)).locks == Drop(s, id).locks;
    }
  }

  /** Steps that end no request and commit nothing. */
  lemma OthersLeakNoLock(lockKey: AccountId -> int, s: System, step: Step)
    requires NoLockLeaks(lockKey, s)
    requires !step.ReadPosted? && !step.ReadHeld? && !step.Stage? && !step.CommitRequest? && !step.Crash?
    ensures NoLockLeaks(lockKey, Do(lockKey, s, step))
  {
  }

  lemma StepLeaksNoLock(lockKey: AccountId -> int, s: System, step: Step)
    requires NoLockLeaks(lockKey, s)
    ensures NoLockLeaks(lockKey, Do(lockKey, s, step))
  {
    match step
    case ReadPosted(id) =>
      if Do(lockKey, s, step) != s { AdvanceLeaksNoLock(lockKey, s, id, AfterPosted(s.db, s.requests[id])); }
    case ReadHeld(id) =>
      if Do(lockKey, s, step) != s {
        AdvanceLeaksNoLock(lockKey, s, id, None);
        AdvanceLeaksNoLock(lockKey, s, id, Some(Cleared));
      }
    case Stage(id) =>
      if id in s.requests {
        DropLeaksNoLock(lockKey, s, id);
        if StagedWrites(s.db, s.requests[id]).Some? {
          AdvanceLeaksNoLock(lockKey, s, id, Some(Staged(StagedWrites(s.db, s.requests[id]).value)));
        }
      }
    case CommitRequest(id) => CommitLeaksNoLock(lockKey, s, id);
    case Crash(id) => DropLeaksNoLock(lockKey, s, id);
    case _ => OthersLeakNoLock(lockKey, s, step);
  }

  /** However requests end, in a commit, a failed check, a used key or a crash, their locks go with them:
      a lock is taken exactly by those in flight that are past taking it. */
  lemma {:induction false} NoInterleavingLeaksALock(lockKey: AccountId -> int, s: System, steps: seq<Step>)
    requires NoLockLeaks(lockKey, s)
    ensures NoLockLeaks(lockKey, DoAll(lockKey, s, steps))
    ensures DoAll(lockKey, s, steps).requests == map[] ==> DoAll(lockKey, s, steps).locks == map[]
  {
    if steps == [] {
    } else {
      NoInterleavingLeaksALock(lockKey, s, steps[..|steps| - 1]);
      StepLeaksNoLock(lockKey, DoAll(lockKey, s, steps[..|steps| - 1]), steps[|steps| - 1]);
    }
    var end := DoAll(lockKey, s, steps);
    if end.requests == map[] { assert forall k :: k !in end.locks; }
  }

  // ----- Every run -----

  /** Under every interleaving, crash, sweep and race of captures or reversals, the committed
      ledger stays valid: snapshots equal their postings and every transaction balances. */
  lemma {:induction false} EveryInterleavingKeepsTheLedgerValid(lockKey: AccountId -> int, s: System, steps: seq<Step>)
    requires Inv(lockKey, s)
    ensures Inv(lockKey, DoAll(lockKey, s, steps)) && Valid(DoAll(lockKey, s, steps).db)
  {
    if steps == [] {
    } else {
      var front := steps[..|steps| - 1];
      EveryInterleavingKeepsTheLedgerValid(lockKey, s, front);
      StepKeepsInv(lockKey, DoAll(lockKey, s, front), steps[|steps| - 1]);
    }
  }
}
