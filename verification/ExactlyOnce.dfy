/** Idempotency keys across every interleaving, crash and sweep: a key executes again only once its
    earlier record was old enough to be swept, and until then every retry replays it. */
module ExactlyOnce {
  import opened Wrappers
  import opened Tables
  import opened Services
  import opened ServiceLaws
  import opened Interleaving
  import opened InterleavedSafety
  import PostingEngine
  import SerialRuns
  import ServedAlone

  /** While a record may not be swept it is there, and says what its execution answered. */
  predicate Remembered(s: System, e: Execution, minAge: nat) {
    s.db.clock <= e.createdAt + minAge ==>
      e.key in s.db.records && s.db.records[e.key] == Record(e.fingerprint, e.response, e.createdAt)
  }

  predicate Spaced(earlier: Execution, later: Execution, minAge: nat) {
    earlier.key == later.key ==> later.committedAt > earlier.createdAt + minAge
  }

  /** Every sweep in flight only reaches records at least `minAge` old. */
  predicate SweepsRespect(s: System, minAge: nat) {
    forall k <- s.sweeps :: s.sweeps[k] <= s.db.clock - minAge
  }

  predicate StagedInThePast(s: System) {
    forall id <- s.requests :: s.requests[id].phase.Staged? ==> s.requests[id].phase.writes.at <= s.db.clock
  }

  ghost predicate OnceInv(s: System, minAge: nat) {
    && (forall i | 0 <= i < |s.log| :: Remembered(s, s.log[i], minAge))
    && (forall i | 0 <= i < |s.log| :: s.log[i].createdAt <= s.log[i].committedAt <= s.db.clock)
    && (forall i, j | 0 <= i < j < |s.log| :: Spaced(s.log[i], s.log[j], minAge))
    && SweepsRespect(s, minAge)
    && StagedInThePast(s)
  }

  predicate SweepsAreOldEnough(minAge: nat, step: Step) {
    step.SweepBegin? ==> step.minAge >= minAge
  }

  lemma CommitInsertsOnlyItsKey(db: Ledger, w: Writes)
    ensures Commit(db, w).clock == db.clock
    ensures w.key.None? ==> Commit(db, w).records == db.records
    ensures w.key.Some? ==> Commit(db, w).records == db.records[w.key.value :=
      Record(w.fingerprint, ResponseFor(db, Moved(db, w), w), w.at)]
  {
    MovedFrame(db, w);
  }

  /** Between these states one execution was logged, and no other key's record changed. */
  predicate Executes(s: System, s': System, e: Execution) {
    && s'.log == s.log + [e] && s'.db.clock == s.db.clock && s'.sweeps == s.sweeps
    && e.key !in s.db.records && s'.db.records == s.db.records[e.key := Record(e.fingerprint, e.response, e.createdAt)]
    && e.createdAt <= e.committedAt == s.db.clock
  }

  lemma ExecutionKeepsOnce(s: System, s': System, e: Execution, minAge: nat)
    requires OnceInv(s, minAge) && Executes(s, s', e) && StagedInThePast(s')
    ensures OnceInv(s', minAge)
  {
    forall i | 0 <= i < |s.log| ensures Remembered(s', s.log[i], minAge) && Spaced(s.log[i], e, minAge) {
      assert Remembered(s, s.log[i], minAge);
    }
    forall i, j | 0 <= i < j < |s'.log| ensures Spaced(s'.log[i], s'.log[j], minAge) {
      if j < |s.log| { assert Spaced(s.log[i], s.log[j], minAge); }
    }
  }

  lemma CommitIsLogged(lockKey: AccountId -> int, s: System, id: nat)
    requires GoesThrough(s, CommitRequest(id)) && StagedInThePast(s)
    ensures var s', w := Do(lockKey, s, CommitRequest(id)), s.requests[id].phase.writes;
      if w.key.None? then s'.log == s.log && s'.db.records == s.db.records && s'.db.clock == s.db.clock && s'.sweeps == s.sweeps
      else Executes(s, s', Execution(w.key.value, w.fingerprint, ResponseFor(s.db, Moved(s.db, w), w), w.at, s.db.clock))
  {
    CommitInsertsOnlyItsKey(s.db, s.requests[id].phase.writes);
  }

  lemma CommitKeepsOnce(lockKey: AccountId -> int, s: System, id: nat, minAge: nat)
    requires OnceInv(s, minAge)
    ensures OnceInv(Do(lockKey, s, CommitRequest(id)), minAge)
  {
    var s', commit := Do(lockKey, s, CommitRequest(id)), CommitRequest(id);
    CommitLandsOrRollsBack(lockKey, s, id);
    if GoesThrough(s, commit) {
      MovedFrame(s.db, s.requests[id].phase.writes);
      CommitIsLogged(lockKey, s, id);
    }
    if GoesThrough(s, commit) && s.requests[id].phase.writes.key.Some? {
      ExecutionKeepsOnce(s, s', s'.log[|s.log|], minAge);
    } else {
      QuietStepKeepsOnce(s, s', minAge);
    }
  }

  lemma SweepKeepsOnce(lockKey: AccountId -> int, s: System, sweep: nat, minAge: nat)
    requires OnceInv(s, minAge)
    ensures OnceInv(Do(lockKey, s, SweepDelete(sweep)), minAge)
  {
    var s' := Do(lockKey, s, SweepDelete(sweep));
    forall i | 0 <= i < |s'.log| ensures Remembered(s', s'.log[i], minAge) {
      assert Remembered(s, s.log[i], minAge);
    }
  }

  /** Steps that leave records and log alone and do not turn back the clock. */
  lemma QuietStepKeepsOnce(s: System, s': System, minAge: nat)
    requires OnceInv(s, minAge)
    requires s'.log == s.log && s'.db.records == s.db.records && s'.db.clock >= s.db.clock
    requires SweepsRespect(s', minAge) && StagedInThePast(s')
    ensures OnceInv(s', minAge)
  {
    forall i | 0 <= i < |s'.log| ensures Remembered(s', s'.log[i], minAge) {
      assert Remembered(s, s.log[i], minAge);
    }
  }

  lemma StagingIsNow(db: Ledger, r: Request)
    ensures StagedWrites(db, r).Some? ==> StagedWrites(db, r).value.at == db.clock
  {
  }

  lemma OtherStepsLeaveTheLog(lockKey: AccountId -> int, s: System, step: Step)
    requires !step.CommitRequest? && !step.SweepDelete?
    ensures var s' := Do(lockKey, s, step);
      s'.log == s.log && s'.db.records == s.db.records && s'.db.clock >= s.db.clock
  {
  }

  lemma OtherStepsLeaveTheSweeps(lockKey: AccountId -> int, s: System, step: Step)
    requires !step.CommitRequest? && !step.SweepBegin? && !step.SweepDelete?
    ensures Do(lockKey, s, step).sweeps == s.sweeps
  {
  }

  lemma StagingKeepsStagedInThePast(lockKey: AccountId -> int, s: System, id: nat)
    requires StagedInThePast(s)
    ensures StagedInThePast(Do(lockKey, s, Stage(id)))
  {
    if id in s.requests { StagingIsNow(s.db, s.requests[id]); }
  }

  lemma OtherStepsKeepStagedInThePast(lockKey: AccountId -> int, s: System, step: Step)
    requires !step.CommitRequest? && !step.Stage? && StagedInThePast(s) && s.db.clock <= Do(lockKey, s, step).db.clock
    ensures StagedInThePast(Do(lockKey, s, step))
  {
    var s' := Do(lockKey, s, step);
    forall id | id in s'.requests && s'.requests[id].phase.Staged? ensures s'.requests[id].phase.writes.at <= s'.db.clock {
      OtherStepStagesNothing(lockKey, s, step, id);
    }
  }

  /** Every step but a commit or a deletion is quiet. */
  lemma OtherStepsAreQuiet(lockKey: AccountId -> int, s: System, step: Step, minAge: nat)
    requires !step.CommitRequest? && !step.SweepDelete? && SweepsAreOldEnough(minAge, step)
    requires SweepsRespect(s, minAge) && StagedInThePast(s)
    ensures var s' := Do(lockKey, s, step);
      && s'.log == s.log && s'.db.records == s.db.records && s'.db.clock >= s.db.clock
      && SweepsRespect(s', minAge) && StagedInThePast(s')
  {
    OtherStepsLeaveTheLog(lockKey, s, step);
    if !step.SweepBegin? { OtherStepsLeaveTheSweeps(lockKey, s, step); }
    match step
    case Stage(id) => StagingKeepsStagedInThePast(lockKey, s, id);
    case _ => OtherStepsKeepStagedInThePast(lockKey, s, step);
  }

  lemma StepKeepsOnce(lockKey: AccountId -> int, s: System, step: Step, minAge: nat)
    requires OnceInv(s, minAge) && SweepsAreOldEnough(minAge, step)
    ensures OnceInv(Do(lockKey, s, step), minAge)
  {
    match step
    case CommitRequest(id) => CommitKeepsOnce(lockKey, s, id, minAge);
    case SweepDelete(sweep) => SweepKeepsOnce(lockKey, s, sweep, minAge);
    case _ =>
      OtherStepsAreQuiet(lockKey, s, step, minAge);
      QuietStepKeepsOnce(s, Do(lockKey, s, step), minAge);
  }

  predicate AllOldEnough(minAge: nat, steps: seq<Step>) {
    forall step <- steps :: SweepsAreOldEnough(minAge, step)
  }

  lemma {:induction false} RunKeepsOnce(lockKey: AccountId -> int, s: System, steps: seq<Step>, minAge: nat)
    requires OnceInv(s, minAge) && AllOldEnough(minAge, steps)
    ensures OnceInv(DoAll(lockKey, s, steps), minAge)
  {
    if steps == [] {
    } else {
      RunKeepsOnce(lockKey, s, steps[..|steps| - 1], minAge);
      StepKeepsOnce(lockKey, DoAll(lockKey, s, steps[..|steps| - 1]), steps[|steps| - 1], minAge);
    }
  }

  /** Looking the key up replays that execution's response, or conflicts if the request differs. */
  ghost predicate Answers(records: map<Key, Record>, e: Execution) {
    forall fp: int :: Lookup(records, e.key, fp) == (if fp == e.fingerprint then Hit(e.response) else Conflict)
  }

  /** From any idle start, over any interleaving: a key that committed twice committed the second
      time more than `minAge` after the first record was written; and as long as a record is no
      older than that, the same request is answered with the first response, a different one under
      that key conflicts, and neither gets as far as being admitted. */
  lemma KeysExecuteOnce(lockKey: AccountId -> int, s: System, steps: seq<Step>, minAge: nat)
    requires Idle(s) && AllOldEnough(minAge, steps)
    ensures var end := DoAll(lockKey, s, steps);
      && (forall i, j | 0 <= i < j < |end.log| && end.log[i].key == end.log[j].key ::
            end.log[j].committedAt > end.log[i].createdAt + minAge)
      && (forall i | 0 <= i < |end.log| && end.db.clock <= end.log[i].createdAt + minAge ::
            Answers(end.db.records, end.log[i]))
  {
    RunKeepsOnce(lockKey, s, steps, minAge);
    var end := DoAll(lockKey, s, steps);
    forall i, j | 0 <= i < j < |end.log| && end.log[i].key == end.log[j].key
      ensures end.log[j].committedAt > end.log[i].createdAt + minAge
    {
      assert Spaced(end.log[i], end.log[j], minAge);
    }
    forall i | 0 <= i < |end.log| && end.db.clock <= end.log[i].createdAt + minAge
      ensures Answers(end.db.records, end.log[i])
    {
      assert Remembered(end, end.log[i], minAge);
    }
  }

  /** If no request takes longer than `latency` from writing its record to committing, executions
      of one key are themselves more than `minAge - latency` apart. */
  lemma ExecutionsAreApart(lockKey: AccountId -> int, s: System, steps: seq<Step>, minAge: nat, latency: nat, i: nat, j: nat)
    requires Idle(s) && AllOldEnough(minAge, steps)
    requires i < j < |DoAll(lockKey, s, steps).log|
    requires DoAll(lockKey, s, steps).log[i].key == DoAll(lockKey, s, steps).log[j].key
    requires var e := DoAll(lockKey, s, steps).log[i]; e.committedAt - e.createdAt <= latency
    ensures DoAll(lockKey, s, steps).log[j].committedAt - DoAll(lockKey, s, steps).log[i].committedAt > minAge - latency
  {
    KeysExecuteOnce(lockKey, s, steps, minAge);
  }

  // ----- The bound is attained -----

  /** A reversal that commits `latency` after it wrote its record. */
  function SlowRequest(tenant: string, req: ReverseRequest, key: string, latency: nat): seq<Step> {
    [Begin(1, tenant, ReverseOp(req), key, 0), Stage(1), TickStep(latency)]
  }

  /** It commits, its record comes of age, and a sweep takes it. */
  function SweptRequest(tenant: string, req: ReverseRequest, key: string, minAge: nat, latency: nat): seq<Step>
    requires latency <= minAge + 1
  {
    SlowRequest(tenant, req, key, latency)
    + [CommitRequest(1), TickStep(minAge + 1 - latency), SweepBegin(0, minAge)]
  }

  /** Then the key is used again. */
  function ReusedKey(tenant: string, req: ReverseRequest, again: ReverseRequest, key: string, minAge: nat, latency: nat): seq<Step>
    requires latency <= minAge + 1
  {
    SweptRequest(tenant, req, key, minAge, latency)
    + [SweepDelete(0)] + [Begin(2, tenant, ReverseOp(again), key, 0), Stage(2), CommitRequest(2)]
  }

  function ReversalStaged(db: Ledger, tenant: string, req: ReverseRequest, key: string): Writes {
    ReverseWrites(db, tenant, req, Key(tenant, REVERSALS, key), 0, db.clock)
  }

  function Later(s: System, elapsed: nat): System {
    s.(db := s.db.(clock := s.db.clock + elapsed))
  }

  lemma SlowRequestStages(lockKey: AccountId -> int, s: System, tenant: string, req: ReverseRequest, key: string, latency: nat)
    requires ServedAlone.Quiet(s) && Key(tenant, REVERSALS, key) !in s.db.records && ReverseRefusal(s.db, tenant, req.txn).None?
    ensures DoAll(lockKey, s, SlowRequest(tenant, req, key, latency))
      == ServedAlone.InFlight(Later(s, latency), 1,
           Request(tenant, ReverseOp(req), Key(tenant, REVERSALS, key), 0, s.db.clock, Staged(ReversalStaged(s.db, tenant, req, key))))
  {
    var r := Request(tenant, ReverseOp(req), Key(tenant, REVERSALS, key), 0, s.db.clock, Admitted);
    var steps := SlowRequest(tenant, req, key, latency);
    ServedAlone.DoThree(lockKey, s, [], steps[0], steps[1], steps[2]);
    assert [] + [steps[0], steps[1], steps[2]] == steps;
    ServedAlone.BeginAlone(lockKey, s, 1, tenant, ReverseOp(req), key, 0);
    ServedAlone.StageAlone(lockKey, s, 1, r);
    TickInFlight(lockKey, s, r.(phase := Staged(ReversalStaged(s.db, tenant, req, key))), latency);
  }

  lemma TickInFlight(lockKey: AccountId -> int, s: System, r: Request, elapsed: nat)
    ensures Do(lockKey, ServedAlone.InFlight(s, 1, r), TickStep(elapsed)) == ServedAlone.InFlight(Later(s, elapsed), 1, r)
  {
  }

  /** After the first reversal committed, another transaction can still be reversed. */
  lemma OthersStayReversible(db: Ledger, w: Writes, tenant: string, txn: TxnId)
    requires ReverseRefusal(db, tenant, txn).None? && |w.entries| == 1 && w.entries[0].corrects != Some(txn)
    ensures ReverseRefusal(Commit(db, w), tenant, txn).None?
  {
    var db' := Commit(db, w);
    MovedFrame(db, w);
    PostingEngine.PostAllFrame(db, w.tenant, w.at, w.entries);
    SerialRuns.PostAllAppends(db, w.tenant, w.at, w.entries);
    assert db'.txns[|db.txns| + 0].corrects == w.entries[0].corrects;
    assert db'.txns == db.txns + [db'.txns[|db.txns|]];
    var added := db'.postings[|db.postings|..];
    assert db'.postings == db.postings + added;
    PostingsOfConcat(db.postings, added, txn);
  }

  /** The first execution is committed `latency` after its record was written, and its record is gone. */
  lemma SweptRequestCommits(lockKey: AccountId -> int, s: System, tenant: string, req: ReverseRequest, key: string, minAge: nat, latency: nat)
    requires Idle(s) && latency <= minAge + 1
    requires Key(tenant, REVERSALS, key) !in s.db.records && ReverseRefusal(s.db, tenant, req.txn).None?
    ensures var k, w, t := Key(tenant, REVERSALS, key), ReversalStaged(s.db, tenant, req, key), s.db.clock;
      var end := Do(lockKey, DoAll(lockKey, s, SweptRequest(tenant, req, key, minAge, latency)), SweepDelete(0));
      && ServedAlone.Quiet(end) && |end.log| == 1
      && end.log[0].key == k && end.log[0].createdAt == t && end.log[0].committedAt == t + latency
      && end.db.clock == t + minAge + 1 && k !in end.db.records
      && end.db.txns == Commit(Later(s, latency).db, w).txns && end.db.postings == Commit(Later(s, latency).db, w).postings
  {
    var k, w := Key(tenant, REVERSALS, key), ReversalStaged(s.db, tenant, req, key);
    var r := Request(tenant, ReverseOp(req), k, 0, s.db.clock, Staged(w));
    var first, late := SlowRequest(tenant, req, key, latency), Later(s, latency);
    SlowRequestStages(lockKey, s, tenant, req, key, latency);
    ServedAlone.DoThree(lockKey, s, first, CommitRequest(1), TickStep(minAge + 1 - latency), SweepBegin(0, minAge));
    ServedAlone.CommitAlone(lockKey, late, 1, r);
    LandedComesOfAge(lockKey, late, w, k, minAge, latency);
  }

  /** What landed is old enough for the sweep that follows. */
  lemma LandedComesOfAge(lockKey: AccountId -> int, late: System, w: Writes, k: Key, minAge: nat, latency: nat)
    requires Idle(late) && latency <= minAge + 1 && w.key == Some(k) && w.at == late.db.clock - latency
    ensures var aged := Do(lockKey, ServedAlone.Landed(late, w), TickStep(minAge + 1 - latency));
      var end := Do(lockKey, Do(lockKey, aged, SweepBegin(0, minAge)), SweepDelete(0));
      && ServedAlone.Quiet(end) && |end.log| == 1
      && end.log[0].key == k && end.log[0].createdAt == w.at && end.log[0].committedAt == late.db.clock
      && end.db.clock == w.at + minAge + 1 && k !in end.db.records
      && end.db.txns == Commit(late.db, w).txns && end.db.postings == Commit(late.db, w).postings
  {
    MovedFrame(late.db, w);
  }

  lemma RefusalReadsTwoTables(db: Ledger, db': Ledger, tenant: string, txn: TxnId)
    requires db'.txns == db.txns && db'.postings == db.postings
    ensures ReverseRefusal(db', tenant, txn) == ReverseRefusal(db, tenant, txn)
  {
  }

  lemma ReuseSweepsLate(tenant: string, req: ReverseRequest, again: ReverseRequest, key: string, minAge: nat, latency: nat)
    requires latency <= minAge + 1
    ensures AllOldEnough(minAge, ReusedKey(tenant, req, again, key, minAge, latency))
  {
  }

  /** Commits of one key can be as little as `minAge + 1 - latency` apart: what is kept apart is the
      second commit and the first record. */
  lemma SeparationIsAttained(lockKey: AccountId -> int, s: System, tenant: string, req: ReverseRequest, again: ReverseRequest,
      key: string, minAge: nat, latency: nat)
    requires Idle(s) && latency <= minAge + 1 && req.txn != again.txn
    requires Key(tenant, REVERSALS, key) !in s.db.records
    requires ReverseRefusal(s.db, tenant, req.txn).None? && ReverseRefusal(s.db, tenant, again.txn).None?
    ensures AllOldEnough(minAge, ReusedKey(tenant, req, again, key, minAge, latency))
    ensures var log := DoAll(lockKey, s, ReusedKey(tenant, req, again, key, minAge, latency)).log;
      && |log| == 2 && log[0].key == log[1].key && log[0].committedAt - log[0].createdAt == latency
      && log[1].committedAt - log[0].committedAt == minAge + 1 - latency
  {
    var first, sweep := SweptRequest(tenant, req, key, minAge, latency), [SweepDelete(0)];
    ReuseSweepsLate(tenant, req, again, key, minAge, latency);
    var swept := Do(lockKey, DoAll(lockKey, s, first), SweepDelete(0));
    SweptRequestCommits(lockKey, s, tenant, req, key, minAge, latency);
    OthersStayReversible(Later(s, latency).db, ReversalStaged(s.db, tenant, req, key), tenant, again.txn);
    RefusalReadsTwoTables(Commit(Later(s, latency).db, ReversalStaged(s.db, tenant, req, key)), swept.db, tenant, again.txn);
    DoOneMore(lockKey, s, first, SweepDelete(0));
    ServedAlone.DoThree(lockKey, s, first + sweep, Begin(2, tenant, ReverseOp(again), key, 0), Stage(2), CommitRequest(2));
    SecondReversalLands(lockKey, swept, tenant, again, key);
  }

  lemma SecondReversalLands(lockKey: AccountId -> int, s: System, tenant: string, req: ReverseRequest, key: string)
    requires ServedAlone.Quiet(s) && Key(tenant, REVERSALS, key) !in s.db.records && ReverseRefusal(s.db, tenant, req.txn).None?
    ensures var end := Do(lockKey, Do(lockKey, Do(lockKey, s, Begin(2, tenant, ReverseOp(req), key, 0)), Stage(2)), CommitRequest(2));
      && |end.log| == |s.log| + 1 && end.log[..|s.log|] == s.log
      && end.log[|s.log|].key == Key(tenant, REVERSALS, key) && end.log[|s.log|].committedAt == s.db.clock
  {
    var r := Request(tenant, ReverseOp(req), Key(tenant, REVERSALS, key), 0, s.db.clock, Admitted);
    ServedAlone.BeginAlone(lockKey, s, 2, tenant, ReverseOp(req), key, 0);
    ServedAlone.LandedAlone(lockKey, s, 2, r);
  }
}
