/** A request served with nothing in between: its statements, run one by one, come to exactly what
    its service function says. So everything proved of interleavings holds of the services, and a
    serial service call is one of the interleavings. */
module ServedAlone {
  import opened Wrappers
  import opened Money
  import opened Tables
  import opened PostingEngine
  import opened Services
  import opened ServiceLaws
  import opened Interleaving
  import Ordering
  import Outbox
  import Rates
  import SerialRuns

  // ----- One statement at a time -----

  predicate Quiet(s: System) {
    s.requests == map[] && s.locks == map[]
  }

  /** `r` is the only request in flight. */
  function InFlight(s: System, id: nat, r: Request): System {
    s.(requests := map[id := r])
  }

  /** It holds its lock as well. */
  function Holding(lockKey: AccountId -> int, s: System, id: nat, r: Request): System
    requires TakesLock(r.op)
  {
    s.(requests := map[id := r], locks := map[lockKey(Source(r.op)) := id])
  }

  function Flying(lockKey: AccountId -> int, s: System, id: nat, r: Request): System {
    if TakesLock(r.op) then Holding(lockKey, s, id, r) else InFlight(s, id, r)
  }

  /** The rows and the log entry of a request that committed `w`. */
  function Landed(s: System, w: Writes): System {
    var db' := Commit(s.db, w);
    match w.key
    case None => s.(db := db')
    case Some(k) =>
      s.(db := db', log := s.log + [Execution(k, w.fingerprint, ResponseFor(s.db, Moved(s.db, w), w), w.at, s.db.clock)])
  }

  predicate IsStatement(step: Step) {
    step.Acquire? || step.ReadPosted? || step.ReadHeld? || step.Stage? || step.CommitRequest?
  }

  lemma NothingInFlight(lockKey: AccountId -> int, s: System, step: Step)
    requires Quiet(s) && IsStatement(step)
    ensures Do(lockKey, s, step) == s
  {
  }

  lemma BeginAlone(lockKey: AccountId -> int, s: System, id: nat, tenant: string, op: Op, key: string, fp: int)
    requires Quiet(s)
    ensures var k := Key(tenant, Endpoint(op), key);
      Do(lockKey, s, Begin(id, tenant, op, key, fp))
        == if Admits(s.db, tenant, op, k, fp) then InFlight(s, id, Request(tenant, op, k, fp, s.db.clock, Admitted)) else s
  {
  }

  lemma AcquireAlone(lockKey: AccountId -> int, s: System, id: nat, r: Request)
    requires Quiet(s) && TakesLock(r.op) && r.phase == Admitted
    ensures Do(lockKey, InFlight(s, id, r), Acquire(id)) == Holding(lockKey, s, id, r.(phase := Locked))
  {
  }

  lemma DropAlone(lockKey: AccountId -> int, s: System, id: nat, r: Request)
    requires Quiet(s)
    ensures Drop(Flying(lockKey, s, id, r), id) == s
  {
    var dropped := Drop(Flying(lockKey, s, id, r), id);
    assert dropped.requests == map[] && dropped.locks == map[];
  }

  lemma ReadPostedAlone(lockKey: AccountId -> int, s: System, id: nat, r: Request)
    requires Quiet(s) && TakesLock(r.op) && r.phase == Locked
    ensures Do(lockKey, Holding(lockKey, s, id, r), ReadPosted(id))
      == match AfterPosted(s.db, r)
         case None => s
         case Some(p) => Holding(lockKey, s, id, r.(phase := p))
  {
    DropAlone(lockKey, s, id, r);
  }

  lemma ReadHeldAlone(lockKey: AccountId -> int, s: System, id: nat, r: Request)
    requires Quiet(s) && (r.op.TransferOp? || r.op.PlaceOp?) && r.phase.PostedRead?
    ensures Do(lockKey, Holding(lockKey, s, id, r), ReadHeld(id))
      == if r.phase.posted - HeldTotal(s.db.holds, r.tenant, Source(r.op), r.began) < Amount(r.op) then s
         else Holding(lockKey, s, id, r.(phase := Cleared))
  {
    DropAlone(lockKey, s, id, r);
  }

  lemma StageAlone(lockKey: AccountId -> int, s: System, id: nat, r: Request)
    requires Quiet(s) && ReadyToStage(r)
    ensures Do(lockKey, Flying(lockKey, s, id, r), Stage(id))
      == match StagedWrites(s.db, r)
         case None => s
         case Some(w) => Flying(lockKey, s, id, r.(phase := Staged(w)))
  {
    DropAlone(lockKey, s, id, r);
  }

  lemma CommitAlone(lockKey: AccountId -> int, s: System, id: nat, r: Request)
    requires Quiet(s) && r.phase.Staged?
    requires r.phase.writes.key.Some? ==> r.phase.writes.key.value !in s.db.records
    ensures Do(lockKey, Flying(lockKey, s, id, r), CommitRequest(id)) == Landed(s, r.phase.writes)
  {
    DropAlone(lockKey, s, id, r);
    MovedFrame(s.db, r.phase.writes);
  }

  // ----- Two halves of a request -----

  /** The locked funds check reads what `available_balance` reads. */
  lemma ClearedAlone(lockKey: AccountId -> int, s: System, id: nat, r: Request)
    requires Quiet(s) && (r.op.TransferOp? || r.op.PlaceOp?) && r.phase == Admitted && r.began == s.db.clock
    ensures Do(lockKey, Do(lockKey, Do(lockKey, InFlight(s, id, r), Acquire(id)), ReadPosted(id)), ReadHeld(id))
      == if CheckFunds(s.db, r.tenant, Source(r.op), Amount(r.op), s.db.clock).None?
         then Flying(lockKey, s, id, r.(phase := Cleared)) else s
  {
    var locked := r.(phase := Locked);
    AcquireAlone(lockKey, s, id, r);
    ReadPostedAlone(lockKey, s, id, locked);
    match AfterPosted(s.db, locked)
    case None => NothingInFlight(lockKey, s, ReadHeld(id));
    case Some(p) => ReadHeldAlone(lockKey, s, id, locked.(phase := p));
  }

  lemma CaptureClearedAlone(lockKey: AccountId -> int, s: System, id: nat, r: Request)
    requires Quiet(s) && r.op.CaptureOp? && r.phase == Admitted
    ensures Do(lockKey, Do(lockKey, InFlight(s, id, r), Acquire(id)), ReadPosted(id))
      == if CheckPosted(s.db, r.tenant, r.op.hold.account, CaptureAmount(r.op.hold, r.op.capture)).None?
         then Flying(lockKey, s, id, r.(phase := Cleared)) else s
  {
    AcquireAlone(lockKey, s, id, r);
    ReadPostedAlone(lockKey, s, id, r.(phase := Locked));
  }

  lemma LandedAlone(lockKey: AccountId -> int, s: System, id: nat, r: Request)
    requires Quiet(s) && ReadyToStage(r)
    requires StagedWrites(s.db, r).Some? && StagedWrites(s.db, r).value.key.Some? ==>
      StagedWrites(s.db, r).value.key.value !in s.db.records
    ensures Do(lockKey, Do(lockKey, Flying(lockKey, s, id, r), Stage(id)), CommitRequest(id))
      == match StagedWrites(s.db, r)
         case None => s
         case Some(w) => Landed(s, w)
  {
    StageAlone(lockKey, s, id, r);
    match StagedWrites(s.db, r)
    case None => NothingInFlight(lockKey, s, CommitRequest(id));
    case Some(w) => CommitAlone(lockKey, s, id, r.(phase := Staged(w)));
  }

  lemma NothingThrice(lockKey: AccountId -> int, s: System, id: nat)
    requires Quiet(s)
    ensures Do(lockKey, Do(lockKey, Do(lockKey, s, Acquire(id)), ReadPosted(id)), ReadHeld(id)) == s
    ensures Do(lockKey, Do(lockKey, s, Acquire(id)), ReadPosted(id)) == s
    ensures Do(lockKey, Do(lockKey, s, Stage(id)), CommitRequest(id)) == s
  {
    NothingInFlight(lockKey, s, Acquire(id));
    NothingInFlight(lockKey, s, ReadPosted(id));
    NothingInFlight(lockKey, s, ReadHeld(id));
    NothingInFlight(lockKey, s, Stage(id));
    NothingInFlight(lockKey, s, CommitRequest(id));
  }

  // ----- Whole requests -----

  function BeforeFunds(id: nat, tenant: string, op: Op, key: string, fp: int): seq<Step> {
    [Begin(id, tenant, op, key, fp), Acquire(id), ReadPosted(id)]
  }

  /** A transfer or placement, statement by statement. */
  function FundedSteps(id: nat, tenant: string, op: Op, key: string, fp: int): seq<Step> {
    BeforeFunds(id, tenant, op, key, fp) + [ReadHeld(id), Stage(id), CommitRequest(id)]
  }

  function CaptureSteps(id: nat, tenant: string, op: Op): seq<Step> {
    BeforeFunds(id, tenant, op, "", 0) + [Stage(id), CommitRequest(id)]
  }

  /** A release or reversal: nothing is locked. */
  function UnlockedSteps(id: nat, tenant: string, op: Op, key: string, fp: int): seq<Step> {
    [Begin(id, tenant, op, key, fp), Stage(id), CommitRequest(id)]
  }

  lemma DoThree(lockKey: AccountId -> int, s: System, steps: seq<Step>, a: Step, b: Step, c: Step)
    ensures DoAll(lockKey, s, steps + [a, b, c])
      == Do(lockKey, Do(lockKey, Do(lockKey, DoAll(lockKey, s, steps), a), b), c)
  {
    assert steps + [a, b, c] == ((steps + [a]) + [b]) + [c];
    DoOneMore(lockKey, s, steps, a);
    DoOneMore(lockKey, s, steps + [a], b);
    DoOneMore(lockKey, s, (steps + [a]) + [b], c);
  }

  lemma FundedUnfolds(lockKey: AccountId -> int, s: System, id: nat, tenant: string, op: Op, key: string, fp: int)
    ensures var begun := Do(lockKey, s, Begin(id, tenant, op, key, fp));
      var read := Do(lockKey, Do(lockKey, Do(lockKey, begun, Acquire(id)), ReadPosted(id)), ReadHeld(id));
      DoAll(lockKey, s, FundedSteps(id, tenant, op, key, fp)) == Do(lockKey, Do(lockKey, read, Stage(id)), CommitRequest(id))
  {
    var first := BeforeFunds(id, tenant, op, key, fp);
    DoThree(lockKey, s, [], first[0], first[1], first[2]);
    assert [] + [first[0], first[1], first[2]] == first;
    DoThree(lockKey, s, first, ReadHeld(id), Stage(id), CommitRequest(id));
  }

  lemma CaptureUnfolds(lockKey: AccountId -> int, s: System, id: nat, tenant: string, op: Op)
    ensures var begun := Do(lockKey, s, Begin(id, tenant, op, "", 0));
      var read := Do(lockKey, Do(lockKey, begun, Acquire(id)), ReadPosted(id));
      DoAll(lockKey, s, CaptureSteps(id, tenant, op)) == Do(lockKey, Do(lockKey, read, Stage(id)), CommitRequest(id))
  {
    var first := BeforeFunds(id, tenant, op, "", 0);
    DoThree(lockKey, s, [], first[0], first[1], first[2]);
    assert [] + [first[0], first[1], first[2]] == first;
    assert first + [Stage(id), CommitRequest(id)] == (first + [Stage(id)]) + [CommitRequest(id)];
    DoOneMore(lockKey, s, first, Stage(id));
    DoOneMore(lockKey, s, first + [Stage(id)], CommitRequest(id));
  }

  lemma UnlockedUnfolds(lockKey: AccountId -> int, s: System, id: nat, tenant: string, op: Op, key: string, fp: int)
    ensures DoAll(lockKey, s, UnlockedSteps(id, tenant, op, key, fp))
      == Do(lockKey, Do(lockKey, Do(lockKey, s, Begin(id, tenant, op, key, fp)), Stage(id)), CommitRequest(id))
  {
    DoThree(lockKey, s, [], Begin(id, tenant, op, key, fp), Stage(id), CommitRequest(id));
    assert [] + UnlockedSteps(id, tenant, op, key, fp) == UnlockedSteps(id, tenant, op, key, fp);
  }

  /** What a transfer or placement comes to, served alone. */
  function FundedOutcome(s: System, r: Request): System
    requires r.op.TransferOp? || r.op.PlaceOp?
  {
    if !Admits(s.db, r.tenant, r.op, r.key, r.fingerprint) then s
    else if CheckFunds(s.db, r.tenant, Source(r.op), Amount(r.op), s.db.clock).Some? then s
    else
      match StagedWrites(s.db, r)
      case None => s
      case Some(w) => Landed(s, w)
  }

  lemma FundedAlone(lockKey: AccountId -> int, s: System, id: nat, tenant: string, op: Op, key: string, fp: int)
    requires Quiet(s) && (op.TransferOp? || op.PlaceOp?)
    ensures DoAll(lockKey, s, FundedSteps(id, tenant, op, key, fp))
      == FundedOutcome(s, Request(tenant, op, Key(tenant, Endpoint(op), key), fp, s.db.clock, Cleared))
  {
    var k := Key(tenant, Endpoint(op), key);
    var r := Request(tenant, op, k, fp, s.db.clock, Admitted);
    FundedUnfolds(lockKey, s, id, tenant, op, key, fp);
    BeginAlone(lockKey, s, id, tenant, op, key, fp);
    NothingThrice(lockKey, s, id);
    if Admits(s.db, tenant, op, k, fp) {
      ClearedAlone(lockKey, s, id, r);
      LandedAlone(lockKey, s, id, r.(phase := Cleared));
    }
  }

  /** `q` joins `r`. */
  function Beside(flying: System, id: nat, r: Request, other: nat, q: Request): System {
    flying.(requests := map[id := r, other := q])
  }

  lemma ReversalBeginsBeside(lockKey: AccountId -> int, flying: System, id: nat, r: Request, other: nat, tenant: string,
      req: ReverseRequest, key: string)
    requires flying.requests == map[id := r] && id != other && Key(tenant, REVERSALS, key) !in flying.db.records
    ensures var q := Request(tenant, ReverseOp(req), Key(tenant, REVERSALS, key), 0, flying.db.clock, Admitted);
      Do(lockKey, flying, Begin(other, tenant, ReverseOp(req), key, 0)) == Beside(flying, id, r, other, q)
  {
  }

  lemma ReversalStagesBeside(lockKey: AccountId -> int, flying: System, id: nat, r: Request, other: nat, q: Request)
    requires id != other && q.op.ReverseOp? && q.phase == Admitted && StagedWrites(flying.db, q).Some?
    ensures Do(lockKey, Beside(flying, id, r, other, q), Stage(other))
      == Beside(flying, id, r, other, q.(phase := Staged(StagedWrites(flying.db, q).value)))
  {
  }

  lemma DropBeside(flying: System, id: nat, r: Request, other: nat, q: Request)
    requires id != other && flying.requests == map[id := r] && forall k <- flying.locks :: flying.locks[k] != other
    ensures Drop(Beside(flying, id, r, other, q), other) == flying
  {
    var dropped := Drop(Beside(flying, id, r, other, q), other);
    assert dropped.requests == flying.requests;
    forall k | k in flying.locks ensures k in dropped.locks && dropped.locks[k] == flying.locks[k] {
      assert flying.locks[k] != other;
    }
    assert dropped.locks == flying.locks;
  }

  lemma CommitsBeside(lockKey: AccountId -> int, flying: System, id: nat, r: Request, other: nat, q: Request)
    requires id != other && flying.requests == map[id := r] && forall k <- flying.locks :: flying.locks[k] != other
    requires q.phase.Staged? && (q.phase.writes.key.Some? ==> q.phase.writes.key.value !in flying.db.records)
    ensures Do(lockKey, Beside(flying, id, r, other, q), CommitRequest(other)) == Landed(flying, q.phase.writes)
  {
    DropBeside(flying, id, r, other, q);
    MovedFrame(flying.db, q.phase.writes);
  }

  /** A reversal served while one other request is in flight: it takes no lock and waits for none. */
  lemma ReversalBeside(lockKey: AccountId -> int, flying: System, id: nat, r: Request, other: nat, tenant: string,
      req: ReverseRequest, key: string)
    requires id != other && flying.requests == map[id := r] && forall k <- flying.locks :: flying.locks[k] != other
    requires Key(tenant, REVERSALS, key) !in flying.db.records && ReverseRefusal(flying.db, tenant, req.txn).None?
    ensures Do(lockKey, Do(lockKey, Do(lockKey, flying, Begin(other, tenant, ReverseOp(req), key, 0)), Stage(other)), CommitRequest(other))
      == Landed(flying, ReverseWrites(flying.db, tenant, req, Key(tenant, REVERSALS, key), 0, flying.db.clock))
  {
    var q := Request(tenant, ReverseOp(req), Key(tenant, REVERSALS, key), 0, flying.db.clock, Admitted);
    ReversalBeginsBeside(lockKey, flying, id, r, other, tenant, req, key);
    ReversalStagesBeside(lockKey, flying, id, r, other, q);
    CommitsBeside(lockKey, flying, id, r, other, q.(phase := Staged(StagedWrites(flying.db, q).value)));
  }

  /** Reading a batch and marking it with nothing in between is `dispatch_pending`. */
  lemma DispatchServedAlone(lockKey: AccountId -> int, s: System, dispatcher: nat, tenant: string, limit: nat)
    requires dispatcher !in s.batches
    ensures var batch := Ordering.Take(Outbox.Queue(s.db.events, tenant), limit);
      Do(lockKey, Do(lockKey, s, DispatchRead(dispatcher, tenant, limit)), DispatchMark(dispatcher))
        == s.(db := s.db.(events := Outbox.Dispatch(s.db.events, tenant, limit, s.db.clock)), delivered := s.delivered + batch)
  {
    assert s.batches[dispatcher := Batch(Ordering.Take(Outbox.Queue(s.db.events, tenant), limit), s.db.clock)] - {dispatcher} == s.batches;
  }

  /** Opening an account, quoting a rate and letting time pass are the steps of a serial run. */
  lemma UpkeepServedAlone(lockKey: AccountId -> int, s: System, tenant: string, path: string, currency: Currency, rate: Rates.Rate,
      elapsed: nat)
    ensures Do(lockKey, s, OpenStep(tenant, path, currency)).db == SerialRuns.Apply(s.db, SerialRuns.Open(tenant, path, currency))
    ensures Do(lockKey, s, QuoteStep(rate)).db == SerialRuns.Apply(s.db, SerialRuns.Quote(rate))
    ensures Do(lockKey, s, TickStep(elapsed)).db == SerialRuns.Apply(s.db, SerialRuns.Tick(elapsed))
  {
  }

  /** And so is a sweep with nothing between its cutoff and its deletion. */
  lemma SweepServedAlone(lockKey: AccountId -> int, s: System, sweep: nat, minAge: nat)
    requires sweep !in s.sweeps
    ensures var end := Do(lockKey, Do(lockKey, s, SweepBegin(sweep, minAge)), SweepDelete(sweep));
      end.db == SerialRuns.Apply(s.db, SerialRuns.DoSweep(minAge)) && end.sweeps == s.sweeps
  {
    assert s.sweeps[sweep := s.db.clock - minAge] - {sweep} == s.sweeps;
  }

  /** A quote newer than all of its pair is what conversions go at once it is in force. */
  lemma QuoteGoverns(l: Ledger, rate: Rates.Rate, asOf: Instant)
    requires rate.base != rate.quote && rate.effectiveAt <= asOf
    requires forall r <- l.rates | r.base == rate.base && r.quote == rate.quote :: r.effectiveAt < rate.effectiveAt
    ensures Rates.Resolve(SerialRuns.Apply(l, SerialRuns.Quote(rate)).rates, rate.base, rate.quote, asOf)
         == Ok(Rates.ResolvedRate(rate.rate, Rates.Direct(rate.source), Some(rate.id), rate.effectiveAt))
  {
    Rates.DirectQuoteIsUsed(l.rates + [rate], rate.base, rate.quote, asOf, rate);
  }

  /** The system after a service call: its tables, and the execution it logs if it was keyed. */
  predicate ServedAs(s: System, end: System, db': Ledger, outcome: Outcome, key: Option<Key>, fp: int) {
    end == s.(db := db',
              log := if outcome.Done? && key.Some?
                     then s.log + [Execution(key.value, fp, outcome.response, s.db.clock, s.db.clock)] else s.log)
  }

  /** A transfer served alone is `ExecuteTransfer`. */
  lemma TransferServedAlone(lockKey: AccountId -> int, s: System, id: nat, tenant: string, req: TransferRequest, key: string, fp: int)
    requires Quiet(s)
    ensures var (db', outcome) := ExecuteTransfer(s.db, tenant, req, key, fp);
      ServedAs(s, DoAll(lockKey, s, FundedSteps(id, tenant, TransferOp(req), key, fp)), db', outcome, Some(Key(tenant, TRANSFERS, key)), fp)
  {
    FundedAlone(lockKey, s, id, tenant, TransferOp(req), key, fp);
  }

  /** A placement served alone is `Place`. */
  lemma PlacementServedAlone(lockKey: AccountId -> int, s: System, id: nat, tenant: string, req: PlaceRequest, key: string, fp: int)
    requires Quiet(s)
    ensures var (db', outcome) := Place(s.db, tenant, req, key, fp);
      ServedAs(s, DoAll(lockKey, s, FundedSteps(id, tenant, PlaceOp(req), key, fp)), db', outcome, Some(Key(tenant, PLACE, key)), fp)
  {
    FundedAlone(lockKey, s, id, tenant, PlaceOp(req), key, fp);
  }

  /** What a capture comes to, served alone. */
  function CaptureOutcome(s: System, r: Request): System
    requires r.op.CaptureOp?
  {
    if !Admits(s.db, r.tenant, r.op, r.key, r.fingerprint) then s
    else if CheckPosted(s.db, r.tenant, r.op.hold.account, CaptureAmount(r.op.hold, r.op.capture)).Some? then s
    else Landed(s, CaptureWrites(r.tenant, r.op.id, r.op.hold, r.op.capture, s.db.clock))
  }

  lemma CaptureAlone(lockKey: AccountId -> int, s: System, id: nat, tenant: string, op: Op)
    requires Quiet(s) && op.CaptureOp?
    ensures DoAll(lockKey, s, CaptureSteps(id, tenant, op))
      == CaptureOutcome(s, Request(tenant, op, Key(tenant, "", ""), 0, s.db.clock, Cleared))
  {
    var r := Request(tenant, op, Key(tenant, "", ""), 0, s.db.clock, Admitted);
    CaptureUnfolds(lockKey, s, id, tenant, op);
    BeginAlone(lockKey, s, id, tenant, op, "", 0);
    NothingThrice(lockKey, s, id);
    if Admits(s.db, tenant, op, Key(tenant, "", ""), 0) {
      CaptureClearedAlone(lockKey, s, id, r);
      LandedAlone(lockKey, s, id, r.(phase := Cleared));
    }
  }

  /** A capture served alone, of the hold as it stands, is `Capture`. */
  lemma CaptureServedAlone(lockKey: AccountId -> int, s: System, id: nat, tenant: string, hold: HoldId, h: Hold, req: CaptureRequest)
    requires Quiet(s) && (hold < |s.db.holds| ==> s.db.holds[hold] == h)
    ensures var (db', outcome) := Capture(s.db, tenant, hold, req);
      ServedAs(s, DoAll(lockKey, s, CaptureSteps(id, tenant, CaptureOp(hold, h, req))), db', outcome, None, 0)
  {
    CaptureAlone(lockKey, s, id, tenant, CaptureOp(hold, h, req));
  }

  /** A release served alone is `Release`. */
  lemma ReleaseServedAlone(lockKey: AccountId -> int, s: System, id: nat, tenant: string, hold: HoldId)
    requires Quiet(s)
    ensures var (db', outcome) := Release(s.db, tenant, hold);
      ServedAs(s, DoAll(lockKey, s, UnlockedSteps(id, tenant, ReleaseOp(hold), "", 0)), db', outcome, None, 0)
  {
    var r := Request(tenant, ReleaseOp(hold), Key(tenant, "", ""), 0, s.db.clock, Admitted);
    UnlockedUnfolds(lockKey, s, id, tenant, ReleaseOp(hold), "", 0);
    BeginAlone(lockKey, s, id, tenant, ReleaseOp(hold), "", 0);
    NothingThrice(lockKey, s, id);
    LandedAlone(lockKey, s, id, r);
  }

  /** What a reversal comes to, served alone. */
  function ReversalOutcome(s: System, r: Request): System
    requires r.op.ReverseOp?
  {
    if !Admits(s.db, r.tenant, r.op, r.key, r.fingerprint) || ReverseRefusal(s.db, r.tenant, r.op.reverse.txn).Some? then s
    else Landed(s, ReverseWrites(s.db, r.tenant, r.op.reverse, r.key, r.fingerprint, s.db.clock))
  }

  lemma ReversalAlone(lockKey: AccountId -> int, s: System, id: nat, tenant: string, req: ReverseRequest, key: string, fp: int)
    requires Quiet(s)
    ensures DoAll(lockKey, s, UnlockedSteps(id, tenant, ReverseOp(req), key, fp))
      == ReversalOutcome(s, Request(tenant, ReverseOp(req), Key(tenant, REVERSALS, key), fp, s.db.clock, Admitted))
  {
    var op, k := ReverseOp(req), Key(tenant, REVERSALS, key);
    UnlockedUnfolds(lockKey, s, id, tenant, op, key, fp);
    BeginAlone(lockKey, s, id, tenant, op, key, fp);
    NothingThrice(lockKey, s, id);
    if Admits(s.db, tenant, op, k, fp) {
      LandedAlone(lockKey, s, id, Request(tenant, op, k, fp, s.db.clock, Admitted));
    }
  }

  lemma StagedReversalPosts(db: Ledger, tenant: string, req: ReverseRequest, key: Key, fp: int)
    requires Consistent(db)
    ensures StageReverse(db, tenant, req, key, fp)
      == match ReverseRefusal(db, tenant, req.txn)
         case Some(f) => Err(f)
         case None => Ok(ReverseWrites(db, tenant, req, key, fp, db.clock))
  {
    if ReverseRefusal(db, tenant, req.txn).None? {
      ReversalIsWellPosted(db, tenant, req, db.clock);
    }
  }

  lemma ReversalComesTo(s: System, r: Request, tenant: string, req: ReverseRequest, key: string, fp: int)
    requires Consistent(s.db)
    requires r == Request(tenant, ReverseOp(req), Key(tenant, REVERSALS, key), fp, s.db.clock, Admitted)
    ensures var (db', outcome) := Reverse(s.db, tenant, req, key, fp);
      ServedAs(s, ReversalOutcome(s, r), db', outcome, Some(Key(tenant, REVERSALS, key)), fp)
  {
    StagedReversalPosts(s.db, tenant, req, Key(tenant, REVERSALS, key), fp);
    match ReverseRefusal(s.db, tenant, req.txn)
    case Some(f) =>
    case None => LandedIsFinished(s, ReverseWrites(s.db, tenant, req, Key(tenant, REVERSALS, key), fp, s.db.clock));
  }

  /** Landing is what `Finish` does, and the answer is logged. */
  lemma LandedIsFinished(s: System, w: Writes)
    requires w.key.Some? && w.at == s.db.clock
    ensures var (db', outcome) := Finish(s.db, Ok(w));
      ServedAs(s, Landed(s, w), db', outcome, w.key, w.fingerprint)
  {
  }

  /** A reversal served alone is `Reverse`: what it negates passed the engine, so its legs do. */
  lemma ReversalServedAlone(lockKey: AccountId -> int, s: System, id: nat, tenant: string, req: ReverseRequest, key: string, fp: int)
    requires Quiet(s) && Consistent(s.db)
    ensures var (db', outcome) := Reverse(s.db, tenant, req, key, fp);
      ServedAs(s, DoAll(lockKey, s, UnlockedSteps(id, tenant, ReverseOp(req), key, fp)), db', outcome, Some(Key(tenant, REVERSALS, key)), fp)
  {
    var op, k := ReverseOp(req), Key(tenant, REVERSALS, key);
    ReversalAlone(lockKey, s, id, tenant, req, key, fp);
    ReversalComesTo(s, Request(tenant, op, k, fp, s.db.clock, Admitted), tenant, req, key, fp);
  }
}
