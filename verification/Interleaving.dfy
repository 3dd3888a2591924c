/** Requests in flight together. Each statement reads the latest committed tables; writes stay with
    their request until it commits, then land at once on whatever is committed by then. Dispatchers
    read a batch and hand it over, and mark it later. A request or a dispatcher may die at any point.
    Advisory locks are keyed by an arbitrary function of the account
    (backend/services/transfers_locking.py), so different accounts may share one. */
module Interleaving {
  import opened Wrappers
  import opened Money
  import opened Tables
  import opened PostingEngine
  import opened Services
  import opened ServiceLaws
  import Ordering
  import Outbox
  import Rates

  /** A call being served. A capture or release carries the hold row as it was first read. */
  datatype Op =
    | TransferOp(transfer: TransferRequest)
    | PlaceOp(place: PlaceRequest)
    | CaptureOp(id: HoldId, hold: Hold, capture: CaptureRequest)
    | ReleaseOp(id: HoldId)
    | ReverseOp(reverse: ReverseRequest)

  predicate Keyed(op: Op) {
    op.TransferOp? || op.PlaceOp? || op.ReverseOp?
  }

  predicate TakesLock(op: Op) {
    op.TransferOp? || op.PlaceOp? || op.CaptureOp?
  }

  /** The account whose lock is taken and whose funds are checked. */
  function Source(op: Op): AccountId
    requires TakesLock(op)
  {
    match op
    case TransferOp(t) => t.source
    case PlaceOp(p) => p.account
    case CaptureOp(_, h, _) => h.account
  }

  function Endpoint(op: Op): string {
    match op
    case TransferOp(_) => TRANSFERS
    case PlaceOp(_) => PLACE
    case ReverseOp(_) => REVERSALS
    case _ => ""
  }

  /** How far a request has got. */
  datatype Phase = Admitted | Locked | PostedRead(posted: int) | Cleared | Staged(writes: Writes)

  /** `began` is when its database transaction started: what the database's `now()` returns to it. */
  datatype Request = Request(tenant: string, op: Op, key: Key, fingerprint: int, began: Instant, phase: Phase)

  /** One keyed request that committed. */
  datatype Execution = Execution(key: Key, fingerprint: int, response: Response, createdAt: Instant, committedAt: Instant)

  /** Events a dispatcher read as pending and is handing over; it has yet to mark them. */
  datatype Batch = Batch(events: seq<Event>, at: Instant)

  /** `delivered` is every event handed to a consumer so far, in order. */
  datatype System = System(
    db: Ledger,
    locks: map<int, nat>,
    requests: map<nat, Request>,
    sweeps: map<nat, Instant>,
    batches: map<nat, Batch>,
    delivered: seq<Event>,
    log: seq<Execution>)

  datatype Step =
    | Begin(id: nat, tenant: string, op: Op, key: string, fingerprint: int)
    | Acquire(id: nat)
    | ReadPosted(id: nat)
    | ReadHeld(id: nat)
    | Stage(id: nat)
    | CommitRequest(id: nat)
    | Crash(id: nat)
    | SweepBegin(sweep: nat, minAge: int)
    | SweepDelete(sweep: nat)
    | OpenStep(tenant: string, path: string, currency: Currency)
    | QuoteStep(rate: Rates.Rate)
    | DispatchRead(dispatcher: nat, tenant: string, limit: nat)
    | DispatchMark(dispatcher: nat)
    | DispatcherCrash(dispatcher: nat)
    | TickStep(elapsed: nat)

  // ----- The statements of a request -----

  /** The first reads: the key is unused, or the hold is there and open; the accounts are usable. */
  predicate Admits(db: Ledger, tenant: string, op: Op, key: Key, fingerprint: int) {
    && (Keyed(op) ==> Lookup(db.records, key, fingerprint).Miss?)
    && match op
       case TransferOp(t) => Usable(db.accounts, tenant, t.source) && Usable(db.accounts, tenant, t.destination)
       case PlaceOp(p) => Usable(db.accounts, tenant, p.account)
       case CaptureOp(id, h, req) =>
         id < |db.holds| && db.holds[id] == h && h.tenant == tenant && CaptureRefusal(db.accounts, tenant, h, req).None?
       case ReleaseOp(id) => id < |db.holds| && db.holds[id].tenant == tenant && db.holds[id].state == Active
       case ReverseOp(_) => true
  }

  /** After the posted balance is read: fail, go on to read the holds, or (capture) be cleared. */
  function AfterPosted(db: Ledger, r: Request): Option<Phase>
    requires TakesLock(r.op)
  {
    match CurrentBalance(db, r.tenant, Source(r.op))
    case None => None
    case Some(posted) =>
      if !r.op.CaptureOp? then Some(PostedRead(posted))
      else if posted < CaptureAmount(r.op.hold, r.op.capture) then None
      else Some(Cleared)
  }

  function Amount(op: Op): int
    requires op.TransferOp? || op.PlaceOp?
  {
    if op.TransferOp? then op.transfer.amount else op.place.amount
  }

  function StagedWrites(db: Ledger, r: Request): Option<Writes> {
    match r.op
    case TransferOp(t) =>
      if Usable(db.accounts, r.tenant, t.source) && Usable(db.accounts, r.tenant, t.destination) then
        (match TransferWrites(db, r.tenant, t, r.key, r.fingerprint, db.clock)
         case Ok(w) => Some(w)
         case Err(_) => None)
      else None
    case PlaceOp(p) => Some(PlaceWrites(r.tenant, p, r.key, r.fingerprint, db.clock))
    case CaptureOp(id, h, req) => Some(CaptureWrites(r.tenant, id, h, req, db.clock))
    case ReleaseOp(id) => Some(Writes(r.tenant, db.clock, [], MarkReleased(id), None, 0, HoldReply(id)))
    case ReverseOp(req) =>
      if ReverseRefusal(db, r.tenant, req.txn).Some? then None
      else Some(ReverseWrites(db, r.tenant, req, r.key, r.fingerprint, db.clock))
  }

  predicate ReadyToStage(r: Request) {
    if TakesLock(r.op) then r.phase == Cleared else r.phase == Admitted
  }

  // ----- Steps -----

  /** The request ends; its locks go with it. */
  function Drop(s: System, id: nat): System {
    s.(requests := s.requests - {id}, locks := map k | k in s.locks && s.locks[k] != id :: s.locks[k])
  }

  function Advance(s: System, id: nat, phase: Option<Phase>): System
    requires id in s.requests
  {
    match phase
    case None => Drop(s, id)
    case Some(p) => s.(requests := s.requests[id := s.requests[id].(phase := p)])
  }

  /** Inserting a key that exists by now violates the primary key and rolls everything back. */
  function CommitNow(s: System, id: nat, w: Writes): System {
    match w.key
    case None => Drop(s, id).(db := Commit(s.db, w))
    case Some(k) =>
      if k in s.db.records then Drop(s, id)
      else
        var db' := Commit(s.db, w);
        Drop(s, id).(db := db', log := s.log + [Execution(k, w.fingerprint, db'.records[k].response, w.at, s.db.clock)])
  }

  /** The UPDATE is by id: it stamps an event another dispatcher has published meanwhile once more. */
  function Marked(events: seq<Event>, b: Batch): seq<Event> {
    Outbox.MarkPublished(events, Outbox.IdsOf(b.events), b.at)
  }

  /** A step that is not enabled does nothing. */
  function Do(lockKey: AccountId -> int, s: System, step: Step): System {
    match step
    case Begin(id, tenant, op, key, fp) =>
      var k := Key(tenant, Endpoint(op), key);
      if id in s.requests || !Admits(s.db, tenant, op, k, fp) then s
      else s.(requests := s.requests[id := Request(tenant, op, k, fp, s.db.clock, Admitted)])
    case Acquire(id) =>
      if id in s.requests && s.requests[id].phase == Admitted && TakesLock(s.requests[id].op)
         && lockKey(Source(s.requests[id].op)) !in s.locks
      then Advance(s, id, Some(Locked)).(locks := s.locks[lockKey(Source(s.requests[id].op)) := id])
      else s
    case ReadPosted(id) =>
      if id in s.requests && s.requests[id].phase == Locked && TakesLock(s.requests[id].op)
      then Advance(s, id, AfterPosted(s.db, s.requests[id]))
      else s
    case ReadHeld(id) =>
      if id in s.requests && s.requests[id].phase.PostedRead? && (s.requests[id].op.TransferOp? || s.requests[id].op.PlaceOp?)
      then
        var r := s.requests[id];
        var available := r.phase.posted - HeldTotal(s.db.holds, r.tenant, Source(r.op), r.began);
        Advance(s, id, if available < Amount(r.op) then None else Some(Cleared))
      else s
    case Stage(id) =>
      if id in s.requests && ReadyToStage(s.requests[id])
      then
        match StagedWrites(s.db, s.requests[id])
        case None => Drop(s, id)
        case Some(w) => Advance(s, id, Some(Staged(w)))
      else s
    case CommitRequest(id) =>
      if id in s.requests && s.requests[id].phase.Staged? then CommitNow(s, id, s.requests[id].phase.writes) else s
    case Crash(id) => Drop(s, id)
    case SweepBegin(sweep, minAge) => s.(sweeps := s.sweeps[sweep := s.db.clock - minAge])
    case SweepDelete(sweep) =>
      if sweep in s.sweeps
      then s.(db := s.db.(records := Unswept(s.db.records, s.sweeps[sweep])), sweeps := s.sweeps - {sweep})
      else s
    case OpenStep(tenant, path, currency) => s.(db := OpenAccount(s.db, tenant, path, currency))
    case QuoteStep(rate) => s.(db := s.db.(rates := s.db.rates + [rate]))
    case DispatchRead(dispatcher, tenant, limit) =>
      var batch := Ordering.Take(Outbox.Queue(s.db.events, tenant), limit);
      if dispatcher in s.batches then s
      else s.(batches := s.batches[dispatcher := Batch(batch, s.db.clock)], delivered := s.delivered + batch)
    case DispatchMark(dispatcher) =>
      if dispatcher in s.batches
      then s.(db := s.db.(events := Marked(s.db.events, s.batches[dispatcher])), batches := s.batches - {dispatcher})
      else s
    case DispatcherCrash(dispatcher) => s.(batches := s.batches - {dispatcher})
    case TickStep(elapsed) => s.(db := s.db.(clock := s.db.clock + elapsed))
  }

  /** The step commits what a request staged: its key, if it has one, is still unused. */
  predicate GoesThrough(s: System, step: Step) {
    && step.CommitRequest? && step.id in s.requests && s.requests[step.id].phase.Staged?
    && (s.requests[step.id].phase.writes.key.Some? ==> s.requests[step.id].phase.writes.key.value !in s.db.records)
  }

  function DoAll(lockKey: AccountId -> int, s: System, steps: seq<Step>): System {
    if steps == [] then s else Do(lockKey, DoAll(lockKey, s, steps[..|steps| - 1]), steps[|steps| - 1])
  }

  lemma DoOneMore(lockKey: AccountId -> int, s: System, steps: seq<Step>, last: Step)
    ensures DoAll(lockKey, s, steps + [last]) == Do(lockKey, DoAll(lockKey, s, steps), last)
  {
    assert (steps + [last])[..|steps|] == steps;
  }

  /** No request in flight and nothing executed yet. */
  predicate Idle(s: System) {
    s.locks == map[] && s.requests == map[] && s.sweeps == map[] && s.log == []
  }
}
