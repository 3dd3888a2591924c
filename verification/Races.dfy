/** What the locks do not cover: capture reads its hold, and reversal looks for an earlier reversal,
    before anything excludes a competitor. The exact conditions, and the runs that violate them. */
module Races {
  import opened Wrappers
  import opened Money
  import opened Tables
  import opened PostingEngine
  import opened Services
  import opened ServiceLaws
  import opened Funds
  import opened Interleaving
  import opened InterleavedFunds
  import opened InterleavedSafety
  import opened SerialRuns
  import ServedAlone
  import ServiceEffects

  // ----- Capture -----

  /** Committing a capture keeps funds safe exactly when what its hold still reserves, plus what is
      otherwise available, covers it (or the money stays on the account, or the account is exempt). */
  lemma CaptureCommitIsSafeIff(db: Ledger, r: Request, w: Writes)
    requires Valid(db) && FundsSafe(db) && OpSound(db, r.tenant, r.op) && WritesSound(db.accounts, r, w) && r.op.CaptureOp?
    ensures var a, amount := r.op.hold.account, CaptureAmount(r.op.hold, r.op.capture);
      FundsSafe(Commit(db, w)) <==>
        || !Ordinary(db.accounts, a)
        || r.op.capture.destination == a
        || AvailableAt(db, a, db.clock) + Reserved(db.holds[r.op.id], r.tenant, a, db.clock) >= amount
  {
    var a, amount := r.op.hold.account, CaptureAmount(r.op.hold, r.op.capture);
    CaptureMoves(db, r, w);
    if Ordinary(db.accounts, a) { assert AvailableAt(db, a, db.clock) >= 0; }
    assert HoldWellFormed(db.accounts, db.holds[r.op.id]);
    forall b: nat | b < |db.accounts| && Ordinary(db.accounts, b) && b != a
      ensures AvailableAt(Commit(db, w), b, db.clock) >= 0
    {
      assert AvailableAt(db, b, db.clock) >= 0;
      NetOfOne(w.entries[0], b);
      NetOfTwoLegs(a, r.op.capture.destination, amount, w.at, b);
      CommitSpares(db, w, b);
    }
  }

  lemma CaptureMoves(db: Ledger, r: Request, w: Writes)
    requires Valid(db) && OpSound(db, r.tenant, r.op) && WritesSound(db.accounts, r, w) && r.op.CaptureOp?
    ensures Commit(db, w).accounts == db.accounts && Commit(db, w).clock == db.clock
    ensures var a := r.op.hold.account;
      AvailableAt(Commit(db, w), a, db.clock)
        == AvailableAt(db, a, db.clock) + Reserved(db.holds[r.op.id], r.tenant, a, db.clock)
           - (if r.op.capture.destination == a then 0 else CaptureAmount(r.op.hold, r.op.capture))
    ensures var a := r.op.hold.account;
      BalanceOr(Commit(db, w), a)
        == BalanceOr(db, a) - (if r.op.capture.destination == a then 0 else CaptureAmount(r.op.hold, r.op.capture))
  {
    var a := r.op.hold.account;
    CommitMovesAvailable(db, w, a);
    CommitMovesBalance(db, w, a);
    NetOfOne(w.entries[0], a);
    NetOfTwoLegs(a, r.op.capture.destination, CaptureAmount(r.op.hold, r.op.capture), w.at, a);
  }

  function CaptureSteps(id: nat): seq<Interleaving.Step> {
    [Acquire(id), ReadPosted(id), Stage(id), CommitRequest(id)]
  }

  /** One capture served in full: lock, posted balance, stage, commit. */
  function ServeCapture(lockKey: AccountId -> int, s: System, id: nat): System {
    DoAll(lockKey, s, CaptureSteps(id))
  }

  lemma ServingStepByStep(lockKey: AccountId -> int, s: System, id: nat)
    ensures ServeCapture(lockKey, s, id)
      == Do(lockKey, Do(lockKey, Do(lockKey, Do(lockKey, s, Acquire(id)), ReadPosted(id)), Stage(id)), CommitRequest(id))
  {
    var a, b, c, d := Acquire(id), ReadPosted(id), Stage(id), CommitRequest(id);
    assert CaptureSteps(id) == ((([] + [a]) + [b]) + [c]) + [d];
    DoOneMore(lockKey, s, [], a);
    DoOneMore(lockKey, s, [] + [a], b);
    DoOneMore(lockKey, s, ([] + [a]) + [b], c);
    DoOneMore(lockKey, s, (([] + [a]) + [b]) + [c], d);
  }

  lemma ServingKeepsInv(lockKey: AccountId -> int, s: System, id: nat)
    requires Inv(lockKey, s)
    ensures Inv(lockKey, ServeCapture(lockKey, s, id))
  {
    EveryInterleavingKeepsTheLedgerValid(lockKey, s, CaptureSteps(id));
  }

  function CaptureOf(db: Ledger, r: Request): Writes
    requires r.op.CaptureOp?
  {
    CaptureWrites(r.tenant, r.op.id, r.op.hold, r.op.capture, db.clock)
  }

  lemma CaptureIsCleared(lockKey: AccountId -> int, s: System, id: nat)
    requires id in s.requests && s.locks == map[]
    requires s.requests[id].op.CaptureOp? && s.requests[id].phase == Admitted
    requires AfterPosted(s.db, s.requests[id]) == Some(Cleared)
    ensures var r := s.requests[id];
      Do(lockKey, Do(lockKey, s, Acquire(id)), ReadPosted(id))
        == s.(requests := s.requests[id := r.(phase := Cleared)], locks := map[lockKey(r.op.hold.account) := id])
  {
    var r := s.requests[id];
    var locked := Do(lockKey, s, Acquire(id));
    assert locked == s.(requests := s.requests[id := r.(phase := Locked)], locks := map[lockKey(r.op.hold.account) := id]);
    assert AfterPosted(s.db, locked.requests[id]) == Some(Cleared);
    assert s.requests[id := r.(phase := Locked)][id := r.(phase := Cleared)] == s.requests[id := r.(phase := Cleared)];
  }

  lemma ClearedCaptureLands(lockKey: AccountId -> int, s: System, id: nat, lock: int)
    requires id in s.requests && s.requests[id].op.CaptureOp? && s.requests[id].phase == Cleared
    requires s.locks == map[lock := id]
    ensures var s' := Do(lockKey, Do(lockKey, s, Stage(id)), CommitRequest(id));
      s'.db == Commit(s.db, CaptureOf(s.db, s.requests[id])) && s'.requests == s.requests - {id} && s'.locks == map[]
  {
    var staged := Do(lockKey, s, Stage(id));
    assert staged.requests[id].phase == Staged(CaptureOf(s.db, s.requests[id]));
    assert staged.requests - {id} == s.requests - {id};
    assert staged.locks == map[lock := id];
    assert Drop(staged, id).locks == map[];
  }

  /** With a free lock and enough posted, an admitted capture runs through to its commit. */
  lemma ServingRuns(lockKey: AccountId -> int, s: System, id: nat)
    requires id in s.requests && s.locks == map[]
    requires s.requests[id].op.CaptureOp? && s.requests[id].phase == Admitted
    requires AfterPosted(s.db, s.requests[id]) == Some(Cleared)
    ensures var s' := ServeCapture(lockKey, s, id);
      s'.db == Commit(s.db, CaptureOf(s.db, s.requests[id])) && s'.requests == s.requests - {id} && s'.locks == map[]
  {
    var r := s.requests[id];
    ServingStepByStep(lockKey, s, id);
    CaptureIsCleared(lockKey, s, id);
    ClearedCaptureLands(lockKey, s.(requests := s.requests[id := r.(phase := Cleared)], locks := map[lockKey(r.op.hold.account) := id]), id,
      lockKey(r.op.hold.account));
    assert s.requests[id := r.(phase := Cleared)] - {id} == s.requests - {id};
  }

  lemma ServedCaptureCommits(lockKey: AccountId -> int, s: System, id: nat)
    requires Inv(lockKey, s) && id in s.requests && s.locks == map[]
    requires s.requests[id].op.CaptureOp? && s.requests[id].phase == Admitted
    requires BalanceOr(s.db, s.requests[id].op.hold.account) >= CaptureAmount(s.requests[id].op.hold, s.requests[id].op.capture)
    ensures var r, s' := s.requests[id], ServeCapture(lockKey, s, id);
      && s'.db == Commit(s.db, CaptureOf(s.db, r)) && s'.requests == s.requests - {id} && s'.locks == map[]
      && OpSound(s.db, r.tenant, r.op) && WritesSound(s.db.accounts, r, CaptureOf(s.db, r))
  {
    var r := s.requests[id];
    assert RequestSound(s.db, r);
    ServiceReadsAvailable(s.db, r.tenant, r.op.hold.account, s.db.clock);
    ServingRuns(lockKey, s, id);
    StagingIsSound(s.db, r);
  }

  /** Two captures of one hold that both read it open. */
  function BothAdmitted(lockKey: AccountId -> int, s: System, tenant: string, id: HoldId, h: Hold, req: CaptureRequest): System {
    var op := CaptureOp(id, h, req);
    Do(lockKey, Do(lockKey, s, Begin(1, tenant, op, "", 0)), Begin(2, tenant, op, "", 0))
  }

  /** Each is then served in turn. */
  function RacingCaptures(lockKey: AccountId -> int, s: System, tenant: string, id: HoldId, h: Hold, req: CaptureRequest): System {
    ServeCapture(lockKey, ServeCapture(lockKey, BothAdmitted(lockKey, s, tenant, id, h, req), 1), 2)
  }

  lemma BothBegin(lockKey: AccountId -> int, s: System, tenant: string, id: HoldId, req: CaptureRequest)
    requires s.requests == map[]
    requires id < |s.db.holds| && s.db.holds[id].tenant == tenant
    requires CaptureRefusal(s.db.accounts, tenant, s.db.holds[id], req).None?
    ensures var r := Request(tenant, CaptureOp(id, s.db.holds[id], req), Key(tenant, "", ""), 0, s.db.clock, Admitted);
      BothAdmitted(lockKey, s, tenant, id, s.db.holds[id], req) == s.(requests := map[1 := r, 2 := r])
  {
  }

  lemma BothAreAdmitted(lockKey: AccountId -> int, s: System, tenant: string, id: HoldId, req: CaptureRequest)
    requires Inv(lockKey, s) && s.requests == map[] && s.locks == map[]
    requires id < |s.db.holds| && s.db.holds[id].tenant == tenant
    requires CaptureRefusal(s.db.accounts, tenant, s.db.holds[id], req).None?
    ensures var both := BothAdmitted(lockKey, s, tenant, id, s.db.holds[id], req);
      var r := Request(tenant, CaptureOp(id, s.db.holds[id], req), Key(tenant, "", ""), 0, s.db.clock, Admitted);
      Inv(lockKey, both) && both.db == s.db && both.locks == map[] && both.requests == map[1 := r, 2 := r]
  {
    var op := CaptureOp(id, s.db.holds[id], req);
    BothBegin(lockKey, s, tenant, id, req);
    StepKeepsInv(lockKey, s, Begin(1, tenant, op, "", 0));
    StepKeepsInv(lockKey, Do(lockKey, s, Begin(1, tenant, op, "", 0)), Begin(2, tenant, op, "", 0));
  }

  /** One capture's effect on the hold, the account and the number of transactions. */
  lemma CaptureEffect(db: Ledger, r: Request)
    requires Valid(db) && r.op.CaptureOp? && OpSound(db, r.tenant, r.op) && WritesSound(db.accounts, r, CaptureOf(db, r))
    requires r.op.capture.destination != r.op.hold.account
    ensures var a, amount, db' := r.op.hold.account, CaptureAmount(r.op.hold, r.op.capture), Commit(db, CaptureOf(db, r));
      && |db'.txns| == |db.txns| + 1 && db'.accounts == db.accounts && db'.clock == db.clock
      && BalanceOr(db', a) == BalanceOr(db, a) - amount
      && AvailableAt(db', a, db.clock) == AvailableAt(db, a, db.clock) + Reserved(db.holds[r.op.id], r.tenant, a, db.clock) - amount
      && r.op.id < |db'.holds| && db'.holds[r.op.id].state == Captured && db'.holds[r.op.id].capturedTxn == Some(|db.txns|)
  {
    var w := CaptureOf(db, r);
    CaptureMoves(db, r, w);
    MovedFrame(db, w);
    PostAllFrame(db, w.tenant, w.at, w.entries);
  }

  /** From `s` to `s'`, the capture `r` in flight under `id` was served and took its amount. */
  predicate ServedOnce(s: System, s': System, id: nat, r: Request)
    requires r.op.CaptureOp?
  {
    var a, amount := r.op.hold.account, CaptureAmount(r.op.hold, r.op.capture);
    && a < |s.db.accounts| && r.op.id < |s.db.holds| && r.op.id < |s'.db.holds|
    && s'.locks == map[] && s'.requests == s.requests - {id}
    && |s'.db.txns| == |s.db.txns| + 1 && s'.db.accounts == s.db.accounts && s'.db.clock == s.db.clock
    && BalanceOr(s'.db, a) == BalanceOr(s.db, a) - amount
    && AvailableAt(s'.db, a, s.db.clock)
       == AvailableAt(s.db, a, s.db.clock) + Reserved(s.db.holds[r.op.id], r.tenant, a, s.db.clock) - amount
    && s'.db.holds[r.op.id].state == Captured && s'.db.holds[r.op.id].capturedTxn == Some(|s.db.txns|)
  }

  lemma ServingTakesTheAmount(lockKey: AccountId -> int, s: System, id: nat, r: Request)
    requires Inv(lockKey, s) && id in s.requests && s.requests[id] == r && s.locks == map[]
    requires r.op.CaptureOp? && r.phase == Admitted && r.op.capture.destination != r.op.hold.account
    requires BalanceOr(s.db, r.op.hold.account) >= CaptureAmount(r.op.hold, r.op.capture)
    ensures Inv(lockKey, ServeCapture(lockKey, s, id)) && ServedOnce(s, ServeCapture(lockKey, s, id), id, r)
  {
    ServedCaptureCommits(lockKey, s, id);
    CaptureEffect(s.db, r);
    ServingKeepsInv(lockKey, s, id);
  }

  lemma ServedTwice(s: System, s1: System, s2: System, r: Request)
    requires r.op.CaptureOp? && ServedOnce(s, s1, 1, r) && ServedOnce(s1, s2, 2, r)
    ensures var a, db' := r.op.hold.account, s2.db;
      && |db'.txns| == |s.db.txns| + 2 && db'.accounts == s.db.accounts && db'.clock == s.db.clock
      && AvailableAt(db', a, s.db.clock)
         == AvailableAt(s.db, a, s.db.clock) + Reserved(s.db.holds[r.op.id], r.tenant, a, s.db.clock)
            - 2 * CaptureAmount(r.op.hold, r.op.capture)
  {
  }

  lemma ServedAgain(lockKey: AccountId -> int, s: System, once: System, r: Request)
    requires s.requests == map[1 := r, 2 := r] && Inv(lockKey, once)
    requires r.op.CaptureOp? && r.phase == Admitted && r.op.capture.destination != r.op.hold.account
    requires BalanceOr(s.db, r.op.hold.account) >= 2 * CaptureAmount(r.op.hold, r.op.capture)
    requires ServedOnce(s, once, 1, r)
    ensures ServedOnce(once, ServeCapture(lockKey, once, 2), 2, r)
  {
    assert once.requests == map[2 := r];
    ServingTakesTheAmount(lockKey, once, 2, r);
  }

  /** Whenever the posted balance covers it twice, the hold is captured twice: the second capture
      is paid out of money nothing reserved for it. */
  lemma RacingCapturesSpendTwice(lockKey: AccountId -> int, s: System, tenant: string, id: HoldId, req: CaptureRequest)
    requires Inv(lockKey, s) && s.requests == map[] && s.locks == map[]
    requires id < |s.db.holds| && s.db.holds[id].tenant == tenant
    requires CaptureRefusal(s.db.accounts, tenant, s.db.holds[id], req).None?
    requires req.destination != s.db.holds[id].account
    requires BalanceOr(s.db, s.db.holds[id].account) >= 2 * CaptureAmount(s.db.holds[id], req)
    ensures s.db.holds[id].account < |s.db.accounts|
    ensures var h := s.db.holds[id];
      var end := RacingCaptures(lockKey, s, tenant, id, h, req);
      && |end.db.txns| == |s.db.txns| + 2
      && end.db.accounts == s.db.accounts && end.db.clock == s.db.clock
      && AvailableAt(end.db, h.account, s.db.clock)
         == AvailableAt(s.db, h.account, s.db.clock) + Reserved(h, tenant, h.account, s.db.clock) - 2 * CaptureAmount(h, req)
  {
    assert HoldWellFormed(s.db.accounts, s.db.holds[id]);
    var both := BothAdmitted(lockKey, s, tenant, id, s.db.holds[id], req);
    BothAreAdmitted(lockKey, s, tenant, id, req);
    assert CaptureAmount(s.db.holds[id], req) > 0;
    var r, once := both.requests[1], ServeCapture(lockKey, both, 1);
    ServingTakesTheAmount(lockKey, both, 1, r);
    ServedAgain(lockKey, both, once, r);
    ServedTwice(both, once, ServeCapture(lockKey, once, 2), r);
  }

  // ----- A hold resolves once -----

  /** Committing a capture leaves what was resolved as it was exactly when the hold is still active
      then; otherwise it overwrites the earlier resolution, and an earlier capture's transaction is
      left without a hold. */
  lemma CaptureCommitGrowsIff(db: Ledger, r: Request, w: Writes)
    requires SerialSound(db) && OpSound(db, r.tenant, r.op) && WritesSound(db.accounts, r, w) && r.op.CaptureOp?
    ensures Grows(db, Commit(db, w)) <==> db.holds[r.op.id].state == Active
  {
    var id, db' := r.op.id, Commit(db, w);
    MovedFrame(db, w);
    CommitAppends(db, w);
    assert HoldResolved(db.events, db.holds[id]);
    assert db'.holds[id].state == Captured && db'.holds[id].capturedTxn == Some(|db.txns|);
    forall i | 0 <= i < |db.events| ensures SameEvent(db.events[i], db'.events[i]) {
      assert db'.events[i] == db.events[i];
    }
    if db.holds[id].state != Active {
      assert !HoldEvolves(db.holds[id], db'.holds[id]);
    }
  }

  /** Committing a release leaves every hold resolved one way exactly when its hold is not captured
      by then. */
  lemma ReleaseCommitKeepsResolvedIff(db: Ledger, r: Request, w: Writes)
    requires SerialSound(db) && OpSound(db, r.tenant, r.op) && WritesSound(db.accounts, r, w) && r.op.ReleaseOp?
    ensures HoldsResolved(Commit(db, w)) <==> db.holds[r.op.id].state != Captured
  {
    var id, db' := r.op.id, Commit(db, w);
    MovedFrame(db, w);
    assert HoldResolved(db.events, db.holds[id]);
    assert db'.events == db.events && db'.holds == db.holds[id := db'.holds[id]];
    if db.holds[id].state == Captured {
      assert !HoldResolved(db'.events, db'.holds[id]);
    }
  }

  /** A release and a capture of one hold that both read it open. */
  function ReleaseAndCapture(lockKey: AccountId -> int, s: System, tenant: string, id: HoldId, h: Hold, req: CaptureRequest): System {
    Do(lockKey, Do(lockKey, s, Begin(1, tenant, ReleaseOp(id), "", 0)), Begin(2, tenant, CaptureOp(id, h, req), "", 0))
  }

  /** The capture is served in full, then the release goes through. */
  function LateRelease(lockKey: AccountId -> int, s: System, tenant: string, id: HoldId, h: Hold, req: CaptureRequest): System {
    Do(lockKey, Do(lockKey, ServeCapture(lockKey, ReleaseAndCapture(lockKey, s, tenant, id, h, req), 2), Stage(1)), CommitRequest(1))
  }

  lemma ReleaseAndCaptureBegin(lockKey: AccountId -> int, s: System, tenant: string, id: HoldId, req: CaptureRequest)
    requires s.requests == map[]
    requires id < |s.db.holds| && s.db.holds[id].tenant == tenant
    requires CaptureRefusal(s.db.accounts, tenant, s.db.holds[id], req).None?
    ensures var k := Key(tenant, "", "");
      ReleaseAndCapture(lockKey, s, tenant, id, s.db.holds[id], req)
        == s.(requests := map[1 := Request(tenant, ReleaseOp(id), k, 0, s.db.clock, Admitted),
                              2 := Request(tenant, CaptureOp(id, s.db.holds[id], req), k, 0, s.db.clock, Admitted)])
  {
  }

  lemma ReleaseAndCaptureAreAdmitted(lockKey: AccountId -> int, s: System, tenant: string, id: HoldId, req: CaptureRequest)
    requires Inv(lockKey, s) && s.requests == map[]
    requires id < |s.db.holds| && s.db.holds[id].tenant == tenant
    requires CaptureRefusal(s.db.accounts, tenant, s.db.holds[id], req).None?
    ensures Inv(lockKey, ReleaseAndCapture(lockKey, s, tenant, id, s.db.holds[id], req))
  {
    var release, capture := Begin(1, tenant, ReleaseOp(id), "", 0), Begin(2, tenant, CaptureOp(id, s.db.holds[id], req), "", 0);
    StepKeepsInv(lockKey, s, release);
    StepKeepsInv(lockKey, Do(lockKey, s, release), capture);
  }

  /** A release that was admitted earlier marks its hold, whatever became of it. */
  lemma LateReleaseLands(lockKey: AccountId -> int, s: System, tenant: string, id: HoldId, r: Request)
    requires s.requests == map[1 := r] && s.locks == map[] && id < |s.db.holds|
    requires r == Request(tenant, ReleaseOp(id), Key(tenant, "", ""), 0, r.began, Admitted)
    ensures var end := Do(lockKey, Do(lockKey, s, Stage(1)), CommitRequest(1));
      && end.db == s.db.(holds := end.db.holds) && id < |end.db.holds|
      && end.db.holds[id] == s.db.holds[id].(state := Released, resolvedAt := Some(s.db.clock))
  {
    var quiet := s.(requests := map[]);
    assert s == ServedAlone.InFlight(quiet, 1, r);
    ServedAlone.LandedAlone(lockKey, quiet, 1, r);
  }

  lemma LateReleaseAfterCapture(lockKey: AccountId -> int, both: System, once: System, release: Request, capture: Request)
    requires both.requests == map[1 := release, 2 := capture] && capture.op.CaptureOp? && ServedOnce(both, once, 2, capture)
    requires release == Request(capture.tenant, ReleaseOp(capture.op.id), Key(capture.tenant, "", ""), 0, release.began, Admitted)
    ensures var h, id := capture.op.hold, capture.op.id;
      var end := Do(lockKey, Do(lockKey, once, Stage(1)), CommitRequest(1)).db;
      && |end.txns| == |both.db.txns| + 1
      && BalanceOr(end, h.account) == BalanceOr(both.db, h.account) - CaptureAmount(h, capture.op.capture)
      && id < |end.holds| && end.holds[id].state == Released && end.holds[id].capturedTxn == Some(|both.db.txns|)
      && !HoldsResolved(end)
  {
    assert once.requests == map[1 := release];
    LateReleaseLands(lockKey, once, capture.tenant, capture.op.id, release);
    ReleasedWithATransaction(Do(lockKey, Do(lockKey, once, Stage(1)), CommitRequest(1)).db, capture.op.id);
  }

  /** The money has moved and the hold names the transaction that moved it, yet it ends released. */
  lemma ReleaseLandsOnCapture(lockKey: AccountId -> int, s: System, tenant: string, id: HoldId, req: CaptureRequest)
    requires Inv(lockKey, s) && s.requests == map[] && s.locks == map[]
    requires id < |s.db.holds| && s.db.holds[id].tenant == tenant
    requires CaptureRefusal(s.db.accounts, tenant, s.db.holds[id], req).None?
    requires req.destination != s.db.holds[id].account
    requires BalanceOr(s.db, s.db.holds[id].account) >= CaptureAmount(s.db.holds[id], req)
    ensures var h := s.db.holds[id];
      var end := LateRelease(lockKey, s, tenant, id, h, req).db;
      && |end.txns| == |s.db.txns| + 1
      && BalanceOr(end, h.account) == BalanceOr(s.db, h.account) - CaptureAmount(h, req)
      && id < |end.holds| && end.holds[id].state == Released && end.holds[id].capturedTxn == Some(|s.db.txns|)
      && !HoldsResolved(end)
  {
    var both := ReleaseAndCapture(lockKey, s, tenant, id, s.db.holds[id], req);
    ReleaseAndCaptureBegin(lockKey, s, tenant, id, req);
    ReleaseAndCaptureAreAdmitted(lockKey, s, tenant, id, req);
    var r := both.requests[2];
    ServingTakesTheAmount(lockKey, both, 2, r);
    LateReleaseAfterCapture(lockKey, both, ServeCapture(lockKey, both, 2), both.requests[1], r);
  }

  lemma ReleasedWithATransaction(db: Ledger, id: HoldId)
    requires id < |db.holds| && db.holds[id].state == Released && db.holds[id].capturedTxn.Some?
    ensures !HoldsResolved(db)
  {
    assert !HoldResolved(db.events, db.holds[id]);
  }

  // ----- Reversal -----

  /** Committing a reversal keeps reversals paired one-to-one exactly when, at that moment, no other
      reversal of the same transaction has been committed. */
  lemma ReversalCommitKeepsPairingIff(db: Ledger, tenant: string, req: ReverseRequest, key: Key, fingerprint: int, at: Instant)
    requires Consistent(db) && CorrectionsSound(db)
    requires req.txn < |db.txns| && db.txns[req.txn].tenant == tenant && db.txns[req.txn].corrects.None?
    ensures CorrectionsSound(Commit(db, ReverseWrites(db, tenant, req, key, fingerprint, at)))
        <==> !HasReversal(db.txns, tenant, req.txn)
  {
    var w := ReverseWrites(db, tenant, req, key, fingerprint, at);
    if HasReversal(db.txns, tenant, req.txn) {
      SecondReversalUnpairs(db, w, tenant, req.txn);
    } else {
      ServiceEffects.TransactionHasPostings(db, req.txn);
      ReversalIsWellPosted(db, tenant, req, at);
      CommitKeepsCorrections(db, w);
    }
  }

  lemma SecondReversalUnpairs(db: Ledger, w: Writes, tenant: string, txn: TxnId)
    requires |w.entries| == 1 && w.entries[0].corrects == Some(txn) && HasReversal(db.txns, tenant, txn)
    ensures !CorrectionsSound(Commit(db, w))
  {
    var t :| t in db.txns && t.tenant == tenant && t.corrects == Some(txn);
    var i :| 0 <= i < |db.txns| && db.txns[i] == t;
    ReversalAppends(db, w, txn);
    assert Commit(db, w).txns[i] == Commit(db, w).txns[..|db.txns|][i];
  }

  /** Two reversals under different keys: both look, and both find none. */
  function BothStaged(lockKey: AccountId -> int, s: System, tenant: string, req: ReverseRequest, k1: string, k2: string): System {
    var op := ReverseOp(req);
    var both := Do(lockKey, Do(lockKey, s, Begin(1, tenant, op, k1, 0)), Begin(2, tenant, op, k2, 0));
    Do(lockKey, Do(lockKey, both, Stage(1)), Stage(2))
  }

  /** Then both commit. */
  function RacingReversals(lockKey: AccountId -> int, s: System, tenant: string, req: ReverseRequest, k1: string, k2: string): System {
    Do(lockKey, Do(lockKey, BothStaged(lockKey, s, tenant, req, k1, k2), CommitRequest(1)), CommitRequest(2))
  }

  lemma BothReversalsBegin(lockKey: AccountId -> int, s: System, tenant: string, op: Op, k1: string, k2: string)
    requires s.requests == map[] && op.ReverseOp?
    requires Key(tenant, REVERSALS, k1) !in s.db.records && Key(tenant, REVERSALS, k2) !in s.db.records
    ensures Do(lockKey, Do(lockKey, s, Begin(1, tenant, op, k1, 0)), Begin(2, tenant, op, k2, 0))
      == s.(requests := map[1 := Request(tenant, op, Key(tenant, REVERSALS, k1), 0, s.db.clock, Admitted),
                            2 := Request(tenant, op, Key(tenant, REVERSALS, k2), 0, s.db.clock, Admitted)])
  {
  }

  lemma BothReversalsStage(lockKey: AccountId -> int, s: System, tenant: string, req: ReverseRequest, k1: string, k2: string)
    requires s.requests == map[] && s.locks == map[] && ReverseRefusal(s.db, tenant, req.txn).None?
    requires Key(tenant, REVERSALS, k1) !in s.db.records && Key(tenant, REVERSALS, k2) !in s.db.records
    ensures var staged := BothStaged(lockKey, s, tenant, req, k1, k2);
      && staged.db == s.db && staged.requests.Keys == {1, 2}
      && staged.requests[1].phase == Staged(ReverseWrites(s.db, tenant, req, Key(tenant, REVERSALS, k1), 0, s.db.clock))
      && staged.requests[2].phase == Staged(ReverseWrites(s.db, tenant, req, Key(tenant, REVERSALS, k2), 0, s.db.clock))
  {
    BothReversalsBegin(lockKey, s, tenant, ReverseOp(req), k1, k2);
  }

  /** What one reversal's commit appends. */
  lemma ReversalAppends(db: Ledger, w: Writes, txn: TxnId)
    requires |w.entries| == 1 && w.entries[0].corrects == Some(txn)
    ensures var db' := Commit(db, w);
      |db'.txns| == |db.txns| + 1 && db'.txns[..|db.txns|] == db.txns && db'.txns[|db.txns|].corrects == Some(txn)
  {
    MovedFrame(db, w);
    PostAllFrame(db, w.tenant, w.at, w.entries);
    assert Commit(db, w).txns[|db.txns| + 0].corrects == Some(txn);
  }

  /** Any reversible transaction can be reversed twice this way. */
  lemma RacingReversalsBothLand(lockKey: AccountId -> int, s: System, tenant: string, req: ReverseRequest, k1: string, k2: string)
    requires s.requests == map[] && s.locks == map[]
    requires ReverseRefusal(s.db, tenant, req.txn).None? && k1 != k2
    requires Key(tenant, REVERSALS, k1) !in s.db.records && Key(tenant, REVERSALS, k2) !in s.db.records
    ensures var end, n := RacingReversals(lockKey, s, tenant, req, k1, k2).db, |s.db.txns|;
      && |end.txns| == n + 2
      && end.txns[n].corrects == Some(req.txn) && end.txns[n + 1].corrects == Some(req.txn)
      && !CorrectionsSound(end)
  {
    BothReversalsStage(lockKey, s, tenant, req, k1, k2);
    var staged, n := BothStaged(lockKey, s, tenant, req, k1, k2), |s.db.txns|;
    var w1, w2 := staged.requests[1].phase.writes, staged.requests[2].phase.writes;
    var first := Do(lockKey, staged, CommitRequest(1));
    MovedFrame(s.db, w1);
    assert first.db == Commit(s.db, w1) && first.requests[2] == staged.requests[2];
    ReversalAppends(s.db, w1, req.txn);
    var end := Do(lockKey, first, CommitRequest(2)).db;
    assert end == Commit(first.db, w2);
    ReversalAppends(first.db, w2, req.txn);
    assert end.txns[n] == end.txns[..n + 1][n];
  }
}
