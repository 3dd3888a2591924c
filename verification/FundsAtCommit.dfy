/** A funds check is made before the commit it is for. A reversal takes no lock, so it can take what a
    placement or transfer has already been cleared for. When each commit is still safe, exactly, and a
    run in which one is not. */
module FundsAtCommit {
  import opened Wrappers
  import opened Tables
  import opened PostingEngine
  import opened Services
  import opened ServiceLaws
  import opened Funds
  import opened Interleaving
  import opened InterleavedFunds
  import opened InterleavedSafety
  import Overdrafts
  import ServedAlone

  // ----- The exact conditions -----

  /** A commit that costs no other ordinary account anything is safe exactly when it leaves `a` safe. */
  lemma SafeIffTheSourceIs(db: Ledger, db': Ledger, a: AccountId)
    requires FundsSafe(db) && a < |db.accounts| && db'.accounts == db.accounts && db'.clock == db.clock
    requires forall b: nat | b < |db.accounts| && Ordinary(db.accounts, b) && b != a :: NoLoss(db, db', b)
    ensures FundsSafe(db') <==> (Ordinary(db.accounts, a) ==> AvailableAt(db', a, db.clock) >= 0)
  {
    forall b: nat | b < |db.accounts| && Ordinary(db.accounts, b) && b != a ensures AvailableAt(db', b, db.clock) >= 0 {
      assert AvailableAt(db, b, db.clock) >= 0 && NoLoss(db, db', b);
    }
  }

  lemma OthersLoseNothing(db: Ledger, r: Request, w: Writes)
    requires Valid(db) && OpSound(db, r.tenant, r.op) && (r.op.TransferOp? || r.op.PlaceOp?)
    requires r.phase == Staged(w) && WritesSound(db.accounts, r, w) && DebitsItsSource(db.accounts, r)
    ensures Commit(db, w).accounts == db.accounts && Commit(db, w).clock == db.clock
    ensures forall b: nat | b < |db.accounts| && Ordinary(db.accounts, b) && b != Source(r.op) :: NoLoss(db, Commit(db, w), b)
  {
    MovedFrame(db, w);
    forall b: nat | b < |db.accounts| && Ordinary(db.accounts, b) && b != Source(r.op) ensures NoLoss(db, Commit(db, w), b) {
      CommitSparesOthers(db, r, w, b);
    }
  }

  /** Committing a placement keeps funds safe exactly when what it will reserve is still available, or
      its account is exempt. A hold that has expired by then reserves nothing. */
  lemma PlaceCommitIsSafeIff(db: Ledger, r: Request, w: Writes)
    requires Valid(db) && FundsSafe(db) && OpSound(db, r.tenant, r.op) && r.op.PlaceOp?
    requires r.phase == Staged(w) && WritesSound(db.accounts, r, w)
    ensures var a := r.op.place.account;
      FundsSafe(Commit(db, w)) <==>
        || !Ordinary(db.accounts, a)
        || AvailableAt(db, a, db.clock) >= Reserved(w.holdChange.hold, db.accounts[a].tenant, a, db.clock)
  {
    OthersLoseNothing(db, r, w);
    CommitMovesAvailable(db, w, Source(r.op));
    SafeIffTheSourceIs(db, Commit(db, w), Source(r.op));
  }

  /** Committing a transfer keeps funds safe exactly when what it takes from its source is still
      available, or its source is exempt. */
  lemma TransferCommitIsSafeIff(db: Ledger, r: Request, w: Writes)
    requires Valid(db) && FundsSafe(db) && OpSound(db, r.tenant, r.op) && r.op.TransferOp?
    requires r.phase == Staged(w) && WritesSound(db.accounts, r, w) && DebitsItsSource(db.accounts, r)
    ensures var a := r.op.transfer.source;
      FundsSafe(Commit(db, w)) <==> !Ordinary(db.accounts, a) || AvailableAt(db, a, db.clock) >= -NetOf(w.entries, a)
  {
    OthersLoseNothing(db, r, w);
    CommitMovesAvailable(db, w, Source(r.op));
    SafeIffTheSourceIs(db, Commit(db, w), Source(r.op));
  }

  /** A release commits safely whatever else has: it takes nothing. */
  lemma ReleaseCommitIsSafe(db: Ledger, r: Request, w: Writes)
    requires Valid(db) && FundsSafe(db) && OpSound(db, r.tenant, r.op) && WritesSound(db.accounts, r, w) && r.op.ReleaseOp?
    ensures FundsSafe(Commit(db, w))
  {
    MovedFrame(db, w);
    forall a: nat | a < |db.accounts| && Ordinary(db.accounts, a) ensures AvailableAt(Commit(db, w), a, db.clock) >= 0 {
      assert AvailableAt(db, a, db.clock) >= 0;
      CommitSpares(db, w, a);
    }
  }

  // ----- A run that fails -----

  /** A placement reads its funds; a reversal is served in full; the placement goes on. */
  function ClearedFunds(tenant: string, place: PlaceRequest, k1: string): seq<Step> {
    [Begin(1, tenant, PlaceOp(place), k1, 0)] + [Acquire(1), ReadPosted(1), ReadHeld(1)]
  }

  function ClearedThenReversed(tenant: string, place: PlaceRequest, k1: string, reverse: ReverseRequest, k2: string): seq<Step> {
    ClearedFunds(tenant, place, k1) + [Begin(2, tenant, ReverseOp(reverse), k2, 0), Stage(2), CommitRequest(2)]
  }

  function PlacedAnyway(tenant: string, place: PlaceRequest, k1: string, reverse: ReverseRequest, k2: string): seq<Step> {
    ClearedThenReversed(tenant, place, k1, reverse, k2) + [Stage(1)] + [CommitRequest(1)]
  }

  /** The tables after the reversal. */
  function AfterReversal(db: Ledger, tenant: string, reverse: ReverseRequest, key: string): Ledger {
    Commit(db, ReverseWrites(db, tenant, reverse, Key(tenant, REVERSALS, key), 0, db.clock))
  }

  function ClearedPlacement(db: Ledger, tenant: string, place: PlaceRequest, key: string): Request {
    Request(tenant, PlaceOp(place), Key(tenant, PLACE, key), 0, db.clock, Cleared)
  }

  /** Both can start, and the account has what the placement asks for. */
  predicate BothCanStart(db: Ledger, tenant: string, place: PlaceRequest, k1: string, reverse: ReverseRequest, k2: string) {
    && Usable(db.accounts, tenant, place.account) && AvailableAt(db, place.account, db.clock) >= place.amount
    && ReverseRefusal(db, tenant, reverse.txn).None?
    && Key(tenant, PLACE, k1) !in db.records && Key(tenant, REVERSALS, k2) !in db.records
  }

  lemma ClearedFundsFly(lockKey: AccountId -> int, s: System, tenant: string, place: PlaceRequest, k1: string)
    requires Consistent(s.db) && ServedAlone.Quiet(s) && Key(tenant, PLACE, k1) !in s.db.records
    requires Usable(s.db.accounts, tenant, place.account) && AvailableAt(s.db, place.account, s.db.clock) >= place.amount
    ensures DoAll(lockKey, s, ClearedFunds(tenant, place, k1))
      == ServedAlone.Flying(lockKey, s, 1, ClearedPlacement(s.db, tenant, place, k1))
  {
    var begin, r := Begin(1, tenant, PlaceOp(place), k1, 0), ClearedPlacement(s.db, tenant, place, k1).(phase := Admitted);
    assert [] + [begin] == [begin];
    DoOneMore(lockKey, s, [], begin);
    ServedAlone.BeginAlone(lockKey, s, 1, tenant, PlaceOp(place), k1, 0);
    ServedAlone.DoThree(lockKey, s, [begin], Acquire(1), ReadPosted(1), ReadHeld(1));
    ServiceReadsAvailable(s.db, tenant, place.account, s.db.clock);
    ServedAlone.ClearedAlone(lockKey, s, 1, r);
  }

  lemma ClearedThenReversedFlies(lockKey: AccountId -> int, s: System, tenant: string, place: PlaceRequest, k1: string,
      reverse: ReverseRequest, k2: string)
    requires Consistent(s.db) && ServedAlone.Quiet(s) && BothCanStart(s.db, tenant, place, k1, reverse, k2)
    ensures var w := ReverseWrites(s.db, tenant, reverse, Key(tenant, REVERSALS, k2), 0, s.db.clock);
      DoAll(lockKey, s, ClearedThenReversed(tenant, place, k1, reverse, k2))
        == ServedAlone.Flying(lockKey, ServedAlone.Landed(s, w), 1, ClearedPlacement(s.db, tenant, place, k1))
  {
    var r := ClearedPlacement(s.db, tenant, place, k1);
    ClearedFundsFly(lockKey, s, tenant, place, k1);
    ServedAlone.DoThree(lockKey, s, ClearedFunds(tenant, place, k1),
      Begin(2, tenant, ReverseOp(reverse), k2, 0), Stage(2), CommitRequest(2));
    ServedAlone.ReversalBeside(lockKey, ServedAlone.Flying(lockKey, s, 1, r), 1, r, 2, tenant, reverse, k2);
  }

  lemma PlacedAnywayLands(lockKey: AccountId -> int, s: System, tenant: string, place: PlaceRequest, k1: string,
      reverse: ReverseRequest, k2: string)
    requires Consistent(s.db) && ServedAlone.Quiet(s) && BothCanStart(s.db, tenant, place, k1, reverse, k2)
    ensures DoAll(lockKey, s, PlacedAnyway(tenant, place, k1, reverse, k2)).db
      == Commit(AfterReversal(s.db, tenant, reverse, k2), PlaceWrites(tenant, place, Key(tenant, PLACE, k1), 0, s.db.clock))
  {
    var w := ReverseWrites(s.db, tenant, reverse, Key(tenant, REVERSALS, k2), 0, s.db.clock);
    var front, reversed := ClearedThenReversed(tenant, place, k1, reverse, k2), ServedAlone.Landed(s, w);
    MovedFrame(s.db, w);
    ClearedThenReversedFlies(lockKey, s, tenant, place, k1, reverse, k2);
    DoOneMore(lockKey, s, front, Stage(1));
    DoOneMore(lockKey, s, front + [Stage(1)], CommitRequest(1));
    ServedAlone.LandedAlone(lockKey, reversed, 1, ClearedPlacement(s.db, tenant, place, k1));
  }

  /** From `db` to `after`, what `a` can spend fell by `taken`. */
  predicate Fell(db: Ledger, after: Ledger, a: AccountId, taken: int) {
    && a < |db.accounts| && after.accounts == db.accounts && after.clock == db.clock
    && AvailableAt(after, a, db.clock) == AvailableAt(db, a, db.clock) - taken
  }

  /** What a placement takes from its account, whatever its check saw. */
  lemma PlacementTakes(db: Ledger, tenant: string, place: PlaceRequest, key: Key, at: Instant)
    requires Valid(db) && place.account < |db.accounts| && db.accounts[place.account].tenant == tenant
    requires place.expiresAt.Some? ==> place.expiresAt.value > db.clock
    requires at == db.clock
    ensures Fell(db, Commit(db, PlaceWrites(tenant, place, key, 0, at)), place.account, place.amount)
  {
    CommitMovesAvailable(db, PlaceWrites(tenant, place, key, 0, at), place.account);
  }

  /** Every ordinary account still has what the transaction brought it. */
  predicate CanBeSpared(db: Ledger, txn: TxnId)
    requires txn < |db.events|
  {
    forall b: nat | b < |db.accounts| && Ordinary(db.accounts, b) :: AvailableAt(db, b, db.clock) >= NetOfLegs(db.events[txn].legs, b)
  }

  lemma AfterReversalIsValid(db: Ledger, tenant: string, reverse: ReverseRequest, key: string)
    requires Valid(db) && ReverseRefusal(db, tenant, reverse.txn).None?
    ensures Valid(AfterReversal(db, tenant, reverse, key))
  {
    var k := Key(tenant, REVERSALS, key);
    StagedReversalIsWellFormed(db, tenant, reverse, k, 0, db.clock);
    CommitKeepsValid(db, ReverseWrites(db, tenant, reverse, k, 0, db.clock));
  }

  lemma SparedReversalIsSafe(db: Ledger, tenant: string, reverse: ReverseRequest, key: string, a: AccountId)
    requires Valid(db) && ReverseRefusal(db, tenant, reverse.txn).None? && CanBeSpared(db, reverse.txn) && a < |db.accounts|
    ensures var mid := AfterReversal(db, tenant, reverse, key);
      Valid(mid) && FundsSafe(mid) && Fell(db, mid, a, NetOfLegs(db.events[reverse.txn].legs, a))
  {
    var k := Key(tenant, REVERSALS, key);
    Overdrafts.ReversalCommitIsSafeIff(db, tenant, reverse, k, 0, db.clock);
    Overdrafts.ReversalMovesAvailable(db, tenant, reverse, k, 0, db.clock, a);
    AfterReversalIsValid(db, tenant, reverse, key);
  }

  lemma FallsAddUp(db: Ledger, mid: Ledger, end: Ledger, a: AccountId, first: int, second: int)
    requires Fell(db, mid, a, first) && Fell(mid, end, a, second)
    ensures Fell(db, end, a, first + second)
    ensures Ordinary(db.accounts, a) && AvailableAt(db, a, db.clock) < first + second ==> !FundsSafe(end)
  {
  }

  /** A placement is cleared; a reversal that every account can spare commits and leaves funds safe; the
      placement commits, and reserves what the reversal took. Unless the account had enough for both,
      it is left with less than nothing. */
  lemma ReversalTakesClearedFunds(lockKey: AccountId -> int, s: System, tenant: string, place: PlaceRequest, k1: string,
      reverse: ReverseRequest, k2: string)
    requires Valid(s.db) && ServedAlone.Quiet(s) && BothCanStart(s.db, tenant, place, k1, reverse, k2)
    requires place.expiresAt.Some? ==> place.expiresAt.value > s.db.clock
    requires CanBeSpared(s.db, reverse.txn)
    ensures FundsSafe(AfterReversal(s.db, tenant, reverse, k2))
    ensures var a, brought := place.account, NetOfLegs(s.db.events[reverse.txn].legs, place.account);
      var end := DoAll(lockKey, s, PlacedAnyway(tenant, place, k1, reverse, k2)).db;
      && Fell(s.db, end, a, brought + place.amount)
      && (Ordinary(s.db.accounts, a) && AvailableAt(s.db, a, s.db.clock) < brought + place.amount ==> !FundsSafe(end))
  {
    var a, mid := place.account, AfterReversal(s.db, tenant, reverse, k2);
    SparedReversalIsSafe(s.db, tenant, reverse, k2, a);
    PlacedAnywayLands(lockKey, s, tenant, place, k1, reverse, k2);
    PlacementTakes(mid, tenant, place, Key(tenant, PLACE, k1), s.db.clock);
    FallsAddUp(s.db, mid, DoAll(lockKey, s, PlacedAnyway(tenant, place, k1, reverse, k2)).db, a,
      NetOfLegs(s.db.events[reverse.txn].legs, a), place.amount);
  }
}
