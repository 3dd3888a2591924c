/** What every interleaving leaves to spend: funds checked under a lock stay covered, whoever commits
    in between, and the two operations that check no funds are admitted exactly where they are
    covered. */
module InterleavedFunds {
  import opened Wrappers
  import opened Money
  import opened Tables
  import opened PostingEngine
  import opened Services
  import opened ServiceLaws
  import opened Funds
  import opened Interleaving
  import opened InterleavedSafety
  import Rates

  // ----- Transfers debit their source only -----

  /** `a` is no conversion account, as far as the chart goes. */
  predicate MayBeOrdinary(accounts: seq<Account>, a: AccountId) {
    a < |accounts| ==> Ordinary(accounts, a)
  }

  function Least(a: AccountId, source: AccountId, amount: int): int {
    if a == source then -amount else 0
  }

  /** The entries take at most `amount`, and only from `source`; conversion accounts aside. */
  ghost predicate DebitsOnly(accounts: seq<Account>, entries: seq<Entry>, source: AccountId, amount: int) {
    forall a: nat | MayBeOrdinary(accounts, a) :: NetOf(entries, a) >= Least(a, source, amount)
  }

  lemma RoundingKeepsSign(x: real)
    requires x >= 0.0
    ensures HalfEven(x) >= 0
  {
  }

  lemma ConversionPaysNoLess(amount: int, from: Currency, to: Currency, rate: real)
    requires amount > 0 && rate >= 0.0
    ensures Convert(amount, from, to, rate) >= 0
  {
    if from != to {
      var s, t := Pow10(Exponent(from)), Pow10(Exponent(to));
      assert ToDecimal(amount, Exponent(from)) >= 0.0;
      assert ToDecimal(amount, Exponent(from)) * rate >= 0.0;
      assert ToDecimal(amount, Exponent(from)) * rate * t >= 0.0;
      RoundingKeepsSign(ToDecimal(amount, Exponent(from)) * rate * t);
    }
  }

  lemma RouteDebitsOnlyItsSource(accounts: seq<Account>, entries: seq<Entry>, source: AccountId, fromConversion: AccountId,
      toConversion: AccountId, destination: AccountId, amount: int, target: int, at: Instant)
    requires |entries| == 2
    requires entries[0].legs == TwoLegs(source, fromConversion, amount, at)
    requires entries[1].legs == TwoLegs(toConversion, destination, target, at)
    requires amount >= 0 && target >= 0
    requires toConversion < |accounts| && !Ordinary(accounts, toConversion)
    ensures DebitsOnly(accounts, entries, source, amount)
  {
    forall a: nat | MayBeOrdinary(accounts, a) ensures NetOf(entries, a) >= Least(a, source, amount) {
      assert entries == [entries[0], entries[1]];
      NetOfTwo(entries[0], entries[1], a);
      NetOfTwoLegs(source, fromConversion, amount, at, a);
      NetOfTwoLegs(toConversion, destination, target, at, a);
    }
  }

  lemma TransferDebitsOnlyItsSource(db: Ledger, tenant: string, req: TransferRequest, at: Instant)
    requires Rates.NonNegativeRates(db.rates)
    requires Usable(db.accounts, tenant, req.source) && Usable(db.accounts, tenant, req.destination)
    requires TransferEntries(db, tenant, req, at).Ok?
    ensures DebitsOnly(db.accounts, TransferEntries(db, tenant, req, at).value, req.source, req.amount)
  {
    var entries := TransferEntries(db, tenant, req, at).value;
    var from, to := db.accounts[req.source].currency, db.accounts[req.destination].currency;
    var effectiveAt := if req.effectiveAt.Some? then req.effectiveAt.value else at;
    if from == to {
      forall a: nat ensures NetOf(entries, a) >= Least(a, req.source, req.amount) {
        NetOfOne(entries[0], a);
        NetOfTwoLegs(req.source, req.destination, req.amount, effectiveAt, a);
      }
    } else {
      var rate := Rates.Resolve(db.rates, from, to, effectiveAt).value.rate;
      Rates.ResolvedRateIsNonNegative(db.rates, from, to, effectiveAt);
      ConversionPaysNoLess(req.amount, from, to, rate);
      ConversionAccountIsUsable(db.accounts, tenant, to);
      var toConversion := ConversionAccount(db.accounts, tenant, to).value;
      assert IsConversionPath(db.accounts[toConversion].path);
      RouteDebitsOnlyItsSource(db.accounts, entries, req.source, ConversionAccount(db.accounts, tenant, from).value, toConversion,
        req.destination, req.amount, Convert(req.amount, from, to, rate), effectiveAt);
    }
  }

  // ----- What is known of funds -----

  /** The request has read its source's funds and relies on them. */
  predicate CountsOnFunds(r: Request) {
    (r.op.TransferOp? || r.op.PlaceOp?) && (r.phase.PostedRead? || r.phase == Cleared || r.phase.Staged?)
  }

  /** What the request relies on is there, were its source to have `net` more: the funds it asked for,
      or, before it has read the holds, the posted balance it read. */
  predicate CoveredWith(db: Ledger, r: Request, net: int)
    requires CountsOnFunds(r) && Source(r.op) < |db.accounts|
  {
    || Amount(r.op) <= AvailableAt(db, Source(r.op), db.clock) + net
    || (r.phase.PostedRead? && r.phase.posted <= BalanceOr(db, Source(r.op)) + net)
  }

  /** What such a request relies on, if its source is an ordinary account. */
  predicate SourceCovered(db: Ledger, r: Request) {
    CountsOnFunds(r) && Ordinary(db.accounts, Source(r.op)) ==> CoveredWith(db, r, 0)
  }

  ghost predicate DebitsItsSource(accounts: seq<Account>, r: Request) {
    r.op.TransferOp? && r.phase.Staged? ==>
      DebitsOnly(accounts, r.phase.writes.entries, r.op.transfer.source, r.op.transfer.amount)
  }

  ghost predicate RequestFunded(db: Ledger, r: Request) {
    SourceCovered(db, r) && DebitsItsSource(db.accounts, r)
  }

  ghost predicate Funded(s: System) {
    && FundsSafe(s.db)
    && Rates.NonNegativeRates(s.db.rates)
    && forall id | id in s.requests :: RequestFunded(s.db, s.requests[id])
  }

  /** What the hold still reserves, with what is otherwise available, covers the capture; or the
      money stays on the account, or the account is exempt. */
  predicate CaptureIsCovered(db: Ledger, r: Request)
    requires r.op.CaptureOp?
  {
    var a := r.op.hold.account;
    Ordinary(db.accounts, a) && r.op.capture.destination != a && r.op.id < |db.holds| ==>
      AvailableAt(db, a, db.clock) + Reserved(db.holds[r.op.id], r.tenant, a, db.clock) >= CaptureAmount(r.op.hold, r.op.capture)
  }

  /** Whoever in flight counts on `a` is still covered once `a` has `net` more. */
  predicate EverybodyStaysCovered(s: System, a: AccountId, net: int)
    requires a < |s.db.accounts|
  {
    forall id <- s.requests ::
      CountsOnFunds(s.requests[id]) && Source(s.requests[id].op) == a ==> CoveredWith(s.db, s.requests[id], net)
  }

  /** Every ordinary account the reversal takes from can spare it, and with that gone, so can the
      requests in flight that have already counted on that account's funds. */
  ghost predicate ReversalIsCovered(s: System, w: Writes) {
    forall a: nat | a < |s.db.accounts| && Ordinary(s.db.accounts, a) && NetOf(w.entries, a) < 0 ::
      AvailableAt(s.db, a, s.db.clock) + NetOf(w.entries, a) >= 0 && EverybodyStaysCovered(s, a, NetOf(w.entries, a))
  }

  /** The step commits no uncovered capture or reversal, neither of which checks what is available,
      and quotes no negative rate. */
  ghost predicate Disciplined(s: System, step: Step) {
    match step
    case CommitRequest(id) =>
      GoesThrough(s, step) ==>
        && (s.requests[id].op.CaptureOp? ==> CaptureIsCovered(s.db, s.requests[id]))
        && (s.requests[id].op.ReverseOp? ==> ReversalIsCovered(s, s.requests[id].phase.writes))
    case QuoteStep(rate) => rate.rate >= 0.0
    case _ => true
  }

  /** A capture of a hold that still reserves what it is about to take is covered. */
  lemma LiveHoldsCoverTheirCapture(db: Ledger, r: Request)
    requires FundsSafe(db) && OpSound(db, r.tenant, r.op) && r.op.CaptureOp?
    requires Reserves(db.holds[r.op.id], r.tenant, r.op.hold.account, db.clock)
    ensures CaptureIsCovered(db, r)
  {
    if Ordinary(db.accounts, r.op.hold.account) {
      assert AvailableAt(db, r.op.hold.account, db.clock) >= 0;
    }
  }

  predicate NoLoss(db: Ledger, db': Ledger, a: AccountId)
    requires a < |db.accounts| && db.accounts <= db'.accounts
  {
    BalanceOr(db, a) <= BalanceOr(db', a) && AvailableAt(db, a, db.clock) <= AvailableAt(db', a, db'.clock)
  }

  lemma DebitsOnlyForward(accounts: seq<Account>, more: seq<Account>, entries: seq<Entry>, source: AccountId, amount: int)
    requires DebitsOnly(accounts, entries, source, amount) && accounts <= more
    ensures DebitsOnly(more, entries, source, amount)
  {
    forall a: nat | MayBeOrdinary(more, a) ensures MayBeOrdinary(accounts, a) {}
  }

  lemma FundedWithoutLoss(db: Ledger, db': Ledger, r: Request)
    requires db.accounts <= db'.accounts && OpSound(db, r.tenant, r.op) && RequestFunded(db, r)
    requires CountsOnFunds(r) && Ordinary(db.accounts, Source(r.op)) ==> NoLoss(db, db', Source(r.op))
    ensures RequestFunded(db', r)
  {
    if r.op.TransferOp? && r.phase.Staged? {
      DebitsOnlyForward(db.accounts, db'.accounts, r.phase.writes.entries, r.op.transfer.source, r.op.transfer.amount);
    }
  }

  lemma OthersFundedWithoutLoss(lockKey: AccountId -> int, s: System, db': Ledger, id: nat)
    requires Inv(lockKey, s) && Funded(s) && id in s.requests && s.db.accounts <= db'.accounts
    requires forall a: nat | a < |s.db.accounts| && Ordinary(s.db.accounts, a) :: NoLoss(s.db, db', a)
    ensures RequestFunded(db', s.requests[id])
  {
    assert RequestSound(s.db, s.requests[id]) && RequestFunded(s.db, s.requests[id]);
    FundedWithoutLoss(s.db, db', s.requests[id]);
  }

  /** Changes that cost no ordinary account anything keep everyone funded. */
  lemma LosslessKeepsFunded(lockKey: AccountId -> int, s: System, db': Ledger)
    requires Inv(lockKey, s) && Funded(s)
    requires s.db.accounts <= db'.accounts && Rates.NonNegativeRates(db'.rates)
    requires forall a: nat | a < |s.db.accounts| && Ordinary(s.db.accounts, a) :: NoLoss(s.db, db', a)
    requires forall a: nat | |s.db.accounts| <= a < |db'.accounts| :: AvailableAt(db', a, db'.clock) >= 0
    ensures Funded(s.(db := db'))
  {
    forall a: nat | a < |db'.accounts| && Ordinary(db'.accounts, a) ensures AvailableAt(db', a, db'.clock) >= 0 {
      if a < |s.db.accounts| { assert AvailableAt(s.db, a, s.db.clock) >= 0 && NoLoss(s.db, db', a); }
    }
    forall id | id in s.requests ensures RequestFunded(db', s.requests[id]) {
      OthersFundedWithoutLoss(lockKey, s, db', id);
    }
  }

  // ----- What one commit costs -----

  lemma FreedIsNeverNegativeUnlessPlaced(db: Ledger, change: HoldChange, tenant: string, a: AccountId, now: Instant)
    requires HoldsWellFormed(db)
    ensures !change.PlaceHold? ==> Freed(db.holds, change, tenant, a, now) >= 0
    ensures change.PlaceHold? && change.hold.account != a ==> Freed(db.holds, change, tenant, a, now) == 0
    ensures change.PlaceHold? && change.hold.amount > 0 ==> Freed(db.holds, change, tenant, a, now) >= -change.hold.amount
  {
    if change.MarkCaptured? && change.id < |db.holds| { assert HoldWellFormed(db.accounts, db.holds[change.id]); }
    if change.MarkReleased? && change.id < |db.holds| { assert HoldWellFormed(db.accounts, db.holds[change.id]); }
  }

  /** A commit costs an account nothing that it does not debit and places no hold on. */
  lemma CommitSpares(db: Ledger, w: Writes, a: AccountId)
    requires Valid(db) && AllWellPosted(db.accounts, w.tenant, w.entries) && a < |db.accounts|
    requires NetOf(w.entries, a) >= 0 && (w.holdChange.PlaceHold? ==> w.holdChange.hold.account != a)
    ensures Commit(db, w).accounts == db.accounts
    ensures NoLoss(db, Commit(db, w), a)
  {
    CommitMovesAvailable(db, w, a);
    CommitMovesBalance(db, w, a);
    FreedIsNeverNegativeUnlessPlaced(db, w.holdChange, db.accounts[a].tenant, a, db.clock);
  }

  /** Reversals aside, requests debit no ordinary account but the one whose lock they took. */
  lemma OnlyTheSourceIsDebited(accounts: seq<Account>, r: Request, w: Writes, a: AccountId)
    requires r.phase == Staged(w) && WritesSound(accounts, r, w) && DebitsItsSource(accounts, r) && !r.op.ReverseOp?
    requires Ordinary(accounts, a) && (TakesLock(r.op) ==> Source(r.op) != a)
    requires r.op.CaptureOp? ==> CaptureAmount(r.op.hold, r.op.capture) >= 0
    ensures NetOf(w.entries, a) >= 0
  {
    assert MayBeOrdinary(accounts, a);
    if r.op.CaptureOp? {
      NetOfOne(w.entries[0], a);
      NetOfTwoLegs(r.op.hold.account, r.op.capture.destination, CaptureAmount(r.op.hold, r.op.capture), w.at, a);
    }
  }

  lemma CommitSparesOthers(db: Ledger, r: Request, w: Writes, a: AccountId)
    requires Valid(db) && OpSound(db, r.tenant, r.op) && !r.op.ReverseOp?
    requires r.phase == Staged(w) && WritesSound(db.accounts, r, w) && DebitsItsSource(db.accounts, r)
    requires Ordinary(db.accounts, a) && (TakesLock(r.op) ==> Source(r.op) != a)
    ensures Commit(db, w).accounts == db.accounts
    ensures NoLoss(db, Commit(db, w), a)
  {
    OnlyTheSourceIsDebited(db.accounts, r, w, a);
    CommitSpares(db, w, a);
  }

  /** What a capture takes from its account, net of what it frees there. */
  lemma CaptureTakes(db: Ledger, r: Request, w: Writes)
    requires HoldsWellFormed(db) && WritesSound(db.accounts, r, w) && OpSound(db, r.tenant, r.op) && r.op.CaptureOp?
    ensures var a := r.op.hold.account;
      && NetOf(w.entries, a) == (if r.op.capture.destination == a then 0 else -CaptureAmount(r.op.hold, r.op.capture))
      && Freed(db.holds, w.holdChange, db.accounts[a].tenant, a, db.clock) == Reserved(db.holds[r.op.id], r.tenant, a, db.clock)
      && Reserved(db.holds[r.op.id], r.tenant, a, db.clock) >= 0
  {
    var a := r.op.hold.account;
    assert HoldWellFormed(db.accounts, db.holds[r.op.id]);
    NetOfOne(w.entries[0], a);
    NetOfTwoLegs(a, r.op.capture.destination, CaptureAmount(r.op.hold, r.op.capture), w.at, a);
  }

  /** A commit leaves its locked source with nothing below zero, if the funds it relied on are still
      there. */
  lemma CommitLeavesItsSourceFunded(db: Ledger, r: Request, w: Writes)
    requires Valid(db) && FundsSafe(db) && WritesSound(db.accounts, r, w) && OpSound(db, r.tenant, r.op)
    requires TakesLock(r.op) && Ordinary(db.accounts, Source(r.op))
    requires r.phase == Staged(w) && RequestFunded(db, r) && (r.op.CaptureOp? ==> CaptureIsCovered(db, r))
    ensures Commit(db, w).accounts == db.accounts && Commit(db, w).clock == db.clock
    ensures AvailableAt(Commit(db, w), Source(r.op), db.clock) >= 0
  {
    var a := Source(r.op);
    CommitMovesAvailable(db, w, a);
    assert MayBeOrdinary(db.accounts, a);
    assert AvailableAt(db, a, db.clock) >= 0;
    if r.op.CaptureOp? {
      CaptureTakes(db, r, w);
    } else {
      FreedIsNeverNegativeUnlessPlaced(db, w.holdChange, db.accounts[a].tenant, a, db.clock);
    }
  }

  lemma CoveredReversalLeavesFunds(s: System, r: Request, w: Writes, a: AccountId)
    requires Valid(s.db) && FundsSafe(s.db) && WritesSound(s.db.accounts, r, w) && r.op.ReverseOp?
    requires ReversalIsCovered(s, w) && Ordinary(s.db.accounts, a)
    ensures Commit(s.db, w).accounts == s.db.accounts && Commit(s.db, w).clock == s.db.clock
    ensures AvailableAt(Commit(s.db, w), a, s.db.clock) >= 0
  {
    CommitMovesAvailable(s.db, w, a);
    assert AvailableAt(s.db, a, s.db.clock) >= 0;
  }

  lemma CommitKeepsFundsSafe(lockKey: AccountId -> int, s: System, id: nat)
    requires Inv(lockKey, s) && Funded(s) && Disciplined(s, CommitRequest(id))
    requires GoesThrough(s, CommitRequest(id))
    ensures FundsSafe(Commit(s.db, s.requests[id].phase.writes))
  {
    var r := s.requests[id];
    var w, db' := r.phase.writes, Commit(s.db, r.phase.writes);
    assert RequestSound(s.db, r) && RequestFunded(s.db, r);
    MovedFrame(s.db, w);
    forall a: nat | a < |db'.accounts| && Ordinary(db'.accounts, a) ensures AvailableAt(db', a, db'.clock) >= 0 {
      assert AvailableAt(s.db, a, s.db.clock) >= 0;
      if r.op.ReverseOp? {
        CoveredReversalLeavesFunds(s, r, w, a);
      } else if TakesLock(r.op) && Source(r.op) == a {
        CommitLeavesItsSourceFunded(s.db, r, w);
      } else {
        CommitSparesOthers(s.db, r, w, a);
      }
    }
  }

  lemma CommitKeepsFunded(lockKey: AccountId -> int, s: System, id: nat)
    requires Inv(lockKey, s) && Funded(s) && Disciplined(s, CommitRequest(id))
    ensures Funded(Do(lockKey, s, CommitRequest(id)))
  {
    DropKeepsFunded(s, id);
    if GoesThrough(s, CommitRequest(id)) {
      CommitKeepsFundsSafe(lockKey, s, id);
      MovedFrame(s.db, s.requests[id].phase.writes);
      forall i | i in s.requests && i != id
        ensures RequestFunded(Commit(s.db, s.requests[id].phase.writes), s.requests[i])
      {
        OthersStayFunded(lockKey, s, id, i);
      }
    }
  }

  /** What a commit leaves covered of a request that relies on an account it moves by `net` and places
      no hold on. */
  lemma CommitLeavesCovered(db: Ledger, w: Writes, q: Request)
    requires Valid(db) && AllWellPosted(db.accounts, w.tenant, w.entries) && w.holdChange.KeepHolds?
    requires CountsOnFunds(q) && Source(q.op) < |db.accounts| && CoveredWith(db, q, NetOf(w.entries, Source(q.op)))
    ensures Commit(db, w).accounts == db.accounts
    ensures CoveredWith(Commit(db, w), q, 0)
  {
    CommitMovesAvailable(db, w, Source(q.op));
    CommitMovesBalance(db, w, Source(q.op));
  }

  /** Of a covered reversal: whoever counts on funds is left with them. */
  lemma ReversalLeavesOthersFunded(s: System, r: Request, w: Writes, i: nat)
    requires Valid(s.db) && r.op.ReverseOp? && WritesSound(s.db.accounts, r, w) && ReversalIsCovered(s, w)
    requires i in s.requests && RequestFunded(s.db, s.requests[i])
    ensures RequestFunded(Commit(s.db, w), s.requests[i])
  {
    var q := s.requests[i];
    MovedFrame(s.db, w);
    if CountsOnFunds(q) && Ordinary(s.db.accounts, Source(q.op)) {
      if NetOf(w.entries, Source(q.op)) < 0 {
        assert EverybodyStaysCovered(s, Source(q.op), NetOf(w.entries, Source(q.op)));
      }
      CommitLeavesCovered(s.db, w, q);
    }
  }

  /** Another request counting on funds has another source, because equal sources share a lock; a
      covered reversal leaves it covered. */
  lemma OthersStayFunded(lockKey: AccountId -> int, s: System, id: nat, i: nat)
    requires Inv(lockKey, s) && Funded(s) && Disciplined(s, CommitRequest(id))
    requires GoesThrough(s, CommitRequest(id)) && i in s.requests && i != id
    ensures RequestFunded(Commit(s.db, s.requests[id].phase.writes), s.requests[i])
  {
    var r, q := s.requests[id], s.requests[i];
    assert RequestSound(s.db, r) && HoldsItsLock(lockKey, s, id) && RequestFunded(s.db, r);
    assert RequestSound(s.db, q) && HoldsItsLock(lockKey, s, i) && RequestFunded(s.db, q);
    if r.op.ReverseOp? {
      ReversalLeavesOthersFunded(s, r, r.phase.writes, i);
    } else {
      MovedFrame(s.db, r.phase.writes);
      if CountsOnFunds(q) && Ordinary(s.db.accounts, Source(q.op)) {
        CommitSparesOthers(s.db, r, r.phase.writes, Source(q.op));
      }
      FundedWithoutLoss(s.db, Commit(s.db, r.phase.writes), q);
    }
  }

  // ----- The reads under the lock -----

  lemma PositiveAmounts(db: Ledger)
    requires HoldsWellFormed(db)
    ensures PositiveHolds(db.holds)
  {
    forall i | 0 <= i < |db.holds| ensures db.holds[i].amount > 0 { assert HoldWellFormed(db.accounts, db.holds[i]); }
  }

  lemma DropKeepsFunded(s: System, id: nat)
    requires Funded(s)
    ensures Funded(Drop(s, id))
  {
    forall i | i in Drop(s, id).requests ensures RequestFunded(s.db, s.requests[i]) {}
  }

  lemma AdvanceKeepsFunded(s: System, id: nat, phase: Option<Phase>)
    requires Funded(s) && id in s.requests
    requires phase.Some? ==> RequestFunded(s.db, s.requests[id].(phase := phase.value))
    ensures Funded(Advance(s, id, phase))
  {
    if phase.None? {
      DropKeepsFunded(s, id);
    } else {
      var s' := Advance(s, id, phase);
      forall i | i in s'.requests ensures RequestFunded(s'.db, s'.requests[i]) {
        if i != id { assert RequestFunded(s.db, s.requests[i]); }
      }
    }
  }

  /** The posted balance is read before the holds; both reads are under the lock. */
  lemma PostedIsReadTruly(db: Ledger, r: Request)
    requires Valid(db) && OpSound(db, r.tenant, r.op) && TakesLock(r.op)
    ensures AfterPosted(db, r).Some? ==> RequestFunded(db, r.(phase := AfterPosted(db, r).value))
  {
    ServiceReadsAvailable(db, r.tenant, Source(r.op), db.clock);
  }

  /** The holds are summed at the request's own start, so what has expired since still counts. */
  lemma ClearanceIsSafe(db: Ledger, r: Request)
    requires HoldsWellFormed(db) && OpSound(db, r.tenant, r.op) && r.began <= db.clock
    requires r.op.TransferOp? || r.op.PlaceOp?
    requires r.phase.PostedRead? && RequestFunded(db, r)
    requires r.phase.posted - HeldTotal(db.holds, r.tenant, Source(r.op), r.began) >= Amount(r.op)
    ensures RequestFunded(db, r.(phase := Cleared))
  {
    PositiveAmounts(db);
    HeldOnlyLapses(db.holds, r.tenant, Source(r.op), r.began, db.clock);
  }

  lemma ReadPostedKeepsFunded(lockKey: AccountId -> int, s: System, id: nat)
    requires Inv(lockKey, s) && Funded(s)
    ensures Funded(Do(lockKey, s, ReadPosted(id)))
  {
    if id in s.requests && s.requests[id].phase == Locked && TakesLock(s.requests[id].op) {
      assert RequestSound(s.db, s.requests[id]);
      PostedIsReadTruly(s.db, s.requests[id]);
      AdvanceKeepsFunded(s, id, AfterPosted(s.db, s.requests[id]));
    }
  }

  lemma ReadHeldKeepsFunded(lockKey: AccountId -> int, s: System, id: nat)
    requires Inv(lockKey, s) && Funded(s)
    ensures Funded(Do(lockKey, s, ReadHeld(id)))
  {
    if id in s.requests && s.requests[id].phase.PostedRead? && (s.requests[id].op.TransferOp? || s.requests[id].op.PlaceOp?) {
      var r := s.requests[id];
      assert RequestSound(s.db, r) && RequestFunded(s.db, r);
      if r.phase.posted - HeldTotal(s.db.holds, r.tenant, Source(r.op), r.began) >= Amount(r.op) {
        ClearanceIsSafe(s.db, r);
        AdvanceKeepsFunded(s, id, Some(Cleared));
      } else {
        AdvanceKeepsFunded(s, id, None);
      }
    }
  }

  lemma StageKeepsFunded(lockKey: AccountId -> int, s: System, id: nat)
    requires Inv(lockKey, s) && Funded(s)
    ensures Funded(Do(lockKey, s, Stage(id)))
  {
    if id in s.requests && ReadyToStage(s.requests[id]) {
      var r := s.requests[id];
      assert RequestSound(s.db, r) && RequestFunded(s.db, r);
      match StagedWrites(s.db, r)
      case None => AdvanceKeepsFunded(s, id, None);
      case Some(w) =>
        if r.op.TransferOp? { TransferDebitsOnlyItsSource(s.db, r.tenant, r.op.transfer, s.db.clock); }
        AdvanceKeepsFunded(s, id, Some(Staged(w)));
    }
  }

  lemma EntryKeepsFunded(lockKey: AccountId -> int, s: System, step: Step)
    requires Funded(s) && (step.Begin? || step.Acquire?)
    ensures Funded(Do(lockKey, s, step))
  {
    var s' := Do(lockKey, s, step);
    forall i | i in s'.requests ensures RequestFunded(s'.db, s'.requests[i]) {
      if i in s.requests && s'.requests[i] == s.requests[i] { assert RequestFunded(s.db, s.requests[i]); }
    }
  }

  predicate IsDispatch(step: Step) {
    step.DispatchRead? || step.DispatchMark? || step.DispatcherCrash?
  }

  /** Sweeping, quoting and dispatching touch neither balances nor holds. */
  lemma UpkeepKeepsFunded(lockKey: AccountId -> int, s: System, step: Step)
    requires Funded(s) && Disciplined(s, step)
    requires step.SweepBegin? || step.SweepDelete? || step.QuoteStep? || IsDispatch(step)
    ensures Funded(Do(lockKey, s, step))
  {
    var s' := Do(lockKey, s, step);
    forall a: nat | a < |s'.db.accounts| && Ordinary(s'.db.accounts, a) ensures AvailableAt(s'.db, a, s'.db.clock) >= 0 {
      assert AvailableAt(s.db, a, s.db.clock) >= 0;
    }
    forall i | i in s'.requests ensures RequestFunded(s'.db, s'.requests[i]) {
      assert RequestFunded(s.db, s.requests[i]);
    }
  }

  lemma TickLosesNothing(db: Ledger, elapsed: nat, a: AccountId)
    requires PositiveHolds(db.holds) && a < |db.accounts|
    ensures NoLoss(db, db.(clock := db.clock + elapsed), a)
  {
    HeldOnlyLapses(db.holds, db.accounts[a].tenant, a, db.clock, db.clock + elapsed);
  }

  lemma TickKeepsFunded(lockKey: AccountId -> int, s: System, elapsed: nat)
    requires Inv(lockKey, s) && Funded(s)
    ensures Funded(Do(lockKey, s, TickStep(elapsed)))
  {
    var db' := s.db.(clock := s.db.clock + elapsed);
    PositiveAmounts(s.db);
    forall a: nat | a < |s.db.accounts| && Ordinary(s.db.accounts, a) ensures NoLoss(s.db, db', a) {
      TickLosesNothing(s.db, elapsed, a);
    }
    LosslessKeepsFunded(lockKey, s, db');
  }

  lemma OpenLosesNothing(db: Ledger, tenant: string, path: string, currency: Currency)
    requires Valid(db)
    ensures var db' := OpenAccount(db, tenant, path, currency);
      && (forall a: nat | a < |db.accounts| :: NoLoss(db, db', a))
      && AvailableAt(db', |db.accounts|, db.clock) == 0
  {
    forall i | 0 <= i < |db.holds| ensures db.holds[i].account != |db.accounts| {
      assert HoldWellFormed(db.accounts, db.holds[i]);
    }
    NothingHeldOnNewAccount(db.holds, tenant, |db.accounts|, db.clock);
  }

  lemma OpenKeepsFunded(lockKey: AccountId -> int, s: System, tenant: string, path: string, currency: Currency)
    requires Inv(lockKey, s) && Funded(s)
    ensures Funded(Do(lockKey, s, OpenStep(tenant, path, currency)))
  {
    var db' := OpenAccount(s.db, tenant, path, currency);
    OpenLosesNothing(s.db, tenant, path, currency);
    LosslessKeepsFunded(lockKey, s, db');
  }

  lemma StepKeepsFunded(lockKey: AccountId -> int, s: System, step: Step)
    requires Inv(lockKey, s) && Funded(s) && Disciplined(s, step)
    ensures Funded(Do(lockKey, s, step))
  {
    match step
    case Begin(_, _, _, _, _) => EntryKeepsFunded(lockKey, s, step);
    case Acquire(_) => EntryKeepsFunded(lockKey, s, step);
    case ReadPosted(id) => ReadPostedKeepsFunded(lockKey, s, id);
    case ReadHeld(id) => ReadHeldKeepsFunded(lockKey, s, id);
    case Stage(id) => StageKeepsFunded(lockKey, s, id);
    case CommitRequest(id) => CommitKeepsFunded(lockKey, s, id);
    case Crash(id) => DropKeepsFunded(s, id);
    case SweepBegin(_, _) => UpkeepKeepsFunded(lockKey, s, step);
    case SweepDelete(_) => UpkeepKeepsFunded(lockKey, s, step);
    case OpenStep(tenant, path, currency) => OpenKeepsFunded(lockKey, s, tenant, path, currency);
    case QuoteStep(_) => UpkeepKeepsFunded(lockKey, s, step);
    case DispatchRead(_, _, _) => UpkeepKeepsFunded(lockKey, s, step);
    case DispatchMark(_) => UpkeepKeepsFunded(lockKey, s, step);
    case DispatcherCrash(_) => UpkeepKeepsFunded(lockKey, s, step);
    case TickStep(elapsed) => TickKeepsFunded(lockKey, s, elapsed);
  }

  ghost predicate DisciplinedRun(lockKey: AccountId -> int, s: System, steps: seq<Step>) {
    steps == [] ||
    (DisciplinedRun(lockKey, s, steps[..|steps| - 1])
     && Disciplined(DoAll(lockKey, s, steps[..|steps| - 1]), steps[|steps| - 1]))
  }

  /** No interleaving of transfers (conversions included), placements, releases, crashes and ticks,
      with captures and reversals committed where they are covered, ever leaves an ordinary account
      with less than nothing to spend. */
  lemma {:induction false} NoInterleavingOverdraws(lockKey: AccountId -> int, s: System, steps: seq<Step>)
    requires Inv(lockKey, s) && Funded(s) && DisciplinedRun(lockKey, s, steps)
    ensures Inv(lockKey, DoAll(lockKey, s, steps)) && Funded(DoAll(lockKey, s, steps))
    ensures FundsSafe(DoAll(lockKey, s, steps).db)
  {
    if steps == [] {
    } else {
      var front := steps[..|steps| - 1];
      NoInterleavingOverdraws(lockKey, s, front);
      StepKeepsInv(lockKey, DoAll(lockKey, s, front), steps[|steps| - 1]);
      StepKeepsFunded(lockKey, DoAll(lockKey, s, front), steps[|steps| - 1]);
    }
  }
}
