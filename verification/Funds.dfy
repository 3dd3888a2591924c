/** How commits move what an account can spend. */
module Funds {
  import opened Wrappers
  import opened Money
  import opened Tables
  import opened PostingEngine
  import opened Services
  import opened ServiceLaws

  // ----- Posted balances -----

  function NetOfLegs(legs: seq<Leg>, a: AccountId): int {
    if legs == [] then 0
    else NetOfLegs(legs[..|legs| - 1], a) + (if legs[|legs| - 1].account == a then legs[|legs| - 1].amount else 0)
  }

  function NetOf(entries: seq<Entry>, a: AccountId): int {
    if entries == [] then 0 else NetOf(entries[..|entries| - 1], a) + NetOfLegs(entries[|entries| - 1].legs, a)
  }

  lemma {:induction false} FoldedBalance(s: Snapshot, ps: seq<Posting>, legs: seq<Leg>, a: AccountId)
    requires |ps| == |legs| && forall i | 0 <= i < |ps| :: ps[i].leg == legs[i]
    ensures Folded(s, ps, a).balance == s.balance + NetOfLegs(legs, a)
  {
    if ps == [] {
    } else {
      FoldedBalance(s, ps[..|ps| - 1], legs[..|legs| - 1], a);
    }
  }

  lemma {:induction false} NoLegsNoNet(legs: seq<Leg>, a: AccountId)
    requires forall leg <- legs :: leg.account != a
    ensures NetOfLegs(legs, a) == 0
  {
    if legs == [] {
    } else {
      NoLegsNoNet(legs[..|legs| - 1], a);
    }
  }

  lemma PostMovesBalance(l: Ledger, tenant: string, at: Instant, e: Entry, a: AccountId)
    requires OneRowPerAccount(l) && SnapshotsAgree(l) && SameTenant(l.accounts, tenant, e.legs) && a < |l.accounts|
    ensures BalanceOr(Post(l, tenant, at, e), a) == BalanceOr(l, a) + NetOfLegs(e.legs, a)
  {
    assert a in l.snapshots && Agrees(l.snapshots[a], l.seeded[a], l.postings, a);
    var added := PostingsFor(|l.postings|, EventFor(l, tenant, at, e));
    if l.snapshots[a].tenant == tenant {
      FoldedBalance(l.snapshots[a], added, e.legs, a);
    } else {
      NoLegsNoNet(e.legs, a);
    }
  }

  lemma {:induction false} PostAllMovesBalance(l: Ledger, tenant: string, at: Instant, entries: seq<Entry>, a: AccountId)
    requires OneRowPerAccount(l) && SnapshotsAgree(l) && AllSameTenant(l.accounts, tenant, entries) && a < |l.accounts|
    ensures BalanceOr(PostAll(l, tenant, at, entries), a) == BalanceOr(l, a) + NetOf(entries, a)
  {
    if entries == [] {
    } else {
      var front := entries[..|entries| - 1];
      PostAllKeepsAgreement(l, tenant, at, front);
      PostAllMovesBalance(l, tenant, at, front, a);
      PostMovesBalance(PostAll(l, tenant, at, front), tenant, at, entries[|entries| - 1], a);
    }
  }

  lemma CommitMovesBalance(l: Ledger, w: Writes, a: AccountId)
    requires OneRowPerAccount(l) && SnapshotsAgree(l) && AllSameTenant(l.accounts, w.tenant, w.entries) && a < |l.accounts|
    ensures BalanceOr(Commit(l, w), a) == BalanceOr(l, a) + NetOf(w.entries, a)
  {
    MovedFrame(l, w);
    PostAllMovesBalance(l, w.tenant, w.at, w.entries, a);
  }

  lemma NetOfTwoLegs(x: AccountId, y: AccountId, amount: int, at: Instant, a: AccountId)
    ensures NetOfLegs(TwoLegs(x, y, amount, at), a) == (if a == y then amount else 0) - (if a == x then amount else 0)
  {
    var legs := TwoLegs(x, y, amount, at);
    assert legs[..1] == [Leg(x, -amount, at)];
    assert legs[..1][..0] == [];
    assert NetOfLegs(legs[..1], a) == if a == x then -amount else 0;
  }

  lemma NetOfOne(e: Entry, a: AccountId)
    ensures NetOf([e], a) == NetOfLegs(e.legs, a)
  {
    assert [e][..0] == [];
  }

  lemma NetOfTwo(e: Entry, f: Entry, a: AccountId)
    ensures NetOf([e, f], a) == NetOfLegs(e.legs, a) + NetOfLegs(f.legs, a)
  {
    assert [e, f][..1] == [e];
    NetOfOne(e, a);
  }

  lemma {:induction false} UndoingNets(legs: seq<Leg>, original: seq<Leg>, a: AccountId)
    requires Undoes(legs, original)
    ensures NetOfLegs(legs, a) == -NetOfLegs(original, a)
  {
    if legs == [] {
    } else {
      UndoingNets(legs[..|legs| - 1], original[..|original| - 1], a);
    }
  }

  // ----- Reservations -----

  function Reserved(h: Hold, tenant: string, a: AccountId, now: Instant): int {
    if Reserves(h, tenant, a, now) then h.amount else 0
  }

  /** One hold more reserves its amount exactly if it is the tenant's, on the account, active, and not yet
      expired. */
  lemma HeldGrowsByWhatIsReserved(holds: seq<Hold>, h: Hold, tenant: string, a: AccountId, now: Instant)
    ensures HeldTotal([], tenant, a, now) == 0
    ensures HeldTotal(holds + [h], tenant, a, now) == HeldTotal(holds, tenant, a, now)
      + (if h.tenant == tenant && h.account == a && h.state == Active && now < h.expiresAt then h.amount else 0)
  {
    assert (holds + [h])[..|holds|] == holds;
  }

  lemma {:induction false} HeldAfterUpdate(holds: seq<Hold>, id: HoldId, h: Hold, tenant: string, a: AccountId, now: Instant)
    requires id < |holds|
    ensures HeldTotal(holds[id := h], tenant, a, now)
         == HeldTotal(holds, tenant, a, now) - Reserved(holds[id], tenant, a, now) + Reserved(h, tenant, a, now)
  {
    var n := |holds| - 1;
    if id < n {
      HeldAfterUpdate(holds[..n], id, h, tenant, a, now);
      assert holds[id := h][..n] == holds[..n][id := h];
    } else {
      assert holds[id := h][..n] == holds[..n];
    }
  }

  /** What a change of holds takes off (or, negative, adds to) the reservations on `a`. */
  function Freed(holds: seq<Hold>, change: HoldChange, tenant: string, a: AccountId, now: Instant): int {
    match change
    case KeepHolds => 0
    case PlaceHold(h) => -Reserved(h, tenant, a, now)
    case MarkCaptured(id, _) => if id < |holds| then Reserved(holds[id], tenant, a, now) else 0
    case MarkReleased(id) => if id < |holds| then Reserved(holds[id], tenant, a, now) else 0
  }

  lemma HeldAfterChange(holds: seq<Hold>, change: HoldChange, txn: TxnId, at: Instant, tenant: string, a: AccountId, now: Instant)
    ensures HeldTotal(ChangeHolds(holds, change, txn, at), tenant, a, now)
         == HeldTotal(holds, tenant, a, now) - Freed(holds, change, tenant, a, now)
  {
    match change
    case KeepHolds =>
    case PlaceHold(h) =>
      assert (holds + [h])[..|holds|] == holds;
    case MarkCaptured(id, amount) =>
      if id < |holds| {
        HeldAfterUpdate(holds, id, ChangeHolds(holds, change, txn, at)[id], tenant, a, now);
      }
    case MarkReleased(id) =>
      if id < |holds| {
        HeldAfterUpdate(holds, id, ChangeHolds(holds, change, txn, at)[id], tenant, a, now);
      }
  }

  predicate PositiveHolds(holds: seq<Hold>) {
    forall i | 0 <= i < |holds| :: holds[i].amount > 0
  }

  /** Reservations only lapse: an older clock sees at least as much held. */
  lemma {:induction false} HeldOnlyLapses(holds: seq<Hold>, tenant: string, a: AccountId, early: Instant, late: Instant)
    requires PositiveHolds(holds) && early <= late
    ensures HeldTotal(holds, tenant, a, early) >= HeldTotal(holds, tenant, a, late) >= 0
  {
    if holds == [] {
    } else {
      HeldOnlyLapses(holds[..|holds| - 1], tenant, a, early, late);
    }
  }

  lemma {:induction false} HeldCoversEachHold(holds: seq<Hold>, id: HoldId, tenant: string, a: AccountId, now: Instant)
    requires PositiveHolds(holds) && id < |holds|
    ensures HeldTotal(holds, tenant, a, now) >= Reserved(holds[id], tenant, a, now)
  {
    var n := |holds| - 1;
    HeldOnlyLapses(holds[..n], tenant, a, now, now);
    if id == n {
    } else {
      HeldCoversEachHold(holds[..n], id, tenant, a, now);
    }
  }

  lemma {:induction false} NothingHeldOnNewAccount(holds: seq<Hold>, tenant: string, a: AccountId, now: Instant)
    requires forall i | 0 <= i < |holds| :: holds[i].account != a
    ensures HeldTotal(holds, tenant, a, now) == 0
  {
    if holds == [] {
    } else {
      NothingHeldOnNewAccount(holds[..|holds| - 1], tenant, a, now);
    }
  }

  // ----- Available -----

  /** Committed available: posted minus active, unexpired holds. */
  function AvailableAt(l: Ledger, a: AccountId, now: Instant): int
    requires a < |l.accounts|
  {
    BalanceOr(l, a) - HeldTotal(l.holds, l.accounts[a].tenant, a, now)
  }

  /** An account that is not one of the platform's conversion accounts. */
  predicate Ordinary(accounts: seq<Account>, a: AccountId) {
    a < |accounts| && !IsConversionPath(accounts[a].path)
  }

  predicate FundsSafe(l: Ledger) {
    forall a: nat | a < |l.accounts| && Ordinary(l.accounts, a) :: AvailableAt(l, a, l.clock) >= 0
  }

  lemma CommitMovesAvailable(l: Ledger, w: Writes, a: AccountId)
    requires OneRowPerAccount(l) && SnapshotsAgree(l) && AllSameTenant(l.accounts, w.tenant, w.entries) && a < |l.accounts|
    ensures Commit(l, w).accounts == l.accounts && Commit(l, w).clock == l.clock
    ensures AvailableAt(Commit(l, w), a, l.clock)
         == AvailableAt(l, a, l.clock) + NetOf(w.entries, a) + Freed(l.holds, w.holdChange, l.accounts[a].tenant, a, l.clock)
  {
    MovedFrame(l, w);
    CommitMovesBalance(l, w, a);
    HeldAfterChange(l.holds, w.holdChange, |l.txns|, w.at, l.accounts[a].tenant, a, l.clock);
  }

  /** The service's reading of an account is the committed one. */
  lemma ServiceReadsAvailable(l: Ledger, tenant: string, a: AccountId, now: Instant)
    requires Consistent(l) && Usable(l.accounts, tenant, a)
    ensures CurrentBalance(l, tenant, a) == Some(BalanceOr(l, a))
    ensures AvailableBalance(l, tenant, a, now).Some?
    ensures AvailableBalance(l, tenant, a, now).value.Available() == AvailableAt(l, a, now)
  {
    assert a in l.snapshots && Agrees(l.snapshots[a], l.seeded[a], l.postings, a);
  }

  /** A tenant is told the balances of its own accounts, open or not, and of no other's. */
  lemma BalancesStayInTheirTenant(l: Ledger, tenant: string, a: AccountId, now: Instant)
    requires Valid(l)
    ensures var own := a < |l.accounts| && l.accounts[a].tenant == tenant;
      && CurrentBalance(l, tenant, a) == (if own then Some(BalanceOr(l, a)) else None)
      && AvailableBalance(l, tenant, a, now) == (if own then Some(Balance(BalanceOr(l, a), HeldTotal(l.holds, tenant, a, now))) else None)
      && (own ==> AvailableBalance(l, tenant, a, now).value.Available() == AvailableAt(l, a, now))
  {
    if a in l.snapshots { assert Agrees(l.snapshots[a], l.seeded[a], l.postings, a); }
  }

  // ----- The reservation guarantee -----

  /** Where funds are safe, an active unexpired hold can be captured up to its amount: the posted
      balance covers it, and the account ends with what it could spend before plus what was held
      and not captured. */
  lemma ReservationGuarantee(l: Ledger, tenant: string, id: HoldId, req: CaptureRequest)
    requires Valid(l) && FundsSafe(l)
    requires id < |l.holds| && l.holds[id].tenant == tenant && Ordinary(l.accounts, l.holds[id].account)
    requires Reserves(l.holds[id], tenant, l.holds[id].account, l.clock)
    requires CaptureRefusal(l.accounts, tenant, l.holds[id], req).None?
    ensures StageCapture(l, tenant, id, req).Ok?
    ensures var h, amount := l.holds[id], CaptureAmount(l.holds[id], req);
      var after := Capture(l, tenant, id, req).0;
      && after.accounts == l.accounts && after.clock == l.clock
      && AvailableAt(after, h.account, l.clock) - AvailableAt(l, h.account, l.clock)
         == h.amount - (if req.destination == h.account then 0 else amount)
      && AvailableAt(after, h.account, l.clock) >= AvailableAt(l, h.account, l.clock)
  {
    var h, a := l.holds[id], l.holds[id].account;
    assert HoldWellFormed(l.accounts, h);
    forall i | 0 <= i < |l.holds| ensures l.holds[i].amount > 0 { assert HoldWellFormed(l.accounts, l.holds[i]); }
    HeldCoversEachHold(l.holds, id, tenant, a, l.clock);
    ServiceReadsAvailable(l, tenant, a, l.clock);
    assert AvailableAt(l, a, l.clock) >= 0;
    CaptureMovesAvailable(l, tenant, id, req);
  }

  lemma CaptureMovesAvailable(l: Ledger, tenant: string, id: HoldId, req: CaptureRequest)
    requires Valid(l) && id < |l.holds| && l.holds[id].tenant == tenant && StageCapture(l, tenant, id, req).Ok?
    ensures l.holds[id].account < |l.accounts|
    ensures var h, amount := l.holds[id], CaptureAmount(l.holds[id], req);
      var after := Capture(l, tenant, id, req).0;
      && after.accounts == l.accounts && after.clock == l.clock
      && AvailableAt(after, h.account, l.clock)
         == AvailableAt(l, h.account, l.clock) + Reserved(h, tenant, h.account, l.clock)
            - (if req.destination == h.account then 0 else amount)
  {
    var h, w := l.holds[id], StageCapture(l, tenant, id, req).value;
    assert HoldWellFormed(l.accounts, h);
    StagedCaptureIsWellFormed(l, tenant, id, req);
    CommitMovesAvailable(l, w, h.account);
    NetOfOne(w.entries[0], h.account);
    NetOfTwoLegs(h.account, req.destination, CaptureAmount(h, req), l.clock, h.account);
  }

  /** What a successful capture commits and answers. */
  lemma CaptureReplies(l: Ledger, tenant: string, id: HoldId, req: CaptureRequest)
    requires id < |l.holds| && l.holds[id].tenant == tenant && StageCapture(l, tenant, id, req).Ok?
    ensures var h, w := l.holds[id], StageCapture(l, tenant, id, req).value;
      var (after, outcome) := Capture(l, tenant, id, req);
      && after == Commit(l, w) && w.holdChange.MarkCaptured? && w.holdChange.id == id
      && after.accounts == l.accounts
      && after.holds == ChangeHolds(l.holds, w.holdChange, |l.txns|, w.at)
      && outcome.Done? && outcome.response.HoldResponse?
      && outcome.response.posted == BalanceOr(after, h.account)
      && outcome.response.available == BalanceOr(after, h.account) - HeldTotal(l.holds, tenant, h.account, l.clock)
  {
    MovedFrame(l, StageCapture(l, tenant, id, req).value);
  }

  /** The available figure a capture returns still counts its own hold, because that row is marked
      after the last flush: it is short by exactly the hold, unless the hold had expired. */
  lemma CaptureReportsStaleAvailable(l: Ledger, tenant: string, id: HoldId, req: CaptureRequest)
    requires Valid(l) && id < |l.holds| && l.holds[id].tenant == tenant && StageCapture(l, tenant, id, req).Ok?
    ensures l.holds[id].account < |l.accounts|
    ensures var h := l.holds[id];
      var (after, outcome) := Capture(l, tenant, id, req);
      && after.accounts == l.accounts
      && outcome.Done? && outcome.response.HoldResponse?
      && outcome.response.posted == BalanceOr(after, h.account)
      && outcome.response.available == AvailableAt(after, h.account, l.clock) - Reserved(h, tenant, h.account, l.clock)
  {
    var h, w := l.holds[id], StageCapture(l, tenant, id, req).value;
    assert HoldWellFormed(l.accounts, h);
    CaptureReplies(l, tenant, id, req);
    HeldAfterChange(l.holds, w.holdChange, |l.txns|, w.at, tenant, h.account, l.clock);
  }
}
