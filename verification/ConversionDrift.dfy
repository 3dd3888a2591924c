/** Conversion accounts absorb the rounding: in every state that interleaved requests can reach, what
    an account has paid out in conversions is within half a minor unit per conversion of the exact
    value, at whatever rates they went. */
module ConversionDrift {
  import opened Wrappers
  import opened Money
  import opened Tables
  import opened PostingEngine
  import opened Services
  import opened ServiceLaws
  import opened Funds
  import opened Interleaving
  import opened InterleavedSafety
  import Conversion
  import Rates
  import SerialRuns

  // ----- Conversions, as events record them -----

  predicate IsLeg(m: Memo, side: Side) {
    m.FxLeg? && m.side == side
  }

  predicate IsPair(legs: seq<Leg>) {
    |legs| == 2 && legs[0].amount == -legs[1].amount
  }

  /** A debit and a credit that make one conversion: the credit pays the debit's amount at the rate
      both name, rounded once. */
  predicate Matches(accounts: seq<Account>, debit: seq<Leg>, debitMemo: Memo, credit: seq<Leg>, creditMemo: Memo) {
    && IsLeg(debitMemo, DebitSide) && IsLeg(creditMemo, CreditSide) && debitMemo.rate == creditMemo.rate
    && IsPair(debit) && IsPair(credit)
    && debit[0].account < |accounts| && credit[1].account < |accounts|
    && credit[1].amount == Conversion.Scaled(debit[1].amount, ScaleOf(accounts, debit[0].account, credit[1].account, creditMemo.rate))
  }

  function ScaleOf(accounts: seq<Account>, source: AccountId, destination: AccountId, rate: real): real
    requires source < |accounts| && destination < |accounts|
  {
    Conversion.Scale(Exponent(accounts[source].currency), Exponent(accounts[destination].currency), rate)
  }

  /** The event before a credit is its debit. */
  predicate PairedAt(accounts: seq<Account>, events: seq<Event>, t: TxnId)
    requires t < |events|
  {
    t > 0 && Matches(accounts, events[t - 1].legs, events[t - 1].memo, events[t].legs, events[t].memo)
  }

  predicate AllPaired(accounts: seq<Account>, events: seq<Event>) {
    forall t: nat | t < |events| && IsLeg(events[t].memo, CreditSide) :: PairedAt(accounts, events, t)
  }

  predicate PaysFrom(accounts: seq<Account>, events: seq<Event>, t: TxnId, a: AccountId)
    requires t < |events|
  {
    PairedAt(accounts, events, t) && events[t].legs[0].account == a
  }

  /** How many conversions `a` paid out. */
  function Conversions(accounts: seq<Account>, events: seq<Event>, a: AccountId): nat {
    if events == [] then 0
    else Conversions(accounts, events[..|events| - 1], a) + (if PaysFrom(accounts, events, |events| - 1, a) then 1 else 0)
  }

  /** What it paid out in them. */
  function PaidOut(accounts: seq<Account>, events: seq<Event>, a: AccountId): int {
    if events == [] then 0
    else
      var t := |events| - 1;
      PaidOut(accounts, events[..t], a) + (if PaysFrom(accounts, events, t, a) then events[t].legs[1].amount else 0)
  }

  /** What they were worth, before rounding. */
  function ExactOut(accounts: seq<Account>, events: seq<Event>, a: AccountId): real {
    if events == [] then 0.0
    else
      var t := |events| - 1;
      ExactOut(accounts, events[..t], a) + (if PaysFrom(accounts, events, t, a) then ExactAt(accounts, events, t) else 0.0)
  }

  function ExactAt(accounts: seq<Account>, events: seq<Event>, t: TxnId): real
    requires t < |events| && PairedAt(accounts, events, t)
  {
    Conversion.Exact(events[t - 1].legs[1].amount,
                     ScaleOf(accounts, events[t - 1].legs[0].account, events[t].legs[1].account, events[t].memo.rate))
  }

  // ----- Half a unit each -----

  /** `exact` and `paid` differ by at most `n / 2`. */
  predicate Within(exact: real, paid: int, n: nat) {
    -(n as real) <= 2.0 * (exact - paid as real) <= n as real
  }

  lemma RoundingIsWithinHalf(exact: real)
    ensures Within(exact, HalfEven(exact), 1)
  {
    HalfEvenIsTheNearestEven(exact, HalfEven(exact));
  }

  lemma OneMore(exact: real, paid: int, n: nat, value: real, payout: int)
    requires Within(exact, paid, n) && Within(value, payout, 1)
    ensures Within(exact + value, paid + payout, n + 1)
  {
  }

  /** Over any events, payouts drift at most half a unit per conversion. */
  lemma {:induction false} DriftIsAtMostHalfPerConversion(accounts: seq<Account>, events: seq<Event>, a: AccountId)
    ensures Within(ExactOut(accounts, events, a), PaidOut(accounts, events, a), Conversions(accounts, events, a))
  {
    if events == [] {
    } else {
      var t := |events| - 1;
      DriftIsAtMostHalfPerConversion(accounts, events[..t], a);
      if PaysFrom(accounts, events, t, a) {
        RoundingIsWithinHalf(ExactAt(accounts, events, t));
        OneMore(ExactOut(accounts, events[..t], a), PaidOut(accounts, events[..t], a), Conversions(accounts, events[..t], a),
          ExactAt(accounts, events, t), events[t].legs[1].amount);
      }
    }
  }

  // ----- Payouts are part of the balance -----

  /** Everything else that was posted to `a`: other legs, and what it paid out to itself. */
  function Besides(accounts: seq<Account>, events: seq<Event>, a: AccountId): int {
    if events == [] then 0
    else
      var t := |events| - 1;
      Besides(accounts, events[..t], a)
      + (if PaysFrom(accounts, events, t, a) then (if events[t].legs[1].account == a then events[t].legs[1].amount else 0)
         else NetOfLegs(events[t].legs, a))
  }

  lemma NetOfPair(legs: seq<Leg>, a: AccountId)
    requires |legs| == 2
    ensures NetOfLegs(legs, a) == (if legs[0].account == a then legs[0].amount else 0) + (if legs[1].account == a then legs[1].amount else 0)
  {
    assert legs[..1] == [legs[0]];
    assert legs[..1][..0] == [];
    assert NetOfLegs(legs[..1], a) == if legs[0].account == a then legs[0].amount else 0;
  }

  lemma {:induction false} JournalSplits(accounts: seq<Account>, events: seq<Event>, a: AccountId)
    ensures Recompute(Journal(events), a) == Besides(accounts, events, a) - PaidOut(accounts, events, a)
  {
    if events == [] {
    } else {
      var t := |events| - 1;
      var before := Journal(events[..t]);
      var added := PostingsFor(|before|, events[t]);
      JournalSplits(accounts, events[..t], a);
      SumsAdd(before, added, a);
      RecomputeOfLegs(added, events[t].legs, a);
      if PaysFrom(accounts, events, t, a) {
        NetOfPair(events[t].legs, a);
      }
    }
  }

  lemma {:induction false} RecomputeOfLegs(ps: seq<Posting>, legs: seq<Leg>, a: AccountId)
    requires |ps| == |legs| && forall i | 0 <= i < |ps| :: ps[i].leg == legs[i]
    ensures Recompute(ps, a) == NetOfLegs(legs, a)
  {
    if ps == [] {
    } else {
      RecomputeOfLegs(ps[..|ps| - 1], legs[..|legs| - 1], a);
    }
  }

  /** A conversion account's balance is its opening, plus everything else posted to it, minus its payouts. */
  lemma PayoutsAreInTheBalance(l: Ledger, a: AccountId)
    requires Consistent(l) && a < |l.accounts|
    ensures a in l.seeded
    ensures BalanceOr(l, a) == l.seeded[a].balance + Besides(l.accounts, l.events, a) - PaidOut(l.accounts, l.events, a)
  {
    assert a in l.snapshots && Agrees(l.snapshots[a], l.seeded[a], l.postings, a);
    JournalSplits(l.accounts, l.events, a);
  }

  // ----- Every credit follows its debit, in every reachable state -----

  /** Entries that, posted one after the other, keep credits behind their debits. */
  predicate EntriesPaired(accounts: seq<Account>, entries: seq<Entry>) {
    forall i | 0 <= i < |entries| && IsLeg(entries[i].memo, CreditSide) ::
      i > 0 && Matches(accounts, entries[i - 1].legs, entries[i - 1].memo, entries[i].legs, entries[i].memo)
  }

  predicate RequestPaired(accounts: seq<Account>, r: Request) {
    r.phase.Staged? ==> EntriesPaired(accounts, r.phase.writes.entries)
  }

  predicate Paired(s: System) {
    AllPaired(s.db.accounts, s.db.events) && forall id <- s.requests :: RequestPaired(s.db.accounts, s.requests[id])
  }

  lemma CommitKeepsPaired(db: Ledger, w: Writes)
    requires AllPaired(db.accounts, db.events) && EntriesPaired(db.accounts, w.entries)
    ensures Commit(db, w).accounts == db.accounts && AllPaired(db.accounts, Commit(db, w).events)
  {
    var n, events := |db.events|, Commit(db, w).events;
    MovedFrame(db, w);
    PostAllFrame(db, w.tenant, w.at, w.entries);
    forall t: nat | t < |events| && IsLeg(events[t].memo, CreditSide) ensures PairedAt(db.accounts, events, t) {
      if t < n {
        assert events[..n][t] == events[t];
        assert PairedAt(db.accounts, db.events, t);
        assert events[..n][t - 1] == events[t - 1];
      } else {
        NewCreditIsPaired(db, w, events, t - n);
      }
    }
  }

  lemma NewCreditIsPaired(db: Ledger, w: Writes, events: seq<Event>, i: nat)
    requires EntriesPaired(db.accounts, w.entries) && i < |w.entries| && |events| == |db.events| + |w.entries|
    requires forall k | 0 <= k < |w.entries| ::
      events[|db.events| + k].legs == w.entries[k].legs && events[|db.events| + k].memo == w.entries[k].memo
    requires IsLeg(events[|db.events| + i].memo, CreditSide)
    ensures PairedAt(db.accounts, events, |db.events| + i)
  {
    assert events[|db.events| + i].memo == w.entries[i].memo;
    assert events[|db.events| + (i - 1)].memo == w.entries[i - 1].memo;
  }

  /** A transfer stages either no conversion or a matching pair. */
  lemma TransferIsPaired(db: Ledger, tenant: string, req: TransferRequest, at: Instant)
    requires Usable(db.accounts, tenant, req.source) && Usable(db.accounts, tenant, req.destination)
    requires TransferEntries(db, tenant, req, at).Ok?
    ensures EntriesPaired(db.accounts, TransferEntries(db, tenant, req, at).value)
  {
    var from, to := db.accounts[req.source].currency, db.accounts[req.destination].currency;
    if from != to {
      var effectiveAt := if req.effectiveAt.Some? then req.effectiveAt.value else at;
      Conversion.ConvertRoundsOnce(req.amount, from, to, Rates.Resolve(db.rates, from, to, effectiveAt).value.rate);
    }
  }

  lemma StagedIsPaired(db: Ledger, r: Request)
    ensures StagedWrites(db, r).Some? ==> EntriesPaired(db.accounts, StagedWrites(db, r).value.entries)
  {
    if StagedWrites(db, r).Some? && r.op.TransferOp? {
      TransferIsPaired(db, r.tenant, r.op.transfer, db.clock);
    }
  }

  lemma MoreAccountsKeepPairs(accounts: seq<Account>, more: seq<Account>, events: seq<Event>)
    requires accounts <= more && AllPaired(accounts, events)
    ensures AllPaired(more, events)
  {
    forall t: nat | t < |events| && IsLeg(events[t].memo, CreditSide) ensures PairedAt(more, events, t) {
      assert PairedAt(accounts, events, t);
    }
  }

  lemma MoreAccountsKeepRequests(accounts: seq<Account>, more: seq<Account>, r: Request)
    requires accounts <= more && RequestPaired(accounts, r)
    ensures RequestPaired(more, r)
  {
  }

  lemma StatusKeepsPairs(accounts: seq<Account>, before: seq<Event>, after: seq<Event>)
    requires AllPaired(accounts, before) && SerialRuns.SameEvents(before, after)
    ensures AllPaired(accounts, after)
  {
    forall t: nat | t < |after| && IsLeg(after[t].memo, CreditSide) ensures PairedAt(accounts, after, t) {
      assert SerialRuns.SameEvent(before[t], after[t]);
      assert PairedAt(accounts, before, t);
      assert SerialRuns.SameEvent(before[t - 1], after[t - 1]);
    }
  }

  lemma CommitStepKeepsPaired(lockKey: AccountId -> int, s: System, id: nat)
    requires Paired(s)
    ensures Paired(Do(lockKey, s, CommitRequest(id)))
  {
    if id in s.requests && s.requests[id].phase.Staged? {
      assert RequestPaired(s.db.accounts, s.requests[id]);
      CommitKeepsPaired(s.db, s.requests[id].phase.writes);
    }
  }

  /** Steps that neither stage nor commit leave legs and memos alone; some open an account or publish. */
  lemma OtherStepKeepsPaired(lockKey: AccountId -> int, s: System, step: Step)
    requires Paired(s) && !step.CommitRequest? && !step.Stage?
    ensures Paired(Do(lockKey, s, step))
  {
    var s' := Do(lockKey, s, step);
    OtherStepGrows(lockKey, s, step);
    StatusKeepsPairs(s.db.accounts, s.db.events, s'.db.events);
    MoreAccountsKeepPairs(s.db.accounts, s'.db.accounts, s'.db.events);
    forall id | id in s'.requests ensures RequestPaired(s'.db.accounts, s'.requests[id]) {
      if s'.requests[id].phase.Staged? {
        OtherStepStagesNothing(lockKey, s, step, id);
        MoreAccountsKeepRequests(s.db.accounts, s'.db.accounts, s.requests[id]);
      }
    }
  }

  lemma StageStepKeepsPaired(lockKey: AccountId -> int, s: System, id: nat)
    requires Paired(s)
    ensures Paired(Do(lockKey, s, Stage(id)))
  {
    if id in s.requests { StagedIsPaired(s.db, s.requests[id]); }
  }

  lemma StepKeepsPaired(lockKey: AccountId -> int, s: System, step: Step)
    requires Paired(s)
    ensures Paired(Do(lockKey, s, step))
  {
    match step
    case CommitRequest(id) => CommitStepKeepsPaired(lockKey, s, id);
    case Stage(id) => StageStepKeepsPaired(lockKey, s, id);
    case _ => OtherStepKeepsPaired(lockKey, s, step);
  }

  lemma {:induction false} RunKeepsPaired(lockKey: AccountId -> int, s: System, steps: seq<Step>)
    requires Paired(s)
    ensures Paired(DoAll(lockKey, s, steps))
  {
    if steps == [] {
    } else {
      RunKeepsPaired(lockKey, s, steps[..|steps| - 1]);
      StepKeepsPaired(lockKey, DoAll(lockKey, s, steps[..|steps| - 1]), steps[|steps| - 1]);
    }
  }

  /** In every state of every interleaving, with quotes, openings, ticks and all other requests in
      between, each conversion's credit follows its debit and pays it at the rate both name, and what
      any account paid out in all conversions so far is within half a unit each of their exact worth. */
  lemma NoInterleavingDrifts(lockKey: AccountId -> int, s: System, steps: seq<Step>, a: AccountId)
    requires Paired(s)
    ensures var db := DoAll(lockKey, s, steps).db;
      && AllPaired(db.accounts, db.events)
      && Within(ExactOut(db.accounts, db.events, a), PaidOut(db.accounts, db.events, a), Conversions(db.accounts, db.events, a))
  {
    RunKeepsPaired(lockKey, s, steps);
    var db := DoAll(lockKey, s, steps).db;
    DriftIsAtMostHalfPerConversion(db.accounts, db.events, a);
  }
}
