/** A statement, once issued, and what is posted afterwards. Postings are dated when they are staged, or
    when their transfer says: what is committed may fall into a window that had already closed. When it
    does, exactly. */
module IssuedStatements {
  import opened Wrappers
  import opened Tables
  import opened PostingEngine
  import opened Services
  import opened ServiceLaws
  import opened ServiceEffects
  import opened Interleaving
  import opened InterleavedSafety
  import opened Statements
  import ExactlyOnce
  import ServedAlone

  // ----- One commit -----

  predicate TakesEffectIn(leg: Leg, a: AccountId, start: Instant, end: Instant) {
    leg.account == a && start <= leg.effectiveAt < end
  }

  predicate NoLegIn(legs: seq<Leg>, a: AccountId, start: Instant, end: Instant) {
    forall i | 0 <= i < |legs| :: !TakesEffectIn(legs[i], a, start, end)
  }

  predicate NoneIn(entries: seq<Entry>, a: AccountId, start: Instant, end: Instant) {
    forall i | 0 <= i < |entries| :: NoLegIn(entries[i].legs, a, start, end)
  }

  predicate NoPostingIn(ps: seq<Posting>, a: AccountId, start: Instant, end: Instant) {
    forall i | 0 <= i < |ps| :: !TakesEffectIn(ps[i].leg, a, start, end)
  }

  /** The postings of entries fall into a window exactly when one of their legs does. */
  lemma {:induction false} PostingsFallWhereLegsDo(l: Ledger, tenant: string, at: Instant, entries: seq<Entry>,
      a: AccountId, start: Instant, end: Instant)
    ensures var after := PostAll(l, tenant, at, entries).postings;
      && l.postings <= after
      && (NoPostingIn(after[|l.postings|..], a, start, end) <==> NoneIn(entries, a, start, end))
  {
    if entries == [] {
    } else {
      var front, last := entries[..|entries| - 1], entries[|entries| - 1];
      var before := PostAll(l, tenant, at, front);
      PostingsFallWhereLegsDo(l, tenant, at, front, a, start, end);
      OneMoreEntryFalls(l, before, tenant, at, last, a, start, end);
      assert entries == front + [last];
    }
  }

  lemma OneMoreEntryFalls(l: Ledger, before: Ledger, tenant: string, at: Instant, e: Entry, a: AccountId, start: Instant, end: Instant)
    requires l.postings <= before.postings
    ensures var after := Post(before, tenant, at, e).postings;
      && l.postings <= after
      && (NoPostingIn(after[|l.postings|..], a, start, end)
          <==> NoPostingIn(before.postings[|l.postings|..], a, start, end) && NoLegIn(e.legs, a, start, end))
  {
    PostAdds(before, tenant, at, e);
    var added := RowsOf(|before.postings|, |before.txns|, e.legs, at);
    var after := Post(before, tenant, at, e).postings;
    var earlier := before.postings[|l.postings|..];
    assert after[|l.postings|..] == earlier + added;
    if NoPostingIn(after[|l.postings|..], a, start, end) {
      forall i | 0 <= i < |earlier| ensures !TakesEffectIn(earlier[i].leg, a, start, end) { assert (earlier + added)[i] == earlier[i]; }
      forall i | 0 <= i < |e.legs| ensures !TakesEffectIn(e.legs[i], a, start, end) {
        assert (earlier + added)[|earlier| + i].leg == e.legs[i];
      }
    }
  }

  lemma StandsIff(before: seq<Posting>, after: seq<Posting>, a: AccountId, start: Instant, end: Instant)
    requires before <= after
    ensures SameAnswers(before, after, a, start, end) <==> NoPostingIn(after[|before|..], a, start, end)
  {
    var added := after[|before|..];
    assert after == before + added;
    IssuedStatementStandsIff(before, added, a, start, end);
    if forall p <- added :: !InWindow(a, start, end)(p) {
      forall i | 0 <= i < |added| ensures !TakesEffectIn(added[i].leg, a, start, end) { assert added[i] in added; }
    }
  }

  /** A commit leaves an issued statement as it was exactly when no leg of it takes effect in the window. */
  lemma CommitKeepsStatementIff(db: Ledger, w: Writes, a: AccountId, start: Instant, end: Instant)
    ensures SameAnswers(db.postings, Commit(db, w).postings, a, start, end) <==> NoneIn(w.entries, a, start, end)
  {
    MovedFrame(db, w);
    PostingsFallWhereLegsDo(db, w.tenant, w.at, w.entries, a, start, end);
    StandsIff(db.postings, Commit(db, w).postings, a, start, end);
  }

  // ----- One call -----

  /** A reversal served now changes no statement whose window has closed, however old what it reverses. */
  lemma ReversalKeepsClosedStatements(l: Ledger, tenant: string, req: ReverseRequest, key: string, fp: int, a: AccountId,
      start: Instant, end: Instant)
    requires Valid(l) && end <= l.clock
    ensures SameAnswers(l.postings, Reverse(l, tenant, req, key, fp).0.postings, a, start, end)
  {
    ReverseSucceedsIff(l, tenant, req, key, fp);
    if ReverseSucceeds(l, tenant, req.txn, key) {
      ReversalWrites(l, tenant, req, key, fp);
      CommitKeepsStatementIff(l, ReverseWrites(l, tenant, req, Key(tenant, REVERSALS, key), fp, l.clock), a, start, end);
    }
  }

  /** Nor does a capture. */
  lemma CaptureKeepsClosedStatements(l: Ledger, tenant: string, id: HoldId, req: CaptureRequest, a: AccountId, start: Instant, end: Instant)
    requires Valid(l) && end <= l.clock
    ensures SameAnswers(l.postings, Capture(l, tenant, id, req).0.postings, a, start, end)
  {
    CaptureSucceedsIff(l, tenant, id, req);
    if CaptureSucceeds(l, tenant, id, req) {
      CaptureCommits(l, tenant, id, req);
      CommitKeepsStatementIff(l, CaptureWrites(tenant, id, l.holds[id], req, l.clock), a, start, end);
    }
  }

  // ----- Every run -----

  /** A staged leg is dated when it was staged, or as its transfer asked. */
  predicate LegDated(r: Request, at: Instant, leg: Leg) {
    leg.effectiveAt == at || (r.op.TransferOp? && r.op.transfer.effectiveAt == Some(leg.effectiveAt))
  }

  predicate StagedDated(r: Request) {
    r.phase.Staged? ==>
      forall i, j | 0 <= i < |r.phase.writes.entries| && 0 <= j < |r.phase.writes.entries[i].legs| ::
        LegDated(r, r.phase.writes.at, r.phase.writes.entries[i].legs[j])
  }

  predicate AllDated(s: System) {
    forall id <- s.requests :: StagedDated(s.requests[id])
  }

  lemma StagingDates(db: Ledger, r: Request)
    requires StagedWrites(db, r).Some?
    ensures StagedDated(r.(phase := Staged(StagedWrites(db, r).value)))
  {
  }

  lemma StepKeepsDated(lockKey: AccountId -> int, s: System, step: Step)
    requires AllDated(s)
    ensures AllDated(Do(lockKey, s, step))
  {
    var s' := Do(lockKey, s, step);
    match step
    case CommitRequest(id) => CommitLandsOrRollsBack(lockKey, s, id);
    case Stage(id) => StageKeepsDated(lockKey, s, id);
    case _ =>
      forall id | id in s'.requests ensures StagedDated(s'.requests[id]) {
        if s'.requests[id].phase.Staged? { OtherStepStagesNothing(lockKey, s, step, id); }
      }
  }

  lemma StageKeepsDated(lockKey: AccountId -> int, s: System, id: nat)
    requires AllDated(s)
    ensures AllDated(Do(lockKey, s, Stage(id)))
  {
    if id in s.requests && StagedWrites(s.db, s.requests[id]).Some? { StagingDates(s.db, s.requests[id]); }
  }

  /** What is about to be committed was staged after the window closed, and no transfer is backdated into it. */
  predicate CommitsAfter(s: System, step: Step, end: Instant) {
    GoesThrough(s, step) && s.requests[step.id].phase.writes.entries != [] ==>
      var r := s.requests[step.id];
      && end <= r.phase.writes.at
      && (r.op.TransferOp? && r.op.transfer.effectiveAt.Some? ==> end <= r.op.transfer.effectiveAt.value)
  }

  lemma LateLegsFallOutside(r: Request, w: Writes, a: AccountId, start: Instant, end: Instant)
    requires r.phase == Staged(w) && StagedDated(r)
    requires w.entries != [] ==>
      && end <= w.at
      && (r.op.TransferOp? && r.op.transfer.effectiveAt.Some? ==> end <= r.op.transfer.effectiveAt.value)
    ensures NoneIn(w.entries, a, start, end)
  {
    forall i, j | 0 <= i < |w.entries| && 0 <= j < |w.entries[i].legs| ensures !TakesEffectIn(w.entries[i].legs[j], a, start, end) {
      assert LegDated(r, w.at, w.entries[i].legs[j]);
    }
  }

  lemma SameAnswersForTheSame(ps: seq<Posting>, a: AccountId, start: Instant, end: Instant)
    ensures SameAnswers(ps, ps, a, start, end)
  {
  }

  lemma SameAnswersCarryOver(x: seq<Posting>, y: seq<Posting>, z: seq<Posting>, a: AccountId, start: Instant, end: Instant)
    requires SameAnswers(x, y, a, start, end) && SameAnswers(y, z, a, start, end)
    ensures SameAnswers(x, z, a, start, end)
  {
  }

  lemma OtherStepsPostNothing(lockKey: AccountId -> int, s: System, step: Step)
    requires !step.CommitRequest?
    ensures Do(lockKey, s, step).db.postings == s.db.postings
  {
  }

  lemma StepKeepsStatement(lockKey: AccountId -> int, s: System, step: Step, a: AccountId, start: Instant, end: Instant)
    requires AllDated(s) && CommitsAfter(s, step, end)
    ensures SameAnswers(s.db.postings, Do(lockKey, s, step).db.postings, a, start, end)
  {
    SameAnswersForTheSame(s.db.postings, a, start, end);
    if step.CommitRequest? {
      CommitLandsOrRollsBack(lockKey, s, step.id);
      if GoesThrough(s, step) {
        var r := s.requests[step.id];
        LateLegsFallOutside(r, r.phase.writes, a, start, end);
        CommitKeepsStatementIff(s.db, r.phase.writes, a, start, end);
      }
    } else {
      OtherStepsPostNothing(lockKey, s, step);
    }
  }

  predicate LateRun(lockKey: AccountId -> int, s: System, steps: seq<Step>, end: Instant) {
    steps == [] ||
    (LateRun(lockKey, s, steps[..|steps| - 1], end)
     && CommitsAfter(DoAll(lockKey, s, steps[..|steps| - 1]), steps[|steps| - 1], end))
  }

  /** Over every interleaving in which what is committed was staged after the window closed, and no
      transfer is backdated into it, an issued statement stands, for every account. */
  lemma {:induction false} IssuedStatementsStand(lockKey: AccountId -> int, s: System, steps: seq<Step>, a: AccountId,
      start: Instant, end: Instant)
    requires AllDated(s) && LateRun(lockKey, s, steps, end)
    ensures AllDated(DoAll(lockKey, s, steps))
    ensures SameAnswers(s.db.postings, DoAll(lockKey, s, steps).db.postings, a, start, end)
  {
    if steps == [] {
      SameAnswersForTheSame(s.db.postings, a, start, end);
    } else {
      var front, last := steps[..|steps| - 1], steps[|steps| - 1];
      var before := DoAll(lockKey, s, front);
      IssuedStatementsStand(lockKey, s, front, a, start, end);
      StepKeepsDated(lockKey, before, last);
      StepKeepsStatement(lockKey, before, last, a, start, end);
      SameAnswersCarryOver(s.db.postings, before.db.postings, DoAll(lockKey, s, steps).db.postings, a, start, end);
    }
  }

  // ----- A run that fails -----

  lemma SlowReversalCommits(lockKey: AccountId -> int, s: System, tenant: string, req: ReverseRequest, key: string, latency: nat)
    requires ServedAlone.Quiet(s) && Key(tenant, REVERSALS, key) !in s.db.records && ReverseRefusal(s.db, tenant, req.txn).None?
    ensures DoAll(lockKey, s, ExactlyOnce.SlowRequest(tenant, req, key, latency) + [CommitRequest(1)]).db
      == Commit(ExactlyOnce.Later(s, latency).db, ExactlyOnce.ReversalStaged(s.db, tenant, req, key))
  {
    var w := ExactlyOnce.ReversalStaged(s.db, tenant, req, key);
    var r := Request(tenant, ReverseOp(req), Key(tenant, REVERSALS, key), 0, s.db.clock, Staged(w));
    ExactlyOnce.SlowRequestStages(lockKey, s, tenant, req, key, latency);
    DoOneMore(lockKey, s, ExactlyOnce.SlowRequest(tenant, req, key, latency), CommitRequest(1));
    ServedAlone.CommitAlone(lockKey, ExactlyOnce.Later(s, latency), 1, r);
  }

  /** A reversal is staged, a statement that ends now is issued, and the reversal commits: its postings are
      dated before the end, so the statement of every account it touches changes. */
  lemma SlowReversalRewritesAStatement(lockKey: AccountId -> int, s: System, tenant: string, req: ReverseRequest, key: string,
      latency: nat, i: nat, a: AccountId, start: Instant)
    requires Consistent(s.db) && ServedAlone.Quiet(s) && Key(tenant, REVERSALS, key) !in s.db.records
    requires ReverseRefusal(s.db, tenant, req.txn).None? && latency > 0 && start <= s.db.clock
    requires i < |s.db.events[req.txn].legs| && s.db.events[req.txn].legs[i].account == a
    ensures var end := DoAll(lockKey, s, ExactlyOnce.SlowRequest(tenant, req, key, latency) + [CommitRequest(1)]).db;
      !SameAnswers(s.db.postings, end.postings, a, start, s.db.clock + latency)
  {
    SlowReversalCommits(lockKey, s, tenant, req, key, latency);
    StagedReversalIsDated(s.db, tenant, req, key, i);
    LateCommitChangesStatement(s, ExactlyOnce.ReversalStaged(s.db, tenant, req, key), latency, i, a, start);
  }

  lemma StagedReversalIsDated(db: Ledger, tenant: string, req: ReverseRequest, key: string, i: nat)
    requires Consistent(db) && ReverseRefusal(db, tenant, req.txn).None? && i < |db.events[req.txn].legs|
    ensures var w := ExactlyOnce.ReversalStaged(db, tenant, req, key);
      && |w.entries| == 1 && i < |w.entries[0].legs|
      && w.entries[0].legs[i].account == db.events[req.txn].legs[i].account && w.entries[0].legs[i].effectiveAt == db.clock
  {
    ReversalIsWellPosted(db, tenant, req, db.clock);
  }

  lemma LateCommitChangesStatement(s: System, w: Writes, latency: nat, i: nat, a: AccountId, start: Instant)
    requires |w.entries| == 1 && i < |w.entries[0].legs| && latency > 0 && start <= s.db.clock
    requires w.entries[0].legs[i].account == a && w.entries[0].legs[i].effectiveAt == s.db.clock
    ensures !SameAnswers(s.db.postings, Commit(ExactlyOnce.Later(s, latency).db, w).postings, a, start, s.db.clock + latency)
  {
    BackdatedCommitChangesStatement(ExactlyOnce.Later(s, latency).db, w, i, a, start, s.db.clock + latency);
  }

  lemma BackdatedCommitChangesStatement(db: Ledger, w: Writes, i: nat, a: AccountId, start: Instant, end: Instant)
    requires |w.entries| == 1 && i < |w.entries[0].legs| && TakesEffectIn(w.entries[0].legs[i], a, start, end)
    ensures !SameAnswers(db.postings, Commit(db, w).postings, a, start, end)
  {
    CommitKeepsStatementIff(db, w, a, start, end);
    assert !NoLegIn(w.entries[0].legs, a, start, end);
  }
}
