/** Honest retries: for as long as its record may not be swept, a call that succeeded is answered again
    with what it answered then, and a different request under its key conflicts. */
module Retries {
  import opened Wrappers
  import opened Tables
  import opened Services
  import opened ServiceLaws
  import opened ServiceEffects
  import opened SerialRuns
  import ExactlyOnce
  import Interleaving

  // ----- Serial runs -----

  predicate Remembers(l: Ledger, k: Key, r: Record) {
    k in l.records && l.records[k] == r
  }

  predicate SweepsSpare(steps: seq<Step>, minAge: nat) {
    forall step <- steps :: step.DoSweep? ==> step.minAge >= minAge
  }

  lemma StageHasANewKey(l: Ledger, step: Step)
    requires StagedBy(l, step).Some?
    ensures var w := StagedBy(l, step).value; w.key.Some? ==> w.key.value !in l.records
  {
  }

  lemma CommitRemembers(l: Ledger, w: Writes, k: Key, r: Record)
    requires Remembers(l, k, r) && (w.key.Some? ==> w.key.value !in l.records)
    ensures Remembers(Commit(l, w), k, r)
  {
    MovedFrame(l, w);
  }

  lemma StepRemembers(l: Ledger, step: Step, k: Key, r: Record, minAge: nat)
    requires Remembers(l, k, r) && l.clock <= r.createdAt + minAge && (step.DoSweep? ==> step.minAge >= minAge)
    ensures Remembers(Apply(l, step), k, r)
  {
    StepCommitsItsStage(l, step);
    if StagedBy(l, step).Some? {
      StageHasANewKey(l, step);
      CommitRemembers(l, StagedBy(l, step).value, k, r);
    }
  }

  lemma StepKeepsTime(l: Ledger, step: Step)
    ensures l.clock <= Apply(l, step).clock
  {
    StepCommitsItsStage(l, step);
    if StagedBy(l, step).Some? { MovedFrame(l, StagedBy(l, step).value); }
  }

  lemma {:induction false} RunRemembers(l: Ledger, steps: seq<Step>, k: Key, r: Record, minAge: nat)
    requires Remembers(l, k, r) && SweepsSpare(steps, minAge) && Run(l, steps).clock <= r.createdAt + minAge
    ensures Remembers(Run(l, steps), k, r)
  {
    if steps == [] {
    } else {
      var front, last := steps[..|steps| - 1], steps[|steps| - 1];
      StepKeepsTime(Run(l, front), last);
      RunRemembers(l, front, k, r, minAge);
      StepRemembers(Run(l, front), last, k, r, minAge);
    }
  }

  lemma DoneIsRecorded(l: Ledger, w: Writes)
    requires w.key.Some?
    ensures var (after, outcome) := Finish(l, Ok(w));
      outcome.Done? && Remembers(after, w.key.value, Record(w.fingerprint, outcome.response, w.at))
  {
    MovedFrame(l, w);
  }

  /** What a call that succeeded under `k` left behind, whatever was served since. */
  predicate Kept(l: Ledger, after: Ledger, first: Outcome, k: Key, fp: int, steps: seq<Step>, minAge: nat) {
    first.Done? && SweepsSpare(steps, minAge) && Run(after, steps).clock <= l.clock + minAge ==>
      Remembers(Run(after, steps), k, Record(fp, first.response, l.clock))
  }

  lemma FirstCallIsKept(l: Ledger, after: Ledger, first: Outcome, k: Key, fp: int, steps: seq<Step>, minAge: nat)
    requires first.Done? ==> Remembers(after, k, Record(fp, first.response, l.clock))
    ensures Kept(l, after, first, k, fp, steps, minAge)
  {
    if first.Done? && SweepsSpare(steps, minAge) && Run(after, steps).clock <= l.clock + minAge {
      RunRemembers(after, steps, k, Record(fp, first.response, l.clock), minAge);
    }
  }

  lemma TransferIsRecorded(l: Ledger, tenant: string, req: TransferRequest, key: string, fp: int)
    ensures var (after, first) := ExecuteTransfer(l, tenant, req, key, fp);
      first.Done? ==> Remembers(after, Key(tenant, "transfers.create", key), Record(fp, first.response, l.clock))
  {
    var k := Key(tenant, TRANSFERS, key);
    if StageTransfer(l, tenant, req, k, fp).Ok? { DoneIsRecorded(l, StageTransfer(l, tenant, req, k, fp).value); }
  }

  lemma PlacementIsRecorded(l: Ledger, tenant: string, req: PlaceRequest, key: string, fp: int)
    ensures var (after, first) := Place(l, tenant, req, key, fp);
      first.Done? ==> Remembers(after, Key(tenant, "holds.place", key), Record(fp, first.response, l.clock))
  {
    var k := Key(tenant, PLACE, key);
    if StagePlace(l, tenant, req, k, fp).Ok? { DoneIsRecorded(l, StagePlace(l, tenant, req, k, fp).value); }
  }

  lemma ReversalIsRecorded(l: Ledger, tenant: string, req: ReverseRequest, key: string, fp: int)
    ensures var (after, first) := Reverse(l, tenant, req, key, fp);
      first.Done? ==> Remembers(after, Key(tenant, "reversals.create", key), Record(fp, first.response, l.clock))
  {
    var k := Key(tenant, REVERSALS, key);
    if StageReverse(l, tenant, req, k, fp).Ok? { DoneIsRecorded(l, StageReverse(l, tenant, req, k, fp).value); }
  }

  /** A transfer that went through, sent again in any later state in which its record may not have been
      swept: the first response for the same request, a conflict for another, and nothing moves. */
  lemma TransferRetriesReplay(l: Ledger, tenant: string, req: TransferRequest, key: string, fp: int, steps: seq<Step>, minAge: nat,
      again: TransferRequest, fp': int)
    ensures var (after, first) := ExecuteTransfer(l, tenant, req, key, fp);
      var end := Run(after, steps);
      first.Done? && SweepsSpare(steps, minAge) && end.clock <= l.clock + minAge ==>
        ExecuteTransfer(end, tenant, again, key, fp')
          == (end, if fp' == fp then Replayed(first.response) else Refused(IdempotencyConflict))
  {
    var (after, first) := ExecuteTransfer(l, tenant, req, key, fp);
    TransferIsRecorded(l, tenant, req, key, fp);
    FirstCallIsKept(l, after, first, Key(tenant, "transfers.create", key), fp, steps, minAge);
  }

  /** The same for a placement. */
  lemma PlacementRetriesReplay(l: Ledger, tenant: string, req: PlaceRequest, key: string, fp: int, steps: seq<Step>, minAge: nat,
      again: PlaceRequest, fp': int)
    ensures var (after, first) := Place(l, tenant, req, key, fp);
      var end := Run(after, steps);
      first.Done? && SweepsSpare(steps, minAge) && end.clock <= l.clock + minAge ==>
        Place(end, tenant, again, key, fp') == (end, if fp' == fp then Replayed(first.response) else Refused(IdempotencyConflict))
  {
    var (after, first) := Place(l, tenant, req, key, fp);
    PlacementIsRecorded(l, tenant, req, key, fp);
    FirstCallIsKept(l, after, first, Key(tenant, "holds.place", key), fp, steps, minAge);
  }

  /** And for a reversal, which is answered so rather than as already reversed. */
  lemma ReversalRetriesReplay(l: Ledger, tenant: string, req: ReverseRequest, key: string, fp: int, steps: seq<Step>, minAge: nat,
      again: ReverseRequest, fp': int)
    ensures var (after, first) := Reverse(l, tenant, req, key, fp);
      var end := Run(after, steps);
      first.Done? && SweepsSpare(steps, minAge) && end.clock <= l.clock + minAge ==>
        Reverse(end, tenant, again, key, fp') == (end, if fp' == fp then Replayed(first.response) else Refused(IdempotencyConflict))
  {
    var (after, first) := Reverse(l, tenant, req, key, fp);
    ReversalIsRecorded(l, tenant, req, key, fp);
    FirstCallIsKept(l, after, first, Key(tenant, "reversals.create", key), fp, steps, minAge);
  }

  // ----- Interleavings -----

  /** Every service answers a call under the execution's key from its response, if the call is of the
      execution's endpoint; no such call is admitted. */
  ghost predicate AnswersRetries(db: Ledger, e: Interleaving.Execution) {
    forall fp: int :: AnswersRetry(db, e, fp)
  }

  ghost predicate AnswersRetry(db: Ledger, e: Interleaving.Execution, fp: int) {
    var answer := (db, if fp == e.fingerprint then Replayed(e.response) else Refused(IdempotencyConflict));
    && (e.key.endpoint == "transfers.create" ==>
          forall req: TransferRequest ::
            && ExecuteTransfer(db, e.key.tenant, req, e.key.key, fp) == answer
            && !Interleaving.Admits(db, e.key.tenant, Interleaving.TransferOp(req), e.key, fp))
    && (e.key.endpoint == "holds.place" ==>
          forall req: PlaceRequest ::
            && Place(db, e.key.tenant, req, e.key.key, fp) == answer
            && !Interleaving.Admits(db, e.key.tenant, Interleaving.PlaceOp(req), e.key, fp))
    && (e.key.endpoint == "reversals.create" ==>
          forall req: ReverseRequest ::
            && Reverse(db, e.key.tenant, req, e.key.key, fp) == answer
            && !Interleaving.Admits(db, e.key.tenant, Interleaving.ReverseOp(req), e.key, fp))
  }

  lemma LookedUpIsAnswered(db: Ledger, e: Interleaving.Execution, fp: int)
    requires Lookup(db.records, e.key, fp) == (if fp == e.fingerprint then Hit(e.response) else Conflict)
    ensures AnswersRetry(db, e, fp)
  {
    assert e.key == Key(e.key.tenant, e.key.endpoint, e.key.key);
  }

  /** Over every interleaving, crash and sweep: while an execution's record may not be swept, services
      answer its key with its response, or a conflict. */
  lemma ExecutionsAnswerRetries(lockKey: AccountId -> int, s: Interleaving.System, steps: seq<Interleaving.Step>, minAge: nat, i: nat)
    requires Interleaving.Idle(s) && ExactlyOnce.AllOldEnough(minAge, steps)
    ensures var end := Interleaving.DoAll(lockKey, s, steps);
      i < |end.log| && end.db.clock <= end.log[i].createdAt + minAge ==> AnswersRetries(end.db, end.log[i])
  {
    var end := Interleaving.DoAll(lockKey, s, steps);
    ExactlyOnce.KeysExecuteOnce(lockKey, s, steps, minAge);
    if i < |end.log| && end.db.clock <= end.log[i].createdAt + minAge {
      assert ExactlyOnce.Answers(end.db.records, end.log[i]);
      forall fp: int ensures AnswersRetry(end.db, end.log[i], fp) { LookedUpIsAnswered(end.db, end.log[i], fp); }
    }
  }
}
