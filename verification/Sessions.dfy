/** The services as they run: a session stages rows over the committed tables, one statement at a
    time, then commits all of them or none. Each method is proved against the function that the
    rest of the project reasons about. */
module Sessions {
  import opened Wrappers
  import opened Money
  import opened Tables
  import opened PostingEngine
  import opened Services
  import opened ServiceLaws
  import opened SerialRuns
  import Ordering
  import Outbox
  import Rates

  // ----- Folding one posting at a time -----

  /** The engine's UPDATE: at most the posting's own row, and only for the acting tenant. */
  function UpdateRow(snapshots: map<AccountId, Snapshot>, tenant: string, p: Posting): map<AccountId, Snapshot> {
    var a := p.leg.account;
    if a in snapshots && snapshots[a].tenant == tenant then snapshots[a := ApplyToSnapshot(snapshots[a], p)] else snapshots
  }

  lemma {:induction false} FoldedKeepsTenant(s: Snapshot, ps: seq<Posting>, a: AccountId)
    ensures Folded(s, ps, a).tenant == s.tenant
  {
    if ps == [] {
    } else {
      FoldedKeepsTenant(s, ps[..|ps| - 1], a);
    }
  }

  /** Row-by-row updates add up to folding every account at once. */
  lemma FoldOneMore(snapshots: map<AccountId, Snapshot>, tenant: string, ps: seq<Posting>, p: Posting)
    ensures FoldAll(snapshots, tenant, ps + [p]) == UpdateRow(FoldAll(snapshots, tenant, ps), tenant, p)
  {
    assert (ps + [p])[..|ps|] == ps;
    forall a | a in snapshots ensures Folded(snapshots[a], ps, a).tenant == snapshots[a].tenant {
      FoldedKeepsTenant(snapshots[a], ps, a);
    }
  }

  lemma FoldNone(snapshots: map<AccountId, Snapshot>, tenant: string)
    ensures FoldAll(snapshots, tenant, []) == snapshots
  {
  }

  // ----- What the session posts is accepted -----

  lemma TwoLegsValidate(accounts: seq<Account>, x: AccountId, y: AccountId, amount: int, at: Instant)
    requires x < |accounts| && y < |accounts|
    ensures Validate(accounts, TwoLegs(x, y, amount, at)).Ok?
  {
    var legs := TwoLegs(x, y, amount, at);
    assert legs[..1] == [Leg(x, -amount, at)];
    assert SumOf(legs[..1]) == -amount;
  }

  lemma FoundAccountExists(accounts: seq<Account>, tenant: string, c: Currency)
    ensures var found := ConversionAccount(accounts, tenant, c); found.Ok? ==> found.value < |accounts|
  {
    var found := ConversionAccount(accounts, tenant, c);
    if found.Ok? {
      ConversionAccountsMatch(accounts, tenant, c, found.value);
    }
  }

  // ----- Publishing one event at a time -----

  lemma MarkNone(events: seq<Event>, now: Instant)
    ensures Outbox.MarkPublished(events, {}, now) == events
  {
  }

  lemma MarkOneMore(events: seq<Event>, ids: set<nat>, id: nat, now: Instant)
    ensures Outbox.MarkPublished(Outbox.MarkPublished(events, ids, now), {id}, now) == Outbox.MarkPublished(events, ids + {id}, now)
  {
  }

  lemma IdsOfOneMore(batch: seq<Event>, i: nat)
    requires i < |batch|
    ensures Outbox.IdsOf(batch[..i + 1]) == Outbox.IdsOf(batch[..i]) + {batch[i].id}
  {
    assert batch[..i + 1] == batch[..i] + [batch[i]];
  }

  // ----- The session -----

  class Session {
    /** What is committed. */
    var db: Ledger

    // What this session sees: the committed rows and its own staged writes.
    var accounts: seq<Account>
    var seeded: map<AccountId, Snapshot>
    var snapshots: map<AccountId, Snapshot>
    var txns: seq<Transaction>
    var postings: seq<Posting>
    var events: seq<Event>
    var holds: seq<Hold>
    var records: map<Key, Record>

    function Staged(): Ledger
      reads this
    {
      Ledger(accounts, seeded, snapshots, txns, postings, events, holds, records, db.rates, db.clock)
    }

    /** Nothing is staged. */
    predicate Clean()
      reads this
    {
      Staged() == db
    }

    constructor (l: Ledger)
      ensures db == l && Clean()
    {
      db := l;
      accounts, seeded, snapshots, txns := l.accounts, l.seeded, l.snapshots, l.txns;
      postings, events, holds, records := l.postings, l.events, l.holds, l.records;
    }

    method Commit()
      modifies `db
      ensures db == old(Staged()) && Clean()
    {
      db := Staged();
    }

    method Rollback()
      modifies this
      ensures db == old(db) && Clean()
    {
      accounts, seeded, snapshots, txns := db.accounts, db.seeded, db.snapshots, db.txns;
      postings, events, holds, records := db.postings, db.events, db.holds, db.records;
    }

    // ----- The posting engine (backend/services/postings_engine.py) -----

    method UpdateSnapshot(tenant: string, p: Posting)
      modifies `snapshots
      ensures snapshots == UpdateRow(old(snapshots), tenant, p)
    {
      var a := p.leg.account;
      if a in snapshots && snapshots[a].tenant == tenant {
        var row := snapshots[a];
        snapshots := snapshots[a := Snapshot(row.tenant, row.balance + p.leg.amount, row.version + 1, Some(p.id))];
      }
    }

    /** Writes each leg and folds it in; stops at a leg on an account that does not exist, where
        the database refuses the row. */
    method WriteLegs(tenant: string, at: Instant, txn: TxnId, legs: seq<Leg>, ghost event: Event) returns (written: bool)
      requires event.txn == txn && event.legs == legs && event.createdAt == at
      modifies `postings, `snapshots
      ensures written <==> forall leg <- legs :: leg.account < |accounts|
      ensures written ==>
        var added := PostingsFor(|old(postings)|, event);
        postings == old(postings) + added && snapshots == FoldAll(old(snapshots), tenant, added)
    {
      ghost var added := PostingsFor(|postings|, event);
      FoldNone(snapshots, tenant);
      for i := 0 to |legs|
        invariant postings == old(postings) + added[..i]
        invariant snapshots == FoldAll(old(snapshots), tenant, added[..i])
        invariant forall k | 0 <= k < i :: legs[k].account < |accounts|
      {
        if legs[i].account >= |accounts| {
          assert legs[i] in legs;
          return false;
        }
        var posting := Posting(|postings|, txn, legs[i], at);
        postings := postings + [posting];
        assert added[..i + 1] == added[..i] + [posting];
        FoldOneMore(old(snapshots), tenant, added[..i], posting);
        UpdateSnapshot(tenant, posting);
      }
      assert added[..|legs|] == added;
      written := true;
    }

    method PostTransaction(tenant: string, at: Instant, e: Entry) returns (r: Result<TxnId, PostError>)
      modifies this
      ensures db == old(db)
      ensures match old(Validate(accounts, e.legs))
        case Ok(_) => r == Ok(|old(txns)|) && Staged() == Post(old(Staged()), tenant, at, e)
        case Err(error) => r == Err(error) && Staged() == if error.UnknownAccount? then db else old(Staged())
    {
      if |e.legs| < 2 {
        return Err(TooFewLegs);
      }
      if SumOf(e.legs) != 0 {
        return Err(Unbalanced(SumOf(e.legs)));
      }
      var txn := |txns|;
      ghost var event := EventFor(Staged(), tenant, at, e);
      txns := txns + [Transaction(tenant, e.memo, e.corrects, at)];
      var written := WriteLegs(tenant, at, txn, e.legs, event);
      if !written {
        Rollback();
        return Err(UnknownAccount);
      }
      events := events + [Event(txn, tenant, txn, e.memo, e.corrects, e.legs, Pending, at, None)];
      r := Ok(txn);
    }

    // ----- FX routing (backend/services/fx_service.py) -----

    method RouteConversion(tenant: string, at: Instant, source: AccountId, destination: AccountId, amount: int,
                           effectiveAt: Instant, memo: string)
      returns (r: Result<TxnId, Failure>)
      requires source < |accounts| && destination < |accounts|
      modifies this
      ensures db == old(db)
      ensures match old(Services.RouteConversion(Staged(), tenant, source, destination, amount, effectiveAt, memo))
        case Ok(entries) => r == Ok(|old(txns)|) && Staged() == PostAll(old(Staged()), tenant, at, entries)
        case Err(f) => r == Err(f) && Staged() == old(Staged())
    {
      var from, to := accounts[source].currency, accounts[destination].currency;
      var resolved := Rates.Resolve(db.rates, from, to, effectiveAt);
      if resolved.Err? {
        return Err(NoRate);
      }
      var rate := resolved.value;
      var target := Convert(amount, from, to, rate.rate);
      var fromConversion := ConversionAccount(accounts, tenant, from);
      if fromConversion.Err? {
        return Err(fromConversion.error);
      }
      var toConversion := ConversionAccount(accounts, tenant, to);
      if toConversion.Err? {
        return Err(toConversion.error);
      }
      FoundAccountExists(accounts, tenant, from);
      FoundAccountExists(accounts, tenant, to);
      TwoLegsValidate(accounts, source, fromConversion.value, amount, effectiveAt);
      TwoLegsValidate(accounts, toConversion.value, destination, target, effectiveAt);
      var debit := Entry(TwoLegs(source, fromConversion.value, amount, effectiveAt),
                         FxLeg(memo, DebitSide, rate.rate, rate.provenance), None);
      var credit := Entry(TwoLegs(toConversion.value, destination, target, effectiveAt),
                          FxLeg(memo, CreditSide, rate.rate, rate.provenance), None);
      PostAllTwo(Staged(), tenant, at, debit, credit);
      var first := PostTransaction(tenant, at, debit);
      var second := PostTransaction(tenant, at, credit);
      r := Ok(first.value);
    }

    // ----- Idempotency keys (backend/services/idempotency_store.py) -----

    method RecordKey(key: Key, fingerprint: int, response: Response, at: Instant)
      modifies `records
      ensures records == old(records)[key := Record(fingerprint, response, at)]
    {
      records := records[key := Record(fingerprint, response, at)];
    }

    // ----- Transfers (backend/services/transfers_service.py) -----

    method StageTransferLegs(tenant: string, req: TransferRequest) returns (r: Result<TxnId, Failure>)
      requires Usable(accounts, tenant, req.source) && Usable(accounts, tenant, req.destination)
      modifies this
      ensures db == old(db)
      ensures match old(TransferEntries(Staged(), tenant, req, db.clock))
        case Ok(entries) => r == Ok(|old(txns)|) && Staged() == PostAll(old(Staged()), tenant, db.clock, entries)
        case Err(f) => r == Err(f) && Staged() == old(Staged())
    {
      var now := db.clock;
      var effectiveAt := if req.effectiveAt.Some? then req.effectiveAt.value else now;
      if accounts[req.source].currency != accounts[req.destination].currency {
        r := RouteConversion(tenant, now, req.source, req.destination, req.amount, effectiveAt, req.memo);
      } else {
        var entry := Entry(TwoLegs(req.source, req.destination, req.amount, effectiveAt), Text(req.memo), None);
        TwoLegsValidate(accounts, req.source, req.destination, req.amount, effectiveAt);
        PostAllOne(Staged(), tenant, now, entry);
        var posted := PostTransaction(tenant, now, entry);
        r := Ok(posted.value);
      }
    }

    method ExecuteTransfer(tenant: string, req: TransferRequest, key: string, fingerprint: int) returns (outcome: Outcome)
      requires Clean()
      modifies this
      ensures Clean() && (db, outcome) == Services.ExecuteTransfer(old(db), tenant, req, key, fingerprint)
    {
      var k := Key(tenant, TRANSFERS, key);
      match Lookup(records, k, fingerprint) {
        case Hit(response) => return Replayed(response);
        case Conflict => return Refused(IdempotencyConflict);
        case Miss =>
      }
      if !Usable(accounts, tenant, req.source) || !Usable(accounts, tenant, req.destination) {
        return Refused(AccountNotFoundOrClosed);
      }
      var funds := CheckFunds(Staged(), tenant, req.source, req.amount, db.clock);
      if funds.Some? {
        return Refused(funds.value);
      }
      var staged := StageTransferLegs(tenant, req);
      if staged.Err? {
        return Refused(staged.error);
      }
      var response := TransferResponse(staged.value, BalanceOr(Staged(), req.source), BalanceOr(Staged(), req.destination));
      RecordKey(k, fingerprint, response, db.clock);
      ghost var entries := TransferEntries(old(db), tenant, req, db.clock).value;
      PostAllFrame(old(db), tenant, db.clock, entries);
      Commit();
      outcome := Done(response);
    }

    // ----- Holds (backend/services/holds_service.py) -----

    method PlaceHold(tenant: string, req: PlaceRequest, key: string, fingerprint: int) returns (outcome: Outcome)
      requires Clean()
      modifies this
      ensures Clean() && (db, outcome) == Place(old(db), tenant, req, key, fingerprint)
    {
      var k := Key(tenant, PLACE, key);
      match Lookup(records, k, fingerprint) {
        case Hit(response) => return Replayed(response);
        case Conflict => return Refused(IdempotencyConflict);
        case Miss =>
      }
      if !Usable(accounts, tenant, req.account) {
        return Refused(AccountNotFoundOrClosed);
      }
      var now := db.clock;
      var funds := CheckFunds(Staged(), tenant, req.account, req.amount, now);
      if funds.Some? {
        return Refused(funds.value);
      }
      var expiresAt := if req.expiresAt.Some? then req.expiresAt.value else now + DEFAULT_TTL;
      var id, hold := |holds|, Hold(tenant, req.account, req.amount, Active, req.memo, expiresAt, None, None, None);
      holds := holds + [hold];
      var posted := BalanceOr(Staged(), req.account);
      var response := HoldResponse(id, hold, posted, posted - HeldTotal(holds, tenant, req.account, now));
      RecordKey(k, fingerprint, response, now);
      Commit();
      outcome := Done(response);
    }

    method CaptureHold(tenant: string, id: HoldId, req: CaptureRequest) returns (outcome: Outcome)
      requires Clean()
      modifies this
      ensures Clean() && (db, outcome) == Capture(old(db), tenant, id, req)
    {
      if id >= |holds| || holds[id].tenant != tenant {
        return Refused(HoldNotFound);
      }
      var hold := holds[id];
      if hold.state == Captured {
        return Replayed(HoldView(Staged(), tenant, id));
      }
      var refusal := CaptureRefusal(accounts, tenant, hold, req);
      if refusal.Some? {
        return Refused(refusal.value);
      }
      var amount, now := CaptureAmount(hold, req), db.clock;
      var funds := CheckPosted(Staged(), tenant, hold.account, amount);
      if funds.Some? {
        return Refused(funds.value);
      }
      var memo := if req.memo != "" then req.memo else hold.memo;
      var entry := Entry(TwoLegs(hold.account, req.destination, amount, now), Text(memo), None);
      TwoLegsValidate(accounts, hold.account, req.destination, amount, now);
      PostAllOne(Staged(), tenant, now, entry);
      var posted := PostTransaction(tenant, now, entry);
      // The session does not autoflush, so the figures below still count this hold.
      var flushed, balance := holds, BalanceOr(Staged(), hold.account);
      hold := hold.(state := Captured, capturedTxn := Some(posted.value), capturedAmount := Some(amount), resolvedAt := Some(now));
      holds := holds[id := hold];
      var response := HoldResponse(id, hold, balance, balance - HeldTotal(flushed, tenant, hold.account, now));
      Commit();
      outcome := Done(response);
    }

    method ReleaseHold(tenant: string, id: HoldId) returns (outcome: Outcome)
      requires Clean()
      modifies this
      ensures Clean() && (db, outcome) == Release(old(db), tenant, id)
    {
      if id >= |holds| || holds[id].tenant != tenant {
        return Refused(HoldNotFound);
      }
      match holds[id].state {
        case Active =>
          holds := holds[id := holds[id].(state := Released, resolvedAt := Some(db.clock))];
          Commit();
          outcome := Done(HoldView(db, tenant, id));
        case Captured => outcome := Refused(WrongHoldState);
        case Released => outcome := Replayed(HoldView(db, tenant, id));
      }
    }

    // ----- Reversals (backend/services/reversals_service.py) -----

    method ReverseTransaction(tenant: string, req: ReverseRequest, key: string, fingerprint: int) returns (outcome: Outcome)
      requires Clean()
      modifies this
      ensures Clean() && (db, outcome) == Reverse(old(db), tenant, req, key, fingerprint)
    {
      var k := Key(tenant, REVERSALS, key);
      match Lookup(records, k, fingerprint) {
        case Hit(response) => return Replayed(response);
        case Conflict => return Refused(IdempotencyConflict);
        case Miss =>
      }
      var refusal := ReverseRefusal(Staged(), tenant, req.txn);
      if refusal.Some? {
        return Refused(refusal.value);
      }
      var now := db.clock;
      var memo := if req.memo != "" then Text(req.memo) else ReversalOf(req.txn);
      var entry := Entry(Negated(PostingsOf(postings, req.txn), now), memo, Some(req.txn));
      PostAllOne(Staged(), tenant, now, entry);
      var reversal := PostTransaction(tenant, now, entry);
      if reversal.Err? {
        Rollback();
        return Refused(NotPostable(reversal.error));
      }
      var response := ReversalResponse(reversal.value, req.txn, memo, now);
      RecordKey(k, fingerprint, response, now);
      Commit();
      outcome := Done(response);
    }

    // ----- Accounts, outbox, sweeper -----

    method OpenAccount(tenant: string, path: string, currency: Currency) returns (id: AccountId)
      requires Clean()
      modifies this
      ensures Clean() && db == Services.OpenAccount(old(db), tenant, path, currency)
      ensures id == |old(db).accounts|
    {
      id := |accounts|;
      accounts := accounts + [Account(tenant, path, currency, true)];
      snapshots, seeded := snapshots[id := Snapshot(tenant, 0, 0, None)], seeded[id := Snapshot(tenant, 0, 0, None)];
      Commit();
    }

    method DispatchPending(tenant: string, limit: nat) returns (published: seq<Event>)
      requires Clean()
      modifies this
      ensures Clean() && db == old(db).(events := Outbox.Dispatch(old(db).events, tenant, limit, db.clock))
      ensures published == Outbox.PublishEach(Ordering.Take(Outbox.Queue(old(db).events, tenant), limit), db.clock)
      ensures Outbox.AreStamped(published, Outbox.Queue(old(db).events, tenant), db.clock)
    {
      var now := db.clock;
      var batch := Ordering.Take(Outbox.Queue(events, tenant), limit);
      published := [];
      MarkNone(events, now);
      for i := 0 to |batch|
        invariant events == Outbox.MarkPublished(old(events), Outbox.IdsOf(batch[..i]), now)
        invariant published == Outbox.PublishEach(batch[..i], now)
        invariant Staged() == old(Staged()).(events := events) && db == old(db)
      {
        IdsOfOneMore(batch, i);
        MarkOneMore(old(events), Outbox.IdsOf(batch[..i]), batch[i].id, now);
        events := Outbox.MarkPublished(events, {batch[i].id}, now);
        published := published + [batch[i].(status := Published, publishedAt := Some(now))];
      }
      assert batch[..|batch|] == batch;
      Outbox.BatchIsStamped(Outbox.Queue(old(events), tenant), limit, now);
      Commit();
    }

    method SweepOnce(minAge: nat) returns (reclaimed: nat, retained: nat)
      requires Clean()
      modifies this
      ensures Clean() && db == old(db).(records := Unswept(old(db).records, db.clock - minAge))
      ensures forall k :: k in db.records <==> k in old(db).records && old(db).records[k].createdAt >= db.clock - minAge
      ensures retained == |db.records| && reclaimed + retained == |old(db).records|
    {
      var cutoff := db.clock - minAge;
      var expired := set k | k in records && records[k].createdAt < cutoff;
      reclaimed := |expired|;
      records := records - expired;
      retained := |records|;
      Commit();
      assert db.records == Unswept(old(db).records, cutoff);
      assert old(db).records.Keys == db.records.Keys + expired && db.records.Keys !! expired;
    }

    method Quote(rate: Rates.Rate)
      requires Clean()
      modifies `db
      ensures Clean() && db == old(db).(rates := old(db).rates + [rate])
    {
      db := db.(rates := db.rates + [rate]);
    }

    method Tick(elapsed: nat)
      requires Clean()
      modifies `db
      ensures Clean() && db == old(db).(clock := old(db).clock + elapsed)
    {
      db := db.(clock := db.clock + elapsed);
    }

    // ----- Serving requests one after another -----

    method PostRaw(tenant: string, entry: Entry)
      requires Clean() && WellPosted(accounts, tenant, entry.legs)
      modifies this
      ensures Clean() && db == Post(old(db), tenant, db.clock, entry)
    {
      WellPostedValidates(accounts, tenant, entry.legs);
      var r := PostTransaction(tenant, db.clock, entry);
      Commit();
    }

    method Serve(step: Step)
      requires Clean() && Admissible(db, step)
      modifies this
      ensures Clean() && db == Apply(old(db), step)
    {
      match step {
        case Open(tenant, path, currency) => var id := OpenAccount(tenant, path, currency);
        case PostRaw(tenant, entry) => PostRaw(tenant, entry);
        case DoTransfer(tenant, req, key, fp) => var outcome := ExecuteTransfer(tenant, req, key, fp);
        case DoPlace(tenant, req, key, fp) => var outcome := PlaceHold(tenant, req, key, fp);
        case DoCapture(tenant, id, req) => var outcome := CaptureHold(tenant, id, req);
        case DoRelease(tenant, id) => var outcome := ReleaseHold(tenant, id);
        case DoReverse(tenant, req, key, fp) => var outcome := ReverseTransaction(tenant, req, key, fp);
        case DoDispatch(tenant, limit) => var published := DispatchPending(tenant, limit);
        case DoSweep(minAge) => var reclaimed, retained := SweepOnce(minAge);
        case Quote(rate) => Quote(rate);
        case Tick(elapsed) => Tick(elapsed);
      }
    }

    /** Whatever requests are served, the committed tables end where `Run` says, with every view of
        the money in agreement, every hold and reversal sound, and nothing written ever rewritten. */
    method ServeAll(steps: seq<Step>)
      requires Clean() && Valid(db) && SerialSound(db) && AdmissibleRun(db, steps)
      modifies this
      ensures Clean() && db == Run(old(db), steps)
      ensures Valid(db) && SerialSound(db) && Grows(old(db), db)
    {
      for i := 0 to |steps|
        invariant Clean() && db == Run(old(db), steps[..i])
      {
        AdmissiblePrefix(old(db), steps, i + 1);
        assert steps[..i + 1][..i] == steps[..i];
        Serve(steps[i]);
      }
      assert steps[..|steps|] == steps;
      RunKeepsEverything(old(db), steps);
    }
  }

  lemma {:induction false} AdmissiblePrefix(l: Ledger, steps: seq<Step>, n: nat)
    requires n <= |steps| && AdmissibleRun(l, steps)
    ensures AdmissibleRun(l, steps[..n])
  {
    if n < |steps| {
      AdmissiblePrefix(l, steps[..|steps| - 1], n);
      assert steps[..|steps| - 1][..n] == steps[..n];
    } else {
      assert steps[..n] == steps;
    }
  }
}
