/** Requests served one after another: what any such run keeps, and what it can never undo. */
module SerialRuns {
  import opened Wrappers
  import opened Money
  import opened Tables
  import opened PostingEngine
  import opened Services
  import opened ServiceLaws
  import Ordering
  import Outbox
  import Rates

  datatype Step =
    | Open(tenant: string, path: string, currency: Currency)
    | PostRaw(tenant: string, entry: Entry)
    | DoTransfer(tenant: string, transfer: TransferRequest, key: string, fingerprint: int)
    | DoPlace(tenant: string, place: PlaceRequest, key: string, fingerprint: int)
    | DoCapture(tenant: string, id: HoldId, capture: CaptureRequest)
    | DoRelease(tenant: string, id: HoldId)
    | DoReverse(tenant: string, reverse: ReverseRequest, key: string, fingerprint: int)
    | DoDispatch(tenant: string, limit: nat)
    | DoSweep(minAge: nat)
    | Quote(rate: Rates.Rate)
    | Tick(elapsed: nat)

  function Apply(l: Ledger, step: Step): Ledger {
    match step
    case Open(tenant, path, currency) => OpenAccount(l, tenant, path, currency)
    case PostRaw(tenant, entry) => Post(l, tenant, l.clock, entry)
    case DoTransfer(tenant, req, key, fp) => ExecuteTransfer(l, tenant, req, key, fp).0
    case DoPlace(tenant, req, key, fp) => Place(l, tenant, req, key, fp).0
    case DoCapture(tenant, id, req) => Capture(l, tenant, id, req).0
    case DoRelease(tenant, id) => Release(l, tenant, id).0
    case DoReverse(tenant, req, key, fp) => Reverse(l, tenant, req, key, fp).0
    case DoDispatch(tenant, limit) => l.(events := Outbox.Dispatch(l.events, tenant, limit, l.clock))
    case DoSweep(minAge) => l.(records := Unswept(l.records, l.clock - minAge))
    case Quote(rate) => l.(rates := l.rates + [rate])
    case Tick(elapsed) => l.(clock := l.clock + elapsed)
  }

  /** What the source leaves to its callers: direct engine calls stay within one tenant and correct
      nothing. */
  predicate Admissible(l: Ledger, step: Step) {
    step.PostRaw? ==> WellPosted(l.accounts, step.tenant, step.entry.legs) && step.entry.corrects.None?
  }

  function Run(l: Ledger, steps: seq<Step>): Ledger {
    if steps == [] then l else Apply(Run(l, steps[..|steps| - 1]), steps[|steps| - 1])
  }

  predicate AdmissibleRun(l: Ledger, steps: seq<Step>) {
    steps == [] ||
    (AdmissibleRun(l, steps[..|steps| - 1]) && Admissible(Run(l, steps[..|steps| - 1]), steps[|steps| - 1]))
  }

  // ----- Invariants of serial histories -----

  /** Minus `amount` on the held account, plus `amount` on some other leg. */
  predicate AreCaptureLegs(legs: seq<Leg>, held: AccountId, amount: int) {
    |legs| == 2 && legs[0].account == held && legs[0].amount == -amount && legs[1].amount == amount
  }

  predicate IsCaptureOf(e: Event, h: Hold, amount: int) {
    e.tenant == h.tenant && AreCaptureLegs(e.legs, h.account, amount)
  }

  /** A captured hold names the one transaction that moved what was captured. */
  predicate HoldResolved(events: seq<Event>, h: Hold) {
    if h.state == Captured then
      && h.capturedTxn.Some? && h.capturedAmount.Some?
      && 0 < h.capturedAmount.value <= h.amount
      && h.capturedTxn.value < |events|
      && IsCaptureOf(events[h.capturedTxn.value], h, h.capturedAmount.value)
    else
      h.capturedTxn.None? && h.capturedAmount.None?
  }

  predicate HoldsResolved(l: Ledger) {
    && (forall i | 0 <= i < |l.holds| :: HoldResolved(l.events, l.holds[i]))
    && forall i, j | 0 <= i < j < |l.holds| && l.holds[i].state == Captured && l.holds[j].state == Captured ::
         l.holds[i].capturedTxn != l.holds[j].capturedTxn
  }

  predicate CorrectsSoundly(l: Ledger, i: TxnId)
    requires i < |l.txns| == |l.events|
  {
    l.txns[i].corrects.Some? ==>
      (var j := l.txns[i].corrects.value;
       && j < i
       && l.txns[j].corrects.None?
       && l.txns[j].tenant == l.txns[i].tenant
       && Undoes(l.events[i].legs, l.events[j].legs))
  }

  /** `corrects_id` maps reversals one-to-one to transactions that reverse nothing. */
  predicate CorrectionsSound(l: Ledger) {
    && |l.txns| == |l.events|
    && (forall i: nat | i < |l.txns| :: CorrectsSoundly(l, i))
    && forall i, j | 0 <= i < j < |l.txns| && l.txns[i].corrects.Some? :: l.txns[i].corrects != l.txns[j].corrects
  }

  predicate SerialSound(l: Ledger) {
    HoldsResolved(l) && CorrectionsSound(l)
  }

  // ----- What a serial commit may write -----

  predicate EntryIsSerial(l: Ledger, tenant: string, e: Entry)
    requires |l.txns| == |l.events|
  {
    e.corrects.Some? ==>
      (var j := e.corrects.value; ReverseRefusal(l, tenant, j).None? && Undoes(e.legs, l.events[j].legs))
  }

  predicate WritesAreSerial(l: Ledger, w: Writes)
    requires |l.txns| == |l.events|
  {
    && (w.entries != [] ==> EntryIsSerial(l, w.tenant, w.entries[0]))
    && (|w.entries| > 1 ==> forall i | 0 <= i < |w.entries| :: w.entries[i].corrects.None?)
    && match w.holdChange
       case KeepHolds => true
       case PlaceHold(h) => h.state == Active && h.capturedTxn.None? && h.capturedAmount.None?
       case MarkReleased(id) => id < |l.holds| && l.holds[id].state == Active
       case MarkCaptured(id, amount) =>
         && id < |l.holds| && l.holds[id].state == Active && l.holds[id].tenant == w.tenant
         && 0 < amount <= l.holds[id].amount
         && |w.entries| == 1
         && AreCaptureLegs(w.entries[0].legs, l.holds[id].account, amount)
  }

  /** A hold moves from ACTIVE to one terminal state and then never changes; its terms are fixed. */
  predicate HoldEvolves(before: Hold, after: Hold) {
    && (before.state != Active ==> after == before)
    && after.tenant == before.tenant && after.account == before.account && after.amount == before.amount
    && after.memo == before.memo && after.expiresAt == before.expiresAt
    && (after.state == Active ==> after == before)
  }

  predicate SameEvent(before: Event, after: Event) {
    after.(status := before.status, publishedAt := before.publishedAt) == before
  }

  /** Nothing recorded is ever changed: the ledger only grows, and only resolves open holds. */
  predicate Grows(before: Ledger, after: Ledger) {
    && before.txns <= after.txns
    && before.postings <= after.postings
    && before.accounts <= after.accounts
    && |before.events| <= |after.events|
    && (forall i | 0 <= i < |before.events| :: SameEvent(before.events[i], after.events[i]))
    && |before.holds| <= |after.holds|
    && (forall i | 0 <= i < |before.holds| :: HoldEvolves(before.holds[i], after.holds[i]))
    && before.clock <= after.clock
  }

  lemma GrowsFromItself(l: Ledger)
    ensures Grows(l, l)
  {
  }

  lemma GrowsIsTransitive(a: Ledger, b: Ledger, c: Ledger)
    requires Grows(a, b) && Grows(b, c)
    ensures Grows(a, c)
  {
    forall i | 0 <= i < |a.events| ensures SameEvent(a.events[i], c.events[i]) {
      assert SameEvent(a.events[i], b.events[i]) && SameEvent(b.events[i], c.events[i]);
    }
    forall i | 0 <= i < |a.holds| ensures HoldEvolves(a.holds[i], c.holds[i]) {
      assert HoldEvolves(a.holds[i], b.holds[i]) && HoldEvolves(b.holds[i], c.holds[i]);
    }
  }

  // ----- Committing keeps them -----

  lemma {:induction false} PostAllAppends(l: Ledger, tenant: string, at: Instant, entries: seq<Entry>)
    ensures l.postings <= PostAll(l, tenant, at, entries).postings
  {
    if entries == [] {
    } else {
      PostAllAppends(l, tenant, at, entries[..|entries| - 1]);
    }
  }

  lemma CommitAppends(l: Ledger, w: Writes)
    ensures var l' := Commit(l, w); l.txns <= l'.txns && l.postings <= l'.postings && l.events <= l'.events
  {
    MovedFrame(l, w);
    PostAllFrame(l, w.tenant, w.at, w.entries);
    PostAllAppends(l, w.tenant, w.at, w.entries);
  }

  lemma CommitGrows(l: Ledger, w: Writes)
    requires |l.txns| == |l.events| && WritesAreSerial(l, w)
    ensures Grows(l, Commit(l, w))
  {
    MovedFrame(l, w);
    CommitAppends(l, w);
    forall i | 0 <= i < |l.events| ensures SameEvent(l.events[i], Commit(l, w).events[i]) {
      assert Commit(l, w).events[..|l.events|][i] == l.events[i];
    }
  }

  lemma ResolvedPersists(before: seq<Event>, after: seq<Event>, h: Hold)
    requires HoldResolved(before, h)
    requires |before| <= |after| && forall i | 0 <= i < |before| :: SameEvent(before[i], after[i])
    ensures HoldResolved(after, h)
  {
    if h.state == Captured {
      assert SameEvent(before[h.capturedTxn.value], after[h.capturedTxn.value]);
    }
  }

  lemma HoldStaysResolved(l: Ledger, w: Writes, i: nat)
    requires |l.txns| == |l.events| && HoldsResolved(l) && WritesAreSerial(l, w)
    requires i < |Commit(l, w).holds|
    ensures HoldResolved(Commit(l, w).events, Commit(l, w).holds[i])
  {
    MovedFrame(l, w);
    PostAllFrame(l, w.tenant, w.at, w.entries);
    PostedEventsBelong(l, w.tenant, w.at, w.entries);
    if i < |l.holds| && Commit(l, w).holds[i] == l.holds[i] {
      CommitGrows(l, w);
      ResolvedPersists(l.events, Commit(l, w).events, l.holds[i]);
    }
  }

  /** An earlier capture names an earlier transaction; a new one names a new transaction. */
  lemma CapturesStayApart(l: Ledger, w: Writes, i: nat, j: nat)
    requires |l.txns| == |l.events| && HoldsResolved(l) && WritesAreSerial(l, w)
    requires i < j < |Commit(l, w).holds|
    requires Commit(l, w).holds[i].state == Captured && Commit(l, w).holds[j].state == Captured
    ensures Commit(l, w).holds[i].capturedTxn != Commit(l, w).holds[j].capturedTxn
  {
    MovedFrame(l, w);
    assert i < |l.holds| && HoldResolved(l.events, l.holds[i]);
    assert j < |l.holds| ==> HoldResolved(l.events, l.holds[j]);
  }

  lemma CommitResolvesHolds(l: Ledger, w: Writes)
    requires |l.txns| == |l.events| && HoldsResolved(l) && WritesAreSerial(l, w)
    ensures HoldsResolved(Commit(l, w))
  {
    var l' := Commit(l, w);
    forall i | 0 <= i < |l'.holds| ensures HoldResolved(l'.events, l'.holds[i]) {
      HoldStaysResolved(l, w, i);
    }
    forall i, j | 0 <= i < j < |l'.holds| && l'.holds[i].state == Captured && l'.holds[j].state == Captured
      ensures l'.holds[i].capturedTxn != l'.holds[j].capturedTxn
    {
      CapturesStayApart(l, w, i, j);
    }
  }

  lemma {:induction false} PostedEventsBelong(l: Ledger, tenant: string, at: Instant, entries: seq<Entry>)
    ensures var l' := PostAll(l, tenant, at, entries);
      |l'.events| == |l.events| + |entries|
      && forall i | |l.events| <= i < |l'.events| :: l'.events[i].tenant == tenant
  {
    if entries == [] {
    } else {
      PostedEventsBelong(l, tenant, at, entries[..|entries| - 1]);
    }
  }

  lemma CommitKeepsCorrections(l: Ledger, w: Writes)
    requires |l.txns| == |l.events| && CorrectionsSound(l) && WritesAreSerial(l, w)
    ensures CorrectionsSound(Commit(l, w))
  {
    var l' := Commit(l, w);
    MovedFrame(l, w);
    PostAllFrame(l, w.tenant, w.at, w.entries);
    forall i: nat | i < |l'.txns| ensures CorrectsSoundly(l', i) {
      if i < |l.txns| {
        assert CorrectsSoundly(l, i);
        assert l'.txns[i] == l'.txns[..|l.txns|][i] && l'.events[i] == l'.events[..|l.events|][i];
        if l.txns[i].corrects.Some? {
          var j := l.txns[i].corrects.value;
          assert l'.txns[j] == l'.txns[..|l.txns|][j] && l'.events[j] == l'.events[..|l.events|][j];
        }
      } else {
        NewCorrectionIsSound(l, w, i - |l.txns|);
      }
    }
    forall i, j | 0 <= i < j < |l'.txns| && l'.txns[i].corrects.Some? ensures l'.txns[i].corrects != l'.txns[j].corrects {
      NoSecondCorrection(l, w, i, j);
    }
  }

  lemma NewCorrectionIsSound(l: Ledger, w: Writes, k: nat)
    requires |l.txns| == |l.events| && WritesAreSerial(l, w) && k < |w.entries|
    requires |Commit(l, w).txns| == |Commit(l, w).events| == |l.txns| + |w.entries|
    ensures CorrectsSoundly(Commit(l, w), |l.txns| + k)
  {
    var l' := Commit(l, w);
    MovedFrame(l, w);
    PostAllFrame(l, w.tenant, w.at, w.entries);
    var e := w.entries[k];
    if e.corrects.Some? {
      assert k == 0 && EntryIsSerial(l, w.tenant, e);
      var j := e.corrects.value;
      assert l'.txns[j] == l'.txns[..|l.txns|][j] && l'.events[j] == l'.events[..|l.events|][j];
    }
  }

  lemma CorrectsAt(l: Ledger, w: Writes, i: nat)
    requires i < |Commit(l, w).txns|
    ensures |Commit(l, w).txns| == |l.txns| + |w.entries|
    ensures Commit(l, w).txns[i].corrects == if i < |l.txns| then l.txns[i].corrects else w.entries[i - |l.txns|].corrects
  {
    MovedFrame(l, w);
    PostAllFrame(l, w.tenant, w.at, w.entries);
    if i < |l.txns| {
      assert Commit(l, w).txns[i] == Commit(l, w).txns[..|l.txns|][i];
    } else {
      assert Commit(l, w).txns[|l.txns| + (i - |l.txns|)] == Commit(l, w).txns[i];
    }
  }

  lemma FirstCorrectionIsNew(l: Ledger, w: Writes, i: nat, k: nat)
    requires |l.txns| == |l.events| && CorrectionsSound(l) && WritesAreSerial(l, w)
    requires i < |l.txns| && k < |w.entries| && l.txns[i].corrects.Some?
    ensures w.entries[k].corrects != l.txns[i].corrects
  {
    if w.entries[k].corrects == l.txns[i].corrects {
      assert k == 0 && EntryIsSerial(l, w.tenant, w.entries[0]) && CorrectsSoundly(l, i);
      assert HasReversal(l.txns, w.tenant, w.entries[0].corrects.value);
      assert false;
    }
  }

  lemma NoSecondCorrection(l: Ledger, w: Writes, i: nat, j: nat)
    requires |l.txns| == |l.events| && CorrectionsSound(l) && WritesAreSerial(l, w)
    requires i < j < |Commit(l, w).txns| && Commit(l, w).txns[i].corrects.Some?
    ensures Commit(l, w).txns[i].corrects != Commit(l, w).txns[j].corrects
  {
    CorrectsAt(l, w, i);
    CorrectsAt(l, w, j);
    if i < |l.txns| <= j {
      FirstCorrectionIsNew(l, w, i, j - |l.txns|);
    }
  }

  // ----- Every step is a commit or leaves holds and transactions alone -----

  /** What the step commits, if it commits anything. */
  function StagedBy(l: Ledger, step: Step): Option<Writes> {
    match step
    case PostRaw(tenant, entry) => Some(Writes(tenant, l.clock, [entry], KeepHolds, None, 0, NewHoldReply))
    case DoTransfer(tenant, req, key, fp) =>
      var k := Key(tenant, TRANSFERS, key);
      (match StageTransfer(l, tenant, req, k, fp)
       case Ok(w) => if Lookup(l.records, k, fp).Miss? then Some(w) else None
       case Err(_) => None)
    case DoPlace(tenant, req, key, fp) =>
      var k := Key(tenant, PLACE, key);
      (match StagePlace(l, tenant, req, k, fp)
       case Ok(w) => if Lookup(l.records, k, fp).Miss? then Some(w) else None
       case Err(_) => None)
    case DoCapture(tenant, id, req) =>
      if id >= |l.holds| || l.holds[id].tenant != tenant then None
      else
        (match StageCapture(l, tenant, id, req)
         case Ok(w) => Some(w)
         case Err(_) => None)
    case DoRelease(tenant, id) =>
      if id >= |l.holds| || l.holds[id].tenant != tenant || l.holds[id].state != Active then None
      else Some(Writes(tenant, l.clock, [], MarkReleased(id), None, 0, HoldReply(id)))
    case DoReverse(tenant, req, key, fp) =>
      var k := Key(tenant, REVERSALS, key);
      (match StageReverse(l, tenant, req, k, fp)
       case Ok(w) => if Lookup(l.records, k, fp).Miss? then Some(w) else None
       case Err(_) => None)
    case _ => None
  }

  lemma StepCommitsItsStage(l: Ledger, step: Step)
    ensures match StagedBy(l, step)
      case Some(w) => Apply(l, step) == Commit(l, w)
      case None => step.Open? || step.DoDispatch? || step.DoSweep? || step.Quote? || step.Tick? || Apply(l, step) == l
  {
    if step.PostRaw? {
      var w := StagedBy(l, step).value;
      assert w.entries[..0] == [];
      assert PostAll(l, w.tenant, w.at, w.entries) == Post(l, w.tenant, w.at, step.entry);
    }
  }

  lemma StageIsWellFormed(l: Ledger, step: Step)
    requires Valid(l) && Admissible(l, step) && StagedBy(l, step).Some?
    ensures WritesWellFormed(l.accounts, StagedBy(l, step).value)
  {
    match step
    case DoTransfer(tenant, req, key, fp) =>
      StagedTransferIsWellFormed(l, tenant, req, Key(tenant, TRANSFERS, key), fp, l.clock);
    case DoCapture(tenant, id, req) => StagedCaptureIsWellFormed(l, tenant, id, req);
    case DoReverse(tenant, req, key, fp) =>
      StagedReversalIsWellFormed(l, tenant, req, Key(tenant, REVERSALS, key), fp, l.clock);
    case _ =>
  }

  lemma StagedTransferIsSerial(l: Ledger, tenant: string, req: TransferRequest, key: Key, fp: int)
    requires |l.txns| == |l.events| && StageTransfer(l, tenant, req, key, fp).Ok?
    ensures WritesAreSerial(l, StageTransfer(l, tenant, req, key, fp).value)
  {
    TransferCorrectsNothing(l, tenant, req, l.clock);
  }

  lemma StagedReversalIsSerial(l: Ledger, tenant: string, req: ReverseRequest, key: Key, fp: int)
    requires Consistent(l) && StageReverse(l, tenant, req, key, fp).Ok?
    ensures |l.txns| == |l.events| && WritesAreSerial(l, StageReverse(l, tenant, req, key, fp).value)
  {
    ReversalIsWellPosted(l, tenant, req, l.clock);
  }

  lemma StageIsSerial(l: Ledger, step: Step)
    requires Valid(l) && Admissible(l, step) && StagedBy(l, step).Some?
    ensures WritesAreSerial(l, StagedBy(l, step).value)
  {
    match step
    case DoTransfer(tenant, req, key, fp) => StagedTransferIsSerial(l, tenant, req, Key(tenant, TRANSFERS, key), fp);
    case DoCapture(tenant, id, req) => StagedCaptureIsSerial(l, tenant, id, req);
    case DoReverse(tenant, req, key, fp) => StagedReversalIsSerial(l, tenant, req, Key(tenant, REVERSALS, key), fp);
    case _ =>
  }

  lemma TransferCorrectsNothing(l: Ledger, tenant: string, req: TransferRequest, at: Instant)
    requires Usable(l.accounts, tenant, req.source) && Usable(l.accounts, tenant, req.destination)
    ensures var entries := TransferEntries(l, tenant, req, at);
      entries.Ok? ==> forall i | 0 <= i < |entries.value| :: entries.value[i].corrects.None?
  {
  }

  lemma StagedCaptureIsSerial(l: Ledger, tenant: string, id: HoldId, req: CaptureRequest)
    requires Valid(l) && id < |l.holds| && l.holds[id].tenant == tenant && StageCapture(l, tenant, id, req).Ok?
    ensures WritesAreSerial(l, StageCapture(l, tenant, id, req).value)
  {
    assert HoldWellFormed(l.accounts, l.holds[id]);
  }

  // ----- Housekeeping keeps them too -----

  predicate SameEvents(before: seq<Event>, after: seq<Event>) {
    |before| == |after| && forall i | 0 <= i < |before| :: SameEvent(before[i], after[i])
  }

  lemma {:induction false} JournalIgnoresStatus(before: seq<Event>, after: seq<Event>)
    requires SameEvents(before, after)
    ensures Journal(after) == Journal(before)
  {
    if before == [] {
    } else {
      var n := |before| - 1;
      JournalIgnoresStatus(before[..n], after[..n]);
      assert SameEvent(before[n], after[n]);
      assert PostingsFor(|Journal(before[..n])|, after[n]) == PostingsFor(|Journal(before[..n])|, before[n]);
    }
  }

  lemma RedispatchKeepsValid(l: Ledger, l': Ledger)
    requires Valid(l) && l' == l.(events := l'.events) && SameEvents(l.events, l'.events)
    ensures Valid(l')
  {
    JournalIgnoresStatus(l.events, l'.events);
    forall t: nat | t < |l'.txns| ensures EventDescribes(l', t) {
      assert EventDescribes(l, t) && SameEvent(l.events[t], l'.events[t]);
    }
  }

  lemma RedispatchKeepsSound(l: Ledger, l': Ledger)
    requires SerialSound(l) && l' == l.(events := l'.events) && SameEvents(l.events, l'.events)
    ensures SerialSound(l')
  {
    var events := l'.events;
    forall i | 0 <= i < |l'.holds| ensures HoldResolved(events, l'.holds[i]) {
      ResolvedPersists(l.events, events, l.holds[i]);
    }
    forall i: nat | i < |l'.txns| ensures CorrectsSoundly(l', i) {
      assert CorrectsSoundly(l, i) && SameEvent(l.events[i], events[i]);
      if l.txns[i].corrects.Some? { assert SameEvent(l.events[l.txns[i].corrects.value], events[l.txns[i].corrects.value]); }
    }
  }

  lemma {:induction false} NothingPostedToNewAccount(events: seq<Event>, accounts: seq<Account>, a: AccountId)
    requires forall i | 0 <= i < |events| :: SameTenant(accounts, events[i].tenant, events[i].legs)
    requires a >= |accounts|
    ensures forall p <- Journal(events) :: p.leg.account != a
  {
    if events == [] {
    } else {
      var n := |events| - 1;
      NothingPostedToNewAccount(events[..n], accounts, a);
      forall p | p in PostingsFor(|Journal(events[..n])|, events[n]) ensures p.leg.account != a {
        assert p.leg in events[n].legs;
      }
    }
  }

  lemma {:induction false} NoPostingsNoFigures(ps: seq<Posting>, a: AccountId)
    requires forall p <- ps :: p.leg.account != a
    ensures Recompute(ps, a) == 0 && PostingCount(ps, a) == 0 && LastPosting(ps, a).None?
  {
    if ps == [] {
    } else {
      NoPostingsNoFigures(ps[..|ps| - 1], a);
    }
  }

  lemma WellPostedWiderChart(accounts: seq<Account>, more: seq<Account>, tenant: string, legs: seq<Leg>)
    requires WellPosted(accounts, tenant, legs) && accounts <= more
    ensures WellPosted(more, tenant, legs)
  {
  }

  lemma OpenKeepsConsistent(l: Ledger, tenant: string, path: string, currency: Currency)
    requires Consistent(l)
    ensures Consistent(OpenAccount(l, tenant, path, currency))
  {
    var l' := OpenAccount(l, tenant, path, currency);
    forall t: nat | t < |l'.txns| ensures EventDescribes(l', t) {
      assert EventDescribes(l, t);
      WellPostedWiderChart(l.accounts, l'.accounts, l.events[t].tenant, l.events[t].legs);
    }
    forall i | 0 <= i < |l.events| ensures SameTenant(l.accounts, l.events[i].tenant, l.events[i].legs) {
      assert EventDescribes(l, i);
    }
    NothingPostedToNewAccount(l.events, l.accounts, |l.accounts|);
    NoPostingsNoFigures(l.postings, |l.accounts|);
    forall a | a in l'.snapshots ensures Agrees(l'.snapshots[a], l'.seeded[a], l'.postings, a) {
      if a < |l.accounts| { assert a in l.snapshots; }
    }
  }

  /** An account is opened open, with nothing on it and nothing posted; no other is touched. */
  lemma OpenedAccountIsEmpty(l: Ledger, tenant: string, path: string, currency: Currency)
    requires Valid(l)
    ensures var l', a := OpenAccount(l, tenant, path, currency), |l.accounts|;
      && l'.accounts == l.accounts + [Account(tenant, path, currency, true)]
      && a !in l.snapshots && a in l'.snapshots && l'.snapshots[a] == Snapshot(tenant, 0, 0, None)
      && (forall b <- l.snapshots :: b in l'.snapshots && l'.snapshots[b] == l.snapshots[b])
      && l'.(accounts := l.accounts, snapshots := l.snapshots, seeded := l.seeded) == l
      && Recompute(l'.postings, a) == 0
  {
    forall i | 0 <= i < |l.events| ensures SameTenant(l.accounts, l.events[i].tenant, l.events[i].legs) {
      assert EventDescribes(l, i);
    }
    NothingPostedToNewAccount(l.events, l.accounts, |l.accounts|);
    NoPostingsNoFigures(l.postings, |l.accounts|);
  }

  /** `open_account` keeps conversion paths honest exactly when the new account is. */
  lemma OpenKeepsPathsHonestIff(l: Ledger, tenant: string, path: string, currency: Currency)
    requires HonestPaths(l.accounts)
    ensures HonestPaths(OpenAccount(l, tenant, path, currency).accounts)
        <==> forall c: Currency :: path == ConversionPath(c) ==> currency == c
  {
    var accounts := OpenAccount(l, tenant, path, currency).accounts;
    assert accounts[|l.accounts|] in accounts;
    forall a | a in accounts ensures a in l.accounts || a == Account(tenant, path, currency, true) {}
  }

  lemma OpenKeepsValid(l: Ledger, tenant: string, path: string, currency: Currency)
    requires Valid(l)
    ensures Valid(OpenAccount(l, tenant, path, currency))
  {
    var l' := OpenAccount(l, tenant, path, currency);
    OpenKeepsConsistent(l, tenant, path, currency);
    forall i | 0 <= i < |l'.holds| ensures HoldWellFormed(l'.accounts, l'.holds[i]) {
      assert HoldWellFormed(l.accounts, l.holds[i]);
    }
  }

  /** What reads transactions, events and holds only is kept when those are. */
  lemma SameRowsStaySound(l: Ledger, l': Ledger)
    requires SerialSound(l) && l'.txns == l.txns && l'.events == l.events && l'.holds == l.holds
    ensures SerialSound(l')
  {
    forall i: nat | i < |l'.txns| ensures CorrectsSoundly(l', i) { assert CorrectsSoundly(l, i); }
  }

  lemma OpenKeeps(l: Ledger, tenant: string, path: string, currency: Currency)
    requires Valid(l) && SerialSound(l)
    ensures Valid(OpenAccount(l, tenant, path, currency)) && SerialSound(OpenAccount(l, tenant, path, currency))
    ensures Grows(l, OpenAccount(l, tenant, path, currency))
  {
    OpenKeepsValid(l, tenant, path, currency);
    SameRowsStaySound(l, OpenAccount(l, tenant, path, currency));
  }

  /** Changing only records, rates or the clock disturbs no invariant. */
  lemma BookkeepingKeepsValid(l: Ledger, l': Ledger)
    requires Valid(l) && l' == l.(records := l'.records, rates := l'.rates, clock := l'.clock)
    ensures Valid(l')
  {
    forall t: nat | t < |l'.txns| ensures EventDescribes(l', t) { assert EventDescribes(l, t); }
  }

  // ----- The run theorem -----

  lemma CommitKeepsEverything(l: Ledger, w: Writes)
    requires Valid(l) && SerialSound(l) && WritesWellFormed(l.accounts, w) && WritesAreSerial(l, w)
    ensures Valid(Commit(l, w)) && SerialSound(Commit(l, w)) && Grows(l, Commit(l, w))
  {
    CommitKeepsValid(l, w);
    CommitGrows(l, w);
    CommitResolvesHolds(l, w);
    CommitKeepsCorrections(l, w);
  }

  lemma DispatchKeepsEverything(l: Ledger, tenant: string, limit: nat)
    requires Valid(l) && SerialSound(l)
    ensures var l' := l.(events := Outbox.Dispatch(l.events, tenant, limit, l.clock));
      Valid(l') && SerialSound(l') && Grows(l, l')
  {
    var l' := l.(events := Outbox.Dispatch(l.events, tenant, limit, l.clock));
    Outbox.MarkingKeepsIds(l.events, Outbox.IdsOf(Ordering.Take(Outbox.Queue(l.events, tenant), limit)), l.clock);
    RedispatchKeepsValid(l, l');
    RedispatchKeepsSound(l, l');
  }

  predicate IsBookkeeping(step: Step) {
    step.DoSweep? || step.Quote? || step.Tick?
  }

  lemma ServiceStepKeepsEverything(l: Ledger, step: Step)
    requires Valid(l) && SerialSound(l) && Admissible(l, step)
    requires !step.Open? && !step.DoDispatch? && !IsBookkeeping(step)
    ensures Valid(Apply(l, step)) && SerialSound(Apply(l, step)) && Grows(l, Apply(l, step))
  {
    StepCommitsItsStage(l, step);
    match StagedBy(l, step)
    case Some(w) =>
      StageIsWellFormed(l, step);
      StageIsSerial(l, step);
      CommitKeepsEverything(l, w);
    case None => GrowsFromItself(l);
  }

  lemma StepKeepsEverything(l: Ledger, step: Step)
    requires Valid(l) && SerialSound(l) && Admissible(l, step)
    ensures Valid(Apply(l, step)) && SerialSound(Apply(l, step)) && Grows(l, Apply(l, step))
  {
    if step.Open? {
      OpenKeeps(l, step.tenant, step.path, step.currency);
    } else if step.DoDispatch? {
      DispatchKeepsEverything(l, step.tenant, step.limit);
    } else if IsBookkeeping(step) {
      BookkeepingKeepsValid(l, Apply(l, step));
      SameRowsStaySound(l, Apply(l, step));
    } else {
      ServiceStepKeepsEverything(l, step);
    }
  }

  /** Over any serial run: every view of the money agrees, every transaction balances, holds resolve
      once, reversals pair one-to-one, and nothing written is rewritten. */
  lemma {:induction false} RunKeepsEverything(l: Ledger, steps: seq<Step>)
    requires Valid(l) && SerialSound(l) && AdmissibleRun(l, steps)
    ensures Valid(Run(l, steps)) && SerialSound(Run(l, steps)) && Grows(l, Run(l, steps))
  {
    if steps == [] {
      GrowsFromItself(l);
    } else {
      var front := steps[..|steps| - 1];
      RunKeepsEverything(l, front);
      StepKeepsEverything(Run(l, front), steps[|steps| - 1]);
      GrowsIsTransitive(l, Run(l, front), Run(l, steps));
    }
  }
}
