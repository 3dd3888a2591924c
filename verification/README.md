# Ledger verification

A Dafny model of the double-entry ledger under `backend/`: the posting engine, the services that
drive it (transfers, holds, reversals, currency conversion, accounts), idempotency keys and their
sweeper, the transactional outbox and a consumer of it, statements, the admin journal, rate
resolution, money arithmetic and month partitions. `dafny verify dfyconfig.toml` checks all of it.

## How it is built

**Tables.** `Tables.Ledger` holds all committed rows and the clock. `seeded` is the row each account
began with: zero for accounts that `open_account` made, arbitrary otherwise, so a ledger may start
with money in it. Ids are positions.

**Services, twice.** `Sessions.Session` is the imperative form: fields for the committed tables and
for what the session has staged, methods that follow the source statement by statement, loops over
legs and over a dispatched batch, then commit or rollback. Each method is proved equal to a function
in `Services` or `Outbox`, and everything else is proved about those functions. `ServiceEffects`
says, without reference to their bodies, what each answers in every case, when it succeeds, and which
rows and balances it then leaves.

**Runs.** `SerialRuns` and `SerialLaws` are about any sequence of service calls from any valid
state. `Interleaving` is the concurrent form: each request in flight has a phase, each statement
reads the latest committed tables, advisory locks are keyed by an arbitrary function of the account,
a request may die at any point, sweeps take two steps, a commit is atomic and fails on a used
idempotency key; a dispatcher reads and hands over a batch in one step and marks it in another, and
may die in between. `ServedAlone` shows that a request whose statements run with nothing in between is
the service function, so the two forms agree. `InterleavedSafety`, `InterleavedFunds`,
`InterleavedLaws`, `ResolvedOnce`, `ExactlyOnce`, `Retries`, `Delivery`, `Publication`,
`IssuedStatements` and `ConversionDrift` are about every state such runs reach; `Races`, `Overdrafts` and `FundsAtCommit` about what they cannot
rule out.

**Pure parts.** `Money`, `Conversion`, `Decimals`, `Rates`, `Statements`, `AdminJournal`,
`Partitioning`, and `Ordering` for WHERE, ORDER BY and LIMIT.

## What the code does not promise by itself

Where a property fails, the code is kept as it is, a run or an input shows the failure, and the exact
condition is proved.

- `capture_hold` reads the hold before it takes the lock and does not read it again, and `release_hold`
  takes no lock (backend/services/holds_service.py:117-139, 177-183), so a hold can resolve twice. Two
  captures that both saw it active both post, and a release admitted before a capture lands on top of
  it: `Races.RacingCapturesSpendTwice`, `Races.ReleaseLandsOnCapture`. What was resolved stays as it was
  exactly when the hold is still active at the capture's commit, and not captured at the release's:
  `Races.CaptureCommitGrowsIff`, `Races.ReleaseCommitKeepsResolvedIff`. Whether funds stay safe is a
  different condition: `Races.CaptureCommitIsSafeIff`. `ResolvedOnce.OpenRunsResolveOnce` is the law over
  runs whose commits find their holds open and their transactions unreversed.
- `reverse_transaction` looks for an earlier reversal without a lock or a unique key
  (backend/services/reversals_service.py:69-75), so two can land: `Races.RacingReversalsBothLand`,
  with `Races.ReversalCommitKeepsPairingIff`. Serially there is at most one, as its documentation says.
- Reversals check no funds: `Overdrafts.ReversingASpentPaymentOverdraws` ends below zero, and
  `Overdrafts.ReversalCommitIsSafeIff` is the condition. Nor does a conversion look at the account that
  pays it out: `Overdrafts.ConversionLeavesPayerCoveredIff`.
- Reversals take no lock either, so one that is safe itself can take funds that a placement or transfer
  has been cleared for: `FundsAtCommit.ReversalTakesClearedFunds`. The commits that then overdraw are
  exactly those of `FundsAtCommit.PlaceCommitIsSafeIff` and `FundsAtCommit.TransferCommitIsSafeIff`.
  `InterleavedFunds.NoInterleavingOverdraws` is about accounts that are not at a conversion path, and
  admits captures and reversals where they are covered at their commit: a reversal is if the account can
  spare it and whoever has counted on that account's funds is covered without it.
- The available figure a capture returns still counts the captured hold: application sessions do
  not autoflush (backend/data/database/engine.py:46-48). `Funds.CaptureReportsStaleAvailable`.
  Claims about holds are about committed rows.
- The snapshot UPDATE silently skips rows of other tenants: `PostingEngine.ForeignLegIsNotFolded`, and
  `PostingEngine.PostKeepsAgreementIff` says when. The services never post across tenants.
- The engine checks one sum, not one per currency: `Conservation.EngineConservesIff`. Conversion accounts
  are found by path, and `open_account` takes any currency at any path, so a conversion can mix
  currencies: `SerialLaws.TransferKeepsCurrenciesApartIff` and `ConversionTotals.ConversionKeepsTotalsIff`
  say exactly when, and `ConversionTotals.MislabelledConversionShiftsTotals` shows one. The laws about a
  currency's total are about conversions that do not; every other law holds with them.
- Separation of two executions of a key is measured from when the first record was written, not
  from when it was committed: `ExactlyOnce.ExecutionsAreApart`, attained by `ExactlyOnce.SeparationIsAttained`.
- Dispatch is documented to follow the order transactions were posted in (DECISIONS.md:228-232). An event
  is dated when its row is staged (backend/data/tables/outbox.py:43) and lands when its request commits,
  so a slow request's event lands behind younger ones that are already published:
  `Publication.LateEventBreaksTheOrder`. A commit keeps what is published a prefix exactly when nothing
  published of its tenant is younger: `Publication.CommitKeepsPublishedPrefixIff`, and over runs
  `Publication.OrderlyRunsPublishAPrefix`. Random ids of one instant are the other cause:
  `Outbox.EnqueueKeepsPrefixIff`.
- Two dispatchers that read before either marks both hand the same events over, and so do one that dies
  and its successor: `Delivery.TwoDispatchersDeliverTwice`, `Delivery.CrashedDispatcherRedelivers`. That
  is the documented at-least-once; `Delivery.DrainedOutboxRebuildsSnapshots` is why it is enough.
- The journal cursor skips the rest of a group of equal effective times at a page end:
  `AdminJournal.SelfTransferLosesARow`, exactly as `AdminJournal.FollowingIsCompleteIff` says. A backdated
  posting changes an issued statement: `Statements.BackdatedPostingChangesTheStatement`,
  `Statements.IssuedStatementStandsIff`. So does a request that staged before the statement's end and
  commits after it: `IssuedStatements.SlowReversalRewritesAStatement`, with the condition for each commit
  in `IssuedStatements.CommitKeepsStatementIff` and the law in `IssuedStatements.IssuedStatementsStand`.
- Decimal operations round to 28 digits, so a computed reciprocal is rarely exact:
  `Decimals.OneSidedPairInDecimals`. `Decimals.ConvertIsExactWithin28Digits` gives the range in which a
  conversion at a stored rate is exact before its one rounding, and in which it raises.
- The end of December 9999 is a five-digit year whose text sorts first:
  `Partitioning.BoundsCompareAsTextIff`.

## Model

| member | source | states |
|---|---|---|
| `PostingEngine.FoldingKeepsAgreement` | backend/services/postings_engine.py:130-152 | Folding postings one by one into a snapshot row keeps it equal to its opening row plus the exact sum, count and last id of that account's postings, several legs on one account included |
| `PostingEngine.PostKeepsAgreementIff` | backend/services/postings_engine.py:143-152 | A transaction the engine accepts leaves snapshots and postings in step if and only if every leg is on an account of the acting tenant: the UPDATE's tenant filter skips other rows silently |
| `PostingEngine.ForeignLegIsNotFolded` | backend/services/postings_engine.py:143-152 | One such leg: accepted and written, while the row of its account does not move and is from then on out of step |
| `PostingEngine.PostKeepsConsistent` | backend/services/postings_engine.py:52-91 | Posting one balanced, single-tenant transaction keeps the whole invariant: one row per account, snapshots agree, one event per transaction that describes it, postings table rebuilt from the events |
| `PostingEngine.PostAllFrame` | backend/services/postings_engine.py:75-91 | Posting appends transactions, postings and events and touches no other table |
| `PostingEngine.PostAdds` | backend/services/postings_engine.py:75-127 | The rows of one posting: a transaction, one posting per leg in order, and a pending event that repeats them, all dated alike |
| `PostingEngine.ValidateSays` | backend/services/postings_engine.py:69-73 | What is refused, in order: fewer than two legs, a sum that is not zero, an account that does not exist; everything else is accepted |
| `Sessions.Session.PostTransaction` | backend/services/postings_engine.py:52-91 | The imperative engine (validate, insert each leg, fold it into one row, enqueue the event) stages exactly the specified transaction, or nothing; a leg on an unknown account aborts the database transaction |
| `Sessions.Session.WriteLegs` | backend/services/postings_engine.py:79-88 | The loop over legs: row-by-row updates add up to folding every account at once |
| `Sessions.FoldOneMore` | backend/services/postings_engine.py:79-88 | One more UPDATE of one row is one more posting folded into all rows |
| `Conservation.MoneyIsConserved` | backend/services/postings_engine.py:69-73 | In every consistent state whose transactions are of one currency each, the balances of each currency total what they were seeded with |
| `Conservation.EngineConservesIff` | backend/services/postings_engine.py:69-73 | Legs of one tenant that the engine accepts keep every currency's total if and only if they sum to zero in each currency; the engine sums them all together |
| `Conservation.OppositeLegsConserveIff` | backend/services/postings_engine.py:69-73 | Two opposite legs always pass the engine, and balance per currency if and only if they share one or move nothing |
| `Conservation.PostMovesTotalBy` | backend/services/postings_engine.py:71-73 | A posting moves a currency's total by exactly what its legs net to in that currency |
| `Sessions.Session.RouteConversion` | backend/services/fx_service.py:56-106 | Stages the two single-currency transactions of a conversion, or nothing when there is no rate or no unique conversion account |
| `Sessions.Session.ExecuteTransfer` | backend/services/transfers_service.py:58-117 | Replay or conflict, accounts, funds check, legs, key, one commit; every failure leaves the tables untouched |
| `Sessions.Session.PlaceHold` | backend/services/holds_service.py:54-103 | Replay or conflict, account, available check, new hold and key in one commit |
| `Sessions.Session.CaptureHold` | backend/services/holds_service.py:106-170 | Replay of a captured hold, refusals, one transaction and the marked hold in one commit |
| `Sessions.Session.ReleaseHold` | backend/services/holds_service.py:173-191 | Voids an active hold, refuses a captured one, replays a released one |
| `Sessions.Session.ReverseTransaction` | backend/services/reversals_service.py:49-118 | Replay, guards, the negated legs and the key in one commit |
| `Sessions.Session.OpenAccount` | backend/services/accounts_service.py:20-43 | Inserts the account and its zero snapshot together |
| `SerialRuns.OpenedAccountIsEmpty` | backend/services/accounts_service.py:24-34 | A new account is open, at zero, with nothing posted to it; every other row is as it was |
| `Sessions.Session.DispatchPending` | backend/services/outbox_service.py:46-65 | Marks exactly the first `limit` pending events of the tenant as published now and returns them, so marked, in order |
| `Sessions.Session.SweepOnce` | backend/services/idempotency_sweeper.py:35-50 | Keeps exactly the records that are no older than the cutoff; reclaimed and retained add up to what was there |
| `Sessions.Session.ServeAll` | backend/services/transfers_service.py:58-117 | Serving any sequence of requests ends in the state the run function gives, with every invariant of that run |
| `ServiceEffects.TransferSucceedsIff` | backend/services/transfers_service.py:65-80 | A transfer succeeds if and only if its key is unused, both accounts are open and the tenant's, committed available covers it and, across currencies, it can be converted. A used key replays the stored response for the same fingerprint and conflicts for any other; every other failure names its reason in the order the service looks; nothing but success changes anything |
| `ServiceEffects.TransferEffect` | backend/services/transfers_service.py:82-116 | What a successful transfer moves on every account (across currencies: the amount into one conversion account, its once-rounded value out of the other), its answer and its record |
| `ServiceEffects.TransferRows` | backend/services/transfers_service.py:82-101 | Within one currency a transfer adds one transaction with its memo and two legs, source first, effective when asked and otherwise now |
| `ServiceEffects.ConversionGoesAtTheQuote` | backend/services/fx_service.py:72-98 | Where the asked direction is quoted, a conversion goes at the quote in force that is newest: the amount from the source to the one account at its currency's path, the amount times the quote, rounded half to even, from the one at the destination's; two transactions that both record the quote |
| `ServiceEffects.ConversionGoesAtTheReciprocal` | backend/services/fx_rates.py:67-74 | Where only the other direction is quoted, it goes at that quote's reciprocal (in exact arithmetic) and says so |
| `ServiceEffects.ConversionAccountSays` | backend/services/fx_service.py:109-125 | A currency's conversion account is found exactly when one and only one open account of the tenant is at its path; none and several fail, each with its own error |
| `ServiceEffects.PlaceSucceedsIff` | backend/services/holds_service.py:61-75 | A placement succeeds if and only if its key is unused, its account open and the tenant's, and committed available covers it. A used key replays or conflicts, and other failures name their reason; none changes anything |
| `ServiceEffects.PlaceEffect` | backend/services/holds_service.py:77-103 | A placement moves no money, adds one active hold that expires when asked or in seven days, takes its amount out of what that one account can spend until then, answers with what is left, and records that answer |
| `ServiceEffects.CaptureSucceedsIff` | backend/services/holds_service.py:117-146 | A capture posts if and only if the hold is the tenant's and active, both accounts are open and of one currency, what is asked (the amount named, or all that is held) is within the hold and posted covers it. A captured hold replays with the account's present figures; any other failure names its reason; none changes anything |
| `ServiceEffects.CaptureMovesMoney` | backend/services/holds_service.py:148-158 | A capture moves exactly what is asked from the held account to the destination, in one transaction of two legs dated now |
| `ServiceEffects.CaptureEndsReservation` | backend/services/holds_service.py:160-169 | A capture of any amount gives up its whole reservation and no other, records what was asked and its transaction on the hold, and answers with that hold |
| `ServiceEffects.ReleaseEffect` | backend/services/holds_service.py:173-191 | A release succeeds exactly on an active hold, marks it, gives back exactly what it still reserved, and moves no money |
| `ServiceEffects.ReleaseAnswers` | backend/services/holds_service.py:177-191 | A release answers with the hold as marked, the posted balance and what can be spent afterwards; a released hold replays the same figures; a captured or unknown one is refused |
| `ServiceEffects.ReverseSucceedsIff` | backend/services/reversals_service.py:57-83 | A reversal succeeds if and only if its key is unused and the transaction is the tenant's, no reversal and not yet reversed. A used key replays or conflicts, and other failures name their reason; none changes anything |
| `ServiceEffects.ReverseEffect` | backend/services/reversals_service.py:85-118 | A reversal adds one transaction that names the original, with its legs in order, every amount negated and every leg and row dated now; takes back on every account exactly what the original moved there; answers with it and records that answer |
| `ServiceLaws.TransferIsWellPosted` | backend/services/fx_service.py:75-98 | Whatever a transfer posts is accepted by the engine and drawn on one tenant, mislabelled conversion accounts included |
| `ServiceLaws.TransferIsSingleCurrencyIff` | backend/services/fx_service.py:75-98 | It is of one currency per transaction if and only if it does not convert, or the accounts found at the two conversion paths hold the two currencies |
| `ServiceLaws.HonestPathsConvertHonestly` | backend/services/fx_service.py:109-125 | A chart whose accounts at conversion paths hold the currency their path names admits every conversion |
| `SerialLaws.TransferKeepsCurrenciesApartIff` | backend/services/fx_service.py:78-98 | A transfer that goes through leaves every transaction of one currency if and only if it converts through accounts of the right currencies |
| `ConversionTotals.ConversionKeepsTotalsIff` | backend/services/fx_service.py:72-98 | A conversion moves no currency's total if and only if the collecting account holds the source's currency, and the paying account the destination's (or it pays nothing) |
| `ConversionTotals.MiscollectedConversionShifts` | backend/services/fx_service.py:113-118 | Collected on an account of another currency, exactly the amount leaves one currency's total and enters the other's |
| `ConversionTotals.MislabelledConversionShiftsTotals` | backend/services/accounts_service.py:24-34 | A chart in which this happens: the dollar path opened in pounds, and one transfer of a dollar |
| `ServiceLaws.TransactionHasItsLegs` | backend/services/reversals_service.py:77-83 | The postings of a transaction are, in order, the legs in its event |
| `ServiceLaws.ReversalIsWellPosted` | backend/services/reversals_service.py:85-101 | Negating a committed transaction always yields legs the engine accepts, account by account the opposite of the original |
| `ServiceLaws.CommitKeepsValid` | backend/services/transfers_service.py:82-116 | Committing well-formed writes keeps the ledger valid whatever was committed since they were staged |
| `SerialRuns.RunKeepsEverything` | backend/services/postings_engine.py:52-91 | Over any run of all services: snapshots agree with postings, transactions balance, holds resolve once to their own transaction, reversals pair one-to-one with non-reversals, and nothing recorded is rewritten |
| `SerialRuns.OpenKeepsPathsHonestIff` | backend/services/accounts_service.py:24-34 | Opening an account keeps every conversion path honest if and only if the new account is; `open_account` does not look |
| `SerialRuns.CommitResolvesHolds` | backend/services/holds_service.py:150-163 | Every captured hold names exactly one transaction, no two the same one, whose legs are minus and plus the captured amount |
| `SerialRuns.CommitKeepsCorrections` | backend/services/reversals_service.py:62-101 | `corrects_id` stays an injective map from reversals to transactions that reverse nothing, with exactly opposite legs |
| `SerialLaws.TotalsNeverMove` | backend/services/fx_service.py:72-98 | From a ledger whose transactions are of one currency each, no run of transfers, conversions through accounts of the right currencies, captures, reversals and openings changes any currency's total |
| `SerialLaws.SnapshotsFollowNewPostings` | backend/services/balances_service.py:90-97 | Over a run a snapshot moves by exactly the sum and number of the postings the run added, the last of them as watermark |
| `SerialLaws.CapturedHoldIsFinal` | backend/services/holds_service.py:119-124 | After any run a captured hold is unchanged, capturing it again changes nothing and answers with it and the account's present figures, releasing it is refused |
| `SerialLaws.ReleasedHoldIsFinal` | backend/services/holds_service.py:125-126 | After any run a released hold is unchanged, releasing it again changes nothing and answers with it and the account's present figures, capturing it is refused |
| `SerialLaws.ReversalCancelsItsOriginal` | backend/services/reversals_service.py:62-101 | A reversal and its original cancel on every account whatever was posted in between, and no third transaction claims the same original |
| `SerialLaws.SecondReversalIsRefused` | backend/services/reversals_service.py:64-75 | In every later state a second reversal is refused, and so is reversing the reversal |
| `SerialLaws.RunPublishesInOrder` | backend/services/outbox_service.py:34-63 | Over any run, posting and dispatching in any mix, each tenant's published events are its oldest, with ids in posting order |
| `Funds.ReservationGuarantee` | backend/services/holds_service.py:133-164 | Where funds are safe, an active unexpired hold can be captured up to its amount, and the account can then spend more by exactly held minus captured (by all of it, when it captures to itself) |
| `Funds.CaptureMovesAvailable` | backend/services/balances_service.py:55-87 | What any capture does to committed available, a destination equal to the source included |
| `Funds.CaptureReportsStaleAvailable` | backend/services/holds_service.py:160-170 | The available figure a capture returns is short by exactly its own hold, unless that had expired, because the row is marked after the last flush |
| `Funds.HeldOnlyLapses` | backend/services/balances_service.py:60-71 | As the clock moves on reservations only lapse, so available only rises |
| `Funds.HeldGrowsByWhatIsReserved` | backend/services/balances_service.py:64-72 | A hold counts towards the held total exactly if it is the tenant's, on the account, active and not yet expired |
| `Funds.BalancesStayInTheirTenant` | backend/services/balances_service.py:45-87 | A tenant is told posted, held and available of its own accounts, and nothing of others |
| `Funds.CommitMovesAvailable` | backend/services/balances_service.py:75-87 | A commit moves available by its net legs plus what its hold change frees |
| `ServedAlone.TransferServedAlone` | backend/services/transfers_service.py:65-117 | The statements of a transfer run with nothing in between are the service function: same tables, same answer, same log |
| `ServedAlone.PlacementServedAlone` | backend/services/holds_service.py:61-103 | The same for a placement |
| `ServedAlone.CaptureServedAlone` | backend/services/holds_service.py:117-170 | The same for a capture of the hold as it stands |
| `ServedAlone.ReleaseServedAlone` | backend/services/holds_service.py:173-191 | The same for a release |
| `ServedAlone.ReversalServedAlone` | backend/services/reversals_service.py:57-118 | The same for a reversal, whose legs always pass the engine |
| `ServedAlone.DispatchServedAlone` | backend/services/outbox_service.py:46-65 | A batch read and marked with nothing in between is one call of the dispatch function |
| `ServedAlone.UpkeepServedAlone` | backend/services/accounts_service.py:20-43 | Openings, quotes and passing time are the same steps in both kinds of run |
| `ServedAlone.SweepServedAlone` | backend/services/idempotency_sweeper.py:35-50 | A sweep with nothing between its cutoff and its deletion is one sweep of a serial run |
| `ServedAlone.QuoteGoverns` | backend/services/fx_rates.py:83-92 | A quote newer than all of its pair is what the pair resolves to once it is in force |
| `InterleavedSafety.EveryInterleavingKeepsTheLedgerValid` | backend/services/transfers_service.py:73-116 | Under every interleaving of requests, crashes, sweeps, dispatchers, openings, quotes and ticks, whatever accounts share a lock, the committed ledger stays valid |
| `InterleavedSafety.NoInterleavingLeaksALock` | backend/services/transfers_locking.py:34-43 | However requests end, in every interleaving each lock taken belongs to a request in flight that needs it; with none in flight none is taken |
| `InterleavedFunds.NoInterleavingOverdraws` | backend/services/transfers_locking.py:25-43 | No interleaving takes committed available of an ordinary account below zero, when captures and reversals, which do not check it, commit where they are covered: for a reversal, the account can spare it and so can requests in flight that have read its funds |
| `InterleavedFunds.CommitLeavesItsSourceFunded` | backend/services/holds_service.py:68-102 | Committing under the lock leaves the checked account with nothing below zero, credits that arrived without the lock and covered captures of lapsed holds included |
| `InterleavedFunds.LiveHoldsCoverTheirCapture` | backend/services/holds_service.py:133-146 | Where funds are safe, every capture of a hold that still reserves its funds is covered |
| `InterleavedLaws.LiveHoldsAreAlwaysCapturable` | backend/services/holds_service.py:139-146 | In every state such an interleaving reaches, capturing an unexpired active hold of an ordinary account for at most its amount succeeds, and available then grows by held minus captured |
| `InterleavedLaws.CapturesInFlightAreCleared` | backend/services/holds_service.py:142-146 | And a capture in flight on such a hold passes its check of the posted balance whatever else is in flight |
| `InterleavedLaws.NoInterleavingMovesTotals` | backend/services/postings_engine.py:69-73 | No interleaving, with its races, crashes and reversals, moves any currency's total, when what is committed and staged at the start is of one currency per transaction and conversions staged later find accounts of the right currencies |
| `Overdrafts.ReversalCommitIsSafeIff` | backend/services/reversals_service.py:85-101 | Committing a reversal leaves funds safe if and only if every ordinary account still has to spend what the original brought it |
| `Overdrafts.ReversingASpentPaymentOverdraws` | backend/services/reversals_service.py:49-118 | A run that ends below zero: an account receives an amount, spends all it has, and the payment is reversed; it is left owing exactly that amount |
| `FundsAtCommit.PlaceCommitIsSafeIff` | backend/services/holds_service.py:68-102 | Committing a placement keeps funds safe if and only if what it reserves is still available then, or its account is exempt |
| `FundsAtCommit.TransferCommitIsSafeIff` | backend/services/transfers_service.py:73-116 | Committing a transfer keeps funds safe if and only if what it takes from its source is still available then, or its source is exempt |
| `FundsAtCommit.ReleaseCommitIsSafe` | backend/services/holds_service.py:173-191 | A release commits safely whatever else has committed since it read its hold |
| `FundsAtCommit.ReversalTakesClearedFunds` | backend/services/reversals_service.py:57-118 | A placement reads its funds, a reversal that every account can spare commits, the placement commits: its account can spend less by both, and less than nothing unless it had enough for both |
| `Overdrafts.ConversionLeavesPayerCoveredIff` | backend/services/fx_service.py:89-98 | What a conversion costs the account that pays it out, and that this has nothing below zero afterwards if and only if it had that much to spend |
| `Races.CaptureCommitIsSafeIff` | backend/services/holds_service.py:139-146 | Committing a capture keeps funds safe if and only if what its hold still reserves plus what is otherwise available covers it, or the money stays, or the account is exempt |
| `Races.CaptureCommitGrowsIff` | backend/services/holds_service.py:117-163 | Committing a capture leaves everything resolved as it was if and only if its hold is still active then |
| `Races.RacingCapturesSpendTwice` | backend/services/holds_service.py:117-139 | Whenever posted covers it twice, two captures that both read the hold before either took the lock both post; the exact loss of available |
| `Races.ReleaseCommitKeepsResolvedIff` | backend/services/holds_service.py:177-183 | Committing a release leaves every hold resolved one way if and only if its hold is not captured by then |
| `Races.ReleaseLandsOnCapture` | backend/services/holds_service.py:177-183 | A release that read its hold open commits after a capture of it: the money has moved, the hold names the transaction, and ends released |
| `Races.ReversalCommitKeepsPairingIff` | backend/services/reversals_service.py:69-75 | Committing a reversal keeps the pairing one-to-one if and only if no other reversal of the transaction is committed by then |
| `Races.RacingReversalsBothLand` | backend/services/reversals_service.py:69-101 | Any reversible transaction can be reversed twice by two requests under different keys, because the check takes no lock |
| `ResolvedOnce.OpenRunsResolveOnce` | backend/services/holds_service.py:117-183 | Over every interleaving in which captures and releases commit on holds still active and reversals before any other of their transaction: holds resolve once to their own transaction, reversals pair one-to-one, nothing recorded is rewritten |
| `ExactlyOnce.KeysExecuteOnce` | backend/services/idempotency_store.py:42-73 | Over every interleaving, crash and sweep: a key commits again only more than `min_age` after its earlier record was written, and until then every lookup replays that answer or conflicts |
| `ExactlyOnce.ExecutionsAreApart` | backend/services/idempotency_sweeper.py:35-50 | If a request commits within a latency of writing its record, executions of one key are more than `min_age` minus that latency apart |
| `ExactlyOnce.SeparationIsAttained` | backend/services/idempotency_sweeper.py:35-50 | Such a run attains the bound: two commits of one key `min_age + 1 - latency` apart |
| `Retries.TransferRetriesReplay` | backend/services/transfers_service.py:65-68 | A transfer that went through, sent again after any run whose sweeps may not have reached its record: the same request gets the first response, another under the key a conflict, and nothing moves |
| `Retries.PlacementRetriesReplay` | backend/services/holds_service.py:61-64 | The same for a placement |
| `Retries.ReversalRetriesReplay` | backend/services/reversals_service.py:57-60 | The same for a reversal, which is not answered as already reversed |
| `Retries.ExecutionsAnswerRetries` | backend/services/idempotency_store.py:42-51 | Over every interleaving, crash and sweep: while an execution's record may not be swept, its service answers its key with its response or a conflict, and admits no request under it |
| `Consumer.AtLeastOnceDeliveryRebuildsSnapshots` | backend/services/postings_engine.py:94-127 | Any delivery of the committed events that contains each at least once, in any order and with repeats, de-duplicated by id and folded over the legs, rebuilds every balance and version |
| `Delivery.PublishedWasDelivered` | backend/services/outbox_service.py:1-16 | Over every interleaving of requests and of overlapping and crashing dispatchers, an event is published only after it was handed over, and only committed events are |
| `Delivery.DrainedOutboxRebuildsSnapshots` | backend/services/outbox_service.py:46-65 | After any such interleaving with nothing left pending, a consumer of all that was handed over, which drops repeated ids, has every committed balance and version |
| `Delivery.TwoDispatchersDeliverTwice` | backend/services/outbox_service.py:55-65 | Two dispatchers that read before either marks hand the same batch over twice; the table ends as if only the later had, with its stamp |
| `Delivery.CrashedDispatcherRedelivers` | backend/services/outbox_service.py:5-10 | A dispatcher that dies after handing over leaves the batch to be handed over again |
| `Outbox.DispatchTakesTheFront` | backend/services/outbox_service.py:34-65 | Dispatch removes exactly the front of the pending queue and leaves the rest in order |
| `Outbox.QueueIsOldestFirst` | backend/services/outbox_service.py:34-43 | The queue is exactly the tenant's pending events by creation, then id |
| `Outbox.DispatchStampsItsBatch` | backend/services/outbox_service.py:55-65 | Exactly the first `limit` of the queue change, and only in being published at that instant |
| `Outbox.DispatchSparesOthers` | backend/services/outbox_service.py:36 | Dispatching for one tenant touches no event of another |
| `Outbox.PublishedIsAlwaysAPrefix` | backend/services/outbox_service.py:34-63 | Under any mix of in-order posts and bounded dispatches the published events are a prefix of the (created_at, id) order |
| `Outbox.EnqueueKeepsPrefixIff` | backend/services/outbox_service.py:37 | A new event keeps the prefix if and only if nothing already published sorts after it, ties by id included |
| `Publication.CommitKeepsPublishedPrefixIff` | backend/data/tables/outbox.py:43 | A posting commit keeps its tenant's published events a prefix if and only if none of them was created after its own |
| `Publication.MarkKeepsPublishedPrefixIff` | backend/services/outbox_service.py:59-64 | A dispatcher's mark keeps the prefix if and only if it leaves nothing older than what it marks waiting |
| `Publication.OrderlyRunsPublishAPrefix` | backend/services/outbox_service.py:34-65 | Over every interleaving of requests and overlapping dispatchers, published events are a prefix as long as each posting request of the tenant commits before anything younger of it is handed over |
| `Publication.LateEventBreaksTheOrder` | backend/services/reversals_service.py:49-118 | A run that breaks it with all instants distinct: two reversals, the first staged commits after the second was dispatched |
| `Outbox.DrainDeliversTheQueueOnce` | backend/services/outbox_service.py:46-65 | With nothing new, repeated dispatch returns every pending event once, in order |
| `Outbox.DrainTakesCeilBatches` | backend/services/outbox_service.py:46-65 | It does so in ceil(n / limit) non-empty calls |
| `Statements.StreamStatement` | backend/services/statements_service.py:35-55 | The streaming loop, over whatever order the query returns ties in, yields each posting with a balance moved on by its amount from the row before, starting at the opening balance, and ends at a balance that does not depend on that order |
| `Statements.AnswersAreInOrder` | backend/services/statements_service.py:43-50 | What the query may return: exactly the account's postings effective from the start and before the end, by effect, then creation |
| `Statements.StatementsCompose` | backend/services/statements_service.py:42-55 | Whatever the order of ties, a statement for [a, b) followed by one for [b, c) opened at its closing balance is a statement for [a, c) |
| `Statements.IssuedStatementStandsIff` | backend/services/statements_service.py:45-48 | Later postings leave the query's possible answers unchanged if and only if none is effective within its window |
| `Statements.BackdatedPostingChangesTheStatement` | backend/services/statements_service.py:42-48 | A transaction posted after the window closed with a leg that takes effect in it changes the answers |
| `IssuedStatements.CommitKeepsStatementIff` | backend/services/statements_service.py:43-50 | Committing any writes leaves an issued statement's possible answers as they were if and only if no leg of them takes effect in its window |
| `IssuedStatements.ReversalKeepsClosedStatements` | backend/services/reversals_service.py:85-93 | A reversal served now changes no statement whose window has closed, however old what it reverses |
| `IssuedStatements.CaptureKeepsClosedStatements` | backend/services/holds_service.py:148-157 | Nor does a capture |
| `IssuedStatements.IssuedStatementsStand` | backend/services/statements_service.py:35-55 | Over every interleaving in which whatever posts was staged after the window closed, and no transfer is backdated into it, issued statements stand |
| `IssuedStatements.SlowReversalRewritesAStatement` | backend/services/reversals_service.py:85-117 | A run in which one does not: a reversal staged before a statement's end commits after it was issued |
| `Statements.StatementOrderIsForced` | backend/services/statements_service.py:48 | With distinct (effective_at, created_at) the query has one possible order |
| `Statements.FullStatementClosesAtTheSnapshot` | backend/services/balances_service.py:45-52 | A statement over everything, opened at the opening balance, closes at the snapshot |
| `AdminJournal.FollowingIsCompleteIff` | backend/services/admin_service.py:55-77 | Following `next_cursor` until null yields the whole remaining journal in order if and only if no page ends inside a group of postings of one effective instant |
| `AdminJournal.SelfTransferLosesARow` | backend/services/admin_service.py:55-77 | An account that paid itself, read in pages of one: the walk shows one of its two postings and ends |
| `AdminJournal.DistinctInstantsGiveTheWholeJournal` | backend/routers/admin_routes.py:48 | With distinct effective times every page size gives exactly the full journal, exact multiples included |
| `AdminJournal.ConsistentJournalNeverRepeats` | backend/services/admin_service.py:55-63 | In every consistent ledger no posting is shown twice or out of order, whatever the ties |
| `AdminJournal.JournalShowsEveryPosting` | backend/services/admin_service.py:57-58 | The join drops nothing: the journal is every posting of the account |
| `AdminJournal.JournalStaysInItsTenant` | backend/services/admin_service.py:51-77 | A tenant gets no journal of another's account; of its own, a page of that account's postings with the audit fields of transactions of the same tenant |
| `AdminJournal.JournalShowsTheFirstDue` | backend/services/admin_service.py:51-77 | A page in full: postings of the account after the cursor with their transactions' audit fields, by effect, then id, at most `limit`, and any not shown comes after a full page |
| `Money.HalfEvenIsTheNearestEven` | backend/money/types.py:75-76 | Banker's rounding is the unique nearest integer, even on ties (roundTiesToEven, section 4.3.1 of IEEE 754-2019), both directions |
| `Money.HalfEvenIsOdd` | backend/money/types.py:66-76 | Rounding commutes with negation |
| `Money.HalfEvenIsMonotone` | backend/money/types.py:66-76 | Rounding keeps order |
| `Money.RoundingIsUnbiased` | backend/money/types.py:69-72 | Over any 2d consecutive numerators of a denominator d the rounding errors sum to exactly zero |
| `Conversion.ConvertIsOneScaling` | backend/money/types.py:79-95 | In exact arithmetic a conversion is one multiplication and one rounding, for any pair of exponents |
| `Conversion.ConvertPaysAmountTimesRate` | backend/money/types.py:92-95 | With today's exponents a conversion pays the amount times the rate, rounded half to even, and within one currency the amount |
| `Decimals.ConvertIsExactWithin28Digits` | backend/money/types.py:72-95 | With every decimal operation rounded to 28 digits, `convert` returns that same result, if it has at most 28 digits (else `quantize` raises), as long as the amount times the stored rate's ten-decimal coefficient stays below 10^28 |
| `Conversion.RoundMinorUndoesToDecimal` | backend/money/types.py:60-76 | `round_minor` undoes `to_decimal` for every amount and exponent |
| `Conversion.ThereAndBackIsLosslessIff` | backend/money/types.py:79-95 | In exact arithmetic, converting and converting back at the reciprocal returns every amount if and only if a source unit is worth at least one target unit |
| `Conversion.ThereAndBackError` | backend/services/fx_rates.py:67-74 | In exact arithmetic the round trip is off by at most 1/2 + 1/(2k) units, k target units per source unit, for any positive rate |
| `Decimals.ThereAndBackIsLosslessInDecimals` | backend/services/fx_rates.py:67-74 | With the reciprocal and every product rounded to 28 digits the round trip still returns the amount a, when (|a| + 1/(2k)) times the error of two roundings is below 1/2 - 1/(2k) |
| `ConversionDrift.NoInterleavingDrifts` | backend/services/fx_service.py:72-98 | In every state of every interleaving, each conversion's credit follows its debit and pays it at the rate both name, rounded once, and what any account has paid out in n conversions is within n/2 minor units of their exact worth |
| `ConversionDrift.DriftIsAtMostHalfPerConversion` | backend/money/types.py:86-90 | Over any sequence of events, payouts drift at most half a unit per conversion |
| `ConversionDrift.PayoutsAreInTheBalance` | backend/services/fx_service.py:89-98 | An account's balance is its opening, plus everything else posted to it, minus what it paid out in conversions |
| `Rates.LatestIsLatest` | backend/services/fx_rates.py:79-94 | The chosen row is in force and no other row in force is later; none is chosen only if none is in force |
| `Rates.LatestIsUnique` | backend/services/fx_rates.py:90-91 | With distinct instants per pair the row is the only one the query may return |
| `Rates.DirectQuoteIsUsed` | backend/services/fx_rates.py:58-65 | The newest quote of the asked direction in force is used as it stands, whatever the other direction says |
| `Rates.ReciprocalIsUsed` | backend/services/fx_rates.py:67-76 | Only where that direction is unquoted is the newest of the other used, with a rate that multiplies with it to one; a zero is no rate |
| `Rates.OtherwiseIdentityOrNone` | backend/services/fx_rates.py:55-76 | A currency is worth one of itself; a pair quoted in neither direction has no rate |
| `Rates.AppendedRowChangesLatestIff` | backend/services/fx_rates.py:83-92 | A new row changes the answer if and only if it is in force and newer than every row in force |
| `Rates.ResolutionIsHistoricallyStable` | backend/services/fx_rates.py:43-76 | Rows effective later never change a resolved rate, direct or reciprocal |
| `Rates.OneSidedPairIsConsistent` | backend/services/fx_rates.py:67-74 | When one direction is maintained the two resolved rates are reciprocals, before the division is rounded |
| `Decimals.OneSidedPairInDecimals` | backend/services/fx_rates.py:67-74 | As computed, the two rates multiply to one within one rounding, and to exactly one if and only if 28 digits hold the reciprocal |
| `Decimals.ThreeHasNoReciprocal` | backend/services/fx_rates.py:67-74 | For a rate of 3 they never multiply to one |
| `Partitioning.RoutedIffInBounds` | backend/data/database/partitioning.py:50-72 | An instant lies in the bounds of a month, as their text denotes them, if and only if it is routed to that month |
| `Partitioning.MonthsAbut` | backend/data/database/partitioning.py:67-72 | Each month's end is, as text, the next month's start, and no instant is in both; years included |
| `Partitioning.BoundReadsBack` | backend/data/database/partitioning.py:69-71 | A bound's text, read field by field, is the first instant of its month |
| `Partitioning.SuffixesSortChronologically` | backend/data/database/partitioning.py:43-47 | For one tenant and years to 9999, suffixes sort as the months do and tell them apart |
| `Partitioning.ChildNamesAreDistinct` | backend/data/database/partitioning.py:60-64 | Within a tenant no two child tables share a name |
| `Partitioning.NamesSayTheirParts` | backend/data/database/partitioning.py:43-64 | Only transactions and postings have children; a name is the table, the tenant with hyphens replaced (or "default"), the year in at least four digits and the month in two, which read back |
| `Partitioning.BoundsCompareAsTextIff` | backend/data/database/partitioning.py:67-72 | A month's start sorts before its end as text (section 5.1 of RFC 3339) if and only if it is not December 9999 |

## Left out

- Routers, middleware, tenant tokens, settings, pools, logging and metrics; the tenant is a trusted parameter.
- SQLAlchemy and Postgres internals, migrations and the balance trigger; row-lock conflicts, deadlocks and liveness of the lock.
- `partition_ddl`: its text is not modelled, only the names and bounds it is made of; names across tenants are not claimed distinct.
- SHA-256, JSON and UUIDs: a fingerprint is an integer, an id a position, so ties among random ids appear only where a lemma says so.
- Outside `Decimals`, arithmetic is exact. `Decimals` does not model the bounds on a decimal's exponent, nor the rounding of a published rate to the stored NUMERIC(20,10); a rate that rounds to zero is allowed everywhere.
- Amounts are unbounded integers; the 64-bit columns are not modelled.
- Delivery itself, which `dispatch_pending` stands in for: the model takes a batch as handed over when it is read, before it is marked, as that function's documentation has it, and stamps it with the instant of the read.
- A request reads its clock several times; the model gives all rows of one request one instant, that of staging, and judges expiry at the instant the request began, as the database's `now()` does.
- The several validating reads at the start of a request are one step of an interleaving.
- A response's balance lookup on a missing snapshot row reads zero where the source raises; a consistent ledger lacks no such row.
- Account names, normal balances and path roll-ups; memo text is kept as structured provenance, not as a formatted string.
- `get_account`, `keys_for_tenant` and `get_record` return rows as they are, `run_forever` calls `sweep_once` on a timer, and `list_events` filters on a status a caller names: none of them changes a table or decides anything the modelled services depend on.
- Reconciliation and statement import: they store uploaded statement lines and propose links from them to postings; they read the ledger and write only tables of their own.
- Days per month beyond 31, leap seconds and time zones: partitions depend on year and month only.
- InterleavedFunds.NoInterleavingOverdraws: covers accounts that are not at a conversion path, and commits of captures and reversals that are covered; where they are not, the exact conditions above say what happens.
- SerialLaws.RunPublishesInOrder: serial, and ids grow with posting, so neither late commits nor the source's random ids of one instant arise; `Publication` is about the first and `Outbox.EnqueueKeepsPrefixIff` about the second.
- Publication.CommitKeepsPublishedPrefixIff: ids grow as events land, so of two events of one instant the later sorts last.
- Partitioning.SuffixesSortChronologically: years to 9999, the range of Python's `datetime`.
