# Money and stock engine of the bazaar API: a verified model

This project models the parts of the bazaar API that make promises about money, stock
and identity under concurrency, and proves those promises for every input and every run.

- **Finance transactions** (`Ledger`, `Sessions` and the modules around them). Payment creation and reversal,
  agreement voiding, shift creation and correction are taken one SQL statement at a time. Reads see the rows
  committed so far, inserts stay private until commit, and advisory and row locks are held until the transaction
  ends. Any number of transactions interleave with each other, with aborts, with clock ticks and with new
  agreements. `FinanceDatabase`, `FinancePayments`, `FinanceVoiding` and `FinanceShifts` run the same operations as
  imperative code over one mutable database, other sessions being free to run before every statement, and are
  proved to be runs of that model.
- **Agreement creation** (`AgreementLedger`, `AgreementMoney`, `AgreementSessions`, `AgreementTheorems`, `AgreementProgress`, `AgreementRetry`). REPEATABLE
  READ snapshots, the folio counter row as the only meeting point, bounded retries, replays, voids and replacements.
- **Allocation and simulation** (`Allocation*`, `Simulation`, `SimulationRun`). Exact integer division of a pool, and the member rows built on it.
- **Canonical JSON and the frozen document** (`JsonText`, `CanonicalJson*`, `AgreementDocument`, `Decimal`). Strings are UTF-16
  code units quoted as in section 7 of RFC 8259, keys sorted by code unit as in section 3.2.3 of RFC 8785.
- **Stock and debts** (`SaleReplay`, `Stock*`, `DebtPayments`). Sales, debts and restocks as interleaved statements over
  product rows, racing resends of one sale, and payments on one debt.
- **Answers** (`SessionAnswers`, `AgreementAnswers`, `StockAnswers`). What each call is answered when nothing runs beside
  it, each outcome with its reason on the committed rows and without the statements: safety over all runs and the exact
  answer of one run, side by side.
- **Limiter, calendar, pages, cost, rules** (`SlidingWindow`, `RateLimiter`, `BusinessTime`, `KeysetPages`, `RestockCost`, `Rules*`).

Ids are elements of a total order, amounts are unbounded integers checked against the stored range where the code
checks it, the clock is a non-decreasing integer, and a digest stands for the text it is taken over. One business
context is modelled; ids held by others appear as a set of ids that an insert can collide with. A shared list of rows
that are only ever added is kept as one append-only log.

Where the code and its own documentation disagree, the model follows the code:

- `doc/finance-distribution-agreements.md:138-146` promises that the same money is never agreed twice. Creations whose
  folio years differ update different counter rows, so a creation that took its snapshot before the local New Year can
  commit next to one made after it. `AgreementTheorems.AgreedTwiceExactlyAcrossYears` shows such a run for every pair of
  different years and proves that there is none within one year. It takes two API processes: inside one process
  `serialized` (`src/finance/finance-agreements.service.ts:195-208`) queues the creations of a context.
- `src/common/canonical-json.ts:3-10` promises that two different inputs never print alike. A sparse array with one
  hole prints like an empty array (`CanonicalJsonFacts.LoneHoleCollapses`); without holes the promise holds.
- `src/common/business-time.ts:35-68`: for local years 0 to 99 a week range lies in another century; every other year is right.
- `src/finance/finance-distribution.service.ts:171-175` refuses a positive partner share without partners even when the
  partner pool rounds to nothing and the allocator would accept it (`Simulation.PartnerGuardIsTooStrictExactlyWhen`).

`dafny verify dfyconfig.toml` checks everything.

## Model

| member | source | states |
|---|---|---|
| SessionTheorems.PaymentsAreSafe | src/finance/finance-payments.service.ts:195-290 | in every interleaving of statements: each participant's unreversed payments sum to at most the agreed amount, each payment has at most one reversal, no payment commits after its agreement's void, and the paid amount equals payments booked minus payments reversed |
| SessionTheorems.OverpaidIsUnreachable | src/finance/finance-payments.summary.ts:26-27 | in every reachable state the summary of any agreement is built without the "overpaid" failure, and no finished call ever reported it |
| SessionTheorems.CreatedAtMostOnce | src/finance/finance-payments.service.ts:177-193 | over any run two calls that answer "created" never carry one identity, and every created or replayed call finds its own content stored |
| SessionTheorems.NoDeadlock | src/finance/finance-payments.service.ts:114-117 | no run reaches a cycle of transactions waiting for each other, across payment creation and reversal, agreement voids, shift creation and correction |
| SessionTheorems.EverybodyCanFinish | src/finance/finance-payments.service.ts:310-314 | from every state that keeps the invariant some schedule lets all running transactions end |
| SessionTheorems.EveryRunCanFinish | src/finance/work-shifts.service.ts:79-99 | after any run there is a continuation in which every running transaction ends: locks taken in one global order never block for good |
| SessionTheorems.PaymentsRunSideBySide | src/finance/finance-payments.service.ts:199-230 | in no run does a payment wait for one of another identity to another participant, not even within one agreement |
| SessionTheorems.ShiftsAreSafe | src/finance/work-shifts.service.ts:162-309 | in every interleaving: shift ids and correction ids stay disjoint, each shift is corrected at most once, each replacement belongs to one correction, active totals equal creations minus corrections, and a stored same-day count equals the other active shifts of that member and day right after its commit |
| SessionTheorems.ApplyKeeps | src/finance/finance-payments.service.ts:362-418 | every action of every client, taken one statement at a time, keeps the invariant the safety theorems follow from |
| Sessions.IdentityKeys | src/finance/finance-agreements.service.ts:503-505 | the advisory keys of a request are exactly the identities it creates or refers to, in the strictly ascending order in which they are locked |
| Sessions.DayKeys | src/finance/work-shifts.service.ts:89-99 | the keys locked are exactly the days of the original and of the replacement, each once and in ascending order |
| LedgerFacts.NobodyOverpaid | src/finance/finance-payments.service.ts:239-253 | a log built under the participant lock never pays a participant more than was agreed |
| LedgerFacts.SummaryNeverOverpaid | src/finance/finance-payments.summary.ts:51-72 | the summary of such a log always succeeds or fails only on the safe-integer range |
| LedgerFacts.PaidIsBooked | src/finance/finance-payments.service.ts:238-242 | the sum of payments without a reversal equals payments booked minus the amount of each reversed payment, once |
| LedgerFacts.LinesAreBooked | src/finance/finance-payments.summary.ts:92-108 | the lines of a summary hold, participant by participant, the agreed total, the booked amount, the payments written and those not reversed |
| LedgerFacts.RowsAreUnique | src/finance/finance-payments.service.ts:371-381 | payments, reversals, voids and their targets appear at most once in the log |
| LedgerFacts.ShiftIdentities | src/finance/work-shifts.service.ts:181-187 | shift and correction identities never coincide |
| LedgerFacts.WorkIsBooked | src/finance/work-shifts.service.ts:417-451 | active shift count, known minutes and unknown durations of any scope are the fold of creations minus corrections |
| LedgerFacts.ShiftCounts | src/finance/work-shifts.service.ts:417-451 | a new shift counts once in exactly the scopes of its member and its day: one more shift, its minutes if known, else one more unknown duration |
| LedgerFacts.CorrectionTakesBack | src/finance/work-shifts.service.ts:417-451 | a correction takes exactly that back |
| LedgerFacts.WarningIsExact | src/finance/work-shifts.service.ts:117-128 | the count stored with a shift is exactly the number of other active shifts of its member and day once its transaction has committed, replacements included |
| PaymentSummary.ThrowsExactlyWhenOverpaid | src/finance/finance-payments.summary.ts:22-49 | building a summary fails for overpayment exactly when some participant is paid more than agreed |
| PaymentSummary.SummaryTellsTheLines | src/finance/finance-payments.summary.ts:22-72 | a summary is built exactly when nobody is overpaid and the three totals are safe integers; its totals and counts are the sums of the lines, and every participant has its own amounts, its remainder and the status that tells them |
| PaymentSummary.AggregateStatusMeansAmounts | src/finance/finance-payments.summary.ts:51-72 | within the agreed amounts the aggregate status is PAID, UNPAID or NOT_DUE exactly when pending is 0 with something agreed, paid is 0 with something agreed, or nothing is agreed |
| FinancePayments.Create | src/finance/finance-payments.service.ts:158-308 | the creation, statement by statement with the given other sessions running in between: its own statements and theirs, in order, are a run of the interleaved model that ends with the same outcome and database; or it stops at a lock that is not free when nobody is left to act |
| FinancePayments.Reverse | src/finance/finance-payments.service.ts:315-428 | the same for payment reversal, its waiting included: participant lock, then payment lock, re-read, insert |
| FinanceVoiding.Reverse | src/finance/finance-agreements.service.ts:500-557 | the same for agreement voiding, its waiting included: both identities in order, then the agreement row |
| FinanceShifts.Create | src/finance/work-shifts.service.ts:162-197 | the same for shift creation, its waiting included: identity, then day, count and insert |
| FinanceShifts.Reverse | src/finance/work-shifts.service.ts:199-309 | the same for shift correction with an optional replacement, its waiting included: all identities in order, then all days in order |
| FinanceDatabase.Database.TakeAll | src/finance/work-shifts.service.ts:79-99 | a sorted list of advisory keys is taken one by one, others running in between, as the model takes it, or taking stops at a key that is not free when nobody is left to act |
| FinanceDatabase.PlayKeeps | src/finance/finance-payments.service.ts:142-156 | any further interleaving keeps the invariant, so the safety theorems hold of the database the methods leave |
| SessionAnswers.UndisturbedCall | src/finance/finance-payments.service.ts:158-428 | with nobody else running, each of the five calls ends, and every outcome is answered exactly when the ledger holds its reason: which refusal, conflict, replay or creation; a creation writes exactly its rows, anything else writes nothing |
| SessionAnswers.AnswerHasItsReason | src/finance/finance-payments.service.ts:195-260 | the reasons, stated on the committed rows, the clock and the ids taken elsewhere alone, are exclusive and complete: exactly one outcome of a request has one |
| SessionAnswers.PaymentLine | src/finance/finance-payments.service.ts:195-253 | a payment is admitted exactly when its id is new, the agreement is not voided, the member has something agreed, the date is not before the agreement and the balance covers it |
| SessionAnswers.ReplacementAdmitted | src/finance/work-shifts.service.ts:199-309 | a correction with a replacement is admitted exactly when both ids are new to shifts and corrections and the original exists uncorrected |
| SessionTheorems.NothingIsRewritten | src/finance/finance-payments.service.ts:262-290 | whatever runs later, committed rows are never changed or lost and answers given stay given |
| AgreementTheorems.CreationsSeeEachOther | src/finance/finance-agreements.service.ts:324-347 | over every run: a later creation of the same folio year had every earlier one in its snapshot, and each commit left its period within the available amount it read plus only what other folio years agreed behind that snapshot |
| AgreementTheorems.FoliosAreGapless | src/finance/finance-agreements.service.ts:341-348 | over creations, voids, replays and retries the numbers of a year are exactly 1 to its count, the counter holds that count, and folio strings never repeat |
| AgreementTheorems.ReplacementsAreSound | src/finance/finance-agreements.service.ts:446-471 | replacement links are injective and each points to an agreement created and voided before, so no chain closes |
| AgreementTheorems.CreatedAtMostOnce | src/finance/finance-agreements.service.ts:281-292 | one identity is created at most once, and a created or replayed call finds its own content stored |
| AgreementTheorems.OneYearIsSafe | src/finance/finance-agreements.service.ts:324-339 | with all agreements of a period in one folio year and an available amount that never drops, no run agrees more than is available |
| AgreementTheorems.AgreedTwiceExactlyAcrossYears | src/finance/finance-agreements.service.ts:343-347 | some run agrees the same money twice if and only if the two folio years differ: their creations do not share a counter row |
| AgreementAnswers.UndisturbedCreation | src/finance/finance-agreements.service.ts:271-360 | with nobody else running, a creation ends, all its attempts included, and every outcome is answered exactly when the rows hold its reason; created, it adds its row with the next number of the year; otherwise rows and folios stay as they are |
| AgreementAnswers.ReplacementAfterVoid | src/finance/finance-agreements.service.ts:446-471 | after the void of a live agreement, a replacement of up to its whole amount is created |
| AgreementAnswers.GivesUpAfterFive | src/finance/finance-agreements.service.ts:80-112 | a creation whose id another context holds is retried until its fifth attempt and then given up as not found |
| AgreementMoney.CommittedIsLive | src/finance/finance-agreements.service.ts:587-604 | the live total of a period is the account that adds each agreement and takes it back at its void |
| AgreementMoney.VoidReleases | src/finance/finance-agreements.service.ts:587-604 | one void lowers its period by exactly the amount of its agreement and no other period at all |
| AgreementMoney.AvailableIsLast | src/finance/finance-agreements.service.ts:324-339 | the available amount is the last one recorded for the period, or nothing |
| AgreementTheorems.NothingIsRewritten | src/finance/finance-agreements.service.ts:172-184 | whatever runs later, agreements and voids are never changed or lost and answers given stay given |
| AgreementProgress.EverybodyCanFinish | src/finance/finance-agreements.service.ts:80-112 | from every state that keeps the invariant some order of statements lets every running creation end, retries included |
| AgreementProgress.EveryRunCanFinish | src/finance/finance-agreements.service.ts:80-112 | the same after any run: a creation only ever waits for one that is further on |
| AgreementSessions.Reachable | src/finance/finance-agreements.service.ts:80-112 | the snapshot-isolation invariant (fresh snapshots, counters, identities, unique keys, finished calls) after every run with up to five attempts per creation |
| AgreementLedger.SnapshotSeesSameYear | src/finance/finance-agreements.service.ts:343-347 | no commit of the same year can hide behind a snapshot |
| AgreementLedger.NeverAgreedTwice | src/finance/finance-agreements.commitment.ts:5-26 | the live total never exceeds an available amount that never drops, despite voids in between |
| AgreementLedger.CommitStaysWithinAvailable | src/finance/finance-agreements.service.ts:327-339 | the exact bound each commit leaves, other folio years included |
| AgreementLedger.FoliosHaveNoGaps | src/finance/finance-agreements.service.ts:343-348 | every number from 1 to the count of its year was given |
| AgreementLedger.FoliosAreDistinct | src/finance/finance-agreements.snapshot.ts:53-55 | numbers ascend within a year and folio strings differ across all years |
| AgreementLedger.ReplacementPointsBack | src/finance/finance-agreements.service.ts:464-470 | a replacement targets an agreement whose creation and void are already in the log |
| AgreementRetry.RunWithRetry | src/finance/finance-agreements.service.ts:80-112 | the first attempt that is not retryable decides; if all are, the last one decides between not found and busy; the number of attempts and of pauses |
| Decimal.FolioIsInjective | src/finance/finance-agreements.snapshot.ts:53-55 | different year and number pairs never format to one folio, beyond four and five digits too |
| Decimal.FolioReads | src/finance/finance-agreements.snapshot.ts:49-55 | a folio is AC, the year on four digits and the number on five, each on more digits only when it needs them, joined by dashes |
| AgreementDocument.VerifiesExactlyItsContent | src/finance/finance-agreements.snapshot.ts:112-123 | a document verifies exactly when its hash is that of its content outside the hash and the live fields |
| AgreementDocument.StillVerifies | src/finance/finance-agreements.snapshot.ts:70-107 | a stored document still verifies after its status, reversal and replacement change, read back with the keys of every object inside it in any order |
| AgreementDocument.OverlayShows | src/finance/finance-agreements.service.ts:172-184 | laid over any stored document, status, reversal and replacement each take their own live value and everything else stays as stored |
| AgreementDocument.DetailIs | src/finance/finance-agreements.service.ts:172-184 | the detail is the content and its digest as created, then voided exactly with a reversal, that reversal and the replacement, each null when there is none |
| AgreementDocument.BuiltIsActive | src/finance/finance-agreements.snapshot.ts:70-107 | a new document is its content followed by the digest of that content and a live part that is active, not reversed and not replaced |
| AgreementDocument.HashedPart | src/finance/finance-agreements.snapshot.ts:112-123 | hashed is every field but the digest itself and the three live ones |
| CanonicalJsonFacts.PrintsAlikeExactlyWhenSame | src/common/canonical-json.ts:24-59 | two accepted values print the same text exactly when they are the same value up to key order, with a one-hole array read as an empty one |
| CanonicalJsonFacts.DenseValuesNeverCollapse | src/common/canonical-json.ts:3-10 | without array holes, printing alike is being equal after reordering keys and nothing more |
| CanonicalJsonFacts.LoneHoleCollapses | src/common/canonical-json.ts:41-42 | with holes the documented promise fails: an array of one hole prints like an empty array |
| CanonicalJsonFacts.KeyOrderIsIrrelevant | src/common/canonical-json.ts:48-55 | permuting the keys of an object changes no printed text |
| CanonicalJsonFacts.ReadEmit | src/common/canonical-json.ts:24-59 | a reader gets every printed canonical value back, whatever follows it |
| CanonicalJsonFacts.EndsWhereItEnds | src/common/canonical-json.ts:24-59 | at one position no two different values can be read, with anything after that cannot continue a number |
| CanonicalJsonFacts.ProperPrefixOnlyBetweenNumbers | src/common/canonical-json.ts:24-59 | one printed value is a proper prefix of another exactly when both are numbers and their digits are |
| CanonicalJsonFacts.SerializedIsWellFormed | src/common/canonical-json.ts:15-17 | the printed text has no lone surrogate, so hashing its UTF-8 bytes loses nothing |
| CanonicalJson.SerializeIsEmit | src/common/canonical-json.ts:44-57 | values are refused exactly when something inside cannot be carried; otherwise printing is sorting keys at every level, then printing |
| CanonicalJsonText.ObjectText | src/common/canonical-json.ts:44-57 | a printed object is, in braces and set apart by commas, every property once, its quoted key, a colon and its printed value, consecutive keys ascending: the first is a proper prefix of the second, or has the smaller code unit at the first difference |
| CanonicalJsonText.LessMeans | src/common/canonical-json.ts:44-46 | the order of keys is comparison by code unit at the first difference, a prefix first |
| CanonicalJsonText.ArrayText | src/common/canonical-json.ts:40-43 | a printed array is its items in order in brackets, a hole as nothing between its commas |
| CanonicalJsonText.OrdinaryIsQuotedAsItStands | src/common/canonical-json.ts:31-32 | a well-formed string without control units, quotation marks and backslashes is itself between quotation marks |
| JsonText.QuoteRoundTrip | src/common/canonical-json.ts:31-32 | a quoted string reads back to itself and ends where it ends |
| AllocationRows.AllocateByWeight | src/finance/finance-distribution.allocation.ts:66-109 | the loop over shared rows computes exactly the specified allocation or refusal; its closing check never fails |
| AllocationRows.HandOut | src/finance/finance-distribution.allocation.ts:98-102 | the loop gives one unit to each of the first rows of the ranking and always spends the leftover |
| AllocationFacts.SucceedsExactlyWhen | src/finance/finance-distribution.allocation.ts:70-79 | exactly which inputs are divided, and exactly when there is no weight to divide by |
| AllocationFacts.ResultShares | src/finance/finance-distribution.allocation.ts:105-108 | one share per item, in ascending id order |
| AllocationFacts.ResultAddsUp | src/finance/finance-distribution.allocation.ts:105-107 | the shares add up to the pool |
| AllocationFacts.ShareIsFloorOrCeiling | src/finance/finance-distribution.allocation.ts:80-86 | each share is the floor of the exact one or its ceiling, exact when it is whole, never negative, and 0 for weight 0 |
| AllocationFacts.OrderIsIrrelevant | src/finance/finance-distribution.allocation.ts:66-109 | the result, refusals included, does not depend on the order of the input |
| AllocationFacts.LargerWeightNeverLess | src/finance/finance-distribution.allocation.ts:89-97 | a strictly larger weight never receives less; equal weights differ by at most one unit in favour of the smaller id |
| AllocationFacts.LeftoverByRemainderThenId | src/finance/finance-distribution.allocation.ts:89-102 | leftover units go to larger remainders first and among equal ones to smaller ids, whatever the weights |
| AllocationFacts.NothingIsCloser | src/finance/finance-distribution.allocation.ts:60-65 | among all integer allocations of the pool the total absolute deviation from the exact shares is least |
| Allocation.LeftoverIsPlaced | src/finance/finance-distribution.allocation.ts:88-102 | the leftover is never negative and strictly below the number of rows with a non-zero remainder, or 0 |
| Allocation.LuckyIsUneven | src/finance/finance-distribution.allocation.ts:60-64 | only rows with weight and a non-zero remainder get a leftover unit |
| Allocation.AmountsAddUp | src/finance/finance-distribution.allocation.ts:88-102 | floors plus leftover units add up to the pool |
| Allocation.PoolsAreExact | src/finance/finance-distribution.allocation.ts:27-36 | the split succeeds exactly on a non-negative request and a share in range; the partner pool is the floor, the work pool the ceiling of the rest |
| Allocation.UniqueMeansDistinct | src/finance/finance-distribution.allocation.ts:18-21 | comparing a set's size with the list's length finds duplicates exactly |
| AllocationEqual.AgreesExactlyWhen | src/finance/finance-distribution.allocation.ts:42-58 | exactly when the weighted method with one common weight and the equal split give the same result |
| AllocationEqual.EqualWeightsShareEqually | src/finance/finance-distribution.allocation.ts:38-58 | one positive weight for all gives the equal split, unit for unit |
| Simulation.SimulationConserves | src/finance/finance-distribution.service.ts:164-234 | a simulation succeeds exactly past its three guards, never fails internally, and its rows add up to the request and to both pools |
| Simulation.GuardsSuffice | src/finance/finance-distribution.service.ts:164-198 | past the two guards neither the equal nor the weighted allocation can refuse |
| Simulation.WorkGuardIsNeeded | src/finance/finance-distribution.service.ts:190-198 | without work units the weighted division would refuse for lack of weight, so the work guard refuses nothing that could be divided |
| Simulation.PartnerGuardIsTooStrictExactlyWhen | src/finance/finance-distribution.service.ts:171-175 | the partner guard refuses although the equal split would succeed exactly when the partner pool of a positive share is rounded to nothing |
| Simulation.PartnerGuardRefusesOneCent | src/finance/finance-distribution.service.ts:171-175 | one such input: one cent, one basis point for partners, no partner, one worker |
| SimulationRun.SimulateInTx | src/finance/finance-distribution.service.ts:127-221 | from the grouped shifts of the period to the rows, ascending by member: refused for the amount, for missing partners or for missing work exactly then; otherwise every member's work part is the floor or ceiling of the pool times the units of its own shifts over all units, more units never get less, every active partner gets an equal part within one unit and nobody else any, and nothing is lost |
| SimulationRun.RowsAreFair | src/finance/finance-distribution.service.ts:200-221 | the rows of any successful simulation, judged by the shifts themselves: work by units, equal work in favour of the smaller id by at most one unit, equal partner parts |
| SimulationRun.WeightsFrom | src/finance/finance-distribution.service.ts:177-188 | every member with a shift becomes one weight, the units of its shifts on the chosen basis |
| Simulation.EqualIsExact | src/finance/finance-distribution.allocation.ts:42-58 | the equal split adds up to its pool, with one share for every id and for nobody else |
| Simulation.RowsAddUp | src/finance/finance-distribution.service.ts:211-233 | joining both allocations into member rows loses no share |
| Simulation.Aggregate | src/finance/finance-distribution.service.ts:146-154 | the two loops aggregate every member with a shift; the second never meets an absent key |
| StockTheorems.StockIsConserved | src/sales/sales.service.ts:329-375 | in every interleaving of sales, debts and restocks, rollbacks and repeated products included: stock stays in range and equals initial stock plus restocks minus completed sales minus debts |
| StockTheorems.NoUpdateIsLost | src/sales/sales.service.ts:355-375 | the absolute value a sale or a debt writes is still right when it is written |
| StockTheorems.SalesTakeEffectOnce | src/sales/sales.service.ts:304-314 | one row per sale id and at most one caller told it was created |
| StockTheorems.AnswersAgree | src/sales/sales.service.ts:468-536 | all calls answered without error for one id describe the same sale |
| StockTheorems.StockMovesOnlyIfCompleted | src/sales/sales.service.ts:494-536 | the requests carrying one id together move exactly the completed sale's items, and nothing when it is not completed |
| StockInvariant.Reachable | src/deudas/deudas.service.ts:308-333 | the stock and row invariant after every run of sales, debts, restocks, edits and aborts |
| StockInvariant.WriteOk | src/sales/sales.service.ts:372-375 | one absolute write under the row lock keeps the transaction's balance, also for repeated products |
| StockInvariant.RestockGoes | src/products/products.service.ts:348-368 | the guarded increment keeps the balance and the stock range |
| SaleReplay.ReplaysExactlyTheSameSale | src/sales/sales.service.ts:137-184 | a fingerprinted row, completed or rejected, accepts a later request exactly when headers match and items are equal as multisets |
| SaleReplay.OldRowsCompareLineOrder | src/sales/sales.service.ts:111-124 | a row without a fingerprint is accepted exactly when it was completed and per product the quantities come in the same order |
| StockTheorems.NothingIsRewritten | src/products/products.service.ts:299-305 | whatever runs later, stored rows and answers stay, and a product keeps the initial stock and the type it was entered with |
| StockAnswers.UndisturbedSale | src/sales/sales.service.ts:290-538 | with nobody else running, a sale is created exactly when all its items together are on sale and in stock, its amounts can be stored, the cash covers the price and the id is free; each product then drops by exactly what the items ask for; otherwise nothing moves, and it is never recorded as rejected |
| StockAnswers.LostRaceIsRecorded | src/sales/sales.service.ts:355-370 | a sale that saw enough stock and finds too little under its lock, with its id free and left to run, is recorded as rejected with exactly its request and answered so, moving no stock |
| StockAnswers.ShortAtFirstLook | src/sales/sales.service.ts:333-350 | a sale already short at its first look is refused, and no row is written |
| StockAnswers.AllAvailable | src/sales/sales.service.ts:327-354 | checking the items one by one against what is left, repeated products included, is checking all of them together |
| StockAnswers.UndisturbedDebt | src/deudas/deudas.service.ts:257-420 | with nobody else running, a debt is created exactly when its product is on sale and in stock, its total can be stored, its initial payment stays within it and the id is free; only that product moves |
| StockAnswers.UndisturbedRestock | src/products/products.service.ts:348-408 | with nobody else running, a restock succeeds exactly on an active product sold by quantity whose stock stays in range, and adds exactly its pieces |
| DebtPayments.BalanceIsSafe | src/deudas/deudas.service.ts:622-682 | in every interleaving of payments on debts: no debt is paid beyond its total, and it is settled exactly when its payments reach a total above zero |
| DebtPayments.SettledForGood | src/deudas/deudas.service.ts:605-614 | whatever runs later, a debt keeps its total, and a settled one keeps its instant and takes no further payment |
| DebtPayments.UndisturbedPayment | src/deudas/deudas.service.ts:622-691 | with nobody else paying, a payment is registered exactly when the debt exists and its balance covers it, and settles it exactly when it uses the balance up |
| RateLimiter.SlidingWindowLimiter.Hit | src/business-registration/rate-limiter.ts:16-25 | the new stored list of the key and no other, and an answer that is right for the full history |
| RateLimiter.SlidingWindowLimiter.Sweep | src/business-registration/rate-limiter.ts:28-32 | exactly the fully expired keys are forgotten and every later answer stays the same |
| RateLimiter.AnswerIsRight | src/business-registration/rate-limiter.ts:16-25 | a hit is accepted exactly when the full history has room in the last window; a refusal tells the least wait after which a retry succeeds |
| RateLimiter.HitKeepsAll | src/business-registration/rate-limiter.ts:17-24 | pruning and recording keep every key's list in agreement with its full history, now and later |
| RateLimiter.SweepKeepsAll | src/business-registration/rate-limiter.ts:28-32 | forgetting fully expired lists keeps that agreement |
| SlidingWindow.NoWindowHoldsMore | src/business-registration/rate-limiter.ts:7-15 | no half-open window, wherever it ends, ever holds more than the limit of accepted attempts |
| SlidingWindow.RefusedExactlyWhenFull | src/business-registration/rate-limiter.ts:17-21 | an attempt is refused exactly when the limit of accepted ones falls in the window that ends with it |
| SlidingWindow.LeastWait | src/business-registration/rate-limiter.ts:18-21 | waiting until the oldest counted attempt expires is enough and nothing less is |
| RateLimiter.RegistrationLimits.HitIp | src/business-registration/registration-limits.ts:44-53 | sweeping now and then, with the same window, does not change what the full history decides |
| RateLimiter.RegistrationLimits.AllowVerificationEmail | src/business-registration/registration-limits.ts:55-63 | the same for three mails an hour per address |
| RateLimiter.HeaderCoversTheWait | src/business-registration/registration-limits.ts:93-96 | the Retry-After header is the least number of whole seconds that covers the wait |
| RateLimiter.CountersAreSeparate | src/business-registration/registration-limits.ts:50-63 | two addresses, two routes or an address and a mail never share a counter, even for addresses with colons |
| BusinessTime.WeekIsSundayToSaturday | src/common/business-time.ts:44-68 | the range runs from a local Sunday midnight to the last millisecond of its Saturday |
| BusinessTime.InOwnWeek | src/common/business-time.ts:44-68 | an instant lies in its own week exactly when its local year is not one from 0 to 99 |
| BusinessTime.WeeksTile | src/common/business-time.ts:35-68 | two week ranges are equal or disjoint, and equal exactly for instants of one week |
| BusinessTime.PrintsDateOnly | src/common/business-time.ts:78-86 | the printed day is a date-only value exactly for local years 1000 to 9999 |
| BusinessTime.BusinessDateBrackets | src/common/business-time.ts:103-116 | feeding the printed day back brackets the instant by its whole local day |
| BusinessTime.SameDateSameDay | src/common/business-time.ts:78-84 | two instants print one day exactly when they fall on one local day |
| BusinessTime.YesterdayMeetsToday | src/dashboard/dashboard.service.ts:30-43 | yesterday's end plus one millisecond is today's start |
| BusinessTime.MakeDayRebuilds | src/common/business-time.ts:47-57 | year, month and date of a day rebuild that day |
| BusinessTime.SplitRebuilds | src/common/business-time.ts:104-112 | a real calendar date survives conversion to a day and back |
| BusinessTime.MonthLength | src/common/business-time.ts:44-68 | the months have their calendar lengths, February by leap year |
| BusinessTime.FourCenturies | src/common/business-time.ts:44-68 | 400 years are 146097 days, and which years are leap years |
| BusinessTime.Epoch | src/common/business-time.ts:44-68 | day 0 is Thursday, 1 January 1970, and weekdays follow each other |
| BusinessTime.LocalMidnight | src/common/business-time.ts:20-34 | a local day is exactly the 24 hours from 06:00 UTC |
| BusinessTime.FolioYearIsLocalYear | src/finance/finance-agreements.snapshot.ts:57-60 | the folio year is the local year exactly for years that print with four digits |
| BusinessTime.FolioYearAdvances | src/finance/finance-agreements.snapshot.ts:57-60 | the local year never goes back as time passes |
| KeysetPages.PagesAreComplete | src/finance/finance-agreements.service.ts:686-755 | over an unchanged table asking each page with the cursor the last page gave ends, and the pages together are exactly the selected rows, newest first, each once, all full but the last |
| KeysetPages.PageAt | src/finance/work-shifts.service.ts:371-415 | what one page holds and which cursor it hands on, at any position |
| KeysetPages.BehindCursor | src/finance/work-shifts.service.ts:364-368 | behind the cursor of a row lies exactly what follows that row, even among equal dates |
| RestockCost.RoundsHalfUp | src/products/restock-cost.ts:52-60 | the average is within half a cent of the exact one, exact ties going up |
| RestockCost.StaysBetween | src/products/restock-cost.ts:52-60 | the average lies between the two costs |
| RestockCost.ResultIsInRange | src/products/restock-cost.ts:42-60 | only an argument can be refused: the range check on the result never fires |
| RestockCost.ChangesExactlyWhenKnown | src/products/restock-cost.ts:46-49 | the cost changes exactly when the purchase cost is given and the old cost, if it counts, is known |
| RestockCost.DriftIsBounded | src/products/products.service.ts:373-389 | over any run stock times cost drifts from the exact money by at most half the sum of the successive stock levels |
| RulesConfig.ParseRulesConfig | src/finance/finance-rules.config.ts:145-283 | the reader-based parser returns the specified configuration, or a list holding exactly the set of all problems |
| RulesConfig.NothingIsMissing | src/finance/finance-rules.config.ts:262-282 | an empty problem list makes every non-null assertion valid |
| RulesConfig.Reader.constructor | src/finance/finance-rules.config.ts:93-101 | every key that is not allowed is reported, and nothing else |
| RulesRoundTrip.ParsesExactlyTheEncodings | src/finance/finance-rules.config.ts:141-283 | parsing yields a configuration exactly when it is valid and the input is its encoding |
| RulesRoundTrip.SucceedsExactlyWhenWellFormed | src/finance/finance-rules.config.ts:141-283 | the inputs that parse are exactly the encodings of valid configurations |
| RulesRoundTrip.ReparsingIsIdentity | src/finance/finance-rules.config.ts:141-283 | parsing what was parsed changes nothing |
| RulesRoundTrip.PctMeans | src/finance/finance-rules.config.ts:75-82 | a percentage is accepted exactly when it lies in 0 to 100 within a millionth of some whole number of hundredths |
| RulesRoundTrip.MinorMeans | src/finance/finance-rules.config.ts:83-87 | an amount is accepted exactly when it is a whole number from 0 to the largest signed 32-bit integer |
| RulesChanges.ListsExactlyWhatChanged | src/finance/finance-rules.summary.ts:96-104 | the topics listed are exactly those whose agreed content differs, each once, in order |
| RulesChanges.NoChangesExactlyWhenEqual | src/finance/finance-rules.summary.ts:96-104 | two configurations show no change exactly when they are equal |
| RulesChanges.ParsedRulesShowEveryChange | src/finance/finance-rules.summary.ts:96-104 | for parsed configurations the list is empty exactly when the inputs are the same |
| RulesChanges.PrinterExists | src/common/canonical-json.ts:32-37 | for the numbers of any two configurations there is a printer that keeps them apart, so the three results above always speak of something |

## Left out

- HTTP controllers, guards, form validators, Swagger and CORS; only the facts the forms guarantee are preconditions (amounts of at least 1, shares that add to 10000, cash exactly for cash payments).
- Mail, Turnstile, images, passwords, tokens and the approval lifecycle: foreign calls and database functions whose bodies are not in these files.
- Row-level security and the tenant extension: one context is modelled, other contexts only as ids already taken.
- SHA-256 collisions and advisory-lock hash collisions: a digest is modelled by its text (by an injective function for the agreement document), an advisory key by the key itself.
- Foreign-key key-share locks, and the FOR SHARE reads of account, member and device that authorize an operation: an authorization failure is an abort before the first modelled statement.
- The in-process queue of agreement creations (`serialized`): the proofs hold without it, for any number of API instances.
- The simulation that creation re-runs: its available amount is the last recorded amount of the period in the snapshot; a changed simulation fingerprint is an abort.
- Contributions, expenses and reserves: the same ledger shape as work shifts with fewer rules.
- Receipts, Spanish sentences and warning lists beyond the same-day count; the change list is modelled by its topics, without the two sentences of each.
- JavaScript number printing: a number stands as the text its printer gives it, and percentages as exact reals instead of doubles; the integer conversions of BigInt amounts are exact in range.
- Locale-dependent comparison of ids: an abstract total order.
- Deadlock freedom of sales of several items: product rows are locked in request order, so there is no global order; the stock theorems hold whatever the database aborts.
- Planned instalments and the lists of debts; the person who owes is part of a debt's terms. In DebtPayments a debt and its initial payment appear in one step, because no other transaction can see them before their commit; the statements before it are those of Stock.
- Date limits of the JavaScript Date type, and years printed with a sign in the folio year.
- A retried agreement unit sleeps between attempts; the durations are not modelled, only how many pauses there are.
- Stock and AgreementSessions: their interleaved statements are modelled on values, not as classes, so update in place is captured by each transaction's own writes and the commit that publishes them.
- RestockCost.DriftIsBounded: pieces restocked without a purchase cost are not part of a run, because they add stock and no known money.
- KeysetPages.PagesAreComplete: encoding and decoding of the cursor text, and its scope check, are not modelled; the cursor is the key it carries.
