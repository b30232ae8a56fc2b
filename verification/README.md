# The rules that decide when money may move

A Dafny model of the ledger exception control plane and proofs about it. Four parts:

1. **The reliability schema.** `Schema.dfy` models the approval, adjustment, outbox, posting_attempt,
   recovery_queue and reconciliation_query tables: every CHECK in SQL's three-valued logic
   (`SqlLogic.dfy`), every unique and composite foreign key in both directions, and the triggers of the
   4.4 migration. A step inserts or updates one row. `SchemaProofs.dfy` proves the invariant,
   `RowChecks.dfy` and `Admission.dfy` say in ordinary conditions which rows are sound and which statements are
   accepted, `Evidence.dfy` what "in flight" means,
   `SchemaTheorems.dfy` the facts that span tables and runs, `Supersession.dfy` and `Adjudication.dfy` the
   exact conditions under which the documented guarantees hold, `SchemaLimits.dfy` reachable states where
   they do not. `Database.dfy` is the mutable form: each method scans the rows that could stand in the way,
   accepts exactly what `Schema.Admits` accepts, and says what its caller may rely on.
2. **Residual classification.** `Engine.dfy` has the three rules, the plain definition of "related" and
   the one-pass index that must agree with it; `EngineProofs.dfy` proves order independence, relevance
   and fee-split coherence. `Protocol.dfy` puts any number of classification and matching transactions
   side by side, one SQL statement of one of them at a time, with ingestion and crashes in between.
   `ProtocolSafety.dfy` proves the invariant, `ProtocolTheorems.dfy` what a run writes,
   `ProtocolProgress.dfy` that nobody waits forever for a row lock, `ClassificationService.dfy` the service's
   own scans, statements, insert loop and report, and a whole run with nobody else at work,
   `ClassificationLimits.dfy` a report that counts wrong.
3. **The apportionment of the synthetic corpus.** `Apportionment.dfy` has Hamilton's method and the
   coverage pass, in place on an array; the proofs are in `ApportionmentProofs.dfy` (total, coverage,
   quota) and `ApportionmentOrder.dfy` (order).
4. **Exact money, byte streams and the unsafe baseline.** `Decimals.dfy`, `Quantisation.dfy` and
   `MinorUnits.dfy` model decimals by sign, digits and exponent, `AmountText.dfy` says what their texts mean; `Framing.dfy` and `CorpusStream.dfy` the
   bytes that are hashed; `NaiveDispatch.dfy` the two retry loops for every fault schedule. `Digits.dfy`,
   `Arithmetic.dfy` and `Wrappers.dfy` hold what they share.

A run is a sequence of statements or actions from the empty state; one that is not admitted changes
nothing, so a theorem about `Run` is about every reachable state.

## Where the code and its documentation differ

The model follows the code. Each difference is a lemma.

- The migration says the interlock prevents two live resolutions of one exception. It only looks at what
  is already in flight when the newer version is inserted: an older intent that is still pending may be
  sent afterwards (`TwoLiveResolutionsAreReachable`). `StatementKeepsOneLiveIff` is the exact condition for
  every kind of statement, `RunKeepsOneLiveIff` for whole runs.
- An UPDATE of an approval is not looked at (`UpdateBypassesInterlock`); `UpdateRespectsInterlockIff` says
  which updates respect the interlock all the same.
- The interlock is documented to release when the prior ambiguity has been adjudicated. It is released by any
  closed recovery item of the operation, not by one about the current ambiguity
  (`EarlierItemReleasesLaterAmbiguity`), and it reads the outbox row, not the sends, so an ambiguous send that
  reached neither the outbox nor the recovery queue does not block (`CarefulRunReleasesUnjudged`).
  `ReleaseMeansJudgementIff` is the exact condition, by the order of statements, under which an admitted
  version finds a lower operation judged; `JudgementsAreRealIff` is about recovery items alone.
- An attempt in flight is documented as one about which nothing is known. The CHECK refuses an outcome and a
  resolution time only together, so a send in flight may carry a confirmed outcome and a posting reference
  (`HalfRecordedSendIsReachable`); `RunKeepsClearIff` is the exact condition.
- `lost_races` is documented as what another worker resolved first. A line ingested between the residual
  read and the context read is classified although it was never counted, so the number can be negative
  (`LostRacesCanBeNegative`). `LostRaces` says what it counts in every case, `LostRacesMeanIff` when that is
  what is documented.
- The allocation's order holds for the catalogue's own weights at every size from 12
  (`CatalogueCountsDecrease`) and fails for others (`OrderFailsForTenTenOne`); `AllocationKeepsOrderIff`
  is the exact condition.
- Quantising on read is canonical for what a numeric column returns (`ReadBackIsCanonical`). Of decimals in
  general it is not: `quantize` keeps the sign of a negative zero (`NegativeZeroKeepsItsSign`), which PostgreSQL
  does not have. `canonical_amount`, which also takes amounts that were never stored, drops it.
- The baseline's `None` is documented as "it never landed"; it can hide one effect for every retry
  (`NoneCanHideEveryRetry`). It is reliable exactly for a ledger that confirms every send it acts on
  (`NoneMeansNothingLandedIff`).

## Model

| member | source | states |
|---|---|---|
| SchemaProofs.StatementKeepsConsistent | src/ledger_exception_control_plane/db/control.py:558-945 | checking only the written row and the keys it touches keeps every CHECK, unique key and foreign key of every table |
| SchemaProofs.ReachableIsConsistent | src/ledger_exception_control_plane/db/control.py:558-1097 | every reachable database satisfies all constraints |
| RowChecks.ReachableRowsAreSound | src/ledger_exception_control_plane/db/control.py:558-945 | in every reachable database every row is sound in ordinary terms: an approval is an edit exactly when it names a requester, who is not its principal; a settled intent has a terminal outcome; a resolution never precedes its send; a closed item is fully recorded and not by its approver; a query found something exactly when it names it |
| RowChecks.ApprovalChecksIff | src/ledger_exception_control_plane/db/control.py:572-597 | the three-valued CHECKs of an approval pass exactly the sound ones |
| RowChecks.AttemptChecksIff | src/ledger_exception_control_plane/db/control.py:822-846 | the three-valued CHECKs of an attempt pass exactly the sound ones; in particular a posting reference needs an outcome that says something was applied |
| RowChecks.OutboxChecksIff | src/ledger_exception_control_plane/db/control.py:727-747 | the CHECKs of an intent pass exactly the sound ones |
| RowChecks.RecoveryChecksIff | src/ledger_exception_control_plane/db/control.py:1063-1082 | the CHECKs of a recovery item pass exactly the sound ones |
| RowChecks.QueryChecksIff | src/ledger_exception_control_plane/db/control.py:930-944 | the CHECKs of a query pass exactly the sound ones |
| RowChecks.AdjustmentChecksIff | src/ledger_exception_control_plane/db/control.py:675-686 | the CHECKs of an adjustment pass exactly those with two digests and a treatment other than escalate |
| RowChecks.AttemptEvidence | src/ledger_exception_control_plane/db/control.py:822-846 | in every reachable database a posting reference means the outcome is confirmed or partially applied, a resolved attempt has outcome and time, and no resolution precedes its send |
| Admission.ExceptionAdmittedIff | src/ledger_exception_control_plane/db/control.py:306-334 | an exception row is inserted if and only if its key is new |
| Admission.DecisionAdmittedIff | src/ledger_exception_control_plane/db/control.py:558-598 | an approval is inserted if and only if it is sound, its version and token are new, its exception exists, and every operation below its version is released |
| Admission.RevisionAdmittedIff | src/ledger_exception_control_plane/db/control.py:558-598 | an approval is updated if and only if it stays sound and new, and keeps treatment and principal once an adjustment was built on it |
| Admission.AdjustmentAdmittedIff | src/ledger_exception_control_plane/db/control.py:651-690 | an adjustment is inserted if and only if it is sound, its decision said its treatment by its principal, and no other carries the decision out or has its operation identifier |
| Admission.AdjustmentRevisedIff | src/ledger_exception_control_plane/db/control.py:651-690 | it is updated if and only if that holds and it keeps its operation identifier once sent or asked about, and its principal once in recovery |
| Admission.IntentAdmittedIff | src/ledger_exception_control_plane/db/control.py:724-755 | an intent is inserted if and only if it is sound and the only one of an existing adjustment |
| Admission.IntentMovedIff | migrations/versions/20260906_1500-b7e2f8c14a06_unknown_monotonicity_and_reconciliation.py:223-259 | it is updated if and only if that holds, a terminal outcome stays, and settled stays settled |
| Admission.AttemptAdmittedIff | src/ledger_exception_control_plane/db/control.py:806-846 | an attempt is inserted if and only if it is sound, carries its adjustment's operation identifier, and its number is new there |
| Admission.AttemptResolvedIff | migrations/versions/20260906_1500-b7e2f8c14a06_unknown_monotonicity_and_reconciliation.py:176-222 | it is updated if and only if it stays sound with the same identity and send time, keeps a recorded outcome, and stays resolved |
| Admission.ItemAdmittedIff | src/ledger_exception_control_plane/db/control.py:1055-1090 | a recovery item is written if and only if it is sound, names its adjustment's approver, and no other open item of the adjustment exists where it is open |
| Admission.QueryAdmittedIff | src/ledger_exception_control_plane/db/control.py:919-947 | a query is appended if and only if it is sound, carries its adjustment's operation identifier, and its number is new there; no query is ever changed |
| Evidence.RunKeepsClearIff | src/ledger_exception_control_plane/db/control.py:828-834 | along a run "in flight" means no outcome and no resolution time, as documented, if and only if every accepted write of an attempt records an outcome and its time together or not at all |
| Evidence.ReferenceMeansResolved | src/ledger_exception_control_plane/db/control.py:838-846 | where that holds a posting reference belongs to a resolved attempt |
| SchemaTheorems.AttemptTracesToOneDecision | src/ledger_exception_control_plane/db/control.py:651-690 | in every reachable state an attempt names exactly one adjustment, that adjustment exactly one approved or edited decision with the same non-escalate treatment; an edit was asked for by someone other than its principal |
| SchemaTheorems.SameResolutionIffSameOperation | src/ledger_exception_control_plane/db/control.py:806-821 | two attempts carry the same operation identifier if and only if they carry out the same resolution version of the same exception |
| SchemaTheorems.BlockingRowExact | migrations/versions/20260906_1500-b7e2f8c14a06_unknown_monotonicity_and_reconciliation.py:272-295 | the trigger's joined query returns a row for an adjustment exactly when it is a lower-version operation that is in flight, open in recovery, or undetermined with no recovery item |
| SchemaTheorems.AnyClosedItemIsAnothers | src/ledger_exception_control_plane/db/control.py:1055-1082 | a closed recovery item is fully recorded and, through the key chain to the approval, was not closed by the approving principal |
| SchemaTheorems.InterlockExact | migrations/versions/20260906_1500-b7e2f8c14a06_unknown_monotonicity_and_reconciliation.py:264-319 | the interlock lets a version through if and only if every lower-version operation of the exception is released: not in flight, not open in recovery, and any ambiguous outcome closed by someone other than its approver |
| SchemaTheorems.SupersessionInterlock | migrations/versions/20260906_1500-b7e2f8c14a06_unknown_monotonicity_and_reconciliation.py:264-319 | after any admitted resolution version every lower-version operation of its exception is released |
| SchemaTheorems.RunEvolves | migrations/versions/20260906_1500-b7e2f8c14a06_unknown_monotonicity_and_reconciliation.py:148-257 | between any two states of any run: attempt identity, send time and recorded outcome are final, resolved stays resolved, terminal outcomes and settled rows stay, queries never change, an attempted adjustment keeps its operation identifier |
| SchemaTheorems.OutcomeMovesAtMostOnce | migrations/versions/20260906_1500-b7e2f8c14a06_unknown_monotonicity_and_reconciliation.py:176-219 | along any run an attempt's outcome changes at most once, and only away from NULL |
| SchemaTheorems.OlderSendIsYoungerThanNewerApproval | migrations/versions/20260906_1500-b7e2f8c14a06_unknown_monotonicity_and_reconciliation.py:264-319 | an older version's send that is in flight after a newer version was admitted was made after that admission |
| Supersession.StatementKeepsOneLiveIff | migrations/versions/20260906_1500-b7e2f8c14a06_unknown_monotonicity_and_reconciliation.py:264-319 | any accepted statement keeps at most one live operation of an exception if and only if an operation it brings in, by a send or by moving a decision or an adjustment, finds no other one in flight |
| Supersession.RunKeepsOneLiveIff | migrations/versions/20260906_1500-b7e2f8c14a06_unknown_monotonicity_and_reconciliation.py:26-30 | two resolutions of an exception are never live at once along a run if and only if every accepted statement of the run met that condition |
| Supersession.UpdateRespectsInterlockIff | migrations/versions/20260906_1500-b7e2f8c14a06_unknown_monotonicity_and_reconciliation.py:264-319 | an accepted update of an approval leaves every operation below its version released if and only if the other operations below that version were released before it |
| Supersession.UpdateLeavesInterlockSilentIff | migrations/versions/20260906_1500-b7e2f8c14a06_unknown_monotonicity_and_reconciliation.py:264-319 | the interlock, asked again after the update, would be silent exactly under that condition |
| Adjudication.JudgementsAreRealIff | migrations/versions/20260906_1500-b7e2f8c14a06_unknown_monotonicity_and_reconciliation.py:287-293 | along a run, an operation that looks judged to the interlock's last test (items, all closed) has had every ambiguous send followed by the closing of an item, if and only if no ambiguity was recorded while all its items were closed and no move of an item made the look false |
| Adjudication.WithoutMovesIff | migrations/versions/20260906_1500-b7e2f8c14a06_unknown_monotonicity_and_reconciliation.py:287-293 | where no accepted statement moves an item between operations, the condition is only that no ambiguity is recorded on an operation whose items are all closed |
| Adjudication.ReleaseMeansJudgementIff | migrations/versions/20260906_1500-b7e2f8c14a06_unknown_monotonicity_and_reconciliation.py:32-38 | at an admitted version of a run that recorded with care and moved no item, every ambiguous send of a lower operation was followed by the closing of an item if and only if the operation has no ambiguous send or has a recovery item |
| Adjudication.ItemMeansJudged | migrations/versions/20260906_1500-b7e2f8c14a06_unknown_monotonicity_and_reconciliation.py:264-319 | that half holds with moves too: at an admitted version of a careful run a lower operation whose ambiguous sends left it an item is judged |
| Adjudication.AmbiguousSendIffRecorded | migrations/versions/20260906_1500-b7e2f8c14a06_unknown_monotonicity_and_reconciliation.py:176-222 | the attempts show an ambiguous send of an operation exactly when the run ever recorded one |
| Adjudication.LooksJudgedReleases | migrations/versions/20260906_1500-b7e2f8c14a06_unknown_monotonicity_and_reconciliation.py:287-293 | an operation whose items are all closed is released exactly when no send of it is in flight, whatever its outcome |
| SchemaLimits.TwoLiveResolutionsAreReachable | migrations/versions/20260906_1500-b7e2f8c14a06_unknown_monotonicity_and_reconciliation.py:26-30 | a reachable state with two live resolutions of one exception |
| SchemaLimits.EarlierItemReleasesLaterAmbiguity | migrations/versions/20260906_1500-b7e2f8c14a06_unknown_monotonicity_and_reconciliation.py:287-293 | a reachable state in which an item closed for an earlier send releases a later ambiguous one that nobody judged |
| SchemaLimits.CarefulRunReleasesUnjudged | migrations/versions/20260906_1500-b7e2f8c14a06_unknown_monotonicity_and_reconciliation.py:287-293 | a careful run of six statements whose ambiguous send reached neither the intent nor the recovery queue is superseded unjudged |
| SchemaLimits.UpdateBypassesInterlock | migrations/versions/20260906_1500-b7e2f8c14a06_unknown_monotonicity_and_reconciliation.py:313-317 | a reachable state in which an approval is moved by UPDATE to a version the interlock refuses on INSERT |
| SchemaLimits.HalfRecordedSendIsReachable | src/ledger_exception_control_plane/db/control.py:828-834 | a reachable send that is in flight by its state and yet carries a confirmed outcome and a posting reference |
| SchemaLimits.UnguardedSettledCheckAdmitsNull | src/ledger_exception_control_plane/db/control.py:733-747 | without IS NOT NULL a settled row with no outcome passes the CHECK; with it the row is refused |
| Database.Database.BlockingOperation | migrations/versions/20260906_1500-b7e2f8c14a06_unknown_monotonicity_and_reconciliation.py:272-305 | finds a blocking operation if and only if the interlock raises |
| Database.BlockingShutsOut | migrations/versions/20260906_1500-b7e2f8c14a06_unknown_monotonicity_and_reconciliation.py:276-295 | while a send is in flight or a recovery item is open, every newer version of the exception is refused |
| Database.Database.RecordDecision | src/ledger_exception_control_plane/db/control.py:558-598 | inserts an approval exactly when admitted, the trigger's loop first; what it admits is sound, an edit never approved by its own requester, and afterwards every operation below its version is released |
| Database.Database.ReviseDecision | src/ledger_exception_control_plane/db/control.py:558-598 | an accepted update keeps every adjustment authorised, and respects the interlock exactly when the other operations below its version were released |
| Database.Database.RecordAdjustment | src/ledger_exception_control_plane/db/control.py:651-690 | a recorded adjustment is the only one of an approved or edited decision for its own non-escalate treatment and principal |
| Database.Database.ReviseAdjustment | src/ledger_exception_control_plane/db/control.py:651-690 | after any revision the adjustment is authorised and every send still carries its adjustment's operation identifier |
| Database.Database.WriteIntent | src/ledger_exception_control_plane/db/control.py:724-755 | a written intent is the only one of its operation and settled only with a terminal outcome |
| Database.Database.MoveIntent | migrations/versions/20260906_1500-b7e2f8c14a06_unknown_monotonicity_and_reconciliation.py:223-259 | an accepted move leaves every terminal outcome and every settled row as it was, in all intents |
| Database.Database.WriteAttempt | src/ledger_exception_control_plane/db/control.py:806-854 | a written attempt is sound and belongs to an authorised adjustment, and in flight it shuts out every newer version of its exception |
| Database.Database.ResolveAttempt | migrations/versions/20260906_1500-b7e2f8c14a06_unknown_monotonicity_and_reconciliation.py:176-222 | the row stays sound, and identity, send time and recorded outcome of every attempt survive; the scan of the other rows is unnecessary because the trigger fixes the keys |
| Database.Database.OpenItem | src/ledger_exception_control_plane/db/control.py:1055-1097 | an opened item shuts out every newer version of its exception; one recorded closed was closed by someone other than the approver |
| Database.Database.MoveItem | src/ledger_exception_control_plane/db/control.py:1055-1097 | the same of an item that is closed, reopened or moved to another operation |
| Database.Database.AppendQuery | src/ledger_exception_control_plane/db/control.py:919-947 | every earlier query stays as it was, and no other query of the operation has the new one's number |
| Engine.BuildIndex | src/ledger_exception_control_plane/classification/engine.py:228-256 | the keyed, deduplicated index holds for every order the first occurrences of that order's records, in order |
| Engine.Relate | src/ledger_exception_control_plane/classification/engine.py:228-256 | reading the index gives every subject exactly the plain definition of its related movements |
| Engine.Classify | src/ledger_exception_control_plane/classification/engine.py:259-297 | one classification a subject, in subject order, each decided on context and subjects together |
| EngineProofs.ClassifiedMeans | src/ledger_exception_control_plane/classification/engine.py:259-297 | each result is its subject's own id with fee_split, chargeback_reversal, cross_period_refund or unclassified, according to what explains it among context and subjects |
| EngineProofs.RelatedMeans | src/ledger_exception_control_plane/classification/engine.py:228-256 | a movement is related to a subject if and only if it is the first record of another id with the same non-null reference and the same currency |
| EngineProofs.DecisionIgnoresOrder | src/ledger_exception_control_plane/classification/engine.py:92-127 | when records sharing an id are equal, permuting or repeating the context changes no decision |
| EngineProofs.ClassificationIgnoresOrder | src/ledger_exception_control_plane/classification/engine.py:259-297 | permuting subjects and rearranging or repeating the context only permutes the output |
| EngineProofs.OrderMattersWithConflictingRecords | src/ledger_exception_control_plane/classification/engine.py:228-256 | the proviso is needed: with two different records under one id the first wins |
| EngineProofs.UnrelatedRecordChangesNothing | src/ledger_exception_control_plane/classification/engine.py:228-256 | a record of another order, or of none, changes no decision wherever it is inserted |
| EngineProofs.WinnerFires | src/ledger_exception_control_plane/classification/engine.py:259-297 | the recorded rule is one that fired; no rule is recorded only when none fired |
| EngineProofs.SameUnreconciledGroup | src/ledger_exception_control_plane/classification/engine.py:125-127 | any two unmatched subjects of one order read the same unreconciled group |
| EngineProofs.FeeSplitCoherence | src/ledger_exception_control_plane/classification/engine.py:181-213 | unmatched captures and fees of one order without a booked offset get the same verdict, fee_split exactly when their group splits |
| EngineProofs.FeeSplitIff | src/ledger_exception_control_plane/classification/engine.py:181-213 | a verdict is fee_split if and only if the subject is a capture or fee that no booked movement of its order exactly reverses, and the order's unreconciled deductions are positive and total less than one of its unreconciled captures |
| EngineProofs.ChargebackReversedIff | src/ledger_exception_control_plane/classification/engine.py:130-153 | a verdict is chargeback_reversal if and only if a positive reversal line has exactly one booked chargeback of its order that it exactly reverses |
| EngineProofs.CrossPeriodRefundIff | src/ledger_exception_control_plane/classification/engine.py:156-178 | a verdict is cross_period_refund if and only if a negative refund line has exactly one booked capture of its order that it exactly reverses, in another calendar month |
| EngineProofs.UnclassifiedIff | src/ledger_exception_control_plane/classification/taxonomy.py:101-143 | partial_capture and fx_rounding are never assigned, and a line is unclassified if and only if none of the three explanations holds |
| EngineProofs.RuleNamesClass | src/ledger_exception_control_plane/classification/taxonomy.py:101-143 | the recorded rule and the class determine each other |
| EngineProofs.DeductionsAddUp | src/ledger_exception_control_plane/classification/engine.py:181-213 | a group's deductions add up record by record, a negative fee counting its amount and anything else nothing |
| EngineProofs.GroupIsUnmatchedOrder | src/ledger_exception_control_plane/classification/engine.py:125-127 | the unreconciled group is every unmatched record of the subject's order, once each |
| EngineProofs.MovementTypeIff | src/ledger_exception_control_plane/classification/taxonomy.py:47-83 | a declared type is recognised if and only if it is one of the six spellings, letter for letter |
| ProtocolSafety.RunKeepsSafe | src/ledger_exception_control_plane/classification/service.py:115-138 | every interleaving keeps the invariant: claims disjoint, locks exclusive and in order, what was re-read under locks still true |
| ProtocolSafety.CreatedExactly | src/ledger_exception_control_plane/classification/service.py:281-324 | inserting the decisions writes exceptions for exactly the eligible lines the run pinned |
| ProtocolTheorems.NoLineMatchedAndExcepted | src/ledger_exception_control_plane/db/control.py:360-379 | in every interleaving no line is both matched and claimed by an exception, no row is locked twice, an ended transaction holds nothing, and the composite key never refuses a transaction |
| ProtocolTheorems.CommitWritesCurrentVerdicts | src/ledger_exception_control_plane/classification/service.py:115-138 | a commit adds exceptions for exactly the eligible pinned lines, each the verdict of the match states committed at that moment restricted to the pinned lines, and changes nothing else |
| ProtocolTheorems.EveryExceptionHasItsCommit | src/ledger_exception_control_plane/classification/service.py:115-138 | in every reachable state each exception was written by a commit of the run that had pinned its line, and carries the verdict of that moment's pinned rows |
| ProtocolTheorems.ExceptionClassMeans | src/ledger_exception_control_plane/classification/service.py:281-324 | in every reachable state each exception's class is the one its line's explanation among the rows then pinned gives, unclassified exactly when there is none |
| ProtocolTheorems.MatcherCommitMatches | src/ledger_exception_control_plane/classification/service.py:19-26 | a matching transaction matches exactly its locked proposals that still had their entry, carry no exception and were unmatched, and changes nothing else |
| ClassificationLimits.LineCanBeMatched | src/ledger_exception_control_plane/classification/service.py:19-26 | a line is matched in a reachable state |
| ProtocolTheorems.PinnedWorldDecides | src/ledger_exception_control_plane/classification/service.py:130-137 | the two lists the run reads decide as all its pinned rows do |
| ProtocolTheorems.FeeSplitHasItsCapture | src/ledger_exception_control_plane/classification/service.py:28-34 | when a fee split is written, its order still has an unmatched, pinned capture larger than the order's unreconciled deductions |
| ProtocolTheorems.CommitIsCoherent | src/ledger_exception_control_plane/classification/service.py:115-138 | captures and fees of one order that no booked pinned row exactly reverses are written with one verdict by one commit |
| ProtocolTheorems.DecisionNeedsOnlyItsOrder | src/ledger_exception_control_plane/classification/service.py:233-278 | two contexts that agree on the subject's own order give the same verdict |
| ProtocolTheorems.RunEvolves | src/ledger_exception_control_plane/classification/service.py:281-324 | along any run a match is never undone, an exception never changes, a transaction keeps its snapshot and what it set out to pin |
| ProtocolTheorems.PinsWholeOrders | src/ledger_exception_control_plane/classification/service.py:154-171 | a row of a pinned line's order that is not pinned at commit was ingested after the context read |
| ProtocolTheorems.VerdictOfTheWholeDatabase | src/ledger_exception_control_plane/classification/service.py:154-171 | when nothing of the line's order was ingested in between, the verdict written is the one the whole committed database gives |
| ProtocolTheorems.WhatIsLeft | src/ledger_exception_control_plane/classification/service.py:102-103 | after a commit exactly the residuals that were not pinned remain; a second run finds nothing if and only if all were pinned |
| ProtocolTheorems.LostRaces | src/ledger_exception_control_plane/classification/service.py:67-77 | residuals minus created is the snapshot lines others resolved first, minus the lines classified without having been in the snapshot; so it means what is documented if and only if every line created was in the snapshot |
| ProtocolTheorems.LostRacesMeanIff | src/ledger_exception_control_plane/classification/service.py:67-77 | lost_races is the snapshot lines others resolved first if and only if no line the snapshot had missed was eligible on one of its orders at the context read and still is at the commit |
| ProtocolTheorems.LostRacesMeanWithoutArrivals | src/ledger_exception_control_plane/classification/service.py:67-77 | it is enough that nothing of the snapshot's orders is ingested between the two reads |
| ProtocolTheorems.LatecomersArrivedLate | src/ledger_exception_control_plane/classification/service.py:115-138 | an eligible line that the snapshot or the locks missed was ingested after the snapshot |
| ClassificationLimits.LostRacesCanBeNegative | src/ledger_exception_control_plane/classification/service.py:67-77 | a reachable run whose lost_races is -1 |
| ProtocolProgress.WaitingClimbs | src/ledger_exception_control_plane/classification/service.py:120-128 | along any chain of transactions waiting for row locks the requested row only grows, so such waiting is never circular |
| ProtocolProgress.NoDeadlock | src/ledger_exception_control_plane/classification/service.py:154-171 | in every reachable state, whenever a transaction waits for a row lock another one can step |
| ProtocolProgress.EveryScheduleFinishes | src/ledger_exception_control_plane/classification/service.py:115-138 | with row locks the only waits, any schedule of the transactions in progress is bounded and stuck only when all have ended |
| ClassificationService.Service.ScanResiduals | src/ledger_exception_control_plane/classification/service.py:174-230 | a scan of the lines in id order keeps exactly the eligible ones, each with its committed columns |
| ClassificationService.Service.ScanContext | src/ledger_exception_control_plane/classification/service.py:233-278 | collecting the references first, the scan keeps exactly the parsed lines that share one with a residual |
| ClassificationService.Service.TakeSnapshot | src/ledger_exception_control_plane/classification/service.py:116-118 | the snapshot's ids are exactly the eligible lines; the run ends at once exactly when there is none |
| ClassificationService.Service.WidenToContext | src/ledger_exception_control_plane/classification/service.py:124-128 | the rows to pin include the snapshot and, of every row in them, the whole order as committed then |
| ClassificationService.Service.LockNext | src/ledger_exception_control_plane/classification/service.py:154-171 | a scan of the other transactions grants the least missing row exactly when none holds it, and locks stay exclusive |
| ClassificationService.Service.Relist | src/ledger_exception_control_plane/classification/service.py:130-134 | the residuals read again are exactly the pinned lines still eligible |
| ClassificationService.Service.ReadContext | src/ledger_exception_control_plane/classification/service.py:135-135 | deciding on the residuals and context read is deciding on all the pinned rows |
| ClassificationService.Service.Persist | src/ledger_exception_control_plane/classification/service.py:281-324 | the insert loop with ON CONFLICT DO NOTHING: the resulting table, and the created set as exactly what it gained |
| ClassificationService.Service.Commit | src/ledger_exception_control_plane/classification/service.py:137-151 | never refused by the foreign key; reports exactly the snapshot, created and lost numbers, and for each class the number of lines it created whose exception in the resulting table carries it |
| ClassificationService.Service.RunClassification | src/ledger_exception_control_plane/classification/service.py:81-151 | a whole run with nobody else at work raises exactly one exception for each eligible line with the whole database's verdict, touches nothing else, loses no race, reports for each class the number of those lines whose exception in the table carries it, and leaves nothing for a second run |
| ClassificationService.ByClassification | src/ledger_exception_control_plane/classification/service.py:140-144 | the counter loop computes, for each class, the number of written decisions that carry it |
| ClassificationService.TallyCountsTable | src/ledger_exception_control_plane/classification/service.py:140-144 | the tally of a class is a count over the table: the lines gained whose exception carries it |
| ClassificationService.ReportAddsUp | src/ledger_exception_control_plane/classification/service.py:140-151 | the per-class counts add up to the number of exceptions created |
| Apportionment.InstanceCounts | src/ledger_exception_control_plane/fixtures/generator.py:87-164 | the whole function on an array in place: one each for the canonical profile, an error below one instance an entry, the allocation otherwise |
| Apportionment.AddUnits | src/ledger_exception_control_plane/fixtures/generator.py:141-150 | the remainder loop gives one unit to each position of the leading slice |
| Apportionment.Cover | src/ledger_exception_control_plane/fixtures/generator.py:159-163 | the coverage loop, reading the list it changes, computes the stepwise definition |
| ApportionmentProofs.LeftoverBounds | src/ledger_exception_control_plane/fixtures/generator.py:138-150 | fewer units are left over than there are entries |
| ApportionmentProofs.HamiltonTotal | src/ledger_exception_control_plane/fixtures/generator.py:138-150 | the first pass hands out exactly the size, one unit or none above each floor |
| ApportionmentProofs.UnitsGoByRank | src/ledger_exception_control_plane/fixtures/generator.py:141-150 | a unit goes by larger remainder, then by earlier position |
| ApportionmentProofs.HamiltonQuota | src/ledger_exception_control_plane/fixtures/generator.py:107-128 | every first-pass count is strictly within one of its exact share, and equal to it where the remainder is zero |
| ApportionmentProofs.HamiltonKeepsOrder | src/ledger_exception_control_plane/fixtures/generator.py:141-150 | weakly decreasing weights give weakly decreasing first-pass counts |
| ApportionmentProofs.CoverageLedger | src/ledger_exception_control_plane/fixtures/generator.py:152-163 | after every visit the total is unchanged, what donors gave is what was raised from zero, and no donor or visited position is empty |
| ApportionmentProofs.AllocationTotalAndCoverage | src/ledger_exception_control_plane/fixtures/generator.py:138-164 | for any positive weights and any size of at least the number of entries, the counts total exactly the size and each is at least one |
| ApportionmentProofs.AllocationQuota | src/ledger_exception_control_plane/fixtures/generator.py:107-128 | every position that does not donate ends strictly within one of its exact share; donors lose exactly one unit for each raised position |
| ApportionmentProofs.LargeSizesAreExactHamilton | src/ledger_exception_control_plane/fixtures/generator.py:107-128 | from the total weight on the coverage pass never acts; at its multiples every count is the exact share |
| ApportionmentOrder.CoverageKeepsOrderIff | src/ledger_exception_control_plane/fixtures/generator.py:152-163 | the coverage pass keeps decreasing counts decreasing if and only if the zeros to fill equal what stands above some level |
| ApportionmentOrder.AllocationKeepsOrderIff | src/ledger_exception_control_plane/fixtures/generator.py:109-111 | the exact condition for the whole allocation to keep the weights' order |
| ApportionmentOrder.OrderFailsForTenTenOne | src/ledger_exception_control_plane/fixtures/generator.py:138-164 | weights (10, 10, 1) at size 6 give (2, 3, 1) |
| ApportionmentOrder.CatalogueCountsDecrease | src/ledger_exception_control_plane/fixtures/catalogue.py:741-775 | for the catalogue's weights and every size of at least 12 the counts are weakly decreasing |
| ApportionmentOrder.OnlyDominantBucketGives | src/ledger_exception_control_plane/fixtures/generator.py:118-123 | for the catalogue's weights and every size of at least 12 the first bucket absorbs the whole adjustment and every other bucket ends strictly within one of its exact share |
| Decimals.ScaleTestIsIntegrality | src/ledger_exception_control_plane/db/base.py:124-149 | the digit-slice test holds for a finite decimal if and only if ten thousand times its value is an integer, also when the excess is longer than the digits |
| Decimals.ScaleTestIsTruncation | src/ledger_exception_control_plane/db/base.py:170-189 | it agrees with the column's rule trunc(v, 4) = v |
| Decimals.ScaleTestIgnoresSpelling | src/ledger_exception_control_plane/db/base.py:124-149 | equal values pass or fail alike, however spelled |
| Quantisation.QuantizeLosslessIff | src/ledger_exception_control_plane/db/base.py:116-121 | reading back preserves the value if and only if the value is within scale |
| Quantisation.ReadBackIsCanonical | src/ledger_exception_control_plane/db/base.py:116-121 | for amounts a numeric column returns the read-back always succeeds, loses nothing, and is the identical representation if and only if the amounts are equal |
| Quantisation.QuantizeCanonicalIff | src/ledger_exception_control_plane/db/base.py:116-121 | of any decimals within scale, quantize gives identical results if and only if they are equal, zeros of opposite sign excepted |
| Quantisation.QuantizeRounds | src/ledger_exception_control_plane/db/base.py:116-121 | quantize rounds to a nearest number of ten-thousandths, ties to even, keeps the sign, and fails exactly beyond 28 digits |
| Quantisation.NegativeZeroKeepsItsSign | src/ledger_exception_control_plane/db/base.py:116-121 | quantize keeps the sign of a negative zero, an input a numeric column never returns |
| Quantisation.StoredAmountsReadBack | src/ledger_exception_control_plane/db/base.py:192-203 | every amount the column admits fits the context precision the read-back needs |
| Quantisation.CanonicalAmountIff | src/ledger_exception_control_plane/operations/identity.py:120-184 | two storable amounts have the same canonical text if and only if they are equal |
| AmountText.CanonicalAmountReads | src/ledger_exception_control_plane/operations/identity.py:120-184 | the hashed text read back is a decimal with exactly four places and the amount's value; a zero has no sign |
| AmountText.CanonicalAmountExistsIff | src/ledger_exception_control_plane/operations/identity.py:143-158 | an amount has such a text if and only if it is finite, a whole number of ten-thousandths and below the magnitude bound |
| AmountText.RenderedMeans | src/ledger_exception_control_plane/fixtures/money.py:52-74 | the text of minor units is a sign exactly for negative units, a whole part without superfluous zeros, a point and exactly the currency's digits, which together spell the units |
| AmountText.PlainTextReads | src/ledger_exception_control_plane/fixtures/money.py:77-85 | any decimal with a non-positive exponent that is not tiny is written plain and reads back as the same decimal |
| AmountText.ScientificNotation | src/ledger_exception_control_plane/fixtures/money.py:77-85 | every other decimal is written as its mantissa and the power of ten of its first digit |
| AmountText.MantissaOfNumber | src/ledger_exception_control_plane/fixtures/money.py:77-85 | that mantissa reads back as the digits with all but the first after the point |
| AmountText.MinusTwelveThousand | src/ledger_exception_control_plane/fixtures/money.py:52-58 | the documented examples, -123.45 in euro and -12345 in yen |
| AmountText.TwelveAndAHalf | src/ledger_exception_control_plane/operations/identity.py:181-184 | 12.5 is hashed as 12.5000 |
| AmountText.IntegerTexts | src/ledger_exception_control_plane/operations/identity.py:300-303 | zero, a positive and a negative integer as their text |
| AmountText.DigitCharacters | src/ledger_exception_control_plane/fixtures/money.py:64-70 | each digit is written with its own character |
| MinorUnits.MakeIsExact | src/ledger_exception_control_plane/fixtures/money.py:52-74 | for every integer and every digit count, construction refuses exactly the too precise and the too large, and otherwise denotes exactly units / 10^digits |
| MinorUnits.MinorUnitsRoundTrip | src/ledger_exception_control_plane/fixtures/money.py:77-85 | a constructed amount passes the scale test, renders to the text it was built from, and re-reading recovers the units and the scale |
| MinorUnits.RenderInjective | src/ledger_exception_control_plane/fixtures/money.py:77-85 | two constructed amounts render alike only when units and scale agree |
| Framing.FeedDraw | src/ledger_exception_control_plane/fixtures/determinism.py:54-67 | the hashing loop feeds the tag and the framed domain, seed and label, or fails on a length past its prefix |
| Framing.DrawStreamInjective | src/ledger_exception_control_plane/fixtures/determinism.py:54-67 | a draw's bytes determine its domain, seed and label |
| Framing.OperationStreamInjective | src/ledger_exception_control_plane/operations/identity.py:285-304 | an operation identifier's bytes determine exception, version and payload hash |
| Framing.DecodeOperationOfStream | src/ledger_exception_control_plane/operations/identity.py:285-304 | an identifier's bytes exist exactly for a version of at least one and a well-formed hash that fit, begin with the operation tag, and read back as exception, version and hash in that order |
| Framing.DecodeInstruction | src/ledger_exception_control_plane/operations/identity.py:272-282 | an instruction's bytes begin with its own tag and read back as its parts in order |
| Framing.BigEndian | src/ledger_exception_control_plane/operations/identity.py:187-195 | a length prefix is big-endian, byte by byte |
| Framing.TagTexts | src/ledger_exception_control_plane/operations/identity.py:67-76 | the domain tags, character for character |
| Framing.AsciiIs | src/ledger_exception_control_plane/fixtures/determinism.py:61-66 | the characters of a seed, a version or a tag are their own bytes |
| Framing.StreamsNeverCoincide | src/ledger_exception_control_plane/operations/identity.py:67-76 | a draw, an operation and an instruction never hash the same bytes |
| CorpusStream.FeedCorpus | src/ledger_exception_control_plane/fixtures/serialise.py:116-129 | the loop in sorted path order feeds the corpus stream, or fails exactly when a length does not fit its prefix |
| CorpusStream.DecodeOfStream | src/ledger_exception_control_plane/fixtures/serialise.py:116-129 | a decoder recovers the whole path-to-payload map from the stream |
| CorpusStream.LessIff | src/ledger_exception_control_plane/fixtures/serialise.py:116-129 | path order is dictionary order: a proper prefix comes first, otherwise the smaller byte at the first difference |
| CorpusStream.StreamIsInPathOrder | src/ledger_exception_control_plane/fixtures/serialise.py:116-129 | read entry by entry the stream has exactly the corpus's paths in strictly ascending order |
| CorpusStream.StreamInjective | src/ledger_exception_control_plane/fixtures/serialise.py:116-129 | two corpora feed the same bytes only if they are the same corpus |
| NaiveDispatch.Dispatch | naive/pipeline.py:213-269 | the fresh-key loop sends up to and including the first confirmation, returns its reference and updates the rows only then |
| NaiveDispatch.DispatchWithAStableKey | naive/pipeline.py:272-320 | the same loop under one key |
| NaiveDispatch.FreshKeysSuppressNothing | naive/pipeline.py:244-269 | with identifiers that never repeat the ledger applies exactly the sends that commit, whatever it enforces |
| NaiveDispatch.StableKeyAppliesOnce | naive/pipeline.py:299-320 | against a ledger that enforces keys at most one effect, and one if and only if some send commits |
| NaiveDispatch.StableKeyUnenforced | naive/pipeline.py:299-320 | against one that does not, a stable key saves nothing |
| NaiveDispatch.FreshKeyDoublePostsIff | naive/pipeline.py:244-269 | a double posting happens if and only if two sends commit with no confirmation before the second |
| NaiveDispatch.NoneMeansNothingLandedIff | naive/pipeline.py:221-221 | for a ledger known by the faults it may show, None means nothing landed under every schedule and retry bound if and only if the ledger confirms every send it acts on; the same for fresh keys and for a new stable key |
| NaiveDispatch.NoneCanHideEveryRetry | naive/pipeline.py:221-221 | for every retry bound some schedule returns None with one effect for every retry |

## Left out

- Database.Database.constructor, ClassificationService.Service.constructor: the empty tables; no row of their own.
- RaiseException: only the key of an exception row is modelled in the schema part; its settlement line, verdict and uniqueness are in the classification part.
- Primary-key updates, deletes and TRUNCATE: statements insert or update one row in place; the append-only tables' delete triggers are not stated.
- Columns without a part in these rules: amounts, currency, period and account mapping of an adjustment, endpoints, created_at, free text, actor notes, the dead-letter and audit tables.
- MVCC: each statement reads the latest committed state, as READ COMMITTED gives under the row locks taken; the triggers' own races with concurrent inserts, deferrable keys and multi-table statements are not modelled.
- The matcher's rules: a matching transaction proposes any lines and commits any part of them; its locking, re-check and conditional write are modelled, its choice is not. The ledger entry's own uniqueness appears only as which proposals were still free.
- NoDeadlock: waits on unique keys are not modelled. Two matchers of different batches whose proposals cross
  on ledger entries can wait for each other's uncommitted match results.
- EveryScheduleFinishes: the same; only row locks make a transaction wait.
- Deadlock detection, lock timeouts and connection loss: a transaction may roll back at any point.
- Batches: a line carries its batch and whether that batch parsed; a batch's status does not change after its lines arrive.
- correlation_id_for, the exception's provenance columns and the classifier version string.
- AccountingPeriod: the month is the pair of year and month rather than its text.
- SHA-256, UTF-8, UUIDs, the CSV and JSON writers: the proofs are about the bytes and values given to them, strings of components being given as bytes.
- ParseDecimal: exponents, infinities and underscores in numerals; the texts read here have none. Render's scientific texts are read back by mantissa, since the parser stops at an exponent.
- Decimal's context rounding in `sum`: the amounts of one order are added exactly.
- InstructionStream: the labels and canonical text of each instruction component; only the framing of the parts is modelled.
- The dispatcher, the retry and reconciliation services, the ledger adapters, roles, HTTP, audit, the frontend, the demo and the language-model proposals.
