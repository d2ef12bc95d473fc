# Replay-safe apply engines and their control plane

This project models the part of the data framework on which correctness under retries rests, and proves what
it is meant to guarantee.

* **CDC.** `CdcCapture` normalises a redelivered event stream; `CdcCurrentState` and `CdcScd2` are the two apply
  engines; `CheckpointStore` holds the progress and `CdcLog` the attempts over a log. `CdcReplay` and `CdcConvergence`
  show exactly-once effects over at-least-once delivery for the current table, `CdcTimeline`, `CdcHistoryRows` and
  `CdcScd2Convergence` the same for the SCD2 history, `CdcEngines` that both engines agree, and `CdcBootstrap` that a
  snapshot hands over to the stream without gap or double apply. `CdcAsOf` says what the history answers at every
  instant and `CdcOutcomes` what every counter counts.
* **Current projection.** `CurrentProjection` derives a current table from history and patches a target;
  `ProjectionColumns` says what is read from it; `ProjectionExecutor` is one run over lease, target and checkpoint
  tables; `ProjectionProtocol` is the state machine of many runs with failures, crashes inside and between the steps, a
  growing history and lease recovery (`DatasetLease`), `ProjectionSteps` makes the one out of the steps of the other,
  and `ProjectionRecovery` shows why a lease may be recovered from a dead holder only.
* **Target operations.** `OperationJournal` has the journal object, and a state machine of workers on one operation,
  each call split at its read, its compare-and-swap and its second read.
* **SCD2 and ordered current state.** `Scd2`, `Scd2Timeline` and `Scd2Columns`; `CurrentState`,
  `CurrentStateWins`, `CurrentStateSplits` and, without ordering columns, `CurrentStateUnordered`.
* **Watermarks.** `Watermark` plans, `WatermarkWindow` says which cells are read, `WatermarkDelivery` what is
  delivered, and `WatermarkCommit` refines the atomic commit by the SQL one.
* **Small cores.** `TypedValues`, `TypedRoundTrip` and `TypedDecoding` (with `Decimals`), `Append`, `AppendRows`
  and `AppendBatches`, `DependencyGraph`. `Common`, `SourceOrder` and `ValueOrder` hold shared values and orders.

A loop of the source is a method proved against a function that folds one step over the input; the properties are
lemmas about these functions. Objects that the source updates in place are classes. Concurrency is a state machine
over steps, and a statement about all runs is an induction over step sequences.

## Readings of the code

* SHA-256 and canonical hashes are injective; a hash stands for the value that it is taken of.
* Rows are maps from column to value, tables are maps from key to row. Where the code sorts by the text of a key,
  results are stated as maps, as multisets or key by key.
* An instant is an integer. Time zones are normalised before a value enters the model.
* The capture window orders positions of any length, while the engines refuse to compare positions of different length
  (quality/temporal.py:70-73), so a retry can be refused although a first application succeeds: `MixedArityBreaksReplay`
  and `MixedArityBreaksHistoryReplay` show it. `RunConvergesExactlyWhen` and `Scd2RunConvergesExactlyWhen` give the
  exact condition, on the redelivered events and the stored positions; `RunConverges` and `Scd2RunConverges` are the
  case of one length in each partition.
* An event key has exactly the merge columns, because the one-partition check uses the whole key
  (capture/cdc.py:262-268) and apply only these columns.
* A stored position may come back as a tuple or as a list. Both are read alike (apply/cdc.py:129-133), but rows are
  compared whole at an equal position, and no tuple equals a list: `OwnEventNeedsTheTuple` and
  `ReturnedFormExactlyWhen` say when a redelivery is accepted, `ListFormBreaksReplay` when it is not. The runs of
  `RunConvergesExactlyWhen` return each position in either form; `RunConverges` is the case of a target that keeps
  tuples.
* Closed history rows without closing evidence are kept apart in `CdcTimeline`: the code skips the valid-time check of
  a reinsert for them (apply/cdc_scd2.py:192-193 and 215-216). `LegacyRowIsOverlapped` shows the overlap,
  `ReinsertOverlapsNothingExactlyWhen` the exact condition.
* A row that arrives at or below the committed position is never read by a strict plan: `LateRowIsLost` shows it and
  `EveryRowIsDeliveredOnceExactlyWhen` gives the exact condition.
* The as-of meaning of SCD2 does not hold for every run of accepted batches. An input that confirms the current value
  is accepted without leaving a trace (apply/scd2.py:128-130), so a change with an earlier time is accepted afterwards
  and changes the answer at the confirmed time. `AnswersStayRightExactlyWhenInTime` gives the exact condition for one
  input, `RunsTileAndAnswerAsOf` for whole runs.
* Repeating an ordered current-state batch is refused when an update kept target-only columns: `RerunIsRefused` shows
  it, and `RerunIsAcceptedExactlyWhen` gives the exact condition.
* The order and the split of ordered current-state rows never change the resulting table, but they can decide whether
  the rows are accepted: `SplitDecidesAcceptance` shows it, `EveryOrderIsAcceptedExactlyWhen` gives the exact condition.
* An append of two batches can be accepted where the same rows in one batch conflict, because a stored row without
  payload hash is compared in the columns of each incoming row (apply/append.py:71-87): `SplitHidesTheConflict` shows
  it, `BatchesComposeExactlyWhen` gives the exact condition.
* The deadline of a lease does not end its holder; that a recovered holder is dead is what the operator proves
  (control_plane/dataset_lease.py:3-10). The protocol assumes it, and `EarlyRecoveryWritesAnOlderRow` shows that it is
  needed.
* A retry claim and a transition return a second read that lies outside their transaction
  (control_plane/target_operation_journal.py:297 and 379), so EXECUTE can be returned with a record that is no longer
  IN_PROGRESS; `ReReadIsOwnWriteExactlyWhen` gives the exact condition.
* The two watermark repositories refuse a negative expected version differently: an argument error in SQL, a conflict
  in memory. The refinement relates the two.

## Model

| member | source | states |
|---|---|---|
| SourceOrder.CompareSourceOrder | src/fabric_data_framework/quality/temporal.py:62-79 | A comparison of two source positions fails exactly when one is empty or their lengths differ; otherwise STALE, EQUAL and NEWER mean smaller, equal and greater in tuple order |
| SourceOrder.LexLessExactlyWhen | src/fabric_data_framework/capture/cdc.py:271-277 | In the tuple order of capture the first differing component decides, and without one the shorter tuple is the smaller |
| ValueOrder.BeforeTransitive | src/fabric_data_framework/quality/temporal.py:51-79 | Tuples of values of any kind keep a transitive order even though values of different kinds cannot be compared |
| ValueOrder.CompareMirrors | src/fabric_data_framework/quality/temporal.py:51-79 | Swapping the two sides swaps NEWER and STALE |
| CdcCapture.NormalizeCdcBatch | src/fabric_data_framework/capture/cdc.py:195-284 | The loop accepts exactly the complete, conflict-free event lists inside a valid window and returns the distinct uncommitted events, strictly ordered per partition, with exact duplicate and already-committed counters; every refusal names a defect that is present |
| CdcCapture.NormalizationIsOrderFree | src/fabric_data_framework/capture/cdc.py:215-284 | Two deliveries that are permutations of each other are accepted alike and give the same batch |
| CdcCapture.RedeliveryIsInvisible | src/fabric_data_framework/capture/cdc.py:222-231 | Delivering events more than once changes neither the events nor the committed count of the batch |
| CdcCapture.StrictOrderIsUnique | src/fabric_data_framework/capture/cdc.py:271-277 | A set of events has at most one strictly ordered listing, so the sort leaves no choice |
| CdcCapture.EveryEventIsCountedOnce | src/fabric_data_framework/capture/cdc.py:222-284 | Input events = accepted + duplicates + already committed |
| CdcCapture.NormalizedEventsAre | src/fabric_data_framework/capture/cdc.py:195-284 | The normalised batch is a function of the delivered events: their first deliveries above the lower checkpoint, sorted |
| CdcCurrentState.LoadTarget | src/fabric_data_framework/apply/cdc.py:169-175 | The target loads into a table exactly when keys are complete and unique |
| CdcCurrentState.ProcessEvent | src/fabric_data_framework/apply/cdc.py:186-253 | One turn of the event loop, in all its branches, is the per-key event function on one entry of the table and on one counter |
| CdcCurrentState.ApplyCdcCurrentState | src/fabric_data_framework/apply/cdc.py:147-266 | The engine is the left fold of the event function over the batch, with the same errors |
| CdcCurrentState.EveryAppliedEventIsCounted | src/fabric_data_framework/apply/cdc.py:177-266 | Each event of an accepted batch raises exactly one of the seven counters by one |
| CdcCurrentState.RowCountBalances | src/fabric_data_framework/apply/cdc.py:218-253 | Rows afterwards = rows before + inserted - deleted |
| CdcCurrentState.FoldKeepsKeys | src/fabric_data_framework/apply/cdc.py:223-229 | Every stored row stays filed under the key that its own merge columns spell |
| CdcCurrentState.PublishedRowsReload | src/fabric_data_framework/apply/cdc.py:169-175 | Whatever order the result rows are published in, loading them gives the same table again |
| CdcOutcomes.TargetLoadsExactlyWhen | src/fabric_data_framework/apply/cdc.py:169-175 | The target loads if and only if its rows have complete and distinct keys, into a table that files each row under its key and nothing else |
| CdcOutcomes.OrderedExactlyWhen | src/fabric_data_framework/apply/cdc.py:89-144 | When an event can be ordered against a stored position or, before CDC has touched the row, against the lower checkpoint, and what its order then is |
| CdcOutcomes.EventShowsItsOutcome | src/fabric_data_framework/apply/cdc.py:186-253 | One event, read off the row before and after: when it is accepted; which row it leaves, column by column and with its position; and that it counts as updated if and only if a present row stays with other data, as no change only when its data stay, and so on for all seven outcomes |
| CdcOutcomes.CountersCountWhatIsShown | src/fabric_data_framework/apply/cdc.py:177-266 | Every counter of a batch is the number of its events that show the outcome, so `updated` is the number of events at which the data of a present row changed |
| CdcOutcomes.BatchAcceptedExactlyWhen | src/fabric_data_framework/apply/cdc.py:160-186 | A batch is applied if and only if the merge columns are given and distinct, the target is well-keyed and its events are accepted one after the other |
| CdcReplay.TableFoldIsKeywise | src/fabric_data_framework/apply/cdc.py:186-253 | The table after a batch is, key by key, the fold of that key's own events |
| CdcReplay.KeywiseFoldSucceeds | src/fabric_data_framework/apply/cdc.py:186-253 | A batch succeeds as soon as every key's own events do |
| CdcReplay.ResultTakesInItsEvents | src/fabric_data_framework/apply/cdc.py:99-144 | A row with a position that events produced treats each of them as stale, unchanged or ignored when the lengths are equal, and refuses it otherwise |
| CdcReplay.ReplayExactlyWhen | src/fabric_data_framework/apply/cdc.py:186-253 | From any start: any part of the rising events that led to a row is accepted again on it if and only if their positions have the length of the stored one, and then changes nothing, from whatever checkpoint |
| CdcReplay.OwnEventNeedsTheTuple | src/fabric_data_framework/apply/cdc.py:223-244 | For every row: an insert or update at its very position is accepted if and only if it writes the same data and the stored position is a tuple |
| CdcReplay.ReturnedFormExactlyWhen | src/fabric_data_framework/apply/cdc.py:129-133 | A row whose position came back as tuple or list accepts its events again if and only if the lengths agree and, for a list, no insert or update at its own position is among them |
| CdcReplay.ListFormBreaksReplay | src/fabric_data_framework/apply/cdc.py:237-244 | An input whose redelivery is refused only because the position came back as a list |
| CdcReplay.StampedIgnoresLower | src/fabric_data_framework/apply/cdc.py:101-119 | From an absent key or a row that CDC has touched, every lower checkpoint gives the same result |
| CdcReplay.UntouchedRowExactlyWhen | src/fabric_data_framework/apply/cdc.py:101-119 | A row without metadata accepts its events from a later checkpoint if and only if those that it meets before it is stamped have the length of that checkpoint |
| CdcReplay.ReplayOnAbsent | src/fabric_data_framework/apply/cdc.py:202-221 | A key whose events ended with the row deleted has no tombstone: a replay, for positions of any length, rebuilds the row and deletes it again |
| CdcReplay.RetryExactlyWhen | src/fabric_data_framework/apply/cdc.py:186-253 | For one key: redelivered plus new events from the committed checkpoint succeed if and only if they are comparable with the stored row and do not clash with the form in which it came back, and then end where one application of everything ends, up to form |
| CdcReplay.ChainIsRetryable | src/fabric_data_framework/apply/cdc.py:109-144 | With positions of one length every retry on a row that kept its tuple is accepted |
| CdcReplay.MixedArityBreaksReplay | src/fabric_data_framework/apply/cdc.py:109-114 | With positions of different lengths in one partition a first application succeeds and its replay is refused |
| CheckpointStore.CheckpointTable.Commit | src/fabric_data_framework/control_plane/io.py:372-463 | The stored row moves by the commit function only, and no other dataset changes |
| CheckpointStore.ProgressOnlyRises | src/fabric_data_framework/control_plane/io.py:395-455 | Whatever commits writers attempt, no partition is dropped or rewound, and an unchanged version means an untouched row |
| CheckpointStore.CommitSucceedsExactlyWhen | src/fabric_data_framework/control_plane/io.py:395-455 | A writer that read the row before any commits of others succeeds if and only if none of these took effect, no partition is dropped or rewound, and the gate is open unless nothing changes |
| CdcConvergence.RunConvergesExactlyWhen | src/fabric_data_framework/apply/cdc.py:147-266 | Over any attempts of normalise, apply, publish in any row order and commit, with a crash possible after every publish and retries from the old checkpoint to the same or a higher bound: if one application of the log succeeds, the run succeeds if and only if every attempt finds the lengths of its events comparable with the stored rows and none that clashes with a position stored as a list, and then the stored rows are those of one application up to the last published bound, up to the form of their positions, which may come back as tuples or as lists |
| CdcConvergence.RunConverges | src/fabric_data_framework/apply/cdc.py:147-266 | With positions of one length in each partition and a target that returns tuples as tuples every such run converges, to exactly the rows of one application of the log |
| CdcConvergence.AttemptExactlyWhen | src/fabric_data_framework/capture/cdc.py:222-284 | One more attempt, delivered in any order and multiplicity, succeeds under exactly this condition and keeps the agreement with one application of the log |
| CdcConvergence.WholeLogSucceedsEarlier | src/fabric_data_framework/apply/cdc.py:186-253 | When the whole log applies, so does every earlier window of it |
| CdcScd2.FindCurrent | src/fabric_data_framework/apply/cdc_scd2.py:81-94 | The search returns the first current row of the key |
| CdcScd2.HistoryForKey | src/fabric_data_framework/apply/cdc_scd2.py:122-128 | The search returns the rows of the key in listing order |
| CdcScd2.LatestClosedRow | src/fabric_data_framework/apply/cdc_scd2.py:131-176 | The latest closed row by closing evidence, with the errors for incomplete, ambiguous or mixed evidence |
| CdcOutcomes.LatestClosedExactlyWhen | src/fabric_data_framework/apply/cdc_scd2.py:131-176 | The row closed last is found if and only if no row has half of the closing evidence and all evidence is in one partition and of one length; then no other row was closed by a later position |
| CdcScd2.ProcessCurrent | src/fabric_data_framework/apply/cdc_scd2.py:273-383 | What the loop does to a key with a current row, in all branches |
| CdcScd2.ProcessScd2Event | src/fabric_data_framework/apply/cdc_scd2.py:266-383 | One turn of the event loop is the row-list step function |
| CdcScd2.ApplyCdcScd2 | src/fabric_data_framework/apply/cdc_scd2.py:235-400 | The engine is the fold of the step function over the batch between the configuration and one-current-row checks |
| CdcTimeline.AcceptedEventKeepsTimeline | src/fabric_data_framework/apply/cdc_scd2.py:209-232 | An accepted event keeps the timeline of its key: at most one open version, no version ends before it starts, versions do not overlap in source order, closing positions strictly increase, one partition |
| CdcTimeline.AcceptedEventsKeepTimeline | src/fabric_data_framework/apply/cdc_scd2.py:266-383 | The same for any accepted list of events |
| CdcTimeline.ReplayIsNoOpExactlyWhen | src/fabric_data_framework/apply/cdc_scd2.py:131-206 | From any history: any part of the rising events that led to a history is accepted again on it if and only if each of them can be compared with it, and then changes nothing |
| CdcTimeline.OrderedExactlyWhenSameLength | src/fabric_data_framework/apply/cdc_scd2.py:179-206 | What can be compared are positions of the length of the open version or of the version closed last |
| CdcTimeline.MixedArityBreaksHistoryReplay | src/fabric_data_framework/apply/cdc_scd2.py:266-296 | An input on which a first application to history succeeds and its replay is refused |
| CdcTimeline.ReplayThenMore | src/fabric_data_framework/apply/cdc_scd2.py:266-383 | A replay that goes on with new events equals applying old and new events once when the old ones can be compared, and is refused otherwise |
| CdcTimeline.ClosedKeyStaysClosed | src/fabric_data_framework/apply/cdc_scd2.py:179-206 | An event at or below the latest closing position is ignored as stale and never reopens the key |
| CdcTimeline.ReinsertOverlapsNothingExactlyWhen | src/fabric_data_framework/apply/cdc_scd2.py:209-232 | A reinsert overlaps none of the closed rows of its key if and only if it comes no earlier than the end of each non-empty closed row without closing evidence |
| CdcTimeline.LegacyRowIsOverlapped | src/fabric_data_framework/apply/cdc_scd2.py:215-216 | The overlap at an input: a row closed at 100 without evidence and an accepted reinsert at 50 |
| CdcTimeline.RunIdsAreInvisible | src/fabric_data_framework/apply/cdc_scd2.py:369-380 | The recorded run id influences no decision |
| CdcAsOf.EventDecidesFromItsTime | src/fabric_data_framework/apply/cdc_scd2.py:97-119 | One accepted event on any timeline: a newer one that alters the attributes decides what is answered at every instant from its event time on; nothing else changes at any instant, and rows without closing evidence stay |
| CdcAsOf.AnswersAreTheFacts | src/fabric_data_framework/apply/cdc_scd2.py:266-383 | After accepted rising events the version valid at an instant has the row of the last change at or before it, none is valid between a delete and its reinsert, and before all changes the answers are those of the stored history |
| CdcAsOf.AnswersOfNewKey | src/fabric_data_framework/apply/cdc_scd2.py:266-383 | For a key without rows the whole history answers what its events tell |
| CdcAsOf.VersionsComeFromEvents | src/fabric_data_framework/apply/cdc_scd2.py:97-119 | Every version that events close ends at the time of the event whose position it carries, exactly where the next one opens when that event is no delete; every version they open starts as the row of its event, with its hash, time and run; positions are those of events that brought or confirmed the attributes |
| CdcHistoryRows.DecisionsAgree | src/fabric_data_framework/apply/cdc_scd2.py:266-296 | What the loop decides on the row list is what the key's own history decides |
| CdcHistoryRows.EffectsAgree | src/fabric_data_framework/apply/cdc_scd2.py:97-119 | In-place closing and appending on the row list perform the effect on the key's history |
| CdcHistoryRows.FoldIsKeywise | src/fabric_data_framework/apply/cdc_scd2.py:266-383 | After a batch the rows of every key are its history after its own events |
| CdcHistoryRows.BatchKeepsTimelines | src/fabric_data_framework/apply/cdc_scd2.py:297-383 | Every accepted batch keeps the timeline of every key |
| CdcHistoryRows.GrownBatchExactlyWhen | src/fabric_data_framework/apply/cdc_scd2.py:266-383 | A batch of repeated and new events, from any checkpoint and run, on the rows that the first batch left in any order: accepted if and only if the new events alone are and the repeated ones can be compared with the stored rows, and then it gives the very rows of the new events alone and counts no mutation besides theirs |
| CdcHistoryRows.ReplayedBatchIsNoOpExactlyWhen | src/fabric_data_framework/apply/cdc_scd2.py:266-383 | Any part of a batch is accepted again on the rows it left if and only if its events can be compared with them, and then returns these very rows with no mutation counted |
| CdcHistoryRows.ReplayedBatchIsNoOp | src/fabric_data_framework/apply/cdc_scd2.py:266-383 | With positions of one length, re-applying any part of a batch to the rows it left, stored in any order, is accepted, returns these very rows and counts no mutation |
| CdcHistoryRows.KeywiseRowsSucceed | src/fabric_data_framework/apply/cdc_scd2.py:266-383 | A batch succeeds as soon as every key does |
| CdcHistoryRows.BatchKeepsOneCurrent | src/fabric_data_framework/apply/cdc_scd2.py:385-385 | The engine's closing check for one current row per key can never fail |
| CdcHistoryRows.ChecksPass | src/fabric_data_framework/apply/cdc_scd2.py:250-256 | On rows that form timelines the checks before and after the loop pass, whatever the events |
| CdcAsOf.BatchAnswersAreTheFacts | src/fabric_data_framework/apply/cdc_scd2.py:235-400 | After a batch the rows of every key, in any order, answer each instant as the facts of the key's unseen events say, beside its rows without closing evidence |
| CdcAsOf.BatchAnswersOfNewKey | src/fabric_data_framework/apply/cdc_scd2.py:235-400 | For a key that had no rows: the row of its last change at or before the instant, or none |
| CdcOutcomes.HistoryEventShowsItsOutcome | src/fabric_data_framework/apply/cdc_scd2.py:266-383 | When an event is accepted on the history of its key, and how it is counted, by its position, its time and what it alters |
| CdcOutcomes.HistoryCountersCountWhatIsShown | src/fabric_data_framework/apply/cdc_scd2.py:257-400 | Every counter of a batch is the number of events that show its outcome on the row list: inserted adds a current row, updated closes one and adds one, deleted closes one |
| CdcOutcomes.HistoryBatchAcceptedExactlyWhen | src/fabric_data_framework/apply/cdc_scd2.py:235-256 | On timelines a batch is applied if and only if both column lists are given and distinct, all stored keys are complete and its events are accepted one after the other |
| CdcScd2Convergence.UntouchedKeyExactlyWhen | src/fabric_data_framework/apply/cdc_scd2.py:179-206 | A history that CDC has not touched accepts its events from a later checkpoint if and only if those that it meets before that have the length of that checkpoint |
| CdcScd2Convergence.RoundExactlyWhen | src/fabric_data_framework/apply/cdc_scd2.py:266-383 | For one key: redelivered plus new events from the committed checkpoint succeed if and only if they are comparable with the stored history, and then end where one application of everything ends |
| CdcScd2Convergence.GrownWindowExactlyWhen | src/fabric_data_framework/apply/cdc_scd2.py:235-400 | After a crash between publish and commit the retry reads the log through a grown bound: its window is accepted if and only if the part above the published bound is and the part below can be compared with the stored rows, and then leaves the rows of the former alone with no mutation counted besides |
| CdcScd2Convergence.AttemptExactlyWhen | src/fabric_data_framework/apply/cdc_scd2.py:235-400 | One more attempt, delivered in any order and multiplicity, succeeds under exactly this condition and keeps every key's rows at its history after one application of the log |
| CdcScd2Convergence.Scd2RunConvergesExactlyWhen | src/fabric_data_framework/apply/cdc_scd2.py:235-400 | Over any attempts of normalise, apply, publish and commit, with crashes after publishing, other run ids and any row order: if one application of the log succeeds, the run succeeds if and only if every attempt finds the lengths of its events comparable with the rows stored before it, and then the history is that of one application up to the last published bound |
| CdcScd2Convergence.Scd2RunConverges | src/fabric_data_framework/apply/cdc_scd2.py:235-400 | With positions of one length in each partition every such run converges |
| CdcEngines.EventKeepsAligned | src/fabric_data_framework/apply/cdc_scd2.py:266-383 | One event that both engines accept keeps table row and current version alike |
| CdcEngines.EnginesStayAligned | src/fabric_data_framework/apply/cdc.py:186-253 | Whenever both engines accept a normalised batch from aligned targets they end aligned, with all tombstones within the upper checkpoint |
| CdcEngines.AlignedMeansSameCurrentState | src/fabric_data_framework/apply/cdc_scd2.py:266-383 | Aligned targets hold current rows for exactly the same keys with equal tracked columns |
| CdcBootstrap.PlanAcceptsExactlySafeFences | src/fabric_data_framework/capture/bootstrap_cdc.py:68-104 | A plan is made exactly for a complete, consistent snapshot fenced at or after the start of a retained stream of the same partitions |
| CdcBootstrap.NormalizeBootstrapCdcBatch | src/fabric_data_framework/capture/bootstrap_cdc.py:107-132 | The bootstrap batch is the normalised batch above the snapshot fence, refused when a partition appears or disappears |
| CdcBootstrap.ChainFollowsPlainMeaning | src/fabric_data_framework/apply/cdc.py:101-119 | From a snapshot row without position metadata the engine follows the plain meaning of the log through all events that it accepts |
| CdcBootstrap.HandoffIsExact | src/fabric_data_framework/capture/bootstrap_cdc.py:68-132 | Snapshot plus stream, retained from any start at or before the fence, is the plain meaning of the log through the upper bound whenever the stream is accepted |
| CdcBootstrap.ChainIsAcceptedExactlyWhen | src/fabric_data_framework/apply/cdc.py:101-119 | Above the fence the events of a key, with positions of any length, are accepted if and only if the first has the length of the fence when the snapshot holds the key, and each later one that of the event before it unless that was a delete |
| CdcBootstrap.HandoffSucceedsExactlyWhen | src/fabric_data_framework/apply/cdc.py:186-253 | The stream is accepted if and only if this holds for the events of every key |
| CdcBootstrap.HandoffSucceeds | src/fabric_data_framework/apply/cdc.py:101-119 | In particular it is accepted when the positions of each partition have one length |
| CurrentProjection.LoadTarget | src/fabric_data_framework/apply/current_projection.py:101-109 | Existing rows are indexed by key, refused for null or repeated keys |
| ProjectionColumns.TargetLoadsExactlyWhen | src/fabric_data_framework/apply/current_projection.py:102-111 | The target loads if and only if its rows have complete and distinct keys, and files each row under its key |
| ProjectionColumns.HistoryIsReadExactlyWhen | src/fabric_data_framework/apply/current_projection.py:113-135 | The history is read if and only if keys are complete, flags are booleans, no key has two current rows and current rows have every projected column; then into all its keys and exactly the projected columns of its current rows |
| CurrentProjection.ScanHistory | src/fabric_data_framework/apply/current_projection.py:111-131 | The history loop yields the projected current row of every key and all keys, with each refusal of the code |
| CurrentProjection.PlanKeys | src/fabric_data_framework/apply/current_projection.py:147-181 | The planned rows follow the history on the selected keys and stay elsewhere; upserts and deletes are exactly the differences, each counted once |
| CurrentProjection.ApplyCurrentProjection | src/fabric_data_framework/apply/current_projection.py:69-181 | The call succeeds exactly for valid columns, target, history and affected keys, and then plans the projection |
| CurrentProjection.InMemoryCurrentProjectionTarget.ReadProjectionRows | src/fabric_data_framework/execution/current_projection.py:82-95 | Reading some keys gives the part of the target on these keys |
| CurrentProjection.InMemoryCurrentProjectionTarget.ApplyProjection | src/fabric_data_framework/execution/current_projection.py:97-119 | The target afterwards is the old one patched by deletes and then upserts, or untouched when its keys are invalid |
| CurrentProjection.ScopedHistoryReads | src/fabric_data_framework/apply/current_projection.py:111-131 | Reading the history rows of some keys gives the current rows of these keys |
| CurrentProjection.IncrementalEqualsRebuild | src/fabric_data_framework/apply/current_projection.py:133-181 | Reading, planning and patching only the affected keys gives the same whole target as a full rebuild, which is the current rows of the history |
| CurrentProjection.MutationsAreNeededOnce | src/fabric_data_framework/apply/current_projection.py:147-181 | Every upsert and delete changes a row, none clashes, and planning again on the patched target finds nothing to do |
| DatasetLease.LeaseTable.Acquire | src/fabric_data_framework/control_plane/dataset_lease.py:86-138 | A claim is inserted exactly when there is none and the deadline lies ahead |
| DatasetLease.LeaseTable.Release | src/fabric_data_framework/control_plane/dataset_lease.py:141-157 | Only the exact claim is deleted; otherwise nothing changes |
| DatasetLease.LeaseTable.Recover | src/fabric_data_framework/control_plane/dataset_lease_recovery.py:50-140 | Recovery needs the exact identity and an elapsed deadline, and deletes the claim together with appending its evidence |
| ProjectionExecutor.HistoryIsScoped | src/fabric_data_framework/execution/current_projection.py:219-235 | The scope check passes exactly when every history row has a complete key among the affected ones |
| ProjectionProtocol.ResumesExactlyWhen | src/fabric_data_framework/adapters/cdc/delta_cdf.py:118-181 | A resume takes up exactly the versions above the committed one through the requested or latest version, if and only if the feed still holds them all and none of the bounds is invalid |
| ProjectionProtocol.ProgressIsReadExactlyWhen | src/fabric_data_framework/execution/current_projection.py:167-192 | The committed version is the position of the one partition of the projection; any other checkpoint is refused |
| ProjectionExecutor.RangeExactlyWhen | src/fabric_data_framework/execution/current_projection.py:345-381 | There is no work if and only if the committed version is the one asked for, and otherwise the work is exactly the versions in between |
| ProjectionExecutor.ApplyAndCommit | src/fabric_data_framework/execution/current_projection.py:238-306 | On success the selected rows follow the history, reconciliation has passed where required and the checkpoint is the committed one; on failure the checkpoint is untouched |
| ProjectionExecutor.DeltaUnderLease | src/fabric_data_framework/execution/current_projection.py:346-431 | An incremental run selects exactly the keys that the feed reports above the committed version and commits the planned upper version |
| ProjectionExecutor.ExecuteDeltaCurrentProjection | src/fabric_data_framework/execution/current_projection.py:309-431 | The lease is given back on every path, a claimed dataset is refused, the checkpoint moves only with the target, and from every protocol state that the tables show the effects are a sequence of protocol steps |
| ProjectionExecutor.RebuildUnderLease | src/fabric_data_framework/execution/current_projection.py:473-513 | A rebuild leaves the target equal to the current rows of the history and never rewinds the committed version |
| ProjectionExecutor.RebuildDeltaCurrentProjection | src/fabric_data_framework/execution/current_projection.py:434-513 | The same for the whole rebuild |
| ProjectionExecutor.DeltaIsSteps | src/fabric_data_framework/execution/current_projection.py:346-431 | Whatever an incremental run under the lease does, refused, failed after the write or committed, is made of protocol steps when its evidence is true of the history |
| ProjectionExecutor.RebuildIsSteps | src/fabric_data_framework/execution/current_projection.py:473-513 | The same for a rebuild from the whole history at the snapshot version |
| ProjectionSteps.WholeRunReaches | src/fabric_data_framework/execution/current_projection.py:127-163 | Taking the lease, such steps and releasing the lease lead to the tables afterwards |
| ProjectionProtocol.AffectedKeys | src/fabric_data_framework/execution/current_projection.py:195-216 | The affected keys are those of the records inside the range; a newer record or a null key inside it is refused |
| ProjectionProtocol.PartialWriteFits | src/fabric_data_framework/execution/current_projection.py:97-119 | A write that stops half way leaves every row at least as new as the checkpoint promises |
| ProjectionProtocol.StepKeepsInv | src/fabric_data_framework/execution/current_projection.py:238-306 | Every step of every run, of the history and of the operators keeps the protocol invariant |
| ProjectionProtocol.RowsAreNeverOlderThanCommitted | src/fabric_data_framework/execution/current_projection.py:345-431 | In every reachable state each target row, present or absent, is the projection of some version at or after the committed one |
| ProjectionProtocol.CommittingTheLatestVersionSettlesTheTarget | src/fabric_data_framework/execution/current_projection.py:281-306 | When a run commits the latest version the whole target is the projection of the history there |
| ProjectionProtocol.OneRunAtATime | src/fabric_data_framework/control_plane/dataset_lease.py:86-157 | At most one run lives under the lease, its release always finds its claim, and its commit can be refused by reconciliation only |
| ProjectionRecovery.EarlyRecoveryWritesAnOlderRow | src/fabric_data_framework/control_plane/dataset_lease.py:3-10 | Recovery from a holder that still lives is unsafe in every reachable state in which it has planned a change: another run can commit a newer version, and the first still writes an older row under it |
| ProjectionProtocol.ProgressNeverRewinds | src/fabric_data_framework/execution/current_projection.py:486-489 | No step lowers the committed version |
| OperationJournal.AdvanceAgrees | src/fabric_data_framework/contracts/target_operation.py:181-206 | An allowed transition keeps log and record in agreement |
| OperationJournal.Journal.Write | src/fabric_data_framework/control_plane/target_operation_journal.py:327-377 | Row update and event insert happen together, for one operation only |
| OperationJournal.Journal.ClaimOperation | src/fabric_data_framework/control_plane/target_operation_journal.py:156-303 | A claim is granted for an unseen or not-committed operation, and is otherwise answered without any change |
| OperationJournal.Journal.Transition | src/fabric_data_framework/control_plane/target_operation_journal.py:306-381 | A transition succeeds exactly for the expected version and an allowed status, and then advances the log by one event; called serially, its second read gives the record it wrote |
| OperationJournal.Journal.Reconcile | src/fabric_data_framework/control_plane/target_operation_journal.py:448-489 | Reconciliation ends in the status of the resolution, and SUCCEEDED is never left |
| OperationJournal.ClaimsAlternate | src/fabric_data_framework/contracts/target_operation.py:181-206 | Between two claims that go ahead the operation was recorded as not committed |
| OperationJournal.StepKeepsInv | src/fabric_data_framework/control_plane/target_operation_journal.py:206-303 | Every interleaved step keeps log and record in agreement and every grant backed by an event |
| OperationJournal.LogAgreesAndGrantsAreBounded | src/fabric_data_framework/control_plane/target_operation_journal.py:206-377 | In every reachable state the events have versions 1..n chained through allowed transitions up to the record, and EXECUTE is granted at most once more often than NOT_COMMITTED is recorded |
| OperationJournal.NothingFollowsSuccess | src/fabric_data_framework/contracts/target_operation.py:181-198 | After SUCCEEDED no continuation changes the log or grants another execution |
| OperationJournal.ReReadIsOwnWriteExactlyWhen | src/fabric_data_framework/control_plane/target_operation_journal.py:297-299 | Interleaved: the record that a retry claim or a transition returns is the one it wrote if and only if no event came before its second read |
| OperationJournal.ClaimReadAnswersByStatus | src/fabric_data_framework/control_plane/target_operation_journal.py:238-258 | At its read a claim is refused as the status of the record says, SKIP_SUCCEEDED if and only if it has succeeded and RECONCILE_REQUIRED if and only if it is in doubt, and goes on in all other cases |
| OperationJournal.RefusalsTellTheStatus | src/fabric_data_framework/control_plane/target_operation_journal.py:238-258 | In every reachable state, whoever was told to skip was shown a SUCCEEDED record that the log still ends in, and whoever was told to reconcile a record in doubt |
| OperationJournal.TransitionReadExactlyWhen | src/fabric_data_framework/control_plane/target_operation_journal.py:318-340 | At its read a transition goes on if and only if the record has the expected version and may move to the status |
| OperationJournal.AtMostOnePhysicalCommit | src/fabric_data_framework/control_plane/target_operation_journal.py:181-303 | Over every interleaving with crashes the mutation commits at most once, if NOT_COMMITTED is asked for only when no granted execution has committed or still can |
| OperationJournal.EarlyDenialCommitsTwice | src/fabric_data_framework/control_plane/target_operation_journal.py:448-489 | From every reachable state in which the operation may be denied while some execution has committed or still can, one denial leads to a second commit |
| OperationJournal.DenialIsHarmlessExactlyWhen | src/fabric_data_framework/control_plane/target_operation_journal.py:181-303 | In every state that honest workers reach, a denial is harmless, whatever they do afterwards, if and only if every granted execution is void |
| OperationJournal.ExecuteMayCarryALaterRecord | src/fabric_data_framework/control_plane/target_operation_journal.py:297-299 | EXECUTE can come back with a record that already says SUCCEEDED |
| Scd2.FindCurrent | src/fabric_data_framework/apply/scd2.py:94-101 | The search returns the first current row of the key |
| Scd2.ProcessInput | src/fabric_data_framework/apply/scd2.py:87-151 | One turn of the loop: insert, skip, or close and open, with the late and conflict refusals |
| Scd2.ApplyScd2 | src/fabric_data_framework/apply/scd2.py:62-158 | The engine is the fold of the step over the inputs in stable time order, between the one-current-row checks |
| Scd2.SortIsAscending | src/fabric_data_framework/apply/scd2.py:82-85 | The processing order is by effective time |
| Scd2Columns.SortIsStable | src/fabric_data_framework/apply/scd2.py:82-85 | Inputs are processed by time, and those of one key and instant in the order in which they arrived |
| Scd2Columns.InputsAreTheRows | src/fabric_data_framework/apply/scd2.py:82-92 | Every incoming row is read as the input with its own time, key and columns, and the batch is refused if and only if some row has no instant or an incomplete key |
| Scd2Columns.BatchAcceptedExactlyWhen | src/fabric_data_framework/apply/scd2.py:62-158 | The exact conditions under which a batch is accepted |
| Scd2Columns.CountersBalance | src/fabric_data_framework/apply/scd2.py:87-158 | Every inserted or updated input adds a row, and only an inserted one adds a current row |
| Scd2Timeline.TilingIsExact | src/fabric_data_framework/apply/scd2.py:137-150 | Tiling versions cover every time from the first one on exactly once, and no earlier time |
| Scd2Timeline.FoldIsKeywise | src/fabric_data_framework/apply/scd2.py:87-151 | From an empty table every key's rows tile its time line and are built from its own inputs |
| Scd2Timeline.RunsTileAndAnswerAsOf | src/fabric_data_framework/apply/scd2.py:62-158 | Over any accepted run of batches each key's rows tile the time line, and they give the latest accepted values at every time, after each of its inputs, if and only if the inputs came in time |
| Scd2Timeline.OneBatchAnswersAsOf | src/fabric_data_framework/apply/scd2.py:82-151 | Within one batch every as-of answer is right |
| Scd2Columns.RunsHoldTheInputs | src/fabric_data_framework/apply/scd2.py:87-151 | Over all accepted runs every version holds the columns of an accepted input of its key from its time on, with its hash and run, and the stored tracked columns answer every as-of question when inputs came in time |
| Scd2Timeline.AnswersStayRightExactlyWhenInTime | src/fabric_data_framework/apply/scd2.py:123-150 | An accepted input leaves the as-of answers right if and only if it is not earlier than anything accepted for its key or changes nothing |
| Scd2Timeline.ConfirmedValueIsLost | src/fabric_data_framework/apply/scd2.py:128-130 | The failing family: a value confirmed at a later time is overridden by an accepted earlier change |
| CurrentState.LoadTarget | src/fabric_data_framework/apply/current_state.py:190-201 | Existing rows are indexed by key, refused for null keys, repeated keys or null positions |
| CurrentStateUnordered.TargetLoadsExactlyWhen | src/fabric_data_framework/apply/current_state.py:190-202 | The target loads if and only if keys are complete and distinct and no ordering column is null, and files each row under its key |
| CurrentState.SelectLatestIncoming | src/fabric_data_framework/apply/current_state.py:104-163 | The selection loop keeps one candidate per key and counts duplicates and superseded rows |
| CurrentState.MergeOne | src/fabric_data_framework/apply/current_state.py:214-271 | One turn of the merge loop, in all its branches |
| CurrentState.MergeAll | src/fabric_data_framework/apply/current_state.py:210-271 | Every candidate is merged and counted by its fate, whatever the order of the keys |
| CurrentStateUnordered.AcceptedExactlyWhen | src/fabric_data_framework/apply/current_state.py:166-266 | The exact conditions under which an apply is accepted: configuration, stored rows, one candidate per key, and every candidate mergeable |
| CurrentState.ApplyOrderedCurrentState | src/fabric_data_framework/apply/current_state.py:166-282 | The call succeeds exactly for a valid configuration and target, a consistent selection and mergeable candidates |
| CurrentStateWins.SelectionHoldsLatest | src/fabric_data_framework/apply/current_state.py:104-163 | The selection is the row at the greatest position of every key |
| CurrentStateWins.SelectedRowsAreCounted | src/fabric_data_framework/apply/current_state.py:114-163 | Every incoming row is the candidate of its key, a duplicate or superseded |
| CurrentStateWins.OutcomeIsApplyTable | src/fabric_data_framework/apply/current_state.py:210-273 | The outcome's rows are determined by the target and the incoming rows |
| CurrentStateWins.LatestRowWins | src/fabric_data_framework/apply/current_state.py:203-273 | With uniform columns the table after any accepted batches holds the row at the greatest position of every key |
| CurrentStateWins.OrderAndSplitDoNotMatter | src/fabric_data_framework/apply/current_state.py:104-282 | Two accepted runs over the same rows in any order, multiplicity and split end with the same table |
| CurrentStateWins.RerunIsAcceptedExactlyWhen | src/fabric_data_framework/apply/current_state.py:222-266 | Repeating a batch is accepted, and then changes nothing, if and only if every updated row brought all columns of the row it updated |
| CurrentStateWins.RerunIsRefused | src/fabric_data_framework/apply/current_state.py:222-266 | An input whose first run is accepted and whose rerun is refused as a conflict at an equal position |
| CurrentStateSplits.EveryOrderIsAcceptedExactlyWhen | src/fabric_data_framework/apply/current_state.py:104-282 | With uniform columns, rows are accepted in every order, with any repetitions and in every split into batches if and only if each has its key and position and every two different rows of a key have different comparable positions; where a stale row is an error, no second row of a key may come and each must be newer than the stored one |
| CurrentStateSplits.SplitDecidesAcceptance | src/fabric_data_framework/apply/current_state.py:144-161 | An input that is accepted as three batches, and as one batch in one order of its rows but not in another |
| CurrentStateWins.EveryRowIsCountedOnce | src/fabric_data_framework/apply/current_state.py:206-282 | Incoming rows = inserted + updated + stale + duplicate + superseded, and the target grows by the inserted ones |
| CurrentStateUnordered.MergeShowsItsFate | src/fabric_data_framework/apply/current_state.py:222-266 | With or without ordering columns: when a candidate is merged, how it counts, and that an update lays the incoming columns over the stored ones, column by column |
| CurrentStateUnordered.CountersCountWhatIsShown | src/fabric_data_framework/apply/current_state.py:206-282 | Every counter is the number of keys that show it: new, changed by a later row or without order, overtaken, unchanged |
| CurrentStateUnordered.DuplicatesRepeatTheGreatest | src/fabric_data_framework/apply/current_state.py:114-163 | Duplicates of the selection are exactly the incoming rows that equal the greatest row of their key so far |
| CurrentStateUnordered.UnorderedBatch | src/fabric_data_framework/apply/current_state.py:129-136 | Without ordering columns a batch is accepted if and only if the rows of each key agree and the policy allows the update or nothing differs; then every incoming column has its incoming value and every stored-only column stays |
| CurrentStateUnordered.LastBatchDecides | src/fabric_data_framework/apply/current_state.py:227-236 | Over any accepted batches without ordering columns the last one that brings a column of a key decides it |
| CurrentStateUnordered.UnorderedRepeatKeepsTable | src/fabric_data_framework/apply/current_state.py:222-236 | A repeated batch without ordering columns is accepted and keeps the table |
| Watermark.SortByPosition | src/fabric_data_framework/capture/watermark.py:82-83 | The sort is stable by position and fails when two rows cannot be compared |
| WatermarkWindow.SortIsStable | src/fabric_data_framework/capture/watermark.py:85-86 | Rows of equal position stay in the order of the source |
| Watermark.PlanWatermarkBatch | src/fabric_data_framework/capture/watermark.py:66-117 | The plan: arity and position checks, sort, selection and the new position |
| WatermarkWindow.PlanAcceptedExactlyWhen | src/fabric_data_framework/capture/watermark.py:28-115 | A plan is accepted if and only if the cells of all rows are complete, every two rows can be compared, and the rows can be read against the committed position: strictly, each is comparable with it; looking back, all watermark cells are instants and the greatest row is comparable |
| WatermarkDelivery.StrictPlanTakesExactlyTheFreshRows | src/fabric_data_framework/capture/watermark.py:82-117 | A strict batch holds exactly the rows above the committed position, ascending, and moves the position to its last row |
| WatermarkDelivery.NothingIsLeftAbove | src/fabric_data_framework/capture/watermark.py:105-117 | After a plan no source row lies above the new position, which has not moved back |
| WatermarkDelivery.EveryRowIsDeliveredOnceExactlyWhen | src/fabric_data_framework/capture/watermark.py:82-117 | Rounds of plan and commit over a growing source, with crashes, deliver every row exactly once if and only if new rows always arrive above the committed position |
| WatermarkDelivery.LateRowIsLost | src/fabric_data_framework/capture/watermark.py:98-103 | An input on which a row that arrives below the position is never read |
| WatermarkDelivery.OverlapContainsStrict | src/fabric_data_framework/capture/watermark.py:87-117 | An overlap batch contains the strict batch, holds exactly the rows inside the window, and leaves the same position |
| WatermarkWindow.StrictBatchOnCells | src/fabric_data_framework/capture/watermark.py:28-41 | On the cells: a strict plan takes a row, as often as it occurs, if and only if the first cell that differs from the position is greater, and leaves the position at the cells of the last row taken |
| WatermarkWindow.OverlapBatchOnCells | src/fabric_data_framework/capture/watermark.py:51-96 | On the cells: a plan that looks back takes a row, as often as it occurs, if and only if its watermark cell is an instant at or after the committed instant minus the overlap; other cells are refused |
| WatermarkWindow.LargerOverlapReadsMore | src/fabric_data_framework/capture/watermark.py:51-110 | A larger overlap reads all that a smaller one reads and leaves the position where that leaves it |
| WatermarkCommit.InMemoryControlPlane.CommitWatermark | src/fabric_data_framework/control_plane/repository.py:99-125 | The lock-protected commit is the atomic commit function on one dataset |
| WatermarkCommit.CommitsExactlyWhen | src/fabric_data_framework/control_plane/repository.py:99-125 | A commit is accepted if and only if the value is not null, the version is current and the position is not below the committed one; it takes the position under the next version, or leaves the state at an equal one |
| WatermarkCommit.SqlCommitRefinesAtomicCommit | src/fabric_data_framework/control_plane/sqlalchemy_repository.py:226-281 | Under any interleaving with crashes the read-then-write commit gives the answers and the state of the atomic one, calls taken in the order of their returns |
| WatermarkCommit.VersionsCountRisingPositions | src/fabric_data_framework/contracts/runtime.py:182-203 | Versions count the committed positions without gap, and these rise strictly |
| Decimals.NormalFormIsCanonical | src/fabric_data_framework/contracts/typed_values.py:58-64 | Two decimals have the same normal form exactly when they are the same number |
| TypedValues.DecodeItem | src/fabric_data_framework/contracts/typed_values.py:199-208 | One turn of the dict loop: item shape, duplicate and order checks, then the value |
| TypedValues.DecodeDict | src/fabric_data_framework/contracts/typed_values.py:192-209 | The dict loop decodes its items in order |
| TypedRoundTrip.DecodeOfEncode | src/fabric_data_framework/contracts/typed_values.py:28-210 | Decoding an encoding gives the value back with datetimes in UTC, decimals in normal form and dicts in key order, at every depth |
| TypedRoundTrip.EncodingSeparatesCanonicalForms | src/fabric_data_framework/contracts/typed_values.py:28-84 | Two values have the same encoding exactly when they have the same canonical form |
| TypedRoundTrip.DecimalsAreToldApartAsNumbers | src/fabric_data_framework/contracts/typed_values.py:58-64 | Two decimals have the same encoding exactly when they are the same number |
| TypedRoundTrip.DatetimesAreToldApartAsInstants | src/fabric_data_framework/contracts/typed_values.py:48-55 | Two aware datetimes have the same encoding exactly when they are the same instant |
| TypedRoundTrip.EncodesExactlySupported | src/fabric_data_framework/contracts/typed_values.py:28-84 | A value is encoded exactly when every part of it is supported |
| TypedDecoding.DecodesExactlySpellings | src/fabric_data_framework/contracts/typed_values.py:96-210 | A text is decoded as a value if and only if it spells it in a grammar of its own: exactly the tag and one payload field, the tag of the type, finite numbers, instants at UTC, keys of a dict strictly ascending |
| TypedDecoding.EncodingSpellsCanonicalForm | src/fabric_data_framework/contracts/typed_values.py:28-84 | An encoding is such a spelling of the canonical form of its value |
| Append.IndexExisting | src/fabric_data_framework/apply/append.py:125-138 | Existing rows are indexed by identity, refused for bad or repeated identities or mismatching evidence |
| Append.CollectUnique | src/fabric_data_framework/apply/append.py:140-156 | The first row of every identity in order, refused for conflicting payloads |
| Append.PlaceOne | src/fabric_data_framework/apply/append.py:160-170 | A known identity is a replay if its payload agrees, a new one is decorated and appended |
| Append.ApplyAppend | src/fabric_data_framework/apply/append.py:101-177 | The whole plan, with the counters of the code |
| AppendRows.PlaceShows | src/fabric_data_framework/apply/append.py:71-98 | A stored identity takes a row as a replay by its payload hash or, without one, in the columns that the row brings; a new one is appended with its columns and the hashes of identity and payload, and refused when it brings hash fields |
| AppendRows.AppendExactlyWhen | src/fabric_data_framework/apply/append.py:101-177 | The exact condition on the rows under which an append is accepted; it keeps the stored rows and appends the decorated first rows of the new identities in their order, with the counters that this shows |
| AppendBatches.BatchesCompose | src/fabric_data_framework/apply/append.py:125-177 | Appending two batches one after the other gives the very rows of appending them at once, with equal inserts and equal replays plus duplicates |
| AppendBatches.BatchesComposeExactlyWhen | src/fabric_data_framework/apply/append.py:101-177 | Two batches can be appended as one if and only if they can be appended one after the other and no identity comes in both with different payloads |
| AppendBatches.SplitHidesTheConflict | src/fabric_data_framework/apply/append.py:71-87 | A stored row without payload hash accepts two payloads of one identity in two batches, which conflict in one |
| AppendBatches.RepeatInsertsNothing | src/fabric_data_framework/apply/append.py:125-177 | Repeating an accepted batch is accepted, inserts nothing and keeps the rows |
| DependencyGraph.Visitor.Visit | src/fabric_data_framework/deployment/project.py:207-216 | The recursive visit terminates, finishes a dataset after all it depends on, or finds a cycle through the datasets in progress |
| DependencyGraph.VisitAll | src/fabric_data_framework/deployment/project.py:218-219 | All visits succeed only with a topological order of the whole graph |
| DependencyGraph.ValidateDependencyGraph | src/fabric_data_framework/deployment/project.py:193-219 | The check accepts exactly the closed acyclic graphs, equivalently those with a topological order, and a refusal names an unknown dependency or a dataset on a cycle |
| DependencyGraph.TopologicalOrderIsAcyclic | src/fabric_data_framework/deployment/project.py:207-219 | A topological order rules out cycles |

## Left out

- RunConvergesExactlyWhen: retries with a smaller upper bound than one already published are not covered.
- Scd2RunConvergesExactlyWhen: histories are compared without run ids and row order, because a retry writes its own run id; retries with a smaller upper bound are not covered.
- EnginesStayAligned: needs full after-images and applied deletes, because the current table keeps columns that an event does not carry.
- LatestRowWins: needs uniform columns, because the engine keeps target-only columns of an updated row.
- AtMostOnePhysicalCommit: that NOT_COMMITTED is asked for truthfully is assumed of the caller, and needed.
- ApplyScd2: the final sort of the listing is not modelled, and rows of different keys at one instant are processed in arrival order; the rows of one key are processed in the order of the code.
- DecodeOfEncode: library renderings of numbers, dates and identifiers are distinct symbolic texts; other spellings that the parsers accept, and decimals beyond the context precision, are not modelled.
- ApplyCdcScd2: a null business key is reported before the loop, where the code reports it when it meets the row.
- Output order by the text of keys and positions, and which of several defects is reported first when keys are visited in that order.
- Floats as ordered values, booleans and other types among key, position and watermark values; comparison errors between kinds are modelled for integers, texts and instants.
- Stored positions that are no sequences of integers, and missing metadata columns of malformed stored rows in the SCD2 engine, all of which raise before any change.
- Table references, projection fingerprints in partition names and the argument checks for empty references.
- Timestamps of journal records, events and leases beyond the review deadline.
- Legacy scalar decoding and JSON bytes, which add a renaming of the tagged form.
- Replace, snapshot difference, file and API capture, quarantine, audit, certification, deployment artifacts and command line: guards or plumbing around the cores above.
