/** The handoff from a fenced snapshot to steady-state CDC (capture/bootstrap_cdc.py). */
module CdcBootstrap {
  import opened Common
  import opened SourceOrder
  import opened CdcCapture
  import opened CdcCurrentState
  import opened CdcReplay
  import opened CheckpointStore
  import opened CdcLog

  /** `datasetId`, `snapshotId` and `sourceEpoch` only identify the evidence. */
  datatype Evidence = Evidence(
    datasetId: string,
    snapshotId: string,
    sourceEpoch: string,
    streamStart: Checkpoint,
    snapshot: Checkpoint,
    completeSnapshot: bool,
    consistentThroughCheckpoint: bool,
    streamRetainedFromStart: bool)

  datatype Plan = Plan(datasetId: string, snapshotId: string, sourceEpoch: string, streamStart: Checkpoint, lower: Checkpoint)

  datatype BootstrapError =
    | SnapshotIncomplete
    | SnapshotNotConsistent
    | StreamNotRetained
    | EmptySnapshotCheckpoint
    | PartitionsChanged
    | StreamStartsAfterSnapshot
    | Capture(reason: CaptureError)

  function PlanCdcBootstrap(evidence: Evidence): Result<Plan, BootstrapError> {
    if !evidence.completeSnapshot then Err(SnapshotIncomplete)
    else if !evidence.consistentThroughCheckpoint then Err(SnapshotNotConsistent)
    else if !evidence.streamRetainedFromStart then Err(StreamNotRetained)
    else if evidence.snapshot == map[] then Err(EmptySnapshotCheckpoint)
    else if evidence.streamStart.Keys != evidence.snapshot.Keys then Err(PartitionsChanged)
    else if exists p | p in evidence.snapshot :: LexLess(evidence.snapshot[p], evidence.streamStart[p]) then
      Err(StreamStartsAfterSnapshot)
    else Ok(Plan(evidence.datasetId, evidence.snapshotId, evidence.sourceEpoch, evidence.streamStart, evidence.snapshot))
  }

  /** The evidence proves a safe handoff: the snapshot is fenced, and no change is missing between the
      start of the retained stream and the fence. */
  ghost predicate SafeFence(evidence: Evidence) {
    && evidence.completeSnapshot && evidence.consistentThroughCheckpoint && evidence.streamRetainedFromStart
    && evidence.snapshot != map[]
    && evidence.streamStart.Keys == evidence.snapshot.Keys
    && Covers(evidence.snapshot, evidence.streamStart)
  }

  lemma PlanAcceptsExactlySafeFences(evidence: Evidence)
    ensures PlanCdcBootstrap(evidence).Ok? <==> SafeFence(evidence)
    ensures PlanCdcBootstrap(evidence).Ok? ==> PlanCdcBootstrap(evidence).value.lower == evidence.snapshot
  {
    forall p | p in evidence.snapshot && p in evidence.streamStart
      ensures LexLess(evidence.snapshot[p], evidence.streamStart[p]) <==> !LexLeq(evidence.streamStart[p], evidence.snapshot[p])
    {
      LexTotal(evidence.snapshot[p], evidence.streamStart[p]);
    }
  }

  method NormalizeBootstrapCdcBatch(events: seq<Event>, evidence: Evidence, upper: Checkpoint, complete: bool)
    returns (r: Result<Batch, BootstrapError>)
    ensures r.Ok? <==>
              && SafeFence(evidence) && upper.Keys == evidence.snapshot.Keys && complete
              && Covers(upper, evidence.snapshot) && Acceptable(events, Some(evidence.snapshot), upper)
    ensures r.Ok? ==> IsNormalized(events, Some(evidence.snapshot), upper, r.value)
  {
    PlanAcceptsExactlySafeFences(evidence);
    var plan := PlanCdcBootstrap(evidence);
    if plan.Err? {
      return Err(plan.error);
    }
    if plan.value.lower.Keys != upper.Keys {
      return Err(PartitionsChanged);
    }
    var batch := NormalizeCdcBatch(events, upper, Some(plan.value.lower), complete);
    if batch.Err? {
      return Err(Capture(batch.error));
    }
    r := Ok(batch.value);
  }

  // ---------------------------------------------------------------- the plain meaning of a log

  /** What an event does to the data of its key when nothing is ever replayed. */
  function PlainStep(data: Option<Columns>, e: Event, mergeKey: seq<string>): Option<Columns> {
    if e.change.Delete? then None
    else Some((if data.Some? then data.value else map[]) + e.change.after + Restrict(e.key, mergeKey))
  }

  function PlainFold(data: Option<Columns>, es: seq<Event>, mergeKey: seq<string>): Option<Columns> {
    if es == [] then data else PlainStep(PlainFold(data, es[..|es| - 1], mergeKey), es[|es| - 1], mergeKey)
  }

  lemma {:induction false} PlainFoldSplits(data: Option<Columns>, a: seq<Event>, b: seq<Event>, mergeKey: seq<string>)
    ensures PlainFold(data, a + b, mergeKey) == PlainFold(PlainFold(data, a, mergeKey), b, mergeKey)
    decreases |b|
  {
    hide PlainStep;
    if b == [] {
      assert a + b == a;
    } else {
      PlainFoldSplits(data, a, b[..|b| - 1], mergeKey);
      assert (a + b)[..|a + b| - 1] == a + b[..|b| - 1];
    }
  }

  /** The meaning of the log through a checkpoint, for one key. */
  function PlainMeaning(log: seq<Event>, through: Checkpoint, mergeKey: seq<string>, k: Key): Option<Columns> {
    PlainFold(None, KeyWindow(log, None, Some(through), mergeKey, k), mergeKey)
  }

  function DataOf(row: Option<Row>): Option<Columns> {
    if row.Some? then Some(row.value.data) else None
  }

  /** A row loaded from the snapshot, or one that an event of the chain has stamped. */
  ghost predicate LoadedOrStamped(row: Option<Row>, es: seq<Event>, p: string) {
    row.Some? ==>
      || (row.value.partition.None? && row.value.position.None?)
      || (row.value.partition == Some(p) && exists e :: e in es && row.value.Values() == Some(e.position))
  }

  /** Above the snapshot checkpoint the engine, as long as it accepts the events, follows the plain meaning: it applies
      every event exactly once. */
  lemma {:induction false} ChainFollowsPlainMeaning(row: Option<Row>, es: seq<Event>, policy: Policy, p: string)
    requires Rising(es, p) && policy.onDelete.Apply?
    requires LoadedOrStamped(row, [], p) && FoldRow(row, es, policy).Ok?
    ensures DataOf(FoldRow(row, es, policy).value) == PlainFold(DataOf(row), es, policy.mergeKey)
    ensures LoadedOrStamped(FoldRow(row, es, policy).value, es, p)
    decreases |es|
  {
    if es != [] {
      var prefix, last := es[..|es| - 1], es[|es| - 1];
      assert last in es;
      ChainFollowsPlainMeaning(row, prefix, policy, p);
      NextEventFollowsPlainMeaning(FoldRow(row, prefix, policy).value, prefix, last, policy, p);
      assert es == prefix + [last];
    }
  }

  lemma NextEventFollowsPlainMeaning(row: Option<Row>, before: seq<Event>, e: Event, policy: Policy, p: string)
    requires policy.onDelete.Apply? && e.partition == p
    requires forall f | f in before :: LexLess(f.position, e.position)
    requires LoadedOrStamped(row, before, p) && ApplyEvent(row, e, policy).Ok?
    ensures DataOf(ApplyEvent(row, e, policy).value.row) == PlainStep(DataOf(row), e, policy.mergeKey)
    ensures LoadedOrStamped(ApplyEvent(row, e, policy).value.row, before + [e], p)
  {
    assert e in before + [e];
    if row.Some? && row.value.position.Some? {
      LexTotal(row.value.position.value.values, e.position);
    }
  }

  /** The events of a key can be compared one after the other: the first with the snapshot checkpoint when the snapshot
      holds the key, each later one with the event before it, unless that deleted the row. */
  predicate Comparable(loaded: bool, es: seq<Event>, fence: Checkpoint) {
    forall i | 0 <= i < |es| :: ComparableAt(loaded, es, fence, i)
  }

  predicate ComparableAt(loaded: bool, es: seq<Event>, fence: Checkpoint, i: nat)
    requires i < |es|
  {
    if i == 0 then loaded ==> es[i].partition in fence && |es[i].position| == |fence[es[i].partition]|
    else es[i - 1].change.Delete? || |es[i].position| == |es[i - 1].position|
  }

  lemma ComparablePrefix(loaded: bool, es: seq<Event>, fence: Checkpoint)
    requires es != []
    ensures Comparable(loaded, es, fence) <==>
            Comparable(loaded, es[..|es| - 1], fence) && ComparableAt(loaded, es, fence, |es| - 1)
  {
    var prefix := es[..|es| - 1];
    assert forall i: nat | i < |prefix| :: ComparableAt(loaded, prefix, fence, i) == ComparableAt(loaded, es, fence, i);
    if Comparable(loaded, prefix, fence) && ComparableAt(loaded, es, fence, |es| - 1) {
      forall i | 0 <= i < |es| ensures ComparableAt(loaded, es, fence, i) {
        assert i < |prefix| ==> ComparableAt(loaded, prefix, fence, i);
      }
    }
  }

  /** Above the snapshot checkpoint the engine accepts the events of a key exactly when they can be compared. */
  lemma {:induction false} ChainIsAcceptedExactlyWhen(row: Option<Row>, es: seq<Event>, policy: Policy, p: string)
    requires Rising(es, p) && policy.onDelete.Apply? && LoadedOrStamped(row, [], p)
    requires policy.lower.Some? && p in policy.lower.value
    requires forall e | e in es :: LexLess(policy.lower.value[p], e.position)
    ensures FoldRow(row, es, policy).Ok? <==> Comparable(row.Some?, es, policy.lower.value)
    ensures FoldRow(row, es, policy).Ok? && es != [] ==>
              LeftBy(FoldRow(row, es, policy).value, es[|es| - 1], p)
    decreases |es|
  {
    hide ApplyEvent, Comparable, LeftBy;
    if es == [] {
      NothingToCompare(row.Some?, policy.lower.value);
    } else {
      var prefix, last := es[..|es| - 1], es[|es| - 1];
      assert last in es && es == prefix + [last];
      ChainIsAcceptedExactlyWhen(row, prefix, policy, p);
      ComparablePrefix(row.Some?, es, policy.lower.value);
      if FoldRow(row, prefix, policy).Ok? {
        if prefix == [] {
          FirstEventExactlyWhen(row, last, policy, p);
        } else {
          NextEventExactlyWhen(FoldRow(row, prefix, policy).value, prefix[|prefix| - 1], last, policy, p);
        }
      }
    }
  }

  lemma NothingToCompare(loaded: bool, fence: Checkpoint)
    ensures Comparable(loaded, [], fence)
  {
  }

  /** The row of a key after the event: deleted, or stamped by it. */
  predicate LeftBy(row: Option<Row>, e: Event, p: string) {
    if e.change.Delete? then row.None?
    else row.Some? && row.value.partition == Some(p) && row.value.Values() == Some(e.position)
  }

  lemma FirstEventExactlyWhen(row: Option<Row>, e: Event, policy: Policy, p: string)
    requires policy.onDelete.Apply? && e.partition == p && e.position != [] && LoadedOrStamped(row, [], p)
    requires policy.lower.Some? && p in policy.lower.value && LexLess(policy.lower.value[p], e.position)
    ensures ApplyEvent(row, e, policy).Ok? <==> (row.Some? ==> |e.position| == |policy.lower.value[p]|)
    ensures ApplyEvent(row, e, policy).Ok? ==> LeftBy(ApplyEvent(row, e, policy).value.row, e, p)
  {
    LexTotal(policy.lower.value[p], e.position);
  }

  lemma NextEventExactlyWhen(row: Option<Row>, before: Event, e: Event, policy: Policy, p: string)
    requires policy.onDelete.Apply? && e.partition == p && e.position != [] && LeftBy(row, before, p)
    requires LexLess(before.position, e.position)
    ensures ApplyEvent(row, e, policy).Ok? <==> before.change.Delete? || |e.position| == |before.position|
    ensures ApplyEvent(row, e, policy).Ok? ==> LeftBy(ApplyEvent(row, e, policy).value.row, e, p)
  {
    LexTotal(before.position, e.position);
  }

  // ---------------------------------------------------------------- the handoff

  /** The snapshot holds the plain meaning of the log through its checkpoint, as rows without CDC metadata. */
  ghost predicate SnapshotOf(t: Table, log: seq<Event>, through: Checkpoint, mergeKey: seq<string>) {
    forall k ::
      && DataOf(Find(t, k)) == PlainMeaning(log, through, mergeKey, k)
      && LoadedOrStamped(Find(t, k), [], "")
  }

  /** The buffered stream: events of the log within the upper bound, and at least once each event above
      the start of the retained stream. */
  ghost predicate Buffers(buffered: seq<Event>, log: seq<Event>, start: Checkpoint, upper: Checkpoint) {
    && (forall e | e in buffered :: e in log && Within(e, upper))
    && (forall e | e in log && Above(e, Some(start)) && Within(e, upper) :: e in buffered)
  }

  /** What the engine makes of the snapshot and the normalised stream. */
  ghost function Handoff(
      snapshot: Table, buffered: seq<Event>, evidence: Evidence, mergeKey: seq<string>): Result<State, ApplyError> {
    FoldTable(snapshot, NormalizedEvents(buffered, Some(evidence.snapshot)), Policy(mergeKey, Some(evidence.snapshot), Apply))
  }

  /** A safe fence over a log that was captured completely. */
  ghost predicate ProperHandoff(
      snapshot: Table, log: seq<Event>, buffered: seq<Event>, evidence: Evidence, upper: Checkpoint,
      mergeKey: seq<string>)
  {
    && SafeFence(evidence) && upper.Keys == evidence.snapshot.Keys && Covers(upper, evidence.snapshot)
    && IsLog(log, None, upper, mergeKey)
    && SnapshotOf(snapshot, log, evidence.snapshot, mergeKey)
    && Buffers(buffered, log, evidence.streamStart, upper)
  }

  /** No gap and no double apply: whatever was retained from a start at or before the snapshot, whenever the stream is
      accepted, snapshot plus stream is the plain meaning of the log through the upper bound. */
  lemma HandoffIsExact(
      snapshot: Table, log: seq<Event>, buffered: seq<Event>, evidence: Evidence, upper: Checkpoint,
      mergeKey: seq<string>)
    requires ProperHandoff(snapshot, log, buffered, evidence, upper, mergeKey)
    requires Handoff(snapshot, buffered, evidence, mergeKey).Ok?
    ensures Acceptable(buffered, Some(evidence.snapshot), upper)
    ensures forall k :: DataOf(Find(Handoff(snapshot, buffered, evidence, mergeKey).value.table, k)) == PlainMeaning(log, upper, mergeKey, k)
  {
    hide KeyedBy, FoldTable, FoldRow, PlainFold, KeyEvents, StrictlyOrdered, IsLog;
    var lower := Some(evidence.snapshot);
    var policy := Policy(mergeKey, lower, Apply);
    BufferedIsWindow(log, buffered, evidence, upper, mergeKey);
    var es := Window(log, lower, Some(upper));
    forall k
      ensures DataOf(Find(Handoff(snapshot, buffered, evidence, mergeKey).value.table, k)) == PlainMeaning(log, upper, mergeKey, k)
    {
      TableFoldIsKeywise(snapshot, es, policy, k);
      KeyHandoff(snapshot, log, evidence, upper, mergeKey, k);
    }
  }

  /** The events of every key above the fence can be compared one after the other. */
  ghost predicate AllComparable(
      snapshot: Table, log: seq<Event>, fence: Checkpoint, upper: Checkpoint, mergeKey: seq<string>)
  {
    forall k :: Comparable(Find(snapshot, k).Some?, KeyWindow(log, Some(fence), Some(upper), mergeKey, k), fence)
  }

  /** The stream is accepted exactly when the events of every key can be compared one after the other. */
  lemma HandoffSucceedsExactlyWhen(
      snapshot: Table, log: seq<Event>, buffered: seq<Event>, evidence: Evidence, upper: Checkpoint,
      mergeKey: seq<string>)
    requires ProperHandoff(snapshot, log, buffered, evidence, upper, mergeKey)
    ensures Handoff(snapshot, buffered, evidence, mergeKey).Ok? <==>
            AllComparable(snapshot, log, evidence.snapshot, upper, mergeKey)
  {
    hide KeyedBy, FoldTable, FoldRow, Comparable, KeyEvents, StrictlyOrdered, Acceptable;
    var lower := Some(evidence.snapshot);
    var policy := Policy(mergeKey, lower, Apply);
    BufferedIsWindow(log, buffered, evidence, upper, mergeKey);
    var es := Window(log, lower, Some(upper));
    WindowIs(log, lower, Some(upper));
    forall e | e in es ensures EventKey(e, mergeKey).Some? {
      LogKeyIsPresent(log, e, mergeKey);
    }
    forall k
      ensures FoldRow(Find(snapshot, k), KeyEvents(es, mergeKey, k), policy).Ok? <==>
              Comparable(Find(snapshot, k).Some?, KeyWindow(log, lower, Some(upper), mergeKey, k), evidence.snapshot)
    {
      KeyIsAcceptedExactlyWhen(snapshot, log, evidence, upper, mergeKey, k);
    }
    if FoldTable(snapshot, es, policy).Ok? {
      forall k ensures FoldRow(Find(snapshot, k), KeyEvents(es, mergeKey, k), policy).Ok? {
        TableFoldIsKeywise(snapshot, es, policy, k);
      }
    } else if AllComparable(snapshot, log, evidence.snapshot, upper, mergeKey) {
      KeywiseFoldSucceeds(snapshot, es, policy);
    }
  }

  /** So it is when the positions of each partition have one length. */
  lemma HandoffSucceeds(
      snapshot: Table, log: seq<Event>, buffered: seq<Event>, evidence: Evidence, upper: Checkpoint,
      mergeKey: seq<string>,
      arity: map<string, nat>)
    requires ProperHandoff(snapshot, log, buffered, evidence, upper, mergeKey)
    requires UniformLog(log, arity) && UniformCheckpoint(Some(evidence.snapshot), arity)
    ensures Handoff(snapshot, buffered, evidence, mergeKey).Ok?
  {
    hide Handoff, KeyedBy, StrictlyOrdered, Buffers, SnapshotOf, KeyWindow, LexLess;
    var lower := Some(evidence.snapshot);
    forall k
      ensures Comparable(Find(snapshot, k).Some?, KeyWindow(log, lower, Some(upper), mergeKey, k), evidence.snapshot)
    {
      var es := KeyWindow(log, lower, Some(upper), mergeKey, k);
      if es != [] {
        assert es[0] in es;
        KeyWindowIs(log, lower, Some(upper), mergeKey, k);
        FenceIsCovered(evidence.snapshot, upper);
        FenceKey(log, evidence.snapshot, upper, mergeKey, k, es[0]);
        assert forall i | 0 <= i < |es| :: es[i] in es && es[i].partition == es[0].partition;
      }
    }
    HandoffSucceedsExactlyWhen(snapshot, log, buffered, evidence, upper, mergeKey);
  }

  lemma BufferedIsWindow(
      log: seq<Event>, buffered: seq<Event>, evidence: Evidence, upper: Checkpoint, mergeKey: seq<string>)
    requires SafeFence(evidence) && Covers(upper, evidence.snapshot)
    requires IsLog(log, None, upper, mergeKey) && Buffers(buffered, log, evidence.streamStart, upper)
    ensures Acceptable(buffered, Some(evidence.snapshot), upper)
    ensures NormalizedEvents(buffered, Some(evidence.snapshot)) == Window(log, Some(evidence.snapshot), Some(upper))
  {
    hide KeyedBy;
    var lower := Some(evidence.snapshot);
    NormalizedEventsAre(buffered, lower, upper);
    WindowIs(log, lower, Some(upper));
    forall e ensures e in NormalizedEvents(buffered, lower) <==> e in Window(log, lower, Some(upper)) {
      BoundsAreMonotone(e, Some(evidence.streamStart), lower);
    }
    StrictOrderIsUnique(NormalizedEvents(buffered, lower), Window(log, lower, Some(upper)));
  }

  lemma KeyHandoff(
      snapshot: Table, log: seq<Event>, evidence: Evidence, upper: Checkpoint, mergeKey: seq<string>, k: Key)
    requires Covers(upper, evidence.snapshot) && IsLog(log, None, upper, mergeKey)
    requires SnapshotOf(snapshot, log, evidence.snapshot, mergeKey)
    requires FoldRow(Find(snapshot, k), KeyWindow(log, Some(evidence.snapshot), Some(upper), mergeKey, k),
                     Policy(mergeKey, Some(evidence.snapshot), Apply)).Ok?
    ensures DataOf(FoldRow(Find(snapshot, k), KeyWindow(log, Some(evidence.snapshot), Some(upper), mergeKey, k),
                           Policy(mergeKey, Some(evidence.snapshot), Apply)).value) == PlainMeaning(log, upper, mergeKey, k)
  {
    hide KeyWindow, PlainFold, FoldRow, LexLess, KeyedBy, Acceptable, StrictlyOrdered;
    var lower := Some(evidence.snapshot);
    var whole := KeyWindow(log, None, Some(upper), mergeKey, k);
    var first, second := KeyWindow(log, None, lower, mergeKey, k), KeyWindow(log, lower, Some(upper), mergeKey, k);
    FenceIsCovered(evidence.snapshot, upper);
    if whole == [] {
      AtOrBeforeReflexive(Some(upper));
      NoEventsInPart(log, None, lower, Some(upper), Some(upper), mergeKey, k);
      NoEventsInPart(log, None, None, lower, Some(upper), mergeKey, k);
      NothingFolded(Find(snapshot, k), second, Policy(mergeKey, lower, Apply));
    } else {
      var e := whole[0];
      assert e in whole;
      KeyWindowIs(log, None, Some(upper), mergeKey, k);
      KeyHasOnePartition(log, None, upper, mergeKey, k, None, Some(upper), e);
      KeyWindowSplits(log, None, lower, Some(upper), mergeKey, k, e.partition);
      PlainFoldSplits(None, first, second, mergeKey);
      KeyWindowIsRising(log, None, Some(upper), upper, mergeKey, k, e);
      RisingParts(first, second, [], e.partition);
      assert first + second + [] == first + second;
      ChainFollowsPlainMeaning(Find(snapshot, k), second, Policy(mergeKey, lower, Apply), e.partition);
    }
  }

  /** The events of a key above the fence rise in one partition of the fence. */
  lemma FenceKey(
      log: seq<Event>, fence: Checkpoint, upper: Checkpoint, mergeKey: seq<string>, k: Key, e: Event)
    requires upper.Keys == fence.Keys && Covers(upper, fence) && IsLog(log, None, upper, mergeKey)
    requires e in KeyWindow(log, Some(fence), Some(upper), mergeKey, k)
    ensures var es := KeyWindow(log, Some(fence), Some(upper), mergeKey, k);
            e.partition in fence && Rising(es, e.partition) && forall f | f in es :: LexLess(fence[e.partition], f.position)
  {
    hide KeyWindow, KeyedBy, StrictlyOrdered, LexLess;
    var lower := Some(fence);
    var es, first := KeyWindow(log, lower, Some(upper), mergeKey, k), KeyWindow(log, None, lower, mergeKey, k);
    KeyWindowIs(log, lower, Some(upper), mergeKey, k);
    FenceIsCovered(fence, upper);
    BoundsAreMonotone(e, None, lower);
    KeyWindowIs(log, None, Some(upper), mergeKey, k);
    KeyHasOnePartition(log, None, upper, mergeKey, k, None, Some(upper), e);
    KeyWindowSplits(log, None, lower, Some(upper), mergeKey, k, e.partition);
    KeyWindowIsRising(log, None, Some(upper), upper, mergeKey, k, e);
    RisingParts(first, es, [], e.partition);
    assert first + es + [] == first + es;
    forall f: Event | f in es ensures LexLess(fence[e.partition], f.position) {
      LexTotal(fence[e.partition], f.position);
    }
  }

  lemma KeyIsAcceptedExactlyWhen(
      snapshot: Table, log: seq<Event>, evidence: Evidence, upper: Checkpoint, mergeKey: seq<string>, k: Key)
    requires upper.Keys == evidence.snapshot.Keys && Covers(upper, evidence.snapshot) && IsLog(log, None, upper, mergeKey)
    requires SnapshotOf(snapshot, log, evidence.snapshot, mergeKey)
    ensures var es := KeyWindow(log, Some(evidence.snapshot), Some(upper), mergeKey, k);
            FoldRow(Find(snapshot, k), es, Policy(mergeKey, Some(evidence.snapshot), Apply)).Ok? <==>
            Comparable(Find(snapshot, k).Some?, es, evidence.snapshot)
  {
    hide KeyWindow, FoldRow, IsLog, PlainMeaning, LexLess;
    var lower := Some(evidence.snapshot);
    var es := KeyWindow(log, lower, Some(upper), mergeKey, k);
    if es == [] {
      NothingFolded(Find(snapshot, k), es, Policy(mergeKey, lower, Apply));
    } else {
      assert es[0] in es;
      FenceKey(log, evidence.snapshot, upper, mergeKey, k, es[0]);
      ChainIsAcceptedExactlyWhen(Find(snapshot, k), es, Policy(mergeKey, lower, Apply), es[0].partition);
    }
  }

  lemma FenceIsCovered(fence: Checkpoint, upper: Checkpoint)
    requires Covers(upper, fence)
    ensures AtOrBefore(None, Some(fence)) && AtOrBefore(Some(fence), Some(upper))
  {
  }
}
