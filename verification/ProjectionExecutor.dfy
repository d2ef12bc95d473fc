/** One run of the current-projection executor on the real tables: execute_delta_current_projection and
    rebuild_delta_current_projection (execution/current_projection.py). */
module ProjectionExecutor {
  import opened Common
  import opened CdcCapture
  import opened CheckpointStore
  import opened DatasetLease
  import opened CurrentProjection
  import opened ProjectionProtocol
  import opened ProjectionSteps

  datatype ExecutionError =
    | MissingArguments
    | MissingReconciliation
    | MutationInProgress
    | Uninitialized
    | ForeignCheckpoint
    | CannotResume(reason: ResumeError)
    | IncompleteEvidence
    | SnapshotNotAtUpper
    | BadFeed(cause: AffectedError)
    | HistoryOutOfScope
    | WouldRewind
    | Unprojectable(why: ProjectionError)
    | ReconciliationFailed
    | CheckpointRefused(conflict: CommitError)

  datatype Outcome = NoWork | Applied(upper: int, selected: Option<set<Key>>, projection: Projection, state: CheckpointState)

  /** Who runs, on which dataset, and when. */
  datatype RunContext = RunContext(dataset: string, owner: string, runId: int, now: int, deadline: int)

  datatype Layout = Layout(businessKey: seq<string>, projected: seq<string>)

  datatype Reconciliation = Reconciliation(required: bool, check: Option<Projection -> bool>)
  {
    predicate Passes(p: Projection) {
      check.None? || check.value(p)
    }

    function Gate(p: Projection): StateCommitGate {
      StateCommitGate(true, required, Passes(p), false)
    }
  }

  /** The rows after the write: selected keys follow the supplied history, all others are as before. */
  ghost predicate WrittenFrom(
      before: seq<Columns>, after: seq<Columns>, history: seq<HistoryRow>, layout: Layout, affected: Option<set<Key>>)
  {
    && LoadRows(before, layout.businessKey).Ok?
    && LoadRows(after, layout.businessKey).Ok?
    && ReadHistory(history, layout.businessKey, layout.projected).Ok?
    && var h := ReadHistory(history, layout.businessKey, layout.projected).value;
       var t := LoadRows(before, layout.businessKey).value;
       FollowsHistory(LoadRows(after, layout.businessKey).value, t, h.current, Selected(t, h, affected))
  }

  /** The rows after the write of a plan that was made from the selected rows and the supplied history. */
  ghost predicate Wrote(
      before: seq<Columns>, after: seq<Columns>, history: seq<HistoryRow>, layout: Layout, affected: Option<set<Key>>,
      p: Projection)
  {
    && LoadRows(before, layout.businessKey).Ok?
    && ReadHistory(history, layout.businessKey, layout.projected).Ok?
    && var h := ReadHistory(history, layout.businessKey, layout.projected).value;
       var t := LoadRows(before, layout.businessKey).value;
       var read := if affected.None? then t else Scope(t, affected.value);
       && IsProjection(p, read, h.current, Selected(read, h, affected))
       && LoadRows(after, layout.businessKey) == Ok(Patch(t, p.upserts, p.deletes))
  }

  /** Whatever became of the call: nothing was written, or a plan was, and its checkpoint was committed or not. */
  ghost predicate Did(
      seen: Option<CheckpointState>, checkpoint: Option<CheckpointState>, before: seq<Columns>, after: seq<Columns>,
      history: seq<HistoryRow>, layout: Layout, affected: Option<set<Key>>, upper: nat, runId: int,
      reconciliation: Reconciliation)
  {
    || (checkpoint == seen && after == before)
    || exists p ::
         && Wrote(before, after, history, layout, affected, p)
         && MayCommit(seen, upper, runId, reconciliation.required, reconciliation.Passes(p), checkpoint)
  }

  /** The target, the supplied history and the selection can be projected. */
  ghost predicate Projectable(
      rows: seq<Columns>, history: seq<HistoryRow>, layout: Layout, affected: Option<set<Key>>) {
    && ValidColumns(layout.businessKey, layout.projected)
    && LoadRows(rows, layout.businessKey).Ok?
    && ReadHistory(history, layout.businessKey, layout.projected).Ok?
    && ValidAffected(affected, |layout.businessKey|)
  }

  /** Why a run stops at or after its plan: what cannot be projected, or a written plan that does not reconcile or whose
      checkpoint is refused. */
  ghost predicate Stopped(
      error: ExecutionError, seen: Option<CheckpointState>, before: seq<Columns>, after: seq<Columns>,
      history: seq<HistoryRow>, layout: Layout, affected: Option<set<Key>>, upper: nat, runId: int,
      reconciliation: Reconciliation)
  {
    match error
    case Unprojectable(_) => !Projectable(before, history, layout, affected) && after == before
    case ReconciliationFailed =>
      Projectable(before, history, layout, affected)
      && exists p :: Wrote(before, after, history, layout, affected, p) && reconciliation.required && !reconciliation.Passes(p)
    case CheckpointRefused(e) =>
      Projectable(before, history, layout, affected)
      && exists p ::
           && Wrote(before, after, history, layout, affected, p)
           && CommitRow(seen, ProgressAt(upper), runId, if seen.Some? then seen.value.version else 0, reconciliation.Gate(p)) == Err(e)
    case _ => false
  }

  lemma StoppedAfterWrite(
      seen: Option<CheckpointState>, before: seq<Columns>, after: seq<Columns>, history: seq<HistoryRow>,
      layout: Layout,
      affected: Option<set<Key>>, upper: nat, runId: int, reconciliation: Reconciliation, p: Projection)
    requires Projectable(before, history, layout, affected) && Wrote(before, after, history, layout, affected, p)
    ensures Did(seen, seen, before, after, history, layout, affected, upper, runId, reconciliation)
    ensures !reconciliation.Gate(p).CanAdvance() ==>
              Stopped(ReconciliationFailed, seen, before, after, history, layout, affected, upper, runId, reconciliation)
    ensures var r := CommitRow(seen, ProgressAt(upper), runId, if seen.Some? then seen.value.version else 0, reconciliation.Gate(p));
            && (r.Err? ==> Stopped(CheckpointRefused(r.error), seen, before, after, history, layout, affected, upper, runId, reconciliation))
            && (r.Ok? && reconciliation.Gate(p).CanAdvance() ==>
                  Did(seen, Some(r.value), before, after, history, layout, affected, upper, runId, reconciliation))
  {
    hide Wrote, Projectable, CommitRow, ProgressAt;
  }

  lemma StoppedBefore(
      seen: Option<CheckpointState>, rows: seq<Columns>, history: seq<HistoryRow>, layout: Layout,
      affected: Option<set<Key>>, upper: nat, runId: int, reconciliation: Reconciliation, e: ProjectionError)
    ensures Did(seen, seen, rows, rows, history, layout, affected, upper, runId, reconciliation)
    ensures !Projectable(rows, history, layout, affected) ==>
              Stopped(Unprojectable(e), seen, rows, rows, history, layout, affected, upper, runId, reconciliation)
  {
    hide Wrote, Projectable;
  }

  lemma UpsertsAreKeyed(p: Projection, existing: Rows, current: Rows, selected: set<Key>, businessKey: seq<string>)
    requires IsProjection(p, existing, current, selected)
    requires forall k | k in current :: KeyOf(current[k], businessKey) == Some(k)
    ensures forall k | k in p.upserts :: KeyOf(p.upserts[k], businessKey) == Some(k)
  {
    hide KeyOf, FollowsHistory, DeletesOf, Counted;
  }

  lemma WriteFollows(t: Rows, read: Rows, h: History, affected: Option<set<Key>>, p: Projection)
    requires read == if affected.None? then t else Scope(t, affected.value)
    requires IsProjection(p, read, h.current, Selected(read, h, affected))
    ensures FollowsHistory(Patch(t, p.upserts, p.deletes), t, h.current, Selected(t, h, affected))
  {
    hide IsProjection, Patch, FollowsHistory, Find, Scope;
    if affected.Some? {
      ScopeFinds(t, affected.value);
    }
    PatchFollowsHistory(t, read, h.current, h.current, Selected(read, h, affected), p);
  }

  /** _apply_and_commit: plan from the selected target rows, write, reconcile, commit. */
  method ApplyAndCommit(
      checkpoints: CheckpointTable, target: InMemoryCurrentProjectionTarget, context: RunContext, layout: Layout,
      historyRows: seq<HistoryRow>, affected: Option<set<Key>>, upper: nat, seen: Option<CheckpointState>,
      reconciliation: Reconciliation)
    returns (r: Result<Outcome, ExecutionError>)
    requires seen == checkpoints.Read(context.dataset)
    modifies checkpoints, target
    ensures Did(seen, checkpoints.Read(context.dataset), old(target.rows), target.rows, historyRows, layout, affected, upper,
                context.runId, reconciliation)
    ensures r.Err? ==> checkpoints.rows == old(checkpoints.rows)
    ensures r.Err? ==> Stopped(r.error, seen, old(target.rows), target.rows, historyRows, layout, affected, upper, context.runId,
                               reconciliation)
    ensures r.Ok? ==> Projectable(old(target.rows), historyRows, layout, affected)
    ensures target.rows == old(target.rows) || WrittenFrom(old(target.rows), target.rows, historyRows, layout, affected)
    ensures r.Ok? ==>
              && r.value.Applied? && r.value.upper == upper && r.value.selected == affected
              && ValidColumns(layout.businessKey, layout.projected)
              && WrittenFrom(old(target.rows), target.rows, historyRows, layout, affected)
              && Wrote(old(target.rows), target.rows, historyRows, layout, affected, r.value.projection)
              && reconciliation.Gate(r.value.projection).CanAdvance()
              && CommitRow(seen, ProgressAt(upper), context.runId, if seen.Some? then seen.value.version else 0,
                           reconciliation.Gate(r.value.projection)) == Ok(r.value.state)
              && r.value.state.checkpoint == ProgressAt(upper) && r.value.state.runId == context.runId
              && checkpoints.rows == old(checkpoints.rows)[context.dataset := r.value.state]
  {
    hide KeyOf, LoadRows, ReadHistory, ValidColumns, ValidAffected, Scope, IsProjection, FollowsHistory, Patch,
      CommitRow, Did, Stopped, ProgressAt;
    ghost var before := target.rows;
    var read := target.ReadProjectionRows(layout.businessKey, affected);
    var planned := ApplyCurrentProjection(read, historyRows, layout.businessKey, layout.projected, affected);
    if planned.Err? {
      StoppedBefore(seen, before, historyRows, layout, affected, upper, context.runId, reconciliation, planned.error);
      return Err(Unprojectable(planned.error));
    }
    var p := planned.value;
    ghost var h := ReadHistory(historyRows, layout.businessKey, layout.projected).value;
    ghost var existing := LoadRows(read, layout.businessKey).value;
    CurrentRowsAreKeyed(historyRows, layout.businessKey, layout.projected);
    UpsertsAreKeyed(p, existing, h.current, Selected(existing, h, affected), layout.businessKey);
    var observed := target.ApplyProjection(p, layout.businessKey);
    if observed.Err? {
      StoppedBefore(seen, before, historyRows, layout, affected, upper, context.runId, reconciliation, observed.error);
      return Err(Unprojectable(observed.error));
    }
    WriteFollows(LoadRows(before, layout.businessKey).value, existing, h, affected, p);
    assert Wrote(before, target.rows, historyRows, layout, affected, p);
    assert Projectable(before, historyRows, layout, affected);
    StoppedAfterWrite(seen, before, target.rows, historyRows, layout, affected, upper, context.runId, reconciliation, p);
    var gate := StateCommitGate(true, reconciliation.required, reconciliation.check.None? || reconciliation.check.value(p), false);
    if !gate.CanAdvance() {
      return Err(ReconciliationFailed);
    }
    var next := checkpoints.Commit(
      context.dataset, ProgressAt(upper), context.runId, if seen.Some? then seen.value.version else 0, gate);
    if next.Err? {
      return Err(CheckpointRefused(next.error));
    }
    r := Ok(Applied(upper, affected, p, next.value));
  }

  /** _assert_history_scope */
  method HistoryIsScoped(
      historyRows: seq<HistoryRow>, businessKey: seq<string>, affected: set<Key>) returns (scoped: bool)
    ensures scoped <==> forall h | h in historyRows :: KeyOf(h.data, businessKey).Some? && KeyOf(h.data, businessKey).value in affected
  {
    hide KeyOf;
    for i := 0 to |historyRows|
      invariant forall j | 0 <= j < i ::
        KeyOf(historyRows[j].data, businessKey).Some? && KeyOf(historyRows[j].data, businessKey).value in affected
    {
      var key := KeyOf(historyRows[i].data, businessKey);
      if key.None? || key.value !in affected {
        assert historyRows[i] in historyRows;
        return false;
      }
    }
    scoped := true;
  }

  /** What the caller supplies to an incremental run. */
  datatype Evidence = Evidence(
    records: seq<CdfRecord>, historyRows: seq<HistoryRow>, snapshotVersion: int, feed: FeedRange,
    feedComplete: bool, snapshotComplete: bool)

  /** The keys that an incremental run selects: those of the records above the committed version. */
  ghost predicate SelectedByFeed(evidence: Evidence, businessKey: seq<string>, start: int, affected: set<Key>) {
    forall k :: k in affected <==>
      exists c :: c in evidence.records && c.version >= start && KeyOf(c.data, businessKey) == Some(k)
  }

  /** Every history row belongs to one of the keys. */
  ghost predicate Scoped(historyRows: seq<HistoryRow>, businessKey: seq<string>, affected: set<Key>) {
    forall h | h in historyRows :: KeyOf(h.data, businessKey).Some? && KeyOf(h.data, businessKey).value in affected
  }

  /** Whatever became of an incremental run under the lease. */
  ghost predicate DeltaDid(
      seen: Option<CheckpointState>, checkpoint: Option<CheckpointState>, before: seq<Columns>, after: seq<Columns>,
      evidence: Evidence, layout: Layout, runId: int, reconciliation: Reconciliation)
  {
    || (checkpoint == seen && after == before)
    || (&& Increment(seen, evidence.feed).Some?
        && var range := Increment(seen, evidence.feed).value;
           && evidence.feedComplete && evidence.snapshotComplete && evidence.snapshotVersion == range.upper >= 0
           && exists affected ::
                && SelectedByFeed(evidence, layout.businessKey, range.start, affected)
                && Scoped(evidence.historyRows, layout.businessKey, affected)
                && Did(seen, checkpoint, before, after, evidence.historyRows, layout, Some(affected), range.upper, runId, reconciliation))
  }

  /** No record is newer than the range, and those inside it have complete keys. */
  ghost predicate FeedIsReadable(records: seq<CdfRecord>, businessKey: seq<string>, range: Resume) {
    forall c | c in records :: c.version <= range.upper && (c.version >= range.start ==> KeyOf(c.data, businessKey).Some?)
  }

  /** The range that the progress and the feed leave to do: None when it is empty. */
  function RangeOf(seen: Option<CheckpointState>, feed: FeedRange): Result<Option<Resume>, ExecutionError> {
    if seen.None? then Err(Uninitialized)
    else
      var lower := ProcessedVersion(seen);
      if lower.Err? || lower.value.None? then Err(ForeignCheckpoint)
      else
        var resume := PlanResume(lower.value.value, feed);
        if resume.Err? then Err(CannotResume(resume.error))
        else Ok(if resume.value.start > resume.value.upper then None else Some(resume.value))
  }

  lemma RangeIsIncrement(seen: Option<CheckpointState>, feed: FeedRange)
    ensures var range := RangeOf(seen, feed);
            && Increment(seen, feed) == (if range.Ok? then range.value else None)
            && (range.Ok? ==> ProcessedVersion(seen).Ok?)
            && (range.Ok? && range.value.Some? ==> 0 <= range.value.value.upper)
  {
    hide PlanResume;
    if RangeOf(seen, feed).Ok? && RangeOf(seen, feed).value.Some? {
      ResumesExactlyWhen(ProcessedVersion(seen).value.value, feed);
    }
  }

  /** Nothing is left to do exactly when the committed version is the one asked for, and what is left are the versions
      between the two. */
  lemma RangeExactlyWhen(seen: Option<CheckpointState>, feed: FeedRange)
    ensures var upper := if feed.requestedUpper.Some? then feed.requestedUpper.value else feed.latest;
            var lower := ProcessedVersion(seen);
            var resumable := lower.Ok? && lower.value.Some? && PlanResume(lower.value.value, feed).Ok?;
            && (RangeOf(seen, feed) == Ok(None) <==> resumable && lower.value.value == upper)
            && (forall range :: RangeOf(seen, feed) == Ok(Some(range)) <==>
                  resumable && lower.value.value < upper && range == Resume(lower.value.value + 1, upper))
  {
    hide PlanResume;
    if seen.Some? && ProcessedVersion(seen).Ok? && ProcessedVersion(seen).value.Some? {
      ResumesExactlyWhen(ProcessedVersion(seen).value.value, feed);
    }
  }

  /** Why an incremental run stops, in the order of the checks: the progress does not allow it, the evidence is
      incomplete or
      for another version, the feed is unreadable, the history is out of scope, or the plan does not go through. */
  ghost predicate DeltaStopped(
      error: ExecutionError, seen: Option<CheckpointState>, before: seq<Columns>, after: seq<Columns>,
      evidence: Evidence,
      layout: Layout, runId: int, reconciliation: Reconciliation)
  {
    var resumed := RangeOf(seen, evidence.feed);
    if resumed.Err? then error == resumed.error && after == before
    else
      && resumed.value.Some?
      && var range := resumed.value.value;
         if !evidence.feedComplete || !evidence.snapshotComplete then error == IncompleteEvidence && after == before
         else if evidence.snapshotVersion != range.upper then error == SnapshotNotAtUpper && after == before
         else if !FeedIsReadable(evidence.records, layout.businessKey, range) then error.BadFeed? && after == before
         else
           && 0 <= range.upper
           && exists affected ::
                && SelectedByFeed(evidence, layout.businessKey, range.start, affected)
                && if !Scoped(evidence.historyRows, layout.businessKey, affected) then error == HistoryOutOfScope && after == before
                   else Stopped(error, seen, before, after, evidence.historyRows, layout, Some(affected), range.upper, runId, reconciliation)
  }

  lemma NothingDone(
      seen: Option<CheckpointState>, rows: seq<Columns>, evidence: Evidence, layout: Layout, runId: int,
      reconciliation: Reconciliation)
    ensures DeltaDid(seen, seen, rows, rows, evidence, layout, runId, reconciliation)
  {
    hide Did, Increment;
  }

  /** What a run over a range did, and why it stopped, once the affected keys are known. */
  lemma RangeDone(
      seen: Option<CheckpointState>, checkpoint: Option<CheckpointState>, before: seq<Columns>, after: seq<Columns>,
      evidence: Evidence, layout: Layout, runId: int, reconciliation: Reconciliation, range: Resume, affected: set<Key>)
    requires RangeOf(seen, evidence.feed) == Ok(Some(range)) && 0 <= range.upper
    requires evidence.feedComplete && evidence.snapshotComplete && evidence.snapshotVersion == range.upper
    requires FeedIsReadable(evidence.records, layout.businessKey, range)
    requires SelectedByFeed(evidence, layout.businessKey, range.start, affected)
    ensures Scoped(evidence.historyRows, layout.businessKey, affected)
            && Did(seen, checkpoint, before, after, evidence.historyRows, layout, Some(affected), range.upper, runId, reconciliation)
            ==> DeltaDid(seen, checkpoint, before, after, evidence, layout, runId, reconciliation)
    ensures forall error ::
              (if !Scoped(evidence.historyRows, layout.businessKey, affected) then error == HistoryOutOfScope && after == before
               else Stopped(error, seen, before, after, evidence.historyRows, layout, Some(affected), range.upper, runId, reconciliation))
              ==> DeltaStopped(error, seen, before, after, evidence, layout, runId, reconciliation)
  {
    hide Did, Stopped, Scoped, SelectedByFeed, FeedIsReadable, PlanResume, ProcessedVersion;
    RangeIsIncrement(seen, evidence.feed);
  }

  /** Why a rebuild stops: the progress is not its own or would be rewound, or the plan does not go through. */
  ghost predicate RebuildStopped(
      error: ExecutionError, seen: Option<CheckpointState>, before: seq<Columns>, after: seq<Columns>,
      history: seq<HistoryRow>, snapshot: nat, layout: Layout, runId: int, reconciliation: Reconciliation)
  {
    var lower := ProcessedVersion(seen);
    if lower.Err? then error == ForeignCheckpoint && after == before
    else if lower.value.Some? && snapshot < lower.value.value then error == WouldRewind && after == before
    else Stopped(error, seen, before, after, history, layout, None, snapshot, runId, reconciliation)
  }

  /** What an incremental run is supplied with is true of the history: the feed reports every change in the range
      when it
      is said to be complete, and the snapshot shows the reported keys as they are at the upper version when it is. */
  ghost predicate TrueEvidence(s: State, evidence: Evidence, layout: Layout) {
    && evidence.feed.latest < |s.history|
    && (Increment(s.checkpoint, evidence.feed).Some? ==>
          var range := Increment(s.checkpoint, evidence.feed).value;
          && (evidence.feedComplete ==>
                forall affected | SelectedByFeed(evidence, layout.businessKey, range.start, affected) ::
                  CoversChanges(s.history, range.start, range.upper, affected))
          && (evidence.snapshotComplete && evidence.snapshotVersion == range.upper
              && 0 <= range.upper < |s.history| && ReadHistory(evidence.historyRows, layout.businessKey, layout.projected).Ok? ==>
                forall affected, k | SelectedByFeed(evidence, layout.businessKey, range.start, affected) && k in affected ::
                  Find(ReadHistory(evidence.historyRows, layout.businessKey, layout.projected).value.current, k) ==
                  Find(s.history[range.upper].current, k)))
  }

  lemma {:induction false} CurrentRowsComeFrom(rows: seq<HistoryRow>, businessKey: seq<string>, projected: seq<string>)
    requires ReadHistory(rows, businessKey, projected).Ok?
    ensures forall k | k in ReadHistory(rows, businessKey, projected).value.current ::
              exists h :: h in rows && KeyOf(h.data, businessKey) == Some(k)
    decreases |rows|
  {
    hide KeyOf, ProjectRow;
    if rows != [] {
      var prefix, last := rows[..|rows| - 1], rows[|rows| - 1];
      assert rows == prefix + [last];
      CurrentRowsComeFrom(prefix, businessKey, projected);
      forall k | k in ReadHistory(rows, businessKey, projected).value.current
        ensures exists h :: h in rows && KeyOf(h.data, businessKey) == Some(k)
      {
        if k in ReadHistory(prefix, businessKey, projected).value.current {
          var h :| h in prefix && KeyOf(h.data, businessKey) == Some(k);
          assert h in rows;
        } else {
          assert last in rows;
        }
      }
    }
  }

  /** The supplied history, scoped to the affected keys, is the part of the true one on these keys. */
  lemma SuppliedIsScope(supplied: Rows, truth: Rows, affected: set<Key>)
    requires supplied.Keys <= affected && forall k | k in affected :: Find(supplied, k) == Find(truth, k)
    ensures supplied == Scope(truth, affected)
  {
    forall k ensures Find(supplied, k) == Find(Scope(truth, affected), k) {
      assert k in affected ==> Find(supplied, k) == Find(truth, k);
    }
    SameRows(supplied, Scope(truth, affected));
  }

  /** An incremental run under the lease is made of protocol steps. */
  lemma DeltaIsSteps(
      s: State, owner: string, checkpoint: Option<CheckpointState>, before: seq<Columns>, after: seq<Columns>,
      evidence: Evidence, layout: Layout, runId: int, reconciliation: Reconciliation)
    requires s.PhaseOf(owner).Holding? && owner in s.runs && LoadRows(before, layout.businessKey) == Ok(s.target)
    requires TrueEvidence(s, evidence, layout)
    requires DeltaDid(s.checkpoint, checkpoint, before, after, evidence, layout, runId, reconciliation)
    ensures LoadRows(after, layout.businessKey).Ok? && Leaves(s, owner, checkpoint, LoadRows(after, layout.businessKey).value)
  {
    hide LoadRows, ReadHistory, IsProjection, Increment, Leaves, MayCommit, SelectedByFeed, CoversChanges, Find,
      Patch, KeyOf;
    if checkpoint == s.checkpoint && after == before {
      RefusedRunLeaves(s, owner);
    } else {
      var range := Increment(s.checkpoint, evidence.feed).value;
      var affected :|
        && SelectedByFeed(evidence, layout.businessKey, range.start, affected)
        && Scoped(evidence.historyRows, layout.businessKey, affected)
        && Did(s.checkpoint, checkpoint, before, after, evidence.historyRows, layout, Some(affected), range.upper, runId, reconciliation);
      var p :|
        && Wrote(before, after, evidence.historyRows, layout, Some(affected), p)
        && MayCommit(s.checkpoint, range.upper, runId, reconciliation.required, reconciliation.Passes(p), checkpoint);
      IncrementRange(s.checkpoint, evidence.feed);
      var supplied := ReadHistory(evidence.historyRows, layout.businessKey, layout.projected).value.current;
      CurrentRowsComeFrom(evidence.historyRows, layout.businessKey, layout.projected);
      SuppliedIsScope(supplied, s.history[range.upper].current, affected);
      AtTwice(s, owner, Informed(s.checkpoint), Leaving);
      IncrementLeaves(s, owner, evidence.feed, affected, p, runId, reconciliation.required, reconciliation.Passes(p), checkpoint);
    }
  }

  /** A rebuild under the lease is made of protocol steps, when the supplied history is that of the snapshot version. */
  lemma RebuildIsSteps(
      s: State, owner: string, checkpoint: Option<CheckpointState>, before: seq<Columns>, after: seq<Columns>,
      history: seq<HistoryRow>, snapshot: nat, layout: Layout, runId: int, reconciliation: Reconciliation)
    requires s.PhaseOf(owner).Holding? && owner in s.runs && LoadRows(before, layout.businessKey) == Ok(s.target)
    requires TrueSnapshot(s, history, snapshot, layout)
    requires RebuildDid(s.checkpoint, checkpoint, before, after, history, snapshot, layout, runId, reconciliation)
    ensures LoadRows(after, layout.businessKey).Ok? && Leaves(s, owner, checkpoint, LoadRows(after, layout.businessKey).value)
  {
    hide LoadRows, ReadHistory, IsProjection, Leaves, MayCommit, Find, Patch, ProcessedVersion;
    if checkpoint == s.checkpoint && after == before {
      RefusedRunLeaves(s, owner);
    } else {
      var p :|
        && Wrote(before, after, history, layout, None, p)
        && MayCommit(s.checkpoint, snapshot, runId, reconciliation.required, reconciliation.Passes(p), checkpoint);
      AtTwice(s, owner, Informed(s.checkpoint), Leaving);
      RebuildLeaves(s, owner, snapshot, p, runId, reconciliation.required, reconciliation.Passes(p), checkpoint);
    }
  }

  /** The supplied history is the whole of the history at the snapshot version. */
  ghost predicate TrueSnapshot(s: State, history: seq<HistoryRow>, snapshot: nat, layout: Layout) {
    && snapshot < |s.history|
    && (ReadHistory(history, layout.businessKey, layout.projected).Ok? ==>
          var h := ReadHistory(history, layout.businessKey, layout.projected).value;
          h.current == s.history[snapshot].current && h.keys == s.history[snapshot].keys)
  }

  /** Whatever became of a rebuild under the lease. */
  ghost predicate RebuildDid(
      seen: Option<CheckpointState>, checkpoint: Option<CheckpointState>, before: seq<Columns>, after: seq<Columns>,
      history: seq<HistoryRow>, snapshot: nat, layout: Layout, runId: int, reconciliation: Reconciliation)
  {
    || (checkpoint == seen && after == before)
    || (&& ProcessedVersion(seen).Ok? && (ProcessedVersion(seen).value.Some? ==> ProcessedVersion(seen).value.value <= snapshot)
        && Did(seen, checkpoint, before, after, history, layout, None, snapshot, runId, reconciliation))
  }

  /** The incremental run once the lease is held. */
  method DeltaUnderLease(
      checkpoints: CheckpointTable, target: InMemoryCurrentProjectionTarget, context: RunContext, layout: Layout,
      evidence: Evidence, reconciliation: Reconciliation)
    returns (r: Result<Outcome, ExecutionError>)
    modifies checkpoints, target
    ensures DeltaDid(old(checkpoints.Read(context.dataset)), checkpoints.Read(context.dataset), old(target.rows), target.rows,
                     evidence, layout, context.runId, reconciliation)
    ensures r.Err? || r.value.NoWork? ==> checkpoints.rows == old(checkpoints.rows)
    ensures r == Ok(NoWork) <==> RangeOf(old(checkpoints.Read(context.dataset)), evidence.feed) == Ok(None)
    ensures r == Ok(NoWork) ==> target.rows == old(target.rows)
    ensures r.Err? ==> DeltaStopped(r.error, old(checkpoints.Read(context.dataset)), old(target.rows), target.rows, evidence, layout,
                                    context.runId, reconciliation)
    ensures target.rows == old(target.rows)
            || exists affected :: WrittenFrom(old(target.rows), target.rows, evidence.historyRows, layout, Some(affected))
    ensures r.Ok? && r.value.Applied? ==>
              && r.value.upper == evidence.snapshotVersion && r.value.selected.Some?
              && Increment(old(checkpoints.Read(context.dataset)), evidence.feed).Some?
              && Increment(old(checkpoints.Read(context.dataset)), evidence.feed).value.upper == r.value.upper
              && SelectedByFeed(evidence, layout.businessKey,
                                Increment(old(checkpoints.Read(context.dataset)), evidence.feed).value.start, r.value.selected.value)
              && WrittenFrom(old(target.rows), target.rows, evidence.historyRows, layout, r.value.selected)
              && Wrote(old(target.rows), target.rows, evidence.historyRows, layout, r.value.selected, r.value.projection)
              && reconciliation.Gate(r.value.projection).CanAdvance()
              && r.value.state.checkpoint == ProgressAt(r.value.upper)
              && checkpoints.rows == old(checkpoints.rows)[context.dataset := r.value.state]
  {
    hide KeyOf, LoadRows, ReadHistory, WrittenFrom, Covers, ProgressAt, PlanResume, Did, Stopped, DeltaDid, Increment,
      CommitRow, Wrote;
    var seen := checkpoints.Read(context.dataset);
    ghost var before := target.rows;
    NothingDone(seen, before, evidence, layout, context.runId, reconciliation);
    RangeIsIncrement(seen, evidence.feed);
    if seen.None? {
      return Err(Uninitialized);
    }
    var lower := ProcessedVersion(seen);
    if lower.Err? {
      return Err(ForeignCheckpoint);
    }
    var resume := PlanResume(lower.value.value, evidence.feed);
    if resume.Err? {
      return Err(CannotResume(resume.error));
    }
    if resume.value.start > resume.value.upper {
      return Ok(NoWork);
    }
    if !evidence.feedComplete || !evidence.snapshotComplete {
      return Err(IncompleteEvidence);
    }
    if evidence.snapshotVersion != resume.value.upper {
      return Err(SnapshotNotAtUpper);
    }
    var affected := AffectedKeys(evidence.records, layout.businessKey, resume.value.start, resume.value.upper);
    if affected.Err? {
      return Err(BadFeed(affected.error));
    }
    var scoped := HistoryIsScoped(evidence.historyRows, layout.businessKey, affected.value);
    if !scoped {
      RangeDone(seen, seen, before, before, evidence, layout, context.runId, reconciliation, resume.value, affected.value);
      return Err(HistoryOutOfScope);
    }
    r := ApplyAndCommit(checkpoints, target, context, layout, evidence.historyRows, Some(affected.value), resume.value.upper, seen,
                        reconciliation);
    RangeDone(seen, checkpoints.Read(context.dataset), before, target.rows, evidence, layout, context.runId, reconciliation,
              resume.value, affected.value);
  }

  /** From every protocol state that the tables show, and in which the evidence is true, steps of the protocol lead to
      the tables afterwards. */
  ghost predicate DeltaSimulated(
      before: Tables, after: Tables, context: RunContext, layout: Layout, evidence: Evidence) {
    forall s: State | Shows(before, s, layout.businessKey) && context.owner !in s.runs && s.now == context.now
                      && TrueEvidence(s, evidence, layout) ::
      Reaches(s, after, layout.businessKey)
  }

  ghost predicate RebuildSimulated(
      before: Tables, after: Tables, context: RunContext, layout: Layout, history: seq<HistoryRow>, snapshot: nat)
  {
    forall s: State | Shows(before, s, layout.businessKey) && context.owner !in s.runs && s.now == context.now
                      && TrueSnapshot(s, history, snapshot, layout) ::
      Reaches(s, after, layout.businessKey)
  }

  lemma UnchangedIsSimulated(t: Tables, context: RunContext, layout: Layout, evidence: Evidence)
    ensures DeltaSimulated(t, t, context, layout, evidence)
  {
    hide Shows, Reaches, TrueEvidence;
    forall s: State | Shows(t, s, layout.businessKey) ensures Reaches(s, t, layout.businessKey) {
      NothingReached(s, t, layout.businessKey);
    }
  }

  lemma UnchangedRebuildIsSimulated(
      t: Tables, context: RunContext, layout: Layout, history: seq<HistoryRow>, snapshot: nat)
    ensures RebuildSimulated(t, t, context, layout, history, snapshot)
  {
    hide Shows, Reaches, TrueSnapshot;
    forall s: State | Shows(t, s, layout.businessKey) ensures Reaches(s, t, layout.businessKey) {
      NothingReached(s, t, layout.businessKey);
    }
  }

  lemma DeltaRunIsSimulated(
      before: Tables, after: Tables, context: RunContext, layout: Layout, evidence: Evidence,
      reconciliation: Reconciliation)
    requires AcquireRow(before.lease, context.owner, context.runId, context.now, context.deadline).Ok? && after.lease.None?
    requires DeltaDid(before.checkpoint, after.checkpoint, before.rows, after.rows, evidence, layout, context.runId, reconciliation)
    ensures DeltaSimulated(before, after, context, layout, evidence)
  {
    hide LoadRows, DeltaDid, Leaves, Reaches;
    forall s: State | Shows(before, s, layout.businessKey) && context.owner !in s.runs && s.now == context.now
                      && TrueEvidence(s, evidence, layout)
      ensures Reaches(s, after, layout.businessKey)
    {
      var granted := Granted(s, context.owner, AcquireRow(s.lease, context.owner, context.runId, s.now, context.deadline).value);
      DeltaIsSteps(granted, context.owner, after.checkpoint, before.rows, after.rows, evidence, layout, context.runId, reconciliation);
      WholeRunReaches(s, context.owner, context.runId, context.deadline, after.checkpoint,
                      LoadRows(after.rows, layout.businessKey).value, after, layout.businessKey);
    }
  }

  lemma RebuildRunIsSimulated(
      before: Tables, after: Tables, context: RunContext, layout: Layout, history: seq<HistoryRow>, snapshot: nat,
      reconciliation: Reconciliation)
    requires AcquireRow(before.lease, context.owner, context.runId, context.now, context.deadline).Ok? && after.lease.None?
    requires RebuildDid(before.checkpoint, after.checkpoint, before.rows, after.rows, history, snapshot, layout, context.runId,
                        reconciliation)
    ensures RebuildSimulated(before, after, context, layout, history, snapshot)
  {
    hide LoadRows, RebuildDid, Leaves, Reaches;
    forall s: State | Shows(before, s, layout.businessKey) && context.owner !in s.runs && s.now == context.now
                      && TrueSnapshot(s, history, snapshot, layout)
      ensures Reaches(s, after, layout.businessKey)
    {
      var granted := Granted(s, context.owner, AcquireRow(s.lease, context.owner, context.runId, s.now, context.deadline).value);
      RebuildIsSteps(granted, context.owner, after.checkpoint, before.rows, after.rows, history, snapshot, layout, context.runId,
                     reconciliation);
      WholeRunReaches(s, context.owner, context.runId, context.deadline, after.checkpoint,
                      LoadRows(after.rows, layout.businessKey).value, after, layout.businessKey);
    }
  }

  /** What stops a call before it holds the lease. */
  function Refused(
      context: RunContext, layout: Layout, reconciliation: Reconciliation, claimed: bool): Option<ExecutionError> {
    if context.dataset == "" || layout.businessKey == [] then Some(MissingArguments)
    else if reconciliation.required && reconciliation.check.None? then Some(MissingReconciliation)
    else if context.owner == "" || context.deadline <= context.now then Some(MissingArguments)
    else if claimed then Some(MutationInProgress)
    else None
  }

  /** The whole incremental run: the lease is given back on every path, and what it does is made of protocol steps. */
  method ExecuteDeltaCurrentProjection(
      leases: LeaseTable, checkpoints: CheckpointTable, target: InMemoryCurrentProjectionTarget,
      context: RunContext, layout: Layout, evidence: Evidence, reconciliation: Reconciliation)
    returns (r: Result<Outcome, ExecutionError>)
    modifies leases, checkpoints, target
    ensures DeltaSimulated(
              Tables(old(leases.Read(context.dataset)), old(checkpoints.Read(context.dataset)), old(target.rows)),
              Tables(leases.Read(context.dataset), checkpoints.Read(context.dataset), target.rows), context, layout, evidence)
    ensures leases.claims == old(leases.claims) && leases.recoveries == old(leases.recoveries)
    ensures context.dataset in old(leases.claims) ==> r.Err?
    ensures var refused := Refused(context, layout, reconciliation, context.dataset in old(leases.claims));
            && (refused.Some? ==> r == Err(refused.value) && target.rows == old(target.rows))
            && (refused.None? && r.Err? ==>
                  DeltaStopped(r.error, old(checkpoints.Read(context.dataset)), old(target.rows), target.rows, evidence, layout,
                               context.runId, reconciliation))
            && (refused.None? ==> (r == Ok(NoWork) <==> RangeOf(old(checkpoints.Read(context.dataset)), evidence.feed) == Ok(None)))
    ensures r == Ok(NoWork) ==> target.rows == old(target.rows)
    ensures r.Err? || r.value.NoWork? ==> checkpoints.rows == old(checkpoints.rows)
    ensures r.Ok? && r.value.Applied? ==>
              && WrittenFrom(old(target.rows), target.rows, evidence.historyRows, layout, r.value.selected)
              && Wrote(old(target.rows), target.rows, evidence.historyRows, layout, r.value.selected, r.value.projection)
              && reconciliation.Gate(r.value.projection).CanAdvance()
              && r.value.state.checkpoint == ProgressAt(evidence.snapshotVersion)
              && checkpoints.rows == old(checkpoints.rows)[context.dataset := r.value.state]
  {
    hide WrittenFrom, ProgressAt, Increment, SelectedByFeed, DeltaSimulated, DeltaDid, DeltaStopped, RangeOf, Wrote;
    ghost var before := Tables(leases.Read(context.dataset), checkpoints.Read(context.dataset), target.rows);
    UnchangedIsSimulated(before, context, layout, evidence);
    if context.dataset == "" || layout.businessKey == [] {
      return Err(MissingArguments);
    }
    if reconciliation.required && reconciliation.check.None? {
      return Err(MissingReconciliation);
    }
    var lease := leases.Acquire(context.dataset, context.owner, context.runId, context.now, context.deadline);
    if lease.Err? {
      return Err(if lease.error.AlreadyClaimed? then MutationInProgress else MissingArguments);
    }
    r := DeltaUnderLease(checkpoints, target, context, layout, evidence, reconciliation);
    var conflict := leases.Release(context.dataset, lease.value);
    assert conflict.None?;
    DeltaRunIsSimulated(before, Tables(leases.Read(context.dataset), checkpoints.Read(context.dataset), target.rows), context,
                        layout, evidence, reconciliation);
  }

  /** The target holds exactly the current rows of the history. */
  ghost predicate HoldsHistory(rows: seq<Columns>, historyRows: seq<HistoryRow>, layout: Layout) {
    && ReadHistory(historyRows, layout.businessKey, layout.projected).Ok?
    && LoadRows(rows, layout.businessKey) == Ok(ReadHistory(historyRows, layout.businessKey, layout.projected).value.current)
  }

  /** The rebuild once the lease is held; it may not rewind the committed version. */
  method RebuildUnderLease(
      checkpoints: CheckpointTable, target: InMemoryCurrentProjectionTarget, context: RunContext, layout: Layout,
      historyRows: seq<HistoryRow>, snapshotVersion: int, reconciliation: Reconciliation)
    returns (r: Result<Outcome, ExecutionError>)
    requires snapshotVersion >= 0
    modifies checkpoints, target
    ensures RebuildDid(old(checkpoints.Read(context.dataset)), checkpoints.Read(context.dataset), old(target.rows), target.rows,
                       historyRows, snapshotVersion, layout, context.runId, reconciliation)
    ensures r.Err? ==> checkpoints.rows == old(checkpoints.rows)
    ensures r.Err? ==> RebuildStopped(r.error, old(checkpoints.Read(context.dataset)), old(target.rows), target.rows, historyRows,
                                      snapshotVersion, layout, context.runId, reconciliation)
    ensures r.Ok? ==>
              && HoldsHistory(target.rows, historyRows, layout)
              && r.value.Applied? && Wrote(old(target.rows), target.rows, historyRows, layout, None, r.value.projection)
              && Committed(old(checkpoints.Read(context.dataset))) <= snapshotVersion
              && r.value.state.checkpoint == ProgressAt(snapshotVersion)
              && reconciliation.Gate(r.value.projection).CanAdvance()
              && checkpoints.rows == old(checkpoints.rows)[context.dataset := r.value.state]
  {
    hide LoadRows, ReadHistory, WrittenFrom, Covers, ProgressAt, HoldsHistory, ValidColumns, Did, Stopped, Wrote;
    ghost var before := target.rows;
    var seen := checkpoints.Read(context.dataset);
    var lower := ProcessedVersion(seen);
    if lower.Err? {
      return Err(ForeignCheckpoint);
    }
    if lower.value.Some? && snapshotVersion < lower.value.value {
      return Err(WouldRewind);
    }
    r := ApplyAndCommit(checkpoints, target, context, layout, historyRows, None, snapshotVersion, seen, reconciliation);
    if r.Ok? {
      RebuiltIsHistory(before, target.rows, historyRows, layout);
    }
  }

  method RebuildDeltaCurrentProjection(
      leases: LeaseTable, checkpoints: CheckpointTable, target: InMemoryCurrentProjectionTarget,
      context: RunContext, layout: Layout, historyRows: seq<HistoryRow>, snapshotVersion: int, snapshotComplete: bool,
      reconciliation: Reconciliation)
    returns (r: Result<Outcome, ExecutionError>)
    modifies leases, checkpoints, target
    ensures snapshotVersion >= 0 ==>
              RebuildSimulated(
                Tables(old(leases.Read(context.dataset)), old(checkpoints.Read(context.dataset)), old(target.rows)),
                Tables(leases.Read(context.dataset), checkpoints.Read(context.dataset), target.rows), context, layout,
                historyRows, snapshotVersion)
    ensures leases.claims == old(leases.claims) && leases.recoveries == old(leases.recoveries)
    ensures context.dataset in old(leases.claims) ==> r.Err?
    ensures var refused := Refused(context, layout, reconciliation, context.dataset in old(leases.claims));
            && (snapshotVersion < 0 || !snapshotComplete || refused.Some? ==> r.Err? && target.rows == old(target.rows))
            && (snapshotVersion < 0 ==> r == Err(MissingArguments))
            && (snapshotVersion >= 0 && snapshotComplete && refused.Some? ==> r == Err(refused.value))
            && (snapshotVersion >= 0 && snapshotComplete && refused.None? && r.Err? ==>
                  RebuildStopped(r.error, old(checkpoints.Read(context.dataset)), old(target.rows), target.rows, historyRows,
                                 snapshotVersion, layout, context.runId, reconciliation))
    ensures r.Err? ==> checkpoints.rows == old(checkpoints.rows)
    ensures r.Ok? ==>
              && HoldsHistory(target.rows, historyRows, layout)
              && r.value.Applied? && Wrote(old(target.rows), target.rows, historyRows, layout, None, r.value.projection)
              && Committed(old(checkpoints.Read(context.dataset))) <= snapshotVersion
              && r.value.state.checkpoint == ProgressAt(snapshotVersion)
              && reconciliation.Gate(r.value.projection).CanAdvance()
              && checkpoints.rows == old(checkpoints.rows)[context.dataset := r.value.state]
  {
    hide HoldsHistory, ProgressAt, Committed, RebuildSimulated, RebuildDid, RebuildStopped, Wrote;
    ghost var before := Tables(leases.Read(context.dataset), checkpoints.Read(context.dataset), target.rows);
    if snapshotVersion >= 0 {
      UnchangedRebuildIsSimulated(before, context, layout, historyRows, snapshotVersion);
    }
    if context.dataset == "" || layout.businessKey == [] || snapshotVersion < 0 {
      return Err(MissingArguments);
    }
    if !snapshotComplete {
      return Err(IncompleteEvidence);
    }
    if reconciliation.required && reconciliation.check.None? {
      return Err(MissingReconciliation);
    }
    var lease := leases.Acquire(context.dataset, context.owner, context.runId, context.now, context.deadline);
    if lease.Err? {
      return Err(if lease.error.AlreadyClaimed? then MutationInProgress else MissingArguments);
    }
    r := RebuildUnderLease(checkpoints, target, context, layout, historyRows, snapshotVersion, reconciliation);
    var conflict := leases.Release(context.dataset, lease.value);
    assert conflict.None?;
    RebuildRunIsSimulated(before, Tables(leases.Read(context.dataset), checkpoints.Read(context.dataset), target.rows), context,
                          layout, historyRows, snapshotVersion, reconciliation);
  }

  lemma RebuiltIsHistory(before: seq<Columns>, after: seq<Columns>, historyRows: seq<HistoryRow>, layout: Layout)
    requires WrittenFrom(before, after, historyRows, layout, None)
    requires ValidColumns(layout.businessKey, layout.projected)
    ensures HoldsHistory(after, historyRows, layout)
  {
    hide LoadRows, ReadHistory, ValidColumns, Find;
    CurrentRowsAreKeyed(historyRows, layout.businessKey, layout.projected);
    var h := ReadHistory(historyRows, layout.businessKey, layout.projected).value;
    var t := LoadRows(before, layout.businessKey).value;
    AllSelected(t, h);
    SameRows(LoadRows(after, layout.businessKey).value, h.current);
  }
}
