/** Durable CDC apply progress with optimistic concurrency (control_plane/io.py) and the gate that
    protects it (contracts/runtime.py). */
module CheckpointStore {
  import opened Common
  import opened SourceOrder
  import opened CdcCapture

  datatype StateCommitGate = StateCommitGate(
    targetCommitted: bool, reconciliationRequired: bool, reconciliationPassed: bool, batchQuarantined: bool)
  {
    predicate CanAdvance() {
      targetCommitted && !batchQuarantined && (!reconciliationRequired || reconciliationPassed)
    }
  }

  datatype CheckpointState = CheckpointState(checkpoint: Checkpoint, runId: int, version: int)

  datatype CommitError = NegativeVersion | VersionConflict | TransitionRegresses | GateClosed

  /** CDCCheckpointTransition: progress neither drops nor rewinds a partition, and moves only through an open gate. */
  function ValidateTransition(
      before: Option<Checkpoint>, after: Checkpoint, gate: StateCommitGate): Option<CommitError> {
    if before.Some? && !Covers(after, before.value) then Some(TransitionRegresses)
    else if before != Some(after) && !gate.CanAdvance() then Some(GateClosed)
    else None
  }

  /** commit_cdc_checkpoint on the stored row of one dataset. */
  function CommitRow(
      current: Option<CheckpointState>, after: Checkpoint, runId: int, expectedVersion: int, gate: StateCommitGate)
    : Result<CheckpointState, CommitError>
  {
    if expectedVersion < 0 then Err(NegativeVersion)
    else
      var version := if current.Some? then current.value.version else 0;
      if version != expectedVersion then Err(VersionConflict)
      else
        var invalid := ValidateTransition(
          if current.Some? then Some(current.value.checkpoint) else None, after, gate);
        if invalid.Some? then Err(invalid.value)
        else Ok(CheckpointState(after, runId, version + 1))
  }

  class CheckpointTable {
    var rows: map<string, CheckpointState>

    constructor ()
      ensures rows == map[]
    {
      rows := map[];
    }

    function Read(dataset: string): Option<CheckpointState>
      reads this
    {
      Find(rows, dataset)
    }

    method Commit(dataset: string, after: Checkpoint, runId: int, expectedVersion: int, gate: StateCommitGate)
      returns (r: Result<CheckpointState, CommitError>)
      modifies this
      ensures r == CommitRow(old(Read(dataset)), after, runId, expectedVersion, gate)
      ensures r.Ok? <==>
                && expectedVersion >= 0
                && (if dataset in old(rows) then old(rows)[dataset].version == expectedVersion else expectedVersion == 0)
                && (dataset in old(rows) ==>
                      forall p | p in old(rows)[dataset].checkpoint ::
                        p in after && LexLeq(old(rows)[dataset].checkpoint[p], after[p]))
                && ((dataset in old(rows) && old(rows)[dataset].checkpoint == after)
                    || (gate.targetCommitted && !gate.batchQuarantined && (gate.reconciliationRequired ==> gate.reconciliationPassed)))
      ensures r.Ok? ==> r.value.checkpoint == after && r.value.runId == runId && r.value.version == expectedVersion + 1
      ensures rows == if r.Ok? then old(rows)[dataset := r.value] else old(rows)
    {
      if expectedVersion < 0 {
        return Err(NegativeVersion);
      }
      if dataset !in rows {
        if expectedVersion != 0 {
          return Err(VersionConflict);
        }
        var invalid := ValidateTransition(None, after, gate);
        if invalid.Some? {
          return Err(invalid.value);
        }
        rows := rows[dataset := CheckpointState(after, runId, 1)];
        return Ok(rows[dataset]);
      }
      var current := rows[dataset];
      if current.version != expectedVersion {
        return Err(VersionConflict);
      }
      var invalid := ValidateTransition(Some(current.checkpoint), after, gate);
      if invalid.Some? {
        return Err(invalid.value);
      }
      rows := rows[dataset := CheckpointState(after, runId, current.version + 1)];
      return Ok(rows[dataset]);
    }
  }

  // ---------------------------------------------------------------- many writers

  function VersionOf(current: Option<CheckpointState>): int {
    if current.Some? then current.value.version else 0
  }

  /** One writer's commit of one dataset. */
  datatype CommitCall = CommitCall(after: Checkpoint, runId: int, expectedVersion: int, gate: StateCommitGate)

  /** The stored row after any number of commits, of which those that are refused leave no trace. */
  function CommitAll(current: Option<CheckpointState>, commits: seq<CommitCall>): Option<CheckpointState> {
    if commits == [] then current
    else
      var before, c := CommitAll(current, commits[..|commits| - 1]), commits[|commits| - 1];
      var r := CommitRow(before, c.after, c.runId, c.expectedVersion, c.gate);
      if r.Ok? then Some(r.value) else before
  }

  predicate AtOrBefore(lo: Option<Checkpoint>, hi: Option<Checkpoint>) {
    lo.None? || (hi.Some? && Covers(hi.value, lo.value))
  }

  lemma AtOrBeforeReflexive(c: Option<Checkpoint>)
    ensures AtOrBefore(c, c)
  {
  }

  lemma CoversTransitive(a: Option<Checkpoint>, b: Option<Checkpoint>, c: Option<Checkpoint>)
    requires AtOrBefore(a, b) && AtOrBefore(b, c)
    ensures AtOrBefore(a, c)
  {
    if a.Some? {
      forall p | p in a.value ensures p in c.value && LexLeq(a.value[p], c.value[p]) {
        if a.value[p] != b.value[p] && b.value[p] != c.value[p] {
          LexTransitive(a.value[p], b.value[p], c.value[p]);
        }
      }
    }
  }

  function ProgressOf(current: Option<CheckpointState>): Option<Checkpoint> {
    if current.Some? then Some(current.value.checkpoint) else None
  }

  /** Whatever writers do, no partition is ever dropped or rewound, and an equal version means an untouched row. */
  lemma {:induction false} ProgressOnlyRises(current: Option<CheckpointState>, commits: seq<CommitCall>)
    requires current.Some? ==> current.value.version >= 1
    ensures var end := CommitAll(current, commits);
            && (end.Some? ==> end.value.version >= 1)
            && AtOrBefore(ProgressOf(current), ProgressOf(end))
            && VersionOf(current) <= VersionOf(end)
            && (VersionOf(end) == VersionOf(current) ==> end == current)
    decreases |commits|
  {
    if commits == [] {
      AtOrBeforeReflexive(ProgressOf(current));
    } else {
      var prefix := commits[..|commits| - 1];
      ProgressOnlyRises(current, prefix);
      var before, end := CommitAll(current, prefix), CommitAll(current, commits);
      AtOrBeforeReflexive(ProgressOf(before));
      CoversTransitive(ProgressOf(current), ProgressOf(before), ProgressOf(end));
    }
  }

  /** No lost update: a writer that read the row before any number of other writers' commits succeeds exactly when
      none of these took effect, no partition is dropped or rewound, and either nothing changes or the target is known
      to be committed and reconciled. */
  lemma CommitSucceedsExactlyWhen(
      seen: Option<CheckpointState>, others: seq<CommitCall>, after: Checkpoint, runId: int, gate: StateCommitGate)
    requires seen.Some? ==> seen.value.version >= 1
    ensures CommitRow(CommitAll(seen, others), after, runId, VersionOf(seen), gate).Ok? <==>
              && CommitAll(seen, others) == seen
              && AtOrBefore(ProgressOf(seen), Some(after))
              && (ProgressOf(seen) == Some(after) || gate.CanAdvance())
  {
    hide CommitAll, Covers;
    ProgressOnlyRises(seen, others);
  }
}
