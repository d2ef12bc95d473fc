/** What the tables of the control plane and the target show of the projection protocol, and how the effects of one run
    are made of protocol steps (execution/current_projection.py). */
module ProjectionSteps {
  import opened Common
  import opened CheckpointStore
  import opened DatasetLease
  import opened CurrentProjection
  import opened ProjectionProtocol

  /** The stored rows of one dataset: its claim, its checkpoint and its target. */
  datatype Tables = Tables(lease: Option<Lease>, checkpoint: Option<CheckpointState>, rows: seq<Columns>)

  ghost predicate Shows(t: Tables, s: State, businessKey: seq<string>) {
    t.lease == s.lease && t.checkpoint == s.checkpoint && LoadRows(t.rows, businessKey) == Ok(s.target)
  }

  lemma OneMoreStep(s: State, steps: seq<Step>, step: Step)
    requires Execute(s, steps).Some? && Enabled(Execute(s, steps).value, step)
    ensures Execute(s, steps + [step]) == Some(After(Execute(s, steps).value, step))
  {
    hide Enabled, After;
    assert (steps + [step])[..|steps|] == steps;
  }

  lemma NoStep(s: State)
    ensures Execute(s, []) == Some(s)
  {
  }

  /** The run has read its checkpoint. */
  function InformedBy(s: State, owner: string): State {
    s.At(owner, Informed(s.checkpoint))
  }

  lemma ReadingInforms(s: State, owner: string)
    requires s.PhaseOf(owner).Holding?
    ensures Execute(s, [ReadCheckpoint(owner)]) == Some(InformedBy(s, owner))
    ensures InformedBy(s, owner).PhaseOf(owner) == Informed(s.checkpoint)
  {
    NoStep(s);
    OneMoreStep(s, [], ReadCheckpoint(owner));
    assert [] + [ReadCheckpoint(owner)] == [ReadCheckpoint(owner)];
  }

  lemma AtTwice(s: State, owner: string, p: Phase, q: Phase)
    ensures s.At(owner, p).At(owner, q) == s.At(owner, q)
    ensures owner in s.runs ==> s.At(owner, p).PhaseOf(owner) == p
  {
    if owner in s.runs {
      assert s.At(owner, p).At(owner, q).runs == s.At(owner, q).runs;
    }
  }

  /** Steps of the run under its lease lead to a state with these tables, from which it only has to release the
      lease. */
  ghost predicate Leaves(s: State, owner: string, checkpoint: Option<CheckpointState>, target: Rows) {
    exists steps :: Execute(s, steps) == Some(s.At(owner, Leaving).(checkpoint := checkpoint, target := target))
  }

  /** A run that is refused before it writes. */
  lemma RefusedRunLeaves(s: State, owner: string)
    requires s.PhaseOf(owner).Holding?
    ensures Leaves(s, owner, s.checkpoint, s.target)
  {
    ReadingInforms(s, owner);
    var steps := [ReadCheckpoint(owner), Fail(owner)];
    assert steps == [ReadCheckpoint(owner)] + [Fail(owner)];
    OneMoreStep(s, [ReadCheckpoint(owner)], Fail(owner));
    AtTwice(s, owner, Informed(s.checkpoint), Leaving);
    assert Execute(s, steps) == Some(s.At(owner, Leaving).(checkpoint := s.checkpoint, target := s.target));
  }

  /** The checkpoint after a run has written: committed, or as it was. */
  ghost predicate MayCommit(
      seen: Option<CheckpointState>, upper: nat, runId: int, required: bool, reconciled: bool,
      after: Option<CheckpointState>) {
    || after == seen
    || (&& CommitResult(seen, Written(seen, upper), runId, required, reconciled).Ok?
        && after == Some(CommitResult(seen, Written(seen, upper), runId, required, reconciled).value))
  }

  /** A planned run writes. */
  lemma PlannedRunWrites(s: State, owner: string, upper: nat, p: Projection)
    requires owner in s.runs
    ensures var planned := s.At(owner, Planned(s.checkpoint, upper, p));
            && Enabled(planned, Write(owner))
            && After(planned, Write(owner)) == s.At(owner, Written(s.checkpoint, upper)).(target := Patch(s.target, p.upserts, p.deletes))
  {
    hide Patch;
    AtTwice(s, owner, Planned(s.checkpoint, upper, p), Written(s.checkpoint, upper));
  }

  /** A run that has written commits or fails. */
  lemma WrittenRunLeaves(
      s: State, owner: string, upper: nat, target: Rows, runId: int, required: bool, reconciled: bool,
      checkpoint: Option<CheckpointState>)
    requires owner in s.runs && MayCommit(s.checkpoint, upper, runId, required, reconciled, checkpoint)
    ensures var written := s.At(owner, Written(s.checkpoint, upper)).(target := target);
            var last := if checkpoint == s.checkpoint then Fail(owner) else Step.Commit(owner, runId, required, reconciled);
            && Enabled(written, last)
            && After(written, last) == s.At(owner, Leaving).(checkpoint := checkpoint, target := target)
  {
    hide CommitResult;
    AtTwice(s, owner, Written(s.checkpoint, upper), Leaving);
  }

  /** A run that has planned writes, and then commits or fails. */
  lemma PlannedRunLeaves(
      s: State, owner: string, plan: Step, upper: nat, p: Projection, runId: int, required: bool, reconciled: bool,
      checkpoint: Option<CheckpointState>)
    requires s.PhaseOf(owner).Holding? && owner in s.runs
    requires Enabled(InformedBy(s, owner), plan)
    requires After(InformedBy(s, owner), plan) == s.At(owner, Planned(s.checkpoint, upper, p))
    requires MayCommit(s.checkpoint, upper, runId, required, reconciled, checkpoint)
    ensures Leaves(s, owner, checkpoint, Patch(s.target, p.upserts, p.deletes))
  {
    hide Execute, Patch, MayCommit, Enabled, After;
    var target := Patch(s.target, p.upserts, p.deletes);
    var last := if checkpoint == s.checkpoint then Fail(owner) else Step.Commit(owner, runId, required, reconciled);
    ReadingInforms(s, owner);
    PlannedRunWrites(s, owner, upper, p);
    WrittenRunLeaves(s, owner, upper, target, runId, required, reconciled, checkpoint);
    OneMoreStep(s, [ReadCheckpoint(owner)], plan);
    OneMoreStep(s, [ReadCheckpoint(owner)] + [plan], Write(owner));
    OneMoreStep(s, [ReadCheckpoint(owner)] + [plan] + [Write(owner)], last);
  }

  /** An incremental run that wrote. */
  lemma IncrementLeaves(
      s: State, owner: string, feed: FeedRange, affected: set<Key>, p: Projection, runId: int, required: bool,
      reconciled: bool,
      checkpoint: Option<CheckpointState>)
    requires s.PhaseOf(owner).Holding? && owner in s.runs
    requires EnabledPlanIncrement(InformedBy(s, owner), owner, feed, affected, p)
    requires MayCommit(s.checkpoint, Increment(s.checkpoint, feed).value.upper, runId, required, reconciled, checkpoint)
    ensures Leaves(s, owner, checkpoint, Patch(s.target, p.upserts, p.deletes))
  {
    hide MayCommit, IsProjection, CoversChanges, Increment, Leaves;
    var step := PlanIncrement(owner, feed, affected, p);
    AtTwice(s, owner, Informed(s.checkpoint), Planned(s.checkpoint, Increment(s.checkpoint, feed).value.upper, p));
    PlannedRunLeaves(s, owner, step, Increment(s.checkpoint, feed).value.upper, p, runId, required, reconciled, checkpoint);
  }

  /** A rebuild that wrote. */
  lemma RebuildLeaves(
      s: State, owner: string, snapshot: nat, p: Projection, runId: int, required: bool, reconciled: bool,
      checkpoint: Option<CheckpointState>)
    requires s.PhaseOf(owner).Holding? && owner in s.runs
    requires EnabledPlanRebuild(InformedBy(s, owner), owner, snapshot, p)
    requires MayCommit(s.checkpoint, snapshot, runId, required, reconciled, checkpoint)
    ensures Leaves(s, owner, checkpoint, Patch(s.target, p.upserts, p.deletes))
  {
    hide MayCommit, IsProjection, Leaves;
    AtTwice(s, owner, Informed(s.checkpoint), Planned(s.checkpoint, snapshot, p));
    PlannedRunLeaves(s, owner, PlanRebuild(owner, snapshot, p), snapshot, p, runId, required, reconciled, checkpoint);
  }

  /** Steps lead from one picture of the tables to another and leave the history alone. */
  ghost predicate Reaches(s: State, after: Tables, businessKey: seq<string>) {
    exists steps ::
      && Execute(s, steps).Some?
      && Shows(after, Execute(s, steps).value, businessKey)
      && Execute(s, steps).value.history == s.history
  }

  lemma NothingReached(s: State, t: Tables, businessKey: seq<string>)
    requires Shows(t, s, businessKey)
    ensures Reaches(s, t, businessKey)
  {
    NoStep(s);
    assert Execute(s, []).value.history == s.history;
  }

  /** The state once the run holds the lease. */
  function Granted(s: State, owner: string, lease: Lease): State {
    s.(lease := Some(lease), runs := s.runs[owner := Run(lease, Holding)])
  }

  /** A whole run: it takes the lease, does its work and gives the lease back. */
  lemma WholeRunReaches(
      s: State, owner: string, runId: int, deadline: int, checkpoint: Option<CheckpointState>, target: Rows,
      after: Tables,
      businessKey: seq<string>)
    requires owner !in s.runs && AcquireRow(s.lease, owner, runId, s.now, deadline).Ok?
    requires Leaves(Granted(s, owner, AcquireRow(s.lease, owner, runId, s.now, deadline).value), owner, checkpoint, target)
    requires after.lease.None? && after.checkpoint == checkpoint && LoadRows(after.rows, businessKey) == Ok(target)
    ensures Reaches(s, after, businessKey)
  {
    hide Execute, LoadRows;
    var lease := AcquireRow(s.lease, owner, runId, s.now, deadline).value;
    var granted := Granted(s, owner, lease);
    var acquire, release := Acquire(owner, runId, deadline), Release(owner);
    NoStep(s);
    OneMoreStep(s, [], acquire);
    assert [] + [acquire] == [acquire];
    var work :| Execute(granted, work) == Some(granted.At(owner, Leaving).(checkpoint := checkpoint, target := target));
    ExecuteSplits(s, [acquire], work);
    OneMoreStep(s, [acquire] + work, release);
    var end := Execute(s, [acquire] + work + [release]).value;
    assert Shows(after, end, businessKey) && end.history == s.history;
  }

  lemma {:induction false} ExecuteSplits(s: State, a: seq<Step>, b: seq<Step>)
    requires Execute(s, a).Some?
    ensures Execute(s, a + b) == Execute(Execute(s, a).value, b)
    decreases |b|
  {
    hide Enabled, After;
    if b == [] {
      assert a + b == a;
    } else {
      ExecuteSplits(s, a, b[..|b| - 1]);
      assert (a + b)[..|a + b| - 1] == a + b[..|b| - 1];
    }
  }
}
