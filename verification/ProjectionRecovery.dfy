/** Why a lease may be recovered only once its holder is dead (control_plane/dataset_lease.py): the deadline alone
    does not keep the writer out. */
module ProjectionRecovery {
  import opened Common
  import opened CheckpointStore
  import opened DatasetLease
  import opened CurrentProjection
  import opened ProjectionProtocol

  /** The rebuild of a whole target. */
  function RebuildPlan(t: Rows, current: Rows, keys: set<Key>): Projection {
    var upserts, deletes := UpsertsOf(t, current, keys), DeletesOf(t, current, keys);
    Projection(Scope(current, keys) + (t - keys), upserts, deletes, |keys|,
               Mutations(|upserts.Keys - t.Keys|, |upserts.Keys * t.Keys|, |deletes|))
  }

  lemma RebuildPlanIsProjection(t: Rows, current: Rows, keys: set<Key>)
    ensures IsProjection(RebuildPlan(t, current, keys), t, current, keys)
  {
    hide FollowsHistory, Scope, UpsertsOf, DeletesOf;
    RebuildFollowsHistory(t, current, keys);
  }

  lemma RebuildFollowsHistory(t: Rows, current: Rows, keys: set<Key>)
    ensures FollowsHistory(Scope(current, keys) + (t - keys), t, current, keys)
  {
  }

  function Latest(history: seq<Version>): Version {
    if history == [] then Version(map[], {}, {}) else history[|history| - 1]
  }

  /** A next version of the history in which the row of the key is another than the given one. */
  function Moved(last: Version, k: Key, row: Option<Columns>): Version {
    if row.Some? then Version(last.current - {k}, last.keys, {k})
    else Version(last.current[k := map[]], last.keys + {k}, {k})
  }

  lemma MovedIsTruthful(history: seq<Version>, k: Key, row: Option<Columns>)
    requires history != [] && TruthfulFeed(history)
    ensures var v := Moved(Latest(history), k, row);
            TruthfulFeed(history + [v]) && Find(v.current, k) != row
  {
    var last := Latest(history);
    var v := Moved(last, k, row);
    var longer := history + [v];
    assert last in history;
    assert SameOutside(last.current, v.current, v.changed);
    forall i | 0 < i < |longer| ensures SameOutside(longer[i - 1].current, longer[i].current, longer[i].changed) {
      if i < |history| {
        assert SameOutside(history[i - 1].current, history[i].current, history[i].changed);
      }
    }
  }

  /** What a second run does once the lease of the first is taken from it, up to its commit. */
  function Overtake(s: State, v: Version, second: string, runId: int): seq<Step> {
    [AppendHistory(v), Acquire(second, runId, s.now + 1), ReadCheckpoint(second),
     PlanRebuild(second, |s.history|, RebuildPlan(s.target, v.current, s.target.Keys + v.keys)),
     Write(second), Commit(second, runId, false, false)]
  }

  lemma NextStep(s: State, steps: seq<Step>, step: Step)
    requires Execute(s, steps).Some? && Enabled(Execute(s, steps).value, step)
    ensures Execute(s, steps + [step]) == Some(After(Execute(s, steps).value, step))
  {
    hide Enabled, After;
    assert (steps + [step])[..|steps + [step]| - 1] == steps;
  }

  lemma NoStep(s: State)
    ensures Execute(s, []) == Some(s)
  {
  }

  /** What the first steps of the second run leave as it was. */
  ghost predicate Untouched(s: State, t: State, v: Version, second: string) {
    && t.history == s.history + [v] && t.checkpoint == s.checkpoint && t.target == s.target
    && second in t.runs && forall o | o in s.runs :: o in t.runs && (o == second || t.runs[o] == s.runs[o])
  }

  /** The second run holds the lease and has read the checkpoint. */
  lemma SecondRunReads(s: State, v: Version, second: string, runId: int)
    requires s.lease.None? && second != "" && second !in s.runs && TruthfulFeed(s.history + [v])
    ensures var t := Execute(s, Overtake(s, v, second, runId)[..3]);
            t.Some? && Untouched(s, t.value, v, second) && t.value.PhaseOf(second) == Informed(s.checkpoint)
  {
    hide TruthfulFeed, RebuildPlan, Execute;
    var steps := Overtake(s, v, second, runId);
    NoStep(s);
    NextStep(s, [], steps[0]);
    assert [] + [steps[0]] == steps[..1];
    NextStep(s, steps[..1], steps[1]);
    assert steps[..1] + [steps[1]] == steps[..2];
    NextStep(s, steps[..2], steps[2]);
    assert steps[..2] + [steps[2]] == steps[..3];
  }

  /** It has planned a rebuild at the new version. */
  lemma SecondRunPlans(s: State, v: Version, second: string, runId: int)
    requires s.lease.None? && second != "" && second !in s.runs
    requires TruthfulFeed(s.history + [v]) && CheckpointOk(s.checkpoint, |s.history|)
    ensures var plan := RebuildPlan(s.target, v.current, s.target.Keys + v.keys);
            var t := Execute(s, Overtake(s, v, second, runId)[..4]);
            t.Some? && Untouched(s, t.value, v, second) && t.value.PhaseOf(second) == Planned(s.checkpoint, |s.history|, plan)
  {
    hide TruthfulFeed, IsProjection, RebuildPlan, Execute, CheckpointOk, ProcessedVersion;
    var steps := Overtake(s, v, second, runId);
    SecondRunReads(s, v, second, runId);
    var plan := RebuildPlan(s.target, v.current, s.target.Keys + v.keys);
    RebuildPlanIsProjection(s.target, v.current, s.target.Keys + v.keys);
    CommittedIsRead(s.checkpoint, |s.history|);
    assert (s.history + [v])[|s.history|] == v;
    NextStep(s, steps[..3], steps[3]);
    assert steps[..3] + [steps[3]] == steps[..4];
  }

  lemma CommittedIsRead(checkpoint: Option<CheckpointState>, versions: nat)
    requires CheckpointOk(checkpoint, versions)
    ensures var lower := ProcessedVersion(checkpoint); lower.Ok? && (lower.value.Some? ==> lower.value.value < versions)
  {
  }

  /** The second run writes and commits the new version. */
  lemma SecondRunCommits(s: State, v: Version, second: string, runId: int)
    requires s.lease.None? && second != "" && second !in s.runs
    requires TruthfulFeed(s.history + [v]) && CheckpointOk(s.checkpoint, |s.history|)
    ensures var t := Execute(s, Overtake(s, v, second, runId));
            && t.Some? && t.value.history == s.history + [v] && Committed(t.value.checkpoint) == |s.history|
            && (forall o | o in s.runs :: o in t.value.runs && t.value.runs[o] == s.runs[o])
  {
    hide TruthfulFeed, RebuildPlan, Patch, Execute, ProgressAt, Committed, CheckpointOk, CommitRow;
    SecondRunPlans(s, v, second, runId);
    var steps := Overtake(s, v, second, runId);
    var s4 := Execute(s, steps[..4]).value;
    NextStep(s, steps[..4], steps[4]);
    assert steps[..4] + [steps[4]] == steps[..5];
    var s5 := After(s4, steps[4]);
    NextStep(s, steps[..5], steps[5]);
    assert steps[..5] + [steps[5]] == steps;
    NewerVersionCommits(s.checkpoint, |s.history|, runId);
  }

  lemma NewerVersionCommits(checkpoint: Option<CheckpointState>, upper: nat, runId: int)
    requires CheckpointOk(checkpoint, upper)
    ensures var r := CommitResult(checkpoint, Written(checkpoint, upper), runId, false, false);
            r.Ok? && Committed(Some(r.value)) == upper
  {
  }

  /** The continuation after the lease is taken from the first run. */
  function LateWrite(s: State, first: string, k: Key, second: string, runId: int): seq<Step>
    requires s.PhaseOf(first).Planned?
  {
    var plan := s.PhaseOf(first).plan;
    var row := Find(Patch(s.target, plan.upserts, plan.deletes), k);
    Overtake(s, Moved(Latest(s.history), k, row), second, runId) + [Write(first)]
  }

  lemma LateWriteIsOlder(s: State, first: string, k: Key, second: string, runId: int)
    requires s.history != [] && TruthfulFeed(s.history) && CheckpointOk(s.checkpoint, |s.history|)
    requires s.PhaseOf(first).Planned? && k in s.PhaseOf(first).plan.upserts.Keys + s.PhaseOf(first).plan.deletes
    requires s.lease.None? && second != "" && second !in s.runs
    ensures var end := Execute(s, LateWrite(s, first, k, second, runId));
            && end.Some? && Committed(end.value.checkpoint) == |s.history| == |end.value.history| - 1
            && !RowFrom(end.value.history, k, Find(end.value.target, k), |s.history|)
  {
    hide Execute, TruthfulFeed, CheckpointOk, Committed, Patch, RowFrom, Moved, Find, Overtake;
    var plan := s.PhaseOf(first).plan;
    var row := Find(Patch(s.target, plan.upserts, plan.deletes), k);
    var v := Moved(Latest(s.history), k, row);
    MovedIsTruthful(s.history, k, row);
    SecondRunCommits(s, v, second, runId);
    var more := Overtake(s, v, second, runId);
    NextStep(s, more, Write(first));
    PlannedRow(Execute(s, more).value.target, s.target, plan, k);
    OnlyOneVersionAtTheEnd(s.history + [v], k, row);
  }

  /** The dead holder is needed in every reachable state. Take the lease from a run that has planned a change and still
      lives, as deadline and evidence allow: another run can then commit a newer version, and the write of the first
      still
      puts back an older row. */
  lemma EarlyRecoveryWritesAnOlderRow(
      initial: State, steps: seq<Step>, first: string, k: Key, evidence: Recovery, second: string, runId: int)
    requires Initial(initial) && Execute(initial, steps).Some?
    requires var s := Execute(initial, steps).value;
             && s.PhaseOf(first).Planned? && k in s.PhaseOf(first).plan.upserts.Keys + s.PhaseOf(first).plan.deletes
             && evidence.owner == first && RecoverRow(s.lease, evidence, s.now).Ok?
             && second != "" && second !in s.runs
    ensures var s := Execute(initial, steps).value;
            var taken := s.(lease := None);
            var end := Execute(taken, LateWrite(taken, first, k, second, runId));
            && end.Some? && Committed(end.value.checkpoint) == |s.history| == |end.value.history| - 1
            && !RowFrom(end.value.history, k, Find(end.value.target, k), Committed(end.value.checkpoint))
  {
    hide Execute, TruthfulFeed, CheckpointOk, RunsFit, TargetFits, Committed, RowFrom, LateWrite;
    EveryRunKeepsInv(initial, steps);
    LateWriteIsOlder(Execute(initial, steps).value.(lease := None), first, k, second, runId);
  }

  /** What a plan does to a key that it changes does not depend on the row that it finds. */
  lemma PlannedRow(a: Rows, b: Rows, plan: Projection, k: Key)
    requires k in plan.upserts.Keys + plan.deletes
    ensures Find(Patch(a, plan.upserts, plan.deletes), k) == Find(Patch(b, plan.upserts, plan.deletes), k)
  {
  }

  lemma OnlyOneVersionAtTheEnd(history: seq<Version>, k: Key, row: Option<Columns>)
    requires history != [] && Find(history[|history| - 1].current, k) != row
    ensures !RowFrom(history, k, row, |history| - 1)
  {
  }
}
