/** The executor of the current projection (execution/current_projection.py) as a protocol of concurrent runs
    over one dataset: take the lease, read the checkpoint, plan, write the target, reconcile and commit the
    checkpoint, release. Runs may fail or die between and inside the steps. */
module ProjectionProtocol {
  import opened Common
  import opened CdcCapture
  import opened CheckpointStore
  import opened DatasetLease
  import opened CurrentProjection

  // ---------------------------------------------------------------- the history

  /** One version of the history table: its current rows after projection, all its keys, and the keys
      that the change feed reports for the commit that made this version. */
  datatype Version = Version(current: Rows, keys: set<Key>, changed: set<Key>)

  /** Every version after the first differs from the one before on reported keys only. */
  ghost predicate TruthfulFeed(history: seq<Version>) {
    && (forall v | v in history :: v.current.Keys <= v.keys)
    && forall i {:trigger history[i].changed} | 0 < i < |history| ::
         SameOutside(history[i - 1].current, history[i].current, history[i].changed)
  }

  ghost predicate SameOutside(before: Rows, after: Rows, changed: set<Key>) {
    forall k :: k in changed || Find(before, k) == Find(after, k)
  }

  lemma {:induction false} UnreportedKeyIsUnchanged(history: seq<Version>, low: nat, high: nat, k: Key)
    requires TruthfulFeed(history) && low <= high < |history|
    requires forall i | low < i <= high :: k !in history[i].changed
    ensures Find(history[low].current, k) == Find(history[high].current, k)
    decreases high - low
  {
    hide Find;
    if low < high {
      UnreportedKeyIsUnchanged(history, low, high - 1, k);
      assert SameOutside(history[high - 1].current, history[high].current, history[high].changed);
    }
  }

  // ---------------------------------------------------------------- planning a run

  datatype ResumeError = BadVersions | UpperBeyondLatest | UpperRegresses | RetentionGap

  /** What the caller states about the change feed. */
  datatype FeedRange = FeedRange(earliest: int, latest: int, requestedUpper: Option<int>)

  datatype Resume = Resume(start: int, upper: int)

  /** plan_delta_cdf_resume (adapters/cdc/delta_cdf.py) with a committed lower version. */
  function PlanResume(lower: int, feed: FeedRange): Result<Resume, ResumeError> {
    if feed.earliest < 0 || feed.latest < 0 || feed.earliest > feed.latest then Err(BadVersions)
    else
      var upper := if feed.requestedUpper.Some? then feed.requestedUpper.value else feed.latest;
      if upper < 0 then Err(BadVersions)
      else if upper > feed.latest then Err(UpperBeyondLatest)
      else if lower < 0 then Err(BadVersions)
      else if upper < lower then Err(UpperRegresses)
      else if feed.earliest > lower + 1 then Err(RetentionGap)
      else Ok(Resume(if feed.earliest > lower + 1 then feed.earliest else lower + 1, upper))
  }

  /** A resume takes up exactly the versions above the committed one, through the requested upper version or the latest,
      when the feed still holds all of them. */
  lemma ResumesExactlyWhen(lower: int, feed: FeedRange)
    ensures var upper := if feed.requestedUpper.Some? then feed.requestedUpper.value else feed.latest;
            var r := PlanResume(lower, feed);
            && (r.Ok? <==> 0 <= feed.earliest <= lower + 1 && feed.earliest <= feed.latest && 0 <= lower <= upper <= feed.latest)
            && (r.Ok? ==> r.value.start == lower + 1 && r.value.upper == upper)
  {
  }

  datatype CdfRecord = CdfRecord(version: nat, data: Columns)

  datatype AffectedError = NewerThanUpper | NullKeyInFeed

  /** The business keys of the records inside the range; records before it are ignored. */
  method AffectedKeys(records: seq<CdfRecord>, businessKey: seq<string>, start: int, upper: int)
    returns (r: Result<set<Key>, AffectedError>)
    ensures r.Ok? <==> forall c | c in records ::
              c.version <= upper && (c.version >= start ==> KeyOf(c.data, businessKey).Some?)
    ensures r.Ok? ==> forall k ::
              k in r.value <==> exists c :: c in records && c.version >= start && KeyOf(c.data, businessKey) == Some(k)
  {
    hide KeyOf;
    var keys: set<Key> := {};
    for i := 0 to |records|
      invariant forall j | 0 <= j < i :: records[j].version <= upper
      invariant forall j | 0 <= j < i && records[j].version >= start :: KeyOf(records[j].data, businessKey).Some?
      invariant forall j | 0 <= j < i && records[j].version >= start :: KeyOf(records[j].data, businessKey).value in keys
      invariant forall k | k in keys :: exists c :: c in records && c.version >= start && KeyOf(c.data, businessKey) == Some(k)
    {
      var record := records[i];
      assert record in records;
      if record.version > upper {
        return Err(NewerThanUpper);
      }
      if record.version < start {
        continue;
      }
      var key := KeyOf(record.data, businessKey);
      if key.None? {
        return Err(NullKeyInFeed);
      }
      keys := keys + {key.value};
    }
    r := Ok(keys);
  }

  const PARTITION := "current-projection"

  function ProgressAt(v: int): Checkpoint {
    map[PARTITION := [v]]
  }

  /** _processed_version: the committed history version, None before the first rebuild, or an error. */
  function ProcessedVersion(seen: Option<CheckpointState>): Result<Option<int>, ()> {
    match seen
    case None => Ok(None)
    case Some(state) =>
      if |state.checkpoint| != 1 || PARTITION !in state.checkpoint || state.checkpoint[PARTITION] == [] then Err(())
      else Ok(Some(state.checkpoint[PARTITION][0]))
  }

  /** The stored progress is the version of the one partition of the projection; anything else is refused. */
  lemma ProgressIsReadExactlyWhen(seen: CheckpointState, v: int)
    ensures ProcessedVersion(Some(seen)) == Ok(Some(v)) <==>
            && (forall p :: p in seen.checkpoint <==> p == PARTITION)
            && seen.checkpoint[PARTITION] != [] && seen.checkpoint[PARTITION][0] == v
  {
    var c := seen.checkpoint;
    if forall p :: p in c <==> p == PARTITION {
      assert c.Keys == {PARTITION};
    }
    if |c| == 1 && PARTITION in c {
      assert |c.Keys - {PARTITION}| == 0;
      assert forall p | p in c :: p !in c.Keys - {PARTITION};
    }
  }

  // ---------------------------------------------------------------- the state machine

  /** Where a run stands. */
  datatype Phase =
    | Holding
    | Informed(seen: Option<CheckpointState>)
    | Planned(seen: Option<CheckpointState>, upper: nat, plan: Projection)
    | Written(seen: Option<CheckpointState>, upper: nat)
    | Leaving
    | Gone
    | Dead

  predicate Live(p: Phase) {
    !p.Gone? && !p.Dead?
  }

  /** A run and the claim that it was granted. */
  datatype Run = Run(lease: Lease, phase: Phase)

  /** Runs are filed under their owner name, which is unique. */
  datatype State = State(
    history: seq<Version>,
    target: Rows,
    checkpoint: Option<CheckpointState>,
    lease: Option<Lease>,
    runs: map<string, Run>,
    now: int)
  {
    predicate Lives(owner: string) {
      owner in runs && Live(runs[owner].phase)
    }

    function PhaseOf(owner: string): Phase {
      if owner in runs then runs[owner].phase else Gone
    }

    function At(owner: string, p: Phase): State {
      if owner in runs then this.(runs := runs[owner := runs[owner].(phase := p)]) else this
    }
  }

  datatype Step =
    | Tick(later: int)
    | AppendHistory(version: Version)
    | Acquire(owner: string, runId: int, deadline: int)
    | ReadCheckpoint(owner: string)
    | PlanIncrement(owner: string, feed: FeedRange, affected: set<Key>, plan: Projection)
    | PlanRebuild(owner: string, snapshot: nat, plan: Projection)
    | Write(owner: string)
    | WritePartly(owner: string, reached: set<Key>, dies: bool)
    | Commit(owner: string, runId: int, required: bool, reconciled: bool)
    | Fail(owner: string)
    | Release(owner: string)
    | Die(owner: string)
    | RecoverLease(evidence: Recovery)

  /** The target when only the rows of some keys were reached by the write. */
  function PartialPatch(t: Rows, p: Projection, reached: set<Key>): Rows {
    Patch(t, Scope(p.upserts, reached), p.deletes * reached)
  }

  /** The range that an incremental run may apply, if it may. */
  function Increment(seen: Option<CheckpointState>, feed: FeedRange): Option<Resume> {
    var lower := ProcessedVersion(seen);
    if lower.Err? || lower.value.None? then None
    else
      var resume := PlanResume(lower.value.value, feed);
      if resume.Err? || resume.value.start > resume.value.upper then None else Some(resume.value)
  }

  /** The keys reported between two versions are all looked at. */
  ghost predicate CoversChanges(history: seq<Version>, start: int, upper: int, affected: set<Key>) {
    forall i, k | start <= i <= upper && 0 <= i < |history| && k in history[i].changed :: k in affected
  }

  ghost predicate EnabledPlanIncrement(s: State, owner: string, feed: FeedRange, affected: set<Key>, plan: Projection) {
    && s.PhaseOf(owner).Informed?
    && feed.latest < |s.history|
    && var resume := Increment(s.PhaseOf(owner).seen, feed);
       && resume.Some? && 0 <= resume.value.upper < |s.history|
       && CoversChanges(s.history, resume.value.start, resume.value.upper, affected)
       && IsProjection(plan, Scope(s.target, affected), Scope(s.history[resume.value.upper].current, affected), affected)
  }

  ghost predicate EnabledPlanRebuild(s: State, owner: string, snapshot: nat, plan: Projection) {
    && s.PhaseOf(owner).Informed?
    && snapshot < |s.history|
    && var lower := ProcessedVersion(s.PhaseOf(owner).seen);
       && lower.Ok? && (lower.value.Some? ==> lower.value.value <= snapshot)
       && IsProjection(plan, s.target, s.history[snapshot].current, s.target.Keys + s.history[snapshot].keys)
  }

  /** What the steps assume: time only advances, the change feed is truthful, an owner name is used once,
      plans are made from what was read, and a lease is recovered only once its holder is dead. */
  ghost predicate Enabled(s: State, step: Step) {
    match step
    case Tick(later) => later >= s.now
    case AppendHistory(v) => TruthfulFeed(s.history + [v])
    case Acquire(owner, runId, deadline) => owner !in s.runs && AcquireRow(s.lease, owner, runId, s.now, deadline).Ok?
    case ReadCheckpoint(owner) => s.PhaseOf(owner).Holding?
    case PlanIncrement(owner, feed, affected, plan) => EnabledPlanIncrement(s, owner, feed, affected, plan)
    case PlanRebuild(owner, snapshot, plan) => EnabledPlanRebuild(s, owner, snapshot, plan)
    case Write(owner) => s.PhaseOf(owner).Planned?
    case WritePartly(owner, reached, dies) => s.PhaseOf(owner).Planned?
    case Commit(owner, runId, required, reconciled) => s.PhaseOf(owner).Written?
    case Fail(owner) => s.Lives(owner)
    case Release(owner) => s.PhaseOf(owner).Leaving?
    case Die(owner) => s.Lives(owner)
    case RecoverLease(evidence) => RecoverRow(s.lease, evidence, s.now).Ok? && s.PhaseOf(evidence.owner).Dead?
  }

  /** The gate is asked before the checkpoint is written. */
  function CommitResult(checkpoint: Option<CheckpointState>, run: Phase, runId: int, required: bool, reconciled: bool)
    : Result<CheckpointState, CommitError>
    requires run.Written?
  {
    var gate := StateCommitGate(true, required, reconciled, false);
    if !gate.CanAdvance() then Err(GateClosed)
    else CommitRow(checkpoint, ProgressAt(run.upper), runId, if run.seen.Some? then run.seen.value.version else 0, gate)
  }

  ghost function After(s: State, step: Step): State
    requires Enabled(s, step)
  {
    match step
    case Tick(later) => s.(now := later)
    case AppendHistory(v) => s.(history := s.history + [v])
    case Acquire(owner, runId, deadline) =>
      var lease := AcquireRow(s.lease, owner, runId, s.now, deadline).value;
      s.(lease := Some(lease), runs := s.runs[owner := Run(lease, Holding)])
    case ReadCheckpoint(owner) => s.At(owner, Informed(s.checkpoint))
    case PlanIncrement(owner, feed, affected, plan) =>
      s.At(owner, Planned(s.PhaseOf(owner).seen, Increment(s.PhaseOf(owner).seen, feed).value.upper, plan))
    case PlanRebuild(owner, snapshot, plan) => s.At(owner, Planned(s.PhaseOf(owner).seen, snapshot, plan))
    case Write(owner) =>
      var p := s.PhaseOf(owner);
      s.At(owner, Written(p.seen, p.upper)).(target := Patch(s.target, p.plan.upserts, p.plan.deletes))
    case WritePartly(owner, reached, dies) =>
      s.At(owner, if dies then Dead else Leaving).(target := PartialPatch(s.target, s.PhaseOf(owner).plan, reached))
    case Commit(owner, runId, required, reconciled) =>
      var r := CommitResult(s.checkpoint, s.PhaseOf(owner), runId, required, reconciled);
      s.At(owner, Leaving).(checkpoint := if r.Ok? then Some(r.value) else s.checkpoint)
    case Fail(owner) => s.At(owner, Leaving)
    case Release(owner) =>
      s.At(owner, Gone).(lease := if ReleaseRow(s.lease, s.runs[owner].lease).None? then None else s.lease)
    case Die(owner) => s.At(owner, Dead)
    case RecoverLease(evidence) => s.(lease := None)
  }

  predicate Initial(s: State) {
    |s.history| == 1 && s.history[0].current.Keys <= s.history[0].keys
    && s.checkpoint.None? && s.lease.None? && s.runs == map[]
  }

  /** The state after a run of steps, or None when a step was not possible. */
  ghost function Execute(s: State, steps: seq<Step>): Option<State> {
    if steps == [] then Some(s)
    else
      var before := Execute(s, steps[..|steps| - 1]);
      if before.Some? && Enabled(before.value, steps[|steps| - 1])
      then Some(After(before.value, steps[|steps| - 1]))
      else None
  }

  // ---------------------------------------------------------------- the invariant

  /** The row equals the projection of some version at or after the given one. */
  ghost predicate RowFrom(history: seq<Version>, k: Key, row: Option<Columns>, low: int) {
    exists v :: low <= v < |history| && 0 <= v && Find(history[v].current, k) == row
  }

  ghost predicate TargetFrom(history: seq<Version>, target: Rows, low: int) {
    forall k :: RowFrom(history, k, Find(target, k), low)
  }

  /** The committed version, or -1 before the first commit. */
  function Committed(checkpoint: Option<CheckpointState>): int {
    var v := ProcessedVersion(checkpoint);
    if v.Ok? && v.value.Some? then v.value.value else -1
  }

  predicate CheckpointOk(checkpoint: Option<CheckpointState>, versions: nat) {
    checkpoint.Some? ==>
      && checkpoint.value.version >= 1
      && 0 <= Committed(checkpoint) < versions
      && checkpoint.value.checkpoint == ProgressAt(Committed(checkpoint))
  }

  /** The plan takes every row of the target to its version or beyond. */
  ghost predicate PlanFits(history: seq<Version>, target: Rows, plan: Projection, upper: nat) {
    TargetFrom(history, Patch(target, plan.upserts, plan.deletes), upper)
  }

  ghost predicate PhaseFits(s: State, p: Phase) {
    match p
    case Informed(seen) => seen == s.checkpoint
    case Planned(seen, upper, plan) =>
      && seen == s.checkpoint && Committed(s.checkpoint) <= upper < |s.history|
      && PlanFits(s.history, s.target, plan, upper)
    case Written(seen, upper) =>
      && seen == s.checkpoint && Committed(s.checkpoint) <= upper < |s.history|
      && TargetFrom(s.history, s.target, upper)
    case _ => true
  }

  ghost predicate RunsFit(s: State) {
    forall o | s.Lives(o) ::
      s.lease == Some(s.runs[o].lease) && s.runs[o].lease.owner == o && PhaseFits(s, s.runs[o].phase)
  }

  ghost predicate TargetFits(s: State) {
    s.checkpoint.Some? ==> TargetFrom(s.history, s.target, Committed(s.checkpoint))
  }

  ghost predicate Inv(s: State) {
    && s.history != [] && TruthfulFeed(s.history)
    && CheckpointOk(s.checkpoint, |s.history|)
    && TargetFits(s)
    && RunsFit(s)
  }

  // ---------------------------------------------------------------- main results; the proof of the invariant follows

  /** In every reachable state each row of the target, present or absent, is what the history projects at
      some version at or after the committed one. */
  lemma RowsAreNeverOlderThanCommitted(s: State, steps: seq<Step>)
    requires Initial(s) && Execute(s, steps).Some?
    ensures var t := Execute(s, steps).value;
            t.checkpoint.Some? ==>
              && 0 <= Committed(t.checkpoint) < |t.history|
              && TargetFrom(t.history, t.target, Committed(t.checkpoint))
  {
    hide Execute, Committed, Find, RunsFit, TargetFrom;
    EveryRunKeepsInv(s, steps);
  }

  /** Once a run commits the latest version, the whole target is the projection of the history there. */
  lemma CommittingTheLatestVersionSettlesTheTarget(
      s: State, steps: seq<Step>, owner: string, runId: int, required: bool, reconciled: bool)
    requires Initial(s) && Execute(s, steps).Some?
    requires var t := Execute(s, steps).value;
             t.PhaseOf(owner).Written? && t.PhaseOf(owner).upper == |t.history| - 1
    requires !required || reconciled
    ensures var t := Execute(s, steps).value;
            var t' := After(t, Commit(owner, runId, required, reconciled));
            && Enabled(t, Commit(owner, runId, required, reconciled))
            && Committed(t'.checkpoint) == |t'.history| - 1
            && t'.target == t'.history[|t'.history| - 1].current
  {
    hide Execute, Find, TruthfulFeed, CheckpointOk, Committed, CommitResult;
    EveryRunKeepsInv(s, steps);
    var t := Execute(s, steps).value;
    var t' := After(t, Commit(owner, runId, required, reconciled));
    assert t.Lives(owner);
    CommitNeverConflicts(t, owner, runId, required, reconciled);
    ProgressIsRead(t'.checkpoint.value, |t.history| - 1);
    forall k ensures Find(t.target, k) == Find(t.history[|t.history| - 1].current, k) {
      assert RowFrom(t.history, k, Find(t.target, k), |t.history| - 1);
    }
    SameRows(t.target, t.history[|t.history| - 1].current);
  }

  /** At most one run is between acquiring and releasing, its release always finds its own claim, and its
      commit is never refused for a conflict. */
  lemma OneRunAtATime(s: State, steps: seq<Step>, a: string, b: string, runId: int, required: bool, reconciled: bool)
    requires Initial(s) && Execute(s, steps).Some?
    ensures var t := Execute(s, steps).value;
            && (t.Lives(a) && t.Lives(b) ==> a == b)
            && (t.Lives(a) ==> t.lease == Some(t.runs[a].lease) && ReleaseRow(t.lease, t.runs[a].lease).None?)
            && (t.PhaseOf(a).Written? ==>
                  (CommitResult(t.checkpoint, t.PhaseOf(a), runId, required, reconciled).Ok? <==> !required || reconciled))
  {
    hide Execute, PhaseFits, TruthfulFeed, CheckpointOk, CommitResult, TargetFits;
    EveryRunKeepsInv(s, steps);
    var t := Execute(s, steps).value;
    if t.PhaseOf(a).Written? {
      CommitNeverConflicts(t, a, runId, required, reconciled);
    }
  }

  /** No step takes the committed version back. */
  lemma ProgressNeverRewinds(s: State, step: Step)
    requires Inv(s) && Enabled(s, step)
    ensures Committed(s.checkpoint) <= Committed(After(s, step).checkpoint)
  {
    hide TargetFrom, TruthfulFeed, Committed, CommitResult, ProgressAt, Patch, PartialPatch, IsProjection,
      CoversChanges,
      Increment, RecoverRow, AcquireRow, ReleaseRow, TargetFits, PlanFits;
    if step.Commit? {
      var owner := step.owner;
      assert s.Lives(owner);
      CommitNeverConflicts(s, owner, step.runId, step.required, step.reconciled);
      if !step.required || step.reconciled {
        ProgressIsRead(After(s, step).checkpoint.value, s.PhaseOf(owner).upper);
      }
    }
  }

  // ---------------------------------------------------------------- every step keeps the invariant

  lemma InitialFits(s: State)
    requires Initial(s)
    ensures Inv(s)
  {
  }

  /** A step of one run that leaves the lease alone. */
  lemma StepOfRun(s: State, owner: string, p: Phase, s': State)
    requires Inv(s) && s.Lives(owner)
    requires s'.runs == s.At(owner, p).runs && s'.lease == s.lease && s'.history == s.history
    requires CheckpointOk(s'.checkpoint, |s.history|) && TargetFits(s')
    requires Live(p) ==> PhaseFits(s', p)
    ensures Inv(s')
  {
    hide PhaseFits, TargetFits, CheckpointOk, TruthfulFeed;
    forall o | s'.Lives(o)
      ensures s'.lease == Some(s'.runs[o].lease) && s'.runs[o].lease.owner == o && PhaseFits(s', s'.runs[o].phase)
    {
    }
  }

  lemma NoRunLives(s: State, s': State)
    requires Inv(s) && s'.history == s.history && s'.checkpoint == s.checkpoint && s'.target == s.target
    requires forall o :: !s'.Lives(o)
    ensures Inv(s')
  {
    hide PhaseFits, CheckpointOk, TruthfulFeed;
  }

  lemma ReleaseKeepsInv(s: State, owner: string)
    requires Inv(s) && Enabled(s, Release(owner))
    ensures Inv(After(s, Release(owner)))
    ensures After(s, Release(owner)).lease.None?
  {
    hide PhaseFits, CheckpointOk, TruthfulFeed, TargetFits;
    var s' := After(s, Release(owner));
    assert s.Lives(owner);
    forall o ensures !s'.Lives(o) {
      if s'.Lives(o) {
        assert false;
      }
    }
    NoRunLives(s, s');
  }

  lemma RecoverKeepsInv(s: State, evidence: Recovery)
    requires Inv(s) && Enabled(s, RecoverLease(evidence))
    ensures Inv(After(s, RecoverLease(evidence)))
  {
    hide PhaseFits, CheckpointOk, TruthfulFeed, TargetFits;
    var s' := After(s, RecoverLease(evidence));
    NoRunLives(s, s');
  }

  lemma AcquireKeepsInv(s: State, owner: string, runId: int, deadline: int)
    requires Inv(s) && Enabled(s, Acquire(owner, runId, deadline))
    ensures Inv(After(s, Acquire(owner, runId, deadline)))
  {
    hide CheckpointOk, TruthfulFeed, TargetFrom, Committed;
    var s' := After(s, Acquire(owner, runId, deadline));
    forall o | s'.Lives(o)
      ensures s'.lease == Some(s'.runs[o].lease) && s'.runs[o].lease.owner == o && PhaseFits(s', s'.runs[o].phase)
    {
      assert o != owner ==> s.Lives(o);
    }
  }

  // ---------------------------------------------------------------- history grows

  lemma RowFromLonger(history: seq<Version>, v: Version, k: Key, row: Option<Columns>, low: int)
    requires RowFrom(history, k, row, low)
    ensures RowFrom(history + [v], k, row, low)
  {
    hide Find;
    var i :| low <= i < |history| && 0 <= i && Find(history[i].current, k) == row;
    assert (history + [v])[i] == history[i];
  }

  lemma TargetFromLonger(history: seq<Version>, v: Version, target: Rows, low: int)
    requires TargetFrom(history, target, low)
    ensures TargetFrom(history + [v], target, low)
  {
    hide Find, RowFrom;
    forall k ensures RowFrom(history + [v], k, Find(target, k), low) {
      RowFromLonger(history, v, k, Find(target, k), low);
    }
  }

  lemma AppendKeepsPhase(s: State, v: Version, p: Phase)
    requires PhaseFits(s, p)
    ensures PhaseFits(s.(history := s.history + [v]), p)
  {
    hide TargetFrom, Patch, Committed;
    if p.Planned? {
      TargetFromLonger(s.history, v, Patch(s.target, p.plan.upserts, p.plan.deletes), p.upper);
    } else if p.Written? {
      TargetFromLonger(s.history, v, s.target, p.upper);
    }
  }

  lemma AppendKeepsInv(s: State, v: Version)
    requires Inv(s) && Enabled(s, AppendHistory(v))
    ensures Inv(After(s, AppendHistory(v)))
  {
    hide PhaseFits, TruthfulFeed, TargetFrom, Committed;
    var s' := After(s, AppendHistory(v));
    if s.checkpoint.Some? {
      TargetFromLonger(s.history, v, s.target, Committed(s.checkpoint));
    }
    forall o | s'.Lives(o)
      ensures s'.lease == Some(s'.runs[o].lease) && s'.runs[o].lease.owner == o && PhaseFits(s', s'.runs[o].phase)
    {
      assert s.Lives(o);
      AppendKeepsPhase(s, v, s.runs[o].phase);
    }
  }

  // ---------------------------------------------------------------- planning

  lemma RowFromLower(history: seq<Version>, k: Key, row: Option<Columns>, high: int, low: int)
    requires RowFrom(history, k, row, high) && low <= high
    ensures RowFrom(history, k, row, low)
  {
    hide Find;
  }

  /** A row that was fresh at the lower version and is not reported up to the upper one is fresh there. */
  lemma UnreportedRowIsFresh(history: seq<Version>, k: Key, row: Option<Columns>, low: int, upper: nat)
    requires TruthfulFeed(history) && RowFrom(history, k, row, low) && upper < |history|
    requires forall i | low < i <= upper && 0 <= i :: k !in history[i].changed
    ensures RowFrom(history, k, row, upper)
  {
    hide Find, TruthfulFeed;
    var v :| low <= v < |history| && 0 <= v && Find(history[v].current, k) == row;
    if v < upper {
      UnreportedKeyIsUnchanged(history, v, upper, k);
    }
  }

  lemma PatchedIncrement(t: Rows, current: Rows, affected: set<Key>, p: Projection, k: Key)
    requires IsProjection(p, Scope(t, affected), Scope(current, affected), affected)
    ensures Find(Patch(t, p.upserts, p.deletes), k) == if k in affected then Find(current, k) else Find(t, k)
  {
    hide Patch, Find, Scope, UpsertsOf, DeletesOf, FollowsHistory, Counted;
    ScopeFinds(t, affected);
    ScopeFinds(current, affected);
    PatchedRow(t, Scope(t, affected), current, Scope(current, affected), affected, p, k);
  }

  lemma PatchedRebuild(t: Rows, current: Rows, keys: set<Key>, p: Projection, k: Key)
    requires IsProjection(p, t, current, t.Keys + keys) && current.Keys <= keys
    ensures Find(Patch(t, p.upserts, p.deletes), k) == Find(current, k)
  {
    hide Patch, UpsertsOf, DeletesOf, FollowsHistory, Counted;
    PatchedRow(t, t, current, current, t.Keys + keys, p, k);
  }

  lemma IncrementRange(seen: Option<CheckpointState>, feed: FeedRange)
    requires Increment(seen, feed).Some?
    ensures var r := Increment(seen, feed).value;
            seen.Some? && 0 <= Committed(seen) && r.start == Committed(seen) + 1 <= r.upper <= feed.latest
  {
  }

  lemma IncrementFits(s: State, owner: string, feed: FeedRange, affected: set<Key>, plan: Projection)
    requires Inv(s) && EnabledPlanIncrement(s, owner, feed, affected, plan)
    ensures var upper := Increment(s.PhaseOf(owner).seen, feed).value.upper;
            Committed(s.checkpoint) <= upper && PlanFits(s.history, s.target, plan, upper)
  {
    hide IsProjection, Patch, Find, Scope, Increment, RowFrom, TruthfulFeed, Committed;
    var seen := s.PhaseOf(owner).seen;
    assert s.Lives(owner) && seen == s.checkpoint;
    IncrementRange(seen, feed);
    var lower, upper := Committed(seen), Increment(seen, feed).value.upper;
    assert TargetFrom(s.history, s.target, lower);
    forall k ensures RowFrom(s.history, k, Find(Patch(s.target, plan.upserts, plan.deletes), k), upper) {
      PatchedIncrement(s.target, s.history[upper].current, affected, plan, k);
      if k in affected {
        RowAtVersion(s.history, k, upper);
      } else {
        UnreportedRowIsFresh(s.history, k, Find(s.target, k), lower, upper);
      }
    }
  }

  lemma RowAtVersion(history: seq<Version>, k: Key, v: nat)
    requires v < |history|
    ensures RowFrom(history, k, Find(history[v].current, k), v)
  {
    hide Find;
  }

  lemma RebuildFits(s: State, owner: string, snapshot: nat, plan: Projection)
    requires Inv(s) && EnabledPlanRebuild(s, owner, snapshot, plan)
    ensures Committed(s.checkpoint) <= snapshot && PlanFits(s.history, s.target, plan, snapshot)
  {
    hide IsProjection, Patch, Find, RowFrom;
    assert s.Lives(owner) && s.PhaseOf(owner).seen == s.checkpoint;
    assert s.history[snapshot] in s.history;
    forall k ensures RowFrom(s.history, k, Find(Patch(s.target, plan.upserts, plan.deletes), k), snapshot) {
      PatchedRebuild(s.target, s.history[snapshot].current, s.history[snapshot].keys, plan, k);
      RowAtVersion(s.history, k, snapshot);
    }
  }

  // ---------------------------------------------------------------- writing and committing

  lemma TargetFromLower(history: seq<Version>, target: Rows, high: int, low: int)
    requires TargetFrom(history, target, high) && low <= high
    ensures TargetFrom(history, target, low)
  {
    hide Find, RowFrom;
    forall k ensures RowFrom(history, k, Find(target, k), low) {
      RowFromLower(history, k, Find(target, k), high, low);
    }
  }

  lemma PartialRow(t: Rows, p: Projection, reached: set<Key>, k: Key)
    ensures Find(PartialPatch(t, p, reached), k) ==
            if k in reached then Find(Patch(t, p.upserts, p.deletes), k) else Find(t, k)
  {
  }

  /** A write that stopped half way leaves every row as fresh as the checkpoint promises. */
  lemma PartialWriteFits(history: seq<Version>, t: Rows, p: Projection, reached: set<Key>, upper: int, low: int)
    requires TargetFrom(history, t, low) && low <= upper
    requires TargetFrom(history, Patch(t, p.upserts, p.deletes), upper)
    ensures TargetFrom(history, PartialPatch(t, p, reached), low)
  {
    hide Find, RowFrom, Patch, PartialPatch;
    forall k ensures RowFrom(history, k, Find(PartialPatch(t, p, reached), k), low) {
      PartialRow(t, p, reached, k);
      if k in reached {
        RowFromLower(history, k, Find(Patch(t, p.upserts, p.deletes), k), upper, low);
      }
    }
  }

  lemma WriteKeepsInv(s: State, owner: string)
    requires Inv(s) && Enabled(s, Write(owner))
    ensures Inv(After(s, Write(owner)))
  {
    hide TargetFrom, Patch, Committed, TruthfulFeed;
    var s' := After(s, Write(owner));
    var p := s.PhaseOf(owner);
    assert s.Lives(owner);
    if s.checkpoint.Some? {
      TargetFromLower(s.history, s'.target, p.upper, Committed(s.checkpoint));
    }
    StepOfRun(s, owner, Written(p.seen, p.upper), s');
  }

  lemma WritePartlyKeepsInv(s: State, owner: string, reached: set<Key>, dies: bool)
    requires Inv(s) && Enabled(s, WritePartly(owner, reached, dies))
    ensures Inv(After(s, WritePartly(owner, reached, dies)))
  {
    hide TargetFrom, Patch, PartialPatch, Committed, TruthfulFeed;
    var s' := After(s, WritePartly(owner, reached, dies));
    var p := s.PhaseOf(owner);
    assert s.Lives(owner);
    if s.checkpoint.Some? {
      PartialWriteFits(s.history, s.target, p.plan, reached, p.upper, Committed(s.checkpoint));
    }
    StepOfRun(s, owner, if dies then Dead else Leaving, s');
  }

  /** Under the lease a commit can only be refused by reconciliation, never by a conflict. */
  lemma CommitNeverConflicts(s: State, owner: string, runId: int, required: bool, reconciled: bool)
    requires Inv(s) && s.PhaseOf(owner).Written?
    ensures var r := CommitResult(s.checkpoint, s.PhaseOf(owner), runId, required, reconciled);
            && (r.Ok? <==> !required || reconciled)
            && (r.Ok? ==> r.value.checkpoint == ProgressAt(s.PhaseOf(owner).upper) && r.value.version >= 1)
  {
    hide TargetFrom, TruthfulFeed;
    assert s.Lives(owner);
  }

  lemma ProgressIsRead(state: CheckpointState, v: nat)
    requires state.checkpoint == ProgressAt(v)
    ensures Committed(Some(state)) == v
  {
  }

  lemma CommitKeepsInv(s: State, owner: string, runId: int, required: bool, reconciled: bool)
    requires Inv(s) && Enabled(s, Commit(owner, runId, required, reconciled))
    ensures Inv(After(s, Commit(owner, runId, required, reconciled)))
  {
    hide TargetFrom, Committed, TruthfulFeed, CommitResult, ProgressAt;
    var s' := After(s, Commit(owner, runId, required, reconciled));
    assert s.Lives(owner);
    CommitNeverConflicts(s, owner, runId, required, reconciled);
    if !required || reconciled {
      ProgressIsRead(s'.checkpoint.value, s.PhaseOf(owner).upper);
    }
    StepOfRun(s, owner, Leaving, s');
  }

  lemma PlanIncrementKeepsInv(s: State, owner: string, feed: FeedRange, affected: set<Key>, plan: Projection)
    requires Inv(s) && Enabled(s, PlanIncrement(owner, feed, affected, plan))
    ensures Inv(After(s, PlanIncrement(owner, feed, affected, plan)))
  {
    hide TargetFrom, Committed, TruthfulFeed, Increment, IsProjection, CoversChanges, PlanFits;
    assert s.Lives(owner);
    IncrementFits(s, owner, feed, affected, plan);
    var upper := Increment(s.PhaseOf(owner).seen, feed).value.upper;
    StepOfRun(s, owner, Planned(s.PhaseOf(owner).seen, upper, plan), After(s, PlanIncrement(owner, feed, affected, plan)));
  }

  lemma PlanRebuildKeepsInv(s: State, owner: string, snapshot: nat, plan: Projection)
    requires Inv(s) && Enabled(s, PlanRebuild(owner, snapshot, plan))
    ensures Inv(After(s, PlanRebuild(owner, snapshot, plan)))
  {
    hide TargetFrom, Committed, TruthfulFeed, IsProjection, PlanFits, ProcessedVersion;
    assert s.Lives(owner);
    RebuildFits(s, owner, snapshot, plan);
    StepOfRun(s, owner, Planned(s.PhaseOf(owner).seen, snapshot, plan), After(s, PlanRebuild(owner, snapshot, plan)));
  }

  lemma PlainStepKeepsInv(s: State, step: Step)
    requires Inv(s) && Enabled(s, step)
    requires step.Tick? || step.ReadCheckpoint? || step.Fail? || step.Die?
    ensures Inv(After(s, step))
  {
    hide TargetFrom, Committed, TruthfulFeed, PlanFits;
    var s' := After(s, step);
    match step {
      case Tick(later) =>
        forall o | s'.Lives(o)
          ensures s'.lease == Some(s'.runs[o].lease) && s'.runs[o].lease.owner == o && PhaseFits(s', s'.runs[o].phase)
        {
          assert s.Lives(o);
        }
      case ReadCheckpoint(owner) => StepOfRun(s, owner, Informed(s.checkpoint), s');
      case Fail(owner) => StepOfRun(s, owner, Leaving, s');
      case Die(owner) => StepOfRun(s, owner, Dead, s');
      case _ =>
    }
  }

  /** Every step keeps the invariant. */
  lemma StepKeepsInv(s: State, step: Step)
    requires Inv(s) && Enabled(s, step)
    ensures Inv(After(s, step))
  {
    hide *;
    match step {
      case AppendHistory(v) => AppendKeepsInv(s, v);
      case Acquire(owner, runId, deadline) => AcquireKeepsInv(s, owner, runId, deadline);
      case PlanIncrement(owner, feed, affected, plan) => PlanIncrementKeepsInv(s, owner, feed, affected, plan);
      case PlanRebuild(owner, snapshot, plan) => PlanRebuildKeepsInv(s, owner, snapshot, plan);
      case Write(owner) => WriteKeepsInv(s, owner);
      case WritePartly(owner, reached, dies) => WritePartlyKeepsInv(s, owner, reached, dies);
      case Commit(owner, runId, required, reconciled) => CommitKeepsInv(s, owner, runId, required, reconciled);
      case Release(owner) => ReleaseKeepsInv(s, owner);
      case RecoverLease(evidence) => RecoverKeepsInv(s, evidence);
      case _ => PlainStepKeepsInv(s, step);
    }
  }

  lemma {:induction false} EveryRunKeepsInv(s: State, steps: seq<Step>)
    requires Initial(s) && Execute(s, steps).Some?
    ensures Inv(Execute(s, steps).value)
    decreases |steps|
  {
    hide Inv, Enabled, After;
    if steps == [] {
      InitialFits(s);
    } else {
      EveryRunKeepsInv(s, steps[..|steps| - 1]);
      StepKeepsInv(Execute(s, steps[..|steps| - 1]).value, steps[|steps| - 1]);
    }
  }
}
