/** Committing watermarks: the lock-protected repository (control_plane/repository.py), which is atomic, and
    the SQL repository (control_plane/sqlalchemy_repository.py), which reads first and then inserts or updates
    by expected version while others may come in between. */
module WatermarkCommit {
  import opened Common
  import opened SourceOrder
  import opened ValueOrder
  import opened Watermark

  /** No position is committed exactly at version 0. */
  datatype WatermarkState = WatermarkState(position: Option<Mark>, version: nat)

  const EMPTY := WatermarkState(None, 0)

  predicate WellFormed(s: WatermarkState) {
    s.position.None? <==> s.version == 0
  }

  datatype CommitError =
    | NotDeployed
    | NullValue
    | BadExpectedVersion
    | Conflict
    | IncomparablePosition
    | Backwards

  /** The effect of a commit on the stored state of one dataset, as a single step. */
  function CommitAtomically(
      s: WatermarkState, position: Mark, expectedVersion: int): Result<WatermarkState, CommitError> {
    if position[0] == Null then Err(NullValue)
    else if s.version != expectedVersion then Err(Conflict)
    else if s.position.None? then Ok(WatermarkState(Some(position), s.version + 1))
    else match CompareMarks(position, s.position.value)
         case None => Err(IncomparablePosition)
         case Some(Stale) => Err(Backwards)
         case Some(Equal) => Ok(s)
         case Some(Newer) => Ok(WatermarkState(Some(position), s.version + 1))
  }

  /** The position is the committed one, or lies above it: by its value, or at an equal value and as many
      tie-breakers by
      these. */
  ghost predicate MayFollow(committed: Mark, position: Mark) {
    Comparable(position[0], committed[0])
    && if position[0] != committed[0] then ValueLess(committed[0], position[0])
       else position == committed || (|position| == |committed| && Before(committed, position))
  }

  /** A commit is accepted exactly for a value that is not null, the current version, and a position that is
      comparable with
      the committed one and not below it. It leaves the state alone at an equal position, and otherwise takes the
      position
      under the next version. */
  lemma CommitsExactlyWhen(s: WatermarkState, position: Mark, expectedVersion: int)
    ensures var r := CommitAtomically(s, position, expectedVersion);
            && (r.Ok? <==>
                  && position[0] != Null && s.version == expectedVersion
                  && (s.position.Some? ==> MayFollow(s.position.value, position)))
            && (r.Ok? ==> r.value == if s.position == Some(position) then s else WatermarkState(Some(position), s.version + 1))
  {
    if s.position.Some? && Comparable(position[0], s.position.value[0]) {
      MarksFollow(s.position.value, position);
    }
  }

  lemma MarksFollow(committed: Mark, position: Mark)
    requires Comparable(position[0], committed[0])
    ensures CompareMarks(position, committed).Some? && !CompareMarks(position, committed).value.Stale? <==> MayFollow(committed, position)
    ensures CompareMarks(position, committed) == Some(Equal) <==> position == committed
  {
    hide Compare;
    ValueTotal(position[0], committed[0]);
    if |position| == |committed| {
      CompareMirrors(position, committed);
      CompareEqual(position, committed);
      CompareUnfolds(position, committed);
      CompareEqual(position[1..], committed[1..]);
      assert position == [position[0]] + position[1..] && committed == [committed[0]] + committed[1..];
    }
  }

  lemma CompareUnfolds(a: Mark, b: Mark)
    requires |a| == |b|
    ensures a[0] == b[0] ==> Compare(a, b) == Compare(a[1..], b[1..])
  {
  }

  class InMemoryControlPlane {
    var datasets: set<string>
    var watermarks: map<string, WatermarkState>

    constructor (datasets: set<string>)
      ensures this.datasets == datasets && watermarks == map[]
    {
      this.datasets := datasets;
      watermarks := map[];
    }

    function GetWatermarkState(dataset: string): Result<WatermarkState, CommitError>
      reads this
    {
      if dataset !in datasets then Err(NotDeployed)
      else Ok(if dataset in watermarks then watermarks[dataset] else EMPTY)
    }

    method CommitWatermark(dataset: string, position: Mark, expectedVersion: int)
      returns (r: Result<WatermarkState, CommitError>)
      modifies this`watermarks
      ensures position[0] == Null ==> r == Err(NullValue)
      ensures position[0] != Null && dataset !in datasets ==> r == Err(NotDeployed)
      ensures position[0] != Null && dataset in datasets ==>
                r == CommitAtomically(old(GetWatermarkState(dataset)).value, position, expectedVersion)
      ensures r.Err? ==> watermarks == old(watermarks)
      ensures r.Ok? ==> GetWatermarkState(dataset) == r
      ensures forall other | other != dataset :: GetWatermarkState(other) == old(GetWatermarkState(other))
    {
      if position[0] == Null {
        return Err(NullValue);
      }
      if dataset !in datasets {
        return Err(NotDeployed);
      }
      var current := if dataset in watermarks then watermarks[dataset] else EMPTY;
      if current.version != expectedVersion {
        return Err(Conflict);
      }
      if current.position.Some? {
        var order := CompareMarks(position, current.position.value);
        if order.None? {
          return Err(IncomparablePosition);
        }
        if order.value.Stale? {
          return Err(Backwards);
        }
        if order.value.Equal? {
          return Ok(current);
        }
      }
      var updated := WatermarkState(Some(position), current.version + 1);
      watermarks := watermarks[dataset := updated];
      r := Ok(updated);
    }
  }

  // ---------------------------------------------------------------- the SQL commit, in two steps

  datatype Call =
    | Idle
    | Writing(position: Mark, expectedVersion: int, existed: bool)

  /** A call that returned, in the order of the returns. */
  datatype Done = Done(position: Mark, expectedVersion: int, result: Result<WatermarkState, CommitError>)

  /** The stored row of one dataset (EMPTY while there is none), the calls in flight, and the calls that
      returned. */
  datatype State = State(row: WatermarkState, calls: map<int, Call>, done: seq<Done>)
  {
    function CallOf(w: int): Call {
      if w in calls then calls[w] else Idle
    }
  }

  datatype Step = Read(w: int, position: Mark, expectedVersion: int) | Write(w: int) | Crash(w: int)

  predicate Enabled(s: State, step: Step) {
    match step
    case Read(w, position, expectedVersion) => s.CallOf(w).Idle?
    case Write(w) => s.CallOf(w).Writing?
    case Crash(w) => true
  }

  /** What the call answers after its read; None when it goes on to write. */
  function AnswerAfterRead(
      row: WatermarkState, position: Mark, expectedVersion: int): Option<Result<WatermarkState, CommitError>> {
    if position[0] == Null then Some(Err(NullValue))
    else if expectedVersion < 0 then Some(Err(BadExpectedVersion))
    else if row.version != expectedVersion then Some(Err(Conflict))
    else if row.position.None? then None
    else match CompareMarks(position, row.position.value)
         case None => Some(Err(IncomparablePosition))
         case Some(Stale) => Some(Err(Backwards))
         case Some(Equal) => Some(Ok(row))
         case Some(Newer) => None
  }

  /** An insert needs that there is still no row, an update that the row still has the expected version. */
  predicate WriteHits(row: WatermarkState, call: Call)
    requires call.Writing?
  {
    if call.existed then row.version != 0 && row.version == call.expectedVersion else row.version == 0
  }

  function After(s: State, step: Step): State
    requires Enabled(s, step)
  {
    match step
    case Read(w, position, expectedVersion) =>
      var answer := AnswerAfterRead(s.row, position, expectedVersion);
      if answer.Some? then s.(done := s.done + [Done(position, expectedVersion, answer.value)])
      else s.(calls := s.calls[w := Writing(position, expectedVersion, s.row.version != 0)])
    case Write(w) =>
      var call := s.CallOf(w);
      var next := WatermarkState(Some(call.position), if call.expectedVersion < 0 then 0 else call.expectedVersion + 1);
      if WriteHits(s.row, call) then
        State(next, s.calls[w := Idle], s.done + [Done(call.position, call.expectedVersion, Ok(next))])
      else
        State(s.row, s.calls[w := Idle], s.done + [Done(call.position, call.expectedVersion, Err(Conflict))])
    case Crash(w) => s.(calls := s.calls[w := Idle])
  }

  const INITIAL := State(EMPTY, map[], [])

  function RunFrom(s: State, steps: seq<Step>): Option<State> {
    if steps == [] then Some(s)
    else
      var before, last := RunFrom(s, steps[..|steps| - 1]), steps[|steps| - 1];
      if before.Some? && Enabled(before.value, last) then Some(After(before.value, last)) else None
  }

  // ---------------------------------------------------------------- refinement

  /** The results that the two repositories give for one call agree. A negative expected version is refused
      with a different error. */
  predicate SameAnswer(sql: Result<WatermarkState, CommitError>, atomic: Result<WatermarkState, CommitError>) {
    sql == atomic || (sql == Err(BadExpectedVersion) && atomic == Err(Conflict))
  }

  /** The calls, each taken as one atomic commit in the order in which they returned. */
  function Replay(done: seq<Done>): WatermarkState {
    if done == [] then EMPTY
    else
      var before, d := Replay(done[..|done| - 1]), done[|done| - 1];
      var r := CommitAtomically(before, d.position, d.expectedVersion);
      if r.Ok? then r.value else before
  }

  /** Every call returned what the atomic repository would have returned. */
  predicate Legal(done: seq<Done>) {
    done == []
    || (var before, d := done[..|done| - 1], done[|done| - 1];
        Legal(before) && SameAnswer(d.result, CommitAtomically(Replay(before), d.position, d.expectedVersion)))
  }

  /** A call in flight would still succeed if the row is the one it read. */
  predicate CallFits(row: WatermarkState, call: Call) {
    call.Writing? ==>
      && call.position[0] != Null && 0 <= call.expectedVersion <= row.version
      && (call.existed <==> call.expectedVersion != 0)
      && (row.version == call.expectedVersion ==>
            CommitAtomically(row, call.position, call.expectedVersion) == Ok(WatermarkState(Some(call.position), row.version + 1)))
  }

  ghost predicate Inv(s: State) {
    && WellFormed(s.row)
    && s.row == Replay(s.done) && Legal(s.done)
    && forall w :: CallFits(s.row, s.CallOf(w))
  }

  lemma OneMoreDone(done: seq<Done>, d: Done)
    ensures Replay(done + [d]) ==
            var r := CommitAtomically(Replay(done), d.position, d.expectedVersion); if r.Ok? then r.value else Replay(done)
    ensures Legal(done + [d]) <==> Legal(done) && SameAnswer(d.result, CommitAtomically(Replay(done), d.position, d.expectedVersion))
  {
    hide CommitAtomically, SameAnswer;
    assert (done + [d])[..|done|] == done;
  }

  lemma AnswerIsAtomic(row: WatermarkState, position: Mark, expectedVersion: int)
    requires WellFormed(row)
    ensures var answer, atomic := AnswerAfterRead(row, position, expectedVersion), CommitAtomically(row, position, expectedVersion);
            && (answer.Some? ==> SameAnswer(answer.value, atomic) && (atomic.Ok? ==> atomic.value == row))
            && (answer.None? ==> CallFits(row, Writing(position, expectedVersion, row.version != 0)))
  {
    hide CompareMarks;
  }

  lemma ReadKeepsInv(s: State, w: int, position: Mark, expectedVersion: int)
    requires Inv(s) && Enabled(s, Read(w, position, expectedVersion))
    ensures Inv(After(s, Read(w, position, expectedVersion)))
  {
    hide CallFits, CommitAtomically, AnswerAfterRead, SameAnswer, Legal, Replay;
    var s' := After(s, Read(w, position, expectedVersion));
    AnswerIsAtomic(s.row, position, expectedVersion);
    if s'.done != s.done {
      OneMoreDone(s.done, s'.done[|s.done|]);
    }
    forall v ensures CallFits(s'.row, s'.CallOf(v)) {
      assert CallFits(s.row, s.CallOf(v));
    }
  }

  lemma WriteOutcome(row: WatermarkState, call: Call)
    requires call.Writing? && CallFits(row, call) && WellFormed(row)
    ensures call.expectedVersion >= 0 && (WriteHits(row, call) <==> row.version == call.expectedVersion)
    ensures CommitAtomically(row, call.position, call.expectedVersion) ==
            if WriteHits(row, call) then Ok(WatermarkState(Some(call.position), call.expectedVersion + 1)) else Err(Conflict)
  {
    hide CompareMarks;
  }

  lemma IdleFits(row: WatermarkState)
    ensures CallFits(row, Idle)
  {
  }

  lemma OthersFitAfterWrite(row: WatermarkState, next: WatermarkState, call: Call)
    requires CallFits(row, call) && next.version == row.version + 1
    ensures CallFits(next, call)
  {
    hide CommitAtomically;
  }

  lemma WriteKeepsInv(s: State, w: int)
    requires Inv(s) && Enabled(s, Write(w))
    ensures Inv(After(s, Write(w)))
  {
    hide CallFits, CommitAtomically, Legal, Replay;
    var call, s' := s.CallOf(w), After(s, Write(w));
    assert CallFits(s.row, call);
    WriteOutcome(s.row, call);
    OneMoreDone(s.done, s'.done[|s.done|]);
    forall v ensures CallFits(s'.row, s'.CallOf(v)) {
      assert CallFits(s.row, s.CallOf(v));
      IdleFits(s'.row);
      if s'.row != s.row {
        OthersFitAfterWrite(s.row, s'.row, s.CallOf(v));
      }
    }
  }

  lemma CrashKeepsInv(s: State, w: int)
    requires Inv(s)
    ensures Inv(After(s, Crash(w)))
  {
    hide CallFits, Legal, Replay;
    IdleFits(s.row);
    forall v ensures CallFits(s.row, After(s, Crash(w)).CallOf(v)) {
      assert CallFits(s.row, s.CallOf(v));
    }
  }

  /** Under any interleaving with crashes the SQL repository behaves like the atomic one: taking the calls
      one after the other in the order of their returns gives the same answers and the same stored state. */
  lemma {:induction false} SqlCommitRefinesAtomicCommit(steps: seq<Step>)
    requires RunFrom(INITIAL, steps).Some?
    ensures Inv(RunFrom(INITIAL, steps).value)
    ensures var s := RunFrom(INITIAL, steps).value; Legal(s.done) && s.row == Replay(s.done)
  {
    hide CallFits, Enabled, After;
    if steps == [] {
      forall w ensures CallFits(EMPTY, INITIAL.CallOf(w)) {
        IdleFits(EMPTY);
      }
    } else {
      SqlCommitRefinesAtomicCommit(steps[..|steps| - 1]);
      var s, step := RunFrom(INITIAL, steps[..|steps| - 1]).value, steps[|steps| - 1];
      StepKeepsInv(s, step);
    }
  }

  lemma StepKeepsInv(s: State, step: Step)
    requires Inv(s) && Enabled(s, step)
    ensures Inv(After(s, step))
  {
    hide *;
    match step {
      case Read(w, position, expectedVersion) => ReadKeepsInv(s, w, position, expectedVersion);
      case Write(w) => WriteKeepsInv(s, w);
      case Crash(w) => CrashKeepsInv(s, w);
    }
  }

  // ---------------------------------------------------------------- versions and positions

  /** The calls that moved the position. */
  function Moves(done: seq<Done>): seq<Mark> {
    if done == [] then []
    else
      var before, d := Moves(done[..|done| - 1]), done[|done| - 1];
      if Replay(done) == Replay(done[..|done| - 1]) then before else before + [d.position]
  }

  predicate Rising(ms: seq<Mark>) {
    forall i, j | 0 <= i < j < |ms| :: Above(ms[j], ms[i])
  }

  lemma AboveTransitive(a: Mark, b: Mark, c: Mark)
    requires Above(a, b) && Above(b, c)
    ensures Above(a, c)
  {
    hide ValueLess;
    if a[0] != b[0] && b[0] != c[0] {
      ValueTotal(a[0], b[0]);
      ValueTotal(b[0], c[0]);
      ValueTransitive(c[0], b[0], a[0]);
      ValueTotal(a[0], c[0]);
    } else if a[0] == b[0] == c[0] {
      CompareMirrors(a[1..], b[1..]);
      CompareMirrors(b[1..], c[1..]);
      CompareMirrors(a[1..], c[1..]);
      BeforeTransitive(c[1..], b[1..], a[1..]);
    }
  }

  /** Versions have no gaps and committed positions rise strictly. */
  lemma {:induction false} VersionsCountRisingPositions(done: seq<Done>)
    ensures WellFormed(Replay(done))
    ensures Replay(done).version == |Moves(done)| && Rising(Moves(done))
    ensures Replay(done).position == if Moves(done) == [] then None else Some(Moves(done)[|Moves(done)| - 1])
  {
    hide CompareMarks, Above;
    if done != [] {
      var prefix, d := done[..|done| - 1], done[|done| - 1];
      VersionsCountRisingPositions(prefix);
      var before, ms := Replay(prefix), Moves(prefix);
      if Replay(done) != before {
        MoveIsAbove(before, d.position, d.expectedVersion);
        forall i | 0 <= i < |ms| ensures Above(d.position, ms[i]) {
          if i < |ms| - 1 {
            AboveTransitive(d.position, ms[|ms| - 1], ms[i]);
          }
        }
      }
    }
  }

  lemma MoveIsAbove(s: WatermarkState, position: Mark, expectedVersion: int)
    requires CommitAtomically(s, position, expectedVersion).Ok? && CommitAtomically(s, position, expectedVersion).value != s
    ensures CommitAtomically(s, position, expectedVersion).value == WatermarkState(Some(position), s.version + 1)
    ensures s.position.Some? ==> Above(position, s.position.value)
  {
  }
}
