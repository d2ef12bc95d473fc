/** The journal of target operations (control_plane/target_operation_journal.py): one record per semantic
    operation, moved by compare-and-swap, and an append-only log of its lifecycle (contracts/target_operation.py). */
module OperationJournal {
  import opened Common

  datatype Status = InProgress | Succeeded | Unknown | NotCommitted

  /** _ALLOWED_TRANSITIONS */
  predicate Allowed(before: Status, after: Status) {
    match before
    case InProgress => after.Succeeded? || after.Unknown? || after.NotCommitted?
    case Unknown => after.Succeeded? || after.Unknown? || after.NotCommitted?
    case NotCommitted => after.InProgress?
    case Succeeded => false
  }

  /** Outcome reference, error code and error message. */
  datatype Note = Note(outcome: Option<string>, errorCode: Option<string>, errorMessage: Option<string>)

  const NO_NOTE := Note(None, None, None)

  datatype Record = Record(status: Status, owner: int, attempt: int, version: int, note: Note)

  datatype Event = Event(from: Option<Status>, to: Status, owner: int, attempt: int, version: int, note: Note)

  /** The stored row of one operation, if any, and its events in insertion order. */
  datatype Log = Log(record: Option<Record>, events: seq<Event>)

  const EMPTY_LOG := Log(None, [])

  datatype Action = Execute | SkipSucceeded | ReconcileRequired

  datatype JournalError =
    | BadArgument
    | NotFound
    | VersionConflict
    | InvalidTransition
    | CannotReconcileBackwards

  /** One compare-and-swap: the record takes the next version and the event is appended beside it. */
  function Advance(log: Log, to: Status, owner: int, attempt: int, note: Note): Log {
    var version := if log.record.Some? then log.record.value.version + 1 else 1;
    var from := if log.record.Some? then Some(log.record.value.status) else None;
    Log(Some(Record(to, owner, attempt, version, note)), log.events + [Event(from, to, owner, attempt, version, note)])
  }

  /** What a claim answers after reading the record; None when it goes on to write. */
  function ClaimAnswer(seen: Option<Record>): Option<Action> {
    if seen.None? then None
    else match seen.value.status
         case Succeeded => Some(SkipSucceeded)
         case InProgress => Some(ReconcileRequired)
         case Unknown => Some(ReconcileRequired)
         case NotCommitted => None
  }

  /** Whether the write of a claim takes effect: an insert needs that there is still no row, an update that
      the row is still the one that was read. */
  predicate ClaimWins(log: Log, seen: Option<Record>) {
    if seen.None? then log.record.None?
    else log.record.Some? && log.record.value.version == seen.value.version && log.record.value.status.NotCommitted?
  }

  /** What stops a transition after its read. */
  function TransitionRefusal(seen: Option<Record>, expectedVersion: int, to: Status): Option<JournalError> {
    if seen.None? then Some(NotFound)
    else if seen.value.version != expectedVersion then Some(VersionConflict)
    else if !Allowed(seen.value.status, to) then Some(InvalidTransition)
    else None
  }

  predicate TransitionWins(log: Log, expectedVersion: int) {
    log.record.Some? && log.record.value.version == expectedVersion
  }

  datatype Resolution = CommittedOutcome | NotCommittedOutcome | Unresolved

  function StatusOf(r: Resolution): Status {
    match r
    case CommittedOutcome => Succeeded
    case NotCommittedOutcome => NotCommitted
    case Unresolved => Unknown
  }

  // ---------------------------------------------------------------- log and record agree

  /** The events carry versions 1..n, each starts where the previous one ended, every step is an allowed
      transition, and the record is what the last event says. */
  ghost predicate Agrees(log: Log) {
    && (forall i | 0 <= i < |log.events| :: LinkAt(log.events, i))
    && log.record == if log.events == [] then None else Some(RecordOf(log.events[|log.events| - 1]))
  }

  /** Event i has version i + 1 and continues the event before it; the first one creates the record. */
  ghost predicate LinkAt(events: seq<Event>, i: nat)
    requires i < |events|
  {
    && events[i].version == i + 1
    && if i == 0 then events[0].from.None? && events[0].to.InProgress?
       else events[i].from == Some(events[i - 1].to) && Allowed(events[i - 1].to, events[i].to)
  }

  function RecordOf(e: Event): Record {
    Record(e.to, e.owner, e.attempt, e.version, e.note)
  }

  /** The first write of an operation makes it IN_PROGRESS; later ones are allowed transitions. */
  predicate MayAdvance(record: Option<Record>, to: Status) {
    if record.Some? then Allowed(record.value.status, to) else to.InProgress?
  }

  lemma AdvanceAgrees(log: Log, to: Status, owner: int, attempt: int, note: Note)
    requires Agrees(log) && MayAdvance(log.record, to)
    ensures Agrees(Advance(log, to, owner, attempt, note))
    ensures var next := Advance(log, to, owner, attempt, note);
            && |next.events| == |log.events| + 1 && next.events[..|log.events|] == log.events
            && next.record == Some(Record(to, owner, attempt, |next.events|, note))
  {
    if log.events != [] {
      assert LinkAt(log.events, |log.events| - 1);
    }
    var next := Advance(log, to, owner, attempt, note);
    forall i | 0 <= i < |next.events| ensures LinkAt(next.events, i) {
      if i < |log.events| {
        assert LinkAt(log.events, i);
      } else if i > 0 {
        assert LinkAt(log.events, i - 1);
      }
    }
  }

  // ---------------------------------------------------------------- the journal as an object

  datatype Claim = Claim(action: Action, record: Record)

  /** Operations are identified by their intent: the key is an injective hash of it. */
  datatype Intent = Intent(
    dataset: string, kind: string, target: string, configHash: string, inputFingerprint: string, semanticVersion: int)

  class Journal {
    var records: map<Intent, Record>
    var events: map<Intent, seq<Event>>

    function LogOf(intent: Intent): Log
      reads this
    {
      Log(Find(records, intent), if intent in events then events[intent] else [])
    }

    ghost predicate Valid()
      reads this
    {
      forall intent :: Agrees(LogOf(intent))
    }

    constructor ()
      ensures Valid() && forall intent :: LogOf(intent) == EMPTY_LOG
    {
      records := map[];
      events := map[];
    }

    /** The update of one row and the insert of its event, in one transaction. */
    method Write(intent: Intent, to: Status, owner: int, attempt: int, note: Note)
      requires Valid()
      requires MayAdvance(LogOf(intent).record, to)
      modifies this
      ensures Valid()
      ensures LogOf(intent) == Advance(old(LogOf(intent)), to, owner, attempt, note)
      ensures forall other | other != intent :: LogOf(other) == old(LogOf(other))
    {
      AdvanceAgrees(LogOf(intent), to, owner, attempt, note);
      ghost var before := LogOf(intent);
      var from := if intent in records then Some(records[intent].status) else None;
      var version := if intent in records then records[intent].version + 1 else 1;
      var written := if intent in events then events[intent] else [];
      events := events[intent := written + [Event(from, to, owner, attempt, version, note)]];
      records := records[intent := Record(to, owner, attempt, version, note)];
      forall other ensures Agrees(LogOf(other)) {
        assert other != intent ==> LogOf(other) == old(LogOf(other));
      }
    }

    method ClaimOperation(intent: Intent, runId: int, attempt: int) returns (r: Result<Claim, JournalError>)
      requires Valid()
      modifies this
      ensures Valid()
      ensures forall other | other != intent :: LogOf(other) == old(LogOf(other))
      ensures attempt < 1 ==> r == Err(BadArgument) && LogOf(intent) == old(LogOf(intent))
      ensures attempt >= 1 ==> r.Ok?
      ensures attempt >= 1 ==> var before := old(LogOf(intent)).record;
                && (r.value.action.SkipSucceeded? <==> before.Some? && before.value.status.Succeeded?)
                && (r.value.action.ReconcileRequired? <==>
                      before.Some? && (before.value.status.InProgress? || before.value.status.Unknown?))
      ensures attempt >= 1 && !r.value.action.Execute? ==>
                Some(r.value.record) == old(LogOf(intent)).record && LogOf(intent) == old(LogOf(intent))
      ensures attempt >= 1 && r.value.action.Execute? ==>
                && LogOf(intent) == Advance(old(LogOf(intent)), InProgress, runId, attempt, NO_NOTE)
                && LogOf(intent).record == Some(r.value.record)
    {
      if attempt < 1 {
        return Err(BadArgument);
      }
      if intent in records {
        var current := records[intent];
        if current.status.Succeeded? {
          return Ok(Claim(SkipSucceeded, current));
        }
        if current.status.InProgress? || current.status.Unknown? {
          return Ok(Claim(ReconcileRequired, current));
        }
      }
      Write(intent, InProgress, runId, attempt, NO_NOTE);
      r := Ok(Claim(Execute, records[intent]));
    }

    method Transition(intent: Intent, expectedVersion: int, to: Status, runId: int, attempt: int, note: Note)
      returns (r: Result<Record, JournalError>)
      requires Valid()
      modifies this
      ensures Valid()
      ensures forall other | other != intent :: LogOf(other) == old(LogOf(other))
      ensures r.Ok? <==>
                && expectedVersion >= 1 && attempt >= 1 && old(LogOf(intent)).record.Some?
                && var before := old(LogOf(intent)).record.value;
                   && before.version == expectedVersion
                   && (if before.status.NotCommitted? then to.InProgress? else !before.status.Succeeded? && !to.InProgress?)
      ensures r.Err? ==> LogOf(intent) == old(LogOf(intent))
      ensures r.Err? && expectedVersion >= 1 && attempt >= 1 ==>
                TransitionRefusal(old(LogOf(intent)).record, expectedVersion, to) == Some(r.error)
      ensures r.Ok? ==>
                && LogOf(intent) == Advance(old(LogOf(intent)), to, runId, attempt, note)
                && r.value == LogOf(intent).record.value
    {
      if expectedVersion < 1 || attempt < 1 {
        return Err(BadArgument);
      }
      if intent !in records {
        return Err(NotFound);
      }
      var current := records[intent];
      if current.version != expectedVersion {
        return Err(VersionConflict);
      }
      if !Allowed(current.status, to) {
        return Err(InvalidTransition);
      }
      Write(intent, to, runId, attempt, note);
      // The second read, which follows the commit of the transaction.
      r := Ok(records[intent]);
    }

    /** A committed outcome ends in SUCCEEDED, and SUCCEEDED is never left again. */
    method Reconcile(intent: Intent, expectedVersion: int, resolution: Resolution, runId: int, attempt: int, note: Note)
      returns (r: Result<Record, JournalError>)
      requires Valid()
      modifies this
      ensures Valid()
      ensures forall other | other != intent :: LogOf(other) == old(LogOf(other))
      ensures r.Err? ==> LogOf(intent) == old(LogOf(intent))
      ensures r.Ok? <==>
                && old(LogOf(intent)).record.Some?
                && var before := old(LogOf(intent)).record.value;
                   if before.status.Succeeded? then resolution.CommittedOutcome?
                   else !before.status.NotCommitted? && before.version == expectedVersion && expectedVersion >= 1 && attempt >= 1
      ensures r.Ok? ==> LogOf(intent).record == Some(r.value)
      ensures r.Ok? ==>
                && (resolution.CommittedOutcome? <==> r.value.status.Succeeded?)
                && (resolution.NotCommittedOutcome? <==> r.value.status.NotCommitted?)
                && (resolution.Unresolved? <==> r.value.status.Unknown?)
      ensures old(LogOf(intent)).record.Some? && old(LogOf(intent)).record.value.status.Succeeded? ==>
                LogOf(intent) == old(LogOf(intent)) && (r.Ok? <==> resolution.CommittedOutcome?)
      ensures r.Ok? && old(LogOf(intent)).record.Some? && !old(LogOf(intent)).record.value.status.Succeeded? ==>
                LogOf(intent) == Advance(old(LogOf(intent)), StatusOf(resolution), runId, attempt, note)
    {
      if intent !in records {
        return Err(NotFound);
      }
      var current := records[intent];
      if current.status.Succeeded? {
        if resolution.CommittedOutcome? {
          return Ok(current);
        }
        return Err(CannotReconcileBackwards);
      }
      r := Transition(intent, expectedVersion, StatusOf(resolution), runId, attempt, note);
    }
  }

  // ---------------------------------------------------------------- interleaved workers

  // Workers claim, mark and reconcile one operation under any interleaving. Each call is split where another
  // worker can get in between: its read, its compare-and-swap, and the second read that follows the commit of
  // a retry claim and of every transition.

  /** What became of one permission to run the physical mutation. */
  datatype Grant = Pending | Committed | Void

  datatype Pc =
    | Idle
    | Claiming(seen: Option<Record>, runId: int, attempt: int)
    | ReReading(written: int, claim: bool)
    | Answered(action: Action, record: Record)
    | Returned(record: Record)
    | Moving(base: Record, to: Status, runId: int, attempt: int, note: Note)

  datatype State = State(log: Log, grants: seq<Grant>, workers: map<int, Pc>)
  {
    function PcOf(w: int): Pc {
      if w in workers then workers[w] else Idle
    }

    function At(w: int, pc: Pc): State {
      this.(workers := workers[w := pc])
    }
  }

  datatype Step =
    | ClaimRead(w: int, runId: int, attempt: int)
    | ClaimWrite(w: int)
    | ReRead(w: int)
    | TransitionRead(w: int, expectedVersion: int, to: Status, runId: int, attempt: int, note: Note)
    | TransitionWrite(w: int)
    | Crash(w: int)
    | PhysicalCommit(g: nat)
    | GiveUp(g: nat)

  predicate Enabled(s: State, step: Step) {
    match step
    case ClaimRead(w, runId, attempt) => attempt >= 1
    case ClaimWrite(w) => s.PcOf(w).Claiming?
    case ReRead(w) => s.PcOf(w).ReReading? && s.log.record.Some?
    case TransitionRead(w, expectedVersion, to, runId, attempt, note) => expectedVersion >= 1 && attempt >= 1
    case TransitionWrite(w) => s.PcOf(w).Moving?
    case Crash(w) => true
    case PhysicalCommit(g) => g < |s.grants| && s.grants[g].Pending?
    case GiveUp(g) => g < |s.grants| && s.grants[g].Pending?
  }

  /** A call whose compare-and-swap fails, or that is refused after its read, changes nothing. */
  function After(s: State, step: Step): State
    requires Enabled(s, step)
  {
    match step
    case ClaimRead(w, runId, attempt) =>
      var answer := ClaimAnswer(s.log.record);
      s.At(w, if answer.Some? then Answered(answer.value, s.log.record.value) else Claiming(s.log.record, runId, attempt))
    case ClaimWrite(w) =>
      var pc := s.PcOf(w);
      if ClaimWins(s.log, pc.seen) then
        var log := Advance(s.log, InProgress, pc.runId, pc.attempt, NO_NOTE);
        var next := if pc.seen.None? then Answered(Execute, log.record.value) else ReReading(log.record.value.version, true);
        s.At(w, next).(log := log, grants := s.grants + [Pending])
      else s.At(w, Idle)
    case ReRead(w) => s.At(w, if s.PcOf(w).claim then Answered(Execute, s.log.record.value) else Returned(s.log.record.value))
    case TransitionRead(w, expectedVersion, to, runId, attempt, note) =>
      if TransitionRefusal(s.log.record, expectedVersion, to).Some? then s.At(w, Idle)
      else s.At(w, Moving(s.log.record.value, to, runId, attempt, note))
    case TransitionWrite(w) =>
      var pc := s.PcOf(w);
      if TransitionWins(s.log, pc.base.version) then
        var log := Advance(s.log, pc.to, pc.runId, pc.attempt, pc.note);
        s.At(w, ReReading(log.record.value.version, false)).(log := log)
      else s.At(w, Idle)
    case Crash(w) => s.At(w, Idle)
    case PhysicalCommit(g) => s.(grants := s.grants[g := Committed])
    case GiveUp(g) => s.(grants := s.grants[g := Void])
  }

  const INITIAL := State(EMPTY_LOG, [], map[])

  function RunFrom(s: State, steps: seq<Step>): Option<State> {
    if steps == [] then Some(s)
    else
      var before := RunFrom(s, steps[..|steps| - 1]);
      var last := steps[|steps| - 1];
      if before.Some? && Enabled(before.value, last) then Some(After(before.value, last)) else None
  }

  // ---------------------------------------------------------------- counting

  function Events(events: seq<Event>, to: Status): nat {
    if events == [] then 0
    else Events(events[..|events| - 1], to) + if events[|events| - 1].to == to then 1 else 0
  }

  /** Grants that have committed or still can. */
  function Possible(grants: seq<Grant>): nat {
    if grants == [] then 0
    else Possible(grants[..|grants| - 1]) + if grants[|grants| - 1].Void? then 0 else 1
  }

  function Commits(grants: seq<Grant>): nat {
    if grants == [] then 0
    else Commits(grants[..|grants| - 1]) + if grants[|grants| - 1].Committed? then 1 else 0
  }

  lemma {:induction false} CommitsArePossible(grants: seq<Grant>)
    ensures Commits(grants) <= Possible(grants) <= |grants|
  {
    if grants != [] {
      CommitsArePossible(grants[..|grants| - 1]);
    }
  }

  lemma {:induction false} NonePossible(grants: seq<Grant>)
    ensures Possible(grants) == 0 <==> forall i | 0 <= i < |grants| :: grants[i].Void?
  {
    if grants != [] {
      NonePossible(grants[..|grants| - 1]);
      assert grants == grants[..|grants| - 1] + [grants[|grants| - 1]];
    }
  }

  lemma {:induction false} SettlePossible(grants: seq<Grant>, g: nat, settled: Grant)
    requires g < |grants| && grants[g].Pending?
    ensures Possible(grants[g := settled]) == Possible(grants) - if settled.Void? then 1 else 0
  {
    var last := |grants| - 1;
    if g < last {
      SettlePossible(grants[..last], g, settled);
      assert grants[g := settled][..last] == grants[..last][g := settled];
    } else {
      assert grants[g := settled][..last] == grants[..last];
    }
  }

  lemma EventAppended(events: seq<Event>, e: Event, to: Status)
    ensures Events(events + [e], to) == Events(events, to) + if e.to == to then 1 else 0
  {
    assert (events + [e])[..|events|] == events;
  }

  /** Between two claims that go ahead the operation was recorded as not committed. */
  lemma {:induction false} ClaimsAlternate(events: seq<Event>)
    requires forall i | 0 <= i < |events| :: LinkAt(events, i)
    ensures events == [] ==> Events(events, InProgress) == 0 && Events(events, NotCommitted) == 0
    ensures events != [] ==>
              Events(events, InProgress) ==
              Events(events, NotCommitted) + if events[|events| - 1].to.NotCommitted? then 0 else 1
  {
    if events != [] {
      var prefix := events[..|events| - 1];
      forall i | 0 <= i < |prefix| ensures LinkAt(prefix, i) {
        assert LinkAt(events, i);
      }
      ClaimsAlternate(prefix);
      assert LinkAt(events, |events| - 1);
    }
  }

  // ---------------------------------------------------------------- the invariant

  predicate PcFits(pc: Pc, record: Option<Record>) {
    match pc
    case Claiming(seen, _, _) =>
      seen.Some? ==> seen.value.status.NotCommitted? && record.Some? && seen.value.version <= record.value.version
    case Moving(base, to, _, _, _) =>
      && Allowed(base.status, to)
      && record.Some? && base.version <= record.value.version
      && (base.version == record.value.version ==> base == record.value)
    case ReReading(written, _) => record.Some? && 1 <= written <= record.value.version
    case Answered(action, r) => record.Some? && r.version <= record.value.version
    case Returned(r) => record.Some? && r.version <= record.value.version
    case Idle => true
  }

  ghost predicate Inv(s: State) {
    && Agrees(s.log)
    && |s.grants| <= Events(s.log.events, InProgress)
    && forall w :: PcFits(s.PcOf(w), s.log.record)
  }

  /** Calls in flight still fit when the record advances. */
  lemma AdvanceKeepsPcs(pc: Pc, log: Log, to: Status, owner: int, attempt: int, note: Note)
    requires PcFits(pc, log.record)
    ensures PcFits(pc, Advance(log, to, owner, attempt, note).record)
  {
  }

  lemma SameRecordKeepsInv(s: State, w: int, pc: Pc)
    requires Inv(s) && PcFits(pc, s.log.record)
    ensures Inv(s.At(w, pc))
  {
    hide PcFits, Agrees;
    forall v ensures PcFits(s.At(w, pc).PcOf(v), s.log.record) {
      assert s.At(w, pc).PcOf(v) == if v == w then pc else s.PcOf(v);
    }
  }

  lemma AdvanceKeepsInv(s: State, w: int, pc: Pc, to: Status, owner: int, attempt: int, note: Note, grants: seq<Grant>)
    requires Inv(s) && MayAdvance(s.log.record, to)
    requires |grants| <= |s.grants| + if to.InProgress? then 1 else 0
    requires PcFits(pc, Advance(s.log, to, owner, attempt, note).record)
    ensures Inv(s.At(w, pc).(log := Advance(s.log, to, owner, attempt, note), grants := grants))
  {
    hide PcFits, Agrees, MayAdvance;
    var log := Advance(s.log, to, owner, attempt, note);
    var s' := s.At(w, pc).(log := log, grants := grants);
    AdvanceAgrees(s.log, to, owner, attempt, note);
    EventAppended(s.log.events, log.events[|s.log.events|], InProgress);
    forall v ensures PcFits(s'.PcOf(v), log.record) {
      assert s'.PcOf(v) == if v == w then pc else s.PcOf(v);
      AdvanceKeepsPcs(s.PcOf(v), s.log, to, owner, attempt, note);
    }
  }

  lemma StepKeepsInv(s: State, step: Step)
    requires Inv(s) && Enabled(s, step)
    ensures Inv(After(s, step))
  {
    hide Inv, Agrees;
    assert forall w :: PcFits(s.PcOf(w), s.log.record) by {
      PcsFit(s);
    }
    VersionIsLength(s);
    match step {
      case ClaimRead(w, runId, attempt) => SameRecordKeepsInv(s, w, After(s, step).PcOf(w));
      case ClaimWrite(w) =>
        var pc := s.PcOf(w);
        if ClaimWins(s.log, pc.seen) {
          AdvanceKeepsInv(s, w, After(s, step).PcOf(w), InProgress, pc.runId, pc.attempt, NO_NOTE, s.grants + [Pending]);
        } else {
          SameRecordKeepsInv(s, w, Idle);
        }
      case ReRead(w) => SameRecordKeepsInv(s, w, After(s, step).PcOf(w));
      case TransitionRead(w, expectedVersion, to, runId, attempt, note) => SameRecordKeepsInv(s, w, After(s, step).PcOf(w));
      case TransitionWrite(w) =>
        var pc := s.PcOf(w);
        if TransitionWins(s.log, pc.base.version) {
          AdvanceKeepsInv(s, w, After(s, step).PcOf(w), pc.to, pc.runId, pc.attempt, pc.note, s.grants);
        } else {
          SameRecordKeepsInv(s, w, Idle);
        }
      case Crash(w) => SameRecordKeepsInv(s, w, Idle);
      case PhysicalCommit(g) => GrantsKeepInv(s, s.grants[g := Committed]);
      case GiveUp(g) => GrantsKeepInv(s, s.grants[g := Void]);
    }
  }

  lemma VersionIsLength(s: State)
    requires Inv(s)
    ensures s.log.record.Some? ==> s.log.record.value.version == |s.log.events| >= 1
  {
    if s.log.events != [] {
      assert LinkAt(s.log.events, |s.log.events| - 1);
    }
  }

  lemma PcsFit(s: State)
    requires Inv(s)
    ensures forall w :: PcFits(s.PcOf(w), s.log.record)
  {
  }

  lemma GrantsKeepInv(s: State, grants: seq<Grant>)
    requires Inv(s) && |grants| == |s.grants|
    ensures Inv(s.(grants := grants))
  {
    hide PcFits, Agrees;
    forall w ensures PcFits(s.(grants := grants).PcOf(w), s.log.record) {
      assert s.(grants := grants).PcOf(w) == s.PcOf(w);
    }
  }

  lemma {:induction false} EveryRunKeepsInv(steps: seq<Step>)
    requires RunFrom(INITIAL, steps).Some?
    ensures Inv(RunFrom(INITIAL, steps).value)
  {
    hide Inv, Enabled, After;
    if steps == [] {
      InitialIsSafe();
    } else {
      EveryRunKeepsInv(steps[..|steps| - 1]);
      StepKeepsInv(RunFrom(INITIAL, steps[..|steps| - 1]).value, steps[|steps| - 1]);
    }
  }

  // ---------------------------------------------------------------- main results, without assumptions

  /** In every reachable state log and record agree, and claims were granted at most once more often than
      the operation was recorded as not committed. */
  lemma LogAgreesAndGrantsAreBounded(steps: seq<Step>)
    requires RunFrom(INITIAL, steps).Some?
    ensures var s := RunFrom(INITIAL, steps).value;
            && Agrees(s.log)
            && |s.grants| <= 1 + Events(s.log.events, NotCommitted)
            && (s.log.record.Some? && s.log.record.value.status.NotCommitted? ==>
                  |s.grants| <= Events(s.log.events, NotCommitted))
  {
    EveryRunKeepsInv(steps);
    ClaimsAlternate(RunFrom(INITIAL, steps).value.log.events);
  }

  /** SUCCEEDED is final: no later step touches the log or grants another execution. */
  lemma {:induction false} NothingFollowsSuccess(s: State, steps: seq<Step>)
    requires Inv(s) && s.log.record.Some? && s.log.record.value.status.Succeeded?
    requires RunFrom(s, steps).Some?
    ensures var t := RunFrom(s, steps).value; Inv(t) && t.log == s.log && |t.grants| == |s.grants|
    decreases |steps|
  {
    hide Inv;
    if steps != [] {
      NothingFollowsSuccess(s, steps[..|steps| - 1]);
      var t := RunFrom(s, steps[..|steps| - 1]).value;
      StepKeepsInv(t, steps[|steps| - 1]);
      PcsFit(t);
      SuccessStays(t, steps[|steps| - 1]);
    }
  }

  lemma SuccessStays(s: State, step: Step)
    requires forall w :: PcFits(s.PcOf(w), s.log.record)
    requires s.log.record.Some? && s.log.record.value.status.Succeeded? && Enabled(s, step)
    ensures After(s, step).log == s.log && |After(s, step).grants| == |s.grants|
  {
    if step.TransitionWrite? {
      assert PcFits(s.PcOf(step.w), s.log.record);
    }
  }

  /** The record in the answer of a worker. */
  function AnswerOf(pc: Pc): Option<Record> {
    match pc
    case Answered(_, r) => Some(r)
    case Returned(r) => Some(r)
    case _ => None
  }

  /** The record that a retry claim or a transition returns is the one it wrote exactly when no transition got in
      between. */
  lemma ReReadIsOwnWriteExactlyWhen(s: State, w: int)
    requires Inv(s) && s.PcOf(w).ReReading?
    ensures var written := s.PcOf(w).written;
            && Enabled(s, ReRead(w)) && 1 <= written <= |s.log.events|
            && (AnswerOf(After(s, ReRead(w)).PcOf(w)) == Some(RecordOf(s.log.events[written - 1])) <==> |s.log.events| == written)
  {
    PcsFit(s);
    assert PcFits(s.PcOf(w), s.log.record);
    assert LinkAt(s.log.events, |s.log.events| - 1);
    assert LinkAt(s.log.events, s.PcOf(w).written - 1);
  }

  // ---------------------------------------------------------------- what the answers mean

  /** The record of an answer is what some event of the log left, and an answer that refuses to execute tells its
      status:
      SKIP_SUCCEEDED a succeeded operation, RECONCILE_REQUIRED one in doubt. */
  ghost predicate AnswerFits(pc: Pc, events: seq<Event>) {
    AnswerOf(pc).Some? ==>
      var r := AnswerOf(pc).value;
      && 1 <= r.version <= |events| && r == RecordOf(events[r.version - 1])
      && (pc.Answered? && pc.action.SkipSucceeded? ==> r.status.Succeeded?)
      && (pc.Answered? && pc.action.ReconcileRequired? ==> r.status.InProgress? || r.status.Unknown?)
  }

  ghost predicate AnswersFit(s: State) {
    forall w :: AnswerFits(s.PcOf(w), s.log.events)
  }

  lemma RecordIsLastEvent(log: Log)
    requires Agrees(log) && log.record.Some?
    ensures log.record.value.version == |log.events| >= 1 && log.record.value == RecordOf(log.events[|log.events| - 1])
  {
    assert LinkAt(log.events, |log.events| - 1);
  }

  lemma AnswerStays(pc: Pc, before: seq<Event>, events: seq<Event>)
    requires AnswerFits(pc, before) && |before| <= |events| && events[..|before|] == before
    ensures AnswerFits(pc, events)
  {
    if AnswerOf(pc).Some? {
      var i := AnswerOf(pc).value.version - 1;
      assert events[..|before|][i] == events[i];
    }
  }

  /** What a step newly answers is the record after the step. */
  lemma NewAnswer(s: State, step: Step, w: int)
    requires Enabled(s, step) && After(s, step).PcOf(w) != s.PcOf(w)
    ensures var s', pc := After(s, step), After(s, step).PcOf(w);
            && (AnswerOf(pc).Some? ==> s'.log.record == AnswerOf(pc))
            && (pc.Answered? && pc.action.SkipSucceeded? ==> pc.record.status.Succeeded?)
            && (pc.Answered? && pc.action.ReconcileRequired? ==> pc.record.status.InProgress? || pc.record.status.Unknown?)
  {
  }

  lemma LogOnlyGrows(s: State, step: Step)
    requires Enabled(s, step)
    ensures |s.log.events| <= |After(s, step).log.events| && After(s, step).log.events[..|s.log.events|] == s.log.events
  {
  }

  lemma StepKeepsAnswers(s: State, step: Step)
    requires Inv(s) && AnswersFit(s) && Enabled(s, step)
    ensures AnswersFit(After(s, step))
  {
    hide Agrees, PcFits, After, Enabled;
    var s' := After(s, step);
    StepKeepsInv(s, step);
    LogOnlyGrows(s, step);
    forall w ensures AnswerFits(s'.PcOf(w), s'.log.events) {
      assert AnswerFits(s.PcOf(w), s.log.events);
      if s'.PcOf(w) == s.PcOf(w) {
        AnswerStays(s.PcOf(w), s.log.events, s'.log.events);
      } else {
        NewAnswer(s, step, w);
        if s'.log.record.Some? {
          RecordIsLastEvent(s'.log);
        }
      }
    }
  }

  lemma {:induction false} EveryRunKeepsAnswers(steps: seq<Step>)
    requires RunFrom(INITIAL, steps).Some?
    ensures AnswersFit(RunFrom(INITIAL, steps).value)
  {
    hide Inv, Enabled, After, AnswerFits;
    if steps == [] {
      forall w ensures AnswerFits(INITIAL.PcOf(w), []) {
        IdleFits();
      }
    } else {
      EveryRunKeepsAnswers(steps[..|steps| - 1]);
      EveryRunKeepsInv(steps[..|steps| - 1]);
      StepKeepsAnswers(RunFrom(INITIAL, steps[..|steps| - 1]).value, steps[|steps| - 1]);
    }
  }

  lemma IdleFits()
    ensures AnswerFits(Idle, [])
  {
  }

  /** In every reachable state: who was told to skip was shown a SUCCEEDED record, and the log says so to this day;
      who was
      told to reconcile was shown a record in doubt. */
  lemma RefusalsTellTheStatus(steps: seq<Step>, w: int)
    requires RunFrom(INITIAL, steps).Some? && RunFrom(INITIAL, steps).value.PcOf(w).Answered?
    ensures var s := RunFrom(INITIAL, steps).value;
            var pc := s.PcOf(w);
            && (pc.action.SkipSucceeded? ==> pc.record.status.Succeeded? && s.log.record == Some(pc.record))
            && (pc.action.ReconcileRequired? ==> pc.record.status.InProgress? || pc.record.status.Unknown?)
            && 1 <= pc.record.version <= |s.log.events| && pc.record == RecordOf(s.log.events[pc.record.version - 1])
  {
    hide RunFrom, Inv, Agrees;
    EveryRunKeepsAnswers(steps);
    EveryRunKeepsInv(steps);
    var s := RunFrom(INITIAL, steps).value;
    assert AnswerFits(s.PcOf(w), s.log.events);
    if s.PcOf(w).action.SkipSucceeded? {
      SuccessIsLast(s, s.PcOf(w).record.version);
    }
  }

  /** Nothing follows the event that records the success. */
  lemma SuccessIsLast(s: State, version: nat)
    requires Inv(s) && 1 <= version <= |s.log.events| && s.log.events[version - 1].to.Succeeded?
    ensures version == |s.log.events| && s.log.record == Some(RecordOf(s.log.events[version - 1]))
  {
    assert version < |s.log.events| ==> LinkAt(s.log.events, version);
  }

  /** What a claim does at its read: it is refused exactly as the status of the record says, and goes on exactly
      when there
      is no record or the last attempt was not committed. */
  lemma ClaimReadAnswersByStatus(s: State, w: int, runId: int, attempt: int)
    requires attempt >= 1
    ensures var pc := After(s, ClaimRead(w, runId, attempt)).PcOf(w);
            && (pc.Claiming? <==> s.log.record.None? || s.log.record.value.status.NotCommitted?)
            && (pc.Answered? && pc.action.SkipSucceeded? <==> s.log.record.Some? && s.log.record.value.status.Succeeded?)
            && (pc.Answered? && pc.action.ReconcileRequired? <==>
                  s.log.record.Some? && (s.log.record.value.status.InProgress? || s.log.record.value.status.Unknown?))
            && (pc.Answered? ==> s.log.record == Some(pc.record))
  {
  }

  /** What a transition does at its read: it goes on exactly when the record has the expected version and may move
      to the
      status. */
  lemma TransitionReadExactlyWhen(
      s: State, w: int, expectedVersion: int, to: Status, runId: int, attempt: int, note: Note)
    requires expectedVersion >= 1 && attempt >= 1
    ensures var pc := After(s, TransitionRead(w, expectedVersion, to, runId, attempt, note)).PcOf(w);
            && (pc.Moving? <==>
                  && s.log.record.Some? && s.log.record.value.version == expectedVersion
                  && if s.log.record.value.status.NotCommitted? then to.InProgress?
                     else !s.log.record.value.status.Succeeded? && !to.InProgress?)
            && (pc.Moving? ==> pc == Moving(s.log.record.value, to, runId, attempt, note))
  {
  }

  // ---------------------------------------------------------------- at most one physical commit

  /** NOT_COMMITTED is asked for only when, at the read of the call, no granted execution has committed or
      still can. */
  predicate HonestStep(s: State, step: Step) {
    step.TransitionRead? && step.to.NotCommitted? && TransitionRefusal(s.log.record, step.expectedVersion, step.to).None?
    ==> forall i | 0 <= i < |s.grants| :: s.grants[i].Void?
  }

  predicate HonestRun(steps: seq<Step>) {
    steps == []
    || (&& HonestRun(steps[..|steps| - 1])
        && var before := RunFrom(INITIAL, steps[..|steps| - 1]);
           before.Some? ==> HonestStep(before.value, steps[|steps| - 1]))
  }

  /** A call that will record NOT_COMMITTED if it wins. */
  predicate WillDeny(pc: Pc, record: Option<Record>) {
    pc.Moving? && pc.to.NotCommitted? && record.Some? && pc.base.version == record.value.version
  }

  predicate Denied(record: Option<Record>) {
    record.None? || record.value.status.NotCommitted?
  }

  ghost predicate Safe(s: State) {
    && Possible(s.grants) <= 1
    && (Denied(s.log.record) ==> Possible(s.grants) == 0)
    && forall w :: WillDeny(s.PcOf(w), s.log.record) ==> Possible(s.grants) == 0
  }

  lemma GrantIsPossible(grants: seq<Grant>)
    ensures Possible(grants + [Pending]) == Possible(grants) + 1
  {
    assert (grants + [Pending])[..|grants|] == grants;
  }

  /** After a write nobody is about to deny the new version. */
  lemma NobodyDeniesNext(s: State, w: int, log: Log, grants: seq<Grant>, v: int)
    requires PcFits(s.PcOf(v), s.log.record)
    requires log.record.Some? && log.record.value.version > if s.log.record.Some? then s.log.record.value.version else 0
    ensures v == w || !WillDeny(s.At(w, Idle).(log := log, grants := grants).PcOf(v), log.record)
  {
  }

  lemma SafeClaimWrite(s: State, w: int)
    requires Inv(s) && Safe(s) && Enabled(s, ClaimWrite(w))
    ensures Safe(After(s, ClaimWrite(w)))
  {
    hide Agrees, Possible;
    PcsFit(s);
    var s' := After(s, ClaimWrite(w));
    if ClaimWins(s.log, s.PcOf(w).seen) {
      GrantIsPossible(s.grants);
      forall v ensures !WillDeny(s'.PcOf(v), s'.log.record) {
        NobodyDeniesNext(s, w, s'.log, s'.grants, v);
        assert v != w ==> s'.PcOf(v) == s.PcOf(v) == s.At(w, Idle).(log := s'.log, grants := s'.grants).PcOf(v);
      }
    } else {
      IdleIsSafe(s, w);
    }
  }

  lemma IdleIsSafe(s: State, w: int)
    requires Safe(s)
    ensures Safe(s.At(w, Idle))
  {
    hide Possible, Denied;
    forall v | WillDeny(s.At(w, Idle).PcOf(v), s.log.record) ensures Possible(s.grants) == 0 {
      assert WillDeny(s.PcOf(v), s.log.record);
    }
  }

  lemma SafeTransitionWrite(s: State, w: int)
    requires Inv(s) && Safe(s) && Enabled(s, TransitionWrite(w))
    ensures Safe(After(s, TransitionWrite(w)))
  {
    hide Agrees, Possible;
    PcsFit(s);
    var s' := After(s, TransitionWrite(w));
    var pc := s.PcOf(w);
    if TransitionWins(s.log, pc.base.version) {
      assert pc.to.NotCommitted? ==> WillDeny(pc, s.log.record);
      assert PcFits(pc, s.log.record);
      forall v ensures !WillDeny(s'.PcOf(v), s'.log.record) {
        NobodyDeniesNext(s, w, s'.log, s'.grants, v);
        assert v != w ==> s'.PcOf(v) == s.PcOf(v) == s.At(w, Idle).(log := s'.log, grants := s'.grants).PcOf(v);
      }
    } else {
      IdleIsSafe(s, w);
    }
  }

  /** Calls that only read. */
  lemma SafeRead(s: State, w: int, pc: Pc)
    requires Safe(s) && (WillDeny(pc, s.log.record) ==> Possible(s.grants) == 0)
    ensures Safe(s.At(w, pc))
  {
    hide Possible, Denied;
    forall v | WillDeny(s.At(w, pc).PcOf(v), s.log.record) ensures Possible(s.grants) == 0 {
      assert v != w ==> WillDeny(s.PcOf(v), s.log.record);
    }
  }

  lemma SafeSettle(s: State, g: nat, settled: Grant)
    requires Safe(s) && g < |s.grants| && s.grants[g].Pending?
    ensures Safe(s.(grants := s.grants[g := settled]))
  {
    hide Possible, Denied;
    SettlePossible(s.grants, g, settled);
    var s' := s.(grants := s.grants[g := settled]);
    forall v | WillDeny(s'.PcOf(v), s'.log.record) ensures Possible(s'.grants) == 0 {
      assert s'.PcOf(v) == s.PcOf(v);
    }
  }

  lemma HonestStepKeepsSafe(s: State, step: Step)
    requires Inv(s) && Safe(s) && Enabled(s, step) && HonestStep(s, step)
    ensures Safe(After(s, step))
  {
    hide Inv, Safe, Possible;
    match step {
      case ClaimWrite(w) => SafeClaimWrite(s, w);
      case TransitionWrite(w) => SafeTransitionWrite(s, w);
      case PhysicalCommit(g) => SafeSettle(s, g, Committed);
      case GiveUp(g) => SafeSettle(s, g, Void);
      case TransitionRead(w, expectedVersion, to, runId, attempt, note) =>
        NonePossible(s.grants);
        SafeRead(s, w, After(s, step).PcOf(w));
      case _ => SafeRead(s, step.w, After(s, step).PcOf(step.w));
    }
  }

  lemma {:induction false} HonestRunIsSafe(steps: seq<Step>)
    requires HonestRun(steps) && RunFrom(INITIAL, steps).Some?
    ensures Safe(RunFrom(INITIAL, steps).value)
  {
    hide Safe, Inv, Enabled, After, HonestStep;
    if steps == [] {
      InitialIsSafe();
    } else {
      HonestRunIsSafe(steps[..|steps| - 1]);
      EveryRunKeepsInv(steps[..|steps| - 1]);
      HonestStepKeepsSafe(RunFrom(INITIAL, steps[..|steps| - 1]).value, steps[|steps| - 1]);
    }
  }

  lemma InitialIsSafe()
    ensures Inv(INITIAL) && Safe(INITIAL) && RunFrom(INITIAL, []) == Some(INITIAL)
  {
  }

  /** Over every interleaving with crashes the mutation of one operation commits at most once. */
  lemma AtMostOnePhysicalCommit(steps: seq<Step>)
    requires HonestRun(steps) && RunFrom(INITIAL, steps).Some?
    ensures Commits(RunFrom(INITIAL, steps).value.grants) <= 1
  {
    HonestRunIsSafe(steps);
    CommitsArePossible(RunFrom(INITIAL, steps).value.grants);
  }

  // ---------------------------------------------------------------- witnesses

  lemma OneMore(s: State, steps: seq<Step>, step: Step)
    requires RunFrom(s, steps).Some? && Enabled(RunFrom(s, steps).value, step)
    ensures RunFrom(s, steps + [step]) == Some(After(RunFrom(s, steps).value, step))
  {
    assert (steps + [step])[..|steps|] == steps;
  }

  /** The first claim runs, is denied while it can still commit, and a second claim runs as well. */
  function DeniedTooEarly(): seq<Step> {
    [ClaimRead(1, 10, 1), ClaimWrite(1), TransitionRead(2, 1, NotCommitted, 20, 1, NO_NOTE), TransitionWrite(2),
     ClaimRead(2, 20, 2), ClaimWrite(2)]
  }

  lemma DeniedTooEarlyGrantsTwice()
    ensures var s := RunFrom(INITIAL, DeniedTooEarly());
            s.Some? && s.value.grants == [Pending, Pending]
            && s.value.PcOf(2) == ReReading(3, true) && s.value.log.record == Some(Record(InProgress, 20, 2, 3, NO_NOTE))
  {
    hide RunFrom;
    var steps := DeniedTooEarly();
    var s := INITIAL;
    InitialIsSafe();
    assert steps[..0] == [];
    s := Extend(steps, 0, s);
    s := Extend(steps, 1, s);
    s := Extend(steps, 2, s);
    s := Extend(steps, 3, s);
    s := Extend(steps, 4, s);
    s := Extend(steps, 5, s);
    assert steps[..6] == steps;
  }

  lemma Extend(steps: seq<Step>, i: nat, s: State) returns (next: State)
    requires i < |steps| && RunFrom(INITIAL, steps[..i]) == Some(s) && Enabled(s, steps[i])
    ensures next == After(s, steps[i]) && RunFrom(INITIAL, steps[..i + 1]) == Some(next)
  {
    assert steps[..i] + [steps[i]] == steps[..i + 1];
    OneMore(INITIAL, steps[..i], steps[i]);
    next := After(s, steps[i]);
  }

  lemma {:induction false} TwoCommitted(grants: seq<Grant>, i: nat, j: nat)
    requires i < j < |grants| && grants[i].Committed? && grants[j].Committed?
    ensures Commits(grants) >= 2
  {
    var prefix := grants[..|grants| - 1];
    if j < |grants| - 1 {
      TwoCommitted(prefix, i, j);
    } else {
      OneCommitted(prefix, i);
    }
  }

  lemma {:induction false} OneCommitted(grants: seq<Grant>, i: nat)
    requires i < |grants| && grants[i].Committed?
    ensures Commits(grants) >= 1
  {
    if i < |grants| - 1 {
      OneCommitted(grants[..|grants| - 1], i);
    }
  }

  /** The status lets NOT_COMMITTED be recorded. */
  predicate MayDeny(s: State) {
    s.log.record.Some? && Allowed(s.log.record.value.status, NotCommitted)
  }

  function Denial(s: State, w: int, runId: int): Step
    requires s.log.record.Some?
  {
    TransitionRead(w, s.log.record.value.version, NotCommitted, runId, 1, NO_NOTE)
  }

  /** After the denial was read: it is written, the operation is claimed again, and both executions commit. */
  function RetryAndCommit(s: State, g: nat, w: int, runId: int): seq<Step>
    requires g < |s.grants|
  {
    [TransitionWrite(w), ClaimRead(w, runId, 1), ClaimWrite(w)]
    + (if s.grants[g].Pending? then [PhysicalCommit(g)] else [])
    + [PhysicalCommit(|s.grants|)]
  }

  /** The state in which the second execution has been granted. */
  lemma DenialGrantsAgain(s: State, w: int, runId: int)
    requires Inv(s) && MayDeny(s)
    ensures Enabled(s, Denial(s, w, runId))
    ensures var t := RunFrom(After(s, Denial(s, w, runId)), [TransitionWrite(w), ClaimRead(w, runId, 1), ClaimWrite(w)]);
            t.Some? && t.value.grants == s.grants + [Pending]
  {
    hide RunFrom, Inv;
    VersionIsLength(s);
    var d := After(s, Denial(s, w, runId));
    RunNothing(d);
    var steps := [TransitionWrite(w), ClaimRead(w, runId, 1), ClaimWrite(w)];
    assert steps == [] + [steps[0]] + [steps[1]] + [steps[2]];
    OneMore(d, [], steps[0]);
    OneMore(d, [] + [steps[0]], steps[1]);
    OneMore(d, [] + [steps[0]] + [steps[1]], steps[2]);
  }

  lemma RunNothing(s: State)
    ensures RunFrom(s, []) == Some(s)
  {
  }

  lemma RetryCommitsTwice(s: State, g: nat, w: int, runId: int)
    requires Inv(s) && MayDeny(s) && g < |s.grants| && !s.grants[g].Void?
    ensures Enabled(s, Denial(s, w, runId))
    ensures var t := RunFrom(After(s, Denial(s, w, runId)), RetryAndCommit(s, g, w, runId));
            t.Some? && Commits(t.value.grants) >= 2
  {
    hide RunFrom, Inv, Commits;
    DenialGrantsAgain(s, w, runId);
    var d := After(s, Denial(s, w, runId));
    var a := [TransitionWrite(w), ClaimRead(w, runId, 1), ClaimWrite(w)];
    var again := PhysicalCommit(|s.grants|);
    if s.grants[g].Pending? {
      OneMore(d, a, PhysicalCommit(g));
      OneMore(d, a + [PhysicalCommit(g)], again);
      assert RetryAndCommit(s, g, w, runId) == a + [PhysicalCommit(g)] + [again];
    } else {
      OneMore(d, a, again);
      assert RetryAndCommit(s, g, w, runId) == a + [again];
    }
    TwoCommitted(RunFrom(d, RetryAndCommit(s, g, w, runId)).value.grants, g, |s.grants|);
  }

  /** The assumption is needed in every reachable state: whenever the status lets the operation be denied while some
      execution has committed or still can, one denial is enough for a second commit. */
  lemma EarlyDenialCommitsTwice(steps: seq<Step>, g: nat, w: int, runId: int)
    requires RunFrom(INITIAL, steps).Some?
    requires var s := RunFrom(INITIAL, steps).value; MayDeny(s) && g < |s.grants| && !s.grants[g].Void?
    ensures var s := RunFrom(INITIAL, steps).value;
            && Enabled(s, Denial(s, w, runId))
            && RunFrom(After(s, Denial(s, w, runId)), RetryAndCommit(s, g, w, runId)).Some?
            && Commits(RunFrom(After(s, Denial(s, w, runId)), RetryAndCommit(s, g, w, runId)).value.grants) >= 2
  {
    hide RunFrom, Inv, Commits, Enabled, After, RetryAndCommit;
    EveryRunKeepsInv(steps);
    RetryCommitsTwice(RunFrom(INITIAL, steps).value, g, w, runId);
  }

  /** A continuation without another early denial. */
  predicate HonestFrom(s: State, steps: seq<Step>) {
    steps == []
    || (&& HonestFrom(s, steps[..|steps| - 1])
        && var before := RunFrom(s, steps[..|steps| - 1]);
           before.Some? ==> HonestStep(before.value, steps[|steps| - 1]))
  }

  lemma {:induction false} HonestFromIsSafe(s: State, steps: seq<Step>)
    requires Inv(s) && Safe(s) && HonestFrom(s, steps) && RunFrom(s, steps).Some?
    ensures var t := RunFrom(s, steps).value; Inv(t) && Safe(t)
    decreases |steps|
  {
    hide Safe, Inv, Enabled, After, HonestStep;
    if steps != [] {
      HonestFromIsSafe(s, steps[..|steps| - 1]);
      var t := RunFrom(s, steps[..|steps| - 1]).value;
      StepKeepsInv(t, steps[|steps| - 1]);
      HonestStepKeepsSafe(t, steps[|steps| - 1]);
    }
  }

  /** Steps other than a new NOT_COMMITTED are honest anyway. */
  lemma {:induction false} NoDenialIsHonest(s: State, steps: seq<Step>)
    requires forall step | step in steps :: !step.TransitionRead?
    ensures HonestFrom(s, steps)
    decreases |steps|
  {
    hide RunFrom;
    if steps != [] {
      assert steps[|steps| - 1] in steps;
      NoDenialIsHonest(s, steps[..|steps| - 1]);
    }
  }

  /** Whatever honest workers do after a denial, the mutation commits at most once. */
  ghost predicate HarmlessDenial(s: State, w: int, runId: int)
    requires s.log.record.Some? && Enabled(s, Denial(s, w, runId))
  {
    var d := After(s, Denial(s, w, runId));
    forall rest :: HonestFrom(d, rest) && RunFrom(d, rest).Some? ==> Commits(RunFrom(d, rest).value.grants) <= 1
  }

  /** In every state that honest workers reach, a denial is harmless exactly when every granted execution is void. */
  lemma DenialIsHarmlessExactlyWhen(steps: seq<Step>, w: int, runId: int)
    requires HonestRun(steps) && RunFrom(INITIAL, steps).Some? && MayDeny(RunFrom(INITIAL, steps).value)
    ensures var s := RunFrom(INITIAL, steps).value;
            && Enabled(s, Denial(s, w, runId))
            && (HarmlessDenial(s, w, runId) <==> forall i | 0 <= i < |s.grants| :: s.grants[i].Void?)
  {
    hide RunFrom, Inv, Safe, Commits, HonestFrom, HonestRun;
    EveryRunKeepsInv(steps);
    HonestRunIsSafe(steps);
    var s := RunFrom(INITIAL, steps).value;
    VersionIsLength(s);
    var step := Denial(s, w, runId);
    var d := After(s, step);
    if forall i | 0 <= i < |s.grants| :: s.grants[i].Void? {
      StepKeepsInv(s, step);
      HonestStepKeepsSafe(s, step);
      forall rest | HonestFrom(d, rest) && RunFrom(d, rest).Some? ensures Commits(RunFrom(d, rest).value.grants) <= 1 {
        HonestFromIsSafe(d, rest);
        SafeCommitsOnce(RunFrom(d, rest).value);
      }
    } else {
      var g :| 0 <= g < |s.grants| && !s.grants[g].Void?;
      RetryCommitsTwice(s, g, w, runId);
      var rest := RetryAndCommit(s, g, w, runId);
      NoDenialIsHonest(d, rest);
      assert HonestFrom(d, rest) && RunFrom(d, rest).Some?;
    }
  }

  lemma SafeCommitsOnce(s: State)
    requires Safe(s)
    ensures Commits(s.grants) <= 1
  {
    CommitsArePossible(s.grants);
  }

  /** EXECUTE may come back with a record that already says SUCCEEDED: another worker resolved the operation
      between the commit of the retry claim and its second read. */
  lemma ExecuteMayCarryALaterRecord()
    ensures exists steps: seq<Step>, r: Record ::
              && RunFrom(INITIAL, steps).Some?
              && RunFrom(INITIAL, steps).value.PcOf(2) == Answered(Execute, r)
              && r.status.Succeeded?
  {
    hide RunFrom, DeniedTooEarly;
    DeniedTooEarlyGrantsTwice();
    var a := DeniedTooEarly();
    var b := a + [TransitionRead(3, 3, Succeeded, 30, 1, NO_NOTE)];
    OneMore(INITIAL, a, TransitionRead(3, 3, Succeeded, 30, 1, NO_NOTE));
    var c := b + [TransitionWrite(3)];
    OneMore(INITIAL, b, TransitionWrite(3));
    var d := c + [ReRead(2)];
    OneMore(INITIAL, c, ReRead(2));
    assert RunFrom(INITIAL, d).value.PcOf(2) == Answered(Execute, Record(Succeeded, 30, 1, 4, NO_NOTE));
  }
}
