/** CDC-to-SCD2 history apply (apply/cdc_scd2.py): source position decides the order of events,
    event time decides validity, and closed versions keep the position that closed them. */
module CdcScd2 {
  import opened Common
  import opened SourceOrder
  import opened CdcCapture
  import opened CdcCurrentState

  /** One history row: its data columns and the framework columns. */
  datatype Version = Version(
    data: Columns,
    validFrom: Option<int>,
    validTo: Option<int>,
    isCurrent: bool,
    hash: Option<Columns>,
    runId: Option<int>,
    partition: Option<string>,
    position: Option<Position>,
    closedPartition: Option<string>,
    closedPosition: Option<Position>)

  datatype Scd2Error =
    | InvalidConfiguration
    | TwoCurrentRows
    | NullBusinessKey
    | KeyMissing
    | EventTimeMissing
    | OrderUnproven(reason: ApplyError)
    | BadClosedEvidence
    | HistorySpansPartitions
    | ClosedPositionsNotComparable
    | ValidFromMissing
    | LateArriving
    | Scd2Conflict
    | ClosedValidToMissing

  datatype Config = Config(businessKey: seq<string>, tracked: seq<string>, lower: Option<Checkpoint>, runId: Option<int>)

  // ---------------------------------------------------------------- what one event decides

  /** What an event does to the versions of its key. */
  datatype Effect =
    | Keep(outcome: Outcome)
    | Refresh(version: Version)
    | Close(closed: Version)
    | CloseAndOpen(closed: Version, next: Version)
    | Open(next: Version)

  /** _close_current */
  function Closed(current: Version, e: Event): Result<Version, Scd2Error>
    requires e.eventTime.Some?
  {
    if current.validFrom.None? then Err(ValidFromMissing)
    else if e.eventTime.value < current.validFrom.value then Err(LateArriving)
    else Ok(current.(
      validTo := e.eventTime, isCurrent := false,
      closedPartition := Some(e.partition), closedPosition := Some(e.position)))
  }

  /** The after image with the business key of the event written over it. */
  function Incoming(e: Event, config: Config): Columns
    requires !e.change.Delete?
  {
    e.change.after + Restrict(e.key, config.businessKey)
  }

  function Opened(e: Event, config: Config): Version
    requires !e.change.Delete?
  {
    Version(
      Incoming(e, config), e.eventTime, None, true,
      Some(Tracked(Incoming(e, config), config.tracked)), config.runId,
      Some(e.partition), Some(e.position), None, None)
  }

  function CurrentHash(current: Version, config: Config): Columns {
    if current.hash.Some? then current.hash.value else Tracked(current.data, config.tracked)
  }

  /** The branch for a key that has a current version. */
  function DecideOnCurrent(current: Version, e: Event, config: Config): Result<Effect, Scd2Error>
    requires e.eventTime.Some?
  {
    var order := OrderAgainst(current.partition, current.position, e, config.lower);
    if order.Err? then Err(OrderUnproven(order.error))
    else if order.value.Stale? then Ok(Keep(StaleIgnored))
    else if e.change.Delete? then
      if order.value.Equal? then Err(Scd2Conflict)
      else
        var closed := Closed(current, e);
        if closed.Err? then Err(closed.error) else Ok(Close(closed.value))
    else
      var same := CurrentHash(current, config) == Tracked(Incoming(e, config), config.tracked);
      if order.value.Equal? then
        if same then Ok(Keep(NoChange)) else Err(Scd2Conflict)
      else if same then Ok(Refresh(current.(partition := Some(e.partition), position := Some(e.position))))
      else
        var closed := Closed(current, e);
        if closed.Err? then Err(closed.error) else Ok(CloseAndOpen(closed.value, Opened(e, config)))
  }

  /** The branch for a key without a current version. `latest` is the version closed last, if any
      version carries closing evidence. */
  function DecideOnAbsent(
      hasHistory: bool, latest: Option<Version>, e: Event, config: Config): Result<Effect, Scd2Error>
    requires e.eventTime.Some?
  {
    var order :=
      if !hasHistory then Ok(Newer)
      else if latest.None? then OrderAgainst(None, None, e, config.lower)
      else OrderAgainst(latest.value.closedPartition, latest.value.closedPosition, e, config.lower);
    if order.Err? then Err(OrderUnproven(order.error))
    else if !order.value.Newer? then Ok(Keep(StaleIgnored))
    else if e.change.Delete? then Ok(Keep(MissingDelete))
    else if latest.Some? && latest.value.validTo.None? then Err(ClosedValidToMissing)
    else if latest.Some? && e.eventTime.value < latest.value.validTo.value then Err(LateArriving)
    else Ok(Open(Opened(e, config)))
  }

  function OutcomeOf(effect: Effect): Outcome {
    match effect
    case Keep(outcome) => outcome
    case Refresh(_) => NoChange
    case Close(_) => Deleted
    case CloseAndOpen(_, _) => Updated
    case Open(_) => Inserted
  }

  // ---------------------------------------------------------------- the row list

  predicate HasKey(v: Version, columns: seq<string>, k: Key) {
    KeyOf(v.data, columns) == Some(k)
  }

  /** _history_for_key */
  function History(rows: seq<Version>, columns: seq<string>, k: Key): seq<Version> {
    if rows == [] then []
    else
      var rest := History(rows[..|rows| - 1], columns, k);
      if HasKey(rows[|rows| - 1], columns, k) then rest + [rows[|rows| - 1]] else rest
  }

  /** _current_index: the first current row of the key. */
  function CurrentIndex(rows: seq<Version>, columns: seq<string>, k: Key): (r: Option<nat>)
    ensures r.Some? ==> r.value < |rows| && rows[r.value].isCurrent && HasKey(rows[r.value], columns, k)
    ensures r.None? ==> forall v | v in rows :: !(v.isCurrent && HasKey(v, columns, k))
  {
    if rows == [] then None
    else
      var r := CurrentIndex(rows[..|rows| - 1], columns, k);
      if r.Some? then r
      else if rows[|rows| - 1].isCurrent && HasKey(rows[|rows| - 1], columns, k) then Some(|rows| - 1)
      else None
  }

  predicate NoEvidence(v: Version) {
    v.closedPartition.None? && v.closedPosition.None?
  }

  predicate Evidence(v: Version) {
    && v.closedPartition.Some? && v.closedPartition.value != ""
    && v.closedPosition.Some? && v.closedPosition.value != []
  }

  /** One step of the scan in _latest_closed_row. */
  function LaterClosed(latest: Option<Version>, v: Version): Result<Option<Version>, Scd2Error>
    requires latest.Some? ==> Evidence(latest.value)
  {
    if NoEvidence(v) then Ok(latest)
    else if !Evidence(v) then Err(BadClosedEvidence)
    else if latest.None? then Ok(Some(v))
    else if v.closedPartition != latest.value.closedPartition then Err(HistorySpansPartitions)
    else
      match CompareSourceOrder(v.closedPosition.value, latest.value.closedPosition.value)
      case None => Err(ClosedPositionsNotComparable)
      case Some(relation) => Ok(if relation.Newer? then Some(v) else latest)
  }

  /** _latest_closed_row */
  function LatestClosed(history: seq<Version>): (r: Result<Option<Version>, Scd2Error>)
    ensures r.Ok? && r.value.Some? ==> r.value.value in history && Evidence(r.value.value)
  {
    if history == [] then Ok(None)
    else
      var latest := LatestClosed(history[..|history| - 1]);
      if latest.Err? then latest else LaterClosed(latest.value, history[|history| - 1])
  }

  /** The effect replaces the current row of the key. */
  predicate Replaces(effect: Effect) {
    effect.Refresh? || effect.Close? || effect.CloseAndOpen?
  }

  function DecideOnRows(rows: seq<Version>, k: Key, e: Event, config: Config): (r: Result<Effect, Scd2Error>)
    requires e.eventTime.Some?
    ensures r.Ok? && Replaces(r.value) ==> CurrentIndex(rows, config.businessKey, k).Some?
  {
    var index := CurrentIndex(rows, config.businessKey, k);
    if index.Some? then DecideOnCurrent(rows[index.value], e, config)
    else
      var history := History(rows, config.businessKey, k);
      var latest := LatestClosed(history);
      if latest.Err? then Err(latest.error) else DecideOnAbsent(history != [], latest.value, e, config)
  }

  /** Carries out an effect on the list: rows are replaced in place and new rows are appended. */
  function Perform(rows: seq<Version>, index: Option<nat>, effect: Effect): seq<Version>
    requires index.Some? ==> index.value < |rows|
    requires Replaces(effect) ==> index.Some?
  {
    match effect
    case Keep(_) => rows
    case Refresh(version) => rows[index.value := version]
    case Close(closed) => rows[index.value := closed]
    case CloseAndOpen(closed, next) => rows[index.value := closed] + [next]
    case Open(next) => rows + [next]
  }

  datatype Rows = Rows(rows: seq<Version>, counters: Counters)

  function ApplyToRows(s: Rows, e: Event, config: Config): Result<Rows, Scd2Error> {
    match EventKey(e, config.businessKey)
    case None => Err(KeyMissing)
    case Some(k) =>
      if e.eventTime.None? then Err(EventTimeMissing)
      else
        var effect := DecideOnRows(s.rows, k, e, config);
        if effect.Err? then Err(effect.error)
        else Ok(Rows(
          Perform(s.rows, CurrentIndex(s.rows, config.businessKey, k), effect.value),
          s.counters.Tally(OutcomeOf(effect.value))))
  }

  function FoldRows(rows: seq<Version>, es: seq<Event>, config: Config): Result<Rows, Scd2Error> {
    if es == [] then Ok(Rows(rows, NO_EVENTS))
    else
      var s := FoldRows(rows, es[..|es| - 1], config);
      if s.Err? then s else ApplyToRows(s.value, es[|es| - 1], config)
  }

  /** assert_one_current_row */
  predicate OneCurrentPerKey(rows: seq<Version>, columns: seq<string>) {
    forall i, j | 0 <= i < j < |rows| && rows[i].isCurrent && rows[j].isCurrent ::
      KeyOf(rows[i].data, columns) != KeyOf(rows[j].data, columns)
  }

  /** No key column of any row is null. The source meets a null key at the latest when it sorts its result. */
  predicate Keyed(rows: seq<Version>, columns: seq<string>) {
    forall v | v in rows :: KeyOf(v.data, columns).Some?
  }

  /** Events applied to the stored history, up to the order in which the rows are returned. */
  function ApplyHistory(existing: seq<Version>, es: seq<Event>, config: Config): Result<Rows, Scd2Error> {
    if !UniqueColumns(config.businessKey) || !UniqueColumns(config.tracked) then Err(InvalidConfiguration)
    else if !Keyed(existing, config.businessKey) then Err(NullBusinessKey)
    else if !OneCurrentPerKey(existing, config.businessKey) then Err(TwoCurrentRows)
    else
      var r := FoldRows(existing, es, config);
      if r.Ok? && !OneCurrentPerKey(r.value.rows, config.businessKey) then Err(TwoCurrentRows) else r
  }

  // ---------------------------------------------------------------- the engine

  method FindCurrent(rows: seq<Version>, columns: seq<string>, k: Key) returns (index: Option<nat>)
    ensures index == CurrentIndex(rows, columns, k)
  {
    hide KeyOf;
    assert rows[..|rows|] == rows;
    for i := 0 to |rows|
      invariant CurrentIndex(rows[..i], columns, k) == None
    {
      assert rows[..i + 1][..i] == rows[..i];
      if rows[i].isCurrent && KeyOf(rows[i].data, columns) == Some(k) {
        CurrentIndexStays(rows, i + 1, columns, k);
        return Some(i);
      }
    }
    index := None;
  }

  lemma {:induction false} CurrentIndexStays(rows: seq<Version>, n: nat, columns: seq<string>, k: Key)
    requires n <= |rows| && CurrentIndex(rows[..n], columns, k).Some?
    ensures CurrentIndex(rows, columns, k) == CurrentIndex(rows[..n], columns, k)
    decreases |rows|
  {
    hide HasKey;
    if n == |rows| {
      assert rows[..n] == rows;
    } else {
      assert rows[..|rows| - 1][..n] == rows[..n];
      CurrentIndexStays(rows[..|rows| - 1], n, columns, k);
    }
  }

  method HistoryForKey(rows: seq<Version>, columns: seq<string>, k: Key) returns (history: seq<Version>)
    ensures history == History(rows, columns, k)
  {
    hide KeyOf;
    history := [];
    assert rows[..|rows|] == rows;
    for i := 0 to |rows|
      invariant history == History(rows[..i], columns, k)
    {
      assert rows[..i + 1][..i] == rows[..i];
      if KeyOf(rows[i].data, columns) == Some(k) {
        history := history + [rows[i]];
      }
    }
  }

  method LatestClosedRow(history: seq<Version>) returns (r: Result<Option<Version>, Scd2Error>)
    ensures r == LatestClosed(history)
  {
    var latest: Option<Version> := None;
    assert history[..|history|] == history;
    for i := 0 to |history|
      invariant LatestClosed(history[..i]) == Ok(latest)
    {
      assert history[..i + 1][..i] == history[..i];
      var row := history[i];
      if row.closedPartition.None? && row.closedPosition.None? {
        continue;
      }
      if row.closedPartition.None? || row.closedPartition.value == "" || row.closedPosition.None? || row.closedPosition.value == [] {
        LatestClosedFailsLater(history, i + 1);
        return Err(BadClosedEvidence);
      }
      if latest.None? {
        latest := Some(row);
        continue;
      }
      if row.closedPartition != latest.value.closedPartition {
        LatestClosedFailsLater(history, i + 1);
        return Err(HistorySpansPartitions);
      }
      var relation := CompareSourceOrder(row.closedPosition.value, latest.value.closedPosition.value);
      if relation.None? {
        LatestClosedFailsLater(history, i + 1);
        return Err(ClosedPositionsNotComparable);
      }
      if relation.value.Newer? {
        latest := Some(row);
      }
    }
    r := Ok(latest);
  }

  lemma {:induction false} LatestClosedFailsLater(history: seq<Version>, n: nat)
    requires n <= |history| && LatestClosed(history[..n]).Err?
    ensures LatestClosed(history) == LatestClosed(history[..n])
    decreases |history|
  {
    hide LaterClosed;
    if n == |history| {
      assert history[..n] == history;
    } else {
      assert history[..|history| - 1][..n] == history[..n];
      LatestClosedFailsLater(history[..|history| - 1], n);
    }
  }

  /** The body of the event loop for a key with a current row. */
  method ProcessCurrent(rows: seq<Version>, index: nat, counters: Counters, event: Event, config: Config)
    returns (r: Result<Rows, Scd2Error>)
    requires index < |rows| && event.eventTime.Some?
    ensures var effect := DecideOnCurrent(rows[index], event, config);
            r == if effect.Err? then Err(effect.error)
                 else Ok(Rows(Perform(rows, Some(index), effect.value), counters.Tally(OutcomeOf(effect.value))))
  {
    var current := rows[index];
    var order := OrderAgainst(current.partition, current.position, event, config.lower);
    if order.Err? {
      return Err(OrderUnproven(order.error));
    }
    if order.value.Stale? {
      return Ok(Rows(rows, counters.(stale := counters.stale + 1)));
    }
    if event.change.Delete? {
      if order.value.Equal? {
        return Err(Scd2Conflict);
      }
      if current.validFrom.None? {
        return Err(ValidFromMissing);
      }
      if event.eventTime.value < current.validFrom.value {
        return Err(LateArriving);
      }
      current := current.(validTo := event.eventTime, isCurrent := false);
      current := current.(closedPartition := Some(event.partition), closedPosition := Some(event.position));
      return Ok(Rows(rows[index := current], counters.(deleted := counters.deleted + 1)));
    }
    var incoming := event.change.after + Restrict(event.key, config.businessKey);
    var newHash := Tracked(incoming, config.tracked);
    var currentHash := if current.hash.Some? then current.hash.value else Tracked(current.data, config.tracked);
    if order.value.Equal? {
      if currentHash != newHash {
        return Err(Scd2Conflict);
      }
      return Ok(Rows(rows, counters.(noChange := counters.noChange + 1)));
    }
    if currentHash == newHash {
      current := current.(partition := Some(event.partition), position := Some(event.position));
      return Ok(Rows(rows[index := current], counters.(noChange := counters.noChange + 1)));
    }
    if current.validFrom.None? {
      return Err(ValidFromMissing);
    }
    if event.eventTime.value < current.validFrom.value {
      return Err(LateArriving);
    }
    current := current.(validTo := event.eventTime, isCurrent := false);
    current := current.(closedPartition := Some(event.partition), closedPosition := Some(event.position));
    var newRow := Version(incoming, event.eventTime, None, true, Some(newHash), config.runId,
                          Some(event.partition), Some(event.position), None, None);
    return Ok(Rows(rows[index := current] + [newRow], counters.(updated := counters.updated + 1)));
  }

  /** The body of the event loop. */
  method ProcessScd2Event(rows: seq<Version>, counters: Counters, event: Event, config: Config)
    returns (r: Result<Rows, Scd2Error>)
    ensures r == ApplyToRows(Rows(rows, counters), event, config)
  {
    hide OrderAgainst;
    var eventKey := EventKey(event, config.businessKey);
    if eventKey.None? {
      return Err(KeyMissing);
    }
    var key := eventKey.value;
    if event.eventTime.None? {
      return Err(EventTimeMissing);
    }
    var index := FindCurrent(rows, config.businessKey, key);
    if index.Some? {
      r := ProcessCurrent(rows, index.value, counters, event, config);
      return;
    }
    var history := HistoryForKey(rows, config.businessKey, key);
    var closed: Option<Version> := None;
    if history != [] {
      var latest := LatestClosedRow(history);
      if latest.Err? {
        return Err(latest.error);
      }
      closed := latest.value;
      var order := if closed.None? then OrderAgainst(None, None, event, config.lower)
                   else OrderAgainst(closed.value.closedPartition, closed.value.closedPosition, event, config.lower);
      if order.Err? {
        return Err(OrderUnproven(order.error));
      }
      if !order.value.Newer? {
        return Ok(Rows(rows, counters.(stale := counters.stale + 1)));
      }
    }
    if event.change.Delete? {
      return Ok(Rows(rows, counters.(missingDelete := counters.missingDelete + 1)));
    }
    if closed.Some? {
      if closed.value.validTo.None? {
        return Err(ClosedValidToMissing);
      }
      if event.eventTime.value < closed.value.validTo.value {
        return Err(LateArriving);
      }
    }
    var incoming := event.change.after + Restrict(event.key, config.businessKey);
    var newRow := Version(incoming, event.eventTime, None, true, Some(Tracked(incoming, config.tracked)), config.runId,
                          Some(event.partition), Some(event.position), None, None);
    return Ok(Rows(rows + [newRow], counters.(inserted := counters.inserted + 1)));
  }

  method ApplyCdcScd2(existing: seq<Version>, batch: Batch, businessKey: seq<string>, tracked: seq<string>, runId: int)
    returns (r: Result<Rows, Scd2Error>)
    ensures r == ApplyHistory(existing, batch.events, Config(businessKey, tracked, batch.lower, Some(runId)))
  {
    hide ApplyToRows;
    if !UniqueColumns(businessKey) || !UniqueColumns(tracked) {
      return Err(InvalidConfiguration);
    }
    if !Keyed(existing, businessKey) {
      return Err(NullBusinessKey);
    }
    if !OneCurrentPerKey(existing, businessKey) {
      return Err(TwoCurrentRows);
    }
    var config := Config(businessKey, tracked, batch.lower, Some(runId));
    var state := Rows(existing, NO_EVENTS);
    assert batch.events[..|batch.events|] == batch.events;
    for i := 0 to |batch.events|
      invariant FoldRows(existing, batch.events[..i], config) == Ok(state)
    {
      assert batch.events[..i + 1][..i] == batch.events[..i];
      var next := ProcessScd2Event(state.rows, state.counters, batch.events[i], config);
      if next.Err? {
        FoldRowsFailsLater(existing, batch.events, i + 1, config);
        return Err(next.error);
      }
      state := next.value;
    }
    if !OneCurrentPerKey(state.rows, businessKey) {
      return Err(TwoCurrentRows);
    }
    r := Ok(state);
  }

  lemma {:induction false} FoldRowsFailsLater(rows: seq<Version>, es: seq<Event>, n: nat, config: Config)
    requires n <= |es| && FoldRows(rows, es[..n], config).Err?
    ensures FoldRows(rows, es, config) == FoldRows(rows, es[..n], config)
    decreases |es|
  {
    hide ApplyToRows;
    if n == |es| {
      assert es[..n] == es;
    } else {
      assert es[..|es| - 1][..n] == es[..n];
      FoldRowsFailsLater(rows, es[..|es| - 1], n, config);
    }
  }
}
