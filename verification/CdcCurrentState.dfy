/** CDC-to-current-state apply for UPSERT and SCD1 targets (apply/cdc.py). */
module CdcCurrentState {
  import opened Common
  import opened SourceOrder
  import opened CdcCapture

  datatype DeleteAction = Apply | Ignore | Reject

  datatype ApplyError =
    | InvalidMergeKey
    | NullTargetKey
    | DuplicateTargetKey
    | EventKeyMissing
    | DeleteRejected
    | NoLowerCheckpoint
    | NotAboveLowerCheckpoint
    | IncompleteMetadata
    | MovedAcrossPartitions
    | NotComparable
    | EqualPositionConflict

  /** A stored position as the target returns it: the tuple that the engine wrote, or a list with the same
      components. Both are read alike, but rows are compared whole, and no tuple equals a list. */
  datatype StoredPosition = AsTuple(values: Position) | AsList(values: Position)

  /** A target row: its data columns and the two framework columns that hold the source position of
      the last event that touched it. Rows loaded from a snapshot have neither. */
  datatype Row = Row(data: Columns, partition: Option<string>, position: Option<StoredPosition>)
  {
    function Values(): Option<Position> {
      if position.Some? then Some(position.value.values) else None
    }
  }

  type Table = map<Key, Row>

  datatype Policy = Policy(mergeKey: seq<string>, lower: Option<Checkpoint>, onDelete: DeleteAction)

  /** Where one event was counted. */
  datatype Outcome = Inserted | Updated | Deleted | StaleIgnored | NoChange | MissingDelete | PolicyIgnored

  datatype Counters = Counters(
    inserted: nat, updated: nat, deleted: nat,
    stale: nat, noChange: nat, missingDelete: nat, policyIgnored: nat)
  {
    /** MutationCounts.events_applied */
    function Applied(): nat {
      inserted + updated + deleted
    }

    function Total(): nat {
      Applied() + stale + noChange + missingDelete + policyIgnored
    }

    function Tally(o: Outcome): Counters {
      match o
      case Inserted => this.(inserted := inserted + 1)
      case Updated => this.(updated := updated + 1)
      case Deleted => this.(deleted := deleted + 1)
      case StaleIgnored => this.(stale := stale + 1)
      case NoChange => this.(noChange := noChange + 1)
      case MissingDelete => this.(missingDelete := missingDelete + 1)
      case PolicyIgnored => this.(policyIgnored := policyIgnored + 1)
    }
  }

  const NO_EVENTS := Counters(0, 0, 0, 0, 0, 0, 0)

  datatype Step = Step(row: Option<Row>, outcome: Outcome)

  datatype State = State(table: Table, counters: Counters)

  // ---------------------------------------------------------------- one event on one row

  /** _event_key: event keys hold no nulls, so the one failure is a missing merge column. */
  function EventKey(e: Event, mergeKey: seq<string>): Option<Key> {
    KeyOf(e.key, mergeKey)
  }

  /** _assert_event_newer_than_target: how the event stands to the position stored in the target. */
  function OrderAgainst(
      partition: Option<string>, position: Option<Position>, e: Event, lower: Option<Checkpoint>): Result<Relation,
      ApplyError>
  {
    if partition.None? && position.None? then
      if lower.None? || e.partition !in lower.value then Err(NoLowerCheckpoint)
      else match CompareSourceOrder(e.position, lower.value[e.partition])
        case None => Err(NotComparable)
        case Some(relation) => if relation.Newer? then Ok(Newer) else Err(NotAboveLowerCheckpoint)
    else if partition.None? || position.None? then Err(IncompleteMetadata)
    else if partition.value != e.partition then Err(MovedAcrossPartitions)
    else match CompareSourceOrder(e.position, position.value)
      case None => Err(NotComparable)
      case Some(relation) => Ok(relation)
  }

  /** The row that an INSERT or UPDATE leads to: its after image over the current columns. */
  function Candidate(current: Columns, e: Event, mergeKey: seq<string>): Row
    requires !e.change.Delete?
  {
    Row(current + e.change.after + Restrict(e.key, mergeKey), Some(e.partition), Some(AsTuple(e.position)))
  }

  function ApplyEvent(current: Option<Row>, e: Event, policy: Policy): Result<Step, ApplyError> {
    match current
    case None =>
      if e.change.Delete? then
        match policy.onDelete
        case Ignore => Ok(Step(None, PolicyIgnored))
        case Reject => Err(DeleteRejected)
        case Apply => Ok(Step(None, MissingDelete))
      else
        Ok(Step(Some(Candidate(map[], e, policy.mergeKey)), Inserted))
    case Some(row) =>
      var order := OrderAgainst(row.partition, row.Values(), e, policy.lower);
      if order.Err? then Err(order.error)
      else if order.value.Stale? then Ok(Step(current, StaleIgnored))
      else if e.change.Delete? then
        match policy.onDelete
        case Ignore => Ok(Step(current, PolicyIgnored))
        case Reject => Err(DeleteRejected)
        case Apply => if order.value.Equal? then Err(EqualPositionConflict) else Ok(Step(None, Deleted))
      else
        var candidate := Candidate(row.data, e, policy.mergeKey);
        if order.value.Equal? then
          if candidate == row then Ok(Step(current, NoChange)) else Err(EqualPositionConflict)
        else if candidate.data == row.data then Ok(Step(Some(candidate), NoChange))
        else Ok(Step(Some(candidate), Updated))
  }

  // ---------------------------------------------------------------- a whole batch

  function Store(t: Table, k: Key, row: Option<Row>): (t': Table)
    ensures Find(t', k) == row
    ensures forall j | j != k :: Find(t', j) == Find(t, j)
  {
    match row
    case None => t - {k}
    case Some(r) => t[k := r]
  }

  function ApplyToTable(s: State, e: Event, policy: Policy): Result<State, ApplyError> {
    match EventKey(e, policy.mergeKey)
    case None => Err(EventKeyMissing)
    case Some(k) =>
      var step := ApplyEvent(Find(s.table, k), e, policy);
      if step.Err? then Err(step.error)
      else Ok(State(Store(s.table, k, step.value.row), s.counters.Tally(step.value.outcome)))
  }

  /** The events applied from left to right. */
  function FoldTable(t: Table, es: seq<Event>, policy: Policy): Result<State, ApplyError> {
    if es == [] then Ok(State(t, NO_EVENTS))
    else
      var s := FoldTable(t, es[..|es| - 1], policy);
      if s.Err? then s else ApplyToTable(s.value, es[|es| - 1], policy)
  }

  /** The target rows as a table, or the defect that makes them unusable. */
  function Load(rows: seq<Row>, mergeKey: seq<string>): Result<Table, ApplyError> {
    if rows == [] then Ok(map[])
    else
      var t := Load(rows[..|rows| - 1], mergeKey);
      if t.Err? then t else
      var row := rows[|rows| - 1];
      match KeyOf(row.data, mergeKey)
      case None => Err(NullTargetKey)
      case Some(k) => if k in t.value then Err(DuplicateTargetKey) else Ok(t.value[k := row])
  }

  /** Events applied to the published target rows. */
  function ApplyEvents(existing: seq<Row>, es: seq<Event>, policy: Policy): Result<State, ApplyError> {
    if !UniqueColumns(policy.mergeKey) then Err(InvalidMergeKey)
    else
      var t := Load(existing, policy.mergeKey);
      if t.Err? then Err(t.error) else FoldTable(t.value, es, policy)
  }

  method LoadTarget(existing: seq<Row>, mergeKey: seq<string>) returns (r: Result<Table, ApplyError>)
    ensures r == Load(existing, mergeKey)
  {
    var rowsByKey: Table := map[];
    assert existing[..|existing|] == existing;
    for i := 0 to |existing|
      invariant Load(existing[..i], mergeKey) == Ok(rowsByKey)
    {
      assert existing[..i + 1][..i] == existing[..i];
      var key := KeyOf(existing[i].data, mergeKey);
      if key.None? {
        LoadFailsLater(existing, i + 1, mergeKey);
        return Err(NullTargetKey);
      }
      if key.value in rowsByKey {
        LoadFailsLater(existing, i + 1, mergeKey);
        return Err(DuplicateTargetKey);
      }
      rowsByKey := rowsByKey[key.value := existing[i]];
    }
    r := Ok(rowsByKey);
  }

  /** The body of the event loop. */
  method ProcessEvent(rowsByKey: Table, counters: Counters, event: Event, policy: Policy)
    returns (r: Result<State, ApplyError>)
    ensures r == ApplyToTable(State(rowsByKey, counters), event, policy)
  {
    var eventKey := EventKey(event, policy.mergeKey);
    if eventKey.None? {
      return Err(EventKeyMissing);
    }
    var key := eventKey.value;
    var current := Find(rowsByKey, key);
    assert Store(rowsByKey, key, current) == rowsByKey;
    var ordering: Option<Relation> := None;
    if current.Some? {
      var order := OrderAgainst(current.value.partition, current.value.Values(), event, policy.lower);
      if order.Err? {
        return Err(order.error);
      }
      ordering := Some(order.value);
      if ordering.value.Stale? {
        return Ok(State(rowsByKey, counters.(stale := counters.stale + 1)));
      }
    }
    if event.change.Delete? {
      if policy.onDelete.Ignore? {
        return Ok(State(rowsByKey, counters.(policyIgnored := counters.policyIgnored + 1)));
      }
      if policy.onDelete.Reject? {
        return Err(DeleteRejected);
      }
      if current.None? {
        return Ok(State(rowsByKey, counters.(missingDelete := counters.missingDelete + 1)));
      }
      if ordering == Some(Equal) {
        return Err(EqualPositionConflict);
      }
      return Ok(State(rowsByKey - {key}, counters.(deleted := counters.deleted + 1)));
    }
    var base := if current.Some? then current.value.data else map[];
    var data := base + event.change.after + Restrict(event.key, policy.mergeKey);
    var candidate := Row(data, Some(event.partition), Some(AsTuple(event.position)));
    if current.None? {
      return Ok(State(rowsByKey[key := candidate], counters.(inserted := counters.inserted + 1)));
    }
    if ordering == Some(Equal) {
      if candidate != current.value {
        return Err(EqualPositionConflict);
      }
      return Ok(State(rowsByKey, counters.(noChange := counters.noChange + 1)));
    }
    if candidate.data == current.value.data {
      return Ok(State(rowsByKey[key := candidate], counters.(noChange := counters.noChange + 1)));
    }
    return Ok(State(rowsByKey[key := candidate], counters.(updated := counters.updated + 1)));
  }

  method ApplyCdcCurrentState(existing: seq<Row>, batch: Batch, mergeKey: seq<string>, onDelete: DeleteAction)
    returns (r: Result<State, ApplyError>)
    ensures r == ApplyEvents(existing, batch.events, Policy(mergeKey, batch.lower, onDelete))
  {
    hide ApplyToTable;
    if !UniqueColumns(mergeKey) {
      return Err(InvalidMergeKey);
    }
    var policy := Policy(mergeKey, batch.lower, onDelete);
    var loaded := LoadTarget(existing, mergeKey);
    if loaded.Err? {
      return Err(loaded.error);
    }
    var state := State(loaded.value, NO_EVENTS);
    assert batch.events[..|batch.events|] == batch.events;
    for i := 0 to |batch.events|
      invariant FoldTable(loaded.value, batch.events[..i], policy) == Ok(state)
    {
      assert batch.events[..i + 1][..i] == batch.events[..i];
      var next := ProcessEvent(state.table, state.counters, batch.events[i], policy);
      if next.Err? {
        FoldFailsLater(loaded.value, batch.events, i + 1, policy);
        return Err(next.error);
      }
      state := next.value;
    }
    r := Ok(state);
  }

  lemma {:induction false} LoadFailsLater(rows: seq<Row>, n: nat, mergeKey: seq<string>)
    requires n <= |rows| && Load(rows[..n], mergeKey).Err?
    ensures Load(rows, mergeKey) == Load(rows[..n], mergeKey)
    decreases |rows|
  {
    if n == |rows| {
      assert rows[..n] == rows;
    } else {
      assert rows[..|rows| - 1][..n] == rows[..n];
      LoadFailsLater(rows[..|rows| - 1], n, mergeKey);
    }
  }

  lemma {:induction false} FoldFailsLater(t: Table, es: seq<Event>, n: nat, policy: Policy)
    requires n <= |es| && FoldTable(t, es[..n], policy).Err?
    ensures FoldTable(t, es, policy) == FoldTable(t, es[..n], policy)
    decreases |es|
  {
    if n == |es| {
      assert es[..n] == es;
    } else {
      assert es[..|es| - 1][..n] == es[..n];
      FoldFailsLater(t, es[..|es| - 1], n, policy);
    }
  }

  // ---------------------------------------------------------------- conservation

  /** Every applied event is counted exactly once. */
  lemma {:induction false} EveryAppliedEventIsCounted(t: Table, es: seq<Event>, policy: Policy)
    requires FoldTable(t, es, policy).Ok?
    ensures FoldTable(t, es, policy).value.counters.Total() == |es|
    decreases |es|
  {
    hide ApplyToTable, Counters.Total;
    if es != [] {
      var prefix, last := es[..|es| - 1], es[|es| - 1];
      EveryAppliedEventIsCounted(t, prefix, policy);
      EventIsCounted(FoldTable(t, prefix, policy).value, last, policy);
    } else {
      NothingIsCounted();
    }
  }

  lemma NothingIsCounted()
    ensures NO_EVENTS.Total() == 0
  {
  }

  lemma EventIsCounted(s: State, e: Event, policy: Policy)
    requires ApplyToTable(s, e, policy).Ok?
    ensures ApplyToTable(s, e, policy).value.counters.Total() == s.counters.Total() + 1
  {
  }

  /** How far a state has moved from a table with n rows. */
  ghost predicate RowsBalance(n: nat, s: State) {
    |s.table| + s.counters.deleted == n + s.counters.inserted
  }

  /** The number of rows moves by inserted minus deleted. */
  lemma {:induction false} RowCountBalances(t: Table, es: seq<Event>, policy: Policy)
    requires FoldTable(t, es, policy).Ok?
    ensures RowsBalance(|t|, FoldTable(t, es, policy).value)
    decreases |es|
  {
    if es != [] {
      var prefix, last := es[..|es| - 1], es[|es| - 1];
      RowCountBalances(t, prefix, policy);
      EventBalances(|t|, FoldTable(t, prefix, policy).value, last, policy);
    }
  }

  /** An event adds a row exactly when it counts as inserted and removes one exactly when it counts as deleted. */
  lemma OutcomeTellsRowCount(current: Option<Row>, e: Event, policy: Policy)
    requires ApplyEvent(current, e, policy).Ok?
    ensures var step := ApplyEvent(current, e, policy).value;
            && (step.outcome.Inserted? <==> current.None? && step.row.Some?)
            && (step.outcome.Deleted? <==> current.Some? && step.row.None?)
  {
  }

  lemma EventBalances(n: nat, s: State, e: Event, policy: Policy)
    requires RowsBalance(n, s) && ApplyToTable(s, e, policy).Ok?
    ensures RowsBalance(n, ApplyToTable(s, e, policy).value)
  {
    var current := Find(s.table, EventKey(e, policy.mergeKey).value);
    OutcomeTellsRowCount(current, e, policy);
  }

  // ---------------------------------------------------------------- publishing and reloading

  /** Every row is stored under the key that its own columns spell. */
  ghost predicate WellKeyed(t: Table, mergeKey: seq<string>) {
    forall k | k in t :: KeyOf(t[k].data, mergeKey) == Some(k)
  }

  lemma {:induction false} LoadIsWellKeyed(rows: seq<Row>, mergeKey: seq<string>)
    requires Load(rows, mergeKey).Ok?
    ensures WellKeyed(Load(rows, mergeKey).value, mergeKey)
  {
    if rows != [] {
      LoadIsWellKeyed(rows[..|rows| - 1], mergeKey);
    }
  }

  lemma CandidateKeepsKey(current: Columns, e: Event, mergeKey: seq<string>)
    requires !e.change.Delete? && EventKey(e, mergeKey).Some?
    ensures KeyOf(Candidate(current, e, mergeKey).data, mergeKey) == EventKey(e, mergeKey)
  {
    var data := Candidate(current, e, mergeKey).data;
    var k := KeyValues(e.key, mergeKey);
    forall c | c in mergeKey ensures Cell(data, c) == Cell(e.key, c) {
      var i :| 0 <= i < |mergeKey| && mergeKey[i] == c;
      assert k[i] in k;
    }
    KeyOfAgrees(data, e.key, mergeKey);
  }

  lemma {:induction false} FoldKeepsKeys(t: Table, es: seq<Event>, policy: Policy)
    requires WellKeyed(t, policy.mergeKey) && FoldTable(t, es, policy).Ok?
    ensures WellKeyed(FoldTable(t, es, policy).value.table, policy.mergeKey)
  {
    if es != [] {
      var prefix, last := es[..|es| - 1], es[|es| - 1];
      FoldKeepsKeys(t, prefix, policy);
      EventKeepsKeys(FoldTable(t, prefix, policy).value, last, policy);
    }
  }

  lemma EventKeepsKeys(s: State, e: Event, policy: Policy)
    requires WellKeyed(s.table, policy.mergeKey) && ApplyToTable(s, e, policy).Ok?
    ensures WellKeyed(ApplyToTable(s, e, policy).value.table, policy.mergeKey)
  {
    var current := Find(s.table, EventKey(e, policy.mergeKey).value);
    var next := ApplyEvent(current, e, policy).value.row;
    if next.Some? && next != current {
      var base := if current.Some? then current.value.data else map[];
      CandidateKeepsKey(base, e, policy.mergeKey);
      assert next.value == Candidate(base, e, policy.mergeKey);
    }
  }

  /** `rows` lists the table, each row once, in some order. */
  ghost predicate Lists(rows: seq<Row>, t: Table, mergeKey: seq<string>) {
    && (forall r | r in rows :: KeyOf(r.data, mergeKey).Some? && Find(t, KeyOf(r.data, mergeKey).value) == Some(r))
    && (forall k | k in t :: t[k] in rows)
    && (forall i, j | 0 <= i < j < |rows| :: KeyOf(rows[i].data, mergeKey) != KeyOf(rows[j].data, mergeKey))
  }

  /** Publishing a table and loading the published rows again gives the table, whatever the row order. */
  lemma PublishedRowsReload(rows: seq<Row>, t: Table, mergeKey: seq<string>)
    requires WellKeyed(t, mergeKey) && Lists(rows, t, mergeKey)
    ensures Load(rows, mergeKey) == Ok(t)
  {
    hide KeyOf;
    LoadOfListed(rows, |rows|, t, mergeKey);
    assert rows[..|rows|] == rows;
    var loaded := Load(rows, mergeKey).value;
    forall k | k in t ensures k in loaded && loaded[k] == t[k] {
      assert t[k] in rows;
    }
    assert loaded == t;
  }

  lemma {:induction false} LoadOfListed(rows: seq<Row>, n: nat, t: Table, mergeKey: seq<string>)
    requires Lists(rows, t, mergeKey) && n <= |rows|
    ensures var l := Load(rows[..n], mergeKey);
            && l.Ok?
            && (forall k | k in l.value :: k in t && l.value[k] == t[k] && exists i :: 0 <= i < n && KeyOf(rows[i].data, mergeKey) == Some(k))
            && (forall i | 0 <= i < n :: KeyOf(rows[i].data, mergeKey).value in l.value)
  {
    hide KeyOf;
    if n > 0 {
      LoadOfListed(rows, n - 1, t, mergeKey);
      assert rows[..n][..n - 1] == rows[..n - 1];
      assert rows[n - 1] in rows;
    }
  }
}
