/** Ordered current-state apply (apply/current_state.py): insert or update by merge key, where the source
    position of a row decides which row wins. */
module CurrentState {
  import opened Common
  import opened ValueOrder

  datatype Policy = Policy(allowUnorderedUpdates: bool, staleIsError: bool)

  datatype Config = Config(mergeKey: seq<string>, ordering: seq<string>, policy: Policy)

  datatype ApplyError =
    | InvalidConfiguration
    | NullKey
    | DuplicateTargetKey
    | NullOrdering
    | UnorderedConflict
    | NotComparable
    | EqualPositionConflict
    | StaleRow
    | UnorderedUpdate

  type Table = map<Key, Columns>

  // ---------------------------------------------------------------- rows

  function PositionOf(row: Columns, config: Config): seq<Value> {
    KeyValues(row, config.ordering)
  }

  predicate Ordered(row: Columns, config: Config) {
    Null !in PositionOf(row, config)
  }

  function LoadRow(t: Table, row: Columns, config: Config): Result<Table, ApplyError> {
    match KeyOf(row, config.mergeKey)
    case None => Err(NullKey)
    case Some(k) =>
      if k in t then Err(DuplicateTargetKey)
      else if !Ordered(row, config) then Err(NullOrdering)
      else Ok(t[k := row])
  }

  function Load(rows: seq<Columns>, config: Config): Result<Table, ApplyError> {
    if rows == [] then Ok(map[])
    else
      var t := Load(rows[..|rows| - 1], config);
      if t.Err? then t else LoadRow(t.value, rows[|rows| - 1], config)
  }

  /** The candidate of every key among the incoming rows, and the rows that are not candidates. */
  datatype Selection = Selection(byKey: Table, duplicates: nat, superseded: nat)

  /** What a further row of the same key does to the candidate. */
  function Contend(current: Columns, row: Columns, config: Config): Result<(Columns, bool), ApplyError> {
    if config.ordering == [] then
      if row == current then Ok((current, true)) else Err(UnorderedConflict)
    else if !Ordered(row, config) || !Ordered(current, config) then Err(NullOrdering)
    else match Compare(PositionOf(row, config), PositionOf(current, config))
         case None => Err(NotComparable)
         case Some(Newer) => Ok((row, false))
         case Some(Stale) => Ok((current, false))
         case Some(Equal) => if row == current then Ok((current, true)) else Err(EqualPositionConflict)
  }

  function SelectRow(s: Selection, row: Columns, config: Config): Result<Selection, ApplyError> {
    match KeyOf(row, config.mergeKey)
    case None => Err(NullKey)
    case Some(k) =>
      if k !in s.byKey then
        if !Ordered(row, config) then Err(NullOrdering) else Ok(s.(byKey := s.byKey[k := row]))
      else
        var c := Contend(s.byKey[k], row, config);
        if c.Err? then Err(c.error)
        else if c.value.1 then Ok(s.(duplicates := s.duplicates + 1))
        else Ok(s.(byKey := s.byKey[k := c.value.0], superseded := s.superseded + 1))
  }

  function Select(rows: seq<Columns>, config: Config): Result<Selection, ApplyError> {
    if rows == [] then Ok(Selection(map[], 0, 0))
    else
      var s := Select(rows[..|rows| - 1], config);
      if s.Err? then s else SelectRow(s.value, rows[|rows| - 1], config)
  }

  // ---------------------------------------------------------------- one key of the target

  datatype Fate = Inserted | Duplicate | Updated | IgnoredAsStale

  datatype Merge = Merge(row: Columns, fate: Fate)

  /** Incoming fields over the fields of the target row; target-only fields stay. */
  function Merged(current: Columns, candidate: Columns): Columns {
    current + candidate
  }

  function MergeKey(current: Option<Columns>, candidate: Columns, config: Config): Result<Merge, ApplyError> {
    if current.None? then Ok(Merge(candidate, Inserted))
    else
      var row := current.value;
      if candidate == row then Ok(Merge(row, Duplicate))
      else if config.ordering == [] then
        if config.policy.allowUnorderedUpdates then Ok(Merge(Merged(row, candidate), Updated)) else Err(UnorderedUpdate)
      else if !Ordered(candidate, config) || !Ordered(row, config) then Err(NullOrdering)
      else match Compare(PositionOf(candidate, config), PositionOf(row, config))
           case None => Err(NotComparable)
           case Some(Stale) => if config.policy.staleIsError then Err(StaleRow) else Ok(Merge(row, IgnoredAsStale))
           case Some(Equal) => Err(EqualPositionConflict)
           case Some(Newer) => Ok(Merge(Merged(row, candidate), Updated))
  }

  function MergeAt(t: Table, candidates: Table, k: Key, config: Config): Result<Merge, ApplyError>
    requires k in candidates
  {
    MergeKey(Find(t, k), candidates[k], config)
  }

  /** The keys of a set with the given fate. */
  function Fated(t: Table, candidates: Table, keys: set<Key>, fate: Fate, config: Config): set<Key>
    requires keys <= candidates.Keys
  {
    set k | k in keys && MergeAt(t, candidates, k, config).Ok? && MergeAt(t, candidates, k, config).value.fate == fate
  }

  datatype Outcome = Outcome(rows: Table, inserted: nat, updated: nat, stale: nat, duplicates: nat, superseded: nat)

  /** The row of a key once the candidates of some keys have been merged. */
  function RowAfter(t: Table, candidates: Table, keys: set<Key>, k: Key, config: Config): Option<Columns>
    requires keys <= candidates.Keys
  {
    if k in keys && MergeAt(t, candidates, k, config).Ok? then Some(MergeAt(t, candidates, k, config).value.row) else Find(t, k)
  }

  ghost predicate RowsAfter(rows: Table, t: Table, candidates: Table, keys: set<Key>, config: Config)
    requires keys <= candidates.Keys
  {
    forall k :: Find(rows, k) == RowAfter(t, candidates, keys, k, config)
  }

  predicate AllMerge(t: Table, candidates: Table, keys: set<Key>, config: Config)
    requires keys <= candidates.Keys
  {
    forall k | k in keys :: MergeAt(t, candidates, k, config).Ok?
  }

  /** The outcome of merging a selection into the target: every candidate merged, every fate counted. */
  ghost predicate IsOutcome(o: Outcome, t: Table, s: Selection, keys: set<Key>, config: Config)
    requires keys <= s.byKey.Keys
  {
    && AllMerge(t, s.byKey, keys, config)
    && RowsAfter(o.rows, t, s.byKey, keys, config)
    && o.inserted == |Fated(t, s.byKey, keys, Inserted, config)|
    && o.updated == |Fated(t, s.byKey, keys, Updated, config)|
    && o.stale == |Fated(t, s.byKey, keys, IgnoredAsStale, config)|
    && o.duplicates == s.duplicates + |Fated(t, s.byKey, keys, Duplicate, config)|
    && o.superseded == s.superseded
  }

  predicate ValidConfig(config: Config) {
    UniqueColumns(config.mergeKey) && DistinctColumns(config.ordering)
  }

  // ---------------------------------------------------------------- the loops

  method LoadTarget(rows: seq<Columns>, config: Config) returns (r: Result<Table, ApplyError>)
    ensures r == Load(rows, config)
  {
    hide KeyOf, Ordered;
    var byKey: Table := map[];
    assert rows[..|rows|] == rows;
    for i := 0 to |rows|
      invariant Load(rows[..i], config) == Ok(byKey)
    {
      assert rows[..i + 1][..i] == rows[..i];
      var key := KeyOf(rows[i], config.mergeKey);
      if key.None? {
        LoadFailsLater(rows, i + 1, config);
        return Err(NullKey);
      }
      if key.value in byKey {
        LoadFailsLater(rows, i + 1, config);
        return Err(DuplicateTargetKey);
      }
      if !Ordered(rows[i], config) {
        LoadFailsLater(rows, i + 1, config);
        return Err(NullOrdering);
      }
      byKey := byKey[key.value := rows[i]];
    }
    r := Ok(byKey);
  }

  lemma {:induction false} LoadFailsLater(rows: seq<Columns>, n: nat, config: Config)
    requires n <= |rows| && Load(rows[..n], config).Err?
    ensures Load(rows, config) == Load(rows[..n], config)
    decreases |rows|
  {
    hide LoadRow;
    if n == |rows| {
      assert rows[..n] == rows;
    } else {
      assert rows[..|rows| - 1][..n] == rows[..n];
      LoadFailsLater(rows[..|rows| - 1], n, config);
    }
  }

  method SelectLatestIncoming(rows: seq<Columns>, config: Config) returns (r: Result<Selection, ApplyError>)
    ensures r == Select(rows, config)
  {
    hide KeyOf, Ordered, Contend;
    var selected: Table := map[];
    var duplicates: nat, superseded: nat := 0, 0;
    assert rows[..|rows|] == rows;
    for i := 0 to |rows|
      invariant Select(rows[..i], config) == Ok(Selection(selected, duplicates, superseded))
    {
      assert rows[..i + 1][..i] == rows[..i];
      var key := KeyOf(rows[i], config.mergeKey);
      if key.None? {
        SelectFailsLater(rows, i + 1, config);
        return Err(NullKey);
      }
      if key.value !in selected {
        if !Ordered(rows[i], config) {
          SelectFailsLater(rows, i + 1, config);
          return Err(NullOrdering);
        }
        selected := selected[key.value := rows[i]];
        continue;
      }
      var contended := Contend(selected[key.value], rows[i], config);
      if contended.Err? {
        SelectFailsLater(rows, i + 1, config);
        return Err(contended.error);
      }
      if contended.value.1 {
        duplicates := duplicates + 1;
      } else {
        selected := selected[key.value := contended.value.0];
        superseded := superseded + 1;
      }
    }
    r := Ok(Selection(selected, duplicates, superseded));
  }

  lemma {:induction false} SelectFailsLater(rows: seq<Columns>, n: nat, config: Config)
    requires n <= |rows| && Select(rows[..n], config).Err?
    ensures Select(rows, config) == Select(rows[..n], config)
    decreases |rows|
  {
    hide SelectRow;
    if n == |rows| {
      assert rows[..n] == rows;
    } else {
      assert rows[..|rows| - 1][..n] == rows[..n];
      SelectFailsLater(rows[..|rows| - 1], n, config);
    }
  }

  lemma FatedGrows(t: Table, candidates: Table, done: set<Key>, k: Key, fate: Fate, config: Config)
    requires done <= candidates.Keys && k in candidates && k !in done && MergeAt(t, candidates, k, config).Ok?
    ensures |Fated(t, candidates, done + {k}, fate, config)| ==
            |Fated(t, candidates, done, fate, config)| + if MergeAt(t, candidates, k, config).value.fate == fate then 1 else 0
  {
    hide Fated, MergeAt;
    FatedSetGrows(t, candidates, done, k, fate, config);
  }

  lemma FatedSetGrows(t: Table, candidates: Table, done: set<Key>, k: Key, fate: Fate, config: Config)
    requires done <= candidates.Keys && k in candidates && k !in done && MergeAt(t, candidates, k, config).Ok?
    ensures k !in Fated(t, candidates, done, fate, config)
    ensures Fated(t, candidates, done + {k}, fate, config) ==
            if MergeAt(t, candidates, k, config).value.fate == fate then Fated(t, candidates, done, fate, config) + {k}
            else Fated(t, candidates, done, fate, config)
  {
    hide MergeAt;
  }

  lemma RowsGrow(rows: Table, t: Table, candidates: Table, done: set<Key>, k: Key, rows': Table, config: Config)
    requires done <= candidates.Keys && k in candidates && k !in done && MergeAt(t, candidates, k, config).Ok?
    requires RowsAfter(rows, t, candidates, done, config)
    requires rows' == rows[k := MergeAt(t, candidates, k, config).value.row]
             || (rows' == rows && Find(t, k) == Some(MergeAt(t, candidates, k, config).value.row))
    ensures RowsAfter(rows', t, candidates, done + {k}, config)
  {
    hide MergeKey;
    forall j ensures Find(rows', j) == RowAfter(t, candidates, done + {k}, j, config) {
      assert Find(rows, j) == RowAfter(t, candidates, done, j, config);
    }
  }

  lemma OutcomeGrows(o: Outcome, t: Table, s: Selection, done: set<Key>, k: Key, o': Outcome, config: Config)
    requires done <= s.byKey.Keys && k in s.byKey && k !in done && MergeAt(t, s.byKey, k, config).Ok?
    requires IsOutcome(o, t, s, done, config)
    requires RowsAfter(o'.rows, t, s.byKey, done + {k}, config)
    requires var fate := MergeAt(t, s.byKey, k, config).value.fate;
             o'.inserted == o.inserted + (if fate.Inserted? then 1 else 0)
             && o'.updated == o.updated + (if fate.Updated? then 1 else 0)
             && o'.stale == o.stale + (if fate.IgnoredAsStale? then 1 else 0)
             && o'.duplicates == o.duplicates + (if fate.Duplicate? then 1 else 0)
             && o'.superseded == o.superseded
    ensures IsOutcome(o', t, s, done + {k}, config)
  {
    hide RowsAfter, Fated, MergeAt;
    FatedGrows(t, s.byKey, done, k, Inserted, config);
    FatedGrows(t, s.byKey, done, k, Updated, config);
    FatedGrows(t, s.byKey, done, k, IgnoredAsStale, config);
    FatedGrows(t, s.byKey, done, k, Duplicate, config);
  }

  lemma NothingMerged(t: Table, s: Selection, config: Config)
    ensures IsOutcome(Outcome(t, 0, 0, 0, s.duplicates, s.superseded), t, s, {}, config)
  {
    hide MergeAt;
    forall fate: Fate ensures Fated(t, s.byKey, {}, fate, config) == {} {
    }
  }

  /** One turn of the merge loop, branch by branch. */
  method MergeOne(o: Outcome, current: Option<Columns>, candidate: Columns, k: Key, config: Config)
    returns (r: Result<Outcome, ApplyError>)
    requires Find(o.rows, k) == current
    ensures r.Err? <==> MergeKey(current, candidate, config).Err?
    ensures r.Err? ==> r.error == MergeKey(current, candidate, config).error
    ensures r.Ok? ==>
              var m := MergeKey(current, candidate, config).value;
              && r.value.rows == (if m.fate.Inserted? || m.fate.Updated? then o.rows[k := m.row] else o.rows)
              && (m.fate.Duplicate? || m.fate.IgnoredAsStale? ==> current == Some(m.row))
              && r.value.inserted == o.inserted + (if m.fate.Inserted? then 1 else 0)
              && r.value.updated == o.updated + (if m.fate.Updated? then 1 else 0)
              && r.value.stale == o.stale + (if m.fate.IgnoredAsStale? then 1 else 0)
              && r.value.duplicates == o.duplicates + (if m.fate.Duplicate? then 1 else 0)
              && r.value.superseded == o.superseded
  {
    hide Ordered, Merged, KeyValues;
    if current.None? {
      return Ok(o.(rows := o.rows[k := candidate], inserted := o.inserted + 1));
    }
    if candidate == current.value {
      return Ok(o.(duplicates := o.duplicates + 1));
    }
    if config.ordering == [] {
      if !config.policy.allowUnorderedUpdates {
        return Err(UnorderedUpdate);
      }
      return Ok(o.(rows := o.rows[k := Merged(current.value, candidate)], updated := o.updated + 1));
    }
    if !Ordered(candidate, config) || !Ordered(current.value, config) {
      return Err(NullOrdering);
    }
    var comparison := Compare(PositionOf(candidate, config), PositionOf(current.value, config));
    if comparison.None? {
      return Err(NotComparable);
    }
    if comparison.value.Stale? {
      if config.policy.staleIsError {
        return Err(StaleRow);
      }
      return Ok(o.(stale := o.stale + 1));
    }
    if comparison.value.Equal? {
      return Err(EqualPositionConflict);
    }
    r := Ok(o.(rows := o.rows[k := Merged(current.value, candidate)], updated := o.updated + 1));
  }

  /** Merges every candidate; the order of the keys does not matter. */
  method MergeAll(t: Table, s: Selection, config: Config) returns (r: Result<Outcome, ApplyError>)
    ensures r.Ok? <==> AllMerge(t, s.byKey, s.byKey.Keys, config)
    ensures r.Ok? ==> IsOutcome(r.value, t, s, s.byKey.Keys, config)
    ensures r.Err? ==> exists k :: k in s.byKey && MergeAt(t, s.byKey, k, config) == Err(r.error)
  {
    hide MergeKey, IsOutcome, RowsAfter;
    var o := Outcome(t, 0, 0, 0, s.duplicates, s.superseded);
    var remaining := s.byKey.Keys;
    ghost var done: set<Key> := {};
    NothingMerged(t, s, config);
    while remaining != {}
      invariant done == s.byKey.Keys - remaining && remaining <= s.byKey.Keys
      invariant AllMerge(t, s.byKey, done, config)
      invariant IsOutcome(o, t, s, done, config)
      decreases remaining
    {
      var k :| k in remaining;
      RowUntouched(o, t, s, done, k, config);
      var next := MergeOne(o, Find(o.rows, k), s.byKey[k], k, config);
      if next.Err? {
        return Err(next.error);
      }
      RowsOfOutcome(o, t, s, done, config);
      RowsGrow(o.rows, t, s.byKey, done, k, next.value.rows, config);
      OutcomeGrows(o, t, s, done, k, next.value, config);
      o := next.value;
      remaining := remaining - {k};
      done := done + {k};
    }
    assert done == s.byKey.Keys;
    r := Ok(o);
  }

  lemma RowUntouched(o: Outcome, t: Table, s: Selection, done: set<Key>, k: Key, config: Config)
    requires done <= s.byKey.Keys && k !in done && IsOutcome(o, t, s, done, config)
    ensures Find(o.rows, k) == Find(t, k)
  {
    hide MergeKey, Fated, Find, AllMerge;
    assert Find(o.rows, k) == RowAfter(t, s.byKey, done, k, config);
  }

  lemma RowsOfOutcome(o: Outcome, t: Table, s: Selection, done: set<Key>, config: Config)
    requires done <= s.byKey.Keys && IsOutcome(o, t, s, done, config)
    ensures RowsAfter(o.rows, t, s.byKey, done, config)
  {
    hide MergeKey, Fated, RowsAfter;
  }

  method ApplyOrderedCurrentState(existing: seq<Columns>, incoming: seq<Columns>, config: Config)
    returns (r: Result<Outcome, ApplyError>)
    ensures r.Ok? <==> Accepts(existing, incoming, config)
    ensures r.Ok? ==> Produces(existing, incoming, config, r.value)
  {
    hide Load, Select, IsOutcome, AllMerge;
    if !ValidConfig(config) {
      return Err(InvalidConfiguration);
    }
    var t := LoadTarget(existing, config);
    if t.Err? {
      return Err(t.error);
    }
    var s := SelectLatestIncoming(incoming, config);
    if s.Err? {
      return Err(s.error);
    }
    r := MergeAll(t.value, s.value, config);
  }

  predicate Accepts(existing: seq<Columns>, incoming: seq<Columns>, config: Config) {
    && ValidConfig(config) && Load(existing, config).Ok? && Select(incoming, config).Ok?
    && AllMerge(Load(existing, config).value, Select(incoming, config).value.byKey,
                Select(incoming, config).value.byKey.Keys, config)
  }

  ghost predicate Produces(existing: seq<Columns>, incoming: seq<Columns>, config: Config, o: Outcome)
    requires Accepts(existing, incoming, config)
  {
    var s := Select(incoming, config).value;
    IsOutcome(o, Load(existing, config).value, s, s.byKey.Keys, config)
  }
}
