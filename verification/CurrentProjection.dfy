/** The current-state projection of SCD2 history (apply/current_projection.py) and the reference target
    that it is applied to (execution/current_projection.py). */
module CurrentProjection {
  import opened Common

  /** A history row. The flag is None when the stored value is not a boolean. */
  datatype HistoryRow = HistoryRow(data: Columns, current: Option<bool>)

  /** Target rows by business key. */
  type Rows = map<Key, Columns>

  datatype ProjectionError =
    | InvalidConfiguration
    | NullKey
    | DuplicateTargetKey
    | FlagNotBoolean
    | TwoCurrentRows
    | MissingProjectedColumn
    | BadAffectedKey

  datatype Mutations = Mutations(inserted: nat, updated: nat, deleted: nat)

  /** A planned change of the target: rows to write and keys to remove, with the resulting rows. */
  datatype Projection = Projection(rows: Rows, upserts: Rows, deletes: set<Key>, affected: nat, mutations: Mutations)

  function LoadRows(rows: seq<Columns>, businessKey: seq<string>): Result<Rows, ProjectionError> {
    if rows == [] then Ok(map[])
    else
      var t := LoadRows(rows[..|rows| - 1], businessKey);
      if t.Err? then t else
      var row := rows[|rows| - 1];
      match KeyOf(row, businessKey)
      case None => Err(NullKey)
      case Some(k) => if k in t.value then Err(DuplicateTargetKey) else Ok(t.value[k := row])
  }

  /** _project_row */
  function ProjectRow(row: Columns, projected: seq<string>): Option<Columns> {
    if exists c | c in projected :: c !in row then None else Some(map c | c in projected :: row[c])
  }

  /** The history loop: the projected current row of every key, and all keys that occur. */
  datatype History = History(current: Rows, keys: set<Key>)

  function ReadHistory(
      rows: seq<HistoryRow>, businessKey: seq<string>, projected: seq<string>): Result<History, ProjectionError> {
    if rows == [] then Ok(History(map[], {}))
    else
      var h := ReadHistory(rows[..|rows| - 1], businessKey, projected);
      if h.Err? then h else NextHistoryRow(h.value, rows[|rows| - 1], businessKey, projected)
  }

  function NextHistoryRow(
      h: History, row: HistoryRow, businessKey: seq<string>, projected: seq<string>): Result<History, ProjectionError> {
    match KeyOf(row.data, businessKey)
    case None => Err(NullKey)
    case Some(k) =>
      if row.current.None? then Err(FlagNotBoolean)
      else if !row.current.value then Ok(h.(keys := h.keys + {k}))
      else if k in h.current then Err(TwoCurrentRows)
      else
        var p := ProjectRow(row.data, projected);
        if p.None? then Err(MissingProjectedColumn)
        else Ok(History(h.current[k := p.value], h.keys + {k}))
  }

  predicate ValidColumns(businessKey: seq<string>, projected: seq<string>) {
    && UniqueColumns(businessKey) && UniqueColumns(projected)
    && forall c | c in businessKey :: c in projected
  }

  /** The keys to look at: the affected ones, or all keys for a full rebuild. */
  function Selected(existing: Rows, history: History, affected: Option<set<Key>>): set<Key> {
    match affected
    case None => existing.Keys + history.keys
    case Some(keys) => keys
  }

  /** Affected keys have the width of the business key and hold no nulls. */
  predicate ValidAffected(affected: Option<set<Key>>, width: nat) {
    affected.None? || forall k | k in affected.value :: |k| == width && Null !in k
  }

  // ---------------------------------------------------------------- what a projection is

  /** The rows after the projection: selected keys follow the history, all others stay. */
  ghost predicate FollowsHistory(rows: Rows, existing: Rows, current: Rows, selected: set<Key>) {
    forall k :: Find(rows, k) == if k in selected then Find(current, k) else Find(existing, k)
  }

  function UpsertsOf(existing: Rows, current: Rows, selected: set<Key>): Rows {
    map k | k in selected && k in current && Find(existing, k) != Some(current[k]) :: current[k]
  }

  function DeletesOf(existing: Rows, current: Rows, selected: set<Key>): set<Key> {
    set k | k in selected && k !in current && k in existing
  }

  /** The mutations are exactly the differences between target and history on the selected keys. */
  ghost predicate IsProjection(p: Projection, existing: Rows, current: Rows, selected: set<Key>) {
    && FollowsHistory(p.rows, existing, current, selected)
    && p.upserts == UpsertsOf(existing, current, selected)
    && p.deletes == DeletesOf(existing, current, selected)
    && p.affected == |selected|
    && Counted(p.mutations, p.upserts.Keys, p.deletes, existing.Keys)
  }

  /** Every write of a new key is an insert, every other write an update. */
  ghost predicate Counted(m: Mutations, written: set<Key>, deletes: set<Key>, existing: set<Key>) {
    && m.inserted == |written - existing|
    && m.updated == |written * existing|
    && m.deleted == |deletes|
  }

  method LoadTarget(rows: seq<Columns>, businessKey: seq<string>) returns (r: Result<Rows, ProjectionError>)
    ensures r == LoadRows(rows, businessKey)
  {
    hide KeyOf;
    var byKey: Rows := map[];
    assert rows[..|rows|] == rows;
    for i := 0 to |rows|
      invariant LoadRows(rows[..i], businessKey) == Ok(byKey)
    {
      assert rows[..i + 1][..i] == rows[..i];
      var key := KeyOf(rows[i], businessKey);
      if key.None? {
        LoadRowsFailsLater(rows, i + 1, businessKey);
        return Err(NullKey);
      }
      if key.value in byKey {
        LoadRowsFailsLater(rows, i + 1, businessKey);
        return Err(DuplicateTargetKey);
      }
      byKey := byKey[key.value := rows[i]];
    }
    r := Ok(byKey);
  }

  lemma {:induction false} LoadRowsFailsLater(rows: seq<Columns>, n: nat, businessKey: seq<string>)
    requires n <= |rows| && LoadRows(rows[..n], businessKey).Err?
    ensures LoadRows(rows, businessKey) == LoadRows(rows[..n], businessKey)
    decreases |rows|
  {
    hide KeyOf;
    if n == |rows| {
      assert rows[..n] == rows;
    } else {
      assert rows[..|rows| - 1][..n] == rows[..n];
      LoadRowsFailsLater(rows[..|rows| - 1], n, businessKey);
    }
  }

  method ScanHistory(rows: seq<HistoryRow>, businessKey: seq<string>, projected: seq<string>)
    returns (r: Result<History, ProjectionError>)
    ensures r == ReadHistory(rows, businessKey, projected)
  {
    hide KeyOf, ProjectRow;
    var currentByKey: Rows := map[];
    var allKeys: set<Key> := {};
    assert rows[..|rows|] == rows;
    for i := 0 to |rows|
      invariant ReadHistory(rows[..i], businessKey, projected) == Ok(History(currentByKey, allKeys))
    {
      assert rows[..i + 1][..i] == rows[..i];
      var key := KeyOf(rows[i].data, businessKey);
      if key.None? {
        ReadHistoryFailsLater(rows, i + 1, businessKey, projected);
        return Err(NullKey);
      }
      allKeys := allKeys + {key.value};
      if rows[i].current.None? {
        ReadHistoryFailsLater(rows, i + 1, businessKey, projected);
        return Err(FlagNotBoolean);
      }
      if !rows[i].current.value {
        continue;
      }
      if key.value in currentByKey {
        ReadHistoryFailsLater(rows, i + 1, businessKey, projected);
        return Err(TwoCurrentRows);
      }
      var row := ProjectRow(rows[i].data, projected);
      if row.None? {
        ReadHistoryFailsLater(rows, i + 1, businessKey, projected);
        return Err(MissingProjectedColumn);
      }
      currentByKey := currentByKey[key.value := row.value];
    }
    r := Ok(History(currentByKey, allKeys));
  }

  lemma {:induction false} ReadHistoryFailsLater(
      rows: seq<HistoryRow>, n: nat, businessKey: seq<string>, projected: seq<string>)
    requires n <= |rows| && ReadHistory(rows[..n], businessKey, projected).Err?
    ensures ReadHistory(rows, businessKey, projected) == ReadHistory(rows[..n], businessKey, projected)
    decreases |rows|
  {
    hide NextHistoryRow;
    if n == |rows| {
      assert rows[..n] == rows;
    } else {
      assert rows[..|rows| - 1][..n] == rows[..n];
      ReadHistoryFailsLater(rows[..|rows| - 1], n, businessKey, projected);
    }
  }

  /** The row of a key to write, when the history has one that the target does not hold already. */
  predicate MustWrite(existing: Rows, current: Rows, key: Key) {
    key in current && Find(existing, key) != Some(current[key])
  }

  function WrittenRow(existing: Rows, current: Rows, key: Key): Columns
    requires MustWrite(existing, current, key)
  {
    current[key]
  }

  predicate MustDelete(existing: Rows, current: Rows, key: Key) {
    key !in current && key in existing
  }

  /** What the loop does with one more key. */
  function PlanKey(p: Projection, existing: Rows, current: Rows, key: Key): Projection {
    if MustDelete(existing, current, key) then
      Projection(p.rows - {key}, p.upserts, p.deletes + {key}, p.affected + 1,
                 p.mutations.(deleted := p.mutations.deleted + 1))
    else if MustWrite(existing, current, key) then
      var row := WrittenRow(existing, current, key);
      Projection(p.rows[key := row], p.upserts[key := row], p.deletes, p.affected + 1, CountWrite(p.mutations, existing, key))
    else p.(affected := p.affected + 1)
  }

  function CountWrite(m: Mutations, existing: Rows, key: Key): Mutations {
    if key in existing then m.(updated := m.updated + 1) else m.(inserted := m.inserted + 1)
  }

  /** The loop over the selected keys; their order does not matter. */
  method PlanKeys(existing: Rows, current: Rows, selected: set<Key>) returns (p: Projection)
    ensures IsProjection(p, existing, current, selected)
  {
    hide *;
    var remaining := selected;
    var result := existing;
    var upserts: Rows, deletes: set<Key> := map[], {};
    var inserted: nat, updated: nat, deleted: nat := 0, 0, 0;
    ghost var done: set<Key> := {};
    NothingPlanned(existing, current);
    while remaining != {}
      invariant done == selected - remaining && remaining <= selected
      invariant IsProjection(Projection(result, upserts, deletes, |done|, Mutations(inserted, updated, deleted)),
                             existing, current, done)
      decreases remaining
    {
      var key :| key in remaining;
      ghost var before := Projection(result, upserts, deletes, |done|, Mutations(inserted, updated, deleted));
      PlanKeyExtends(before, existing, current, done, key);
      PlanKeyBranches(before, existing, current, key);
      remaining := remaining - {key};
      done := done + {key};
      if key !in current {
        if key in existing {
          result := result - {key};
          deletes := deletes + {key};
          deleted := deleted + 1;
        }
      } else if key !in existing {
        result := result[key := current[key]];
        upserts := upserts[key := current[key]];
        inserted := inserted + 1;
      } else if existing[key] != current[key] {
        result := result[key := current[key]];
        upserts := upserts[key := current[key]];
        updated := updated + 1;
      }
      assert Projection(result, upserts, deletes, |done|, Mutations(inserted, updated, deleted))
             == PlanKey(before, existing, current, key);
    }
    assert done == selected;
    p := Projection(result, upserts, deletes, |selected|, Mutations(inserted, updated, deleted));
  }

  lemma NothingPlanned(existing: Rows, current: Rows)
    ensures IsProjection(Projection(existing, map[], {}, 0, Mutations(0, 0, 0)), existing, current, {})
  {
    var none: Rows := map[];
    assert none.Keys - existing.Keys == {} && none.Keys * existing.Keys == {};
  }

  lemma PlanKeyExtends(p: Projection, existing: Rows, current: Rows, done: set<Key>, key: Key)
    requires key !in done && IsProjection(p, existing, current, done)
    ensures IsProjection(PlanKey(p, existing, current, key), existing, current, done + {key})
  {
    hide *;
    ProjectionParts(p, existing, current, done);
    PlanKeyRows(p, existing, current, done, key);
    PlanKeyUpserts(p, existing, current, done, key);
    PlanKeyDeletes(p, existing, current, done, key);
    PlanKeyCounts(p, existing, current, done, key);
    ProjectionParts(PlanKey(p, existing, current, key), existing, current, done + {key});
  }

  lemma ProjectionParts(p: Projection, existing: Rows, current: Rows, selected: set<Key>)
    ensures IsProjection(p, existing, current, selected) <==>
              && FollowsHistory(p.rows, existing, current, selected)
              && p.upserts == UpsertsOf(existing, current, selected)
              && p.deletes == DeletesOf(existing, current, selected)
              && p.affected == |selected|
              && Counted(p.mutations, p.upserts.Keys, p.deletes, existing.Keys)
  {
    hide FollowsHistory, UpsertsOf, DeletesOf, Counted;
  }

  lemma PlanKeyUpserts(p: Projection, existing: Rows, current: Rows, done: set<Key>, key: Key)
    requires key !in done && p.upserts == UpsertsOf(existing, current, done)
    ensures PlanKey(p, existing, current, key).upserts == UpsertsOf(existing, current, done + {key})
  {
    hide UpsertsOf, MustWrite, MustDelete;
    UpsertsGrow(existing, current, done, key);
    NotBoth(existing, current, key);
  }

  lemma PlanKeyDeletes(p: Projection, existing: Rows, current: Rows, done: set<Key>, key: Key)
    requires key !in done && p.deletes == DeletesOf(existing, current, done)
    ensures PlanKey(p, existing, current, key).deletes == DeletesOf(existing, current, done + {key})
  {
    hide DeletesOf, MustWrite, MustDelete;
    DeletesGrow(existing, current, done, key);
  }

  lemma PlanKeyCounts(p: Projection, existing: Rows, current: Rows, done: set<Key>, key: Key)
    requires key !in done && IsProjection(p, existing, current, done)
    ensures var q := PlanKey(p, existing, current, key);
            q.affected == |done + {key}| && Counted(q.mutations, q.upserts.Keys, q.deletes, existing.Keys)
  {
    hide FollowsHistory, UpsertsOf, DeletesOf, Counted, MustWrite, MustDelete, Find;
    OneMoreSelected(done, key);
    NotPlannedYet(existing, current, done, key);
    if MustDelete(existing, current, key) {
      DeleteIsCounted(p.mutations, p.upserts.Keys, p.deletes, existing.Keys, key);
    } else if MustWrite(existing, current, key) {
      WriteIsCounted(p.mutations, p.upserts.Keys, p.deletes, existing, key);
      KeysOfUpdate(p.upserts, key, WrittenRow(existing, current, key));
    }
  }

  lemma OneMoreSelected(done: set<Key>, key: Key)
    requires key !in done
    ensures |done + {key}| == |done| + 1
  {
  }

  lemma NotPlannedYet(existing: Rows, current: Rows, done: set<Key>, key: Key)
    requires key !in done
    ensures key !in UpsertsOf(existing, current, done) && key !in DeletesOf(existing, current, done)
  {
  }

  lemma NotBoth(existing: Rows, current: Rows, key: Key)
    ensures !(MustWrite(existing, current, key) && MustDelete(existing, current, key))
  {
  }

  lemma PlanKeyRows(p: Projection, existing: Rows, current: Rows, done: set<Key>, key: Key)
    requires key !in done && FollowsHistory(p.rows, existing, current, done)
    ensures FollowsHistory(PlanKey(p, existing, current, key).rows, existing, current, done + {key})
  {
    var rows := PlanKey(p, existing, current, key).rows;
    forall k
      ensures Find(rows, k) == if k in done + {key} then Find(current, k) else Find(existing, k)
    {
      assert Find(p.rows, k) == if k in done then Find(current, k) else Find(existing, k);
    }
  }

  lemma DeleteIsCounted(m: Mutations, written: set<Key>, deletes: set<Key>, existing: set<Key>, key: Key)
    requires Counted(m, written, deletes, existing) && key !in deletes
    ensures Counted(m.(deleted := m.deleted + 1), written, deletes + {key}, existing)
  {
  }

  lemma WriteIsCounted(m: Mutations, written: set<Key>, deletes: set<Key>, existing: Rows, key: Key)
    requires Counted(m, written, deletes, existing.Keys) && key !in written
    ensures Counted(CountWrite(m, existing, key), written + {key}, deletes, existing.Keys)
  {
    CountsGrow(written, existing.Keys, key);
  }

  lemma KeysOfUpdate(t: Rows, key: Key, row: Columns)
    ensures t[key := row].Keys == t.Keys + {key}
  {
  }

  lemma CountsGrow(a: set<Key>, b: set<Key>, key: Key)
    requires key !in a
    ensures |(a + {key}) * b| == |a * b| + if key in b then 1 else 0
    ensures |(a + {key}) - b| == |a - b| + if key in b then 0 else 1
  {
    if key in b {
      assert (a + {key}) * b == (a * b) + {key};
      assert (a + {key}) - b == a - b;
    } else {
      assert (a + {key}) * b == a * b;
      assert (a + {key}) - b == (a - b) + {key};
    }
  }

  /** The step, branch by branch. */
  lemma PlanKeyBranches(p: Projection, existing: Rows, current: Rows, key: Key)
    ensures PlanKey(p, existing, current, key) ==
            if key !in current then
              if key in existing then
                Projection(p.rows - {key}, p.upserts, p.deletes + {key}, p.affected + 1,
                           p.mutations.(deleted := p.mutations.deleted + 1))
              else p.(affected := p.affected + 1)
            else if key !in existing then
              Projection(p.rows[key := current[key]], p.upserts[key := current[key]], p.deletes, p.affected + 1,
                         p.mutations.(inserted := p.mutations.inserted + 1))
            else if existing[key] != current[key] then
              Projection(p.rows[key := current[key]], p.upserts[key := current[key]], p.deletes, p.affected + 1,
                         p.mutations.(updated := p.mutations.updated + 1))
            else p.(affected := p.affected + 1)
  {
  }

  lemma UpsertsGrow(existing: Rows, current: Rows, done: set<Key>, key: Key)
    requires key !in done
    ensures key !in UpsertsOf(existing, current, done)
    ensures UpsertsOf(existing, current, done + {key}) ==
            if MustWrite(existing, current, key)
            then UpsertsOf(existing, current, done)[key := WrittenRow(existing, current, key)]
            else UpsertsOf(existing, current, done)
  {
    hide Find;
  }

  lemma DeletesGrow(existing: Rows, current: Rows, done: set<Key>, key: Key)
    requires key !in done
    ensures key !in DeletesOf(existing, current, done)
    ensures DeletesOf(existing, current, done + {key}) ==
            if MustDelete(existing, current, key) then DeletesOf(existing, current, done) + {key}
            else DeletesOf(existing, current, done)
  {
  }

  method ApplyCurrentProjection(
      existingRows: seq<Columns>, historyRows: seq<HistoryRow>, businessKey: seq<string>, projected: seq<string>,
      affected: Option<set<Key>>)
    returns (r: Result<Projection, ProjectionError>)
    ensures r.Ok? <==>
              && ValidColumns(businessKey, projected)
              && LoadRows(existingRows, businessKey).Ok?
              && ReadHistory(historyRows, businessKey, projected).Ok?
              && ValidAffected(affected, |businessKey|)
    ensures r.Ok? && affected.Some? ==> forall k | k in affected.value :: |k| == |businessKey| && Null !in k
    ensures r.Ok? ==>
              var existing := LoadRows(existingRows, businessKey).value;
              var history := ReadHistory(historyRows, businessKey, projected).value;
              IsProjection(r.value, existing, history.current, Selected(existing, history, affected))
  {
    if !ValidColumns(businessKey, projected) {
      return Err(InvalidConfiguration);
    }
    var existing := LoadTarget(existingRows, businessKey);
    if existing.Err? {
      return Err(existing.error);
    }
    var history := ScanHistory(historyRows, businessKey, projected);
    if history.Err? {
      return Err(history.error);
    }
    if !ValidAffected(affected, |businessKey|) {
      return Err(BadAffectedKey);
    }
    var p := PlanKeys(existing.value, history.value.current, Selected(existing.value, history.value, affected));
    r := Ok(p);
  }

  // ---------------------------------------------------------------- the target

  /** Deletes first, then upserts. */
  function Patch(t: Rows, upserts: Rows, deletes: set<Key>): Rows {
    (t - deletes) + upserts
  }

  /** The rows of the target whose key is selected. */
  function Scope(t: Rows, keys: set<Key>): Rows {
    map k | k in t && k in keys :: t[k]
  }

  class InMemoryCurrentProjectionTarget {
    var rows: seq<Columns>

    constructor (rows: seq<Columns>)
      ensures this.rows == rows
    {
      this.rows := rows;
    }

    method ReadProjectionRows(businessKey: seq<string>, affected: Option<set<Key>>) returns (selected: seq<Columns>)
      ensures affected.None? ==> selected == rows
      ensures affected.Some? ==> selected == RowsWithin(rows, businessKey, affected.value)
      ensures LoadRows(rows, businessKey).Ok? ==>
                LoadRows(selected, businessKey) ==
                Ok(if affected.None? then LoadRows(rows, businessKey).value
                   else Scope(LoadRows(rows, businessKey).value, affected.value))
    {
      if affected.None? {
        return rows;
      }
      selected := [];
      assert rows[..|rows|] == rows;
      for i := 0 to |rows|
        invariant selected == RowsWithin(rows[..i], businessKey, affected.value)
      {
        assert rows[..i + 1][..i] == rows[..i];
        if KeyValues(rows[i], businessKey) in affected.value {
          selected := selected + [rows[i]];
        }
      }
      if LoadRows(rows, businessKey).Ok? {
        LoadOfRowsWithin(rows, businessKey, affected.value);
      }
    }

    /** Replaces the stored rows; the order of the new listing is not fixed here. */
    method ApplyProjection(p: Projection, businessKey: seq<string>) returns (r: Result<Mutations, ProjectionError>)
      requires forall k | k in p.upserts :: KeyOf(p.upserts[k], businessKey) == Some(k)
      modifies this
      ensures r.Ok? <==> LoadRows(old(rows), businessKey).Ok?
      ensures r.Ok? ==>
                && r.value == p.mutations
                && LoadRows(rows, businessKey) == Ok(Patch(LoadRows(old(rows), businessKey).value, p.upserts, p.deletes))
      ensures r.Err? ==> rows == old(rows)
    {
      var loaded := LoadTarget(rows, businessKey);
      if loaded.Err? {
        return Err(loaded.error);
      }
      LoadedRowsAreKeyed(rows, businessKey);
      var byKey := loaded.value - p.deletes;
      byKey := byKey + p.upserts;
      rows := ListRows(byKey, businessKey);
      r := Ok(p.mutations);
    }
  }

  /** A listing of the rows of a table by key, in some order. */
  method ListRows(byKey: Rows, businessKey: seq<string>) returns (listed: seq<Columns>)
    requires forall k | k in byKey :: KeyOf(byKey[k], businessKey) == Some(k)
    ensures LoadRows(listed, businessKey) == Ok(byKey)
  {
    hide KeyOf, Scope;
    listed := [];
    var remaining := byKey.Keys;
    ghost var done: set<Key> := {};
    ScopeLimits(byKey, {});
    while remaining != {}
      invariant done == byKey.Keys - remaining && remaining <= byKey.Keys
      invariant LoadRows(listed, businessKey) == Ok(Scope(byKey, done))
      decreases remaining
    {
      var key :| key in remaining;
      ScopeGrows(byKey, done, key);
      assert (listed + [byKey[key]])[..|listed|] == listed;
      listed := listed + [byKey[key]];
      remaining := remaining - {key};
      done := done + {key};
    }
    assert done == byKey.Keys;
  }

  /** The scope of no keys, of all keys, and of an empty table. */
  lemma ScopeLimits(t: Rows, keys: set<Key>)
    ensures Scope(t, {}) == map[] && Scope(t, t.Keys) == t && Scope(map[], keys) == map[]
  {
  }

  lemma ScopeGrows(t: Rows, done: set<Key>, key: Key)
    requires key in t && key !in done
    ensures key !in Scope(t, done) && Scope(t, done + {key}) == Scope(t, done)[key := t[key]]
  {
  }

  lemma ScopeOfUpdate(t: Rows, keys: set<Key>, key: Key, row: Columns)
    ensures Scope(t[key := row], keys) == if key in keys then Scope(t, keys)[key := row] else Scope(t, keys)
    ensures key in Scope(t, keys) <==> key in t && key in keys
  {
  }

  /** The list comprehension of read_projection_rows. */
  function RowsWithin(rows: seq<Columns>, businessKey: seq<string>, keys: set<Key>): seq<Columns> {
    if rows == [] then []
    else
      var rest := RowsWithin(rows[..|rows| - 1], businessKey, keys);
      if KeyValues(rows[|rows| - 1], businessKey) in keys then rest + [rows[|rows| - 1]] else rest
  }

  lemma {:induction false} LoadOfRowsWithin(rows: seq<Columns>, businessKey: seq<string>, keys: set<Key>)
    requires LoadRows(rows, businessKey).Ok?
    ensures LoadRows(RowsWithin(rows, businessKey, keys), businessKey) == Ok(Scope(LoadRows(rows, businessKey).value, keys))
  {
    hide KeyOf, Scope, KeyValues;
    if rows == [] {
      ScopeLimits(map[], keys);
    } else {
      var prefix, last := rows[..|rows| - 1], rows[|rows| - 1];
      LoadOfRowsWithin(prefix, businessKey, keys);
      var rest := RowsWithin(prefix, businessKey, keys);
      assert (rest + [last])[..|rest|] == rest;
      KeyOfSpells(last, businessKey);
      ScopeOfUpdate(LoadRows(prefix, businessKey).value, keys, KeyOf(last, businessKey).value, last);
    }
  }

  lemma KeyOfSpells(row: Columns, businessKey: seq<string>)
    ensures KeyOf(row, businessKey).Some? ==> KeyOf(row, businessKey).value == KeyValues(row, businessKey)
  {
  }

  lemma {:induction false} LoadedRowsAreKeyed(rows: seq<Columns>, businessKey: seq<string>)
    requires LoadRows(rows, businessKey).Ok?
    ensures var t := LoadRows(rows, businessKey).value; forall k | k in t :: KeyOf(t[k], businessKey) == Some(k)
  {
    hide KeyOf;
    if rows != [] {
      LoadedRowsAreKeyed(rows[..|rows| - 1], businessKey);
    }
  }

  // ---------------------------------------------------------------- incremental equals rebuild

  /** The history rows of the affected keys. */
  function HistoryWithin(rows: seq<HistoryRow>, businessKey: seq<string>, keys: set<Key>): seq<HistoryRow> {
    if rows == [] then []
    else
      var rest := HistoryWithin(rows[..|rows| - 1], businessKey, keys);
      if KeyValues(rows[|rows| - 1].data, businessKey) in keys then rest + [rows[|rows| - 1]] else rest
  }

  /** Reading the history of some keys only gives the current rows of these keys. */
  lemma {:induction false} ScopedHistoryReads(
      rows: seq<HistoryRow>, businessKey: seq<string>, projected: seq<string>, keys: set<Key>)
    requires ReadHistory(rows, businessKey, projected).Ok?
    ensures var scoped := ReadHistory(HistoryWithin(rows, businessKey, keys), businessKey, projected);
            scoped.Ok? && scoped.value.current == Scope(ReadHistory(rows, businessKey, projected).value.current, keys)
  {
    hide KeyOf, Scope, KeyValues, ProjectRow;
    if rows == [] {
      ScopeLimits(map[], keys);
    } else {
      var prefix, last := rows[..|rows| - 1], rows[|rows| - 1];
      ScopedHistoryReads(prefix, businessKey, projected, keys);
      var rest := HistoryWithin(prefix, businessKey, keys);
      assert (rest + [last])[..|rest|] == rest;
      KeyOfSpells(last.data, businessKey);
      var h := ReadHistory(prefix, businessKey, projected).value;
      if last.current == Some(true) {
        ScopeOfUpdate(h.current, keys, KeyOf(last.data, businessKey).value, ProjectRow(last.data, projected).value);
      }
    }
  }

  /** A current row is filed under the key that its own columns spell. */
  lemma {:induction false} CurrentRowsAreKeyed(rows: seq<HistoryRow>, businessKey: seq<string>, projected: seq<string>)
    requires ReadHistory(rows, businessKey, projected).Ok? && ValidColumns(businessKey, projected)
    ensures var h := ReadHistory(rows, businessKey, projected).value;
            && (forall k | k in h.current :: KeyOf(h.current[k], businessKey) == Some(k))
            && h.current.Keys <= h.keys
  {
    if rows != [] {
      var prefix, last := rows[..|rows| - 1], rows[|rows| - 1];
      CurrentRowsAreKeyed(prefix, businessKey, projected);
      if last.current == Some(true) {
        KeyOfAgrees(ProjectRow(last.data, projected).value, last.data, businessKey);
      }
    }
  }

  /** Patching the whole target with a plan made from the selected rows alone. */
  lemma PatchFollowsHistory(t: Rows, read: Rows, current: Rows, scoped: Rows, selected: set<Key>, p: Projection)
    requires IsProjection(p, read, scoped, selected)
    requires forall k | k in selected :: Find(read, k) == Find(t, k) && Find(scoped, k) == Find(current, k)
    ensures FollowsHistory(Patch(t, p.upserts, p.deletes), t, current, selected)
  {
    hide FollowsHistory, Patch, UpsertsOf, DeletesOf, Find;
    FollowsHistoryPointwise(t, current, selected, p);
    forall k
      ensures Find(Patch(t, p.upserts, p.deletes), k) == if k in selected then Find(current, k) else Find(t, k)
    {
      if k in selected {
        assert Find(read, k) == Find(t, k) && Find(scoped, k) == Find(current, k);
      }
      PatchedRow(t, read, current, scoped, selected, p, k);
    }
  }

  lemma FollowsHistoryPointwise(t: Rows, current: Rows, selected: set<Key>, p: Projection)
    ensures (forall k :: Find(Patch(t, p.upserts, p.deletes), k) == if k in selected then Find(current, k) else Find(t, k))
            ==> FollowsHistory(Patch(t, p.upserts, p.deletes), t, current, selected)
  {
    hide Patch, Find;
  }

  lemma PatchedRow(t: Rows, read: Rows, current: Rows, scoped: Rows, selected: set<Key>, p: Projection, k: Key)
    requires p.upserts == UpsertsOf(read, scoped, selected) && p.deletes == DeletesOf(read, scoped, selected)
    requires k in selected ==> Find(read, k) == Find(t, k) && Find(scoped, k) == Find(current, k)
    ensures Find(Patch(t, p.upserts, p.deletes), k) == if k in selected then Find(current, k) else Find(t, k)
  {
    assert k in p.upserts <==> k in selected && k in scoped && Find(read, k) != Some(scoped[k]);
    assert k in p.deletes <==> k in selected && k !in scoped && k in read;
  }

  /** Reading only the affected keys, planning and patching gives the whole target that a full rebuild
      from the complete history gives, provided the target was right on every other key. */
  lemma IncrementalEqualsRebuild(
      t: Rows, historyRows: seq<HistoryRow>, businessKey: seq<string>, projected: seq<string>,
      affected: set<Key>, incremental: Projection, rebuild: Projection)
    requires ReadHistory(historyRows, businessKey, projected).Ok? && ValidColumns(businessKey, projected)
    requires forall k | k !in affected :: Find(t, k) == Find(ReadHistory(historyRows, businessKey, projected).value.current, k)
    requires var scoped := ReadHistory(HistoryWithin(historyRows, businessKey, affected), businessKey, projected);
             scoped.Ok? ==> IsProjection(incremental, Scope(t, affected), scoped.value.current, affected)
    requires var history := ReadHistory(historyRows, businessKey, projected).value;
             IsProjection(rebuild, t, history.current, Selected(t, history, None))
    ensures Patch(t, incremental.upserts, incremental.deletes) == rebuild.rows
    ensures rebuild.rows == ReadHistory(historyRows, businessKey, projected).value.current
    ensures Patch(t, rebuild.upserts, rebuild.deletes) == rebuild.rows
  {
    hide KeyOf, Patch, ReadHistory, HistoryWithin, ValidColumns, IsProjection, Find, Scope, Selected;
    var history := ReadHistory(historyRows, businessKey, projected).value;
    ScopedHistoryReads(historyRows, businessKey, projected, affected);
    CurrentRowsAreKeyed(historyRows, businessKey, projected);
    ScopeFinds(t, affected);
    ScopeFinds(history.current, affected);
    PatchIsHistory(t, Scope(t, affected), history.current, Scope(history.current, affected), affected, incremental);
    AllSelected(t, history);
    PatchIsHistory(t, t, history.current, history.current, Selected(t, history, None), rebuild);
    RowsAreHistory(rebuild, t, history.current, Selected(t, history, None));
  }

  lemma ScopeFinds(t: Rows, keys: set<Key>)
    ensures forall k | k in keys :: Find(Scope(t, keys), k) == Find(t, k)
  {
  }

  lemma AllSelected(t: Rows, history: History)
    requires history.current.Keys <= history.keys
    ensures forall k | k !in Selected(t, history, None) :: Find(t, k) == Find(history.current, k)
  {
  }

  lemma RowsAreHistory(p: Projection, t: Rows, current: Rows, selected: set<Key>)
    requires IsProjection(p, t, current, selected)
    requires forall k | k !in selected :: Find(t, k) == Find(current, k)
    ensures p.rows == current
  {
    SameRows(p.rows, current);
  }

  lemma PatchIsHistory(t: Rows, read: Rows, current: Rows, scoped: Rows, selected: set<Key>, p: Projection)
    requires IsProjection(p, read, scoped, selected)
    requires forall k | k in selected :: Find(read, k) == Find(t, k) && Find(scoped, k) == Find(current, k)
    requires forall k | k !in selected :: Find(t, k) == Find(current, k)
    ensures Patch(t, p.upserts, p.deletes) == current
  {
    hide Patch, UpsertsOf, DeletesOf, Find, IsProjection;
    PatchFollowsHistory(t, read, current, scoped, selected, p);
    SameRows(Patch(t, p.upserts, p.deletes), current);
  }

  lemma SameRows(a: Rows, b: Rows)
    requires forall k :: Find(a, k) == Find(b, k)
    ensures a == b
  {
    forall k ensures (k in a <==> k in b) && (k in a ==> a[k] == b[k]) {
      assert Find(a, k) == Find(b, k);
    }
  }

  /** Every planned mutation changes a row, and planning again on the patched target finds nothing to do. */
  lemma MutationsAreNeededOnce(t: Rows, current: Rows, selected: set<Key>, p: Projection, again: Projection)
    requires IsProjection(p, t, current, selected)
    requires IsProjection(again, Patch(t, p.upserts, p.deletes), current, selected)
    ensures forall k | k in p.upserts :: Find(t, k) != Some(p.upserts[k])
    ensures forall k | k in p.deletes :: k in t
    ensures p.upserts.Keys !! p.deletes
    ensures again.upserts == map[] && again.deletes == {} && again.mutations == Mutations(0, 0, 0)
    ensures again.rows == Patch(t, p.upserts, p.deletes)
  {
    var patched := Patch(t, p.upserts, p.deletes);
    assert FollowsHistory(patched, t, current, selected) by {
      hide Patch, IsProjection;
      PatchFollowsHistory(t, t, current, current, selected, p);
    }
    SettledPlansNothing(patched, t, current, selected, again);
  }

  lemma SettledPlansNothing(patched: Rows, t: Rows, current: Rows, selected: set<Key>, again: Projection)
    requires FollowsHistory(patched, t, current, selected) && IsProjection(again, patched, current, selected)
    ensures again.upserts == map[] && again.deletes == {} && again.mutations == Mutations(0, 0, 0)
    ensures again.rows == patched
  {
    forall k | k in selected ensures Find(patched, k) == Find(current, k) {
    }
    assert again.upserts == map[];
    assert again.deletes == {};
    assert again.upserts.Keys - patched.Keys == {} && again.upserts.Keys * patched.Keys == {};
    SameRows(again.rows, patched);
  }
}
