/** What ordered current-state apply means (apply/current_state.py): the row at the greatest position wins,
    whatever the order of the rows and however they are split into batches. */
module CurrentStateWins {
  import opened Common
  import opened CurrentState
  import opened ValueOrder

  /** The rows of a key. */
  function OfKey(rows: set<Columns>, k: Key, config: Config): set<Columns> {
    set r | r in rows && KeyOf(r, config.mergeKey) == Some(k)
  }

  /** A row of the set that every other row of the set stands before. */
  ghost predicate IsLatest(w: Columns, rows: set<Columns>, config: Config) {
    && w in rows
    && forall x | x in rows :: x == w || Before(PositionOf(x, config), PositionOf(w, config))
  }

  lemma LatestIsUnique(a: Columns, b: Columns, rows: set<Columns>, config: Config)
    requires IsLatest(a, rows, config) && IsLatest(b, rows, config)
    ensures a == b
  {
    hide Before, PositionOf;
    if a != b {
      BeforeTransitive(PositionOf(a, config), PositionOf(b, config), PositionOf(a, config));
      BeforeIrreflexive(PositionOf(a, config));
    }
  }

  /** The latest of the winners of two sets is the latest of both. */
  lemma LatestOfWinners(a: Columns, s: set<Columns>, b: Columns, t: set<Columns>, w: Columns, config: Config)
    requires IsLatest(a, s, config) && IsLatest(b, t, config) && IsLatest(w, {a, b}, config)
    ensures IsLatest(w, s + t, config)
  {
    hide Before, PositionOf;
    forall x | x in s + t ensures x == w || Before(PositionOf(x, config), PositionOf(w, config)) {
      var winner := if x in s then a else b;
      assert winner in {a, b};
      if x != winner && winner != w {
        BeforeTransitive(PositionOf(x, config), PositionOf(winner, config), PositionOf(w, config));
      }
    }
  }

  /** Every key of the rows is in the table with its latest row, and no other key is. */
  ghost predicate HoldsLatest(t: Table, rows: set<Columns>, config: Config) {
    forall k :: LatestAt(Find(t, k), OfKey(rows, k, config), config)
  }

  ghost predicate LatestAt(row: Option<Columns>, rows: set<Columns>, config: Config) {
    match row
    case None => rows == {}
    case Some(w) => IsLatest(w, rows, config)
  }

  lemma TablesHoldingTheSameRowsAreEqual(a: Table, b: Table, rows: set<Columns>, config: Config)
    requires HoldsLatest(a, rows, config) && HoldsLatest(b, rows, config)
    ensures a == b
  {
    hide IsLatest, OfKey;
    forall k ensures Find(a, k) == Find(b, k) {
      assert LatestAt(Find(a, k), OfKey(rows, k, config), config);
      assert LatestAt(Find(b, k), OfKey(rows, k, config), config);
      if k in a && k in b {
        LatestIsUnique(a[k], b[k], OfKey(rows, k, config), config);
      } else if k in a {
        assert IsLatest(a[k], OfKey(rows, k, config), config);
        LatestIsMember(a[k], OfKey(rows, k, config), config);
      } else if k in b {
        LatestIsMember(b[k], OfKey(rows, k, config), config);
      }
    }
    forall k ensures (k in a <==> k in b) && (k in a ==> a[k] == b[k]) {
      assert Find(a, k) == Find(b, k);
    }
  }

  lemma LatestIsMember(w: Columns, rows: set<Columns>, config: Config)
    requires IsLatest(w, rows, config)
    ensures w in rows
  {
  }

  // ---------------------------------------------------------------- selection

  lemma ContendPicksLatest(current: Columns, row: Columns, rows: set<Columns>, config: Config)
    requires config.ordering != [] && IsLatest(current, rows, config) && Contend(current, row, config).Ok?
    ensures IsLatest(Contend(current, row, config).value.0, rows + {row}, config)
  {
    hide KeyValues, Ordered;
    var a, b := PositionOf(row, config), PositionOf(current, config);
    CompareMirrors(a, b);
    LatestOfOne(row, config);
    LatestOfOne(current, config);
    var w := Contend(current, row, config).value.0;
    assert IsLatest(w, {current, row}, config);
    LatestOfWinners(current, rows, row, {row}, w, config);
  }

  lemma LatestOfOne(row: Columns, config: Config)
    ensures IsLatest(row, {row}, config)
  {
  }

  lemma OfKeyGrows(rows: set<Columns>, row: Columns, k: Key, config: Config)
    ensures OfKey(rows + {row}, k, config) ==
            if KeyOf(row, config.mergeKey) == Some(k) then OfKey(rows, k, config) + {row} else OfKey(rows, k, config)
  {
    hide KeyOf;
  }

  lemma SelectRowHoldsLatest(s: Selection, row: Columns, rows: set<Columns>, config: Config)
    requires config.ordering != [] && HoldsLatest(s.byKey, rows, config) && SelectRow(s, row, config).Ok?
    ensures HoldsLatest(SelectRow(s, row, config).value.byKey, rows + {row}, config)
  {
    hide KeyOf, IsLatest, OfKey, Contend, Ordered;
    var next := SelectRow(s, row, config).value.byKey;
    var mine := KeyOf(row, config.mergeKey).value;
    forall k ensures LatestAt(Find(next, k), OfKey(rows + {row}, k, config), config) {
      assert LatestAt(Find(s.byKey, k), OfKey(rows, k, config), config);
      OfKeyGrows(rows, row, k, config);
      if k == mine {
        if k in s.byKey {
          ContendPicksLatest(s.byKey[k], row, OfKey(rows, k, config), config);
          DuplicateIsCurrent(s.byKey[k], row, config);
        } else {
          LatestOfOne(row, config);
          assert OfKey(rows + {row}, k, config) == {row};
        }
      }
    }
  }

  lemma DuplicateIsCurrent(current: Columns, row: Columns, config: Config)
    ensures var c := Contend(current, row, config); c.Ok? && c.value.1 ==> c.value.0 == current
  {
  }

  /** The selection holds the latest incoming row of every key. */
  lemma {:induction false} SelectionHoldsLatest(rows: seq<Columns>, config: Config)
    requires config.ordering != [] && Select(rows, config).Ok?
    ensures HoldsLatest(Select(rows, config).value.byKey, ToSet(rows), config)
    decreases |rows|
  {
    hide HoldsLatest, SelectRow;
    if rows == [] {
      NothingHeld(config);
      assert ToSet(rows) == {};
    } else {
      var prefix, last := rows[..|rows| - 1], rows[|rows| - 1];
      SelectionHoldsLatest(prefix, config);
      SelectRowHoldsLatest(Select(prefix, config).value, last, ToSet(prefix), config);
      assert rows == prefix + [last];
      assert ToSet(rows) == ToSet(prefix) + {last};
    }
  }

  /** Every incoming row is the candidate of its key, a duplicate or superseded. */
  lemma {:induction false} SelectedRowsAreCounted(rows: seq<Columns>, config: Config)
    requires Select(rows, config).Ok?
    ensures var s := Select(rows, config).value; |rows| == |s.byKey.Keys| + s.duplicates + s.superseded
    decreases |rows|
  {
    hide KeyOf, Contend, Ordered;
    if rows != [] {
      var prefix := rows[..|rows| - 1];
      SelectedRowsAreCounted(prefix, config);
      var before, after := Select(prefix, config).value.byKey.Keys, Select(rows, config).value.byKey.Keys;
      var k := KeyOf(rows[|rows| - 1], config.mergeKey).value;
      assert after == before + {k};
    }
  }

  lemma NothingHeld(config: Config)
    ensures HoldsLatest(map[], {}, config)
  {
  }

  // ---------------------------------------------------------------- merging

  /** All rows have the same columns. */
  ghost predicate Uniform(rows: set<Columns>, columns: set<string>) {
    forall r | r in rows :: r.Keys == columns
  }

  lemma MergePicksLatest(current: Columns, candidate: Columns, config: Config)
    requires config.ordering != [] && current.Keys == candidate.Keys && MergeKey(Some(current), candidate, config).Ok?
    ensures IsLatest(MergeKey(Some(current), candidate, config).value.row, {current, candidate}, config)
  {
    hide KeyValues, Ordered, Merged;
    MergedIsCandidate(current, candidate);
    CompareMirrors(PositionOf(candidate, config), PositionOf(current, config));
  }

  lemma OfKeyOfUnion(s: set<Columns>, t: set<Columns>, k: Key, config: Config)
    ensures OfKey(s + t, k, config) == OfKey(s, k, config) + OfKey(t, k, config)
  {
    hide KeyOf;
  }

  /** The table after one accepted batch. */
  function ApplyTable(t: Table, incoming: seq<Columns>, config: Config): Result<Table, ApplyError> {
    var s := Select(incoming, config);
    if s.Err? then Err(s.error)
    else if !AllMerge(t, s.value.byKey, s.value.byKey.Keys, config) then Err(EqualPositionConflict)
    else Ok(map k | k in t.Keys + s.value.byKey.Keys ::
              if k in s.value.byKey then MergeAt(t, s.value.byKey, k, config).value.row else t[k])
  }

  /** That is the table that the engine's outcome holds. */
  lemma OutcomeIsApplyTable(existing: seq<Columns>, incoming: seq<Columns>, config: Config, o: Outcome)
    requires Accepts(existing, incoming, config) && Produces(existing, incoming, config, o)
    ensures ApplyTable(Load(existing, config).value, incoming, config) == Ok(o.rows)
  {
    hide MergeKey, Fated, ValidConfig, Load, Select;
    var t, s := Load(existing, config).value, Select(incoming, config).value;
    var rows := ApplyTable(t, incoming, config).value;
    forall k ensures (k in rows <==> k in o.rows) && (k in rows ==> rows[k] == o.rows[k]) {
      assert Find(o.rows, k) == RowAfter(t, s.byKey, s.byKey.Keys, k, config);
    }
    assert rows == o.rows;
  }

  lemma AppliedRow(t: Table, incoming: seq<Columns>, config: Config, k: Key)
    requires ApplyTable(t, incoming, config).Ok?
    ensures Select(incoming, config).Ok?
    ensures var s := Select(incoming, config).value.byKey;
            && (k in s ==> MergeAt(t, s, k, config).Ok?)
            && Find(ApplyTable(t, incoming, config).value, k) ==
               if k in s then Some(MergeAt(t, s, k, config).value.row) else Find(t, k)
  {
    hide MergeKey, Select;
  }

  lemma UniformRow(row: Columns, rows: set<Columns>, columns: set<string>, k: Key, config: Config)
    requires Uniform(rows, columns) && IsLatest(row, OfKey(rows, k, config), config)
    ensures row.Keys == columns
  {
    hide KeyOf;
  }

  lemma KeyAfterBatch(
      t: Table, seen: set<Columns>, incoming: seq<Columns>, columns: set<string>, config: Config, k: Key)
    requires config.ordering != [] && HoldsLatest(t, seen, config) && ApplyTable(t, incoming, config).Ok?
    requires Uniform(seen, columns) && Uniform(ToSet(incoming), columns)
    ensures LatestAt(Find(ApplyTable(t, incoming, config).value, k), OfKey(seen + ToSet(incoming), k, config), config)
  {
    hide KeyOf, IsLatest, OfKey, MergeKey, ApplyTable, Select, Uniform;
    AppliedRow(t, incoming, config, k);
    SelectionHoldsLatest(incoming, config);
    var s := Select(incoming, config).value.byKey;
    var mine, theirs := OfKey(seen, k, config), OfKey(ToSet(incoming), k, config);
    OfKeyOfUnion(seen, ToSet(incoming), k, config);
    assert LatestAt(Find(t, k), mine, config);
    assert LatestAt(Find(s, k), theirs, config);
    if k in s && k in t {
      UniformRow(t[k], seen, columns, k, config);
      UniformRow(s[k], ToSet(incoming), columns, k, config);
      MergePicksLatest(t[k], s[k], config);
      LatestOfWinners(t[k], mine, s[k], theirs, MergeAt(t, s, k, config).value.row, config);
    } else if k in s {
      OnlyNewKeysAreInserted(None, s[k], config);
      assert mine + theirs == theirs;
    } else {
      assert mine + theirs == mine;
    }
  }

  // ---------------------------------------------------------------- runs of batches

  function RunBatches(t: Table, batches: seq<seq<Columns>>, config: Config): Result<Table, ApplyError> {
    if batches == [] then Ok(t)
    else
      var before := RunBatches(t, batches[..|batches| - 1], config);
      if before.Err? then before else ApplyTable(before.value, batches[|batches| - 1], config)
  }

  function RowsIn(batches: seq<seq<Columns>>): set<Columns> {
    if batches == [] then {} else RowsIn(batches[..|batches| - 1]) + ToSet(batches[|batches| - 1])
  }

  /** Whatever the batches, the table ends with the row at the greatest position of every key. */
  lemma {:induction false} LatestRowWins(
      t: Table, seen: set<Columns>, batches: seq<seq<Columns>>, columns: set<string>, config: Config)
    requires config.ordering != [] && HoldsLatest(t, seen, config)
    requires Uniform(seen, columns) && Uniform(RowsIn(batches), columns)
    requires RunBatches(t, batches, config).Ok?
    ensures HoldsLatest(RunBatches(t, batches, config).value, seen + RowsIn(batches), config)
    decreases |batches|
  {
    hide LatestAt, OfKey, ApplyTable, Find;
    if batches == [] {
      assert seen + RowsIn(batches) == seen;
    } else {
      var prefix, last := batches[..|batches| - 1], batches[|batches| - 1];
      LatestRowWins(t, seen, prefix, columns, config);
      var before := RunBatches(t, prefix, config).value;
      assert seen + RowsIn(batches) == (seen + RowsIn(prefix)) + ToSet(last);
      forall k
        ensures LatestAt(Find(ApplyTable(before, last, config).value, k), OfKey(seen + RowsIn(batches), k, config), config)
      {
        KeyAfterBatch(before, seen + RowsIn(prefix), last, columns, config, k);
      }
    }
  }

  lemma {:induction false} LoadedHoldsLatest(rows: seq<Columns>, config: Config)
    requires Load(rows, config).Ok?
    ensures HoldsLatest(Load(rows, config).value, ToSet(rows), config)
  {
    hide KeyOf, HoldsLatest;
    if rows == [] {
      NothingHeld(config);
      assert ToSet(rows) == {};
    } else {
      var prefix, last := rows[..|rows| - 1], rows[|rows| - 1];
      LoadedHoldsLatest(prefix, config);
      assert rows == prefix + [last];
      assert ToSet(rows) == ToSet(prefix) + {last};
      NewKeyHoldsLatest(Load(prefix, config).value, ToSet(prefix), last, KeyOf(last, config.mergeKey).value, config);
    }
  }

  /** A row of a key that the table does not hold yet. */
  lemma NewKeyHoldsLatest(t: Table, rows: set<Columns>, last: Columns, mine: Key, config: Config)
    requires HoldsLatest(t, rows, config) && KeyOf(last, config.mergeKey) == Some(mine) && mine !in t
    ensures HoldsLatest(t[mine := last], rows + {last}, config)
  {
    hide KeyOf, IsLatest, OfKey, Ordered;
    forall k ensures LatestAt(Find(t[mine := last], k), OfKey(rows + {last}, k, config), config) {
      assert LatestAt(Find(t, k), OfKey(rows, k, config), config);
      OfKeyGrows(rows, last, k, config);
      if k == mine {
        LatestOfOne(last, config);
        assert OfKey(rows + {last}, k, config) == {last};
      }
    }
  }

  /** Two runs from the same target over the same rows, in any order, with any repetitions and cut into any
      batches, end with the same table whenever both succeed. */
  lemma OrderAndSplitDoNotMatter(
      existing: seq<Columns>, a: seq<seq<Columns>>, b: seq<seq<Columns>>, columns: set<string>, config: Config)
    requires config.ordering != [] && Load(existing, config).Ok?
    requires RowsIn(a) == RowsIn(b) && Uniform(ToSet(existing) + RowsIn(a), columns)
    requires RunBatches(Load(existing, config).value, a, config).Ok?
    requires RunBatches(Load(existing, config).value, b, config).Ok?
    ensures RunBatches(Load(existing, config).value, a, config) == RunBatches(Load(existing, config).value, b, config)
  {
    hide HoldsLatest, RunBatches, Load;
    var t, seen := Load(existing, config).value, ToSet(existing);
    LoadedHoldsLatest(existing, config);
    LatestRowWins(t, seen, a, columns, config);
    LatestRowWins(t, seen, b, columns, config);
    TablesHoldingTheSameRowsAreEqual(
      RunBatches(t, a, config).value, RunBatches(t, b, config).value, seen + RowsIn(a), config);
  }

  // ---------------------------------------------------------------- reruns

  /** Merging the same candidate once more. */
  lemma RerunOfKey(current: Option<Columns>, candidate: Columns, config: Config)
    requires config.ordering != [] && MergeKey(current, candidate, config).Ok?
    ensures var m := MergeKey(current, candidate, config).value;
            var again := MergeKey(Some(m.row), candidate, config);
            && (again.Ok? <==> (m.fate.Updated? ==> current.value.Keys <= candidate.Keys))
            && (again.Ok? ==> again.value.row == m.row && (again.value.fate.Duplicate? || again.value.fate.IgnoredAsStale?))
            && (again.Err? ==> again.error.EqualPositionConflict?)
  {
    hide KeyValues, Merged, Compare;
    var m := MergeKey(current, candidate, config).value;
    if m.fate.Updated? {
      MergedPosition(current.value, candidate, config);
      MergedIsCandidate(current.value, candidate);
      CompareEqual(PositionOf(candidate, config), PositionOf(m.row, config));
    }
  }

  /** The ordering columns come from the candidate. */
  lemma MergedPosition(current: Columns, candidate: Columns, config: Config)
    requires Ordered(candidate, config)
    ensures PositionOf(Merged(current, candidate), config) == PositionOf(candidate, config)
  {
    var a, b := PositionOf(Merged(current, candidate), config), PositionOf(candidate, config);
    forall i | 0 <= i < |a| ensures a[i] == b[i] {
      assert b[i] == Cell(candidate, config.ordering[i]) && b[i] in b;
    }
  }

  lemma MergedIsCandidate(current: Columns, candidate: Columns)
    ensures Merged(current, candidate) == candidate <==> current.Keys <= candidate.Keys
  {
    if Merged(current, candidate) == candidate {
      assert Merged(current, candidate).Keys == current.Keys + candidate.Keys;
    }
  }

  /** Every updated row brought all columns of the row it updated. */
  predicate BringsEveryColumn(t: Table, candidates: Table, config: Config) {
    forall k | k in candidates && MergeAt(t, candidates, k, config).Ok? && MergeAt(t, candidates, k, config).value.fate.Updated? ::
      Find(t, k).Some? && t[k].Keys <= candidates[k].Keys
  }

  lemma UpdatedWasThere(current: Option<Columns>, candidate: Columns, config: Config)
    ensures var m := MergeKey(current, candidate, config); m.Ok? && m.value.fate.Updated? ==> current.Some?
  {
  }

  /** Repeating an accepted batch is accepted exactly when every updated row brought all columns of the row
      it updated, and then it changes nothing; otherwise it conflicts with the fields that were kept. */
  lemma RerunIsAcceptedExactlyWhen(t: Table, incoming: seq<Columns>, config: Config)
    requires config.ordering != [] && ApplyTable(t, incoming, config).Ok?
    ensures var rows, s := ApplyTable(t, incoming, config).value, Select(incoming, config).value.byKey;
            && (ApplyTable(rows, incoming, config).Ok? <==> BringsEveryColumn(t, s, config))
            && (ApplyTable(rows, incoming, config).Ok? ==> ApplyTable(rows, incoming, config).value == rows)
  {
    hide MergeKey, Select;
    var rows, s := ApplyTable(t, incoming, config).value, Select(incoming, config).value.byKey;
    forall k | k in s
      ensures MergeAt(rows, s, k, config).Ok? <==>
              (MergeAt(t, s, k, config).value.fate.Updated? ==> Find(t, k).Some? && t[k].Keys <= s[k].Keys)
      ensures MergeAt(rows, s, k, config).Ok? ==> MergeAt(rows, s, k, config).value.row == rows[k]
    {
      AppliedRow(t, incoming, config, k);
      RerunOfKey(Find(t, k), s[k], config);
      UpdatedWasThere(Find(t, k), s[k], config);
    }
    if ApplyTable(rows, incoming, config).Ok? {
      var again := ApplyTable(rows, incoming, config).value;
      assert again.Keys == rows.Keys;
      assert forall k | k in rows :: again[k] == rows[k];
    }
  }

  // ---------------------------------------------------------------- a row that comes alone

  lemma SelectOne(row: Columns, config: Config)
    ensures Select([row], config).Ok? <==> KeyOf(row, config.mergeKey).Some? && Ordered(row, config)
    ensures Select([row], config).Ok? ==>
              Select([row], config).value == Selection(map[KeyOf(row, config.mergeKey).value := row], 0, 0)
  {
    hide KeyOf, Ordered;
    assert [row][..|[row]| - 1] == [] && Select([], config) == Ok(Selection(map[], 0, 0));
    var k := KeyOf(row, config.mergeKey);
    assert k.Some? ==> map[][k.value := row] == map[k.value := row];
  }

  lemma AppliedAlone(t: Table, row: Columns, k: Key, config: Config)
    requires KeyOf(row, config.mergeKey) == Some(k) && Ordered(row, config) && MergeKey(Find(t, k), row, config).Ok?
    ensures ApplyTable(t, [row], config) == Ok(t[k := MergeKey(Find(t, k), row, config).value.row])
  {
    hide KeyOf, Ordered, MergeKey, Select;
    SelectOne(row, config);
    var s := map[k := row];
    assert s.Keys == {k} && MergeAt(t, s, k, config) == MergeKey(Find(t, k), row, config);
    assert ApplyTable(t, [row], config).Ok?;
    assert ApplyTable(t, [row], config).value == t[k := MergeKey(Find(t, k), row, config).value.row];
  }

  lemma AcceptedAlone(stored: Columns, row: Columns, k: Key, config: Config)
    requires ValidConfig(config) && KeyOf(stored, config.mergeKey) == Some(k) && KeyOf(row, config.mergeKey) == Some(k)
    requires Ordered(stored, config) && Ordered(row, config)
    ensures Load([stored], config) == Ok(map[k := stored])
    ensures Accepts([stored], [row], config) <==> MergeKey(Some(stored), row, config).Ok?
  {
    hide KeyOf, Ordered, MergeKey, Select;
    SelectOne(row, config);
    assert [stored][..|[stored]| - 1] == [] && Load([], config) == Ok(map[]);
    assert map[][k := stored] == map[k := stored];
    var t, s := map[k := stored], map[k := row];
    assert s.Keys == {k} && MergeAt(t, s, k, config) == MergeKey(Find(t, k), row, config);
  }

  /** An input whose rerun is refused: the update kept a field that the incoming row does not bring, so the row that
      comes
      again differs from the stored one at an equal position. */
  lemma RerunIsRefused()
    ensures var config := Config(["id"], ["pos"], Policy(false, false));
            var stored := map["id" := Int(1), "v" := Int(5), "extra" := Int(7), "pos" := Int(1)];
            var row := map["id" := Int(1), "v" := Int(6), "pos" := Int(2)];
            && Accepts([stored], [row], config)
            && ApplyTable(Load([stored], config).value, [row], config) == Ok(map[[Int(1)] := stored + row])
            && !Accepts([stored + row], [row], config)
            && MergeKey(Some(stored + row), row, config) == Err(EqualPositionConflict)
  {
    hide KeyOf, Ordered, MergeKey, Load, Select, ApplyTable, Accepts;
    var config := Config(["id"], ["pos"], Policy(false, false));
    var stored := map["id" := Int(1), "v" := Int(5), "extra" := Int(7), "pos" := Int(1)];
    var row := map["id" := Int(1), "v" := Int(6), "pos" := Int(2)];
    var k := [Int(1)];
    RowParts(stored, config, 1, 1);
    RowParts(row, config, 1, 2);
    RowParts(stored + row, config, 1, 2);
    assert "extra" in stored && "extra" !in row;
    UpdateThenConflict(stored, row, config);
    AcceptedAlone(stored, row, k, config);
    AcceptedAlone(stored + row, row, k, config);
    AppliedAlone(map[k := stored], row, k, config);
    assert map[k := stored][k := stored + row] == map[k := stored + row];
  }

  lemma RowParts(row: Columns, config: Config, id: int, pos: int)
    requires config.mergeKey == ["id"] && config.ordering == ["pos"]
    requires "id" in row && "pos" in row && row["id"] == Int(id) && row["pos"] == Int(pos)
    ensures KeyOf(row, config.mergeKey) == Some([Int(id)]) && PositionOf(row, config) == [Int(pos)] && Ordered(row, config)
  {
    assert KeyValues(row, ["id"]) == [Int(id)];
    assert KeyValues(row, ["pos"]) == [Int(pos)];
  }

  /** The update keeps the fields that the newer row does not bring, and the row differs from it when it comes again. */
  lemma UpdateThenConflict(stored: Columns, row: Columns, config: Config)
    requires PositionOf(stored, config) == [Int(1)] && PositionOf(row, config) == [Int(2)] && config.ordering != []
    requires PositionOf(stored + row, config) == [Int(2)] && stored != row && !(stored.Keys <= row.Keys)
    ensures MergeKey(Some(stored), row, config) == Ok(Merge(stored + row, Updated))
    ensures MergeKey(Some(stored + row), row, config) == Err(EqualPositionConflict)
  {
    hide KeyValues;
    MergedIsCandidate(stored, row);
    CompareEqual([Int(2)], [Int(2)]);
  }

  // ---------------------------------------------------------------- counters

  lemma {:induction false} FatesPartition(t: Table, candidates: Table, keys: set<Key>, config: Config)
    requires keys <= candidates.Keys && AllMerge(t, candidates, keys, config)
    ensures |keys| == |Fated(t, candidates, keys, Inserted, config)| + |Fated(t, candidates, keys, Updated, config)|
                      + |Fated(t, candidates, keys, IgnoredAsStale, config)| + |Fated(t, candidates, keys, Duplicate, config)|
    decreases |keys|
  {
    hide MergeAt, Fated;
    if keys == {} {
      NobodyFated(t, candidates, config);
    } else {
      var k :| k in keys;
      var rest := keys - {k};
      FatesPartition(t, candidates, rest, config);
      assert rest + {k} == keys;
      FatedGrows(t, candidates, rest, k, Inserted, config);
      FatedGrows(t, candidates, rest, k, Updated, config);
      FatedGrows(t, candidates, rest, k, IgnoredAsStale, config);
      FatedGrows(t, candidates, rest, k, Duplicate, config);
    }
  }

  lemma NobodyFated(t: Table, candidates: Table, config: Config)
    ensures forall fate: Fate :: Fated(t, candidates, {}, fate, config) == {}
  {
    hide MergeAt;
  }

  /** Every incoming row lands in exactly one counter, and the target grows by the inserted ones. */
  lemma EveryRowIsCountedOnce(existing: seq<Columns>, incoming: seq<Columns>, config: Config, o: Outcome)
    requires config.ordering != [] && Accepts(existing, incoming, config) && Produces(existing, incoming, config, o)
    ensures |incoming| == o.inserted + o.updated + o.stale + o.duplicates + o.superseded
    ensures |o.rows| == |Load(existing, config).value| + o.inserted
  {
    hide Load, Select, Fated, MergeAt, RowsAfter;
    var t, s := Load(existing, config).value, Select(incoming, config).value;
    SelectedRowsAreCounted(incoming, config);
    FatesPartition(t, s.byKey, s.byKey.Keys, config);
    InsertedAreNew(t, s, o, config);
  }

  lemma OnlyNewKeysAreInserted(current: Option<Columns>, candidate: Columns, config: Config)
    ensures var m := MergeKey(current, candidate, config);
            && (m.Ok? ==> (m.value.fate.Inserted? <==> current.None?))
            && (current.None? ==> m == Ok(Merge(candidate, Inserted)))
  {
  }

  lemma InsertedKeys(t: Table, s: Selection, o: Outcome, config: Config)
    requires IsOutcome(o, t, s, s.byKey.Keys, config)
    ensures Fated(t, s.byKey, s.byKey.Keys, Inserted, config) == s.byKey.Keys - t.Keys
    ensures o.inserted == |s.byKey.Keys - t.Keys|
  {
    hide MergeKey, RowsAfter;
    forall k ensures k in Fated(t, s.byKey, s.byKey.Keys, Inserted, config) <==> k in s.byKey && k !in t {
      if k in s.byKey {
        OnlyNewKeysAreInserted(Find(t, k), s.byKey[k], config);
      }
    }
  }

  lemma InsertedAreNew(t: Table, s: Selection, o: Outcome, config: Config)
    requires IsOutcome(o, t, s, s.byKey.Keys, config)
    ensures |o.rows| == |t| + o.inserted
  {
    hide *;
    InsertedKeys(t, s, o, config);
    var newKeys := s.byKey.Keys - t.Keys;
    AllKeysAreKept(o, t, s, config);
  }

  lemma AllKeysAreKept(o: Outcome, t: Table, s: Selection, config: Config)
    requires IsOutcome(o, t, s, s.byKey.Keys, config)
    ensures o.rows.Keys == t.Keys + (s.byKey.Keys - t.Keys)
  {
    hide *;
    forall k ensures k in o.rows.Keys <==> k in t.Keys || k in s.byKey.Keys {
      KeyIsKept(o, t, s, config, k);
    }
  }

  lemma KeyIsKept(o: Outcome, t: Table, s: Selection, config: Config, k: Key)
    requires IsOutcome(o, t, s, s.byKey.Keys, config)
    ensures k in o.rows <==> k in t || k in s.byKey
  {
    hide MergeKey, Fated;
    assert Find(o.rows, k) == RowAfter(t, s.byKey, s.byKey.Keys, k, config);
  }
}
