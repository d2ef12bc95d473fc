/** Current-state apply without ordering columns (apply/current_state.py): the last row of a key decides, column by
    column; and what the counters of an apply say, with ordering columns or without. */
module CurrentStateUnordered {
  import opened Common
  import opened ValueOrder
  import opened CurrentState
  import opened CurrentStateWins

  // ---------------------------------------------------------------- one batch

  /** Every row has its key, and the rows of one key are the same row. */
  ghost predicate OneRowPerKey(rows: seq<Columns>, config: Config) {
    && (forall r | r in rows :: KeyOf(r, config.mergeKey).Some?)
    && (forall a, b | a in rows && b in rows && KeyOf(a, config.mergeKey) == KeyOf(b, config.mergeKey) :: a == b)
  }

  /** The selection files each row under its key, and nothing else. */
  ghost predicate Files(byKey: Table, rows: seq<Columns>, config: Config) {
    && (forall r | r in rows :: KeyOf(r, config.mergeKey).Some? && Find(byKey, KeyOf(r, config.mergeKey).value) == Some(r))
    && (forall k | k in byKey :: byKey[k] in rows && KeyOf(byKey[k], config.mergeKey) == Some(k))
  }

  lemma NothingFiled(config: Config)
    ensures Files(map[], [], config) && OneRowPerKey([], config)
  {
  }

  lemma RowFiled(s: Selection, rows: seq<Columns>, row: Columns, config: Config)
    requires config.ordering == [] && Files(s.byKey, rows, config)
    ensures var next := SelectRow(s, row, config);
            && (next.Ok? <==> OneRowPerKey(rows + [row], config))
            && (next.Ok? ==> Files(next.value.byKey, rows + [row], config) && next.value.superseded == s.superseded)
  {
    hide KeyOf;
    assert row in rows + [row];
    forall r ensures r in rows + [row] <==> r in rows || r == row {
    }
  }

  lemma OneRowPerKeyEarlier(rows: seq<Columns>, row: Columns, config: Config)
    requires OneRowPerKey(rows + [row], config)
    ensures OneRowPerKey(rows, config)
  {
    hide KeyOf;
    assert forall r | r in rows :: r in rows + [row];
  }

  lemma {:induction false} UnorderedSelection(rows: seq<Columns>, config: Config)
    requires config.ordering == []
    ensures Select(rows, config).Ok? <==> OneRowPerKey(rows, config)
    ensures Select(rows, config).Ok? ==>
              Files(Select(rows, config).value.byKey, rows, config) && Select(rows, config).value.superseded == 0
    decreases |rows|
  {
    hide OneRowPerKey, Files, SelectRow;
    if rows == [] {
      NothingFiled(config);
    } else {
      var prefix, last := rows[..|rows| - 1], rows[|rows| - 1];
      assert rows == prefix + [last];
      UnorderedSelection(prefix, config);
      if OneRowPerKey(rows, config) {
        OneRowPerKeyEarlier(prefix, last, config);
      }
      if Select(prefix, config).Ok? {
        RowFiled(Select(prefix, config).value, prefix, last, config);
      }
    }
  }

  /** The incoming columns over the stored ones, column by column. */
  ghost predicate Overlaid(row: Columns, stored: Option<Columns>, incoming: Columns) {
    && (forall c :: c in row <==> c in incoming || (stored.Some? && c in stored.value))
    && (forall c | c in row :: row[c] == if c in incoming then incoming[c] else stored.value[c])
  }

  /** The policy allows updates without order, or there is none to make. */
  ghost predicate MayReplace(t: Table, rows: seq<Columns>, config: Config) {
    config.policy.allowUnorderedUpdates
    || forall r | r in rows && KeyOf(r, config.mergeKey).Some? && KeyOf(r, config.mergeKey).value in t :: t[KeyOf(r, config.mergeKey).value] == r
  }

  /** How a candidate is merged, what becomes of the row and how it counts. */
  lemma MergeShowsItsFate(current: Option<Columns>, candidate: Columns, config: Config)
    ensures var m := MergeKey(current, candidate, config);
            var older := current.Some? && Before(PositionOf(current.value, config), PositionOf(candidate, config));
            var newer := current.Some? && Before(PositionOf(candidate, config), PositionOf(current.value, config));
            && (m.Ok? <==>
                  || current.None? || current == Some(candidate)
                  || if config.ordering == [] then config.policy.allowUnorderedUpdates
                     else Ordered(candidate, config) && Ordered(current.value, config)
                          && (older || (newer && !config.policy.staleIsError)))
            && (m.Ok? ==>
                  && m.value.fate ==
                     (if current.None? then Inserted
                      else if current == Some(candidate) then Duplicate
                      else if config.ordering == [] || older then Updated
                      else IgnoredAsStale)
                  && if m.value.fate.IgnoredAsStale? then current == Some(m.value.row)
                     else Overlaid(m.value.row, current, candidate))
  {
    hide KeyValues, Compare;
    if current.Some? {
      CompareMirrors(PositionOf(candidate, config), PositionOf(current.value, config));
    }
  }

  /** Without ordering columns a batch is accepted exactly when the rows of each key agree and the policy allows the
      update
      or nothing differs. Then every incoming column has its incoming value, every stored-only column stays, and the
      rows of other keys are untouched. */
  lemma UnorderedBatch(t: Table, rows: seq<Columns>, config: Config)
    requires config.ordering == []
    ensures var r := ApplyTable(t, rows, config);
            && (r.Ok? <==> OneRowPerKey(rows, config) && MayReplace(t, rows, config))
            && (r.Ok? ==>
                  && (forall row | row in rows ::
                        var k := KeyOf(row, config.mergeKey);
                        k.Some? && k.value in r.value && Overlaid(r.value[k.value], Find(t, k.value), row))
                  && (forall k | (forall row | row in rows :: KeyOf(row, config.mergeKey) != Some(k)) :: Find(r.value, k) == Find(t, k)))
  {
    hide KeyOf, MergeKey, Select, OneRowPerKey, Overlaid;
    UnorderedSelection(rows, config);
    if Select(rows, config).Ok? {
      var s := Select(rows, config).value.byKey;
      forall k | k in s
        ensures MergeAt(t, s, k, config).Ok? <==> (config.policy.allowUnorderedUpdates || k !in t || t[k] == s[k])
        ensures MergeAt(t, s, k, config).Ok? ==> Overlaid(MergeAt(t, s, k, config).value.row, Find(t, k), s[k])
      {
        MergeShowsItsFate(Find(t, k), s[k], config);
      }
    }
  }

  /** A repeated batch is always accepted, whatever the policy, and leaves the table as it is. */
  lemma UnorderedRepeatKeepsTable(t: Table, rows: seq<Columns>, config: Config)
    requires config.ordering == [] && ApplyTable(t, rows, config).Ok?
    ensures ApplyTable(ApplyTable(t, rows, config).value, rows, config) == ApplyTable(t, rows, config)
  {
    hide KeyOf, Select, MergeKey;
    var s, once := Select(rows, config).value.byKey, ApplyTable(t, rows, config).value;
    forall k | k in s
      ensures MergeAt(once, s, k, config).Ok? && MergeAt(once, s, k, config).value.row == once[k]
    {
      AppliedRow(t, rows, config, k);
      MergedAgain(Find(t, k), s[k], config);
    }
    assert AllMerge(once, s, s.Keys, config);
    var again := ApplyTable(once, rows, config).value;
    assert again.Keys == once.Keys;
    assert forall k | k in once :: again[k] == once[k];
    assert again == once;
    assert ApplyTable(once, rows, config).Ok?;
  }

  lemma MergedAgain(current: Option<Columns>, candidate: Columns, config: Config)
    requires config.ordering == [] && MergeKey(current, candidate, config).Ok?
    ensures var row := MergeKey(current, candidate, config).value.row;
            MergeKey(Some(row), candidate, config).Ok? && MergeKey(Some(row), candidate, config).value.row == row
  {
    if current.Some? {
      assert Merged(Merged(current.value, candidate), candidate) == Merged(current.value, candidate);
    }
  }

  // ---------------------------------------------------------------- several batches

  /** The value of a column of a key. */
  function CellAt(t: Table, k: Key, c: string): Option<Value> {
    if k in t && c in t[k] then Some(t[k][c]) else None
  }

  /** The batch brings the column of the key. */
  ghost predicate Brings(rows: seq<Columns>, k: Key, c: string, v: Value, config: Config) {
    exists row :: row in rows && KeyOf(row, config.mergeKey) == Some(k) && c in row && row[c] == v
  }

  /** The value is the one that the last batch bringing the column of the key brought, or the stored one when none
      does. */
  ghost predicate LastBrought(
      t: Table, batches: seq<seq<Columns>>, k: Key, c: string, v: Option<Value>, config: Config) {
    if batches == [] then v == CellAt(t, k, c)
    else
      var last := batches[|batches| - 1];
      if exists w :: Brings(last, k, c, w, config) then v.Some? && Brings(last, k, c, v.value, config)
      else LastBrought(t, batches[..|batches| - 1], k, c, v, config)
  }

  lemma CellAfterBatch(t: Table, rows: seq<Columns>, k: Key, c: string, config: Config)
    requires config.ordering == [] && ApplyTable(t, rows, config).Ok?
    ensures var v := CellAt(ApplyTable(t, rows, config).value, k, c);
            if exists w :: Brings(rows, k, c, w, config) then v.Some? && Brings(rows, k, c, v.value, config)
            else v == CellAt(t, k, c)
  {
    hide KeyOf, ApplyTable, OneRowPerKey, MayReplace;
    UnorderedBatch(t, rows, config);
    if exists w :: Brings(rows, k, c, w, config) {
      var w :| Brings(rows, k, c, w, config);
      var row :| row in rows && KeyOf(row, config.mergeKey) == Some(k) && c in row && row[c] == w;
    } else if exists row :: row in rows && KeyOf(row, config.mergeKey) == Some(k) {
      var row :| row in rows && KeyOf(row, config.mergeKey) == Some(k);
      assert c in row ==> Brings(rows, k, c, row[c], config);
      assert Overlaid(ApplyTable(t, rows, config).value[k], Find(t, k), row);
    } else {
      assert Find(ApplyTable(t, rows, config).value, k) == Find(t, k);
    }
  }

  /** Over any accepted batches the last one that brings a column of a key decides it; columns that none brings stay. */
  lemma {:induction false} LastBatchDecides(
      t: Table, batches: seq<seq<Columns>>, k: Key, c: string, config: Config)
    requires config.ordering == [] && RunBatches(t, batches, config).Ok?
    ensures LastBrought(t, batches, k, c, CellAt(RunBatches(t, batches, config).value, k, c), config)
    decreases |batches|
  {
    hide ApplyTable, Brings, CellAt;
    if batches != [] {
      LastBatchDecides(t, batches[..|batches| - 1], k, c, config);
      CellAfterBatch(RunBatches(t, batches[..|batches| - 1], config).value, batches[|batches| - 1], k, c, config);
    }
  }

  // ---------------------------------------------------------------- the stored rows

  /** Complete and distinct keys, and no null in the ordering columns. */
  ghost predicate StoredIsSound(rows: seq<Columns>, config: Config) {
    && (forall r | r in rows :: KeyOf(r, config.mergeKey).Some?)
    && (forall i, j | 0 <= i < j < |rows| :: KeyOf(rows[i], config.mergeKey) != KeyOf(rows[j], config.mergeKey))
    && (forall r, c | r in rows && c in config.ordering :: Cell(r, c) != Null)
  }

  lemma OrderedOnCells(row: Columns, config: Config)
    ensures Ordered(row, config) <==> forall c | c in config.ordering :: Cell(row, c) != Null
  {
    var p := PositionOf(row, config);
    assert forall i | 0 <= i < |p| :: p[i] == Cell(row, config.ordering[i]) && p[i] in p;
    assert forall c | c in config.ordering :: exists i :: 0 <= i < |p| && config.ordering[i] == c;
  }

  lemma StoredOneMore(t: Table, rows: seq<Columns>, row: Columns, config: Config)
    requires Files(t, rows, config) && StoredIsSound(rows, config)
    ensures StoredIsSound(rows + [row], config) <==> LoadRow(t, row, config).Ok?
    ensures LoadRow(t, row, config).Ok? ==> Files(LoadRow(t, row, config).value, rows + [row], config)
  {
    hide KeyOf, Ordered;
    OrderedOnCells(row, config);
    var all := rows + [row];
    assert all[|rows|] == row && forall i | 0 <= i < |rows| :: all[i] == rows[i] && rows[i] in rows;
    assert forall r :: r in all <==> r in rows || r == row;
    if KeyOf(row, config.mergeKey).Some? && KeyOf(row, config.mergeKey).value in t {
      var i :| 0 <= i < |rows| && rows[i] == t[KeyOf(row, config.mergeKey).value];
      assert KeyOf(all[i], config.mergeKey) == KeyOf(all[|rows|], config.mergeKey);
    }
  }

  lemma SoundEarlier(rows: seq<Columns>, row: Columns, config: Config)
    requires StoredIsSound(rows + [row], config)
    ensures StoredIsSound(rows, config)
  {
    hide KeyOf;
    var all := rows + [row];
    assert forall i | 0 <= i < |rows| :: all[i] == rows[i] && rows[i] in all;
  }

  /** The target loads exactly when its rows have complete and distinct keys and no null in the ordering columns. */
  lemma {:induction false} TargetLoadsExactlyWhen(rows: seq<Columns>, config: Config)
    ensures Load(rows, config).Ok? <==> StoredIsSound(rows, config)
    ensures Load(rows, config).Ok? ==> Files(Load(rows, config).value, rows, config)
    decreases |rows|
  {
    hide LoadRow, StoredIsSound, Files;
    if rows == [] {
      NothingFiled(config);
      NothingStored(config);
    } else {
      var prefix, last := rows[..|rows| - 1], rows[|rows| - 1];
      assert rows == prefix + [last];
      TargetLoadsExactlyWhen(prefix, config);
      if Load(prefix, config).Ok? {
        StoredOneMore(Load(prefix, config).value, prefix, last, config);
      } else if StoredIsSound(rows, config) {
        SoundEarlier(prefix, last, config);
      }
    }
  }

  lemma NothingStored(config: Config)
    ensures StoredIsSound([], config)
  {
  }

  /** An apply is accepted exactly when the merge columns are given and distinct, the ordering columns distinct, the
      stored
      rows sound, the incoming rows leave one candidate per key, and every candidate can be merged. */
  lemma AcceptedExactlyWhen(existing: seq<Columns>, incoming: seq<Columns>, config: Config)
    ensures Accepts(existing, incoming, config) <==>
            && config.mergeKey != [] && (forall i, j | 0 <= i < j < |config.mergeKey| :: config.mergeKey[i] != config.mergeKey[j])
            && (forall i, j | 0 <= i < j < |config.ordering| :: config.ordering[i] != config.ordering[j])
            && StoredIsSound(existing, config) && Load(existing, config).Ok?
            && Select(incoming, config).Ok?
            && var t, s := Load(existing, config).value, Select(incoming, config).value.byKey;
               forall k | k in s :: MergeAt(t, s, k, config).Ok?
  {
    hide StoredIsSound, Load, Select, MergeAt;
    TargetLoadsExactlyWhen(existing, config);
  }

  // ---------------------------------------------------------------- counters

  /** How the candidate of a key counts, read off the stored row and the candidate. */
  function FateOf(t: Table, candidates: Table, k: Key, config: Config): Fate
    requires k in candidates
  {
    if k !in t then Inserted
    else if t[k] == candidates[k] then Duplicate
    else if config.ordering == [] || Before(PositionOf(t[k], config), PositionOf(candidates[k], config)) then Updated
    else IgnoredAsStale
  }

  /** The keys whose candidate counts as given. */
  function KeysWith(t: Table, candidates: Table, fate: Fate, config: Config): set<Key> {
    set k | k in candidates && FateOf(t, candidates, k, config) == fate
  }

  /** Every counter of an accepted apply is the number of keys that show it, plus for duplicates the incoming rows that
      repeat the candidate of their key. */
  lemma CountersCountWhatIsShown(existing: seq<Columns>, incoming: seq<Columns>, config: Config, o: Outcome)
    requires Accepts(existing, incoming, config) && Produces(existing, incoming, config, o)
    ensures var t, s := Load(existing, config).value, Select(incoming, config).value;
            && o.inserted == |KeysWith(t, s.byKey, Inserted, config)|
            && o.updated == |KeysWith(t, s.byKey, Updated, config)|
            && o.stale == |KeysWith(t, s.byKey, IgnoredAsStale, config)|
            && o.duplicates == s.duplicates + |KeysWith(t, s.byKey, Duplicate, config)|
            && o.superseded == s.superseded
  {
    hide MergeKey, FateOf, Load, Select, RowsAfter, Fated, KeysWith;
    var t, s := Load(existing, config).value, Select(incoming, config).value;
    FatedAreShown(t, s.byKey, Inserted, config);
    FatedAreShown(t, s.byKey, Updated, config);
    FatedAreShown(t, s.byKey, IgnoredAsStale, config);
    FatedAreShown(t, s.byKey, Duplicate, config);
  }

  lemma FatedAreShown(t: Table, candidates: Table, fate: Fate, config: Config)
    requires AllMerge(t, candidates, candidates.Keys, config)
    ensures Fated(t, candidates, candidates.Keys, fate, config) == KeysWith(t, candidates, fate, config)
  {
    hide MergeKey, PositionOf, Before;
    forall k | k in candidates ensures MergeAt(t, candidates, k, config).value.fate == FateOf(t, candidates, k, config) {
      MergeShowsItsFate(Find(t, k), candidates[k], config);
    }
  }

  /** The incoming rows that repeat the candidate which the rows before them left for their key. */
  ghost function Repetitions(rows: seq<Columns>, config: Config): set<nat> {
    set i: nat | i < |rows| && Repeats(rows, i, config)
  }

  ghost predicate Repeats(rows: seq<Columns>, i: nat, config: Config)
    requires i < |rows|
  {
    KeyOf(rows[i], config.mergeKey).Some? && IsLatest(rows[i], OfKey(ToSet(rows[..i]), KeyOf(rows[i], config.mergeKey).value, config), config)
  }

  /** With ordering columns, the selection counts as duplicates exactly the rows that equal the greatest row of
      their key so
      far; all others but the candidates are superseded. */
  lemma {:induction false} DuplicatesRepeatTheGreatest(rows: seq<Columns>, config: Config)
    requires config.ordering != [] && Select(rows, config).Ok?
    ensures Select(rows, config).value.duplicates == |Repetitions(rows, config)|
    decreases |rows|
  {
    hide SelectRow, Repeats;
    if rows == [] {
      assert Repetitions(rows, config) == {};
    } else {
      var prefix, last := rows[..|rows| - 1], |rows| - 1;
      DuplicatesRepeatTheGreatest(prefix, config);
      forall i: nat | i < last ensures Repeats(prefix, i, config) == Repeats(rows, i, config) {
        EarlierRepeats(rows, i, config);
      }
      SelectionHoldsLatest(prefix, config);
      LastRepeats(Select(prefix, config).value, prefix, rows[last], config);
      assert prefix + [rows[last]] == rows;
      assert Repetitions(rows, config) == Repetitions(prefix, config) + if Repeats(rows, last, config) then {last} else {};
    }
  }

  lemma EarlierRepeats(rows: seq<Columns>, i: nat, config: Config)
    requires i + 1 < |rows|
    ensures Repeats(rows[..|rows| - 1], i, config) == Repeats(rows, i, config)
  {
    hide KeyOf, IsLatest, OfKey;
    assert rows[..|rows| - 1][..i] == rows[..i];
  }

  lemma LastRepeats(s: Selection, rows: seq<Columns>, row: Columns, config: Config)
    requires config.ordering != [] && HoldsLatest(s.byKey, ToSet(rows), config) && SelectRow(s, row, config).Ok?
    ensures SelectRow(s, row, config).value.duplicates == s.duplicates + if Repeats(rows + [row], |rows|, config) then 1 else 0
  {
    hide KeyOf, Ordered, KeyValues, Before, Compare, OfKey;
    var k := KeyOf(row, config.mergeKey).value;
    assert (rows + [row])[..|rows|] == rows;
    var mine := OfKey(ToSet(rows), k, config);
    assert LatestAt(Find(s.byKey, k), mine, config);
    CompareEqual(PositionOf(row, config), if k in s.byKey then PositionOf(s.byKey[k], config) else PositionOf(row, config));
    if IsLatest(row, mine, config) && k in s.byKey {
      LatestIsUnique(row, s.byKey[k], mine, config);
    }
  }
}
