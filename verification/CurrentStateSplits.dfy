/** When acceptance of ordered current-state rows (apply/current_state.py) does not depend on their order and on the
    batches that they come in. */
module CurrentStateSplits {
  import opened Common
  import opened SourceOrder
  import opened ValueOrder
  import opened CurrentState
  import opened CurrentStateWins

  /** Every row has a key and a position, and two different rows of one key always stand in an order that the engine
      accepts whichever comes first. */
  ghost predicate Harmonious(held: set<Columns>, rows: set<Columns>, config: Config) {
    && (forall r | r in rows :: KeyOf(r, config.mergeKey).Some? && Ordered(r, config))
    && (forall a, b | a in held + rows && b in rows && a != b && KeyOf(a, config.mergeKey) == KeyOf(b, config.mergeKey) ::
          Settled(a, b, rows, config))
  }

  /** Row `b` may come when `a` is held. Where a stale row is an error, no row may be overtaken by another that
      comes. */
  ghost predicate Settled(a: Columns, b: Columns, rows: set<Columns>, config: Config) {
    if config.policy.staleIsError then a !in rows && Before(PositionOf(a, config), PositionOf(b, config))
    else Before(PositionOf(a, config), PositionOf(b, config)) || Before(PositionOf(b, config), PositionOf(a, config))
  }

  // ---------------------------------------------------------------- harmonious rows are always accepted

  lemma ContendSucceeds(current: Columns, row: Columns, config: Config)
    requires config.ordering != [] && Ordered(current, config) && Ordered(row, config)
    requires current == row || Before(PositionOf(current, config), PositionOf(row, config))
             || Before(PositionOf(row, config), PositionOf(current, config))
    ensures Contend(current, row, config).Ok?
  {
    hide Ordered, PositionOf;
    CompareMirrors(PositionOf(row, config), PositionOf(current, config));
    CompareEqual(PositionOf(row, config), PositionOf(current, config));
  }

  lemma {:induction false} SelectSucceeds(held: set<Columns>, rows: set<Columns>, batch: seq<Columns>, config: Config)
    requires config.ordering != [] && Harmonious(held, rows, config) && ToSet(batch) <= rows
    ensures Select(batch, config).Ok?
    decreases |batch|
  {
    hide KeyOf, Ordered, Contend, LatestAt, Before, PositionOf;
    if batch != [] {
      var prefix, last := batch[..|batch| - 1], batch[|batch| - 1];
      assert batch == prefix + [last];
      assert last in ToSet(batch) && ToSet(prefix) <= ToSet(batch);
      SelectSucceeds(held, rows, prefix, config);
      SelectionHoldsLatest(prefix, config);
      var s, k := Select(prefix, config).value.byKey, KeyOf(last, config.mergeKey).value;
      if k in s {
        HeldRow(s, ToSet(prefix), config, k);
        assert s[k] in rows;
        ContendSucceeds(s[k], last, config);
      }
    }
  }

  lemma HeldRow(t: Table, rows: set<Columns>, config: Config, k: Key)
    requires HoldsLatest(t, rows, config) && k in t
    ensures t[k] in rows && KeyOf(t[k], config.mergeKey) == Some(k)
  {
    assert LatestAt(Find(t, k), OfKey(rows, k, config), config);
    LatestIsMember(t[k], OfKey(rows, k, config), config);
  }

  lemma MergeSucceeds(current: Columns, candidate: Columns, rows: set<Columns>, config: Config)
    requires config.ordering != [] && Ordered(current, config) && Ordered(candidate, config)
    requires current != candidate ==> Settled(current, candidate, rows, config)
    ensures MergeKey(Some(current), candidate, config).Ok?
  {
    hide Ordered, PositionOf;
    CompareMirrors(PositionOf(candidate, config), PositionOf(current, config));
  }

  lemma BatchSucceeds(
      t: Table, held: set<Columns>, done: set<Columns>, rows: set<Columns>, batch: seq<Columns>, config: Config)
    requires config.ordering != [] && Harmonious(held, rows, config) && ToSet(batch) <= rows && done <= rows
    requires (forall r | r in held :: Ordered(r, config)) && HoldsLatest(t, held + done, config)
    ensures ApplyTable(t, batch, config).Ok?
  {
    hide KeyOf, Ordered, HoldsLatest, MergeKey, Settled;
    SelectSucceeds(held, rows, batch, config);
    SelectionHoldsLatest(batch, config);
    var s := Select(batch, config).value.byKey;
    forall k | k in s ensures MergeAt(t, s, k, config).Ok? {
      HeldRow(s, ToSet(batch), config, k);
      if k in t {
        HeldRow(t, held + done, config, k);
        MergeSucceeds(t[k], s[k], rows, config);
      } else {
        OnlyNewKeysAreInserted(None, s[k], config);
      }
    }
  }

  lemma {:induction false} HarmoniousRowsAreAccepted(
      t: Table, held: set<Columns>, rows: set<Columns>, batches: seq<seq<Columns>>, columns: set<string>,
      config: Config)
    requires config.ordering != [] && Harmonious(held, rows, config) && RowsIn(batches) <= rows
    requires (forall r | r in held :: Ordered(r, config)) && HoldsLatest(t, held, config) && Uniform(held + rows, columns)
    ensures RunBatches(t, batches, config).Ok?
    decreases |batches|
  {
    hide Harmonious, HoldsLatest, Ordered, ApplyTable;
    if batches != [] {
      var prefix, last := batches[..|batches| - 1], batches[|batches| - 1];
      HarmoniousRowsAreAccepted(t, held, rows, prefix, columns, config);
      LatestRowWins(t, held, prefix, columns, config);
      BatchSucceeds(RunBatches(t, prefix, config).value, held, RowsIn(prefix), rows, last, config);
    }
  }

  // ---------------------------------------------------------------- rows that are always accepted are harmonious

  lemma {:induction false} SelectedRowsAreOrdered(batch: seq<Columns>, config: Config)
    requires Select(batch, config).Ok?
    ensures forall r | r in batch :: KeyOf(r, config.mergeKey).Some? && (config.ordering != [] ==> Ordered(r, config))
    decreases |batch|
  {
    hide KeyOf, Ordered, Compare;
    if batch != [] {
      SelectedRowsAreOrdered(batch[..|batch| - 1], config);
      assert batch == batch[..|batch| - 1] + [batch[|batch| - 1]];
    }
  }

  /** Two rows of one key in one batch. */
  lemma PairInBatch(a: Columns, b: Columns, config: Config)
    requires config.ordering != [] && Select([a, b], config).Ok?
    requires a != b && KeyOf(a, config.mergeKey) == KeyOf(b, config.mergeKey)
    ensures Before(PositionOf(a, config), PositionOf(b, config)) || Before(PositionOf(b, config), PositionOf(a, config))
  {
    hide KeyOf, Ordered, KeyValues, Before, Select;
    PairContends(a, b, config);
    CompareMirrors(PositionOf(b, config), PositionOf(a, config));
    BeforeIs(b, a, config);
  }

  lemma PairContends(a: Columns, b: Columns, config: Config)
    requires Select([a, b], config).Ok? && KeyOf(a, config.mergeKey) == KeyOf(b, config.mergeKey)
    ensures Contend(a, b, config).Ok?
  {
    hide KeyOf, Ordered, Contend;
    assert [a, b][..|[a, b]| - 1] == [a] && [a, b][|[a, b]| - 1] == b;
    SelectOne(a, config);
    assert SelectRow(Select([a], config).value, b, config).Ok?;
  }

  lemma BeforeIs(a: Columns, b: Columns, config: Config)
    ensures Before(PositionOf(a, config), PositionOf(b, config)) <==>
            Compare(PositionOf(a, config), PositionOf(b, config)) == Some(Stale)
  {
    hide KeyValues;
  }

  /** A row that comes alone. */
  lemma RowAlone(t: Table, a: Columns, b: Columns, config: Config)
    requires config.ordering != [] && ApplyTable(t, [b], config).Ok? && KeyOf(b, config.mergeKey).Some?
    requires KeyOf(b, config.mergeKey).value in t && t[KeyOf(b, config.mergeKey).value] == a && a != b
    ensures Before(PositionOf(a, config), PositionOf(b, config))
            || (!config.policy.staleIsError && Before(PositionOf(b, config), PositionOf(a, config)))
  {
    hide KeyOf, Ordered, KeyValues, Before, Merged;
    var k := KeyOf(b, config.mergeKey).value;
    SelectOne(b, config);
    AppliedRow(t, [b], config, k);
    CompareMirrors(PositionOf(b, config), PositionOf(a, config));
    BeforeIs(b, a, config);
  }

  lemma Listing(rows: set<Columns>) returns (list: seq<Columns>)
    ensures ToSet(list) == rows
    decreases |rows|
  {
    if rows == {} {
      list := [];
    } else {
      var r :| r in rows;
      var rest := Listing(rows - {r});
      list := rest + [r];
      assert ToSet(list) == ToSet(rest) + {r};
    }
  }

  lemma OneBatch(first: seq<Columns>, t: Table, config: Config)
    ensures RowsIn([first]) == ToSet(first) && RunBatches(t, [first], config) == ApplyTable(t, first, config)
  {
    hide ApplyTable;
    assert [first][..|[first]| - 1] == [];
    assert RunBatches(t, [], config) == Ok(t);
    assert RowsIn([]) == {};
  }

  lemma MoreBatches(batches: seq<seq<Columns>>, last: seq<Columns>, t: Table, config: Config)
    ensures RowsIn(batches + [last]) == RowsIn(batches) + ToSet(last)
    ensures var before := RunBatches(t, batches, config);
            RunBatches(t, batches + [last], config) == if before.Err? then before else ApplyTable(before.value, last, config)
  {
    hide ApplyTable;
    assert (batches + [last])[..|batches|] == batches;
  }

  ghost predicate EveryRunSucceeds(t: Table, rows: set<Columns>, config: Config) {
    forall batches | RowsIn(batches) == rows :: RunBatches(t, batches, config).Ok?
  }

  /** The first rows of a batch are selected, and a batch of its own before the others is applied. */
  lemma RunsBegin(t: Table, rows: set<Columns>, first: seq<Columns>, config: Config)
    requires EveryRunSucceeds(t, rows, config) && ToSet(first) <= rows
    ensures Select(first, config).Ok? && ApplyTable(t, first, config).Ok?
  {
    hide ApplyTable, Select;
    var list := Listing(rows);
    OneBatch(first, t, config);
    MoreBatches([first], list, t, config);
    assert RowsIn([first] + [list]) == rows;
    assert RunBatches(t, [first] + [list], config).Ok?;
    AppliedRow(t, first, config, []);
  }

  lemma TwoBatchesBegin(t: Table, rows: set<Columns>, first: seq<Columns>, second: seq<Columns>, config: Config)
    requires EveryRunSucceeds(t, rows, config) && ToSet(first) <= rows && ToSet(second) <= rows
    ensures ApplyTable(t, first, config).Ok? && ApplyTable(ApplyTable(t, first, config).value, second, config).Ok?
  {
    hide ApplyTable;
    var list := Listing(rows);
    OneBatch(first, t, config);
    MoreBatches([first], second, t, config);
    MoreBatches([first] + [second], list, t, config);
    assert RowsIn([first] + [second] + [list]) == rows;
    assert RunBatches(t, [first] + [second] + [list], config).Ok?;
  }

  /** Where a stale row is an error, only one row of each key may come. */
  lemma OvertakenRowFails(
      t: Table, held: set<Columns>, rows: set<Columns>, a: Columns, b: Columns, columns: set<string>, config: Config)
    requires config.ordering != [] && config.policy.staleIsError && EveryRunSucceeds(t, rows, config)
    requires HoldsLatest(t, held, config) && Uniform(held + rows, columns)
    requires a in rows && b in rows && KeyOf(a, config.mergeKey).Some? && KeyOf(a, config.mergeKey) == KeyOf(b, config.mergeKey)
    ensures a != b ==> Before(PositionOf(a, config), PositionOf(b, config))
  {
    hide KeyOf, EveryRunSucceeds, HoldsLatest, ApplyTable, Before, Select, PositionOf;
    TwoBatchesBegin(t, rows, [a], [b], config);
    RunsBegin(t, rows, [a], config);
    var k := KeyOf(a, config.mergeKey).value;
    SelectOne(a, config);
    AppliedRow(t, [a], config, k);
    RowIsTaken(t, held, a, columns, config, k);
    if a != b {
      RowAlone(ApplyTable(t, [a], config).value, a, b, config);
    }
  }

  /** A row that comes alone and is no error as stale is the row of its key. */
  lemma RowIsTaken(t: Table, held: set<Columns>, a: Columns, columns: set<string>, config: Config, k: Key)
    requires config.ordering != [] && config.policy.staleIsError && HoldsLatest(t, held, config)
    requires Uniform(held + {a}, columns) && MergeKey(Find(t, k), a, config).Ok?
    ensures MergeKey(Find(t, k), a, config).value.row == a
  {
    hide Compare, Ordered, LatestAt;
    if k in t {
      HeldRow(t, held, config, k);
      MergedIsCandidate(t[k], a);
    }
  }

  lemma {:induction false} LoadedRowsAreOrdered(existing: seq<Columns>, config: Config)
    requires Load(existing, config).Ok?
    ensures forall r | r in existing :: Ordered(r, config)
    ensures forall r | r in existing ::
              && KeyOf(r, config.mergeKey).Some?
              && Find(Load(existing, config).value, KeyOf(r, config.mergeKey).value) == Some(r)
    decreases |existing|
  {
    hide KeyOf, Ordered;
    if existing != [] {
      LoadedRowsAreOrdered(existing[..|existing| - 1], config);
      assert existing == existing[..|existing| - 1] + [existing[|existing| - 1]];
    }
  }

  lemma AcceptedPairIsSettled(
      existing: seq<Columns>, rows: set<Columns>, a: Columns, b: Columns, columns: set<string>, config: Config)
    requires config.ordering != [] && Load(existing, config).Ok? && EveryRunSucceeds(Load(existing, config).value, rows, config)
    requires Uniform(ToSet(existing) + rows, columns) && a in ToSet(existing) + rows && b in rows && a != b
    requires KeyOf(a, config.mergeKey) == KeyOf(b, config.mergeKey) && KeyOf(b, config.mergeKey).Some?
    ensures Settled(a, b, rows, config)
  {
    hide KeyOf, Ordered, PositionOf, EveryRunSucceeds, ApplyTable, Load, Select, Before;
    var t := Load(existing, config).value;
    LoadedRowsAreOrdered(existing, config);
    LoadedHoldsLatest(existing, config);
    if a in rows {
      RunsBegin(t, rows, [a, b], config);
      PairInBatch(a, b, config);
      if config.policy.staleIsError {
        OvertakenRowFails(t, ToSet(existing), rows, a, b, columns, config);
        OvertakenRowFails(t, ToSet(existing), rows, b, a, columns, config);
        NotBothBefore(a, b, config);
      }
    } else {
      RunsBegin(t, rows, [b], config);
      RowAlone(t, a, b, config);
    }
  }

  lemma NotBothBefore(a: Columns, b: Columns, config: Config)
    ensures !(Before(PositionOf(a, config), PositionOf(b, config)) && Before(PositionOf(b, config), PositionOf(a, config)))
  {
    hide Before, PositionOf;
    if Before(PositionOf(a, config), PositionOf(b, config)) && Before(PositionOf(b, config), PositionOf(a, config)) {
      BeforeTransitive(PositionOf(a, config), PositionOf(b, config), PositionOf(a, config));
      BeforeIrreflexive(PositionOf(a, config));
    }
  }

  // ---------------------------------------------------------------- the theorem

  /** Acceptance does not depend on the order of the rows, on their repetitions and on how they are cut into batches
      exactly when every two different rows of a key stand in an order that is accepted whichever comes first. */
  lemma EveryOrderIsAcceptedExactlyWhen(
      existing: seq<Columns>, rows: set<Columns>, columns: set<string>, config: Config)
    requires config.ordering != [] && Load(existing, config).Ok? && Uniform(ToSet(existing) + rows, columns)
    ensures EveryRunSucceeds(Load(existing, config).value, rows, config) <==> Harmonious(ToSet(existing), rows, config)
  {
    hide KeyOf, Ordered, RunBatches, RowsIn, Load, Select, Settled, HoldsLatest;
    var t := Load(existing, config).value;
    LoadedRowsAreOrdered(existing, config);
    if Harmonious(ToSet(existing), rows, config) {
      LoadedHoldsLatest(existing, config);
      forall batches | RowsIn(batches) == rows ensures RunBatches(t, batches, config).Ok? {
        HarmoniousRowsAreAccepted(t, ToSet(existing), rows, batches, columns, config);
      }
    }
    if EveryRunSucceeds(t, rows, config) {
      var list := Listing(rows);
      RunsBegin(t, rows, list, config);
      SelectedRowsAreOrdered(list, config);
      forall r | r in rows ensures r in list {
        assert r in ToSet(list);
      }
      forall a, b | a in ToSet(existing) + rows && b in rows && a != b && KeyOf(a, config.mergeKey) == KeyOf(b, config.mergeKey)
        ensures Settled(a, b, rows, config)
      {
        AcceptedPairIsSettled(existing, rows, a, b, columns, config);
      }
    }
  }

  // ---------------------------------------------------------------- inputs

  const BY_POSITION := Config(["id"], ["pos"], Policy(false, false))

  /** A row of the one key. */
  function At(pos: int, v: int): Columns {
    map["id" := Int(1), "pos" := Int(pos), "v" := Int(v)]
  }

  const ONE: Key := [Int(1)]

  lemma OfRow(pos: int, v: int)
    ensures KeyOf(At(pos, v), ["id"]) == Some(ONE) && KeyValues(At(pos, v), ["pos"]) == [Int(pos)]
    ensures Ordered(At(pos, v), BY_POSITION)
  {
    hide KeyOf, Ordered, KeyValues;
    RowParts(At(pos, v), BY_POSITION, 1, pos);
  }

  lemma ComparedByPosition(a: int, b: int)
    ensures Compare([Int(a)], [Int(b)]) == Some(if a < b then Stale else if a == b then Equal else Newer)
  {
    assert Compare([], []) == Some(Equal);
  }

  lemma Contended(a: int, v: int, b: int, w: int)
    requires v != w
    ensures Contend(At(a, v), At(b, w), BY_POSITION) ==
            if a == b then Err(EqualPositionConflict) else Ok((if a < b then At(b, w) else At(a, v), false))
    ensures MergeKey(Some(At(a, v)), At(b, w), BY_POSITION) ==
            if a == b then Err(EqualPositionConflict)
            else Ok(if a < b then Merge(At(b, w), Updated) else Merge(At(a, v), IgnoredAsStale))
  {
    hide KeyValues, Ordered, Compare;
    OfRow(a, v);
    OfRow(b, w);
    ComparedByPosition(b, a);
    assert At(a, v)["v"] == Int(v) && At(b, w)["v"] == Int(w);
    assert Merged(At(a, v), At(b, w)) == At(b, w);
  }

  lemma SelectedNext(rows: seq<Columns>, pos: int, v: int, next: int, w: int, superseded: nat)
    requires Select(rows, BY_POSITION) == Ok(Selection(map[ONE := At(pos, v)], 0, superseded)) && v != w
    ensures Select(rows + [At(next, w)], BY_POSITION) ==
            if pos == next then Err(EqualPositionConflict)
            else Ok(Selection(map[ONE := if pos < next then At(next, w) else At(pos, v)], 0, superseded + 1))
  {
    hide KeyOf, Ordered, Contend, At;
    OfRow(next, w);
    Contended(pos, v, next, w);
    var more := rows + [At(next, w)];
    assert more[..|more| - 1] == rows && more[|more| - 1] == At(next, w);
    assert Select(more, BY_POSITION) == SelectRow(Select(rows, BY_POSITION).value, At(next, w), BY_POSITION);
    assert map[ONE := At(pos, v)][ONE := At(next, w)] == map[ONE := At(next, w)];
    assert map[ONE := At(pos, v)][ONE := At(pos, v)] == map[ONE := At(pos, v)];
  }

  /** An input of three rows of one key that is accepted as three batches, and as one batch or not depending on the
      order
      of the rows: two of them share a position, and they are never compared when a later row comes between. */
  lemma SplitDecidesAcceptance()
    ensures RunBatches(map[], [[At(1, 1)], [At(2, 3)], [At(1, 2)]], BY_POSITION) == Ok(map[ONE := At(2, 3)])
    ensures ApplyTable(map[], [At(1, 1), At(2, 3), At(1, 2)], BY_POSITION) == Ok(map[ONE := At(2, 3)])
    ensures ApplyTable(map[], [At(1, 1), At(1, 2), At(2, 3)], BY_POSITION) == Err(EqualPositionConflict)
  {
    hide KeyOf, Ordered, MergeKey, Select, ApplyTable, RunBatches, At;
    OfRow(1, 1);
    OfRow(1, 2);
    OfRow(2, 3);
    ThreeBatches();
    SelectOne(At(1, 1), BY_POSITION);
    assert [At(1, 1)] + [At(2, 3)] == [At(1, 1), At(2, 3)];
    assert [At(1, 1)] + [At(1, 2)] == [At(1, 1), At(1, 2)];
    SelectedNext([At(1, 1)], 1, 1, 2, 3, 0);
    SelectedNext([At(1, 1), At(2, 3)], 2, 3, 1, 2, 1);
    SelectedNext([At(1, 1)], 1, 1, 1, 2, 0);
    assert [At(1, 1), At(2, 3)] + [At(1, 2)] == [At(1, 1), At(2, 3), At(1, 2)];
    InsertedAlone([At(1, 1), At(2, 3), At(1, 2)], At(2, 3));
    assert [At(1, 1), At(1, 2), At(2, 3)][..2] == [At(1, 1), At(1, 2)];
    SelectFailsLater([At(1, 1), At(1, 2), At(2, 3)], 2, BY_POSITION);
    RefusedSelection([At(1, 1), At(1, 2), At(2, 3)]);
  }

  lemma ThreeBatches()
    ensures RunBatches(map[], [[At(1, 1)], [At(2, 3)], [At(1, 2)]], BY_POSITION) == Ok(map[ONE := At(2, 3)])
  {
    hide KeyOf, Ordered, MergeKey, Select, ApplyTable, RunBatches, At;
    OfRow(1, 1);
    OfRow(1, 2);
    OfRow(2, 3);
    Contended(1, 1, 2, 3);
    Contended(2, 3, 1, 2);
    OnlyNewKeysAreInserted(None, At(1, 1), BY_POSITION);
    AppliedAlone(map[], At(1, 1), ONE, BY_POSITION);
    AppliedAlone(map[ONE := At(1, 1)], At(2, 3), ONE, BY_POSITION);
    AppliedAlone(map[ONE := At(2, 3)], At(1, 2), ONE, BY_POSITION);
    OneBatch([At(1, 1)], map[], BY_POSITION);
    MoreBatches([[At(1, 1)]], [At(2, 3)], map[], BY_POSITION);
    MoreBatches([[At(1, 1)]] + [[At(2, 3)]], [At(1, 2)], map[], BY_POSITION);
    assert [[At(1, 1)]] + [[At(2, 3)]] + [[At(1, 2)]] == [[At(1, 1)], [At(2, 3)], [At(1, 2)]];
    assert map[][ONE := At(1, 1)] == map[ONE := At(1, 1)];
    assert map[ONE := At(1, 1)][ONE := At(2, 3)] == map[ONE := At(2, 3)];
    assert map[ONE := At(2, 3)][ONE := At(2, 3)] == map[ONE := At(2, 3)];
  }

  lemma InsertedAlone(rows: seq<Columns>, row: Columns)
    requires Select(rows, BY_POSITION).Ok? && Select(rows, BY_POSITION).value.byKey == map[ONE := row]
    ensures ApplyTable(map[], rows, BY_POSITION) == Ok(map[ONE := row])
  {
    hide Select;
    OnlyNewKeysAreInserted(None, row, BY_POSITION);
    assert ApplyTable(map[], rows, BY_POSITION).Ok?;
    assert ApplyTable(map[], rows, BY_POSITION).value == map[ONE := row];
  }

  lemma RefusedSelection(rows: seq<Columns>)
    requires Select(rows, BY_POSITION) == Err(EqualPositionConflict)
    ensures ApplyTable(map[], rows, BY_POSITION) == Err(EqualPositionConflict)
  {
    hide Select;
  }
}
