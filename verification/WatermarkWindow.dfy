/** What a watermark plan reads, said of the cells of the source rows (capture/watermark.py). */
module WatermarkWindow {
  import opened Common
  import opened SourceOrder
  import opened ValueOrder
  import opened Watermark
  import opened WatermarkDelivery

  /** The watermark cell of a row, followed by its tie-breaker cells. */
  function CellOf(row: Columns, i: nat, config: Config): Value
    requires i <= |config.tieBreaker|
  {
    Cell(row, if i == 0 then config.column else config.tieBreaker[i - 1])
  }

  lemma MarkIsCells(row: Columns, config: Config)
    ensures |MarkOf(row, config)| == 1 + |config.tieBreaker|
    ensures forall i: nat | i <= |config.tieBreaker| :: MarkOf(row, config)[i] == CellOf(row, i, config)
  {
  }

  // ---------------------------------------------------------------- strict plans

  /** The first cell that differs from the position is greater. */
  ghost predicate CellsAbove(row: Columns, before: Mark, config: Config) {
    |before| == 1 + |config.tieBreaker| && exists i: nat :: i < |before| && FirstAbove(row, before, config, i)
  }

  ghost predicate FirstAbove(row: Columns, before: Mark, config: Config, i: nat)
    requires i < |before| == 1 + |config.tieBreaker|
  {
    && (forall j: nat | j < i :: CellOf(row, j, config) == before[j])
    && Comparable(CellOf(row, i, config), before[i]) && ValueLess(before[i], CellOf(row, i, config))
  }

  ghost predicate DiffersAbove(a: seq<Value>, b: seq<Value>, i: nat)
    requires |a| == |b|
  {
    i < |a| && a[..i] == b[..i] && Comparable(a[i], b[i]) && ValueLess(b[i], a[i])
  }

  lemma {:induction false} NewerExactlyWhen(a: seq<Value>, b: seq<Value>)
    requires |a| == |b|
    ensures Compare(a, b) == Some(Newer) <==> exists i: nat :: DiffersAbove(a, b, i)
    decreases |a|
  {
    hide ValueLess, Comparable;
    if a != [] {
      if a[0] == b[0] {
        NewerExactlyWhen(a[1..], b[1..]);
        if exists i: nat :: DiffersAbove(a[1..], b[1..], i) {
          var i: nat :| DiffersAbove(a[1..], b[1..], i);
          assert a[..i + 1] == [a[0]] + a[1..][..i] && b[..i + 1] == [b[0]] + b[1..][..i];
          assert DiffersAbove(a, b, i + 1);
        }
        if exists i: nat :: DiffersAbove(a, b, i) {
          var i: nat :| DiffersAbove(a, b, i);
          EqualIsNotLess(a[0]);
          assert a[1..][..i - 1] == a[..i][1..] && b[1..][..i - 1] == b[..i][1..];
          assert DiffersAbove(a[1..], b[1..], i - 1);
        }
      } else {
        FirstDecides(a, b);
      }
    }
  }

  lemma EqualIsNotLess(a: Value)
    ensures Comparable(a, a) ==> !ValueLess(a, a)
  {
    if Comparable(a, a) {
      ValueTotal(a, a);
    }
  }

  lemma FirstDecides(a: seq<Value>, b: seq<Value>)
    requires |a| == |b| && a != [] && a[0] != b[0]
    ensures Compare(a, b) == Some(Newer) <==> DiffersAbove(a, b, 0)
    ensures forall i: nat | i > 0 :: !DiffersAbove(a, b, i)
  {
    if Comparable(a[0], b[0]) {
      ValueTotal(a[0], b[0]);
    }
    forall i: nat | i > 0 ensures !DiffersAbove(a, b, i) {
      if i < |a| {
        assert a[..i][0] == a[0] && b[..i][0] == b[0];
      }
    }
  }

  lemma AboveOnCells(row: Columns, before: Mark, config: Config)
    requires HasMark(row, config) && |before| == 1 + |config.tieBreaker|
    ensures Above(MarkOf(row, config), before) <==> CellsAbove(row, before, config)
  {
    hide MarkOf, ValueLess, Compare;
    var m := MarkOf(row, config);
    MarkIsCells(row, config);
    assert m[0] in m;
    NewerExactlyWhen(m, before);
    assert Above(m, before) <==> Compare(m, before) == Some(Newer) by {
      MarksCompare(m, before);
    }
    forall i: nat | i < |before| ensures FirstAbove(row, before, config, i) <==> DiffersAbove(m, before, i) {
      assert m[..i] == before[..i] <==> forall j: nat | j < i :: m[j] == before[j] by {
        SamePrefix(m, before, i);
      }
    }
  }

  lemma SamePrefix(a: seq<Value>, b: seq<Value>, i: nat)
    requires i <= |a| && i <= |b|
    ensures a[..i] == b[..i] <==> forall j: nat | j < i :: a[j] == b[j]
  {
    if a[..i] == b[..i] {
      forall j: nat | j < i ensures a[j] == b[j] {
        assert a[..i][j] == b[..i][j];
      }
    }
  }

  lemma MarksCompare(m: Mark, before: Mark)
    requires |m| == |before| && Null != m[0]
    ensures Above(m, before) <==> Compare(m, before) == Some(Newer)
  {
  }

  /** A strict plan needs a position of the configured length and rows without nulls in these columns. It takes a
      row, as
      often as it occurs, exactly when nothing is committed or the first of its cells that differs from the position is
      greater, and leaves the position at the cells of the last row taken. */
  lemma StrictBatchOnCells(rows: seq<Columns>, config: Config, before: Option<Mark>)
    requires config.overlap == 0 && Plan(rows, config, before).Ok?
    ensures before.Some? ==> |before.value| == 1 + |config.tieBreaker|
    ensures forall r, i: nat | r in rows && i <= |config.tieBreaker| :: CellOf(r, i, config) != Null
    ensures var b := Plan(rows, config, before).value;
            && (forall r | r in rows ::
                  multiset(b.rows)[r] == if before.None? || CellsAbove(r, before.value, config) then multiset(rows)[r] else 0)
            && b.before == before
            && (if b.rows == [] then b.after == before
                else b.after.Some? && |b.after.value| == 1 + |config.tieBreaker|
                     && forall i: nat | i <= |config.tieBreaker| :: b.after.value[i] == CellOf(b.rows[|b.rows| - 1], i, config))
  {
    hide MarkOf, SortRows, Choose, CompareMarks, CellsAbove, Above, Ascending;
    StrictPlanTakesExactlyTheFreshRows(rows, config, before);
    var b := Plan(rows, config, before).value;
    forall r | r in rows ensures forall i: nat | i <= |config.tieBreaker| :: CellOf(r, i, config) != Null {
      MarkIsCells(r, config);
      assert forall i: nat | i <= |config.tieBreaker| :: MarkOf(r, config)[i] in MarkOf(r, config);
    }
    if before.Some? {
      forall r | r in rows ensures Fresh(r, before, config) <==> CellsAbove(r, before.value, config) {
        AboveOnCells(r, before.value, config);
      }
    }
    if b.rows != [] {
      MarkIsCells(b.rows[|b.rows| - 1], config);
    }
  }

  // ---------------------------------------------------------------- plans that look back

  /** The watermark cell is an instant at or after the given one. */
  predicate AtOrAfter(row: Columns, instant: int, config: Config) {
    CellOf(row, 0, config).Instant? && CellOf(row, 0, config).at >= instant
  }

  /** A plan that looks back needs instants. It takes a row, as often as it occurs, exactly when its watermark cell
      lies at
      or after the committed instant minus the overlap. */
  lemma OverlapBatchOnCells(rows: seq<Columns>, config: Config, before: Mark)
    requires config.overlap > 0 && Plan(rows, config, Some(before)).Ok?
    ensures |before| == 1 + |config.tieBreaker| && before[0].Instant?
    ensures forall r | r in rows :: CellOf(r, 0, config).Instant?
    ensures var b := Plan(rows, config, Some(before)).value;
            && (forall r | r in rows ::
                  multiset(b.rows)[r] == if AtOrAfter(r, before[0].at - config.overlap, config) then multiset(rows)[r] else 0)
            && multiset(b.rows) <= multiset(rows)
            && Ascending(b.rows, config) && b.before == Some(before)
  {
    hide MarkOf, HasMark, SortRows, Choose, CompareMarks, Ascending;
    SortSorts(rows, config);
    var sorted := SortRows(rows, config).value;
    ChoosesExactly(sorted, before, config);
    ChooseKeepsAscending(sorted, before, config);
    forall r | r in rows
      ensures CellOf(r, 0, config).Instant?
      ensures Chosen(r, before, config) <==> AtOrAfter(r, before[0].at - config.overlap, config)
    {
      MarkIsCells(r, config);
      assert r in multiset(sorted);
    }
    var b := Plan(rows, config, Some(before)).value;
    forall r ensures multiset(b.rows)[r] <= multiset(rows)[r] {
    }
  }

  function Looking(config: Config, overlap: nat): Config {
    config.(overlap := overlap)
  }

  lemma SameCells(row: Columns, config: Config, overlap: nat)
    ensures MarkOf(row, Looking(config, overlap)) == MarkOf(row, config)
    ensures HasMark(row, Looking(config, overlap)) <==> HasMark(row, config)
  {
  }

  lemma {:induction false} SameSorted(rows: seq<Columns>, config: Config, overlap: nat)
    ensures SortRows(rows, Looking(config, overlap)) == SortRows(rows, config)
  {
    SameSort(rows, config);
    SameSort(rows, Looking(config, overlap));
    assert Strict(Looking(config, overlap)) == Strict(config);
  }

  lemma {:induction false} WiderChooses(rows: seq<Columns>, before: Mark, config: Config, wider: nat)
    requires 0 < config.overlap <= wider && before[0].Instant? && Choose(rows, before, config).Ok?
    ensures Choose(rows, before, Looking(config, wider)).Ok?
    ensures multiset(Choose(rows, before, config).value) <= multiset(Choose(rows, before, Looking(config, wider)).value)
  {
    hide MarkOf;
    if rows != [] {
      WiderChooses(rows[..|rows| - 1], before, config, wider);
      SameCells(rows[|rows| - 1], config, wider);
    }
  }

  /** Whatever a plan that looks back chooses, it leaves the position at the last source row if that lies above it. */
  lemma PositionAfter(sorted: seq<Columns>, before: Mark, config: Config)
    requires config.overlap > 0 && before[0].Instant? && AllPlaced(sorted, config) && Ascending(sorted, config)
    requires Choose(sorted, before, config).Ok?
    ensures sorted != [] ==> MarkOf(sorted[|sorted| - 1], config)[0].Instant?
    ensures AfterBatch(Choose(sorted, before, config).value, Some(before), config) ==
            if sorted == [] || MarkOf(sorted[|sorted| - 1], config)[0].at < before[0].at then Ok(Some(before))
            else
              var last := MarkOf(sorted[|sorted| - 1], config);
              var order := CompareMarks(last, before);
              if order.None? then Err(NotComparable) else if order.value.Newer? then Ok(Some(last)) else Ok(Some(before))
  {
    hide MarkOf, Choose, Chooses, Ascending, HasMark;
    ChoosesExactly(sorted, before, config);
    var chosen := Choose(sorted, before, config).value;
    if sorted == [] {
      NoneChosen(before, config);
    } else {
      var last := sorted[|sorted| - 1];
      assert last in sorted;
      WindowOf(last, before, config);
      if Chosen(last, before, config) {
        AfterOfChosen(sorted, before, config);
      } else {
        forall r ensures r !in chosen {
          if r in chosen {
            assert r in multiset(chosen);
            assert r in sorted;
            WindowOf(r, before, config);
            LastIsGreatest(sorted, r, config);
          }
        }
        NoElements(chosen);
      }
    }
  }

  lemma NoneChosen(before: Mark, config: Config)
    ensures Choose([], before, config) == Ok([])
  {
  }

  lemma WindowOf(row: Columns, before: Mark, config: Config)
    requires config.overlap > 0 && before[0].Instant? && Chooses(row, before, config).Ok?
    ensures MarkOf(row, config)[0].Instant?
    ensures Chosen(row, before, config) <==> MarkOf(row, config)[0].at >= before[0].at - config.overlap
  {
    hide MarkOf;
  }

  lemma LastIsGreatest(sorted: seq<Columns>, row: Columns, config: Config)
    requires Ascending(sorted, config) && row in sorted
    requires MarkOf(row, config)[0].Instant? && MarkOf(sorted[|sorted| - 1], config)[0].Instant?
    ensures MarkOf(row, config)[0].at <= MarkOf(sorted[|sorted| - 1], config)[0].at
  {
    hide MarkOf;
    var i :| 0 <= i < |sorted| && sorted[i] == row;
    assert i < |sorted| - 1 ==> UpTo(MarkOf(sorted[i], config), MarkOf(sorted[|sorted| - 1], config));
  }

  /** A larger overlap reads all that a smaller one reads, and leaves the position where that leaves it. */
  lemma LargerOverlapReadsMore(rows: seq<Columns>, config: Config, wider: nat, before: Mark)
    requires 0 < config.overlap <= wider && Plan(rows, config, Some(before)).Ok?
    ensures var far := Plan(rows, Looking(config, wider), Some(before));
            && far.Ok?
            && multiset(Plan(rows, config, Some(before)).value.rows) <= multiset(far.value.rows)
            && far.value.after == Plan(rows, config, Some(before)).value.after
  {
    hide MarkOf, HasMark, SortRows, Choose, CompareMarks, Ascending, AfterBatch;
    forall r: Columns ensures MarkOf(r, Looking(config, wider)) == MarkOf(r, config) && (HasMark(r, Looking(config, wider)) <==> HasMark(r, config)) {
      SameCells(r, config, wider);
    }
    SameSorted(rows, config, wider);
    SortSorts(rows, config);
    SortSorts(rows, Looking(config, wider));
    var sorted := SortRows(rows, config).value;
    WiderChooses(sorted, before, config, wider);
    PositionAfter(sorted, before, config);
    PositionAfter(sorted, before, Looking(config, wider));
  }

  // ---------------------------------------------------------------- equal positions

  /** The rows of one position, in the order of the list. */
  function AtMark(rows: seq<Columns>, m: Mark, config: Config): seq<Columns> {
    if rows == [] then []
    else AtMark(rows[..|rows| - 1], m, config) + if MarkOf(rows[|rows| - 1], config) == m then [rows[|rows| - 1]] else []
  }

  lemma {:induction false} InsertIsStable(rows: seq<Columns>, row: Columns, m: Mark, config: Config)
    requires AllPlaced(rows, config) && HasMark(row, config) && InsertRow(rows, row, config).Some?
    ensures AtMark(InsertRow(rows, row, config).value, m, config) ==
            AtMark(rows, m, config) + if MarkOf(row, config) == m then [row] else []
    decreases |rows|
  {
    hide MarkOf, HasMark, CompareMarks;
    if rows == [] {
      assert [row][..|[row]| - 1] == [] && AtMark([], m, config) == [];
    } else {
      var prefix, last := rows[..|rows| - 1], rows[|rows| - 1];
      assert last in rows;
      if CompareMarks(MarkOf(row, config), MarkOf(last, config)).value.Stale? {
        InsertIsStable(prefix, row, m, config);
        var front := InsertRow(prefix, row, config).value;
        assert (front + [last])[..|front|] == front;
        RowIsPlaced(row, config);
        RowIsPlaced(last, config);
        UpToIsNotAbove(MarkOf(row, config), MarkOf(last, config), config);
      } else {
        assert (rows + [row])[..|rows|] == rows;
      }
    }
  }

  /** The sort keeps rows of equal position in the order of the source. */
  lemma {:induction false} SortIsStable(rows: seq<Columns>, m: Mark, config: Config)
    requires AllPlaced(rows, config) && SortRows(rows, config).Some?
    ensures AtMark(SortRows(rows, config).value, m, config) == AtMark(rows, m, config)
    decreases |rows|
  {
    hide MarkOf, HasMark, InsertRow, Ascending;
    if rows != [] {
      var prefix, last := rows[..|rows| - 1], rows[|rows| - 1];
      assert rows == prefix + [last] && last in rows;
      SortIsStable(prefix, m, config);
      SortSorts(prefix, config);
      InsertIsStable(SortRows(prefix, config).value, last, m, config);
    }
  }

  // ---------------------------------------------------------------- acceptance

  ghost predicate CanCompare(a: Columns, b: Columns, config: Config) {
    CompareMarks(MarkOf(a, config), MarkOf(b, config)).Some?
  }

  lemma ComparedBothWays(a: Columns, b: Columns, config: Config)
    requires HasMark(a, config) && HasMark(b, config)
    ensures CanCompare(a, b, config) <==>
              UpTo(MarkOf(a, config), MarkOf(b, config)) || UpTo(MarkOf(b, config), MarkOf(a, config))
    ensures CanCompare(a, b, config) <==> CanCompare(b, a, config)
    ensures CanCompare(a, a, config)
  {
    hide MarkOf, HasMark, CompareMarks, Before;
    RowIsPlaced(a, config);
    RowIsPlaced(b, config);
    UpToIsNotAbove(MarkOf(a, config), MarkOf(b, config), config);
    UpToIsNotAbove(MarkOf(b, config), MarkOf(a, config), config);
    UpToIsNotAbove(MarkOf(a, config), MarkOf(a, config), config);
  }

  /** Inserting meets every row that cannot be compared. */
  lemma {:induction false} InsertsExactlyWhen(rows: seq<Columns>, row: Columns, config: Config)
    requires AllPlaced(rows, config) && HasMark(row, config) && Ascending(rows, config)
    ensures InsertRow(rows, row, config).Some? <==> forall r | r in rows :: CanCompare(row, r, config)
    decreases |rows|
  {
    hide MarkOf, HasMark, CompareMarks, UpTo, Ascending, CanCompare;
    if rows != [] {
      var prefix, last := rows[..|rows| - 1], rows[|rows| - 1];
      assert rows == prefix + [last] && last in rows;
      AscendingPrefix(rows, config);
      ComparedIs(row, last, config);
      if CanCompare(row, last, config) {
        if CompareMarks(MarkOf(row, config), MarkOf(last, config)).value.Stale? {
          InsertsExactlyWhen(prefix, row, config);
        } else {
          RowIsPlaced(row, config);
          RowIsPlaced(last, config);
          EqualOrAbove(MarkOf(row, config), MarkOf(last, config), config);
          forall r | r in prefix ensures CanCompare(row, r, config) {
            UpToTransitive(MarkOf(r, config), MarkOf(last, config), MarkOf(row, config));
            ComparedBothWays(row, r, config);
          }
        }
      }
    }
  }

  lemma ComparedIs(a: Columns, b: Columns, config: Config)
    ensures CanCompare(a, b, config) <==> CompareMarks(MarkOf(a, config), MarkOf(b, config)).Some?
  {
  }

  /** The source can be sorted exactly when every two of its rows can be compared. */
  lemma {:induction false} SortsExactlyWhen(rows: seq<Columns>, config: Config)
    requires AllPlaced(rows, config)
    ensures SortRows(rows, config).Some? <==> forall a, b | a in rows && b in rows :: CanCompare(a, b, config)
    decreases |rows|
  {
    hide MarkOf, HasMark, InsertRow, Ascending, CanCompare;
    if rows != [] {
      var prefix, last := rows[..|rows| - 1], rows[|rows| - 1];
      assert rows == prefix + [last] && last in rows;
      SortsExactlyWhen(prefix, config);
      if SortRows(prefix, config).Some? {
        SortSorts(prefix, config);
        var sorted := SortRows(prefix, config).value;
        InsertsExactlyWhen(sorted, last, config);
        forall r ensures r in sorted <==> r in prefix {
          assert r in multiset(sorted) <==> r in multiset(prefix);
        }
        forall r | r in rows ensures CanCompare(r, last, config) <==> CanCompare(last, r, config) {
          ComparedBothWays(r, last, config);
        }
        ComparedBothWays(last, last, config);
      }
    }
  }

  /** The cells of a row are complete. */
  ghost predicate Complete(row: Columns, config: Config) {
    forall i: nat | i <= |config.tieBreaker| :: CellOf(row, i, config) != Null
  }

  lemma CompleteIsPlaced(row: Columns, config: Config)
    ensures HasMark(row, config) <==> Complete(row, config)
  {
    MarkIsCells(row, config);
    var m := MarkOf(row, config);
    assert forall i: nat | i < |m| :: m[i] == CellOf(row, i, config) && m[i] in m;
  }

  /** Whether the rows can be read against the committed position: strictly, each can be compared with it; looking
      back, all
      watermark cells and the committed one are instants, and the greatest row can be compared with the position. */
  ghost predicate ReadAgainst(rows: seq<Columns>, before: Mark, config: Config) {
    && |before| == 1 + |config.tieBreaker|
    && if config.overlap == 0 then forall r | r in rows :: CompareMarks(MarkOf(r, config), before).Some?
       else before[0].Instant? && (forall r | r in rows :: CellOf(r, 0, config).Instant?)
            && forall r | r in rows && IsGreatest(r, rows, config) :: CompareMarks(MarkOf(r, config), before).Some?
  }

  ghost predicate IsGreatest(row: Columns, rows: seq<Columns>, config: Config) {
    forall r | r in rows :: UpTo(MarkOf(r, config), MarkOf(row, config))
  }

  lemma {:induction false} ChoosesAllWhen(rows: seq<Columns>, before: Mark, config: Config)
    ensures Choose(rows, before, config).Ok? <==> forall r | r in rows :: Chooses(r, before, config).Ok?
    decreases |rows|
  {
    hide Chooses;
    if rows != [] {
      ChoosesAllWhen(rows[..|rows| - 1], before, config);
      assert rows == rows[..|rows| - 1] + [rows[|rows| - 1]];
    }
  }

  /** A strict plan that can choose can also move on. */
  lemma StrictMovesOn(sorted: seq<Columns>, before: Mark, config: Config)
    requires config.overlap == 0 && Choose(sorted, before, config).Ok?
    ensures AfterBatch(Choose(sorted, before, config).value, Some(before), config).Ok?
  {
    hide MarkOf, Choose, Chooses, CompareMarks;
    ChoosesExactly(sorted, before, config);
    var chosen := Choose(sorted, before, config).value;
    if chosen != [] {
      var last := chosen[|chosen| - 1];
      assert last in multiset(chosen);
      StrictChoice(last, before, config);
    }
  }

  lemma LastOfSorted(sorted: seq<Columns>, rows: seq<Columns>, config: Config)
    requires Ascending(sorted, config) && multiset(sorted) == multiset(rows) && sorted != []
    ensures sorted[|sorted| - 1] in rows && IsGreatest(sorted[|sorted| - 1], rows, config)
    ensures forall r | r in rows && IsGreatest(r, rows, config) :: MarkOf(r, config) == MarkOf(sorted[|sorted| - 1], config)
  {
    hide MarkOf, Before;
    var last := sorted[|sorted| - 1];
    assert last in multiset(rows);
    forall r | r in rows ensures UpTo(MarkOf(r, config), MarkOf(last, config)) {
      assert r in multiset(sorted);
      var i :| 0 <= i < |sorted| && sorted[i] == r;
      assert i < |sorted| - 1 ==> UpTo(MarkOf(sorted[i], config), MarkOf(last, config));
    }
    forall r | r in rows && IsGreatest(r, rows, config) ensures MarkOf(r, config) == MarkOf(last, config) {
      NotBelowEachOther(MarkOf(r, config), MarkOf(last, config));
    }
  }

  lemma NotBelowEachOther(a: Mark, b: Mark)
    requires UpTo(a, b) && UpTo(b, a)
    ensures a == b
  {
    hide Before;
    if a != b {
      BeforeTransitive(a, b, a);
      BeforeIrreflexive(a);
    }
  }

  /** Looking back, a plan that can choose can move on exactly when the greatest row can be compared with the
      position. */
  lemma LookingBackMovesOn(rows: seq<Columns>, sorted: seq<Columns>, before: Mark, config: Config)
    requires config.overlap > 0 && before[0].Instant? && AllPlaced(sorted, config) && Ascending(sorted, config)
    requires multiset(sorted) == multiset(rows) && Choose(sorted, before, config).Ok?
    ensures AfterBatch(Choose(sorted, before, config).value, Some(before), config).Ok? <==>
              forall r | r in rows && IsGreatest(r, rows, config) :: CompareMarks(MarkOf(r, config), before).Some?
  {
    hide MarkOf, Choose, Chooses, AfterBatch, Ascending, IsGreatest;
    PositionAfter(sorted, before, config);
    if sorted != [] {
      LastOfSorted(sorted, rows, config);
    } else {
      NoElementsOf(rows);
    }
  }

  lemma NoElementsOf(rows: seq<Columns>)
    requires multiset(rows) == multiset([])
    ensures rows == []
  {
    assert |multiset(rows)| == 0;
  }

  /** A plan is accepted exactly when the cells of all rows are complete, every two rows can be compared, and the
      rows can be
      read against the committed position. */
  lemma PlanAcceptedExactlyWhen(rows: seq<Columns>, config: Config, before: Option<Mark>)
    ensures Plan(rows, config, before).Ok? <==>
            && (forall r | r in rows :: Complete(r, config))
            && (forall a, b | a in rows && b in rows :: CanCompare(a, b, config))
            && (before.Some? ==> ReadAgainst(rows, before.value, config))
  {
    hide MarkOf, HasMark, SortRows, Choose, CompareMarks, CanCompare, Complete, Ascending, AfterBatch, IsGreatest;
    forall r | r in rows ensures HasMark(r, config) <==> Complete(r, config) {
      CompleteIsPlaced(r, config);
    }
    if AllPlaced(rows, config) {
      SortsExactlyWhen(rows, config);
      if SortRows(rows, config).Some? {
        SortSorts(rows, config);
        if before.Some? && |before.value| == 1 + |config.tieBreaker| {
          ReadsExactlyWhen(rows, SortRows(rows, config).value, before.value, config);
        } else if before.None? {
          NothingBefore(SortRows(rows, config).value, config);
        }
      }
    }
  }

  lemma NothingBefore(chosen: seq<Columns>, config: Config)
    ensures AfterBatch(chosen, None, config).Ok?
  {
  }

  lemma ReadsExactlyWhen(rows: seq<Columns>, sorted: seq<Columns>, before: Mark, config: Config)
    requires AllPlaced(sorted, config) && Ascending(sorted, config) && multiset(sorted) == multiset(rows)
    requires |before| == 1 + |config.tieBreaker|
    ensures ReadAgainst(rows, before, config) <==>
            && (config.overlap > 0 ==> before[0].Instant?)
            && Choose(sorted, before, config).Ok?
            && AfterBatch(Choose(sorted, before, config).value, Some(before), config).Ok?
  {
    hide MarkOf, HasMark, Choose, CompareMarks, Ascending, AfterBatch, IsGreatest;
    ChoosesAllWhen(sorted, before, config);
    forall r ensures r in sorted <==> r in rows {
      assert r in multiset(sorted) <==> r in multiset(rows);
    }
    forall r | r in rows
      ensures config.overlap == 0 ==> (Chooses(r, before, config).Ok? <==> CompareMarks(MarkOf(r, config), before).Some?)
      ensures config.overlap > 0 && before[0].Instant? ==> (Chooses(r, before, config).Ok? <==> CellOf(r, 0, config).Instant?)
    {
      MarkIsCells(r, config);
    }
    if Choose(sorted, before, config).Ok? {
      if config.overlap == 0 {
        StrictMovesOn(sorted, before, config);
      } else if before[0].Instant? {
        LookingBackMovesOn(rows, sorted, before, config);
      }
    }
  }
}
