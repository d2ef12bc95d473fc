/** Watermark planning (capture/watermark.py): which source rows a batch reads, and where it leaves the
    committed position. */
module Watermark {
  import opened Common
  import opened SourceOrder
  import opened ValueOrder

  /** The watermark value followed by the tie-breakers. */
  type Mark = p: seq<Value> | p != [] witness [Null]

  datatype Config = Config(column: string, tieBreaker: seq<string>, overlap: nat)

  datatype PlanError = ArityMismatch | MissingPosition | NotComparable | OverlapNeedsInstant

  datatype WatermarkBatch = WatermarkBatch(rows: seq<Columns>, before: Option<Mark>, after: Option<Mark>)

  /** The position of a row; only its non-null form is usable. */
  function MarkOf(row: Columns, config: Config): Mark {
    KeyValues(row, [config.column] + config.tieBreaker)
  }

  predicate HasMark(row: Columns, config: Config) {
    Null !in MarkOf(row, config)
  }

  /** compare_watermark_positions: the values decide first, whatever the number of tie-breakers. */
  function CompareMarks(a: Mark, b: Mark): Option<Relation> {
    if !Comparable(a[0], b[0]) then None
    else if a[0] != b[0] then if ValueLess(a[0], b[0]) then Some(Stale) else Some(Newer)
    else if |a| != |b| then None
    else Compare(a[1..], b[1..])
  }

  predicate Above(a: Mark, b: Mark) {
    CompareMarks(a, b) == Some(Newer)
  }

  // ---------------------------------------------------------------- the plan

  /** The sort by position; None when two rows cannot be compared. Equal positions keep their order. */
  function InsertRow(rows: seq<Columns>, row: Columns, config: Config): Option<seq<Columns>> {
    if rows == [] then Some([row])
    else
      var last := rows[|rows| - 1];
      match CompareMarks(MarkOf(row, config), MarkOf(last, config))
      case None => None
      case Some(Stale) =>
        var front := InsertRow(rows[..|rows| - 1], row, config);
        if front.None? then None else Some(front.value + [last])
      case Some(_) => Some(rows + [row])
  }

  function SortRows(rows: seq<Columns>, config: Config): Option<seq<Columns>> {
    if rows == [] then Some([])
    else
      var sorted := SortRows(rows[..|rows| - 1], config);
      if sorted.None? then None else InsertRow(sorted.value, rows[|rows| - 1], config)
  }

  predicate InOverlap(row: Columns, before: Mark, config: Config)
    requires before[0].Instant?
  {
    MarkOf(row, config)[0].Instant? && MarkOf(row, config)[0].at >= before[0].at - config.overlap
  }

  /** Whether a row belongs to the batch. */
  function Chooses(row: Columns, before: Mark, config: Config): Result<bool, PlanError> {
    if config.overlap > 0 then
      if !before[0].Instant? || !MarkOf(row, config)[0].Instant? then Err(OverlapNeedsInstant)
      else Ok(InOverlap(row, before, config))
    else
      var order := CompareMarks(MarkOf(row, config), before);
      if order.None? then Err(NotComparable) else Ok(order.value.Newer?)
  }

  function Choose(rows: seq<Columns>, before: Mark, config: Config): Result<seq<Columns>, PlanError> {
    if rows == [] then Ok([])
    else
      var chosen := Choose(rows[..|rows| - 1], before, config);
      if chosen.Err? then chosen
      else
        var c := Chooses(rows[|rows| - 1], before, config);
        if c.Err? then Err(c.error)
        else Ok(if c.value then chosen.value + [rows[|rows| - 1]] else chosen.value)
  }

  /** The committed position never moves back. */
  function AfterBatch(chosen: seq<Columns>, before: Option<Mark>, config: Config): Result<Option<Mark>, PlanError> {
    if chosen == [] then Ok(before)
    else
      var candidate := MarkOf(chosen[|chosen| - 1], config);
      if before.None? then Ok(Some(candidate))
      else
        var order := CompareMarks(candidate, before.value);
        if order.None? then Err(NotComparable)
        else if order.value.Newer? then Ok(Some(candidate)) else Ok(before)
  }

  function Plan(rows: seq<Columns>, config: Config, before: Option<Mark>): Result<WatermarkBatch, PlanError> {
    if before.Some? && |before.value| != 1 + |config.tieBreaker| then Err(ArityMismatch)
    else if exists r | r in rows :: !HasMark(r, config) then Err(MissingPosition)
    else
      var sorted := SortRows(rows, config);
      if sorted.None? then Err(NotComparable)
      else if before.Some? && config.overlap > 0 && !before.value[0].Instant? then Err(OverlapNeedsInstant)
      else
        var chosen := if before.None? then Ok(sorted.value) else Choose(sorted.value, before.value, config);
        if chosen.Err? then Err(chosen.error)
        else
          var after := AfterBatch(chosen.value, before, config);
          if after.Err? then Err(after.error) else Ok(WatermarkBatch(chosen.value, before, after.value))
  }

  // ---------------------------------------------------------------- the loops

  method SortByPosition(rows: seq<Columns>, config: Config) returns (r: Option<seq<Columns>>)
    ensures r == SortRows(rows, config)
  {
    hide InsertRow;
    var sorted: seq<Columns> := [];
    assert rows[..|rows|] == rows;
    for i := 0 to |rows|
      invariant SortRows(rows[..i], config) == Some(sorted)
    {
      assert rows[..i + 1][..i] == rows[..i];
      var next := InsertRow(sorted, rows[i], config);
      if next.None? {
        SortFailsLater(rows, i + 1, config);
        return None;
      }
      sorted := next.value;
    }
    r := Some(sorted);
  }

  lemma {:induction false} SortFailsLater(rows: seq<Columns>, n: nat, config: Config)
    requires n <= |rows| && SortRows(rows[..n], config).None?
    ensures SortRows(rows, config).None?
  {
    hide InsertRow;
    if n == |rows| {
      assert rows[..n] == rows;
    } else {
      assert rows[..|rows| - 1][..n] == rows[..n];
      SortFailsLater(rows[..|rows| - 1], n, config);
    }
  }

  method PlanWatermarkBatch(
      rows: seq<Columns>, config: Config, before: Option<Mark>) returns (r: Result<WatermarkBatch, PlanError>)
    ensures r == Plan(rows, config, before)
  {
    hide HasMark, MarkOf, SortRows, Chooses, CompareMarks;
    if before.Some? && |before.value| != 1 + |config.tieBreaker| {
      return Err(ArityMismatch);
    }
    for i := 0 to |rows|
      invariant forall j | 0 <= j < i :: HasMark(rows[j], config)
    {
      if !HasMark(rows[i], config) {
        assert rows[i] in rows;
        return Err(MissingPosition);
      }
    }
    var sorted := SortByPosition(rows, config);
    if sorted.None? {
      return Err(NotComparable);
    }
    var selected: seq<Columns> := [];
    if before.None? {
      selected := sorted.value;
    } else {
      if config.overlap > 0 && !before.value[0].Instant? {
        return Err(OverlapNeedsInstant);
      }
      assert sorted.value[..|sorted.value|] == sorted.value;
      for i := 0 to |sorted.value|
        invariant Choose(sorted.value[..i], before.value, config) == Ok(selected)
      {
        assert sorted.value[..i + 1][..i] == sorted.value[..i];
        var chosen := Chooses(sorted.value[i], before.value, config);
        if chosen.Err? {
          ChooseFailsLater(sorted.value, i + 1, before.value, config);
          return Err(chosen.error);
        }
        if chosen.value {
          selected := selected + [sorted.value[i]];
        }
      }
    }
    if selected == [] {
      return Ok(WatermarkBatch([], before, before));
    }
    var candidate := MarkOf(selected[|selected| - 1], config);
    var after := Some(candidate);
    if before.Some? {
      var order := CompareMarks(candidate, before.value);
      if order.None? {
        return Err(NotComparable);
      }
      if !order.value.Newer? {
        after := before;
      }
    }
    r := Ok(WatermarkBatch(selected, before, after));
  }

  lemma {:induction false} ChooseFailsLater(rows: seq<Columns>, n: nat, before: Mark, config: Config)
    requires n <= |rows| && Choose(rows[..n], before, config).Err?
    ensures Choose(rows, before, config) == Choose(rows[..n], before, config)
  {
    hide Chooses;
    if n == |rows| {
      assert rows[..n] == rows;
    } else {
      assert rows[..|rows| - 1][..n] == rows[..n];
      ChooseFailsLater(rows[..|rows| - 1], n, before, config);
    }
  }
}
