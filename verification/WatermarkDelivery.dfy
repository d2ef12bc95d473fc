/** What watermark planning delivers (capture/watermark.py): over rounds of plan and commit every source row
    exactly once, and with an overlap never less and never a step back. */
module WatermarkDelivery {
  import opened Common
  import opened SourceOrder
  import opened ValueOrder
  import opened Watermark

  // ---------------------------------------------------------------- marks of one configuration

  /** A mark of the configured arity without nulls. */
  predicate Placed(m: Mark, config: Config) {
    |m| == 1 + |config.tieBreaker| && Null !in m
  }

  lemma RowIsPlaced(row: Columns, config: Config)
    requires HasMark(row, config)
    ensures Placed(MarkOf(row, config), config)
  {
  }

  lemma PlacedMarks(a: Mark, b: Mark, config: Config)
    requires Placed(a, config) && Placed(b, config)
    ensures CompareMarks(a, b) == Compare(a, b)
  {
    assert a[0] in a && b[0] in b;
  }

  /** At the same position or before it. */
  predicate UpTo(a: Mark, b: Mark) {
    a == b || Before(a, b)
  }

  lemma UpToTransitive(a: Mark, b: Mark, c: Mark)
    requires UpTo(a, b) && UpTo(b, c)
    ensures UpTo(a, c)
  {
    hide Before;
    if a != b && b != c {
      BeforeTransitive(a, b, c);
    }
  }

  lemma UpToIsNotAbove(a: Mark, b: Mark, config: Config)
    requires Placed(a, config) && Placed(b, config)
    ensures UpTo(a, b) ==> !Above(a, b)
    ensures CompareMarks(a, b).Some? ==> (UpTo(a, b) <==> !Above(a, b))
    ensures Above(a, b) <==> Before(b, a)
    ensures CompareMarks(a, b) == Some(Equal) <==> a == b
    ensures CompareMarks(a, b) == Some(Stale) <==> Before(a, b)
  {
    hide Compare;
    PlacedMarks(a, b, config);
    CompareMirrors(a, b);
    CompareEqual(a, b);
    var order := CompareMarks(a, b);
    if order.Some? {
      match order.value {
        case Stale =>
        case Equal =>
        case Newer => assert !UpTo(a, b);
      }
    }
  }

  predicate AllPlaced(rows: seq<Columns>, config: Config) {
    forall r | r in rows :: HasMark(r, config)
  }

  // ---------------------------------------------------------------- the sort

  predicate Ascending(rows: seq<Columns>, config: Config) {
    forall i, j | 0 <= i < j < |rows| :: UpTo(MarkOf(rows[i], config), MarkOf(rows[j], config))
  }

  predicate AllUpTo(rows: seq<Columns>, m: Mark, config: Config) {
    forall r | r in rows :: UpTo(MarkOf(r, config), m)
  }

  lemma {:induction false} InsertIsPermutation(rows: seq<Columns>, row: Columns, config: Config)
    requires InsertRow(rows, row, config).Some?
    ensures multiset(InsertRow(rows, row, config).value) == multiset(rows) + multiset{row}
  {
    hide MarkOf, CompareMarks;
    if rows != [] {
      assert rows == rows[..|rows| - 1] + [rows[|rows| - 1]];
      if InsertRow(rows[..|rows| - 1], row, config).Some? {
        InsertIsPermutation(rows[..|rows| - 1], row, config);
      }
    }
  }

  lemma AscendingWithLast(rows: seq<Columns>, last: Columns, config: Config)
    requires Ascending(rows, config) && AllUpTo(rows, MarkOf(last, config), config)
    ensures Ascending(rows + [last], config)
  {
    hide MarkOf, UpTo;
    var all := rows + [last];
    forall i, j | 0 <= i < j < |all| ensures UpTo(MarkOf(all[i], config), MarkOf(all[j], config)) {
      assert all[i] == rows[i] && rows[i] in rows;
      if j < |rows| {
        assert all[j] == rows[j];
      }
    }
  }

  lemma AscendingPrefix(rows: seq<Columns>, config: Config)
    requires Ascending(rows, config) && rows != []
    ensures Ascending(rows[..|rows| - 1], config)
    ensures AllUpTo(rows[..|rows| - 1], MarkOf(rows[|rows| - 1], config), config)
  {
    hide MarkOf, UpTo;
    forall r | r in rows[..|rows| - 1] ensures UpTo(MarkOf(r, config), MarkOf(rows[|rows| - 1], config)) {
      var i :| 0 <= i < |rows| - 1 && rows[i] == r;
    }
  }

  lemma AllUpToLater(rows: seq<Columns>, a: Mark, b: Mark, config: Config)
    requires AllUpTo(rows, a, config) && UpTo(a, b)
    ensures AllUpTo(rows, b, config)
  {
    hide MarkOf, UpTo;
    forall r | r in rows ensures UpTo(MarkOf(r, config), b) {
      UpToTransitive(MarkOf(r, config), a, b);
    }
  }

  lemma {:induction false} InsertKeepsAscending(rows: seq<Columns>, row: Columns, config: Config)
    requires AllPlaced(rows, config) && HasMark(row, config)
    requires Ascending(rows, config) && InsertRow(rows, row, config).Some?
    ensures Ascending(InsertRow(rows, row, config).value, config)
  {
    hide MarkOf, HasMark, CompareMarks, UpTo, Ascending, AllUpTo;
    if rows == [] {
      ShortListsAscend(row, config);
    } else {
      var prefix, last := rows[..|rows| - 1], rows[|rows| - 1];
      assert last in rows;
      AscendingPrefix(rows, config);
      RowIsPlaced(row, config);
      RowIsPlaced(last, config);
      var a, b := MarkOf(row, config), MarkOf(last, config);
      UpToIsNotAbove(a, b, config);
      UpToIsNotAbove(b, a, config);
      if CompareMarks(a, b).value.Stale? {
        assert AllPlaced(prefix, config);
        InsertKeepsAscending(prefix, row, config);
        InsertIsPermutation(prefix, row, config);
        WithOneMore(prefix, row, InsertRow(prefix, row, config).value, b, config);
        AscendingWithLast(InsertRow(prefix, row, config).value, last, config);
      } else {
        assert UpTo(b, a) by {
          EqualOrAbove(a, b, config);
        }
        AllUpToLater(prefix, b, a, config);
        assert AllUpTo(rows, a, config) by {
          assert rows == prefix + [last];
          AllUpToWithLast(prefix, last, a, config);
        }
        AscendingWithLast(rows, row, config);
      }
    }
  }

  lemma EqualOrAbove(a: Mark, b: Mark, config: Config)
    requires Placed(a, config) && Placed(b, config)
    requires CompareMarks(a, b).Some? && !CompareMarks(a, b).value.Stale?
    ensures UpTo(b, a)
  {
    hide CompareMarks, Before;
    UpToIsNotAbove(a, b, config);
  }

  lemma ShortListsAscend(row: Columns, config: Config)
    ensures Ascending([], config) && Ascending([row], config)
  {
  }

  lemma AllUpToWithLast(rows: seq<Columns>, last: Columns, m: Mark, config: Config)
    requires AllUpTo(rows, m, config) && UpTo(MarkOf(last, config), m)
    ensures AllUpTo(rows + [last], m, config)
  {
    hide MarkOf, UpTo;
  }

  lemma WithOneMore(rows: seq<Columns>, row: Columns, all: seq<Columns>, m: Mark, config: Config)
    requires AllUpTo(rows, m, config) && Before(MarkOf(row, config), m) && multiset(all) == multiset(rows) + multiset{row}
    ensures AllUpTo(all, m, config)
  {
    hide MarkOf, Before;
    forall r | r in all ensures UpTo(MarkOf(r, config), m) {
      assert r in multiset(all);
    }
  }

  lemma {:induction false} SortSorts(rows: seq<Columns>, config: Config)
    requires AllPlaced(rows, config) && SortRows(rows, config).Some?
    ensures multiset(SortRows(rows, config).value) == multiset(rows)
    ensures Ascending(SortRows(rows, config).value, config)
    ensures AllPlaced(SortRows(rows, config).value, config)
  {
    hide HasMark, InsertRow, Ascending;
    if rows == [] {
      ShortListsAscend(map[], config);
    } else {
      var prefix, last := rows[..|rows| - 1], rows[|rows| - 1];
      assert rows == prefix + [last];
      SortSorts(prefix, config);
      InsertIsPermutation(SortRows(prefix, config).value, last, config);
      InsertKeepsAscending(SortRows(prefix, config).value, last, config);
      forall r | r in SortRows(rows, config).value ensures HasMark(r, config) {
        assert r in multiset(SortRows(rows, config).value);
      }
    }
  }

  // ---------------------------------------------------------------- what is chosen

  predicate Chosen(row: Columns, before: Mark, config: Config) {
    Chooses(row, before, config) == Ok(true)
  }

  lemma {:induction false} ChoosesExactly(rows: seq<Columns>, before: Mark, config: Config)
    requires Choose(rows, before, config).Ok?
    ensures forall r | r in rows :: Chooses(r, before, config).Ok?
    ensures forall r :: multiset(Choose(rows, before, config).value)[r] == if Chosen(r, before, config) then multiset(rows)[r] else 0
  {
    hide Chooses;
    if rows != [] {
      ChoosesExactly(rows[..|rows| - 1], before, config);
      assert rows == rows[..|rows| - 1] + [rows[|rows| - 1]];
    }
  }

  lemma {:induction false} ChooseKeepsAscending(rows: seq<Columns>, before: Mark, config: Config)
    requires Ascending(rows, config) && Choose(rows, before, config).Ok?
    ensures Ascending(Choose(rows, before, config).value, config)
    ensures forall r | r in Choose(rows, before, config).value :: r in rows
  {
    hide Chooses, Ascending, AllUpTo, MarkOf;
    if rows != [] {
      var prefix, last := rows[..|rows| - 1], rows[|rows| - 1];
      assert rows == prefix + [last];
      AscendingPrefix(rows, config);
      ChooseKeepsAscending(prefix, before, config);
      var chosen := Choose(prefix, before, config).value;
      if Chooses(last, before, config).value {
        SubsetUpTo(chosen, prefix, MarkOf(last, config), config);
        AscendingWithLast(chosen, last, config);
      }
    }
  }

  lemma SubsetUpTo(some: seq<Columns>, rows: seq<Columns>, m: Mark, config: Config)
    requires AllUpTo(rows, m, config) && forall r | r in some :: r in rows
    ensures AllUpTo(some, m, config)
  {
    hide MarkOf, UpTo;
  }

  /** Whether a strict plan takes a row: everything before the first commit, then what lies above. */
  predicate Fresh(row: Columns, before: Option<Mark>, config: Config) {
    before.None? || Above(MarkOf(row, config), before.value)
  }

  /** A strict plan takes exactly the rows above the committed position, in ascending order, and moves the
      position to the last of them. */
  lemma StrictPlanTakesExactlyTheFreshRows(rows: seq<Columns>, config: Config, before: Option<Mark>)
    requires config.overlap == 0 && Plan(rows, config, before).Ok?
    ensures var b := Plan(rows, config, before).value;
            && AllPlaced(rows, config)
            && Ascending(b.rows, config)
            && (forall r :: multiset(b.rows)[r] == if Fresh(r, before, config) then multiset(rows)[r] else 0)
            && b.after == if b.rows == [] then before else Some(MarkOf(b.rows[|b.rows| - 1], config))
  {
    hide HasMark, MarkOf, SortRows, Choose, Chooses, CompareMarks, Ascending;
    SortSorts(rows, config);
    var sorted := SortRows(rows, config).value;
    if before.Some? {
      ChoosesExactly(sorted, before.value, config);
      ChooseKeepsAscending(sorted, before.value, config);
      forall r | r in sorted ensures Chosen(r, before.value, config) <==> Fresh(r, before, config) {
        StrictChoice(r, before.value, config);
      }
      var b := Plan(rows, config, before).value;
      forall r ensures multiset(b.rows)[r] == if Fresh(r, before, config) then multiset(rows)[r] else 0 {
        assert r !in sorted ==> multiset(sorted)[r] == 0;
      }
      if b.rows != [] {
        var last := b.rows[|b.rows| - 1];
        assert last in multiset(b.rows);
      }
    }
  }

  lemma StrictChoice(row: Columns, before: Mark, config: Config)
    requires config.overlap == 0
    ensures Chosen(row, before, config) <==> Above(MarkOf(row, config), before)
    ensures Chooses(row, before, config).Ok? <==> CompareMarks(MarkOf(row, config), before).Some?
  {
    hide MarkOf, CompareMarks;
  }

  /** After a plan no source row lies above the new position, and the position has not moved back. */
  lemma NothingIsLeftAbove(rows: seq<Columns>, config: Config, before: Option<Mark>)
    requires config.overlap == 0 && Plan(rows, config, before).Ok? && (before.Some? ==> Placed(before.value, config))
    ensures var after := Plan(rows, config, before).value.after;
            && (after.Some? ==> Placed(after.value, config))
            && (before.Some? ==> after.Some? && UpTo(before.value, after.value))
            && (forall r | r in rows :: after.Some? && !Above(MarkOf(r, config), after.value))
  {
    hide HasMark, MarkOf, CompareMarks, Ascending, Plan, Placed, UpTo;
    StrictPlanTakesExactlyTheFreshRows(rows, config, before);
    var b := Plan(rows, config, before).value;
    if b.rows != [] {
      var last := b.rows[|b.rows| - 1];
      assert last in multiset(b.rows);
      assert last in rows;
      RowIsPlaced(last, config);
      if before.Some? {
        UpToIsNotAbove(MarkOf(last, config), before.value, config);
        BeforeIsUpTo(before.value, MarkOf(last, config));
      }
      AscendingPrefix(b.rows, config);
    } else if before.Some? {
      BeforeIsUpTo(before.value, before.value);
    }
    forall r | r in rows ensures b.after.Some? && !Above(MarkOf(r, config), b.after.value) {
      RowBelowAfter(rows, config, before, r);
    }
  }

  lemma BeforeIsUpTo(a: Mark, b: Mark)
    ensures Before(a, b) || a == b ==> UpTo(a, b)
  {
  }

  lemma RowBelowAfter(rows: seq<Columns>, config: Config, before: Option<Mark>, r: Columns)
    requires config.overlap == 0 && Plan(rows, config, before).Ok? && (before.Some? ==> Placed(before.value, config))
    requires r in rows
    ensures var after := Plan(rows, config, before).value.after; after.Some? && !Above(MarkOf(r, config), after.value)
  {
    hide HasMark, MarkOf, CompareMarks, Ascending, Plan, Placed, UpTo;
    StrictPlanTakesExactlyTheFreshRows(rows, config, before);
    var b := Plan(rows, config, before).value;
    assert r in multiset(rows);
    RowIsPlaced(r, config);
    if Fresh(r, before, config) {
      assert r in multiset(b.rows);
      assert r in b.rows && b.rows != [];
    }
    if b.rows == [] {
      assert !Above(MarkOf(r, config), before.value);
    } else {
      var prefix, last := b.rows[..|b.rows| - 1], b.rows[|b.rows| - 1];
      assert b.rows == prefix + [last];
      assert last in multiset(b.rows);
      RowIsPlaced(last, config);
      AscendingPrefix(b.rows, config);
      var m, top := MarkOf(r, config), MarkOf(last, config);
      UpToIsNotAbove(m, top, config);
      if Fresh(r, before, config) {
        BeforeIsUpTo(m, top);
        assert r in prefix || r == last;
      } else {
        UpToIsNotAbove(m, before.value, config);
        UpToIsNotAbove(top, before.value, config);
        ComparedWithBefore(rows, config, before, r);
        BeforeIsUpTo(before.value, top);
        UpToTransitive(m, before.value, top);
      }
    }
  }

  lemma ComparedWithBefore(rows: seq<Columns>, config: Config, before: Option<Mark>, r: Columns)
    requires config.overlap == 0 && Plan(rows, config, before).Ok? && before.Some? && r in rows
    ensures CompareMarks(MarkOf(r, config), before.value).Some?
  {
    hide HasMark, MarkOf, SortRows, Choose, Chooses, CompareMarks, Ascending;
    SortSorts(rows, config);
    ChoosesExactly(SortRows(rows, config).value, before.value, config);
    assert r in multiset(rows);
    assert r in multiset(SortRows(rows, config).value);
    assert r in SortRows(rows, config).value;
    StrictChoice(r, before.value, config);
  }

  // ---------------------------------------------------------------- rounds

  /** A round reads the source as it is then, and its batch is committed or lost in a crash. */
  datatype Round = Round(source: seq<Columns>, commits: bool)

  datatype Progress = Progress(position: Option<Mark>, delivered: seq<Columns>)

  function RunRounds(rounds: seq<Round>, config: Config): Result<Progress, PlanError> {
    if rounds == [] then Ok(Progress(None, []))
    else
      var progress, round := RunRounds(rounds[..|rounds| - 1], config), rounds[|rounds| - 1];
      if progress.Err? then progress
      else
        var batch := Plan(round.source, config, progress.value.position);
        if batch.Err? then Err(batch.error)
        else if round.commits then Ok(Progress(batch.value.after, progress.value.delivered + batch.value.rows))
        else progress
  }

  function SourceBefore(rounds: seq<Round>): multiset<Columns> {
    if rounds == [] then multiset{} else multiset(rounds[|rounds| - 1].source)
  }

  /** No source row is ever taken back. */
  ghost predicate Growing(rounds: seq<Round>) {
    rounds == []
    || (Growing(rounds[..|rounds| - 1]) && SourceBefore(rounds[..|rounds| - 1]) <= multiset(rounds[|rounds| - 1].source))
  }

  /** What is new in the source of a round lies above the position committed by then. */
  ghost predicate ArrivesAbove(rounds: seq<Round>, config: Config) {
    rounds == []
    || (var prefix, source := rounds[..|rounds| - 1], multiset(rounds[|rounds| - 1].source);
        && ArrivesAbove(prefix, config)
        && (RunRounds(prefix, config).Ok? ==>
              forall r | r in source - SourceBefore(prefix) :: Fresh(r, RunRounds(prefix, config).value.position, config)))
  }

  /** What has been delivered is what the source holds up to the committed position. */
  ghost predicate DeliveredUpTo(p: Progress, source: multiset<Columns>, config: Config) {
    && (p.position.Some? ==> Placed(p.position.value, config))
    && forall r :: multiset(p.delivered)[r] == if Fresh(r, p.position, config) then 0 else source[r]
  }

  lemma GrowthKeepsDelivered(p: Progress, earlier: multiset<Columns>, source: multiset<Columns>, config: Config)
    requires DeliveredUpTo(p, earlier, config) && earlier <= source
    requires forall r | r in source - earlier :: Fresh(r, p.position, config)
    ensures DeliveredUpTo(p, source, config)
  {
    hide Fresh;
    forall r ensures multiset(p.delivered)[r] == if Fresh(r, p.position, config) then 0 else source[r] {
      if !Fresh(r, p.position, config) {
        assert r !in source - earlier;
      }
    }
  }

  lemma CommitDelivers(p: Progress, rows: seq<Columns>, config: Config)
    requires config.overlap == 0 && DeliveredUpTo(p, multiset(rows), config) && Plan(rows, config, p.position).Ok?
    ensures var b := Plan(rows, config, p.position).value;
            && multiset(p.delivered + b.rows) == multiset(rows)
            && DeliveredUpTo(Progress(b.after, p.delivered + b.rows), multiset(rows), config)
  {
    hide Plan, Ascending, Placed, Above;
    StrictPlanTakesExactlyTheFreshRows(rows, config, p.position);
    NothingIsLeftAbove(rows, config, p.position);
    var b := Plan(rows, config, p.position).value;
    assert multiset(p.delivered + b.rows) == multiset(p.delivered) + multiset(b.rows);
    forall r ensures multiset(p.delivered + b.rows)[r] == multiset(rows)[r] {
    }
    forall r ensures multiset(p.delivered + b.rows)[r] == if Fresh(r, b.after, config) then 0 else multiset(rows)[r] {
      if r in multiset(rows) {
        assert r in rows;
      }
    }
  }

  lemma {:induction false} ArrivalsAboveAreDelivered(rounds: seq<Round>, config: Config)
    requires config.overlap == 0 && RunRounds(rounds, config).Ok? && Growing(rounds) && ArrivesAbove(rounds, config)
    ensures DeliveredUpTo(RunRounds(rounds, config).value, SourceBefore(rounds), config)
    ensures rounds != [] && rounds[|rounds| - 1].commits ==>
              multiset(RunRounds(rounds, config).value.delivered) == multiset(rounds[|rounds| - 1].source)
    decreases |rounds|
  {
    hide Plan, DeliveredUpTo, Fresh;
    if rounds == [] {
      NothingDelivered(config);
    } else {
      var prefix, round := rounds[..|rounds| - 1], rounds[|rounds| - 1];
      ArrivalsAboveAreDelivered(prefix, config);
      var p := RunRounds(prefix, config).value;
      GrowthKeepsDelivered(p, SourceBefore(prefix), multiset(round.source), config);
      if round.commits {
        CommitDelivers(p, round.source, config);
      }
    }
  }

  /** A row of the source at or below the position that was not delivered as often as it occurs. */
  ghost predicate Misses(p: Progress, source: multiset<Columns>, r: Columns, config: Config) {
    && (p.position.Some? ==> Placed(p.position.value, config))
    && !Fresh(r, p.position, config) && multiset(p.delivered)[r] < source[r]
  }

  /** What a strict plan has passed it never reads again. */
  lemma PassedRowStaysPassed(p: Progress, rows: seq<Columns>, r: Columns, config: Config)
    requires config.overlap == 0 && Plan(rows, config, p.position).Ok? && Misses(p, multiset(rows), r, config)
    ensures var b := Plan(rows, config, p.position).value;
            Misses(Progress(b.after, p.delivered + b.rows), multiset(rows), r, config)
  {
    hide Plan, Ascending, Placed, Above;
    StrictPlanTakesExactlyTheFreshRows(rows, config, p.position);
    NothingIsLeftAbove(rows, config, p.position);
    var b := Plan(rows, config, p.position).value;
    assert multiset(p.delivered + b.rows)[r] == multiset(p.delivered)[r] + multiset(b.rows)[r];
    assert r in multiset(rows);
    assert r in rows;
  }

  /** A late row is missed for good. */
  lemma {:induction false} LateRowIsMissed(rounds: seq<Round>, config: Config) returns (r: Columns)
    requires config.overlap == 0 && RunRounds(rounds, config).Ok? && Growing(rounds) && !ArrivesAbove(rounds, config)
    ensures Misses(RunRounds(rounds, config).value, SourceBefore(rounds), r, config)
    decreases |rounds|
  {
    hide Plan, Fresh;
    var prefix, round := rounds[..|rounds| - 1], rounds[|rounds| - 1];
    var p, source := RunRounds(prefix, config).value, multiset(round.source);
    if ArrivesAbove(prefix, config) {
      ArrivalsAboveAreDelivered(prefix, config);
      r :| r in source - SourceBefore(prefix) && !Fresh(r, p.position, config);
      assert source[r] > SourceBefore(prefix)[r];
    } else {
      r := LateRowIsMissed(prefix, config);
      assert SourceBefore(prefix)[r] <= source[r];
    }
    if round.commits {
      PassedRowStaysPassed(p, round.source, r, config);
    }
  }

  /** Over any rounds of a growing source, with crashes before the commit anywhere, the committed batches together hold
      every source row up to the committed position exactly once if and only if whatever is new always arrived above
      the position committed by then; after a commit that is the whole source. */
  lemma EveryRowIsDeliveredOnceExactlyWhen(rounds: seq<Round>, config: Config)
    requires config.overlap == 0 && RunRounds(rounds, config).Ok? && Growing(rounds)
    ensures DeliveredUpTo(RunRounds(rounds, config).value, SourceBefore(rounds), config) <==> ArrivesAbove(rounds, config)
    ensures rounds != [] && rounds[|rounds| - 1].commits ==>
              (multiset(RunRounds(rounds, config).value.delivered) == multiset(rounds[|rounds| - 1].source) <==> ArrivesAbove(rounds, config))
  {
    hide ArrivesAbove, Growing, RunRounds, Fresh, Placed;
    if ArrivesAbove(rounds, config) {
      ArrivalsAboveAreDelivered(rounds, config);
    } else {
      var r := LateRowIsMissed(rounds, config);
    }
  }

  /** The failing input: a row at 1 that turns up after the position has moved to 2. */
  lemma LateRowIsLost()
    ensures var config := Config("w", [], 0);
            var early, late: Columns := map["w" := Int(2)], map["w" := Int(1)];
            var rounds := [Round([early], true), Round([early, late], true)];
            && Growing(rounds) && !ArrivesAbove(rounds, config)
            && RunRounds(rounds, config) == Ok(Progress(Some([Int(2)]), [early]))
  {
    hide Plan, MarkOf;
    var config := Config("w", [], 0);
    var early, late: Columns := map["w" := Int(2)], map["w" := Int(1)];
    var first, second := Round([early], true), Round([early, late], true);
    MarkOfOne("w", 2);
    MarkOfOne("w", 1);
    PlanOfEarly(early, config);
    PlanOfLate(early, late, config);
    OneRound([], first, config);
    OneRound([first], second, config);
    assert [] + [first] == [first] && [first] + [second] == [first, second];
    assert [] + [early] == [early] && [early] + [] == [early];
    assert RunRounds([], config) == Ok(Progress(None, []));
    assert multiset(second.source) == multiset{early, late};
    assert late != early;
    assert late in multiset(second.source) - SourceBefore([first]);
    assert !Fresh(late, Some([Int(2)]), config);
    assert [first, second][..1] == [first] && [first][..0] == [];
    assert Growing([first]);
  }

  lemma OneRound(rounds: seq<Round>, round: Round, config: Config)
    requires RunRounds(rounds, config).Ok? && round.commits
    requires Plan(round.source, config, RunRounds(rounds, config).value.position).Ok?
    ensures var p := RunRounds(rounds, config).value;
            var b := Plan(round.source, config, p.position).value;
            RunRounds(rounds + [round], config) == Ok(Progress(b.after, p.delivered + b.rows))
  {
    hide Plan;
    assert (rounds + [round])[..|rounds|] == rounds;
  }

  lemma MarkOfOne(column: string, i: int)
    ensures MarkOf(map[column := Int(i)], Config(column, [], 0)) == [Int(i)]
  {
    assert [column] + [] == [column] && [column][1..] == [];
  }

  lemma SortOfOne(row: Columns, config: Config)
    ensures SortRows([row], config) == Some([row])
  {
    hide MarkOf, CompareMarks;
    assert [row][..0] == [];
    assert SortRows([][..0], config) == Some([]);
  }

  lemma SortOfTwo(early: Columns, late: Columns, config: Config)
    requires CompareMarks(MarkOf(late, config), MarkOf(early, config)) == Some(Stale)
    ensures SortRows([early, late], config) == Some([late, early])
  {
    hide MarkOf, CompareMarks;
    SortOfOne(early, config);
    assert [early, late][..1] == [early] && [early][..0] == [];
    assert InsertRow([early][..0], late, config) == Some([late]);
    assert [late] + [early] == [late, early];
  }

  lemma PlanOfEarly(early: Columns, config: Config)
    requires config.tieBreaker == [] && MarkOf(early, config) == [Int(2)]
    ensures Plan([early], config, None) == Ok(WatermarkBatch([early], None, Some([Int(2)])))
  {
    hide MarkOf, SortRows;
    SortOfOne(early, config);
    assert forall r | r in [early] :: HasMark(r, config);
  }

  lemma PlanOfLate(early: Columns, late: Columns, config: Config)
    requires config.tieBreaker == [] && config.overlap == 0
    requires MarkOf(early, config) == [Int(2)] && MarkOf(late, config) == [Int(1)]
    ensures Plan([early, late], config, Some([Int(2)])) == Ok(WatermarkBatch([], Some([Int(2)]), Some([Int(2)])))
  {
    hide MarkOf, SortRows, Choose, InsertRow;
    assert CompareMarks([Int(1)], [Int(2)]) == Some(Stale);
    assert CompareMarks([Int(2)], [Int(2)]) == Some(Equal);
    SortOfTwo(early, late, config);
    ChooseNothing(late, early, [Int(2)], config);
    assert forall r | r in [early, late] :: HasMark(r, config);
  }

  lemma ChooseNothing(a: Columns, b: Columns, before: Mark, config: Config)
    requires Chooses(a, before, config) == Ok(false) && Chooses(b, before, config) == Ok(false)
    ensures Choose([a, b], before, config) == Ok([])
  {
    hide Chooses;
    assert [a, b][..1] == [a] && [a][..0] == [];
    assert Choose([a], before, config) == Ok([]);
  }

  lemma NothingDelivered(config: Config)
    ensures DeliveredUpTo(Progress(None, []), multiset{}, config)
  {
  }

  // ---------------------------------------------------------------- overlap

  function Strict(config: Config): Config {
    config.(overlap := 0)
  }

  lemma OverlapChoosesMore(row: Columns, before: Mark, config: Config)
    requires config.overlap > 0 && before[0].Instant? && Chooses(row, before, Strict(config)).Ok?
    ensures Chooses(row, before, config).Ok?
    ensures Chosen(row, before, Strict(config)) ==> Chosen(row, before, config)
  {
    assert MarkOf(row, Strict(config)) == MarkOf(row, config);
  }

  lemma {:induction false} SameSort(rows: seq<Columns>, config: Config)
    ensures SortRows(rows, Strict(config)) == SortRows(rows, config)
  {
    if rows != [] {
      SameSort(rows[..|rows| - 1], config);
      if SortRows(rows[..|rows| - 1], config).Some? {
        SameInsert(SortRows(rows[..|rows| - 1], config).value, rows[|rows| - 1], config);
      }
    }
  }

  lemma {:induction false} SameInsert(rows: seq<Columns>, row: Columns, config: Config)
    ensures InsertRow(rows, row, Strict(config)) == InsertRow(rows, row, config)
  {
    hide CompareMarks;
    forall r: Columns ensures MarkOf(r, Strict(config)) == MarkOf(r, config) {
    }
    if rows != [] {
      SameInsert(rows[..|rows| - 1], row, config);
    }
  }

  lemma {:induction false} OverlapChooseSucceeds(rows: seq<Columns>, before: Mark, config: Config)
    requires config.overlap > 0 && before[0].Instant? && Choose(rows, before, Strict(config)).Ok?
    ensures Choose(rows, before, config).Ok?
    ensures multiset(Choose(rows, before, Strict(config)).value) <= multiset(Choose(rows, before, config).value)
    decreases |rows|
  {
    hide Chooses;
    if rows != [] {
      OverlapChooseSucceeds(rows[..|rows| - 1], before, config);
      OverlapChoosesMore(rows[|rows| - 1], before, config);
    }
  }

  /** When a strict plan takes anything, it takes the last row of the sorted source. */
  lemma LastRowIsFresh(sorted: seq<Columns>, before: Mark, config: Config)
    requires AllPlaced(sorted, config) && Placed(before, config) && Ascending(sorted, config)
    requires Choose(sorted, before, Strict(config)).Ok? && Choose(sorted, before, Strict(config)).value != []
    ensures sorted != [] && Chosen(sorted[|sorted| - 1], before, Strict(config))
  {
    hide HasMark, MarkOf, Chooses, Ascending, CompareMarks, Placed;
    var chosen := Choose(sorted, before, Strict(config)).value;
    ChoosesExactly(sorted, before, Strict(config));
    var r := chosen[0];
    assert r in multiset(chosen);
    assert Chosen(r, before, Strict(config)) && r in sorted;
    var prefix, last := sorted[..|sorted| - 1], sorted[|sorted| - 1];
    assert sorted == prefix + [last];
    AscendingPrefix(sorted, config);
    SameMark(r, config);
    SameMark(last, config);
    StrictChoice(r, before, Strict(config));
    StrictChoice(last, before, Strict(config));
    RowIsPlaced(r, config);
    RowIsPlaced(last, config);
    var m, top := MarkOf(r, config), MarkOf(last, config);
    BeforeIsUpTo(m, top);
    UpToIsNotAbove(m, before, config);
    UpToIsNotAbove(top, before, config);
    BeforeIsUpTo(before, m);
    AboveStaysAbove(before, m, top);
  }

  lemma SameMark(row: Columns, config: Config)
    ensures MarkOf(row, Strict(config)) == MarkOf(row, config) && (HasMark(row, Strict(config)) <==> HasMark(row, config))
  {
  }

  lemma AboveStaysAbove(low: Mark, a: Mark, b: Mark)
    requires Before(low, a) && UpTo(a, b)
    ensures Before(low, b)
  {
    hide Before;
    if a != b {
      BeforeTransitive(low, a, b);
    }
  }

  /** Where the batch leaves the position depends on the last row of the sorted source alone. */
  lemma AfterOfChosen(sorted: seq<Columns>, before: Mark, config: Config)
    requires Choose(sorted, before, config).Ok? && sorted != [] && Chosen(sorted[|sorted| - 1], before, config)
    ensures var chosen := Choose(sorted, before, config).value;
            chosen != [] && chosen[|chosen| - 1] == sorted[|sorted| - 1]
  {
    hide Chooses;
  }

  /** A batch read with an overlap contains the strict batch and leaves the same committed position. */
  lemma OverlapContainsStrict(rows: seq<Columns>, config: Config, before: Mark)
    requires config.overlap > 0 && Placed(before, config) && before[0].Instant?
    requires Plan(rows, Strict(config), Some(before)).Ok?
    ensures Plan(rows, config, Some(before)).Ok?
    ensures var strict, wide := Plan(rows, Strict(config), Some(before)).value, Plan(rows, config, Some(before)).value;
            && multiset(strict.rows) <= multiset(wide.rows)
            && wide.after == strict.after
            && (forall r :: multiset(wide.rows)[r] == if Chosen(r, before, config) then multiset(rows)[r] else 0)
  {
    hide HasMark, MarkOf, SortRows, Choose, Chooses, CompareMarks, Ascending, Placed;
    forall r: Columns ensures MarkOf(r, Strict(config)) == MarkOf(r, config) && (HasMark(r, Strict(config)) <==> HasMark(r, config)) {
      SameMark(r, config);
    }
    SameSort(rows, config);
    SortSorts(rows, config);
    var sorted := SortRows(rows, config).value;
    OverlapChooseSucceeds(sorted, before, config);
    ChoosesExactly(sorted, before, config);
    SameAfter(sorted, before, config);
    var wide := Choose(sorted, before, config).value;
    forall r ensures multiset(wide)[r] == if Chosen(r, before, config) then multiset(rows)[r] else 0 {
    }
  }

  lemma SameAfter(sorted: seq<Columns>, before: Mark, config: Config)
    requires config.overlap > 0 && before[0].Instant? && Placed(before, config)
    requires AllPlaced(sorted, config) && Ascending(sorted, config) && Choose(sorted, before, Strict(config)).Ok?
    requires Choose(sorted, before, config).Ok?
    ensures AfterBatch(Choose(sorted, before, config).value, Some(before), config).Ok?
    ensures AfterBatch(Choose(sorted, before, config).value, Some(before), config) ==
            AfterBatch(Choose(sorted, before, Strict(config)).value, Some(before), Strict(config))
  {
    hide HasMark, MarkOf, Choose, Chooses, CompareMarks, Ascending, Placed;
    var strict, wide := Choose(sorted, before, Strict(config)).value, Choose(sorted, before, config).value;
    ChoosesExactly(sorted, before, Strict(config));
    if strict != [] {
      LastRowIsFresh(sorted, before, config);
      var last := sorted[|sorted| - 1];
      OverlapChoosesMore(last, before, config);
      AfterOfChosen(sorted, before, config);
      AfterOfChosen(sorted, before, Strict(config));
      SameMark(last, config);
      StrictChoice(last, before, Strict(config));
    } else if wide != [] {
      ChoosesExactly(sorted, before, config);
      var r := wide[|wide| - 1];
      assert r in multiset(wide);
      assert r in multiset(sorted);
      assert r in sorted;
      assert !Chosen(r, before, Strict(config)) by {
        assert r !in multiset(strict);
      }
      SameMark(r, config);
      StrictChoice(r, before, Strict(config));
    }
  }
}
