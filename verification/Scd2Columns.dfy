/** What the SCD2 rows hold in their columns (apply/scd2.py): each version is an accepted input, the as-of answers
    hold on
    the stored columns, and the counters are what the rows show. */
module Scd2Columns {
  import opened Common
  import opened Scd2
  import opened Scd2Timeline

  // ---------------------------------------------------------------- the inputs

  /** A row can be read: its time column is an instant and its key is complete. */
  predicate Readable(row: Columns, config: Config) {
    Cell(row, config.timeColumn).Instant? && forall c | c in config.businessKey :: Cell(row, c) != Null
  }

  /** The input is the row with its time and its key, column by column. */
  ghost predicate ReadsAs(e: Input, row: Columns, config: Config) {
    && e.data == row && Cell(row, config.timeColumn) == Instant(e.time)
    && |e.key| == |config.businessKey| && forall i | 0 <= i < |e.key| :: e.key[i] == Cell(row, config.businessKey[i])
  }

  lemma KeyIsComplete(row: Columns, columns: seq<string>)
    ensures KeyOf(row, columns).Some? <==> forall c | c in columns :: Cell(row, c) != Null
  {
    var k := KeyValues(row, columns);
    assert forall i | 0 <= i < |k| :: k[i] in k && columns[i] in columns;
  }

  /** The incoming rows are read one by one, and refused exactly when one of them cannot be read. */
  lemma {:induction false} InputsAreTheRows(incoming: seq<Columns>, config: Config)
    ensures var es := ReadInputs(incoming, config);
            && (es.Ok? <==> forall row | row in incoming :: Readable(row, config))
            && (es.Ok? ==> |es.value| == |incoming| && forall i | 0 <= i < |incoming| :: ReadsAs(es.value[i], incoming[i], config))
    decreases |incoming|
  {
    hide KeyOf, Readable, ReadsAs;
    if incoming != [] {
      var prefix, last := incoming[..|incoming| - 1], incoming[|incoming| - 1];
      assert incoming == prefix + [last];
      InputsAreTheRows(prefix, config);
      RowIsRead(last, config);
      var es := ReadInputs(incoming, config);
      if es.Ok? {
        forall i | 0 <= i < |incoming| ensures ReadsAs(es.value[i], incoming[i], config) {
          assert i < |prefix| ==> ReadsAs(ReadInputs(prefix, config).value[i], prefix[i], config);
        }
      }
    }
  }

  lemma RowIsRead(row: Columns, config: Config)
    ensures ReadInput(row, config).Ok? <==> Readable(row, config)
    ensures ReadInput(row, config).Ok? ==> ReadsAs(ReadInput(row, config).value, row, config)
  {
    KeyIsComplete(row, config.businessKey);
  }

  // ---------------------------------------------------------------- the order of processing

  /** The inputs of one instant, in the order of the list. */
  function OfInstant(es: seq<Input>, time: int): seq<Input> {
    if es == [] then []
    else OfInstant(es[..|es| - 1], time) + if es[|es| - 1].time == time then [es[|es| - 1]] else []
  }

  lemma {:induction false} InsertIsStable(es: seq<Input>, e: Input, time: int)
    requires Ascending(es)
    ensures OfInstant(InsertByTime(es, e), time) == OfInstant(es, time) + if e.time == time then [e] else []
    decreases |es|
  {
    hide Ascending;
    if es == [] || es[|es| - 1].time <= e.time {
      assert (es + [e])[..|es|] == es;
    } else {
      var prefix, last := es[..|es| - 1], es[|es| - 1];
      AscendingPrefix(es);
      InsertIsStable(prefix, e, time);
      var front := InsertByTime(prefix, e);
      assert (front + [last])[..|front|] == front;
    }
  }

  /** The inputs are processed by their time, those of one instant in the order in which they arrived. */
  lemma {:induction false} SortIsStable(es: seq<Input>, time: int)
    ensures Ascending(SortByTime(es)) && multiset(SortByTime(es)) == multiset(es)
    ensures OfInstant(SortByTime(es), time) == OfInstant(es, time)
    decreases |es|
  {
    SortIsAscending(es);
    SortIsPermutation(es);
    if es != [] {
      SortIsStable(es[..|es| - 1], time);
      InsertIsStable(SortByTime(es[..|es| - 1]), es[|es| - 1], time);
    }
  }

  // ---------------------------------------------------------------- the versions

  /** The version holds the columns of the input from its time on, with the tracked attributes and the run that
      wrote it. */
  ghost predicate Holds(v: Row, e: Input, config: Config) {
    && v.data == e.data && v.validFrom == e.time
    && v.hash == Some(Tracked(e.data, config.tracked)) && v.runId == Some(config.runId)
  }

  /** Every version holds the columns of one of the inputs. */
  ghost predicate HoldInputs(vs: seq<Row>, log: seq<Input>, config: Config) {
    forall v | v in vs :: HoldsOneOf(v, log, config)
  }

  ghost predicate HoldsOneOf(v: Row, log: seq<Input>, config: Config) {
    exists e :: e in log && Holds(v, e, config)
  }

  lemma NextHolds(vs: seq<Row>, log: seq<Input>, e: Input, config: Config)
    requires HoldInputs(vs, log, config)
    ensures HoldInputs(Next(vs, e, config), log + [e], config)
  {
    hide Tracked;
    assert e in log + [e] && Holds(Opened(e, config), e, config);
    forall v | v in Next(vs, e, config) ensures HoldsOneOf(v, log + [e], config) {
      if v != Opened(e, config) {
        var before := if v in vs then v else vs[|vs| - 1];
        assert before in vs;
        var f :| f in log && Holds(before, f, config);
        assert f in log + [e] && Holds(v, f, config);
      }
    }
  }

  lemma {:induction false} VersionsHoldInputs(log: seq<Input>, config: Config)
    ensures HoldInputs(Versions(log, config), log, config)
    decreases |log|
  {
    hide Next, HoldsOneOf;
    if log != [] {
      var prefix, e := log[..|log| - 1], log[|log| - 1];
      VersionsHoldInputs(prefix, config);
      NextHolds(Versions(prefix, config), prefix, e, config);
      assert prefix + [e] == log;
    }
  }

  /** The stored columns that the versions give for a time. */
  function ColumnsAt(vs: seq<Row>, time: int): Option<Columns> {
    var i := Covering(vs, time);
    if i.None? then None else Some(vs[i.value].data)
  }

  /** The stored columns agree with the input in force on every tracked column, and are missing exactly before the
      first. */
  ghost predicate ColumnsAnswer(vs: seq<Row>, log: seq<Input>, tracked: seq<string>) {
    forall time ::
      && (ColumnsAt(vs, time).Some? <==> InForce(log, time).Some?)
      && (ColumnsAt(vs, time).Some? ==>
            forall c | c in tracked :: Cell(ColumnsAt(vs, time).value, c) == Cell(InForce(log, time).value.data, c))
  }

  lemma AnswersOnColumns(vs: seq<Row>, log: seq<Input>, config: Config)
    requires AnswersAsOf(vs, log, config.tracked)
    requires forall v | v in vs :: v.hash == Some(Tracked(v.data, config.tracked))
    ensures ColumnsAnswer(vs, log, config.tracked)
  {
    hide InForce;
    forall time
      ensures ColumnsAt(vs, time).Some? <==> InForce(log, time).Some?
      ensures ColumnsAt(vs, time).Some? ==>
                forall c | c in config.tracked :: Cell(ColumnsAt(vs, time).value, c) == Cell(InForce(log, time).value.data, c)
    {
      assert ValueAt(vs, time) == ValueOf(log, time, config.tracked);
      if ColumnsAt(vs, time).Some? {
        var a, b := ColumnsAt(vs, time).value, InForce(log, time).value.data;
        forall c | c in config.tracked ensures Cell(a, c) == Cell(b, c) {
          assert Tracked(a, config.tracked)[c] == Tracked(b, config.tracked)[c];
        }
      }
    }
  }

  /** Over any accepted run of batches from an empty table every version holds the columns of an accepted input of
      its key
      from the time of that input on; and when the inputs came in time the stored columns answer every as-of
      question. */
  lemma RunsHoldTheInputs(batches: seq<seq<Columns>>, config: Config, k: Key)
    requires RunBatches(batches, config).Ok?
    ensures var vs := History(RunBatches(batches, config).value, config.businessKey, k);
            var log := InputsOf(AppliedInputs(batches, config), k);
            && HoldInputs(vs, log, config)
            && (InTimeThroughout(log, config) ==> ColumnsAnswer(vs, log, config.tracked))
  {
    hide Tracked, AnswersAsOf, InTimeThroughout, Versions, RunBatches, AppliedInputs, AlwaysAnswers, ColumnsAnswer;
    RunsTileAndAnswerAsOf(batches, config, k);
    var log := InputsOf(AppliedInputs(batches, config), k);
    VersionsHoldInputs(log, config);
    if InTimeThroughout(log, config) {
      AnswersOnColumns(Versions(log, config), log, config);
    }
  }

  // ---------------------------------------------------------------- counters

  function Currents(rows: seq<Row>): nat {
    if rows == [] then 0 else Currents(rows[..|rows| - 1]) + if rows[|rows| - 1].current then 1 else 0
  }

  lemma {:induction false} CurrentsReplaced(rows: seq<Row>, i: nat, v: Row)
    requires i < |rows|
    ensures Currents(rows[i := v]) == Currents(rows) - (if rows[i].current then 1 else 0) + if v.current then 1 else 0
  {
    var last := |rows| - 1;
    if i < last {
      CurrentsReplaced(rows[..last], i, v);
      assert rows[i := v][..last] == rows[..last][i := v];
    } else {
      assert rows[i := v][..last] == rows[..last];
    }
  }

  lemma CurrentsAppended(rows: seq<Row>, v: Row)
    ensures Currents(rows + [v]) == Currents(rows) + if v.current then 1 else 0
  {
    assert (rows + [v])[..|rows|] == rows;
  }

  lemma StepBalances(o: Outcome, e: Input, config: Config)
    requires Step(o, e, config).Ok?
    ensures var next := Step(o, e, config).value;
            && |next.rows| + o.inserted + o.updated == |o.rows| + next.inserted + next.updated
            && Currents(next.rows) + o.inserted == Currents(o.rows) + next.inserted
            && o.inserted <= next.inserted && o.updated <= next.updated
  {
    hide Tracked, HasKey;
    var index, change := CurrentIndex(o.rows, config.businessKey, e.key), Decide(o.rows, e, config).value;
    match change {
      case Insert => CurrentsAppended(o.rows, Opened(e, config));
      case Same =>
      case Replace =>
        CurrentsReplaced(o.rows, index.value, Closed(o.rows[index.value], e.time));
        CurrentsAppended(o.rows[index.value := Closed(o.rows[index.value], e.time)], Opened(e, config));
    }
  }

  /** Every inserted or updated input adds a row, and only an inserted one adds a current row. */
  lemma {:induction false} CountersBalance(rows: seq<Row>, es: seq<Input>, config: Config)
    requires Fold(rows, es, config).Ok?
    ensures var o := Fold(rows, es, config).value;
            && |o.rows| == |rows| + o.inserted + o.updated
            && Currents(o.rows) == Currents(rows) + o.inserted
    decreases |es|
  {
    hide Step;
    if es != [] {
      CountersBalance(rows, es[..|es| - 1], config);
      StepBalances(Fold(rows, es[..|es| - 1], config).value, es[|es| - 1], config);
    }
  }

  // ---------------------------------------------------------------- acceptance

  /** Current rows have complete keys, and no two of them the same key. */
  ghost predicate CurrentRowsSound(rows: seq<Row>, columns: seq<string>) {
    && (forall r, c | r in rows && r.current && c in columns :: Cell(r.data, c) != Null)
    && (forall i, j | 0 <= i < j < |rows| && rows[i].current && rows[j].current :: KeyOf(rows[i].data, columns) != KeyOf(rows[j].data, columns))
  }

  lemma NoViolationExactlyWhen(rows: seq<Row>, columns: seq<string>)
    ensures CurrentRowViolation(rows, columns).None? <==> CurrentRowsSound(rows, columns)
  {
    hide KeyOf;
    forall r | r in rows ensures KeyOf(r.data, columns).Some? <==> forall c | c in columns :: Cell(r.data, c) != Null {
      KeyIsComplete(r.data, columns);
    }
  }

  /** A batch is accepted exactly when business key and tracked columns are configured, the stored current rows are
      sound,
      every incoming row can be read, each input is accepted in the order of processing, and the result is sound and
      complete in its keys. */
  lemma BatchAcceptedExactlyWhen(existing: seq<Row>, incoming: seq<Columns>, config: Config)
    ensures Apply(existing, incoming, config).Ok? <==>
            && config.businessKey != [] && config.tracked != []
            && CurrentRowsSound(existing, config.businessKey)
            && (forall row | row in incoming :: Readable(row, config)) && ReadInputs(incoming, config).Ok?
            && var o := Fold(existing, SortByTime(ReadInputs(incoming, config).value), config);
               o.Ok? && CurrentRowsSound(o.value.rows, config.businessKey)
               && forall r, c | r in o.value.rows && c in config.businessKey :: Cell(r.data, c) != Null
  {
    hide KeyOf, Fold, CurrentRowViolation, CurrentRowsSound;
    NoViolationExactlyWhen(existing, config.businessKey);
    InputsAreTheRows(incoming, config);
    if ReadInputs(incoming, config).Ok? {
      var o := Fold(existing, SortByTime(ReadInputs(incoming, config).value), config);
      if o.Ok? {
        NoViolationExactlyWhen(o.value.rows, config.businessKey);
        forall r | r in o.value.rows
          ensures KeyOf(r.data, config.businessKey).Some? <==> forall c | c in config.businessKey :: Cell(r.data, c) != Null
        {
          KeyIsComplete(r.data, config.businessKey);
        }
      }
    }
  }
}
