/** The SCD2 reference engine (apply/scd2.py): effective-dated versions per business key. */
module Scd2 {
  import opened Common

  datatype Row = Row(
    data: Columns, validFrom: int, validTo: Option<int>, current: bool, hash: Option<Columns>, runId: Option<int>)

  /** An incoming row once its effective time and key have been read. */
  datatype Input = Input(key: Key, time: int, data: Columns)

  datatype Config = Config(businessKey: seq<string>, tracked: seq<string>, timeColumn: string, runId: int)

  datatype Scd2Error =
    | MissingConfiguration
    | NullKey
    | BadEffectiveTime
    | TwoCurrentRows
    | LateArriving
    | ConflictAtSameTime

  predicate HasKey(row: Row, columns: seq<string>, k: Key) {
    KeyOf(row.data, columns) == Some(k)
  }

  function Opened(e: Input, config: Config): Row {
    Row(e.data, e.time, None, true, Some(Tracked(e.data, config.tracked)), Some(config.runId))
  }

  function Closed(row: Row, at: int): Row {
    row.(validTo := Some(at), current := false)
  }

  predicate CurrentOf(row: Row, columns: seq<string>, k: Key) {
    row.current && HasKey(row, columns, k)
  }

  /** The first current row of a key. */
  function CurrentIndex(rows: seq<Row>, columns: seq<string>, k: Key): (r: Option<nat>)
    ensures r.None? <==> forall i | 0 <= i < |rows| :: !CurrentOf(rows[i], columns, k)
    ensures r.Some? ==> r.value < |rows| && CurrentOf(rows[r.value], columns, k)
    ensures r.Some? ==> forall i | 0 <= i < r.value :: !CurrentOf(rows[i], columns, k)
  {
    if rows == [] then None
    else
      var before := CurrentIndex(rows[..|rows| - 1], columns, k);
      if before.Some? then before
      else if CurrentOf(rows[|rows| - 1], columns, k) then Some(|rows| - 1) else None
  }

  datatype Outcome = Outcome(rows: seq<Row>, inserted: nat, updated: nat)

  /** What an accepted input does to the rows. */
  datatype Change = Insert | Same | Replace

  function Decide(rows: seq<Row>, e: Input, config: Config): Result<Change, Scd2Error> {
    var index := CurrentIndex(rows, config.businessKey, e.key);
    if index.None? then Ok(Insert)
    else
      var current := rows[index.value];
      if e.time < current.validFrom then Err(LateArriving)
      else if current.hash == Some(Tracked(e.data, config.tracked)) then Ok(Same)
      else if e.time == current.validFrom then Err(ConflictAtSameTime)
      else Ok(Replace)
  }

  function Perform(rows: seq<Row>, e: Input, change: Change, config: Config): seq<Row> {
    match change
    case Insert => rows + [Opened(e, config)]
    case Same => rows
    case Replace =>
      var index := CurrentIndex(rows, config.businessKey, e.key);
      if index.None? then rows else rows[index.value := Closed(rows[index.value], e.time)] + [Opened(e, config)]
  }

  function Step(o: Outcome, e: Input, config: Config): Result<Outcome, Scd2Error> {
    var change := Decide(o.rows, e, config);
    if change.Err? then Err(change.error)
    else Ok(Outcome(Perform(o.rows, e, change.value, config),
                    o.inserted + (if change.value.Insert? then 1 else 0),
                    o.updated + (if change.value.Replace? then 1 else 0)))
  }

  function Fold(rows: seq<Row>, es: seq<Input>, config: Config): Result<Outcome, Scd2Error> {
    if es == [] then Ok(Outcome(rows, 0, 0))
    else
      var o := Fold(rows, es[..|es| - 1], config);
      if o.Err? then o else Step(o.value, es[|es| - 1], config)
  }

  // ---------------------------------------------------------------- reading and ordering the input

  function ReadInput(data: Columns, config: Config): Result<Input, Scd2Error> {
    var time := Cell(data, config.timeColumn);
    var key := KeyOf(data, config.businessKey);
    if !time.Instant? then Err(BadEffectiveTime)
    else if key.None? then Err(NullKey)
    else Ok(Input(key.value, time.at, data))
  }

  function ReadInputs(incoming: seq<Columns>, config: Config): Result<seq<Input>, Scd2Error> {
    if incoming == [] then Ok([])
    else
      var es := ReadInputs(incoming[..|incoming| - 1], config);
      if es.Err? then es
      else
        var e := ReadInput(incoming[|incoming| - 1], config);
        if e.Err? then Err(e.error) else Ok(es.value + [e.value])
  }

  predicate Ascending(es: seq<Input>) {
    forall i, j | 0 <= i < j < |es| :: es[i].time <= es[j].time
  }

  /** Behind everything that is not later: the sort is stable. */
  function InsertByTime(es: seq<Input>, e: Input): seq<Input> {
    if es == [] || es[|es| - 1].time <= e.time then es + [e]
    else InsertByTime(es[..|es| - 1], e) + [es[|es| - 1]]
  }

  function SortByTime(es: seq<Input>): seq<Input> {
    if es == [] then [] else InsertByTime(SortByTime(es[..|es| - 1]), es[|es| - 1])
  }

  lemma {:induction false} InsertIsPermutation(es: seq<Input>, e: Input)
    ensures multiset(InsertByTime(es, e)) == multiset(es) + multiset{e}
  {
    if es != [] {
      InsertIsPermutation(es[..|es| - 1], e);
      assert es == es[..|es| - 1] + [es[|es| - 1]];
    }
  }

  predicate NoLaterThan(es: seq<Input>, time: int) {
    forall x | x in es :: x.time <= time
  }

  lemma AscendingWithLast(es: seq<Input>, last: Input)
    requires Ascending(es) && NoLaterThan(es, last.time)
    ensures Ascending(es + [last])
  {
    forall i, j | 0 <= i < j < |es| + 1 ensures (es + [last])[i].time <= (es + [last])[j].time {
      assert es[i] in es;
    }
  }

  lemma AscendingPrefix(es: seq<Input>)
    requires Ascending(es) && es != []
    ensures Ascending(es[..|es| - 1]) && NoLaterThan(es[..|es| - 1], es[|es| - 1].time)
  {
    forall x | x in es[..|es| - 1] ensures x.time <= es[|es| - 1].time {
      var i :| 0 <= i < |es| - 1 && es[i] == x;
    }
  }

  lemma {:induction false} InsertKeepsAscending(es: seq<Input>, e: Input)
    requires Ascending(es)
    ensures Ascending(InsertByTime(es, e))
  {
    hide Ascending;
    if es != [] {
      AscendingPrefix(es);
    }
    if es == [] || es[|es| - 1].time <= e.time {
      assert NoLaterThan(es, e.time) by {
        if es != [] {
          assert es == es[..|es| - 1] + [es[|es| - 1]];
        }
      }
      AscendingWithLast(es, e);
    } else {
      var prefix, last := es[..|es| - 1], es[|es| - 1];
      InsertKeepsAscending(prefix, e);
      InsertIsPermutation(prefix, e);
      var front := InsertByTime(prefix, e);
      forall x | x in front ensures x.time <= last.time {
        assert x in multiset(front);
      }
      AscendingWithLast(front, last);
    }
  }

  lemma {:induction false} SortIsPermutation(es: seq<Input>)
    ensures multiset(SortByTime(es)) == multiset(es)
  {
    if es != [] {
      SortIsPermutation(es[..|es| - 1]);
      InsertIsPermutation(SortByTime(es[..|es| - 1]), es[|es| - 1]);
      assert es == es[..|es| - 1] + [es[|es| - 1]];
    }
  }

  lemma {:induction false} SortIsAscending(es: seq<Input>)
    ensures Ascending(SortByTime(es))
  {
    hide Ascending;
    if es == [] {
      NothingAscends();
    } else {
      SortIsAscending(es[..|es| - 1]);
      InsertKeepsAscending(SortByTime(es[..|es| - 1]), es[|es| - 1]);
    }
  }

  lemma NothingAscends()
    ensures Ascending([])
  {
  }

  predicate OneCurrentPerKey(rows: seq<Row>, columns: seq<string>) {
    forall i, j | 0 <= i < j < |rows| && rows[i].current && rows[j].current :: KeyOf(rows[i].data, columns) != KeyOf(rows[j].data, columns)
  }

  predicate CurrentRowsKeyed(rows: seq<Row>, columns: seq<string>) {
    forall r | r in rows && r.current :: KeyOf(r.data, columns).Some?
  }

  predicate AllKeyed(rows: seq<Row>, columns: seq<string>) {
    forall r | r in rows :: KeyOf(r.data, columns).Some?
  }

  /** assert_one_current_row */
  function CurrentRowViolation(rows: seq<Row>, columns: seq<string>): Option<Scd2Error> {
    if !CurrentRowsKeyed(rows, columns) then Some(NullKey)
    else if !OneCurrentPerKey(rows, columns) then Some(TwoCurrentRows)
    else None
  }

  /** The engine. The listing is left in processing order; its final sort reads every key. */
  function Apply(existing: seq<Row>, incoming: seq<Columns>, config: Config): Result<Outcome, Scd2Error> {
    if config.businessKey == [] || config.tracked == [] then Err(MissingConfiguration)
    else if CurrentRowViolation(existing, config.businessKey).Some? then Err(CurrentRowViolation(existing, config.businessKey).value)
    else
      var es := ReadInputs(incoming, config);
      if es.Err? then Err(es.error)
      else
        var o := Fold(existing, SortByTime(es.value), config);
        if o.Err? then o
        else if CurrentRowViolation(o.value.rows, config.businessKey).Some? then Err(CurrentRowViolation(o.value.rows, config.businessKey).value)
        else if !AllKeyed(o.value.rows, config.businessKey) then Err(NullKey)
        else o
  }

  // ---------------------------------------------------------------- the loops

  method FindCurrent(rows: seq<Row>, columns: seq<string>, k: Key) returns (index: Option<nat>)
    ensures index == CurrentIndex(rows, columns, k)
  {
    hide HasKey;
    var i := 0;
    while i < |rows|
      invariant 0 <= i <= |rows|
      invariant forall j | 0 <= j < i :: !CurrentOf(rows[j], columns, k)
    {
      if CurrentOf(rows[i], columns, k) {
        return Some(i);
      }
      i := i + 1;
    }
    index := None;
  }

  method ReadAll(incoming: seq<Columns>, config: Config) returns (r: Result<seq<Input>, Scd2Error>)
    ensures r == ReadInputs(incoming, config)
  {
    hide ReadInput;
    var es: seq<Input> := [];
    assert incoming[..|incoming|] == incoming;
    for i := 0 to |incoming|
      invariant ReadInputs(incoming[..i], config) == Ok(es)
    {
      assert incoming[..i + 1][..i] == incoming[..i];
      var e := ReadInput(incoming[i], config);
      if e.Err? {
        ReadFailsLater(incoming, i + 1, config);
        return Err(e.error);
      }
      es := es + [e.value];
    }
    r := Ok(es);
  }

  lemma {:induction false} ReadFailsLater(incoming: seq<Columns>, n: nat, config: Config)
    requires n <= |incoming| && ReadInputs(incoming[..n], config).Err?
    ensures ReadInputs(incoming, config) == ReadInputs(incoming[..n], config)
  {
    hide ReadInput;
    if n == |incoming| {
      assert incoming[..n] == incoming;
    } else {
      assert incoming[..|incoming| - 1][..n] == incoming[..n];
      ReadFailsLater(incoming[..|incoming| - 1], n, config);
    }
  }

  /** One turn of the main loop. */
  method ProcessInput(o: Outcome, e: Input, config: Config) returns (r: Result<Outcome, Scd2Error>)
    ensures r == Step(o, e, config)
  {
    hide Tracked, KeyOf, HasKey;
    var rows := o.rows;
    var index := FindCurrent(rows, config.businessKey, e.key);
    if index.None? {
      rows := rows + [Opened(e, config)];
      return Ok(Outcome(rows, o.inserted + 1, o.updated));
    }
    var current := rows[index.value];
    if e.time < current.validFrom {
      return Err(LateArriving);
    }
    if current.hash == Some(Tracked(e.data, config.tracked)) {
      return Ok(o);
    }
    if e.time == current.validFrom {
      return Err(ConflictAtSameTime);
    }
    rows := rows[index.value := Closed(current, e.time)];
    rows := rows + [Opened(e, config)];
    r := Ok(Outcome(rows, o.inserted, o.updated + 1));
  }

  method ApplyScd2(existing: seq<Row>, incoming: seq<Columns>, config: Config) returns (r: Result<Outcome, Scd2Error>)
    ensures r == Apply(existing, incoming, config)
  {
    hide CurrentRowViolation, Step, KeyOf, ReadInputs;
    if config.businessKey == [] || config.tracked == [] {
      return Err(MissingConfiguration);
    }
    var violation := CurrentRowViolation(existing, config.businessKey);
    if violation.Some? {
      return Err(violation.value);
    }
    var es := ReadAll(incoming, config);
    if es.Err? {
      return Err(es.error);
    }
    var ordered := SortByTime(es.value);
    var rows, inserted, updated := existing, 0, 0;
    assert ordered[..|ordered|] == ordered;
    for i := 0 to |ordered|
      invariant Fold(existing, ordered[..i], config) == Ok(Outcome(rows, inserted, updated))
    {
      assert ordered[..i + 1][..i] == ordered[..i];
      var o := ProcessInput(Outcome(rows, inserted, updated), ordered[i], config);
      if o.Err? {
        FoldFailsLater(existing, ordered, i + 1, config);
        return Err(o.error);
      }
      rows, inserted, updated := o.value.rows, o.value.inserted, o.value.updated;
    }
    violation := CurrentRowViolation(rows, config.businessKey);
    if violation.Some? {
      return Err(violation.value);
    }
    if !AllKeyed(rows, config.businessKey) {
      return Err(NullKey);
    }
    r := Ok(Outcome(rows, inserted, updated));
  }

  lemma {:induction false} FoldFailsLater(rows: seq<Row>, es: seq<Input>, n: nat, config: Config)
    requires n <= |es| && Fold(rows, es[..n], config).Err?
    ensures Fold(rows, es, config) == Fold(rows, es[..n], config)
    decreases |es|
  {
    hide Step;
    if n == |es| {
      assert es[..n] == es;
    } else {
      assert es[..|es| - 1][..n] == es[..n];
      FoldFailsLater(rows, es[..|es| - 1], n, config);
    }
  }
}
