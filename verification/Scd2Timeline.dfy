/** What the SCD2 versions of a key mean (apply/scd2.py): they tile the time line, and they answer as-of
    questions as long as changes do not arrive behind an already accepted input. */
module Scd2Timeline {
  import opened Common
  import opened Scd2

  // ---------------------------------------------------------------- one key

  /** Contiguous versions: each is closed where the next one opens, and only the last is open and current. */
  ghost predicate Tiles(vs: seq<Row>) {
    && (forall i | 0 <= i < |vs| - 1 :: !vs[i].current)
    && (forall i, j | 0 <= i && j == i + 1 && j < |vs| :: vs[i].validTo == Some(vs[j].validFrom) && vs[i].validFrom < vs[j].validFrom)
    && (vs != [] ==> vs[|vs| - 1].current && vs[|vs| - 1].validTo.None?)
  }

  ghost predicate Of(vs: seq<Row>, columns: seq<string>, k: Key) {
    forall i | 0 <= i < |vs| :: HasKey(vs[i], columns, k)
  }

  predicate Covers(row: Row, time: int) {
    row.validFrom <= time && (row.validTo.None? || time < row.validTo.value)
  }

  /** The last version that starts at or before a time. */
  function Covering(vs: seq<Row>, time: int): (r: Option<nat>)
    ensures r.Some? ==> r.value < |vs|
  {
    if vs == [] then None
    else if vs[|vs| - 1].validFrom <= time then Some(|vs| - 1)
    else Covering(vs[..|vs| - 1], time)
  }

  lemma {:induction false} StartsAscend(vs: seq<Row>, i: nat, j: nat)
    requires Tiles(vs) && i < j < |vs|
    ensures vs[i].validFrom < vs[j].validFrom
    decreases j
  {
    var p := j - 1;
    assert vs[p].validFrom < vs[p + 1].validFrom;
    if i < p {
      StartsAscend(vs, i, p);
    }
  }

  lemma {:induction false} CoveringIsLastStart(vs: seq<Row>, time: int)
    ensures var r := Covering(vs, time);
            && (forall i | 0 <= i < |vs| && (r.Some? ==> r.value < i) :: time < vs[i].validFrom)
            && (r.Some? ==> vs[r.value].validFrom <= time)
  {
    if vs != [] && vs[|vs| - 1].validFrom > time {
      CoveringIsLastStart(vs[..|vs| - 1], time);
    }
  }

  /** No gap and no overlap: from the first version on every time is covered by exactly one version, and
      before it by none. */
  lemma TilingIsExact(vs: seq<Row>, time: int)
    requires Tiles(vs)
    ensures Covering(vs, time).Some? <==> vs != [] && vs[0].validFrom <= time
    ensures forall i | 0 <= i < |vs| :: Covers(vs[i], time) <==> Covering(vs, time) == Some(i)
  {
    CoveringIsLastStart(vs, time);
    var r := Covering(vs, time);
    if r.Some? && r.value > 0 {
      StartsAscend(vs, 0, r.value);
    }
    forall i | 0 <= i < |vs| ensures Covers(vs[i], time) <==> r == Some(i) {
      if i + 1 < |vs| {
        var j := i + 1;
        assert vs[i].validTo == Some(vs[j].validFrom);
        if r.Some? && i < r.value && j < r.value {
          StartsAscend(vs, j, r.value);
        }
      }
    }
  }

  /** The tracked attributes that the versions give for a time. */
  function ValueAt(vs: seq<Row>, time: int): Option<Columns> {
    var i := Covering(vs, time);
    if i.None? then None else vs[i.value].hash
  }

  /** The accepted input in force at a time: the latest at or before it, the later arrival among equals. */
  function InForce(log: seq<Input>, time: int): Option<Input> {
    if log == [] then None
    else
      var before, last := InForce(log[..|log| - 1], time), log[|log| - 1];
      if last.time <= time && (before.None? || before.value.time <= last.time) then Some(last) else before
  }

  function ValueOf(log: seq<Input>, time: int, tracked: seq<string>): Option<Columns> {
    var e := InForce(log, time);
    if e.None? then None else Some(Tracked(e.value.data, tracked))
  }

  /** The versions answer every as-of question as the accepted inputs do. */
  ghost predicate AnswersAsOf(vs: seq<Row>, log: seq<Input>, tracked: seq<string>) {
    forall time :: ValueAt(vs, time) == ValueOf(log, time, tracked)
  }

  /** The latest effective time accepted so far. */
  function LatestTime(log: seq<Input>): int
    requires log != []
  {
    if |log| == 1 then log[0].time
    else
      var before := LatestTime(log[..|log| - 1]);
      if before <= log[|log| - 1].time then log[|log| - 1].time else before
  }

  lemma {:induction false} InForceIsAccepted(log: seq<Input>, time: int)
    ensures InForce(log, time).Some? ==> InForce(log, time).value in log && InForce(log, time).value.time <= time
    ensures InForce(log, time).None? <==> forall e | e in log :: time < e.time
    ensures forall e | e in log && e.time <= time :: InForce(log, time).Some? && e.time <= InForce(log, time).value.time
  {
    if log != [] {
      InForceIsAccepted(log[..|log| - 1], time);
      assert log == log[..|log| - 1] + [log[|log| - 1]];
    }
  }

  lemma {:induction false} LatestTimeIsLatest(log: seq<Input>)
    requires log != []
    ensures forall e | e in log :: e.time <= LatestTime(log)
    ensures exists i :: 0 <= i < |log| && log[i].time == LatestTime(log)
    decreases |log|
  {
    var prefix, last := log[..|log| - 1], |log| - 1;
    assert log == prefix + [log[last]];
    if |log| == 1 {
      assert log[0].time == LatestTime(log);
    } else {
      LatestTimeIsLatest(prefix);
      var i :| 0 <= i < |prefix| && prefix[i].time == LatestTime(prefix);
      assert log[i] == prefix[i];
      assert log[if LatestTime(prefix) <= log[last].time then last else i].time == LatestTime(log);
    }
  }

  lemma InForceAtLatest(log: seq<Input>)
    requires log != []
    ensures InForce(log, LatestTime(log)).Some? && InForce(log, LatestTime(log)).value.time == LatestTime(log)
  {
    LatestTimeIsLatest(log);
    var i :| 0 <= i < |log| && log[i].time == LatestTime(log);
    assert log[i] in log;
    InForceIsAccepted(log, LatestTime(log));
  }

  // ---------------------------------------------------------------- one input on one key

  predicate SameColumns(vs: seq<Row>, e: Input, config: Config) {
    vs != [] && vs[|vs| - 1].hash == Some(Tracked(e.data, config.tracked))
  }

  lemma CurrentIsLast(vs: seq<Row>, columns: seq<string>, k: Key)
    requires Tiles(vs) && Of(vs, columns, k)
    ensures CurrentIndex(vs, columns, k) == if vs == [] then None else Some(|vs| - 1)
  {
    hide HasKey;
    if vs != [] {
      assert CurrentOf(vs[|vs| - 1], columns, k);
    }
  }

  /** What an accepted input does to the versions of its key. */
  function Next(vs: seq<Row>, e: Input, config: Config): seq<Row> {
    if vs == [] then [Opened(e, config)]
    else if SameColumns(vs, e, config) then vs
    else vs[|vs| - 1 := Closed(vs[|vs| - 1], e.time)] + [Opened(e, config)]
  }

  lemma AcceptedInput(vs: seq<Row>, e: Input, config: Config)
    requires Tiles(vs) && Of(vs, config.businessKey, e.key)
    ensures Decide(vs, e, config).Ok? <==>
              vs == [] || vs[|vs| - 1].validFrom < e.time
              || (vs[|vs| - 1].validFrom == e.time && SameColumns(vs, e, config))
    ensures Decide(vs, e, config).Ok? ==> Perform(vs, e, Decide(vs, e, config).value, config) == Next(vs, e, config)
  {
    hide HasKey, Tracked, Of, CurrentIndex;
    CurrentIsLast(vs, config.businessKey, e.key);
  }

  lemma NextTiles(vs: seq<Row>, e: Input, config: Config)
    requires Tiles(vs)
    requires vs == [] || vs[|vs| - 1].validFrom < e.time || SameColumns(vs, e, config)
    ensures Tiles(Next(vs, e, config))
  {
    hide Tracked;
  }

  lemma ValueAfterNext(vs: seq<Row>, e: Input, config: Config, time: int)
    requires !SameColumns(vs, e, config)
    ensures ValueAt(Next(vs, e, config), time) ==
            if e.time <= time then Some(Tracked(e.data, config.tracked)) else ValueAt(vs, time)
  {
    hide Tracked;
    var next := Next(vs, e, config);
    var prefix := next[..|next| - 1];
    if time < e.time {
      if vs != [] {
        assert prefix == vs[|vs| - 1 := Closed(vs[|vs| - 1], e.time)];
        assert prefix[..|vs| - 1] == vs[..|vs| - 1];
        SamePrefixSameCovering(prefix, vs, time);
      }
    }
  }

  lemma SamePrefixSameCovering(a: seq<Row>, b: seq<Row>, time: int)
    requires |a| == |b| > 0 && a[..|a| - 1] == b[..|b| - 1] && a[|a| - 1].validFrom == b[|b| - 1].validFrom
    requires a[|a| - 1].hash == b[|b| - 1].hash
    ensures Covering(a, time) == Covering(b, time) && ValueAt(a, time) == ValueAt(b, time)
  {
    var i := Covering(a, time);
    assert Covering(a, time) == Covering(b, time);
    if i.Some? && i.value < |a| - 1 {
      assert a[..|a| - 1][i.value] == b[..|b| - 1][i.value];
    }
  }

  lemma ValueAfterInput(log: seq<Input>, e: Input, tracked: seq<string>, time: int)
    ensures ValueOf(log + [e], time, tracked) ==
            if e.time <= time && (InForce(log, time).None? || InForce(log, time).value.time <= e.time)
            then Some(Tracked(e.data, tracked)) else ValueOf(log, time, tracked)
  {
    assert (log + [e])[..|log|] == log;
  }

  /** The condition under which an accepted input leaves the as-of answers right: it is not earlier than
      anything accepted for its key, or it changes nothing. */
  predicate InTime(vs: seq<Row>, log: seq<Input>, e: Input, config: Config) {
    log == [] || LatestTime(log) <= e.time || SameColumns(vs, e, config)
  }

  lemma UnchangedKeepsAnswers(vs: seq<Row>, log: seq<Input>, e: Input, config: Config)
    requires Tiles(vs) && AnswersAsOf(vs, log, config.tracked)
    requires SameColumns(vs, e, config) && vs[|vs| - 1].validFrom <= e.time
    ensures AnswersAsOf(vs, log + [e], config.tracked)
  {
    hide Tracked, InForce;
    forall time ensures ValueAt(vs, time) == ValueOf(log + [e], time, config.tracked) {
      ValueAfterInput(log, e, config.tracked, time);
      assert ValueAt(vs, time) == ValueOf(log, time, config.tracked);
    }
  }

  lemma ChangeInTimeKeepsAnswers(vs: seq<Row>, log: seq<Input>, e: Input, config: Config)
    requires AnswersAsOf(vs, log, config.tracked) && !SameColumns(vs, e, config)
    requires log == [] || LatestTime(log) <= e.time
    ensures AnswersAsOf(Next(vs, e, config), log + [e], config.tracked)
  {
    hide Tracked, InForce, Next, ValueAt;
    forall time ensures ValueAt(Next(vs, e, config), time) == ValueOf(log + [e], time, config.tracked) {
      ValueAfterNext(vs, e, config, time);
      ValueAfterInput(log, e, config.tracked, time);
      assert ValueAt(vs, time) == ValueOf(log, time, config.tracked);
      if InForce(log, time).Some? {
        InForceIsAccepted(log, time);
        LatestTimeIsLatest(log);
      }
    }
  }

  lemma LateChangeBreaksAnswers(vs: seq<Row>, log: seq<Input>, e: Input, config: Config)
    requires AnswersAsOf(vs, log, config.tracked) && vs != [] && !SameColumns(vs, e, config)
    requires vs[|vs| - 1].validFrom <= e.time && log != [] && e.time < LatestTime(log)
    ensures ValueAt(Next(vs, e, config), LatestTime(log)) != ValueOf(log + [e], LatestTime(log), config.tracked)
  {
    hide Tracked, InForce, Next;
    var time := LatestTime(log);
    ValueAfterNext(vs, e, config, time);
    ValueAfterInput(log, e, config.tracked, time);
    InForceAtLatest(log);
    assert ValueAt(vs, time) == ValueOf(log, time, config.tracked);
  }

  /** Exactly when the as-of answers stay right under one more accepted input. */
  lemma AnswersStayRightExactlyWhenInTime(vs: seq<Row>, log: seq<Input>, e: Input, config: Config)
    requires Tiles(vs) && Of(vs, config.businessKey, e.key) && (vs == [] <==> log == [])
    requires AnswersAsOf(vs, log, config.tracked) && Decide(vs, e, config).Ok?
    ensures AnswersAsOf(Next(vs, e, config), log + [e], config.tracked) <==> InTime(vs, log, e, config)
  {
    hide Tracked, ValueAt, ValueOf, Decide, Of;
    AcceptedInput(vs, e, config);
    if SameColumns(vs, e, config) {
      UnchangedKeepsAnswers(vs, log, e, config);
    } else if log == [] || LatestTime(log) <= e.time {
      ChangeInTimeKeepsAnswers(vs, log, e, config);
    } else {
      LateChangeBreaksAnswers(vs, log, e, config);
    }
  }

  // ---------------------------------------------------------------- a key's part of the table

  /** The rows of one key, in the order of the listing. */
  function History(rows: seq<Row>, columns: seq<string>, k: Key): seq<Row> {
    if rows == [] then []
    else
      var before := History(rows[..|rows| - 1], columns, k);
      if HasKey(rows[|rows| - 1], columns, k) then before + [rows[|rows| - 1]] else before
  }

  function InputsOf(es: seq<Input>, k: Key): seq<Input> {
    if es == [] then []
    else
      var before := InputsOf(es[..|es| - 1], k);
      if es[|es| - 1].key == k then before + [es[|es| - 1]] else before
  }

  lemma {:induction false} HistoryOfConcat(a: seq<Row>, b: seq<Row>, columns: seq<string>, k: Key)
    ensures History(a + b, columns, k) == History(a, columns, k) + History(b, columns, k)
    decreases |b|
  {
    hide HasKey;
    if b == [] {
      assert a + b == a;
    } else {
      assert (a + b)[..|a + b| - 1] == a + b[..|b| - 1];
      HistoryOfConcat(a, b[..|b| - 1], columns, k);
    }
  }

  lemma {:induction false} HistoryIsOf(rows: seq<Row>, columns: seq<string>, k: Key)
    ensures Of(History(rows, columns, k), columns, k)
    ensures (exists i :: 0 <= i < |rows| && CurrentOf(rows[i], columns, k)) <==>
            (exists i :: 0 <= i < |History(rows, columns, k)| && CurrentOf(History(rows, columns, k)[i], columns, k))
  {
    hide HasKey;
    if rows != [] {
      var prefix, last := rows[..|rows| - 1], rows[|rows| - 1];
      HistoryIsOf(prefix, columns, k);
      var h, g := History(rows, columns, k), History(prefix, columns, k);
      if i :| 0 <= i < |g| && CurrentOf(g[i], columns, k) {
        assert h[i] == g[i];
      }
      if i :| 0 <= i < |prefix| && CurrentOf(prefix[i], columns, k) {
        assert rows[i] == prefix[i];
      }
      if CurrentOf(last, columns, k) {
        assert h[|h| - 1] == last && rows[|rows| - 1] == last;
      }
    }
  }

  lemma SplitAt(rows: seq<Row>, i: nat, y: Row, columns: seq<string>, k: Key)
    requires i < |rows|
    requires HasKey(rows[i], columns, k) <==> HasKey(y, columns, k)
    ensures var front, back := History(rows[..i], columns, k), History(rows[i + 1..], columns, k);
            && History(rows, columns, k) == front + (if HasKey(rows[i], columns, k) then [rows[i]] else []) + back
            && History(rows[i := y], columns, k) == front + (if HasKey(y, columns, k) then [y] else []) + back
  {
    hide HasKey;
    assert rows == rows[..i] + ([rows[i]] + rows[i + 1..]);
    assert rows[i := y] == rows[..i] + ([y] + rows[i + 1..]);
    HistoryOfConcat(rows[..i], [rows[i]] + rows[i + 1..], columns, k);
    HistoryOfConcat(rows[..i], [y] + rows[i + 1..], columns, k);
    HistoryOfConcat([rows[i]], rows[i + 1..], columns, k);
    HistoryOfConcat([y], rows[i + 1..], columns, k);
    HistoryOfOne(rows[i], columns, k);
    HistoryOfOne(y, columns, k);
  }

  lemma HistoryOfOne(row: Row, columns: seq<string>, k: Key)
    ensures History([row], columns, k) == if HasKey(row, columns, k) then [row] else []
  {
    hide HasKey;
    assert [row][..0] == [];
    assert History([row][..0], columns, k) == [];
  }

  /** The current row of a key sits in the table where it sits in the key's own history. */
  lemma CurrentInHistory(rows: seq<Row>, columns: seq<string>, k: Key)
    ensures var i, j := CurrentIndex(rows, columns, k), CurrentIndex(History(rows, columns, k), columns, k);
            && (i.None? <==> j.None?)
            && (i.Some? ==> j.value == |History(rows[..i.value], columns, k)| && History(rows, columns, k)[j.value] == rows[i.value])
  {
    hide HasKey;
    HistoryIsOf(rows, columns, k);
    var i, j := CurrentIndex(rows, columns, k), CurrentIndex(History(rows, columns, k), columns, k);
    if i.Some? {
      var front := History(rows[..i.value], columns, k);
      SplitAt(rows, i.value, rows[i.value], columns, k);
      HistoryIsOf(rows[..i.value], columns, k);
      var h := History(rows, columns, k);
      assert h[|front|] == rows[i.value];
      forall n | 0 <= n < |front| ensures !CurrentOf(h[n], columns, k) {
        assert h[n] == front[n];
      }
    }
  }

  lemma OpenedHasKey(e: Input, config: Config, k: Key)
    requires KeyOf(e.data, config.businessKey) == Some(e.key)
    ensures HasKey(Opened(e, config), config.businessKey, k) <==> k == e.key
  {
    hide KeyOf;
  }

  lemma ClosedKeepsKey(row: Row, at: int, columns: seq<string>, k: Key)
    ensures HasKey(Closed(row, at), columns, k) <==> HasKey(row, columns, k)
  {
    hide KeyOf;
  }

  lemma OneKeyPerRow(row: Row, columns: seq<string>, k: Key, other: Key)
    requires HasKey(row, columns, k) && HasKey(row, columns, other)
    ensures k == other
  {
    hide KeyOf;
  }

  lemma ReplaceInHistory(rows: seq<Row>, i: nat, at: int, columns: seq<string>, k: Key, mine: Key)
    requires CurrentIndex(rows, columns, mine) == Some(i)
    ensures History(rows[i := Closed(rows[i], at)], columns, k) ==
            if k == mine then
              var j := CurrentIndex(History(rows, columns, k), columns, k);
              if j.Some? then History(rows, columns, k)[j.value := Closed(rows[i], at)] else []
            else History(rows, columns, k)
  {
    hide HasKey, History, Closed;
    var closed := Closed(rows[i], at);
    ClosedKeepsKey(rows[i], at, columns, k);
    SplitAt(rows, i, closed, columns, k);
    if k == mine {
      CurrentInHistory(rows, columns, k);
      var front := History(rows[..i], columns, k);
      assert History(rows, columns, k)[|front| := closed] == front + [closed] + History(rows[i + 1..], columns, k);
    } else if HasKey(rows[i], columns, k) {
      OneKeyPerRow(rows[i], columns, k, mine);
    }
  }

  lemma AppendInHistory(rows: seq<Row>, e: Input, config: Config, k: Key)
    requires KeyOf(e.data, config.businessKey) == Some(e.key)
    ensures History(rows + [Opened(e, config)], config.businessKey, k) ==
            History(rows, config.businessKey, k) + if k == e.key then [Opened(e, config)] else []
  {
    hide History, HasKey;
    OpenedHasKey(e, config, k);
    HistoryOfConcat(rows, [Opened(e, config)], config.businessKey, k);
    HistoryOfOne(Opened(e, config), config.businessKey, k);
  }

  /** An input treats its own key's history as if the table held nothing else, and no other key's. */
  lemma InputActsOnItsKey(rows: seq<Row>, e: Input, config: Config, k: Key)
    requires Decide(rows, e, config).Ok? && KeyOf(e.data, config.businessKey) == Some(e.key)
    ensures var next := Perform(rows, e, Decide(rows, e, config).value, config);
            History(next, config.businessKey, k) ==
            if k == e.key then
              Perform(History(rows, config.businessKey, k), e, Decide(rows, e, config).value, config)
            else History(rows, config.businessKey, k)
  {
    hide Tracked, KeyOf, HasKey, History, Opened, Closed;
    var columns := config.businessKey;
    CurrentInHistory(rows, columns, e.key);
    var change := Decide(rows, e, config).value;
    if change.Insert? {
      AppendInHistory(rows, e, config, k);
    } else if change.Replace? {
      var i := CurrentIndex(rows, columns, e.key).value;
      ReplaceInHistory(rows, i, e.time, columns, k, e.key);
      AppendInHistory(rows[i := Closed(rows[i], e.time)], e, config, k);
    }
  }

  lemma DecisionIsTheKeys(rows: seq<Row>, e: Input, config: Config)
    ensures Decide(rows, e, config) == Decide(History(rows, config.businessKey, e.key), e, config)
  {
    hide Tracked, HasKey, History;
    CurrentInHistory(rows, config.businessKey, e.key);
  }

  // ---------------------------------------------------------------- runs of batches

  /** Every key's rows tile its time line. */
  ghost predicate TableTiles(rows: seq<Row>, columns: seq<string>) {
    forall k :: Tiles(History(rows, columns, k))
  }

  predicate ReadFrom(e: Input, config: Config) {
    KeyOf(e.data, config.businessKey) == Some(e.key)
  }

  lemma InputKeepsTiles(rows: seq<Row>, e: Input, config: Config)
    requires TableTiles(rows, config.businessKey) && Decide(rows, e, config).Ok? && ReadFrom(e, config)
    ensures TableTiles(Perform(rows, e, Decide(rows, e, config).value, config), config.businessKey)
    ensures forall k ::
              History(Perform(rows, e, Decide(rows, e, config).value, config), config.businessKey, k) ==
              if k == e.key then Next(History(rows, config.businessKey, k), e, config) else History(rows, config.businessKey, k)
  {
    hide Tracked, KeyOf, HasKey, Tiles, Next, Decide, Perform, History;
    var columns := config.businessKey;
    var next := Perform(rows, e, Decide(rows, e, config).value, config);
    forall k
      ensures History(next, columns, k) == if k == e.key then Next(History(rows, columns, k), e, config) else History(rows, columns, k)
      ensures Tiles(History(next, columns, k))
    {
      assert Tiles(History(rows, columns, k));
      InputActsOnItsKey(rows, e, config, k);
      if k == e.key {
        DecisionIsTheKeys(rows, e, config);
        HistoryIsOf(rows, columns, k);
        AcceptedInput(History(rows, columns, k), e, config);
        NextTiles(History(rows, columns, k), e, config);
      }
    }
  }

  /** The versions of a key after its accepted inputs, from nothing. */
  function Versions(log: seq<Input>, config: Config): seq<Row> {
    if log == [] then [] else Next(Versions(log[..|log| - 1], config), log[|log| - 1], config)
  }

  /** Folding over the table builds every key's versions from its own inputs. */
  lemma {:induction false} FoldIsKeywise(es: seq<Input>, config: Config)
    requires Fold([], es, config).Ok? && forall e | e in es :: ReadFrom(e, config)
    ensures TableTiles(Fold([], es, config).value.rows, config.businessKey)
    ensures forall k :: History(Fold([], es, config).value.rows, config.businessKey, k) == Versions(InputsOf(es, k), config)
    decreases |es|
  {
    hide Tracked, KeyOf, HasKey, Tiles, Next, Decide, Perform, ReadFrom;
    if es != [] {
      var prefix, e := es[..|es| - 1], es[|es| - 1];
      FoldIsKeywise(prefix, config);
      var rows := Fold([], prefix, config).value.rows;
      assert e in es;
      InputKeepsTiles(rows, e, config);
      forall k ensures History(Fold([], es, config).value.rows, config.businessKey, k) == Versions(InputsOf(es, k), config) {
        if k == e.key {
          assert InputsOf(es, k)[..|InputsOf(es, k)| - 1] == InputsOf(prefix, k);
        }
      }
    } else {
      NoHistory(config.businessKey);
    }
  }

  lemma NoHistory(columns: seq<string>)
    ensures TableTiles([], columns)
  {
  }

  /** The inputs that a run of batches applies, in the order in which it does. */
  function AppliedInputs(batches: seq<seq<Columns>>, config: Config): seq<Input> {
    if batches == [] then []
    else
      var es := ReadInputs(batches[|batches| - 1], config);
      AppliedInputs(batches[..|batches| - 1], config) + if es.Ok? then SortByTime(es.value) else []
  }

  /** The table after a run of batches that starts from an empty one. */
  function RunBatches(batches: seq<seq<Columns>>, config: Config): Result<seq<Row>, Scd2Error> {
    if batches == [] then Ok([])
    else
      var before := RunBatches(batches[..|batches| - 1], config);
      if before.Err? then before
      else
        var o := Apply(before.value, batches[|batches| - 1], config);
        if o.Err? then Err(o.error) else Ok(o.value.rows)
  }

  lemma {:induction false} FoldOfConcat(rows: seq<Row>, a: seq<Input>, b: seq<Input>, config: Config)
    requires Fold(rows, a, config).Ok? && Fold(Fold(rows, a, config).value.rows, b, config).Ok?
    ensures Fold(rows, a + b, config).Ok?
    ensures Fold(rows, a + b, config).value.rows == Fold(Fold(rows, a, config).value.rows, b, config).value.rows
    decreases |b|
  {
    hide Decide, Perform;
    if b == [] {
      assert a + b == a;
    } else {
      assert (a + b)[..|a + b| - 1] == a + b[..|b| - 1];
      FoldOfConcat(rows, a, b[..|b| - 1], config);
    }
  }

  lemma {:induction false} InputsAreReadFrom(incoming: seq<Columns>, config: Config)
    requires ReadInputs(incoming, config).Ok?
    ensures forall e | e in ReadInputs(incoming, config).value :: ReadFrom(e, config)
  {
    hide KeyOf;
    if incoming != [] {
      InputsAreReadFrom(incoming[..|incoming| - 1], config);
    }
  }

  lemma {:induction false} RunIsOneFold(batches: seq<seq<Columns>>, config: Config)
    requires RunBatches(batches, config).Ok?
    ensures forall e | e in AppliedInputs(batches, config) :: ReadFrom(e, config)
    ensures Fold([], AppliedInputs(batches, config), config).Ok?
    ensures Fold([], AppliedInputs(batches, config), config).value.rows == RunBatches(batches, config).value
  {
    hide Step, ReadInputs, CurrentRowViolation, AllKeyed, ReadFrom, Fold;
    if batches == [] {
      FoldNoInput([], config);
    } else {
      var prefix, incoming := batches[..|batches| - 1], batches[|batches| - 1];
      RunIsOneFold(prefix, config);
      InputsAreReadFrom(incoming, config);
      var sorted := SortByTime(ReadInputs(incoming, config).value);
      SortIsPermutation(ReadInputs(incoming, config).value);
      forall e | e in sorted ensures ReadFrom(e, config) {
        assert e in multiset(sorted);
      }
      FoldOfConcat([], AppliedInputs(prefix, config), sorted, config);
    }
  }

  /** Every accepted input of the key was in time. */
  predicate InTimeThroughout(log: seq<Input>, config: Config) {
    log == []
    || (&& InTimeThroughout(log[..|log| - 1], config)
        && InTime(Versions(log[..|log| - 1], config), log[..|log| - 1], log[|log| - 1], config))
  }

  lemma {:induction false} VersionsStartWithTheLog(log: seq<Input>, config: Config)
    ensures Versions(log, config) == [] <==> log == []
  {
    hide Tracked;
    if log != [] {
      VersionsStartWithTheLog(log[..|log| - 1], config);
    }
  }

  /** After every input of the key the versions answer every as-of question as the inputs accepted by then do. */
  ghost predicate AlwaysAnswers(log: seq<Input>, config: Config) {
    forall n | 0 <= n <= |log| :: AnswersAsOf(Versions(log[..n], config), log[..n], config.tracked)
  }

  lemma AlwaysAnswersOneMore(log: seq<Input>, config: Config)
    requires log != []
    ensures AlwaysAnswers(log, config) <==>
              AlwaysAnswers(log[..|log| - 1], config) && AnswersAsOf(Versions(log, config), log, config.tracked)
  {
    hide Versions, AnswersAsOf;
    var prefix := log[..|log| - 1];
    assert log[..|log|] == log;
    assert forall n | 0 <= n <= |prefix| :: prefix[..n] == log[..n];
    if AlwaysAnswers(prefix, config) && AnswersAsOf(Versions(log, config), log, config.tracked) {
      forall n | 0 <= n <= |log| ensures AnswersAsOf(Versions(log[..n], config), log[..n], config.tracked) {
        assert n <= |prefix| ==> AnswersAsOf(Versions(prefix[..n], config), prefix[..n], config.tracked);
      }
    }
    if AlwaysAnswers(log, config) {
      forall n | 0 <= n <= |prefix| ensures AnswersAsOf(Versions(prefix[..n], config), prefix[..n], config.tracked) {
        assert AnswersAsOf(Versions(log[..n], config), log[..n], config.tracked);
      }
    }
  }

  lemma AlwaysAnswersLast(log: seq<Input>, config: Config)
    requires AlwaysAnswers(log, config)
    ensures AnswersAsOf(Versions(log, config), log, config.tracked)
  {
    hide Versions, AnswersAsOf;
    assert log[..|log|] == log;
  }

  /** The accepted inputs of a key are answered right all along exactly when every one of them was in time. */
  lemma {:induction false} KeyAnswersExactlyWhen(es: seq<Input>, config: Config, k: Key)
    requires Fold([], es, config).Ok? && (forall e | e in es :: ReadFrom(e, config))
    ensures AlwaysAnswers(InputsOf(es, k), config) <==> InTimeThroughout(InputsOf(es, k), config)
    decreases |es|
  {
    hide Tracked, KeyOf, HasKey, Tiles, Next, Decide, Perform, ReadFrom, InTime, AnswersAsOf, TableTiles, AlwaysAnswers;
    if es == [] {
      NothingAnswers(config.tracked);
      NoInputAnswers(config);
    } else {
      var prefix, e := es[..|es| - 1], es[|es| - 1];
      var log := InputsOf(prefix, k);
      assert e.key == k ==> InputsOf(es, k)[..|InputsOf(es, k)| - 1] == log;
      KeyAnswersExactlyWhen(prefix, config, k);
      if e.key == k {
        AlwaysAnswersOneMore(InputsOf(es, k), config);
        FoldIsKeywise(prefix, config);
        var rows := Fold([], prefix, config).value.rows;
        TilesOfKey(rows, config.businessKey, k);
        HistoryIsOf(rows, config.businessKey, k);
        DecisionIsTheKeys(rows, e, config);
        VersionsStartWithTheLog(log, config);
        if AlwaysAnswers(log, config) {
          AlwaysAnswersLast(log, config);
          AnswersStayRightExactlyWhenInTime(Versions(log, config), log, e, config);
        }
      }
    }
  }

  lemma NoInputAnswers(config: Config)
    ensures AlwaysAnswers([], config)
  {
    NothingAnswers(config.tracked);
  }

  lemma TilesOfKey(rows: seq<Row>, columns: seq<string>, k: Key)
    requires TableTiles(rows, columns)
    ensures Tiles(History(rows, columns, k))
  {
  }

  lemma NothingAnswers(tracked: seq<string>)
    ensures AnswersAsOf([], [], tracked)
  {
  }

  /** Over any accepted run of batches from an empty table the rows of every key tile its time line, and they answer
      every as-of question as the accepted inputs do, after each of these inputs, if and only if the inputs came in
      time. */
  lemma RunsTileAndAnswerAsOf(batches: seq<seq<Columns>>, config: Config, k: Key)
    requires RunBatches(batches, config).Ok?
    ensures var vs := History(RunBatches(batches, config).value, config.businessKey, k);
            var log := InputsOf(AppliedInputs(batches, config), k);
            && Tiles(vs)
            && vs == Versions(log, config)
            && (AlwaysAnswers(log, config) <==> InTimeThroughout(log, config))
            && (InTimeThroughout(log, config) ==> AnswersAsOf(vs, log, config.tracked))
  {
    hide Tracked, Tiles, AnswersAsOf, InTimeThroughout, Versions, ReadFrom, Fold, RunBatches, AppliedInputs,
      AlwaysAnswers;
    RunIsOneFold(batches, config);
    var log := AppliedInputs(batches, config);
    FoldIsKeywise(log, config);
    TilesOfKey(RunBatches(batches, config).value, config.businessKey, k);
    KeyAnswersExactlyWhen(log, config, k);
    if InTimeThroughout(InputsOf(log, k), config) {
      AlwaysAnswersLast(InputsOf(log, k), config);
    }
  }

  lemma {:induction false} InputsOfAscending(es: seq<Input>, k: Key)
    requires Ascending(es)
    ensures Ascending(InputsOf(es, k)) && forall e | e in InputsOf(es, k) :: e in es
  {
    hide Ascending;
    if es == [] {
      NothingAscends();
    } else {
      var prefix, last := es[..|es| - 1], es[|es| - 1];
      AscendingPrefix(es);
      InputsOfAscending(prefix, k);
      assert es == prefix + [last];
      if last.key == k {
        AscendingWithLast(InputsOf(prefix, k), last);
      }
    }
  }

  lemma {:induction false} AscendingIsInTime(log: seq<Input>, config: Config)
    requires Ascending(log)
    ensures InTimeThroughout(log, config)
  {
    hide Tracked, Versions, SameColumns;
    if log != [] {
      AscendingIsInTime(log[..|log| - 1], config);
      if |log| > 1 {
        LatestTimeIsLatest(log[..|log| - 1]);
      }
    }
  }

  /** Within a single batch the sort brings every input in time. */
  lemma OneBatchAnswersAsOf(incoming: seq<Columns>, config: Config, k: Key)
    requires RunBatches([incoming], config).Ok?
    ensures AnswersAsOf(History(RunBatches([incoming], config).value, config.businessKey, k),
                        InputsOf(AppliedInputs([incoming], config), k), config.tracked)
  {
    hide Tracked, Versions, AnswersAsOf, InTimeThroughout;
    RunsTileAndAnswerAsOf([incoming], config, k);
    assert [incoming][..0] == [];
    assert AppliedInputs([incoming][..0], config) == [];
    var sorted := SortByTime(ReadInputs(incoming, config).value);
    assert AppliedInputs([incoming], config) == sorted;
    SortIsAscending(ReadInputs(incoming, config).value);
    InputsOfAscending(sorted, k);
    AscendingIsInTime(InputsOf(sorted, k), config);
  }

  lemma FoldOneMore(rows: seq<Row>, es: seq<Input>, e: Input, config: Config)
    requires Fold(rows, es, config).Ok?
    ensures Fold(rows, es + [e], config) == Step(Fold(rows, es, config).value, e, config)
  {
    hide Step;
    assert (es + [e])[..|es|] == es;
  }

  lemma FoldNoInput(rows: seq<Row>, config: Config)
    ensures Fold(rows, [], config) == Ok(Outcome(rows, 0, 0))
  {
  }

  lemma VersionsOneMore(log: seq<Input>, e: Input, config: Config)
    ensures Versions(log + [e], config) == Next(Versions(log, config), e, config)
  {
    hide Next;
    assert (log + [e])[..|log|] == log;
  }

  /** An input later than the only version of its key. */
  lemma StepOnOne(first: Input, e: Input, config: Config, inserted: nat, updated: nat)
    requires first.key == e.key && ReadFrom(first, config) && first.time < e.time
    ensures var vs := [Opened(first, config)];
            && Tiles(vs) && Of(vs, config.businessKey, e.key)
            && Decide(vs, e, config).Ok?
            && Step(Outcome(vs, inserted, updated), e, config) ==
               Ok(Outcome(Next(vs, e, config), inserted, if SameColumns(vs, e, config) then updated else updated + 1))
  {
    hide Tracked, KeyOf;
    var vs := [Opened(first, config)];
    CurrentIsLast(vs, config.businessKey, e.key);
  }

  lemma StepOnNone(first: Input, config: Config)
    ensures Decide([], first, config).Ok?
    ensures Step(Outcome([], 0, 0), first, config) == Ok(Outcome([Opened(first, config)], 1, 0))
  {
    hide Opened;
    assert [] + [Opened(first, config)] == [Opened(first, config)];
    assert Decide([], first, config) == Ok(Insert);
  }

  /** Across batches a change may slip in behind an input that was accepted without being recorded: after a
      value is confirmed at a later time, a different value at an earlier time is accepted, and from then on
      the table gives the wrong answer at the later time. */
  lemma ConfirmedValueIsLost(config: Config, first: Input, confirmed: Input, late: Input)
    requires first.key == confirmed.key == late.key
    requires ReadFrom(first, config) && ReadFrom(confirmed, config) && ReadFrom(late, config)
    requires first.time < late.time < confirmed.time
    requires Tracked(first.data, config.tracked) == Tracked(confirmed.data, config.tracked) != Tracked(late.data, config.tracked)
    ensures var vs, log := Versions([first, confirmed], config), [first, confirmed];
            && Fold([], log, config) == Ok(Outcome(vs, 1, 0))
            && AnswersAsOf(vs, log, config.tracked)
            && Fold(vs, [late], config) == Ok(Outcome(Versions(log + [late], config), 0, 1))
            && !AnswersAsOf(Versions(log + [late], config), log + [late], config.tracked)
  {
    hide Tracked, KeyOf, Decide, Perform, Fold, Versions, AnswersAsOf, Next, Step;
    var v1, log := [Opened(first, config)], [first, confirmed];
    assert [] + [first] == [first] && [first] + [confirmed] == log && [] + [late] == [late];
    FoldNoInput([], config);
    FoldOneMore([], [], first, config);
    StepOnNone(first, config);
    FoldOneMore([], [first], confirmed, config);
    StepOnOne(first, confirmed, config, 1, 0);
    FoldNoInput(v1, config);
    FoldOneMore(v1, [], late, config);
    StepOnOne(first, late, config, 0, 0);
    VersionsOfThree(first, confirmed, late, config);
    AnswersAreLost(first, confirmed, late, config);
  }

  lemma AnswersAreLost(first: Input, confirmed: Input, late: Input, config: Config)
    requires first.key == confirmed.key == late.key
    requires ReadFrom(first, config) && ReadFrom(confirmed, config) && ReadFrom(late, config)
    requires first.time < late.time < confirmed.time
    requires Tracked(first.data, config.tracked) == Tracked(confirmed.data, config.tracked) != Tracked(late.data, config.tracked)
    ensures var v1, log := [Opened(first, config)], [first, confirmed];
            && AnswersAsOf(v1, log, config.tracked)
            && !AnswersAsOf(Next(v1, late, config), log + [late], config.tracked)
  {
    hide Tracked, KeyOf, Decide, Versions, AnswersAsOf, Next, Step;
    var v1, log := [Opened(first, config)], [first, confirmed];
    assert [] + [first] == [first] && [first] + [confirmed] == log;
    StepOnOne(first, confirmed, config, 1, 0);
    StepOnNone(first, config);
    StepOnOne(first, late, config, 0, 0);
    VersionsOfThree(first, confirmed, late, config);
    NothingAnswers(config.tracked);
    assert Tiles([]) && Of([], config.businessKey, first.key);
    AnswersStayRightExactlyWhenInTime([], [], first, config);
    AnswersStayRightExactlyWhenInTime(v1, [first], confirmed, config);
    assert !InTime(v1, log, late, config);
    AnswersStayRightExactlyWhenInTime(v1, log, late, config);
  }

  lemma VersionsOfThree(first: Input, confirmed: Input, late: Input, config: Config)
    requires Tracked(first.data, config.tracked) == Tracked(confirmed.data, config.tracked)
    ensures Next([], first, config) == [Opened(first, config)]
    ensures Next([Opened(first, config)], confirmed, config) == [Opened(first, config)]
    ensures Versions([first, confirmed], config) == [Opened(first, config)]
    ensures Versions([first, confirmed] + [late], config) == Next([Opened(first, config)], late, config)
  {
    hide Tracked, Versions;
    assert [] + [first] == [first] && [first] + [confirmed] == [first, confirmed];
    assert Versions([], config) == [] by {
      VersionsStartWithTheLog([], config);
    }
    VersionsOneMore([], first, config);
    VersionsOneMore([first], confirmed, config);
    VersionsOneMore([first, confirmed], late, config);
  }
}
