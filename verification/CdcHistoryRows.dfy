/** The SCD2 engine works on one list of rows; this module shows that it treats every key on its own,
    independently of the order of the list, and lifts the timeline and replay results to whole
    batches (apply/cdc_scd2.py). */
module CdcHistoryRows {
  import opened Common
  import opened SourceOrder
  import opened CdcCapture
  import opened CdcCurrentState
  import opened CdcReplay
  import opened CdcScd2
  import opened CdcTimeline

  // ---------------------------------------------------------------- the rows of one key

  /** The rows of the key are the versions of `h`, in any order. */
  ghost predicate Represents(rows: seq<Version>, columns: seq<string>, k: Key, h: KeyHistory) {
    multiset(History(rows, columns, k)) == multiset(h.All())
  }

  lemma {:induction false} HistoryIs(rows: seq<Version>, columns: seq<string>, k: Key)
    ensures forall v :: v in History(rows, columns, k) <==> v in rows && HasKey(v, columns, k)
  {
    hide HasKey;
    if rows != [] {
      HistoryIs(rows[..|rows| - 1], columns, k);
      assert rows == rows[..|rows| - 1] + [rows[|rows| - 1]];
    }
  }

  lemma {:induction false} HistorySplits(a: seq<Version>, b: seq<Version>, columns: seq<string>, k: Key)
    ensures History(a + b, columns, k) == History(a, columns, k) + History(b, columns, k)
    decreases |b|
  {
    hide HasKey;
    if b == [] {
      assert a + b == a;
    } else {
      HistorySplits(a, b[..|b| - 1], columns, k);
      assert (a + b)[..|a + b| - 1] == a + b[..|b| - 1];
    }
  }

  lemma HistoryOfOne(v: Version, columns: seq<string>, k: Key)
    ensures History([v], columns, k) == if HasKey(v, columns, k) then [v] else []
  {
    assert [v][..0] == [];
  }

  lemma MembersAgree(rows: seq<Version>, columns: seq<string>, k: Key, h: KeyHistory, v: Version)
    requires Represents(rows, columns, k, h)
    ensures v in h.All() <==> v in rows && HasKey(v, columns, k)
  {
    HistoryIs(rows, columns, k);
    assert v in History(rows, columns, k) <==> v in multiset(h.All());
  }

  /** The first current row of the key is the open version. */
  lemma CurrentAgrees(rows: seq<Version>, columns: seq<string>, k: Key, h: KeyHistory)
    requires Represents(rows, columns, k, h) && IsTimeline(h, k, columns)
    ensures CurrentIndex(rows, columns, k).Some? <==> h.open.Some?
    ensures h.open.Some? ==> rows[CurrentIndex(rows, columns, k).value] == h.open.value
  {
    hide HasKey;
    var p, n :| Timeline(h, k, columns, p, n);
    var index := CurrentIndex(rows, columns, k);
    if index.Some? {
      MembersAgree(rows, columns, k, h, rows[index.value]);
    }
    if h.open.Some? {
      assert h.open.value in h.All();
      MembersAgree(rows, columns, k, h, h.open.value);
    }
  }

  ghost predicate ClosedNoLater(v: Version, bound: Version) {
    v.closedPosition.Some? && bound.closedPosition.Some? && LexLeq(v.closedPosition.value, bound.closedPosition.value)
  }

  /** The scan for the version closed last finds a row that no other evidence exceeds. */
  lemma {:induction false} LatestClosedIs(s: seq<Version>, p: string, n: nat)
    requires n > 0
    requires forall v | v in s :: NoEvidence(v) || ProperlyClosed(v, p, n)
    ensures LatestClosed(s).Ok?
    ensures LatestClosed(s).value.None? ==> forall v | v in s :: NoEvidence(v)
    ensures LatestClosed(s).value.Some? ==>
              forall v | v in s && !NoEvidence(v) :: ClosedNoLater(v, LatestClosed(s).value.value)
  {
    if s != [] {
      var prefix, last := s[..|s| - 1], s[|s| - 1];
      assert s == prefix + [last];
      LatestClosedIs(prefix, p, n);
      var before := LatestClosed(prefix).value;
      if before.Some? && !NoEvidence(last) {
        var a, b := before.value.closedPosition.value, last.closedPosition.value;
        assert before.value in s && last in s;
        LexTotal(a, b);
        if LexLess(a, b) {
          forall v | v in prefix && !NoEvidence(v) ensures ClosedNoLater(v, last) {
            if v.closedPosition.value != a {
              LexTransitive(v.closedPosition.value, a, b);
            }
          }
        }
      }
    }
  }

  /** Among the closed versions of a timeline, the last one is the only one that none exceeds. */
  lemma LatestIsLast(h: KeyHistory, k: Key, columns: seq<string>, p: string, n: nat, v: Version)
    requires Timeline(h, k, columns, p, n) && v in h.closed
    requires ClosedNoLater(h.closed[|h.closed| - 1], v)
    ensures v == h.closed[|h.closed| - 1]
  {
    hide HasKey;
    var latest := h.closed[|h.closed| - 1];
    var i :| 0 <= i < |h.closed| && h.closed[i] == v;
    if i < |h.closed| - 1 {
      assert ClosedBefore(h.closed[i], latest);
      LexTotal(v.closedPosition.value, latest.closedPosition.value);
    }
  }

  lemma LatestAgrees(rows: seq<Version>, columns: seq<string>, k: Key, h: KeyHistory)
    requires Represents(rows, columns, k, h) && IsTimeline(h, k, columns) && h.open.None?
    ensures LatestClosed(History(rows, columns, k)) == Ok(h.Latest())
  {
    hide HasKey, History, LatestClosed, ClosedBefore, OpenAfter, ClosedNoLater;
    var p, n :| Timeline(h, k, columns, p, n);
    var s := History(rows, columns, k);
    forall v ensures v in s <==> v in h.legacy || v in h.closed {
      assert v in s <==> v in multiset(h.All());
    }
    LatestClosedIs(s, p, n);
    var found := LatestClosed(s).value;
    if h.closed != [] {
      var latest := h.closed[|h.closed| - 1];
      assert latest in h.closed && latest in s;
      LatestIsLast(h, k, columns, p, n, found.value);
    }
  }

  /** The engine decides on the list what the history of the key decides. */
  lemma DecisionsAgree(rows: seq<Version>, k: Key, e: Event, config: Config, h: KeyHistory)
    requires Represents(rows, config.businessKey, k, h) && IsTimeline(h, k, config.businessKey)
    requires e.eventTime.Some?
    ensures DecideOnRows(rows, k, e, config) == DecideOnKey(h, e, config)
  {
    hide DecideOnCurrent, DecideOnAbsent, IsTimeline, LatestClosed, History;
    CurrentAgrees(rows, config.businessKey, k, h);
    if h.open.None? {
      LatestAgrees(rows, config.businessKey, k, h);
      assert |multiset(History(rows, config.businessKey, k))| == |multiset(h.All())|;
    }
  }

  lemma ReplaceInHistory(rows: seq<Version>, i: nat, v: Version, columns: seq<string>, k: Key)
    requires i < |rows| && (HasKey(v, columns, k) <==> HasKey(rows[i], columns, k))
    ensures multiset(History(rows[i := v], columns, k)) ==
            if HasKey(v, columns, k) then multiset(History(rows, columns, k)) - multiset{rows[i]} + multiset{v}
            else multiset(History(rows, columns, k))
  {
    hide HasKey, History;
    var a, b := rows[..i], rows[i + 1..];
    assert rows == a + [rows[i]] + b;
    assert rows[i := v] == a + [v] + b;
    HistorySplits(a + [rows[i]], b, columns, k);
    HistorySplits(a, [rows[i]], columns, k);
    HistorySplits(a + [v], b, columns, k);
    HistorySplits(a, [v], columns, k);
    HistoryOfOne(rows[i], columns, k);
    HistoryOfOne(v, columns, k);
  }

  lemma AppendToHistory(rows: seq<Version>, v: Version, columns: seq<string>, k: Key)
    ensures History(rows + [v], columns, k) ==
            History(rows, columns, k) + (if HasKey(v, columns, k) then [v] else [])
  {
    HistorySplits(rows, [v], columns, k);
    HistoryOfOne(v, columns, k);
  }

  /** A replacement keeps the data columns, and an opened version has the key of its event. */
  lemma EffectKeepsKeys(current: Version, e: Event, config: Config, k: Key, j: Key)
    requires e.eventTime.Some? && EventKey(e, config.businessKey) == Some(k)
    requires DecideOnCurrent(current, e, config).Ok?
    ensures var effect := DecideOnCurrent(current, e, config).value;
            match effect
            case Refresh(v) => HasKey(v, config.businessKey, j) == HasKey(current, config.businessKey, j)
            case Close(v) => HasKey(v, config.businessKey, j) == HasKey(current, config.businessKey, j)
            case CloseAndOpen(v, w) =>
              HasKey(v, config.businessKey, j) == HasKey(current, config.businessKey, j) && (HasKey(w, config.businessKey, j) <==> j == k)
            case Keep(_) => true
            case Open(_) => false
  {
    hide OrderAgainst, Tracked;
    if !e.change.Delete? {
      IncomingHasKey(e, config, k);
    }
  }

  /** Carrying out the effect on the list and on the history of the event's key gives matching results. */
  lemma EffectsAgree(rows: seq<Version>, k: Key, e: Event, config: Config, h: KeyHistory, effect: Effect)
    requires Represents(rows, config.businessKey, k, h) && IsTimeline(h, k, config.businessKey)
    requires EventKey(e, config.businessKey) == Some(k) && e.eventTime.Some?
    requires DecideOnKey(h, e, config) == Ok(effect)
    requires Replaces(effect) ==> CurrentIndex(rows, config.businessKey, k).Some?
    ensures Represents(Perform(rows, CurrentIndex(rows, config.businessKey, k), effect), config.businessKey, k, PerformOnKey(h, effect))
  {
    hide HasKey, History, IsTimeline, DecideOnCurrent, DecideOnAbsent, LatestClosed, EventKey;
    CurrentAgrees(rows, config.businessKey, k, h);
    var index := CurrentIndex(rows, config.businessKey, k);
    if h.open.Some? {
      EffectKeepsKeys(h.open.value, e, config, k, k);
      CurrentEffectAgrees(rows, index.value, config.businessKey, k, h, effect);
    } else {
      AbsentKeepsOrOpens(h, e, config);
      if effect.Open? {
        IncomingHasKey(e, config, k);
        AppendToHistory(rows, effect.next, config.businessKey, k);
        assert h.All() == h.legacy + h.closed;
        assert PerformOnKey(h, effect).All() == h.legacy + h.closed + [effect.next];
      }
    }
  }

  /** Replacing the open row by one of the same key. */
  lemma ReplaceOpen(rows: seq<Version>, i: nat, columns: seq<string>, k: Key, h: KeyHistory, v: Version)
    requires Represents(rows, columns, k, h) && h.open.Some? && HasKey(h.open.value, columns, k)
    requires i < |rows| && rows[i] == h.open.value && HasKey(v, columns, k)
    ensures multiset(History(rows[i := v], columns, k)) == multiset(h.legacy + h.closed + [v])
  {
    hide HasKey, History;
    ReplaceInHistory(rows, i, v, columns, k);
    ghost var base := multiset(h.legacy + h.closed);
    assert multiset(h.All()) == base + multiset{h.open.value};
    assert base + multiset{h.open.value} - multiset{h.open.value} == base;
    assert multiset(h.legacy + h.closed + [v]) == base + multiset{v};
  }

  /** Replacing the open row, and perhaps appending its successor, on both sides. */
  lemma CurrentEffectAgrees(rows: seq<Version>, i: nat, columns: seq<string>, k: Key, h: KeyHistory, effect: Effect)
    requires Represents(rows, columns, k, h) && h.open.Some? && HasKey(h.open.value, columns, k)
    requires i < |rows| && rows[i] == h.open.value
    requires match effect
             case Refresh(v) => HasKey(v, columns, k)
             case Close(v) => HasKey(v, columns, k)
             case CloseAndOpen(v, w) => HasKey(v, columns, k) && HasKey(w, columns, k)
             case Keep(_) => true
             case Open(_) => false
    ensures Represents(Perform(rows, Some(i), effect), columns, k, PerformOnKey(h, effect))
  {
    hide HasKey, History;
    match effect {
      case Keep(_) =>
      case Refresh(v) =>
        ReplaceOpen(rows, i, columns, k, h, v);
        assert PerformOnKey(h, effect).All() == h.legacy + h.closed + [v];
      case Close(v) =>
        ReplaceOpen(rows, i, columns, k, h, v);
        assert PerformOnKey(h, effect).All() == h.legacy + h.closed + [v];
      case CloseAndOpen(v, w) =>
        ReplaceOpen(rows, i, columns, k, h, v);
        AppendToHistory(rows[i := v], w, columns, k);
        assert PerformOnKey(h, effect).All() == (h.legacy + h.closed + [v]) + [w];
    }
  }

  lemma AbsentKeepsOrOpens(h: KeyHistory, e: Event, config: Config)
    requires e.eventTime.Some? && h.open.None? && DecideOnKey(h, e, config).Ok?
    ensures var effect := DecideOnKey(h, e, config).value;
            effect.Keep? || (effect.Open? && !e.change.Delete? && effect.next == Opened(e, config))
  {
  }

  /** The rows of all other keys stay as they are. */
  lemma OtherKeysUntouched(rows: seq<Version>, k: Key, e: Event, config: Config, j: Key)
    requires EventKey(e, config.businessKey) == Some(k) && j != k && e.eventTime.Some?
    requires DecideOnRows(rows, k, e, config).Ok?
    ensures multiset(History(
              Perform(rows, CurrentIndex(rows, config.businessKey, k), DecideOnRows(rows, k, e, config).value),
              config.businessKey, j)) == multiset(History(rows, config.businessKey, j))
  {
    hide History, DecideOnCurrent, OrderAgainst, Tracked, LatestClosed, KeyOf;
    var index := CurrentIndex(rows, config.businessKey, k);
    var effect := DecideOnRows(rows, k, e, config).value;
    if index.Some? {
      EffectKeepsKeys(rows[index.value], e, config, k, j);
      match effect {
        case Keep(_) =>
        case Refresh(v) =>
          ReplaceInHistory(rows, index.value, v, config.businessKey, j);
        case Close(v) =>
          ReplaceInHistory(rows, index.value, v, config.businessKey, j);
        case CloseAndOpen(v, w) =>
          ReplaceInHistory(rows, index.value, v, config.businessKey, j);
          AppendToHistory(rows[index.value := v], w, config.businessKey, j);
      }
    } else if effect.Open? {
      IncomingHasKey(e, config, k);
      AppendToHistory(rows, effect.next, config.businessKey, j);
    }
  }

  // ---------------------------------------------------------------- the rows of all keys

  /** Every key has a timeline, and the list consists of the rows of these timelines. */
  ghost predicate Represented(rows: seq<Version>, columns: seq<string>, hs: Key -> KeyHistory) {
    forall k :: Represents(rows, columns, k, hs(k)) && IsTimeline(hs(k), k, columns)
  }

  ghost predicate Timelines(rows: seq<Version>, columns: seq<string>) {
    exists hs: Key -> KeyHistory :: Represented(rows, columns, hs)
  }

  lemma EventIsKeywise(rows: seq<Version>, e: Event, config: Config, k: Key, h: KeyHistory, counters: Counters)
    requires Represents(rows, config.businessKey, k, h) && IsTimeline(h, k, config.businessKey)
    requires ApplyToRows(Rows(rows, counters), e, config).Ok?
    ensures var next := ApplyToRows(Rows(rows, counters), e, config).value.rows;
            if EventKey(e, config.businessKey) == Some(k)
            then StepKey(h, e, config).Ok? && Represents(next, config.businessKey, k, StepKey(h, e, config).value)
            else Represents(next, config.businessKey, k, h)
  {
    hide DecideOnRows, DecideOnKey, Perform, PerformOnKey, History, IsTimeline, EventKey;
    if EventKey(e, config.businessKey) == Some(k) {
      DecisionsAgree(rows, k, e, config, h);
      EffectsAgree(rows, k, e, config, h, DecideOnKey(h, e, config).value);
    } else {
      OtherKeysUntouched(rows, EventKey(e, config.businessKey).value, e, config, k);
    }
  }

  /** A batch treats every key on its own. */
  lemma {:induction false} FoldIsKeywise(rows: seq<Version>, es: seq<Event>, config: Config, k: Key, h: KeyHistory)
    requires Represents(rows, config.businessKey, k, h) && IsTimeline(h, k, config.businessKey)
    requires forall e | e in es :: ValidPosition(e)
    requires FoldRows(rows, es, config).Ok?
    ensures var g := FoldKey(h, KeyEvents(es, config.businessKey, k), config);
            && g.Ok?
            && Represents(FoldRows(rows, es, config).value.rows, config.businessKey, k, g.value)
            && IsTimeline(g.value, k, config.businessKey)
    decreases |es|
  {
    hide ApplyToRows, StepKey, IsTimeline, Represents, EventKey;
    if es != [] {
      var prefix, last := es[..|es| - 1], es[|es| - 1];
      assert last in es;
      FoldIsKeywise(rows, prefix, config, k, h);
      var before := FoldRows(rows, prefix, config).value;
      var events := KeyEvents(prefix, config.businessKey, k);
      assert (events + [last])[..|events|] == events;
      EventIsKeywise(before.rows, last, config, k, FoldKey(h, events, config).value, before.counters);
      if EventKey(last, config.businessKey) == Some(k) {
        AcceptedEventKeepsTimeline(FoldKey(h, events, config).value, last, config, k);
      }
    }
  }

  /** The timeline invariant of the whole target: every accepted batch keeps it. */
  lemma BatchKeepsTimelines(rows: seq<Version>, es: seq<Event>, config: Config)
    requires Timelines(rows, config.businessKey)
    requires forall e | e in es :: ValidPosition(e)
    requires FoldRows(rows, es, config).Ok?
    ensures Timelines(FoldRows(rows, es, config).value.rows, config.businessKey)
  {
    hide IsTimeline, Represents, FoldRows, FoldKey;
    var hs: Key -> KeyHistory :| Represented(rows, config.businessKey, hs);
    var after := FoldRows(rows, es, config).value.rows;
    var gs: Key -> KeyHistory := k =>
      var g := FoldKey(hs(k), KeyEvents(es, config.businessKey, k), config); if g.Ok? then g.value else hs(k);
    forall k ensures Represents(after, config.businessKey, k, gs(k)) && IsTimeline(gs(k), k, config.businessKey) {
      FoldIsKeywise(rows, es, config, k, hs(k));
    }
    assert Represented(after, config.businessKey, gs);
  }

  /** The invariant does not depend on the order in which the rows are stored. */
  lemma {:induction false} HistoryPermutes(rows: seq<Version>, sorted: seq<Version>, columns: seq<string>, k: Key)
    requires multiset(rows) == multiset(sorted)
    ensures multiset(History(rows, columns, k)) == multiset(History(sorted, columns, k))
    decreases |rows|
  {
    hide HasKey;
    if rows == [] {
      EmptyPermutation(sorted);
    } else {
      var last, rest := rows[|rows| - 1], rows[..|rows| - 1];
      var i := FindInPermutation(rows, sorted);
      var a, b := sorted[..i], sorted[i + 1..];
      HistoryPermutes(rest, a + b, columns, k);
      HistorySplits(a + [last], b, columns, k);
      HistorySplits(a, [last], columns, k);
      HistorySplits(a, b, columns, k);
      HistorySplits(rest, [last], columns, k);
      assert rows == rest + [last];
    }
  }

  // ---------------------------------------------------------------- replaying a batch

  /** The events of a normalised batch: ordered, and every key in one partition. */
  ghost predicate OrderedByKey(es: seq<Event>, columns: seq<string>) {
    && StrictlyOrdered(es)
    && (forall e | e in es :: ValidPosition(e))
    && (forall e, f | e in es && f in es && EventKey(e, columns) == EventKey(f, columns) :: e.partition == f.partition)
  }

  /** The same with positions of one length in each partition. */
  ghost predicate Orderly(es: seq<Event>, columns: seq<string>) {
    && OrderedByKey(es, columns)
    && forall e, f | e in es && f in es && e.partition == f.partition :: |e.position| == |f.position|
  }

  lemma KeyEventsAreRising(es: seq<Event>, columns: seq<string>, k: Key)
    requires OrderedByKey(es, columns) && KeyEvents(es, columns, k) != []
    ensures var mine := KeyEvents(es, columns, k); Rising(mine, mine[0].partition)
  {
    var mine := KeyEvents(es, columns, k);
    KeyEventsAre(es, columns, k);
    assert mine[0] in mine;
    forall i, j | 0 <= i < j < |mine| ensures LexLess(mine[i].position, mine[j].position) {
      assert Before(mine[i], mine[j]) && mine[i] in mine && mine[j] in mine;
      LexIrreflexive(Codes(mine[i].partition));
    }
  }

  lemma KeyEventsAreChain(es: seq<Event>, columns: seq<string>, k: Key)
    requires Orderly(es, columns) && KeyEvents(es, columns, k) != []
    ensures var mine := KeyEvents(es, columns, k); Chain(mine, mine[0].partition, |mine[0].position|)
  {
    var mine := KeyEvents(es, columns, k);
    KeyEventsAre(es, columns, k);
    KeyEventsAreRising(es, columns, k);
    assert mine[0] in mine;
  }

  /** How an event stands to the stored rows of its key: to the current row, or to the row closed last. */
  function OrderOnRows(
      rows: seq<Version>, k: Key, e: Event, columns: seq<string>, lower: Option<Checkpoint>): Result<Relation,
      ApplyError> {
    var index, history := CurrentIndex(rows, columns, k), History(rows, columns, k);
    if index.Some? then OrderAgainst(rows[index.value].partition, rows[index.value].position, e, lower)
    else if history == [] then Ok(Newer)
    else
      var latest := LatestClosed(history);
      if latest.Err? || latest.value.None? then OrderAgainst(None, None, e, lower)
      else OrderAgainst(latest.value.value.closedPartition, latest.value.value.closedPosition, e, lower)
  }

  lemma OrdersAgree(
      rows: seq<Version>, k: Key, e: Event, columns: seq<string>, lower: Option<Checkpoint>, h: KeyHistory)
    requires Represents(rows, columns, k, h) && IsTimeline(h, k, columns)
    ensures OrderOnRows(rows, k, e, columns, lower) == OrderOnKey(h, e, lower)
  {
    hide OrderAgainst, IsTimeline, LatestClosed, History;
    CurrentAgrees(rows, columns, k, h);
    OpenIsHistory(h);
    if h.open.None? {
      LatestAgrees(rows, columns, k, h);
      assert |multiset(History(rows, columns, k))| == |multiset(h.All())|;
    }
  }

  /** The events can be compared with the stored rows of their keys. */
  ghost predicate AllOrderedOnRows(
      rows: seq<Version>, es: seq<Event>, columns: seq<string>, lower: Option<Checkpoint>) {
    forall e | e in es :: EventKey(e, columns).Some? && OrderOnRows(rows, EventKey(e, columns).value, e, columns, lower).Ok?
  }

  lemma AbsorbedInAnyRun(h: KeyHistory, e: Event, config: Config, runId: Option<int>)
    ensures Absorbed(h, e, config.(runId := runId)) == Absorbed(h, e, config)
  {
    hide OrderAgainst, Tracked;
  }

  /** One event on rows that hold a history of its key by which it is absorbed whenever it can be compared. */
  lemma OldEventExactlyWhen(s: Rows, e: Event, config: Config, k: Key, h: KeyHistory)
    requires Represents(s.rows, config.businessKey, k, h) && IsTimeline(h, k, config.businessKey)
    requires EventKey(e, config.businessKey) == Some(k)
    requires Absorbed(h, e, config) <==> OrderOnKey(h, e, config.lower).Ok?
    ensures var next := ApplyToRows(s, e, config);
            && (next.Ok? <==> OrderOnKey(h, e, config.lower).Ok?)
            && (next.Ok? ==> next.value.rows == s.rows && next.value.counters.Applied() == s.counters.Applied())
  {
    hide DecideOnRows, DecideOnKey, History, IsTimeline, EventKey, OrderOnKey;
    if e.eventTime.Some? {
      DecisionsAgree(s.rows, k, e, config, h);
      if ApplyToRows(s, e, config).Ok? {
        StepNeedsOrder(h, e, config);
      }
    }
  }

  /** The events of the grown batch that were not in the batch before. */
  function Fresh(grown: seq<Event>, es: seq<Event>): seq<Event> {
    if grown == [] then []
    else
      var before, last := Fresh(grown[..|grown| - 1], es), grown[|grown| - 1];
      if last in es then before else before + [last]
  }

  /** The events of the grown batch that come again. */
  function Repeated(grown: seq<Event>, es: seq<Event>): seq<Event> {
    if grown == [] then []
    else
      var before, last := Repeated(grown[..|grown| - 1], es), grown[|grown| - 1];
      if last in es then before + [last] else before
  }

  lemma {:induction false} GrownParts(grown: seq<Event>, es: seq<Event>)
    ensures forall e :: e in Fresh(grown, es) <==> e in grown && e !in es
    ensures forall e :: e in Repeated(grown, es) <==> e in grown && e in es
  {
    if grown != [] {
      GrownParts(grown[..|grown| - 1], es);
      assert grown == grown[..|grown| - 1] + [grown[|grown| - 1]];
    }
  }

  /** For every key the repeated events come before the new ones, as the sort by position puts them. */
  ghost predicate OldFirst(grown: seq<Event>, es: seq<Event>, columns: seq<string>) {
    forall i, j | 0 <= i < j < |grown| && grown[j] in es && EventKey(grown[i], columns) == EventKey(grown[j], columns) :: grown[i] in es
  }

  /** The history of a key in the rows that a batch left, which takes in each event of the key that can be compared. */
  lemma StoredHistory(
      rows: seq<Version>, es: seq<Event>, stored: seq<Version>, config: Config, round: Config,
      e: Event) returns (h: KeyHistory)
    requires Timelines(rows, config.businessKey) && OrderedByKey(es, config.businessKey)
    requires FoldRows(rows, es, config).Ok? && e in es
    requires multiset(stored) == multiset(FoldRows(rows, es, config).value.rows)
    requires round == config.(lower := round.lower, runId := round.runId)
    ensures EventKey(e, config.businessKey).Some?
    ensures Represents(stored, config.businessKey, EventKey(e, config.businessKey).value, h)
    ensures IsTimeline(h, EventKey(e, config.businessKey).value, config.businessKey)
    ensures Absorbed(h, e, round) <==> OrderOnKey(h, e, round.lower).Ok?
  {
    hide IsTimeline, Absorbed, History, OrderOnKey;
    var hs: Key -> KeyHistory :| Represented(rows, config.businessKey, hs);
    AcceptedEventsHaveKeys(rows, es, config);
    var k := EventKey(e, config.businessKey).value;
    FoldIsKeywise(rows, es, config, k, hs(k));
    KeyEventsAre(es, config.businessKey, k);
    var mine := KeyEvents(es, config.businessKey, k);
    KeyEventsAreRising(es, config.businessKey, k);
    h := FoldKey(hs(k), mine, config).value;
    ResultAbsorbsExactlyWhen(hs(k), mine, config, round.lower, mine[0].partition, e);
    AbsorbedInAnyRun(h, e, config.(lower := round.lower), round.runId);
    HistoryPermutes(stored, FoldRows(rows, es, config).value.rows, config.businessKey, k);
  }

  /** As long as no new event of its key has come, a repeated event meets the stored history of the key. */
  lemma KeyUntouchedByFresh(
      stored: seq<Version>, grown: seq<Event>, es: seq<Event>, round: Config, e: Event, k: Key, h: KeyHistory)
    requires Represents(stored, round.businessKey, k, h) && IsTimeline(h, k, round.businessKey)
    requires (forall f | f in grown :: ValidPosition(f)) && FoldRows(stored, Fresh(grown, es), round).Ok?
    requires forall f | f in grown && EventKey(f, round.businessKey) == Some(k) :: f in es
    ensures Represents(FoldRows(stored, Fresh(grown, es), round).value.rows, round.businessKey, k, h)
  {
    hide Represents, IsTimeline, FoldRows, EventKey;
    GrownParts(grown, es);
    FoldIsKeywise(stored, Fresh(grown, es), round, k, h);
    KeyEventsAre(Fresh(grown, es), round.businessKey, k);
    NoElements(KeyEvents(Fresh(grown, es), round.businessKey, k));
  }

  /** A retry whose upper bound grew after a crash. On the rows that the batch left, in whatever order they were stored
      and from whatever checkpoint and run, the grown batch is accepted exactly when its new events are and its repeated
      events can be compared with the stored rows. Then it gives the very rows of the new events alone and counts no
      mutation besides theirs. */
  lemma {:induction false} GrownBatchExactlyWhen(
      rows: seq<Version>, es: seq<Event>, stored: seq<Version>, grown: seq<Event>, config: Config, round: Config)
    requires Timelines(rows, config.businessKey) && OrderedByKey(es, config.businessKey)
    requires FoldRows(rows, es, config).Ok?
    requires multiset(stored) == multiset(FoldRows(rows, es, config).value.rows)
    requires round == config.(lower := round.lower, runId := round.runId)
    requires (forall e | e in grown :: ValidPosition(e)) && OldFirst(grown, es, config.businessKey)
    ensures var again, alone := FoldRows(stored, grown, round), FoldRows(stored, Fresh(grown, es), round);
            && (again.Ok? <==> alone.Ok? && AllOrderedOnRows(stored, Repeated(grown, es), config.businessKey, round.lower))
            && (again.Ok? ==> again.value.rows == alone.value.rows
                              && again.value.counters.Applied() == alone.value.counters.Applied())
    decreases |grown|
  {
    hide Timelines, ApplyToRows, OrderedByKey, AllOrderedOnRows, OrderOnRows, EventKey, OldFirst;
    if grown == [] {
      NoneToOrder(stored, config.businessKey, round.lower);
    } else {
      var prefix, last := grown[..|grown| - 1], grown[|grown| - 1];
      assert grown == prefix + [last] && last in grown;
      OldFirstEarlier(grown, es, config.businessKey);
      GrownBatchExactlyWhen(rows, es, stored, prefix, config, round);
      var again, alone := FoldRows(stored, prefix, round), FoldRows(stored, Fresh(prefix, es), round);
      if last in es {
        assert Repeated(grown, es) == Repeated(prefix, es) + [last];
        OneMoreOrdered(stored, Repeated(prefix, es), last, config.businessKey, round.lower);
        if again.Ok? {
          RepeatedEventExactlyWhen(rows, es, stored, grown, again.value, config, round);
        }
      } else {
        assert (Fresh(prefix, es) + [last])[..|Fresh(prefix, es)|] == Fresh(prefix, es);
        if again.Ok? {
          SameStep(again.value, alone.value, last, round);
        }
      }
    }
  }

  lemma OldFirstEarlier(grown: seq<Event>, es: seq<Event>, columns: seq<string>)
    requires grown != [] && OldFirst(grown, es, columns)
    ensures OldFirst(grown[..|grown| - 1], es, columns)
    ensures grown[|grown| - 1] in es ==>
              forall e | e in grown && EventKey(e, columns) == EventKey(grown[|grown| - 1], columns) :: e in es
  {
    hide EventKey;
  }

  lemma NoneToOrder(rows: seq<Version>, columns: seq<string>, lower: Option<Checkpoint>)
    ensures AllOrderedOnRows(rows, [], columns, lower)
  {
  }

  lemma OneMoreOrdered(rows: seq<Version>, es: seq<Event>, e: Event, columns: seq<string>, lower: Option<Checkpoint>)
    ensures AllOrderedOnRows(rows, es + [e], columns, lower) <==>
            && AllOrderedOnRows(rows, es, columns, lower)
            && AllOrderedOnRows(rows, [e], columns, lower)
  {
    hide OrderOnRows, EventKey;
    assert forall f :: f in es + [e] <==> f in es || f in [e];
  }

  /** The repeated event that ends a grown batch. */
  lemma RepeatedEventExactlyWhen(
      rows: seq<Version>, es: seq<Event>, stored: seq<Version>, grown: seq<Event>, s: Rows, config: Config,
      round: Config)
    requires Timelines(rows, config.businessKey) && OrderedByKey(es, config.businessKey)
    requires FoldRows(rows, es, config).Ok?
    requires multiset(stored) == multiset(FoldRows(rows, es, config).value.rows)
    requires round == config.(lower := round.lower, runId := round.runId)
    requires grown != [] && (forall e | e in grown :: ValidPosition(e)) && grown[|grown| - 1] in es
    requires forall e | e in grown && EventKey(e, config.businessKey) == EventKey(grown[|grown| - 1], config.businessKey) :: e in es
    requires var alone := FoldRows(stored, Fresh(grown[..|grown| - 1], es), round); alone.Ok? && alone.value.rows == s.rows
    ensures var next := ApplyToRows(s, grown[|grown| - 1], round);
            && (next.Ok? <==> AllOrderedOnRows(stored, [grown[|grown| - 1]], config.businessKey, round.lower))
            && (next.Ok? ==> next.value.rows == s.rows && next.value.counters.Applied() == s.counters.Applied())
  {
    hide IsTimeline, Represents, ApplyToRows, OrderedByKey, Absorbed, OrderOnKey, OrderOnRows, EventKey, FoldRows,
      Timelines;
    var columns, prefix, last := config.businessKey, grown[..|grown| - 1], grown[|grown| - 1];
    var h := StoredHistory(rows, es, stored, config, round, last);
    var k := EventKey(last, columns).value;
    OrdersAgree(stored, k, last, columns, round.lower, h);
    KeyUntouchedByFresh(stored, prefix, es, round, last, k, h);
    OldEventExactlyWhen(s, last, round, k, h);
    assert last in [last];
  }

  /** What an event does to the rows does not depend on what was counted before. */
  lemma SameStep(a: Rows, b: Rows, e: Event, config: Config)
    requires a.rows == b.rows && a.counters.Applied() == b.counters.Applied()
    ensures var x, y := ApplyToRows(a, e, config), ApplyToRows(b, e, config);
            && (x.Ok? <==> y.Ok?)
            && (x.Ok? ==> x.value.rows == y.value.rows && x.value.counters.Applied() == y.value.counters.Applied())
  {
    hide DecideOnRows, EventKey, CurrentIndex, Perform;
  }

  /** Re-applying a batch, wholly or in part, to the rows it produced is accepted exactly when its events can be
      compared
      with them, and then returns these very rows and counts no mutation. */
  lemma ReplayedBatchIsNoOpExactlyWhen(
      rows: seq<Version>, es: seq<Event>, stored: seq<Version>, replayed: seq<Event>, config: Config, round: Config)
    requires Timelines(rows, config.businessKey) && OrderedByKey(es, config.businessKey)
    requires FoldRows(rows, es, config).Ok?
    requires multiset(stored) == multiset(FoldRows(rows, es, config).value.rows)
    requires round == config.(lower := round.lower, runId := round.runId)
    requires forall e | e in replayed :: e in es
    ensures var again := FoldRows(stored, replayed, round);
            && (again.Ok? <==> AllOrderedOnRows(stored, replayed, config.businessKey, round.lower))
            && (again.Ok? ==> again.value.rows == stored && again.value.counters.Applied() == 0)
  {
    hide IsTimeline, Represents, OrderOnRows, EventKey, ApplyToRows;
    GrownParts(replayed, es);
    NoElements(Fresh(replayed, es));
    GrownBatchExactlyWhen(rows, es, stored, replayed, config, round);
    assert FoldRows(stored, [], round) == Ok(Rows(stored, NO_EVENTS));
  }

  /** Positions of one length in each partition can always be compared. */
  lemma UniformBatchIsOrdered(
      rows: seq<Version>, es: seq<Event>, stored: seq<Version>, replayed: seq<Event>, config: Config)
    requires Timelines(rows, config.businessKey) && Orderly(es, config.businessKey)
    requires FoldRows(rows, es, config).Ok?
    requires multiset(stored) == multiset(FoldRows(rows, es, config).value.rows)
    requires forall e | e in replayed :: e in es
    ensures AllOrderedOnRows(stored, replayed, config.businessKey, config.lower)
  {
    hide IsTimeline, Absorbed, History, OrderOnKey, OrderOnRows, EventKey;
    var columns := config.businessKey;
    var hs: Key -> KeyHistory :| Represented(rows, columns, hs);
    AcceptedEventsHaveKeys(rows, es, config);
    forall e | e in replayed
      ensures EventKey(e, columns).Some? && OrderOnRows(stored, EventKey(e, columns).value, e, columns, config.lower).Ok?
    {
      var k := EventKey(e, columns).value;
      FoldIsKeywise(rows, es, config, k, hs(k));
      KeyEventsAre(es, columns, k);
      var mine := KeyEvents(es, columns, k);
      KeyEventsAreChain(es, columns, k);
      var h := FoldKey(hs(k), mine, config).value;
      ChainIsAbsorbed(hs(k), mine, config, mine[0].partition, |mine[0].position|, e);
      AbsorbedKeeps(h, e, config);
      StepNeedsOrder(h, e, config);
      HistoryPermutes(stored, FoldRows(rows, es, config).value.rows, columns, k);
      OrdersAgree(stored, k, e, columns, config.lower, h);
    }
  }

  /** With positions of one length, re-applying a batch, wholly or in part, returns the stored rows and counts no
      mutation. */
  lemma ReplayedBatchIsNoOp(
      rows: seq<Version>, es: seq<Event>, stored: seq<Version>, replayed: seq<Event>, config: Config)
    requires Timelines(rows, config.businessKey) && Orderly(es, config.businessKey)
    requires FoldRows(rows, es, config).Ok?
    requires multiset(stored) == multiset(FoldRows(rows, es, config).value.rows)
    requires forall e | e in replayed :: e in es
    ensures var again := FoldRows(stored, replayed, config);
            && again.Ok?
            && again.value.rows == stored
            && again.value.counters.Applied() == 0
  {
    hide Timelines, FoldRows, AllOrderedOnRows, OrderedByKey;
    UniformBatchIsOrdered(rows, es, stored, replayed, config);
    ReplayedBatchIsNoOpExactlyWhen(rows, es, stored, replayed, config, config);
    assert config.(lower := config.lower, runId := config.runId) == config;
  }

  lemma {:induction false} AcceptedEventsHaveKeys(rows: seq<Version>, es: seq<Event>, config: Config)
    requires FoldRows(rows, es, config).Ok?
    ensures forall e | e in es :: EventKey(e, config.businessKey).Some?
    decreases |es|
  {
    hide DecideOnRows, EventKey, Perform, CurrentIndex, IsTimeline, Represents, Timelines;
    if es != [] {
      AcceptedEventsHaveKeys(rows, es[..|es| - 1], config);
      assert es == es[..|es| - 1] + [es[|es| - 1]];
    }
  }

  /** A batch succeeds as soon as every key does. */
  lemma {:induction false} KeywiseRowsSucceed(rows: seq<Version>, es: seq<Event>, config: Config, hs: Key -> KeyHistory)
    requires Represented(rows, config.businessKey, hs)
    requires forall e | e in es :: ValidPosition(e) && EventKey(e, config.businessKey).Some?
    requires forall k :: FoldKey(hs(k), KeyEvents(es, config.businessKey, k), config).Ok?
    ensures FoldRows(rows, es, config).Ok?
    decreases |es|
  {
    hide IsTimeline, Represents, EventKey, StepKey, Perform;
    if es != [] {
      var prefix, last := es[..|es| - 1], es[|es| - 1];
      assert last in es;
      forall k ensures FoldKey(hs(k), KeyEvents(prefix, config.businessKey, k), config).Ok? {
        var events := KeyEvents(prefix, config.businessKey, k);
        assert FoldKey(hs(k), KeyEvents(es, config.businessKey, k), config).Ok?;
        assert (events + [last])[..|events|] == events;
      }
      KeywiseRowsSucceed(rows, prefix, config, hs);
      var k := EventKey(last, config.businessKey).value;
      var events := KeyEvents(prefix, config.businessKey, k);
      assert (events + [last])[..|events|] == events;
      FoldIsKeywise(rows, prefix, config, k, hs(k));
      LastEventSucceeds(FoldRows(rows, prefix, config).value, last, config, k, FoldKey(hs(k), events, config).value);
    }
  }

  lemma LastEventSucceeds(s: Rows, e: Event, config: Config, k: Key, h: KeyHistory)
    requires Represents(s.rows, config.businessKey, k, h) && IsTimeline(h, k, config.businessKey)
    requires EventKey(e, config.businessKey) == Some(k) && StepKey(h, e, config).Ok?
    ensures ApplyToRows(s, e, config).Ok?
  {
    hide DecideOnRows, DecideOnKey, IsTimeline, Represents, EventKey;
    DecisionsAgree(s.rows, k, e, config, h);
  }

  // ---------------------------------------------------------------- one current row per key

  /** No event gives a key a second current row, so the final assertion of the engine never fires. */
  lemma EventKeepsOneCurrent(s: Rows, e: Event, config: Config)
    requires OneCurrentPerKey(s.rows, config.businessKey) && ApplyToRows(s, e, config).Ok?
    ensures OneCurrentPerKey(ApplyToRows(s, e, config).value.rows, config.businessKey)
  {
    hide OrderAgainst, Tracked, LatestClosed, KeyOf, EventKey;
    var k := EventKey(e, config.businessKey).value;
    var index := CurrentIndex(s.rows, config.businessKey, k);
    var effect := DecideOnRows(s.rows, k, e, config).value;
    var next := Perform(s.rows, index, effect);
    if index.Some? {
      var i := index.value;
      forall j | 0 <= j < |s.rows| && j != i && s.rows[j].isCurrent
        ensures KeyOf(s.rows[j].data, config.businessKey) != Some(k)
      {
        assert if i < j then KeyOf(s.rows[i].data, config.businessKey) != KeyOf(s.rows[j].data, config.businessKey)
               else KeyOf(s.rows[j].data, config.businessKey) != KeyOf(s.rows[i].data, config.businessKey);
      }
      if effect.CloseAndOpen? {
        IncomingHasKey(e, config, k);
      }
    } else if effect.Open? {
      IncomingHasKey(e, config, k);
      forall j | 0 <= j < |s.rows| && s.rows[j].isCurrent
        ensures KeyOf(s.rows[j].data, config.businessKey) != Some(k)
      {
        assert s.rows[j] in s.rows;
      }
    }
  }

  lemma {:induction false} BatchKeepsOneCurrent(rows: seq<Version>, es: seq<Event>, config: Config)
    requires OneCurrentPerKey(rows, config.businessKey) && FoldRows(rows, es, config).Ok?
    ensures OneCurrentPerKey(FoldRows(rows, es, config).value.rows, config.businessKey)
    decreases |es|
  {
    hide ApplyToRows, OneCurrentPerKey;
    if es != [] {
      BatchKeepsOneCurrent(rows, es[..|es| - 1], config);
      EventKeepsOneCurrent(FoldRows(rows, es[..|es| - 1], config).value, es[|es| - 1], config);
    }
  }

  /** Rows that form timelines have one current row per key. */
  lemma TimelinesHaveOneCurrent(rows: seq<Version>, columns: seq<string>, hs: Key -> KeyHistory)
    requires Represented(rows, columns, hs) && Keyed(rows, columns)
    ensures OneCurrentPerKey(rows, columns)
  {
    hide Represents, IsTimeline, KeyOf;
    forall i, j | 0 <= i < j < |rows| && rows[i].isCurrent && rows[j].isCurrent
      ensures KeyOf(rows[i].data, columns) != KeyOf(rows[j].data, columns)
    {
      assert rows[i] in rows && rows[j] in rows;
      var k := KeyOf(rows[i].data, columns).value;
      if KeyOf(rows[j].data, columns) == Some(k) {
        assert Represents(rows, columns, k, hs(k)) && IsTimeline(hs(k), k, columns);
        CurrentIsOnlyOnce(hs(k), k, columns, rows[i], rows[j]);
        SameOccurrences(rows, columns, k, hs(k), rows[i]);
        SameOccurrences(rows, columns, k, hs(k), rows[j]);
        OccurTwice(rows, i, j, columns, k);
      }
    }
  }

  lemma SameOccurrences(rows: seq<Version>, columns: seq<string>, k: Key, h: KeyHistory, v: Version)
    requires Represents(rows, columns, k, h)
    ensures multiset(History(rows, columns, k))[v] == multiset(h.All())[v]
  {
    hide History;
  }

  /** A timeline holds at most one current row, and that once. */
  lemma CurrentIsOnlyOnce(h: KeyHistory, k: Key, columns: seq<string>, a: Version, b: Version)
    requires IsTimeline(h, k, columns) && a.isCurrent && b.isCurrent
    ensures multiset(h.All())[a] <= 1
    ensures a in multiset(h.All()) && b in multiset(h.All()) ==> a == b
  {
    hide HasKey, ClosedBefore, OpenAfter;
    var p, n :| Timeline(h, k, columns, p, n);
    var base := h.legacy + h.closed;
    assert h.open.None? ==> h.All() == base;
    assert h.open.Some? ==> multiset(h.All()) == multiset(base) + multiset{h.open.value};
    forall v | v in base ensures !v.isCurrent {
      assert v in h.legacy || v in h.closed;
    }
    assert a !in multiset(base) && b !in multiset(base);
  }

  /** Two rows of a key at different places are two occurrences. */
  lemma OccurTwice(rows: seq<Version>, i: nat, j: nat, columns: seq<string>, k: Key)
    requires i < j < |rows| && HasKey(rows[i], columns, k) && HasKey(rows[j], columns, k)
    ensures rows[i] == rows[j] ==> multiset(History(rows, columns, k))[rows[i]] >= 2
    ensures rows[i] in multiset(History(rows, columns, k)) && rows[j] in multiset(History(rows, columns, k))
  {
    hide HasKey, History;
    var a, b := rows[..j], rows[j..];
    assert rows == a + b;
    HistorySplits(a, b, columns, k);
    HistoryIs(a, columns, k);
    HistoryIs(b, columns, k);
    assert rows[i] == a[i] && rows[i] in a && rows[j] == b[0] && rows[j] in b;
    var x, y := History(a, columns, k), History(b, columns, k);
    assert rows[i] in x && rows[j] in y;
    assert multiset(x + y) == multiset(x) + multiset(y);
    assert rows[i] in multiset(x) && rows[j] in multiset(y);
  }

  /** No row ever loses its key. */
  lemma {:induction false} FoldKeepsKeyed(rows: seq<Version>, es: seq<Event>, config: Config)
    requires Keyed(rows, config.businessKey) && FoldRows(rows, es, config).Ok?
    ensures Keyed(FoldRows(rows, es, config).value.rows, config.businessKey)
    decreases |es|
  {
    hide ApplyToRows, Keyed;
    if es != [] {
      FoldKeepsKeyed(rows, es[..|es| - 1], config);
      EventKeepsKeyed(FoldRows(rows, es[..|es| - 1], config).value, es[|es| - 1], config);
    }
  }

  lemma EventKeepsKeyed(s: Rows, e: Event, config: Config)
    requires Keyed(s.rows, config.businessKey) && ApplyToRows(s, e, config).Ok?
    ensures Keyed(ApplyToRows(s, e, config).value.rows, config.businessKey)
  {
    hide OrderAgainst, Tracked, LatestClosed, KeyOf, EventKey;
    var k := EventKey(e, config.businessKey).value;
    var index := CurrentIndex(s.rows, config.businessKey, k);
    var effect := DecideOnRows(s.rows, k, e, config).value;
    if !e.change.Delete? {
      IncomingHasKey(e, config, k);
    }
    if index.Some? {
      assert s.rows[index.value] in s.rows;
    }
    forall v | v in ApplyToRows(s, e, config).value.rows ensures KeyOf(v.data, config.businessKey).Some? {
      if v !in s.rows {
        match effect {
          case Refresh(w) => assert v == w;
          case Close(w) => assert v == w;
          case CloseAndOpen(w, next) => assert v == w || v == next;
          case Open(next) => assert v == next;
          case Keep(_) =>
        }
      }
    }
  }

  /** On rows that form timelines the engine's checks before and after the loop pass. */
  lemma ChecksPass(rows: seq<Version>, es: seq<Event>, config: Config, hs: Key -> KeyHistory)
    requires UniqueColumns(config.businessKey) && UniqueColumns(config.tracked)
    requires Represented(rows, config.businessKey, hs) && Keyed(rows, config.businessKey)
    ensures ApplyHistory(rows, es, config) == FoldRows(rows, es, config)
  {
    hide Represented, FoldRows, Keyed, OneCurrentPerKey;
    TimelinesHaveOneCurrent(rows, config.businessKey, hs);
    if FoldRows(rows, es, config).Ok? {
      BatchKeepsOneCurrent(rows, es, config);
    }
  }
}
