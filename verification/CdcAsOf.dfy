/** What the SCD2 history of a key answers at every instant, and which event each of its versions comes from
    (apply/cdc_scd2.py). The answers are stated on the events alone. */
module CdcAsOf {
  import opened Common
  import opened SourceOrder
  import opened CdcCapture
  import opened CdcCurrentState
  import opened CdcReplay
  import opened CdcScd2
  import opened CdcTimeline
  import opened CdcHistoryRows

  // ---------------------------------------------------------------- the story that the events tell

  /** The row that an INSERT or UPDATE carries, column by column: business key columns from the key, the others from the
      after image. */
  function Carried(e: Event, businessKey: seq<string>): Columns {
    if e.change.Delete? then map[]
    else
      map c | c in e.change.after.Keys + e.key.Keys * ToSet(businessKey) ::
        if c in businessKey && c in e.key then e.key[c] else e.change.after[c]
  }

  /** From its instant on the key has these columns, or is gone. */
  datatype Fact = Fact(at: int, row: Option<Columns>)

  /** The tracked attributes of the key once the facts hold; `start` is what they were before. */
  function Attributes(start: Option<Columns>, facts: seq<Fact>, tracked: seq<string>): Option<Columns> {
    if facts == [] then start
    else
      var last := facts[|facts| - 1].row;
      if last.Some? then Some(Tracked(last.value, tracked)) else None
  }

  /** What the events change, one after the other: a delete of a present key, or a row with other tracked attributes. */
  function Facts(start: Option<Columns>, es: seq<Event>, config: Config): seq<Fact> {
    if es == [] then []
    else
      var before, e := Facts(start, es[..|es| - 1], config), es[|es| - 1];
      if Alters(Attributes(start, before, config.tracked), e, config) && e.eventTime.Some?
      then before + [FactOf(e, config)] else before
  }

  predicate Alters(attributes: Option<Columns>, e: Event, config: Config) {
    if e.change.Delete? then attributes.Some?
    else attributes != Some(Tracked(Carried(e, config.businessKey), config.tracked))
  }

  function FactOf(e: Event, config: Config): Fact
    requires e.eventTime.Some?
  {
    Fact(e.eventTime.value, if e.change.Delete? then None else Some(Carried(e, config.businessKey)))
  }

  /** The rows in force at an instant: at most one, that of the last fact at or before it; before all facts those
      given. */
  function InForce(before: seq<Columns>, facts: seq<Fact>, time: int): seq<Columns> {
    if facts == [] then before
    else
      var last := facts[|facts| - 1];
      if last.at <= time then if last.row.Some? then [last.row.value] else []
      else InForce(before, facts[..|facts| - 1], time)
  }

  /** The data of the versions that are valid at an instant, in the order of the listing. */
  function DataAt(vs: seq<Version>, time: int): seq<Columns> {
    if vs == [] then []
    else
      var rest := DataAt(vs[..|vs| - 1], time);
      if ValidAt(vs[|vs| - 1], time) then rest + [vs[|vs| - 1].data] else rest
  }

  /** The versions that CDC keeps for a key: closed ones with closing evidence and the open one. */
  function Kept(h: KeyHistory): seq<Version> {
    h.closed + if h.open.Some? then [h.open.value] else []
  }

  /** The open version has no end. */
  predicate OpenEnded(h: KeyHistory) {
    h.open.Some? ==> h.open.value.validTo.None?
  }

  // ---------------------------------------------------------------- one event

  lemma CarriedIsIncoming(e: Event, config: Config)
    requires !e.change.Delete?
    ensures Carried(e, config.businessKey) == Incoming(e, config)
  {
  }

  lemma {:induction false} DataOfConcat(a: seq<Version>, b: seq<Version>, time: int)
    ensures DataAt(a + b, time) == DataAt(a, time) + DataAt(b, time)
    decreases |b|
  {
    hide ValidAt;
    if b == [] {
      assert a + b == a;
    } else {
      DataOfConcat(a, b[..|b| - 1], time);
      assert (a + b)[..|a + b| - 1] == a + b[..|b| - 1];
    }
  }

  lemma DataOfOne(v: Version, time: int)
    ensures DataAt([v], time) == if ValidAt(v, time) then [v.data] else []
  {
    hide ValidAt;
    assert [v][..|[v]| - 1] == [] && DataAt([], time) == [];
  }

  lemma {:induction false} NothingAfter(vs: seq<Version>, time: int)
    requires forall v | v in vs :: v.validTo.Some? && v.validTo.value <= time
    ensures DataAt(vs, time) == []
  {
    if vs != [] {
      NothingAfter(vs[..|vs| - 1], time);
      assert vs[|vs| - 1] in vs;
    }
  }

  /** Closed versions have ended before anything later that the key opens or closes. */
  lemma ClosedEnd(h: KeyHistory, k: Key, columns: seq<string>, time: int)
    requires IsTimeline(h, k, columns)
    requires h.closed != [] ==> h.closed[|h.closed| - 1].validTo.Some? && h.closed[|h.closed| - 1].validTo.value <= time
    ensures DataAt(h.closed, time) == []
  {
    hide HasKey;
    var p, n :| Timeline(h, k, columns, p, n);
    forall v | v in h.closed ensures v.validTo.Some? && v.validTo.value <= time {
      var i :| 0 <= i < |h.closed| && h.closed[i] == v;
      if i < |h.closed| - 1 {
        var last := h.closed[|h.closed| - 1];
        assert ClosedBefore(h.closed[i], last) && last in h.closed;
      }
    }
    NothingAfter(h.closed, time);
  }

  lemma KeptData(h: KeyHistory, time: int)
    ensures DataAt(Kept(h), time) ==
            DataAt(h.closed, time) + if h.open.Some? && ValidAt(h.open.value, time) then [h.open.value.data] else []
  {
    hide ValidAt;
    if h.open.Some? {
      DataOfConcat(h.closed, [h.open.value], time);
      DataOfOne(h.open.value, time);
    } else {
      assert Kept(h) == h.closed;
    }
  }

  /** The attributes that a version stands for: its stored hash, or its own tracked columns when none is stored. */
  function AttributesOf(v: Version, tracked: seq<string>): Columns {
    match v.hash
    case Some(stored) => stored
    case None => Tracked(v.data, tracked)
  }

  /** The present attributes of the key. */
  function Present(h: KeyHistory, config: Config): Option<Columns> {
    if h.open.Some? then Some(AttributesOf(h.open.value, config.tracked)) else None
  }

  lemma OneFact(before: seq<Columns>, start: Option<Columns>, f: Fact, tracked: seq<string>, time: int)
    ensures InForce(before, [f], time) == if f.at <= time then (if f.row.Some? then [f.row.value] else []) else before
    ensures Attributes(start, [f], tracked) == if f.row.Some? then Some(Tracked(f.row.value, tracked)) else None
  {
    assert [f][..|[f]| - 1] == [];
    assert InForce(before, [], time) == before;
  }

  lemma NoFact(before: seq<Columns>, start: Option<Columns>, tracked: seq<string>, time: int)
    ensures InForce(before, [], time) == before && Attributes(start, [], tracked) == start
  {
  }

  /** The current version closed and, unless it was deleted, the next one opened. */
  lemma ClosingDecides(h: KeyHistory, e: Event, config: Config, k: Key, time: int)
    requires IsTimeline(h, k, config.businessKey) && OpenEnded(h) && h.open.Some? && e.eventTime.Some?
    requires Closed(h.open.value, e).Ok?
    ensures var closed := h.closed + [Closed(h.open.value, e).value];
            DataAt(closed, time) == if e.eventTime.value <= time then [] else DataAt(Kept(h), time)
    ensures !e.change.Delete? ==> (ValidAt(Opened(e, config), time) <==> e.eventTime.value <= time)
  {
    hide HasKey;
    var v := Closed(h.open.value, e).value;
    DataOfConcat(h.closed, [v], time);
    DataOfOne(v, time);
    KeptData(h, time);
    if e.eventTime.value <= time {
      if h.closed != [] {
        var p, n :| Timeline(h, k, config.businessKey, p, n);
        assert h.closed[|h.closed| - 1] in h.closed;
      }
      ClosedEnd(h, k, config.businessKey, time);
    }
  }

  /** A row opened for a key without a current version. */
  lemma OpeningDecides(h: KeyHistory, e: Event, config: Config, k: Key, time: int)
    requires IsTimeline(h, k, config.businessKey) && h.open.None? && e.eventTime.Some?
    requires DecideOnKey(h, e, config).Ok? && DecideOnKey(h, e, config).value.Open?
    ensures ValidAt(Opened(e, config), time) <==> e.eventTime.value <= time
    ensures e.eventTime.value <= time ==> DataAt(h.closed, time) == []
  {
    hide HasKey, OrderAgainst, Tracked;
    if e.eventTime.value <= time {
      if h.closed != [] {
        var p, n :| Timeline(h, k, config.businessKey, p, n);
        assert h.closed[|h.closed| - 1] in h.closed;
      }
      ClosedEnd(h, k, config.businessKey, time);
    }
  }

  /** The law of one accepted event: one that is newer than the history and alters the attributes decides every instant
      from its event time on, and no event changes what is answered at any other instant. */
  lemma EventDecidesFromItsTime(h: KeyHistory, e: Event, config: Config, k: Key, time: int)
    requires IsTimeline(h, k, config.businessKey) && OpenEnded(h) && StepKey(h, e, config).Ok?
    ensures var h' := StepKey(h, e, config).value;
            var alters := OrderOnKey(h, e, config.lower) == Ok(Newer) && Alters(Present(h, config), e, config);
            && h'.legacy == h.legacy && OpenEnded(h')
            && e.eventTime.Some?
            && DataAt(Kept(h'), time) == InForce(DataAt(Kept(h), time), if alters then [FactOf(e, config)] else [], time)
            && Present(h', config) == Attributes(Present(h, config), if alters then [FactOf(e, config)] else [], config.tracked)
  {
    hide IsTimeline, OrderAgainst, Tracked, ValidAt, InForce, Attributes, DataAt, Carried, Closed;
    OpenIsHistory(h);
    var h' := StepKey(h, e, config).value;
    var present := Present(h, config);
    NoFact(DataAt(Kept(h), time), present, config.tracked, time);
    OneFact(DataAt(Kept(h), time), present, FactOf(e, config), config.tracked, time);
    KeptData(h, time);
    KeptData(h', time);
    if !e.change.Delete? {
      CarriedIsIncoming(e, config);
    }
    match DecideOnKey(h, e, config).value {
      case Keep(_) =>
      case Refresh(version) => SameValidity(h.open.value, version, time);
      case Close(_) =>
        ClosingDecides(h, e, config, k, time);
        ClosedParts(h.open.value, e);
      case CloseAndOpen(_, _) =>
        ClosingDecides(h, e, config, k, time);
        ClosedParts(h.open.value, e);
      case Open(_) => OpeningDecides(h, e, config, k, time);
    }
  }

  lemma SameValidity(a: Version, b: Version, time: int)
    requires a.validFrom == b.validFrom && a.validTo == b.validTo
    ensures ValidAt(a, time) == ValidAt(b, time)
  {
  }

  lemma ClosedParts(current: Version, e: Event)
    requires e.eventTime.Some? && Closed(current, e).Ok?
    ensures var v := Closed(current, e).value; v.data == current.data && v.validFrom == current.validFrom
  {
  }

  // ---------------------------------------------------------------- many events

  /** The event lies above the position that the history holds. */
  predicate Unseen(h: KeyHistory, e: Event) {
    RefPosition(h).Some? ==> LexLess(RefPosition(h).value, e.position)
  }

  function UnseenOf(h: KeyHistory, es: seq<Event>): seq<Event> {
    if es == [] then []
    else
      var before, e := UnseenOf(h, es[..|es| - 1]), es[|es| - 1];
      if Unseen(h, e) then before + [e] else before
  }

  /** What events led to holds the position of one of them, or is what it was before. */
  ghost predicate ReferenceFrom(h: KeyHistory, g: KeyHistory, es: seq<Event>) {
    g == h || (g.All() != [] && exists f :: f in es && RefPosition(g) == Some(f.position) && Unseen(h, f))
  }

  /** An accepted event is newer than the history that earlier events led to exactly when it lies above the position
      that
      the history held before them. */
  lemma OrderIsByPosition(
      h: KeyHistory, g: KeyHistory, es: seq<Event>, e: Event, p: string, lower: Option<Checkpoint>)
    requires ReferenceFrom(h, g, es) && Rising(es + [e], p) && OrderOnKey(g, e, lower).Ok?
    ensures OrderOnKey(g, e, lower) == Ok(Newer) <==> Unseen(h, e)
  {
    OpenIsHistory(h);
    if RefPosition(g).Some? {
      LexTotal(RefPosition(g).value, e.position);
    }
    if g != h {
      var f :| f in es && RefPosition(g) == Some(f.position) && Unseen(h, f);
      var i :| 0 <= i < |es| && es[i] == f;
      assert (es + [e])[i] == f && (es + [e])[|es|] == e;
      assert LexLess(f.position, e.position);
      if RefPosition(h).Some? {
        LexTransitive(RefPosition(h).value, f.position, e.position);
      }
    }
  }

  lemma ChangeIsNewer(g: KeyHistory, e: Event, config: Config)
    requires StepKey(g, e, config).Ok? && StepKey(g, e, config).value != g
    ensures OrderOnKey(g, e, config.lower) == Ok(Newer)
  {
    hide Tracked, OrderAgainst;
    OpenIsHistory(g);
  }

  lemma ReferenceMoves(h: KeyHistory, g: KeyHistory, es: seq<Event>, e: Event, p: string, config: Config)
    requires ReferenceFrom(h, g, es) && Rising(es + [e], p) && StepKey(g, e, config).Ok?
    ensures ReferenceFrom(h, StepKey(g, e, config).value, es + [e])
  {
    hide Rising, OrderAgainst, Tracked, Unseen, RefPosition;
    var g' := StepKey(g, e, config).value;
    StepNeedsOrder(g, e, config);
    OrderIsByPosition(h, g, es, e, p, config.lower);
    if g' != g {
      ChangeSetsReference(g, e, config);
      ChangeIsNewer(g, e, config);
      OpenIsHistory(g);
      assert e in es + [e];
    } else if g != h {
      var f :| f in es && RefPosition(g) == Some(f.position) && Unseen(h, f);
      assert f in es + [e];
    }
  }

  lemma FactAppended(
      before: seq<Columns>, start: Option<Columns>, facts: seq<Fact>, more: seq<Fact>, tracked: seq<string>, time: int)
    requires |more| <= 1
    ensures InForce(before, facts + more, time) == InForce(InForce(before, facts, time), more, time)
    ensures Attributes(start, facts + more, tracked) == Attributes(Attributes(start, facts, tracked), more, tracked)
  {
    NoFact(InForce(before, facts, time), Attributes(start, facts, tracked), tracked, time);
    if more == [] {
      assert facts + more == facts;
    } else {
      assert more == [more[0]] && (facts + more)[..|facts|] == facts;
      OneFact(InForce(before, facts, time), Attributes(start, facts, tracked), more[0], tracked, time);
    }
  }

  lemma RisingPrefix(es: seq<Event>, p: string)
    requires es != [] && Rising(es, p)
    ensures Rising(es[..|es| - 1], p) && es[..|es| - 1] + [es[|es| - 1]] == es && es[|es| - 1] in es
  {
  }

  /** What the engine keeps for a key answers, at every instant, what the facts say that its unseen events tell: the row
      of the last change at or before the instant, nothing between a delete and the next row, and before all changes
      what was answered before. */
  lemma {:induction false} AnswersAreTheFacts(
      h: KeyHistory, es: seq<Event>, config: Config, k: Key, p: string, time: int)
    requires IsTimeline(h, k, config.businessKey) && OpenEnded(h) && Rising(es, p) && FoldKey(h, es, config).Ok?
    requires forall e | e in es :: ValidPosition(e) && EventKey(e, config.businessKey) == Some(k)
    ensures var g, facts := FoldKey(h, es, config).value, Facts(Present(h, config), UnseenOf(h, es), config);
            && g.legacy == h.legacy && OpenEnded(g) && ReferenceFrom(h, g, es)
            && DataAt(Kept(g), time) == InForce(DataAt(Kept(h), time), facts, time)
            && Present(g, config) == Attributes(Present(h, config), facts, config.tracked)
    decreases |es|
  {
    hide IsTimeline, StepKey, DataAt, InForce, Attributes, Present, ReferenceFrom, Rising, Facts, UnseenOf, Kept,
      EventKey,
      OpenEnded;
    if es == [] {
      NothingMoves(h, config, time);
    } else {
      var prefix, e := es[..|es| - 1], es[|es| - 1];
      RisingPrefix(es, p);
      AnswersAreTheFacts(h, prefix, config, k, p, time);
      AcceptedEventsKeepTimeline(h, prefix, config, k);
      AnswersOneMore(h, FoldKey(h, prefix, config).value, prefix, e, config, k, p, time);
    }
  }

  lemma AnswersOneMore(
      h: KeyHistory, g: KeyHistory, es: seq<Event>, e: Event, config: Config, k: Key, p: string, time: int)
    requires IsTimeline(g, k, config.businessKey) && OpenEnded(g) && ReferenceFrom(h, g, es) && Rising(es + [e], p)
    requires StepKey(g, e, config).Ok?
    requires var facts := Facts(Present(h, config), UnseenOf(h, es), config);
             && DataAt(Kept(g), time) == InForce(DataAt(Kept(h), time), facts, time)
             && Present(g, config) == Attributes(Present(h, config), facts, config.tracked)
    ensures var g', facts := StepKey(g, e, config).value, Facts(Present(h, config), UnseenOf(h, es + [e]), config);
            && g'.legacy == g.legacy && OpenEnded(g') && ReferenceFrom(h, g', es + [e])
            && DataAt(Kept(g'), time) == InForce(DataAt(Kept(h), time), facts, time)
            && Present(g', config) == Attributes(Present(h, config), facts, config.tracked)
  {
    hide *;
    EventDecidesFromItsTime(g, e, config, k, time);
    StepNeedsOrder(g, e, config);
    OrderIsByPosition(h, g, es, e, p, config.lower);
    ReferenceMoves(h, g, es, e, p, config);
    FactsOneMore(h, Present(h, config), es, e, config);
    var alters := Unseen(h, e) && Alters(Present(g, config), e, config);
    FactAppended(DataAt(Kept(h), time), Present(h, config), Facts(Present(h, config), UnseenOf(h, es), config),
                 if alters then [FactOf(e, config)] else [], config.tracked, time);
  }

  lemma FactsOneMore(h: KeyHistory, start: Option<Columns>, es: seq<Event>, e: Event, config: Config)
    requires e.eventTime.Some?
    ensures var facts := Facts(start, UnseenOf(h, es), config);
            Facts(start, UnseenOf(h, es + [e]), config) ==
            facts + if Unseen(h, e) && Alters(Attributes(start, facts, config.tracked), e, config) then [FactOf(e, config)] else []
  {
    hide Unseen, Alters, FactOf, Attributes;
    assert (es + [e])[..|es + [e]| - 1] == es;
    var unseen := UnseenOf(h, es);
    assert (unseen + [e])[..|unseen + [e]| - 1] == unseen;
    assert Facts(start, unseen, config) + [] == Facts(start, unseen, config);
  }

  lemma NothingMoves(h: KeyHistory, config: Config, time: int)
    ensures ReferenceFrom(h, h, []) && FoldKey(h, [], config) == Ok(h)
    ensures Facts(Present(h, config), UnseenOf(h, []), config) == []
    ensures InForce(DataAt(Kept(h), time), [], time) == DataAt(Kept(h), time)
    ensures Attributes(Present(h, config), [], config.tracked) == Present(h, config)
  {
  }

  /** A key that had no rows answers what all of its events tell. */
  lemma AnswersOfNewKey(es: seq<Event>, config: Config, k: Key, p: string, time: int)
    requires Rising(es, p) && FoldKey(KeyHistory([], [], None), es, config).Ok?
    requires forall e | e in es :: ValidPosition(e) && EventKey(e, config.businessKey) == Some(k)
    ensures DataAt(FoldKey(KeyHistory([], [], None), es, config).value.All(), time) == InForce([], Facts(None, es, config), time)
  {
    hide FoldKey, EventKey, Rising, InForce, Facts;
    var none := KeyHistory([], [], None);
    assert Timeline(none, k, config.businessKey, p, 1);
    AnswersAreTheFacts(none, es, config, k, p, time);
    AllUnseen(none, es);
    var g := FoldKey(none, es, config).value;
    assert g.All() == Kept(g);
  }

  lemma {:induction false} AllUnseen(h: KeyHistory, es: seq<Event>)
    requires RefPosition(h).None?
    ensures UnseenOf(h, es) == es
  {
    if es != [] {
      AllUnseen(h, es[..|es| - 1]);
    }
  }

  // ---------------------------------------------------------------- where the versions come from

  /** The version starts as the row that the event carries, at its time and under the run that applied it. */
  ghost predicate OpenedBy(v: Version, e: Event, config: Config) {
    && !e.change.Delete?
    && v.data == Carried(e, config.businessKey) && v.validFrom == e.eventTime
    && v.hash == Some(Tracked(Carried(e, config.businessKey), config.tracked)) && v.runId == config.runId
  }

  /** The version ends at the time of the event and keeps its position as closing evidence. */
  ghost predicate ClosedBy(v: Version, e: Event) {
    && !v.isCurrent && v.validTo == e.eventTime
    && v.closedPartition == Some(e.partition) && v.closedPosition == Some(e.position)
  }

  /** The version carries the position of an event that brought or confirmed its attributes. */
  ghost predicate PlacedBy(v: Version, e: Event, config: Config) {
    && !e.change.Delete? && AttributesOf(v, config.tracked) == Tracked(Carried(e, config.businessKey), config.tracked)
    && v.partition == Some(e.partition) && v.position == Some(e.position)
  }

  ghost predicate SameStart(a: Version, b: Version) {
    a.data == b.data && a.validFrom == b.validFrom && a.hash == b.hash && a.runId == b.runId
  }

  /** The i-th version that CDC keeps was opened by an event, or it is the one that was open before. */
  ghost predicate StartOf(h: KeyHistory, g: KeyHistory, es: seq<Event>, config: Config, i: nat)
    requires i < |Kept(g)|
  {
    || (h.open.Some? && i == |h.closed| && SameStart(Kept(g)[i], h.open.value))
    || exists e :: e in es && OpenedBy(Kept(g)[i], e, config)
  }

  ghost predicate PlaceOf(h: KeyHistory, g: KeyHistory, es: seq<Event>, config: Config, i: nat)
    requires i < |Kept(g)|
  {
    || (h.open.Some? && i == |h.closed| && SamePlace(Kept(g)[i], h.open.value))
    || exists e :: e in es && PlacedBy(Kept(g)[i], e, config)
  }

  /** The i-th version that CDC closed was closed by an event, and an event that is no delete opens the next one. */
  ghost predicate EndOf(g: KeyHistory, es: seq<Event>, config: Config, i: nat)
    requires i < |g.closed|
  {
    exists e :: e in es && ClosedBy(g.closed[i], e) && (!e.change.Delete? ==> i + 1 < |Kept(g)| && OpenedBy(Kept(g)[i + 1], e, config))
  }

  ghost predicate ComesFrom(h: KeyHistory, g: KeyHistory, es: seq<Event>, config: Config) {
    && g.legacy == h.legacy && |h.closed| <= |g.closed| && g.closed[..|h.closed|] == h.closed
    && (forall i: nat | |h.closed| <= i < |g.closed| :: EndOf(g, es, config, i))
    && (forall i: nat | |h.closed| <= i < |Kept(g)| :: StartOf(h, g, es, config, i))
    && (forall i: nat | |h.closed| <= i < |Kept(g)| :: PlaceOf(h, g, es, config, i))
  }

  /** Every version that accepted events close ends at the time of the event whose position it carries, exactly
      where the
      next one opens when that event is no delete; every version that they open starts as the row its event carries. */
  lemma {:induction false} VersionsComeFromEvents(h: KeyHistory, es: seq<Event>, config: Config)
    requires FoldKey(h, es, config).Ok?
    ensures ComesFrom(h, FoldKey(h, es, config).value, es, config)
    decreases |es|
  {
    hide StepKey, ComesFrom;
    if es == [] {
      StartsFromItself(h, config);
    } else {
      var prefix, e := es[..|es| - 1], es[|es| - 1];
      VersionsComeFromEvents(h, prefix, config);
      StepComesFrom(h, FoldKey(h, prefix, config).value, prefix, e, config);
      assert prefix + [e] == es;
    }
  }

  lemma StartsFromItself(h: KeyHistory, config: Config)
    ensures ComesFrom(h, h, [], config)
  {
  }

  /** What one accepted event leaves of the versions: all starts stay, at most one version is closed and at most one
      opened,
      both by the event, and only its own position is written. */
  ghost predicate Grows(g: KeyHistory, g': KeyHistory, e: Event, config: Config) {
    && g'.legacy == g.legacy
    && |g.closed| <= |g'.closed| <= |g.closed| + 1 && g'.closed[..|g.closed|] == g.closed
    && |Kept(g)| <= |Kept(g')| <= |Kept(g)| + 1
    && (|g'.closed| > |g.closed| ==> |Kept(g)| > |g.closed| && ClosedBy(g'.closed[|g.closed|], e)
                                     && (!e.change.Delete? ==> |Kept(g')| > |Kept(g)|))
    && (|Kept(g')| > |Kept(g)| ==> OpenedBy(Kept(g')[|Kept(g)|], e, config) && PlacedBy(Kept(g')[|Kept(g)|], e, config))
    && (forall i | 0 <= i < |Kept(g)| :: SameStart(Kept(g')[i], Kept(g)[i]))
    && (forall i | 0 <= i < |Kept(g)| :: SamePlace(Kept(g')[i], Kept(g)[i]) || PlacedBy(Kept(g')[i], e, config))
  }

  ghost predicate SamePlace(a: Version, b: Version) {
    a.partition == b.partition && a.position == b.position
  }

  lemma StepGrows(g: KeyHistory, e: Event, config: Config)
    requires StepKey(g, e, config).Ok?
    ensures Grows(g, StepKey(g, e, config).value, e, config)
  {
    hide OrderAgainst, Tracked, Carried, Incoming;
    if !e.change.Delete? {
      CarriedIsIncoming(e, config);
    }
    match DecideOnKey(g, e, config).value {
      case Keep(_) =>
      case Refresh(_) => assert Kept(StepKey(g, e, config).value) == g.closed + [StepKey(g, e, config).value.open.value];
      case _ =>
    }
  }

  lemma StepComesFrom(h: KeyHistory, g: KeyHistory, es: seq<Event>, e: Event, config: Config)
    requires ComesFrom(h, g, es, config) && StepKey(g, e, config).Ok?
    ensures ComesFrom(h, StepKey(g, e, config).value, es + [e], config)
  {
    hide StepKey, Kept, EndOf, StartOf, PlaceOf, OpenedBy, ClosedBy, PlacedBy, SameStart, SamePlace;
    var g' := StepKey(g, e, config).value;
    StepGrows(g, e, config);
    KeptLength(g);
    KeptLength(g');
    forall i: nat | |h.closed| <= i < |g'.closed| ensures EndOf(g', es + [e], config, i) {
      if i < |g.closed| {
        assert EndOf(g, es, config, i);
      }
      EndGrows(g, g', es, e, config, i);
    }
    forall i: nat | |h.closed| <= i < |Kept(g')|
      ensures StartOf(h, g', es + [e], config, i) && PlaceOf(h, g', es + [e], config, i)
    {
      if i < |Kept(g)| {
        assert StartOf(h, g, es, config, i) && PlaceOf(h, g, es, config, i);
      }
      StartGrows(h, g, g', es, e, config, i);
      PlaceGrows(h, g, g', es, e, config, i);
    }
  }

  lemma KeptLength(g: KeyHistory)
    ensures |g.closed| <= |Kept(g)| <= |g.closed| + 1
  {
  }

  lemma EndGrows(g: KeyHistory, g': KeyHistory, es: seq<Event>, e: Event, config: Config, i: nat)
    requires Grows(g, g', e, config) && i < |g'.closed| && (i < |g.closed| ==> EndOf(g, es, config, i))
    ensures EndOf(g', es + [e], config, i)
  {
    hide Kept, PlacedBy, SamePlace, Carried, Tracked;
    assert e in es + [e];
    KeptLength(g);
    if i < |g.closed| {
      var f :| f in es && ClosedBy(g.closed[i], f) && (!f.change.Delete? ==> i + 1 < |Kept(g)| && OpenedBy(Kept(g)[i + 1], f, config));
      assert f in es + [e] && g'.closed[i] == g.closed[i];
    }
  }

  lemma StartGrows(h: KeyHistory, g: KeyHistory, g': KeyHistory, es: seq<Event>, e: Event, config: Config, i: nat)
    requires Grows(g, g', e, config) && i < |Kept(g')| && (i < |Kept(g)| ==> StartOf(h, g, es, config, i))
    ensures StartOf(h, g', es + [e], config, i)
  {
    hide Kept, PlacedBy, SamePlace, ClosedBy, Carried, Tracked;
    assert e in es + [e];
    if i < |Kept(g)| && !(h.open.Some? && i == |h.closed| && SameStart(Kept(g)[i], h.open.value)) {
      var f :| f in es && OpenedBy(Kept(g)[i], f, config);
      assert f in es + [e];
    }
  }

  lemma PlaceGrows(h: KeyHistory, g: KeyHistory, g': KeyHistory, es: seq<Event>, e: Event, config: Config, i: nat)
    requires Grows(g, g', e, config) && i < |Kept(g')| && (i < |Kept(g)| ==> PlaceOf(h, g, es, config, i))
    ensures PlaceOf(h, g', es + [e], config, i)
  {
    hide Kept, OpenedBy, ClosedBy, PlacedBy, Carried;
    assert e in es + [e];
    if i < |Kept(g)| && !PlacedBy(Kept(g')[i], e, config) {
      assert SamePlace(Kept(g')[i], Kept(g)[i]) && SameStart(Kept(g')[i], Kept(g)[i]);
      if !(h.open.Some? && i == |h.closed| && SamePlace(Kept(g)[i], h.open.value)) {
        var f :| f in es && PlacedBy(Kept(g)[i], f, config);
        StaysPlaced(Kept(g)[i], Kept(g')[i], f, config);
        assert f in es + [e];
      }
    }
  }

  lemma StaysPlaced(a: Version, b: Version, e: Event, config: Config)
    requires PlacedBy(a, e, config) && SameStart(b, a) && SamePlace(b, a)
    ensures PlacedBy(b, e, config)
  {
  }

  // ---------------------------------------------------------------- a batch on the row list

  /** The data that the rows of a key give for an instant. */
  function ValidData(rows: seq<Version>, columns: seq<string>, k: Key, time: int): multiset<Columns> {
    multiset(DataAt(History(rows, columns, k), time))
  }

  lemma {:induction false} DataPermutes(a: seq<Version>, b: seq<Version>, time: int)
    requires multiset(a) == multiset(b)
    ensures multiset(DataAt(a, time)) == multiset(DataAt(b, time))
    decreases |a|
  {
    hide ValidAt;
    if a == [] {
      assert b == [] by {
        assert |multiset(b)| == 0;
      }
    } else {
      var prefix, last := a[..|a| - 1], a[|a| - 1];
      assert a == prefix + [last];
      assert last in multiset(b);
      var i :| 0 <= i < |b| && b[i] == last;
      var left, right := b[..i], b[i + 1..];
      assert b == left + [last] + right;
      DropFromBoth(prefix, last, left, right);
      DataPermutes(prefix, left + right, time);
      DataOfConcat(prefix, [last], time);
      DataOfConcat(left + [last], right, time);
      DataOfConcat(left, [last], time);
      DataOfConcat(left, right, time);
    }
  }

  /** After a batch, what the rows of a key give for an instant: the closed rows without evidence as before, and
      otherwise
      what the facts say that the key's unseen events tell. */
  lemma BatchAnswersAreTheFacts(rows: seq<Version>, es: seq<Event>, config: Config, k: Key, h: KeyHistory, time: int)
    requires Represents(rows, config.businessKey, k, h) && IsTimeline(h, k, config.businessKey) && OpenEnded(h)
    requires OrderedByKey(es, config.businessKey) && FoldRows(rows, es, config).Ok?
    ensures var facts := Facts(Present(h, config), UnseenOf(h, KeyEvents(es, config.businessKey, k)), config);
            ValidData(FoldRows(rows, es, config).value.rows, config.businessKey, k, time) ==
            multiset(DataAt(h.legacy, time)) + multiset(InForce(DataAt(Kept(h), time), facts, time))
  {
    hide IsTimeline, FoldRows, FoldKey, OrderedByKey, Represents, Facts, InForce, DataAt, EventKey, Rising, KeyEvents,
      Present,
      UnseenOf, Kept, ValidData, ReferenceFrom;
    var columns := config.businessKey;
    var mine := KeyEvents(es, columns, k);
    EventsAreValid(es, columns);
    FoldIsKeywise(rows, es, config, k, h);
    var p := EventsOfKeyRise(es, columns, k);
    AnswersAreTheFacts(h, mine, config, k, p, time);
    RowsAnswer(FoldRows(rows, es, config).value.rows, columns, k, FoldKey(h, mine, config).value, time);
  }

  lemma RowsAnswer(rows: seq<Version>, columns: seq<string>, k: Key, g: KeyHistory, time: int)
    requires Represents(rows, columns, k, g)
    ensures ValidData(rows, columns, k, time) == multiset(DataAt(g.legacy, time)) + multiset(DataAt(Kept(g), time))
  {
    hide History, DataAt;
    DataPermutes(History(rows, columns, k), g.All(), time);
    assert g.All() == g.legacy + Kept(g);
    DataOfConcat(g.legacy, Kept(g), time);
  }

  lemma EventsOfKeyRise(es: seq<Event>, columns: seq<string>, k: Key) returns (p: string)
    requires OrderedByKey(es, columns)
    ensures Rising(KeyEvents(es, columns, k), p)
    ensures forall e | e in KeyEvents(es, columns, k) :: ValidPosition(e) && EventKey(e, columns) == Some(k)
  {
    hide Rising, EventKey;
    var mine := KeyEvents(es, columns, k);
    KeyEventsAre(es, columns, k);
    if mine == [] {
      p := "";
      NoneRise(p);
    } else {
      p := mine[0].partition;
      KeyEventsAreRising(es, columns, k);
    }
  }

  lemma EventsAreValid(es: seq<Event>, columns: seq<string>)
    requires OrderedByKey(es, columns)
    ensures forall e | e in es :: ValidPosition(e)
  {
  }

  lemma NoneRise(p: string)
    ensures Rising([], p)
  {
  }

  /** For a key that had no rows: the row of its last change at or before the instant, or none. */
  lemma BatchAnswersOfNewKey(rows: seq<Version>, es: seq<Event>, config: Config, k: Key, time: int)
    requires forall v | v in rows :: !HasKey(v, config.businessKey, k)
    requires OrderedByKey(es, config.businessKey) && FoldRows(rows, es, config).Ok?
    ensures ValidData(FoldRows(rows, es, config).value.rows, config.businessKey, k, time) ==
            multiset(InForce([], Facts(None, KeyEvents(es, config.businessKey, k), config), time))
  {
    hide FoldRows, OrderedByKey, Facts, InForce, HasKey;
    var none := KeyHistory([], [], None);
    HistoryIs(rows, config.businessKey, k);
    NoElements(History(rows, config.businessKey, k));
    assert none.All() == [];
    assert Timeline(none, k, config.businessKey, "", 1);
    BatchAnswersAreTheFacts(rows, es, config, k, none, time);
    AllUnseen(none, KeyEvents(es, config.businessKey, k));
    assert DataAt([], time) == [];
  }
}
