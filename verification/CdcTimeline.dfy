/** What SCD2 history means key by key: the versions of one key in source order, the timeline they
    form, and what replaying events does to it (apply/cdc_scd2.py). */
module CdcTimeline {
  import opened Common
  import opened SourceOrder
  import opened CdcCapture
  import opened CdcCurrentState
  import opened CdcReplay
  import opened CdcScd2

  /** The versions of one key: closed rows without closing evidence, closed rows with evidence in
      source order, and the current row. */
  datatype KeyHistory = KeyHistory(legacy: seq<Version>, closed: seq<Version>, open: Option<Version>)
  {
    function Latest(): Option<Version> {
      if closed == [] then None else Some(closed[|closed| - 1])
    }

    function All(): seq<Version> {
      legacy + closed + (if open.Some? then [open.value] else [])
    }
  }

  function DecideOnKey(h: KeyHistory, e: Event, config: Config): Result<Effect, Scd2Error>
    requires e.eventTime.Some?
  {
    if h.open.Some? then DecideOnCurrent(h.open.value, e, config)
    else DecideOnAbsent(h.All() != [], h.Latest(), e, config)
  }

  function PerformOnKey(h: KeyHistory, effect: Effect): KeyHistory {
    match effect
    case Keep(_) => h
    case Refresh(version) => h.(open := Some(version))
    case Close(closed) => KeyHistory(h.legacy, h.closed + [closed], None)
    case CloseAndOpen(closed, next) => KeyHistory(h.legacy, h.closed + [closed], Some(next))
    case Open(next) => h.(open := Some(next))
  }

  function StepKey(h: KeyHistory, e: Event, config: Config): Result<KeyHistory, Scd2Error> {
    if e.eventTime.None? then Err(EventTimeMissing)
    else
      var effect := DecideOnKey(h, e, config);
      if effect.Err? then Err(effect.error) else Ok(PerformOnKey(h, effect.value))
  }

  function FoldKey(h: KeyHistory, es: seq<Event>, config: Config): Result<KeyHistory, Scd2Error> {
    if es == [] then Ok(h)
    else
      var before := FoldKey(h, es[..|es| - 1], config);
      if before.Err? then before else StepKey(before.value, es[|es| - 1], config)
  }

  // ---------------------------------------------------------------- the timeline

  /** A version closed by CDC: both ends of its validity are known and in order, and it carries its
      closing position. */
  ghost predicate ProperlyClosed(v: Version, p: string, n: nat) {
    && !v.isCurrent
    && v.closedPartition == Some(p) && p != ""
    && v.closedPosition.Some? && |v.closedPosition.value| == n
    && v.validFrom.Some? && v.validTo.Some? && v.validFrom.value <= v.validTo.value
  }

  /** `b` follows `a` in source order and its validity starts no earlier than that of `a` ends. */
  ghost predicate ClosedBefore(a: Version, b: Version) {
    && a.closedPosition.Some? && b.closedPosition.Some?
    && LexLess(a.closedPosition.value, b.closedPosition.value)
    && a.validTo.Some? && b.validFrom.Some? && a.validTo.value <= b.validFrom.value
  }

  /** The current version starts where the closed ones have ended. */
  ghost predicate OpenAfter(a: Version, b: Version) {
    && a.closedPosition.Some?
    && b.partition == a.closedPartition
    && b.position.Some? && |b.position.value| == |a.closedPosition.value|
    && LexLeq(a.closedPosition.value, b.position.value)
    && a.validTo.Some? && b.validFrom.Some? && a.validTo.value <= b.validFrom.value
  }

  /** The timeline of a key. Rows without closing evidence are only known to be closed. */
  ghost predicate Timeline(h: KeyHistory, k: Key, columns: seq<string>, p: string, n: nat) {
    && n > 0
    && (forall v | v in h.All() :: HasKey(v, columns, k))
    && (forall v | v in h.legacy :: !v.isCurrent && NoEvidence(v))
    && (forall v | v in h.closed :: ProperlyClosed(v, p, n))
    && (forall i, j | 0 <= i < j < |h.closed| :: ClosedBefore(h.closed[i], h.closed[j]))
    && (h.open.Some? ==> h.open.value.isCurrent)
    && (h.open.Some? && h.closed != [] ==> OpenAfter(h.closed[|h.closed| - 1], h.open.value))
  }

  lemma IncomingHasKey(e: Event, config: Config, k: Key)
    requires !e.change.Delete? && EventKey(e, config.businessKey) == Some(k)
    ensures HasKey(Opened(e, config), config.businessKey, k)
  {
    assert Incoming(e, config) == Candidate(map[], e, config.businessKey).data by {
      assert map[] + e.change.after == e.change.after;
    }
    CandidateKeepsKey(map[], e, config.businessKey);
  }

  lemma AppendedIsClosedLast(closed: seq<Version>, v: Version, p: string, n: nat)
    requires forall x | x in closed :: ProperlyClosed(x, p, n)
    requires forall i, j | 0 <= i < j < |closed| :: ClosedBefore(closed[i], closed[j])
    requires ProperlyClosed(v, p, n)
    requires closed != [] ==> ClosedBefore(closed[|closed| - 1], v)
    ensures var all := closed + [v];
            && (forall x | x in all :: ProperlyClosed(x, p, n))
            && (forall i, j | 0 <= i < j < |all| :: ClosedBefore(all[i], all[j]))
  {
    var all := closed + [v];
    forall i, j | 0 <= i < j < |all| ensures ClosedBefore(all[i], all[j]) {
      if j == |closed| && i < |closed| - 1 {
        var last := closed[|closed| - 1];
        assert ClosedBefore(closed[i], last);
        LexTransitive(closed[i].closedPosition.value, last.closedPosition.value, v.closedPosition.value);
        assert last in closed;
      }
    }
  }

  /** Closing the current version of a timeline keeps it one. */
  lemma CloseKeepsTimeline(
      h: KeyHistory, e: Event, k: Key, columns: seq<string>, p: string, n: nat, lower: Option<Checkpoint>)
    requires Timeline(h, k, columns, p, n) && h.open.Some? && e.eventTime.Some?
    requires e.partition == p != "" && |e.position| == n
    requires OrderAgainst(h.open.value.partition, h.open.value.position, e, lower) == Ok(Newer)
    requires Closed(h.open.value, e).Ok?
    ensures Timeline(KeyHistory(h.legacy, h.closed + [Closed(h.open.value, e).value], None), k, columns, p, n)
  {
    var v := Closed(h.open.value, e).value;
    if h.closed != [] {
      var last := h.closed[|h.closed| - 1];
      assert last in h.closed;
      if last.closedPosition.value != h.open.value.position.value {
        LexTransitive(last.closedPosition.value, h.open.value.position.value, e.position);
      }
    }
    AppendedIsClosedLast(h.closed, v, p, n);
    assert h.open.value in h.All();
    assert HasKey(v, columns, k);
    assert forall x | x in KeyHistory(h.legacy, h.closed + [v], None).All() :: x in h.All() || x == v;
  }

  /** Every accepted event keeps the timeline. */
  lemma StepKeepsTimeline(h: KeyHistory, e: Event, config: Config, k: Key, p: string, n: nat)
    requires Timeline(h, k, config.businessKey, p, n)
    requires EventKey(e, config.businessKey) == Some(k) && e.partition == p != "" && |e.position| == n
    requires StepKey(h, e, config).Ok?
    ensures Timeline(StepKey(h, e, config).value, k, config.businessKey, p, n)
  {
    hide OrderAgainst, HasKey, Tracked;
    var effect := DecideOnKey(h, e, config).value;
    var h' := PerformOnKey(h, effect);
    match effect {
      case Keep(_) =>
      case Refresh(version) =>
        RefreshKeepsTimeline(h, e, config, k, p, n);
      case Close(closed) =>
        CloseKeepsTimeline(h, e, k, config.businessKey, p, n, config.lower);
      case CloseAndOpen(closed, next) =>
        CloseKeepsTimeline(h, e, k, config.businessKey, p, n, config.lower);
        IncomingHasKey(e, config, k);
        assert forall x | x in h'.All() :: x in KeyHistory(h.legacy, h.closed + [closed], None).All() || x == next;
      case Open(next) =>
        IncomingHasKey(e, config, k);
        assert forall x | x in h'.All() :: x in h.All() || x == next;
        OpenKeepsTimeline(h, e, config, k, p, n);
    }
  }

  lemma RefreshKeepsTimeline(h: KeyHistory, e: Event, config: Config, k: Key, p: string, n: nat)
    requires Timeline(h, k, config.businessKey, p, n)
    requires e.eventTime.Some? && e.partition == p && |e.position| == n
    requires DecideOnKey(h, e, config).Ok? && DecideOnKey(h, e, config).value.Refresh?
    ensures Timeline(PerformOnKey(h, DecideOnKey(h, e, config).value), k, config.businessKey, p, n)
  {
    hide Tracked;
    var version := DecideOnKey(h, e, config).value.version;
    var h' := h.(open := Some(version));
    assert h.open.value in h.All();
    assert forall x | x in h'.All() :: x in h.All() || x == version;
    if h.closed != [] {
      var last := h.closed[|h.closed| - 1];
      assert last in h.closed;
      if last.closedPosition.value != h.open.value.position.value {
        LexTransitive(last.closedPosition.value, h.open.value.position.value, e.position);
      }
    }
  }

  lemma OpenKeepsTimeline(h: KeyHistory, e: Event, config: Config, k: Key, p: string, n: nat)
    requires Timeline(h, k, config.businessKey, p, n)
    requires e.eventTime.Some? && e.partition == p && |e.position| == n
    requires DecideOnKey(h, e, config).Ok? && DecideOnKey(h, e, config).value.Open?
    ensures h.open.None?
    ensures h.closed != [] ==> OpenAfter(h.closed[|h.closed| - 1], DecideOnKey(h, e, config).value.next)
  {
    hide Tracked;
    if h.closed != [] {
      assert h.closed[|h.closed| - 1] in h.closed;
    }
  }

  ghost predicate IsTimeline(h: KeyHistory, k: Key, columns: seq<string>) {
    exists p, n :: Timeline(h, k, columns, p, n)
  }

  /** The timeline invariant: every accepted event keeps it, whatever its partition and position. */
  lemma AcceptedEventKeepsTimeline(h: KeyHistory, e: Event, config: Config, k: Key)
    requires IsTimeline(h, k, config.businessKey)
    requires ValidPosition(e) && EventKey(e, config.businessKey) == Some(k) && StepKey(h, e, config).Ok?
    ensures IsTimeline(StepKey(h, e, config).value, k, config.businessKey)
  {
    var p, n :| Timeline(h, k, config.businessKey, p, n);
    if h.closed == [] {
      assert Timeline(h, k, config.businessKey, e.partition, |e.position|);
      StepKeepsTimeline(h, e, config, k, e.partition, |e.position|);
    } else {
      ClosedHistoryFixesPartition(h, e, config, k, p, n);
      StepKeepsTimeline(h, e, config, k, p, n);
    }
  }

  /** Once a version was closed, only events of its partition and arity are accepted for the key. */
  lemma ClosedHistoryFixesPartition(h: KeyHistory, e: Event, config: Config, k: Key, p: string, n: nat)
    requires Timeline(h, k, config.businessKey, p, n) && h.closed != [] && StepKey(h, e, config).Ok?
    ensures e.partition == p && |e.position| == n
  {
    hide Tracked, HasKey;
    assert h.closed[|h.closed| - 1] in h.closed;
  }

  lemma {:induction false} AcceptedEventsKeepTimeline(h: KeyHistory, es: seq<Event>, config: Config, k: Key)
    requires IsTimeline(h, k, config.businessKey)
    requires forall e | e in es :: ValidPosition(e) && EventKey(e, config.businessKey) == Some(k)
    requires FoldKey(h, es, config).Ok?
    ensures IsTimeline(FoldKey(h, es, config).value, k, config.businessKey)
    decreases |es|
  {
    hide IsTimeline, StepKey;
    if es != [] {
      var prefix, last := es[..|es| - 1], es[|es| - 1];
      assert last in es;
      AcceptedEventsKeepTimeline(h, prefix, config, k);
      AcceptedEventKeepsTimeline(FoldKey(h, prefix, config).value, last, config, k);
    }
  }

  // ---------------------------------------------------------------- what events are compared with

  /** Partition and position that a history holds against an event: those of the open version, or the closing
      evidence of the version closed last. */
  function RefPartition(h: KeyHistory): Option<string> {
    if h.open.Some? then h.open.value.partition
    else if h.Latest().Some? then h.Latest().value.closedPartition
    else None
  }

  function RefPosition(h: KeyHistory): Option<Position> {
    if h.open.Some? then h.open.value.position
    else if h.Latest().Some? then h.Latest().value.closedPosition
    else None
  }

  /** How an event stands to the history of its key; a key without any history takes every event as new. */
  function OrderOnKey(h: KeyHistory, e: Event, lower: Option<Checkpoint>): Result<Relation, ApplyError> {
    if h.All() == [] then Ok(Newer) else OrderAgainst(RefPartition(h), RefPosition(h), e, lower)
  }

  /** A key that CDC has touched, or that has no history. */
  predicate StampedKey(h: KeyHistory) {
    h.All() == [] || RefPartition(h).Some? || RefPosition(h).Some?
  }

  lemma OpenIsHistory(h: KeyHistory)
    ensures h.open.Some? || h.Latest().Some? ==> h.All() != []
  {
    if h.open.Some? {
      assert h.All()[|h.All()| - 1] == h.open.value;
    } else if h.Latest().Some? {
      assert h.All()[|h.All()| - 1] == h.Latest().value;
    }
  }

  /** The order of the event decides whether the step is refused for it. */
  lemma StepNeedsOrder(h: KeyHistory, e: Event, config: Config)
    requires StepKey(h, e, config).Ok?
    ensures OrderOnKey(h, e, config.lower).Ok? && e.eventTime.Some?
  {
    hide Tracked, OrderAgainst;
    OpenIsHistory(h);
  }

  /** A step that changes the history leaves the event's own position as the one to compare with. */
  lemma ChangeSetsReference(h: KeyHistory, e: Event, config: Config)
    requires StepKey(h, e, config).Ok? && StepKey(h, e, config).value != h
    ensures var h' := StepKey(h, e, config).value;
            && h'.All() != [] && RefPartition(h') == Some(e.partition) && RefPosition(h') == Some(e.position)
  {
    hide Tracked, OrderAgainst;
    var effect := DecideOnKey(h, e, config).value;
    var h' := StepKey(h, e, config).value;
    if effect.Close? {
      assert h'.Latest() == Some(effect.closed);
    }
    OpenIsHistory(h');
  }

  // ---------------------------------------------------------------- replay

  ghost predicate Harmless(o: Outcome) {
    o.StaleIgnored? || o.NoChange? || o.MissingDelete?
  }

  /** The event leaves the history of its key exactly as it is. */
  ghost predicate Absorbed(h: KeyHistory, e: Event, config: Config) {
    && e.eventTime.Some?
    && DecideOnKey(h, e, config).Ok?
    && DecideOnKey(h, e, config).value.Keep?
    && Harmless(DecideOnKey(h, e, config).value.outcome)
  }

  lemma AbsorbedKeeps(h: KeyHistory, e: Event, config: Config)
    requires Absorbed(h, e, config)
    ensures e.eventTime.Some? && StepKey(h, e, config) == Ok(h)
  {
  }

  lemma OnlyKeepKeeps(h: KeyHistory, e: Event, config: Config)
    requires StepKey(h, e, config).Ok?
    ensures DecideOnKey(h, e, config).value.Keep? || StepKey(h, e, config).value != h
  {
    hide Tracked, Incoming;
    LexIrreflexive(e.position);
    var h' := StepKey(h, e, config).value;
    match DecideOnKey(h, e, config).value {
      case Close(_) => assert |h'.closed| == |h.closed| + 1;
      case CloseAndOpen(_, _) => assert |h'.closed| == |h.closed| + 1;
      case _ =>
    }
  }

  /** An accepted event that left the history alone is absorbed whenever it can be compared again. */
  lemma KeptEventIsAbsorbed(h: KeyHistory, e: Event, config: Config, later: Option<Checkpoint>)
    requires StepKey(h, e, config) == Ok(h) && OrderOnKey(h, e, later).Ok?
    ensures Absorbed(h, e, config.(lower := later))
  {
    hide Tracked;
    OpenIsHistory(h);
    OnlyKeepKeeps(h, e, config);
  }

  /** An event that changed the history is absorbed when it comes again, and so is everything before it that can be
      compared with it. */
  lemma ChangeAbsorbs(h: KeyHistory, last: Event, e: Event, config: Config, later: Option<Checkpoint>)
    requires StepKey(h, last, config).Ok? && StepKey(h, last, config).value != h
    requires e == last || (e.eventTime.Some? && LexLess(e.position, last.position))
    requires OrderOnKey(StepKey(h, last, config).value, e, later).Ok?
    ensures Absorbed(StepKey(h, last, config).value, e, config.(lower := later))
  {
    hide Tracked;
    ChangeSetsReference(h, last, config);
    LexTotal(e.position, last.position);
    var effect := DecideOnKey(h, last, config).value;
    if effect.Close? {
      assert StepKey(h, last, config).value.Latest() == Some(effect.closed);
    }
  }

  lemma {:induction false} AcceptedEventsHaveTimes(h: KeyHistory, es: seq<Event>, config: Config)
    requires FoldKey(h, es, config).Ok?
    ensures forall e | e in es :: e.eventTime.Some?
    decreases |es|
  {
    hide DecideOnKey, PerformOnKey;
    if es != [] {
      AcceptedEventsHaveTimes(h, es[..|es| - 1], config);
      assert es == es[..|es| - 1] + [es[|es| - 1]];
    }
  }

  /** Whatever rising events led to absorbs each of them that can be compared with it. */
  lemma {:induction false} ResultAbsorbsExactlyWhen(
      h: KeyHistory, es: seq<Event>, config: Config, later: Option<Checkpoint>, p: string, e: Event)
    requires Rising(es, p) && FoldKey(h, es, config).Ok? && e in es
    ensures var g := FoldKey(h, es, config).value;
            Absorbed(g, e, config.(lower := later)) <==> OrderOnKey(g, e, later).Ok?
    decreases |es|
  {
    hide Absorbed, StepKey, OrderOnKey;
    var prefix, last := es[..|es| - 1], es[|es| - 1];
    var before, g := FoldKey(h, prefix, config).value, FoldKey(h, es, config).value;
    assert last in es;
    if Absorbed(g, e, config.(lower := later)) {
      AbsorbedKeeps(g, e, config.(lower := later));
      StepNeedsOrder(g, e, config.(lower := later));
    }
    if OrderOnKey(g, e, later).Ok? {
      if g == before {
        if e in prefix {
          ResultAbsorbsExactlyWhen(h, prefix, config, later, p, e);
        } else {
          assert e == last;
          KeptEventIsAbsorbed(before, last, config, later);
        }
      } else {
        AcceptedEventsHaveTimes(h, es, config);
        assert e == last || LexLess(e.position, last.position);
        ChangeAbsorbs(before, last, e, config, later);
      }
    }
  }

  /** Every event of the replay can be compared with the history that it meets. */
  ghost predicate AllOrdered(h: KeyHistory, es: seq<Event>, lower: Option<Checkpoint>) {
    forall e | e in es :: OrderOnKey(h, e, lower).Ok?
  }

  /** Replaying all or part of rising events on the history they led to is accepted exactly when all of them can be
      compared with it, and then changes nothing. */
  lemma {:induction false} ReplayIsNoOpExactlyWhen(
      h: KeyHistory, es: seq<Event>, replayed: seq<Event>, config: Config, later: Option<Checkpoint>, p: string)
    requires Rising(es, p) && FoldKey(h, es, config).Ok?
    requires forall e | e in replayed :: e in es
    ensures var g := FoldKey(h, es, config).value;
            var again := FoldKey(g, replayed, config.(lower := later));
            && (again.Ok? <==> AllOrdered(g, replayed, later))
            && (again.Ok? ==> again == Ok(g))
    decreases |replayed|
  {
    hide StepKey, OrderOnKey, Absorbed;
    var g, config' := FoldKey(h, es, config).value, config.(lower := later);
    if replayed != [] {
      var prefix, last := replayed[..|replayed| - 1], replayed[|replayed| - 1];
      assert replayed == prefix + [last];
      ReplayIsNoOpExactlyWhen(h, es, prefix, config, later, p);
      ResultAbsorbsExactlyWhen(h, es, config, later, p, last);
      if OrderOnKey(g, last, later).Ok? {
        AbsorbedKeeps(g, last, config');
      } else if StepKey(g, last, config').Ok? {
        StepNeedsOrder(g, last, config');
      }
    }
  }

  /** What can be compared: positions of the length of the open version or of the version closed last. */
  lemma OrderedExactlyWhenSameLength(
      h: KeyHistory, es: seq<Event>, config: Config, later: Option<Checkpoint>, p: string, e: Event)
    requires Rising(es, p) && FoldKey(h, es, config).Ok? && e in es
    requires RefPosition(FoldKey(h, es, config).value).Some?
    ensures var g := FoldKey(h, es, config).value;
            OrderOnKey(g, e, later).Ok? <==> |e.position| == |RefPosition(g).value|
  {
    hide StepKey;
    var before, last := FoldKey(h, es[..|es| - 1], config).value, es[|es| - 1];
    var g := FoldKey(h, es, config).value;
    assert last in es;
    OpenIsHistory(g);
    StepNeedsOrder(before, last, config);
    if g != before {
      ChangeSetsReference(before, last, config);
    }
  }

  lemma {:induction false} FoldKeySplits(h: KeyHistory, a: seq<Event>, b: seq<Event>, config: Config)
    ensures FoldKey(h, a + b, config) ==
            if FoldKey(h, a, config).Err? then FoldKey(h, a, config)
            else FoldKey(FoldKey(h, a, config).value, b, config)
    decreases |b|
  {
    hide StepKey;
    if b == [] {
      assert a + b == a;
    } else {
      FoldKeySplits(h, a, b[..|b| - 1], config);
      assert (a + b)[..|a + b| - 1] == a + b[..|b| - 1];
    }
  }

  /** A retry whose upper bound grew after a crash, when its old events can be compared, ends where one application of
      everything ends; otherwise it is refused. */
  lemma ReplayThenMore(h: KeyHistory, es: seq<Event>, more: seq<Event>, config: Config, p: string)
    requires Rising(es, p) && FoldKey(h, es, config).Ok?
    ensures var g := FoldKey(h, es, config).value;
            if AllOrdered(g, es, config.lower) then FoldKey(g, es + more, config) == FoldKey(h, es + more, config)
            else FoldKey(g, es + more, config).Err?
  {
    hide AllOrdered;
    ReplayIsNoOpExactlyWhen(h, es, es, config, config.lower, p);
    assert config.(lower := config.lower) == config;
    FoldKeySplits(FoldKey(h, es, config).value, es, more, config);
    FoldKeySplits(h, es, more, config);
  }

  /** Events of one length can always be compared with what they led to. */
  lemma {:induction false} ChainIsAbsorbed(h: KeyHistory, es: seq<Event>, config: Config, p: string, n: nat, e: Event)
    requires Chain(es, p, n) && FoldKey(h, es, config).Ok? && e in es
    ensures Absorbed(FoldKey(h, es, config).value, e, config)
    decreases |es|
  {
    hide Absorbed, StepKey;
    var prefix, last := es[..|es| - 1], es[|es| - 1];
    var before, g := FoldKey(h, prefix, config).value, FoldKey(h, es, config).value;
    assert last in es;
    StepNeedsOrder(before, last, config);
    if g == before && e in prefix {
      ChainIsAbsorbed(h, prefix, config, p, n, e);
    } else {
      if g != before {
        ChangeSetsReference(before, last, config);
      }
      ResultAbsorbsExactlyWhen(h, es, config, config.lower, p, e);
      assert config.(lower := config.lower) == config;
    }
  }

  /** A key without history takes deletes of any length in silence, and a first application succeeds; once the key is
      open, the replay cannot compare them any more. */
  lemma MixedArityBreaksHistoryReplay(gone: Event, e: Event, config: Config)
    requires gone.partition == e.partition && gone.position == [1, 0] && e.position == [2]
    requires gone.change.Delete? && e.change.Insert? && gone.eventTime.Some? && e.eventTime.Some?
    ensures var none := KeyHistory([], [], None);
            var g := KeyHistory([], [], Some(Opened(e, config)));
            && StrictlyOrdered([gone, e])
            && FoldKey(none, [gone, e], config) == Ok(g)
            && FoldKey(g, [gone, e], config).Err?
  {
    hide Tracked;
    var none, g := KeyHistory([], [], None), KeyHistory([], [], Some(Opened(e, config)));
    assert [gone, e][..1] == [gone] && [gone][..0] == [];
    assert FoldKey(none, [], config) == Ok(none);
    assert none.All() == [];
    assert StepKey(none, gone, config) == Ok(none) && StepKey(none, e, config) == Ok(g);
    assert FoldKey(none, [gone], config) == Ok(none);
    assert gone in [gone, e];
    OrderedExactlyWhenSameLength(none, [gone, e], config, config.lower, e.partition, gone);
    ReplayIsNoOpExactlyWhen(none, [gone, e], [gone, e], config, config.lower, e.partition);
    assert config.(lower := config.lower) == config;
  }

  /** No event at or below the latest closing position reopens a key. */
  lemma ClosedKeyStaysClosed(h: KeyHistory, e: Event, config: Config, k: Key, p: string, n: nat)
    requires Timeline(h, k, config.businessKey, p, n) && h.open.None? && h.closed != []
    requires e.eventTime.Some? && e.partition == p && |e.position| == n
    requires var latest := h.closed[|h.closed| - 1].closedPosition; latest.Some? && LexLeq(e.position, latest.value)
    ensures DecideOnKey(h, e, config) == Ok(Keep(StaleIgnored))
    ensures StepKey(h, e, config) == Ok(h)
  {
    assert h.Latest().value in h.closed;
    LexTotal(e.position, h.Latest().value.closedPosition.value);
    assert h.All() != [];
  }

  // ---------------------------------------------------------------- closed rows without closing evidence

  /** The version is valid at the instant; a version without an end is valid from its start on. */
  predicate ValidAt(v: Version, time: int) {
    v.validFrom.Some? && v.validFrom.value <= time && (v.validTo.None? || time < v.validTo.value)
  }

  ghost predicate Overlap(a: Version, b: Version) {
    exists time :: ValidAt(a, time) && ValidAt(b, time)
  }

  /** A reinsert is checked against the version closed last, never against closed rows that carry no closing evidence.
      It overlaps none of the closed rows exactly when it comes no earlier than the end of each of these, empty
      intervals apart. */
  lemma ReinsertOverlapsNothingExactlyWhen(h: KeyHistory, e: Event, config: Config, k: Key)
    requires IsTimeline(h, k, config.businessKey) && h.open.None?
    requires forall v | v in h.legacy :: v.validFrom.Some? && v.validTo.Some?
    requires StepKey(h, e, config).Ok? && StepKey(h, e, config).value.open.Some?
    ensures var next := StepKey(h, e, config).value.open.value;
            (forall v | v in h.legacy + h.closed :: !Overlap(v, next)) <==>
            (forall v | v in h.legacy :: v.validFrom.value < v.validTo.value ==> v.validTo.value <= e.eventTime.value)
  {
    hide OrderAgainst, Tracked, HasKey, Overlap;
    var next := StepKey(h, e, config).value.open.value;
    forall v | v in h.closed ensures !Overlap(v, next) {
      ClosedEndsBefore(h, e, config, k, v);
      OverlapIs(v, next);
    }
    forall v | v in h.legacy
      ensures !Overlap(v, next) <==> (v.validFrom.value < v.validTo.value ==> v.validTo.value <= e.eventTime.value)
    {
      OverlapIs(v, next);
    }
  }

  /** An interval and an open one overlap exactly when the first is not empty and ends after the second starts. */
  lemma OverlapIs(v: Version, next: Version)
    requires v.validFrom.Some? && v.validTo.Some? && next.validFrom.Some? && next.validTo.None?
    ensures Overlap(v, next) <==> v.validFrom.value < v.validTo.value && next.validFrom.value < v.validTo.value
  {
    if v.validFrom.value < v.validTo.value && next.validFrom.value < v.validTo.value {
      assert ValidAt(v, v.validTo.value - 1) && ValidAt(next, v.validTo.value - 1);
    }
  }

  lemma ClosedEndsBefore(h: KeyHistory, e: Event, config: Config, k: Key, v: Version)
    requires IsTimeline(h, k, config.businessKey) && h.open.None? && v in h.closed
    requires StepKey(h, e, config).Ok? && StepKey(h, e, config).value.open.Some?
    ensures v.validFrom.Some? && v.validTo.Some? && v.validTo.value <= e.eventTime.value
  {
    hide OrderAgainst, Tracked, HasKey;
    var p, n :| Timeline(h, k, config.businessKey, p, n);
    var last := |h.closed| - 1;
    assert h.closed[last] in h.closed;
    var i :| 0 <= i < |h.closed| && h.closed[i] == v;
    if i < last {
      assert ClosedBefore(h.closed[i], h.closed[last]);
    }
  }

  /** The overlap at an input: a row closed at 100 without evidence, and a reinsert at 50 above the lower checkpoint. */
  lemma LegacyRowIsOverlapped(v: Version, e: Event, config: Config)
    requires !v.isCurrent && NoEvidence(v) && v.validFrom == Some(0) && v.validTo == Some(100)
    requires e.change.Insert? && e.eventTime == Some(50) && e.position == [2]
    requires config.lower.Some? && e.partition in config.lower.value && config.lower.value[e.partition] == [1]
    ensures var h := KeyHistory([v], [], None);
            && StepKey(h, e, config) == Ok(h.(open := Some(Opened(e, config))))
            && Overlap(v, Opened(e, config))
  {
    hide Tracked;
    assert KeyHistory([v], [], None).All() == [v];
    OverlapIs(v, Opened(e, config));
  }

  // ---------------------------------------------------------------- the run id

  function EraseVersion(v: Version): Version {
    v.(runId := None)
  }

  function EraseAll(vs: seq<Version>): (r: seq<Version>)
    ensures |r| == |vs|
    ensures forall i | 0 <= i < |vs| :: r[i] == EraseVersion(vs[i])
  {
    seq(|vs|, i requires 0 <= i < |vs| => EraseVersion(vs[i]))
  }

  function Erase(h: KeyHistory): KeyHistory {
    KeyHistory(EraseAll(h.legacy), EraseAll(h.closed), if h.open.Some? then Some(EraseVersion(h.open.value)) else None)
  }

  function EraseResult(r: Result<KeyHistory, Scd2Error>): Result<KeyHistory, Scd2Error> {
    if r.Err? then r else Ok(Erase(r.value))
  }

  /** Histories of two attempts differ in nothing but the recorded run id. */
  lemma RunIdIsInvisible(h: KeyHistory, e: Event, config: Config)
    ensures EraseResult(StepKey(h, e, config)) == StepKey(Erase(h), e, config.(runId := None))
  {
    if e.eventTime.Some? {
      var g, config' := Erase(h), config.(runId := None);
      assert (h.All() != []) == (g.All() != []);
      var effect := DecideOnKey(h, e, config);
      if effect.Ok? {
        var h' := PerformOnKey(h, effect.value);
        match effect.value {
          case Close(closed) =>
            assert EraseAll(h.closed + [closed]) == EraseAll(h.closed) + [EraseVersion(closed)];
          case CloseAndOpen(closed, next) =>
            assert EraseAll(h.closed + [closed]) == EraseAll(h.closed) + [EraseVersion(closed)];
          case _ =>
        }
      }
    }
  }

  lemma {:induction false} RunIdsAreInvisible(h: KeyHistory, es: seq<Event>, config: Config)
    ensures EraseResult(FoldKey(h, es, config)) == FoldKey(Erase(h), es, config.(runId := None))
    decreases |es|
  {
    hide StepKey, Erase;
    if es != [] {
      RunIdsAreInvisible(h, es[..|es| - 1], config);
      var before := FoldKey(h, es[..|es| - 1], config);
      if before.Ok? {
        RunIdIsInvisible(before.value, es[|es| - 1], config);
      }
    }
  }
}
