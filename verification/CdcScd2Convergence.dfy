/** Exactly-once effects of the SCD2 engine over whole runs: rounds of normalise, apply, publish and commit as in
    the current-state case, each under its own run id and published in any row order (apply/cdc_scd2.py). */
module CdcScd2Convergence {
  import opened Common
  import opened SourceOrder
  import opened CdcCapture
  import opened CdcCurrentState
  import opened CdcReplay
  import opened CheckpointStore
  import opened CdcLog
  import opened CdcScd2
  import opened CdcTimeline
  import opened CdcHistoryRows

  // ---------------------------------------------------------------- histories up to run ids and row order

  /** Two lists hold the same versions of every key, up to row order and the recorded run ids. */
  ghost predicate SameHistory(a: seq<Version>, b: seq<Version>, columns: seq<string>) {
    forall k :: multiset(EraseAll(History(a, columns, k))) == multiset(EraseAll(History(b, columns, k)))
  }

  lemma {:induction false} EraseKeepsMultiset(a: seq<Version>, b: seq<Version>)
    requires multiset(a) == multiset(b)
    ensures multiset(EraseAll(a)) == multiset(EraseAll(b))
    decreases |a|
  {
    if a == [] {
      EmptyPermutation(b);
    } else {
      var last, rest := a[|a| - 1], a[..|a| - 1];
      var i := FindInPermutation(a, b);
      var x, y := b[..i], b[i + 1..];
      EraseKeepsMultiset(rest, x + y);
      EraseParts(rest, last, x, y);
      assert a == rest + [last];
    }
  }

  lemma EraseParts(rest: seq<Version>, last: Version, x: seq<Version>, y: seq<Version>)
    requires multiset(EraseAll(rest)) == multiset(EraseAll(x + y))
    ensures multiset(EraseAll(rest + [last])) == multiset(EraseAll(x + [last] + y))
  {
    assert EraseAll(rest + [last]) == EraseAll(rest) + [EraseVersion(last)];
    assert EraseAll(x + [last] + y) == EraseAll(x) + [EraseVersion(last)] + EraseAll(y);
    assert EraseAll(x + y) == EraseAll(x) + EraseAll(y);
  }

  lemma EraseOfAll(h: KeyHistory)
    ensures EraseAll(h.All()) == Erase(h).All()
  {
  }

  lemma StoredRepresents(rows: seq<Version>, stored: seq<Version>, columns: seq<string>, k: Key, h: KeyHistory)
    requires Represents(rows, columns, k, h) && multiset(stored) == multiset(rows)
    ensures Represents(stored, columns, k, h)
  {
    HistoryPermutes(stored, rows, columns, k);
  }

  lemma EmptyFold(h: KeyHistory, config: Config)
    ensures FoldKey(h, [], config) == Ok(h)
  {
  }

  // ---------------------------------------------------------------- the lower checkpoint

  lemma StampedStepIgnoresLower(h: KeyHistory, e: Event, config: Config, later: Option<Checkpoint>)
    requires StampedKey(h)
    ensures StepKey(h, e, config.(lower := later)) == StepKey(h, e, config)
    ensures StepKey(h, e, config).Ok? ==> StampedKey(StepKey(h, e, config).value)
  {
    hide OrderAgainst, Tracked;
    if StepKey(h, e, config).Ok? && StepKey(h, e, config).value != h {
      ChangeSetsReference(h, e, config);
    }
    OpenIsHistory(h);
    SameOrderAgainst(RefPartition(h), RefPosition(h), e, config.lower, later);
  }

  lemma SameOrderAgainst(
      partition: Option<string>, position: Option<Position>, e: Event, lower: Option<Checkpoint>,
      later: Option<Checkpoint>)
    ensures partition.Some? || position.Some? ==> OrderAgainst(partition, position, e, later) == OrderAgainst(partition, position, e, lower)
  {
  }

  /** The lower checkpoint matters only to keys whose history CDC has not touched. */
  lemma {:induction false} StampedKeyIgnoresLower(
      h: KeyHistory, es: seq<Event>, config: Config, later: Option<Checkpoint>)
    requires StampedKey(h)
    ensures FoldKey(h, es, config.(lower := later)) == FoldKey(h, es, config)
    ensures FoldKey(h, es, config).Ok? ==> StampedKey(FoldKey(h, es, config).value)
    decreases |es|
  {
    hide StepKey, StampedKey;
    if es != [] {
      var before := FoldKey(h, es[..|es| - 1], config);
      StampedKeyIgnoresLower(h, es[..|es| - 1], config, later);
      if before.Ok? {
        StampedStepIgnoresLower(before.value, es[|es| - 1], config, later);
      }
    }
  }

  /** One event on a history that CDC has not touched. */
  lemma UntouchedStepStamps(h: KeyHistory, e: Event, config: Config)
    requires !StampedKey(h) && StepKey(h, e, config).Ok?
    ensures if h.open.None? && e.change.Delete? then StepKey(h, e, config).value == h else StampedKey(StepKey(h, e, config).value)
  {
    hide Tracked, LexLess;
    OpenIsHistory(h);
    if StepKey(h, e, config).value != h {
      ChangeSetsReference(h, e, config);
    } else {
      OnlyKeepKeeps(h, e, config);
    }
  }

  lemma UntouchedStep(h: KeyHistory, e: Event, config: Config, later: Option<Checkpoint>)
    requires !StampedKey(h) && Past(later, config.lower, [e], e.partition) && StepKey(h, e, config).Ok?
    ensures var again := StepKey(h, e, config.(lower := later));
            && (again.Ok? <==> SameLengthAt(later, e))
            && (again.Ok? ==> again == StepKey(h, e, config))
  {
    hide Tracked;
    assert e in [e];
    LexTotal(e.position, later.value[e.partition]);
    OpenIsHistory(h);
  }

  lemma {:induction false} UntouchedUntilStampedKey(h: KeyHistory, es: seq<Event>, config: Config)
    requires !StampedKey(h) && FoldKey(h, es, config).Ok?
    ensures var end := FoldKey(h, es, config).value;
            if Leading(es, |es|, h.open.None?) then end == h else StampedKey(end)
    decreases |es|
  {
    hide StepKey, StampedKey;
    if es != [] {
      var before, last := FoldKey(h, es[..|es| - 1], config).value, es[|es| - 1];
      UntouchedUntilStampedKey(h, es[..|es| - 1], config);
      LeadingOfPrefix(es, h.open.None?, None);
      if StampedKey(before) {
        StampedStepIgnoresLower(before, last, config, config.lower);
      } else {
        UntouchedStepStamps(before, last, config);
      }
    }
  }

  /** An untouched history accepts the same events from a later checkpoint exactly when the events that it meets before
      CDC touches it have the length of that checkpoint. */
  lemma {:induction false} UntouchedKeyExactlyWhen(
      h: KeyHistory, es: seq<Event>, config: Config, later: Option<Checkpoint>, p: string)
    requires !StampedKey(h) && (forall e | e in es :: e.partition == p)
    requires Past(later, config.lower, es, p) && FoldKey(h, es, config).Ok?
    ensures var again := FoldKey(h, es, config.(lower := later));
            && (again.Ok? <==> LeadingFit(es, h.open.None?, later))
            && (again.Ok? ==> again == FoldKey(h, es, config))
    decreases |es|
  {
    hide StepKey, Leading, SameLengthAt, LeadingFit, StampedKey;
    if es == [] {
      NoneLeading(es, h.open.None?, later);
    } else {
      var prefix, last := es[..|es| - 1], es[|es| - 1];
      assert last in es;
      UntouchedKeyExactlyWhen(h, prefix, config, later, p);
      UntouchedUntilStampedKey(h, prefix, config);
      LeadingOfPrefix(es, h.open.None?, later);
      if Leading(prefix, |prefix|, h.open.None?) {
        UntouchedStep(h, last, config, later);
      } else {
        StampedStepIgnoresLower(FoldKey(h, prefix, config).value, last, config, later);
      }
    }
  }

  // ---------------------------------------------------------------- one key of one round

  /** The retry's events can be compared with what they meet: redelivered events with the position of the open version
      or of the version closed last, and the first events of an untouched history with the committed checkpoint. */
  ghost predicate RetryableKey(
      g: KeyHistory, redelivered: seq<Event>, delivered: seq<Event>, later: Option<Checkpoint>) {
    if RefPosition(g).Some? then forall e | e in redelivered :: |e.position| == |RefPosition(g).value|
    else g.All() == [] || LeadingFit(delivered, g.open.None?, later)
  }

  /** A history without a position to compare with was not changed by any event. */
  lemma {:induction false} UnplacedKeyIsStart(h: KeyHistory, es: seq<Event>, config: Config)
    requires FoldKey(h, es, config).Ok? && RefPosition(FoldKey(h, es, config).value).None?
    ensures FoldKey(h, es, config).value == h
    decreases |es|
  {
    hide StepKey;
    if es != [] {
      var before := FoldKey(h, es[..|es| - 1], config).value;
      if FoldKey(h, es, config).value != before {
        ChangeSetsReference(before, es[|es| - 1], config);
      }
      UnplacedKeyIsStart(h, es[..|es| - 1], config);
    }
  }

  /** A history with half of its evidence accepts no event at all. */
  lemma {:induction false} HalfStampedKeyAcceptsNothing(h: KeyHistory, es: seq<Event>, config: Config)
    requires h.All() != [] && RefPosition(h).None? && RefPartition(h).Some? && FoldKey(h, es, config).Ok?
    ensures es == []
    decreases |es|
  {
    hide StepKey;
    if es != [] {
      var prefix := es[..|es| - 1];
      HalfStampedKeyAcceptsNothing(h, prefix, config);
      EmptyFold(h, config);
      StepNeedsOrder(h, es[|es| - 1], config);
    }
  }

  /** Events `a` were committed, `b` was published without its checkpoint, `c` is new: from the committed checkpoint
      `later` the round over `b + c` succeeds exactly when its events are comparable with the stored history, and then
      ends where one application of everything ends. */
  lemma RoundExactlyWhen(
      h: KeyHistory, a: seq<Event>, b: seq<Event>, c: seq<Event>, config: Config, later: Option<Checkpoint>, p: string)
    requires Rising(a + b + c, p) && Past(later, config.lower, b + c, p)
    requires FoldKey(h, a + b + c, config).Ok?
    ensures FoldKey(h, a + b, config).Ok?
    ensures var published := FoldKey(h, a + b, config).value;
            var again := FoldKey(published, b + c, config.(lower := later));
            && (again.Ok? <==> RetryableKey(published, b, b + c, later))
            && (again.Ok? ==> again == FoldKey(h, a + b + c, config))
  {
    hide FoldKey, Rising, Past, OrderOnKey, LeadingFit;
    RisingParts(a, b, c, p);
    FoldKeySplits(h, a + b, c, config);
    var published := FoldKey(h, a + b, config).value;
    FoldKeySplits(published, b, c, config.(lower := later));
    if StampedKey(published) && (published.All() == [] || RefPosition(published).Some?) {
      ReplayIsNoOpExactlyWhen(h, a + b, b, config, later, p);
      StampedKeyIgnoresLower(published, c, config, later);
      if RefPosition(published).Some? {
        forall e | e in b ensures OrderOnKey(published, e, later).Ok? <==> |e.position| == |RefPosition(published).value| {
          OrderedExactlyWhenSameLength(h, a + b, config, later, p, e);
        }
        OpenIsHistory(published);
      } else {
        NoHistoryOrders(published, b, later);
      }
    } else {
      UntouchedRound(h, a, b, c, config, later, p);
    }
  }

  lemma NoHistoryOrders(h: KeyHistory, es: seq<Event>, lower: Option<Checkpoint>)
    requires h.All() == []
    ensures AllOrdered(h, es, lower)
  {
  }

  /** The case of a history without a position to compare with. */
  lemma UntouchedRound(
      h: KeyHistory, a: seq<Event>, b: seq<Event>, c: seq<Event>, config: Config, later: Option<Checkpoint>, p: string)
    requires Rising(a + b + c, p) && Past(later, config.lower, b + c, p)
    requires FoldKey(h, a + b + c, config).Ok? && FoldKey(h, a + b, config).Ok?
    requires var published := FoldKey(h, a + b, config).value; published.All() != [] && RefPosition(published).None?
    ensures var published := FoldKey(h, a + b, config).value;
            var again := FoldKey(published, b + c, config.(lower := later));
            && (again.Ok? <==> LeadingFit(b + c, published.open.None?, later))
            && (again.Ok? ==> again == FoldKey(h, a + b + c, config))
  {
    hide FoldKey, Past, LeadingFit;
    UnplacedKeyIsStart(h, a + b, config);
    FoldKeySplits(h, a, b + c, config);
    FoldKeySplits(h, a, b, config);
    assert a + (b + c) == a + b + c;
    UnplacedKeyIsStart(FoldKey(h, a, config).value, b, config);
    RisingParts(a, b, c, p);
    if RefPartition(h).Some? {
      HalfStampedKeyAcceptsNothing(h, b + c, config);
      NoneLeading(b + c, h.open.None?, later);
      EmptyFold(h, config);
      EmptyFold(h, config.(lower := later));
    } else {
      UntouchedKeyExactlyWhen(h, b + c, config, later, p);
    }
  }

  lemma EraseKeepsRetryable(g: KeyHistory, redelivered: seq<Event>, delivered: seq<Event>, later: Option<Checkpoint>)
    ensures RetryableKey(Erase(g), redelivered, delivered, later) == RetryableKey(g, redelivered, delivered, later)
  {
    hide LeadingFit;
    EraseOfAll(g);
    assert |Erase(g).All()| == |g.All()|;
  }

  /** The same for histories that earlier attempts wrote under other run ids. */
  lemma RoundOnKey(
      h: KeyHistory, g: KeyHistory, a: seq<Event>, b: seq<Event>, c: seq<Event>, config: Config, round: Config,
      p: string)
    requires Rising(a + b + c, p) && Past(round.lower, config.lower, b + c, p)
    requires round == config.(lower := round.lower, runId := round.runId)
    requires FoldKey(h, a + b + c, config).Ok?
    requires FoldKey(h, a + b, config).Ok? && Erase(g) == Erase(FoldKey(h, a + b, config).value)
    ensures var next := FoldKey(g, b + c, round);
            && (next.Ok? <==> RetryableKey(FoldKey(h, a + b, config).value, b, b + c, round.lower))
            && (next.Ok? ==> Erase(next.value) == Erase(FoldKey(h, a + b + c, config).value))
  {
    hide FoldKey, Erase, Rising, Past, RetryableKey;
    var plain := config.(runId := None);
    RunIdsAreInvisible(h, a + b, config);
    RunIdsAreInvisible(h, a + b + c, config);
    RoundExactlyWhen(Erase(h), a, b, c, plain, round.lower, p);
    EraseKeepsRetryable(FoldKey(h, a + b, config).value, b, b + c, round.lower);
    RunIdsAreInvisible(g, b + c, round);
    assert plain.(lower := round.lower) == round.(runId := None);
  }

  // ---------------------------------------------------------------- the same on the row list

  /** The position that the stored rows of a key hold against an event. */
  function RowReference(rows: seq<Version>, columns: seq<string>, k: Key): Option<Position> {
    var index := CurrentIndex(rows, columns, k);
    if index.Some? then rows[index.value].position
    else
      var latest := LatestClosed(History(rows, columns, k));
      if latest.Ok? && latest.value.Some? then latest.value.value.closedPosition else None
  }

  /** The retry's events can be compared with the stored rows of their key. */
  ghost predicate RetryableRows(
      rows: seq<Version>, columns: seq<string>, k: Key, redelivered: seq<Event>, delivered: seq<Event>,
      later: Option<Checkpoint>)
  {
    if RowReference(rows, columns, k).Some? then
      forall e | e in redelivered :: |e.position| == |RowReference(rows, columns, k).value|
    else History(rows, columns, k) == [] || LeadingFit(delivered, CurrentIndex(rows, columns, k).None?, later)
  }

  lemma RetryableAgrees(
      rows: seq<Version>, columns: seq<string>, k: Key, h: KeyHistory, redelivered: seq<Event>, delivered: seq<Event>,
      later: Option<Checkpoint>)
    requires Represents(rows, columns, k, h) && IsTimeline(h, k, columns)
    ensures RetryableRows(rows, columns, k, redelivered, delivered, later) == RetryableKey(h, redelivered, delivered, later)
  {
    hide IsTimeline, LeadingFit, History, LatestClosed;
    CurrentAgrees(rows, columns, k, h);
    if h.open.None? {
      LatestAgrees(rows, columns, k, h);
    }
    assert |multiset(History(rows, columns, k))| == |multiset(h.All())|;
  }

  // ---------------------------------------------------------------- a retry whose upper bound grew

  /** A window from a later lower bound is divided by a bound in its middle. */
  lemma {:induction false} GrownWindowParts(
      log: seq<Event>, es: seq<Event>, lo: Option<Checkpoint>, mid: Option<Checkpoint>, hi: Option<Checkpoint>)
    requires AtOrBefore(lo, mid) && AtOrBefore(mid, hi)
    requires forall e | e in log && Above(e, lo) :: e in es <==> Up(e, mid)
    ensures Fresh(Window(log, lo, hi), es) == Window(log, mid, hi)
    ensures Repeated(Window(log, lo, hi), es) == Window(log, lo, mid)
    decreases |log|
  {
    hide Above, Up, AtOrBefore, Fresh, Repeated;
    if log == [] {
      NothingGrown(es);
    } else {
      var prefix, last := log[..|log| - 1], log[|log| - 1];
      assert log == prefix + [last];
      GrownWindowParts(prefix, es, lo, mid, hi);
      BoundsAreMonotone(last, lo, mid);
      BoundsAreMonotone(last, mid, hi);
      BoundDivides(last, mid);
      OneMoreGrown(Window(prefix, lo, hi), last, es);
    }
  }

  lemma NothingGrown(es: seq<Event>)
    ensures Fresh([], es) == [] && Repeated([], es) == []
  {
  }

  lemma OneMoreGrown(grown: seq<Event>, e: Event, es: seq<Event>)
    ensures Fresh(grown + [e], es) == if e in es then Fresh(grown, es) else Fresh(grown, es) + [e]
    ensures Repeated(grown + [e], es) == if e in es then Repeated(grown, es) + [e] else Repeated(grown, es)
  {
    assert (grown + [e])[..|grown + [e]| - 1] == grown;
  }

  lemma BoundDivides(e: Event, bound: Option<Checkpoint>)
    ensures Above(e, bound) <==> !Up(e, bound)
  {
  }

  lemma WindowIsOrderedByKey(
      log: seq<Event>, start: Option<Checkpoint>, final: Checkpoint, hi: Option<Checkpoint>, columns: seq<string>)
    requires IsLog(log, start, final, columns)
    ensures OrderedByKey(Window(log, start, hi), columns)
  {
    hide StrictlyOrdered, KeyedBy, Acceptable, Above, Up, EventKey, KeyWindow, AtOrBefore;
    WindowIs(log, start, hi);
    AtOrBeforeReflexive(start);
    var es := Window(log, start, hi);
    forall e, f | e in es && f in es && EventKey(e, columns) == EventKey(f, columns) ensures e.partition == f.partition {
      LogKeyIsPresent(log, e, columns);
      var k := EventKey(e, columns).value;
      KeyWindowIs(log, start, hi, columns, k);
      KeyHasOnePartition(log, start, final, columns, k, start, hi, e);
    }
  }

  /** In a window every key's events up to a bound come before those above it. */
  lemma WindowIsOldFirst(
      log: seq<Event>, start: Option<Checkpoint>, final: Checkpoint, lo: Option<Checkpoint>, mid: Option<Checkpoint>,
      hi: Option<Checkpoint>, columns: seq<string>)
    requires IsLog(log, start, final, columns) && AtOrBefore(start, lo)
    ensures OldFirst(Window(log, lo, hi), Window(log, start, mid), columns)
  {
    hide KeyedBy, Above, Up, Before, Acceptable, AtOrBefore, EventKey;
    var grown, es := Window(log, lo, hi), Window(log, start, mid);
    WindowIs(log, lo, hi);
    WindowIs(log, start, mid);
    WindowIs(log, start, hi);
    WindowIsOrderedByKey(log, start, final, hi, columns);
    forall i, j | 0 <= i < j < |grown| && grown[j] in es && EventKey(grown[i], columns) == EventKey(grown[j], columns)
      ensures grown[i] in es
    {
      assert grown[i] in grown && grown[j] in grown && Before(grown[i], grown[j]);
      BoundsAreMonotone(grown[i], start, lo);
      BoundsAreMonotone(grown[j], start, lo);
      assert grown[i].partition == grown[j].partition;
      BoundDivides(grown[i], mid);
      if Above(grown[i], mid) {
        BoundSeparates(grown[j], grown[i], mid);
        BeforeAsymmetric(grown[i], grown[j]);
      }
    }
  }

  lemma BeforeAsymmetric(a: Event, b: Event)
    requires Before(a, b)
    ensures !Before(b, a)
  {
    LexOrder();
  }

  /** After a crash between publishing a window and committing its checkpoint, the retry reads the log through a grown
      bound. On the stored rows its window is accepted exactly when the part above the published bound is and the part
      below it can be compared with the stored rows, and then it leaves the rows of the former alone and counts no
      mutation besides. */
  lemma GrownWindowExactlyWhen(
      rows: seq<Version>, log: seq<Event>, stored: seq<Version>, published: Option<Checkpoint>,
      upper: Option<Checkpoint>,
      final: Checkpoint, config: Config, round: Config)
    requires IsLog(log, config.lower, final, config.businessKey)
    requires round == config.(lower := round.lower, runId := round.runId)
    requires AtOrBefore(config.lower, round.lower) && AtOrBefore(round.lower, published) && AtOrBefore(published, upper)
    requires Timelines(rows, config.businessKey) && FoldRows(rows, Window(log, config.lower, published), config).Ok?
    requires multiset(stored) == multiset(FoldRows(rows, Window(log, config.lower, published), config).value.rows)
    ensures var again := FoldRows(stored, Window(log, round.lower, upper), round);
            var alone := FoldRows(stored, Window(log, published, upper), round);
            && (again.Ok? <==> alone.Ok? && AllOrderedOnRows(stored, Window(log, round.lower, published), config.businessKey, round.lower))
            && (again.Ok? ==> again.value.rows == alone.value.rows
                              && again.value.counters.Applied() == alone.value.counters.Applied())
  {
    hide Timelines, FoldRows, OldFirst, OrderedByKey, AllOrderedOnRows, StrictlyOrdered, Acceptable, KeyedBy, Above, Up,
      AtOrBefore;
    var es, grown := Window(log, config.lower, published), Window(log, round.lower, upper);
    WindowIs(log, config.lower, published);
    WindowIs(log, round.lower, upper);
    forall e | e in log && Above(e, round.lower) ensures e in es <==> Up(e, published) {
      BoundsAreMonotone(e, config.lower, round.lower);
    }
    GrownWindowParts(log, es, round.lower, published, upper);
    WindowIsOrderedByKey(log, config.lower, final, published, config.businessKey);
    WindowIsOldFirst(log, config.lower, final, round.lower, published, upper, config.businessKey);
    GrownBatchExactlyWhen(rows, es, stored, grown, config, round);
  }

  // ---------------------------------------------------------------- runs

  function ConfigAt(config: Config, s: Progress<Version>, runId: int): Config {
    config.(lower := s.Lower(), runId := Some(runId))
  }

  /** What the engine makes of a delivery. */
  ghost function Applied(s: Progress<Version>, r: Round, config: Config): Result<Rows, Scd2Error> {
    ApplyHistory(s.rows, NormalizedEvents(r.delivered, s.Lower()), ConfigAt(config, s, r.runId))
  }

  ghost function RunAttempt(s: Progress<Version>, a: Attempt<Version>, config: Config): Option<Progress<Version>> {
    Finish(s, a, Applied(s, a.round, config).Ok?)
  }

  /** The progress after all attempts, or None when some stage of some attempt raises. */
  ghost function RunAttempts(
      s: Progress<Version>, attempts: seq<Attempt<Version>>, config: Config): Option<Progress<Version>> {
    if attempts == [] then Some(s)
    else
      var before := RunAttempts(s, attempts[..|attempts| - 1], config);
      if before.None? then None else RunAttempt(before.value, attempts[|attempts| - 1], config)
  }

  /** After an attempt the target returns the rows that the engine made, in any order. */
  ghost predicate Publishes(s: Progress<Version>, a: Attempt<Version>, config: Config) {
    var applied := Applied(s, a.round, config);
    applied.Ok? ==> multiset(a.stored) == multiset(applied.value.rows)
  }

  ghost predicate PublishesResult(s: Progress<Version>, attempts: seq<Attempt<Version>>, config: Config) {
    attempts != [] ==>
      var prefix, last := attempts[..|attempts| - 1], attempts[|attempts| - 1];
      && PublishesResult(s, prefix, config)
      && var before := RunAttempts(s, prefix, config);
         before.Some? ==> Publishes(before.value, last, config)
  }

  // ---------------------------------------------------------------- one application of the log

  /** What one application of the log through a bound makes of a key. */
  function OnceKey(
      h: KeyHistory, log: seq<Event>, hi: Option<Checkpoint>, config: Config, k: Key): Result<KeyHistory, Scd2Error> {
    FoldKey(h, KeyWindow(log, config.lower, hi, config.businessKey, k), config)
  }

  ghost function Once(
      rows: seq<Version>, log: seq<Event>, hi: Option<Checkpoint>, config: Config): Result<Rows, Scd2Error> {
    ApplyHistory(rows, Window(log, config.lower, hi), config)
  }

  lemma WindowHasKeys(
      log: seq<Event>, start: Option<Checkpoint>, final: Checkpoint, lo: Option<Checkpoint>, hi: Option<Checkpoint>,
      columns: seq<string>)
    requires IsLog(log, start, final, columns)
    ensures forall e | e in Window(log, lo, hi) :: ValidPosition(e) && EventKey(e, columns).Some?
  {
    hide StrictlyOrdered, Acceptable;
    WindowIs(log, lo, hi);
    forall e | e in Window(log, lo, hi) ensures ValidPosition(e) && EventKey(e, columns).Some? {
      LogKeyIsPresent(log, e, columns);
    }
  }

  /** What the log does to a key as a whole, an earlier window of it does as well. */
  lemma KeySucceedsEarlier(
      h: KeyHistory, log: seq<Event>, hi: Option<Checkpoint>, final: Checkpoint, config: Config, k: Key)
    requires IsLog(log, config.lower, final, config.businessKey)
    requires AtOrBefore(config.lower, hi) && AtOrBefore(hi, Some(final))
    requires OnceKey(h, log, Some(final), config, k).Ok?
    ensures OnceKey(h, log, hi, config, k).Ok?
  {
    hide FoldKey, KeyWindow, StrictlyOrdered, Acceptable, KeyedBy, LexLess;
    var columns, start := config.businessKey, config.lower;
    var es := KeyWindow(log, start, hi, columns, k);
    if es == [] {
      EmptyFold(h, config);
    } else {
      KeyWindowIs(log, start, hi, columns, k);
      assert es[0] in es;
      AtOrBeforeReflexive(start);
      KeyHasOnePartition(log, start, final, columns, k, start, Some(final), es[0]);
      KeyWindowSplits(log, start, hi, Some(final), columns, k, es[0].partition);
      FoldKeySplits(h, es, KeyWindow(log, hi, Some(final), columns, k), config);
    }
  }

  /** The engine's configuration is valid and no stored row lacks its key. */
  ghost predicate Accepts(rows: seq<Version>, config: Config) {
    UniqueColumns(config.businessKey) && UniqueColumns(config.tracked) && Keyed(rows, config.businessKey)
  }

  lemma OnceIsAccepted(rows: seq<Version>, log: seq<Event>, hi: Option<Checkpoint>, config: Config)
    requires Once(rows, log, hi, config).Ok?
    ensures Accepts(rows, config) && FoldRows(rows, Window(log, config.lower, hi), config).Ok?
  {
  }

  /** One application of the log through a bound, on the rows and on the histories of the keys. */
  lemma OnceIsKeywise(
      rows: seq<Version>, hs: Key -> KeyHistory, log: seq<Event>, hi: Option<Checkpoint>, final: Checkpoint,
      config: Config)
    requires IsLog(log, config.lower, final, config.businessKey)
    requires AtOrBefore(config.lower, hi) && AtOrBefore(hi, Some(final))
    requires Represented(rows, config.businessKey, hs) && Accepts(rows, config)
    requires forall k :: OnceKey(hs(k), log, Some(final), config, k).Ok?
    ensures Once(rows, log, hi, config).Ok?
    ensures forall k ::
              && OnceKey(hs(k), log, hi, config, k).Ok?
              && Represents(Once(rows, log, hi, config).value.rows, config.businessKey, k, OnceKey(hs(k), log, hi, config, k).value)
              && IsTimeline(OnceKey(hs(k), log, hi, config, k).value, k, config.businessKey)
  {
    hide FoldKey, FoldRows, KeyEvents, Window, IsTimeline, Represents, IsLog, AtOrBefore;
    WindowHasKeys(log, config.lower, final, config.lower, hi, config.businessKey);
    forall k ensures OnceKey(hs(k), log, hi, config, k).Ok? {
      KeySucceedsEarlier(hs(k), log, hi, final, config, k);
    }
    assert forall k :: FoldKey(hs(k), KeyEvents(Window(log, config.lower, hi), config.businessKey, k), config) == OnceKey(hs(k), log, hi, config, k);
    KeywiseRowsSucceed(rows, Window(log, config.lower, hi), config, hs);
    ChecksPass(rows, Window(log, config.lower, hi), config, hs);
    forall k
      ensures Represents(Once(rows, log, hi, config).value.rows, config.businessKey, k, OnceKey(hs(k), log, hi, config, k).value)
      ensures IsTimeline(OnceKey(hs(k), log, hi, config, k).value, k, config.businessKey)
    {
      assert Represents(rows, config.businessKey, k, hs(k)) && IsTimeline(hs(k), k, config.businessKey);
      FoldIsKeywise(rows, Window(log, config.lower, hi), config, k, hs(k));
    }
  }

  // ---------------------------------------------------------------- one attempt

  /** Every key's stored rows are its history after one application of the log up to the published bound, up to run
      ids. */
  ghost predicate Agrees(
      rows: seq<Version>, gs: Key -> KeyHistory, hs: Key -> KeyHistory, log: seq<Event>,
      published: Option<Checkpoint>, config: Config)
  {
    && Represented(rows, config.businessKey, gs)
    && forall k :: OnceKey(hs(k), log, published, config, k).Ok? && Erase(gs(k)) == Erase(OnceKey(hs(k), log, published, config, k).value)
  }

  lemma AgreesAt(
      rows: seq<Version>, gs: Key -> KeyHistory, hs: Key -> KeyHistory, log: seq<Event>, published: Option<Checkpoint>,
      config: Config, k: Key)
    requires Agrees(rows, gs, hs, log, published, config)
    ensures Represents(rows, config.businessKey, k, gs(k)) && IsTimeline(gs(k), k, config.businessKey)
    ensures OnceKey(hs(k), log, published, config, k).Ok? && Erase(gs(k)) == Erase(OnceKey(hs(k), log, published, config, k).value)
  {
    hide IsTimeline, Represents, OnceKey, Erase;
  }

  lemma AgreesWhen(
      rows: seq<Version>, gs: Key -> KeyHistory, hs: Key -> KeyHistory, log: seq<Event>,
      published: Option<Checkpoint>, config: Config)
    requires forall k :: Represents(rows, config.businessKey, k, gs(k)) && IsTimeline(gs(k), k, config.businessKey)
    requires forall k :: OnceKey(hs(k), log, published, config, k).Ok? && Erase(gs(k)) == Erase(OnceKey(hs(k), log, published, config, k).value)
    ensures Agrees(rows, gs, hs, log, published, config)
  {
    hide IsTimeline, Represents, OnceKey, Erase;
  }

  /** One key of an attempt. */
  lemma KeyOfAttempt(
      h: KeyHistory, g: KeyHistory, log: seq<Event>, committed: Option<Checkpoint>, published: Option<Checkpoint>,
      upper: Option<Checkpoint>, final: Checkpoint, config: Config, round: Config, k: Key)
    requires IsLog(log, config.lower, final, config.businessKey)
    requires round == config.(lower := committed, runId := round.runId)
    requires AtOrBefore(config.lower, committed) && AtOrBefore(committed, published) && AtOrBefore(published, upper)
    requires OnceKey(h, log, upper, config, k).Ok? && OnceKey(h, log, published, config, k).Ok?
    requires Erase(g) == Erase(OnceKey(h, log, published, config, k).value)
    ensures var next := FoldKey(g, KeyWindow(log, committed, upper, config.businessKey, k), round);
            && (next.Ok? <==> RetryableKey(OnceKey(h, log, published, config, k).value,
                                           KeyWindow(log, committed, published, config.businessKey, k),
                                           KeyWindow(log, committed, upper, config.businessKey, k), committed))
            && (next.Ok? ==> Erase(next.value) == Erase(OnceKey(h, log, upper, config, k).value))
  {
    hide FoldKey, Erase, KeyWindow, IsLog, Rising, Past, LeadingFit, Covers;
    var columns := config.businessKey;
    var es := KeyWindow(log, config.lower, upper, columns, k);
    if es == [] {
      AtOrBeforeReflexive(config.lower);
      AtOrBeforeReflexive(upper);
      NoEventsInPart(log, config.lower, committed, upper, upper, columns, k);
      NoEventsInPart(log, config.lower, committed, published, upper, columns, k);
      NoEventsInPart(log, config.lower, config.lower, published, upper, columns, k);
      EmptyFold(h, config);
      EmptyFold(g, round);
      NoneLeading(es, h.open.None?, committed);
    } else {
      assert es[0] in es;
      RetryParts(log, config.lower, committed, published, upper, final, columns, k, es[0]);
      RoundOnKey(h, g, KeyWindow(log, config.lower, committed, columns, k), KeyWindow(log, committed, published, columns, k),
                 KeyWindow(log, published, upper, columns, k), config, round, es[0].partition);
    }
  }

  /** Every key's retry is comparable with its stored rows. */
  ghost predicate AllRetryable(
      rows: seq<Version>, log: seq<Event>, committed: Option<Checkpoint>, published: Option<Checkpoint>,
      upper: Option<Checkpoint>,
      columns: seq<string>)
  {
    forall k :: RetryableRows(rows, columns, k, KeyWindow(log, committed, published, columns, k),
                              KeyWindow(log, committed, upper, columns, k), committed)
  }

  /** The stored rows of a key show whether its retry is comparable. */
  lemma StoredRetryable(
      rows: seq<Version>, g: KeyHistory, once: KeyHistory, log: seq<Event>, committed: Option<Checkpoint>,
      published: Option<Checkpoint>, upper: Option<Checkpoint>, columns: seq<string>, k: Key)
    requires Represents(rows, columns, k, g) && IsTimeline(g, k, columns) && Erase(g) == Erase(once)
    ensures var redelivered, delivered := KeyWindow(log, committed, published, columns, k), KeyWindow(log, committed, upper, columns, k);
            RetryableRows(rows, columns, k, redelivered, delivered, committed) == RetryableKey(once, redelivered, delivered, committed)
  {
    hide KeyWindow, RetryableRows, RetryableKey, Represents, IsTimeline, Erase;
    var redelivered, delivered := KeyWindow(log, committed, published, columns, k), KeyWindow(log, committed, upper, columns, k);
    RetryableAgrees(rows, columns, k, g, redelivered, delivered, committed);
    EraseKeepsRetryable(g, redelivered, delivered, committed);
    EraseKeepsRetryable(once, redelivered, delivered, committed);
  }

  function NextHistories(gs: Key -> KeyHistory, es: seq<Event>, config: Config): Key -> KeyHistory {
    k =>
      var g := FoldKey(gs(k), KeyEvents(es, config.businessKey, k), config);
      if g.Ok? then g.value else gs(k)
  }

  /** One more application to rows that agree with the log up to the published bound. */
  lemma AgainExactlyWhen(
      rows: seq<Version>, gs: Key -> KeyHistory, start: seq<Version>, hs: Key -> KeyHistory, log: seq<Event>,
      committed: Option<Checkpoint>, published: Option<Checkpoint>, upper: Option<Checkpoint>, final: Checkpoint,
      config: Config, round: Config)
    requires IsLog(log, config.lower, final, config.businessKey)
    requires round == config.(lower := committed, runId := round.runId)
    requires AtOrBefore(config.lower, committed) && AtOrBefore(committed, published) && AtOrBefore(published, upper)
    requires AtOrBefore(upper, Some(final))
    requires Represented(start, config.businessKey, hs) && forall k :: OnceKey(hs(k), log, Some(final), config, k).Ok?
    requires Accepts(start, config) && Accepts(rows, config)
    requires Agrees(rows, gs, hs, log, published, config)
    ensures var again := ApplyHistory(rows, Window(log, committed, upper), round);
            && (again.Ok? <==> AllRetryable(rows, log, committed, published, upper, config.businessKey))
            && (again.Ok? ==>
                  forall stored :: multiset(stored) == multiset(again.value.rows) ==>
                    && Accepts(stored, config)
                    && Agrees(stored, NextHistories(gs, Window(log, committed, upper), round), hs, log, upper, config))
  {
    hide ApplyHistory, Accepts, FoldKey, FoldRows, KeyEvents, Window, IsTimeline, Represents, Erase, IsLog,
      AtOrBefore, RetryableKey, RetryableRows, OnceKey,
      Agrees, Once;
    var columns, es := config.businessKey, Window(log, committed, upper);
    CoversTransitive(config.lower, committed, published);
    CoversTransitive(config.lower, published, upper);
    CoversTransitive(published, upper, Some(final));
    OnceIsKeywise(start, hs, log, published, final, config);
    OnceIsKeywise(start, hs, log, upper, final, config);
    WindowHasKeys(log, config.lower, final, committed, upper, columns);
    forall k
      ensures FoldKey(gs(k), KeyEvents(es, columns, k), round).Ok? <==>
              RetryableRows(rows, columns, k, KeyWindow(log, committed, published, columns, k),
                            KeyWindow(log, committed, upper, columns, k), committed)
      ensures FoldKey(gs(k), KeyEvents(es, columns, k), round).Ok? ==>
              Erase(FoldKey(gs(k), KeyEvents(es, columns, k), round).value) == Erase(OnceKey(hs(k), log, upper, config, k).value)
      ensures Represents(rows, columns, k, gs(k)) && IsTimeline(gs(k), k, columns)
    {
      AgreesAt(rows, gs, hs, log, published, config, k);
      KeyOfAttempt(hs(k), gs(k), log, committed, published, upper, final, config, round, k);
      StoredRetryable(rows, gs(k), OnceKey(hs(k), log, published, config, k).value, log, committed, published, upper, columns, k);
    }
    assert Represented(rows, columns, gs);
    if AllRetryable(rows, log, committed, published, upper, columns) {
      KeywiseRowsSucceed(rows, es, round, gs);
    }
    AcceptedLikewise(rows, config, round);
    ApplyIsFold(rows, es, round, gs);
    var again := FoldRows(rows, es, round);
    if again.Ok? {
      var next := NextHistories(gs, es, round);
      AcceptedAgain(rows, es, config, round);
      forall k
        ensures FoldKey(gs(k), KeyEvents(es, columns, k), round).Ok?
        ensures Represents(again.value.rows, columns, k, next(k)) && IsTimeline(next(k), k, columns)
      {
        FoldIsKeywise(rows, es, round, k, gs(k));
      }
      forall stored | multiset(stored) == multiset(again.value.rows)
        ensures Accepts(stored, config) && Agrees(stored, next, hs, log, upper, config)
      {
        SameRowsAccepted(again.value.rows, stored, config);
        forall k ensures Represents(stored, columns, k, next(k)) {
          StoredRepresents(again.value.rows, stored, columns, k, next(k));
        }
        AgreesWhen(stored, next, hs, log, upper, config);
      }
    }
  }

  lemma AcceptedLikewise(rows: seq<Version>, config: Config, round: Config)
    requires round == config.(lower := round.lower, runId := round.runId)
    ensures Accepts(rows, round) == Accepts(rows, config)
  {
  }

  lemma ApplyIsFold(rows: seq<Version>, es: seq<Event>, config: Config, hs: Key -> KeyHistory)
    requires Represented(rows, config.businessKey, hs) && Accepts(rows, config)
    ensures ApplyHistory(rows, es, config) == FoldRows(rows, es, config)
  {
    ChecksPass(rows, es, config, hs);
  }

  lemma AcceptedAgain(rows: seq<Version>, es: seq<Event>, config: Config, round: Config)
    requires round == config.(lower := round.lower, runId := round.runId)
    requires Accepts(rows, config) && FoldRows(rows, es, round).Ok?
    ensures Accepts(FoldRows(rows, es, round).value.rows, config)
  {
    FoldKeepsKeyed(rows, es, round);
  }

  lemma SameRowsAccepted(rows: seq<Version>, stored: seq<Version>, config: Config)
    requires multiset(stored) == multiset(rows) && Accepts(rows, config)
    ensures Accepts(stored, config)
  {
    hide KeyOf;
    forall v | v in stored ensures KeyOf(v.data, config.businessKey).Some? {
      assert v in multiset(stored);
      assert v in rows;
    }
  }

  // ---------------------------------------------------------------- the theorem

  /** Every attempt finds its retried events comparable with the rows that were stored before it. */
  ghost predicate RetriesComparable(
      start: seq<Version>, attempts: seq<Attempt<Version>>, log: seq<Event>, config: Config) {
    attempts != [] ==>
      var prefix, last := attempts[..|attempts| - 1], attempts[|attempts| - 1];
      && RetriesComparable(start, prefix, log, config)
      && var rounds := RoundsOf(prefix);
         AllRetryable(StoredRows(start, prefix), log, Committed(config.lower, rounds), Published(config.lower, rounds),
                      Some(last.round.upper), config.businessKey)
  }

  /** What a run starts from and is served with. */
  ghost predicate ProperRun(
      start: Progress<Version>, attempts: seq<Attempt<Version>>, log: seq<Event>, final: Checkpoint, config: Config) {
    && start.Versioned()
    && config.lower == start.Lower()
    && IsLog(log, start.Lower(), final, config.businessKey)
    && WellDelivered(start.Lower(), RoundsOf(attempts), log)
    && PublishesResult(start, attempts, config)
    && AtOrBefore(start.Lower(), Some(final))
    && AtOrBefore(Published(start.Lower(), RoundsOf(attempts)), Some(final))
  }

  lemma ProperPrefix(
      start: Progress<Version>, attempts: seq<Attempt<Version>>, log: seq<Event>, final: Checkpoint, config: Config)
    requires attempts != [] && ProperRun(start, attempts, log, final, config)
    ensures ProperRun(start, attempts[..|attempts| - 1], log, final, config)
    ensures var before, last := RoundsOf(attempts[..|attempts| - 1]), attempts[|attempts| - 1];
            && AtOrBefore(Published(start.Lower(), before), Some(last.round.upper))
            && AtOrBefore(Some(last.round.upper), Some(final))
            && Delivers(last.round, log, Committed(start.Lower(), before))
  {
    hide IsLog, Delivers, AtOrBefore;
    LastRound(attempts);
    CoversTransitive(Published(start.Lower(), RoundsOf(attempts[..|attempts| - 1])), Some(attempts[|attempts| - 1].round.upper), Some(final));
  }

  /** One more attempt of a run. */
  lemma AttemptExactlyWhen(
      start: seq<Version>, hs: Key -> KeyHistory, s: Progress<Version>, gs: Key -> KeyHistory, a: Attempt<Version>,
      log: seq<Event>,
      published: Option<Checkpoint>, final: Checkpoint, config: Config)
    requires IsLog(log, config.lower, final, config.businessKey) && s.Versioned()
    requires Represented(start, config.businessKey, hs) && forall k :: OnceKey(hs(k), log, Some(final), config, k).Ok?
    requires Agrees(s.rows, gs, hs, log, published, config)
    requires Accepts(start, config) && Accepts(s.rows, config)
    requires AtOrBefore(config.lower, s.Lower()) && AtOrBefore(s.Lower(), published)
    requires AtOrBefore(published, Some(a.round.upper)) && AtOrBefore(Some(a.round.upper), Some(final))
    requires Delivers(a.round, log, s.Lower()) && Publishes(s, a, config)
    ensures var next := RunAttempt(s, a, config);
            && (next.Some? <==> AllRetryable(s.rows, log, s.Lower(), published, Some(a.round.upper), config.businessKey))
            && (next.Some? ==>
                  && next.value.rows == a.stored && next.value.Versioned() && Accepts(a.stored, config)
                  && next.value.Lower() == (if a.round.commits then Some(a.round.upper) else s.Lower())
                  && Agrees(a.stored, NextHistories(gs, Window(log, s.Lower(), Some(a.round.upper)), ConfigAt(config, s, a.round.runId)),
                            hs, log, Some(a.round.upper), config))
  {
    hide Agrees, Accepts, ApplyHistory, Window, IsLog, Represented, AtOrBefore, Finish, Delivers, AllRetryable,
      OnceKey, Once, NormalizedEvents,
      NextHistories, ValidWindow, Acceptable;
    var upper := Some(a.round.upper);
    CoversTransitive(s.Lower(), published, upper);
    DeliveryIsWindow(a.round, log, config.lower, s.Lower(), final, config.businessKey);
    AgainExactlyWhen(s.rows, gs, start, hs, log, s.Lower(), published, upper, final, config, ConfigAt(config, s, a.round.runId));
    AttemptFinishes(s, a, Applied(s, a.round, config).Ok?);
  }

  /** The run, with the histories that its rows stand for. */
  lemma {:induction false} RunAgrees(
      start: Progress<Version>, hs: Key -> KeyHistory, attempts: seq<Attempt<Version>>, log: seq<Event>,
      final: Checkpoint,
      config: Config) returns (gs: Key -> KeyHistory)
    requires ProperRun(start, attempts, log, final, config)
    requires Represented(start.rows, config.businessKey, hs) && Accepts(start.rows, config)
    requires forall k :: OnceKey(hs(k), log, Some(final), config, k).Ok?
    ensures var end, rounds := RunAttempts(start, attempts, config), RoundsOf(attempts);
            && (end.Some? <==> RetriesComparable(start.rows, attempts, log, config))
            && Once(start.rows, log, Published(start.Lower(), rounds), config).Ok?
            && (end.Some? ==>
                  && end.value.rows == StoredRows(start.rows, attempts)
                  && Agrees(end.value.rows, gs, hs, log, Published(start.Lower(), rounds), config)
                  && end.value.Lower() == Committed(start.Lower(), rounds)
                  && Accepts(end.value.rows, config)
                  && end.value.Versioned())
    decreases |attempts|
  {
    hide Agrees, Accepts, IsLog, Delivers, AllRetryable, Represented, NextHistories, Window, RunAttempt, Publishes,
      AtOrBefore, Once, OnceKey;
    if attempts == [] {
      gs := hs;
      AtOrBeforeReflexive(start.Lower());
      OnceIsKeywise(start.rows, hs, log, start.Lower(), final, config);
      NothingApplied(start.rows, hs, log, config);
    } else {
      var prefix, last := attempts[..|attempts| - 1], attempts[|attempts| - 1];
      LastRound(attempts);
      ProperPrefix(start, attempts, log, final, config);
      var fs := RunAgrees(start, hs, prefix, log, final, config);
      var before, published, upper := RunAttempts(start, prefix, config), Published(start.Lower(), RoundsOf(prefix)), Some(last.round.upper);
      BoundsInOrder(start.Lower(), RoundsOf(prefix), log);
      CoversTransitive(start.Lower(), Committed(start.Lower(), RoundsOf(prefix)), published);
      CoversTransitive(start.Lower(), published, upper);
      OnceIsKeywise(start.rows, hs, log, upper, final, config);
      gs := hs;
      if before.Some? {
        AttemptExactlyWhen(start.rows, hs, before.value, fs, last, log, published, final, config);
        gs := NextHistories(fs, Window(log, before.value.Lower(), upper), ConfigAt(config, before.value, last.round.runId));
      }
    }
  }

  lemma NothingApplied(rows: seq<Version>, hs: Key -> KeyHistory, log: seq<Event>, config: Config)
    requires Represented(rows, config.businessKey, hs)
    ensures Agrees(rows, hs, hs, log, config.lower, config)
  {
    hide IsTimeline, Represents, FoldKey, Erase;
    WindowIs(log, config.lower, config.lower);
    forall k ensures KeyWindow(log, config.lower, config.lower, config.businessKey, k) == [] {
      NoElements(Window(log, config.lower, config.lower));
    }
    forall k ensures FoldKey(hs(k), [], config) == Ok(hs(k)) {
      EmptyFold(hs(k), config);
    }
  }

  /** The exact condition for convergence of the history. When one application of the log succeeds, a run of attempts
      succeeds as well exactly when every attempt finds its events comparable, and then the stored history is that
      of one
      application of the log up to the last published bound, up to run ids and row order. */
  lemma Scd2RunConvergesExactlyWhen(
      start: Progress<Version>, attempts: seq<Attempt<Version>>, log: seq<Event>, final: Checkpoint, config: Config)
    requires ProperRun(start, attempts, log, final, config) && Timelines(start.rows, config.businessKey)
    requires Once(start.rows, log, Some(final), config).Ok?
    ensures var end, rounds := RunAttempts(start, attempts, config), RoundsOf(attempts);
            var once := Once(start.rows, log, Published(start.Lower(), rounds), config);
            && (end.Some? <==> RetriesComparable(start.rows, attempts, log, config))
            && once.Ok?
            && (end.Some? ==>
                  && SameHistory(end.value.rows, once.value.rows, config.businessKey)
                  && end.value.Lower() == Committed(start.Lower(), rounds)
                  && Timelines(end.value.rows, config.businessKey))
  {
    hide Accepts, Once, FoldKey, FoldRows, Window, IsLog, IsTimeline, Represents, WellDelivered, PublishesResult,
      RunAttempts, Erase, History,
      KeyEvents, Agrees, RetriesComparable, AtOrBefore;
    var columns, published := config.businessKey, Published(start.Lower(), RoundsOf(attempts));
    var hs: Key -> KeyHistory :| Represented(start.rows, columns, hs);
    OnceIsAccepted(start.rows, log, Some(final), config);
    WindowHasKeys(log, config.lower, final, config.lower, Some(final), columns);
    forall k ensures OnceKey(hs(k), log, Some(final), config, k).Ok? {
      FoldIsKeywise(start.rows, Window(log, start.Lower(), Some(final)), config, k, hs(k));
    }
    var gs := RunAgrees(start, hs, attempts, log, final, config);
    BoundsInOrder(start.Lower(), RoundsOf(attempts), log);
    CoversTransitive(start.Lower(), Committed(start.Lower(), RoundsOf(attempts)), published);
    OnceIsKeywise(start.rows, hs, log, published, final, config);
    var end := RunAttempts(start, attempts, config);
    if end.Some? {
      var once := Once(start.rows, log, published, config).value.rows;
      forall k
        ensures Represents(end.value.rows, columns, k, gs(k)) && IsTimeline(gs(k), k, columns)
        ensures multiset(EraseAll(History(end.value.rows, columns, k))) == multiset(EraseAll(History(once, columns, k)))
      {
        AgreesAt(end.value.rows, gs, hs, log, published, config, k);
        SameRowsOfKey(end.value.rows, gs(k), once, OnceKey(hs(k), log, published, config, k).value, columns, k);
      }
      assert Represented(end.value.rows, columns, gs);
    }
  }

  lemma SameRowsOfKey(a: seq<Version>, g: KeyHistory, b: seq<Version>, h: KeyHistory, columns: seq<string>, k: Key)
    requires Represents(a, columns, k, g) && Represents(b, columns, k, h) && Erase(g) == Erase(h)
    ensures multiset(EraseAll(History(a, columns, k))) == multiset(EraseAll(History(b, columns, k)))
  {
    EraseKeepsMultiset(History(a, columns, k), g.All());
    EraseKeepsMultiset(History(b, columns, k), h.All());
    EraseOfAll(g);
    EraseOfAll(h);
  }

  // ---------------------------------------------------------------- positions of one length

  lemma KeyHasLength(h: KeyHistory, es: seq<Event>, config: Config, p: string, n: nat)
    requires Chain(es, p, n) && es != [] && FoldKey(h, es, config).Ok? && RefPosition(FoldKey(h, es, config).value).Some?
    ensures |RefPosition(FoldKey(h, es, config).value).value| == n
  {
    hide StepKey;
    var before, g, last := FoldKey(h, es[..|es| - 1], config).value, FoldKey(h, es, config).value, es[|es| - 1];
    assert last in es;
    OpenIsHistory(g);
    if g == before {
      StepNeedsOrder(before, last, config);
    } else {
      ChangeSetsReference(before, last, config);
    }
  }

  lemma {:induction false} UntouchedKeyNeedsLower(h: KeyHistory, es: seq<Event>, config: Config, p: string)
    requires !StampedKey(h) && (forall e | e in es :: e.partition == p) && es != [] && FoldKey(h, es, config).Ok?
    ensures config.lower.Some? && p in config.lower.value
    decreases |es|
  {
    hide StepKey;
    var prefix := es[..|es| - 1];
    assert es[|es| - 1] in es;
    if prefix != [] {
      UntouchedKeyNeedsLower(h, prefix, config, p);
    } else {
      EmptyFold(h, config);
      StepNeedsOrder(h, es[|es| - 1], config);
    }
  }

  /** With positions of one length every retry is comparable. */
  lemma ChainIsRetryableKey(
      h: KeyHistory, a: seq<Event>, b: seq<Event>, c: seq<Event>, config: Config, later: Option<Checkpoint>,
      p: string, n: nat)
    requires Chain(a + b + c, p, n) && Past(later, config.lower, b + c, p) && FoldKey(h, a + b + c, config).Ok?
    requires later.Some? && p in later.value ==> |later.value[p]| == n
    ensures FoldKey(h, a + b, config).Ok?
    ensures RetryableKey(FoldKey(h, a + b, config).value, b, b + c, later)
  {
    hide FoldKey, Leading;
    FoldKeySplits(h, a + b, c, config);
    var published := FoldKey(h, a + b, config).value;
    assert (a + b) + c + [] == a + b + c;
    ChainParts(a + b, c, [], p, n);
    ChainParts(a, b, c, p, n);
    if RefPosition(published).Some? {
      if b != [] {
        KeyHasLength(h, a + b, config, p, n);
      }
    } else if published.All() != [] && b + c != [] {
      UnplacedKeyIsStart(h, a + b, config);
      if RefPartition(h).Some? {
        HalfStampedKeyAcceptsNothing(h, a + b + c, config);
      } else {
        UntouchedKeyNeedsLower(h, a + b + c, config, p);
      }
    }
  }

  lemma KeyIsRetryable(
      h: KeyHistory, log: seq<Event>, committed: Option<Checkpoint>, published: Option<Checkpoint>,
      upper: Option<Checkpoint>,
      final: Checkpoint, config: Config, arity: map<string, nat>, k: Key)
    requires IsLog(log, config.lower, final, config.businessKey) && UniformLog(log, arity) && UniformCheckpoint(committed, arity)
    requires AtOrBefore(config.lower, committed) && AtOrBefore(committed, published) && AtOrBefore(published, upper)
    requires OnceKey(h, log, upper, config, k).Ok? && OnceKey(h, log, published, config, k).Ok?
    ensures RetryableKey(OnceKey(h, log, published, config, k).value, KeyWindow(log, committed, published, config.businessKey, k),
                         KeyWindow(log, committed, upper, config.businessKey, k), committed)
  {
    hide FoldKey, KeyWindow, IsLog, Rising, Past, LeadingFit, Covers, UniformLog;
    var columns := config.businessKey;
    var es := KeyWindow(log, config.lower, upper, columns, k);
    AtOrBeforeReflexive(config.lower);
    if es == [] {
      AtOrBeforeReflexive(upper);
      NoEventsInPart(log, config.lower, committed, upper, upper, columns, k);
      NoEventsInPart(log, config.lower, committed, published, upper, columns, k);
      NoneLeading(es, OnceKey(h, log, published, config, k).value.open.None?, committed);
    } else {
      assert es[0] in es;
      RetryParts(log, config.lower, committed, published, upper, final, columns, k, es[0]);
      KeyWindowIs(log, config.lower, upper, columns, k);
      KeyWindowIsChain(log, config.lower, upper, final, columns, k, arity, es[0]);
      ChainIsRetryableKey(h, KeyWindow(log, config.lower, committed, columns, k), KeyWindow(log, committed, published, columns, k),
                          KeyWindow(log, published, upper, columns, k), config, committed, es[0].partition, arity[es[0].partition]);
    }
  }

  lemma {:induction false} UniformRunsAreComparable(
      start: Progress<Version>, hs: Key -> KeyHistory, attempts: seq<Attempt<Version>>, log: seq<Event>,
      final: Checkpoint,
      config: Config, arity: map<string, nat>)
    requires ProperRun(start, attempts, log, final, config) && Represented(start.rows, config.businessKey, hs)
    requires Accepts(start.rows, config)
    requires forall k :: OnceKey(hs(k), log, Some(final), config, k).Ok?
    requires UniformLog(log, arity) && UniformCheckpoint(start.Lower(), arity) && UniformRounds(RoundsOf(attempts), arity)
    ensures RetriesComparable(start.rows, attempts, log, config)
    decreases |attempts|
  {
    hide IsLog, RetryableRows, RetryableKey, Delivers, AtOrBefore, UniformLog, UniformCheckpoint, Once, OnceKey,
      PublishesResult, WellDelivered,
      KeyWindow, Represented, IsTimeline, Represents;
    if attempts != [] {
      var prefix, last := attempts[..|attempts| - 1], attempts[|attempts| - 1];
      var rounds := RoundsOf(prefix);
      LastRound(attempts);
      ProperPrefix(start, attempts, log, final, config);
      assert forall r | r in rounds :: r in RoundsOf(attempts);
      UniformRunsAreComparable(start, hs, prefix, log, final, config, arity);
      BoundsInOrder(start.Lower(), rounds, log);
      CommittedIsUniform(start.Lower(), rounds, arity);
      var committed, published, upper := Committed(start.Lower(), rounds), Published(start.Lower(), rounds), Some(last.round.upper);
      CoversTransitive(start.Lower(), committed, published);
      CoversTransitive(start.Lower(), published, upper);
      CoversTransitive(published, upper, Some(final));
      OnceIsKeywise(start.rows, hs, log, published, final, config);
      OnceIsKeywise(start.rows, hs, log, upper, final, config);
      var gs := RunAgrees(start, hs, prefix, log, final, config);
      var stored, columns := StoredRows(start.rows, prefix), config.businessKey;
      forall k
        ensures RetryableRows(stored, columns, k, KeyWindow(log, committed, published, columns, k),
                              KeyWindow(log, committed, upper, columns, k), committed)
      {
        KeyIsRetryable(hs(k), log, committed, published, upper, final, config, arity, k);
        AgreesAt(stored, gs, hs, log, published, config, k);
        StoredRetryable(stored, gs(k), OnceKey(hs(k), log, published, config, k).value, log, committed, published, upper, columns, k);
      }
    }
  }

  /** With positions of one length in each partition every run converges. */
  lemma Scd2RunConverges(
      start: Progress<Version>, attempts: seq<Attempt<Version>>, log: seq<Event>, final: Checkpoint, config: Config,
      arity: map<string, nat>)
    requires ProperRun(start, attempts, log, final, config) && Timelines(start.rows, config.businessKey)
    requires Once(start.rows, log, Some(final), config).Ok?
    requires UniformLog(log, arity) && UniformCheckpoint(start.Lower(), arity) && UniformRounds(RoundsOf(attempts), arity)
    ensures var end := RunAttempts(start, attempts, config);
            var once := Once(start.rows, log, Published(start.Lower(), RoundsOf(attempts)), config);
            && end.Some? && once.Ok?
            && SameHistory(end.value.rows, once.value.rows, config.businessKey)
            && end.value.Lower() == Committed(start.Lower(), RoundsOf(attempts))
            && Timelines(end.value.rows, config.businessKey)
  {
    hide Accepts, Once, FoldKey, FoldRows, Window, IsLog, IsTimeline, Represents, WellDelivered, PublishesResult,
      RunAttempts, SameHistory,
      KeyEvents, RetriesComparable, AtOrBefore, UniformLog, UniformCheckpoint, UniformRounds;
    var hs: Key -> KeyHistory :| Represented(start.rows, config.businessKey, hs);
    OnceIsAccepted(start.rows, log, Some(final), config);
    WindowHasKeys(log, config.lower, final, config.lower, Some(final), config.businessKey);
    forall k ensures OnceKey(hs(k), log, Some(final), config, k).Ok? {
      FoldIsKeywise(start.rows, Window(log, start.Lower(), Some(final)), config, k, hs(k));
    }
    UniformRunsAreComparable(start, hs, attempts, log, final, config, arity);
    Scd2RunConvergesExactlyWhen(start, attempts, log, final, config);
  }
}
