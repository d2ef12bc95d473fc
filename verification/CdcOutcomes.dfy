/** What the counters of the two CDC engines say: every outcome read off the rows before and after an event, and every
    counter as the number of events that show it (apply/cdc.py, apply/cdc_scd2.py). */
module CdcOutcomes {
  import opened Common
  import opened SourceOrder
  import opened CdcCapture
  import opened CdcCurrentState
  import opened CdcScd2
  import opened CdcTimeline
  import opened CdcHistoryRows
  import opened CdcAsOf

  /** The counter of an outcome. */
  function CountOf(c: Counters, o: Outcome): nat {
    match o
    case Inserted => c.inserted
    case Updated => c.updated
    case Deleted => c.deleted
    case StaleIgnored => c.stale
    case NoChange => c.noChange
    case MissingDelete => c.missingDelete
    case PolicyIgnored => c.policyIgnored
  }

  lemma TallyCounts(c: Counters, o: Outcome, counted: Outcome)
    ensures CountOf(c.Tally(o), counted) == CountOf(c, counted) + if o == counted then 1 else 0
  {
  }

  // ---------------------------------------------------------------- current state

  /** The outcome of an event as the row of its key shows it before and after. */
  function Shown(before: Option<Row>, after: Option<Row>, e: Event, onDelete: DeleteAction): Outcome {
    if before.None? then
      if after.Some? then Inserted else if onDelete.Ignore? then PolicyIgnored else MissingDelete
    else if after.None? then Deleted
    else if before.value.position.Some? && LexLess(e.position, before.value.position.value.values) then StaleIgnored
    else if e.change.Delete? then PolicyIgnored
    else if after.value.data != before.value.data then Updated
    else NoChange
  }

  /** The row that an accepted event leaves: a newer change applied column by column and stamped with its position, and
      the row as it was otherwise. */
  ghost predicate LeavesRow(before: Option<Row>, after: Option<Row>, e: Event, policy: Policy) {
    var stored := if before.Some? then before.value.Values() else None;
    if stored.Some? && LexLeq(e.position, stored.value) then after == before
    else if e.change.Delete? then after == if policy.onDelete.Ignore? then before else None
    else after.Some? && StampedBy(after.value, if before.Some? then before.value.data else map[], e, policy.mergeKey)
  }

  /** Merge columns from the key, the other columns of the after image from it, all other columns as before. */
  ghost predicate StampedBy(row: Row, before: Columns, e: Event, mergeKey: seq<string>) {
    && row.partition == Some(e.partition) && row.position == Some(AsTuple(e.position))
    && (forall c :: c in row.data <==> c in before || c in Carried(e, mergeKey))
    && (forall c | c in row.data :: row.data[c] == if c in Carried(e, mergeKey) then Carried(e, mergeKey)[c] else before[c])
  }

  /** The event can be ordered against a row: by the stored position in the same partition or, before CDC has
      touched the
      row, above the committed lower checkpoint; in both cases for positions of one length. */
  ghost predicate CanBeOrdered(
      partition: Option<string>, position: Option<Position>, e: Event, lower: Option<Checkpoint>) {
    if partition.None? && position.None? then
      && lower.Some? && e.partition in lower.value && |e.position| == |lower.value[e.partition]|
      && LexLess(lower.value[e.partition], e.position)
    else
      partition == Some(e.partition) && position.Some? && |e.position| == |position.value| > 0
  }

  /** When an event is accepted: it can be ordered against the row of its key, it is no rejected delete and, at the very
      position of the row, it repeats what the row holds. */
  ghost predicate MayApply(before: Option<Row>, e: Event, policy: Policy) {
    if before.None? then !(e.change.Delete? && policy.onDelete.Reject?)
    else
      var stored := before.value.Values();
      && CanBeOrdered(before.value.partition, stored, e, policy.lower)
      && if stored.Some? && LexLess(e.position, stored.value) then true
         else if e.change.Delete? then policy.onDelete.Ignore? || (policy.onDelete.Apply? && stored != Some(e.position))
         else stored == Some(e.position) ==> Repeats(before.value, e, policy.mergeKey)
  }

  ghost predicate Repeats(row: Row, e: Event, mergeKey: seq<string>) {
    && row.position.Some? && row.position.value.AsTuple?
    && forall c | c in Carried(e, mergeKey) :: c in row.data && row.data[c] == Carried(e, mergeKey)[c]
  }

  lemma OrderedExactlyWhen(partition: Option<string>, position: Option<Position>, e: Event, lower: Option<Checkpoint>)
    ensures var order := OrderAgainst(partition, position, e, lower);
            && (order.Ok? <==> CanBeOrdered(partition, position, e, lower))
            && (order.Ok? ==>
                  order.value == if position.None? || LexLess(position.value, e.position) then Newer
                                 else if position.value == e.position then Equal else Stale)
  {
    if partition.None? && position.None? {
      if lower.Some? && e.partition in lower.value {
        LexTotal(e.position, lower.value[e.partition]);
      }
    } else if position.Some? {
      LexTotal(e.position, position.value);
    }
  }

  lemma CandidateIsStamped(data: Columns, e: Event, mergeKey: seq<string>)
    requires !e.change.Delete?
    ensures StampedBy(Candidate(data, e, mergeKey), data, e, mergeKey)
    ensures Candidate(data, e, mergeKey).data == data <==>
            forall c | c in Carried(e, mergeKey) :: c in data && data[c] == Carried(e, mergeKey)[c]
  {
    assert Candidate(data, e, mergeKey).data == data + Carried(e, mergeKey);
  }

  /** One event on the row of its key: when it is accepted, which row it leaves and how it is counted. */
  lemma EventShowsItsOutcome(before: Option<Row>, e: Event, policy: Policy)
    requires e.position != []
    ensures var step := ApplyEvent(before, e, policy);
            && (step.Ok? <==> MayApply(before, e, policy))
            && (step.Ok? ==>
                  && step.value.outcome == Shown(before, step.value.row, e, policy.onDelete)
                  && LeavesRow(before, step.value.row, e, policy))
  {
    hide LexLess, CompareSourceOrder, Carried, StampedBy, OrderAgainst;
    if before.Some? {
      OrderedExactlyWhen(before.value.partition, before.value.Values(), e, policy.lower);
      if before.value.position.Some? {
        LexTotal(e.position, before.value.position.value.values);
      }
    }
    if !e.change.Delete? {
      CandidateIsStamped(if before.Some? then before.value.data else map[], e, policy.mergeKey);
    }
  }

  // ---------------------------------------------------------------- the stored rows

  /** Complete and distinct keys. */
  ghost predicate RowsAreKeyed(rows: seq<Row>, mergeKey: seq<string>) {
    && (forall r | r in rows :: KeyOf(r.data, mergeKey).Some?)
    && (forall i, j | 0 <= i < j < |rows| :: KeyOf(rows[i].data, mergeKey) != KeyOf(rows[j].data, mergeKey))
  }

  /** The table files each row under its key, and nothing else. */
  ghost predicate Files(t: Table, rows: seq<Row>, mergeKey: seq<string>) {
    && (forall r | r in rows :: KeyOf(r.data, mergeKey).Some? && Find(t, KeyOf(r.data, mergeKey).value) == Some(r))
    && (forall k | k in t :: t[k] in rows && KeyOf(t[k].data, mergeKey) == Some(k))
  }

  lemma RowFiled(t: Table, rows: seq<Row>, row: Row, mergeKey: seq<string>)
    requires Files(t, rows, mergeKey) && RowsAreKeyed(rows, mergeKey)
    ensures RowsAreKeyed(rows + [row], mergeKey) <==> KeyOf(row.data, mergeKey).Some? && KeyOf(row.data, mergeKey).value !in t
    ensures RowsAreKeyed(rows + [row], mergeKey) ==> Files(t[KeyOf(row.data, mergeKey).value := row], rows + [row], mergeKey)
  {
    hide KeyOf;
    var all := rows + [row];
    assert all[|rows|] == row && forall i | 0 <= i < |rows| :: all[i] == rows[i] && rows[i] in rows;
    assert forall r :: r in all <==> r in rows || r == row;
    if KeyOf(row.data, mergeKey).Some? && KeyOf(row.data, mergeKey).value in t {
      var i :| 0 <= i < |rows| && rows[i] == t[KeyOf(row.data, mergeKey).value];
      assert KeyOf(all[i].data, mergeKey) == KeyOf(all[|rows|].data, mergeKey);
    }
  }

  lemma KeyedEarlier(rows: seq<Row>, row: Row, mergeKey: seq<string>)
    requires RowsAreKeyed(rows + [row], mergeKey)
    ensures RowsAreKeyed(rows, mergeKey)
  {
    hide KeyOf;
    var all := rows + [row];
    assert forall i | 0 <= i < |rows| :: all[i] == rows[i] && rows[i] in all;
  }

  /** The target loads exactly when its rows have complete and distinct keys. */
  lemma {:induction false} TargetLoadsExactlyWhen(rows: seq<Row>, mergeKey: seq<string>)
    ensures Load(rows, mergeKey).Ok? <==> RowsAreKeyed(rows, mergeKey)
    ensures Load(rows, mergeKey).Ok? ==> Files(Load(rows, mergeKey).value, rows, mergeKey)
    decreases |rows|
  {
    hide KeyOf, RowsAreKeyed, Files;
    if rows == [] {
      NothingFiled(mergeKey);
    } else {
      var prefix, last := rows[..|rows| - 1], rows[|rows| - 1];
      assert rows == prefix + [last];
      TargetLoadsExactlyWhen(prefix, mergeKey);
      if Load(prefix, mergeKey).Ok? {
        RowFiled(Load(prefix, mergeKey).value, prefix, last, mergeKey);
      } else if RowsAreKeyed(rows, mergeKey) {
        KeyedEarlier(prefix, last, mergeKey);
      }
    }
  }

  lemma NothingFiled(mergeKey: seq<string>)
    ensures RowsAreKeyed([], mergeKey) && Files(map[], [], mergeKey)
  {
  }

  /** A batch is applied only to a well-keyed target under given and distinct merge columns, and then event by event. */
  lemma BatchAcceptedExactlyWhen(existing: seq<Row>, es: seq<Event>, policy: Policy)
    ensures ApplyEvents(existing, es, policy).Ok? <==>
            && policy.mergeKey != [] && (forall i, j | 0 <= i < j < |policy.mergeKey| :: policy.mergeKey[i] != policy.mergeKey[j])
            && RowsAreKeyed(existing, policy.mergeKey)
            && Load(existing, policy.mergeKey).Ok? && FoldTable(Load(existing, policy.mergeKey).value, es, policy).Ok?
  {
    hide KeyOf, FoldTable, RowsAreKeyed;
    TargetLoadsExactlyWhen(existing, policy.mergeKey);
  }

  // ---------------------------------------------------------------- the batch of the current-state engine

  /** The row of an event's key when the first n events have been applied. */
  ghost function RowAfter(t: Table, es: seq<Event>, n: nat, e: Event, policy: Policy): Option<Row>
    requires n <= |es| && EventKey(e, policy.mergeKey).Some?
  {
    var s := FoldTable(t, es[..n], policy);
    if s.Ok? then Find(s.value.table, EventKey(e, policy.mergeKey).value) else None
  }

  /** The events of the batch that show an outcome on the row of their key. */
  ghost function Showing(t: Table, es: seq<Event>, policy: Policy, o: Outcome): set<nat> {
    set i: nat | i < |es| && ShownAt(t, es, policy, i) == Some(o)
  }

  /** What the event with the given index shows. */
  ghost function ShownAt(t: Table, es: seq<Event>, policy: Policy, i: nat): Option<Outcome>
    requires i < |es|
  {
    if EventKey(es[i], policy.mergeKey).None? then None
    else Some(Shown(RowAfter(t, es, i, es[i], policy), RowAfter(t, es, i + 1, es[i], policy), es[i], policy.onDelete))
  }

  lemma EarlierShows(t: Table, es: seq<Event>, policy: Policy, i: nat)
    requires i + 1 < |es|
    ensures ShownAt(t, es[..|es| - 1], policy, i) == ShownAt(t, es, policy, i)
  {
    hide EventKey, Shown, FoldTable;
    assert es[..|es| - 1][..i] == es[..i] && es[..|es| - 1][..i + 1] == es[..i + 1];
  }

  lemma LastShows(t: Table, es: seq<Event>, policy: Policy)
    requires es != [] && FoldTable(t, es, policy).Ok? && es[|es| - 1].position != []
    ensures FoldTable(t, es[..|es| - 1], policy).Ok?
    ensures var shown := ShownAt(t, es, policy, |es| - 1);
            shown.Some? && FoldTable(t, es, policy).value.counters == FoldTable(t, es[..|es| - 1], policy).value.counters.Tally(shown.value)
  {
    hide ApplyEvent, EventKey, Shown, MayApply, LeavesRow;
    var e := es[|es| - 1];
    assert es[..|es|] == es;
    var before := FoldTable(t, es[..|es| - 1], policy).value;
    EventShowsItsOutcome(Find(before.table, EventKey(e, policy.mergeKey).value), e, policy);
  }

  /** Every counter of the batch is the number of events that show its outcome: `updated` counts the events at which the
      data of a row changed, `noChange` those that left the data of a present row as they were, and so on. */
  lemma {:induction false} CountersCountWhatIsShown(t: Table, es: seq<Event>, policy: Policy, o: Outcome)
    requires FoldTable(t, es, policy).Ok? && (forall e | e in es :: e.position != [])
    ensures CountOf(FoldTable(t, es, policy).value.counters, o) == |Showing(t, es, policy, o)|
    decreases |es|
  {
    hide FoldTable, ShownAt, Showing;
    if es == [] {
      NothingShown(t, policy, o);
    } else {
      var prefix, last := es[..|es| - 1], |es| - 1;
      assert es[last] in es;
      LastShows(t, es, policy);
      CountersCountWhatIsShown(t, prefix, policy, o);
      TallyCounts(FoldTable(t, prefix, policy).value.counters, ShownAt(t, es, policy, last).value, o);
      ShowingGrows(t, es, policy, o);
    }
  }

  lemma ShowingGrows(t: Table, es: seq<Event>, policy: Policy, o: Outcome)
    requires es != []
    ensures var last := |es| - 1;
            |Showing(t, es, policy, o)| == |Showing(t, es[..last], policy, o)| + if ShownAt(t, es, policy, last) == Some(o) then 1 else 0
  {
    hide ShownAt;
    var prefix, last := es[..|es| - 1], |es| - 1;
    forall i: nat | i < last ensures ShownAt(t, prefix, policy, i) == ShownAt(t, es, policy, i) {
      EarlierShows(t, es, policy, i);
    }
    assert Showing(t, es, policy, o) ==
           Showing(t, prefix, policy, o) + if ShownAt(t, es, policy, last) == Some(o) then {last} else {};
  }

  lemma NothingShown(t: Table, policy: Policy, o: Outcome)
    ensures Showing(t, [], policy, o) == {} && FoldTable(t, [], policy).Ok?
    ensures CountOf(FoldTable(t, [], policy).value.counters, o) == 0
  {
  }

  // ---------------------------------------------------------------- history, key by key

  /** The event lies above what the history of its key holds; a key without position takes every event as new. */
  predicate IsNewer(h: KeyHistory, e: Event) {
    h.All() == [] || RefPosition(h).None? || LexLess(RefPosition(h).value, e.position)
  }

  predicate AtSamePosition(h: KeyHistory, e: Event) {
    h.All() != [] && RefPosition(h) == Some(e.position)
  }

  /** When an event is accepted on the history of its key: it has a time, can be ordered and, when it closes or opens a
      version, comes no earlier than that version started or the last one ended; at the position of the open version
      it repeats its attributes. */
  ghost predicate MayEnter(h: KeyHistory, e: Event, config: Config) {
    var alters := Alters(Present(h, config), e, config);
    && e.eventTime.Some?
    && (h.All() != [] ==> CanBeOrdered(RefPartition(h), RefPosition(h), e, config.lower))
    && (h.open.Some? && AtSamePosition(h, e) ==> !e.change.Delete? && !alters)
    && (h.open.Some? && IsNewer(h, e) && alters ==> NotBefore(e, h.open.value.validFrom))
    && (h.open.None? && IsNewer(h, e) && alters && h.Latest().Some? ==> NotBefore(e, h.Latest().value.validTo))
  }

  predicate NotBefore(e: Event, bound: Option<int>)
    requires e.eventTime.Some?
  {
    bound.Some? && bound.value <= e.eventTime.value
  }

  /** How an accepted event is counted, by its position and by what it alters. */
  function OutcomeOn(h: KeyHistory, e: Event, config: Config): Outcome {
    if IsNewer(h, e) then
      if !Alters(Present(h, config), e, config) then if e.change.Delete? then MissingDelete else NoChange
      else if e.change.Delete? then Deleted
      else if h.open.Some? then Updated else Inserted
    else if h.open.Some? && AtSamePosition(h, e) then NoChange
    else StaleIgnored
  }

  /** One event on the history of its key: when it is accepted and how it is counted. */
  lemma HistoryEventShowsItsOutcome(h: KeyHistory, e: Event, config: Config)
    requires e.position != []
    ensures StepKey(h, e, config).Ok? <==> MayEnter(h, e, config)
    ensures StepKey(h, e, config).Ok? ==> OutcomeOf(DecideOnKey(h, e, config).value) == OutcomeOn(h, e, config)
  {
    hide LexLess, OrderAgainst, Tracked, Carried, Incoming;
    OpenIsHistory(h);
    OrderedExactlyWhen(RefPartition(h), RefPosition(h), e, config.lower);
    if RefPosition(h).Some? {
      LexTotal(RefPosition(h).value, e.position);
    }
    if !e.change.Delete? {
      CarriedIsIncoming(e, config);
    }
  }

  // ---------------------------------------------------------------- the row closed last

  /** The closing evidence of a key is sound: no row has half of it, and all of it is in one partition and of one
      length. */
  ghost predicate EvidenceIsSound(history: seq<Version>) {
    && (forall v | v in history :: NoEvidence(v) || Evidence(v))
    && (forall v, w | v in history && w in history && Evidence(v) && Evidence(w) ::
          v.closedPartition == w.closedPartition && |v.closedPosition.value| == |w.closedPosition.value|)
  }

  /** The row closed last: of all rows with evidence, none was closed by a later position. */
  ghost predicate IsLatestClosed(latest: Option<Version>, history: seq<Version>) {
    match latest
    case None => forall v | v in history :: !Evidence(v)
    case Some(l) => l in history && Evidence(l) && forall v | v in history && Evidence(v) :: LexLeq(v.closedPosition.value, l.closedPosition.value)
  }

  lemma LaterClosedExactlyWhen(latest: Option<Version>, history: seq<Version>, v: Version)
    requires EvidenceIsSound(history) && IsLatestClosed(latest, history)
    ensures EvidenceIsSound(history + [v]) <==> LaterClosed(latest, v).Ok?
    ensures LaterClosed(latest, v).Ok? ==> IsLatestClosed(LaterClosed(latest, v).value, history + [v])
  {
    hide LexLess;
    var all := history + [v];
    assert v in all && forall w :: w in all <==> w in history || w == v;
    if Evidence(v) && latest.Some? {
      var a, b := v.closedPosition.value, latest.value.closedPosition.value;
      LexTotal(a, b);
      if LexLess(b, a) {
        forall w | w in history && Evidence(w) ensures LexLeq(w.closedPosition.value, a) {
          if w.closedPosition.value != b {
            LexTransitive(w.closedPosition.value, b, a);
          }
        }
      }
    }
  }

  lemma SoundEvidenceEarlier(history: seq<Version>, v: Version)
    requires EvidenceIsSound(history + [v])
    ensures EvidenceIsSound(history)
  {
    assert forall w | w in history :: w in history + [v];
  }

  lemma NoneClosed()
    ensures EvidenceIsSound([]) && IsLatestClosed(None, [])
  {
  }

  /** The row closed last is found exactly when the closing evidence of the key is sound. */
  lemma {:induction false} LatestClosedExactlyWhen(history: seq<Version>)
    ensures LatestClosed(history).Ok? <==> EvidenceIsSound(history)
    ensures LatestClosed(history).Ok? ==> IsLatestClosed(LatestClosed(history).value, history)
    decreases |history|
  {
    hide EvidenceIsSound, IsLatestClosed, LaterClosed, Evidence;
    if history == [] {
      NoneClosed();
    } else {
      var prefix, last := history[..|history| - 1], history[|history| - 1];
      assert history == prefix + [last];
      LatestClosedExactlyWhen(prefix);
      if LatestClosed(prefix).Ok? {
        LaterClosedExactlyWhen(LatestClosed(prefix).value, prefix, last);
      } else if EvidenceIsSound(history) {
        SoundEvidenceEarlier(prefix, last);
      }
    }
  }

  // ---------------------------------------------------------------- the batch of the history engine

  /** A batch is applied to the history only under given and distinct columns, to rows with complete keys of which
      no two
      are current for one key, and then event by event. */
  lemma HistoryBatchAcceptedExactlyWhen(rows: seq<Version>, es: seq<Event>, config: Config)
    requires Timelines(rows, config.businessKey)
    ensures ApplyHistory(rows, es, config).Ok? <==>
            && config.businessKey != [] && (forall i, j | 0 <= i < j < |config.businessKey| :: config.businessKey[i] != config.businessKey[j])
            && config.tracked != [] && (forall i, j | 0 <= i < j < |config.tracked| :: config.tracked[i] != config.tracked[j])
            && (forall v | v in rows :: KeyOf(v.data, config.businessKey).Some?)
            && FoldRows(rows, es, config).Ok?
  {
    hide KeyOf, FoldRows, Represented, OneCurrentPerKey;
    if Keyed(rows, config.businessKey) && UniqueColumns(config.businessKey) && UniqueColumns(config.tracked) {
      var hs: Key -> KeyHistory :| Represented(rows, config.businessKey, hs);
      ChecksPass(rows, es, config, hs);
    }
  }

  function Currents(rows: seq<Version>): nat {
    if rows == [] then 0 else Currents(rows[..|rows| - 1]) + if rows[|rows| - 1].isCurrent then 1 else 0
  }

  lemma {:induction false} CurrentsReplaced(rows: seq<Version>, i: nat, v: Version)
    requires i < |rows|
    ensures Currents(rows[i := v]) == Currents(rows) - (if rows[i].isCurrent then 1 else 0) + if v.isCurrent then 1 else 0
  {
    var last := |rows| - 1;
    if i < last {
      CurrentsReplaced(rows[..last], i, v);
      assert rows[i := v][..last] == rows[..last][i := v];
    } else {
      assert rows[i := v][..last] == rows[..last];
    }
  }

  lemma CurrentsAppended(rows: seq<Version>, v: Version)
    ensures Currents(rows + [v]) == Currents(rows) + if v.isCurrent then 1 else 0
  {
    assert (rows + [v])[..|rows|] == rows;
  }

  /** The outcome of an event as the row list shows it before and after. */
  ghost function ShownOnRows(before: seq<Version>, after: seq<Version>, k: Key, e: Event, config: Config): Outcome {
    var order := OrderOnRows(before, k, e, config.businessKey, config.lower);
    if |after| > |before| then if Currents(after) > Currents(before) then Inserted else Updated
    else if Currents(after) < Currents(before) then Deleted
    else if order == Ok(Newer) then if e.change.Delete? then MissingDelete else NoChange
    else if CurrentIndex(before, config.businessKey, k).Some? && order == Ok(Equal) then NoChange
    else StaleIgnored
  }

  /** What each effect says about the order of the event and about current rows. */
  lemma EffectShows(rows: seq<Version>, k: Key, e: Event, config: Config)
    requires e.eventTime.Some? && DecideOnRows(rows, k, e, config).Ok?
    ensures var order := OrderOnRows(rows, k, e, config.businessKey, config.lower);
            match DecideOnRows(rows, k, e, config).value
            case Keep(o) =>
              o == if order == Ok(Newer) then MissingDelete
                   else if CurrentIndex(rows, config.businessKey, k).Some? && order == Ok(Equal) then NoChange else StaleIgnored
            case Refresh(v) => order == Ok(Newer) && !e.change.Delete? && v.isCurrent
            case Close(v) => !v.isCurrent
            case CloseAndOpen(v, next) => !v.isCurrent && next.isCurrent
            case Open(next) => next.isCurrent
    ensures DecideOnRows(rows, k, e, config).value == Keep(MissingDelete) ==> e.change.Delete?
  {
    hide OrderAgainst, Tracked, CurrentIndex, History, LatestClosed;
  }

  lemma RowEventShowsItsOutcome(s: Rows, e: Event, config: Config)
    requires ApplyToRows(s, e, config).Ok?
    ensures var s' := ApplyToRows(s, e, config).value;
            && EventKey(e, config.businessKey).Some?
            && s'.counters == s.counters.Tally(ShownOnRows(s.rows, s'.rows, EventKey(e, config.businessKey).value, e, config))
            && |s.rows| <= |s'.rows| <= |s.rows| + 1
  {
    hide DecideOnRows, OrderOnRows, EventKey, CurrentIndex, Currents;
    var k := EventKey(e, config.businessKey).value;
    var index, effect := CurrentIndex(s.rows, config.businessKey, k), DecideOnRows(s.rows, k, e, config).value;
    EffectShows(s.rows, k, e, config);
    match effect {
      case Keep(_) =>
      case Refresh(v) => CurrentsReplaced(s.rows, index.value, v);
      case Close(v) => CurrentsReplaced(s.rows, index.value, v);
      case CloseAndOpen(v, next) =>
        CurrentsReplaced(s.rows, index.value, v);
        CurrentsAppended(s.rows[index.value := v], next);
      case Open(next) => CurrentsAppended(s.rows, next);
    }
  }

  /** What the event with the given index shows on the row list. */
  ghost function ShownOnRowsAt(rows: seq<Version>, es: seq<Event>, config: Config, i: nat): Option<Outcome>
    requires i < |es|
  {
    var k, before, after := EventKey(es[i], config.businessKey), FoldRows(rows, es[..i], config), FoldRows(rows, es[..i + 1], config);
    if k.None? || before.Err? || after.Err? then None
    else Some(ShownOnRows(before.value.rows, after.value.rows, k.value, es[i], config))
  }

  ghost function ShowingOnRows(rows: seq<Version>, es: seq<Event>, config: Config, o: Outcome): set<nat> {
    set i: nat | i < |es| && ShownOnRowsAt(rows, es, config, i) == Some(o)
  }

  lemma EarlierShowsOnRows(rows: seq<Version>, es: seq<Event>, config: Config, i: nat)
    requires i + 1 < |es|
    ensures ShownOnRowsAt(rows, es[..|es| - 1], config, i) == ShownOnRowsAt(rows, es, config, i)
  {
    hide EventKey, ShownOnRows, FoldRows;
    assert es[..|es| - 1][..i] == es[..i] && es[..|es| - 1][..i + 1] == es[..i + 1];
  }

  lemma LastShowsOnRows(rows: seq<Version>, es: seq<Event>, config: Config)
    requires es != [] && FoldRows(rows, es, config).Ok?
    ensures FoldRows(rows, es[..|es| - 1], config).Ok?
    ensures var shown := ShownOnRowsAt(rows, es, config, |es| - 1);
            && shown.Some?
            && FoldRows(rows, es, config).value.counters == FoldRows(rows, es[..|es| - 1], config).value.counters.Tally(shown.value)
  {
    hide ApplyToRows, EventKey, ShownOnRows;
    assert es[..|es|] == es;
    RowEventShowsItsOutcome(FoldRows(rows, es[..|es| - 1], config).value, es[|es| - 1], config);
  }

  /** Every counter of the batch is the number of events that show its outcome on the row list: `inserted` those
      that added
      a current row, `updated` those that closed one and added one, `deleted` those that closed one, and so on. */
  lemma {:induction false} HistoryCountersCountWhatIsShown(
      rows: seq<Version>, es: seq<Event>, config: Config, o: Outcome)
    requires FoldRows(rows, es, config).Ok?
    ensures CountOf(FoldRows(rows, es, config).value.counters, o) == |ShowingOnRows(rows, es, config, o)|
    decreases |es|
  {
    hide FoldRows, ShownOnRowsAt, ShowingOnRows;
    if es == [] {
      NothingShownOnRows(rows, config, o);
    } else {
      var prefix, last := es[..|es| - 1], |es| - 1;
      LastShowsOnRows(rows, es, config);
      HistoryCountersCountWhatIsShown(rows, prefix, config, o);
      TallyCounts(FoldRows(rows, prefix, config).value.counters, ShownOnRowsAt(rows, es, config, last).value, o);
      ShowingOnRowsGrows(rows, es, config, o);
    }
  }

  lemma ShowingOnRowsGrows(rows: seq<Version>, es: seq<Event>, config: Config, o: Outcome)
    requires es != []
    ensures var last := |es| - 1;
            |ShowingOnRows(rows, es, config, o)| ==
            |ShowingOnRows(rows, es[..last], config, o)| + if ShownOnRowsAt(rows, es, config, last) == Some(o) then 1 else 0
  {
    hide ShownOnRowsAt;
    var prefix, last := es[..|es| - 1], |es| - 1;
    forall i: nat | i < last ensures ShownOnRowsAt(rows, prefix, config, i) == ShownOnRowsAt(rows, es, config, i) {
      EarlierShowsOnRows(rows, es, config, i);
    }
    assert ShowingOnRows(rows, es, config, o) ==
           ShowingOnRows(rows, prefix, config, o) + if ShownOnRowsAt(rows, es, config, last) == Some(o) then {last} else {};
  }

  lemma NothingShownOnRows(rows: seq<Version>, config: Config, o: Outcome)
    ensures ShowingOnRows(rows, [], config, o) == {} && FoldRows(rows, [], config).Ok?
    ensures CountOf(FoldRows(rows, [], config).value.counters, o) == 0
  {
  }
}
