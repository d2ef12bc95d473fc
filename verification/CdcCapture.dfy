/** Provider-neutral CDC events and the normalisation of one bounded capture window
    (capture/cdc.py). */
module CdcCapture {
  import opened Common
  import opened SourceOrder

  /** The operation of an event together with its after image: exactly INSERT and UPDATE carry one. */
  datatype Change = Insert(after: Columns) | Update(after: Columns) | Delete

  /** One row-level change. `evidence` stands for the remaining event content (before image,
      transaction id and provider metadata); equality of events is equality of content hashes. */
  datatype Event = Event(
    id: string,
    change: Change,
    key: Columns,
    partition: string,
    position: Position,
    eventTime: Option<int>,
    evidence: int)

  /** The committed inclusive position of every partition. */
  type Checkpoint = map<string, Position>

  datatype Batch = Batch(
    events: seq<Event>,
    lower: Option<Checkpoint>,
    upper: Checkpoint,
    duplicatesIgnored: nat,
    alreadyCommittedIgnored: nat)

  datatype CaptureError =
    | NotComplete
    | WindowDroppedOrRegressed
    | ConflictingEventId
    | SharedPosition
    | PartitionNotInUpper
    | BeyondUpper
    | KeyAcrossPartitions

  /** Partitions have names and positions have components (the validators of CDCSourcePosition). */
  predicate ValidPosition(e: Event) {
    e.partition != "" && e.position != []
  }

  /** `event.position.values <= checkpoint.position_for(partition)` */
  predicate Within(e: Event, bound: Checkpoint) {
    e.partition in bound && LexLeq(e.position, bound[e.partition])
  }

  /** The event is not yet covered by the committed lower checkpoint. */
  predicate Above(e: Event, lower: Option<Checkpoint>) {
    lower.None? || !Within(e, lower.value)
  }

  /** No partition of `before` is dropped or moved backwards in `after`. */
  predicate Covers(after: Checkpoint, before: Checkpoint) {
    forall p | p in before :: p in after && LexLeq(before[p], after[p])
  }

  predicate ValidWindow(lower: Option<Checkpoint>, upper: Checkpoint) {
    lower.None? || Covers(upper, lower.value)
  }

  /** The processing order of normalised events. The source breaks remaining ties by event id;
      accepted events have distinct positions, so no tie remains. */
  predicate Before(a: Event, b: Event) {
    LexLess(Codes(a.partition), Codes(b.partition))
    || (a.partition == b.partition && LexLess(a.position, b.position))
  }

  predicate StrictlyOrdered(es: seq<Event>) {
    forall i, j | 0 <= i < j < |es| :: Before(es[i], es[j])
  }

  lemma BeforeTransitive(a: Event, b: Event, c: Event)
    requires Before(a, b) && Before(b, c)
    ensures Before(a, c)
  {
    LexOrder();
  }

  lemma BeforeTotal(a: Event, b: Event)
    ensures !(Before(a, b) && Before(b, a))
    ensures Before(a, b) || Before(b, a) || (a.partition == b.partition && a.position == b.position)
    ensures !Before(a, a)
  {
    LexOrder();
  }

  /** Strictly ordered sequences with the same elements are the same sequence. */
  lemma {:induction false} StrictOrderIsUnique(a: seq<Event>, b: seq<Event>)
    requires StrictlyOrdered(a) && StrictlyOrdered(b)
    requires forall e :: e in a <==> e in b
    ensures a == b
  {
    assert |b| > 0 ==> b[0] in b;
    if a != [] {
      assert a[0] in b && b[0] in a;
      var i :| 0 <= i < |b| && b[i] == a[0];
      var j :| 0 <= j < |a| && a[j] == b[0];
      BeforeTotal(a[0], b[0]);
      assert a[0] == b[0];
      forall e ensures e in a[1..] <==> e in b[1..] {
        BeforeTotal(a[0], a[0]);
        assert e in a[1..] ==> e in a && e != a[0];
        assert e in b[1..] ==> e in b && e != b[0];
        assert e in a && e != a[0] ==> e in a[1..];
        assert e in b && e != b[0] ==> e in b[1..];
      }
      StrictOrderIsUnique(a[1..], b[1..]);
      assert a == [a[0]] + a[1..] && b == [b[0]] + b[1..];
    }
  }

  // ---------------------------------------------------------------- what normalisation decides

  /** Everything that the input of one window must satisfy, whatever the order and the number of
      deliveries of its events. */
  ghost predicate Acceptable(events: seq<Event>, lower: Option<Checkpoint>, upper: Checkpoint) {
    && (forall a, b | a in events && b in events && a.id == b.id :: a == b)
    && (forall a, b | a in events && b in events && a.partition == b.partition && a.position == b.position :: a == b)
    && (forall e | e in events :: Within(e, upper))
    && (forall a, b | a in events && b in events && Above(a, lower) && Above(b, lower) && a.key == b.key ::
          a.partition == b.partition)
  }

  ghost function CommittedIn(events: seq<Event>, lower: Option<Checkpoint>): set<Event> {
    set e | e in events && !Above(e, lower)
  }

  /** What a successful normalisation of `events` returns. */
  ghost predicate IsNormalized(events: seq<Event>, lower: Option<Checkpoint>, upper: Checkpoint, b: Batch) {
    && StrictlyOrdered(b.events)
    && (forall e :: e in b.events <==> e in events && Above(e, lower))
    && b.lower == lower
    && b.upper == upper
    && b.duplicatesIgnored == |events| - |ToSet(events)|
    && b.alreadyCommittedIgnored == |CommittedIn(events, lower)|
  }

  /** Why an input is refused: each error names a defect that the input really has. */
  ghost predicate Refused(
      error: CaptureError, events: seq<Event>, lower: Option<Checkpoint>, upper: Checkpoint, complete: bool) {
    match error
    case NotComplete => !complete
    case WindowDroppedOrRegressed => !ValidWindow(lower, upper)
    case ConflictingEventId => exists a, b :: a in events && b in events && a.id == b.id && a != b
    case SharedPosition =>
      exists a, b :: a in events && b in events && a.partition == b.partition && a.position == b.position && a != b
    case PartitionNotInUpper => exists e :: e in events && e.partition !in upper
    case BeyondUpper => exists e :: e in events && e.partition in upper && LexLess(upper[e.partition], e.position)
    case KeyAcrossPartitions =>
      exists a, b :: a in events && b in events && Above(a, lower) && Above(b, lower) && a.key == b.key && a.partition != b.partition
  }

  // ---------------------------------------------------------------- sorting

  function InsertOrdered(e: Event, es: seq<Event>): seq<Event> {
    if es == [] then [e]
    else if Before(es[0], e) then [es[0]] + InsertOrdered(e, es[1..])
    else [e] + es
  }

  function SortEvents(es: seq<Event>): seq<Event> {
    if es == [] then [] else InsertOrdered(es[|es| - 1], SortEvents(es[..|es| - 1]))
  }

  predicate DistinctPositions(es: seq<Event>) {
    forall i, j | 0 <= i < j < |es| :: es[i].partition != es[j].partition || es[i].position != es[j].position
  }

  lemma {:induction false} InsertOrderedKeepsOrder(e: Event, es: seq<Event>)
    requires StrictlyOrdered(es)
    requires forall x | x in es :: x.partition != e.partition || x.position != e.position
    ensures StrictlyOrdered(InsertOrdered(e, es))
    ensures forall x :: x in InsertOrdered(e, es) <==> x == e || x in es
  {
    if es == [] {
    } else if Before(es[0], e) {
      InsertOrderedKeepsOrder(e, es[1..]);
      var r := InsertOrdered(e, es);
      assert r[1..] == InsertOrdered(e, es[1..]);
      forall x ensures x in r <==> x == e || x in es {
        assert x in r <==> x == r[0] || x in r[1..];
        assert x in es <==> x == es[0] || x in es[1..];
      }
      forall j | 0 < j < |r| ensures Before(r[0], r[j]) {
        assert r[j] in r[1..];
      }
    } else {
      BeforeTotal(e, es[0]);
      assert Before(e, es[0]) by { assert es[0] in es; }
      forall j | 0 < j < |es| ensures Before(e, es[j]) {
        BeforeTransitive(e, es[0], es[j]);
      }
    }
  }

  lemma {:induction false} SortEventsSorts(es: seq<Event>)
    requires DistinctPositions(es)
    ensures StrictlyOrdered(SortEvents(es))
    ensures forall x :: x in SortEvents(es) <==> x in es
  {
    if es != [] {
      var prefix, last := es[..|es| - 1], es[|es| - 1];
      assert es == prefix + [last];
      SortEventsSorts(prefix);
      InsertOrderedKeepsOrder(last, SortEvents(prefix));
    }
  }

  // ---------------------------------------------------------------- normalize_cdc_batch

  // What the loop of normalize_cdc_batch knows about the events it has passed, table by table.

  ghost predicate IdsTrack(seen: seq<Event>, ids: map<string, Event>) {
    && (forall e | e in seen :: e.id in ids && ids[e.id] == e)
    && (forall id | id in ids :: ids[id] in seen && ids[id].id == id)
  }

  ghost predicate PositionsTrack(seen: seq<Event>, positions: map<(string, Position), Event>) {
    && (forall e | e in seen :: (e.partition, e.position) in positions && positions[(e.partition, e.position)] == e)
    && (forall q | q in positions :: positions[q] in seen && (positions[q].partition, positions[q].position) == q)
  }

  ghost predicate PartitionsTrack(accepted: seq<Event>, partitions: map<Columns, string>) {
    && (forall e | e in accepted :: e.key in partitions && partitions[e.key] == e.partition)
    && (forall k | k in partitions :: exists e :: e in accepted && e.key == k && e.partition == partitions[k])
  }

  ghost predicate Indexed(
      seen: seq<Event>, ids: map<string, Event>, positions: map<(string, Position), Event>,
      partitions: map<Columns, string>, accepted: seq<Event>, lower: Option<Checkpoint>, upper: Checkpoint) {
    && IdsTrack(seen, ids)
    && PositionsTrack(seen, positions)
    && PartitionsTrack(accepted, partitions)
    && (forall e | e in seen :: Within(e, upper))
    && (forall e :: e in accepted <==> e in seen && Above(e, lower))
    && DistinctPositions(accepted)
  }

  lemma EventTrackedNext(seen: seq<Event>, ids: map<string, Event>, positions: map<(string, Position), Event>, e: Event)
    requires IdsTrack(seen, ids) && e.id !in ids
    requires PositionsTrack(seen, positions) && (e.partition, e.position) !in positions
    ensures IdsTrack(seen + [e], ids[e.id := e])
    ensures PositionsTrack(seen + [e], positions[(e.partition, e.position) := e])
  {
  }

  lemma PartitionsTrackNext(accepted: seq<Event>, partitions: map<Columns, string>, e: Event)
    requires PartitionsTrack(accepted, partitions)
    requires e.key in partitions ==> partitions[e.key] == e.partition
    ensures PartitionsTrack(accepted + [e], partitions[e.key := e.partition])
  {
    var partitions' := partitions[e.key := e.partition];
    forall k | k in partitions'
      ensures exists x :: x in accepted + [e] && x.key == k && x.partition == partitions'[k]
    {
      if k == e.key {
        assert e in accepted + [e];
      } else {
        var x :| x in accepted && x.key == k && x.partition == partitions[k];
        assert x in accepted + [e];
      }
    }
  }

  lemma IndexedIsAcceptable(
      seen: seq<Event>, ids: map<string, Event>, positions: map<(string, Position), Event>,
      partitions: map<Columns, string>, accepted: seq<Event>, lower: Option<Checkpoint>, upper: Checkpoint)
    requires Indexed(seen, ids, positions, partitions, accepted, lower, upper)
    ensures Acceptable(seen, lower, upper)
  {
    forall a, b | a in seen && b in seen && a.id == b.id ensures a == b {
      assert ids[a.id] == a;
    }
    forall a, b | a in seen && b in seen && a.partition == b.partition && a.position == b.position ensures a == b {
      assert positions[(a.partition, a.position)] == a;
    }
  }

  lemma IndexedNext(
      seen: seq<Event>, ids: map<string, Event>, positions: map<(string, Position), Event>,
      partitions: map<Columns, string>, accepted: seq<Event>, lower: Option<Checkpoint>, upper: Checkpoint, e: Event)
    requires Indexed(seen, ids, positions, partitions, accepted, lower, upper)
    requires e.id !in ids && (e.partition, e.position) !in positions && Within(e, upper)
    requires Above(e, lower) && e.key in partitions ==> partitions[e.key] == e.partition
    ensures var ids', positions' := ids[e.id := e], positions[(e.partition, e.position) := e];
            if Above(e, lower)
            then Indexed(seen + [e], ids', positions', partitions[e.key := e.partition], accepted + [e], lower, upper)
            else Indexed(seen + [e], ids', positions', partitions, accepted, lower, upper)
  {
    hide IdsTrack, PartitionsTrack, Above, Within;
    forall i | 0 <= i < |accepted|
      ensures accepted[i].partition != e.partition || accepted[i].position != e.position
    {
      assert accepted[i] in seen;
    }
    EventTrackedNext(seen, ids, positions, e);
    if Above(e, lower) {
      PartitionsTrackNext(accepted, partitions, e);
    }
  }

  /** The counters move with the set of distinct events. */
  lemma CountersNext(seen: seq<Event>, e: Event, lower: Option<Checkpoint>)
    ensures |ToSet(seen + [e])| == |ToSet(seen)| + (if e in seen then 0 else 1)
    ensures |CommittedIn(seen + [e], lower)| ==
            |CommittedIn(seen, lower)| + (if e in seen || Above(e, lower) then 0 else 1)
  {
    assert ToSet(seen + [e]) == ToSet(seen) + {e};
    if e in seen {
      assert ToSet(seen + [e]) == ToSet(seen);
    }
    if e in seen || Above(e, lower) {
      assert CommittedIn(seen + [e], lower) == CommittedIn(seen, lower);
    } else {
      assert CommittedIn(seen + [e], lower) == CommittedIn(seen, lower) + {e};
    }
  }

  /** Two different delivered events that no single log can contain refute acceptance. */
  lemma PairRefutes(
      a: Event, b: Event, events: seq<Event>, lower: Option<Checkpoint>, upper: Checkpoint, complete: bool)
    requires a in events && b in events && a != b
    ensures a.id == b.id ==>
              !Acceptable(events, lower, upper) && Refused(ConflictingEventId, events, lower, upper, complete)
    ensures a.partition == b.partition && a.position == b.position ==>
              !Acceptable(events, lower, upper) && Refused(SharedPosition, events, lower, upper, complete)
    ensures Above(a, lower) && Above(b, lower) && a.key == b.key && a.partition != b.partition ==>
              !Acceptable(events, lower, upper) && Refused(KeyAcrossPartitions, events, lower, upper, complete)
  {
  }

  lemma EventRefutes(e: Event, events: seq<Event>, lower: Option<Checkpoint>, upper: Checkpoint, complete: bool)
    requires e in events
    ensures e.partition !in upper ==>
              !Acceptable(events, lower, upper) && Refused(PartitionNotInUpper, events, lower, upper, complete)
    ensures e.partition in upper && LexLess(upper[e.partition], e.position) ==>
              !Acceptable(events, lower, upper) && Refused(BeyondUpper, events, lower, upper, complete)
  {
    if e.partition in upper {
      LexTotal(upper[e.partition], e.position);
    }
  }

  /** Partition by partition in the order of their names, and in each partition in the order of its positions. */
  ghost predicate ListedInOrder(es: seq<Event>) {
    forall i, j | 0 <= i < j < |es| ::
      if es[i].partition == es[j].partition then LexLess(es[i].position, es[j].position)
      else LexLess(Codes(es[i].partition), Codes(es[j].partition))
  }

  /** No event lies beyond its partition's upper position, and those are taken that lie beyond the lower one or in a
      partition without one; no lower position lies beyond the upper one. */
  ghost predicate TakenFrom(events: seq<Event>, lower: Option<Checkpoint>, upper: Checkpoint, taken: seq<Event>) {
    && (forall e | e in events :: e.partition in upper && !LexLess(upper[e.partition], e.position))
    && (forall e :: e in taken <==>
          e in events && (lower.None? || e.partition !in lower.value || LexLess(lower.value[e.partition], e.position)))
    && (lower.Some? ==> forall p | p in lower.value :: p in upper && !LexLess(upper[p], lower.value[p]))
  }

  lemma WhatIsTaken(events: seq<Event>, lower: Option<Checkpoint>, upper: Checkpoint, taken: seq<Event>)
    requires ValidWindow(lower, upper) && Acceptable(events, lower, upper) && StrictlyOrdered(taken)
    requires forall e :: e in taken <==> e in events && Above(e, lower)
    ensures ListedInOrder(taken) && TakenFrom(events, lower, upper, taken)
  {
    forall e | e in events
      ensures e.partition in upper && !LexLess(upper[e.partition], e.position)
      ensures Above(e, lower) <==> (lower.None? || e.partition !in lower.value || LexLess(lower.value[e.partition], e.position))
    {
      LexTotal(upper[e.partition], e.position);
      if lower.Some? && e.partition in lower.value {
        LexTotal(lower.value[e.partition], e.position);
      }
    }
    if lower.Some? {
      forall p | p in lower.value ensures p in upper && !LexLess(upper[p], lower.value[p]) {
        LexTotal(upper[p], lower.value[p]);
      }
    }
    forall i, j | 0 <= i < j < |taken|
      ensures if taken[i].partition == taken[j].partition then LexLess(taken[i].position, taken[j].position)
              else LexLess(Codes(taken[i].partition), Codes(taken[j].partition))
    {
      assert Before(taken[i], taken[j]);
      LexIrreflexive(Codes(taken[i].partition));
    }
  }

  method NormalizeCdcBatch(events: seq<Event>, upper: Checkpoint, lower: Option<Checkpoint>, complete: bool)
    returns (r: Result<Batch, CaptureError>)
    ensures r.Ok? <==> complete && ValidWindow(lower, upper) && Acceptable(events, lower, upper)
    ensures r.Ok? ==> IsNormalized(events, lower, upper, r.value)
    ensures r.Err? ==> Refused(r.error, events, lower, upper, complete)
    ensures r.Ok? ==> ListedInOrder(r.value.events) && TakenFrom(events, lower, upper, r.value.events)
  {
    if !complete {
      return Err(NotComplete);
    }
    if !ValidWindow(lower, upper) {
      return Err(WindowDroppedOrRegressed);
    }
    var seenIds: map<string, Event> := map[];
    var seenPositions: map<(string, Position), Event> := map[];
    var keyPartitions: map<Columns, string> := map[];
    var accepted: seq<Event> := [];
    var duplicates: nat, committed: nat := 0, 0;
    for i := 0 to |events|
      invariant Indexed(events[..i], seenIds, seenPositions, keyPartitions, accepted, lower, upper)
      invariant duplicates == i - |ToSet(events[..i])|
      invariant committed == |CommittedIn(events[..i], lower)|
    {
      var e := events[i];
      assert events[..i + 1] == events[..i] + [e];
      CountersNext(events[..i], e, lower);
      if e.id in seenIds {
        if seenIds[e.id] != e {
          PairRefutes(seenIds[e.id], e, events, lower, upper, complete);
          return Err(ConflictingEventId);
        }
        assert forall x :: x in events[..i + 1] <==> x in events[..i];
        duplicates := duplicates + 1;
        continue;
      }
      if (e.partition, e.position) in seenPositions {
        PairRefutes(seenPositions[(e.partition, e.position)], e, events, lower, upper, complete);
        return Err(SharedPosition);
      }
      EventRefutes(e, events, lower, upper, complete);
      if e.partition !in upper {
        return Err(PartitionNotInUpper);
      }
      LexTotal(upper[e.partition], e.position);
      if LexLess(upper[e.partition], e.position) {
        return Err(BeyondUpper);
      }
      if lower.Some? && e.partition in lower.value && LexLeq(e.position, lower.value[e.partition]) {
        IndexedNext(events[..i], seenIds, seenPositions, keyPartitions, accepted, lower, upper, e);
        committed := committed + 1;
      } else {
        if e.key in keyPartitions && keyPartitions[e.key] != e.partition {
          ghost var other :| other in accepted && other.key == e.key && other.partition == keyPartitions[e.key];
          PairRefutes(other, e, events, lower, upper, complete);
          return Err(KeyAcrossPartitions);
        }
        IndexedNext(events[..i], seenIds, seenPositions, keyPartitions, accepted, lower, upper, e);
        keyPartitions := keyPartitions[e.key := e.partition];
        accepted := accepted + [e];
      }
      seenIds := seenIds[e.id := e];
      seenPositions := seenPositions[(e.partition, e.position) := e];
    }
    assert events[..|events|] == events;
    IndexedIsAcceptable(events, seenIds, seenPositions, keyPartitions, accepted, lower, upper);
    SortEventsSorts(accepted);
    WhatIsTaken(events, lower, upper, SortEvents(accepted));
    r := Ok(Batch(SortEvents(accepted), lower, upper, duplicates, committed));
  }

  // ---------------------------------------------------------------- order-freeness

  /** Acceptance and the normalised batch depend on the multiset of delivered events only. */
  lemma NormalizationIsOrderFree(
      es: seq<Event>, fs: seq<Event>, lower: Option<Checkpoint>, upper: Checkpoint, b: Batch, c: Batch)
    requires multiset(es) == multiset(fs)
    ensures Acceptable(es, lower, upper) <==> Acceptable(fs, lower, upper)
    ensures IsNormalized(es, lower, upper, b) && IsNormalized(fs, lower, upper, c) ==> b == c
  {
    assert forall e :: e in es <==> e in multiset(es);
    assert forall e :: e in fs <==> e in multiset(fs);
    assert ToSet(es) == ToSet(fs);
    assert |es| == |multiset(es)| == |multiset(fs)| == |fs|;
    if IsNormalized(es, lower, upper, b) && IsNormalized(fs, lower, upper, c) {
      StrictOrderIsUnique(b.events, c.events);
      assert CommittedIn(es, lower) == CommittedIn(fs, lower);
    }
  }

  /** Redelivering events that were already delivered changes nothing but the duplicate counter. */
  lemma RedeliveryIsInvisible(
      es: seq<Event>, extra: seq<Event>, lower: Option<Checkpoint>, upper: Checkpoint, b: Batch, c: Batch)
    requires forall e | e in extra :: e in es
    ensures Acceptable(es + extra, lower, upper) <==> Acceptable(es, lower, upper)
    ensures IsNormalized(es, lower, upper, b) && IsNormalized(es + extra, lower, upper, c) ==>
              c == b.(duplicatesIgnored := b.duplicatesIgnored + |extra|)
  {
    assert forall e :: e in es + extra <==> e in es;
    if IsNormalized(es, lower, upper, b) && IsNormalized(es + extra, lower, upper, c) {
      StrictOrderIsUnique(b.events, c.events);
      assert ToSet(es + extra) == ToSet(es);
      assert CommittedIn(es + extra, lower) == CommittedIn(es, lower);
    }
  }

  /** Every delivered event is a duplicate, already committed, or normalised: exactly one of them. */
  lemma EveryEventIsCountedOnce(es: seq<Event>, lower: Option<Checkpoint>, upper: Checkpoint, b: Batch)
    requires IsNormalized(es, lower, upper, b)
    ensures |es| == |b.events| + b.duplicatesIgnored + b.alreadyCommittedIgnored
    ensures forall e | e in b.events && Acceptable(es, lower, upper) :: Above(e, lower) && Within(e, upper)
  {
    assert ToSet(es) == ToSet(b.events) + CommittedIn(es, lower);
    assert ToSet(b.events) !! CommittedIn(es, lower);
    StrictOrderHasNoRepeats(b.events);
  }

  lemma {:induction false} StrictOrderHasNoRepeats(es: seq<Event>)
    requires StrictlyOrdered(es)
    ensures |ToSet(es)| == |es|
  {
    if es != [] {
      var prefix, last := es[..|es| - 1], es[|es| - 1];
      StrictOrderHasNoRepeats(prefix);
      BeforeTotal(last, last);
      assert ToSet(es) == ToSet(prefix) + {last};
      assert last !in prefix;
    }
  }

  // ---------------------------------------------------------------- the normalised batch as a function

  /** Each event above the lower checkpoint once, in the order of first delivery. */
  function FirstDeliveries(events: seq<Event>, lower: Option<Checkpoint>): seq<Event> {
    if events == [] then []
    else
      var prefix := FirstDeliveries(events[..|events| - 1], lower);
      var e := events[|events| - 1];
      if e in prefix || !Above(e, lower) then prefix else prefix + [e]
  }

  predicate NoRepeats(es: seq<Event>) {
    forall i, j | 0 <= i < j < |es| :: es[i] != es[j]
  }

  function NormalizedEvents(events: seq<Event>, lower: Option<Checkpoint>): seq<Event> {
    SortEvents(FirstDeliveries(events, lower))
  }

  lemma {:induction false} FirstDeliveriesAre(events: seq<Event>, lower: Option<Checkpoint>)
    ensures forall e :: e in FirstDeliveries(events, lower) <==> e in events && Above(e, lower)
    ensures NoRepeats(FirstDeliveries(events, lower))
  {
    if events != [] {
      var prefix, e := events[..|events| - 1], events[|events| - 1];
      FirstDeliveriesAre(prefix, lower);
      assert events == prefix + [e];
    }
  }

  /** What normalize_cdc_batch returns for an acceptable input. */
  lemma NormalizedEventsAre(events: seq<Event>, lower: Option<Checkpoint>, upper: Checkpoint)
    requires Acceptable(events, lower, upper)
    ensures StrictlyOrdered(NormalizedEvents(events, lower))
    ensures forall e :: e in NormalizedEvents(events, lower) <==> e in events && Above(e, lower)
    ensures forall b :: IsNormalized(events, lower, upper, b) ==> b.events == NormalizedEvents(events, lower)
  {
    FirstDeliveriesAre(events, lower);
    var d := FirstDeliveries(events, lower);
    forall i, j | 0 <= i < j < |d| ensures d[i].partition != d[j].partition || d[i].position != d[j].position {
      assert d[i] in events && d[j] in events;
      assert d[i] != d[j];
    }
    SortEventsSorts(d);
    forall b | IsNormalized(events, lower, upper, b) ensures b.events == NormalizedEvents(events, lower) {
      StrictOrderIsUnique(b.events, NormalizedEvents(events, lower));
    }
  }
}
