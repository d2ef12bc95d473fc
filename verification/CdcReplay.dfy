/** Replaying CDC events on a current-state target: what one key sees of a batch, and why applying
    events a second time changes nothing (apply/cdc.py). */
module CdcReplay {
  import opened Common
  import opened SourceOrder
  import opened CdcCapture
  import opened CdcCurrentState

  // ---------------------------------------------------------------- a batch, key by key

  /** The events applied to the row of one key. */
  function FoldRow(start: Option<Row>, es: seq<Event>, policy: Policy): Result<Option<Row>, ApplyError> {
    if es == [] then Ok(start)
    else
      var s := FoldRow(start, es[..|es| - 1], policy);
      if s.Err? then s else
      var step := ApplyEvent(s.value, es[|es| - 1], policy);
      if step.Err? then Err(step.error) else Ok(step.value.row)
  }

  /** The events of one key, in order. */
  function KeyEvents(es: seq<Event>, mergeKey: seq<string>, k: Key): seq<Event> {
    if es == [] then []
    else
      var prefix := KeyEvents(es[..|es| - 1], mergeKey, k);
      if EventKey(es[|es| - 1], mergeKey) == Some(k) then prefix + [es[|es| - 1]] else prefix
  }

  lemma {:induction false} KeyEventsAre(es: seq<Event>, mergeKey: seq<string>, k: Key)
    ensures forall e :: e in KeyEvents(es, mergeKey, k) <==> e in es && EventKey(e, mergeKey) == Some(k)
    ensures StrictlyOrdered(es) ==> StrictlyOrdered(KeyEvents(es, mergeKey, k))
  {
    hide Before, EventKey;
    if es != [] {
      var prefix, last := es[..|es| - 1], es[|es| - 1];
      KeyEventsAre(prefix, mergeKey, k);
      assert es == prefix + [last];
      if StrictlyOrdered(es) {
        forall e | e in KeyEvents(prefix, mergeKey, k) ensures Before(e, last) {
          assert e in prefix;
        }
      }
    }
  }

  /** What the last event of a batch does to one key. */
  lemma LastEventOfKey(start: Option<Row>, es: seq<Event>, policy: Policy, k: Key)
    requires es != []
    ensures var last := es[|es| - 1];
            var before := FoldRow(start, KeyEvents(es[..|es| - 1], policy.mergeKey, k), policy);
            FoldRow(start, KeyEvents(es, policy.mergeKey, k), policy) ==
            if before.Err? || EventKey(last, policy.mergeKey) != Some(k) then before
            else
              var step := ApplyEvent(before.value, last, policy);
              if step.Err? then Err(step.error) else Ok(step.value.row)
  {
    hide ApplyEvent, EventKey;
    var events, last := KeyEvents(es[..|es| - 1], policy.mergeKey, k), es[|es| - 1];
    assert (events + [last])[..|events|] == events;
  }

  /** A batch treats every key on its own: the row of a key is the fold of the events of that key. */
  lemma {:induction false} TableFoldIsKeywise(t: Table, es: seq<Event>, policy: Policy, k: Key)
    requires FoldTable(t, es, policy).Ok?
    ensures FoldRow(Find(t, k), KeyEvents(es, policy.mergeKey, k), policy) ==
            Ok(Find(FoldTable(t, es, policy).value.table, k))
    decreases |es|
  {
    hide ApplyEvent, EventKey;
    if es != [] {
      TableFoldIsKeywise(t, es[..|es| - 1], policy, k);
      LastEventOfKey(Find(t, k), es, policy, k);
    }
  }

  /** A batch succeeds as soon as every key does. */
  lemma {:induction false} KeywiseFoldSucceeds(t: Table, es: seq<Event>, policy: Policy)
    requires forall e | e in es :: EventKey(e, policy.mergeKey).Some?
    requires forall k :: FoldRow(Find(t, k), KeyEvents(es, policy.mergeKey, k), policy).Ok?
    ensures FoldTable(t, es, policy).Ok?
    decreases |es|
  {
    hide ApplyEvent, EventKey, KeyEvents, FoldRow;
    if es != [] {
      var prefix, last := es[..|es| - 1], es[|es| - 1];
      forall k ensures FoldRow(Find(t, k), KeyEvents(prefix, policy.mergeKey, k), policy).Ok? {
        LastEventOfKey(Find(t, k), es, policy, k);
      }
      KeywiseFoldSucceeds(t, prefix, policy);
      assert last in es;
      var k := EventKey(last, policy.mergeKey).value;
      TableFoldIsKeywise(t, prefix, policy, k);
      LastEventOfKey(Find(t, k), es, policy, k);
    }
  }

  lemma {:induction false} FoldRowSplits(start: Option<Row>, a: seq<Event>, b: seq<Event>, policy: Policy)
    ensures FoldRow(start, a + b, policy) ==
            if FoldRow(start, a, policy).Err? then FoldRow(start, a, policy)
            else FoldRow(FoldRow(start, a, policy).value, b, policy)
  {
    hide ApplyEvent;
    if b == [] {
      assert a + b == a;
    } else {
      FoldRowSplits(start, a, b[..|b| - 1], policy);
      assert (a + b)[..|a + b| - 1] == a + b[..|b| - 1];
    }
  }

  // ---------------------------------------------------------------- the events of one key

  /** Events of one partition in strictly rising order. Their positions may differ in length. */
  ghost predicate Rising(es: seq<Event>, p: string) {
    && (forall e | e in es :: e.partition == p && e.position != [])
    && (forall i, j | 0 <= i < j < |es| :: LexLess(es[i].position, es[j].position))
  }

  /** Rising events whose positions have one length. */
  ghost predicate Chain(es: seq<Event>, p: string, n: nat) {
    n > 0 && Rising(es, p) && forall e | e in es :: |e.position| == n
  }

  lemma RisingParts(a: seq<Event>, b: seq<Event>, c: seq<Event>, p: string)
    requires Rising(a + b + c, p)
    ensures Rising(a, p) && Rising(b, p) && Rising(c, p) && Rising(a + b, p) && Rising(b + c, p)
  {
    hide Rising;
    var whole := a + b + c;
    RisingSlice(whole, 0, |a|, p);
    RisingSlice(whole, |a|, |a| + |b|, p);
    RisingSlice(whole, |a| + |b|, |whole|, p);
    RisingSlice(whole, 0, |a| + |b|, p);
    RisingSlice(whole, |a|, |whole|, p);
    assert whole[0..|a|] == a && whole[|a|..|a| + |b|] == b && whole[|a| + |b|..|whole|] == c;
    assert whole[0..|a| + |b|] == a + b && whole[|a|..|whole|] == b + c;
  }

  lemma RisingSlice(es: seq<Event>, i: nat, j: nat, p: string)
    requires Rising(es, p) && i <= j <= |es|
    ensures Rising(es[i..j], p)
  {
    hide LexLess;
    var s := es[i..j];
    forall x, y | 0 <= x < y < |s| ensures LexLess(s[x].position, s[y].position) {
      assert s[x] == es[i + x] && s[y] == es[i + y];
    }
  }

  lemma ChainParts(a: seq<Event>, b: seq<Event>, c: seq<Event>, p: string, n: nat)
    requires Chain(a + b + c, p, n)
    ensures Chain(a, p, n) && Chain(b, p, n) && Chain(c, p, n)
  {
    RisingParts(a, b, c, p);
    assert forall e :: e in a + b + c <==> e in a || e in b || e in c;
  }

  /** Rows that CDC has touched carry a position or at least a partition; rows of a snapshot carry neither. */
  predicate Stamped(row: Option<Row>) {
    row.Some? ==> row.value.partition.Some? || row.value.position.Some?
  }

  // ---------------------------------------------------------------- the lower checkpoint

  /** The lower checkpoint matters only to rows without metadata: from an absent key, or from a row that CDC has
      touched, every checkpoint gives the same result. */
  lemma {:induction false} StampedIgnoresLower(
      start: Option<Row>, es: seq<Event>, policy: Policy, later: Option<Checkpoint>)
    requires Stamped(start)
    ensures FoldRow(start, es, policy.(lower := later)) == FoldRow(start, es, policy)
    ensures FoldRow(start, es, policy).Ok? ==> Stamped(FoldRow(start, es, policy).value)
    decreases |es|
  {
    if es != [] {
      StampedIgnoresLower(start, es[..|es| - 1], policy, later);
    }
  }

  /** `later` is at or above `earlier` and below the events. */
  ghost predicate Past(later: Option<Checkpoint>, earlier: Option<Checkpoint>, es: seq<Event>, p: string) {
    earlier.Some? && p in earlier.value ==>
      && later.Some?
      && p in later.value
      && forall e | e in es :: LexLess(later.value[p], e.position)
  }

  /** Events that an untouched row may meet before it gets a position: the first one, and those after nothing
      but ignored deletes. */
  predicate Leading(es: seq<Event>, i: nat, ignoresDeletes: bool)
    requires i <= |es|
  {
    i == 0 || (ignoresDeletes && forall j | 0 <= j < i :: es[j].change.Delete?)
  }

  /** The checkpoint holds a position of the event's length in its partition. */
  predicate SameLengthAt(c: Option<Checkpoint>, e: Event) {
    c.Some? && e.partition in c.value && |c.value[e.partition]| == |e.position|
  }

  /** The leading events of a retry have the length of the committed checkpoint. */
  ghost predicate LeadingFit(es: seq<Event>, ignoresDeletes: bool, later: Option<Checkpoint>) {
    forall i | 0 <= i < |es| && Leading(es, i, ignoresDeletes) :: SameLengthAt(later, es[i])
  }

  lemma LeadingOfPrefix(es: seq<Event>, ignoresDeletes: bool, later: Option<Checkpoint>)
    requires es != []
    ensures var n := |es| - 1;
            && Leading(es[..n], n, ignoresDeletes) == Leading(es, n, ignoresDeletes)
            && (Leading(es, n + 1, ignoresDeletes) <==> ignoresDeletes && es[n].change.Delete? && Leading(es, n, ignoresDeletes))
            && (LeadingFit(es, ignoresDeletes, later) <==>
                  LeadingFit(es[..n], ignoresDeletes, later) && (Leading(es, n, ignoresDeletes) ==> SameLengthAt(later, es[n])))
  {
    hide SameLengthAt;
    var prefix := es[..|es| - 1];
    assert forall i | 0 <= i <= |prefix| :: Leading(prefix, i, ignoresDeletes) == Leading(es, i, ignoresDeletes);
    if LeadingFit(es, ignoresDeletes, later) {
      forall i | 0 <= i < |prefix| && Leading(prefix, i, ignoresDeletes) ensures SameLengthAt(later, prefix[i]) {
        assert SameLengthAt(later, es[i]);
      }
    } else {
      var i :| 0 <= i < |es| && Leading(es, i, ignoresDeletes) && !SameLengthAt(later, es[i]);
      assert i < |prefix| ==> !SameLengthAt(later, prefix[i]);
    }
  }

  /** A row without metadata stays as it is through its leading events and is stamped or deleted by the next. */
  lemma {:induction false} UntouchedUntilStamped(row: Row, es: seq<Event>, policy: Policy)
    requires !Stamped(Some(row)) && FoldRow(Some(row), es, policy).Ok?
    ensures var end := FoldRow(Some(row), es, policy).value;
            if Leading(es, |es|, policy.onDelete.Ignore?) then end == Some(row) else Stamped(end)
    decreases |es|
  {
    if es != [] {
      UntouchedUntilStamped(row, es[..|es| - 1], policy);
      LeadingOfPrefix(es, policy.onDelete.Ignore?, None);
    }
  }

  /** One event on a row without metadata, from a later checkpoint. */
  lemma UntouchedEvent(row: Row, e: Event, policy: Policy, later: Option<Checkpoint>, p: string)
    requires !Stamped(Some(row)) && e.partition == p && Past(later, policy.lower, [e], p)
    requires ApplyEvent(Some(row), e, policy).Ok?
    ensures var again := ApplyEvent(Some(row), e, policy.(lower := later));
            && (again.Ok? <==> SameLengthAt(later, e))
            && (again.Ok? ==> again == ApplyEvent(Some(row), e, policy))
  {
    assert e in [e];
    LexTotal(e.position, policy.lower.value[p]);
    LexTotal(e.position, later.value[p]);
  }

  lemma StampedEvent(row: Option<Row>, e: Event, policy: Policy, later: Option<Checkpoint>)
    requires Stamped(row)
    ensures ApplyEvent(row, e, policy.(lower := later)) == ApplyEvent(row, e, policy)
  {
  }

  lemma NoneLeading(es: seq<Event>, ignoresDeletes: bool, later: Option<Checkpoint>)
    requires es == []
    ensures LeadingFit(es, ignoresDeletes, later)
  {
  }

  /** A row without metadata accepts the same events from a later checkpoint exactly when the events that it meets
      before it is stamped have the length of that checkpoint. */
  lemma {:induction false} UntouchedRowExactlyWhen(
      row: Row, es: seq<Event>, policy: Policy, later: Option<Checkpoint>, p: string)
    requires !Stamped(Some(row)) && (forall e | e in es :: e.partition == p)
    requires Past(later, policy.lower, es, p) && FoldRow(Some(row), es, policy).Ok?
    ensures var again := FoldRow(Some(row), es, policy.(lower := later));
            && (again.Ok? <==> LeadingFit(es, policy.onDelete.Ignore?, later))
            && (again.Ok? ==> again == FoldRow(Some(row), es, policy))
    decreases |es|
  {
    hide ApplyEvent, Leading, SameLengthAt, LeadingFit;
    var ignores := policy.onDelete.Ignore?;
    if es == [] {
      NoneLeading(es, ignores, later);
    } else {
      var prefix, last := es[..|es| - 1], es[|es| - 1];
      assert last in es;
      UntouchedRowExactlyWhen(row, prefix, policy, later, p);
      UntouchedUntilStamped(row, prefix, policy);
      LeadingOfPrefix(es, ignores, later);
      if Leading(prefix, |prefix|, ignores) {
        UntouchedEvent(row, last, policy, later, p);
      } else {
        StampedEvent(FoldRow(Some(row), prefix, policy).value, last, policy, later);
      }
    }
  }

  // ---------------------------------------------------------------- replay on the row that was written

  /** What a row does with an event that it has taken in before: equal lengths leave it alone, others cannot be
      compared. */
  ghost predicate TakenIn(row: Row, e: Event, policy: Policy) {
    row.position.Some? &&
      var again := ApplyEvent(Some(row), e, policy);
      if |e.position| == |row.position.value.values| then
        && again.Ok? && again.value.row == Some(row)
        && (again.value.outcome.StaleIgnored? || again.value.outcome.NoChange? || again.value.outcome.PolicyIgnored?)
      else again == Err(NotComparable)
  }

  /** The row an event wrote takes in the event itself and everything before it. */
  lemma WrittenRowAbsorbs(current: Columns, last: Event, e: Event, policy: Policy)
    requires !last.change.Delete? && last.position != [] && e.position != []
    requires e == last || (e.partition == last.partition && LexLess(e.position, last.position))
    ensures TakenIn(Candidate(current, last, policy.mergeKey), e, policy)
  {
    LexTotal(e.position, last.position);
    var row := Candidate(current, last, policy.mergeKey);
    if e == last {
      assert Candidate(row.data, last, policy.mergeKey).data == row.data;
    }
  }

  /** An event that left a row as it was does so again. */
  lemma UnchangedStaysUnchanged(row: Row, e: Event, policy: Policy)
    requires row.position.Some? && ApplyEvent(Some(row), e, policy).Ok? && ApplyEvent(Some(row), e, policy).value.row == Some(row)
    ensures TakenIn(row, e, policy)
  {
    LexIrreflexive(e.position);
  }

  /** A row with a position that came out of rising events takes in each of them. */
  lemma {:induction false} ResultTakesInItsEvents(
      start: Option<Row>, es: seq<Event>, policy: Policy, p: string, row: Row, e: Event)
    requires Rising(es, p) && FoldRow(start, es, policy) == Ok(Some(row)) && row.position.Some? && e in es
    ensures TakenIn(row, e, policy)
    decreases |es|
  {
    hide TakenIn;
    var prefix, last := es[..|es| - 1], es[|es| - 1];
    assert last in es;
    var before := FoldRow(start, prefix, policy).value;
    if before == Some(row) {
      if e in prefix {
        ResultTakesInItsEvents(start, prefix, policy, p, row, e);
      } else {
        assert e == last;
        UnchangedStaysUnchanged(row, last, policy);
      }
    } else {
      assert e == last || LexLess(e.position, last.position);
      var base := if before.Some? then before.value.data else map[];
      assert row == Candidate(base, last, policy.mergeKey);
      WrittenRowAbsorbs(base, last, e, policy);
    }
  }

  /** Any part of the events that led to a row is accepted again, and then leaves the row alone, exactly when its
      positions have the length of the stored one. The checkpoint that the replay starts from plays no part. */
  lemma {:induction false} ReplayExactlyWhen(
      start: Option<Row>, es: seq<Event>, replayed: seq<Event>, policy: Policy, later: Option<Checkpoint>, p: string,
      row: Row)
    requires Rising(es, p) && FoldRow(start, es, policy) == Ok(Some(row)) && row.position.Some?
    requires forall e | e in replayed :: e in es
    ensures FoldRow(Some(row), replayed, policy.(lower := later)) ==
            if forall e | e in replayed :: |e.position| == |row.position.value.values| then Ok(Some(row)) else Err(NotComparable)
    decreases |replayed|
  {
    hide ApplyEvent;
    if replayed != [] {
      var prefix, last := replayed[..|replayed| - 1], replayed[|replayed| - 1];
      assert replayed == prefix + [last];
      ReplayExactlyWhen(start, es, prefix, policy, later, p, row);
      ResultTakesInItsEvents(start, es, policy, p, row, last);
      StampedEvent(Some(row), last, policy, later);
    }
  }

  // ---------------------------------------------------------------- the form of a stored position

  /** An INSERT or UPDATE at the very position of the stored row is accepted exactly when it would write the same
      data and the stored position is still a tuple. */
  lemma OwnEventNeedsTheTuple(row: Row, e: Event, policy: Policy)
    requires !e.change.Delete? && e.position != []
    requires row.partition == Some(e.partition) && row.Values() == Some(e.position)
    ensures var again := ApplyEvent(Some(row), e, policy);
            && (again.Ok? <==> row.position.value.AsTuple? && Candidate(row.data, e, policy.mergeKey).data == row.data)
            && (again.Ok? ==> again.value == Step(Some(row), NoChange))
            && (again.Err? ==> again.error == EqualPositionConflict)
  {
    LexIrreflexive(e.position);
  }

  /** The row with its position returned in some form. */
  function Returned(row: Row, form: StoredPosition): Row {
    row.(position := Some(form))
  }

  /** The event can be replayed on a row whose position came back in this form. */
  predicate MeetsForm(form: StoredPosition, e: Event) {
    && |e.position| == |form.values|
    && (form.AsTuple? || e.change.Delete? || e.position != form.values)
  }

  lemma ReturnedRowTakesIn(row: Row, form: StoredPosition, e: Event, policy: Policy)
    requires row.position == Some(AsTuple(form.values)) && TakenIn(row, e, policy)
    ensures var again := ApplyEvent(Some(Returned(row, form)), e, policy);
            && (again.Ok? <==> MeetsForm(form, e))
            && (again.Ok? ==> again.value.row == Some(Returned(row, form)))
  {
    LexIrreflexive(e.position);
  }

  /** A row whose position was written as a tuple and comes back in some form: a part of its events is accepted again
      exactly when their positions have its length and, for a list, the event that wrote the row is not among them. */
  lemma {:induction false} ReturnedFormExactlyWhen(
      start: Option<Row>, es: seq<Event>, replayed: seq<Event>, policy: Policy, later: Option<Checkpoint>, p: string,
      row: Row, form: StoredPosition)
    requires Rising(es, p) && FoldRow(start, es, policy) == Ok(Some(row)) && row.position == Some(AsTuple(form.values))
    requires forall e | e in replayed :: e in es
    ensures var again := FoldRow(Some(Returned(row, form)), replayed, policy.(lower := later));
            && (again.Ok? <==> forall e | e in replayed :: MeetsForm(form, e))
            && (again.Ok? ==> again == Ok(Some(Returned(row, form))))
    decreases |replayed|
  {
    hide ApplyEvent, MeetsForm, TakenIn;
    if replayed != [] {
      var prefix, last := replayed[..|replayed| - 1], replayed[|replayed| - 1];
      assert replayed == prefix + [last];
      ReturnedFormExactlyWhen(start, es, prefix, policy, later, p, row, form);
      ResultTakesInItsEvents(start, es, policy, p, row, last);
      ReturnedRowTakesIn(row, form, last, policy);
      StampedEvent(Some(Returned(row, form)), last, policy, later);
    }
  }

  // ---------------------------------------------------------------- replay on an absent key

  lemma {:induction false} OnlyAppliedDeletesRemove(start: Option<Row>, es: seq<Event>, policy: Policy)
    requires !policy.onDelete.Apply? && FoldRow(start, es, policy) == Ok(None)
    ensures start.None?
    decreases |es|
  {
    if es != [] {
      OnlyAppliedDeletesRemove(start, es[..|es| - 1], policy);
    }
  }

  /** How a replay from the absent key stands to the first application, while that has not deleted the row yet: the
      events seen so far have the length that the row can be compared with. */
  ghost predicate Comparable(row: Row, replayed: Option<Row>, es: seq<Event>, p: string, lower: Option<Checkpoint>) {
    && (forall e | e in es :: if row.position.Some? then |e.position| == |row.position.value.values| else SameLengthAt(lower, e))
    && (replayed.Some? ==> replayed.value.partition == Some(p) && exists e :: e in es && replayed.value.Values() == Some(e.position))
  }

  ghost predicate Trails(
      first: Option<Row>, replayed: Result<Option<Row>, ApplyError>, es: seq<Event>, p: string,
      lower: Option<Checkpoint>) {
    && replayed.Ok?
    && (replayed.value == first || (first.Some? && Comparable(first.value, replayed.value, es, p, lower)))
  }

  lemma NextTrails(
      first: Option<Row>, replayed: Option<Row>, before: seq<Event>, e: Event, policy: Policy,
      later: Option<Checkpoint>, p: string)
    requires policy.onDelete.Apply? && Rising(before + [e], p)
    requires Trails(first, Ok(replayed), before, p, policy.lower) && Stamped(replayed)
    requires ApplyEvent(first, e, policy).Ok?
    ensures var again := ApplyEvent(replayed, e, policy.(lower := later));
            again.Ok? && Trails(ApplyEvent(first, e, policy).value.row, Ok(again.value.row), before + [e], p, policy.lower)
  {
    hide Comparable;
    StampedEvent(replayed, e, policy, later);
    if replayed != first {
      NextTrailsBehind(first.value, replayed, before, e, policy, p);
    }
  }

  /** The case in which the replay still lags behind the first application. */
  lemma NextTrailsBehind(first: Row, replayed: Option<Row>, before: seq<Event>, e: Event, policy: Policy, p: string)
    requires policy.onDelete.Apply? && Rising(before + [e], p) && Comparable(first, replayed, before, p, policy.lower)
    requires ApplyEvent(Some(first), e, policy).Ok? && Stamped(replayed)
    ensures var next, again := ApplyEvent(Some(first), e, policy).value.row, ApplyEvent(replayed, e, policy);
            && again.Ok?
            && (next.None? ==> again.value.row.None?)
            && (next.Some? ==> Comparable(next.value, again.value.row, before + [e], p, policy.lower))
  {
    assert e in before + [e] && (before + [e])[|before|] == e;
    if replayed.Some? {
      RisesAbove(before, e, p, replayed.value.Values());
    }
  }

  lemma RisesAbove(before: seq<Event>, e: Event, p: string, position: Option<Position>)
    requires Rising(before + [e], p) && exists f :: f in before && position == Some(f.position)
    ensures LexLess(position.value, e.position) && !LexLess(e.position, position.value) && e.position != position.value
    ensures e.partition == p && e.position != []
  {
    var f :| f in before && position == Some(f.position);
    var i :| 0 <= i < |before| && before[i] == f;
    assert (before + [e])[i] == f && (before + [e])[|before|] == e;
    assert e in before + [e];
    LexTotal(f.position, e.position);
  }

  lemma {:induction false} AbsentReplayTrails(
      start: Option<Row>, es: seq<Event>, policy: Policy, later: Option<Checkpoint>, p: string)
    requires policy.onDelete.Apply? && Rising(es, p) && FoldRow(start, es, policy).Ok?
    ensures Trails(FoldRow(start, es, policy).value, FoldRow(None, es, policy.(lower := later)), es, p, policy.lower)
    decreases |es|
  {
    hide ApplyEvent, Trails, Rising;
    if es == [] {
      TrailsAtFirst(start, p, policy.lower);
    } else {
      var prefix, last := es[..|es| - 1], es[|es| - 1];
      assert es == prefix + [last];
      assert prefix + [last] + [] == es;
      RisingParts(prefix, [last], [], p);
      AbsentReplayTrails(start, prefix, policy, later, p);
      StampedIgnoresLower(None, prefix, policy, later);
      TrailsSucceeds(FoldRow(start, prefix, policy).value, FoldRow(None, prefix, policy.(lower := later)), prefix, p, policy.lower);
      NextTrails(FoldRow(start, prefix, policy).value, FoldRow(None, prefix, policy.(lower := later)).value, prefix, last,
                 policy, later, p);
    }
  }

  lemma TrailsAtFirst(start: Option<Row>, p: string, lower: Option<Checkpoint>)
    ensures Trails(start, Ok(None), [], p, lower)
  {
  }

  lemma TrailsSucceeds(
      first: Option<Row>, replayed: Result<Option<Row>, ApplyError>, es: seq<Event>, p: string,
      lower: Option<Checkpoint>)
    requires Trails(first, replayed, es, p, lower)
    ensures replayed.Ok? && (first.None? ==> replayed.value.None?)
  {
  }

  /** Replaying events that ended with the row absent ends with the row absent again, from any checkpoint and for
      positions of any length: the target keeps no tombstone, but every row that the replay resurrects is deleted
      again by the same events. */
  lemma ReplayOnAbsent(start: Option<Row>, es: seq<Event>, policy: Policy, later: Option<Checkpoint>, p: string)
    requires Rising(es, p) && FoldRow(start, es, policy) == Ok(None)
    ensures FoldRow(None, es, policy.(lower := later)) == Ok(None)
  {
    if policy.onDelete.Apply? {
      AbsentReplayTrails(start, es, policy, later, p);
    } else {
      OnlyAppliedDeletesRemove(start, es, policy);
      StampedIgnoresLower(None, es, policy, later);
    }
  }

  // ---------------------------------------------------------------- crash and retry for one key

  /** The retry's events can be compared with what it meets: redelivered events with the stored position, and the
      first events of a row without one with the committed checkpoint. */
  ghost predicate Comparables(
      row: Option<Row>, redelivered: seq<Event>, delivered: seq<Event>, later: Option<Checkpoint>,
      onDelete: DeleteAction)
  {
    match row
    case None => true
    case Some(r) =>
      if r.position.Some? then forall e | e in redelivered :: |e.position| == |r.position.value.values|
      else LeadingFit(delivered, onDelete.Ignore?, later)
  }

  /** A row with half of its metadata accepts no event at all. */
  lemma {:induction false} HalfStampedAcceptsNothing(row: Row, es: seq<Event>, policy: Policy)
    requires row.position.None? && row.partition.Some? && FoldRow(Some(row), es, policy).Ok?
    ensures es == []
    decreases |es|
  {
    if es != [] {
      HalfStampedAcceptsNothing(row, es[..|es| - 1], policy);
    }
  }

  /** A row that still has no position was not touched by any event. */
  lemma {:induction false} UnplacedIsStart(start: Option<Row>, es: seq<Event>, policy: Policy, row: Row)
    requires FoldRow(start, es, policy) == Ok(Some(row)) && row.position.None?
    ensures start == Some(row)
    decreases |es|
  {
    if es != [] {
      UnplacedIsStart(start, es[..|es| - 1], policy, row);
    }
  }

  /** The retry on the row as it was written. */
  lemma RetryOnWrittenRow(
      start: Option<Row>, a: seq<Event>, b: seq<Event>, c: seq<Event>, policy: Policy, later: Option<Checkpoint>,
      p: string)
    requires Rising(a + b + c, p) && Past(later, policy.lower, b + c, p)
    requires FoldRow(start, a + b + c, policy).Ok?
    ensures FoldRow(start, a + b, policy).Ok?
    ensures var published := FoldRow(start, a + b, policy).value;
            var again := FoldRow(published, b + c, policy.(lower := later));
            && (again.Ok? <==> Comparables(published, b, b + c, later, policy.onDelete))
            && (again.Ok? ==> again == FoldRow(start, a + b + c, policy))
  {
    hide Rising, Past, FoldRow, LeadingFit;
    var policy' := policy.(lower := later);
    RisingParts(a, b, c, p);
    FoldRowSplits(start, a + b, c, policy);
    FoldRowSplits(start, a, b, policy);
    var published := FoldRow(start, a + b, policy).value;
    FoldRowSplits(published, b, c, policy');
    match published {
      case None =>
        ReplayOnAbsent(FoldRow(start, a, policy).value, b, policy, later, p);
        StampedIgnoresLower(None, c, policy, later);
      case Some(row) =>
        if row.position.Some? {
          ReplayExactlyWhen(start, a + b, b, policy, later, p, row);
          StampedIgnoresLower(published, c, policy, later);
        } else {
          UntouchedRetry(start, a, b, c, policy, later, p, row);
        }
    }
  }

  /** The case of a row without a stored position. */
  lemma UntouchedRetry(
      start: Option<Row>, a: seq<Event>, b: seq<Event>, c: seq<Event>, policy: Policy, later: Option<Checkpoint>,
      p: string, row: Row)
    requires Rising(a + b + c, p) && Past(later, policy.lower, b + c, p)
    requires FoldRow(start, a + b + c, policy).Ok? && FoldRow(start, a + b, policy) == Ok(Some(row)) && row.position.None?
    ensures var again := FoldRow(Some(row), b + c, policy.(lower := later));
            && (again.Ok? <==> LeadingFit(b + c, policy.onDelete.Ignore?, later))
            && (again.Ok? ==> again == FoldRow(start, a + b + c, policy))
  {
    hide Past, FoldRow, LeadingFit, ApplyEvent;
    UnplacedIsStart(start, a + b, policy, row);
    FoldRowSplits(start, a, b + c, policy);
    FoldRowSplits(start, a, b, policy);
    assert a + (b + c) == a + b + c;
    UnplacedIsStart(FoldRow(start, a, policy).value, b, policy, row);
    RisingParts(a, b, c, p);
    if row.partition.Some? {
      HalfStampedAcceptsNothing(row, b + c, policy);
      NoneLeading(b + c, policy.onDelete.Ignore?, later);
      NothingFolded(Some(row), b + c, policy);
      NothingFolded(Some(row), b + c, policy.(lower := later));
    } else {
      UntouchedRowExactlyWhen(row, b + c, policy, later, p);
    }
  }

  lemma NothingFolded(start: Option<Row>, es: seq<Event>, policy: Policy)
    requires es == []
    ensures FoldRow(start, es, policy) == Ok(start)
  {
  }

  // ---------------------------------------------------------------- rows that come back in another form

  /** The same row, but for the form of its position. */
  predicate SameUpToForm(a: Option<Row>, b: Option<Row>) {
    && a.Some? == b.Some?
    && (a.Some? ==> a.value.data == b.value.data && a.value.partition == b.value.partition && a.value.Values() == b.value.Values())
  }

  /** An INSERT or UPDATE at the very position of a row that holds it as a list. */
  predicate Clashes(row: Option<Row>, e: Event) {
    && row.Some? && row.value.position.Some? && row.value.position.value.AsList?
    && !e.change.Delete? && row.value.partition == Some(e.partition) && row.value.position.value.values == e.position
  }

  ghost predicate NoClash(row: Option<Row>, es: seq<Event>) {
    forall e | e in es :: !Clashes(row, e)
  }

  /** A list among the results is the row that was there at the start. */
  ghost predicate ListIsFrom(start: Option<Row>, row: Option<Row>) {
    row.Some? && row.value.position.Some? && row.value.position.value.AsList? ==> row == start
  }

  lemma FormOfEvent(row: Option<Row>, other: Option<Row>, e: Event, policy: Policy)
    requires SameUpToForm(row, other) && ApplyEvent(row, e, policy).Ok? && e.position != []
    ensures var again := ApplyEvent(other, e, policy);
            && (again.Ok? <==> !Clashes(other, e))
            && (again.Ok? ==>
                  && SameUpToForm(ApplyEvent(row, e, policy).value.row, again.value.row)
                  && (again.value.row == other || ListIsFrom(None, again.value.row)))
  {
    LexIrreflexive(e.position);
  }

  /** Events before the stored position leave the row alone. */
  lemma {:induction false} EarlierEventsKeep(row: Row, es: seq<Event>, policy: Policy)
    requires row.position.Some? && FoldRow(Some(row), es, policy).Ok?
    requires forall e | e in es :: LexLess(e.position, row.position.value.values)
    ensures FoldRow(Some(row), es, policy) == Ok(Some(row))
    decreases |es|
  {
    if es != [] {
      assert es[|es| - 1] in es;
      EarlierEventsKeep(row, es[..|es| - 1], policy);
    }
  }

  /** Events that are accepted from a row are accepted from its other form exactly when none of them clashes with it,
      and then give the same row up to form. */
  lemma {:induction false} FormOfFold(start: Option<Row>, other: Option<Row>, es: seq<Event>, policy: Policy, p: string)
    requires SameUpToForm(start, other) && Rising(es, p) && FoldRow(start, es, policy).Ok?
    ensures var again := FoldRow(other, es, policy);
            && (again.Ok? <==> NoClash(other, es))
            && (again.Ok? ==> SameUpToForm(FoldRow(start, es, policy).value, again.value) && ListIsFrom(other, again.value))
    decreases |es|
  {
    hide ApplyEvent, SameUpToForm;
    if es != [] {
      var prefix, last := es[..|es| - 1], es[|es| - 1];
      assert es == prefix + [last] && last in es;
      RisingSlice(es, 0, |es| - 1, p);
      FormOfFold(start, other, prefix, policy, p);
      var again := FoldRow(other, prefix, policy);
      if again.Ok? {
        FormOfEvent(FoldRow(start, prefix, policy).value, again.value, last, policy);
        if Clashes(other, last) {
          forall e | e in prefix ensures LexLess(e.position, last.position) {
            var i :| 0 <= i < |prefix| && prefix[i] == e;
            assert es[i] == e;
          }
          EarlierEventsKeep(other.value, prefix, policy);
        }
      }
    }
  }

  /** Accepted events do not clash with the row that they were accepted on. */
  lemma AcceptedDoNotClash(start: Option<Row>, es: seq<Event>, policy: Policy, p: string)
    requires Rising(es, p) && FoldRow(start, es, policy).Ok?
    ensures NoClash(start, es) && ListIsFrom(start, FoldRow(start, es, policy).value)
  {
    FormOfFold(start, start, es, policy, p);
  }

  // ---------------------------------------------------------------- the retry

  /** What a caller can check before a retry: its events are comparable with the stored row, and none clashes with its
      form. */
  ghost predicate Retryable(
      stored: Option<Row>, redelivered: seq<Event>, delivered: seq<Event>, later: Option<Checkpoint>,
      onDelete: DeleteAction)
  {
    Comparables(stored, redelivered, delivered, later, onDelete) && NoClash(stored, delivered)
  }

  /** Crash and retry for one key. Events `a` were committed, `b` was published but its checkpoint was lost, and the
      retry delivers `b` again together with new events `c` from checkpoint `later`, on the row as the target returns
      it. It succeeds exactly when its events are comparable with this row and do not clash with its form, and then ends
      where one application of everything ends, up to form. */
  lemma RetryExactlyWhen(
      start: Option<Row>, stored: Option<Row>, a: seq<Event>, b: seq<Event>, c: seq<Event>, policy: Policy,
      later: Option<Checkpoint>, p: string)
    requires Rising(a + b + c, p) && Past(later, policy.lower, b + c, p)
    requires FoldRow(start, a + b + c, policy).Ok?
    requires FoldRow(start, a + b, policy).Ok? && SameUpToForm(FoldRow(start, a + b, policy).value, stored)
    ensures var again := FoldRow(stored, b + c, policy.(lower := later));
            && (again.Ok? <==> Retryable(stored, b, b + c, later, policy.onDelete))
            && (again.Ok? ==> SameUpToForm(FoldRow(start, a + b + c, policy).value, again.value))
  {
    hide Rising, Past, FoldRow, LeadingFit, NoClash, Clashes;
    var published, policy' := FoldRow(start, a + b, policy).value, policy.(lower := later);
    RisingParts(a, b, c, p);
    RetryOnWrittenRow(start, a, b, c, policy, later, p);
    if FoldRow(published, b + c, policy').Ok? {
      FormOfFold(published, stored, b + c, policy', p);
    } else if FoldRow(stored, b + c, policy').Ok? {
      FormOfFold(stored, published, b + c, policy', p);
      PublishedDoesNotClash(start, a, b, c, policy, p);
    }
  }

  lemma PublishedDoesNotClash(
      start: Option<Row>, a: seq<Event>, b: seq<Event>, c: seq<Event>, policy: Policy, p: string)
    requires Rising(a + b + c, p) && FoldRow(start, a + b + c, policy).Ok?
    ensures FoldRow(start, a + b, policy).Ok? && NoClash(FoldRow(start, a + b, policy).value, b + c)
  {
    hide Rising, FoldRow, Clashes;
    RisingParts(a, b, c, p);
    FoldRowSplits(start, a + b, c, policy);
    FoldRowSplits(start, a, b, policy);
    var middle, published := FoldRow(start, a, policy).value, FoldRow(start, a + b, policy).value;
    AcceptedDoNotClash(middle, b, policy, p);
    AcceptedDoNotClash(published, c, policy, p);
    forall e | e in b + c ensures !Clashes(published, e) {
      if e in b && Clashes(published, e) {
        ClashNeedsList(published, e);
      }
    }
  }

  lemma ClashNeedsList(row: Option<Row>, e: Event)
    requires Clashes(row, e)
    ensures row.Some? && row.value.position.Some? && row.value.position.value.AsList?
  {
  }

  // ---------------------------------------------------------------- positions of one length

  /** A position that was compared with events of one length, or written by one, has that length. */
  lemma ResultHasLength(start: Option<Row>, es: seq<Event>, policy: Policy, p: string, n: nat, row: Row)
    requires Chain(es, p, n) && es != [] && FoldRow(start, es, policy) == Ok(Some(row)) && row.position.Some?
    ensures |row.position.value.values| == n
  {
    assert es[|es| - 1] in es;
  }

  lemma {:induction false} UntouchedNeedsLower(row: Row, es: seq<Event>, policy: Policy, p: string)
    requires !Stamped(Some(row)) && (forall e | e in es :: e.partition == p) && es != []
    requires FoldRow(Some(row), es, policy).Ok?
    ensures policy.lower.Some? && p in policy.lower.value
    decreases |es|
  {
    var prefix := es[..|es| - 1];
    assert es[|es| - 1] in es;
    if prefix != [] {
      UntouchedNeedsLower(row, prefix, policy, p);
    } else {
      NothingFolded(Some(row), prefix, policy);
    }
  }

  predicate HasTuple(row: Option<Row>) {
    row.Some? && row.value.position.Some? ==> row.value.position.value.AsTuple?
  }

  /** With positions of one length every retry on a row that kept its tuple is accepted. */
  lemma ChainIsRetryable(
      start: Option<Row>, stored: Option<Row>, a: seq<Event>, b: seq<Event>, c: seq<Event>, policy: Policy,
      later: Option<Checkpoint>, p: string, n: nat)
    requires Chain(a + b + c, p, n) && Past(later, policy.lower, b + c, p) && FoldRow(start, a + b + c, policy).Ok?
    requires FoldRow(start, a + b, policy).Ok? && SameUpToForm(FoldRow(start, a + b, policy).value, stored) && HasTuple(stored)
    requires later.Some? && p in later.value ==> |later.value[p]| == n
    ensures Retryable(stored, b, b + c, later, policy.onDelete)
  {
    hide FoldRow, Leading;
    FoldRowSplits(start, a + b, c, policy);
    var published := FoldRow(start, a + b, policy).value;
    assert (a + b) + c + [] == a + b + c;
    ChainParts(a + b, c, [], p, n);
    if published.Some? {
      var row := published.value;
      if row.position.Some? {
        if b != [] {
          ResultHasLength(start, a + b, policy, p, n, row);
        }
      } else if b + c != [] {
        UnplacedNeedsLower(start, a, b, c, policy, p, row);
      }
    }
  }

  lemma UnplacedNeedsLower(
      start: Option<Row>, a: seq<Event>, b: seq<Event>, c: seq<Event>, policy: Policy, p: string, row: Row)
    requires (forall e | e in a + b + c :: e.partition == p) && b + c != []
    requires FoldRow(start, a + b + c, policy).Ok? && FoldRow(start, a + b, policy) == Ok(Some(row)) && row.position.None?
    ensures policy.lower.Some? && p in policy.lower.value
  {
    hide FoldRow;
    UnplacedIsStart(start, a + b, policy, row);
    var es := a + b + c;
    if row.partition.Some? {
      HalfStampedAcceptsNothing(row, es, policy);
    } else {
      UntouchedNeedsLower(row, es, policy, p);
    }
  }

  // ---------------------------------------------------------------- failing inputs

  lemma FoldOne(start: Option<Row>, e: Event, policy: Policy)
    ensures var step := ApplyEvent(start, e, policy);
            FoldRow(start, [e], policy) == if step.Err? then Err(step.error) else Ok(step.value.row)
  {
    assert [e][..0] == [];
    assert FoldRow(start, [], policy) == Ok(start);
  }

  /** An input on which a first application succeeds and its replay is refused: the capture window orders positions
      of different lengths, and the deletion in between hides from the engine that they do not compare. */
  lemma MixedArityBreaksReplay(a: Event, b: Event, c: Event, mergeKey: seq<string>)
    requires a.partition == b.partition == c.partition
    requires a.position == [1] && b.position == [2] && c.position == [3, 0]
    requires a.change.Insert? && b.change.Delete? && c.change.Insert?
    ensures var policy := Policy(mergeKey, None, Apply);
            && StrictlyOrdered([a, b, c])
            && FoldRow(None, [a, b, c], policy) == Ok(Some(Candidate(map[], c, mergeKey)))
            && FoldRow(Some(Candidate(map[], c, mergeKey)), [a, b, c], policy) == Err(NotComparable)
  {
    hide ApplyEvent;
    var policy := Policy(mergeKey, None, Apply);
    assert [a, b, c] == [a] + [b, c] && [b, c] == [b] + [c];
    FoldRowSplits(None, [a], [b, c], policy);
    FoldRowSplits(Some(Candidate(map[], a, mergeKey)), [b], [c], policy);
    FoldOne(None, a, policy);
    FoldOne(Some(Candidate(map[], a, mergeKey)), b, policy);
    FoldOne(None, c, policy);
    MixedArityDecisions(a, b, c, policy);
    assert a in [a, b, c];
    ReplayExactlyWhen(None, [a, b, c], [a, b, c], policy, None, a.partition, Candidate(map[], c, mergeKey));
    assert policy.(lower := None) == policy;
  }

  lemma MixedArityDecisions(a: Event, b: Event, c: Event, policy: Policy)
    requires a.partition == b.partition && a.position == [1] && b.position == [2]
    requires a.change.Insert? && b.change.Delete? && c.change.Insert? && policy.onDelete.Apply?
    ensures ApplyEvent(None, a, policy) == Ok(Step(Some(Candidate(map[], a, policy.mergeKey)), Inserted))
    ensures ApplyEvent(Some(Candidate(map[], a, policy.mergeKey)), b, policy) == Ok(Step(None, Deleted))
    ensures ApplyEvent(None, c, policy) == Ok(Step(Some(Candidate(map[], c, policy.mergeKey)), Inserted))
  {
  }

  /** An input on which redelivery is refused although nothing but the form of the stored position has changed. */
  lemma ListFormBreaksReplay(e: Event, policy: Policy)
    requires e.change.Insert? && e.position != []
    ensures var row := Candidate(map[], e, policy.mergeKey);
            && ApplyEvent(None, e, policy) == Ok(Step(Some(row), Inserted))
            && ApplyEvent(Some(row), e, policy) == Ok(Step(Some(row), NoChange))
            && ApplyEvent(Some(Returned(row, AsList(e.position))), e, policy) == Err(EqualPositionConflict)
  {
    var row := Candidate(map[], e, policy.mergeKey);
    assert Candidate(row.data, e, policy.mergeKey).data == row.data;
    OwnEventNeedsTheTuple(row, e, policy);
    OwnEventNeedsTheTuple(Returned(row, AsList(e.position)), e, policy);
  }
}
