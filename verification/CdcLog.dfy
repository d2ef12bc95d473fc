/** The log of a source and the rounds in which it is captured: windows of the log, what one key sees of them, and
    attempts to normalise, apply, publish and commit, any of which may crash between publishing the target and
    committing the checkpoint. */
module CdcLog {
  import opened Common
  import opened SourceOrder
  import opened CdcCapture
  import opened CdcCurrentState
  import opened CdcReplay
  import opened CheckpointStore

  /** One attempt: what the provider delivered, the frozen upper bound, the run that makes it, and whether it got
      as far as committing its checkpoint. */
  datatype Round = Round(delivered: seq<Event>, upper: Checkpoint, runId: int, commits: bool)

  /** An attempt together with the rows that the target returns after it. */
  datatype Attempt<V> = Attempt(round: Round, stored: seq<V>)

  datatype Progress<V> = Progress(rows: seq<V>, committed: Option<CheckpointState>)
  {
    function Lower(): Option<Checkpoint> {
      if committed.Some? then Some(committed.value.checkpoint) else None
    }

    predicate Versioned() {
      committed.Some? ==> committed.value.version >= 1
    }
  }

  const OPEN_GATE := StateCommitGate(true, true, true, false)

  /** What an attempt leaves when the engine has applied its batch or failed; None when any stage raises. */
  ghost function Finish<V>(s: Progress<V>, a: Attempt<V>, applied: bool): Option<Progress<V>> {
    if !ValidWindow(s.Lower(), a.round.upper) || !Acceptable(a.round.delivered, s.Lower(), a.round.upper) || !applied then None
    else if !a.round.commits then Some(Progress(a.stored, s.committed))
    else
      var commit := CommitRow(s.committed, a.round.upper, a.round.runId, VersionOf(s.committed), OPEN_GATE);
      if commit.Err? then None else Some(Progress(a.stored, Some(commit.value)))
  }

  /** An attempt over a valid window succeeds when the engine does. */
  lemma AttemptFinishes<V>(s: Progress<V>, a: Attempt<V>, applied: bool)
    requires ValidWindow(s.Lower(), a.round.upper) && Acceptable(a.round.delivered, s.Lower(), a.round.upper) && s.Versioned()
    ensures var next := Finish(s, a, applied);
            && (next.Some? <==> applied)
            && (applied ==>
                  && next.value.rows == a.stored && next.value.Versioned()
                  && next.value.Lower() == if a.round.commits then Some(a.round.upper) else s.Lower())
  {
    hide Acceptable;
  }

  function RoundsOf<V>(attempts: seq<Attempt<V>>): (rs: seq<Round>)
    ensures |rs| == |attempts|
  {
    if attempts == [] then [] else RoundsOf(attempts[..|attempts| - 1]) + [attempts[|attempts| - 1].round]
  }

  lemma LastRound<V>(attempts: seq<Attempt<V>>)
    requires attempts != []
    ensures RoundsOf(attempts)[..|attempts| - 1] == RoundsOf(attempts[..|attempts| - 1])
    ensures RoundsOf(attempts)[|attempts| - 1] == attempts[|attempts| - 1].round
  {
  }

  /** The rows that the target returned after the last attempt. */
  function StoredRows<V>(start: seq<V>, attempts: seq<Attempt<V>>): seq<V> {
    if attempts == [] then start else attempts[|attempts| - 1].stored
  }

  // ---------------------------------------------------------------- windows of the log

  predicate Up(e: Event, bound: Option<Checkpoint>) {
    bound.Some? && Within(e, bound.value)
  }

  /** The events of an ordered log above `lo` and within `hi`. */
  function Window(log: seq<Event>, lo: Option<Checkpoint>, hi: Option<Checkpoint>): seq<Event> {
    if log == [] then []
    else
      var prefix := Window(log[..|log| - 1], lo, hi);
      var e := log[|log| - 1];
      if Above(e, lo) && Up(e, hi) then prefix + [e] else prefix
  }

  lemma {:induction false} WindowIs(log: seq<Event>, lo: Option<Checkpoint>, hi: Option<Checkpoint>)
    ensures forall e :: e in Window(log, lo, hi) <==> e in log && Above(e, lo) && Up(e, hi)
    ensures StrictlyOrdered(log) ==> StrictlyOrdered(Window(log, lo, hi))
  {
    hide Above, Up, Before;
    if log != [] {
      var prefix, last := log[..|log| - 1], log[|log| - 1];
      WindowIs(prefix, lo, hi);
      assert log == prefix + [last];
      if StrictlyOrdered(log) {
        forall e | e in Window(prefix, lo, hi) ensures Before(e, last) {
          assert e in prefix;
        }
      }
    }
  }

  /** What one key sees of a window. */
  function KeyWindow(
      log: seq<Event>, lo: Option<Checkpoint>, hi: Option<Checkpoint>, mergeKey: seq<string>, k: Key): seq<Event> {
    KeyEvents(Window(log, lo, hi), mergeKey, k)
  }

  lemma KeyWindowIs(log: seq<Event>, lo: Option<Checkpoint>, hi: Option<Checkpoint>, mergeKey: seq<string>, k: Key)
    ensures forall e :: e in KeyWindow(log, lo, hi, mergeKey, k) <==>
                        e in log && EventKey(e, mergeKey) == Some(k) && Above(e, lo) && Up(e, hi)
    ensures StrictlyOrdered(log) ==> StrictlyOrdered(KeyWindow(log, lo, hi, mergeKey, k))
  {
    WindowIs(log, lo, hi);
    KeyEventsAre(Window(log, lo, hi), mergeKey, k);
  }

  lemma BoundsAreMonotone(e: Event, lo: Option<Checkpoint>, hi: Option<Checkpoint>)
    requires AtOrBefore(lo, hi)
    ensures Up(e, lo) ==> Up(e, hi)
    ensures Above(e, hi) ==> Above(e, lo)
  {
    if Up(e, lo) && LexLess(e.position, lo.value[e.partition]) && lo.value[e.partition] != hi.value[e.partition] {
      LexTransitive(e.position, lo.value[e.partition], hi.value[e.partition]);
    }
  }

  /** An event within a bound comes before an event of the same partition above it. */
  lemma BoundSeparates(a: Event, b: Event, bound: Option<Checkpoint>)
    requires a.partition == b.partition && Up(a, bound) && Above(b, bound)
    ensures Before(a, b)
  {
    var limit := bound.value[a.partition];
    LexTotal(b.position, limit);
    if a.position != limit {
      LexTransitive(a.position, limit, b.position);
    }
  }

  /** The key's events of a window are those up to a middle bound followed by those above it. */
  lemma KeyWindowSplits(
      log: seq<Event>, lo: Option<Checkpoint>, mid: Option<Checkpoint>, hi: Option<Checkpoint>,
      mergeKey: seq<string>, k: Key, p: string)
    requires StrictlyOrdered(log) && AtOrBefore(lo, mid) && AtOrBefore(mid, hi)
    requires forall e | e in KeyWindow(log, lo, hi, mergeKey, k) :: e.partition == p
    ensures KeyWindow(log, lo, hi, mergeKey, k) == KeyWindow(log, lo, mid, mergeKey, k) + KeyWindow(log, mid, hi, mergeKey, k)
  {
    KeyWindowIs(log, lo, hi, mergeKey, k);
    KeyWindowIs(log, lo, mid, mergeKey, k);
    KeyWindowIs(log, mid, hi, mergeKey, k);
    var whole := KeyWindow(log, lo, hi, mergeKey, k);
    var first, second := KeyWindow(log, lo, mid, mergeKey, k), KeyWindow(log, mid, hi, mergeKey, k);
    forall e ensures e in whole <==> e in first + second {
      BoundsAreMonotone(e, lo, mid);
      BoundsAreMonotone(e, mid, hi);
    }
    forall i, j | 0 <= i < j < |first + second| ensures Before((first + second)[i], (first + second)[j]) {
      if i < |first| <= j {
        assert first[i] in first + second && second[j - |first|] in first + second;
        BoundSeparates(first[i], second[j - |first|], mid);
      }
    }
    StrictOrderIsUnique(whole, first + second);
  }

  /** A narrower window of a key without events has none either. */
  lemma NoEventsInPart(
      log: seq<Event>, lo: Option<Checkpoint>, lo': Option<Checkpoint>, hi': Option<Checkpoint>, hi: Option<Checkpoint>,
      mergeKey: seq<string>, k: Key)
    requires AtOrBefore(lo, lo') && AtOrBefore(hi', hi) && KeyWindow(log, lo, hi, mergeKey, k) == []
    ensures KeyWindow(log, lo', hi', mergeKey, k) == []
  {
    KeyWindowIs(log, lo, hi, mergeKey, k);
    KeyWindowIs(log, lo', hi', mergeKey, k);
    forall e ensures e !in KeyWindow(log, lo', hi', mergeKey, k) {
      BoundsAreMonotone(e, lo, lo');
      BoundsAreMonotone(e, hi', hi);
    }
    NoElements(KeyWindow(log, lo', hi', mergeKey, k));
  }

  // ---------------------------------------------------------------- assumptions on the log

  /** Event keys consist of exactly the merge columns and hold no nulls. */
  ghost predicate KeyedBy(log: seq<Event>, mergeKey: seq<string>) {
    forall e | e in log :: e.key.Keys == ToSet(mergeKey) && forall c | c in e.key :: e.key[c] != Null
  }

  /** A log that one capture from `start` to `final` could deliver. */
  ghost predicate IsLog(log: seq<Event>, start: Option<Checkpoint>, final: Checkpoint, mergeKey: seq<string>) {
    && StrictlyOrdered(log) && Acceptable(log, start, final) && KeyedBy(log, mergeKey)
    && forall e | e in log :: ValidPosition(e)
  }

  /** The provider delivers events of the log inside the frozen window, each event that is not yet
      committed at least once, in any order and with any overlap. */
  ghost predicate Delivers(r: Round, log: seq<Event>, lower: Option<Checkpoint>) {
    && (forall e | e in r.delivered :: e in log && Within(e, r.upper))
    && (forall e | e in log && Above(e, lower) && Within(e, r.upper) :: e in r.delivered)
  }

  /** The bound of the last published round, committed or not. */
  function Published(start: Option<Checkpoint>, rounds: seq<Round>): Option<Checkpoint> {
    if rounds == [] then start else Some(rounds[|rounds| - 1].upper)
  }

  /** The bound of the last committed round. */
  function Committed(start: Option<Checkpoint>, rounds: seq<Round>): Option<Checkpoint> {
    if rounds == [] then start
    else if rounds[|rounds| - 1].commits then Some(rounds[|rounds| - 1].upper)
    else Committed(start, rounds[..|rounds| - 1])
  }

  /** A retry keeps or raises the upper bound of the round before it, and every round is served completely. */
  ghost predicate WellDelivered(start: Option<Checkpoint>, rounds: seq<Round>, log: seq<Event>) {
    rounds != [] ==>
      var before, last := rounds[..|rounds| - 1], rounds[|rounds| - 1];
      && WellDelivered(start, before, log)
      && AtOrBefore(Published(start, before), Some(last.upper))
      && Delivers(last, log, Committed(start, before))
  }

  /** Where the bounds of well delivered rounds stand to each other. */
  lemma {:induction false} BoundsInOrder(start: Option<Checkpoint>, rounds: seq<Round>, log: seq<Event>)
    requires WellDelivered(start, rounds, log)
    ensures AtOrBefore(start, Committed(start, rounds)) && AtOrBefore(Committed(start, rounds), Published(start, rounds))
  {
    hide Delivers, AtOrBefore;
    if rounds == [] {
      AtOrBeforeReflexive(start);
    } else {
      var before, last := rounds[..|rounds| - 1], rounds[|rounds| - 1];
      BoundsInOrder(start, before, log);
      CoversTransitive(Committed(start, before), Published(start, before), Some(last.upper));
      CoversTransitive(start, Committed(start, before), Some(last.upper));
      AtOrBeforeReflexive(Some(last.upper));
    }
  }

  lemma SameEventKey(a: Event, b: Event, mergeKey: seq<string>)
    requires KeyedBy([a, b], mergeKey) && EventKey(a, mergeKey) == EventKey(b, mergeKey)
    ensures EventKey(a, mergeKey).Some? && a.key == b.key
  {
    assert a in [a, b] && b in [a, b];
    KeyIsPresent(a, mergeKey);
    KeyIsPresent(b, mergeKey);
    forall c | c in a.key ensures a.key[c] == b.key[c] {
      assert Cell(a.key, c) == Cell(b.key, c);
    }
  }

  lemma KeyIsPresent(e: Event, mergeKey: seq<string>)
    requires e.key.Keys == ToSet(mergeKey) && forall c | c in e.key :: e.key[c] != Null
    ensures EventKey(e, mergeKey).Some?
  {
    var k := KeyValues(e.key, mergeKey);
    forall i | 0 <= i < |k| ensures k[i] != Null {
      assert mergeKey[i] in e.key;
    }
  }

  lemma LogKeyIsPresent(log: seq<Event>, e: Event, mergeKey: seq<string>)
    requires KeyedBy(log, mergeKey) && e in log
    ensures EventKey(e, mergeKey).Some?
  {
    KeyIsPresent(e, mergeKey);
  }

  /** All events of a key in the window share the partition. */
  lemma KeyHasOnePartition(
      log: seq<Event>, start: Option<Checkpoint>, final: Checkpoint, mergeKey: seq<string>, k: Key,
      lo: Option<Checkpoint>, hi: Option<Checkpoint>, e: Event)
    requires Acceptable(log, start, final) && KeyedBy(log, mergeKey) && AtOrBefore(start, lo)
    requires e in log && Above(e, start) && EventKey(e, mergeKey) == Some(k)
    ensures forall f | f in KeyWindow(log, lo, hi, mergeKey, k) :: f.partition == e.partition
  {
    KeyWindowIs(log, lo, hi, mergeKey, k);
    forall f | f in KeyWindow(log, lo, hi, mergeKey, k) ensures f.partition == e.partition {
      BoundsAreMonotone(f, start, lo);
      SameEventKey(e, f, mergeKey);
    }
  }

  /** What a key sees of a window rises in one partition. */
  lemma KeyWindowIsRising(
      log: seq<Event>, start: Option<Checkpoint>, hi: Option<Checkpoint>, final: Checkpoint, mergeKey: seq<string>,
      k: Key, e: Event)
    requires IsLog(log, start, final, mergeKey)
    requires e in log && Above(e, start) && EventKey(e, mergeKey) == Some(k)
    ensures Rising(KeyWindow(log, start, hi, mergeKey, k), e.partition)
  {
    var es := KeyWindow(log, start, hi, mergeKey, k);
    KeyWindowIs(log, start, hi, mergeKey, k);
    AtOrBeforeReflexive(start);
    KeyHasOnePartition(log, start, final, mergeKey, k, start, hi, e);
    forall i, j | 0 <= i < j < |es| ensures LexLess(es[i].position, es[j].position) {
      assert Before(es[i], es[j]) && es[i] in es && es[j] in es;
      LexIrreflexive(Codes(e.partition));
    }
  }

  lemma RetrySplits(
      log: seq<Event>, start: Option<Checkpoint>, committed: Option<Checkpoint>, published: Option<Checkpoint>,
      upper: Option<Checkpoint>, mergeKey: seq<string>, k: Key, p: string)
    requires StrictlyOrdered(log)
    requires AtOrBefore(start, committed) && AtOrBefore(committed, published) && AtOrBefore(published, upper)
    requires forall f | f in KeyWindow(log, start, upper, mergeKey, k) :: f.partition == p
    ensures var a := KeyWindow(log, start, committed, mergeKey, k);
            var b := KeyWindow(log, committed, published, mergeKey, k);
            var c := KeyWindow(log, published, upper, mergeKey, k);
            && KeyWindow(log, start, upper, mergeKey, k) == a + b + c
            && KeyWindow(log, start, published, mergeKey, k) == a + b
            && KeyWindow(log, committed, upper, mergeKey, k) == b + c
  {
    CoversTransitive(committed, published, upper);
    CoversTransitive(start, committed, published);
    KeyWindowSplits(log, start, committed, upper, mergeKey, k, p);
    KeyWindowSplits(log, start, published, upper, mergeKey, k, p);
    KeyWindowSplits(log, start, committed, published, mergeKey, k, p);
    KeyWindowSplits(log, committed, published, upper, mergeKey, k, p);
  }

  /** The events of one key in a retry: what was committed, what was published without being committed, and what
      is new rise in one partition, and the committed checkpoint lies below the last two. */
  lemma RetryParts(
      log: seq<Event>, start: Option<Checkpoint>, committed: Option<Checkpoint>, published: Option<Checkpoint>,
      upper: Option<Checkpoint>, final: Checkpoint, mergeKey: seq<string>, k: Key, e: Event)
    requires IsLog(log, start, final, mergeKey)
    requires AtOrBefore(start, committed) && AtOrBefore(committed, published) && AtOrBefore(published, upper)
    requires e in KeyWindow(log, start, upper, mergeKey, k)
    ensures var a := KeyWindow(log, start, committed, mergeKey, k);
            var b := KeyWindow(log, committed, published, mergeKey, k);
            var c := KeyWindow(log, published, upper, mergeKey, k);
            && KeyWindow(log, start, upper, mergeKey, k) == a + b + c
            && KeyWindow(log, start, published, mergeKey, k) == a + b
            && KeyWindow(log, committed, upper, mergeKey, k) == b + c
            && Rising(a + b + c, e.partition)
            && Past(committed, start, b + c, e.partition)
  {
    hide LexLess;
    AtOrBeforeReflexive(start);
    KeyWindowIs(log, start, upper, mergeKey, k);
    KeyHasOnePartition(log, start, final, mergeKey, k, start, upper, e);
    RetrySplits(log, start, committed, published, upper, mergeKey, k, e.partition);
    KeyWindowIsRising(log, start, upper, final, mergeKey, k, e);
    CommittedIsPast(log, start, committed, upper, mergeKey, k, e.partition);
  }

  lemma CommittedIsPast(
      log: seq<Event>, start: Option<Checkpoint>, committed: Option<Checkpoint>, upper: Option<Checkpoint>,
      mergeKey: seq<string>, k: Key, p: string)
    requires AtOrBefore(start, committed)
    requires forall f | f in KeyWindow(log, committed, upper, mergeKey, k) :: f.partition == p
    ensures Past(committed, start, KeyWindow(log, committed, upper, mergeKey, k), p)
  {
    KeyWindowIs(log, committed, upper, mergeKey, k);
    if start.Some? && p in start.value {
      forall f | f in KeyWindow(log, committed, upper, mergeKey, k) ensures LexLess(committed.value[p], f.position) {
        LexTotal(committed.value[p], f.position);
      }
    }
  }

  /** What a complete delivery normalises to. */
  lemma DeliveryIsWindow(
      r: Round, log: seq<Event>, start: Option<Checkpoint>, lower: Option<Checkpoint>, final: Checkpoint,
      mergeKey: seq<string>)
    requires IsLog(log, start, final, mergeKey) && AtOrBefore(start, lower) && AtOrBefore(lower, Some(r.upper))
    requires Delivers(r, log, lower)
    ensures ValidWindow(lower, r.upper) && Acceptable(r.delivered, lower, r.upper)
    ensures NormalizedEvents(r.delivered, lower) == Window(log, lower, Some(r.upper))
  {
    DeliveryIsAcceptable(r, log, start, lower, final);
    WindowIs(log, lower, Some(r.upper));
    NormalizedEventsAre(r.delivered, lower, r.upper);
    StrictOrderIsUnique(NormalizedEvents(r.delivered, lower), Window(log, lower, Some(r.upper)));
  }

  lemma DeliveryIsAcceptable(
      r: Round, log: seq<Event>, start: Option<Checkpoint>, lower: Option<Checkpoint>, final: Checkpoint)
    requires Acceptable(log, start, final) && AtOrBefore(start, lower) && Delivers(r, log, lower)
    ensures Acceptable(r.delivered, lower, r.upper)
  {
    forall e | e in r.delivered ensures Above(e, lower) ==> Above(e, start) {
      BoundsAreMonotone(e, start, lower);
    }
  }

  // ---------------------------------------------------------------- positions of one length

  /** Positions inside one partition have one length. */
  ghost predicate UniformLog(log: seq<Event>, arity: map<string, nat>) {
    forall e | e in log :: e.partition in arity && |e.position| == arity[e.partition] > 0
  }

  ghost predicate UniformCheckpoint(c: Option<Checkpoint>, arity: map<string, nat>) {
    c.Some? ==> forall p | p in c.value :: p in arity ==> |c.value[p]| == arity[p]
  }

  ghost predicate UniformRounds(rounds: seq<Round>, arity: map<string, nat>) {
    forall r | r in rounds :: UniformCheckpoint(Some(r.upper), arity)
  }

  lemma {:induction false} CommittedIsUniform(start: Option<Checkpoint>, rounds: seq<Round>, arity: map<string, nat>)
    requires UniformCheckpoint(start, arity) && UniformRounds(rounds, arity)
    ensures UniformCheckpoint(Committed(start, rounds), arity)
  {
    hide UniformCheckpoint;
    if rounds != [] {
      assert rounds[|rounds| - 1] in rounds;
      CommittedIsUniform(start, rounds[..|rounds| - 1], arity);
    }
  }

  lemma KeyWindowIsChain(
      log: seq<Event>, start: Option<Checkpoint>, hi: Option<Checkpoint>, final: Checkpoint,
      mergeKey: seq<string>, k: Key, arity: map<string, nat>, e: Event)
    requires IsLog(log, start, final, mergeKey) && UniformLog(log, arity)
    requires e in log && Above(e, start) && EventKey(e, mergeKey) == Some(k)
    ensures e.partition in arity && Chain(KeyWindow(log, start, hi, mergeKey, k), e.partition, arity[e.partition])
  {
    KeyWindowIs(log, start, hi, mergeKey, k);
    KeyWindowIsRising(log, start, hi, final, mergeKey, k, e);
  }
}
