/** Exactly-once effects over at-least-once delivery for the current-state target: attempts to normalise, apply,
    publish and commit, with crashes before any commit (apply/cdc.py, capture/cdc.py, control_plane/io.py). */
module CdcConvergence {
  import opened Common
  import opened SourceOrder
  import opened CdcCapture
  import opened CdcCurrentState
  import opened CdcReplay
  import opened CheckpointStore
  import opened CdcLog

  /** What the engine makes of a delivery. */
  ghost function Applied(
      s: Progress<Row>, r: Round, mergeKey: seq<string>, onDelete: DeleteAction): Result<State, ApplyError> {
    ApplyEvents(s.rows, NormalizedEvents(r.delivered, s.Lower()), Policy(mergeKey, s.Lower(), onDelete))
  }

  ghost function RunAttempt(
      s: Progress<Row>, a: Attempt<Row>, mergeKey: seq<string>, onDelete: DeleteAction): Option<Progress<Row>> {
    Finish(s, a, Applied(s, a.round, mergeKey, onDelete).Ok?)
  }

  /** The progress after all attempts, or None when some stage of some attempt raises. */
  ghost function RunAttempts(
      s: Progress<Row>, attempts: seq<Attempt<Row>>, mergeKey: seq<string>, onDelete: DeleteAction)
    : Option<Progress<Row>>
  {
    if attempts == [] then Some(s)
    else
      var before := RunAttempts(s, attempts[..|attempts| - 1], mergeKey, onDelete);
      if before.None? then None else RunAttempt(before.value, attempts[|attempts| - 1], mergeKey, onDelete)
  }

  /** The same rows, but for the form of their positions. */
  ghost predicate SameTables(a: Table, b: Table) {
    forall k :: SameUpToForm(Find(a, k), Find(b, k))
  }

  /** After an attempt the target returns the rows that the engine made, in any order, and each position as a tuple or
      as a list. */
  ghost predicate Publishes(s: Progress<Row>, a: Attempt<Row>, mergeKey: seq<string>, onDelete: DeleteAction) {
    var applied := Applied(s, a.round, mergeKey, onDelete);
    applied.Ok? ==> exists t :: SameTables(applied.value.table, t) && Lists(a.stored, t, mergeKey)
  }

  ghost predicate PublishesResult(
      s: Progress<Row>, attempts: seq<Attempt<Row>>, mergeKey: seq<string>, onDelete: DeleteAction) {
    attempts != [] ==>
      var prefix, last := attempts[..|attempts| - 1], attempts[|attempts| - 1];
      && PublishesResult(s, prefix, mergeKey, onDelete)
      && var before := RunAttempts(s, prefix, mergeKey, onDelete);
         before.Some? ==> Publishes(before.value, last, mergeKey, onDelete)
  }

  // ---------------------------------------------------------------- one application of the log

  /** The log through a bound, applied once to the rows at the start. */
  ghost function Once(
      rows: seq<Row>, log: seq<Event>, hi: Option<Checkpoint>, policy: Policy): Result<State, ApplyError> {
    ApplyEvents(rows, Window(log, policy.lower, hi), policy)
  }

  /** Whatever the whole log does successfully, every earlier window of it does too. */
  lemma WholeLogSucceedsEarlier(
      rows: seq<Row>, log: seq<Event>, hi: Option<Checkpoint>, final: Checkpoint, policy: Policy)
    requires IsLog(log, policy.lower, final, policy.mergeKey)
    requires AtOrBefore(policy.lower, hi) && AtOrBefore(hi, Some(final))
    requires Once(rows, log, Some(final), policy).Ok?
    ensures Once(rows, log, hi, policy).Ok?
  {
    hide FoldTable, FoldRow, Load, LexLess;
    var start := policy.lower;
    var t := Load(rows, policy.mergeKey).value;
    WindowIs(log, start, hi);
    forall e | e in Window(log, start, hi) ensures EventKey(e, policy.mergeKey).Some? {
      LogKeyIsPresent(log, e, policy.mergeKey);
    }
    forall k ensures FoldRow(Find(t, k), KeyEvents(Window(log, start, hi), policy.mergeKey, k), policy).Ok? {
      TableFoldIsKeywise(t, Window(log, start, Some(final)), policy, k);
      KeySucceedsEarlier(Find(t, k), log, hi, final, policy, k);
    }
    KeywiseFoldSucceeds(t, Window(log, start, hi), policy);
  }

  lemma KeySucceedsEarlier(
      row: Option<Row>, log: seq<Event>, hi: Option<Checkpoint>, final: Checkpoint, policy: Policy, k: Key)
    requires IsLog(log, policy.lower, final, policy.mergeKey)
    requires AtOrBefore(policy.lower, hi) && AtOrBefore(hi, Some(final))
    requires FoldRow(row, KeyWindow(log, policy.lower, Some(final), policy.mergeKey, k), policy).Ok?
    ensures FoldRow(row, KeyWindow(log, policy.lower, hi, policy.mergeKey, k), policy).Ok?
  {
    hide FoldRow, KeyWindow, Acceptable, KeyedBy, StrictlyOrdered, LexLess;
    var start := policy.lower;
    var es := KeyWindow(log, start, hi, policy.mergeKey, k);
    if es == [] {
      NothingFolded(row, es, policy);
    } else {
      var e := es[0];
      assert e in es;
      AtOrBeforeReflexive(start);
      KeyWindowIs(log, start, hi, policy.mergeKey, k);
      KeyHasOnePartition(log, start, final, policy.mergeKey, k, start, Some(final), e);
      KeyWindowSplits(log, start, hi, Some(final), policy.mergeKey, k, e.partition);
      FoldRowSplits(row, es, KeyWindow(log, hi, Some(final), policy.mergeKey, k), policy);
    }
  }

  lemma FormsAreTransitive(a: Table, b: Table, c: Table)
    requires SameTables(a, b) && SameTables(b, c)
    ensures SameTables(a, c)
  {
    forall k ensures SameUpToForm(Find(a, k), Find(c, k)) {
      assert SameUpToForm(Find(a, k), Find(b, k)) && SameUpToForm(Find(b, k), Find(c, k));
    }
  }

  lemma FormKeepsKeys(a: Table, b: Table, mergeKey: seq<string>)
    requires SameTables(a, b) && WellKeyed(a, mergeKey)
    ensures WellKeyed(b, mergeKey)
  {
    hide KeyOf;
    forall k | k in b ensures KeyOf(b[k].data, mergeKey) == Some(k) {
      assert SameUpToForm(Find(a, k), Find(b, k));
    }
  }

  // ---------------------------------------------------------------- one attempt

  /** Every key's retry is comparable with its stored row. */
  ghost predicate AllRetryable(
      t: Table, log: seq<Event>, committed: Option<Checkpoint>, published: Option<Checkpoint>,
      upper: Option<Checkpoint>,
      mergeKey: seq<string>, onDelete: DeleteAction)
  {
    forall k :: Retryable(Find(t, k), KeyWindow(log, committed, published, mergeKey, k),
                          KeyWindow(log, committed, upper, mergeKey, k), committed, onDelete)
  }

  /** One key of an attempt. */
  lemma KeyOfAttempt(
      start: Option<Row>, stored: Option<Row>, log: seq<Event>, committed: Option<Checkpoint>,
      published: Option<Checkpoint>,
      upper: Option<Checkpoint>, final: Checkpoint, policy: Policy, k: Key)
    requires IsLog(log, policy.lower, final, policy.mergeKey)
    requires AtOrBefore(policy.lower, committed) && AtOrBefore(committed, published) && AtOrBefore(published, upper)
    requires FoldRow(start, KeyWindow(log, policy.lower, upper, policy.mergeKey, k), policy).Ok?
    requires var row := FoldRow(start, KeyWindow(log, policy.lower, published, policy.mergeKey, k), policy);
             row.Ok? && SameUpToForm(row.value, stored)
    ensures var again := FoldRow(stored, KeyWindow(log, committed, upper, policy.mergeKey, k), policy.(lower := committed));
            && (again.Ok? <==>
                  Retryable(stored, KeyWindow(log, committed, published, policy.mergeKey, k),
                            KeyWindow(log, committed, upper, policy.mergeKey, k), committed, policy.onDelete))
            && (again.Ok? ==>
                  SameUpToForm(FoldRow(start, KeyWindow(log, policy.lower, upper, policy.mergeKey, k), policy).value, again.value))
  {
    hide FoldRow, KeyWindow, IsLog, Rising, Past, LeadingFit, Covers, Clashes;
    var es := KeyWindow(log, policy.lower, upper, policy.mergeKey, k);
    if es == [] {
      AtOrBeforeReflexive(policy.lower);
      AtOrBeforeReflexive(upper);
      NoEventsInPart(log, policy.lower, committed, upper, upper, policy.mergeKey, k);
      NoEventsInPart(log, policy.lower, committed, published, upper, policy.mergeKey, k);
      NoEventsInPart(log, policy.lower, policy.lower, published, upper, policy.mergeKey, k);
      NothingFolded(start, es, policy);
      NothingFolded(stored, es, policy.(lower := committed));
      NoneLeading(es, policy.onDelete.Ignore?, committed);
    } else {
      assert es[0] in es;
      RetryParts(log, policy.lower, committed, published, upper, final, policy.mergeKey, k, es[0]);
      RetryExactlyWhen(start, stored, KeyWindow(log, policy.lower, committed, policy.mergeKey, k),
                       KeyWindow(log, committed, published, policy.mergeKey, k),
                       KeyWindow(log, published, upper, policy.mergeKey, k), policy, committed, es[0].partition);
    }
  }

  /** One more application to a stored form of the table of the last published bound. */
  lemma AgainExactlyWhen(
      t: Table, stored: Table, log: seq<Event>, committed: Option<Checkpoint>, published: Option<Checkpoint>,
      upper: Option<Checkpoint>, final: Checkpoint, policy: Policy)
    requires IsLog(log, policy.lower, final, policy.mergeKey)
    requires AtOrBefore(policy.lower, committed) && AtOrBefore(committed, published) && AtOrBefore(published, upper)
    requires FoldTable(t, Window(log, policy.lower, published), policy).Ok?
    requires SameTables(FoldTable(t, Window(log, policy.lower, published), policy).value.table, stored)
    requires FoldTable(t, Window(log, policy.lower, upper), policy).Ok?
    ensures var again := FoldTable(stored, Window(log, committed, upper), policy.(lower := committed));
            && (again.Ok? <==> AllRetryable(stored, log, committed, published, upper, policy.mergeKey, policy.onDelete))
            && (again.Ok? ==> SameTables(FoldTable(t, Window(log, policy.lower, upper), policy).value.table, again.value.table))
  {
    hide FoldTable, FoldRow, Retryable, KeyEvents, Window, Covers, SameUpToForm;
    var table := FoldTable(t, Window(log, policy.lower, published), policy).value.table;
    var once := FoldTable(t, Window(log, policy.lower, upper), policy).value.table;
    var es, policy' := Window(log, committed, upper), policy.(lower := committed);
    forall k
      ensures FoldRow(Find(stored, k), KeyEvents(es, policy.mergeKey, k), policy').Ok? <==>
              Retryable(Find(stored, k), KeyWindow(log, committed, published, policy.mergeKey, k),
                        KeyWindow(log, committed, upper, policy.mergeKey, k), committed, policy.onDelete)
      ensures FoldRow(Find(stored, k), KeyEvents(es, policy.mergeKey, k), policy').Ok? ==>
              SameUpToForm(Find(once, k), FoldRow(Find(stored, k), KeyEvents(es, policy.mergeKey, k), policy').value)
    {
      TableFoldIsKeywise(t, Window(log, policy.lower, published), policy, k);
      TableFoldIsKeywise(t, Window(log, policy.lower, upper), policy, k);
      assert SameUpToForm(Find(table, k), Find(stored, k));
      KeyOfAttempt(Find(t, k), Find(stored, k), log, committed, published, upper, final, policy, k);
    }
    WindowIs(log, committed, upper);
    forall e | e in es ensures EventKey(e, policy.mergeKey).Some? {
      LogKeyIsPresent(log, e, policy.mergeKey);
    }
    if AllRetryable(stored, log, committed, published, upper, policy.mergeKey, policy.onDelete) {
      KeywiseFoldSucceeds(stored, es, policy');
    }
    var again := FoldTable(stored, es, policy');
    if again.Ok? {
      forall k
        ensures FoldRow(Find(stored, k), KeyEvents(es, policy.mergeKey, k), policy') == Ok(Find(again.value.table, k))
        ensures SameUpToForm(Find(once, k), Find(again.value.table, k))
      {
        TableFoldIsKeywise(stored, es, policy', k);
      }
    }
  }

  /** What the rows of a target load to is one application of the log through a bound, up to form. */
  ghost predicate Holds(stored: seq<Row>, rows: seq<Row>, log: seq<Event>, hi: Option<Checkpoint>, policy: Policy) {
    && Once(rows, log, hi, policy).Ok?
    && Load(stored, policy.mergeKey).Ok?
    && SameTables(Once(rows, log, hi, policy).value.table, Load(stored, policy.mergeKey).value)
  }

  /** One more attempt from rows that agree with one application of the log up to the last published bound. */
  lemma AttemptExactlyWhen(
      rows: seq<Row>, s: Progress<Row>, published: Option<Checkpoint>, a: Attempt<Row>, log: seq<Event>,
      final: Checkpoint, policy: Policy)
    requires IsLog(log, policy.lower, final, policy.mergeKey) && Once(rows, log, Some(final), policy).Ok?
    requires Holds(s.rows, rows, log, published, policy)
    requires s.Versioned() && AtOrBefore(policy.lower, s.Lower()) && AtOrBefore(s.Lower(), published)
    requires AtOrBefore(published, Some(a.round.upper)) && Covers(final, a.round.upper)
    requires Delivers(a.round, log, s.Lower()) && Publishes(s, a, policy.mergeKey, policy.onDelete)
    ensures var next := RunAttempt(s, a, policy.mergeKey, policy.onDelete);
            && Once(rows, log, Some(a.round.upper), policy).Ok?
            && (next.Some? <==> AllRetryable(Load(s.rows, policy.mergeKey).value, log, s.Lower(), published,
                                             Some(a.round.upper), policy.mergeKey, policy.onDelete))
            && (next.Some? ==>
                  && next.value.rows == a.stored && next.value.Versioned()
                  && Holds(next.value.rows, rows, log, Some(a.round.upper), policy)
                  && next.value.Lower() == if a.round.commits then Some(a.round.upper) else s.Lower())
  {
    hide FoldTable, Load, AllRetryable, Delivers, Covers, NormalizedEvents, Window, Finish, ValidWindow, Acceptable,
      Lists, WellKeyed,
      SameTables;
    var upper, policy' := Some(a.round.upper), policy.(lower := s.Lower());
    AtOrBeforeCovers(a.round.upper, final);
    CoversTransitive(s.Lower(), published, upper);
    CoversTransitive(policy.lower, s.Lower(), upper);
    WholeLogSucceedsEarlier(rows, log, upper, final, policy);
    DeliveryIsWindow(a.round, log, policy.lower, s.Lower(), final, policy.mergeKey);
    var t, stored := Load(rows, policy.mergeKey).value, Load(s.rows, policy.mergeKey).value;
    AgainExactlyWhen(t, stored, log, s.Lower(), published, upper, final, policy);
    var applied := Applied(s, a.round, policy.mergeKey, policy.onDelete);
    assert applied == FoldTable(stored, Window(log, s.Lower(), upper), policy');
    AttemptFinishes(s, a, applied.Ok?);
    if applied.Ok? {
      LoadIsWellKeyed(s.rows, policy.mergeKey);
      FoldKeepsKeys(stored, Window(log, s.Lower(), upper), policy');
      var listed :| SameTables(applied.value.table, listed) && Lists(a.stored, listed, policy.mergeKey);
      FormKeepsKeys(applied.value.table, listed, policy.mergeKey);
      PublishedRowsReload(a.stored, listed, policy.mergeKey);
      FormsAreTransitive(Once(rows, log, upper, policy).value.table, applied.value.table, listed);
    }
  }

  lemma AtOrBeforeCovers(a: Checkpoint, b: Checkpoint)
    ensures AtOrBefore(Some(a), Some(b)) <==> Covers(b, a)
  {
  }

  // ---------------------------------------------------------------- runs

  /** Every attempt finds its events comparable with the rows that the target returned before it, and none that clashes
      with the form of a position. */
  ghost predicate RetriesComparable(start: seq<Row>, attempts: seq<Attempt<Row>>, log: seq<Event>, policy: Policy) {
    attempts != [] ==>
      var prefix, last := attempts[..|attempts| - 1], attempts[|attempts| - 1];
      && RetriesComparable(start, prefix, log, policy)
      && var rounds, t := RoundsOf(prefix), Load(StoredRows(start, prefix), policy.mergeKey);
         t.Ok? && AllRetryable(t.value, log, Committed(policy.lower, rounds), Published(policy.lower, rounds),
                               Some(last.round.upper), policy.mergeKey, policy.onDelete)
  }

  /** What a run starts from and is served with. */
  ghost predicate ProperRun(
      start: Progress<Row>, attempts: seq<Attempt<Row>>, log: seq<Event>, final: Checkpoint, mergeKey: seq<string>,
      onDelete: DeleteAction)
  {
    && start.Versioned()
    && IsLog(log, start.Lower(), final, mergeKey)
    && WellDelivered(start.Lower(), RoundsOf(attempts), log)
    && PublishesResult(start, attempts, mergeKey, onDelete)
    && AtOrBefore(start.Lower(), Some(final))
    && AtOrBefore(Published(start.Lower(), RoundsOf(attempts)), Some(final))
  }

  lemma ProperPrefix(
      start: Progress<Row>, attempts: seq<Attempt<Row>>, log: seq<Event>, final: Checkpoint, mergeKey: seq<string>,
      onDelete: DeleteAction)
    requires attempts != [] && ProperRun(start, attempts, log, final, mergeKey, onDelete)
    ensures ProperRun(start, attempts[..|attempts| - 1], log, final, mergeKey, onDelete)
    ensures var before, last := RoundsOf(attempts[..|attempts| - 1]), attempts[|attempts| - 1];
            && AtOrBefore(Published(start.Lower(), before), Some(last.round.upper)) && Covers(final, last.round.upper)
            && Delivers(last.round, log, Committed(start.Lower(), before))
  {
    hide IsLog, Delivers, Covers;
    var before, last := RoundsOf(attempts[..|attempts| - 1]), attempts[|attempts| - 1];
    LastRound(attempts);
    AtOrBeforeCovers(last.round.upper, final);
    CoversTransitive(Published(start.Lower(), before), Some(last.round.upper), Some(final));
  }

  /** The exact condition for convergence. When one application of the log succeeds, a run of attempts succeeds as well
      exactly when every attempt finds its events comparable with the stored rows, and then these are the rows that one
      application of the log up to the last published bound gives, up to form, and the stored checkpoint is that of the
      last committed attempt. */
  lemma {:induction false} RunConvergesExactlyWhen(
      start: Progress<Row>, attempts: seq<Attempt<Row>>, log: seq<Event>, final: Checkpoint, mergeKey: seq<string>,
      onDelete: DeleteAction)
    requires ProperRun(start, attempts, log, final, mergeKey, onDelete)
    requires Once(start.rows, log, Some(final), Policy(mergeKey, start.Lower(), onDelete)).Ok?
    ensures var policy, rounds := Policy(mergeKey, start.Lower(), onDelete), RoundsOf(attempts);
            var end := RunAttempts(start, attempts, mergeKey, onDelete);
            && (end.Some? <==> RetriesComparable(start.rows, attempts, log, policy))
            && Once(start.rows, log, Published(start.Lower(), rounds), policy).Ok?
            && (end.Some? ==>
                  && end.value.rows == StoredRows(start.rows, attempts)
                  && Holds(end.value.rows, start.rows, log, Published(start.Lower(), rounds), policy)
                  && end.value.Lower() == Committed(start.Lower(), rounds)
                  && end.value.Versioned())
    decreases |attempts|
  {
    hide RunAttempt, IsLog, Publishes, AllRetryable, Once, Load, Delivers, Covers, AtOrBefore, SameTables;
    var policy := Policy(mergeKey, start.Lower(), onDelete);
    if attempts == [] {
      NothingApplied(start.rows, log, final, policy);
    } else {
      var prefix, last := attempts[..|attempts| - 1], attempts[|attempts| - 1];
      LastRound(attempts);
      ProperPrefix(start, attempts, log, final, mergeKey, onDelete);
      RunConvergesExactlyWhen(start, prefix, log, final, mergeKey, onDelete);
      var before := RunAttempts(start, prefix, mergeKey, onDelete);
      var published := Published(start.Lower(), RoundsOf(prefix));
      BoundsInOrder(start.Lower(), RoundsOf(prefix), log);
      if before.Some? {
        AttemptExactlyWhen(start.rows, before.value, published, last, log, final, policy);
      } else {
        CoversTransitive(start.Lower(), Committed(start.Lower(), RoundsOf(prefix)), published);
        CoversTransitive(start.Lower(), published, Some(last.round.upper));
        AtOrBeforeCovers(last.round.upper, final);
        WholeLogSucceedsEarlier(start.rows, log, Some(last.round.upper), final, policy);
      }
    }
  }

  lemma NothingApplied(rows: seq<Row>, log: seq<Event>, final: Checkpoint, policy: Policy)
    requires Once(rows, log, Some(final), policy).Ok?
    ensures Holds(rows, rows, log, policy.lower, policy)
  {
    WindowIs(log, policy.lower, policy.lower);
    NoElements(Window(log, policy.lower, policy.lower));
  }

  // ---------------------------------------------------------------- positions of one length

  /** The target has returned every position as a tuple. */
  ghost predicate AllTuples(rows: seq<Row>) {
    forall r | r in rows :: HasTuple(Some(r))
  }

  lemma {:induction false} LoadedTuples(rows: seq<Row>, mergeKey: seq<string>)
    requires Load(rows, mergeKey).Ok? && AllTuples(rows)
    ensures forall k :: HasTuple(Find(Load(rows, mergeKey).value, k))
    decreases |rows|
  {
    hide KeyOf;
    if rows != [] {
      var prefix, last := rows[..|rows| - 1], rows[|rows| - 1];
      assert last in rows && HasTuple(Some(last));
      LoadedTuples(prefix, mergeKey);
      var t := Load(prefix, mergeKey).value;
      forall k ensures HasTuple(Find(Load(rows, mergeKey).value, k)) {
        assert HasTuple(Find(t, k));
      }
    }
  }

  lemma KeyIsRetryable(
      start: Option<Row>, stored: Option<Row>, log: seq<Event>, committed: Option<Checkpoint>,
      published: Option<Checkpoint>,
      upper: Option<Checkpoint>, final: Checkpoint, policy: Policy, arity: map<string, nat>, k: Key)
    requires IsLog(log, policy.lower, final, policy.mergeKey) && UniformLog(log, arity) && UniformCheckpoint(committed, arity)
    requires AtOrBefore(policy.lower, committed) && AtOrBefore(committed, published) && AtOrBefore(published, upper)
    requires FoldRow(start, KeyWindow(log, policy.lower, upper, policy.mergeKey, k), policy).Ok?
    requires var row := FoldRow(start, KeyWindow(log, policy.lower, published, policy.mergeKey, k), policy);
             row.Ok? && SameUpToForm(row.value, stored) && HasTuple(stored)
    ensures Retryable(stored, KeyWindow(log, committed, published, policy.mergeKey, k),
                      KeyWindow(log, committed, upper, policy.mergeKey, k), committed, policy.onDelete)
  {
    hide FoldRow, KeyWindow, IsLog, Rising, Past, LeadingFit, Covers, UniformLog;
    var es := KeyWindow(log, policy.lower, upper, policy.mergeKey, k);
    AtOrBeforeReflexive(policy.lower);
    if es == [] {
      AtOrBeforeReflexive(upper);
      NoEventsInPart(log, policy.lower, committed, upper, upper, policy.mergeKey, k);
      NoEventsInPart(log, policy.lower, committed, published, upper, policy.mergeKey, k);
      NoneLeading(es, policy.onDelete.Ignore?, committed);
    } else {
      assert es[0] in es;
      RetryParts(log, policy.lower, committed, published, upper, final, policy.mergeKey, k, es[0]);
      KeyWindowIs(log, policy.lower, upper, policy.mergeKey, k);
      KeyWindowIsChain(log, policy.lower, upper, final, policy.mergeKey, k, arity, es[0]);
      ChainIsRetryable(start, stored, KeyWindow(log, policy.lower, committed, policy.mergeKey, k),
                       KeyWindow(log, committed, published, policy.mergeKey, k),
                       KeyWindow(log, published, upper, policy.mergeKey, k), policy, committed, es[0].partition, arity[es[0].partition]);
    }
  }

  lemma AllAreRetryable(
      rows: seq<Row>, stored: seq<Row>, log: seq<Event>, committed: Option<Checkpoint>, published: Option<Checkpoint>,
      upper: Option<Checkpoint>, final: Checkpoint, policy: Policy, arity: map<string, nat>)
    requires IsLog(log, policy.lower, final, policy.mergeKey) && UniformLog(log, arity) && UniformCheckpoint(committed, arity)
    requires AtOrBefore(policy.lower, committed) && AtOrBefore(committed, published) && AtOrBefore(published, upper)
    requires Holds(stored, rows, log, published, policy) && AllTuples(stored) && Once(rows, log, upper, policy).Ok?
    ensures AllRetryable(Load(stored, policy.mergeKey).value, log, committed, published, upper, policy.mergeKey, policy.onDelete)
  {
    hide FoldTable, FoldRow, Retryable, Window, Load, IsLog, UniformLog, UniformCheckpoint, AtOrBefore, SameUpToForm,
      AllTuples, HasTuple;
    LoadedTuples(stored, policy.mergeKey);
    var t, table := Load(rows, policy.mergeKey).value, Load(stored, policy.mergeKey).value;
    forall k
      ensures Retryable(Find(table, k), KeyWindow(log, committed, published, policy.mergeKey, k),
                        KeyWindow(log, committed, upper, policy.mergeKey, k), committed, policy.onDelete)
    {
      TableFoldIsKeywise(t, Window(log, policy.lower, published), policy, k);
      TableFoldIsKeywise(t, Window(log, policy.lower, upper), policy, k);
      assert SameUpToForm(Find(Once(rows, log, published, policy).value.table, k), Find(table, k));
      KeyIsRetryable(Find(t, k), Find(table, k), log, committed, published, upper, final, policy, arity, k);
    }
  }

  /** The positions of each partition have one length, and the target keeps tuples. */
  ghost predicate PlainRun(
      start: Progress<Row>, attempts: seq<Attempt<Row>>, log: seq<Event>, arity: map<string, nat>) {
    && UniformLog(log, arity) && UniformCheckpoint(start.Lower(), arity) && UniformRounds(RoundsOf(attempts), arity)
    && AllTuples(start.rows) && forall a | a in attempts :: AllTuples(a.stored)
  }

  lemma PlainPrefix(start: Progress<Row>, attempts: seq<Attempt<Row>>, log: seq<Event>, arity: map<string, nat>)
    requires attempts != [] && PlainRun(start, attempts, log, arity)
    ensures var prefix := attempts[..|attempts| - 1];
            && PlainRun(start, prefix, log, arity)
            && UniformCheckpoint(Committed(start.Lower(), RoundsOf(prefix)), arity)
    ensures AllTuples(StoredRows(start.rows, attempts[..|attempts| - 1]))
  {
    hide UniformLog, UniformCheckpoint, AllTuples;
    var prefix := attempts[..|attempts| - 1];
    LastRound(attempts);
    assert forall r | r in RoundsOf(prefix) :: r in RoundsOf(attempts);
    CommittedIsUniform(start.Lower(), RoundsOf(prefix), arity);
    if prefix != [] {
      assert prefix[|prefix| - 1] in attempts;
    }
  }

  lemma {:induction false} PlainRunSucceeds(
      start: Progress<Row>, attempts: seq<Attempt<Row>>, log: seq<Event>, final: Checkpoint,
      mergeKey: seq<string>, onDelete: DeleteAction, arity: map<string, nat>)
    requires ProperRun(start, attempts, log, final, mergeKey, onDelete) && PlainRun(start, attempts, log, arity)
    requires Once(start.rows, log, Some(final), Policy(mergeKey, start.Lower(), onDelete)).Ok?
    ensures RunAttempts(start, attempts, mergeKey, onDelete).Some?
    decreases |attempts|
  {
    hide IsLog, AllRetryable, Load, Delivers, Covers, AtOrBefore, PlainRun, UniformLog, UniformCheckpoint, Once,
      Publishes, Holds, AllTuples,
      RunAttempt;
    var policy := Policy(mergeKey, start.Lower(), onDelete);
    if attempts != [] {
      var prefix, last := attempts[..|attempts| - 1], attempts[|attempts| - 1];
      var rounds, upper := RoundsOf(prefix), Some(last.round.upper);
      LastRound(attempts);
      ProperPrefix(start, attempts, log, final, mergeKey, onDelete);
      PlainPrefix(start, attempts, log, arity);
      PlainRunSucceeds(start, prefix, log, final, mergeKey, onDelete, arity);
      RunConvergesExactlyWhen(start, prefix, log, final, mergeKey, onDelete);
      BoundsInOrder(start.Lower(), rounds, log);
      var committed, published := Committed(start.Lower(), rounds), Published(start.Lower(), rounds);
      CoversTransitive(start.Lower(), committed, published);
      CoversTransitive(start.Lower(), published, upper);
      AtOrBeforeCovers(last.round.upper, final);
      WholeLogSucceedsEarlier(start.rows, log, upper, final, policy);
      PlainLog(start, attempts, log, arity);
      AllAreRetryable(start.rows, StoredRows(start.rows, prefix), log, committed, published, upper, final, policy, arity);
      AttemptExactlyWhen(start.rows, RunAttempts(start, prefix, mergeKey, onDelete).value, published, last, log, final, policy);
    }
  }

  lemma PlainLog(start: Progress<Row>, attempts: seq<Attempt<Row>>, log: seq<Event>, arity: map<string, nat>)
    requires PlainRun(start, attempts, log, arity)
    ensures UniformLog(log, arity) && AllTuples(start.rows) && AllTuples(StoredRows(start.rows, attempts))
  {
    hide UniformLog, AllTuples;
    if attempts != [] {
      assert attempts[|attempts| - 1] in attempts;
    }
  }

  /** With positions of one length in each partition and a target that keeps tuples every run converges, and the target
      holds exactly the rows of one application of the log. */
  lemma RunConverges(
      start: Progress<Row>, attempts: seq<Attempt<Row>>, log: seq<Event>, final: Checkpoint,
      mergeKey: seq<string>, onDelete: DeleteAction, arity: map<string, nat>)
    requires ProperRun(start, attempts, log, final, mergeKey, onDelete) && PlainRun(start, attempts, log, arity)
    requires Once(start.rows, log, Some(final), Policy(mergeKey, start.Lower(), onDelete)).Ok?
    ensures var end := RunAttempts(start, attempts, mergeKey, onDelete);
            var once := Once(start.rows, log, Published(start.Lower(), RoundsOf(attempts)), Policy(mergeKey, start.Lower(), onDelete));
            && end.Some? && once.Ok?
            && Load(end.value.rows, mergeKey) == Ok(once.value.table)
            && end.value.Lower() == Committed(start.Lower(), RoundsOf(attempts))
  {
    hide ProperRun, PlainRun, RunAttempts, AllTuples, FoldTable, Load, Window, SameTables;
    PlainRunSucceeds(start, attempts, log, final, mergeKey, onDelete, arity);
    RunConvergesExactlyWhen(start, attempts, log, final, mergeKey, onDelete);
    PlainLog(start, attempts, log, arity);
    var end := RunAttempts(start, attempts, mergeKey, onDelete).value;
    var published, policy := Published(start.Lower(), RoundsOf(attempts)), Policy(mergeKey, start.Lower(), onDelete);
    LoadedTuples(end.rows, mergeKey);
    LoadedTuples(start.rows, mergeKey);
    FoldedTuples(Load(start.rows, mergeKey).value, Window(log, start.Lower(), published), policy);
    TuplesAreEqual(Once(start.rows, log, published, policy).value.table, Load(end.rows, mergeKey).value);
  }

  lemma {:induction false} FoldedTuples(t: Table, es: seq<Event>, policy: Policy)
    requires FoldTable(t, es, policy).Ok? && forall k :: HasTuple(Find(t, k))
    ensures forall k :: HasTuple(Find(FoldTable(t, es, policy).value.table, k))
    decreases |es|
  {
    hide OrderAgainst, EventKey;
    if es != [] {
      FoldedTuples(t, es[..|es| - 1], policy);
    }
  }

  lemma TuplesAreEqual(a: Table, b: Table)
    requires SameTables(a, b) && forall k :: HasTuple(Find(a, k)) && HasTuple(Find(b, k))
    ensures a == b
  {
    forall k ensures (k in a <==> k in b) && (k in a ==> a[k] == b[k]) {
      assert SameUpToForm(Find(a, k), Find(b, k)) && HasTuple(Find(a, k)) && HasTuple(Find(b, k));
    }
  }
}
