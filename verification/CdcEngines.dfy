/** The two CDC engines agree: the current rows of the SCD2 history are the current-state table
    (apply/cdc.py and apply/cdc_scd2.py). */
module CdcEngines {
  import opened Common
  import opened SourceOrder
  import opened CdcCapture
  import opened CdcCurrentState
  import opened CdcReplay
  import opened CdcScd2
  import opened CdcTimeline
  import opened CdcHistoryRows

  /** The table row and the current version of a key carry the same tracked columns and the same
      source position, or both are absent. A stored hash is the hash of the version's own columns. */
  ghost predicate Aligned(row: Option<Row>, h: KeyHistory, tracked: seq<string>) {
    match row
    case None => h.open.None?
    case Some(r) =>
      && h.open.Some?
      && Tracked(h.open.value.data, tracked) == Tracked(r.data, tracked)
      && (h.open.value.hash.Some? ==> h.open.value.hash.value == Tracked(r.data, tracked))
      && h.open.value.partition == r.partition
      && h.open.value.position == r.Values()
  }

  /** Every tombstone of the key lies at or below the bound. */
  ghost predicate ClosedWithin(h: KeyHistory, bound: Option<Checkpoint>) {
    forall v | v in h.closed ::
      && v.closedPartition.Some? && v.closedPosition.Some?
      && bound.Some? && v.closedPartition.value in bound.value
      && LexLeq(v.closedPosition.value, bound.value[v.closedPartition.value])
  }

  /** An event newer than the version closed last. */
  ghost predicate PastTombstone(h: KeyHistory, e: Event) {
    h.closed != [] ==>
      var v := h.closed[|h.closed| - 1];
      v.closedPosition.Some? && LexLess(v.closedPosition.value, e.position)
  }

  /** The after image carries every tracked column that the key does not. */
  ghost predicate FullImage(e: Event, config: Config) {
    !e.change.Delete? ==>
      forall c | c in config.tracked :: c in e.change.after || (c in config.businessKey && c in e.key)
  }

  ghost predicate SameKeying(policy: Policy, config: Config) {
    policy.mergeKey == config.businessKey && policy.lower == config.lower && policy.onDelete.Apply?
  }

  lemma FullImageFixesTracked(current: Columns, e: Event, policy: Policy, config: Config)
    requires SameKeying(policy, config) && FullImage(e, config) && !e.change.Delete?
    ensures var c := Candidate(current, e, policy.mergeKey);
            && Tracked(c.data, config.tracked) == Tracked(Incoming(e, config), config.tracked)
            && c.partition == Some(e.partition) && c.Values() == Some(e.position)
  {
  }

  /** One event keeps the engines aligned whenever both accept it. */
  lemma EventKeepsAligned(row: Option<Row>, h: KeyHistory, e: Event, policy: Policy, config: Config)
    requires SameKeying(policy, config) && FullImage(e, config)
    requires Aligned(row, h, config.tracked) && PastTombstone(h, e)
    requires ApplyEvent(row, e, policy).Ok? && StepKey(h, e, config).Ok?
    ensures Aligned(ApplyEvent(row, e, policy).value.row, StepKey(h, e, config).value, config.tracked)
  {
    hide Tracked, OrderAgainst, Incoming, Candidate;
    if !e.change.Delete? {
      FullImageFixesTracked(if row.Some? then row.value.data else map[], e, policy, config);
    }
    if h.open.None? {
      AbsentKeyIsNotStale(h, e, config);
    }
  }

  lemma AbsentKeyIsNotStale(h: KeyHistory, e: Event, config: Config)
    requires PastTombstone(h, e) && h.open.None? && StepKey(h, e, config).Ok?
    ensures DecideOnKey(h, e, config).value == if e.change.Delete? then Keep(MissingDelete) else Open(Opened(e, config))
  {
    hide Tracked;
    if h.closed != [] {
      LexTotal(e.position, h.closed[|h.closed| - 1].closedPosition.value);
      LexIrreflexive(e.position);
    }
  }

  /** What an event adds to the closed versions carries its own position. */
  lemma EventClosesAtItsPosition(h: KeyHistory, e: Event, config: Config)
    requires StepKey(h, e, config).Ok?
    ensures var h' := StepKey(h, e, config).value;
            h'.closed == h.closed
            || exists v :: h'.closed == h.closed + [v] && v.closedPartition == Some(e.partition) && v.closedPosition == Some(e.position)
  {
    hide Tracked, OrderAgainst;
    var effect := DecideOnKey(h, e, config).value;
    match effect {
      case Close(v) => assert StepKey(h, e, config).value.closed == h.closed + [v];
      case CloseAndOpen(v, w) => assert StepKey(h, e, config).value.closed == h.closed + [v];
      case _ =>
    }
  }

  /** Through a chain of events above the tombstones the engines stay aligned, and every tombstone
      stays below whatever comes later. */
  lemma {:induction false} ChainKeepsAligned(
      row: Option<Row>, h: KeyHistory, es: seq<Event>, policy: Policy, config: Config, p: string)
    requires SameKeying(policy, config) && Rising(es, p)
    requires forall e | e in es :: FullImage(e, config) && PastTombstone(h, e)
    requires Aligned(row, h, config.tracked)
    requires FoldRow(row, es, policy).Ok? && FoldKey(h, es, config).Ok?
    ensures var h' := FoldKey(h, es, config).value;
            && Aligned(FoldRow(row, es, policy).value, h', config.tracked)
            && (h'.closed == h.closed
                || (h'.closed != [] && exists e :: e in es && h'.closed[|h'.closed| - 1].closedPosition == Some(e.position)))
    decreases |es|
  {
    hide ApplyEvent, StepKey, Aligned, FullImage;
    if es != [] {
      var prefix, last := es[..|es| - 1], es[|es| - 1];
      assert last in es;
      ChainKeepsAligned(row, h, prefix, policy, config, p);
      var g := FoldKey(h, prefix, config).value;
      assert PastTombstone(g, last) by {
        if g.closed != h.closed {
          var e :| e in prefix && g.closed[|g.closed| - 1].closedPosition == Some(e.position);
          assert LexLess(e.position, last.position);
        }
      }
      EventKeepsAligned(FoldRow(row, prefix, policy).value, g, last, policy, config);
      EventClosesAtItsPosition(g, last, config);
    }
  }

  lemma {:induction false} FoldClosesWithin(
      h: KeyHistory, es: seq<Event>, config: Config, lower: Option<Checkpoint>, upper: Checkpoint)
    requires ClosedWithin(h, lower) && ValidWindow(lower, upper)
    requires (forall e | e in es :: Within(e, upper)) && FoldKey(h, es, config).Ok?
    ensures ClosedWithin(FoldKey(h, es, config).value, Some(upper))
    decreases |es|
  {
    hide StepKey;
    if es == [] {
      forall v | v in h.closed ensures LexLeq(v.closedPosition.value, upper[v.closedPartition.value]) {
        var p := v.closedPartition.value;
        if v.closedPosition.value != lower.value[p] && lower.value[p] != upper[p] {
          LexTransitive(v.closedPosition.value, lower.value[p], upper[p]);
        }
      }
    } else {
      var prefix, last := es[..|es| - 1], es[|es| - 1];
      assert last in es;
      FoldClosesWithin(h, prefix, config, lower, upper);
      EventClosesAtItsPosition(FoldKey(h, prefix, config).value, last, config);
    }
  }

  /** Tombstones at or below the lower checkpoint are older than every event above it. */
  lemma AboveIsPastTombstone(h: KeyHistory, e: Event, config: Config, k: Key)
    requires IsTimeline(h, k, config.businessKey) && ClosedWithin(h, config.lower) && Above(e, config.lower)
    requires h.closed != [] ==> h.closed[|h.closed| - 1].closedPartition == Some(e.partition)
    ensures PastTombstone(h, e)
  {
    if h.closed != [] {
      var v := h.closed[|h.closed| - 1];
      assert v in h.closed;
      var limit := config.lower.value[e.partition];
      LexTotal(e.position, limit);
      if v.closedPosition.value != limit {
        LexTransitive(v.closedPosition.value, limit, e.position);
      }
    }
  }

  /** An accepted chain for a key with closed versions is in the partition of these versions. */
  lemma AcceptedChainPartition(h: KeyHistory, es: seq<Event>, config: Config, k: Key, p: string)
    requires IsTimeline(h, k, config.businessKey) && h.closed != []
    requires Rising(es, p) && es != [] && FoldKey(h, es, config).Ok?
    ensures h.closed[|h.closed| - 1].closedPartition == Some(p)
  {
    hide StepKey;
    var q, m :| Timeline(h, k, config.businessKey, q, m);
    FoldKeySplits(h, es[..1], es[1..], config);
    assert es == es[..1] + es[1..] && es[..1] == [es[0]] && [es[0]][..0] == [];
    assert FoldKey(h, [], config) == Ok(h);
    assert es[0] in es;
    ClosedHistoryFixesPartition(h, es[0], config, k, q, m);
    assert h.closed[|h.closed| - 1] in h.closed;
  }

  /** The theorem for one key. */
  lemma KeyStaysAligned(
      row: Option<Row>, h: KeyHistory, mine: seq<Event>, policy: Policy, config: Config, k: Key, p: string)
    requires SameKeying(policy, config) && Rising(mine, p)
    requires forall e | e in mine :: FullImage(e, config) && Above(e, config.lower)
    requires Aligned(row, h, config.tracked) && ClosedWithin(h, config.lower) && IsTimeline(h, k, config.businessKey)
    requires FoldRow(row, mine, policy).Ok? && FoldKey(h, mine, config).Ok?
    ensures Aligned(FoldRow(row, mine, policy).value, FoldKey(h, mine, config).value, config.tracked)
  {
    hide FoldRow, FoldKey, Aligned, IsTimeline, FullImage, Above;
    if mine != [] && h.closed != [] {
      AcceptedChainPartition(h, mine, config, k, p);
    }
    forall e | e in mine ensures PastTombstone(h, e) {
      AboveIsPastTombstone(h, e, config, k);
    }
    ChainKeepsAligned(row, h, mine, policy, config, p);
  }

  /** Every key has a timeline in the row list that is aligned with the table. */
  ghost predicate AlignedTargets(
      t: Table, rows: seq<Version>, config: Config, hs: Key -> KeyHistory, bound: Option<Checkpoint>) {
    && Represented(rows, config.businessKey, hs)
    && forall k :: Aligned(Find(t, k), hs(k), config.tracked) && ClosedWithin(hs(k), bound)
  }

  function AfterBatch(hs: Key -> KeyHistory, es: seq<Event>, config: Config): Key -> KeyHistory {
    k =>
      var g := FoldKey(hs(k), KeyEvents(es, config.businessKey, k), config);
      if g.Ok? then g.value else hs(k)
  }

  /** Whenever both engines accept a normalised batch from aligned targets, they end with aligned
      targets again, now with every tombstone within the upper checkpoint, so that batches chain. */
  lemma EnginesStayAligned(
      t: Table, rows: seq<Version>, es: seq<Event>, upper: Checkpoint, policy: Policy, config: Config,
      hs: Key -> KeyHistory)
    requires SameKeying(policy, config) && AlignedTargets(t, rows, config, hs, config.lower)
    requires OrderedByKey(es, config.businessKey) && ValidWindow(config.lower, upper)
    requires forall e | e in es :: Above(e, config.lower) && Within(e, upper) && FullImage(e, config)
    requires FoldTable(t, es, policy).Ok? && FoldRows(rows, es, config).Ok?
    ensures AlignedTargets(
              FoldTable(t, es, policy).value.table, FoldRows(rows, es, config).value.rows, config,
              AfterBatch(hs, es, config), Some(upper))
  {
    hide FoldTable, FoldRows, FoldRow, FoldKey, KeyEvents, IsTimeline, Represents, Aligned, ClosedWithin, FullImage,
      Above, Within;
    var table, after := FoldTable(t, es, policy).value.table, FoldRows(rows, es, config).value.rows;
    var gs := AfterBatch(hs, es, config);
    forall k
      ensures Represents(after, config.businessKey, k, gs(k)) && IsTimeline(gs(k), k, config.businessKey)
      ensures Aligned(Find(table, k), gs(k), config.tracked) && ClosedWithin(gs(k), Some(upper))
    {
      TableFoldIsKeywise(t, es, policy, k);
      FoldIsKeywise(rows, es, config, k, hs(k));
      KeyEventsAre(es, config.businessKey, k);
      var mine := KeyEvents(es, config.businessKey, k);
      FoldClosesWithin(hs(k), mine, config, config.lower, upper);
      if mine == [] {
        KeyStaysAligned(Find(t, k), hs(k), mine, policy, config, k, "");
      } else {
        KeyEventsAreRising(es, config.businessKey, k);
        KeyStaysAligned(Find(t, k), hs(k), mine, policy, config, k, mine[0].partition);
      }
    }
  }

  /** What alignment means for a reader: exactly the keys with a current history row are in the table,
      with equal tracked columns. */
  lemma AlignedMeansSameCurrentState(
      t: Table, rows: seq<Version>, config: Config, hs: Key -> KeyHistory, bound: Option<Checkpoint>, k: Key)
    requires AlignedTargets(t, rows, config, hs, bound)
    ensures k in t <==> exists v :: v in rows && v.isCurrent && HasKey(v, config.businessKey, k)
    ensures forall v | v in rows && v.isCurrent && HasKey(v, config.businessKey, k) && k in t ::
              Tracked(v.data, config.tracked) == Tracked(t[k].data, config.tracked)
  {
    hide HasKey, Tracked;
    assert Represents(rows, config.businessKey, k, hs(k)) && IsTimeline(hs(k), k, config.businessKey);
    assert Aligned(Find(t, k), hs(k), config.tracked);
    CurrentAgrees(rows, config.businessKey, k, hs(k));
    var p, n :| Timeline(hs(k), k, config.businessKey, p, n);
    forall v | v in rows && v.isCurrent && HasKey(v, config.businessKey, k)
      ensures hs(k).open == Some(v)
    {
      MembersAgree(rows, config.businessKey, k, hs(k), v);
    }
    if k in t {
      var v := rows[CurrentIndex(rows, config.businessKey, k).value];
      assert v in rows && v.isCurrent && HasKey(v, config.businessKey, k);
    }
  }
}
