/** Append batches compose, and repeating one inserts nothing (apply/append.py). */
module AppendBatches {
  import opened Common
  import opened Append

  // ---------------------------------------------------------------- observing two batches

  predicate Indexed(u: Unique) {
    && (forall id | id in u.order :: id in u.byIdentity)
    && (forall id | id in u.byIdentity :: id in u.order)
    && forall i, j | 0 <= i < j < |u.order| :: u.order[i] != u.order[j]
  }

  lemma ObserveRowIsIndexed(u: Unique, row: Row, columns: seq<string>)
    requires Indexed(u) && ObserveRow(u, row, columns).Ok?
    ensures Indexed(ObserveRow(u, row, columns).value)
  {
    hide KeyOf, PayloadOf;
  }

  lemma {:induction false} ObserveIsIndexed(u: Unique, rows: seq<Row>, columns: seq<string>)
    requires Indexed(u) && Observe(u, rows, columns).Ok?
    ensures Indexed(Observe(u, rows, columns).value)
    decreases |rows|
  {
    hide ObserveRow, Indexed;
    if rows != [] {
      ObserveIsIndexed(u, rows[..|rows| - 1], columns);
      ObserveRowIsIndexed(Observe(u, rows[..|rows| - 1], columns).value, rows[|rows| - 1], columns);
    }
  }

  lemma {:induction false} ObserveOfConcat(u: Unique, a: seq<Row>, b: seq<Row>, columns: seq<string>)
    ensures var first := Observe(u, a, columns);
            Observe(u, a + b, columns) == if first.Err? then first else Observe(first.value, b, columns)
    decreases |b|
  {
    hide ObserveRow;
    if b == [] {
      assert a + b == a;
    } else {
      assert (a + b)[..|a + b| - 1] == a + b[..|b| - 1];
      ObserveOfConcat(u, a, b[..|b| - 1], columns);
    }
  }

  /** The identities of a list that are not indexed yet. */
  function NewOnly(order: seq<Key>, index: Index): seq<Key> {
    if order == [] then []
    else
      var before := NewOnly(order[..|order| - 1], index);
      if order[|order| - 1] in index then before else before + [order[|order| - 1]]
  }

  /** How observing a batch on top of an earlier one relates to observing it alone: only the identities that
      are new join, and repeated ones carry the same payload. */
  ghost predicate Extends(u: Unique, alone: Unique, both: Unique) {
    && both.order == u.order + NewOnly(alone.order, u.byIdentity)
    && (forall id :: id in both.byIdentity <==> id in u.byIdentity || id in alone.byIdentity)
    && (forall id | id in u.byIdentity :: id in both.byIdentity && both.byIdentity[id] == u.byIdentity[id])
    && (forall id | id in alone.byIdentity ::
          && id in both.byIdentity
          && PayloadOf(both.byIdentity[id]) == PayloadOf(alone.byIdentity[id])
          && (id !in u.byIdentity ==> both.byIdentity[id] == alone.byIdentity[id]))
  }

  lemma NewOnlyOneMore(order: seq<Key>, id: Key, index: Index)
    ensures NewOnly(order + [id], index) == if id in index then NewOnly(order, index) else NewOnly(order, index) + [id]
  {
    assert (order + [id])[..|order|] == order;
  }

  lemma ObserveRowExtends(u: Unique, alone: Unique, both: Unique, row: Row, columns: seq<string>)
    requires Extends(u, alone, both) && ObserveRow(both, row, columns).Ok?
    ensures ObserveRow(alone, row, columns).Ok?
    ensures Extends(u, ObserveRow(alone, row, columns).value, ObserveRow(both, row, columns).value)
  {
    hide KeyOf, PayloadOf, NewOnly, Extends;
    var id := KeyOf(row.data, columns).value;
    if id in alone.byIdentity {
      RepeatedRowExtends(u, alone, both, row, id);
    } else {
      NewRowExtends(u, alone, both, row, id);
    }
  }

  lemma RepeatedRowExtends(u: Unique, alone: Unique, both: Unique, row: Row, id: Key)
    requires Extends(u, alone, both) && id in alone.byIdentity
    ensures id in both.byIdentity && PayloadOf(both.byIdentity[id]) == PayloadOf(alone.byIdentity[id])
    ensures Extends(u, alone.(duplicates := alone.duplicates + 1), both.(duplicates := both.duplicates + 1))
  {
    hide PayloadOf, NewOnly;
  }

  lemma NewRowExtends(u: Unique, alone: Unique, both: Unique, row: Row, id: Key)
    requires Extends(u, alone, both) && id !in alone.byIdentity
    requires id in both.byIdentity ==> PayloadOf(both.byIdentity[id]) == PayloadOf(row)
    ensures var alone' := Unique(alone.byIdentity[id := row], alone.order + [id], alone.duplicates);
            && (id in both.byIdentity ==> Extends(u, alone', both.(duplicates := both.duplicates + 1)))
            && (id !in both.byIdentity ==>
                  Extends(u, alone', Unique(both.byIdentity[id := row], both.order + [id], both.duplicates)))
  {
    hide PayloadOf, NewOnly;
    NewOnlyOneMore(alone.order, id, u.byIdentity);
    assert u.order + (NewOnly(alone.order, u.byIdentity) + [id]) == (u.order + NewOnly(alone.order, u.byIdentity)) + [id];
  }

  lemma {:induction false} ObserveExtends(u: Unique, rows: seq<Row>, columns: seq<string>)
    requires Observe(u, rows, columns).Ok?
    ensures Observe(NOTHING, rows, columns).Ok?
    ensures Extends(u, Observe(NOTHING, rows, columns).value, Observe(u, rows, columns).value)
    decreases |rows|
  {
    hide ObserveRow, Extends;
    if rows == [] {
      NothingExtends(u);
    } else {
      var prefix, last := rows[..|rows| - 1], rows[|rows| - 1];
      ObserveExtends(u, prefix, columns);
      ObserveRowExtends(u, Observe(NOTHING, prefix, columns).value, Observe(u, prefix, columns).value, last, columns);
    }
  }

  lemma NothingExtends(u: Unique)
    ensures Extends(u, NOTHING, u)
  {
  }

  /** Rows that can be observed alone can be observed on top of others exactly when no identity comes with another
      payload. */
  lemma {:induction false} ObserveOnTopExactlyWhen(u: Unique, rows: seq<Row>, columns: seq<string>)
    requires Observe(NOTHING, rows, columns).Ok?
    ensures Observe(u, rows, columns).Ok? <==> forall row | row in rows :: Agrees(u.byIdentity, row, columns)
    decreases |rows|
  {
    hide ObserveRow, Extends, Agrees;
    if rows != [] {
      var prefix, last := rows[..|rows| - 1], rows[|rows| - 1];
      assert rows == prefix + [last];
      ObserveOnTopExactlyWhen(u, prefix, columns);
      if Observe(u, prefix, columns).Ok? {
        ObserveExtends(u, prefix, columns);
        RowOnTopExactlyWhen(u, Observe(NOTHING, prefix, columns).value, Observe(u, prefix, columns).value, last, columns);
      }
    }
  }

  lemma RowOnTopExactlyWhen(u: Unique, alone: Unique, both: Unique, row: Row, columns: seq<string>)
    requires Extends(u, alone, both) && ObserveRow(alone, row, columns).Ok?
    ensures ObserveRow(both, row, columns).Ok? <==> Agrees(u.byIdentity, row, columns)
  {
    hide KeyOf, PayloadOf, NewOnly;
  }

  /** The row does not come with another payload than the indexed row of its identity. */
  ghost predicate Agrees(index: Index, row: Row, columns: seq<string>) {
    var id := KeyOf(row.data, columns);
    id.Some? && id.value in index ==> PayloadOf(index[id.value]) == PayloadOf(row)
  }

  /** The index holds a row of each observed identity, and it has the payload of all of them. */
  ghost predicate IndexOf(index: Index, rows: seq<Row>, columns: seq<string>) {
    && (forall row | row in rows ::
          KeyOf(row.data, columns).Some? && KeyOf(row.data, columns).value in index && Agrees(index, row, columns))
    && (forall id | id in index :: index[id] in rows && KeyOf(index[id].data, columns) == Some(id))
  }

  lemma {:induction false} ObservedPayloads(rows: seq<Row>, columns: seq<string>)
    requires Observe(NOTHING, rows, columns).Ok?
    ensures IndexOf(Observe(NOTHING, rows, columns).value.byIdentity, rows, columns)
    decreases |rows|
  {
    hide KeyOf, PayloadOf, IndexOf;
    if rows == [] {
      NothingIsIndex(columns);
    } else {
      var prefix, last := rows[..|rows| - 1], rows[|rows| - 1];
      ObservedPayloads(prefix, columns);
      assert rows == prefix + [last];
      OneMoreIndexed(Observe(NOTHING, prefix, columns).value, prefix, last, columns);
    }
  }

  lemma NothingIsIndex(columns: seq<string>)
    ensures IndexOf(map[], [], columns)
  {
  }

  lemma OneMoreIndexed(u: Unique, rows: seq<Row>, row: Row, columns: seq<string>)
    requires IndexOf(u.byIdentity, rows, columns) && ObserveRow(u, row, columns).Ok?
    ensures IndexOf(ObserveRow(u, row, columns).value.byIdentity, rows + [row], columns)
  {
    hide KeyOf, PayloadOf;
  }

  /** An identity that comes in both batches comes with one payload. */
  ghost predicate SharedAgree(first: seq<Row>, second: seq<Row>, columns: seq<string>) {
    forall a, b | a in first && b in second && KeyOf(a.data, columns) == KeyOf(b.data, columns) :: PayloadOf(a) == PayloadOf(b)
  }

  lemma SharedAgreeExactlyWhen(first: seq<Row>, second: seq<Row>, columns: seq<string>)
    requires Observe(NOTHING, first, columns).Ok? && Observe(NOTHING, second, columns).Ok?
    ensures SharedAgree(first, second, columns) <==>
            forall row | row in second :: Agrees(Observe(NOTHING, first, columns).value.byIdentity, row, columns)
  {
    hide KeyOf, PayloadOf, Observe;
    ObservedPayloads(first, columns);
    ObservedPayloads(second, columns);
  }

  /** Every row is either the first of its identity or a repetition. */
  lemma {:induction false} ObservedRowsAreCounted(u: Unique, rows: seq<Row>, columns: seq<string>)
    requires Observe(u, rows, columns).Ok?
    ensures var r := Observe(u, rows, columns).value; |r.order| + r.duplicates == |u.order| + u.duplicates + |rows|
    decreases |rows|
  {
    hide KeyOf, PayloadOf;
    if rows != [] {
      ObservedRowsAreCounted(u, rows[..|rows| - 1], columns);
    }
  }

  // ---------------------------------------------------------------- placing

  lemma {:induction false} PlacedAreCounted(existing: Index, incoming: Index, order: seq<Key>)
    requires (forall id | id in order :: id in incoming) && PlaceAll(existing, incoming, order).Ok?
    ensures var p := PlaceAll(existing, incoming, order).value; |p.appended| + p.replayed == |order|
    decreases |order|
  {
    hide Place;
    if order != [] {
      PlacedAreCounted(existing, incoming, order[..|order| - 1]);
    }
  }

  lemma {:induction false} PlaceOfConcat(existing: Index, incoming: Index, a: seq<Key>, b: seq<Key>)
    requires forall id | id in a + b :: id in incoming
    requires PlaceAll(existing, incoming, a + b).Ok?
    ensures PlaceAll(existing, incoming, a).Ok? && PlaceAll(existing, incoming, b).Ok?
    ensures PlaceAll(existing, incoming, a + b).value.appended ==
            PlaceAll(existing, incoming, a).value.appended + PlaceAll(existing, incoming, b).value.appended
    decreases |b|
  {
    hide Place;
    if b == [] {
      assert a + b == a;
    } else {
      assert (a + b)[..|a + b| - 1] == a + b[..|b| - 1];
      PlaceOfConcat(existing, incoming, a, b[..|b| - 1]);
      assert b[|b| - 1] in b;
    }
  }

  lemma {:induction false} PlaceSameRows(existing: Index, a: Index, b: Index, order: seq<Key>)
    requires forall id | id in order :: id in a && id in b && a[id] == b[id]
    ensures PlaceAll(existing, a, order) == PlaceAll(existing, b, order)
    decreases |order|
  {
    hide Place;
    if order != [] {
      assert order[|order| - 1] in order;
      PlaceSameRows(existing, a, b, order[..|order| - 1]);
    }
  }

  // ---------------------------------------------------------------- the target after a batch

  predicate Named(index: Index, columns: seq<string>) {
    forall id | id in index :: KeyOf(index[id].data, columns) == Some(id)
  }

  lemma {:induction false} ObservedAreNamed(u: Unique, rows: seq<Row>, columns: seq<string>)
    requires Named(u.byIdentity, columns) && Observe(u, rows, columns).Ok?
    ensures Named(Observe(u, rows, columns).value.byIdentity, columns)
    decreases |rows|
  {
    hide KeyOf, PayloadOf;
    if rows != [] {
      ObservedAreNamed(u, rows[..|rows| - 1], columns);
    }
  }

  /** The index of the target extended by the rows appended for some identities. */
  function Extended(existing: Index, incoming: Index, order: seq<Key>): Index
    requires forall id | id in order :: id in incoming
  {
    map id | id in existing.Keys + (set x | x in order) ::
      if id in existing then existing[id] else Appended(incoming[id], id)
  }

  function Appended(row: Row, id: Key): Row {
    Row(row.data, Some(OfIdentity(id)), Some(PayloadOf(row)))
  }

  lemma PlacedRow(existing: Index, row: Row, id: Key)
    requires Place(existing, row, id).Ok?
    ensures Place(existing, row, id).value == if id in existing then None else Some(Appended(row, id))
  {
    hide PayloadOf, ExistingFingerprint;
  }

  lemma ExtendedGrows(existing: Index, incoming: Index, order: seq<Key>)
    requires order != [] && forall id | id in order :: id in incoming
    ensures forall id | id in order[..|order| - 1] :: id in incoming
    ensures var prefix, id := order[..|order| - 1], order[|order| - 1];
            && id in incoming
            && (id in Extended(existing, incoming, prefix) <==> id in existing || id in prefix)
            && Extended(existing, incoming, order) ==
               if id in existing then Extended(existing, incoming, prefix)
               else Extended(existing, incoming, prefix)[id := Appended(incoming[id], id)]
  {
    hide PayloadOf;
    var prefix, id := order[..|order| - 1], order[|order| - 1];
    assert order == prefix + [id];
    assert id in order;
  }

  lemma NothingExtended(existing: Index, incoming: Index)
    ensures Extended(existing, incoming, []) == existing
  {
  }

  lemma AppendedRowLoads(rows: seq<Row>, row: Row, id: Key, columns: seq<string>)
    requires Load(rows, columns).Ok? && KeyOf(row.data, columns) == Some(id) && id !in Load(rows, columns).value
    ensures Load(rows + [Appended(row, id)], columns) == Ok(Load(rows, columns).value[id := Appended(row, id)])
  {
    hide KeyOf, PayloadOf;
    assert (rows + [Appended(row, id)])[..|rows|] == rows;
  }

  lemma {:induction false} LoadAfterAppend(
      rows: seq<Row>, index: Index, incoming: Index, order: seq<Key>, columns: seq<string>)
    requires Load(rows, columns) == Ok(index) && Named(incoming, columns)
    requires (forall id | id in order :: id in incoming) && (forall i, j | 0 <= i < j < |order| :: order[i] != order[j])
    requires PlaceAll(index, incoming, order).Ok?
    ensures Load(rows + PlaceAll(index, incoming, order).value.appended, columns) == Ok(Extended(index, incoming, order))
    decreases |order|
  {
    hide KeyOf, Extended, Place, Appended, LoadRow, Load;
    if order == [] {
      assert rows + [] == rows;
      NothingExtended(index, incoming);
    } else {
      var prefix, id := order[..|order| - 1], order[|order| - 1];
      assert id in order && id !in prefix;
      LoadAfterAppend(rows, index, incoming, prefix, columns);
      ExtendedGrows(index, incoming, order);
      PlacedRow(index, incoming[id], id);
      var before := PlaceAll(index, incoming, prefix).value.appended;
      if id !in index {
        var row := Appended(incoming[id], id);
        assert rows + (before + [row]) == (rows + before) + [row];
        AppendedRowLoads(rows + before, incoming[id], id, columns);
      }
    }
  }

  // ---------------------------------------------------------------- composing

  lemma PlaceAfterFirst(existing: Index, u: Unique, alone: Unique, both: Unique, id: Key)
    requires Extends(u, alone, both) && Indexed(u) && id in alone.byIdentity
    requires id in u.byIdentity ==> Place(existing, u.byIdentity[id], id).Ok?
    ensures var after := Extended(existing, u.byIdentity, u.order);
            && (id in u.byIdentity ==> Place(after, alone.byIdentity[id], id) == Ok(None))
            && (id !in u.byIdentity ==> Place(after, alone.byIdentity[id], id) == Place(existing, both.byIdentity[id], id))
  {
    hide PayloadOf, ExistingFingerprint;
    var after := Extended(existing, u.byIdentity, u.order);
    if id in u.byIdentity {
      assert id in u.order && id in after;
      if id in existing {
        SamePlace(existing, after, u.byIdentity[id], alone.byIdentity[id], id);
      } else {
        StoredPayload(after[id], alone.byIdentity[id]);
      }
    } else if id in existing {
      SamePlace(existing, after, alone.byIdentity[id], alone.byIdentity[id], id);
    }
  }

  /** A replay depends on the existing row and on the payload of the incoming one. */
  lemma SamePlace(a: Index, b: Index, x: Row, y: Row, id: Key)
    requires id in a && id in b && a[id] == b[id] && PayloadOf(x) == PayloadOf(y)
    ensures Place(a, x, id) == Place(b, y, id)
  {
    assert Business(x) == Business(y);
  }

  lemma StoredPayload(existing: Row, incoming: Row)
    requires existing.payloadHash.Some?
    ensures ExistingFingerprint(existing, incoming) == Ok(existing.payloadHash.value)
  {
  }

  /** Placing the second batch on the target that the first one left. */
  lemma {:induction false} PlaceSecond(existing: Index, u: Unique, alone: Unique, both: Unique, order: seq<Key>)
    requires Extends(u, alone, both) && Indexed(u)
    requires forall id | id in order :: id in alone.byIdentity
    requires forall id | id in NewOnly(order, u.byIdentity) :: id in both.byIdentity
    requires forall id | id in u.byIdentity :: Place(existing, u.byIdentity[id], id).Ok?
    requires PlaceAll(existing, both.byIdentity, NewOnly(order, u.byIdentity)).Ok?
    ensures var r := PlaceAll(Extended(existing, u.byIdentity, u.order), alone.byIdentity, order);
            r.Ok? && r.value.appended == PlaceAll(existing, both.byIdentity, NewOnly(order, u.byIdentity)).value.appended
    decreases |order|
  {
    hide Place, Extends, Indexed, Extended;
    if order != [] {
      var prefix, id := order[..|order| - 1], order[|order| - 1];
      assert id in order;
      var news := NewOnly(order, u.byIdentity);
      if id !in u.byIdentity {
        assert news[..|news| - 1] == NewOnly(prefix, u.byIdentity);
      }
      PlaceSecond(existing, u, alone, both, prefix);
      PlaceAfterFirst(existing, u, alone, both, id);
    }
  }

  lemma {:induction false} PlacedOneByOne(existing: Index, incoming: Index, order: seq<Key>)
    requires forall id | id in order :: id in incoming
    ensures PlaceAll(existing, incoming, order).Ok? <==> forall id | id in order :: Place(existing, incoming[id], id).Ok?
    decreases |order|
  {
    hide Place;
    if order != [] {
      PlacedOneByOne(existing, incoming, order[..|order| - 1]);
      assert order == order[..|order| - 1] + [order[|order| - 1]];
    }
  }

  lemma {:induction false} NewOnlyMembers(order: seq<Key>, index: Index)
    ensures forall id :: id in NewOnly(order, index) <==> id in order && id !in index
  {
    if order != [] {
      NewOnlyMembers(order[..|order| - 1], index);
      assert order == order[..|order| - 1] + [order[|order| - 1]];
    }
  }

  /** Whenever two batches can be appended as one, appending them one after the other succeeds with the very
      same rows, the same number of inserts and the same number of replays and duplicates together. */
  lemma BatchesCompose(existing: seq<Row>, first: seq<Row>, second: seq<Row>, columns: seq<string>)
    requires Apply(existing, first + second, columns).Ok?
    ensures Apply(existing, first, columns).Ok?
    ensures Apply(Apply(existing, first, columns).value.rows, second, columns).Ok?
    ensures var one := Apply(existing, first + second, columns).value;
            var a := Apply(existing, first, columns).value;
            var b := Apply(a.rows, second, columns).value;
            && b.rows == one.rows
            && a.inserted + b.inserted == one.inserted
            && a.replayed + a.duplicates + b.replayed + b.duplicates == one.replayed + one.duplicates
  {
    hide Load, Observe, PlaceAll, Extends, Extended, KeyOf, NewOnly;
    var index := Load(existing, columns).value;
    ObserveOfConcat(NOTHING, first, second, columns);
    var u, both := Observe(NOTHING, first, columns).value, Observe(NOTHING, first + second, columns).value;
    ObserveExtends(u, second, columns);
    var alone := Observe(NOTHING, second, columns).value;
    NothingIsIndexed(columns);
    ObserveIsIndexed(NOTHING, first, columns);
    ObserveIsIndexed(NOTHING, second, columns);
    ObserveIsIndexed(NOTHING, first + second, columns);
    ObservedAreNamed(NOTHING, first, columns);
    var news := NewOnly(alone.order, u.byIdentity);
    ExtendedParts(u, alone, both);
    PlaceOfConcat(index, both.byIdentity, u.order, news);
    PlaceSameRows(index, both.byIdentity, u.byIdentity, u.order);
    PlacedOneByOne(index, u.byIdentity, u.order);
    LoadAfterAppend(existing, index, u.byIdentity, u.order, columns);
    PlaceSecond(index, u, alone, both, alone.order);
    var after := Extended(index, u.byIdentity, u.order);
    PlacedAreCounted(index, u.byIdentity, u.order);
    PlacedAreCounted(index, both.byIdentity, both.order);
    PlacedAreCounted(after, alone.byIdentity, alone.order);
    ObservedRowsAreCounted(NOTHING, first, columns);
    ObservedRowsAreCounted(NOTHING, second, columns);
    ObservedRowsAreCounted(NOTHING, first + second, columns);
  }

  /** Exactly when two batches can be appended one after the other and no identity comes in both with different
      payloads,
      they can be appended as one. */
  lemma BatchesComposeExactlyWhen(existing: seq<Row>, first: seq<Row>, second: seq<Row>, columns: seq<string>)
    ensures Apply(existing, first + second, columns).Ok? <==>
            && Apply(existing, first, columns).Ok?
            && Apply(Apply(existing, first, columns).value.rows, second, columns).Ok?
            && SharedAgree(first, second, columns)
  {
    hide Apply, Observe, SharedAgree;
    if Apply(existing, first + second, columns).Ok? {
      BatchesCompose(existing, first, second, columns);
      ApplyObserves(existing, first, columns);
      ApplyObserves(Apply(existing, first, columns).value.rows, second, columns);
      ApplyObserves(existing, first + second, columns);
      ObserveOfConcat(NOTHING, first, second, columns);
      ObserveOnTopExactlyWhen(Observe(NOTHING, first, columns).value, second, columns);
      SharedAgreeExactlyWhen(first, second, columns);
    } else if Apply(existing, first, columns).Ok? && Apply(Apply(existing, first, columns).value.rows, second, columns).Ok?
              && SharedAgree(first, second, columns) {
      AppliedAsOne(existing, first, second, columns);
    }
  }

  lemma ApplyObserves(existing: seq<Row>, incoming: seq<Row>, columns: seq<string>)
    requires Apply(existing, incoming, columns).Ok?
    ensures Observe(NOTHING, incoming, columns).Ok?
  {
  }

  lemma AppliedAsOne(existing: seq<Row>, first: seq<Row>, second: seq<Row>, columns: seq<string>)
    requires Apply(existing, first, columns).Ok?
    requires Apply(Apply(existing, first, columns).value.rows, second, columns).Ok?
    requires SharedAgree(first, second, columns)
    ensures Apply(existing, first + second, columns).Ok?
  {
    hide Load, Observe, PlaceAll, Place, Extends, Extended, KeyOf, NewOnly, Agrees, SharedAgree;
    var index := Load(existing, columns).value;
    var u, alone := Observe(NOTHING, first, columns).value, Observe(NOTHING, second, columns).value;
    SharedAgreeExactlyWhen(first, second, columns);
    ObserveOnTopExactlyWhen(u, second, columns);
    ObserveOfConcat(NOTHING, first, second, columns);
    ObserveExtends(u, second, columns);
    var both := Observe(NOTHING, first + second, columns).value;
    NothingIsIndexed(columns);
    ObserveIsIndexed(NOTHING, first, columns);
    ObserveIsIndexed(NOTHING, second, columns);
    ObserveIsIndexed(NOTHING, first + second, columns);
    ObservedAreNamed(NOTHING, first, columns);
    ExtendedParts(u, alone, both);
    PlacedOneByOne(index, u.byIdentity, u.order);
    LoadAfterAppend(existing, index, u.byIdentity, u.order, columns);
    PlacedOneByOne(Extended(index, u.byIdentity, u.order), alone.byIdentity, alone.order);
    NewOnlyMembers(alone.order, u.byIdentity);
    forall id | id in both.order ensures Place(index, both.byIdentity[id], id).Ok? {
      if id !in u.order {
        PlaceAfterFirst(index, u, alone, both, id);
      }
    }
    PlacedOneByOne(index, both.byIdentity, both.order);
  }

  /** An input whose batches are accepted one after the other and refused as one: the stored row holds no payload
      hash, so
      that each incoming row is compared in its own columns. */
  lemma SplitHidesTheConflict()
    ensures var stored := Row(map["id" := Int(1), "a" := Int(2), "b" := Int(3)], None, None);
            var narrow, wide := Row(map["id" := Int(1), "a" := Int(2)], None, None), stored;
            && Apply([stored], [narrow], ["id"]) == Ok(Outcome([stored], 0, 1, 0))
            && Apply([stored], [wide], ["id"]) == Ok(Outcome([stored], 0, 1, 0))
            && Apply([stored], [narrow] + [wide], ["id"]) == Err(ConflictingPayload)
  {
    hide Apply, Place, PayloadOf;
    var stored := Row(map["id" := Int(1), "a" := Int(2), "b" := Int(3)], None, None);
    var narrow := Row(map["id" := Int(1), "a" := Int(2)], None, None);
    var k := [Int(1)];
    assert KeyValues(stored.data, ["id"]) == k && KeyValues(narrow.data, ["id"]) == k;
    PayloadsDiffer(stored, narrow);
    ReplayOfPart(stored, narrow, k);
    ReplayOfPart(stored, stored, k);
    OneRowApplied(stored, narrow, ["id"], k);
    OneRowApplied(stored, stored, ["id"], k);
    TwoRowsConflict(stored, narrow, stored, ["id"], k);
  }

  lemma PayloadsDiffer(a: Row, b: Row)
    requires "b" in a.data && "b" !in b.data
    ensures PayloadOf(a) != PayloadOf(b)
  {
    assert "b" in Business(a) && "b" !in Business(b);
  }

  /** A row without payload hash takes a part of its columns as a replay. */
  lemma ReplayOfPart(stored: Row, row: Row, k: Key)
    requires stored.payloadHash.None? && row.data.Keys <= stored.data.Keys
    requires forall c | c in row.data :: row.data[c] == stored.data[c]
    ensures Place(map[k := stored], row, k) == Ok(None)
  {
    assert (map c | c in Business(row) :: stored.data[c]) == Business(row);
  }

  lemma ObserveOne(row: Row, columns: seq<string>, k: Key)
    requires KeyOf(row.data, columns) == Some(k)
    ensures Observe(NOTHING, [row], columns) == Ok(Unique(map[k := row], [k], 0))
  {
    hide KeyOf, PayloadOf;
    assert [row][..|[row]| - 1] == [];
    assert Observe(NOTHING, [], columns) == Ok(NOTHING);
    assert map[][k := row] == map[k := row] && [] + [k] == [k];
  }

  lemma OneRowApplied(stored: Row, row: Row, columns: seq<string>, k: Key)
    requires UniqueColumns(columns) && stored.identityHash.None?
    requires KeyOf(stored.data, columns) == Some(k) && KeyOf(row.data, columns) == Some(k)
    requires Place(map[k := stored], row, k) == Ok(None)
    ensures Apply([stored], [row], columns) == Ok(Outcome([stored], 0, 1, 0))
  {
    hide KeyOf, Place, Observe, ObserveRow;
    assert [stored][..0] == [] && [k][..0] == [];
    assert Load([stored], columns) == Ok(map[k := stored]);
    ObserveOne(row, columns, k);
    assert PlaceAll(map[k := stored], map[k := row], [k]) == Ok(Plan([], 1));
    assert [stored] + [] == [stored];
  }

  lemma TwoRowsConflict(stored: Row, a: Row, b: Row, columns: seq<string>, k: Key)
    requires UniqueColumns(columns) && stored.identityHash.None? && KeyOf(stored.data, columns) == Some(k)
    requires KeyOf(a.data, columns) == Some(k) && KeyOf(b.data, columns) == Some(k) && PayloadOf(a) != PayloadOf(b)
    ensures Apply([stored], [a] + [b], columns) == Err(ConflictingPayload)
  {
    hide KeyOf, PayloadOf;
    assert [stored][..0] == [] && ([a] + [b])[..1] == [a];
    assert Load([stored], columns) == Ok(map[k := stored]);
    ObserveOne(a, columns, k);
  }

  lemma NothingIsIndexed(columns: seq<string>)
    ensures Indexed(NOTHING) && Named(NOTHING.byIdentity, columns)
  {
  }

  lemma ExtendedParts(u: Unique, alone: Unique, both: Unique)
    requires Extends(u, alone, both) && Indexed(u) && Indexed(alone)
    ensures both.order == u.order + NewOnly(alone.order, u.byIdentity)
    ensures forall id | id in u.order :: id in both.byIdentity && id in u.byIdentity && both.byIdentity[id] == u.byIdentity[id]
    ensures forall id | id in NewOnly(alone.order, u.byIdentity) :: id in both.byIdentity
  {
    hide PayloadOf;
    NewOnlyMembers(alone.order, u.byIdentity);
  }

  /** Appending an accepted batch once more is accepted and inserts nothing. */
  lemma RepeatInsertsNothing(existing: seq<Row>, incoming: seq<Row>, columns: seq<string>)
    requires Apply(existing, incoming, columns).Ok?
    ensures var once := Apply(existing, incoming, columns).value;
            var again := Apply(once.rows, incoming, columns);
            && again.Ok? && again.value.rows == once.rows && again.value.inserted == 0
            && again.value.replayed == once.inserted + once.replayed && again.value.duplicates == once.duplicates
  {
    hide Load, Observe, PlaceAll, Extends, Extended, KeyOf;
    var index := Load(existing, columns).value;
    var u := Observe(NOTHING, incoming, columns).value;
    NothingIsIndexed(columns);
    ObserveIsIndexed(NOTHING, incoming, columns);
    ObservedAreNamed(NOTHING, incoming, columns);
    PlacedOneByOne(index, u.byIdentity, u.order);
    LoadAfterAppend(existing, index, u.byIdentity, u.order, columns);
    SelfExtends(u);
    SelfHasNothingNew(index, u);
    PlaceSecond(index, u, u, u, u.order);
    var after := Extended(index, u.byIdentity, u.order);
    PlacedAreCounted(index, u.byIdentity, u.order);
    PlacedAreCounted(after, u.byIdentity, u.order);
    var once := Apply(existing, incoming, columns).value;
    assert once.rows + [] == once.rows;
  }

  lemma SelfHasNothingNew(existing: Index, u: Unique)
    requires Indexed(u)
    ensures NewOnly(u.order, u.byIdentity) == [] && PlaceAll(existing, u.byIdentity, []) == Ok(Plan([], 0))
  {
    NewOnlyMembers(u.order, u.byIdentity);
    NoElements(NewOnly(u.order, u.byIdentity));
  }

  lemma SelfExtends(u: Unique)
    requires Indexed(u)
    ensures Extends(u, u, u)
  {
    hide PayloadOf;
    SelfHasNothingNew(map[], u);
    assert u.order + [] == u.order;
  }
}
