/** What an append does, said of the rows and their columns (apply/append.py). */
module AppendRows {
  import opened Common
  import opened Append

  // ---------------------------------------------------------------- payloads

  /** A column of the caller: its name does not start with the prefix of the framework. */
  predicate IsBusiness(c: string) {
    |c| < 11 || c[..11] != "_framework_"
  }

  /** The same business columns with the same values. */
  ghost predicate SamePayload(a: Columns, b: Columns) {
    forall c | IsBusiness(c) :: (c in a <==> c in b) && (c in a ==> a[c] == b[c])
  }

  /** The payload as it is hashed. */
  ghost predicate IsPayload(payload: Columns, data: Columns) {
    && (forall c :: c in payload <==> c in data && IsBusiness(c))
    && (forall c | c in payload :: payload[c] == data[c])
  }

  lemma FrameworkPrefix(c: string)
    ensures IsFrameworkField(c) <==> !IsBusiness(c)
  {
    assert |FRAMEWORK_FIELD_PREFIX| == 11;
  }

  lemma BusinessIsPayload(row: Row)
    ensures IsPayload(Business(row), row.data)
  {
    forall c ensures IsFrameworkField(c) <==> !IsBusiness(c) {
      FrameworkPrefix(c);
    }
  }

  lemma PayloadsExactlyWhen(a: Row, b: Row)
    ensures PayloadOf(a) == PayloadOf(b) <==> SamePayload(a.data, b.data)
  {
    hide IsBusiness, IsFrameworkField, Business;
    BusinessIsPayload(a);
    BusinessIsPayload(b);
    if SamePayload(a.data, b.data) {
      assert Business(a) == Business(b);
    }
  }

  // ---------------------------------------------------------------- one identity

  /** A stored row takes the incoming one as a replay: by its payload hash if it has one, and otherwise in the
      columns that
      the incoming row brings. */
  ghost predicate TakesAsReplay(stored: Row, row: Row) {
    if stored.payloadHash.Some? then exists p :: IsPayload(p, row.data) && stored.payloadHash.value == OfPayload(p)
    else forall c | c in row.data && IsBusiness(c) :: c in stored.data && stored.data[c] == row.data[c]
  }

  /** A new identity: the incoming row brings no hash fields, and gets those of its identity and payload. */
  ghost predicate IsDecorated(row: Row, incoming: Row, id: Key) {
    && row.data == incoming.data && row.identityHash == Some(OfIdentity(id))
    && row.payloadHash.Some? && row.payloadHash.value.OfPayload? && IsPayload(row.payloadHash.value.payload, incoming.data)
  }

  /** A stored row that is compared by its columns lacks one that the incoming row brings. */
  ghost predicate LacksColumns(stored: Row, row: Row) {
    stored.payloadHash.None? && exists c :: c in row.data && IsBusiness(c) && c !in stored.data
  }

  lemma PayloadIsUnique(a: Columns, b: Columns, data: Columns)
    requires IsPayload(a, data) && IsPayload(b, data)
    ensures a == b
  {
  }

  lemma PlaceShows(existing: Index, row: Row, id: Key)
    ensures var placed := Place(existing, row, id);
            if id in existing then
              && (placed.Ok? <==> TakesAsReplay(existing[id], row))
              && (placed.Ok? ==> placed.value.None?)
              && (placed.Err? ==> placed.error == if LacksColumns(existing[id], row) then MissingBusinessColumns else ConflictingPayload)
            else
              && (placed.Ok? <==> row.identityHash.None? && row.payloadHash.None?)
              && (placed.Ok? ==> placed.value.Some? && IsDecorated(placed.value.value, row, id))
              && (placed.Err? ==> placed.error.ReservedFields?)
  {
    hide IsBusiness, Business;
    BusinessIsPayload(row);
    if id in existing {
      if existing[id].payloadHash.Some? {
        forall p | IsPayload(p, row.data) ensures p == Business(row) {
          PayloadIsUnique(p, Business(row), row.data);
        }
      } else if Business(row).Keys <= existing[id].data.Keys {
        var part := map c | c in Business(row) :: existing[id].data[c];
        assert part == Business(row) <==> TakesAsReplay(existing[id], row) by {
          assert part.Keys == Business(row).Keys;
          assert forall c | c in part :: part[c] == existing[id].data[c] && Business(row)[c] == row.data[c];
          if TakesAsReplay(existing[id], row) {
            assert forall c | c in part :: part[c] == Business(row)[c];
          }
        }
      }
    }
  }

  // ---------------------------------------------------------------- the lists

  ghost predicate SameIdentity(a: Row, b: Row, columns: seq<string>) {
    KeyOf(a.data, columns) == KeyOf(b.data, columns)
  }

  /** Stored rows have distinct identities, and the identity hashes that are present are right. */
  ghost predicate StoredIsSound(rows: seq<Row>, columns: seq<string>) {
    && (forall r | r in rows :: KeyOf(r.data, columns).Some?)
    && Distinct(rows, columns)
    && (forall r | r in rows && r.identityHash.Some? && KeyOf(r.data, columns).Some? :: r.identityHash.value == OfIdentity(KeyOf(r.data, columns).value))
  }

  ghost predicate Distinct(rows: seq<Row>, columns: seq<string>) {
    forall i, j | 0 <= i < j < |rows| :: !SameIdentity(rows[i], rows[j], columns)
  }

  lemma DistinctOneMore(rows: seq<Row>, last: Row, columns: seq<string>)
    ensures Distinct(rows + [last], columns) <==> Distinct(rows, columns) && forall r | r in rows :: !SameIdentity(r, last, columns)
  {
    hide SameIdentity;
    var all := rows + [last];
    assert all[|rows|] == last && forall i | 0 <= i < |rows| :: all[i] == rows[i];
    if Distinct(all, columns) {
      forall i, j | 0 <= i < j < |rows| ensures !SameIdentity(rows[i], rows[j], columns) {
        assert !SameIdentity(all[i], all[j], columns);
      }
      forall r | r in rows ensures !SameIdentity(r, last, columns) {
        var i :| 0 <= i < |rows| && rows[i] == r;
        assert !SameIdentity(all[i], all[|rows|], columns);
      }
    }
  }

  /** The index files each stored row under its identity, and nothing else. */
  ghost predicate Files(index: Index, rows: seq<Row>, columns: seq<string>) {
    && (forall r | r in rows :: KeyOf(r.data, columns).Some? && Find(index, KeyOf(r.data, columns).value) == Some(r))
    && (forall id | id in index :: index[id] in rows && KeyOf(index[id].data, columns) == Some(id))
  }

  lemma StoredOneMore(rows: seq<Row>, last: Row, index: Index, columns: seq<string>)
    requires Files(index, rows, columns)
    ensures StoredIsSound(rows + [last], columns) <==>
              StoredIsSound(rows, columns) && LoadRow(index, last, columns).Ok?
    ensures LoadRow(index, last, columns).Ok? ==> Files(LoadRow(index, last, columns).value, rows + [last], columns)
  {
    hide KeyOf, Distinct;
    DistinctOneMore(rows, last, columns);
    assert forall r :: r in rows + [last] <==> r in rows || r == last;
  }

  lemma NothingStored(columns: seq<string>)
    ensures StoredIsSound([], columns) && Files(map[], [], columns)
  {
  }

  lemma {:induction false} LoadExactlyWhen(rows: seq<Row>, columns: seq<string>)
    ensures Load(rows, columns).Ok? <==> StoredIsSound(rows, columns)
    ensures Load(rows, columns).Ok? ==> Files(Load(rows, columns).value, rows, columns)
    decreases |rows|
  {
    hide LoadRow, StoredIsSound, Files;
    if rows == [] {
      NothingStored(columns);
    } else {
      var prefix, last := rows[..|rows| - 1], rows[|rows| - 1];
      assert rows == prefix + [last];
      LoadExactlyWhen(prefix, columns);
      if Load(prefix, columns).Ok? {
        StoredOneMore(prefix, last, Load(prefix, columns).value, columns);
      } else {
        SoundEarlier(prefix, last, columns);
      }
    }
  }

  lemma SoundEarlier(rows: seq<Row>, last: Row, columns: seq<string>)
    ensures StoredIsSound(rows + [last], columns) ==> StoredIsSound(rows, columns)
  {
    hide KeyOf, Distinct;
    DistinctOneMore(rows, last, columns);
    assert forall r | r in rows :: r in rows + [last];
  }

  /** Incoming rows have identities, and rows of one identity carry one payload. */
  ghost predicate IncomingIsSound(rows: seq<Row>, columns: seq<string>) {
    && (forall r | r in rows :: KeyOf(r.data, columns).Some?)
    && (forall a, b | a in rows && b in rows && SameIdentity(a, b, columns) :: SamePayload(a.data, b.data))
  }

  /** No row before it has its identity. */
  ghost predicate IsFirst(rows: seq<Row>, i: nat, columns: seq<string>)
    requires i < |rows|
  {
    forall j | 0 <= j < i :: !SameIdentity(rows[j], rows[i], columns)
  }

  /** The first rows of their identities, in the order of the list. */
  ghost function Firsts(rows: seq<Row>, columns: seq<string>): seq<Row> {
    if rows == [] then []
    else
      var before, last := Firsts(rows[..|rows| - 1], columns), |rows| - 1;
      if IsFirst(rows, last, columns) then before + [rows[last]] else before
  }

  /** The observation holds the first row of each identity in their order. */
  ghost predicate Observes(u: Unique, rows: seq<Row>, columns: seq<string>) {
    && Files(u.byIdentity, Firsts(rows, columns), columns)
    && |u.order| == |Firsts(rows, columns)|
    && (forall i | 0 <= i < |u.order| :: KeyOf(Firsts(rows, columns)[i].data, columns) == Some(u.order[i]))
    && |u.order| + u.duplicates == |rows|
    && (forall r | r in rows :: KeyOf(r.data, columns).Some? && KeyOf(r.data, columns).value in u.byIdentity
                                && SamePayload(u.byIdentity[KeyOf(r.data, columns).value].data, r.data))
    && (forall r | r in Firsts(rows, columns) :: r in rows)
  }

  lemma SoundOneMore(rows: seq<Row>, last: Row, columns: seq<string>)
    ensures IncomingIsSound(rows + [last], columns) ==> IncomingIsSound(rows, columns)
  {
    hide KeyOf, SamePayload;
    assert forall r | r in rows :: r in rows + [last];
  }

  lemma FirstExactlyWhen(u: Unique, rows: seq<Row>, last: Row, columns: seq<string>)
    requires Observes(u, rows, columns) && KeyOf(last.data, columns).Some?
    ensures IsFirst(rows + [last], |rows|, columns) <==> KeyOf(last.data, columns).value !in u.byIdentity
  {
    hide KeyOf, SamePayload, Firsts;
    var all, id := rows + [last], KeyOf(last.data, columns).value;
    assert all[|rows|] == last && forall j | 0 <= j < |rows| :: all[j] == rows[j] && rows[j] in rows;
    if id in u.byIdentity {
      var j :| 0 <= j < |rows| && rows[j] == u.byIdentity[id];
      assert SameIdentity(all[j], all[|rows|], columns);
    }
  }

  lemma SamePayloadAlong(a: Columns, b: Columns, c: Columns)
    ensures SamePayload(a, a) && (SamePayload(a, b) ==> SamePayload(b, a))
    ensures SamePayload(a, b) && SamePayload(b, c) ==> SamePayload(a, c)
  {
  }

  lemma ObservedSound(u: Unique, rows: seq<Row>, last: Row, columns: seq<string>)
    requires Observes(u, rows, columns) && IncomingIsSound(rows, columns)
    ensures IncomingIsSound(rows + [last], columns) <==> ObserveRow(u, last, columns).Ok?
  {
    hide KeyOf, SamePayload, Firsts, PayloadOf;
    assert last in rows + [last] && forall r :: r in rows + [last] <==> r in rows || r == last;
    if KeyOf(last.data, columns).Some? {
      var id := KeyOf(last.data, columns).value;
      SamePayloadAlong(last.data, last.data, last.data);
      if id in u.byIdentity {
        var held := u.byIdentity[id];
        PayloadsExactlyWhen(held, last);
        if SamePayload(held.data, last.data) {
          forall a | a in rows && SameIdentity(a, last, columns)
            ensures SamePayload(a.data, last.data) && SamePayload(last.data, a.data)
          {
            SamePayloadAlong(held.data, a.data, last.data);
            SamePayloadAlong(a.data, held.data, last.data);
            SamePayloadAlong(a.data, last.data, last.data);
          }
        }
      }
    }
  }

  lemma FirstsOneMore(rows: seq<Row>, last: Row, columns: seq<string>)
    ensures Firsts(rows + [last], columns) ==
            if IsFirst(rows + [last], |rows|, columns) then Firsts(rows, columns) + [last] else Firsts(rows, columns)
  {
    hide IsFirst;
    assert (rows + [last])[..|rows + [last]| - 1] == rows;
  }

  lemma FilesOneMore(index: Index, rows: seq<Row>, row: Row, id: Key, columns: seq<string>)
    requires Files(index, rows, columns) && KeyOf(row.data, columns) == Some(id) && id !in index
    ensures Files(index[id := row], rows + [row], columns)
  {
    hide KeyOf;
    assert forall r :: r in rows + [row] <==> r in rows || r == row;
  }

  lemma ObservesOneMore(u: Unique, rows: seq<Row>, last: Row, columns: seq<string>)
    requires Observes(u, rows, columns) && ObserveRow(u, last, columns).Ok?
    ensures Observes(ObserveRow(u, last, columns).value, rows + [last], columns)
  {
    hide KeyOf, SamePayload, Firsts, IsFirst, PayloadOf, Files;
    var id := KeyOf(last.data, columns).value;
    FirstExactlyWhen(u, rows, last, columns);
    FirstsOneMore(rows, last, columns);
    SamePayloadAlong(last.data, last.data, last.data);
    if id in u.byIdentity {
      PayloadsExactlyWhen(u.byIdentity[id], last);
    } else {
      FilesOneMore(u.byIdentity, Firsts(rows, columns), last, id, columns);
    }
    assert forall r :: r in rows + [last] <==> r in rows || r == last;
  }

  lemma NothingObserved(columns: seq<string>)
    ensures Observes(NOTHING, [], columns) && IncomingIsSound([], columns)
  {
  }

  lemma {:induction false} ObserveExactlyWhen(rows: seq<Row>, columns: seq<string>)
    ensures Observe(NOTHING, rows, columns).Ok? <==> IncomingIsSound(rows, columns)
    ensures Observe(NOTHING, rows, columns).Ok? ==> Observes(Observe(NOTHING, rows, columns).value, rows, columns)
    decreases |rows|
  {
    hide ObserveRow, IncomingIsSound, Observes;
    if rows == [] {
      NothingObserved(columns);
    } else {
      var prefix, last := rows[..|rows| - 1], rows[|rows| - 1];
      assert rows == prefix + [last];
      ObserveExactlyWhen(prefix, columns);
      SoundOneMore(prefix, last, columns);
      if Observe(NOTHING, prefix, columns).Ok? {
        ObservedSound(Observe(NOTHING, prefix, columns).value, prefix, last, columns);
        if Observe(NOTHING, rows, columns).Ok? {
          ObservesOneMore(Observe(NOTHING, prefix, columns).value, prefix, last, columns);
        }
      }
    }
  }

  // ---------------------------------------------------------------- the whole append

  ghost predicate IsStored(existing: seq<Row>, row: Row, columns: seq<string>) {
    exists s :: s in existing && SameIdentity(s, row, columns)
  }

  /** A row of a stored identity is a replay of the stored row; any other row brings no hash fields. */
  ghost predicate MayPlace(existing: seq<Row>, row: Row, columns: seq<string>) {
    if IsStored(existing, row, columns) then forall s | s in existing && SameIdentity(s, row, columns) :: TakesAsReplay(s, row)
    else row.identityHash.None? && row.payloadHash.None?
  }

  /** The rows whose identity is not stored. */
  ghost function NotStored(existing: seq<Row>, rows: seq<Row>, columns: seq<string>): seq<Row> {
    if rows == [] then []
    else
      var before, last := NotStored(existing, rows[..|rows| - 1], columns), rows[|rows| - 1];
      if IsStored(existing, last, columns) then before else before + [last]
  }

  lemma IndexedExactlyWhen(existing: seq<Row>, index: Index, row: Row, id: Key, columns: seq<string>)
    requires Files(index, existing, columns) && KeyOf(row.data, columns) == Some(id)
    ensures id in index <==> IsStored(existing, row, columns)
    ensures Place(index, row, id).Ok? <==> MayPlace(existing, row, columns)
  {
    hide KeyOf, TakesAsReplay;
    PlaceShows(index, row, id);
    if id in index {
      assert SameIdentity(index[id], row, columns);
    }
  }

  /** The first rows, under the identities that the observation lists. */
  ghost predicate Listed(order: seq<Key>, incoming: Index, firsts: seq<Row>, columns: seq<string>) {
    && |order| == |firsts|
    && forall i | 0 <= i < |order| ::
         KeyOf(firsts[i].data, columns) == Some(order[i]) && order[i] in incoming && incoming[order[i]] == firsts[i]
  }

  /** The appended rows are the decorated ones. */
  ghost predicate Decorates(appended: seq<Row>, rows: seq<Row>, columns: seq<string>) {
    && |appended| == |rows|
    && forall i | 0 <= i < |rows| :: KeyOf(rows[i].data, columns).Some? && IsDecorated(appended[i], rows[i], KeyOf(rows[i].data, columns).value)
  }

  lemma {:induction false} PlacedExactlyWhen(
      existing: seq<Row>, index: Index, incoming: Index, order: seq<Key>, firsts: seq<Row>, columns: seq<string>)
    requires Files(index, existing, columns) && Listed(order, incoming, firsts, columns)
    requires forall id | id in order :: id in incoming
    ensures PlaceAll(index, incoming, order).Ok? <==> forall row | row in firsts :: MayPlace(existing, row, columns)
    ensures PlaceAll(index, incoming, order).Ok? ==>
              var p, news := PlaceAll(index, incoming, order).value, NotStored(existing, firsts, columns);
              Decorates(p.appended, news, columns) && p.replayed == |firsts| - |news|
    decreases |order|
  {
    hide KeyOf, MayPlace, IsStored, Place, Files, IsDecorated;
    if order != [] {
      var n := |order| - 1;
      assert firsts == firsts[..n] + [firsts[n]];
      PlacedExactlyWhen(existing, index, incoming, order[..n], firsts[..n], columns);
      IndexedExactlyWhen(existing, index, firsts[n], order[n], columns);
      PlaceShows(index, firsts[n], order[n]);
    }
  }

  /** An append is accepted exactly when the identity columns are given and distinct, the stored rows have distinct
      identities and right hashes, the incoming rows of one identity agree in the business columns, and each first
      row of
      an identity is a replay of the stored row or brings no hash fields. It keeps the stored rows and appends the
      decorated first rows of the identities that were not stored, in the order of the list. */
  lemma AppendExactlyWhen(existing: seq<Row>, incoming: seq<Row>, columns: seq<string>)
    ensures var r, firsts := Apply(existing, incoming, columns), Firsts(incoming, columns);
            && (r.Ok? <==>
                  && columns != [] && (forall i, j | 0 <= i < j < |columns| :: columns[i] != columns[j])
                  && StoredIsSound(existing, columns) && IncomingIsSound(incoming, columns)
                  && forall row | row in firsts :: MayPlace(existing, row, columns))
            && (r.Ok? ==>
                  var news := NotStored(existing, firsts, columns);
                  && |r.value.rows| == |existing| + |news| && r.value.rows[..|existing|] == existing
                  && Decorates(r.value.rows[|existing|..], news, columns)
                  && r.value.inserted == |news| && r.value.replayed == |firsts| - |news|
                  && r.value.duplicates == |incoming| - |firsts|)
  {
    hide Load, Observe, PlaceAll, StoredIsSound, IncomingIsSound, MayPlace, KeyOf, Firsts, Decorates;
    LoadExactlyWhen(existing, columns);
    ObserveExactlyWhen(incoming, columns);
    if UniqueColumns(columns) && Load(existing, columns).Ok? && Observe(NOTHING, incoming, columns).Ok? {
      var u := Observe(NOTHING, incoming, columns).value;
      ListedFirsts(u, incoming, columns);
      ObservedOrderIsIndexed(NOTHING, incoming, columns);
      PlacedExactlyWhen(existing, Load(existing, columns).value, u.byIdentity, u.order, Firsts(incoming, columns), columns);
      var plan := PlaceAll(Load(existing, columns).value, u.byIdentity, u.order);
      if plan.Ok? {
        assert (existing + plan.value.appended)[|existing|..] == plan.value.appended;
        DecoratedLength(plan.value.appended, NotStored(existing, Firsts(incoming, columns), columns), columns);
      }
    }
  }

  lemma DecoratedLength(appended: seq<Row>, rows: seq<Row>, columns: seq<string>)
    requires Decorates(appended, rows, columns)
    ensures |appended| == |rows|
  {
  }

  lemma ListedFirsts(u: Unique, incoming: seq<Row>, columns: seq<string>)
    requires Observes(u, incoming, columns)
    ensures Listed(u.order, u.byIdentity, Firsts(incoming, columns), columns) && |u.order| + u.duplicates == |incoming|
  {
    hide KeyOf, SamePayload, Firsts;
    var firsts := Firsts(incoming, columns);
    forall i | 0 <= i < |u.order| ensures u.order[i] in u.byIdentity && u.byIdentity[u.order[i]] == firsts[i] {
      assert firsts[i] in firsts;
    }
  }
}
