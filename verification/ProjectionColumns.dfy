/** What the current projection reads from the history, said of the history rows and their columns
    (apply/current_projection.py). */
module ProjectionColumns {
  import opened Common
  import opened CurrentProjection

  /** The row of the target: the projected columns of a history row, and no others. */
  ghost predicate Projects(row: Columns, data: Columns, projected: seq<string>) {
    && (forall c :: c in row <==> c in projected)
    && (forall c | c in projected :: c in data && row[c] == data[c])
  }

  ghost predicate HasKey(h: HistoryRow, businessKey: seq<string>, k: Key) {
    KeyOf(h.data, businessKey) == Some(k)
  }

  /** The history can be read: complete keys, boolean flags, at most one current row of a key, and every projected
      column in
      the current rows. */
  ghost predicate Readable(rows: seq<HistoryRow>, businessKey: seq<string>, projected: seq<string>) {
    && (forall h | h in rows :: KeyOf(h.data, businessKey).Some? && h.current.Some?)
    && OneCurrentPerKey(rows, businessKey)
    && (forall h, c | h in rows && h.current == Some(true) && c in projected :: c in h.data)
  }

  ghost predicate OneCurrentPerKey(rows: seq<HistoryRow>, businessKey: seq<string>) {
    forall i, j | 0 <= i < j < |rows| && rows[i].current == Some(true) && rows[j].current == Some(true) ::
      KeyOf(rows[i].data, businessKey) != KeyOf(rows[j].data, businessKey)
  }

  /** All keys that occur, and for each key with a current row its projected columns. */
  ghost predicate Reads(h: History, rows: seq<HistoryRow>, businessKey: seq<string>, projected: seq<string>) {
    && (forall k :: k in h.keys <==> exists r :: r in rows && HasKey(r, businessKey, k))
    && (forall k :: k in h.current <==> exists r :: r in rows && r.current == Some(true) && HasKey(r, businessKey, k))
    && (forall r, k | r in rows && r.current == Some(true) && HasKey(r, businessKey, k) && k in h.current ::
          Projects(h.current[k], r.data, projected))
  }

  lemma ProjectRowExactlyWhen(data: Columns, projected: seq<string>)
    ensures ProjectRow(data, projected).Some? <==> forall c | c in projected :: c in data
    ensures ProjectRow(data, projected).Some? ==> Projects(ProjectRow(data, projected).value, data, projected)
  {
  }

  lemma NothingRead(businessKey: seq<string>, projected: seq<string>)
    ensures Readable([], businessKey, projected) && Reads(History(map[], {}), [], businessKey, projected)
  {
  }

  lemma OneCurrentMore(rows: seq<HistoryRow>, last: HistoryRow, businessKey: seq<string>)
    ensures OneCurrentPerKey(rows + [last], businessKey) <==>
            && OneCurrentPerKey(rows, businessKey)
            && (last.current == Some(true) ==>
                  forall r | r in rows && r.current == Some(true) :: KeyOf(r.data, businessKey) != KeyOf(last.data, businessKey))
  {
    hide KeyOf;
    var all := rows + [last];
    assert all[|rows|] == last && forall i | 0 <= i < |rows| :: all[i] == rows[i];
    if OneCurrentPerKey(all, businessKey) {
      forall i, j | 0 <= i < j < |rows| && rows[i].current == Some(true) && rows[j].current == Some(true)
        ensures KeyOf(rows[i].data, businessKey) != KeyOf(rows[j].data, businessKey)
      {
        assert KeyOf(all[i].data, businessKey) != KeyOf(all[j].data, businessKey);
      }
      forall r | r in rows && r.current == Some(true) && last.current == Some(true)
        ensures KeyOf(r.data, businessKey) != KeyOf(last.data, businessKey)
      {
        var i :| 0 <= i < |rows| && rows[i] == r;
        assert KeyOf(all[i].data, businessKey) != KeyOf(all[|rows|].data, businessKey);
      }
    }
  }

  lemma RowReadable(
      h: History, rows: seq<HistoryRow>, last: HistoryRow, businessKey: seq<string>, projected: seq<string>)
    requires Reads(h, rows, businessKey, projected)
    ensures Readable(rows + [last], businessKey, projected) <==>
              Readable(rows, businessKey, projected) && NextHistoryRow(h, last, businessKey, projected).Ok?
  {
    hide KeyOf, OneCurrentPerKey, ProjectRow, Projects;
    OneCurrentMore(rows, last, businessKey);
    ProjectRowExactlyWhen(last.data, projected);
    assert forall r :: r in rows + [last] <==> r in rows || r == last;
    assert KeyOf(last.data, businessKey).Some? ==>
      (KeyOf(last.data, businessKey).value in h.current <==>
         exists r :: r in rows && r.current == Some(true) && HasKey(r, businessKey, KeyOf(last.data, businessKey).value));
  }

  lemma RowRead(h: History, rows: seq<HistoryRow>, last: HistoryRow, businessKey: seq<string>, projected: seq<string>)
    requires Reads(h, rows, businessKey, projected) && NextHistoryRow(h, last, businessKey, projected).Ok?
    ensures Reads(NextHistoryRow(h, last, businessKey, projected).value, rows + [last], businessKey, projected)
  {
    hide KeyOf, ProjectRow, Projects;
    ProjectRowExactlyWhen(last.data, projected);
    var next, all := NextHistoryRow(h, last, businessKey, projected).value, rows + [last];
    assert forall r :: r in all <==> r in rows || r == last;
    var mine := KeyOf(last.data, businessKey).value;
    assert HasKey(last, businessKey, mine) && last in all;
    forall k ensures k in next.keys <==> exists r :: r in all && HasKey(r, businessKey, k) {
      if k in h.keys {
        var r :| r in rows && HasKey(r, businessKey, k);
        assert r in all;
      }
    }
    forall k ensures k in next.current <==> exists r :: r in all && r.current == Some(true) && HasKey(r, businessKey, k) {
      if k in h.current {
        var r :| r in rows && r.current == Some(true) && HasKey(r, businessKey, k);
        assert r in all;
      }
    }
  }

  /** The history is read exactly when it is readable, into all its keys and the projected columns of its current
      rows. */
  lemma {:induction false} HistoryIsReadExactlyWhen(
      rows: seq<HistoryRow>, businessKey: seq<string>, projected: seq<string>)
    ensures ReadHistory(rows, businessKey, projected).Ok? <==> Readable(rows, businessKey, projected)
    ensures ReadHistory(rows, businessKey, projected).Ok? ==>
              Reads(ReadHistory(rows, businessKey, projected).value, rows, businessKey, projected)
    decreases |rows|
  {
    hide NextHistoryRow, Readable, Reads;
    if rows == [] {
      NothingRead(businessKey, projected);
    } else {
      var prefix, last := rows[..|rows| - 1], rows[|rows| - 1];
      assert rows == prefix + [last];
      HistoryIsReadExactlyWhen(prefix, businessKey, projected);
      if ReadHistory(prefix, businessKey, projected).Ok? {
        var h := ReadHistory(prefix, businessKey, projected).value;
        RowReadable(h, prefix, last, businessKey, projected);
        if ReadHistory(rows, businessKey, projected).Ok? {
          RowRead(h, prefix, last, businessKey, projected);
        }
      } else {
        ReadableEarlier(prefix, last, businessKey, projected);
      }
    }
  }

  lemma ReadableEarlier(rows: seq<HistoryRow>, last: HistoryRow, businessKey: seq<string>, projected: seq<string>)
    ensures Readable(rows + [last], businessKey, projected) ==> Readable(rows, businessKey, projected)
  {
    hide KeyOf, OneCurrentPerKey;
    OneCurrentMore(rows, last, businessKey);
    assert forall r | r in rows :: r in rows + [last];
  }

  // ---------------------------------------------------------------- the stored rows

  /** Complete and distinct keys. */
  ghost predicate StoredIsSound(rows: seq<Columns>, businessKey: seq<string>) {
    && (forall r | r in rows :: KeyOf(r, businessKey).Some?)
    && (forall i, j | 0 <= i < j < |rows| :: KeyOf(rows[i], businessKey) != KeyOf(rows[j], businessKey))
  }

  ghost predicate Files(t: Rows, rows: seq<Columns>, businessKey: seq<string>) {
    && (forall r | r in rows :: KeyOf(r, businessKey).Some? && Find(t, KeyOf(r, businessKey).value) == Some(r))
    && (forall k | k in t :: t[k] in rows && KeyOf(t[k], businessKey) == Some(k))
  }

  lemma StoredOneMore(t: Rows, rows: seq<Columns>, row: Columns, businessKey: seq<string>)
    requires Files(t, rows, businessKey) && StoredIsSound(rows, businessKey)
    ensures StoredIsSound(rows + [row], businessKey) <==> KeyOf(row, businessKey).Some? && KeyOf(row, businessKey).value !in t
    ensures StoredIsSound(rows + [row], businessKey) ==> Files(t[KeyOf(row, businessKey).value := row], rows + [row], businessKey)
  {
    hide KeyOf;
    var all := rows + [row];
    assert all[|rows|] == row && forall i | 0 <= i < |rows| :: all[i] == rows[i] && rows[i] in rows;
    assert forall r :: r in all <==> r in rows || r == row;
    if KeyOf(row, businessKey).Some? && KeyOf(row, businessKey).value in t {
      var i :| 0 <= i < |rows| && rows[i] == t[KeyOf(row, businessKey).value];
      assert KeyOf(all[i], businessKey) == KeyOf(all[|rows|], businessKey);
    }
  }

  lemma SoundEarlier(rows: seq<Columns>, row: Columns, businessKey: seq<string>)
    requires StoredIsSound(rows + [row], businessKey)
    ensures StoredIsSound(rows, businessKey)
  {
    hide KeyOf;
    var all := rows + [row];
    assert forall i | 0 <= i < |rows| :: all[i] == rows[i] && rows[i] in all;
  }

  /** The target loads exactly when its rows have complete and distinct keys. */
  lemma {:induction false} TargetLoadsExactlyWhen(rows: seq<Columns>, businessKey: seq<string>)
    ensures LoadRows(rows, businessKey).Ok? <==> StoredIsSound(rows, businessKey)
    ensures LoadRows(rows, businessKey).Ok? ==> Files(LoadRows(rows, businessKey).value, rows, businessKey)
    decreases |rows|
  {
    hide KeyOf, StoredIsSound, Files;
    if rows == [] {
      NothingStored(businessKey);
    } else {
      var prefix, last := rows[..|rows| - 1], rows[|rows| - 1];
      assert rows == prefix + [last];
      TargetLoadsExactlyWhen(prefix, businessKey);
      if LoadRows(prefix, businessKey).Ok? {
        StoredOneMore(LoadRows(prefix, businessKey).value, prefix, last, businessKey);
      } else if StoredIsSound(rows, businessKey) {
        SoundEarlier(prefix, last, businessKey);
      }
    }
  }

  lemma NothingStored(businessKey: seq<string>)
    ensures StoredIsSound([], businessKey) && Files(map[], [], businessKey)
  {
  }
}
