/** Append-once semantics (apply/append.py): only genuinely new identities are appended, exact repetitions
    are replays, and a reused identity with another payload is a conflict. */
module Append {
  import opened Common

  /** Hashes are taken to be injective; anything else that is stored in their place is foreign. */
  datatype Fingerprint = OfIdentity(k: Key) | OfPayload(payload: Columns) | Foreign(text: string)

  /** A row with its two framework-owned evidence fields, None when absent. */
  datatype Row = Row(data: Columns, identityHash: Option<Fingerprint>, payloadHash: Option<Fingerprint>)

  datatype AppendError =
    | InvalidIdentityColumns
    | BadIdentity
    | DuplicateInTarget
    | EvidenceMismatch
    | ConflictingPayload
    | MissingBusinessColumns
    | ReservedFields

  const FRAMEWORK_FIELD_PREFIX := "_framework_"

  predicate IsFrameworkField(column: string) {
    FRAMEWORK_FIELD_PREFIX <= column
  }

  /** business_payload */
  function Business(row: Row): Columns {
    map c | c in row.data && !IsFrameworkField(c) :: row.data[c]
  }

  function PayloadOf(row: Row): Fingerprint {
    OfPayload(Business(row))
  }

  type Index = map<Key, Row>

  function LoadRow(index: Index, row: Row, columns: seq<string>): Result<Index, AppendError> {
    match KeyOf(row.data, columns)
    case None => Err(BadIdentity)
    case Some(id) =>
      if id in index then Err(DuplicateInTarget)
      else if row.identityHash.Some? && row.identityHash.value != OfIdentity(id) then Err(EvidenceMismatch)
      else Ok(index[id := row])
  }

  function Load(rows: seq<Row>, columns: seq<string>): Result<Index, AppendError> {
    if rows == [] then Ok(map[])
    else
      var index := Load(rows[..|rows| - 1], columns);
      if index.Err? then index else LoadRow(index.value, rows[|rows| - 1], columns)
  }

  /** The first row of every identity, in order of appearance, and the number of repetitions. */
  datatype Unique = Unique(byIdentity: Index, order: seq<Key>, duplicates: nat)

  const NOTHING := Unique(map[], [], 0)

  function ObserveRow(u: Unique, row: Row, columns: seq<string>): Result<Unique, AppendError> {
    match KeyOf(row.data, columns)
    case None => Err(BadIdentity)
    case Some(id) =>
      if id in u.byIdentity then
        if PayloadOf(u.byIdentity[id]) != PayloadOf(row) then Err(ConflictingPayload)
        else Ok(u.(duplicates := u.duplicates + 1))
      else Ok(Unique(u.byIdentity[id := row], u.order + [id], u.duplicates))
  }

  function Observe(u: Unique, rows: seq<Row>, columns: seq<string>): Result<Unique, AppendError> {
    if rows == [] then Ok(u)
    else
      var before := Observe(u, rows[..|rows| - 1], columns);
      if before.Err? then before else ObserveRow(before.value, rows[|rows| - 1], columns)
  }

  /** The fingerprint of an existing row as far as an incoming row can tell. */
  function ExistingFingerprint(existing: Row, incoming: Row): Result<Fingerprint, AppendError> {
    if existing.payloadHash.Some? then Ok(existing.payloadHash.value)
    else if !(Business(incoming).Keys <= existing.data.Keys) then Err(MissingBusinessColumns)
    else Ok(OfPayload(map c | c in Business(incoming) :: existing.data[c]))
  }

  function Decorate(row: Row, id: Key): Result<Row, AppendError> {
    if row.identityHash.Some? || row.payloadHash.Some? then Err(ReservedFields)
    else Ok(Row(row.data, Some(OfIdentity(id)), Some(PayloadOf(row))))
  }

  /** What becomes of one identity: None for a replay, or the row to append. */
  function Place(existing: Index, row: Row, id: Key): Result<Option<Row>, AppendError> {
    if id in existing then
      var stored := ExistingFingerprint(existing[id], row);
      if stored.Err? then Err(stored.error)
      else if stored.value != PayloadOf(row) then Err(ConflictingPayload)
      else Ok(None)
    else
      var decorated := Decorate(row, id);
      if decorated.Err? then Err(decorated.error) else Ok(Some(decorated.value))
  }

  datatype Plan = Plan(appended: seq<Row>, replayed: nat)

  function PlaceNext(p: Plan, existing: Index, incoming: Index, id: Key): Result<Plan, AppendError>
    requires id in incoming
  {
    var placed := Place(existing, incoming[id], id);
    if placed.Err? then Err(placed.error)
    else if placed.value.None? then Ok(p.(replayed := p.replayed + 1))
    else Ok(p.(appended := p.appended + [placed.value.value]))
  }

  function PlaceAll(existing: Index, incoming: Index, order: seq<Key>): Result<Plan, AppendError>
    requires forall id | id in order :: id in incoming
  {
    if order == [] then Ok(Plan([], 0))
    else
      assert order[|order| - 1] in order;
      var before := PlaceAll(existing, incoming, order[..|order| - 1]);
      if before.Err? then before else PlaceNext(before.value, existing, incoming, order[|order| - 1])
  }

  datatype Outcome = Outcome(rows: seq<Row>, inserted: nat, replayed: nat, duplicates: nat)

  lemma {:induction false} ObservedOrderIsIndexed(u: Unique, rows: seq<Row>, columns: seq<string>)
    requires forall id | id in u.order :: id in u.byIdentity
    ensures Observe(u, rows, columns).Ok? ==>
              forall id | id in Observe(u, rows, columns).value.order :: id in Observe(u, rows, columns).value.byIdentity
    decreases |rows|
  {
    hide KeyOf, Business;
    if rows != [] {
      ObservedOrderIsIndexed(u, rows[..|rows| - 1], columns);
    }
  }

  function Apply(existing: seq<Row>, incoming: seq<Row>, columns: seq<string>): Result<Outcome, AppendError> {
    if !UniqueColumns(columns) then Err(InvalidIdentityColumns)
    else
      var index := Load(existing, columns);
      if index.Err? then Err(index.error)
      else
        var u := Observe(NOTHING, incoming, columns);
        if u.Err? then Err(u.error)
        else
          ObservedOrderIsIndexed(NOTHING, incoming, columns);
          var plan := PlaceAll(index.value, u.value.byIdentity, u.value.order);
          if plan.Err? then Err(plan.error)
          else Ok(Outcome(existing + plan.value.appended, |plan.value.appended|, plan.value.replayed, u.value.duplicates))
  }

  // ---------------------------------------------------------------- the loops

  method ApplyAppend(
      existing: seq<Row>, incoming: seq<Row>, columns: seq<string>) returns (r: Result<Outcome, AppendError>)
    ensures r == Apply(existing, incoming, columns)
  {
    hide LoadRow, ObserveRow, PlaceNext;
    if !UniqueColumns(columns) {
      return Err(InvalidIdentityColumns);
    }
    var index := IndexExisting(existing, columns);
    if index.Err? {
      return Err(index.error);
    }
    var u := CollectUnique(incoming, columns);
    if u.Err? {
      return Err(u.error);
    }
    ObservedOrderIsIndexed(NOTHING, incoming, columns);
    var order := u.value.order;
    var appended: seq<Row>, replayed: nat := [], 0;
    assert order[..|order|] == order;
    for i := 0 to |order|
      invariant PlaceAll(index.value, u.value.byIdentity, order[..i]) == Ok(Plan(appended, replayed))
    {
      assert order[..i + 1][..i] == order[..i];
      var next := PlaceOne(Plan(appended, replayed), index.value, u.value.byIdentity, order[i]);
      if next.Err? {
        PlaceFailsLater(index.value, u.value.byIdentity, order, i + 1);
        return Err(next.error);
      }
      appended, replayed := next.value.appended, next.value.replayed;
    }
    r := Ok(Outcome(existing + appended, |appended|, replayed, u.value.duplicates));
  }

  method IndexExisting(rows: seq<Row>, columns: seq<string>) returns (r: Result<Index, AppendError>)
    ensures r == Load(rows, columns)
  {
    hide KeyOf;
    var index: Index := map[];
    assert rows[..|rows|] == rows;
    for i := 0 to |rows|
      invariant Load(rows[..i], columns) == Ok(index)
    {
      assert rows[..i + 1][..i] == rows[..i];
      var id := KeyOf(rows[i].data, columns);
      if id.None? {
        LoadFailsLater(rows, i + 1, columns);
        return Err(BadIdentity);
      }
      if id.value in index {
        LoadFailsLater(rows, i + 1, columns);
        return Err(DuplicateInTarget);
      }
      if rows[i].identityHash.Some? && rows[i].identityHash.value != OfIdentity(id.value) {
        LoadFailsLater(rows, i + 1, columns);
        return Err(EvidenceMismatch);
      }
      index := index[id.value := rows[i]];
    }
    r := Ok(index);
  }

  lemma {:induction false} LoadFailsLater(rows: seq<Row>, n: nat, columns: seq<string>)
    requires n <= |rows| && Load(rows[..n], columns).Err?
    ensures Load(rows, columns) == Load(rows[..n], columns)
    decreases |rows|
  {
    hide LoadRow;
    if n == |rows| {
      assert rows[..n] == rows;
    } else {
      assert rows[..|rows| - 1][..n] == rows[..n];
      LoadFailsLater(rows[..|rows| - 1], n, columns);
    }
  }

  method CollectUnique(rows: seq<Row>, columns: seq<string>) returns (r: Result<Unique, AppendError>)
    ensures r == Observe(NOTHING, rows, columns)
  {
    hide KeyOf, PayloadOf;
    var byIdentity: Index, order: seq<Key>, duplicates: nat := map[], [], 0;
    assert rows[..|rows|] == rows;
    for i := 0 to |rows|
      invariant Observe(NOTHING, rows[..i], columns) == Ok(Unique(byIdentity, order, duplicates))
    {
      assert rows[..i + 1][..i] == rows[..i];
      var id := KeyOf(rows[i].data, columns);
      if id.None? {
        ObserveFailsLater(rows, i + 1, columns);
        return Err(BadIdentity);
      }
      if id.value in byIdentity {
        if PayloadOf(byIdentity[id.value]) != PayloadOf(rows[i]) {
          ObserveFailsLater(rows, i + 1, columns);
          return Err(ConflictingPayload);
        }
        duplicates := duplicates + 1;
        continue;
      }
      byIdentity := byIdentity[id.value := rows[i]];
      order := order + [id.value];
    }
    r := Ok(Unique(byIdentity, order, duplicates));
  }

  lemma {:induction false} ObserveFailsLater(rows: seq<Row>, n: nat, columns: seq<string>)
    requires n <= |rows| && Observe(NOTHING, rows[..n], columns).Err?
    ensures Observe(NOTHING, rows, columns) == Observe(NOTHING, rows[..n], columns)
    decreases |rows|
  {
    hide ObserveRow;
    if n == |rows| {
      assert rows[..n] == rows;
    } else {
      assert rows[..|rows| - 1][..n] == rows[..n];
      ObserveFailsLater(rows[..|rows| - 1], n, columns);
    }
  }

  method PlaceOne(p: Plan, existing: Index, incoming: Index, id: Key) returns (r: Result<Plan, AppendError>)
    requires id in incoming
    ensures r == PlaceNext(p, existing, incoming, id)
  {
    hide ExistingFingerprint, Decorate, PayloadOf;
    var row := incoming[id];
    if id in existing {
      var stored := ExistingFingerprint(existing[id], row);
      if stored.Err? {
        return Err(stored.error);
      }
      if stored.value != PayloadOf(row) {
        return Err(ConflictingPayload);
      }
      return Ok(p.(replayed := p.replayed + 1));
    }
    var decorated := Decorate(row, id);
    if decorated.Err? {
      return Err(decorated.error);
    }
    r := Ok(p.(appended := p.appended + [decorated.value]));
  }

  lemma {:induction false} PlaceFailsLater(existing: Index, incoming: Index, order: seq<Key>, n: nat)
    requires (forall id | id in order :: id in incoming) && n <= |order|
    requires PlaceAll(existing, incoming, order[..n]).Err?
    ensures PlaceAll(existing, incoming, order) == PlaceAll(existing, incoming, order[..n])
    decreases |order|
  {
    hide PlaceNext;
    if n == |order| {
      assert order[..n] == order;
    } else {
      assert order[..|order| - 1][..n] == order[..n];
      PlaceFailsLater(existing, incoming, order[..|order| - 1], n);
    }
  }
}
