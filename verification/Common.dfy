/** Values, rows and failure types shared by the models of the framework's components. */
module Common {

  datatype Option<+T> = None | Some(value: T)

  datatype Result<+T, +E> = Ok(value: T) | Err(error: E)

  /** A column value. Null stands for both a stored None and a column that is absent. */
  datatype Value = Null | Int(i: int) | Text(s: string) | Instant(at: int)

  type Columns = map<string, Value>

  /** The values of the key columns of one row, in the order in which the columns are configured. */
  type Key = seq<Value>

  /** `row.get(column)` */
  function Cell(row: Columns, column: string): Value {
    if column in row then row[column] else Null
  }

  function KeyValues(row: Columns, columns: seq<string>): (k: Key)
    ensures |k| == |columns|
    ensures forall i | 0 <= i < |k| :: k[i] == Cell(row, columns[i])
  {
    if columns == [] then [] else [Cell(row, columns[0])] + KeyValues(row, columns[1..])
  }

  /** The key of a row, or None when a key column is null or missing. */
  function KeyOf(row: Columns, columns: seq<string>): Option<Key> {
    var k := KeyValues(row, columns);
    if Null in k then None else Some(k)
  }

  /** The tracked attributes of a row. Their hash is taken to be injective, so it stands for them. */
  function Tracked(row: Columns, columns: seq<string>): Columns {
    map c | c in columns :: Cell(row, c)
  }

  predicate DistinctColumns(columns: seq<string>) {
    forall i, j | 0 <= i < j < |columns| :: columns[i] != columns[j]
  }

  /** The check that key columns are given and that none is given twice. */
  predicate UniqueColumns(columns: seq<string>) {
    columns != [] && DistinctColumns(columns)
  }

  /** `table.get(key)` */
  function Find<K, V>(table: map<K, V>, k: K): Option<V> {
    if k in table then Some(table[k]) else None
  }

  /** The part of a row that lies in the given columns. */
  function Restrict(row: Columns, columns: seq<string>): Columns {
    map c | c in columns && c in row :: row[c]
  }

  function ToSet<T>(s: seq<T>): set<T> {
    set x | x in s
  }

  lemma NoElements<T>(s: seq<T>)
    requires forall x :: x !in s
    ensures s == []
  {
    if s != [] {
      NonEmptyHasElement(s);
    }
  }

  lemma NonEmptyHasElement<T>(s: seq<T>)
    requires s != []
    ensures exists x :: x in s
  {
    assert s[0] in s;
  }

  /** Two permutations of each other stay so when one occurrence of an element is dropped from both. */
  lemma DropFromBoth<T>(rest: seq<T>, last: T, before: seq<T>, after: seq<T>)
    requires multiset(rest + [last]) == multiset(before + [last] + after)
    ensures multiset(rest) == multiset(before + after)
  {
    assert multiset(rest + [last]) == multiset(rest) + multiset{last};
    assert multiset(before + [last] + after) == multiset(before + after) + multiset{last};
    assert multiset(rest) == multiset(rest) + multiset{last} - multiset{last};
    assert multiset(before + after) == multiset(before + after) + multiset{last} - multiset{last};
  }

  /** Where an element of one permutation stands in the other. */
  lemma FindInPermutation<T>(a: seq<T>, b: seq<T>) returns (i: nat)
    requires a != [] && multiset(a) == multiset(b)
    ensures i < |b| && b[i] == a[|a| - 1]
    ensures multiset(a[..|a| - 1]) == multiset(b[..i] + b[i + 1..])
    ensures b == b[..i] + [b[i]] + b[i + 1..]
  {
    var last := a[|a| - 1];
    assert last in multiset(a);
    assert last in b;
    i :| 0 <= i < |b| && b[i] == last;
    assert b == b[..i] + [b[i]] + b[i + 1..];
    assert a == a[..|a| - 1] + [last];
    DropFromBoth(a[..|a| - 1], last, b[..i], b[i + 1..]);
  }

  lemma EmptyPermutation<T>(b: seq<T>)
    requires multiset(b) == multiset{}
    ensures b == []
  {
    assert |multiset(b)| == |b|;
  }

  lemma KeyOfAgrees(a: Columns, b: Columns, columns: seq<string>)
    requires forall c | c in columns :: Cell(a, c) == Cell(b, c)
    ensures KeyOf(a, columns) == KeyOf(b, columns)
  {
    assert KeyValues(a, columns) == KeyValues(b, columns);
  }
}
