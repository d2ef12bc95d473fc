/** The order of column values and of tuples of them, with the cases that cannot be compared
    (quality/temporal.py, contracts/runtime.py). */
module ValueOrder {
  import opened Common
  import opened SourceOrder

  /** Values of different kinds cannot be compared. */
  predicate Comparable(a: Value, b: Value) {
    (a.Int? && b.Int?) || (a.Text? && b.Text?) || (a.Instant? && b.Instant?)
  }

  predicate ValueLess(a: Value, b: Value)
    requires Comparable(a, b)
  {
    match a
    case Int(i) => i < b.i
    case Text(s) => LexLess(Codes(s), Codes(b.s))
    case Instant(t) => t < b.at
    case Null => false
  }

  /** The first differing component decides; None when it cannot be compared. */
  function Compare(a: seq<Value>, b: seq<Value>): Option<Relation>
    requires |a| == |b|
  {
    if a == [] then Some(Equal)
    else if a[0] == b[0] then Compare(a[1..], b[1..])
    else if !Comparable(a[0], b[0]) then None
    else if ValueLess(a[0], b[0]) then Some(Stale)
    else Some(Newer)
  }

  predicate Before(a: seq<Value>, b: seq<Value>) {
    |a| == |b| && Compare(a, b) == Some(Stale)
  }

  lemma ValueTotal(a: Value, b: Value)
    requires Comparable(a, b)
    ensures ValueLess(a, b) || a == b || ValueLess(b, a)
    ensures !(ValueLess(a, b) && ValueLess(b, a)) && !ValueLess(a, a)
  {
    if a.Text? {
      LexTotal(Codes(a.s), Codes(b.s));
      LexIrreflexive(Codes(a.s));
    }
  }

  lemma ValueTransitive(a: Value, b: Value, c: Value)
    requires Comparable(a, b) && Comparable(b, c) && ValueLess(a, b) && ValueLess(b, c)
    ensures Comparable(a, c) && ValueLess(a, c)
  {
    if a.Text? {
      LexTransitive(Codes(a.s), Codes(b.s), Codes(c.s));
    }
  }

  lemma {:induction false} CompareEqual(a: seq<Value>, b: seq<Value>)
    requires |a| == |b|
    ensures Compare(a, b) == Some(Equal) <==> a == b
    decreases |a|
  {
    hide ValueLess;
    if a != [] && a[0] == b[0] {
      CompareEqual(a[1..], b[1..]);
      assert a == [a[0]] + a[1..] && b == [b[0]] + b[1..];
    }
  }

  lemma {:induction false} CompareMirrors(a: seq<Value>, b: seq<Value>)
    requires |a| == |b|
    ensures Compare(a, b) == Some(Newer) <==> Before(b, a)
    decreases |a|
  {
    hide ValueLess;
    if a != [] {
      if a[0] == b[0] {
        CompareMirrors(a[1..], b[1..]);
      } else if Comparable(a[0], b[0]) {
        ValueTotal(a[0], b[0]);
      }
    }
  }

  lemma {:induction false} BeforeTransitive(a: seq<Value>, b: seq<Value>, c: seq<Value>)
    requires Before(a, b) && Before(b, c)
    ensures Before(a, c)
    decreases |a|
  {
    hide ValueLess, Comparable;
    if a[0] == b[0] && b[0] == c[0] {
      BeforeTransitive(a[1..], b[1..], c[1..]);
    } else if a[0] != b[0] && b[0] != c[0] {
      ValueTransitive(a[0], b[0], c[0]);
      ValueTotal(a[0], b[0]);
      if a[0] == c[0] {
        ValueTotal(b[0], c[0]);
      }
    }
  }

  lemma BeforeIrreflexive(a: seq<Value>)
    ensures !Before(a, a)
  {
    CompareEqual(a, a);
  }
}
