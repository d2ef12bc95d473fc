/** Source positions and their order: the comparison taxonomy of quality/temporal.py,
    and the plain tuple comparison that capture uses. */
module SourceOrder {
  import opened Common

  /** A canonical position inside one source partition. */
  type Position = seq<int>

  /** The tuple order: the first differing component decides, and a proper prefix is smaller. */
  predicate LexLess(a: Position, b: Position) {
    if b == [] then false
    else if a == [] then true
    else a[0] < b[0] || (a[0] == b[0] && LexLess(a[1..], b[1..]))
  }

  /** The first differing component decides; without one the shorter tuple is the smaller. */
  lemma {:induction false} LexLessExactlyWhen(a: Position, b: Position)
    ensures LexLess(a, b) <==> exists i: nat :: DecidesAt(a, b, i)
    decreases |a|
  {
    if a != [] && b != [] {
      if a[0] == b[0] {
        LexLessExactlyWhen(a[1..], b[1..]);
        if exists i: nat :: DecidesAt(a[1..], b[1..], i) {
          var i: nat :| DecidesAt(a[1..], b[1..], i);
          assert a[..i + 1] == [a[0]] + a[1..][..i] && b[..i + 1] == [b[0]] + b[1..][..i];
          assert DecidesAt(a, b, i + 1);
        }
        if exists i: nat :: DecidesAt(a, b, i) {
          var i: nat :| DecidesAt(a, b, i);
          assert a[1..][..i - 1] == a[..i][1..] && b[1..][..i - 1] == b[..i][1..];
          assert DecidesAt(a[1..], b[1..], i - 1);
        }
      } else {
        assert a[0] < b[0] ==> DecidesAt(a, b, 0);
        forall i: nat | i > 0 ensures !DecidesAt(a, b, i) {
          assert i <= |a| && i <= |b| ==> a[..i][0] == a[0] && b[..i][0] == b[0];
        }
      }
    } else if b != [] {
      assert DecidesAt(a, b, 0);
    }
  }

  ghost predicate DecidesAt(a: Position, b: Position, i: nat) {
    i <= |a| && i < |b| && a[..i] == b[..i] && (i == |a| || a[i] < b[i])
  }

  predicate LexLeq(a: Position, b: Position) {
    a == b || LexLess(a, b)
  }

  lemma {:induction false} LexIrreflexive(a: Position)
    ensures !LexLess(a, a)
  {
    if a != [] {
      LexIrreflexive(a[1..]);
    }
  }

  lemma {:induction false} LexTransitive(a: Position, b: Position, c: Position)
    requires LexLess(a, b) && LexLess(b, c)
    ensures LexLess(a, c)
  {
    if a != [] && a[0] == b[0] == c[0] {
      LexTransitive(a[1..], b[1..], c[1..]);
    }
  }

  lemma {:induction false} LexTotal(a: Position, b: Position)
    ensures LexLess(a, b) || a == b || LexLess(b, a)
    ensures !(LexLess(a, b) && LexLess(b, a))
    ensures a == b ==> !LexLess(a, b)
  {
    if a != [] && b != [] && a[0] == b[0] {
      LexTotal(a[1..], b[1..]);
      assert a == [a[0]] + a[1..] && b == [b[0]] + b[1..];
    }
    if a == b {
      LexIrreflexive(a);
    }
  }

  /** The total order on all positions, for proofs that compare several of them. */
  lemma LexOrder()
    ensures forall a: Position :: !LexLess(a, a)
    ensures forall a: Position, b: Position :: LexLess(a, b) || a == b || LexLess(b, a)
    ensures forall a: Position, b: Position :: LexLess(a, b) ==> !LexLess(b, a)
    ensures forall a: Position, b: Position, c: Position :: LexLess(a, b) && LexLess(b, c) ==> LexLess(a, c)
  {
    forall a: Position ensures !LexLess(a, a) {
      LexIrreflexive(a);
    }
    forall a: Position, b: Position
      ensures LexLess(a, b) || a == b || LexLess(b, a)
      ensures LexLess(a, b) ==> !LexLess(b, a)
    {
      LexTotal(a, b);
    }
    forall a: Position, b: Position, c: Position | LexLess(a, b) && LexLess(b, c)
      ensures LexLess(a, c)
    {
      LexTransitive(a, b, c);
    }
  }

  /** A string as the sequence of its code points, so that strings compare like tuples. */
  function Codes(s: string): (c: seq<int>)
    ensures |c| == |s|
    ensures forall i | 0 <= i < |s| :: c[i] == s[i] as int
  {
    if s == [] then [] else [s[0] as int] + Codes(s[1..])
  }

  datatype Relation = Stale | Equal | Newer

  /** Classifies a candidate position against the current one. None is the ordering error that is
      raised for an empty position or for positions of different length. */
  function CompareSourceOrder(candidate: Position, current: Position): (r: Option<Relation>)
    ensures r.None? <==> candidate == [] || current == [] || |candidate| != |current|
    ensures r == Some(Stale) ==> LexLess(candidate, current)
    ensures r == Some(Newer) ==> LexLess(current, candidate)
    ensures r == Some(Equal) ==> candidate == current
  {
    if candidate == [] || current == [] || |candidate| != |current| then None
    else if LexLess(candidate, current) then Some(Stale)
    else LexTotal(candidate, current); if candidate == current then Some(Equal) else Some(Newer)
  }
}
