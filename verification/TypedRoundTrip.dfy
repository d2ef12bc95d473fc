/** Typed values come back from their encoding in canonical form, so the encoding keeps distinct values
    apart (contracts/typed_values.py). */
module TypedRoundTrip {
  import opened Common
  import opened SourceOrder
  import opened Decimals
  import opened TypedValues

  // ---------------------------------------------------------------- supported values and their canonical form

  /** Keys of a dict are distinct, at every level. */
  predicate WellFormed(v: PyValue)
    decreases v
  {
    match v
    case PyTuple(elements) => forall i | 0 <= i < |elements| :: WellFormed(elements[i])
    case PyList(elements) => forall i | 0 <= i < |elements| :: WellFormed(elements[i])
    case PyDict(items) => DistinctKeys(items) && forall i | 0 <= i < |items| :: WellFormed(items[i].value)
    case _ => true
  }

  predicate DistinctKeys<T>(ps: seq<Pair<T>>) {
    forall i, j | 0 <= i < j < |ps| :: ps[i].key != ps[j].key
  }

  /** What the encoding accepts: aware datetimes, finite numbers and containers of supported values. */
  predicate Supported(v: PyValue)
    decreases v
  {
    match v
    case PyFloat(f) => f.Finite?
    case PyDatetime(at) => at.offset.Some?
    case PyDecimal(d) => d.FiniteDecimal?
    case PyTuple(elements) => forall i | 0 <= i < |elements| :: Supported(elements[i])
    case PyList(elements) => forall i | 0 <= i < |elements| :: Supported(elements[i])
    case PyDict(items) => forall i | 0 <= i < |items| :: Supported(items[i].value)
    case PyOther => false
    case _ => true
  }

  /** Datetimes at their UTC instant, decimals in normal form, dicts in key order. */
  function Canon(v: PyValue): PyValue
    decreases v
  {
    match v
    case PyDatetime(at) => if at.offset.Some? then PyDatetime(InUtc(at)) else v
    case PyDecimal(d) => if d.FiniteDecimal? then PyDecimal(FiniteDecimal(Normalize(d.d))) else v
    case PyTuple(elements) => PyTuple(CanonAll(elements))
    case PyList(elements) => PyList(CanonAll(elements))
    case PyDict(items) => PyDict(SortPairs(CanonPairs(items)))
    case _ => v
  }

  function CanonAll(vs: seq<PyValue>): seq<PyValue>
    decreases vs
  {
    if vs == [] then [] else [Canon(vs[0])] + CanonAll(vs[1..])
  }

  function CanonPairs(ps: seq<Pair<PyValue>>): seq<Pair<PyValue>>
    decreases ps
  {
    if ps == [] then [] else [Pair(ps[0].key, Canon(ps[0].value))] + CanonPairs(ps[1..])
  }

  // ---------------------------------------------------------------- sorting by key

  /** Two lists of pairs with the same keys whose values are related position by position. */
  ghost predicate Aligned<A, B>(a: seq<Pair<A>>, b: seq<Pair<B>>, related: (A, B) -> bool) {
    |a| == |b| && forall i | 0 <= i < |a| :: a[i].key == b[i].key && related(a[i].value, b[i].value)
  }

  lemma {:induction false} InsertAligned<A, B>(
      a: seq<Pair<A>>, p: Pair<A>, b: seq<Pair<B>>, q: Pair<B>, related: (A, B) -> bool)
    requires Aligned(a, b, related) && p.key == q.key && related(p.value, q.value)
    ensures Aligned(InsertPair(a, p), InsertPair(b, q), related)
    decreases |a|
  {
    hide KeyLess;
    if a != [] && !KeyLess(a[|a| - 1].key, p.key) {
      InsertAligned(a[..|a| - 1], p, b[..|b| - 1], q, related);
    }
  }

  /** Sorting looks at keys alone. */
  lemma {:induction false} SortAligned<A, B>(a: seq<Pair<A>>, b: seq<Pair<B>>, related: (A, B) -> bool)
    requires Aligned(a, b, related)
    ensures Aligned(SortPairs(a), SortPairs(b), related)
    decreases |a|
  {
    if a != [] {
      SortAligned(a[..|a| - 1], b[..|b| - 1], related);
      InsertAligned(SortPairs(a[..|a| - 1]), a[|a| - 1], SortPairs(b[..|b| - 1]), b[|b| - 1], related);
    }
  }

  ghost predicate Ascending<T>(ps: seq<Pair<T>>) {
    forall i, j | 0 <= i < j < |ps| :: KeyLess(ps[i].key, ps[j].key)
  }

  ghost predicate AllBelow<T>(ps: seq<Pair<T>>, key: string) {
    forall i | 0 <= i < |ps| :: KeyLess(ps[i].key, key)
  }

  ghost predicate Without<T>(ps: seq<Pair<T>>, key: string) {
    forall i | 0 <= i < |ps| :: ps[i].key != key
  }

  lemma KeysAreTotal(a: string, b: string)
    ensures KeyLess(a, b) || a == b || KeyLess(b, a)
    ensures !(KeyLess(a, b) && KeyLess(b, a)) && (a == b ==> !KeyLess(a, b))
  {
    LexTotal(Codes(a), Codes(b));
  }

  lemma KeysAreTransitive(a: string, b: string, c: string)
    requires KeyLess(a, b) && KeyLess(b, c)
    ensures KeyLess(a, c)
  {
    LexTransitive(Codes(a), Codes(b), Codes(c));
  }

  lemma {:induction false} InsertAscends<T>(ps: seq<Pair<T>>, p: Pair<T>)
    requires Ascending(ps) && Without(ps, p.key)
    ensures Ascending(InsertPair(ps, p)) && |InsertPair(ps, p)| == |ps| + 1
    ensures forall key :: AllBelow(ps, key) && KeyLess(p.key, key) ==> AllBelow(InsertPair(ps, p), key)
    ensures forall key :: Without(ps, key) && p.key != key ==> Without(InsertPair(ps, p), key)
    decreases |ps|
  {
    hide KeyLess;
    if ps != [] {
      var front, last := ps[..|ps| - 1], ps[|ps| - 1];
      KeysAreTotal(last.key, p.key);
      if KeyLess(last.key, p.key) {
        forall i | 0 <= i < |front| ensures KeyLess(ps[i].key, p.key) {
          KeysAreTransitive(ps[i].key, last.key, p.key);
        }
      } else {
        InsertAscends(front, p);
        assert AllBelow(front, last.key);
        forall key | Without(ps, key) && p.key != key ensures Without(InsertPair(ps, p), key) {
          assert Without(front, key);
        }
      }
    }
  }

  lemma {:induction false} SortAscends<T>(ps: seq<Pair<T>>)
    requires DistinctKeys(ps)
    ensures Ascending(SortPairs(ps)) && |SortPairs(ps)| == |ps|
    ensures forall key :: Without(ps, key) ==> Without(SortPairs(ps), key)
    decreases |ps|
  {
    hide KeyLess, Ascending, InsertPair;
    if ps == [] {
      NothingAscends<T>();
    } else {
      var front, last := ps[..|ps| - 1], ps[|ps| - 1];
      SortAscends(front);
      assert Without(front, last.key);
      InsertAscends(SortPairs(front), last);
      forall key | Without(ps, key) ensures Without(SortPairs(ps), key) {
        assert Without(front, key);
      }
    }
  }

  lemma NothingAscends<T>()
    ensures Ascending<T>([])
  {
  }

  /** An ascending list is already sorted. */
  lemma {:induction false} AscendingIsSorted<T>(ps: seq<Pair<T>>)
    requires Ascending(ps)
    ensures SortPairs(ps) == ps
    decreases |ps|
  {
    hide KeyLess;
    if ps != [] {
      AscendingIsSorted(ps[..|ps| - 1]);
      assert ps == ps[..|ps| - 1] + [ps[|ps| - 1]];
    }
  }

  // ---------------------------------------------------------------- the round trip

  lemma NextPairDecodes(before: seq<Pair<PyValue>>, key: string, j: Json, v: PyValue)
    requires Decode(j) == Ok(v) && Without(before, key)
    requires before != [] ==> KeyLess(before[|before| - 1].key, key)
    ensures NextPair(before, JList([JText(Verbatim(key)), j])) == Ok(before + [Pair(key, v)])
  {
    hide Decode, KeyLess;
    var item := JList([JText(Verbatim(key)), j]);
    assert ItemKey(item, before) == Ok(key);
  }

  lemma BelowLastKey(b: seq<Pair<PyValue>>, key: string)
    requires AllBelow(b, key)
    ensures Without(b, key)
  {
    hide KeyLess;
    forall i | 0 <= i < |b| ensures b[i].key != key {
      KeysAreTotal(b[i].key, key);
    }
  }

  /** Decoding the sorted items of a dict, whose encoded values decode to the given ones. */
  lemma {:induction false} SortedPairsDecode(a: seq<Pair<Json>>, b: seq<Pair<PyValue>>)
    requires Aligned(a, b, (j, v) => Decode(j) == Ok(v)) && Ascending(a)
    ensures DecodePairs(ItemsOf(a)) == Ok(b)
    decreases |a|
  {
    hide Decode, KeyLess, NextPair;
    if a == [] {
      assert b == [];
    } else {
      var n := |a| - 1;
      SortedPairsDecode(a[..n], b[..n]);
      assert ItemsOf(a)[..n] == ItemsOf(a[..n]);
      assert b == b[..n] + [Pair(a[n].key, b[n].value)];
      BelowLastKey(b[..n], a[n].key);
      NextPairDecodes(b[..n], a[n].key, a[n].value, b[n].value);
    }
  }

  lemma TaggedDecodes(kind: string, value: Json)
    requires kind in {"bool", "int", "float", "str", "datetime", "date", "decimal", "uuid"}
    ensures Decode(TaggedValue(kind, value)) == DecodeScalar(kind, value)
  {
    hide DecodeScalar;
    var fields := TaggedValue(kind, value).fields;
    TwoFields(fields, TYPE_FIELD, VALUE_FIELD);
  }

  lemma TwoFields(fields: seq<Pair<Json>>, a: string, b: string)
    requires |fields| == 2 && fields[0].key == a && fields[1].key == b && a != b
    ensures Field(fields, a) == Some(fields[0].value) && Field(fields, b) == Some(fields[1].value)
    ensures HasExactly(fields, {a, b})
  {
    assert fields[1..] == [fields[1]];
    assert fields == [fields[0], fields[1]];
  }

  lemma ItemsDecode(kind: string, items: seq<Json>)
    requires kind in {"list", "tuple", "dict"}
    ensures var j := TaggedItems(kind, items);
            kind == "dict" ==>
              Decode(j) == if DecodePairs(items).Err? then Err(DecodePairs(items).error) else Ok(PyDict(DecodePairs(items).value))
    ensures var j := TaggedItems(kind, items);
            kind != "dict" ==>
              Decode(j) == if DecodeAll(items).Err? then Err(DecodeAll(items).error)
                           else if kind == "list" then Ok(PyList(DecodeAll(items).value)) else Ok(PyTuple(DecodeAll(items).value))
  {
    hide DecodePairs, DecodeAll;
    var fields := TaggedItems(kind, items).fields;
    TwoFields(fields, TYPE_FIELD, ITEMS_FIELD);
  }

  lemma NoneDecodes()
    ensures Decode(Tagged("none")) == Ok(PyNone)
  {
    var fields := Tagged("none").fields;
    assert fields == [Pair(TYPE_FIELD, JText(Verbatim("none")))];
    assert Field(fields, TYPE_FIELD) == Some(JText(Verbatim("none")));
  }

  /** Decoding an encoding gives the value back in canonical form. */
  lemma {:induction false} DecodeOfEncode(v: PyValue)
    requires WellFormed(v) && Encode(v).Ok?
    ensures Decode(Encode(v).value) == Ok(Canon(v))
    decreases v
  {
    hide Decode, DecodePairs, DecodeAll, SortPairs, ItemsOf, Normalize;
    match v {
      case PyNone => NoneDecodes();
      case PyTuple(elements) =>
        DecodeOfEncodeAll(elements);
        ItemsDecode("tuple", EncodeAll(elements).value);
      case PyList(elements) =>
        DecodeOfEncodeAll(elements);
        ItemsDecode("list", EncodeAll(elements).value);
      case PyDict(items) =>
        DecodeOfEncodePairs(items);
        var pairs := EncodePairs(items).value;
        EncodedKeys(items);
        SortAligned(pairs, CanonPairs(items), (j, v) => Decode(j) == Ok(v));
        SortAscends(pairs);
        SortedPairsDecode(SortPairs(pairs), SortPairs(CanonPairs(items)));
        ItemsDecode("dict", ItemsOf(SortPairs(pairs)));
      case PyOther =>
      case _ => ScalarRoundTrip(v);
    }
  }

  lemma ScalarRoundTrip(v: PyValue)
    requires !v.PyNone? && !v.PyTuple? && !v.PyList? && !v.PyDict? && Encode(v).Ok?
    ensures Decode(Encode(v).value) == Ok(Canon(v))
  {
    hide Decode, Normalize;
    match v {
      case PyBool(b) => TaggedDecodes("bool", JBool(b));
      case PyInt(n) => TaggedDecodes("int", JText(OfInt(n)));
      case PyFloat(f) => TaggedDecodes("float", JText(OfFloat(f)));
      case PyStr(s) => TaggedDecodes("str", JText(Verbatim(s)));
      case PyDatetime(at) => TaggedDecodes("datetime", JText(OfStamp(InUtc(at))));
      case PyDate(day) => TaggedDecodes("date", JText(OfDay(day)));
      case PyDecimal(d) => TaggedDecodes("decimal", JText(OfDecimal(FiniteDecimal(Normalize(d.d)))));
      case PyUuid(id) => TaggedDecodes("uuid", JText(OfUuid(id)));
      case _ =>
    }
  }

  lemma {:induction false} DecodeOfEncodeAll(vs: seq<PyValue>)
    requires (forall i | 0 <= i < |vs| :: WellFormed(vs[i])) && EncodeAll(vs).Ok?
    ensures DecodeAll(EncodeAll(vs).value) == Ok(CanonAll(vs))
    decreases vs
  {
    hide Decode, Encode, Canon, WellFormed;
    if vs != [] {
      DecodeOfEncode(vs[0]);
      DecodeOfEncodeAll(vs[1..]);
      var js := EncodeAll(vs).value;
      assert js[1..] == EncodeAll(vs[1..]).value;
    }
  }

  lemma {:induction false} DecodeOfEncodePairs(ps: seq<Pair<PyValue>>)
    requires (forall i | 0 <= i < |ps| :: WellFormed(ps[i].value)) && EncodePairs(ps).Ok?
    ensures Aligned(EncodePairs(ps).value, CanonPairs(ps), (j, v) => Decode(j) == Ok(v))
    decreases ps
  {
    hide Decode, Encode, Canon, WellFormed;
    if ps != [] {
      assert ps[0].value < ps[0];
      DecodeOfEncode(ps[0].value);
      DecodeOfEncodePairs(ps[1..]);
    }
  }

  lemma {:induction false} EncodedKeys(ps: seq<Pair<PyValue>>)
    requires EncodePairs(ps).Ok?
    ensures Aligned(ps, EncodePairs(ps).value, (v, j) => Encode(v) == Ok(j))
    ensures DistinctKeys(ps) ==> DistinctKeys(EncodePairs(ps).value)
  {
    hide Encode;
    if ps != [] {
      EncodedKeys(ps[1..]);
    }
  }

  // ---------------------------------------------------------------- injectivity

  lemma {:induction false} AlignedEncodes(ps: seq<Pair<PyValue>>, js: seq<Pair<Json>>)
    requires Aligned(ps, js, (v, j) => Encode(v) == Ok(j))
    ensures EncodePairs(ps) == Ok(js)
    decreases |ps|
  {
    hide Encode;
    if ps != [] {
      AlignedEncodes(ps[1..], js[1..]);
      assert js == [js[0]] + js[1..];
    }
  }

  /** The canonical form has the same encoding. */
  lemma {:induction false} CanonEncodesAlike(v: PyValue)
    requires WellFormed(v) && Encode(v).Ok?
    ensures Encode(Canon(v)) == Encode(v)
    decreases v
  {
    hide SortPairs, ItemsOf, Normalize;
    match v {
      case PyDecimal(d) => NormalizeTwice(d.d);
      case PyTuple(elements) => CanonAllEncodeAlike(elements);
      case PyList(elements) => CanonAllEncodeAlike(elements);
      case PyDict(items) =>
        CanonPairsEncodeAlike(items);
        var pairs, canon := EncodePairs(items).value, CanonPairs(items);
        SortAligned(canon, pairs, (v, j) => Encode(v) == Ok(j));
        AlignedEncodes(SortPairs(canon), SortPairs(pairs));
        EncodedKeys(items);
        SortAscends(pairs);
        AscendingIsSorted(SortPairs(pairs));
      case _ =>
    }
  }

  lemma {:induction false} CanonAllEncodeAlike(vs: seq<PyValue>)
    requires (forall i | 0 <= i < |vs| :: WellFormed(vs[i])) && EncodeAll(vs).Ok?
    ensures EncodeAll(CanonAll(vs)) == EncodeAll(vs)
    decreases vs
  {
    hide Encode, Canon, WellFormed;
    if vs != [] {
      CanonEncodesAlike(vs[0]);
      CanonAllEncodeAlike(vs[1..]);
      assert CanonAll(vs)[1..] == CanonAll(vs[1..]);
    }
  }

  lemma {:induction false} CanonPairsEncodeAlike(ps: seq<Pair<PyValue>>)
    requires (forall i | 0 <= i < |ps| :: WellFormed(ps[i].value)) && EncodePairs(ps).Ok?
    ensures Aligned(CanonPairs(ps), EncodePairs(ps).value, (v, j) => Encode(v) == Ok(j))
    decreases ps
  {
    hide Encode, Canon, WellFormed;
    if ps != [] {
      assert ps[0].value < ps[0];
      CanonEncodesAlike(ps[0].value);
      CanonPairsEncodeAlike(ps[1..]);
    }
  }

  /** Two supported values have the same encoding exactly when they have the same canonical form. */
  lemma EncodingSeparatesCanonicalForms(a: PyValue, b: PyValue)
    requires WellFormed(a) && WellFormed(b) && Encode(a).Ok? && Encode(b).Ok?
    ensures Encode(a) == Encode(b) <==> Canon(a) == Canon(b)
  {
    hide Encode, Canon, Decode, WellFormed;
    DecodeOfEncode(a);
    DecodeOfEncode(b);
    CanonEncodesAlike(a);
    CanonEncodesAlike(b);
  }

  /** In particular decimals are told apart exactly as numbers. */
  lemma DecimalsAreToldApartAsNumbers(a: Dec, b: Dec)
    ensures Encode(PyDecimal(FiniteDecimal(a))) == Encode(PyDecimal(FiniteDecimal(b))) <==> SameNumber(a, b)
  {
    hide Normalize, SameNumber, TaggedValue;
    NormalFormIsCanonical(a, b);
    SameTagged("decimal", JText(OfDecimal(FiniteDecimal(Normalize(a)))), JText(OfDecimal(FiniteDecimal(Normalize(b)))));
  }

  lemma SameTagged(kind: string, a: Json, b: Json)
    ensures TaggedValue(kind, a) == TaggedValue(kind, b) <==> a == b
  {
    assert TaggedValue(kind, a).fields[1] == Pair(VALUE_FIELD, a);
    assert TaggedValue(kind, b).fields[1] == Pair(VALUE_FIELD, b);
  }

  /** And datetimes exactly as instants, whatever their offsets. */
  lemma DatetimesAreToldApartAsInstants(s: Stamp, t: Stamp)
    requires s.offset.Some? && t.offset.Some?
    ensures Encode(PyDatetime(s)) == Encode(PyDatetime(t)) <==> s.local - s.offset.value == t.local - t.offset.value
  {
    hide TaggedValue;
    SameTagged("datetime", JText(OfStamp(InUtc(s))), JText(OfStamp(InUtc(t))));
  }

  /** Exactly the supported values are encoded. */
  lemma {:induction false} EncodesExactlySupported(v: PyValue)
    ensures Encode(v).Ok? <==> Supported(v)
    decreases v
  {
    hide SortPairs, ItemsOf, Normalize;
    match v {
      case PyTuple(elements) => EncodesAllSupported(elements);
      case PyList(elements) => EncodesAllSupported(elements);
      case PyDict(items) => EncodesPairsSupported(items);
      case _ =>
    }
  }

  lemma {:induction false} EncodesAllSupported(vs: seq<PyValue>)
    ensures EncodeAll(vs).Ok? <==> forall i | 0 <= i < |vs| :: Supported(vs[i])
    decreases vs
  {
    hide Encode, Supported;
    if vs != [] {
      EncodesExactlySupported(vs[0]);
      EncodesAllSupported(vs[1..]);
      assert forall i | 1 <= i < |vs| :: vs[i] == vs[1..][i - 1];
    }
  }

  lemma {:induction false} EncodesPairsSupported(ps: seq<Pair<PyValue>>)
    ensures EncodePairs(ps).Ok? <==> forall i | 0 <= i < |ps| :: Supported(ps[i].value)
    decreases ps
  {
    hide Encode, Supported;
    if ps != [] {
      assert ps[0].value < ps[0];
      EncodesExactlySupported(ps[0].value);
      EncodesPairsSupported(ps[1..]);
      assert forall i | 1 <= i < |ps| :: ps[i] == ps[1..][i - 1];
    }
  }
}
