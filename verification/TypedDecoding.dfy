/** What the decoder of typed values accepts (contracts/typed_values.py): exactly the texts of a grammar, each of which
    spells one value. */
module TypedDecoding {
  import opened Common
  import opened TypedValues
  import opened TypedRoundTrip

  // ---------------------------------------------------------------- the grammar

  /** The first field of the name holds the value. */
  ghost predicate FieldIs(fields: seq<Pair<Json>>, name: string, value: Json) {
    exists i :: FieldAt(fields, name, value, i)
  }

  ghost predicate FieldAt(fields: seq<Pair<Json>>, name: string, value: Json, i: int) {
    0 <= i < |fields| && fields[i] == Pair(name, value) && forall j | 0 <= j < i :: fields[j].key != name
  }

  ghost predicate OnlyNames(fields: seq<Pair<Json>>, names: set<string>) {
    forall p | p in fields :: p.key in names
  }

  /** An object with a type tag and one more field. */
  ghost predicate IsTagged(j: Json, kind: string, name: string, value: Json) {
    && j.JObject? && OnlyNames(j.fields, {"$type", name})
    && FieldIs(j.fields, "$type", JText(Verbatim(kind))) && FieldIs(j.fields, name, value)
  }

  ghost predicate IsScalar(j: Json, kind: string, t: Text) {
    IsTagged(j, kind, "value", JText(t))
  }

  /** A dict item: the list of its key and the text of its value. */
  predicate IsItem(j: Json, key: string) {
    j.JList? && |j.elements| == 2 && j.elements[0] == JText(Verbatim(key))
  }

  /** The text spells the value. Datetimes are read at their UTC instant, numbers are finite, the keys of a dict
      ascend, and
      nothing else is in the text. */
  ghost predicate Spells(j: Json, v: PyValue)
    decreases v
  {
    match v
    case PyNone => j.JObject? && OnlyNames(j.fields, {"$type"}) && FieldIs(j.fields, "$type", JText(Verbatim("none")))
    case PyBool(b) => IsTagged(j, "bool", "value", JBool(b))
    case PyInt(n) => IsScalar(j, "int", OfInt(n))
    case PyFloat(f) => f.Finite? && IsScalar(j, "float", OfFloat(f))
    case PyStr(s) => IsScalar(j, "str", Verbatim(s))
    case PyDatetime(at) =>
      at.offset == Some(0) && exists s: Stamp :: s.offset.Some? && s.local - s.offset.value == at.local && IsScalar(j, "datetime", OfStamp(s))
    case PyDate(day) => IsScalar(j, "date", OfDay(day))
    case PyDecimal(d) => d.FiniteDecimal? && IsScalar(j, "decimal", OfDecimal(d))
    case PyUuid(id) => IsScalar(j, "uuid", OfUuid(id))
    case PyTuple(elements) => exists js :: IsTagged(j, "tuple", "items", JList(js)) && SpellsAll(js, elements)
    case PyList(elements) => exists js :: IsTagged(j, "list", "items", JList(js)) && SpellsAll(js, elements)
    case PyDict(items) => exists js :: IsTagged(j, "dict", "items", JList(js)) && SpellsItems(js, items) && Ascending(items)
    case PyOther => false
  }

  ghost predicate SpellsAll(js: seq<Json>, vs: seq<PyValue>)
    decreases vs
  {
    |js| == |vs| && forall i | 0 <= i < |vs| :: Spells(js[i], vs[i])
  }

  ghost predicate SpellsItems(js: seq<Json>, ps: seq<Pair<PyValue>>)
    decreases ps
  {
    |js| == |ps| && forall i | 0 <= i < |ps| :: SpellsItem(js[i], ps[i])
  }

  ghost predicate SpellsItem(j: Json, p: Pair<PyValue>)
    decreases p
  {
    IsItem(j, p.key) && Spells(j.elements[1], p.value)
  }

  // ---------------------------------------------------------------- fields

  lemma {:induction false} FieldExactly(fields: seq<Pair<Json>>, name: string, value: Json)
    ensures Field(fields, name) == Some(value) <==> FieldIs(fields, name, value)
    decreases |fields|
  {
    if fields != [] {
      var rest := fields[1..];
      FieldExactly(rest, name, value);
      if fields[0].key == name {
        assert fields[0].value == value ==> FieldAt(fields, name, value, 0);
      } else {
        if FieldIs(rest, name, value) {
          var i :| FieldAt(rest, name, value, i);
          assert forall j | 0 < j <= i :: fields[j] == rest[j - 1];
          assert FieldAt(fields, name, value, i + 1);
        }
        if FieldIs(fields, name, value) {
          var i :| FieldAt(fields, name, value, i);
          assert forall j | 0 <= j < i :: rest[j] == fields[j + 1];
          assert FieldAt(rest, name, value, i - 1);
        }
      }
    }
  }

  lemma ExactlyNames(fields: seq<Pair<Json>>, a: string, x: Json, b: string, y: Json)
    requires FieldIs(fields, a, x) && FieldIs(fields, b, y)
    ensures HasExactly(fields, {a, b}) <==> OnlyNames(fields, {a, b})
  {
    var i :| FieldAt(fields, a, x, i);
    var k :| FieldAt(fields, b, y, k);
    assert fields[i] in fields && fields[k] in fields;
    var names := set p | p in fields :: p.key;
    assert a in names && b in names;
    assert forall p | p in fields :: p.key in names;
  }

  /** An object that the decoder takes for tagged. */
  lemma TaggedExactly(j: Json, kind: string, name: string, value: Json)
    ensures IsTagged(j, kind, name, value) <==>
            && j.JObject? && HasExactly(j.fields, {"$type", name})
            && Field(j.fields, "$type") == Some(JText(Verbatim(kind))) && Field(j.fields, name) == Some(value)
  {
    if j.JObject? {
      FieldExactly(j.fields, "$type", JText(Verbatim(kind)));
      FieldExactly(j.fields, name, value);
      if FieldIs(j.fields, "$type", JText(Verbatim(kind))) && FieldIs(j.fields, name, value) {
        ExactlyNames(j.fields, "$type", JText(Verbatim(kind)), name, value);
      }
    }
  }

  lemma NoneExactly(j: Json)
    ensures Spells(j, PyNone) <==>
            j.JObject? && HasExactly(j.fields, {"$type"}) && Field(j.fields, "$type") == Some(JText(Verbatim("none")))
  {
    if j.JObject? {
      FieldExactly(j.fields, "$type", JText(Verbatim("none")));
      if FieldIs(j.fields, "$type", JText(Verbatim("none"))) {
        ExactlyNames(j.fields, "$type", JText(Verbatim("none")), "$type", JText(Verbatim("none")));
        assert {"$type", "$type"} == {"$type"};
      }
    }
  }

  // ---------------------------------------------------------------- the decoder

  const SCALARS := {"bool", "int", "float", "str", "datetime", "date", "decimal", "uuid"}

  const CONTAINERS := {"list", "tuple", "dict"}

  lemma TaggedScalarDecodes(j: Json, kind: string, value: Json)
    requires IsTagged(j, kind, "value", value) && kind in SCALARS
    ensures Decode(j) == DecodeScalar(kind, value)
  {
    hide DecodeScalar, Field, HasExactly, IsTagged;
    TaggedExactly(j, kind, "value", value);
  }

  lemma TaggedItemsDecode(j: Json, kind: string, items: seq<Json>)
    requires IsTagged(j, kind, "items", JList(items)) && kind in CONTAINERS
    ensures kind == "dict" ==>
              Decode(j) == if DecodePairs(items).Err? then Err(DecodePairs(items).error) else Ok(PyDict(DecodePairs(items).value))
    ensures kind != "dict" ==>
              Decode(j) == if DecodeAll(items).Err? then Err(DecodeAll(items).error)
                           else if kind == "list" then Ok(PyList(DecodeAll(items).value)) else Ok(PyTuple(DecodeAll(items).value))
  {
    hide DecodeAll, DecodePairs, Field, HasExactly, IsTagged;
    TaggedExactly(j, kind, "items", JList(items));
  }

  /** The shapes of an accepted text. */
  ghost predicate HasScalar(j: Json, kind: string, value: Json, v: PyValue) {
    kind in SCALARS && IsTagged(j, kind, "value", value) && DecodeScalar(kind, value) == Ok(v)
  }

  ghost predicate HasItems(j: Json, kind: string, items: seq<Json>, v: PyValue) {
    && kind in CONTAINERS && IsTagged(j, kind, "items", JList(items))
    && match kind
       case "dict" => v.PyDict? && DecodePairs(items) == Ok(v.items)
       case "list" => v.PyList? && DecodeAll(items) == Ok(v.elements)
       case _ => v.PyTuple? && DecodeAll(items) == Ok(v.elements)
  }

  lemma AcceptedShape(j: Json, v: PyValue)
    requires Decode(j) == Ok(v)
    ensures || (v.PyNone? && Spells(j, v))
            || (exists kind, value :: HasScalar(j, kind, value, v))
            || (exists kind, items :: HasItems(j, kind, items, v))
  {
    hide DecodeScalar, DecodeAll, DecodePairs, IsTagged, HasExactly, Field;
    var kind := Field(j.fields, TYPE_FIELD).value.t.s;
    if kind == "none" {
      NoneExactly(j);
    } else if kind in SCALARS {
      var value := Field(j.fields, VALUE_FIELD).value;
      TaggedExactly(j, kind, "value", value);
      assert HasScalar(j, kind, value, v);
    } else {
      var items := Field(j.fields, ITEMS_FIELD).value.elements;
      TaggedExactly(j, kind, "items", JList(items));
      assert HasItems(j, kind, items, v);
    }
  }

  lemma ScalarSpelt(j: Json, kind: string, value: Json, v: PyValue)
    requires HasScalar(j, kind, value, v)
    ensures Spells(j, v)
  {
    hide IsTagged;
    if value.JText? && value.t.OfStamp? {
      assert IsScalar(j, "datetime", OfStamp(value.t.at));
    }
  }

  lemma SpeltScalarDecodes(j: Json, v: PyValue)
    requires Spells(j, v) && !v.PyNone? && !v.PyTuple? && !v.PyList? && !v.PyDict?
    ensures Decode(j) == Ok(v)
  {
    hide Decode, IsTagged;
    match v {
      case PyBool(b) => TaggedScalarDecodes(j, "bool", JBool(b));
      case PyInt(n) => TaggedScalarDecodes(j, "int", JText(OfInt(n)));
      case PyFloat(f) => TaggedScalarDecodes(j, "float", JText(OfFloat(f)));
      case PyStr(s) => TaggedScalarDecodes(j, "str", JText(Verbatim(s)));
      case PyDatetime(at) =>
        var s: Stamp :| s.offset.Some? && s.local - s.offset.value == at.local && IsScalar(j, "datetime", OfStamp(s));
        TaggedScalarDecodes(j, "datetime", JText(OfStamp(s)));
      case PyDate(day) => TaggedScalarDecodes(j, "date", JText(OfDay(day)));
      case PyDecimal(d) => TaggedScalarDecodes(j, "decimal", JText(OfDecimal(d)));
      case PyUuid(id) => TaggedScalarDecodes(j, "uuid", JText(OfUuid(id)));
      case _ =>
    }
  }

  lemma NoneSpelt(j: Json)
    requires Spells(j, PyNone)
    ensures Decode(j) == Ok(PyNone)
  {
    hide Field, HasExactly;
    NoneExactly(j);
  }

  lemma ItemsAreSmaller(j: Json, kind: string, items: seq<Json>)
    requires IsTagged(j, kind, "items", JList(items))
    ensures JList(items) < j
  {
    var i :| FieldAt(j.fields, "items", JList(items), i);
    assert j.fields[i].value == JList(items);
  }

  lemma {:induction false} AcceptedSpells(j: Json, v: PyValue)
    requires Decode(j) == Ok(v)
    ensures Spells(j, v)
    decreases j, 0
  {
    hide Decode, DecodeAll, DecodePairs, IsTagged, SpellsAll, SpellsItems, Ascending, DecodeScalar;
    AcceptedShape(j, v);
    if kind, value :| HasScalar(j, kind, value, v) {
      ScalarSpelt(j, kind, value, v);
    } else if kind, items :| HasItems(j, kind, items, v) {
      ItemsAreSmaller(j, kind, items);
      if v.PyDict? {
        DecodesExactlyItems(items, v.items);
      } else {
        DecodesExactlyAll(items, v.elements);
      }
    }
  }

  lemma {:induction false} SpeltIsAccepted(j: Json, v: PyValue)
    requires Spells(j, v)
    ensures Decode(j) == Ok(v)
    decreases j, 0
  {
    hide Decode, DecodeAll, DecodePairs, IsTagged, SpellsAll, SpellsItems, Ascending;
    match v {
      case PyNone => NoneSpelt(j);
      case PyTuple(elements) =>
        var js :| IsTagged(j, "tuple", "items", JList(js)) && SpellsAll(js, elements);
        ItemsAreSmaller(j, "tuple", js);
        DecodesExactlyAll(js, elements);
        TaggedItemsDecode(j, "tuple", js);
      case PyList(elements) =>
        var js :| IsTagged(j, "list", "items", JList(js)) && SpellsAll(js, elements);
        ItemsAreSmaller(j, "list", js);
        DecodesExactlyAll(js, elements);
        TaggedItemsDecode(j, "list", js);
      case PyDict(items) =>
        var js :| IsTagged(j, "dict", "items", JList(js)) && SpellsItems(js, items) && Ascending(items);
        ItemsAreSmaller(j, "dict", js);
        DecodesExactlyItems(js, items);
        TaggedItemsDecode(j, "dict", js);
      case _ => SpeltScalarDecodes(j, v);
    }
  }

  /** The decoder accepts a text as a value exactly when the text spells it. */
  lemma {:induction false} DecodesExactlySpellings(j: Json, v: PyValue)
    ensures Decode(j) == Ok(v) <==> Spells(j, v)
    decreases j, 1
  {
    hide Decode, Spells;
    if Decode(j) == Ok(v) {
      AcceptedSpells(j, v);
    }
    if Spells(j, v) {
      SpeltIsAccepted(j, v);
    }
  }

  lemma {:induction false} DecodesExactlyAll(js: seq<Json>, vs: seq<PyValue>)
    ensures DecodeAll(js) == Ok(vs) <==> SpellsAll(js, vs)
    decreases js
  {
    hide Decode, Spells;
    if js != [] {
      if vs != [] {
        DecodesExactlySpellings(js[0], vs[0]);
        DecodesExactlyAll(js[1..], vs[1..]);
        assert vs == [vs[0]] + vs[1..];
        assert forall i | 1 <= i < |vs| && i < |js| :: vs[i] == vs[1..][i - 1] && js[i] == js[1..][i - 1];
        assert SpellsAll(js, vs) <==> Spells(js[0], vs[0]) && SpellsAll(js[1..], vs[1..]);
      }
    }
  }

  lemma {:induction false} DecodesExactlyItems(js: seq<Json>, ps: seq<Pair<PyValue>>)
    ensures DecodePairs(js) == Ok(ps) <==> SpellsItems(js, ps) && Ascending(ps)
    decreases js
  {
    hide Decode, Spells, SpellsItems, Ascending, NextPair, IsItem;
    if js == [] {
      NoItemsSpelt(ps);
      NothingAscends<PyValue>();
    } else if ps != [] {
      var n, m := |js| - 1, |ps| - 1;
      DecodesExactlyItems(js[..n], ps[..m]);
      assert ps == ps[..m] + [ps[m]];
      AscendsOneMore(ps[..m], ps[m]);
      OneMoreSpelt(js, ps);
      if DecodePairs(js[..n]).Ok? {
        var before := DecodePairs(js[..n]).value;
        DecodesExactlyItems(js[..n], before);
        NextPairExactly(before, js[n], ps);
        if before == ps[..m] && IsItem(js[n], ps[m].key) {
          ItemIsSmaller(js[n], ps[m].key);
          DecodesExactlySpellings(js[n].elements[1], ps[m].value);
        }
      }
    } else if DecodePairs(js).Ok? {
      NextPairGrows(DecodePairs(js[..|js| - 1]).value, js[|js| - 1]);
      NoItemsSpelt(ps);
    } else {
      NoItemsSpelt(ps);
    }
  }

  lemma NoItemsSpelt(ps: seq<Pair<PyValue>>)
    ensures SpellsItems([], ps) <==> ps == []
    ensures forall js | js != [] :: !SpellsItems(js, [])
  {
  }

  lemma NextPairGrows(before: seq<Pair<PyValue>>, item: Json)
    ensures NextPair(before, item).Ok? ==> |NextPair(before, item).value| == |before| + 1
  {
    hide Decode, ItemKey;
  }

  ghost predicate SpeltUpTo(js: seq<Json>, ps: seq<Pair<PyValue>>, n: int) {
    n <= |js| && n <= |ps| && forall i | 0 <= i < n :: SpellsItem(js[i], ps[i])
  }

  lemma SpeltWholly(js: seq<Json>, ps: seq<Pair<PyValue>>)
    ensures SpellsItems(js, ps) <==> |js| == |ps| && SpeltUpTo(js, ps, |ps|)
  {
    hide SpellsItem;
  }

  lemma SpeltFront(js: seq<Json>, ps: seq<Pair<PyValue>>, n: nat)
    requires n <= |js| && n <= |ps|
    ensures SpeltUpTo(js[..n], ps[..n], n) <==> SpeltUpTo(js, ps, n)
  {
    hide SpellsItem;
    var front, before := js[..n], ps[..n];
    assert forall i | 0 <= i < n :: front[i] == js[i] && before[i] == ps[i];
  }

  lemma OneMoreSpelt(js: seq<Json>, ps: seq<Pair<PyValue>>)
    requires js != [] && ps != []
    ensures SpellsItems(js, ps) <==>
              SpellsItems(js[..|js| - 1], ps[..|ps| - 1]) && SpellsItem(js[|js| - 1], ps[|ps| - 1])
  {
    hide SpellsItem, SpellsItems;
    SpeltWholly(js, ps);
    SpeltWholly(js[..|js| - 1], ps[..|ps| - 1]);
    if |js| == |ps| {
      SpeltFront(js, ps, |ps| - 1);
    }
  }

  lemma ItemIsSmaller(item: Json, key: string)
    requires IsItem(item, key)
    ensures item.JList? && |item.elements| == 2 && item.elements[1] < item
  {
  }

  lemma AscendsOneMore(ps: seq<Pair<PyValue>>, p: Pair<PyValue>)
    ensures Ascending(ps + [p]) <==> Ascending(ps) && (ps != [] ==> KeyLess(ps[|ps| - 1].key, p.key))
  {
    hide KeyLess;
    var all := ps + [p];
    assert all[|ps|] == p && forall i | 0 <= i < |ps| :: all[i] == ps[i];
    if Ascending(all) {
      assert forall i, j | 0 <= i < j < |ps| :: KeyLess(all[i].key, all[j].key);
    }
    if Ascending(ps) && (ps != [] ==> KeyLess(ps[|ps| - 1].key, p.key)) {
      forall i, j | 0 <= i < j < |all| ensures KeyLess(all[i].key, all[j].key) {
        if j == |ps| && i < |ps| - 1 {
          KeysAreTransitive(ps[i].key, ps[|ps| - 1].key, p.key);
        }
      }
    }
  }

  /** One more item is accepted exactly when it has its shape, its key comes after the last one and its value
      decodes. */
  lemma NextPairExactly(before: seq<Pair<PyValue>>, item: Json, ps: seq<Pair<PyValue>>)
    requires Ascending(before)
    ensures NextPair(before, item) == Ok(ps) <==>
            && ps != [] && ps[..|ps| - 1] == before && IsItem(item, ps[|ps| - 1].key)
            && Decode(item.elements[1]) == Ok(ps[|ps| - 1].value)
            && (before != [] ==> KeyLess(before[|before| - 1].key, ps[|ps| - 1].key))
  {
    hide Decode, KeyLess;
    if ps != [] {
      assert ps == ps[..|ps| - 1] + [ps[|ps| - 1]];
      var p := ps[|ps| - 1];
      AscendsOneMore(before, p);
      if before != [] && KeyLess(before[|before| - 1].key, p.key) {
        assert forall i | 0 <= i < |before| :: (before + [p])[i] == before[i];
        assert AllBelow(before, p.key) by {
          forall i | 0 <= i < |before| ensures KeyLess(before[i].key, p.key) {
            assert KeyLess((before + [p])[i].key, (before + [p])[|before|].key);
          }
        }
        BelowLastKey(before, p.key);
      }
    }
  }

  /** An encoding spells the canonical form of its value. */
  lemma EncodingSpellsCanonicalForm(v: PyValue)
    requires WellFormed(v) && Encode(v).Ok?
    ensures Spells(Encode(v).value, Canon(v))
  {
    hide Spells, Encode, Decode, Canon, WellFormed;
    DecodeOfEncode(v);
    DecodesExactlySpellings(Encode(v).value, Canon(v));
  }
}
