/** Typed value encoding (contracts/typed_values.py): nested Python values as tagged JSON, and back. */
module TypedValues {
  import opened Common
  import opened SourceOrder
  import opened Decimals

  datatype Pair<+T> = Pair(key: string, value: T)

  datatype Float = Finite(bits: int) | NotFinite

  /** A decimal that may be an infinity or not a number. */
  datatype DecimalValue = FiniteDecimal(d: Dec) | NotFiniteDecimal

  /** Local microseconds and, for an aware datetime, the offset from UTC. */
  datatype Stamp = Stamp(local: int, offset: Option<int>)

  /** A dict lists its items in insertion order; its keys are distinct strings. */
  datatype PyValue =
    | PyNone
    | PyBool(b: bool)
    | PyInt(n: int)
    | PyFloat(f: Float)
    | PyStr(s: string)
    | PyDatetime(at: Stamp)
    | PyDate(day: int)
    | PyDecimal(decimal: DecimalValue)
    | PyUuid(id: int)
    | PyTuple(elements: seq<PyValue>)
    | PyList(elements: seq<PyValue>)
    | PyDict(items: seq<Pair<PyValue>>)
    | PyOther

  /** A JSON text. Apart from verbatim strings, the library renderings of a value are distinct texts that
      parse back to that value. */
  datatype Text =
    | Verbatim(s: string)
    | OfInt(n: int)
    | OfFloat(f: Float)
    | OfStamp(at: Stamp)
    | OfDay(day: int)
    | OfDecimal(decimal: DecimalValue)
    | OfUuid(id: int)

  datatype Json =
    | JNull
    | JBool(b: bool)
    | JNumber(n: int)
    | JText(t: Text)
    | JList(elements: seq<Json>)
    | JObject(fields: seq<Pair<Json>>)

  datatype TypedValueError =
    | NaiveDatetime
    | NotFiniteNumber
    | Unsupported
    | NotTagged
    | BadTag
    | InvalidFields
    | BadPayload
    | BadItem
    | DuplicateKey
    | NotSorted

  const TYPE_FIELD := "$type"
  const VALUE_FIELD := "value"
  const ITEMS_FIELD := "items"

  predicate KeyLess(a: string, b: string) {
    LexLess(Codes(a), Codes(b))
  }

  // ---------------------------------------------------------------- encoding

  function Tagged(kind: string): Json {
    JObject([Pair(TYPE_FIELD, JText(Verbatim(kind)))])
  }

  function TaggedValue(kind: string, value: Json): Json {
    JObject([Pair(TYPE_FIELD, JText(Verbatim(kind))), Pair(VALUE_FIELD, value)])
  }

  function TaggedItems(kind: string, items: seq<Json>): Json {
    JObject([Pair(TYPE_FIELD, JText(Verbatim(kind))), Pair(ITEMS_FIELD, JList(items))])
  }

  function InsertPair<T>(ps: seq<Pair<T>>, p: Pair<T>): seq<Pair<T>> {
    if ps == [] || KeyLess(ps[|ps| - 1].key, p.key) then ps + [p]
    else InsertPair(ps[..|ps| - 1], p) + [ps[|ps| - 1]]
  }

  function SortPairs<T>(ps: seq<Pair<T>>): seq<Pair<T>> {
    if ps == [] then [] else InsertPair(SortPairs(ps[..|ps| - 1]), ps[|ps| - 1])
  }

  /** A dict item as the JSON list [key, value]. */
  function ItemsOf(ps: seq<Pair<Json>>): (r: seq<Json>)
    ensures |r| == |ps|
    ensures forall i | 0 <= i < |ps| :: r[i] == JList([JText(Verbatim(ps[i].key)), ps[i].value])
  {
    if ps == [] then [] else ItemsOf(ps[..|ps| - 1]) + [JList([JText(Verbatim(ps[|ps| - 1].key)), ps[|ps| - 1].value])]
  }

  function Encode(v: PyValue): Result<Json, TypedValueError>
    decreases v
  {
    match v
    case PyNone => Ok(Tagged("none"))
    case PyBool(b) => Ok(TaggedValue("bool", JBool(b)))
    case PyInt(n) => Ok(TaggedValue("int", JText(OfInt(n))))
    case PyFloat(f) => if f.NotFinite? then Err(NotFiniteNumber) else Ok(TaggedValue("float", JText(OfFloat(f))))
    case PyStr(s) => Ok(TaggedValue("str", JText(Verbatim(s))))
    case PyDatetime(at) =>
      if at.offset.None? then Err(NaiveDatetime) else Ok(TaggedValue("datetime", JText(OfStamp(InUtc(at)))))
    case PyDate(day) => Ok(TaggedValue("date", JText(OfDay(day))))
    case PyDecimal(d) =>
      if d.NotFiniteDecimal? then Err(NotFiniteNumber)
      else Ok(TaggedValue("decimal", JText(OfDecimal(FiniteDecimal(Normalize(d.d))))))
    case PyUuid(id) => Ok(TaggedValue("uuid", JText(OfUuid(id))))
    case PyTuple(elements) =>
      var items := EncodeAll(elements);
      if items.Err? then Err(items.error) else Ok(TaggedItems("tuple", items.value))
    case PyList(elements) =>
      var items := EncodeAll(elements);
      if items.Err? then Err(items.error) else Ok(TaggedItems("list", items.value))
    case PyDict(items) =>
      var pairs := EncodePairs(items);
      if pairs.Err? then Err(pairs.error) else Ok(TaggedItems("dict", ItemsOf(SortPairs(pairs.value))))
    case PyOther => Err(Unsupported)
  }

  function InUtc(at: Stamp): Stamp
    requires at.offset.Some?
  {
    Stamp(at.local - at.offset.value, Some(0))
  }

  function EncodeAll(vs: seq<PyValue>): Result<seq<Json>, TypedValueError>
    decreases vs
  {
    if vs == [] then Ok([])
    else
      var head := Encode(vs[0]);
      var tail := EncodeAll(vs[1..]);
      if head.Err? then Err(head.error) else if tail.Err? then tail else Ok([head.value] + tail.value)
  }

  function EncodePairs(ps: seq<Pair<PyValue>>): Result<seq<Pair<Json>>, TypedValueError>
    decreases ps
  {
    if ps == [] then Ok([])
    else
      var head := Encode(ps[0].value);
      var tail := EncodePairs(ps[1..]);
      if head.Err? then Err(head.error) else if tail.Err? then tail else Ok([Pair(ps[0].key, head.value)] + tail.value)
  }

  // ---------------------------------------------------------------- decoding

  function Field(fields: seq<Pair<Json>>, name: string): (r: Option<Json>)
    ensures r.Some? ==> exists i :: 0 <= i < |fields| && fields[i].value == r.value
  {
    if fields == [] then None
    else if fields[0].key == name then Some(fields[0].value)
    else
      var r := Field(fields[1..], name);
      assert forall i | 0 <= i < |fields| - 1 :: fields[1..][i] == fields[i + 1];
      r
  }

  predicate HasExactly(fields: seq<Pair<Json>>, names: set<string>) {
    (set p | p in fields :: p.key) == names
  }

  /** The last item of a dict: its shape, its key against the keys before it, then its value. */
  function ItemKey(item: Json, before: seq<Pair<PyValue>>): Result<string, TypedValueError> {
    if !item.JList? || |item.elements| != 2 || !item.elements[0].JText? || !item.elements[0].t.Verbatim? then Err(BadItem)
    else
      var key := item.elements[0].t.s;
      if exists p | p in before :: p.key == key then Err(DuplicateKey)
      else if before != [] && !KeyLess(before[|before| - 1].key, key) then Err(NotSorted)
      else Ok(key)
  }

  function DecodeAll(js: seq<Json>): Result<seq<PyValue>, TypedValueError>
    decreases js
  {
    if js == [] then Ok([])
    else
      var head := Decode(js[0]);
      var tail := DecodeAll(js[1..]);
      if head.Err? then Err(head.error) else if tail.Err? then tail else Ok([head.value] + tail.value)
  }

  function DecodePairs(items: seq<Json>): Result<seq<Pair<PyValue>>, TypedValueError>
    decreases items
  {
    if items == [] then Ok([])
    else
      var before := DecodePairs(items[..|items| - 1]);
      if before.Err? then before else NextPair(before.value, items[|items| - 1])
  }

  function NextPair(before: seq<Pair<PyValue>>, item: Json): Result<seq<Pair<PyValue>>, TypedValueError>
    decreases item
  {
    var key := ItemKey(item, before);
    if key.Err? then Err(key.error)
    else
      var value := Decode(item.elements[1]);
      if value.Err? then Err(value.error) else Ok(before + [Pair(key.value, value.value)])
  }

  function DecodeScalar(kind: string, value: Json): Result<PyValue, TypedValueError> {
    if kind == "bool" then if value.JBool? then Ok(PyBool(value.b)) else Err(BadPayload)
    else if !value.JText? then Err(BadPayload)
    else match value.t
         case OfInt(n) => if kind == "int" then Ok(PyInt(n)) else Err(BadPayload)
         case OfFloat(f) => if kind == "float" then (if f.Finite? then Ok(PyFloat(f)) else Err(NotFiniteNumber)) else Err(BadPayload)
         case Verbatim(s) => if kind == "str" then Ok(PyStr(s)) else Err(BadPayload)
         case OfStamp(at) =>
           if kind == "datetime" then (if at.offset.Some? then Ok(PyDatetime(InUtc(at))) else Err(NaiveDatetime)) else Err(BadPayload)
         case OfDay(day) => if kind == "date" then Ok(PyDate(day)) else Err(BadPayload)
         case OfDecimal(d) => if kind == "decimal" then (if d.FiniteDecimal? then Ok(PyDecimal(d)) else Err(NotFiniteNumber)) else Err(BadPayload)
         case OfUuid(id) => if kind == "uuid" then Ok(PyUuid(id)) else Err(BadPayload)
  }

  function Decode(j: Json): Result<PyValue, TypedValueError>
    decreases j
  {
    if !j.JObject? then Err(NotTagged)
    else
      var tag := Field(j.fields, TYPE_FIELD);
      if tag.None? then Err(NotTagged)
      else if !tag.value.JText? || !tag.value.t.Verbatim? then Err(BadTag)
      else
        var kind := tag.value.t.s;
        if kind == "none" then
          if HasExactly(j.fields, {TYPE_FIELD}) then Ok(PyNone) else Err(InvalidFields)
        else if kind in {"bool", "int", "float", "str", "datetime", "date", "decimal", "uuid"} then
          var value := Field(j.fields, VALUE_FIELD);
          if !HasExactly(j.fields, {TYPE_FIELD, VALUE_FIELD}) || value.None? then Err(InvalidFields)
          else DecodeScalar(kind, value.value)
        else if kind in {"list", "tuple", "dict"} then
          var items := Field(j.fields, ITEMS_FIELD);
          if !HasExactly(j.fields, {TYPE_FIELD, ITEMS_FIELD}) || items.None? then Err(InvalidFields)
          else if !items.value.JList? then Err(BadPayload)
          else if kind == "dict" then
            var pairs := DecodePairs(items.value.elements);
            if pairs.Err? then Err(pairs.error) else Ok(PyDict(pairs.value))
          else
            var elements := DecodeAll(items.value.elements);
            if elements.Err? then Err(elements.error)
            else if kind == "list" then Ok(PyList(elements.value)) else Ok(PyTuple(elements.value))
        else Err(BadTag)
  }

  /** One turn of the loop over the items of a dict. */
  method DecodeItem(result: seq<Pair<PyValue>>, previousKey: Option<string>, item: Json)
    returns (r: Result<seq<Pair<PyValue>>, TypedValueError>)
    requires previousKey == if result == [] then None else Some(result[|result| - 1].key)
    ensures r == NextPair(result, item)
    ensures forall p, j | p in result && item == JList([JText(Verbatim(p.key)), j]) :: r == Err(DuplicateKey)
  {
    hide Decode, KeyLess;
    if !item.JList? || |item.elements| != 2 || !item.elements[0].JText? || !item.elements[0].t.Verbatim? {
      return Err(BadItem);
    }
    var key := item.elements[0].t.s;
    if exists p | p in result :: p.key == key {
      return Err(DuplicateKey);
    }
    if previousKey.Some? && !KeyLess(previousKey.value, key) {
      return Err(NotSorted);
    }
    var value := Decode(item.elements[1]);
    if value.Err? {
      return Err(value.error);
    }
    r := Ok(result + [Pair(key, value.value)]);
  }

  method DecodeDict(items: seq<Json>) returns (r: Result<seq<Pair<PyValue>>, TypedValueError>)
    ensures r == DecodePairs(items)
  {
    hide NextPair;
    var result: seq<Pair<PyValue>> := [];
    var previousKey: Option<string> := None;
    assert items[..|items|] == items;
    for i := 0 to |items|
      invariant DecodePairs(items[..i]) == Ok(result)
      invariant previousKey == if result == [] then None else Some(result[|result| - 1].key)
    {
      assert items[..i + 1][..i] == items[..i];
      var next := DecodeItem(result, previousKey, items[i]);
      if next.Err? {
        PairsFailLater(items, i + 1);
        return next;
      }
      result := next.value;
      previousKey := if result == [] then None else Some(result[|result| - 1].key);
    }
    r := Ok(result);
  }

  lemma {:induction false} PairsFailLater(items: seq<Json>, n: nat)
    requires n <= |items| && DecodePairs(items[..n]).Err?
    ensures DecodePairs(items) == DecodePairs(items[..n])
    decreases |items|
  {
    hide NextPair;
    if n == |items| {
      assert items[..n] == items;
    } else {
      assert items[..|items| - 1][..n] == items[..n];
      PairsFailLater(items[..|items| - 1], n);
    }
  }
}
