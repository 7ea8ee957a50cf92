/** What becomes of a value that is written to the cache as JSON text and parsed again by a later hit. */
module CacheValues {
  import opened Prelude
  import Cache = SingleFlightCache
  import Guarantees = SingleFlightGuarantees

  /** Values a loader may return; a record lists its fields in order. */
  datatype Value =
    | Undefined
    | Null
    | Bool(b: bool)
    | Number(n: real)
    | NonFinite
    | Text(s: string)
    | Date(ms: int)
    | List(items: seq<Value>)
    | Record(fields: seq<Field>)

  datatype Field = Field(name: string, value: Value)

  datatype Json =
    | JNull
    | JBool(b: bool)
    | JNumber(n: real)
    | JString(s: string)
    | JArray(items: seq<Json>)
    | JObject(fields: seq<JField>)

  datatype JField = JField(name: string, value: Json)

  /** `toISOString`, and the date a string is revived to if it has the ISO form and names a date. */
  datatype Dates = Dates(iso: int -> string, parse: string -> Option<int>)

  // ---------------------------------------------------------------- JSON.stringify(value ?? null)

  /** The JSON a value denotes; undefined reads as null here, and is dropped from records below. */
  function ToJson(d: Dates, v: Value): Json
    decreases v, 1
  {
    match v
    case Undefined => JNull
    case Null => JNull
    case Bool(b) => JBool(b)
    case Number(n) => JNumber(n)
    case NonFinite => JNull
    case Text(s) => JString(s)
    case Date(ms) => JString(d.iso(ms))
    case List(items) => JArray(ItemsToJson(d, items))
    case Record(fields) => JObject(FieldsToJson(d, fields))
  }

  function ItemsToJson(d: Dates, items: seq<Value>): seq<Json>
    decreases items, 0
  {
    if items == [] then [] else [ToJson(d, items[0])] + ItemsToJson(d, items[1..])
  }

  function FieldsToJson(d: Dates, fields: seq<Field>): seq<JField>
    decreases fields, 0
  {
    if fields == [] then []
    else if fields[0].value.Undefined? then FieldsToJson(d, fields[1..])
    else [JField(fields[0].name, ToJson(d, fields[0].value))] + FieldsToJson(d, fields[1..])
  }

  // ---------------------------------------------------------------- JSON.parse(text, reviveDateValue)

  function Revive(d: Dates, j: Json): Value
    decreases j, 1
  {
    match j
    case JNull => Null
    case JBool(b) => Bool(b)
    case JNumber(n) => Number(n)
    case JString(s) => (match d.parse(s) case Some(ms) => Date(ms) case None => Text(s))
    case JArray(items) => List(ReviveItems(d, items))
    case JObject(fields) => Record(ReviveFields(d, fields))
  }

  function ReviveItems(d: Dates, items: seq<Json>): seq<Value>
    decreases items, 0
  {
    if items == [] then [] else [Revive(d, items[0])] + ReviveItems(d, items[1..])
  }

  function ReviveFields(d: Dates, fields: seq<JField>): seq<Field>
    decreases fields, 0
  {
    if fields == [] then []
    else [Field(fields[0].name, Revive(d, fields[0].value))] + ReviveFields(d, fields[1..])
  }

  function ReadBack(d: Dates, v: Value): Value {
    Revive(d, ToJson(d, v))
  }

  // ---------------------------------------------------------------- which values survive

  /** No undefined, no NaN or infinity, no string that looks like a date, and only dates that parse back. */
  predicate Stable(d: Dates, v: Value)
    decreases v, 1
  {
    match v
    case Undefined => false
    case NonFinite => false
    case Text(s) => d.parse(s) == None
    case Date(ms) => d.parse(d.iso(ms)) == Some(ms)
    case List(items) => StableItems(d, items)
    case Record(fields) => StableFields(d, fields)
    case _ => true
  }

  predicate StableItems(d: Dates, items: seq<Value>)
    decreases items, 0
  {
    items == [] || (Stable(d, items[0]) && StableItems(d, items[1..]))
  }

  predicate StableFields(d: Dates, fields: seq<Field>)
    decreases fields, 0
  {
    fields == [] || (Stable(d, fields[0].value) && StableFields(d, fields[1..]))
  }

  /** A value reads back from its own cached text unchanged exactly when it is stable. */
  lemma {:induction false} ReadsBackExactly(d: Dates, v: Value)
    ensures ReadBack(d, v) == v <==> Stable(d, v)
    decreases v, 1
  {
    match v
    case List(items) => ItemsReadBack(d, items);
    case Record(fields) => FieldsReadBack(d, fields);
    case _ =>
  }

  lemma {:induction false} ItemsReadBack(d: Dates, items: seq<Value>)
    ensures ReviveItems(d, ItemsToJson(d, items)) == items <==> StableItems(d, items)
    ensures |ItemsToJson(d, items)| == |ReviveItems(d, ItemsToJson(d, items))| == |items|
    decreases items, 0
  {
    if items != [] {
      ReadsBackExactly(d, items[0]);
      ItemsReadBack(d, items[1..]);
      var js := ItemsToJson(d, items);
      var vs := ReviveItems(d, js);
      assert js[1..] == ItemsToJson(d, items[1..]);
      assert vs[0] == ReadBack(d, items[0]) && vs[1..] == ReviveItems(d, js[1..]);
      if vs[0] == items[0] && vs[1..] == items[1..] {
        assert vs == [vs[0]] + vs[1..] && items == [items[0]] + items[1..];
      }
    }
  }

  lemma {:induction false} FieldsReadBack(d: Dates, fields: seq<Field>)
    ensures ReviveFields(d, FieldsToJson(d, fields)) == fields <==> StableFields(d, fields)
    ensures |ReviveFields(d, FieldsToJson(d, fields))| == |FieldsToJson(d, fields)| <= |fields|
    decreases fields, 0
  {
    if fields != [] {
      FieldsReadBack(d, fields[1..]);
      if fields[0].value.Undefined? {
        assert |ReviveFields(d, FieldsToJson(d, fields))| < |fields|;
      } else {
        ReadsBackExactly(d, fields[0].value);
        var js := FieldsToJson(d, fields);
        var vs := ReviveFields(d, js);
        assert js[1..] == FieldsToJson(d, fields[1..]);
        assert vs[0] == Field(fields[0].name, ReadBack(d, fields[0].value)) && vs[1..] == ReviveFields(d, js[1..]);
        if vs[0] == fields[0] && vs[1..] == fields[1..] {
          assert vs == [vs[0]] + vs[1..] && fields == [fields[0]] + fields[1..];
        }
      }
    }
  }

  /** What comes back for a value, said of the value itself. */
  function Returned(d: Dates, v: Value): Value
    decreases v, 1
  {
    match v
    case Undefined => Null
    case NonFinite => Null
    case Text(s) => if d.parse(s).Some? then Date(d.parse(s).value) else Text(s)
    case Date(ms) => if d.parse(d.iso(ms)).Some? then Date(d.parse(d.iso(ms)).value) else Text(d.iso(ms))
    case List(items) => List(seq(|items|, i requires 0 <= i < |items| => Returned(d, items[i])))
    case Record(fields) => Record(ReturnedFields(d, fields))
    case _ => v
  }

  function ReturnedFields(d: Dates, fields: seq<Field>): seq<Field>
    decreases fields, 0
  {
    if fields == [] then []
    else
      (if fields[0].value.Undefined? then [] else [Field(fields[0].name, Returned(d, fields[0].value))])
      + ReturnedFields(d, fields[1..])
  }

  /**
   * Every value, stable or not, comes back like this: undefined, NaN and infinity as null, texts that read as dates as
   * those dates, lists element by element, records without their undefined fields.
   */
  lemma {:induction false} ReadBackReturns(d: Dates, v: Value)
    ensures ReadBack(d, v) == Returned(d, v)
    decreases v, 1
  {
    match v
    case List(items) => ItemsReturn(d, items);
    case Record(fields) => FieldsReturn(d, fields);
    case _ =>
  }

  lemma {:induction false} ItemsReturn(d: Dates, items: seq<Value>)
    ensures |ReviveItems(d, ItemsToJson(d, items))| == |items|
    ensures forall i | 0 <= i < |items| :: ReviveItems(d, ItemsToJson(d, items))[i] == Returned(d, items[i])
    decreases items, 0
  {
    if items != [] {
      ReadBackReturns(d, items[0]);
      ItemsReturn(d, items[1..]);
      assert ItemsToJson(d, items)[1..] == ItemsToJson(d, items[1..]);
      assert forall i | 0 < i < |items| :: items[i] == items[1..][i - 1];
    }
  }

  lemma {:induction false} FieldsReturn(d: Dates, fields: seq<Field>)
    ensures ReviveFields(d, FieldsToJson(d, fields)) == ReturnedFields(d, fields)
    decreases fields, 0
  {
    if fields != [] {
      FieldsReturn(d, fields[1..]);
      if !fields[0].value.Undefined? {
        ReadBackReturns(d, fields[0].value);
        assert FieldsToJson(d, fields)[1..] == FieldsToJson(d, fields[1..]);
      }
    }
  }

  /** The second reading changes nothing more: a value that went through the cache once is stable. */
  lemma {:induction false} ReadBackIsIdempotent(d: Dates, j: Json)
    requires forall s, ms | d.parse(s) == Some(ms) :: d.parse(d.iso(ms)) == Some(ms)
    ensures Stable(d, Revive(d, j))
    decreases j, 1
  {
    match j
    case JArray(items) => RevivedItemsStable(d, items);
    case JObject(fields) => RevivedFieldsStable(d, fields);
    case _ =>
  }

  lemma {:induction false} RevivedItemsStable(d: Dates, items: seq<Json>)
    requires forall s, ms | d.parse(s) == Some(ms) :: d.parse(d.iso(ms)) == Some(ms)
    ensures StableItems(d, ReviveItems(d, items))
    decreases items, 0
  {
    if items != [] {
      ReadBackIsIdempotent(d, items[0]);
      RevivedItemsStable(d, items[1..]);
      assert ReviveItems(d, items)[1..] == ReviveItems(d, items[1..]);
    }
  }

  lemma {:induction false} RevivedFieldsStable(d: Dates, fields: seq<JField>)
    requires forall s, ms | d.parse(s) == Some(ms) :: d.parse(d.iso(ms)) == Some(ms)
    ensures StableFields(d, ReviveFields(d, fields))
    decreases fields, 0
  {
    if fields != [] {
      ReadBackIsIdempotent(d, fields[0].value);
      RevivedFieldsStable(d, fields[1..]);
      assert ReviveFields(d, fields)[1..] == ReviveFields(d, fields[1..]);
    }
  }

  /**
   * Put together with the cache: in every interleaving all answers for a key are the loader's own,
   * exactly when its value is stable or the caller chose not to cache it.
   */
  lemma CacheIsTransparentExactly(d: Dates, load: string -> Value, skip: Value -> bool, key: string)
    ensures Guarantees.AllAnswersFaithful(Cache.Loaders(load, skip, v => ReadBack(d, v)), key)
       <==> skip(load(key)) || Stable(d, load(key))
  {
    Guarantees.TransparentExactly(Cache.Loaders(load, skip, v => ReadBack(d, v)), key);
    ReadsBackExactly(d, load(key));
  }
}
