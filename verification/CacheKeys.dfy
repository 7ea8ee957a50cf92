/** Canonical cache keys: `normalizeForStableHash`, whose JSON text is hashed into the key. */
module CacheKeys {
  import opened Prelude
  import opened Sorting

  datatype Payload =
    | Undefined
    | Null
    | Bool(b: bool)
    | Number(n: real)
    | BigInt(i: int)
    | Text(s: string)
    | Date(ms: int)
    | List(items: seq<Payload>)
    | Record(fields: seq<Field>)

  datatype Field = Field(name: string, value: Payload)

  /** The texts of big integers, dates and whole payloads, and the order in which an object's keys come out. */
  datatype Style = Style(digits: int -> string, iso: int -> string, le: (string, string) -> bool, json: Payload -> string)

  function ByName(c: Style): (Field, Field) -> bool {
    (f: Field, g: Field) => c.le(f.name, g.name)
  }

  function Defined(fields: seq<Field>): seq<Field> {
    if fields == [] then []
    else (if fields[0].value.Undefined? then [] else [fields[0]]) + Defined(fields[1..])
  }

  lemma {:induction false} DefinedMembers(fields: seq<Field>, f: Field)
    ensures f in Defined(fields) <==> f in fields && !f.value.Undefined?
  {
    if fields != [] {
      DefinedMembers(fields[1..], f);
    }
  }

  lemma SortedMembers(c: Style, fields: seq<Field>, f: Field)
    ensures f in Sort(Defined(fields), ByName(c)) <==> f in fields && !f.value.Undefined?
  {
    DefinedMembers(fields, f);
    SortPermutes(Defined(fields), ByName(c));
    assert f in Sort(Defined(fields), ByName(c)) <==> f in multiset(Sort(Defined(fields), ByName(c)));
  }

  // ---------------------------------------------------------------- the normaliser

  /** Drop undefined fields, sort by key, normalise each value; dates and big integers become texts. */
  function Normalize(c: Style, v: Payload): Payload
    decreases v, 1
  {
    match v
    case Undefined => Null
    case BigInt(i) => Text(c.digits(i))
    case Date(ms) => Text(c.iso(ms))
    case List(items) => List(NormalizeItems(c, items))
    case Record(fields) =>
      var sorted := Sort(Defined(fields), ByName(c));
      assert forall f | f in sorted :: f in fields by {
        forall f | f in sorted ensures f in fields {
          SortedMembers(c, fields, f);
        }
      }
      Record(NormalizeFields(c, v, sorted))
    case _ => v
  }

  function NormalizeItems(c: Style, items: seq<Payload>): seq<Payload>
    decreases items, 0
  {
    if items == [] then [] else [Normalize(c, items[0])] + NormalizeItems(c, items[1..])
  }

  /** The values of some of the fields of `v`, in the given order. */
  function NormalizeFields(c: Style, v: Payload, fields: seq<Field>): seq<Field>
    requires v.Record? && forall f | f in fields :: f in v.fields
    decreases v, 0, |fields|
  {
    if fields == [] then []
    else
      assert fields[0] in v.fields;
      [Field(fields[0].name, Normalize(c, fields[0].value))] + NormalizeFields(c, v, fields[1..])
  }

  // ---------------------------------------------------------------- what a payload means

  /** A payload without its accidents: no key order, no undefined fields. */
  datatype Meaning =
    | MNull
    | MBool(b: bool)
    | MNumber(n: real)
    | MText(s: string)
    | MList(items: seq<Meaning>)
    | MRecord(fields: map<string, Meaning>)

  function Denote(c: Style, v: Payload): Meaning
    decreases v, 1
  {
    match v
    case Undefined => MNull
    case Null => MNull
    case Bool(b) => MBool(b)
    case Number(n) => MNumber(n)
    case BigInt(i) => MText(c.digits(i))
    case Text(s) => MText(s)
    case Date(ms) => MText(c.iso(ms))
    case List(items) => MList(DenoteItems(c, items))
    case Record(fields) => MRecord(DenoteFields(c, fields))
  }

  function DenoteItems(c: Style, items: seq<Payload>): seq<Meaning>
    decreases items, 0
  {
    if items == [] then [] else [Denote(c, items[0])] + DenoteItems(c, items[1..])
  }

  function DenoteFields(c: Style, fields: seq<Field>): map<string, Meaning>
    decreases fields, 0
  {
    if fields == [] then map[]
    else if fields[0].value.Undefined? then DenoteFields(c, fields[1..])
    else DenoteFields(c, fields[1..])[fields[0].name := Denote(c, fields[0].value)]
  }

  /** Field names do not repeat within an object, at any depth. */
  predicate WellFormed(v: Payload)
    decreases v, 1
  {
    match v
    case List(items) => forall i | 0 <= i < |items| :: WellFormed(items[i])
    case Record(fields) => NamesDiffer(fields) && forall i | 0 <= i < |fields| :: WellFormed(fields[i].value)
    case _ => true
  }

  predicate NamesDiffer(fields: seq<Field>) {
    forall i, j | 0 <= i < j < |fields| :: fields[i].name != fields[j].name
  }

  // ---------------------------------------------------------------- fields of a normalised record

  lemma {:induction false} DefinedNamesDiffer(fields: seq<Field>)
    requires NamesDiffer(fields)
    ensures NamesDiffer(Defined(fields))
  {
    if fields != [] {
      DefinedNamesDiffer(fields[1..]);
      var rest := Defined(fields[1..]);
      forall j | 0 <= j < |rest| ensures rest[j].name != fields[0].name {
        DefinedMembers(fields[1..], rest[j]);
        var k :| 0 <= k < |fields[1..]| && fields[1..][k] == rest[j];
        assert fields[k + 1].name != fields[0].name;
      }
    }
  }

  lemma NamesDifferPermuted(a: seq<Field>, b: seq<Field>)
    requires NamesDiffer(a) && multiset(a) == multiset(b)
    ensures NamesDiffer(b)
  {
    assert Distinct(a);
    PermutedDistinct(a, b);
    forall i, j | 0 <= i < j < |b| ensures b[i].name != b[j].name {
      assert b[i] in multiset(a) && b[j] in multiset(a);
      var m :| 0 <= m < |a| && a[m] == b[i];
      var n :| 0 <= n < |a| && a[n] == b[j];
      assert m != n;
    }
  }

  lemma ByNameIsTotal(c: Style)
    requires TotalOrder(c.le)
    ensures TotalPreorder(ByName(c))
  {
    forall f, g ensures ByName(c)(f, g) || ByName(c)(g, f) {
      assert c.le(f.name, g.name) || c.le(g.name, f.name);
    }
    forall f, g, h | ByName(c)(f, g) && ByName(c)(g, h) ensures ByName(c)(f, h) {
      assert c.le(f.name, g.name) && c.le(g.name, h.name);
    }
  }

  function NormalizedField(c: Style, f: Field): Field {
    Field(f.name, Normalize(c, f.value))
  }

  ghost predicate ComesFrom(c: Style, fields: seq<Field>, g: Field) {
    exists f :: f in fields && !f.value.Undefined? && g == NormalizedField(c, f)
  }

  /** The fields of a normalised record come in key order, each name once. */
  lemma NormalizedFieldsSorted(c: Style, v: Payload)
    requires TotalOrder(c.le) && v.Record? && NamesDiffer(v.fields)
    ensures NamesDiffer(Normalize(c, v).fields) && Sorted(Normalize(c, v).fields, ByName(c))
  {
    var sorted := Sort(Defined(v.fields), ByName(c));
    DefinedNamesDiffer(v.fields);
    SortPermutes(Defined(v.fields), ByName(c));
    NamesDifferPermuted(Defined(v.fields), sorted);
    ByNameIsTotal(c);
    SortSorts(Defined(v.fields), ByName(c));
    NormalizedOneByOne(c, v);
    hide Normalize, Sort, Defined;
  }

  /** The defined fields in key order, which the normaliser maps one by one. */
  function InKeyOrder(c: Style, fields: seq<Field>): seq<Field> {
    Sort(Defined(fields), ByName(c))
  }

  lemma NormalizedOneByOne(c: Style, v: Payload)
    requires v.Record?
    ensures var (sorted, out) := (InKeyOrder(c, v.fields), Normalize(c, v).fields);
            |out| == |sorted| && forall i | 0 <= i < |sorted| :: out[i] == NormalizedField(c, sorted[i])
  {
    var sorted := InKeyOrder(c, v.fields);
    forall f | f in sorted ensures f in v.fields {
      SortedMembers(c, v.fields, f);
    }
    FieldByField(c, v, sorted);
  }

  /** The fields of a normalised record are exactly the defined fields, normalised. */
  lemma NormalizedFieldsMembers(c: Style, v: Payload, g: Field)
    requires v.Record?
    ensures g in Normalize(c, v).fields <==> ComesFrom(c, v.fields, g)
  {
    var sorted, out := InKeyOrder(c, v.fields), Normalize(c, v).fields;
    NormalizedOneByOne(c, v);
    forall f ensures f in sorted <==> f in v.fields && !f.value.Undefined? {
      SortedMembers(c, v.fields, f);
    }
    hide Normalize, InKeyOrder, NormalizedField;
    if g in out {
      var i :| 0 <= i < |out| && out[i] == g;
      assert sorted[i] in sorted && g == NormalizedField(c, sorted[i]);
    }
    if ComesFrom(c, v.fields, g) {
      var f :| f in v.fields && !f.value.Undefined? && g == NormalizedField(c, f);
      var i :| 0 <= i < |sorted| && sorted[i] == f;
      assert out[i] == g;
    }
  }

  lemma {:induction false} FieldByField(c: Style, v: Payload, fields: seq<Field>)
    requires v.Record? && forall f | f in fields :: f in v.fields
    ensures var out := NormalizeFields(c, v, fields);
            |out| == |fields| && forall i | 0 <= i < |fields| :: out[i] == Field(fields[i].name, Normalize(c, fields[i].value))
  {
    if fields != [] {
      FieldByField(c, v, fields[1..]);
    }
  }

  lemma {:induction false} FieldMeanings(c: Style, fields: seq<Field>)
    requires NamesDiffer(fields)
    ensures var m := DenoteFields(c, fields);
            && (forall f | f in fields && !f.value.Undefined? :: f.name in m && m[f.name] == Denote(c, f.value))
            && (forall k | k in m :: exists f :: f in fields && !f.value.Undefined? && f.name == k)
  {
    if fields != [] {
      var rest := fields[1..];
      FieldMeanings(c, rest);
      var m, m' := DenoteFields(c, fields), DenoteFields(c, rest);
      forall f | f in fields && !f.value.Undefined? ensures f.name in m && m[f.name] == Denote(c, f.value) {
        if f != fields[0] {
          var i :| 0 <= i < |fields| && fields[i] == f;
          assert rest[i - 1] == f;
          assert fields[0].name != fields[i].name;
        }
      }
      forall k | k in m ensures exists f :: f in fields && !f.value.Undefined? && f.name == k {
        if k in m' {
          var f :| f in rest && !f.value.Undefined? && f.name == k;
          assert f in fields;
        } else {
          assert fields[0] in fields;
        }
      }
    }
  }

  // ---------------------------------------------------------------- main results

  lemma {:induction false} ItemByItem(c: Style, items: seq<Payload>)
    ensures |NormalizeItems(c, items)| == |DenoteItems(c, items)| == |items|
    ensures forall i | 0 <= i < |items| :: NormalizeItems(c, items)[i] == Normalize(c, items[i])
    ensures forall i | 0 <= i < |items| :: DenoteItems(c, items)[i] == Denote(c, items[i])
  {
    if items != [] {
      ItemByItem(c, items[1..]);
    }
  }

  /** Normalising keeps the meaning, and keeps payloads well-formed. */
  lemma {:induction false} NormalizeKeepsMeaning(c: Style, v: Payload)
    requires TotalOrder(c.le) && WellFormed(v)
    ensures WellFormed(Normalize(c, v)) && Denote(c, Normalize(c, v)) == Denote(c, v)
    decreases v
  {
    match v
    case List(items) =>
      ItemByItem(c, items);
      var out := NormalizeItems(c, items);
      ItemByItem(c, out);
      forall i | 0 <= i < |items| ensures WellFormed(out[i]) && Denote(c, out[i]) == Denote(c, items[i]) {
        NormalizeKeepsMeaning(c, items[i]);
      }
      assert DenoteItems(c, out) == DenoteItems(c, items);
    case Record(fields) =>
      RecordKeepsMeaning(c, v);
    case _ =>
  }

  lemma RecordKeepsMeaning(c: Style, v: Payload)
    requires TotalOrder(c.le) && v.Record? && WellFormed(v)
    ensures WellFormed(Normalize(c, v)) && Denote(c, Normalize(c, v)) == Denote(c, v)
    decreases v, 0
  {
    forall f | f in v.fields
      ensures WellFormed(NormalizedField(c, f).value) && Denote(c, NormalizedField(c, f).value) == Denote(c, f.value)
    {
      NormalizeKeepsMeaning(c, f.value);
    }
    var out := Normalize(c, v).fields;
    NormalizedFieldsSorted(c, v);
    forall i | 0 <= i < |out| ensures WellFormed(out[i].value) {
      NormalizedFieldsMembers(c, v, out[i]);
    }
    NormalizedFieldsDenote(c, v);
  }

  /** Nothing normalises to the undefined value. */
  lemma NeverUndefined(c: Style, v: Payload)
    ensures !Normalize(c, v).Undefined?
  {
  }

  lemma NormalizedFieldsDenote(c: Style, v: Payload)
    requires TotalOrder(c.le) && v.Record? && NamesDiffer(v.fields)
    requires forall f | f in v.fields :: Denote(c, NormalizedField(c, f).value) == Denote(c, f.value)
    ensures DenoteFields(c, Normalize(c, v).fields) == DenoteFields(c, v.fields)
  {
    var out := Normalize(c, v).fields;
    NormalizedFieldsSorted(c, v);
    FieldMeanings(c, v.fields);
    FieldMeanings(c, out);
    var m, n := DenoteFields(c, v.fields), DenoteFields(c, out);
    hide Normalize, Denote, DenoteFields;
    forall k | k in m ensures k in n && n[k] == m[k] {
      var f :| f in v.fields && !f.value.Undefined? && f.name == k;
      assert ComesFrom(c, v.fields, NormalizedField(c, f));
      NormalizedFieldsMembers(c, v, NormalizedField(c, f));
      NeverUndefined(c, f.value);
    }
    forall k | k in n ensures k in m {
      var g :| g in out && !g.value.Undefined? && g.name == k;
      NormalizedFieldsMembers(c, v, g);
    }
  }

  /** Payloads with one meaning normalise to one payload. */
  lemma {:induction false} MeaningDeterminesKey(c: Style, a: Payload, b: Payload)
    requires TotalOrder(c.le) && WellFormed(a) && WellFormed(b) && Denote(c, a) == Denote(c, b)
    ensures Normalize(c, a) == Normalize(c, b)
    decreases a
  {
    match a
    case List(items) =>
      ItemByItem(c, a.items);
      ItemByItem(c, b.items);
      assert |a.items| == |b.items|;
      forall i | 0 <= i < |a.items| ensures Normalize(c, a.items[i]) == Normalize(c, b.items[i]) {
        assert DenoteItems(c, a.items)[i] == DenoteItems(c, b.items)[i];
        MeaningDeterminesKey(c, a.items[i], b.items[i]);
      }
      assert NormalizeItems(c, a.items) == NormalizeItems(c, b.items);
    case Record(fields) =>
      RecordsNormalizeAlike(c, a, b);
    case _ =>
  }

  ghost predicate ValuesAgree(c: Style, a: seq<Field>, b: seq<Field>) {
    forall f, g | f in a && g in b && !f.value.Undefined? && !g.value.Undefined? && f.name == g.name ::
      NormalizedField(c, f) == NormalizedField(c, g)
  }

  lemma FieldsCarryOver(c: Style, a: seq<Field>, b: seq<Field>, h: Field)
    requires NamesDiffer(a) && NamesDiffer(b) && DenoteFields(c, a) == DenoteFields(c, b) && ValuesAgree(c, a, b)
    requires ComesFrom(c, a, h)
    ensures ComesFrom(c, b, h)
  {
    FieldMeanings(c, a);
    FieldMeanings(c, b);
    hide Normalize, Denote, DenoteFields;
    var f :| f in a && !f.value.Undefined? && h == NormalizedField(c, f);
    assert f.name in DenoteFields(c, b);
    var g :| g in b && !g.value.Undefined? && g.name == f.name;
    assert NormalizedField(c, f) == NormalizedField(c, g);
  }

  lemma NormalizedRecordsMatch(c: Style, a: Payload, b: Payload)
    requires TotalOrder(c.le) && a.Record? && b.Record? && NamesDiffer(a.fields) && NamesDiffer(b.fields)
    requires DenoteFields(c, a.fields) == DenoteFields(c, b.fields) && ValuesAgree(c, a.fields, b.fields)
    ensures Normalize(c, a).fields == Normalize(c, b).fields
  {
    var x, y := Normalize(c, a).fields, Normalize(c, b).fields;
    NormalizedFieldsSorted(c, a);
    NormalizedFieldsSorted(c, b);
    ByNameIsTotal(c);
    assert Distinct(x) && Distinct(y);
    hide Normalize, DenoteFields;
    forall h ensures h in x <==> h in y {
      NormalizedFieldsMembers(c, a, h);
      NormalizedFieldsMembers(c, b, h);
      if h in x {
        FieldsCarryOver(c, a.fields, b.fields, h);
      }
      if h in y {
        FieldsCarryOver(c, b.fields, a.fields, h);
      }
    }
    SameMembersPermute(x, y);
    NamesNeverTie(c, x);
    SortedIsUnique(x, y, ByName(c));
  }

  lemma NamesNeverTie(c: Style, fields: seq<Field>)
    requires TotalOrder(c.le) && NamesDiffer(fields)
    ensures NoTies(fields, ByName(c))
  {
    forall f, g | f in fields && g in fields && ByName(c)(f, g) && ByName(c)(g, f) ensures f == g {
      assert f.name == g.name;
      var i :| 0 <= i < |fields| && fields[i] == f;
      var j :| 0 <= j < |fields| && fields[j] == g;
    }
  }

  lemma RecordsNormalizeAlike(c: Style, a: Payload, b: Payload)
    requires TotalOrder(c.le) && WellFormed(a) && WellFormed(b) && a.Record? && b.Record? && Denote(c, a) == Denote(c, b)
    ensures Normalize(c, a) == Normalize(c, b)
    decreases a, 0
  {
    forall f, g | f in a.fields && g in b.fields && !f.value.Undefined? && !g.value.Undefined? && f.name == g.name
      ensures NormalizedField(c, f) == NormalizedField(c, g)
    {
      FieldMeanings(c, a.fields);
      FieldMeanings(c, b.fields);
      MeaningDeterminesKey(c, f.value, g.value);
    }
    NormalizedRecordsMatch(c, a, b);
  }

  /** The key text of a payload: what is hashed into the cache key. */
  function KeyText(c: Style, v: Payload): string {
    c.json(Normalize(c, v))
  }

  /** Different normalised payloads print differently; other payloads may share a text. */
  ghost predicate InjectiveJson(c: Style) {
    forall v, w | c.json(Normalize(c, v)) == c.json(Normalize(c, w)) :: Normalize(c, v) == Normalize(c, w)
  }

  /**
   * Two payloads get the same key text exactly when they mean the same: key order and undefined fields
   * never matter, at any depth, and nothing else is lost.
   */
  lemma KeysAreCanonical(c: Style, a: Payload, b: Payload)
    requires TotalOrder(c.le) && InjectiveJson(c) && WellFormed(a) && WellFormed(b)
    ensures KeyText(c, a) == KeyText(c, b) <==> Denote(c, a) == Denote(c, b)
  {
    NormalizeKeepsMeaning(c, a);
    NormalizeKeepsMeaning(c, b);
    if Denote(c, a) == Denote(c, b) {
      MeaningDeterminesKey(c, a, b);
    }
  }

  /** Normalising a normalised payload changes nothing. */
  lemma NormalizeIsIdempotent(c: Style, v: Payload)
    requires TotalOrder(c.le) && WellFormed(v)
    ensures Normalize(c, Normalize(c, v)) == Normalize(c, v)
  {
    NormalizeKeepsMeaning(c, v);
    MeaningDeterminesKey(c, Normalize(c, v), v);
  }
}
