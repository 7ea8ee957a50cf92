/** For exactly which values, and which `oneOf` nodes, the protocol validator reads plain schemas as draft-07 does. */
module SchemaReadings {
  import opened Prelude
  import opened SchemaValidator

  // ---------------------------------------------------------------- the two ways of being out of the ordinary

  /** No whole number leaves the safe range, at any depth. */
  predicate SafeNumbers(v: Json)
    decreases v
  {
    match v
    case Num(n) => Integral(n) ==> -MAX_SAFE <= n <= MAX_SAFE
    case List(items) => forall i | 0 <= i < |items| :: SafeNumbers(items[i])
    case Obj(members) => forall i | 0 <= i < |members| :: SafeNumbers(members[i].value)
    case _ => true
  }

  /** No member has the name of the prototype, at any depth. */
  predicate ProtoFree(v: Json)
    decreases v
  {
    match v
    case List(items) => forall i | 0 <= i < |items| :: ProtoFree(items[i])
    case Obj(members) => forall i | 0 <= i < |members| :: members[i].name != PROTO && ProtoFree(members[i].value)
    case _ => true
  }

  lemma {:induction false} OrdinaryIsBoth(v: Json)
    ensures Ordinary(v) <==> SafeNumbers(v) && ProtoFree(v)
    decreases v
  {
    match v
    case List(items) =>
      forall i | 0 <= i < |items| ensures Ordinary(items[i]) <==> SafeNumbers(items[i]) && ProtoFree(items[i]) {
        OrdinaryIsBoth(items[i]);
      }
    case Obj(members) =>
      forall i | 0 <= i < |members|
        ensures Ordinary(members[i].value) <==> SafeNumbers(members[i].value) && ProtoFree(members[i].value)
      {
        OrdinaryIsBoth(members[i].value);
      }
    case _ =>
  }

  // ---------------------------------------------------------------- how large a value is

  /** `v` is at most `depth` deep, its member names are among `names`, its fractional numbers among `fractions`. */
  predicate Fits(v: Json, depth: nat, names: seq<string>, fractions: seq<Json>)
    decreases v
  {
    match v
    case Num(n) => !Integral(n) ==> v in fractions
    case List(items) => depth > 0 && forall i | 0 <= i < |items| :: Fits(items[i], depth - 1, names, fractions)
    case Obj(members) =>
      depth > 0 && forall i | 0 <= i < |members| ::
        members[i].name in names && Fits(members[i].value, depth - 1, names, fractions)
    case _ => true
  }

  predicate AllFractions(fractions: seq<Json>) {
    forall i | 0 <= i < |fractions| :: fractions[i].Num? && !Integral(fractions[i].n)
  }

  lemma {:induction false} FitsMore(v: Json, depth: nat, names: seq<string>, fractions: seq<Json>, depth': nat, names': seq<string>, fractions': seq<Json>)
    requires Fits(v, depth, names, fractions) && depth <= depth'
    requires (forall x | x in names :: x in names') && (forall x | x in fractions :: x in fractions')
    ensures Fits(v, depth', names', fractions')
    decreases v
  {
    match v
    case List(items) =>
      forall i | 0 <= i < |items| ensures Fits(items[i], depth' - 1, names', fractions') {
        FitsMore(items[i], depth - 1, names, fractions, depth' - 1, names', fractions');
      }
    case Obj(members) =>
      forall i | 0 <= i < |members| ensures members[i].name in names' && Fits(members[i].value, depth' - 1, names', fractions') {
        FitsMore(members[i].value, depth - 1, names, fractions, depth' - 1, names', fractions');
      }
    case _ =>
  }

  function Union(a: seq<string>, b: seq<string>): seq<string> {
    if b == [] then a
    else
      var u := Union(a, b[..|b| - 1]);
      if b[|b| - 1] in u then u else u + [b[|b| - 1]]
  }

  lemma {:induction false} UnionHasBoth(a: seq<string>, b: seq<string>)
    requires Distinct(a)
    ensures Distinct(Union(a, b)) && forall x :: x in Union(a, b) <==> x in a || x in b
  {
    if b != [] {
      var init, last := b[..|b| - 1], b[|b| - 1];
      UnionHasBoth(a, init);
      assert b == init + [last];
    }
  }

  function Max(a: nat, b: nat): nat {
    if a < b then b else a
  }

  /** Every value fits some bounds. */
  lemma {:induction false} SomeBounds(v: Json) returns (depth: nat, names: seq<string>, fractions: seq<Json>)
    ensures Fits(v, depth, names, fractions) && Distinct(names) && AllFractions(fractions)
    decreases v, 0
  {
    depth, names, fractions := 0, [], [];
    match v
    case Num(n) =>
      fractions := if Integral(n) then [] else [v];
    case List(items) =>
      depth, names, fractions := BoundsOfAll(v, items);
      depth := depth + 1;
    case Obj(members) =>
      var values := seq(|members|, i requires 0 <= i < |members| => members[i].value);
      forall i | 0 <= i < |values| ensures values[i] < v {
        assert members[i] in members;
      }
      depth, names, fractions := BoundsOfAll(v, values);
      var own := seq(|members|, i requires 0 <= i < |members| => members[i].name);
      UnionHasBoth(names, own);
      forall i | 0 <= i < |members|
        ensures members[i].name in Union(names, own) && Fits(members[i].value, depth, Union(names, own), fractions)
      {
        assert own[i] in own;
        FitsMore(values[i], depth, names, fractions, depth, Union(names, own), fractions);
      }
      depth, names := depth + 1, Union(names, own);
    case _ =>
  }

  lemma {:induction false} BoundsOfAll(v: Json, parts: seq<Json>) returns (depth: nat, names: seq<string>, fractions: seq<Json>)
    requires forall i | 0 <= i < |parts| :: parts[i] < v
    ensures forall i | 0 <= i < |parts| :: Fits(parts[i], depth, names, fractions)
    ensures Distinct(names) && AllFractions(fractions)
    decreases v, 0, |parts|
  {
    depth, names, fractions := 0, [], [];
    if parts != [] {
      var n := |parts| - 1;
      var d, ns, fs := BoundsOfAll(v, parts[..n]);
      var d', ns', fs' := SomeBounds(parts[n]);
      depth, names, fractions := Max(d, d'), Union(ns, ns'), fs + fs';
      UnionHasBoth(ns, ns');
      forall i | 0 <= i < |parts| ensures Fits(parts[i], depth, names, fractions) {
        if i < n {
          assert parts[..n][i] == parts[i];
          FitsMore(parts[i], d, ns, fs, depth, names, fractions);
        } else {
          FitsMore(parts[n], d', ns', fs', depth, names, fractions);
        }
      }
    }
  }

  // ---------------------------------------------------------------- a schema that looks for unsafe numbers

  function Properties(names: seq<string>, s: Schema): (r: seq<Property>)
    ensures |r| == |names| && forall i | 0 <= i < |r| :: r[i] == Property(names[i], s)
  {
    seq(|names|, i requires 0 <= i < |names| => Property(names[i], s))
  }

  /** Whole numbers and everything that is no number, down to a depth. */
  function Whole(depth: nat, names: seq<string>, fractions: seq<Json>): (s: Schema)
    ensures s.Node?
    decreases depth, 0
  {
    var types := [TNull, TBoolean, TString, TArray, TObject, TInteger];
    if depth == 0 then ANYTHING.(types := Some(types))
    else
      var below := Numbers(depth - 1, names, fractions);
      ANYTHING.(types := Some(types), items := Some(below), properties := Properties(names, below))
  }

  function Listing(fractions: seq<Json>): (s: Schema)
    ensures s.Node?
  {
    ANYTHING.(choices := Some(fractions))
  }

  /** Either one of the listed fractions, or no fraction at all. */
  function Numbers(depth: nat, names: seq<string>, fractions: seq<Json>): (s: Schema)
    ensures s.Node?
    decreases depth, 1
  {
    ANYTHING.(oneOf := OneOf([Whole(depth, names, fractions), Listing(fractions)]))
  }

  lemma {:induction false} NumbersIsPlain(depth: nat, names: seq<string>, fractions: seq<Json>)
    requires Distinct(names) && AllFractions(fractions)
    ensures Plain(Numbers(depth, names, fractions))
  {
    if depth > 0 {
      NumbersIsPlain(depth - 1, names, fractions);
    }
    assert Plain(Listing(fractions));
    assert Plain(Whole(depth, names, fractions));
  }

  /** Of two candidates exactly one must accept. */
  lemma ExactlyOneOfTwo(env: Texts, reading: Reading, a: Schema, b: Schema, v: Json)
    ensures ExactlyOneValid(env, reading, [a, b], v) <==> Valid(env, reading, a, v) != Valid(env, reading, b, v)
  {
    var both := [a, b];
    assert both[0] == a && both[1] == b;
    if Valid(env, reading, a, v) && !Valid(env, reading, b, v) {
      assert forall j | 0 <= j < |both| && j != 0 :: !Valid(env, reading, both[j], v);
    }
    if Valid(env, reading, b, v) && !Valid(env, reading, a, v) {
      assert forall j | 0 <= j < |both| && j != 1 :: !Valid(env, reading, both[j], v);
    }
  }

  lemma ListingReads(env: Texts, reading: Reading, v: Json, fractions: seq<Json>)
    requires AllFractions(fractions) && (v.Num? && !Integral(v.n) ==> v in fractions)
    ensures Valid(env, reading, Listing(fractions), v) <==> v.Num? && !Integral(v.n)
  {
    forall i | 0 <= i < |fractions| ensures SameJson(v, fractions[i]) <==> v == fractions[i] {
    }
    assert Among(fractions, v) <==> v in fractions;
  }

  lemma WholeTypes(reading: Reading, v: Json)
    ensures var types := [TNull, TBoolean, TString, TArray, TObject, TInteger];
            HasSomeType(reading, types, v) <==> v.Num? ==> HasType(reading, TInteger, v)
  {
    var types := [TNull, TBoolean, TString, TArray, TObject, TInteger];
    assert HasType(reading, types[0], v) <==> v.Null?;
    assert HasType(reading, types[1], v) <==> v.Bool?;
    assert HasType(reading, types[2], v) <==> v.Text?;
    assert HasType(reading, types[3], v) <==> v.List?;
    assert HasType(reading, types[4], v) <==> v.Obj?;
    assert HasType(reading, types[5], v) <==> HasType(reading, TInteger, v);
  }

  /** Draft-07 accepts every value within the bounds; the validator accepts exactly those with safe numbers. */
  lemma {:induction false} NumbersReads(env: Texts, reading: Reading, v: Json, depth: nat, names: seq<string>, fractions: seq<Json>)
    requires Fits(v, depth, names, fractions) && Distinct(names) && AllFractions(fractions)
    ensures Valid(env, reading, Numbers(depth, names, fractions), v) <==> reading.Draft7? || SafeNumbers(v)
    decreases depth
  {
    var whole, listing := Whole(depth, names, fractions), Listing(fractions);
    ExactlyOneOfTwo(env, reading, whole, listing, v);
    ListingReads(env, reading, v, fractions);
    WholeTypes(reading, v);
    if depth > 0 {
      var below := Numbers(depth - 1, names, fractions);
      if v.List? {
        forall i | 0 <= i < |v.items| ensures Valid(env, reading, below, v.items[i]) <==> reading.Draft7? || SafeNumbers(v.items[i]) {
          NumbersReads(env, reading, v.items[i], depth - 1, names, fractions);
        }
      }
      if v.Obj? {
        forall i | 0 <= i < |v.members|
          ensures Valid(env, reading, below, v.members[i].value) <==> reading.Draft7? || SafeNumbers(v.members[i].value)
        {
          NumbersReads(env, reading, v.members[i].value, depth - 1, names, fractions);
        }
      }
    }
    WholeReads(env, reading, v, depth, names, fractions);
    NoSiblingsAcceptsAll(env, reading, Numbers(depth, names, fractions), v);
  }

  lemma WholeReads(env: Texts, reading: Reading, v: Json, depth: nat, names: seq<string>, fractions: seq<Json>)
    requires Fits(v, depth, names, fractions)
    requires v.List? ==> forall i | 0 <= i < |v.items| ::
               Valid(env, reading, Numbers(depth - 1, names, fractions), v.items[i]) <==> reading.Draft7? || SafeNumbers(v.items[i])
    requires v.Obj? ==> forall i | 0 <= i < |v.members| ::
               Valid(env, reading, Numbers(depth - 1, names, fractions), v.members[i].value)
               <==> reading.Draft7? || SafeNumbers(v.members[i].value)
    ensures Valid(env, reading, Whole(depth, names, fractions), v) <==>
            (v.Num? ==> Integral(v.n)) && (reading.Draft7? || SafeNumbers(v))
  {
    var s := Whole(depth, names, fractions);
    WholeTypes(reading, v);
    assert GuardsMeet(reading, s, v) <==> (v.Num? ==> HasType(reading, TInteger, v));
    hide GuardsMeet, HasSomeType;
    if v.Obj? {
      forall i | 0 <= i < |v.members|
        ensures exists j | 0 <= j < |s.properties| :: s.properties[j].name == v.members[i].name
      {
        var j :| 0 <= j < |names| && names[j] == v.members[i].name;
        assert s.properties[j].name == v.members[i].name;
      }
    }
  }

  // ---------------------------------------------------------------- a schema that looks for the prototype's name

  /** Closed at every level, with every other name declared. */
  function Declaring(depth: nat, names: seq<string>): (s: Schema)
    ensures s.Node?
  {
    if depth == 0 then ANYTHING.(closed := true)
    else
      var below := Declaring(depth - 1, names);
      ANYTHING.(items := Some(below), properties := Properties(names, below), closed := true)
  }

  lemma {:induction false} DeclaringIsPlain(depth: nat, names: seq<string>)
    requires Distinct(names)
    ensures Plain(Declaring(depth, names))
  {
    if depth > 0 {
      DeclaringIsPlain(depth - 1, names);
    }
  }

  function WithoutProto(names: seq<string>): seq<string> {
    if names == [] then []
    else WithoutProto(names[..|names| - 1]) + if names[|names| - 1] == PROTO then [] else [names[|names| - 1]]
  }

  lemma {:induction false} WithoutProtoKeeps(names: seq<string>)
    requires Distinct(names)
    ensures Distinct(WithoutProto(names)) && forall x :: x in WithoutProto(names) <==> x in names && x != PROTO
  {
    if names != [] {
      var n := |names| - 1;
      WithoutProtoKeeps(names[..n]);
      assert names == names[..n] + [names[n]];
      assert names[n] !in names[..n];
    }
  }

  /** The names of `v` other than the prototype's are declared down to its depth. */
  predicate Named(v: Json, depth: nat, names: seq<string>)
    decreases v
  {
    match v
    case List(items) => depth > 0 && forall i | 0 <= i < |items| :: Named(items[i], depth - 1, names)
    case Obj(members) =>
      depth > 0 && forall i | 0 <= i < |members| ::
        (members[i].name == PROTO || members[i].name in names) && Named(members[i].value, depth - 1, names)
    case _ => true
  }

  lemma {:induction false} FitsIsNamed(v: Json, depth: nat, names: seq<string>, fractions: seq<Json>)
    requires Fits(v, depth, names, fractions) && Distinct(names)
    ensures Named(v, depth, WithoutProto(names))
    decreases v
  {
    WithoutProtoKeeps(names);
    match v
    case List(items) =>
      forall i | 0 <= i < |items| ensures Named(items[i], depth - 1, WithoutProto(names)) {
        FitsIsNamed(items[i], depth - 1, names, fractions);
      }
    case Obj(members) =>
      forall i | 0 <= i < |members| ensures Named(members[i].value, depth - 1, WithoutProto(names)) {
        FitsIsNamed(members[i].value, depth - 1, names, fractions);
      }
    case _ =>
  }

  /** The validator accepts every value so named; draft-07 accepts exactly those free of the prototype's name. */
  lemma {:induction false} DeclaringReads(env: Texts, reading: Reading, v: Json, depth: nat, names: seq<string>)
    requires Named(v, depth, names) && PROTO !in names
    ensures Valid(env, reading, Declaring(depth, names), v) <==> reading.Validator? || ProtoFree(v)
    decreases depth
  {
    var s := Declaring(depth, names);
    match v
    case List(items) =>
      forall i | 0 <= i < |items|
        ensures Valid(env, reading, Declaring(depth - 1, names), items[i]) <==> reading.Validator? || ProtoFree(items[i])
      {
        DeclaringReads(env, reading, items[i], depth - 1, names);
      }
    case Obj(members) =>
      forall i | 0 <= i < |members|
        ensures Valid(env, reading, Declaring(depth - 1, names), members[i].value) <==> reading.Validator? || ProtoFree(members[i].value)
      {
        DeclaringReads(env, reading, members[i].value, depth - 1, names);
      }
      DeclaringReadsMembers(env, reading, members, depth, names);
    case _ =>
  }

  lemma DeclaringReadsMembers(env: Texts, reading: Reading, members: seq<Member>, depth: nat, names: seq<string>)
    requires depth > 0 && Named(Obj(members), depth, names) && PROTO !in names
    requires forall i | 0 <= i < |members| ::
               Valid(env, reading, Declaring(depth - 1, names), members[i].value) <==> reading.Validator? || ProtoFree(members[i].value)
    ensures Valid(env, reading, Declaring(depth, names), Obj(members)) <==> reading.Validator? || ProtoFree(Obj(members))
  {
    var s := Declaring(depth, names);
    assert GuardsMeet(reading, s, Obj(members)) && HasAll(s.required, members);
    forall i | 0 <= i < |members|
      ensures IndexOfProperty(s.properties, members[i].name) >= 0 <==> members[i].name != PROTO
    {
      if members[i].name != PROTO {
        var j :| 0 <= j < |names| && names[j] == members[i].name;
        assert s.properties[j].name == members[i].name;
      }
    }
    hide GuardsMeet, HasAll;
    hide IndexOfProperty;
    if reading.Draft7? && exists i | 0 <= i < |members| :: members[i].name == PROTO {
      var i :| 0 <= i < |members| && members[i].name == PROTO;
      assert !Declared(reading, s, members[i].name);
    } else {
      forall i | 0 <= i < |members| ensures Declared(reading, s, members[i].name) {
      }
      forall i | 0 <= i < |members| && members[i].name != PROTO
        ensures exists j | 0 <= j < |s.properties| :: s.properties[j].name == members[i].name
      {
        assert s.properties[IndexOfProperty(s.properties, members[i].name)].name == members[i].name;
      }
    }
  }

  // ---------------------------------------------------------------- main results

  /** The validator reads the schema as draft-07 does, on this value. */
  ghost predicate ReadRight(env: Texts, s: Schema, v: Json, path: Path) {
    Issues(env, s, v, path) == [] <==> Valid(env, Draft7, s, v)
  }

  /**
   * A value is read right under every plain schema exactly when it is ordinary: no whole number beyond the safe
   * range and no member named like the prototype, at any depth.
   */
  lemma OrdinaryReadExactly(env: Texts, v: Json, path: Path)
    ensures (forall s | Plain(s) :: ReadRight(env, s, v, path)) <==> Ordinary(v)
  {
    if Ordinary(v) {
      forall s | Plain(s) ensures ReadRight(env, s, v, path) {
        SilentExactlyWhenValid(env, s, v, path);
      }
    } else {
      var depth, names, fractions := SomeBounds(v);
      OrdinaryIsBoth(v);
      var s: Schema;
      if !SafeNumbers(v) {
        s := Numbers(depth, names, fractions);
        NumbersIsPlain(depth, names, fractions);
        NumbersReads(env, Draft7, v, depth, names, fractions);
        NumbersReads(env, Validator, v, depth, names, fractions);
      } else {
        s := Declaring(depth, WithoutProto(names));
        WithoutProtoKeeps(names);
        DeclaringIsPlain(depth, WithoutProto(names));
        FitsIsNamed(v, depth, names, fractions);
        DeclaringReads(env, Draft7, v, depth, WithoutProto(names));
        DeclaringReads(env, Validator, v, depth, WithoutProto(names));
      }
      SilentExactlyWhenAccepted(env, s, v, path);
      assert Plain(s) && !ReadRight(env, s, v, path);
    }
  }

  /** The validator accepts this value exactly if this reading of the schema does. */
  ghost predicate ReadAs(env: Texts, reading: Reading, s: Schema, v: Json, path: Path) {
    Issues(env, s, v, path) == [] <==> Valid(env, reading, s, v)
  }

  /** In this reading the keywords beside `oneOf` do not refuse this value if the `oneOf` accepts it. */
  ghost predicate SiblingsAgree(env: Texts, reading: Reading, s: Schema, v: Json)
    requires s.Node? && s.oneOf.OneOf?
  {
    ExactlyOneValid(env, reading, s.oneOf.candidates, v) ==> SiblingsValid(env, reading, s, v)
  }

  /** The validator hides the keywords beside `oneOf`: a value is read right unless they would refuse what it accepts. */
  lemma OneOfReadAt(env: Texts, reading: Reading, s: Schema, v: Json, path: Path)
    requires s.Node? && s.oneOf.OneOf? && forall i | 0 <= i < |s.oneOf.candidates| :: Plain(s.oneOf.candidates[i])
    requires reading.Draft7? ==> Ordinary(v)
    ensures ReadAs(env, reading, s, v, path) <==> SiblingsAgree(env, reading, s, v)
  {
    var candidates := s.oneOf.candidates;
    forall i | 0 <= i < |candidates| ensures ItemAgrees(env, candidates[i], v, path) {
      SilentExactlyWhenAccepted(env, candidates[i], v, path);
    }
    OneOfAgrees(env, candidates, v, path);
    if reading.Draft7? {
      forall i | 0 <= i < |candidates| ensures Valid(env, Validator, candidates[i], v) <==> Valid(env, Draft7, candidates[i], v) {
        ReadingsAgree(env, candidates[i], v);
      }
      OneOfReadingsAgree(env, candidates, v);
    }
  }

  /**
   * A node with `oneOf` is read as draft-07 reads it, on every ordinary value, exactly when in draft-07 the keywords
   * beside it never refuse an ordinary value the `oneOf` accepts; and as its keywords say in the validator's own
   * reading, on every value, exactly when in that reading they never do.
   */
  lemma OneOfReadExactly(env: Texts, s: Schema, path: Path)
    requires s.Node? && s.oneOf.OneOf? && forall i | 0 <= i < |s.oneOf.candidates| :: Plain(s.oneOf.candidates[i])
    ensures (forall v | Ordinary(v) :: ReadAs(env, Draft7, s, v, path)) <==> (forall v | Ordinary(v) :: SiblingsAgree(env, Draft7, s, v))
    ensures (forall v :: ReadAs(env, Validator, s, v, path)) <==> (forall v :: SiblingsAgree(env, Validator, s, v))
  {
    forall v | Ordinary(v) ensures ReadAs(env, Draft7, s, v, path) <==> SiblingsAgree(env, Draft7, s, v) {
      OneOfReadAt(env, Draft7, s, v, path);
    }
    forall v ensures ReadAs(env, Validator, s, v, path) <==> SiblingsAgree(env, Validator, s, v) {
      OneOfReadAt(env, Validator, s, v, path);
    }
  }
}
