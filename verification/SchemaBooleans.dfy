/** How the protocol validator reads boolean schemas, at the root of a call, in `oneOf`, in `items` and among the properties. */
module SchemaBooleans {
  import opened Prelude
  import opened SchemaValidator
  import opened SchemaReadings

  // ---------------------------------------------------------------- what a boolean schema is taken for

  /** Like a plain schema, with boolean schemas anywhere. */
  predicate Shaped(s: Schema)
    decreases s
  {
    s.Node? ==>
      && (s.oneOf.OneOf? ==> NoSiblings(s) && forall i | 0 <= i < |s.oneOf.candidates| :: Shaped(s.oneOf.candidates[i]))
      && (s.constant.Some? ==> Scalar(s.constant.value))
      && (s.choices.Some? ==> forall i | 0 <= i < |s.choices.value| :: Scalar(s.choices.value[i]))
      && (s.items.Some? ==> Shaped(s.items.value))
      && (forall i | 0 <= i < |s.properties| :: Shaped(s.properties[i].schema))
      && (forall i, j | 0 <= i < j < |s.properties| :: s.properties[i].name != s.properties[j].name)
  }

  /** The plain schema that refuses everything: no choice is listed. */
  const NOTHING: Schema := ANYTHING.(choices := Some([]))

  /**
   * The plain schema that the validator takes `s` for. A boolean is no record: at the root of a call, as a candidate
   * and in `items` it is passed over; as a property schema it leaves its member to `additionalProperties`.
   */
  function TakenFor(s: Schema): (r: Schema)
    ensures r.Node?
    decreases s, 1
  {
    if s.Boolean? then ANYTHING
    else
      s.(oneOf := if s.oneOf.OneOf? then OneOf(CandidatesTakenFor(s.oneOf.candidates)) else NoOneOf,
         items := if s.items.Some? then Some(TakenFor(s.items.value)) else None,
         properties := PropertiesTakenFor(s.properties, s.closed))
  }

  function CandidatesTakenFor(candidates: seq<Schema>): (r: seq<Schema>)
    ensures |r| == |candidates| && forall i | 0 <= i < |r| :: r[i] == TakenFor(candidates[i])
    decreases candidates, 0
  {
    seq(|candidates|, i requires 0 <= i < |candidates| => TakenFor(candidates[i]))
  }

  function PropertiesTakenFor(properties: seq<Property>, closed: bool): (r: seq<Property>)
    ensures |r| == |properties|
    ensures forall i | 0 <= i < |r| :: r[i] == Property(properties[i].name, PropertyTakenFor(properties[i].schema, closed))
    decreases properties, 0
  {
    seq(|properties|, i requires 0 <= i < |properties| =>
      assert properties[i] in properties;
      Property(properties[i].name, PropertyTakenFor(properties[i].schema, closed)))
  }

  function PropertyTakenFor(s: Schema, closed: bool): (r: Schema)
    ensures r.Node?
    decreases s, 2
  {
    if s.Boolean? && closed then NOTHING else TakenFor(s)
  }

  lemma {:induction false} TakenForIsPlain(s: Schema)
    requires Shaped(s)
    ensures Plain(TakenFor(s))
    decreases s
  {
    if s.Node? {
      if s.oneOf.OneOf? {
        forall i | 0 <= i < |s.oneOf.candidates| ensures Plain(TakenFor(s.oneOf.candidates[i])) {
          TakenForIsPlain(s.oneOf.candidates[i]);
        }
      }
      if s.items.Some? {
        TakenForIsPlain(s.items.value);
      }
      forall i | 0 <= i < |s.properties| ensures Plain(PropertyTakenFor(s.properties[i].schema, s.closed)) {
        TakenForIsPlain(s.properties[i].schema);
      }
    }
  }

  // ---------------------------------------------------------------- the validator takes it for that

  /** The validator is silent on `s` exactly if it is silent on `t`. */
  ghost predicate SameSilence(env: Texts, s: Schema, t: Schema, v: Json, path: Path) {
    Issues(env, s, v, path) == [] <==> Issues(env, t, v, path) == []
  }

  lemma {:induction false} SameMatching(env: Texts, candidates: seq<Schema>, taken: seq<Schema>, v: Json, path: Path)
    requires |candidates| == |taken|
    requires forall i | 0 <= i < |candidates| :: SameSilence(env, candidates[i], taken[i], v, path)
    ensures Matching(env, candidates, v, path) == Matching(env, taken, v, path)
    decreases candidates
  {
    if candidates != [] {
      var n := |candidates| - 1;
      assert SameSilence(env, candidates[n], taken[n], v, path);
      assert forall i | 0 <= i < n :: SameSilence(env, candidates[..n][i], taken[..n][i], v, path);
      SameMatching(env, candidates[..n], taken[..n], v, path);
    }
  }

  lemma NothingIsRefused(env: Texts, v: Json, path: Path)
    ensures Issues(env, ANYTHING, v, path) == [] && Issues(env, NOTHING, v, path) != []
  {
    if v.Obj? {
      MemberIssuesEmpty(env, ANYTHING, v.members, path);
    }
  }

  lemma {:induction false} SameIndex(properties: seq<Property>, closed: bool, name: string)
    ensures IndexOfProperty(PropertiesTakenFor(properties, closed), name) == IndexOfProperty(properties, name)
  {
    if properties != [] {
      SameIndex(properties[1..], closed, name);
      assert PropertiesTakenFor(properties, closed)[1..] == PropertiesTakenFor(properties[1..], closed);
    }
  }

  lemma MemberTakenFor(env: Texts, s: Schema, m: Member, path: Path)
    requires s.Node?
    requires forall j | 0 <= j < |s.properties| :: SameSilence(env, s.properties[j].schema, TakenFor(s.properties[j].schema), m.value, path)
    ensures MemberIssue(env, s, m, path) == [] <==> MemberIssue(env, TakenFor(s), m, path) == []
  {
    SameIndex(s.properties, s.closed, m.name);
    NothingIsRefused(env, m.value, path);
    var j := IndexOfProperty(s.properties, m.name);
    if j >= 0 {
      assert SameSilence(env, s.properties[j].schema, TakenFor(s.properties[j].schema), m.value, path);
    }
  }

  /** Whatever the value, the validator is silent on a schema exactly if it is silent on what it takes it for. */
  lemma {:induction false} SilentAlike(env: Texts, s: Schema, v: Json, path: Path)
    ensures SameSilence(env, s, TakenFor(s), v, path)
    decreases s
  {
    var t := TakenFor(s);
    if s.Boolean? {
      NothingIsRefused(env, v, path);
    } else if s.oneOf.OneOf? {
      forall i | 0 <= i < |s.oneOf.candidates|
        ensures SameSilence(env, s.oneOf.candidates[i], TakenFor(s.oneOf.candidates[i]), v, path)
      {
        SilentAlike(env, s.oneOf.candidates[i], v, path);
      }
      SameMatching(env, s.oneOf.candidates, t.oneOf.candidates, v, path);
    } else if v.List? && s.items.Some? {
      forall i | 0 <= i < |v.items| ensures SameSilence(env, s.items.value, TakenFor(s.items.value), v.items[i], path + [Index(i)]) {
        SilentAlike(env, s.items.value, v.items[i], path + [Index(i)]);
      }
      ElementsTakenFor(env, s, v.items, path);
    } else if v.Obj? {
      forall i, j | 0 <= i < |v.members| && 0 <= j < |s.properties|
        ensures SameSilence(env, s.properties[j].schema, TakenFor(s.properties[j].schema), v.members[i].value, path + [Key(v.members[i].name)])
      {
        SilentAlike(env, s.properties[j].schema, v.members[i].value, path + [Key(v.members[i].name)]);
      }
      MembersTakenFor(env, s, v.members, path);
    }
  }

  lemma ElementsTakenFor(env: Texts, s: Schema, items: seq<Json>, path: Path)
    requires s.Node? && s.items.Some?
    requires forall i | 0 <= i < |items| :: SameSilence(env, s.items.value, TakenFor(s.items.value), items[i], path + [Index(i)])
    ensures ElementIssues(env, s, items, path) == [] <==> ElementIssues(env, TakenFor(s), items, path) == []
  {
    ItemIssuesEmpty(env, s.items.value, items, path);
    ItemIssuesEmpty(env, TakenFor(s.items.value), items, path);
  }

  lemma MembersTakenFor(env: Texts, s: Schema, members: seq<Member>, path: Path)
    requires s.Node?
    requires forall i, j | 0 <= i < |members| && 0 <= j < |s.properties| ::
               SameSilence(env, s.properties[j].schema, TakenFor(s.properties[j].schema), members[i].value, path + [Key(members[i].name)])
    ensures MemberIssues(env, s, members, path) == [] <==> MemberIssues(env, TakenFor(s), members, path) == []
  {
    MemberIssuesEmpty(env, s, members, path);
    MemberIssuesEmpty(env, TakenFor(s), members, path);
    forall i | 0 <= i < |members|
      ensures MemberIssue(env, s, members[i], path + [Key(members[i].name)]) == [] <==>
              MemberIssue(env, TakenFor(s), members[i], path + [Key(members[i].name)]) == []
    {
      MemberTakenFor(env, s, members[i], path + [Key(members[i].name)]);
    }
  }

  /** For every value and every schema with booleans in it: silence means that what it is taken for accepts the value. */
  lemma SilentExactlyWhenTakenFor(env: Texts, s: Schema, v: Json, path: Path)
    requires Shaped(s)
    ensures Issues(env, s, v, path) == [] <==> Valid(env, Validator, TakenFor(s), v)
  {
    SilentAlike(env, s, v, path);
    TakenForIsPlain(s);
    SilentExactlyWhenAccepted(env, TakenFor(s), v, path);
  }

  // ---------------------------------------------------------------- which places are harmless

  /**
   * Every boolean schema stands where it is taken for what it means: `true` at the root, as a candidate and in
   * `items`; among the properties `true` in an open and `false` in a closed schema.
   */
  predicate WellPlaced(s: Schema)
    decreases s
  {
    if s.Boolean? then s.allow
    else
      && (s.oneOf.OneOf? ==> forall i | 0 <= i < |s.oneOf.candidates| :: WellPlaced(s.oneOf.candidates[i]))
      && (s.items.Some? ==> WellPlaced(s.items.value))
      && (forall i | 0 <= i < |s.properties| ::
            var p := s.properties[i].schema; if p.Boolean? then p.allow != s.closed else WellPlaced(p))
  }

  /** Two schemas mean the same for this value. */
  ghost predicate SameMeaning(env: Texts, s: Schema, t: Schema, v: Json) {
    Valid(env, Draft7, s, v) <==> Valid(env, Draft7, t, v)
  }

  lemma AnythingAccepts(env: Texts, v: Json)
    ensures Valid(env, Draft7, ANYTHING, v) && !Valid(env, Draft7, NOTHING, v)
  {
    NoSiblingsAcceptsAll(env, Draft7, ANYTHING, v);
  }

  lemma {:induction false} WellPlacedMeansTheSame(env: Texts, s: Schema, v: Json)
    requires WellPlaced(s)
    ensures SameMeaning(env, s, TakenFor(s), v)
    decreases s
  {
    AnythingAccepts(env, v);
    if s.Node? {
      if s.oneOf.OneOf? {
        forall i | 0 <= i < |s.oneOf.candidates|
          ensures SameMeaning(env, s.oneOf.candidates[i], TakenFor(s).oneOf.candidates[i], v)
        {
          WellPlacedMeansTheSame(env, s.oneOf.candidates[i], v);
        }
        SameExactlyOne(env, s.oneOf.candidates, TakenFor(s).oneOf.candidates, v);
      }
      if v.List? && s.items.Some? {
        forall i | 0 <= i < |v.items| ensures SameMeaning(env, s.items.value, TakenFor(s.items.value), v.items[i]) {
          WellPlacedMeansTheSame(env, s.items.value, v.items[i]);
        }
      }
      if v.Obj? {
        forall i, j | 0 <= i < |v.members| && 0 <= j < |s.properties|
          ensures SameMeaning(env, s.properties[j].schema, PropertyTakenFor(s.properties[j].schema, s.closed), v.members[i].value)
        {
          AnythingAccepts(env, v.members[i].value);
          if s.properties[j].schema.Node? {
            WellPlacedMeansTheSame(env, s.properties[j].schema, v.members[i].value);
          }
        }
      }
      SiblingsMeanTheSame(env, s, v);
    }
  }

  lemma OneMeansOne(env: Texts, candidates: seq<Schema>, taken: seq<Schema>, v: Json)
    requires |candidates| == |taken| && forall i | 0 <= i < |candidates| :: SameMeaning(env, candidates[i], taken[i], v)
    requires ExactlyOneValid(env, Draft7, candidates, v)
    ensures ExactlyOneValid(env, Draft7, taken, v)
  {
    var i :| 0 <= i < |candidates| && Valid(env, Draft7, candidates[i], v)
          && forall j | 0 <= j < |candidates| && j != i :: !Valid(env, Draft7, candidates[j], v);
    hide Valid;
    assert SameMeaning(env, candidates[i], taken[i], v);
    forall j | 0 <= j < |taken| && j != i ensures !Valid(env, Draft7, taken[j], v) {
      assert SameMeaning(env, candidates[j], taken[j], v);
    }
  }

  lemma SameExactlyOne(env: Texts, candidates: seq<Schema>, taken: seq<Schema>, v: Json)
    requires |candidates| == |taken| && forall i | 0 <= i < |candidates| :: SameMeaning(env, candidates[i], taken[i], v)
    ensures ExactlyOneValid(env, Draft7, candidates, v) <==> ExactlyOneValid(env, Draft7, taken, v)
  {
    hide Valid, ExactlyOneValid;
    if ExactlyOneValid(env, Draft7, candidates, v) {
      OneMeansOne(env, candidates, taken, v);
    }
    if ExactlyOneValid(env, Draft7, taken, v) {
      forall i | 0 <= i < |candidates| ensures SameMeaning(env, taken[i], candidates[i], v) {
        assert SameMeaning(env, candidates[i], taken[i], v);
      }
      OneMeansOne(env, taken, candidates, v);
    }
  }

  lemma SiblingsMeanTheSame(env: Texts, s: Schema, v: Json)
    requires s.Node?
    requires v.List? && s.items.Some? ==> forall i | 0 <= i < |v.items| :: SameMeaning(env, s.items.value, TakenFor(s.items.value), v.items[i])
    requires v.Obj? ==> forall i, j | 0 <= i < |v.members| && 0 <= j < |s.properties| ::
               SameMeaning(env, s.properties[j].schema, PropertyTakenFor(s.properties[j].schema, s.closed), v.members[i].value)
    ensures SiblingsValid(env, Draft7, s, v) <==> SiblingsValid(env, Draft7, TakenFor(s), v)
  {
    assert GuardsMeet(Draft7, s, v) <==> GuardsMeet(Draft7, TakenFor(s), v);
    hide GuardsMeet;
    if v.Obj? {
      forall i | 0 <= i < |v.members| ensures Declared(Draft7, s, v.members[i].name) <==> Declared(Draft7, TakenFor(s), v.members[i].name) {
        SameIndex(s.properties, s.closed, v.members[i].name);
      }
    }
  }

  /** With every boolean well placed, the validator reads every ordinary value as draft-07 does. */
  lemma WellPlacedReadRight(env: Texts, s: Schema, v: Json, path: Path)
    requires Shaped(s) && WellPlaced(s) && Ordinary(v)
    ensures ReadRight(env, s, v, path)
  {
    SilentExactlyWhenTakenFor(env, s, v, path);
    ReadingsAgree(env, TakenFor(s), v);
    WellPlacedMeansTheSame(env, s, v);
  }

  // ---------------------------------------------------------------- and no others

  /** Built of properties, `items`, `additionalProperties` and booleans, with any rules for texts and numbers. */
  predicate Skeleton(s: Schema)
    decreases s
  {
    s.Node? ==>
      && s.oneOf.NoOneOf? && s.constant.None? && s.choices.None? && s.types.None?
      && s.minItems.None? && s.maxItems.None? && s.required == []
      && (s.items.Some? ==> Skeleton(s.items.value))
      && (forall i | 0 <= i < |s.properties| :: Skeleton(s.properties[i].schema) && s.properties[i].name != PROTO)
      && (forall i, j | 0 <= i < j < |s.properties| :: s.properties[i].name != s.properties[j].name)
  }

  lemma {:induction false} SkeletonIsShaped(s: Schema)
    requires Skeleton(s)
    ensures Shaped(s)
    decreases s
  {
    if s.Node? {
      if s.items.Some? {
        SkeletonIsShaped(s.items.value);
      }
      forall i | 0 <= i < |s.properties| ensures Shaped(s.properties[i].schema) {
        SkeletonIsShaped(s.properties[i].schema);
      }
    }
  }

  /** A boolean among the properties is read right on its member exactly if it allows what the schema is not closed to. */
  lemma PropertyBooleanReadExactly(env: Texts, s: Schema, j: nat, m: Member, path: Path)
    requires s.Node? && j < |s.properties| && IndexOfProperty(s.properties, m.name) == j && s.properties[j].schema.Boolean?
    ensures (MemberIssue(env, s, m, path) == [] <==> Valid(env, Draft7, s.properties[j].schema, m.value))
            <==> s.properties[j].schema.allow != s.closed
  {
  }

  /** A boolean in `items` is read right on the elements of a list exactly if it is `true` or there are none. */
  lemma ItemsBooleanReadExactly(env: Texts, s: Schema, items: seq<Json>, path: Path)
    requires s.Node? && s.items.Some? && s.items.value.Boolean?
    ensures (ElementIssues(env, s, items, path) == [] <==> forall i | 0 <= i < |items| :: Valid(env, Draft7, s.items.value, items[i]))
            <==> items == [] || s.items.value.allow
  {
    if items != [] {
      assert Valid(env, Draft7, s.items.value, items[0]) <==> s.items.value.allow;
    }
  }

  /** The member `name` alone: the schema is asked about its value, or about whether the name is allowed. */
  lemma OneMember(env: Texts, s: Schema, j: nat, value: Json, path: Path)
    requires Skeleton(s) && s.Node? && j < |s.properties|
    ensures var m := Member(s.properties[j].name, value);
            && (Issues(env, s, Obj([m]), path) == [] <==> MemberIssue(env, s, m, path + [Key(m.name)]) == [])
            && (Valid(env, Draft7, s, Obj([m])) <==> Valid(env, Draft7, s.properties[j].schema, value))
            && IndexOfProperty(s.properties, m.name) == j
  {
    var m := Member(s.properties[j].name, value);
    var i := IndexOfProperty(s.properties, m.name);
    assert i == j;
    MemberIssuesEmpty(env, s, [m], path);
    assert [m][0] == m;
    assert Declared(Draft7, s, m.name);
  }

  lemma OneElement(env: Texts, s: Schema, value: Json, path: Path)
    requires Skeleton(s) && s.Node? && s.items.Some?
    ensures Issues(env, s, List([value]), path) == [] <==>
            s.items.value.Node? ==> Issues(env, s.items.value, value, path + [Index(0)]) == []
    ensures Valid(env, Draft7, s, List([value])) <==> Valid(env, Draft7, s.items.value, value)
  {
    ItemIssuesEmpty(env, s.items.value, [value], path);
    assert [value][0] == value;
  }

  /** An ordinary value that runs into a misplaced boolean, if there is one. */
  lemma {:induction false} Misread(env: Texts, s: Schema, path: Path) returns (v: Json)
    requires Skeleton(s) && !WellPlaced(s)
    ensures Ordinary(v) && !ReadRight(env, s, v, path)
    decreases s
  {
    v := Null;
    if s.Boolean? {
    } else if s.items.Some? && !WellPlaced(s.items.value) {
      if s.items.value.Node? {
        v := Misread(env, s.items.value, path + [Index(0)]);
      }
      OneElement(env, s, v, path);
      v := List([v]);
    } else {
      var j :| 0 <= j < |s.properties| &&
        var p := s.properties[j].schema; !(if p.Boolean? then p.allow != s.closed else WellPlaced(p));
      if s.properties[j].schema.Node? {
        v := Misread(env, s.properties[j].schema, path + [Key(s.properties[j].name)]);
      }
      OneMember(env, s, j, v, path);
      v := Obj([Member(s.properties[j].name, v)]);
    }
  }

  /**
   * A schema built of properties, `items`, `additionalProperties` and booleans is read as draft-07 reads it, on every
   * ordinary value, exactly if every boolean in it is well placed.
   */
  lemma BooleansReadExactly(env: Texts, s: Schema, path: Path)
    requires Skeleton(s)
    ensures (forall v | Ordinary(v) :: ReadRight(env, s, v, path)) <==> WellPlaced(s)
  {
    SkeletonIsShaped(s);
    if WellPlaced(s) {
      forall v | Ordinary(v) ensures ReadRight(env, s, v, path) {
        WellPlacedReadRight(env, s, v, path);
      }
    } else {
      var v := Misread(env, s, path);
    }
  }
}
