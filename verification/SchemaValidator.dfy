/** The generated protocol validator: `validateNode` against the meaning of the keywords it reads. */
module SchemaValidator {
  import opened Prelude

  datatype Json =
    | Null
    | Bool(b: bool)
    | Num(n: real)
    | Text(t: string)
    | List(items: seq<Json>)
    | Obj(members: seq<Member>)

  datatype Member = Member(name: string, value: Json)

  datatype TypeName = TNull | TObject | TArray | TString | TNumber | TInteger | TBoolean | TUnknown

  datatype Format = NoFormat | Date | DateTime

  datatype TextRules = TextRules(minLength: Option<int>, maxLength: Option<int>, pattern: Option<string>, format: Format)

  datatype RangeRules = RangeRules(minimum: Option<real>, maximum: Option<real>)

  /** A schema is a boolean or an object of keywords; absent keywords are `None` or empty. */
  datatype Schema =
    | Boolean(allow: bool)
    | Node(oneOf: OneOf, constant: Option<Json>, choices: Option<seq<Json>>,
           types: Option<seq<TypeName>>, text: TextRules, range: RangeRules,
           minItems: Option<int>, maxItems: Option<int>, items: Option<Schema>,
           properties: seq<Property>, required: seq<string>, closed: bool)

  datatype OneOf = NoOneOf | OneOf(candidates: seq<Schema>)

  datatype Property = Property(name: string, schema: Schema)

  datatype Step = Key(name: string) | Index(i: nat)
  type Path = seq<Step>

  datatype Complaint =
    | NotExactlyOne | ConstMismatch | NotListed | WrongType | TooShort | TooLong | PatternMismatch
    | BadDate | BadTime | TooSmall | TooLarge | TooFew | TooMany | Missing | NotAllowed

  datatype Issue = Issue(path: Path, complaint: Complaint)

  /** Regular expressions and date parsing, taken as given. */
  datatype Texts = Texts(matches: (string, string) -> bool, isDate: string -> bool, isDateTime: string -> bool)

  /** 2^53 - 1, the largest safe integer. */
  const MAX_SAFE: real := 9007199254740991.0

  /** The member name under which an ordinary object finds its prototype. */
  const PROTO := "__proto__"

  predicate Integral(n: real) {
    n == n.Floor as real
  }

  predicate Scalar(v: Json) {
    !v.List? && !v.Obj?
  }

  function IndexOfProperty(properties: seq<Property>, name: string): (i: int)
    ensures -1 <= i < |properties|
    ensures i >= 0 ==> properties[i].name == name
    ensures i < 0 ==> forall j | 0 <= j < |properties| :: properties[j].name != name
  {
    if properties == [] then -1
    else if properties[0].name == name then 0
    else
      var i := IndexOfProperty(properties[1..], name);
      if i < 0 then -1 else i + 1
  }

  predicate HasMember(members: seq<Member>, name: string) {
    exists i | 0 <= i < |members| :: members[i].name == name
  }

  // ---------------------------------------------------------------- what the validator reports

  function When(bad: bool, path: Path, complaint: Complaint): seq<Issue> {
    if bad then [Issue(path, complaint)] else []
  }

  /** `===` and `includes`: two separately parsed lists or objects are never the same. */
  predicate StrictlyEqual(v: Json, c: Json) {
    Scalar(v) && v == c
  }

  predicate Listed(choices: seq<Json>, v: Json) {
    exists i | 0 <= i < |choices| :: StrictlyEqual(v, choices[i])
  }

  predicate MatchesType(t: TypeName, v: Json) {
    match t
    case TNull => v.Null?
    case TObject => v.Obj?
    case TArray => v.List?
    case TString => v.Text?
    case TNumber => v.Num?
    case TInteger => v.Num? && Integral(v.n) && -MAX_SAFE <= v.n <= MAX_SAFE
    case TBoolean => v.Bool?
    case TUnknown => false
  }

  predicate MatchesSomeType(types: seq<TypeName>, v: Json) {
    exists i | 0 <= i < |types| :: MatchesType(types[i], v)
  }

  function LengthIssues(r: TextRules, t: string, path: Path): seq<Issue> {
    When(r.minLength.Some? && |t| < r.minLength.value, path, TooShort)
    + When(r.maxLength.Some? && |t| > r.maxLength.value, path, TooLong)
  }

  function FormatIssues(env: Texts, r: TextRules, t: string, path: Path): seq<Issue> {
    When(r.pattern.Some? && !env.matches(r.pattern.value, t), path, PatternMismatch)
    + When(r.format.Date? && !env.isDate(t), path, BadDate)
    + When(r.format.DateTime? && !env.isDateTime(t), path, BadTime)
  }

  function RangeIssues(r: RangeRules, n: real, path: Path): seq<Issue> {
    When(r.minimum.Some? && n < r.minimum.value, path, TooSmall)
    + When(r.maximum.Some? && n > r.maximum.value, path, TooLarge)
  }

  function CountIssues(s: Schema, count: nat, path: Path): seq<Issue>
    requires s.Node?
  {
    When(s.minItems.Some? && count < s.minItems.value, path, TooFew)
    + When(s.maxItems.Some? && count > s.maxItems.value, path, TooMany)
  }

  function MissingIssues(required: seq<string>, members: seq<Member>, path: Path): seq<Issue> {
    if required == [] then []
    else
      MissingIssues(required[..|required| - 1], members, path)
      + When(!HasMember(members, required[|required| - 1]), path + [Key(required[|required| - 1])], Missing)
  }

  /** Everything `validateNode` pushes for one value, in order. */
  function Issues(env: Texts, s: Schema, v: Json, path: Path): seq<Issue>
    decreases s, 2
  {
    if s.Boolean? then []
    else if s.oneOf.OneOf? then When(Matching(env, s.oneOf.candidates, v, path) != 1, path, NotExactlyOne)
    else if s.constant.Some? && !StrictlyEqual(v, s.constant.value) then [Issue(path, ConstMismatch)]
    else if s.choices.Some? && !Listed(s.choices.value, v) then [Issue(path, NotListed)]
    else if s.types.Some? && !MatchesSomeType(s.types.value, v) then [Issue(path, WrongType)]
    else
      match v
      case Text(t) => LengthIssues(s.text, t, path) + FormatIssues(env, s.text, t, path)
      case Num(n) => RangeIssues(s.range, n, path)
      case List(items) => CountIssues(s, |items|, path) + ElementIssues(env, s, items, path)
      case Obj(members) => MissingIssues(s.required, members, path) + MemberIssues(env, s, members, path)
      case _ => []
  }

  /** A boolean `items` is not read. */
  function ElementIssues(env: Texts, s: Schema, items: seq<Json>, path: Path): seq<Issue>
    requires s.Node?
    decreases s, 1
  {
    if s.items.Some? && s.items.value.Node? then ItemIssues(env, s.items.value, items, path) else []
  }

  /** How many of the candidates report nothing. */
  function Matching(env: Texts, candidates: seq<Schema>, v: Json, path: Path): nat
    decreases candidates, 0
  {
    if candidates == [] then 0
    else
      var init, last := candidates[..|candidates| - 1], candidates[|candidates| - 1];
      Matching(env, init, v, path) + if Issues(env, last, v, path) == [] then 1 else 0
  }

  function ItemIssues(env: Texts, s: Schema, items: seq<Json>, path: Path): seq<Issue>
    decreases s, 3, |items|
  {
    if items == [] then []
    else
      var n := |items| - 1;
      ItemIssues(env, s, items[..n], path) + Issues(env, s, items[n], path + [Index(n)])
  }

  function MemberIssues(env: Texts, s: Schema, members: seq<Member>, path: Path): seq<Issue>
    requires s.Node?
    decreases s, 1, |members|
  {
    if members == [] then []
    else
      var n := |members| - 1;
      MemberIssues(env, s, members[..n], path) + MemberIssue(env, s, members[n], path + [Key(members[n].name)])
  }

  /**
   * One member: its own property schema if that is an object; under the name of the prototype the lookup
   * finds the empty object the prototype is; otherwise the member is forbidden when the schema is closed.
   */
  function MemberIssue(env: Texts, s: Schema, m: Member, path: Path): seq<Issue>
    requires s.Node?
    decreases s, 0
  {
    var i := IndexOfProperty(s.properties, m.name);
    if i >= 0 && s.properties[i].schema.Node? then
      assert s.properties[i] in s.properties;
      Issues(env, s.properties[i].schema, m.value, path)
    else if i < 0 && m.name == PROTO then []
    else When(s.closed, path, NotAllowed)
  }

  // ---------------------------------------------------------------- the validator

  /** The `issues` array the recursion shares. */
  class IssueLog {
    var issues: seq<Issue>

    constructor ()
      ensures issues == []
    {
      issues := [];
    }

    method Push(path: Path, complaint: Complaint)
      modifies this
      ensures issues == old(issues) + [Issue(path, complaint)]
    {
      issues := issues + [Issue(path, complaint)];
    }

    method PushWhen(bad: bool, path: Path, complaint: Complaint)
      modifies this
      ensures issues == old(issues) + When(bad, path, complaint)
    {
      if bad {
        Push(path, complaint);
      }
    }
  }

  /** Appending in steps is appending the whole. */
  lemma Regroup<T>(a: seq<T>, b: seq<T>, c: seq<T>)
    ensures (a + b) + c == a + (b + c)
  {
  }

  method CheckLength(r: TextRules, t: string, path: Path, log: IssueLog)
    modifies log
    ensures log.issues == old(log.issues) + LengthIssues(r, t, path)
  {
    log.PushWhen(r.minLength.Some? && |t| < r.minLength.value, path, TooShort);
    log.PushWhen(r.maxLength.Some? && |t| > r.maxLength.value, path, TooLong);
  }

  method CheckFormat(env: Texts, r: TextRules, t: string, path: Path, log: IssueLog)
    modifies log
    ensures log.issues == old(log.issues) + FormatIssues(env, r, t, path)
  {
    hide When;
    log.PushWhen(r.pattern.Some? && !env.matches(r.pattern.value, t), path, PatternMismatch);
    log.PushWhen(r.format.Date? && !env.isDate(t), path, BadDate);
    log.PushWhen(r.format.DateTime? && !env.isDateTime(t), path, BadTime);
  }

  method CheckRange(r: RangeRules, n: real, path: Path, log: IssueLog)
    modifies log
    ensures log.issues == old(log.issues) + RangeIssues(r, n, path)
  {
    log.PushWhen(r.minimum.Some? && n < r.minimum.value, path, TooSmall);
    log.PushWhen(r.maximum.Some? && n > r.maximum.value, path, TooLarge);
  }

  method CheckCount(s: Schema, count: nat, path: Path, log: IssueLog)
    requires s.Node?
    modifies log
    ensures log.issues == old(log.issues) + CountIssues(s, count, path)
  {
    log.PushWhen(s.minItems.Some? && count < s.minItems.value, path, TooFew);
    log.PushWhen(s.maxItems.Some? && count > s.maxItems.value, path, TooMany);
  }

  method CheckRequired(required: seq<string>, members: seq<Member>, path: Path, log: IssueLog)
    modifies log
    ensures log.issues == old(log.issues) + MissingIssues(required, members, path)
  {
    for i := 0 to |required|
      invariant log.issues == old(log.issues) + MissingIssues(required[..i], members, path)
    {
      assert required[..i + 1][..i] == required[..i];
      log.PushWhen(!HasMember(members, required[i]), path + [Key(required[i])], Missing);
    }
    assert required[..|required|] == required;
  }

  /** `validateNode`: only ever appends to the log, and appends exactly what the specification lists. */
  method ValidateNode(env: Texts, s: Schema, v: Json, path: Path, log: IssueLog)
    modifies log
    ensures log.issues == old(log.issues) + Issues(env, s, v, path)
    decreases s, 2
  {
    hide LengthIssues, FormatIssues, RangeIssues, CountIssues, StrictlyEqual, Listed, MatchesSomeType;
    if s.Boolean? {
      return;
    }
    if s.oneOf.OneOf? {
      var matches := CountMatches(env, s.oneOf.candidates, v, path);
      log.PushWhen(matches != 1, path, NotExactlyOne);
      return;
    }
    if s.constant.Some? && !StrictlyEqual(v, s.constant.value) {
      log.Push(path, ConstMismatch);
      return;
    }
    if s.choices.Some? && !Listed(s.choices.value, v) {
      log.Push(path, NotListed);
      return;
    }
    if s.types.Some? && !MatchesSomeType(s.types.value, v) {
      log.Push(path, WrongType);
      return;
    }
    ghost var before := log.issues;
    match v
    case Text(t) =>
      CheckLength(s.text, t, path, log);
      CheckFormat(env, s.text, t, path, log);
      Regroup(before, LengthIssues(s.text, t, path), FormatIssues(env, s.text, t, path));
    case Num(n) =>
      CheckRange(s.range, n, path, log);
    case List(items) =>
      CheckCount(s, |items|, path, log);
      if s.items.Some? && s.items.value.Node? {
        ValidateItems(env, s.items.value, items, path, log);
      }
      Regroup(before, CountIssues(s, |items|, path), ElementIssues(env, s, items, path));
    case Obj(members) =>
      CheckRequired(s.required, members, path, log);
      ValidateMembers(env, s, members, path, log);
      Regroup(before, MissingIssues(s.required, members, path), MemberIssues(env, s, members, path));
    case _ =>
  }

  /** The `oneOf` filter: every candidate is checked with a log of its own. */
  method CountMatches(env: Texts, candidates: seq<Schema>, v: Json, path: Path) returns (matches: nat)
    ensures matches == Matching(env, candidates, v, path)
    decreases candidates, 0
  {
    matches := 0;
    for i := 0 to |candidates|
      invariant matches == Matching(env, candidates[..i], v, path)
    {
      assert candidates[..i + 1][..i] == candidates[..i];
      var own := new IssueLog();
      ValidateNode(env, candidates[i], v, path, own);
      if |own.issues| == 0 {
        matches := matches + 1;
      }
    }
    assert candidates[..|candidates|] == candidates;
  }

  method ValidateItems(env: Texts, s: Schema, items: seq<Json>, path: Path, log: IssueLog)
    modifies log
    ensures log.issues == old(log.issues) + ItemIssues(env, s, items, path)
    decreases s, 3
  {
    for i := 0 to |items|
      invariant log.issues == old(log.issues) + ItemIssues(env, s, items[..i], path)
    {
      assert items[..i + 1][..i] == items[..i];
      ValidateNode(env, s, items[i], path + [Index(i)], log);
    }
    assert items[..|items|] == items;
  }

  method ValidateMembers(env: Texts, s: Schema, members: seq<Member>, path: Path, log: IssueLog)
    requires s.Node?
    modifies log
    ensures log.issues == old(log.issues) + MemberIssues(env, s, members, path)
    decreases s, 1
  {
    for i := 0 to |members|
      invariant log.issues == old(log.issues) + MemberIssues(env, s, members[..i], path)
    {
      assert members[..i + 1][..i] == members[..i];
      var at := IndexOfProperty(s.properties, members[i].name);
      if at >= 0 && s.properties[at].schema.Node? {
        assert s.properties[at] in s.properties;
        ValidateNode(env, s.properties[at].schema, members[i].value, path + [Key(members[i].name)], log);
      } else if !(at < 0 && members[i].name == PROTO) {
        log.PushWhen(s.closed, path + [Key(members[i].name)], NotAllowed);
      }
    }
    assert members[..|members|] == members;
  }

  /** `assertSchema`: the input itself, or every issue found. */
  method AssertSchema(env: Texts, s: Schema, input: Json, root: Path) returns (r: Result<Json, seq<Issue>>)
    ensures r == if Issues(env, s, input, root) == [] then Ok(input) else Err(Issues(env, s, input, root))
  {
    var log := new IssueLog();
    ValidateNode(env, s, input, root, log);
    assert log.issues == Issues(env, s, input, root);
    if |log.issues| > 0 {
      return Err(log.issues);
    }
    return Ok(input);
  }

  // ---------------------------------------------------------------- what the keywords mean

  /** Equality of JSON values in JSON Schema draft-07: member order does not matter. */
  predicate SameJson(a: Json, b: Json)
    decreases a, 0
  {
    match (a, b)
    case (List(x), List(y)) => |x| == |y| && forall i | 0 <= i < |x| :: SameJson(x[i], y[i])
    case (Obj(x), Obj(y)) => |x| == |y| && forall i | 0 <= i < |x| :: HasSame(x[i], y)
    case _ => a == b
  }

  predicate HasSame(m: Member, members: seq<Member>)
    decreases m, 1
  {
    exists j | 0 <= j < |members| :: m.name == members[j].name && SameJson(m.value, members[j].value)
  }

  /**
   * Two readings of the keywords. The validator's own differs from the standard in two places: whole numbers
   * beyond the safe range are not integers, and a closed schema forgives a member named like the prototype.
   */
  datatype Reading = Draft7 | Validator

  predicate HasType(reading: Reading, t: TypeName, v: Json) {
    match (t, v)
    case (TNull, Null) => true
    case (TBoolean, Bool(_)) => true
    case (TString, Text(_)) => true
    case (TArray, List(_)) => true
    case (TObject, Obj(_)) => true
    case (TNumber, Num(_)) => true
    case (TInteger, Num(n)) => n == n.Floor as real && (reading.Validator? ==> -9007199254740991.0 <= n <= 9007199254740991.0)
    case _ => false
  }

  predicate HasSomeType(reading: Reading, types: seq<TypeName>, v: Json) {
    exists i | 0 <= i < |types| :: HasType(reading, types[i], v)
  }

  predicate Among(choices: seq<Json>, v: Json) {
    exists i | 0 <= i < |choices| :: SameJson(v, choices[i])
  }

  predicate TextMeets(env: Texts, r: TextRules, t: string) {
    && (r.minLength.Some? ==> r.minLength.value <= |t|)
    && (r.maxLength.Some? ==> |t| <= r.maxLength.value)
    && (r.pattern.Some? ==> env.matches(r.pattern.value, t))
    && (r.format.Date? ==> env.isDate(t))
    && (r.format.DateTime? ==> env.isDateTime(t))
  }

  predicate RangeMeets(r: RangeRules, n: real) {
    (r.minimum.Some? ==> r.minimum.value <= n) && (r.maximum.Some? ==> n <= r.maximum.value)
  }

  predicate CountMeets(s: Schema, count: nat)
    requires s.Node?
  {
    (s.minItems.Some? ==> s.minItems.value <= count) && (s.maxItems.Some? ==> count <= s.maxItems.value)
  }

  predicate HasAll(required: seq<string>, members: seq<Member>) {
    forall i | 0 <= i < |required| :: HasMember(members, required[i])
  }

  predicate Declared(reading: Reading, s: Schema, name: string)
    requires s.Node?
  {
    IndexOfProperty(s.properties, name) >= 0 || (reading.Validator? && name == PROTO)
  }

  /** JSON Schema Validation (draft-07): every keyword present must accept the value. */
  predicate Valid(env: Texts, reading: Reading, s: Schema, v: Json)
    decreases s, 1
  {
    if s.Boolean? then s.allow
    else
      && (s.oneOf.OneOf? ==> ExactlyOneValid(env, reading, s.oneOf.candidates, v))
      && SiblingsValid(env, reading, s, v)
  }

  predicate ExactlyOneValid(env: Texts, reading: Reading, candidates: seq<Schema>, v: Json)
    decreases candidates, 0
  {
    exists i | 0 <= i < |candidates| ::
      && Valid(env, reading, candidates[i], v)
      && forall j | 0 <= j < |candidates| && j != i :: !Valid(env, reading, candidates[j], v)
  }

  /** All keywords but `oneOf`. */
  predicate SiblingsValid(env: Texts, reading: Reading, s: Schema, v: Json)
    requires s.Node?
    decreases s, 0
  {
    && GuardsMeet(reading, s, v)
    && match v
       case Text(t) => TextMeets(env, s.text, t)
       case Num(n) => RangeMeets(s.range, n)
       case List(items) =>
         && CountMeets(s, |items|)
         && (s.items.Some? ==> forall i | 0 <= i < |items| :: Valid(env, reading, s.items.value, items[i]))
       case Obj(members) =>
         && HasAll(s.required, members)
         && (forall i, j | 0 <= i < |members| && 0 <= j < |s.properties| && s.properties[j].name == members[i].name ::
               Valid(env, reading, s.properties[j].schema, members[i].value))
         && (s.closed ==> forall i | 0 <= i < |members| :: Declared(reading, s, members[i].name))
       case _ => true
  }

  /** The keywords that apply to values of every type. */
  predicate GuardsMeet(reading: Reading, s: Schema, v: Json)
    requires s.Node?
  {
    && (s.constant.Some? ==> SameJson(v, s.constant.value))
    && (s.choices.Some? ==> Among(s.choices.value, v))
    && (s.types.Some? ==> HasSomeType(reading, s.types.value, v))
  }

  // ---------------------------------------------------------------- the schemas and values it is meant for

  predicate NoSiblings(s: Schema)
    requires s.Node?
  {
    && s.constant.None? && s.choices.None? && s.types.None?
    && s.text == TextRules(None, None, None, NoFormat) && s.range == RangeRules(None, None)
    && s.minItems.None? && s.maxItems.None? && s.items.None?
    && s.properties == [] && s.required == [] && !s.closed
  }

  /** Object schemas throughout, `oneOf` alone in its node, scalars in `const` and `enum`, properties named once. */
  predicate Plain(s: Schema)
    decreases s
  {
    && s.Node?
    && (s.oneOf.OneOf? ==> NoSiblings(s) && forall i | 0 <= i < |s.oneOf.candidates| :: Plain(s.oneOf.candidates[i]))
    && (s.constant.Some? ==> Scalar(s.constant.value))
    && (s.choices.Some? ==> forall i | 0 <= i < |s.choices.value| :: Scalar(s.choices.value[i]))
    && (s.items.Some? ==> Plain(s.items.value))
    && (forall i | 0 <= i < |s.properties| :: Plain(s.properties[i].schema))
    && (forall i, j | 0 <= i < j < |s.properties| :: s.properties[i].name != s.properties[j].name)
  }

  /** No member has the name of the prototype and no whole number leaves the safe range, at any depth. */
  predicate Ordinary(v: Json)
    decreases v
  {
    match v
    case Num(n) => n == n.Floor as real ==> -9007199254740991.0 <= n <= 9007199254740991.0
    case List(items) => forall i | 0 <= i < |items| :: Ordinary(items[i])
    case Obj(members) => forall i | 0 <= i < |members| :: members[i].name != "__proto__" && Ordinary(members[i].value)
    case _ => true
  }

  // ---------------------------------------------------------------- main results

  /** For every value: on a plain schema the validator reports nothing exactly when its reading accepts the value. */
  lemma {:induction false} SilentExactlyWhenAccepted(env: Texts, s: Schema, v: Json, path: Path)
    requires Plain(s)
    ensures Issues(env, s, v, path) == [] <==> Valid(env, Validator, s, v)
    decreases s
  {
    if s.oneOf.OneOf? {
      var candidates := s.oneOf.candidates;
      forall i | 0 <= i < |candidates|
        ensures Issues(env, candidates[i], v, path) == [] <==> Valid(env, Validator, candidates[i], v)
      {
        SilentExactlyWhenAccepted(env, candidates[i], v, path);
      }
      OneOfAgrees(env, candidates, v, path);
      NoSiblingsAcceptsAll(env, Validator, s, v);
    } else {
      if v.List? && s.items.Some? {
        forall i | 0 <= i < |v.items|
          ensures ItemAgrees(env, s.items.value, v.items[i], path + [Index(i)])
        {
          SilentExactlyWhenAccepted(env, s.items.value, v.items[i], path + [Index(i)]);
        }
      }
      if v.Obj? {
        forall i, j | 0 <= i < |v.members| && 0 <= j < |s.properties|
          ensures ItemAgrees(env, s.properties[j].schema, v.members[i].value, path + [Key(v.members[i].name)])
        {
          SilentExactlyWhenAccepted(env, s.properties[j].schema, v.members[i].value, path + [Key(v.members[i].name)]);
        }
      }
      NodeAgrees(env, s, v, path);
    }
  }

  /** On plain schemas and ordinary values the validator reports nothing exactly for the valid values. */
  lemma SilentExactlyWhenValid(env: Texts, s: Schema, v: Json, path: Path)
    requires Plain(s) && Ordinary(v)
    ensures Issues(env, s, v, path) == [] <==> Valid(env, Draft7, s, v)
  {
    SilentExactlyWhenAccepted(env, s, v, path);
    ReadingsAgree(env, s, v);
  }

  /** The two readings differ on no ordinary value. */
  lemma {:induction false} ReadingsAgree(env: Texts, s: Schema, v: Json)
    requires Ordinary(v)
    ensures Valid(env, Validator, s, v) <==> Valid(env, Draft7, s, v)
    decreases s
  {
    if s.Node? {
      if s.oneOf.OneOf? {
        forall i | 0 <= i < |s.oneOf.candidates|
          ensures Valid(env, Validator, s.oneOf.candidates[i], v) <==> Valid(env, Draft7, s.oneOf.candidates[i], v)
        {
          ReadingsAgree(env, s.oneOf.candidates[i], v);
        }
        OneOfReadingsAgree(env, s.oneOf.candidates, v);
      }
      if v.List? && s.items.Some? {
        forall i | 0 <= i < |v.items|
          ensures Valid(env, Validator, s.items.value, v.items[i]) <==> Valid(env, Draft7, s.items.value, v.items[i])
        {
          ReadingsAgree(env, s.items.value, v.items[i]);
        }
      }
      if v.Obj? {
        forall i, j | 0 <= i < |v.members| && 0 <= j < |s.properties|
          ensures Valid(env, Validator, s.properties[j].schema, v.members[i].value)
             <==> Valid(env, Draft7, s.properties[j].schema, v.members[i].value)
        {
          ReadingsAgree(env, s.properties[j].schema, v.members[i].value);
        }
      }
      GuardReadingsAgree(s, v);
    }
  }

  lemma GuardReadingsAgree(s: Schema, v: Json)
    requires s.Node? && Ordinary(v)
    ensures GuardsMeet(Validator, s, v) <==> GuardsMeet(Draft7, s, v)
  {
    forall t ensures HasType(Validator, t, v) <==> HasType(Draft7, t, v) {
    }
  }

  lemma OneOfReadingsAgree(env: Texts, candidates: seq<Schema>, v: Json)
    requires forall i | 0 <= i < |candidates| ::
               Valid(env, Validator, candidates[i], v) <==> Valid(env, Draft7, candidates[i], v)
    ensures ExactlyOneValid(env, Validator, candidates, v) <==> ExactlyOneValid(env, Draft7, candidates, v)
  {
  }

  // ---------------------------------------------------------------- where the validator and the standard part

  lemma {:induction false} SameAsItself(v: Json)
    ensures SameJson(v, v)
    decreases v
  {
    match v
    case List(items) =>
      forall i | 0 <= i < |items| ensures SameJson(items[i], items[i]) {
        SameAsItself(items[i]);
      }
    case Obj(members) =>
      forall i | 0 <= i < |members| ensures HasSame(members[i], members) {
        SameAsItself(members[i].value);
      }
    case _ =>
  }

  /** `const` is read as the standard says exactly when the constant is a scalar. */
  lemma ConstReadExactly(c: Json)
    ensures (forall v :: StrictlyEqual(v, c) <==> SameJson(v, c)) <==> Scalar(c)
  {
    SameAsItself(c);
    if Scalar(c) {
      forall v ensures StrictlyEqual(v, c) <==> SameJson(v, c) {
      }
    } else {
      assert SameJson(c, c) && !StrictlyEqual(c, c);
    }
  }

  /** `enum` is read as the standard says exactly when every choice is a scalar. */
  lemma EnumReadExactly(choices: seq<Json>)
    ensures (forall v :: Listed(choices, v) <==> Among(choices, v)) <==> forall i | 0 <= i < |choices| :: Scalar(choices[i])
  {
    if forall i | 0 <= i < |choices| :: Scalar(choices[i]) {
      forall v ensures Listed(choices, v) <==> Among(choices, v) {
        forall i | 0 <= i < |choices| ensures StrictlyEqual(v, choices[i]) <==> SameJson(v, choices[i]) {
          ConstReadExactly(choices[i]);
        }
      }
    } else {
      var i :| 0 <= i < |choices| && !Scalar(choices[i]);
      SameAsItself(choices[i]);
      assert Among(choices, choices[i]) && !Listed(choices, choices[i]);
    }
  }

  /** The schema without keywords. */
  const ANYTHING: Schema :=
    Node(NoOneOf, None, None, None, TextRules(None, None, None, NoFormat), RangeRules(None, None), None, None, None, [], [], false)

  // ---------------------------------------------------------------- where issues point

  /** The value at the end of a path, if the path stays inside `v`. */
  function At(v: Json, steps: Path): Option<Json>
    decreases |steps|
  {
    if steps == [] then Some(v)
    else
      match steps[0]
      case Index(i) => if v.List? && i < |v.items| then At(v.items[i], steps[1..]) else None
      case Key(name) => if v.Obj? && HasMember(v.members, name) then At(MemberNamed(v.members, name), steps[1..]) else None
  }

  function MemberNamed(members: seq<Member>, name: string): (r: Json)
    requires HasMember(members, name)
    ensures exists i | 0 <= i < |members| :: members[i].name == name && members[i].value == r
  {
    if members[0].name == name then members[0].value
    else
      assert HasMember(members[1..], name) by {
        var i :| 0 <= i < |members| && members[i].name == name;
        assert members[1..][i - 1].name == name;
      }
      var r := MemberNamed(members[1..], name);
      assert exists i | 0 <= i < |members| :: members[i].name == name && members[i].value == r by {
        var i :| 0 <= i < |members[1..]| && members[1..][i].name == name && members[1..][i].value == r;
        assert members[i + 1].name == name;
      }
      r
  }

  predicate NamesDiffer(members: seq<Member>) {
    forall i, j | 0 <= i < j < |members| :: members[i].name != members[j].name
  }

  predicate WellFormed(v: Json)
    decreases v
  {
    match v
    case List(items) => forall i | 0 <= i < |items| :: WellFormed(items[i])
    case Obj(members) => NamesDiffer(members) && forall i | 0 <= i < |members| :: WellFormed(members[i].value)
    case _ => true
  }

  /** An issue found below `base` names a place of the value, or a member its object lacks. */
  ghost predicate PointsInto(v: Json, base: Path, issue: Issue) {
    && |base| <= |issue.path| && issue.path[..|base|] == base
    && var steps := issue.path[|base|..];
       if issue.complaint.Missing? then
         && steps != [] && steps[|steps| - 1].Key?
         && var parent := At(v, steps[..|steps| - 1]);
            parent.Some? && parent.value.Obj? && !HasMember(parent.value.members, steps[|steps| - 1].name)
       else At(v, steps).Some?
  }

  ghost predicate AllPointInto(v: Json, base: Path, issues: seq<Issue>) {
    forall k | 0 <= k < |issues| :: PointsInto(v, base, issues[k])
  }

  lemma AtFirstStep(v: Json, step: Step, inner: Json, steps: Path)
    requires At(v, [step]) == Some(inner)
    ensures At(v, [step] + steps) == At(inner, steps)
  {
    assert ([step] + steps)[1..] == steps;
    assert [step][1..] == [];
  }

  lemma PointsThrough(v: Json, base: Path, step: Step, inner: Json, issue: Issue)
    requires At(v, [step]) == Some(inner) && PointsInto(inner, base + [step], issue)
    ensures PointsInto(v, base, issue)
  {
    var below := base + [step];
    var steps := issue.path[|below|..];
    assert issue.path[..|base|] == below[..|base|] == base by {
      assert issue.path[..|base|] == issue.path[..|below|][..|base|];
    }
    assert issue.path[|base|] == step by {
      assert issue.path[..|below|][|base|] == step;
    }
    assert issue.path[|base|..] == [step] + steps;
    AtFirstStep(v, step, inner, steps);
    if issue.complaint.Missing? {
      var last := |steps| - 1;
      AtFirstStep(v, step, inner, steps[..last]);
      assert ([step] + steps)[..last + 1] == [step] + steps[..last];
    }
  }

  /** Every issue points at the offending place of the value that was checked. */
  lemma {:induction false} IssuesPointIntoValue(env: Texts, s: Schema, v: Json, path: Path)
    requires WellFormed(v)
    ensures AllPointInto(v, path, Issues(env, s, v, path))
    decreases s, 2
  {
    if s.Node? && v.List? && s.items.Some? && s.items.value.Node? {
      ItemIssuesPoint(env, s.items.value, v, |v.items|, path);
      assert v.items[..|v.items|] == v.items;
    }
    if s.Node? && v.Obj? {
      MissingIssuesPoint(s.required, v, path);
      MemberIssuesPoint(env, s, v, |v.members|, path);
      assert v.members[..|v.members|] == v.members;
    }
    assert path + [] == path;
    forall k | 0 <= k < |Issues(env, s, v, path)| ensures PointsInto(v, path, Issues(env, s, v, path)[k]) {
      var issue := Issues(env, s, v, path)[k];
      if issue.path == path && !issue.complaint.Missing? {
        HerePoints(v, path, issue);
      }
    }
  }

  lemma HerePoints(v: Json, path: Path, issue: Issue)
    requires issue.path == path && !issue.complaint.Missing?
    ensures PointsInto(v, path, issue)
  {
    assert path[..|path|] == path;
  }

  lemma {:induction false} MissingIssuesPoint(required: seq<string>, v: Json, path: Path)
    requires v.Obj?
    ensures AllPointInto(v, path, MissingIssues(required, v.members, path))
  {
    if required != [] {
      var n := |required| - 1;
      MissingIssuesPoint(required[..n], v, path);
      var below := path + [Key(required[n])];
      assert below[..|path|] == path && below[|path|..] == [Key(required[n])];
      assert [Key(required[n])][..0] == [];
    }
  }

  lemma {:induction false} ItemIssuesPoint(env: Texts, s: Schema, v: Json, n: nat, path: Path)
    requires WellFormed(v) && v.List? && n <= |v.items|
    ensures AllPointInto(v, path, ItemIssues(env, s, v.items[..n], path))
    decreases s, 3, n
  {
    if n > 0 {
      ItemIssuesPoint(env, s, v, n - 1, path);
      assert v.items[..n][..n - 1] == v.items[..n - 1];
      var step, item := Index(n - 1), v.items[n - 1];
      IssuesPointIntoValue(env, s, item, path + [step]);
      assert At(v, [step]) == Some(item);
      var issues := Issues(env, s, item, path + [step]);
      forall k | 0 <= k < |issues| ensures PointsInto(v, path, issues[k]) {
        PointsThrough(v, path, step, item, issues[k]);
      }
    }
  }

  lemma {:induction false} MemberIssuesPoint(env: Texts, s: Schema, v: Json, n: nat, path: Path)
    requires s.Node? && WellFormed(v) && v.Obj? && n <= |v.members|
    ensures AllPointInto(v, path, MemberIssues(env, s, v.members[..n], path))
    decreases s, 1, n
  {
    if n > 0 {
      MemberIssuesPoint(env, s, v, n - 1, path);
      assert v.members[..n][..n - 1] == v.members[..n - 1];
      var m := v.members[n - 1];
      var step := Key(m.name);
      assert HasMember(v.members, m.name) && MemberNamed(v.members, m.name) == m.value;
      assert [step][1..] == [];
      var issues := MemberIssue(env, s, m, path + [step]);
      var at := IndexOfProperty(s.properties, m.name);
      if at >= 0 && s.properties[at].schema.Node? {
        assert s.properties[at] in s.properties;
        IssuesPointIntoValue(env, s.properties[at].schema, m.value, path + [step]);
      }
      forall k | 0 <= k < |issues| ensures PointsInto(v, path, issues[k]) {
        if !PointsInto(m.value, path + [step], issues[k]) {
          HerePoints(m.value, path + [step], issues[k]);
        }
        PointsThrough(v, path, step, m.value, issues[k]);
      }
    }
  }

  // ---------------------------------------------------------------- steps of the main proof

  ghost predicate ItemAgrees(env: Texts, s: Schema, v: Json, path: Path) {
    Issues(env, s, v, path) == [] <==> Valid(env, Validator, s, v)
  }

  lemma NoSiblingsAcceptsAll(env: Texts, reading: Reading, s: Schema, v: Json)
    requires s.Node? && NoSiblings(s)
    ensures SiblingsValid(env, reading, s, v)
  {
  }

  lemma {:induction false} MatchingSome(env: Texts, candidates: seq<Schema>, v: Json, path: Path, i: nat)
    requires i < |candidates| && Issues(env, candidates[i], v, path) == []
    ensures Matching(env, candidates, v, path) >= 1
    ensures Matching(env, candidates, v, path) == 1 <==>
            forall j | 0 <= j < |candidates| && j != i :: Issues(env, candidates[j], v, path) != []
    decreases candidates
  {
    var n := |candidates| - 1;
    var init := candidates[..n];
    if i < n {
      MatchingSome(env, init, v, path, i);
      assert forall j | 0 <= j < n :: init[j] == candidates[j];
    } else {
      MatchingNone(env, init, v, path);
      assert forall j | 0 <= j < n :: init[j] == candidates[j];
    }
  }

  lemma {:induction false} MatchingNone(env: Texts, candidates: seq<Schema>, v: Json, path: Path)
    ensures Matching(env, candidates, v, path) == 0 <==>
            forall j | 0 <= j < |candidates| :: Issues(env, candidates[j], v, path) != []
    decreases candidates
  {
    if candidates != [] {
      var n := |candidates| - 1;
      MatchingNone(env, candidates[..n], v, path);
      assert forall j | 0 <= j < n :: candidates[..n][j] == candidates[j];
    }
  }

  lemma OneOfAgrees(env: Texts, candidates: seq<Schema>, v: Json, path: Path)
    requires forall i | 0 <= i < |candidates| :: ItemAgrees(env, candidates[i], v, path)
    ensures Matching(env, candidates, v, path) == 1 <==> ExactlyOneValid(env, Validator, candidates, v)
  {
    MatchingNone(env, candidates, v, path);
    if i :| 0 <= i < |candidates| && Issues(env, candidates[i], v, path) == [] {
      MatchingSome(env, candidates, v, path, i);
      assert ItemAgrees(env, candidates[i], v, path);
      if ExactlyOneValid(env, Validator, candidates, v) {
        var k :| 0 <= k < |candidates| && Valid(env, Validator, candidates[k], v)
              && forall j | 0 <= j < |candidates| && j != k :: !Valid(env, Validator, candidates[j], v);
        assert k == i;
      }
    }
  }

  lemma {:induction false} ItemIssuesEmpty(env: Texts, s: Schema, items: seq<Json>, path: Path)
    ensures ItemIssues(env, s, items, path) == [] <==>
            forall i | 0 <= i < |items| :: Issues(env, s, items[i], path + [Index(i)]) == []
    decreases items
  {
    if items != [] {
      var n := |items| - 1;
      ItemIssuesEmpty(env, s, items[..n], path);
      assert forall i | 0 <= i < n :: items[..n][i] == items[i];
    }
  }

  lemma {:induction false} MemberIssuesEmpty(env: Texts, s: Schema, members: seq<Member>, path: Path)
    requires s.Node?
    ensures MemberIssues(env, s, members, path) == [] <==>
            forall i | 0 <= i < |members| :: MemberIssue(env, s, members[i], path + [Key(members[i].name)]) == []
    decreases members
  {
    if members != [] {
      var n := |members| - 1;
      MemberIssuesEmpty(env, s, members[..n], path);
      assert forall i | 0 <= i < n :: members[..n][i] == members[i];
    }
  }

  lemma {:induction false} MissingIssuesEmpty(required: seq<string>, members: seq<Member>, path: Path)
    ensures MissingIssues(required, members, path) == [] <==> HasAll(required, members)
    decreases required
  {
    if required != [] {
      var n := |required| - 1;
      MissingIssuesEmpty(required[..n], members, path);
      assert forall i | 0 <= i < n :: required[..n][i] == required[i];
    }
  }

  lemma GuardsAgree(s: Schema, v: Json)
    requires Plain(s)
    ensures GuardsMeet(Validator, s, v) <==>
            && (s.constant.Some? ==> StrictlyEqual(v, s.constant.value))
            && (s.choices.Some? ==> Listed(s.choices.value, v))
            && (s.types.Some? ==> MatchesSomeType(s.types.value, v))
  {
    forall c | Scalar(c) ensures StrictlyEqual(v, c) <==> SameJson(v, c) {
    }
    forall t ensures MatchesType(t, v) <==> HasType(Validator, t, v) {
    }
  }

  lemma MembersAgree(env: Texts, s: Schema, members: seq<Member>, path: Path)
    requires Plain(s)
    requires forall i, j | 0 <= i < |members| && 0 <= j < |s.properties| ::
               ItemAgrees(env, s.properties[j].schema, members[i].value, path + [Key(members[i].name)])
    ensures MemberIssues(env, s, members, path) == [] <==>
            && (forall i, j | 0 <= i < |members| && 0 <= j < |s.properties| && s.properties[j].name == members[i].name ::
                  Valid(env, Validator, s.properties[j].schema, members[i].value))
            && (s.closed ==> forall i | 0 <= i < |members| :: Declared(Validator, s, members[i].name))
  {
    MemberIssuesEmpty(env, s, members, path);
    forall i | 0 <= i < |members|
      ensures MemberIssue(env, s, members[i], path + [Key(members[i].name)]) == [] <==>
              && (forall j | 0 <= j < |s.properties| && s.properties[j].name == members[i].name ::
                    Valid(env, Validator, s.properties[j].schema, members[i].value))
              && (s.closed ==> Declared(Validator, s, members[i].name))
    {
      MemberAgrees(env, s, members[i], path + [Key(members[i].name)]);
    }
  }

  lemma MemberAgrees(env: Texts, s: Schema, m: Member, path: Path)
    requires Plain(s) && forall j | 0 <= j < |s.properties| :: ItemAgrees(env, s.properties[j].schema, m.value, path)
    ensures MemberIssue(env, s, m, path) == [] <==>
            && (forall j | 0 <= j < |s.properties| && s.properties[j].name == m.name ::
                  Valid(env, Validator, s.properties[j].schema, m.value))
            && (s.closed ==> Declared(Validator, s, m.name))
  {
    var i := IndexOfProperty(s.properties, m.name);
    if i >= 0 {
      assert ItemAgrees(env, s.properties[i].schema, m.value, path);
      assert forall j | 0 <= j < |s.properties| && s.properties[j].name == m.name :: j == i;
    }
  }

  lemma NodeAgrees(env: Texts, s: Schema, v: Json, path: Path)
    requires Plain(s) && s.oneOf.NoOneOf?
    requires v.List? && s.items.Some? ==> forall i | 0 <= i < |v.items| ::
               ItemAgrees(env, s.items.value, v.items[i], path + [Index(i)])
    requires v.Obj? ==> forall i, j | 0 <= i < |v.members| && 0 <= j < |s.properties| ::
               ItemAgrees(env, s.properties[j].schema, v.members[i].value, path + [Key(v.members[i].name)])
    ensures Issues(env, s, v, path) == [] <==> Valid(env, Validator, s, v)
  {
    GuardsAgree(s, v);
    hide GuardsMeet, StrictlyEqual, Listed, MatchesSomeType;
    match v
    case List(items) =>
      if s.items.Some? {
        ItemIssuesEmpty(env, s.items.value, items, path);
        forall i | 0 <= i < |items|
          ensures Issues(env, s.items.value, items[i], path + [Index(i)]) == [] <==> Valid(env, Validator, s.items.value, items[i])
        {
          assert ItemAgrees(env, s.items.value, items[i], path + [Index(i)]);
        }
      }
    case Obj(members) =>
      MissingIssuesEmpty(s.required, members, path);
      MembersAgree(env, s, members, path);
    case _ =>
  }
}
