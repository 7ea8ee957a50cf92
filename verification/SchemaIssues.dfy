/** Which complaints the protocol validator makes, and where. */
module SchemaIssues {
  import opened Prelude
  import opened SchemaValidator

  /** The text breaks the rule the complaint is about. */
  predicate TextComplaint(env: Texts, r: TextRules, t: string, c: Complaint) {
    match c
    case TooShort => r.minLength.Some? && |t| < r.minLength.value
    case TooLong => r.maxLength.Some? && |t| > r.maxLength.value
    case PatternMismatch => r.pattern.Some? && !env.matches(r.pattern.value, t)
    case BadDate => r.format == Date && !env.isDate(t)
    case BadTime => r.format == DateTime && !env.isDateTime(t)
    case _ => false
  }

  predicate NumberComplaint(r: RangeRules, n: real, c: Complaint) {
    match c
    case TooSmall => r.minimum.Some? && n < r.minimum.value
    case TooLarge => r.maximum.Some? && n > r.maximum.value
    case _ => false
  }

  predicate CountComplaint(s: Schema, count: nat, c: Complaint)
    requires s.Node?
  {
    match c
    case TooFew => s.minItems.Some? && count < s.minItems.value
    case TooMany => s.maxItems.Some? && count > s.maxItems.value
    case _ => false
  }

  /** A keyword that ends the check of a node is broken. */
  predicate Stops(s: Schema, v: Json, c: Complaint)
    requires s.Node?
  {
    match c
    case ConstMismatch => s.constant.Some? && !SameJson(v, s.constant.value)
    case NotListed => (s.constant.Some? ==> SameJson(v, s.constant.value)) && s.choices.Some? && !Among(s.choices.value, v)
    case WrongType =>
      && (s.constant.Some? ==> SameJson(v, s.constant.value)) && (s.choices.Some? ==> Among(s.choices.value, v))
      && s.types.Some? && !HasSomeType(Validator, s.types.value, v)
    case _ => false
  }

  /** Property `j` of the schema has the name of the member. */
  predicate Names(s: Schema, j: int, m: Member)
    requires s.Node?
  {
    0 <= j < |s.properties| && s.properties[j].name == m.name
  }

  /**
   * What there is to complain of at a place, given by the steps to it from the value: the keywords broken there. After
   * `oneOf`, or a broken `const`, `enum` or `type`, nothing else is looked at.
   */
  ghost predicate Complains(env: Texts, s: Schema, v: Json, steps: Path, c: Complaint)
    decreases s, 1
  {
    if s.Boolean? then false
    else if s.oneOf.OneOf? then steps == [] && c == NotExactlyOne && !ExactlyOneValid(env, Validator, s.oneOf.candidates, v)
    else if !GuardsMeet(Validator, s, v) then steps == [] && Stops(s, v, c)
    else
      match v
      case Text(t) => steps == [] && TextComplaint(env, s.text, t, c)
      case Num(n) => steps == [] && NumberComplaint(s.range, n, c)
      case List(items) =>
        if steps == [] then CountComplaint(s, |items|, c)
        else
          && steps[0].Index? && steps[0].i < |items| && s.items.Some?
          && Complains(env, s.items.value, items[steps[0].i], steps[1..], c)
      case Obj(members) =>
        || (steps != [] && steps[0].Key? && steps[1..] == [] && c == Missing
            && steps[0].name in s.required && !HasMember(members, steps[0].name))
        || (exists i | 0 <= i < |members| :: steps != [] && steps[0] == Key(members[i].name) && ComplainsOf(env, s, members[i], steps[1..], c))
      case _ => false
  }

  /** What there is to complain of at or below a member. */
  ghost predicate ComplainsOf(env: Texts, s: Schema, m: Member, steps: Path, c: Complaint)
    requires s.Node?
    decreases s, 0
  {
    if exists j :: Names(s, j, m) then
      exists j | 0 <= j < |s.properties| :: Names(s, j, m) && Complains(env, s.properties[j].schema, m.value, steps, c)
    else steps == [] && c == NotAllowed && s.closed && m.name != "__proto__"
  }

  /** The issue is one of these complaints, at its place below `base`. */
  ghost predicate Due(env: Texts, s: Schema, v: Json, base: Path, issue: Issue) {
    base <= issue.path && Complains(env, s, v, issue.path[|base|..], issue.complaint)
  }

  lemma TextIssues(env: Texts, r: TextRules, t: string, path: Path, issue: Issue)
    ensures issue in LengthIssues(r, t, path) + FormatIssues(env, r, t, path) <==>
            issue.path == path && TextComplaint(env, r, t, issue.complaint)
  {
  }

  lemma NumberIssues(r: RangeRules, n: real, path: Path, issue: Issue)
    ensures issue in RangeIssues(r, n, path) <==> issue.path == path && NumberComplaint(r, n, issue.complaint)
  {
  }

  lemma ListIssues(s: Schema, count: nat, path: Path, issue: Issue)
    requires s.Node?
    ensures issue in CountIssues(s, count, path) <==> issue.path == path && CountComplaint(s, count, issue.complaint)
  {
  }

  lemma {:induction false} MissingIssuesHave(required: seq<string>, members: seq<Member>, path: Path, issue: Issue)
    ensures issue in MissingIssues(required, members, path) <==>
            exists i | 0 <= i < |required| :: !HasMember(members, required[i]) && issue == Issue(path + [Key(required[i])], Missing)
    decreases required
  {
    if required != [] {
      var n := |required| - 1;
      MissingIssuesHave(required[..n], members, path, issue);
      assert forall i | 0 <= i < n :: required[..n][i] == required[i];
    }
  }

  lemma {:induction false} ItemIssuesHave(env: Texts, s: Schema, items: seq<Json>, path: Path, issue: Issue)
    ensures issue in ItemIssues(env, s, items, path) <==>
            exists i | 0 <= i < |items| :: issue in Issues(env, s, items[i], path + [Index(i)])
    decreases items
  {
    if items != [] {
      var n := |items| - 1;
      ItemIssuesHave(env, s, items[..n], path, issue);
      assert forall i | 0 <= i < n :: items[..n][i] == items[i];
    }
  }

  lemma {:induction false} MemberIssuesHave(env: Texts, s: Schema, members: seq<Member>, path: Path, issue: Issue)
    requires s.Node?
    ensures issue in MemberIssues(env, s, members, path) <==>
            exists i | 0 <= i < |members| :: issue in MemberIssue(env, s, members[i], path + [Key(members[i].name)])
    decreases members
  {
    if members != [] {
      var n := |members| - 1;
      MemberIssuesHave(env, s, members[..n], path, issue);
      assert forall i | 0 <= i < n :: members[..n][i] == members[i];
    }
  }

  /** One step further down. */
  lemma Deeper(base: Path, step: Step, p: Path)
    ensures base + [step] <= p <==> base <= p && |p| > |base| && p[|base|] == step
    ensures base + [step] <= p ==> p[|base|..][0] == step && p[|base|..][1..] == p[|base| + 1..]
  {
    if base + [step] <= p {
      assert p[..|base| + 1][..|base|] == p[..|base|];
      assert p[|base|] == (base + [step])[|base|];
    }
  }

  /**
   * The issues are exactly the complaints due, at their places: nothing else is reported, and nothing due is left out.
   */
  lemma {:induction false} IssuesAreTheComplaints(env: Texts, s: Schema, v: Json, path: Path, issue: Issue)
    requires Plain(s)
    ensures issue in Issues(env, s, v, path) <==> Due(env, s, v, path, issue)
    decreases s, 1
  {
    if s.oneOf.OneOf? {
      forall i | 0 <= i < |s.oneOf.candidates| ensures ItemAgrees(env, s.oneOf.candidates[i], v, path) {
        SilentExactlyWhenAccepted(env, s.oneOf.candidates[i], v, path);
      }
      OneOfAgrees(env, s.oneOf.candidates, v, path);
      HereOrBelow(path, issue.path);
    } else {
      GuardsAgree(s, v);
      HereOrBelow(path, issue.path);
      if !GuardsMeet(Validator, s, v) {
        StopIssue(env, s, v, path, issue);
      } else {
        match v
        case Text(t) => TextIssues(env, s.text, t, path, issue);
        case Num(n) => NumberIssues(s.range, n, path, issue);
        case List(items) => ListComplaints(env, s, items, path, issue);
        case Obj(members) => ObjectComplaints(env, s, members, path, issue);
        case _ =>
      }
    }
  }

  lemma HereOrBelow(base: Path, p: Path)
    ensures base <= p && p[|base|..] == [] <==> p == base
  {
  }

  lemma StopIssue(env: Texts, s: Schema, v: Json, path: Path, issue: Issue)
    requires Plain(s) && s.oneOf.NoOneOf? && !GuardsMeet(Validator, s, v)
    ensures issue in Issues(env, s, v, path) <==> issue.path == path && Stops(s, v, issue.complaint)
  {
    forall c | Scalar(c) ensures StrictlyEqual(v, c) <==> SameJson(v, c) {
    }
    forall t ensures MatchesType(t, v) <==> HasType(Validator, t, v) {
    }
  }

  lemma {:induction false} ListComplaints(env: Texts, s: Schema, items: seq<Json>, path: Path, issue: Issue)
    requires Plain(s) && s.oneOf.NoOneOf? && GuardsMeet(Validator, s, List(items))
    ensures issue in CountIssues(s, |items|, path) + ElementIssues(env, s, items, path) <==> Due(env, s, List(items), path, issue)
    decreases s, 0
  {
    ListIssues(s, |items|, path, issue);
    HereOrBelow(path, issue.path);
    hide CountComplaint, GuardsMeet;
    if s.items.Some? {
      ItemIssuesHave(env, s.items.value, items, path, issue);
      forall i | 0 <= i < |items|
        ensures issue in Issues(env, s.items.value, items[i], path + [Index(i)]) <==>
                Due(env, s.items.value, items[i], path + [Index(i)], issue)
      {
        IssuesAreTheComplaints(env, s.items.value, items[i], path + [Index(i)], issue);
        Deeper(path, Index(i), issue.path);
      }
      forall i: nat ensures path + [Index(i)] <= issue.path <==> path <= issue.path && |issue.path| > |path| && issue.path[|path|] == Index(i) {
        Deeper(path, Index(i), issue.path);
      }
    }
  }

  lemma MissingComplaints(required: seq<string>, members: seq<Member>, path: Path, issue: Issue)
    ensures issue in MissingIssues(required, members, path) <==>
            && path <= issue.path && issue.complaint == Missing
            && var steps := issue.path[|path|..];
               steps != [] && steps[0].Key? && steps[1..] == [] && steps[0].name in required && !HasMember(members, steps[0].name)
  {
    MissingIssuesHave(required, members, path, issue);
    hide MissingIssues, HasMember;
    forall name: string
      ensures path + [Key(name)] == issue.path <==>
              path <= issue.path && |issue.path| == |path| + 1 && issue.path[|path|] == Key(name)
    {
      Deeper(path, Key(name), issue.path);
    }
  }

  lemma {:induction false} MemberwiseComplaints(env: Texts, s: Schema, members: seq<Member>, path: Path, issue: Issue)
    requires Plain(s) && s.oneOf.NoOneOf?
    ensures issue in MemberIssues(env, s, members, path) <==>
            && path <= issue.path
            && var steps := issue.path[|path|..];
               exists i | 0 <= i < |members| ::
                 steps != [] && steps[0] == Key(members[i].name) && ComplainsOf(env, s, members[i], steps[1..], issue.complaint)
    decreases s, 0, 1
  {
    MemberIssuesHave(env, s, members, path, issue);
    hide MemberIssues, MemberIssue, ComplainsOf, Issues, Plain;
    forall i | 0 <= i < |members|
      ensures issue in MemberIssue(env, s, members[i], path + [Key(members[i].name)]) <==>
              && path <= issue.path && |issue.path| > |path| && issue.path[|path|] == Key(members[i].name)
              && ComplainsOf(env, s, members[i], issue.path[|path|..][1..], issue.complaint)
    {
      OneMemberComplaints(env, s, members[i], path, issue);
      Deeper(path, Key(members[i].name), issue.path);
    }
  }

  lemma {:induction false} ObjectComplaints(env: Texts, s: Schema, members: seq<Member>, path: Path, issue: Issue)
    requires Plain(s) && s.oneOf.NoOneOf? && GuardsMeet(Validator, s, Obj(members))
    ensures issue in MissingIssues(s.required, members, path) + MemberIssues(env, s, members, path) <==>
            Due(env, s, Obj(members), path, issue)
    decreases s, 0, 2
  {
    MissingComplaints(s.required, members, path, issue);
    MemberwiseComplaints(env, s, members, path, issue);
    hide GuardsMeet, MissingIssues, MemberIssues, HasMember, ComplainsOf, Plain;
  }

  lemma {:induction false} OneMemberComplaints(env: Texts, s: Schema, m: Member, path: Path, issue: Issue)
    requires Plain(s)
    ensures issue in MemberIssue(env, s, m, path + [Key(m.name)]) <==>
            path + [Key(m.name)] <= issue.path && ComplainsOf(env, s, m, issue.path[|path| + 1..], issue.complaint)
    decreases s, 0, 0
  {
    forall j | 0 <= j < |s.properties|
      ensures issue in Issues(env, s.properties[j].schema, m.value, path + [Key(m.name)]) <==>
              Due(env, s.properties[j].schema, m.value, path + [Key(m.name)], issue)
    {
      IssuesAreTheComplaints(env, s.properties[j].schema, m.value, path + [Key(m.name)], issue);
    }
    MemberComplaints(env, s, m, path + [Key(m.name)], issue);
  }

  lemma MemberComplaints(env: Texts, s: Schema, m: Member, path: Path, issue: Issue)
    requires Plain(s)
    requires forall j | 0 <= j < |s.properties| ::
               issue in Issues(env, s.properties[j].schema, m.value, path) <==> Due(env, s.properties[j].schema, m.value, path, issue)
    ensures issue in MemberIssue(env, s, m, path) <==>
            path <= issue.path && ComplainsOf(env, s, m, issue.path[|path|..], issue.complaint)
  {
    var i := IndexOfProperty(s.properties, m.name);
    HereOrBelow(path, issue.path);
    if i >= 0 {
      assert Names(s, i, m);
      assert forall j :: Names(s, j, m) ==> j == i;
    } else {
      assert forall j :: !Names(s, j, m);
    }
  }

  // ---------------------------------------------------------------- each of them once

  /** No schema in it requires a member twice. */
  predicate RequiresOnce(s: Schema)
    decreases s
  {
    s.Node? ==>
      && Distinct(s.required)
      && (s.oneOf.OneOf? ==> forall i | 0 <= i < |s.oneOf.candidates| :: RequiresOnce(s.oneOf.candidates[i]))
      && (s.items.Some? ==> RequiresOnce(s.items.value))
      && (forall i | 0 <= i < |s.properties| :: RequiresOnce(s.properties[i].schema))
  }

  lemma DistinctJoin(a: seq<Issue>, b: seq<Issue>)
    requires Distinct(a) && Distinct(b) && forall issue :: !(issue in a && issue in b)
    ensures Distinct(a + b)
  {
    forall i, j | 0 <= i < j < |a + b| ensures (a + b)[i] != (a + b)[j] {
      if i < |a| <= j {
        assert a[i] in a && b[j - |a|] in b;
      }
    }
  }

  /** Below one step and below another there is no common issue. */
  lemma OtherSteps(v: Json, w: Json, base: Path, a: Step, b: Step, issue: Issue)
    requires PointsInto(v, base + [a], issue) && PointsInto(w, base + [b], issue)
    ensures a == b
  {
    assert issue.path[..|base| + 1][|base|] == (base + [a])[|base|];
    assert issue.path[..|base| + 1][|base|] == (base + [b])[|base|];
  }

  lemma CommonStep(base: Path, a: Step, b: Step, p: Path)
    requires base + [a] <= p && base + [b] <= p
    ensures a == b
  {
    Deeper(base, a, p);
    Deeper(base, b, p);
  }

  lemma {:induction false} MissingOnce(required: seq<string>, members: seq<Member>, path: Path)
    requires Distinct(required)
    ensures Distinct(MissingIssues(required, members, path))
  {
    if required != [] {
      var n := |required| - 1;
      MissingOnce(required[..n], members, path);
      var last := When(!HasMember(members, required[n]), path + [Key(required[n])], Missing);
      forall issue ensures !(issue in MissingIssues(required[..n], members, path) && issue in last) {
        MissingIssuesHave(required[..n], members, path, issue);
        if issue in MissingIssues(required[..n], members, path) && issue in last {
          var i :| 0 <= i < n && !HasMember(members, required[..n][i]) && issue == Issue(path + [Key(required[..n][i])], Missing);
          CommonStep(path, Key(required[i]), Key(required[n]), issue.path);
        }
      }
      DistinctJoin(MissingIssues(required[..n], members, path), last);
    }
  }

  lemma TextIssuesOnce(env: Texts, r: TextRules, t: string, path: Path)
    ensures Distinct(LengthIssues(r, t, path) + FormatIssues(env, r, t, path))
  {
    var a, b := LengthIssues(r, t, path), FormatIssues(env, r, t, path);
    assert Distinct(a);
    assert Distinct(b);
    forall issue ensures !(issue in a && issue in b) {
      assert issue in a ==> issue.complaint.TooShort? || issue.complaint.TooLong?;
    }
    hide LengthIssues, FormatIssues;
    DistinctJoin(a, b);
  }

  lemma NumberIssuesOnce(r: RangeRules, n: real, path: Path)
    ensures Distinct(RangeIssues(r, n, path))
  {
  }

  lemma OneIssueOnce(bad: bool, issue: Issue)
    ensures Distinct(When(bad, issue.path, issue.complaint)) && Distinct([issue])
  {
  }

  /** On a value whose member names differ no complaint is made twice. */
  lemma {:induction false} IssuesOnce(env: Texts, s: Schema, v: Json, path: Path)
    requires WellFormed(v) && RequiresOnce(s)
    ensures Distinct(Issues(env, s, v, path))
    decreases s, 2
  {
    NoneTwice();
    forall bad: bool, c: Complaint ensures Distinct(When(bad, path, c)) && Distinct([Issue(path, c)]) {
      OneIssueOnce(bad, Issue(path, c));
    }
    if s.Node? && s.oneOf.NoOneOf? {
      match v
      case Text(t) =>
        TextIssuesOnce(env, s.text, t, path);
      case Num(n) =>
        NumberIssuesOnce(s.range, n, path);
      case List(items) =>
        ElementsOnce(env, s, items, path);
      case Obj(members) =>
        MembersOnce(env, s, v, |members|, path);
        MembersAndMissingOnce(env, s, v, path);
      case _ =>
    }
    hide Distinct, When, LengthIssues, FormatIssues, RangeIssues, CountIssues, ElementIssues, MissingIssues, MemberIssues;
    hide StrictlyEqual, Listed, MatchesSomeType, Matching;
  }

  lemma NoneTwice()
    ensures Distinct<Issue>([])
  {
  }

  lemma MembersAndMissingOnce(env: Texts, s: Schema, v: Json, path: Path)
    requires s.Node? && v.Obj? && WellFormed(v) && RequiresOnce(s)
    requires Distinct(MemberIssues(env, s, v.members[..|v.members|], path))
    ensures Distinct(MissingIssues(s.required, v.members, path) + MemberIssues(env, s, v.members, path))
    decreases s, 1, |v.members| + 1
  {
    var missing, below := MissingIssues(s.required, v.members, path), MemberIssues(env, s, v.members, path);
    MissingOnce(s.required, v.members, path);
    assert v.members[..|v.members|] == v.members;
    forall issue ensures !(issue in missing && issue in below) {
      if issue in missing {
        MissingIsNoMember(env, s, v, path, issue);
      }
    }
    DistinctJoin(missing, below);
  }

  lemma {:induction false} ElementsOnce(env: Texts, s: Schema, items: seq<Json>, path: Path)
    requires s.Node? && WellFormed(List(items)) && RequiresOnce(s)
    ensures Distinct(CountIssues(s, |items|, path) + ElementIssues(env, s, items, path))
    decreases s, 1
  {
    if s.items.Some? && s.items.value.Node? {
      ItemsOnce(env, s.items.value, List(items), |items|, path);
      assert items[..|items|] == items;
      forall issue ensures !(issue in CountIssues(s, |items|, path) && issue in ItemIssues(env, s.items.value, items, path)) {
        if issue in ItemIssues(env, s.items.value, items, path) {
          ItemIssuesHave(env, s.items.value, items, path, issue);
          var i :| 0 <= i < |items| && issue in Issues(env, s.items.value, items[i], path + [Index(i)]);
          IssuesPointIntoValue(env, s.items.value, items[i], path + [Index(i)]);
          ListIssues(s, |items|, path, issue);
        }
      }
      DistinctJoin(CountIssues(s, |items|, path), ItemIssues(env, s.items.value, items, path));
    }
  }

  lemma {:induction false} ItemsOnce(env: Texts, s: Schema, v: Json, n: nat, path: Path)
    requires v.List? && WellFormed(v) && n <= |v.items| && RequiresOnce(s)
    ensures Distinct(ItemIssues(env, s, v.items[..n], path))
    decreases s, 3, n
  {
    if n > 0 {
      ItemsOnce(env, s, v, n - 1, path);
      assert v.items[..n][..n - 1] == v.items[..n - 1];
      var last := Issues(env, s, v.items[n - 1], path + [Index(n - 1)]);
      IssuesOnce(env, s, v.items[n - 1], path + [Index(n - 1)]);
      IssuesPointIntoValue(env, s, v.items[n - 1], path + [Index(n - 1)]);
      forall issue ensures !(issue in ItemIssues(env, s, v.items[..n - 1], path) && issue in last) {
        if issue in ItemIssues(env, s, v.items[..n - 1], path) && issue in last {
          ItemIssuesHave(env, s, v.items[..n - 1], path, issue);
          var i :| 0 <= i < n - 1 && issue in Issues(env, s, v.items[..n - 1][i], path + [Index(i)]);
          IssuesPointIntoValue(env, s, v.items[i], path + [Index(i)]);
          OtherSteps(v.items[i], v.items[n - 1], path, Index(i), Index(n - 1), issue);
        }
      }
      DistinctJoin(ItemIssues(env, s, v.items[..n - 1], path), last);
    }
  }

  lemma {:induction false} MemberOnce(env: Texts, s: Schema, m: Member, path: Path)
    requires s.Node? && WellFormed(m.value) && RequiresOnce(s)
    ensures Distinct(MemberIssue(env, s, m, path))
    ensures forall issue | issue in MemberIssue(env, s, m, path) :: path <= issue.path && (issue.complaint == Missing ==> issue.path != path)
    decreases s, 0
  {
    var i := IndexOfProperty(s.properties, m.name);
    if i >= 0 && s.properties[i].schema.Node? {
      assert s.properties[i] in s.properties;
      IssuesOnce(env, s.properties[i].schema, m.value, path);
      IssuesPointIntoValue(env, s.properties[i].schema, m.value, path);
    }
  }

  lemma {:induction false} MembersOnce(env: Texts, s: Schema, v: Json, n: nat, path: Path)
    requires s.Node? && v.Obj? && WellFormed(v) && n <= |v.members| && RequiresOnce(s)
    ensures Distinct(MemberIssues(env, s, v.members[..n], path))
    decreases s, 1, n
  {
    if n > 0 {
      MembersOnce(env, s, v, n - 1, path);
      assert v.members[..n][..n - 1] == v.members[..n - 1];
      var m := v.members[n - 1];
      var last := MemberIssue(env, s, m, path + [Key(m.name)]);
      MemberOnce(env, s, m, path + [Key(m.name)]);
      forall issue ensures !(issue in MemberIssues(env, s, v.members[..n - 1], path) && issue in last) {
        if issue in MemberIssues(env, s, v.members[..n - 1], path) && issue in last {
          MemberIssuesHave(env, s, v.members[..n - 1], path, issue);
          var i :| 0 <= i < n - 1 && issue in MemberIssue(env, s, v.members[..n - 1][i], path + [Key(v.members[..n - 1][i].name)]);
          MemberOnce(env, s, v.members[i], path + [Key(v.members[i].name)]);
          CommonStep(path, Key(v.members[i].name), Key(m.name), issue.path);
        }
      }
      DistinctJoin(MemberIssues(env, s, v.members[..n - 1], path), last);
    }
  }

  lemma MissingIsNoMember(env: Texts, s: Schema, v: Json, path: Path, issue: Issue)
    requires s.Node? && v.Obj? && WellFormed(v) && RequiresOnce(s)
    requires issue in MissingIssues(s.required, v.members, path)
    ensures issue !in MemberIssues(env, s, v.members, path)
    decreases s, 1, 0
  {
    MissingIssuesHave(s.required, v.members, path, issue);
    var k :| 0 <= k < |s.required| && !HasMember(v.members, s.required[k]) && issue == Issue(path + [Key(s.required[k])], Missing);
    MemberIssuesHave(env, s, v.members, path, issue);
    hide MissingIssues, MemberIssues, MemberIssue, Issues, RequiresOnce;
    forall i | 0 <= i < |v.members| ensures issue !in MemberIssue(env, s, v.members[i], path + [Key(v.members[i].name)]) {
      MemberOnce(env, s, v.members[i], path + [Key(v.members[i].name)]);
      assert (path + [Key(s.required[k])])[|path|] == Key(s.required[k]);
      assert (path + [Key(v.members[i].name)])[|path|] == Key(v.members[i].name);
    }
  }
}
