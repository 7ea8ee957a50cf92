/** The lint baseline: findings counted by file, rule and severity, and compared with an earlier count. */
module LintBaseline {
  import opened Prelude
  import opened Sorting

  datatype Message = Message(rule: Option<string>, severity: int)
  datatype FileResult = FileResult(path: string, messages: seq<Message>)

  /** What findings are counted by; its JSON text is the entry key. */
  datatype Group = Group(path: string, rule: Option<string>, severity: int)
  datatype Entry = Entry(group: Group, count: nat)
  datatype Summary = Summary(filesScanned: nat, filesWithFindings: nat, errors: nat, warnings: nat)
  datatype Baseline = Baseline(summary: Summary, entries: seq<Entry>)
  datatype Regression = Regression(group: Group, baseline: nat, current: nat, added: int)

  /** How paths are made portable, and the order of texts. */
  datatype Style = Style(portable: string -> string, le: (string, string) -> bool)

  // ---------------------------------------------------------------- findings

  function FileFindings(path: string, messages: seq<Message>): seq<Group> {
    if messages == [] then []
    else
      var m := messages[|messages| - 1];
      FileFindings(path, messages[..|messages| - 1]) + if m.severity > 0 then [Group(path, m.rule, m.severity)] else []
  }

  /** The groups of all messages with a positive severity, in order. */
  function Findings(c: Style, results: seq<FileResult>): seq<Group> {
    if results == [] then []
    else
      var r := results[|results| - 1];
      Findings(c, results[..|results| - 1]) + FileFindings(c.portable(r.path), r.messages)
  }

  function WithSeverity(findings: seq<Group>, severity: int): nat {
    if findings == [] then 0
    else WithSeverity(findings[..|findings| - 1], severity) + if findings[|findings| - 1].severity == severity then 1 else 0
  }

  function FilesWithFindings(results: seq<FileResult>): nat {
    if results == [] then 0
    else
      var r := results[|results| - 1];
      FilesWithFindings(results[..|results| - 1]) + if FileFindings(r.path, r.messages) != [] then 1 else 0
  }

  // ---------------------------------------------------------------- counting

  function IndexOf(entries: seq<Entry>, g: Group): (i: int)
    ensures -1 <= i < |entries|
    ensures i >= 0 ==> entries[i].group == g
    ensures i < 0 ==> forall j | 0 <= j < |entries| :: entries[j].group != g
  {
    if entries == [] then -1
    else if entries[0].group == g then 0
    else
      var i := IndexOf(entries[1..], g);
      if i < 0 then -1 else i + 1
  }

  /** One more finding in the insertion-ordered map. */
  function AddFinding(entries: seq<Entry>, g: Group): seq<Entry> {
    var i := IndexOf(entries, g);
    if i < 0 then entries + [Entry(g, 1)] else entries[i := Entry(g, entries[i].count + 1)]
  }

  function Counted(findings: seq<Group>): seq<Entry> {
    if findings == [] then [] else AddFinding(Counted(findings[..|findings| - 1]), findings[|findings| - 1])
  }

  function RuleText(g: Group): string {
    if g.rule.None? then "" else g.rule.value
  }

  /** `compareEntries(a, b) <= 0`: by path, then rule with none as the empty text, then severity. */
  predicate Precedes(c: Style, a: Group, b: Group) {
    if a.path != b.path then c.le(a.path, b.path)
    else if RuleText(a) != RuleText(b) then c.le(RuleText(a), RuleText(b))
    else a.severity <= b.severity
  }

  function InOrder(c: Style): (Entry, Entry) -> bool {
    (a: Entry, b: Entry) => Precedes(c, a.group, b.group)
  }

  function Entries(c: Style, findings: seq<Group>): seq<Entry> {
    Sort(Counted(findings), InOrder(c))
  }

  /** The inner loop: one file's messages are filtered and counted. */
  method CountFile(path: string, messages: seq<Message>, ghost before: seq<Group>, groups: seq<Entry>, errors: nat, warnings: nat)
    returns (groups': seq<Entry>, errors': nat, warnings': nat)
    requires groups == Counted(before) && errors == WithSeverity(before, 2) && warnings == WithSeverity(before, 1)
    ensures var after := before + FileFindings(path, messages);
            groups' == Counted(after) && errors' == WithSeverity(after, 2) && warnings' == WithSeverity(after, 1)
  {
    hide Counted, WithSeverity, IndexOf;
    groups', errors', warnings' := groups, errors, warnings;
    ghost var seen := before;
    for n := 0 to |messages|
      invariant seen == before + FileFindings(path, messages[..n])
      invariant groups' == Counted(seen) && errors' == WithSeverity(seen, 2) && warnings' == WithSeverity(seen, 1)
    {
      var m := messages[n];
      assert messages[..n + 1][..n] == messages[..n];
      if !(m.severity > 0) {
        continue;
      }
      var g := Group(path, m.rule, m.severity);
      NextFinding(seen, g);
      seen := seen + [g];
      if m.severity == 2 {
        errors' := errors' + 1;
      }
      if m.severity == 1 {
        warnings' := warnings' + 1;
      }
      var i := IndexOf(groups', g);
      if i >= 0 {
        groups' := groups'[i := Entry(groups'[i].group, groups'[i].count + 1)];
      } else {
        groups' := groups' + [Entry(g, 1)];
      }
    }
    assert messages[..|messages|] == messages;
  }

  function BaselineOf(c: Style, results: seq<FileResult>): Baseline {
    var findings := Findings(c, results);
    Baseline(Summary(|results|, FilesWithFindings(results), WithSeverity(findings, 2), WithSeverity(findings, 1)),
             Entries(c, findings))
  }

  /** `buildLintBaseline`: nested loops over files and messages. */
  method BuildBaseline(c: Style, results: seq<FileResult>) returns (b: Baseline)
    ensures b == BaselineOf(c, results)
  {
    NoFindings(c);
    hide Counted, WithSeverity, FileFindings;
    var groups: seq<Entry> := [];
    var filesWithFindings, errors, warnings := 0, 0, 0;
    for k := 0 to |results|
      invariant groups == Counted(Findings(c, results[..k]))
      invariant filesWithFindings == FilesWithFindings(results[..k])
      invariant errors == WithSeverity(Findings(c, results[..k]), 2)
      invariant warnings == WithSeverity(Findings(c, results[..k]), 1)
    {
      assert results[..k + 1][..k] == results[..k];
      var r := results[k];
      HasFindings(r.path, r.messages);
      if exists j | 0 <= j < |r.messages| :: r.messages[j].severity > 0 {
        filesWithFindings := filesWithFindings + 1;
      }
      groups, errors, warnings := CountFile(c.portable(r.path), r.messages, Findings(c, results[..k]), groups, errors, warnings);
    }
    assert results[..|results|] == results;
    b := Baseline(Summary(|results|, filesWithFindings, errors, warnings), Sort(groups, InOrder(c)));
  }

  lemma NoFindings(c: Style)
    ensures Findings(c, []) == [] && Counted([]) == [] && WithSeverity([], 1) == WithSeverity([], 2) == 0
  {
  }

  lemma NextFinding(seen: seq<Group>, g: Group)
    ensures Counted(seen + [g]) == AddFinding(Counted(seen), g)
    ensures forall s :: WithSeverity(seen + [g], s) == WithSeverity(seen, s) + if g.severity == s then 1 else 0
  {
    assert (seen + [g])[..|seen|] == seen;
  }

  lemma {:induction false} HasFindings(path: string, messages: seq<Message>)
    ensures FileFindings(path, messages) != [] <==> exists j | 0 <= j < |messages| :: messages[j].severity > 0
  {
    if messages != [] {
      var n := |messages| - 1;
      HasFindings(path, messages[..n]);
      assert forall j | 0 <= j < n :: messages[..n][j] == messages[j];
      if messages[n].severity <= 0 && exists j | 0 <= j < |messages| :: messages[j].severity > 0 {
        var j :| 0 <= j < |messages| && messages[j].severity > 0;
        assert messages[..n][j].severity > 0;
      }
    }
  }

  // ---------------------------------------------------------------- what the counts are

  ghost predicate GroupsDiffer(entries: seq<Entry>) {
    forall i, j | 0 <= i < j < |entries| :: entries[i].group != entries[j].group
  }

  /** The entries hold each group of the findings once, with its multiplicity. */
  ghost predicate CountsOf(entries: seq<Entry>, findings: seq<Group>) {
    && GroupsDiffer(entries)
    && (forall e | e in entries :: e.count == multiset(findings)[e.group] && e.count > 0)
    && (forall g | g in findings :: exists i | 0 <= i < |entries| :: entries[i].group == g)
  }

  function TotalCount(entries: seq<Entry>): nat {
    if entries == [] then 0 else TotalCount(entries[..|entries| - 1]) + entries[|entries| - 1].count
  }

  lemma AddFindingCounts(entries: seq<Entry>, findings: seq<Group>, g: Group)
    requires CountsOf(entries, findings)
    ensures CountsOf(AddFinding(entries, g), findings + [g])
  {
    hide IndexOf;
    var i, after := IndexOf(entries, g), AddFinding(entries, g);
    assert forall x :: multiset(findings + [g])[x] == multiset(findings)[x] + if x == g then 1 else 0;
    assert i < 0 ==> g !in findings && multiset(findings)[g] == 0;
    forall j | 0 <= j < |after| ensures after[j].count == multiset(findings + [g])[after[j].group] && after[j].count > 0 {
      if j < |entries| {
        assert entries[j] in entries;
      }
    }
    forall x | x in findings + [g] ensures exists j | 0 <= j < |after| :: after[j].group == x {
      if x in findings {
        var j :| 0 <= j < |entries| && entries[j].group == x;
        assert after[j].group == x;
      } else {
        assert after[if i < 0 then |entries| else i].group == x;
      }
    }
  }

  lemma {:induction false} CountedCounts(findings: seq<Group>)
    ensures CountsOf(Counted(findings), findings)
  {
    if findings != [] {
      var n := |findings| - 1;
      CountedCounts(findings[..n]);
      AddFindingCounts(Counted(findings[..n]), findings[..n], findings[n]);
      assert findings == findings[..n] + [findings[n]];
    }
  }

  /** Permuting the entries keeps what they count. */
  lemma CountsPermute(a: seq<Entry>, b: seq<Entry>, findings: seq<Group>)
    requires CountsOf(a, findings) && multiset(a) == multiset(b)
    ensures CountsOf(b, findings)
  {
    assert forall e :: e in a <==> e in b by {
      forall e ensures e in a <==> e in b {
        assert e in a <==> e in multiset(a);
        assert e in b <==> e in multiset(b);
      }
    }
    GroupsPermute(a, b);
    forall g | g in findings ensures exists i | 0 <= i < |b| :: b[i].group == g {
      var i :| 0 <= i < |a| && a[i].group == g;
      assert a[i] in b;
    }
  }

  lemma GroupsPermute(a: seq<Entry>, b: seq<Entry>)
    requires GroupsDiffer(a) && multiset(a) == multiset(b)
    ensures GroupsDiffer(b)
  {
    assert Distinct(a);
    PermutedDistinct(a, b);
    forall i, j | 0 <= i < j < |b| ensures b[i].group != b[j].group {
      assert b[i] in multiset(a) && b[j] in multiset(a);
      var m :| 0 <= m < |a| && a[m] == b[i];
      var n :| 0 <= n < |a| && a[n] == b[j];
      assert m != n;
    }
  }

  /**
   * The baseline counts every group exactly once with its multiplicity among the findings, in whatever order
   * the files and messages came, and nothing else.
   */
  lemma EntriesCountFindings(c: Style, findings: seq<Group>)
    ensures CountsOf(Entries(c, findings), findings)
  {
    CountedCounts(findings);
    SortPermutes(Counted(findings), InOrder(c));
    CountsPermute(Counted(findings), Entries(c, findings), findings);
  }

  lemma {:induction false} AddFindingTotal(entries: seq<Entry>, i: nat)
    requires i < |entries|
    ensures TotalCount(entries[i := Entry(entries[i].group, entries[i].count + 1)]) == TotalCount(entries) + 1
    decreases |entries|
  {
    var n := |entries| - 1;
    var after := entries[i := Entry(entries[i].group, entries[i].count + 1)];
    if i < n {
      AddFindingTotal(entries[..n], i);
      assert after[..n] == entries[..n][i := after[i]];
    } else {
      assert after[..n] == entries[..n];
    }
  }

  lemma {:induction false} CountedTotal(findings: seq<Group>)
    ensures TotalCount(Counted(findings)) == |findings|
  {
    if findings != [] {
      var n := |findings| - 1;
      CountedTotal(findings[..n]);
      var before, g := Counted(findings[..n]), findings[n];
      var i := IndexOf(before, g);
      if i < 0 {
        assert (before + [Entry(g, 1)])[..|before|] == before;
      } else {
        AddFindingTotal(before, i);
      }
    }
  }

  lemma {:induction false} InsertTotal(e: Entry, s: seq<Entry>, le: (Entry, Entry) -> bool)
    ensures TotalFrom(Insert(e, s, le)) == e.count + TotalFrom(s)
  {
    if !(s == [] || le(e, s[0])) {
      InsertTotal(e, s[1..], le);
    }
  }

  /** The same total, summed from the front. */
  function TotalFrom(entries: seq<Entry>): nat {
    if entries == [] then 0 else entries[0].count + TotalFrom(entries[1..])
  }

  lemma {:induction false} TotalsAgree(entries: seq<Entry>)
    ensures TotalFrom(entries) == TotalCount(entries)
    decreases |entries|
  {
    if |entries| > 1 {
      var n := |entries| - 1;
      TotalsAgree(entries[1..]);
      TotalsAgree(entries[..n]);
      TotalsAgree(entries[1..n]);
      assert entries[1..][..n - 1] == entries[1..n] && entries[..n][1..] == entries[1..n];
    } else if |entries| == 1 {
      assert entries[1..] == [] && entries[..0] == [];
    }
  }

  lemma {:induction false} SortTotal(s: seq<Entry>, le: (Entry, Entry) -> bool)
    ensures TotalFrom(Sort(s, le)) == TotalFrom(s)
  {
    if s != [] {
      SortTotal(s[1..], le);
      InsertTotal(s[0], Sort(s[1..], le), le);
    }
  }

  /** The entry counts add up to the number of messages with a positive severity. */
  lemma EntriesTotal(c: Style, findings: seq<Group>)
    ensures TotalCount(Entries(c, findings)) == |findings|
  {
    CountedTotal(findings);
    TotalsAgree(Counted(findings));
    SortTotal(Counted(findings), InOrder(c));
    TotalsAgree(Entries(c, findings));
  }

  // ---------------------------------------------------------------- order of results

  lemma InOrderIsTotal(c: Style)
    requires TotalOrder(c.le)
    ensures TotalPreorder(InOrder(c))
  {
    forall a, b ensures InOrder(c)(a, b) || InOrder(c)(b, a) {
      assert c.le(a.group.path, b.group.path) || c.le(b.group.path, a.group.path);
      assert c.le(RuleText(a.group), RuleText(b.group)) || c.le(RuleText(b.group), RuleText(a.group));
    }
    forall a, b, d | InOrder(c)(a, b) && InOrder(c)(b, d) ensures InOrder(c)(a, d) {
      OrderChains(c, a.group, b.group, d.group);
    }
  }

  lemma OrderChains(c: Style, a: Group, b: Group, d: Group)
    requires TotalOrder(c.le) && Precedes(c, a, b) && Precedes(c, b, d)
    ensures Precedes(c, a, d)
  {
    assert c.le(a.path, b.path) && c.le(b.path, a.path) ==> a.path == b.path;
    assert c.le(RuleText(a), RuleText(b)) && c.le(RuleText(b), RuleText(a)) ==> RuleText(a) == RuleText(b);
    assert c.le(a.path, b.path) && c.le(b.path, d.path) ==> c.le(a.path, d.path);
    assert c.le(RuleText(a), RuleText(b)) && c.le(RuleText(b), RuleText(d)) ==> c.le(RuleText(a), RuleText(d));
  }

  /** Two different groups the comparator cannot tell apart: no rule, and the rule with the empty name. */
  predicate Clash(g: Group, h: Group) {
    g.path == h.path && g.severity == h.severity && {g.rule, h.rule} == {None, Some("")}
  }

  ghost predicate ClashFree(findings: seq<Group>) {
    forall g, h | g in findings && h in findings :: !Clash(g, h)
  }

  lemma CountedMember(findings: seq<Group>, e: Entry)
    ensures e in Counted(findings) <==> e.count > 0 && e.count == multiset(findings)[e.group]
  {
    CountedCounts(findings);
    if e.count > 0 && e.count == multiset(findings)[e.group] {
      assert e.group in multiset(findings) && e.group in findings;
      var i :| 0 <= i < |Counted(findings)| && Counted(findings)[i].group == e.group;
      assert Counted(findings)[i] in Counted(findings);
    }
  }

  /** Without a clash the entries depend only on the multiset of findings. */
  lemma OrderIrrelevantWithoutClash(c: Style, a: seq<Group>, b: seq<Group>)
    requires TotalOrder(c.le) && multiset(a) == multiset(b) && ClashFree(a)
    ensures Entries(c, a) == Entries(c, b)
  {
    CountedCounts(a);
    CountedCounts(b);
    forall e ensures e in Counted(a) <==> e in Counted(b) {
      CountedMember(a, e);
      CountedMember(b, e);
    }
    assert Distinct(Counted(a)) && Distinct(Counted(b));
    SameMembersPermute(Counted(a), Counted(b));
    InOrderIsTotal(c);
    forall x, y | x in Counted(a) && y in Counted(a) && InOrder(c)(x, y) && InOrder(c)(y, x) ensures x == y {
      CountedMember(a, x);
      CountedMember(a, y);
      assert x.group in multiset(a) && y.group in multiset(a);
      TiesAreClashes(c, x, y);
    }
    SortIsCanonical(Counted(a), Counted(b), InOrder(c));
  }

  lemma TiesAreClashes(c: Style, x: Entry, y: Entry)
    requires TotalOrder(c.le) && InOrder(c)(x, y) && InOrder(c)(y, x) && !Clash(x.group, y.group)
    ensures x.group == y.group
  {
    var (a, b) := (x.group, y.group);
    assert Precedes(c, a, b) && Precedes(c, b, a);
    assert c.le(a.path, b.path) && c.le(b.path, a.path) ==> a.path == b.path;
    assert c.le(RuleText(a), RuleText(b)) && c.le(RuleText(b), RuleText(a)) ==> RuleText(a) == RuleText(b);
  }

  ghost predicate Before(s: seq<Entry>, g: Group, h: Group) {
    exists i, j | 0 <= i < j < |s| :: s[i].group == g && s[j].group == h
  }

  /** Insertion keeps the order of what is there. */
  lemma {:induction false} InsertKeepsBefore(x: Entry, s: seq<Entry>, le: (Entry, Entry) -> bool, g: Group, h: Group)
    requires Before(s, g, h)
    ensures Before(Insert(x, s, le), g, h)
  {
    var i, j :| 0 <= i < j < |s| && s[i].group == g && s[j].group == h;
    var after := Insert(x, s, le);
    if le(x, s[0]) {
      assert after[i + 1] == s[i] && after[j + 1] == s[j];
    } else {
      var t := Insert(x, s[1..], le);
      if i == 0 {
        InsertKeepsMember(x, s[1..], le, j - 1);
        var k :| 0 <= k < |t| && t[k] == s[1..][j - 1];
        assert after[0] == s[0] && after[k + 1] == s[j];
      } else {
        assert s[1..][i - 1] == s[i] && s[1..][j - 1] == s[j];
        InsertKeepsBefore(x, s[1..], le, g, h);
        var m, n :| 0 <= m < n < |t| && t[m].group == g && t[n].group == h;
        assert after[m + 1] == t[m] && after[n + 1] == t[n];
      }
    }
  }

  lemma InsertKeepsMember(x: Entry, s: seq<Entry>, le: (Entry, Entry) -> bool, j: nat)
    requires j < |s|
    ensures s[j] in Insert(x, s, le)
  {
    InsertPermutes(x, s, le);
    assert s[j] in multiset(Insert(x, s, le));
  }

  /** A new element goes in front of what it ties with. */
  lemma {:induction false} InsertBeforeTie(x: Entry, s: seq<Entry>, le: (Entry, Entry) -> bool, y: Entry)
    requires TotalPreorder(le) && Sorted(s, le) && y in s && le(x, y)
    ensures Before(Insert(x, s, le), x.group, y.group)
  {
    var after := Insert(x, s, le);
    var j :| 0 <= j < |s| && s[j] == y;
    if le(x, s[0]) {
      assert after[0] == x && after[j + 1] == y;
    } else {
      assert j > 0;
      assert s[1..][j - 1] == y;
      InsertBeforeTie(x, s[1..], le, y);
      var t := Insert(x, s[1..], le);
      var m, n :| 0 <= m < n < |t| && t[m].group == x.group && t[n].group == y.group;
      assert after[m + 1] == t[m] && after[n + 1] == t[n];
    }
  }

  /** The first of two tied entries stays first: the sort is stable. */
  lemma {:induction false} SortKeepsTies(s: seq<Entry>, le: (Entry, Entry) -> bool, i: nat, j: nat)
    requires TotalPreorder(le) && i < j < |s| && le(s[i], s[j])
    ensures Before(Sort(s, le), s[i].group, s[j].group)
  {
    if i == 0 {
      SortSorts(s[1..], le);
      SortPermutes(s[1..], le);
      assert s[1..][j - 1] == s[j];
      assert s[j] in multiset(Sort(s[1..], le));
      InsertBeforeTie(s[0], Sort(s[1..], le), le, s[j]);
    } else {
      assert s[1..][i - 1] == s[i] && s[1..][j - 1] == s[j];
      SortKeepsTies(s[1..], le, i - 1, j - 1);
      InsertKeepsBefore(s[0], Sort(s[1..], le), le, s[i].group, s[j].group);
    }
  }

  /** The first finding's group comes first in the map. */
  lemma {:induction false} FirstCountedFirst(findings: seq<Group>)
    requires findings != []
    ensures Counted(findings) != [] && Counted(findings)[0].group == findings[0]
    decreases |findings|
  {
    var n := |findings| - 1;
    if n == 0 {
      assert Counted(findings[..0]) == [];
    } else {
      FirstCountedFirst(findings[..n]);
    }
  }

  /** When the findings start with `g`, its entry comes before that of any `h` it clashes with. */
  lemma ClashFollowsFirst(c: Style, g: Group, rest: seq<Group>, h: Group)
    requires TotalOrder(c.le) && Clash(g, h) && h in rest
    ensures Before(Entries(c, [g] + rest), g, h)
  {
    var findings := [g] + rest;
    FirstCountedFirst(findings);
    CountedCounts(findings);
    InOrderIsTotal(c);
    var counted := Counted(findings);
    assert h in findings;
    var j :| 0 <= j < |counted| && counted[j].group == h;
    SortKeepsTies(counted, InOrder(c), 0, j);
  }

  lemma NotBothBefore(entries: seq<Entry>, g: Group, h: Group)
    requires GroupsDiffer(entries) && Before(entries, g, h)
    ensures !Before(entries, h, g)
  {
  }

  /** `a` with one occurrence of `g` moved to the front. */
  lemma MoveToFront(a: seq<Group>, g: Group) returns (rest: seq<Group>)
    requires g in a
    ensures multiset([g] + rest) == multiset(a)
  {
    var i :| 0 <= i < |a| && a[i] == g;
    rest := a[..i] + a[i + 1..];
    assert a == a[..i] + [a[i]] + a[i + 1..];
  }

  /** Two arrangements of the same findings that a clash tells apart. */
  lemma ClashMatters(c: Style, a: seq<Group>, g: Group, h: Group) returns (x: seq<Group>, y: seq<Group>)
    requires TotalOrder(c.le) && g in a && h in a && Clash(g, h)
    ensures multiset(x) == multiset(y) == multiset(a) && Entries(c, x) != Entries(c, y)
  {
    var rest := MoveToFront(a, g);
    var rest' := MoveToFront(a, h);
    x, y := [g] + rest, [h] + rest';
    assert h in multiset(x) && g in multiset(y);
    assert h in rest && g in rest';
    hide Entries, Before, GroupsDiffer;
    ClashFollowsFirst(c, g, rest, h);
    ClashFollowsFirst(c, h, rest', g);
    EntriesCountFindings(c, y);
    NotBothBefore(Entries(c, y), h, g);
  }

  /** The entries are independent of the order of the findings exactly when no two groups clash. */
  lemma OrderIrrelevantExactly(c: Style, a: seq<Group>)
    requires TotalOrder(c.le)
    ensures (forall b | multiset(a) == multiset(b) :: Entries(c, a) == Entries(c, b)) <==> ClashFree(a)
  {
    if ClashFree(a) {
      forall b | multiset(a) == multiset(b) ensures Entries(c, a) == Entries(c, b) {
        OrderIrrelevantWithoutClash(c, a, b);
      }
    } else {
      var g, h :| g in a && h in a && Clash(g, h);
      var x, y := ClashMatters(c, a, g, h);
      assert Entries(c, x) != Entries(c, a) || Entries(c, y) != Entries(c, a);
    }
  }

  // ---------------------------------------------------------------- regressions

  /** A map built from the entries: of several with one key the last wins. */
  function BaselineCount(entries: seq<Entry>, g: Group): nat {
    if entries == [] then 0
    else if entries[|entries| - 1].group == g then entries[|entries| - 1].count
    else BaselineCount(entries[..|entries| - 1], g)
  }

  function Compare(historical: seq<Entry>, current: seq<Entry>): seq<Regression> {
    if current == [] then []
    else
      var e := current[|current| - 1];
      var before := BaselineCount(historical, e.group);
      Compare(historical, current[..|current| - 1])
      + if e.count > before then [Regression(e.group, before, e.count, e.count - before)] else []
  }

  function RegressionOrder(c: Style): (Regression, Regression) -> bool {
    (a: Regression, b: Regression) => InOrder(c)(Entry(a.group, 0), Entry(b.group, 0))
  }

  /** `findLintRegressions`. */
  function Regressions(c: Style, historical: seq<Entry>, current: seq<Entry>): seq<Regression> {
    Sort(Compare(historical, current), RegressionOrder(c))
  }

  lemma {:induction false} CompareMember(historical: seq<Entry>, current: seq<Entry>, r: Regression)
    ensures r in Compare(historical, current) <==>
            && Entry(r.group, r.current) in current && r.baseline == BaselineCount(historical, r.group)
            && r.added == r.current - r.baseline > 0
  {
    if current != [] {
      var n := |current| - 1;
      CompareMember(historical, current[..n], r);
      assert current == current[..n] + [current[n]];
    }
  }

  lemma BaselineCountFinds(entries: seq<Entry>, findings: seq<Group>, g: Group)
    requires CountsOf(entries, findings)
    ensures BaselineCount(entries, g) == multiset(findings)[g]
  {
    LastCount(entries, g);
    if g in multiset(findings) {
      assert g in findings;
      var i :| 0 <= i < |entries| && entries[i].group == g;
      assert entries[i] in entries;
    }
  }

  lemma {:induction false} LastCount(entries: seq<Entry>, g: Group)
    requires GroupsDiffer(entries)
    ensures (exists i | 0 <= i < |entries| :: entries[i].group == g) ==> Entry(g, BaselineCount(entries, g)) in entries
    ensures (forall i | 0 <= i < |entries| :: entries[i].group != g) ==> BaselineCount(entries, g) == 0
  {
    if entries != [] {
      var n := |entries| - 1;
      LastCount(entries[..n], g);
      assert forall i | 0 <= i < n :: entries[..n][i] == entries[i];
      if entries[n].group == g {
        assert entries[n] == Entry(g, BaselineCount(entries, g));
      } else if i :| 0 <= i < |entries| && entries[i].group == g {
        assert entries[..n][i].group == g;
      }
    }
  }

  /**
   * A regression is reported exactly for the groups whose count rose above the one in the historical
   * entries, with both counts and the difference.
   */
  lemma RegressionsAreRises(c: Style, historical: seq<Entry>, findings: seq<Group>, r: Regression)
    ensures r in Regressions(c, historical, Entries(c, findings)) <==>
            && r.baseline == BaselineCount(historical, r.group) && r.current == multiset(findings)[r.group]
            && r.added == r.current - r.baseline && r.current > r.baseline
  {
    var compared := Compare(historical, Entries(c, findings));
    SortPermutes(compared, RegressionOrder(c));
    assert r in Regressions(c, historical, Entries(c, findings)) <==> r in multiset(compared);
    CompareMember(historical, Entries(c, findings), r);
    SortPermutes(Counted(findings), InOrder(c));
    var e := Entry(r.group, r.current);
    assert e in Entries(c, findings) <==> e in multiset(Counted(findings));
    CountedMember(findings, e);
  }

  /** Nothing is reported exactly when no group's count rose. */
  lemma NoRegressionsExactly(c: Style, historical: seq<Entry>, findings: seq<Group>)
    ensures Regressions(c, historical, Entries(c, findings)) == [] <==>
            forall g :: multiset(findings)[g] <= BaselineCount(historical, g)
  {
    var reported := Regressions(c, historical, Entries(c, findings));
    if reported != [] {
      RegressionsAreRises(c, historical, findings, reported[0]);
    }
    if g :| multiset(findings)[g] > BaselineCount(historical, g) {
      var before, now := BaselineCount(historical, g), multiset(findings)[g];
      RegressionsAreRises(c, historical, findings, Regression(g, before, now, now - before));
    }
  }

  /** Against a baseline built from earlier findings: silence means the findings are a sub-multiset of those. */
  lemma SilentExactlyWhenContained(c: Style, earlier: seq<Group>, findings: seq<Group>)
    ensures Regressions(c, Entries(c, earlier), Entries(c, findings)) == [] <==> multiset(findings) <= multiset(earlier)
  {
    NoRegressionsExactly(c, Entries(c, earlier), findings);
    EntriesCountFindings(c, earlier);
    forall g ensures BaselineCount(Entries(c, earlier), g) == multiset(earlier)[g] {
      BaselineCountFinds(Entries(c, earlier), earlier, g);
    }
  }
}
