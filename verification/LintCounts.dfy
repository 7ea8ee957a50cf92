/** What the lint baseline says of the messages themselves. */
module LintCounts {
  import opened Prelude
  import opened Sorting
  import opened LintBaseline

  /** Where the messages of the group are: in a file with its path, with its rule and severity, the severity positive. */
  function Occurrences(c: Style, results: seq<FileResult>, g: Group): set<(nat, nat)> {
    set k: nat, n: nat | k < |results| && n < |results[k].messages|
      && results[k].messages[n] == Message(g.rule, g.severity) && g.severity > 0 && c.portable(results[k].path) == g.path
      :: (k, n)
  }

  function OfSeverity(results: seq<FileResult>, severity: int): set<(nat, nat)> {
    set k: nat, n: nat | k < |results| && n < |results[k].messages| && results[k].messages[n].severity == severity :: (k, n)
  }

  function Severe(results: seq<FileResult>): set<(nat, nat)> {
    set k: nat, n: nat | k < |results| && n < |results[k].messages| && results[k].messages[n].severity > 0 :: (k, n)
  }

  // ---------------------------------------------------------------- findings against messages

  /** The findings for which `q` holds. */
  function Count(findings: seq<Group>, q: Group -> bool): nat {
    if findings == [] then 0 else Count(findings[..|findings| - 1], q) + if q(findings[|findings| - 1]) then 1 else 0
  }

  function Is(g: Group): Group -> bool {
    (f: Group) => f == g
  }

  function HasSeverity(severity: int): Group -> bool {
    (f: Group) => f.severity == severity
  }

  function Any(): Group -> bool {
    (f: Group) => true
  }

  /** The messages, among the first `m` of file `k`, whose finding satisfies `q`. */
  function InFile(c: Style, results: seq<FileResult>, k: nat, m: nat, q: Group -> bool): set<(nat, nat)>
    requires k < |results| && m <= |results[k].messages|
  {
    set n: nat | n < m && Satisfies(c, results, k, n, q) :: (k, n)
  }

  predicate Satisfies(c: Style, results: seq<FileResult>, k: nat, n: nat, q: Group -> bool)
    requires k < |results| && n < |results[k].messages|
  {
    var message := results[k].messages[n];
    message.severity > 0 && q(Group(c.portable(results[k].path), message.rule, message.severity))
  }

  function InFiles(c: Style, results: seq<FileResult>, q: Group -> bool): set<(nat, nat)> {
    set k: nat, n: nat | k < |results| && n < |results[k].messages| && Satisfies(c, results, k, n, q) :: (k, n)
  }

  lemma {:induction false} CountJoin(a: seq<Group>, b: seq<Group>, q: Group -> bool)
    ensures Count(a + b, q) == Count(a, q) + Count(b, q)
    decreases b
  {
    if b == [] {
      assert a + b == a;
    } else {
      CountJoin(a, b[..|b| - 1], q);
      assert (a + b)[..|a + b| - 1] == a + b[..|b| - 1];
    }
  }

  lemma NextMessage(c: Style, results: seq<FileResult>, k: nat, m: nat, q: Group -> bool)
    requires k < |results| && m < |results[k].messages|
    ensures |InFile(c, results, k, m + 1, q)| == |InFile(c, results, k, m, q)| + if Satisfies(c, results, k, m, q) then 1 else 0
  {
    var here := if Satisfies(c, results, k, m, q) then {(k, m)} else {};
    assert InFile(c, results, k, m + 1, q) == InFile(c, results, k, m, q) + here;
  }

  lemma LastFinding(path: string, messages: seq<Message>, m: nat)
    requires m < |messages|
    ensures FileFindings(path, messages[..m + 1]) ==
            FileFindings(path, messages[..m])
            + if messages[m].severity > 0 then [Group(path, messages[m].rule, messages[m].severity)] else []
  {
    assert messages[..m + 1][..m] == messages[..m];
  }

  lemma {:induction false} FileCounted(c: Style, results: seq<FileResult>, k: nat, m: nat, q: Group -> bool)
    requires k < |results| && m <= |results[k].messages|
    ensures |InFile(c, results, k, m, q)| == Count(FileFindings(c.portable(results[k].path), results[k].messages[..m]), q)
  {
    if m > 0 {
      var path, messages := c.portable(results[k].path), results[k].messages;
      FileCounted(c, results, k, m - 1, q);
      assert messages[..m][..m - 1] == messages[..m - 1];
      var last := if messages[m - 1].severity > 0 then [Group(path, messages[m - 1].rule, messages[m - 1].severity)] else [];
      CountJoin(FileFindings(path, messages[..m - 1]), last, q);
      NextMessage(c, results, k, m - 1, q);
      LastFinding(path, messages, m - 1);
      hide InFile, FileFindings;
    } else {
      assert InFile(c, results, k, m, q) == {};
    }
  }

  lemma {:induction false} FilesCounted(c: Style, results: seq<FileResult>, q: Group -> bool)
    ensures |InFiles(c, results, q)| == Count(Findings(c, results), q)
  {
    if results != [] {
      var k := |results| - 1;
      var init, r := results[..k], results[k];
      FilesCounted(c, init, q);
      FileCounted(c, results, k, |r.messages|, q);
      assert r.messages[..|r.messages|] == r.messages;
      CountJoin(Findings(c, init), FileFindings(c.portable(r.path), r.messages), q);
      LastFile(c, results, q);
    } else {
      assert InFiles(c, results, q) == {};
    }
  }

  lemma LastFile(c: Style, results: seq<FileResult>, q: Group -> bool)
    requires results != []
    ensures var k := |results| - 1;
            |InFiles(c, results, q)| == |InFiles(c, results[..k], q)| + |InFile(c, results, k, |results[k].messages|, q)|
  {
    var k := |results| - 1;
    var before, last := InFiles(c, results[..k], q), InFile(c, results, k, |results[k].messages|, q);
    assert InFiles(c, results, q) == before + last;
    assert before !! last;
  }

  lemma {:induction false} CountOfOne(findings: seq<Group>, g: Group)
    ensures Count(findings, Is(g)) == multiset(findings)[g]
  {
    if findings != [] {
      var n := |findings| - 1;
      CountOfOne(findings[..n], g);
      assert findings == findings[..n] + [findings[n]];
    }
  }

  lemma {:induction false} CountOfSeverity(findings: seq<Group>, severity: int)
    ensures Count(findings, HasSeverity(severity)) == WithSeverity(findings, severity)
  {
    if findings != [] {
      CountOfSeverity(findings[..|findings| - 1], severity);
    }
  }

  lemma {:induction false} CountOfAll(findings: seq<Group>)
    ensures Count(findings, Any()) == |findings|
  {
    if findings != [] {
      CountOfAll(findings[..|findings| - 1]);
    }
  }

  lemma OccurrencesCounted(c: Style, results: seq<FileResult>, g: Group)
    ensures |Occurrences(c, results, g)| == multiset(Findings(c, results))[g]
  {
    FilesCounted(c, results, Is(g));
    CountOfOne(Findings(c, results), g);
    assert Occurrences(c, results, g) == InFiles(c, results, Is(g));
  }

  lemma SeverityCounted(c: Style, results: seq<FileResult>, severity: int)
    requires severity > 0
    ensures |OfSeverity(results, severity)| == WithSeverity(Findings(c, results), severity)
  {
    FilesCounted(c, results, HasSeverity(severity));
    CountOfSeverity(Findings(c, results), severity);
    assert OfSeverity(results, severity) == InFiles(c, results, HasSeverity(severity));
  }

  lemma SevereCounted(c: Style, results: seq<FileResult>)
    ensures |Severe(results)| == |Findings(c, results)|
  {
    FilesCounted(c, results, Any());
    CountOfAll(Findings(c, results));
    assert Severe(results) == InFiles(c, results, Any());
  }

  // ---------------------------------------------------------------- the baseline

  /** Files with a message of positive severity. */
  ghost function FilesHit(results: seq<FileResult>): set<nat> {
    set k: nat | k < |results| && exists n | 0 <= n < |results[k].messages| :: results[k].messages[n].severity > 0
  }

  lemma {:induction false} FilesHitCounted(results: seq<FileResult>)
    ensures FilesWithFindings(results) == |FilesHit(results)|
  {
    if results != [] {
      var k := |results| - 1;
      FilesHitCounted(results[..k]);
      HasFindings(results[k].path, results[k].messages);
      assert FilesHit(results) == FilesHit(results[..k]) + if FileFindings(results[k].path, results[k].messages) != [] then {k} else {};
    } else {
      assert FilesHit(results) == {};
    }
  }

  /** `a` may stand before `b`: by path, then by rule with none read as the empty text, then by severity. */
  predicate InPlace(c: Style, a: Group, b: Group) {
    && c.le(a.path, b.path)
    && (a.path == b.path ==>
          var (x, y) := (if a.rule.Some? then a.rule.value else "", if b.rule.Some? then b.rule.value else "");
          c.le(x, y) && (x == y ==> a.severity <= b.severity))
  }

  lemma InPlaceExactly(c: Style, a: Group, b: Group)
    requires TotalOrder(c.le)
    ensures Precedes(c, a, b) <==> InPlace(c, a, b)
  {
    var (x, y) := (RuleText(a), RuleText(b));
    assert c.le(a.path, b.path) || c.le(b.path, a.path);
    assert c.le(x, y) || c.le(y, x);
  }

  /** The summary counts files and messages as they are. */
  lemma SummaryCounts(c: Style, results: seq<FileResult>)
    ensures BaselineOf(c, results).summary ==
            Summary(|results|, |FilesHit(results)|, |OfSeverity(results, 2)|, |OfSeverity(results, 1)|)
  {
    FilesHitCounted(results);
    SeverityCounted(c, results, 2);
    SeverityCounted(c, results, 1);
  }

  /**
   * There is exactly one entry for each path, rule and severity that some message has, with the number of those
   * messages; the counts add up to the messages of positive severity; and the entries are in order.
   */
  lemma EntriesCountMessages(c: Style, results: seq<FileResult>)
    ensures var entries := BaselineOf(c, results).entries;
            && (forall e :: e in entries <==> e.count == |Occurrences(c, results, e.group)| && e.count > 0)
            && (forall i, j | 0 <= i < j < |entries| :: entries[i].group != entries[j].group)
            && TotalCount(entries) == |Severe(results)|
            && (TotalOrder(c.le) ==> forall i, j | 0 <= i < j < |entries| :: InPlace(c, entries[i].group, entries[j].group))
  {
    var findings := Findings(c, results);
    var entries := Entries(c, findings);
    EntriesCountFindings(c, findings);
    EntriesTotal(c, findings);
    SevereCounted(c, results);
    SortPermutes(Counted(findings), InOrder(c));
    forall e ensures e in entries <==> e.count == |Occurrences(c, results, e.group)| && e.count > 0 {
      OccurrencesCounted(c, results, e.group);
      CountedMember(findings, e);
      assert e in entries <==> e in multiset(Counted(findings));
    }
    if TotalOrder(c.le) {
      InOrderIsTotal(c);
      SortSorts(Counted(findings), InOrder(c));
      forall i, j | 0 <= i < j < |entries| ensures InPlace(c, entries[i].group, entries[j].group) {
        assert InOrder(c)(entries[i], entries[j]);
        InPlaceExactly(c, entries[i].group, entries[j].group);
      }
    }
  }

  // ---------------------------------------------------------------- regressions

  /** Entry `i` is the last one of the group, with this count. */
  predicate LastAt(entries: seq<Entry>, g: Group, count: nat, i: nat) {
    i < |entries| && entries[i] == Entry(g, count) && forall j | i < j < |entries| :: entries[j].group != g
  }

  /** The count the entries have for the group: that of the last entry with it, or none. */
  ghost predicate Recorded(entries: seq<Entry>, g: Group, count: nat) {
    || (exists i: nat :: LastAt(entries, g, count, i))
    || (count == 0 && forall j | 0 <= j < |entries| :: entries[j].group != g)
  }

  lemma {:induction false} LastCounts(entries: seq<Entry>, g: Group, count: nat, i: nat)
    requires LastAt(entries, g, count, i)
    ensures BaselineCount(entries, g) == count
  {
    if i < |entries| - 1 {
      LastCounts(entries[..|entries| - 1], g, count, i);
    }
  }

  /** The last entry of the group, if there is one; else nothing is counted. */
  lemma {:induction false} CountIsRecorded(entries: seq<Entry>, g: Group)
    ensures (exists i: nat :: LastAt(entries, g, BaselineCount(entries, g), i)) ||
            (BaselineCount(entries, g) == 0 && forall j | 0 <= j < |entries| :: entries[j].group != g)
  {
    if entries != [] {
      var n := |entries| - 1;
      if entries[n].group == g {
        assert LastAt(entries, g, entries[n].count, n);
      } else {
        CountIsRecorded(entries[..n], g);
        assert forall j | 0 <= j < n :: entries[..n][j] == entries[j];
        if i: nat :| LastAt(entries[..n], g, BaselineCount(entries, g), i) {
          assert LastAt(entries, g, BaselineCount(entries, g), i);
        }
      }
    }
  }

  lemma {:induction false} NothingCounts(entries: seq<Entry>, g: Group)
    requires forall j | 0 <= j < |entries| :: entries[j].group != g
    ensures BaselineCount(entries, g) == 0
  {
    if entries != [] {
      NothingCounts(entries[..|entries| - 1], g);
    }
  }

  lemma RecordedExactly(entries: seq<Entry>, g: Group, count: nat)
    ensures Recorded(entries, g, count) <==> count == BaselineCount(entries, g)
  {
    CountIsRecorded(entries, g);
    if i: nat :| LastAt(entries, g, count, i) {
      LastCounts(entries, g, count, i);
    } else if forall j | 0 <= j < |entries| :: entries[j].group != g {
      NothingCounts(entries, g);
    }
  }

  /**
   * Against any recorded entries, a regression is reported exactly for each group that more messages have than
   * recorded, with both numbers and the difference.
   */
  lemma RegressionsAreRises(c: Style, historical: seq<Entry>, results: seq<FileResult>, r: Regression)
    ensures r in Regressions(c, historical, BaselineOf(c, results).entries) <==>
            && r.current == |Occurrences(c, results, r.group)| && Recorded(historical, r.group, r.baseline)
            && r.added == r.current - r.baseline > 0
  {
    LintBaseline.RegressionsAreRises(c, historical, Findings(c, results), r);
    OccurrencesCounted(c, results, r.group);
    RecordedExactly(historical, r.group, r.baseline);
  }

  /** Regressions come in the order of the entries. */
  lemma RegressionsInOrder(c: Style, historical: seq<Entry>, current: seq<Entry>)
    requires TotalOrder(c.le)
    ensures var reported := Regressions(c, historical, current);
            forall i, j | 0 <= i < j < |reported| :: InPlace(c, reported[i].group, reported[j].group)
  {
    var le := RegressionOrder(c);
    InOrderIsTotal(c);
    forall a, b ensures le(a, b) || le(b, a) {
      assert InOrder(c)(Entry(a.group, 0), Entry(b.group, 0)) || InOrder(c)(Entry(b.group, 0), Entry(a.group, 0));
    }
    forall a, b, d | le(a, b) && le(b, d) ensures le(a, d) {
      OrderChains(c, a.group, b.group, d.group);
    }
    SortSorts(Compare(historical, current), le);
    var reported := Regressions(c, historical, current);
    forall i, j | 0 <= i < j < |reported| ensures InPlace(c, reported[i].group, reported[j].group) {
      assert le(reported[i], reported[j]);
      InPlaceExactly(c, reported[i].group, reported[j].group);
    }
  }

  /** Against a baseline built earlier: silence means no group has more messages than it had. */
  lemma SilentExactlyWhenContained(c: Style, earlier: seq<FileResult>, results: seq<FileResult>)
    ensures Regressions(c, BaselineOf(c, earlier).entries, BaselineOf(c, results).entries) == [] <==>
            forall g :: |Occurrences(c, results, g)| <= |Occurrences(c, earlier, g)|
  {
    var before, now := Findings(c, earlier), Findings(c, results);
    LintBaseline.SilentExactlyWhenContained(c, before, now);
    forall g ensures |Occurrences(c, results, g)| == multiset(now)[g] && |Occurrences(c, earlier, g)| == multiset(before)[g] {
      OccurrencesCounted(c, results, g);
      OccurrencesCounted(c, earlier, g);
    }
    if forall g :: |Occurrences(c, results, g)| <= |Occurrences(c, earlier, g)| {
      assert forall g :: multiset(now)[g] <= multiset(before)[g];
    }
  }
}
