/** Alert rules expanded to (rule, code) entries, and the triggers one scan collects from them. */
module AlertEntries {
  import opened Prelude

  datatype Source = Direct | FromWatchlist(watchlist: int) | FromPortfolio(portfolio: string)

  /** A rule names a code, a watchlist, a portfolio, or several of them. */
  datatype Rule = Rule(id: int, code: Option<string>, stockName: Option<string>, watchlist: Option<int>,
                       portfolio: Option<string>, threshold: Option<real>)

  datatype WatchRow = WatchRow(watchlist: int, code: string)
  datatype HoldingRow = HoldingRow(portfolio: string, code: string, stockName: string)

  datatype Entry = Entry(rule: Rule, code: string, stockName: Option<string>, source: Source)

  // ---------------------------------------------------------------- expansion

  /** The rows of one watchlist, in the order they were read. */
  function Stocks(rows: seq<WatchRow>, id: int): seq<WatchRow> {
    if rows == [] then []
    else
      var last := rows[|rows| - 1];
      Stocks(rows[..|rows| - 1], id) + if last.watchlist == id then [last] else []
  }

  function Holdings(rows: seq<HoldingRow>, id: string): seq<HoldingRow> {
    if rows == [] then []
    else
      var last := rows[|rows| - 1];
      Holdings(rows[..|rows| - 1], id) + if last.portfolio == id then [last] else []
  }

  function WatchEntries(rule: Rule, stocks: seq<WatchRow>): seq<Entry> {
    seq(|stocks|, i requires 0 <= i < |stocks| => Entry(rule, stocks[i].code, None, FromWatchlist(stocks[i].watchlist)))
  }

  function PortfolioEntries(rule: Rule, holdings: seq<HoldingRow>): seq<Entry> {
    seq(|holdings|, i requires 0 <= i < |holdings| =>
      Entry(rule, holdings[i].code, Some(holdings[i].stockName), FromPortfolio(holdings[i].portfolio)))
  }

  /** Empty codes, the watchlist 0 and the empty portfolio name count as absent. */
  predicate HasCode(rule: Rule) {
    rule.code.Some? && rule.code.value != ""
  }

  predicate HasWatchlist(rule: Rule) {
    rule.watchlist.Some? && rule.watchlist.value != 0
  }

  predicate HasPortfolio(rule: Rule) {
    rule.portfolio.Some? && rule.portfolio.value != ""
  }

  function DirectPart(rule: Rule): seq<Entry> {
    if HasCode(rule) then [Entry(rule, rule.code.value, rule.stockName, Direct)] else []
  }

  function WatchPart(rule: Rule, watch: seq<WatchRow>): seq<Entry> {
    if HasWatchlist(rule) then WatchEntries(rule, Stocks(watch, rule.watchlist.value)) else []
  }

  function PortfolioPart(rule: Rule, held: seq<HoldingRow>): seq<Entry> {
    if HasPortfolio(rule) then PortfolioEntries(rule, Holdings(held, rule.portfolio.value)) else []
  }

  function RuleEntries(rule: Rule, watch: seq<WatchRow>, held: seq<HoldingRow>): seq<Entry> {
    DirectPart(rule) + WatchPart(rule, watch) + PortfolioPart(rule, held)
  }

  function Expand(rules: seq<Rule>, watch: seq<WatchRow>, held: seq<HoldingRow>): seq<Entry> {
    if rules == [] then []
    else Expand(rules[..|rules| - 1], watch, held) + RuleEntries(rules[|rules| - 1], watch, held)
  }

  method GroupStocks(rows: seq<WatchRow>) returns (lists: map<int, seq<WatchRow>>)
    ensures forall id :: (if id in lists then lists[id] else []) == Stocks(rows, id)
  {
    lists := map[];
    for i := 0 to |rows|
      invariant forall id :: (if id in lists then lists[id] else []) == Stocks(rows[..i], id)
    {
      var row := rows[i];
      assert rows[..i + 1][..i] == rows[..i];
      var list := if row.watchlist in lists then lists[row.watchlist] else [];
      lists := lists[row.watchlist := list + [row]];
    }
    assert rows[..|rows|] == rows;
  }

  method GroupHoldings(rows: seq<HoldingRow>) returns (lists: map<string, seq<HoldingRow>>)
    ensures forall id :: (if id in lists then lists[id] else []) == Holdings(rows, id)
  {
    lists := map[];
    for i := 0 to |rows|
      invariant forall id :: (if id in lists then lists[id] else []) == Holdings(rows[..i], id)
    {
      var row := rows[i];
      assert rows[..i + 1][..i] == rows[..i];
      var list := if row.portfolio in lists then lists[row.portfolio] else [];
      lists := lists[row.portfolio := list + [row]];
    }
    assert rows[..|rows|] == rows;
  }

  /** `expandRulesToEntries` over the rows the two queries answered. */
  method ExpandRules(rules: seq<Rule>, watch: seq<WatchRow>, held: seq<HoldingRow>) returns (entries: seq<Entry>)
    ensures entries == Expand(rules, watch, held)
  {
    hide Stocks, Holdings, WatchEntries, PortfolioEntries;
    var stocks := GroupStocks(watch);
    var holdings := GroupHoldings(held);
    entries := [];
    for i := 0 to |rules|
      invariant entries == Expand(rules[..i], watch, held)
    {
      var rule := rules[i];
      assert rules[..i + 1][..i] == rules[..i];
      ghost var before := entries;
      if HasCode(rule) {
        entries := entries + [Entry(rule, rule.code.value, rule.stockName, Direct)];
      }
      assert entries == before + DirectPart(rule);
      if HasWatchlist(rule) {
        entries := PushWatch(entries, rule, if rule.watchlist.value in stocks then stocks[rule.watchlist.value] else []);
      }
      assert entries == before + DirectPart(rule) + WatchPart(rule, watch);
      if HasPortfolio(rule) {
        entries := PushHoldings(entries, rule, if rule.portfolio.value in holdings then holdings[rule.portfolio.value] else []);
      }
      Regroup(before, DirectPart(rule), WatchPart(rule, watch), PortfolioPart(rule, held));
    }
    assert rules[..|rules|] == rules;
  }

  lemma Regroup<T>(a: seq<T>, b: seq<T>, c: seq<T>, d: seq<T>)
    ensures a + b + c + d == a + (b + c + d)
  {
  }

  method PushWatch(before: seq<Entry>, rule: Rule, stocks: seq<WatchRow>) returns (entries: seq<Entry>)
    ensures entries == before + WatchEntries(rule, stocks)
  {
    entries := before;
    for i := 0 to |stocks|
      invariant entries == before + WatchEntries(rule, stocks[..i])
    {
      assert WatchEntries(rule, stocks[..i + 1]) ==
             WatchEntries(rule, stocks[..i]) + [Entry(rule, stocks[i].code, None, FromWatchlist(stocks[i].watchlist))];
      entries := entries + [Entry(rule, stocks[i].code, None, FromWatchlist(stocks[i].watchlist))];
    }
    assert stocks[..|stocks|] == stocks;
  }

  method PushHoldings(before: seq<Entry>, rule: Rule, holdings: seq<HoldingRow>) returns (entries: seq<Entry>)
    ensures entries == before + PortfolioEntries(rule, holdings)
  {
    entries := before;
    for i := 0 to |holdings|
      invariant entries == before + PortfolioEntries(rule, holdings[..i])
    {
      var entry := Entry(rule, holdings[i].code, Some(holdings[i].stockName), FromPortfolio(holdings[i].portfolio));
      assert PortfolioEntries(rule, holdings[..i + 1]) == PortfolioEntries(rule, holdings[..i]) + [entry];
      entries := entries + [entry];
    }
    assert holdings[..|holdings|] == holdings;
  }

  // ---------------------------------------------------------------- first entries

  /** The first entry for a rule and a code. */
  function FirstFor(entries: seq<Entry>, rule: int, code: string): Option<Entry> {
    if entries == [] then None
    else
      var before, last := FirstFor(entries[..|entries| - 1], rule, code), entries[|entries| - 1];
      if before.Some? then before
      else if last.rule.id == rule && last.code == code then Some(last)
      else None
  }

  lemma {:induction false} FirstForJoin(a: seq<Entry>, b: seq<Entry>, rule: int, code: string)
    ensures FirstFor(a + b, rule, code) == if FirstFor(a, rule, code).Some? then FirstFor(a, rule, code) else FirstFor(b, rule, code)
    decreases b
  {
    if b == [] {
      assert a + b == a;
    } else {
      var n := |b| - 1;
      FirstForJoin(a, b[..n], rule, code);
      assert (a + b)[..|a + b| - 1] == a + b[..n];
    }
  }

  lemma {:induction false} FirstForMember(entries: seq<Entry>, rule: int, code: string)
    ensures var r := FirstFor(entries, rule, code);
            && (r.Some? ==> r.value in entries && r.value.rule.id == rule && r.value.code == code)
            && (r.None? ==> forall e | e in entries :: e.rule.id != rule || e.code != code)
    decreases entries
  {
    if entries != [] {
      FirstForMember(entries[..|entries| - 1], rule, code);
      assert entries == entries[..|entries| - 1] + [entries[|entries| - 1]];
    }
  }

  /** Another rule's entries do not matter. */
  lemma FirstForOtherRule(entries: seq<Entry>, rule: int, code: string)
    requires forall e | e in entries :: e.rule.id != rule
    ensures FirstFor(entries, rule, code).None?
  {
    FirstForMember(entries, rule, code);
  }

  predicate IdsDiffer(rules: seq<Rule>) {
    forall i, j | 0 <= i < j < |rules| :: rules[i].id != rules[j].id
  }

  function FirstStock(stocks: seq<WatchRow>, code: string): Option<WatchRow> {
    if stocks == [] then None else if stocks[0].code == code then Some(stocks[0]) else FirstStock(stocks[1..], code)
  }

  function FirstHolding(holdings: seq<HoldingRow>, code: string): Option<HoldingRow> {
    if holdings == [] then None else if holdings[0].code == code then Some(holdings[0]) else FirstHolding(holdings[1..], code)
  }

  lemma {:induction false} FirstWatchEntry(rule: Rule, stocks: seq<WatchRow>, code: string)
    ensures FirstFor(WatchEntries(rule, stocks), rule.id, code) ==
            match FirstStock(stocks, code)
            case None => None
            case Some(row) => Some(Entry(rule, code, None, FromWatchlist(row.watchlist)))
  {
    if stocks != [] {
      FirstWatchEntry(rule, stocks[1..], code);
      var head := Entry(rule, stocks[0].code, None, FromWatchlist(stocks[0].watchlist));
      assert WatchEntries(rule, stocks) == [head] + WatchEntries(rule, stocks[1..]);
      FirstForJoin([head], WatchEntries(rule, stocks[1..]), rule.id, code);
    }
  }

  lemma {:induction false} FirstPortfolioEntry(rule: Rule, holdings: seq<HoldingRow>, code: string)
    ensures FirstFor(PortfolioEntries(rule, holdings), rule.id, code) ==
            match FirstHolding(holdings, code)
            case None => None
            case Some(row) => Some(Entry(rule, code, Some(row.stockName), FromPortfolio(row.portfolio)))
  {
    if holdings != [] {
      FirstPortfolioEntry(rule, holdings[1..], code);
      var head := Entry(rule, holdings[0].code, Some(holdings[0].stockName), FromPortfolio(holdings[0].portfolio));
      assert PortfolioEntries(rule, holdings) == [head] + PortfolioEntries(rule, holdings[1..]);
      FirstForJoin([head], PortfolioEntries(rule, holdings[1..]), rule.id, code);
    }
  }

  /** How one rule reaches a code: named directly, else through its watchlist, else through its portfolio. */
  function Reached(rule: Rule, watch: seq<WatchRow>, held: seq<HoldingRow>, code: string): Option<Entry> {
    var listed := if HasWatchlist(rule) then FirstStock(Stocks(watch, rule.watchlist.value), code) else None;
    var holding := if HasPortfolio(rule) then FirstHolding(Holdings(held, rule.portfolio.value), code) else None;
    if HasCode(rule) && rule.code.value == code then Some(Entry(rule, code, rule.stockName, Direct))
    else if listed.Some? then Some(Entry(rule, code, None, FromWatchlist(listed.value.watchlist)))
    else if holding.Some? then Some(Entry(rule, code, Some(holding.value.stockName), FromPortfolio(holding.value.portfolio)))
    else None
  }

  lemma RuleReaches(rule: Rule, watch: seq<WatchRow>, held: seq<HoldingRow>, code: string)
    ensures FirstFor(RuleEntries(rule, watch, held), rule.id, code) == Reached(rule, watch, held, code)
  {
    FirstForJoin(DirectPart(rule) + WatchPart(rule, watch), PortfolioPart(rule, held), rule.id, code);
    FirstForJoin(DirectPart(rule), WatchPart(rule, watch), rule.id, code);
    if HasWatchlist(rule) {
      FirstWatchEntry(rule, Stocks(watch, rule.watchlist.value), code);
    }
    if HasPortfolio(rule) {
      FirstPortfolioEntry(rule, Holdings(held, rule.portfolio.value), code);
    }
  }

  lemma EntriesKeepRule(rule: Rule, watch: seq<WatchRow>, held: seq<HoldingRow>, e: Entry)
    requires e in RuleEntries(rule, watch, held)
    ensures e.rule == rule
  {
  }

  lemma {:induction false} ExpandedRules(rules: seq<Rule>, watch: seq<WatchRow>, held: seq<HoldingRow>, e: Entry)
    requires e in Expand(rules, watch, held)
    ensures e.rule in rules
    decreases rules
  {
    var init, last := rules[..|rules| - 1], rules[|rules| - 1];
    if e in Expand(init, watch, held) {
      ExpandedRules(init, watch, held, e);
    } else {
      EntriesKeepRule(last, watch, held, e);
    }
  }

  /** In the expanded list the first entry of a rule for a code follows direct, then watchlist, then portfolio. */
  lemma {:induction false} ExpansionPrecedence(rules: seq<Rule>, watch: seq<WatchRow>, held: seq<HoldingRow>, rule: Rule, code: string)
    requires IdsDiffer(rules) && rule in rules
    ensures FirstFor(Expand(rules, watch, held), rule.id, code) == Reached(rule, watch, held, code)
    decreases rules
  {
    var init, last := rules[..|rules| - 1], rules[|rules| - 1];
    FirstForJoin(Expand(init, watch, held), RuleEntries(last, watch, held), rule.id, code);
    if rule == last {
      forall e | e in Expand(init, watch, held) ensures e.rule.id != rule.id {
        ExpandedRules(init, watch, held, e);
      }
      FirstForOtherRule(Expand(init, watch, held), rule.id, code);
      RuleReaches(rule, watch, held, code);
    } else {
      var i :| 0 <= i < |rules| && rules[i] == rule;
      assert init[i] == rule;
      ExpansionPrecedence(init, watch, held, rule, code);
      forall e | e in RuleEntries(last, watch, held) ensures e.rule.id != rule.id {
        EntriesKeepRule(last, watch, held, e);
      }
      FirstForOtherRule(RuleEntries(last, watch, held), rule.id, code);
    }
  }

  // ---------------------------------------------------------------- event scans regroup by window

  const WINDOWS: set<real> := {0.0, 1.0, 3.0, 7.0}

  predicate ValidWindow(rule: Rule) {
    rule.threshold.Some? && rule.threshold.value in WINDOWS
  }

  datatype WindowGroup = WindowGroup(window: real, entries: seq<Entry>)

  function IndexOfWindow(groups: seq<WindowGroup>, window: real): (i: int)
    ensures -1 <= i < |groups|
    ensures i >= 0 ==> groups[i].window == window
    ensures i < 0 ==> forall j | 0 <= j < |groups| :: groups[j].window != window
  {
    if groups == [] then -1
    else if groups[|groups| - 1].window == window then |groups| - 1
    else IndexOfWindow(groups[..|groups| - 1], window)
  }

  /** Entries with a valid window, grouped by it; windows in order of first appearance. */
  function ByWindow(entries: seq<Entry>): seq<WindowGroup> {
    if entries == [] then []
    else
      var groups, e := ByWindow(entries[..|entries| - 1]), entries[|entries| - 1];
      if !ValidWindow(e.rule) then groups
      else
        var i := IndexOfWindow(groups, e.rule.threshold.value);
        if i < 0 then groups + [WindowGroup(e.rule.threshold.value, [e])]
        else groups[i := WindowGroup(groups[i].window, groups[i].entries + [e])]
  }

  function Flatten(groups: seq<WindowGroup>): seq<Entry> {
    if groups == [] then [] else Flatten(groups[..|groups| - 1]) + groups[|groups| - 1].entries
  }

  function WithWindow(entries: seq<Entry>, window: real): seq<Entry> {
    if entries == [] then []
    else
      var last := entries[|entries| - 1];
      WithWindow(entries[..|entries| - 1], window) + if last.rule.threshold == Some(window) then [last] else []
  }

  ghost predicate WindowsDiffer(groups: seq<WindowGroup>) {
    forall i, j | 0 <= i < j < |groups| :: groups[i].window != groups[j].window
  }

  ghost predicate HasWindow(groups: seq<WindowGroup>, window: real) {
    exists i | 0 <= i < |groups| :: groups[i].window == window
  }

  ghost predicate GroupsHold(groups: seq<WindowGroup>, entries: seq<Entry>) {
    forall i | 0 <= i < |groups| :: groups[i].window in WINDOWS && groups[i].entries == WithWindow(entries, groups[i].window)
  }

  ghost predicate Covered(groups: seq<WindowGroup>, entries: seq<Entry>) {
    forall e | e in entries && ValidWindow(e.rule) :: HasWindow(groups, e.rule.threshold.value)
  }

  ghost predicate Grouped(groups: seq<WindowGroup>, entries: seq<Entry>) {
    WindowsDiffer(groups) && GroupsHold(groups, entries) && Covered(groups, entries)
  }

  lemma {:induction false} NoneWithWindow(entries: seq<Entry>, window: real)
    requires forall e | e in entries :: e.rule.threshold != Some(window)
    ensures WithWindow(entries, window) == []
  {
    if entries != [] {
      NoneWithWindow(entries[..|entries| - 1], window);
    }
  }

  lemma {:induction false} ByWindowGroups(entries: seq<Entry>)
    ensures Grouped(ByWindow(entries), entries)
  {
    if entries != [] {
      var init, e := entries[..|entries| - 1], entries[|entries| - 1];
      ByWindowGroups(init);
      assert entries == init + [e];
      var groups := ByWindow(init);
      if ValidWindow(e.rule) {
        var w := e.rule.threshold.value;
        var i := IndexOfWindow(groups, w);
        if i < 0 {
          NewWindow(groups, init, e);
        } else {
          OldWindow(groups, init, e, i);
        }
      } else {
        WindowKept(groups, init, e);
      }
    }
  }

  lemma WithWindowStep(init: seq<Entry>, e: Entry, window: real)
    ensures WithWindow(init + [e], window) == WithWindow(init, window) + if e.rule.threshold == Some(window) then [e] else []
  {
    assert (init + [e])[..|init|] == init;
  }

  lemma WindowKept(groups: seq<WindowGroup>, init: seq<Entry>, e: Entry)
    requires Grouped(groups, init) && !ValidWindow(e.rule)
    ensures Grouped(groups, init + [e])
  {
    forall i | 0 <= i < |groups| ensures groups[i].entries == WithWindow(init + [e], groups[i].window) {
      WithWindowStep(init, e, groups[i].window);
    }
  }

  lemma NewWindow(groups: seq<WindowGroup>, init: seq<Entry>, e: Entry)
    requires Grouped(groups, init) && ValidWindow(e.rule) && !HasWindow(groups, e.rule.threshold.value)
    ensures Grouped(groups + [WindowGroup(e.rule.threshold.value, [e])], init + [e])
  {
    hide WithWindow;
    var w := e.rule.threshold.value;
    var after := groups + [WindowGroup(w, [e])];
    forall x | x in init ensures x.rule.threshold != Some(w) {
      assert x.rule.threshold == Some(w) ==> ValidWindow(x.rule);
    }
    NoneWithWindow(init, w);
    assert after[|groups|].window == w;
    forall i | 0 <= i < |after| ensures after[i].window in WINDOWS && after[i].entries == WithWindow(init + [e], after[i].window) {
      WithWindowStep(init, e, after[i].window);
    }
    CoveredGrows(groups, after, init, e);
  }

  lemma OldWindow(groups: seq<WindowGroup>, init: seq<Entry>, e: Entry, i: nat)
    requires Grouped(groups, init) && ValidWindow(e.rule) && i < |groups| && groups[i].window == e.rule.threshold.value
    ensures Grouped(groups[i := WindowGroup(groups[i].window, groups[i].entries + [e])], init + [e])
  {
    hide WithWindow;
    var after := groups[i := WindowGroup(groups[i].window, groups[i].entries + [e])];
    forall j | 0 <= j < |after| ensures after[j].window in WINDOWS && after[j].entries == WithWindow(init + [e], after[j].window) {
      WithWindowStep(init, e, after[j].window);
    }
    CoveredGrows(groups, after, init, e);
  }

  lemma CoveredGrows(groups: seq<WindowGroup>, after: seq<WindowGroup>, init: seq<Entry>, e: Entry)
    requires Covered(groups, init) && |groups| <= |after| && forall i | 0 <= i < |groups| :: after[i].window == groups[i].window
    requires ValidWindow(e.rule) ==> HasWindow(after, e.rule.threshold.value)
    ensures Covered(after, init + [e])
  {
    forall x | x in init + [e] && ValidWindow(x.rule) ensures HasWindow(after, x.rule.threshold.value) {
      if x in init {
        var i :| 0 <= i < |groups| && groups[i].window == x.rule.threshold.value;
        assert after[i].window == x.rule.threshold.value;
      }
    }
  }

  lemma {:induction false} FirstWithWindow(entries: seq<Entry>, window: real, rule: int, code: string)
    requires forall e | e in entries && e.rule.id == rule :: e.rule.threshold == Some(window)
    ensures FirstFor(WithWindow(entries, window), rule, code) == FirstFor(entries, rule, code)
  {
    if entries != [] {
      var init, last := entries[..|entries| - 1], entries[|entries| - 1];
      FirstWithWindow(init, window, rule, code);
      assert entries == init + [last];
      var tail := if last.rule.threshold == Some(window) then [last] else [];
      FirstForJoin(WithWindow(init, window), tail, rule, code);
      FirstForJoin(init, [last], rule, code);
    }
  }

  lemma {:induction false} FirstInGroups(groups: seq<WindowGroup>, i: nat, rule: int, code: string)
    requires i < |groups|
    requires forall j, e | 0 <= j < |groups| && j != i && e in groups[j].entries :: e.rule.id != rule
    ensures FirstFor(Flatten(groups), rule, code) == FirstFor(groups[i].entries, rule, code)
  {
    var n := |groups| - 1;
    FirstForJoin(Flatten(groups[..n]), groups[n].entries, rule, code);
    if i < n {
      FirstInGroups(groups[..n], i, rule, code);
      FirstForOtherRule(groups[n].entries, rule, code);
    } else {
      NoneInGroups(groups[..n], rule, code);
    }
  }

  lemma {:induction false} NoneInGroups(groups: seq<WindowGroup>, rule: int, code: string)
    requires forall j, e | 0 <= j < |groups| && e in groups[j].entries :: e.rule.id != rule
    ensures FirstFor(Flatten(groups), rule, code).None?
  {
    if groups != [] {
      var n := |groups| - 1;
      NoneInGroups(groups[..n], rule, code);
      FirstForOtherRule(groups[n].entries, rule, code);
      FirstForJoin(Flatten(groups[..n]), groups[n].entries, rule, code);
    }
  }

  lemma {:induction false} WithWindowMembers(entries: seq<Entry>, window: real, e: Entry)
    requires e in WithWindow(entries, window)
    ensures e in entries && e.rule.threshold == Some(window)
  {
    var init := entries[..|entries| - 1];
    if e in WithWindow(init, window) {
      WithWindowMembers(init, window, e);
    }
  }

  /** Entries of one rule carry the same rule. */
  ghost predicate OneRulePerId(entries: seq<Entry>) {
    forall e, f | e in entries && f in entries && e.rule.id == f.rule.id :: e.rule == f.rule
  }

  /** Regrouping by window drops exactly the rules without a valid window; it never changes who comes first. */
  lemma WindowsKeepFirst(entries: seq<Entry>, rule: int, code: string)
    requires OneRulePerId(entries)
    ensures var first := FirstFor(entries, rule, code);
            FirstFor(Flatten(ByWindow(entries)), rule, code) ==
              if first.Some? && ValidWindow(first.value.rule) then first else None
  {
    var groups := ByWindow(entries);
    ByWindowGroups(entries);
    FirstForMember(entries, rule, code);
    forall j, e | 0 <= j < |groups| && e in groups[j].entries
      ensures e in entries && e.rule.threshold == Some(groups[j].window)
    {
      WithWindowMembers(entries, groups[j].window, e);
    }
    if x :| x in entries && x.rule.id == rule && ValidWindow(x.rule) {
      var w := x.rule.threshold.value;
      assert HasWindow(groups, w);
      var i :| 0 <= i < |groups| && groups[i].window == w;
      FirstInGroups(groups, i, rule, code);
      FirstWithWindow(entries, w, rule, code);
    } else {
      NoneInGroups(groups, rule, code);
    }
  }

  /** The grouping loop of an event scan. */
  method GroupByWindow(entries: seq<Entry>) returns (groups: seq<WindowGroup>)
    ensures groups == ByWindow(entries)
  {
    groups := [];
    for k := 0 to |entries|
      invariant groups == ByWindow(entries[..k])
    {
      var e := entries[k];
      assert entries[..k + 1][..k] == entries[..k];
      if !ValidWindow(e.rule) {
        continue;
      }
      var i := IndexOfWindow(groups, e.rule.threshold.value);
      if i < 0 {
        groups := groups + [WindowGroup(e.rule.threshold.value, [e])];
      } else {
        groups := groups[i := WindowGroup(groups[i].window, groups[i].entries + [e])];
      }
    }
    assert entries[..|entries|] == entries;
  }
}
