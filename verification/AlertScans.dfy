/** Alert scans as interleaved steps: one transaction per rule, then the notifications. */
module AlertScans {
  import opened Prelude
  import opened AlertEntries

  /** One line of the trigger history; the table is unique in (rule, date, code). */
  datatype Row = Row(rule: int, code: string, date: string, value: real, stockName: Option<string>, source: Source, batch: int)

  datatype Key = Key(rule: int, date: string, code: string)

  function KeyOf(r: Row): Key {
    Key(r.rule, r.date, r.code)
  }

  /** The rows one scan wants to insert for one rule. */
  datatype Group = Group(rule: int, rows: seq<Row>)

  /** What the market data or the calendar says about a rule and a code. */
  datatype Firing = Firing(value: real, stockName: Option<string>)
  type Fires = (Rule, string) -> Option<Firing>

  // ---------------------------------------------------------------- collecting the pending triggers

  function RowOf(e: Entry, f: Firing, date: string, batch: int): Row {
    Row(e.rule.id, e.code, date, f.value, if e.stockName.Some? then e.stockName else f.stockName, e.source, batch)
  }

  function IndexOfRule(groups: seq<Group>, rule: int): (i: int)
    ensures -1 <= i < |groups|
    ensures i >= 0 ==> groups[i].rule == rule
    ensures i < 0 ==> forall j | 0 <= j < |groups| :: groups[j].rule != rule
  {
    if groups == [] then -1
    else if groups[|groups| - 1].rule == rule then |groups| - 1
    else IndexOfRule(groups[..|groups| - 1], rule)
  }

  predicate NamesCode(rows: seq<Row>, code: string) {
    exists i | 0 <= i < |rows| :: rows[i].code == code
  }

  /** The nested maps `pendingByRule`, in insertion order: a rule and code already present is left alone. */
  function AddRow(groups: seq<Group>, row: Row): seq<Group> {
    var i := IndexOfRule(groups, row.rule);
    if i < 0 then groups + [Group(row.rule, [row])]
    else if NamesCode(groups[i].rows, row.code) then groups
    else groups[i := Group(row.rule, groups[i].rows + [row])]
  }

  function Collect(entries: seq<Entry>, fires: Fires, date: string, batch: int): seq<Group> {
    if entries == [] then []
    else
      var groups, e := Collect(entries[..|entries| - 1], fires, date, batch), entries[|entries| - 1];
      match fires(e.rule, e.code)
      case None => groups
      case Some(f) => AddRow(groups, RowOf(e, f, date, batch))
  }

  /** The scan loop over the entries. */
  method CollectPending(entries: seq<Entry>, fires: Fires, date: string, batch: int) returns (pending: seq<Group>)
    ensures pending == Collect(entries, fires, date, batch)
  {
    pending := [];
    for k := 0 to |entries|
      invariant pending == Collect(entries[..k], fires, date, batch)
    {
      var e := entries[k];
      assert entries[..k + 1][..k] == entries[..k];
      var firing := fires(e.rule, e.code);
      if firing.None? {
        continue;
      }
      var row := RowOf(e, firing.value, date, batch);
      var i := IndexOfRule(pending, row.rule);
      if i < 0 {
        pending := pending + [Group(row.rule, [row])];
      } else if !NamesCode(pending[i].rows, row.code) {
        pending := pending[i := Group(row.rule, pending[i].rows + [row])];
      }
    }
    assert entries[..|entries|] == entries;
  }

  ghost predicate CodesDiffer(rows: seq<Row>) {
    forall i, j | 0 <= i < j < |rows| :: rows[i].code != rows[j].code
  }

  ghost predicate GroupOk(g: Group, date: string, batch: int) {
    && CodesDiffer(g.rows)
    && forall r | r in g.rows :: r.rule == g.rule && r.date == date && r.batch == batch
  }

  ghost predicate RulesDiffer(groups: seq<Group>) {
    forall i, j | 0 <= i < j < |groups| :: groups[i].rule != groups[j].rule
  }

  ghost predicate GroupsOk(groups: seq<Group>, date: string, batch: int) {
    RulesDiffer(groups) && forall i | 0 <= i < |groups| :: GroupOk(groups[i], date, batch)
  }

  lemma AddRowOk(groups: seq<Group>, row: Row)
    requires GroupsOk(groups, row.date, row.batch)
    ensures GroupsOk(AddRow(groups, row), row.date, row.batch)
  {
    hide IndexOfRule;
    var i, after := IndexOfRule(groups, row.rule), AddRow(groups, row);
    forall j | 0 <= j < |after| ensures GroupOk(after[j], row.date, row.batch) {
      if j < |groups| {
        assert GroupOk(groups[j], row.date, row.batch);
      }
    }
  }

  lemma {:induction false} CollectOk(entries: seq<Entry>, fires: Fires, date: string, batch: int)
    ensures GroupsOk(Collect(entries, fires, date, batch), date, batch)
  {
    if entries != [] {
      var init, e := entries[..|entries| - 1], entries[|entries| - 1];
      CollectOk(init, fires, date, batch);
      if fires(e.rule, e.code).Some? {
        AddRowOk(Collect(init, fires, date, batch), RowOf(e, fires(e.rule, e.code).value, date, batch));
      }
    }
  }

  function RowNamed(rows: seq<Row>, code: string): Option<Row> {
    if rows == [] then None
    else
      var before := RowNamed(rows[..|rows| - 1], code);
      if before.Some? then before else if rows[|rows| - 1].code == code then Some(rows[|rows| - 1]) else None
  }

  /** The pending row of a rule for a code. */
  function RowFor(groups: seq<Group>, rule: int, code: string): Option<Row> {
    var i := IndexOfRule(groups, rule);
    if i < 0 then None else RowNamed(groups[i].rows, code)
  }

  lemma {:induction false} RowNamedExists(rows: seq<Row>, code: string)
    ensures RowNamed(rows, code).Some? <==> NamesCode(rows, code)
  {
    if rows != [] {
      var n := |rows| - 1;
      RowNamedExists(rows[..n], code);
      assert forall i | 0 <= i < n :: rows[..n][i] == rows[i];
      if NamesCode(rows, code) && rows[n].code != code {
        var i :| 0 <= i < |rows| && rows[i].code == code;
        assert rows[..n][i].code == code;
      }
    }
  }

  lemma SameRuleIndex(groups: seq<Group>, i: nat, rule: int)
    requires RulesDiffer(groups) && i < |groups| && groups[i].rule == rule
    ensures IndexOfRule(groups, rule) == i
  {
  }

  lemma AddRowFor(groups: seq<Group>, row: Row, rule: int, code: string)
    requires RulesDiffer(groups)
    ensures RulesDiffer(AddRow(groups, row))
    ensures RowFor(AddRow(groups, row), rule, code) ==
            if RowFor(groups, rule, code).None? && row.rule == rule && row.code == code then Some(row)
            else RowFor(groups, rule, code)
  {
    hide IndexOfRule;
    var after, i := AddRow(groups, row), IndexOfRule(groups, row.rule);
    if row.rule == rule {
      if i < 0 {
        SameRuleIndex(after, |groups|, rule);
        assert [row][..0] == [];
        assert RowNamed([row], code) == if row.code == code then Some(row) else None;
      } else {
        SameRuleIndex(after, i, rule);
        RowNamedExists(groups[i].rows, code);
        RowNamedExists(groups[i].rows, row.code);
        assert (groups[i].rows + [row])[..|groups[i].rows|] == groups[i].rows;
      }
    } else {
      var j := IndexOfRule(groups, rule);
      if j >= 0 {
        SameRuleIndex(after, j, rule);
      }
    }
  }

  /** What is collected for a rule and a code comes from the first entry for them, if they fire. */
  lemma {:induction false} CollectKeepsFirst(entries: seq<Entry>, fires: Fires, date: string, batch: int, rule: int, code: string)
    requires OneRulePerId(entries)
    ensures RowFor(Collect(entries, fires, date, batch), rule, code) ==
            match FirstFor(entries, rule, code)
            case None => None
            case Some(e) =>
              match fires(e.rule, code)
              case None => None
              case Some(f) =>
                Some(Row(rule, code, date, f.value, if e.stockName.Some? then e.stockName else f.stockName, e.source, batch))
    decreases entries
  {
    if entries != [] {
      var init, e := entries[..|entries| - 1], entries[|entries| - 1];
      CollectKeepsFirst(init, fires, date, batch, rule, code);
      CollectOk(init, fires, date, batch);
      FirstForMember(init, rule, code);
      var groups := Collect(init, fires, date, batch);
      if fires(e.rule, e.code).Some? {
        AddRowFor(groups, RowOf(e, fires(e.rule, e.code).value, date, batch), rule, code);
      }
    }
  }

  lemma ExpandOneRulePerId(rules: seq<Rule>, watch: seq<WatchRow>, held: seq<HoldingRow>)
    requires IdsDiffer(rules)
    ensures OneRulePerId(Expand(rules, watch, held))
  {
    forall e, f | e in Expand(rules, watch, held) && f in Expand(rules, watch, held) && e.rule.id == f.rule.id
      ensures e.rule == f.rule
    {
      ExpandedRules(rules, watch, held, e);
      ExpandedRules(rules, watch, held, f);
    }
  }

  // ---------------------------------------------------------------- what the rows say

  /** The rule names a watchlist on which the code is. */
  predicate ListedBy(rule: Rule, watch: seq<WatchRow>, code: string) {
    rule.watchlist.Some? && rule.watchlist.value != 0 && WatchRow(rule.watchlist.value, code) in watch
  }

  /** Row `i` is the first with which the portfolio of the rule holds the code. */
  predicate HeldFirst(rule: Rule, held: seq<HoldingRow>, code: string, i: int) {
    && 0 <= i < |held| && rule.portfolio == Some(held[i].portfolio) && held[i].portfolio != "" && held[i].code == code
    && forall j | 0 <= j < i :: held[j].portfolio != held[i].portfolio || held[j].code != code
  }

  /**
   * What a row says of how its rule reaches its code: directly if the rule names the code, else through its watchlist,
   * else through its portfolio; and the name of the stock that goes with it, or else the one of the firing.
   */
  ghost predicate SaysSource(r: Row, rule: Rule, watch: seq<WatchRow>, held: seq<HoldingRow>, f: Firing) {
    if r.code != "" && rule.code == Some(r.code) then
      r.source == Direct && r.stockName == if rule.stockName.Some? then rule.stockName else f.stockName
    else if ListedBy(rule, watch, r.code) then
      r.source == FromWatchlist(rule.watchlist.value) && r.stockName == f.stockName
    else
      exists i :: HeldFirst(rule, held, r.code, i) && r.source == FromPortfolio(held[i].portfolio) && r.stockName == Some(held[i].stockName)
  }

  /** The row a scan has to record for a rule that reaches a code and fires there. */
  ghost predicate ToRecord(r: Row, rule: Rule, watch: seq<WatchRow>, held: seq<HoldingRow>, fires: Fires, date: string, batch: int) {
    && r.rule == rule.id && r.date == date && r.batch == batch
    && fires(rule, r.code).Some? && r.value == fires(rule, r.code).value.value
    && SaysSource(r, rule, watch, held, fires(rule, r.code).value)
  }

  predicate IsPending(groups: seq<Group>, r: Row) {
    exists i | 0 <= i < |groups| :: r in groups[i].rows
  }

  lemma {:induction false} RowNamedIn(rows: seq<Row>, r: Row)
    requires CodesDiffer(rows)
    ensures RowNamed(rows, r.code) == Some(r) <==> r in rows
  {
    if rows != [] {
      var n := |rows| - 1;
      RowNamedIn(rows[..n], r);
      RowNamedExists(rows[..n], r.code);
      assert rows == rows[..n] + [rows[n]];
      if r in rows[..n] {
        var i :| 0 <= i < n && rows[..n][i] == r;
        assert rows[i].code != rows[n].code;
      }
    }
  }

  lemma PendingIsRowFor(groups: seq<Group>, date: string, batch: int, r: Row)
    requires GroupsOk(groups, date, batch)
    ensures IsPending(groups, r) <==> RowFor(groups, r.rule, r.code) == Some(r)
  {
    hide IndexOfRule, RowNamed;
    var k := IndexOfRule(groups, r.rule);
    if IsPending(groups, r) {
      var i :| 0 <= i < |groups| && r in groups[i].rows;
      assert GroupOk(groups[i], date, batch);
      SameRuleIndex(groups, i, r.rule);
    }
    if k >= 0 {
      assert GroupOk(groups[k], date, batch);
      RowNamedIn(groups[k].rows, r);
    }
  }

  lemma {:induction false} FirstStockSnoc(stocks: seq<WatchRow>, last: WatchRow, code: string)
    ensures FirstStock(stocks + [last], code) ==
            if FirstStock(stocks, code).Some? then FirstStock(stocks, code) else if last.code == code then Some(last) else None
  {
    if stocks != [] {
      FirstStockSnoc(stocks[1..], last, code);
      assert (stocks + [last])[1..] == stocks[1..] + [last];
    }
  }

  lemma {:induction false} StockFound(watch: seq<WatchRow>, id: int, code: string)
    ensures var found := FirstStock(Stocks(watch, id), code);
            (found.Some? <==> WatchRow(id, code) in watch) && (found.Some? ==> found.value == WatchRow(id, code))
  {
    if watch != [] {
      var n := |watch| - 1;
      StockFound(watch[..n], id, code);
      assert watch == watch[..n] + [watch[n]];
      FirstStockSnoc(Stocks(watch[..n], id), watch[n], code);
      assert Stocks(watch[..n], id) + [] == Stocks(watch[..n], id);
    }
  }

  lemma {:induction false} FirstHoldingSnoc(holdings: seq<HoldingRow>, last: HoldingRow, code: string)
    ensures FirstHolding(holdings + [last], code) ==
            if FirstHolding(holdings, code).Some? then FirstHolding(holdings, code) else if last.code == code then Some(last) else None
  {
    if holdings != [] {
      FirstHoldingSnoc(holdings[1..], last, code);
      assert (holdings + [last])[1..] == holdings[1..] + [last];
    }
  }

  lemma {:induction false} HoldingFound(rule: Rule, held: seq<HoldingRow>, code: string)
    requires rule.portfolio.Some? && rule.portfolio.value != ""
    ensures var found := FirstHolding(Holdings(held, rule.portfolio.value), code);
            && (found.Some? ==> exists i :: HeldFirst(rule, held, code, i) && held[i] == found.value)
            && (found.None? ==> forall i :: !HeldFirst(rule, held, code, i))
            && (found.None? ==> forall i | 0 <= i < |held| :: held[i].portfolio != rule.portfolio.value || held[i].code != code)
  {
    if held != [] {
      var n, p := |held| - 1, rule.portfolio.value;
      HoldingFound(rule, held[..n], code);
      FirstHoldingSnoc(Holdings(held[..n], p), held[n], code);
      assert Holdings(held[..n], p) + [] == Holdings(held[..n], p);
      var before := FirstHolding(Holdings(held[..n], p), code);
      hide FirstHolding;
      if before.Some? {
        var i :| HeldFirst(rule, held[..n], code, i) && held[..n][i] == before.value;
        assert HeldFirst(rule, held, code, i);
      } else {
        assert forall i | 0 <= i < n :: held[..n][i] == held[i];
        if held[n].portfolio == p && held[n].code == code {
          assert HeldFirst(rule, held, code, n);
        }
      }
    }
  }

  lemma HeldFirstOnce(rule: Rule, held: seq<HoldingRow>, code: string, i: int, j: int)
    requires HeldFirst(rule, held, code, i) && HeldFirst(rule, held, code, j)
    ensures i == j
  {
  }

  /** The row of the entry with which a rule reaches a code is the one to record. */
  lemma ReachedIsRecorded(rule: Rule, watch: seq<WatchRow>, held: seq<HoldingRow>, fires: Fires, date: string, batch: int, r: Row)
    requires r.rule == rule.id && r.date == date && r.batch == batch
    ensures var e := Reached(rule, watch, held, r.code);
            var f := fires(rule, r.code);
            ToRecord(r, rule, watch, held, fires, date, batch) <==>
            e.Some? && f.Some? && r == RowOf(e.value, f.value, date, batch)
  {
    if rule.watchlist.Some? {
      StockFound(watch, rule.watchlist.value, r.code);
    }
    if rule.portfolio.Some? && rule.portfolio.value != "" {
      HoldingFound(rule, held, r.code);
      forall i, j | HeldFirst(rule, held, r.code, i) && HeldFirst(rule, held, r.code, j) ensures i == j {
        HeldFirstOnce(rule, held, r.code, i, j);
      }
    }
    hide Stocks, Holdings, FirstStock, FirstHolding;
  }

  /** If the entries reach each code as the rule does, what is collected for the rule is what is to be recorded. */
  lemma CollectsToRecord(entries: seq<Entry>, rule: Rule, watch: seq<WatchRow>, held: seq<HoldingRow>,
                         fires: Fires, date: string, batch: int, r: Row)
    requires OneRulePerId(entries) && r.rule == rule.id
    requires FirstFor(entries, rule.id, r.code) == Reached(rule, watch, held, r.code)
    ensures IsPending(Collect(entries, fires, date, batch), r) <==> ToRecord(r, rule, watch, held, fires, date, batch)
  {
    var groups := Collect(entries, fires, date, batch);
    CollectOk(entries, fires, date, batch);
    PendingIsRowFor(groups, date, batch, r);
    CollectKeepsFirst(entries, fires, date, batch, rule.id, r.code);
    ReachedRule(rule, watch, held, r.code);
    if r.date == date && r.batch == batch {
      ReachedIsRecorded(rule, watch, held, fires, date, batch, r);
    }
    hide Collect, Reached, IsPending, RowFor, SaysSource;
  }

  lemma ReachedRule(rule: Rule, watch: seq<WatchRow>, held: seq<HoldingRow>, code: string)
    ensures Reached(rule, watch, held, code).Some? ==>
              Reached(rule, watch, held, code).value.rule == rule && Reached(rule, watch, held, code).value.code == code
  {
  }

  /**
   * A price scan sets out to record, for a rule, exactly the rows that say how the rule reaches a code and what fired
   * there: directly, else through its watchlist, else through its portfolio; one row for each code.
   */
  lemma PriceScanRecordsSource(rules: seq<Rule>, watch: seq<WatchRow>, held: seq<HoldingRow>,
                               fires: Fires, date: string, batch: int, rule: Rule, r: Row)
    requires IdsDiffer(rules) && rule in rules && r.rule == rule.id
    ensures IsPending(Collect(Expand(rules, watch, held), fires, date, batch), r) <==>
            ToRecord(r, rule, watch, held, fires, date, batch)
  {
    ExpandOneRulePerId(rules, watch, held);
    ExpansionPrecedence(rules, watch, held, rule, r.code);
    CollectsToRecord(Expand(rules, watch, held), rule, watch, held, fires, date, batch, r);
  }

  lemma WindowIsValid(rule: Rule)
    ensures ValidWindow(rule) <==>
            rule.threshold == Some(0.0) || rule.threshold == Some(1.0) || rule.threshold == Some(3.0) || rule.threshold == Some(7.0)
  {
  }

  /**
   * So does an event scan, for the rules whose window is 0, 1, 3 or 7 days; for the others it records nothing. Going
   * window by window changes nothing else.
   */
  lemma EventScanRecordsSource(rules: seq<Rule>, watch: seq<WatchRow>, held: seq<HoldingRow>,
                               fires: Fires, date: string, batch: int, rule: Rule, r: Row)
    requires IdsDiffer(rules) && rule in rules && r.rule == rule.id
    ensures IsPending(Collect(Flatten(ByWindow(Expand(rules, watch, held))), fires, date, batch), r) <==>
            && (rule.threshold == Some(0.0) || rule.threshold == Some(1.0) || rule.threshold == Some(3.0) || rule.threshold == Some(7.0))
            && ToRecord(r, rule, watch, held, fires, date, batch)
  {
    var entries := Expand(rules, watch, held);
    var flat := Flatten(ByWindow(entries));
    ExpandOneRulePerId(rules, watch, held);
    FlattenedMembers(entries);
    WindowsKeepFirst(entries, rule.id, r.code);
    ExpansionPrecedence(rules, watch, held, rule, r.code);
    ReachedRule(rule, watch, held, r.code);
    WindowIsValid(rule);
    hide Expand, ByWindow, Flatten, Reached, ToRecord, IsPending, ValidWindow;
    if ValidWindow(rule) {
      CollectsToRecord(flat, rule, watch, held, fires, date, batch, r);
    } else {
      CollectOk(flat, fires, date, batch);
      PendingIsRowFor(Collect(flat, fires, date, batch), date, batch, r);
      CollectKeepsFirst(flat, fires, date, batch, rule.id, r.code);
    }
  }

  lemma {:induction false} FlattenMember(groups: seq<WindowGroup>, e: Entry)
    requires e in Flatten(groups)
    ensures exists i | 0 <= i < |groups| :: e in groups[i].entries
  {
    var n := |groups| - 1;
    if e in Flatten(groups[..n]) {
      FlattenMember(groups[..n], e);
      var i :| 0 <= i < n && e in groups[..n][i].entries;
      assert e in groups[i].entries;
    }
  }

  lemma FlattenedMembers(entries: seq<Entry>)
    ensures forall e | e in Flatten(ByWindow(entries)) :: e in entries
  {
    ByWindowGroups(entries);
    forall e | e in Flatten(ByWindow(entries)) ensures e in entries {
      FlattenMember(ByWindow(entries), e);
      var i :| 0 <= i < |ByWindow(entries)| && e in ByWindow(entries)[i].entries;
      WithWindowMembers(entries, ByWindow(entries)[i].window, e);
    }
  }

  // ---------------------------------------------------------------- one transaction

  predicate HasKey(history: seq<Row>, key: Key) {
    exists i | 0 <= i < |history| :: KeyOf(history[i]) == key
  }

  /** `createMany` with `skipDuplicates`: a row whose key exists is skipped. */
  function InsertSkipping(history: seq<Row>, rows: seq<Row>): seq<Row> {
    if rows == [] then history
    else
      var h, row := InsertSkipping(history, rows[..|rows| - 1]), rows[|rows| - 1];
      if HasKey(h, KeyOf(row)) then h else h + [row]
  }

  /** Whether the table holds a row of this rule, date, batch and code. */
  predicate CreatedCode(history: seq<Row>, rule: int, date: string, batch: int, code: string) {
    exists i | 0 <= i < |history| ::
      history[i].rule == rule && history[i].date == date && history[i].batch == batch && history[i].code == code
  }

  function CreatedRows(after: seq<Row>, rows: seq<Row>, rule: int, date: string, batch: int): seq<Row> {
    if rows == [] then []
    else
      var row := rows[|rows| - 1];
      CreatedRows(after, rows[..|rows| - 1], rule, date, batch)
      + if CreatedCode(after, rule, date, batch, row.code) then [row] else []
  }

  /** The rows whose keys the table does not hold yet. */
  function NewRows(history: seq<Row>, rows: seq<Row>): seq<Row> {
    if rows == [] then []
    else
      var row := rows[|rows| - 1];
      NewRows(history, rows[..|rows| - 1]) + if HasKey(history, KeyOf(row)) then [] else [row]
  }

  function Count(counts: map<int, nat>, rule: int): nat {
    if rule in counts then counts[rule] else 0
  }

  /** What one transaction leaves behind. */
  datatype Committed = Committed(history: seq<Row>, counts: map<int, nat>, created: seq<Row>)

  function Transaction(history: seq<Row>, counts: map<int, nat>, g: Group, date: string, batch: int): Committed {
    var after := InsertSkipping(history, g.rows);
    if |after| == |history| then Committed(after, counts, [])
    else
      var created := CreatedRows(after, g.rows, g.rule, date, batch);
      if created == [] then Committed(after, counts, [])
      else Committed(after, counts[g.rule := Count(counts, g.rule) + 1], created)
  }

  /** The unique index of the table. */
  ghost predicate KeysDiffer(rows: seq<Row>) {
    forall i, j | 0 <= i < j < |rows| :: KeyOf(rows[i]) != KeyOf(rows[j])
  }

  /** No row of this rule carries the batch yet. */
  ghost predicate BatchUnused(history: seq<Row>, rule: int, batch: int) {
    forall r | r in history :: r.rule != rule || r.batch != batch
  }

  lemma {:induction false} NewRowsMember(history: seq<Row>, rows: seq<Row>, r: Row)
    ensures r in NewRows(history, rows) <==> r in rows && !HasKey(history, KeyOf(r))
  {
    if rows != [] {
      var n := |rows| - 1;
      NewRowsMember(history, rows[..n], r);
      assert rows == rows[..n] + [rows[n]];
    }
  }

  lemma HasKeyJoin(a: seq<Row>, b: seq<Row>, key: Key)
    ensures HasKey(a + b, key) <==> HasKey(a, key) || HasKey(b, key)
  {
    if HasKey(a, key) {
      var i :| 0 <= i < |a| && KeyOf(a[i]) == key;
      assert KeyOf((a + b)[i]) == key;
    }
    if HasKey(b, key) {
      var i :| 0 <= i < |b| && KeyOf(b[i]) == key;
      assert KeyOf((a + b)[|a| + i]) == key;
    }
  }

  lemma {:induction false} InsertAppendsNew(history: seq<Row>, rows: seq<Row>)
    requires KeysDiffer(rows)
    ensures InsertSkipping(history, rows) == history + NewRows(history, rows)
  {
    if rows != [] {
      var n := |rows| - 1;
      var init, row := rows[..n], rows[n];
      InsertAppendsNew(history, init);
      HasKeyJoin(history, NewRows(history, init), KeyOf(row));
      var added := NewRows(history, init);
      forall i | 0 <= i < |added| ensures KeyOf(added[i]) != KeyOf(row) {
        NewRowsMember(history, init, added[i]);
        var j :| 0 <= j < |init| && init[j] == added[i];
        assert KeyOf(rows[j]) != KeyOf(rows[n]);
      }
    }
  }

  lemma GroupKeysDiffer(g: Group, date: string, batch: int)
    requires GroupOk(g, date, batch)
    ensures KeysDiffer(g.rows)
  {
  }

  lemma {:induction false} CreatedAreNew(history: seq<Row>, after: seq<Row>, rows: seq<Row>, g: Group, date: string, batch: int)
    requires rows <= g.rows && GroupOk(g, date, batch) && BatchUnused(history, g.rule, batch)
    requires after == history + NewRows(history, g.rows)
    ensures CreatedRows(after, rows, g.rule, date, batch) == NewRows(history, rows)
    decreases rows
  {
    if rows != [] {
      var n := |rows| - 1;
      CreatedAreNew(history, after, rows[..n], g, date, batch);
      CodeCreatedIfNew(history, after, rows[n], g, date, batch);
    }
  }

  lemma CodeCreatedIfNew(history: seq<Row>, after: seq<Row>, row: Row, g: Group, date: string, batch: int)
    requires row in g.rows && GroupOk(g, date, batch) && BatchUnused(history, g.rule, batch)
    requires after == history + NewRows(history, g.rows)
    ensures CreatedCode(after, g.rule, date, batch, row.code) <==> !HasKey(history, KeyOf(row))
  {
    var added := NewRows(history, g.rows);
    NewRowsMember(history, g.rows, row);
    if row in added {
      var i :| 0 <= i < |added| && added[i] == row;
      assert after[|history| + i].code == row.code;
    }
    if CreatedCode(after, g.rule, date, batch, row.code) {
      var i :| 0 <= i < |after| && after[i].rule == g.rule && after[i].date == date && after[i].batch == batch && after[i].code == row.code;
      assert forall k | 0 <= k < |history| :: after[k] == history[k] && history[k] in history;
      assert i >= |history|;
      var r := added[i - |history|];
      NewRowsMember(history, g.rows, r);
      assert r == row;
    }
  }

  lemma KeyTaken(history: seq<Row>, r: Row)
    ensures HasKey(history, KeyOf(r)) <==> exists h | h in history :: h.rule == r.rule && h.date == r.date && h.code == r.code
  {
    if h :| h in history && h.rule == r.rule && h.date == r.date && h.code == r.code {
      var i :| 0 <= i < |history| && history[i] == h;
      assert KeyOf(history[i]) == KeyOf(r);
    }
  }

  /**
   * A transaction appends exactly the rows whose keys are new, reports exactly those, and counts one more
   * trigger for the rule exactly when there are any.
   */
  lemma TransactionRecordsNewRows(history: seq<Row>, counts: map<int, nat>, g: Group, date: string, batch: int)
    requires GroupOk(g, date, batch) && BatchUnused(history, g.rule, batch)
    ensures var created := NewRows(history, g.rows);
            && Transaction(history, counts, g, date, batch) ==
               Committed(history + created, if created == [] then counts else counts[g.rule := Count(counts, g.rule) + 1], created)
            && forall r :: r in created <==>
                 r in g.rows && forall h | h in history :: h.rule != r.rule || h.date != r.date || h.code != r.code
  {
    forall r ensures r in NewRows(history, g.rows) <==>
                     r in g.rows && forall h | h in history :: h.rule != r.rule || h.date != r.date || h.code != r.code
    {
      NewRowsMember(history, g.rows, r);
      KeyTaken(history, r);
    }
    GroupKeysDiffer(g, date, batch);
    InsertAppendsNew(history, g.rows);
    CreatedAreNew(history, InsertSkipping(history, g.rows), g.rows, g, date, batch);
  }
}
