/** The two alert tables and the notifications, as the persist loop of a scan updates them. */
module AlertStore {
  import opened AlertEntries
  import opened AlertScans

  function AllRows(groups: seq<Group>): seq<Row> {
    if groups == [] then [] else AllRows(groups[..|groups| - 1]) + groups[|groups| - 1].rows
  }

  /** The rules with at least one new row. */
  function TriggeredRules(rows: seq<Row>): set<int> {
    set r | r in rows :: r.rule
  }

  lemma {:induction false} NewRowsJoin(history: seq<Row>, a: seq<Row>, b: seq<Row>)
    ensures NewRows(history, a + b) == NewRows(history, a) + NewRows(history, b)
    decreases b
  {
    if b == [] {
      assert a + b == a;
    } else {
      var n := |b| - 1;
      assert (a + b)[..|a + b| - 1] == a + b[..n];
      NewRowsJoin(history, a, b[..n]);
    }
  }

  /** Rows of other rules do not make a row old. */
  lemma {:induction false} OtherRulesIgnored(history: seq<Row>, added: seq<Row>, rows: seq<Row>)
    requires forall a, r | a in added && r in rows :: a.rule != r.rule
    ensures NewRows(history + added, rows) == NewRows(history, rows)
    decreases rows
  {
    if rows != [] {
      var n := |rows| - 1;
      OtherRulesIgnored(history, added, rows[..n]);
      var key := KeyOf(rows[n]);
      HasKeyJoin(history, added, key);
      forall i | 0 <= i < |added| ensures KeyOf(added[i]) != key {
        assert added[i] in added && rows[n] in rows;
      }
    }
  }

  lemma {:induction false} AllRowsMember(groups: seq<Group>, date: string, batch: int, r: Row)
    requires (forall i | 0 <= i < |groups| :: GroupOk(groups[i], date, batch)) && r in AllRows(groups)
    ensures exists i | 0 <= i < |groups| :: r.rule == groups[i].rule
    decreases groups
  {
    var n := |groups| - 1;
    if r in AllRows(groups[..n]) {
      AllRowsMember(groups[..n], date, batch, r);
      var i :| 0 <= i < n && r.rule == groups[..n][i].rule;
      assert r.rule == groups[i].rule;
    } else {
      assert GroupOk(groups[n], date, batch);
    }
  }

  /** Writing rule `i` after the rules before it. */
  lemma NextGroup(history: seq<Row>, groups: seq<Group>, i: nat, date: string, batch: int)
    requires i < |groups| && GroupsOk(groups, date, batch)
    ensures var done := NewRows(history, AllRows(groups[..i]));
            && NewRows(history + done, groups[i].rows) == NewRows(history, groups[i].rows)
            && NewRows(history, AllRows(groups[..i + 1])) == done + NewRows(history, groups[i].rows)
            && (forall r | r in done :: r.rule != groups[i].rule)
            && (forall r | r in NewRows(history, groups[i].rows) :: r.rule == groups[i].rule)
  {
    var done := NewRows(history, AllRows(groups[..i]));
    forall r | r in done ensures r.rule != groups[i].rule {
      NewRowsMember(history, AllRows(groups[..i]), r);
      AllRowsMember(groups[..i], date, batch, r);
    }
    forall r | r in NewRows(history, groups[i].rows) ensures r.rule == groups[i].rule {
      NewRowsMember(history, groups[i].rows, r);
      assert GroupOk(groups[i], date, batch);
    }
    assert GroupOk(groups[i], date, batch);
    OtherRulesIgnored(history, done, groups[i].rows);
    assert groups[..i + 1][..i] == groups[..i];
    NewRowsJoin(history, AllRows(groups[..i]), groups[i].rows);
  }

  class Store {
    var history: seq<Row>
    var counts: map<int, nat>
    var emitted: seq<Row>

    /** `createMany` with `skipDuplicates`, row by row against the unique index. */
    method CreateMany(rows: seq<Row>) returns (count: nat)
      modifies this`history
      ensures history == InsertSkipping(old(history), rows)
      ensures count == |history| - |old(history)|
    {
      count := 0;
      for i := 0 to |rows|
        invariant history == InsertSkipping(old(history), rows[..i])
        invariant count == |history| - |old(history)|
      {
        assert rows[..i + 1][..i] == rows[..i];
        if !HasKey(history, KeyOf(rows[i])) {
          history := history + [rows[i]];
          count := count + 1;
        }
      }
      assert rows[..|rows|] == rows;
    }

    /** The candidates whose code the re-read finds under this rule, date and batch. */
    method FilterCreated(g: Group, date: string, batch: int) returns (created: seq<Row>)
      ensures created == CreatedRows(history, g.rows, g.rule, date, batch)
    {
      created := [];
      for i := 0 to |g.rows|
        invariant created == CreatedRows(history, g.rows[..i], g.rule, date, batch)
      {
        assert g.rows[..i + 1][..i] == g.rows[..i];
        if CreatedCode(history, g.rule, date, batch, g.rows[i].code) {
          created := created + [g.rows[i]];
        }
      }
      assert g.rows[..|g.rows|] == g.rows;
    }

    /** One transaction: records and reports exactly the rows whose keys are new, and counts them once. */
    method PersistRule(g: Group, date: string, batch: int) returns (created: seq<Row>)
      requires GroupOk(g, date, batch) && BatchUnused(history, g.rule, batch)
      modifies this`history, this`counts
      ensures created == NewRows(old(history), g.rows)
      ensures history == old(history) + created
      ensures counts == if created == [] then old(counts) else old(counts)[g.rule := Count(old(counts), g.rule) + 1]
    {
      TransactionRecordsNewRows(history, counts, g, date, batch);
      var count := CreateMany(g.rows);
      if count == 0 {
        return [];
      }
      created := FilterCreated(g, date, batch);
      if |created| > 0 {
        counts := counts[g.rule := Count(counts, g.rule) + 1];
      }
    }

    /**
     * The persist and notify loops of a scan nobody disturbs: every new row is recorded and notified, in the
     * order collected, and each rule with a new row is counted once and reported.
     */
    method PersistAndNotify(groups: seq<Group>, date: string, batch: int) returns (triggered: set<int>)
      requires GroupsOk(groups, date, batch) && forall r | r in history :: r.batch != batch
      modifies this
      ensures var added := NewRows(old(history), AllRows(groups));
              && history == old(history) + added
              && emitted == old(emitted) + added
              && triggered == TriggeredRules(added)
              && forall rule :: Count(counts, rule) == Count(old(counts), rule) + if rule in triggered then 1 else 0
    {
      hide NewRows, AllRows, InsertSkipping;
      triggered := {};
      var persisted: seq<Row> := [];
      NothingPersisted(history, groups);
      for i := 0 to |groups|
        invariant persisted == NewRows(old(history), AllRows(groups[..i]))
        invariant history == old(history) + persisted && emitted == old(emitted)
        invariant triggered == TriggeredRules(persisted)
        invariant forall rule :: Count(counts, rule) == Count(old(counts), rule) + if rule in triggered then 1 else 0
      {
        NextGroup(old(history), groups, i, date, batch);
        assert GroupOk(groups[i], date, batch);
        assert BatchUnused(history, groups[i].rule, batch);
        ghost var before := persisted;
        var created := PersistRule(groups[i], date, batch);
        if |created| > 0 {
          assert created[0] in created;
          triggered := triggered + {groups[i].rule};
          persisted := persisted + created;
          assert TriggeredRules(persisted) == TriggeredRules(before) + {groups[i].rule};
        }
      }
      assert groups[..|groups|] == groups;
      for i := 0 to |persisted|
        invariant emitted == old(emitted) + persisted[..i]
        invariant history == old(history) + persisted
        invariant forall rule :: Count(counts, rule) == Count(old(counts), rule) + if rule in triggered then 1 else 0
      {
        emitted := emitted + [persisted[i]];
      }
    }
  }

  lemma NothingPersisted(history: seq<Row>, groups: seq<Group>)
    ensures NewRows(history, AllRows(groups[..0])) == [] && TriggeredRules([]) == {}
  {
  }
}
