/** Runs of interleaved alert scans: what is recorded, counted and notified over any history. */
module AlertRuns {
  import opened Prelude
  import opened AlertEntries
  import opened AlertScans
  import Sorting

  /** A scan under way: the rules still to be written, and the rows its transactions created so far. */
  datatype Scan = Scan(date: string, left: seq<Group>, created: seq<Row>)

  /**
   * The two tables, the scans under way by batch id, and the notifications sent. `begun` remembers the keys
   * each scan set out to record, `finished` the scans that reached their notifications.
   */
  datatype State = State(history: seq<Row>, counts: map<int, nat>, scans: map<int, Scan>,
                         emitted: seq<Row>, begun: map<int, set<Key>>, finished: set<int>)

  /**
   * A scan collects its triggers, then runs one transaction per rule, then sends all its notifications at
   * once. It can fail, or its process crash, at any of these points.
   */
  datatype Event =
    | Begin(batch: int, date: string, entries: seq<Entry>, fires: Fires)
    | Commit(batch: int)
    | Finish(batch: int)
    | Abort(batch: int)

  function KeysOf(groups: seq<Group>): set<Key> {
    set i, r | 0 <= i < |groups| && r in groups[i].rows :: KeyOf(r)
  }

  /** Batch ids are random and never repeat. */
  function BeginScan(s: State, batch: int, date: string, groups: seq<Group>): State {
    if batch in s.begun then s
    else s.(scans := s.scans[batch := Scan(date, groups, [])], begun := s.begun[batch := KeysOf(groups)])
  }

  function CommitRule(s: State, batch: int): State {
    if batch !in s.scans || s.scans[batch].left == [] then s
    else
      var scan := s.scans[batch];
      var done := Transaction(s.history, s.counts, scan.left[0], scan.date, batch);
      s.(history := done.history, counts := done.counts,
         scans := s.scans[batch := Scan(scan.date, scan.left[1..], scan.created + done.created)])
  }

  function FinishScan(s: State, batch: int): State {
    if batch !in s.scans || s.scans[batch].left != [] then s
    else s.(scans := s.scans - {batch}, emitted := s.emitted + s.scans[batch].created, finished := s.finished + {batch})
  }

  function Step(s: State, e: Event): State {
    match e
    case Begin(batch, date, entries, fires) => BeginScan(s, batch, date, Collect(entries, fires, date, batch))
    case Commit(batch) => CommitRule(s, batch)
    case Finish(batch) => FinishScan(s, batch)
    case Abort(batch) => s.(scans := s.scans - {batch})
  }

  function Run(s: State, es: seq<Event>): State {
    if es == [] then s else Step(Run(s, es[..|es| - 1]), es[|es| - 1])
  }

  const START := State([], map[], map[], [], map[], {})

  ghost predicate Reachable(s: State) {
    exists es :: s == Run(START, es)
  }

  // ---------------------------------------------------------------- the invariant

  ghost predicate CreatedOk(history: seq<Row>, batch: int, created: seq<Row>) {
    Distinct(created) && forall r :: r in created <==> r in history && r.batch == batch
  }

  ghost predicate LeftUnused(history: seq<Row>, batch: int, left: seq<Group>) {
    forall i | 0 <= i < |left| :: BatchUnused(history, left[i].rule, batch)
  }

  ghost predicate ScanOk(history: seq<Row>, batch: int, scan: Scan) {
    GroupsOk(scan.left, scan.date, batch) && LeftUnused(history, batch, scan.left) && CreatedOk(history, batch, scan.created)
  }

  ghost predicate ScansOk(history: seq<Row>, scans: map<int, Scan>) {
    forall b | b in scans :: ScanOk(history, b, scans[b])
  }

  /** A batch id is begun before it is used, and never both under way and finished. */
  ghost predicate BatchesOk(history: seq<Row>, live: set<int>, begun: set<int>, finished: set<int>) {
    && live <= begun && finished <= begun && live !! finished
    && forall r | r in history :: r.batch in begun
  }

  /** Every row of a finished scan is notified exactly once, and no other row is. */
  ghost predicate EmittedOk(history: seq<Row>, emitted: seq<Row>, finished: set<int>) {
    Distinct(emitted) && forall r :: r in emitted <==> r in history && r.batch in finished
  }

  function BatchesOf(history: seq<Row>, rule: int): set<int> {
    set r | r in history && r.rule == rule :: r.batch
  }

  ghost predicate CountsOk(history: seq<Row>, counts: map<int, nat>) {
    forall rule :: Count(counts, rule) == |BatchesOf(history, rule)|
  }

  ghost predicate AllRecorded(history: seq<Row>, keys: set<Key>) {
    forall k | k in keys :: HasKey(history, k)
  }

  /** What a scan set out to record is recorded, except for the rules still to be written. */
  ghost predicate ProgressOk(history: seq<Row>, scans: map<int, Scan>, begun: map<int, set<Key>>, finished: set<int>) {
    && (forall b | b in finished && b in begun :: AllRecorded(history, begun[b]))
    && (forall b | b in scans && b in begun :: AllRecorded(history, begun[b] - KeysOf(scans[b].left)))
  }

  ghost predicate Inv(s: State) {
    && KeysDiffer(s.history)
    && ScansOk(s.history, s.scans)
    && BatchesOk(s.history, s.scans.Keys, s.begun.Keys, s.finished)
    && EmittedOk(s.history, s.emitted, s.finished)
    && CountsOk(s.history, s.counts)
    && ProgressOk(s.history, s.scans, s.begun, s.finished)
  }

  // ---------------------------------------------------------------- facts about new rows

  lemma {:induction false} NewRowsDiffer(history: seq<Row>, rows: seq<Row>)
    requires KeysDiffer(history) && KeysDiffer(rows)
    ensures KeysDiffer(history + NewRows(history, rows))
  {
    if rows != [] {
      var n := |rows| - 1;
      NewRowsDiffer(history, rows[..n]);
      var added, row := NewRows(history, rows[..n]), rows[n];
      if HasKey(history, KeyOf(row)) {
        assert NewRows(history, rows) == added;
      } else {
        var after := history + NewRows(history, rows);
        assert after == history + added + [row];
        forall i | 0 <= i < |history + added| ensures KeyOf((history + added)[i]) != KeyOf(row) {
          if i >= |history| {
            var r := added[i - |history|];
            NewRowsMember(history, rows[..n], r);
            var j :| 0 <= j < n && rows[..n][j] == r;
            assert KeyOf(rows[j]) != KeyOf(rows[n]);
          }
        }
        forall i, j | 0 <= i < j < |after| ensures KeyOf(after[i]) != KeyOf(after[j]) {
          assert after[i] == (history + added)[i];
        }
      }
    }
  }

  lemma NewRowsDistinct(history: seq<Row>, rows: seq<Row>)
    requires KeysDiffer(history) && KeysDiffer(rows)
    ensures Distinct(NewRows(history, rows))
  {
    NewRowsDiffer(history, rows);
    var added := NewRows(history, rows);
    forall i, j | 0 <= i < j < |added| ensures added[i] != added[j] {
      assert (history + added)[|history| + i] == added[i] && (history + added)[|history| + j] == added[j];
    }
  }

  /** The rows a transaction adds carry its rule and batch, and are not in the table yet. */
  ghost predicate Fresh(history: seq<Row>, added: seq<Row>, rule: int, batch: int) {
    forall r | r in added :: r.rule == rule && r.batch == batch && r !in history
  }

  lemma MemberHasKey(history: seq<Row>, r: Row)
    ensures r in history ==> HasKey(history, KeyOf(r))
  {
    if r in history {
      var i :| 0 <= i < |history| && history[i] == r;
      assert KeyOf(history[i]) == KeyOf(r);
    }
  }

  lemma NewRowsFresh(history: seq<Row>, g: Group, date: string, batch: int)
    requires GroupOk(g, date, batch)
    ensures Fresh(history, NewRows(history, g.rows), g.rule, batch)
  {
    forall r | r in NewRows(history, g.rows) ensures r.rule == g.rule && r.batch == batch && r !in history {
      NewRowsMember(history, g.rows, r);
      MemberHasKey(history, r);
    }
  }

  lemma NewRowsRecordAll(history: seq<Row>, rows: seq<Row>, r: Row)
    requires r in rows
    ensures HasKey(history + NewRows(history, rows), KeyOf(r))
  {
    var added := NewRows(history, rows);
    NewRowsMember(history, rows, r);
    if r in added {
      var i :| 0 <= i < |added| && added[i] == r;
      assert KeyOf(added[i]) == KeyOf(r);
    }
    HasKeyJoin(history, added, KeyOf(r));
  }

  // ---------------------------------------------------------------- commits keep the invariant, part by part

  lemma CommitKeepsOthers(history: seq<Row>, added: seq<Row>, rule: int, batch: int, b: int, scan: Scan)
    requires Fresh(history, added, rule, batch) && b != batch && ScanOk(history, b, scan)
    ensures ScanOk(history + added, b, scan)
  {
    forall r ensures r in scan.created <==> r in history + added && r.batch == b {
    }
    forall i | 0 <= i < |scan.left| ensures BatchUnused(history + added, scan.left[i].rule, b) {
      assert BatchUnused(history, scan.left[i].rule, b);
    }
  }

  lemma CommitKeepsOwn(history: seq<Row>, added: seq<Row>, batch: int, scan: Scan)
    requires scan.left != [] && Fresh(history, added, scan.left[0].rule, batch) && Distinct(added)
    requires ScanOk(history, batch, scan)
    ensures ScanOk(history + added, batch, Scan(scan.date, scan.left[1..], scan.created + added))
  {
    var rest, created := scan.left[1..], scan.created + added;
    forall i | 0 <= i < |rest| ensures BatchUnused(history + added, rest[i].rule, batch) {
      assert BatchUnused(history, scan.left[i + 1].rule, batch);
      assert scan.left[0].rule != scan.left[i + 1].rule;
    }
    forall r ensures r in created <==> r in history + added && r.batch == batch {
    }
    forall i, j | 0 <= i < j < |created| ensures created[i] != created[j] {
      if i < |scan.created| <= j {
        assert created[i] in scan.created && created[j] in added;
      }
    }
    forall i | 0 <= i < |rest| ensures GroupOk(rest[i], scan.date, batch) {
      assert GroupOk(scan.left[i + 1], scan.date, batch);
    }
  }

  lemma CommitKeepsEmitted(history: seq<Row>, added: seq<Row>, rule: int, batch: int, emitted: seq<Row>, finished: set<int>)
    requires EmittedOk(history, emitted, finished) && Fresh(history, added, rule, batch) && batch !in finished
    ensures EmittedOk(history + added, emitted, finished)
  {
    forall r ensures r in emitted <==> r in history + added && r.batch in finished {
    }
  }

  lemma CommitKeepsCounts(history: seq<Row>, added: seq<Row>, rule: int, batch: int, counts: map<int, nat>)
    requires CountsOk(history, counts) && Fresh(history, added, rule, batch) && BatchUnused(history, rule, batch)
    ensures CountsOk(history + added, if added == [] then counts else counts[rule := Count(counts, rule) + 1])
  {
    if added == [] {
      assert history + added == history;
    } else {
      var counts' := counts[rule := Count(counts, rule) + 1];
      forall other ensures Count(counts', other) == |BatchesOf(history + added, other)| {
        assert Count(counts, other) == |BatchesOf(history, other)|;
        if other == rule {
          assert added[0] in added;
          assert BatchesOf(history + added, rule) == BatchesOf(history, rule) + {batch};
          assert batch !in BatchesOf(history, rule);
        } else {
          assert BatchesOf(history + added, other) == BatchesOf(history, other);
        }
      }
    }
  }

  lemma RecordedGrows(history: seq<Row>, added: seq<Row>, keys: set<Key>)
    requires AllRecorded(history, keys)
    ensures AllRecorded(history + added, keys)
  {
    forall k | k in keys ensures HasKey(history + added, k) {
      HasKeyJoin(history, added, k);
    }
  }

  lemma CommitProgresses(history: seq<Row>, left: seq<Group>, keys: set<Key>)
    requires left != [] && AllRecorded(history, keys - KeysOf(left))
    ensures AllRecorded(history + NewRows(history, left[0].rows), keys - KeysOf(left[1..]))
  {
    var added := NewRows(history, left[0].rows);
    RecordedGrows(history, added, keys - KeysOf(left));
    KeysOfTail(left);
    forall k | k in keys - KeysOf(left[1..]) ensures HasKey(history + added, k) {
      if k in KeysOf(left) {
        var i: nat, r :| i < |left| && r in left[i].rows && k == KeyOf(r);
        assert i == 0;
        NewRowsRecordAll(history, left[0].rows, r);
      }
    }
  }

  lemma KeysOfTail(left: seq<Group>)
    requires left != []
    ensures forall i: nat, r | 0 < i < |left| && r in left[i].rows :: KeyOf(r) in KeysOf(left[1..])
  {
    forall i: nat, r | 0 < i < |left| && r in left[i].rows ensures KeyOf(r) in KeysOf(left[1..]) {
      assert r in left[1..][i - 1].rows;
    }
  }

  lemma CommitKeepsProgress(s: State, batch: int, scans: map<int, Scan>)
    requires ProgressOk(s.history, s.scans, s.begun, s.finished) && batch in s.scans && s.scans[batch].left != []
    requires scans.Keys == s.scans.Keys && scans[batch].left == s.scans[batch].left[1..]
    requires forall b | b in scans && b != batch :: scans[b] == s.scans[b]
    ensures ProgressOk(s.history + NewRows(s.history, s.scans[batch].left[0].rows), scans, s.begun, s.finished)
  {
    var added := NewRows(s.history, s.scans[batch].left[0].rows);
    forall b | b in s.finished && b in s.begun ensures AllRecorded(s.history + added, s.begun[b]) {
      RecordedGrows(s.history, added, s.begun[b]);
    }
    forall b | b in scans && b in s.begun ensures AllRecorded(s.history + added, s.begun[b] - KeysOf(scans[b].left)) {
      if b == batch {
        CommitProgresses(s.history, s.scans[b].left, s.begun[b]);
      } else {
        RecordedGrows(s.history, added, s.begun[b] - KeysOf(scans[b].left));
      }
    }
  }

  /** A commit in short: exactly the new rows of the next rule are recorded and counted. */
  lemma CommitRecordsNewRows(s: State, batch: int)
    requires ScansOk(s.history, s.scans) && batch in s.scans && s.scans[batch].left != []
    ensures var scan := s.scans[batch];
            var g := scan.left[0];
            var added := NewRows(s.history, g.rows);
            CommitRule(s, batch) ==
              s.(history := s.history + added,
                 counts := if added == [] then s.counts else s.counts[g.rule := Count(s.counts, g.rule) + 1],
                 scans := s.scans[batch := Scan(scan.date, scan.left[1..], scan.created + added)])
  {
    var scan := s.scans[batch];
    assert ScanOk(s.history, batch, scan);
    assert GroupOk(scan.left[0], scan.date, batch) && BatchUnused(s.history, scan.left[0].rule, batch);
    TransactionRecordsNewRows(s.history, s.counts, scan.left[0], scan.date, batch);
  }

  lemma CommitKeepsInv(s: State, batch: int)
    requires Inv(s)
    ensures Inv(CommitRule(s, batch))
  {
    if batch in s.scans && s.scans[batch].left != [] {
      CommitRecordsNewRows(s, batch);
      var scan := s.scans[batch];
      assert ScanOk(s.history, batch, scan);
      var g := scan.left[0];
      assert GroupOk(g, scan.date, batch) && BatchUnused(s.history, g.rule, batch);
      var added := NewRows(s.history, g.rows);
      var s' := CommitRule(s, batch);
      GroupKeysDiffer(g, scan.date, batch);
      NewRowsFresh(s.history, g, scan.date, batch);
      NewRowsDistinct(s.history, g.rows);
      NewRowsDiffer(s.history, g.rows);
      CommitKeepsEmitted(s.history, added, g.rule, batch, s.emitted, s.finished);
      CommitKeepsCounts(s.history, added, g.rule, batch, s.counts);
      CommitKeepsProgress(s, batch, s'.scans);
      CommitKeepsScans(s, batch, added);
      CommitKeepsBatches(s, batch, added);
    }
  }

  lemma CommitKeepsScans(s: State, batch: int, added: seq<Row>)
    requires ScansOk(s.history, s.scans) && batch in s.scans && s.scans[batch].left != []
    requires Fresh(s.history, added, s.scans[batch].left[0].rule, batch) && Distinct(added)
    ensures var scan := s.scans[batch];
            ScansOk(s.history + added, s.scans[batch := Scan(scan.date, scan.left[1..], scan.created + added)])
  {
    var scan := s.scans[batch];
    hide ScanOk;
    forall b | b in s.scans
      ensures ScanOk(s.history + added, b, if b == batch then Scan(scan.date, scan.left[1..], scan.created + added) else s.scans[b])
    {
      if b == batch {
        CommitKeepsOwn(s.history, added, batch, scan);
      } else {
        CommitKeepsOthers(s.history, added, scan.left[0].rule, batch, b, s.scans[b]);
      }
    }
  }

  lemma CommitKeepsBatches(s: State, batch: int, added: seq<Row>)
    requires BatchesOk(s.history, s.scans.Keys, s.begun.Keys, s.finished) && batch in s.scans
    requires forall r | r in added :: r.batch == batch
    ensures BatchesOk(s.history + added, s.scans.Keys, s.begun.Keys, s.finished)
  {
  }

  // ---------------------------------------------------------------- the other events

  lemma BeginKeepsInv(s: State, batch: int, date: string, groups: seq<Group>)
    requires Inv(s) && GroupsOk(groups, date, batch)
    ensures Inv(BeginScan(s, batch, date, groups))
  {
    if batch !in s.begun {
      var s' := BeginScan(s, batch, date, groups);
      assert s'.scans.Keys == s.scans.Keys + {batch} && s'.begun.Keys == s.begun.Keys + {batch};
      assert forall r | r in s.history :: r.batch != batch;
      assert ScanOk(s.history, batch, s'.scans[batch]);
      forall b | b in s'.scans ensures ScanOk(s'.history, b, s'.scans[b]) {
        if b != batch {
          assert s'.scans[b] == s.scans[b];
        }
      }
      forall b | b in s'.scans && b in s'.begun ensures AllRecorded(s'.history, s'.begun[b] - KeysOf(s'.scans[b].left)) {
        if b != batch {
          assert b in s.scans && b in s.begun;
        }
      }
    }
  }

  lemma FinishKeepsInv(s: State, batch: int)
    requires Inv(s)
    ensures Inv(FinishScan(s, batch))
  {
    if batch in s.scans && s.scans[batch].left == [] {
      var s' := FinishScan(s, batch);
      var scan := s.scans[batch];
      assert ScanOk(s.history, batch, scan);
      FinishEmits(s.history, s.emitted, s.finished, batch, scan.created);
      assert KeysOf(scan.left) == {};
      assert s.begun[batch] - KeysOf(scan.left) == s.begun[batch];
      forall b | b in s'.scans ensures ScanOk(s'.history, b, s'.scans[b]) {
        assert ScanOk(s.history, b, s.scans[b]);
      }
    }
  }

  lemma FinishEmits(history: seq<Row>, emitted: seq<Row>, finished: set<int>, batch: int, created: seq<Row>)
    requires EmittedOk(history, emitted, finished) && CreatedOk(history, batch, created) && batch !in finished
    ensures EmittedOk(history, emitted + created, finished + {batch})
  {
    var all := emitted + created;
    forall i, j | 0 <= i < j < |all| ensures all[i] != all[j] {
      if i < |emitted| <= j {
        assert all[i] in emitted && all[j] in created;
      }
    }
  }

  lemma AbortKeepsInv(s: State, batch: int)
    requires Inv(s)
    ensures Inv(s.(scans := s.scans - {batch}))
  {
    var s' := s.(scans := s.scans - {batch});
    forall b | b in s'.scans ensures ScanOk(s'.history, b, s'.scans[b]) {
      assert ScanOk(s.history, b, s.scans[b]);
    }
  }

  lemma StepKeepsInv(s: State, e: Event)
    requires Inv(s)
    ensures Inv(Step(s, e))
  {
    hide Inv, BeginScan, CommitRule, FinishScan;
    match e
    case Begin(batch, date, entries, fires) =>
      CollectOk(entries, fires, date, batch);
      BeginKeepsInv(s, batch, date, Collect(entries, fires, date, batch));
    case Commit(batch) => CommitKeepsInv(s, batch);
    case Finish(batch) => FinishKeepsInv(s, batch);
    case Abort(batch) => AbortKeepsInv(s, batch);
  }

  lemma StartInv()
    ensures Inv(START)
  {
  }

  lemma {:induction false} RunKeepsInv(s: State, es: seq<Event>)
    requires Inv(s)
    ensures Inv(Run(s, es))
    decreases es
  {
    hide Inv, Step;
    if es != [] {
      RunKeepsInv(s, es[..|es| - 1]);
      StepKeepsInv(Run(s, es[..|es| - 1]), es[|es| - 1]);
    }
  }

  lemma ReachableInv(s: State)
    requires Reachable(s)
    ensures Inv(s)
  {
    hide Inv;
    var es :| s == Run(START, es);
    StartInv();
    RunKeepsInv(START, es);
  }

  // ---------------------------------------------------------------- main results

  /** Whatever scans ran, in whatever interleaving: at most one row per (rule, date, code). */
  lemma OneRowPerKey(s: State, a: Row, b: Row)
    requires Reachable(s) && a in s.history && b in s.history
    requires a.rule == b.rule && a.date == b.date && a.code == b.code
    ensures a == b
  {
    ReachableInv(s);
  }

  /** A recorded row is notified exactly once if the scan that recorded it finished, and otherwise never. */
  lemma NotifiedExactlyWhenFinished(s: State, r: Row)
    requires Reachable(s)
    ensures multiset(s.emitted)[r] == if r in s.history && r.batch in s.finished then 1 else 0
  {
    ReachableInv(s);
    assert EmittedOk(s.history, s.emitted, s.finished);
    Sorting.DistinctMultiplicity(s.emitted, r);
  }

  /** A rule's trigger count is the number of distinct scans in its history. */
  lemma CountIsBatches(s: State, rule: int)
    requires Reachable(s)
    ensures (if rule in s.counts then s.counts[rule] else 0) == |set r | r in s.history && r.rule == rule :: r.batch|
  {
    ReachableInv(s);
    assert Count(s.counts, rule) == |BatchesOf(s.history, rule)|;
  }

  lemma {:induction false} RunKeepsRows(s: State, es: seq<Event>)
    requires Inv(s)
    ensures s.history <= Run(s, es).history && s.finished <= Run(s, es).finished && s.begun.Keys <= Run(s, es).begun.Keys
    ensures forall b | b in s.begun && b !in s.scans :: b !in Run(s, es).scans && (b in Run(s, es).finished <==> b in s.finished)
    decreases es
  {
    if es != [] {
      var before, e := Run(s, es[..|es| - 1]), es[|es| - 1];
      RunKeepsRows(s, es[..|es| - 1]);
      RunKeepsInv(s, es[..|es| - 1]);
      StepKeepsRows(before, e);
    }
  }

  lemma StepKeepsRows(s: State, e: Event)
    requires Inv(s)
    ensures s.history <= Step(s, e).history && s.finished <= Step(s, e).finished && s.begun.Keys <= Step(s, e).begun.Keys
    ensures forall b | b in s.begun && b !in s.scans :: b !in Step(s, e).scans && (b in Step(s, e).finished <==> b in s.finished)
  {
    if e.Commit? && e.batch in s.scans && s.scans[e.batch].left != [] {
      CommitRecordsNewRows(s, e.batch);
    }
  }

  /**
   * A scan that dies after a transaction loses that transaction's notifications for good: its rows stay in
   * the table, and in no continuation is anything ever sent for their keys.
   */
  lemma AbortLosesNotifications(s: State, batch: int, r: Row, es: seq<Event>)
    requires Reachable(s) && batch in s.scans && r in s.scans[batch].created
    ensures var later := Run(Step(s, Abort(batch)), es);
            r in later.history && forall x | x in later.emitted :: x.rule != r.rule || x.date != r.date || x.code != r.code
  {
    ReachableInv(s);
    assert ScanOk(s.history, batch, s.scans[batch]);
    var dead := Step(s, Abort(batch));
    StepKeepsInv(s, Abort(batch));
    RunKeepsRows(dead, es);
    RunKeepsInv(dead, es);
    var later := Run(dead, es);
    assert r in later.history by {
      var i :| 0 <= i < |s.history| && s.history[i] == r;
      assert later.history[i] == r;
    }
    assert batch !in later.finished;
  }

  lemma {:induction false} RunKeepsBegun(s: State, batch: int, es: seq<Event>)
    requires batch in s.begun
    ensures batch in Run(s, es).begun && Run(s, es).begun[batch] == s.begun[batch]
    decreases es
  {
    hide Transaction, Collect;
    if es != [] {
      RunKeepsBegun(s, batch, es[..|es| - 1]);
    }
  }

  /**
   * A scan that finishes leaves nothing out: for every row it collected the table holds a row of that rule, date and
   * code, its own or an earlier one, whatever other scans did meanwhile.
   */
  lemma FinishedScanRecordsAll(s: State, batch: int, date: string, entries: seq<Entry>, fires: Fires, es: seq<Event>, r: Row)
    requires Reachable(s) && batch !in s.begun && IsPending(Collect(entries, fires, date, batch), r)
    requires batch in Run(Step(s, Begin(batch, date, entries, fires)), es).finished
    ensures exists h | h in Run(Step(s, Begin(batch, date, entries, fires)), es).history ::
              h.rule == r.rule && h.date == r.date && h.code == r.code
  {
    var groups := Collect(entries, fires, date, batch);
    var s' := Step(s, Begin(batch, date, entries, fires));
    ReachableInv(s);
    StepKeepsInv(s, Begin(batch, date, entries, fires));
    RunKeepsInv(s', es);
    RunKeepsBegun(s', batch, es);
    var later := Run(s', es);
    var i :| 0 <= i < |groups| && r in groups[i].rows;
    assert KeyOf(r) in KeysOf(groups) && s'.begun[batch] == KeysOf(groups);
    assert AllRecorded(later.history, later.begun[batch]);
    var n :| 0 <= n < |later.history| && KeyOf(later.history[n]) == KeyOf(r);
    assert later.history[n] in later.history;
  }

  /** A scan all of whose keys are recorded adds nothing, whatever else happens meanwhile. */
  ghost predicate Barren(s: State, batch: int) {
    && batch in s.begun
    && (forall r | r in s.history :: r.batch != batch)
    && (batch in s.scans ==> AllRecorded(s.history, KeysOf(s.scans[batch].left)))
  }

  lemma NothingNew(history: seq<Row>, left: seq<Group>)
    requires left != [] && AllRecorded(history, KeysOf(left))
    ensures forall r :: r !in NewRows(history, left[0].rows)
    ensures AllRecorded(history, KeysOf(left[1..]))
  {
    forall r ensures r !in NewRows(history, left[0].rows) {
      NewRowsMember(history, left[0].rows, r);
      if r in left[0].rows {
        assert KeyOf(r) in KeysOf(left);
      }
    }
    assert KeysOf(left[1..]) <= KeysOf(left) by {
      forall k | k in KeysOf(left[1..]) ensures k in KeysOf(left) {
        var i: nat, r :| i < |left[1..]| && r in left[1..][i].rows && k == KeyOf(r);
        assert r in left[i + 1].rows;
      }
    }
  }

  lemma CommitKeepsBarren(s: State, batch: int, other: int)
    requires Inv(s) && Barren(s, batch)
    ensures Barren(CommitRule(s, other), batch)
  {
    if other in s.scans && s.scans[other].left != [] {
      CommitRecordsNewRows(s, other);
      var scan := s.scans[other];
      assert ScanOk(s.history, other, scan);
      assert GroupOk(scan.left[0], scan.date, other);
      var added := NewRows(s.history, scan.left[0].rows);
      NewRowsFresh(s.history, scan.left[0], scan.date, other);
      if other == batch {
        NothingNew(s.history, scan.left);
        RecordedGrows(s.history, added, KeysOf(scan.left[1..]));
      } else if batch in s.scans {
        RecordedGrows(s.history, added, KeysOf(s.scans[batch].left));
      }
    }
  }

  lemma StepKeepsBarren(s: State, batch: int, e: Event)
    requires Inv(s) && Barren(s, batch)
    ensures Barren(Step(s, e), batch)
  {
    if e.Commit? {
      CommitKeepsBarren(s, batch, e.batch);
    }
  }

  lemma {:induction false} RunKeepsBarren(s: State, batch: int, es: seq<Event>)
    requires Inv(s) && Barren(s, batch)
    ensures Barren(Run(s, es), batch)
    decreases es
  {
    hide Inv, Barren, Step;
    if es != [] {
      RunKeepsBarren(s, batch, es[..|es| - 1]);
      RunKeepsInv(s, es[..|es| - 1]);
      StepKeepsBarren(Run(s, es[..|es| - 1]), batch, es[|es| - 1]);
    }
  }

  /**
   * Repeating a finished scan on unchanged data triggers nothing: the new scan records and notifies no row,
   * in every continuation, whatever other scans do meanwhile.
   */
  lemma RepeatTriggersNothing(s: State, first: int, batch: int, date: string, entries: seq<Entry>, fires: Fires, es: seq<Event>)
    requires Reachable(s) && first in s.finished && first in s.begun && batch !in s.begun
    requires KeysOf(Collect(entries, fires, date, first)) <= s.begun[first]
    ensures var later := Run(Step(s, Begin(batch, date, entries, fires)), es);
            (forall r | r in later.history :: r.batch != batch) && (forall r | r in later.emitted :: r.batch != batch)
  {
    ReachableInv(s);
    SameDataSameKeys(entries, fires, date, first, batch);
    var s' := Step(s, Begin(batch, date, entries, fires));
    StepKeepsInv(s, Begin(batch, date, entries, fires));
    assert AllRecorded(s.history, s.begun[first]);
    assert Barren(s', batch);
    RunKeepsBarren(s', batch, es);
    RunKeepsInv(s', es);
    var later := Run(s', es);
    assert EmittedOk(later.history, later.emitted, later.finished);
  }

  /** The same entries with the same data have the same keys, whatever the batch id. */
  lemma SameDataSameKeys(entries: seq<Entry>, fires: Fires, date: string, a: int, b: int)
    ensures KeysOf(Collect(entries, fires, date, a)) == KeysOf(Collect(entries, fires, date, b))
  {
    CollectRebatched(entries, fires, date, a, b);
    RebatchedKeys(Collect(entries, fires, date, a), b);
  }

  function RebatchedRows(rows: seq<Row>, batch: int): seq<Row> {
    seq(|rows|, i requires 0 <= i < |rows| => rows[i].(batch := batch))
  }

  function Rebatched(groups: seq<Group>, batch: int): seq<Group> {
    seq(|groups|, i requires 0 <= i < |groups| => Group(groups[i].rule, RebatchedRows(groups[i].rows, batch)))
  }

  lemma RebatchedKeys(groups: seq<Group>, batch: int)
    ensures KeysOf(Rebatched(groups, batch)) == KeysOf(groups)
  {
    var after := Rebatched(groups, batch);
    forall k | k in KeysOf(groups) ensures k in KeysOf(after) {
      var i: nat, r :| i < |groups| && r in groups[i].rows && k == KeyOf(r);
      var j :| 0 <= j < |groups[i].rows| && groups[i].rows[j] == r;
      assert after[i].rows[j] in after[i].rows && KeyOf(after[i].rows[j]) == k;
    }
    forall k | k in KeysOf(after) ensures k in KeysOf(groups) {
      var i: nat, r :| i < |after| && r in after[i].rows && k == KeyOf(r);
      var j :| 0 <= j < |after[i].rows| && after[i].rows[j] == r;
      assert groups[i].rows[j] in groups[i].rows && KeyOf(groups[i].rows[j]) == k;
    }
  }

  lemma {:induction false} IndexOfRuleRebatched(groups: seq<Group>, batch: int, rule: int)
    ensures IndexOfRule(Rebatched(groups, batch), rule) == IndexOfRule(groups, rule)
  {
    if groups != [] {
      var n := |groups| - 1;
      IndexOfRuleRebatched(groups[..n], batch, rule);
      assert Rebatched(groups, batch)[..n] == Rebatched(groups[..n], batch);
    }
  }

  lemma AddRowRebatched(groups: seq<Group>, row: Row, batch: int)
    ensures Rebatched(AddRow(groups, row), batch) == AddRow(Rebatched(groups, batch), row.(batch := batch))
  {
    IndexOfRuleRebatched(groups, batch, row.rule);
    var i := IndexOfRule(groups, row.rule);
    hide IndexOfRule;
    if i >= 0 {
      NamesCodeRebatched(groups[i].rows, batch, row.code);
      assert RebatchedRows(groups[i].rows + [row], batch) == RebatchedRows(groups[i].rows, batch) + [row.(batch := batch)];
    } else {
      assert RebatchedRows([row], batch) == [row.(batch := batch)];
    }
  }

  lemma NamesCodeRebatched(rows: seq<Row>, batch: int, code: string)
    ensures NamesCode(RebatchedRows(rows, batch), code) <==> NamesCode(rows, code)
  {
    if NamesCode(rows, code) {
      var i :| 0 <= i < |rows| && rows[i].code == code;
      assert RebatchedRows(rows, batch)[i].code == code;
    }
  }

  lemma {:induction false} CollectRebatched(entries: seq<Entry>, fires: Fires, date: string, a: int, b: int)
    ensures Rebatched(Collect(entries, fires, date, a), b) == Collect(entries, fires, date, b)
  {
    if entries != [] {
      var init, e := entries[..|entries| - 1], entries[|entries| - 1];
      CollectRebatched(init, fires, date, a, b);
      if fires(e.rule, e.code).Some? {
        AddRowRebatched(Collect(init, fires, date, a), RowOf(e, fires(e.rule, e.code).value, date, a), b);
      }
    }
  }
}
