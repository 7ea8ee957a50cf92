/** No run of the key migration, complete or cut short, changes what a stored secret decrypts to. */
module MigrationSafety {
  import opened Prelude
  import opened KeyMigration
  import opened MigrationRuns

  // ---------------------------------------------------------------- what the stored texts mean

  /** A text read with both keys at hand: empty, a plaintext, or unreadable. */
  datatype Seen = Empty | Clear(plain: string) | Opaque(text: Text)

  function See(text: Text, current: Key, legacy: Key): Seen {
    if text.Blank? then Empty
    else if IsDecryptable(text, current) then Clear(Decrypt(text, current).value)
    else if IsDecryptable(text, legacy) then Clear(Decrypt(text, legacy).value)
    else Opaque(text)
  }

  predicate SameItem(a: Item, b: Item, current: Key, legacy: Key) {
    match (a, b)
    case (Keyed(body, text), Keyed(body', text')) => body == body' && See(text, current, legacy) == See(text', current, legacy)
    case _ => a == b
  }

  predicate SameItems(a: seq<Item>, b: seq<Item>, current: Key, legacy: Key) {
    |a| == |b| && forall k | 0 <= k < |a| :: SameItem(a[k], b[k], current, legacy)
  }

  predicate SameSnapshot(a: Snapshot, b: Snapshot, current: Key, legacy: Key) {
    match (a, b)
    case (Items(items), Items(items')) => SameItems(items, items', current, legacy)
    case _ => a == b
  }

  ghost predicate SameSecrets(a: map<nat, Secret>, b: map<nat, Secret>, current: Key, legacy: Key) {
    a.Keys == b.Keys
    && forall id | id in a && id in b :: See(TextOf(a[id]), current, legacy) == See(TextOf(b[id]), current, legacy)
  }

  ghost predicate SameVersions(a: map<nat, Snapshot>, b: map<nat, Snapshot>, current: Key, legacy: Key) {
    a.Keys == b.Keys && forall id | id in a && id in b :: SameSnapshot(a[id], b[id], current, legacy)
  }

  /** Every slot of both databases holds the same plaintext, or the same unreadable text. */
  ghost predicate SameView(a: Db, b: Db, current: Key, legacy: Key) {
    && SameSecrets(a.providers, b.providers, current, legacy)
    && SameSecrets(a.connections, b.connections, current, legacy)
    && SameVersions(a.versions, b.versions, current, legacy)
  }

  // ---------------------------------------------------------------- planned writes keep the meaning

  predicate Rewrites(u: SecretUpdate, current: Key, legacy: Key) {
    && IsDecryptable(u.current, legacy) && !IsDecryptable(u.current, current)
    && Decrypt(u.next, current) == Decrypt(u.current, legacy)
  }

  lemma {:induction false} PlannedSecrets(rows: seq<Row<Secret>>, current: Key, legacy: Option<Key>, ivs: nat -> nat)
    requires PlanSecrets(rows, current, legacy, ivs).Ok?
    ensures var us := PlanSecrets(rows, current, legacy, ivs).value.updates;
            us != [] ==> legacy.Some? && forall k | 0 <= k < |us| :: Rewrites(us[k], current, legacy.value)
  {
    if rows != [] {
      PlannedSecrets(rows[..|rows| - 1], current, legacy, ivs);
    }
  }

  /** What a planned snapshot does to one item: the meaning stays, the text becomes current. */
  predicate ItemRewritten(a: Item, b: Item, current: Key, legacy: Option<Key>) {
    && (if legacy.None? then a == b else SameItem(a, b, current, legacy.value))
    && (b.Keyed? ==> TextCurrent(b.text, current))
  }

  lemma RewrittenItem(done: Rewritten, item: Item, current: Key, legacy: Option<Key>, iv: nat)
    requires RewriteItem(done, item, current, legacy, iv).Ok?
    ensures var r := RewriteItem(done, item, current, legacy, iv).value;
            && |r.items| == |done.items| + 1 && r.items == done.items + [r.items[|done.items|]]
            && ItemRewritten(item, r.items[|done.items|], current, legacy)
            && (r.changed == (done.changed || item != r.items[|done.items|]))
            && (r.changed ==> done.changed || legacy.Some?)
  {
  }

  lemma {:induction false} RewrittenItems(items: seq<Item>, current: Key, legacy: Option<Key>, ivs: nat -> nat)
    requires RewriteItems(items, current, legacy, ivs).Ok?
    ensures var r := RewriteItems(items, current, legacy, ivs).value;
            && |r.items| == |items|
            && (forall k | 0 <= k < |items| :: ItemRewritten(items[k], r.items[k], current, legacy))
            && (r.changed ==> legacy.Some?)
            && (!r.changed ==> r.items == items)
  {
    if items != [] {
      var last := |items| - 1;
      RewrittenItems(items[..last], current, legacy, ivs);
      var done := RewriteItems(items[..last], current, legacy, ivs).value;
      var r := RewriteItems(items, current, legacy, ivs).value;
      assert RewriteItem(done, items[last], current, legacy, ivs(last)) == Ok(r);
      hide SameItem, TextCurrent, ItemRewritten, RewriteItem, RewriteItems;
      RewrittenItem(done, items[last], current, legacy, ivs(last));
      assert items == items[..last] + [items[last]];
    }
  }

  /** Every planned snapshot update comes from a row, means the same as the row, and is all current. */
  ghost predicate FromRow(u: SnapshotUpdate, row: Row<Snapshot>, current: Key, legacy: Option<Key>) {
    && u.id == row.id && legacy.Some?
    && SameSnapshot(row.value, u.next, current, legacy.value) && SnapshotCurrent(u.next, current)
  }

  lemma {:induction false} PlannedSnapshots(rows: seq<Row<Snapshot>>, current: Key, legacy: Option<Key>, ivs: nat -> (nat -> nat))
    requires PlanSnapshots(rows, current, legacy, ivs).Ok?
    ensures var us := PlanSnapshots(rows, current, legacy, ivs).value.updates;
            forall k | 0 <= k < |us| :: exists i :: 0 <= i < |rows| && FromRow(us[k], rows[i], current, legacy)
  {
    if rows != [] {
      var last := |rows| - 1;
      var before := PlanSnapshots(rows[..last], current, legacy, ivs).value.updates;
      PlannedSnapshots(rows[..last], current, legacy, ivs);
      var us := PlanSnapshots(rows, current, legacy, ivs).value.updates;
      if rows[last].value.Items? {
        RewrittenItems(rows[last].value.items, current, legacy, ivs(last));
      }
      forall k | 0 <= k < |us| ensures exists i :: 0 <= i < |rows| && FromRow(us[k], rows[i], current, legacy) {
        if k < |before| {
          var i :| 0 <= i < last && FromRow(before[k], rows[..last][i], current, legacy);
          assert FromRow(us[k], rows[i], current, legacy);
        } else {
          assert FromRow(us[k], rows[last], current, legacy);
        }
      }
    }
  }

  ghost predicate GoodWrite(versions: map<nat, Snapshot>, w: Write, current: Key, legacy: Key) {
    match w
    case ProviderWrite(u) => Rewrites(u, current, legacy)
    case ConnectionWrite(u) => Rewrites(u, current, legacy)
    case SnapshotWrite(u) => u.id in versions ==> SameSnapshot(versions[u.id], u.next, current, legacy)
  }

  ghost predicate GoodQueue(versions: map<nat, Snapshot>, queue: seq<Write>, current: Key, legacy: Key) {
    forall k | 0 <= k < |queue| :: GoodWrite(versions, queue[k], current, legacy)
  }

  lemma SeeRewritten(u: SecretUpdate, current: Key, legacy: Key)
    requires Rewrites(u, current, legacy)
    ensures See(u.next, current, legacy) == See(u.current, current, legacy)
  {
  }

  /** A good write keeps the meaning of every slot, whatever else has changed since it was planned. */
  lemma WriteKeepsView(db: Db, w: Write, current: Key, legacy: Key)
    requires GoodWrite(db.versions, w, current, legacy)
    ensures SameView(db, WriteStep(db, w).0, current, legacy)
  {
    if !w.SnapshotWrite? {
      SeeRewritten(w.update, current, legacy);
    }
  }

  // ---------------------------------------------------------------- every run keeps every plaintext

  /** The rows were read from this table. */
  predicate ReadFrom<V(==)>(rows: seq<Row<V>>, m: map<nat, V>) {
    forall i | 0 <= i < |rows| :: rows[i].id in m && m[rows[i].id] == rows[i].value
  }

  /** Runs are given the current key, and either no legacy key or the right one; invalid settings abort. */
  predicate ConfigOk(c: Config, current: Key, legacy: Key) {
    && (c.current.Some? && |c.current.value| >= 32 ==> c.current == Some(current))
    && (c.legacy.Some? && |c.legacy.value| >= 32 ==> c.legacy == Some(legacy))
  }

  /** No write is planned for the row, or the snapshot means what the planned one means. */
  predicate Harmless(queue: seq<Write>, id: nat, snapshot: Snapshot, current: Key, legacy: Key) {
    forall k | 0 <= k < |queue| && queue[k].SnapshotWrite? && queue[k].snapshot.id == id ::
      SameSnapshot(snapshot, queue[k].snapshot.next, current, legacy)
  }

  /**
   * Provider and connection rows may be read stale, and rewritten by others at any time. Snapshots, which are written
   * without comparison, are read fresh, and others may rewrite them wherever that is harmless to the pending writes.
   */
  predicate Allowed(s: State, e: Event, current: Key, legacy: Key) {
    match e
    case Start(t, c, _) => ConfigOk(c, current, legacy) && ReadFrom(t.versions, s.db.versions)
    case OtherVersion(id, snapshot) => s.process.Writing? ==> Harmless(s.process.queue, id, snapshot, current, legacy)
    case _ => true
  }

  ghost predicate AllowedRun(s: State, events: seq<Event>, current: Key, legacy: Key) {
    forall k | 0 <= k < |events| :: Allowed(Run(s, events[..k]), events[k], current, legacy)
  }

  ghost predicate Inv(s: State, current: Key, legacy: Key) {
    s.process.Writing? ==> s.process.current == current && GoodQueue(s.db.versions, s.process.queue, current, legacy)
  }

  /** The writes of an accepted run, table by table. */
  lemma PlanParts(t: Tables, config: Config, ivs: Randoms)
    requires PlanRun(t, config, ivs).Accepted?
    ensures ReadKey(config.current, true).Ok? && ReadKey(config.legacy, false).Ok?
    ensures ReadKey(config.current, true).value == Some(PlanRun(t, config, ivs).current)
    ensures var (current, legacy) := (PlanRun(t, config, ivs).current, ReadKey(config.legacy, false).value);
            var ps := PlanSecrets(t.providers, current, legacy, ivs.providers);
            var cs := PlanSecrets(t.connections, current, legacy, ivs.connections);
            var ss := PlanSnapshots(t.versions, current, legacy, ivs.versions);
            && ps.Ok? && cs.Ok? && ss.Ok?
            && PlanRun(t, config, ivs).writes ==
               ProviderWrites(ps.value.updates) + ConnectionWrites(cs.value.updates) + SnapshotWrites(ss.value.updates)
  {
  }

  lemma GoodParts(versions: map<nat, Snapshot>, ps: seq<SecretUpdate>, cs: seq<SecretUpdate>, ss: seq<SnapshotUpdate>, current: Key, legacy: Key)
    requires forall k | 0 <= k < |ps| :: Rewrites(ps[k], current, legacy)
    requires forall k | 0 <= k < |cs| :: Rewrites(cs[k], current, legacy)
    requires forall k | 0 <= k < |ss| :: GoodWrite(versions, SnapshotWrite(ss[k]), current, legacy)
    ensures GoodQueue(versions, ProviderWrites(ps) + ConnectionWrites(cs) + SnapshotWrites(ss), current, legacy)
  {
    hide Rewrites, SameSnapshot;
  }

  lemma PlanIsGood(t: Tables, config: Config, ivs: Randoms, versions: map<nat, Snapshot>, current: Key, legacy: Key)
    requires ConfigOk(config, current, legacy) && ReadFrom(t.versions, versions)
    requires PlanRun(t, config, ivs).Accepted?
    ensures PlanRun(t, config, ivs).current == current
    ensures GoodQueue(versions, PlanRun(t, config, ivs).writes, current, legacy)
  {
    PlanParts(t, config, ivs);
    hide PlanRun, PlanSecrets, PlanSnapshots, Rewrites, SameSnapshot, SnapshotCurrent;
    var l := ReadKey(config.legacy, false).value;
    PlannedSecrets(t.providers, current, l, ivs.providers);
    PlannedSecrets(t.connections, current, l, ivs.connections);
    PlannedSnapshots(t.versions, current, l, ivs.versions);
    var ps := PlanSecrets(t.providers, current, l, ivs.providers).value.updates;
    var cs := PlanSecrets(t.connections, current, l, ivs.connections).value.updates;
    var ss := PlanSnapshots(t.versions, current, l, ivs.versions).value.updates;
    forall k | 0 <= k < |ss| ensures GoodWrite(versions, SnapshotWrite(ss[k]), current, legacy) {
      var i :| 0 <= i < |t.versions| && FromRow(ss[k], t.versions[i], current, l);
    }
    GoodParts(versions, ps, cs, ss, current, legacy);
  }

  lemma SameSnapshotTransitive(a: Snapshot, b: Snapshot, c: Snapshot, current: Key, legacy: Key)
    requires SameSnapshot(a, b, current, legacy) && SameSnapshot(a, c, current, legacy)
    ensures SameSnapshot(b, c, current, legacy)
  {
    if a.Items? {
      forall k | 0 <= k < |a.items| ensures SameItem(b.items[k], c.items[k], current, legacy) {
        assert SameItem(a.items[k], b.items[k], current, legacy) && SameItem(a.items[k], c.items[k], current, legacy);
      }
    }
  }

  /** A write keeps the rest of the queue good. */
  lemma RestStaysGood(db: Db, queue: seq<Write>, current: Key, legacy: Key)
    requires queue != [] && GoodQueue(db.versions, queue, current, legacy)
    ensures GoodQueue(WriteStep(db, queue[0]).0.versions, queue[1..], current, legacy)
  {
    var after := WriteStep(db, queue[0]).0.versions;
    forall k | 0 <= k < |queue| - 1 ensures GoodWrite(after, queue[1..][k], current, legacy) {
      var w := queue[k + 1];
      assert GoodWrite(db.versions, w, current, legacy) && GoodWrite(db.versions, queue[0], current, legacy);
      if w.SnapshotWrite? && queue[0].SnapshotWrite? && w.snapshot.id == queue[0].snapshot.id && w.snapshot.id in db.versions {
        SameSnapshotTransitive(db.versions[w.snapshot.id], queue[0].snapshot.next, w.snapshot.next, current, legacy);
      }
    }
  }

  lemma StepKeepsInv(s: State, e: Event, current: Key, legacy: Key)
    requires Inv(s, current, legacy) && Allowed(s, e, current, legacy)
    ensures Inv(Step(s, e), current, legacy)
  {
    match e
    case Start(t, c, ivs) =>
      if !s.process.Writing? && PlanRun(t, c, ivs).Accepted? {
        PlanIsGood(t, c, ivs, s.db.versions, current, legacy);
      }
    case DoWrite =>
      if s.process.Writing? && s.process.queue != [] {
        RestStaysGood(s.db, s.process.queue, current, legacy);
      }
    case _ =>
  }

  lemma {:induction false} RunKeepsInv(s: State, events: seq<Event>, current: Key, legacy: Key)
    requires Inv(s, current, legacy) && AllowedRun(s, events, current, legacy)
    ensures Inv(Run(s, events), current, legacy)
  {
    if events != [] {
      var before := events[..|events| - 1];
      assert forall k | 0 <= k < |before| :: before[..k] == events[..k] && before[k] == events[k];
      RunKeepsInv(s, before, current, legacy);
      StepKeepsInv(Run(s, before), events[|events| - 1], current, legacy);
    }
  }

  predicate ByOthers(e: Event) {
    e.OtherProvider? || e.OtherConnection? || e.OtherVersion?
  }

  lemma ReflexiveView(db: Db, current: Key, legacy: Key)
    ensures SameView(db, db, current, legacy)
  {
    forall id | id in db.versions ensures SameSnapshot(db.versions[id], db.versions[id], current, legacy) {}
  }

  /** Whatever other processes do before or during a run, no step of the migration changes what any slot decrypts to. */
  lemma MigrationStepKeepsView(s: State, events: seq<Event>, e: Event, current: Key, legacy: Key)
    requires Inv(s, current, legacy) && AllowedRun(s, events, current, legacy) && !ByOthers(e)
    ensures SameView(Run(s, events).db, Step(Run(s, events), e).db, current, legacy)
  {
    RunKeepsInv(s, events, current, legacy);
    var t := Run(s, events);
    ReflexiveView(t.db, current, legacy);
    if e.DoWrite? && t.process.Writing? && t.process.queue != [] {
      WriteKeepsView(t.db, t.process.queue[0], current, legacy);
    }
  }

  lemma ViewTransitive(a: Db, b: Db, c: Db, current: Key, legacy: Key)
    requires SameView(a, b, current, legacy) && SameView(b, c, current, legacy)
    ensures SameView(a, c, current, legacy)
  {
    forall id | id in a.versions && id in c.versions ensures SameSnapshot(a.versions[id], c.versions[id], current, legacy) {
      assert SameSnapshot(a.versions[id], b.versions[id], current, legacy);
      assert SameSnapshot(b.versions[id], c.versions[id], current, legacy);
      SameSnapshotSymmetric(a.versions[id], b.versions[id], current, legacy);
      SameSnapshotTransitive(b.versions[id], a.versions[id], c.versions[id], current, legacy);
    }
  }

  lemma SameSnapshotSymmetric(a: Snapshot, b: Snapshot, current: Key, legacy: Key)
    requires SameSnapshot(a, b, current, legacy)
    ensures SameSnapshot(b, a, current, legacy)
  {
    if a.Items? {
      forall k | 0 <= k < |a.items| ensures SameItem(b.items[k], a.items[k], current, legacy) {
        assert SameItem(a.items[k], b.items[k], current, legacy);
      }
    }
  }

  /** The database if only the other processes had written. */
  function OthersOnly(db: Db, events: seq<Event>): Db {
    if events == [] then db
    else
      var before := OthersOnly(db, events[..|events| - 1]);
      match events[|events| - 1]
      case OtherProvider(id, value) => before.(providers := Poke(before.providers, id, value))
      case OtherConnection(id, value) => before.(connections := Poke(before.connections, id, value))
      case OtherVersion(id, snapshot) => before.(versions := before.versions[id := snapshot])
      case _ => before
  }

  /** The same write by another process keeps two databases of one view in one view. */
  lemma PokeKeepsView(a: Db, s: State, e: Event, current: Key, legacy: Key)
    requires SameView(a, s.db, current, legacy) && ByOthers(e)
    ensures SameView(Step(State(a, Idle), e).db, Step(s, e).db, current, legacy)
  {
    if e.OtherVersion? {
      SameAsItself(e.snapshot, current, legacy);
    }
  }

  lemma SameAsItself(a: Snapshot, current: Key, legacy: Key)
    ensures SameSnapshot(a, a, current, legacy)
  {
  }

  /**
   * The migration is invisible: after any number of its writes, crashes and reruns, with other processes writing
   * rows at any time, every slot holds what it would hold had the migration never run: the plaintext last put there
   * by someone else, or the original one. So no update of anyone is lost.
   */
  lemma {:induction false} MigrationIsInvisible(s: State, events: seq<Event>, current: Key, legacy: Key)
    requires Inv(s, current, legacy) && AllowedRun(s, events, current, legacy)
    ensures SameView(OthersOnly(s.db, events), Run(s, events).db, current, legacy)
  {
    if events == [] {
      ReflexiveView(s.db, current, legacy);
    } else {
      var before, e := events[..|events| - 1], events[|events| - 1];
      assert forall k | 0 <= k < |before| :: before[..k] == events[..k] && before[k] == events[k];
      MigrationIsInvisible(s, before, current, legacy);
      hide SameView, Inv, AllowedRun;
      if ByOthers(e) {
        PokeKeepsView(OthersOnly(s.db, before), Run(s, before), e, current, legacy);
      } else {
        MigrationStepKeepsView(s, before, e, current, legacy);
        ViewTransitive(OthersOnly(s.db, before), Run(s, before).db, Run(s, events).db, current, legacy);
      }
    }
  }

  /** The row the write is for is gone, or holds another text than was planned for. */
  predicate FindsChange(db: Db, w: Write) {
    match w
    case ProviderWrite(u) => u.id !in db.providers || db.providers[u.id] != Some(u.current)
    case ConnectionWrite(u) => u.id !in db.connections || db.connections[u.id] != Some(u.current)
    case SnapshotWrite(u) => u.id !in db.versions
  }

  /** A write that finds a change writes nothing and ends the run; any other write goes on. */
  lemma ChangeAbortsExactly(s: State)
    requires s.process.Writing? && s.process.queue != []
    ensures var d := Step(s, DoWrite);
            && (FindsChange(s.db, s.process.queue[0]) ==> d == State(s.db, Failed(Changed)))
            && (!FindsChange(s.db, s.process.queue[0]) ==> d.process == Writing(s.process.current, s.process.queue[1..]))
  {
  }

  /** The update was planned from row `r` of these rows. */
  predicate PlannedFrom(rows: seq<Row<Snapshot>>, r: nat, u: SnapshotUpdate, current: Key, legacy: Key, ivs: nat -> (nat -> nat)) {
    && PlanSnapshots(rows, current, Some(legacy), ivs).Ok? && u in PlanSnapshots(rows, current, Some(legacy), ivs).value.updates
    && r < |rows| && rows[r].id == u.id && forall i, j | 0 <= i < j < |rows| :: rows[i].id != rows[j].id
  }

  /** A planned update means what the row it was planned from held. */
  lemma PlannedFromRow(rows: seq<Row<Snapshot>>, r: nat, u: SnapshotUpdate, current: Key, legacy: Key, ivs: nat -> (nat -> nat))
    requires PlannedFrom(rows, r, u, current, legacy, ivs)
    ensures SameSnapshot(rows[r].value, u.next, current, legacy)
  {
    PlannedSnapshots(rows, current, Some(legacy), ivs);
    hide PlanSnapshots, SameSnapshot, SnapshotCurrent;
    var us := PlanSnapshots(rows, current, Some(legacy), ivs).value.updates;
    var k :| 0 <= k < |us| && us[k] == u;
    var i :| 0 <= i < |rows| && FromRow(us[k], rows[i], current, Some(legacy));
    assert i == r;
  }

  /** Against two snapshots of one meaning a third compares alike. */
  lemma SameSnapshotEither(was: Snapshot, next: Snapshot, other: Snapshot, current: Key, legacy: Key)
    requires SameSnapshot(was, next, current, legacy)
    ensures SameSnapshot(other, next, current, legacy) <==> SameSnapshot(was, other, current, legacy)
  {
    SameSnapshotSymmetric(was, next, current, legacy);
    if SameSnapshot(was, other, current, legacy) {
      SameSnapshotTransitive(was, other, next, current, legacy);
    }
    if SameSnapshot(other, next, current, legacy) {
      SameSnapshotSymmetric(other, next, current, legacy);
      SameSnapshotTransitive(next, was, other, current, legacy);
    }
  }

  /**
   * The snapshot update has no such guard: whatever another process put there after planning is replaced.
   * Every slot keeps its meaning exactly when the other process had kept what was read at planning: the same
   * shape, the same other fields and the same plaintexts.
   */
  lemma SnapshotWriteIsBlind(s: State, rows: seq<Row<Snapshot>>, r: nat, u: SnapshotUpdate, other: Snapshot,
                             current: Key, legacy: Key, ivs: nat -> (nat -> nat))
    requires PlannedFrom(rows, r, u, current, legacy, ivs)
    requires s.process.Writing? && s.process.queue != [] && s.process.queue[0] == SnapshotWrite(u)
    ensures var poked := Step(s, OtherVersion(u.id, other));
            var after := Step(poked, DoWrite);
            && after.db.versions == s.db.versions[u.id := u.next]
            && (SameView(poked.db, after.db, current, legacy) <==> SameSnapshot(rows[r].value, other, current, legacy))
  {
    PlannedFromRow(rows, r, u, current, legacy, ivs);
    SameSnapshotEither(rows[r].value, u.next, other, current, legacy);
    hide PlannedFrom, SameSnapshot;
    var poked := Step(s, OtherVersion(u.id, other));
    ReflexiveView(poked.db, current, legacy);
    assert poked.db.versions[u.id := u.next] == s.db.versions[u.id := u.next];
    assert SameSnapshot(other, u.next, current, legacy) ==> SameVersions(poked.db.versions, Step(poked, DoWrite).db.versions, current, legacy);
  }
}
