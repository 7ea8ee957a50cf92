/** Which runs of the key migration get through, and what a completed run leaves behind. */
module MigrationCompletion {
  import opened Prelude
  import opened KeyMigration
  import opened MigrationRuns
  import opened MigrationSafety

  // ---------------------------------------------------------------- when planning succeeds

  /** No available key opens the text. */
  predicate Unreadable(text: Text, current: Key, legacy: Option<Key>) {
    && !text.Blank? && !IsDecryptable(text, current)
    && (legacy.Some? ==> !IsDecryptable(text, legacy.value))
  }

  predicate BadItem(item: Item, current: Key, legacy: Option<Key>) {
    item.NullItem? || (item.Keyed? && Unreadable(item.text, current, legacy))
  }

  predicate BadSnapshot(s: Snapshot, current: Key, legacy: Option<Key>) {
    s.Items? && exists k | 0 <= k < |s.items| :: BadItem(s.items[k], current, legacy)
  }

  predicate BadRow(row: Row<Secret>, current: Key, legacy: Option<Key>) {
    Unreadable(TextOf(row.value), current, legacy)
  }

  lemma {:induction false} SecretsPlannable(rows: seq<Row<Secret>>, current: Key, legacy: Option<Key>, ivs: nat -> nat)
    ensures PlanSecrets(rows, current, legacy, ivs).Ok? <==> forall i | 0 <= i < |rows| :: !BadRow(rows[i], current, legacy)
  {
    if rows != [] {
      SecretsPlannable(rows[..|rows| - 1], current, legacy, ivs);
    }
  }

  lemma {:induction false} ItemsPlannable(items: seq<Item>, current: Key, legacy: Option<Key>, ivs: nat -> nat)
    ensures RewriteItems(items, current, legacy, ivs).Ok? <==> forall k | 0 <= k < |items| :: !BadItem(items[k], current, legacy)
  {
    if items != [] {
      ItemsPlannable(items[..|items| - 1], current, legacy, ivs);
    }
  }

  lemma {:induction false} SnapshotsPlannable(rows: seq<Row<Snapshot>>, current: Key, legacy: Option<Key>, ivs: nat -> (nat -> nat))
    ensures PlanSnapshots(rows, current, legacy, ivs).Ok? <==>
            forall i | 0 <= i < |rows| :: !BadSnapshot(rows[i].value, current, legacy)
  {
    if rows != [] {
      var last := |rows| - 1;
      SnapshotsPlannable(rows[..last], current, legacy, ivs);
      if rows[last].value.Items? {
        ItemsPlannable(rows[last].value.items, current, legacy, ivs(last));
      }
    }
  }

  predicate Plannable(t: Tables, current: Key, legacy: Option<Key>) {
    && (forall i | 0 <= i < |t.providers| :: !BadRow(t.providers[i], current, legacy))
    && (forall i | 0 <= i < |t.connections| :: !BadRow(t.connections[i], current, legacy))
    && (forall i | 0 <= i < |t.versions| :: !BadSnapshot(t.versions[i].value, current, legacy))
  }

  /** The current key is configured and long enough; a legacy key, if there is one, too, and it is another. */
  predicate ProperKeys(c: Config) {
    && c.current.Some? && |c.current.value| >= 32
    && (c.legacy.Some? && c.legacy.value != "" ==> |c.legacy.value| >= 32 && c.legacy != c.current)
  }

  /** The text was sealed under this key, and not around nothing. */
  predicate Opens(text: Text, key: string) {
    text.Sealed? && text.key == key && text.plain != ""
  }

  /** One of the configured keys opens the text, if there is one. */
  predicate Readable(text: Text, c: Config) {
    || text == Blank
    || (c.current.Some? && Opens(text, c.current.value))
    || (c.legacy.Some? && c.legacy.value != "" && Opens(text, c.legacy.value))
  }

  predicate ReadableSecret(secret: Secret, c: Config) {
    secret == None || Readable(secret.value, c)
  }

  predicate ReadableItem(item: Item, c: Config) {
    item != NullItem && (item.Keyed? ==> Readable(item.text, c))
  }

  predicate AllReadable(t: Tables, c: Config) {
    && (forall i | 0 <= i < |t.providers| :: ReadableSecret(t.providers[i].value, c))
    && (forall i | 0 <= i < |t.connections| :: ReadableSecret(t.connections[i].value, c))
    && (forall i, k | 0 <= i < |t.versions| && t.versions[i].value.Items? && 0 <= k < |t.versions[i].value.items| ::
          ReadableItem(t.versions[i].value.items[k], c))
  }

  lemma ReadableIsPlannable(t: Tables, c: Config)
    requires ProperKeys(c)
    ensures ReadKey(c.current, true) == Ok(c.current)
    ensures ReadKey(c.legacy, false) == Ok(if c.legacy == Some("") then None else c.legacy)
    ensures Plannable(t, c.current.value, ReadKey(c.legacy, false).value) <==> AllReadable(t, c)
  {
    var legacy := ReadKey(c.legacy, false).value;
    forall text ensures Unreadable(text, c.current.value, legacy) <==> !Readable(text, c) {
    }
    forall row ensures BadRow(row, c.current.value, legacy) <==> !ReadableSecret(row.value, c) {
    }
    forall item ensures BadItem(item, c.current.value, legacy) <==> !ReadableItem(item, c) {
    }
    hide BadRow, BadItem, ReadableSecret, ReadableItem, ReadKey;
    forall i | 0 <= i < |t.versions|
      ensures BadSnapshot(t.versions[i].value, c.current.value, legacy) <==>
              t.versions[i].value.Items? && exists k | 0 <= k < |t.versions[i].value.items| :: !ReadableItem(t.versions[i].value.items[k], c)
    {
    }
  }

  /**
   * Fail closed: with secrets stored, a run gets to write exactly when the current key and, if given, the legacy key
   * have at least 32 characters and differ, every stored text opens under one of them, and no snapshot array has a null
   * element; then it writes under the configured current key. Otherwise it is rejected.
   */
  lemma PlanSucceedsExactly(t: Tables, config: Config, ivs: Randoms)
    requires !NothingStored(t)
    ensures PlanRun(t, config, ivs).Accepted? <==> ProperKeys(config) && AllReadable(t, config)
    ensures PlanRun(t, config, ivs).Accepted? ==> Some(PlanRun(t, config, ivs).current) == config.current
    ensures !PlanRun(t, config, ivs).Accepted? ==> PlanRun(t, config, ivs).Rejected?
  {
    StoredIsSeen(t);
    if ProperKeys(config) {
      ReadableIsPlannable(t, config);
      var current, legacy := ReadKey(config.current, true).value.value, ReadKey(config.legacy, false).value;
      SecretsPlannable(t.providers, current, legacy, ivs.providers);
      SecretsPlannable(t.connections, current, legacy, ivs.connections);
      SnapshotsPlannable(t.versions, current, legacy, ivs.versions);
    }
  }

  /** No row and no snapshot item holds a text. */
  predicate NothingStored(t: Tables) {
    && (forall i | 0 <= i < |t.providers| :: t.providers[i].value == None || t.providers[i].value == Some(Blank))
    && (forall i | 0 <= i < |t.connections| :: t.connections[i].value == None || t.connections[i].value == Some(Blank))
    && (forall i, k | 0 <= i < |t.versions| && t.versions[i].value.Items? && 0 <= k < |t.versions[i].value.items| ::
          t.versions[i].value.items[k].Keyed? ==> t.versions[i].value.items[k].text == Blank)
  }

  lemma StoredIsSeen(t: Tables)
    ensures HasEncryptedSecrets(t) <==> !NothingStored(t)
  {
    forall i, k | 0 <= i < |t.versions| && t.versions[i].value.Items? && 0 <= k < |t.versions[i].value.items|
      ensures HoldsText(t.versions[i].value.items[k]) <==>
              t.versions[i].value.items[k].Keyed? && t.versions[i].value.items[k].text != Blank
    {
    }
  }

  /** A run is skipped, whatever the configuration, exactly if nothing is stored. */
  lemma SkippedExactly(t: Tables, config: Config, ivs: Randoms)
    ensures PlanRun(t, config, ivs).Skipped? <==> NothingStored(t)
  {
    StoredIsSeen(t);
  }

  /** Every stored text was sealed under this key. */
  predicate SecretUnder(secret: Secret, key: string) {
    secret == None || secret == Some(Blank) || Opens(secret.value, key)
  }

  predicate SnapshotUnder(s: Snapshot, key: string) {
    s.Items? ==> forall k | 0 <= k < |s.items| && s.items[k].Keyed? :: s.items[k].text == Blank || Opens(s.items[k].text, key)
  }

  ghost predicate AllUnder(db: Db, key: string) {
    && (forall id | id in db.providers :: SecretUnder(db.providers[id], key))
    && (forall id | id in db.connections :: SecretUnder(db.connections[id], key))
    && (forall id | id in db.versions :: SnapshotUnder(db.versions[id], key))
  }

  /** The final verification passes exactly if every stored text is under the key. */
  lemma VerifiedExactly(db: Db, key: Key)
    ensures AllCurrent(db, key) <==> AllUnder(db, key)
  {
    forall secret: Secret ensures TextCurrent(TextOf(secret), key) <==> SecretUnder(secret, key) {
    }
    forall s: Snapshot ensures SnapshotCurrent(s, key) <==> SnapshotUnder(s, key) {
    }
    hide TextCurrent, SecretUnder, SnapshotCurrent, SnapshotUnder;
  }

  /** Whatever other processes write: a run that has just finished found nothing stored, or has everything under its key. */
  lemma FinishedExactly(s: State, e: Event)
    requires s.process != Done
    ensures Step(s, e).process == Done <==>
            match e
            case Start(t, _, _) => !s.process.Writing? && NothingStored(t)
            case Verify => s.process.Writing? && s.process.queue == [] && AllUnder(s.db, s.process.current)
            case _ => false
  {
    match e
    case Start(t, config, ivs) => SkippedExactly(t, config, ivs);
    case Verify =>
      if s.process.Writing? {
        VerifiedExactly(s.db, s.process.current);
      }
    case _ =>
  }

  // ---------------------------------------------------------------- accounting

  /** Secrets under this key, and secrets that are not. */
  function SecretsUnder(rows: seq<Row<Secret>>, key: string): nat {
    if rows == [] then 0
    else
      var value := rows[|rows| - 1].value;
      SecretsUnder(rows[..|rows| - 1], key) + if value.Some? && Opens(value.value, key) then 1 else 0
  }

  function SecretsElse(rows: seq<Row<Secret>>, key: string): nat {
    if rows == [] then 0
    else
      var value := rows[|rows| - 1].value;
      SecretsElse(rows[..|rows| - 1], key) + if value.Some? && value.value != Blank && !Opens(value.value, key) then 1 else 0
  }

  /** An update is planned for each secret that is not under the current key, and the others are counted. */
  lemma {:induction false} PlanAccountsForAll(rows: seq<Row<Secret>>, current: Key, legacy: Option<Key>, ivs: nat -> nat)
    requires PlanSecrets(rows, current, legacy, ivs).Ok?
    ensures var plan := PlanSecrets(rows, current, legacy, ivs).value;
            |plan.updates| == SecretsElse(rows, current) && plan.alreadyMigrated == SecretsUnder(rows, current)
  {
    if rows != [] {
      PlanAccountsForAll(rows[..|rows| - 1], current, legacy, ivs);
    }
  }

  /** How many items hold a text under this key, and how many hold another one. */
  function TextsUnder(items: seq<Item>, key: string): nat {
    if items == [] then 0
    else
      var item := items[|items| - 1];
      TextsUnder(items[..|items| - 1], key) + if item.Keyed? && Opens(item.text, key) then 1 else 0
  }

  function TextsElse(items: seq<Item>, key: string): nat {
    if items == [] then 0
    else
      var item := items[|items| - 1];
      TextsElse(items[..|items| - 1], key) + if item.Keyed? && item.text != Blank && !Opens(item.text, key) then 1 else 0
  }

  /** The texts under this key in all snapshots, and the snapshots with another one. */
  function SnapshotTextsUnder(rows: seq<Row<Snapshot>>, key: string): nat {
    if rows == [] then 0
    else
      var value := rows[|rows| - 1].value;
      SnapshotTextsUnder(rows[..|rows| - 1], key) + if value.Items? then TextsUnder(value.items, key) else 0
  }

  function SnapshotsElse(rows: seq<Row<Snapshot>>, key: string): nat {
    if rows == [] then 0
    else
      var value := rows[|rows| - 1].value;
      SnapshotsElse(rows[..|rows| - 1], key) + if value.Items? && TextsElse(value.items, key) > 0 then 1 else 0
  }

  lemma {:induction false} RewriteAccountsForAll(items: seq<Item>, current: Key, legacy: Option<Key>, ivs: nat -> nat)
    requires RewriteItems(items, current, legacy, ivs).Ok?
    ensures var r := RewriteItems(items, current, legacy, ivs).value;
            r.alreadyMigrated == TextsUnder(items, current) && (r.changed <==> TextsElse(items, current) > 0)
  {
    if items != [] {
      RewriteAccountsForAll(items[..|items| - 1], current, legacy, ivs);
    }
  }

  /** Of the texts in all snapshots the plan counts those under the current key, and it updates each snapshot with another one. */
  lemma {:induction false} SnapshotPlanAccountsForAll(rows: seq<Row<Snapshot>>, current: Key, legacy: Option<Key>, ivs: nat -> (nat -> nat))
    requires PlanSnapshots(rows, current, legacy, ivs).Ok?
    ensures var plan := PlanSnapshots(rows, current, legacy, ivs).value;
            |plan.updates| == SnapshotsElse(rows, current) && plan.alreadyMigrated == SnapshotTextsUnder(rows, current)
  {
    if rows != [] {
      var last := |rows| - 1;
      SnapshotPlanAccountsForAll(rows[..last], current, legacy, ivs);
      if rows[last].value.Items? {
        RewriteAccountsForAll(rows[last].value.items, current, legacy, ivs(last));
      }
    }
  }

  // ---------------------------------------------------------------- a run on course

  datatype Slot = ProviderSlot(id: nat) | ConnectionSlot(id: nat) | VersionSlot(id: nat)

  function Target(w: Write): Slot {
    match w
    case ProviderWrite(u) => ProviderSlot(u.id)
    case ConnectionWrite(u) => ConnectionSlot(u.id)
    case SnapshotWrite(u) => VersionSlot(u.id)
  }

  predicate SlotCurrent(db: Db, slot: Slot, current: Key) {
    match slot
    case ProviderSlot(id) => id in db.providers ==> TextCurrent(TextOf(db.providers[id]), current)
    case ConnectionSlot(id) => id in db.connections ==> TextCurrent(TextOf(db.connections[id]), current)
    case VersionSlot(id) => id in db.versions ==> SnapshotCurrent(db.versions[id], current)
  }

  /** The write would succeed now, and leave its slot current. */
  predicate Ready(db: Db, w: Write, current: Key) {
    match w
    case ProviderWrite(u) =>
      u.id in db.providers && db.providers[u.id] == Some(u.current) && TextCurrent(u.next, current)
    case ConnectionWrite(u) =>
      u.id in db.connections && db.connections[u.id] == Some(u.current) && TextCurrent(u.next, current)
    case SnapshotWrite(u) => u.id in db.versions && SnapshotCurrent(u.next, current)
  }

  predicate Targets(queue: seq<Write>, slot: Slot) {
    exists k | 0 <= k < |queue| :: Target(queue[k]) == slot
  }

  /** All writes are ready, no two have one target, and every slot that is not current is a target. */
  ghost predicate OnCourse(db: Db, queue: seq<Write>, current: Key) {
    && (forall k | 0 <= k < |queue| :: Ready(db, queue[k], current))
    && (forall j, k | 0 <= j < k < |queue| :: Target(queue[j]) != Target(queue[k]))
    && (forall slot :: SlotCurrent(db, slot, current) || Targets(queue, slot))
  }

  lemma WriteTouchesOneSlot(db: Db, w: Write, v: Write, slot: Slot, current: Key)
    requires Ready(db, w, current)
    ensures WriteStep(db, w).1
    ensures SlotCurrent(WriteStep(db, w).0, Target(w), current)
    ensures slot != Target(w) ==> SlotCurrent(WriteStep(db, w).0, slot, current) == SlotCurrent(db, slot, current)
    ensures Target(v) != Target(w) ==> Ready(WriteStep(db, w).0, v, current) == Ready(db, v, current)
  {
  }

  lemma WriteStaysOnCourse(db: Db, queue: seq<Write>, current: Key)
    requires queue != [] && OnCourse(db, queue, current)
    ensures WriteStep(db, queue[0]).1
    ensures OnCourse(WriteStep(db, queue[0]).0, queue[1..], current)
  {
    hide SlotCurrent, Ready, WriteStep;
    var w, rest := queue[0], queue[1..];
    var after := WriteStep(db, w).0;
    forall k | 0 <= k < |rest| ensures Ready(after, rest[k], current) {
      WriteTouchesOneSlot(db, w, rest[k], Target(w), current);
      assert Ready(db, queue[k + 1], current);
    }
    forall slot ensures SlotCurrent(after, slot, current) || Targets(rest, slot) {
      WriteTouchesOneSlot(db, w, w, slot, current);
      if slot != Target(w) && !SlotCurrent(db, slot, current) {
        var k :| 0 <= k < |queue| && Target(queue[k]) == slot;
        assert Target(rest[k - 1]) == slot;
      }
    }
    WriteTouchesOneSlot(db, w, w, Target(w), current);
  }

  lemma CourseEndsCurrent(db: Db, current: Key)
    requires OnCourse(db, [], current)
    ensures AllCurrent(db, current)
  {
    forall id | id in db.providers ensures TextCurrent(TextOf(db.providers[id]), current) {
      assert SlotCurrent(db, ProviderSlot(id), current);
    }
    forall id | id in db.connections ensures TextCurrent(TextOf(db.connections[id]), current) {
      assert SlotCurrent(db, ConnectionSlot(id), current);
    }
    forall id | id in db.versions ensures SnapshotCurrent(db.versions[id], current) {
      assert SlotCurrent(db, VersionSlot(id), current);
    }
  }

  // ---------------------------------------------------------------- a fresh plan is on course

  /** The rows are the whole table, each row once. */
  ghost predicate Lists<V>(rows: seq<Row<V>>, m: map<nat, V>) {
    && ReadFrom(rows, m)
    && (forall i, j | 0 <= i < j < |rows| :: rows[i].id != rows[j].id)
    && (forall id | id in m :: HasRow(rows, id))
  }

  predicate HasRow<V>(rows: seq<Row<V>>, id: nat) {
    exists i | 0 <= i < |rows| :: rows[i].id == id
  }

  predicate SecretFrom(u: SecretUpdate, row: Row<Secret>, current: Key) {
    u.id == row.id && row.value == Some(u.current) && TextCurrent(u.next, current)
  }

  predicate SecretFromRows(u: SecretUpdate, rows: seq<Row<Secret>>, current: Key) {
    exists i :: 0 <= i < |rows| && SecretFrom(u, rows[i], current)
  }

  predicate SecretPlanned(us: seq<SecretUpdate>, id: nat) {
    exists k | 0 <= k < |us| :: us[k].id == id
  }

  ghost predicate CoversSecrets(us: seq<SecretUpdate>, rows: seq<Row<Secret>>, current: Key) {
    && (forall k | 0 <= k < |us| :: SecretFromRows(us[k], rows, current))
    && (forall i | 0 <= i < |rows| :: TextCurrent(TextOf(rows[i].value), current) || SecretPlanned(us, rows[i].id))
    && (forall j, k | 0 <= j < k < |us| :: us[j].id != us[k].id)
  }

  lemma {:induction false} PlanCoversSecrets(rows: seq<Row<Secret>>, current: Key, legacy: Option<Key>, ivs: nat -> nat)
    requires PlanSecrets(rows, current, legacy, ivs).Ok?
    requires forall i, j | 0 <= i < j < |rows| :: rows[i].id != rows[j].id
    ensures CoversSecrets(PlanSecrets(rows, current, legacy, ivs).value.updates, rows, current)
  {
    if rows != [] {
      var last := |rows| - 1;
      PlanCoversSecrets(rows[..last], current, legacy, ivs);
      var before := PlanSecrets(rows[..last], current, legacy, ivs).value.updates;
      var us := PlanSecrets(rows, current, legacy, ivs).value.updates;
      SecretsExtend(before, us, rows, current);
    }
  }

  lemma SecretsExtend(before: seq<SecretUpdate>, us: seq<SecretUpdate>, rows: seq<Row<Secret>>, current: Key)
    requires rows != [] && CoversSecrets(before, rows[..|rows| - 1], current)
    requires forall i, j | 0 <= i < j < |rows| :: rows[i].id != rows[j].id
    requires if TextCurrent(TextOf(rows[|rows| - 1].value), current) then us == before
             else |us| == |before| + 1 && us[..|before|] == before && SecretFrom(us[|before|], rows[|rows| - 1], current)
    ensures CoversSecrets(us, rows, current)
  {
    var last := |rows| - 1;
    assert forall k | 0 <= k < |before| :: us[k] == us[..|before|][k] == before[k];
    forall k | 0 <= k < |us| ensures SecretFromRows(us[k], rows, current) {
      if k < |before| {
        assert SecretFromRows(before[k], rows[..last], current);
        var i :| 0 <= i < last && SecretFrom(before[k], rows[..last][i], current);
        assert SecretFrom(us[k], rows[i], current);
      } else {
        assert SecretFrom(us[k], rows[last], current);
      }
    }
    forall i | 0 <= i < |rows| ensures TextCurrent(TextOf(rows[i].value), current) || SecretPlanned(us, rows[i].id) {
      if i < last {
        assert rows[..last][i] == rows[i];
        if SecretPlanned(before, rows[i].id) {
          var k :| 0 <= k < |before| && before[k].id == rows[i].id;
          assert us[k].id == rows[i].id;
        }
      } else if !TextCurrent(TextOf(rows[last].value), current) {
        assert us[|before|].id == rows[last].id;
      }
    }
    forall j, k | 0 <= j < k < |us| ensures us[j].id != us[k].id {
      if k == |before| {
        assert SecretFromRows(before[j], rows[..last], current);
        var i :| 0 <= i < last && SecretFrom(before[j], rows[..last][i], current);
        assert rows[i].id != rows[last].id;
      }
    }
  }

  predicate SnapshotFrom(u: SnapshotUpdate, row: Row<Snapshot>, current: Key) {
    u.id == row.id && SnapshotCurrent(u.next, current)
  }

  predicate SnapshotFromRows(u: SnapshotUpdate, rows: seq<Row<Snapshot>>, current: Key) {
    exists i :: 0 <= i < |rows| && SnapshotFrom(u, rows[i], current)
  }

  predicate SnapshotPlanned(us: seq<SnapshotUpdate>, id: nat) {
    exists k | 0 <= k < |us| :: us[k].id == id
  }

  ghost predicate CoversSnapshots(us: seq<SnapshotUpdate>, rows: seq<Row<Snapshot>>, current: Key) {
    && (forall k | 0 <= k < |us| :: SnapshotFromRows(us[k], rows, current))
    && (forall i | 0 <= i < |rows| :: SnapshotCurrent(rows[i].value, current) || SnapshotPlanned(us, rows[i].id))
    && (forall j, k | 0 <= j < k < |us| :: us[j].id != us[k].id)
  }

  lemma SnapshotsExtend(before: seq<SnapshotUpdate>, us: seq<SnapshotUpdate>, rows: seq<Row<Snapshot>>, current: Key)
    requires rows != [] && CoversSnapshots(before, rows[..|rows| - 1], current)
    requires forall i, j | 0 <= i < j < |rows| :: rows[i].id != rows[j].id
    requires || (us == before && SnapshotCurrent(rows[|rows| - 1].value, current))
             || (|us| == |before| + 1 && us[..|before|] == before && SnapshotFrom(us[|before|], rows[|rows| - 1], current))
    ensures CoversSnapshots(us, rows, current)
  {
    var last := |rows| - 1;
    assert forall k | 0 <= k < |before| :: us[k] == us[..|before|][k] == before[k];
    forall k | 0 <= k < |us| ensures SnapshotFromRows(us[k], rows, current) {
      if k < |before| {
        assert SnapshotFromRows(before[k], rows[..last], current);
        var i :| 0 <= i < last && SnapshotFrom(before[k], rows[..last][i], current);
        assert SnapshotFrom(us[k], rows[i], current);
      } else {
        assert SnapshotFrom(us[k], rows[last], current);
      }
    }
    forall i | 0 <= i < |rows| ensures SnapshotCurrent(rows[i].value, current) || SnapshotPlanned(us, rows[i].id) {
      if i < last {
        assert rows[..last][i] == rows[i];
        if SnapshotPlanned(before, rows[i].id) {
          var k :| 0 <= k < |before| && before[k].id == rows[i].id;
          assert us[k].id == rows[i].id;
        }
      } else if us != before {
        assert us[|before|].id == rows[last].id;
      }
    }
    forall j, k | 0 <= j < k < |us| ensures us[j].id != us[k].id {
      if k == |before| {
        assert SnapshotFromRows(before[j], rows[..last], current);
        var i :| 0 <= i < last && SnapshotFrom(before[j], rows[..last][i], current);
        assert rows[i].id != rows[last].id;
      }
    }
  }

  lemma {:induction false} PlanCoversSnapshots(rows: seq<Row<Snapshot>>, current: Key, legacy: Option<Key>, ivs: nat -> (nat -> nat))
    requires PlanSnapshots(rows, current, legacy, ivs).Ok?
    requires forall i, j | 0 <= i < j < |rows| :: rows[i].id != rows[j].id
    ensures CoversSnapshots(PlanSnapshots(rows, current, legacy, ivs).value.updates, rows, current)
  {
    if rows != [] {
      var last := |rows| - 1;
      PlanCoversSnapshots(rows[..last], current, legacy, ivs);
      var before := PlanSnapshots(rows[..last], current, legacy, ivs).value.updates;
      var us := PlanSnapshots(rows, current, legacy, ivs).value.updates;
      LastSnapshot(rows[last], before, current, legacy, ivs(last));
      SnapshotsExtend(before, us, rows, current);
    }
  }

  lemma LastSnapshot(row: Row<Snapshot>, before: seq<SnapshotUpdate>, current: Key, legacy: Option<Key>, ivs: nat -> nat)
    requires row.value.Items? ==> RewriteItems(row.value.items, current, legacy, ivs).Ok?
    ensures !row.value.Items? ==> SnapshotCurrent(row.value, current)
    ensures row.value.Items? ==>
              var done := RewriteItems(row.value.items, current, legacy, ivs).value;
              && SnapshotCurrent(Items(done.items), current)
              && (!done.changed ==> SnapshotCurrent(row.value, current))
  {
    if row.value.Items? {
      RewrittenItems(row.value.items, current, legacy, ivs);
      var done := RewriteItems(row.value.items, current, legacy, ivs).value;
      forall k | 0 <= k < |done.items| && done.items[k].Keyed? ensures TextCurrent(done.items[k].text, current) {
        assert ItemRewritten(row.value.items[k], done.items[k], current, legacy);
      }
    }
  }

  ghost predicate ListsAll(t: Tables, db: Db) {
    Lists(t.providers, db.providers) && Lists(t.connections, db.connections) && Lists(t.versions, db.versions)
  }

  lemma CoveredIsOnCourse(db: Db, t: Tables, ps: seq<SecretUpdate>, cs: seq<SecretUpdate>, ss: seq<SnapshotUpdate>, current: Key)
    requires ListsAll(t, db)
    requires CoversSecrets(ps, t.providers, current) && CoversSecrets(cs, t.connections, current)
    requires CoversSnapshots(ss, t.versions, current)
    ensures OnCourse(db, ProviderWrites(ps) + ConnectionWrites(cs) + SnapshotWrites(ss), current)
  {
    var queue := ProviderWrites(ps) + ConnectionWrites(cs) + SnapshotWrites(ss);
    var m, n := |ps|, |ps| + |cs|;
    assert forall k | 0 <= k < m :: queue[k] == ProviderWrite(ps[k]);
    assert forall k | m <= k < n :: queue[k] == ConnectionWrite(cs[k - m]);
    assert forall k | n <= k < |queue| :: queue[k] == SnapshotWrite(ss[k - n]);
    forall k | 0 <= k < |queue| ensures Ready(db, queue[k], current) {
      if k < m {
        assert SecretFromRows(ps[k], t.providers, current);
      } else if k < n {
        assert SecretFromRows(cs[k - m], t.connections, current);
      } else {
        assert SnapshotFromRows(ss[k - n], t.versions, current);
      }
    }
    forall slot ensures SlotCurrent(db, slot, current) || Targets(queue, slot) {
      CoveredSlot(db, t, ps, cs, ss, current, slot);
    }
  }

  lemma CoveredSlot(db: Db, t: Tables, ps: seq<SecretUpdate>, cs: seq<SecretUpdate>, ss: seq<SnapshotUpdate>, current: Key, slot: Slot)
    requires ListsAll(t, db)
    requires CoversSecrets(ps, t.providers, current) && CoversSecrets(cs, t.connections, current)
    requires CoversSnapshots(ss, t.versions, current)
    ensures SlotCurrent(db, slot, current) || Targets(ProviderWrites(ps) + ConnectionWrites(cs) + SnapshotWrites(ss), slot)
  {
    hide TextCurrent, SnapshotCurrent, SecretFromRows, SnapshotFromRows;
    if !SlotCurrent(db, slot, current) {
      match slot {
        case ProviderSlot(id) =>
          var i :| 0 <= i < |t.providers| && t.providers[i].id == id;
          assert SecretPlanned(ps, t.providers[i].id);
        case ConnectionSlot(id) =>
          var i :| 0 <= i < |t.connections| && t.connections[i].id == id;
          assert SecretPlanned(cs, t.connections[i].id);
        case VersionSlot(id) =>
          var i :| 0 <= i < |t.versions| && t.versions[i].id == id;
          assert SnapshotPlanned(ss, t.versions[i].id);
      }
      PlannedIsTarget(ps, cs, ss, slot);
    }
  }

  /** The slot has a planned update. */
  predicate IsPlanned(ps: seq<SecretUpdate>, cs: seq<SecretUpdate>, ss: seq<SnapshotUpdate>, slot: Slot) {
    match slot
    case ProviderSlot(id) => SecretPlanned(ps, id)
    case ConnectionSlot(id) => SecretPlanned(cs, id)
    case VersionSlot(id) => SnapshotPlanned(ss, id)
  }

  lemma PlannedIsTarget(ps: seq<SecretUpdate>, cs: seq<SecretUpdate>, ss: seq<SnapshotUpdate>, slot: Slot)
    requires IsPlanned(ps, cs, ss, slot)
    ensures Targets(ProviderWrites(ps) + ConnectionWrites(cs) + SnapshotWrites(ss), slot)
  {
    var queue := ProviderWrites(ps) + ConnectionWrites(cs) + SnapshotWrites(ss);
    match slot
    case ProviderSlot(id) =>
      var k :| 0 <= k < |ps| && ps[k].id == id;
      assert Target(queue[k]) == slot;
    case ConnectionSlot(id) =>
      var k :| 0 <= k < |cs| && cs[k].id == id;
      assert Target(queue[|ps| + k]) == slot;
    case VersionSlot(id) =>
      var k :| 0 <= k < |ss| && ss[k].id == id;
      assert Target(queue[|ps| + |cs| + k]) == slot;
  }

  lemma PlanIsOnCourse(db: Db, t: Tables, config: Config, ivs: Randoms)
    requires ListsAll(t, db) && PlanRun(t, config, ivs).Accepted?
    ensures OnCourse(db, PlanRun(t, config, ivs).writes, PlanRun(t, config, ivs).current)
  {
    var current, legacy := ReadKey(config.current, true).value.value, ReadKey(config.legacy, false).value;
    PlanCoversSecrets(t.providers, current, legacy, ivs.providers);
    PlanCoversSecrets(t.connections, current, legacy, ivs.connections);
    PlanCoversSnapshots(t.versions, current, legacy, ivs.versions);
    CoveredIsOnCourse(db, t,
                      PlanSecrets(t.providers, current, legacy, ivs.providers).value.updates,
                      PlanSecrets(t.connections, current, legacy, ivs.connections).value.updates,
                      PlanSnapshots(t.versions, current, legacy, ivs.versions).value.updates, current);
  }

  lemma NothingStoredIsCurrent(db: Db, t: Tables, current: Key)
    requires ListsAll(t, db) && !HasEncryptedSecrets(t)
    ensures AllCurrent(db, current)
  {
    forall id | id in db.providers ensures TextCurrent(TextOf(db.providers[id]), current) {
      assert HasRow(t.providers, id);
    }
    forall id | id in db.connections ensures TextCurrent(TextOf(db.connections[id]), current) {
      assert HasRow(t.connections, id);
    }
    forall id | id in db.versions ensures SnapshotCurrent(db.versions[id], current) {
      assert HasRow(t.versions, id);
      var i :| 0 <= i < |t.versions| && t.versions[i].id == id;
      if db.versions[id].Items? {
        forall k | 0 <= k < |db.versions[id].items| && db.versions[id].items[k].Keyed?
          ensures TextCurrent(db.versions[id].items[k].text, current)
        {
          assert !HoldsText(t.versions[i].value.items[k]);
        }
      }
    }
  }

  // ---------------------------------------------------------------- main results: runs without another writer

  /** Each start reads the whole tables and is given the same current key; nobody else writes. */
  ghost predicate Alone(s: State, e: Event, current: Key) {
    && !ByOthers(e)
    && (e.Start? ==> ListsAll(e.tables, s.db)
                     && (e.config.current.Some? && |e.config.current.value| >= 32 ==> e.config.current == Some(current)))
  }

  ghost predicate AloneRun(s: State, events: seq<Event>, current: Key) {
    forall k | 0 <= k < |events| :: Alone(Run(s, events[..k]), events[k], current)
  }

  ghost predicate Healthy(s: State, current: Key) {
    match s.process
    case Idle => true
    case Writing(c, queue) => c == current && OnCourse(s.db, queue, current)
    case Done => AllUnder(s.db, current)
    case Failed(e) => e != Changed && e != NotCurrent
  }

  lemma RejectionKind(t: Tables, config: Config, ivs: Randoms)
    requires PlanRun(t, config, ivs).Rejected?
    ensures PlanRun(t, config, ivs).error != Changed && PlanRun(t, config, ivs).error != NotCurrent
  {
    if ReadKey(config.current, true).Ok? && ReadKey(config.legacy, false).Ok? && ReadKey(config.current, true).value.Some? {
      var current, legacy := ReadKey(config.current, true).value.value, ReadKey(config.legacy, false).value;
      SecretErrors(t.providers, current, legacy, ivs.providers);
      SecretErrors(t.connections, current, legacy, ivs.connections);
      SnapshotErrors(t.versions, current, legacy, ivs.versions);
    }
  }

  /** Why the keys of a run that has something to do are rejected, if they are. */
  lemma KeysRejectedBecause(t: Tables, config: Config, ivs: Randoms)
    requires !NothingStored(t)
    ensures var (plan, current, legacy) := (PlanRun(t, config, ivs), config.current, config.legacy);
            && (plan == Rejected(NoCurrentKey) <==> current == None || current == Some(""))
            && (plan == Rejected(ShortKey) <==>
                  && current.Some? && current.value != ""
                  && (|current.value| < 32 || (legacy.Some? && 0 < |legacy.value| < 32)))
            && (plan == Rejected(SameKeys) <==> current.Some? && |current.value| >= 32 && legacy == current)
  {
    StoredIsSeen(t);
    if ReadKey(config.current, true).Ok? && ReadKey(config.legacy, false).Ok? && ReadKey(config.current, true).value.Some? {
      var current, legacy := ReadKey(config.current, true).value.value, ReadKey(config.legacy, false).value;
      SecretErrors(t.providers, current, legacy, ivs.providers);
      SecretErrors(t.connections, current, legacy, ivs.connections);
      SnapshotErrors(t.versions, current, legacy, ivs.versions);
    }
  }

  /** The complaint about a text that opens under no key. */
  function KeyError(legacy: Option<Key>): Error {
    if legacy.None? then NoLegacyKey else BadSecret
  }

  /** Item `k` is null, and nothing before it is bad. */
  predicate NullAt(items: seq<Item>, current: Key, legacy: Option<Key>, k: nat) {
    k < |items| && items[k] == NullItem && forall j | 0 <= j < k :: !BadItem(items[j], current, legacy)
  }

  predicate NullRow(rows: seq<Row<Snapshot>>, current: Key, legacy: Option<Key>, i: nat, k: nat) {
    && i < |rows| && rows[i].value.Items? && NullAt(rows[i].value.items, current, legacy, k)
    && forall j | 0 <= j < i :: !BadSnapshot(rows[j].value, current, legacy)
  }

  lemma {:induction false} SecretErrors(rows: seq<Row<Secret>>, current: Key, legacy: Option<Key>, ivs: nat -> nat)
    ensures PlanSecrets(rows, current, legacy, ivs).Err? ==> PlanSecrets(rows, current, legacy, ivs).error == KeyError(legacy)
  {
    if rows != [] {
      SecretErrors(rows[..|rows| - 1], current, legacy, ivs);
    }
  }

  lemma {:induction false} ItemErrors(items: seq<Item>, current: Key, legacy: Option<Key>, ivs: nat -> nat)
    ensures RewriteItems(items, current, legacy, ivs).Err? ==>
              RewriteItems(items, current, legacy, ivs).error ==
              if exists k: nat :: NullAt(items, current, legacy, k) then NullInSnapshot else KeyError(legacy)
  {
    if items != [] {
      var n := |items| - 1;
      ItemErrors(items[..n], current, legacy, ivs);
      ItemsPlannable(items[..n], current, legacy, ivs);
      NullIsBad(current, legacy);
      hide BadItem;
      assert forall j | 0 <= j < n :: items[..n][j] == items[j];
      if RewriteItems(items[..n], current, legacy, ivs).Err? {
        var j :| 0 <= j < n && BadItem(items[..n][j], current, legacy);
        forall k: nat ensures NullAt(items, current, legacy, k) <==> NullAt(items[..n], current, legacy, k) {
        }
      } else {
        forall k: nat ensures NullAt(items, current, legacy, k) <==> k == n && items[n] == NullItem {
          assert k < n ==> !BadItem(items[..n][k], current, legacy);
        }
        assert NullAt(items, current, legacy, n) <==> items[n] == NullItem;
      }
    }
  }

  lemma NullIsBad(current: Key, legacy: Option<Key>)
    ensures BadItem(NullItem, current, legacy)
  {
  }

  lemma {:induction false} SnapshotErrors(rows: seq<Row<Snapshot>>, current: Key, legacy: Option<Key>, ivs: nat -> (nat -> nat))
    ensures PlanSnapshots(rows, current, legacy, ivs).Err? ==>
              PlanSnapshots(rows, current, legacy, ivs).error ==
              if exists i: nat, k: nat :: NullRow(rows, current, legacy, i, k) then NullInSnapshot else KeyError(legacy)
  {
    if rows != [] {
      var n := |rows| - 1;
      SnapshotErrors(rows[..n], current, legacy, ivs);
      SnapshotsPlannable(rows[..n], current, legacy, ivs);
      assert forall j | 0 <= j < n :: rows[..n][j] == rows[j];
      if PlanSnapshots(rows[..n], current, legacy, ivs).Err? {
        hide BadSnapshot, NullAt;
        var j :| 0 <= j < n && BadSnapshot(rows[..n][j].value, current, legacy);
        forall i: nat, k: nat ensures NullRow(rows, current, legacy, i, k) <==> NullRow(rows[..n], current, legacy, i, k) {
        }
      } else {
        LastRowErrors(rows, current, legacy, ivs);
      }
    }
  }

  lemma LastRowErrors(rows: seq<Row<Snapshot>>, current: Key, legacy: Option<Key>, ivs: nat -> (nat -> nat))
    requires rows != [] && forall j | 0 <= j < |rows| - 1 :: !BadSnapshot(rows[j].value, current, legacy)
    requires PlanSnapshots(rows[..|rows| - 1], current, legacy, ivs).Ok?
    ensures PlanSnapshots(rows, current, legacy, ivs).Err? ==>
              PlanSnapshots(rows, current, legacy, ivs).error ==
              if exists i: nat, k: nat :: NullRow(rows, current, legacy, i, k) then NullInSnapshot else KeyError(legacy)
  {
    var n := |rows| - 1;
    NullIsBad(current, legacy);
    hide BadItem;
    if rows[n].value.Items? {
      ItemErrors(rows[n].value.items, current, legacy, ivs(n));
      forall i: nat, k: nat ensures NullRow(rows, current, legacy, i, k) <==> i == n && NullAt(rows[n].value.items, current, legacy, k) {
        assert i < n && rows[i].value.Items? && k < |rows[i].value.items| ==> !BadItem(rows[i].value.items[k], current, legacy);
      }
      assert forall k: nat | NullAt(rows[n].value.items, current, legacy, k) :: NullRow(rows, current, legacy, n, k);
      hide RewriteItems;
    }
  }

  /** Every snapshot item before item `k` of row `i`, and every secret, opens; that item is null. */
  ghost predicate NullFirst(t: Tables, config: Config, i: nat, k: nat) {
    && (forall j | 0 <= j < |t.providers| :: ReadableSecret(t.providers[j].value, config))
    && (forall j | 0 <= j < |t.connections| :: ReadableSecret(t.connections[j].value, config))
    && i < |t.versions| && t.versions[i].value.Items? && k < |t.versions[i].value.items| && t.versions[i].value.items[k] == NullItem
    && (forall m | 0 <= m < k :: ReadableItem(t.versions[i].value.items[m], config))
    && (forall j, m | 0 <= j < i && t.versions[j].value.Items? && 0 <= m < |t.versions[j].value.items| ::
          ReadableItem(t.versions[j].value.items[m], config))
  }

  /**
   * Why a run with proper keys is rejected, if something does not open: for a null snapshot item if that is what the
   * planner meets first; else for the lack of a legacy key, or because the given one does not open a text either.
   */
  lemma TextsRejectedBecause(t: Tables, config: Config, ivs: Randoms)
    requires !NothingStored(t) && ProperKeys(config) && !AllReadable(t, config)
    ensures PlanRun(t, config, ivs) == Rejected(
              if exists i: nat, k: nat :: NullFirst(t, config, i, k) then NullInSnapshot
              else if config.legacy == None || config.legacy == Some("") then NoLegacyKey
              else BadSecret)
  {
    StoredIsSeen(t);
    PlanSucceedsExactly(t, config, ivs);
    ReadableIsPlannable(t, config);
    var current, legacy := config.current.value, ReadKey(config.legacy, false).value;
    SecretsPlannable(t.providers, current, legacy, ivs.providers);
    SecretsPlannable(t.connections, current, legacy, ivs.connections);
    SecretErrors(t.providers, current, legacy, ivs.providers);
    SecretErrors(t.connections, current, legacy, ivs.connections);
    SnapshotErrors(t.versions, current, legacy, ivs.versions);
    forall i: nat, k: nat ensures NullFirst(t, config, i, k) <==>
                                  && NullRow(t.versions, current, legacy, i, k)
                                  && PlanSecrets(t.providers, current, legacy, ivs.providers).Ok?
                                  && PlanSecrets(t.connections, current, legacy, ivs.connections).Ok?
    {
      NullFirstIsNullRow(t, config, i, k);
    }
    hide NullFirst, NullRow, PlanSecrets, PlanSnapshots;
  }

  lemma NullFirstIsNullRow(t: Tables, config: Config, i: nat, k: nat)
    requires ProperKeys(config)
    ensures var (current, legacy) := (config.current.value, ReadKey(config.legacy, false).value);
            NullFirst(t, config, i, k) <==>
            && NullRow(t.versions, current, legacy, i, k)
            && (forall j | 0 <= j < |t.providers| :: !BadRow(t.providers[j], current, legacy))
            && (forall j | 0 <= j < |t.connections| :: !BadRow(t.connections[j], current, legacy))
  {
    var current, legacy := config.current.value, ReadKey(config.legacy, false).value;
    forall text ensures Unreadable(text, current, legacy) <==> !Readable(text, config) {
    }
    forall row ensures BadRow(row, current, legacy) <==> !ReadableSecret(row.value, config) {
    }
    forall item ensures BadItem(item, current, legacy) <==> !ReadableItem(item, config) {
    }
    hide BadRow, BadItem, ReadableSecret, ReadableItem, ReadKey;
  }

  lemma StepStaysHealthy(s: State, e: Event, current: Key)
    requires Healthy(s, current) && Alone(s, e, current)
    ensures Healthy(Step(s, e), current)
  {
    hide OnCourse, AllCurrent, AllUnder, PlanRun, WriteStep;
    VerifiedExactly(s.db, current);
    match e
    case Start(t, config, ivs) =>
      if !s.process.Writing? {
        match PlanRun(t, config, ivs)
        case Skipped =>
          SkippedHasNothing(t, config, ivs);
          NothingStoredIsCurrent(s.db, t, current);
        case Rejected(_) =>
          RejectionKind(t, config, ivs);
        case Accepted(c, _, _) =>
          AcceptedKey(t, config, ivs);
          PlanIsOnCourse(s.db, t, config, ivs);
      }
    case DoWrite =>
      if s.process.Writing? && s.process.queue != [] {
        WriteStaysOnCourse(s.db, s.process.queue, current);
      }
    case Verify =>
      if s.process.Writing? && s.process.queue == [] {
        CourseEndsCurrent(s.db, current);
      }
    case _ =>
  }

  lemma SkippedHasNothing(t: Tables, config: Config, ivs: Randoms)
    requires PlanRun(t, config, ivs).Skipped?
    ensures !HasEncryptedSecrets(t)
  {
  }

  lemma AcceptedKey(t: Tables, config: Config, ivs: Randoms)
    requires PlanRun(t, config, ivs).Accepted?
    ensures ReadKey(config.current, true) == Ok(config.current) && Some(PlanRun(t, config, ivs).current) == config.current
    ensures |PlanRun(t, config, ivs).current| >= 32
  {
  }

  /**
   * With no other writer, whatever crashes and reruns happened: a run that finished left every secret
   * under the current key, and no run ever aborts between its first write and its verification.
   */
  lemma {:induction false} LoneRunsStayHealthy(s: State, events: seq<Event>, current: Key)
    requires Healthy(s, current) && AloneRun(s, events, current)
    ensures Healthy(Run(s, events), current)
  {
    if events != [] {
      var before := events[..|events| - 1];
      assert forall k | 0 <= k < |before| :: before[..k] == events[..k] && before[k] == events[k];
      LoneRunsStayHealthy(s, before, current);
      StepStaysHealthy(Run(s, before), events[|events| - 1], current);
    }
  }

  /** After a finished run a further run plans no update, with or without the legacy key. */
  lemma FurtherRunPlansNothing(db: Db, t: Tables, config: Config, ivs: Randoms, current: Key)
    requires AllUnder(db, current) && ListsAll(t, db)
    requires PlanRun(t, config, ivs).Accepted? && config.current == Some(current)
    ensures PlanRun(t, config, ivs).writes == []
  {
    VerifiedExactly(db, current);
    AcceptedKey(t, config, ivs);
    var legacy := ReadKey(config.legacy, false).value;
    NoSecretUpdates(t.providers, current, legacy, ivs.providers);
    NoSecretUpdates(t.connections, current, legacy, ivs.connections);
    NoSnapshotUpdates(t.versions, current, legacy, ivs.versions);
  }

  lemma {:induction false} NoSecretUpdates(rows: seq<Row<Secret>>, current: Key, legacy: Option<Key>, ivs: nat -> nat)
    requires PlanSecrets(rows, current, legacy, ivs).Ok?
    requires forall i | 0 <= i < |rows| :: TextCurrent(TextOf(rows[i].value), current)
    ensures PlanSecrets(rows, current, legacy, ivs).value.updates == []
  {
    if rows != [] {
      NoSecretUpdates(rows[..|rows| - 1], current, legacy, ivs);
    }
  }

  lemma {:induction false} NoRewrites(items: seq<Item>, current: Key, legacy: Option<Key>, ivs: nat -> nat)
    requires RewriteItems(items, current, legacy, ivs).Ok?
    requires forall k | 0 <= k < |items| && items[k].Keyed? :: TextCurrent(items[k].text, current)
    ensures !RewriteItems(items, current, legacy, ivs).value.changed
  {
    if items != [] {
      NoRewrites(items[..|items| - 1], current, legacy, ivs);
    }
  }

  lemma {:induction false} NoSnapshotUpdates(rows: seq<Row<Snapshot>>, current: Key, legacy: Option<Key>, ivs: nat -> (nat -> nat))
    requires PlanSnapshots(rows, current, legacy, ivs).Ok?
    requires forall i | 0 <= i < |rows| :: SnapshotCurrent(rows[i].value, current)
    ensures PlanSnapshots(rows, current, legacy, ivs).value.updates == []
  {
    if rows != [] {
      NoSnapshotUpdates(rows[..|rows| - 1], current, legacy, ivs);
      if rows[|rows| - 1].value.Items? {
        NoRewrites(rows[|rows| - 1].value.items, current, legacy, ivs(|rows| - 1));
      }
    }
  }

  lemma {:induction false} WriteAllOnCourse(db: Db, queue: seq<Write>, current: Key)
    requires OnCourse(db, queue, current)
    ensures WriteAll(db, queue).1 && AllCurrent(WriteAll(db, queue).0, current)
    decreases queue
  {
    if queue == [] {
      CourseEndsCurrent(db, current);
    } else {
      WriteStaysOnCourse(db, queue, current);
      WriteAllOnCourse(WriteStep(db, queue[0]).0, queue[1..], current);
    }
  }

  lemma {:induction false} WriteAllKeepsView(db: Db, queue: seq<Write>, current: Key, legacy: Key)
    requires GoodQueue(db.versions, queue, current, legacy)
    ensures SameView(db, WriteAll(db, queue).0, current, legacy)
    decreases queue
  {
    if queue == [] {
      ReflexiveView(db, current, legacy);
    } else {
      WriteKeepsView(db, queue[0], current, legacy);
      RestStaysGood(db, queue, current, legacy);
      WriteAllKeepsView(WriteStep(db, queue[0]).0, queue[1..], current, legacy);
      ViewTransitive(db, WriteStep(db, queue[0]).0, WriteAll(WriteStep(db, queue[0]).0, queue[1..]).0, current, legacy);
    }
  }

  lemma PlanCounts(t: Tables, config: Config, ivs: Randoms)
    requires PlanRun(t, config, ivs).Accepted?
    ensures var (plan, key) := (PlanRun(t, config, ivs), PlanRun(t, config, ivs).current);
            && |plan.writes| == SecretsElse(t.providers, key) + SecretsElse(t.connections, key) + SnapshotsElse(t.versions, key)
            && plan.alreadyMigrated == SecretsUnder(t.providers, key) + SecretsUnder(t.connections, key) + SnapshotTextsUnder(t.versions, key)
  {
    AcceptedKey(t, config, ivs);
    var key, legacy := PlanRun(t, config, ivs).current, ReadKey(config.legacy, false).value;
    PlanAccountsForAll(t.providers, key, legacy, ivs.providers);
    PlanAccountsForAll(t.connections, key, legacy, ivs.connections);
    SnapshotPlanAccountsForAll(t.versions, key, legacy, ivs.versions);
  }

  /** The plan of an accepted run. */
  lemma AcceptedPlan(db: Db, t: Tables, config: Config, ivs: Randoms, current: Key, legacy: Key)
    requires ListsAll(t, db) && ConfigOk(config, current, legacy)
    requires !NothingStored(t) && ProperKeys(config) && AllReadable(t, config)
    ensures var plan := PlanRun(t, config, ivs);
            && plan.Accepted? && plan.current == current && config.current == Some(current)
            && OnCourse(db, plan.writes, current) && GoodQueue(db.versions, plan.writes, current, legacy)
            && |plan.writes| == SecretsElse(t.providers, current) + SecretsElse(t.connections, current) + SnapshotsElse(t.versions, current)
            && plan.alreadyMigrated ==
               SecretsUnder(t.providers, current) + SecretsUnder(t.connections, current) + SnapshotTextsUnder(t.versions, current)
  {
    PlanSucceedsExactly(t, config, ivs);
    hide AllReadable, NothingStored;
    PlanIsOnCourse(db, t, config, ivs);
    hide OnCourse, ListsAll;
    PlanIsGood(t, config, ivs, db.versions, current, legacy);
    hide GoodQueue, PlanRun;
    PlanCounts(t, config, ivs);
  }

  lemma WritesComplete(db: Db, t: Tables, config: Config, ivs: Randoms)
    requires var plan := PlanRun(t, config, ivs);
             plan.Accepted? && WriteAll(db, plan.writes).1 && AllCurrent(WriteAll(db, plan.writes).0, plan.current)
    ensures var plan := PlanRun(t, config, ivs);
            MigrateAll(db, t, config, ivs) == (WriteAll(db, plan.writes).0, Completed(|plan.writes|, plan.alreadyMigrated))
  {
    hide PlanRun, WriteAll, AllCurrent;
  }

  /**
   * An uninterrupted run with secrets stored, proper keys and nothing unreadable completes: every text is then under the
   * configured current key, no plaintext is lost, and it answers how many rows it rewrote and how many texts it found done.
   */
  lemma UninterruptedRunCompletes(db: Db, t: Tables, config: Config, ivs: Randoms, current: Key, legacy: Key)
    requires ListsAll(t, db) && ConfigOk(config, current, legacy)
    requires !NothingStored(t) && ProperKeys(config) && AllReadable(t, config)
    ensures var (after, outcome) := MigrateAll(db, t, config, ivs);
            && AllUnder(after, config.current.value) && SameView(db, after, current, legacy)
            && outcome == Completed(
                 SecretsElse(t.providers, current) + SecretsElse(t.connections, current) + SnapshotsElse(t.versions, current),
                 SecretsUnder(t.providers, current) + SecretsUnder(t.connections, current) + SnapshotTextsUnder(t.versions, current))
  {
    hide *;
    AcceptedPlan(db, t, config, ivs, current, legacy);
    var plan := PlanRun(t, config, ivs);
    WriteAllOnCourse(db, plan.writes, current);
    WriteAllKeepsView(db, plan.writes, current, legacy);
    WritesComplete(db, t, config, ivs);
    VerifiedExactly(WriteAll(db, plan.writes).0, current);
  }
}
