/**
 * Whole runs of the key migration: the plan, one database write per step, the final verification, and
 * everything that may happen in between: a crash, a rerun, another process writing the same rows.
 */
module MigrationRuns {
  import opened Prelude
  import opened KeyMigration

  /** The two environment values, trimmed. */
  datatype Config = Config(current: Option<string>, legacy: Option<string>)

  /** What the three queries return. */
  datatype Tables = Tables(providers: seq<Row<Secret>>, connections: seq<Row<Secret>>, versions: seq<Row<Snapshot>>)

  /** The initialisation vectors drawn in one run. */
  datatype Randoms = Randoms(providers: nat -> nat, connections: nat -> nat, versions: nat -> (nat -> nat))

  datatype Write =
    | ProviderWrite(update: SecretUpdate)
    | ConnectionWrite(update: SecretUpdate)
    | SnapshotWrite(snapshot: SnapshotUpdate)

  datatype Planned = Skipped | Rejected(error: Error) | Accepted(current: Key, writes: seq<Write>, alreadyMigrated: nat)

  // ---------------------------------------------------------------- the plan of a run

  function ReadKey(raw: Option<string>, required: bool): Result<Option<Key>, Error> {
    if raw.None? || raw.value == "" then (if required then Err(NoCurrentKey) else Ok(None))
    else if |raw.value| < 32 then Err(ShortKey)
    else Ok(raw)
  }

  predicate SomeSecret(rows: seq<Row<Secret>>) {
    exists i | 0 <= i < |rows| :: !TextOf(rows[i].value).Blank?
  }

  predicate HoldsText(item: Item) {
    item.Keyed? && !item.text.Blank?
  }

  predicate SomeItem(rows: seq<Row<Snapshot>>) {
    exists i, k | 0 <= i < |rows| && rows[i].value.Items? && 0 <= k < |rows[i].value.items| ::
      HoldsText(rows[i].value.items[k])
  }

  predicate HasEncryptedSecrets(t: Tables) {
    SomeSecret(t.providers) || SomeSecret(t.connections) || SomeItem(t.versions)
  }

  function ProviderWrites(us: seq<SecretUpdate>): seq<Write> {
    seq(|us|, i requires 0 <= i < |us| => ProviderWrite(us[i]))
  }

  function ConnectionWrites(us: seq<SecretUpdate>): seq<Write> {
    seq(|us|, i requires 0 <= i < |us| => ConnectionWrite(us[i]))
  }

  function SnapshotWrites(us: seq<SnapshotUpdate>): seq<Write> {
    seq(|us|, i requires 0 <= i < |us| => SnapshotWrite(us[i]))
  }

  function PlanTables(t: Tables, current: Key, legacy: Option<Key>, ivs: Randoms): Planned {
    match PlanSecrets(t.providers, current, legacy, ivs.providers)
    case Err(e) => Rejected(e)
    case Ok(providers) =>
      match PlanSecrets(t.connections, current, legacy, ivs.connections)
      case Err(e) => Rejected(e)
      case Ok(connections) =>
        match PlanSnapshots(t.versions, current, legacy, ivs.versions)
        case Err(e) => Rejected(e)
        case Ok(snapshots) =>
          Accepted(current,
                   ProviderWrites(providers.updates) + ConnectionWrites(connections.updates) + SnapshotWrites(snapshots.updates),
                   providers.alreadyMigrated + connections.alreadyMigrated + snapshots.alreadyMigrated)
  }

  /** `main` up to its first write. */
  function PlanRun(t: Tables, config: Config, ivs: Randoms): Planned {
    if !HasEncryptedSecrets(t) then Skipped else
    match ReadKey(config.current, true)
    case Err(e) => Rejected(e)
    case Ok(current) =>
      match ReadKey(config.legacy, false)
      case Err(e) => Rejected(e)
      case Ok(legacy) =>
        if current.None? then Rejected(NoCurrentKey)
        else if legacy == current then Rejected(SameKeys)
        else PlanTables(t, current.value, legacy, ivs)
  }

  // ---------------------------------------------------------------- one write, and the verification

  /** `updateMany where id and value`, or the unconditional snapshot update; false when the run throws. */
  function WriteStep(db: Db, w: Write): (Db, bool) {
    match w
    case ProviderWrite(u) =>
      if u.id in db.providers && db.providers[u.id] == Some(u.current)
      then (db.(providers := db.providers[u.id := Some(u.next)]), true) else (db, false)
    case ConnectionWrite(u) =>
      if u.id in db.connections && db.connections[u.id] == Some(u.current)
      then (db.(connections := db.connections[u.id := Some(u.next)]), true) else (db, false)
    case SnapshotWrite(u) =>
      if u.id in db.versions then (db.(versions := db.versions[u.id := u.next]), true) else (db, false)
  }

  predicate TextCurrent(text: Text, current: Key) {
    text.Blank? || IsDecryptable(text, current)
  }

  predicate SnapshotCurrent(s: Snapshot, current: Key) {
    s.Items? ==> forall k | 0 <= k < |s.items| && s.items[k].Keyed? :: TextCurrent(s.items[k].text, current)
  }

  /** `assertAllDecryptable` does not throw. */
  predicate AllCurrent(db: Db, current: Key) {
    && (forall id | id in db.providers :: TextCurrent(TextOf(db.providers[id]), current))
    && (forall id | id in db.connections :: TextCurrent(TextOf(db.connections[id]), current))
    && (forall id | id in db.versions :: SnapshotCurrent(db.versions[id], current))
  }

  // ---------------------------------------------------------------- runs

  datatype Process = Idle | Writing(current: Key, queue: seq<Write>) | Done | Failed(error: Error)

  datatype State = State(db: Db, process: Process)

  datatype Event =
    | Start(tables: Tables, config: Config, ivs: Randoms)
    | DoWrite
    | Verify
    | Crash
    | OtherProvider(id: nat, value: Option<Secret>)     // another process inserts, changes or deletes a row
    | OtherConnection(id: nat, value: Option<Secret>)
    | OtherVersion(id: nat, snapshot: Snapshot)

  function Poke<V>(m: map<nat, V>, id: nat, value: Option<V>): map<nat, V> {
    match value
    case None => m - {id}
    case Some(v) => m[id := v]
  }

  function Step(s: State, e: Event): State {
    match e
    case Start(tables, config, ivs) =>
      if s.process.Writing? then s else
      State(s.db, match PlanRun(tables, config, ivs)
                  case Skipped => Done
                  case Rejected(error) => Failed(error)
                  case Accepted(current, writes, _) => Writing(current, writes))
    case DoWrite =>
      if !s.process.Writing? || s.process.queue == [] then s else
      var (db, ok) := WriteStep(s.db, s.process.queue[0]);
      State(db, if ok then Writing(s.process.current, s.process.queue[1..]) else Failed(Changed))
    case Verify =>
      if !s.process.Writing? || s.process.queue != [] then s
      else s.(process := if AllCurrent(s.db, s.process.current) then Done else Failed(NotCurrent))
    case Crash => s.(process := Idle)
    case OtherProvider(id, value) => s.(db := s.db.(providers := Poke(s.db.providers, id, value)))
    case OtherConnection(id, value) => s.(db := s.db.(connections := Poke(s.db.connections, id, value)))
    case OtherVersion(id, snapshot) => s.(db := s.db.(versions := s.db.versions[id := snapshot]))
  }

  function Run(s: State, events: seq<Event>): State {
    if events == [] then s else Step(Run(s, events[..|events| - 1]), events[|events| - 1])
  }

  // ---------------------------------------------------------------- the program, uninterrupted

  datatype Outcome = NothingToDo | Aborted(error: Error) | Completed(migrated: nat, alreadyMigrated: nat)

  /** The writes in order, stopping at the first that does not match. */
  function WriteAll(db: Db, writes: seq<Write>): (Db, bool)
    decreases writes
  {
    if writes == [] then (db, true)
    else
      var (next, ok) := WriteStep(db, writes[0]);
      if ok then WriteAll(next, writes[1..]) else (next, false)
  }

  function MigrateAll(db: Db, t: Tables, config: Config, ivs: Randoms): (Db, Outcome) {
    match PlanRun(t, config, ivs)
    case Skipped => (db, NothingToDo)
    case Rejected(e) => (db, Aborted(e))
    case Accepted(current, writes, alreadyMigrated) =>
      var (after, ok) := WriteAll(db, writes);
      if !ok then (after, Aborted(Changed))
      else if AllCurrent(after, current) then (after, Completed(|writes|, alreadyMigrated))
      else (after, Aborted(NotCurrent))
  }

  class ModelKeyTables {
    var providers: map<nat, Secret>
    var connections: map<nat, Secret>
    var versions: map<nat, Snapshot>

    function Contents(): Db
      reads this
    {
      Db(providers, connections, versions)
    }

    /** `updateMany` and `update`, for whichever table the write is for; the number of rows changed. */
    method Update(w: Write) returns (count: nat)
      modifies this
      ensures Contents() == WriteStep(old(Contents()), w).0
      ensures count == if WriteStep(old(Contents()), w).1 then 1 else 0
      ensures count == 1 <==>
              match w
              case ProviderWrite(u) => u.id in old(providers) && old(providers)[u.id] == Some(u.current)
              case ConnectionWrite(u) => u.id in old(connections) && old(connections)[u.id] == Some(u.current)
              case SnapshotWrite(u) => u.id in old(versions)
      ensures providers == if w.ProviderWrite? && count == 1 then old(providers)[w.update.id := Some(w.update.next)] else old(providers)
      ensures connections == if w.ConnectionWrite? && count == 1 then old(connections)[w.update.id := Some(w.update.next)] else old(connections)
      ensures versions == if w.SnapshotWrite? && count == 1 then old(versions)[w.snapshot.id := w.snapshot.next] else old(versions)
    {
      match w {
        case ProviderWrite(u) =>
          if u.id in providers && providers[u.id] == Some(u.current) {
            providers := providers[u.id := Some(u.next)];
            return 1;
          }
        case ConnectionWrite(u) =>
          if u.id in connections && connections[u.id] == Some(u.current) {
            connections := connections[u.id := Some(u.next)];
            return 1;
          }
        case SnapshotWrite(u) =>
          if u.id in versions {
            versions := versions[u.id := u.next];
            return 1;
          }
      }
      return 0;
    }

    /** `main`, on the rows its three queries returned. */
    method Migrate(t: Tables, config: Config, ivs: Randoms) returns (outcome: Outcome)
      modifies this
      ensures (Contents(), outcome) == MigrateAll(old(Contents()), t, config, ivs)
    {
      hide PlanSecrets, PlanSnapshots, HasEncryptedSecrets, ReadKey, WriteStep, AllCurrent;
      if !HasEncryptedSecrets(t) {
        return NothingToDo;
      }
      var current := ReadKey(config.current, true);
      if current.Err? {
        return Aborted(current.error);
      }
      var legacy := ReadKey(config.legacy, false);
      if legacy.Err? {
        return Aborted(legacy.error);
      }
      if current.value.None? {
        return Aborted(NoCurrentKey);
      }
      if legacy.value == current.value {
        return Aborted(SameKeys);
      }
      var key := current.value.value;
      var providerPlan := PlanSecretUpdates(t.providers, key, legacy.value, ivs.providers);
      if providerPlan.Err? {
        return Aborted(providerPlan.error);
      }
      var connectionPlan := PlanSecretUpdates(t.connections, key, legacy.value, ivs.connections);
      if connectionPlan.Err? {
        return Aborted(connectionPlan.error);
      }
      var snapshotPlan := PlanSnapshotUpdates(t.versions, key, legacy.value, ivs.versions);
      if snapshotPlan.Err? {
        return Aborted(snapshotPlan.error);
      }
      var writes := ProviderWrites(providerPlan.value.updates) + ConnectionWrites(connectionPlan.value.updates)
                    + SnapshotWrites(snapshotPlan.value.updates);
      var i := 0;
      while i < |writes|
        invariant 0 <= i <= |writes|
        invariant WriteAll(Contents(), writes[i..]) == WriteAll(old(Contents()), writes)
      {
        assert writes[i..][0] == writes[i] && writes[i..][1..] == writes[i + 1..];
        var count := Update(writes[i]);
        if count != 1 {
          return Aborted(Changed);
        }
        i := i + 1;
      }
      if !AllCurrent(Contents(), key) {
        return Aborted(NotCurrent);
      }
      return Completed(|writes|,
        providerPlan.value.alreadyMigrated + connectionPlan.value.alreadyMigrated + snapshotPlan.value.alreadyMigrated);
    }
  }
}
