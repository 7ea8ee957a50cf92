/**
 * Re-encryption of stored model keys: plan everything first, then write one row at a time, then verify.
 * Encryption is ideal: a text decrypts under the key that sealed it and under no other.
 */
module KeyMigration {
  import opened Prelude

  /** A derived key; deriving is injective, so the trimmed environment value stands for it. */
  type Key = string

  /** The text of an `encryptedApiKey` column or field. */
  datatype Text = Blank | Sealed(key: Key, plain: string, iv: nat) | Foreign(raw: nat)

  type Secret = Option<Text>

  /** One element of a snapshot array; `body` stands for all its other fields. */
  datatype Item = NullItem | Plain(body: nat) | Keyed(body: nat, text: Text)

  datatype Snapshot = NotArray(body: nat) | Items(items: seq<Item>)

  datatype Row<V> = Row(id: nat, value: V)

  datatype Db = Db(providers: map<nat, Secret>, connections: map<nat, Secret>, versions: map<nat, Snapshot>)

  datatype Error = NoCurrentKey | ShortKey | SameKeys | NoLegacyKey | BadSecret | NullInSnapshot | Changed | NotCurrent

  datatype SecretUpdate = SecretUpdate(id: nat, current: Text, next: Text)

  datatype SecretPlan = SecretPlan(updates: seq<SecretUpdate>, alreadyMigrated: nat)

  datatype SnapshotUpdate = SnapshotUpdate(id: nat, next: Snapshot)

  datatype SnapshotPlan = SnapshotPlan(updates: seq<SnapshotUpdate>, alreadyMigrated: nat)

  // ---------------------------------------------------------------- encryption

  /** An envelope with an empty ciphertext field is refused before any key is tried. */
  function Decrypt(text: Text, key: Key): Option<string> {
    if text.Sealed? && text.key == key && text.plain != "" then Some(text.plain) else None
  }

  function Encrypt(plain: string, key: Key, iv: nat): Text {
    Sealed(key, plain, iv)
  }

  predicate IsDecryptable(text: Text, key: Key) {
    Decrypt(text, key).Some?
  }

  /** Decryption undoes encryption under the same key exactly for texts that are not empty. */
  lemma EnvelopeRoundTrip(plain: string, key: Key, iv: nat, other: Key)
    ensures Decrypt(Encrypt(plain, key, iv), other) == Some(plain) <==> key == other && plain != ""
  {
  }

  // ---------------------------------------------------------------- planning one secret

  datatype Verdict = Skip | Current | Replace(next: Text) | Refuse(error: Error)

  /** What both planners decide for one text. */
  function Decide(text: Text, current: Key, legacy: Option<Key>, iv: nat): Verdict {
    if text.Blank? then Skip
    else if IsDecryptable(text, current) then Current
    else if legacy.None? then Refuse(NoLegacyKey)
    else match Decrypt(text, legacy.value)
      case None => Refuse(BadSecret)
      case Some(plain) => Replace(Encrypt(plain, current, iv))
  }

  /** The same decision, taken branch by branch. */
  method DecideText(text: Text, current: Key, legacy: Option<Key>, iv: nat) returns (v: Verdict)
    ensures v == Decide(text, current, legacy, iv)
  {
    if text.Blank? {
      return Skip;
    }
    if IsDecryptable(text, current) {
      return Current;
    }
    if legacy.None? {
      return Refuse(NoLegacyKey);
    }
    var plain := Decrypt(text, legacy.value);
    if plain.None? {
      return Refuse(BadSecret);
    }
    return Replace(Encrypt(plain.value, current, iv));
  }

  /** A null column is falsy like an empty one. */
  function TextOf(secret: Secret): Text {
    match secret
    case None => Blank
    case Some(text) => text
  }

  function ExtendPlan(plan: SecretPlan, row: Row<Secret>, verdict: Verdict): Result<SecretPlan, Error> {
    match verdict
    case Skip => Ok(plan)
    case Current => Ok(plan.(alreadyMigrated := plan.alreadyMigrated + 1))
    case Replace(next) => Ok(plan.(updates := plan.updates + [SecretUpdate(row.id, TextOf(row.value), next)]))
    case Refuse(e) => Err(e)
  }

  function PlanSecrets(rows: seq<Row<Secret>>, current: Key, legacy: Option<Key>, ivs: nat -> nat): Result<SecretPlan, Error> {
    if rows == [] then Ok(SecretPlan([], 0)) else
    var last := |rows| - 1;
    match PlanSecrets(rows[..last], current, legacy, ivs)
    case Err(e) => Err(e)
    case Ok(plan) => ExtendPlan(plan, rows[last], Decide(TextOf(rows[last].value), current, legacy, ivs(last)))
  }

  /** `planSecretUpdates`. */
  method PlanSecretUpdates(rows: seq<Row<Secret>>, current: Key, legacy: Option<Key>, ivs: nat -> nat)
    returns (r: Result<SecretPlan, Error>)
    ensures r == PlanSecrets(rows, current, legacy, ivs)
  {
    hide Decide;
    var updates: seq<SecretUpdate> := [];
    var alreadyMigrated: nat := 0;
    for i := 0 to |rows|
      invariant PlanSecrets(rows[..i], current, legacy, ivs) == Ok(SecretPlan(updates, alreadyMigrated))
    {
      assert rows[..i + 1][..i] == rows[..i];
      PlanFailsEarly(rows, i + 1, current, legacy, ivs);
      var verdict := DecideText(TextOf(rows[i].value), current, legacy, ivs(i));
      match verdict {
        case Skip =>
        case Current =>
          alreadyMigrated := alreadyMigrated + 1;
        case Refuse(e) =>
          return Err(e);
        case Replace(next) =>
          updates := updates + [SecretUpdate(rows[i].id, TextOf(rows[i].value), next)];
      }
    }
    assert rows[..|rows|] == rows;
    return Ok(SecretPlan(updates, alreadyMigrated));
  }

  lemma {:induction false} PlanFailsEarly(rows: seq<Row<Secret>>, n: nat, current: Key, legacy: Option<Key>, ivs: nat -> nat)
    requires n <= |rows|
    ensures PlanSecrets(rows[..n], current, legacy, ivs).Err? ==>
              PlanSecrets(rows, current, legacy, ivs) == PlanSecrets(rows[..n], current, legacy, ivs)
  {
    if n < |rows| {
      PlanFailsEarly(rows[..|rows| - 1], n, current, legacy, ivs);
      assert rows[..|rows| - 1][..n] == rows[..n];
    } else {
      assert rows[..n] == rows;
    }
  }

  // ---------------------------------------------------------------- planning snapshots

  datatype Rewritten = Rewritten(items: seq<Item>, changed: bool, alreadyMigrated: nat)

  function RewriteItem(done: Rewritten, item: Item, current: Key, legacy: Option<Key>, iv: nat): Result<Rewritten, Error> {
    match item
    case NullItem => Err(NullInSnapshot)
    case Plain(_) => Ok(done.(items := done.items + [item]))
    case Keyed(body, text) =>
      match Decide(text, current, legacy, iv)
      case Skip => Ok(done.(items := done.items + [item]))
      case Current => Ok(done.(items := done.items + [item], alreadyMigrated := done.alreadyMigrated + 1))
      case Replace(next) => Ok(done.(items := done.items + [Keyed(body, next)], changed := true))
      case Refuse(e) => Err(e)
  }

  function RewriteItems(items: seq<Item>, current: Key, legacy: Option<Key>, ivs: nat -> nat): Result<Rewritten, Error> {
    if items == [] then Ok(Rewritten([], false, 0)) else
    var last := |items| - 1;
    match RewriteItems(items[..last], current, legacy, ivs)
    case Err(e) => Err(e)
    case Ok(done) => RewriteItem(done, items[last], current, legacy, ivs(last))
  }

  function ExtendSnapshotPlan(plan: SnapshotPlan, row: Row<Snapshot>, current: Key, legacy: Option<Key>, ivs: nat -> nat)
    : Result<SnapshotPlan, Error>
  {
    match row.value
    case NotArray(_) => Ok(plan)
    case Items(items) =>
      match RewriteItems(items, current, legacy, ivs)
      case Err(e) => Err(e)
      case Ok(done) =>
        Ok(SnapshotPlan(if done.changed then plan.updates + [SnapshotUpdate(row.id, Items(done.items))] else plan.updates,
                        plan.alreadyMigrated + done.alreadyMigrated))
  }

  function PlanSnapshots(rows: seq<Row<Snapshot>>, current: Key, legacy: Option<Key>, ivs: nat -> (nat -> nat))
    : Result<SnapshotPlan, Error>
  {
    if rows == [] then Ok(SnapshotPlan([], 0)) else
    var last := |rows| - 1;
    match PlanSnapshots(rows[..last], current, legacy, ivs)
    case Err(e) => Err(e)
    case Ok(plan) => ExtendSnapshotPlan(plan, rows[last], current, legacy, ivs(last))
  }

  lemma {:induction false} RewriteFailsEarly(items: seq<Item>, n: nat, current: Key, legacy: Option<Key>, ivs: nat -> nat)
    requires n <= |items|
    ensures RewriteItems(items[..n], current, legacy, ivs).Err? ==>
              RewriteItems(items, current, legacy, ivs) == RewriteItems(items[..n], current, legacy, ivs)
  {
    if n < |items| {
      RewriteFailsEarly(items[..|items| - 1], n, current, legacy, ivs);
      assert items[..|items| - 1][..n] == items[..n];
    } else {
      assert items[..n] == items;
    }
  }

  lemma {:induction false} SnapshotsFailEarly(rows: seq<Row<Snapshot>>, n: nat, current: Key, legacy: Option<Key>, ivs: nat -> (nat -> nat))
    requires n <= |rows|
    ensures PlanSnapshots(rows[..n], current, legacy, ivs).Err? ==>
              PlanSnapshots(rows, current, legacy, ivs) == PlanSnapshots(rows[..n], current, legacy, ivs)
  {
    if n < |rows| {
      SnapshotsFailEarly(rows[..|rows| - 1], n, current, legacy, ivs);
      assert rows[..|rows| - 1][..n] == rows[..n];
    } else {
      assert rows[..n] == rows;
    }
  }

  /** The inner loop of `planSnapshotUpdates`: rewrites a copy of one snapshot array in place. */
  method RewriteSnapshot(items: seq<Item>, current: Key, legacy: Option<Key>, ivs: nat -> nat)
    returns (r: Result<Rewritten, Error>)
    ensures r == RewriteItems(items, current, legacy, ivs)
  {
    hide Decide;
    var next := items;
    var changed := false;
    var alreadyMigrated: nat := 0;
    for i := 0 to |items|
      invariant |next| == |items| && next[i..] == items[i..]
      invariant RewriteItems(items[..i], current, legacy, ivs) == Ok(Rewritten(next[..i], changed, alreadyMigrated))
    {
      assert items[..i + 1][..i] == items[..i];
      RewriteFailsEarly(items, i + 1, current, legacy, ivs);
      assert next[i] == next[i..][0] == items[i..][0] == items[i];
      match next[i] {
        case NullItem =>
          return Err(NullInSnapshot);
        case Plain(_) =>
        case Keyed(body, text) =>
          var verdict := DecideText(text, current, legacy, ivs(i));
          match verdict {
            case Skip =>
            case Current =>
              alreadyMigrated := alreadyMigrated + 1;
            case Refuse(e) =>
              return Err(e);
            case Replace(sealed) =>
              next := next[i := Keyed(body, sealed)];
              changed := true;
          }
      }
      assert next[..i + 1] == next[..i] + [next[i]];
    }
    assert items[..|items|] == items && next[..|items|] == next;
    return Ok(Rewritten(next, changed, alreadyMigrated));
  }

  /** `planSnapshotUpdates`. */
  method PlanSnapshotUpdates(rows: seq<Row<Snapshot>>, current: Key, legacy: Option<Key>, ivs: nat -> (nat -> nat))
    returns (r: Result<SnapshotPlan, Error>)
    ensures r == PlanSnapshots(rows, current, legacy, ivs)
  {
    var updates: seq<SnapshotUpdate> := [];
    var alreadyMigrated: nat := 0;
    for i := 0 to |rows|
      invariant PlanSnapshots(rows[..i], current, legacy, ivs) == Ok(SnapshotPlan(updates, alreadyMigrated))
    {
      assert rows[..i + 1][..i] == rows[..i];
      SnapshotsFailEarly(rows, i + 1, current, legacy, ivs);
      if rows[i].value.Items? {
        var rewritten := RewriteSnapshot(rows[i].value.items, current, legacy, ivs(i));
        if rewritten.Err? {
          return Err(rewritten.error);
        }
        alreadyMigrated := alreadyMigrated + rewritten.value.alreadyMigrated;
        if rewritten.value.changed {
          updates := updates + [SnapshotUpdate(rows[i].id, Items(rewritten.value.items))];
        }
      }
    }
    assert rows[..|rows|] == rows;
    return Ok(SnapshotPlan(updates, alreadyMigrated));
  }
}
