# Verified core of the stock-analysis backend

This project models the parts of the backend whose correctness is not visible from reading one function,
and proves what those parts promise. `dafny verify dfyconfig.toml` checks it all (Dafny 4.11).

Redis, PostgreSQL and the in-process maps are explicit state. Code between two `await`s is one step; a
protocol is a step function, a run is any sequence of steps, and main results hold in every reachable
state. Code that updates variables, fields or arrays is a method or a class here, proved against a
specification function; the results are about that specification.

## What is modelled

- **Refresh tokens** (`TokenStore`, `RefreshProtocol`, `RefreshGuarantees`, `RefreshRecovery`, `RefreshService`): the token
  keys in Redis and the Lua script; then any number of concurrent logins, refreshes and logouts, with time passing,
  keys dropping out of Redis, users changing and requests dying between any two steps; the access tokens handed out.
- **Access tokens after logout** (`AccessLogout`): the request guard over time, with its look at the user, failing
  writes to the blacklist and dropped entries.
- **Login lockout** (`LoginLockout`, `LockoutBound`): every Redis command of the failure counter, the lock and the captcha
  is a step of its own.
- **Key migration** (`KeyMigration`, `MigrationRuns`, `MigrationSafety`, `MigrationCompletion`): planning, one write per step,
  the verification, crashes, reruns, other writers.
- **CSV** (`CsvExport`): the writer, and an independent reader of section 2 of RFC 4180.
- **Protocol validator** (`SchemaValidator`, `SchemaIssues`, `SchemaReadings`, `SchemaBooleans`): the recursive checks the contract
  generator emits, against the meaning of the keywords in JSON Schema Validation draft-07.
- **Cache** (`SingleFlightCache`, `SingleFlightGuarantees`, `CacheValues`, `CacheKeys`, `CacheInvalidation`): joining a load in
  flight, what a cached text reads back as, canonical keys, invalidation in chunks.
- **Worker pool** (`WorkerPool`): `mapLimit` under every order in which promises settle.
- **Alerts** (`AlertEntries`, `AlertScans`, `AlertRuns`, `AlertStore`): expansion of rules, collection,
  the transaction per rule, and interleaved scans that can die at any point.
- **Event study** (`EventWindows`, `EventSamples`, `EventReturns`): search, selection, windows, accounting of exclusions,
  and rounding in exact arithmetic.
- **Sampling** (`EvenSampling`) and the **lint baseline** (`LintBaseline`, `LintCounts`).
- `Prelude` and `Sorting` hold shared vocabulary.

## Where the code does not do what one would expect

Each of these is proved, with the exact condition under which the expected property does hold.

- CSV: with no columns the output is not the table; a reader that drops a final line break loses exactly a
  last row that is one empty cell.
- Refresh: a request that dies after the old token was consumed and before the new one is delivered ends its
  login for good, even if the new token is already in Redis. The login survives the death of a request exactly if
  that request held no undelivered token of it, and a client holds a usable token or another request can still
  use one or hand one out.
- Logout: a live access token whose user still has its version passes the request guard again after logout if the
  write to the blacklist failed (the failure is swallowed), if Redis dropped the entry, or if the token carries no
  expiry and the entry lapsed; exactly then.
- Migration: a null element in a snapshot array makes planning throw although the guard
  `hasEncryptedSecrets` skips it; an encrypted empty text, and no other, is refused by `decrypt`
  (`KeyMigration.EnvelopeRoundTrip`); a snapshot that another
  process changed after planning is overwritten, without loss exactly if that process kept the shape, the other
  fields and the plaintexts that were read at planning.
- Cache: a value is answered unchanged from the cache exactly if it contains no undefined, no NaN or
  infinity, and no string that both looks like an ISO date-time and parses as a date; such strings come back as dates.
- Cache: with a configured chunk size below 1 a deletion sends Redis a DEL without keys, which fails; keys are left
  behind, and `invalidateNamespace` swallows the failure and answers 0. All named keys go exactly if the chunk size is
  at least 1 or nothing is named.
- `mapLimit` with a limit below 1 fulfils with holes unless there are no items.
- `evenlySample` asked for one point of several rows answers `undefined`.
- Validator: constants and choices that are lists or objects never match, so `const` and `enum` are read right exactly
  if theirs are scalars; `oneOf` hides its sibling keywords, which is harmless exactly if they never refuse what the
  `oneOf` accepts.
- Validator: a boolean schema is no record and is not read. At the root, in `oneOf` and in `items` it is taken for
  `true`; among the properties it is taken for `true` in an open schema and for `false` in a closed one. So
  `items: false` accepts every list, and `{a: true}` with `additionalProperties: false` refuses `a`. Each place is read
  right exactly if the boolean is what it is taken for.
- Validator: whole numbers beyond 2^53 - 1 are refused as integers; a member named `__proto__` passes a closed schema.
  All plain schemas are read right on a value exactly if it holds no such number and no such member, at any depth.
- Alerts: notifications are sent after all transactions of a scan, so a scan that dies in between has
  recorded rows for which nothing is ever sent.
- Event study: the service adds up rounded averages and can drift by half a step a day; it is exact at every day
  exactly if every day's average is a multiple of the rounding step. The tool does not drift.
- Lint baseline: a message without a rule and one with the empty rule name in the same file tie in the sort, so
  only then the entries depend on the order of messages.

## Assumptions

- Token ids and batch ids never repeat; signatures cannot be forged; `authVersion` of a user never decreases.
- Encryption is ideal: a text decrypts under the key that sealed it and no other; the derivation of keys is injective.
- JSON text is injective on normalised payloads; collation orders are total orders; event keys identify events.
- The unique index of the trigger history is `(ruleId, tradeDate, tsCode)`, as `prisma/alert.prisma:101` declares.
- Numbers are reals or integers; dates are integers in the event study and opaque texts elsewhere.
- The JSON value the validator sees shares no object with its schema.

## Model

| member | source | states |
|---|---|---|
| TokenStore.StoredTokenLife | src/shared/token.service.ts:11-21 | however often and whenever a stored token is asked for: `valid` first if in its lifetime, `grace` for the grace seconds after that, then `invalid`; asking during the grace does not prolong it, no other key changes |
| TokenStore.DeletedTokenIsDead | src/shared/token.service.ts:118-120 | a deleted token answers `invalid` however often it is asked for, and asking changes nothing |
| TokenStore.TokenService.ConsumeRefreshToken | src/shared/token.service.ts:107-115 | the branch-by-branch consumption equals the atomic script on every store, key and time |
| TokenStore.TokenService.BlacklistAccessToken | src/shared/token.service.ts:126-138 | a dead token is not written; a live one until its expiry, or for the access lifetime when it has none; a failing write is swallowed |
| AccessLogout.AcceptedExactly | src/apps/auth/strategies/jwt.strategy.ts:26-41 | after any run the guard accepts a token exactly if it is live, its user is active with its version, and every logout that was written while it lived has lapsed or lost its entry |
| AccessLogout.LogoutIsFinal | src/shared/token.service.ts:126-144 | while Redis keeps the entry, a logged-out token is never accepted again exactly if it was dead, or its user had passed its version, or it carries an expiry and this write or that of an earlier standing logout succeeded |
| AccessLogout.EvictionReadmits | src/apps/auth/strategies/jwt.strategy.ts:26-41 | a dropped entry lets the token in again exactly while it is live and its user admits it |
| RefreshGuarantees.ValidAtMostOnce | src/apps/auth/auth.service.ts:150-193 | in every reachable state each refresh token was answered `valid` at most once |
| RefreshGuarantees.GraceOnlyInWindow | src/shared/token.service.ts:11-21 | every `grace` follows the token's `valid` by less than ten seconds; grace never extends itself |
| RefreshGuarantees.NothingAfterLogout | src/apps/auth/auth.service.ts:202-216 | after a logout deleted a token every later answer for it is `invalid` |
| RefreshGuarantees.MintedByLoginOrRotation | src/apps/auth/auth.service.ts:167-192 | tokens ever signed = logins + tokens answered `valid`; grace, failures and crashes mint nothing |
| RefreshGuarantees.SignedByActiveRow | src/apps/auth/auth.service.ts:64-193 | a refresh token is signed only in the step of a login or rotation that goes by the row of an active user, with the version in that row |
| RefreshGuarantees.OneLiveTokenPerFamily | src/apps/auth/auth.service.ts:150-193 | for each login, unconsumed tokens plus rotations in flight are at most one |
| RefreshGuarantees.RunRaisesRank | src/shared/token.service.ts:11-21 | no run moves a token back along unborn, `1`, `used`, gone |
| RefreshGuarantees.StepRaisesRank | src/shared/token.service.ts:70-120 | the same for every single step from a reachable state |
| RefreshGuarantees.FamilyHasOneVersion | src/apps/auth/auth.service.ts:157-192 | all refresh tokens of one login carry one user and one `authVersion` |
| RefreshGuarantees.BumpEndsFamily | src/apps/auth/auth.service.ts:157-165 | once the user's version passed a login and earlier reads ran out, no continuation signs or answers a token of it |
| RefreshGuarantees.LostRotationEndsLogin | src/apps/auth/auth.service.ts:167-192 | if a request dies between consuming a token and storing its successor, in no continuation does the login hold an unconsumed token or get a `valid` answer |
| RefreshRecovery.RefreshableExactly | src/apps/auth/auth.service.ts:150-193 | some continuation answers `valid` to a login if and only if a client holds a live, unexpired, undated token of it or a request under way can still use one or hand one out |
| RefreshRecovery.CrashEndsLoginExactly | src/apps/auth/auth.service.ts:167-193 | a login survives the death of a request if and only if that request held no undelivered token of it and the login has such a prospect elsewhere |
| RefreshRecovery.UndeliveredIsLast | src/apps/auth/auth.service.ts:167-193 | while a token of a login is on its way to the client, no client and no other request has a usable one |
| RefreshRecovery.CrashBeforeDelivery | src/apps/auth/auth.service.ts:90-109 | a concrete run: a first login whose token is stored can be refreshed, and after its request dies it cannot |
| RefreshProtocol.StepKeepsInv | src/apps/auth/auth.service.ts:64-216 | every event keeps the protocol invariant from which the results above follow |
| RefreshService.AuthService.RefreshToken | src/apps/auth/auth.service.ts:150-193 | keys and answer of one refresh, from the expiry check on, equal the specification the next row spells out |
| RefreshService.AnswersExactly | src/apps/auth/auth.service.ts:150-193 | user disabled exactly if the token is in date but its user is gone or not active; a new pair exactly with the user's version and a live `1`; an access token alone exactly with a live `used`; else refused; all token fields, and the only keys that change |
| RefreshService.AuthService.Logout | src/apps/auth/auth.service.ts:202-216 | logout blacklists the access token and deletes a refresh token that still verifies, nothing else |
| RefreshService.UninterruptedRefresh | src/apps/auth/auth.service.ts:150-193 | the protocol run without interruption leaves the keys and hands out exactly the refresh token and the access token the method does |
| RefreshService.RefreshedExactly | src/apps/auth/auth.service.ts:150-193 | from every reachable state: a new refresh token reaches the client exactly if the user is active with the token's version and Redis holds a live `1`, an access token exactly if it holds a live key at all |
| RefreshService.UninterruptedLogout | src/apps/auth/auth.service.ts:202-216 | from every reachable state: the token's key goes, and whatever refreshes are under way, in every continuation the token is answered `invalid` |
| RefreshService.OutdatedAccessIsRefused | src/apps/auth/strategies/jwt.strategy.ts:26-41 | once the user's version has passed a login, the guard refuses every access token ever handed out for it, by login, rotation or grace, at any time |
| RefreshService.AccessAcceptedExactly | src/shared/token.service.ts:55-92 | while a refresh token of a login passes the user checks, its access tokens are accepted exactly while live and not blacklisted |
| LoginLockout.CounterIsSettledWhenQuiet | src/apps/auth/auth.service.ts:130-142 | a counter at the limit has a handler about to reset it, one without expiry a handler about to set it; a quiet account has a counter below 5 that expires in the window |
| LoginLockout.StepKeepsCover | src/apps/auth/auth.service.ts:130-142 | each single command, by any handler, keeps that cover for every account |
| LoginLockout.NextFailureRepairs | src/apps/auth/auth.service.ts:130-142 | whatever a crash left, the next counted failure restores the cover |
| LoginLockout.TornOnlyByCrash | src/apps/auth/auth.service.ts:130-142 | without crashes no account is ever left without cover |
| LoginLockout.FailureSettles | src/apps/auth/auth.service.ts:130-142 | one failure on any store: the count it reaches, the expiry kept or set to 300 seconds, and from the fifth on a lock of 600 seconds and no counter |
| LoginLockout.FailureAlone | src/apps/auth/auth.service.ts:130-142 | the four commands of a failing attempt, with nothing in between, leave exactly that and end the attempt |
| LoginLockout.VerdictsLeadTo | src/apps/auth/auth.service.ts:81-98 | only a wrong password is counted; a right one leaves the account without a counter and its lock as it was; an unknown or disabled account changes nothing |
| LoginLockout.ChecksFollowCaptchas | src/apps/auth/auth.service.ts:45-68 | in every run each password check follows a code that is, but for case, the non-empty text handed out under its captcha less than 60 seconds before |
| LoginLockout.AdmittedExactly | src/apps/auth/auth.service.ts:51-68 | in every reachable state a submitted attempt is admitted exactly if its captcha is still stored, not empty, younger than 60 seconds and equal to the code but for case; the captcha is gone either way |
| LoginLockout.UnlockedExactly | src/apps/auth/auth.service.ts:71-75 | an admitted attempt goes on to the password exactly if the account has no lock or one that has run out |
| LoginLockout.OneCheckPerCaptcha | src/apps/auth/auth.service.ts:51-82 | password checks use distinct captchas and never outnumber the captchas handed out |
| LoginLockout.LockKeepsOthersOut | src/apps/auth/auth.service.ts:64-88 | while a lock is live, only attempts already past the lock look reach a password check of the account |
| LockoutBound.WrongPasswordsAreBounded | src/apps/auth/auth.service.ts:64-142 | without crashes, between two resets of the counter at most four wrong passwords are taken, plus one per attempt that was past the lock look when the lock began |
| LockoutBound.WrongPasswordsAreCounted | src/apps/auth/auth.service.ts:82-142 | between two resets, failures counted plus failures about to be counted grow by exactly the wrong passwords |
| LoginLockout.LoginKeys.HandleLoginFail | src/apps/auth/auth.service.ts:130-142 | the command sequence has the specified effect on counter and lock |
| LoginLockout.LoginKeys.ValidateCaptcha | src/apps/auth/auth.service.ts:51-56 | the captcha is gone after one look; true exactly if it was stored, live, not empty, and equal to the code in lower case |
| KeyMigration.PlanSecretUpdates | scripts/migrate-agent-model-encryption-key.ts:83-107 | the loop plans what the specification plans, and fails where it fails |
| KeyMigration.RewriteSnapshot | scripts/migrate-agent-model-encryption-key.ts:117-137 | the in-place rewriting of a copied snapshot array equals the item-by-item specification |
| KeyMigration.PlanSnapshotUpdates | scripts/migrate-agent-model-encryption-key.ts:109-140 | the loop over snapshots plans what the specification plans |
| MigrationSafety.RewrittenItems | scripts/migrate-agent-model-encryption-key.ts:117-137 | a planned snapshot keeps every item's meaning and makes every text current; nothing is planned if nothing changed |
| MigrationSafety.WriteKeepsView | scripts/migrate-agent-model-encryption-key.ts:222-238 | a planned write keeps what every slot decrypts to, whatever changed since planning |
| MigrationSafety.MigrationStepKeepsView | scripts/migrate-agent-model-encryption-key.ts:222-238 | whatever others wrote before, no step of the migration changes any slot's plaintext |
| MigrationSafety.MigrationIsInvisible | scripts/migrate-agent-model-encryption-key.ts:198-250 | after any writes, crashes and reruns, with others writing rows meanwhile, every slot decrypts to what it would had the migration never run; only a foreign snapshot write against a pending one is excluded |
| MigrationSafety.ChangeAbortsExactly | scripts/migrate-agent-model-encryption-key.ts:222-238 | a guarded write that finds another value, or a snapshot write that finds no row, writes nothing and ends the run; any other write goes on |
| MigrationSafety.SnapshotWriteIsBlind | scripts/migrate-agent-model-encryption-key.ts:109-140 | the unguarded snapshot write keeps the meaning of every slot exactly if the other writer had kept the shape, the other fields and the plaintexts read at planning |
| MigrationRuns.ModelKeyTables.Update | scripts/migrate-agent-model-encryption-key.ts:222-238 | one compare-and-set or plain update and its row count |
| MigrationRuns.ModelKeyTables.Migrate | scripts/migrate-agent-model-encryption-key.ts:198-250 | `main` on the rows it read: same database and outcome as the specification, abort branches included |
| MigrationCompletion.PlanSucceedsExactly | scripts/migrate-agent-model-encryption-key.ts:206-219 | with something stored, a run gets to write if and only if the current key has 32 characters, a given legacy key too and is another, every text was sealed non-empty under one of them, and no snapshot element is null; it writes under the configured current key |
| MigrationCompletion.SkippedExactly | scripts/migrate-agent-model-encryption-key.ts:206-209 | a run is skipped, whatever the keys, if and only if no row and no snapshot element holds a text |
| MigrationCompletion.KeysRejectedBecause | scripts/migrate-agent-model-encryption-key.ts:44-54 | which complaint about the keys, exactly when |
| MigrationCompletion.TextsRejectedBecause | scripts/migrate-agent-model-encryption-key.ts:83-140 | with proper keys: which complaint about the texts, by what the planner meets first, a null element or a text no key opens |
| MigrationCompletion.VerifiedExactly | scripts/migrate-agent-model-encryption-key.ts:168-195 | the final verification passes if and only if every stored text is empty or sealed non-empty under the key |
| MigrationCompletion.FinishedExactly | scripts/migrate-agent-model-encryption-key.ts:198-250 | whatever others write: a step finishes a run if and only if it starts one with nothing stored, or verifies with no write left and every text under its key |
| MigrationCompletion.PlanAccountsForAll | scripts/migrate-agent-model-encryption-key.ts:83-107 | one update for each secret that is not under the current key, and the count of those that are |
| MigrationCompletion.SnapshotPlanAccountsForAll | scripts/migrate-agent-model-encryption-key.ts:109-140 | one update for each snapshot with a text not under the current key, and the count of the texts that are |
| MigrationCompletion.PlanIsOnCourse | scripts/migrate-agent-model-encryption-key.ts:217-219 | a fresh plan covers every slot that is not current, each once, and every write would succeed |
| MigrationCompletion.WriteStaysOnCourse | scripts/migrate-agent-model-encryption-key.ts:222-238 | a write succeeds and keeps the rest of the plan on course |
| MigrationCompletion.LoneRunsStayHealthy | scripts/migrate-agent-model-encryption-key.ts:198-250 | with no other writer, whatever crashes and reruns happen, a finished run left every text under the current key and none aborts while writing |
| MigrationCompletion.FurtherRunPlansNothing | scripts/migrate-agent-model-encryption-key.ts:83-140 | once every text is under the current key, a further run with that key plans no update |
| MigrationCompletion.UninterruptedRunCompletes | scripts/migrate-agent-model-encryption-key.ts:198-250 | an undisturbed run with something stored, proper keys and nothing unreadable completes with the exact counts, keeps every plaintext, and leaves every text under the configured current key |
| CsvExport.RoundTrip | src/apps/export/export.service.ts:27-41 | if and only if there is a column, the reader recovers the header and, at every row and column, the row's value there or nothing, for all characters |
| CsvExport.WriterIsInjective | src/apps/export/export.service.ts:27-41 | equal outputs come from equal headers and rows that show the same in every column |
| CsvExport.FinalBreakReading | src/apps/export/export.service.ts:38-40 | a reader that drops a final line break recovers the same, without the last row exactly if that shows a single empty cell |
| CsvExport.FieldReads | src/apps/export/export.service.ts:28-35 | one escaped field, before any boundary, reads back as its text and leaves the rest untouched |
| SchemaValidator.SilentExactlyWhenAccepted | scripts/export-agent-contracts.ts:361-414 | for every value, on plain schemas, no issue is pushed if and only if its declarative reading accepts the value |
| SchemaValidator.SilentExactlyWhenValid | scripts/export-agent-contracts.ts:361-414 | on plain schemas and ordinary values no issue is pushed if and only if the value is valid under draft-07 |
| SchemaValidator.ReadingsAgree | scripts/export-agent-contracts.ts:350-414 | the validator's reading and draft-07 agree on every ordinary value, for every schema |
| SchemaValidator.ValidateNode | scripts/export-agent-contracts.ts:361-414 | the recursion terminates, only appends to the shared list, and appends exactly the specified issues in order |
| SchemaValidator.CountMatches | scripts/export-agent-contracts.ts:362-370 | the `oneOf` filter counts the candidates that report nothing |
| SchemaValidator.AssertSchema | scripts/export-agent-contracts.ts:416-421 | the input itself when nothing was reported, otherwise all issues |
| SchemaValidator.IssuesPointIntoValue | scripts/export-agent-contracts.ts:361-414 | every reported path extends the label and names a place of the value, or a member its object lacks |
| SchemaIssues.IssuesAreTheComplaints | scripts/export-agent-contracts.ts:361-414 | for plain schemas and every value: an issue is reported if and only if the keyword it names is broken at the place it names, in the order in which keywords cut each other off |
| SchemaIssues.IssuesOnce | scripts/export-agent-contracts.ts:361-414 | on values without repeated members, no issue is reported twice |
| SchemaValidator.ConstReadExactly | scripts/export-agent-contracts.ts:371-374 | `const` is read as draft-07 says, for all values, exactly when the constant is a scalar |
| SchemaValidator.EnumReadExactly | scripts/export-agent-contracts.ts:375-378 | the same for `enum` exactly when all choices are scalars |
| SchemaReadings.OneOfReadExactly | scripts/export-agent-contracts.ts:362-370 | a `oneOf` node is read as draft-07 reads it on every ordinary value if and only if the keywords beside it never refuse an ordinary value the `oneOf` accepts; the same for the validator's own reading on all values |
| SchemaBooleans.BooleansReadExactly | scripts/export-agent-contracts.ts:398-412 | a schema of properties, items, additionalProperties and booleans is read as draft-07 reads it on all ordinary values if and only if every boolean in it, at any depth, is what its place is taken for |
| SchemaBooleans.WellPlacedReadRight | scripts/export-agent-contracts.ts:361-414 | with booleans so placed, every schema that is otherwise plain is read right on every ordinary value |
| SchemaBooleans.SilentExactlyWhenTakenFor | scripts/export-agent-contracts.ts:361-414 | for every value and every schema with booleans anywhere, no issue is pushed if and only if the plain schema it is taken for accepts the value |
| SchemaBooleans.PropertyBooleanReadExactly | scripts/export-agent-contracts.ts:408-412 | a boolean property schema is read right on its member if and only if it allows exactly when the schema is open |
| SchemaBooleans.ItemsBooleanReadExactly | scripts/export-agent-contracts.ts:400 | a boolean in items is read right on a list if and only if it allows or the list is empty |
| SchemaReadings.OrdinaryReadExactly | scripts/export-agent-contracts.ts:350-414 | every plain schema is read as draft-07 does on a value if and only if the value is ordinary: no whole number beyond the safe range and no `__proto__` member at any depth |
| SingleFlightGuarantees.SingleFlight | src/shared/cache.service.ts:100-117 | in every reachable state at most one load per key is under way |
| SingleFlightGuarantees.NothingLeaksWhenIdle | src/shared/cache.service.ts:105-116 | when no call owns a load the in-flight map is empty and all loads settled, failures included |
| SingleFlightGuarantees.TransparentExactly | src/shared/cache.service.ts:74-139 | in every interleaving all answers for a key are the loader's own if and only if its value survives its text or is not cached |
| SingleFlightCache.StepKeepsInv | src/shared/cache.service.ts:74-139 | every event keeps the invariant behind the three results above |
| SingleFlightCache.CacheService.JoinOrStart | src/shared/cache.service.ts:100-109 | a miss joins the load in flight or starts and publishes one |
| SingleFlightCache.CacheService.ResumeCall | src/shared/cache.service.ts:110-117 | the owner removes its own promise, then every caller gets the value or the error |
| SingleFlightCache.CacheService.WriteValue | src/shared/cache.service.ts:126-138 | the value is written unless skipped or the write fails, and is answered either way |
| SingleFlightCache.CacheService.RememberJson | src/shared/cache.service.ts:74-139 | one call from GET to answer: the cached value, else the result of the load in flight or the wait for it, else its own load's, with every failing await; the in-flight map ends as it began |
| SingleFlightGuarantees.UndisturbedCall | src/shared/cache.service.ts:74-139 | the protocol run without interruption leaves the texts, the in-flight map and the answer of that method |
| SingleFlightGuarantees.RememberedExactly | src/shared/cache.service.ts:74-139 | from every reachable state, what that call answers and writes: a parsable text, else the load in flight without writing, else the loader's value or error, written unless skipped or failing; a corrupt text is deleted; no other key changes |
| CacheValues.ReadsBackExactly | src/shared/cache.service.ts:290-323 | a value equals its own cached text read back if and only if it is stable |
| CacheValues.ReadBackReturns | src/shared/cache.service.ts:290-323 | what any value comes back as: undefined, NaN and infinity as null, date-like texts as dates, lists element by element, records without undefined fields |
| CacheValues.ReadBackIsIdempotent | src/shared/cache.service.ts:314-323 | whatever was read from the cache once is stable |
| CacheValues.CacheIsTransparentExactly | src/shared/cache.service.ts:74-139 | transparency of the whole cache, over all interleavings, exactly for stable or skipped values |
| CacheKeys.KeysAreCanonical | src/shared/cache.service.ts:325-356 | two payloads get one key text if and only if they mean the same, JSON text being injective on normalised payloads only: key order and undefined fields never matter, nothing else is lost |
| CacheKeys.NormalizeIsIdempotent | src/shared/cache.service.ts:329-356 | normalising twice changes nothing more |
| CacheKeys.NormalizeKeepsMeaning | src/shared/cache.service.ts:329-356 | normalising keeps the meaning of a payload at every depth |
| CacheKeys.MeaningDeterminesKey | src/shared/cache.service.ts:329-356 | payloads that mean the same normalise to the same payload |
| CacheInvalidation.UniqueStringsKeepsFirsts | src/shared/cache.service.ts:358-360 | every non-empty string survives exactly once, in the order of first occurrence |
| CacheInvalidation.DeletesAllExactly | src/shared/cache.service.ts:43-43 | of every cache all named keys go, and are counted, if and only if the chunk size is at least 1 or nothing is named |
| CacheInvalidation.BelowOneDeletesExactly | src/shared/cache.service.ts:259-272 | with a chunk below 1 the deletion fails, having deleted, from -1 down only, all but that many of the last named keys |
| CacheInvalidation.NamespacedCache.DeleteKeys | src/shared/cache.service.ts:259-272 | for every configured chunk size the specified effect and answer, the failing DEL included; for whole sizes, and 200 when none is configured, the commands sent carry that many keys each, the last the rest |
| CacheInvalidation.NamespacedCache.InvalidateNamespace | src/shared/cache.service.ts:176-190 | the registered keys and then the set go, with their count; a failure leaves the set and answers 0 |
| CacheInvalidation.NamespacedCache.InvalidateNamespaces | src/shared/cache.service.ts:141-190 | with chunks of at least 1 the sequence of invalidations equals one deletion of everything registered under any of the names, count included; below 1 only sets without keys go and the answer is 0 |
| WorkerPool.ClaimsOnceAndBounded | src/apps/data-availability/data-availability-tool.facade.ts:130-142 | under every schedule index i is claimed exactly once, in order, and at most min(limit, n) handlers are in flight |
| WorkerPool.PoolIsFull | src/apps/data-availability/data-availability-tool.facade.ts:130-142 | while items are unclaimed and nothing was rejected, exactly min(limit, n) handlers are in flight |
| WorkerPool.SettlingTerminates | src/apps/data-availability/data-availability-tool.facade.ts:133-140 | every settlement lowers unclaimed plus in-flight items |
| WorkerPool.RunsAreFinite | src/apps/data-availability/data-availability-tool.facade.ts:133-140 | no schedule has more effective settlements than items |
| WorkerPool.FulfilledOutput | src/apps/data-availability/data-availability-tool.facade.ts:130-142 | a fulfilled run has each handler's result at its item's place if and only if the limit is at least 1 or there are no items |
| WorkerPool.QuiescentFulfils | src/apps/data-availability/data-availability-tool.facade.ts:130-142 | without rejections a run with nothing left to settle has fulfilled |
| WorkerPool.SettleKeepsInv | src/apps/data-availability/data-availability-tool.facade.ts:133-139 | each continuation keeps the pool invariant |
| WorkerPool.MapLimit.constructor | src/apps/data-availability/data-availability-tool.facade.ts:130-139 | creating the workers, each up to its first await, equals the launch of the step system |
| WorkerPool.MapLimit.Resume | src/apps/data-availability/data-availability-tool.facade.ts:134-138 | a continuation stores the result in the shared buffer and claims the next index, as one step of the system |
| AlertEntries.ExpandRules | src/apps/alert/price-alert.service.ts:666-727 | the grouping maps and nested loops produce the specified flat list |
| AlertEntries.ExpansionPrecedence | src/apps/alert/price-alert.service.ts:698-724 | the first entry of a rule for a code is direct, else through the watchlist, else through the portfolio |
| AlertEntries.GroupByWindow | src/apps/alert/price-alert.service.ts:536-543 | the loop groups the entries with a valid window by it |
| AlertEntries.WindowsKeepFirst | src/apps/alert/price-alert.service.ts:536-572 | going window by window drops exactly rules without a valid window and never changes which entry comes first |
| AlertScans.CollectPending | src/apps/alert/price-alert.service.ts:386-479 | the scan loop fills the nested pending maps as specified |
| AlertScans.CollectKeepsFirst | src/apps/alert/price-alert.service.ts:455-477 | the row kept for a rule and code has the source and stock name of the first entry for them and the value of the firing, if they fire |
| AlertScans.PriceScanRecordsSource | src/apps/alert/price-alert.service.ts:386-479 | a price scan collects a row if and only if its rule reaches its code and fires there, with that value and the source direct, else watchlist, else portfolio, read off the rule and the tables |
| AlertScans.EventScanRecordsSource | src/apps/alert/price-alert.service.ts:536-617 | the same for an event scan, for rules with a window of 0, 1, 3 or 7 days, and nothing for others |
| AlertScans.TransactionRecordsNewRows | src/apps/alert/price-alert.service.ts:486-508 | insert, re-read, filter and increment together append exactly the rows with new keys, report exactly those, and count once if there are any |
| AlertStore.Store.PersistRule | src/apps/alert/price-alert.service.ts:486-508 | the same for the imperative transaction |
| AlertStore.Store.PersistAndNotify | src/apps/alert/price-alert.service.ts:481-525 | an undisturbed scan records and notifies exactly the new rows in order, counts each triggered rule once and reports those rules |
| AlertRuns.OneRowPerKey | src/apps/alert/price-alert.service.ts:484-514 | over every history of interleaved scans each (rule, date, code) has at most one row |
| AlertRuns.FinishedScanRecordsAll | src/apps/alert/price-alert.service.ts:481-525 | once a scan finished, the table holds a row of the rule, date and code of everything it collected, whatever others did meanwhile |
| AlertRuns.NotifiedExactlyWhenFinished | src/apps/alert/price-alert.service.ts:516-525 | a row is notified exactly once if its scan finished and never otherwise |
| AlertRuns.CountIsBatches | src/apps/alert/price-alert.service.ts:500-505 | a rule's trigger count is the number of distinct batch ids in its history |
| AlertRuns.AbortLosesNotifications | src/apps/alert/price-alert.service.ts:484-525 | after a scan dies behind a committed transaction, no continuation ever notifies those keys |
| AlertRuns.RepeatTriggersNothing | src/apps/alert/price-alert.service.ts:318-530 | repeating a finished scan on unchanged data records and notifies nothing, whatever other scans do meanwhile |
| AlertRuns.CommitKeepsInv | src/apps/alert/price-alert.service.ts:619-649 | each transaction, price or event, keeps the invariant behind these results |
| AlertRuns.SameDataSameKeys | src/apps/alert/price-alert.service.ts:386-479 | the same entries and data give the same keys whatever the batch id |
| EventWindows.LowerBound | src/apps/event-study/event-study-tool.facade.ts:291-300 | on ascending days the binary search answers what the linear search does, -1 included |
| EventWindows.FindIndexMeaning | src/apps/event-study/event-study.service.ts:498 | the linear search finds the first day not before the target, or none |
| EventWindows.DeduplicateEvents | src/apps/event-study/event-study-tool.facade.ts:262-269 | the map keyed by event key, in insertion order |
| EventWindows.UniqueKeepsEachOnce | src/apps/event-study/event-study-tool.facade.ts:262-269 | every event survives exactly once |
| EventWindows.SelectionDependsOnSet | src/apps/event-study/event-study-tool.facade.ts:262-279 | the selection depends only on the set of extracted events, not on order or repetition |
| EventWindows.SelectedExactly | src/apps/event-study/event-study-tool.facade.ts:262-279 | an event is selected if and only if it was extracted and fewer than the maximum of other extracted events stand before it by hash, then key |
| EventWindows.SmallerSelectionIsPrefix | src/apps/event-study/event-study-tool.facade.ts:271-279 | smaller maxima select prefixes of larger ones, of distinct extracted events |
| EventSamples.RunStudy | src/apps/event-study/event-study-tool.facade.ts:103-198 | which failure, exactly when; else every selected event with all returns in its window is one sample, and each reason tells the number of extracted events it excluded, or is absent |
| EventSamples.SamplesAreGood | src/apps/event-study/event-study-tool.facade.ts:120-177 | the samples are exactly the selected events whose pre+post+1 consecutive days, the first day not before the event at offset pre, all have both returns |
| EventSamples.EachEventOnce | src/apps/event-study/event-study-tool.facade.ts:120-177 | every event is out of range, or lacks a stock return, or lacks only a benchmark return, or is complete: exactly one of these |
| EventReturns.RoundIsNearest | src/apps/event-study/event-study-tool.facade.ts:364-367 | rounding lands on the grid within half a step, upwards at the half, and leaves grid values alone |
| EventReturns.AggregateSeries | src/apps/event-study/event-study-tool.facade.ts:312-323 | each point is the rounded average and the rounded sum of unrounded averages at its relative day |
| EventReturns.LastCumulativeIsMean | src/apps/event-study/event-study-tool.facade.ts:178-191 | the last cumulative average equals the mean final return exactly |
| EventReturns.Headline | src/apps/event-study/event-study-tool.facade.ts:200-202 | so the last cumulative point and the reported mean are the same number |
| EventReturns.ComputeEventAR | src/apps/event-study/event-study.service.ts:487-518 | nothing without a full window, otherwise the rounded differences day by day and their exact sum |
| EventReturns.AggregateAAR | src/apps/event-study/event-study.service.ts:520-540 | the accumulating loops give rounded averages; their running sum at t stays within (t+1) half steps of the truth |
| EventReturns.DriftFreeExactly | src/apps/event-study/event-study.service.ts:531-537 | the service's running sums are the true cumulative averages at every day if and only if every day's average is a multiple of the rounding step |
| EventReturns.DriftIsReached | src/apps/event-study/event-study.service.ts:531-537 | that bound is reached, for every length |
| EvenSampling.SamplesEvenly | src/apps/backtest/backtest-tool.facade.ts:249-253 | m >= 2 points of n > m rows: both ends, strictly increasing, each the row nearest to i(n-1)/(m-1), every gap the floor or ceiling of (n-1)/(m-1); both copies agree |
| EvenSampling.GapIsFloorOrCeiling | src/apps/backtest/backtest-analytics-tool.facade.ts:314-319 | neighbouring indices differ by that floor or ceiling |
| EvenSampling.NoHolesUnlessOnePoint | src/apps/backtest/backtest-tool.facade.ts:249-253 | every requested point is a row unless one point is asked of several rows, exactly; what all other inputs give, and the flag of the second copy |
| LintBaseline.BuildBaseline | scripts/support/eslint-baseline.ts:41-86 | the nested loops compute the baseline the next two rows describe |
| LintCounts.SummaryCounts | scripts/support/eslint-baseline.ts:41-86 | the summary counts the files, those with a message of positive severity, and the messages of severity 2 and 1 |
| LintCounts.EntriesCountMessages | scripts/support/eslint-baseline.ts:41-86 | exactly one entry for each portable path, rule and positive severity, with the number of messages that have them; the counts add up; the order is path, rule, severity |
| LintBaseline.OrderIrrelevantExactly | scripts/support/eslint-baseline.ts:84-131 | the entries are independent of the order of the findings if and only if no two groups differ only in no rule against the empty rule |
| LintCounts.RegressionsAreRises | scripts/support/eslint-baseline.ts:88-104 | against any recorded entries, a regression is reported exactly for each group that more messages have than the last entry for it says, with both numbers and the difference |
| LintCounts.RegressionsInOrder | scripts/support/eslint-baseline.ts:88-104 | regressions come by path, rule, severity |
| LintBaseline.NoRegressionsExactly | scripts/support/eslint-baseline.ts:88-104 | nothing is reported if and only if no group's count rose above the baseline |
| LintCounts.SilentExactlyWhenContained | scripts/support/eslint-baseline.ts:41-104 | against a built baseline, silence means no group has more messages than it had |

## Left out

- Transport, scheduling and wiring: Prisma queries, Redis transport, queues, sockets, controllers, containers and load scripts; only the state they read and write is modelled.
- Cryptography, JWT, bcrypt, hashing and captcha images are ideal operations.
- Statistics: t values, p values, medians, standard errors and IEEE rounding.
- The market-data comparisons of price rules and the calendar lookup of event rules: a scan takes as given which (rule, code) fires and with what value.
- Trimming and refusing missing login fields; case folding of captchas beyond the ASCII letters they are drawn from.
- Deletion of rules and history rows, source names, user ids and memos of alert rows.
- Namespace invalidation interleaved with a concurrent write, and Redis failures during invalidation other than a DEL without keys; a key registered after the members were read survives.
- Cache metrics, prefix scans and the hashing of key texts; an infinite chunk size.
- NaN and infinite numbers in cache key payloads.
- Regular expressions and date formats in the validator are given predicates; texts are measured in the same units by validator and standard, so code points against UTF-16 units are not distinguished; numbers that overflow JSON parsing do not occur.
- The lint tool's pattern list, its reading of files and the path arithmetic behind portable paths.
- Section bookkeeping and argument normalisation of the analytics tool, the anomaly thresholds, the calendar formatting, the Tushare mappers: long but shallow.
- EventSamples.RunStudy: the checks of the request arguments before the extraction and the ranking of top samples after it are not modelled.
- MigrationSafety.MigrationIsInvisible: excludes a foreign snapshot write of another meaning while a write to that row is pending; there the property fails, as `MigrationSafety.SnapshotWriteIsBlind` shows.
- LockoutBound.WrongPasswordsAreBounded: assumes no crash; a handler that dies before its reset leaves a counter that is repaired by the next failure, as `LoginLockout.NextFailureRepairs` shows.
