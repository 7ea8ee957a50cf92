/**
 * Login attempts with every Redis command a step of its own: the one-time captcha, the lock, and the
 * failure counter that INCR, EXPIRE NX, SET and DEL maintain without a transaction.
 */
module LoginLockout {
  import opened Prelude

  const MAX_FAIL: nat := 5
  const FAIL_WINDOW: nat := 300
  const LOCK_DURATION: nat := 600
  const CAPTCHA_TTL: nat := 60

  type Account = nat

  datatype Counter = Counter(count: nat, expires: Option<nat>)

  datatype Captcha = Captcha(text: string, expires: nat)

  /** The three key spaces of the login. */
  datatype Store = Store(fails: map<Account, Counter>, locks: map<Account, nat>, captchas: map<nat, Captcha>)

  // ---------------------------------------------------------------- Redis commands

  function LiveFail(store: Store, a: Account, now: nat): Option<Counter> {
    if a in store.fails && (store.fails[a].expires.Some? ==> now < store.fails[a].expires.value)
    then Some(store.fails[a]) else None
  }

  predicate IsLocked(store: Store, a: Account, now: nat) {
    a in store.locks && now < store.locks[a]
  }

  function Incr(store: Store, a: Account, now: nat): (Store, nat) {
    match LiveFail(store, a, now)
    case None => (store.(fails := store.fails[a := Counter(1, None)]), 1)
    case Some(c) => (store.(fails := store.fails[a := Counter(c.count + 1, c.expires)]), c.count + 1)
  }

  /** EXPIRE NX: only a key that exists and has no expiry gets one. */
  function ExpireNx(store: Store, a: Account, now: nat): Store {
    match LiveFail(store, a, now)
    case Some(Counter(n, None)) => store.(fails := store.fails[a := Counter(n, Some(now + FAIL_WINDOW))])
    case _ => store
  }

  function SetLock(store: Store, a: Account, now: nat): Store {
    store.(locks := store.locks[a := now + LOCK_DURATION])
  }

  function DelFail(store: Store, a: Account): Store {
    store.(fails := store.fails - {a})
  }

  /** GETDEL of a captcha: reading it removes it. */
  function TakeCaptcha(store: Store, id: nat, now: nat): (Store, Option<string>) {
    (store.(captchas := store.captchas - {id}),
     if id in store.captchas && now < store.captchas[id].expires then Some(store.captchas[id].text) else None)
  }

  function LowerChar(c: char): char {
    if 'A' <= c <= 'Z' then (c as int + 32) as char else c
  }

  /** `toLowerCase`, on the letters captchas are drawn from. */
  function Lower(s: string): string {
    seq(|s|, i requires 0 <= i < |s| => LowerChar(s[i]))
  }

  /** An empty stored text is falsy, and refused like a missing one. */
  predicate CaptchaMatches(stored: Option<string>, code: string) {
    stored.Some? && stored.value != "" && stored.value == Lower(code)
  }

  // ---------------------------------------------------------------- attempts

  /** What the database and the password check say. */
  datatype Verdict = NoUser | WrongPassword | Disabled | Accepted

  /** A captcha that was passed: its id, the code that was submitted, and when it was taken. */
  datatype Check = Check(captcha: nat, code: string, taken: nat)

  /** A captcha as it was handed out. */
  datatype Handed = Handed(text: string, at: nat)

  datatype Attempt =
    | Submitted(account: Account, captcha: nat, code: string)   // about to GETDEL the captcha
    | Admitted(account: Account, pass: Check)                   // about to look at the lock
    | Unlocked(account: Account, pass: Check)                   // about to check the password
    | Failing(account: Account)                                 // about to INCR
    | Counted(account: Account, count: nat)                     // about to EXPIRE NX
    | Timed(account: Account, count: nat)                       // at the limit; about to SET the lock
    | Locking(account: Account, count: nat)                     // about to DEL the counter
    | Clearing(account: Account)                                // accepted; about to DEL the counter
    | Closed

  datatype State = State(
    now: nat,
    store: Store,
    attempts: seq<Attempt>,
    torn: set<Account>,      // accounts with a handler lost between its commands, and no failure since
    drawn: map<nat, Handed>, // captchas ever handed out
    checks: seq<Check>)      // the captcha of every password check, in order

  datatype Event =
    | Tick(seconds: nat)
    | DropFail(account: Account)     // expiry, eviction or restart
    | DropLock(account: Account)
    | NewCaptcha(id: nat, text: string)
    | Submit(account: Account, captcha: nat, code: string)
    | Advance(i: nat, verdict: Verdict)
    | Crash(i: nat)

  function Initial(): State {
    State(0, Store(map[], map[], map[]), [], {}, map[], [])
  }

  predicate At(s: State, i: nat) {
    i < |s.attempts|
  }

  function Put(s: State, i: nat, a: Attempt): State
    requires At(s, i)
  {
    s.(attempts := s.attempts[i := a])
  }

  /** One attempt runs to its next await. */
  function AdvanceAttempt(s: State, i: nat, verdict: Verdict): State
    requires At(s, i)
  {
    match s.attempts[i]
    case Submitted(a, id, code) =>
      var (store, stored) := TakeCaptcha(s.store, id, s.now);
      Put(s, i, if CaptchaMatches(stored, code) then Admitted(a, Check(id, code, s.now)) else Closed).(store := store)
    case Admitted(a, pass) =>
      Put(s, i, if IsLocked(s.store, a, s.now) then Closed else Unlocked(a, pass))
    case Unlocked(a, pass) =>
      Put(s, i, match verdict
                case WrongPassword => Failing(a)
                case Accepted => Clearing(a)
                case _ => Closed).(checks := s.checks + [pass])
    case Failing(a) =>
      var (store, count) := Incr(s.store, a, s.now);
      Put(s, i, Counted(a, count)).(store := store, torn := s.torn - {a})
    case Counted(a, count) =>
      Put(s, i, if count >= MAX_FAIL then Timed(a, count) else Closed).(store := ExpireNx(s.store, a, s.now))
    case Timed(a, count) =>
      Put(s, i, Locking(a, count)).(store := SetLock(s.store, a, s.now))
    case Locking(a, _) =>
      Put(s, i, Closed).(store := DelFail(s.store, a))
    case Clearing(a) =>
      Put(s, i, Closed).(store := DelFail(s.store, a))
    case Closed => s
  }

  /** Between INCR and the end of the handler. */
  predicate MidHandler(h: Attempt) {
    h.Counted? || h.Timed? || h.Locking?
  }

  function Step(s: State, e: Event): State {
    match e
    case Tick(seconds) => s.(now := s.now + seconds)
    case DropFail(a) => s.(store := DelFail(s.store, a))
    case DropLock(a) => s.(store := s.store.(locks := s.store.locks - {a}))
    case NewCaptcha(id, text) =>
      if id in s.drawn then s
      else s.(store := s.store.(captchas := s.store.captchas[id := Captcha(Lower(text), s.now + CAPTCHA_TTL)]),
              drawn := s.drawn[id := Handed(text, s.now)])
    case Submit(a, id, code) => s.(attempts := s.attempts + [Submitted(a, id, code)])
    case Advance(i, verdict) => if At(s, i) then AdvanceAttempt(s, i, verdict) else s
    case Crash(i) =>
      if !At(s, i) then s
      else Put(s, i, Closed).(torn := if MidHandler(s.attempts[i]) then s.torn + {s.attempts[i].account} else s.torn)
  }

  function Run(s: State, events: seq<Event>): State {
    if events == [] then s else Step(Run(s, events[..|events| - 1]), events[|events| - 1])
  }

  // ---------------------------------------------------------------- the lockout invariant

  /** Attempt `i` has the reply `count` in hand and its DEL still to come. */
  predicate WillReset(attempts: seq<Attempt>, i: nat, a: Account, count: nat) {
    i < |attempts| && MidHandler(attempts[i]) && attempts[i].account == a && attempts[i].count == count
  }

  predicate WillExpire(attempts: seq<Attempt>, i: nat, a: Account) {
    i < |attempts| && attempts[i].Counted? && attempts[i].account == a
  }

  /** A counter at the limit has a handler that will reset it; one without expiry has a handler that will set it. */
  ghost predicate Covered(store: Store, attempts: seq<Attempt>, a: Account, now: nat) {
    var c := LiveFail(store, a, now);
    && (c.Some? && c.value.count >= MAX_FAIL ==> exists i :: WillReset(attempts, i, a, c.value.count))
    && (c.Some? && c.value.expires.None? ==> exists i :: WillExpire(attempts, i, a))
  }

  ghost predicate ExpireInWindow(fails: map<Account, Counter>, now: nat) {
    forall a | a in fails && fails[a].expires.Some? :: fails[a].expires.value <= now + FAIL_WINDOW
  }

  ghost predicate LockAtLimit(attempts: seq<Attempt>) {
    forall i | 0 <= i < |attempts| && (attempts[i].Timed? || attempts[i].Locking?) :: attempts[i].count >= MAX_FAIL
  }

  ghost predicate Inv(s: State) {
    && (forall a | a !in s.torn :: Covered(s.store, s.attempts, a, s.now))
    && ExpireInWindow(s.store.fails, s.now)
    && LockAtLimit(s.attempts)
  }

  /** Moving attempt `i` on keeps cover for `a` unless `i` was what `a` relied on. */
  lemma OthersStillCover(attempts: seq<Attempt>, i: nat, h: Attempt, a: Account, now: nat, store: Store)
    requires i < |attempts| && Covered(store, attempts, a, now)
    requires !(MidHandler(attempts[i]) && attempts[i].account == a)
    ensures Covered(store, attempts[i := h], a, now)
  {
    var c := LiveFail(store, a, now);
    var later := attempts[i := h];
    if c.Some? && c.value.count >= MAX_FAIL {
      var j :| WillReset(attempts, j, a, c.value.count);
      assert WillReset(later, j, a, c.value.count);
    }
    if c.Some? && c.value.expires.None? {
      var j :| WillExpire(attempts, j, a);
      assert WillExpire(later, j, a);
    }
  }

  /** INCR gives its own handler both duties, whatever the state before. */
  lemma IncrRestoresCover(store: Store, attempts: seq<Attempt>, i: nat, a: Account, now: nat)
    requires i < |attempts| && attempts[i] == Failing(a)
    ensures var (later, count) := Incr(store, a, now);
            Covered(later, attempts[i := Counted(a, count)], a, now)
  {
    var (later, count) := Incr(store, a, now);
    assert WillReset(attempts[i := Counted(a, count)], i, a, count);
    assert WillExpire(attempts[i := Counted(a, count)], i, a);
  }

  /** After EXPIRE NX the counter has an expiry, and the handler keeps its duty to reset. */
  lemma ExpireKeepsCover(store: Store, attempts: seq<Attempt>, i: nat, a: Account, count: nat, now: nat)
    requires i < |attempts| && attempts[i] == Counted(a, count) && Covered(store, attempts, a, now)
    ensures Covered(ExpireNx(store, a, now), attempts[i := if count >= MAX_FAIL then Timed(a, count) else Closed], a, now)
  {
    var h := if count >= MAX_FAIL then Timed(a, count) else Closed;
    var later := attempts[i := h];
    var c := LiveFail(ExpireNx(store, a, now), a, now);
    if c.Some? && c.value.count >= MAX_FAIL {
      var j :| WillReset(attempts, j, a, c.value.count);
      assert WillReset(later, j, a, c.value.count);
    }
  }

  lemma LockKeepsCover(store: Store, attempts: seq<Attempt>, i: nat, a: Account, count: nat, now: nat)
    requires i < |attempts| && attempts[i] == Timed(a, count) && Covered(store, attempts, a, now)
    ensures Covered(SetLock(store, a, now), attempts[i := Locking(a, count)], a, now)
  {
    var later := attempts[i := Locking(a, count)];
    var c := LiveFail(store, a, now);
    if c.Some? && c.value.count >= MAX_FAIL {
      var j :| WillReset(attempts, j, a, c.value.count);
      assert WillReset(later, j, a, c.value.count);
    }
    if c.Some? && c.value.expires.None? {
      var j :| WillExpire(attempts, j, a);
      assert WillExpire(later, j, a);
    }
  }

  lemma AdvanceKeepsCover(s: State, i: nat, verdict: Verdict, a: Account)
    requires At(s, i) && (Covered(s.store, s.attempts, a, s.now) || s.attempts[i] == Failing(a))
    ensures var d := AdvanceAttempt(s, i, verdict); Covered(d.store, d.attempts, a, d.now)
  {
    var d := AdvanceAttempt(s, i, verdict);
    match s.attempts[i]
    case Failing(b) =>
      if b == a {
        IncrRestoresCover(s.store, s.attempts, i, a, s.now);
      } else {
        OthersStillCover(s.attempts, i, d.attempts[i], a, s.now, s.store);
      }
    case Counted(b, count) =>
      if b == a {
        ExpireKeepsCover(s.store, s.attempts, i, a, count, s.now);
      } else {
        OthersStillCover(s.attempts, i, d.attempts[i], a, s.now, s.store);
      }
    case Timed(b, count) =>
      if b == a {
        LockKeepsCover(s.store, s.attempts, i, a, count, s.now);
      } else {
        OthersStillCover(s.attempts, i, d.attempts[i], a, s.now, s.store);
      }
    case Locking(b, _) =>
      if b != a {
        OthersStillCover(s.attempts, i, d.attempts[i], a, s.now, s.store);
      }
    case Closed =>
    case _ =>
      OthersStillCover(s.attempts, i, d.attempts[i], a, s.now, s.store);
  }

  lemma CoverOutlivesAddition(store: Store, attempts: seq<Attempt>, h: Attempt, a: Account, now: nat)
    requires Covered(store, attempts, a, now)
    ensures Covered(store, attempts + [h], a, now)
  {
    var c := LiveFail(store, a, now);
    if c.Some? && c.value.count >= MAX_FAIL {
      var j :| WillReset(attempts, j, a, c.value.count);
      assert WillReset(attempts + [h], j, a, c.value.count);
    }
    if c.Some? && c.value.expires.None? {
      var j :| WillExpire(attempts, j, a);
      assert WillExpire(attempts + [h], j, a);
    }
  }

  lemma StepKeepsCover(s: State, e: Event, a: Account)
    requires a !in s.torn ==> Covered(s.store, s.attempts, a, s.now)
    ensures var d := Step(s, e); a !in d.torn ==> Covered(d.store, d.attempts, a, d.now)
  {
    match e
    case Advance(i, verdict) =>
      if At(s, i) && (a !in s.torn || s.attempts[i] == Failing(a)) {
        AdvanceKeepsCover(s, i, verdict, a);
      }
    case Submit(b, id, code) =>
      if a !in s.torn {
        CoverOutlivesAddition(s.store, s.attempts, Submitted(b, id, code), a, s.now);
      }
    case Crash(i) =>
      if At(s, i) && a !in s.torn && !(MidHandler(s.attempts[i]) && s.attempts[i].account == a) {
        OthersStillCover(s.attempts, i, Closed, a, s.now, s.store);
      }
    case _ =>
  }

  lemma StepKeepsWindow(s: State, e: Event)
    requires ExpireInWindow(s.store.fails, s.now)
    ensures ExpireInWindow(Step(s, e).store.fails, Step(s, e).now)
  {
  }

  lemma StepKeepsLimit(s: State, e: Event)
    requires LockAtLimit(s.attempts)
    ensures LockAtLimit(Step(s, e).attempts)
  {
    hide Incr, ExpireNx, TakeCaptcha;
  }

  lemma StepKeepsInv(s: State, e: Event)
    requires Inv(s)
    ensures Inv(Step(s, e))
  {
    hide Covered, Step, ExpireInWindow, LockAtLimit;
    StepKeepsWindow(s, e);
    StepKeepsLimit(s, e);
    var d := Step(s, e);
    forall a | a !in d.torn ensures Covered(d.store, d.attempts, a, d.now) {
      StepKeepsCover(s, e, a);
    }
  }

  lemma {:induction false} RunKeepsInv(s: State, events: seq<Event>)
    requires Inv(s)
    ensures Inv(Run(s, events))
  {
    if events != [] {
      RunKeepsInv(s, events[..|events| - 1]);
      StepKeepsInv(Run(s, events[..|events| - 1]), events[|events| - 1]);
    }
  }

  // ---------------------------------------------------------------- main results: the counter, in every run

  ghost predicate Reachable(s: State) {
    exists events :: s == Run(Initial(), events)
  }

  lemma ReachableInv(s: State)
    requires Reachable(s)
    ensures Inv(s) && CaptchaInv(s)
  {
    var events :| s == Run(Initial(), events);
    RunKeepsInv(Initial(), events);
    RunKeepsCaptchas(Initial(), events);
  }

  predicate Quiet(s: State, a: Account) {
    forall i | 0 <= i < |s.attempts| :: !(MidHandler(s.attempts[i]) && s.attempts[i].account == a)
  }

  /** The counter is absent or expired, or below five and bound to expire within five minutes. */
  predicate Settled(store: Store, a: Account, now: nat) {
    a in store.fails && (store.fails[a].expires.Some? ==> now < store.fails[a].expires.value) ==>
      store.fails[a].count < 5 && store.fails[a].expires.Some? && store.fails[a].expires.value <= now + 300
  }

  /**
   * In every interleaving: a counter at the limit has a handler on its way to reset it, one without an
   * expiry has a handler on its way to set it, unless a handler of that account was lost and no failure
   * came since; so when no handler is between its commands the counter is settled.
   */
  lemma CounterIsSettledWhenQuiet(s: State, a: Account)
    requires Reachable(s) && a !in s.torn
    ensures Covered(s.store, s.attempts, a, s.now)
    ensures Quiet(s, a) ==> Settled(s.store, a, s.now)
  {
    ReachableInv(s);
    var c := LiveFail(s.store, a, s.now);
    if Quiet(s, a) && c.Some? {
      assert forall i, n :: !WillReset(s.attempts, i, a, n);
      assert forall i :: !WillExpire(s.attempts, i, a);
    }
  }

  /** Without crashes no account is ever torn. */
  lemma {:induction false} TornOnlyByCrash(events: seq<Event>)
    requires forall e | e in events :: !e.Crash?
    ensures Run(Initial(), events).torn == {}
  {
    if events != [] {
      TornOnlyByCrash(events[..|events| - 1]);
    }
  }

  /** A crash between the commands is repaired by the next counted failure, whatever it left behind. */
  lemma NextFailureRepairs(s: State, i: nat, verdict: Verdict)
    requires Reachable(s) && At(s, i) && s.attempts[i].Failing?
    ensures var a := s.attempts[i].account;
            var d := Step(s, Advance(i, verdict));
            a !in d.torn && Covered(d.store, d.attempts, a, d.now)
  {
    IncrRestoresCover(s.store, s.attempts, i, s.attempts[i].account, s.now);
  }

  // ---------------------------------------------------------------- what the lock buys

  /** The lock of the account is live before the first, between any two, and after the last event. */
  ghost predicate LockedThroughout(s: State, events: seq<Event>, a: Account) {
    forall k | 0 <= k <= |events| ::
      var d := Run(s, events[..k]); a in d.store.locks && d.now < d.store.locks[a]
  }

  /** An admitted attempt goes on to the password exactly if the account has no lock, or a lock that has run out. */
  lemma UnlockedExactly(s: State, i: nat, verdict: Verdict)
    requires At(s, i) && s.attempts[i].Admitted?
    ensures var (a, d) := (s.attempts[i].account, Step(s, Advance(i, verdict)));
            && (d.attempts[i].Unlocked? <==> a !in s.store.locks || s.store.locks[a] <= s.now)
            && (d.attempts[i].Unlocked? ==> d.attempts[i] == Unlocked(a, s.attempts[i].pass))
            && d.store == s.store
  {
  }

  /** The attempt is about to check the password of the account. */
  predicate AboutToCheck(s: State, i: nat, a: Account) {
    At(s, i) && s.attempts[i].Unlocked? && s.attempts[i].account == a
  }

  lemma LockedStepAdmitsNone(s: State, e: Event, a: Account, i: nat)
    requires IsLocked(s.store, a, s.now) && AboutToCheck(Step(s, e), i, a)
    ensures AboutToCheck(s, i, a) && Step(s, e).attempts[i] == s.attempts[i]
  {
  }

  /**
   * While a lock is live, whatever else happens, only attempts that had already passed the lock look when the
   * lock began reach a password check of the account.
   */
  lemma {:induction false} LockKeepsOthersOut(s: State, events: seq<Event>, a: Account, i: nat)
    requires LockedThroughout(s, events, a) && AboutToCheck(Run(s, events), i, a)
    ensures AboutToCheck(s, i, a) && Run(s, events).attempts[i] == s.attempts[i]
    decreases events
  {
    if events != [] {
      var before, e := events[..|events| - 1], events[|events| - 1];
      assert forall k | 0 <= k <= |before| :: before[..k] == events[..k];
      assert events[..|before|] == before;
      LockedStepAdmitsNone(Run(s, before), e, a, i);
      LockKeepsOthersOut(s, before, a, i);
    }
  }

  // ---------------------------------------------------------------- the captcha

  /** The same letters, but for their case. */
  predicate SameIgnoringCase(a: string, b: string) {
    && |a| == |b|
    && forall i | 0 <= i < |a| ::
         || a[i] == b[i]
         || ('A' <= a[i] <= 'Z' && b[i] as int == a[i] as int + 32)
         || ('A' <= b[i] <= 'Z' && a[i] as int == b[i] as int + 32)
  }

  lemma LowerMeaning(a: string, b: string)
    ensures Lower(a) == Lower(b) <==> SameIgnoringCase(a, b)
    ensures Lower(a) == "" <==> a == ""
  {
    if Lower(a) == Lower(b) {
      forall i | 0 <= i < |a| ensures LowerChar(a[i]) == LowerChar(b[i]) {
        assert Lower(a)[i] == Lower(b)[i];
      }
    }
  }

  predicate HoldsCaptcha(h: Attempt) {
    h.Admitted? || h.Unlocked?
  }

  /** The captcha was handed out less than a minute before it was taken, with the text that was submitted. */
  predicate Passed(drawn: map<nat, Handed>, c: Check) {
    && c.captcha in drawn && drawn[c.captcha].text != ""
    && SameIgnoringCase(c.code, drawn[c.captcha].text)
    && drawn[c.captcha].at <= c.taken < drawn[c.captcha].at + 60
  }

  function Ids(checks: seq<Check>): seq<nat> {
    seq(|checks|, i requires 0 <= i < |checks| => checks[i].captcha)
  }

  /** What is stored under an id is what was handed out under it. */
  predicate StoredAsDrawn(captchas: map<nat, Captcha>, drawn: map<nat, Handed>, id: nat, now: nat)
    requires id in captchas
  {
    id in drawn && drawn[id].at <= now && captchas[id] == Captcha(Lower(drawn[id].text), drawn[id].at + 60)
  }

  ghost predicate StoredOk(captchas: map<nat, Captcha>, drawn: map<nat, Handed>, checks: seq<Check>, now: nat) {
    forall id | id in captchas :: StoredAsDrawn(captchas, drawn, id, now) && id !in Ids(checks)
  }

  ghost predicate ChecksOk(drawn: map<nat, Handed>, checks: seq<Check>) {
    Distinct(Ids(checks)) && forall k | 0 <= k < |checks| :: Passed(drawn, checks[k])
  }

  /** The captcha an attempt holds is passed, gone from the store, and not yet used for a check. */
  predicate HeldOk(captchas: map<nat, Captcha>, drawn: map<nat, Handed>, checks: seq<Check>, h: Attempt) {
    HoldsCaptcha(h) ==> Passed(drawn, h.pass) && h.pass.captcha !in captchas && h.pass.captcha !in Ids(checks)
  }

  ghost predicate AttemptsOk(captchas: map<nat, Captcha>, drawn: map<nat, Handed>, checks: seq<Check>, attempts: seq<Attempt>) {
    && (forall i | 0 <= i < |attempts| :: HeldOk(captchas, drawn, checks, attempts[i]))
    && (forall i, j | 0 <= i < j < |attempts| && HoldsCaptcha(attempts[i]) && HoldsCaptcha(attempts[j]) ::
          attempts[i].pass.captcha != attempts[j].pass.captcha)
  }

  ghost predicate CaptchaInv(s: State) {
    && StoredOk(s.store.captchas, s.drawn, s.checks, s.now)
    && ChecksOk(s.drawn, s.checks)
    && AttemptsOk(s.store.captchas, s.drawn, s.checks, s.attempts)
  }

  lemma AppendDistinct(s: seq<nat>, x: nat)
    requires Distinct(s) && x !in s
    ensures Distinct(s + [x])
  {
  }

  lemma IdsSnoc(checks: seq<Check>, c: Check)
    ensures Ids(checks + [c]) == Ids(checks) + [c.captcha]
  {
  }

  /** An attempt that moves on without taking or using a captcha. */
  lemma MovedOk(s: State, i: nat, h: Attempt)
    requires CaptchaInv(s) && At(s, i) && (HoldsCaptcha(h) ==> HoldsCaptcha(s.attempts[i]) && h.pass == s.attempts[i].pass)
    ensures AttemptsOk(s.store.captchas, s.drawn, s.checks, s.attempts[i := h])
  {
    assert HeldOk(s.store.captchas, s.drawn, s.checks, s.attempts[i]);
    hide Passed, Distinct, Ids, StoredOk, ChecksOk;
  }

  lemma CheckKeepsCaptchas(s: State, i: nat, h: Attempt)
    requires CaptchaInv(s) && At(s, i) && s.attempts[i].Unlocked? && !HoldsCaptcha(h)
    ensures CaptchaInv(s.(attempts := s.attempts[i := h], checks := s.checks + [s.attempts[i].pass]))
  {
    var pass := s.attempts[i].pass;
    assert HeldOk(s.store.captchas, s.drawn, s.checks, s.attempts[i]);
    AppendDistinct(Ids(s.checks), pass.captcha);
    IdsSnoc(s.checks, pass);
    hide Distinct, Passed, Ids, StoredAsDrawn;
    var checks := s.checks + [pass];
    var later := s.attempts[i := h];
    forall k | 0 <= k < |later| ensures HeldOk(s.store.captchas, s.drawn, checks, later[k]) {
      assert HeldOk(s.store.captchas, s.drawn, s.checks, s.attempts[k]);
    }
  }

  lemma OtherAdvanceKeepsCaptchas(s: State, i: nat, verdict: Verdict)
    requires CaptchaInv(s) && At(s, i) && !s.attempts[i].Unlocked? && !s.attempts[i].Submitted?
    ensures CaptchaInv(AdvanceAttempt(s, i, verdict))
  {
    var d := AdvanceAttempt(s, i, verdict);
    assert d.attempts == s.attempts[i := d.attempts[i]] && d.store.captchas == s.store.captchas;
    MovedOk(s, i, d.attempts[i]);
    hide StoredOk, ChecksOk, AttemptsOk;
  }

  /** What a captcha admits was handed out with that text. */
  lemma MatchIsPassed(s: State, id: nat, code: string)
    requires CaptchaInv(s) && CaptchaMatches(TakeCaptcha(s.store, id, s.now).1, code)
    ensures Passed(s.drawn, Check(id, code, s.now)) && id in s.store.captchas
  {
    assert StoredAsDrawn(s.store.captchas, s.drawn, id, s.now);
    LowerMeaning(code, s.drawn[id].text);
    LowerMeaning(s.drawn[id].text, "");
  }

  lemma TakingKeepsCaptchas(s: State, i: nat, verdict: Verdict)
    requires CaptchaInv(s) && At(s, i) && s.attempts[i].Submitted?
    ensures CaptchaInv(AdvanceAttempt(s, i, verdict))
  {
    var d, id, code := AdvanceAttempt(s, i, verdict), s.attempts[i].captcha, s.attempts[i].code;
    if CaptchaMatches(TakeCaptcha(s.store, id, s.now).1, code) {
      MatchIsPassed(s, id, code);
    }
    assert d.attempts == s.attempts[i := d.attempts[i]] && d.store.captchas == s.store.captchas - {id};
    assert HoldsCaptcha(d.attempts[i]) ==> d.attempts[i].pass == Check(id, code, s.now) && Passed(s.drawn, d.attempts[i].pass) && id in s.store.captchas;
    hide Distinct, Passed, Ids, CaptchaMatches, AdvanceAttempt;
    forall k | 0 <= k < |s.attempts| ensures HeldOk(d.store.captchas, s.drawn, s.checks, d.attempts[k]) {
      assert HeldOk(s.store.captchas, s.drawn, s.checks, s.attempts[k]);
    }
    assert forall k | 0 <= k < |s.attempts| :: HeldOk(s.store.captchas, s.drawn, s.checks, s.attempts[k]);
  }

  lemma NewCaptchaKeepsCaptchas(s: State, id: nat, text: string)
    requires CaptchaInv(s)
    ensures CaptchaInv(Step(s, NewCaptcha(id, text)))
  {
    hide Distinct, SameIgnoringCase, Lower;
    if id !in s.drawn {
      var d := Step(s, NewCaptcha(id, text));
      assert forall c: Check :: Passed(s.drawn, c) ==> Passed(d.drawn, c) && c.captcha != id;
      assert forall k | 0 <= k < |s.attempts| :: HeldOk(s.store.captchas, s.drawn, s.checks, s.attempts[k]);
      forall k | 0 <= k < |s.checks| ensures Ids(s.checks)[k] != id {
        assert Passed(s.drawn, s.checks[k]);
      }
    }
  }

  lemma SubmitKeepsCaptchas(s: State, a: Account, id: nat, code: string)
    requires CaptchaInv(s)
    ensures CaptchaInv(Step(s, Submit(a, id, code)))
  {
    hide Distinct, Passed, Ids, StoredOk, ChecksOk;
  }

  lemma StepKeepsCaptchas(s: State, e: Event)
    requires CaptchaInv(s)
    ensures CaptchaInv(Step(s, e))
  {
    hide Distinct, AdvanceAttempt, Passed, Ids, AttemptsOk, ChecksOk;
    match e
    case Advance(i, verdict) =>
      if At(s, i) {
        AdvanceKeepsCaptchas(s, i, verdict);
      }
    case NewCaptcha(id, text) => NewCaptchaKeepsCaptchas(s, id, text);
    case Submit(a, id, code) => SubmitKeepsCaptchas(s, a, id, code);
    case Crash(i) =>
      if At(s, i) {
        MovedOk(s, i, Closed);
      }
    case _ =>
  }

  lemma AdvanceKeepsCaptchas(s: State, i: nat, verdict: Verdict)
    requires CaptchaInv(s) && At(s, i)
    ensures CaptchaInv(AdvanceAttempt(s, i, verdict))
  {
    var d := AdvanceAttempt(s, i, verdict);
    if s.attempts[i].Unlocked? {
      assert d == s.(attempts := s.attempts[i := d.attempts[i]], checks := s.checks + [s.attempts[i].pass]);
      hide CaptchaInv;
      CheckKeepsCaptchas(s, i, d.attempts[i]);
    } else if s.attempts[i].Submitted? {
      TakingKeepsCaptchas(s, i, verdict);
    } else {
      OtherAdvanceKeepsCaptchas(s, i, verdict);
    }
  }

  lemma {:induction false} RunKeepsCaptchas(s: State, events: seq<Event>)
    requires CaptchaInv(s)
    ensures CaptchaInv(Run(s, events))
  {
    if events != [] {
      RunKeepsCaptchas(s, events[..|events| - 1]);
      StepKeepsCaptchas(Run(s, events[..|events| - 1]), events[|events| - 1]);
    }
  }

  /** A captcha admits one attempt to the credential check: checks never outnumber captchas. */
  lemma OneCheckPerCaptcha(s: State)
    requires Reachable(s)
    ensures forall j, k | 0 <= j < k < |s.checks| :: s.checks[j].captcha != s.checks[k].captcha
    ensures |s.checks| <= |s.drawn|
  {
    ReachableInv(s);
    var ids := Ids(s.checks);
    DistinctCardinality(ids);
    forall id | id in ids ensures id in s.drawn {
      var k :| 0 <= k < |ids| && ids[k] == id;
      assert Passed(s.drawn, s.checks[k]);
    }
    SubsetCardinality(ToSet(ids), s.drawn.Keys);
    assert forall k | 0 <= k < |s.checks| :: ids[k] == s.checks[k].captcha;
  }

  /**
   * In every run each password check belongs to an attempt whose submitted code was, but for case, the text handed
   * out under its captcha, and which took the captcha less than 60 seconds after it was handed out.
   */
  lemma ChecksFollowCaptchas(s: State, k: nat)
    requires Reachable(s) && k < |s.checks|
    ensures var c := s.checks[k];
            && c.captcha in s.drawn && s.drawn[c.captcha].text != ""
            && SameIgnoringCase(c.code, s.drawn[c.captcha].text)
            && s.drawn[c.captcha].at <= c.taken < s.drawn[c.captcha].at + 60
  {
    ReachableInv(s);
    hide Reachable, SameIgnoringCase;
  }

  /** A submitted attempt is admitted exactly if its captcha is stored, live, not empty and equal but for case; taken it is. */
  lemma AdmittedExactly(s: State, i: nat, verdict: Verdict)
    requires Reachable(s) && At(s, i) && s.attempts[i].Submitted?
    ensures var (id, code, d) := (s.attempts[i].captcha, s.attempts[i].code, Step(s, Advance(i, verdict)));
            && (d.attempts[i].Admitted? <==>
                  && id in s.store.captchas && id in s.drawn && s.drawn[id].text != ""
                  && s.now < s.drawn[id].at + 60 && SameIgnoringCase(code, s.drawn[id].text))
            && (d.attempts[i].Admitted? ==> d.attempts[i] == Admitted(s.attempts[i].account, Check(id, code, s.now)))
            && d.store.captchas == s.store.captchas - {id}
  {
    ReachableInv(s);
    var id := s.attempts[i].captcha;
    if id in s.store.captchas {
      assert StoredAsDrawn(s.store.captchas, s.drawn, id, s.now);
      LowerMeaning(s.attempts[i].code, s.drawn[id].text);
      LowerMeaning(s.drawn[id].text, "");
    }
    hide Reachable;
  }

  // ---------------------------------------------------------------- one handler alone

  /** `handleLoginFail` with nothing in between. */
  function AfterFailure(store: Store, a: Account, now: nat): Store {
    var (counted, count) := Incr(store, a, now);
    var timed := ExpireNx(counted, a, now);
    if count >= MAX_FAIL then DelFail(SetLock(timed, a, now), a) else timed
  }

  /**
   * From any store, however a crash left it, one uninterrupted failure leaves a settled counter; it
   * locks the account for the lock duration exactly when it is at least the fifth, and then starts the
   * count afresh. An expiry the counter had is kept, a missing one is set.
   */
  lemma FailureSettles(store: Store, a: Account, now: nat)
    requires a in store.fails && store.fails[a].expires.Some? ==> store.fails[a].expires.value <= now + FAIL_WINDOW
    ensures var live := a in store.fails && (store.fails[a].expires.Some? ==> now < store.fails[a].expires.value);
            var count := if live then store.fails[a].count + 1 else 1;
            var expires := if live && store.fails[a].expires.Some? then store.fails[a].expires.value else now + 300;
            var after := AfterFailure(store, a, now);
            && Settled(after, a, now)
            && after == if count >= 5 then store.(locks := store.locks[a := now + 600], fails := store.fails - {a})
                        else store.(fails := store.fails[a := Counter(count, Some(expires))])
  {
  }

  /** Four times the same attempt, with nothing in between. */
  function AdvanceFour(s: State, i: nat, verdict: Verdict): State {
    var e := Advance(i, verdict);
    Step(Step(Step(Step(s, e), e), e), e)
  }

  /** The steps of a failing attempt, uninterrupted, leave what `handleLoginFail` leaves, and end it. */
  lemma FailureAlone(s: State, i: nat, verdict: Verdict)
    requires At(s, i) && s.attempts[i].Failing?
    ensures var (a, d) := (s.attempts[i].account, AdvanceFour(s, i, verdict));
            d.store == AfterFailure(s.store, a, s.now) && d.attempts == s.attempts[i := Closed]
  {
    var a, e := s.attempts[i].account, Advance(i, verdict);
    var (store, count) := Incr(s.store, a, s.now);
    var counted := Step(s, e);
    assert counted.attempts == s.attempts[i := Counted(a, count)] && counted.store == store && counted.now == s.now;
    var timed := Step(counted, e);
    assert timed.attempts == s.attempts[i := if count >= MAX_FAIL then Timed(a, count) else Closed];
    assert timed.store == ExpireNx(store, a, s.now) && timed.now == s.now;
    if count >= MAX_FAIL {
      var locked := Step(timed, e);
      assert locked.attempts == s.attempts[i := Locking(a, count)] && locked.store == SetLock(timed.store, a, s.now);
      hide ExpireNx, Incr;
      assert Step(locked, e).attempts == s.attempts[i := Closed] && Step(locked, e).store == DelFail(locked.store, a);
    }
  }

  /**
   * What a password check leads to: only a wrong password goes on to be counted; a right one, uninterrupted, leaves
   * the account without a counter and its lock as it was; the other verdicts end the attempt.
   */
  lemma VerdictsLeadTo(s: State, i: nat, verdict: Verdict)
    requires At(s, i) && s.attempts[i].Unlocked?
    ensures var (a, d) := (s.attempts[i].account, Step(s, Advance(i, verdict)));
            && d.store == s.store && d.checks == s.checks + [s.attempts[i].pass]
            && (verdict.WrongPassword? ==> d.attempts[i] == Failing(a))
            && (verdict.NoUser? || verdict.Disabled? ==> d.attempts[i] == Closed)
            && (verdict.Accepted? ==>
                  var done := Step(d, Advance(i, verdict));
                  && a !in done.store.fails && done.store.fails == s.store.fails - {a}
                  && done.store.locks == s.store.locks && done.attempts[i] == Closed)
  {
  }

  class LoginKeys {
    var fails: map<Account, Counter>
    var locks: map<Account, nat>
    var captchas: map<nat, Captcha>

    function Contents(): Store
      reads this
    {
      Store(fails, locks, captchas)
    }

    method IncrFail(a: Account, now: nat) returns (count: nat)
      modifies `fails
      ensures (Contents(), count) == Incr(old(Contents()), a, now)
    {
      if a in fails && (fails[a].expires.Some? ==> now < fails[a].expires.value) {
        count := fails[a].count + 1;
        fails := fails[a := Counter(count, fails[a].expires)];
      } else {
        count := 1;
        fails := fails[a := Counter(1, None)];
      }
    }

    method HandleLoginFail(a: Account, now: nat)
      modifies `fails, `locks
      ensures Contents() == AfterFailure(old(Contents()), a, now)
    {
      var count := IncrFail(a, now);
      if a in fails && fails[a].expires.None? {
        fails := fails[a := Counter(fails[a].count, Some(now + FAIL_WINDOW))];
      }
      if count >= MAX_FAIL {
        locks := locks[a := now + LOCK_DURATION];
        fails := fails - {a};
      }
    }

    /** True exactly if a live captcha that is not empty has this text, but for case; the captcha is gone in any case. */
    method ValidateCaptcha(id: nat, code: string, now: nat) returns (ok: bool)
      modifies `captchas
      ensures captchas == old(captchas) - {id}
      ensures ok <==>
              && id in old(captchas) && now < old(captchas)[id].expires
              && old(captchas)[id].text != "" && old(captchas)[id].text == Lower(code)
      ensures var (store, stored) := TakeCaptcha(old(Contents()), id, now);
              Contents() == store && ok == CaptchaMatches(stored, code)
    {
      ok := id in captchas && now < captchas[id].expires && captchas[id].text != "" && captchas[id].text == Lower(code);
      captchas := captchas - {id};
    }
  }
}
