/** How many wrong passwords an account takes between two resets of its counter, with any number of attempts at once. */
module LockoutBound {
  import opened Prelude
  import opened LoginLockout

  // ---------------------------------------------------------------- counting attempts

  /** Where an attempt of the account may still add to the counter, or is about to lock the account for it. */
  datatype Stage =
    | Entering    // past the lock look, about to check the password
    | Missed      // the password was wrong; about to INCR
    | Limiting    // counted at the limit; the lock and the reset are its duty

  predicate InStage(h: Attempt, a: Account, stage: Stage) {
    match stage
    case Entering => h.Unlocked? && h.account == a
    case Missed => h.Failing? && h.account == a
    case Limiting => MidHandler(h) && h.account == a && h.count >= 5
  }

  function Weight(h: Attempt, a: Account, stage: Stage): nat {
    if InStage(h, a, stage) then 1 else 0
  }

  lemma SubmittedAddsNothing(b: Account, id: nat, code: string, a: Account, stage: Stage)
    ensures Weight(Submitted(b, id, code), a, stage) == 0
  {
  }

  /** How many attempts of the account are in this stage. */
  function Tally(attempts: seq<Attempt>, a: Account, stage: Stage): nat {
    if attempts == [] then 0
    else Tally(attempts[..|attempts| - 1], a, stage) + Weight(attempts[|attempts| - 1], a, stage)
  }

  lemma {:induction false} TallyChanged(attempts: seq<Attempt>, i: nat, h: Attempt, a: Account, stage: Stage)
    requires i < |attempts|
    ensures Tally(attempts[i := h], a, stage) + Weight(attempts[i], a, stage) == Tally(attempts, a, stage) + Weight(h, a, stage)
  {
    var n := |attempts| - 1;
    if i == n {
      assert attempts[i := h][..n] == attempts[..n];
    } else {
      assert attempts[i := h][..n] == attempts[..n][i := h];
      TallyChanged(attempts[..n], i, h, a, stage);
    }
  }

  lemma TallyAdded(attempts: seq<Attempt>, h: Attempt, a: Account, stage: Stage)
    ensures Tally(attempts + [h], a, stage) == Tally(attempts, a, stage) + Weight(h, a, stage)
  {
    assert (attempts + [h])[..|attempts|] == attempts;
  }

  /** Attempts past the lock look that have not finished: they check, have failed, or are about to lock. */
  function PastLook(s: State, a: Account): nat {
    Tally(s.attempts, a, Entering) + Tally(s.attempts, a, Missed) + Tally(s.attempts, a, Limiting)
  }

  /** The failures Redis counts for the account; nothing or an expired counter is none. */
  function Count(s: State, a: Account): nat {
    if a in s.store.fails && (s.store.fails[a].expires.Some? ==> s.now < s.store.fails[a].expires.value)
    then s.store.fails[a].count else 0
  }

  predicate Early(h: Attempt) {
    h.Submitted? || h.Admitted? || h.Unlocked? || h.Closed?
  }

  /** Up to the password check nothing touches the counter, and no attempt skips a stage. */
  lemma EarlyAdvance(s: State, i: nat, verdict: Verdict)
    requires At(s, i) && Early(s.attempts[i])
    ensures var (d, h, next) := (AdvanceAttempt(s, i, verdict), s.attempts[i], AdvanceAttempt(s, i, verdict).attempts[i]);
            && d.attempts == s.attempts[i := next] && d.now == s.now && d.store.fails == s.store.fails
            && (h.Submitted? || h.Closed? ==> next.Closed? || next.Admitted?)
            && (h.Admitted? ==> next.Closed? || (next.Unlocked? && next.account == h.account && !IsLocked(s.store, h.account, s.now)))
            && (h.Unlocked? ==> next == if verdict.WrongPassword? then Failing(h.account) else if verdict.Accepted? then Clearing(h.account) else Closed)
  {
    hide CaptchaMatches;
  }

  // ---------------------------------------------------------------- the counter and its handlers

  /** Beyond four, every failure counted has a handler that is about to lock the account and reset the counter. */
  predicate Bounded(s: State, a: Account) {
    Count(s, a) <= 4 + Tally(s.attempts, a, Limiting)
  }

  /** An attempt that raises a counter to the limit takes on the duty to reset it. */
  lemma AdvanceLimits(s: State, i: nat, verdict: Verdict, a: Account)
    requires At(s, i)
    ensures var (d, h) := (AdvanceAttempt(s, i, verdict), s.attempts[i]);
            && d.attempts == s.attempts[i := d.attempts[i]]
            && (Count(d, a) >= 5 ==>
                  Count(d, a) + Weight(h, a, Limiting) <= Count(s, a) + Weight(d.attempts[i], a, Limiting))
  {
    if Early(s.attempts[i]) {
      EarlyAdvance(s, i, verdict);
      hide AdvanceAttempt;
    } else {
      hide TakeCaptcha, CaptchaMatches;
    }
  }

  lemma StepKeepsBounded(s: State, e: Event, a: Account)
    requires Bounded(s, a) && !e.Crash?
    ensures Bounded(Step(s, e), a)
  {
    hide AdvanceAttempt, InStage, Tally;
    match e
    case Advance(i, verdict) =>
      if At(s, i) {
        AdvanceLimits(s, i, verdict, a);
        TallyChanged(s.attempts, i, AdvanceAttempt(s, i, verdict).attempts[i], a, Limiting);
      }
    case Submit(b, id, code) =>
      TallyAdded(s.attempts, Submitted(b, id, code), a, Limiting);
    case _ =>
  }

  predicate NoCrash(events: seq<Event>) {
    forall k | 0 <= k < |events| :: !events[k].Crash?
  }

  lemma {:induction false} RunKeepsBounded(s: State, events: seq<Event>, a: Account)
    requires Bounded(s, a) && NoCrash(events)
    ensures Bounded(Run(s, events), a)
    decreases events
  {
    if events != [] {
      RunKeepsBounded(s, events[..|events| - 1], a);
      StepKeepsBounded(Run(s, events[..|events| - 1]), events[|events| - 1], a);
    }
  }

  // ---------------------------------------------------------------- wrong passwords between two resets

  /** The event checks the password of the account, and it is wrong. */
  predicate WrongCheck(s: State, e: Event, a: Account) {
    e.Advance? && e.verdict.WrongPassword? && At(s, e.i) && InStage(s.attempts[e.i], a, Entering)
  }

  function WrongChecks(s: State, events: seq<Event>, a: Account): nat {
    if events == [] then 0
    else
      var before := events[..|events| - 1];
      WrongChecks(s, before, a) + if WrongCheck(Run(s, before), events[|events| - 1], a) then 1 else 0
  }

  /** No event of the run lowers the counter: it is neither reset, nor dropped, nor does it expire. */
  ghost predicate NoReset(s: State, events: seq<Event>, a: Account) {
    forall k | 0 <= k < |events| :: Count(Run(s, events[..k]), a) <= Count(Run(s, events[..k + 1]), a)
  }

  lemma PrefixesOf(s: State, events: seq<Event>, a: Account)
    requires events != [] && NoReset(s, events, a) && NoCrash(events)
    ensures NoReset(s, events[..|events| - 1], a) && NoCrash(events[..|events| - 1])
    ensures Count(Run(s, events[..|events| - 1]), a) <= Count(Run(s, events), a)
  {
    var before := events[..|events| - 1];
    assert forall k | 0 <= k <= |before| :: before[..k] == events[..k];
    assert events[..|before|] == before && events[..|before| + 1] == events;
  }

  lemma AdvanceConserves(s: State, i: nat, verdict: Verdict, a: Account)
    requires At(s, i) && Count(s, a) <= Count(AdvanceAttempt(s, i, verdict), a)
    ensures var (d, h) := (AdvanceAttempt(s, i, verdict), s.attempts[i]);
            && d.attempts == s.attempts[i := d.attempts[i]]
            && Count(d, a) + Weight(d.attempts[i], a, Missed)
               == Count(s, a) + Weight(h, a, Missed) + if WrongCheck(s, Advance(i, verdict), a) then 1 else 0
  {
    if Early(s.attempts[i]) {
      EarlyAdvance(s, i, verdict);
      hide AdvanceAttempt;
    } else {
      hide TakeCaptcha, CaptchaMatches;
    }
  }

  /** Every wrong password becomes a failure about to be counted, and then a count. */
  lemma StepCounts(s: State, e: Event, a: Account)
    requires !e.Crash? && Count(s, a) <= Count(Step(s, e), a)
    ensures Count(Step(s, e), a) + Tally(Step(s, e).attempts, a, Missed)
         == Count(s, a) + Tally(s.attempts, a, Missed) + if WrongCheck(s, e, a) then 1 else 0
  {
    hide AdvanceAttempt, InStage, Tally;
    match e
    case Advance(i, verdict) =>
      if At(s, i) {
        AdvanceConserves(s, i, verdict, a);
        TallyChanged(s.attempts, i, AdvanceAttempt(s, i, verdict).attempts[i], a, Missed);
      }
    case Submit(b, id, code) =>
      SubmittedAddsNothing(b, id, code, a, Missed);
      TallyAdded(s.attempts, Submitted(b, id, code), a, Missed);
    case _ =>
  }

  /** Conservation: between two resets, counted plus pending failures grow by exactly the wrong passwords. */
  lemma {:induction false} WrongPasswordsAreCounted(s: State, events: seq<Event>, a: Account)
    requires NoReset(s, events, a) && NoCrash(events)
    ensures Count(Run(s, events), a) + Tally(Run(s, events).attempts, a, Missed)
         == Count(s, a) + Tally(s.attempts, a, Missed) + WrongChecks(s, events, a)
    decreases events
  {
    if events != [] {
      PrefixesOf(s, events, a);
      WrongPasswordsAreCounted(s, events[..|events| - 1], a);
      StepCounts(Run(s, events[..|events| - 1]), events[|events| - 1], a);
    }
  }

  // ---------------------------------------------------------------- the bound

  /** What the counter may still reach through attempts already past the lock look. */
  function Reach(s: State, a: Account): nat {
    Count(s, a) + Tally(s.attempts, a, Entering) + Tally(s.attempts, a, Missed)
  }

  /** An attempt that moves on takes what it adds to the counter from what was pending. */
  lemma AdvanceCounts(s: State, i: nat, verdict: Verdict, a: Account)
    requires At(s, i)
    ensures var (d, h) := (AdvanceAttempt(s, i, verdict), s.attempts[i]);
            && d.attempts == s.attempts[i := d.attempts[i]] && d.now == s.now
            && Count(d, a) <= Count(s, a) + Weight(h, a, Missed)
            && (InStage(d.attempts[i], a, Missed) ==> InStage(h, a, Entering))
            && (InStage(h, a, Entering) ==> Count(d, a) == Count(s, a))
            && (IsLocked(s.store, a, s.now) ==> !InStage(d.attempts[i], a, Entering))
  {
    if Early(s.attempts[i]) {
      EarlyAdvance(s, i, verdict);
      hide AdvanceAttempt;
    } else {
      hide TakeCaptcha, CaptchaMatches;
    }
  }

  lemma LockedAdvanceKeepsReach(s: State, i: nat, verdict: Verdict, a: Account)
    requires At(s, i) && IsLocked(s.store, a, s.now)
    ensures Reach(AdvanceAttempt(s, i, verdict), a) <= Reach(s, a)
  {
    var d := AdvanceAttempt(s, i, verdict);
    AdvanceCounts(s, i, verdict, a);
    hide AdvanceAttempt, Count, IsLocked;
    TallyChanged(s.attempts, i, d.attempts[i], a, Entering);
    TallyChanged(s.attempts, i, d.attempts[i], a, Missed);
  }

  /** While the account is locked nothing adds to it. */
  lemma LockedStepKeepsReach(s: State, e: Event, a: Account)
    requires IsLocked(s.store, a, s.now) && !e.Crash?
    ensures Reach(Step(s, e), a) <= Reach(s, a)
  {
    hide AdvanceAttempt;
    match e
    case Advance(i, verdict) =>
      if At(s, i) {
        LockedAdvanceKeepsReach(s, i, verdict, a);
      }
    case Submit(b, id, code) =>
      TallyAdded(s.attempts, Submitted(b, id, code), a, Entering);
      TallyAdded(s.attempts, Submitted(b, id, code), a, Missed);
    case _ =>
  }

  lemma {:induction false} LockedRunKeepsReach(s: State, events: seq<Event>, a: Account)
    requires LockedThroughout(s, events, a) && NoCrash(events)
    ensures Reach(Run(s, events), a) <= Reach(s, a)
    decreases events
  {
    if events != [] {
      var before := events[..|events| - 1];
      assert forall k | 0 <= k <= |before| :: before[..k] == events[..k];
      LockedRunKeepsReach(s, before, a);
      LockedStepKeepsReach(Run(s, before), events[|events| - 1], a);
    }
  }

  lemma {:induction false} RunConcat(s: State, a: seq<Event>, b: seq<Event>)
    ensures Run(s, a + b) == Run(Run(s, a), b)
    decreases b
  {
    if b == [] {
      assert a + b == a;
    } else {
      var init := b[..|b| - 1];
      assert (a + b)[..|a + b| - 1] == a + init;
      RunConcat(s, a, init);
    }
  }

  /** From the start of the service, without crashes, the counter stays bounded. */
  lemma StartIsBounded(past: seq<Event>, a: Account)
    requires NoCrash(past)
    ensures Bounded(Run(Initial(), past), a)
  {
    RunKeepsBounded(Initial(), past, a);
  }

  /**
   * Without crashes, however many attempts interleave: from one reset of the counter to the next, as long as the
   * account stays locked once it is locked, at most four wrong passwords are taken, plus one for every attempt that
   * was past the lock look when the lock began.
   */
  lemma WrongPasswordsAreBounded(past: seq<Event>, open: seq<Event>, locked: seq<Event>, a: Account)
    requires NoCrash(past) && NoCrash(open) && NoCrash(locked)
    requires NoReset(Run(Initial(), past), open + locked, a)
    requires LockedThroughout(Run(Run(Initial(), past), open), locked, a)
    ensures WrongChecks(Run(Initial(), past), open + locked, a)
         <= 4 + PastLook(Run(Run(Initial(), past), open), a)
  {
    var s := Run(Initial(), past);
    var m := Run(s, open);
    StartIsBounded(past, a);
    RunKeepsBounded(s, open, a);
    RunConcat(s, open, locked);
    WrongPasswordsAreCounted(s, open + locked, a);
    LockedRunKeepsReach(m, locked, a);
  }
}
