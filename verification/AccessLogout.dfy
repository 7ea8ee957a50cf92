/**
 * Access tokens after logout: the request guard over time, with blacklist writes that fail, entries Redis drops,
 * users that change, and any number of logouts.
 */
module AccessLogout {
  import opened Prelude
  import opened TokenStore

  /** What each access token carries, and the lifetime used when it carries no expiry. */
  datatype Config = Config(user: nat -> nat, version: nat -> int, exp: nat -> Option<nat>, accessTtl: nat)

  function TokenOf(c: Config, jti: nat): Access {
    Access(c.user(jti), jti, c.version(jti), c.exp(jti))
  }

  datatype State = State(now: nat, blacklist: map<nat, nat>, users: map<nat, User>)

  datatype Event =
    | Pass(seconds: nat)
    | Evict(jti: nat)                    // eviction or restart; expiry is part of `Blacklisted`
    | Logout(jti: nat, writeOk: bool)    // a write that fails is swallowed
    | SetUser(user: nat, row: User)      // the version of a user never decreases

  function Step(c: Config, s: State, e: Event): State {
    match e
    case Pass(seconds) => s.(now := s.now + seconds)
    case Evict(jti) => s.(blacklist := s.blacklist - {jti})
    case Logout(jti, writeOk) =>
      if writeOk then s.(blacklist := AfterBlacklist(s.blacklist, TokenOf(c, jti), s.now, c.accessTtl)) else s
    case SetUser(user, row) =>
      if user in s.users && row.authVersion < s.users[user].authVersion then s else s.(users := s.users[user := row])
  }

  function Run(c: Config, events: seq<Event>): State {
    if events == [] then State(0, map[], map[]) else Step(c, Run(c, events[..|events| - 1]), events[|events| - 1])
  }

  /** The request guard lets the token through at the end of the run. */
  predicate AcceptedAfter(c: Config, events: seq<Event>, jti: nat) {
    var s := Run(c, events);
    Accepted(s.users, s.blacklist, TokenOf(c, jti), s.now)
  }

  /** The time at which event `k` happens. */
  function TimeAt(c: Config, events: seq<Event>, k: nat): nat
    requires k <= |events|
  {
    Run(c, events[..k]).now
  }

  predicate NotEvicted(events: seq<Event>, jti: nat) {
    forall n | 0 <= n < |events| :: events[n] != Evict(jti)
  }

  /** When the entry of a logout at time `at` lapses: with the token, or after the access lifetime. */
  function Lapses(c: Config, jti: nat, at: nat): nat {
    if c.exp(jti).Some? then c.exp(jti).value else at + c.accessTtl
  }

  /** The token carries no expiry, or has not reached it. */
  predicate Unexpired(c: Config, jti: nat, now: nat) {
    c.exp(jti).None? || now < c.exp(jti).value
  }

  /** The user of the token has a row, is active, and has the version in the token, a whole number from 0 to 2^53 - 1. */
  predicate UserCurrent(c: Config, jti: nat, users: map<nat, User>) {
    && 0 <= c.version(jti) < 0x20_0000_0000_0000
    && c.user(jti) in users && users[c.user(jti)] == User(true, c.version(jti))
  }

  /** Event `k` is a logout of the live token whose write succeeded and whose entry was not dropped since. */
  predicate Standing(c: Config, events: seq<Event>, jti: nat, k: nat) {
    && k < |events| && events[k] == Logout(jti, true)
    && Unexpired(c, jti, TimeAt(c, events, k))
    && NotEvicted(events[k + 1..], jti)
  }

  lemma {:induction false} TimePasses(c: Config, events: seq<Event>, k: nat)
    requires k <= |events|
    ensures TimeAt(c, events, k) <= Run(c, events).now
    decreases |events|
  {
    if k < |events| {
      TimePasses(c, events[..|events| - 1], k);
      assert events[..|events| - 1][..k] == events[..k];
    } else {
      assert events[..k] == events;
    }
  }

  /** One event more: what stood still stands unless the entry is dropped, and a successful logout stands. */
  lemma StandingSnoc(c: Config, events: seq<Event>, e: Event, jti: nat, k: nat)
    ensures k < |events| ==> (Standing(c, events + [e], jti, k) <==> Standing(c, events, jti, k) && e != Evict(jti))
    ensures k < |events| ==> TimeAt(c, events + [e], k) == TimeAt(c, events, k)
    ensures Standing(c, events + [e], jti, |events|) <==> e == Logout(jti, true) && Unexpired(c, jti, Run(c, events).now)
    ensures TimeAt(c, events + [e], |events|) == Run(c, events).now
    ensures Run(c, events + [e]) == Step(c, Run(c, events), e)
  {
    assert (events + [e])[..|events|] == events;
    if k < |events| {
      assert (events + [e])[..k] == events[..k];
      assert (events + [e])[k + 1..] == events[k + 1..] + [e];
      var later := events[k + 1..] + [e];
      assert later[|later| - 1] == e;
      assert forall n | 0 <= n < |events[k + 1..]| :: later[n] == events[k + 1..][n];
    }
    assert (events + [e])[|events| + 1..] == [];
  }

  /** The entry comes from a standing logout, and lapses no earlier than any standing logout asks. */
  ghost predicate EntryOk(c: Config, events: seq<Event>, jti: nat, blacklist: map<nat, nat>) {
    && (jti in blacklist ==> exists k: nat :: Standing(c, events, jti, k) && blacklist[jti] == Lapses(c, jti, TimeAt(c, events, k)))
    && (forall k: nat | Standing(c, events, jti, k) && (c.exp(jti).Some? || c.accessTtl > 0) ::
          jti in blacklist && Lapses(c, jti, TimeAt(c, events, k)) <= blacklist[jti])
  }

  lemma EntryStays(c: Config, events: seq<Event>, e: Event, jti: nat, blacklist: map<nat, nat>)
    requires EntryOk(c, events, jti, blacklist) && e != Evict(jti) && e != Logout(jti, true)
    ensures EntryOk(c, events + [e], jti, blacklist)
  {
    if jti in blacklist {
      var k: nat :| Standing(c, events, jti, k) && blacklist[jti] == Lapses(c, jti, TimeAt(c, events, k));
      StandingSnoc(c, events, e, jti, k);
    }
    forall k: nat | Standing(c, events + [e], jti, k) && (c.exp(jti).Some? || c.accessTtl > 0)
      ensures jti in blacklist && Lapses(c, jti, TimeAt(c, events + [e], k)) <= blacklist[jti]
    {
      StandingSnoc(c, events, e, jti, k);
    }
  }

  lemma EntryDropped(c: Config, events: seq<Event>, jti: nat, blacklist: map<nat, nat>)
    requires jti !in blacklist
    ensures EntryOk(c, events + [Evict(jti)], jti, blacklist)
  {
    forall k: nat ensures !Standing(c, events + [Evict(jti)], jti, k) {
      StandingSnoc(c, events, Evict(jti), jti, k);
    }
  }

  lemma EntryWritten(c: Config, events: seq<Event>, jti: nat, blacklist: map<nat, nat>)
    requires EntryOk(c, events, jti, blacklist)
    ensures EntryOk(c, events + [Logout(jti, true)], jti, AfterBlacklist(blacklist, TokenOf(c, jti), Run(c, events).now, c.accessTtl))
  {
    var e, now := Logout(jti, true), Run(c, events).now;
    var after := AfterBlacklist(blacklist, TokenOf(c, jti), now, c.accessTtl);
    StandingSnoc(c, events, e, jti, |events|);
    if jti in after && after[jti] != Lapses(c, jti, now) {
      var k: nat :| Standing(c, events, jti, k) && blacklist[jti] == Lapses(c, jti, TimeAt(c, events, k));
      StandingSnoc(c, events, e, jti, k);
    } else if jti in after && !Verifies(TokenOf(c, jti), now) {
      var k: nat :| Standing(c, events, jti, k) && blacklist[jti] == Lapses(c, jti, TimeAt(c, events, k));
      StandingSnoc(c, events, e, jti, k);
    }
    forall k: nat | Standing(c, events + [e], jti, k) && (c.exp(jti).Some? || c.accessTtl > 0)
      ensures jti in after && Lapses(c, jti, TimeAt(c, events + [e], k)) <= after[jti]
    {
      StandingSnoc(c, events, e, jti, k);
      if k < |events| {
        TimePasses(c, events, k);
      }
    }
  }

  lemma {:induction false} EntryAfterRun(c: Config, events: seq<Event>, jti: nat)
    ensures EntryOk(c, events, jti, Run(c, events).blacklist)
  {
    if events != [] {
      var init, e := events[..|events| - 1], events[|events| - 1];
      EntryAfterRun(c, init, jti);
      assert events == init + [e];
      var before := Run(c, init).blacklist;
      hide EntryOk;
      if e == Evict(jti) {
        EntryDropped(c, init, jti, Run(c, events).blacklist);
      } else if e == Logout(jti, true) {
        EntryWritten(c, init, jti, before);
      } else {
        OtherEntry(c, init, e, jti);
      }
    }
  }

  lemma OtherEntry(c: Config, init: seq<Event>, e: Event, jti: nat)
    requires EntryOk(c, init, jti, Run(c, init).blacklist) && e != Evict(jti) && e != Logout(jti, true)
    ensures EntryOk(c, init + [e], jti, Step(c, Run(c, init), e).blacklist)
  {
    var before, after := Run(c, init).blacklist, Step(c, Run(c, init), e).blacklist;
    EntryStays(c, init, e, jti, before);
    assert (jti in after <==> jti in before) && (jti in after ==> after[jti] == before[jti]);
  }

  /**
   * After any run a token is accepted exactly if it is still live, its user admits it, and no logout stands against
   * it: one whose write succeeded, whose entry Redis has not dropped, and has not lapsed.
   */
  lemma AcceptedExactly(c: Config, events: seq<Event>, jti: nat)
    ensures var (now, users) := (Run(c, events).now, Run(c, events).users);
            AcceptedAfter(c, events, jti) <==>
              && Unexpired(c, jti, now)
              && UserCurrent(c, jti, users)
              && forall k: nat | Standing(c, events, jti, k) :: Lapses(c, jti, TimeAt(c, events, k)) <= now
  {
    EntryAfterRun(c, events, jti);
    var s := Run(c, events);
    forall k: nat | Standing(c, events, jti, k) && s.now < Lapses(c, jti, TimeAt(c, events, k)) ensures Blacklisted(s.blacklist, jti, s.now) {
      TimePasses(c, events, k);
    }
  }

  lemma {:induction false} StandsWhileNotEvicted(c: Config, events: seq<Event>, later: seq<Event>, jti: nat, k: nat)
    requires Standing(c, events, jti, k) && NotEvicted(later, jti)
    ensures Standing(c, events + later, jti, k) && TimeAt(c, events + later, k) == TimeAt(c, events, k)
    decreases later
  {
    if later == [] {
      assert events + later == events;
    } else {
      var init, e := later[..|later| - 1], later[|later| - 1];
      assert later == init + [e];
      assert NotEvicted(init, jti) by {
        assert forall n | 0 <= n < |init| :: init[n] == later[n];
      }
      StandsWhileNotEvicted(c, events, init, jti, k);
      StandingSnoc(c, events + init, e, jti, k);
      assert events + later == events + init + [e];
    }
  }

  /** No logout stands against a live token at the end of the run. */
  ghost predicate Unopposed(c: Config, events: seq<Event>, jti: nat) {
    forall k: nat :: !Standing(c, events, jti, k)
  }

  ghost predicate NeverAccepted(c: Config, events: seq<Event>, jti: nat) {
    forall later | NotEvicted(later, jti) :: !AcceptedAfter(c, events + later, jti)
  }

  /** The user may yet admit the token: it was signed for a proper version, which the user has not passed. */
  predicate MayAdmit(users: map<nat, User>, token: Access) {
    && 0 <= token.authVersion < 0x20_0000_0000_0000
    && (token.user in users ==> users[token.user].authVersion <= token.authVersion)
  }

  /**
   * A logout is final, in every continuation in which Redis keeps the entry, exactly if the token was already
   * dead, or the user has passed its version, or it carries an expiry and this write or that of an earlier standing
   * logout succeeded.
   */
  lemma LogoutIsFinal(c: Config, events: seq<Event>, jti: nat, writeOk: bool)
    ensures var done := events + [Logout(jti, writeOk)];
            NeverAccepted(c, done, jti) <==>
              || !Unexpired(c, jti, Run(c, events).now)
              || !MayAdmit(Run(c, events).users, TokenOf(c, jti))
              || (c.exp(jti).Some? && (writeOk || !Unopposed(c, events, jti)))
  {
    var e := Logout(jti, writeOk);
    var done := events + [e];
    StandingSnoc(c, events, e, jti, |events|);
    if !Verifies(TokenOf(c, jti), Run(c, events).now) {
      DeadStaysDead(c, done, jti);
    } else if !MayAdmit(Run(c, events).users, TokenOf(c, jti)) {
      PassedStaysPassed(c, done, jti);
    } else if c.exp(jti).None? {
      LapsesInTime(c, done, jti);
    } else if writeOk {
      StandingIsFinal(c, done, jti, |events|);
    } else if !Unopposed(c, events, jti) {
      var k: nat :| Standing(c, events, jti, k);
      StandingSnoc(c, events, e, jti, k);
      StandingIsFinal(c, done, jti, k);
    } else {
      AcceptedSoon(c, events, e, jti);
    }
  }

  lemma DeadStaysDead(c: Config, events: seq<Event>, jti: nat)
    requires !Verifies(TokenOf(c, jti), Run(c, events).now)
    ensures NeverAccepted(c, events, jti)
  {
    forall later | NotEvicted(later, jti) ensures !AcceptedAfter(c, events + later, jti) {
      TimePasses(c, events + later, |events|);
      assert (events + later)[..|events|] == events;
    }
  }

  lemma {:induction false} VersionStaysPassed(c: Config, events: seq<Event>, later: seq<Event>, token: Access)
    requires !MayAdmit(Run(c, events).users, token)
    ensures !MayAdmit(Run(c, events + later).users, token)
    decreases later
  {
    if later == [] {
      assert events + later == events;
    } else {
      var init, e := later[..|later| - 1], later[|later| - 1];
      VersionStaysPassed(c, events, init, token);
      StandingSnoc(c, events + init, e, token.jti, 0);
      assert events + later == events + init + [e];
    }
  }

  lemma PassedStaysPassed(c: Config, events: seq<Event>, jti: nat)
    requires !MayAdmit(Run(c, events).users, TokenOf(c, jti))
    ensures NeverAccepted(c, events, jti)
  {
    forall later | NotEvicted(later, jti) ensures !AcceptedAfter(c, events + later, jti) {
      VersionStaysPassed(c, events, later, TokenOf(c, jti));
    }
  }

  lemma StandingIsFinal(c: Config, events: seq<Event>, jti: nat, k: nat)
    requires c.exp(jti).Some? && Standing(c, events, jti, k)
    ensures NeverAccepted(c, events, jti)
  {
    forall later | NotEvicted(later, jti) ensures !AcceptedAfter(c, events + later, jti) {
      StandsWhileNotEvicted(c, events, later, jti, k);
      AcceptedExactly(c, events + later, jti);
    }
  }

  /** The event after which the user of the token is active with its version. */
  function Readmission(c: Config, jti: nat): Event {
    SetUser(c.user(jti), User(true, c.version(jti)))
  }

  /** Two events later: the user has the version of the token again, and its entry has lapsed. */
  lemma AcceptedOnceLapsed(c: Config, s: State, jti: nat)
    requires c.exp(jti).None? && MayAdmit(s.users, TokenOf(c, jti))
    ensures var d := Step(c, Step(c, s, Readmission(c, jti)), Pass(if jti in s.blacklist then s.blacklist[jti] else 0));
            Accepted(d.users, d.blacklist, TokenOf(c, jti), d.now)
  {
  }

  /** A token without expiry is accepted again once its entry has lapsed. */
  lemma LapsesInTime(c: Config, events: seq<Event>, jti: nat)
    requires c.exp(jti).None? && MayAdmit(Run(c, events).users, TokenOf(c, jti))
    ensures !NeverAccepted(c, events, jti)
  {
    var s := Run(c, events);
    var e, wait := Readmission(c, jti), Pass(if jti in s.blacklist then s.blacklist[jti] else 0);
    AcceptedOnceLapsed(c, s, jti);
    hide Run, MayAdmit, Accepted, Step, Standing, TimeAt, Unexpired;
    StandingSnoc(c, events, e, jti, 0);
    StandingSnoc(c, events + [e], wait, jti, 0);
    var later := [e, wait];
    assert events + later == events + [e] + [wait];
    assert NotEvicted(later, jti) && AcceptedAfter(c, events + later, jti);
  }

  lemma AcceptedSoon(c: Config, events: seq<Event>, e: Event, jti: nat)
    requires e == Logout(jti, false) && Verifies(TokenOf(c, jti), Run(c, events).now) && Unopposed(c, events, jti)
    requires MayAdmit(Run(c, events).users, TokenOf(c, jti))
    ensures !NeverAccepted(c, events + [e], jti)
  {
    var r := Readmission(c, jti);
    StandingSnoc(c, events, e, jti, 0);
    StandingSnoc(c, events + [e], r, jti, 0);
    EntryAfterRun(c, events, jti);
    assert !Blacklisted(Run(c, events).blacklist, jti, Run(c, events).now);
    assert NotEvicted([r], jti) && AcceptedAfter(c, events + [e] + [r], jti);
  }

  /** Dropping the entry of a token that its user admits lets it in again at once while it is live. */
  lemma EvictionReadmits(c: Config, events: seq<Event>, jti: nat)
    ensures AcceptedAfter(c, events + [Evict(jti)], jti) <==>
            Unexpired(c, jti, Run(c, events).now) && UserCurrent(c, jti, Run(c, events).users)
  {
    StandingSnoc(c, events, Evict(jti), jti, 0);
  }
}
