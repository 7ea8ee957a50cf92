/** What the refresh protocol guarantees in every run, and the sequential method it refines. */
module RefreshGuarantees {
  import opened Prelude
  import opened TokenStore
  import opened RefreshProtocol

  // ---------------------------------------------------------------- main results, for every run

  ghost predicate Reachable(s: State) {
    exists ttl, events :: s == Run(Initial(ttl), events)
  }

  lemma ReachableInv(s: State)
    requires Reachable(s)
    ensures Inv(s)
  {
    var ttl, events :| s == Run(Initial(ttl), events);
    RunKeepsInv(Initial(ttl), events);
  }

  lemma RunSnoc(s: State, events: seq<Event>, e: Event)
    ensures Run(s, events + [e]) == Step(Run(s, events), e)
  {
    assert (events + [e])[..|events|] == events;
  }

  lemma StepReachable(s: State, e: Event)
    requires Reachable(s)
    ensures Reachable(Step(s, e))
  {
    hide Step, Run;
    var ttl, events :| s == Run(Initial(ttl), events);
    RunSnoc(Initial(ttl), events, e);
  }

  lemma {:induction false} RunReachable(s: State, events: seq<Event>)
    requires Reachable(s)
    ensures Reachable(Run(s, events))
  {
    hide Step, Reachable;
    if events != [] {
      RunReachable(s, events[..|events| - 1]);
      StepReachable(Run(s, events[..|events| - 1]), events[|events| - 1]);
    }
  }

  /** No refresh token is answered `valid` twice, whatever runs concurrently. */
  lemma ValidAtMostOnce(s: State, m: nat, n: nat)
    requires Reachable(s) && m < n < |s.log| && IsValid(s.log[m]) && IsValid(s.log[n])
    ensures s.log[m].jti != s.log[n].jti
  {
    ReachableInv(s);
    hide Reachable, Known, RequestsOk, Marks, Families, Timely;
  }

  /** Every grace answer comes after the token's `valid` answer and within ten seconds of it. */
  lemma GraceOnlyInWindow(s: State, n: nat)
    requires Reachable(s) && n < |s.log| && s.log[n].Answer? && s.log[n].reply == Grace
    ensures exists m | 0 <= m < n :: s.log[m].Answer? && s.log[m].jti == s.log[n].jti && s.log[m].reply == Valid
                                     && s.log[m].at <= s.log[n].at < s.log[m].at + 10
  {
    ReachableInv(s);
    hide Reachable, Known, RequestsOk, Marks, Families, LogOk;
  }

  /** Every user row a request goes by is that of an active user. */
  predicate ByActiveUser(r: Request) {
    r.LoggingIn? || r.Consuming? || r.Granting? ==> r.row.active
  }

  ghost predicate ByActiveUsers(s: State) {
    forall i | 0 <= i < |s.requests| :: ByActiveUser(s.requests[i])
  }

  lemma ConsumeKeepsActive(s: State, i: nat, newJti: nat)
    requires At(s, i) && s.requests[i].Consuming? && ByActiveUser(s.requests[i])
    ensures var d := ConsumeStep(s, i, newJti); d.requests == s.requests[i := d.requests[i]] && ByActiveUser(d.requests[i])
  {
    hide ConsumeScript, Sign;
  }

  /** Every step but that of the script adds one request, or moves one. */
  lemma StepMovesActive(s: State, e: Event, i: nat)
    requires ByActiveUsers(s) && !e.Consume? && i < |Step(s, e).requests|
    ensures ByActiveUser(Step(s, e).requests[i])
  {
    hide Sign, KeyOf, Remember, Forgotten, NormalizeAuthVersion, Presentable;
    assert i < |s.requests| ==> ByActiveUser(s.requests[i]);
  }

  lemma StepKeepsActive(s: State, e: Event)
    requires ByActiveUsers(s)
    ensures ByActiveUsers(Step(s, e))
  {
    if e.Consume? {
      if At(s, e.i) && s.requests[e.i].Consuming? {
        ConsumeKeepsActive(s, e.i, e.newJti);
      }
      hide ConsumeStep;
    } else {
      hide Step;
      forall i | 0 <= i < |Step(s, e).requests| ensures ByActiveUser(Step(s, e).requests[i]) {
        StepMovesActive(s, e, i);
      }
    }
  }

  lemma {:induction false} RunKeepsActive(ttl: nat, events: seq<Event>)
    ensures ByActiveUsers(Run(Initial(ttl), events))
  {
    if events != [] {
      RunKeepsActive(ttl, events[..|events| - 1]);
      hide Step, ByActiveUsers;
      StepKeepsActive(Run(Initial(ttl), events[..|events| - 1]), events[|events| - 1]);
    }
  }

  /** Request `i` is about to sign a refresh token for the user, by this row. */
  predicate SignsFor(s: State, i: nat, user: nat, row: User) {
    && At(s, i)
    && (s.requests[i] == LoggingIn(user, row)
        || (s.requests[i].Consuming? && s.requests[i].row == row && s.requests[i].token.user == user))
  }

  lemma OnlyTheseSign(s: State, e: Event, j: nat)
    requires j !in s.issued && j in Step(s, e).issued
    ensures (e.DrawLogin? || e.Consume?) && e.newJti == j && At(s, e.i) && (s.requests[e.i].LoggingIn? || s.requests[e.i].Consuming?)
    ensures var (h, t) := (s.requests[e.i], Step(s, e).issued[j]);
            && SignsFor(s, e.i, t.user, h.row) && t.authVersion == NormalizeAuthVersion(h.row.authVersion)
  {
  }

  /**
   * No refresh token is signed for a user who was not active: signing one is the step of a login or of a rotation that
   * goes by the row of an active user, and the token has the version in that row.
   */
  lemma SignedByActiveRow(s: State, e: Event, j: nat)
    requires Reachable(s) && j !in s.issued && j in Step(s, e).issued
    ensures exists i, row :: SignsFor(s, i, Step(s, e).issued[j].user, row) && row.active
              && Step(s, e).issued[j].authVersion == if 0 <= row.authVersion < 0x20_0000_0000_0000 then row.authVersion else 0
  {
    var ttl, events :| s == Run(Initial(ttl), events);
    RunKeepsActive(ttl, events);
    OnlyTheseSign(s, e, j);
    hide Run, Reachable, Step, SignsFor;
    assert ByActiveUser(s.requests[e.i]);
    assert SignsFor(s, e.i, Step(s, e).issued[j].user, s.requests[e.i].row);
  }

  /** Once logout deleted a token, it is answered `invalid` for ever. */
  lemma NothingAfterLogout(s: State, m: nat, n: nat)
    requires Reachable(s) && m < n < |s.log| && s.log[m].Revoked? && s.log[n].Answer? && s.log[m].jti == s.log[n].jti
    ensures s.log[n].reply == Invalid
  {
    ReachableInv(s);
    hide Reachable, Known, RequestsOk, Marks, Families, LogOk;
  }

  function ValidAnswers(log: seq<Record>): set<nat> {
    set n | 0 <= n < |log| && IsValid(log[n]) :: log[n].jti
  }

  lemma SpentAreAnswered(log: seq<Record>, spent: map<nat, nat>, revoked: set<nat>)
    requires LogOk(log, spent, revoked)
    ensures ValidAnswers(log) == spent.Keys
  {
    forall j | j in spent ensures j in ValidAnswers(log) {
      var n :| 0 <= n < |log| && log[n] == Answer(j, Valid, spent[j]);
    }
  }

  /**
   * Conservation: the number of refresh tokens ever signed is the number of logins plus the number of
   * tokens answered `valid`. Grace answers, failures and crashes mint nothing.
   */
  lemma MintedByLoginOrRotation(s: State)
    requires Reachable(s)
    ensures |s.issued| == s.logins + |ValidAnswers(s.log)|
  {
    ReachableInv(s);
    SpentAreAnswered(s.log, s.spent, s.revoked);
  }

  /** Tokens of login `f` that Redis still holds as '1'. */
  function Unconsumed(s: State, f: nat): set<nat> {
    set k | k in s.redis && s.redis[k].mark == One && k.jti in s.family && s.family[k.jti] == f :: k.jti
  }

  /** Requests that drew a token of login `f` and have not stored it yet. */
  function RotationsInFlight(s: State, f: nat): set<nat> {
    set i | 0 <= i < |s.requests| && s.requests[i].Issuing?
            && s.requests[i].token.jti in s.family && s.family[s.requests[i].token.jti] == f
  }

  lemma FlyingIsUnspent(s: State, i: nat)
    requires RequestsOk(s.requests, s.issued, s.stored) && Past(s.spent, s.stored, s.now) && At(s, i) && s.requests[i].Issuing?
    ensures var j := s.requests[i].token.jti; j in s.issued && j !in s.stored && j !in s.spent
  {
    assert RequestOk(s.issued, s.stored, s.requests[i]);
  }

  lemma UnconsumedIsUnspent(s: State, f: nat, j: nat)
    requires Known(s.redis, s.issued, s.family, s.stored, s.revoked) && Marks(s.redis, s.spent, s.revoked) && j in Unconsumed(s, f)
    ensures j in s.issued && j in s.stored && j !in s.spent
  {
  }

  /** For each login, unconsumed tokens plus rotations in flight are at most one. */
  lemma OneLiveTokenPerFamily(s: State, f: nat)
    requires Reachable(s)
    ensures |Unconsumed(s, f)| + |RotationsInFlight(s, f)| <= 1
  {
    ReachableInv(s);
    var open, flying := Unconsumed(s, f), RotationsInFlight(s, f);
    forall j, k | j in open && k in open ensures j == k {
      UnconsumedIsUnspent(s, f, j);
      UnconsumedIsUnspent(s, f, k);
    }
    forall i, k | i in flying && k in flying ensures i == k {
      FlyingIsUnspent(s, i);
      FlyingIsUnspent(s, k);
    }
    AtMostOne(open);
    AtMostOne(flying);
    if j, i :| j in open && i in flying {
      UnconsumedIsUnspent(s, f, j);
      FlyingIsUnspent(s, i);
      assert false;
    }
    if |open| == 1 {
      assert flying == {} by {
        var j :| j in open;
      }
    }
  }

  /** Unborn, '1', 'used', gone. */
  function Rank(s: State, jti: nat): nat {
    if jti !in s.stored || jti !in s.issued then 0
    else match Lookup(s.redis, Key(s.issued[jti].user, jti), s.now)
      case Some(One) => 1
      case Some(Used) => 2
      case None => 3
  }

  lemma StoreRaisesRank(s: State, i: nat, jti: nat)
    requires RequestsOk(s.requests, s.issued, s.stored) && Past(s.spent, s.stored, s.now) && At(s, i) && s.requests[i].Issuing?
    ensures Rank(s, jti) <= Rank(Step(s, Store(i)), jti)
  {
    FlyingIsUnspent(s, i);
  }

  lemma ConsumeRaisesRank(s: State, i: nat, newJti: nat, jti: nat)
    requires RequestsOk(s.requests, s.issued, s.stored) && s.stored <= s.issued.Keys
    requires At(s, i) && s.requests[i].Consuming? && newJti !in s.issued
    ensures Rank(s, jti) <= Rank(ConsumeStep(s, i, newJti), jti)
  {
    var t := s.requests[i].token;
    assert RequestOk(s.issued, s.stored, s.requests[i]);
    ScriptEffect(s.redis, KeyOf(t), s.now);
  }

  lemma DrawKeepsRank(s: State, i: nat, newJti: nat, jti: nat)
    requires s.stored <= s.issued.Keys
    ensures Rank(s, jti) == Rank(Step(s, DrawLogin(i, newJti)), jti)
  {
  }

  /** The other events add nothing to Redis. */
  lemma OtherRaisesRank(s: State, e: Event, jti: nat)
    requires !e.DrawLogin? && !e.Consume? && !e.Store?
    ensures Rank(s, jti) <= Rank(Step(s, e), jti)
  {
  }

  lemma StepRaisesRank(s: State, e: Event, jti: nat)
    requires Reachable(s)
    ensures Rank(s, jti) <= Rank(Step(s, e), jti)
  {
    ReachableInv(s);
    hide Step, Rank, Reachable;
    match e
    case Store(i) =>
      if At(s, i) && s.requests[i].Issuing? {
        StoreRaisesRank(s, i, jti);
      }
    case Consume(i, newJti) =>
      if At(s, i) && s.requests[i].Consuming? && newJti !in s.issued {
        ConsumeRaisesRank(s, i, newJti, jti);
      }
    case DrawLogin(i, newJti) =>
      DrawKeepsRank(s, i, newJti, jti);
    case _ =>
      OtherRaisesRank(s, e, jti);
  }

  /** Token state is monotone: no run moves a token back from used, or from gone. */
  lemma {:induction false} RunRaisesRank(s: State, events: seq<Event>, jti: nat)
    requires Reachable(s)
    ensures Rank(s, jti) <= Rank(Run(s, events), jti)
  {
    hide Reachable, Step, Rank;
    if events != [] {
      var before := events[..|events| - 1];
      RunRaisesRank(s, before, jti);
      RunReachable(s, before);
      StepRaisesRank(Run(s, before), events[|events| - 1], jti);
    }
  }

  /** All tokens of a login carry one user and one version, in every run. */
  lemma FamilyHasOneVersion(s: State, j: nat, k: nat)
    requires Reachable(s) && j in s.family && k in s.family && s.family[j] == s.family[k]
    ensures j in s.issued && k in s.issued
    ensures s.issued[j].user == s.issued[k].user && s.issued[j].authVersion == s.issued[k].authVersion
  {
    ReachableInv(s);
    hide Reachable, RequestsOk, Marks, LogOk, Timely;
  }

  predicate InFamily(family: map<nat, nat>, jti: nat, f: nat) {
    jti in family && family[jti] == f
  }

  /** The stored version of the user has passed the version of every token of login `f`. */
  ghost predicate Outdated(issued: Signed, family: map<nat, nat>, users: map<nat, User>, f: nat) {
    forall j | j in issued && InFamily(family, j, f) ::
      issued[j].user in users && issued[j].authVersion < users[issued[j].user].authVersion
  }

  predicate ConsumesFrom(s: State, i: nat, f: nat) {
    At(s, i) && s.requests[i].Consuming? && InFamily(s.family, s.requests[i].token.jti, f)
  }

  /** No request past its user read holds a token of login `f`. */
  predicate NoneConsumes(s: State, f: nat) {
    forall i | 0 <= i < |s.requests| :: !ConsumesFrom(s, i, f)
  }

  /** What a run may do to login `f`: nothing is signed for it and nothing is answered for it. */
  ghost predicate Frozen(s: State, d: State, f: nat) {
    && s.log <= d.log
    && (forall n | |s.log| <= n < |d.log| && d.log[n].Answer? :: !InFamily(d.family, d.log[n].jti, f))
    && (forall j | InFamily(d.family, j, f) :: InFamily(s.family, j, f))
    && (forall j | j in s.family :: j in d.family && d.family[j] == s.family[j])
  }

  /** Reading the user turns a token of an outdated login away. */
  lemma OutdatedIsRejected(s: State, t: Token, f: nat)
    requires t.jti in s.issued && s.issued[t.jti] == t && InFamily(s.family, t.jti, f)
    requires Outdated(s.issued, s.family, s.users, f)
    ensures !UserAccepts(s, t)
  {
  }

  /** Every consuming request of `d` was one of `s`, and no token of `s` changes its login. */
  ghost predicate NoNewConsumers(s: State, d: State) {
    && (forall i | 0 <= i < |d.requests| && d.requests[i].Consuming? :: i < |s.requests| && d.requests[i] == s.requests[i])
    && (forall j | j in s.family :: j in d.family && d.family[j] == s.family[j])
  }

  lemma OnlyReadsConsume(s: State, e: Event)
    requires s.family.Keys == s.issued.Keys && !e.ReadUser?
    ensures NoNewConsumers(s, Step(s, e))
  {
    hide ConsumeStep, UserAccepts, Remember, Forgotten;
    if e.Consume? && At(s, e.i) && s.requests[e.i].Consuming? && e.newJti !in s.issued {
      ConsumingEnds(s, e.i, e.newJti);
    }
  }

  lemma ConsumingEnds(s: State, i: nat, newJti: nat)
    requires s.family.Keys == s.issued.Keys && At(s, i) && s.requests[i].Consuming? && newJti !in s.issued
    ensures NoNewConsumers(s, ConsumeStep(s, i, newJti))
  {
  }

  lemma NoConsumersStay(s: State, d: State, f: nat)
    requires RequestsOk(s.requests, s.issued, s.stored) && s.family.Keys == s.issued.Keys
    requires NoneConsumes(s, f) && NoNewConsumers(s, d)
    ensures NoneConsumes(d, f)
  {
    forall i | 0 <= i < |d.requests| ensures !ConsumesFrom(d, i, f) {
      if d.requests[i].Consuming? {
        assert RequestOk(s.issued, s.stored, s.requests[i]) && !ConsumesFrom(s, i, f);
      }
    }
  }

  lemma ReadRejects(s: State, i: nat, f: nat)
    requires RequestsOk(s.requests, s.issued, s.stored) && At(s, i) && s.requests[i].Checking?
    requires Outdated(s.issued, s.family, s.users, f) && NoneConsumes(s, f)
    ensures NoneConsumes(Step(s, ReadUser(i)), f)
  {
    var d := Step(s, ReadUser(i));
    forall k | 0 <= k < |d.requests| ensures !ConsumesFrom(d, k, f) {
      assert !ConsumesFrom(s, k, f);
      if k == i && InFamily(s.family, s.requests[i].token.jti, f) {
        assert RequestOk(s.issued, s.stored, s.requests[i]);
        OutdatedIsRejected(s, s.requests[i].token, f);
      }
    }
  }

  lemma StillNoneConsumes(s: State, e: Event, f: nat)
    requires RequestsOk(s.requests, s.issued, s.stored) && s.family.Keys == s.issued.Keys
    requires Outdated(s.issued, s.family, s.users, f) && NoneConsumes(s, f)
    ensures NoneConsumes(Step(s, e), f)
  {
    hide RequestsOk, Outdated, NoneConsumes, NoNewConsumers, UserAccepts;
    if !e.ReadUser? {
      OnlyReadsConsume(s, e);
      NoConsumersStay(s, Step(s, e), f);
    } else if At(s, e.i) && s.requests[e.i].Checking? {
      ReadRejects(s, e.i, f);
    }
  }

  lemma StillOutdated(s: State, e: Event, f: nat)
    requires RequestsOk(s.requests, s.issued, s.stored) && s.family.Keys == s.issued.Keys
    requires f < s.logins && Outdated(s.issued, s.family, s.users, f) && NoneConsumes(s, f)
    ensures var d := Step(s, e); f < d.logins && Outdated(d.issued, d.family, d.users, f)
  {
    hide Step, RequestsOk, Outdated, NoneConsumes, ConsumeStep;
    if e.SetUser? {
      VersionsOnlyGrow(s, e.user, e.row, f);
    } else if e.DrawLogin? {
      LoginKeepsOutdated(s, e.i, e.newJti, f);
    } else if e.Consume? {
      ConsumeKeepsOutdated(s, e.i, e.newJti, f);
    } else if e.Store? || e.Deliver? {
      StoreKeepsSigned(s, e.i);
    } else if e.Revoke? || e.Crash? {
      RevokeKeepsSigned(s, e.i);
    } else if e.ReadUser? || e.Grant? {
      ReadKeepsSigned(s, e.i, if e.Grant? then e.newJti else 0);
    } else {
      EnvironmentKeepsSigned(s, e);
    }
  }

  /** Nothing that identifies or dates a login changed. */
  predicate SameSigned(s: State, d: State) {
    d.issued == s.issued && d.family == s.family && d.users == s.users && d.logins == s.logins
  }

  lemma StoreKeepsSigned(s: State, i: nat)
    ensures SameSigned(s, Step(s, Store(i))) && SameSigned(s, Step(s, Deliver(i)))
  {
  }

  lemma RevokeKeepsSigned(s: State, i: nat)
    ensures SameSigned(s, Step(s, Revoke(i))) && SameSigned(s, Step(s, Crash(i)))
  {
  }

  lemma ReadKeepsSigned(s: State, i: nat, newJti: nat)
    ensures SameSigned(s, Step(s, ReadUser(i))) && SameSigned(s, Step(s, Grant(i, newJti)))
  {
  }

  lemma EnvironmentKeepsSigned(s: State, e: Event)
    requires e.Tick? || e.Drop? || e.Login? || e.Present? || e.Logout?
    ensures SameSigned(s, Step(s, e))
  {
  }

  lemma VersionsOnlyGrow(s: State, user: nat, row: User, f: nat)
    requires Outdated(s.issued, s.family, s.users, f) && f < s.logins
    ensures var d := Step(s, SetUser(user, row)); f < d.logins && Outdated(d.issued, d.family, d.users, f)
  {
  }

  lemma LoginKeepsOutdated(s: State, i: nat, newJti: nat, f: nat)
    requires Outdated(s.issued, s.family, s.users, f) && f < s.logins
    ensures var d := Step(s, DrawLogin(i, newJti)); f < d.logins && Outdated(d.issued, d.family, d.users, f)
  {
    hide Outdated;
    if At(s, i) && s.requests[i].LoggingIn? && newJti !in s.issued {
      OtherFamilyDrawn(s, Sign(s, s.requests[i].user, newJti, s.requests[i].row), s.logins, f);
    }
  }

  lemma OtherFamilyDrawn(s: State, t: Token, g: nat, f: nat)
    requires Outdated(s.issued, s.family, s.users, f) && g != f && t.jti !in s.issued
    ensures Outdated(s.issued[t.jti := t], s.family[t.jti := g], s.users, f)
  {
  }

  lemma ConsumeKeepsOutdated(s: State, i: nat, newJti: nat, f: nat)
    requires RequestsOk(s.requests, s.issued, s.stored) && s.family.Keys == s.issued.Keys
    requires f < s.logins && Outdated(s.issued, s.family, s.users, f) && NoneConsumes(s, f)
    ensures var d := Step(s, Consume(i, newJti)); f < d.logins && Outdated(d.issued, d.family, d.users, f)
  {
    if At(s, i) && s.requests[i].Consuming? && newJti !in s.issued {
      var t := s.requests[i].token;
      OkAt(s.requests, s.issued, s.stored, i);
      assert !ConsumesFrom(s, i, f);
      hide Outdated, RequestsOk, NoneConsumes;
      OtherFamilyDrawn(s, Sign(s, t.user, newJti, s.requests[i].row), s.family[t.jti], f);
    }
  }

  lemma StepFreezes(s: State, e: Event, f: nat)
    requires RequestsOk(s.requests, s.issued, s.stored) && s.family.Keys == s.issued.Keys
    requires f < s.logins && NoneConsumes(s, f)
    ensures Frozen(s, Step(s, e), f)
  {
    hide ConsumeStep, UserAccepts, Remember, Forgotten, RequestsOk, NoneConsumes;
    if e.Consume? && At(s, e.i) && s.requests[e.i].Consuming? && e.newJti !in s.issued {
      ConsumeFreezes(s, e.i, e.newJti, f);
    }
  }

  lemma ConsumeFreezes(s: State, i: nat, newJti: nat, f: nat)
    requires RequestsOk(s.requests, s.issued, s.stored) && s.family.Keys == s.issued.Keys
    requires At(s, i) && s.requests[i].Consuming? && newJti !in s.issued && f < s.logins && NoneConsumes(s, f)
    ensures Frozen(s, ConsumeStep(s, i, newJti), f)
  {
    OkAt(s.requests, s.issued, s.stored, i);
    assert !ConsumesFrom(s, i, f);
  }

  /**
   * A version bump ends a login: once the user's version has passed it and the requests that read the
   * user before have run their script, no continuation signs a token for the login or answers one.
   */
  lemma {:induction false} BumpEndsFamily(s: State, events: seq<Event>, f: nat)
    requires Reachable(s) && f < s.logins && Outdated(s.issued, s.family, s.users, f) && NoneConsumes(s, f)
    ensures Frozen(s, Run(s, events), f)
    ensures var d := Run(s, events); f < d.logins && Outdated(d.issued, d.family, d.users, f) && NoneConsumes(d, f)
  {
    if events != [] {
      var before := events[..|events| - 1];
      BumpEndsFamily(s, before, f);
      RunReachable(s, before);
      ReachableInv(Run(s, before));
      StillNoneConsumes(Run(s, before), events[|events| - 1], f);
      StillOutdated(Run(s, before), events[|events| - 1], f);
      StepFreezes(Run(s, before), events[|events| - 1], f);
      FrozenTransitive(s, Run(s, before), Run(s, events), f);
    }
  }

  lemma FrozenTransitive(a: State, b: State, c: State, f: nat)
    requires Frozen(a, b, f) && Frozen(b, c, f)
    requires forall n | 0 <= n < |b.log| :: b.log[n].jti in b.family
    ensures Frozen(a, c, f)
  {
  }

  // ---------------------------------------------------------------- a rotation that dies

  /** Token `j` was signed, is neither stored nor spent, and no request is going to store it. */
  ghost predicate Orphan(requests: seq<Request>, issued: Signed, stored: set<nat>, spent: map<nat, nat>, j: nat) {
    && j in issued && j !in stored && j !in spent
    && forall i | 0 <= i < |requests| && requests[i].Issuing? :: requests[i].token.jti != j
  }

  /** Only a stored and unspent token is ever newly spent. */
  ghost predicate SpendsStored(s: State, d: State) {
    forall k | k in d.spent && k !in s.spent :: k in s.stored && k in s.issued
  }

  /** Nothing is newly signed under an old id, and nothing is about to be stored that was not. */
  ghost predicate DrawsFresh(s: State, d: State) {
    && s.issued.Keys <= d.issued.Keys
    && (forall k | k in d.stored && k !in s.stored :: Flying(s.requests, k))
    && (forall k | Flying(d.requests, k) :: Flying(s.requests, k) || k !in s.issued)
  }

  ghost predicate Flying(requests: seq<Request>, k: nat) {
    exists i | 0 <= i < |requests| :: requests[i].Issuing? && requests[i].token.jti == k
  }

  lemma ConsumeSpends(s: State, i: nat, newJti: nat)
    requires RequestsOk(s.requests, s.issued, s.stored) && At(s, i) && s.requests[i].Consuming? && newJti !in s.issued
    ensures SpendsStored(s, ConsumeStep(s, i, newJti)) && DrawsFresh(s, ConsumeStep(s, i, newJti))
  {
    OkAt(s.requests, s.issued, s.stored, i);
    hide RequestsOk, ConsumeScript, RequestOk;
    var d := ConsumeStep(s, i, newJti);
    forall k | Flying(d.requests, k) ensures Flying(s.requests, k) || k !in s.issued {
      var n :| 0 <= n < |d.requests| && d.requests[n].Issuing? && d.requests[n].token.jti == k;
      assert n != i ==> s.requests[n] == d.requests[n];
    }
  }

  lemma StepSpends(s: State, e: Event)
    requires RequestsOk(s.requests, s.issued, s.stored)
    ensures SpendsStored(s, Step(s, e))
  {
    hide DrawsFresh, ConsumeStep, UserAccepts, Remember, Forgotten;
    if e.Consume? && At(s, e.i) && s.requests[e.i].Consuming? && e.newJti !in s.issued {
      ConsumeSpends(s, e.i, e.newJti);
    }
  }

  /** Replacing or adding a request that is not about to store makes nothing fly. */
  lemma LandedAdded(requests: seq<Request>, i: nat, r: Request)
    requires !r.Issuing?
    ensures forall k | Flying(requests + [r], k) :: Flying(requests, k)
    ensures i < |requests| ==> forall k | Flying(requests[i := r], k) :: Flying(requests, k)
  {
    forall k | Flying(requests + [r], k) ensures Flying(requests, k) {
      var n :| 0 <= n < |requests + [r]| && (requests + [r])[n].Issuing? && (requests + [r])[n].token.jti == k;
      assert requests[n].token.jti == k;
    }
    if i < |requests| {
      forall k | Flying(requests[i := r], k) ensures Flying(requests, k) {
        var n :| 0 <= n < |requests| && requests[i := r][n].Issuing? && requests[i := r][n].token.jti == k;
        assert requests[n].token.jti == k;
      }
    }
  }

  lemma DrawFlies(s: State, i: nat, newJti: nat)
    ensures DrawsFresh(s, Step(s, DrawLogin(i, newJti)))
  {
    var d := Step(s, DrawLogin(i, newJti));
    forall k | Flying(d.requests, k) ensures Flying(s.requests, k) || k !in s.issued {
      var n :| 0 <= n < |d.requests| && d.requests[n].Issuing? && d.requests[n].token.jti == k;
      assert n != i ==> s.requests[n] == d.requests[n];
    }
  }

  lemma StoreLands(s: State, i: nat)
    ensures DrawsFresh(s, Step(s, Store(i)))
  {
    if At(s, i) && s.requests[i].Issuing? {
      assert Flying(s.requests, s.requests[i].token.jti);
      LandedAdded(s.requests, i, Responding(s.requests[i].token));
    }
  }

  lemma AddingLands(s: State, e: Event)
    requires e.Tick? || e.Drop? || e.SetUser? || e.Login? || e.Present? || e.Logout?
    ensures DrawsFresh(s, Step(s, e))
  {
    var d := Step(s, e);
    assert d.stored == s.stored && d.issued == s.issued;
    if d.requests != s.requests {
      assert d.requests == s.requests + [d.requests[|s.requests|]] && !d.requests[|s.requests|].Issuing?;
      LandedAdded(s.requests, 0, d.requests[|s.requests|]);
    }
  }

  lemma MovingLands(s: State, e: Event)
    requires e.ReadUser? || e.Deliver? || e.Grant? || e.Revoke? || e.Crash?
    ensures DrawsFresh(s, Step(s, e))
  {
    var d := Step(s, e);
    assert d.stored == s.stored && d.issued == s.issued;
    if d.requests != s.requests {
      assert d.requests == s.requests[e.i := d.requests[e.i]] && !d.requests[e.i].Issuing?;
      LandedAdded(s.requests, e.i, d.requests[e.i]);
    }
  }

  lemma StepDrawsFresh(s: State, e: Event)
    requires RequestsOk(s.requests, s.issued, s.stored)
    ensures DrawsFresh(s, Step(s, e))
  {
    hide DrawsFresh, ConsumeStep, RequestsOk;
    match e
    case Consume(i, newJti) =>
      if At(s, i) && s.requests[i].Consuming? && newJti !in s.issued {
        ConsumeSpends(s, i, newJti);
      } else {
        NothingDrawn(s);
      }
    case DrawLogin(i, newJti) => DrawFlies(s, i, newJti);
    case Store(i) => StoreLands(s, i);
    case _ =>
      if e.ReadUser? || e.Deliver? || e.Grant? || e.Revoke? || e.Crash? {
        MovingLands(s, e);
      } else {
        AddingLands(s, e);
      }
  }

  lemma NothingDrawn(s: State)
    ensures DrawsFresh(s, s)
  {
  }

  lemma OrphanStays(s: State, e: Event, j: nat)
    requires Reachable(s) && Orphan(s.requests, s.issued, s.stored, s.spent, j)
    ensures var d := Step(s, e); Orphan(d.requests, d.issued, d.stored, d.spent, j)
  {
    ReachableInv(s);
    StepSpends(s, e);
    StepDrawsFresh(s, e);
    hide Reachable, Step, Inv, RequestsOk;
    assert !Flying(s.requests, j);
    assert !Flying(Step(s, e).requests, j);
  }

  /** With an orphan in the login, nothing of it is or becomes consumable. */
  lemma OrphanBlocks(s: State, e: Event, j: nat)
    requires Reachable(s) && Orphan(s.requests, s.issued, s.stored, s.spent, j) && j in s.family
    ensures Unconsumed(s, s.family[j]) == {}
    ensures forall k | k in Step(s, e).spent && InFamily(s.family, k, s.family[j]) :: k in s.spent
  {
    ReachableInv(s);
    StepSpends(s, e);
    forall k | k in s.stored && k in s.issued && InFamily(s.family, k, s.family[j]) ensures k in s.spent {
      assert k !in s.spent ==> k == j;
    }
    hide Step, Reachable;
    forall k | k in Unconsumed(s, s.family[j]) ensures false {
      UnconsumedIsUnspent(s, s.family[j], k);
    }
  }

  lemma FamilyStays(s: State, e: Event, j: nat)
    requires s.family.Keys == s.issued.Keys && j in s.family
    ensures j in Step(s, e).family && Step(s, e).family[j] == s.family[j]
  {
  }

  /**
   * A refresh that dies after the old token was consumed and before the new one is stored ends its login:
   * in no continuation does the login hold an unconsumed token, and no token of it is answered `valid` again.
   */
  lemma {:induction false} LostRotationEndsLogin(s: State, i: nat, events: seq<Event>)
    requires Reachable(s) && At(s, i) && s.requests[i].Issuing?
    ensures var (j, d) := (s.requests[i].token.jti, Run(Step(s, Crash(i)), events));
            && j in s.family && Orphan(d.requests, d.issued, d.stored, d.spent, j)
            && j in d.family && d.family[j] == s.family[j]
            && Unconsumed(d, s.family[j]) == {}
            && forall k | k in ValidAnswers(d.log) && InFamily(d.family, k, s.family[j]) :: k in ValidAnswers(s.log)
    decreases events
  {
    var j, dead := s.requests[i].token.jti, Step(s, Crash(i));
    ReachableInv(s);
    FlyingIsUnspent(s, i);
    assert Orphan(dead.requests, dead.issued, dead.stored, dead.spent, j);
    StepReachable(s, Crash(i));
    assert dead.spent == s.spent && dead.log == s.log && dead.family == s.family;
    OrphanRun(dead, events, j);
    var d := Run(dead, events);
    RunReachable(dead, events);
    ReachableInv(d);
    hide Run, Step, Reachable;
    SpentAreAnswered(s.log, s.spent, s.revoked);
    SpentAreAnswered(d.log, d.spent, d.revoked);
  }

  lemma {:induction false} OrphanRun(s: State, events: seq<Event>, j: nat)
    requires Reachable(s) && Orphan(s.requests, s.issued, s.stored, s.spent, j) && j in s.family
    ensures var d := Run(s, events);
            && Orphan(d.requests, d.issued, d.stored, d.spent, j)
            && j in d.family && d.family[j] == s.family[j] && Unconsumed(d, s.family[j]) == {}
            && forall k | k in d.spent && InFamily(d.family, k, s.family[j]) :: k in s.spent
    decreases events
  {
    if events == [] {
      OrphanBlocks(s, Tick(0), j);
    } else {
      var before, e := events[..|events| - 1], events[|events| - 1];
      var b := Run(s, before);
      OrphanRun(s, before, j);
      RunReachable(s, before);
      OrphanBlocks(b, e, j);
      OrphanStays(b, e, j);
      StepReachable(b, e);
      ReachableInv(b);
      FamilyStays(b, e, j);
      OrphanBlocks(Step(b, e), Tick(0), j);
      StepSpends(b, e);
      hide Step, Run, Reachable, Orphan, RequestsOk, Marks, LogOk, Timely;
      forall k | k in Step(b, e).spent && InFamily(Step(b, e).family, k, s.family[j]) ensures k in s.spent {
        FamilyStays(b, e, k);
      }
    }
  }
}
