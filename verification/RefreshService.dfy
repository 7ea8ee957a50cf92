/** The sequential service the refresh protocol refines, and the access tokens both hand out. */
module RefreshService {
  import opened Prelude
  import opened TokenStore
  import opened RefreshProtocol
  import opened RefreshGuarantees
  import Recovery = RefreshRecovery

  // ---------------------------------------------------------------- one request alone

  datatype Response =
    | Rotated(token: Token, access: Access)
    | AccessOnly(access: Access)
    | UserDisabled
    | InvalidRefreshToken

  /** How long refresh and access tokens live. */
  datatype Lifetimes = Lifetimes(refresh: nat, access: nat)

  /** The access token signed for a user: with the id of the new refresh token, or under grace with one of its own. */
  function SignAccess(user: nat, newJti: nat, row: User, now: nat, ttl: nat): Access {
    Access(user, newJti, NormalizeAuthVersion(row.authVersion), Some(now + ttl))
  }

  /** `refreshToken` on a token we signed, from the check of its expiry to the answer, with nothing in between. */
  function RefreshOutcome(keys: Keys, users: map<nat, User>, t: Token, now: nat, newJti: nat, ttl: Lifetimes): (Keys, Response) {
    if t.exp <= now then (keys, InvalidRefreshToken)
    else if t.user !in users || !users[t.user].active then (keys, UserDisabled)
    else if !SafeInteger(t.authVersion) || t.authVersion != users[t.user].authVersion then (keys, InvalidRefreshToken)
    else
      var (after, reply) := ConsumeScript(keys, KeyOf(t), now);
      var access := SignAccess(t.user, newJti, users[t.user], now, ttl.access);
      match reply
      case Invalid => (after, InvalidRefreshToken)
      case Grace => (after, AccessOnly(access))
      case Valid =>
        (Remember(after, Key(t.user, newJti), now, ttl.refresh),
         Rotated(Token(t.user, newJti, access.authVersion, now, now + ttl.refresh), access))
  }

  /** The user is active with the version in the token, a whole number both numbers can hold. */
  predicate Undated(users: map<nat, User>, t: Token) {
    && t.user in users && users[t.user] == User(true, t.authVersion)
    && -0x20_0000_0000_0000 < t.authVersion < 0x20_0000_0000_0000
  }

  /** The token's key is in Redis with this mark and has not expired. */
  predicate Marked(keys: Keys, t: Token, mark: Mark, now: nat) {
    var key := Key(t.user, t.jti);
    key in keys && keys[key].mark == mark && now < keys[key].expires
  }

  /**
   * Which answer a refresh gets: user disabled exactly if the token is in date but the user is gone or not active; a new
   * pair exactly for an undated token marked '1'; an access token alone exactly for one marked 'used'; and else the
   * token is refused. Only a new pair changes keys: the old one is 'used' for ten seconds, the new one stored.
   */
  lemma AnswersExactly(keys: Keys, users: map<nat, User>, t: Token, now: nat, newJti: nat, ttl: Lifetimes)
    ensures var (after, r) := RefreshOutcome(keys, users, t, now, newJti, ttl);
            && (r == UserDisabled <==> now < t.exp && (t.user in users ==> !users[t.user].active))
            && (r.Rotated? <==> now < t.exp && Undated(users, t) && Marked(keys, t, One, now))
            && (r.AccessOnly? <==> now < t.exp && Undated(users, t) && Marked(keys, t, Used, now))
            && (r.Rotated? || r.AccessOnly? ==>
                  r.access == Access(t.user, newJti, if t.authVersion < 0 then 0 else t.authVersion, Some(now + ttl.access)))
            && (r.Rotated? ==>
                  && r.token == Token(t.user, newJti, r.access.authVersion, now, now + ttl.refresh)
                  && after == keys[Key(t.user, t.jti) := Entry(Used, now + 10)][Key(t.user, newJti) := Entry(One, now + ttl.refresh)])
            && (!r.Rotated? ==> after == keys)
  {
  }

  class AuthService {
    const tokens: TokenService
    var users: map<nat, User>

    constructor (tokens: TokenService, users: map<nat, User>)
      ensures this.tokens == tokens && this.users == users
    {
      this.tokens := tokens;
      this.users := users;
    }

    method RefreshToken(t: Token, now: nat, newJti: nat) returns (r: Response)
      modifies tokens`keys
      ensures (tokens.keys, r) ==
              RefreshOutcome(old(tokens.keys), users, t, now, newJti, Lifetimes(tokens.refreshTtl, tokens.accessTtl))
    {
      if t.exp <= now {
        return InvalidRefreshToken;
      }
      if t.user !in users || !users[t.user].active {
        return UserDisabled;
      }
      var user := users[t.user];
      if !SafeInteger(t.authVersion) || t.authVersion != user.authVersion {
        return InvalidRefreshToken;
      }
      var validity := tokens.ConsumeRefreshToken(t.user, t.jti, now);
      if validity == Invalid {
        return InvalidRefreshToken;
      }
      var access := SignAccess(t.user, newJti, user, now, tokens.accessTtl);
      if validity == Grace {
        return AccessOnly(access);
      }
      tokens.StoreRefreshToken(t.user, newJti, now);
      return Rotated(Token(t.user, newJti, access.authVersion, now, now + tokens.refreshTtl), access);
    }

    /** Blacklists the access token, and deletes the refresh token if one was sent and still verifies. */
    method Logout(access: Access, refresh: Option<Token>, now: nat, writeOk: bool)
      modifies tokens`keys, tokens`blacklist
      ensures tokens.blacklist == if writeOk then AfterBlacklist(old(tokens.blacklist), access, now, tokens.accessTtl) else old(tokens.blacklist)
      ensures tokens.keys == if refresh.Some? && now < refresh.value.exp then Forgotten(old(tokens.keys), KeyOf(refresh.value)) else old(tokens.keys)
    {
      tokens.BlacklistAccessToken(access, now, writeOk);
      if refresh.Some? && now < refresh.value.exp {
        tokens.DeleteRefreshToken(refresh.value.user, refresh.value.jti);
      }
    }
  }

  // ---------------------------------------------------------------- the protocol without interruption

  /** The steps of one refresh; those that do not apply leave the state alone. */
  function RefreshSteps(n: nat, jti: nat, newJti: nat): seq<Event> {
    [Present(jti), ReadUser(n), Consume(n, newJti)] + [Store(n), Deliver(n), Grant(n, newJti)]
  }

  function AccessOf(p: Pass, ttl: nat): Access {
    Access(p.user, p.jti, p.authVersion, Some(p.iat + ttl))
  }

  /** One more access token was handed out, and it is this one. */
  predicate HandedOut(s: State, d: State, access: Access, ttl: nat) {
    |d.passes| == |s.passes| + 1 && s.passes <= d.passes && AccessOf(d.passes[|s.passes|], ttl) == access
  }

  /** What an uninterrupted refresh leaves behind, against what the method answers. */
  ghost predicate Refines(s: State, d: State, jti: nat, newJti: nat, accessTtl: nat)
    requires jti in s.issued
  {
    var (keys, response) := RefreshOutcome(s.redis, s.users, s.issued[jti], s.now, newJti, Lifetimes(s.ttl, accessTtl));
    d.redis == keys &&
    match response
    case Rotated(token, access) =>
      newJti in d.delivered && newJti in d.issued && d.issued[newJti] == token && HandedOut(s, d, access, accessTtl)
    case AccessOnly(access) =>
      && d.log == s.log + [Answer(jti, Grace, s.now)] && d.issued == s.issued && d.delivered == s.delivered
      && HandedOut(s, d, access, accessTtl)
    case UserDisabled => d.log == s.log && d.issued == s.issued && d.delivered == s.delivered && d.passes == s.passes
    case InvalidRefreshToken => d.issued == s.issued && d.delivered == s.delivered && d.passes == s.passes
  }

  lemma RunThree(s: State, a: Event, b: Event, c: Event)
    ensures Run(s, [a, b, c]) == Step(Step(Step(s, a), b), c)
  {
    hide Step;
    assert [a, b, c][..2] == [a, b] && [a, b][..1] == [a] && [a][..0] == [];
    assert Run(s, [a]) == Step(s, a);
    assert Run(s, [a, b]) == Step(Step(s, a), b);
  }

  lemma {:induction false} RunConcat(s: State, a: seq<Event>, b: seq<Event>)
    ensures Run(s, a + b) == Run(Run(s, a), b)
    decreases b
  {
    if b == [] {
      assert a + b == a;
    } else {
      assert a + b == (a + b[..|b| - 1]) + [b[|b| - 1]];
      hide Step;
      RunSnoc(s, a + b[..|b| - 1], b[|b| - 1]);
      RunConcat(s, a, b[..|b| - 1]);
    }
  }

  lemma FirstTwoSteps(s: State, jti: nat)
    requires Presentable(s, jti)
    ensures var (n, t) := (|s.requests|, s.issued[jti]);
            Step(Step(s, Present(jti)), ReadUser(n)) ==
            s.(requests := s.requests + [if UserAccepts(s, t) then Consuming(t, s.users[t.user]) else Closed])
  {
  }

  function LastSteps(s: State, n: nat, newJti: nat): State {
    Step(Step(Step(s, Store(n)), Deliver(n)), Grant(n, newJti))
  }

  lemma LastStepsIdle(s: State, n: nat, newJti: nat)
    requires At(s, n) && s.requests[n].Closed?
    ensures LastSteps(s, n, newJti) == s
  {
  }

  lemma LastStepsGrant(s: State, n: nat, newJti: nat)
    requires At(s, n) && s.requests[n].Granting?
    ensures LastSteps(s, n, newJti) == Step(s, Grant(n, newJti))
  {
  }

  lemma LastStepsStore(s: State, n: nat, newJti: nat)
    requires At(s, n) && s.requests[n].Issuing?
    ensures var (d, t) := (LastSteps(s, n, newJti), s.requests[n].token);
            && d.redis == Remember(s.redis, KeyOf(t), s.now, s.ttl) && d.delivered == s.delivered + {t.jti}
            && d.issued == s.issued && d.log == s.log
            && d.passes == s.passes + [Pass(t.user, t.jti, t.authVersion, t.iat, t.jti)]
  {
  }

  /** After the script, the last steps leave what the method leaves. */
  lemma ConsumedOutcome(s: State, read: State, jti: nat, newJti: nat, accessTtl: nat)
    requires Presentable(s, jti) && newJti !in s.issued && newJti !in s.delivered
    requires s.issued[jti].jti == jti && jti in s.family && UserAccepts(s, s.issued[jti])
    requires var t := s.issued[jti]; read == s.(requests := s.requests + [Consuming(t, s.users[t.user])])
    ensures var n := |s.requests|; Refines(s, LastSteps(ConsumeStep(read, n, newJti), n, newJti), jti, newJti, accessTtl)
  {
    var n, t := |s.requests|, s.issued[jti];
    var consumed := ConsumeStep(read, n, newJti);
    hide LastSteps;
    match ConsumeScript(s.redis, KeyOf(t), s.now).1
    case Valid =>
      LastStepsStore(consumed, n, newJti);
    case Grace =>
      LastStepsGrant(consumed, n, newJti);
    case Invalid =>
      LastStepsIdle(consumed, n, newJti);
  }

  lemma RefreshAloneOutcome(s: State, jti: nat, newJti: nat, accessTtl: nat)
    requires Presentable(s, jti) && newJti !in s.issued && newJti !in s.delivered
    requires s.issued[jti].jti == jti && jti in s.family
    ensures var n := |s.requests|;
            var d := LastSteps(Step(Step(Step(s, Present(jti)), ReadUser(n)), Consume(n, newJti)), n, newJti);
            Refines(s, d, jti, newJti, accessTtl)
  {
    var n, t := |s.requests|, s.issued[jti];
    FirstTwoSteps(s, jti);
    var read := Step(Step(s, Present(jti)), ReadUser(n));
    if !UserAccepts(s, t) {
      assert Step(read, Consume(n, newJti)) == read && read.requests[n] == Closed;
      hide LastSteps, Step;
      LastStepsIdle(read, n, newJti);
    } else {
      assert Step(read, Consume(n, newJti)) == ConsumeStep(read, n, newJti);
      hide LastSteps, Step, ConsumeStep, Refines;
      ConsumedOutcome(s, read, jti, newJti, accessTtl);
    }
  }

  /**
   * The protocol refines the sequential method: a refresh that is not interrupted leaves the Redis keys the method
   * leaves, and hands the client exactly the refresh token and the access token the method answers with.
   */
  lemma UninterruptedRefresh(s: State, jti: nat, newJti: nat, accessTtl: nat)
    requires Reachable(s) && Presentable(s, jti) && newJti !in s.issued
    ensures Refines(s, Run(s, RefreshSteps(|s.requests|, jti, newJti)), jti, newJti, accessTtl)
  {
    var n := |s.requests|;
    ReachableInv(s);
    assert s.issued[jti].jti == jti && jti in s.family && s.delivered <= s.issued.Keys;
    hide Step, Run, Refines, Reachable, Inv;
    RunConcat(s, [Present(jti), ReadUser(n), Consume(n, newJti)], [Store(n), Deliver(n), Grant(n, newJti)]);
    RunThree(s, Present(jti), ReadUser(n), Consume(n, newJti));
    RunThree(Run(s, [Present(jti), ReadUser(n), Consume(n, newJti)]), Store(n), Deliver(n), Grant(n, newJti));
    RefreshAloneOutcome(s, jti, newJti, accessTtl);
  }

  lemma PresentedToken(s: State, jti: nat)
    requires Reachable(s) && Presentable(s, jti)
    ensures s.issued[jti].jti == jti && 0 <= s.issued[jti].authVersion < 0x20_0000_0000_0000 && s.delivered <= s.issued.Keys
  {
    ReachableInv(s);
  }

  /**
   * A refresh that went from `s` to `d` handed out a new refresh token exactly if the user is active with the token's
   * version and Redis held a live '1' for it, and an access token exactly if Redis held a live key for it at all.
   */
  ghost predicate RefreshedAs(s: State, d: State, jti: nat, newJti: nat)
    requires jti in s.issued
  {
    var t := s.issued[jti];
    var admitted := t.user in s.users && s.users[t.user] == User(true, t.authVersion);
    && (newJti in d.delivered <==> admitted && Marked(s.redis, t, One, s.now))
    && (newJti in d.delivered ==>
          d.redis == s.redis[Key(t.user, jti) := Entry(Used, s.now + 10)][Key(t.user, newJti) := Entry(One, s.now + s.ttl)])
    && (newJti !in d.delivered ==> d.redis == s.redis)
    && (d.passes != s.passes <==> admitted && (Marked(s.redis, t, One, s.now) || Marked(s.redis, t, Used, s.now)))
  }

  lemma RefinedAnswer(s: State, d: State, jti: nat, newJti: nat)
    requires Presentable(s, jti) && newJti !in s.delivered && Refines(s, d, jti, newJti, 0)
    requires s.issued[jti].jti == jti && 0 <= s.issued[jti].authVersion < 0x20_0000_0000_0000
    ensures RefreshedAs(s, d, jti, newJti)
  {
    AnswersExactly(s.redis, s.users, s.issued[jti], s.now, newJti, Lifetimes(s.ttl, 0));
    hide RefreshOutcome, Marked;
  }

  /** In every reachable state an uninterrupted refresh does so. */
  lemma RefreshedExactly(s: State, jti: nat, newJti: nat)
    requires Reachable(s) && Presentable(s, jti) && newJti !in s.issued
    ensures RefreshedAs(s, Run(s, RefreshSteps(|s.requests|, jti, newJti)), jti, newJti)
  {
    PresentedToken(s, jti);
    UninterruptedRefresh(s, jti, newJti, 0);
    hide Run, Refines, RefreshedAs, Reachable;
    RefinedAnswer(s, Run(s, RefreshSteps(|s.requests|, jti, newJti)), jti, newJti);
  }

  lemma {:induction false} LogOnlyGrows(s: State, events: seq<Event>)
    ensures s.log <= Run(s, events).log
  {
    if events != [] {
      LogOnlyGrows(s, events[..|events| - 1]);
      Recovery.LogGrows(Run(s, events[..|events| - 1]), events[|events| - 1]);
    }
  }

  lemma LogoutAlone(s: State, jti: nat)
    requires Presentable(s, jti) && s.issued[jti].jti == jti
    ensures var d := Run(s, [Logout(jti), Revoke(|s.requests|)]);
            d.redis == s.redis - {Key(s.issued[jti].user, jti)} && d.log == s.log + [Revoked(jti)]
  {
    var n := |s.requests|;
    assert [Logout(jti), Revoke(n)][..1] == [Logout(jti)] && [Logout(jti)][..0] == [];
    assert Run(s, [Logout(jti)]) == Step(s, Logout(jti));
  }

  /**
   * An uninterrupted logout leaves the keys the method leaves, and from then on the token is refused in every
   * continuation, whatever refreshes of it were under way.
   */
  lemma UninterruptedLogout(s: State, jti: nat, events: seq<Event>, n: nat)
    requires Reachable(s) && Presentable(s, jti)
    ensures var d := Run(s, [Logout(jti), Revoke(|s.requests|)]);
            && d.redis == s.redis - {Key(s.issued[jti].user, jti)}
            && (|d.log| <= n < |Run(d, events).log| && Run(d, events).log[n].Answer? && Run(d, events).log[n].jti == jti ==>
                  Run(d, events).log[n].reply == Invalid)
  {
    PresentedToken(s, jti);
    LogoutAlone(s, jti);
    var d := Run(s, [Logout(jti), Revoke(|s.requests|)]);
    hide Run, Reachable;
    RunReachable(s, [Logout(jti), Revoke(|s.requests|)]);
    RunReachable(d, events);
    LogOnlyGrows(d, events);
    var log := Run(d, events).log;
    assert log[|d.log| - 1] == d.log[|d.log| - 1] == Revoked(jti);
    if |d.log| <= n < |log| && log[n].Answer? && log[n].jti == jti {
      NothingAfterLogout(Run(d, events), |d.log| - 1, n);
    }
  }

  // ---------------------------------------------------------------- access tokens follow their login

  /** The access token carries the user and the version of the refresh token it came from. */
  predicate PassOk(issued: Signed, p: Pass) {
    p.source in issued && issued[p.source].user == p.user && issued[p.source].authVersion == p.authVersion
  }

  ghost predicate PassesOk(s: State) {
    forall n | 0 <= n < |s.passes| :: PassOk(s.issued, s.passes[n])
  }

  lemma SignedStaysSigned(s: State, e: Event, j: nat)
    requires j in s.issued
    ensures j in Step(s, e).issued && Step(s, e).issued[j] == s.issued[j]
  {
  }

  lemma DeliveredPassIsOk(s: State, i: nat)
    requires Inv(s) && At(s, i) && s.requests[i].Responding?
    ensures var t := s.requests[i].token; PassOk(s.issued, Pass(t.user, t.jti, t.authVersion, t.iat, t.jti))
  {
    InvOkAt(s, i);
  }

  lemma GrantedPassIsOk(s: State, i: nat, newJti: nat)
    requires Inv(s) && At(s, i) && s.requests[i].Granting?
    ensures var (t, row) := (s.requests[i].token, s.requests[i].row);
            PassOk(s.issued, Pass(t.user, newJti, NormalizeAuthVersion(row.authVersion), s.now, t.jti))
  {
    InvOkAt(s, i);
    assert forall j | j in s.issued :: 0 <= s.issued[j].authVersion <= MAX_SAFE;
  }

  lemma NewPassIsOk(s: State, e: Event)
    requires Inv(s) && |Step(s, e).passes| > |s.passes|
    ensures var d := Step(s, e); |d.passes| == |s.passes| + 1 && PassOk(d.issued, d.passes[|s.passes|])
  {
    hide Inv, ConsumeScript, UserAccepts;
    if e.Deliver? {
      DeliveredPassIsOk(s, e.i);
    } else {
      GrantedPassIsOk(s, e.i, e.newJti);
    }
  }

  lemma PassesGrow(s: State, e: Event)
    ensures s.passes <= Step(s, e).passes && |Step(s, e).passes| <= |s.passes| + 1
  {
  }

  lemma StepKeepsPasses(s: State, e: Event)
    requires Inv(s) && PassesOk(s)
    ensures PassesOk(Step(s, e))
  {
    hide Step, Inv;
    var d := Step(s, e);
    PassesGrow(s, e);
    if |d.passes| > |s.passes| {
      NewPassIsOk(s, e);
    }
    forall n | 0 <= n < |s.passes| ensures PassOk(d.issued, d.passes[n]) {
      assert PassOk(s.issued, s.passes[n]) && d.passes[n] == s.passes[n];
      SignedStaysSigned(s, e, s.passes[n].source);
    }
  }

  lemma {:induction false} PassesOkAfter(ttl: nat, events: seq<Event>)
    ensures PassesOk(Run(Initial(ttl), events))
  {
    if events != [] {
      var before := events[..|events| - 1];
      PassesOkAfter(ttl, before);
      RunKeepsInv(Initial(ttl), before);
      hide Step, Inv, PassesOk;
      StepKeepsPasses(Run(Initial(ttl), before), events[|events| - 1]);
    }
  }

  lemma ReachablePasses(s: State)
    requires Reachable(s)
    ensures PassesOk(s)
  {
    var ttl, events :| s == Run(Initial(ttl), events);
    PassesOkAfter(ttl, events);
  }

  /**
   * An access token, however it was handed out and whenever it is shown, passes the request guard only while the
   * version of its login is current: once the user's version has passed a login, the guard refuses every access
   * token ever handed out for it, whatever the blacklist and the clock say.
   */
  lemma OutdatedAccessIsRefused(s: State, f: nat, p: Pass, accessTtl: nat)
    requires Reachable(s) && p in s.passes && InFamily(s.family, p.source, f)
    requires Outdated(s.issued, s.family, s.users, f)
    ensures forall blacklist, now :: !Accepted(s.users, blacklist, AccessOf(p, accessTtl), now)
  {
    ReachablePasses(s);
    var n :| 0 <= n < |s.passes| && s.passes[n] == p;
    assert PassOk(s.issued, p);
  }

  /**
   * Refreshing and using go together: while some refresh token of a login passes the user checks of a refresh, its
   * access tokens pass the guard exactly while they are live and not blacklisted.
   */
  lemma AccessAcceptedExactly(s: State, j: nat, p: Pass, accessTtl: nat, blacklist: map<nat, nat>, now: nat)
    requires Reachable(s) && p in s.passes && j in s.issued && j in s.family && InFamily(s.family, p.source, s.family[j])
    requires UserAccepts(s, s.issued[j])
    ensures Accepted(s.users, blacklist, AccessOf(p, accessTtl), now) <==>
            now < p.iat + accessTtl && !Blacklisted(blacklist, p.jti, now)
  {
    ReachablePasses(s);
    ReachableInv(s);
    var n :| 0 <= n < |s.passes| && s.passes[n] == p;
    assert PassOk(s.issued, p);
    FamilyHasOneVersion(s, j, p.source);
  }
}
