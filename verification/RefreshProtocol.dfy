/**
 * Login, refresh and logout as steps of concurrent requests. A step runs from one `await` to the next;
 * between two steps of a request any other request may step, time may pass, Redis may drop keys, users
 * may change, and a request may die with its process.
 */
module RefreshProtocol {
  import opened TokenStore

  /** The payload of a signed refresh token, with the time it was signed. */
  datatype Token = Token(user: nat, jti: nat, authVersion: int, iat: nat, exp: nat)

  /** Where a request stands: what it knows, and what it is about to do next. */
  datatype Request =
    | LoggingIn(user: nat, row: User)     // password accepted; about to draw a jti
    | Checking(token: Token)              // signature verified; about to read the user
    | Consuming(token: Token, row: User)  // user accepted; about to run the script
    | Granting(token: Token, row: User)   // answered `grace`; about to sign and return an access token
    | Issuing(token: Token)               // jti drawn and signed; about to SET it
    | Responding(token: Token)            // SET done; the response is on its way
    | Revoking(token: Token)              // logout; about to DEL
    | Closed

  datatype Record = Answer(jti: nat, reply: Reply, at: nat) | Revoked(jti: nat)

  /** An access token that reached a client, with the refresh token it came with or was granted for. */
  datatype Pass = Pass(user: nat, jti: nat, authVersion: int, iat: nat, source: nat)

  /** Redis, users and requests, with the history the properties speak of. */
  datatype State = State(
    now: nat,
    ttl: nat,
    redis: Keys,
    users: map<nat, User>,
    requests: seq<Request>,
    issued: map<nat, Token>,   // every token ever signed, by jti
    family: map<nat, nat>,     // the number of the login a token descends from, by jti
    logins: nat,               // how many logins have drawn a jti
    stored: set<nat>,          // jtis whose SET was executed
    delivered: set<nat>,       // jtis whose response reached a client
    spent: map<nat, nat>,      // when a jti was answered `valid`
    revoked: set<nat>,
    log: seq<Record>,
    passes: seq<Pass>)         // every access token that reached a client

  datatype Event =
    | Tick(seconds: nat)
    | Drop(key: Key)                  // expiry, eviction or restart
    | SetUser(user: nat, row: User)   // the version of a user never decreases
    | Login(user: nat)
    | DrawLogin(i: nat, newJti: nat)
    | Present(jti: nat)               // a client sends a refresh token it was given
    | ReadUser(i: nat)
    | Consume(i: nat, newJti: nat)
    | Store(i: nat)
    | Deliver(i: nat)
    | Grant(i: nat, newJti: nat)
    | Logout(jti: nat)
    | Revoke(i: nat)
    | Crash(i: nat)

  function Initial(ttl: nat): State {
    State(0, ttl, map[], map[], [], map[], map[], 0, {}, {}, map[], {}, [], [])
  }

  function KeyOf(t: Token): Key {
    Key(t.user, t.jti)
  }

  function Put(s: State, i: nat, r: Request): State
    requires i < |s.requests|
  {
    s.(requests := s.requests[i := r])
  }

  predicate At(s: State, i: nat) {
    i < |s.requests|
  }

  /** `generateTokens` up to its SET: a fresh id, the normalised version, and an expiry. */
  function Sign(s: State, user: nat, newJti: nat, row: User): Token {
    Token(user, newJti, NormalizeAuthVersion(row.authVersion), s.now, s.now + s.ttl)
  }

  function Draw(s: State, i: nat, t: Token, family: nat): State
    requires At(s, i)
  {
    Put(s, i, Issuing(t)).(issued := s.issued[t.jti := t], family := s.family[t.jti := family])
  }

  /** The user checks of `refreshToken`, on the row just read. */
  predicate UserAccepts(s: State, t: Token) {
    && t.user in s.users && s.users[t.user].active
    && SafeInteger(t.authVersion) && t.authVersion == s.users[t.user].authVersion
  }

  function ConsumeStep(s: State, i: nat, newJti: nat): State
    requires At(s, i) && s.requests[i].Consuming?
  {
    var t := s.requests[i].token;
    var (redis, reply) := ConsumeScript(s.redis, KeyOf(t), s.now);
    var answered := s.(redis := redis, log := s.log + [Answer(t.jti, reply, s.now)]);
    match reply
    case Invalid => Put(answered, i, Closed)
    case Grace => Put(answered, i, Granting(t, s.requests[i].row))
    case Valid =>
      var family := if t.jti in s.family then s.family[t.jti] else s.logins;
      Draw(answered.(spent := s.spent[t.jti := s.now]), i, Sign(s, t.user, newJti, s.requests[i].row), family)
  }

  /** A sent refresh token passes `verifyRefreshToken`: it is one we signed, and not past its expiry. */
  predicate Presentable(s: State, jti: nat) {
    jti in s.delivered && jti in s.issued && s.now < s.issued[jti].exp
  }

  function Step(s: State, e: Event): State {
    match e
    case Tick(seconds) => s.(now := s.now + seconds)
    case Drop(key) => s.(redis := Forgotten(s.redis, key))
    case SetUser(user, row) =>
      if user in s.users && row.authVersion < s.users[user].authVersion then s
      else s.(users := s.users[user := row])
    case Login(user) =>
      if user in s.users && s.users[user].active
      then s.(requests := s.requests + [LoggingIn(user, s.users[user])]) else s
    case DrawLogin(i, newJti) =>
      if At(s, i) && s.requests[i].LoggingIn? && newJti !in s.issued
      then Draw(s, i, Sign(s, s.requests[i].user, newJti, s.requests[i].row), s.logins).(logins := s.logins + 1)
      else s
    case Present(jti) =>
      if Presentable(s, jti) then s.(requests := s.requests + [Checking(s.issued[jti])]) else s
    case ReadUser(i) =>
      if At(s, i) && s.requests[i].Checking? then
        var t := s.requests[i].token;
        Put(s, i, if UserAccepts(s, t) then Consuming(t, s.users[t.user]) else Closed)
      else s
    case Consume(i, newJti) =>
      if At(s, i) && s.requests[i].Consuming? && newJti !in s.issued then ConsumeStep(s, i, newJti) else s
    case Store(i) =>
      if At(s, i) && s.requests[i].Issuing? then
        var t := s.requests[i].token;
        Put(s, i, Responding(t)).(
          redis := Remember(s.redis, KeyOf(t), s.now, s.ttl), stored := s.stored + {t.jti})
      else s
    case Deliver(i) =>
      if At(s, i) && s.requests[i].Responding?
      then
        var t := s.requests[i].token;
        Put(s, i, Closed).(
          delivered := s.delivered + {t.jti},
          passes := s.passes + [Pass(t.user, t.jti, t.authVersion, t.iat, t.jti)])
      else s
    case Grant(i, newJti) =>
      if At(s, i) && s.requests[i].Granting? then
        var t := s.requests[i].token;
        Put(s, i, Closed).(
          passes := s.passes + [Pass(t.user, newJti, NormalizeAuthVersion(s.requests[i].row.authVersion), s.now, t.jti)])
      else s
    case Logout(jti) =>
      if Presentable(s, jti) then s.(requests := s.requests + [Revoking(s.issued[jti])]) else s
    case Revoke(i) =>
      if At(s, i) && s.requests[i].Revoking? then
        var t := s.requests[i].token;
        Put(s, i, Closed).(
          redis := Forgotten(s.redis, KeyOf(t)),
          revoked := s.revoked + {t.jti},
          log := s.log + [Revoked(t.jti)])
      else s
    case Crash(i) =>
      if At(s, i) then Put(s, i, Closed) else s
  }

  function Run(s: State, events: seq<Event>): State {
    if events == [] then s else Step(Run(s, events[..|events| - 1]), events[|events| - 1])
  }

  // ---------------------------------------------------------------- the invariant

  type Signed = map<nat, Token>

  ghost predicate Known(redis: Keys, issued: Signed, family: map<nat, nat>, stored: set<nat>, revoked: set<nat>) {
    && (forall k | k in redis :: k.jti in stored && k.jti in issued && issued[k.jti].user == k.user)
    && (forall j | j in issued :: issued[j].jti == j && 0 <= issued[j].authVersion <= MAX_SAFE)
    && family.Keys == issued.Keys
    && stored <= issued.Keys
    && revoked <= stored
  }

  /** What request `r` may rely on. */
  predicate RequestOk(issued: Signed, stored: set<nat>, r: Request) {
    match r
    case LoggingIn(_, _) => true
    case Issuing(t) => t.jti in issued && issued[t.jti] == t && t.jti !in stored
    case Consuming(t, row) =>
      t.jti in stored && t.jti in issued && issued[t.jti] == t && row.authVersion == t.authVersion
    case Checking(t) => t.jti in stored && t.jti in issued && issued[t.jti] == t
    case Granting(t, row) =>
      t.jti in stored && t.jti in issued && issued[t.jti] == t && row.authVersion == t.authVersion
    case Responding(t) => t.jti in stored && t.jti in issued && issued[t.jti] == t
    case Revoking(t) => t.jti in stored && t.jti in issued && issued[t.jti] == t
    case Closed => true
  }

  ghost predicate RequestsOk(requests: seq<Request>, issued: Signed, stored: set<nat>) {
    && (forall i | 0 <= i < |requests| :: RequestOk(issued, stored, requests[i]))
    && (forall i, j | 0 <= i < j < |requests| && requests[i].Issuing? && requests[j].Issuing? ::
          requests[i].token.jti != requests[j].token.jti)
  }

  /** A '1' is unspent, a 'used' expires GRACE seconds after its `valid`, a revoked key stays away. */
  ghost predicate Marks(redis: Keys, spent: map<nat, nat>, revoked: set<nat>) {
    forall k | k in redis ::
      && k.jti !in revoked
      && (redis[k].mark == One ==> k.jti !in spent)
      && (redis[k].mark == Used ==> k.jti in spent && redis[k].expires == spent[k.jti] + GRACE)
  }

  /** A family is a chain: one unspent token at most, one user, one version. */
  ghost predicate Families(issued: Signed, family: map<nat, nat>, spent: map<nat, nat>) {
    forall j, k | j in issued && k in issued && j in family && k in family && family[j] == family[k] ::
      && issued[j].user == issued[k].user
      && issued[j].authVersion == issued[k].authVersion
      && (j !in spent && k !in spent ==> j == k)
  }

  predicate IsValid(r: Record) {
    r.Answer? && r.reply == Valid
  }

  ghost predicate LogOk(log: seq<Record>, spent: map<nat, nat>, revoked: set<nat>) {
    && (forall n | 0 <= n < |log| && log[n].Revoked? :: log[n].jti in revoked)
    && (forall n | 0 <= n < |log| && IsValid(log[n]) :: log[n].jti in spent && spent[log[n].jti] == log[n].at)
    && (forall m, n | 0 <= m < n < |log| && IsValid(log[m]) && IsValid(log[n]) :: log[m].jti != log[n].jti)
    && (forall j | j in spent :: Answer(j, Valid, spent[j]) in log)
  }

  /** The answer at `n` came within GRACE seconds after the `valid` answer at `m` for the same token. */
  predicate GraceCovered(log: seq<Record>, n: nat, m: nat) {
    && m < n < |log| && IsValid(log[m]) && log[n].Answer? && log[m].jti == log[n].jti
    && log[m].at <= log[n].at < log[m].at + GRACE
  }

  /** What the log itself shows: grace only after `valid` and in time, nothing after a revocation. */
  ghost predicate Timely(log: seq<Record>) {
    && (forall n | 0 <= n < |log| && log[n].Answer? && log[n].reply == Grace :: exists m :: GraceCovered(log, n, m))
    && (forall m, n | 0 <= m < n < |log| && log[m].Revoked? && log[n].Answer? && log[m].jti == log[n].jti ::
          log[n].reply == Invalid)
  }

  ghost predicate Past(spent: map<nat, nat>, stored: set<nat>, now: nat) {
    && spent.Keys <= stored
    && forall j | j in spent :: spent[j] <= now
  }

  ghost predicate LogStored(log: seq<Record>, stored: set<nat>) {
    forall n | 0 <= n < |log| :: log[n].jti in stored
  }

  /** Families are numbered by the logins that started them. */
  ghost predicate Numbered(family: map<nat, nat>, logins: nat) {
    forall j | j in family :: family[j] < logins
  }

  /**
   * All of it together. The last two clauses are conservation laws: tokens are minted by logins and by
   * `valid` answers, one each; clients hold nothing that was not stored.
   */
  ghost predicate Inv(s: State) {
    && Known(s.redis, s.issued, s.family, s.stored, s.revoked)
    && RequestsOk(s.requests, s.issued, s.stored)
    && Marks(s.redis, s.spent, s.revoked)
    && Families(s.issued, s.family, s.spent)
    && LogOk(s.log, s.spent, s.revoked)
    && Timely(s.log)
    && Past(s.spent, s.stored, s.now)
    && |s.issued| == s.logins + |s.spent|
    && s.delivered <= s.stored
    && Numbered(s.family, s.logins)
    && LogStored(s.log, s.stored)
  }

  // ---------------------------------------------------------------- every step keeps it

  lemma OkAt(requests: seq<Request>, issued: Signed, stored: set<nat>, i: nat)
    requires RequestsOk(requests, issued, stored) && i < |requests|
    ensures RequestOk(issued, stored, requests[i])
  {
  }

  lemma ChangedRequest(requests: seq<Request>, issued: Signed, stored: set<nat>, i: nat, r: Request)
    requires RequestsOk(requests, issued, stored) && i < |requests| && RequestOk(issued, stored, r) && !r.Issuing?
    ensures RequestsOk(requests[i := r], issued, stored)
  {
  }

  lemma AddedRequest(requests: seq<Request>, issued: Signed, stored: set<nat>, r: Request)
    requires RequestsOk(requests, issued, stored) && RequestOk(issued, stored, r) && !r.Issuing?
    ensures RequestsOk(requests + [r], issued, stored)
  {
  }

  lemma DrawnRequest(requests: seq<Request>, issued: Signed, stored: set<nat>, i: nat, t: Token)
    requires RequestsOk(requests, issued, stored) && i < |requests| && t.jti !in issued && stored <= issued.Keys
    ensures RequestsOk(requests[i := Issuing(t)], issued[t.jti := t], stored)
  {
    forall n | 0 <= n < |requests| && n != i ensures RequestOk(issued[t.jti := t], stored, requests[n]) {
      assert RequestOk(issued, stored, requests[n]);
    }
    forall n | 0 <= n < |requests| && n != i && requests[n].Issuing? ensures requests[n].token.jti != t.jti {
      assert RequestOk(issued, stored, requests[n]);
    }
  }

  lemma StoredRequest(requests: seq<Request>, issued: Signed, stored: set<nat>, i: nat)
    requires RequestsOk(requests, issued, stored) && i < |requests| && requests[i].Issuing?
    ensures var t := requests[i].token;
            RequestsOk(requests[i := Responding(t)], issued, stored + {t.jti})
  {
    var t := requests[i].token;
    assert RequestOk(issued, stored, requests[i]);
    forall n | 0 <= n < |requests| && n != i ensures RequestOk(issued, stored + {t.jti}, requests[n]) {
      assert RequestOk(issued, stored, requests[n]);
    }
  }

  /** The new token joins a family all of whose members are spent. */
  ghost predicate Extends(issued: Signed, family: map<nat, nat>, spent: map<nat, nat>, t: Token, f: nat) {
    forall j | j in issued && j in family && family[j] == f ::
      j in spent && issued[j].user == t.user && issued[j].authVersion == t.authVersion
  }

  lemma DrawnFamily(issued: Signed, family: map<nat, nat>, spent: map<nat, nat>, t: Token, f: nat)
    requires Families(issued, family, spent) && t.jti !in issued && Extends(issued, family, spent, t, f)
    ensures Families(issued[t.jti := t], family[t.jti := f], spent)
  {
  }

  lemma DrawnKnown(s: State, t: Token, f: nat)
    requires Known(s.redis, s.issued, s.family, s.stored, s.revoked) && t.jti !in s.issued && 0 <= t.authVersion <= MAX_SAFE
    ensures Known(s.redis, s.issued[t.jti := t], s.family[t.jti := f], s.stored, s.revoked)
    ensures |s.issued[t.jti := t]| == |s.issued| + 1
  {
    assert s.issued[t.jti := t].Keys == s.issued.Keys + {t.jti};
  }

  lemma AnsweredLog(log: seq<Record>, spent: map<nat, nat>, revoked: set<nat>, jti: nat, reply: Reply, at: nat)
    requires LogOk(log, spent, revoked) && (reply == Valid ==> jti !in spent)
    ensures LogOk(log + [Answer(jti, reply, at)], if reply == Valid then spent[jti := at] else spent, revoked)
  {
    var log' := log + [Answer(jti, reply, at)];
    assert forall n | 0 <= n < |log| :: log'[n] == log[n];
    assert log'[|log|] == Answer(jti, reply, at);
    var spent' := if reply == Valid then spent[jti := at] else spent;
    forall j | j in spent' ensures Answer(j, Valid, spent'[j]) in log' {
      if !(reply == Valid && j == jti) {
        assert Answer(j, Valid, spent[j]) in log;
      }
    }
  }

  lemma RevokedLog(log: seq<Record>, spent: map<nat, nat>, revoked: set<nat>, jti: nat)
    requires LogOk(log, spent, revoked) && Timely(log)
    ensures LogOk(log + [Revoked(jti)], spent, revoked + {jti}) && Timely(log + [Revoked(jti)])
  {
    var log' := log + [Revoked(jti)];
    assert forall n | 0 <= n < |log| :: log'[n] == log[n];
    forall j | j in spent ensures Answer(j, Valid, spent[j]) in log' {
      assert Answer(j, Valid, spent[j]) in log;
    }
    StillCovered(log, log');
  }

  lemma StillCovered(log: seq<Record>, log': seq<Record>)
    requires Timely(log) && log <= log'
    ensures forall n | 0 <= n < |log| && log[n].Answer? && log[n].reply == Grace :: exists m :: GraceCovered(log', n, m)
  {
    forall n | 0 <= n < |log| && log[n].Answer? && log[n].reply == Grace
      ensures exists m :: GraceCovered(log', n, m)
    {
      var m :| GraceCovered(log, n, m);
      assert GraceCovered(log', n, m);
    }
  }

  /** The answer given for a key fits the log so far. */
  lemma AnswerIsTimely(s: State, key: Key, reply: Reply)
    requires Marks(s.redis, s.spent, s.revoked) && LogOk(s.log, s.spent, s.revoked) && Timely(s.log)
    requires Past(s.spent, s.stored, s.now)
    requires reply == ConsumeScript(s.redis, key, s.now).1
    ensures Timely(s.log + [Answer(key.jti, reply, s.now)])
  {
    var log := s.log + [Answer(key.jti, reply, s.now)];
    assert forall n | 0 <= n < |s.log| :: log[n] == s.log[n];
    StillCovered(s.log, log);
    if reply == Grace {
      assert Answer(key.jti, Valid, s.spent[key.jti]) in s.log;
      var m :| 0 <= m < |s.log| && s.log[m] == Answer(key.jti, Valid, s.spent[key.jti]);
      assert GraceCovered(log, |s.log|, m);
    }
  }

  lemma SpentMarks(s: State, key: Key)
    requires Known(s.redis, s.issued, s.family, s.stored, s.revoked) && Marks(s.redis, s.spent, s.revoked) && key in s.redis
    requires key.jti !in s.spent
    ensures Known(s.redis[key := Entry(Used, s.now + GRACE)], s.issued, s.family, s.stored, s.revoked)
    ensures Marks(s.redis[key := Entry(Used, s.now + GRACE)], s.spent[key.jti := s.now], s.revoked)
    ensures |s.spent[key.jti := s.now]| == |s.spent| + 1
  {
    assert s.spent[key.jti := s.now].Keys == s.spent.Keys + {key.jti};
    forall k | k in s.redis && k != key ensures k.jti != key.jti {
      assert s.issued[k.jti].user == k.user;
    }
  }

  lemma ValidStep(s: State, i: nat, newJti: nat)
    requires At(s, i) && s.requests[i].Consuming? && s.requests[i].token.jti in s.family
    requires ConsumeScript(s.redis, KeyOf(s.requests[i].token), s.now).1 == Valid
    ensures var t := s.requests[i].token;
            var u := Sign(s, t.user, newJti, s.requests[i].row);
            ConsumeStep(s, i, newJti) ==
            s.(redis := s.redis[KeyOf(t) := Entry(Used, s.now + GRACE)],
               log := s.log + [Answer(t.jti, Valid, s.now)],
               spent := s.spent[t.jti := s.now],
               requests := s.requests[i := Issuing(u)],
               issued := s.issued[newJti := u],
               family := s.family[newJti := s.family[t.jti]])
  {
  }

  lemma ValidKeepsInv(s: State, i: nat, newJti: nat)
    requires Inv(s) && At(s, i) && s.requests[i].Consuming? && newJti !in s.issued
    requires ConsumeScript(s.redis, KeyOf(s.requests[i].token), s.now).1 == Valid
    ensures Inv(ConsumeStep(s, i, newJti))
  {
    var t, row := s.requests[i].token, s.requests[i].row;
    OkAt(s.requests, s.issued, s.stored, i);
    assert KeyOf(t) in s.redis && t.jti !in s.spent && 0 <= t.authVersion <= MAX_SAFE && s.stored <= s.issued.Keys == s.family.Keys;
    hide Inv, ConsumeStep, ConsumeScript, Known, RequestsOk, Marks, Families, LogOk, Timely;
    ValidStep(s, i, newJti);
    ValidParts(s, i, t, Sign(s, t.user, newJti, row));
  }

  lemma ValidParts(s: State, i: nat, t: Token, u: Token)
    requires Inv(s) && At(s, i) && t.jti in s.issued && s.issued[t.jti] == t
    requires ConsumeScript(s.redis, KeyOf(t), s.now).1 == Valid
    requires u.jti !in s.issued && u.user == t.user && u.authVersion == t.authVersion
    requires t.jti in s.stored && t.jti !in s.spent && 0 <= t.authVersion <= MAX_SAFE
    requires s.stored <= s.issued.Keys == s.family.Keys
    ensures Inv(s.(redis := s.redis[KeyOf(t) := Entry(Used, s.now + GRACE)],
                   log := s.log + [Answer(t.jti, Valid, s.now)],
                   spent := s.spent[t.jti := s.now],
                   requests := s.requests[i := Issuing(u)],
                   issued := s.issued[u.jti := u],
                   family := s.family[u.jti := s.family[t.jti]]))
  {
    hide Known, RequestsOk, Marks, Families, LogOk, Timely;
    AnswerIsTimely(s, KeyOf(t), Valid);
    AnsweredLog(s.log, s.spent, s.revoked, t.jti, Valid, s.now);
    SpentMarks(s, KeyOf(t));
    DrawnRequest(s.requests, s.issued, s.stored, i, u);
    PaidFamily(s, t, u);
    DrawnKnown(s.(redis := s.redis[KeyOf(t) := Entry(Used, s.now + GRACE)]), u, s.family[t.jti]);
  }

  lemma ConsumeKeepsInv(s: State, i: nat, newJti: nat)
    requires Inv(s) && At(s, i) && s.requests[i].Consuming? && newJti !in s.issued
    ensures Inv(ConsumeStep(s, i, newJti))
  {
    var t := s.requests[i].token;
    assert RequestOk(s.issued, s.stored, s.requests[i]);
    var reply := ConsumeScript(s.redis, KeyOf(t), s.now).1;
    if reply == Valid {
      ValidKeepsInv(s, i, newJti);
    } else {
      AnswerIsTimely(s, KeyOf(t), reply);
      AnsweredLog(s.log, s.spent, s.revoked, t.jti, reply, s.now);
      ChangedRequest(s.requests, s.issued, s.stored, i, if reply == Grace then Granting(t, s.requests[i].row) else Closed);
    }
  }

  /** Paying the one unspent token of a family lets the family be extended by one. */
  lemma PaidFamily(s: State, t: Token, u: Token)
    requires s.family.Keys == s.issued.Keys && Families(s.issued, s.family, s.spent)
    requires t.jti in s.issued && s.issued[t.jti] == t && t.jti !in s.spent && u.jti !in s.issued
    requires u.user == t.user && u.authVersion == t.authVersion
    ensures Families(s.issued[u.jti := u], s.family[u.jti := s.family[t.jti]], s.spent[t.jti := s.now])
  {
    var spent := s.spent[t.jti := s.now];
    assert Families(s.issued, s.family, spent);
    DrawnFamily(s.issued, s.family, spent, u, s.family[t.jti]);
  }

  lemma LoginKeepsInv(s: State, i: nat, newJti: nat)
    requires Inv(s) && At(s, i) && s.requests[i].LoggingIn? && newJti !in s.issued
    ensures Inv(Step(s, DrawLogin(i, newJti)))
  {
    var u := Sign(s, s.requests[i].user, newJti, s.requests[i].row);
    hide RequestsOk, Marks, LogOk, Timely;
    DrawnRequest(s.requests, s.issued, s.stored, i, u);
    DrawnFamily(s.issued, s.family, s.spent, u, s.logins);
    DrawnKnown(s, u, s.logins);
  }

  lemma StoreKeepsInv(s: State, i: nat)
    requires Inv(s) && At(s, i) && s.requests[i].Issuing?
    ensures Inv(Step(s, Store(i)))
  {
    OkAt(s.requests, s.issued, s.stored, i);
    RememberedMarks(s, s.requests[i].token);
    hide ConsumeStep, UserAccepts, Presentable, Draw, Known, RequestsOk, Marks, Families, LogOk, Timely;
    StoredRequest(s.requests, s.issued, s.stored, i);
  }

  lemma RememberedMarks(s: State, t: Token)
    requires Known(s.redis, s.issued, s.family, s.stored, s.revoked) && Marks(s.redis, s.spent, s.revoked)
    requires Past(s.spent, s.stored, s.now) && t.jti in s.issued && s.issued[t.jti] == t && t.jti !in s.stored
    ensures Known(Remember(s.redis, KeyOf(t), s.now, s.ttl), s.issued, s.family, s.stored + {t.jti}, s.revoked)
    ensures Marks(Remember(s.redis, KeyOf(t), s.now, s.ttl), s.spent, s.revoked)
  {
  }

  lemma ForgottenMarks(s: State, key: Key)
    requires Known(s.redis, s.issued, s.family, s.stored, s.revoked) && Marks(s.redis, s.spent, s.revoked)
    requires key.jti in s.stored && key.jti in s.issued && s.issued[key.jti].user == key.user
    ensures Known(Forgotten(s.redis, key), s.issued, s.family, s.stored, s.revoked + {key.jti})
    ensures Marks(Forgotten(s.redis, key), s.spent, s.revoked + {key.jti})
  {
  }

  lemma RevokedParts(s: State, i: nat, t: Token)
    requires Inv(s) && At(s, i) && t.jti in s.stored && t.jti in s.issued && s.issued[t.jti] == t
    ensures Inv(Put(s, i, Closed).(redis := Forgotten(s.redis, KeyOf(t)), revoked := s.revoked + {t.jti},
                                   log := s.log + [Revoked(t.jti)]))
  {
    hide Known, RequestsOk, Marks, Families, LogOk, Timely;
    RevokedLog(s.log, s.spent, s.revoked, t.jti);
    ChangedRequest(s.requests, s.issued, s.stored, i, Closed);
    ForgottenMarks(s, KeyOf(t));
  }

  lemma RevokeKeepsInv(s: State, i: nat)
    requires Inv(s) && At(s, i) && s.requests[i].Revoking?
    ensures Inv(Step(s, Revoke(i)))
  {
    hide Known, RequestsOk, Marks, Families, LogOk, Timely;
    OkAt(s.requests, s.issued, s.stored, i);
    RevokedParts(s, i, s.requests[i].token);
  }

  lemma StepKeepsInv(s: State, e: Event)
    requires Inv(s)
    ensures Inv(Step(s, e))
  {
    match e
    case DrawLogin(i, newJti) =>
      if At(s, i) && s.requests[i].LoggingIn? && newJti !in s.issued {
        LoginKeepsInv(s, i, newJti);
      }
    case Consume(i, newJti) =>
      if At(s, i) && s.requests[i].Consuming? && newJti !in s.issued {
        ConsumeKeepsInv(s, i, newJti);
      }
    case Store(i) =>
      if At(s, i) && s.requests[i].Issuing? {
        StoreKeepsInv(s, i);
      }
    case Revoke(i) =>
      if At(s, i) && s.requests[i].Revoking? {
        RevokeKeepsInv(s, i);
      }
    case _ =>
      OtherStepKeepsInv(s, e);
  }

  lemma AddingKeepsInv(s: State, r: Request)
    requires Inv(s) && RequestOk(s.issued, s.stored, r) && !r.Issuing?
    ensures Inv(s.(requests := s.requests + [r]))
  {
    hide Known, RequestsOk, RequestOk, Marks, Families, LogOk, Timely;
    AddedRequest(s.requests, s.issued, s.stored, r);
  }

  lemma ChangingKeepsInv(s: State, i: nat, r: Request)
    requires Inv(s) && At(s, i) && RequestOk(s.issued, s.stored, r) && !r.Issuing?
    ensures Inv(Put(s, i, r))
  {
    hide Known, RequestsOk, RequestOk, Marks, Families, LogOk, Timely;
    ChangedRequest(s.requests, s.issued, s.stored, i, r);
  }

  lemma InvOkAt(s: State, i: nat)
    requires Inv(s) && At(s, i)
    ensures RequestOk(s.issued, s.stored, s.requests[i])
  {
    OkAt(s.requests, s.issued, s.stored, i);
  }

  lemma PresentedIsOk(s: State, jti: nat)
    requires Inv(s) && Presentable(s, jti)
    ensures RequestOk(s.issued, s.stored, Checking(s.issued[jti])) && RequestOk(s.issued, s.stored, Revoking(s.issued[jti]))
  {
  }

  lemma DeliverKeepsInv(s: State, i: nat)
    requires Inv(s) && At(s, i) && s.requests[i].Responding?
    ensures Inv(Step(s, Deliver(i)))
  {
    InvOkAt(s, i);
    hide Known, RequestsOk, Marks, Families, LogOk, Timely;
    ChangedRequest(s.requests, s.issued, s.stored, i, Closed);
  }

  lemma GrantKeepsInv(s: State, i: nat, newJti: nat)
    requires Inv(s) && At(s, i) && s.requests[i].Granting?
    ensures Inv(Step(s, Grant(i, newJti)))
  {
    hide Known, RequestsOk, Marks, Families, LogOk, Timely;
    ChangedRequest(s.requests, s.issued, s.stored, i, Closed);
  }

  lemma EnvironmentKeepsInv(s: State, e: Event)
    requires Inv(s) && (e.Tick? || e.Drop? || e.SetUser?)
    ensures Inv(Step(s, e))
  {
    hide RequestsOk, Families, LogOk, Timely;
  }

  lemma OtherStepKeepsInv(s: State, e: Event)
    requires Inv(s) && !e.DrawLogin? && !e.Consume? && !e.Store? && !e.Revoke?
    ensures Inv(Step(s, e))
  {
    hide Inv, UserAccepts;
    match e
    case Login(user) =>
      if user in s.users {
        AddingKeepsInv(s, LoggingIn(user, s.users[user]));
      }
    case Present(jti) =>
      if Presentable(s, jti) {
        PresentedIsOk(s, jti);
        AddingKeepsInv(s, Checking(s.issued[jti]));
      }
    case Logout(jti) =>
      if Presentable(s, jti) {
        PresentedIsOk(s, jti);
        AddingKeepsInv(s, Revoking(s.issued[jti]));
      }
    case ReadUser(i) =>
      if At(s, i) && s.requests[i].Checking? {
        UserReadKeepsInv(s, i);
      }
    case Deliver(i) =>
      if At(s, i) && s.requests[i].Responding? {
        DeliverKeepsInv(s, i);
      }
    case Grant(i, newJti) =>
      if At(s, i) && s.requests[i].Granting? {
        GrantKeepsInv(s, i, newJti);
      }
    case Crash(i) =>
      if At(s, i) {
        ChangingKeepsInv(s, i, Closed);
      }
    case _ =>
      EnvironmentKeepsInv(s, e);
  }

  lemma UserReadKeepsInv(s: State, i: nat)
    requires Inv(s) && At(s, i) && s.requests[i].Checking?
    ensures Inv(Step(s, ReadUser(i)))
  {
    var t := s.requests[i].token;
    InvOkAt(s, i);
    ChangingKeepsInv(s, i, if UserAccepts(s, t) then Consuming(t, s.users[t.user]) else Closed);
  }

  lemma {:induction false} RunKeepsInv(s: State, events: seq<Event>)
    requires Inv(s)
    ensures Inv(Run(s, events))
  {
    if events != [] {
      RunKeepsInv(s, events[..|events| - 1]);
      StepKeepsInv(Run(s, events[..|events| - 1]), events[|events| - 1]);
    }
  }
}
