/** Which logins can still be refreshed, and which crashes end a login. */
module RefreshRecovery {
  import opened Prelude
  import opened TokenStore
  import opened RefreshProtocol
  import opened RefreshGuarantees

  // ---------------------------------------------------------------- the property and its condition

  /** An entry added to the log since `s` answers `valid` to a token of login `f`. */
  predicate AnswersValid(s: State, d: State, f: nat, n: nat) {
    |s.log| <= n < |d.log| && IsValid(d.log[n]) && InFamily(d.family, d.log[n].jti, f)
  }

  ghost predicate GoesOn(s: State, events: seq<Event>, f: nat) {
    exists n :: AnswersValid(s, Run(s, events), f, n)
  }

  /** In some continuation a token of login `f` is answered `valid`. */
  ghost predicate CanRefresh(s: State, f: nat) {
    exists events :: GoesOn(s, events, f)
  }

  /** Redis holds the token as a '1'. */
  predicate Live(s: State, t: Token) {
    Lookup(s.redis, KeyOf(t), s.now) == Some(One)
  }

  /** The version of the user has not passed that of the token. */
  predicate VersionOpen(s: State, t: Token) {
    t.user in s.users ==> s.users[t.user].authVersion <= t.authVersion
  }

  /** A client holds the token, and it would pass every check on the way to its script. */
  predicate InHand(s: State, f: nat, j: nat) {
    Presentable(s, j) && InFamily(s.family, j, f) && Live(s, s.issued[j]) && VersionOpen(s, s.issued[j])
  }

  /** Request `i` can bring about a `valid` answer for login `f`: now, or through the client it answers. */
  predicate Chance(s: State, f: nat, i: nat) {
    At(s, i) &&
    match s.requests[i]
    case Consuming(t, _) => InFamily(s.family, t.jti, f) && Live(s, t)
    case Checking(t) => InFamily(s.family, t.jti, f) && Live(s, t) && VersionOpen(s, t)
    case Responding(t) => InFamily(s.family, t.jti, f) && Live(s, t) && VersionOpen(s, t) && s.now < t.exp
    case Issuing(t) => InFamily(s.family, t.jti, f) && 0 < s.ttl && VersionOpen(s, t) && s.now < t.exp
    case _ => false
  }

  ghost predicate Prospect(s: State, f: nat) {
    (exists j :: InHand(s, f, j)) || (exists i :: Chance(s, f, i))
  }

  /** Request `i` holds a signed token of login `f` that no client has yet. */
  predicate HoldsUndelivered(s: State, f: nat, i: nat) {
    At(s, i) && (s.requests[i].Issuing? || s.requests[i].Responding?) && InFamily(s.family, s.requests[i].token.jti, f)
  }

  // ---------------------------------------------------------------- a prospect suffices

  lemma {:induction false} RunCons(s: State, e: Event, events: seq<Event>)
    ensures Run(s, [e] + events) == Run(Step(s, e), events)
    decreases events
  {
    hide Step;
    if events == [] {
      assert [e] + events == [] + [e];
      RunSnoc(s, [], e);
    } else {
      var before := events[..|events| - 1];
      RunCons(s, e, before);
      assert [e] + events == ([e] + before) + [events[|events| - 1]];
      RunSnoc(s, [e] + before, events[|events| - 1]);
    }
  }

  lemma LogGrowsWhenConsuming(s: State, i: nat, newJti: nat)
    requires At(s, i) && s.requests[i].Consuming?
    ensures s.log <= ConsumeStep(s, i, newJti).log
  {
  }

  lemma LogGrows(s: State, e: Event)
    ensures s.log <= Step(s, e).log
  {
    hide ConsumeStep, UserAccepts, Remember, Forgotten, Presentable;
    if e.Consume? && At(s, e.i) && s.requests[e.i].Consuming? {
      LogGrowsWhenConsuming(s, e.i, e.newJti);
    }
  }

  /** What goes on after a step goes on before it. */
  lemma BackStep(s: State, e: Event, f: nat)
    requires CanRefresh(Step(s, e), f)
    ensures CanRefresh(s, f)
  {
    hide Step, Run;
    var events :| GoesOn(Step(s, e), events, f);
    var n :| AnswersValid(Step(s, e), Run(Step(s, e), events), f, n);
    RunCons(s, e, events);
    LogGrows(s, e);
    assert AnswersValid(s, Run(s, [e] + events), f, n);
    assert GoesOn(s, [e] + events, f);
  }

  lemma {:induction false} FreshId(ids: set<nat>) returns (j: nat)
    ensures forall k | k in ids :: k < j
    decreases |ids|
  {
    if ids == {} {
      j := 0;
    } else {
      var top :| top in ids;
      j := FreshId(ids - {top});
      assert forall k | k in ids :: k == top || k in ids - {top};
      j := if top < j then j else top + 1;
    }
  }

  lemma ConsumingGoesOn(s: State, f: nat, i: nat)
    requires Inv(s) && Chance(s, f, i) && s.requests[i].Consuming?
    ensures CanRefresh(s, f)
  {
    var newJti := FreshId(s.issued.Keys);
    var e := Consume(i, newJti);
    assert s.family.Keys == s.issued.Keys;
    hide Inv;
    assert AnswersValid(s, Step(s, e), f, |s.log|);
    RunSnoc(s, [], e);
    assert [] + [e] == [e];
    assert GoesOn(s, [e], f);
  }

  /** With the user's row set to the version of the token, the read accepts it. */
  lemma AdmittedIsConsuming(s: State, f: nat, i: nat)
    requires Chance(s, f, i) && s.requests[i].Checking? && SafeInteger(s.requests[i].token.authVersion)
    ensures var t := s.requests[i].token;
            var d := Step(Step(s, SetUser(t.user, User(true, t.authVersion))), ReadUser(i));
            Chance(d, f, i) && d.requests[i].Consuming?
  {
    var t := s.requests[i].token;
    var row := User(true, t.authVersion);
    var admitted := Step(s, SetUser(t.user, row));
    assert admitted == s.(users := s.users[t.user := row]);
    assert UserAccepts(admitted, t);
    assert Step(admitted, ReadUser(i)) == Put(admitted, i, Consuming(t, row));
  }

  lemma CheckingGoesOn(s: State, f: nat, i: nat)
    requires Inv(s) && Chance(s, f, i) && s.requests[i].Checking?
    ensures CanRefresh(s, f)
  {
    var t := s.requests[i].token;
    InvOkAt(s, i);
    var admit, read := SetUser(t.user, User(true, t.authVersion)), ReadUser(i);
    assert 0 <= t.authVersion <= MAX_SAFE;
    AdmittedIsConsuming(s, f, i);
    StepKeepsInv(s, admit);
    StepKeepsInv(Step(s, admit), read);
    hide Inv, Step, Chance, CanRefresh;
    ConsumingGoesOn(Step(Step(s, admit), read), f, i);
    BackStep(Step(s, admit), read, f);
    BackStep(s, admit, f);
  }

  lemma InHandGoesOn(s: State, f: nat, j: nat)
    requires Inv(s) && InHand(s, f, j)
    ensures CanRefresh(s, f)
  {
    assert s.issued[j].jti == j;
    StepKeepsInv(s, Present(j));
    hide Inv;
    CheckingGoesOn(Step(s, Present(j)), f, |s.requests|);
    BackStep(s, Present(j), f);
  }

  lemma RespondingGoesOn(s: State, f: nat, i: nat)
    requires Inv(s) && Chance(s, f, i) && s.requests[i].Responding?
    ensures CanRefresh(s, f)
  {
    InvOkAt(s, i);
    StepKeepsInv(s, Deliver(i));
    hide Inv;
    InHandGoesOn(Step(s, Deliver(i)), f, s.requests[i].token.jti);
    BackStep(s, Deliver(i), f);
  }

  lemma StoredIsResponding(s: State, f: nat, i: nat)
    requires Chance(s, f, i) && s.requests[i].Issuing?
    ensures Chance(Step(s, Store(i)), f, i) && Step(s, Store(i)).requests[i].Responding?
  {
  }

  lemma IssuingGoesOn(s: State, f: nat, i: nat)
    requires Inv(s) && Chance(s, f, i) && s.requests[i].Issuing?
    ensures CanRefresh(s, f)
  {
    StoredIsResponding(s, f, i);
    hide Inv, Step, Chance, CanRefresh;
    StepKeepsInv(s, Store(i));
    RespondingGoesOn(Step(s, Store(i)), f, i);
    BackStep(s, Store(i), f);
  }

  lemma ProspectGoesOn(s: State, f: nat)
    requires Inv(s) && Prospect(s, f)
    ensures CanRefresh(s, f)
  {
    hide Inv, CanRefresh, InHand;
    if j: nat :| InHand(s, f, j) {
      InHandGoesOn(s, f, j);
    } else {
      var i: nat :| Chance(s, f, i);
      match s.requests[i]
      case Consuming(_, _) => ConsumingGoesOn(s, f, i);
      case Checking(_) => CheckingGoesOn(s, f, i);
      case Responding(_) => RespondingGoesOn(s, f, i);
      case Issuing(_) => IssuingGoesOn(s, f, i);
      case _ =>
    }
  }

  // ---------------------------------------------------------------- a prospect is needed

  /** Nothing in `d` is better for login `f` than in `s`, except perhaps what request `i` does. */
  ghost predicate NoBetter(s: State, d: State, f: nat, i: nat) {
    && (forall j | InHand(d, f, j) :: InHand(s, f, j))
    && (forall k | k != i && Chance(d, f, k) :: Chance(s, f, k))
  }

  lemma NoBetterGivesNone(s: State, d: State, f: nat, i: nat)
    requires NoBetter(s, d, f, i) && (Chance(d, f, i) ==> Prospect(s, f)) && Prospect(d, f)
    ensures Prospect(s, f)
  {
    hide InHand, Chance;
    if j: nat :| InHand(d, f, j) {
      assert InHand(s, f, j);
    } else {
      var k: nat :| Chance(d, f, k);
      assert k == i || Chance(s, f, k);
    }
  }

  lemma EnvironmentIsNoBetter(s: State, e: Event, f: nat)
    requires e.Tick? || e.Drop? || e.SetUser?
    ensures NoBetter(s, Step(s, e), f, |s.requests|) && Step(s, e).requests == s.requests
  {
  }

  lemma AddedIsNoBetter(s: State, r: Request, f: nat)
    ensures NoBetter(s, s.(requests := s.requests + [r]), f, |s.requests|)
  {
  }

  lemma ReplacedIsNoBetter(s: State, i: nat, r: Request, f: nat)
    requires At(s, i)
    ensures NoBetter(s, Put(s, i, r), f, i)
  {
  }

  lemma PresentGivesNone(s: State, j: nat, f: nat)
    requires Inv(s) && Prospect(Step(s, Present(j)), f)
    ensures Prospect(s, f)
  {
    if Presentable(s, j) {
      assert s.issued[j].jti == j;
      hide Inv;
      var d := Step(s, Present(j));
      AddedIsNoBetter(s, Checking(s.issued[j]), f);
      assert Chance(d, f, |s.requests|) ==> InHand(s, f, j);
      NoBetterGivesNone(s, d, f, |s.requests|);
    }
  }

  lemma ReadGivesNone(s: State, i: nat, f: nat)
    requires Prospect(Step(s, ReadUser(i)), f)
    ensures Prospect(s, f)
  {
    if At(s, i) && s.requests[i].Checking? {
      var t := s.requests[i].token;
      ReplacedIsNoBetter(s, i, if UserAccepts(s, t) then Consuming(t, s.users[t.user]) else Closed, f);
      assert Chance(Step(s, ReadUser(i)), f, i) ==> Chance(s, f, i);
      NoBetterGivesNone(s, Step(s, ReadUser(i)), f, i);
    }
  }

  lemma DeliverGivesNone(s: State, i: nat, f: nat)
    requires Inv(s) && Prospect(Step(s, Deliver(i)), f)
    ensures Prospect(s, f)
  {
    if At(s, i) && s.requests[i].Responding? {
      var d := Step(s, Deliver(i));
      InvOkAt(s, i);
      hide Inv;
      if j: nat :| InHand(d, f, j) {
        assert if j in s.delivered then InHand(s, f, j) else Chance(s, f, i);
      } else {
        ReplacedIsNoBetter(s, i, Closed, f);
        var k: nat :| Chance(d, f, k);
        assert Chance(Put(s, i, Closed), f, k);
      }
    }
  }

  lemma RevokeGivesNone(s: State, i: nat, f: nat)
    requires Prospect(Step(s, Revoke(i)), f)
    ensures Prospect(s, f)
  {
    if At(s, i) && s.requests[i].Revoking? {
      assert NoBetter(s, Step(s, Revoke(i)), f, i) && !Chance(Step(s, Revoke(i)), f, i);
      NoBetterGivesNone(s, Step(s, Revoke(i)), f, i);
    }
  }

  lemma GrantGivesNone(s: State, i: nat, newJti: nat, f: nat)
    requires Prospect(Step(s, Grant(i, newJti)), f)
    ensures Prospect(s, f)
  {
    if At(s, i) && s.requests[i].Granting? {
      var d := Step(s, Grant(i, newJti));
      assert NoBetter(s, d, f, i) && !Chance(d, f, i);
      hide NoBetter, Chance, InHand, Step;
      NoBetterGivesNone(s, d, f, i);
    }
  }

  /** Storing a token makes no other token live. */
  lemma StoreIsNoBetter(s: State, i: nat, f: nat)
    requires Inv(s) && At(s, i) && s.requests[i].Issuing?
    ensures NoBetter(s, Step(s, Store(i)), f, i)
  {
    var d, t := Step(s, Store(i)), s.requests[i].token;
    InvOkAt(s, i);
    assert s.delivered <= s.stored && forall j | j in s.issued :: s.issued[j].jti == j;
    forall k | k != i && Chance(d, f, k) ensures Chance(s, f, k) {
      InvOkAt(s, k);
    }
  }

  lemma StoreGivesNone(s: State, i: nat, f: nat)
    requires Inv(s) && At(s, i) && s.requests[i].Issuing? && Prospect(Step(s, Store(i)), f)
    ensures Prospect(s, f)
  {
    var d := Step(s, Store(i));
    hide Inv, NoBetter, InHand;
    StoreIsNoBetter(s, i, f);
    assert Chance(d, f, i) ==> Chance(s, f, i);
    NoBetterGivesNone(s, d, f, i);
  }

  lemma DrawGivesNone(s: State, i: nat, newJti: nat, f: nat)
    requires Inv(s) && f < s.logins && At(s, i) && s.requests[i].LoggingIn? && newJti !in s.issued
    requires Prospect(Step(s, DrawLogin(i, newJti)), f)
    ensures Prospect(s, f)
  {
    var d := Step(s, DrawLogin(i, newJti));
    forall k | k != i && Chance(d, f, k) ensures Chance(s, f, k) {
      InvOkAt(s, k);
    }
    NoBetterGivesNone(s, d, f, i);
  }

  /** An answer that is not `valid` leaves the keys alone and the request without a chance. */
  lemma RefusalIsNoBetter(s: State, i: nat, newJti: nat, f: nat)
    requires At(s, i) && s.requests[i].Consuming? && !Live(s, s.requests[i].token)
    ensures var d := ConsumeStep(s, i, newJti);
            NoBetter(s, d, f, i) && !Chance(d, f, i) && !AnswersValid(s, d, f, |s.log|)
  {
  }

  /** Rotating a token of another login changes nothing for login `f`. */
  lemma OtherRotationIsNoBetter(s: State, i: nat, newJti: nat, f: nat)
    requires Inv(s) && At(s, i) && s.requests[i].Consuming? && newJti !in s.issued
    requires Live(s, s.requests[i].token) && !InFamily(s.family, s.requests[i].token.jti, f)
    ensures var d := ConsumeStep(s, i, newJti);
            NoBetter(s, d, f, i) && !Chance(d, f, i) && !AnswersValid(s, d, f, |s.log|)
  {
    var d := ConsumeStep(s, i, newJti);
    InvOkAt(s, i);
    assert s.family.Keys == s.issued.Keys && s.delivered <= s.stored <= s.issued.Keys;
    forall k | k != i && Chance(d, f, k) ensures Chance(s, f, k) {
      InvOkAt(s, k);
    }
  }

  lemma ConsumeIsNoBetter(s: State, i: nat, newJti: nat, f: nat)
    requires Inv(s) && At(s, i) && s.requests[i].Consuming? && newJti !in s.issued && !Chance(s, f, i)
    ensures var d := ConsumeStep(s, i, newJti);
            NoBetter(s, d, f, i) && !Chance(d, f, i) && !AnswersValid(s, d, f, |s.log|)
  {
    if Live(s, s.requests[i].token) {
      OtherRotationIsNoBetter(s, i, newJti, f);
    } else {
      RefusalIsNoBetter(s, i, newJti, f);
    }
  }

  lemma ConsumeGivesNone(s: State, i: nat, newJti: nat, f: nat)
    requires Inv(s) && At(s, i) && s.requests[i].Consuming? && newJti !in s.issued
    ensures var d := ConsumeStep(s, i, newJti); Prospect(d, f) || AnswersValid(s, d, f, |s.log|) ==> Prospect(s, f)
  {
    if !Chance(s, f, i) {
      ConsumeIsNoBetter(s, i, newJti, f);
      hide Inv, InHand, Chance, NoBetter, ConsumeStep, AnswersValid, Prospect;
      if Prospect(ConsumeStep(s, i, newJti), f) {
        NoBetterGivesNone(s, ConsumeStep(s, i, newJti), f, i);
      }
    }
  }

  /** Only a consumption answers `valid`. */
  lemma OnlyConsumeAnswers(s: State, e: Event, f: nat, n: nat)
    requires AnswersValid(s, Step(s, e), f, n)
    ensures e.Consume? && At(s, e.i) && s.requests[e.i].Consuming? && e.newJti !in s.issued && n == |s.log|
  {
  }

  lemma StepGivesNone(s: State, e: Event, f: nat)
    requires Inv(s) && f < s.logins && Prospect(Step(s, e), f)
    ensures Prospect(s, f)
  {
    hide Inv, Prospect, Chance, NoBetter, ConsumeStep, UserAccepts, Remember, Forgotten, Presentable, InHand;
    match e
    case DrawLogin(i, newJti) =>
      if At(s, i) && s.requests[i].LoggingIn? && newJti !in s.issued {
        DrawGivesNone(s, i, newJti, f);
      }
    case Consume(i, newJti) =>
      if At(s, i) && s.requests[i].Consuming? && newJti !in s.issued {
        ConsumeGivesNone(s, i, newJti, f);
      }
    case Store(i) =>
      if At(s, i) && s.requests[i].Issuing? {
        StoreGivesNone(s, i, f);
      }
    case Present(j) => PresentGivesNone(s, j, f);
    case ReadUser(i) => ReadGivesNone(s, i, f);
    case Deliver(i) => DeliverGivesNone(s, i, f);
    case Revoke(i) => RevokeGivesNone(s, i, f);
    case Grant(i, newJti) => GrantGivesNone(s, i, newJti, f);
    case _ => IdleStepGivesNone(s, e, f);
  }

  lemma IdleStepGivesNone(s: State, e: Event, f: nat)
    requires e.Tick? || e.Drop? || e.SetUser? || e.Login? || e.Logout? || e.Crash?
    requires Prospect(Step(s, e), f)
    ensures Prospect(s, f)
  {
    var d := Step(s, e);
    hide Prospect, NoBetter, InHand;
    if e.Tick? || e.Drop? || e.SetUser? {
      EnvironmentIsNoBetter(s, e, f);
      NoBetterGivesNone(s, d, f, |s.requests|);
    } else if |d.requests| > |s.requests| {
      AddedIsNoBetter(s, d.requests[|s.requests|], f);
      NoBetterGivesNone(s, d, f, |s.requests|);
    } else if d != s {
      ReplacedIsNoBetter(s, e.i, Closed, f);
      NoBetterGivesNone(s, d, f, e.i);
    }
  }

  lemma StepKeepsLogin(s: State, e: Event, f: nat)
    requires f < s.logins
    ensures f < Step(s, e).logins
  {
    hide ConsumeScript;
  }

  lemma {:induction false} NoProspectStays(s: State, events: seq<Event>, f: nat)
    requires Inv(s) && f < s.logins && !Prospect(s, f)
    ensures var d := Run(s, events); !Prospect(d, f) && f < d.logins && forall n :: !AnswersValid(s, d, f, n)
    decreases events
  {
    if events != [] {
      var before, e := events[..|events| - 1], events[|events| - 1];
      var b := Run(s, before);
      NoProspectStays(s, before, f);
      RunKeepsInv(s, before);
      hide Inv, Step, Prospect, AnswersValid;
      StepKeepsLogin(b, e, f);
      if Prospect(Step(b, e), f) {
        StepGivesNone(b, e, f);
      }
      forall n | AnswersValid(s, Step(b, e), f, n) ensures false {
        NewAnswer(s, b, e, f, n);
      }
    }
  }

  lemma NewAnswer(s: State, b: State, e: Event, f: nat, n: nat)
    requires Inv(b) && AnswersValid(s, Step(b, e), f, n) && !AnswersValid(s, b, f, n)
    ensures Prospect(b, f)
  {
    LogGrows(b, e);
    if n < |b.log| {
      assert b.log[n].jti in b.issued;
      hide Inv, Step;
      FamilyStays(b, e, b.log[n].jti);
    } else {
      OnlyConsumeAnswers(b, e, f, n);
      ConsumeGivesNone(b, e.i, e.newJti, f);
    }
  }

  /**
   * A login can still get a `valid` answer exactly when a client holds a usable token of it, or a request under
   * way can still use one or hand one out.
   */
  lemma RefreshableExactly(s: State, f: nat)
    requires Reachable(s) && f < s.logins
    ensures CanRefresh(s, f) <==> Prospect(s, f)
  {
    ReachableInv(s);
    if Prospect(s, f) {
      ProspectGoesOn(s, f);
    } else if events :| GoesOn(s, events, f) {
      NoProspectStays(s, events, f);
      assert false;
    }
  }

  // ---------------------------------------------------------------- what requests know of clients

  /** A request that was sent a token works on one a client holds. */
  predicate FromClient(delivered: set<nat>, r: Request) {
    match r
    case Checking(t) => t.jti in delivered
    case Consuming(t, _) => t.jti in delivered
    case Granting(t, _) => t.jti in delivered
    case Revoking(t) => t.jti in delivered
    case Responding(t) => t.jti !in delivered
    case _ => true
  }

  /** Only delivered tokens are worked on or spent; what is on its way to a client is there once and is news. */
  ghost predicate Handled(requests: seq<Request>, delivered: set<nat>, spent: map<nat, nat>) {
    && spent.Keys <= delivered
    && (forall i | 0 <= i < |requests| :: FromClient(delivered, requests[i]))
    && (forall i, k | 0 <= i < k < |requests| && requests[i].Responding? && requests[k].Responding? ::
          requests[i].token.jti != requests[k].token.jti)
  }

  lemma StoreKeepsHandled(s: State, i: nat)
    requires Inv(s) && Handled(s.requests, s.delivered, s.spent) && At(s, i) && s.requests[i].Issuing?
    ensures var d := Step(s, Store(i)); Handled(d.requests, d.delivered, d.spent)
  {
    InvOkAt(s, i);
    forall k | 0 <= k < |s.requests| && s.requests[k].Responding? ensures s.requests[k].token.jti in s.stored {
      InvOkAt(s, k);
    }
    assert s.delivered <= s.stored;
  }

  lemma DeliverKeepsHandled(s: State, i: nat)
    requires Handled(s.requests, s.delivered, s.spent) && At(s, i) && s.requests[i].Responding?
    ensures var d := Step(s, Deliver(i)); Handled(d.requests, d.delivered, d.spent)
  {
    var d := Step(s, Deliver(i));
    forall k | 0 <= k < |d.requests| ensures FromClient(d.delivered, d.requests[k]) {
      assert FromClient(s.delivered, s.requests[k]);
    }
  }

  lemma ChangedIsHandled(requests: seq<Request>, delivered: set<nat>, spent: map<nat, nat>, i: nat, r: Request)
    requires Handled(requests, delivered, spent) && i < |requests| && FromClient(delivered, r) && !r.Responding?
    ensures Handled(requests[i := r], delivered, spent)
  {
  }

  lemma AddedIsHandled(requests: seq<Request>, delivered: set<nat>, spent: map<nat, nat>, r: Request)
    requires Handled(requests, delivered, spent) && FromClient(delivered, r) && !r.Responding?
    ensures Handled(requests + [r], delivered, spent)
  {
  }

  lemma ConsumeKeepsHandled(s: State, i: nat, newJti: nat)
    requires Handled(s.requests, s.delivered, s.spent) && At(s, i) && s.requests[i].Consuming?
    ensures var d := ConsumeStep(s, i, newJti); Handled(d.requests, d.delivered, d.spent)
  {
    var d := ConsumeStep(s, i, newJti);
    assert FromClient(s.delivered, s.requests[i]);
    assert Handled(s.requests, s.delivered, d.spent);
    assert d.requests == s.requests[i := d.requests[i]];
    ChangedIsHandled(s.requests, s.delivered, d.spent, i, d.requests[i]);
  }

  lemma SentIsHandled(s: State, e: Event)
    requires Inv(s) && Handled(s.requests, s.delivered, s.spent) && (e.Present? || e.Logout?)
    ensures var d := Step(s, e); Handled(d.requests, d.delivered, d.spent)
  {
    if Presentable(s, e.jti) {
      var r := if e.Present? then Checking(s.issued[e.jti]) else Revoking(s.issued[e.jti]);
      assert s.issued[e.jti].jti == e.jti;
      hide Inv, Handled;
      AddedIsHandled(s.requests, s.delivered, s.spent, r);
    }
  }

  lemma MoveKeepsHandled(s: State, e: Event)
    requires Handled(s.requests, s.delivered, s.spent)
    requires e.DrawLogin? || e.ReadUser? || e.Grant? || e.Revoke? || e.Crash?
    ensures var d := Step(s, e); Handled(d.requests, d.delivered, d.spent)
  {
    var d := Step(s, e);
    if d.requests != s.requests {
      assert FromClient(s.delivered, s.requests[e.i]);
      hide Handled, UserAccepts, Sign, Forgotten;
      assert d.requests == s.requests[e.i := d.requests[e.i]];
      ChangedIsHandled(s.requests, s.delivered, s.spent, e.i, d.requests[e.i]);
    }
  }

  lemma StepKeepsHandled(s: State, e: Event)
    requires Inv(s) && Handled(s.requests, s.delivered, s.spent)
    ensures var d := Step(s, e); Handled(d.requests, d.delivered, d.spent)
  {
    hide Inv, Handled, ConsumeStep, UserAccepts, Remember, Forgotten, Presentable;
    match e
    case Store(i) =>
      if At(s, i) && s.requests[i].Issuing? {
        StoreKeepsHandled(s, i);
      }
    case Deliver(i) =>
      if At(s, i) && s.requests[i].Responding? {
        DeliverKeepsHandled(s, i);
      }
    case Consume(i, newJti) =>
      if At(s, i) && s.requests[i].Consuming? && newJti !in s.issued {
        ConsumeKeepsHandled(s, i, newJti);
      }
    case Present(_) => SentIsHandled(s, e);
    case Logout(_) => SentIsHandled(s, e);
    case Login(user) =>
      if user in s.users {
        AddedIsHandled(s.requests, s.delivered, s.spent, LoggingIn(user, s.users[user]));
      }
    case Tick(_) =>
    case Drop(_) =>
    case SetUser(_, _) =>
    case _ => MoveKeepsHandled(s, e);
  }

  lemma {:induction false} ReachableHandled(ttl: nat, events: seq<Event>)
    ensures var s := Run(Initial(ttl), events); Inv(s) && Handled(s.requests, s.delivered, s.spent)
    decreases events
  {
    RunKeepsInv(Initial(ttl), events);
    if events != [] {
      var before := events[..|events| - 1];
      ReachableHandled(ttl, before);
      hide Inv, Step, Handled;
      StepKeepsHandled(Run(Initial(ttl), before), events[|events| - 1]);
    }
  }

  // ---------------------------------------------------------------- which crashes end a login

  lemma HandledIfReachable(s: State)
    requires Reachable(s)
    ensures Inv(s) && Handled(s.requests, s.delivered, s.spent)
  {
    var ttl, events :| s == Run(Initial(ttl), events);
    ReachableHandled(ttl, events);
  }

  /** A login whose unspent token is still on its way has no other chance. */
  lemma UndeliveredIsLast(s: State, f: nat, i: nat)
    requires Reachable(s) && HoldsUndelivered(s, f, i)
    ensures forall j :: !InHand(s, f, j)
    ensures forall k | k != i :: !Chance(s, f, k)
  {
    HandledIfReachable(s);
    hide Reachable, Run;
  }

  /**
   * A login survives the crash of request `i` exactly when `i` did not hold a token of it that no client has yet,
   * and the login has a prospect apart from `i`.
   */
  lemma CrashEndsLoginExactly(s: State, f: nat, i: nat)
    requires Reachable(s) && f < s.logins && At(s, i)
    ensures CanRefresh(Step(s, Crash(i)), f) <==>
            !HoldsUndelivered(s, f, i) && ((exists j :: InHand(s, f, j)) || (exists k | k != i :: Chance(s, f, k)))
  {
    StepReachable(s, Crash(i));
    hide Reachable, CanRefresh, Prospect, HoldsUndelivered, InHand, Chance, Step, Run;
    StepKeepsLogin(s, Crash(i), f);
    RefreshableExactly(Step(s, Crash(i)), f);
    if HoldsUndelivered(s, f, i) {
      UndeliveredIsLast(s, f, i);
    }
    ProspectAfterCrash(s, f, i);
  }

  lemma ProspectAfterCrash(s: State, f: nat, i: nat)
    requires At(s, i)
    ensures Prospect(Step(s, Crash(i)), f) <==> (exists j :: InHand(s, f, j)) || (exists k | k != i :: Chance(s, f, k))
  {
    var d := Step(s, Crash(i));
    assert forall j :: InHand(d, f, j) <==> InHand(s, f, j);
    assert forall k :: Chance(d, f, k) <==> k != i && Chance(s, f, k);
  }

  /** Someone logs in for the first time, and the token is stored. */
  function FirstLogin(user: nat, jti: nat): seq<Event> {
    [SetUser(user, User(true, 0)), Login(user), DrawLogin(0, jti), Store(0)]
  }

  lemma RunFour(s: State, a: Event, b: Event, c: Event, d: Event)
    ensures Run(s, [a, b, c, d]) == Step(Step(Step(Step(s, a), b), c), d)
  {
    hide Step;
    assert [a, b, c, d][..3] == [a, b, c] && [a, b, c][..2] == [a, b] && [a, b][..1] == [a] && [a][..0] == [];
    assert Run(s, [a]) == Step(s, a);
    assert Run(s, [a, b]) == Step(Step(s, a), b);
    assert Run(s, [a, b, c]) == Step(Step(Step(s, a), b), c);
  }

  lemma FirstLoginStored(ttl: nat, user: nat, jti: nat)
    ensures var (s, t) := (Run(Initial(ttl), FirstLogin(user, jti)), Token(user, jti, 0, 0, ttl));
            && s.requests == [Responding(t)] && s.users == map[user := User(true, 0)] && s.family == map[jti := 0]
            && s.redis == Remember(map[], KeyOf(t), 0, ttl) && s.now == 0 && s.logins == 1
  {
    var s0 := Initial(ttl);
    RunFour(s0, SetUser(user, User(true, 0)), Login(user), DrawLogin(0, jti), Store(0));
    var s1 := s0.(users := map[user := User(true, 0)]);
    var s2 := s1.(requests := [LoggingIn(user, User(true, 0))]);
    var t := Token(user, jti, 0, 0, ttl);
    var s3 := s2.(requests := [Issuing(t)], issued := map[jti := t], family := map[jti := 0], logins := 1);
    hide Run;
    assert Step(s0, SetUser(user, User(true, 0))) == s1 && Step(s1, Login(user)) == s2 && Step(s2, DrawLogin(0, jti)) == s3;
  }

  /** Such a crash: a first login dies with its token stored and not yet delivered. */
  lemma CrashBeforeDelivery(ttl: nat, user: nat, jti: nat)
    requires 0 < ttl
    ensures var s := Run(Initial(ttl), FirstLogin(user, jti));
            Reachable(s) && CanRefresh(s, 0) && !CanRefresh(Step(s, Crash(0)), 0)
  {
    var s := Run(Initial(ttl), FirstLogin(user, jti));
    FirstLoginStored(ttl, user, jti);
    hide Run, Step, CanRefresh;
    assert Chance(s, 0, 0) && HoldsUndelivered(s, 0, 0);
    hide Chance, HoldsUndelivered;
    RefreshableExactly(s, 0);
    CrashEndsLoginExactly(s, 0, 0);
  }
}
