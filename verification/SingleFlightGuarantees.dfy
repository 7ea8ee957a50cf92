/** What the single-flight cache guarantees in every run. */
module SingleFlightGuarantees {
  import opened SingleFlightCache

  // ---------------------------------------------------------------- main results, for every run

  ghost predicate Reachable<V(!new)>(p: Loaders<V>, s: State<V>) {
    exists events :: s == Run(p, Initial(), events)
  }

  lemma ReachableInv<V(!new)>(p: Loaders<V>, s: State<V>)
    requires Reachable(p, s)
    ensures Inv(p, s)
  {
    var events :| s == Run(p, Initial(), events);
    RunKeepsInv(p, Initial(), events);
  }

  /** At most one load per key is under way in the process. */
  lemma SingleFlight<V(!new)>(p: Loaders<V>, s: State<V>, l: nat, m: nat)
    requires Reachable(p, s) && l < m < |s.loads| && !Settled(s.loads[l]) && !Settled(s.loads[m])
    ensures s.loads[l].key != s.loads[m].key
  {
    ReachableInv(p, s);
  }

  /** When no call is waiting for a load of its own the in-flight map is empty, even after loads failed. */
  lemma NothingLeaksWhenIdle<V(!new)>(p: Loaders<V>, s: State<V>)
    requires Reachable(p, s) && forall i | 0 <= i < |s.calls| :: !s.calls[i].Owning?
    ensures s.inFlight == map[] && forall l | 0 <= l < |s.loads| :: Settled(s.loads[l])
  {
    ReachableInv(p, s);
    forall k ensures k !in s.inFlight {
      assert k in s.inFlight ==> exists i :: Owns(s.calls, i, k);
    }
  }

  /** A value survives its text, or is never cached. */
  predicate Transparent<V(==)>(p: Loaders<V>, key: Key) {
    p.skip(p.load(key)) || p.readBack(p.load(key)) == p.load(key)
  }

  ghost predicate AllAnswersFaithful<V(!new)>(p: Loaders<V>, key: Key) {
    forall s: State<V>, i: nat | Reachable(p, s) && CallAt(s, i) && s.calls[i].Answered? && s.calls[i].key == key ::
      s.calls[i].value == p.load(key)
  }

  /** One call fills the cache, a second one is answered from it. */
  function LoadThenHit(key: Key): seq<Event> {
    [Begin(key), Get(0, true), Join(0), LoaderReturns(0), WriteBack(0, true), Begin(key), Get(1, true), AnswerHit(1)]
  }

  lemma RunSnoc<V>(p: Loaders<V>, s: State<V>, events: seq<Event>, e: Event)
    ensures Run(p, s, events + [e]) == Step(p, Run(p, s, events), e)
  {
    assert (events + [e])[..|events|] == events;
  }

  /**
   * Transparency: in every interleaving of callers, expiry, invalidation, unparsable entries and other
   * processes every answer for a key is the loader's own answer, exactly when the loader's value reads
   * back from its text unchanged or is not cached at all.
   */
  lemma TransparentExactly<V(!new)>(p: Loaders<V>, key: Key)
    ensures AllAnswersFaithful(p, key) <==> Transparent(p, key)
  {
    if Transparent(p, key) {
      forall s: State<V>, i: nat | Reachable(p, s) && CallAt(s, i) && s.calls[i].Answered? && s.calls[i].key == key
        ensures s.calls[i].value == p.load(key)
      {
        ReachableInv(p, s);
        assert CallOk(p, s.loads, s.inFlight, s.calls[i]);
      }
    } else {
      HitRun(p, key);
      var s := Run(p, Initial(), LoadThenHit(key));
      assert Reachable(p, s) && CallAt(s, 1);
    }
  }

  /** Running a script one step further. */
  lemma Prefix<V>(p: Loaders<V>, s: State<V>, script: seq<Event>, k: nat)
    requires k < |script|
    ensures Run(p, s, script[..k + 1]) == Step(p, Run(p, s, script[..k]), script[k])
  {
    assert script[..k + 1] == script[..k] + [script[k]];
    RunSnoc(p, s, script[..k], script[k]);
  }

  lemma StartedLoad<V>(p: Loaders<V>, key: Key)
    ensures Run(p, Initial(), LoadThenHit(key)[..3])
         == State(map[], map[key := 0], [Running(key)], [Owning(key, 0)])
  {
    var es := LoadThenHit(key);
    Prefix(p, Initial(), es, 0);
    assert Run(p, Initial(), es[..1]) == State(map[], map[], [], [Reading(key)]);
    Prefix(p, Initial(), es, 1);
    assert Run(p, Initial(), es[..2]) == State(map[], map[], [], [Joining(key)]);
    Prefix(p, Initial(), es, 2);
  }

  lemma FilledCache<V>(p: Loaders<V>, key: Key)
    requires !p.skip(p.load(key))
    ensures Run(p, Initial(), LoadThenHit(key)[..5])
         == State(map[key := Parsable(p.readBack(p.load(key)))], map[key := 0], [Stored(key, p.load(key))], [Owning(key, 0)])
  {
    hide Run;
    StartedLoad(p, key);
    Prefix(p, Initial(), LoadThenHit(key), 3);
    Prefix(p, Initial(), LoadThenHit(key), 4);
  }

  lemma HitRun<V>(p: Loaders<V>, key: Key)
    requires !p.skip(p.load(key))
    ensures var s := Run(p, Initial(), LoadThenHit(key));
            CallAt(s, 1) && s.calls[1] == Answered(key, p.readBack(p.load(key)), true)
  {
    var es := LoadThenHit(key);
    FilledCache(p, key);
    Prefix(p, Initial(), es, 5);
    Prefix(p, Initial(), es, 6);
    Prefix(p, Initial(), es, 7);
    assert es[..8] == es;
  }

  // ---------------------------------------------------------------- one call alone

  /** The steps of one call, up to the point where it looks at the in-flight map. */
  function ReadAlone<V>(p: Loaders<V>, s: State<V>, key: Key, luck: Luck): State<V> {
    var i := |s.calls|;
    Step(p, Step(p, Step(p, Step(p, s, Begin(key)), Get(i, luck.read)), AnswerHit(i)), Drop(i, luck.drop))
  }

  /** The steps of its own load. */
  function LoadAlone<V>(p: Loaders<V>, s: State<V>, l: nat, luck: Luck): State<V> {
    Step(p, Step(p, Step(p, s, if luck.load then LoaderReturns(l) else LoaderFails(l)), WriteBack(l, luck.write)), Settle(l))
  }

  function Undisturbed<V>(s: State<V>, key: Key, luck: Luck): seq<Event> {
    var (i, l) := (|s.calls|, |s.loads|);
    [Begin(key), Get(i, luck.read), AnswerHit(i), Drop(i, luck.drop), Join(i),
     if luck.load then LoaderReturns(l) else LoaderFails(l), WriteBack(l, luck.write), Settle(l), Resume(i)]
  }

  function RememberAlone<V>(p: Loaders<V>, s: State<V>, key: Key, luck: Luck): State<V> {
    var (i, l) := (|s.calls|, |s.loads|);
    Step(p, LoadAlone(p, Step(p, ReadAlone(p, s, key, luck), Join(i)), l, luck), Resume(i))
  }

  lemma ReadAloneOutcome<V>(p: Loaders<V>, s: State<V>, key: Key, luck: Luck)
    ensures ReadAlone(p, s, key, luck) ==
            s.(redis := AfterRead(s.redis, key, luck),
               calls := s.calls + [if luck.read && key in s.redis && s.redis[key].Parsable?
                                   then Answered(key, s.redis[key].value, true) else Joining(key)])
  {
    var i := |s.calls|;
    var read := Step(p, Step(p, s, Begin(key)), Get(i, luck.read));
    assert read == s.(calls := s.calls + [
      if !luck.read || key !in s.redis then Joining(key)
      else match s.redis[key] case Parsable(value) => Hit(key, value) case Corrupt => Dropping(key)]);
  }

  lemma LoadAloneOutcome<V>(p: Loaders<V>, s: State<V>, l: nat, luck: Luck)
    requires l == |s.loads| || (LoadAt(s, l) && s.loads[l].Running?)
    ensures var d := LoadAlone(p, s, l, luck);
            if l == |s.loads| then d == s
            else var key := s.loads[l].key;
              d == s.(
                redis := if !luck.load || p.skip(p.load(key)) || !luck.write then s.redis
                         else s.redis[key := Parsable(p.readBack(p.load(key)))],
                loads := s.loads[l := if luck.load then Resolved(key, p.load(key)) else Rejected(key)])
  {
  }

  /**
   * The protocol refines the sequential method: a call that is not interrupted leaves the texts, the in-flight map
   * and the answer of `RememberJson`.
   */
  lemma UndisturbedCall<V(!new)>(p: Loaders<V>, s: State<V>, key: Key, luck: Luck)
    requires Reachable(p, s)
    ensures var (d, (redis, call)) := (Run(p, s, Undisturbed(s, key, luck)), RememberOutcome(p, s, key, luck));
            d.redis == redis && d.calls == s.calls + [call] && d.inFlight == s.inFlight
  {
    ReachableInv(p, s);
    UndisturbedRun(p, s, key, luck);
    hide Run, Inv, Reachable, Step, RememberOutcome, LoadAlone, ReadAlone;
    RememberAloneOutcome(p, s, key, luck);
  }

  /** The text of the key is that of before. */
  predicate SameText<V(==)>(a: map<Key, Entry<V>>, b: map<Key, Entry<V>>, key: Key) {
    (key in a <==> key in b) && (key in a && key in b ==> a[key] == b[key])
  }

  /**
   * What an undisturbed call answers and leaves: a parsable text is the answer; on a miss a load in flight is joined and
   * nothing written; else the loader's own answer or its error is passed on, and written unless it failed, is to be
   * skipped, or the write fails. An unparsable text is deleted if Redis lets it. No other key changes.
   */
  lemma RememberedExactly<V(!new)>(p: Loaders<V>, s: State<V>, key: Key, luck: Luck)
    requires Reachable(p, s)
    ensures var (d, i) := (Run(p, s, Undisturbed(s, key, luck)), |s.calls|);
            var hit := luck.read && key in s.redis && s.redis[key].Parsable?;
            var written := !hit && key !in s.inFlight && luck.load && !p.skip(p.load(key)) && luck.write;
            && |d.calls| == i + 1
            && (hit ==> d.calls[i] == Answered(key, s.redis[key].value, true))
            && (!hit && key !in s.inFlight ==> d.calls[i] == if luck.load then Answered(key, p.load(key), false) else Threw(key))
            && (!hit && key in s.inFlight ==>
                  && s.inFlight[key] < |s.loads|
                  && d.calls[i] == match s.loads[s.inFlight[key]]
                                   case Resolved(_, value) => Answered(key, value, false)
                                   case Rejected(_) => Threw(key)
                                   case _ => Waiting(key, s.inFlight[key]))
            && (forall k | k != key :: SameText(d.redis, s.redis, k))
            && if written then key in d.redis && d.redis[key] == Parsable(p.readBack(p.load(key)))
               else if luck.read && luck.drop && key in s.redis && s.redis[key].Corrupt? then key !in d.redis
               else SameText(d.redis, s.redis, key)
  {
    UndisturbedCall(p, s, key, luck);
    ReachableInv(p, s);
    assert key in s.inFlight ==> s.inFlight[key] < |s.loads|;
    hide Run, Inv, Reachable;
  }

  /** An answered call is not moved by the later steps. */
  lemma AnsweredStays<V>(p: Loaders<V>, s: State<V>, i: nat)
    requires CallAt(s, i) && s.calls[i].Answered?
    ensures Step(p, s, Join(i)) == Step(p, s, Resume(i)) == s
  {
  }

  lemma RememberAloneOutcome<V>(p: Loaders<V>, s: State<V>, key: Key, luck: Luck)
    ensures var (d, (redis, call)) := (RememberAlone(p, s, key, luck), RememberOutcome(p, s, key, luck));
            d.redis == redis && d.calls == s.calls + [call] && d.inFlight == s.inFlight
  {
    var i, l := |s.calls|, |s.loads|;
    var read := ReadAlone(p, s, key, luck);
    ReadAloneOutcome(p, s, key, luck);
    hide LoadAlone, ReadAlone;
    if read.calls[i].Answered? {
      AnsweredStays(p, read, i);
      LoadAloneOutcome(p, read, l, luck);
    } else {
      var joined := JoinStep(read, i, key);
      assert joined == Step(p, read, Join(i));
      LoadAloneOutcome(p, joined, l, luck);
    }
  }

  lemma {:induction false} RunConcat<V>(p: Loaders<V>, s: State<V>, a: seq<Event>, b: seq<Event>)
    ensures Run(p, s, a + b) == Run(p, Run(p, s, a), b)
    decreases b
  {
    if b == [] {
      assert a + b == a;
    } else {
      assert a + b == (a + b[..|b| - 1]) + [b[|b| - 1]];
      hide Step;
      RunSnoc(p, s, a + b[..|b| - 1], b[|b| - 1]);
      RunConcat(p, s, a, b[..|b| - 1]);
    }
  }

  lemma RunTwo<V>(p: Loaders<V>, s: State<V>, a: Event, b: Event)
    ensures Run(p, s, [a]) == Step(p, s, a)
    ensures Run(p, s, [a, b]) == Step(p, Step(p, s, a), b)
  {
    hide Step;
    assert [a][..0] == [] && [a, b][..1] == [a];
  }

  lemma UndisturbedRun<V>(p: Loaders<V>, s: State<V>, key: Key, luck: Luck)
    ensures Run(p, s, Undisturbed(s, key, luck)) == RememberAlone(p, s, key, luck)
  {
    var i, l := |s.calls|, |s.loads|;
    var a, b, c, d := Begin(key), Get(i, luck.read), AnswerHit(i), Drop(i, luck.drop);
    var e, f, g, h := Join(i), if luck.load then LoaderReturns(l) else LoaderFails(l), WriteBack(l, luck.write), Settle(l);
    var r := Resume(i);
    hide Step, Run;
    assert Undisturbed(s, key, luck) == [a, b] + ([c, d] + ([e, f] + ([g, h] + [r])));
    RunTwo(p, s, a, b);
    RunConcat(p, s, [a, b], [c, d] + ([e, f] + ([g, h] + [r])));
    var s1 := Run(p, s, [a, b]);
    RunTwo(p, s1, c, d);
    RunConcat(p, s1, [c, d], [e, f] + ([g, h] + [r]));
    var s2 := Run(p, s1, [c, d]);
    RunTwo(p, s2, e, f);
    RunConcat(p, s2, [e, f], [g, h] + [r]);
    var s3 := Run(p, s2, [e, f]);
    RunTwo(p, s3, g, h);
    RunConcat(p, s3, [g, h], [r]);
    RunTwo(p, Run(p, s3, [g, h]), r, r);
  }
}
