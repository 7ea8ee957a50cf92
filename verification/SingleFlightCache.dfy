/**
 * `rememberJson`: callers of one process that share loads through an in-flight map, over a Redis that
 * expires, is invalidated, holds unparsable texts, fails, and is written by other processes. A step runs
 * from one `await` to the next.
 */
module SingleFlightCache {

  type Key = string

  /**
   * The callers: `load` is the loader's own answer for a key, `skip` the option not to cache a value,
   * and `readBack` what parsing the stored text of a value gives.
   */
  datatype Loaders<!V> = Loaders(load: Key -> V, skip: V -> bool, readBack: V -> V)

  datatype Entry<V> = Parsable(value: V) | Corrupt

  datatype Load<V> =
    | Running(key: Key)             // the loader was called
    | Loaded(key: Key, value: V)    // about to write the value to Redis
    | Stored(key: Key, value: V)    // about to register the key and settle
    | Resolved(key: Key, value: V)
    | Rejected(key: Key)

  datatype Call<V> =
    | Reading(key: Key)                        // about to GET
    | Hit(key: Key, value: V)                  // parsed; about to answer
    | Dropping(key: Key)                       // unparsable; about to DEL
    | Joining(key: Key)                        // about to look at the in-flight map
    | Owning(key: Key, load: nat)              // awaits the load it started
    | Waiting(key: Key, load: nat)             // awaits a load another call started
    | Answered(key: Key, value: V, hit: bool)
    | Threw(key: Key)

  datatype State<V> = State(redis: map<Key, Entry<V>>, inFlight: map<Key, nat>, loads: seq<Load<V>>, calls: seq<Call<V>>)

  datatype Event =
    | Begin(key: Key)
    | Get(i: nat, ok: bool)
    | AnswerHit(i: nat)
    | Drop(i: nat, ok: bool)
    | Join(i: nat)
    | LoaderReturns(l: nat)
    | LoaderFails(l: nat)
    | WriteBack(l: nat, ok: bool)
    | Settle(l: nat)
    | Resume(i: nat)
    | Vanish(key: Key)      // expiry or invalidation
    | Poison(key: Key)      // some other writer leaves a text that does not parse
    | Foreign(key: Key)     // another process caches the same key

  function Initial<V>(): State<V> {
    State(map[], map[], [], [])
  }

  predicate CallAt<V>(s: State<V>, i: nat) {
    i < |s.calls|
  }

  predicate LoadAt<V>(s: State<V>, l: nat) {
    l < |s.loads|
  }

  function PutCall<V>(s: State<V>, i: nat, c: Call<V>): State<V>
    requires CallAt(s, i)
  {
    s.(calls := s.calls[i := c])
  }

  function PutLoad<V>(s: State<V>, l: nat, d: Load<V>): State<V>
    requires LoadAt(s, l)
  {
    s.(loads := s.loads[l := d])
  }

  /** From the end of the awaits to the next one: take the running load, or start one and publish it. */
  function JoinStep<V>(s: State<V>, i: nat, key: Key): State<V>
    requires CallAt(s, i)
  {
    if key in s.inFlight then PutCall(s, i, Waiting(key, s.inFlight[key]))
    else
      PutCall(s, i, Owning(key, |s.loads|)).(
        loads := s.loads + [Running(key)],
        inFlight := s.inFlight[key := |s.loads|])
  }

  predicate Settled<V>(d: Load<V>) {
    d.Resolved? || d.Rejected?
  }

  function Reply<V>(d: Load<V>, key: Key): Call<V>
    requires Settled(d)
  {
    if d.Resolved? then Answered(key, d.value, false) else Threw(key)
  }

  /** The `finally` of an owner, and the answer. */
  function ResumeStep<V>(s: State<V>, i: nat): State<V>
    requires CallAt(s, i) && (s.calls[i].Owning? || s.calls[i].Waiting?)
    requires LoadAt(s, s.calls[i].load) && Settled(s.loads[s.calls[i].load])
  {
    var key, l := s.calls[i].key, s.calls[i].load;
    PutCall(s, i, Reply(s.loads[l], key)).(
      inFlight := if s.calls[i].Owning? && key in s.inFlight && s.inFlight[key] == l then s.inFlight - {key} else s.inFlight)
  }

  function Step<V>(p: Loaders<V>, s: State<V>, e: Event): State<V> {
    match e
    case Begin(key) => s.(calls := s.calls + [Reading(key)])
    case Get(i, ok) =>
      if CallAt(s, i) && s.calls[i].Reading? then
        var key := s.calls[i].key;
        PutCall(s, i,
          if !ok || key !in s.redis then Joining(key)
          else match s.redis[key]
            case Parsable(value) => Hit(key, value)
            case Corrupt => Dropping(key))
      else s
    case AnswerHit(i) =>
      if CallAt(s, i) && s.calls[i].Hit? then PutCall(s, i, Answered(s.calls[i].key, s.calls[i].value, true)) else s
    case Drop(i, ok) =>
      if CallAt(s, i) && s.calls[i].Dropping? then
        var key := s.calls[i].key;
        PutCall(s, i, Joining(key)).(redis := if ok then s.redis - {key} else s.redis)
      else s
    case Join(i) =>
      if CallAt(s, i) && s.calls[i].Joining? then JoinStep(s, i, s.calls[i].key) else s
    case LoaderReturns(l) =>
      if LoadAt(s, l) && s.loads[l].Running?
      then PutLoad(s, l, Loaded(s.loads[l].key, p.load(s.loads[l].key))) else s
    case LoaderFails(l) =>
      if LoadAt(s, l) && s.loads[l].Running? then PutLoad(s, l, Rejected(s.loads[l].key)) else s
    case WriteBack(l, ok) =>
      if LoadAt(s, l) && s.loads[l].Loaded? then
        var key, value := s.loads[l].key, s.loads[l].value;
        if p.skip(value) || !ok then PutLoad(s, l, Resolved(key, value))
        else PutLoad(s, l, Stored(key, value)).(redis := s.redis[key := Parsable(p.readBack(value))])
      else s
    case Settle(l) =>
      if LoadAt(s, l) && s.loads[l].Stored?
      then PutLoad(s, l, Resolved(s.loads[l].key, s.loads[l].value)) else s
    case Resume(i) =>
      if CallAt(s, i) && (s.calls[i].Owning? || s.calls[i].Waiting?)
         && LoadAt(s, s.calls[i].load) && Settled(s.loads[s.calls[i].load])
      then ResumeStep(s, i)
      else s
    case Vanish(key) => s.(redis := s.redis - {key})
    case Poison(key) => s.(redis := s.redis[key := Corrupt])
    case Foreign(key) =>
      if p.skip(p.load(key)) then s else s.(redis := s.redis[key := Parsable(p.readBack(p.load(key)))])
  }

  function Run<V>(p: Loaders<V>, s: State<V>, events: seq<Event>): State<V> {
    if events == [] then s else Step(p, Run(p, s, events[..|events| - 1]), events[|events| - 1])
  }

  // ---------------------------------------------------------------- the invariant

  /** A cached value is a load of its key, read back from its text. */
  predicate Cached<V(==)>(p: Loaders<V>, key: Key, value: V) {
    value == p.readBack(p.load(key)) && !p.skip(p.load(key))
  }

  ghost predicate EntriesOk<V>(p: Loaders<V>, redis: map<Key, Entry<V>>) {
    forall k | k in redis && redis[k].Parsable? :: Cached(p, k, redis[k].value)
  }

  ghost predicate LoadsOk<V>(p: Loaders<V>, loads: seq<Load<V>>) {
    forall l | 0 <= l < |loads| && (loads[l].Loaded? || loads[l].Stored? || loads[l].Resolved?) ::
      loads[l].value == p.load(loads[l].key)
  }

  predicate CallOk<V(==)>(p: Loaders<V>, loads: seq<Load<V>>, inFlight: map<Key, nat>, c: Call<V>) {
    match c
    case Hit(key, value) => Cached(p, key, value)
    case Answered(key, value, hit) => if hit then Cached(p, key, value) else value == p.load(key)
    case Owning(key, l) => l < |loads| && loads[l].key == key && key in inFlight && inFlight[key] == l
    case Waiting(key, l) => l < |loads| && loads[l].key == key
    case _ => true
  }

  ghost predicate CallsOk<V>(p: Loaders<V>, loads: seq<Load<V>>, inFlight: map<Key, nat>, calls: seq<Call<V>>) {
    forall i | 0 <= i < |calls| :: CallOk(p, loads, inFlight, calls[i])
  }

  predicate Owns<V>(calls: seq<Call<V>>, i: nat, key: Key) {
    i < |calls| && calls[i].Owning? && calls[i].key == key
  }

  /** Every published key has an owner, and no key has two. */
  ghost predicate OwnersOk<V>(calls: seq<Call<V>>, inFlight: map<Key, nat>) {
    && (forall k | k in inFlight :: exists i :: Owns(calls, i, k))
    && (forall i, j, k | Owns(calls, i, k) && Owns(calls, j, k) :: i == j)
  }

  /** A published load is of its key, and a load that has not settled is published. */
  ghost predicate FlightOk<V>(loads: seq<Load<V>>, inFlight: map<Key, nat>) {
    && (forall k | k in inFlight :: inFlight[k] < |loads| && loads[inFlight[k]].key == k)
    && (forall l | 0 <= l < |loads| && !Settled(loads[l]) :: loads[l].key in inFlight && inFlight[loads[l].key] == l)
  }

  ghost predicate Inv<V>(p: Loaders<V>, s: State<V>) {
    && EntriesOk(p, s.redis)
    && LoadsOk(p, s.loads)
    && CallsOk(p, s.loads, s.inFlight, s.calls)
    && OwnersOk(s.calls, s.inFlight)
    && FlightOk(s.loads, s.inFlight)
  }

  // ---------------------------------------------------------------- every step keeps it

  /** A call that neither was nor becomes an owner moves on. */
  lemma CallMoves<V>(p: Loaders<V>, s: State<V>, i: nat, c: Call<V>)
    requires Inv(p, s) && CallAt(s, i) && !s.calls[i].Owning? && !c.Owning? && CallOk(p, s.loads, s.inFlight, c)
    ensures Inv(p, PutCall(s, i, c))
  {
    var calls := s.calls[i := c];
    forall k | k in s.inFlight ensures exists n :: Owns(calls, n, k) {
      var n :| Owns(s.calls, n, k);
      assert Owns(calls, n, k);
    }
    forall m, n, k | Owns(calls, m, k) && Owns(calls, n, k) ensures m == n {
      assert Owns(s.calls, m, k) && Owns(s.calls, n, k);
    }
  }

  lemma CallBegins<V>(p: Loaders<V>, s: State<V>, key: Key)
    requires Inv(p, s)
    ensures Inv(p, s.(calls := s.calls + [Reading(key)]))
  {
    var calls := s.calls + [Reading(key)];
    forall k | k in s.inFlight ensures exists n :: Owns(calls, n, k) {
      var n :| Owns(s.calls, n, k);
      assert Owns(calls, n, k);
    }
    forall m, n, k | Owns(calls, m, k) && Owns(calls, n, k) ensures m == n {
      assert Owns(s.calls, m, k) && Owns(s.calls, n, k);
    }
  }

  /** A load moves on: its key stays, and it was not settled before. */
  lemma LoadMoves<V>(p: Loaders<V>, s: State<V>, l: nat, d: Load<V>)
    requires Inv(p, s) && LoadAt(s, l) && !Settled(s.loads[l]) && d.key == s.loads[l].key
    requires d.Loaded? || d.Stored? || d.Resolved? ==> d.value == p.load(d.key)
    ensures Inv(p, PutLoad(s, l, d))
  {
    var loads := s.loads[l := d];
    forall i | 0 <= i < |s.calls| ensures CallOk(p, loads, s.inFlight, s.calls[i]) {
      assert CallOk(p, s.loads, s.inFlight, s.calls[i]);
    }
  }

  lemma StartKeepsInv<V>(p: Loaders<V>, s: State<V>, i: nat, key: Key)
    requires Inv(p, s) && CallAt(s, i) && s.calls[i] == Joining(key) && key !in s.inFlight
    ensures Inv(p, JoinStep(s, i, key))
  {
    var d := JoinStep(s, i, key);
    forall n | 0 <= n < |d.calls| ensures CallOk(p, d.loads, d.inFlight, d.calls[n]) {
      assert CallOk(p, s.loads, s.inFlight, s.calls[n]);
    }
    forall k | k in d.inFlight ensures exists n :: Owns(d.calls, n, k) {
      if k == key {
        assert Owns(d.calls, i, key);
      } else {
        var n :| Owns(s.calls, n, k);
        assert Owns(d.calls, n, k);
      }
    }
    forall m: nat, n: nat, k | Owns(d.calls, m, k) && Owns(d.calls, n, k) ensures m == n {
      if k == key {
        assert Owns(s.calls, m, k) ==> CallOk(p, s.loads, s.inFlight, s.calls[m]);
        assert Owns(s.calls, n, k) ==> CallOk(p, s.loads, s.inFlight, s.calls[n]);
      } else {
        assert Owns(s.calls, m, k) && Owns(s.calls, n, k);
      }
    }
    forall l | 0 <= l < |d.loads| && !Settled(d.loads[l])
      ensures d.loads[l].key in d.inFlight && d.inFlight[d.loads[l].key] == l
    {
    }
  }

  lemma OwnerResumes<V>(p: Loaders<V>, s: State<V>, i: nat)
    requires Inv(p, s) && CallAt(s, i) && s.calls[i].Owning? && s.calls[i].load < |s.loads|
    requires Settled(s.loads[s.calls[i].load])
    ensures Inv(p, Step(p, s, Resume(i)))
  {
    var key, l := s.calls[i].key, s.calls[i].load;
    assert CallOk(p, s.loads, s.inFlight, s.calls[i]);
    assert Owns(s.calls, i, key);
    var d := Step(p, s, Resume(i));
    assert d.inFlight == s.inFlight - {key};
    forall n | 0 <= n < |d.calls| ensures CallOk(p, d.loads, d.inFlight, d.calls[n]) {
      assert CallOk(p, s.loads, s.inFlight, s.calls[n]);
      if n != i && s.calls[n].Owning? && s.calls[n].key == key {
        assert Owns(s.calls, n, key);
      }
    }
    forall k | k in d.inFlight ensures exists n :: Owns(d.calls, n, k) {
      var n :| Owns(s.calls, n, k);
      assert Owns(d.calls, n, k);
    }
    forall m: nat, n: nat, k | Owns(d.calls, m, k) && Owns(d.calls, n, k) ensures m == n {
      assert Owns(s.calls, m, k) && Owns(s.calls, n, k);
    }
  }

  lemma RedisChanges<V>(p: Loaders<V>, s: State<V>, redis: map<Key, Entry<V>>)
    requires Inv(p, s) && EntriesOk(p, redis)
    ensures Inv(p, s.(redis := redis))
  {
  }

  lemma CallStepKeepsInv<V>(p: Loaders<V>, s: State<V>, e: Event)
    requires Inv(p, s) && (e.Get? || e.AnswerHit? || e.Drop? || e.Join? || e.Resume?)
    ensures Inv(p, Step(p, s, e))
  {
    hide EntriesOk, LoadsOk, CallsOk, OwnersOk, FlightOk;
    if CallAt(s, e.i) {
      CallFacts(p, s, e.i);
      match e
      case Get(i, ok) =>
        if s.calls[i].Reading? {
          CallMoves(p, s, i, Step(p, s, e).calls[i]);
        }
      case AnswerHit(i) =>
        if s.calls[i].Hit? {
          CallMoves(p, s, i, Answered(s.calls[i].key, s.calls[i].value, true));
        }
      case Drop(i, ok) =>
        if s.calls[i].Dropping? {
          CallMoves(p, s, i, Joining(s.calls[i].key));
          RedisChanges(p, PutCall(s, i, Joining(s.calls[i].key)), Step(p, s, e).redis);
        }
      case Join(i) =>
        if s.calls[i].Joining? {
          if s.calls[i].key in s.inFlight {
            CallMoves(p, s, i, Waiting(s.calls[i].key, s.inFlight[s.calls[i].key]));
          } else {
            StartKeepsInv(p, s, i, s.calls[i].key);
          }
        }
      case Resume(i) =>
        if (s.calls[i].Owning? || s.calls[i].Waiting?) && LoadAt(s, s.calls[i].load) && Settled(s.loads[s.calls[i].load]) {
          if s.calls[i].Owning? {
            OwnerResumes(p, s, i);
          } else {
            CallMoves(p, s, i, Reply(s.loads[s.calls[i].load], s.calls[i].key));
          }
        }
    }
  }

  /** What a call may rely on when it moves. */
  lemma CallFacts<V>(p: Loaders<V>, s: State<V>, i: nat)
    requires Inv(p, s) && CallAt(s, i)
    ensures CallOk(p, s.loads, s.inFlight, s.calls[i])
    ensures forall k | k in s.redis && s.redis[k].Parsable? :: Cached(p, k, s.redis[k].value)
    ensures forall key | EntriesOk(p, s.redis) :: EntriesOk(p, s.redis - {key})
    ensures forall l | 0 <= l < |s.loads| && s.loads[l].Resolved? :: s.loads[l].value == p.load(s.loads[l].key)
    ensures forall k | k in s.inFlight :: s.inFlight[k] < |s.loads| && s.loads[s.inFlight[k]].key == k
  {
  }

  lemma LoadStepKeepsInv<V>(p: Loaders<V>, s: State<V>, e: Event)
    requires Inv(p, s) && (e.LoaderReturns? || e.LoaderFails? || e.WriteBack? || e.Settle?)
    ensures Inv(p, Step(p, s, e))
  {
    if LoadAt(s, e.l) {
      var d := Step(p, s, e).loads[e.l];
      assert LoadsOk(p, s.loads);
      if !Settled(s.loads[e.l]) && Step(p, s, e) != s {
        WriteBackEntry(p, s, e);
        hide EntriesOk, LoadsOk, CallsOk, OwnersOk, FlightOk;
        LoadMoves(p, s, e.l, d);
        RedisChanges(p, PutLoad(s, e.l, d), Step(p, s, e).redis);
      }
    }
  }

  lemma WriteBackEntry<V>(p: Loaders<V>, s: State<V>, e: Event)
    requires EntriesOk(p, s.redis) && LoadsOk(p, s.loads) && (e.LoaderReturns? || e.LoaderFails? || e.WriteBack? || e.Settle?)
    ensures EntriesOk(p, Step(p, s, e).redis)
  {
  }

  lemma StepKeepsInv<V>(p: Loaders<V>, s: State<V>, e: Event)
    requires Inv(p, s)
    ensures Inv(p, Step(p, s, e))
  {
    match e
    case Begin(key) => CallBegins(p, s, key);
    case Vanish(key) =>
    case Poison(key) =>
    case Foreign(key) =>
    case LoaderReturns(_) => LoadStepKeepsInv(p, s, e);
    case LoaderFails(_) => LoadStepKeepsInv(p, s, e);
    case WriteBack(_, _) => LoadStepKeepsInv(p, s, e);
    case Settle(_) => LoadStepKeepsInv(p, s, e);
    case _ => CallStepKeepsInv(p, s, e);
  }

  lemma {:induction false} RunKeepsInv<V>(p: Loaders<V>, s: State<V>, events: seq<Event>)
    requires Inv(p, s)
    ensures Inv(p, Run(p, s, events))
  {
    if events != [] {
      RunKeepsInv(p, s, events[..|events| - 1]);
      StepKeepsInv(p, Run(p, s, events[..|events| - 1]), events[|events| - 1]);
    }
  }

  // ---------------------------------------------------------------- the service object

  /** Which awaits of one undisturbed call succeed. */
  datatype Luck = Luck(read: bool, drop: bool, load: bool, write: bool)

  /** What the read of the cache leaves in Redis: an unparsable text is deleted. */
  function AfterRead<V>(redis: map<Key, Entry<V>>, key: Key, luck: Luck): map<Key, Entry<V>> {
    if luck.read && luck.drop && key in redis && redis[key].Corrupt? then redis - {key} else redis
  }

  /** A miss with nothing in between: what the load in flight gives, or the wait for it; else what its own load gives. */
  function LoadOutcome<V>(p: Loaders<V>, s: State<V>, key: Key, luck: Luck): (map<Key, Entry<V>>, Call<V>) {
    if key in s.inFlight then
      var l := s.inFlight[key];
      (s.redis, if LoadAt(s, l) && Settled(s.loads[l]) then Reply(s.loads[l], key) else Waiting(key, l))
    else if !luck.load then (s.redis, Threw(key))
    else
      (if p.skip(p.load(key)) || !luck.write then s.redis else s.redis[key := Parsable(p.readBack(p.load(key)))],
       Answered(key, p.load(key), false))
  }

  /** `rememberJson` with nothing in between: the cached value, else the outcome of a load. */
  function RememberOutcome<V>(p: Loaders<V>, s: State<V>, key: Key, luck: Luck): (map<Key, Entry<V>>, Call<V>) {
    if luck.read && key in s.redis && s.redis[key].Parsable? then (s.redis, Answered(key, s.redis[key].value, true))
    else LoadOutcome(p, s.(redis := AfterRead(s.redis, key, luck)), key, luck)
  }

  /** The service's in-flight map and its pending promises, changed between two awaits. */
  class CacheService<V(==)> {
    const callers: Loaders<V>
    var redis: map<Key, Entry<V>>
    var inFlight: map<Key, nat>
    var loads: seq<Load<V>>
    var calls: seq<Call<V>>

    ghost function Snapshot(): State<V>
      reads this
    {
      State(redis, inFlight, loads, calls)
    }

    constructor (callers: Loaders<V>)
      ensures Snapshot() == Initial() && this.callers == callers
    {
      this.callers := callers;
      redis, inFlight, loads, calls := map[], map[], [], [];
    }

    /** After the cache miss: join the load in flight, or start one and publish it. */
    method JoinOrStart(i: nat)
      requires i < |calls| && calls[i].Joining?
      modifies this
      ensures Snapshot() == JoinStep(old(Snapshot()), i, old(calls[i].key)) == Step(callers, old(Snapshot()), Join(i))
    {
      var key := calls[i].key;
      if key in inFlight {
        calls := calls[i := Waiting(key, inFlight[key])];
      } else {
        calls := calls[i := Owning(key, |loads|)];
        inFlight := inFlight[key := |loads|];
        loads := loads + [Running(key)];
      }
    }

    /** `return await loadPromise`, with its `finally`, or the return of a joined promise. */
    method ResumeCall(i: nat)
      requires i < |calls| && (calls[i].Owning? || calls[i].Waiting?)
      requires calls[i].load < |loads| && Settled(loads[calls[i].load])
      modifies this
      ensures Snapshot() == ResumeStep(old(Snapshot()), i) == Step(callers, old(Snapshot()), Resume(i))
    {
      var key, load := calls[i].key, calls[i].load;
      if calls[i].Owning? && key in inFlight && inFlight[key] == load {
        inFlight := inFlight - {key};
      }
      calls := calls[i := if loads[load].Resolved? then Answered(key, loads[load].value, false) else Threw(key)];
    }

    /** `loadAndWriteJson` when the loader has returned: write the text unless told to skip. */
    method WriteValue(l: nat, ok: bool)
      requires l < |loads| && loads[l].Loaded?
      modifies `redis, `loads
      ensures Snapshot() == Step(callers, old(Snapshot()), WriteBack(l, ok))
    {
      var key, value := loads[l].key, loads[l].value;
      if !callers.skip(value) && ok {
        redis := redis[key := Parsable(callers.readBack(value))];
        loads := loads[l := Stored(key, value)];
      } else {
        loads := loads[l := Resolved(key, value)];
      }
    }

    /** `loadAndWriteJson`: the loader runs, then the value is written, then the promise settles. */
    method LoadAndWrite(l: nat, luck: Luck)
      requires l < |loads| && loads[l].Running?
      modifies `redis, `loads
      ensures var (key, value) := (old(loads[l].key), callers.load(old(loads[l].key)));
              && loads == old(loads)[l := if luck.load then Resolved(key, value) else Rejected(key)]
              && redis == if !luck.load || callers.skip(value) || !luck.write then old(redis)
                          else old(redis)[key := Parsable(callers.readBack(value))]
    {
      var key := loads[l].key;
      if !luck.load {
        loads := loads[l := Rejected(key)];
        return;
      }
      var value := callers.load(key);
      loads := loads[l := Loaded(key, value)];
      WriteValue(l, luck.write);
      loads := loads[l := Resolved(key, value)];
    }

    /** The answer from the cache; without one, an unparsable text is deleted. */
    method ReadCached(key: Key, luck: Luck) returns (call: Call<V>)
      modifies `redis
      ensures redis == AfterRead(old(redis), key, luck)
      ensures call == if luck.read && key in old(redis) && old(redis)[key].Parsable?
                      then Answered(key, old(redis)[key].value, true) else Joining(key)
    {
      if luck.read && key in redis {
        match redis[key]
        case Parsable(value) =>
          return Answered(key, value, true);
        case Corrupt =>
          if luck.drop {
            redis := redis - {key};
          }
      }
      return Joining(key);
    }

    /** From a miss to the answer, or to the wait for a load that another call started. */
    method AwaitLoad(i: nat, luck: Luck)
      requires i < |calls| && calls[i].Joining?
      modifies this
      ensures i < |calls| && (redis, calls[i]) == LoadOutcome(callers, old(Snapshot()), old(calls[i].key), luck)
      ensures inFlight == old(inFlight) && calls == old(calls)[i := calls[i]]
    {
      hide Step;
      var l := |loads|;
      JoinOrStart(i);
      if calls[i].Owning? {
        LoadAndWrite(l, luck);
      }
      if calls[i].load < |loads| && Settled(loads[calls[i].load]) {
        ResumeCall(i);
      }
    }

    /** One call, from its `GET`. */
    method RememberJson(key: Key, luck: Luck) returns (call: Call<V>)
      modifies this
      ensures (redis, call) == RememberOutcome(callers, old(Snapshot()), key, luck)
      ensures inFlight == old(inFlight) && calls == old(calls) + [call]
    {
      var i := |calls|;
      call := ReadCached(key, luck);
      calls := calls + [call];
      if call.Joining? {
        AwaitLoad(i, luck);
        call := calls[i];
      }
    }
  }
}
