/**
 * `mapLimit`: a bounded pool of workers that share one cursor. A worker runs without interruption from
 * one `await` to the next, so a schedule is the order in which the handlers' promises settle.
 */
module WorkerPool {
  import opened Prelude

  /** `Waiting(i)` awaits the handler of item i; `Finished` left its loop; `Broken` saw a rejection. */
  datatype Worker = Waiting(index: nat) | Finished | Broken

  /** `outcomes[i]` is what the handler of item i settles to: a result, or `None` for a rejection. */
  datatype Pool<R> = Pool(
    outcomes: seq<Option<R>>,
    cursor: nat,
    workers: seq<Worker>,
    output: seq<Option<R>>,
    claims: seq<nat>)

  function Min(a: int, b: int): int {
    if a < b then a else b
  }

  // ---------------------------------------------------------------- the pool as a step system

  function Unset<R>(n: nat): seq<Option<R>> {
    seq(n, i => None)
  }

  /** The loop test and the claim of the next index, executed by one worker without an await between. */
  function Claim<R>(p: Pool<R>): (Pool<R>, Worker) {
    if p.cursor < |p.outcomes| then
      (p.(cursor := p.cursor + 1, claims := p.claims + [p.cursor]), Waiting(p.cursor))
    else (p, Finished)
  }

  function AddWorker<R>(p: Pool<R>): Pool<R> {
    var (q, w) := Claim(p);
    q.(workers := q.workers + [w])
  }

  function AddWorkers<R>(p: Pool<R>, count: nat): Pool<R> {
    if count == 0 then p else AddWorker(AddWorkers(p, count - 1))
  }

  /** The state right after the workers were created; each ran up to its first await. */
  function Launch<R>(outcomes: seq<Option<R>>, limit: int): Pool<R> {
    var count := Min(limit, |outcomes|);
    AddWorkers(Pool(outcomes, 0, [], Unset(|outcomes|), []), if count < 0 then 0 else count)
  }

  predicate Awaits<R>(p: Pool<R>, w: nat) {
    w < |p.workers| && p.workers[w].Waiting? && p.workers[w].index < |p.outcomes| && |p.output| == |p.outcomes|
  }

  /** The promise worker `w` awaits settles; nothing happens if it awaits none. */
  function Settle<R>(p: Pool<R>, w: nat): Pool<R> {
    if !Awaits(p, w) then p else
    var index := p.workers[w].index;
    match p.outcomes[index]
    case None => p.(workers := p.workers[w := Broken])
    case Some(_) =>
      var (q, next) := Claim(p.(output := p.output[index := p.outcomes[index]]));
      q.(workers := q.workers[w := next])
  }

  function Run<R>(p: Pool<R>, schedule: seq<nat>): Pool<R> {
    if schedule == [] then p
    else Settle(Run(p, schedule[..|schedule| - 1]), schedule[|schedule| - 1])
  }

  /** The workers that have a handler in flight. */
  function InFlight<R>(p: Pool<R>): set<nat> {
    set w | 0 <= w < |p.workers| && p.workers[w].Waiting?
  }

  predicate Quiescent<R>(p: Pool<R>) {
    forall w | 0 <= w < |p.workers| :: !p.workers[w].Waiting?
  }

  /** `Promise.all(workers)` fulfils: every worker left its loop. */
  predicate Fulfilled<R>(p: Pool<R>) {
    forall w | 0 <= w < |p.workers| :: p.workers[w].Finished?
  }

  // ---------------------------------------------------------------- the invariant

  ghost predicate Inv<R>(p: Pool<R>) {
    && |p.output| == |p.outcomes|
    && p.cursor <= |p.outcomes|
    && |p.claims| == p.cursor
    && (forall i | 0 <= i < p.cursor :: p.claims[i] == i)
    && (forall w | 0 <= w < |p.workers| && p.workers[w].Waiting? :: p.workers[w].index < p.cursor)
    && (forall v, w | 0 <= v < w < |p.workers| && p.workers[v].Waiting? && p.workers[w].Waiting? ::
          p.workers[v].index != p.workers[w].index)
    && (forall w | 0 <= w < |p.workers| && p.workers[w].Finished? :: p.cursor == |p.outcomes|)
    && Bookkeeping(p)
  }

  predicate WaitsFor<R>(p: Pool<R>, w: nat, i: nat) {
    w < |p.workers| && p.workers[w] == Waiting(i)
  }

  /** A claimed index is awaited, or rejected, or its result is in place; an unclaimed one has no result. */
  ghost predicate Bookkeeping<R>(p: Pool<R>)
    requires |p.output| == |p.outcomes|
  {
    && (forall i | 0 <= i < p.cursor && i < |p.outcomes| && p.outcomes[i].Some? ::
          (exists w :: WaitsFor(p, w, i)) || p.output[i] == p.outcomes[i])
    && (forall i | 0 <= i < p.cursor && i < |p.outcomes| && p.outcomes[i].None? ::
          (exists w :: WaitsFor(p, w, i)) || exists w | 0 <= w < |p.workers| :: p.workers[w].Broken?)
    && (forall i | 0 <= i < |p.outcomes| :: p.output[i] == None || p.output[i] == p.outcomes[i])
    && (forall i | p.cursor <= i < |p.outcomes| :: p.output[i] == None)
  }

  lemma AddWorkerKeepsInv<R>(p: Pool<R>)
    requires Inv(p)
    ensures Inv(AddWorker(p))
  {
    var q := AddWorker(p);
    forall i, w | WaitsFor(p, w, i) ensures WaitsFor(q, w, i) {}
    forall w | 0 <= w < |p.workers| ensures q.workers[w] == p.workers[w] {}
    if p.cursor < |p.outcomes| {
      assert WaitsFor(q, |p.workers|, p.cursor);
    }
  }

  lemma {:induction false} AddWorkersKeepInv<R>(p: Pool<R>, count: nat)
    requires Inv(p)
    ensures Inv(AddWorkers(p, count))
    ensures |AddWorkers(p, count).workers| == |p.workers| + count
    ensures AddWorkers(p, count).outcomes == p.outcomes
    ensures count <= |p.outcomes| - p.cursor ==> AddWorkers(p, count).cursor == p.cursor + count
  {
    if count > 0 {
      AddWorkersKeepInv(p, count - 1);
      AddWorkerKeepsInv(AddWorkers(p, count - 1));
    }
  }

  lemma LaunchEstablishesInv<R>(outcomes: seq<Option<R>>, limit: int)
    ensures var p := Launch(outcomes, limit);
            && Inv(p) && p.outcomes == outcomes
            && |p.workers| == p.cursor == if Min(limit, |outcomes|) < 0 then 0 else Min(limit, |outcomes|)
  {
    var count := Min(limit, |outcomes|);
    AddWorkersKeepInv(Pool(outcomes, 0, [], Unset(|outcomes|), []), if count < 0 then 0 else count);
  }

  lemma SettleKeepsInv<R>(p: Pool<R>, w: nat)
    requires Inv(p)
    ensures Inv(Settle(p, w))
    ensures Settle(p, w).outcomes == p.outcomes && |Settle(p, w).workers| == |p.workers|
  {
    if Awaits(p, w) {
      var q := Settle(p, w);
      var index := p.workers[w].index;
      forall i, v | WaitsFor(p, v, i) && v != w ensures WaitsFor(q, v, i) {}
      forall v | 0 <= v < |p.workers| && v != w ensures q.workers[v] == p.workers[v] {}
      if p.outcomes[index].Some? && p.cursor < |p.outcomes| {
        assert WaitsFor(q, w, p.cursor);
      }
    }
  }

  lemma {:induction false} RunKeepsInv<R>(p: Pool<R>, schedule: seq<nat>)
    requires Inv(p)
    ensures Inv(Run(p, schedule))
    ensures Run(p, schedule).outcomes == p.outcomes && |Run(p, schedule).workers| == |p.workers|
  {
    if schedule != [] {
      RunKeepsInv(p, schedule[..|schedule| - 1]);
      SettleKeepsInv(Run(p, schedule[..|schedule| - 1]), schedule[|schedule| - 1]);
    }
  }

  // ---------------------------------------------------------------- main results

  function Below(n: nat): (r: set<nat>)
    ensures forall w: nat :: w in r <==> w < n
    ensures |r| == n
  {
    if n == 0 then {} else Below(n - 1) + {n - 1}
  }

  /** Under every schedule no index is claimed twice, and at most min(limit, n) handlers are in flight. */
  lemma ClaimsOnceAndBounded<R>(outcomes: seq<Option<R>>, limit: int, schedule: seq<nat>)
    ensures var p := Run(Launch(outcomes, limit), schedule);
            && Distinct(p.claims)
            && (forall i :: i in p.claims <==> 0 <= i < p.cursor)
            && p.cursor <= |outcomes|
            && (limit >= 0 ==> |InFlight(p)| <= limit) && |InFlight(p)| <= |outcomes|
            && (limit < 0 ==> InFlight(p) == {})
  {
    LaunchEstablishesInv(outcomes, limit);
    var start := Launch(outcomes, limit);
    RunKeepsInv(start, schedule);
    var p := Run(start, schedule);
    assert forall i | 0 <= i < p.cursor :: p.claims[i] == i;
    forall i ensures i in p.claims <==> 0 <= i < p.cursor {
      if 0 <= i < p.cursor {
        assert p.claims[i] == i;
      }
    }
    SubsetCardinality(InFlight(p), Below(|p.workers|));
  }

  /** While items wait to be claimed and nothing was rejected, as many handlers are in flight as the limit allows. */
  lemma PoolIsFull<R>(outcomes: seq<Option<R>>, limit: int, schedule: seq<nat>)
    requires limit >= 0
    requires var p := Run(Launch(outcomes, limit), schedule); p.cursor < |outcomes| && forall w | 0 <= w < |p.workers| :: !p.workers[w].Broken?
    ensures |InFlight(Run(Launch(outcomes, limit), schedule))| == if limit < |outcomes| then limit else |outcomes|
  {
    LaunchEstablishesInv(outcomes, limit);
    RunKeepsInv(Launch(outcomes, limit), schedule);
    var p := Run(Launch(outcomes, limit), schedule);
    assert InFlight(p) == Below(|p.workers|);
  }

  /** Unclaimed items plus handlers in flight. */
  function Measure<R>(p: Pool<R>): int {
    |p.outcomes| - p.cursor + |InFlight(p)|
  }

  /** Every settling promise brings the run strictly closer to its end, which it cannot overshoot. */
  lemma SettlingTerminates<R>(p: Pool<R>, w: nat)
    requires Inv(p) && Awaits(p, w)
    ensures 0 <= Measure(Settle(p, w)) < Measure(p)
  {
    var q := Settle(p, w);
    if q.workers[w].Waiting? {
      assert InFlight(q) == InFlight(p);
    } else {
      assert InFlight(q) == InFlight(p) - {w};
      assert w in InFlight(p);
    }
  }

  /** Every event of the schedule settles a promise some worker awaits. */
  ghost predicate AllEffective<R>(p: Pool<R>, schedule: seq<nat>) {
    forall k | 0 <= k < |schedule| :: Awaits(Run(p, schedule[..k]), schedule[k])
  }

  /** So a run ends after at most one settlement per item, in whatever order promises settle. */
  lemma RunsAreFinite<R>(outcomes: seq<Option<R>>, limit: int, schedule: seq<nat>)
    requires AllEffective(Launch(outcomes, limit), schedule)
    ensures |schedule| <= |outcomes|
  {
    var start := Launch(outcomes, limit);
    LaunchEstablishesInv(outcomes, limit);
    SubsetCardinality(InFlight(start), Below(|start.workers|));
    MeasureFalls(start, schedule);
  }

  lemma {:induction false} MeasureFalls<R>(p: Pool<R>, schedule: seq<nat>)
    requires Inv(p) && AllEffective(p, schedule)
    ensures 0 <= Measure(Run(p, schedule)) <= Measure(p) - |schedule|
  {
    if schedule != [] {
      var k := |schedule| - 1;
      assert forall i | 0 <= i < k :: schedule[..k][..i] == schedule[..i];
      MeasureFalls(p, schedule[..k]);
      RunKeepsInv(p, schedule[..k]);
      assert Awaits(Run(p, schedule[..k]), schedule[k]);
      hide Settle, Inv, Measure, Awaits;
      SettlingTerminates(Run(p, schedule[..k]), schedule[k]);
    }
  }

  /**
   * When all workers have left their loops, output[i] is the handler's result for item i at every i,
   * provided the limit admits a worker at all: exactly when limit >= 1 or there are no items.
   */
  lemma FulfilledOutput<R>(outcomes: seq<Option<R>>, limit: int, schedule: seq<nat>)
    requires Fulfilled(Run(Launch(outcomes, limit), schedule))
    ensures var p := Run(Launch(outcomes, limit), schedule);
            var complete := p.output == outcomes && p.cursor == |outcomes| && forall o | o in outcomes :: o.Some?;
            complete <==> limit >= 1 || outcomes == []
  {
    LaunchEstablishesInv(outcomes, limit);
    var start := Launch(outcomes, limit);
    RunKeepsInv(start, schedule);
    var p := Run(start, schedule);
    if limit >= 1 && outcomes != [] {
      assert p.workers[0].Finished?;
      assert forall i, w :: !WaitsFor(p, w, i);
    } else if outcomes != [] {
      assert |p.workers| == 0 && p.cursor <= |outcomes|;
      NoWorkersNoClaims(start, schedule);
    }
  }

  lemma {:induction false} NoWorkersNoClaims<R>(p: Pool<R>, schedule: seq<nat>)
    requires p.workers == []
    ensures Run(p, schedule) == p
  {
    if schedule != [] {
      NoWorkersNoClaims(p, schedule[..|schedule| - 1]);
    }
  }

  /** If no handler rejects, a run in which nothing is left to settle has fulfilled. */
  lemma QuiescentFulfils<R>(outcomes: seq<Option<R>>, limit: int, schedule: seq<nat>)
    requires forall o | o in outcomes :: o.Some?
    requires Quiescent(Run(Launch(outcomes, limit), schedule))
    ensures Fulfilled(Run(Launch(outcomes, limit), schedule))
  {
    LaunchEstablishesInv(outcomes, limit);
    AddWorkersUnbroken(Pool(outcomes, 0, [], Unset(|outcomes|), []), |Launch(outcomes, limit).workers|);
    RunUnbroken(Launch(outcomes, limit), schedule);
  }

  predicate Unbroken<R>(p: Pool<R>) {
    forall w | 0 <= w < |p.workers| :: !p.workers[w].Broken?
  }

  lemma {:induction false} AddWorkersUnbroken<R>(p: Pool<R>, count: nat)
    requires Unbroken(p)
    ensures Unbroken(AddWorkers(p, count))
  {
    if count > 0 {
      AddWorkersUnbroken(p, count - 1);
    }
  }

  lemma {:induction false} RunUnbroken<R>(p: Pool<R>, schedule: seq<nat>)
    requires Inv(p) && Unbroken(p) && forall o | o in p.outcomes :: o.Some?
    ensures Unbroken(Run(p, schedule))
  {
    if schedule != [] {
      RunUnbroken(p, schedule[..|schedule| - 1]);
      RunKeepsInv(p, schedule[..|schedule| - 1]);
      var q := Run(p, schedule[..|schedule| - 1]);
      var w := schedule[|schedule| - 1];
      if Awaits(q, w) {
        assert q.outcomes[q.workers[w].index] in p.outcomes;
      }
    }
  }

  // ---------------------------------------------------------------- the program

  /** The closure of one `mapLimit` call: the output buffer, the shared cursor, and the workers. */
  class MapLimit<R(==)> {
    const outcomes: seq<Option<R>>
    const output: array<Option<R>>
    var cursor: nat
    var workers: seq<Worker>
    ghost var claims: seq<nat>

    ghost predicate Valid()
      reads this, output
    {
      && output.Length == |outcomes|
      && Inv(Snapshot())
    }

    ghost function Snapshot(): Pool<R>
      reads this, output
    {
      Pool(outcomes, cursor, workers, output[..], claims)
    }

    constructor (outcomes: seq<Option<R>>, limit: int)
      ensures Valid() && fresh(output)
      ensures Snapshot() == Launch(outcomes, limit)
    {
      this.outcomes := outcomes;
      output := new Option<R>[|outcomes|](_ => None);
      cursor := 0;
      workers := [];
      claims := [];
      new;
      var count := if Min(limit, |outcomes|) < 0 then 0 else Min(limit, |outcomes|);
      ghost var start := Pool(outcomes, 0, [], Unset(|outcomes|), []);
      assert output[..] == Unset(|outcomes|);
      var created := 0;
      while created < count
        invariant 0 <= created <= count
        invariant Snapshot() == AddWorkers(start, created)
        modifies `cursor, `workers, `claims
      {
        var worker := Next();
        workers := workers + [worker];
        created := created + 1;
      }
      LaunchEstablishesInv(outcomes, limit);
    }

    /** `while (cursor < items.length) { index = cursor; cursor += 1; ... await }`, up to the await. */
    method Next() returns (worker: Worker)
      modifies `cursor, `claims
      ensures (Snapshot(), worker) == Claim(old(Snapshot()))
    {
      if cursor < |outcomes| {
        worker := Waiting(cursor);
        claims := claims + [cursor];
        cursor := cursor + 1;
      } else {
        worker := Finished;
      }
    }

    /** The continuation of worker `w` when its handler's promise settles. */
    method Resume(w: nat)
      requires Valid() && w < |workers| && workers[w].Waiting?
      modifies this, output
      ensures Valid()
      ensures Snapshot() == Settle(old(Snapshot()), w)
    {
      SettleKeepsInv(Snapshot(), w);
      var index := workers[w].index;
      if outcomes[index].None? {
        workers := workers[w := Broken];
      } else {
        output[index] := outcomes[index];
        assert output[..] == old(output[..])[index := outcomes[index]];
        var next := Next();
        workers := workers[w := next];
      }
    }
  }
}
