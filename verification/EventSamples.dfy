/** Event studies: trading windows, returns, and the accounting for every exclusion. */
module EventSamples {
  import opened Prelude
  import opened EventWindows

  datatype Reason = MaxSamplesLimit | WindowOutOfRange | StockReturnMissing | BenchmarkReturnMissing

  datatype Windowed = Windowed(event: Event, tradeDate: Day, days: seq<Day>)

  /** Everything the study reads besides the events. */
  datatype Market = Market(tradeDays: seq<Day>, stock: map<(Event, Day), real>, benchmark: map<Day, real>)

  /** The window of an event, if the calendar holds all of it. */
  function Place(m: Market, pre: nat, post: nat, e: Event): Option<Windowed> {
    var i := FindIndex(m.tradeDays, e.date);
    if i < pre || i < 0 || i + post >= |m.tradeDays| then None
    else Some(Windowed(e, m.tradeDays[i], m.tradeDays[i - pre..i + post + 1]))
  }

  /** What a placed event lacks: a stock return first, then a benchmark return. */
  function Lacks(m: Market, w: Windowed): Option<Reason> {
    if exists j | 0 <= j < |w.days| :: (w.event, w.days[j]) !in m.stock then Some(StockReturnMissing)
    else if exists j | 0 <= j < |w.days| :: w.days[j] !in m.benchmark then Some(BenchmarkReturnMissing)
    else None
  }

  function Placed(m: Market, pre: nat, post: nat, events: seq<Event>): seq<Windowed> {
    if events == [] then []
    else
      var w := Place(m, pre, post, events[|events| - 1]);
      Placed(m, pre, post, events[..|events| - 1]) + if w.Some? then [w.value] else []
  }

  function Complete(m: Market, windowed: seq<Windowed>): seq<Windowed> {
    if windowed == [] then []
    else
      var w := windowed[|windowed| - 1];
      Complete(m, windowed[..|windowed| - 1]) + if Lacks(m, w).None? then [w] else []
  }

  function CountLacking(m: Market, windowed: seq<Windowed>, reason: Reason): nat {
    if windowed == [] then 0
    else
      CountLacking(m, windowed[..|windowed| - 1], reason)
      + if Lacks(m, windowed[|windowed| - 1]) == Some(reason) then 1 else 0
  }

  function Get(reasons: map<Reason, nat>, reason: Reason): nat {
    if reason in reasons then reasons[reason] else 0
  }

  /** The sum over all reasons present. */
  function Total(reasons: map<Reason, nat>): nat {
    Get(reasons, MaxSamplesLimit) + Get(reasons, WindowOutOfRange)
    + Get(reasons, StockReturnMissing) + Get(reasons, BenchmarkReturnMissing)
  }

  function Increment(reasons: map<Reason, nat>, reason: Reason): map<Reason, nat> {
    reasons[reason := Get(reasons, reason) + 1]
  }

  datatype Study = Study(sampleCount: nat, excluded: nat, reasons: map<Reason, nat>, samples: seq<Windowed>, truncated: bool)

  datatype Failure = NoEvents | NoCalendar | NoWindow | TooFewSamples

  const EXTRACT_LIMIT := 10000

  lemma {:induction false} LackingCounted(m: Market, windowed: seq<Windowed>)
    ensures |Complete(m, windowed)| + CountLacking(m, windowed, StockReturnMissing)
            + CountLacking(m, windowed, BenchmarkReturnMissing) == |windowed|
  {
    if windowed != [] {
      LackingCounted(m, windowed[..|windowed| - 1]);
    }
  }

  lemma {:induction false} PlacedMember(m: Market, pre: nat, post: nat, events: seq<Event>, w: Windowed)
    ensures w in Placed(m, pre, post, events) <==> w.event in events && Place(m, pre, post, w.event) == Some(w)
    decreases events
  {
    if events != [] {
      var init, e := events[..|events| - 1], events[|events| - 1];
      PlacedMember(m, pre, post, init, w);
      assert events == init + [e];
    }
  }

  lemma {:induction false} CompleteMember(m: Market, windowed: seq<Windowed>, w: Windowed)
    ensures w in Complete(m, windowed) <==> w in windowed && Lacks(m, w).None?
    decreases windowed
  {
    if windowed != [] {
      var init, last := windowed[..|windowed| - 1], windowed[|windowed| - 1];
      CompleteMember(m, init, w);
      assert windowed == init + [last];
    }
  }

  // ---------------------------------------------------------------- what becomes of an event

  /** The window of `e` starts there: the day at offset `pre` is the first trade day not before the event. */
  predicate StartsAt(m: Market, pre: nat, post: nat, e: Event, start: nat) {
    && start + pre + post < |m.tradeDays|
    && e.date <= m.tradeDays[start + pre] && (forall i | 0 <= i < start + pre :: m.tradeDays[i] < e.date)
  }

  ghost predicate OutOfRange(m: Market, pre: nat, post: nat, e: Event) {
    forall start: nat :: !StartsAt(m, pre, post, e, start)
  }

  /** On one of these `n` trade days the event has no stock return. */
  predicate LacksStock(m: Market, e: Event, start: nat, n: nat)
    requires start + n <= |m.tradeDays|
  {
    exists i | start <= i < start + n :: (e, m.tradeDays[i]) !in m.stock
  }

  /** On one of them the benchmark has no return. */
  predicate LacksBenchmark(m: Market, start: nat, n: nat)
    requires start + n <= |m.tradeDays|
  {
    exists i | start <= i < start + n :: m.tradeDays[i] !in m.benchmark
  }

  /** The event lacks a stock return in its window. */
  ghost predicate StockGap(m: Market, pre: nat, post: nat, e: Event) {
    exists start: nat :: StartsAt(m, pre, post, e, start) && LacksStock(m, e, start, pre + post + 1)
  }

  /** The event has all its stock returns, but lacks one of the benchmark. */
  ghost predicate BenchmarkGap(m: Market, pre: nat, post: nat, e: Event) {
    exists start: nat ::
      StartsAt(m, pre, post, e, start) && !LacksStock(m, e, start, pre + post + 1) && LacksBenchmark(m, start, pre + post + 1)
  }

  /** The window of the event starts there, and lacks no return. */
  predicate FullAt(m: Market, pre: nat, post: nat, e: Event, start: nat) {
    StartsAt(m, pre, post, e, start) && !LacksStock(m, e, start, pre + post + 1) && !LacksBenchmark(m, start, pre + post + 1)
  }

  ghost predicate Full(m: Market, pre: nat, post: nat, e: Event) {
    exists start: nat :: FullAt(m, pre, post, e, start)
  }

  lemma OneStart(m: Market, pre: nat, post: nat, e: Event, start: nat)
    requires StartsAt(m, pre, post, e, start)
    ensures FindIndex(m.tradeDays, e.date) == start + pre
    ensures forall other: nat :: StartsAt(m, pre, post, e, other) <==> other == start
  {
    FirstIndexIs(m.tradeDays, e.date, start + pre);
    forall other: nat | StartsAt(m, pre, post, e, other) ensures other == start {
      FirstIndexIs(m.tradeDays, e.date, other + pre);
    }
  }

  /** An event without a place is out of range; a placed one starts where its window does. */
  lemma PlaceMeaning(m: Market, pre: nat, post: nat, e: Event)
    ensures Place(m, pre, post, e).None? <==> OutOfRange(m, pre, post, e)
    ensures Place(m, pre, post, e).Some? ==>
              var (w, start) := (Place(m, pre, post, e).value, FindIndex(m.tradeDays, e.date) - pre);
              && start >= 0 && StartsAt(m, pre, post, e, start)
              && w == Windowed(e, m.tradeDays[start + pre], m.tradeDays[start..start + pre + post + 1])
  {
    var i := FindIndex(m.tradeDays, e.date);
    FindIndexMeaning(m.tradeDays, e.date);
    hide FindIndex;
    if Place(m, pre, post, e).Some? {
      assert StartsAt(m, pre, post, e, i - pre);
    } else {
      forall start: nat ensures !StartsAt(m, pre, post, e, start) {
        if StartsAt(m, pre, post, e, start) {
          OneStart(m, pre, post, e, start);
        }
      }
    }
  }

  /** What a window of `n` trade days lacks. */
  lemma LacksIn(m: Market, w: Windowed, start: nat, n: nat)
    requires start + n <= |m.tradeDays| && w.days == m.tradeDays[start..start + n]
    ensures Lacks(m, w) ==
            if LacksStock(m, w.event, start, n) then Some(StockReturnMissing)
            else if LacksBenchmark(m, start, n) then Some(BenchmarkReturnMissing)
            else None
  {
    forall i | start <= i < start + n ensures m.tradeDays[i] == w.days[i - start] {
    }
    forall j | 0 <= j < |w.days| ensures w.days[j] == m.tradeDays[start + j] {
    }
  }

  /** What a placed event lacks, said of the trade days. */
  lemma LacksMeaning(m: Market, pre: nat, post: nat, e: Event)
    requires Place(m, pre, post, e).Some?
    ensures var lacking := Lacks(m, Place(m, pre, post, e).value);
            && (lacking == Some(StockReturnMissing) <==> StockGap(m, pre, post, e))
            && (lacking == Some(BenchmarkReturnMissing) <==> BenchmarkGap(m, pre, post, e))
            && (lacking == None <==> Full(m, pre, post, e))
  {
    PlaceMeaning(m, pre, post, e);
    var w, start: nat := Place(m, pre, post, e).value, FindIndex(m.tradeDays, e.date) - pre;
    OneStart(m, pre, post, e, start);
    LacksIn(m, w, start, pre + post + 1);
    hide FindIndex, Place, StartsAt, Lacks, LacksStock, LacksBenchmark;
    assert FullAt(m, pre, post, e, start) <==> Lacks(m, w).None?;
  }

  /** Of every event exactly one of these is true. */
  lemma EachEventOnce(m: Market, pre: nat, post: nat, e: Event)
    ensures OutOfRange(m, pre, post, e) <==> !StockGap(m, pre, post, e) && !BenchmarkGap(m, pre, post, e) && !Full(m, pre, post, e)
    ensures !(StockGap(m, pre, post, e) && BenchmarkGap(m, pre, post, e))
    ensures !(StockGap(m, pre, post, e) && Full(m, pre, post, e))
    ensures !(BenchmarkGap(m, pre, post, e) && Full(m, pre, post, e))
  {
    PlaceMeaning(m, pre, post, e);
    if Place(m, pre, post, e).Some? {
      LacksMeaning(m, pre, post, e);
    }
  }

  // ---------------------------------------------------------------- how many there are of each

  ghost function AllOutOfRange(m: Market, pre: nat, post: nat, events: seq<Event>): set<Event> {
    set e | e in events && OutOfRange(m, pre, post, e)
  }

  ghost function AllStockGaps(m: Market, pre: nat, post: nat, events: seq<Event>): set<Event> {
    set e | e in events && StockGap(m, pre, post, e)
  }

  ghost function AllBenchmarkGaps(m: Market, pre: nat, post: nat, events: seq<Event>): set<Event> {
    set e | e in events && BenchmarkGap(m, pre, post, e)
  }

  ghost function AllFull(m: Market, pre: nat, post: nat, events: seq<Event>): set<Event> {
    set e | e in events && Full(m, pre, post, e)
  }

  lemma NextPlaced(m: Market, pre: nat, post: nat, init: seq<Event>, e: Event)
    ensures var w := Place(m, pre, post, e);
            Placed(m, pre, post, init + [e]) == Placed(m, pre, post, init) + if w.Some? then [w.value] else []
  {
    assert (init + [e])[..|init|] == init;
  }

  lemma NextWindow(m: Market, windowed: seq<Windowed>, w: Windowed)
    ensures |Complete(m, windowed + [w])| == |Complete(m, windowed)| + if Lacks(m, w).None? then 1 else 0
    ensures forall reason ::
              CountLacking(m, windowed + [w], reason) == CountLacking(m, windowed, reason) + if Lacks(m, w) == Some(reason) then 1 else 0
  {
    assert (windowed + [w])[..|windowed|] == windowed;
  }

  /** What one event adds to the lists. */
  lemma OneMore(m: Market, pre: nat, post: nat, init: seq<Event>, e: Event)
    ensures var (placed, before) := (Placed(m, pre, post, init + [e]), Placed(m, pre, post, init));
            && |placed| == |before| + (if OutOfRange(m, pre, post, e) then 0 else 1)
            && CountLacking(m, placed, StockReturnMissing) ==
               CountLacking(m, before, StockReturnMissing) + (if StockGap(m, pre, post, e) then 1 else 0)
            && CountLacking(m, placed, BenchmarkReturnMissing) ==
               CountLacking(m, before, BenchmarkReturnMissing) + (if BenchmarkGap(m, pre, post, e) then 1 else 0)
            && |Complete(m, placed)| == |Complete(m, before)| + if Full(m, pre, post, e) then 1 else 0
  {
    EachEventOnce(m, pre, post, e);
    PlaceMeaning(m, pre, post, e);
    NextPlaced(m, pre, post, init, e);
    hide OutOfRange, StockGap, BenchmarkGap, Full, Lacks, Place, Placed, Complete, CountLacking;
    var before := Placed(m, pre, post, init);
    if Place(m, pre, post, e).Some? {
      LacksMeaning(m, pre, post, e);
      NextWindow(m, before, Place(m, pre, post, e).value);
    } else {
      assert before + [] == before;
    }
  }

  /** The lists hold as many windows as there are events of each kind. */
  ghost predicate Tally(m: Market, pre: nat, post: nat, events: seq<Event>) {
    var placed := Placed(m, pre, post, events);
    && |placed| + |AllOutOfRange(m, pre, post, events)| == |events|
    && CountLacking(m, placed, StockReturnMissing) == |AllStockGaps(m, pre, post, events)|
    && CountLacking(m, placed, BenchmarkReturnMissing) == |AllBenchmarkGaps(m, pre, post, events)|
    && |Complete(m, placed)| == |AllFull(m, pre, post, events)|
  }

  lemma TallyGrows(m: Market, pre: nat, post: nat, init: seq<Event>, e: Event)
    requires Tally(m, pre, post, init) && e !in init
    ensures Tally(m, pre, post, init + [e])
  {
    OneMore(m, pre, post, init, e);
    OneMoreOutOfRange(m, pre, post, init, e);
    OneMoreStockGap(m, pre, post, init, e);
    OneMoreBenchmarkGap(m, pre, post, init, e);
    OneMoreFull(m, pre, post, init, e);
    hide OutOfRange, StockGap, BenchmarkGap, Full, Placed, Complete, CountLacking;
    hide AllOutOfRange, AllStockGaps, AllBenchmarkGaps, AllFull;
  }

  lemma {:induction false} Tallies(m: Market, pre: nat, post: nat, events: seq<Event>)
    requires Distinct(events)
    ensures Tally(m, pre, post, events)
  {
    if events == [] {
      assert AllOutOfRange(m, pre, post, events) == AllStockGaps(m, pre, post, events) == {};
      assert AllBenchmarkGaps(m, pre, post, events) == AllFull(m, pre, post, events) == {};
    } else {
      var init, e := events[..|events| - 1], events[|events| - 1];
      Tallies(m, pre, post, init);
      hide Tally;
      TallyGrows(m, pre, post, init, e);
      assert init + [e] == events;
    }
  }

  lemma Grown<T>(before: set<T>, after: set<T>, e: T, added: bool)
    requires e !in before && after == before + if added then {e} else {}
    ensures |after| == |before| + if added then 1 else 0
  {
  }

  lemma OneMoreOutOfRange(m: Market, pre: nat, post: nat, init: seq<Event>, e: Event)
    requires e !in init
    ensures |AllOutOfRange(m, pre, post, init + [e])| == |AllOutOfRange(m, pre, post, init)| + if OutOfRange(m, pre, post, e) then 1 else 0
  {
    hide OutOfRange;
    Grown(AllOutOfRange(m, pre, post, init), AllOutOfRange(m, pre, post, init + [e]), e, OutOfRange(m, pre, post, e));
  }

  lemma OneMoreStockGap(m: Market, pre: nat, post: nat, init: seq<Event>, e: Event)
    requires e !in init
    ensures |AllStockGaps(m, pre, post, init + [e])| == |AllStockGaps(m, pre, post, init)| + if StockGap(m, pre, post, e) then 1 else 0
  {
    hide StockGap;
    Grown(AllStockGaps(m, pre, post, init), AllStockGaps(m, pre, post, init + [e]), e, StockGap(m, pre, post, e));
  }

  lemma OneMoreBenchmarkGap(m: Market, pre: nat, post: nat, init: seq<Event>, e: Event)
    requires e !in init
    ensures |AllBenchmarkGaps(m, pre, post, init + [e])| == |AllBenchmarkGaps(m, pre, post, init)| + if BenchmarkGap(m, pre, post, e) then 1 else 0
  {
    hide BenchmarkGap;
    Grown(AllBenchmarkGaps(m, pre, post, init), AllBenchmarkGaps(m, pre, post, init + [e]), e, BenchmarkGap(m, pre, post, e));
  }

  lemma OneMoreFull(m: Market, pre: nat, post: nat, init: seq<Event>, e: Event)
    requires e !in init
    ensures |AllFull(m, pre, post, init + [e])| == |AllFull(m, pre, post, init)| + if Full(m, pre, post, e) then 1 else 0
  {
    hide Full;
    Grown(AllFull(m, pre, post, init), AllFull(m, pre, post, init + [e]), e, Full(m, pre, post, e));
  }

  /** A sample of the study: a selected event and the days of its window, all returns there. */
  ghost predicate GoodSample(m: Market, pre: nat, post: nat, selected: seq<Event>, w: Windowed) {
    && w.event in selected
    && exists start: nat :: FullAt(m, pre, post, w.event, start)
         && w.tradeDate == m.tradeDays[start + pre] && w.days == m.tradeDays[start..start + pre + post + 1]
  }

  /** The samples are exactly the selected events whose windows are complete. */
  lemma SamplesAreGood(m: Market, pre: nat, post: nat, selected: seq<Event>, w: Windowed)
    ensures w in Complete(m, Placed(m, pre, post, selected)) <==> GoodSample(m, pre, post, selected, w)
  {
    CompleteMember(m, Placed(m, pre, post, selected), w);
    PlacedMember(m, pre, post, selected, w);
    hide Complete, Placed;
    var e := w.event;
    PlaceMeaning(m, pre, post, e);
    if Place(m, pre, post, e).Some? {
      LacksMeaning(m, pre, post, e);
      var start: nat := FindIndex(m.tradeDays, e.date) - pre;
      OneStart(m, pre, post, e, start);
      hide FindIndex, Lacks, StartsAt, LacksStock, LacksBenchmark;
      assert Full(m, pre, post, e) <==> FullAt(m, pre, post, e, start);
    }
  }

  /** Every reason mentioned is counted at least once. */
  predicate NoZeros(reasons: map<Reason, nat>) {
    forall reason | reason in reasons :: reasons[reason] > 0
  }

  /** The first loop of `run`: every event gets its window or is counted as out of range. */
  method PlaceEvents(m: Market, pre: nat, post: nat, events: seq<Event>, before: map<Reason, nat>)
    returns (windowed: seq<Windowed>, reasons: map<Reason, nat>)
    requires Ascending(m.tradeDays) && NoZeros(before)
    ensures NoZeros(reasons)
    ensures windowed == Placed(m, pre, post, events)
    ensures |windowed| <= |events|
    ensures Get(reasons, WindowOutOfRange) == Get(before, WindowOutOfRange) + |events| - |windowed|
    ensures forall other | other != WindowOutOfRange :: Get(reasons, other) == Get(before, other)
  {
    hide Ascending, FindIndex;
    windowed, reasons := [], before;
    for n := 0 to |events|
      invariant windowed == Placed(m, pre, post, events[..n])
      invariant |windowed| <= n && NoZeros(reasons)
      invariant Get(reasons, WindowOutOfRange) == Get(before, WindowOutOfRange) + n - |windowed|
      invariant forall other | other != WindowOutOfRange :: Get(reasons, other) == Get(before, other)
    {
      assert events[..n + 1][..n] == events[..n];
      var i := LowerBound(m.tradeDays, events[n].date);
      FindIndexMeaning(m.tradeDays, events[n].date);
      if i < pre || i < 0 || i + post >= |m.tradeDays| {
        reasons := Increment(reasons, WindowOutOfRange);
        continue;
      }
      windowed := windowed + [Windowed(events[n], m.tradeDays[i], m.tradeDays[i - pre..i + post + 1])];
    }
    assert events[..|events|] == events;
  }

  /** The second loop of `run`: every window is complete, or counted under the first return it lacks. */
  method PriceWindows(m: Market, windowed: seq<Windowed>, before: map<Reason, nat>)
    returns (valid: seq<Windowed>, reasons: map<Reason, nat>)
    requires NoZeros(before)
    ensures NoZeros(reasons)
    ensures valid == Complete(m, windowed)
    ensures forall reason | reason == StockReturnMissing || reason == BenchmarkReturnMissing ::
              Get(reasons, reason) == Get(before, reason) + CountLacking(m, windowed, reason)
    ensures forall other | other != StockReturnMissing && other != BenchmarkReturnMissing :: Get(reasons, other) == Get(before, other)
  {
    hide Lacks;
    valid, reasons := [], before;
    for n := 0 to |windowed|
      invariant valid == Complete(m, windowed[..n]) && NoZeros(reasons)
      invariant Get(reasons, StockReturnMissing) == Get(before, StockReturnMissing) + CountLacking(m, windowed[..n], StockReturnMissing)
      invariant Get(reasons, BenchmarkReturnMissing) ==
                Get(before, BenchmarkReturnMissing) + CountLacking(m, windowed[..n], BenchmarkReturnMissing)
      invariant forall other | other != StockReturnMissing && other != BenchmarkReturnMissing :: Get(reasons, other) == Get(before, other)
    {
      assert windowed[..n + 1][..n] == windowed[..n];
      var lacking := FirstLacking(m, windowed[n]);
      if lacking.Some? {
        reasons := Increment(reasons, lacking.value);
        continue;
      }
      valid := valid + [windowed[n]];
    }
    assert windowed[..|windowed|] == windowed;
  }

  method FirstLacking(m: Market, w: Windowed) returns (lacking: Option<Reason>)
    ensures lacking == Lacks(m, w)
    ensures lacking.Some? ==> lacking.value == StockReturnMissing || lacking.value == BenchmarkReturnMissing
  {
    if exists j | 0 <= j < |w.days| :: (w.event, w.days[j]) !in m.stock {
      return Some(StockReturnMissing);
    }
    if exists j | 0 <= j < |w.days| :: w.days[j] !in m.benchmark {
      return Some(BenchmarkReturnMissing);
    }
    return None;
  }

  /** The reasons tell this number for the reason, and do not mention it when it is zero. */
  predicate Told(reasons: map<Reason, nat>, reason: Reason, n: nat) {
    if n == 0 then reason !in reasons else reason in reasons && reasons[reason] == n
  }

  /**
   * What a finished study reports: every selected event with a full window is a sample, once, and every other
   * extracted event is counted under the one reason that excluded it.
   */
  ghost predicate Accounts(study: Study, m: Market, pre: nat, post: nat, extracted: seq<Event>, selected: seq<Event>) {
    && (forall w :: w in study.samples <==> GoodSample(m, pre, post, selected, w))
    && study.sampleCount == |study.samples| == |AllFull(m, pre, post, selected)|
    && Told(study.reasons, MaxSamplesLimit, |ToSet(extracted) - ToSet(selected)|)
    && Told(study.reasons, WindowOutOfRange, |AllOutOfRange(m, pre, post, selected)|)
    && Told(study.reasons, StockReturnMissing, |AllStockGaps(m, pre, post, selected)|)
    && Told(study.reasons, BenchmarkReturnMissing, |AllBenchmarkGaps(m, pre, post, selected)|)
    && study.sampleCount + study.excluded == |ToSet(extracted)|
    && study.truncated == (|extracted| == 10000 || ToSet(selected) != ToSet(extracted))
  }

  lemma SelectedNumbers(k: Keys, extracted: seq<Event>, maximum: nat)
    requires GoodKeys(k)
    ensures var (unique, selected) := (Unique(k, extracted), Select(k, extracted, maximum));
            && Distinct(selected) && ToSet(selected) <= ToSet(extracted)
            && |unique| == |ToSet(extracted)| && |selected| == |ToSet(selected)| <= |unique|
            && |unique| - |selected| == |ToSet(extracted) - ToSet(selected)|
            && (|selected| < |unique| <==> ToSet(selected) != ToSet(extracted))
  {
    UniqueKeepsEachOnce(k, extracted);
    SmallerSelectionIsPrefix(k, extracted, maximum, maximum);
    var unique, selected := Unique(k, extracted), Select(k, extracted, maximum);
    hide Unique, Select, GoodKeys;
    assert ToSet(unique) == ToSet(extracted);
    DistinctCardinality(unique);
    DistinctCardinality(selected);
    SubsetCardinality(ToSet(selected), ToSet(extracted));
    assert ToSet(extracted) == ToSet(selected) + (ToSet(extracted) - ToSet(selected));
  }

  lemma SamplesAndExclusions(extracted: seq<Event>, selected: seq<Event>)
    requires ToSet(selected) <= ToSet(extracted) && |selected| == |ToSet(selected)|
    ensures |ToSet(extracted) - ToSet(selected)| + |selected| == |ToSet(extracted)|
  {
    assert ToSet(extracted) == ToSet(selected) + (ToSet(extracted) - ToSet(selected));
  }

  /** The loops' counts as numbers of events. */
  lemma Accounted(study: Study, m: Market, pre: nat, post: nat, extracted: seq<Event>, selected: seq<Event>, placed: seq<Windowed>)
    requires Tally(m, pre, post, selected) && placed == Placed(m, pre, post, selected) && NoZeros(study.reasons)
    requires ToSet(selected) <= ToSet(extracted) && |selected| == |ToSet(selected)|
    requires study.samples == Complete(m, placed) && study.sampleCount == |study.samples|
    requires Get(study.reasons, MaxSamplesLimit) == |ToSet(extracted) - ToSet(selected)|
    requires Get(study.reasons, WindowOutOfRange) == |selected| - |placed|
    requires Get(study.reasons, StockReturnMissing) == CountLacking(m, placed, StockReturnMissing)
    requires Get(study.reasons, BenchmarkReturnMissing) == CountLacking(m, placed, BenchmarkReturnMissing)
    requires study.excluded == Total(study.reasons)
    requires study.truncated == (|extracted| == 10000 || ToSet(selected) != ToSet(extracted))
    ensures Accounts(study, m, pre, post, extracted, selected)
  {
    LackingCounted(m, placed);
    SamplesAndExclusions(extracted, selected);
    forall w ensures w in study.samples <==> GoodSample(m, pre, post, selected, w) {
      SamplesAreGood(m, pre, post, selected, w);
    }
    hide Placed, Complete, CountLacking, GoodSample, AllFull, AllOutOfRange, AllStockGaps, AllBenchmarkGaps, ToSet;
  }

  lemma PlacedAndFull(m: Market, pre: nat, post: nat, events: seq<Event>)
    requires Distinct(events) && |events| == |ToSet(events)|
    ensures Tally(m, pre, post, events)
    ensures AllOutOfRange(m, pre, post, events) == ToSet(events) <==> Placed(m, pre, post, events) == []
    ensures |AllFull(m, pre, post, events)| == |Complete(m, Placed(m, pre, post, events))|
  {
    Tallies(m, pre, post, events);
    hide OutOfRange, Placed;
    var out := AllOutOfRange(m, pre, post, events);
    assert ToSet(events) == out + (ToSet(events) - out);
  }

  /** Places and prices the selected events. */
  method PlaceAndPrice(m: Market, pre: nat, post: nat, ghost extracted: seq<Event>, selected: seq<Event>,
                       limited: map<Reason, nat>, minSamples: nat, truncated: bool)
    returns (r: Result<Study, Failure>)
    requires Ascending(m.tradeDays) && Distinct(selected)
    requires ToSet(selected) <= ToSet(extracted) && |selected| == |ToSet(selected)|
    requires NoZeros(limited) && Get(limited, MaxSamplesLimit) == |ToSet(extracted) - ToSet(selected)|
    requires forall other | other != MaxSamplesLimit :: Get(limited, other) == 0
    requires truncated == (|extracted| == 10000 || ToSet(selected) != ToSet(extracted))
    ensures if AllOutOfRange(m, pre, post, selected) == ToSet(selected) then r == Err(NoWindow)
            else if |AllFull(m, pre, post, selected)| < minSamples then r == Err(TooFewSamples)
            else r.Ok? && Accounts(r.value, m, pre, post, extracted, selected)
  {
    PlacedAndFull(m, pre, post, selected);
    hide Ascending, Placed, Complete, CountLacking, Accounts, ToSet, Distinct, Get, NoZeros, Total, Tally, AllOutOfRange, AllFull;
    var windowed, placed := PlaceEvents(m, pre, post, selected, limited);
    if |windowed| == 0 {
      return Err(NoWindow);
    }
    var valid, reasons := PriceWindows(m, windowed, placed);
    if |valid| < minSamples {
      return Err(TooFewSamples);
    }
    var study := Study(|valid|, Total(reasons), reasons, valid, truncated);
    Accounted(study, m, pre, post, extracted, selected, windowed);
    r := Ok(study);
  }

  /**
   * The part of `run` from the extracted events to the samples: it fails when nothing is selected, when there is no
   * calendar, when no selected event has its window, or when too few have full windows; else it accounts for every event.
   */
  method RunStudy(k: Keys, extracted: seq<Event>, maxSamples: nat, minSamples: nat, m: Market, pre: nat, post: nat)
    returns (r: Result<Study, Failure>)
    requires GoodKeys(k) && Ascending(m.tradeDays)
    ensures var selected := Select(k, extracted, maxSamples);
            if selected == [] then r == Err(NoEvents)
            else if m.tradeDays == [] then r == Err(NoCalendar)
            else if AllOutOfRange(m, pre, post, selected) == ToSet(selected) then r == Err(NoWindow)
            else if |AllFull(m, pre, post, selected)| < minSamples then r == Err(TooFewSamples)
            else r.Ok? && Accounts(r.value, m, pre, post, extracted, selected)
  {
    SelectedNumbers(k, extracted, maxSamples);
    hide Select, Ascending, Unique, GoodKeys, Accounts, AllOutOfRange, AllFull, ToSet, Distinct;
    var unique := DeduplicateEvents(k, extracted);
    var selected := Select(k, extracted, maxSamples);
    if |selected| == 0 {
      return Err(NoEvents);
    }
    if |m.tradeDays| == 0 {
      return Err(NoCalendar);
    }
    var limited: map<Reason, nat> := map[];
    if |unique| > |selected| {
      limited := limited[MaxSamplesLimit := |unique| - |selected|];
    }
    var truncated := |extracted| == EXTRACT_LIMIT || |unique| > |selected|;
    r := PlaceAndPrice(m, pre, post, extracted, selected, limited, minSamples, truncated);
  }
}
