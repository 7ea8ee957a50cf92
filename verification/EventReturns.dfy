/** Abnormal returns in exact arithmetic: where rounding cancels, and how far it can drift. */
module EventReturns {
  import opened Prelude
  import opened EventWindows

  /** Decimal places as factors: the tool rounds to six places, the service to four. */
  const SIX := 1000000.0
  const FOUR := 10000.0

  /** `Math.round(x * f) / f`: the nearest multiple of 1/f, halves upwards. */
  function Round(x: real, f: real): real
    requires f > 0.0
  {
    (x * f + 0.5).Floor as real / f
  }

  /** A multiple of 1/f. */
  predicate OnGrid(x: real, f: real) {
    (x * f).Floor as real == x * f
  }

  lemma DivideBack(k: real, f: real)
    requires f > 0.0
    ensures k / f * f == k && k * f / f == k
  {
  }

  lemma FloorIs(y: real, n: int)
    requires n as real <= y < n as real + 1.0
    ensures y.Floor == n
  {
    var k := y.Floor;
    assert k as real <= y < k as real + 1.0;
    assert k < n ==> (k + 1) as real <= n as real;
    assert k > n ==> k as real >= (n + 1) as real;
  }

  /** The floor of a number plus one half is a nearest whole number. */
  lemma HalfUp(y: real)
    ensures -0.5 < (y + 0.5).Floor as real - y <= 0.5
  {
    var z := y + 0.5;
    var k := z.Floor;
    assert k as real <= z < k as real + 1.0;
  }

  lemma HalfUpWhole(y: real)
    requires y.Floor as real == y
    ensures (y + 0.5).Floor as real == y
  {
    FloorIs(y + 0.5, y.Floor);
  }

  lemma WholeStepsOnGrid(k: int, f: real)
    requires f > 0.0
    ensures OnGrid(k as real / f, f)
  {
    var x := k as real / f;
    assert x * f == k as real by {
      DivideBack(k as real, f);
    }
    assert (k as real).Floor == k;
  }

  /** Rounding lands on the grid, moves by at most half a step, upwards when both neighbours are as near, and leaves the grid alone. */
  lemma RoundIsNearest(x: real, f: real)
    requires f > 0.0
    ensures OnGrid(Round(x, f), f)
    ensures -0.5 < Round(x, f) * f - x * f <= 0.5
    ensures OnGrid(x, f) ==> Round(x, f) == x
  {
    var y := x * f;
    var k := (y + 0.5).Floor;
    assert Round(x, f) == k as real / f;
    HalfUp(y);
    DivideBack(k as real, f);
    WholeStepsOnGrid(k, f);
    if OnGrid(x, f) {
      HalfUpWhole(y);
      DivideBack(x, f);
    }
  }

  lemma GridSum(x: real, y: real, f: real)
    requires OnGrid(x, f) && OnGrid(y, f)
    ensures OnGrid(x + y, f)
  {
    assert (x + y) * f == x * f + y * f;
    var k := (x * f).Floor + (y * f).Floor;
    assert k as real == (x + y) * f;
  }

  // ---------------------------------------------------------------- sums over samples and days

  function SumOver(s: seq<real>): real {
    if s == [] then 0.0 else SumOver(s[..|s| - 1]) + s[|s| - 1]
  }

  function At(series: seq<real>, t: nat): real {
    if t < |series| then series[t] else 0.0
  }

  /** The sum of one day over all samples; a series too short contributes nothing. */
  function DayTotal(samples: seq<seq<real>>, t: nat): real {
    if samples == [] then 0.0 else DayTotal(samples[..|samples| - 1], t) + At(samples[|samples| - 1], t)
  }

  function TotalUpTo(samples: seq<seq<real>>, w: nat): real {
    if w == 0 then 0.0 else TotalUpTo(samples, w - 1) + DayTotal(samples, w - 1)
  }

  function SumUpTo(series: seq<real>, w: nat): real {
    if w == 0 then 0.0 else SumUpTo(series, w - 1) + At(series, w - 1)
  }

  function Sums(samples: seq<seq<real>>): seq<real> {
    seq(|samples|, i requires 0 <= i < |samples| => SumOver(samples[i]))
  }

  function Average(samples: seq<seq<real>>, t: nat): real
    requires samples != []
  {
    DayTotal(samples, t) / |samples| as real
  }

  /** The true cumulative average of the first `w` days. */
  function Cumulative(samples: seq<seq<real>>, w: nat): real
    requires samples != []
  {
    if w == 0 then 0.0 else Cumulative(samples, w - 1) + Average(samples, w - 1)
  }

  function Mean(values: seq<real>): real
    requires values != []
  {
    SumOver(values) / |values| as real
  }

  lemma {:induction false} SumUpToIsSum(series: seq<real>, w: nat)
    requires w <= |series|
    ensures SumUpTo(series, w) == SumOver(series[..w])
  {
    if w > 0 {
      SumUpToIsSum(series, w - 1);
      assert series[..w][..w - 1] == series[..w - 1];
    }
  }

  lemma {:induction false} AddSample(init: seq<seq<real>>, last: seq<real>, w: nat)
    ensures TotalUpTo(init + [last], w) == TotalUpTo(init, w) + SumUpTo(last, w)
  {
    if w > 0 {
      AddSample(init, last, w - 1);
      assert (init + [last])[..|init|] == init;
    }
  }

  lemma {:induction false} NoSamples(w: nat)
    ensures TotalUpTo([], w) == 0.0
  {
    if w > 0 {
      NoSamples(w - 1);
    }
  }

  /** Day by day and sample by sample give the same double sum. */
  lemma {:induction false} SumsSwap(samples: seq<seq<real>>, w: nat)
    requires forall s | s in samples :: |s| == w
    ensures TotalUpTo(samples, w) == SumOver(Sums(samples))
    decreases samples
  {
    if samples == [] {
      NoSamples(w);
    } else {
      var init, last := samples[..|samples| - 1], samples[|samples| - 1];
      SumsSwap(init, w);
      assert samples == init + [last];
      AddSample(init, last, w);
      SumUpToIsSum(last, w);
      assert last[..w] == last;
      assert Sums(samples)[..|init|] == Sums(init);
    }
  }

  lemma DivideSum(a: real, b: real, n: real)
    requires n > 0.0
    ensures a / n + b / n == (a + b) / n
  {
  }

  lemma {:induction false} CumulativeIsTotal(samples: seq<seq<real>>, w: nat)
    requires samples != []
    ensures Cumulative(samples, w) == TotalUpTo(samples, w) / |samples| as real
  {
    if w > 0 {
      CumulativeIsTotal(samples, w - 1);
      DivideSum(TotalUpTo(samples, w - 1), DayTotal(samples, w - 1), |samples| as real);
    }
  }

  lemma {:induction false} GridSums(s: seq<real>, f: real)
    requires forall i | 0 <= i < |s| :: OnGrid(s[i], f)
    ensures OnGrid(SumOver(s), f)
  {
    if s != [] {
      GridSums(s[..|s| - 1], f);
      GridSum(SumOver(s[..|s| - 1]), s[|s| - 1], f);
    }
  }

  // ---------------------------------------------------------------- the tool

  /** One point of a series: the day relative to the event, its value and the number of samples. */
  datatype Point = Point(relativeDay: int, value: real, sampleCount: nat)

  function RoundAll(raw: seq<real>, f: real): seq<real>
    requires f > 0.0
  {
    seq(|raw|, i requires 0 <= i < |raw| => Round(raw[i], f))
  }

  /** The rounded abnormal returns of a sample, from its raw differences, and their rounded sum. */
  function RoundedSamples(raw: seq<seq<real>>, f: real): seq<seq<real>>
    requires f > 0.0
  {
    seq(|raw|, i requires 0 <= i < |raw| => RoundAll(raw[i], f))
  }

  function FinalCars(samples: seq<seq<real>>): seq<real> {
    seq(|samples|, i requires 0 <= i < |samples| => Round(SumOver(samples[i]), SIX))
  }

  /** `aggregateSeries`: the average of each day and the running sum of the unrounded averages, both rounded. */
  method AggregateSeries(samples: seq<seq<real>>, pre: nat, post: nat) returns (aar: seq<Point>, caar: seq<Point>)
    requires samples != []
    ensures |aar| == |caar| == pre + post + 1
    ensures forall i | 0 <= i < |aar| :: aar[i] == Point(i - pre, Round(DayTotal(samples, i) / |samples| as real, 1000000.0), |samples|)
    ensures forall i | 0 <= i < |caar| :: caar[i] == Point(i - pre, Round(Cumulative(samples, i + 1), 1000000.0), |samples|)
  {
    var cumulative := 0.0;
    aar, caar := [], [];
    for index := 0 to pre + post + 1
      invariant cumulative == Cumulative(samples, index)
      invariant |aar| == |caar| == index
      invariant forall i | 0 <= i < index :: aar[i] == Point(i - pre, Round(Average(samples, i), SIX), |samples|)
      invariant forall i | 0 <= i < index :: caar[i] == Point(i - pre, Round(Cumulative(samples, i + 1), SIX), |samples|)
    {
      var average := Average(samples, index);
      cumulative := cumulative + average;
      aar := aar + [Point(index - pre, Round(average, SIX), |samples|)];
      caar := caar + [Point(index - pre, Round(cumulative, SIX), |samples|)];
    }
  }

  /** A sample's final value needs no rounding: its returns are already multiples of the step. */
  lemma FinalCarsAreSums(raw: seq<seq<real>>)
    ensures FinalCars(RoundedSamples(raw, SIX)) == Sums(RoundedSamples(raw, SIX))
  {
    var samples := RoundedSamples(raw, SIX);
    forall i | 0 <= i < |samples| ensures FinalCars(samples)[i] == Sums(samples)[i] {
      forall j | 0 <= j < |samples[i]| ensures OnGrid(samples[i][j], SIX) {
        RoundIsNearest(raw[i][j], SIX);
      }
      GridSums(samples[i], SIX);
      RoundIsNearest(SumOver(samples[i]), SIX);
    }
  }

  /** The last cumulative average is the mean final return exactly, before and so also after rounding. */
  lemma LastCumulativeIsMean(raw: seq<seq<real>>, w: nat)
    requires raw != [] && forall i | 0 <= i < |raw| :: |raw[i]| == w
    ensures Cumulative(RoundedSamples(raw, SIX), w) == Mean(FinalCars(RoundedSamples(raw, SIX)))
  {
    var samples := RoundedSamples(raw, SIX);
    FinalCarsAreSums(raw);
    forall s | s in samples ensures |s| == w {
      var i :| 0 <= i < |samples| && samples[i] == s;
      assert |raw[i]| == w;
    }
    SumsSwap(samples, w);
    CumulativeIsTotal(samples, w);
  }

  /** Both ways of computing the headline number of a study, side by side. */
  method Headline(raw: seq<seq<real>>, pre: nat, post: nat) returns (lastCaar: real, mean: real)
    requires raw != [] && forall i | 0 <= i < |raw| :: |raw[i]| == pre + post + 1
    ensures lastCaar == mean == Round(Mean(FinalCars(RoundedSamples(raw, 1000000.0))), 1000000.0)
  {
    var samples := RoundedSamples(raw, SIX);
    var _, caar := AggregateSeries(samples, pre, post);
    lastCaar := caar[pre + post].value;
    mean := Round(Mean(FinalCars(samples)), SIX);
    LastCumulativeIsMean(raw, pre + post + 1);
  }

  // ---------------------------------------------------------------- the service

  datatype EventSample = EventSample(car: real, series: seq<real>)

  /** The service reads a missing return as zero. */
  function OrZero(changes: map<Day, real>, day: Day): real {
    if day in changes then changes[day] else 0.0
  }

  /**
   * `computeEventAR`: nothing without a complete window; otherwise the rounded differences day by day, with
   * the event's trade day at offset `pre`, and their exact sum.
   */
  method ComputeEventAR(eventDate: Day, pre: nat, post: nat, tradeDays: seq<Day>, stock: map<Day, real>, benchmark: map<Day, real>)
    returns (r: Option<EventSample>)
    ensures var i := FindIndex(tradeDays, eventDate);
            if i < pre || i + post >= |tradeDays| then r.None?
            else
              && r.Some? && |r.value.series| == pre + post + 1
              && (forall j | 0 <= j < pre + post + 1 ::
                    var day := tradeDays[i - pre + j];
                    var own, market := if day in stock then stock[day] else 0.0, if day in benchmark then benchmark[day] else 0.0;
                    r.value.series[j] == Round(own - market, 10000.0))
              && r.value.car == SumOver(r.value.series)
  {
    FindIndexMeaning(tradeDays, eventDate);
    var eventIdx := FindIndex(tradeDays, eventDate);
    if eventIdx == -1 || eventIdx < pre || eventIdx + post >= |tradeDays| {
      return None;
    }
    var series: seq<real> := [];
    var i := eventIdx - pre;
    while i <= eventIdx + post
      invariant eventIdx - pre <= i <= eventIdx + post + 1
      invariant |series| == i - (eventIdx - pre)
      invariant forall j | 0 <= j < |series| ::
                  series[j] == Round(OrZero(stock, tradeDays[eventIdx - pre + j]) - OrZero(benchmark, tradeDays[eventIdx - pre + j]), FOUR)
    {
      var date := tradeDays[i];
      series := series + [Round(OrZero(stock, date) - OrZero(benchmark, date), FOUR)];
      i := i + 1;
    }
    forall j | 0 <= j < |series| ensures OnGrid(series[j], FOUR) {
      var day := tradeDays[eventIdx - pre + j];
      RoundIsNearest(OrZero(stock, day) - OrZero(benchmark, day), FOUR);
    }
    GridSums(series, FOUR);
    RoundIsNearest(SumOver(series), FOUR);
    r := Some(EventSample(Round(SumOver(series), FOUR), series));
  }

  /** The running sum of the rounded averages. */
  function RoundedCumulative(samples: seq<seq<real>>, w: nat): real
    requires samples != []
  {
    if w == 0 then 0.0 else RoundedCumulative(samples, w - 1) + Round(Average(samples, w - 1), FOUR)
  }

  /** The drift after `w` days of rounding each average: at most half a step a day. */
  lemma {:induction false} DriftIsBounded(samples: seq<seq<real>>, w: nat)
    requires samples != []
    ensures OnGrid(RoundedCumulative(samples, w), FOUR)
    ensures -(w as real) * 0.00005 <= RoundedCumulative(samples, w) - Cumulative(samples, w) <= w as real * 0.00005
  {
    if w > 0 {
      DriftIsBounded(samples, w - 1);
      RoundIsNearest(Average(samples, w - 1), FOUR);
      GridSum(RoundedCumulative(samples, w - 1), Round(Average(samples, w - 1), FOUR), FOUR);
    }
  }

  /** The accumulator after some samples: each sample adds its share of a day. */
  function Shares(samples: seq<seq<real>>, t: nat, n: real): real
    requires n > 0.0
  {
    if samples == [] then 0.0 else Shares(samples[..|samples| - 1], t, n) + At(samples[|samples| - 1], t) / n
  }

  lemma {:induction false} SharesAreAverage(samples: seq<seq<real>>, t: nat, n: real)
    requires n > 0.0
    ensures Shares(samples, t, n) == DayTotal(samples, t) / n
  {
    if samples != [] {
      var init, last := samples[..|samples| - 1], samples[|samples| - 1];
      SharesAreAverage(init, t, n);
      DivideSum(DayTotal(init, t), At(last, t), n);
    }
  }

  /** Adds one sample's shares to the accumulator. */
  method AddShares(raw: array<real>, series: seq<real>, n: real)
    requires n > 0.0
    modifies raw
    ensures forall t | 0 <= t < raw.Length :: raw[t] == old(raw[t]) + At(series, t) / n
  {
    var t := 0;
    while t < raw.Length && t < |series|
      invariant 0 <= t <= raw.Length && t <= |series|
      invariant forall j | 0 <= j < t :: raw[j] == old(raw[j]) + At(series, j) / n
      invariant forall j | t <= j < raw.Length :: raw[j] == old(raw[j])
    {
      raw[t] := raw[t] + series[t] / n;
      t := t + 1;
    }
    assert 0.0 / n == 0.0;
  }

  method AccumulateShares(samples: seq<seq<real>>, windowSize: nat) returns (raw: array<real>)
    requires samples != []
    ensures raw.Length == windowSize && forall t | 0 <= t < windowSize :: raw[t] == Average(samples, t)
  {
    var n := |samples| as real;
    raw := new real[windowSize](_ => 0.0);
    for k := 0 to |samples|
      invariant forall t: nat | t < windowSize :: raw[t] == Shares(samples[..k], t, n)
    {
      assert samples[..k + 1][..k] == samples[..k];
      AddShares(raw, samples[k], n);
    }
    assert samples[..|samples|] == samples;
    forall t | 0 <= t < windowSize ensures raw[t] == Average(samples, t) {
      SharesAreAverage(samples, t, n);
    }
  }

  /**
   * `aggregateAAR`: the service accumulates the rounded averages. Its last rounding changes nothing, and at
   * index t it stays within (t + 1) half steps of the true cumulative average.
   */
  method AggregateAAR(samples: seq<seq<real>>, windowSize: nat) returns (aar: seq<real>, caar: seq<real>)
    ensures samples == [] ==> aar == [] && caar == []
    ensures samples != [] ==>
              && |aar| == |caar| == windowSize
              && (forall t | 0 <= t < windowSize :: aar[t] == Round(DayTotal(samples, t) / |samples| as real, 10000.0))
              && (forall t | 0 <= t < windowSize :: caar[t] == RoundedCumulative(samples, t + 1))
              && (forall t | 0 <= t < windowSize ::
                    -((t + 1) as real) * 0.00005 <= caar[t] - Cumulative(samples, t + 1) <= (t + 1) as real * 0.00005)
  {
    aar, caar := [], [];
    if |samples| == 0 {
      return;
    }
    var raw := AccumulateShares(samples, windowSize);
    aar := seq(windowSize, t requires 0 <= t < raw.Length reads raw => Round(raw[t], FOUR));
    var sum := 0.0;
    for t := 0 to |aar|
      invariant sum == RoundedCumulative(samples, t)
      invariant |caar| == t
      invariant forall j | 0 <= j < t :: caar[j] == RoundedCumulative(samples, j + 1)
    {
      sum := sum + aar[t];
      DriftIsBounded(samples, t + 1);
      RoundIsNearest(sum, FOUR);
      caar := caar + [Round(sum, FOUR)];
    }
    forall t | 0 <= t < windowSize
      ensures -((t + 1) as real) * 0.00005 <= caar[t] - Cumulative(samples, t + 1) <= (t + 1) as real * 0.00005
    {
      DriftIsBounded(samples, t + 1);
    }
  }

  /** After `w` days the sum of the rounded averages is the true cumulative average. */
  predicate NoDriftAfter(samples: seq<seq<real>>, w: nat)
    requires samples != []
  {
    RoundedCumulative(samples, w) == Cumulative(samples, w)
  }

  /**
   * The service reports the true cumulative average at every day exactly when every day's average is itself a
   * multiple of the rounding step.
   */
  lemma {:induction false} DriftFreeExactly(samples: seq<seq<real>>, w: nat)
    requires samples != []
    ensures (forall t: nat | t <= w :: NoDriftAfter(samples, t)) <==> (forall t: nat | t < w :: OnGrid(Average(samples, t), 10000.0))
  {
    if w > 0 {
      DriftFreeExactly(samples, w - 1);
      RoundIsNearest(Average(samples, w - 1), FOUR);
      hide OnGrid, Round, Average;
      assert NoDriftAfter(samples, w - 1) ==>
        (NoDriftAfter(samples, w) <==> Round(Average(samples, w - 1), FOUR) == Average(samples, w - 1));
    }
  }

  /** The bound is reached: two samples that differ by one step every day drift by half a step every day. */
  lemma {:induction false} DriftIsReached(w: nat, length: nat)
    requires w <= length
    ensures var samples := [seq(length, _ => 0.0001), seq(length, _ => 0.0)];
            RoundedCumulative(samples, w) - Cumulative(samples, w) == w as real * 0.00005
  {
    var one: seq<real>, zero: seq<real> := seq(length, _ => 0.0001), seq(length, _ => 0.0);
    var samples: seq<seq<real>> := [one, zero];
    if w > 0 {
      DriftIsReached(w - 1, length);
      assert samples[..1] == [one];
      assert |samples[..1][..0]| == 0;
      assert DayTotal([one], w - 1) == 0.0001;
      assert DayTotal(samples, w - 1) == 0.0001;
      assert Average(samples, w - 1) == 0.00005;
      assert Round(0.00005, FOUR) == 0.0001;
    }
  }
}
