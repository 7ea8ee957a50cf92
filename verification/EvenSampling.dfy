/** The two `evenlySample` helpers of the backtest tools, in exact integer arithmetic. */
module EvenSampling {
  import opened Prelude

  /** `Math.round(a / b)` for non-negative a and positive b: halves round up. */
  function RoundRatio(a: nat, b: nat): nat
    requires b > 0
  {
    (2 * a + b) / (2 * b)
  }

  /** The row number asked for at output position `index`; `None` when the division is 0 / 0. */
  function SampleIndex(index: nat, length: nat, maximum: nat): Option<nat>
    requires index < maximum && length > 0
  {
    if maximum == 1 then None else Some(RoundRatio(index * (length - 1), maximum - 1))
  }

  /** Reading a row; an index that is NaN or past the end reads as undefined. */
  function At<T>(rows: seq<T>, index: Option<nat>): Option<T> {
    if index.Some? && index.value < |rows| then Some(rows[index.value]) else None
  }

  /** The sampling itself, without a guard; a negative maximum gives an array of length zero. */
  function SampleAll<T>(rows: seq<T>, maximum: int): seq<Option<T>>
    requires rows != []
  {
    if maximum <= 0 then []
    else seq(maximum, index requires 0 <= index < maximum => At(rows, SampleIndex(index, |rows|, maximum)))
  }

  function Wrap<T>(rows: seq<T>): seq<Option<T>> {
    seq(|rows|, i requires 0 <= i < |rows| => Some(rows[i]))
  }

  /** The result tool's copy: short inputs are returned as they are. */
  function EvenlySample<T>(rows: seq<T>, maximum: int): seq<Option<T>> {
    if |rows| <= maximum then Wrap(rows) else if rows == [] then [] else SampleAll(rows, maximum)
  }

  /** The Monte Carlo tool's copy: the caller decides whether to sample, and flags it. */
  function SampleTimeSeries<T>(timeSeries: seq<T>, maximum: int): (seq<Option<T>>, bool) {
    if |timeSeries| <= maximum then (Wrap(timeSeries), false)
    else (if timeSeries == [] then [] else SampleAll(timeSeries, maximum), true)
  }

  // ---------------------------------------------------------------- arithmetic of the indices

  lemma DivShift(x: nat, d: nat, f: nat)
    requires d > 0
    ensures (x + d * f) / d == x / d + f
  {
    var q, r := x / d, x % d;
    assert x + d * f == d * (q + f) + r;
    QuotientIs(x + d * f, d, q + f, r);
  }

  lemma AtLeastFactor(d: int, k: int)
    requires d > 0 && k > 0
    ensures d * k >= d
  {
  }

  lemma QuotientIs(x: int, d: int, q: int, r: int)
    requires d > 0 && 0 <= r < d && x == d * q + r
    ensures x / d == q
  {
    var q' := x / d;
    var r' := x % d;
    assert x == d * q' + r';
    var k := q - q';
    assert d * k == d * q - d * q' == r' - r;
    if k > 0 {
      AtLeastFactor(d, k);
    } else if k < 0 {
      assert d * -k == r - r';
      AtLeastFactor(d, -k);
    }
  }

  lemma DivStep(x: nat, e: nat, d: nat)
    requires d > 0 && e < d
    ensures x / d <= (x + e) / d <= x / d + 1
  {
    var q, r := x / d, x % d;
    assert x == d * q + r;
    if r + e < d {
      QuotientIs(x + e, d, q, r + e);
    } else {
      assert x + e == d * (q + 1) + (r + e - d);
      QuotientIs(x + e, d, q + 1, r + e - d);
    }
  }

  function CeilDiv(a: nat, b: nat): nat
    requires b > 0
  {
    a / b + if a % b == 0 then 0 else 1
  }

  /** Neighbouring sample indices differ by the floor or the ceiling of (n - 1) / (m - 1). */
  lemma GapIsFloorOrCeiling(index: nat, span: nat, steps: nat)
    requires steps > 0
    ensures var gap := RoundRatio((index + 1) * span, steps) - RoundRatio(index * span, steps);
            span / steps <= gap <= CeilDiv(span, steps)
  {
    var f, r := span / steps, span % steps;
    var x := 2 * (index * span) + steps;
    var d := 2 * steps;
    assert span == steps * f + r;
    assert 2 * ((index + 1) * span) + steps == x + 2 * span by {
      assert (index + 1) * span == index * span + span;
    }
    assert 2 * span == d * f + 2 * r by {
      assert 2 * (steps * f) == d * f;
    }
    DivShift(x + 2 * r, d, f);
    assert (x + 2 * span) / d == (x + 2 * r) / d + f;
    DivStep(x, 2 * r, d);
  }

  lemma EndPoints(span: nat, steps: nat)
    requires steps > 0
    ensures RoundRatio(0 * span, steps) == 0
    ensures RoundRatio(steps * span, steps) == span
  {
    QuotientIs(steps, 2 * steps, 0, steps);
    assert 2 * (steps * span) + steps == (2 * steps) * span + steps;
    QuotientIs(2 * (steps * span) + steps, 2 * steps, span, steps);
  }

  /** The chosen index at position `i`. */
  function Pick(i: nat, length: nat, maximum: nat): nat
    requires maximum >= 2 && length > 0
  {
    RoundRatio(i * (length - 1), maximum - 1)
  }

  /** The chosen index is the whole number nearest to i(n-1)/(m-1), the upper one of two. */
  lemma PickIsNearest(i: nat, length: nat, maximum: nat)
    requires maximum >= 2 && length > 0
    ensures var (exact, p) := (i * (length - 1), Pick(i, length, maximum) * (maximum - 1));
            2 * exact - (maximum - 1) < 2 * p <= 2 * exact + (maximum - 1)
  {
    var x, d := 2 * (i * (length - 1)) + (maximum - 1), 2 * (maximum - 1);
    assert x == d * (x / d) + x % d;
    assert Pick(i, length, maximum) == x / d;
    assert d * (x / d) == 2 * (Pick(i, length, maximum) * (maximum - 1));
  }

  lemma {:induction false} PicksIncrease(i: nat, j: nat, length: nat, maximum: nat)
    requires 2 <= maximum <= length && i < j
    ensures Pick(i, length, maximum) < Pick(j, length, maximum)
  {
    GapIsFloorOrCeiling(j - 1, length - 1, maximum - 1);
    assert (length - 1) / (maximum - 1) >= 1 by {
      var q, r := (length - 1) / (maximum - 1), (length - 1) % (maximum - 1);
      assert length - 1 == (maximum - 1) * q + r;
    }
    if i < j - 1 {
      PicksIncrease(i, j - 1, length, maximum);
    }
  }

  /**
   * A long input sampled at two or more points: as many rows as asked for, from the first row to the
   * last, in strictly increasing order, each the row nearest to i(n-1)/(m-1), with every gap the floor or the ceiling
   * of (n-1)/(m-1).
   */
  lemma SamplesEvenly<T>(rows: seq<T>, maximum: int)
    requires 2 <= maximum < |rows|
    ensures var (n, sample) := (|rows|, EvenlySample(rows, maximum));
            && |sample| == maximum
            && Pick(0, n, maximum) == 0 && Pick(maximum - 1, n, maximum) == n - 1
            && (forall i, j | 0 <= i < j < maximum :: Pick(i, n, maximum) < Pick(j, n, maximum))
            && (forall i | 0 <= i < maximum :: Pick(i, n, maximum) < n && sample[i] == Some(rows[Pick(i, n, maximum)]))
            && (forall i | 0 <= i < maximum ::
                  2 * (i * (n - 1)) - (maximum - 1) < 2 * (Pick(i, n, maximum) * (maximum - 1)) <= 2 * (i * (n - 1)) + (maximum - 1))
            && (forall i | 0 <= i < maximum - 1 ::
                  (n - 1) / (maximum - 1) <= Pick(i + 1, n, maximum) - Pick(i, n, maximum) <= CeilDiv(n - 1, maximum - 1))
    ensures SampleTimeSeries(rows, maximum) == (EvenlySample(rows, maximum), true)
  {
    EndPoints(|rows| - 1, maximum - 1);
    forall i | 0 <= i < maximum
      ensures var (exact, p) := (i * (|rows| - 1), Pick(i, |rows|, maximum) * (maximum - 1));
              2 * exact - (maximum - 1) < 2 * p <= 2 * exact + (maximum - 1)
    {
      PickIsNearest(i, |rows|, maximum);
    }
    forall i, j | 0 <= i < j < maximum ensures Pick(i, |rows|, maximum) < Pick(j, |rows|, maximum) {
      PicksIncrease(i, j, |rows|, maximum);
    }
    forall i | 0 <= i < maximum - 1
      ensures (|rows| - 1) / (maximum - 1) <= Pick(i + 1, |rows|, maximum) - Pick(i, |rows|, maximum)
                <= CeilDiv(|rows| - 1, maximum - 1)
    {
      GapIsFloorOrCeiling(i, |rows| - 1, maximum - 1);
    }
  }

  /**
   * Every requested point is a real row, for each input, exactly unless one point is asked of several rows. Short inputs
   * come back whole, a maximum below one gives nothing, and the second copy flags exactly what was too long.
   */
  lemma NoHolesUnlessOnePoint<T>(rows: seq<T>, maximum: int)
    ensures var sample := EvenlySample(rows, maximum);
            && (|rows| <= maximum ==> |sample| == |rows| && forall i | 0 <= i < |rows| :: sample[i] == Some(rows[i]))
            && (maximum <= 0 ==> sample == []) && (maximum == 1 < |rows| ==> sample == [None])
            && SampleTimeSeries(rows, maximum) == (sample, |rows| > maximum)
    ensures (forall point | point in EvenlySample(rows, maximum) :: point.Some?) <==> !(maximum == 1 && |rows| > 1)
  {
    var sample := EvenlySample(rows, maximum);
    if |rows| <= maximum || maximum <= 0 {
    } else if maximum == 1 {
      assert |sample| == 1 && sample[0] == None;
      assert None in sample;
    } else {
      SamplesEvenly(rows, maximum);
    }
  }
}
