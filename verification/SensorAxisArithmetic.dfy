/** The arithmetic of the sensor axis: rounding errors, ranges, overflow and monotonicity. */
module SensorAxisArithmetic {
  import opened CInteger
  import opened SensorAxis

  // ----- normalisation

  lemma AbsProduct(x: int, y: int)
    ensures Abs(x * y) == Abs(x) * Abs(y)
  {
    ProductSigns(x, y);
  }

  lemma ProductBound(x: int, y: int, bound: int)
    requires 2 * Abs(y) <= bound
    ensures 2 * Abs(x * y) <= Abs(x) * bound
  {
    AbsProduct(x, y);
    MultiplyOrdered(2 * Abs(y), bound, Abs(x));
    assert (2 * Abs(y)) * Abs(x) == 2 * (Abs(x) * Abs(y));
  }

  lemma ErrorIsLinear(val: int, r: int, R: int, x: int)
    ensures r * (val * R - 1000000 * x) == R * (val * r - x * 1000) - (1000 * x) * (r * 1000 - R)
  {
    assert r * (val * R - 1000000 * x) == r * (val * R) - r * (1000000 * x);
    assert R * (val * r - x * 1000) == R * (val * r) - R * (x * 1000);
    assert (1000 * x) * (r * 1000 - R) == (1000 * x) * (r * 1000) - (1000 * x) * R;
    assert r * (val * R) == R * (val * r);
    assert r * (1000000 * x) == (1000 * x) * (r * 1000);
  }

  lemma DifferenceBound(u: int, v: int, w: int, p: int, q: int)
    requires u == v - w && 2 * Abs(v) <= p && 2 * Abs(w) <= q
    ensures 2 * Abs(u) <= p + q
  {
  }

  lemma RangeErrorBound(x: int, e: int, R: int)
    requires 2 * Abs(e) <= 1000 && Abs(x) <= Abs(R)
    ensures 2 * Abs((1000 * x) * e) <= Abs(R) * 1000000
  {
    ProductBound(1000 * x, e, 1000);
    assert Abs(1000 * x) == 1000 * Abs(x);
  }

  lemma ErrorBound(val: int, r: int, R: int, x: int)
    requires 2 * Abs(val * r - x * 1000) <= Abs(r)
    requires 2 * Abs(r * 1000 - R) <= 1000
    requires Abs(x) <= Abs(R)
    ensures 2 * (Abs(r) * Abs(val * R - 1000000 * x)) <= Abs(R) * (1000000 + Abs(r))
  {
    ErrorIsLinear(val, r, R, x);
    ProductBound(R, val * r - x * 1000, Abs(r));
    RangeErrorBound(x, r * 1000 - R, R);
    AbsProduct(r, val * R - 1000000 * x);
    DifferenceBound(
      r * (val * R - 1000000 * x), R * (val * r - x * 1000), (1000 * x) * (r * 1000 - R),
      Abs(R) * Abs(r), Abs(R) * 1000000);
    Distribute(Abs(R), 1000000, Abs(r));
  }

  /**
   Between the setpoints, in exact arithmetic the value would be 1000000 * (v - min) / (max - min).
   Dividing the range first makes it differ by at most half of (1000000 + |r|) / |r|, where r is
   the divided range.
   */
  lemma NormalisationError(v: int, min: int, max: int)
    requires Range(min, max) != 0
    requires min <= v <= max || max <= v <= min
    ensures
      var r := Abs(Range(min, max));
      2 * (r * Abs(Normalised(v, min, max) * (max - min) - 1000000 * (v - min))) <= Abs(max - min) * (1000000 + r)
  {
    var r := Range(min, max);
    var val := Normalised(v, min, max);
    assert 2 * Abs(r * 1000 - (max - min)) <= 1000 by {
      RoundingError(max - min, 1000);
    }
    assert 2 * Abs(val * r - (v - min) * 1000) <= Abs(r) by {
      RoundingError((v - min) * 1000, r);
    }
    ErrorBound(val, r, max - min, v - min);
  }

  /** The first setpoint itself is exactly 0. */
  lemma FirstSetpointIsZero(min: int, max: int)
    requires Range(min, max) != 0
    ensures Normalised(min, min, max) == 0
  {
    var r := Range(min, max);
    RoundingIsExact(0, Abs(r));
    RoundsMagnitude(0, r);
    RoundsMagnitude(0, Abs(r));
  }

  /** A `sensor_value` in millionths: a 32-bit integer part and fewer than a million millionths. */
  predicate IsMicro(v: int) {
    -2147483648 * 1000000 - 999999 <= v <= 2147483647 * 1000000 + 999999
  }

  /** Normalisation stays within 64 bits for every sensor value and every pair of setpoints. */
  lemma NormalisationFitsInt64(v: int, min: int, max: int)
    requires IsMicro(v) && IsMicro(min) && IsMicro(max)
    ensures IsInt64(max - min) && IsInt64(max - min + 500) && IsInt64(max - min - 500)
    ensures
      var n, r := (v - min) * 1000, Range(min, max);
      IsInt64(n) && IsInt64(r) && IsInt64(n + CDiv(r, 2)) && IsInt64(n - CDiv(r, 2))
  {
    RoundingStaysBetween(-4294967300000, 4294967300000, max - min, 1000);
    RoundingIsBounded(max - min);
  }

  lemma RoundingIsBounded(n: int)
    requires Abs(n) <= 4294967300000000
    ensures Abs(DivRoundClosest(n, 1000)) <= 4294967300000
  {
    RoundingStaysBetween(-4294967300000, 4294967300000, n, 1000);
  }

  lemma NormalisationIsMonotone(v: int, w: int, min: int, max: int)
    requires min < max && Range(min, max) != 0 && v <= w
    ensures Range(min, max) > 0
    ensures Normalised(v, min, max) <= Normalised(w, min, max)
  {
    RoundsMagnitude(max - min, 1000);
    RoundingIsMonotone((v - min) * 1000, (w - min) * 1000, Range(min, max));
  }

  // ----- the loop

  function Values(samples: seq<Sample>): seq<int>
    requires AreGood(samples)
  {
    seq(|samples|, i requires 0 <= i < |samples| => samples[i].value)
  }

  function WeightedSum(values: seq<int>, weights: seq<int>): int
    requires |values| <= |weights|
  {
    if values == [] then 0
    else
      var k := |values| - 1;
      WeightedSum(values[..k], weights) + values[k] * weights[k]
  }

  predicate AreFractions(values: seq<int>) {
    forall i :: 0 <= i < |values| ==> 0 <= values[i] <= 1000000
  }

  predicate AreGood(samples: seq<Sample>) {
    forall i :: 0 <= i < |samples| ==> IsGood(samples[i]) && 0 <= samples[i].value <= 1000000
  }

  /** A loop over good sensors leaves the channel alone, and finds their sum, minimum and maximum. */
  lemma {:induction false} GoodSweep(c: Config, s: ChannelState, samples: seq<Sample>, reports: seq<int>)
    requires |samples| == |reports| <= |c.weights|
    requires AreGood(samples)
    ensures
      var w := SweepOf(c, s, samples, reports);
      var values := Values(samples);
      && w.channel == s && w.ret == 0 && w.events == []
      && w.sum == WeightedSum(values, c.weights)
      && (forall i :: 0 <= i < |values| ==> w.min <= values[i] <= w.max)
      && (values != [] ==> w.min in values && w.max in values)
      && (values == [] ==> w.min == INT32_MAX && w.max == INT32_MIN)
  {
    if samples != [] {
      var k := |samples| - 1;
      GoodSweep(c, s, samples[..k], reports[..k]);
      var values, front := Values(samples), Values(samples[..k]);
      assert values[..k] == front;
      assert values == front + [samples[k].value];
    }
  }

  /** The loop ends in success exactly if every sensor is good. */
  lemma {:induction false} SweepFailsOnBadSensor(c: Config, s: ChannelState, samples: seq<Sample>, reports: seq<int>)
    requires |samples| == |reports| <= |c.weights|
    ensures
      var w := SweepOf(c, s, samples, reports);
      && w.ret <= 0
      && (w.ret < 0 <==> exists i :: 0 <= i < |samples| && !IsGood(samples[i]))
      && (forall e :: e in w.events ==> e.Error?)
  {
    if samples != [] {
      var k := |samples| - 1;
      SweepFailsOnBadSensor(c, s, samples[..k], reports[..k]);
      if !IsGood(samples[k]) {
        assert SweepOf(c, s, samples, reports).ret < 0;
      } else if i :| 0 <= i < |samples| && !IsGood(samples[i]) {
        assert !IsGood(samples[..k][i]);
      }
    }
  }

  // ----- the weighted mean

  lemma WeightedStep(lo: int, hi: int, v: int, x: int, total: int, sum: int)
    requires lo <= v <= hi && 0 <= x && lo * total <= sum <= hi * total
    ensures lo * (total + x) <= sum + v * x <= hi * (total + x)
  {
    MultiplyOrdered(lo, v, x);
    MultiplyOrdered(v, hi, x);
    Distribute(lo, total, x);
    Distribute(hi, total, x);
  }

  lemma {:induction false} WeightedSumBetween(values: seq<int>, weights: seq<int>, lo: int, hi: int)
    requires |values| <= |weights| && forall i :: 0 <= i < |weights| ==> 0 <= weights[i]
    requires forall i :: 0 <= i < |values| ==> lo <= values[i] <= hi
    ensures lo * Sum(weights[..|values|]) <= WeightedSum(values, weights) <= hi * Sum(weights[..|values|])
  {
    if values != [] {
      var k := |values| - 1;
      WeightedSumBetween(values[..k], weights, lo, hi);
      assert weights[..k + 1][..k] == weights[..k];
      var total, x := Sum(weights[..k]), weights[k];
      assert Sum(weights[..k + 1]) == total + x;
      WeightedStep(lo, hi, values[k], x, total, WeightedSum(values[..k], weights));
    }
  }

  lemma {:induction false} PartialSumIsSmaller(weights: seq<int>, k: nat)
    requires k <= |weights| && forall i :: 0 <= i < |weights| ==> 0 <= weights[i]
    ensures 0 <= Sum(weights[..k]) <= Sum(weights)
    decreases |weights|, |weights| - k
  {
    if k == |weights| {
      assert weights[..k] == weights;
      if k > 0 {
        PartialSumIsSmaller(weights[..k - 1], k - 1);
        assert weights[..k - 1][..k - 1] == weights[..k - 1];
      }
    } else {
      var n := |weights| - 1;
      PartialSumIsSmaller(weights[..n], k);
      assert weights[..n][..k] == weights[..k];
    }
  }

  function Mean(c: Config, values: seq<int>): int
    requires |values| == |c.weights| && c.TotalWeight() != 0
  {
    DivRoundClosest(WeightedSum(values, c.weights), c.TotalWeight())
  }

  /** The mean lies between the smallest and the largest value, rounding included. */
  lemma MeanIsBetween(c: Config, values: seq<int>, lo: int, hi: int)
    requires c.Valid() && |values| == |c.weights|
    requires forall i :: 0 <= i < |values| ==> lo <= values[i] <= hi
    ensures lo <= Mean(c, values) <= hi
  {
    WeightedSumBetween(values, c.weights, lo, hi);
    assert c.weights[..|values|] == c.weights;
    RoundingStaysBetween(lo, hi, WeightedSum(values, c.weights), c.TotalWeight());
  }

  lemma ThousandthsStayBetween(out: int)
    requires 0 <= out <= 1000000
    ensures 0 <= DivRoundClosest(out, 1000) <= 1000
  {
    RoundingStaysBetween(0, 1000, out, 1000);
  }

  /** Rescaling maps the fraction onto the output range, ends included. */
  lemma RescaledIsInRange(c: Config, out: int)
    requires c.Valid() && 0 <= out <= 1000000
    ensures c.outMin <= Rescaled(c, out) <= c.outMax
    ensures Rescaled(c, 0) == c.outMin && Rescaled(c, 1000000) == c.outMax
  {
    ThousandthsStayBetween(out);
    var k, span := DivRoundClosest(out, 1000), c.outMax - c.outMin;
    MultiplyOrdered(0, k, span);
    MultiplyOrdered(k, 1000, span);
    assert 1000 * span == span * 1000;
    RoundingStaysBetween(0, span, k * span, 1000);
    RoundingIsExact(0, 1000);
    RoundingIsExact(1000, 1000);
    RoundingIsExact(span, 1000);
  }

  /** Nothing on the way from the sensor values to the report overflows 32 bits. */
  lemma NothingOverflowsInt32(c: Config, values: seq<int>, n: nat, out: int)
    requires c.Valid() && n <= |values| == |c.weights|
    requires AreFractions(values)
    requires 0 <= out <= 1000000
    ensures n < |values| ==> IsInt32(values[n] * c.weights[n])
    ensures IsInt32(WeightedSum(values[..n], c.weights))
    ensures IsInt32(WeightedSum(values[..n], c.weights) + CDiv(c.TotalWeight(), 2))
    ensures IsInt32(out + 500)
    ensures IsInt32(DivRoundClosest(out, 1000) * (c.outMax - c.outMin) + 500)
  {
    WeightedSumBetween(values[..n], c.weights, 0, 1000000);
    PartialSumIsSmaller(c.weights, n);
    if n < |values| {
      WeightedSumBetween(values[..n + 1], c.weights, 0, 1000000);
      PartialSumIsSmaller(c.weights, n + 1);
      assert c.weights[..n + 1][..n] == c.weights[..n];
      MultiplyOrdered(0, values[n], c.weights[n]);
      MultiplyOrdered(values[n], 1000000, c.weights[n]);
    }
    ThousandthsStayBetween(out);
    var k, span := DivRoundClosest(out, 1000), c.outMax - c.outMin;
    MultiplyOrdered(0, k, span);
    MultiplyOrdered(k, 1000, span);
  }

  /** Each sensor counts by its own weight, and nothing else does. */
  lemma {:induction false} WeightedSumResponds(values: seq<int>, weights: seq<int>, i: nat, v: int)
    requires i < |values| <= |weights|
    ensures WeightedSum(values[i := v], weights) == WeightedSum(values, weights) + (v - values[i]) * weights[i]
  {
    var k := |values| - 1;
    if i == k {
      assert values[i := v][..k] == values[..k];
      Distribute(weights[i], v, -values[i]);
    } else {
      WeightedSumResponds(values[..k], weights, i, v);
      assert values[i := v][..k] == values[..k][i := v];
    }
  }

  lemma {:induction false} WeightedSumOfNothing(n: nat, weights: seq<int>)
    requires n <= |weights|
    ensures WeightedSum(seq(n, _ => 0), weights) == 0
  {
    if n > 0 {
      WeightedSumOfNothing(n - 1, weights);
      assert seq(n, _ => 0)[..n - 1] == seq(n - 1, _ => 0);
    }
  }

  /** The mean is the sum over the total weight, to the nearest. */
  lemma MeanError(c: Config, values: seq<int>)
    requires c.Valid() && |values| == |c.weights|
    ensures 2 * Abs(Mean(c, values) * c.TotalWeight() - WeightedSum(values, c.weights)) <= c.TotalWeight()
  {
    RoundingError(WeightedSum(values, c.weights), c.TotalWeight());
  }

  lemma RescalingIsLinear(k: int, q: int, out: int, span: int)
    ensures 1000000 * q - out * span == 1000 * (1000 * q - k * span) + span * (1000 * k - out)
  {
    Distribute(span, 1000 * k, -out);
    assert span * -out == -(out * span);
    assert span * (1000 * k) == 1000 * (k * span);
  }

  /** Rescaling rounds twice: the result is off the exact share by half a thousandth and half a step. */
  lemma RescalingError(c: Config, out: int)
    requires c.outMin <= c.outMax
    ensures
      var span := c.outMax - c.outMin;
      2 * Abs(1000000 * (Rescaled(c, out) - c.outMin) - out * span) <= 1000 * span + 1000000
  {
    var span, k := c.outMax - c.outMin, DivRoundClosest(out, 1000);
    var q := DivRoundClosest(k * span, 1000);
    RoundingError(out, 1000);
    RoundingError(k * span, 1000);
    RescalingIsLinear(k, q, out, span);
    ProductBound(span, 1000 * k - out, 1000);
    assert 2 * Abs(1000 * (1000 * q - k * span)) <= 1000000;
  }

  // ----- monotonicity, from the raw readings to the axis

  lemma {:induction false} WeightedSumIsMonotone(values: seq<int>, more: seq<int>, weights: seq<int>)
    requires |values| == |more| <= |weights|
    requires forall i :: 0 <= i < |weights| ==> 0 <= weights[i]
    requires forall i :: 0 <= i < |values| ==> values[i] <= more[i]
    ensures WeightedSum(values, weights) <= WeightedSum(more, weights)
  {
    if values != [] {
      var k := |values| - 1;
      WeightedSumIsMonotone(values[..k], more[..k], weights);
      MultiplyOrdered(values[k], more[k], weights[k]);
    }
  }

  lemma DeadzoneIsMonotone(c: Config, x: int, y: int)
    requires 0 <= c.deadzoneSize && 0 <= x <= y
    ensures OutDeadzone(c, x) <= OutDeadzone(c, y)
  {
  }

  lemma RescaledIsMonotone(c: Config, x: int, y: int)
    requires c.outMin <= c.outMax && x <= y
    ensures Rescaled(c, x) <= Rescaled(c, y)
  {
    RoundingIsMonotone(x, y, 1000);
    var span := c.outMax - c.outMin;
    MultiplyOrdered(DivRoundClosest(x, 1000), DivRoundClosest(y, 1000), span);
    RoundingIsMonotone(DivRoundClosest(x, 1000) * span, DivRoundClosest(y, 1000) * span, 1000);
  }

  predicate AreUsable(sensors: seq<SensorState>) {
    forall i :: 0 <= i < |sensors| ==> Range(sensors[i].inMin, sensors[i].inMax) != 0
  }

  function Fractions(sensors: seq<SensorState>, raws: seq<int>): seq<int>
    requires |sensors| == |raws| && AreUsable(sensors)
  {
    seq(|raws|, i requires 0 <= i < |raws| =>
      Clamp(Normalised(raws[i], sensors[i].inMin, sensors[i].inMax), 0, 1000000))
  }

  /** The value of the axis, from the raw readings of its sensors. */
  function AxisValue(c: Config, sensors: seq<SensorState>, raws: seq<int>): int
    requires |sensors| == |raws| == |c.weights| && AreUsable(sensors) && c.TotalWeight() != 0
  {
    Rescaled(c, OutDeadzone(c, Mean(c, Fractions(sensors, raws))))
  }

  /** Raising raw readings never lowers the axis. */
  lemma AxisIsMonotone(c: Config, sensors: seq<SensorState>, raws: seq<int>, more: seq<int>)
    requires c.Valid() && |sensors| == |raws| == |more| == |c.weights| && AreUsable(sensors)
    requires forall i :: 0 <= i < |sensors| ==> sensors[i].inMin < sensors[i].inMax
    requires forall i :: 0 <= i < |raws| ==> raws[i] <= more[i]
    ensures AxisValue(c, sensors, raws) <= AxisValue(c, sensors, more)
  {
    var xs, ys := Fractions(sensors, raws), Fractions(sensors, more);
    forall i | 0 <= i < |xs|
      ensures xs[i] <= ys[i]
    {
      NormalisationIsMonotone(raws[i], more[i], sensors[i].inMin, sensors[i].inMax);
    }
    WeightedSumIsMonotone(xs, ys, c.weights);
    RoundingIsMonotone(WeightedSum(xs, c.weights), WeightedSum(ys, c.weights), c.TotalWeight());
    MeanIsBetween(c, xs, 0, 1000000);
    DeadzoneIsMonotone(c, Mean(c, xs), Mean(c, ys));
    RescaledIsMonotone(c, OutDeadzone(c, Mean(c, xs)), OutDeadzone(c, Mean(c, ys)));
  }
}
