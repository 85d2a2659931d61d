/**
 The exponential filter of the Hall-effect speed sensor (drivers/sensor/hall-rpm/hall_rpm.c), in
 integer arithmetic that rounds toward zero. The raw speed, which the driver computes from pulses and
 clock cycles, is a parameter.
 */
module HallRpm {
  import opened CInteger

  // ----- the filter

  /** One update with smoothing factor `alpha` in thousandths. */
  function Filtered(alpha: int, last: int, raw: int): int {
    CDiv(raw * alpha + last * (1000 - alpha), 1000)
  }

  /** One update: the smoothing factor in force, and the raw speed. */
  datatype Update = Update(alpha: int, raw: int)

  /** The smoothing factor changes when the sampling frequency does. */
  function AfterAll(last: int, updates: seq<Update>): int {
    if updates == [] then last
    else
      var u := updates[|updates| - 1];
      Filtered(u.alpha, AfterAll(last, updates[..|updates| - 1]), u.raw)
  }

  predicate AreShares(updates: seq<Update>) {
    forall k :: 0 <= k < |updates| ==> 0 <= updates[k].alpha <= 1000
  }

  /** `n` updates with the same input. */
  function After(alpha: int, last: int, raw: int, n: nat): int {
    if n == 0 then last else Filtered(alpha, After(alpha, last, raw, n - 1), raw)
  }

  /** The smoothing factor for a sampling interval and a time constant, both in milliseconds. */
  function Alpha(interval: int, timeConst: int): int
    requires timeConst != 0
  {
    CDiv(interval * 1000, timeConst)
  }

  predicate IsBetween(x: int, a: int, b: int) {
    a <= x <= b || b <= x <= a
  }

  // ----- one update

  lemma QuotientBounds(x: nat)
    ensures CDiv(x, 1000) * 1000 <= x < CDiv(x, 1000) * 1000 + 1000
  {
  }

  lemma QuotientIsMonotone(x: int, y: int)
    requires x <= y
    ensures CDiv(x, 1000) <= CDiv(y, 1000)
  {
  }

  /** Raising the state and the input never lowers the result. */
  lemma FilterIsMonotone(alpha: int, last: int, last': int, raw: int, raw': int)
    requires 0 <= alpha <= 1000 && last <= last' && raw <= raw'
    ensures Filtered(alpha, last, raw) <= Filtered(alpha, last', raw')
  {
    assert raw * alpha <= raw' * alpha;
    assert last * (1000 - alpha) <= last' * (1000 - alpha);
    QuotientIsMonotone(raw * alpha + last * (1000 - alpha), raw' * alpha + last' * (1000 - alpha));
  }

  /** The result is the exact weighted mean, rounded down. */
  lemma FilterIsWeightedMean(alpha: int, last: int, raw: int)
    requires 0 <= alpha <= 1000 && 0 <= last && 0 <= raw
    ensures
      var mean := raw * alpha + last * (1000 - alpha);
      1000 * Filtered(alpha, last, raw) <= mean < 1000 * Filtered(alpha, last, raw) + 1000
  {
    MultiplyOrdered(0, raw, alpha);
    MultiplyOrdered(0, last, 1000 - alpha);
    QuotientBounds(raw * alpha + last * (1000 - alpha));
  }

  lemma ConstantIsKept(alpha: int, x: int)
    ensures Filtered(alpha, x, x) == x
  {
    assert x * alpha + x * (1000 - alpha) == x * 1000;
  }

  lemma UpdateIsBetween(alpha: int, last: int, raw: int)
    requires 0 <= alpha <= 1000
    ensures IsBetween(Filtered(alpha, last, raw), last, raw)
  {
    ConstantIsKept(alpha, last);
    ConstantIsKept(alpha, raw);
    if last <= raw {
      FilterIsMonotone(alpha, last, last, last, raw);
      FilterIsMonotone(alpha, last, raw, raw, raw);
    } else {
      FilterIsMonotone(alpha, raw, last, raw, raw);
      FilterIsMonotone(alpha, last, last, raw, last);
    }
  }

  /**
   Every update stays between the old value and the input exactly if the smoothing factor is
   between 0 and 1000. Nothing in the driver makes it so.
   */
  lemma BetweenCondition(alpha: int)
    ensures (forall last, raw :: IsBetween(Filtered(alpha, last, raw), last, raw)) <==> 0 <= alpha <= 1000
  {
    if 0 <= alpha <= 1000 {
      forall last, raw
        ensures IsBetween(Filtered(alpha, last, raw), last, raw)
      {
        UpdateIsBetween(alpha, last, raw);
      }
    } else {
      assert Filtered(alpha, 0, 1000) == alpha;
      assert !IsBetween(Filtered(alpha, 0, 1000), 0, 1000);
    }
  }

  lemma QuotientReaches(a: nat, b: nat, k: nat)
    requires b > 0
    ensures CDiv(a, b) == a / b
    ensures a / b >= k <==> a >= k * b
  {
    var q := a / b;
    DivisionBounds(a, b);
    assert (q + 1) * b == q * b + b;
    if q >= k {
      MultiplyOrdered(k, q, b);
    } else {
      MultiplyOrdered(q + 1, k, b);
    }
  }

  /** The factor is the interval in thousandths of the time constant, rounded down. */
  lemma AlphaIsShare(interval: int, timeConst: int)
    requires 0 <= interval && 0 < timeConst
    ensures Alpha(interval, timeConst) * timeConst <= interval * 1000
    ensures interval * 1000 < Alpha(interval, timeConst) * timeConst + timeConst
  {
    QuotientReaches(interval * 1000, timeConst, 0);
    DivisionBounds(interval * 1000, timeConst);
  }

  /** What that demands of the configuration; and an interval that is too small stops the filter. */
  lemma AlphaCondition(interval: int, timeConst: int)
    requires 0 <= interval && 0 < timeConst
    ensures 0 <= Alpha(interval, timeConst)
    ensures Alpha(interval, timeConst) <= 1000 <==> 1000 * interval < 1001 * timeConst
    ensures Alpha(interval, timeConst) == 0 <==> 1000 * interval < timeConst
  {
    QuotientReaches(interval * 1000, timeConst, 1001);
    QuotientReaches(interval * 1000, timeConst, 1);
    QuotientReaches(interval * 1000, timeConst, 0);
  }

  // ----- all inputs

  /** Whatever the inputs and the factors are, the filter stays in the range of the inputs. */
  lemma {:induction false} RunStaysInRange(last: int, updates: seq<Update>, lo: int, hi: int)
    requires AreShares(updates) && lo <= last <= hi
    requires forall k :: 0 <= k < |updates| ==> lo <= updates[k].raw <= hi
    ensures lo <= AfterAll(last, updates) <= hi
  {
    if updates != [] {
      var front, u := updates[..|updates| - 1], updates[|updates| - 1];
      RunStaysInRange(last, front, lo, hi);
      UpdateIsBetween(u.alpha, AfterAll(last, front), u.raw);
    }
  }

  /** An input that is larger at every instant gives an output that is nowhere smaller. */
  lemma {:induction false} RunIsMonotone(last: int, last': int, updates: seq<Update>, updates': seq<Update>)
    requires AreShares(updates) && last <= last' && |updates| == |updates'|
    requires forall k :: 0 <= k < |updates| ==>
               updates[k].alpha == updates'[k].alpha && updates[k].raw <= updates'[k].raw
    ensures AfterAll(last, updates) <= AfterAll(last', updates')
  {
    if updates != [] {
      var n := |updates| - 1;
      RunIsMonotone(last, last', updates[..n], updates'[..n]);
      FilterIsMonotone(
        updates[n].alpha, AfterAll(last, updates[..n]), AfterAll(last', updates'[..n]),
        updates[n].raw, updates'[n].raw);
    }
  }

  /** Nothing overflows 64 bits while state and inputs are below a thousandth of their range. */
  lemma FilterFitsInt64(alpha: int, last: int, raw: int)
    requires 0 <= alpha <= 1000
    requires 0 <= last <= INT64_MAX / 1000 && 0 <= raw <= INT64_MAX / 1000
    ensures IsInt64(raw * alpha) && IsInt64(last * (1000 - alpha)) && IsInt64(raw * alpha + last * (1000 - alpha))
  {
    var most := INT64_MAX / 1000;
    MultiplyOrdered(raw, most, alpha);
    MultiplyOrdered(last, most, 1000 - alpha);
    MultiplyOrdered(0, raw, alpha);
    MultiplyOrdered(0, last, 1000 - alpha);
  }

  // ----- constant input

  /** From above, the distance shrinks by a share that is rounded up. */
  lemma StepFromAbove(alpha: int, last: int, raw: int)
    requires 1 <= alpha <= 1000 && 0 <= raw < last
    ensures raw <= Filtered(alpha, last, raw) < last
    ensures 1000 * (Filtered(alpha, last, raw) - raw) <= (1000 - alpha) * (last - raw)
  {
    UpdateIsBetween(alpha, last, raw);
    var x := raw * alpha + last * (1000 - alpha);
    MultiplyOrdered(1, alpha, last - raw);
    MultiplyOrdered(0, 1000 - alpha, last - raw);
    assert x == 1000 * raw + (1000 - alpha) * (last - raw);
    QuotientBounds(x);
  }

  /** From below, by one that is rounded down, and may be none. */
  lemma StepFromBelow(alpha: int, last: int, raw: int)
    requires 1 <= alpha <= 1000 && 0 <= last <= raw
    ensures last <= Filtered(alpha, last, raw) <= raw
    ensures Filtered(alpha, last, raw) == last <==> alpha * (raw - last) < 1000
    ensures 1000 * (raw - Filtered(alpha, last, raw)) <= (1000 - alpha) * (raw - last) + 999
  {
    UpdateIsBetween(alpha, last, raw);
    var x := raw * alpha + last * (1000 - alpha);
    assert x == 1000 * last + alpha * (raw - last);
    assert alpha * (raw - last) >= 0;
    assert (1000 - alpha) * (raw - last) == 1000 * (raw - last) - alpha * (raw - last);
  }

  /** From above, the filter reaches the input in at most as many updates as it is away, and stays. */
  lemma {:induction false} ReachesFromAbove(alpha: int, last: int, raw: int, n: nat)
    requires 1 <= alpha <= 1000 && 0 <= raw <= last
    ensures raw <= After(alpha, last, raw, n)
    ensures After(alpha, last, raw, n) == raw || After(alpha, last, raw, n) <= last - n
    ensures n >= last - raw ==> After(alpha, last, raw, n) == raw
  {
    if n > 0 {
      ReachesFromAbove(alpha, last, raw, n - 1);
      var before := After(alpha, last, raw, n - 1);
      if before == raw {
        ConstantIsKept(alpha, raw);
      } else {
        StepFromAbove(alpha, before, raw);
      }
    }
  }

  /** From below, it settles as soon as its share of the rest is less than one, and not before. */
  lemma {:induction false} SettlesFromBelow(alpha: int, last: int, raw: int, n: nat)
    requires 1 <= alpha <= 1000 && 0 <= last <= raw
    ensures last <= After(alpha, last, raw, n) <= raw
    ensures alpha * (raw - After(alpha, last, raw, n)) < 1000 || After(alpha, last, raw, n) >= last + n
    ensures n >= raw - last ==> alpha * (raw - After(alpha, last, raw, n)) < 1000
    ensures alpha * (raw - After(alpha, last, raw, n)) < 1000
      <==> After(alpha, last, raw, n + 1) == After(alpha, last, raw, n)
  {
    if n > 0 {
      SettlesFromBelow(alpha, last, raw, n - 1);
      StepFromBelow(alpha, After(alpha, last, raw, n - 1), raw);
    }
    StepFromBelow(alpha, After(alpha, last, raw, n), raw);
    if n >= raw - last && After(alpha, last, raw, n) >= last + n {
      assert raw - After(alpha, last, raw, n) == 0;
    }
  }

  /** The filter reaches every input exactly only if it never rounds a share away. */
  lemma ReachesExactlyCondition(alpha: int)
    requires 1 <= alpha <= 1000
    ensures (forall last: nat, raw: nat, n: nat :: last <= raw && n >= raw - last ==> After(alpha, last, raw, n) == raw)
      <==> alpha == 1000
  {
    if alpha == 1000 {
      forall last: nat, raw: nat, n: nat | last <= raw && n >= raw - last
        ensures After(alpha, last, raw, n) == raw
      {
        SettlesFromBelow(alpha, last, raw, n);
      }
    } else {
      SettlesFromBelow(alpha, 0, 1, 0);
      assert After(alpha, 0, 1, 1) == After(alpha, 0, 1, 0) == 0;
    }
  }

  /** A smoothing factor of 0 never moves. */
  lemma {:induction false} ZeroNeverMoves(last: int, updates: seq<Update>)
    requires forall k :: 0 <= k < |updates| ==> updates[k].alpha == 0
    ensures AfterAll(last, updates) == last
  {
    if updates != [] {
      ZeroNeverMoves(last, updates[..|updates| - 1]);
      assert last * (1000 - 0) == last * 1000;
    }
  }

  // ----- how fast

  function Power(base: nat, n: nat): nat {
    if n == 0 then 1 else base * Power(base, n - 1)
  }

  lemma MultiplyBoth(p: nat, x: int, y: int)
    requires x <= y
    ensures p * x <= p * y
  {
  }

  lemma Reorder(x: int, y: int, z: int)
    ensures (x * y) * z == x * (y * z) == y * (x * z)
  {
  }

  /** What decays by a factor in every update decays by its power. */
  lemma PowerStep(alpha: int, n: nat, d: int, before: int, first: int)
    requires 0 <= alpha <= 1000
    requires 1000 * d <= (1000 - alpha) * before
    requires Power(1000, n) * before <= Power(1000 - alpha, n) * first
    ensures Power(1000, n + 1) * d <= Power(1000 - alpha, n + 1) * first
  {
    var p, q, r := Power(1000, n), Power(1000 - alpha, n), 1000 - alpha;
    MultiplyBoth(p, 1000 * d, r * before);
    MultiplyBoth(r, p * before, q * first);
    Reorder(1000, p, d);
    Reorder(r, p, before);
    Reorder(r, q, first);
  }

  /** From above, the distance to the input decays exponentially. */
  lemma {:induction false} DecaysFromAbove(alpha: int, last: int, raw: int, n: nat)
    requires 1 <= alpha <= 1000 && 0 <= raw <= last
    ensures Power(1000, n) * (After(alpha, last, raw, n) - raw) <= Power(1000 - alpha, n) * (last - raw)
  {
    if n > 0 {
      DecaysFromAbove(alpha, last, raw, n - 1);
      ReachesFromAbove(alpha, last, raw, n - 1);
      var before := After(alpha, last, raw, n - 1);
      if before == raw {
        ConstantIsKept(alpha, raw);
      } else {
        StepFromAbove(alpha, before, raw);
      }
      PowerStep(alpha, n - 1, After(alpha, last, raw, n) - raw, before - raw, last - raw);
    }
  }

  lemma ExcessStep(alpha: int, before: int, now: int)
    requires 1 <= alpha <= 1000 && 1000 * now <= (1000 - alpha) * before + 999
    ensures 1000 * (alpha * now - 999) <= (1000 - alpha) * (alpha * before - 999)
  {
    MultiplyBoth(alpha, 1000 * now, (1000 - alpha) * before + 999);
    assert alpha * ((1000 - alpha) * before + 999) == (1000 - alpha) * (alpha * before) + 999 * alpha;
    assert (1000 - alpha) * (alpha * before - 999) == (1000 - alpha) * (alpha * before) - 999 * (1000 - alpha);
  }

  /** From below, so does what the distance is over the one that rounding leaves. */
  lemma {:induction false} DecaysFromBelow(alpha: int, last: int, raw: int, n: nat)
    requires 1 <= alpha <= 1000 && 0 <= last <= raw
    ensures Power(1000, n) * (alpha * (raw - After(alpha, last, raw, n)) - 999)
         <= Power(1000 - alpha, n) * (alpha * (raw - last) - 999)
  {
    if n > 0 {
      DecaysFromBelow(alpha, last, raw, n - 1);
      SettlesFromBelow(alpha, last, raw, n - 1);
      var before, now := After(alpha, last, raw, n - 1), After(alpha, last, raw, n);
      StepFromBelow(alpha, before, raw);
      ExcessStep(alpha, raw - before, raw - now);
      PowerStep(
        alpha, n - 1, alpha * (raw - now) - 999, alpha * (raw - before) - 999, alpha * (raw - last) - 999);
    }
  }

  // ----- the driver

  class Sensor {
    const timeConst: int
    var samplingInt: int
    var alpha: int

    /** What the periodic timer was last started with, and when in milliseconds. */
    var timerPeriod: int
    var timerStart: int

    /** The clock cycle the next raw speed is measured from. */
    var cycle: int

    /** Speed in thousandths of a revolution per minute. */
    var last: int

    constructor (timeConst: int, samplingInt: int, now: int, cycle: int)
      requires timeConst != 0
      ensures this.timeConst == timeConst && this.samplingInt == samplingInt && last == 0
      ensures timerPeriod == samplingInt && timerStart == now && this.cycle == cycle
      ensures alpha == Alpha(samplingInt, timeConst)
    {
      this.timeConst, this.samplingInt, last := timeConst, samplingInt, 0;
      timerPeriod, timerStart := samplingInt, now;
      this.cycle := cycle;
      alpha := CDiv(samplingInt * 1000, timeConst);
    }

    method TimerCallback(raw: int, cycle: int)
      modifies this`last, this`cycle
      ensures last == Filtered(alpha, old(last), raw) && this.cycle == cycle
    {
      this.cycle := cycle;
      last := CDiv(raw * alpha + last * (1000 - alpha), 1000);
    }

    /**
     Sets the sampling frequency, in thousandths of a hertz, and measures anew from here; the filter
     keeps its state.
     */
    method SetFrequency(frequency: int, now: int, cycle: int)
      requires frequency != 0 && timeConst != 0
      modifies this`samplingInt, this`alpha, this`timerPeriod, this`timerStart, this`cycle
      ensures samplingInt == CDiv(1000000, frequency) && alpha == Alpha(samplingInt, timeConst)
      ensures timerPeriod == samplingInt && timerStart == now && this.cycle == cycle
    {
      samplingInt := CDiv(1000000, frequency);
      timerPeriod, timerStart := samplingInt, now;
      this.cycle := cycle;
      alpha := CDiv(samplingInt * 1000, timeConst);
    }
  }
}
