/**
 What comes of one reading of a sensor and of one cycle of a channel, in terms of the readings: which
 are in range, which agree, which error is reported, and when a value is.
 */
module SensorAxisOutcomes {
  import opened Types
  import opened CInteger
  import opened InputEvents
  import opened SensorAxis
  import opened SensorAxisArithmetic
  import opened SensorAxisChecks

  // ----- one reading

  /** The range tolerance in force, in percent: a tenth is off while the range error is set. */
  function ToleranceInForce(s: SensorState): int {
    if s.error == ERROR_UNDER || s.error == ERROR_OVER then s.rangeTolerance - s.rangeTolerance * 10 / 100
    else s.rangeTolerance
  }

  /** The outcome of a reading that fails with `code`: reported unless some error is set already. */
  predicate FailsWith(s: SensorState, r: SensorResult, code: nat, ret: int) {
    && r.ret == ret
    && r.events == (if s.error == ERROR_NONE then [Error(code, true)] else [])
    && r.state == s.(error := if s.error == ERROR_NONE then code else s.error)
  }

  /** The outcome of a good reading: the fraction, and an error that was set is cleared by its own code. */
  predicate Succeeds(s: SensorState, r: SensorResult, fraction: int) {
    && r.ret == 0
    && r.value == (if fraction < 0 then 0 else if fraction > 1000000 then 1000000 else fraction)
    && r.events == (if s.error == ERROR_NONE then [] else [Error(s.error, false)])
    && r.state == s.(error := ERROR_NONE)
  }

  /**
   With its report delivered, a reading is too low, too high or good exactly by how far its fraction
   is beyond the setpoints; without a tolerance every reading is good.
   */
  lemma ReadingOutcome(s: SensorState, v: int, report: int)
    requires Range(s.inMin, s.inMax) != 0 && report >= 0
    ensures
      var r, fraction := AfterSensorGet(s, Raw(v), report), Normalised(v, s.inMin, s.inMax);
      var margin := 10000 * ToleranceInForce(s);
      if s.rangeTolerance >= 0 && fraction < -margin then FailsWith(s, r, 0x10, -22)
      else if s.rangeTolerance >= 0 && fraction > 1000000 + margin then FailsWith(s, r, 0x11, -22)
      else Succeeds(s, r, fraction)
  {
  }

  /** So a reading is refused exactly if it is checked and out of the tolerance. */
  lemma ReadingIsRefusedExactly(s: SensorState, v: int, report: int)
    requires Range(s.inMin, s.inMax) != 0 && report >= 0 && s.error == ERROR_NONE && s.rangeTolerance >= 0
    ensures
      var r, fraction := AfterSensorGet(s, Raw(v), report), Normalised(v, s.inMin, s.inMax);
      && (r.ret == -22 && r.events == [Error(0x11, true)] <==> fraction > 1000000 + 10000 * s.rangeTolerance)
      && (r.ret == -22 && r.events == [Error(0x10, true)] <==> fraction < -10000 * s.rangeTolerance)
      && (r.ret == 0 && r.events == [] <==>
            -10000 * s.rangeTolerance <= fraction <= 1000000 + 10000 * s.rangeTolerance)
  {
    ReadingOutcome(s, v, report);
  }

  /** A sensor that is busy or fails. */
  lemma NoReadingOutcome(s: SensorState, reading: Reading, report: int)
    requires Range(s.inMin, s.inMax) != 0 && report >= 0 && !reading.Raw?
    ensures FailsWith(s, AfterSensorGet(s, reading, report), if reading.Busy? then 0x02 else 0x01, reading.ret)
  {
  }

  /** A report that fails is what is returned, and the error stays as it was. */
  lemma FailedReportOutcome(s: SensorState, reading: Reading, report: int)
    requires Range(s.inMin, s.inMax) != 0 && report < 0
    requires AfterSensorGet(s, reading, 0).events != []
    ensures AfterSensorGet(s, reading, report) == SensorResult(s, report, 0, [])
  {
  }

  // ----- which sensors agree

  /** Two of the values are further apart than the deviation tolerance in force. */
  predicate Disagree(c: Config, s: ChannelState, values: seq<int>) {
    var tolerance := if s.error == ERROR_DEV then c.devTolerance - c.devTolerance * 10 / 100 else c.devTolerance;
    c.devTolerance >= 0
    && exists i, j :: 0 <= i < |values| && 0 <= j < |values| && values[i] - values[j] > tolerance * 10000
  }

  lemma GoodSweepDeviatesExactly(c: Config, s: ChannelState, samples: seq<Sample>, reports: seq<int>)
    requires c.Valid() && |samples| == |reports| == |c.weights| && AreGood(samples)
    ensures Deviates(c, SweepOf(c, s, samples, reports)) <==> Disagree(c, s, Values(samples))
  {
    GoodSweep(c, s, samples, reports);
    var w, values := SweepOf(c, s, samples, reports), Values(samples);
    var i :| 0 <= i < |values| && values[i] == w.max;
    var j :| 0 <= j < |values| && values[j] == w.min;
  }

  // ----- one cycle with good sensors

  predicate AreDelivered(cycle: Cycle) {
    && (forall i :: 0 <= i < |cycle.reports| ==> cycle.reports[i] >= 0)
    && cycle.errorReport >= 0
    && cycle.axisReport >= 0
  }

  /** The output has moved by the noise at least, or none is remembered. */
  predicate HasMoved(c: Config, s: ChannelState, out: int) {
    s.prevOut == INVALID_OUT || out - s.prevOut >= c.noise || s.prevOut - out >= c.noise
  }

  /** The value of the axis, if it has moved. */
  function Moved(c: Config, s: ChannelState, mean: int): seq<Event> {
    if HasMoved(c, s, OutDeadzone(c, mean)) then [Axis(Rescaled(c, OutDeadzone(c, mean)))] else []
  }

  /**
   Good sensors that disagree: a bad call with the deviation code. Good sensors that agree: with no
   error set the cycle succeeds, and reports a value exactly if the output has moved. With one set, it
   waits for the accumulated time to decay, and then clears the error with code 0 before the value.
   */
  lemma GoodCycleOutcome(c: Config, s: ChannelState, samples: seq<Sample>, cycle: Cycle)
    requires c.Valid() && |samples| == |cycle.reports| == |c.weights| && AreGood(samples) && AreDelivered(cycle)
    requires 0 <= s.accumErrorTime <= c.timeTolerance
    ensures
      var r, values := AfterChannelUpdate(c, s, samples, cycle), Values(samples);
      var moved := Moved(c, s, Mean(c, values));
      var rest := Max(s.accumErrorTime - Decay(c), 0);
      if Disagree(c, s, values) then
        && r.ret == -22
        && r.events == (if !IsLatched(s) && s.accumErrorTime + c.pollPeriod >= c.timeTolerance
                        then [Error(0x12, true)] else [])
      else if IsLatched(s) && rest > 0 then
        r.ret == -11 && r.events == [] && IsLatched(r.state)
      else
        && r.ret == |moved| && !IsLatched(r.state)
        && r.events == (if IsLatched(s) then [Error(0, false)] else []) + moved
  {
    GoodSweep(c, s, samples, cycle.reports);
    GoodSweepDeviatesExactly(c, s, samples, cycle.reports);
    DecayIsNonNegative(c);
    var w := SweepOf(c, s, samples, cycle.reports);
    if !Deviates(c, w) {
      GoodReportOutcome(c, s, w, cycle);
    }
  }

  lemma GoodReportOutcome(c: Config, s: ChannelState, w: Sweep, cycle: Cycle)
    requires c.Valid() && w.channel == s && w.ret == 0 && w.events == [] && !Deviates(c, w) && AreDelivered(cycle)
    requires 0 <= s.accumErrorTime <= c.timeTolerance
    ensures
      var r := AfterSweep(c, w, cycle.errorReport, cycle.axisReport);
      var moved := Moved(c, s, DivRoundClosest(w.sum, c.TotalWeight()));
      var rest := Max(s.accumErrorTime - Decay(c), 0);
      if IsLatched(s) && rest > 0 then r.ret == -11 && r.events == [] && IsLatched(r.state)
      else
        && r.ret == |moved| && !IsLatched(r.state)
        && r.events == (if IsLatched(s) then [Error(0, false)] else []) + moved
  {
    DecayIsNonNegative(c);
  }

  // ----- which error a channel reports

  /** Sensors that fail among the first `k`. */
  function BadBefore(samples: seq<Sample>, k: nat): nat
    requires k <= |samples|
  {
    if k == 0 then 0 else BadBefore(samples, k - 1) + if IsGood(samples[k - 1]) then 0 else 1
  }

  /** What is wrong with a sensor that fails: it is not ready, or reading it failed. */
  function CodeOf(p: Sample): nat {
    if p.NotReady? then 0x03 else 0x01
  }

  /** Sensor `k` fails, and with it the time tolerance is used up, but not before. */
  predicate UsesUpTolerance(c: Config, s: ChannelState, samples: seq<Sample>, k: nat) {
    && k < |samples| && !IsGood(samples[k])
    && s.accumErrorTime + c.pollPeriod * BadBefore(samples, k + 1) >= c.timeTolerance
    && (BadBefore(samples, k) == 0 || s.accumErrorTime + c.pollPeriod * BadBefore(samples, k) < c.timeTolerance)
  }

  lemma {:induction false} BadBeforeIsLocal(samples: seq<Sample>, n: nat, k: nat)
    requires k <= n <= |samples|
    ensures BadBefore(samples[..n], k) == BadBefore(samples, k)
  {
    if k > 0 {
      BadBeforeIsLocal(samples, n, k - 1);
    }
  }

  /** One more bad call, with the tolerance used up or not. */
  lemma BadCallOutcome(c: Config, s: ChannelState, error: nat, ret: int, report: int)
    requires c.Valid() && 0 <= s.accumErrorTime <= c.timeTolerance && error != ERROR_NONE && report >= 0
    ensures
      var r := AfterChannelError(c, s, error, ret, report);
      && r.state.accumErrorTime == Min(s.accumErrorTime + c.pollPeriod, c.timeTolerance)
      && (if IsLatched(s) then r.state.error == s.error && r.events == []
          else if s.accumErrorTime + c.pollPeriod >= c.timeTolerance then
            r.state.error == error && r.events == [Error(error, true)]
          else r.state.error == ERROR_NONE && r.events == [])
  {
  }

  /** The error is that of the sensor that uses up the tolerance, and nothing else is reported. */
  ghost predicate SetBySensor(c: Config, s: ChannelState, samples: seq<Sample>, error: nat, events: seq<Event>) {
    exists k: nat :: UsesUpTolerance(c, s, samples, k) && error == CodeOf(samples[k]) && events == [Error(error, true)]
  }

  lemma SetBySensorExtends(c: Config, s: ChannelState, samples: seq<Sample>, n: nat, error: nat, events: seq<Event>)
    requires n <= |samples| && SetBySensor(c, s, samples[..n], error, events)
    ensures SetBySensor(c, s, samples, error, events)
  {
    var k: nat :| UsesUpTolerance(c, s, samples[..n], k) && error == CodeOf(samples[..n][k])
                  && events == [Error(error, true)];
    BadBeforeIsLocal(samples, n, k);
    BadBeforeIsLocal(samples, n, k + 1);
    assert UsesUpTolerance(c, s, samples, k);
  }

  lemma SetBySensorIsSpent(c: Config, s: ChannelState, samples: seq<Sample>, error: nat, events: seq<Event>)
    requires 0 < c.pollPeriod && SetBySensor(c, s, samples, error, events)
    ensures s.accumErrorTime + c.pollPeriod * BadBefore(samples, |samples|) >= c.timeTolerance
  {
    var k: nat :| UsesUpTolerance(c, s, samples, k) && error == CodeOf(samples[k]) && events == [Error(error, true)];
    BadBeforeGrows(samples, k + 1, |samples|);
    StaysSpent(
      s.accumErrorTime, c.pollPeriod, c.timeTolerance, BadBefore(samples, k + 1), BadBefore(samples, |samples|));
  }

  lemma StaysSpent(time: int, period: int, tolerance: int, n: nat, m: nat)
    requires 0 < period && n <= m && time + period * n >= tolerance
    ensures time + period * m >= tolerance
  {
    MultiplyOrdered(n, m, period);
  }

  /** State of the loop after the first sensors, for a channel without an error. */
  ghost predicate SweptSoFar(c: Config, s: ChannelState, samples: seq<Sample>, w: Sweep) {
    var bad := BadBefore(samples, |samples|);
    && w.channel.accumErrorTime == Min(s.accumErrorTime + c.pollPeriod * bad, c.timeTolerance)
    && (if IsLatched(w.channel) then SetBySensor(c, s, samples, w.channel.error, w.events)
        else w.events == [] && (bad == 0 || s.accumErrorTime + c.pollPeriod * bad < c.timeTolerance))
  }

  lemma {:induction false} SweepErrorCode(c: Config, s: ChannelState, samples: seq<Sample>, reports: seq<int>)
    requires c.Valid() && |samples| == |reports| <= |c.weights| && !IsLatched(s)
    requires 0 <= s.accumErrorTime <= c.timeTolerance
    requires forall i :: 0 <= i < |reports| ==> reports[i] >= 0
    ensures SweptSoFar(c, s, samples, SweepOf(c, s, samples, reports))
  {
    if samples != [] {
      var n := |samples| - 1;
      SweepErrorCode(c, s, samples[..n], reports[..n]);
      SweepStepErrorCode(c, s, samples, SweepOf(c, s, samples[..n], reports[..n]), reports[n]);
    }
  }

  lemma SweepStepErrorCode(c: Config, s: ChannelState, samples: seq<Sample>, w: Sweep, report: int)
    requires c.Valid() && samples != [] && |samples| <= |c.weights| && report >= 0 && !IsLatched(s)
    requires 0 <= s.accumErrorTime <= c.timeTolerance
    requires SweptSoFar(c, s, samples[..|samples| - 1], w)
    ensures SweptSoFar(c, s, samples, SweepStep(c, w, |samples| - 1, Last(samples), report))
  {
    var n, p := |samples| - 1, Last(samples);
    var bad := BadBefore(samples, n);
    BadBeforeIsLocal(samples, n, n);
    MultiplyOrdered(0, bad, c.pollPeriod);
    Distribute(c.pollPeriod, bad, 1);
    if IsLatched(w.channel) {
      SetBySensorExtends(c, s, samples, n, w.channel.error, w.events);
      SetBySensorIsSpent(c, s, samples[..n], w.channel.error, w.events);
    }
    if !IsGood(p) {
      var ret := if p.NotReady? then -ENODEV else p.ret;
      BadCallOutcome(c, w.channel, CodeOf(p), ret, report);
      assert w.events + [] == w.events;
      if !IsLatched(w.channel) && w.channel.accumErrorTime + c.pollPeriod >= c.timeTolerance {
        assert UsesUpTolerance(c, s, samples, n);
        assert SetBySensor(c, s, samples, CodeOf(p), [Error(CodeOf(p), true)]);
      }
    }
  }

  /**
   With its reports delivered, a cycle with failing sensors sets an error exactly if they use up the
   tolerance, and the error it reports is that of the sensor that does.
   */
  lemma BadCycleErrorCode(c: Config, s: ChannelState, samples: seq<Sample>, cycle: Cycle)
    requires c.Valid() && |samples| == |cycle.reports| == |c.weights| && AreDelivered(cycle)
    requires !IsLatched(s) && 0 <= s.accumErrorTime <= c.timeTolerance
    requires exists i :: 0 <= i < |samples| && !IsGood(samples[i])
    ensures
      var r := AfterChannelUpdate(c, s, samples, cycle);
      && (IsLatched(r.state) <==> s.accumErrorTime + c.pollPeriod * BadBefore(samples, |samples|) >= c.timeTolerance)
      && (!IsLatched(r.state) ==> r.events == [])
      && (IsLatched(r.state) ==>
            SetBySensor(c, s, samples, r.state.error, r.events))
  {
    SweepErrorCode(c, s, samples, cycle.reports);
    SweepFailsOnBadSensor(c, s, samples, cycle.reports);
    BadBeforeCounts(samples, |samples|);
    var w := SweepOf(c, s, samples, cycle.reports);
    if IsLatched(w.channel) {
      SetBySensorIsSpent(c, s, samples, w.channel.error, w.events);
    }
  }

  lemma {:induction false} BadBeforeGrows(samples: seq<Sample>, k: nat, n: nat)
    requires k <= n <= |samples|
    ensures BadBefore(samples, k) <= BadBefore(samples, n)
  {
    if k < n {
      BadBeforeGrows(samples, k, n - 1);
    }
  }

  /** Good sensors set one exactly if they disagree and that uses up the tolerance: a deviation. */
  lemma GoodCycleErrorCode(c: Config, s: ChannelState, samples: seq<Sample>, cycle: Cycle)
    requires c.Valid() && |samples| == |cycle.reports| == |c.weights| && AreDelivered(cycle) && AreGood(samples)
    requires !IsLatched(s) && 0 <= s.accumErrorTime <= c.timeTolerance
    ensures
      var r := AfterChannelUpdate(c, s, samples, cycle);
      && (IsLatched(r.state) <==>
            Disagree(c, s, Values(samples)) && s.accumErrorTime + c.pollPeriod >= c.timeTolerance)
      && (IsLatched(r.state) ==> r.state.error == 0x12 && r.events == [Error(0x12, true)])
  {
    GoodSweep(c, s, samples, cycle.reports);
    GoodSweepDeviatesExactly(c, s, samples, cycle.reports);
    BadCallOutcome(c, s, ERROR_DEV, -EINVAL, cycle.errorReport);
    if !Disagree(c, s, Values(samples)) {
      GoodCycleOutcome(c, s, samples, cycle);
    }
  }

  lemma {:induction false} BadBeforeCounts(samples: seq<Sample>, k: nat)
    requires k <= |samples|
    ensures BadBefore(samples, k) == 0 <==> forall i :: 0 <= i < k ==> IsGood(samples[i])
  {
    if k > 0 {
      BadBeforeCounts(samples, k - 1);
    }
  }
}
