/** The checks of the sensor axis: error debounce, gating of reports, noise and deadzone. */
module SensorAxisChecks {
  import opened Types
  import opened CInteger
  import opened InputEvents
  import opened SensorAxis
  import opened SensorAxisArithmetic

  // ----- error debounce, over any sequence of calls

  /** One call of `channel_error_update`: the error found, and what reporting it returns. */
  datatype Call = Call(error: nat, report: int)

  function AfterCall(c: Config, s: ChannelState, call: Call): ChannelState {
    AfterChannelError(c, s, call.error, if call.error == ERROR_NONE then 0 else -EINVAL, call.report).state
  }

  function AfterCalls(c: Config, s: ChannelState, calls: seq<Call>): ChannelState {
    if calls == [] then s else AfterCall(c, AfterCalls(c, s, calls[..|calls| - 1]), Last(calls))
  }

  function Count(calls: seq<Call>, bad: bool): nat {
    if calls == [] then 0
    else Count(calls[..|calls| - 1], bad) + if (Last(calls).error != ERROR_NONE) == bad then 1 else 0
  }

  predicate AllDelivered(calls: seq<Call>) {
    forall i :: 0 <= i < |calls| ==> calls[i].report >= 0
  }

  predicate IsLatched(s: ChannelState) {
    s.error != ERROR_NONE
  }

  /**
   The error is a Schmitt trigger on the accumulated time: it is only set at the tolerance and
   only cleared at zero.
   */
  predicate IsTriggered(c: Config, s: ChannelState) {
    && 0 <= s.accumErrorTime <= c.timeTolerance
    && (c.timeTolerance > 0 ==> if IsLatched(s) then s.accumErrorTime > 0 else s.accumErrorTime < c.timeTolerance)
  }

  lemma DecayIsNonNegative(c: Config)
    requires c.Valid()
    ensures 0 <= Decay(c)
    ensures Decay(c) == 0 <==> c.timeTolerance * c.timeToleranceDecay < 100
  {
    MultiplyOrdered(0, c.timeTolerance, c.timeToleranceDecay);
  }

  /** What one good call takes off: the share of the tolerance, rounded down. */
  lemma DecayIsShare(c: Config)
    requires c.Valid()
    ensures 100 * Decay(c) <= c.timeTolerance * c.timeToleranceDecay < 100 * Decay(c) + 100
  {
    MultiplyOrdered(0, c.timeTolerance, c.timeToleranceDecay);
  }

  lemma {:induction false} AccumulationIsBounded(c: Config, s: ChannelState, calls: seq<Call>)
    requires c.Valid() && 0 <= s.accumErrorTime <= c.timeTolerance
    ensures 0 <= AfterCalls(c, s, calls).accumErrorTime <= c.timeTolerance
  {
    if calls != [] {
      AccumulationIsBounded(c, s, calls[..|calls| - 1]);
      DecayIsNonNegative(c);
    }
  }

  lemma {:induction false} CallsKeepTrigger(c: Config, s: ChannelState, calls: seq<Call>)
    requires c.Valid() && IsTriggered(c, s) && AllDelivered(calls)
    ensures IsTriggered(c, AfterCalls(c, s, calls))
  {
    if calls != [] {
      CallsKeepTrigger(c, s, calls[..|calls| - 1]);
      DecayIsNonNegative(c);
    }
  }

  lemma BadCallAdds(c: Config, s: ChannelState, call: Call)
    requires c.Valid() && 0 <= s.accumErrorTime <= c.timeTolerance
    ensures
      var t := AfterCall(c, s, call);
      && t.accumErrorTime <= s.accumErrorTime + (if call.error != ERROR_NONE then c.pollPeriod else 0)
      && (!IsLatched(s) && IsLatched(t) ==> t.accumErrorTime == c.timeTolerance)
  {
    DecayIsNonNegative(c);
  }

  lemma GoodCallTakes(c: Config, s: ChannelState, call: Call)
    requires c.Valid() && 0 <= s.accumErrorTime <= c.timeTolerance
    ensures
      var t := AfterCall(c, s, call);
      && s.accumErrorTime <= t.accumErrorTime + (if call.error == ERROR_NONE then Decay(c) else 0)
      && (IsLatched(s) && !IsLatched(t) ==> t.accumErrorTime == 0)
  {
    DecayIsNonNegative(c);
  }

  /** However good and bad calls mix, setting the error takes enough bad ones. */
  lemma {:induction false} SettingNeedsBadCalls(c: Config, s: ChannelState, calls: seq<Call>)
    requires c.Valid() && 0 <= s.accumErrorTime <= c.timeTolerance
    ensures AfterCalls(c, s, calls).accumErrorTime <= s.accumErrorTime + c.pollPeriod * Count(calls, true)
    ensures !IsLatched(s) && IsLatched(AfterCalls(c, s, calls)) ==>
              c.timeTolerance <= s.accumErrorTime + c.pollPeriod * Count(calls, true)
  {
    if calls != [] {
      var front := calls[..|calls| - 1];
      SettingNeedsBadCalls(c, s, front);
      AccumulationIsBounded(c, s, front);
      BadCallAdds(c, AfterCalls(c, s, front), Last(calls));
      Distribute(c.pollPeriod, Count(front, true), 1);
    }
  }

  /** And clearing it takes enough good ones. */
  lemma {:induction false} ClearingNeedsGoodCalls(c: Config, s: ChannelState, calls: seq<Call>)
    requires c.Valid() && 0 <= s.accumErrorTime <= c.timeTolerance
    ensures s.accumErrorTime <= AfterCalls(c, s, calls).accumErrorTime + Decay(c) * Count(calls, false)
    ensures IsLatched(s) && !IsLatched(AfterCalls(c, s, calls)) ==>
              s.accumErrorTime <= Decay(c) * Count(calls, false)
  {
    if calls != [] {
      var front := calls[..|calls| - 1];
      ClearingNeedsGoodCalls(c, s, front);
      AccumulationIsBounded(c, s, front);
      DecayIsNonNegative(c);
      GoodCallTakes(c, AfterCalls(c, s, front), Last(calls));
      Distribute(Decay(c), Count(front, false), 1);
    }
  }

  /** In a row, bad calls set the error exactly when their poll periods add up to the tolerance. */
  lemma {:induction false} BadCallsInARow(c: Config, s: ChannelState, calls: seq<Call>)
    requires c.Valid() && IsTriggered(c, s) && !IsLatched(s) && c.timeTolerance > 0 && AllDelivered(calls)
    requires forall i :: 0 <= i < |calls| ==> calls[i].error != ERROR_NONE
    ensures
      var t := AfterCalls(c, s, calls);
      && t.accumErrorTime == Min(s.accumErrorTime + c.pollPeriod * |calls|, c.timeTolerance)
      && (IsLatched(t) <==> s.accumErrorTime + c.pollPeriod * |calls| >= c.timeTolerance)
  {
    if calls != [] {
      var front := calls[..|calls| - 1];
      BadCallsInARow(c, s, front);
      assert c.pollPeriod * |calls| == c.pollPeriod * |front| + c.pollPeriod;
    }
  }

  /** In a row, good calls clear it exactly when their decays add up to the accumulated time. */
  lemma {:induction false} GoodCallsInARow(c: Config, s: ChannelState, calls: seq<Call>)
    requires c.Valid() && IsTriggered(c, s) && IsLatched(s) && c.timeTolerance > 0 && AllDelivered(calls)
    requires forall i :: 0 <= i < |calls| ==> calls[i].error == ERROR_NONE
    ensures
      var t := AfterCalls(c, s, calls);
      && t.accumErrorTime == Max(s.accumErrorTime - Decay(c) * |calls|, 0)
      && (!IsLatched(t) <==> s.accumErrorTime <= Decay(c) * |calls|)
  {
    if calls != [] {
      var front := calls[..|calls| - 1];
      GoodCallsInARow(c, s, front);
      DecayIsNonNegative(c);
      assert Decay(c) * |calls| == Decay(c) * |front| + Decay(c);
    }
  }

  function GoodCalls(n: nat): seq<Call> {
    seq(n, _ => Call(ERROR_NONE, 0))
  }

  /**
   A decay that rounds down to nothing never clears an error: some number of good calls clears it
   exactly if the time tolerance times its decay rate, in percent, is at least 100.
   */
  lemma ErrorCanClear(c: Config, s: ChannelState)
    requires c.Valid() && IsTriggered(c, s) && IsLatched(s) && c.timeTolerance > 0
    ensures (exists n: nat :: !IsLatched(AfterCalls(c, s, GoodCalls(n))))
            <==> c.timeTolerance * c.timeToleranceDecay >= 100
  {
    DecayIsNonNegative(c);
    if Decay(c) > 0 {
      var n := s.accumErrorTime;
      GoodCallsInARow(c, s, GoodCalls(n));
      MultiplyOrdered(1, Decay(c), n);
      assert !IsLatched(AfterCalls(c, s, GoodCalls(n)));
    } else {
      forall n: nat
        ensures IsLatched(AfterCalls(c, s, GoodCalls(n)))
      {
        GoodCallsInARow(c, s, GoodCalls(n));
      }
    }
  }

  // ----- one cycle of a channel

  /** The calls one loop over the sensors makes: one for each bad sensor. */
  function CallsOf(samples: seq<Sample>, reports: seq<int>): seq<Call>
    requires |samples| == |reports|
  {
    if samples == [] then []
    else
      var k := |samples| - 1;
      var front := CallsOf(samples[..k], reports[..k]);
      if IsGood(samples[k]) then front
      else front + [Call(if samples[k].NotReady? then ERROR_NODEV else ERROR_IO, reports[k])]
  }

  lemma StateIgnoresReturnValue(c: Config, s: ChannelState, error: nat, ret: int, ret': int, report: int)
    ensures AfterChannelError(c, s, error, ret, report).state == AfterChannelError(c, s, error, ret', report).state
  {
  }

  lemma BadStepIsCall(c: Config, w: Sweep, k: nat, p: Sample, report: int)
    requires k < |c.weights| && !IsGood(p)
    ensures SweepStep(c, w, k, p, report).channel ==
            AfterCall(c, w.channel, Call(if p.NotReady? then ERROR_NODEV else ERROR_IO, report))
  {
    var error, ret := if p.NotReady? then ERROR_NODEV else ERROR_IO, if p.NotReady? then -ENODEV else p.ret;
    StateIgnoresReturnValue(c, w.channel, error, ret, -EINVAL, report);
  }

  lemma {:induction false} CallsAreBad(samples: seq<Sample>, reports: seq<int>)
    requires |samples| == |reports|
    ensures forall i :: 0 <= i < |CallsOf(samples, reports)| ==> CallsOf(samples, reports)[i].error != ERROR_NONE
    ensures (forall i :: 0 <= i < |reports| ==> reports[i] >= 0) ==> AllDelivered(CallsOf(samples, reports))
  {
    if samples != [] {
      CallsAreBad(samples[..|samples| - 1], reports[..|samples| - 1]);
    }
  }

  lemma CallsGrow(c: Config, s: ChannelState, calls: seq<Call>, call: Call)
    ensures AfterCalls(c, s, calls + [call]) == AfterCall(c, AfterCalls(c, s, calls), call)
  {
    assert (calls + [call])[..|calls|] == calls;
  }

  lemma {:induction false} SweepMakesCalls(c: Config, s: ChannelState, samples: seq<Sample>, reports: seq<int>)
    requires |samples| == |reports| <= |c.weights|
    ensures SweepOf(c, s, samples, reports).channel == AfterCalls(c, s, CallsOf(samples, reports))
  {
    if samples != [] {
      var k := |samples| - 1;
      var w := SweepOf(c, s, samples[..k], reports[..k]);
      SweepMakesCalls(c, s, samples[..k], reports[..k]);
      if !IsGood(samples[k]) {
        BadStepIsCall(c, w, k, samples[k], reports[k]);
        CallsGrow(c, s, CallsOf(samples[..k], reports[..k]),
                  Call(if samples[k].NotReady? then ERROR_NODEV else ERROR_IO, reports[k]));
      }
    }
  }

  /**
   A cycle lasts one poll period, but adds one for each bad sensor: with several of them the
   error is set before its time tolerance is over.
   */
  lemma EachBadSensorCounts(c: Config, s: ChannelState, samples: seq<Sample>, reports: seq<int>)
    requires c.Valid() && IsTriggered(c, s) && !IsLatched(s) && c.timeTolerance > 0
    requires |samples| == |reports| == |c.weights| && forall i :: 0 <= i < |reports| ==> reports[i] >= 0
    ensures
      var t, bad := SweepOf(c, s, samples, reports).channel, |CallsOf(samples, reports)|;
      && t.accumErrorTime == Min(s.accumErrorTime + c.pollPeriod * bad, c.timeTolerance)
      && (IsLatched(t) <==> s.accumErrorTime + c.pollPeriod * bad >= c.timeTolerance)
  {
    SweepMakesCalls(c, s, samples, reports);
    CallsAreBad(samples, reports);
    BadCallsInARow(c, s, CallsOf(samples, reports));
  }

  // ----- what is reported

  lemma SampleIsFraction(s: SensorState, ready: bool, reading: Reading, report: int)
    requires Range(s.inMin, s.inMax) != 0 && (reading.Raw? || reading.ret < 0)
    ensures
      var p := SampleOf(s, ready, reading, report);
      IsGood(p) ==>
        && ready && reading.Raw?
        && p.value == Clamp(Normalised(reading.value, s.inMin, s.inMax), 0, 1000000)
  {
  }

  function Raws(cycle: Cycle): seq<int> {
    seq(|cycle.readings|, i requires 0 <= i < |cycle.readings| =>
      if cycle.readings[i].Raw? then cycle.readings[i].value else 0)
  }

  lemma GoodSamplesAreFractions(sensors: seq<SensorState>, cycle: Cycle)
    requires cycle.Fits(|sensors|) && AreUsable(sensors)
    requires forall i :: 0 <= i < |sensors| ==> IsGood(SamplesOf(sensors, cycle)[i])
    ensures AreGood(SamplesOf(sensors, cycle))
    ensures forall i :: 0 <= i < |sensors| ==> cycle.ready[i] && cycle.readings[i].Raw?
    ensures Values(SamplesOf(sensors, cycle)) == Fractions(sensors, Raws(cycle))
  {
    var samples := SamplesOf(sensors, cycle);
    forall i | 0 <= i < |samples|
      ensures 0 <= samples[i].value <= 1000000
      ensures cycle.ready[i] && cycle.readings[i].Raw? && samples[i].value == Fractions(sensors, Raws(cycle))[i]
    {
      SampleIsFraction(sensors[i], cycle.ready[i], cycle.readings[i], cycle.sensorReports[i]);
    }
  }

  lemma ReportNeedsGoodSensors(c: Config, s: ChannelState, samples: seq<Sample>, cycle: Cycle, value: int)
    requires c.TotalWeight() != 0 && |samples| == |cycle.reports| == |c.weights|
    requires Axis(value) in AfterChannelUpdate(c, s, samples, cycle).events
    ensures AfterChannelUpdate(c, s, samples, cycle).state.error == ERROR_NONE
    ensures forall i :: 0 <= i < |samples| ==> IsGood(samples[i])
    ensures value == Rescaled(c, CurrentOut(c, SweepOf(c, s, samples, cycle.reports)))
  {
    SweepFailsOnBadSensor(c, s, samples, cycle.reports);
  }

  predicate InDeadzone(c: Config, out: int) {
    match c.deadzoneMode
    case Center => 500000 - c.deadzoneSize * 10000 <= out <= 500000 + c.deadzoneSize * 10000
    case Edge => out < c.deadzoneSize * 10000
    case Unknown => false
  }

  /** Where the axis rests while the mean is in the deadzone, and the mean elsewhere. */
  function RestsAt(c: Config, mean: int): int {
    if !InDeadzone(c, mean) then mean else if c.deadzoneMode.Center? then 500000 else 0
  }

  lemma DeadzoneRests(c: Config, mean: int)
    requires c.deadzoneMode != Unknown && 0 <= c.deadzoneSize && 0 <= mean
    ensures OutDeadzone(c, mean) == RestsAt(c, mean)
  {
  }

  /**
   An axis value is only reported in a cycle in which all sensors are good and agree, and that
   ends without an error; it is the weighted mean of their readings, through deadzone and
   rescaling, lies in the output range, and is off its exact place there by the rounding alone.
   */
  lemma ReportIsHealthy(c: Config, s: ChannelState, sensors: seq<SensorState>, cycle: Cycle, value: int)
    requires c.Valid() && c.deadzoneMode != Unknown && |sensors| == |c.weights|
    requires cycle.Fits(|sensors|) && AreUsable(sensors)
    requires Axis(value) in AfterChannelUpdate(c, s, SamplesOf(sensors, cycle), cycle).events
    ensures
      var r := AfterChannelUpdate(c, s, SamplesOf(sensors, cycle), cycle);
      && r.state.error == ERROR_NONE
      && AreGood(SamplesOf(sensors, cycle))
      && (forall i :: 0 <= i < |sensors| ==> cycle.ready[i] && cycle.readings[i].Raw?)
      && value == AxisValue(c, sensors, Raws(cycle))
      && c.outMin <= value <= c.outMax
    ensures
      var span, mean := c.outMax - c.outMin, Mean(c, Fractions(sensors, Raws(cycle)));
      2 * Abs(1000000 * (value - c.outMin) - RestsAt(c, mean) * span) <= 1000 * span + 1000000
  {
    var samples := SamplesOf(sensors, cycle);
    ReportNeedsGoodSensors(c, s, samples, cycle, value);
    GoodSamplesAreFractions(sensors, cycle);
    GoodSweep(c, s, samples, cycle.reports);
    MeanIsBetween(c, Values(samples), 0, 1000000);
    DeadzoneRests(c, Mean(c, Values(samples)));
    RescaledIsInRange(c, OutDeadzone(c, Mean(c, Values(samples))));
    RescalingError(c, OutDeadzone(c, Mean(c, Values(samples))));
  }

  /** On every report, each sensor is within the tolerance of the mean before the deadzone. */
  lemma SensorsAgreeOnReport(c: Config, s: ChannelState, samples: seq<Sample>, cycle: Cycle, i: nat)
    requires c.Valid() && c.devTolerance >= 0 && |samples| == |cycle.reports| == |c.weights| && AreGood(samples)
    requires AfterChannelUpdate(c, s, samples, cycle).ret >= 0 && i < |samples|
    ensures Abs(samples[i].value - Mean(c, Values(samples))) <= c.devTolerance * 10000
  {
    GoodSweep(c, s, samples, cycle.reports);
    var w := SweepOf(c, s, samples, cycle.reports);
    MeanIsBetween(c, Values(samples), w.min, w.max);
    assert w.min <= Values(samples)[i] <= w.max;
    assert DevTolerance(c, s) <= c.devTolerance;
  }

  // ----- noise and deadzone

  /** Good sensors yield fractions, as `Sensor.Get` does. */
  predicate YieldFractions(samples: seq<Sample>) {
    forall i :: 0 <= i < |samples| && IsGood(samples[i]) ==> 0 <= samples[i].value <= 1000000
  }

  /** What can be remembered as the last output: nothing, or the output of some mean. */
  ghost predicate IsOutput(c: Config, out: int) {
    out == INVALID_OUT || exists mean :: 0 <= mean <= 1000000 && out == OutDeadzone(c, mean)
  }

  lemma UpdateKeepsOutput(c: Config, s: ChannelState, samples: seq<Sample>, cycle: Cycle)
    requires c.Valid() && IsOutput(c, s.prevOut)
    requires |samples| == |cycle.reports| == |c.weights|
    requires forall i :: 0 <= i < |samples| && IsGood(samples[i]) ==> 0 <= samples[i].value <= 1000000
    ensures IsOutput(c, AfterChannelUpdate(c, s, samples, cycle).state.prevOut)
  {
    SweepFailsOnBadSensor(c, s, samples, cycle.reports);
    SweepKeepsOutput(c, s, samples, cycle.reports);
    if forall i :: 0 <= i < |samples| ==> IsGood(samples[i]) {
      GoodSweep(c, s, samples, cycle.reports);
      MeanIsBetween(c, Values(samples), 0, 1000000);
      assert CurrentOut(c, SweepOf(c, s, samples, cycle.reports)) == OutDeadzone(c, Mean(c, Values(samples)));
    }
  }

  lemma {:induction false} SweepKeepsOutput(c: Config, s: ChannelState, samples: seq<Sample>, reports: seq<int>)
    requires |samples| == |reports| <= |c.weights|
    ensures SweepOf(c, s, samples, reports).channel.prevOut in {s.prevOut, INVALID_OUT}
  {
    if samples != [] {
      SweepKeepsOutput(c, s, samples[..|samples| - 1], reports[..|reports| - 1]);
    }
  }

  /**
   After every successful cycle, what was reported last is at most the noise away from what the
   sensors say now, and both are in the deadzone or neither is.
   */
  lemma LastReportIsCurrent(c: Config, s: ChannelState, samples: seq<Sample>, cycle: Cycle)
    requires c.Valid() && c.deadzoneMode != Unknown && IsOutput(c, s.prevOut)
    requires |samples| == |cycle.reports| == |c.weights| && AreGood(samples)
    requires AfterChannelUpdate(c, s, samples, cycle).ret >= 0
    ensures
      var mean := Mean(c, Values(samples));
      var out, last := OutDeadzone(c, mean), AfterChannelUpdate(c, s, samples, cycle).state.prevOut;
      && last != INVALID_OUT
      && (last == out || Abs(last - out) < c.noise)
      && (c.deadzoneSize > 0 ==> (InDeadzone(c, last) <==> InDeadzone(c, mean)))
  {
    GoodSweep(c, s, samples, cycle.reports);
    var mean := Mean(c, Values(samples));
    MeanIsBetween(c, Values(samples), 0, 1000000);
    assert OutDeadzone(c, mean) <= 1000000;
    if s.prevOut != INVALID_OUT {
      var earlier :| 0 <= earlier <= 1000000 && s.prevOut == OutDeadzone(c, earlier);
    }
  }
}
