/**
 Sensor based axis (drivers/input/sensor-axis/sensor_axis.c): each cycle, a channel normalises
 its sensors, checks them against each other, and reports their weighted mean.

 Functions on `SensorState` and `ChannelState` say what one call does; the methods of `Sensor`
 and `Channel` are proved to do that. The environment is a parameter: what a sensor reads, and
 what each `input_report` returns (a negative number if it fails: the event is then not
 delivered).
 */
module SensorAxis {
  import opened Types
  import opened CInteger
  import opened InputEvents

  const INVALID_OUT := INT32_MAX

  /** The hysteresis takes a tenth off a tolerance while its error is set. */
  function Hysteresis(tolerance: int): int {
    CDiv(tolerance * 10, 100)
  }

  // ----- sensors

  /** Reading a sensor fails to get the lock, fails, or yields a value in millionths. */
  datatype Reading = Busy(ret: int) | Failed(ret: int) | Raw(value: int)

  datatype SensorState = SensorState(error: nat, inMin: int, inMax: int, rangeTolerance: int)

  datatype SensorResult = SensorResult(state: SensorState, ret: int, value: int, events: seq<Event>)

  function SensorErrorUpdate(s: SensorState, error: nat, ret: int, report: int): SensorResult {
    if (s.error == ERROR_NONE) == (error == ERROR_NONE) then
      SensorResult(s, ret, 0, [])
    else if report < 0 then
      SensorResult(s, report, 0, [])
    else
      SensorResult(s.(error := error), ret, 0,
                   [if error != ERROR_NONE then Error(error, true) else Error(s.error, false)])
  }

  /** A thousandth of the way between the setpoints: see `NormalisationFitsInt64`. */
  function Range(min: int, max: int): int {
    DivRoundClosest(max - min, 1000)
  }

  /** The value in millionths of the way from one setpoint to the other. */
  function Normalised(v: int, min: int, max: int): int
    requires Range(min, max) != 0
  {
    DivRoundClosest((v - min) * 1000, Range(min, max))
  }

  function RangeTolerance(s: SensorState): int {
    if s.error == ERROR_UNDER || s.error == ERROR_OVER then s.rangeTolerance - Hysteresis(s.rangeTolerance)
    else s.rangeTolerance
  }

  predicate IsUnder(s: SensorState, val: int) {
    s.rangeTolerance >= 0 && val < -RangeTolerance(s) * 10000
  }

  predicate IsOver(s: SensorState, val: int) {
    s.rangeTolerance >= 0 && val > 1000000 + RangeTolerance(s) * 10000
  }

  function AfterSensorGet(s: SensorState, reading: Reading, report: int): SensorResult
    requires Range(s.inMin, s.inMax) != 0
  {
    match reading
    case Busy(ret) => SensorErrorUpdate(s, ERROR_BUSY, ret, report)
    case Failed(ret) => SensorErrorUpdate(s, ERROR_IO, ret, report)
    case Raw(v) =>
      var val := Normalised(v, s.inMin, s.inMax);
      if IsUnder(s, val) then SensorErrorUpdate(s, ERROR_UNDER, -EINVAL, report)
      else if IsOver(s, val) then SensorErrorUpdate(s, ERROR_OVER, -EINVAL, report)
      else
        var r := SensorErrorUpdate(s, ERROR_NONE, 0, report);
        if r.ret < 0 then r else r.(value := Clamp(val, 0, 1000000))
  }

  class Sensor {
    var error: nat
    var inMin: int
    var inMax: int
    const rangeTolerance: int

    function State(): SensorState
      reads this
    {
      SensorState(error, inMin, inMax, rangeTolerance)
    }

    constructor (inMin: int, inMax: int, rangeTolerance: int)
      ensures State() == SensorState(ERROR_NONE, inMin, inMax, rangeTolerance)
    {
      this.inMin, this.inMax, this.rangeTolerance := inMin, inMax, rangeTolerance;
      error := ERROR_NONE;
    }

    method ErrorUpdate(newError: nat, ret: int, report: int) returns (result: int, events: seq<Event>)
      modifies this`error
      ensures
        var r := SensorErrorUpdate(old(State()), newError, ret, report);
        State() == r.state && result == r.ret && events == r.events
    {
      var event;
      if error == ERROR_NONE && newError != ERROR_NONE {
        event := Error(newError, true);
      } else if error != ERROR_NONE && newError == ERROR_NONE {
        event := Error(error, false);
      } else {
        return ret, [];
      }
      if report < 0 {
        return report, [];
      }
      error := newError;
      return ret, [event];
    }

    method Get(reading: Reading, report: int) returns (ret: int, value: int, events: seq<Event>)
      requires Range(inMin, inMax) != 0
      modifies this`error
      ensures
        var r := AfterSensorGet(old(State()), reading, report);
        State() == r.state && ret == r.ret && value == r.value && events == r.events
    {
      value := 0;
      if reading.Busy? {
        ret, events := ErrorUpdate(ERROR_BUSY, reading.ret, report);
        return;
      }
      if reading.Failed? {
        ret, events := ErrorUpdate(ERROR_IO, reading.ret, report);
        return;
      }

      var range := DivRoundClosest(inMax - inMin, 1000);
      var val := DivRoundClosest((reading.value - inMin) * 1000, range);

      if rangeTolerance >= 0 {
        var tolerance := rangeTolerance;
        if error == ERROR_UNDER || error == ERROR_OVER {
          tolerance := tolerance - CDiv(rangeTolerance * 10, 100);
        }
        if val < -tolerance * 10000 {
          ret, events := ErrorUpdate(ERROR_UNDER, -EINVAL, report);
          return;
        } else if val > 1000000 + tolerance * 10000 {
          ret, events := ErrorUpdate(ERROR_OVER, -EINVAL, report);
          return;
        }
      }

      val := Clamp(val, 0, 1000000);
      ret, events := ErrorUpdate(ERROR_NONE, 0, report);
      if ret < 0 {
        return;
      }
      value := val;
    }
  }

  // ----- channels

  datatype DeadzoneMode = Center | Edge | Unknown

  datatype Config = Config(
    weights: seq<int>,
    outMin: int,
    outMax: int,
    deadzoneMode: DeadzoneMode,
    deadzoneSize: int,
    noise: int,
    devTolerance: int,
    pollPeriod: int,
    timeTolerance: int,
    timeToleranceDecay: int)
  {
    function TotalWeight(): int {
      Sum(weights)
    }

    /** What the definition macros check, and what keeps the arithmetic below within 32 bits. */
    ghost predicate Valid() {
      && weights != []
      && (forall i :: 0 <= i < |weights| ==> 0 <= weights[i])
      && 1 <= TotalWeight() <= 2147
      && 0 <= outMax - outMin <= 2147483
      && 0 <= deadzoneSize
      && (deadzoneSize == 0 || deadzoneSize * 10000 >= noise)
      && 0 < pollPeriod && 0 <= timeTolerance && 0 <= timeToleranceDecay
    }
  }

  function Sum(s: seq<int>): int {
    if s == [] then 0 else Sum(s[..|s| - 1]) + Last(s)
  }

  datatype ChannelState = ChannelState(error: nat, prevOut: int, accumErrorTime: int)

  const INITIAL_CHANNEL := ChannelState(ERROR_NONE, INVALID_OUT, 0)

  datatype ChannelResult = ChannelResult(state: ChannelState, ret: int, events: seq<Event>)

  function Decay(c: Config): int {
    CDiv(c.timeTolerance * c.timeToleranceDecay, 100)
  }

  function Accumulated(c: Config, accum: int, error: nat): int {
    if error != ERROR_NONE && accum < c.timeTolerance then Min(accum + c.pollPeriod, c.timeTolerance)
    else if error == ERROR_NONE && accum > 0 then Max(accum - Decay(c), 0)
    else accum
  }

  /** A cleared channel error is reported with the new code, which is no error at all. */
  function AfterChannelError(c: Config, s: ChannelState, error: nat, ret: int, report: int): ChannelResult {
    var t := s.(accumErrorTime := Accumulated(c, s.accumErrorTime, error));
    if error != ERROR_NONE && s.error == ERROR_NONE && t.accumErrorTime >= c.timeTolerance then
      if report < 0 then ChannelResult(t, report, [])
      else ChannelResult(t.(error := error, prevOut := INVALID_OUT), ret, [Error(error, true)])
    else if error == ERROR_NONE && s.error != ERROR_NONE then
      if t.accumErrorTime != 0 then ChannelResult(t, -EAGAIN, [])
      else if report < 0 then ChannelResult(t, report, [])
      else ChannelResult(t.(error := ERROR_NONE), ret, [Error(ERROR_NONE, false)])
    else
      ChannelResult(t, ret, [])
  }

  /** The value of the axis rests at one point of the deadzone. */
  function OutDeadzone(c: Config, out: int): int {
    if c.deadzoneSize == 0 then out
    else
      match c.deadzoneMode
      case Center => if 500000 - c.deadzoneSize * 10000 <= out <= 500000 + c.deadzoneSize * 10000 then 500000 else out
      case Edge => if out < c.deadzoneSize * 10000 then 0 else out
      case Unknown => -1
  }

  /** The fraction in thousandths, mapped onto the output range: see `NothingOverflowsInt32`. */
  function Rescaled(c: Config, out: int): int {
    DivRoundClosest(DivRoundClosest(out, 1000) * (c.outMax - c.outMin), 1000) + c.outMin
  }

  /** What one cycle finds at one sensor: not ready, or what `Sensor.Get` returned. */
  datatype Sample = NotReady | Got(ret: int, value: int)

  predicate IsGood(p: Sample) {
    p.Got? && p.ret >= 0
  }

  /** The loop over the sensors of a channel. */
  datatype Sweep = Sweep(channel: ChannelState, ret: int, sum: int, min: int, max: int, events: seq<Event>)

  /** One turn of the loop, at sensor `k`. */
  function SweepStep(c: Config, w: Sweep, k: nat, p: Sample, report: int): Sweep
    requires k < |c.weights|
  {
    if IsGood(p) then
      w.(sum := w.sum + p.value * c.weights[k], min := Min(w.min, p.value), max := Max(w.max, p.value))
    else
      var r := if p.NotReady? then AfterChannelError(c, w.channel, ERROR_NODEV, -ENODEV, report)
               else AfterChannelError(c, w.channel, ERROR_IO, p.ret, report);
      w.(channel := r.state, ret := r.ret, events := w.events + r.events)
  }

  function SweepOf(c: Config, s: ChannelState, samples: seq<Sample>, reports: seq<int>): Sweep
    requires |samples| == |reports| <= |c.weights|
  {
    if samples == [] then Sweep(s, 0, 0, INT32_MAX, INT32_MIN, [])
    else
      var k := |samples| - 1;
      SweepStep(c, SweepOf(c, s, samples[..k], reports[..k]), k, samples[k], reports[k])
  }

  lemma SweepGrows(c: Config, s: ChannelState, samples: seq<Sample>, reports: seq<int>, i: nat)
    requires i < |samples| == |reports| <= |c.weights|
    ensures SweepOf(c, s, samples[..i + 1], reports[..i + 1]) ==
            SweepStep(c, SweepOf(c, s, samples[..i], reports[..i]), i, samples[i], reports[i])
  {
    assert samples[..i + 1][..i] == samples[..i] && reports[..i + 1][..i] == reports[..i];
  }

  function DevTolerance(c: Config, s: ChannelState): int {
    if s.error == ERROR_DEV then c.devTolerance - Hysteresis(c.devTolerance) else c.devTolerance
  }

  predicate Deviates(c: Config, w: Sweep) {
    c.devTolerance >= 0 && w.max - w.min > DevTolerance(c, w.channel) * 10000
  }

  function CurrentOut(c: Config, w: Sweep): int
    requires c.TotalWeight() != 0
  {
    OutDeadzone(c, DivRoundClosest(w.sum, c.TotalWeight()))
  }

  /** The noise filter, and the report of the axis. */
  function AfterReport(c: Config, r: ChannelResult, out: int, axisReport: int): ChannelResult {
    if r.state.prevOut != INVALID_OUT && Abs(out - r.state.prevOut) < c.noise then r.(ret := 0)
    else if axisReport < 0 then r.(ret := axisReport)
    else ChannelResult(r.state.(prevOut := out), 1, r.events + [Axis(Rescaled(c, out))])
  }

  /** What follows the loop: the checks, and the report of the axis. */
  function AfterSweep(c: Config, w: Sweep, errorReport: int, axisReport: int): ChannelResult
    requires c.TotalWeight() != 0
  {
    if w.ret < 0 then ChannelResult(w.channel, w.ret, w.events)
    else if Deviates(c, w) then
      var r := AfterChannelError(c, w.channel, ERROR_DEV, -EINVAL, errorReport);
      r.(events := w.events + r.events)
    else
      var r := AfterChannelError(c, w.channel, ERROR_NONE, 0, errorReport);
      var s := r.(events := w.events + r.events);
      if r.ret < 0 then s else AfterReport(c, s, CurrentOut(c, w), axisReport)
  }

  /** What the environment does to a channel in one cycle. */
  datatype Cycle = Cycle(
    ready: seq<bool>,
    readings: seq<Reading>,
    sensorReports: seq<int>,
    reports: seq<int>,
    errorReport: int,
    axisReport: int)
  {
    ghost predicate Fits(n: nat) {
      && |ready| == |readings| == |sensorReports| == |reports| == n
      && forall i :: 0 <= i < n ==> readings[i].Raw? || readings[i].ret < 0
    }
  }

  function SampleOf(s: SensorState, ready: bool, reading: Reading, report: int): Sample
    requires Range(s.inMin, s.inMax) != 0
  {
    if !ready then NotReady
    else
      var r := AfterSensorGet(s, reading, report);
      Got(r.ret, r.value)
  }

  predicate CanSample(sensors: seq<SensorState>, cycle: Cycle) {
    && |cycle.ready| == |cycle.readings| == |cycle.sensorReports| == |sensors|
    && forall i :: 0 <= i < |sensors| ==> Range(sensors[i].inMin, sensors[i].inMax) != 0
  }

  function SamplesOf(sensors: seq<SensorState>, cycle: Cycle): (r: seq<Sample>)
    requires CanSample(sensors, cycle)
    ensures |r| == |sensors|
  {
    seq(|sensors|, i requires 0 <= i < |sensors| =>
      SampleOf(sensors[i], cycle.ready[i], cycle.readings[i], cycle.sensorReports[i]))
  }

  function AfterChannelUpdate(c: Config, s: ChannelState, samples: seq<Sample>, cycle: Cycle): ChannelResult
    requires c.TotalWeight() != 0 && |samples| == |cycle.reports| == |c.weights|
  {
    AfterSweep(c, SweepOf(c, s, samples, cycle.reports), cycle.errorReport, cycle.axisReport)
  }

  class Channel {
    const config: Config
    const sensors: seq<Sensor>
    var error: nat
    var prevOut: int
    var accumErrorTime: int

    function State(): ChannelState
      reads this
    {
      ChannelState(error, prevOut, accumErrorTime)
    }

    function SensorStates(): seq<SensorState>
      reads sensors
    {
      seq(|sensors|, i requires 0 <= i < |sensors| reads sensors => sensors[i].State())
    }

    ghost predicate Valid()
      reads sensors
    {
      && config.Valid()
      && |sensors| == |config.weights|
      && (forall i, j :: 0 <= i < j < |sensors| ==> sensors[i] != sensors[j])
      && (forall i :: 0 <= i < |sensors| ==> Range(sensors[i].inMin, sensors[i].inMax) != 0)
    }

    method ErrorUpdate(newError: nat, ret: int, report: int) returns (result: int, events: seq<Event>)
      modifies this
      ensures
        var r := AfterChannelError(config, old(State()), newError, ret, report);
        State() == r.state && result == r.ret && events == r.events
    {
      if newError != ERROR_NONE && accumErrorTime < config.timeTolerance {
        accumErrorTime := Min(accumErrorTime + config.pollPeriod, config.timeTolerance);
      } else if newError == ERROR_NONE && accumErrorTime > 0 {
        accumErrorTime := Max(accumErrorTime - CDiv(config.timeTolerance * config.timeToleranceDecay, 100), 0);
      }

      if newError != ERROR_NONE && error == ERROR_NONE {
        if accumErrorTime >= config.timeTolerance {
          if report < 0 {
            return report, [];
          }
          prevOut := INVALID_OUT;
          events := [Error(newError, true)];
        } else {
          return ret, [];
        }
      } else if newError == ERROR_NONE && error != ERROR_NONE {
        if accumErrorTime == 0 {
          if report < 0 {
            return report, [];
          }
          events := [Error(newError, false)];
        } else {
          return -EAGAIN, [];
        }
      } else {
        return ret, [];
      }
      error := newError;
      result := ret;
    }

    /** The state of the sensors after a cycle that started in the states `before`. */
    ghost predicate SensorsAfter(before: seq<SensorState>, cycle: Cycle, n: nat)
      requires CanSample(before, cycle) && |before| == |sensors|
      reads sensors
    {
      forall i :: 0 <= i < |sensors| ==>
        sensors[i].State() ==
        if i < n && cycle.ready[i] then AfterSensorGet(before[i], cycle.readings[i], cycle.sensorReports[i]).state
        else before[i]
    }

    /** Samples sensor `i`, after the ones before it. */
    method GetSample(i: nat, cycle: Cycle, ghost before: seq<SensorState>) returns (p: Sample)
      requires Valid() && cycle.Fits(|sensors|) && i < |sensors|
      requires CanSample(before, cycle) && SensorsAfter(before, cycle, i)
      modifies sensors[i]
      ensures Valid() && SensorsAfter(before, cycle, i + 1)
      ensures p == SamplesOf(before, cycle)[i]
    {
      if !cycle.ready[i] {
        return NotReady;
      }
      assert sensors[i].State() == before[i];
      var ret, value, _ := sensors[i].Get(cycle.readings[i], cycle.sensorReports[i]);
      return Got(ret, value);
    }

    /** Adds a sample to the results of the loop. */
    method AddSample(ghost w: Sweep, i: nat, p: Sample, report: int, ret: int, sum: int, min: int, max: int)
      returns (ret': int, sum': int, min': int, max': int, more: seq<Event>)
      requires i < |config.weights|
      requires State() == w.channel && ret == w.ret && sum == w.sum && min == w.min && max == w.max
      modifies this
      ensures
        var v := SweepStep(config, w, i, p, report);
        && State() == v.channel && ret' == v.ret && sum' == v.sum && min' == v.min && max' == v.max
        && w.events + more == v.events
    {
      ret', sum', min', max', more := ret, sum, min, max, [];
      match p
      case NotReady =>
        ret', more := ErrorUpdate(ERROR_NODEV, -ENODEV, report);
      case Got(ret2, value) =>
        if ret2 < 0 {
          ret', more := ErrorUpdate(ERROR_IO, ret2, report);
        } else {
          sum' := sum + value * config.weights[i];
          min' := Min(min, value);
          max' := Max(max, value);
        }
    }

    /** The loop over the sensors. */
    method SweepSensors(cycle: Cycle) returns (ret: int, sum: int, min: int, max: int, events: seq<Event>)
      requires Valid() && cycle.Fits(|sensors|)
      modifies this, sensors
      ensures Valid() && SensorsAfter(old(SensorStates()), cycle, |sensors|)
      ensures
        var w := SweepOf(config, old(State()), SamplesOf(old(SensorStates()), cycle), cycle.reports);
        State() == w.channel && ret == w.ret && sum == w.sum && min == w.min && max == w.max && events == w.events
    {
      ghost var before := SensorStates();
      assert CanSample(before, cycle);
      ghost var samples := SamplesOf(before, cycle);
      ghost var w := SweepOf(config, State(), [], []);
      ret, sum, min, max, events := 0, 0, INT32_MAX, INT32_MIN, [];
      for i := 0 to |sensors|
        invariant Valid() && SensorsAfter(before, cycle, i)
        invariant w == SweepOf(config, old(State()), samples[..i], cycle.reports[..i])
        invariant State() == w.channel && ret == w.ret && sum == w.sum && min == w.min && max == w.max
        invariant events == w.events
      {
        var p := GetSample(i, cycle, before);
        var more;
        ret, sum, min, max, more := AddSample(w, i, p, cycle.reports[i], ret, sum, min, max);
        events := events + more;
        SweepGrows(config, old(State()), samples, cycle.reports, i);
        w := SweepStep(config, w, i, p, cycle.reports[i]);
      }
      assert samples[..|sensors|] == samples && cycle.reports[..|sensors|] == cycle.reports;
    }

    /** What follows the loop, on its results. */
    method Conclude(ghost w: Sweep, ret0: int, sum: int, min: int, max: int, errorReport: int, axisReport: int)
      returns (ret: int, events: seq<Event>)
      requires config.Valid()
      requires State() == w.channel && ret0 == w.ret && sum == w.sum && min == w.min && max == w.max
      modifies this
      ensures
        var r := AfterSweep(config, w, errorReport, axisReport);
        State() == r.state && ret == r.ret && w.events + events == r.events
    {
      ret, events := ret0, [];
      if ret < 0 {
        return;
      }
      if config.devTolerance >= 0 {
        var tolerance := config.devTolerance;
        if error == ERROR_DEV {
          tolerance := tolerance - CDiv(config.devTolerance * 10, 100);
        }
        if max - min > tolerance * 10000 {
          ret, events := ErrorUpdate(ERROR_DEV, -EINVAL, errorReport);
          return;
        }
      }

      ret, events := ErrorUpdate(ERROR_NONE, 0, errorReport);
      if ret < 0 {
        return;
      }

      var out := OutDeadzone(config, DivRoundClosest(sum, config.TotalWeight()));
      if prevOut != INVALID_OUT && Abs(out - prevOut) < config.noise {
        return 0, events;
      }

      var scaled := DivRoundClosest(out, 1000);
      scaled := DivRoundClosest(scaled * (config.outMax - config.outMin), 1000) + config.outMin;
      if axisReport < 0 {
        return axisReport, events;
      }
      prevOut := out;
      ret, events := 1, events + [Axis(scaled)];
    }

    method Update(cycle: Cycle) returns (ret: int, events: seq<Event>)
      requires Valid() && cycle.Fits(|sensors|)
      modifies this, sensors
      ensures Valid() && SensorsAfter(old(SensorStates()), cycle, |sensors|)
      ensures
        var r := AfterChannelUpdate(config, old(State()), SamplesOf(old(SensorStates()), cycle), cycle);
        State() == r.state && ret == r.ret && events == r.events
    {
      ghost var w := SweepOf(config, State(), SamplesOf(SensorStates(), cycle), cycle.reports);
      var ret0, sum, min, max, events0 := SweepSensors(cycle);
      var more: seq<Event>;
      ret, more := Conclude(w, ret0, sum, min, max, cycle.errorReport, cycle.axisReport);
      events := events0 + more;
    }
  }
}
