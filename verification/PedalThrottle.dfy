/**
 What the pedal pipeline passes on while nothing is wrong: the output of the accelerator channel.
 */
module PedalThrottle {
  import opened Types
  import opened InputEvents
  import opened PedalPipeline
  import S = SensorAxis
  import R = SensorAxisArithmetic
  import C = SensorAxisChecks
  import A = Accel

  /** The last value among the events, or `value` if there is none. */
  function ValueAfter(value: int, events: seq<Event>): int {
    if events == [] then value
    else if Last(events).Axis? then Last(events).value
    else ValueAfter(value, events[..|events| - 1])
  }

  lemma {:induction false} ValueAfterBoth(value: int, first: seq<Event>, more: seq<Event>)
    ensures ValueAfter(value, first + more) == ValueAfter(ValueAfter(value, first), more)
  {
    if more == [] {
      assert first + more == first;
    } else {
      var front := more[..|more| - 1];
      assert (first + more)[..|first + more| - 1] == first + front;
      ValueAfterBoth(value, first, front);
    }
  }

  // ----- one channel

  /** A pedal that is seen as good has the value the channel reported last. */
  predicate IsCurrent(c: S.Config, ch: S.ChannelState, seen: A.PedalState, value: int) {
    && (ch.prevOut == S.INVALID_OUT || 0 <= ch.prevOut <= 1000000)
    && (seen == A.Normal ==> ch.prevOut != S.INVALID_OUT && value == S.Rescaled(c, ch.prevOut))
  }

  lemma OneEvent(seen: A.PedalState, value: int, e: Event)
    ensures SeenAfter(seen, [e]) == A.PedalAfter(seen, e)
    ensures ValueAfter(value, [e]) == if e.Axis? then e.value else value
  {
    assert [e][..0] == [];
  }

  lemma ErrorCallKeepsCurrent(
      c: S.Config, ch: S.ChannelState, seen: A.PedalState, value: int, error: nat, ret: int, report: int)
    requires IsCurrent(c, ch, seen, value)
    ensures
      var r := S.AfterChannelError(c, ch, error, ret, report);
      IsCurrent(c, r.state, SeenAfter(seen, r.events), ValueAfter(value, r.events))
  {
    OneEvent(seen, value, Error(error, true));
    OneEvent(seen, value, Error(ERROR_NONE, false));
  }

  lemma ErrorEventsKeepCurrent(
      c: S.Config, ch: S.ChannelState, seen: A.PedalState, value: int, events: seq<Event>,
      error: nat, ret: int, report: int)
    requires IsCurrent(c, ch, SeenAfter(seen, events), ValueAfter(value, events))
    ensures
      var r := S.AfterChannelError(c, ch, error, ret, report);
      IsCurrent(c, r.state, SeenAfter(seen, events + r.events), ValueAfter(value, events + r.events))
  {
    var r := S.AfterChannelError(c, ch, error, ret, report);
    ErrorCallKeepsCurrent(c, ch, SeenAfter(seen, events), ValueAfter(value, events), error, ret, report);
    SeenAfterBoth(seen, events, r.events);
    ValueAfterBoth(value, events, r.events);
  }

  lemma {:induction false} SweepKeepsCurrent(
      c: S.Config, ch: S.ChannelState, seen: A.PedalState, value: int, samples: seq<S.Sample>, reports: seq<int>)
    requires IsCurrent(c, ch, seen, value) && |samples| == |reports| <= |c.weights|
    ensures
      var w := S.SweepOf(c, ch, samples, reports);
      IsCurrent(c, w.channel, SeenAfter(seen, w.events), ValueAfter(value, w.events))
  {
    if samples != [] {
      var k := |samples| - 1;
      SweepKeepsCurrent(c, ch, seen, value, samples[..k], reports[..k]);
      var w := S.SweepOf(c, ch, samples[..k], reports[..k]);
      var p := samples[k];
      if !S.IsGood(p) {
        var error, ret := if p.NotReady? then ERROR_NODEV else ERROR_IO, if p.NotReady? then -ENODEV else p.ret;
        ErrorEventsKeepCurrent(c, w.channel, seen, value, w.events, error, ret, reports[k]);
      }
    }
  }

  lemma OutputIsFraction(c: S.Config, ch: S.ChannelState, samples: seq<S.Sample>, reports: seq<int>)
    requires c.Valid() && c.deadzoneMode != S.Unknown && |samples| == |reports| == |c.weights|
    requires C.YieldFractions(samples) && S.SweepOf(c, ch, samples, reports).ret >= 0
    ensures 0 <= S.CurrentOut(c, S.SweepOf(c, ch, samples, reports)) <= 1000000
  {
    R.SweepFailsOnBadSensor(c, ch, samples, reports);
    assert R.AreGood(samples);
    R.GoodSweep(c, ch, samples, reports);
    R.MeanIsBetween(c, R.Values(samples), 0, 1000000);
  }

  lemma ReportKeepsCurrent(
      c: S.Config, seen: A.PedalState, value: int, r: S.ChannelResult, out: int, axisReport: int)
    requires IsCurrent(c, r.state, SeenAfter(seen, r.events), ValueAfter(value, r.events)) && 0 <= out <= 1000000
    ensures
      var t := S.AfterReport(c, r, out, axisReport);
      IsCurrent(c, t.state, SeenAfter(seen, t.events), ValueAfter(value, t.events))
  {
    var axis := [Axis(S.Rescaled(c, out))];
    SeenAfterBoth(seen, r.events, axis);
    ValueAfterBoth(value, r.events, axis);
    OneEvent(SeenAfter(seen, r.events), ValueAfter(value, r.events), axis[0]);
  }

  /** One cycle keeps the value of the device that of the channel, whatever its reports do. */
  lemma UpdateKeepsCurrent(
      c: S.Config, ch: S.ChannelState, seen: A.PedalState, value: int, samples: seq<S.Sample>, cycle: S.Cycle)
    requires c.Valid() && c.deadzoneMode != S.Unknown && |samples| == |cycle.reports| == |c.weights|
    requires IsCurrent(c, ch, seen, value) && C.YieldFractions(samples)
    ensures
      var r := S.AfterChannelUpdate(c, ch, samples, cycle);
      IsCurrent(c, r.state, SeenAfter(seen, r.events), ValueAfter(value, r.events))
  {
    SweepKeepsCurrent(c, ch, seen, value, samples, cycle.reports);
    var w := S.SweepOf(c, ch, samples, cycle.reports);
    if w.ret < 0 {
    } else if S.Deviates(c, w) {
      ErrorEventsKeepCurrent(c, w.channel, seen, value, w.events, ERROR_DEV, -EINVAL, cycle.errorReport);
    } else {
      ErrorEventsKeepCurrent(c, w.channel, seen, value, w.events, ERROR_NONE, 0, cycle.errorReport);
      var good := S.AfterChannelError(c, w.channel, ERROR_NONE, 0, cycle.errorReport);
      if good.ret >= 0 {
        OutputIsFraction(c, ch, samples, cycle.reports);
        ReportKeepsCurrent(
          c, seen, value, good.(events := w.events + good.events), S.CurrentOut(c, w), cycle.axisReport);
      }
    }
  }

  // ----- the device

  lemma {:induction false} InputsMoveValue(
      c: A.Config, s: A.State, pedal: Pedal, events: seq<Event>, replies: nat -> A.Replies)
    ensures
      A.AfterInputs(c, s, Inputs(pedal, events, replies)).accelValue ==
      if pedal.Accelerator? then ValueAfter(s.accelValue, events) else s.accelValue
  {
    if events != [] {
      var front := events[..|events| - 1];
      InputsMoveValue(c, s, pedal, front, replies);
      var inputs := Inputs(pedal, events, replies);
      assert inputs[..|inputs| - 1] == Inputs(pedal, front, replies);
      var before := A.AfterInputs(c, s, Inputs(pedal, front, replies));
      A.InputIsReceived(c, before, Last(inputs));
      A.UpdateKeepsPedals(c, A.Received(before, Last(inputs)), Last(inputs).replies);
    }
  }

  lemma InputKeepsUpToDate(c: A.Config, s: A.State, i: A.Input)
    requires A.Invariant(s) && A.Delivered(i.replies)
    ensures A.UpToDate(A.AfterInput(c, s, i))
  {
    A.InputIsReceived(c, s, i);
    A.UpdateIsUpToDate(c, A.Received(s, i), i.replies);
  }

  lemma InputsKeepUpToDate(
      c: A.Config, s: A.State, pedal: Pedal, events: seq<Event>, replies: nat -> A.Replies)
    requires A.Invariant(s) && A.UpToDate(s) && forall k :: A.Delivered(replies(k))
    ensures A.UpToDate(A.AfterInputs(c, s, Inputs(pedal, events, replies)))
  {
    var inputs := Inputs(pedal, events, replies);
    if inputs != [] {
      A.InputsKeepInvariant(c, s, inputs[..|inputs| - 1]);
      InputKeepsUpToDate(c, A.AfterInputs(c, s, inputs[..|inputs| - 1]), Last(inputs));
    }
  }

  // ----- whole runs

  predicate AllFractions(polls: seq<Poll>) {
    forall i :: 0 <= i < |polls| ==> C.YieldFractions(polls[i].samples)
  }

  /** In every run of polls of both pedals, whatever reports fail. */
  lemma {:induction false} PollsKeepCurrent(c: Config, polls: seq<Poll>)
    requires c.Valid() && c.accel.deadzoneMode != S.Unknown && AllFit(c, polls) && AllFractions(polls)
    ensures
      var s := AfterPolls(c, polls);
      IsCurrent(c.accel, s.accel, s.device.accelState, s.device.accelValue)
  {
    if polls != [] {
      var front := polls[..|polls| - 1];
      PollsKeepCurrent(c, front);
      var s, poll := AfterPolls(c, front), Last(polls);
      assert C.YieldFractions(polls[|polls| - 1].samples);
      var r := S.AfterChannelUpdate(c.Of(poll.pedal), s.Of(poll.pedal), poll.samples, poll.cycle);
      InputsMovePedal(c.device, s.device, poll.pedal, r.events, poll.replies);
      InputsMoveValue(c.device, s.device, poll.pedal, r.events, poll.replies);
      if poll.pedal.Accelerator? {
        UpdateKeepsCurrent(c.accel, s.accel, s.device.accelState, s.device.accelValue, poll.samples, poll.cycle);
      }
    }
  }

  lemma {:induction false} PollsKeepUpToDate(c: Config, polls: seq<Poll>)
    requires c.Valid() && AllFit(c, polls) && DeviceIsDelivered(polls)
    ensures A.UpToDate(AfterPolls(c, polls).device)
  {
    if polls != [] {
      var front := polls[..|polls| - 1];
      PollsKeepUpToDate(c, front);
      PollsKeepLink(c, front);
      var s, poll := AfterPolls(c, front), Last(polls);
      assert polls[|polls| - 1] == poll;
      var r := S.AfterChannelUpdate(c.Of(poll.pedal), s.Of(poll.pedal), poll.samples, poll.cycle);
      InputsKeepUpToDate(c.device, s.device, poll.pedal, r.events, poll.replies);
    }
  }

  /**
   While nothing is blocked, the last throttle is what the accelerator channel reported last: its
   last output, mapped onto the output range. The reports of the channels may fail.
   */
  lemma ThrottleIsChannelOutput(c: Config, polls: seq<Poll>)
    requires c.Valid() && c.accel.deadzoneMode != S.Unknown && c.accel.outMax < A.INVALID_OUT
    requires AllFit(c, polls) && AllFractions(polls) && DeviceIsDelivered(polls)
    requires A.IsPassing(AfterPolls(c, polls).device)
    ensures
      var s := AfterPolls(c, polls);
      && s.accel.prevOut != S.INVALID_OUT && !C.IsLatched(s.accel) && !C.IsLatched(s.brake)
      && LastAxis(s.device.log) == Some(S.Rescaled(c.accel, s.accel.prevOut))
      && c.accel.outMin <= S.Rescaled(c.accel, s.accel.prevOut) <= c.accel.outMax
  {
    var s := AfterPolls(c, polls);
    PollsKeepCurrent(c, polls);
    PollsKeepUpToDate(c, polls);
    PollsKeepLink(c, polls);
    R.RescaledIsInRange(c.accel, s.accel.prevOut);
  }
}
