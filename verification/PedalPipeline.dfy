/**
 The pedal pipeline: the channels of the accelerator and of the brake feed the accelerator device,
 which receives their events while they are reported.
 */
module PedalPipeline {
  import opened Types
  import opened InputEvents
  import S = SensorAxis
  import C = SensorAxisChecks
  import A = Accel

  datatype Pedal = Accelerator | Brake

  datatype Config = Config(accel: S.Config, brake: S.Config, device: A.Config) {
    ghost predicate Valid() {
      accel.Valid() && brake.Valid()
    }

    function Of(p: Pedal): S.Config {
      if p.Accelerator? then accel else brake
    }
  }

  datatype State = State(accel: S.ChannelState, brake: S.ChannelState, device: A.State) {
    function Of(p: Pedal): S.ChannelState {
      if p.Accelerator? then accel else brake
    }

    /** What the device holds of a pedal. */
    function Seen(p: Pedal): A.PedalState {
      if p.Accelerator? then device.accelState else device.brakeState
    }
  }

  const INITIAL := State(S.INITIAL_CHANNEL, S.INITIAL_CHANNEL, A.INITIAL)

  /** One poll of a channel; `replies` are what the reports of the device return, event by event. */
  datatype Poll = Poll(pedal: Pedal, samples: seq<S.Sample>, cycle: S.Cycle, replies: nat -> A.Replies)

  predicate Fits(c: Config, poll: Poll) {
    |poll.samples| == |poll.cycle.reports| == |c.Of(poll.pedal).weights|
  }

  function Inputs(pedal: Pedal, events: seq<Event>, replies: nat -> A.Replies): seq<A.Input> {
    seq(|events|, i requires 0 <= i < |events| =>
      if pedal.Accelerator? then A.FromAccel(events[i], replies(i)) else A.FromBrake(events[i], replies(i)))
  }

  /** The channel runs its cycle, and each event it reports reaches the device at once. */
  function AfterPoll(c: Config, s: State, poll: Poll): State
    requires c.Of(poll.pedal).TotalWeight() != 0 && Fits(c, poll)
  {
    var r := S.AfterChannelUpdate(c.Of(poll.pedal), s.Of(poll.pedal), poll.samples, poll.cycle);
    var device := A.AfterInputs(c.device, s.device, Inputs(poll.pedal, r.events, poll.replies));
    if poll.pedal.Accelerator? then s.(accel := r.state, device := device)
    else s.(brake := r.state, device := device)
  }

  ghost predicate AllFit(c: Config, polls: seq<Poll>) {
    forall i :: 0 <= i < |polls| ==> Fits(c, polls[i])
  }

  ghost function AfterPolls(c: Config, polls: seq<Poll>): State
    requires c.Valid() && AllFit(c, polls)
  {
    if polls == [] then INITIAL else AfterPoll(c, AfterPolls(c, polls[..|polls| - 1]), Last(polls))
  }

  // ----- what the device sees of one channel

  function SeenAfter(p: A.PedalState, events: seq<Event>): A.PedalState {
    if events == [] then p else A.PedalAfter(SeenAfter(p, events[..|events| - 1]), Last(events))
  }

  lemma {:induction false} SeenAfterBoth(p: A.PedalState, first: seq<Event>, more: seq<Event>)
    ensures SeenAfter(p, first + more) == SeenAfter(SeenAfter(p, first), more)
  {
    if more == [] {
      assert first + more == first;
    } else {
      var front := more[..|more| - 1];
      assert (first + more)[..|first + more| - 1] == first + front;
      SeenAfterBoth(p, first, front);
    }
  }

  /**
   The device and a channel agree, whatever reports fail: a channel in error is seen in error, and
   one that is seen in error or not at all has a fresh value to report.
   */
  predicate IsLinked(ch: S.ChannelState, seen: A.PedalState) {
    && (C.IsLatched(ch) ==> seen == A.Err)
    && (seen != A.Normal ==> ch.prevOut == S.INVALID_OUT)
  }

  lemma ErrorCallKeepsLink(
      c: S.Config, ch: S.ChannelState, seen: A.PedalState, error: nat, ret: int, report: int)
    requires IsLinked(ch, seen)
    ensures
      var r := S.AfterChannelError(c, ch, error, ret, report);
      IsLinked(r.state, SeenAfter(seen, r.events))
  {
    assert forall e: Event :: [e][..0] == [];
  }

  lemma {:induction false} SweepKeepsLink(
      c: S.Config, ch: S.ChannelState, seen: A.PedalState, samples: seq<S.Sample>, reports: seq<int>)
    requires IsLinked(ch, seen) && |samples| == |reports| <= |c.weights|
    ensures
      var w := S.SweepOf(c, ch, samples, reports);
      IsLinked(w.channel, SeenAfter(seen, w.events))
  {
    if samples != [] {
      var k := |samples| - 1;
      SweepKeepsLink(c, ch, seen, samples[..k], reports[..k]);
      var w := S.SweepOf(c, ch, samples[..k], reports[..k]);
      var p := samples[k];
      if !S.IsGood(p) {
        var error, ret := if p.NotReady? then ERROR_NODEV else ERROR_IO, if p.NotReady? then -ENODEV else p.ret;
        ErrorCallKeepsLink(c, w.channel, SeenAfter(seen, w.events), error, ret, reports[k]);
        SeenAfterBoth(seen, w.events, S.AfterChannelError(c, w.channel, error, ret, reports[k]).events);
      }
    }
  }

  lemma UpdateKeepsLink(
      c: S.Config, ch: S.ChannelState, seen: A.PedalState, samples: seq<S.Sample>, cycle: S.Cycle)
    requires IsLinked(ch, seen) && c.TotalWeight() != 0 && |samples| == |cycle.reports| == |c.weights|
    ensures
      var r := S.AfterChannelUpdate(c, ch, samples, cycle);
      IsLinked(r.state, SeenAfter(seen, r.events))
  {
    SweepKeepsLink(c, ch, seen, samples, cycle.reports);
    var w := S.SweepOf(c, ch, samples, cycle.reports);
    var between := SeenAfter(seen, w.events);
    if w.ret < 0 {
    } else if S.Deviates(c, w) {
      ErrorCallKeepsLink(c, w.channel, between, ERROR_DEV, -EINVAL, cycle.errorReport);
      SeenAfterBoth(seen, w.events, S.AfterChannelError(c, w.channel, ERROR_DEV, -EINVAL, cycle.errorReport).events);
    } else {
      var good := S.AfterChannelError(c, w.channel, ERROR_NONE, 0, cycle.errorReport);
      ErrorCallKeepsLink(c, w.channel, between, ERROR_NONE, 0, cycle.errorReport);
      SeenAfterBoth(seen, w.events, good.events);
      if good.ret >= 0 {
        ReportKeepsLink(c, seen, good.(events := w.events + good.events), S.CurrentOut(c, w), cycle.axisReport);
      }
    }
  }

  lemma ReportKeepsLink(c: S.Config, seen: A.PedalState, r: S.ChannelResult, out: int, axisReport: int)
    requires IsLinked(r.state, SeenAfter(seen, r.events)) && !C.IsLatched(r.state)
    ensures
      var t := S.AfterReport(c, r, out, axisReport);
      IsLinked(t.state, SeenAfter(seen, t.events))
  {
    var axis := [Axis(S.Rescaled(c, out))];
    SeenAfterBoth(seen, r.events, axis);
    assert axis[..0] == [];
  }

  predicate IsDelivered(cycle: S.Cycle) {
    && (forall i :: 0 <= i < |cycle.reports| ==> cycle.reports[i] >= 0)
    && cycle.errorReport >= 0
    && cycle.axisReport >= 0
  }

  /** With every report delivered, the device sees an error exactly while one is latched. */
  predicate IsInStep(ch: S.ChannelState, seen: A.PedalState) {
    C.IsLatched(ch) <==> seen == A.Err
  }

  lemma {:induction false} SweepKeepsStep(
      c: S.Config, ch: S.ChannelState, seen: A.PedalState, samples: seq<S.Sample>, reports: seq<int>)
    requires IsInStep(ch, seen) && |samples| == |reports| <= |c.weights|
    ensures
      var w := S.SweepOf(c, ch, samples, reports);
      IsInStep(w.channel, SeenAfter(seen, w.events))
  {
    if samples != [] {
      var k := |samples| - 1;
      SweepKeepsStep(c, ch, seen, samples[..k], reports[..k]);
      var w := S.SweepOf(c, ch, samples[..k], reports[..k]);
      var p := samples[k];
      if !S.IsGood(p) {
        var error, ret := if p.NotReady? then ERROR_NODEV else ERROR_IO, if p.NotReady? then -ENODEV else p.ret;
        BadCallKeepsStep(c, w.channel, SeenAfter(seen, w.events), error, ret, reports[k]);
        SeenAfterBoth(seen, w.events, S.AfterChannelError(c, w.channel, error, ret, reports[k]).events);
      }
    }
  }

  lemma BadCallKeepsStep(
      c: S.Config, ch: S.ChannelState, seen: A.PedalState, error: nat, ret: int, report: int)
    requires IsInStep(ch, seen) && error != ERROR_NONE
    ensures
      var r := S.AfterChannelError(c, ch, error, ret, report);
      IsInStep(r.state, SeenAfter(seen, r.events))
  {
    assert [Error(error, true)][..0] == [];
  }

  /** Clearing an error forgets the last output, so the same cycle reports a value. */
  lemma UpdateKeepsStep(
      c: S.Config, ch: S.ChannelState, seen: A.PedalState, samples: seq<S.Sample>, cycle: S.Cycle)
    requires IsLinked(ch, seen) && IsInStep(ch, seen) && IsDelivered(cycle)
    requires c.TotalWeight() != 0 && |samples| == |cycle.reports| == |c.weights|
    ensures
      var r := S.AfterChannelUpdate(c, ch, samples, cycle);
      IsInStep(r.state, SeenAfter(seen, r.events))
  {
    SweepKeepsLink(c, ch, seen, samples, cycle.reports);
    SweepKeepsStep(c, ch, seen, samples, cycle.reports);
    var w := S.SweepOf(c, ch, samples, cycle.reports);
    var between := SeenAfter(seen, w.events);
    if w.ret < 0 {
    } else if S.Deviates(c, w) {
      BadCallKeepsStep(c, w.channel, between, ERROR_DEV, -EINVAL, cycle.errorReport);
      SeenAfterBoth(seen, w.events, S.AfterChannelError(c, w.channel, ERROR_DEV, -EINVAL, cycle.errorReport).events);
    } else {
      var good := S.AfterChannelError(c, w.channel, ERROR_NONE, 0, cycle.errorReport);
      ErrorCallKeepsLink(c, w.channel, between, ERROR_NONE, 0, cycle.errorReport);
      SeenAfterBoth(seen, w.events, good.events);
      if good.ret >= 0 {
        ReportKeepsStep(c, seen, good.(events := w.events + good.events), S.CurrentOut(c, w), cycle.axisReport);
      }
    }
  }

  lemma ReportKeepsStep(c: S.Config, seen: A.PedalState, r: S.ChannelResult, out: int, axisReport: int)
    requires IsLinked(r.state, SeenAfter(seen, r.events)) && !C.IsLatched(r.state) && axisReport >= 0
    ensures
      var t := S.AfterReport(c, r, out, axisReport);
      IsInStep(t.state, SeenAfter(seen, t.events))
  {
    var axis := [Axis(S.Rescaled(c, out))];
    SeenAfterBoth(seen, r.events, axis);
    assert axis[..0] == [];
  }

  // ----- the device during one poll

  lemma InputMovesPedal(c: A.Config, s: A.State, pedal: Pedal, e: Event, r: A.Replies)
    ensures
      var t := A.AfterInput(c, s, if pedal.Accelerator? then A.FromAccel(e, r) else A.FromBrake(e, r));
      && t.accelState == (if pedal.Accelerator? then A.PedalAfter(s.accelState, e) else s.accelState)
      && t.brakeState == (if pedal.Brake? then A.PedalAfter(s.brakeState, e) else s.brakeState)
  {
    var i := if pedal.Accelerator? then A.FromAccel(e, r) else A.FromBrake(e, r);
    A.InputIsReceived(c, s, i);
    A.UpdateKeepsPedals(c, A.Received(s, i), r);
  }

  lemma {:induction false} InputsMovePedal(
      c: A.Config, s: A.State, pedal: Pedal, events: seq<Event>, replies: nat -> A.Replies)
    ensures
      var t := A.AfterInputs(c, s, Inputs(pedal, events, replies));
      && t.accelState == (if pedal.Accelerator? then SeenAfter(s.accelState, events) else s.accelState)
      && t.brakeState == (if pedal.Brake? then SeenAfter(s.brakeState, events) else s.brakeState)
  {
    if events != [] {
      var front := events[..|events| - 1];
      InputsMovePedal(c, s, pedal, front, replies);
      var inputs := Inputs(pedal, events, replies);
      assert inputs[..|inputs| - 1] == Inputs(pedal, front, replies);
      InputMovesPedal(
        c, A.AfterInputs(c, s, Inputs(pedal, front, replies)), pedal, Last(events), replies(|events| - 1));
    }
  }

  // ----- whole runs

  /**
   In every run of polls of both pedals, whatever reports fail: a latched channel error is seen by
   the device.
   */
  lemma {:induction false} PollsKeepLink(c: Config, polls: seq<Poll>)
    requires c.Valid() && AllFit(c, polls)
    ensures
      var s := AfterPolls(c, polls);
      && IsLinked(s.accel, s.device.accelState)
      && IsLinked(s.brake, s.device.brakeState)
      && A.Invariant(s.device)
  {
    if polls != [] {
      var front := polls[..|polls| - 1];
      PollsKeepLink(c, front);
      var s, poll := AfterPolls(c, front), Last(polls);
      var r := S.AfterChannelUpdate(c.Of(poll.pedal), s.Of(poll.pedal), poll.samples, poll.cycle);
      UpdateKeepsLink(c.Of(poll.pedal), s.Of(poll.pedal), s.Seen(poll.pedal), poll.samples, poll.cycle);
      InputsMovePedal(c.device, s.device, poll.pedal, r.events, poll.replies);
      A.InputsKeepInvariant(c.device, s.device, Inputs(poll.pedal, r.events, poll.replies));
    }
  }

  ghost predicate DeviceIsDelivered(polls: seq<Poll>) {
    forall i :: 0 <= i < |polls| ==> forall k :: A.Delivered(polls[i].replies(k))
  }

  ghost predicate ChannelsAreDelivered(polls: seq<Poll>) {
    forall i :: 0 <= i < |polls| ==> IsDelivered(polls[i].cycle)
  }

  predicate ErrorIsBlock(s: A.State) {
    s.accelState != A.Init && s.brakeState != A.Init ==> (s.error != ERROR_NONE <==> A.IsBlocked(s))
  }

  lemma InputKeepsErrorIsBlock(c: A.Config, s: A.State, i: A.Input)
    requires A.Delivered(i.replies)
    ensures ErrorIsBlock(A.AfterInput(c, s, i))
  {
    A.InputIsReceived(c, s, i);
  }

  lemma InputsKeepErrorIsBlock(
      c: A.Config, s: A.State, pedal: Pedal, events: seq<Event>, replies: nat -> A.Replies)
    requires ErrorIsBlock(s) && forall k :: A.Delivered(replies(k))
    ensures ErrorIsBlock(A.AfterInputs(c, s, Inputs(pedal, events, replies)))
  {
    var inputs := Inputs(pedal, events, replies);
    if inputs != [] {
      InputKeepsErrorIsBlock(c, A.AfterInputs(c, s, inputs[..|inputs| - 1]), Last(inputs));
    }
  }

  /** With the reports of the device delivered, its error is set exactly while it is blocked. */
  lemma {:induction false} PollsKeepErrorIsBlock(c: Config, polls: seq<Poll>)
    requires c.Valid() && AllFit(c, polls) && DeviceIsDelivered(polls)
    ensures ErrorIsBlock(AfterPolls(c, polls).device)
  {
    if polls != [] {
      var front := polls[..|polls| - 1];
      PollsKeepErrorIsBlock(c, front);
      var s, poll := AfterPolls(c, front), Last(polls);
      assert polls[|polls| - 1] == poll;
      var r := S.AfterChannelUpdate(c.Of(poll.pedal), s.Of(poll.pedal), poll.samples, poll.cycle);
      InputsKeepErrorIsBlock(c.device, s.device, poll.pedal, r.events, poll.replies);
    }
  }

  /**
   While either pedal channel is in error the last throttle reported is 0, or none ever was. The
   reports of the channels may fail.
   */
  lemma PedalErrorCutsThrottle(c: Config, polls: seq<Poll>)
    requires c.Valid() && AllFit(c, polls) && DeviceIsDelivered(polls)
    requires C.IsLatched(AfterPolls(c, polls).accel) || C.IsLatched(AfterPolls(c, polls).brake)
    ensures LastAxis(AfterPolls(c, polls).device.log) in {None, Some(0)}
  {
    PollsKeepLink(c, polls);
    PollsKeepErrorIsBlock(c, polls);
  }

  /**
   With the reports of the channels delivered, at each poll boundary the device sees each pedal in
   error exactly while its channel is.
   */
  lemma {:induction false} PollsKeepStep(c: Config, polls: seq<Poll>)
    requires c.Valid() && AllFit(c, polls) && ChannelsAreDelivered(polls)
    ensures
      var s := AfterPolls(c, polls);
      && (C.IsLatched(s.accel) <==> s.device.accelState == A.Err)
      && (C.IsLatched(s.brake) <==> s.device.brakeState == A.Err)
  {
    if polls != [] {
      var front := polls[..|polls| - 1];
      PollsKeepStep(c, front);
      PollsKeepLink(c, front);
      var s, poll := AfterPolls(c, front), Last(polls);
      assert polls[|polls| - 1] == poll;
      var r := S.AfterChannelUpdate(c.Of(poll.pedal), s.Of(poll.pedal), poll.samples, poll.cycle);
      UpdateKeepsStep(c.Of(poll.pedal), s.Of(poll.pedal), s.Seen(poll.pedal), poll.samples, poll.cycle);
      InputsMovePedal(c.device, s.device, poll.pedal, r.events, poll.replies);
    }
  }
}
