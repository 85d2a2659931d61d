/**
 Whole runs of a sensor axis channel, cycle after cycle: when its time tolerance is kept, when its
 error can clear, and that its last report is current.
 */
module SensorAxisRuns {
  import opened Types
  import opened CInteger
  import opened InputEvents
  import opened SensorAxis
  import opened SensorAxisArithmetic
  import opened SensorAxisChecks

  /** One cycle: what it finds at the sensors, and what the reports of the channel return. */
  datatype Poll = Poll(samples: seq<Sample>, cycle: Cycle)

  predicate Fits(c: Config, p: Poll) {
    |p.samples| == |p.cycle.reports| == |c.weights|
  }

  predicate AllFit(c: Config, polls: seq<Poll>) {
    forall i :: 0 <= i < |polls| ==> Fits(c, polls[i])
  }

  function AfterPoll(c: Config, s: ChannelState, p: Poll): ChannelResult
    requires c.TotalWeight() != 0 && Fits(c, p)
  {
    AfterChannelUpdate(c, s, p.samples, p.cycle)
  }

  function AfterPolls(c: Config, s: ChannelState, polls: seq<Poll>): ChannelState
    requires c.TotalWeight() != 0 && AllFit(c, polls)
  {
    if polls == [] then s else AfterPoll(c, AfterPolls(c, s, polls[..|polls| - 1]), Last(polls)).state
  }

  lemma PollsGrow(c: Config, s: ChannelState, polls: seq<Poll>, p: Poll)
    requires c.TotalWeight() != 0 && AllFit(c, polls) && Fits(c, p)
    ensures AllFit(c, polls + [p])
    ensures AfterPolls(c, s, polls + [p]) == AfterPoll(c, AfterPolls(c, s, polls), p).state
  {
    assert (polls + [p])[..|polls|] == polls;
  }

  // ----- the error over one cycle

  /** The sensors fail the checks of the cycle. */
  predicate IsBad(c: Config, s: ChannelState, p: Poll)
    requires Fits(c, p)
  {
    var w := SweepOf(c, s, p.samples, p.cycle.reports);
    w.ret < 0 || Deviates(c, w)
  }

  /** Cycles of the run that fail the checks. */
  function BadCycles(c: Config, s: ChannelState, polls: seq<Poll>): nat
    requires c.TotalWeight() != 0 && AllFit(c, polls)
  {
    if polls == [] then 0
    else
      var front := polls[..|polls| - 1];
      BadCycles(c, s, front) + if IsBad(c, AfterPolls(c, s, front), Last(polls)) then 1 else 0
  }

  /** The error calls one cycle makes. */
  function CallsIn(c: Config, s: ChannelState, p: Poll): seq<Call>
    requires Fits(c, p)
  {
    var w := SweepOf(c, s, p.samples, p.cycle.reports);
    CallsOf(p.samples, p.cycle.reports)
    + if w.ret < 0 then []
      else if Deviates(c, w) then [Call(ERROR_DEV, p.cycle.errorReport)]
      else [Call(ERROR_NONE, p.cycle.errorReport)]
  }

  /** Error and accumulated time are left as those calls leave them; a report only changes the output. */
  lemma PollMakesCalls(c: Config, s: ChannelState, p: Poll)
    requires c.TotalWeight() != 0 && Fits(c, p)
    ensures
      var t, u := AfterPoll(c, s, p).state, AfterCalls(c, s, CallsIn(c, s, p));
      t.error == u.error && t.accumErrorTime == u.accumErrorTime
  {
    var calls := CallsOf(p.samples, p.cycle.reports);
    var w := SweepOf(c, s, p.samples, p.cycle.reports);
    SweepMakesCalls(c, s, p.samples, p.cycle.reports);
    if w.ret < 0 {
      assert CallsIn(c, s, p) == calls;
    } else if Deviates(c, w) {
      CallsGrow(c, s, calls, Call(ERROR_DEV, p.cycle.errorReport));
    } else {
      CallsGrow(c, s, calls, Call(ERROR_NONE, p.cycle.errorReport));
      var good := AfterChannelError(c, w.channel, ERROR_NONE, 0, p.cycle.errorReport);
      ReportKeepsError(c, good.(events := w.events + good.events), CurrentOut(c, w), p.cycle.axisReport);
    }
  }

  lemma ReportKeepsError(c: Config, r: ChannelResult, out: int, axisReport: int)
    ensures
      var t := AfterReport(c, r, out, axisReport).state;
      t.error == r.state.error && t.accumErrorTime == r.state.accumErrorTime
  {
  }

  lemma {:induction false} GoodSensorsMakeNoCalls(samples: seq<Sample>, reports: seq<int>)
    requires |samples| == |reports|
    ensures CallsOf(samples, reports) == [] <==> forall i :: 0 <= i < |samples| ==> IsGood(samples[i])
    ensures |CallsOf(samples, reports)| <= |samples|
  {
    if samples != [] {
      var k := |samples| - 1;
      GoodSensorsMakeNoCalls(samples[..k], reports[..k]);
      assert forall i :: 0 <= i < k ==> samples[..k][i] == samples[i];
    }
  }

  lemma {:induction false} CountOfBad(calls: seq<Call>)
    requires forall i :: 0 <= i < |calls| ==> calls[i].error != ERROR_NONE
    ensures Count(calls, true) == |calls|
  {
    if calls != [] {
      CountOfBad(calls[..|calls| - 1]);
    }
  }

  lemma SweepHasCalls(c: Config, s: ChannelState, p: Poll)
    requires Fits(c, p)
    ensures SweepOf(c, s, p.samples, p.cycle.reports).ret < 0 <==> CallsOf(p.samples, p.cycle.reports) != []
    ensures |CallsOf(p.samples, p.cycle.reports)| <= |c.weights|
  {
    SweepFailsOnBadSensor(c, s, p.samples, p.cycle.reports);
    GoodSensorsMakeNoCalls(p.samples, p.cycle.reports);
  }

  /** A good cycle makes no bad call, and a bad one at most one for each sensor. */
  lemma BadCallsInPoll(c: Config, s: ChannelState, p: Poll)
    requires c.Valid() && Fits(c, p)
    ensures Count(CallsIn(c, s, p), true) <= if IsBad(c, s, p) then |c.weights| else 0
  {
    var calls := CallsOf(p.samples, p.cycle.reports);
    SweepHasCalls(c, s, p);
    CallsAreBad(p.samples, p.cycle.reports);
    CountOfBad(calls);
    var w := SweepOf(c, s, p.samples, p.cycle.reports);
    if w.ret < 0 {
      assert CallsIn(c, s, p) == calls;
    } else {
      OneCall(Call(if Deviates(c, w) then ERROR_DEV else ERROR_NONE, p.cycle.errorReport));
    }
  }

  lemma OneCall(call: Call)
    ensures [] + [call] == [call]
    ensures Count([call], true) == if call.error != ERROR_NONE then 1 else 0
  {
    assert [call][..0] == [];
  }

  lemma PollIsBounded(c: Config, s: ChannelState, p: Poll)
    requires c.Valid() && Fits(c, p) && 0 <= s.accumErrorTime <= c.timeTolerance
    ensures 0 <= AfterPoll(c, s, p).state.accumErrorTime <= c.timeTolerance
  {
    PollMakesCalls(c, s, p);
    AccumulationIsBounded(c, s, CallsIn(c, s, p));
  }

  lemma {:induction false} PollsAreBounded(c: Config, s: ChannelState, polls: seq<Poll>)
    requires c.Valid() && AllFit(c, polls) && 0 <= s.accumErrorTime <= c.timeTolerance
    ensures 0 <= AfterPolls(c, s, polls).accumErrorTime <= c.timeTolerance
  {
    if polls != [] {
      PollsAreBounded(c, s, polls[..|polls| - 1]);
      PollIsBounded(c, AfterPolls(c, s, polls[..|polls| - 1]), Last(polls));
    }
  }

  // ----- the time tolerance

  /** In every run an error is only set after enough bad cycles to make up the tolerance. */
  ghost predicate KeepsTolerance(c: Config)
    requires c.TotalWeight() != 0
  {
    forall polls | AllFit(c, polls) && IsLatched(AfterPolls(c, INITIAL_CHANNEL, polls)) ::
      c.timeTolerance <= c.pollPeriod * BadCycles(c, INITIAL_CHANNEL, polls)
  }

  /** In one cycle, an error is set by time left over from earlier ones and by that of its bad calls. */
  lemma PollSetsInTime(c: Config, s: ChannelState, p: Poll)
    requires c.Valid() && Fits(c, p) && 0 <= s.accumErrorTime <= c.timeTolerance
    ensures
      var t, bad := AfterPoll(c, s, p).state, Count(CallsIn(c, s, p), true);
      && t.accumErrorTime <= s.accumErrorTime + c.pollPeriod * bad
      && (!IsLatched(s) && IsLatched(t) ==> c.timeTolerance <= s.accumErrorTime + c.pollPeriod * bad && bad > 0)
  {
    var calls := CallsIn(c, s, p);
    PollMakesCalls(c, s, p);
    SettingNeedsBadCalls(c, s, calls);
    if Count(calls, true) == 0 {
      GoodCallsSetNothing(c, s, calls);
    }
  }

  lemma {:induction false} GoodCallsSetNothing(c: Config, s: ChannelState, calls: seq<Call>)
    requires Count(calls, true) == 0
    ensures IsLatched(AfterCalls(c, s, calls)) ==> IsLatched(s)
  {
    if calls != [] {
      GoodCallsSetNothing(c, s, calls[..|calls| - 1]);
    }
  }

  lemma {:induction false} OneSensorKeepsTolerance(c: Config, polls: seq<Poll>)
    requires c.Valid() && |c.weights| == 1 && AllFit(c, polls)
    ensures
      var s, bad := AfterPolls(c, INITIAL_CHANNEL, polls), BadCycles(c, INITIAL_CHANNEL, polls);
      && s.accumErrorTime <= c.pollPeriod * bad
      && (IsLatched(s) ==> c.timeTolerance <= c.pollPeriod * bad)
  {
    if polls != [] {
      var front, p := polls[..|polls| - 1], Last(polls);
      OneSensorKeepsTolerance(c, front);
      PollsAreBounded(c, INITIAL_CHANNEL, front);
      var s := AfterPolls(c, INITIAL_CHANNEL, front);
      BadCallsInPoll(c, s, p);
      PollSetsInTime(c, s, p);
      var n, bad := BadCycles(c, INITIAL_CHANNEL, front), Count(CallsIn(c, s, p), true);
      var now := if IsBad(c, s, p) then 1 else 0;
      Distribute(c.pollPeriod, n, now);
      MultiplyOrdered(bad, now, c.pollPeriod);
    }
  }

  lemma {:induction false} ErrorNeedsBadCycle(c: Config, polls: seq<Poll>)
    requires c.Valid() && AllFit(c, polls) && IsLatched(AfterPolls(c, INITIAL_CHANNEL, polls))
    ensures BadCycles(c, INITIAL_CHANNEL, polls) > 0
  {
    var front, p := polls[..|polls| - 1], Last(polls);
    var s := AfterPolls(c, INITIAL_CHANNEL, front);
    if IsLatched(s) {
      ErrorNeedsBadCycle(c, front);
    } else {
      PollsAreBounded(c, INITIAL_CHANNEL, front);
      PollSetsInTime(c, s, p);
      BadCallsInPoll(c, s, p);
    }
  }

  // ----- runs without any sensor

  /** A cycle in which no sensor is ready, with every report delivered. */
  function Unready(n: nat): Poll {
    Poll(seq(n, _ => NotReady), Cycle([], [], [], seq(n, _ => 0), 0, 0))
  }

  function BadCalls(n: nat): seq<Call> {
    seq(n, _ => Call(ERROR_NODEV, 0))
  }

  lemma {:induction false} CallsOfUnready(n: nat)
    ensures CallsOf(Unready(n).samples, Unready(n).cycle.reports) == BadCalls(n)
  {
    if n > 0 {
      CallsOfUnready(n - 1);
      assert Unready(n).samples[..n - 1] == Unready(n - 1).samples;
      assert Unready(n).cycle.reports[..n - 1] == Unready(n - 1).cycle.reports;
      assert BadCalls(n) == BadCalls(n - 1) + [Call(ERROR_NODEV, 0)];
    }
  }

  lemma {:induction false} CallsCompose(c: Config, s: ChannelState, first: seq<Call>, more: seq<Call>)
    ensures AfterCalls(c, s, first + more) == AfterCalls(c, AfterCalls(c, s, first), more)
  {
    if more == [] {
      assert first + more == first;
    } else {
      var front := more[..|more| - 1];
      CallsCompose(c, s, first, front);
      assert (first + more)[..|first + more| - 1] == first + front;
    }
  }

  lemma UnreadyIsBad(c: Config, s: ChannelState)
    requires c.Valid()
    ensures Fits(c, Unready(|c.weights|)) && IsBad(c, s, Unready(|c.weights|))
    ensures AfterPoll(c, s, Unready(|c.weights|)).state == AfterCalls(c, s, BadCalls(|c.weights|))
  {
    var p := Unready(|c.weights|);
    SweepFailsOnBadSensor(c, s, p.samples, p.cycle.reports);
    assert !IsGood(p.samples[0]);
    CallsOfUnready(|c.weights|);
    SweepMakesCalls(c, s, p.samples, p.cycle.reports);
  }

  lemma BadCyclesGrow(c: Config, s: ChannelState, polls: seq<Poll>, p: Poll)
    requires c.TotalWeight() != 0 && AllFit(c, polls) && AllFit(c, polls + [p]) && Fits(c, p)
    ensures BadCycles(c, s, polls + [p]) ==
            BadCycles(c, s, polls) + if IsBad(c, AfterPolls(c, s, polls), p) then 1 else 0
  {
    assert (polls + [p])[..|polls|] == polls;
  }

  lemma OneMoreUnready(c: Config, front: seq<Poll>, calls: nat)
    requires c.Valid() && AllFit(c, front)
    requires AfterPolls(c, INITIAL_CHANNEL, front) == AfterCalls(c, INITIAL_CHANNEL, BadCalls(calls))
    ensures AllFit(c, front + [Unready(|c.weights|)])
    ensures AfterPolls(c, INITIAL_CHANNEL, front + [Unready(|c.weights|)])
         == AfterCalls(c, INITIAL_CHANNEL, BadCalls(calls + |c.weights|))
    ensures BadCycles(c, INITIAL_CHANNEL, front + [Unready(|c.weights|)])
         == BadCycles(c, INITIAL_CHANNEL, front) + 1
  {
    var p := Unready(|c.weights|);
    UnreadyIsBad(c, AfterPolls(c, INITIAL_CHANNEL, front));
    PollsGrow(c, INITIAL_CHANNEL, front, p);
    BadCyclesGrow(c, INITIAL_CHANNEL, front, p);
    CallsCompose(c, INITIAL_CHANNEL, BadCalls(calls), BadCalls(|c.weights|));
    assert BadCalls(calls) + BadCalls(|c.weights|) == BadCalls(calls + |c.weights|);
  }

  lemma OneUnready(c: Config)
    requires c.Valid()
    ensures AllFit(c, [Unready(|c.weights|)])
    ensures AfterPolls(c, INITIAL_CHANNEL, [Unready(|c.weights|)])
         == AfterCalls(c, INITIAL_CHANNEL, BadCalls(|c.weights|))
  {
    OneMoreUnready(c, [], 0);
    assert [] + [Unready(|c.weights|)] == [Unready(|c.weights|)];
  }

  /** `k` such cycles are as many bad calls as all sensors make in them. */
  lemma {:induction false} UnreadyRun(c: Config, k: nat) returns (polls: seq<Poll>, calls: nat)
    requires c.Valid()
    ensures AllFit(c, polls) && calls == |c.weights| * k
    ensures AfterPolls(c, INITIAL_CHANNEL, polls) == AfterCalls(c, INITIAL_CHANNEL, BadCalls(calls))
    ensures BadCycles(c, INITIAL_CHANNEL, polls) == k
  {
    if k == 0 {
      return [], 0;
    }
    var front, fewer := UnreadyRun(c, k - 1);
    OneMoreUnready(c, front, fewer);
    polls, calls := front + [Unready(|c.weights|)], fewer + |c.weights|;
    Distribute(|c.weights|, k - 1, 1);
  }

  /** The last cycle before the tolerance is over; by then several sensors have used it up. */
  lemma CyclesWithin(period: nat, tolerance: nat, n: nat) returns (k: nat)
    requires 0 < period < tolerance && n > 1
    ensures period * k < tolerance <= period * (n * k)
  {
    k := (tolerance - 1) / period;
    DivisionBounds(tolerance - 1, period);
    Distribute(period, k, 1);
    QuotientFromProduct(k, period, 1);
    MultiplyOrdered(2, n, k);
    MultiplyOrdered(k + 1, n * k, period);
  }

  /** With several sensors and a tolerance of more than a cycle, such a run sets the error too early. */
  lemma SeveralSensorsBreakTolerance(c: Config) returns (polls: seq<Poll>)
    requires c.Valid() && |c.weights| > 1 && c.pollPeriod < c.timeTolerance
    ensures AllFit(c, polls) && IsLatched(AfterPolls(c, INITIAL_CHANNEL, polls))
    ensures c.pollPeriod * BadCycles(c, INITIAL_CHANNEL, polls) < c.timeTolerance
  {
    var n := |c.weights|;
    var k := CyclesWithin(c.pollPeriod, c.timeTolerance, n);
    var calls;
    polls, calls := UnreadyRun(c, k);
    BadCallsInARow(c, INITIAL_CHANNEL, BadCalls(calls));
  }

  /**
   The time tolerance is kept in every run exactly if there is one sensor, or the tolerance is over
   with the first bad cycle anyway.
   */
  lemma ToleranceCondition(c: Config)
    requires c.Valid()
    ensures KeepsTolerance(c) <==> |c.weights| == 1 || c.timeTolerance <= c.pollPeriod
  {
    if |c.weights| != 1 && c.pollPeriod < c.timeTolerance {
      var polls := SeveralSensorsBreakTolerance(c);
    } else {
      forall polls | AllFit(c, polls) && IsLatched(AfterPolls(c, INITIAL_CHANNEL, polls))
        ensures c.timeTolerance <= c.pollPeriod * BadCycles(c, INITIAL_CHANNEL, polls)
      {
        if |c.weights| == 1 {
          OneSensorKeepsTolerance(c, polls);
        } else {
          ErrorNeedsBadCycle(c, polls);
          MultiplyOrdered(1, BadCycles(c, INITIAL_CHANNEL, polls), c.pollPeriod);
        }
      }
    }
  }

  const TWO_SENSORS := Config([1, 1], 0, 100, Edge, 0, 0, -1, 10, 20, 100)

  /** Two sensors, polled every 10 ms, with a tolerance of 20 ms: an error after one cycle. */
  lemma ErrorAfterOneCycle()
    ensures TWO_SENSORS.Valid() && Fits(TWO_SENSORS, Unready(2))
    ensures IsLatched(AfterPolls(TWO_SENSORS, INITIAL_CHANNEL, [Unready(2)]))
  {
    var c := TWO_SENSORS;
    assert [1, 1][..1] == [1] && [1][..0] == [];
    assert Sum([1, 1]) == Sum([1]) + 1 && Sum([1]) == 1;
    OneUnready(c);
    BadCallsInARow(c, INITIAL_CHANNEL, BadCalls(2));
  }

  // ----- clearing

  /** A cycle in which all sensors read their first setpoint, with every report delivered. */
  function Resting(n: nat): Poll {
    Poll(seq(n, _ => Got(0, 0)), Cycle([], [], [], seq(n, _ => 0), 0, 0))
  }

  lemma RestingIsGood(c: Config, s: ChannelState)
    requires c.Valid() && IsLatched(s) && 0 <= s.accumErrorTime <= c.timeTolerance
    ensures Fits(c, Resting(|c.weights|))
    ensures
      var t := AfterPoll(c, s, Resting(|c.weights|)).state;
      && t.accumErrorTime == Max(s.accumErrorTime - Decay(c), 0)
      && (IsLatched(t) <==> t.accumErrorTime != 0)
  {
    var p := Resting(|c.weights|);
    GoodSweep(c, s, p.samples, p.cycle.reports);
    var w := SweepOf(c, s, p.samples, p.cycle.reports);
    assert w.min in Values(p.samples) && w.max in Values(p.samples);
    assert w.min == 0 && w.max == 0;
    assert !Deviates(c, w);
    DecayIsNonNegative(c);
  }

  lemma {:induction false} RestingClears(c: Config, s: ChannelState) returns (polls: seq<Poll>)
    requires c.Valid() && IsLatched(s) && 0 <= s.accumErrorTime <= c.timeTolerance
    requires s.accumErrorTime == 0 || Decay(c) > 0
    ensures AllFit(c, polls) && !IsLatched(AfterPolls(c, s, polls))
    decreases s.accumErrorTime
  {
    var p := Resting(|c.weights|);
    RestingIsGood(c, s);
    var t := AfterPoll(c, s, p).state;
    if IsLatched(t) {
      var rest := RestingClears(c, t);
      polls := [p] + rest;
      PollsStart(c, s, p, rest);
    } else {
      polls := [p];
      assert [p][..0] == [];
    }
  }

  lemma {:induction false} PollsStart(c: Config, s: ChannelState, p: Poll, rest: seq<Poll>)
    requires c.TotalWeight() != 0 && Fits(c, p) && AllFit(c, rest)
    ensures AllFit(c, [p] + rest)
    ensures AfterPolls(c, s, [p] + rest) == AfterPolls(c, AfterPoll(c, s, p).state, rest)
  {
    if rest == [] {
      assert [p] + rest == [p] && [p][..0] == [];
    } else {
      var front := rest[..|rest| - 1];
      PollsStart(c, s, p, front);
      PollsGrow(c, s, [p] + front, Last(rest));
      assert [p] + rest == [p] + front + [Last(rest)];
    }
  }

  /** With a decay of nothing, no call clears an error that has time left. */
  lemma {:induction false} CallsKeepError(c: Config, s: ChannelState, calls: seq<Call>)
    requires c.Valid() && Decay(c) == 0 && 0 < s.accumErrorTime <= c.timeTolerance && IsLatched(s)
    ensures IsLatched(AfterCalls(c, s, calls)) && 0 < AfterCalls(c, s, calls).accumErrorTime <= c.timeTolerance
  {
    if calls != [] {
      CallsKeepError(c, s, calls[..|calls| - 1]);
    }
  }

  lemma {:induction false} PollsKeepError(c: Config, s: ChannelState, polls: seq<Poll>)
    requires c.Valid() && Decay(c) == 0 && 0 < s.accumErrorTime <= c.timeTolerance && IsLatched(s)
    requires AllFit(c, polls)
    ensures IsLatched(AfterPolls(c, s, polls)) && 0 < AfterPolls(c, s, polls).accumErrorTime <= c.timeTolerance
  {
    if polls != [] {
      var front := polls[..|polls| - 1];
      PollsKeepError(c, s, front);
      var t := AfterPolls(c, s, front);
      PollMakesCalls(c, t, Last(polls));
      CallsKeepError(c, t, CallsIn(c, t, Last(polls)));
    }
  }

  /** A set error has time left, as long as nothing decays. */
  lemma {:induction false} CallsLeaveTime(c: Config, s: ChannelState, calls: seq<Call>)
    requires c.Valid() && Decay(c) == 0 && 0 <= s.accumErrorTime <= c.timeTolerance && 0 < c.timeTolerance
    requires IsLatched(s) ==> s.accumErrorTime > 0
    ensures IsLatched(AfterCalls(c, s, calls)) ==> AfterCalls(c, s, calls).accumErrorTime > 0
    ensures 0 <= AfterCalls(c, s, calls).accumErrorTime <= c.timeTolerance
  {
    if calls != [] {
      CallsLeaveTime(c, s, calls[..|calls| - 1]);
    }
  }

  lemma {:induction false} PollsLeaveTime(c: Config, polls: seq<Poll>)
    requires c.Valid() && Decay(c) == 0 && 0 < c.timeTolerance && AllFit(c, polls)
    ensures
      var s := AfterPolls(c, INITIAL_CHANNEL, polls);
      IsLatched(s) ==> 0 < s.accumErrorTime <= c.timeTolerance
  {
    PollsAreBounded(c, INITIAL_CHANNEL, polls);
    if polls != [] {
      var front := polls[..|polls| - 1];
      PollsLeaveTime(c, front);
      PollsAreBounded(c, INITIAL_CHANNEL, front);
      var t := AfterPolls(c, INITIAL_CHANNEL, front);
      PollMakesCalls(c, t, Last(polls));
      CallsLeaveTime(c, t, CallsIn(c, t, Last(polls)));
    }
  }

  /**
   In every run that has set an error, some further cycles clear it exactly if there is no time
   tolerance, or the decay is at least one millisecond: if it rounds down to nothing, no cycles at all
   do, good or bad.
   */
  lemma ClearCondition(c: Config, polls: seq<Poll>)
    requires c.Valid() && AllFit(c, polls) && IsLatched(AfterPolls(c, INITIAL_CHANNEL, polls))
    ensures
      (exists more :: AllFit(c, more) && !IsLatched(AfterPolls(c, AfterPolls(c, INITIAL_CHANNEL, polls), more)))
      <==> c.timeTolerance == 0 || c.timeTolerance * c.timeToleranceDecay >= 100
  {
    var s := AfterPolls(c, INITIAL_CHANNEL, polls);
    DecayIsNonNegative(c);
    PollsAreBounded(c, INITIAL_CHANNEL, polls);
    if c.timeTolerance == 0 || Decay(c) > 0 {
      var more := RestingClears(c, s);
    } else {
      PollsLeaveTime(c, polls);
      forall more | AllFit(c, more)
        ensures IsLatched(AfterPolls(c, s, more))
      {
        PollsKeepError(c, s, more);
      }
    }
  }

  const SLOW_DECAY := Config([1], 0, 100, Edge, 0, 0, -1, 10, 9, 10)

  /** A tolerance of 9 ms that decays by 10 percent: the error of one bad cycle stays for ever. */
  lemma ErrorStaysForever(more: seq<Poll>)
    requires AllFit(SLOW_DECAY, more)
    ensures SLOW_DECAY.Valid() && AllFit(SLOW_DECAY, [Unready(1)])
    ensures IsLatched(AfterPolls(SLOW_DECAY, AfterPolls(SLOW_DECAY, INITIAL_CHANNEL, [Unready(1)]), more))
  {
    var c := SLOW_DECAY;
    assert [1][..0] == [] && Sum([1]) == 1;
    OneUnready(c);
    BadCallsInARow(c, INITIAL_CHANNEL, BadCalls(1));
    PollsKeepError(c, AfterPolls(c, INITIAL_CHANNEL, [Unready(1)]), more);
  }

  // ----- what was reported last

  predicate AllFractions(polls: seq<Poll>) {
    forall i :: 0 <= i < |polls| ==> YieldFractions(polls[i].samples)
  }

  lemma {:induction false} PollsKeepOutput(c: Config, polls: seq<Poll>)
    requires c.Valid() && AllFit(c, polls) && AllFractions(polls)
    ensures IsOutput(c, AfterPolls(c, INITIAL_CHANNEL, polls).prevOut)
  {
    if polls != [] {
      var front, p := polls[..|polls| - 1], Last(polls);
      PollsKeepOutput(c, front);
      assert YieldFractions(polls[|polls| - 1].samples);
      UpdateKeepsOutput(c, AfterPolls(c, INITIAL_CHANNEL, front), p.samples, p.cycle);
    }
  }

  lemma SuccessNeedsGoodSensors(c: Config, s: ChannelState, p: Poll)
    requires c.Valid() && Fits(c, p) && YieldFractions(p.samples) && AfterPoll(c, s, p).ret >= 0
    ensures AreGood(p.samples)
  {
    SweepFailsOnBadSensor(c, s, p.samples, p.cycle.reports);
  }

  /** The last output is that of the mean or within the noise of it, on the same side of the deadzone. */
  predicate IsUpToDate(c: Config, mean: int, last: int) {
    var out := OutDeadzone(c, mean);
    && last != INVALID_OUT
    && (last == out || Abs(last - out) < c.noise)
    && (c.deadzoneSize > 0 ==> (InDeadzone(c, last) <==> InDeadzone(c, mean)))
  }

  /**
   In every run, whatever reports fail: after a successful cycle the last reported value equals the
   current one or is within the noise of it, and both are in the deadzone or neither is.
   */
  lemma RunReportsAreCurrent(c: Config, polls: seq<Poll>, p: Poll)
    requires c.Valid() && c.deadzoneMode != Unknown
    requires AllFit(c, polls) && AllFractions(polls) && Fits(c, p) && YieldFractions(p.samples)
    ensures
      var r := AfterPoll(c, AfterPolls(c, INITIAL_CHANNEL, polls), p);
      r.ret >= 0 ==> AreGood(p.samples) && IsUpToDate(c, Mean(c, Values(p.samples)), r.state.prevOut)
  {
    var s := AfterPolls(c, INITIAL_CHANNEL, polls);
    if AfterPoll(c, s, p).ret >= 0 {
      PollsKeepOutput(c, polls);
      SuccessNeedsGoodSensors(c, s, p);
      LastReportIsCurrent(c, s, p.samples, p.cycle);
    }
  }
}
