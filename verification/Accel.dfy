/**
 The accelerator device (drivers/input/accel/accel.c): passes the accelerator pedal on as throttle,
 unless a pedal is in error or accelerator and brake are used together (rule EV4.7 of the Formula
 SAE Rules, APPS / Brake Pedal Plausibility Check).
 */
module Accel {
  import opened Types
  import opened CInteger
  import opened InputEvents

  const INVALID_OUT := INT32_MAX

  datatype PedalState = Init | Normal | Err

  datatype Config = Config(min: int, max: int) {
    function Range(): int {
      max - min
    }

    function ActivateThreshold(): int {
      CDiv(Range() * 25, 100)
    }

    function DeactivateThreshold(): int {
      CDiv(Range() * 5, 100)
    }
  }

  /** What the three reports a callback can make return: negative if one fails. */
  datatype Replies = Replies(zero: int, error: int, throttle: int)

  predicate Delivered(r: Replies) {
    r.zero >= 0 && r.error >= 0 && r.throttle >= 0
  }

  /** `log` holds the events of the device that were delivered. */
  datatype State = State(
    accelState: PedalState,
    brakeState: PedalState,
    accelValue: int,
    brakeActuated: bool,
    plausFailed: bool,
    error: nat,
    prevOut: int,
    log: seq<Event>)

  const INITIAL := State(Init, Init, 0, false, false, ERROR_NONE, INVALID_OUT, [])

  datatype Result = Result(state: State, ret: int)

  function AfterErrorUpdate(s: State, error: nat, r: Replies): Result {
    if s.error == ERROR_NONE && error != ERROR_NONE then
      if r.zero < 0 then Result(s, r.zero)
      else
        var t := s.(prevOut := INVALID_OUT, log := s.log + [Axis(0)]);
        if r.error < 0 then Result(t, r.error)
        else Result(t.(error := error, log := t.log + [Error(error, true)]), 0)
    else if s.error != ERROR_NONE && error == ERROR_NONE then
      if r.error < 0 then Result(s, r.error)
      else Result(s.(error := ERROR_NONE, log := s.log + [Error(s.error, false)]), 0)
    else Result(s, 0)
  }

  predicate IsEvaluated(s: State) {
    s.accelState == Normal && s.brakeState == Normal
  }

  function Evaluated(c: Config, s: State): State {
    s.(plausFailed :=
         if s.plausFailed then s.accelValue > c.DeactivateThreshold()
         else s.accelValue > c.ActivateThreshold() && s.brakeActuated)
  }

  function AfterUpdate(c: Config, s: State, r: Replies): State {
    if s.accelState == Init || s.brakeState == Init then s
    else if s.accelState == Err || s.brakeState == Err then AfterErrorUpdate(s, ERROR_IO, r).state
    else
      var t := Evaluated(c, s);
      var u := AfterErrorUpdate(t, if t.plausFailed then ERROR_PEDAL_PLAUS else ERROR_NONE, r);
      if u.ret < 0 || t.plausFailed || t.accelValue == u.state.prevOut || r.throttle < 0 then u.state
      else u.state.(prevOut := t.accelValue, log := u.state.log + [Axis(t.accelValue)])
  }

  /** An event of a pedal: the axis configured for it, or an error. */
  function PedalAfter(p: PedalState, e: Event): PedalState {
    match e
    case Axis(_) => Normal
    case Error(code, _) => if code != ERROR_NONE then Err else p
  }

  function AfterAccel(c: Config, s: State, e: Event, r: Replies): State {
    var t := s.(accelState := PedalAfter(s.accelState, e), accelValue := if e.Axis? then e.value else s.accelValue);
    AfterUpdate(c, t, r)
  }

  function AfterBrake(c: Config, s: State, e: Event, r: Replies): State {
    var t := s.(brakeState := PedalAfter(s.brakeState, e),
                brakeActuated := if e.Axis? then e.value > 0 else s.brakeActuated);
    AfterUpdate(c, t, r)
  }

  class Device {
    const config: Config
    var accelState: PedalState
    var brakeState: PedalState
    var accelValue: int
    var brakeActuated: bool
    var plausFailed: bool
    var error: nat
    var prevOut: int
    ghost var log: seq<Event>

    ghost function Abstract(): State
      reads this
    {
      State(accelState, brakeState, accelValue, brakeActuated, plausFailed, error, prevOut, log)
    }

    constructor (config: Config)
      ensures this.config == config && Abstract() == INITIAL
    {
      this.config := config;
      accelState, brakeState := Init, Init;
      accelValue, brakeActuated, plausFailed := 0, false, false;
      error, prevOut := ERROR_NONE, INVALID_OUT;
      log := [];
    }

    method ErrorUpdate(newError: nat, r: Replies) returns (ret: int)
      modifies this
      ensures Abstract() == AfterErrorUpdate(old(Abstract()), newError, r).state
      ensures ret == AfterErrorUpdate(old(Abstract()), newError, r).ret
    {
      if error == ERROR_NONE && newError != ERROR_NONE {
        if r.zero < 0 {
          return r.zero;
        }
        log := log + [Axis(0)];
        prevOut := INVALID_OUT;
        if r.error < 0 {
          return r.error;
        }
        log := log + [Error(newError, true)];
      } else if error != ERROR_NONE && newError == ERROR_NONE {
        if r.error < 0 {
          return r.error;
        }
        log := log + [Error(error, false)];
      } else {
        return 0;
      }
      error := newError;
      return 0;
    }

    method Update(r: Replies)
      modifies this
      ensures Abstract() == AfterUpdate(config, old(Abstract()), r)
    {
      if accelState == Init || brakeState == Init {
        return;
      } else if accelState == Err || brakeState == Err {
        var _ := ErrorUpdate(ERROR_IO, r);
        return;
      }

      var range := config.max - config.min;
      if plausFailed {
        if accelValue <= CDiv(range * 5, 100) {
          plausFailed := false;
        }
      } else {
        if accelValue > CDiv(range * 25, 100) && brakeActuated {
          plausFailed := true;
        }
      }

      var ret := ErrorUpdate(if plausFailed then ERROR_PEDAL_PLAUS else ERROR_NONE, r);
      if ret < 0 {
        return;
      }

      if !plausFailed && accelValue != prevOut {
        if r.throttle < 0 {
          return;
        }
        log := log + [Axis(accelValue)];
        prevOut := accelValue;
      }
    }

    method AccelCallback(e: Event, r: Replies)
      modifies this
      ensures Abstract() == AfterAccel(config, old(Abstract()), e, r)
    {
      if e.Axis? {
        accelState := Normal;
        accelValue := e.value;
      } else if e.code != 0 {
        accelState := Err;
      }
      Update(r);
    }

    method BrakeCallback(e: Event, r: Replies)
      modifies this
      ensures Abstract() == AfterBrake(config, old(Abstract()), e, r)
    {
      if e.Axis? {
        brakeState := Normal;
        brakeActuated := e.value > 0;
      } else if e.code != 0 {
        brakeState := Err;
      }
      Update(r);
    }
  }

  // ----- whole runs

  datatype Input = FromAccel(event: Event, replies: Replies) | FromBrake(event: Event, replies: Replies)

  function AfterInput(c: Config, s: State, i: Input): State {
    match i
    case FromAccel(e, r) => AfterAccel(c, s, e, r)
    case FromBrake(e, r) => AfterBrake(c, s, e, r)
  }

  function AfterInputs(c: Config, s: State, inputs: seq<Input>): State {
    if inputs == [] then s else AfterInput(c, AfterInputs(c, s, inputs[..|inputs| - 1]), Last(inputs))
  }

  /** Holds whatever reports fail. */
  predicate Invariant(s: State) {
    SilentUntilReady(s) && Consistent(s)
  }

  /** Nothing is reported before both pedals have. */
  predicate SilentUntilReady(s: State) {
    s.accelState == Init || s.brakeState == Init ==> s.log == [] && s.error == ERROR_NONE && !s.plausFailed
  }

  /** The error and the last output are those that listeners know of. */
  predicate Consistent(s: State) {
    && (s.error != ERROR_NONE ==> LastAxis(s.log) == Some(0) && s.prevOut == INVALID_OUT)
    && (s.prevOut != INVALID_OUT ==> LastAxis(s.log) == Some(s.prevOut))
    && KnownError(s.log) == Some(s.error)
  }

  predicate IsBlocked(s: State) {
    s.accelState == Err || s.brakeState == Err || s.plausFailed
  }

  /** Holds when every report is delivered. */
  predicate UpToDate(s: State) {
    s.accelState != Init && s.brakeState != Init ==>
      && (s.error != ERROR_NONE <==> IsBlocked(s))
      && (!IsBlocked(s) ==> s.prevOut == s.accelValue)
  }

  lemma LogGrows(log: seq<Event>, e: Event)
    ensures LastAxis(log + [e]) == if e.Axis? then Some(e.value) else LastAxis(log)
    ensures KnownError(log + [e]) ==
            match (KnownError(log), e)
            case (None, _) => None
            case (known, Axis(_)) => known
            case (Some(known), Error(code, isSet)) =>
              if code == ERROR_NONE then None
              else if isSet then (if known == ERROR_NONE then Some(code) else None)
              else (if known == code then Some(ERROR_NONE) else None)
  {
    assert (log + [e])[..|log|] == log;
  }

  lemma RaisingIsKnown(log: seq<Event>, error: nat)
    requires KnownError(log) == Some(ERROR_NONE)
    ensures LastAxis(log + [Axis(0)]) == Some(0) && KnownError(log + [Axis(0)]) == Some(ERROR_NONE)
    ensures
      var raised := log + [Axis(0)] + [Error(error, true)];
      error != ERROR_NONE ==> LastAxis(raised) == Some(0) && KnownError(raised) == Some(error)
  {
    LogGrows(log, Axis(0));
    LogGrows(log + [Axis(0)], Error(error, true));
  }

  lemma ClearingIsKnown(log: seq<Event>, error: nat)
    requires KnownError(log) == Some(error) && error != ERROR_NONE
    ensures LastAxis(log + [Error(error, false)]) == LastAxis(log)
    ensures KnownError(log + [Error(error, false)]) == Some(ERROR_NONE)
  {
    LogGrows(log, Error(error, false));
  }

  lemma ErrorUpdateKeepsConsistency(s: State, error: nat, r: Replies)
    requires Consistent(s)
    ensures Consistent(AfterErrorUpdate(s, error, r).state)
    ensures AfterErrorUpdate(s, error, r).ret >= 0 ==>
              (AfterErrorUpdate(s, error, r).state.error == ERROR_NONE <==> error == ERROR_NONE)
  {
    if s.error == ERROR_NONE {
      RaisingIsKnown(s.log, error);
    } else {
      ClearingIsKnown(s.log, s.error);
    }
  }

  lemma UpdateKeepsConsistency(c: Config, s: State, r: Replies)
    requires Consistent(s)
    ensures Consistent(AfterUpdate(c, s, r))
  {
    ErrorUpdateKeepsConsistency(s, ERROR_IO, r);
    var t := Evaluated(c, s);
    var error := if t.plausFailed then ERROR_PEDAL_PLAUS else ERROR_NONE;
    ErrorUpdateKeepsConsistency(t, error, r);
    LogGrows(AfterErrorUpdate(t, error, r).state.log, Axis(t.accelValue));
  }

  /** The state an input leaves behind for the update it triggers. */
  function Received(s: State, i: Input): State {
    match i
    case FromAccel(e, _) =>
      s.(accelState := PedalAfter(s.accelState, e), accelValue := if e.Axis? then e.value else s.accelValue)
    case FromBrake(e, _) =>
      s.(brakeState := PedalAfter(s.brakeState, e), brakeActuated := if e.Axis? then e.value > 0 else s.brakeActuated)
  }

  lemma InputIsReceived(c: Config, s: State, i: Input)
    ensures AfterInput(c, s, i) == AfterUpdate(c, Received(s, i), i.replies)
  {
  }

  /** An update leaves alone what it was told of the pedals. */
  lemma UpdateKeepsPedals(c: Config, s: State, r: Replies)
    ensures
      var t := AfterUpdate(c, s, r);
      && t.accelState == s.accelState && t.brakeState == s.brakeState
      && t.accelValue == s.accelValue && t.brakeActuated == s.brakeActuated
  {
  }

  lemma UpdateKeepsSilence(c: Config, s: State, r: Replies)
    requires SilentUntilReady(s)
    ensures SilentUntilReady(AfterUpdate(c, s, r))
  {
  }

  lemma InputKeepsInvariant(c: Config, s: State, i: Input)
    requires Invariant(s)
    ensures Invariant(AfterInput(c, s, i))
  {
    InputIsReceived(c, s, i);
    UpdateKeepsConsistency(c, Received(s, i), i.replies);
    UpdateKeepsSilence(c, Received(s, i), i.replies);
  }

  lemma {:induction false} InputsKeepInvariant(c: Config, s: State, inputs: seq<Input>)
    requires Invariant(s)
    ensures Invariant(AfterInputs(c, s, inputs))
  {
    if inputs != [] {
      InputsKeepInvariant(c, s, inputs[..|inputs| - 1]);
      InputKeepsInvariant(c, AfterInputs(c, s, inputs[..|inputs| - 1]), Last(inputs));
    }
  }

  predicate AllDelivered(inputs: seq<Input>) {
    forall i :: 0 <= i < |inputs| ==> Delivered(inputs[i].replies)
  }

  lemma UpdateIsUpToDate(c: Config, s: State, r: Replies)
    requires Delivered(r) && (s.error != ERROR_NONE ==> s.prevOut == INVALID_OUT)
    ensures UpToDate(AfterUpdate(c, s, r))
  {
  }

  lemma {:induction false} InputsKeepUpToDate(c: Config, inputs: seq<Input>)
    requires AllDelivered(inputs)
    ensures UpToDate(AfterInputs(c, INITIAL, inputs))
  {
    if inputs != [] {
      var front := inputs[..|inputs| - 1];
      InputsKeepInvariant(c, INITIAL, front);
      var s := AfterInputs(c, INITIAL, front);
      InputIsReceived(c, s, Last(inputs));
      UpdateIsUpToDate(c, Received(s, Last(inputs)), Last(inputs).replies);
    }
  }

  /** Error events alternate with matching codes, and the throttle is 0 while an error is set. */
  lemma ErrorEventsAlternate(c: Config, inputs: seq<Input>)
    ensures
      var s := AfterInputs(c, INITIAL, inputs);
      && KnownError(s.log) == Some(s.error)
      && (s.error != ERROR_NONE ==> LastAxis(s.log) == Some(0))
  {
    InputsKeepInvariant(c, INITIAL, inputs);
  }

  // ----- the throttle

  /** Both pedals are good and the check has not failed. */
  predicate IsPassing(s: State) {
    IsEvaluated(s) && !s.plausFailed
  }

  /**
   The throttle after a run whose reports are delivered, from the states of the pedals alone. The
   value INT32_MAX also stands for no output: it only gets through after another value has.
   */
  function Throttle(c: Config, inputs: seq<Input>): Option<int> {
    if inputs == [] then None
    else
      var front := inputs[..|inputs| - 1];
      var s, t := AfterInputs(c, INITIAL, front), AfterInputs(c, INITIAL, inputs);
      if t.accelState == Init || t.brakeState == Init then None
      else if IsBlocked(t) then Some(0)
      else if t.accelValue != INVALID_OUT || (IsPassing(s) && s.accelValue != INVALID_OUT) then Some(t.accelValue)
      else Throttle(c, front)
  }

  lemma ClearingKeepsThrottle(s: State, r: Replies)
    requires Delivered(r)
    ensures
      var u := AfterErrorUpdate(s, ERROR_NONE, r);
      && u.ret >= 0 && LastAxis(u.state.log) == LastAxis(s.log)
      && u.state.prevOut == s.prevOut && u.state.accelValue == s.accelValue
  {
    LogGrows(s.log, Error(s.error, false));
  }

  lemma UpdateReports(c: Config, s: State, r: Replies)
    requires Consistent(s) && Delivered(r) && IsPassing(AfterUpdate(c, s, r))
    ensures LastAxis(AfterUpdate(c, s, r).log) ==
            if s.accelValue == s.prevOut then LastAxis(s.log) else Some(s.accelValue)
  {
    UpdateKeepsPedals(c, s, r);
    UpdateEvaluates(c, s, r);
    var u := AfterErrorUpdate(Evaluated(c, s), ERROR_NONE, r).state;
    ClearingKeepsThrottle(Evaluated(c, s), r);
    LogGrows(u.log, Axis(s.accelValue));
    assert AfterUpdate(c, s, r) ==
           if s.accelValue == s.prevOut then u else u.(prevOut := s.accelValue, log := u.log + [Axis(s.accelValue)]);
  }

  lemma InputReports(c: Config, s: State, i: Input)
    requires Consistent(s) && Delivered(i.replies) && IsPassing(AfterInput(c, s, i))
    ensures
      var t := AfterInput(c, s, i);
      LastAxis(t.log) == if t.accelValue == s.prevOut then LastAxis(s.log) else Some(t.accelValue)
  {
    InputIsReceived(c, s, i);
    UpdateKeepsPedals(c, Received(s, i), i.replies);
    UpdateReports(c, Received(s, i), i.replies);
  }

  /**
   The throttle after any run: nothing until both pedals have reported, 0 while a pedal is in
   error or the plausibility check has failed, the accelerator otherwise, except for the value
   INT32_MAX.
   */
  lemma {:induction false} ThrottleIsExact(c: Config, inputs: seq<Input>)
    requires AllDelivered(inputs)
    ensures
      var s := AfterInputs(c, INITIAL, inputs);
      && LastAxis(s.log) == Throttle(c, inputs)
      && (s.accelState != Init && s.brakeState != Init ==> (s.error != ERROR_NONE <==> IsBlocked(s)))
  {
    InputsKeepInvariant(c, INITIAL, inputs);
    InputsKeepUpToDate(c, inputs);
    if inputs != [] && IsPassing(AfterInputs(c, INITIAL, inputs)) {
      var front := inputs[..|inputs| - 1];
      InputsKeepInvariant(c, INITIAL, front);
      InputsKeepUpToDate(c, front);
      ThrottleIsExact(c, front);
      InputReports(c, AfterInputs(c, INITIAL, front), Last(inputs));
    }
  }

  /**
   The accelerator is passed on exactly if it is not INT32_MAX, or another value is the last output,
   or INT32_MAX is the last throttle already.
   */
  lemma SampleIsPassedOnCondition(c: Config, inputs: seq<Input>, i: Input)
    requires AllDelivered(inputs + [i]) && IsPassing(AfterInputs(c, INITIAL, inputs + [i]))
    ensures
      var s, t := AfterInputs(c, INITIAL, inputs), AfterInputs(c, INITIAL, inputs + [i]);
      LastAxis(t.log) == Some(t.accelValue)
      <==> t.accelValue != INVALID_OUT || s.prevOut != INVALID_OUT || LastAxis(s.log) == Some(INVALID_OUT)
  {
    assert (inputs + [i])[..|inputs|] == inputs && Last(inputs + [i]) == i;
    InputsKeepInvariant(c, INITIAL, inputs);
    InputReports(c, AfterInputs(c, INITIAL, inputs), i);
  }

  /** The accelerator has been INT32_MAX ever since the device last was blocked, or not ready. */
  predicate IsStuck(c: Config, inputs: seq<Input>) {
    inputs != [] && IsPassing(AfterInputs(c, INITIAL, inputs))
    && AfterInputs(c, INITIAL, inputs).accelValue == INVALID_OUT
    && (IsPassing(AfterInputs(c, INITIAL, inputs[..|inputs| - 1])) ==> IsStuck(c, inputs[..|inputs| - 1]))
  }

  /** Over whole runs: the value INT32_MAX is lost exactly while it is all there was. */
  lemma {:induction false} ThrottleIsPassedOnCondition(c: Config, inputs: seq<Input>)
    requires AllDelivered(inputs) && IsPassing(AfterInputs(c, INITIAL, inputs))
    ensures LastAxis(AfterInputs(c, INITIAL, inputs).log) == Some(AfterInputs(c, INITIAL, inputs).accelValue)
            <==> !IsStuck(c, inputs)
  {
    ThrottleIsExact(c, inputs);
    var front := inputs[..|inputs| - 1];
    ThrottleIsExact(c, front);
    if IsPassing(AfterInputs(c, INITIAL, front)) {
      ThrottleIsPassedOnCondition(c, front);
    }
  }

  const DELIVERED := Replies(0, 0, 0)

  lemma FourInputs(c: Config, s: State, a: Input, b: Input, d: Input, e: Input)
    ensures AfterInputs(c, s, [a, b]) == AfterInput(c, AfterInput(c, s, a), b)
    ensures AfterInputs(c, s, [a, b, d]) == AfterInput(c, AfterInputs(c, s, [a, b]), d)
    ensures AfterInputs(c, s, [a, b, d, e]) == AfterInput(c, AfterInputs(c, s, [a, b, d]), e)
  {
    assert [a][..0] == [] && AfterInputs(c, s, [a]) == AfterInput(c, s, a);
    assert [a, b][..1] == [a];
    assert [a, b, d][..2] == [a, b];
    assert [a, b, d, e][..3] == [a, b, d];
  }

  /** Lost as the first sample: no throttle is reported, though the device is not blocked. */
  lemma MaximumIsLostAtFirst(c: Config)
    ensures
      var s := AfterInputs(c, INITIAL, [FromBrake(Axis(0), DELIVERED), FromAccel(Axis(INVALID_OUT), DELIVERED)]);
      IsPassing(s) && s.accelValue == INVALID_OUT && s.log == []
  {
    var brake, most := FromBrake(Axis(0), DELIVERED), FromAccel(Axis(INVALID_OUT), DELIVERED);
    FourInputs(c, INITIAL, brake, most, most, most);
  }

  /** Lost as the sample that clears an error: the throttle stays 0. */
  lemma MaximumIsLostAfterError(c: Config)
    ensures
      var s := AfterInputs(c, INITIAL, [
        FromBrake(Axis(0), DELIVERED), FromAccel(Axis(5), DELIVERED),
        FromAccel(Error(ERROR_IO, true), DELIVERED), FromAccel(Axis(INVALID_OUT), DELIVERED)]);
      IsPassing(s) && s.error == ERROR_NONE && s.accelValue == INVALID_OUT && LastAxis(s.log) == Some(0)
  {
    var brake, five := FromBrake(Axis(0), DELIVERED), FromAccel(Axis(5), DELIVERED);
    var bad, most := FromAccel(Error(ERROR_IO, true), DELIVERED), FromAccel(Axis(INVALID_OUT), DELIVERED);
    FourInputs(c, INITIAL, brake, five, bad, most);
    var s := AfterInputs(c, INITIAL, [brake, five, bad]);
    assert s.log == [Axis(5), Axis(0), Error(ERROR_IO, true)];
    assert AfterInput(c, s, most).log == s.log + [Error(ERROR_IO, false)];
    LogGrows([Axis(5)], Axis(0));
    LogGrows([Axis(5)] + [Axis(0)], Error(ERROR_IO, true));
    assert s.log == [Axis(5)] + [Axis(0)] + [Error(ERROR_IO, true)];
    LogGrows(s.log, Error(ERROR_IO, false));
  }

  /** Passed on after any other value. */
  lemma MaximumIsPassedOnAfterValue(c: Config)
    ensures
      var s := AfterInputs(c, INITIAL, [
        FromBrake(Axis(0), DELIVERED), FromAccel(Axis(5), DELIVERED), FromAccel(Axis(INVALID_OUT), DELIVERED)]);
      LastAxis(s.log) == Some(INVALID_OUT)
  {
    var brake, five := FromBrake(Axis(0), DELIVERED), FromAccel(Axis(5), DELIVERED);
    var most := FromAccel(Axis(INVALID_OUT), DELIVERED);
    FourInputs(c, INITIAL, brake, five, most, most);
    assert AfterInputs(c, INITIAL, [brake, five, most]).log == [Axis(5), Axis(INVALID_OUT)];
  }

  // ----- the plausibility latch

  /** `later` continues `earlier` without reporting any throttle but 0. */
  predicate AddsOnlyZero(earlier: seq<Event>, later: seq<Event>) {
    earlier <= later && forall i :: |earlier| <= i < |later| && later[i].Axis? ==> later[i].value == 0
  }

  /** The sample that is evaluated after input `i`, if one is, lets go of the latch. */
  predicate Releases(c: Config, s: State, i: Input) {
    var t := AfterInput(c, s, i);
    IsEvaluated(t) && t.accelValue <= c.DeactivateThreshold()
  }

  predicate NeverReleases(c: Config, s: State, inputs: seq<Input>) {
    if inputs == [] then true
    else
      var front := inputs[..|inputs| - 1];
      NeverReleases(c, s, front) && !Releases(c, AfterInputs(c, s, front), Last(inputs))
  }

  lemma LatchedUpdate(c: Config, s: State, r: Replies)
    requires s.plausFailed && (IsEvaluated(s) ==> s.accelValue > c.DeactivateThreshold())
    ensures AfterUpdate(c, s, r).plausFailed && AddsOnlyZero(s.log, AfterUpdate(c, s, r).log)
  {
  }

  lemma LatchedStep(c: Config, s: State, i: Input)
    requires s.plausFailed && !Releases(c, s, i)
    ensures AfterInput(c, s, i).plausFailed && AddsOnlyZero(s.log, AfterInput(c, s, i).log)
  {
    InputIsReceived(c, s, i);
    UpdateKeepsPedals(c, Received(s, i), i.replies);
    LatchedUpdate(c, Received(s, i), i.replies);
  }

  /**
   From a trip until a sample at or below the deactivation threshold is evaluated, no throttle but
   0 is reported, whatever happens to the pedals and to the reports in between.
   */
  lemma {:induction false} LatchHolds(c: Config, s: State, inputs: seq<Input>)
    requires s.plausFailed && NeverReleases(c, s, inputs)
    ensures AfterInputs(c, s, inputs).plausFailed && AddsOnlyZero(s.log, AfterInputs(c, s, inputs).log)
  {
    if inputs != [] {
      var front := inputs[..|inputs| - 1];
      LatchHolds(c, s, front);
      LatchedStep(c, AfterInputs(c, s, front), Last(inputs));
    }
  }

  lemma UpdateEvaluates(c: Config, s: State, r: Replies)
    requires IsEvaluated(s)
    ensures AfterUpdate(c, s, r).plausFailed == Evaluated(c, s).plausFailed
    ensures AfterUpdate(c, s, r).plausFailed && Delivered(r) ==> AfterUpdate(c, s, r).error != ERROR_NONE
  {
  }

  /** The check trips at once, and lets go at once. */
  lemma LatchFollowsSample(c: Config, s: State, i: Input)
    requires IsEvaluated(AfterInput(c, s, i))
    ensures
      var t := AfterInput(c, s, i);
      && (!s.plausFailed ==> (t.plausFailed <==> t.accelValue > c.ActivateThreshold() && t.brakeActuated))
      && (s.plausFailed ==> (!t.plausFailed <==> Releases(c, s, i)))
      && (t.plausFailed && Delivered(i.replies) ==> t.error != ERROR_NONE)
  {
    InputIsReceived(c, s, i);
    UpdateKeepsPedals(c, Received(s, i), i.replies);
    UpdateEvaluates(c, Received(s, i), i.replies);
  }

}
