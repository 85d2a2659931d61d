/**
 What the plausibility device makes of a run, in terms of the events it received: the last values of
 both pedals, whether they are good, and which error they lead to.
 */
module AccelInputs {
  import opened Types
  import opened CInteger
  import opened InputEvents
  import opened Accel

  // ----- the events of a run

  /** The last value of the accelerator, if there was one. */
  function LastAccel(inputs: seq<Input>): Option<int> {
    if inputs == [] then None
    else
      match Last(inputs)
      case FromAccel(Axis(v), _) => Some(v)
      case _ => LastAccel(inputs[..|inputs| - 1])
  }

  /** The last value of the brake, if there was one. */
  function LastBrake(inputs: seq<Input>): Option<int> {
    if inputs == [] then None
    else
      match Last(inputs)
      case FromBrake(Axis(v), _) => Some(v)
      case _ => LastBrake(inputs[..|inputs| - 1])
  }

  /** Whether the accelerator reported a value last (true) or an error (false); code 0 says neither. */
  function AccelIsGood(inputs: seq<Input>): Option<bool> {
    if inputs == [] then None
    else
      match Last(inputs)
      case FromAccel(Axis(_), _) => Some(true)
      case FromAccel(Error(code, _), _) =>
        if code != 0 then Some(false) else AccelIsGood(inputs[..|inputs| - 1])
      case FromBrake(_, _) => AccelIsGood(inputs[..|inputs| - 1])
  }

  function BrakeIsGood(inputs: seq<Input>): Option<bool> {
    if inputs == [] then None
    else
      match Last(inputs)
      case FromBrake(Axis(_), _) => Some(true)
      case FromBrake(Error(code, _), _) =>
        if code != 0 then Some(false) else BrakeIsGood(inputs[..|inputs| - 1])
      case FromAccel(_, _) => BrakeIsGood(inputs[..|inputs| - 1])
  }

  predicate BrakeIsOn(inputs: seq<Input>) {
    LastBrake(inputs).Some? && LastBrake(inputs).value > 0
  }

  /** Both pedals have reported, and neither is in error. */
  predicate BothAreGood(inputs: seq<Input>) {
    AccelIsGood(inputs) == Some(true) && BrakeIsGood(inputs) == Some(true)
  }

  /** The state a pedal should be in. */
  function StateFor(isGood: Option<bool>): PedalState {
    match isGood
    case None => Init
    case Some(good) => if good then Normal else Err
  }

  /** In every run, whatever reports fail, the device holds what the last events of the pedals said. */
  lemma {:induction false} InputsAreRemembered(c: Config, inputs: seq<Input>)
    ensures
      var s := AfterInputs(c, INITIAL, inputs);
      && s.accelState == StateFor(AccelIsGood(inputs)) && s.brakeState == StateFor(BrakeIsGood(inputs))
      && s.accelValue == (if LastAccel(inputs).Some? then LastAccel(inputs).value else 0)
      && (s.brakeActuated <==> BrakeIsOn(inputs))
  {
    if inputs != [] {
      var front := inputs[..|inputs| - 1];
      InputsAreRemembered(c, front);
      InputMoves(c, AfterInputs(c, INITIAL, front), Last(inputs));
    }
  }

  lemma InputMoves(c: Config, s: State, i: Input)
    ensures
      var t := AfterInput(c, s, i);
      && t.accelState == (match i
                          case FromAccel(Axis(_), _) => Normal
                          case FromAccel(Error(code, _), _) => if code != 0 then Err else s.accelState
                          case FromBrake(_, _) => s.accelState)
      && t.brakeState == (match i
                          case FromBrake(Axis(_), _) => Normal
                          case FromBrake(Error(code, _), _) => if code != 0 then Err else s.brakeState
                          case FromAccel(_, _) => s.brakeState)
      && t.accelValue == (match i case FromAccel(Axis(v), _) => v case _ => s.accelValue)
      && t.brakeActuated == (match i case FromBrake(Axis(v), _) => v > 0 case _ => s.brakeActuated)
  {
    InputIsReceived(c, s, i);
    UpdateKeepsPedals(c, Received(s, i), i.replies);
  }

  lemma GoodMeansEvaluated(c: Config, inputs: seq<Input>)
    ensures IsEvaluated(AfterInputs(c, INITIAL, inputs)) <==> BothAreGood(inputs)
    ensures BothAreGood(inputs) ==>
              LastAccel(inputs).Some? && LastBrake(inputs).Some?
              && AfterInputs(c, INITIAL, inputs).accelValue == LastAccel(inputs).value
  {
    InputsAreRemembered(c, inputs);
    GoodPedalsHaveValues(inputs);
  }

  lemma {:induction false} GoodPedalsHaveValues(inputs: seq<Input>)
    ensures AccelIsGood(inputs) == Some(true) ==> LastAccel(inputs).Some?
    ensures BrakeIsGood(inputs) == Some(true) ==> LastBrake(inputs).Some?
  {
    if inputs != [] {
      GoodPedalsHaveValues(inputs[..|inputs| - 1]);
    }
  }

  // ----- the plausibility check

  /**
   The check as the events alone decide it: while both pedals are good, it fails above 25 percent of
   the range with the brake on, and holds until 5 percent; otherwise it stays as it is.
   */
  function HasFailed(c: Config, inputs: seq<Input>): bool {
    if inputs == [] then false
    else
      var before := HasFailed(c, inputs[..|inputs| - 1]);
      if !BothAreGood(inputs) || LastAccel(inputs).None? then before
      else if before then LastAccel(inputs).value > CDiv((c.max - c.min) * 5, 100)
      else LastAccel(inputs).value > CDiv((c.max - c.min) * 25, 100) && BrakeIsOn(inputs)
  }

  lemma {:induction false} CheckFollowsInputs(c: Config, inputs: seq<Input>)
    ensures AfterInputs(c, INITIAL, inputs).plausFailed == HasFailed(c, inputs)
  {
    if inputs != [] {
      var front := inputs[..|inputs| - 1];
      CheckFollowsInputs(c, front);
      GoodMeansEvaluated(c, inputs);
      InputsAreRemembered(c, inputs);
      CheckStep(c, AfterInputs(c, INITIAL, front), Last(inputs));
    }
  }

  lemma CheckStep(c: Config, s: State, i: Input)
    ensures
      var t := AfterInput(c, s, i);
      t.plausFailed ==
      if !IsEvaluated(t) then s.plausFailed
      else if s.plausFailed then t.accelValue > c.DeactivateThreshold()
      else t.accelValue > c.ActivateThreshold() && t.brakeActuated
  {
    InputIsReceived(c, s, i);
    UpdateKeepsPedals(c, Received(s, i), i.replies);
    if IsEvaluated(AfterInput(c, s, i)) {
      LatchFollowsSample(c, s, i);
    } else {
      UnevaluatedKeepsCheck(c, Received(s, i), i.replies);
    }
  }

  lemma UnevaluatedKeepsCheck(c: Config, s: State, r: Replies)
    requires !IsEvaluated(s)
    ensures AfterUpdate(c, s, r).plausFailed == s.plausFailed
  {
  }

  // ----- the error

  /**
   When the device goes from no error to one, with its reports delivered: throttle 0 and then the
   code, which is that of a pedal in error, or of the check if both are good.
   */
  lemma ErrorCodeIsExact(c: Config, inputs: seq<Input>, i: Input)
    requires AllDelivered(inputs + [i])
    requires AfterInputs(c, INITIAL, inputs).error == ERROR_NONE
    ensures
      var s, t := AfterInputs(c, INITIAL, inputs), AfterInputs(c, INITIAL, inputs + [i]);
      var all := inputs + [i];
      var isReady := AccelIsGood(all).Some? && BrakeIsGood(all).Some?;
      var code := if !BothAreGood(all) then 0x01 else 0x20;
      && (t.error != ERROR_NONE <==> isReady && (!BothAreGood(all) || HasFailed(c, all)))
      && (t.error != ERROR_NONE ==> t.error == code && t.log == s.log + [Axis(0), Error(code, true)])
  {
    var all := inputs + [i];
    assert all[..|inputs|] == inputs && Last(all) == i;
    var s := AfterInputs(c, INITIAL, inputs);
    InputsAreRemembered(c, all);
    CheckFollowsInputs(c, all);
    InputIsReceived(c, s, i);
    UpdateKeepsPedals(c, Received(s, i), i.replies);
    assert Delivered(all[|inputs|].replies);
    RaisedByUpdate(c, Received(s, i), i.replies);
  }

  lemma RaisedByUpdate(c: Config, s: State, r: Replies)
    requires Delivered(r) && s.error == ERROR_NONE
    ensures
      var t := AfterUpdate(c, s, r);
      var isReady := s.accelState != Init && s.brakeState != Init;
      var code := if !IsEvaluated(s) then 0x01 else 0x20;
      && (t.error != ERROR_NONE <==> isReady && (!IsEvaluated(s) || t.plausFailed))
      && (t.error != ERROR_NONE ==> t.error == code && t.log == s.log + [Axis(0), Error(code, true)])
  {
    assert s.log + [Axis(0)] + [Error(ERROR_IO, true)] == s.log + [Axis(0), Error(ERROR_IO, true)];
    assert s.log + [Axis(0)] + [Error(ERROR_PEDAL_PLAUS, true)] == s.log + [Axis(0), Error(ERROR_PEDAL_PLAUS, true)];
  }
}
