/**
 The thresholds of the plausibility check (drivers/input/accel/accel.c) against the pedal travel they
 stand for: the share of the way from the minimum to the maximum.
 */
module AccelTravel {
  import opened Types
  import opened CInteger
  import opened InputEvents
  import opened Accel
  import opened AccelInputs

  /** Value `v` is beyond that percentage of the travel, in exact arithmetic. */
  predicate IsBeyond(c: Config, v: int, percent: int) {
    100 * (v - c.min) > percent * c.Range()
  }

  /**
   The check as the rule has it, from the events alone: while both pedals are good, it fails exactly
   beyond 25 percent of the travel with the brake on, and holds until within 5 percent of it.
   */
  function ShouldFail(c: Config, inputs: seq<Input>): bool {
    if inputs == [] then false
    else
      var before := ShouldFail(c, inputs[..|inputs| - 1]);
      if !BothAreGood(inputs) || LastAccel(inputs).None? then before
      else if before then IsBeyond(c, LastAccel(inputs).value, 5)
      else IsBeyond(c, LastAccel(inputs).value, 25) && BrakeIsOn(inputs)
  }

  /** The device does so in every run. */
  ghost predicate AlwaysMeasuresTravel(c: Config) {
    forall inputs :: AfterInputs(c, INITIAL, inputs).plausFailed == ShouldFail(c, inputs)
  }

  /**
   With the range the right way around, the minimum must be 0. With a maximum below the minimum, the
   threshold is rounded up instead of down, which needs a range without rounding, or makes up for a
   minimum of 1.
   */
  predicate FitsThresholds(c: Config) {
    if c.min <= c.max then c.min == 0
    else (c.min == 0 && c.Range() % 20 == 0) || (c.min == 1 && c.Range() % 4 != 0)
  }

  /** The largest value that is not beyond a percentage of the travel. */
  function Limit(c: Config, percent: int): int {
    c.min + percent * c.Range() / 100
  }

  lemma LimitIsExact(c: Config, v: int, percent: int)
    ensures IsBeyond(c, v, percent) <==> v > Limit(c, percent)
  {
  }

  /** A negative threshold is rounded up, which makes it larger by one unless it is exact. */
  lemma ThresholdsRound(c: Config)
    ensures c.ActivateThreshold() ==
            25 * c.Range() / 100 + if c.Range() < 0 && c.Range() % 4 != 0 then 1 else 0
    ensures c.DeactivateThreshold() ==
            5 * c.Range() / 100 + if c.Range() < 0 && c.Range() % 20 != 0 then 1 else 0
  {
    Quarter(c.Range());
    Twentieth(c.Range());
  }

  lemma Quarter(r: int)
    ensures CDiv(r * 25, 100) == 25 * r / 100 + if r < 0 && r % 4 != 0 then 1 else 0
  {
    if r < 0 {
      assert CDiv(r * 25, 100) == -((-(r * 25)) / 100);
    }
  }

  lemma Twentieth(r: int)
    ensures CDiv(r * 5, 100) == 5 * r / 100 + if r < 0 && r % 20 != 0 then 1 else 0
  {
    if r < 0 {
      assert CDiv(r * 5, 100) == -((-(r * 5)) / 100);
    }
  }

  lemma FourDividesTwenty(r: int)
    ensures r % 20 == 0 ==> r % 4 == 0
  {
  }

  lemma ThresholdsAreLimits(c: Config)
    ensures FitsThresholds(c)
            <==> c.ActivateThreshold() == Limit(c, 25) && c.DeactivateThreshold() == Limit(c, 5)
  {
    ThresholdsRound(c);
    FourDividesTwenty(c.Range());
    if c.Range() >= 0 {
      assert FitsThresholds(c) <==> c.min == 0;
    } else {
      assert FitsThresholds(c) <==>
             c.min == (if c.Range() % 4 != 0 then 1 else 0) == (if c.Range() % 20 != 0 then 1 else 0);
    }
  }

  const BRAKE := FromBrake(Axis(1), DELIVERED)

  function Pedal(v: int): Input {
    FromAccel(Axis(v), DELIVERED)
  }

  lemma InputsOf(v: int, w: int)
    ensures BothAreGood([BRAKE, Pedal(v)]) && BothAreGood([BRAKE, Pedal(v), Pedal(w)]) && !BothAreGood([BRAKE])
    ensures LastAccel([BRAKE, Pedal(v)]) == Some(v) && LastAccel([BRAKE, Pedal(v), Pedal(w)]) == Some(w)
    ensures BrakeIsOn([BRAKE, Pedal(v)]) && BrakeIsOn([BRAKE, Pedal(v), Pedal(w)])
    ensures [BRAKE, Pedal(v), Pedal(w)][..2] == [BRAKE, Pedal(v)] && [BRAKE, Pedal(v)][..1] == [BRAKE]
    ensures [BRAKE][..0] == []
  {
    assert [BRAKE][..0] == [];
    assert AccelIsGood([BRAKE]) == AccelIsGood([]) == None;
    assert [BRAKE, Pedal(v)][..1] == [BRAKE];
    assert [BRAKE, Pedal(v), Pedal(w)][..2] == [BRAKE, Pedal(v)];
  }

  /** With the brake on, the first value of the pedal. */
  lemma FirstValue(c: Config, v: int)
    ensures AfterInputs(c, INITIAL, [BRAKE, Pedal(v)]).plausFailed <==> v > c.ActivateThreshold()
    ensures ShouldFail(c, [BRAKE, Pedal(v)]) <==> v > Limit(c, 25)
  {
    InputsOf(v, v);
    assert !HasFailed(c, []) && !HasFailed(c, [BRAKE]);
    assert !ShouldFail(c, []) && !ShouldFail(c, [BRAKE]);
    CheckFollowsInputs(c, [BRAKE, Pedal(v)]);
    LimitIsExact(c, v, 25);
  }

  /** The value after one that trips the check. */
  lemma SecondValue(c: Config, trip: int, v: int)
    requires trip > c.ActivateThreshold()
    ensures AfterInputs(c, INITIAL, [BRAKE, Pedal(trip)]).plausFailed
    ensures AfterInputs(c, INITIAL, [BRAKE, Pedal(trip), Pedal(v)]).plausFailed <==> v > c.DeactivateThreshold()
    ensures trip > Limit(c, 25) ==> (ShouldFail(c, [BRAKE, Pedal(trip), Pedal(v)]) <==> v > Limit(c, 5))
  {
    InputsOf(trip, v);
    FirstValue(c, trip);
    CheckFollowsInputs(c, [BRAKE, Pedal(trip)]);
    CheckFollowsInputs(c, [BRAKE, Pedal(trip), Pedal(v)]);
    LimitIsExact(c, v, 5);
  }

  /** Where a threshold is off the limit, one run of the device shows it. */
  lemma WrongThresholdShows(c: Config)
    requires !FitsThresholds(c)
    ensures !AlwaysMeasuresTravel(c)
  {
    ThresholdsAreLimits(c);
    if c.ActivateThreshold() != Limit(c, 25) {
      var v := Min(c.ActivateThreshold(), Limit(c, 25)) + 1;
      FirstValue(c, v);
      assert AfterInputs(c, INITIAL, [BRAKE, Pedal(v)]).plausFailed != ShouldFail(c, [BRAKE, Pedal(v)]);
    } else {
      var trip, v := c.ActivateThreshold() + 1, Min(c.DeactivateThreshold(), Limit(c, 5)) + 1;
      SecondValue(c, trip, v);
      var run := [BRAKE, Pedal(trip), Pedal(v)];
      assert AfterInputs(c, INITIAL, run).plausFailed != ShouldFail(c, run);
    }
  }

  lemma {:induction false} ExactThresholdsMeasure(c: Config, inputs: seq<Input>)
    requires FitsThresholds(c)
    ensures HasFailed(c, inputs) == ShouldFail(c, inputs)
  {
    if inputs != [] {
      ThresholdsAreLimits(c);
      ExactThresholdsMeasure(c, inputs[..|inputs| - 1]);
      if LastAccel(inputs).Some? {
        LimitIsExact(c, LastAccel(inputs).value, 25);
        LimitIsExact(c, LastAccel(inputs).value, 5);
      }
    }
  }

  /**
   The check measures the travel in every run exactly if the minimum is 0, for a range the right way
   around.
   */
  lemma TravelCondition(c: Config)
    ensures AlwaysMeasuresTravel(c) <==> FitsThresholds(c)
  {
    if FitsThresholds(c) {
      forall inputs: seq<Input>
        ensures AfterInputs(c, INITIAL, inputs).plausFailed == ShouldFail(c, inputs)
      {
        CheckFollowsInputs(c, inputs);
        ExactThresholdsMeasure(c, inputs);
      }
    } else {
      WrongThresholdShows(c);
    }
  }

  /** With a positive minimum the check trips too early: here at 20 percent of the travel. */
  lemma TripsEarly()
    ensures
      var c := Config(10, 110);
      && AfterInputs(c, INITIAL, [BRAKE, Pedal(30)]).plausFailed
      && 100 * (30 - c.min) == 20 * c.Range()
  {
    FirstValue(Config(10, 110), 30);
  }

  /** And it lets go too late: not even at 2 percent. */
  lemma ReleasesLate()
    ensures
      var c := Config(10, 110);
      && AfterInputs(c, INITIAL, [BRAKE, Pedal(26), Pedal(12)]).plausFailed
      && 100 * (12 - c.min) == 2 * c.Range()
  {
    assert Config(10, 110).ActivateThreshold() == 25;
    SecondValue(Config(10, 110), 26, 12);
  }

  /** With a negative minimum it trips too late: here not even at 30 percent. */
  lemma TripsLate()
    ensures
      var c := Config(-10, 90);
      && !AfterInputs(c, INITIAL, [BRAKE, Pedal(20)]).plausFailed
      && 100 * (20 - c.min) == 30 * c.Range()
  {
    FirstValue(Config(-10, 90), 20);
  }

  /** And it lets go too early: at 15 percent already. */
  lemma ReleasesEarly()
    ensures
      var c := Config(-10, 90);
      && AfterInputs(c, INITIAL, [BRAKE, Pedal(26)]).plausFailed
      && !AfterInputs(c, INITIAL, [BRAKE, Pedal(26), Pedal(5)]).plausFailed
      && 100 * (5 - c.min) == 15 * c.Range()
  {
    assert Config(-10, 90).ActivateThreshold() == 25;
    SecondValue(Config(-10, 90), 26, 5);
  }
}
