/**
 Left alone, an aggregation goes dormant in bounded time, and any update wakes it up again.
 */
module AggregationDormancy {
  import opened Types
  import opened Aggregation
  import opened AggregationTiming
  import opened AggregationLimits

  predicate AllSilent(c: Config, es: seq<Event>) {
    forall e :: e in es ==> Silent(c, e)
  }

  lemma RunReaches(c: Config, s: State, es: seq<Event>, t: State)
    requires Reachable(c, s) && Run(c, s, es, t)
    ensures Reachable(c, t)
  {
    var fs :| Run(c, INITIAL, fs, s);
    RunsCompose(c, INITIAL, fs, s, es, t);
  }

  // ----- nothing armed

  /** With a required member, the early timer never runs without something that queues the work. */
  predicate EarlyIsArmed(s: State) {
    s.earlyTimer.Some? ==> Armed(s)
  }

  lemma StepKeepsEarlyArmed(c: Config, s: State, e: Event)
    requires c.Valid() && c.FullyUpdated() != {}
    requires Invariant(c, s) && EarlyIsArmed(s) && Enabled(c, s, e)
    ensures EarlyIsArmed(Next(c, s, e))
  {
    StepKeepsInvariant(c, s, e);
  }

  lemma {:induction false} RunKeepsEarlyArmed(c: Config, s: State, es: seq<Event>, t: State)
    requires c.Valid() && c.FullyUpdated() != {}
    requires Invariant(c, s) && EarlyIsArmed(s) && Run(c, s, es, t)
    ensures EarlyIsArmed(t)
    decreases |es|
  {
    if es != [] {
      StepKeepsInvariant(c, s, es[0]);
      StepKeepsEarlyArmed(c, s, es[0]);
      RunKeepsEarlyArmed(c, Next(c, s, es[0]), es[1..], t);
    }
  }

  lemma UnarmedIsDormant(c: Config, s: State)
    requires c.Valid() && c.FullyUpdated() != {} && Reachable(c, s)
    requires s.updated == {} && !Armed(s)
    ensures Dormant(s)
  {
    ReachableKeepsInvariant(c, s);
    var es :| Run(c, INITIAL, es, s);
    RunKeepsEarlyArmed(c, INITIAL, es, s);
  }

  // ----- quiet runs

  /** Whatever is armed queues the work by tick `limit`. */
  predicate QueuesBy(c: Config, s: State, limit: nat) {
    && (s.periodTimer.Some? ==> s.periodTimer.value + c.watermark <= limit)
    && (s.work.delayed.Some? ==> s.work.delayed.value <= limit)
    && (s.work.queued.Some? ==> s.work.queued.value <= limit)
  }

  function Round(c: Config): nat {
    c.period + c.watermark + c.latency
  }

  /** What is marked is published by tick `limit`, and what follows that queues the work in time. */
  predicate DrainsBy(c: Config, s: State, limit: nat) {
    if s.updated != {} then s.unpublished.Some? && s.unpublished.value.since + Round(c) <= limit
    else QueuesBy(c, s, limit + c.period + c.watermark)
  }

  lemma EmptyStepKeepsQueueing(c: Config, s: State, e: Event, limit: nat)
    requires c.Valid() && c.FullyUpdated() != {} && !c.alwaysPublish && Invariant(c, s)
    requires Enabled(c, s, e) && Silent(c, e)
    requires s.updated == {} && QueuesBy(c, s, limit)
    ensures Next(c, s, e).updated == {} && QueuesBy(c, Next(c, s, e), limit)
  {
  }

  lemma MarkedStepKeepsDraining(c: Config, s: State, e: Event, limit: nat)
    requires c.Valid() && Invariant(c, s) && Enabled(c, s, e) && Silent(c, e)
    requires s.updated != {} && DrainsBy(c, s, limit)
    ensures DrainsBy(c, Next(c, s, e), limit)
  {
    if e.Dequeue? {
      StepKeepsInvariant(c, s, e);
    }
  }

  lemma {:induction false} QuietRunDrains(c: Config, s: State, es: seq<Event>, t: State, limit: nat)
    requires c.Valid() && c.FullyUpdated() != {} && !c.alwaysPublish && Invariant(c, s)
    requires Run(c, s, es, t) && AllSilent(c, es) && DrainsBy(c, s, limit)
    ensures DrainsBy(c, t, limit)
    decreases |es|
  {
    if es != [] {
      var e := es[0];
      assert e in es && AllSilent(c, es[1..]);
      StepKeepsInvariant(c, s, e);
      if s.updated == {} {
        EmptyStepKeepsQueueing(c, s, e, limit + c.period + c.watermark);
      } else {
        MarkedStepKeepsDraining(c, s, e, limit);
      }
      QuietRunDrains(c, Next(c, s, e), es[1..], t, limit);
    }
  }

  /**
   With a required member, an aggregation that is not updated is dormant after two rounds of period,
   watermark and latency: one to publish what is marked, and one to find nothing more.
   */
  lemma QuietRunGoesDormant(c: Config, s: State, es: seq<Event>, t: State)
    requires c.Valid() && c.FullyUpdated() != {} && !c.alwaysPublish
    requires Reachable(c, s) && Run(c, s, es, t) && AllSilent(c, es)
    requires s.now + 2 * Round(c) < t.now
    ensures Dormant(t)
  {
    ReachableKeepsInvariant(c, s);
    QuietRunDrains(c, s, es, t, s.now + Round(c));
    RunReaches(c, s, es, t);
    ReachableKeepsInvariant(c, t);
    UnarmedIsDormant(c, t);
  }

  // ----- and only then

  /** Time goes on for as long as one likes, without an update. */
  lemma {:induction false} TimeGoesOn(c: Config, s: State, ticks: nat) returns (es: seq<Event>, t: State)
    requires c.Valid() && Invariant(c, s)
    ensures Run(c, s, es, t) && t.now == s.now + ticks && AllSilent(c, es)
    decreases ticks
  {
    if ticks == 0 {
      return [], s;
    }
    var first, u := TimeAlwaysPasses(c, s);
    RunKeepsInvariant(c, s, first, u);
    StepKeepsInvariant(c, u, Tick);
    var rest;
    rest, t := TimeGoesOn(c, Next(c, u, Tick), ticks - 1);
    var more := [Tick] + rest;
    assert more[1..] == rest;
    RunsCompose(c, s, first, u, more, t);
    es := first + more;
  }

  lemma {:induction false} CommitsStay(c: Config, s: State, es: seq<Event>, t: State)
    requires s.commits != [] && Run(c, s, es, t)
    ensures t.commits != []
    decreases |es|
  {
    if es != [] {
      CommitsStay(c, Next(c, s, es[0]), es[1..], t);
    }
  }

  /** Without a required member, one update keeps it going for ever. */
  lemma OneUpdateIsNeverForgotten(c: Config, i: nat, ticks: nat) returns (s: State, es: seq<Event>, t: State)
    requires c.Valid() && c.FullyUpdated() == {} && IsMonitored(c, i)
    ensures Reachable(c, s) && Run(c, s, es, t) && AllSilent(c, es) && t.now == s.now + ticks
    ensures !Dormant(t)
  {
    assert Run(c, INITIAL, [], INITIAL);
    Extend(c, INITIAL, Update(i));
    s := Next(c, INITIAL, Update(i));
    ReachableKeepsInvariant(c, s);
    es, t := TimeGoesOn(c, s, ticks);
    CommitsStay(c, s, es, t);
    RunReaches(c, s, es, t);
    OnlyOptionalMembersNeverGoDormant(c, t);
  }

  /** In every run, two rounds without an update leave the aggregation dormant. */
  ghost predicate AlwaysGoesDormant(c: Config) {
    forall s: State, es: seq<Event>, t: State ::
      Reachable(c, s) && Run(c, s, es, t) && AllSilent(c, es) && s.now + 2 * Round(c) < t.now ==> Dormant(t)
  }

  lemma WithoutMonitoredMembersIsDormant(c: Config, s: State, es: seq<Event>, t: State)
    requires (forall i: nat :: !IsMonitored(c, i)) && Reachable(c, s) && Run(c, s, es, t)
    ensures Dormant(t)
  {
    RunReaches(c, s, es, t);
    WithoutMonitoredMembersNothingHappens(c, t);
  }

  /**
   The documented dormancy: an aggregation that does not always publish goes dormant whenever it is
   left alone exactly if some member is required, or none counts at all.
   */
  lemma DormancyCondition(c: Config)
    requires c.Valid() && !c.alwaysPublish
    ensures AlwaysGoesDormant(c) <==> c.FullyUpdated() != {} || forall i: nat :: !IsMonitored(c, i)
  {
    if c.FullyUpdated() != {} {
      forall s: State, es: seq<Event>, t: State |
        Reachable(c, s) && Run(c, s, es, t) && AllSilent(c, es) && s.now + 2 * Round(c) < t.now
        ensures Dormant(t)
      {
        QuietRunGoesDormant(c, s, es, t);
      }
    } else if i: nat :| IsMonitored(c, i) {
      var s, es, t := OneUpdateIsNeverForgotten(c, i, 2 * Round(c) + 1);
    } else {
      forall s: State, es: seq<Event>, t: State | Reachable(c, s) && Run(c, s, es, t)
        ensures Dormant(t)
      {
        WithoutMonitoredMembersIsDormant(c, s, es, t);
      }
    }
  }

  // ----- cold start

  /** The update at tick `at` is still waiting, or the first publication since holds it in time. */
  predicate ColdStarted(c: Config, earlier: seq<Publication>, idx: nat, at: nat, t: State) {
    if t.publications == earlier then
      idx in t.updated && t.unpublished == Some(Unpublished(at, at + c.watermark))
    else
      && earlier < t.publications
      && idx in t.publications[|earlier|].members
      && at <= t.publications[|earlier|].at <= at + c.watermark + c.latency
  }

  lemma StepKeepsColdStart(c: Config, earlier: seq<Publication>, idx: nat, at: nat, s: State, e: Event)
    requires c.Valid() && Invariant(c, s) && Enabled(c, s, e) && ColdStarted(c, earlier, idx, at, s)
    ensures ColdStarted(c, earlier, idx, at, Next(c, s, e))
  {
  }

  lemma {:induction false} RunKeepsColdStart(
      c: Config, earlier: seq<Publication>, idx: nat, at: nat, s: State, es: seq<Event>, t: State)
    requires c.Valid() && Invariant(c, s) && Run(c, s, es, t) && ColdStarted(c, earlier, idx, at, s)
    ensures ColdStarted(c, earlier, idx, at, t)
    ensures t.publications == earlier ==> t.now <= at + c.watermark + c.latency
    decreases |es|
  {
    if es != [] {
      StepKeepsInvariant(c, s, es[0]);
      StepKeepsColdStart(c, earlier, idx, at, s, es[0]);
      RunKeepsColdStart(c, earlier, idx, at, Next(c, s, es[0]), es[1..], t);
    }
  }

  /**
   In every run from the update that ends dormancy, the next publication holds that member, and
   starts within watermark and latency.
   */
  lemma ColdStartPublishesInTime(c: Config, s: State, idx: nat, es: seq<Event>, t: State)
    requires c.Valid() && Reachable(c, s) && Dormant(s) && IsMonitored(c, idx)
    requires Run(c, AfterUpdate(c, s, idx), es, t)
    ensures s.publications <= t.publications
    ensures
      if t.publications == s.publications then t.now <= s.now + c.watermark + c.latency
      else
        var p := t.publications[|s.publications|];
        idx in p.members && s.now <= p.at <= s.now + c.watermark + c.latency
  {
    UpdateEndsDormancy(c, s, idx);
    Extend(c, s, Update(idx));
    ReachableKeepsInvariant(c, AfterUpdate(c, s, idx));
    RunKeepsColdStart(c, s.publications, idx, s.now, AfterUpdate(c, s, idx), es, t);
  }
}
