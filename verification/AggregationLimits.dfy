/**
 Exactly when the timed protocol keeps the documented minimum separation, of commits and of
 publications: runs that break it, and invariants of the aggregations that cannot.
 */
module AggregationLimits {
  import opened Types
  import opened Kernel
  import opened Aggregation
  import opened AggregationTiming

  // ----- reaching a state

  predicate AllClearUntil(c: Config, s: State, tick: nat) {
    && (s.work.queued.Some? ==> tick <= s.work.queued.value + c.latency)
    && (s.periodTimer.Some? ==> tick <= s.periodTimer.value)
    && (s.earlyTimer.Some? ==> tick <= s.earlyTimer.value)
    && (s.work.delayed.Some? ==> tick <= s.work.delayed.value)
  }

  /** With nothing due before `tick`, time passes until then. */
  lemma {:induction false} Wait(c: Config, s: State, tick: nat) returns (es: seq<Event>)
    requires s.now <= tick && AllClearUntil(c, s, tick)
    ensures Run(c, s, es, s.(now := tick))
    decreases tick - s.now
  {
    if s.now == tick {
      return [];
    }
    var rest := Wait(c, Next(c, s, Tick), tick);
    es := [Tick] + rest;
    assert es[1..] == rest;
  }

  lemma WaitReaches(c: Config, s: State, tick: nat)
    requires Reachable(c, s) && s.now <= tick && AllClearUntil(c, s, tick)
    ensures Reachable(c, s.(now := tick))
  {
    var es :| Run(c, INITIAL, es, s);
    var fs := Wait(c, s, tick);
    RunsCompose(c, INITIAL, es, s, fs, s.(now := tick));
  }

  /** Updates of several members in one tick, of which none completes the set too early. */
  lemma {:induction false} MarkAll(c: Config, s: State, members: set<nat>) returns (t: State)
    requires Reachable(c, s) && forall i :: i in members ==> IsMonitored(c, i)
    requires members == {} || IsRunning(s.earlyTimer, s.now) || !(c.FullyUpdated() <= s.updated + members)
    ensures Reachable(c, t) && t.now == s.now && t.updated == s.updated + members
    ensures t.periodTimer == s.periodTimer && t.earlyTimer == s.earlyTimer
    ensures t.commits == s.commits && t.publications == s.publications
    ensures t.work.running == s.work.running && t.work.queued in {s.work.queued, Some(s.now)}
    ensures IsRunning(s.periodTimer, s.now) ==> t.work == s.work
    decreases members
  {
    if members == {} {
      return s;
    }
    var i :| i in members;
    Extend(c, s, Update(i));
    var rest := members - {i};
    assert (s.updated + {i}) + rest == s.updated + members;
    t := MarkAll(c, Next(c, s, Update(i)), rest);
  }

  /** From an idle item scheduled for the watermark, and an incomplete set: a late publication. */
  lemma LatePublicationIsReached(c: Config, s: State) returns (t: State)
    requires Reachable(c, s) && (s.updated != {} || c.alwaysPublish) && !IsFull(c, s) && 0 < c.period
    requires s.periodTimer.None? && s.work == IDLE.Schedule(s.now, c.watermark)
    requires s.earlyTimer.Some? ==> s.now + c.watermark < s.earlyTimer.value
    ensures Reachable(c, t) && t.now == s.now + c.watermark && t.commits == s.commits + [t.now]
    ensures t.updated == {} && t.work == IDLE
    ensures t.periodTimer == Some(t.now + c.period) && t.earlyTimer == Some(t.now + c.minSeparation)
  {
    var queued := s;
    if c.watermark != 0 {
      var later := s.(now := s.now + c.watermark);
      WaitReaches(c, s, later.now);
      Extend(c, later, DelayExpiry);
      queued := Next(c, later, DelayExpiry);
    }
    Extend(c, queued, Dequeue);
    var running := Next(c, queued, Dequeue);
    Extend(c, running, Complete);
    t := Next(c, running, Complete);
  }

  // ----- commits

  /** Updates of the member count. */
  predicate IsMonitored(c: Config, i: nat) {
    i < |c.members| && !c.members[i].ignored
  }

  /** Some publication may find its set incomplete. */
  ghost predicate CanBeLate(c: Config) {
    && c.FullyUpdated() != {}
    && (c.alwaysPublish || exists i :: IsMonitored(c, i) && !(c.FullyUpdated() <= {i}))
  }

  /** Two late publications in a row, after updates of a member that does not complete the set. */
  lemma TwoLatePublications(c: Config, i: nat) returns (s: State)
    requires IsMonitored(c, i) && !(c.FullyUpdated() <= {i})
    requires 0 < c.period && c.period + c.watermark < c.minSeparation
    ensures Reachable(c, s) && !CommitsApart(c, s.commits)
  {
    assert Run(c, INITIAL, [], INITIAL);
    Extend(c, INITIAL, Update(i));
    var first := LatePublicationIsReached(c, Next(c, INITIAL, Update(i)));
    Extend(c, first, Update(i));
    var updated := Next(c, first, Update(i));
    WaitReaches(c, updated, first.now + c.period);
    var over := updated.(now := first.now + c.period);
    Extend(c, over, PeriodExpiry);
    s := LatePublicationIsReached(c, Next(c, over, PeriodExpiry));
    assert s.commits[0] == first.now && s.commits[1] == first.now + c.period + c.watermark;
  }

  /** A complete publication, and a late one without any update. */
  lemma LatePublicationOfNothing(c: Config, i: nat) returns (s: State)
    requires IsMonitored(c, i) && c.FullyUpdated() == {i} && c.alwaysPublish
    requires 0 < c.period && c.period + c.watermark < c.minSeparation
    ensures Reachable(c, s) && !CommitsApart(c, s.commits)
  {
    assert i in c.FullyUpdated();
    assert Run(c, INITIAL, [], INITIAL);
    Extend(c, INITIAL, Update(i));
    var full := Next(c, INITIAL, Update(i));
    Extend(c, full, Dequeue);
    var running := Next(c, full, Dequeue);
    Extend(c, running, Complete);
    var idle := Next(c, running, Complete);
    WaitReaches(c, idle, c.period);
    var over := idle.(now := c.period);
    Extend(c, over, PeriodExpiry);
    s := LatePublicationIsReached(c, Next(c, over, PeriodExpiry));
    assert s.commits[0] == 0 && s.commits[1] == c.period + c.watermark;
  }

  lemma LatePublicationsBreakSeparation(c: Config) returns (s: State)
    requires CanBeLate(c) && 0 < c.period && c.period + c.watermark < c.minSeparation
    ensures Reachable(c, s) && !CommitsApart(c, s.commits)
  {
    if i :| IsMonitored(c, i) && !(c.FullyUpdated() <= {i}) {
      s := TwoLatePublications(c, i);
    } else {
      var i :| i in c.FullyUpdated();
      assert IsMonitored(c, i);
      s := LatePublicationOfNothing(c, i);
    }
  }

  /** All an aggregation that cannot be late needs: it only commits once the early timer is over. */
  predicate CommitsWithEarlyTimer(c: Config, s: State) {
    && (forall i :: i in s.updated ==> IsMonitored(c, i))
    && (if s.earlyTimer.Some? then
          s.commits != [] && s.earlyTimer.value == LastCommit(s) + c.minSeparation && s.now <= s.earlyTimer.value
        else Elapsed(s, c.minSeparation))
    && CommitsApart(c, s.commits)
  }

  lemma SetIsComplete(c: Config, s: State)
    requires !CanBeLate(c) && CommitsWithEarlyTimer(c, s) && !GoesDormant(c, s)
    ensures IsFull(c, s)
  {
    if c.FullyUpdated() != {} {
      var i :| i in s.updated;
      assert IsMonitored(c, i);
    }
  }

  lemma UpdateCommitsWithEarlyTimer(c: Config, s: State, idx: nat)
    requires CommitsWithEarlyTimer(c, s) && idx < |c.members|
    ensures CommitsWithEarlyTimer(c, AfterUpdate(c, s, idx))
  {
  }

  lemma StepCommitsWithEarlyTimer(c: Config, s: State, e: Event)
    requires !CanBeLate(c) && CommitsWithEarlyTimer(c, s) && Enabled(c, s, e)
    ensures CommitsWithEarlyTimer(c, Next(c, s, e))
  {
    match e
    case Update(idx) => UpdateCommitsWithEarlyTimer(c, s, idx);
    case Dequeue =>
      if !GoesDormant(c, s) {
        SetIsComplete(c, s);
      }
    case _ =>
  }

  lemma {:induction false} RunCommitsWithEarlyTimer(c: Config, s: State, es: seq<Event>, t: State)
    requires !CanBeLate(c) && CommitsWithEarlyTimer(c, s) && Run(c, s, es, t)
    ensures CommitsWithEarlyTimer(c, t)
    decreases |es|
  {
    if es != [] {
      StepCommitsWithEarlyTimer(c, s, es[0]);
      RunCommitsWithEarlyTimer(c, Next(c, s, es[0]), es[1..], t);
    }
  }

  /**
   Commits are separated in every run exactly if the minimum separation is at most period and
   watermark together, or no publication can be late.
   */
  lemma SeparationCondition(c: Config)
    requires |c.members| < 32 && 0 < c.minSeparation && c.latency < c.period
    ensures (forall s :: Reachable(c, s) ==> CommitsApart(c, s.commits))
            <==> c.minSeparation <= c.period + c.watermark || !CanBeLate(c)
  {
    if c.minSeparation <= c.period + c.watermark {
      forall s | Reachable(c, s)
        ensures CommitsApart(c, s.commits)
      {
        ReachableKeepsInvariant(c, s);
      }
    } else if CanBeLate(c) {
      var s := LatePublicationsBreakSeparation(c);
    } else {
      forall s | Reachable(c, s)
        ensures CommitsApart(c, s.commits)
      {
        var es :| Run(c, INITIAL, es, s);
        RunCommitsWithEarlyTimer(c, INITIAL, es, s);
      }
    }
  }

  // ----- publications

  /** From a complete set at tick 0 to a publication `d` ticks later. */
  lemma FirstPublication(c: Config, s: State, d: nat) returns (t: State)
    requires c.Valid() && 0 < d <= c.latency && d < c.minSeparation && Reachable(c, s)
    requires s.now == 0 && IsFull(c, s) && s.updated != {} && s.publications == []
    requires s.work == Work(None, Some(0), false)
    requires s.periodTimer == Some(c.period) && s.earlyTimer == Some(c.minSeparation)
    ensures Reachable(c, t) && t.now == d && t.updated == {} && t.work == IDLE
    ensures t.periodTimer == s.periodTimer && t.earlyTimer == s.earlyTimer
    ensures |t.publications| == 1 && t.publications[0].at == d
  {
    WaitReaches(c, s, d);
    var waited := s.(now := d);
    Extend(c, waited, Dequeue);
    var running := Next(c, waited, Dequeue);
    Extend(c, running, Complete);
    t := Next(c, running, Complete);
  }

  /** A complete set that waits for the early timer is published in the tick it expires. */
  lemma SecondPublication(c: Config, s: State) returns (t: State)
    requires c.Valid() && Reachable(c, s)
    requires s.now < c.minSeparation && s.now < c.period
    requires IsFull(c, s) && s.updated != {} && s.work == IDLE
    requires s.periodTimer == Some(c.period) && s.earlyTimer == Some(c.minSeparation)
    ensures Reachable(c, t) && |t.publications| == |s.publications| + 1
    ensures t.publications[..|s.publications|] == s.publications && Last(t.publications).at == c.minSeparation
  {
    var waiting := s;
    if c.period < c.minSeparation {
      WaitReaches(c, s, c.period);
      var over := s.(now := c.period);
      Extend(c, over, PeriodExpiry);
      waiting := Next(c, over, PeriodExpiry);
    }
    WaitReaches(c, waiting, c.minSeparation);
    var early := waiting.(now := c.minSeparation);
    Extend(c, early, EarlyExpiry);
    var queued := Next(c, early, EarlyExpiry);
    Extend(c, queued, Dequeue);
    t := Next(c, queued, Dequeue);
  }

  /** A publication that waits `d` ticks for the queue comes that much closer to the next. */
  lemma QueueingBreaksPublicationSeparation(c: Config, i: nat, d: nat) returns (s: State)
    requires c.Valid() && 0 < d <= c.latency && d < c.minSeparation
    requires IsMonitored(c, i) && (i in c.FullyUpdated() || c.FullyUpdated() == {})
    ensures Reachable(c, s) && |s.publications| == 2
    ensures s.publications[1].at == s.publications[0].at + c.minSeparation - d
  {
    var others := c.FullyUpdated() - {i};
    assert Run(c, INITIAL, [], INITIAL);
    var marked := MarkAll(c, INITIAL, others);
    Extend(c, marked, Update(i));
    var first := FirstPublication(c, Next(c, marked, Update(i)), d);
    var again := MarkAll(c, first, others);
    Extend(c, again, Update(i));
    s := SecondPublication(c, Next(c, again, Update(i)));
    assert s.publications[0] == s.publications[..1][0];
  }

  lemma WithoutMonitoredMembersNothingHappens(c: Config, s: State)
    requires (forall i: nat :: !IsMonitored(c, i)) && Reachable(c, s)
    ensures s == INITIAL.(now := s.now)
  {
    var es :| Run(c, INITIAL, es, s);
    forall e | e in es
      ensures Silent(c, e)
    {
      if e.Update? {
        assert !IsMonitored(c, e.idx);
      }
    }
    DormantStaysSilent(c, INITIAL, es, s);
  }

  /**
   The documented separation of publications, rather than of commits, holds in every run exactly
   when publishing never waits for the work queue, or it only asks for different ticks, or there is
   nothing to publish.
   */
  lemma PublicationSeparationCondition(c: Config)
    requires c.Valid()
    ensures
      (forall s, i | Reachable(c, s) && 0 < i < |s.publications| ::
         s.publications[i - 1].at + c.minSeparation <= s.publications[i].at)
      <==> c.latency == 0 || c.minSeparation == 1 || forall i: nat :: !IsMonitored(c, i)
  {
    if forall i: nat :: !IsMonitored(c, i) {
      forall s | Reachable(c, s)
        ensures s.publications == []
      {
        WithoutMonitoredMembersNothingHappens(c, s);
      }
    } else if c.latency == 0 || c.minSeparation == 1 {
      forall s, i | Reachable(c, s) && 0 < i < |s.publications|
        ensures s.publications[i - 1].at + c.minSeparation <= s.publications[i].at
      {
        PublicationsAreSeparated(c, s, i);
      }
    } else {
      var i: nat :| IsMonitored(c, i);
      if c.FullyUpdated() != {} {
        i :| i in c.FullyUpdated();
      }
      var s := QueueingBreaksPublicationSeparation(c, i, 1);
      assert Reachable(c, s) && 0 < 1 < |s.publications|;
    }
  }
}
