/**
 Data aggregation (subsys/msg/aggregation.c): members are updated one by one, and one work
 item publishes them together when all required members are updated, or late.

 `State` is the state of one aggregation at one tick together with what an observer has seen
 so far; the functions on it say what each entry point does under the lock of the
 aggregation. Class `Agg` is the aggregation itself, whose methods are proved to do exactly
 that.
 */
module Aggregation {
  import opened Types
  import opened Kernel

  datatype MemberFlags = MemberFlags(ignored: bool, optional: bool)

  /** Fixed at definition; `latency` bounds how long a queued work item waits for its thread. */
  datatype Config = Config(
    members: seq<MemberFlags>,
    period: nat,
    minSeparation: nat,
    watermark: nat,
    alwaysPublish: bool,
    latency: nat)
  {
    ghost predicate Valid() {
      && |members| < 32
      && 0 < period
      && 0 < minSeparation <= period + watermark
      && (minSeparation <= period || latency < period)
    }

    /** The members a publication waits for. */
    function FullyUpdated(): set<nat> {
      set i: nat | i < |members| && !members[i].ignored && !members[i].optional
    }
  }

  /** The first update that no publication has picked up yet, and when one has to be queued. */
  datatype Unpublished = Unpublished(since: nat, due: nat)

  datatype Publication = Publication(at: nat, commit: nat, members: set<nat>, first: Option<Unpublished>)

  /**
   `commits` are the ticks at which both timers were restarted. `commits`, `publications` and
   `unpublished` only observe.
   */
  datatype State = State(
    now: nat,
    updated: set<nat>,
    periodTimer: Option<nat>,
    earlyTimer: Option<nat>,
    work: Work,
    commits: seq<nat>,
    publications: seq<Publication>,
    unpublished: Option<Unpublished>)

  const INITIAL := State(0, {}, None, None, IDLE, [], [], None)

  predicate IsFull(c: Config, s: State) {
    c.FullyUpdated() <= s.updated
  }

  function Commit(c: Config, s: State): State {
    s.(periodTimer := Some(s.now + c.period),
       earlyTimer := Some(s.now + c.minSeparation),
       commits := s.commits + [s.now])
  }

  /** Restart both timers and publish as soon as the work queue gets to it. */
  function CommitNow(c: Config, s: State): State {
    Commit(c, s).(work := s.work.RescheduleNow(s.now))
  }

  function Observe(c: Config, s: State): Option<Unpublished> {
    if s.unpublished.Some? then s.unpublished
    else if IsRunning(s.periodTimer, s.now) then
      Some(Unpublished(s.now, s.periodTimer.value + c.watermark))
    else
      Some(Unpublished(s.now, s.now + c.watermark))
  }

  /** Mark a member as updated, and cold start the aggregation if nothing is pending. */
  function MarkAndStart(c: Config, s: State, idx: nat): State {
    var marked := s.(updated := s.updated + {idx}, unpublished := Observe(c, s));
    if !IsRunning(s.periodTimer, s.now) && !s.work.IsPending() then
      marked.(work := s.work.Schedule(s.now, c.watermark))
    else
      marked
  }

  function AfterUpdate(c: Config, s: State, idx: nat): State
    requires idx < |c.members|
  {
    if c.members[idx].ignored then s
    else
      var marked := MarkAndStart(c, s, idx);
      if !IsRunning(s.earlyTimer, s.now) && IsFull(c, marked) then CommitNow(c, marked) else marked
  }

  function AfterPeriodTimer(c: Config, s: State): State {
    s.(periodTimer := None, work := s.work.Schedule(s.now, c.watermark))
  }

  function AfterEarlyTimer(c: Config, s: State): State {
    var expired := s.(earlyTimer := None);
    if IsFull(c, s) then CommitNow(c, expired) else expired
  }

  predicate GoesDormant(c: Config, s: State) {
    !c.alwaysPublish && s.updated == {}
  }

  function LastCommit(s: State): nat {
    if s.commits == [] then 0 else Last(s.commits)
  }

  /** The locked section of the work callback. */
  function LockedSection(c: Config, s: State): State {
    if GoesDormant(c, s) then s
    else
      var timed := if IsFull(c, s) then s else Commit(c, s);
      timed.(
        updated := {},
        unpublished := None,
        publications := s.publications + [Publication(s.now, LastCommit(timed), s.updated, s.unpublished)])
  }

  /**
   The work item is taken off the queue and runs its locked section; it keeps running, to
   publish, unless the aggregation goes dormant.
   */
  function AfterWork(c: Config, s: State): State {
    LockedSection(c, s.(work := s.work.(queued := None, running := !GoesDormant(c, s))))
  }

  // ----- which members are waited for

  /** Every member without a flag, other than `idx`, is marked. */
  predicate OthersAreMarked(c: Config, s: State, idx: nat) {
    forall j: nat :: j < |c.members| && !c.members[j].ignored && !c.members[j].optional ==> j == idx || j in s.updated
  }

  /** Some member without a flag is not marked. */
  predicate SomeIsMissing(c: Config, s: State) {
    exists j: nat :: j < |c.members| && !c.members[j].ignored && !c.members[j].optional && j !in s.updated
  }

  /**
   An update marks its member and no other, and commits exactly if the member is not ignored, no
   separation is left to wait for, and every member without a flag has been updated by then.
   */
  lemma UpdateCommitsExactly(c: Config, s: State, idx: nat)
    requires idx < |c.members|
    ensures
      var t := AfterUpdate(c, s, idx);
      var isRunning := s.earlyTimer.Some? && s.now < s.earlyTimer.value;
      && t.updated == (if c.members[idx].ignored then s.updated else s.updated + {idx})
      && t.publications == s.publications
      && (t.commits != s.commits <==> !c.members[idx].ignored && !isRunning && OthersAreMarked(c, s, idx))
      && (t.commits != s.commits ==>
            && t.commits == s.commits + [s.now]
            && t.periodTimer == Some(s.now + c.period) && t.earlyTimer == Some(s.now + c.minSeparation)
            && t.work.delayed.None? && t.work.queued.Some?)
  {
    var marked := MarkAndStart(c, s, idx);
    assert marked.updated == s.updated + {idx};
    RequiredMembers(c, marked);
    assert OthersAreMarked(c, s, idx) <==> !SomeIsMissing(c, marked);
  }

  lemma RequiredMembers(c: Config, s: State)
    ensures IsFull(c, s) <==> !SomeIsMissing(c, s)
  {
    if !SomeIsMissing(c, s) {
      forall j | j in c.FullyUpdated()
        ensures j in s.updated
      {
      }
    } else {
      var j: nat :| j < |c.members| && !c.members[j].ignored && !c.members[j].optional && j !in s.updated;
      assert j in c.FullyUpdated();
    }
  }

  /** The end of the separation commits exactly if no member without a flag is missing. */
  lemma EarlyTimerCommitsExactly(c: Config, s: State)
    ensures
      var t := AfterEarlyTimer(c, s);
      && t.updated == s.updated && t.publications == s.publications
      && (t.commits != s.commits <==> !SomeIsMissing(c, s))
      && (t.commits != s.commits ==>
            && t.commits == s.commits + [s.now]
            && t.periodTimer == Some(s.now + c.period) && t.earlyTimer == Some(s.now + c.minSeparation)
            && t.work.delayed.None? && t.work.queued.Some?)
  {
    RequiredMembers(c, s);
  }

  /**
   The work callback publishes exactly if something is marked or it always publishes; it then picks
   up all marks, and commits exactly if a member without a flag is missing.
   */
  lemma WorkPublishesExactly(c: Config, s: State)
    ensures
      var t := LockedSection(c, s);
      && (t.publications != s.publications <==> c.alwaysPublish || s.updated != {})
      && (t.publications == s.publications ==> t == s)
      && (t.publications != s.publications ==>
            && |t.publications| == |s.publications| + 1 && Last(t.publications).members == s.updated
            && Last(t.publications).at == s.now && t.updated == {} && t.work == s.work
            && (t.commits != s.commits <==> SomeIsMissing(c, s))
            && (t.commits != s.commits ==>
                  && t.commits == s.commits + [s.now]
                  && t.periodTimer == Some(s.now + c.period) && t.earlyTimer == Some(s.now + c.minSeparation)))
  {
    RequiredMembers(c, s);
  }

  class Agg {
    const config: Config
    const periodTimer: Timer
    const earlyTimer: Timer
    const work: DelayableWork
    var updated: set<nat>

    ghost var commits: seq<nat>
    ghost var publications: seq<Publication>
    ghost var unpublished: Option<Unpublished>

    ghost const Repr: set<object> := {this, periodTimer, earlyTimer, work}

    ghost predicate Valid() {
      periodTimer != earlyTimer
    }

    ghost function StateAt(now: nat): State
      reads Repr
    {
      State(now, updated, periodTimer.deadline, earlyTimer.deadline, work.flags, commits, publications, unpublished)
    }

    constructor (config: Config)
      ensures Valid() && fresh(Repr) && this.config == config
      ensures StateAt(0) == INITIAL
    {
      this.config := config;
      periodTimer := new Timer();
      earlyTimer := new Timer();
      work := new DelayableWork();
      updated := {};
      commits, publications, unpublished := [], [], None;
    }

    /** Restart both timers and publish now; returns whether the previous publication is not done. */
    method PublishNow(now: nat) returns (overrun: bool)
      requires Valid()
      modifies Repr
      ensures StateAt(now) == CommitNow(config, old(StateAt(now)))
      ensures overrun == (old(work.flags.queued).Some? || old(work.flags.running))
    {
      periodTimer.Start(now, config.period);
      earlyTimer.Start(now, config.minSeparation);
      commits := commits + [now];
      var ret := work.RescheduleForQueueNow(now);
      overrun := ret == 0 || ret == 2;
    }

    method Update(now: nat, idx: nat)
      requires Valid() && idx < |config.members|
      modifies Repr
      ensures StateAt(now) == AfterUpdate(config, old(StateAt(now)), idx)
    {
      if config.members[idx].ignored {
        return;
      }

      unpublished := Observe(config, StateAt(now));
      updated := updated + {idx};

      // Nothing is going to publish this update: schedule that.
      if periodTimer.RemainingTicks(now) == 0 && !work.IsPending() {
        work.ScheduleForQueue(now, config.watermark);
      }

      // The set is complete and no separation is left to wait for.
      if earlyTimer.RemainingTicks(now) == 0 && config.FullyUpdated() <= updated {
        var _ := PublishNow(now);
      }
    }

    /** Runs when the period timer expires: the kernel has already disarmed it. */
    method PeriodTimerCallback(now: nat)
      requires Valid() && periodTimer.deadline == None
      modifies Repr
      ensures StateAt(now) == AfterPeriodTimer(config, old(StateAt(now)))
    {
      work.ScheduleForQueue(now, config.watermark);
    }

    /** Runs when the early timer expires: the kernel has already disarmed it. */
    method EarlyTimerCallback(now: nat)
      requires Valid() && earlyTimer.deadline == None
      modifies Repr
      ensures StateAt(now) == AfterEarlyTimer(config, old(StateAt(now)))
    {
      if config.FullyUpdated() <= updated {
        var _ := PublishNow(now);
      }
    }

    /**
     The locked section of the work callback; the kernel has already cleared Queued and set
     Running. Returns whether the publish function is called next.
     */
    method WorkCallback(now: nat) returns (publish: bool)
      requires Valid()
      modifies Repr
      ensures publish == !GoesDormant(config, old(StateAt(now)))
      ensures StateAt(now) == LockedSection(config, old(StateAt(now)))
    {
      if !config.alwaysPublish && updated == {} {
        // Nothing to publish: go dormant.
        return false;
      } else if !(config.FullyUpdated() <= updated) {
        // An incomplete set: the timers restart from now.
        periodTimer.Start(now, config.period);
        earlyTimer.Start(now, config.minSeparation);
        commits := commits + [now];
      }

      publications := publications + [Publication(now, LastCommit(StateAt(now)), updated, unpublished)];
      unpublished := None;
      updated := {};
      return true;
    }
  }
}
