/**
 The aggregation as a timed protocol: every interleaving of updates, timer and delay expiries,
 the work queue and the passing of time.
 */
module AggregationTiming {
  import opened Types
  import opened Kernel
  import opened Aggregation

  datatype Event =
    | Tick
    | Update(idx: nat)
    | PeriodExpiry
    | EarlyExpiry
    | DelayExpiry
    | Dequeue
    | Complete

  predicate NothingDue(s: State) {
    && !IsDue(s.periodTimer, s.now)
    && !IsDue(s.earlyTimer, s.now)
    && !IsDue(s.work.delayed, s.now)
  }

  /**
   Time does not pass a deadline that has not been served, nor leave a queued item waiting for
   longer than the latency; the work-queue thread runs one item at a time, and not while an
   expired deadline waits for its interrupt.
   */
  predicate Enabled(c: Config, s: State, e: Event) {
    match e
    case Tick => NothingDue(s) && (s.work.queued.Some? ==> s.now < s.work.queued.value + c.latency)
    case Update(idx) => idx < |c.members|
    case PeriodExpiry => IsDue(s.periodTimer, s.now)
    case EarlyExpiry => IsDue(s.earlyTimer, s.now)
    case DelayExpiry => IsDue(s.work.delayed, s.now)
    case Dequeue => s.work.queued.Some? && !s.work.running && NothingDue(s)
    case Complete => s.work.running
  }

  function Next(c: Config, s: State, e: Event): State
    requires Enabled(c, s, e)
  {
    match e
    case Tick => s.(now := s.now + 1)
    case Update(idx) => AfterUpdate(c, s, idx)
    case PeriodExpiry => AfterPeriodTimer(c, s)
    case EarlyExpiry => AfterEarlyTimer(c, s)
    case DelayExpiry => s.(work := s.work.Expire(s.now))
    case Dequeue => AfterWork(c, s)
    case Complete => s.(work := s.work.(running := false))
  }

  /** `es` leads from `s` to `t`. */
  predicate Run(c: Config, s: State, es: seq<Event>, t: State)
    decreases |es|
  {
    if es == [] then s == t
    else Enabled(c, s, es[0]) && Run(c, Next(c, s, es[0]), es[1..], t)
  }

  ghost predicate Reachable(c: Config, s: State) {
    exists es :: Run(c, INITIAL, es, s)
  }

  // ----- what every step keeps

  /** At least `d` ticks have passed since the last commit, if there was one. */
  predicate Elapsed(s: State, d: nat) {
    s.commits != [] ==> LastCommit(s) + d <= s.now
  }

  predicate Started(s: State) {
    s.commits != [] || s.updated != {} || s.work.IsPending()
  }

  /** The timers run from the last commit: off means that their time is over. */
  predicate TimersFollowCommits(c: Config, s: State) {
    && (if s.periodTimer.Some? then
          s.commits != [] && s.periodTimer.value == LastCommit(s) + c.period && s.now <= s.periodTimer.value
        else Elapsed(s, c.period))
    && (if s.earlyTimer.Some? then
          s.commits != [] && s.earlyTimer.value == LastCommit(s) + c.minSeparation && s.now <= s.earlyTimer.value
        else Elapsed(s, c.minSeparation))
    && (s.commits != [] ==> LastCommit(s) <= s.now)
  }

  /** The delay is only armed when the period is over, for the watermark, and never while queued. */
  predicate DelayIsLate(c: Config, s: State) {
    s.work.delayed.Some? ==>
      && s.work.queued.None?
      && Elapsed(s, c.period)
      && s.now <= s.work.delayed.value <= s.now + c.watermark
      && (s.commits != [] ==> LastCommit(s) + c.period + c.watermark <= s.work.delayed.value)
  }

  /** A queued item comes from a commit of a full set, or is late by period and watermark. */
  predicate QueuedIsFullOrLate(c: Config, s: State) {
    s.work.queued.Some? ==>
      && s.work.queued.value <= s.now <= s.work.queued.value + c.latency
      && (if s.commits != [] && s.work.queued.value <= LastCommit(s) then IsFull(c, s)
          else Elapsed(s, c.period + c.watermark))
  }

  /** A full set waits on the early timer. */
  predicate FullWaits(c: Config, s: State) {
    Started(s) && IsFull(c, s) ==> s.earlyTimer.Some?
  }

  /** Someone will queue the work item. */
  predicate Armed(s: State) {
    s.periodTimer.Some? || s.work.delayed.Some? || s.work.queued.Some?
  }

  predicate StaysArmed(c: Config, s: State) {
    && (s.updated != {} || s.work.running ==> Armed(s))
    && (c.alwaysPublish && Started(s) ==> Armed(s))
  }

  /** An aggregation that always publishes is never late by more than period and watermark. */
  predicate AlwaysOnTime(c: Config, s: State) {
    c.alwaysPublish && s.commits != [] ==>
      && (s.work.delayed.Some? ==> s.work.delayed.value <= LastCommit(s) + c.period + c.watermark)
      && (s.work.queued.Some? ==> s.work.queued.value <= LastCommit(s) + c.period + c.watermark)
  }

  predicate UnpublishedIsDue(c: Config, s: State) {
    && (s.updated != {} <==> s.unpublished.Some?)
    && (s.unpublished.Some? ==>
          var u := s.unpublished.value;
          && u.since <= s.now
          && u.since + c.watermark <= u.due <= u.since + c.period + c.watermark
          && (s.work.queued.Some? ==> s.work.queued.value <= u.due)
          && (s.work.delayed.Some? ==> s.work.delayed.value <= u.due)
          && (s.work.queued.None? && s.work.delayed.None? ==>
                s.periodTimer.Some? && s.periodTimer.value + c.watermark <= u.due))
  }

  /** A publication follows each commit within the latency. */
  predicate CommitIsServed(c: Config, s: State) {
    s.commits != [] && (c.alwaysPublish || c.FullyUpdated() != {}) ==>
      || (s.publications != [] && Last(s.publications).commit == LastCommit(s))
      || (s.work.queued.Some? && s.work.queued.value <= LastCommit(s))
  }

  predicate SameOrApart(c: Config, earlier: nat, later: nat) {
    earlier == later || earlier + c.minSeparation <= later
  }

  predicate OneCommitPerPublication(c: Config, s: State) {
    s.publications != [] ==>
      && s.commits != []
      && SameOrApart(c, Last(s.publications).commit, LastCommit(s))
      && (Last(s.publications).commit == LastCommit(s) && s.work.queued.Some? ==>
            LastCommit(s) < s.work.queued.value)
  }

  predicate CommitsApart(c: Config, commits: seq<nat>) {
    forall i :: 0 < i < |commits| ==> commits[i - 1] + c.minSeparation <= commits[i]
  }

  /** Each publication follows its own commit within the latency, and picks up updates in time. */
  predicate PublicationInTime(c: Config, p: Publication) {
    && p.commit <= p.at <= p.commit + c.latency
    && p.at < p.commit + c.minSeparation
    && (p.first.Some? ==>
          && p.first.value.since <= p.at <= p.first.value.due + c.latency
          && p.first.value.due <= p.first.value.since + c.period + c.watermark)
    && (p.first.Some? <==> p.members != {})
  }

  predicate PublicationsInTime(c: Config, ps: seq<Publication>) {
    && (forall i :: 0 <= i < |ps| ==> PublicationInTime(c, ps[i]))
    && (forall i :: 0 < i < |ps| ==>
          && ps[i - 1].commit + c.minSeparation <= ps[i].commit
          && (!(c.FullyUpdated() <= ps[i].members) ==>
                ps[i - 1].commit + c.period + c.watermark <= ps[i].commit))
  }

  predicate Invariant(c: Config, s: State) {
    && TimersFollowCommits(c, s)
    && DelayIsLate(c, s)
    && QueuedIsFullOrLate(c, s)
    && FullWaits(c, s)
    && StaysArmed(c, s)
    && AlwaysOnTime(c, s)
    && UnpublishedIsDue(c, s)
    && CommitIsServed(c, s)
    && OneCommitPerPublication(c, s)
    && CommitsApart(c, s.commits)
    && PublicationsInTime(c, s.publications)
  }

  /** What a commit of a full set needs, wherever the timers stand. */
  predicate ReadyToCommit(c: Config, s: State) {
    && Elapsed(s, c.minSeparation)
    && (s.work.queued.Some? ==> s.work.queued.value <= s.now <= s.work.queued.value + c.latency)
    && (s.unpublished.Some? <==> s.updated != {})
    && (s.unpublished.Some? ==>
          var u := s.unpublished.value;
          && u.since <= s.now
          && u.since + c.watermark <= u.due <= u.since + c.period + c.watermark
          && (if s.work.queued.Some? then s.work.queued.value else s.now) <= u.due)
    && (s.publications != [] ==> s.commits != [] && SameOrApart(c, Last(s.publications).commit, LastCommit(s)))
    && CommitsApart(c, s.commits)
    && PublicationsInTime(c, s.publications)
  }

  lemma CommitEstablishesInvariant(c: Config, s: State)
    requires c.Valid() && IsFull(c, s) && ReadyToCommit(c, s)
    ensures Invariant(c, CommitNow(c, s))
  {
    assert LastCommit(CommitNow(c, s)) == s.now;
  }

  lemma MarkKeepsTiming(c: Config, s: State, idx: nat)
    requires c.Valid() && Invariant(c, s)
    ensures
      var t := MarkAndStart(c, s, idx);
      && TimersFollowCommits(c, t)
      && DelayIsLate(c, t)
      && StaysArmed(c, t)
      && AlwaysOnTime(c, t)
      && CommitIsServed(c, t)
      && OneCommitPerPublication(c, t)
  {
  }

  lemma MarkKeepsQueue(c: Config, s: State, idx: nat)
    requires c.Valid() && Invariant(c, s)
    ensures QueuedIsFullOrLate(c, MarkAndStart(c, s, idx))
    ensures UnpublishedIsDue(c, MarkAndStart(c, s, idx))
  {
  }

  lemma MarkIsReadyToCommit(c: Config, s: State, idx: nat)
    requires c.Valid() && Invariant(c, s) && !IsRunning(s.earlyTimer, s.now)
    ensures ReadyToCommit(c, MarkAndStart(c, s, idx))
  {
    MarkKeepsQueue(c, s, idx);
  }

  lemma MarkKeepsInvariant(c: Config, s: State, idx: nat)
    requires c.Valid() && Invariant(c, s)
    requires IsRunning(s.earlyTimer, s.now) || !IsFull(c, MarkAndStart(c, s, idx))
    ensures Invariant(c, MarkAndStart(c, s, idx))
  {
    MarkKeepsTiming(c, s, idx);
    MarkKeepsQueue(c, s, idx);
  }

  lemma UpdateKeepsInvariant(c: Config, s: State, idx: nat)
    requires c.Valid() && Invariant(c, s) && idx < |c.members|
    ensures Invariant(c, AfterUpdate(c, s, idx))
  {
    var t := MarkAndStart(c, s, idx);
    if c.members[idx].ignored {
    } else if !IsRunning(s.earlyTimer, s.now) && IsFull(c, t) {
      MarkIsReadyToCommit(c, s, idx);
      CommitEstablishesInvariant(c, t);
    } else {
      MarkKeepsInvariant(c, s, idx);
    }
  }

  lemma EarlyExpiryKeepsInvariant(c: Config, s: State)
    requires c.Valid() && Invariant(c, s) && IsDue(s.earlyTimer, s.now)
    ensures Invariant(c, AfterEarlyTimer(c, s))
  {
    if IsFull(c, s) {
      CommitEstablishesInvariant(c, s.(earlyTimer := None));
    }
  }

  lemma PublicationsGrow(c: Config, ps: seq<Publication>, p: Publication)
    requires PublicationsInTime(c, ps) && PublicationInTime(c, p)
    requires ps != [] ==> Last(ps).commit + c.minSeparation <= p.commit
    requires ps != [] && !(c.FullyUpdated() <= p.members) ==>
               Last(ps).commit + c.period + c.watermark <= p.commit
    ensures PublicationsInTime(c, ps + [p])
  {
    var qs := ps + [p];
    forall i | 0 <= i < |qs|
      ensures PublicationInTime(c, qs[i])
    {
      assert i < |ps| ==> qs[i] == ps[i];
    }
    forall i | 0 < i < |qs|
      ensures qs[i - 1].commit + c.minSeparation <= qs[i].commit
      ensures !(c.FullyUpdated() <= qs[i].members) ==> qs[i - 1].commit + c.period + c.watermark <= qs[i].commit
    {
      assert qs[i - 1] == ps[i - 1];
    }
  }

  lemma DequeueKeepsPublications(c: Config, s: State)
    requires c.Valid() && Invariant(c, s) && Enabled(c, s, Dequeue) && !GoesDormant(c, s)
    ensures PublicationsInTime(c, AfterWork(c, s).publications)
  {
    PublicationsGrow(c, s.publications, Last(AfterWork(c, s).publications));
  }

  lemma DequeueKeepsInvariant(c: Config, s: State)
    requires c.Valid() && Invariant(c, s) && Enabled(c, s, Dequeue)
    ensures Invariant(c, AfterWork(c, s))
  {
    if !GoesDormant(c, s) {
      DequeueKeepsPublications(c, s);
    }
  }

  lemma PeriodExpiryKeepsInvariant(c: Config, s: State)
    requires c.Valid() && Invariant(c, s) && IsDue(s.periodTimer, s.now)
    ensures Invariant(c, AfterPeriodTimer(c, s))
  {
  }

  lemma DelayExpiryKeepsInvariant(c: Config, s: State)
    requires c.Valid() && Invariant(c, s) && IsDue(s.work.delayed, s.now)
    ensures Invariant(c, s.(work := s.work.Expire(s.now)))
  {
  }

  lemma StepKeepsInvariant(c: Config, s: State, e: Event)
    requires c.Valid() && Invariant(c, s) && Enabled(c, s, e)
    ensures Invariant(c, Next(c, s, e))
  {
    match e
    case Update(idx) => UpdateKeepsInvariant(c, s, idx);
    case PeriodExpiry => PeriodExpiryKeepsInvariant(c, s);
    case EarlyExpiry => EarlyExpiryKeepsInvariant(c, s);
    case DelayExpiry => DelayExpiryKeepsInvariant(c, s);
    case Dequeue => DequeueKeepsInvariant(c, s);
    case Tick =>
    case Complete =>
  }

  lemma {:induction false} RunKeepsInvariant(c: Config, s: State, es: seq<Event>, t: State)
    requires c.Valid() && Invariant(c, s) && Run(c, s, es, t)
    ensures Invariant(c, t)
    decreases |es|
  {
    if es != [] {
      StepKeepsInvariant(c, s, es[0]);
      RunKeepsInvariant(c, Next(c, s, es[0]), es[1..], t);
    }
  }

  lemma ReachableKeepsInvariant(c: Config, s: State)
    requires c.Valid() && Reachable(c, s)
    ensures Invariant(c, s)
  {
    var es :| Run(c, INITIAL, es, s);
    RunKeepsInvariant(c, INITIAL, es, s);
  }

  // ----- separation

  /** Any two consecutive commits of any run are at least the minimum separation apart. */
  lemma CommitsAreSeparated(c: Config, s: State, i: nat)
    requires c.Valid() && Reachable(c, s) && 0 < i < |s.commits|
    ensures s.commits[i - 1] + c.minSeparation <= s.commits[i]
  {
    ReachableKeepsInvariant(c, s);
  }

  /**
   The publications themselves are only as far apart as the minimum separation less the time
   the first of them waited for the work queue.
   */
  lemma PublicationsAreSeparated(c: Config, s: State, i: nat)
    requires c.Valid() && Reachable(c, s) && 0 < i < |s.publications|
    ensures s.publications[i - 1].at < s.publications[i].at
    ensures s.publications[i - 1].at + c.minSeparation <= s.publications[i].at + c.latency
    ensures !(c.FullyUpdated() <= s.publications[i].members) ==>
              s.publications[i - 1].at + c.period + c.watermark <= s.publications[i].at + c.latency
  {
    ReachableKeepsInvariant(c, s);
    var ps := s.publications;
    assert PublicationInTime(c, ps[i - 1]) && PublicationInTime(c, ps[i]);
  }

  // ----- wake-up and staleness

  /** No lost wake-up: an update or a publication that is not over always finds something armed. */
  lemma UpdatesAreNeverForgotten(c: Config, s: State)
    requires c.Valid() && Reachable(c, s)
    requires s.updated != {} || s.work.running
    ensures s.periodTimer.Some? || s.work.delayed.Some? || s.work.queued.Some?
  {
    ReachableKeepsInvariant(c, s);
  }

  /** Bounded staleness, of what is published and of what still waits. */
  lemma StalenessIsBounded(c: Config, s: State)
    requires c.Valid() && Reachable(c, s)
    ensures s.updated != {} ==>
              s.unpublished.Some? && s.now <= s.unpublished.value.since + c.period + c.watermark + c.latency
    ensures forall i :: 0 <= i < |s.publications| ==>
              var p := s.publications[i];
              p.members != {} ==>
                p.first.Some? && p.at <= p.first.value.since + c.period + c.watermark + c.latency
  {
    ReachableKeepsInvariant(c, s);
    assert forall i :: 0 <= i < |s.publications| ==> PublicationInTime(c, s.publications[i]);
  }

  /** Updates wait on a set that is complete: it is queued, or held back by the minimum separation. */
  lemma FullSetIsHeldBackOnlyBySeparation(c: Config, s: State)
    requires c.Valid() && Reachable(c, s) && c.FullyUpdated() != {} && IsFull(c, s)
    ensures s.earlyTimer.Some? && s.commits != [] && s.now <= LastCommit(s) + c.minSeparation
    ensures s.earlyTimer == Some(LastCommit(s) + c.minSeparation)
  {
    ReachableKeepsInvariant(c, s);
    var i :| i in c.FullyUpdated();
    assert i in s.updated;
  }

  // ----- dormancy

  predicate Dormant(s: State) {
    s.updated == {} && s.periodTimer.None? && s.earlyTimer.None? && s.work == IDLE
  }

  /** A publication with nothing to publish leaves neither a timer nor work armed. */
  lemma NothingToPublishGoesDormant(c: Config, s: State)
    requires c.Valid() && Reachable(c, s) && c.FullyUpdated() != {}
    requires Enabled(c, s, Dequeue) && GoesDormant(c, s)
    ensures Dormant(AfterWork(c, s))
    ensures AfterWork(c, s).publications == s.publications
  {
    ReachableKeepsInvariant(c, s);
  }

  predicate Silent(c: Config, e: Event) {
    e.Update? && e.idx < |c.members| ==> c.members[e.idx].ignored
  }

  /** A dormant aggregation only lets time pass, until a member that is not ignored is updated. */
  lemma {:induction false} DormantStaysSilent(c: Config, s: State, es: seq<Event>, t: State)
    requires Dormant(s) && Run(c, s, es, t)
    requires forall e :: e in es ==> Silent(c, e)
    ensures t == s.(now := t.now)
    decreases |es|
  {
    if es != [] {
      assert es[0] in es && Silent(c, es[0]);
      DormantStaysSilent(c, Next(c, s, es[0]), es[1..], t);
    }
  }

  /**
   Any such update cold starts it: the work is queued at once if there is nothing to wait for, and
   otherwise after the watermark alone.
   */
  lemma UpdateEndsDormancy(c: Config, s: State, idx: nat)
    requires c.Valid() && Reachable(c, s) && Dormant(s)
    requires idx < |c.members| && !c.members[idx].ignored
    ensures
      var t := AfterUpdate(c, s, idx);
      if IsFull(c, t) || c.watermark == 0 then t.work == Work(None, Some(s.now), false)
      else t.work == Work(Some(s.now + c.watermark), None, false)
    ensures Armed(AfterUpdate(c, s, idx))
    ensures AfterUpdate(c, s, idx).unpublished == Some(Unpublished(s.now, s.now + c.watermark))
  {
    ReachableKeepsInvariant(c, s);
  }

  /** Once started, an aggregation that always publishes commits every period and watermark. */
  lemma AlwaysPublishNeverGoesDormant(c: Config, s: State)
    requires c.Valid() && Reachable(c, s) && c.alwaysPublish && Started(s)
    ensures Armed(s) && !Dormant(s)
    ensures s.commits != [] ==> s.now <= LastCommit(s) + c.period + c.watermark + c.latency
    ensures s.commits != [] && LastCommit(s) + c.latency < s.now ==>
              s.publications != [] && Last(s.publications).commit == LastCommit(s)
  {
    ReachableKeepsInvariant(c, s);
  }

  /**
   Without a required member every set is full: after the first commit the early timer is always
   armed, so the aggregation never goes dormant even though it does not always publish.
   */
  lemma OnlyOptionalMembersNeverGoDormant(c: Config, s: State)
    requires c.Valid() && Reachable(c, s) && c.FullyUpdated() == {} && Started(s)
    ensures s.earlyTimer.Some? && !Dormant(s)
  {
    ReachableKeepsInvariant(c, s);
  }

  // ----- time is never stuck

  function DueCount(s: State): nat {
    (if IsDue(s.periodTimer, s.now) then 1 else 0)
    + (if IsDue(s.earlyTimer, s.now) then 1 else 0)
    + (if IsDue(s.work.delayed, s.now) then 1 else 0)
  }

  /** The kernel's next obligation before time may pass, if there is one. */
  function Urgent(s: State): Option<Event> {
    if IsDue(s.periodTimer, s.now) then Some(PeriodExpiry)
    else if IsDue(s.earlyTimer, s.now) then Some(EarlyExpiry)
    else if IsDue(s.work.delayed, s.now) then Some(DelayExpiry)
    else if s.work.queued.Some? then Some(if s.work.running then Complete else Dequeue)
    else None
  }

  function Waiting(s: State): nat {
    (if s.work.queued.Some? then 2 else 0) + (if s.work.running then 1 else 0)
  }

  lemma ServingMakesProgress(c: Config, s: State)
    requires c.Valid() && Invariant(c, s) && Urgent(s).Some?
    ensures Enabled(c, s, Urgent(s).value)
    ensures
      var t := Next(c, s, Urgent(s).value);
      && t.now == s.now
      && (DueCount(t) < DueCount(s) || (DueCount(t) == DueCount(s) && Waiting(t) < Waiting(s)))
  {
  }

  /**
   The deadlines above do not hold because time stops: from every reachable state the kernel,
   without any update, gets to a state in which time passes.
   */
  lemma {:induction false} TimeAlwaysPasses(c: Config, s: State) returns (es: seq<Event>, t: State)
    requires c.Valid() && Invariant(c, s)
    ensures Run(c, s, es, t) && Enabled(c, t, Tick) && t.now == s.now
    ensures forall e :: e in es ==> !e.Update?
    decreases DueCount(s), Waiting(s)
  {
    if Urgent(s).None? {
      return [], s;
    }
    var e := Urgent(s).value;
    ServingMakesProgress(c, s);
    StepKeepsInvariant(c, s, e);
    var rest;
    rest, t := TimeAlwaysPasses(c, Next(c, s, e));
    es := [e] + rest;
    assert es[1..] == rest;
  }

  // ----- runs

  lemma {:induction false} RunsCompose(c: Config, s: State, es: seq<Event>, t: State, fs: seq<Event>, u: State)
    requires Run(c, s, es, t) && Run(c, t, fs, u)
    ensures Run(c, s, es + fs, u)
    decreases |es|
  {
    if es == [] {
      assert es + fs == fs;
    } else {
      assert (es + fs)[1..] == es[1..] + fs;
      RunsCompose(c, Next(c, s, es[0]), es[1..], t, fs, u);
    }
  }

  lemma Extend(c: Config, s: State, e: Event)
    requires Reachable(c, s) && Enabled(c, s, e)
    ensures Reachable(c, Next(c, s, e))
  {
    var es :| Run(c, INITIAL, es, s);
    var n := Next(c, s, e);
    assert [e][1..] == [];
    assert Run(c, s, [e], n);
    RunsCompose(c, INITIAL, es, s, [e], n);
  }
}
