/**
 Time is never stuck in the telemetry groups: whatever updates, copies and deadlines are under way,
 they can all be served in the same tick.
 */
module TelemetryProgress {
  import opened Types
  import opened Telemetry
  import opened TelemetryCoherence
  import A = Aggregation
  import T = AggregationTiming

  lemma {:induction false} RunsCompose(
      t: Table, lists: seq<seq<Slot>>, s: State, es: seq<Event>, u: State, fs: seq<Event>, v: State)
    requires Run(t, lists, s, es, u) && Run(t, lists, u, fs, v)
    ensures Run(t, lists, s, es + fs, v)
    decreases |es|
  {
    if es == [] {
      assert es + fs == fs;
    } else {
      RunContinues(t, lists, s, es, u);
      assert [es[0]] + (es[1..] + fs) == es + fs;
      RunsCompose(t, lists, Next(t, lists, s, es[0]), es[1..], u, fs, v);
      RunStarts(t, lists, s, es[0], es[1..] + fs, v);
    }
  }

  lemma RunContinues(t: Table, lists: seq<seq<Slot>>, s: State, es: seq<Event>, u: State)
    requires es != [] && Run(t, lists, s, es, u)
    ensures Shaped(t, lists, s) && Enabled(t, lists, s, es[0]) && Run(t, lists, Next(t, lists, s, es[0]), es[1..], u)
  {
  }

  lemma RunStarts(t: Table, lists: seq<seq<Slot>>, s: State, e: Event, es: seq<Event>, u: State)
    requires Shaped(t, lists, s) && Enabled(t, lists, s, e) && Run(t, lists, Next(t, lists, s, e), es, u)
    ensures Run(t, lists, s, [e] + es, u)
  {
    assert ([e] + es)[0] == e && ([e] + es)[1..] == es;
  }

  /** The events that need no one outside: no new update, and no time. */
  predicate IsService(e: Event) {
    !e.BeginUpdate? && !e.Tick?
  }

  predicate AreServices(es: seq<Event>) {
    forall e :: e in es ==> IsService(e)
  }

  /** Serving changes no datum, and takes no time. */
  ghost predicate SameInstant(s: State, u: State) {
    && u.data == s.data && |u.aggs| == |s.aggs|
    && forall g :: 0 <= g < |s.aggs| ==> u.aggs[g].now == s.aggs[g].now
  }

  ghost predicate Reaches(t: Table, lists: seq<seq<Slot>>, s: State, es: seq<Event>, u: State) {
    Run(t, lists, s, es, u) && Invariant(t, lists, u) && AreServices(es) && SameInstant(s, u)
  }

  lemma ReachesStarts(t: Table, lists: seq<seq<Slot>>, s: State, e: Event, es: seq<Event>, u: State)
    requires Invariant(t, lists, s) && Enabled(t, lists, s, e) && IsService(e)
    requires SameInstant(s, Next(t, lists, s, e)) && Reaches(t, lists, Next(t, lists, s, e), es, u)
    ensures Reaches(t, lists, s, [e] + es, u)
  {
    RunStarts(t, lists, s, e, es, u);
  }

  lemma ReachesComposes(
      t: Table, lists: seq<seq<Slot>>, s: State, es: seq<Event>, u: State, fs: seq<Event>, v: State)
    requires Reaches(t, lists, s, es, u) && Reaches(t, lists, u, fs, v)
    ensures Reaches(t, lists, s, es + fs, v)
  {
    RunsCompose(t, lists, s, es, u, fs, v);
  }

  // ----- updates under way

  /** The update of datum `d` notifies its slots, and lets go of the lock. */
  lemma {:induction false} FinishUpdate(t: Table, lists: seq<seq<Slot>>, s: State, d: nat)
      returns (es: seq<Event>, u: State)
    requires Invariant(t, lists, s) && d < |t.datas|
    ensures Reaches(t, lists, s, es, u) && u.notifying == s.notifying[d := None]
    decreases if s.notifying[d].Some? then |lists[d]| - s.notifying[d].value + 1 else 0
  {
    if s.notifying[d].None? {
      return [], s;
    }
    var e := if s.notifying[d].value < |lists[d]| then NotifyNext(d) else EndUpdate(d);
    StepKeepsInvariant(t, lists, s, e);
    var next := Next(t, lists, s, e);
    var rest;
    rest, u := FinishUpdate(t, lists, next, d);
    ReachesStarts(t, lists, s, e, rest, u);
    es := [e] + rest;
  }

  lemma {:induction false} FinishUpdates(t: Table, lists: seq<seq<Slot>>, s: State, d: nat)
      returns (es: seq<Event>, u: State)
    requires Invariant(t, lists, s) && d <= |t.datas|
    ensures Reaches(t, lists, s, es, u) && |u.notifying| == |s.notifying|
    ensures forall k :: 0 <= k < d ==> u.notifying[k].None?
  {
    if d == 0 {
      return [], s;
    }
    var first, m := FinishUpdates(t, lists, s, d - 1);
    var more;
    more, u := FinishUpdate(t, lists, m, d - 1);
    ReachesComposes(t, lists, s, first, m, more, u);
    es := first + more;
  }

  // ----- copies under way

  ghost predicate NoUpdate(s: State) {
    forall d :: 0 <= d < |s.notifying| ==> s.notifying[d].None?
  }

  /** The copy of group `g` runs to its end. */
  lemma {:induction false} FinishCopy(t: Table, lists: seq<seq<Slot>>, s: State, g: nat)
      returns (es: seq<Event>, u: State)
    requires Invariant(t, lists, s) && NoUpdate(s) && g < |t.groups|
    ensures Reaches(t, lists, s, es, u) && NoUpdate(u)
    ensures u.copying == s.copying[g := None] && u.aggs == s.aggs
    decreases if s.copying[g].Some? then |t.groups[g].datas| - s.copying[g].value + 1 else 0
  {
    if s.copying[g].None? {
      return [], s;
    }
    var e := CopyNext(g);
    StepKeepsInvariant(t, lists, s, e);
    var rest;
    rest, u := FinishCopy(t, lists, Next(t, lists, s, e), g);
    ReachesStarts(t, lists, s, e, rest, u);
    es := [e] + rest;
  }

  // ----- deadlines and work items

  ghost predicate AreValid(t: Table) {
    forall g :: 0 <= g < |t.groups| ==> t.groups[g].config.Valid()
  }

  ghost predicate OnlyGroup(s: State, u: State, g: nat)
    requires g < |s.aggs|
  {
    |u.aggs| == |s.aggs| && forall h :: 0 <= h < |s.aggs| && h != g ==> u.aggs[h] == s.aggs[h]
  }

  /** What the kernel has to do for group `g` next; a publication copies its data before it completes. */
  lemma ServeOnce(t: Table, lists: seq<seq<Slot>>, s: State, g: nat) returns (es: seq<Event>, u: State)
    requires Invariant(t, lists, s) && NoUpdate(s) && AreValid(t) && g < |t.groups|
    requires T.Urgent(s.aggs[g]).Some?
    ensures Reaches(t, lists, s, es, u) && NoUpdate(u) && OnlyGroup(s, u, g)
    ensures
      || T.DueCount(u.aggs[g]) < T.DueCount(s.aggs[g])
      || (T.DueCount(u.aggs[g]) == T.DueCount(s.aggs[g]) && T.Waiting(u.aggs[g]) < T.Waiting(s.aggs[g]))
  {
    var c, event := t.groups[g].config, T.Urgent(s.aggs[g]).value;
    T.ReachableKeepsInvariant(c, s.aggs[g]);
    T.ServingMakesProgress(c, s.aggs[g]);
    var first, m := [], s;
    if event.Complete? {
      first, m := FinishCopy(t, lists, s, g);
    }
    var e := Work(g, event);
    StepKeepsInvariant(t, lists, m, e);
    u := Next(t, lists, m, e);
    ReachesStarts(t, lists, m, e, [], u);
    assert [e] + [] == [e];
    ReachesComposes(t, lists, s, first, m, [e], u);
    es := first + [e];
  }

  lemma {:induction false} ServeGroup(t: Table, lists: seq<seq<Slot>>, s: State, g: nat)
      returns (es: seq<Event>, u: State)
    requires Invariant(t, lists, s) && NoUpdate(s) && AreValid(t) && g < |t.groups|
    ensures Reaches(t, lists, s, es, u) && NoUpdate(u) && OnlyGroup(s, u, g)
    ensures T.Urgent(u.aggs[g]).None?
    decreases T.DueCount(s.aggs[g]), T.Waiting(s.aggs[g])
  {
    if T.Urgent(s.aggs[g]).None? {
      return [], s;
    }
    var first, m := ServeOnce(t, lists, s, g);
    var more;
    more, u := ServeGroup(t, lists, m, g);
    ReachesComposes(t, lists, s, first, m, more, u);
    es := first + more;
  }

  lemma {:induction false} ServeGroups(t: Table, lists: seq<seq<Slot>>, s: State, g: nat)
      returns (es: seq<Event>, u: State)
    requires Invariant(t, lists, s) && NoUpdate(s) && AreValid(t) && g <= |t.groups|
    ensures Reaches(t, lists, s, es, u) && NoUpdate(u)
    ensures forall h :: 0 <= h < g ==> T.Urgent(u.aggs[h]).None?
  {
    if g == 0 {
      return [], s;
    }
    var first, m := ServeGroups(t, lists, s, g - 1);
    var more;
    more, u := ServeGroup(t, lists, m, g - 1);
    ReachesComposes(t, lists, s, first, m, more, u);
    es := first + more;
  }

  /**
   From every state of every run, the updates, copies, deadlines and work items that are under way
   lead in the same tick, without a new update, to a state in which time passes. So the bounds on
   staleness do not hold because time stops.
   */
  lemma TimeAlwaysPasses(t: Table, lists: seq<seq<Slot>>, before: seq<Event>, s: State)
      returns (es: seq<Event>, u: State)
    requires t.Valid() && AreValid(t) && IsReverseIndex(t, lists) && Run(t, lists, Initial(t), before, s)
    ensures Run(t, lists, s, es, u) && AreServices(es) && SameInstant(s, u)
    ensures Shaped(t, lists, u) && Enabled(t, lists, u, Tick)
  {
    InitialInvariant(t, lists);
    RunKeepsInvariant(t, lists, Initial(t), before, s);
    var first, m := FinishUpdates(t, lists, s, |t.datas|);
    var more;
    more, u := ServeGroups(t, lists, m, |t.groups|);
    ReachesComposes(t, lists, s, first, m, more, u);
    es := first + more;
    forall g | 0 <= g < |t.groups|
      ensures T.Enabled(t.groups[g].config, u.aggs[g], T.Tick)
    {
      assert T.Urgent(u.aggs[g]).None?;
    }
  }
}
