/**
 Telemetry under interleaving: updaters of different data, the work items of all groups, their
 timers and the clock. An update writes its datum, then notifies the groups in its list one by
 one, holding the lock of the datum; a publication clears the updated members of its group, then
 copies slot by slot, each copy under the lock of its datum.
 */
module TelemetryCoherence {
  import opened Types
  import opened Telemetry
  import A = Aggregation
  import T = AggregationTiming

  /**
   `notifying[d]` is how far the holder of the lock of datum `d` has got in the list of `d`;
   `copying[g]` is how many slots of group `g` are copied since its members were cleared;
   `published[g]` tells whether group `g` has ever copied all its slots.
   */
  datatype State = State(
    aggs: seq<A.State>,
    data: seq<Word>,
    pubData: seq<seq<Word>>,
    notifying: seq<Option<nat>>,
    copying: seq<Option<nat>>,
    published: seq<bool>)

  datatype Event =
    | BeginUpdate(d: nat, value: Word)
    | NotifyNext(d: nat)
    | EndUpdate(d: nat)
    | CopyNext(g: nat)
    | Work(g: nat, event: T.Event)
    | Tick

  function Initial(t: Table): State {
    State(seq(|t.groups|, _ => A.INITIAL),
          seq(|t.datas|, _ => 0),
          seq(|t.groups|, g requires 0 <= g < |t.groups| => seq(|t.groups[g].datas|, _ => 0)),
          seq(|t.datas|, _ => None),
          seq(|t.groups|, _ => None),
          seq(|t.groups|, _ => false))
  }

  ghost predicate Shaped(t: Table, lists: seq<seq<Slot>>, s: State) {
    && t.Valid()
    && IsReverseIndex(t, lists)
    && |s.aggs| == |s.pubData| == |s.copying| == |s.published| == |t.groups|
    && |s.data| == |s.notifying| == |t.datas|
    && (forall g :: 0 <= g < |t.groups| ==> |s.pubData[g]| == |t.groups[g].datas|)
    && (forall g :: 0 <= g < |t.groups| ==>
          s.copying[g].Some? ==> s.copying[g].value <= |t.groups[g].datas| && s.aggs[g].work.running)
    && (forall d :: 0 <= d < |t.datas| ==> s.notifying[d].Some? ==> s.notifying[d].value <= |lists[d]|)
  }

  ghost predicate Enabled(t: Table, lists: seq<seq<Slot>>, s: State, e: Event)
    requires Shaped(t, lists, s)
  {
    match e
    case BeginUpdate(d, _) => d < |t.datas| && t.datas[d].kind.Normal? && s.notifying[d].None?
    case NotifyNext(d) => d < |t.datas| && s.notifying[d].Some? && s.notifying[d].value < |lists[d]|
    case EndUpdate(d) => d < |t.datas| && s.notifying[d] == Some(|lists[d]|)
    case CopyNext(g) =>
      && g < |t.groups|
      && s.copying[g].Some?
      && (s.copying[g].value < |t.groups[g].datas| ==>
            s.notifying[t.DataOf(Slot(g, s.copying[g].value))].None?)
    case Work(g, event) =>
      && g < |t.groups|
      && !event.Tick? && !event.Update?
      && T.Enabled(t.groups[g].config, s.aggs[g], event)
      && (event.Complete? ==> s.copying[g].None?)
    case Tick => forall g :: 0 <= g < |t.groups| ==> T.Enabled(t.groups[g].config, s.aggs[g], T.Tick)
  }

  ghost function Next(t: Table, lists: seq<seq<Slot>>, s: State, e: Event): State
    requires Shaped(t, lists, s) && Enabled(t, lists, s, e)
  {
    match e
    case BeginUpdate(d, value) => s.(data := s.data[d := value], notifying := s.notifying[d := Some(0)])
    case NotifyNext(d) =>
      var k := s.notifying[d].value;
      var slot := lists[d][k];
      assert slot in lists[d] && t.IsSlot(slot);
      var agg := A.AfterUpdate(t.groups[slot.group].config, s.aggs[slot.group], slot.index);
      s.(aggs := s.aggs[slot.group := agg], notifying := s.notifying[d := Some(k + 1)])
    case EndUpdate(d) => s.(notifying := s.notifying[d := None])
    case CopyNext(g) =>
      var i := s.copying[g].value;
      if i == |t.groups[g].datas| then
        s.(copying := s.copying[g := None], published := s.published[g := true])
      else
        s.(pubData := s.pubData[g := s.pubData[g][i := s.data[t.DataOf(Slot(g, i))]]],
           copying := s.copying[g := Some(i + 1)])
    case Work(g, event) =>
      var n := s.(aggs := s.aggs[g := T.Next(t.groups[g].config, s.aggs[g], event)]);
      if event.Dequeue? && !A.GoesDormant(t.groups[g].config, s.aggs[g]) then
        n.(copying := s.copying[g := Some(0)])
      else
        n
    case Tick => s.(aggs := seq(|s.aggs|, g requires 0 <= g < |s.aggs| => s.aggs[g].(now := s.aggs[g].now + 1)))
  }

  // ----- what every step keeps

  /** The update that holds the lock of datum `d` has still to notify `slot`. */
  ghost predicate StillToNotify(lists: seq<seq<Slot>>, s: State, d: nat, slot: Slot)
    requires d < |lists| && d < |s.notifying|
  {
    && s.notifying[d].Some?
    && exists k :: s.notifying[d].value <= k < |lists[d]| && lists[d][k] == slot
  }

  /** What is published of a slot is the datum, unless something is bound to bring it up to date. */
  ghost predicate Coherent(t: Table, lists: seq<seq<Slot>>, s: State, slot: Slot)
    requires Shaped(t, lists, s) && t.IsSlot(slot)
  {
    var g, i, d := slot.group, slot.index, t.DataOf(slot);
    || t.groups[g].config.members[i].ignored
    || i in s.aggs[g].updated
    || (s.copying[g].Some? && s.copying[g].value <= i)
    || StillToNotify(lists, s, d, slot)
    || s.pubData[g][i] == s.data[d]
    || (!s.published[g] && (s.copying[g].Some? ==> s.copying[g].value <= i))
  }

  ghost predicate Invariant(t: Table, lists: seq<seq<Slot>>, s: State) {
    && Shaped(t, lists, s)
    && (forall slot | t.IsSlot(slot) :: Coherent(t, lists, s, slot))
    && (forall g :: 0 <= g < |t.groups| ==> T.Reachable(t.groups[g].config, s.aggs[g]))
  }

  lemma WorkStepKeepsMembers(c: A.Config, s: A.State, e: T.Event)
    requires T.Enabled(c, s, e) && !e.Update?
    ensures e != T.Dequeue || A.GoesDormant(c, s) ==> T.Next(c, s, e).updated == s.updated
    ensures e != T.Complete && s.work.running ==> T.Next(c, s, e).work.running
    ensures e == T.Dequeue && !A.GoesDormant(c, s) ==> T.Next(c, s, e).work.running
  {
  }

  lemma StepKeepsShape(t: Table, lists: seq<seq<Slot>>, s: State, e: Event)
    requires Shaped(t, lists, s) && Enabled(t, lists, s, e)
    ensures Shaped(t, lists, Next(t, lists, s, e))
  {
    match e
    case Work(g, event) => WorkStepKeepsMembers(t.groups[g].config, s.aggs[g], event);
    case NotifyNext(d) =>
      var slot := lists[d][s.notifying[d].value];
      assert slot in lists[d] && t.IsSlot(slot);
    case _ =>
  }

  /** A notification that is still to come stays so while the update is where it is. */
  lemma StaysToNotify(lists: seq<seq<Slot>>, s: State, n: State, d: nat, slot: Slot)
    requires d < |lists| && d < |s.notifying| && d < |n.notifying| && n.notifying[d] == s.notifying[d]
    ensures StillToNotify(lists, s, d, slot) ==> StillToNotify(lists, n, d, slot)
  {
  }

  lemma NotifyingKeepsCoherence(t: Table, lists: seq<seq<Slot>>, s: State, d': nat, slot: Slot)
    requires Shaped(t, lists, s) && Enabled(t, lists, s, NotifyNext(d'))
    requires Shaped(t, lists, Next(t, lists, s, NotifyNext(d')))
    requires t.IsSlot(slot) && Coherent(t, lists, s, slot)
    ensures Coherent(t, lists, Next(t, lists, s, NotifyNext(d')), slot)
  {
    var n := Next(t, lists, s, NotifyNext(d'));
    var d := t.DataOf(slot);
    if d' != d {
      StaysToNotify(lists, s, n, d, slot);
    } else if StillToNotify(lists, s, d, slot) {
      var k :| s.notifying[d].value <= k < |lists[d]| && lists[d][k] == slot;
      if k > s.notifying[d].value {
        assert StillToNotify(lists, n, d, slot);
      }
    }
  }

  lemma WorkKeepsCoherence(t: Table, lists: seq<seq<Slot>>, s: State, g: nat, event: T.Event, slot: Slot)
    requires Shaped(t, lists, s) && Enabled(t, lists, s, Work(g, event))
    requires Shaped(t, lists, Next(t, lists, s, Work(g, event)))
    requires t.IsSlot(slot) && Coherent(t, lists, s, slot)
    ensures Coherent(t, lists, Next(t, lists, s, Work(g, event)), slot)
  {
    WorkStepKeepsMembers(t.groups[g].config, s.aggs[g], event);
    StaysToNotify(lists, s, Next(t, lists, s, Work(g, event)), t.DataOf(slot), slot);
  }

  lemma StepKeepsCoherence(t: Table, lists: seq<seq<Slot>>, s: State, e: Event, slot: Slot)
    requires Shaped(t, lists, s) && Enabled(t, lists, s, e) && Shaped(t, lists, Next(t, lists, s, e))
    requires t.IsSlot(slot) && Coherent(t, lists, s, slot)
    ensures Coherent(t, lists, Next(t, lists, s, e), slot)
  {
    var n := Next(t, lists, s, e);
    var d := t.DataOf(slot);
    match e
    case BeginUpdate(d', _) =>
      if d' == d {
        assert slot in lists[d];
        assert StillToNotify(lists, n, d, slot);
      } else {
        StaysToNotify(lists, s, n, d, slot);
      }
    case NotifyNext(d') => NotifyingKeepsCoherence(t, lists, s, d', slot);
    case EndUpdate(d') =>
      if d' != d {
        StaysToNotify(lists, s, n, d, slot);
      }
    case CopyNext(_) => StaysToNotify(lists, s, n, d, slot);
    case Work(g, event) => WorkKeepsCoherence(t, lists, s, g, event, slot);
    case Tick => StaysToNotify(lists, s, n, d, slot);
  }

  lemma StepKeepsReachability(t: Table, lists: seq<seq<Slot>>, s: State, e: Event, g: nat)
    requires Shaped(t, lists, s) && Enabled(t, lists, s, e) && g < |t.groups|
    requires T.Reachable(t.groups[g].config, s.aggs[g])
    ensures Shaped(t, lists, Next(t, lists, s, e))
    ensures T.Reachable(t.groups[g].config, Next(t, lists, s, e).aggs[g])
  {
    StepKeepsShape(t, lists, s, e);
    match e
    case NotifyNext(d) =>
      var slot := lists[d][s.notifying[d].value];
      assert slot in lists[d] && t.IsSlot(slot);
      if slot.group == g {
        T.Extend(t.groups[g].config, s.aggs[g], T.Update(slot.index));
      }
    case Work(g', event) =>
      if g' == g {
        T.Extend(t.groups[g].config, s.aggs[g], event);
      }
    case Tick => T.Extend(t.groups[g].config, s.aggs[g], T.Tick);
    case _ =>
  }

  lemma StepKeepsInvariant(t: Table, lists: seq<seq<Slot>>, s: State, e: Event)
    requires Invariant(t, lists, s) && Enabled(t, lists, s, e)
    ensures Invariant(t, lists, Next(t, lists, s, e))
  {
    StepKeepsShape(t, lists, s, e);
    forall slot | t.IsSlot(slot)
      ensures Coherent(t, lists, Next(t, lists, s, e), slot)
    {
      StepKeepsCoherence(t, lists, s, e, slot);
    }
    forall g: nat | g < |t.groups|
      ensures T.Reachable(t.groups[g].config, Next(t, lists, s, e).aggs[g])
    {
      StepKeepsReachability(t, lists, s, e, g);
    }
  }

  /** `es` leads from `s` to `u`. */
  ghost predicate Run(t: Table, lists: seq<seq<Slot>>, s: State, es: seq<Event>, u: State)
    decreases |es|
  {
    if es == [] then s == u
    else
      && Shaped(t, lists, s)
      && Enabled(t, lists, s, es[0])
      && Run(t, lists, Next(t, lists, s, es[0]), es[1..], u)
  }

  lemma {:induction false} RunKeepsInvariant(t: Table, lists: seq<seq<Slot>>, s: State, es: seq<Event>, u: State)
    requires Invariant(t, lists, s) && Run(t, lists, s, es, u)
    ensures Invariant(t, lists, u)
    decreases |es|
  {
    if es != [] {
      StepKeepsInvariant(t, lists, s, es[0]);
      RunKeepsInvariant(t, lists, Next(t, lists, s, es[0]), es[1..], u);
    }
  }

  lemma InitialInvariant(t: Table, lists: seq<seq<Slot>>)
    requires t.Valid() && IsReverseIndex(t, lists)
    ensures Invariant(t, lists, Initial(t))
  {
    assert forall g :: 0 <= g < |t.groups| ==> T.Run(t.groups[g].config, A.INITIAL, [], A.INITIAL);
  }

  // ----- coherence

  /**
   In every run, once a group has published: the buffer of a slot that is not ignored equals its
   datum, unless the slot is marked, or about to be copied, or still to be notified.
   */
  lemma PublishedSlotsAreCoherent(t: Table, lists: seq<seq<Slot>>, es: seq<Event>, s: State, slot: Slot)
    requires t.Valid() && IsReverseIndex(t, lists) && Run(t, lists, Initial(t), es, s)
    requires t.IsSlot(slot) && !t.groups[slot.group].config.members[slot.index].ignored
    requires slot.group < |s.published| && s.published[slot.group]
    ensures Shaped(t, lists, s)
    ensures
      || slot.index in s.aggs[slot.group].updated
      || (s.copying[slot.group].Some? && s.copying[slot.group].value <= slot.index)
      || StillToNotify(lists, s, t.DataOf(slot), slot)
      || s.pubData[slot.group][slot.index] == s.data[t.DataOf(slot)]
  {
    InitialInvariant(t, lists);
    RunKeepsInvariant(t, lists, Initial(t), es, s);
    assert Coherent(t, lists, s, slot);
  }

  /**
   End to end: with no update or copy of it under way, a published slot that differs from its
   datum waits for a publication that starts in time.
   */
  lemma StaleSlotIsPublishedInTime(t: Table, lists: seq<seq<Slot>>, es: seq<Event>, s: State, slot: Slot)
    requires t.Valid() && IsReverseIndex(t, lists) && Run(t, lists, Initial(t), es, s)
    requires t.IsSlot(slot) && !t.groups[slot.group].config.members[slot.index].ignored
    requires t.groups[slot.group].config.Valid()
    requires Shaped(t, lists, s) && s.published[slot.group]
    requires s.copying[slot.group].None? && s.notifying[t.DataOf(slot)].None?
    requires s.pubData[slot.group][slot.index] != s.data[t.DataOf(slot)]
    ensures
      var c, agg := t.groups[slot.group].config, s.aggs[slot.group];
      && slot.index in agg.updated
      && agg.unpublished.Some?
      && agg.now <= agg.unpublished.value.since + c.period + c.watermark + c.latency
  {
    InitialInvariant(t, lists);
    RunKeepsInvariant(t, lists, Initial(t), es, s);
    assert Coherent(t, lists, s, slot);
    T.StalenessIsBounded(t.groups[slot.group].config, s.aggs[slot.group]);
  }

  // ----- a copy without interleaving

  function Copies(g: nat, n: nat): seq<Event> {
    seq(n, _ => CopyNext(g))
  }

  lemma {:induction false} CopiesRun(t: Table, lists: seq<seq<Slot>>, s: State, g: nat, i: nat)
    requires Shaped(t, lists, s) && g < |t.groups| && s.copying[g] == Some(i)
    requires forall d :: 0 <= d < |t.datas| ==> s.notifying[d].None?
    requires s.pubData[g][..i] == Published(t, s.data, g)[..i]
    ensures
      Run(t, lists, s, Copies(g, |t.groups[g].datas| - i + 1),
          s.(pubData := s.pubData[g := Published(t, s.data, g)],
             copying := s.copying[g := None], published := s.published[g := true]))
    decreases |t.groups[g].datas| - i
  {
    var n := |t.groups[g].datas|;
    var u := s.(pubData := s.pubData[g := Published(t, s.data, g)],
                copying := s.copying[g := None], published := s.published[g := true]);
    var e := CopyNext(g);
    StepKeepsShape(t, lists, s, e);
    var next := Next(t, lists, s, e);
    var more := Copies(g, n - i);
    assert Copies(g, n - i + 1)[1..] == more;
    if i == n {
      assert s.pubData[g] == s.pubData[g][..n] && Published(t, s.data, g)[..n] == Published(t, s.data, g);
      assert u.pubData == s.pubData && more == [] && next == u;
    } else {
      assert next.pubData[g][..i + 1] == Published(t, s.data, g)[..i + 1] by {
        assert next.pubData[g][..i] == s.pubData[g][..i];
      }
      CopiesRun(t, lists, next, g, i + 1);
      assert next.pubData[g := Published(t, s.data, g)] == u.pubData;
      assert next.copying[g := None] == u.copying;
    }
  }

  /** Left alone, the steps of a copy make the buffers of the group what the store makes them. */
  lemma CopyIsARun(t: Table, lists: seq<seq<Slot>>, s: State, g: nat)
    requires Shaped(t, lists, s) && g < |t.groups| && s.copying[g] == Some(0)
    requires forall d :: 0 <= d < |t.datas| ==> s.notifying[d].None?
    ensures
      Run(t, lists, s, Copies(g, |t.groups[g].datas| + 1),
          s.(pubData := s.pubData[g := Published(t, s.data, g)],
             copying := s.copying[g := None], published := s.published[g := true]))
  {
    CopiesRun(t, lists, s, g, 0);
  }

  // ----- an update without interleaving

  function Notifications(d: nat, n: nat): seq<Event> {
    if n == 0 then [EndUpdate(d)] else [NotifyNext(d)] + Notifications(d, n - 1)
  }

  lemma {:induction false} NotificationsRun(
      t: Table, lists: seq<seq<Slot>>, before: seq<A.State>, s: State, d: nat, k: nat)
    requires Shaped(t, lists, s) && d < |t.datas| && s.notifying[d] == Some(k) && |before| == |t.groups|
    requires forall slot :: slot in lists[d] ==> t.IsSlot(slot)
    requires s.aggs == Notified(t, before, lists[d][..k])
    ensures Run(t, lists, s, Notifications(d, |lists[d]| - k),
                s.(aggs := Notified(t, before, lists[d]), notifying := s.notifying[d := None]))
    decreases |lists[d]| - k
  {
    var u := s.(aggs := Notified(t, before, lists[d]), notifying := s.notifying[d := None]);
    if k == |lists[d]| {
      assert lists[d][..k] == lists[d];
      assert [EndUpdate(d)][1..] == [];
      assert Next(t, lists, s, EndUpdate(d)) == u;
    } else {
      var e := NotifyNext(d);
      var n := Next(t, lists, s, e);
      StepKeepsShape(t, lists, s, e);
      var head := lists[d][..k + 1];
      assert head[..k] == lists[d][..k];
      NotificationsRun(t, lists, before, n, d, k + 1);
      assert n.notifying[d := None] == s.notifying[d := None];
      assert Notifications(d, |lists[d]| - k)[1..] == Notifications(d, |lists[d]| - (k + 1));
    }
  }

  /** Left alone, the steps of an update make the datum and the aggregations what the store makes them. */
  lemma UpdateIsARun(t: Table, lists: seq<seq<Slot>>, s: State, d: nat, value: Word)
    requires Shaped(t, lists, s) && d < |t.datas| && t.datas[d].kind.Normal? && s.notifying[d].None?
    ensures forall slot :: slot in lists[d] ==> t.IsSlot(slot)
    ensures Run(t, lists, s, [BeginUpdate(d, value)] + Notifications(d, |lists[d]|),
                s.(data := s.data[d := value], aggs := Notified(t, s.aggs, lists[d])))
  {
    var e := BeginUpdate(d, value);
    var n := Next(t, lists, s, e);
    StepKeepsShape(t, lists, s, e);
    assert lists[d][..0] == [];
    NotificationsRun(t, lists, s.aggs, n, d, 0);
    assert ([e] + Notifications(d, |lists[d]|))[1..] == Notifications(d, |lists[d]|);
    assert n.notifying[d := None] == s.notifying;
  }
}
