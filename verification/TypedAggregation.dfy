/**
 Typed aggregation: a struct whose members are written one by one and published as a whole
 (AGG_TYPED_UPDATE and agg_typed_publish), on top of the timed protocol.

 Writing a member and signalling it are two steps under the lock of the typed aggregation;
 clearing the updated members happens under another lock, and the copy to the publishing
 buffer under the first one again. All interleavings of these steps are considered.
 */
module TypedAggregation {
  import opened Types
  import opened Aggregation
  import opened AggregationTiming

  /** The contents of one member. */
  type Word = int

  /** What one publication cleared: the members, and which version of each had been signalled. */
  datatype Cleared = Cleared(members: set<nat>, signalled: seq<nat>)

  datatype Snapshot = Snapshot(cleared: Cleared, versions: seq<nat>, values: seq<Word>)

  /**
   `updater` is the member written by the holder of the lock and not signalled yet; `window` is
   open between the clearing of the updated members and the copy. `history`, `signalled`,
   `copied` and `snapshots` only observe: all values of each member, the version last signalled,
   the version last copied, and what has been published.
   */
  datatype Typed = Typed(
    agg: State,
    data: seq<Word>,
    pubData: seq<Word>,
    updater: Option<nat>,
    window: Option<Cleared>,
    history: seq<seq<Word>>,
    signalled: seq<nat>,
    copied: seq<nat>,
    snapshots: seq<Snapshot>)

  function InitialTyped(init: seq<Word>): Typed {
    Typed(INITIAL, init, seq(|init|, _ => 0), None, None,
          seq(|init|, i requires 0 <= i < |init| => [init[i]]), seq(|init|, _ => 0), seq(|init|, _ => 0), [])
  }

  datatype TypedEvent =
    | Write(idx: nat, value: Word)
    | Signal
    | Copy
    | Kernel(event: Event)

  function Versions(s: Typed): seq<nat> {
    seq(|s.history|, i requires 0 <= i < |s.history| => if s.history[i] == [] then 0 else |s.history[i]| - 1)
  }

  predicate TypedEnabled(c: Config, s: Typed, e: TypedEvent) {
    match e
    case Write(idx, _) => s.updater.None? && idx < |s.data| && idx < |s.history|
    case Signal => s.updater.Some? && s.updater.value < |c.members| && s.updater.value < |s.signalled| <= |s.history|
    case Copy => s.window.Some? && s.updater.None?
    case Kernel(event) =>
      && !event.Update?
      && Enabled(c, s.agg, event)
      && (event.Complete? ==> s.window.None?)
  }

  function TypedNext(c: Config, s: Typed, e: TypedEvent): Typed
    requires TypedEnabled(c, s, e)
  {
    match e
    case Write(idx, value) =>
      s.(data := s.data[idx := value],
         updater := Some(idx),
         history := s.history[idx := s.history[idx] + [value]])
    case Signal =>
      var idx := s.updater.value;
      s.(agg := AfterUpdate(c, s.agg, idx),
         updater := None,
         signalled := s.signalled[idx := Versions(s)[idx]])
    case Copy =>
      s.(pubData := s.data,
         window := None,
         copied := Versions(s),
         snapshots := s.snapshots + [Snapshot(s.window.value, Versions(s), s.data)])
    case Kernel(event) =>
      var t := s.(agg := Next(c, s.agg, event));
      if event.Dequeue? && !GoesDormant(c, s.agg) then
        t.(window := Some(Cleared(s.agg.updated, s.signalled)))
      else
        t
  }

  predicate TypedRun(c: Config, s: Typed, es: seq<TypedEvent>, t: Typed)
    decreases |es|
  {
    if es == [] then s == t
    else TypedEnabled(c, s, es[0]) && TypedRun(c, TypedNext(c, s, es[0]), es[1..], t)
  }

  ghost predicate TypedReachable(c: Config, init: seq<Word>, s: Typed) {
    exists es :: TypedRun(c, InitialTyped(init), es, s)
  }

  // ----- what every step keeps

  predicate Shaped(c: Config, s: Typed) {
    && |s.data| == |s.pubData| == |s.history| == |s.signalled| == |s.copied| == |c.members|
    && (forall i :: 0 <= i < |s.history| ==> s.history[i] != [])
    && (s.updater.Some? ==> s.updater.value < |c.members|)
    && (s.window.Some? ==> |s.window.value.signalled| == |c.members|)
    && (s.window.Some? ==> s.agg.work.running)
  }

  predicate MemberIsTracked(s: Typed, i: nat)
    requires i < |s.data| == |s.pubData| == |s.history| == |s.signalled| == |s.copied|
    requires s.history[i] != []
  {
    && s.data[i] == Last(s.history[i])
    && s.signalled[i] < |s.history[i]|
    && (s.updater != Some(i) ==> s.signalled[i] == |s.history[i]| - 1)
    && s.copied[i] < |s.history[i]|
    && (s.snapshots != [] ==> s.pubData[i] == s.history[i][s.copied[i]])
    && (s.window.Some? && i < |s.window.value.signalled| ==> s.window.value.signalled[i] <= s.signalled[i])
  }

  /** A signalled version that is not copied yet is marked, or about to be copied. */
  predicate NothingIsLost(c: Config, s: Typed, i: nat)
    requires i < |c.members| && i < |s.signalled| == |s.copied|
  {
    !c.members[i].ignored && s.copied[i] < s.signalled[i] ==> i in s.agg.updated || s.window.Some?
  }

  /** A snapshot holds, of each member it cleared, the version signalled by then or a newer one. */
  predicate Covers(p: Snapshot, history: seq<seq<Word>>) {
    && |p.cleared.signalled| == |p.versions| == |p.values| == |history|
    && (forall i :: 0 <= i < |history| ==>
          && p.cleared.signalled[i] <= p.versions[i] < |history[i]|
          && p.values[i] == history[i][p.versions[i]])
  }

  predicate TypedInvariant(c: Config, s: Typed) {
    && Shaped(c, s)
    && (forall i: nat :: i < |c.members| ==> MemberIsTracked(s, i) && NothingIsLost(c, s, i))
    && (forall k :: 0 <= k < |s.snapshots| ==> Covers(s.snapshots[k], s.history))
  }

  lemma WriteKeepsCoverage(p: Snapshot, history: seq<seq<Word>>, idx: nat, value: Word)
    requires Covers(p, history) && idx < |history|
    ensures Covers(p, history[idx := history[idx] + [value]])
  {
  }

  lemma KernelStepKeepsMembers(c: Config, s: State, e: Event)
    requires Enabled(c, s, e) && !e.Update?
    ensures e != Dequeue || GoesDormant(c, s) ==> Next(c, s, e).updated == s.updated
    ensures e != Complete && s.work.running ==> Next(c, s, e).work.running
    ensures e == Dequeue && !GoesDormant(c, s) ==> Next(c, s, e).work.running
  {
  }

  lemma TypedStepTracksMember(c: Config, s: Typed, e: TypedEvent, i: nat)
    requires TypedInvariant(c, s) && TypedEnabled(c, s, e) && i < |c.members|
    ensures Shaped(c, TypedNext(c, s, e))
    ensures MemberIsTracked(TypedNext(c, s, e), i) && NothingIsLost(c, TypedNext(c, s, e), i)
  {
    assert MemberIsTracked(s, i) && NothingIsLost(c, s, i);
    if e.Kernel? {
      KernelStepKeepsMembers(c, s.agg, e.event);
    }
  }

  lemma TypedStepKeepsInvariant(c: Config, s: Typed, e: TypedEvent)
    requires TypedInvariant(c, s) && TypedEnabled(c, s, e)
    ensures TypedInvariant(c, TypedNext(c, s, e))
  {
    var t := TypedNext(c, s, e);
    assert Shaped(c, t) by {
      if e.Kernel? {
        KernelStepKeepsMembers(c, s.agg, e.event);
      }
    }
    forall i: nat | i < |c.members|
      ensures MemberIsTracked(t, i) && NothingIsLost(c, t, i)
    {
      TypedStepTracksMember(c, s, e, i);
    }
    if e.Write? {
      forall k | 0 <= k < |t.snapshots|
        ensures Covers(t.snapshots[k], t.history)
      {
        WriteKeepsCoverage(s.snapshots[k], s.history, e.idx, e.value);
      }
    } else if e.Copy? {
      forall i: nat | i < |c.members|
        ensures s.window.value.signalled[i] <= Versions(s)[i] && s.data[i] == s.history[i][Versions(s)[i]]
      {
        assert MemberIsTracked(s, i);
      }
      assert Covers(Snapshot(s.window.value, Versions(s), s.data), s.history);
    }
  }

  lemma {:induction false} TypedRunKeepsInvariant(c: Config, s: Typed, es: seq<TypedEvent>, t: Typed)
    requires TypedInvariant(c, s) && TypedRun(c, s, es, t) && Reachable(c, s.agg)
    ensures TypedInvariant(c, t) && Reachable(c, t.agg)
    decreases |es|
  {
    if es != [] {
      var e := es[0];
      TypedStepKeepsInvariant(c, s, e);
      match e {
        case Signal => Extend(c, s.agg, Update(s.updater.value));
        case Kernel(event) => Extend(c, s.agg, event);
        case _ =>
      }
      TypedRunKeepsInvariant(c, TypedNext(c, s, e), es[1..], t);
    }
  }

  /** Every run of the typed aggregation is, seen from its `agg`, a run of the timed protocol. */
  lemma TypedReachableKeepsInvariant(c: Config, init: seq<Word>, s: Typed)
    requires |init| == |c.members| && TypedReachable(c, init, s)
    ensures TypedInvariant(c, s) && Reachable(c, s.agg)
  {
    var es :| TypedRun(c, InitialTyped(init), es, s);
    assert Run(c, INITIAL, [], INITIAL);
    TypedRunKeepsInvariant(c, InitialTyped(init), es, s);
  }

  // ----- coherence

  /** A published member whose bit is clear is the live one, outside the two windows. */
  lemma ClearBitMeansPublished(c: Config, init: seq<Word>, s: Typed, i: nat)
    requires |init| == |c.members| && TypedReachable(c, init, s)
    requires i < |c.members| && !c.members[i].ignored
    requires s.snapshots != [] && s.window.None? && s.updater != Some(i) && i !in s.agg.updated
    ensures |s.pubData| == |s.data| == |c.members| && s.pubData[i] == s.data[i]
  {
    TypedReachableKeepsInvariant(c, init, s);
    assert MemberIsTracked(s, i) && NothingIsLost(c, s, i);
  }

  /** No update whose bit a publication clears is missing from what that publication publishes. */
  lemma SnapshotsCoverWhatTheyClear(c: Config, init: seq<Word>, s: Typed, k: nat)
    requires |init| == |c.members| && TypedReachable(c, init, s) && k < |s.snapshots|
    ensures Covers(s.snapshots[k], s.history)
  {
    TypedReachableKeepsInvariant(c, init, s);
  }

  /**
   End to end: a published member that differs from the live one is marked and its publication
   starts within period, watermark and latency of the first update it waits for.
   */
  lemma StaleMemberIsPublishedInTime(c: Config, init: seq<Word>, s: Typed, i: nat)
    requires c.Valid() && |init| == |c.members| && TypedReachable(c, init, s)
    requires i < |c.members| && !c.members[i].ignored
    requires s.snapshots != [] && s.window.None? && s.updater != Some(i)
    requires |s.pubData| == |s.data| == |c.members| && s.pubData[i] != s.data[i]
    ensures i in s.agg.updated && s.agg.unpublished.Some?
    ensures s.agg.now <= s.agg.unpublished.value.since + c.period + c.watermark + c.latency
  {
    TypedReachableKeepsInvariant(c, init, s);
    assert MemberIsTracked(s, i) && NothingIsLost(c, s, i);
    StalenessIsBounded(c, s.agg);
  }

  // ----- the typed aggregation itself

  class AggTyped {
    const agg: Agg
    const data: array<Word>
    const pubData: array<Word>

    ghost const Repr: set<object> := {this, data, pubData} + agg.Repr

    ghost predicate Valid() {
      && agg.Valid()
      && data != pubData
      && {data, pubData} !! agg.Repr
      && this !in agg.Repr
      && data.Length == pubData.Length == |agg.config.members|
    }

    constructor (config: Config, init: seq<Word>)
      requires |init| == |config.members|
      ensures Valid() && fresh(Repr) && agg.config == config
      ensures agg.StateAt(0) == INITIAL
      ensures data[..] == init && pubData[..] == seq(|init|, _ => 0)
    {
      agg := new Agg(config);
      data := new Word[|init|](i requires 0 <= i < |init| => init[i]);
      pubData := new Word[|init|](_ => 0);
    }

    /** Both steps of an update, under the lock. */
    method Update(now: nat, idx: nat, value: Word)
      requires Valid() && idx < data.Length
      modifies Repr
      ensures data[..] == old(data[..])[idx := value]
      ensures pubData[..] == old(pubData[..])
      ensures agg.StateAt(now) == AfterUpdate(agg.config, old(agg.StateAt(now)), idx)
    {
      data[idx] := value;
      agg.Update(now, idx);
    }

    /** What the work callback calls: copies the data for the publish function. */
    method Publish(now: nat) returns (published: seq<Word>)
      requires Valid()
      modifies pubData
      ensures pubData[..] == data[..] == old(data[..])
      ensures published == data[..]
      ensures agg.StateAt(now) == old(agg.StateAt(now))
    {
      for i := 0 to data.Length
        invariant pubData[..i] == data[..i]
        invariant data[..] == old(data[..])
      {
        pubData[i] := data[i];
      }
      assert pubData[..] == pubData[..data.Length] && data[..] == data[..data.Length];
      published := pubData[..];
    }
  }
}
