/**
 The error registry (subsys/err/err.c): errors are set and cleared by code, listed while they are
 set, and passed on to the callbacks whose filters they match, from the dispatch onward.
 */
module ErrRegistry {
  import opened Types

  /** Severities are the single bits 1, 2, 4 and 8. */
  datatype ErrDef = ErrDef(code: nat, severity: nat, disabled: bool, initiallySet: bool)

  /** `Invalid` ends the filters of a callback; `Other` is a type no filter macro produces. */
  datatype Filter = Invalid | Codes(codes: seq<nat>) | Severities(severities: seq<nat>) | Other(size: nat) {

    function Size(): nat {
      match this
      case Invalid => 0
      case Codes(codes) => |codes|
      case Severities(severities) => |severities|
      case Other(size) => size
    }

    predicate AcceptsAt(i: nat, e: ErrDef)
      requires i < Size()
    {
      match this
      case Codes(codes) => codes[i] == e.code
      case Severities(severities) => severities[i] == e.severity
      case _ => false
    }
  }

  datatype Table = Table(errs: seq<ErrDef>, callbacks: seq<seq<Filter>>) {

    /** What initialisation asserts, and that every list of filters is terminated. */
    ghost predicate Valid() {
      && (forall e :: 0 <= e < |errs| ==> errs[e].severity in {1, 2, 4, 8})
      && (forall d, e :: 0 <= d < e < |errs| ==> errs[d].code != errs[e].code)
      && (forall b :: 0 <= b < |callbacks| ==> Invalid in callbacks[b])
    }
  }

  /** The filters in effect: those before the terminator. */
  function Effective(filters: seq<Filter>): seq<Filter> {
    if filters == [] || filters[0] == Invalid then [] else [filters[0]] + Effective(filters[1..])
  }

  ghost predicate Accepts(f: Filter, e: ErrDef) {
    exists i :: 0 <= i < f.Size() && f.AcceptsAt(i, e)
  }

  /** A filter accepts the codes or the severities it lists; one of another type accepts nothing. */
  lemma FilterAcceptsWhatItLists(f: Filter, e: ErrDef)
    ensures f.Codes? ==> (Accepts(f, e) <==> e.code in f.codes)
    ensures f.Severities? ==> (Accepts(f, e) <==> e.severity in f.severities)
    ensures f.Other? ==> !Accepts(f, e)
  {
    if f.Codes? && e.code in f.codes {
      var i :| 0 <= i < |f.codes| && f.codes[i] == e.code;
      assert f.AcceptsAt(i, e);
    }
    if f.Severities? && e.severity in f.severities {
      var i :| 0 <= i < |f.severities| && f.severities[i] == e.severity;
      assert f.AcceptsAt(i, e);
    }
  }

  /** Filters are combined with "and", the elements of a filter with "or". */
  ghost predicate Matches(filters: seq<Filter>, e: ErrDef) {
    forall f :: f in Effective(filters) ==> Accepts(f, e)
  }

  lemma {:induction false} EffectiveIsPrefix(filters: seq<Filter>)
    ensures Effective(filters) <= filters && Invalid !in Effective(filters)
    ensures Invalid in filters ==> |Effective(filters)| < |filters| && filters[|Effective(filters)|] == Invalid
    ensures |Effective(filters)| < |filters| ==> filters[|Effective(filters)|] == Invalid
  {
    if filters != [] && filters[0] != Invalid {
      EffectiveIsPrefix(filters[1..]);
    }
  }

  /** The nested loops with their early exits decide exactly that. */
  method MatchFilters(filters: seq<Filter>, e: ErrDef) returns (match_: bool)
    requires Invalid in filters
    ensures match_ <==> Matches(filters, e)
  {
    EffectiveIsPrefix(filters);
    ghost var effective := Effective(filters);
    match_ := true;
    var k := 0;
    while match_ && filters[k] != Invalid
      invariant k <= |effective|
      invariant match_ ==> forall j :: 0 <= j < k ==> Accepts(filters[j], e)
      invariant !match_ ==> k > 0 && !Accepts(effective[k - 1], e)
      decreases |effective| - k
    {
      var filter := filters[k];
      assert k < |effective| && effective[k] == filter;
      match_ := false;
      var i := 0;
      while !match_ && i < filter.Size()
        invariant i <= filter.Size()
        invariant match_ ==> Accepts(filter, e)
        invariant !match_ ==> forall j :: 0 <= j < i ==> !filter.AcceptsAt(j, e)
        decreases filter.Size() - i, !match_
      {
        if filter.AcceptsAt(i, e) {
          match_ := true;
        }
        i := i + 1;
      }
      k := k + 1;
    }
    if match_ {
      assert forall f :: f in effective ==> exists j :: 0 <= j < |effective| && effective[j] == f;
    } else {
      assert effective[k - 1] in effective;
    }
  }

  // ----- the registry and what its callbacks are told

  datatype Notification = Notification(err: nat, isSet: bool)

  /** `notified[b]` is what callback `b` has been told, in order. */
  datatype State = State(isSet: seq<bool>, errors: seq<nat>, dispatched: bool, notified: seq<seq<Notification>>)

  predicate Within(s: seq<nat>, n: nat) {
    forall i :: 0 <= i < |s| ==> s[i] < n
  }

  function Remove(s: seq<nat>, x: nat): seq<nat> {
    if s == [] then [] else if s[0] == x then s[1..] else [s[0]] + Remove(s[1..], x)
  }

  /** Errors that are set from the start, listed as initialisation inserts them: last one first. */
  function InitialErrors(errs: seq<ErrDef>): seq<nat> {
    if errs == [] then []
    else
      var rest := InitialErrors(errs[..|errs| - 1]);
      if !Last(errs).disabled && Last(errs).initiallySet then [|errs| - 1] + rest else rest
  }

  function Initial(t: Table): State {
    State(seq(|t.errs|, e requires 0 <= e < |t.errs| => t.errs[e].initiallySet),
          InitialErrors(t.errs), false, seq(|t.callbacks|, _ => []))
  }

  ghost predicate Shaped(t: Table, s: State) {
    |s.isSet| == |t.errs| && |s.notified| == |t.callbacks| && Within(s.errors, |t.errs|)
  }

  ghost function Notify(t: Table, notified: seq<seq<Notification>>, n: Notification): seq<seq<Notification>>
    requires n.err < |t.errs| && |notified| == |t.callbacks|
  {
    seq(|notified|, b requires 0 <= b < |notified| =>
      if Matches(t.callbacks[b], t.errs[n.err]) then notified[b] + [n] else notified[b])
  }

  ghost function AfterReport(t: Table, s: State, e: nat, set_: bool): State
    requires e < |t.errs| == |s.isSet| && |s.notified| == |t.callbacks|
  {
    if t.errs[e].disabled || set_ == s.isSet[e] then s
    else
      State(s.isSet[e := set_],
            if set_ then [e] + s.errors else Remove(s.errors, e),
            s.dispatched,
            if s.dispatched then Notify(t, s.notified, Notification(e, set_)) else s.notified)
  }

  /** The set errors are passed on in the order of the list. */
  ghost function NotifyAll(t: Table, notified: seq<seq<Notification>>, errors: seq<nat>): (r: seq<seq<Notification>>)
    requires Within(errors, |t.errs|) && |notified| == |t.callbacks|
    ensures |r| == |notified|
  {
    if errors == [] then notified
    else
      Notify(t, NotifyAll(t, notified, errors[..|errors| - 1]), Notification(Last(errors), true))
  }

  ghost function AfterDispatch(t: Table, s: State): State
    requires Within(s.errors, |t.errs|) && |s.notified| == |t.callbacks|
  {
    s.(dispatched := true, notified := NotifyAll(t, s.notified, s.errors))
  }

  lemma InitialErrorsGrow(errs: seq<ErrDef>, i: nat)
    requires i < |errs|
    ensures InitialErrors(errs[..i + 1]) ==
            (if !errs[i].disabled && errs[i].initiallySet then [i] else []) + InitialErrors(errs[..i])
  {
    assert errs[..i + 1][..i] == errs[..i];
  }

  /** Finds each error by its code. */
  ghost predicate IsIndex(errs: seq<ErrDef>, codes: map<nat, nat>) {
    && (forall e :: 0 <= e < |errs| ==> errs[e].code in codes && codes[errs[e].code] == e)
    && (forall a :: a in codes ==> codes[a] < |errs| && errs[codes[a]].code == a)
  }

  lemma IndexGrows(errs: seq<ErrDef>, codes: map<nat, nat>, i: nat)
    requires i < |errs| && IsIndex(errs[..i], codes)
    requires forall d, e :: 0 <= d < e < |errs| ==> errs[d].code != errs[e].code
    ensures IsIndex(errs[..i + 1], codes[errs[i].code := i])
  {
  }

  class Registry {
    const table: Table
    var codes: map<nat, nat>
    var isSet: seq<bool>
    var errors: seq<nat>
    var dispatched: bool
    ghost var notified: seq<seq<Notification>>

    ghost function Abstract(): State
      reads this
    {
      State(isSet, errors, dispatched, notified)
    }

    ghost predicate Valid()
      reads this
    {
      && table.Valid()
      && Invariant(table, Abstract())
      && IsIndex(table.errs, codes)
    }

    /** Static definition followed by `init`. */
    constructor (table: Table)
      requires table.Valid()
      ensures Valid() && this.table == table && Abstract() == Initial(table)
    {
      this.table := table;
      isSet := seq(|table.errs|, e requires 0 <= e < |table.errs| => table.errs[e].initiallySet);
      dispatched := false;
      notified := seq(|table.callbacks|, _ => []);
      errors := [];
      codes := map[];
      new;
      InsertErrors();
      InitialInvariant(table);
    }

    /** Indexes the errors by code, and lists the ones that are set from the start. */
    method InsertErrors()
      requires table.Valid() && |isSet| == |table.errs| && errors == []
      requires forall e :: 0 <= e < |table.errs| ==> isSet[e] == table.errs[e].initiallySet
      modifies this`errors, this`codes
      ensures errors == InitialErrors(table.errs)
      ensures IsIndex(table.errs, codes)
    {
      codes := map[];
      for i := 0 to |table.errs|
        invariant errors == InitialErrors(table.errs[..i])
        invariant IsIndex(table.errs[..i], codes)
      {
        InitialErrorsGrow(table.errs, i);
        IndexGrows(table.errs, codes, i);
        codes := codes[table.errs[i].code := i];
        if !table.errs[i].disabled && isSet[i] {
          errors := [i] + errors;
        }
      }
      assert table.errs[..|table.errs|] == table.errs;
    }

    method Report(code: nat, set_: bool)
      requires Valid() && code in codes
      modifies this
      ensures Valid() && codes == old(codes)
      ensures Abstract() == AfterReport(table, old(Abstract()), codes[code], set_)
    {
      var e := codes[code];
      ReportKeepsInvariant(table, Abstract(), e, set_);
      if table.errs[e].disabled {
        return;
      }
      if set_ == isSet[e] {
        return;
      }
      errors := if set_ then [e] + errors else Remove(errors, e);
      isSet := isSet[e := set_];
      if dispatched {
        NotifyCallbacks(Notification(e, set_));
      }
    }

    method Dispatch()
      requires Valid() && !dispatched
      modifies this
      ensures Valid() && codes == old(codes)
      ensures Abstract() == AfterDispatch(table, old(Abstract()))
    {
      DispatchKeepsInvariant(table, Abstract());
      ghost var before := Abstract();
      dispatched := true;
      for k := 0 to |errors|
        invariant errors == before.errors && isSet == before.isSet && dispatched && codes == old(codes)
        invariant |notified| == |table.callbacks|
        invariant notified == NotifyAll(table, before.notified, errors[..k])
      {
        assert errors[..k + 1][..k] == errors[..k];
        NotifyCallbacks(Notification(errors[k], true));
      }
      assert errors[..|errors|] == errors;
    }

    /** Tells every callback whose filters match. */
    method NotifyCallbacks(n: Notification)
      requires table.Valid() && n.err < |table.errs| && |notified| == |table.callbacks|
      modifies this`notified
      ensures notified == Notify(table, old(notified), n)
    {
      for b := 0 to |table.callbacks|
        invariant |notified| == |table.callbacks|
        invariant forall k :: 0 <= k < |notified| ==>
                    notified[k] == if k < b then Notify(table, old(notified), n)[k] else old(notified)[k]
      {
        var matched := MatchFilters(table.callbacks[b], table.errs[n.err]);
        if matched {
          notified := notified[b := notified[b] + [n]];
        }
      }
    }
  }

  // ----- what every report and the dispatch keep

  /** What a callback believes to be set, from what it has been told. */
  function Replica(log: seq<Notification>): set<nat> {
    if log == [] then {}
    else
      var n := Last(log);
      var before := Replica(log[..|log| - 1]);
      if n.isSet then before + {n.err} else before - {n.err}
  }

  /** Each notification is news to the callback. */
  predicate IsNews(log: seq<Notification>) {
    if log == [] then true
    else
      var front := log[..|log| - 1];
      IsNews(front) && Last(log).isSet == (Last(log).err !in Replica(front))
  }

  /** The listed errors that match the filters of a callback. */
  ghost function Matching(t: Table, errors: seq<nat>, filters: seq<Filter>): set<nat> {
    set e | e in errors && e < |t.errs| && Matches(filters, t.errs[e])
  }

  ghost predicate Invariant(t: Table, s: State) {
    && Shaped(t, s)
    && NoDuplicates(s.errors)
    && (forall e: nat :: e in s.errors <==> e < |t.errs| && !t.errs[e].disabled && s.isSet[e])
    && (forall b :: 0 <= b < |s.notified| ==>
          && IsNews(s.notified[b])
          && Replica(s.notified[b]) == if s.dispatched then Matching(t, s.errors, t.callbacks[b]) else {})
    && (!s.dispatched ==> forall b :: 0 <= b < |s.notified| ==> s.notified[b] == [])
  }

  lemma {:induction false} RemoveIsExact(s: seq<nat>, x: nat)
    requires NoDuplicates(s)
    ensures forall y :: y in Remove(s, x) <==> y in s && y != x
    ensures NoDuplicates(Remove(s, x))
  {
    if s != [] {
      RemoveIsExact(s[1..], x);
      assert s[0] !in s[1..];
    }
  }

  lemma ConsIsExact(s: seq<nat>, k: nat)
    requires NoDuplicates(s) && Within(s, k)
    ensures NoDuplicates([k] + s) && Within([k] + s, k + 1)
    ensures forall x :: x in [k] + s <==> x == k || x in s
    ensures k !in s
  {
  }

  lemma {:induction false} InitialErrorsAreExact(errs: seq<ErrDef>)
    ensures NoDuplicates(InitialErrors(errs)) && Within(InitialErrors(errs), |errs|)
    ensures forall e: nat :: e in InitialErrors(errs) <==> e < |errs| && !errs[e].disabled && errs[e].initiallySet
  {
    if errs != [] {
      var k := |errs| - 1;
      var front := errs[..k];
      InitialErrorsAreExact(front);
      ConsIsExact(InitialErrors(front), k);
    }
  }

  lemma InitialInvariant(t: Table)
    ensures Invariant(t, Initial(t))
  {
    InitialErrorsAreExact(t.errs);
  }

  lemma TellGrows(log: seq<Notification>, n: Notification)
    ensures Replica(log + [n]) == if n.isSet then Replica(log) + {n.err} else Replica(log) - {n.err}
    ensures IsNews(log + [n]) <==> IsNews(log) && n.isSet == (n.err !in Replica(log))
  {
    assert (log + [n])[..|log|] == log;
  }

  lemma ReportKeepsList(t: Table, s: State, e: nat, set_: bool)
    requires Invariant(t, s) && e < |t.errs|
    ensures
      var n := AfterReport(t, s, e, set_);
      && NoDuplicates(n.errors) && Within(n.errors, |t.errs|)
      && (forall x: nat :: x in n.errors <==> x < |t.errs| && !t.errs[x].disabled && n.isSet[x])
      && (!t.errs[e].disabled && set_ != s.isSet[e] ==>
            forall x: nat :: x in n.errors <==> if x == e then set_ else x in s.errors)
  {
    RemoveIsExact(s.errors, e);
    var n := AfterReport(t, s, e, set_);
    assert forall i :: 0 <= i < |n.errors| ==> n.errors[i] in n.errors;
  }

  lemma ReportKeepsInvariant(t: Table, s: State, e: nat, set_: bool)
    requires Invariant(t, s) && e < |t.errs|
    ensures Invariant(t, AfterReport(t, s, e, set_))
  {
    ReportKeepsList(t, s, e, set_);
    var n := AfterReport(t, s, e, set_);
    if n != s && s.dispatched {
      forall b | 0 <= b < |s.notified|
        ensures IsNews(n.notified[b]) && Replica(n.notified[b]) == Matching(t, n.errors, t.callbacks[b])
      {
        TellGrows(s.notified[b], Notification(e, set_));
      }
    }
  }

  lemma {:induction false} NotifyAllIsNews(t: Table, notified: seq<seq<Notification>>, errors: seq<nat>, b: nat)
    requires Within(errors, |t.errs|) && b < |notified| == |t.callbacks|
    requires notified[b] == [] && NoDuplicates(errors)
    ensures IsNews(NotifyAll(t, notified, errors)[b])
    ensures Replica(NotifyAll(t, notified, errors)[b]) == Matching(t, errors, t.callbacks[b])
  {
    if errors != [] {
      var front := errors[..|errors| - 1];
      assert errors == front + [Last(errors)];
      NotifyAllIsNews(t, notified, front, b);
      TellGrows(NotifyAll(t, notified, front)[b], Notification(Last(errors), true));
    }
  }

  lemma DispatchKeepsInvariant(t: Table, s: State)
    requires Invariant(t, s) && !s.dispatched
    ensures Invariant(t, AfterDispatch(t, s))
  {
    forall b | 0 <= b < |s.notified|
      ensures
        var log := NotifyAll(t, s.notified, s.errors)[b];
        IsNews(log) && Replica(log) == Matching(t, s.errors, t.callbacks[b])
    {
      NotifyAllIsNews(t, s.notified, s.errors, b);
    }
  }

  // ----- whole runs

  datatype Event = ReportErr(e: nat, isSet: bool) | DispatchErrs

  predicate Enabled(t: Table, s: State, e: Event) {
    match e
    case ReportErr(x, _) => x < |t.errs|
    case DispatchErrs => !s.dispatched
  }

  ghost function Next(t: Table, s: State, e: Event): State
    requires Shaped(t, s) && Enabled(t, s, e)
  {
    match e
    case ReportErr(x, isSet) => AfterReport(t, s, x, isSet)
    case DispatchErrs => AfterDispatch(t, s)
  }

  ghost predicate Step(t: Table, s: State, e: Event, u: State) {
    Shaped(t, s) && Enabled(t, s, e) && u == Next(t, s, e)
  }

  /** `es` leads from `s` to `u`. */
  ghost predicate Run(t: Table, s: State, es: seq<Event>, u: State)
    decreases |es|
  {
    if es == [] then s == u
    else exists m :: Run(t, s, es[..|es| - 1], m) && Step(t, m, Last(es), u)
  }

  lemma StepKeepsInvariant(t: Table, s: State, e: Event, u: State)
    requires Invariant(t, s) && Step(t, s, e, u)
    ensures Invariant(t, u) && (s.dispatched ==> u.dispatched)
  {
    match e
    case ReportErr(x, isSet) => ReportKeepsInvariant(t, s, x, isSet);
    case DispatchErrs => DispatchKeepsInvariant(t, s);
  }

  lemma {:induction false} RunKeepsInvariant(t: Table, s: State, es: seq<Event>, u: State)
    requires Invariant(t, s) && Run(t, s, es, u)
    ensures Invariant(t, u) && (s.dispatched ==> u.dispatched)
    decreases |es|
  {
    if es != [] {
      var m :| Run(t, s, es[..|es| - 1], m) && Step(t, m, Last(es), u);
      RunKeepsInvariant(t, s, es[..|es| - 1], m);
      StepKeepsInvariant(t, m, Last(es), u);
    }
  }

  lemma ExtendRun(t: Table, s: State, es: seq<Event>, u: State, e: Event, v: State)
    requires Run(t, s, es, u) && Step(t, u, e, v)
    ensures Run(t, s, es + [e], v)
  {
    var all := es + [e];
    assert all[..|all| - 1] == es && Last(all) == e;
    assert Run(t, s, all[..|all| - 1], u) && Step(t, u, Last(all), v);
  }

  /**
   Nothing is lost by deferring: the list has no duplicates and holds the enabled errors that are
   set; and from the dispatch onward, what each callback has been told adds up to the listed errors
   its filters match, without a single notification that was not news.
   */
  lemma ReplicasAgree(t: Table, es: seq<Event>, s: State, b: nat)
    requires Run(t, Initial(t), es, s) && b < |t.callbacks|
    ensures Shaped(t, s) && NoDuplicates(s.errors)
    ensures forall e: nat :: e in s.errors <==> e < |t.errs| && !t.errs[e].disabled && s.isSet[e]
    ensures IsNews(s.notified[b])
    ensures Replica(s.notified[b]) == if s.dispatched then Matching(t, s.errors, t.callbacks[b]) else {}
  {
    InitialInvariant(t);
    RunKeepsInvariant(t, Initial(t), es, s);
  }

  // ----- the order of the dispatch

  function Reverse(s: seq<nat>): seq<nat> {
    if s == [] then [] else [Last(s)] + Reverse(s[..|s| - 1])
  }

  /** Nothing but reports of errors of the table. */
  predicate OnlyReports(t: Table, es: seq<Event>) {
    forall i :: 0 <= i < |es| ==> es[i].ReportErr? && es[i].e < |t.errs|
  }

  /** The errors set by definition that no report has cleared. */
  function Untouched(t: Table, es: seq<Event>): seq<nat>
    requires OnlyReports(t, es)
  {
    if es == [] then InitialErrors(t.errs)
    else
      var before := Untouched(t, es[..|es| - 1]);
      if Last(es).isSet then before else Remove(before, Last(es).e)
  }

  /** The other errors that are set, in the order of the reports that set them. */
  function Reported(t: Table, es: seq<Event>): seq<nat>
    requires OnlyReports(t, es)
  {
    if es == [] then []
    else
      var front, e := es[..|es| - 1], Last(es).e;
      var before := Reported(t, front);
      if !Last(es).isSet then Remove(before, e)
      else if t.errs[e].disabled || e in before || e in Untouched(t, front) then before
      else before + [e]
  }

  lemma ReverseGrows(s: seq<nat>, x: nat, rest: seq<nat>)
    ensures Reverse(s + [x]) + rest == [x] + (Reverse(s) + rest)
  {
    assert (s + [x])[..|s|] == s;
  }

  lemma {:induction false} RemoveNothing(s: seq<nat>, x: nat)
    requires x !in s
    ensures Remove(s, x) == s
  {
    if s != [] {
      RemoveNothing(s[1..], x);
    }
  }

  lemma RemoveTail(first: nat, rest: seq<nat>, x: nat)
    ensures Remove([first] + rest, x) == if first == x then rest else [first] + Remove(rest, x)
  {
    assert ([first] + rest)[1..] == rest;
  }

  lemma {:induction false} RemoveSplits(s: seq<nat>, more: seq<nat>, x: nat)
    ensures Remove(s + more, x) == if x in s then Remove(s, x) + more else s + Remove(more, x)
  {
    if s == [] {
      assert s + more == more && s + Remove(more, x) == Remove(more, x);
    } else {
      RemoveSplits(s[1..], more, x);
      RemoveTail(s[0], s[1..] + more, x);
      assert [s[0]] + (s[1..] + more) == s + more;
      RemoveTail(s[0], s[1..], x);
      assert [s[0]] + s[1..] == s;
      if s[0] == x {
      } else if x in s {
        assert x in s[1..];
        assert [s[0]] + (Remove(s[1..], x) + more) == Remove(s, x) + more;
      } else {
        assert [s[0]] + (s[1..] + Remove(more, x)) == s + Remove(more, x);
      }
    }
  }

  lemma {:induction false} ReverseIsExact(s: seq<nat>)
    ensures |Reverse(s)| == |s| && forall x :: x in Reverse(s) <==> x in s
  {
    if s != [] {
      var front := s[..|s| - 1];
      ReverseIsExact(front);
      assert s == front + [Last(s)];
    }
  }

  lemma {:induction false} RemoveReverses(s: seq<nat>, x: nat)
    requires NoDuplicates(s)
    ensures Remove(Reverse(s), x) == Reverse(Remove(s, x))
  {
    if s != [] {
      var front, last := s[..|s| - 1], Last(s);
      assert s == front + [last];
      RemoveReverses(front, x);
      RemoveSplits(front, [last], x);
      RemoveTail(last, Reverse(front), x);
      assert Reverse(s) == [last] + Reverse(front) && last !in front;
      if x in front {
        ReverseGrows(Remove(front, x), last, []);
        assert Reverse(Remove(front, x) + [last]) == [last] + Reverse(Remove(front, x));
      } else if x == last {
        assert Remove([last], x) == [] && front + [] == front;
      } else {
        ReverseIsExact(front);
        RemoveNothing(Reverse(front), x);
        RemoveNothing([last], x);
      }
    }
  }

  lemma {:induction false} ReverseAt(s: seq<nat>, i: nat)
    requires i < |s|
    ensures |Reverse(s)| == |s| && Reverse(s)[i] == s[|s| - 1 - i]
  {
    if |s| > 1 {
      ReverseAt(s[..|s| - 1], if i > 0 then i - 1 else 0);
    }
  }

  lemma HalvesHaveNoDuplicates(s: seq<nat>, more: seq<nat>)
    requires NoDuplicates(Reverse(s) + more)
    ensures NoDuplicates(s) && forall x :: x in s ==> x !in more
  {
    var all := Reverse(s) + more;
    ReverseIsExact(s);
    forall i, j | 0 <= i < j < |s|
      ensures s[i] != s[j]
    {
      ReverseAt(s, |s| - 1 - i);
      ReverseAt(s, |s| - 1 - j);
      assert all[|s| - 1 - j] != all[|s| - 1 - i];
    }
    forall i, j | 0 <= i < |s| && 0 <= j < |more|
      ensures Reverse(s)[i] != more[j]
    {
      assert all[i] != all[|s| + j];
    }
    forall x | x in s
      ensures x !in more
    {
      var i :| 0 <= i < |s| && Reverse(s)[i] == x;
    }
  }

  lemma ClearingKeepsReverse(reported: seq<nat>, untouched: seq<nat>, x: nat)
    requires NoDuplicates(Reverse(reported) + untouched)
    ensures Remove(Reverse(reported) + untouched, x) == Reverse(Remove(reported, x)) + Remove(untouched, x)
  {
    HalvesHaveNoDuplicates(reported, untouched);
    ReverseIsExact(reported);
    RemoveSplits(Reverse(reported), untouched, x);
    RemoveReverses(reported, x);
    if x in reported {
      RemoveNothing(untouched, x);
    } else {
      RemoveNothing(reported, x);
    }
  }

  /** One more report, on a list that holds the reported errors latest first. */
  lemma ReportKeepsReverse(t: Table, s: State, reported: seq<nat>, untouched: seq<nat>, e: nat, set_: bool)
    requires Invariant(t, s) && e < |t.errs| && s.errors == Reverse(reported) + untouched
    ensures
      AfterReport(t, s, e, set_).errors ==
      if !set_ then Reverse(Remove(reported, e)) + Remove(untouched, e)
      else if t.errs[e].disabled || e in reported || e in untouched then Reverse(reported) + untouched
      else Reverse(reported + [e]) + untouched
  {
    ReverseIsExact(reported);
    assert e in s.errors <==> e in reported || e in untouched;
    if set_ {
      ReverseGrows(reported, e, untouched);
    } else {
      ClearingKeepsReverse(reported, untouched, e);
      if e !in s.errors {
        RemoveNothing(s.errors, e);
      }
    }
  }

  /** Whatever is set and cleared before the dispatch, the list holds the latest report first. */
  lemma {:induction false} ReportsAreListedInReverse(t: Table, es: seq<Event>, s: State)
    requires OnlyReports(t, es) && Run(t, Initial(t), es, s)
    ensures Invariant(t, s) && !s.dispatched
    ensures s.errors == Reverse(Reported(t, es)) + Untouched(t, es)
    decreases |es|
  {
    InitialInvariant(t);
    if es != [] {
      var front := es[..|es| - 1];
      var m :| Run(t, Initial(t), front, m) && Step(t, m, Last(es), s);
      ReportsAreListedInReverse(t, front, m);
      StepKeepsInvariant(t, m, Last(es), s);
      ReportKeepsReverse(t, m, Reported(t, front), Untouched(t, front), Last(es).e, Last(es).isSet);
    }
  }

  /** All reports, and then the dispatch, can be made. */
  lemma {:induction false} ReportsRun(t: Table, es: seq<Event>) returns (s: State)
    requires OnlyReports(t, es)
    ensures Run(t, Initial(t), es, s) && Shaped(t, s)
    ensures Run(t, Initial(t), es + [DispatchErrs], AfterDispatch(t, s))
    decreases |es|
  {
    if es == [] {
      s := Initial(t);
    } else {
      var m := ReportsRun(t, es[..|es| - 1]);
      s := OneMoreReportRuns(t, es, m);
    }
    DispatchRuns(t, es, s);
  }

  lemma OneMoreReportRuns(t: Table, es: seq<Event>, m: State) returns (s: State)
    requires es != [] && OnlyReports(t, es) && Run(t, Initial(t), es[..|es| - 1], m)
    ensures Run(t, Initial(t), es, s)
  {
    ReportsAreListedInReverse(t, es[..|es| - 1], m);
    s := Next(t, m, Last(es));
    assert Step(t, m, Last(es), s);
  }

  lemma DispatchRuns(t: Table, es: seq<Event>, s: State)
    requires OnlyReports(t, es) && Run(t, Initial(t), es, s)
    ensures Shaped(t, s) && Run(t, Initial(t), es + [DispatchErrs], AfterDispatch(t, s))
  {
    ReportsAreListedInReverse(t, es, s);
    ExtendRun(t, Initial(t), es, s, DispatchErrs, AfterDispatch(t, s));
  }

  function Told(es: seq<nat>): seq<Notification> {
    seq(|es|, i requires 0 <= i < |es| => Notification(es[i], true))
  }

  /** The errors that a callback with these filters is told of, in order. */
  ghost function Kept(t: Table, filters: seq<Filter>, errors: seq<nat>): (r: seq<nat>)
    requires Within(errors, |t.errs|)
    ensures Within(r, |t.errs|)
  {
    if errors == [] then []
    else
      var rest := Kept(t, filters, errors[..|errors| - 1]);
      if Matches(filters, t.errs[Last(errors)]) then rest + [Last(errors)] else rest
  }

  /** Without filters that is all of them. */
  lemma {:induction false} UnfilteredKeepsAll(t: Table, filters: seq<Filter>, errors: seq<nat>)
    requires Within(errors, |t.errs|) && Effective(filters) == []
    ensures Kept(t, filters, errors) == errors
  {
    if errors != [] {
      UnfilteredKeepsAll(t, filters, errors[..|errors| - 1]);
      assert errors == errors[..|errors| - 1] + [Last(errors)];
    }
  }

  lemma KeptGrows(t: Table, filters: seq<Filter>, errors: seq<nat>, e: nat)
    requires Within(errors, |t.errs|) && e < |t.errs|
    ensures Within(errors + [e], |t.errs|)
    ensures Kept(t, filters, errors + [e]) ==
            Kept(t, filters, errors) + if Matches(filters, t.errs[e]) then [e] else []
  {
    assert (errors + [e])[..|errors|] == errors;
  }

  lemma {:induction false} KeptSplits(t: Table, filters: seq<Filter>, first: seq<nat>, more: seq<nat>)
    requires Within(first, |t.errs|) && Within(more, |t.errs|)
    ensures Within(first + more, |t.errs|)
    ensures Kept(t, filters, first + more) == Kept(t, filters, first) + Kept(t, filters, more)
  {
    if more == [] {
      assert first + more == first;
    } else {
      var front, e := more[..|more| - 1], Last(more);
      KeptSplits(t, filters, first, front);
      KeptGrows(t, filters, first + front, e);
      assert first + more == (first + front) + [e];
    }
  }

  lemma {:induction false} KeptReverses(t: Table, filters: seq<Filter>, errors: seq<nat>)
    requires Within(errors, |t.errs|)
    ensures Within(Reverse(errors), |t.errs|)
    ensures Kept(t, filters, Reverse(errors)) == Reverse(Kept(t, filters, errors))
  {
    if errors != [] {
      var front, e := errors[..|errors| - 1], Last(errors);
      KeptReverses(t, filters, front);
      KeptSplits(t, filters, [e], Reverse(front));
      KeptGrows(t, filters, [], e);
      assert [] + [e] == [e];
      ReverseGrows(Kept(t, filters, front), e, []);
      assert [e] + Reverse(Kept(t, filters, front)) == Reverse(Kept(t, filters, front) + [e]);
    }
  }

  lemma {:induction false} KeptIsExact(t: Table, filters: seq<Filter>, errors: seq<nat>)
    requires Within(errors, |t.errs|)
    ensures forall e :: e in Kept(t, filters, errors) <==>
              e in errors && e < |t.errs| && Matches(filters, t.errs[e])
    ensures NoDuplicates(errors) ==> NoDuplicates(Kept(t, filters, errors))
  {
    if errors != [] {
      var front := errors[..|errors| - 1];
      assert errors == front + [Last(errors)];
      KeptIsExact(t, filters, front);
    }
  }

  lemma {:induction false} IsToldKept(t: Table, notified: seq<seq<Notification>>, errors: seq<nat>, b: nat)
    requires Within(errors, |t.errs|) && b < |notified| == |t.callbacks| && notified[b] == []
    ensures NotifyAll(t, notified, errors)[b] == Told(Kept(t, t.callbacks[b], errors))
  {
    if errors != [] {
      var front := errors[..|errors| - 1];
      IsToldKept(t, notified, front, b);
      var kept := Kept(t, t.callbacks[b], front);
      assert Told(kept + [Last(errors)]) == Told(kept) + [Notification(Last(errors), true)];
    }
  }

  lemma HalvesAreWithin(reported: seq<nat>, untouched: seq<nat>, n: nat)
    requires Within(Reverse(reported) + untouched, n)
    ensures Within(reported, n) && Within(untouched, n) && Within(Reverse(reported), n)
  {
    var all := Reverse(reported) + untouched;
    ReverseIsExact(reported);
    forall i | 0 <= i < |untouched|
      ensures untouched[i] < n
    {
      assert untouched[i] == all[|reported| + i];
    }
    forall i | 0 <= i < |reported|
      ensures reported[i] < n && Reverse(reported)[i] < n
    {
      ReverseAt(reported, |reported| - 1 - i);
      assert all[|reported| - 1 - i] == reported[i] && all[i] == Reverse(reported)[i];
    }
  }

  /**
   The dispatch replays reports backwards: of the errors that match its filters, a callback is told
   the reported ones latest first, and the ones set from the start last.
   */
  lemma DispatchIsBackwards(t: Table, es: seq<Event>, s: State, b: nat)
    requires OnlyReports(t, es) && Run(t, Initial(t), es + [DispatchErrs], s) && b < |t.callbacks|
    ensures |s.notified| == |t.callbacks|
    ensures Within(Reported(t, es), |t.errs|) && Within(Untouched(t, es), |t.errs|)
    ensures
      var reported := Kept(t, t.callbacks[b], Reported(t, es));
      var untouched := Kept(t, t.callbacks[b], Untouched(t, es));
      && s.notified[b] == Told(Reverse(reported) + untouched)
      && NoDuplicates(Reverse(reported) + untouched)
  {
    var all := es + [DispatchErrs];
    assert all[..|all| - 1] == es && Last(all) == DispatchErrs;
    var u :| Run(t, Initial(t), all[..|all| - 1], u) && Step(t, u, Last(all), s);
    ReportsAreListedInReverse(t, es, u);
    HalvesAreWithin(Reported(t, es), Untouched(t, es), |t.errs|);
    IsToldKept(t, u.notified, u.errors, b);
    KeptSplits(t, t.callbacks[b], Reverse(Reported(t, es)), Untouched(t, es));
    KeptReverses(t, t.callbacks[b], Reported(t, es));
    KeptIsExact(t, t.callbacks[b], u.errors);
  }

  /**
   The documentation has the errors set from the start processed first, and then the reported ones in
   the order of their reports. After any reports, a callback is told so exactly if, of the set errors
   that match its filters, none was reported, or one was and none is left from the start.
   */
  lemma DocumentedOrderCondition(t: Table, es: seq<Event>, s: State, b: nat)
    requires OnlyReports(t, es) && Run(t, Initial(t), es + [DispatchErrs], s) && b < |t.callbacks|
    ensures b < |s.notified|
    ensures Within(Reported(t, es), |t.errs|) && Within(Untouched(t, es), |t.errs|)
    ensures
      var reported := Kept(t, t.callbacks[b], Reported(t, es));
      var first, told := |Kept(t, t.callbacks[b], Untouched(t, es))|, s.notified[b];
      && |told| == first + |reported|
      && (told[first..] == Told(reported) <==> reported == [] || (|reported| == 1 && first == 0))
  {
    DispatchIsBackwards(t, es, s, b);
    OrderOfHalves(Kept(t, t.callbacks[b], Reported(t, es)), Kept(t, t.callbacks[b], Untouched(t, es)));
  }

  lemma OrderOfHalves(reported: seq<nat>, untouched: seq<nat>)
    requires NoDuplicates(Reverse(reported) + untouched)
    ensures |Reverse(reported)| == |reported|
    ensures Told(Reverse(reported) + untouched)[|untouched|..] == Told(reported)
            <==> reported == [] || (|reported| == 1 && untouched == [])
  {
    ReverseIsExact(reported);
    HalvesHaveNoDuplicates(reported, untouched);
    if reported != [] {
      var n := |reported|;
      ReverseAt(reported, 0);
      var told := Told(Reverse(reported) + untouched)[|untouched|..];
      if untouched != [] {
        assert Last(untouched) in untouched && reported[n - 1] in reported;
        assert told[n - 1].err == Last(untouched) != Told(reported)[n - 1].err;
      } else if n > 1 {
        assert told[0].err == reported[n - 1] != reported[0] == Told(reported)[0].err;
      } else {
        assert told == Told(Reverse(reported)) && Reverse(reported) == reported;
      }
    }
  }
}
