/**
 Telemetry (subsys/telemetry/telemetry.c, include/nturt/telemetry.h): data and aliases found by
 address, and groups that aggregate and publish several of them.
 */
module Telemetry {
  import opened Types
  import Aggregation

  type Word = int

  datatype Kind = Normal | Alias(target: nat)

  datatype DataDef = DataDef(addr: nat, kind: Kind)

  /** `datas` are indices into the data table, one for each member of the aggregation. */
  datatype GroupDef = GroupDef(config: Aggregation.Config, datas: seq<nat>)

  /** Place `index` of group `group`. */
  datatype Slot = Slot(group: nat, index: nat)

  /** The linked tables of data and groups. */
  datatype Table = Table(datas: seq<DataDef>, groups: seq<GroupDef>) {

    /** What the static definitions and the assertions of initialisation demand. */
    ghost predicate Valid() {
      && (forall d :: 0 <= d < |datas| && datas[d].kind.Alias? ==>
            datas[d].kind.target < |datas| && datas[datas[d].kind.target].kind.Normal?)
      && (forall d, e :: 0 <= d < e < |datas| ==> datas[d].addr != datas[e].addr)
      && (forall g :: 0 <= g < |groups| ==>
            && |groups[g].datas| == |groups[g].config.members|
            && forall d :: d in groups[g].datas ==> d < |datas|)
    }

    predicate IsSlot(s: Slot) {
      s.group < |groups| && s.index < |groups[s.group].datas|
    }

    /** The datum behind an entry: the entry itself, or what it is an alias of. */
    function Resolve(d: nat): (r: nat)
      requires Valid() && d < |datas|
      ensures r < |datas| && datas[r].kind.Normal?
    {
      match datas[d].kind
      case Normal => d
      case Alias(target) => target
    }

    function DataOf(s: Slot): nat
      requires Valid() && IsSlot(s)
    {
      assert groups[s.group].datas[s.index] in groups[s.group].datas;
      Resolve(groups[s.group].datas[s.index])
    }

    /** The address a slot is published under: that of the alias, if it holds one. */
    function AddressOf(s: Slot): nat
      requires Valid() && IsSlot(s)
    {
      assert groups[s.group].datas[s.index] in groups[s.group].datas;
      datas[groups[s.group].datas[s.index]].addr
    }

    /** All slots of the groups before `g` and the first `i` slots of group `g`, in order. */
    function SlotsBefore(g: nat, i: nat): seq<Slot>
      requires g <= |groups| && i <= if g < |groups| then |groups[g].datas| else 0
      decreases g, i
    {
      if i > 0 then SlotsBefore(g, i - 1) + [Slot(g, i - 1)]
      else if g > 0 then SlotsBefore(g - 1, |groups[g - 1].datas|)
      else []
    }

    function AllSlots(): seq<Slot> {
      SlotsBefore(|groups|, 0)
    }

    /** Those of `slots` that resolve to datum `d`, in order. */
    function Holding(d: nat, slots: seq<Slot>): seq<Slot>
      requires Valid() && forall s :: s in slots ==> IsSlot(s)
    {
      if slots == [] then []
      else
        var rest := Holding(d, slots[..|slots| - 1]);
        if DataOf(Last(slots)) == d then rest + [Last(slots)] else rest
    }
  }

  /** `lists[d]` holds exactly the slots that resolve to `d`, each of them once. */
  ghost predicate IsReverseIndex(t: Table, lists: seq<seq<Slot>>)
    requires t.Valid()
  {
    && |lists| == |t.datas|
    && forall d :: 0 <= d < |lists| ==>
         && NoDuplicates(lists[d])
         && forall s :: s in lists[d] <==> t.IsSlot(s) && t.DataOf(s) == d
  }

  /** Entry `d` of the data table is datum `e` itself, or an alias of it. */
  predicate StandsFor(t: Table, d: nat, e: nat) {
    d < |t.datas| && if t.datas[d].kind.Alias? then t.datas[d].kind.target == e else d == e
  }

  /** Every entry stands for exactly one datum. */
  lemma EntryStandsForOne(t: Table, d: nat)
    requires t.Valid() && d < |t.datas|
    ensures exists e: nat :: e < |t.datas| && StandsFor(t, d, e) && t.datas[e].kind.Normal?
    ensures forall e: nat, f: nat :: StandsFor(t, d, e) && StandsFor(t, d, f) ==> e == f
  {
    assert StandsFor(t, d, t.Resolve(d));
  }

  /** The list of a datum holds a slot exactly if the slot's own entry is the datum or an alias of it. */
  lemma ListsHoldWhatStandsFor(t: Table, lists: seq<seq<Slot>>, e: nat, g: nat, i: nat)
    requires t.Valid() && IsReverseIndex(t, lists) && e < |t.datas|
    ensures Slot(g, i) in lists[e] <==>
              g < |t.groups| && i < |t.groups[g].datas| && StandsFor(t, t.groups[g].datas[i], e)
  {
    if g < |t.groups| && i < |t.groups[g].datas| {
      assert t.groups[g].datas[i] in t.groups[g].datas;
    }
  }

  // ----- the lists built by initialisation

  lemma {:induction false} SlotsBeforeAreOrdered(t: Table, g: nat, i: nat)
    requires g <= |t.groups| && i <= if g < |t.groups| then |t.groups[g].datas| else 0
    ensures forall s :: s in t.SlotsBefore(g, i) <==>
              t.IsSlot(s) && (s.group < g || (s.group == g && s.index < i))
    ensures NoDuplicates(t.SlotsBefore(g, i))
    decreases g, i
  {
    if i > 0 {
      SlotsBeforeAreOrdered(t, g, i - 1);
      assert Slot(g, i - 1) !in t.SlotsBefore(g, i - 1);
    } else if g > 0 {
      SlotsBeforeAreOrdered(t, g - 1, |t.groups[g - 1].datas|);
    }
  }

  lemma {:induction false} HoldingIsExact(t: Table, d: nat, slots: seq<Slot>)
    requires t.Valid() && forall s :: s in slots ==> t.IsSlot(s)
    requires NoDuplicates(slots)
    ensures forall s :: s in t.Holding(d, slots) <==> s in slots && t.DataOf(s) == d
    ensures NoDuplicates(t.Holding(d, slots))
  {
    if slots != [] {
      var front := slots[..|slots| - 1];
      assert slots == front + [Last(slots)];
      HoldingIsExact(t, d, front);
    }
  }

  /** The notifications one update makes, as seen by each aggregation. */
  function Notified(t: Table, aggs: seq<Aggregation.State>, slots: seq<Slot>): (r: seq<Aggregation.State>)
    requires t.Valid() && |aggs| == |t.groups| && forall s :: s in slots ==> t.IsSlot(s)
    ensures |r| == |aggs|
  {
    if slots == [] then aggs
    else
      var s := Last(slots);
      assert s == slots[|slots| - 1] && t.IsSlot(s);
      var before := Notified(t, aggs, slots[..|slots| - 1]);
      before[s.group := Aggregation.AfterUpdate(t.groups[s.group].config, before[s.group], s.index)]
  }

  /** What a copy makes of the buffers of a group. */
  function Published(t: Table, data: seq<Word>, g: nat): seq<Word>
    requires t.Valid() && g < |t.groups| && |data| == |t.datas|
  {
    seq(|t.groups[g].datas|, i requires 0 <= i < |t.groups[g].datas| => data[t.DataOf(Slot(g, i))])
  }

  datatype Message = Message(addr: nat, value: Word)

  class Store {
    const table: Table
    var addresses: map<nat, nat>
    var lists: seq<seq<Slot>>
    var data: seq<Word>
    var pubData: seq<seq<Word>>
    var aggs: seq<Aggregation.State>

    ghost predicate Valid()
      reads this
    {
      && table.Valid()
      && (forall a :: a in addresses ==> addresses[a] < |table.datas| && table.datas[addresses[a]].addr == a)
      && (forall d :: 0 <= d < |table.datas| ==>
            table.datas[d].addr in addresses && addresses[table.datas[d].addr] == d)
      && IsReverseIndex(table, lists)
      && |data| == |table.datas|
      && |aggs| == |pubData| == |table.groups|
      && (forall g :: 0 <= g < |pubData| ==> |pubData[g]| == |table.groups[g].datas|)
    }

    /** Static initialisation followed by `init`. */
    constructor (table: Table)
      requires table.Valid()
      ensures Valid() && this.table == table
      ensures data == seq(|table.datas|, _ => 0)
      ensures aggs == seq(|table.groups|, _ => Aggregation.INITIAL)
    {
      this.table := table;
      data := seq(|table.datas|, _ => 0);
      aggs := seq(|table.groups|, _ => Aggregation.INITIAL);
      pubData := seq(|table.groups|,
                     g requires 0 <= g < |table.groups| => seq(|table.groups[g].datas|, _ => 0));
      addresses := map[];
      lists := [];
      new;
      IndexAddresses();
      BuildLists();
    }

    method IndexAddresses()
      requires table.Valid()
      modifies this`addresses
      ensures forall a :: a in addresses ==> addresses[a] < |table.datas| && table.datas[addresses[a]].addr == a
      ensures forall d :: 0 <= d < |table.datas| ==>
                table.datas[d].addr in addresses && addresses[table.datas[d].addr] == d
    {
      addresses := map[];
      for i := 0 to |table.datas|
        invariant forall a :: a in addresses ==> addresses[a] < i && table.datas[addresses[a]].addr == a
        invariant forall d :: 0 <= d < i ==>
                    table.datas[d].addr in addresses && addresses[table.datas[d].addr] == d
      {
        addresses := addresses[table.datas[i].addr := i];
      }
    }

    method BuildLists()
      requires table.Valid()
      modifies this`lists
      ensures IsReverseIndex(table, lists)
    {
      lists := seq(|table.datas|, _ => []);
      for g := 0 to |table.groups|
        invariant |lists| == |table.datas|
        invariant forall s :: s in table.SlotsBefore(g, 0) ==> table.IsSlot(s)
        invariant forall d :: 0 <= d < |lists| ==> lists[d] == table.Holding(d, table.SlotsBefore(g, 0))
      {
        for i := 0 to |table.groups[g].datas|
          invariant |lists| == |table.datas|
          invariant forall s :: s in table.SlotsBefore(g, i) ==> table.IsSlot(s)
          invariant forall d :: 0 <= d < |lists| ==> lists[d] == table.Holding(d, table.SlotsBefore(g, i))
        {
          var slots := table.SlotsBefore(g, i + 1);
          assert slots[..|slots| - 1] == table.SlotsBefore(g, i);
          assert table.groups[g].datas[i] in table.groups[g].datas;
          var d := table.groups[g].datas[i];
          if table.datas[d].kind.Alias? {
            d := table.datas[d].kind.target;
          }
          lists := lists[d := lists[d] + [Slot(g, i)]];
        }
      }
      SlotsBeforeAreOrdered(table, |table.groups|, 0);
      forall d | 0 <= d < |lists|
        ensures NoDuplicates(lists[d])
        ensures forall s :: s in lists[d] <==> table.IsSlot(s) && table.DataOf(s) == d
      {
        HoldingIsExact(table, d, table.AllSlots());
      }
    }

    /** Reads the datum at an address, or None for -ENOENT. */
    method DataGet(addr: nat) returns (value: Option<Word>)
      requires Valid()
      ensures value.Some? <==> exists d :: 0 <= d < |table.datas| && table.datas[d].addr == addr
      ensures forall d :: 0 <= d < |table.datas| && table.datas[d].addr == addr ==>
                value == Some(data[table.Resolve(d)])
    {
      if addr !in addresses {
        return None;
      }
      assert table.datas[addresses[addr]].addr == addr;
      var d := addresses[addr];
      if !table.datas[d].kind.Normal? {
        d := table.datas[d].kind.target;
      }
      value := Some(data[d]);
    }

    /** Writes the datum at an address and notifies the groups that hold it; false for -ENOENT. */
    method DataUpdate(addr: nat, value: Word) returns (found: bool)
      requires Valid()
      modifies this`data, this`aggs
      ensures Valid()
      ensures found <==> exists d :: 0 <= d < |table.datas| && table.datas[d].addr == addr
      ensures !found ==> data == old(data) && aggs == old(aggs)
      ensures forall d :: 0 <= d < |table.datas| && table.datas[d].addr == addr ==>
                && data == old(data)[table.Resolve(d) := value]
                && aggs == Notified(table, old(aggs), lists[table.Resolve(d)])
    {
      if addr !in addresses {
        return false;
      }
      assert table.datas[addresses[addr]].addr == addr;
      var d := addresses[addr];
      if !table.datas[d].kind.Normal? {
        d := table.datas[d].kind.target;
      }
      data := data[d := value];
      NotifyLock(d);
      found := true;
    }

    method NotifyLock(d: nat)
      requires Valid() && d < |table.datas|
      modifies this`aggs
      ensures aggs == Notified(table, old(aggs), lists[d])
    {
      var list := lists[d];
      for k := 0 to |list|
        invariant |aggs| == |table.groups|
        invariant aggs == Notified(table, old(aggs), list[..k])
      {
        var s := list[k];
        assert s in lists[d];
        assert list[..k + 1][..k] == list[..k];
        aggs := aggs[s.group := Aggregation.AfterUpdate(table.groups[s.group].config, aggs[s.group], s.index)];
      }
      assert list[..|list|] == list;
    }

    /** Copies a group's data to its publishing buffers, then publishes each under its own address. */
    method PublishGroup(g: nat) returns (messages: seq<Message>)
      requires Valid() && g < |table.groups|
      modifies this`pubData
      ensures Valid()
      ensures pubData == old(pubData)[g := Published(table, data, g)]
      ensures |messages| == |table.groups[g].datas|
      ensures forall i :: 0 <= i < |messages| ==>
                messages[i] == Message(table.AddressOf(Slot(g, i)), data[table.DataOf(Slot(g, i))])
    {
      var n := |table.groups[g].datas|;
      for i := 0 to n
        invariant Valid()
        invariant pubData == old(pubData)[g := pubData[g]]
        invariant forall j :: 0 <= j < i ==> pubData[g][j] == data[table.DataOf(Slot(g, j))]
      {
        var d := table.groups[g].datas[i];
        assert d in table.groups[g].datas;
        if table.datas[d].kind.Alias? {
          d := table.datas[d].kind.target;
        }
        pubData := pubData[g := pubData[g][i := data[d]]];
      }
      assert pubData[g] == Published(table, data, g);
      messages := [];
      for i := 0 to n
        invariant |messages| == i
        invariant forall j :: 0 <= j < i ==>
                    messages[j] == Message(table.AddressOf(Slot(g, j)), pubData[g][j])
      {
        assert table.groups[g].datas[i] in table.groups[g].datas;
        messages := messages + [Message(table.datas[table.groups[g].datas[i]].addr, pubData[g][i])];
      }
    }
  }

  /** Writing through one address and reading through another of the same datum. */
  method UpdateThenGet(store: Store, d: nat, e: nat, value: Word) returns (read: Option<Word>)
    requires store.Valid() && d < |store.table.datas| && e < |store.table.datas|
    modifies store`data, store`aggs
    ensures store.table.Resolve(d) == store.table.Resolve(e) ==> read == Some(value)
    ensures store.table.Resolve(d) != store.table.Resolve(e) ==> read == Some(old(store.data)[store.table.Resolve(e)])
  {
    var _ := store.DataUpdate(store.table.datas[d].addr, value);
    read := store.DataGet(store.table.datas[e].addr);
  }

  /**
   Publishing after an update: slot `i`, whose entry stands for datum `e`, publishes the new value
   under the address of its entry if the updated entry stands for the same datum, and what the datum
   was before otherwise. An update through the entry itself, or through what it is an alias of, is of
   the first kind.
   */
  method UpdateThenPublish(store: Store, d: nat, value: Word, g: nat, ghost i: nat, ghost e: nat)
      returns (messages: seq<Message>)
    requires store.Valid() && d < |store.table.datas| && g < |store.table.groups|
    requires i < |store.table.groups[g].datas| && e < |store.table.datas|
    requires StandsFor(store.table, store.table.groups[g].datas[i], e)
    modifies store`data, store`aggs, store`pubData
    ensures
      var t, entry := store.table, store.table.groups[g].datas[i];
      && i < |messages| == |t.groups[g].datas| && entry < |t.datas|
      && messages[i].addr == t.datas[entry].addr
      && messages[i].value == (if StandsFor(t, d, e) then value else old(store.data)[e])
      && (d == entry || t.datas[entry].kind == Alias(d) ==> messages[i].value == value)
  {
    ghost var t := store.table;
    ghost var entry := t.groups[g].datas[i];
    assert entry in t.groups[g].datas;
    assert t.DataOf(Slot(g, i)) == e && t.AddressOf(Slot(g, i)) == t.datas[entry].addr;
    var _ := store.DataUpdate(store.table.datas[d].addr, value);
    assert t.Resolve(d) == e <==> StandsFor(t, d, e);
    messages := store.PublishGroup(g);
  }

  /** And the update signals exactly the slots whose entries stand for the same datum. */
  lemma UpdateSignalsWhatStandsFor(t: Table, lists: seq<seq<Slot>>, d: nat, e: nat, g: nat, i: nat)
    requires t.Valid() && IsReverseIndex(t, lists) && StandsFor(t, d, e) && e < |t.datas|
    ensures Slot(g, i) in lists[t.Resolve(d)] <==>
              g < |t.groups| && i < |t.groups[g].datas| && StandsFor(t, t.groups[g].datas[i], e)
  {
    ListsHoldWhatStandsFor(t, lists, e, g, i);
  }
}
