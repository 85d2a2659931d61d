/**
 The seven-segment display (drivers/auxdisplay/gpio-seg-display/gpio_seg_display.c) with its segments
 on pins of a shift-register chain. Its ports are the register buffers of the chain.
 */
module SegDisplay {
  import opened Types
  import opened SegText
  import opened ShiftRegister

  const EINVAL := 22

  datatype Pin = Pin(port: nat, pin: nat)

  /** Segment `j` of digit `i`. */
  datatype Seg = Seg(i: nat, j: nat)

  /** `pins[i][j]` is the pin of segment `j` of digit `i`. */
  datatype Config = Config(n: nat, points: bool, pins: seq<seq<Pin>>) {

    /** Segments of each digit. */
    function Size(): nat {
      if points then 8 else 7
    }

    predicate Shaped() {
      0 < n == |pins| && forall i :: 0 <= i < n ==> |pins[i]| == Size()
    }

    predicate Has(s: Seg) {
      s.i < n && s.j < Size()
    }

    function Of(s: Seg): Pin
      requires Shaped() && Has(s)
    {
      pins[s.i][s.j]
    }

    /** The first `i` digits, and the first `j` segments of the next one. */
    function Before(i: nat, j: nat): set<Seg> {
      set x: nat, y: nat | x <= i && y < Size() && x < n && (x < i || y < j) :: Seg(x, y)
    }

    function All(): set<Seg> {
      Before(n, 0)
    }

    function PortsOf(segs: set<Seg>): set<nat>
      requires Shaped() && forall s :: s in segs ==> Has(s)
    {
      set s | s in segs :: Of(s).port
    }

    function Ports(): set<nat>
      requires Shaped()
    {
      PortsOf(All())
    }

    /** Each segment is on a pin of a register. */
    ghost predicate IsWired(registers: nat) {
      && Shaped()
      && (forall s :: Has(s) ==> Of(s).port < registers && Of(s).pin < 8)
    }

    /** The table of ports, of 8 entries for each digit, has none left to mark its end. */
    predicate FillsTable()
      requires Shaped()
    {
      |Ports()| == 8 * n
    }

    /** How many segments there are before segment `j` of digit `i`. */
    function CountBefore(i: nat, j: nat): nat {
      (if points then 8 * i else 7 * i) + j
    }

    ghost predicate HasOwnPins()
      requires Shaped()
    {
      forall s, t :: Has(s) && Has(t) && s != t ==> Of(s) != Of(t)
    }
  }

  /** One entry of the table of ports; unused while it has no port. */
  datatype Entry = Entry(port: Option<nat>, mask: Pins, value: Pins)

  const UNUSED := Entry(None, {}, {})

  // ----- the table of ports

  /** The first `used` entries have ports, all different; the others are free. */
  predicate AreInterned(entries: seq<Entry>, used: nat) {
    && used <= |entries|
    && (forall k :: 0 <= k < used ==> entries[k].port.Some?)
    && (forall k :: used <= k < |entries| ==> entries[k] == UNUSED)
    && (forall k, l :: 0 <= k < l < used ==> entries[k].port != entries[l].port)
  }

  /** The segments of `done` can be found through `index`. */
  ghost predicate AreEntered(c: Config, entries: seq<Entry>, used: nat, index: map<Seg, nat>, done: set<Seg>)
    requires c.Shaped() && used <= |entries|
  {
    forall s :: s in done ==>
      && c.Has(s) && s in index && index[s] < used
      && entries[index[s]].port == Some(c.Of(s).port)
      && c.Of(s).pin in entries[index[s]].mask
  }

  ghost predicate UsesPort(c: Config, done: set<Seg>, port: nat)
    requires c.Shaped()
  {
    exists s :: s in done && c.Has(s) && c.Of(s).port == port
  }

  ghost predicate UsesPin(c: Config, done: set<Seg>, pin: Pin)
    requires c.Shaped()
  {
    exists s :: s in done && c.Has(s) && c.Of(s) == pin
  }

  /** No entry has a port or a pin but those of the segments of `done`. */
  ghost predicate AreExact(c: Config, entries: seq<Entry>, used: nat, done: set<Seg>)
    requires c.Shaped() && AreInterned(entries, used)
  {
    && (forall k {:trigger UsesPort(c, done, entries[k].port.value)} :: 0 <= k < used ==>
          UsesPort(c, done, entries[k].port.value))
    && (forall k, p {:trigger UsesPin(c, done, Pin(entries[k].port.value, p))} ::
          0 <= k < used && p in entries[k].mask ==> UsesPin(c, done, Pin(entries[k].port.value, p)))
  }

  /** The segments of `done` are entered in the table, and nothing else is. */
  ghost predicate IsTable(c: Config, entries: seq<Entry>, used: nat, index: map<Seg, nat>, done: set<Seg>) {
    && c.Shaped()
    && AreInterned(entries, used)
    && AreEntered(c, entries, used, index, done)
    && AreExact(c, entries, used, done)
  }

  lemma {:induction false} DistinctElementsFit(s: seq<nat>, S: set<nat>)
    requires NoDuplicates(s) && forall i :: 0 <= i < |s| ==> s[i] in S
    ensures |s| <= |S|
  {
    if s != [] {
      var k := |s| - 1;
      DistinctElementsFit(s[..k], S - {s[k]});
    }
  }

  /** There are no more entries than ports. */
  lemma TableFits(c: Config, entries: seq<Entry>, used: nat, done: set<Seg>)
    requires c.Shaped() && AreInterned(entries, used) && AreExact(c, entries, used, done) && done <= c.All()
    ensures used <= |c.Ports()|
  {
    var ports := seq(used, k requires 0 <= k < used => entries[k].port.value);
    forall k | 0 <= k < used
      ensures ports[k] in c.Ports()
    {
      assert UsesPort(c, done, entries[k].port.value);
    }
    DistinctElementsFit(ports, c.Ports());
  }

  /** Once all segments are entered, there are just as many. */
  lemma TableIsExact(c: Config, entries: seq<Entry>, used: nat, index: map<Seg, nat>)
    requires IsTable(c, entries, used, index, c.All())
    ensures used == |c.Ports()|
  {
    TableFits(c, entries, used, c.All());
    var ports := set k | 0 <= k < used :: entries[k].port.value;
    forall port | port in c.Ports()
      ensures port in ports
    {
      var s :| s in c.All() && c.Of(s).port == port;
      assert entries[index[s]].port == Some(port);
    }
    ImageIsNoLarger(entries, used, ports);
    SubsetIsNoLarger(c.Ports(), ports);
  }

  lemma {:induction false} ImageIsNoLarger(entries: seq<Entry>, used: nat, ports: set<nat>)
    requires used <= |entries| && forall k :: 0 <= k < used ==> entries[k].port.Some?
    requires ports == set k | 0 <= k < used :: entries[k].port.value
    ensures |ports| <= used
  {
    if used > 0 {
      var fewer := set k | 0 <= k < used - 1 :: entries[k].port.value;
      ImageIsNoLarger(entries, used - 1, fewer);
      assert ports == fewer + {entries[used - 1].port.value};
    }
  }

  lemma {:induction false} SubsetIsNoLarger(a: set<nat>, b: set<nat>)
    requires a <= b
    ensures |a| <= |b|
  {
    if x :| x in a {
      SubsetIsNoLarger(a - {x}, b - {x});
    }
  }

  /** A table of all segments has a free entry exactly if their ports do not fill it. */
  lemma FreeEntryCondition(c: Config, entries: seq<Entry>, used: nat, index: map<Seg, nat>)
    requires IsTable(c, entries, used, index, c.All()) && |entries| == 8 * c.n
    ensures (exists k :: 0 <= k < |entries| && entries[k].port.None?) <==> !c.FillsTable()
  {
    TableIsExact(c, entries, used, index);
    if used < |entries| {
      assert entries[used] == UNUSED;
    }
  }

  /** No two of the segments share a port. */
  ghost predicate PortsDiffer(c: Config, segs: set<Seg>)
    requires c.Shaped() && forall s :: s in segs ==> c.Has(s)
  {
    forall s, t :: s in segs && t in segs && s != t ==> c.Of(s).port != c.Of(t).port
  }

  lemma {:induction false} PortsOfAreNoMore(c: Config, segs: set<Seg>)
    requires c.Shaped() && forall s :: s in segs ==> c.Has(s)
    ensures |c.PortsOf(segs)| <= |segs|
    ensures |c.PortsOf(segs)| == |segs| <==> PortsDiffer(c, segs)
  {
    if s :| s in segs {
      var rest := segs - {s};
      PortsOfAreNoMore(c, rest);
      assert segs == rest + {s};
      assert c.PortsOf(segs) == c.PortsOf(rest) + {c.Of(s).port};
      if c.Of(s).port in c.PortsOf(rest) {
        var t :| t in rest && c.Of(t).port == c.Of(s).port;
        assert c.PortsOf(segs) == c.PortsOf(rest) && !PortsDiffer(c, segs);
      } else {
        assert PortsDiffer(c, segs) <==> PortsDiffer(c, rest);
      }
    }
  }

  lemma {:induction false} BeforeIsCounted(c: Config, i: nat, j: nat)
    requires i <= c.n && j <= if i < c.n then c.Size() else 0
    ensures |c.Before(i, j)| == c.CountBefore(i, j)
    decreases i, j
  {
    if j > 0 {
      BeforeIsCounted(c, i, j - 1);
      BeforeGrows(c, i, j - 1);
    } else if i > 0 {
      BeforeIsCounted(c, i - 1, c.Size());
      BeforeCarries(c, i - 1);
    } else {
      assert c.Before(0, 0) == {};
    }
  }

  /** That takes decimal points, and a port of its own for every segment. */
  lemma FullTableCondition(c: Config)
    requires c.Shaped()
    ensures c.FillsTable() <==> c.points && PortsDiffer(c, c.All())
  {
    BeforeIsCounted(c, c.n, 0);
    PortsOfAreNoMore(c, c.All());
  }

  /** The pins of one digit on eight ports, and the table that initialisation makes of them. */
  const EIGHT_PORTS := Config(1, true, [seq(8, j requires 0 <= j < 8 => Pin(j, 0))])

  function EightEntries(): seq<Entry> {
    seq(8, j requires 0 <= j < 8 => Entry(Some(j), {0}, {}))
  }

  lemma EightPortsAreWired()
    ensures EIGHT_PORTS.IsWired(8) && EIGHT_PORTS.HasOwnPins() && EIGHT_PORTS.FillsTable()
    ensures forall s :: EIGHT_PORTS.Has(s) ==> s == Seg(0, s.j) && EIGHT_PORTS.Of(s) == Pin(s.j, 0)
  {
    FullTableCondition(EIGHT_PORTS);
  }

  /** A legal display whose table is full: the search for its end would not find one. */
  lemma FullTableExists()
    ensures EIGHT_PORTS.IsWired(8) && EIGHT_PORTS.HasOwnPins() && EIGHT_PORTS.FillsTable()
    ensures IsTable(EIGHT_PORTS, EightEntries(), 8, map j: nat | j < 8 :: Seg(0, j) := j, EIGHT_PORTS.All())
    ensures forall k :: 0 <= k < 8 ==> EightEntries()[k].port.Some?
  {
    var c := EIGHT_PORTS;
    EightPortsAreWired();
    forall k | 0 <= k < 8
      ensures UsesPort(c, c.All(), k) && UsesPin(c, c.All(), Pin(k, 0))
    {
      assert Seg(0, k) in c.All() && c.Of(Seg(0, k)) == Pin(k, 0);
    }
  }

  /** The segment is entered at entry `k`: its port is there already, or `k` is the first free entry. */
  function Entered(c: Config, entries: seq<Entry>, k: nat, s: Seg): seq<Entry>
    requires c.Shaped() && c.Has(s) && k < |entries|
  {
    entries[k := Entry(Some(c.Of(s).port), entries[k].mask + {c.Of(s).pin}, entries[k].value)]
  }

  lemma EnteringKeepsTable(
      c: Config, entries: seq<Entry>, used: nat, index: map<Seg, nat>, done: set<Seg>, s: Seg, k: nat)
    requires IsTable(c, entries, used, index, done) && c.Has(s) && k < |entries|
    requires (k < used && entries[k].port == Some(c.Of(s).port))
      || (k == used && forall l :: 0 <= l < used ==> entries[l].port != Some(c.Of(s).port))
    ensures IsTable(c, Entered(c, entries, k, s), if k == used then used + 1 else used, index[s := k], done + {s})
  {
    var after := Entered(c, entries, k, s);
    var used' := if k == used then used + 1 else used;
    assert AreExact(c, after, used', done + {s}) by {
      EnteringKeepsExact(c, entries, used, done, s, k);
    }
  }

  lemma MoreUses(c: Config, done: set<Seg>, s: Seg)
    requires c.Shaped() && c.Has(s)
    ensures forall port :: UsesPort(c, done, port) ==> UsesPort(c, done + {s}, port)
    ensures forall pin :: UsesPin(c, done, pin) ==> UsesPin(c, done + {s}, pin)
    ensures UsesPort(c, done + {s}, c.Of(s).port) && UsesPin(c, done + {s}, c.Of(s))
  {
    assert s in done + {s};
    forall port | UsesPort(c, done, port)
      ensures UsesPort(c, done + {s}, port)
    {
      var t :| t in done && c.Has(t) && c.Of(t).port == port;
      assert t in done + {s};
    }
    forall pin | UsesPin(c, done, pin)
      ensures UsesPin(c, done + {s}, pin)
    {
      var t :| t in done && c.Has(t) && c.Of(t) == pin;
      assert t in done + {s};
    }
  }

  lemma EnteringKeepsExact(c: Config, entries: seq<Entry>, used: nat, done: set<Seg>, s: Seg, k: nat)
    requires c.Shaped() && AreInterned(entries, used) && AreExact(c, entries, used, done) && c.Has(s) && k < |entries|
    requires (k < used && entries[k].port == Some(c.Of(s).port))
      || (k == used && forall l :: 0 <= l < used ==> entries[l].port != Some(c.Of(s).port))
    ensures AreInterned(Entered(c, entries, k, s), if k == used then used + 1 else used)
    ensures AreExact(c, Entered(c, entries, k, s), if k == used then used + 1 else used, done + {s})
  {
    MoreUses(c, done, s);
    var after := Entered(c, entries, k, s);
    var used' := if k == used then used + 1 else used;
    forall l, p | 0 <= l < used' && p in after[l].mask
      ensures UsesPin(c, done + {s}, Pin(after[l].port.value, p))
    {
      if l == k && p == c.Of(s).pin {
        assert Pin(after[l].port.value, p) == c.Of(s);
      } else {
        assert l < used && p in entries[l].mask;
      }
    }
  }

  // ----- the pins of the segments

  /** The segments of `done` have the values that `cells` asks for. */
  ghost predicate HasValues(c: Config, entries: seq<Entry>, index: map<Seg, nat>, cells: seq<Segments>, done: set<Seg>)
    requires c.Shaped() && |cells| == c.n
  {
    forall s :: s in done ==>
      && c.Has(s) && s in index && index[s] < |entries|
      && (c.Of(s).pin in entries[index[s]].value <==> s.j in cells[s.i])
  }

  function Assigned(c: Config, entries: seq<Entry>, k: nat, s: Seg, lit: bool): seq<Entry>
    requires c.Shaped() && c.Has(s) && k < |entries|
  {
    var value := entries[k].value;
    entries[k := entries[k].(value := if lit then value + {c.Of(s).pin} else value - {c.Of(s).pin})]
  }

  /** Segments with pins of their own do not disturb each other. */
  lemma AssigningKeepsValues(
      c: Config, entries: seq<Entry>, used: nat, index: map<Seg, nat>, cells: seq<Segments>, done: set<Seg>, s: Seg)
    requires IsTable(c, entries, used, index, c.All()) && |cells| == c.n && done <= c.All() && s in c.All()
    requires c.HasOwnPins() && HasValues(c, entries, index, cells, done)
    ensures IsTable(c, Assigned(c, entries, index[s], s, s.j in cells[s.i]), used, index, c.All())
    ensures HasValues(c, Assigned(c, entries, index[s], s, s.j in cells[s.i]), index, cells, done + {s})
  {
    var after := Assigned(c, entries, index[s], s, s.j in cells[s.i]);
    forall t | t in done + {s}
      ensures c.Of(t).pin in after[index[t]].value <==> t.j in cells[t.i]
    {
      if t != s && index[t] == index[s] {
        assert c.Of(t) != c.Of(s);
      }
    }
    AssigningKeepsTable(c, entries, used, index, s, s.j in cells[s.i]);
  }

  lemma AssigningKeepsTable(c: Config, entries: seq<Entry>, used: nat, index: map<Seg, nat>, s: Seg, lit: bool)
    requires IsTable(c, entries, used, index, c.All()) && s in c.All()
    ensures IsTable(c, Assigned(c, entries, index[s], s, lit), used, index, c.All())
  {
    var after := Assigned(c, entries, index[s], s, lit);
    assert forall k :: 0 <= k < |entries| ==> after[k].port == entries[k].port && after[k].mask == entries[k].mask;
    assert AreExact(c, after, used, c.All());
  }

  // ----- the outputs

  /** The ports after the first `k` entries have been written to them. */
  function PortsAfter(entries: seq<Entry>, output: seq<Pins>, k: nat): (r: seq<Pins>)
    requires k <= |entries|
    requires forall l :: 0 <= l < k ==> entries[l].port.Some? && entries[l].port.value < |output|
    ensures |r| == |output|
  {
    if k == 0 then output
    else
      var before := PortsAfter(entries, output, k - 1);
      var e := entries[k - 1];
      before[e.port.value := Masked(before[e.port.value], e.mask, e.value)]
  }

  lemma {:induction false} PortIsWrittenOnce(entries: seq<Entry>, output: seq<Pins>, k: nat, port: nat)
    requires k <= |entries| && port < |output|
    requires forall l :: 0 <= l < k ==> entries[l].port.Some? && entries[l].port.value < |output|
    requires forall l, m :: 0 <= l < m < k ==> entries[l].port != entries[m].port
    ensures forall l :: 0 <= l < k && entries[l].port == Some(port) ==>
              PortsAfter(entries, output, k)[port] == Masked(output[port], entries[l].mask, entries[l].value)
    ensures (forall l :: 0 <= l < k ==> entries[l].port != Some(port)) ==>
              PortsAfter(entries, output, k)[port] == output[port]
  {
    if k > 0 {
      PortIsWrittenOnce(entries, output, k - 1, port);
    }
  }

  /** The pins show the cells: decoding them gives the cells back. */
  ghost predicate Decodes(c: Config, output: seq<Pins>, cells: seq<Segments>)
    requires c.Shaped() && |cells| == c.n
  {
    forall s :: c.Has(s) ==> c.Of(s).port < |output| && (c.Of(s).pin in output[c.Of(s).port] <==> s.j in cells[s.i])
  }

  /** No pin but those of the segments has changed. */
  ghost predicate OtherPinsUnchanged(c: Config, before: seq<Pins>, after: seq<Pins>)
    requires c.Shaped() && |before| == |after|
  {
    forall pin: Pin :: pin.port < |before| && pin.pin < 8 && !UsesPin(c, c.All(), pin) ==>
      (pin.pin in after[pin.port] <==> pin.pin in before[pin.port])
  }

  lemma MaskedAt(old_: Pins, mask: Pins, value: Pins, pin: nat)
    requires pin < 8
    ensures pin in Masked(old_, mask, value) <==> pin in if pin in mask then value else old_
  {
    assert pin in BYTE;
  }

  lemma WrittenSegmentDecodes(
      c: Config, entries: seq<Entry>, used: nat, index: map<Seg, nat>, cells: seq<Segments>, output: seq<Pins>, s: Seg)
    requires c.IsWired(|output|) && |cells| == c.n && c.Has(s)
    requires AreInterned(entries, used) && AreEntered(c, entries, used, index, {s})
    requires HasValues(c, entries, index, cells, {s})
    requires forall l :: 0 <= l < used ==> entries[l].port.value < |output|
    ensures c.Of(s).pin in PortsAfter(entries, output, used)[c.Of(s).port] <==> s.j in cells[s.i]
  {
    assert s in {s};
    var e := entries[index[s]];
    PortIsWrittenOnce(entries, output, used, c.Of(s).port);
    assert PortsAfter(entries, output, used)[c.Of(s).port] == Masked(output[c.Of(s).port], e.mask, e.value);
    MaskedAt(output[c.Of(s).port], e.mask, e.value, c.Of(s).pin);
  }

  lemma OtherPinIsUnchanged(c: Config, entries: seq<Entry>, used: nat, done: set<Seg>, output: seq<Pins>, pin: Pin)
    requires c.Shaped() && AreInterned(entries, used) && AreExact(c, entries, used, done)
    requires forall l :: 0 <= l < used ==> entries[l].port.value < |output|
    requires pin.port < |output| && pin.pin < 8 && !UsesPin(c, done, pin)
    ensures pin.pin in PortsAfter(entries, output, used)[pin.port] <==> pin.pin in output[pin.port]
  {
    PortIsWrittenOnce(entries, output, used, pin.port);
    if k :| 0 <= k < used && entries[k].port == Some(pin.port) {
      assert pin.pin !in entries[k].mask by {
        assert Pin(entries[k].port.value, pin.pin) == pin;
      }
      MaskedAt(output[pin.port], entries[k].mask, entries[k].value, pin.pin);
    }
  }

  lemma WrittenPortsDecode(
      c: Config, entries: seq<Entry>, used: nat, index: map<Seg, nat>, cells: seq<Segments>, output: seq<Pins>)
    requires c.IsWired(|output|) && |cells| == c.n
    requires IsTable(c, entries, used, index, c.All()) && HasValues(c, entries, index, cells, c.All())
    requires forall l :: 0 <= l < used ==> entries[l].port.value < |output|
    ensures Decodes(c, PortsAfter(entries, output, used), cells)
    ensures OtherPinsUnchanged(c, output, PortsAfter(entries, output, used))
  {
    forall s | c.Has(s)
      ensures c.Of(s).pin in PortsAfter(entries, output, used)[c.Of(s).port] <==> s.j in cells[s.i]
    {
      assert s in c.All();
      WrittenSegmentDecodes(c, entries, used, index, cells, output, s);
    }
    forall pin: Pin | pin.port < |output| && pin.pin < 8 && !UsesPin(c, c.All(), pin)
      ensures pin.pin in PortsAfter(entries, output, used)[pin.port] <==> pin.pin in output[pin.port]
    {
      OtherPinIsUnchanged(c, entries, used, c.All(), output, pin);
    }
  }

  lemma BeforeGrows(c: Config, i: nat, j: nat)
    requires c.Has(Seg(i, j))
    ensures c.Before(i, j + 1) == c.Before(i, j) + {Seg(i, j)}
    ensures Seg(i, j) !in c.Before(i, j)
  {
  }

  lemma BeforeCarries(c: Config, i: nat)
    requires i < c.n
    ensures c.Before(i, c.Size()) == c.Before(i + 1, 0)
  {
  }

  lemma TablePortsExist(c: Config, entries: seq<Entry>, used: nat, index: map<Seg, nat>, done: set<Seg>, n: nat)
    requires c.IsWired(n) && IsTable(c, entries, used, index, done)
    ensures forall k :: 0 <= k < used ==> entries[k].port.value < n
  {
    forall k | 0 <= k < used
      ensures entries[k].port.value < n
    {
      assert UsesPort(c, done, entries[k].port.value);
    }
  }

  /** The ports of the first `j` segments of digit `i` are ready. */
  predicate DigitIsReady(c: Config, ready: nat -> bool, i: nat, j: nat)
    requires c.Shaped() && i < c.n && j <= c.Size()
  {
    j == 0 || (DigitIsReady(c, ready, i, j - 1) && ready(c.Of(Seg(i, j - 1)).port))
  }

  lemma {:induction false} NotReadyEarly(c: Config, ready: nat -> bool, i: nat, j: nat, n: nat)
    requires c.Shaped() && i < c.n && j < n <= c.Size() && !ready(c.Of(Seg(i, j)).port)
    ensures !DigitIsReady(c, ready, i, n)
  {
    if j + 1 < n {
      NotReadyEarly(c, ready, i, j, n - 1);
    }
  }

  /** The ports of the first `i` digits are ready. */
  predicate AreReady(c: Config, ready: nat -> bool, i: nat)
    requires c.Shaped() && i <= c.n
  {
    i == 0 || (AreReady(c, ready, i - 1) && DigitIsReady(c, ready, i - 1, c.Size()))
  }

  lemma {:induction false} NotReadyEver(c: Config, ready: nat -> bool, i: nat, n: nat)
    requires c.Shaped() && i < n <= c.n && !DigitIsReady(c, ready, i, c.Size())
    ensures !AreReady(c, ready, n)
  {
    if i + 1 < n {
      NotReadyEver(c, ready, i, n - 1);
    }
  }

  lemma EmptyTable(c: Config, entries: seq<Entry>)
    requires c.Shaped() && forall k :: 0 <= k < |entries| ==> entries[k] == UNUSED
    ensures IsTable(c, entries, 0, map[], c.Before(0, 0))
  {
    assert c.Before(0, 0) == {};
  }

  // ----- the display

  class Display {
    const config: Config
    const chain: Chain
    const gpioMap: array<Entry>
    var index: map<Seg, nat>
    ghost var used: nat

    /** What does not change once the display is constructed. */
    ghost predicate IsSetUp() {
      && config.IsWired(chain.output.Length)
      && gpioMap.Length == 8 * config.n
      && gpioMap as object != chain.output
    }

    /** Nothing is entered yet. */
    ghost predicate IsUnused()
      reads this, gpioMap
    {
      used == 0 && index == map[] && forall k :: 0 <= k < gpioMap.Length ==> gpioMap[k] == UNUSED
    }

    ghost predicate Valid()
      reads this, gpioMap, chain, chain.output
    {
      && IsSetUp()
      && chain.Valid()
      && IsTable(config, gpioMap[..], used, index, config.All())
    }

    constructor (config: Config, chain: Chain)
      requires chain.Valid() && config.IsWired(chain.output.Length)
      ensures IsSetUp() && fresh(gpioMap) && this.config == config && this.chain == chain
      ensures IsUnused()
    {
      this.config, this.chain := config, chain;
      gpioMap := new Entry[8 * config.n](_ => UNUSED);
      index := map[];
      used := 0;
    }

    /** Finds the entry of a port, or takes the first free one; the search ends at the latest there. */
    method Intern(port: nat, count: nat) returns (k: nat, count': nat)
      requires AreInterned(gpioMap[..], count) && count < gpioMap.Length
      modifies gpioMap
      ensures k <= count && count' == if k == count then count + 1 else count
      ensures if k < count then gpioMap[..] == old(gpioMap[..]) && gpioMap[k].port == Some(port)
              else
                && gpioMap[..] == old(gpioMap[..])[k := UNUSED.(port := Some(port))]
                && forall l :: 0 <= l < count ==> old(gpioMap[l].port) != Some(port)
    {
      k, count' := 0, count;
      while true
        invariant k <= count && count' == count && gpioMap[..] == old(gpioMap[..])
        invariant forall l :: 0 <= l < k ==> gpioMap[..][l].port != Some(port)
        decreases count - k
      {
        assert gpioMap[k] == gpioMap[..][k];
        if gpioMap[k].port == Some(port) {
          break;
        } else if k == count {
          gpioMap[k] := gpioMap[k].(port := Some(port));
          count' := count + 1;
          break;
        }
        k := k + 1;
      }
    }

    /** Enters one segment. */
    method Enter(s: Seg, count: nat, ghost done: set<Seg>) returns (count': nat)
      requires IsTable(config, gpioMap[..], count, index, done) && config.Has(s) && count < gpioMap.Length
      modifies gpioMap, this`index
      ensures IsTable(config, gpioMap[..], count', index, done + {s}) && count' <= count + 1
    {
      ghost var before := gpioMap[..];
      var k;
      k, count' := Intern(config.Of(s).port, count);
      gpioMap[k] := gpioMap[k].(mask := gpioMap[k].mask + {config.Of(s).pin});
      assert gpioMap[..] == Entered(config, before, k, s);
      EnteringKeepsTable(config, before, count, index, done, s, k);
      index := index[s := k];
    }

    /** Configures the pin of one segment as output, which shifts nothing out, and enters the segment. */
    method Prepare(s: Seg, count: nat, ready: bool, spi: int, ghost done: set<Seg>) returns (ret: int, count': nat)
      requires IsSetUp() && chain.Valid() && IsTable(config, gpioMap[..], count, index, done)
      requires config.Has(s) && count < gpioMap.Length
      modifies gpioMap, this`index, chain`registers, chain`isShifted, chain.output
      ensures chain.Valid() && chain.Abstract() == old(chain.Abstract())
      ensures ret == if ready then 0 else -ENODEV
      ensures ready ==> IsTable(config, gpioMap[..], count', index, done + {s}) && count' <= count + 1
    {
      if !ready {
        return -ENODEV, count;
      }
      ret := chain.Configure(config.Of(s).port, config.Of(s).pin, false, false, spi);
      count' := Enter(s, count, done);
    }

    /** Interns the ports of digit `i`. */
    method InternDigit(i: nat, count: nat, ready: nat -> bool, spi: int) returns (ret: int, count': nat)
      requires IsSetUp() && chain.Valid() && i < config.n
      requires IsTable(config, gpioMap[..], count, index, config.Before(i, 0)) && count <= config.CountBefore(i, 0)
      modifies gpioMap, this`index, chain`registers, chain`isShifted, chain.output
      ensures chain.Valid() && chain.Abstract() == old(chain.Abstract())
      ensures ret == 0 || ret == -ENODEV
      ensures ret >= 0 <==> DigitIsReady(config, ready, i, config.Size())
      ensures ret >= 0 ==>
                && IsTable(config, gpioMap[..], count', index, config.Before(i + 1, 0))
                && count' <= config.CountBefore(i + 1, 0)
    {
      ret, count' := 0, count;
      for j := 0 to config.Size()
        invariant chain.Valid() && chain.Abstract() == old(chain.Abstract()) && ret == 0
        invariant IsTable(config, gpioMap[..], count', index, config.Before(i, j))
        invariant count' <= config.CountBefore(i, j)
        invariant DigitIsReady(config, ready, i, j)
      {
        ret, count' := Prepare(Seg(i, j), count', ready(config.Of(Seg(i, j)).port), spi, config.Before(i, j));
        if ret < 0 {
          NotReadyEarly(config, ready, i, j, config.Size());
          return;
        }
        BeforeGrows(config, i, j);
      }
      BeforeCarries(config, i);
    }

    method InternDigits(ready: nat -> bool, spi: int) returns (ret: int, count: nat)
      requires IsSetUp() && chain.Valid() && IsTable(config, gpioMap[..], 0, index, config.Before(0, 0))
      modifies this`index, gpioMap, chain`registers, chain`isShifted, chain.output
      ensures chain.Valid() && chain.Abstract() == old(chain.Abstract())
      ensures ret == 0 || ret == -ENODEV
      ensures ret >= 0 <==> AreReady(config, ready, config.n)
      ensures ret >= 0 ==> IsTable(config, gpioMap[..], count, index, config.Before(config.n, 0))
    {
      ret, count := 0, 0;
      for i := 0 to config.n
        invariant chain.Valid() && chain.Abstract() == old(chain.Abstract()) && ret == 0
        invariant IsTable(config, gpioMap[..], count, index, config.Before(i, 0))
        invariant count <= config.CountBefore(i, 0)
        invariant AreReady(config, ready, i)
      {
        ret, count := InternDigit(i, count, ready, spi);
        if ret < 0 {
          NotReadyEver(config, ready, i, config.n);
          return;
        }
      }
    }

    /** Interns the ports of all segments; a port that is not ready ends it. */
    method InternPorts(ready: nat -> bool, spi: int) returns (ret: int)
      requires IsSetUp() && chain.Valid() && IsUnused()
      modifies this`index, this`used, gpioMap, chain`registers, chain`isShifted, chain.output
      ensures chain.Valid() && chain.Abstract() == old(chain.Abstract())
      ensures ret == 0 || ret == -ENODEV
      ensures ret >= 0 <==> AreReady(config, ready, config.n)
      ensures ret >= 0 ==> Valid()
    {
      EmptyTable(config, gpioMap[..]);
      ret, used := InternDigits(ready, spi);
    }

    /** Sets or clears the bit of each segment. */
    method AssignBits(cells: seq<Segments>)
      requires Valid() && config.HasOwnPins() && |cells| == config.n
      modifies gpioMap
      ensures Valid()
      ensures HasValues(config, gpioMap[..], index, cells, config.All())
    {
      for i := 0 to config.n
        invariant Valid() && HasValues(config, gpioMap[..], index, cells, config.Before(i, 0))
      {
        for j := 0 to config.Size()
          invariant Valid() && HasValues(config, gpioMap[..], index, cells, config.Before(i, j))
        {
          var s := Seg(i, j);
          assert s in config.All();
          ghost var before := gpioMap[..];
          var k, pin := index[s], config.Of(s).pin;
          if j in cells[i] {
            gpioMap[k] := gpioMap[k].(value := gpioMap[k].value + {pin});
          } else {
            gpioMap[k] := gpioMap[k].(value := gpioMap[k].value - {pin});
          }
          assert gpioMap[..] == Assigned(config, before, k, s, j in cells[i]);
          AssigningKeepsValues(config, before, used, index, cells, config.Before(i, j), s);
          BeforeGrows(config, i, j);
        }
        BeforeCarries(config, i);
      }
    }

    /** Writes the values of one port. */
    method SetGpio(e: Entry, spi: int) returns (ret: int)
      requires chain.Valid() && e.port.Some? && e.port.value < chain.output.Length
      modifies chain`registers, chain`isShifted, chain.output
      ensures chain.Valid()
      ensures ret >= 0 ==>
                var before := old(chain.output[..]);
                chain.output[..] == before[e.port.value := Masked(before[e.port.value], e.mask, e.value)]
      ensures ret < 0 ==> chain.output[..] == old(chain.output[..])
    {
      ghost var before := chain.Abstract();
      ret := chain.PortSetMaskedRaw(e.port.value, e.mask, e.value, spi);
      if ret >= 0 {
        WriteKeepsCache(before, e.port.value, Masked(before.output[e.port.value], e.mask, e.value), spi);
      }
    }

    /**
     Writes the values of all ports, up to the first free entry or the first failure. None: there is
     no free entry, and the loop has run off the table.
     */
    method WriteEntries(spi: nat -> int) returns (ret: Option<int>, ghost written: nat)
      requires chain.Valid() && gpioMap as object != chain.output
      requires AreInterned(gpioMap[..], used)
      requires forall k :: 0 <= k < used ==> gpioMap[k].port.value < chain.output.Length
      modifies chain`registers, chain`isShifted, chain.output
      ensures chain.Valid() && gpioMap[..] == old(gpioMap[..]) && written <= used
      ensures forall k :: 0 <= k < used ==> gpioMap[..][k].port.Some? && gpioMap[k].port.value < chain.output.Length
      ensures chain.output[..] == PortsAfter(gpioMap[..], old(chain.output[..]), written)
      ensures ret.None? <==> written == used == gpioMap.Length
      ensures ret.Some? ==> (ret.value >= 0 <==> written == used)
    {
      ghost var entries, output := gpioMap[..], chain.output[..];
      var i := 0;
      while i < gpioMap.Length && gpioMap[i].port.Some?
        invariant i <= used && gpioMap[..] == entries && chain.Valid()
        invariant chain.output[..] == PortsAfter(entries, output, i)
      {
        assert gpioMap[i] == entries[i];
        var status := SetGpio(gpioMap[i], spi(i));
        if status < 0 {
          return Some(status), i;
        }
        i := i + 1;
      }
      if i == gpioMap.Length {
        return None, i;
      }
      assert entries[i] == gpioMap[i];
      ret, written := Some(0), used;
    }

    /**
     A failure leaves the ports before it written, and the others as they were. The loop runs off the
     table exactly if the ports fill it and nothing fails; all of them are written then too.
     */
    method SetGpios(spi: nat -> int) returns (ret: Option<int>, ghost written: nat)
      requires Valid()
      modifies chain`registers, chain`isShifted, chain.output
      ensures Valid() && gpioMap[..] == old(gpioMap[..]) && written <= used
      ensures forall k :: 0 <= k < used ==> gpioMap[k].port.Some? && gpioMap[k].port.value < chain.output.Length
      ensures chain.output[..] == PortsAfter(gpioMap[..], old(chain.output[..]), written)
      ensures ret.None? <==> written == used && config.FillsTable()
      ensures ret.Some? ==> (ret.value >= 0 <==> written == used)
    {
      TableIsExact(config, gpioMap[..], used, index);
      TablePortsExist(config, gpioMap[..], used, index, config.All(), chain.output.Length);
      ret, written := WriteEntries(spi);
    }

    /**
     Shows a text: a bad character changes nothing, and a text that is too long is cut off. None is
     returned only if the ports fill the table.
     */
    method Write(text: seq<char>, spi: nat -> int) returns (ret: Option<int>)
      requires Valid() && config.HasOwnPins()
      modifies gpioMap, chain`registers, chain`isShifted, chain.output
      ensures Valid()
      ensures Parsed(config.n, config.points, text).None? ==>
                ret == Some(-EINVAL) && gpioMap[..] == old(gpioMap[..]) && chain.Abstract() == old(chain.Abstract())
      ensures ret.None? || ret.value >= 0 ==>
                && Parsed(config.n, config.points, text).Some?
                && |Parsed(config.n, config.points, text).value| == config.n
                && Decodes(config, chain.output[..], Parsed(config.n, config.points, text).value)
                && OtherPinsUnchanged(config, old(chain.output[..]), chain.output[..])
                && (ret.None? <==> config.FillsTable())
    {
      var cells := Parse(config.n, config.points, text);
      if cells.None? {
        return Some(-EINVAL);
      }
      AssignBits(cells.value);
      ghost var output := chain.output[..];
      ghost var written;
      ret, written := SetGpios(spi);
      if written == used {
        WrittenPortsDecode(config, gpioMap[..], used, index, cells.value, output);
      }
    }

    /** Initialisation: the ports, then a blank display. */
    method Init(ready: nat -> bool, spi: nat -> int) returns (ret: Option<int>)
      requires IsSetUp() && chain.Valid() && config.HasOwnPins() && IsUnused()
      modifies this`index, this`used, gpioMap, chain`registers, chain`isShifted, chain.output
      ensures ret.None? || ret.value >= 0 ==>
                && Valid() && Decodes(config, chain.output[..], Blank(config.n))
                && (ret.None? <==> config.FillsTable())
    {
      var status := InternPorts(ready, spi(0));
      if status < 0 {
        return Some(status);
      }
      var blank := seq(config.n, _ => Cell(' ', false));
      PrintedTextIsShown(config.n, config.points, blank);
      ret := Write(Print(blank), spi);
      assert Shown(config.n, blank) == Blank(config.n);
    }
  }

  /**
   Round trip: after cells have been printed to the display successfully, the outputs of the chain
   decode to those cells that fit, padded with blanks, and the registers hold those outputs once
   anything has been shifted out.
   */
  method ShowCells(d: Display, cells: seq<Cell>, spi: nat -> int) returns (ret: Option<int>)
    requires d.Valid() && d.config.HasOwnPins()
    requires forall i :: 0 <= i < |cells| ==> IsPrintable(d.config.points, cells[i])
    modifies d.gpioMap, d.chain`registers, d.chain`isShifted, d.chain.output
    ensures d.Valid()
    ensures ret.None? || ret.value >= 0 ==>
              forall s :: d.config.Has(s) ==>
                var pin := d.config.Of(s);
                && (pin.pin in d.chain.output[pin.port] <==> s.j in Shown(d.config.n, cells)[s.i])
                && (d.chain.isShifted ==>
                      d.chain.registers[Index(d.chain.output.Length, pin.port)] == d.chain.output[pin.port])
  {
    PrintedTextIsShown(d.config.n, d.config.points, cells);
    ret := d.Write(Print(cells), spi);
  }
}
