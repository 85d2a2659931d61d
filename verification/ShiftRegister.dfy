/**
 A chain of 74HC595 shift registers as GPIO ports (drivers/gpio/74hc595/gpio_74hc595.c). The driver
 keeps the outputs of all registers in a buffer, and shifts the whole buffer out over SPI when one
 of them changes.

 A word of pins is the set of its 1 bits; the driver only uses bitwise operations on it.
 */
module ShiftRegister {
  import opened Types

  type Pins = set<nat>

  /** The pins of one register: what is left when a word is truncated to a byte. */
  const BYTE: Pins := {0, 1, 2, 3, 4, 5, 6, 7}

  const ENODEV := 19

  /** (old & ~mask) | (mask & value), truncated to a byte. */
  function Masked(old_: Pins, mask: Pins, value: Pins): Pins {
    ((old_ - mask) + (mask * value)) * BYTE
  }

  /** old ^ pins, truncated to a byte. */
  function Toggled(old_: Pins, pins: Pins): Pins {
    ((old_ - pins) + (pins - old_)) * BYTE
  }

  /** Toggling is a masked write of the complement, and undoes itself. */
  lemma ToggleIsMaskedComplement(old_: Pins, pins: Pins)
    requires old_ <= BYTE
    ensures Toggled(old_, pins) == Masked(old_, pins, BYTE - old_)
    ensures Toggled(Toggled(old_, pins), pins) == old_
  {
    var t := Toggled(old_, pins);
    assert forall p :: p in BYTE ==> (p in Toggled(t, pins) <==> p in old_);
  }

  // ----- the hardware

  /** One byte is clocked in at the first register, and moves every other one along. */
  function ShiftIn(registers: seq<Pins>, byte: Pins): seq<Pins>
    requires registers != []
  {
    [byte] + registers[..|registers| - 1]
  }

  function ShiftAll(registers: seq<Pins>, bytes: seq<Pins>): (r: seq<Pins>)
    requires registers != []
    ensures |r| == |registers|
  {
    if bytes == [] then registers
    else ShiftIn(ShiftAll(registers, bytes[..|bytes| - 1]), Last(bytes))
  }

  /** The first byte ends up in the register that is farthest down the chain. */
  lemma {:induction false} ShiftingReverses(registers: seq<Pins>, bytes: seq<Pins>, k: nat)
    requires registers != [] && k < |bytes| <= |registers|
    ensures ShiftAll(registers, bytes)[k] == bytes[|bytes| - 1 - k]
  {
    if k > 0 {
      ShiftingReverses(registers, bytes[..|bytes| - 1], k - 1);
    }
  }

  /** Where the buffer keeps register `reg` of `n`. */
  function Index(n: nat, reg: nat): int {
    n - reg - 1
  }

  // ----- the driver

  /** `isShifted`: the outputs have ever been shifted out successfully. */
  datatype State = State(output: seq<Pins>, registers: seq<Pins>, isShifted: bool)

  datatype Result = Result(state: State, ret: int)

  /** A new chain: the buffer is clear, and the registers hold whatever they do at power-up. */
  function Unshifted(registers: seq<Pins>): State {
    State(seq(|registers|, _ => {}), registers, false)
  }

  ghost predicate Shaped(s: State) {
    0 < |s.output| == |s.registers|
  }

  /** Register for register, the chain shows what the buffer holds. */
  ghost predicate Shows(s: State)
    requires Shaped(s)
  {
    forall reg :: 0 <= reg < |s.registers| ==> s.registers[reg] == s.output[Index(|s.output|, reg)]
  }

  /** Only a change is shifted out; `spi` is what the bus returns. */
  function AfterWrite(s: State, i: nat, value: Pins, spi: int): Result
    requires i < |s.output| && s.registers != []
  {
    if s.output[i] == value then Result(s, 0)
    else if spi < 0 then Result(s, spi)
    else
      var output := s.output[i := value];
      Result(State(output, ShiftAll(s.registers, output), true), spi)
  }

  /** The first initialisation of a chain. */
  function AfterInit(s: State, ready: bool, spi: int): Result
    requires s.registers != []
  {
    if !ready then Result(s, -ENODEV)
    else if spi < 0 then Result(s, spi)
    else Result(State(s.output, ShiftAll(s.registers, s.output), true), spi)
  }

  function AfterMasked(s: State, i: nat, mask: Pins, value: Pins, spi: int): Result
    requires i < |s.output| && s.registers != []
  {
    AfterWrite(s, i, Masked(s.output[i], mask, value), spi)
  }

  /** The cache is coherent: once shifted out, the chain shows the buffer, through every write. */
  lemma WriteKeepsCache(s: State, i: nat, value: Pins, spi: int)
    requires Shaped(s) && i < |s.output| && (s.isShifted ==> Shows(s))
    ensures
      var r := AfterWrite(s, i, value, spi);
      && Shaped(r.state)
      && (r.state.isShifted ==> Shows(r.state))
      && (r.ret < 0 ==> r.state == s)
      && (r.ret >= 0 ==> r.state.output == s.output[i := value])
      && (r.ret >= 0 ==> (r.state.isShifted <==> s.isShifted || s.output[i] != value))
  {
    var t := AfterWrite(s, i, value, spi).state;
    if t != s {
      forall reg | 0 <= reg < |t.registers|
        ensures t.registers[reg] == t.output[Index(|t.output|, reg)]
      {
        ShiftingReverses(s.registers, t.output, reg);
      }
    }
  }

  /** A successful initialisation makes the chain show the buffer; a failed one changes nothing. */
  lemma InitIsShown(s: State, ready: bool, spi: int)
    requires Shaped(s)
    ensures
      var r := AfterInit(s, ready, spi);
      && (r.ret >= 0 <==> ready && spi >= 0)
      && (r.ret < 0 ==> r.state == s)
      && (r.ret >= 0 ==> Shaped(r.state) && Shows(r.state) && r.state.isShifted && r.state.output == s.output)
  {
    if ready && spi >= 0 {
      forall reg | 0 <= reg < |s.registers|
        ensures ShiftAll(s.registers, s.output)[reg] == s.output[Index(|s.output|, reg)]
      {
        ShiftingReverses(s.registers, s.output, reg);
      }
    }
  }

  /** A write fails exactly if the byte changes and the bus fails, and otherwise does what was asked for. */
  lemma WriteFailsExactly(s: State, i: nat, value: Pins, spi: int)
    requires i < |s.output| && s.registers != []
    ensures
      var r := AfterWrite(s, i, value, spi);
      && (r.ret < 0 <==> spi < 0 && value != s.output[i])
      && r.state.output == (if r.ret < 0 then s.output else s.output[i := value])
      && (r.ret < 0 ==> r.ret == spi && r.state.registers == s.registers)
  {
  }

  class Chain {
    const output: array<Pins>
    var initialized: bool
    ghost var registers: seq<Pins>
    ghost var isShifted: bool

    ghost function Abstract(): State
      reads this, output
    {
      State(output[..], registers, isShifted)
    }

    ghost predicate Valid()
      reads this, output
    {
      && 0 < output.Length == |registers|
      && (isShifted ==> Shows(Abstract()))
    }

    /** The contents of the registers are arbitrary before anything is shifted. */
    constructor (n: nat, ghost registers: seq<Pins>)
      requires 0 < n == |registers|
      ensures Valid() && fresh(output) && !initialized
      ensures Abstract() == Unshifted(registers)
    {
      output := new Pins[n](_ => {});
      initialized := false;
      this.registers, isShifted := registers, false;
      new;
      assert output[..] == seq(n, _ => {});
    }

    /** Sends the whole buffer. */
    method Shift(spi: int) returns (ret: int)
      requires 0 < output.Length == |registers|
      modifies this`registers, this`isShifted
      ensures ret == spi
      ensures spi < 0 ==> registers == old(registers) && isShifted == old(isShifted)
      ensures spi >= 0 ==> registers == ShiftAll(old(registers), output[..]) && isShifted
      ensures spi >= 0 ==> Valid()
    {
      if spi >= 0 {
        ghost var before := registers;
        registers := ShiftAll(registers, output[..]);
        isShifted := true;
        forall reg | 0 <= reg < |registers|
          ensures registers[reg] == output[..][Index(output.Length, reg)]
        {
          ShiftingReverses(before, output[..], reg);
        }
      }
      ret := spi;
    }

    /**
     Initialisation, called for each child but done once. A failure is only returned to the first
     caller, and is not made up for.
     */
    method Init(ready: bool, spi: int) returns (ret: int)
      requires Valid()
      modifies this
      ensures Valid() && initialized
      ensures old(initialized) ==> ret == 0 && Abstract() == old(Abstract())
      ensures !old(initialized) ==>
                var r := AfterInit(old(Abstract()), ready, spi);
                Abstract() == r.state && ret == r.ret
    {
      if initialized {
        return 0;
      }
      initialized := true;
      if !ready {
        return -ENODEV;
      }
      ret := Shift(spi);
    }

    method WriteOutput(i: nat, value: Pins, spi: int) returns (ret: int)
      requires Valid() && i < output.Length
      modifies this`registers, this`isShifted, output
      ensures Valid()
      ensures
        var r := AfterWrite(old(Abstract()), i, value, spi);
        Abstract() == r.state && ret == r.ret
    {
      ret := 0;
      if output[i] != value {
        var orig := output[i];
        ghost var before := output[..];
        output[i] := value;
        assert output[..] == before[i := value];
        ret := Shift(spi);
        if ret < 0 {
          output[i] := orig;
          assert output[..] == before;
        }
      }
    }

    method PortSetMaskedRaw(i: nat, mask: Pins, value: Pins, spi: int) returns (ret: int)
      requires Valid() && i < output.Length
      modifies this`registers, this`isShifted, output
      ensures Valid()
      ensures
        var r := AfterMasked(old(Abstract()), i, mask, value, spi);
        Abstract() == r.state && ret == r.ret
    {
      ret := WriteOutput(i, Masked(output[i], mask, value), spi);
    }

    method PortToggleBits(i: nat, pins: Pins, spi: int) returns (ret: int)
      requires Valid() && i < output.Length
      modifies this`registers, this`isShifted, output
      ensures Valid()
      ensures
        var r := AfterWrite(old(Abstract()), i, Toggled(old(output[i]), pins), spi);
        Abstract() == r.state && ret == r.ret
    {
      ret := WriteOutput(i, Toggled(output[i], pins), spi);
    }

    /** Configures a pin as output, with an initial level if one is asked for. */
    method Configure(i: nat, pin: nat, high: bool, low: bool, spi: int) returns (ret: int)
      requires Valid() && i < output.Length && pin < 8
      modifies this`registers, this`isShifted, output
      ensures Valid()
      ensures
        var old_ := old(output[i]);
        var r := AfterWrite(old(Abstract()), i, if high then old_ + {pin} else if low then old_ - {pin} else old_, spi);
        Abstract() == r.state && ret == r.ret
    {
      var value := output[i];
      if high {
        value := value + {pin};
      } else if low {
        value := value - {pin};
      }
      ret := WriteOutput(i, value, spi);
    }
  }

  // ----- several clients on one chain

  /** A masked write by one of the clients. */
  datatype Op = Op(client: nat, index: nat, mask: Pins, value: Pins, spi: int)

  /** `owned[c][i]` are the pins of register buffer `i` that client `c` owns. */
  ghost predicate AreOwners(owned: seq<seq<Pins>>, n: nat) {
    && (forall c :: 0 <= c < |owned| ==>
          |owned[c]| == n && forall i :: 0 <= i < n ==> owned[c][i] <= BYTE)
    && (forall c, d, i :: 0 <= c < d < |owned| && 0 <= i < n ==> owned[c][i] !! owned[d][i])
  }

  predicate StaysInside(owned: seq<seq<Pins>>, n: nat, op: Op) {
    op.client < |owned| && op.index < n == |owned[op.client]| && op.mask <= owned[op.client][op.index]
  }

  function AfterOps(s: State, ops: seq<Op>): (r: State)
    requires 0 < |s.output| == |s.registers|
    requires forall k :: 0 <= k < |ops| ==> ops[k].index < |s.output|
    ensures |r.output| == |r.registers| == |s.output|
  {
    if ops == [] then s
    else
      var op := Last(ops);
      AfterMasked(AfterOps(s, ops[..|ops| - 1]), op.index, op.mask, op.value, op.spi).state
  }

  /** What client `c` last wrote successfully to its own pins, by its own writes alone. */
  function OwnView(s: State, owned: seq<seq<Pins>>, c: nat, ops: seq<Op>): (r: seq<Pins>)
    requires 0 < |s.output| == |s.registers| && c < |owned| && |owned[c]| == |s.output|
    requires forall k :: 0 <= k < |ops| ==> ops[k].index < |s.output|
    ensures |r| == |s.output|
  {
    if ops == [] then seq(|s.output|, i requires 0 <= i < |s.output| => s.output[i] * owned[c][i])
    else
      var op, front := Last(ops), ops[..|ops| - 1];
      var view := OwnView(s, owned, c, front);
      if op.client == c && AfterMasked(AfterOps(s, front), op.index, op.mask, op.value, op.spi).ret >= 0 then
        view[op.index := (view[op.index] - op.mask) + (op.mask * op.value)]
      else
        view
  }

  /**
   However the writes of clients with disjoint pins interleave, and whichever of them fail, the pins
   of each client hold its own last successful write.
   */
  lemma {:induction false} ClientsDoNotDisturb(s: State, owned: seq<seq<Pins>>, c: nat, ops: seq<Op>, i: nat)
    requires Shaped(s) && AreOwners(owned, |s.output|) && c < |owned| && i < |s.output|
    requires forall k :: 0 <= k < |ops| ==> ops[k].index < |s.output| && StaysInside(owned, |s.output|, ops[k])
    ensures AfterOps(s, ops).output[i] * owned[c][i] == OwnView(s, owned, c, ops)[i]
  {
    if ops != [] {
      var op, front := Last(ops), ops[..|ops| - 1];
      ClientsDoNotDisturb(s, owned, c, front, i);
      assert StaysInside(owned, |s.output|, op);
      if op.index == i && op.client != c {
        assert owned[op.client][i] !! owned[c][i];
      }
    }
  }

  /** And the chain shows it, from the first successful transfer onward. */
  lemma {:induction false} OpsKeepCache(s: State, ops: seq<Op>)
    requires Shaped(s) && (s.isShifted ==> Shows(s))
    requires forall k :: 0 <= k < |ops| ==> ops[k].index < |s.output|
    ensures s.isShifted ==> AfterOps(s, ops).isShifted
    ensures Shaped(AfterOps(s, ops)) && (AfterOps(s, ops).isShifted ==> Shows(AfterOps(s, ops)))
  {
    if ops != [] {
      var op, front := Last(ops), ops[..|ops| - 1];
      OpsKeepCache(s, front);
      var t := AfterOps(s, front);
      WriteKeepsCache(t, op.index, Masked(t.output[op.index], op.mask, op.value), op.spi);
    }
  }

  // ----- a failed initialisation

  /** Operation `k` succeeds and changes the buffer, so it is shifted out. */
  predicate Transfers(s: State, ops: seq<Op>, k: nat)
    requires 0 < |s.output| == |s.registers| && k < |ops|
    requires forall l :: 0 <= l < |ops| ==> ops[l].index < |s.output|
  {
    var before := AfterOps(s, ops[..k]);
    AfterMasked(before, ops[k].index, ops[k].mask, ops[k].value, ops[k].spi).ret >= 0
    && AfterOps(s, ops[..k + 1]).output != before.output
  }

  /** Without a transfer neither the buffer nor the registers have changed. */
  lemma {:induction false} NothingIsTransferred(s: State, ops: seq<Op>)
    requires Shaped(s) && !s.isShifted && forall l :: 0 <= l < |ops| ==> ops[l].index < |s.output|
    ensures AfterOps(s, ops).isShifted <==> exists k :: 0 <= k < |ops| && Transfers(s, ops, k)
    ensures !AfterOps(s, ops).isShifted ==> AfterOps(s, ops) == s
  {
    if ops != [] {
      var n := |ops| - 1;
      var front := ops[..n];
      NothingIsTransferred(s, front);
      assert ops[..n + 1] == ops;
      forall k | 0 <= k < n
        ensures Transfers(s, ops, k) <==> Transfers(s, front, k)
      {
        assert front[..k] == ops[..k] && front[..k + 1] == ops[..k + 1];
      }
      LastTransfer(s, ops);
    }
  }

  lemma LastTransfer(s: State, ops: seq<Op>)
    requires Shaped(s) && ops != [] && forall l :: 0 <= l < |ops| ==> ops[l].index < |s.output|
    ensures
      var before, after := AfterOps(s, ops[..|ops| - 1]), AfterOps(s, ops);
      && (Transfers(s, ops, |ops| - 1) ==> after.isShifted)
      && (!Transfers(s, ops, |ops| - 1) ==> after == before)
  {
    assert ops[..|ops| - 1 + 1] == ops;
  }

  /** The state of the buffer does not depend on what the registers hold. */
  lemma {:induction false} TransfersIgnoreRegisters(s: State, registers: seq<Pins>, ops: seq<Op>)
    requires Shaped(s) && |registers| == |s.registers|
    requires forall l :: 0 <= l < |ops| ==> ops[l].index < |s.output|
    ensures AfterOps(s, ops).isShifted == AfterOps(s.(registers := registers), ops).isShifted
    ensures AfterOps(s, ops).output == AfterOps(s.(registers := registers), ops).output
  {
    if ops != [] {
      TransfersIgnoreRegisters(s, registers, ops[..|ops| - 1]);
    }
  }

  /** Registers that hold something else than the buffer. */
  function Stale(s: State): (registers: seq<Pins>)
    requires 0 < |s.output| == |s.registers|
    ensures |registers| == |s.registers|
  {
    s.registers[0 := if Last(s.output) == {} then {0} else {}]
  }

  lemma StaleIsNotShown(s: State)
    requires Shaped(s)
    ensures !Shows(s.(registers := Stale(s)))
  {
    var t := s.(registers := Stale(s));
    assert t.registers[0] != t.output[Index(|t.output|, 0)];
  }

  /** With registers that hold `held` at first, the operations make them hold what the buffer does. */
  ghost predicate ShowsFrom(s: State, held: seq<Pins>, ops: seq<Op>)
    requires Shaped(s) && forall l :: 0 <= l < |ops| ==> ops[l].index < |s.output|
    requires |held| == |s.registers|
  {
    Shows(AfterOps(s.(registers := held), ops))
  }

  /** They do so whatever the registers hold at first. */
  ghost predicate AlwaysShows(s: State, ops: seq<Op>)
    requires Shaped(s) && forall l :: 0 <= l < |ops| ==> ops[l].index < |s.output|
  {
    forall held: seq<Pins> | |held| == |s.registers| :: ShowsFrom(s, held, ops)
  }

  lemma ShownOverRegisters(s: State, held: seq<Pins>, ops: seq<Op>)
    requires Shaped(s) && !s.isShifted && forall l :: 0 <= l < |ops| ==> ops[l].index < |s.output|
    requires AfterOps(s, ops).isShifted && |held| == |s.registers|
    ensures ShowsFrom(s, held, ops)
  {
    TransfersIgnoreRegisters(s, held, ops);
    OpsKeepCache(s.(registers := held), ops);
  }

  lemma ShownOnceShifted(s: State, ops: seq<Op>)
    requires Shaped(s) && !s.isShifted && forall l :: 0 <= l < |ops| ==> ops[l].index < |s.output|
    requires AfterOps(s, ops).isShifted
    ensures AlwaysShows(s, ops)
  {
    forall held: seq<Pins> | |held| == |s.registers|
      ensures ShowsFrom(s, held, ops)
    {
      ShownOverRegisters(s, held, ops);
    }
  }

  lemma StaleUntilShifted(s: State, ops: seq<Op>)
    requires Shaped(s) && !s.isShifted && forall l :: 0 <= l < |ops| ==> ops[l].index < |s.output|
    requires !AfterOps(s, ops).isShifted
    ensures !AlwaysShows(s, ops)
  {
    var t := s.(registers := Stale(s));
    TransfersIgnoreRegisters(s, Stale(s), ops);
    NothingIsTransferred(t, ops);
    StaleIsNotShown(s);
    assert !ShowsFrom(s, Stale(s), ops);
  }

  /**
   A failed initialisation is not made up for. After it, and after any writes, the chain shows the
   buffer for all contents of its registers exactly if some write has succeeded that changed the
   buffer: one that asks for the levels the buffer has already succeeds without reaching the chain.
   */
  lemma FailedInitCondition(registers: seq<Pins>, ready: bool, initSpi: int, ops: seq<Op>)
    requires registers != [] && AfterInit(Unshifted(registers), ready, initSpi).ret < 0
    requires forall l :: 0 <= l < |ops| ==> ops[l].index < |registers|
    ensures
      var s := AfterInit(Unshifted(registers), ready, initSpi).state;
      AlwaysShows(s, ops) <==> exists k :: 0 <= k < |ops| && Transfers(s, ops, k)
  {
    var s := AfterInit(Unshifted(registers), ready, initSpi).state;
    NothingIsTransferred(s, ops);
    if AfterOps(s, ops).isShifted {
      ShownOnceShifted(s, ops);
    } else {
      StaleUntilShifted(s, ops);
    }
  }

  /** For one write that succeeds, that means: exactly if it changes the buffer. */
  lemma FailedInitThenWrite(registers: seq<Pins>, ready: bool, initSpi: int, i: nat, value: Pins, spi: int)
    requires i < |registers| && AfterInit(Unshifted(registers), ready, initSpi).ret < 0
    requires AfterWrite(AfterInit(Unshifted(registers), ready, initSpi).state, i, value, spi).ret >= 0
    ensures
      var s := AfterInit(Unshifted(registers), ready, initSpi).state;
      (forall held: seq<Pins> | |held| == |registers| :: Shows(AfterWrite(s.(registers := held), i, value, spi).state))
      <==> value != s.output[i]
  {
    var s := AfterInit(Unshifted(registers), ready, initSpi).state;
    if value != s.output[i] {
      forall held: seq<Pins> | |held| == |registers|
        ensures Shows(AfterWrite(s.(registers := held), i, value, spi).state)
      {
        WriteKeepsCache(s.(registers := held), i, value, spi);
      }
    } else {
      StaleIsNotShown(s);
      assert !Shows(AfterWrite(s.(registers := Stale(s)), i, value, spi).state);
    }
  }

  /** The bus is not ready at first; clearing all pins then succeeds, and one of them stays set. */
  method FailedInitExample() returns (chain: Chain, init: int, write: int)
    ensures fresh(chain) && chain.Valid() && init == -ENODEV && write == 0
    ensures chain.Abstract() == State([{}], [{3}], false) && !Shows(chain.Abstract())
  {
    chain := new Chain(1, [{3}]);
    assert chain.Abstract() == State([{}], [{3}], false);
    init := chain.Init(false, 0);
    write := chain.PortSetMaskedRaw(0, BYTE, {}, 0);
    assert chain.registers[0] != chain.Abstract().output[Index(1, 0)];
  }
}
