/** The beam-breaker tachometer: two interrupt routines and the conversion to revolutions per second. */
module Rps {
  import opened Bytes

  type Port = bv8

  datatype Tacho = Tacho(pins: Port, current: u16, count: u16)

  predicate Beam(p: Port) { p & 0x08 != 0 }

  /** The pin change interrupt: count a rising edge of the beam pin. */
  function PinChange(t: Tacho, pins: Port): Tacho {
    t.(count := if Beam(pins) && !Beam(t.pins) then Next16(t.count) else t.count, pins := pins)
  }

  /** The gate timer interrupt. */
  function GateOver(t: Tacho): Tacho { t.(current := t.count, count := 0) }

  /** 16-bit unsigned arithmetic, as on the target. */
  function GetRPS(current: u16): u16 { current * 100 % 65536 / 78 }

  class RPS {
    var pinCLastState: Port
    var currentRpsCount: u16
    var rpsCount: u16

    function View(): Tacho
      reads this
    {
      Tacho(pinCLastState, currentRpsCount, rpsCount)
    }

    constructor ()
      ensures View() == Tacho(0, 0, 0)
    {
      pinCLastState, currentRpsCount, rpsCount := 0, 0, 0;
    }

    method OnPinChange(pinC: Port)
      modifies this
      ensures View() == PinChange(old(View()), pinC)
    {
      if Beam(pinC) && !Beam(pinCLastState) {
        rpsCount := Next16(rpsCount);
      }
      pinCLastState := pinC;
    }

    method OnTimerOverflow()
      modifies this
      ensures View() == GateOver(old(View()))
    {
      currentRpsCount := rpsCount;
      rpsCount := 0;
    }
  }

  function Samples(t: Tacho, pins: seq<Port>): Tacho {
    if pins == [] then t else PinChange(Samples(t, pins[..|pins| - 1]), pins[|pins| - 1])
  }

  /** Rising edges of the beam pin, the fourth of its port, in a list of samples. */
  function Edges(pins: seq<Port>): nat {
    if |pins| < 2 then 0
    else Edges(pins[..|pins| - 1]) + if pins[|pins| - 1] & 8 == 8 && pins[|pins| - 2] & 8 == 0 then 1 else 0
  }

  lemma BeamIsBit(p: Port)
    ensures Beam(p) <==> p & 8 == 8
  {
  }

  /** When the gate closes, the latched count is the number of rising edges since it opened,
      modulo 2^16. */
  lemma {:induction false} GateCounts(t: Tacho, pins: seq<Port>)
    requires t.count == 0
    ensures GateOver(Samples(t, pins)).current == Edges([t.pins] + pins) % 65536
    ensures Samples(t, pins).pins == ([t.pins] + pins)[|pins|]
    decreases |pins|
  {
    if pins != [] {
      var most := pins[..|pins| - 1];
      GateCounts(t, most);
      BeamIsBit(pins[|pins| - 1]);
      assert ([t.pins] + pins)[..|pins|] == [t.pins] + most;
    }
  }

  // ---------- Gate after gate ----------

  datatype Interrupt = Pins(port: Port) | Gate

  function Run(t: Tacho, es: seq<Interrupt>): Tacho {
    if es == [] then t
    else
      match es[|es| - 1]
      case Pins(port) => PinChange(Run(t, es[..|es| - 1]), port)
      case Gate => GateOver(Run(t, es[..|es| - 1]))
  }

  /** The port as the last pin change showed it, whatever gates closed since. */
  function LastPort(es: seq<Interrupt>): Port {
    if es == [] then 0 else if es[|es| - 1].Pins? then es[|es| - 1].port else LastPort(es[..|es| - 1])
  }

  /** Rising edges since the last gate closed. */
  function EdgesSince(es: seq<Interrupt>): nat {
    if es == [] then 0
    else
      match es[|es| - 1]
      case Pins(port) => EdgesSince(es[..|es| - 1]) + if port & 8 == 8 && LastPort(es[..|es| - 1]) & 8 == 0 then 1 else 0
      case Gate => 0
  }

  /** Rising edges between the last two gates. */
  function EdgesWithin(es: seq<Interrupt>): nat {
    if es == [] then 0
    else if es[|es| - 1].Gate? then EdgesSince(es[..|es| - 1])
    else EdgesWithin(es[..|es| - 1])
  }

  /** Over every run of interrupts from power-up the latched count is that of the last whole gate alone, and the
      running one starts anew with each gate, modulo 2^16; an edge across the end of a gate is counted once. */
  lemma {:induction false} EachGateCounts(es: seq<Interrupt>)
    ensures Run(Tacho(0, 0, 0), es) == Tacho(LastPort(es), EdgesWithin(es) % 65536, EdgesSince(es) % 65536)
    decreases |es|
  {
    if es != [] {
      var most := es[..|es| - 1];
      EachGateCounts(most);
      if es[|es| - 1].Pins? {
        BeamIsBit(es[|es| - 1].port);
        BeamIsBit(LastPort(most));
        BitIsSetOrNot(LastPort(most));
      }
    }
  }

  lemma BitIsSetOrNot(p: Port)
    ensures p & 8 == 8 || p & 8 == 0
  {
  }

  /** The conversion is exact if and only if at most 655 edges were counted: beyond that the
      16-bit product wraps. It never exceeds 840. */
  lemma ConversionIsExactIff(current: u16)
    ensures GetRPS(current) == current * 100 / 78 <==> current <= 655
    ensures GetRPS(current) <= 840
  {
  }
}
