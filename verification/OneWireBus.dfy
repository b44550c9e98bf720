/** A 1-Wire bus with a fixed set of devices, as seen by a ROM search. */
module OneWireBus {

  const ROM_BITS := 64

  // A device's ROM number, in the order its bits are sent: least significant first.
  type Rom = r: seq<bool> | |r| == ROM_BITS witness seq(ROM_BITS, _ => false)

  const NO_ROM: Rom := seq(ROM_BITS, _ => false)

  // The wire is low as soon as one device pulls it low.
  predicate AllOnes(active: set<Rom>, position: nat)
    requires position < ROM_BITS
  {
    forall r | r in active :: r[position]
  }

  predicate AllZeros(active: set<Rom>, position: nat)
    requires position < ROM_BITS
  {
    forall r | r in active :: !r[position]
  }

  function Matching(active: set<Rom>, position: nat, bit: bool): set<Rom>
    requires position < ROM_BITS
  {
    set r | r in active && r[position] == bit
  }

  class Bus {
    const devices: set<Rom>
    var active: set<Rom>
    var position: nat
    var complement: bool   // the next read slot carries the complement of the bit

    constructor (devices: set<Rom>)
      ensures this.devices == devices
    {
      this.devices := devices;
      active, position, complement := {}, 0, false;
    }

    /** A reset pulse; some device answers if there is one. */
    method Reset() returns (presence: bool)
      ensures presence <==> devices != {}
    {
      presence := devices != {};
    }

    /** The search ROM command, 0xF0. */
    method StartSearch()
      modifies this
      ensures active == devices && position == 0 && !complement
    {
      active, position, complement := devices, 0, false;
    }

    method ReadBit() returns (bit: bool)
      requires position < ROM_BITS
      modifies this`complement
      ensures bit == if old(complement) then AllZeros(active, position) else AllOnes(active, position)
      ensures complement != old(complement)
    {
      bit := if complement then forall r | r in active :: !r[position] else forall r | r in active :: r[position];
      complement := !complement;
    }

    /** Devices that disagree with the written bit drop out of the search. */
    method WriteBit(bit: bool)
      requires position < ROM_BITS
      modifies this
      ensures active == Matching(old(active), old(position), bit)
      ensures position == old(position) + 1 && !complement
    {
      active := set r | r in active && r[position] == bit;
      position, complement := position + 1, false;
    }
  }
}
