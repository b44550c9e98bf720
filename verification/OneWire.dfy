/** onewire.c's search, bit by bit on the ROM_NO buffer, proved against OneWireSpec. */
module OneWire {
  import opened OneWireBus
  import opened OneWireSpec

  type Bytes = seq<bv8>

  // The mask for bit `j` of a byte.
  function Mask(j: nat): bv8
    requires j < 8
  {
    match j
    case 0 => 0x01 case 1 => 0x02 case 2 => 0x04 case 3 => 0x08
    case 4 => 0x10 case 5 => 0x20 case 6 => 0x40 case _ => 0x80
  }

  predicate IsSet(byte: bv8, mask: bv8) { byte & mask > 0 }

  function Put(byte: bv8, mask: bv8, bit: bool): bv8 { if bit then byte | mask else byte & !mask }

  function BitAt(bytes: Bytes, k: nat): bool
    requires |bytes| == 8 && k < ROM_BITS
  {
    IsSet(bytes[k / 8], Mask(k % 8))
  }

  /** The ROM number a buffer holds. */
  function RomOf(bytes: Bytes): Rom
    requires |bytes| == 8
  {
    seq(ROM_BITS, k requires 0 <= k < ROM_BITS => BitAt(bytes, k))
  }

  lemma ZeroBuffer(bytes: Bytes)
    requires |bytes| == 8 && forall k | 0 <= k < 8 :: bytes[k] == 0
    ensures RomOf(bytes) == NO_ROM
  {
  }

  lemma FirstMask()
    ensures Mask(0) == 1
  {
  }

  lemma MaskShifts(j: nat)
    requires j < 8
    ensures Mask(j) << 1 == if j == 7 then 0 else Mask(j + 1)
    ensures Mask(0) == 1 && (j < 7 ==> Mask(j + 1) != 0)
  {
  }

  lemma MaskedWrite(byte: bv8, i: nat, j: nat, bit: bool)
    requires i < 8 && j < 8
    ensures IsSet(Put(byte, Mask(i), bit), Mask(j)) == if i == j then bit else IsSet(byte, Mask(j))
  {
  }

  // Setting or clearing one bit of the buffer changes that bit of the ROM number only.
  lemma BitWrite(bytes: Bytes, k: nat, bit: bool)
    requires |bytes| == 8 && k < ROM_BITS
    ensures RomOf(bytes[k / 8 := Put(bytes[k / 8], Mask(k % 8), bit)]) == RomOf(bytes)[k := bit]
  {
    hide Mask, Put, IsSet;
    var bytes' := bytes[k / 8 := Put(bytes[k / 8], Mask(k % 8), bit)];
    forall m | 0 <= m < ROM_BITS ensures BitAt(bytes', m) == RomOf(bytes)[k := bit][m] {
      if m / 8 == k / 8 {
        MaskedWrite(bytes[k / 8], k % 8, m % 8, bit);
      }
    }
  }

  class OneWire {
    const bus: Bus
    const romNo: array<bv8>
    var lastDiscrepancy: nat
    var lastFamilyDiscrepancy: nat
    var lastDeviceFlag: bool

    constructor (bus: Bus)
      ensures this.bus == bus && Valid() && fresh(romNo)
    {
      this.bus := bus;
      romNo := new bv8[8](_ => 0);
      lastDiscrepancy, lastFamilyDiscrepancy, lastDeviceFlag := 0, 0, false;
    }

    ghost predicate Valid()
    {
      romNo.Length == 8
    }

    ghost function State(): Search
      requires Valid()
      reads this, romNo
    {
      Search(RomOf(romNo[..]), lastDiscrepancy, lastFamilyDiscrepancy, lastDeviceFlag)
    }

    method ResetSearch()
      requires Valid()
      modifies this, romNo
      ensures State() == Search(NO_ROM, 0, 0, false)
    {
      lastDiscrepancy := 0;
      lastDeviceFlag := false;
      lastFamilyDiscrepancy := 0;
      var i := 7;
      while true
        modifies romNo
        invariant 0 <= i < 8
        invariant forall k | i < k < 8 :: romNo[k] == 0
        decreases i
      {
        romNo[i] := 0;
        if i == 0 { break; }
        i := i - 1;
      }
      ZeroBuffer(romNo[..]);
    }

    // Sets or clears the bit of ROM_NO the search has come to.
    method WriteRomBit(position: nat, romByteNumber: nat, romByteMask: bv8, bit: bool)
      requires Valid() && position < ROM_BITS
      requires romByteNumber == position / 8 && romByteMask == Mask(position % 8)
      modifies romNo
      ensures RomOf(romNo[..]) == old(RomOf(romNo[..]))[position := bit]
    {
      hide RomOf, Mask, Put;
      ghost var bytes := romNo[..];
      BitWrite(bytes, position, bit);
      romNo[romByteNumber] := Put(romNo[romByteNumber], romByteMask, bit);
      assert romNo[..] == bytes[romByteNumber := romNo[romByteNumber]];
    }

    // The direction to take at one bit, with the bookkeeping of zeros taken.
    method Choose(idBitNumber: nat, romByteNumber: nat, romByteMask: bv8, idBit: bool, cmpIdBit: bool, lastZero: nat,
                  ghost active: set<Rom>)
      returns (searchDirection: bool, newLastZero: nat)
      requires Valid() && 1 <= idBitNumber <= ROM_BITS && active != {}
      requires romByteNumber == (idBitNumber - 1) / 8 && romByteMask == Mask((idBitNumber - 1) % 8)
      requires idBit == AllOnes(active, idBitNumber - 1) && cmpIdBit == AllZeros(active, idBitNumber - 1)
      requires !(idBit && cmpIdBit)
      modifies this`lastFamilyDiscrepancy
      ensures var t := Trail(RomOf(romNo[..]), lastZero, old(lastFamilyDiscrepancy), true);
        && searchDirection == Direction(active, idBitNumber - 1, t.rom, lastDiscrepancy)
        && Down(active, idBitNumber - 1, t, searchDirection)
           == Trail(t.rom[idBitNumber - 1 := searchDirection], newLastZero, lastFamilyDiscrepancy, true)
    {
      BitOfRom(romNo[..], idBitNumber - 1);
      hide RomOf, Mask, IsSet;
      newLastZero := lastZero;
      if idBit != cmpIdBit {
        searchDirection := idBit;
      } else {
        if idBitNumber < lastDiscrepancy {
          searchDirection := IsSet(romNo[romByteNumber], romByteMask);
        } else {
          searchDirection := idBitNumber == lastDiscrepancy;
        }
        if !searchDirection {
          newLastZero := idBitNumber;
          if newLastZero < 9 {
            lastFamilyDiscrepancy := newLastZero;
          }
        }
      }
    }

    // The search loop: from the search command to the last bit.
    method Descend() returns (complete: bool, lastZero: nat)
      requires Valid()
      modifies this`lastFamilyDiscrepancy, romNo, bus
      ensures var t := Walk(bus.devices, 0, Trail(old(State()).rom, 0, old(lastFamilyDiscrepancy), true), lastDiscrepancy);
        t == Trail(State().rom, lastZero, lastFamilyDiscrepancy, complete)
    {
      hide Direction, Down, Mask, RomOf;
      ghost var t0 := Trail(RomOf(romNo[..]), 0, lastFamilyDiscrepancy, true);
      bus.StartSearch();
      var idBitNumber, romByteNumber := 1, 0;
      var romByteMask: bv8 := 1;
      FirstMask();
      lastZero := 0;
      complete := true;
      while romByteNumber < 8
        invariant 1 <= idBitNumber <= ROM_BITS + 1 && romByteNumber == (idBitNumber - 1) / 8
        invariant romByteMask == Mask((idBitNumber - 1) % 8)
        invariant bus.position == idBitNumber - 1 && !bus.complement
        invariant Walk(bus.active, bus.position, Trail(RomOf(romNo[..]), lastZero, lastFamilyDiscrepancy, true), lastDiscrepancy)
               == Walk(bus.devices, 0, t0, lastDiscrepancy)
        decreases ROM_BITS - idBitNumber
      {
        var idBit := bus.ReadBit();
        var cmpIdBit := bus.ReadBit();
        if idBit && cmpIdBit {
          complete := false;
          break;
        }
        var searchDirection;
        searchDirection, lastZero :=
          Choose(idBitNumber, romByteNumber, romByteMask, idBit, cmpIdBit, lastZero, bus.active);
        WriteRomBit(bus.position, romByteNumber, romByteMask, searchDirection);
        bus.WriteBit(searchDirection);
        MaskShifts((idBitNumber - 1) % 8);
        idBitNumber := idBitNumber + 1;
        romByteMask := romByteMask << 1;
        if romByteMask == 0 {
          romByteNumber := romByteNumber + 1;
          romByteMask := 1;
        }
      }
    }

    /** One search: updates the search state, reports whether a device was found, and
        copies its ROM number to `newAddr` (which an absent bus leaves alone). */
    method SearchNext(newAddr: array<bv8>) returns (found: bool)
      requires Valid() && newAddr.Length == 8 && newAddr != romNo
      modifies this, romNo, bus, newAddr
      ensures (State(), found) == Next(bus.devices, old(State()))
      ensures RomOf(newAddr[..]) ==
        if !old(lastDeviceFlag) && bus.devices == {} then old(RomOf(newAddr[..])) else State().rom
    {
      found := false;
      if !lastDeviceFlag {
        var presence := bus.Reset();
        if !presence {
          lastDiscrepancy, lastDeviceFlag, lastFamilyDiscrepancy := 0, false, 0;
          return false;
        }
        var complete, lastZero := Descend();
        if complete {
          lastDiscrepancy := lastZero;
          if lastDiscrepancy == 0 {
            lastDeviceFlag := true;
          }
          found := true;
        }
      }
      FirstByteIsFamily(romNo[..]);
      if !found || romNo[0] == 0 {
        lastDiscrepancy, lastDeviceFlag, lastFamilyDiscrepancy := 0, false, 0;
        found := false;
      }
      CopyRom(newAddr);
    }

    method CopyRom(newAddr: array<bv8>)
      requires Valid() && newAddr.Length == 8 && newAddr != romNo
      modifies newAddr
      ensures newAddr[..] == romNo[..] && State() == old(State())
    {
      for i := 0 to 8
        modifies newAddr
        invariant forall k | 0 <= k < i :: newAddr[k] == romNo[k]
      {
        newAddr[i] := romNo[i];
      }
      assert newAddr[..] == romNo[..];
    }
  }

  lemma FirstByteIsFamily(bytes: Bytes)
    requires |bytes| == 8
    ensures bytes[0] == 0 <==> ZeroFamily(RomOf(bytes))
  {
    ZeroBits(bytes[0]);
    hide RomOf;
    forall k | 0 <= k < 8 ensures RomOf(bytes)[k] == IsSet(bytes[0], Mask(k)) {
      BitOfRom(bytes, k);
    }
  }

  lemma ZeroBits(b: bv8)
    ensures b == 0 <==> forall k | 0 <= k < 8 :: !IsSet(b, Mask(k))
  {
    if forall k | 0 <= k < 8 :: !IsSet(b, Mask(k)) {
      assert !IsSet(b, Mask(0)) && !IsSet(b, Mask(1)) && !IsSet(b, Mask(2)) && !IsSet(b, Mask(3));
      assert !IsSet(b, Mask(4)) && !IsSet(b, Mask(5)) && !IsSet(b, Mask(6)) && !IsSet(b, Mask(7));
    }
  }

  lemma BitOfRom(bytes: Bytes, k: nat)
    requires |bytes| == 8 && k < ROM_BITS
    ensures RomOf(bytes)[k] == IsSet(bytes[k / 8], Mask(k % 8))
  {
  }
}
