/** The 1-Wire ROM search as a function, and what repeated searches find. */
module OneWireSpec {
  import opened OneWireBus

  // The search state kept between calls; `rom` is ROM_NO, `done` is LastDeviceFlag.
  datatype Search = Search(rom: Rom, last: nat, family: nat, done: bool)

  // One pass down the bits of the ROM numbers.
  datatype Trail = Trail(rom: Rom, lastZero: nat, family: nat, complete: bool)

  function Direction(active: set<Rom>, position: nat, rom: Rom, last: nat): bool
    requires position < ROM_BITS
  {
    if AllOnes(active, position) != AllZeros(active, position) then AllOnes(active, position)
    else if position + 1 < last then rom[position]
    else position + 1 == last
  }

  predicate Discrepancy(active: set<Rom>, position: nat)
    requires position < ROM_BITS
  {
    !AllOnes(active, position) && !AllZeros(active, position)
  }

  // The bookkeeping for one bit.
  function Down(active: set<Rom>, position: nat, t: Trail, bit: bool): Trail
    requires position < ROM_BITS
  {
    var zero := Discrepancy(active, position) && !bit;
    t.(rom := t.rom[position := bit],
       lastZero := if zero then position + 1 else t.lastZero,
       family := if zero && position + 1 < 9 then position + 1 else t.family)
  }

  function Walk(active: set<Rom>, position: nat, t: Trail, last: nat): Trail
    requires position <= ROM_BITS
    decreases ROM_BITS - position
  {
    if position == ROM_BITS then t.(complete := true)
    else if AllOnes(active, position) && AllZeros(active, position) then t.(complete := false)
    else
      var bit := Direction(active, position, t.rom, last);
      Walk(Matching(active, position, bit), position + 1, Down(active, position, t, bit), last)
  }

  predicate ZeroFamily(rom: Rom) { forall i | 0 <= i < 8 :: !rom[i] }

  // Starts over at the next call.
  function Fail(s: Search): Search { s.(last := 0, family := 0, done := false) }

  /** One call of onewire_search: the new search state and whether a device was found. */
  function Next(devices: set<Rom>, s: Search): (Search, bool) {
    if s.done || devices == {} then (Fail(s), false)
    else
      var t := Walk(devices, 0, Trail(s.rom, 0, s.family, true), s.last);
      var s' := if t.complete then Search(t.rom, t.lastZero, t.family, t.lastZero == 0)
                else s.(rom := t.rom, family := t.family);
      if !t.complete || ZeroFamily(t.rom) then (Fail(s'), false) else (s', true)
  }

  // ---------- order ----------

  /** Bit-lexicographic order, least significant bit first. */
  ghost predicate Less(r: Rom, s: Rom) {
    exists i :: 0 <= i < ROM_BITS && LessAt(r, s, i)
  }

  ghost predicate LessAt(r: Rom, s: Rom, i: nat)
    requires i < ROM_BITS
  {
    r[..i] == s[..i] && !r[i] && s[i]
  }

  ghost predicate IsLeast(devices: set<Rom>, r: Rom) {
    r in devices && forall s | s in devices :: s == r || Less(r, s)
  }

  ghost predicate IsLeastAbove(devices: set<Rom>, bound: Rom, r: Rom) {
    r in devices && Less(bound, r) && forall s | s in devices && Less(bound, s) :: s == r || Less(r, s)
  }

  lemma LessIsAsymmetric(r: Rom, s: Rom)
    requires Less(r, s)
    ensures !Less(s, r) && r != s
  {
    var i :| 0 <= i < ROM_BITS && LessAt(r, s, i);
    forall j | 0 <= j < ROM_BITS ensures !LessAt(s, r, j) {
      assert i < j ==> s[..j][i] == s[i] && r[..j][i] == r[i];
      assert j < i ==> r[..i][j] == r[j] && s[..i][j] == s[j];
    }
  }

  // ---------- what one walk finds ----------

  /** Where `r` has a zero, some device agrees with `r` before it and has a one. */
  ghost predicate IsTurn(devices: set<Rom>, r: Rom, k: nat) {
    1 <= k <= ROM_BITS && !r[k - 1] && exists s :: s in devices && s[..k - 1] == r[..k - 1] && s[k - 1]
  }

  /** The last turn up to position `end`, or 0. */
  ghost predicate LastTurn(devices: set<Rom>, r: Rom, end: nat, k: nat) {
    && k <= end
    && (k == 0 || IsTurn(devices, r, k))
    && (forall j | k < j <= end :: !IsTurn(devices, r, j))
  }

  // The devices that agree with `r` up to `position`.
  ghost function Agreeing(devices: set<Rom>, r: Rom, position: nat): set<Rom>
    requires position <= ROM_BITS
  {
    set s | s in devices && s[..position] == r[..position]
  }

  lemma AgreeingOneMore(devices: set<Rom>, r: Rom, position: nat, bit: bool)
    requires position < ROM_BITS
    ensures Matching(Agreeing(devices, r, position), position, bit)
         == Agreeing(devices, r[position := bit], position + 1)
  {
    var r' := r[position := bit];
    forall s | s in devices
      ensures s[..position + 1] == r'[..position + 1] <==> s[..position] == r[..position] && s[position] == bit
    {
      assert s[..position + 1] == s[..position] + [s[position]];
      assert r'[..position + 1] == r[..position] + [bit];
    }
  }

  lemma TurnDependsOnPrefix(devices: set<Rom>, r: Rom, r': Rom, j: nat)
    requires 1 <= j <= ROM_BITS && r[..j] == r'[..j]
    ensures IsTurn(devices, r', j) == IsTurn(devices, r, j)
  {
    assert r[..j][..j - 1] == r[..j - 1] && r'[..j][..j - 1] == r'[..j - 1];
    assert r[..j][j - 1] == r'[..j][j - 1];
  }

  lemma LastTurnDependsOnPrefix(devices: set<Rom>, r: Rom, r': Rom, end: nat, k: nat)
    requires end <= ROM_BITS && r[..end] == r'[..end] && LastTurn(devices, r, end, k)
    ensures LastTurn(devices, r', end, k)
  {
    forall j | 1 <= j <= end ensures IsTurn(devices, r', j) == IsTurn(devices, r, j) {
      assert r[..end][..j] == r[..j] && r'[..end][..j] == r'[..j];
      TurnDependsOnPrefix(devices, r, r', j);
    }
  }

  // One bit further down: the bookkeeping of the last zero is the last turn.
  lemma TurnStep(devices: set<Rom>, r: Rom, position: nat, bit: bool, k: nat)
    requires position < ROM_BITS && LastTurn(devices, r, position, k)
    requires Agreeing(devices, r, position) != {}
    requires AllOnes(Agreeing(devices, r, position), position) ==> bit
    ensures var zero := Discrepancy(Agreeing(devices, r, position), position) && !bit;
      LastTurn(devices, r[position := bit], position + 1, if zero then position + 1 else k)
  {
    var r' := r[position := bit];
    assert r'[..position] == r[..position];
    LastTurnDependsOnPrefix(devices, r, r', position, k);
  }

  // The direction taken always keeps some device in the search.
  lemma SomeDeviceStays(active: set<Rom>, position: nat, rom: Rom, last: nat)
    requires position < ROM_BITS && active != {}
    ensures Matching(active, position, Direction(active, position, rom, last)) != {}
  {
    var r :| r in active;
    var bit := Direction(active, position, rom, last);
    if r[position] != bit {
      if bit {
        var s :| s in active && s[position];
        assert s in Matching(active, position, bit);
      } else {
        var s :| s in active && !s[position];
        assert s in Matching(active, position, bit);
      }
    } else {
      assert r in Matching(active, position, bit);
    }
  }

  lemma ZeroBranchIsLess(r: Rom, s: Rom, prefix: Rom, position: nat)
    requires position < ROM_BITS && r[..position] == prefix[..position] == s[..position]
    requires !r[position] && s[position]
    ensures Less(r, s)
  {
    assert LessAt(r, s, position);
  }

  // Past the last discrepancy the walk ends at the least device below it.
  lemma {:induction false} WalkDown(devices: set<Rom>, position: nat, t: Trail, last: nat)
    requires position <= ROM_BITS && last <= position
    requires Agreeing(devices, t.rom, position) != {} && LastTurn(devices, t.rom, position, t.lastZero)
    ensures var t' := Walk(Agreeing(devices, t.rom, position), position, t, last);
      && t'.complete && t'.rom in Agreeing(devices, t.rom, position)
      && (forall s | s in Agreeing(devices, t.rom, position) :: s == t'.rom || Less(t'.rom, s))
      && LastTurn(devices, t'.rom, ROM_BITS, t'.lastZero)
    decreases ROM_BITS - position
  {
    var active := Agreeing(devices, t.rom, position);
    if position == ROM_BITS {
      FullPrefix(devices, t.rom);
    } else {
      var bit := Direction(active, position, t.rom, last);
      var t1 := Down(active, position, t, bit);
      TurnStep(devices, t.rom, position, bit, t.lastZero);
      AgreeingOneMore(devices, t.rom, position, bit);
      SomeDeviceStays(active, position, t.rom, last);
      WalkDown(devices, position + 1, t1, last);
      var t' := Walk(active, position, t, last);
      assert t'.rom in Matching(active, position, bit);
      forall s | s in active && s[position] != bit ensures Less(t'.rom, s) {
        ZeroBranchIsLess(t'.rom, s, t.rom, position);
      }
    }
  }

  // The last turn within the family code, and 0 if there is none.
  lemma {:induction false} WalkFamily(devices: set<Rom>, position: nat, t: Trail, last: nat, kept: nat, k: nat) returns (k': nat)
    requires position <= ROM_BITS && Agreeing(devices, t.rom, position) != {}
    requires LastTurn(devices, t.rom, if position < 8 then position else 8, k) && t.family == if k > 0 then k else kept
    ensures var t' := Walk(Agreeing(devices, t.rom, position), position, t, last);
      LastTurn(devices, t'.rom, 8, k') && t'.family == if k' > 0 then k' else kept
    decreases ROM_BITS - position
  {
    var active := Agreeing(devices, t.rom, position);
    k' := k;
    if position < ROM_BITS {
      var bit := Direction(active, position, t.rom, last);
      var t1 := Down(active, position, t, bit);
      AgreeingOneMore(devices, t.rom, position, bit);
      SomeDeviceStays(active, position, t.rom, last);
      if position < 8 {
        TurnStep(devices, t.rom, position, bit, k);
        k' := WalkFamily(devices, position + 1, t1, last, kept, if Discrepancy(active, position) && !bit then position + 1 else k);
      } else {
        assert t1.rom[..8] == t.rom[..8];
        LastTurnDependsOnPrefix(devices, t.rom, t1.rom, 8, k);
        k' := WalkFamily(devices, position + 1, t1, last, kept, k);
      }
    }
  }

  lemma FullPrefix(devices: set<Rom>, r: Rom)
    ensures Agreeing(devices, r, ROM_BITS) <= {r}
  {
    assert r[..ROM_BITS] == r;
    forall s | s in Agreeing(devices, r, ROM_BITS) ensures s == r {
      assert s[..ROM_BITS] == s;
    }
  }

  // Up to the last discrepancy the walk repeats the previous ROM; there it turns,
  // and ends at the least device beyond the turn.
  lemma {:induction false} WalkAcross(devices: set<Rom>, position: nat, t: Trail, last: nat, previous: Rom)
    requires position < last <= ROM_BITS && previous in devices && IsTurn(devices, previous, last)
    requires t.rom == previous && LastTurn(devices, t.rom, position, t.lastZero)
    ensures var t' := Walk(Agreeing(devices, t.rom, position), position, t, last);
      && t'.complete && t'.rom in devices
      && t'.rom[..last - 1] == previous[..last - 1] && t'.rom[last - 1]
      && (forall s | s in devices && s[..last - 1] == previous[..last - 1] && s[last - 1] :: s == t'.rom || Less(t'.rom, s))
      && LastTurn(devices, t'.rom, ROM_BITS, t'.lastZero)
    decreases last - position
  {
    var active := Agreeing(devices, t.rom, position);
    var bit := Direction(active, position, t.rom, last);
    assert previous in active;
    var beyond :| beyond in devices && beyond[..last - 1] == previous[..last - 1] && beyond[last - 1];
    assert beyond[..last - 1][..position] == beyond[..position];
    assert previous[..last - 1][..position] == previous[..position];
    assert beyond in active;
    var t1 := Down(active, position, t, bit);
    TurnStep(devices, t.rom, position, bit, t.lastZero);
    AgreeingOneMore(devices, t.rom, position, bit);
    SomeDeviceStays(active, position, t.rom, last);
    if position + 1 < last {
      assert bit == previous[position];
      assert t1.rom == previous;
      WalkAcross(devices, position + 1, t1, last, previous);
    } else {
      assert bit;
      WalkDown(devices, position + 1, t1, last);
      assert t1.rom[..position] == previous[..position];
      forall s | s in devices && s[..last - 1] == previous[..last - 1] && s[last - 1]
        ensures s in Agreeing(devices, t1.rom, position + 1)
      {
        assert s in Matching(active, position, bit);
      }
      var t' := Walk(active, position, t, last);
      assert t'.rom in Matching(active, position, bit);
    }
  }
}
