/** Repeated 1-Wire searches over a fixed set of devices. */
module OneWireEnumeration {
  import opened OneWireBus
  import opened OneWireSpec

  /** The next call starts from the beginning, as after onewire_reset_search. */
  predicate Ready(s: Search) { s.last == 0 && !s.done }

  /** The last call found `r` and remembers where to turn next. */
  ghost predicate Found(devices: set<Rom>, s: Search, r: Rom) {
    s.rom == r && r in devices && LastTurn(devices, r, ROM_BITS, s.last) && s.done == (s.last == 0)
  }

  lemma LastTurnOfNothing(devices: set<Rom>, r: Rom)
    ensures LastTurn(devices, r, 0, 0) && Agreeing(devices, r, 0) == devices
  {
  }

  lemma FirstSearch(devices: set<Rom>, s: Search)
    requires devices != {} && Ready(s)
    ensures var (s', found) := Next(devices, s);
      && IsLeast(devices, s'.rom) && found == !ZeroFamily(s'.rom)
      && (if found then Found(devices, s', s'.rom) else Ready(s'))
  {
    LastTurnOfNothing(devices, s.rom);
    WalkDown(devices, 0, Trail(s.rom, 0, s.family, true), 0);
  }

  lemma NextSearch(devices: set<Rom>, s: Search, r: Rom)
    requires Found(devices, s, r) && !s.done && forall r | r in devices :: !ZeroFamily(r)
    ensures var (s', found) := Next(devices, s);
      found && Found(devices, s', s'.rom) && IsLeastAbove(devices, r, s'.rom)
  {
    LastTurnOfNothing(devices, s.rom);
    WalkAcross(devices, 0, Trail(s.rom, 0, s.family, true), s.last, r);
    var r' := Next(devices, s).0.rom;
    BeyondTurn(devices, r, r', s.last);
  }

  /** A successful call remembers the last turn within the family code; the earlier one is
      kept if there is none.  A call without success leaves the search as at the start. */
  lemma FamilyIsLastTurn(devices: set<Rom>, s: Search)
    ensures var (s', found) := Next(devices, s);
      if found then exists k: nat :: LastTurn(devices, s'.rom, 8, k) && s'.family == if k > 0 then k else s.family
      else s' == Search(s'.rom, 0, 0, false)
    ensures s.done || devices == {} ==> Next(devices, s) == (Search(s.rom, 0, 0, false), false)
  {
    if !s.done && devices != {} {
      LastTurnOfNothing(devices, s.rom);
      var k := WalkFamily(devices, 0, Trail(s.rom, 0, s.family, true), s.last, s.family, 0);
    }
  }

  // The least device beyond the last turn is the least one above `r`.
  lemma BeyondTurn(devices: set<Rom>, r: Rom, r': Rom, last: nat)
    requires 0 < last && LastTurn(devices, r, ROM_BITS, last)
    requires r' in devices && r'[..last - 1] == r[..last - 1] && r'[last - 1]
    requires forall s | s in devices && s[..last - 1] == r[..last - 1] && s[last - 1] :: s == r' || Less(r', s)
    ensures IsLeastAbove(devices, r, r')
  {
    assert LessAt(r, r', last - 1);
    forall d | d in devices && Less(r, d) ensures d == r' || Less(r', d) {
      var i :| 0 <= i < ROM_BITS && LessAt(r, d, i);
      TurnsBound(devices, r, d, i, last);
      if i + 1 < last {
        assert r'[..last - 1][..i] == r'[..i] && r[..last - 1][..i] == r[..i];
        assert r'[..last - 1][i] == r'[i] && r[..last - 1][i] == r[i];
        assert LessAt(r', d, i);
      }
    }
  }

  // A greater device means a turn, which the last turn is not before.
  lemma TurnsBound(devices: set<Rom>, r: Rom, d: Rom, i: nat, last: nat)
    requires d in devices && i < ROM_BITS && LessAt(r, d, i) && LastTurn(devices, r, ROM_BITS, last)
    ensures i + 1 <= last
  {
    assert d[..i + 1 - 1] == r[..i + 1 - 1] && d[i + 1 - 1];
    assert IsTurn(devices, r, i + 1);
  }

  // There is a turn left exactly if there is a greater device.
  lemma DoneAtGreatest(devices: set<Rom>, s: Search, r: Rom)
    requires Found(devices, s, r)
    ensures s.done <==> !exists d :: d in devices && Less(r, d)
  {
    if s.last > 0 {
      var d :| d in devices && d[..s.last - 1] == r[..s.last - 1] && d[s.last - 1];
      assert LessAt(r, d, s.last - 1);
      assert Less(r, d);
    } else {
      forall d | d in devices ensures !Less(r, d) {
        if Less(r, d) {
          var i :| 0 <= i < ROM_BITS && LessAt(r, d, i);
          TurnsBound(devices, r, d, i, s.last);
        }
      }
    }
  }

  // ---------- many calls ----------

  /** The search state after `calls` calls. */
  function After(devices: set<Rom>, s: Search, calls: nat): Search {
    if calls == 0 then s else Next(devices, After(devices, s, calls - 1)).0
  }

  /** `order` lists the devices, each once, in ascending order. */
  ghost predicate Enumerates(order: seq<Rom>, devices: set<Rom>) {
    && (forall i, j | 0 <= i < j < |order| :: Less(order[i], order[j]))
    && (forall r :: r in devices <==> r in order)
  }

  lemma LeastIsFirst(order: seq<Rom>, devices: set<Rom>, r: Rom)
    requires Enumerates(order, devices) && IsLeast(devices, r)
    ensures r == order[0]
  {
    var j :| 0 <= j < |order| && order[j] == r;
    if j > 0 {
      assert order[0] in devices;
      LessIsAsymmetric(order[0], r);
    }
  }

  lemma LeastAboveIsNext(order: seq<Rom>, devices: set<Rom>, i: nat, r: Rom)
    requires Enumerates(order, devices) && i + 1 < |order| && IsLeastAbove(devices, order[i], r)
    ensures r == order[i + 1]
  {
    var j :| 0 <= j < |order| && order[j] == r;
    if j < i { LessIsAsymmetric(order[j], order[i]); }
    if j == i { LessIsAsymmetric(r, r); }
    if j > i + 1 {
      assert order[i + 1] in devices;
      LessIsAsymmetric(order[i + 1], r);
    }
  }

  lemma GreatestIsLast(order: seq<Rom>, devices: set<Rom>, i: nat)
    requires Enumerates(order, devices) && i < |order|
    ensures i + 1 == |order| <==> !exists d :: d in devices && Less(order[i], d)
  {
    if i + 1 < |order| {
      assert order[i + 1] in devices && Less(order[i], order[i + 1]);
    } else {
      forall d | d in devices ensures !Less(order[i], d) {
        var j :| 0 <= j < |order| && order[j] == d;
        if Less(order[i], d) {
          LessIsAsymmetric(order[i], d);
        }
      }
    }
  }

  lemma RemainderIsUnique(n: nat, c: nat, q: nat, i: nat)
    requires n == c * q + i && i < c
    ensures n % c == i
  {
    var q', i' := n / c, n % c;
    assert n == c * q' + i' && 0 <= i' < c;
    if q < q' { MoreMultiples(c, q, q'); }
    if q' < q { MoreMultiples(c, q', q); }
  }

  lemma {:induction false} MoreMultiples(c: nat, q: nat, p: nat)
    requires q < p
    ensures c * p >= c * q + c
    decreases p
  {
    assert c * p == c * (p - 1) + c;
    if q < p - 1 { MoreMultiples(c, q, p - 1); }
  }

  lemma NextPosition(n: nat, cycle: nat)
    requires cycle > 1
    ensures (n + 1) % cycle == if n % cycle == cycle - 1 then 0 else n % cycle + 1
  {
    var q, i := n / cycle, n % cycle;
    if i == cycle - 1 {
      assert cycle * (q + 1) == cycle * q + cycle;
      RemainderIsUnique(n + 1, cycle, q + 1, 0);
    } else {
      RemainderIsUnique(n + 1, cycle, q, i + 1);
    }
  }

  // Where the search stands after n calls.
  ghost predicate Standing(devices: set<Rom>, order: seq<Rom>, s: Search, i: nat) {
    if i == 0 then Ready(s) else i <= |order| && Found(devices, s, order[i - 1])
  }

  lemma OneCall(devices: set<Rom>, order: seq<Rom>, s: Search, i: nat)
    requires Enumerates(order, devices) && order != [] && forall r | r in devices :: !ZeroFamily(r)
    requires i <= |order| && Standing(devices, order, s, i)
    ensures var (s', found) := Next(devices, s);
      && (found <==> i < |order|)
      && (found ==> s'.rom == order[i])
      && Standing(devices, order, s', if i == |order| then 0 else i + 1)
  {
    hide Enumerates, Next, Found;
    if i == 0 {
      FirstCall(devices, order, s);
    } else if i < |order| {
      MiddleCall(devices, order, s, i);
    } else {
      EndCall(devices, order, s);
    }
  }

  lemma FirstCall(devices: set<Rom>, order: seq<Rom>, s: Search)
    requires Enumerates(order, devices) && order != [] && forall r | r in devices :: !ZeroFamily(r)
    requires Standing(devices, order, s, 0)
    ensures var (s', found) := Next(devices, s);
      found && s'.rom == order[0] && Standing(devices, order, s', 1)
  {
    assert order[0] in devices;
    FirstSearch(devices, s);
    LeastIsFirst(order, devices, Next(devices, s).0.rom);
  }

  lemma MiddleCall(devices: set<Rom>, order: seq<Rom>, s: Search, i: nat)
    requires Enumerates(order, devices) && forall r | r in devices :: !ZeroFamily(r)
    requires 0 < i < |order| && Found(devices, s, order[i - 1])
    ensures var (s', found) := Next(devices, s);
      found && s'.rom == order[i] && Found(devices, s', order[i])
  {
    DoneExactlyAtLast(devices, order, s, i - 1);
    hide Next, ZeroFamily, Found, Less;
    NextSearch(devices, s, order[i - 1]);
    LeastAboveIsNext(order, devices, i - 1, Next(devices, s).0.rom);
  }

  lemma EndCall(devices: set<Rom>, order: seq<Rom>, s: Search)
    requires Enumerates(order, devices) && order != [] && Found(devices, s, order[|order| - 1])
    ensures var (s', found) := Next(devices, s); !found && Ready(s')
  {
    DoneExactlyAtLast(devices, order, s, |order| - 1);
  }

  lemma DoneExactlyAtLast(devices: set<Rom>, order: seq<Rom>, s: Search, i: nat)
    requires Enumerates(order, devices) && i < |order| && Found(devices, s, order[i])
    ensures s.done <==> i + 1 == |order|
  {
    hide Enumerates, Found, Less;
    DoneAtGreatest(devices, s, order[i]);
    GreatestIsLast(order, devices, i);
  }

  lemma {:induction false} StandingAfter(devices: set<Rom>, order: seq<Rom>, s: Search, n: nat)
    requires Enumerates(order, devices) && order != [] && forall r | r in devices :: !ZeroFamily(r)
    requires Ready(s)
    ensures Standing(devices, order, After(devices, s, n), n % (|order| + 1))
  {
    hide Next, Enumerates, Standing, Ready;
    if n == 0 {
      AtStart(devices, order, s);
    } else {
      StandingAfter(devices, order, s, n - 1);
      OneCall(devices, order, After(devices, s, n - 1), (n - 1) % (|order| + 1));
      NextPosition(n - 1, |order| + 1);
    }
  }

  lemma AtStart(devices: set<Rom>, order: seq<Rom>, s: Search)
    requires Ready(s)
    ensures Standing(devices, order, s, 0)
  {
  }

  /** Starting over, successive searches return every device once, in ascending order,
      then report the end once, and then the same cycle repeats for ever. */
  lemma SearchEnumerates(devices: set<Rom>, s: Search) returns (order: seq<Rom>)
    requires devices != {} && Ready(s) && forall r | r in devices :: !ZeroFamily(r)
    ensures |order| == |devices| && Enumerates(order, devices)
    ensures forall n: nat :: var (s', found) := Next(devices, After(devices, s, n));
      var i := n % (|devices| + 1);
      (found <==> i < |devices|) && (found ==> s'.rom == order[i])
  {
    hide Next, Enumerates, Standing, Ready;
    order := Sort(devices);
    forall n: nat
      ensures var (s', found) := Next(devices, After(devices, s, n));
        var i := n % (|devices| + 1);
        (found <==> i < |devices|) && (found ==> s'.rom == order[i])
    {
      StandingAfter(devices, order, s, n);
      OneCall(devices, order, After(devices, s, n), n % (|order| + 1));
    }
  }

  lemma {:induction false} Sort(devices: set<Rom>) returns (order: seq<Rom>)
    ensures |order| == |devices| && Enumerates(order, devices)
    decreases |devices|
  {
    if devices == {} {
      order := [];
    } else {
      var start := Search(NO_ROM, 0, 0, false);
      FirstSearch(devices, start);
      var least := Next(devices, start).0.rom;
      var rest := Sort(devices - {least});
      order := [least] + rest;
      forall j | 0 < j < |order| ensures Less(order[0], order[j]) {
        assert order[j] in rest;
      }
      forall r ensures r in devices <==> r in order {
        assert r in order <==> r == least || r in rest;
      }
    }
  }

  // ---------- devices with family code 0 ----------

  lemma ZeroFamilyComesFirst(r: Rom, z: Rom)
    requires ZeroFamily(z) && Less(r, z)
    ensures ZeroFamily(r)
  {
    var i :| 0 <= i < ROM_BITS && LessAt(r, z, i);
    forall k | 0 <= k < 8 ensures !r[k] {
      assert r[..i][k] == z[..i][k];
    }
  }

  lemma {:induction false} ZeroFamilyStops(devices: set<Rom>, s: Search, n: nat, z: Rom)
    requires Ready(s) && z in devices && ZeroFamily(z)
    ensures Ready(After(devices, s, n)) && !Next(devices, After(devices, s, n)).1
  {
    if n > 0 {
      ZeroFamilyStops(devices, s, n - 1, z);
      FirstSearch(devices, After(devices, s, n - 1));
    }
    FirstSearch(devices, After(devices, s, n));
    var r := Next(devices, After(devices, s, n)).0.rom;
    if r != z { ZeroFamilyComesFirst(r, z); }
  }

  /** A device whose family code is 0 hides all devices: some search succeeds if and
      only if there are devices and none of them has family code 0. */
  lemma SearchFindsIff(devices: set<Rom>, s: Search)
    requires Ready(s)
    ensures (exists n: nat :: Next(devices, After(devices, s, n)).1)
      <==> devices != {} && forall r | r in devices :: !ZeroFamily(r)
  {
    assert After(devices, s, 0) == s;
    hide ZeroFamily, After;
    if devices == {} {
      forall n: nat ensures !Next(devices, After(devices, s, n)).1 {
        FamilyIsLastTurn(devices, After(devices, s, n));
      }
    } else if z :| z in devices && ZeroFamily(z) {
      hide Next;
      forall n: nat ensures !Next(devices, After(devices, s, n)).1 { ZeroFamilyStops(devices, s, n, z); }
    } else {
      hide Next;
      FirstSearch(devices, s);
      assert Next(devices, After(devices, s, 0)).1;
    }
  }
}
