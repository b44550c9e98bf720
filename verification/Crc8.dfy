/** The 1-Wire CRC-8: the two implementations agree, and which errors it detects. */
module Crc8 {
  import opened Crc8Table

  type Bytes = seq<bv8>

  /** The CRC of a message: its bytes are added in and divided out one by one. */
  function Crc(data: Bytes): bv8 {
    if data == [] then 0 else Eight(Xor(Crc(data[..|data| - 1]), data[|data| - 1]))
  }

  // ---------- the two implementations ----------

  lemma CrcOneMore(data: Bytes, i: nat)
    requires i < |data|
    ensures Crc(data[..i + 1]) == Eight(Xor(Crc(data[..i]), data[i]))
  {
    assert data[..i + 1][..i] == data[..i];
  }

  // `len` counts down and the address up; `addr[0..]` is what lies there.
  method Crc8ByTable(addr: Bytes, len: nat) returns (crc: bv8)
    requires len <= |addr|
    ensures crc == Crc(addr[..len])
  {
    hide Eight, Lookup;
    crc := 0;
    for i := 0 to len
      invariant crc == Crc(addr[..i])
    {
      CrcOneMore(addr, i);
      TableIsBitwise(crc ^ addr[i]);
      crc := Lookup(crc ^ addr[i]);
    }
  }

  function Steps(x: bv8, n: nat): bv8
    decreases n
  {
    if n == 0 then x else Step(Steps(x, n - 1))
  }

  lemma EightSteps(x: bv8)
    ensures Steps(x, 8) == Eight(x)
  {
    assert Steps(x, 2) == Step(Step(x));
    assert Steps(x, 4) == Step(Step(Steps(x, 2)));
    assert Steps(x, 6) == Step(Step(Steps(x, 4)));
  }

  function Shifted(b: bv8, n: nat): bv8
    decreases n
  {
    if n == 0 then b else Shifted(b, n - 1) >> 1
  }

  lemma ShiftedOut(b: bv8)
    ensures Shifted(b, 8) == 0
  {
    assert Shifted(b, 2) == b >> 1 >> 1;
    assert Shifted(b, 4) == Shifted(b, 2) >> 1 >> 1;
    assert Shifted(b, 6) == Shifted(b, 4) >> 1 >> 1;
  }

  // One turn of the inner loop on the CRC.
  function Turn(crc: bv8, inByte: bv8): bv8 {
    if (crc ^ inByte) & 0x01 != 0 then (crc >> 1) ^ 0x8C else crc >> 1
  }

  // Seen on the sum of the CRC and what is left of the byte, a turn is one step.
  lemma TurnIsStep(crc: bv8, inByte: bv8)
    ensures Xor(Turn(crc, inByte), inByte >> 1) == Step(Xor(crc, inByte))
  {
  }

  lemma XorZero(x: bv8)
    ensures Xor(x, 0) == x
  {
  }

  method TurnOnce(crc: bv8, inByte: bv8) returns (next: bv8)
    ensures next == Turn(crc, inByte)
  {
    var mix := (crc ^ inByte) & 0x01;
    next := crc >> 1;
    if mix != 0 {
      next := next ^ 0x8C;
    }
  }

  // The inner loop.
  method DivideByte(previous: bv8, byte: bv8) returns (crc: bv8)
    ensures crc == Eight(Xor(previous, byte))
  {
    hide Eight, Step, Xor, Turn;
    ghost var sum := Xor(previous, byte);
    crc := previous;
    var inByte := byte;
    var i := 8;
    while i > 0
      invariant 0 <= i <= 8 && Xor(crc, inByte) == Steps(sum, 8 - i) && inByte == Shifted(byte, 8 - i)
    {
      TurnIsStep(crc, inByte);
      crc := TurnOnce(crc, inByte);
      inByte := inByte >> 1;
      i := i - 1;
    }
    EightSteps(sum);
    ShiftedOut(byte);
    XorZero(crc);
  }

  method Crc8Bitwise(addr: Bytes, len: nat) returns (crc: bv8)
    requires len <= |addr|
    ensures crc == Crc(addr[..len])
  {
    hide Eight;
    crc := 0;
    for k := 0 to len
      invariant crc == Crc(addr[..k])
    {
      CrcOneMore(addr, k);
      crc := DivideByte(crc, addr[k]);
    }
  }

  // ---------- what it detects ----------

  /** A message followed by its CRC has CRC 0. */
  lemma AppendedCrcIsZero(data: Bytes)
    ensures Crc(data + [Crc(data)]) == 0
  {
    var c := Crc(data);
    assert (data + [c])[..|data|] == data;
    XorSelf(c);
  }

  lemma XorSelf(x: bv8)
    ensures Xor(x, x) == 0 && Eight(0) == 0
  {
  }

  lemma StepIsInjective(x: bv8, y: bv8)
    requires Step(x) == Step(y)
    ensures x == y
  {
  }

  lemma {:induction false} StepsAreInjective(x: bv8, y: bv8, n: nat)
    requires Steps(x, n) == Steps(y, n)
    ensures x == y
  {
    if n > 0 {
      StepIsInjective(Steps(x, n - 1), Steps(y, n - 1));
      StepsAreInjective(x, y, n - 1);
    }
  }

  lemma EightIsInjective(x: bv8, y: bv8)
    requires Eight(x) == Eight(y)
    ensures x == y
  {
    EightSteps(x);
    EightSteps(y);
    StepsAreInjective(x, y, 8);
  }

  lemma XorCancels(x: bv8, y: bv8, z: bv8)
    ensures Xor(x, z) == Xor(y, z) ==> x == y
    ensures Xor(z, x) == Xor(z, y) ==> x == y
  {
  }

  /** Two messages of the same length with the same CRC that differ in one byte at
      most are the same message. */
  lemma {:induction false} OneByteErrorIsDetected(data: Bytes, other: Bytes, i: nat)
    requires |data| == |other| && i < |data| && data[i] != other[i]
    requires forall k | 0 <= k < |data| && k != i :: data[k] == other[k]
    ensures Crc(data) != Crc(other)
    decreases |data|
  {
    hide Eight, Xor;
    var n := |data| - 1;
    if Crc(data) == Crc(other) {
      EightIsInjective(Xor(Crc(data[..n]), data[n]), Xor(Crc(other[..n]), other[n]));
      if i == n {
        assert data[..n] == other[..n];
        XorCancels(data[n], other[n], Crc(data[..n]));
      } else {
        XorCancels(Crc(data[..n]), Crc(other[..n]), data[n]);
        OneByteErrorIsDetected(data[..n], other[..n], i);
      }
    }
  }

  // ---------- bursts ----------

  // The part of an eight-bit window starting at bit `j` of one byte that lies in that
  // byte, and the part that lies in the next.
  function InFirst(w: bv8, j: nat): bv8
    requires 0 < j < 8
  {
    match j
    case 1 => w << 1 case 2 => w << 2 case 3 => w << 3 case 4 => w << 4
    case 5 => w << 5 case 6 => w << 6 case _ => w << 7
  }

  function InSecond(w: bv8, j: nat): bv8
    requires 0 < j < 8
  {
    match j
    case 1 => w >> 7 case 2 => w >> 6 case 3 => w >> 5 case 4 => w >> 4
    case 5 => w >> 3 case 6 => w >> 2 case _ => w >> 1
  }

  lemma WindowShows(w: bv8, j: nat)
    requires w != 0 && 0 < j < 8
    ensures Eight(InFirst(w, j)) != InSecond(w, j)
  {
    match j
    case 1 => case 2 => case 3 => case 4 => case 5 => case 6 => case _ =>
  }

  /** The message with the wrong bits of the window `w`, bit `j` of byte `i` onwards. */
  function Burst(data: Bytes, i: nat, j: nat, w: bv8): Bytes
    requires 0 < j < 8 && i + 1 < |data|
  {
    data[i := Xor(data[i], InFirst(w, j))][i + 1 := Xor(data[i + 1], InSecond(w, j))]
  }

  // A difference stays a difference through bytes that are the same.
  lemma {:induction false} SameBytesKeepDifference(data: Bytes, other: Bytes, m: nat)
    requires |data| == |other| && m <= |data| && forall k | m <= k < |data| :: data[k] == other[k]
    requires Crc(data[..m]) != Crc(other[..m])
    ensures Crc(data) != Crc(other)
    decreases |data|
  {
    if m == |data| {
      assert data[..m] == data && other[..m] == other;
    } else {
      hide Eight, Xor;
      var n := |data| - 1;
      var d, o := data[..n], other[..n];
      assert d[..m] == data[..m] && o[..m] == other[..m];
      SameBytesKeepDifference(d, o, m);
      if Crc(data) == Crc(other) {
        EightIsInjective(Xor(Crc(d), data[n]), Xor(Crc(o), other[n]));
        XorCancels(Crc(d), Crc(o), data[n]);
      }
    }
  }

  lemma EightOfSum(c: bv8, x: bv8, e: bv8)
    ensures Eight(Xor(c, Xor(x, e))) == Xor(Eight(Xor(c, x)), Eight(e))
  {
    assert Xor(c, Xor(x, e)) == Xor(Xor(c, x), e);
    EightXor(Xor(c, x), e);
  }

  /** Wrong bits that all lie within eight consecutive ones change the CRC, also across
      the border of two bytes; within one byte this is OneByteErrorIsDetected. */
  lemma BurstIsDetected(data: Bytes, i: nat, j: nat, w: bv8)
    requires 0 < j < 8 && i + 1 < |data| && w != 0
    ensures Crc(Burst(data, i, j, w)) != Crc(data)
  {
    var other := Burst(data, i, j, w);
    var a, b := InFirst(w, j), InSecond(w, j);
    WindowShows(w, j);
    hide Eight, Xor, InFirst, InSecond;
    assert other[..i] == data[..i] && other[i] == Xor(data[i], a) && other[i + 1] == Xor(data[i + 1], b);
    CrcOneMore(data, i);
    CrcOneMore(other, i);
    EightOfSum(Crc(data[..i]), data[i], a);
    var c := Crc(data[..i + 1]);
    assert Crc(other[..i + 1]) == Xor(c, Eight(a));
    CrcOneMore(data, i + 1);
    CrcOneMore(other, i + 1);
    if Crc(other[..i + 2]) == Crc(data[..i + 2]) {
      EightIsInjective(Xor(Xor(c, Eight(a)), Xor(data[i + 1], b)), Xor(c, data[i + 1]));
      DifferencesCancel(c, data[i + 1], Eight(a), b);
    }
    SameBytesKeepDifference(other, data, i + 2);
  }

  lemma DifferencesCancel(c: bv8, x: bv8, e: bv8, b: bv8)
    ensures Xor(Xor(c, e), Xor(x, b)) == Xor(c, x) ==> e == b
  {
  }

  // ---------- odd numbers of wrong bits ----------

  function OnesLow(x: bv8): nat {
    (if x & 0x01 != 0 then 1 else 0) + (if x & 0x02 != 0 then 1 else 0)
    + (if x & 0x04 != 0 then 1 else 0) + (if x & 0x08 != 0 then 1 else 0)
  }

  function Ones(x: bv8): nat { OnesLow(x) + OnesLow(x >> 4) }

  /** The number of bits in which two messages differ. */
  function Distance(data: Bytes, other: Bytes): nat
    requires |data| == |other|
  {
    if data == [] then 0
    else Distance(data[..|data| - 1], other[..|data| - 1]) + Ones(Xor(data[|data| - 1], other[|data| - 1]))
  }

  predicate Odd(x: bv8) { Ones(x) % 2 == 1 }

  lemma StepKeepsParity(x: bv8)
    ensures Odd(Step(x)) == Odd(x)
  {
  }

  lemma XorParityLow(x: bv8, y: bv8)
    ensures OnesLow(Xor(x, y)) % 2 == (OnesLow(x) + OnesLow(y)) % 2
  {
  }

  lemma XorParity(x: bv8, y: bv8)
    ensures Odd(Xor(x, y)) == (Odd(x) != Odd(y))
  {
    hide OnesLow;
    XorParityLow(x, y);
    XorParityLow(x >> 4, y >> 4);
    assert Xor(x, y) >> 4 == Xor(x >> 4, y >> 4);
  }

  lemma EightKeepsParity(x: bv8)
    ensures Odd(Eight(x)) == Odd(x)
  {
    hide Odd, Step;
    var x4 := Step(Step(Step(Step(x))));
    StepKeepsParity(x);
    StepKeepsParity(Step(x));
    StepKeepsParity(Step(Step(x)));
    StepKeepsParity(Step(Step(Step(x))));
    StepKeepsParity(x4);
    StepKeepsParity(Step(x4));
    StepKeepsParity(Step(Step(x4)));
    StepKeepsParity(Step(Step(Step(x4))));
  }

  lemma CrcParity(data: Bytes)
    requires data != []
    ensures Odd(Crc(data)) == (Odd(Crc(data[..|data| - 1])) != Odd(data[|data| - 1]))
  {
    hide Eight, Xor, Odd;
    EightKeepsParity(Xor(Crc(data[..|data| - 1]), data[|data| - 1]));
    XorParity(Crc(data[..|data| - 1]), data[|data| - 1]);
  }

  predicate OddDistance(data: Bytes, other: Bytes)
    requires |data| == |other|
  {
    Distance(data, other) % 2 == 1
  }

  lemma DistanceParity(data: Bytes, other: Bytes)
    requires |data| == |other| && data != []
    ensures var n := |data| - 1;
      OddDistance(data, other) == (OddDistance(data[..n], other[..n]) != Odd(Xor(data[n], other[n])))
  {
    hide Ones, Xor;
  }

  lemma {:induction false} ParityOfDistance(data: Bytes, other: Bytes)
    requires |data| == |other|
    ensures (Odd(Crc(data)) != Odd(Crc(other))) == OddDistance(data, other)
    decreases |data|
  {
    if data == [] {
      assert other == [];
    } else {
      hide Crc, Xor, Odd, OddDistance;
      var n := |data| - 1;
      ParityOfDistance(data[..n], other[..n]);
      DistanceParity(data, other);
      CrcParity(data);
      CrcParity(other);
      XorParity(data[n], other[n]);
    }
  }

  /** Any odd number of wrong bits changes the CRC, in messages of any length. */
  lemma OddErrorIsDetected(data: Bytes, other: Bytes)
    requires |data| == |other| && OddDistance(data, other)
    ensures Crc(data) != Crc(other)
  {
    ParityOfDistance(data, other);
  }

  // ---------- two wrong bits ----------

  /** The message with bit `p` inverted, counting each byte's bits from the least
      significant one. */
  function Flip(data: Bytes, p: nat): Bytes
    requires p < 8 * |data|
  {
    data[p / 8 := Xor(data[p / 8], BitMask(p % 8))]
  }

  function BitMask(j: nat): bv8
    requires j < 8
  {
    match j
    case 0 => 0x01 case 1 => 0x02 case 2 => 0x04 case 3 => 0x08
    case 4 => 0x10 case 5 => 0x20 case 6 => 0x40 case _ => 0x80
  }

  lemma {:induction false} StepsAdd(x: bv8, m: nat, n: nat)
    ensures Steps(x, m + n) == Steps(Steps(x, m), n)
    decreases n
  {
    if n > 0 {
      StepsAdd(x, m, n - 1);
      assert Steps(x, m + n) == Step(Steps(x, m + n - 1));
    }
  }

  // A single bit contributes as many steps as there are bits from it to the end.
  lemma BitMaskSteps(j: nat)
    requires j < 8
    ensures Eight(BitMask(j)) == Steps(0x01, 8 - j)
  {
    assert Steps(BitMask(j), j) == 0x01 by { DownToOne(j); }
    EightSteps(BitMask(j));
    StepsAdd(BitMask(j), j, 8 - j);
  }

  lemma {:induction false} DownToOne(j: nat)
    requires j < 8
    ensures Steps(BitMask(j), j) == 0x01
  {
    if j > 0 {
      DownToOne(j - 1);
      assert Step(BitMask(j)) == BitMask(j - 1);
      StepsAdd(BitMask(j), 1, j - 1);
      assert Steps(BitMask(j), 1) == Step(Steps(BitMask(j), 0));
    }
  }

  lemma XorRearranges(x: bv8, y: bv8, z: bv8)
    ensures Xor(Xor(x, y), z) == Xor(Xor(x, z), y) && Xor(x, Xor(y, z)) == Xor(Xor(x, y), z)
  {
  }

  lemma {:induction false} FlipShiftsCrc(data: Bytes, p: nat)
    requires p < 8 * |data|
    ensures Crc(Flip(data, p)) == Xor(Crc(data), Steps(0x01, 8 * |data| - p))
    decreases |data|
  {
    hide Eight, Xor, BitMask;
    var n := |data| - 1;
    var flipped := Flip(data, p);
    if p / 8 == n {
      assert flipped[..n] == data[..n];
      XorRearranges(Crc(data[..n]), data[n], BitMask(p % 8));
      EightXor(Xor(Crc(data[..n]), data[n]), BitMask(p % 8));
      BitMaskSteps(p % 8);
    } else {
      FlipShiftsCrc(data[..n], p);
      assert flipped[..n] == Flip(data[..n], p);
      var shift := Steps(0x01, 8 * n - p);
      XorRearranges(Crc(data[..n]), shift, data[n]);
      EightXor(Xor(Crc(data[..n]), data[n]), shift);
      EightSteps(shift);
      StepsAdd(0x01, 8 * n - p, 8);
    }
  }

  // The steps from a single bit, eight at a time.
  function Checkpoint(q: nat): bv8 {
    match q
    case 0 => 1 case 1 => 94 case 2 => 196 case 3 => 171 case 4 => 143 case 5 => 205 case 6 => 55 case 7 => 61
    case 8 => 67 case 9 => 164 case 10 => 206 case 11 => 213 case 12 => 104 case 13 => 167 case 14 => 44 case _ => 128
  }

  lemma CheckpointsFollow(q: nat)
    requires q < 15
    ensures Eight(Checkpoint(q)) == Checkpoint(q + 1)
  {
  }

  lemma NextCheckpoint(q: nat)
    requires q < 15 && Steps(0x01, 8 * q) == Checkpoint(q)
    ensures Steps(0x01, 8 * (q + 1)) == Checkpoint(q + 1)
  {
    CheckpointsFollow(q);
    hide Checkpoint, Eight;
    StepsAdd(0x01, 8 * q, 8);
    EightSteps(Checkpoint(q));
  }

  lemma {:induction false} CheckpointSteps(q: nat)
    requires q < 16
    ensures Steps(0x01, 8 * q) == Checkpoint(q)
  {
    if q > 0 {
      hide Checkpoint, Steps;
      CheckpointSteps(q - 1);
      NextCheckpoint(q - 1);
    }
  }

  lemma OneOnlyAtTheEnds(q: nat, j: nat)
    requires q < 16 && j < 8
    ensures Steps(Checkpoint(q), j) == 0x01 <==> (q == 0 && j == 0) || (q == 15 && j == 7)
  {
    match (q, j)
    case (0, 0) => case (0, 1) => case (0, 2) => case (0, 3) => case (0, 4) => case (0, 5) => case (0, 6) => case (0, 7) =>
    case (1, 0) => case (1, 1) => case (1, 2) => case (1, 3) => case (1, 4) => case (1, 5) => case (1, 6) => case (1, 7) =>
    case (2, 0) => case (2, 1) => case (2, 2) => case (2, 3) => case (2, 4) => case (2, 5) => case (2, 6) => case (2, 7) =>
    case (3, 0) => case (3, 1) => case (3, 2) => case (3, 3) => case (3, 4) => case (3, 5) => case (3, 6) => case (3, 7) =>
    case (4, 0) => case (4, 1) => case (4, 2) => case (4, 3) => case (4, 4) => case (4, 5) => case (4, 6) => case (4, 7) =>
    case (5, 0) => case (5, 1) => case (5, 2) => case (5, 3) => case (5, 4) => case (5, 5) => case (5, 6) => case (5, 7) =>
    case (6, 0) => case (6, 1) => case (6, 2) => case (6, 3) => case (6, 4) => case (6, 5) => case (6, 6) => case (6, 7) =>
    case (7, 0) => case (7, 1) => case (7, 2) => case (7, 3) => case (7, 4) => case (7, 5) => case (7, 6) => case (7, 7) =>
    case (8, 0) => case (8, 1) => case (8, 2) => case (8, 3) => case (8, 4) => case (8, 5) => case (8, 6) => case (8, 7) =>
    case (9, 0) => case (9, 1) => case (9, 2) => case (9, 3) => case (9, 4) => case (9, 5) => case (9, 6) => case (9, 7) =>
    case (10, 0) => case (10, 1) => case (10, 2) => case (10, 3) => case (10, 4) => case (10, 5) => case (10, 6) => case (10, 7) =>
    case (11, 0) => case (11, 1) => case (11, 2) => case (11, 3) => case (11, 4) => case (11, 5) => case (11, 6) => case (11, 7) =>
    case (12, 0) => case (12, 1) => case (12, 2) => case (12, 3) => case (12, 4) => case (12, 5) => case (12, 6) => case (12, 7) =>
    case (13, 0) => case (13, 1) => case (13, 2) => case (13, 3) => case (13, 4) => case (13, 5) => case (13, 6) => case (13, 7) =>
    case (14, 0) => case (14, 1) => case (14, 2) => case (14, 3) => case (14, 4) => case (14, 5) => case (14, 6) => case (14, 7) =>
    case (15, 0) => case (15, 1) => case (15, 2) => case (15, 3) => case (15, 4) => case (15, 5) => case (15, 6) => case (15, 7) =>
  }

  // The steps from a single bit come round after exactly 127.
  lemma Orbit(k: nat)
    requires 0 < k <= 127
    ensures Steps(0x01, k) == 0x01 <==> k == 127
  {
    hide Checkpoint;
    StepsAdd(0x01, 8 * (k / 8), k % 8);
    CheckpointSteps(k / 8);
    OneOnlyAtTheEnds(k / 8, k % 8);
  }

  lemma {:induction false} OrbitRepeats(k: nat)
    ensures Steps(0x01, k) == 0x01 <==> k % 127 == 0
  {
    if k > 127 {
      Orbit(127);
      StepsAdd(0x01, 127, k - 127);
      OrbitRepeats(k - 127);
    } else if k > 0 {
      Orbit(k);
    }
  }

  /** Two wrong bits change the CRC unless they are a multiple of 127 bits apart; in a
      64-bit ROM number they always do. */
  lemma TwoBitErrorIsDetectedIff(data: Bytes, p: nat, q: nat)
    requires p < q < 8 * |data|
    ensures Crc(Flip(Flip(data, p), q)) != Crc(data) <==> (q - p) % 127 != 0
    ensures |data| <= 15 ==> Crc(Flip(Flip(data, p), q)) != Crc(data)
  {
    var n := 8 * |data|;
    hide Crc, Flip, Steps;
    FlipLength(data, p);
    FlipShiftsCrc(data, p);
    FlipShiftsCrc(Flip(data, p), q);
    XorPair(Crc(data), Steps(0x01, n - p), Steps(0x01, n - q));
    StepsAdd(0x01, q - p, n - q);
    if Steps(0x01, n - p) == Steps(0x01, n - q) {
      StepsAreInjective(Steps(0x01, q - p), 0x01, n - q);
    }
    OrbitRepeats(q - p);
  }

  lemma FlipLength(data: Bytes, p: nat)
    requires p < 8 * |data|
    ensures |Flip(data, p)| == |data|
  {
  }

  lemma XorPair(c: bv8, x: bv8, y: bv8)
    ensures Xor(Xor(c, x), y) == c <==> x == y
  {
    hide Xor;
    XorRearranges(c, x, y);
    XorZero(c);
    XorCancels(Xor(x, y), 0, c);
    XorSelf(y);
    XorCancels(x, y, y);
  }
}
