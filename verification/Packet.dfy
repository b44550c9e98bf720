/** packet: bit fields of a five-byte packet.  Words are written as their bits, most
    significant first, so that shifts move them by position. */
module Packet {

  type Bits = seq<bool>

  function Zeros(n: nat): (r: Bits)
    ensures |r| == n
  {
    seq(n, _ => false)
  }

  function Ones(n: nat): (r: Bits)
    ensures |r| == n
  {
    seq(n, _ => true)
  }

  /** x << n, x >> n, x & y and x | y in the width of x. */
  function Left(x: Bits, n: nat): (r: Bits)
    ensures |r| == |x| && forall i | 0 <= i < |x| :: r[i] == (i + n < |x| && x[i + n])
  {
    seq(|x|, i => i >= 0 && i + n < |x| && x[i + n])
  }

  function Right(x: Bits, n: nat): (r: Bits)
    ensures |r| == |x| && forall i | 0 <= i < |x| :: r[i] == (i >= n && x[i - n])
  {
    seq(|x|, i => n <= i < |x| && x[i - n])
  }

  function And(x: Bits, y: Bits): (r: Bits)
    requires |x| == |y|
    ensures |r| == |x| && forall i | 0 <= i < |x| :: r[i] == (x[i] && y[i])
  {
    seq(|x|, i requires 0 <= i < |x| => x[i] && y[i])
  }

  function Or(x: Bits, y: Bits): (r: Bits)
    requires |x| == |y|
    ensures |r| == |x| && forall i | 0 <= i < |x| :: r[i] == (x[i] || y[i])
  {
    seq(|x|, i requires 0 <= i < |x| => x[i] || y[i])
  }

  /** A byte in sixteen bits, as an unsigned and as a signed char. */
  function Wide(b: Bits): (r: Bits)
    ensures |r| == 8 + |b| && forall i | 0 <= i < |r| :: r[i] == (i >= 8 && b[i - 8])
  {
    Zeros(8) + b
  }

  function SignWide(b: Bits): (r: Bits)
    requires |b| == 8
    ensures |r| == 16 && forall i | 8 <= i < 16 :: r[i] == b[i - 8]
  {
    seq(8, _ => b[0]) + b
  }

  /** QTuple: five chars. */
  type Tuple = t: seq<Bits> | |t| == 5 && forall i | 0 <= i < 5 :: |t[i]| == 8
    witness seq(5, _ => Zeros(8))

  // ---------- the code ----------

  type Byte = b: Bits | |b| == 8 witness Zeros(8)

  /** `beyond` is the char behind the packet, which is looked at, and masked away, for a
      field of no bits at the very end. */
  function Read1Byte(pos: nat, length: nat, p: Tuple, beyond: Byte): Bits {
    if length > 8 then Zeros(8)
    else if pos + length > 40 then Zeros(8)
    else
      var rel := pos % 8;
      var temp := if pos / 8 < 5 then p[pos / 8] else beyond;
      if 8 - rel >= length then FromOne(temp, rel, length)
      else FromTwo(temp, p[pos / 8 + 1], rel, length)
  }

  function FromOne(temp: Bits, rel: nat, length: nat): Bits
    requires |temp| == 8 && rel + length <= 8
  {
    And(Right(temp, 8 - (rel + length)), Right(Ones(8), 8 - length))
  }

  function FromTwo(temp: Bits, temp1: Bits, rel: nat, length: nat): Bits
    requires |temp| == |temp1| == 8 && rel < 8 && length <= 8 < rel + length
  {
    Or(Left(And(temp, Right(Ones(8), rel)), length - (8 - rel)), Right(temp1, 16 - length - rel))
  }

  function Read2Byte(pos: nat, length: nat, p: Tuple): Bits {
    if length > 16 || length <= 8 then Zeros(16)
    else if pos + length > 40 then Zeros(16)
    else
      var rel := pos % 8;
      if length + rel <= 16 then WideFromTwo(p[pos / 8], p[pos / 8 + 1], rel, length)
      else WideFromThree(p[pos / 8], p[pos / 8 + 1], p[pos / 8 + 2], rel, length, 8 - (pos + length) % 8)
  }

  function WideFromTwo(temp: Bits, temp1: Bits, rel: nat, length: nat): Bits
    requires |temp| == |temp1| == 8 && rel < 8 < length && length + rel <= 16
  {
    Or(Left(And(SignWide(temp), Right(Wide(Ones(8)), rel)), length - 8 + rel), Wide(Right(temp1, 16 - length - rel)))
  }

  function WideFromThree(temp: Bits, temp1: Bits, temp2: Bits, rel: nat, length: nat, right: nat): Bits
    requires |temp| == |temp1| == |temp2| == 8 && rel < 8 && length <= 16 < length + rel
  {
    Or(Or(Left(And(SignWide(temp), Right(Wide(Ones(8)), rel)), length - 8 + rel),
          Left(And(SignWide(temp1), Wide(Ones(8))), length - 16 + rel)),
       Wide(Right(temp2, right)))
  }

  // ---------- the packet as one string of bits ----------

  function Flat(p: Tuple): (r: Bits)
    ensures |r| == 40 && forall i | 0 <= i < 40 :: r[i] == p[i / 8][i % 8]
  {
    seq(40, i requires 0 <= i < 40 => p[i / 8][i % 8])
  }

  lemma OneIsSlice(a: Bits, rel: nat, length: nat)
    requires |a| == 8 && rel + length <= 8
    ensures FromOne(a, rel, length) == Zeros(8 - length) + a[rel..rel + length]
  {
  }

  lemma TwoAreSlice(a: Bits, b: Bits, rel: nat, length: nat)
    requires |a| == |b| == 8 && rel < 8 && length <= 8 < rel + length
    ensures FromTwo(a, b, rel, length) == Zeros(8 - length) + (a + b)[rel..rel + length]
  {
  }

  lemma WideTwoAreSlice(a: Bits, b: Bits, rel: nat, length: nat)
    requires |a| == |b| == 8 && rel < 8 < length && length + rel <= 16
    ensures WideFromTwo(a, b, rel, length) == Zeros(16 - length) + (a + b)[rel..rel + length]
  {
  }

  lemma WideThreeAreSlice(a: Bits, b: Bits, c: Bits, rel: nat, length: nat)
    requires |a| == |b| == |c| == 8 && rel < 8 && length <= 16 < length + rel
    ensures WideFromThree(a, b, c, rel, length, 24 - length - rel) == Zeros(16 - length) + (a + b + c)[rel..rel + length]
  {
  }

  /** Consecutive bytes are consecutive in the string. */
  lemma Window(p: Tuple, q: nat)
    requires q < 5
    ensures Within(Flat(p), 8 * q, p[q])
    ensures q < 4 ==> Within(Flat(p), 8 * q, p[q] + p[q + 1])
    ensures q < 3 ==> Within(Flat(p), 8 * q, p[q] + p[q + 1] + p[q + 2])
  {
  }

  predicate Within(s: Bits, at: nat, w: Bits) { at + |w| <= |s| && s[at..at + |w|] == w }

  lemma WithinSlice(s: Bits, at: nat, w: Bits, rel: nat, length: nat)
    requires Within(s, at, w) && rel + length <= |w|
    ensures w[rel..rel + length] == s[at + rel..at + rel + length]
  {
    var (x, y) := (w[rel..rel + length], s[at + rel..at + rel + length]);
    forall k | 0 <= k < length ensures x[k] == y[k] {
      assert w[rel + k] == s[at..at + |w|][rel + k];
    }
    assert x == y;
  }

  /** Both readers return the bits from pos on, right-aligned, wherever the field lies. */
  lemma Read1IsSlice(pos: nat, length: nat, p: Tuple, beyond: Byte)
    requires length <= 8 && pos + length <= 40
    ensures Read1Byte(pos, length, p, beyond) == Zeros(8 - length) + Flat(p)[pos..pos + length]
  {
    hide FromOne, FromTwo, Flat, Zeros, Within;
    var (q, rel) := (pos / 8, pos % 8);
    assert pos == 8 * q + rel && rel < 8 && (q == 5 <==> pos == 40);
    if q == 5 {
      OneIsSlice(beyond, 0, 0);
      assert beyond[0..0] == [] == Flat(p)[40..40];
    } else {
      Window(p, q);
      if rel + length <= 8 {
        OneIsSlice(p[q], rel, length);
        WithinSlice(Flat(p), 8 * q, p[q], rel, length);
      } else {
        TwoAreSlice(p[q], p[q + 1], rel, length);
        WithinSlice(Flat(p), 8 * q, p[q] + p[q + 1], rel, length);
      }
    }
  }

  lemma Read2IsSlice(pos: nat, length: nat, p: Tuple)
    requires 8 < length <= 16 && pos + length <= 40
    ensures Read2Byte(pos, length, p) == Zeros(16 - length) + Flat(p)[pos..pos + length]
  {
    hide WideFromTwo, WideFromThree, Flat, Zeros, Within;
    var (q, rel) := (pos / 8, pos % 8);
    assert pos == 8 * q + rel && q < 4 && (length + rel > 16 ==> q < 3 && 8 - (pos + length) % 8 == 24 - length - rel);
    Window(p, q);
    if length + rel <= 16 {
      WideTwoAreSlice(p[q], p[q + 1], rel, length);
      WithinSlice(Flat(p), 8 * q, p[q] + p[q + 1], rel, length);
    } else {
      WideThreeAreSlice(p[q], p[q + 1], p[q + 2], rel, length);
      WithinSlice(Flat(p), 8 * q, p[q] + p[q + 1] + p[q + 2], rel, length);
    }
  }

  /** A field that is too long for the reader, or does not lie in the packet, reads as 0. */
  lemma OutsideReadsAsZero(pos: nat, length: nat, p: Tuple, beyond: Byte)
    ensures length > 8 || pos + length > 40 ==> Read1Byte(pos, length, p, beyond) == Zeros(8)
    ensures length > 16 || length <= 8 || pos + length > 40 ==> Read2Byte(pos, length, p) == Zeros(16)
  {
  }

  // ---------- the fields ----------

  function ReadID(p: Tuple): Bits { Read1Byte(6, 5, p, Zeros(8)) }
  function ReadY(p: Tuple): Bits { Read2Byte(11, 10, p) }
  function ReadX(p: Tuple): Bits { Read2Byte(21, 10, p) }
  function ReadR(p: Tuple): Bits { Read2Byte(31, 9, p) }

  /** 0xFC */
  const HEADER_MASK: Bits := Ones(6) + Zeros(2)

  predicate CheckHeader(header: Bits)
    requires |header| == 8
  {
    And(header, HEADER_MASK) == HEADER_MASK
  }

  /** The low bits of a word that holds a field of that length. */
  function Field(x: Bits, length: nat): Bits
    requires length <= |x|
  {
    x[|x| - length..]
  }

  lemma HeaderIsSixOnes(header: Bits)
    requires |header| == 8
    ensures CheckHeader(header) <==> header[..6] == Ones(6)
  {
    if CheckHeader(header) {
      assert forall i | 0 <= i < 6 :: header[i] == And(header, HEADER_MASK)[i];
    }
  }

  /** Nothing overlaps and nothing is missing: the six bits that checkHeader looks at, ID,
      Y, X and R are the packet. */
  lemma FieldsAreThePacket(p: Tuple)
    ensures |ReadID(p)| == 8 && |ReadY(p)| == |ReadX(p)| == |ReadR(p)| == 16
    ensures Flat(p) == p[0][..6] + Field(ReadID(p), 5) + Field(ReadY(p), 10) + Field(ReadX(p), 10) + Field(ReadR(p), 9)
  {
    hide Read1Byte, Read2Byte;
    Read1IsSlice(6, 5, p, Zeros(8));
    Read2IsSlice(11, 10, p);
    Read2IsSlice(21, 10, p);
    Read2IsSlice(31, 9, p);
    assert p[0][..6] == Flat(p)[..6];
  }
}
