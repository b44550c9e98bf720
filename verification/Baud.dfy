/** uart and spi_master: choosing the exponent and mantissa of the baud-rate generator. */
module Baud {

  type uint32 = x: int | 0 <= x < 0x1_0000_0000

  /** BAUD_E and BAUD_M + 256. */
  datatype Setting = Setting(exponent: nat, mantissa: nat)

  function Pow2(n: nat): (r: nat)
    ensures r > 0
  {
    if n == 0 then 1 else 2 * Pow2(n - 1)
  }

  /** The rate of a setting is Scaled / 2^28 of the 24 MHz clock (section 12.14.3 of the
      CC2511 datasheet). */
  function Scaled(s: Setting): nat { s.mantissa * Pow2(s.exponent) }

  /** rate <= request, with 2^28 / 24000000 in lowest terms. */
  predicate AtMost(s: Setting, request: nat) { Scaled(s) * 46875 <= request * 524288 }

  predicate InHardware(s: Setting) { 256 <= s.mantissa <= 511 }

  /** No setting of the generator that does not exceed the request is faster. */
  ghost predicate Best(s: Setting, request: nat) {
    AtMost(s, request) && forall t: Setting | InHardware(t) && AtMost(t, request) :: Scaled(t) <= Scaled(s)
  }

  // ---------- what the code computes ----------

  const LARGEST := 495782

  function PreHalved(baud: nat, halvings: nat): (nat, nat) {
    if baud > LARGEST then PreHalved(baud / 2, halvings + 1) else (baud, halvings)
  }

  function Raw(baud: nat): nat { baud * 11 + baud * 8663 / 46875 }

  function Normalized(m: nat, exponent: nat): Setting {
    if m > 0x1ff then Normalized(m / 2, exponent + 1) else Setting(exponent, m)
  }

  /** The loops of both set-up functions. */
  function Computed(request: nat): Setting {
    var (baud, halvings) := PreHalved(request, 0);
    Normalized(Raw(baud), halvings)
  }

  // ---------- powers of two ----------

  lemma {:induction false} Pow2Add(a: nat, b: nat)
    ensures Pow2(a + b) == Pow2(a) * Pow2(b)
  {
    if a > 0 {
      Pow2Add(a - 1, b);
      assert Pow2(a) * Pow2(b) == 2 * (Pow2(a - 1) * Pow2(b));
    }
  }

  lemma ScaleLe(a: nat, b: nat, c: nat)
    requires a <= b
    ensures a * c <= b * c
  {
    assert (b - a) * c >= 0;
  }

  lemma Cancel(a: nat, b: nat, c: nat)
    requires a * c <= b * c && c > 0
    ensures a <= b
  {
    assert (b + 1) * c == b * c + c;
    if a > b {
      ScaleLe(b + 1, a, c);
    }
  }

  /** Two products in another order. */
  lemma Regroup(a: nat, b: nat, c: nat)
    ensures a * b * c == a * c * b == a * (b * c)
  {
  }

  // Halving first or later makes no difference to where a floor lies.
  lemma HalvedFloor(m: nat, q: nat, p: nat)
    ensures q * p <= m / 2 < (q + 1) * p ==> q * (2 * p) <= m < (q + 1) * (2 * p)
  {
    Doubled(q, p);
    Doubled(q + 1, p);
  }

  lemma Doubled(a: nat, p: nat)
    ensures a * (2 * p) == 2 * (a * p)
  {
  }

  // ---------- each loop ----------

  lemma {:induction false} NormalizedIsFloor(m: nat, exponent: nat)
    requires m >= 256
    ensures var s := Normalized(m, exponent);
      && InHardware(s) && s.exponent >= exponent
      && s.mantissa * Pow2(s.exponent - exponent) <= m < (s.mantissa + 1) * Pow2(s.exponent - exponent)
  {
    if m > 0x1ff {
      NormalizedIsFloor(m / 2, exponent + 1);
      var s := Normalized(m, exponent);
      var p := Pow2(s.exponent - exponent - 1);
      assert Pow2(s.exponent - exponent) == 2 * p;
      hide Normalized, Pow2;
      HalvedFloor(m, s.mantissa, p);
    }
  }

  lemma {:induction false} PreHalvedIsFloor(baud: nat, halvings: nat)
    requires baud >= 23
    ensures var (b, k) := PreHalved(baud, halvings);
      && 23 <= b <= LARGEST && k >= halvings
      && b * Pow2(k - halvings) <= baud < (b + 1) * Pow2(k - halvings)
      && (k == halvings <==> baud <= LARGEST)
  {
    if baud > LARGEST {
      PreHalvedIsFloor(baud / 2, halvings + 1);
      var (b, k) := PreHalved(baud, halvings);
      var p := Pow2(k - halvings - 1);
      assert Pow2(k - halvings) == 2 * p;
      hide PreHalved, Pow2;
      HalvedFloor(baud, b, p);
    }
  }

  /** The split multiplication is the exact quotient, and its products fit 32 bits up to
      LARGEST and no further. */
  lemma RawIsExact(baud: nat)
    ensures Raw(baud) == baud * 524288 / 46875
    ensures baud * 8663 < 0x1_0000_0000 <==> baud <= LARGEST
  {
    assert baud * 524288 == baud * 11 * 46875 + baud * 8663;
  }

  // ---------- the setting is the best one ----------

  /** For a request the multiplication can take: no setting in between. */
  lemma NormalizedIsBest(baud: nat)
    requires 23 <= baud
    ensures Best(Normalized(Raw(baud), 0), baud) && InHardware(Normalized(Raw(baud), 0))
  {
    RawIsExact(baud);
    NormalizedIsFloor(Raw(baud), 0);
    var s := Normalized(Raw(baud), 0);
    forall t: Setting | InHardware(t) && AtMost(t, baud)
      ensures Scaled(t) <= Scaled(s)
    {
      assert Scaled(t) <= Raw(baud);
      Ordered(s, t, Raw(baud));
    }
  }

  lemma Ordered(s: Setting, t: Setting, m: nat)
    requires InHardware(s) && InHardware(t) && Scaled(t) <= m < (s.mantissa + 1) * Pow2(s.exponent)
    ensures Scaled(t) <= Scaled(s)
  {
    if t.exponent < s.exponent {
      LowerExponent(s, t);
    } else if t.exponent > s.exponent {
      Pow2Doubles(s.exponent, t.exponent);
      hide Pow2;
      ScaleLe(256, t.mantissa, Pow2(t.exponent));
      ScaleLe(s.mantissa + 1, 512, Pow2(s.exponent));
    } else {
      if t.mantissa > s.mantissa {
        ScaleLe(s.mantissa + 1, t.mantissa, Pow2(s.exponent));
      }
      ScaleLe(t.mantissa, s.mantissa, Pow2(s.exponent));
    }
  }

  lemma LowerExponent(s: Setting, t: Setting)
    requires InHardware(s) && InHardware(t) && t.exponent < s.exponent
    ensures Scaled(t) <= Scaled(s)
  {
    Pow2Doubles(t.exponent, s.exponent);
    hide Pow2;
    ScaleLe(t.mantissa, 512, Pow2(t.exponent));
    ScaleLe(256, s.mantissa, Pow2(s.exponent));
  }

  lemma Pow2Doubles(a: nat, b: nat)
    requires a < b
    ensures 2 * Pow2(a) <= Pow2(b)
  {
    Pow2Add(b - a - 1, a + 1);
    ScaleLe(1, Pow2(b - a - 1), Pow2(a + 1));
  }

  lemma {:induction false} NormalizedShifts(m: nat, exponent: nat)
    ensures Normalized(m, exponent) == var s := Normalized(m, 0); s.(exponent := s.exponent + exponent)
    decreases m
  {
    if m > 0x1ff {
      NormalizedShifts(m / 2, exponent + 1);
      NormalizedShifts(m / 2, 1);
    }
  }

  /** The request without what the halvings lost. */
  function Rounded(request: nat): nat {
    var (b, k) := PreHalved(request, 0);
    b * Pow2(k)
  }

  /** For every request from 23 up, the setting is the best for the rounded request. */
  lemma ComputedIsBestForRounded(request: nat)
    requires request >= 23
    ensures InHardware(Computed(request)) && Best(Computed(request), Rounded(request))
  {
    var (b, k) := PreHalved(request, 0);
    PreHalvedIsFloor(request, 0);
    NormalizedIsBest(b);
    NormalizedShifts(Raw(b), k);
    var s0 := Normalized(Raw(b), 0);
    var s := Computed(request);
    ScaledShifts(s0, k);
    hide Computed, Normalized, PreHalved, Pow2, Scaled;
    ScaleLe(Scaled(s0) * 46875, b * 524288, Pow2(k));
    Regroup(Scaled(s0), Pow2(k), 46875);
    Regroup(b, Pow2(k), 524288);
    forall t: Setting | InHardware(t) && AtMost(t, Rounded(request))
      ensures Scaled(t) <= Scaled(s)
    {
      hide Best;
      if t.exponent < k {
        LowerExponent(s, t);
      } else {
        BestScales(s0, t, b, k);
      }
    }
  }

  lemma ScaledShifts(s: Setting, k: nat)
    ensures Scaled(s.(exponent := s.exponent + k)) == Scaled(s) * Pow2(k)
  {
    Pow2Add(s.exponent, k);
    Regroup(s.mantissa, Pow2(s.exponent), Pow2(k));
  }

  lemma BestScales(s: Setting, t: Setting, b: nat, k: nat)
    requires Best(s, b) && InHardware(t) && t.exponent >= k && AtMost(t, b * Pow2(k))
    ensures Scaled(t) <= Scaled(s) * Pow2(k)
  {
    var t0 := t.(exponent := t.exponent - k);
    var p := Pow2(k);
    ScaledShifts(t0, k);
    hide Pow2, Scaled;
    Regroup(Scaled(t0), p, 46875);
    Regroup(b, p, 524288);
    Cancel(Scaled(t0) * 46875, b * 524288, p);
    ScaleLe(Scaled(t0), Scaled(s), p);
  }

  // ---------- the main results ----------

  lemma RoundedIsBelow(request: nat)
    requires request >= 23
    ensures var k := PreHalved(request, 0).1;
      && Rounded(request) <= request < Rounded(request) + Pow2(k)
      && (k == 0 <==> request <= LARGEST)
  {
    PreHalvedIsFloor(request, 0);
    var (b, k) := PreHalved(request, 0);
    hide PreHalved, Pow2;
    assert (b + 1) * Pow2(k) == b * Pow2(k) + Pow2(k);
  }

  // In the hardware's range different settings are different rates.
  lemma SameRateSameSetting(s: Setting, t: Setting)
    requires InHardware(s) && InHardware(t) && Scaled(s) == Scaled(t)
    ensures s == t
  {
    if s.exponent < t.exponent {
      LowerIsSlower(s, t);
    } else if t.exponent < s.exponent {
      LowerIsSlower(t, s);
    } else {
      hide Pow2;
      Cancel(s.mantissa, t.mantissa, Pow2(s.exponent));
      Cancel(t.mantissa, s.mantissa, Pow2(s.exponent));
    }
  }

  lemma LowerIsSlower(s: Setting, t: Setting)
    requires InHardware(s) && InHardware(t) && s.exponent < t.exponent
    ensures Scaled(s) < Scaled(t)
  {
    var p, q := Pow2(s.exponent), Pow2(t.exponent);
    Pow2Doubles(s.exponent, t.exponent);
    hide Pow2;
    ScaleLe(s.mantissa, 511, p);
    ScaleLe(256, t.mantissa, q);
  }

  /** How often the request is halved before it is multiplied. */
  function Halvings(request: nat): nat { PreHalved(request, 0).1 }

  /** It is halved only as often as needed to make the multiplication fit. */
  lemma HalvingsAreLeast(request: nat)
    requires request >= 23
    ensures request / Pow2(Halvings(request)) <= LARGEST
    ensures forall k | 0 <= k < Halvings(request) :: request / Pow2(k) > LARGEST
    ensures PreHalved(request, 0).0 == request / Pow2(Halvings(request))
  {
    HalvedFrom(request, 0, request);
  }

  // After h halvings `baud` is left of `request`.
  lemma {:induction false} HalvedFrom(request: nat, h: nat, baud: nat)
    requires baud == request / Pow2(h) && baud >= 23
    ensures var (b, k) := PreHalved(baud, h);
      && k >= h && b == request / Pow2(k) <= LARGEST
      && forall j | h <= j < k :: request / Pow2(j) > LARGEST
    decreases baud
  {
    if baud > LARGEST {
      HalfOfQuotient(request, Pow2(h));
      hide Pow2;
      HalvedFrom(request, h + 1, baud / 2);
    }
  }

  lemma HalfOfQuotient(n: nat, p: nat)
    requires p > 0
    ensures n / p / 2 == n / (2 * p)
  {
    var q, h, odd := n / p, n / p / 2, n / p % 2;
    Doubled(h, p);
    Regroup(2, h, p);
    OneMoreOrNot(2 * h, odd, p);
    QuotientIs(n, 2 * p, h, odd * p + n % p);
  }

  lemma OneMoreOrNot(a: nat, b: nat, p: nat)
    requires b == 0 || b == 1
    ensures (a + b) * p == a * p + b * p && b * p == if b == 0 then 0 else p
  {
  }

  lemma QuotientIs(n: nat, d: nat, q: nat, r: nat)
    requires n == q * d + r && r < d
    ensures n / d == q
  {
    var q' := n / d;
    assert n == q' * d + n % d;
    if q' > q {
      ScaleLe(q + 1, q', d);
    } else if q' < q {
      ScaleLe(q' + 1, q, d);
    }
  }

  /** The exponent that brings the mantissa of the request into range. */
  function Exponent(request: nat): nat { Normalized(Raw(request), 0).exponent }

  /** The rate never exceeds the request.  It is the best possible one if and only if what
      the halvings drop from the request is no more than what a mantissa at its exponent
      cannot express anyway (a rate is mantissa * 2^exponent * 46875 / 524288); up to
      LARGEST it always is. */
  lemma BestIff(request: nat)
    requires request >= 23
    ensures AtMost(Computed(request), request)
    ensures Best(Computed(request), request) <==>
      request % Pow2(Halvings(request)) * 524288 <= request * 524288 % (Pow2(Exponent(request)) * 46875)
    ensures request <= LARGEST ==> Best(Computed(request), request)
  {
    ComputedIsBestForRounded(request);
    RoundedIsBelow(request);
    NormalizedIsBest(request);
    NothingLost(request);
    Dropped(request);
    Inexpressible(request);
    hide Computed, Normalized, Raw, Rounded, Scaled, PreHalved;
    var s, best := Computed(request), Normalized(Raw(request), 0);
    if Best(s, request) || AtMost(best, Rounded(request)) {
      SameRateSameSetting(s, best);
    }
  }

  lemma Dropped(request: nat)
    requires request >= 23
    ensures Pow2(Halvings(request)) > 0 && request % Pow2(Halvings(request)) == request - Rounded(request)
  {
    RoundedIsBelow(request);
    var (b, k) := PreHalved(request, 0);
    Remainder(request, Pow2(k), b);
  }

  lemma Inexpressible(request: nat)
    requires request >= 23
    ensures Pow2(Exponent(request)) * 46875 > 0
    ensures request * 524288 % (Pow2(Exponent(request)) * 46875)
      == request * 524288 - Scaled(Normalized(Raw(request), 0)) * 46875
  {
    RawIsExact(request);
    NormalizedIsFloor(Raw(request), 0);
    var s := Normalized(Raw(request), 0);
    var p := Pow2(s.exponent);
    NextStep(s);
    hide Raw, Normalized, Pow2;
    Regroup(s.mantissa, p, 46875);
    Remainder(request * 524288, p * 46875, s.mantissa);
  }

  lemma Remainder(n: nat, d: nat, q: nat)
    requires q * d <= n < q * d + d
    ensures d > 0 && n % d == n - q * d
  {
    var q': nat, r: nat := n / d, n % d;
    assert n == q' * d + r;
    assert (q' + 1) * d == q' * d + d;
    assert (q + 1) * d == q * d + d;
    if q' < q {
      ScaleLe(q' + 1, q, d);
    } else if q' > q {
      ScaleLe(q + 1, q', d);
    }
  }

  lemma NothingLost(request: nat)
    ensures request <= LARGEST ==> Computed(request) == Normalized(Raw(request), 0)
  {
  }

  /** The rate falls short of the request by less than one step of the mantissa and, with k
      halvings before the multiplication, another 2^k; all in units of rate. */
  lemma ShortfallIsSmall(request: nat)
    requires request >= 23
    ensures var s, k := Computed(request), PreHalved(request, 0).1;
      request * 524288 < (Scaled(s) + Pow2(s.exponent)) * 46875 + Pow2(k) * 524288
    ensures request <= LARGEST ==> var s := Computed(request);
      request * 524288 < (Scaled(s) + Pow2(s.exponent)) * 46875
  {
    var (b, k) := PreHalved(request, 0);
    RoundedIsBelow(request);
    BelowNextStep(request);
    assert k == 0 ==> Pow2(k) == 1 && Rounded(request) == request;
    hide Computed, PreHalved, Scaled, Rounded;
  }

  // The rounded request lies below the next step of the mantissa.
  lemma BelowNextStep(request: nat)
    requires request >= 23
    ensures var s := Computed(request); Rounded(request) * 524288 < (Scaled(s) + Pow2(s.exponent)) * 46875
  {
    var (b, k) := PreHalved(request, 0);
    PreHalvedIsFloor(request, 0);
    RawIsExact(b);
    NormalizedIsFloor(Raw(b), 0);
    NormalizedShifts(Raw(b), k);
    var s0 := Normalized(Raw(b), 0);
    var next := Setting(s0.exponent, s0.mantissa + 1);
    ScaledShifts(next, k);
    NextStep(Computed(request));
    assert b * 524288 < Scaled(next) * 46875;
    hide Computed, Normalized, Raw, PreHalved, Pow2, Scaled;
    Stretch(b * 524288, Scaled(next) * 46875, Pow2(k));
    Regroup(b, Pow2(k), 524288);
    Regroup(Scaled(next), Pow2(k), 46875);
  }

  lemma Stretch(a: nat, b: nat, c: nat)
    requires a < b && c > 0
    ensures a * c < b * c
  {
    assert (a + 1) * c == a * c + c;
    ScaleLe(a + 1, b, c);
  }

  lemma NextStep(s: Setting)
    ensures Scaled(s.(mantissa := s.mantissa + 1)) == Scaled(s) + Pow2(s.exponent)
  {
  }

  /** The accepted range keeps the exponent within the generator's reach. */
  lemma ExponentFits(request: nat)
    requires 23 <= request <= 3000000
    ensures Computed(request).exponent <= 17
    ensures request <= 1500000 ==> Computed(request).exponent <= 16
  {
    BestIff(request);
    ComputedIsBestForRounded(request);
    var s := Computed(request);
    hide Computed, Pow2, Best;
    ScaleLe(256, s.mantissa, Pow2(s.exponent));
    if s.exponent > 16 {
      Pow2Doubles(16, s.exponent);
    }
    if s.exponent > 17 {
      Pow2Doubles(17, s.exponent);
    }
    Pow2Values();
  }

  lemma Pow2Values()
    ensures Pow2(14) == 0x4000 && Pow2(16) == 0x1_0000 && Pow2(17) == 0x2_0000
  {
    assert Pow2(3) == 8 && Pow2(4) == 16;
    Pow2Add(4, 3);
    Pow2Add(7, 7);
    assert Pow2(15) == 0x8000;
  }

  /** Above LARGEST a faster setting can be missed: 496583 gives mantissa 338, but 339 does
      not exceed the request. */
  lemma HalvingCanMissTheBest()
    ensures Computed(496583) == Setting(14, 338) && !Best(Computed(496583), 496583)
  {
    Pow2Values();
    assert PreHalved(496583, 0) == PreHalved(248291, 1) == (248291, 1);
    var m := Raw(248291);
    assert m == 2777087;
    assert Normalized(m, 1) == Normalized(347135, 4) == Normalized(43391, 7) == Normalized(5423, 10) == Setting(14, 338);
    assert AtMost(Setting(14, 339), 496583);
  }

  // ---------- the two drivers ----------

  /** UNGCR and UNBAUD. */
  class Usart {
    var gcr: bv8
    var baudM: nat

    method HalveRequest(request: uint32) returns (baud: uint32, baudE: nat)
      ensures (baud, baudE) == PreHalved(request, 0)
    {
      baud, baudE := request, 0;
      while baud > LARGEST
        invariant PreHalved(baud, baudE) == PreHalved(request, 0)
      {
        baudE := baudE + 1;
        baud := baud / 2;
      }
    }

    /** Both set-up functions up to the register writes; every product fits 32 bits. */
    method Calculate(request: uint32) returns (baudE: nat, baudMPlus256: uint32)
      requires request >= 23
      ensures Setting(baudE, baudMPlus256) == Computed(request)
    {
      var baud: uint32;
      baud, baudE := HalveRequest(request);
      PreHalvedIsFloor(request, 0);
      var whole: uint32 := baud * 11;
      var product: uint32 := baud * 8663;
      baudMPlus256 := whole + product / 46875;
      while baudMPlus256 > 0x1ff
        invariant Normalized(baudMPlus256, baudE) == Computed(request)
      {
        baudE := baudE + 1;
        baudMPlus256 := baudMPlus256 / 2;
      }
    }

    /** uartNSetBaudRate */
    method SetBaudRate(baud: uint32)
      modifies this
      ensures baud < 23 || baud > 1500000 ==> gcr == old(gcr) && baudM == old(baudM)
      ensures 23 <= baud <= 1500000 ==>
        Setting(gcr as nat, 256 + baudM) == Computed(baud) && baudM < 256
    {
      if baud < 23 || baud > 1500000 {
        return;
      }
      var baudE, baudMPlus256 := Calculate(baud);
      ExponentFits(baud);
      ComputedIsBestForRounded(baud);
      hide Computed, Best, Rounded;
      ExponentByte(baudE);
      gcr := baudE as bv8;
      baudM := baudMPlus256 % 256;
    }

    /** spiNMasterSetFrequency keeps polarity, phase and bit order. */
    method SetFrequency(freq: uint32)
      modifies this
      ensures freq < 23 || freq > 3000000 ==> gcr == old(gcr) && baudM == old(baudM)
      ensures 23 <= freq <= 3000000 ==>
        Setting((gcr & 0x1F) as nat, 256 + baudM) == Computed(freq) && baudM < 256 && gcr & 0xE0 == old(gcr) & 0xE0
    {
      if freq < 23 || freq > 3000000 {
        return;
      }
      var baudE, baudMPlus256 := Calculate(freq);
      ExponentFits(freq);
      ComputedIsBestForRounded(freq);
      hide Computed, Best, Rounded;
      ExponentByte(baudE);
      var e := baudE as bv8;
      FieldsApart(gcr, e);
      gcr := gcr & 0xE0;
      gcr := gcr | e;
      baudM := baudMPlus256 % 256;
    }
  }

  lemma ExponentByte(e: nat)
    requires e < 32
    ensures (e as bv8) as nat == e && e as bv8 < 32
  {
  }

  lemma FieldsApart(g: bv8, e: bv8)
    requires e < 32
    ensures ((g & 0xE0) | e) & 0x1F == e && ((g & 0xE0) | e) & 0xE0 == g & 0xE0
  {
  }
}
