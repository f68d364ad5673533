/** Conversions between single-precision numbers and signed integers. */
module FloatConvert {
  import opened Words
  import opened Floats

  // ----- Number to integer -----

  function ToInt(f: Word): Word {
    var fe := Exponent(f);
    if fe == 0 then 0
    else if fe < 127 then 0
    else if fe >= 158 then (if SignBit(f) then 0x8000_0000 else 0x7FFF_FFFF)
    else
      var expU := (fe - 127) % 32;
      var mag := if expU >= 23 then Significand(f) * Pow2(expU - 23) % WORD_COUNT else Significand(f) / Pow2(23 - expU);
      if SignBit(f) then ToWord(0 - mag) else ToWord(mag)
  }

  /** The integer the conversion should deliver: the number cut off towards zero,
      saturated at the ends of the 32-bit range. m counts units of 2^-149. */
  function Whole(negative: bool, m: nat): int {
    if m >= Pow2(180) then (if negative then -0x8000_0000 else 0x7FFF_FFFF)
    else if negative then 0 - m / Pow2(149) else m / Pow2(149)
  }

  /** Zeros and denormal numbers of either sign convert to zero. */
  lemma SmallIsZero(f: Word)
    requires f / 0x80_0000 % 256 == 0
    ensures ToInt(f) == 0
  {
  }

  lemma SignificandTimes(m: nat, k: nat, j: nat)
    requires FRACTIONS <= m < 2 * FRACTIONS && j == k + 23
    ensures Pow2(j) <= m * Pow2(k) < Pow2(j + 1)
  {
    hide Pow2;
    Pow2At23();
    Pow2Add(23, k);
    Pow2Add(24, k);
    assert 23 + k == j && 24 + k == j + 1;
    MulMonotone(FRACTIONS, m, Pow2(k));
    MulStrict(m, 2 * FRACTIONS, Pow2(k));
  }

  lemma Pow2At23()
    ensures Pow2(23) == FRACTIONS && Pow2(24) == 2 * FRACTIONS && Pow2(31) == 0x8000_0000 && Pow2(32) == WORD_COUNT && Pow2(8) == 256
  {
    assert Pow2(8) == 256 && Pow2(7) == 128;
    Pow2Add(8, 8);
    Pow2Add(16, 7);
    Pow2Add(16, 8);
    Pow2Add(24, 7);
    Pow2At32();
  }

  /** Shifting left: an exponent of 150 or more counts whole units. */
  lemma ShiftedLeft(m: nat, fe: nat, q: nat)
    requires FRACTIONS <= m < 2 * FRACTIONS && 150 <= fe < 158 && q == m * Pow2(fe - 150)
    ensures m * Pow2(fe - 1) / Pow2(149) == q && q < 0x8000_0000
  {
    hide Pow2;
    Pow2Add(fe - 150, 149);
    assert fe - 150 + 149 == fe - 1;
    Associate(m, Pow2(fe - 150), Pow2(149));
    QuotientUnique(m * Pow2(fe - 1), Pow2(149), q, 0);
    SignificandTimes(m, fe - 150, fe - 127);
    Pow2Monotone(fe - 126, 31);
    Pow2At23();
  }

  /** Shifting right drops exactly the fraction. */
  lemma ShiftedRight(m: nat, fe: nat, q: nat)
    requires FRACTIONS <= m < 2 * FRACTIONS && 127 <= fe < 150 && q == m / Pow2(150 - fe)
    ensures m * Pow2(fe - 1) / Pow2(149) == q && q < 0x8000_0000
  {
    hide Pow2;
    var p, t := Pow2(150 - fe), Pow2(fe - 1);
    Pow2Add(150 - fe, fe - 1);
    assert 150 - fe + (fe - 1) == 149;
    CutQuotient(m, p, t, q);
    MulMonotone(1, p, q);
    Quotient(m, p, q);
  }

  lemma Quotient(m: nat, p: nat, q: nat)
    requires p > 0 && q == m / p
    ensures q * p <= m < q * p + p && p * q == q * p
  {
  }

  lemma CutQuotient(m: nat, p: nat, t: nat, q: nat)
    requires p > 0 && t > 0 && q == m / p
    ensures p * t > 0 && m * t / (p * t) == q
  {
    Quotient(m, p, q);
    var r := m - q * p;
    MulStrict(r, p, t);
    MulAtLeast(t, p);
    assert t * p == p * t;
    assert m * t == q * (p * t) + r * t by {
      assert (q * p + r) * t == q * p * t + r * t;
      Associate(q, p, t);
    }
    MulNonNegative(r, t);
    QuotientUnique(m * t, p * t, q, r * t);
  }

  /** The magnitude in the range that needs no saturation. */
  lemma InRange(f: Word)
    requires 127 <= Exponent(f) < 158
    ensures Signed(ToInt(f)) == if SignBit(f) then 0 - Magnitude(f) / Pow2(149) else Magnitude(f) / Pow2(149)
  {
    hide Pow2, Exponent, SignBit, Significand, Signed, ToWord;
    var fe, m := Exponent(f), Significand(f);
    var q := if fe >= 150 then m * Pow2(fe - 150) else m / Pow2(150 - fe);
    if fe >= 150 {
      ShiftedLeft(m, fe, q);
    } else {
      ShiftedRight(m, fe, q);
    }
    SignedRoundTrip(0, q);
    SignedRoundTrip(0, 0 - q);
  }

  lemma OutOfRange(f: Word)
    requires 1 <= Exponent(f) && !(127 <= Exponent(f) < 158)
    ensures Signed(ToInt(f)) == if Exponent(f) < 127 then 0 else if SignBit(f) then -0x8000_0000 else 0x7FFF_FFFF
  {
    hide Exponent, SignBit;
  }

  /** The conversion delivers the whole part, for every number with non-zero exponent. */
  lemma ToIntIsWholePart(f: Word)
    requires Exponent(f) >= 1
    ensures Signed(ToInt(f)) == Whole(SignBit(f), Magnitude(f))
  {
    hide Pow2, Exponent, SignBit, Significand, Signed, ToInt;
    var fe, m := Exponent(f), Significand(f);
    SignificandTimes(m, fe - 1, fe + 22);
    assert fe + 22 + 1 == fe + 23;
    if fe >= 158 {
      OutOfRange(f);
      Pow2Monotone(180, fe + 22);
    } else {
      Pow2Monotone(fe + 23, 180);
      if fe < 127 {
        OutOfRange(f);
        Pow2Monotone(fe + 23, 149);
        QuotientUnique(Magnitude(f), Pow2(149), 0, Magnitude(f));
      } else {
        InRange(f);
      }
    }
  }

  // ----- Integer to number -----

  /** The result is the integer cut off towards zero at 24 significant bits. */
  ghost predicate FromIntSpec(v: int, r: Word) {
    if v == 0 then r == 0 else Normal(r) && Truncates(r, v * Pow2(149))
  }

  lemma ShiftedInt(mag: nat, pos: nat)
    requires pos < 32 && Pow2(pos) <= mag < 2 * Pow2(pos)
    ensures 0x8000_0000 <= mag * Pow2(31 - pos) < WORD_COUNT
    ensures mag * Pow2(149) == mag * Pow2(31 - pos) * Pow2(118 + pos)
  {
    hide Pow2;
    Pow2Add(pos, 31 - pos);
    assert pos + (31 - pos) == 31;
    Pow2At23();
    MulMonotone(Pow2(pos), mag, Pow2(31 - pos));
    MulStrict(mag, 2 * Pow2(pos), Pow2(31 - pos));
    Associate(2, Pow2(pos), Pow2(31 - pos));
    Pow2Add(31 - pos, 118 + pos);
    assert 31 - pos + (118 + pos) == 149;
    Associate(mag, Pow2(31 - pos), Pow2(118 + pos));
  }

  /** Dropping the low eight bits of a number that counts t's. */
  lemma DropLowByte(norm: nat, t: nat)
    requires t > 0
    ensures norm / 256 * (256 * t) <= norm * t < norm / 256 * (256 * t) + 256 * t
  {
    var m := norm / 256;
    MulMonotone(m * 256, norm, t);
    MulStrict(norm, (m + 1) * 256, t);
    Associate(m, 256, t);
    Associate(m + 1, 256, t);
    assert (m + 1) * (256 * t) == m * (256 * t) + 256 * t;
  }

  lemma PackedInt(v: int, mag: nat, pos: nat, r: Word)
    requires v != 0 && mag == Abs(v) && pos < 32 && Pow2(pos) <= mag < 2 * Pow2(pos)
    requires r == Pack(v < 0, 127 + pos, mag * Pow2(31 - pos) / 256 % FRACTIONS)
    ensures 0x8000_0000 <= mag * Pow2(31 - pos) < WORD_COUNT
    ensures Significand(r) == mag * Pow2(31 - pos) / 256 && Ulp(r) == Pow2(126 + pos)
    ensures FromIntSpec(v, r)
  {
    hide Pow2, SignBit, Pack;
    ShiftedInt(mag, pos);
    Pow2At23();
    Pow2Add(8, 118 + pos);
    assert 8 + (118 + pos) == 126 + pos;
    DropLowByte(mag * Pow2(31 - pos), Pow2(118 + pos));
    SignScaled(v, mag);
  }

  lemma SignScaled(v: int, mag: nat)
    requires v != 0 && mag == Abs(v)
    ensures Abs(v * Pow2(149)) == mag * Pow2(149) && (v * Pow2(149) < 0 <==> v < 0)
  {
    hide Pow2;
    MulAtLeast(mag, Pow2(149));
    if v < 0 {
      assert v * Pow2(149) == -(mag * Pow2(149));
    }
  }

  lemma NormalisedInt(v: int, mag: nat, pos: nat, r: Word)
    requires v != 0 && mag == Abs(v) && pos < 32 && Pow2(pos) <= mag < 2 * Pow2(pos)
    requires r == Pack(v < 0, (127 + pos) % 256, mag * Pow2(31 - pos) % WORD_COUNT / 256 % FRACTIONS)
    ensures FromIntSpec(v, r)
  {
    hide Pow2, Pack, FromIntSpec;
    ShiftedInt(mag, pos);
    QuotientUnique(mag * Pow2(31 - pos), WORD_COUNT, 0, mag * Pow2(31 - pos));
    PackedInt(v, mag, pos, r);
  }

  method FromInt(x: Word) returns (r: Word)
    ensures FromIntSpec(Signed(x), r)
  {
    hide Pow2, Pack, Normal, Truncates;
    if x == 0 {
      return 0;
    }
    var xs := x >= 0x8000_0000;
    var mag := if xs then ToWord(0 - x) else x;
    assert mag < Pow2(32) by { Pow2At23(); }
    var pos := HighestBit(mag, 32);
    var sh := 31 - pos;
    var shifted := mag * Pow2(sh);
    var norm := shifted % WORD_COUNT;
    var fe := (127 + pos) % 256;
    r := Pack(xs, fe, norm / 256 % FRACTIONS);
    NormalisedInt(Signed(x), mag, pos, r);
  }

  // ----- Round trips -----

  /** A magnitude cut off at its top 24 significant bits. */
  function Top24(m: nat): nat {
    if m < 0x100_0000 then m else 2 * Top24(m / 2)
  }

  function TopBits(v: int): int {
    if v < 0 then 0 - Top24(-v) else Top24(v)
  }

  lemma {:induction false} Top24Is(m: nat, k: nat)
    requires FRACTIONS * Pow2(k) <= m < 2 * FRACTIONS * Pow2(k)
    ensures Top24(m) == m / Pow2(k) * Pow2(k)
    decreases k
  {
    if k > 0 {
      var p := Pow2(k - 1);
      assert Pow2(k) == 2 * p;
      Top24Is(m / 2, k - 1);
      HalfQuotient(m, p);
      assert m / Pow2(k) * Pow2(k) == 2 * (m / 2 / p * p);
    }
  }

  lemma HalfQuotient(m: nat, p: nat)
    requires p > 0
    ensures m / 2 / p == m / (2 * p)
  {
    var q, r := m / (2 * p), m % (2 * p);
    assert m == q * (2 * p) + r;
    assert q * (2 * p) == 2 * (q * p);
    QuotientUnique(m / 2, p, q, r / 2);
  }

  lemma SignedRange(v: int)
    requires -0x8000_0000 <= v < 0x8000_0000 && v != 0
    ensures 0 < Abs(v) < Pow2(32)
  {
    Pow2At23();
  }

  /** The whole part of a converted integer is its top 24 bits. */
  lemma WholeOfInt(mag: nat, pos: nat, m: nat)
    requires pos < 32 && Pow2(pos) <= mag < 2 * Pow2(pos) && m == mag * Pow2(31 - pos) / 256
    ensures m * Pow2(126 + pos) == Top24(mag) * Pow2(149)
  {
    hide Pow2;
    Pow2At23();
    if pos <= 23 {
      Pow2Add(23 - pos, 8);
      assert 23 - pos + 8 == 31 - pos;
      Associate(mag, Pow2(23 - pos), 256);
      QuotientUnique(mag * Pow2(31 - pos), 256, mag * Pow2(23 - pos), 0);
      Pow2Add(23 - pos, 126 + pos);
      assert 23 - pos + (126 + pos) == 149;
      Associate(mag, Pow2(23 - pos), Pow2(126 + pos));
      Pow2Monotone(pos, 23);
    } else {
      var k := pos - 23;
      Pow2Add(23, k);
      assert 23 + k == pos;
      Top24Is(mag, k);
      Pow2Add(k, 31 - pos);
      assert k + (31 - pos) == 8;
      CutQuotient(mag, Pow2(k), Pow2(31 - pos), mag / Pow2(k));
      Pow2Add(k, 149);
      assert k + 149 == 126 + pos;
      Associate(m, Pow2(k), Pow2(149));
    }
  }

  /** Integer to number and back keeps the top 24 bits of the magnitude, and so loses
      nothing up to 2^24. */
  lemma IntRoundTrip(x: Word, r: Word)
    requires FromIntSpec(Signed(x), r)
    ensures Signed(ToInt(r)) == TopBits(Signed(x))
    ensures -0x100_0000 <= Signed(x) <= 0x100_0000 ==> ToInt(r) == x
  {
    hide Pow2, SignBit, Exponent, Fraction, ToInt, Whole, Top24;
    var v := Signed(x);
    ZeroToInt();
    var mag := Abs(v);
    Top24Bounds(mag);
    if v != 0 {
      SignedRange(v);
      var pos := LeadingBit(mag, 32);
      var r0 := Pack(v < 0, 127 + pos, mag * Pow2(31 - pos) / 256 % FRACTIONS);
      PackedInt(v, mag, pos, r0);
      TruncatesUnique(r, r0, v * Pow2(149));
      WholeOfInt(mag, pos, Significand(r));
      ToIntIsWholePart(r);
      WholeExact(v < 0, Top24(mag));
    }
  }

  lemma ZeroToInt()
    ensures ToInt(0) == 0
  {
    hide Pow2, SignBit, Significand;
    assert Exponent(0) == 0;
  }

  lemma {:induction false} Top24Bounds(m: nat)
    ensures Top24(m) <= m && (m > 0 ==> Top24(m) > 0)
    ensures m <= 0x100_0000 ==> Top24(m) == m
  {
    if m >= 0x100_0000 {
      Top24Bounds(m / 2);
    }
  }

  /** A whole number in range is its own whole part; -2^31 saturates to itself. */
  lemma WholeExact(negative: bool, m: nat)
    requires m <= 0x8000_0000 && (m == 0x8000_0000 ==> negative)
    ensures Whole(negative, m * Pow2(149)) == if negative then 0 - m else m
  {
    hide Pow2;
    Pow2Add(31, 149);
    Pow2At23();
    QuotientUnique(m * Pow2(149), Pow2(149), m, 0);
    if m < 0x8000_0000 {
      MulStrict(m, 0x8000_0000, Pow2(149));
    }
  }

  /** Number to integer and back is the identity on every whole number that is a 32-bit
      signed integer, -2^31 included. */
  lemma NumberRoundTrip(f: Word, r: Word)
    requires Normal(f) && Magnitude(f) % Pow2(149) == 0
    requires Magnitude(f) < Pow2(180) || (SignBit(f) && Magnitude(f) == Pow2(180))
    requires FromIntSpec(Signed(ToInt(f)), r)
    ensures r == f
  {
    hide Pow2, SignBit, Exponent, Fraction, ToInt;
    if Magnitude(f) == Pow2(180) {
      SmallestInteger(f, r);
    } else {
      WholeRoundTrip(f, r);
    }
  }

  /** The most negative integer, at the very end of the range. */
  lemma SmallestInteger(f: Word, r: Word)
    requires Normal(f) && SignBit(f) && Magnitude(f) == Pow2(180) && FromIntSpec(Signed(ToInt(f)), r)
    ensures r == f
  {
    hide Pow2, SignBit, Exponent, Fraction, ToInt;
    ToIntIsWholePart(f);
    Pow2Add(31, 149);
    Pow2At23();
    SignScaled(-0x8000_0000, 0x8000_0000);
    TruncatesUnique(r, f, -0x8000_0000 * Pow2(149));
  }

  lemma WholeTruncates(f: Word)
    requires Normal(f) && Magnitude(f) % Pow2(149) == 0
    ensures var w := Magnitude(f) / Pow2(149);
            var v := if SignBit(f) then 0 - w else w;
            v != 0 && Truncates(f, v * Pow2(149))
  {
    hide Pow2, SignBit, Exponent, Significand;
    var w := Magnitude(f) / Pow2(149);
    assert Magnitude(f) == w * Pow2(149);
    MagnitudePositive(f);
    SignScaled(if SignBit(f) then 0 - w else w, w);
  }

  lemma WholeRoundTrip(f: Word, r: Word)
    requires Normal(f) && Magnitude(f) % Pow2(149) == 0 && Magnitude(f) < Pow2(180)
    requires FromIntSpec(Signed(ToInt(f)), r)
    ensures r == f
  {
    hide Pow2, SignBit, Exponent, Fraction, Significand, Magnitude, Truncates, ToInt;
    ToIntIsWholePart(f);
    WholeTruncates(f);
    TruncatesUnique(r, f, Signed(ToInt(f)) * Pow2(149));
  }

  lemma MagnitudePositive(f: Word)
    requires Exponent(f) >= 1
    ensures Magnitude(f) > 0
  {
    MulAtLeast(Significand(f), Ulp(f));
  }
}
