/** The floating-point multiplier: split partial products, normalisation and packing,
    and its four-stage pipeline under back-pressure. */
module FloatMul {
  import opened Words
  import opened Floats

  // ----- The three computing stages -----

  /** After stage 1: sign, ten-bit exponent and the four 12 by 12 partial products. */
  datatype Partials = Partials(sign: bool, zero: bool, exp: nat, hh: nat, hl: nat, lh: nat, ll: nat)

  /** After stage 2: the whole product of the significands. */
  datatype Product = Product(sign: bool, zero: bool, exp: nat, product: nat)

  const LOW := 4096

  function Split(a: Word, b: Word): (p: Partials)
    ensures p.hh < 0x100_0000 && p.hl < 0x100_0000 && p.lh < 0x100_0000 && p.ll < 0x100_0000
  {
    var ma, mb := Significand(a), Significand(b);
    var zero := Exponent(a) == 0 || Exponent(b) == 0;
    TwelveByTwelve(ma / LOW, mb / LOW);
    TwelveByTwelve(ma / LOW, mb % LOW);
    TwelveByTwelve(ma % LOW, mb / LOW);
    TwelveByTwelve(ma % LOW, mb % LOW);
    Partials(SignBit(a) != SignBit(b), zero, (Exponent(a) + Exponent(b) - 127) % 1024,
             (ma / LOW) * (mb / LOW), (ma / LOW) * (mb % LOW), (ma % LOW) * (mb / LOW), (ma % LOW) * (mb % LOW))
  }

  lemma TwelveByTwelve(x: nat, y: nat)
    requires x < LOW && y < LOW
    ensures 0 <= x * y < 0x100_0000
  {
    MulMonotone(x, LOW - 1, y);
    MulNonNegative(x, y);
  }

  function Accumulate(p: Partials): Product {
    Product(p.sign, p.zero, p.exp, (p.hh * 0x100_0000 + p.hl * LOW + p.lh * LOW + p.ll) % 0x1_0000_0000_0000)
  }

  function Normalise(p: Product): Word {
    if p.zero || p.product == 0 then 0
    else
      var top := p.product / 0x8000_0000_0000 % 2 == 1;
      var er := if top then (p.exp + 1) % 1024 else p.exp;
      var mant := if top then p.product / 0x100_0000 % FRACTIONS else p.product / 0x80_0000 % FRACTIONS;
      if er >= 512 || er == 0 then 0
      else if er > 254 then Pack(p.sign, 254, FRACTIONS - 1)
      else Pack(p.sign, er % 256, mant)
  }

  function Multiply(a: Word, b: Word): Word {
    Normalise(Accumulate(Split(a, b)))
  }

  // ----- What the product is -----

  /** The four partial products add up to the exact 48-bit product. */
  lemma PartialProductsSum(a: Word, b: Word)
    ensures Accumulate(Split(a, b)).product == Significand(a) * Significand(b)
    ensures Significand(a) * Significand(b) < 0x1_0000_0000_0000
  {
    var ma, mb := Significand(a), Significand(b);
    SplitProduct(ma, mb, ma / LOW, ma % LOW, mb / LOW, mb % LOW);
    MulStrict(ma, 2 * FRACTIONS, mb);
    assert 2 * FRACTIONS * mb < 2 * FRACTIONS * (2 * FRACTIONS);
  }

  lemma SplitProduct(ma: nat, mb: nat, ah: nat, al: nat, bh: nat, bl: nat)
    requires ma == ah * LOW + al && mb == bh * LOW + bl
    ensures ma * mb == (ah * bh) * 0x100_0000 + (ah * bl) * LOW + (al * bh) * LOW + al * bl
  {
    assert ma * mb == ah * LOW * mb + al * mb;
    assert ah * LOW * mb == LOW * (ah * (bh * LOW)) + LOW * (ah * bl);
    assert ah * (bh * LOW) == (ah * bh) * LOW;
    assert al * (bh * LOW) == (al * bh) * LOW;
  }

  /** The result in terms of the exact product x, in units of 2^-298: zero below the
      normal numbers, the largest finite number above them, else x cut off towards zero. */
  ghost predicate MulSpec(negative: bool, x: nat, r: Word) {
    if x < Pow2(172) then r == 0
    else if x >= Pow2(426) then r == Pack(negative, 254, FRACTIONS - 1)
    else
      && Normal(r) && SignBit(r) == negative
      && Magnitude(r) * Pow2(149) <= x < (Magnitude(r) + Ulp(r)) * Pow2(149)
  }

  lemma ProductRange(p: nat, k: nat, c: nat)
    requires Pow2(46 + c) <= p < Pow2(47 + c)
    ensures Pow2(46 + c + k) <= p * Pow2(k) < Pow2(47 + c + k)
  {
    hide Pow2;
    Pow2Add(46 + c, k);
    Pow2Add(47 + c, k);
    MulMonotone(Pow2(46 + c), p, Pow2(k));
    MulStrict(p, Pow2(47 + c), Pow2(k));
  }

  /** Which range the product falls into is what the exponent says. */
  lemma ExponentRange(x: nat, e: int)
    requires e + 171 >= 0 && Pow2(e + 171) <= x < Pow2(e + 172)
    ensures e <= 0 <==> x < Pow2(172)
    ensures e >= 255 <==> x >= Pow2(426)
  {
    hide Pow2;
    if e <= 0 {
      Pow2Monotone(e + 172, 172);
      Pow2Monotone(172, 426);
    } else {
      Pow2Monotone(172, e + 171);
      if e >= 255 {
        Pow2Monotone(426, e + 171);
      } else {
        Pow2Monotone(e + 172, 426);
      }
    }
  }

  /** Cutting the product after its top 24 bits. */
  lemma CutProduct(p: nat, c: nat, m: nat, e: nat, k: nat)
    requires e >= 1 && k + 23 + c == e + 148 && m == p / Pow2(23 + c)
    ensures m * Pow2(e - 1) * Pow2(149) <= p * Pow2(k) < (m * Pow2(e - 1) + Pow2(e - 1)) * Pow2(149)
  {
    hide Pow2;
    var q, t := Pow2(23 + c), Pow2(k);
    Pow2Add(23 + c, k);
    Pow2Add(e - 1, 149);
    assert e - 1 + 149 == 23 + c + k;
    Remainder(p, q, m);
    MulMonotone(m * q, p, t);
    MulStrict(p, (m + 1) * q, t);
    Associate(m, q, t);
    Associate(m + 1, q, t);
    Associate(m, Pow2(e - 1), Pow2(149));
    Associate(m + 1, Pow2(e - 1), Pow2(149));
    assert (m + 1) * Pow2(e - 1) == m * Pow2(e - 1) + Pow2(e - 1);
  }

  lemma Remainder(p: nat, q: nat, m: nat)
    requires q > 0 && m == p / q
    ensures m * q <= p < (m + 1) * q
  {
  }

  lemma Pow2At46()
    ensures Pow2(46) == 0x4000_0000_0000 && Pow2(47) == 0x8000_0000_0000 && Pow2(48) == 0x1_0000_0000_0000
    ensures Pow2(23) == FRACTIONS && Pow2(24) == 2 * FRACTIONS
  {
    assert Pow2(8) == 256;
    Pow2Add(8, 8);
    Pow2Add(16, 8);
    Pow2Add(24, 24);
  }

  /** The packed fields for a product whose top bit is bit 46 + c. */
  lemma NormalisedFields(q: Product, c: nat, e: int)
    requires c <= 1 && Pow2(46 + c) <= q.product < Pow2(47 + c) && !q.zero
    requires -512 < e < 512 && q.exp < 1024 && (q.exp + c) % 1024 == e % 1024
    ensures e <= 0 ==> Normalise(q) == 0
    ensures e >= 255 ==> Normalise(q) == Pack(q.sign, 254, FRACTIONS - 1)
    ensures 1 <= e <= 254 ==>
              && Exponent(Normalise(q)) == e && SignBit(Normalise(q)) == q.sign
              && Significand(Normalise(q)) == q.product / Pow2(23 + c)
  {
    hide Pow2, Exponent, SignBit, Fraction, Pack;
    Pow2At46();
    ExponentCases(q.exp, c, e);
    if c == 0 {
      TopBit(q.product, 0);
      LeadingOne(q.product, 0x80_0000);
    } else {
      TopBit(q.product, 1);
      LeadingOne(q.product, 0x100_0000);
    }
  }

  /** The ten-bit exponent read as the hardware reads it. */
  lemma ExponentCases(exp: nat, c: nat, e: int)
    requires c <= 1 && -512 < e < 512 && exp < 1024 && (exp + c) % 1024 == e % 1024
    ensures var er := if c == 1 then (exp + 1) % 1024 else exp;
            && (e <= 0 <==> er >= 512 || er == 0) && (1 <= e ==> er == e)
  {
  }

  lemma TopBit(p: nat, c: nat)
    requires c <= 1 && (c == 0 ==> 0x4000_0000_0000 <= p < 0x8000_0000_0000)
    requires c == 1 ==> 0x8000_0000_0000 <= p < 0x1_0000_0000_0000
    ensures p / 0x8000_0000_0000 % 2 == c
  {
  }

  lemma LeadingOne(p: nat, d: nat)
    requires d == 0x80_0000 || d == 0x100_0000
    requires FRACTIONS * d <= p < 2 * FRACTIONS * d
    ensures p / d == FRACTIONS + p / d % FRACTIONS
  {
  }

  /** The exact product of the magnitudes, in units of 2^-298. */
  function ExactProduct(a: Word, b: Word): (x: nat)
    requires Exponent(a) >= 1 && Exponent(b) >= 1
    ensures x == Magnitude(a) * Magnitude(b)
  {
    MulNonNegative(Magnitude(a), Magnitude(b));
    Magnitude(a) * Magnitude(b)
  }

  /** The multiplier's result is the exact product, truncated, for all operands with
      non-zero exponents; otherwise zero. */
  lemma MultiplyIsTruncatedProduct(a: Word, b: Word)
    ensures if Exponent(a) == 0 || Exponent(b) == 0 then Multiply(a, b) == 0
            else MulSpec(SignBit(a) != SignBit(b), ExactProduct(a, b), Multiply(a, b))
  {
    hide Pow2, Exponent, SignBit, Fraction, Significand, Magnitude, ExactProduct, Split, Accumulate, Normalise, Pack, MulSpec;
    StageFields(a, b);
    if Exponent(a) != 0 && Exponent(b) != 0 {
      var p := Significand(a) * Significand(b);
      var c := if p >= 0x8000_0000_0000 then 1 else 0;
      var e, k := Exponent(a) + Exponent(b) - 127 + c, Exponent(a) + Exponent(b) - 2;
      PartialProductsSum(a, b);
      SignificandProduct(a, b);
      Pow2At46();
      ExponentModulo(Exponent(a) + Exponent(b) - 127, c);
      MagnitudeProduct(a, b);
      ProductRange(p, k, c);
      assert 46 + c + k == e + 171 && 47 + c + k == e + 172;
      ExponentRange(p * Pow2(k), e);
      ProductSpec(a, b, Accumulate(Split(a, b)), p, c, e, k);
    }
  }

  lemma StageFields(a: Word, b: Word)
    ensures var q := Accumulate(Split(a, b));
            && q.sign == (SignBit(a) != SignBit(b)) && q.zero == (Exponent(a) == 0 || Exponent(b) == 0)
            && q.exp == (Exponent(a) + Exponent(b) - 127) % 1024
    ensures Exponent(a) == 0 || Exponent(b) == 0 ==> Multiply(a, b) == 0
  {
    hide Exponent, SignBit, Significand;
  }

  lemma ExponentModulo(t: int, c: nat)
    requires c <= 1
    ensures (t % 1024 + c) % 1024 == (t + c) % 1024
  {
  }

  lemma SignificandProduct(a: Word, b: Word)
    ensures 0x4000_0000_0000 <= Significand(a) * Significand(b)
  {
    MulMonotone(FRACTIONS, Significand(a), Significand(b));
  }

  lemma MagnitudeProduct(a: Word, b: Word)
    requires Exponent(a) >= 1 && Exponent(b) >= 1
    ensures ExactProduct(a, b) == Significand(a) * Significand(b) * Pow2(Exponent(a) + Exponent(b) - 2)
  {
    hide Pow2, Exponent, Significand;
    Pow2Add(Exponent(a) - 1, Exponent(b) - 1);
    assert Exponent(a) - 1 + (Exponent(b) - 1) == Exponent(a) + Exponent(b) - 2;
    Regroup(Significand(a), Pow2(Exponent(a) - 1), Significand(b), Pow2(Exponent(b) - 1));
  }

  lemma Regroup(a: nat, b: nat, c: nat, d: nat)
    ensures (a * b) * (c * d) == a * c * (b * d)
  {
  }

  lemma ProductSpec(a: Word, b: Word, q: Product, p: nat, c: nat, e: int, k: nat)
    requires Exponent(a) >= 1 && Exponent(b) >= 1 && q == Accumulate(Split(a, b)) && q.product == p && c <= 1
    requires Pow2(46 + c) <= p < Pow2(47 + c) && e == Exponent(a) + Exponent(b) - 127 + c && k == Exponent(a) + Exponent(b) - 2
    requires (q.exp + c) % 1024 == e % 1024 && q.exp < 1024 && !q.zero && q.sign == (SignBit(a) != SignBit(b))
    requires ExactProduct(a, b) == p * Pow2(k)
    requires (e <= 0 <==> p * Pow2(k) < Pow2(172)) && (e >= 255 <==> p * Pow2(k) >= Pow2(426))
    ensures MulSpec(q.sign, ExactProduct(a, b), Normalise(q))
  {
    hide Pow2, Exponent, SignBit, Fraction, Split, Accumulate, Normalise, Pack, ExactProduct;
    NormalisedFields(q, c, e);
    if 1 <= e <= 254 {
      CutProduct(p, c, p / Pow2(23 + c), e, k);
    }
  }
}
