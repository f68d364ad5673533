/** The floating-point adder's datapath and how close it comes to the exact sum. */
module FloatAdd {
  import opened Words
  import opened Floats

  const HIDDEN := 0x200_0000 // bit 25: the leading one of an aligned operand
  const CARRY := 0x400_0000  // bit 26

  /** The second operand with its sign turned for a subtraction. */
  function Effective(b: Word, subtract: bool): (e: Word)
    ensures Exponent(e) == Exponent(b) && Fraction(e) == Fraction(b) && SignBit(e) == (SignBit(b) != subtract)
  {
    Pack(SignBit(b) != subtract, Exponent(b), Fraction(b))
  }

  /** Subtracting is adding the negated operand. */
  lemma EffectiveNegates(b: Word, subtract: bool)
    ensures Exponent(b) >= 1 ==> Scaled(Effective(b, subtract)) == if subtract then 0 - Scaled(b) else Scaled(b)
    ensures !subtract ==> Effective(b, subtract) == b
  {
    hide Pow2;
    FieldsUnique(b);
  }

  const SMALLEST_NORMAL := 0x80_0000

  /** What the adder delivers: one operand if the other has a zero exponent; otherwise a
      result less than one last bit away from the exact sum, which is the exact sum cut
      off towards zero when no subtraction of magnitudes is involved; zero exactly when
      the sum is below the normal numbers, and exponent 255 exactly when it is above. */
  ghost predicate AddSpec(a: Word, b: Word, r: Word) {
    if Exponent(a) == 0 && Exponent(b) == 0 then r == 0
    else if Exponent(a) == 0 then r == b
    else if Exponent(b) == 0 then r == a
    else if Exponent(a) == 255 || Exponent(b) == 255 then true
    else SumSpec(SignBit(a) == SignBit(b), Scaled(a) + Scaled(b), r)
  }

  ghost predicate SumSpec(sameSigns: bool, exact: int, r: Word) {
    if Abs(exact) < SMALLEST_NORMAL then r == 0
    else
      && Exponent(r) >= 1
      && (Exponent(r) == 255 <==> Abs(exact) >= Pow2(277))
      && Abs(Scaled(r) - exact) < Ulp(r)
      && (sameSigns ==> Truncates(r, exact))
  }

  // ----- Alignment -----

  /** Four times the magnitudes, over the weight w of the larger exponent. The aligned
      significands lose less than one unit of w, and only by cutting the smaller one. */
  ghost predicate Aligned(x: nat, y: nat, ma: nat, xb: nat, mb: nat, d: nat, w: nat, v: nat) {
    && x == 4 * ma * w && y == 4 * mb * v
    && w == Pow2(d) * v && xb == 4 * mb / Pow2(d)
  }

  /** The smaller operand shifted right, with the shift amount cut to five bits. */
  lemma ShiftedOut(mb: nat, d: nat)
    requires mb < 0x100_0000
    ensures d > 25 ==> 4 * mb / Pow2(d) == 0
    ensures d <= 25 ==> d % 32 == d
  {
    if d > 25 {
      Pow2Monotone(26, d);
      Pow2At26();
      QuotientUnique(4 * mb, Pow2(d), 0, 4 * mb);
    }
  }

  lemma Pow2At26()
    ensures Pow2(26) == CARRY && Pow2(25) == HIDDEN && Pow2(24) == 0x100_0000
  {
    assert Pow2(8) == 256;
    Pow2Add(8, 8);
    Pow2Add(16, 8);
  }

  lemma CutBounds(y: nat, p: nat, q: nat)
    requires p > 0 && q == y / p
    ensures q * p <= y < q * p + p
  {
  }

  /** y = 4 mb v lies between xb w and (xb + 1) w. */
  lemma CutScaled(y4: nat, p: nat, q: nat, v: nat)
    requires p > 0 && v > 0 && q * p <= y4 < q * p + p
    ensures q * (p * v) <= y4 * v < (q + 1) * (p * v)
  {
    MulNonNegative(y4 - q * p, v);
    assert (y4 - q * p) * v == y4 * v - q * (p * v);
    MulAtLeast(q * p + p - y4, v);
    assert (q * p + p - y4) * v == (q + 1) * (p * v) - y4 * v;
  }

  lemma CutY(x: nat, y: nat, ma: nat, xb: nat, mb: nat, d: nat, w: nat, v: nat)
    requires Aligned(x, y, ma, xb, mb, d, w, v) && v > 0
    ensures xb * w <= y < xb * w + w
  {
    CutBounds(4 * mb, Pow2(d), xb);
    CutScaled(4 * mb, Pow2(d), xb, v);
    assert (xb + 1) * w == xb * w + w;
  }

  /** With an exponent difference of at most two nothing is cut. */
  lemma CutExact(x: nat, y: nat, ma: nat, xb: nat, mb: nat, d: nat, w: nat, v: nat)
    requires Aligned(x, y, ma, xb, mb, d, w, v) && v > 0 && d <= 2
    ensures y == xb * w
  {
    assert Pow2(0) == 1 && Pow2(1) == 2 && Pow2(2) == 4;
    hide Pow2;
    ExactQuotient(mb, Pow2(d));
    Associate(xb, Pow2(d), v);
  }

  lemma ExactQuotient(mb: nat, p: nat)
    requires p == 1 || p == 2 || p == 4
    ensures 4 * mb / p * p == 4 * mb
  {
    if p == 1 {
      assert 4 * mb / 1 == 4 * mb;
    } else if p == 2 {
      assert 4 * mb / 2 == 2 * mb;
    } else {
      assert 4 * mb / 4 == mb;
    }
  }

  /** With an exponent difference of three or more the smaller operand is below a quarter. */
  lemma CutSmall(mb: nat, d: nat)
    requires mb < 0x100_0000 && d >= 3
    ensures 4 * mb / Pow2(d) < 0x80_0000
  {
    Pow2Monotone(3, d);
    assert Pow2(3) == 8;
    QuotientBelow(4 * mb, Pow2(d), 0x80_0000);
  }

  // ----- The sum in units of w -----

  /** How the 27-bit sum s relates to four times the exact magnitude z. */
  ghost predicate SumOk(sameSigns: bool, s: nat, z: nat, w: nat) {
    if sameSigns then s * w <= z < s * w + w && s >= HIDDEN
    else z == s * w || (s * w - w < z <= s * w && s > 0x100_0000 && w >= 8)
  }

  lemma SumAligned(x: nat, y: nat, ma: nat, xb: nat, mb: nat, d: nat, w: nat, v: nat)
    requires Aligned(x, y, ma, xb, mb, d, w, v) && v > 0 && FRACTIONS <= ma < 2 * FRACTIONS && FRACTIONS <= mb < 2 * FRACTIONS
    ensures SumOk(true, 4 * ma + xb, x + y, w)
    ensures 4 * ma + xb < 2 * CARRY
  {
    CutY(x, y, ma, xb, mb, d, w, v);
    assert (4 * ma + xb) * w == 4 * ma * w + xb * w;
    QuotientBelow(4 * mb, Pow2(d), CARRY) by {
      MulAtLeast(Pow2(d), CARRY);
      assert CARRY * Pow2(d) == Pow2(d) * CARRY;
    }
  }

  /** The difference of the aligned significands against the exact difference. */
  ghost predicate DifferenceOk(x: nat, y: nat, xa: nat, xb: nat, w: nat) {
    if xa >= xb then x >= y && SumOk(false, xa - xb, x - y, w) else y > x && SumOk(false, xb - xa, y - x, w)
  }

  lemma ExactDifference(x: nat, y: nat, xa: nat, xb: nat, w: nat)
    requires w > 0 && x == xa * w && y == xb * w
    ensures DifferenceOk(x, y, xa, xb, w)
  {
    var t := xa - xb;
    assert t * w == x - y && (-t) * w == y - x;
    SignOfProduct(t, w);
  }

  lemma CutDifference(x: nat, y: nat, xa: nat, xb: nat, w: nat)
    requires w >= 8 && x == xa * w && xb * w <= y < xb * w + w && xa >= HIDDEN && xb < 0x80_0000
    ensures DifferenceOk(x, y, xa, xb, w)
  {
    var t := xa - xb;
    assert t * w == xa * w - xb * w;
    MulAtLeast(t, w);
  }

  lemma DifferenceAligned(x: nat, y: nat, ma: nat, xb: nat, mb: nat, d: nat, w: nat, v: nat)
    requires Aligned(x, y, ma, xb, mb, d, w, v) && v > 0 && FRACTIONS <= ma < 2 * FRACTIONS && FRACTIONS <= mb < 2 * FRACTIONS
    ensures DifferenceOk(x, y, 4 * ma, xb, w)
  {
    hide DifferenceOk, Pow2;
    if d <= 2 {
      CutExact(x, y, ma, xb, mb, d, w, v);
      Pow2Positive(d, v);
      ExactDifference(x, y, 4 * ma, xb, w);
    } else {
      CutSmall(mb, d);
      CutY(x, y, ma, xb, mb, d, w, v);
      LargeWeight(d, v);
      CutDifference(x, y, 4 * ma, xb, w);
    }
  }

  lemma LargeWeight(d: nat, v: nat)
    requires d >= 3 && v > 0
    ensures Pow2(d) * v >= 8
  {
    Pow2Monotone(3, d);
    assert Pow2(3) == 8;
    MulAtLeast(v, Pow2(d));
    assert v * Pow2(d) == Pow2(d) * v;
  }

  lemma Pow2Positive(d: nat, v: nat)
    requires v > 0
    ensures Pow2(d) * v > 0
  {
    MulAtLeast(v, Pow2(d));
    assert v * Pow2(d) == Pow2(d) * v;
  }

  lemma SignOfProduct(t: int, w: nat)
    requires w > 0
    ensures t >= 0 ==> t * w >= 0
    ensures t < 0 ==> t * w < 0
  {
    if t < 0 {
      MulAtLeast(-t, w);
      assert (-t) * w == -(t * w);
    } else {
      MulNonNegative(t, w);
    }
  }

  // ----- Packing the sum -----

  /** The same, on magnitudes. */
  ghost predicate MagnitudeSpec(sameSigns: bool, exact: nat, r: Word) {
    if exact < SMALLEST_NORMAL then r == 0
    else
      && Exponent(r) >= 1
      && (Exponent(r) == 255 <==> exact >= Pow2(277))
      && Abs(Magnitude(r) - exact) < Ulp(r)
      && (sameSigns ==> Magnitude(r) <= exact)
  }

  /** n, with its leading one at bit 25 and weight u, holds the exact value z up to less
      than one of its last significand bits, which weighs four u. */
  lemma PackedValue(n: nat, u: nat, z: nat, r: Word)
    requires HIDDEN <= n < CARRY && Exponent(r) >= 1 && Significand(r) == n / 4 && Ulp(r) == u
    requires n * u - 3 * u < z < n * u + u
    ensures 4 * Magnitude(r) - 4 * u < z < 4 * Magnitude(r) + 4 * u
    ensures n * u <= z ==> 4 * Magnitude(r) <= z
  {
    var m, k := n / 4, n % 4;
    assert n == 4 * m + k;
    assert n * u == 4 * (m * u) + k * u;
    assert k == 0 || k == 1 || k == 2 || k == 3;
  }

  /** The packed result against the magnitude e, once z = 4 e is known to be in range. */
  lemma PackedSpec(sameSigns: bool, n: nat, u: nat, e: nat, r: Word)
    requires HIDDEN <= n < CARRY && Exponent(r) >= 1 && Significand(r) == n / 4 && Ulp(r) == u
    requires n * u - 3 * u < 4 * e < n * u + u && (sameSigns ==> n * u <= 4 * e)
    requires e >= SMALLEST_NORMAL && (Exponent(r) == 255 <==> e >= Pow2(277))
    ensures MagnitudeSpec(sameSigns, e, r)
  {
    hide Pow2, Exponent, Significand, Ulp, Magnitude;
    PackedValue(n, u, 4 * e, r);
  }

  lemma TopWeight(u: nat, n: nat, k: nat)
    requires u <= Pow2(k) && n < CARRY
    ensures n * u + u <= Pow2(k + 26)
  {
    hide Pow2;
    Pow2At26();
    Pow2Add(k, 26);
    assert k + 26 == 26 + k;
    var p := Pow2(k);
    MulNonNegative(CARRY - 1 - n, u);
    assert (CARRY - 1 - n) * u == CARRY * u - u - n * u;
    assert p * CARRY == CARRY * p && CARRY * u <= CARRY * p;
  }

  lemma Pow2At279()
    ensures Pow2(279) == 4 * Pow2(277)
  {
    assert Pow2(279) == 2 * Pow2(278) && Pow2(278) == 2 * Pow2(277);
  }

  /** A carry out of the top: the leading one is at bit 26 and the exponent goes up. */
  lemma CarrySpec(s: nat, e: nat, ea: nat, w: nat, negative: bool, r: Word)
    requires 1 <= ea <= 254 && w == Pow2(ea - 1) && CARRY <= s < 2 * CARRY
    requires SumOk(true, s, 4 * e, w) && r == Pack(negative, ea + 1, s / 8 % FRACTIONS)
    ensures MagnitudeSpec(true, e, r)
  {
    var n, u := s / 2, 2 * w;
    Pow2Twice(ea);
    assert Ulp(r) == u;
    CarryFields(s, r);
    hide Pow2, Exponent, Significand, Ulp, Pack;
    CarryHalf(s, n, w);
    CarryRange(s, e, ea, w);
    PackedSpec(true, n, u, e, r);
  }

  lemma CarryFields(s: nat, r: Word)
    requires CARRY <= s < 2 * CARRY && Fraction(r) == s / 8 % FRACTIONS
    ensures Significand(r) == s / 2 / 4
  {
  }

  /** Dropping the lowest bit of a sum with carry. */
  lemma CarryHalf(s: nat, n: nat, w: nat)
    requires n == s / 2
    ensures n * (2 * w) <= s * w && s * w + w <= n * (2 * w) + 2 * w
  {
    assert n * (2 * w) == (2 * n) * w;
    assert s == 2 * n || s == 2 * n + 1;
    assert (2 * n + 1) * w == 2 * n * w + w;
  }

  lemma CarryRange(s: nat, e: nat, ea: nat, w: nat)
    requires 1 <= ea <= 254 && w == Pow2(ea - 1) && CARRY <= s < 2 * CARRY && s * w <= 4 * e < s * w + w
    ensures e >= SMALLEST_NORMAL && (ea == 254 <==> e >= Pow2(277))
  {
    hide Pow2;
    MulMonotone(CARRY, s, w);
    Pow2At279();
    if ea == 254 {
      Pow2At26();
      Pow2Add(26, 253);
      assert 26 + 253 == 279;
    } else {
      Pow2Monotone(ea, 253);
      Pow2Twice(ea);
      TopWeight(2 * w, s / 2, 253);
      CarryHalf(s, s / 2, w);
      assert 253 + 26 == 279;
    }
  }

  /** The shift that brings the leading one to bit 25. */
  lemma NormBounds(s: nat, lop: nat, sh: nat)
    requires Pow2(lop) <= s < 2 * Pow2(lop) && lop + sh == 25
    ensures HIDDEN <= s * Pow2(sh) < CARRY
  {
    hide Pow2;
    Pow2Add(lop, sh);
    Pow2At26();
    var p, q := Pow2(lop), Pow2(sh);
    MulMonotone(p, s, q);
    MulStrict(s, 2 * p, q);
    assert 2 * p * q == 2 * (p * q);
  }

  /** The exponent does not reach down to a normal result: the sum is below them. */
  lemma UnderflowSpec(sameSigns: bool, s: nat, e: nat, ea: nat, w: nat, lop: nat, sh: nat)
    requires 1 <= ea && w == Pow2(ea - 1) && Pow2(lop) <= s < 2 * Pow2(lop) && lop + sh == 25 && ea <= sh
    requires SumOk(sameSigns, s, 4 * e, w)
    ensures e < SMALLEST_NORMAL
  {
    hide Pow2;
    NormBounds(s, lop, sh);
    Pow2Monotone(ea, sh);
    Pow2Twice(ea);
    var q := Pow2(sh);
    MulMonotone(2 * w, q, s);
    assert 2 * w * s == 2 * (s * w) && q * s == s * q;
    MulMonotone(2, q, s);
  }

  lemma NormRange(sameSigns: bool, s: nat, e: nat, ea: nat, w: nat, lop: nat, sh: nat, u: nat)
    requires 1 <= ea <= 254 && w == Pow2(ea - 1) && Pow2(lop) <= s < 2 * Pow2(lop) && lop + sh == 25 && ea > sh
    requires SumOk(sameSigns, s, 4 * e, w) && u == Pow2(ea - sh - 1)
    ensures s * w == s * Pow2(sh) * u
    ensures var n := s * Pow2(sh); n * u - 3 * u < 4 * e < n * u + u && (sameSigns ==> n * u <= 4 * e)
    ensures SMALLEST_NORMAL <= e < Pow2(277)
  {
    hide Pow2, SumOk;
    var q := Pow2(sh);
    var n := s * q;
    NormBounds(s, lop, sh);
    Pow2Add(sh, ea - sh - 1);
    assert sh + (ea - sh - 1) == ea - 1;
    Associate(s, q, u);
    MulMonotone(1, q, s);
    ShiftAmount(sameSigns, s, e, w, lop, sh);
    NormLow(sameSigns, s, e, w, q, u);
    NormLarge(sameSigns, s, e, w, n, u);
    Pow2Monotone(ea - sh - 1, 253);
    TopWeight(u, n, 253);
    assert 253 + 26 == 279;
    Pow2At279();
  }

  /** A large shift happens only when the sum is exact, and none when magnitudes add. */
  lemma ShiftAmount(sameSigns: bool, s: nat, e: nat, w: nat, lop: nat, sh: nat)
    requires Pow2(lop) <= s < 2 * Pow2(lop) && lop + sh == 25 && SumOk(sameSigns, s, 4 * e, w) && s < CARRY
    ensures sameSigns ==> Pow2(sh) == 1
    ensures 4 * e == s * w || Pow2(sh) <= 2
  {
    Pow2At26();
    if sh >= 1 {
      Pow2Monotone(lop, 24);
    }
    if sh >= 2 {
      Pow2Monotone(lop, 23);
      assert Pow2(24) == 2 * Pow2(23);
    }
  }

  lemma NormLow(sameSigns: bool, s: nat, e: nat, w: nat, q: nat, u: nat)
    requires SumOk(sameSigns, s, 4 * e, w) && w == q * u && u > 0 && (sameSigns ==> q == 1) && (4 * e == s * w || q <= 2)
    ensures var n := s * q; n * u - 3 * u < 4 * e < n * u + u && (sameSigns ==> n * u <= 4 * e)
  {
    assert s * (q * u) == s * q * u;
    if q <= 2 {
      assert q == 0 || q == 1 || q == 2;
    }
  }

  lemma NormLarge(sameSigns: bool, s: nat, e: nat, w: nat, n: nat, u: nat)
    requires SumOk(sameSigns, s, 4 * e, w) && w > 0 && s * w == n * u && n >= HIDDEN && u > 0
    ensures e >= SMALLEST_NORMAL
  {
    MulAtLeast(u, n);
    assert u * n == n * u;
    if !sameSigns && 4 * e != s * w {
      MulNonNegative(s - 1 - 0x100_0000, w);
      assert (s - 1 - 0x100_0000) * w == s * w - w - 0x100_0000 * w;
    }
  }

  /** The leading one is found and shifted to bit 25. */
  lemma NormalisedSpec(sameSigns: bool, s: nat, e: nat, ea: nat, w: nat, lop: nat, sh: nat, negative: bool, r: Word)
    requires 1 <= ea <= 254 && w == Pow2(ea - 1) && Pow2(lop) <= s < 2 * Pow2(lop) && lop + sh == 25
    requires SumOk(sameSigns, s, 4 * e, w)
    requires r == if ea > sh then Pack(negative, ea - sh, s * Pow2(sh) / 4 % FRACTIONS) else 0
    ensures MagnitudeSpec(sameSigns, e, r)
  {
    if ea > sh {
      var u, n := Pow2(ea - sh - 1), s * Pow2(sh);
      NormBounds(s, lop, sh);
      NormRange(sameSigns, s, e, ea, w, lop, sh, u);
      assert Significand(r) == n / 4;
      assert Ulp(r) == u;
      hide Pow2, SumOk, Exponent, Significand, Ulp;
      PackedSpec(sameSigns, n, u, e, r);
    } else {
      UnderflowSpec(sameSigns, s, e, ea, w, lop, sh);
    }
  }

  // ----- The datapath -----

  /** A magnitude with the right sign is the number. */
  lemma SignedSpec(sameSigns: bool, exact: int, r: Word, negative: bool)
    requires MagnitudeSpec(sameSigns, Abs(exact), r)
    requires r != 0 ==> SignBit(r) == negative
    requires exact != 0 ==> (negative <==> exact < 0)
    ensures SumSpec(sameSigns, exact, r)
  {
    hide Pow2, Exponent, Ulp, Magnitude;
    ZeroExponent();
  }

  lemma ZeroExponent()
    ensures Exponent(0) == 0
  {
  }

  lemma ZeroSum(sameSigns: bool, e: nat, w: nat)
    requires w > 0 && SumOk(sameSigns, 0, 4 * e, w)
    ensures MagnitudeSpec(sameSigns, e, 0)
  {
  }

  function Oriented(negative: bool, magnitude: nat): int {
    if negative then 0 - magnitude else magnitude
  }

  /** The sum of two numbers with non-zero exponents, the first exponent being the larger. */
  method AddOrdered(sa: bool, ea: nat, ma: nat, sb: bool, eb: nat, mb: nat) returns (r: Word)
    requires 1 <= eb <= ea <= 255 && FRACTIONS <= ma < 2 * FRACTIONS && FRACTIONS <= mb < 2 * FRACTIONS
    ensures ea <= 254 ==> SumSpec(sa == sb, Oriented(sa, ma * Pow2(ea - 1)) + Oriented(sb, mb * Pow2(eb - 1)), r)
  {
    hide Pow2, SumOk, MagnitudeSpec, SumSpec;
    var ediff := ea - eb;
    var xa := 4 * ma;
    var xb := if ediff > 25 then 0 else 4 * mb / Pow2(ediff % 32);
    ghost var w, v := Pow2(ea - 1), Pow2(eb - 1);
    ghost var x, y := ma * w, mb * v;
    AlignedOperands(ma, xb, mb, ediff, ea, eb);
    assert 4 * ma * w == 4 * x && 4 * mb * v == 4 * y;
    var s, sr;
    ghost var e;
    if sa == sb {
      s, sr, e := xa + xb, sa, x + y;
      SumAligned(4 * x, 4 * y, ma, xb, mb, ediff, w, v);
    } else if xa >= xb {
      DifferenceAligned(4 * x, 4 * y, ma, xb, mb, ediff, w, v);
      s, sr, e := xa - xb, sa, x - y;
    } else {
      DifferenceAligned(4 * x, 4 * y, ma, xb, mb, ediff, w, v);
      s, sr, e := xb - xa, sb, y - x;
    }
    AlignedBelow(xb, mb, ediff);
    assert 4 * (x - y) == 4 * x - 4 * y && 4 * (y - x) == 4 * y - 4 * x;
    r := PackSum(sa == sb, s, sr, ea, e);
    if ea <= 254 {
      MulAtLeast(ma, w);
      SignedSpec(sa == sb, Oriented(sa, x) + Oriented(sb, y), r, sr);
    }
  }

  lemma AlignedBelow(xb: nat, mb: nat, d: nat)
    requires xb == 4 * mb / Pow2(d) && mb < 2 * FRACTIONS
    ensures xb < CARRY
  {
    hide Pow2;
    MulMonotone(1, Pow2(d), CARRY);
    assert Pow2(d) * CARRY == CARRY * Pow2(d);
    QuotientBelow(4 * mb, Pow2(d), CARRY);
  }

  lemma AlignedOperands(ma: nat, xb: nat, mb: nat, d: nat, ea: nat, eb: nat)
    requires 1 <= eb <= ea && d == ea - eb && mb < 2 * FRACTIONS
    requires xb == if d > 25 then 0 else 4 * mb / Pow2(d % 32)
    ensures Aligned(4 * ma * Pow2(ea - 1), 4 * mb * Pow2(eb - 1), ma, xb, mb, d, Pow2(ea - 1), Pow2(eb - 1))
  {
    hide Pow2;
    ShiftedOut(mb, d);
    Pow2Add(d, eb - 1);
    assert d + (eb - 1) == ea - 1;
  }

  /** Normalise and pack. */
  method PackSum(ghost sameSigns: bool, s: nat, sr: bool, ea: nat, ghost e: nat) returns (r: Word)
    requires 1 <= ea <= 255 && s < 2 * CARRY && SumOk(sameSigns, s, 4 * e, Pow2(ea - 1)) && (s >= CARRY ==> sameSigns)
    ensures ea <= 254 ==> MagnitudeSpec(sameSigns, e, r)
    ensures r != 0 ==> SignBit(r) == sr
  {
    hide Pow2, SumOk, MagnitudeSpec, SignBit, Exponent, Fraction;
    if s == 0 {
      ZeroSum(sameSigns, e, Pow2(ea - 1));
      return 0;
    }
    if s >= CARRY {
      var er := (ea + 1) % 256;
      r := Pack(sr, er, s / 8 % FRACTIONS);
      if ea <= 254 {
        CarrySpec(s, e, ea, Pow2(ea - 1), sr, r);
      }
      return;
    }
    Pow2At26();
    var lop := HighestBit(s, 26);
    var sh := 25 - lop;
    NormBounds(s, lop, sh);
    var shifted := s * Pow2(sh);
    QuotientUnique(shifted, CARRY, 0, shifted);
    var norm := shifted % CARRY;
    if ea > sh {
      r := Pack(sr, ea - sh, norm / 4 % FRACTIONS);
    } else {
      r := 0;
    }
    if ea <= 254 {
      NormalisedSpec(sameSigns, s, e, ea, Pow2(ea - 1), lop, sh, sr, r);
    }
  }

  /** The adder's core. */
  method AddCore(a: Word, b: Word, subtract: bool) returns (r: Word)
    ensures AddSpec(a, Effective(b, subtract), r)
  {
    hide Pow2, SumSpec, Exponent, Fraction, SignBit;
    var sa, ea, ma := SignBit(a), Exponent(a), Significand(a);
    var sb, eb, mb := SignBit(b) != subtract, Exponent(b), Significand(b);
    if ea == 0 && eb == 0 {
      return 0;
    }
    if ea == 0 {
      return Effective(b, subtract);
    }
    if eb == 0 {
      return a;
    }
    if eb > ea {
      sa, sb := sb, sa;
      ea, eb := eb, ea;
      ma, mb := mb, ma;
    }
    r := AddOrdered(sa, ea, ma, sb, eb, mb);
  }
}
