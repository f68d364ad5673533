/** Single-precision bit patterns and the numbers they denote, as exact integers. */
module Floats {
  import opened Words

  const FRACTIONS := 0x80_0000
  const SIGN_WEIGHT := 0x8000_0000

  predicate SignBit(f: Word) { f >= SIGN_WEIGHT }

  function Exponent(f: Word): (e: nat)
    ensures e < 256
  {
    f / FRACTIONS % 256
  }

  function Fraction(f: Word): (m: nat)
    ensures m < FRACTIONS
  {
    f % FRACTIONS
  }

  /** The 24-bit significand with its implicit leading one. */
  function Significand(f: Word): (m: nat)
    ensures FRACTIONS <= m < 2 * FRACTIONS
  {
    FRACTIONS + Fraction(f)
  }

  function Pack(negative: bool, e: nat, m: nat): (f: Word)
    requires e < 256 && m < FRACTIONS
    ensures SignBit(f) == negative && Exponent(f) == e && Fraction(f) == m
  {
    var f := (if negative then SIGN_WEIGHT else 0) + e * FRACTIONS + m;
    PackFields(negative, e, m, f);
    f
  }

  lemma PackFields(negative: bool, e: nat, m: nat, f: nat)
    requires e < 256 && m < FRACTIONS && f == (if negative then SIGN_WEIGHT else 0) + e * FRACTIONS + m
    ensures f < WORD_COUNT && SignBit(f) == negative && Exponent(f) == e && Fraction(f) == m
  {
    var q := (if negative then 256 else 0) + e;
    assert f == q * FRACTIONS + m;
    QuotientUnique(f, FRACTIONS, q, m);
    QuotientUnique(q, 256, if negative then 1 else 0, e);
  }

  /** The fields determine the pattern. */
  lemma FieldsUnique(f: Word)
    ensures f == Pack(SignBit(f), Exponent(f), Fraction(f))
  {
    var q := f / FRACTIONS;
    assert f == q * FRACTIONS + f % FRACTIONS && q < 512;
    assert q == q / 256 * 256 + q % 256;
  }

  /** Sign, exponent e and fraction m make the pattern, and with a non-zero exponent it
      denotes (-1)^sign (2^23 + m) 2^(e-1) in units of 2^-149. */
  lemma Denotes(negative: bool, e: nat, m: nat)
    requires 1 <= e < 256 && m < 0x80_0000
    ensures var f := (if negative then 0x8000_0000 else 0) + e * 0x80_0000 + m;
            f < WORD_COUNT && Exponent(f) == e && Scaled(f) == (if negative then -1 else 1) * ((0x80_0000 + m) * Pow2(e - 1))
  {
    hide Pow2;
    PackFields(negative, e, m, (if negative then SIGN_WEIGHT else 0) + e * FRACTIONS + m);
  }

  predicate Normal(f: Word) { 1 <= Exponent(f) <= 254 }

  /** The weight of the last significand bit, in units of 2^-149. */
  function Ulp(f: Word): (u: nat)
    requires Exponent(f) >= 1
    ensures u >= 1
  {
    Pow2(Exponent(f) - 1)
  }

  /** The magnitude in units of 2^-149; exact. */
  function Magnitude(f: Word): nat
    requires Exponent(f) >= 1
  {
    Significand(f) * Ulp(f)
  }

  /** The number itself in units of 2^-149. */
  function Scaled(f: Word): int
    requires Exponent(f) >= 1
  {
    var m: int := Magnitude(f);
    if SignBit(f) then -m else m
  }

  function Abs(x: int): nat { if x < 0 then -x else x }

  /** r is x cut off towards zero at its last significand bit. */
  ghost predicate Truncates(r: Word, x: int)
    requires Exponent(r) >= 1
  {
    Magnitude(r) <= Abs(x) < Magnitude(r) + Ulp(r) && (SignBit(r) <==> x < 0)
  }

  /** Every truncation to a normal number is the same. */
  lemma TruncatesUnique(r: Word, s: Word, x: int)
    requires Normal(r) && Normal(s) && Truncates(r, x) && Truncates(s, x)
    ensures r == s
  {
    if Exponent(r) < Exponent(s) {
      BelowNextExponent(r, s);
    } else if Exponent(s) < Exponent(r) {
      BelowNextExponent(s, r);
    } else {
      SameExponent(Significand(r), Significand(s), Ulp(r), Abs(x));
      FieldsUnique(r);
      FieldsUnique(s);
    }
  }

  lemma SameExponent(m: nat, n: nat, u: nat, x: nat)
    requires u > 0 && m * u <= x < m * u + u && n * u <= x < n * u + u
    ensures m == n
  {
    QuotientUnique(x, u, m, x - m * u);
    QuotientUnique(x, u, n, x - n * u);
  }

  /** A larger exponent means a magnitude a whole last bit larger at least. */
  lemma BelowNextExponent(r: Word, s: Word)
    requires 1 <= Exponent(r) < Exponent(s)
    ensures Magnitude(r) + Ulp(r) <= Magnitude(s)
  {
    Pow2Monotone(Exponent(r), Exponent(s) - 1);
    ScaleUp(Significand(r), Significand(s), Ulp(r), Ulp(s));
  }

  lemma ScaleUp(m: nat, n: nat, u: nat, v: nat)
    requires m < 2 * FRACTIONS && n >= FRACTIONS && v >= 2 * u
    ensures m * u + u <= n * v
  {
    MulNonNegative(2 * FRACTIONS - 1 - m, u);
    assert (2 * FRACTIONS - 1 - m) * u == 2 * FRACTIONS * u - u - m * u;
    MulNonNegative(n - FRACTIONS, v);
    assert (n - FRACTIONS) * v == n * v - FRACTIONS * v;
  }

  // ----- The leading one -----

  /** The position of the highest set bit among the low n, found by scanning upwards. */
  method HighestBit(s: nat, n: nat) returns (pos: nat)
    requires 0 < s < Pow2(n)
    ensures pos < n && Pow2(pos) <= s < 2 * Pow2(pos)
  {
    pos := 0;
    for i := 0 to n
      invariant if s % Pow2(i) == 0 then pos == 0 else pos < i && Pow2(pos) <= s % Pow2(i) < 2 * Pow2(pos)
    {
      NextBit(s, i);
      if s / Pow2(i) % 2 == 1 {
        pos := i;
      }
    }
    QuotientUnique(s, Pow2(n), 0, s);
  }

  lemma NextBit(s: nat, i: nat)
    ensures s % Pow2(i + 1) == s % Pow2(i) + (if s / Pow2(i) % 2 == 1 then Pow2(i) else 0)
    ensures s % Pow2(i) < Pow2(i)
  {
    var p := Pow2(i);
    var q, h := s / p, s / p / 2;
    assert s == q * p + s % p;
    assert q == 2 * h + q % 2;
    assert (2 * h + q % 2) * p == h * (2 * p) + (q % 2) * p;
    QuotientUnique(s, 2 * p, h, (q % 2) * p + s % p);
  }

  lemma {:induction false} LeadingBit(s: nat, n: nat) returns (pos: nat)
    requires 0 < s < Pow2(n)
    ensures pos < n && Pow2(pos) <= s < 2 * Pow2(pos)
  {
    if s >= Pow2(n - 1) {
      pos := n - 1;
    } else {
      pos := LeadingBit(s, n - 1);
    }
  }
}
