/** 32-bit machine words as integers, with the conversions and the bitwise and
    shift operators that the simulator and the RISC-V reference machine use. */
module Words {

  const WORD_COUNT := 0x1_0000_0000

  type Word = w: int | 0 <= w < WORD_COUNT

  /** The conversion of any integer to an unsigned 32-bit word: reduction modulo 2^32. */
  function ToWord(v: int): Word { v % WORD_COUNT }

  /** The two's-complement reading of a word. */
  function Signed(w: Word): (v: int)
    ensures -0x8000_0000 <= v < 0x8000_0000
  {
    if w < 0x8000_0000 then w else w - WORD_COUNT
  }

  /** Signed inverts the conversion of every 32-bit signed integer, and conversely. */
  lemma SignedRoundTrip(w: Word, v: int)
    ensures ToWord(Signed(w)) == w
    ensures -0x8000_0000 <= v < 0x8000_0000 ==> Signed(ToWord(v)) == v
  {
  }

  function Pow2(n: nat): (p: nat)
    ensures p >= 1
  {
    if n == 0 then 1 else 2 * Pow2(n - 1)
  }

  lemma {:induction false} Pow2Add(m: nat, n: nat)
    ensures Pow2(m + n) == Pow2(m) * Pow2(n)
  {
    if m == 0 {
    } else {
      Pow2Add(m - 1, n);
      assert m - 1 + n == m + n - 1;
      calc {
        Pow2(m + n);
        2 * Pow2(m - 1 + n);
        2 * (Pow2(m - 1) * Pow2(n));
        (2 * Pow2(m - 1)) * Pow2(n);
        Pow2(m) * Pow2(n);
      }
    }
  }

  lemma {:induction false} Pow2Monotone(m: nat, n: nat)
    requires m <= n
    ensures Pow2(m) <= Pow2(n)
    decreases n
  {
    if m < n {
      Pow2Monotone(m, n - 1);
    }
  }

  lemma MulNonNegative(a: nat, b: nat)
    ensures a * b >= 0
  {
  }

  /** A product with a positive factor is at least the other factor. */
  lemma MulAtLeast(k: nat, d: nat)
    requires k >= 1
    ensures k * d >= d
  {
    MulNonNegative(k - 1, d);
    assert k * d == (k - 1) * d + d;
  }

  lemma MulMonotone(a: nat, b: nat, c: nat)
    requires a <= b
    ensures a * c <= b * c
  {
    MulNonNegative(b - a, c);
    assert (b - a) * c == b * c - a * c;
  }

  lemma Associate(a: nat, b: nat, c: nat)
    ensures a * b * c == a * (b * c)
  {
  }

  lemma MulStrict(a: nat, b: nat, c: nat)
    requires a < b && c > 0
    ensures a * c + c <= b * c
  {
    MulMonotone(a + 1, b, c);
    assert (a + 1) * c == a * c + c;
  }

  lemma Pow2Twice(n: nat)
    requires n > 0
    ensures Pow2(n) == 2 * Pow2(n - 1)
  {
  }

  /** Quotient and remainder are unique. */
  lemma QuotientUnique(a: int, d: int, q: int, r: int)
    requires d > 0 && 0 <= r < d && a == q * d + r
    ensures a / d == q && a % d == r
  {
    var q', r' := a / d, a % d;
    var m := q - q';
    assert m * d == q * d - q' * d;
    assert m * d == r' - r && (-m) * d == r - r';
    if m >= 1 {
      MulAtLeast(m, d);
    } else if m <= -1 {
      MulAtLeast(-m, d);
    }
  }

  lemma QuotientBelow(x: nat, p: nat, q: nat)
    requires p > 0 && x < q * p
    ensures 0 <= x / p < q
  {
    var d := x / p;
    assert d * p == (d - q) * p + q * p;
    if d >= q {
      MulNonNegative(d - q, p);
    }
  }

  /** Bit i of a non-negative integer. */
  predicate Bit(x: nat, i: nat) {
    if i == 0 then x % 2 == 1 else Bit(x / 2, i - 1)
  }

  /** The n-bit number whose bits are f applied to the bits of x and y. */
  function Bitwise(f: (bool, bool) -> bool, x: nat, y: nat, n: nat): (r: nat)
    ensures r < Pow2(n)
    decreases n
  {
    if n == 0 then 0
    else (if f(x % 2 == 1, y % 2 == 1) then 1 else 0) + 2 * Bitwise(f, x / 2, y / 2, n - 1)
  }

  lemma {:induction false} BitwiseBit(f: (bool, bool) -> bool, x: nat, y: nat, n: nat, i: nat)
    requires i < n
    ensures Bit(Bitwise(f, x, y, n), i) <==> f(Bit(x, i), Bit(y, i))
    decreases n
  {
    var rest := Bitwise(f, x / 2, y / 2, n - 1);
    assert Bitwise(f, x, y, n) / 2 == rest;
    if i > 0 {
      BitwiseBit(f, x / 2, y / 2, n - 1, i - 1);
    }
  }

  lemma Pow2At32()
    ensures Pow2(32) == WORD_COUNT
  {
    assert Pow2(8) == 256;
    Pow2Add(8, 8);
    Pow2Add(16, 16);
  }

  function And(x: Word, y: Word): (r: Word)
    ensures forall i: nat | i < 32 :: Bit(r, i) <==> Bit(x, i) && Bit(y, i)
  {
    Pow2At32();
    var f := (a, b) => a && b;
    assert forall i: nat | i < 32 :: Bit(Bitwise(f, x, y, 32), i) <==> Bit(x, i) && Bit(y, i) by {
      forall i: nat | i < 32 { BitwiseBit(f, x, y, 32, i); }
    }
    Bitwise(f, x, y, 32)
  }

  function Or(x: Word, y: Word): (r: Word)
    ensures forall i: nat | i < 32 :: Bit(r, i) <==> Bit(x, i) || Bit(y, i)
  {
    Pow2At32();
    var f := (a, b) => a || b;
    assert forall i: nat | i < 32 :: Bit(Bitwise(f, x, y, 32), i) <==> Bit(x, i) || Bit(y, i) by {
      forall i: nat | i < 32 { BitwiseBit(f, x, y, 32, i); }
    }
    Bitwise(f, x, y, 32)
  }

  function Xor(x: Word, y: Word): (r: Word)
    ensures forall i: nat | i < 32 :: Bit(r, i) <==> Bit(x, i) != Bit(y, i)
  {
    Pow2At32();
    var f := (a, b) => a != b;
    assert forall i: nat | i < 32 :: Bit(Bitwise(f, x, y, 32), i) <==> Bit(x, i) != Bit(y, i) by {
      forall i: nat | i < 32 { BitwiseBit(f, x, y, 32, i); }
    }
    Bitwise(f, x, y, 32)
  }
}
