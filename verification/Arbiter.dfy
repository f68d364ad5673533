/** The round-robin arbiter at any width, on numbers read as bit vectors. */
module Arbiter {
  import opened Words

  // ----- Bits of composed numbers -----

  lemma HalfOfEven(x: nat, p: nat, b: nat)
    requires p % 2 == 0
    ensures (x * p + b) / 2 == x * (p / 2) + b / 2 && (x * p + b) % 2 == b % 2
  {
    var h := p / 2;
    assert p == 2 * h;
    assert x * p == 2 * (x * h);
  }

  /** Concatenation: b below, a above. */
  lemma {:induction false} BitConcat(a: nat, b: nat, w: nat, i: nat)
    requires b < Pow2(w)
    ensures Bit(a * Pow2(w) + b, i) <==> if i < w then Bit(b, i) else Bit(a, i - w)
    decreases w
  {
    if w > 0 {
      HalfOfEven(a, Pow2(w), b);
      if i > 0 {
        BitConcat(a, b / 2, w - 1, i - 1);
      }
    }
  }

  lemma {:induction false} SomeBit(x: nat, n: nat) returns (i: nat)
    requires 0 < x < Pow2(n)
    ensures i < n && Bit(x, i)
  {
    if x % 2 == 1 {
      i := 0;
    } else {
      var j := SomeBit(x / 2, n - 1);
      i := j + 1;
    }
  }

  /** Numbers of n bits with the same bits are equal. */
  lemma {:induction false} BitsEqual(x: nat, y: nat, n: nat)
    requires x < Pow2(n) && y < Pow2(n)
    requires forall i: nat | i < n :: Bit(x, i) == Bit(y, i)
    ensures x == y
  {
    if n > 0 {
      assert Bit(x, 0) == Bit(y, 0);
      forall i: nat | i < n - 1
        ensures Bit(x / 2, i) == Bit(y / 2, i)
      {
        assert Bit(x, i + 1) == Bit(y, i + 1);
      }
      BitsEqual(x / 2, y / 2, n - 1);
    }
  }

  lemma {:induction false} BitOfPow2(j: nat, i: nat)
    ensures Bit(Pow2(j), i) <==> i == j
  {
    if i > 0 {
      if j > 0 {
        BitOfPow2(j - 1, i - 1);
      } else {
        BitOfZero(i - 1);
      }
    }
  }

  lemma {:induction false} BitOfZero(i: nat)
    ensures !Bit(0, i)
  {
    if i > 0 {
      BitOfZero(i - 1);
    }
  }

  // ----- Subtracting a one-hot number -----

  /** The first set bit of d at or above position k is j. */
  ghost predicate FirstSet(d: nat, k: nat, j: nat) {
    k <= j && Bit(d, j) && forall i: nat :: k <= i < j ==> !Bit(d, i)
  }

  lemma {:induction false} FindFirst(d: nat, k: nat, n: nat) returns (j: nat)
    requires k <= n && Bit(d, n)
    ensures FirstSet(d, k, j) && j <= n
    decreases n - k
  {
    if Bit(d, k) {
      j := k;
    } else {
      j := FindFirst(d, k + 1, n);
    }
  }

  lemma FirstSetHalf(d: nat, k: nat, j: nat)
    requires FirstSet(d, k, j) && j > 0
    ensures FirstSet(d / 2, if k == 0 then 0 else k - 1, j - 1)
  {
    forall i: nat | (if k == 0 then 0 else k - 1) <= i < j - 1
      ensures !Bit(d / 2, i)
    {
      assert Bit(d, i + 1) == Bit(d / 2, i);
    }
  }

  /** The borrow runs from bit k up to the first set bit j, and no further. */
  lemma {:induction false} Borrow(d: nat, k: nat, j: nat, i: nat)
    requires FirstSet(d, k, j)
    ensures d >= Pow2(k)
    ensures Bit(d - Pow2(k), i) <==> if k <= i < j then true else if i == j then false else Bit(d, i)
    decreases j
  {
    if j == 0 {
      assert k == 0 && d % 2 == 1;
      assert (d - 1) / 2 == d / 2;
    } else {
      FirstSetHalf(d, k, j);
      if k == 0 {
        assert !Bit(d, 0);
        Borrow(d / 2, 0, j - 1, if i > 0 then i - 1 else 0);
        assert (d - 1) / 2 == d / 2 - 1 && (d - 1) % 2 == 1;
      } else {
        Borrow(d / 2, k - 1, j - 1, if i > 0 then i - 1 else 0);
        assert (d - Pow2(k)) / 2 == d / 2 - Pow2(k - 1);
      }
    }
  }

  // ----- The arbiter -----

  /** The request vector twice, minus the start position, masked, and folded back. */
  function DoubleGrant(req: nat, base: nat, w: nat): (g: nat)
    ensures g < Pow2(2 * w)
  {
    var d := req * Pow2(w) + req;
    Bitwise((a, b) => a && !b, d, (d - base) % Pow2(2 * w), 2 * w)
  }

  function Grant(req: nat, base: nat, w: nat): (g: nat)
    ensures g < Pow2(w)
  {
    var g := DoubleGrant(req, base, w);
    Bitwise((a, b) => a || b, g % Pow2(w), g / Pow2(w), w)
  }

  /** How far slot i is after slot k, going round. */
  function Distance(k: nat, i: nat, w: nat): (d: nat)
    requires w > 0
    ensures d < w
  {
    (i - k) % w
  }

  /** Slot j requests, and no requesting slot comes sooner at or after k. */
  ghost predicate FirstRequester(req: nat, k: nat, w: nat, j: nat)
    requires w > 0
  {
    j < w && Bit(req, j) && forall i: nat :: i < w && Bit(req, i) ==> Distance(k, j, w) <= Distance(k, i, w)
  }

  /** Below w the doubled vector is the request vector, and so it is again above. */
  lemma DoubledBit(req: nat, w: nat, i: nat)
    requires req < Pow2(w) && i < 2 * w
    ensures Bit(req * Pow2(w) + req, i) <==> Bit(req, if i < w then i else i - w)
  {
    BitConcat(req, req, w, i);
  }

  lemma DistanceIs(k: nat, i: nat, w: nat)
    requires k < w && i < w
    ensures Distance(k, i, w) == if i >= k then i - k else i + w - k
  {
    if i >= k {
      QuotientUnique(i - k, w, 0, i - k);
    } else {
      QuotientUnique(i - k, w, -1, i + w - k);
    }
  }

  /** The doubled vector's first set bit at or after k is the first requester. */
  lemma FirstDoubled(req: nat, k: nat, w: nat, j: nat)
    requires req < Pow2(w) && k < w && FirstSet(req * Pow2(w) + req, k, j) && j < 2 * w
    ensures FirstRequester(req, k, w, if j < w then j else j - w)
  {
    var d, s := req * Pow2(w) + req, if j < w then j else j - w;
    DoubledBit(req, w, j);
    DistanceIs(k, s, w);
    forall i: nat | i < w && Bit(req, i)
      ensures Distance(k, s, w) <= Distance(k, i, w)
    {
      DistanceIs(k, i, w);
      DoubledBit(req, w, i);
      DoubledBit(req, w, i + w);
      hide Bit, Distance, Pow2;
    }
  }

  lemma DoubleGrantBit(req: nat, k: nat, w: nat, j: nat, i: nat)
    requires req < Pow2(w) && k < w && FirstSet(req * Pow2(w) + req, k, j) && j < 2 * w && i < 2 * w
    ensures Bit(DoubleGrant(req, Pow2(k), w), i) <==> i == j
  {
    var d := req * Pow2(w) + req;
    Borrow(d, k, j, i);
    DoubledFits(req, w);
    QuotientUnique(d - Pow2(k), Pow2(2 * w), 0, d - Pow2(k));
    BitwiseBit((a, b) => a && !b, d, d - Pow2(k), 2 * w, i);
  }

  lemma DoubledFits(req: nat, w: nat)
    requires req < Pow2(w)
    ensures req * Pow2(w) + req < Pow2(2 * w)
  {
    hide Pow2;
    Pow2Add(w, w);
    DoubledBelow(req, Pow2(w));
    assert w + w == 2 * w;
  }

  lemma DoubledBelow(r: nat, p: nat)
    requires r < p
    ensures r * p + r < p * p
  {
    MulNonNegative(p - 1 - r, p);
    assert (p - 1 - r) * p == p * p - p - r * p;
  }

  lemma FoldBit(g: nat, w: nat, i: nat)
    requires i < w && g < Pow2(2 * w)
    ensures Bit(Bitwise((a, b) => a || b, g % Pow2(w), g / Pow2(w), w), i) <==> Bit(g, i) || Bit(g, i + w)
  {
    hide Bit, Pow2, Bitwise;
    var lo, hi := g % Pow2(w), g / Pow2(w);
    assert g == hi * Pow2(w) + lo;
    BitConcat(hi, lo, w, i);
    BitConcat(hi, lo, w, i + w);
    BitwiseBit((a, b) => a || b, lo, hi, w, i);
  }

  /** With a one-hot base and some request, exactly the first requester at or
      cyclically after the base is granted. */
  lemma GrantIsFirst(req: nat, k: nat, w: nat) returns (winner: nat)
    requires 0 < req < Pow2(w) && k < w
    ensures FirstRequester(req, k, w, winner)
    ensures Grant(req, Pow2(k), w) == Pow2(winner)
  {
    var d := req * Pow2(w) + req;
    var s := SomeBit(req, w);
    DoubledBit(req, w, s + w);
    var j := FindFirst(d, k, s + w);
    FirstDoubled(req, k, w, j);
    winner := if j < w then j else j - w;
    var g := DoubleGrant(req, Pow2(k), w);
    forall i: nat | i < w
      ensures Bit(Grant(req, Pow2(k), w), i) == Bit(Pow2(winner), i)
    {
      FoldBit(g, w, i);
      DoubleGrantBit(req, k, w, j, i);
      DoubleGrantBit(req, k, w, j, i + w);
      BitOfPow2(winner, i);
      hide Bit, Pow2, Bitwise, DoubleGrant;
    }
    Pow2Strict(winner, w);
    BitsEqual(Grant(req, Pow2(k), w), Pow2(winner), w);
  }

  lemma Pow2Strict(m: nat, n: nat)
    requires m < n
    ensures Pow2(m) < Pow2(n)
  {
    Pow2Monotone(m, n - 1);
  }

  /** With no request nothing is granted. */
  lemma NoRequestNoGrant(base: nat, w: nat)
    ensures Grant(0, base, w) == 0
  {
    var g := DoubleGrant(0, base, w);
    forall i: nat | i < 2 * w
      ensures Bit(g, i) == Bit(0, i)
    {
      BitwiseBit((a, b) => a && !b, 0, (0 - base) % Pow2(2 * w), 2 * w, i);
      BitOfZero(i);
    }
    BitsEqual(g, 0, 2 * w);
    forall i: nat | i < w
      ensures Bit(Grant(0, base, w), i) == Bit(0, i)
    {
      BitwiseBit((a, b) => a || b, 0, 0, w, i);
      BitOfZero(i);
    }
    BitsEqual(Grant(0, base, w), 0, w);
  }

  /** There is only one first requester. */
  lemma FirstRequesterUnique(req: nat, k: nat, w: nat, a: nat, b: nat)
    requires k < w && FirstRequester(req, k, w, a) && FirstRequester(req, k, w, b)
    ensures a == b
  {
    DistanceIs(k, a, w);
    DistanceIs(k, b, w);
    hide Distance;
  }
}
