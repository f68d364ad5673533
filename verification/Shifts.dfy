/** The shifts of the result switch, bit by bit. */
module Shifts {
  import opened Words
  import opened Instructions
  import opened Arbiter

  /** Bit i of a number is the parity of the number without its low i bits. */
  lemma {:induction false} BitIs(x: nat, i: nat)
    ensures Bit(x, i) <==> x / Pow2(i) % 2 == 1
  {
    if i > 0 {
      BitIs(x / 2, i - 1);
      DivideTwice(x, Pow2(i - 1));
    }
  }

  lemma DivideTwice(x: nat, p: nat)
    requires p > 0
    ensures x / (2 * p) == x / 2 / p
  {
    var q, r := x / 2 / p, x / 2 % p;
    assert x / 2 == q * p + r;
    QuotientUnique(x, 2 * p, q, 2 * r + x % 2);
  }

  /** Dropping the low s bits. */
  lemma {:induction false} BitOfQuotient(x: nat, s: nat, q: nat, i: nat)
    requires q == x / Pow2(s)
    ensures Bit(q, i) <==> Bit(x, i + s)
    decreases s
  {
    if s > 0 {
      DivideTwice(x, Pow2(s - 1));
      BitOfQuotient(x / 2, s - 1, q, i);
    }
  }

  /** Keeping the low 32 bits. */
  lemma BitOfRemainder(x: nat, i: nat)
    requires i < 32
    ensures Bit(x % WORD_COUNT, i) <==> Bit(x, i)
  {
    Pow2At32();
    BitConcat(x / WORD_COUNT, x % WORD_COUNT, 32, i);
  }

  /** A number of w bits has no bit at w or above. */
  lemma BitBeyond(x: nat, w: nat, i: nat)
    requires x < Pow2(w) && w <= i
    ensures !Bit(x, i)
  {
    Pow2Monotone(w, i);
    QuotientUnique(x, Pow2(i), 0, x);
    BitIs(x, i);
  }

  /** The number with s ones. */
  lemma {:induction false} BitOfOnes(s: nat, i: nat)
    requires i < s
    ensures Bit(Pow2(s) - 1, i)
  {
    assert (Pow2(s) - 1) / 2 == Pow2(s - 1) - 1;
    if i > 0 {
      BitOfOnes(s - 1, i - 1);
    }
  }

  lemma QuotientBounds(x: nat, p: nat)
    requires p > 0
    ensures x / p * p <= x < (x / p + 1) * p
  {
    assert x == x / p * p + x % p;
  }

  lemma LogicalShift(x: Word, s: nat, i: nat)
    requires s < 32
    ensures Bit(ShiftRight(x, s), i) <==> i + s < 32 && Bit(x, i + s)
    ensures ShiftRight(x, s) * Pow2(s) <= x < (ShiftRight(x, s) + 1) * Pow2(s)
  {
    hide Bit, Pow2;
    BitOfQuotient(x, s, ShiftRight(x, s), i);
    if i + s >= 32 {
      Pow2At32();
      BitBeyond(x, 32, i + s);
    }
    QuotientBounds(x, Pow2(s));
  }

  lemma ArithmeticShift(x: Word, s: nat, i: nat)
    requires s < 32 && i < 32
    ensures Bit(ShiftRightFill(x, s), i) <==> if i + s < 32 then Bit(x, i + s) else Bit(x, 31)
  {
    SignIsTopBit(x);
    ShiftRightBound(x, s);
    LogicalShift(x, s, i);
    if Negative(x) {
      BitConcat(Pow2(s) - 1, x / Pow2(s), 32 - s, i);
      if i + s >= 32 {
        BitOfOnes(s, i - (32 - s));
      }
    }
  }

  lemma SignIsTopBit(x: Word)
    ensures Bit(x, 31) <==> x >= 0x8000_0000
  {
    Pow2At32();
    assert Pow2(32) == 2 * Pow2(31);
    BitIs(x, 31);
    var q := if x >= 0x8000_0000 then 1 else 0;
    QuotientUnique(x, 0x8000_0000, q, x - q * 0x8000_0000);
  }

  lemma LeftShift(x: Word, s: nat, i: nat)
    requires s < 32 && i < 32
    ensures Bit(x * Pow2(s) % WORD_COUNT, i) <==> i >= s && Bit(x, i - s)
  {
    Pow2At32();
    BitConcat(x, 0, s, i);
    BitOfRemainder(x * Pow2(s), i);
    BitOfZero(i);
  }

  /** Every shift of the result switch, for all operands and every bit of the result. */
  lemma ShiftsAreBitwise(fp: FloatUnit, x: Word, y: Word, imm: Word, pc: Word, i: nat)
    requires i < 32
    ensures var s := y % 32;
            && (Bit(ExecuteOp(fp, SLL, x, y, imm, pc), i) <==> i >= s && Bit(x, i - s))
            && (Bit(ExecuteOp(fp, SRL, x, y, imm, pc), i) <==> i + s < 32 && Bit(x, i + s))
            && (Bit(ExecuteOp(fp, SRA, x, y, imm, pc), i) <==> if i + s < 32 then Bit(x, i + s) else Bit(x, 31))
    ensures var s := imm % 32;
            && (Bit(ExecuteOp(fp, SLLI, x, y, imm, pc), i) <==> i >= s && Bit(x, i - s))
            && (Bit(ExecuteOp(fp, SRLI, x, y, imm, pc), i) <==> i + s < 32 && Bit(x, i + s))
  {
    hide Bit, ShiftRight, ShiftRightFill, Signed, ToWord;
    LeftShift(x, y % 32, i);
    LeftShift(x, imm % 32, i);
    SignedShiftLeft(x, Pow2(y % 32));
    SignedShiftLeft(x, Pow2(imm % 32));
    LogicalShift(x, y % 32, i);
    LogicalShift(x, imm % 32, i);
    SignedShiftRight(x, y % 32);
    ArithmeticShift(x, y % 32, i);
  }

  /** A logical right shift is the quotient by a power of two. */
  lemma LogicalShiftDivides(fp: FloatUnit, x: Word, y: Word, imm: Word, pc: Word)
    ensures var r, p := ExecuteOp(fp, SRL, x, y, imm, pc), Pow2(y % 32); r * p <= x < (r + 1) * p
    ensures var r, p := ExecuteOp(fp, SRLI, x, y, imm, pc), Pow2(imm % 32); r * p <= x < (r + 1) * p
  {
    hide Bit, ShiftRight, Pow2;
    LogicalShift(x, y % 32, 0);
    LogicalShift(x, imm % 32, 0);
  }

  /** And, Or and Xor of words, on the parities of the shifted operands. */
  lemma LogicIsBitwise(x: Word, y: Word, i: nat)
    requires i < 32
    ensures var a, b, p := x / Pow2(i) % 2 == 1, y / Pow2(i) % 2 == 1, Pow2(i);
            && (And(x, y) / p % 2 == 1 <==> a && b)
            && (Or(x, y) / p % 2 == 1 <==> a || b)
            && (Xor(x, y) / p % 2 == 1 <==> a != b)
  {
    hide Bit, Pow2;
    BitIs(x, i);
    BitIs(y, i);
    BitIs(And(x, y), i);
    BitIs(Or(x, y), i);
    BitIs(Xor(x, y), i);
  }
}
