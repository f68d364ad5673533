/** Decoded instructions, configuration constants and the combinational result
    of every operation, next to the RISC-V definition of the same result. */
module Instructions {
  import opened Words

  datatype Opcode =
    | ADD | SUB | AND | OR | XOR | SLL | SRL | SRA
    | ADDI | ANDI | ORI | XORI | SLLI | SRLI
    | LUI
    | LW | SW
    | BEQ | BNE | BLT | BGE
    | JAL | JALR
    | FADD_S | FSUB_S | FMUL_S | FDIV_S
    | FLW | FSW
    | FCVT_W_S | FCVT_S_W
    | NOP | HALT

  /** A register number, or -1 when the field is unused. */
  type RegField = r: int | -1 <= r < 32

  /** The immediate is kept as its 32-bit pattern. */
  datatype Instruction = Instruction(
    op: Opcode, rd: RegField, rs1: RegField, rs2: RegField, imm: Word,
    rdFp: bool, rs1Fp: bool, rs2Fp: bool, pc: Word)

  predicate IsBranch(op: Opcode) { op == BEQ || op == BNE || op == BLT || op == BGE }
  predicate IsJump(op: Opcode) { op == JAL || op == JALR }
  predicate IsControl(op: Opcode) { IsBranch(op) || IsJump(op) }
  predicate IsLoad(op: Opcode) { op == LW || op == FLW }
  predicate IsStore(op: Opcode) { op == SW || op == FSW }
  predicate IsMemory(op: Opcode) { IsLoad(op) || IsStore(op) }

  /** What the assembler front end guarantees about the instructions it emits:
      which fields each opcode leaves unused, and which bank they name. */
  predicate Decodable(i: Instruction) {
    && (IsBranch(i.op) || IsStore(i.op) || i.op == HALT ==> i.rd == -1)
    && (IsJump(i.op) ==> !i.rdFp)
    && (IsMemory(i.op) ==> !i.rs1Fp)
    && (IsLoad(i.op) ==> i.rs2 == -1)
  }

  datatype Latencies = Latencies(
    intAlu: int, intLs: int, branch: int, fpAddSub: int, fpMul: int,
    fpDiv: int, fpLs: int, fpCvt: int, misc: int)

  datatype Pipelining = Pipelining(
    intAlu: bool, intLs: bool, branch: bool, fpAddSub: bool, fpMul: bool,
    fpDiv: bool, fpLs: bool, fpCvt: bool)

  /** Structural parameters. With linear tags an instruction is named by its
      position in the dispatch order instead of by its reorder-buffer slot. */
  datatype Config = Config(
    robSize: nat, lsbSize: nat, iqCapacity: nat, width: nat,
    lat: Latencies, pipe: Pipelining, linear: bool)

  function LatencyOf(c: Config, op: Opcode): int {
    match op
    case ADD | SUB | AND | OR | XOR | SLL | SRL | SRA => c.lat.intAlu
    case ADDI | LUI | ANDI | ORI | XORI | SLLI | SRLI => c.lat.intAlu
    case LW | SW => c.lat.intLs
    case BEQ | BNE | BLT | BGE | JAL | JALR => c.lat.branch
    case FADD_S | FSUB_S => c.lat.fpAddSub
    case FMUL_S => c.lat.fpMul
    case FDIV_S => c.lat.fpDiv
    case FLW | FSW => c.lat.fpLs
    case FCVT_W_S | FCVT_S_W => c.lat.fpCvt
    case NOP | HALT => c.lat.misc
  }

  predicate IsPipelined(c: Config, op: Opcode) {
    match op
    case FADD_S | FSUB_S => c.pipe.fpAddSub
    case FMUL_S => c.pipe.fpMul
    case FDIV_S => c.pipe.fpDiv
    case FLW | FSW => c.pipe.fpLs
    case FCVT_W_S | FCVT_S_W => c.pipe.fpCvt
    case LW | SW => c.pipe.intLs
    case BEQ | BNE | BLT | BGE | JAL | JALR => c.pipe.branch
    case _ => c.pipe.intAlu
  }

  /** Host floating-point arithmetic on bit patterns; nothing is assumed about it. */
  datatype FloatUnit = FloatUnit(
    add: (Word, Word) -> Word, sub: (Word, Word) -> Word,
    mul: (Word, Word) -> Word, div: (Word, Word) -> Word,
    toInt: Word -> Word, fromInt: Word -> Word)

  /** A result function: operation, first and second operand, immediate, byte address. */
  type ExecFn = (Opcode, Word, Word, Word, Word) -> Word

  /** Right shift with zero fill. */
  function ShiftRight(x: Word, s: nat): (r: Word)
    requires s < 32
    ensures r < Pow2(32 - s)
  {
    ShiftRightBound(x, s);
    x / Pow2(s)
  }

  /** The simulator's result switch, phrased through the C++ casts it performs:
      operands are read as int32_t, results are cast back to uint32_t. */
  function ExecuteOp(fp: FloatUnit, op: Opcode, vj: Word, vk: Word, imm: Word, pc: Word): Word {
    var sj := Signed(vj);
    var sk := Signed(vk);
    var simm := Signed(imm);
    match op
    case ADD => ToWord(sj + sk)
    case SUB => ToWord(sj - sk)
    case AND => And(vj, vk)
    case OR => Or(vj, vk)
    case XOR => Xor(vj, vk)
    case SLL => ToWord(sj * Pow2(vk % 32))
    case SRL => ShiftRight(vj, vk % 32)
    case SRA => ToWord(sj / Pow2(vk % 32))
    case ADDI => ToWord(sj + simm)
    case LUI => ToWord(imm * 4096)
    case ANDI => And(vj, imm)
    case ORI => Or(vj, imm)
    case XORI => Xor(vj, imm)
    case SLLI => ToWord(sj * Pow2(imm % 32))
    case SRLI => ShiftRight(vj, imm % 32)
    case LW | FLW | SW | FSW => ToWord(sj + simm)
    case BEQ => if sj == sk then ToWord(pc + imm) else ToWord(pc + 4)
    case BNE => if sj != sk then ToWord(pc + imm) else ToWord(pc + 4)
    case BLT => if sj < sk then ToWord(pc + imm) else ToWord(pc + 4)
    case BGE => if sj >= sk then ToWord(pc + imm) else ToWord(pc + 4)
    case JAL => ToWord(pc + imm)
    case JALR => ToWord(sj + simm) - ToWord(sj + simm) % 2
    case FADD_S => fp.add(vj, vk)
    case FSUB_S => fp.sub(vj, vk)
    case FMUL_S => fp.mul(vj, vk)
    case FDIV_S => fp.div(vj, vk)
    case FCVT_W_S => fp.toInt(vj)
    case FCVT_S_W => fp.fromInt(vj)
    case NOP | HALT => 0
  }

  /** The sign bit of a word. */
  predicate Negative(w: Word) { w >= 0x8000_0000 }

  /** Right shift with the vacated upper bits filled by copies of the sign bit. */
  function ShiftRightFill(x: Word, s: nat): (r: Word)
    requires s < 32
  {
    ShiftRightBound(x, s);
    if Negative(x) then x / Pow2(s) + (Pow2(s) - 1) * Pow2(32 - s) else x / Pow2(s)
  }

  /** A shifted word plus the sign fill still fits in 32 bits. */
  lemma ShiftRightBound(x: Word, s: nat)
    requires s < 32
    ensures 0 <= x / Pow2(s) < Pow2(32 - s) <= WORD_COUNT
    ensures 0 <= (Pow2(s) - 1) * Pow2(32 - s) == WORD_COUNT - Pow2(32 - s)
  {
    Pow2Add(32 - s, s);
    Pow2At32();
    ShiftRightBoundFor(x, Pow2(s), Pow2(32 - s));
  }

  lemma ShiftRightBoundFor(x: Word, p: nat, q: nat)
    requires p > 0 && q > 0 && q * p == WORD_COUNT
    ensures 0 <= x / p < q <= WORD_COUNT
    ensures 0 <= (p - 1) * q == WORD_COUNT - q
  {
    QuotientBelow(x, p, q);
    assert (p - 1) * q == q * p - q;
    MulNonNegative(p - 1, q);
  }

  /** Signed order on words: the order of the sign-flipped patterns. */
  predicate SignedLess(x: Word, y: Word) {
    (x + 0x8000_0000) % WORD_COUNT < (y + 0x8000_0000) % WORD_COUNT
  }

  /** The value an instruction produces according to sections 2.4 and 2.5 of the
      RISC-V Unprivileged ISA: a register result, or the next byte address for a
      control transfer. Floating-point results are those of the given unit. */
  function RiscV(fp: FloatUnit, op: Opcode, x: Word, y: Word, imm: Word, pc: Word): Word {
    var next := (pc + 4) % WORD_COUNT;
    var target := (pc + imm) % WORD_COUNT;
    match op
    case ADD => (x + y) % WORD_COUNT
    case SUB => (x - y) % WORD_COUNT
    case AND => And(x, y)
    case OR => Or(x, y)
    case XOR => Xor(x, y)
    case SLL => (x * Pow2(y % 32)) % WORD_COUNT
    case SRL => ShiftRight(x, y % 32)
    case SRA => ShiftRightFill(x, y % 32)
    case ADDI | LW | FLW | SW | FSW => (x + imm) % WORD_COUNT
    case LUI => (imm % 0x10_0000) * 0x1000
    case ANDI => And(x, imm)
    case ORI => Or(x, imm)
    case XORI => Xor(x, imm)
    case SLLI => (x * Pow2(imm % 32)) % WORD_COUNT
    case SRLI => ShiftRight(x, imm % 32)
    case BEQ => if x == y then target else next
    case BNE => if x == y then next else target
    case BLT => if SignedLess(x, y) then target else next
    case BGE => if SignedLess(x, y) then next else target
    case JAL => target
    case JALR => ((x + imm) % WORD_COUNT) / 2 * 2
    case FADD_S => fp.add(x, y)
    case FSUB_S => fp.sub(x, y)
    case FMUL_S => fp.mul(x, y)
    case FDIV_S => fp.div(x, y)
    case FCVT_W_S => fp.toInt(x)
    case FCVT_S_W => fp.fromInt(x)
    case NOP | HALT => 0
  }

  /** Congruent integers convert to the same word. */
  lemma ToWordShift(a: int, b: int, q: int)
    requires a == b + q * WORD_COUNT
    ensures ToWord(a) == ToWord(b)
  {
  }

  lemma SignedShiftLeft(x: Word, m: nat)
    ensures ToWord(Signed(x) * m) == (x * m) % WORD_COUNT
  {
    if Negative(x) {
      var k: int := m;
      assert (x - WORD_COUNT) * k == x * k + (-k) * WORD_COUNT;
      ToWordShift(Signed(x) * k, x * k, -k);
    }
  }

  lemma SignedShiftRight(x: Word, s: nat)
    requires s < 32
    ensures ToWord(Signed(x) / Pow2(s)) == ShiftRightFill(x, s)
  {
    if Negative(x) {
      ShiftRightBound(x, s);
      Pow2Add(32 - s, s);
      Pow2At32();
      NegativeShift(x, Pow2(s), Pow2(32 - s));
    }
  }

  lemma NegativeShift(x: Word, p: nat, q: nat)
    requires Negative(x)
    requires p > 0 && q > 0 && q * p == WORD_COUNT
    ensures ToWord((x - WORD_COUNT) / p) == x / p + (p - 1) * q
  {
    var d, r := x / p, x % p;
    assert x == d * p + r;
    assert (d - q) * p == d * p - q * p;
    QuotientUnique(x - WORD_COUNT, p, d - q, r);
    ShiftRightBoundFor(x, p, q);
    ToWordShift(d - q, d + (p - 1) * q, -1);
  }

  lemma SignedSum(x: Word, y: Word)
    ensures ToWord(Signed(x) + Signed(y)) == (x + y) % WORD_COUNT
    ensures ToWord(Signed(x) - Signed(y)) == (x - y) % WORD_COUNT
  {
  }

  lemma SignedOrder(x: Word, y: Word)
    ensures Signed(x) < Signed(y) <==> SignedLess(x, y)
    ensures Signed(x) == Signed(y) <==> x == y
  {
  }

  predicate IsSignedShift(op: Opcode) { op == SLL || op == SLLI || op == SRA }

  lemma SumIsRiscV(fp: FloatUnit, op: Opcode, x: Word, y: Word, imm: Word, pc: Word)
    requires op == ADD || op == SUB
    ensures ExecuteOp(fp, op, x, y, imm, pc) == RiscV(fp, op, x, y, imm, pc)
  {
    SignedSum(x, y);
  }

  lemma OffsetIsRiscV(fp: FloatUnit, op: Opcode, x: Word, y: Word, imm: Word, pc: Word)
    requires op == ADDI || IsMemory(op)
    ensures ExecuteOp(fp, op, x, y, imm, pc) == RiscV(fp, op, x, y, imm, pc)
  {
    SignedSum(x, imm);
  }

  lemma JumpIsRiscV(fp: FloatUnit, x: Word, y: Word, imm: Word, pc: Word)
    ensures ExecuteOp(fp, JALR, x, y, imm, pc) == RiscV(fp, JALR, x, y, imm, pc)
  {
    SignedSum(x, imm);
  }

  lemma ShiftIsRiscV(fp: FloatUnit, op: Opcode, x: Word, y: Word, imm: Word, pc: Word)
    requires IsSignedShift(op)
    ensures ExecuteOp(fp, op, x, y, imm, pc) == RiscV(fp, op, x, y, imm, pc)
  {
    match op
    case SLL => SignedShiftLeft(x, Pow2(y % 32));
    case SLLI => SignedShiftLeft(x, Pow2(imm % 32));
    case SRA => SignedShiftRight(x, y % 32);
  }

  lemma BranchIsRiscV(fp: FloatUnit, op: Opcode, x: Word, y: Word, imm: Word, pc: Word)
    requires IsBranch(op)
    ensures ExecuteOp(fp, op, x, y, imm, pc) == RiscV(fp, op, x, y, imm, pc)
  {
    SignedOrder(x, y);
  }

  predicate IsLogic(op: Opcode) {
    op == AND || op == OR || op == XOR || op == ANDI || op == ORI || op == XORI
  }

  lemma LogicIsRiscV(fp: FloatUnit, op: Opcode, x: Word, y: Word, imm: Word, pc: Word)
    requires IsLogic(op)
    ensures ExecuteOp(fp, op, x, y, imm, pc) == RiscV(fp, op, x, y, imm, pc)
  {
  }

  predicate IsFloatArithmetic(op: Opcode) {
    op == FADD_S || op == FSUB_S || op == FMUL_S || op == FDIV_S || op == FCVT_W_S || op == FCVT_S_W
  }

  lemma FloatIsRiscV(fp: FloatUnit, op: Opcode, x: Word, y: Word, imm: Word, pc: Word)
    requires IsFloatArithmetic(op)
    ensures ExecuteOp(fp, op, x, y, imm, pc) == RiscV(fp, op, x, y, imm, pc)
  {
  }

  lemma UpperIsRiscV(fp: FloatUnit, x: Word, y: Word, imm: Word, pc: Word)
    ensures ExecuteOp(fp, LUI, x, y, imm, pc) == RiscV(fp, LUI, x, y, imm, pc)
  {
    var q, r := imm / 0x10_0000, imm % 0x10_0000;
    assert imm * 4096 == q * WORD_COUNT + r * 0x1000;
    ToWordShift(imm * 4096, r * 0x1000, q);
  }

  lemma ShiftRightIsRiscV(fp: FloatUnit, op: Opcode, x: Word, y: Word, imm: Word, pc: Word)
    requires op == SRL || op == SRLI
    ensures ExecuteOp(fp, op, x, y, imm, pc) == RiscV(fp, op, x, y, imm, pc)
  {
    hide And, Or, Xor, ShiftRight, ShiftRightFill, Pow2, Signed, ToWord;
  }

  lemma TargetIsRiscV(fp: FloatUnit, op: Opcode, x: Word, y: Word, imm: Word, pc: Word)
    requires op == JAL || op == NOP || op == HALT
    ensures ExecuteOp(fp, op, x, y, imm, pc) == RiscV(fp, op, x, y, imm, pc)
  {
    hide And, Or, Xor, ShiftRight, ShiftRightFill, Pow2, Signed;
  }

  /** The simulator's result switch computes exactly the RISC-V result. */
  lemma ExecuteOpIsRiscV(fp: FloatUnit, op: Opcode, x: Word, y: Word, imm: Word, pc: Word)
    ensures ExecuteOp(fp, op, x, y, imm, pc) == RiscV(fp, op, x, y, imm, pc)
  {
    if IsSignedShift(op) {
      ShiftIsRiscV(fp, op, x, y, imm, pc);
    } else if IsBranch(op) {
      BranchIsRiscV(fp, op, x, y, imm, pc);
    } else if op == ADD || op == SUB {
      SumIsRiscV(fp, op, x, y, imm, pc);
    } else if op == ADDI || IsMemory(op) {
      OffsetIsRiscV(fp, op, x, y, imm, pc);
    } else if op == JALR {
      JumpIsRiscV(fp, x, y, imm, pc);
    } else if op == LUI {
      UpperIsRiscV(fp, x, y, imm, pc);
    } else if IsLogic(op) {
      LogicIsRiscV(fp, op, x, y, imm, pc);
    } else if IsFloatArithmetic(op) {
      FloatIsRiscV(fp, op, x, y, imm, pc);
    } else if op == SRL || op == SRLI {
      ShiftRightIsRiscV(fp, op, x, y, imm, pc);
    } else {
      TargetIsRiscV(fp, op, x, y, imm, pc);
    }
  }
}
