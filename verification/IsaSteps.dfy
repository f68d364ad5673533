/** What the sequential machine does with each opcode, in terms of registers, memory
    words and opcodes only: no instruction class and no result function is mentioned
    where the next program counter, an address or a link value is stated. */
module IsaSteps {
  import opened Words
  import opened Instructions
  import opened ArchState
  import opened Machines
  import opened Isa
  import opened Simulation

  /** An operand as the instruction names it; an unused field reads zero. */
  function Field(s: State, idx: RegField, fp: bool): Word {
    if idx < 0 then 0 else if fp then s.regs.f[idx] else s.regs.x[idx]
  }

  /** Only the named register changes, to v; x0 and an unused field change nothing. */
  ghost predicate Puts(s: State, s': State, rd: RegField, fp: bool, v: Word) {
    && s'.regs.x == (if !fp && rd > 0 then s.regs.x[rd := v] else s.regs.x)
    && s'.regs.f == (if fp && rd >= 0 then s.regs.f[rd := v] else s.regs.f)
  }

  /** The instruction behind the one at word pc; byte addresses have 32 bits. */
  function Following(pc: nat): nat { (pc + 1) % 0x4000_0000 }

  /** The word that a byte offset from word pc selects. */
  function Target(pc: nat, imm: Word): nat { (4 * pc + imm) % 0x1_0000_0000 / 4 }

  ghost predicate BranchStep(s: State, s': State, i: Instruction, taken: bool) {
    s'.regs == s.regs && s'.mem == s.mem && s'.pc == if taken then Target(s.pc, i.imm) else Following(s.pc)
  }

  ghost predicate LoadStep(s: State, s': State, i: Instruction, a: Word) {
    && Puts(s, s', i.rd, i.rdFp, if a / 4 < |s.mem| then s.mem[a / 4] else 0)
    && s'.mem == s.mem && s'.pc == s.pc + 1
  }

  ghost predicate StoreStep(s: State, s': State, a: Word, v: Word) {
    && s'.regs == s.regs && s'.pc == s.pc + 1
    && s'.mem == if a / 4 < |s.mem| then s.mem[a / 4 := v] else s.mem
  }

  ghost predicate ComputeStep(s: State, s': State, i: Instruction, v: Word) {
    Puts(s, s', i.rd, i.rdFp, v) && s'.mem == s.mem && s'.pc == s.pc + 1
  }

  /** Results of everything that is neither a memory access nor a control transfer. The
      operators on bits are given bit by bit in Shifts and Words. */
  function Result(fp: FloatUnit, op: Opcode, x: Word, y: Word, imm: Word): Word {
    match op
    case ADD => (x + y) % 0x1_0000_0000
    case ADDI => (x + imm) % 0x1_0000_0000
    case SUB => (x - y) % 0x1_0000_0000
    case AND => And(x, y)
    case ANDI => And(x, imm)
    case OR => Or(x, y)
    case ORI => Or(x, imm)
    case XOR => Xor(x, y)
    case XORI => Xor(x, imm)
    case SLL => x * Pow2(y % 32) % 0x1_0000_0000
    case SLLI => x * Pow2(imm % 32) % 0x1_0000_0000
    case SRL => ToWord(x / Pow2(y % 32))
    case SRLI => ToWord(x / Pow2(imm % 32))
    case SRA => ShiftRightFill(x, y % 32)
    case LUI => imm % 0x10_0000 * 0x1000
    case FADD_S => fp.add(x, y)
    case FSUB_S => fp.sub(x, y)
    case FMUL_S => fp.mul(x, y)
    case FDIV_S => fp.div(x, y)
    case FCVT_W_S => fp.toInt(x)
    case FCVT_S_W => fp.fromInt(x)
    case _ => 0
  }

  /** One instruction, opcode by opcode. */
  ghost predicate OpcodeStep(fp: FloatUnit, i: Instruction, s: State, s': State) {
    var x, y := Field(s, i.rs1, i.rs1Fp), Field(s, i.rs2, i.rs2Fp);
    var a := (Field(s, i.rs1, false) + i.imm) % 0x1_0000_0000;
    var link := (4 * s.pc + 4) % 0x1_0000_0000;
    match i.op
    case BEQ => BranchStep(s, s', i, x == y)
    case BNE => BranchStep(s, s', i, x != y)
    case BLT => BranchStep(s, s', i, Signed(x) < Signed(y))
    case BGE => BranchStep(s, s', i, Signed(x) >= Signed(y))
    case JAL => Puts(s, s', i.rd, false, link) && s'.mem == s.mem && s'.pc == Target(s.pc, i.imm)
    case JALR => Puts(s, s', i.rd, false, link) && s'.mem == s.mem && s'.pc == (x + i.imm) % 0x1_0000_0000 / 4
    case LW | FLW => LoadStep(s, s', i, a)
    case SW | FSW => StoreStep(s, s', a, y)
    case _ => ComputeStep(s, s', i, Result(fp, i.op, x, y, i.imm))
  }

  lemma AddressOf(pc: nat, imm: Word)
    ensures (4 * pc % 0x1_0000_0000 + imm) % 0x1_0000_0000 == (4 * pc + imm) % 0x1_0000_0000
    ensures (4 * pc % 0x1_0000_0000 + 4) % 0x1_0000_0000 == (4 * pc + 4) % 0x1_0000_0000
    ensures (4 * pc + 4) % 0x1_0000_0000 / 4 == (pc + 1) % 0x4000_0000
  {
    AddModulo(4 * pc, imm);
    AddModulo(4 * pc, 4);
    var q, r := (pc + 1) / 0x4000_0000, (pc + 1) % 0x4000_0000;
    QuotientUnique(4 * pc + 4, 0x1_0000_0000, q, 4 * r);
  }

  lemma AddModulo(a: nat, b: nat)
    ensures (a % 0x1_0000_0000 + b) % 0x1_0000_0000 == (a + b) % 0x1_0000_0000
  {
  }

  predicate Taken(op: Opcode, x: Word, y: Word) {
    match op
    case BEQ => x == y
    case BNE => x != y
    case BLT => Signed(x) < Signed(y)
    case _ => Signed(x) >= Signed(y)
  }

  lemma BranchTarget(fp: FloatUnit, op: Opcode, x: Word, y: Word, imm: Word, pc: nat)
    requires op in {BEQ, BNE, BLT, BGE}
    ensures RiscV(fp, op, x, y, imm, ByteAddr(pc)) / 4 == if Taken(op, x, y) then Target(pc, imm) else Following(pc)
  {
    hide Signed, SignedLess;
    AddressOf(pc, imm);
    SignedOrder(x, y);
  }

  /** Clearing the lowest bit does not change the word selected. */
  lemma EvenQuarter(v: nat)
    ensures v / 2 * 2 / 4 == v / 4
  {
    Halves(v);
    Halves(v / 2);
    QuotientUnique(v, 4, v / 2 / 2, v - 4 * (v / 2 / 2));
    QuotientUnique(v / 2 * 2, 4, v / 2 / 2, v / 2 * 2 - 4 * (v / 2 / 2));
  }

  lemma Halves(v: nat)
    ensures 2 * (v / 2) <= v <= 2 * (v / 2) + 1
  {
  }

  lemma JumpTarget(fp: FloatUnit, op: Opcode, x: Word, y: Word, imm: Word, pc: nat)
    requires op in {JAL, JALR}
    ensures RiscV(fp, op, x, y, imm, ByteAddr(pc)) / 4 == if op == JAL then Target(pc, imm) else (x + imm) % 0x1_0000_0000 / 4
    ensures (ByteAddr(pc) + 4) % WORD_COUNT == (4 * pc + 4) % 0x1_0000_0000
  {
    var v := (x + imm) % 0x1_0000_0000;
    AddressOf(pc, imm);
    EvenQuarter(v);
    if op == JALR {
      assert RiscV(fp, op, x, y, imm, ByteAddr(pc)) == v / 2 * 2;
    }
  }

  /** What a branch leaves, its target aside. */
  lemma BranchFields(code: seq<Instruction>, fp: FloatUnit, mem: seq<Word>, s: State)
    requires s.pc < |code| && code[s.pc].op in {BEQ, BNE, BLT, BGE}
    ensures var i, s' := code[s.pc], Step(Reference(code, fp, mem), s);
            && s'.regs == s.regs && s'.mem == s.mem
            && s'.pc == RiscV(fp, i.op, Field(s, i.rs1, i.rs1Fp), Field(s, i.rs2, i.rs2Fp), i.imm, ByteAddr(s.pc)) / 4
  {
    hide RiscV, ByteAddr;
  }

  lemma JumpFields(code: seq<Instruction>, fp: FloatUnit, mem: seq<Word>, s: State)
    requires s.pc < |code| && code[s.pc].op in {JAL, JALR}
    ensures var i, s' := code[s.pc], Step(Reference(code, fp, mem), s);
            && Puts(s, s', i.rd, false, (ByteAddr(s.pc) + 4) % WORD_COUNT) && s'.mem == s.mem
            && s'.pc == RiscV(fp, i.op, Field(s, i.rs1, i.rs1Fp), Field(s, i.rs2, i.rs2Fp), i.imm, ByteAddr(s.pc)) / 4
  {
    hide RiscV, ByteAddr;
  }

  lemma AccessAddress(s: State, i: Instruction)
    ensures AddressIn(s, i) == (Field(s, i.rs1, false) + i.imm) % 0x1_0000_0000
  {
  }

  lemma LoadFields(code: seq<Instruction>, fp: FloatUnit, mem: seq<Word>, s: State)
    requires s.pc < |code| && code[s.pc].op in {LW, FLW}
    ensures var i, s' := code[s.pc], Step(Reference(code, fp, mem), s);
            Puts(s, s', i.rd, i.rdFp, ReadMem(s.mem, AddressIn(s, i))) && s'.mem == s.mem && s'.pc == s.pc + 1
  {
    hide RiscV, AddressIn, ReadMem;
  }

  lemma LoadsStep(code: seq<Instruction>, fp: FloatUnit, mem: seq<Word>, s: State)
    requires s.pc < |code| && code[s.pc].op in {LW, FLW}
    ensures var i := code[s.pc]; LoadStep(s, Step(Reference(code, fp, mem), s), i, (Field(s, i.rs1, false) + i.imm) % 0x1_0000_0000)
  {
    hide Step, AddressIn, Field, Puts;
    LoadFields(code, fp, mem, s);
    AccessAddress(s, code[s.pc]);
  }

  lemma StoreFields(code: seq<Instruction>, fp: FloatUnit, mem: seq<Word>, s: State)
    requires s.pc < |code| && code[s.pc].op in {SW, FSW}
    ensures var i, s' := code[s.pc], Step(Reference(code, fp, mem), s);
            s'.mem == WriteMem(s.mem, AddressIn(s, i), Field(s, i.rs2, i.rs2Fp)) && s'.regs == s.regs && s'.pc == s.pc + 1
  {
    hide RiscV, AddressIn, WriteMem;
  }

  lemma StoresStep(code: seq<Instruction>, fp: FloatUnit, mem: seq<Word>, s: State)
    requires s.pc < |code| && code[s.pc].op in {SW, FSW}
    ensures var i := code[s.pc];
            StoreStep(s, Step(Reference(code, fp, mem), s), (Field(s, i.rs1, false) + i.imm) % 0x1_0000_0000, Field(s, i.rs2, i.rs2Fp))
  {
    hide Step, AddressIn, Field;
    StoreFields(code, fp, mem, s);
    AccessAddress(s, code[s.pc]);
  }

  lemma ResultsStep(code: seq<Instruction>, fp: FloatUnit, mem: seq<Word>, s: State)
    requires s.pc < |code| && code[s.pc].op !in {BEQ, BNE, BLT, BGE, JAL, JALR, LW, FLW, SW, FSW}
    ensures var i := code[s.pc];
            ComputeStep(s, Step(Reference(code, fp, mem), s), i,
                        RiscV(fp, i.op, Field(s, i.rs1, i.rs1Fp), Field(s, i.rs2, i.rs2Fp), i.imm, ByteAddr(s.pc)))
  {
    hide RiscV, ByteAddr;
  }

  lemma BranchesStep(code: seq<Instruction>, fp: FloatUnit, mem: seq<Word>, s: State)
    requires s.pc < |code| && code[s.pc].op in {BEQ, BNE, BLT, BGE}
    ensures OpcodeStep(fp, code[s.pc], s, Step(Reference(code, fp, mem), s))
  {
    hide Step, RiscV, ExecuteOp, Field, Signed, Target, Following, ByteAddr;
    var i := code[s.pc];
    BranchFields(code, fp, mem, s);
    BranchTarget(fp, i.op, Field(s, i.rs1, i.rs1Fp), Field(s, i.rs2, i.rs2Fp), i.imm, s.pc);
  }

  lemma JumpsStep(code: seq<Instruction>, fp: FloatUnit, mem: seq<Word>, s: State)
    requires s.pc < |code| && code[s.pc].op in {JAL, JALR}
    ensures OpcodeStep(fp, code[s.pc], s, Step(Reference(code, fp, mem), s))
  {
    hide Step, RiscV, ExecuteOp, Field, Puts, Target, Following, ByteAddr;
    var i := code[s.pc];
    JumpFields(code, fp, mem, s);
    JumpTarget(fp, i.op, Field(s, i.rs1, i.rs1Fp), Field(s, i.rs2, i.rs2Fp), i.imm, s.pc);
  }

  lemma AccessesStep(code: seq<Instruction>, fp: FloatUnit, mem: seq<Word>, s: State)
    requires s.pc < |code| && code[s.pc].op in {LW, FLW, SW, FSW}
    ensures OpcodeStep(fp, code[s.pc], s, Step(Reference(code, fp, mem), s))
  {
    hide Step, RiscV, ExecuteOp, Field, LoadStep, StoreStep;
    if code[s.pc].op in {LW, FLW} {
      LoadsStep(code, fp, mem, s);
    } else {
      StoresStep(code, fp, mem, s);
    }
  }

  lemma ShiftedFits(x: Word, s: nat)
    requires s < 32
    ensures ShiftRight(x, s) == ToWord(x / Pow2(s))
  {
    ShiftRightBound(x, s);
  }

  lemma ResultIs(fp: FloatUnit, op: Opcode, x: Word, y: Word, imm: Word, pc: Word)
    requires op !in {BEQ, BNE, BLT, BGE, JAL, JALR, LW, FLW, SW, FSW}
    ensures RiscV(fp, op, x, y, imm, pc) == Result(fp, op, x, y, imm)
  {
    hide And, Or, Xor, ShiftRight, ShiftRightFill, ToWord, Pow2, SignedLess;
    ShiftedFits(x, y % 32);
    ShiftedFits(x, imm % 32);
  }

  lemma ComputesStep(code: seq<Instruction>, fp: FloatUnit, mem: seq<Word>, s: State)
    requires s.pc < |code| && code[s.pc].op !in {BEQ, BNE, BLT, BGE, JAL, JALR, LW, FLW, SW, FSW}
    ensures OpcodeStep(fp, code[s.pc], s, Step(Reference(code, fp, mem), s))
  {
    var i := code[s.pc];
    hide Step, RiscV, Result, ComputeStep, Field;
    ResultsStep(code, fp, mem, s);
    ResultIs(fp, i.op, Field(s, i.rs1, i.rs1Fp), Field(s, i.rs2, i.rs2Fp), i.imm, ByteAddr(s.pc));
  }

  /** Every step of the sequential machine is the step its opcode stands for. */
  lemma StepIsOpcodeStep(code: seq<Instruction>, fp: FloatUnit, mem: seq<Word>, s: State)
    requires s.pc < |code|
    ensures OpcodeStep(fp, code[s.pc], s, Step(Reference(code, fp, mem), s))
  {
    hide OpcodeStep, Step;
    if code[s.pc].op in {BEQ, BNE, BLT, BGE} {
      BranchesStep(code, fp, mem, s);
    } else if code[s.pc].op in {JAL, JALR} {
      JumpsStep(code, fp, mem, s);
    } else if code[s.pc].op in {LW, FLW, SW, FSW} {
      AccessesStep(code, fp, mem, s);
    } else {
      ComputesStep(code, fp, mem, s);
    }
  }

  /** The whole sequential run: it starts at word 0 with all registers zero, takes one
      opcode step after another, and stays put off the end of the program. */
  lemma RunIsOpcodeSteps(code: seq<Instruction>, fp: FloatUnit, mem: seq<Word>, n: nat)
    ensures var t := StateAt(Reference(code, fp, mem), 0);
            t.pc == 0 && t.mem == mem && forall r :: 0 <= r < 32 ==> t.regs.x[r] == 0 && t.regs.f[r] == 0
    ensures var s, s' := StateAt(Reference(code, fp, mem), n), StateAt(Reference(code, fp, mem), n + 1);
            if s.pc < |code| then OpcodeStep(fp, code[s.pc], s, s') else s' == s
  {
    var p := Reference(code, fp, mem);
    hide OpcodeStep;
    if StateAt(p, n).pc < |code| {
      StepIsOpcodeStep(code, fp, mem, StateAt(p, n));
    }
  }

  /** What one pass of the simulator's clock loop does to registers and memory: nothing,
      or exactly the opcode step of the instruction that retires. */
  lemma CycleIsOpcodeStep(c: Config, sizes: seq<nat>, code: seq<Instruction>, fp: FloatUnit, mem: seq<Word>, n: nat)
    requires c.robSize > 0 && |sizes| == UNITS && Admissible(Reference(code, fp, mem))
    ensures var m, m' := After(c, sizes, code, fp, mem, n), After(c, sizes, code, fp, mem, n + 1);
            var pc, pc' := StateAt(Reference(code, fp, mem), m.base).pc, StateAt(Reference(code, fp, mem), m.base + 1).pc;
            if m'.base == m.base then m'.regs == m.regs && m'.mem == m.mem
            else pc < |code| && OpcodeStep(fp, code[pc], State(m.regs, m.mem, pc), State(m'.regs, m'.mem, pc'))
  {
    hide After, StateAt, OpcodeStep, Stopped, FinishesAt, NextPcOk, Admissible;
    var m := After(c, sizes, code, fp, mem, n);
    RunRefinesSequential(c, sizes, code, fp, mem, n);
    RunRefinesSequential(c, sizes, code, fp, mem, n + 1);
    CycleIsStutterOrStep(c, sizes, code, fp, mem, n);
    RunIsOpcodeSteps(code, fp, mem, m.base);
  }

  // ----- What the assembler front end emits -----

  /** The fields the front end fills in for each mnemonic, from its register and
      immediate operands; every other field keeps its default. */
  function Emitted(op: Opcode, a: RegField, b: RegField, d: RegField, imm: Word, pc: Word): Instruction {
    var i := Instruction(op, -1, -1, -1, 0, false, false, false, pc);
    match op
    case ADD | SUB | AND | OR | XOR | SLL | SRL | SRA => i.(rd := a, rs1 := b, rs2 := d)
    case ADDI | ANDI | ORI | XORI | SLLI | SRLI | JALR | LW => i.(rd := a, rs1 := b, imm := imm)
    case FLW => i.(rd := a, rdFp := true, rs1 := b, imm := imm)
    case LUI | JAL => i.(rd := a, imm := imm)
    case SW => i.(rs2 := a, rs1 := b, imm := imm)
    case FSW => i.(rs2 := a, rs2Fp := true, rs1 := b, imm := imm)
    case BEQ | BNE | BLT | BGE => i.(rs1 := a, rs2 := b, imm := imm)
    case FADD_S | FSUB_S | FMUL_S | FDIV_S => i.(rd := a, rdFp := true, rs1 := b, rs1Fp := true, rs2 := d, rs2Fp := true)
    case FCVT_W_S => i.(rd := a, rs1 := b, rs1Fp := true)
    case FCVT_S_W => i.(rd := a, rdFp := true, rs1 := b)
    case NOP | HALT => i
  }

  /** The theorems apply to everything the front end can emit. */
  lemma EmittedIsDecodable(op: Opcode, a: RegField, b: RegField, d: RegField, imm: Word, pc: Word)
    ensures Decodable(Emitted(op, a, b, d, imm, pc))
  {
  }
}
