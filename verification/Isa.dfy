/** The reference machine: RV32IF one instruction at a time, and its trace. */
module Isa {
  import opened Words
  import opened Instructions
  import opened ArchState

  /** pc is the word index of the next instruction. */
  datatype State = State(regs: Regs, mem: seq<Word>, pc: nat)

  /** A program, the result function of its operations, and the initial memory. */
  datatype Program = Program(code: seq<Instruction>, alu: ExecFn, mem: seq<Word>)

  const NO_INSTRUCTION := Instruction(NOP, -1, -1, -1, 0, false, false, false, 0)

  function Source(r: Regs, idx: RegField, fp: bool): Word {
    if idx < 0 then 0 else Read(r, idx, fp)
  }

  function AddressIn(s: State, i: Instruction): Word {
    (Source(s.regs, i.rs1, false) + i.imm) % WORD_COUNT
  }

  function ByteAddr(pc: nat): Word { (4 * pc) % WORD_COUNT }

  /** The value an instruction produces: loaded data, a result, or a transfer target. */
  function Produced(p: Program, s: State, i: Instruction): Word {
    if IsStore(i.op) then 0
    else if IsLoad(i.op) then ReadMem(s.mem, AddressIn(s, i))
    else p.alu(i.op, Source(s.regs, i.rs1, i.rs1Fp), Source(s.regs, i.rs2, i.rs2Fp), i.imm, ByteAddr(s.pc))
  }

  /** JAL and JALR write the return address; stores and branches write no register. */
  function NextRegs(p: Program, s: State, i: Instruction): Regs {
    if i.rd < 0 || IsStore(i.op) || IsBranch(i.op) then s.regs
    else if IsJump(i.op) then Write(s.regs, i.rd, false, (ByteAddr(s.pc) + 4) % WORD_COUNT)
    else Write(s.regs, i.rd, i.rdFp, Produced(p, s, i))
  }

  function NextMem(s: State, i: Instruction): seq<Word> {
    if IsStore(i.op) then WriteMem(s.mem, AddressIn(s, i), Source(s.regs, i.rs2, i.rs2Fp)) else s.mem
  }

  function NextPc(p: Program, s: State, i: Instruction): nat {
    if IsControl(i.op) then Produced(p, s, i) / 4 else s.pc + 1
  }

  /** One instruction; off the end of the program nothing happens. */
  function Step(p: Program, s: State): State {
    if s.pc < |p.code| then
      var i := p.code[s.pc];
      State(NextRegs(p, s, i), NextMem(s, i), NextPc(p, s, i))
    else s
  }

  function Initial(p: Program): State { State(ZERO_REGS, p.mem, 0) }

  /** The state before the n-th instruction. HALT counts as an instruction without effect. */
  ghost function StateAt(p: Program, n: nat): State {
    if n == 0 then Initial(p) else Step(p, StateAt(p, n - 1))
  }

  ghost function InstructionAt(p: Program, s: State): Instruction {
    if s.pc < |p.code| then p.code[s.pc] else NO_INSTRUCTION
  }

  /** The run of a program, indexed by the number of instructions executed: the state
      before instruction n, the instruction itself, the value it produces, the address
      it would access, and whether no HALT precedes it. */
  datatype Trace = Trace(
    p: Program, at: nat -> State, instr: nat -> Instruction,
    res: nat -> Word, addr: nat -> Word, live: nat -> bool)

  ghost predicate IsTrace(x: Trace) {
    && x.at(0) == Initial(x.p)
    && x.live(0)
    && (forall n: nat {:trigger Step(x.p, x.at(n))} :: x.at(n + 1) == Step(x.p, x.at(n)))
    && (forall n: nat {:trigger InstructionAt(x.p, x.at(n))} :: x.instr(n) == InstructionAt(x.p, x.at(n)))
    && (forall n: nat {:trigger Produced(x.p, x.at(n), x.instr(n))} :: x.res(n) == Produced(x.p, x.at(n), x.instr(n)))
    && (forall n: nat {:trigger AddressIn(x.at(n), x.instr(n))} :: x.addr(n) == AddressIn(x.at(n), x.instr(n)))
    && (forall n: nat {:trigger x.live(n + 1)} :: x.live(n + 1) <==> x.live(n) && x.instr(n).op != HALT)
  }

  ghost predicate NoHaltBefore(p: Program, n: nat) {
    n == 0 || (NoHaltBefore(p, n - 1) && InstructionAt(p, StateAt(p, n - 1)).op != HALT)
  }

  ghost function TraceOf(p: Program): (x: Trace)
    ensures IsTrace(x) && x.p == p
    ensures forall n: nat :: x.at(n) == StateAt(p, n)
    ensures forall n: nat :: x.live(n) <==> NoHaltBefore(p, n)
  {
    Trace(p, (n: nat) => StateAt(p, n), (n: nat) => InstructionAt(p, StateAt(p, n)),
          (n: nat) => Produced(p, StateAt(p, n), InstructionAt(p, StateAt(p, n))),
          (n: nat) => AddressIn(StateAt(p, n), InstructionAt(p, StateAt(p, n))),
          (n: nat) => NoHaltBefore(p, n))
  }

  ghost function T(x: Trace, n: nat): State { x.at(n) }

  lemma StepIs(x: Trace, n: nat)
    requires IsTrace(x)
    ensures T(x, n + 1) == Step(x.p, T(x, n))
  {
    assert Step(x.p, x.at(n)) == x.at(n + 1);
  }

  lemma AtIs(x: Trace, n: nat)
    requires IsTrace(x)
    ensures At(x, n) == InstructionAt(x.p, T(x, n))
  {
  }

  ghost predicate On(x: Trace, n: nat) { T(x, n).pc < |x.p.code| }

  /** The n-th executed instruction, its result and its address. */
  ghost function At(x: Trace, n: nat): Instruction { x.instr(n) }

  ghost function Res(x: Trace, n: nat): Word { x.res(n) }

  ghost function Addr(x: Trace, n: nat): Word { x.addr(n) }

  ghost function StoreData(x: Trace, n: nat): Word {
    Source(T(x, n).regs, At(x, n).rs2, At(x, n).rs2Fp)
  }

  /** No HALT is executed before the n-th instruction. */
  ghost predicate Live(x: Trace, n: nat) { x.live(n) }

  /** Each instruction carries its byte address and is one the front end can emit. */
  ghost predicate WellFormed(x: Trace) {
    && IsTrace(x)
    && forall i :: 0 <= i < |x.p.code| ==> Decodable(x.p.code[i]) && x.p.code[i].pc == ByteAddr(i)
  }

  predicate Writes(i: Instruction, idx: int, fp: bool) {
    i.rd == idx && i.rdFp == fp && idx >= 0 && (fp || idx != 0)
  }

  // ----- What one step changes -----

  lemma AtDecodable(x: Trace, n: nat)
    requires WellFormed(x)
    ensures Decodable(At(x, n))
    ensures On(x, n) ==> At(x, n).pc == ByteAddr(T(x, n).pc)
  {
    AtIs(x, n);
  }

  lemma AddrIs(x: Trace, n: nat)
    requires IsTrace(x)
    ensures Addr(x, n) == AddressIn(T(x, n), At(x, n))
  {
  }

  lemma ResIs(x: Trace, n: nat)
    requires IsTrace(x)
    ensures Res(x, n) == Produced(x.p, T(x, n), At(x, n))
  {
  }

  /** The value an instruction puts into its destination: JAL and JALR put the return address. */
  ghost function Written(x: Trace, n: nat): Word {
    if IsJump(At(x, n).op) then (ByteAddr(T(x, n).pc) + 4) % WORD_COUNT else Res(x, n)
  }

  lemma StepRead(x: Trace, n: nat, idx: int, fp: bool)
    requires WellFormed(x) && 0 <= idx < 32
    ensures !Writes(At(x, n), idx, fp) ==> Read(T(x, n + 1).regs, idx, fp) == Read(T(x, n).regs, idx, fp)
    ensures Writes(At(x, n), idx, fp) ==> Read(T(x, n + 1).regs, idx, fp) == Written(x, n)
  {
    AtDecodable(x, n);
    AtIs(x, n);
    ResIs(x, n);
    StepIs(x, n);
  }

  lemma StepMem(x: Trace, n: nat)
    requires IsTrace(x)
    ensures T(x, n + 1).mem == NextMem(T(x, n), At(x, n))
    ensures |T(x, n + 1).mem| == |T(x, n).mem|
  {
    AtIs(x, n);
    StepIs(x, n);
  }

  lemma StepPc(x: Trace, n: nat)
    requires IsTrace(x)
    requires On(x, n)
    ensures T(x, n + 1).pc == NextPc(x.p, T(x, n), At(x, n))
  {
    AtIs(x, n);
    StepIs(x, n);
  }

  lemma {:induction false} MemSize(x: Trace, n: nat)
    requires IsTrace(x)
    ensures |T(x, n).mem| == |x.p.mem|
  {
    if n > 0 {
      MemSize(x, n - 1);
      StepMem(x, n - 1);
    }
  }

  // ----- What a stretch of the trace keeps -----

  ghost predicate Unwritten(x: Trace, a: nat, b: nat, idx: int, fp: bool) {
    forall n: nat :: a <= n < b ==> !Writes(At(x, n), idx, fp)
  }

  lemma {:induction false} RegisterKept(x: Trace, a: nat, b: nat, idx: int, fp: bool)
    requires WellFormed(x) && 0 <= idx < 32 && a <= b
    requires Unwritten(x, a, b, idx, fp)
    ensures Read(T(x, b).regs, idx, fp) == Read(T(x, a).regs, idx, fp)
    decreases b
  {
    if a < b {
      RegisterKept(x, a, b - 1, idx, fp);
      StepRead(x, b - 1, idx, fp);
    }
  }

  /** A register holds what its last writer put into it: a result, or a return address. */
  lemma LastWriter(x: Trace, w: nat, b: nat, idx: int, fp: bool)
    requires WellFormed(x) && 0 <= idx < 32 && w < b
    requires Writes(At(x, w), idx, fp)
    requires Unwritten(x, w + 1, b, idx, fp)
    ensures Read(T(x, b).regs, idx, fp) == if IsJump(At(x, w).op) then (ByteAddr(T(x, w).pc) + 4) % WORD_COUNT else Res(x, w)
  {
    StepRead(x, w, idx, fp);
    RegisterKept(x, w + 1, b, idx, fp);
  }

  /** Instruction s stores to the memory word that byte address a selects. */
  ghost predicate Hits(x: Trace, s: nat, a: Word) {
    IsStore(At(x, s).op) && Addr(x, s) / 4 == a / 4 && a / 4 < |x.p.mem|
  }

  lemma StepReadMem(x: Trace, n: nat, a: Word)
    requires IsTrace(x)
    ensures Hits(x, n, a) ==> ReadMem(T(x, n + 1).mem, a) == StoreData(x, n)
    ensures !Hits(x, n, a) ==> ReadMem(T(x, n + 1).mem, a) == ReadMem(T(x, n).mem, a)
  {
    AddrIs(x, n);
    StepMem(x, n);
    MemSize(x, n);
  }

  ghost predicate Unhit(x: Trace, a: nat, b: nat, addr: Word) {
    forall s: nat :: a <= s < b ==> !Hits(x, s, addr)
  }

  lemma {:induction false} MemoryKept(x: Trace, a: nat, b: nat, addr: Word)
    requires IsTrace(x)
    requires a <= b && Unhit(x, a, b, addr)
    ensures ReadMem(T(x, b).mem, addr) == ReadMem(T(x, a).mem, addr)
    decreases b
  {
    if a < b {
      MemoryKept(x, a, b - 1, addr);
      StepReadMem(x, b - 1, addr);
    }
  }

  /** A memory word holds the data of the last store that hit it. */
  lemma LastStore(x: Trace, s: nat, b: nat, addr: Word)
    requires IsTrace(x)
    requires s < b && Hits(x, s, addr) && Unhit(x, s + 1, b, addr)
    ensures ReadMem(T(x, b).mem, addr) == StoreData(x, s)
  {
    StepReadMem(x, s, addr);
    MemoryKept(x, s + 1, b, addr);
  }

  lemma LiveStep(x: Trace, n: nat)
    requires IsTrace(x)
    ensures Live(x, n + 1) <==> Live(x, n) && At(x, n).op != HALT
  {
  }

  lemma {:induction false} LiveBefore(x: Trace, a: nat, b: nat)
    requires IsTrace(x) && a <= b && Live(x, b)
    ensures Live(x, a)
    decreases b
  {
    if a < b {
      LiveStep(x, b - 1);
      LiveBefore(x, a, b - 1);
    }
  }

  // ----- The address premise -----

  /** For one store and one later load, comparing byte addresses (which is what the
      load/store buffer does) gives the same answer as comparing memory words. */
  ghost predicate AliasAgrees(x: Trace, s: nat, l: nat) {
    Addr(x, s) == Addr(x, l) <==> Hits(x, s, Addr(x, l))
  }

  /** The premise of the refinement: aliasing is unambiguous for everything executed. */
  ghost predicate Unambiguous(x: Trace) {
    forall s: nat, l: nat {:trigger AliasAgrees(x, s, l)} ::
      s < l && Live(x, l) && IsStore(At(x, s).op) && IsLoad(At(x, l).op) ==> AliasAgrees(x, s, l)
  }

  /** Every executed load and store is word-aligned and inside memory. */
  ghost predicate AlignedInRange(x: Trace) {
    forall n: nat {:trigger Addr(x, n)} ::
      Live(x, n) && IsMemory(At(x, n).op) ==> Addr(x, n) % 4 == 0 && Addr(x, n) / 4 < |x.p.mem|
  }

  lemma AlignedIsUnambiguous(x: Trace)
    requires IsTrace(x) && AlignedInRange(x)
    ensures Unambiguous(x)
  {
    forall s: nat, l: nat | s < l && Live(x, l) && IsStore(At(x, s).op) && IsLoad(At(x, l).op)
      ensures AliasAgrees(x, s, l)
    {
      LiveBefore(x, s, l);
    }
  }
}
