/** What holds between the pipeline (with linear tags, so that every tag is a
    position in the trace) and the reference machine's trace. */
module Invariants {
  import opened Words
  import opened Instructions
  import opened Renaming
  import opened Buffers
  import opened Machines
  import opened Isa

  // ----- Reorder buffer: entry i is the trace instruction base + i -----

  ghost predicate InWindow(k: nat, rob: seq<RobEntry>, n: int) {
    k <= n < k + |rob|
  }

  ghost predicate Flying(k: nat, rob: seq<RobEntry>, n: int) {
    InWindow(k, rob, n) && rob[n - k].state == InFlight
  }

  ghost predicate RobEntryOk(x: Trace, n: nat, e: RobEntry) {
    var i := At(x, n);
    && On(x, n)
    && e.op == i.op && e.rd == i.rd && e.rdFp == i.rdFp && e.pc == i.pc
    && e.state != RobIdle
    && (e.state == RobDone && Live(x, n) ==> e.result == Res(x, n))
  }

  ghost predicate RobOk(x: Trace, k: nat, rob: seq<RobEntry>) {
    forall i :: 0 <= i < |rob| ==> RobEntryOk(x, k + i, rob[i])
  }

  // ----- Operands -----

  ghost predicate OnBus(bus: seq<BusResult>, t: int) {
    exists i :: 0 <= i < |bus| && bus[i].tag == t
  }

  /** Everything on the bus is the correct result of a finished instruction. */
  ghost predicate BusOk(x: Trace, k: nat, rob: seq<RobEntry>, bus: seq<BusResult>) {
    forall i :: 0 <= i < |bus| ==>
      && InWindow(k, rob, bus[i].tag)
      && rob[bus[i].tag - k].state == RobDone
      && (Live(x, bus[i].tag) ==> bus[i].value == Res(x, bus[i].tag))
  }

  /** A present operand is the value the register has in the trace just before
      instruction n; a missing one waits for an older instruction in flight (or
      just broadcast) that produces exactly that value. */
  ghost predicate OperandOk(x: Trace, k: nat, rob: seq<RobEntry>, bus: seq<BusResult>,
                            n: nat, o: Operand, src: RegField, fp: bool) {
    if o.q == -1 then Live(x, n) ==> o.v == Source(T(x, n).regs, src, fp)
    else
      && k <= o.q < n
      && (Flying(k, rob, o.q) || OnBus(bus, o.q))
      && At(x, o.q).rd >= 0
      && Res(x, o.q) == Source(T(x, n).regs, src, fp)
  }

  ghost predicate OperandsOk(x: Trace, k: nat, rob: seq<RobEntry>, bus: seq<BusResult>, n: nat, o1: Operand, o2: Operand) {
    var i := At(x, n);
    && OperandOk(x, k, rob, bus, n, o1, i.rs1, i.rs1Fp)
    && OperandOk(x, k, rob, bus, n, o2, i.rs2, i.rs2Fp)
  }

  /** Operands that are both present have their trace values. */
  lemma OperandValues(x: Trace, k: nat, rob: seq<RobEntry>, bus: seq<BusResult>, n: nat, o1: Operand, o2: Operand)
    requires OperandsOk(x, k, rob, bus, n, o1, o2) && Live(x, n)
    ensures o1.q == -1 ==> o1.v == Source(T(x, n).regs, At(x, n).rs1, At(x, n).rs1Fp)
    ensures o2.q == -1 ==> o2.v == Source(T(x, n).regs, At(x, n).rs2, At(x, n).rs2Fp)
  {
  }

  // ----- Reservation stations -----

  ghost predicate RsEntryOk(x: Trace, k: nat, rob: seq<RobEntry>, u: nat, e: RsEntry) {
    && Flying(k, rob, e.tag)
    && var i := At(x, e.tag);
    && UnitOf(i.op) == u
    && e.op == i.op && e.imm == i.imm && e.pc == i.pc
    && e.rem >= 0
    && (e.rem > 0 || e.done ==> e.j.q == -1 && e.k.q == -1)
    && (e.done && Live(x, e.tag) ==> e.result == Res(x, e.tag))
  }

  /** Every occupied slot is correct, and no instruction occupies two slots. */
  ghost predicate StationOk(x: Trace, k: nat, rob: seq<RobEntry>, bus: seq<BusResult>, u: nat, es: seq<RsEntry>) {
    && (forall i :: 0 <= i < |es| && es[i].busy ==> RsEntryOk(x, k, rob, u, es[i]))
    && (forall i :: 0 <= i < |es| && es[i].busy ==> OperandsOk(x, k, rob, bus, es[i].tag, es[i].j, es[i].k))
    && (forall i, j :: 0 <= i < j < |es| && es[i].busy && es[j].busy ==> es[i].tag != es[j].tag)
  }

  ghost predicate StationsOk(x: Trace, k: nat, rob: seq<RobEntry>, bus: seq<BusResult>, s: Stations) {
    forall u :: 0 <= u < UNITS ==> StationOk(x, k, rob, bus, u, s[u])
  }

  // ----- Load/store buffer -----

  /** A buffered load is in flight; a store marked finished is finished. */
  ghost predicate StatusOk(k: nat, rob: seq<RobEntry>, e: LsbEntry) {
    && (IsLoad(e.op) ==> Flying(k, rob, e.tag))
    && (IsStore(e.op) && InWindow(k, rob, e.tag) && rob[e.tag - k].state == RobDone ==> e.state == LsbDone)
  }

  ghost predicate LsbEntryOk(x: Trace, k: nat, rob: seq<RobEntry>, e: LsbEntry) {
    && InWindow(k, rob, e.tag)
    && var i := At(x, e.tag);
    && IsMemory(i.op) && e.op == i.op && e.imm == i.imm
    && e.state != LsbIdle
    && StatusOk(k, rob, e)
    && (e.state != Waiting ==> e.j.q == -1 && (Live(x, e.tag) ==> e.addr == Addr(x, e.tag)))
    && (e.state == LsbDone || IsLoad(e.op) ==> e.k.q == -1)
    && (e.state == Accessing ==> IsLoad(e.op) && e.rem >= 1)
    && (e.state == LsbDone && IsLoad(e.op) && Live(x, e.tag) ==> e.result == Res(x, e.tag))
  }

  /** Every older store still buffered has a known address other than a. */
  ghost predicate ClearBelow(es: seq<LsbEntry>, i: nat, a: Word)
    requires i <= |es|
  {
    forall j :: 0 <= j < i && IsStore(es[j].op) ==> es[j].state != Waiting && es[j].addr != a
  }

  /** Entries are in program order, hold every store in flight, and a load that is
      already reading memory conflicts with no older store. */
  ghost predicate LsbOk(x: Trace, k: nat, rob: seq<RobEntry>, bus: seq<BusResult>, es: seq<LsbEntry>) {
    && (forall i :: 0 <= i < |es| ==> LsbEntryOk(x, k, rob, es[i]))
    && (forall i :: 0 <= i < |es| ==> OperandsOk(x, k, rob, bus, es[i].tag, es[i].j, es[i].k))
    && Ordered(es)
    && StoresBuffered(x, k, k + |rob|, es)
    && (forall i :: 0 <= i < |es| && es[i].state == Accessing ==> ClearBelow(es, i, es[i].addr))
  }

  ghost predicate Ordered(es: seq<LsbEntry>) {
    forall i, j :: 0 <= i < j < |es| ==> es[i].tag < es[j].tag
  }

  ghost predicate Buffered(es: seq<LsbEntry>, n: int) {
    exists i :: 0 <= i < |es| && es[i].tag == n
  }

  ghost predicate StoresBuffered(x: Trace, k: nat, end: nat, es: seq<LsbEntry>) {
    forall n: nat {:trigger Buffered(es, n)} :: k <= n < end && IsStore(At(x, n).op) ==> Buffered(es, n)
  }

  // ----- No instruction is lost: whatever is in flight sits in its unit -----

  ghost predicate Stationed(es: seq<RsEntry>, n: int) {
    exists i :: 0 <= i < |es| && es[i].busy && es[i].tag == n
  }

  ghost predicate Owned(x: Trace, stations: Stations, lsb: seq<LsbEntry>, n: nat) {
    var u := UnitOf(At(x, n).op);
    if u == UNITS then Buffered(lsb, n) else Stationed(stations[u], n)
  }

  ghost predicate AllOwned(x: Trace, k: nat, rob: seq<RobEntry>, stations: Stations, lsb: seq<LsbEntry>) {
    forall n: nat {:trigger Owned(x, stations, lsb, n)} :: Flying(k, rob, n) ==> Owned(x, stations, lsb, n)
  }

  // ----- Renaming: exactly the youngest writer in flight -----

  ghost predicate RatEntryOk(x: Trace, k: nat, end: nat, e: RatEntry, idx: int, fp: bool) {
    if e.valid then
      && k <= e.tag < end
      && Writes(At(x, e.tag), idx, fp)
      && Unwritten(x, e.tag + 1, end, idx, fp)
    else Unwritten(x, k, end, idx, fp)
  }

  ghost predicate RatOk(x: Trace, k: nat, end: nat, rat: Rat) {
    forall idx: int, fp: bool :: 0 <= idx < 32 ==> RatEntryOk(x, k, end, Lookup(rat, idx, fp), idx, fp)
  }

  // ----- Control: a transfer in flight is the youngest instruction -----

  ghost predicate ControlOk(x: Trace, k: nat, end: nat, branchInFlight: bool) {
    && (forall n: nat :: k <= n < end ==> (IsControl(At(x, n).op) <==> branchInFlight && n == end - 1))
    && (branchInFlight ==> k < end)
  }

  /** Unless dispatch is stalled, the queue holds the next instructions of the trace. */
  ghost predicate QueueOk(x: Trace, end: nat, iq: Queue) {
    && |iq.buffer| <= iq.pc
    && (iq.buffer != [] ==> iq.pc <= |x.p.code|)
    && T(x, end).pc == iq.pc - |iq.buffer|
    && (forall i :: 0 <= i < |iq.buffer| ==> iq.buffer[i] == x.p.code[iq.pc - |iq.buffer| + i])
  }

  // ----- The whole pipeline -----

  ghost predicate UnitsOk(x: Trace, m: Machine, bus: seq<BusResult>) {
    && RobOk(x, m.base, m.rob)
    && StationsOk(x, m.base, m.rob, bus, m.stations)
    && LsbOk(x, m.base, m.rob, bus, m.lsb)
    && AllOwned(x, m.base, m.rob, m.stations, m.lsb)
  }

  ghost predicate FrontOk(x: Trace, m: Machine) {
    var end := m.base + |m.rob|;
    && RatOk(x, m.base, end, m.rat)
    && ControlOk(x, m.base, end, m.branchInFlight)
    && (!m.branchInFlight ==> QueueOk(x, end, m.iq))
  }

  /** Registers and memory are those of the reference machine after base instructions. */
  ghost predicate ArchOk(x: Trace, m: Machine) {
    m.regs == T(x, m.base).regs && m.mem == T(x, m.base).mem
  }

  ghost predicate Inv(c: Config, x: Trace, m: Machine) {
    && |m.rob| <= c.robSize
    && |m.lsb| <= c.lsbSize
    && UnitsOk(x, m, [])
    && FrontOk(x, m)
    && ArchOk(x, m)
    && !m.halted && Live(x, m.base)
    && (m.base > 0 ==> On(x, m.base - 1))
  }

  /** The part of the invariant that also holds once HALT has retired. */
  ghost predicate Coherent(c: Config, x: Trace, m: Machine) {
    && |m.rob| <= c.robSize
    && |m.lsb| <= c.lsbSize
    && UnitsOk(x, m, [])
    && FrontOk(x, m)
  }

  /** What is assumed of the program: its instructions are well-formed, its trace is the
      reference run, and aliasing is unambiguous for the memory accesses it executes. */
  ghost predicate Sound(x: Trace) {
    WellFormed(x) && Unambiguous(x)
  }

  /** The simulator's result function computes what the reference machine's does. */
  ghost predicate SameResults(f: ExecFn, g: ExecFn) {
    forall op, a, b, i, pc :: f(op, a, b, i, pc) == g(op, a, b, i, pc)
  }
}
