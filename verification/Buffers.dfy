/** The entries of the reorder buffer, the reservation stations and the
    load/store buffer, and what each clocked operation does to them. */
module Buffers {
  import opened Words
  import opened Instructions
  import opened ArchState
  import opened Renaming

  // ----- Reorder buffer -----

  datatype RobState = RobIdle | InFlight | RobDone

  datatype RobEntry = RobEntry(state: RobState, op: Opcode, rd: RegField, rdFp: bool, result: Word, pc: Word)

  const IDLE_ROB := RobEntry(RobIdle, NOP, -1, false, 0, 0)

  /** The name given to the n-th dispatched instruction. */
  function Slot(c: Config, n: nat): int
    requires c.robSize > 0
  {
    if c.linear then n else n % c.robSize
  }

  /** Where the instruction named tag sits, counted from the oldest one (number base). */
  function Position(c: Config, base: nat, tag: int): int
    requires c.robSize > 0
  {
    if c.linear then tag - base else (tag - base) % c.robSize
  }

  function NewRobEntry(i: Instruction): RobEntry {
    RobEntry(InFlight, i.op, i.rd, i.rdFp, 0, i.pc)
  }

  function Peek(c: Config, base: nat, rob: seq<RobEntry>, tag: int): RobEntry
    requires c.robSize > 0
  {
    var i := Position(c, base, tag);
    if 0 <= i < |rob| then rob[i] else IDLE_ROB
  }

  function Finish(e: RobEntry, v: Word): RobEntry {
    e.(state := RobDone, result := v)
  }

  function WriteResult(c: Config, base: nat, rob: seq<RobEntry>, tag: int, v: Word): (r: seq<RobEntry>)
    requires c.robSize > 0
    ensures |r| == |rob|
  {
    var i := Position(c, base, tag);
    if 0 <= i < |rob| then rob[i := Finish(rob[i], v)] else rob
  }

  // ----- Common data bus -----

  datatype BusResult = BusResult(tag: int, value: Word)

  function WriteAll(c: Config, base: nat, rob: seq<RobEntry>, bus: seq<BusResult>): (r: seq<RobEntry>)
    requires c.robSize > 0
    ensures |r| == |rob|
    decreases |bus|
  {
    if bus == [] then rob
    else
      var last := |bus| - 1;
      WriteResult(c, base, WriteAll(c, base, rob, bus[..last]), bus[last].tag, bus[last].value)
  }

  // ----- Operands -----

  /** q is -1 when v is the operand, else the tag being waited for. */
  datatype Operand = Operand(v: Word, q: int)

  /** The dispatch-time forwarding chain: renaming table, reorder buffer, register file. */
  function Resolve(c: Config, idx: RegField, fp: bool, rat: Rat, regs: Regs, base: nat, rob: seq<RobEntry>): Operand
    requires c.robSize > 0
  {
    if idx < 0 then Operand(0, -1)
    else
      var e := Lookup(rat, idx, fp);
      if !e.valid then Operand(Read(regs, idx, fp), -1)
      else
        var r := Peek(c, base, rob, e.tag);
        if r.state == RobDone then Operand(r.result, -1) else Operand(0, e.tag)
  }

  /** One bus result seen by one operand. */
  function Catch(o: Operand, r: BusResult): Operand {
    if o.q == r.tag then Operand(r.value, -1) else o
  }

  function CatchAll(o: Operand, bus: seq<BusResult>): Operand
    decreases |bus|
  {
    if bus == [] then o else Catch(CatchAll(o, bus[..|bus| - 1]), bus[|bus| - 1])
  }

  // ----- Reservation stations -----

  datatype RsEntry = RsEntry(
    busy: bool, op: Opcode, tag: int, j: Operand, k: Operand, imm: Word, rdFp: bool,
    done: bool, rem: int, result: Word, pc: Word)

  const NO_OPERAND := Operand(0, -1)
  const IDLE_RS := RsEntry(false, NOP, -1, NO_OPERAND, NO_OPERAND, 0, false, false, 0, 0, 0)

  function NewRsEntry(i: Instruction, tag: int, j: Operand, k: Operand): RsEntry {
    RsEntry(true, i.op, tag, j, k, i.imm, i.rdFp, false, 0, 0, i.pc)
  }

  function Computed(f: ExecFn, e: RsEntry): RsEntry {
    e.(rem := 0, result := f(e.op, e.j.v, e.k.v, e.imm, e.pc), done := true)
  }

  /** First half of a station tick, for one entry. */
  function CountDown(f: ExecFn, e: RsEntry): RsEntry {
    if !e.busy || e.done || e.rem == 0 then e
    else if e.rem - 1 == 0 then Computed(f, e)
    else e.(rem := e.rem - 1)
  }

  function CountDownAll(f: ExecFn, es: seq<RsEntry>): (r: seq<RsEntry>)
    ensures |r| == |es|
  {
    seq(|es|, i requires 0 <= i < |es| => CountDown(f, es[i]))
  }

  predicate Startable(e: RsEntry) {
    e.busy && !e.done && e.j.q == -1 && e.k.q == -1 && e.rem == 0
  }

  predicate Executing(e: RsEntry) {
    e.busy && !e.done && e.rem > 0
  }

  /** Another entry with the same opcode occupies the functional unit. */
  predicate UnitBusy(es: seq<RsEntry>, i: nat)
    requires i < |es|
  {
    exists j :: 0 <= j < |es| && j != i && Executing(es[j]) && es[j].op == es[i].op
  }

  predicate Starts(c: Config, es: seq<RsEntry>, i: nat)
    requires i < |es|
  {
    Startable(es[i]) && (IsPipelined(c, es[i].op) || !UnitBusy(es, i))
  }

  function Started(c: Config, f: ExecFn, e: RsEntry): RsEntry {
    if LatencyOf(c, e.op) <= 1 then Computed(f, e) else e.(rem := LatencyOf(c, e.op) - 1)
  }

  /** Second half of a station tick: slots in order, each seeing the starts before it. */
  function StartUpTo(c: Config, f: ExecFn, es: seq<RsEntry>, n: nat): (r: seq<RsEntry>)
    requires n <= |es|
    ensures |r| == |es|
  {
    if n == 0 then es
    else
      var p := StartUpTo(c, f, es, n - 1);
      if Starts(c, p, n - 1) then p[n - 1 := Started(c, f, p[n - 1])] else p
  }

  function StationTick(c: Config, f: ExecFn, es: seq<RsEntry>): (r: seq<RsEntry>)
    ensures |r| == |es|
  {
    StartUpTo(c, f, CountDownAll(f, es), |es|)
  }

  predicate Finished(e: RsEntry) { e.busy && e.done }

  /** The results a station broadcasts, in slot order. */
  function Results(es: seq<RsEntry>): seq<BusResult> {
    if es == [] then []
    else
      var rest := Results(es[..|es| - 1]);
      var e := es[|es| - 1];
      if Finished(e) then rest + [BusResult(e.tag, e.result)] else rest
  }

  /** The station after all its finished entries are popped. */
  function Drained(es: seq<RsEntry>): (r: seq<RsEntry>)
    ensures |r| == |es|
  {
    seq(|es|, i requires 0 <= i < |es| => if Finished(es[i]) then IDLE_RS else es[i])
  }

  function SnoopRs(e: RsEntry, bus: seq<BusResult>): RsEntry {
    if !e.busy || e.done then e else e.(j := CatchAll(e.j, bus), k := CatchAll(e.k, bus))
  }

  function SnoopStation(es: seq<RsEntry>, bus: seq<BusResult>): (r: seq<RsEntry>)
    ensures |r| == |es|
  {
    seq(|es|, i requires 0 <= i < |es| => SnoopRs(es[i], bus))
  }

  predicate HasFree(es: seq<RsEntry>) {
    exists i :: 0 <= i < |es| && !es[i].busy
  }

  /** The first free slot at or after n. */
  function FirstFree(es: seq<RsEntry>, n: nat): (i: nat)
    requires n <= |es|
    requires exists i :: n <= i < |es| && !es[i].busy
    ensures n <= i < |es| && !es[i].busy
    ensures forall j :: n <= j < i ==> es[j].busy
    decreases |es| - n
  {
    if !es[n].busy then n else FirstFree(es, n + 1)
  }

  // ----- Load/store buffer (program order, oldest first) -----

  datatype LsbState = LsbIdle | Waiting | AddrReady | Accessing | LsbDone

  datatype LsbEntry = LsbEntry(
    state: LsbState, op: Opcode, tag: int, j: Operand, k: Operand, imm: Word, rdFp: bool,
    addr: Word, rem: int, result: Word, pc: Word)

  const IDLE_LSB := LsbEntry(LsbIdle, NOP, -1, NO_OPERAND, NO_OPERAND, 0, false, 0, 0, 0, 0)

  function NewLsbEntry(i: Instruction, tag: int, j: Operand, k: Operand): LsbEntry {
    LsbEntry(Waiting, i.op, tag, j, k, i.imm, i.rdFp, 0, 0, 0, i.pc)
  }

  function EffAddr(v: Word, imm: Word): Word { ToWord(Signed(v) + Signed(imm)) }

  /** Pass 1: a resolved base register fixes the address. */
  function Address(e: LsbEntry): LsbEntry {
    if e.state == Waiting && e.j.q == -1 then e.(addr := EffAddr(e.j.v, e.imm), state := AddrReady) else e
  }

  /** Pass 2: a store with address and data is done. */
  function CloseStore(e: LsbEntry): LsbEntry {
    if e.state == AddrReady && IsStore(e.op) && e.k.q == -1 then e.(state := LsbDone) else e
  }

  datatype Scan = Blocked | Clear | Forward(from: nat)

  /** The alias scan of a load over the first n entries, oldest first. */
  function ScanStores(es: seq<LsbEntry>, a: Word, n: nat): (r: Scan)
    requires n <= |es|
    ensures r.Forward? ==> r.from < n
  {
    if n == 0 then Clear
    else
      var before := ScanStores(es, a, n - 1);
      var e := es[n - 1];
      if before == Blocked || !IsStore(e.op) then before
      else if e.state == Waiting then Blocked
      else if e.addr != a then before
      else if e.state == LsbDone then Forward(n - 1)
      else Blocked
  }

  /** Pass 3, for entry i: a load forwards, reads at once, starts its access, or waits. */
  function StartLoad(c: Config, es: seq<LsbEntry>, mem: seq<Word>, i: nat): LsbEntry
    requires i < |es|
  {
    var e := es[i];
    if e.state != AddrReady || !IsLoad(e.op) then e
    else
      match ScanStores(es, e.addr, i)
      case Blocked => e
      case Forward(s) => e.(result := es[s].k.v, state := LsbDone)
      case Clear =>
        if LatencyOf(c, e.op) <= 1 then e.(result := ReadMem(mem, e.addr), state := LsbDone)
        else e.(rem := LatencyOf(c, e.op) - 1, state := Accessing)
  }

  /** Pass 4: running accesses count down and read memory when they expire. */
  function Access(e: LsbEntry, mem: seq<Word>): LsbEntry {
    if e.state != Accessing then e
    else if e.rem - 1 == 0 then e.(rem := 0, result := ReadMem(mem, e.addr), state := LsbDone)
    else e.(rem := e.rem - 1)
  }

  function Resolved(es: seq<LsbEntry>): (r: seq<LsbEntry>)
    ensures |r| == |es|
  {
    seq(|es|, i requires 0 <= i < |es| => CloseStore(Address(es[i])))
  }

  function LsbTick(c: Config, es: seq<LsbEntry>, mem: seq<Word>): (r: seq<LsbEntry>)
    ensures |r| == |es|
  {
    var ready := Resolved(es);
    seq(|es|, i requires 0 <= i < |es| => Access(StartLoad(c, ready, mem, i), mem))
  }

  predicate DoneStore(e: LsbEntry) { IsStore(e.op) && e.state == LsbDone }
  predicate DoneLoad(e: LsbEntry) { IsLoad(e.op) && e.state == LsbDone }

  /** Finished stores among the first n entries are reported to the reorder buffer. */
  function ReportStores(c: Config, base: nat, rob: seq<RobEntry>, es: seq<LsbEntry>, n: nat): (r: seq<RobEntry>)
    requires c.robSize > 0
    requires n <= |es|
    ensures |r| == |rob|
  {
    if n == 0 then rob
    else
      var before := ReportStores(c, base, rob, es, n - 1);
      var e := es[n - 1];
      if DoneStore(e) && Peek(c, base, before, e.tag).state == InFlight
      then WriteResult(c, base, before, e.tag, 0)
      else before
  }

  /** The number of finished loads at the head of the buffer. */
  function LoadRun(es: seq<LsbEntry>): (n: nat)
    ensures n <= |es|
    ensures forall i :: 0 <= i < n ==> DoneLoad(es[i])
    ensures n < |es| ==> !DoneLoad(es[n])
  {
    if es == [] || !DoneLoad(es[0]) then 0 else 1 + LoadRun(es[1..])
  }

  function LoadResults(es: seq<LsbEntry>, n: nat): (r: seq<BusResult>)
    requires n <= |es|
    ensures |r| == n
    ensures forall i :: 0 <= i < n ==> r[i] == BusResult(es[i].tag, es[i].result)
  {
    seq(n, i requires 0 <= i < n => BusResult(es[i].tag, es[i].result))
  }

  function SnoopLsb(e: LsbEntry, bus: seq<BusResult>): LsbEntry {
    if e.state == LsbIdle || e.state == LsbDone then e
    else e.(j := CatchAll(e.j, bus), k := CatchAll(e.k, bus))
  }

  function SnoopBuffer(es: seq<LsbEntry>, bus: seq<BusResult>): (r: seq<LsbEntry>)
    ensures |r| == |es|
  {
    seq(|es|, i requires 0 <= i < |es| => SnoopLsb(es[i], bus))
  }

  /** Every buffered access belongs to a slot of the reorder buffer. */
  ghost predicate TagsInRange(size: nat, es: seq<LsbEntry>) {
    forall i :: 0 <= i < |es| ==> 0 <= es[i].tag < size
  }
}
