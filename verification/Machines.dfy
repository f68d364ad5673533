/** The whole pipeline as a value, and one pass of the clock loop over it. */
module Machines {
  import opened Words
  import opened Instructions
  import opened ArchState
  import opened Renaming
  import opened Buffers

  /** The fetch queue: next word index to fetch, and the instructions already fetched. */
  datatype Queue = Queue(pc: nat, buffer: seq<Instruction>)

  const UNITS := 6

  /** The station an operation is dispatched to; memory operations go to the load/store buffer. */
  function UnitOf(op: Opcode): (u: nat)
    ensures u <= UNITS
    ensures u == UNITS <==> IsMemory(op)
  {
    if IsMemory(op) then UNITS
    else if IsControl(op) then 1
    else if op == FADD_S || op == FSUB_S then 2
    else if op == FMUL_S then 3
    else if op == FDIV_S then 4
    else if op == FCVT_W_S || op == FCVT_S_W then 5
    else 0
  }

  type Stations = s: seq<seq<RsEntry>> | |s| == UNITS witness [[], [], [], [], [], []]

  /** base counts the instructions retired so far; rob holds the ones in flight, oldest first. */
  datatype Machine = Machine(
    regs: Regs, mem: seq<Word>, rat: Rat, base: nat, rob: seq<RobEntry>,
    stations: Stations, lsb: seq<LsbEntry>, iq: Queue, branchInFlight: bool, halted: bool)

  // ----- Phases 1 and 2: execute, then report finished stores -----

  function Tick(c: Config, f: ExecFn, m: Machine): Machine {
    m.(stations := seq(UNITS, u requires 0 <= u < UNITS => StationTick(c, f, m.stations[u])),
       lsb := LsbTick(c, m.lsb, m.mem))
  }

  function Report(c: Config, m: Machine): Machine
    requires c.robSize > 0
  {
    m.(rob := ReportStores(c, m.base, m.rob, m.lsb, |m.lsb|))
  }

  // ----- Phases 3 and 4: broadcast everything finished, then snoop -----

  /** What the first n stations put on the bus. */
  function StationResults(s: Stations, n: nat): seq<BusResult>
    requires n <= UNITS
  {
    if n == 0 then [] else StationResults(s, n - 1) + Results(s[n - 1])
  }

  function BusOf(m: Machine): seq<BusResult> {
    StationResults(m.stations, UNITS) + LoadResults(m.lsb, LoadRun(m.lsb))
  }

  function Broadcast(c: Config, m: Machine): Machine
    requires c.robSize > 0
  {
    m.(rob := WriteAll(c, m.base, m.rob, BusOf(m)),
       stations := seq(UNITS, u requires 0 <= u < UNITS => Drained(m.stations[u])),
       lsb := m.lsb[LoadRun(m.lsb)..])
  }

  function Snoop(m: Machine, bus: seq<BusResult>): Machine {
    m.(stations := seq(UNITS, u requires 0 <= u < UNITS => SnoopStation(m.stations[u], bus)),
       lsb := SnoopBuffer(m.lsb, bus))
  }

  // ----- Phase 5: retire at most one instruction -----

  predicate HeadReady(m: Machine) { |m.rob| > 0 && m.rob[0].state == RobDone }

  function Seek(byteAddr: Word): Queue { Queue(byteAddr / 4, []) }

  /** Retirement of the oldest instruction, by kind. */
  function Retire(c: Config, m: Machine): Machine
    requires c.robSize > 0
    requires HeadReady(m)
  {
    var e := m.rob[0];
    var tag := Slot(c, m.base);
    var p := m.(base := m.base + 1, rob := m.rob[1..]);
    if e.op == HALT then p.(halted := true)
    else if IsBranch(e.op) then p.(iq := Seek(e.result), branchInFlight := false)
    else if IsJump(e.op) then
      var q := p.(iq := Seek(e.result), branchInFlight := false);
      if e.rd < 0 then q
      else q.(regs := Write(q.regs, e.rd, false, ToWord(e.pc + 4)), rat := Release(q.rat, e.rd, false, tag))
    else if IsStore(e.op) then
      if |m.lsb| == 0 then p
      else p.(mem := WriteMem(m.mem, m.lsb[0].addr, m.lsb[0].k.v), lsb := m.lsb[1..])
    else if e.rd < 0 then p
    else p.(regs := Write(p.regs, e.rd, e.rdFp, e.result), rat := Release(p.rat, e.rd, e.rdFp, tag))
  }

  function Commit(c: Config, m: Machine): Machine
    requires c.robSize > 0
  {
    if HeadReady(m) then Retire(c, m) else m
  }

  // ----- Phase 6: fetch and dispatch -----

  function FetchUpTo(c: Config, code: seq<Instruction>, q: Queue, n: nat): Queue {
    if n == 0 then q
    else
      var p := FetchUpTo(c, code, q, n - 1);
      if p.pc >= |code| || |p.buffer| >= c.iqCapacity then p
      else Queue(p.pc + 1, p.buffer + [code[p.pc]])
  }

  /** There is room for the instruction in the reorder buffer and in its unit. */
  predicate Room(c: Config, m: Machine, op: Opcode) {
    && |m.rob| < c.robSize
    && (if IsMemory(op) then |m.lsb| < c.lsbSize else HasFree(m.stations[UnitOf(op)]))
  }

  predicate CanDispatch(c: Config, m: Machine) {
    m.iq.buffer != [] && Room(c, m, m.iq.buffer[0].op)
  }

  /** The instruction at the front of the queue moves to the reorder buffer and its unit.
      Operands are resolved before the destination is renamed. */
  function Place(c: Config, m: Machine): Machine
    requires c.robSize > 0
    requires CanDispatch(c, m)
  {
    var i := m.iq.buffer[0];
    var tag := Slot(c, m.base + |m.rob|);
    var rob := m.rob + [NewRobEntry(i)];
    var k := Resolve(c, i.rs2, i.rs2Fp, m.rat, m.regs, m.base, rob);
    var rat := if i.rd >= 0 then Rename(m.rat, i.rd, i.rdFp, tag) else m.rat;
    var p := m.(rob := rob, rat := rat, iq := m.iq.(buffer := m.iq.buffer[1..]));
    if IsMemory(i.op) then
      var j := Resolve(c, i.rs1, false, m.rat, m.regs, m.base, rob);
      p.(lsb := m.lsb + [NewLsbEntry(i, tag, j, k)])
    else
      var u := UnitOf(i.op);
      var j := Resolve(c, i.rs1, i.rs1Fp, m.rat, m.regs, m.base, rob);
      var slot := FirstFree(m.stations[u], 0);
      p.(stations := m.stations[u := m.stations[u][slot := NewRsEntry(i, tag, j, k)]])
  }

  /** A dispatched control transfer stalls dispatch and discards what was fetched after it. */
  function StallAfter(m: Machine, i: Instruction): Machine {
    if IsControl(i.op) then m.(branchInFlight := true, iq := Seek(ToWord(i.pc + 4))) else m
  }

  function Dispatch(c: Config, m: Machine): Machine
    requires c.robSize > 0
    requires CanDispatch(c, m)
  {
    StallAfter(Place(c, m), m.iq.buffer[0])
  }

  /** Up to n dispatches; a dispatched control transfer ends the cycle's dispatching. */
  function DispatchUpTo(c: Config, m: Machine, n: nat): Machine
    requires c.robSize > 0
    decreases n
  {
    if n == 0 || !CanDispatch(c, m) then m
    else
      var p := Dispatch(c, m);
      if IsControl(m.iq.buffer[0].op) then p else DispatchUpTo(c, p, n - 1)
  }

  function Fetch(c: Config, code: seq<Instruction>, m: Machine): Machine {
    m.(iq := FetchUpTo(c, code, m.iq, c.width))
  }

  function Issue(c: Config, code: seq<Instruction>, m: Machine): Machine
    requires c.robSize > 0
  {
    if m.branchInFlight || m.halted then m else DispatchUpTo(c, Fetch(c, code, m), c.width)
  }

  // ----- One clock cycle, and whole runs -----

  /** Phases 1 to 4. */
  function Execute(c: Config, f: ExecFn, m: Machine): Machine
    requires c.robSize > 0
  {
    var t := Report(c, Tick(c, f, m));
    Snoop(Broadcast(c, t), BusOf(t))
  }

  function Cycle(c: Config, f: ExecFn, code: seq<Instruction>, m: Machine): Machine
    requires c.robSize > 0
  {
    Issue(c, code, Commit(c, Execute(c, f, m)))
  }

  /** The loop has exited: HALT retired, or nothing is left to fetch or retire. */
  predicate Stopped(code: seq<Instruction>, m: Machine) {
    m.halted || (m.iq.pc >= |code| && m.iq.buffer == [] && m.rob == [])
  }

  /** One more pass of the clock loop, if it has not exited. */
  function Iterate(c: Config, f: ExecFn, code: seq<Instruction>, m: Machine): Machine
    requires c.robSize > 0
  {
    if Stopped(code, m) then m else Cycle(c, f, code, m)
  }

  /** The machine after n passes of the clock loop, staying put once the loop has exited. */
  function Run(c: Config, f: ExecFn, code: seq<Instruction>, m: Machine, n: nat): Machine
    requires c.robSize > 0
  {
    if n == 0 then m else Iterate(c, f, code, Run(c, f, code, m, n - 1))
  }

  /** Every unit empty, registers zero, and the given memory. */
  function PowerOn(stationSizes: seq<nat>, mem: seq<Word>): Machine
    requires |stationSizes| == UNITS
  {
    Machine(ZERO_REGS, mem, EMPTY_RAT, 0, [],
            seq(UNITS, u requires 0 <= u < UNITS => seq(stationSizes[u], i => IDLE_RS)),
            [], Queue(0, []), false, false)
  }
}
