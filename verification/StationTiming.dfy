/** The timing of the reservation stations: which unit, latency and pipelining flag an
    operation has, when a waiting operation starts, that an unpipelined unit runs one
    operation at a time, and how many cycles a result takes. */
module StationTiming {
  import opened Words
  import opened ArchState
  import opened Renaming
  import opened Instructions
  import opened Buffers
  import opened Machines
  import opened Tags
  import opened Simulation

  predicate IntegerOp(op: Opcode) {
    match op
    case ADD | SUB | AND | OR | XOR | SLL | SRL | SRA => true
    case ADDI | ANDI | ORI | XORI | SLLI | SRLI | LUI => true
    case _ => false
  }

  predicate TransferOp(op: Opcode) {
    match op
    case BEQ | BNE | BLT | BGE | JAL | JALR => true
    case _ => false
  }

  /** Every operation is dispatched to the station of its kind; memory operations go to
      the load/store buffer, unit 6. */
  lemma OwnUnit(op: Opcode)
    ensures IntegerOp(op) || op == NOP || op == HALT ==> UnitOf(op) == 0
    ensures TransferOp(op) ==> UnitOf(op) == 1
    ensures op == FADD_S || op == FSUB_S ==> UnitOf(op) == 2
    ensures op == FMUL_S ==> UnitOf(op) == 3
    ensures op == FDIV_S ==> UnitOf(op) == 4
    ensures op == FCVT_W_S || op == FCVT_S_W ==> UnitOf(op) == 5
    ensures op == LW || op == SW || op == FLW || op == FSW ==> UnitOf(op) == 6
  {
    hide IntegerOp, TransferOp;
    IntegerUnit(op);
    TransferUnit(op);
  }

  lemma IntegerUnit(op: Opcode)
    ensures IntegerOp(op) ==> UnitOf(op) == 0
  {
  }

  lemma TransferUnit(op: Opcode)
    ensures TransferOp(op) ==> UnitOf(op) == 1
  {
  }

  /** Every operation takes the latency configured for its kind. */
  lemma OwnLatency(c: Config, op: Opcode)
    ensures IntegerOp(op) ==> LatencyOf(c, op) == c.lat.intAlu
    ensures op == NOP || op == HALT ==> LatencyOf(c, op) == c.lat.misc
    ensures TransferOp(op) ==> LatencyOf(c, op) == c.lat.branch
    ensures op == FADD_S || op == FSUB_S ==> LatencyOf(c, op) == c.lat.fpAddSub
    ensures op == FMUL_S ==> LatencyOf(c, op) == c.lat.fpMul
    ensures op == FDIV_S ==> LatencyOf(c, op) == c.lat.fpDiv
    ensures op == FCVT_W_S || op == FCVT_S_W ==> LatencyOf(c, op) == c.lat.fpCvt
    ensures op == LW || op == SW ==> LatencyOf(c, op) == c.lat.intLs
    ensures op == FLW || op == FSW ==> LatencyOf(c, op) == c.lat.fpLs
  {
  }

  /** Every operation that a station runs is pipelined as configured for its kind; NOP
      and HALT are treated as integer operations. */
  lemma OwnFlag(c: Config, op: Opcode)
    ensures IntegerOp(op) || op == NOP || op == HALT ==> IsPipelined(c, op) == c.pipe.intAlu
    ensures TransferOp(op) ==> IsPipelined(c, op) == c.pipe.branch
    ensures op == FADD_S || op == FSUB_S ==> IsPipelined(c, op) == c.pipe.fpAddSub
    ensures op == FMUL_S ==> IsPipelined(c, op) == c.pipe.fpMul
    ensures op == FDIV_S ==> IsPipelined(c, op) == c.pipe.fpDiv
    ensures op == FCVT_W_S || op == FCVT_S_W ==> IsPipelined(c, op) == c.pipe.fpCvt
  {
  }

  // ----- One tick, slot by slot -----

  /** Both operands are there and the operation has not started. */
  predicate Waits(e: RsEntry) {
    e.busy && !e.done && e.rem == 0 && e.j.q == -1 && e.k.q == -1
  }

  /** Another slot is in the middle of the same operation, beyond this tick. */
  ghost predicate HeldBack(es: seq<RsEntry>, i: nat)
    requires i < |es|
  {
    exists j :: 0 <= j < |es| && j != i && es[j].busy && !es[j].done && es[j].rem > 1 && es[j].op == es[i].op
  }

  /** A lower slot waits to start the same operation. */
  ghost predicate Preceded(es: seq<RsEntry>, i: nat)
    requires i < |es|
  {
    exists j :: 0 <= j < i && Waits(es[j]) && es[j].op == es[i].op
  }

  /** A waiting operation may start: its unit is pipelined, or nobody is in the middle of
      the same operation and, if it takes more than this tick, nobody comes before it. */
  ghost predicate MayStart(pipelined: bool, latency: int, es: seq<RsEntry>, i: nat)
    requires i < |es|
  {
    pipelined || (!HeldBack(es, i) && (latency <= 1 || !Preceded(es, i)))
  }

  /** What one tick does to slot i. */
  ghost function Ticked(pipelined: bool, latency: int, f: ExecFn, es: seq<RsEntry>, i: nat): RsEntry
    requires i < |es|
  {
    var e := es[i];
    var finished := e.(rem := 0, result := f(e.op, e.j.v, e.k.v, e.imm, e.pc), done := true);
    if !e.busy || e.done then e
    else if e.rem > 1 then e.(rem := e.rem - 1)
    else if e.rem == 1 then finished
    else if e.j.q != -1 || e.k.q != -1 || !MayStart(pipelined, latency, es, i) then e
    else if latency <= 1 then finished
    else e.(rem := latency - 1)
  }

  ghost predicate Counting(es: seq<RsEntry>) {
    forall i :: 0 <= i < |es| && es[i].busy ==> es[i].rem >= 0
  }

  /** After the first n slots of the second pass. */
  ghost predicate Scanned(c: Config, f: ExecFn, es: seq<RsEntry>, s: seq<RsEntry>, n: nat)
    requires n <= |es|
  {
    && |s| == |es|
    && (forall i :: n <= i < |es| ==> s[i] == CountDown(f, es[i]))
    && (forall i :: 0 <= i < n ==> s[i] == Ticked(IsPipelined(c, es[i].op), LatencyOf(c, es[i].op), f, es, i))
  }

  lemma CountedDown(f: ExecFn, es: seq<RsEntry>, i: nat)
    requires i < |es| && (es[i].busy ==> es[i].rem >= 0)
    ensures var e := CountDown(f, es[i]);
            && e.busy == es[i].busy && e.op == es[i].op
            && (Executing(e) <==> es[i].busy && !es[i].done && es[i].rem > 1)
            && (Startable(e) <==> Waits(es[i])) && (Startable(e) ==> e == es[i])
  {
  }

  /** Slot j executes when slot i is looked at: it was in the middle of its operation, or
      it started earlier in this pass. */
  lemma ScannedExecuting(c: Config, f: ExecFn, es: seq<RsEntry>, s: seq<RsEntry>, n: nat, j: nat)
    requires n <= |es| && j < |es| && Counting(es) && Scanned(c, f, es, s, n)
    ensures s[j].op == es[j].op && s[j].busy == es[j].busy
    ensures Executing(s[j]) <==>
              es[j].busy && !es[j].done
              && (es[j].rem > 1 || (j < n && Waits(es[j]) && LatencyOf(c, es[j].op) > 1
                                    && MayStart(IsPipelined(c, es[j].op), LatencyOf(c, es[j].op), es, j)))
  {
    hide MayStart, IsPipelined, LatencyOf;
    CountedDown(f, es, j);
  }

  /** The first waiting slot of an operation has nobody before it. */
  lemma FirstWaits(es: seq<RsEntry>, i: nat) returns (j: nat)
    requires i < |es| && Preceded(es, i)
    ensures j < i && Waits(es[j]) && es[j].op == es[i].op && !Preceded(es, j)
  {
    j := 0;
    while !(Waits(es[j]) && es[j].op == es[i].op)
      invariant j < i && forall k :: 0 <= k < j ==> !(Waits(es[k]) && es[k].op == es[i].op)
      decreases i - j
    {
      j := j + 1;
      if j == i {
        assert false;
      }
    }
  }

  lemma BusyIsHeldOrPreceded(c: Config, f: ExecFn, es: seq<RsEntry>, s: seq<RsEntry>, i: nat)
    requires i < |es| && Counting(es) && Scanned(c, f, es, s, i)
    requires Waits(es[i]) && !IsPipelined(c, es[i].op)
    ensures UnitBusy(s, i) <==> HeldBack(es, i) || (LatencyOf(c, es[i].op) > 1 && Preceded(es, i))
  {
    hide IsPipelined, LatencyOf, Scanned;
    forall j: nat | j < |es|
      ensures |s| == |es| && s[j].op == es[j].op
      ensures Executing(s[j]) <==>
                es[j].busy && !es[j].done
                && (es[j].rem > 1 || (j < i && Waits(es[j]) && LatencyOf(c, es[j].op) > 1
                                      && MayStart(IsPipelined(c, es[j].op), LatencyOf(c, es[j].op), es, j)))
    {
      assert |s| == |es| by { ScannedLength(c, f, es, s, i); }
      ScannedExecuting(c, f, es, s, i, j);
    }
    if !HeldBack(es, i) && LatencyOf(c, es[i].op) > 1 && Preceded(es, i) {
      var j := FirstWaits(es, i);
      assert !HeldBack(es, j);
      assert Executing(s[j]);
    }
  }

  lemma ScannedLength(c: Config, f: ExecFn, es: seq<RsEntry>, s: seq<RsEntry>, n: nat)
    requires n <= |es| && Scanned(c, f, es, s, n)
    ensures |s| == |es|
  {
  }

  lemma ScanNext(c: Config, f: ExecFn, es: seq<RsEntry>, s: seq<RsEntry>, i: nat)
    requires i < |es| && Counting(es) && Scanned(c, f, es, s, i)
    ensures Scanned(c, f, es, if Starts(c, s, i) then s[i := Started(c, f, s[i])] else s, i + 1)
  {
    hide UnitBusy, HeldBack, Preceded, IsPipelined, LatencyOf;
    CountedDown(f, es, i);
    if Waits(es[i]) && !IsPipelined(c, es[i].op) {
      BusyIsHeldOrPreceded(c, f, es, s, i);
    }
  }

  lemma {:induction false} Scan(c: Config, f: ExecFn, es: seq<RsEntry>, n: nat)
    requires n <= |es| && Counting(es)
    ensures Scanned(c, f, es, StartUpTo(c, f, CountDownAll(f, es), n), n)
  {
    hide Scanned, Starts, Started;
    if n == 0 {
      ScanStart(c, f, es);
    } else {
      Scan(c, f, es, n - 1);
      ScanNext(c, f, es, StartUpTo(c, f, CountDownAll(f, es), n - 1), n - 1);
    }
  }

  lemma ScanStart(c: Config, f: ExecFn, es: seq<RsEntry>)
    ensures Scanned(c, f, es, CountDownAll(f, es), 0)
  {
  }

  /** The two passes of a tick, in which each slot sees the starts of the slots before
      it, in closed form: every slot's fate in terms of the station before the tick. */
  lemma TickInClosedForm(c: Config, f: ExecFn, es: seq<RsEntry>, i: nat)
    requires i < |es| && Counting(es)
    ensures StationTick(c, f, es)[i] == Ticked(IsPipelined(c, es[i].op), LatencyOf(c, es[i].op), f, es, i)
  {
    hide Ticked, IsPipelined, LatencyOf;
    Scan(c, f, es, |es|);
  }

  // ----- An unpipelined unit runs one operation at a time, in every run -----

  /** No two slots of the station are in the middle of the same unpipelined operation. */
  ghost predicate OneEach(c: Config, es: seq<RsEntry>) {
    forall i, j :: 0 <= i < j < |es| && Executing(es[i]) && Executing(es[j]) && es[i].op == es[j].op ==> IsPipelined(c, es[i].op)
  }

  lemma FewerExecute(c: Config, es: seq<RsEntry>, t: seq<RsEntry>)
    requires |t| == |es| && OneEach(c, es)
    requires forall i :: 0 <= i < |es| && Executing(t[i]) ==> Executing(es[i]) && t[i].op == es[i].op
    ensures OneEach(c, t)
  {
    hide Executing, IsPipelined;
  }

  lemma {:induction false} StartsKeepOneEach(c: Config, f: ExecFn, es: seq<RsEntry>, n: nat)
    requires n <= |es| && OneEach(c, es)
    ensures OneEach(c, StartUpTo(c, f, es, n))
  {
    if n > 0 {
      StartsKeepOneEach(c, f, es, n - 1);
      if Starts(c, StartUpTo(c, f, es, n - 1), n - 1) {
        StartKeepsOneEach(c, f, StartUpTo(c, f, es, n - 1), n - 1);
      }
    }
  }

  lemma StartKeepsOneEach(c: Config, f: ExecFn, s: seq<RsEntry>, i: nat)
    requires i < |s| && OneEach(c, s) && Starts(c, s, i)
    ensures OneEach(c, s[i := Started(c, f, s[i])])
  {
    var t := s[i := Started(c, f, s[i])];
    assert t[i].op == s[i].op;
    if !IsPipelined(c, s[i].op) {
      assert forall j :: 0 <= j < |s| && j != i && Executing(s[j]) ==> s[j].op != s[i].op;
    }
    hide Executing, IsPipelined, Starts, Started;
  }

  lemma TickKeepsOneEach(c: Config, f: ExecFn, es: seq<RsEntry>)
    requires OneEach(c, es)
    ensures OneEach(c, StationTick(c, f, es))
  {
    FewerExecute(c, es, CountDownAll(f, es));
    StartsKeepOneEach(c, f, CountDownAll(f, es), |es|);
  }

  ghost predicate OneEachUnit(c: Config, s: Stations) {
    forall u :: 0 <= u < UNITS ==> OneEach(c, s[u])
  }

  lemma ExecuteKeepsOneEach(c: Config, f: ExecFn, m: Machine)
    requires c.robSize > 0 && OneEachUnit(c, m.stations)
    ensures OneEachUnit(c, Execute(c, f, m).stations)
  {
    hide OneEach, StationTick, Drained, SnoopStation, BusOf, WriteAll, ReportStores, LoadRun, LsbTick, SnoopBuffer;
    var bus := BusOf(Report(c, Tick(c, f, m)));
    forall u | 0 <= u < UNITS
      ensures OneEach(c, Execute(c, f, m).stations[u])
    {
      StationCycle(c, f, m.stations[u], bus);
      assert Execute(c, f, m).stations[u] == SnoopStation(Drained(StationTick(c, f, m.stations[u])), bus);
    }
  }

  lemma StationCycle(c: Config, f: ExecFn, es: seq<RsEntry>, bus: seq<BusResult>)
    requires OneEach(c, es)
    ensures OneEach(c, SnoopStation(Drained(StationTick(c, f, es)), bus))
  {
    hide StationTick, IsPipelined;
    var t := StationTick(c, f, es);
    TickKeepsOneEach(c, f, es);
    FewerExecute(c, t, Drained(t));
    FewerExecute(c, Drained(t), SnoopStation(Drained(t), bus));
  }

  lemma DispatchKeepsOneEach(c: Config, m: Machine)
    requires c.robSize > 0 && CanDispatch(c, m) && OneEachUnit(c, m.stations)
    ensures OneEachUnit(c, Dispatch(c, m).stations)
  {
    hide Resolve, Rename, Slot, IsPipelined, LatencyOf, UnitOf;
    var i := m.iq.buffer[0];
    if !IsMemory(i.op) {
      var u := UnitOf(i.op);
      var slot := FirstFree(m.stations[u], 0);
      var t := Dispatch(c, m).stations[u];
      assert !Executing(t[slot]);
      FewerExecute(c, m.stations[u], t);
    }
  }

  lemma {:induction false} DispatchesKeepOneEach(c: Config, m: Machine, n: nat)
    requires c.robSize > 0 && OneEachUnit(c, m.stations)
    ensures OneEachUnit(c, DispatchUpTo(c, m, n).stations)
    decreases n
  {
    hide Dispatch, CanDispatch, OneEachUnit;
    if n > 0 && CanDispatch(c, m) {
      DispatchKeepsOneEach(c, m);
      DispatchesKeepOneEach(c, Dispatch(c, m), n - 1);
    }
  }

  lemma CycleKeepsOneEach(c: Config, f: ExecFn, code: seq<Instruction>, m: Machine)
    requires c.robSize > 0 && OneEachUnit(c, m.stations)
    ensures OneEachUnit(c, Cycle(c, f, code, m).stations)
  {
    hide OneEachUnit, Execute, DispatchUpTo, FetchUpTo, Release, Write, Slot;
    var e := Execute(c, f, m);
    ExecuteKeepsOneEach(c, f, m);
    assert Commit(c, e).stations == e.stations;
    DispatchesKeepOneEach(c, Fetch(c, code, Commit(c, e)), c.width);
  }

  lemma {:induction false} RunKeepsOneEach(c: Config, f: ExecFn, code: seq<Instruction>, m: Machine, n: nat)
    requires c.robSize > 0 && OneEachUnit(c, m.stations)
    ensures OneEachUnit(c, Run(c, f, code, m, n).stations)
  {
    hide OneEachUnit, Cycle, Stopped;
    if n > 0 {
      RunKeepsOneEach(c, f, code, m, n - 1);
      CycleKeepsOneEach(c, f, code, Run(c, f, code, m, n - 1));
    }
  }

  /** The slot is executing op. */
  predicate Runs(e: RsEntry, op: Opcode) {
    e.busy && !e.done && e.rem > 0 && e.op == op
  }

  /** No station executes op in two slots. */
  ghost predicate Exclusive(m: Machine, op: Opcode) {
    forall u, i, j :: 0 <= u < UNITS && 0 <= i < j < |m.stations[u]| ==> !(Runs(m.stations[u][i], op) && Runs(m.stations[u][j], op))
  }

  lemma ExclusiveOps(c: Config, m: Machine, op: Opcode)
    requires OneEachUnit(c, m.stations) && !IsPipelined(c, op)
    ensures Exclusive(m, op)
  {
    hide IsPipelined;
    forall u, i, j | 0 <= u < UNITS && 0 <= i < j < |m.stations[u]|
      ensures !(Runs(m.stations[u][i], op) && Runs(m.stations[u][j], op))
    {
      assert OneEach(c, m.stations[u]);
    }
  }

  /** The flag of a station's operation is off. */
  predicate Unpipelined(p: Pipelining, op: Opcode) {
    || ((IntegerOp(op) || op == NOP || op == HALT) && !p.intAlu)
    || (TransferOp(op) && !p.branch)
    || ((op == FADD_S || op == FSUB_S) && !p.fpAddSub)
    || (op == FMUL_S && !p.fpMul)
    || (op == FDIV_S && !p.fpDiv)
    || ((op == FCVT_W_S || op == FCVT_S_W) && !p.fpCvt)
  }

  /** In every reachable state of every program, an operation whose pipelining flag is
      off is executed by at most one slot at a time. */
  lemma UnpipelinedIsExclusive(c: Config, sizes: seq<nat>, code: seq<Instruction>, fp: FloatUnit, mem: seq<Word>, n: nat, op: Opcode)
    requires c.robSize > 0 && |sizes| == UNITS
    requires Unpipelined(c.pipe, op)
    ensures Exclusive(After(c, sizes, code, fp, mem, n), op)
  {
    hide IsPipelined, IntegerOp, TransferOp, Run, OneEachUnit, Exclusive, PowerOn;
    OwnFlag(Circular(c), op);
    IdleOneEach(Circular(c), sizes, mem);
    RunKeepsOneEach(Circular(c), SimulatorResults(fp), code, PowerOn(sizes, mem), n);
    ExclusiveOps(Circular(c), After(c, sizes, code, fp, mem, n), op);
  }

  lemma IdleOneEach(c: Config, sizes: seq<nat>, mem: seq<Word>)
    requires |sizes| == UNITS
    ensures OneEachUnit(c, PowerOn(sizes, mem).stations)
  {
    hide IsPipelined;
  }
}
