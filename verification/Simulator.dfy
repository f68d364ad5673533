/** The simulator: the units it owns and its clock loop. */
module Simulator {
  import opened Words
  import opened Instructions
  import opened ArchState
  import opened Renaming
  import opened Buffers
  import opened Machines
  import opened DispatchProofs
  import opened Refinement
  import opened Isa
  import opened Rings
  import opened CommitProofs
  import opened Simulation
  import opened Tags
  import opened Safety
  import opened RegisterUnits
  import opened ReorderBufferUnit
  import opened StationUnit
  import opened LoadStoreUnit
  import opened FetchUnit
  import opened RetireUnit
  import opened Phases

  class Simulator {
    const c: Config
    const f: ExecFn
    const mem: array<Word>
    const rf: RegisterFile
    const rat: RegisterRemappingTable
    const rob: ReorderBuffer
    const cdb: CommonDataBus
    const stations: seq<ReservationStation>
    const lsb: LoadStoreBuffer
    const iq: InstructionQueue
    const cu: CommitUnit
    var branchInFlight: bool
    var halted: bool

    /** The units are separate objects built for one configuration. */
    ghost predicate Wired() {
      && SlotTags(c) && rob.c == c && lsb.c == c && iq.c == c
      && rf.Valid() && rat.Valid() && mem != rf.ints && mem != rf.fps
      && StationsOf(stations, c, f)
    }

    ghost predicate Valid()
      reads this, rob, lsb, stations
      ensures Valid() ==> SlotTags(c)
    {
      Wired() && rob.Valid() && lsb.Valid() && StationsValid(stations)
    }

    ghost function View(): Machine
      requires Valid()
      reads this, rob, lsb, stations, iq, mem, rf.ints, rf.fps, rat.intRat, rat.fpRat
    {
      Machine(rf.View(), mem[..], rat.View(), rob.base, rob.Contents(), Entries(stations), lsb.Contents(),
              iq.View(), branchInFlight, halted)
    }

    /** The view, unit by unit. */
    ghost predicate Shows(p: Machine)
      requires Valid()
      reads this, rob, lsb, stations, iq, mem, rf.ints, rf.fps, rat.intRat, rat.fpRat
    {
      && p.regs == rf.View() && p.mem == mem[..] && p.rat == rat.View()
      && p.base == rob.base && p.rob == rob.Contents()
      && p.stations == Entries(stations) && p.lsb == lsb.Contents()
      && p.iq == iq.View() && p.branchInFlight == branchInFlight && p.halted == halted
    }

    lemma ViewIs(p: Machine)
      requires Valid()
      ensures Shows(p) <==> p == View()
    {
    }

    constructor (c: Config, f: ExecFn, mem: array<Word>, rf: RegisterFile, rat: RegisterRemappingTable,
                 rob: ReorderBuffer, cdb: CommonDataBus, stations: seq<ReservationStation>,
                 lsb: LoadStoreBuffer, iq: InstructionQueue, cu: CommitUnit)
      ensures this.c == c && this.f == f && this.mem == mem && this.rf == rf && this.rat == rat
      ensures this.rob == rob && this.cdb == cdb && this.stations == stations
      ensures this.lsb == lsb && this.iq == iq && this.cu == cu
      ensures !branchInFlight && !halted
    {
      this.c, this.f, this.mem, this.rf, this.rat := c, f, mem, rf, rat;
      this.rob, this.cdb, this.stations, this.lsb, this.iq, this.cu := rob, cdb, stations, lsb, iq, cu;
      branchInFlight, halted := false, false;
    }

    // ----- Phases 1 and 2 -----

    method TickUnits()
      requires Valid()
      modifies stations, lsb
      ensures Valid() && View() == Tick(c, f, old(View()))
    {
      hide StationsValid, StationsOf, Entries, ReorderBuffer.Valid, LoadStoreBuffer.Valid, StationTick, LsbTick, Wrap, Window, Vacant;
      TickStations(stations, c, f);
      lsb.Tick(mem);
    }

    method ReportDoneStores()
      requires Valid() && TagsInRange(c.robSize, View().lsb)
      modifies rob
      ensures Valid() && View() == Report(c, old(View()))
    {
      hide StationsValid, StationsOf, Entries, ReorderBuffer.Valid, LoadStoreBuffer.Valid, ReportStores, Wrap, Window, Vacant;
      lsb.UpdateRob(rob);
    }

    // ----- Phases 3 and 4 -----

    method BroadcastResults()
      requires Valid() && cdb.pending == [] && Writable(c, View().base, View().rob, BusOf(View()))
      modifies rob, cdb, stations, lsb
      ensures Valid() && View() == Broadcast(c, old(View())) && cdb.pending == BusOf(old(View()))
    {
      hide StationsValid, StationsOf, Entries, ReorderBuffer.Valid, LoadStoreBuffer.Valid, Drained, WriteAll,
           StationResults, LoadResults, LoadRun, Wrap, Window, Vacant, Writable;
      BroadcastAll(rob, cdb, stations, lsb, c, f, BusOf(View()));
    }

    method SnoopBus()
      requires Valid()
      modifies stations, lsb
      ensures Valid() && View() == Snoop(old(View()), cdb.pending)
    {
      hide StationsValid, StationsOf, Entries, ReorderBuffer.Valid, LoadStoreBuffer.Valid, SnoopStation, SnoopBuffer, Wrap, Window, Vacant;
      SnoopStations(stations, cdb, c, f);
      lsb.Snoop(cdb);
    }

    // ----- Phase 5 -----

    method CommitOne()
      requires Valid() && StoreAtHead(View()) && !View().halted
      modifies this, cu, rob, rf.ints, rf.fps, rat.intRat, rat.fpRat, lsb, mem, iq
      ensures Valid() && View() == Commit(c, old(View())) && iq.program == old(iq.program)
    {
      hide View, Valid, Retire, Slot, Wrap, Window, Vacant, Seek, RegsAfter, RatAfter, LsbAfter, WriteMem;
      ghost var m := View();
      var committed, nextPc := RetireHead();
      if committed {
        RetireFields(c, m, Slot(c, m.base));
        if IsControl(cu.last.op) {
          Redirect(nextPc);
        }
      }
    }

    /** Fetch resumes at the resolved target. */
    method Redirect(target: Word)
      requires Valid()
      modifies `branchInFlight, iq
      ensures Valid() && iq.program == old(iq.program)
      ensures View() == old(View()).(branchInFlight := false, iq := Seek(target))
    {
      hide StationsValid, Entries, ReorderBuffer.Valid, LoadStoreBuffer.Valid, Wrap, Window, Vacant, Seek;
      branchInFlight := false;
      iq.SeekTo(target);
    }

    /** Retirement apart from the redirection of fetch. */
    method RetireHead() returns (committed: bool, nextPc: Word)
      requires Valid() && StoreAtHead(View()) && !View().halted
      modifies `halted, cu, rob, rf.ints, rf.fps, rat.intRat, rat.fpRat, lsb, mem
      ensures Valid() && committed == HeadReady(old(View()))
      ensures !committed ==> View() == old(View())
      ensures committed ==>
                var m := old(View());
                && View() == Retire(c, m).(iq := m.iq, branchInFlight := m.branchInFlight)
                && cu.last.op == m.rob[0].op && (IsControl(cu.last.op) ==> nextPc == m.rob[0].result)
    {
      hide StationsValid, StationsOf, Entries, ReorderBuffer.Valid, LoadStoreBuffer.Valid, Retire, RegsAfter, RatAfter, LsbAfter, Slot, Wrap, Window, Vacant, WriteMem, Seek;
      ghost var m := View();
      if HeadReady(m) {
        RetireFields(c, m, Slot(c, m.base));
      }
      committed, nextPc, halted := cu.Tick(rob, rf, rat, lsb, mem);
    }

    // ----- Phase 6 -----

    method TryDispatch() returns (issued: bool, branch: bool)
      requires Valid() && RatInRange(c.robSize, View().rat)
      modifies rob, rat.intRat, rat.fpRat, stations, lsb, iq
      ensures Valid() && iq.program == old(iq.program)
      ensures issued == CanDispatch(c, old(View()))
      ensures View() == if issued then Place(c, old(View())) else old(View())
      ensures branch == (issued && IsControl(old(iq.buffer)[0].op))
    {
      issued, branch := false, false;
      if !iq.CanDispatch() {
        return;
      }
      var i := iq.Front();
      if IsMemory(i.op) {
        if !rob.Full() && !lsb.Full() {
          DispatchMemory();
          issued := true;
        }
      } else {
        var u := UnitOf(i.op);
        BusyCountFull(stations[u].entries);
        if !rob.Full() && !stations[u].Full() {
          DispatchCompute();
          issued := true;
        }
      }
      branch := issued && IsControl(i.op);
    }

    /** There is room: a load or store moves from the queue to its buffer. */
    method DispatchMemory()
      requires Valid() && RatInRange(c.robSize, View().rat)
      requires CanDispatch(c, View()) && IsMemory(iq.buffer[0].op)
      modifies rob, rat.intRat, rat.fpRat, lsb, iq
      ensures Valid() && iq.program == old(iq.program)
      ensures View() == Place(c, old(View()))
    {
      hide Place, ReorderBuffer.Valid, LoadStoreBuffer.Valid, ReservationStation.Valid, Slot, Resolve, RatWith, RatInRange, NewRobEntry, NewLsbEntry, NewRsEntry, Wrap, Window, Vacant, HasFree;
      ghost var m := View();
      PlaceFields(c, m, Slot(c, m.base + |m.rob|));
      PlaceMemory(iq, rob, rat, rf, lsb);
    }

    /** There is room: any other instruction moves to its station. */
    method DispatchCompute()
      requires Valid() && RatInRange(c.robSize, View().rat)
      requires CanDispatch(c, View()) && !IsMemory(iq.buffer[0].op)
      modifies rob, rat.intRat, rat.fpRat, stations, iq
      ensures Valid() && iq.program == old(iq.program)
      ensures View() == Place(c, old(View()))
    {
      hide Place, ReorderBuffer.Valid, LoadStoreBuffer.Valid, StationsValid, StationsOf, Entries, Slot, Resolve, RatWith,
           RatInRange, NewRobEntry, NewLsbEntry, NewRsEntry, FirstFree, Wrap, Window, Vacant, HasFree;
      ghost var m := View();
      var u := UnitOf(iq.Front().op);
      PlaceFields(c, m, Slot(c, m.base + |m.rob|));
      PlaceAt(iq, rob, rat, rf, stations, c, f, u);
    }

    method FetchAhead()
      requires Valid()
      modifies iq
      ensures Valid() && iq.program == old(iq.program)
      ensures View() == Fetch(c, iq.program, old(View()))
    {
      hide StationsValid, StationsOf, Entries, ReorderBuffer.Valid, LoadStoreBuffer.Valid, FetchUpTo;
      iq.Tick();
    }

    /** A dispatched control transfer stalls dispatch until it retires. */
    method StallDispatch(i: Instruction)
      requires Valid() && IsControl(i.op)
      modifies `branchInFlight, iq
      ensures Valid() && iq.program == old(iq.program)
      ensures View() == StallAfter(old(View()), i)
    {
      hide StationsValid, StationsOf, Entries, ReorderBuffer.Valid, LoadStoreBuffer.Valid, Seek;
      branchInFlight := true;
      iq.SeekTo(ToWord(i.pc + 4));
    }

    /** One dispatch with its stall. */
    method DispatchOne() returns (more: bool)
      requires Valid() && InRange(c, View())
      modifies `branchInFlight, rob, rat.intRat, rat.fpRat, stations, lsb, iq
      ensures Valid() && iq.program == old(iq.program) && InRange(c, View())
      ensures var m := old(View());
              && View() == (if CanDispatch(c, m) then Dispatch(c, m) else m)
              && more == (CanDispatch(c, m) && !IsControl(m.iq.buffer[0].op))
    {
      hide Valid, Place, Room, RatInRange, TagsInRange;
      ghost var m := View();
      if iq.CanDispatch() {
        var i := iq.Front();
        var issued, branch := TryDispatch();
        if issued {
          PlaceInRange(c, m);
          if branch {
            StallDispatch(i);
            StallInRange(c, Place(c, m), i);
          }
        }
        more := issued && !branch;
      } else {
        more := false;
      }
    }

    method FetchAndDispatch()
      requires Valid() && InRange(c, View())
      modifies `branchInFlight, rob, rat.intRat, rat.fpRat, stations, lsb, iq
      ensures Valid() && iq.program == old(iq.program)
      ensures View() == Issue(c, iq.program, old(View()))
    {
      hide View, Valid, Dispatch, CanDispatch, InRange, RatInRange, TagsInRange, FetchUpTo, IsControl;
      ViewIs(View());
      if branchInFlight || halted {
        return;
      }
      FetchInRange(c, iq.program, View());
      FetchAhead();
      ghost var m := View();
      var w, more := 0, true;
      while w < c.width && more
        invariant Valid() && iq.program == old(iq.program) && InRange(c, View()) && 0 <= w <= c.width
        invariant DispatchUpTo(c, m, c.width) == if more then DispatchUpTo(c, View(), c.width - w) else View()
      {
        more := DispatchOne();
        w := w + 1;
      }
    }

    method Load(code: seq<Instruction>)
      requires Valid()
      modifies iq
      ensures Valid() && iq.program == Stamped(code) && View() == old(View()).(iq := Queue(0, []))
    {
      hide StationsValid, StationsOf, Entries, ReorderBuffer.Valid, LoadStoreBuffer.Valid, Stamped;
      iq.LoadProgram(code);
    }

    /** What is read out at the end: the registers, the memory, and whether the loop finished. */
    method FinalState() returns (regs: Regs, words: seq<Word>, completed: bool)
      requires Valid()
      ensures regs == View().regs && words == View().mem && completed == Stopped(iq.program, View())
    {
      regs := Regs(rf.ints[..], rf.fps[..]);
      words := mem[..];
      completed := halted || (iq.Done() && rob.Empty());
    }

    // ----- The clock loop -----

    /** One pass of the loop. The precondition is what the assertions met on the way need. */
    method ClockCycle()
      requires Valid() && cdb.pending == [] && !View().halted && AssertionsHold(c, f, View())
      modifies this, mem, rf.ints, rf.fps, rat.intRat, rat.fpRat, rob, cdb, stations, lsb, iq, cu
      ensures Valid() && cdb.pending == [] && iq.program == old(iq.program)
      ensures View() == Cycle(c, f, iq.program, old(View()))
    {
      hide View, Valid, Tick, Report, Broadcast, Snoop, Commit, Issue, InRange, Writable, StoreAtHead, BusOf;
      ghost var m := View();
      CycleInRange(c, f, m);
      TickUnits();
      ReportDoneStores();
      BroadcastResults();
      SnoopBus();
      CommitOne();
      FetchAndDispatch();
      cdb.Flush();
    }

    /** The clock loop, from power-on until HALT retires, nothing is left, or time is up. */
    method Run(maxCycles: nat, ghost sizes: seq<nat>, ghost fp: FloatUnit, ghost mem0: seq<Word>) returns (cycles: nat)
      requires Valid() && cdb.pending == [] && |sizes| == UNITS && iq.program != []
      requires f == SimulatorResults(fp) && View() == PowerOn(sizes, mem0)
      requires Admissible(Reference(iq.program, fp, mem0))
      modifies this, mem, rf.ints, rf.fps, rat.intRat, rat.fpRat, rob, cdb, stations, lsb, iq, cu
      ensures Valid() && iq.program == old(iq.program) && cycles <= maxCycles
      ensures View() == After(c, sizes, iq.program, fp, mem0, cycles)
      ensures cycles == maxCycles || Stopped(iq.program, View())
    {
      hide View, Valid, Cycle, PowerOn, AssertionsHold, Admissible, SimulatorResults;
      ghost var code := iq.program;
      var cycle := 1;
      var drained := false;
      PowerOnRuns(c, sizes, code, fp, mem0);
      ViewIs(View());
      while !drained && !halted && cycle <= maxCycles
        invariant Valid() && cdb.pending == [] && iq.program == code && 1 <= cycle <= maxCycles + 1
        invariant View() == After(c, sizes, code, fp, mem0, cycle - 1)
        invariant (drained || halted) == Stopped(code, View()) && halted == View().halted
        decreases maxCycles + 1 - cycle
      {
        RunAssertionsHold(c, sizes, code, fp, mem0, cycle - 1);
        AfterNext(c, sizes, code, fp, mem0, cycle - 1);
        ClockCycle();
        cycle := cycle + 1;
        ViewIs(View());
        drained := !halted && iq.Done() && rob.Empty();
      }
      cycles := cycle - 1;
    }
  }

  lemma StallInRange(c: Config, m: Machine, i: Instruction)
    requires InRange(c, m)
    ensures InRange(c, StallAfter(m, i))
  {
    hide RatInRange, TagsInRange;
  }

  lemma FetchInRange(c: Config, code: seq<Instruction>, m: Machine)
    requires InRange(c, m)
    ensures InRange(c, Fetch(c, code, m))
  {
    hide RatInRange, TagsInRange, FetchUpTo;
  }

  /** Where tags are used as slot numbers during a cycle, they are slot numbers. */
  lemma CycleInRange(c: Config, f: ExecFn, m: Machine)
    requires c.robSize > 0 && InRange(c, m)
    ensures TagsInRange(c.robSize, Tick(c, f, m).lsb)
    ensures InRange(c, Commit(c, Execute(c, f, m)))
    ensures !m.halted ==> !Execute(c, f, m).halted
  {
    hide Tick, Execute, Retire, RatInRange, TagsInRange;
    TickInRange(c, f, m);
    ExecuteInRange(c, f, m);
    ExecuteFields(c, f, m);
    if HeadReady(Execute(c, f, m)) {
      RetireInRange(c, Execute(c, f, m));
    }
  }

  /** A program with instructions does not stop at power-on. */
  lemma PowerOnRuns(c: Config, sizes: seq<nat>, code: seq<Instruction>, fp: FloatUnit, mem: seq<Word>)
    requires SlotTags(c) && |sizes| == UNITS && code != []
    ensures After(c, sizes, code, fp, mem, 0) == PowerOn(sizes, mem) && !Stopped(code, PowerOn(sizes, mem))
  {
  }

  lemma AfterNext(c: Config, sizes: seq<nat>, code: seq<Instruction>, fp: FloatUnit, mem: seq<Word>, n: nat)
    requires SlotTags(c) && |sizes| == UNITS
    ensures Circular(c) == c
    ensures var m := After(c, sizes, code, fp, mem, n);
            !Stopped(code, m) ==> After(c, sizes, code, fp, mem, n + 1) == Cycle(c, SimulatorResults(fp), code, m)
  {
    hide Cycle, Stopped, PowerOn, SimulatorResults;
    assert Circular(c) == c;
  }

  lemma PowerOnFields(sizes: seq<nat>, mem: seq<Word>)
    requires |sizes| == UNITS
    ensures var p := PowerOn(sizes, mem);
            && p.regs == ZERO_REGS && p.mem == mem && p.rat == EMPTY_RAT && p.base == 0 && p.rob == [] && p.lsb == []
            && p.stations == seq(UNITS, u requires 0 <= u < UNITS => seq(sizes[u], i => IDLE_RS))
            && p.iq == Queue(0, []) && !p.branchInFlight && !p.halted
  {
  }

  /** Freshly built units, wired together, are the machine at power-on. */
  method Wire(c: Config, f: ExecFn, sizes: seq<nat>, mem: array<Word>, rf: RegisterFile, rat: RegisterRemappingTable,
              rob: ReorderBuffer, cdb: CommonDataBus, stations: seq<ReservationStation>, lsb: LoadStoreBuffer,
              iq: InstructionQueue, cu: CommitUnit)
    returns (sim: Simulator)
    requires |sizes| == UNITS && SlotTags(c) && rob.c == c && lsb.c == c && iq.c == c && mem != rf.ints && mem != rf.fps
    requires StationsOf(stations, c, f) && StationsValid(stations)
    requires Entries(stations) == seq(UNITS, u requires 0 <= u < UNITS => seq(sizes[u], i => IDLE_RS))
    requires rf.Valid() && rf.View() == ZERO_REGS && rat.Valid() && rat.View() == EMPTY_RAT
    requires rob.Valid() && rob.base == 0 && rob.Contents() == [] && lsb.Valid() && lsb.Contents() == [] && iq.View() == Queue(0, [])
    ensures fresh(sim) && sim.Valid() && sim.c == c && sim.f == f && sim.View() == PowerOn(sizes, mem[..])
    ensures sim.mem == mem && sim.rf == rf && sim.rat == rat && sim.rob == rob && sim.cdb == cdb
    ensures sim.stations == stations && sim.lsb == lsb && sim.iq == iq && sim.cu == cu
  {
    hide PowerOn, RegisterFile.Valid, RegisterRemappingTable.Valid, StationsValid, StationsOf, Entries, ReorderBuffer.Valid,
         LoadStoreBuffer.Valid, Wrap, Window, Vacant, EmptyBank, ZeroBank;
    PowerOnFields(sizes, mem[..]);
    sim := new Simulator(c, f, mem, rf, rat, rob, cdb, stations, lsb, iq, cu);
  }

  /** Every unit as it is built. */
  method PowerUp(c: Config, f: ExecFn, sizes: seq<nat>, memSize: nat) returns (sim: Simulator)
    requires SlotTags(c) && c.lsbSize > 0 && |sizes| == UNITS
    ensures sim.Valid() && sim.c == c && sim.f == f
    ensures sim.View() == PowerOn(sizes, seq(memSize, i => 0)) && sim.cdb.pending == []
    ensures fresh(sim) && fresh(sim.rob) && fresh(sim.lsb) && fresh(sim.iq) && fresh(sim.cdb) && fresh(sim.cu) && fresh(sim.mem)
    ensures fresh(sim.rf.ints) && fresh(sim.rf.fps) && fresh(sim.rat.intRat) && fresh(sim.rat.fpRat)
    ensures forall u :: 0 <= u < |sim.stations| ==> fresh(sim.stations[u])
  {
    hide Simulator.View, Simulator.Valid, PowerOn, RegisterFile.Valid, RegisterRemappingTable.Valid, StationsValid, StationsOf,
         Entries, ReorderBuffer.Valid, LoadStoreBuffer.Valid, Wrap, Window, Vacant, EmptyBank, ZeroBank;
    var mem := NewMemory(memSize);
    var rf := new RegisterFile();
    var rat := new RegisterRemappingTable();
    var rob := new ReorderBuffer(c);
    var cdb := new CommonDataBus();
    var stations := NewStations(c, f, sizes);
    var lsb := new LoadStoreBuffer(c);
    var iq := new InstructionQueue(c);
    var cu := new CommitUnit();
    sim := Wire(c, f, sizes, mem, rf, rat, rob, cdb, stations, lsb, iq, cu);
  }

  method NewMemory(n: nat) returns (mem: array<Word>)
    ensures fresh(mem) && mem[..] == seq(n, i => 0)
  {
    mem := new Word[n](i => 0);
  }

  /** The simulator as a whole: build it, load the program, run it, read the registers.
      If it reports completion, the sequential machine finishes the program, with exactly
      these registers and this memory; given enough cycles it does complete. */
  method Simulate(c: Config, fp: FloatUnit, sizes: seq<nat>, memSize: nat, code: seq<Instruction>, maxCycles: nat)
    returns (regs: Regs, mem: seq<Word>, cycles: nat, completed: bool)
    requires SlotTags(c) && |sizes| == UNITS && RoomySizes(c, sizes) && code != []
    requires Admissible(Reference(Stamped(code), fp, seq(memSize, i => 0)))
    ensures var p := Reference(Stamped(code), fp, seq(memSize, i => 0));
            && (completed ==> exists h: nat :: FinishesAt(p, h) && regs == StateAt(p, h).regs && mem == StateAt(p, h).mem)
            && (forall h: nat :: FinishesAt(p, h) && maxCycles > CycleBound(c, h) ==> completed)
            && cycles <= maxCycles && (!completed ==> cycles == maxCycles)
  {
    hide Simulator.View, Simulator.Valid, After, StateAt, FinishesAt, Executes, Stopped, Admissible, CycleBound, PowerOn;
    ghost var mem0: seq<Word> := seq(memSize, i => 0);
    var sim := PowerUp(c, SimulatorResults(fp), sizes, memSize);
    PowerOnFields(sizes, mem0);
    sim.Load(code);
    cycles := sim.Run(maxCycles, sizes, fp, mem0);
    regs, mem, completed := sim.FinalState();
    ghost var p := Reference(Stamped(code), fp, mem0);
    RunRefinesSequential(c, sizes, Stamped(code), fp, mem0, cycles);
    forall h: nat | FinishesAt(p, h) && maxCycles > CycleBound(c, h)
      ensures completed
    {
      SimulatorTerminates(c, sizes, Stamped(code), fp, mem0, h, maxCycles);
    }
  }
}
