/** The simulator as it is run: slots as tags, its own result switch, any latencies,
    pipelining and buffer sizes. These are the properties of its whole runs. */
module Simulation {
  import opened Words
  import opened Instructions
  import opened Buffers
  import opened Machines
  import opened Isa
  import opened Invariants
  import opened CommitProofs
  import opened Refinement
  import opened Tags
  import opened Progress

  function SimulatorResults(fp: FloatUnit): ExecFn {
    (op, a, b, i, pc) => ExecuteOp(fp, op, a, b, i, pc)
  }

  function ReferenceResults(fp: FloatUnit): ExecFn {
    (op, a, b, i, pc) => RiscV(fp, op, a, b, i, pc)
  }

  /** The reference program: RISC-V semantics over the same code and initial memory. */
  function Reference(code: seq<Instruction>, fp: FloatUnit, mem: seq<Word>): Program {
    Program(code, ReferenceResults(fp), mem)
  }

  /** The simulator's state after n passes of its clock loop, from power-on. */
  function After(c: Config, sizes: seq<nat>, code: seq<Instruction>, fp: FloatUnit, mem: seq<Word>, n: nat): Machine
    requires c.robSize > 0 && |sizes| == UNITS
  {
    Run(Circular(c), SimulatorResults(fp), code, PowerOn(sizes, mem), n)
  }

  /** The premises: code as the front end emits it, and unambiguous aliasing. */
  ghost predicate Admissible(p: Program) {
    Sound(TraceOf(p))
  }

  // ----- The sequential machine's runs -----

  /** The sequential machine executes at least k instructions. */
  ghost predicate Executes(p: Program, k: nat) {
    k == 0 || (StateAt(p, k - 1).pc < |p.code| && NoHaltBefore(p, k - 1))
  }

  /** It executes exactly h: instruction h - 1 is HALT, or there is no instruction h. */
  ghost predicate FinishesAt(p: Program, h: nat) {
    && Executes(p, h)
    && (if NoHaltBefore(p, h) then StateAt(p, h).pc >= |p.code| else true)
  }

  lemma ExecutesOneLess(p: Program, b: nat)
    requires Executes(p, b + 1)
    ensures Executes(p, b)
  {
  }

  lemma {:induction false} ExecutesBefore(p: Program, a: nat, b: nat)
    requires a <= b && Executes(p, b)
    ensures Executes(p, a)
    decreases b
  {
    hide Executes;
    if a < b {
      ExecutesOneLess(p, b - 1);
      ExecutesBefore(p, a, b - 1);
    }
  }

  /** At most one instruction count finishes a program. */
  lemma FinishUnique(p: Program, a: nat, b: nat)
    requires FinishesAt(p, a) && FinishesAt(p, b)
    ensures a == b
  {
    if a < b {
      FinishNoMore(p, a, b);
    } else if b < a {
      FinishNoMore(p, b, a);
    }
  }

  lemma FinishNoMore(p: Program, a: nat, b: nat)
    requires FinishesAt(p, a) && a < b
    ensures !Executes(p, b)
  {
    hide StateAt, NoHaltBefore;
    if Executes(p, b) {
      ExecutesBefore(p, a + 1, b);
    }
  }

  lemma SameFunctions(fp: FloatUnit)
    ensures SameResults(SimulatorResults(fp), ReferenceResults(fp))
  {
    forall op, a, b, i, pc
      ensures SimulatorResults(fp)(op, a, b, i, pc) == ReferenceResults(fp)(op, a, b, i, pc)
    {
      ExecuteOpIsRiscV(fp, op, a, b, i, pc);
    }
  }

  // ----- The simulator and its slot-free double -----

  function Unbounded(c: Config): Config { c.(linear := true) }

  /** The double: the same run with tags that are never reused. */
  ghost function Double(c: Config, sizes: seq<nat>, code: seq<Instruction>, fp: FloatUnit, mem: seq<Word>, n: nat): Machine
    requires c.robSize > 0 && |sizes| == UNITS
  {
    Run(Unbounded(c), SimulatorResults(fp), code, PowerOn(sizes, mem), n)
  }

  lemma Lockstep(c: Config, sizes: seq<nat>, code: seq<Instruction>, fp: FloatUnit, mem: seq<Word>, n: nat)
    requires c.robSize > 0 && |sizes| == UNITS && Admissible(Reference(code, fp, mem))
    ensures var d := Double(c, sizes, code, fp, mem, n);
            && After(c, sizes, code, fp, mem, n) == RingMachine(Unbounded(c), d)
            && Good(Unbounded(c), TraceOf(Reference(code, fp, mem)), d)
  {
    var x := TraceOf(Reference(code, fp, mem));
    hide Good, Inv, HaltedOk, Run, RingMachine, Sound, SimulatorResults, ReferenceResults, SameResults, PowerOn, TraceOf;
    SameFunctions(fp);
    TraceIs(Reference(code, fp, mem));
    PowerOnOk(Unbounded(c), x, sizes);
    PowerOnGood(Unbounded(c), x, PowerOn(sizes, mem));
    PowerOnRing(Unbounded(c), sizes, mem);
    RunOk(Unbounded(c), SimulatorResults(fp), x, PowerOn(sizes, mem), n);
    RunRing(Unbounded(c), SimulatorResults(fp), x, PowerOn(sizes, mem), n);
    assert Circular(Unbounded(c)) == Circular(c);
  }

  lemma TraceIs(p: Program)
    ensures IsTrace(TraceOf(p)) && TraceOf(p).p == p
  {
  }

  lemma PowerOnGood(c: Config, x: Trace, m: Machine)
    requires Inv(c, x, m)
    ensures Good(c, x, m)
  {
  }

  // ----- Main results -----

  lemma HaltedFinishes(c: Config, p: Program, m: Machine)
    requires HaltedOk(c, TraceOf(p), m)
    ensures m.regs == StateAt(p, m.base).regs && m.mem == StateAt(p, m.base).mem
    ensures FinishesAt(p, m.base)
  {
    hide TraceOf, Step, StateAt;
    AtIs(TraceOf(p), m.base - 1);
  }

  lemma RunningExecutes(c: Config, p: Program, m: Machine)
    requires Inv(c, TraceOf(p), m)
    ensures m.regs == StateAt(p, m.base).regs && m.mem == StateAt(p, m.base).mem
    ensures Executes(p, m.base) && NoHaltBefore(p, m.base)
  {
    hide UnitsOk, FrontOk;
    if m.base > 0 {
      assert NoHaltBefore(p, m.base);
    }
  }

  lemma DrainedFinishes(c: Config, p: Program, m: Machine)
    requires Inv(c, TraceOf(p), m) && Stopped(p.code, m)
    ensures FinishesAt(p, m.base)
  {
    hide Inv, Executes, Stopped, NoHaltBefore;
    RunningExecutes(c, p, m);
    DrainedIsFinished(c, TraceOf(p), m);
  }

  /** Unless dispatch waits behind a control transfer, fetch stands where the sequential
      machine will after everything in flight, plus what is already fetched. */
  ghost predicate NextPcOk(p: Program, m: Machine) {
    !m.halted && !m.branchInFlight ==> m.iq.pc == StateAt(p, m.base + |m.rob|).pc + |m.iq.buffer|
  }

  lemma RunningPc(c: Config, p: Program, m: Machine)
    requires Inv(c, TraceOf(p), m)
    ensures NextPcOk(p, m)
  {
    hide UnitsOk, RatOk, ControlOk, ArchOk, StateAt;
    assert T(TraceOf(p), m.base + |m.rob|) == StateAt(p, m.base + |m.rob|);
  }

  /** What a good state says about the sequential run. */
  lemma GoodExecutes(c: Config, p: Program, m: Machine)
    requires Good(c, TraceOf(p), m)
    ensures m.regs == StateAt(p, m.base).regs && m.mem == StateAt(p, m.base).mem
    ensures Executes(p, m.base)
    ensures Stopped(p.code, m) ==> FinishesAt(p, m.base)
    ensures NextPcOk(p, m)
  {
    hide Inv, HaltedOk, Executes, Stopped, StateAt, NoHaltBefore, TraceOf;
    if m.halted {
      HaltedFinishes(c, p, m);
    } else {
      RunningExecutes(c, p, m);
      RunningPc(c, p, m);
      if Stopped(p.code, m) {
        DrainedFinishes(c, p, m);
      }
    }
  }

  /** Refinement, over whole runs: after any number of cycles, registers and memory are
      those of the sequential machine after as many instructions as have retired, and
      unless dispatch is stalled fetch is on its path. */
  lemma RunRefinesSequential(c: Config, sizes: seq<nat>, code: seq<Instruction>, fp: FloatUnit, mem: seq<Word>, n: nat)
    requires c.robSize > 0 && |sizes| == UNITS && Admissible(Reference(code, fp, mem))
    ensures var m, p := After(c, sizes, code, fp, mem, n), Reference(code, fp, mem);
            && m.regs == StateAt(p, m.base).regs && m.mem == StateAt(p, m.base).mem
            && Executes(p, m.base)
            && (Stopped(code, m) ==> FinishesAt(p, m.base))
            && NextPcOk(p, m)
  {
    hide Good, After, Double, StateAt, Executes, FinishesAt, Stopped, RingRat, RingStations, RingBuffer, TraceOf, Admissible;
    Lockstep(c, sizes, code, fp, mem, n);
    var d := Double(c, sizes, code, fp, mem, n);
    GoodExecutes(Unbounded(c), Reference(code, fp, mem), d);
    StoppedRing(Unbounded(c), code, d);
  }

  /** One more cycle retires nothing or exactly one instruction; with the previous
      result, each cycle is a stutter or one sequential step. */
  lemma CycleIsStutterOrStep(c: Config, sizes: seq<nat>, code: seq<Instruction>, fp: FloatUnit, mem: seq<Word>, n: nat)
    requires c.robSize > 0 && |sizes| == UNITS && Admissible(Reference(code, fp, mem))
    ensures var k := After(c, sizes, code, fp, mem, n).base;
            var k' := After(c, sizes, code, fp, mem, n + 1).base;
            k' == k || k' == k + 1
  {
    var x := TraceOf(Reference(code, fp, mem));
    var d := Double(c, sizes, code, fp, mem, n);
    hide Good, Inv, Cycle, RingRat, RingStations, RingBuffer, TraceOf, Sound, SameResults, SimulatorResults, Stopped;
    TraceIs(Reference(code, fp, mem));
    Lockstep(c, sizes, code, fp, mem, n);
    Lockstep(c, sizes, code, fp, mem, n + 1);
    assert Double(c, sizes, code, fp, mem, n + 1) == Iterate(Unbounded(c), SimulatorResults(fp), code, d);
    if !Stopped(code, d) {
      SameFunctions(fp);
      GoodIsInv(Unbounded(c), x, d);
      CycleOk(Unbounded(c), SimulatorResults(fp), x, d);
    }
  }

  ghost predicate RoomySizes(c: Config, sizes: seq<nat>)
    requires |sizes| == UNITS
  {
    && c.robSize > 0 && c.lsbSize > 0 && c.iqCapacity > 0 && c.width > 0
    && forall u :: 0 <= u < UNITS ==> sizes[u] > 0
  }

  /** Clock cycles that suffice to retire h instructions from power-on. */
  function CycleBound(c: Config, h: nat): nat {
    Weigh(c.robSize, Wmax(c), 0) + Allowance(c, h)
  }

  lemma {:induction false} IdleWork(c: Config, n: nat)
    ensures StationWork(c, seq(n, i => IDLE_RS)) == 0
  {
    if n > 0 {
      IdleWork(c, n - 1);
      assert seq(n, i => IDLE_RS)[..n - 1] == seq(n - 1, i => IDLE_RS);
    }
  }

  lemma {:induction false} IdleStations(c: Config, sizes: seq<nat>, mem: seq<Word>, n: nat)
    requires |sizes| == UNITS && n <= UNITS
    ensures StationsWork(c, PowerOn(sizes, mem).stations, n) == 0
  {
    if n > 0 {
      IdleStations(c, sizes, mem, n - 1);
      IdleWork(c, sizes[n - 1]);
    }
  }

  lemma PowerOnPotential(c: Config, sizes: seq<nat>, mem: seq<Word>)
    requires |sizes| == UNITS
    ensures Potential(c, PowerOn(sizes, mem)) == CycleBound(c, 0)
  {
    IdleStations(c, sizes, mem, UNITS);
    AllowanceNext(c, 0);
    hide StationsWork, Wmax, Weigh, Allowance;
  }

  lemma LinearTimeBound(c: Config, f: ExecFn, x: Trace, sizes: seq<nat>, n: nat)
    requires c.linear && |sizes| == UNITS && RoomySizes(c, sizes) && Sound(x) && SameResults(f, x.p.alu)
    ensures var d := Run(c, f, x.p.code, PowerOn(sizes, x.p.mem), n);
            !Stopped(x.p.code, d) ==> n <= CycleBound(c, d.base)
  {
    var m := PowerOn(sizes, x.p.mem);
    assert c.robSize > 0 && Roomy(c, m) && m.base == 0;
    hide CycleBound, Allowance, RoomySizes, Roomy, Good, Inv, Potential, Stopped, Run, PowerOn, Wmax;
    PowerOnOk(c, x, sizes);
    RunPays(c, f, x, m, n);
    PowerOnPotential(c, sizes, x.p.mem);
    BoundSplit(c, Run(c, f, x.p.code, m, n).base);
  }

  lemma SameBound(c: Config, h: nat)
    ensures CycleBound(Unbounded(c), h) == CycleBound(c, h)
  {
    assert Wmax(Unbounded(c)) == Wmax(c);
    hide Wmax, Weigh;
  }

  lemma DoubleTimeBound(c: Config, sizes: seq<nat>, code: seq<Instruction>, fp: FloatUnit, mem: seq<Word>, n: nat)
    requires |sizes| == UNITS && RoomySizes(c, sizes) && Admissible(Reference(code, fp, mem))
    ensures var d := Double(c, sizes, code, fp, mem, n);
            !Stopped(code, d) ==> n <= CycleBound(c, d.base)
  {
    var x := TraceOf(Reference(code, fp, mem));
    var u := Unbounded(c);
    assert c.robSize > 0 && RoomySizes(u, sizes);
    SameBound(c, Double(c, sizes, code, fp, mem, n).base);
    hide CycleBound, Wmax, RoomySizes, TraceOf, Sound, SameResults, SimulatorResults, ReferenceResults, Stopped, Run, PowerOn;
    TraceIs(Reference(code, fp, mem));
    SameFunctions(fp);
    LinearTimeBound(u, SimulatorResults(fp), x, sizes, n);
  }

  /** While the simulator is still running, the number of cycles is bounded by a
      constant plus a constant per retired instruction. */
  lemma RunningTimeBound(c: Config, sizes: seq<nat>, code: seq<Instruction>, fp: FloatUnit, mem: seq<Word>, n: nat)
    requires |sizes| == UNITS && RoomySizes(c, sizes) && Admissible(Reference(code, fp, mem))
    ensures var m := After(c, sizes, code, fp, mem, n);
            !Stopped(code, m) ==> n <= CycleBound(c, m.base)
  {
    assert c.robSize > 0;
    hide CycleBound, RoomySizes, Good, RingRat, RingStations, RingBuffer, TraceOf, Admissible, Stopped, After, Double;
    DoubleTimeBound(c, sizes, code, fp, mem, n);
    Lockstep(c, sizes, code, fp, mem, n);
    StoppedRing(Unbounded(c), code, Double(c, sizes, code, fp, mem, n));
  }

  lemma BoundSplit(c: Config, h: nat)
    ensures CycleBound(c, h) == CycleBound(c, 0) + Allowance(c, h)
  {
    AllowanceNext(c, 0);
    hide Wmax, Weigh, Allowance;
  }

  /** Total correctness: if the sequential machine finishes after h instructions, the
      simulator exits within the bound, with exactly its final registers and memory;
      and the simulator exits only if the sequential machine finishes. */
  lemma SimulatorTerminates(c: Config, sizes: seq<nat>, code: seq<Instruction>, fp: FloatUnit, mem: seq<Word>, h: nat, n: nat)
    requires |sizes| == UNITS && RoomySizes(c, sizes) && Admissible(Reference(code, fp, mem))
    requires FinishesAt(Reference(code, fp, mem), h) && n > CycleBound(c, h)
    ensures var m, p := After(c, sizes, code, fp, mem, n), Reference(code, fp, mem);
            && Stopped(code, m) && m.base == h
            && m.regs == StateAt(p, h).regs && m.mem == StateAt(p, h).mem
  {
    var p := Reference(code, fp, mem);
    var m := After(c, sizes, code, fp, mem, n);
    hide After, StateAt, Executes, FinishesAt, Stopped, Admissible, CycleBound;
    RunRefinesSequential(c, sizes, code, fp, mem, n);
    RunningTimeBound(c, sizes, code, fp, mem, n);
    if m.base > h {
      FinishNoMore(p, h, m.base);
    }
    BoundMonotone(c, m.base, h);
    if Stopped(code, m) {
      FinishUnique(p, m.base, h);
    }
  }

  lemma BoundMonotone(c: Config, a: nat, b: nat)
    ensures a <= b ==> CycleBound(c, a) <= CycleBound(c, b)
  {
    if a <= b {
      hide Wmax, Weigh;
      var w := Wmax(c) + 2;
      MulNonNegative(b - a, w);
      assert b * w == a * w + (b - a) * w;
    }
  }

  /** Configuration independence: whatever the latencies, pipelining and buffer sizes,
      runs that have retired equally many instructions agree, and runs that exit
      retired the same instructions and agree on the final state. */
  lemma ConfigurationIndependent(c1: Config, sizes1: seq<nat>, n1: nat, c2: Config, sizes2: seq<nat>, n2: nat,
                                 code: seq<Instruction>, fp: FloatUnit, mem: seq<Word>)
    requires c1.robSize > 0 && c2.robSize > 0 && |sizes1| == |sizes2| == UNITS && Admissible(Reference(code, fp, mem))
    ensures var m1, m2 := After(c1, sizes1, code, fp, mem, n1), After(c2, sizes2, code, fp, mem, n2);
            && (m1.base == m2.base ==> m1.regs == m2.regs && m1.mem == m2.mem)
            && (Stopped(code, m1) && Stopped(code, m2) ==> m1.base == m2.base)
  {
    var m1, m2 := After(c1, sizes1, code, fp, mem, n1), After(c2, sizes2, code, fp, mem, n2);
    hide After, StateAt, Executes, FinishesAt, Stopped, Admissible;
    RunRefinesSequential(c1, sizes1, code, fp, mem, n1);
    RunRefinesSequential(c2, sizes2, code, fp, mem, n2);
    if Stopped(code, m1) && Stopped(code, m2) {
      FinishUnique(Reference(code, fp, mem), m1.base, m2.base);
    }
  }
}
