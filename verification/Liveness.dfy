/** The oldest instruction in flight always retires, within a bound read off the state. */
module Liveness {
  import opened Words
  import opened Instructions
  import opened Buffers
  import opened Machines
  import opened Isa
  import opened Invariants
  import opened Refinement
  import opened Tags
  import opened Progress
  import opened Simulation
  import opened Reachable

  // ----- The potential does not depend on how instructions are named -----

  lemma {:induction false} StationWorkRing(c: Config, es: seq<RsEntry>)
    requires c.robSize > 0
    ensures StationWork(c, RingStation(c, es)) == StationWork(c, es)
  {
    if es != [] {
      StationWorkRing(c, es[..|es| - 1]);
      assert RingStation(c, es)[..|es| - 1] == RingStation(c, es[..|es| - 1]);
    }
  }

  lemma {:induction false} StationsWorkRing(c: Config, s: Stations, n: nat)
    requires c.robSize > 0 && n <= UNITS
    ensures StationsWork(c, RingStations(c, s), n) == StationsWork(c, s, n)
  {
    hide RingStation;
    if n > 0 {
      StationsWorkRing(c, s, n - 1);
      StationWorkRing(c, s[n - 1]);
    }
  }

  lemma {:induction false} BufferWorkRing(c: Config, es: seq<LsbEntry>)
    requires c.robSize > 0
    ensures BufferWork(c, RingBuffer(c, es)) == BufferWork(c, es)
  {
    if es != [] {
      BufferWorkRing(c, es[..|es| - 1]);
      assert RingBuffer(c, es)[..|es| - 1] == RingBuffer(c, es[..|es| - 1]);
    }
  }

  lemma PotentialRing(c: Config, d: Machine)
    requires c.robSize > 0 && |d.rob| <= c.robSize
    ensures Potential(c, RingMachine(c, d)) == Potential(c, d)
  {
    hide RingStations, RingBuffer, RingRat, Wmax;
    StationsWorkRing(c, d.stations, UNITS);
    BufferWorkRing(c, d.lsb);
  }

  lemma {:induction false} WorkIgnoresNaming(c: Config, es: seq<RsEntry>)
    ensures StationWork(Unbounded(c), es) == StationWork(c, es)
  {
    if es != [] {
      WorkIgnoresNaming(c, es[..|es| - 1]);
    }
  }

  lemma {:induction false} StationsWorkIgnores(c: Config, s: Stations, n: nat)
    requires n <= UNITS
    ensures StationsWork(Unbounded(c), s, n) == StationsWork(c, s, n)
  {
    if n > 0 {
      StationsWorkIgnores(c, s, n - 1);
      WorkIgnoresNaming(c, s[n - 1]);
    }
  }

  lemma {:induction false} BufferWorkIgnores(c: Config, es: seq<LsbEntry>)
    ensures BufferWork(Unbounded(c), es) == BufferWork(c, es)
  {
    if es != [] {
      BufferWorkIgnores(c, es[..|es| - 1]);
    }
  }

  lemma SamePotential(c: Config, m: Machine)
    requires |m.rob| <= c.robSize
    ensures Potential(Unbounded(c), m) == Potential(c, m)
  {
    StationsWorkIgnores(c, m.stations, UNITS);
    BufferWorkIgnores(c, m.lsb);
    assert Wmax(Unbounded(c)) == Wmax(c);
    hide Wmax, StationsWork, BufferWork;
  }

  // ----- Runs continue -----

  lemma {:induction false} RunMore(c: Config, f: ExecFn, code: seq<Instruction>, m: Machine, n: nat, k: nat)
    requires c.robSize > 0
    ensures Run(c, f, code, m, n + k) == Run(c, f, code, Run(c, f, code, m, n), k)
  {
    hide Iterate;
    if k > 0 {
      RunMore(c, f, code, m, n, k - 1);
      assert n + k - 1 == n + (k - 1);
    }
  }

  lemma DoubleRoomy(c: Config, sizes: seq<nat>, code: seq<Instruction>, fp: FloatUnit, mem: seq<Word>, n: nat)
    requires |sizes| == UNITS && RoomySizes(c, sizes) && Admissible(Reference(code, fp, mem))
    ensures Roomy(Unbounded(c), Double(c, sizes, code, fp, mem, n))
  {
    var x, u, m := TraceOf(Reference(code, fp, mem)), Unbounded(c), PowerOn(sizes, mem);
    assert Roomy(u, m);
    hide Good, Inv, Potential, Stopped, TraceOf, Sound, SameResults, SimulatorResults, ReferenceResults, Run, PowerOn, Allowance, Roomy, Wmax;
    TraceIs(Reference(code, fp, mem));
    SameFunctions(fp);
    PowerOnOk(u, x, sizes);
    RunPays(u, SimulatorResults(fp), x, m, n);
  }

  lemma DoubleRetires(c: Config, sizes: seq<nat>, code: seq<Instruction>, fp: FloatUnit, mem: seq<Word>, n: nat, k: nat)
    requires |sizes| == UNITS && RoomySizes(c, sizes) && Admissible(Reference(code, fp, mem))
    requires var d := Double(c, sizes, code, fp, mem, n);
             Inv(Unbounded(c), TraceOf(Reference(code, fp, mem)), d) && d.rob != [] && |d.rob| <= c.robSize && k > Potential(Unbounded(c), d)
    ensures Double(c, sizes, code, fp, mem, n + k).base > Double(c, sizes, code, fp, mem, n).base
  {
    hide Good, Inv, Potential, TraceOf, Sound, SameResults, SimulatorResults, ReferenceResults, Run, PowerOn, RoomySizes, Roomy;
    DoubleRoomy(c, sizes, code, fp, mem, n);
    SameFunctions(fp);
    TraceIs(Reference(code, fp, mem));
    HeadRetires(Unbounded(c), SimulatorResults(fp), TraceOf(Reference(code, fp, mem)), Double(c, sizes, code, fp, mem, n), k);
    RunMore(Unbounded(c), SimulatorResults(fp), code, PowerOn(sizes, mem), n, k);
  }

  lemma PotentialOfImage(c: Config, m: Machine, d: Machine)
    requires c.robSize > 0 && |m.rob| <= c.robSize && m == RingMachine(Unbounded(c), d)
    ensures m.rob == d.rob && m.base == d.base && m.halted == d.halted
    ensures Potential(Unbounded(c), d) == Potential(c, m)
  {
    hide Potential, RingRat, RingStations, RingBuffer;
    PotentialRing(Unbounded(c), d);
    SamePotential(c, m);
  }

  /** The reorder buffer never holds more than its size. */
  lemma RobFitsAlways(c: Config, sizes: seq<nat>, code: seq<Instruction>, fp: FloatUnit, mem: seq<Word>, n: nat)
    requires c.robSize > 0 && |sizes| == UNITS && Admissible(Reference(code, fp, mem))
    ensures |After(c, sizes, code, fp, mem, n).rob| <= c.robSize
  {
    hide After, Double, UnitsOk, FrontOk, TraceOf, Admissible, RingRat, RingStations, RingBuffer;
    ReachableDouble(c, sizes, code, fp, mem, n);
  }

  /** The potential of a reachable state. */
  function PotentialAfter(c: Config, sizes: seq<nat>, code: seq<Instruction>, fp: FloatUnit, mem: seq<Word>, n: nat): nat
    requires c.robSize > 0 && |sizes| == UNITS
  {
    var m := After(c, sizes, code, fp, mem, n);
    if |m.rob| <= c.robSize then Potential(c, m) else 0
  }

  lemma PotentialAfterIs(c: Config, sizes: seq<nat>, code: seq<Instruction>, fp: FloatUnit, mem: seq<Word>, n: nat)
    requires c.robSize > 0 && |sizes| == UNITS && Admissible(Reference(code, fp, mem))
    ensures var d := Double(c, sizes, code, fp, mem, n);
            && |d.rob| <= c.robSize && PotentialAfter(c, sizes, code, fp, mem, n) == Potential(Unbounded(c), d)
            && After(c, sizes, code, fp, mem, n).base == d.base && After(c, sizes, code, fp, mem, n).rob == d.rob
            && After(c, sizes, code, fp, mem, n).halted == d.halted
  {
    hide After, Double, Coherent, TraceOf, Admissible, Potential, RingMachine;
    ReachableDouble(c, sizes, code, fp, mem, n);
    RobFitsAlways(c, sizes, code, fp, mem, n);
    PotentialOfImage(c, After(c, sizes, code, fp, mem, n), Double(c, sizes, code, fp, mem, n));
  }

  /** In every reachable state with something in flight, the oldest instruction retires
      within as many cycles as the potential of that state: free slots weighted by the
      longest latency, plus all the work left, whoever holds the unpipelined units. */
  lemma OldestRetires(c: Config, sizes: seq<nat>, code: seq<Instruction>, fp: FloatUnit, mem: seq<Word>, n: nat, k: nat)
    requires |sizes| == UNITS && RoomySizes(c, sizes) && Admissible(Reference(code, fp, mem))
    requires var m := After(c, sizes, code, fp, mem, n);
             !m.halted && m.rob != [] && k > PotentialAfter(c, sizes, code, fp, mem, n)
    ensures After(c, sizes, code, fp, mem, n + k).base > After(c, sizes, code, fp, mem, n).base
  {
    hide Good, Inv, Potential, PotentialAfter, TraceOf, Admissible, Reference, RingMachine, After, Double;
    RunningDouble(c, sizes, code, fp, mem, n);
    PotentialAfterIs(c, sizes, code, fp, mem, n);
    DoubleRetires(c, sizes, code, fp, mem, n, k);
    Lockstep(c, sizes, code, fp, mem, n + k);
    BaseOfImage(Unbounded(c), Double(c, sizes, code, fp, mem, n + k));
  }

  lemma DoublePays(c: Config, sizes: seq<nat>, code: seq<Instruction>, fp: FloatUnit, mem: seq<Word>, n: nat)
    requires |sizes| == UNITS && RoomySizes(c, sizes) && Admissible(Reference(code, fp, mem))
    requires !Stopped(code, Double(c, sizes, code, fp, mem, n)) && Inv(Unbounded(c), TraceOf(Reference(code, fp, mem)), Double(c, sizes, code, fp, mem, n))
    ensures var d, e, u := Double(c, sizes, code, fp, mem, n), Double(c, sizes, code, fp, mem, n + 1), Unbounded(c);
            && |d.rob| <= c.robSize && |e.rob| <= c.robSize && d.base <= e.base <= d.base + 1
            && Potential(u, e) + 1 <= Potential(u, d) + (if e.base > d.base then Wmax(u) + 2 else 0)
  {
    hide Good, Inv, Potential, TraceOf, Sound, SameResults, SimulatorResults, ReferenceResults, PowerOn, Roomy, Wmax, Cycle, Stopped;
    var d := Double(c, sizes, code, fp, mem, n);
    DoubleRoomy(c, sizes, code, fp, mem, n);
    SameFunctions(fp);
    TraceIs(Reference(code, fp, mem));
    assert Double(c, sizes, code, fp, mem, n + 1) == Iterate(Unbounded(c), SimulatorResults(fp), code, d);
    CyclePays(Unbounded(c), SimulatorResults(fp), TraceOf(Reference(code, fp, mem)), d);
  }

  lemma DoubleNotStopped(c: Config, sizes: seq<nat>, code: seq<Instruction>, fp: FloatUnit, mem: seq<Word>, n: nat)
    requires c.robSize > 0 && |sizes| == UNITS && Admissible(Reference(code, fp, mem))
    requires !Stopped(code, After(c, sizes, code, fp, mem, n))
    ensures var d := Double(c, sizes, code, fp, mem, n);
            !Stopped(code, d) && Inv(Unbounded(c), TraceOf(Reference(code, fp, mem)), d)
  {
    hide Good, Inv, TraceOf, Admissible, Reference, RingRat, RingStations, RingBuffer, After, Double;
    Lockstep(c, sizes, code, fp, mem, n);
    RunningDouble(c, sizes, code, fp, mem, n);
  }

  lemma SameLatencyBound(c: Config)
    ensures Wmax(Unbounded(c)) == Wmax(c)
  {
  }

  /** Every cycle of a running simulator lowers the potential by at least one, except that
      a retirement may raise it by a constant. */
  lemma EveryCyclePays(c: Config, sizes: seq<nat>, code: seq<Instruction>, fp: FloatUnit, mem: seq<Word>, n: nat)
    requires |sizes| == UNITS && RoomySizes(c, sizes) && Admissible(Reference(code, fp, mem))
    requires !Stopped(code, After(c, sizes, code, fp, mem, n))
    ensures var retired := After(c, sizes, code, fp, mem, n + 1).base > After(c, sizes, code, fp, mem, n).base;
            PotentialAfter(c, sizes, code, fp, mem, n + 1) + 1
            <= PotentialAfter(c, sizes, code, fp, mem, n) + (if retired then Wmax(c) + 2 else 0)
  {
    hide Good, Inv, Potential, PotentialAfter, TraceOf, Admissible, Reference, RingMachine, After, Double, Unbounded, Wmax, Stopped;
    SameLatencyBound(c);
    DoubleNotStopped(c, sizes, code, fp, mem, n);
    PotentialAfterIs(c, sizes, code, fp, mem, n);
    PotentialAfterIs(c, sizes, code, fp, mem, n + 1);
    DoublePays(c, sizes, code, fp, mem, n);
  }

  lemma BaseOfImage(c: Config, d: Machine)
    requires c.robSize > 0
    ensures RingMachine(c, d).base == d.base
  {
  }
}
