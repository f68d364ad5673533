/** The bounds on running time in terms of the configuration alone. */
module TimeBounds {
  import opened Words
  import opened Instructions
  import opened ArchState
  import opened Buffers
  import opened Machines
  import opened Isa
  import opened Invariants
  import opened CommitProofs
  import opened DispatchProofs
  import opened Refinement
  import opened Progress
  import opened Simulation
  import opened Liveness

  /** No latency is above k. */
  predicate LatenciesWithin(l: Latencies, k: nat) {
    && l.intAlu <= k && l.intLs <= k && l.branch <= k && l.fpAddSub <= k && l.fpMul <= k
    && l.fpDiv <= k && l.fpLs <= k && l.fpCvt <= k && l.misc <= k
  }

  lemma LongestLatency(c: Config, k: nat)
    requires LatenciesWithin(c.lat, k) && k > 0
    ensures Wmax(c) <= k + 1
  {
  }

  /** The cycles within which h instructions retire from power-on. */
  lemma CycleBoundIs(c: Config, h: nat, k: nat)
    requires LatenciesWithin(c.lat, k) && k > 0
    ensures CycleBound(c, h) <= c.robSize * (k + 2) + h * (k + 3)
  {
    hide Wmax;
    LongestLatency(c, k);
    MulMonotone(Wmax(c) + 1, k + 2, c.robSize);
    MulMonotone(Wmax(c) + 2, k + 3, h);
  }

  /** Total correctness in numbers: with no latency above k, a program of h instructions
      is finished, with exactly the sequential result, after robSize (k + 2) + h (k + 3)
      cycles. */
  lemma FinishedWithin(c: Config, sizes: seq<nat>, code: seq<Instruction>, fp: FloatUnit, mem: seq<Word>, h: nat, n: nat, k: nat)
    requires |sizes| == UNITS && RoomySizes(c, sizes) && Admissible(Reference(code, fp, mem))
    requires LatenciesWithin(c.lat, k) && k > 0
    requires FinishesAt(Reference(code, fp, mem), h) && n > c.robSize * (k + 2) + h * (k + 3)
    ensures var m, p := After(c, sizes, code, fp, mem, n), Reference(code, fp, mem);
            && Stopped(code, m) && m.base == h
            && m.regs == StateAt(p, h).regs && m.mem == StateAt(p, h).mem
  {
    hide After, StateAt, FinishesAt, Stopped, Admissible, CycleBound, RoomySizes, LatenciesWithin;
    CycleBoundIs(c, h, k);
    SimulatorTerminates(c, sizes, code, fp, mem, h, n);
  }

  // ----- The work left is bounded by the slots -----

  /** No slot holds more work than one whole operation. */
  ghost predicate Light(c: Config, m: Machine) {
    && (forall u, i :: 0 <= u < UNITS && 0 <= i < |m.stations[u]| ==> RsWork(c, m.stations[u][i]) <= Wmax(c))
    && (forall i :: 0 <= i < |m.lsb| ==> LsbWork(c, m.lsb[i]) <= Wmax(c))
  }

  lemma SnoopedWork(c: Config, e: RsEntry, l: LsbEntry, bus: seq<BusResult>)
    ensures RsWork(c, SnoopRs(e, bus)) == RsWork(c, e) && LsbWork(c, SnoopLsb(l, bus)) == LsbWork(c, l)
  {
    hide CatchAll, Ticks;
  }

  lemma ExecuteLight(c: Config, f: ExecFn, x: Trace, m: Machine)
    requires c.robSize > 0 && Inv(c, x, m) && Light(c, m)
    ensures Light(c, Execute(c, f, m))
  {
    hide Inv, RsWork, LsbWork, Wmax, StationTick, LsbTick, BusOf, WriteAll, ReportStores, SnoopRs, SnoopLsb, LoadRun;
    RemsOk(c, x, m);
    var e := Execute(c, f, m);
    var bus := BusOf(Report(c, Tick(c, f, m)));
    forall u, i | 0 <= u < UNITS && 0 <= i < |e.stations[u]|
      ensures RsWork(c, e.stations[u][i]) <= Wmax(c)
    {
      TickSlotWork(c, f, m.stations[u], i);
      var t := StationTick(c, f, m.stations[u]);
      SnoopedWork(c, Drained(t)[i], IDLE_LSB, bus);
      DrainedWork(c, t, i);
      assert e.stations[u][i] == SnoopRs(Drained(t)[i], bus);
    }
    var t := LsbTick(c, m.lsb, m.mem);
    forall i | 0 <= i < |e.lsb|
      ensures LsbWork(c, e.lsb[i]) <= Wmax(c)
    {
      var j := LoadRun(t) + i;
      LsbSlotWork(c, m.lsb, m.mem, j);
      SnoopedWork(c, IDLE_RS, t[j], bus);
      assert e.lsb[i] == SnoopLsb(t[j], bus);
    }
  }

  lemma DrainedWork(c: Config, es: seq<RsEntry>, i: nat)
    requires i < |es|
    ensures RsWork(c, Drained(es)[i]) <= RsWork(c, es[i])
  {
    hide Ticks;
  }

  lemma CommitLight(c: Config, m: Machine)
    requires c.robSize > 0 && Light(c, m)
    ensures Light(c, Commit(c, m))
  {
    hide RsWork, LsbWork, Wmax, Slot, Retire, RegsAfter, RatAfter, WriteMem;
    if HeadReady(m) {
      RetireFields(c, m, Slot(c, m.base));
    }
  }

  lemma DispatchLight(c: Config, m: Machine)
    requires c.robSize > 0 && CanDispatch(c, m) && Light(c, m)
    ensures Light(c, Dispatch(c, m))
  {
    var i, tag, d := m.iq.buffer[0], Slot(c, m.base + |m.rob|), Dispatch(c, m);
    hide Dispatch, Slot, Resolve, NewRsEntry, NewLsbEntry, RsWork, LsbWork, Wmax;
    DispatchFields(c, m, tag);
    DispatchUnits(c, m, tag);
    var k := Resolve(c, i.rs2, i.rs2Fp, m.rat, m.regs, m.base, d.rob);
    NewEntryWork(c, i, tag, Resolve(c, i.rs1, false, m.rat, m.regs, m.base, d.rob), k);
    NewEntryWork(c, i, tag, Resolve(c, i.rs1, i.rs1Fp, m.rat, m.regs, m.base, d.rob), k);
  }

  lemma {:induction false} DispatchUpToLight(c: Config, m: Machine, n: nat)
    requires c.robSize > 0 && Light(c, m)
    ensures Light(c, DispatchUpTo(c, m, n))
    decreases n
  {
    hide Dispatch, CanDispatch, Light, IsControl;
    if n > 0 && CanDispatch(c, m) {
      DispatchLight(c, m);
      DispatchUpToLight(c, Dispatch(c, m), n - 1);
    }
  }

  lemma IterateLight(c: Config, f: ExecFn, x: Trace, m: Machine)
    requires c.linear && c.robSize > 0 && Good(c, x, m) && Light(c, m)
    ensures Light(c, Iterate(c, f, x.p.code, m))
  {
    hide Inv, Execute, Commit, DispatchUpTo, FetchUpTo, RsWork, LsbWork;
    if !Stopped(x.p.code, m) {
      var e := Execute(c, f, m);
      ExecuteLight(c, f, x, m);
      CommitLight(c, e);
      DispatchUpToLight(c, Fetch(c, x.p.code, Commit(c, e)), c.width);
    }
  }

  lemma {:induction false} DoubleLight(c: Config, sizes: seq<nat>, code: seq<Instruction>, fp: FloatUnit, mem: seq<Word>, n: nat)
    requires c.robSize > 0 && |sizes| == UNITS && Admissible(Reference(code, fp, mem))
    ensures Light(Unbounded(c), Double(c, sizes, code, fp, mem, n))
  {
    hide Light, Good, Iterate, TraceOf, Admissible, Reference, SimulatorResults, PowerOn;
    if n == 0 {
      PowerOnLight(Unbounded(c), sizes, mem);
    } else {
      var d := Double(c, sizes, code, fp, mem, n - 1);
      DoubleLight(c, sizes, code, fp, mem, n - 1);
      Lockstep(c, sizes, code, fp, mem, n - 1);
      TraceIs(Reference(code, fp, mem));
      ReferenceCode(code, fp, mem);
      IterateLight(Unbounded(c), SimulatorResults(fp), TraceOf(Reference(code, fp, mem)), d);
    }
  }

  lemma ReferenceCode(code: seq<Instruction>, fp: FloatUnit, mem: seq<Word>)
    ensures Reference(code, fp, mem).code == code
  {
  }

  lemma PowerOnLight(c: Config, sizes: seq<nat>, mem: seq<Word>)
    requires |sizes| == UNITS
    ensures Light(c, PowerOn(sizes, mem))
  {
    hide Ticks, Wmax;
  }

  // ----- The oldest instruction -----

  function Total(sizes: seq<nat>): nat {
    if sizes == [] then 0 else Total(sizes[..|sizes| - 1]) + sizes[|sizes| - 1]
  }

  lemma {:induction false} StationWorkWithin(c: Config, es: seq<RsEntry>, w: nat)
    requires forall i :: 0 <= i < |es| ==> RsWork(c, es[i]) <= w
    ensures StationWork(c, es) <= |es| * w
  {
    hide RsWork;
    if es != [] {
      StationWorkWithin(c, es[..|es| - 1], w);
      assert |es| * w == (|es| - 1) * w + w;
    }
  }

  lemma {:induction false} BufferWorkWithin(c: Config, es: seq<LsbEntry>, w: nat)
    requires forall i :: 0 <= i < |es| ==> LsbWork(c, es[i]) <= w
    ensures BufferWork(c, es) <= |es| * w
  {
    hide LsbWork;
    if es != [] {
      BufferWorkWithin(c, es[..|es| - 1], w);
      assert |es| * w == (|es| - 1) * w + w;
    }
  }

  lemma {:induction false} StationsWorkWithin(c: Config, m: Machine, sizes: seq<nat>, w: nat, n: nat)
    requires n <= UNITS && |sizes| == UNITS && forall u :: 0 <= u < UNITS ==> |m.stations[u]| == sizes[u]
    requires forall u, i :: 0 <= u < UNITS && 0 <= i < |m.stations[u]| ==> RsWork(c, m.stations[u][i]) <= w
    ensures StationsWork(c, m.stations, n) <= Total(sizes[..n]) * w
  {
    hide RsWork, StationWork;
    if n > 0 {
      StationsWorkWithin(c, m, sizes, w, n - 1);
      StationWorkWithin(c, m.stations[n - 1], w);
      assert sizes[..n][..n - 1] == sizes[..n - 1];
      assert (Total(sizes[..n - 1]) + sizes[n - 1]) * w == Total(sizes[..n - 1]) * w + sizes[n - 1] * w;
    }
  }

  ghost predicate Sized(m: Machine, sizes: seq<nat>) {
    |sizes| == UNITS && forall u :: 0 <= u < UNITS ==> |m.stations[u]| == sizes[u]
  }

  lemma {:induction false} RunSized(c: Config, f: ExecFn, code: seq<Instruction>, sizes: seq<nat>, mem: seq<Word>, n: nat)
    requires c.robSize > 0 && |sizes| == UNITS
    ensures Sized(Run(c, f, code, PowerOn(sizes, mem), n), sizes)
  {
    hide Iterate;
    if n > 0 {
      RunSized(c, f, code, sizes, mem, n - 1);
      IterateSized(c, f, code, Run(c, f, code, PowerOn(sizes, mem), n - 1));
    }
  }

  lemma IterateSized(c: Config, f: ExecFn, code: seq<Instruction>, m: Machine)
    requires c.robSize > 0
    ensures forall u :: 0 <= u < UNITS ==> |Iterate(c, f, code, m).stations[u]| == |m.stations[u]|
  {
    hide Execute, Retire, DispatchUpTo, Stopped, Slot, RegsAfter, RatAfter, WriteMem;
    var e := Execute(c, f, m);
    ExecuteSizes(c, f, m);
    if HeadReady(e) {
      RetireFields(c, e, Slot(c, e.base));
    }
    DispatchUpToSizes(c, Fetch(c, code, Commit(c, e)), c.width);
  }

  /** All slots of the stations and the load/store buffer. */
  function SlotCount(c: Config, sizes: seq<nat>): nat { Total(sizes) + c.lsbSize }

  lemma PotentialWithin(c: Config, m: Machine, sizes: seq<nat>, w: nat)
    requires |m.rob| <= c.robSize && |m.lsb| <= c.lsbSize && Sized(m, sizes) && Light(c, m) && Wmax(c) <= w
    ensures Potential(c, m) <= c.robSize * (w + 1) + SlotCount(c, sizes) * w
  {
    hide Wmax, RsWork, LsbWork, StationsWork, BufferWork, Total;
    StationsWorkWithin(c, m, sizes, Wmax(c), UNITS);
    assert sizes[..UNITS] == sizes;
    BufferWorkWithin(c, m.lsb, Wmax(c));
    WeighWithin(c.robSize, c.robSize - |m.rob|, Wmax(c), w, Total(sizes), c.lsbSize, |m.lsb|, TotalWork(c, m));
  }

  lemma WeighWithin(size: nat, free: nat, v: nat, w: nat, slots: nat, buffer: nat, used: nat, work: nat)
    requires free <= size && v <= w && used <= buffer && work <= slots * v + used * v
    ensures Weigh(free, v, work) <= size * (w + 1) + (slots + buffer) * w
  {
    ProductWithin(free, size, v + 1, w + 1);
    ProductWithin(slots + used, slots + buffer, v, w);
    assert (slots + used) * v == slots * v + used * v;
  }

  lemma ProductWithin(a: nat, b: nat, v: nat, w: nat)
    requires a <= b && v <= w
    ensures a * v <= b * w
  {
    MulMonotone(a, b, v);
    MulMonotone(v, w, b);
    assert b * v == v * b && b * w == w * b;
  }

  /** Progress in numbers: with no latency above k, the oldest instruction in flight
      retires within robSize (k + 2) + slots (k + 1) + 1 cycles, in every reachable state
      that has not halted. */
  lemma OldestRetiresWithin(c: Config, sizes: seq<nat>, code: seq<Instruction>, fp: FloatUnit, mem: seq<Word>, n: nat, k: nat, t: nat)
    requires |sizes| == UNITS && RoomySizes(c, sizes) && Admissible(Reference(code, fp, mem))
    requires LatenciesWithin(c.lat, k) && k > 0 && t > c.robSize * (k + 2) + SlotCount(c, sizes) * (k + 1)
    requires var m := After(c, sizes, code, fp, mem, n); !m.halted && m.rob != []
    ensures After(c, sizes, code, fp, mem, n + t).base > After(c, sizes, code, fp, mem, n).base
  {
    hide After, Double, Potential, PotentialAfter, Admissible, Reference, RoomySizes, LatenciesWithin, SlotCount, Wmax, Unbounded;
    RoomySizesRob(c, sizes);
    PotentialAfterIs(c, sizes, code, fp, mem, n);
    DoublePotentialWithin(c, sizes, code, fp, mem, n, k);
    OldestRetires(c, sizes, code, fp, mem, n, t);
  }

  lemma RoomySizesRob(c: Config, sizes: seq<nat>)
    requires |sizes| == UNITS && RoomySizes(c, sizes)
    ensures c.robSize > 0
  {
  }

  lemma DoublePotentialWithin(c: Config, sizes: seq<nat>, code: seq<Instruction>, fp: FloatUnit, mem: seq<Word>, n: nat, k: nat)
    requires c.robSize > 0 && |sizes| == UNITS && Admissible(Reference(code, fp, mem)) && LatenciesWithin(c.lat, k) && k > 0
    ensures var d := Double(c, sizes, code, fp, mem, n);
            |d.rob| <= c.robSize && Potential(Unbounded(c), d) <= c.robSize * (k + 2) + SlotCount(c, sizes) * (k + 1)
  {
    hide Light, Good, Coherent, Potential, TraceOf, Admissible, Reference, SimulatorResults, Wmax, Run, Sized, PowerOn, SlotCount;
    var d := Double(c, sizes, code, fp, mem, n);
    DoubleLight(c, sizes, code, fp, mem, n);
    RunSized(Unbounded(c), SimulatorResults(fp), code, sizes, mem, n);
    Lockstep(c, sizes, code, fp, mem, n);
    GoodIsCoherent(Unbounded(c), TraceOf(Reference(code, fp, mem)), d);
    CoherentSizes(Unbounded(c), TraceOf(Reference(code, fp, mem)), d);
    LongestLatency(Unbounded(c), k);
    SameSlots(c, sizes);
    PotentialWithin(Unbounded(c), d, sizes, k + 1);
  }

  lemma SameSlots(c: Config, sizes: seq<nat>)
    ensures SlotCount(Unbounded(c), sizes) == SlotCount(c, sizes)
  {
  }

  lemma CoherentSizes(c: Config, x: Trace, m: Machine)
    requires Coherent(c, x, m)
    ensures |m.rob| <= c.robSize && |m.lsb| <= c.lsbSize
  {
    hide UnitsOk, FrontOk;
  }
}
