/** How many cycles a result takes, in whole runs: an operation that starts in a station
    has its result in the reorder buffer after exactly the latency of its kind, and not
    one cycle earlier. */
module ResultTiming {
  import opened Words
  import opened Instructions
  import opened ArchState
  import opened Buffers
  import opened Machines
  import opened Isa
  import opened Invariants
  import opened BroadcastProofs
  import opened CommitProofs
  import opened DispatchProofs
  import opened Refinement
  import opened Tags
  import opened Progress
  import opened Simulation
  import opened StationTiming

  /** Instruction w of the run is in flight and has no result yet. */
  ghost predicate Pending(m: Machine, w: nat) {
    m.base <= w < m.base + |m.rob| && m.rob[w - m.base].state == InFlight
  }

  /** Its result is in the reorder buffer, or it has already retired. */
  ghost predicate Arrived(m: Machine, w: nat) {
    m.base > w || (w < m.base + |m.rob| && m.rob[w - m.base].state == RobDone)
  }

  /** Slot i of station u is in the middle of an operation with r cycles to go. */
  predicate InProgress(m: Machine, u: nat, i: nat, op: Opcode, tag: int, r: int) {
    && u < UNITS && i < |m.stations[u]|
    && m.stations[u][i].busy && !m.stations[u][i].done && m.stations[u][i].rem == r
    && m.stations[u][i].op == op && m.stations[u][i].tag == tag
  }

  // ----- What the phases of a cycle do to a busy slot and to the reorder buffer -----

  lemma SlotExecuted(c: Config, f: ExecFn, m: Machine, u: nat, i: nat)
    requires c.robSize > 0 && u < UNITS && i < |m.stations[u]|
    ensures var t := StationTick(c, f, m.stations[u])[i];
            t.busy && !t.done ==>
              && i < |Execute(c, f, m).stations[u]|
              && InProgress(Execute(c, f, m), u, i, t.op, t.tag, t.rem)
  {
    hide StationTick, BusOf, WriteAll, ReportStores, LoadRun, LsbTick, SnoopBuffer, CatchAll;
  }

  lemma {:induction false} SlotKept(c: Config, m: Machine, n: nat, u: nat, i: nat)
    requires c.robSize > 0 && u < UNITS && i < |m.stations[u]| && m.stations[u][i].busy
    ensures var p := DispatchUpTo(c, m, n); i < |p.stations[u]| && p.stations[u][i] == m.stations[u][i]
    decreases n
  {
    if n > 0 && CanDispatch(c, m) {
      hide Dispatch, Resolve, NewRsEntry, NewLsbEntry, Slot;
      DispatchUnits(c, m, Slot(c, m.base + |m.rob|));
      if !IsControl(m.iq.buffer[0].op) {
        SlotKept(c, Dispatch(c, m), n - 1, u, i);
      }
    }
  }

  lemma {:induction false} RobKept(c: Config, m: Machine, n: nat, j: nat)
    requires c.robSize > 0 && j < |m.rob|
    ensures var p := DispatchUpTo(c, m, n); p.base == m.base && j < |p.rob| && p.rob[j] == m.rob[j]
    decreases n
  {
    if n > 0 && CanDispatch(c, m) {
      hide Dispatch, NewRobEntry, Slot;
      DispatchFields(c, m, Slot(c, m.base + |m.rob|));
      if !IsControl(m.iq.buffer[0].op) {
        RobKept(c, Dispatch(c, m), n - 1, j);
      }
    }
  }

  lemma SlotIssued(c: Config, code: seq<Instruction>, m: Machine, u: nat, i: nat, op: Opcode, tag: int, r: int)
    requires c.robSize > 0 && InProgress(m, u, i, op, tag, r)
    ensures InProgress(Issue(c, code, Commit(c, m)), u, i, op, tag, r)
  {
    hide DispatchUpTo, Retire, FetchUpTo;
    if HeadReady(m) {
      RetireFields(c, m, Slot(c, m.base));
    }
    SlotKept(c, Fetch(c, code, Commit(c, m)), c.width, u, i);
  }

  lemma ArrivedCommitted(c: Config, m: Machine, w: nat)
    requires c.robSize > 0 && Arrived(m, w)
    ensures Arrived(Commit(c, m), w)
  {
    hide Retire, Slot, RegsAfter, RatAfter, LsbAfter, WriteMem;
    if HeadReady(m) {
      RetireFields(c, m, Slot(c, m.base));
    }
  }

  lemma ArrivedIssued(c: Config, code: seq<Instruction>, m: Machine, w: nat)
    requires c.robSize > 0 && Arrived(m, w)
    ensures Arrived(Issue(c, code, m), w)
  {
    hide DispatchUpTo, FetchUpTo;
    IssueBase(c, code, m);
    if m.base <= w && !m.branchInFlight && !m.halted {
      RobKept(c, Fetch(c, code, m), c.width, w - m.base);
    }
  }

  /** A slot that finishes in this cycle's tick has its result in the reorder buffer when
      the results have been broadcast. */
  lemma FinishedArrives(c: Config, f: ExecFn, x: Trace, m: Machine, u: nat, i: nat)
    requires c.linear && c.robSize > 0 && SameResults(f, x.p.alu) && Sound(x)
    requires UnitsOk(x, m, []) && m.mem == T(x, m.base).mem
    requires u < UNITS && i < |m.stations[u]| && Finished(StationTick(c, f, m.stations[u])[i])
    ensures var w := StationTick(c, f, m.stations[u])[i].tag; w >= 0 && Arrived(Execute(c, f, m), w)
  {
    hide UnitsOk, SameResults, Arrived, StationTick, ReportStores, LsbTick, Execute;
    var r := Report(c, Tick(c, f, m));
    assert r.stations[u] == StationTick(c, f, m.stations[u]);
    TickUnitsOk(c, f, x, m);
    ReportOk(c, x, Tick(c, f, m));
    SlotTagInWindow(x, r, u, i);
    BusTagOfStation(x, r, u, i);
    OnBusArrives(c, r, r.stations[u][i].tag);
    SnoopedRob(c, f, m);
  }

  lemma SnoopedRob(c: Config, f: ExecFn, m: Machine)
    requires c.robSize > 0
    ensures var e, b := Execute(c, f, m), Broadcast(c, Report(c, Tick(c, f, m))); e.rob == b.rob && e.base == b.base
    ensures forall w: nat :: Arrived(Broadcast(c, Report(c, Tick(c, f, m))), w) ==> Arrived(Execute(c, f, m), w)
  {
    hide StationTick, ReportStores, LsbTick, WriteAll, Drained, LoadRun, BusOf, SnoopStation, SnoopBuffer;
  }

  lemma OnBusArrives(c: Config, r: Machine, w: nat)
    requires c.linear && c.robSize > 0 && Pending(r, w) && OnBus(BusOf(r), w)
    ensures Arrived(Broadcast(c, r), w)
  {
    hide BusOf, WriteAll, Drained, LoadRun;
    WriteAllEffect(c, r.base, r.rob, BusOf(r), w - r.base);
  }

  lemma SlotTagInWindow(x: Trace, m: Machine, u: nat, i: nat)
    requires UnitsOk(x, m, []) && u < UNITS && i < |m.stations[u]| && m.stations[u][i].busy
    ensures m.stations[u][i].tag >= 0 && Pending(m, m.stations[u][i].tag) && m.stations[u][i].rem >= 0
  {
    hide RobOk, LsbOk, AllOwned, OperandsOk, UnitOf;
    assert StationOk(x, m.base, m.rob, [], u, m.stations[u]);
    assert RsEntryOk(x, m.base, m.rob, u, m.stations[u][i]);
  }

  lemma CountingUnits(x: Trace, m: Machine, u: nat)
    requires UnitsOk(x, m, []) && u < UNITS
    ensures Counting(m.stations[u])
  {
    forall i | 0 <= i < |m.stations[u]| && m.stations[u][i].busy
      ensures m.stations[u][i].rem >= 0
    {
      SlotTagInWindow(x, m, u, i);
    }
  }

  /** One cycle of a busy slot: its result arrives, or it stays with what the tick left. */
  lemma SlotCycle(c: Config, f: ExecFn, x: Trace, m: Machine, u: nat, i: nat)
    requires c.linear && c.robSize > 0 && SameResults(f, x.p.alu) && Sound(x) && Inv(c, x, m)
    requires u < UNITS && i < |m.stations[u]| && m.stations[u][i].busy && !m.stations[u][i].done
    ensures var e, p := m.stations[u][i], Cycle(c, f, x.p.code, m);
            var t := Ticked(IsPipelined(c, e.op), LatencyOf(c, e.op), f, m.stations[u], i);
            if t.done then Arrived(p, e.tag) else InProgress(p, u, i, e.op, e.tag, t.rem) && Pending(p, e.tag)
    ensures m.stations[u][i].tag >= 0
  {
    hide Execute, Issue, Commit, StationTick, Ticked, IsPipelined, LatencyOf, UnitsOk, FrontOk, Arrived, Pending, InProgress, SameResults, Sound, Good;
    var e, p := m.stations[u][i], Cycle(c, f, x.p.code, m);
    SlotTagInWindow(x, m, u, i);
    CountingUnits(x, m, u);
    TickInClosedForm(c, f, m.stations[u], i);
    var t := StationTick(c, f, m.stations[u])[i];
    TickedFields(IsPipelined(c, e.op), LatencyOf(c, e.op), f, m.stations[u], i);
    if t.done {
      FinishedArrives(c, f, x, m, u, i);
      ArrivedCommitted(c, Execute(c, f, m), e.tag);
      ArrivedIssued(c, x.p.code, Commit(c, Execute(c, f, m)), e.tag);
    } else {
      SlotExecuted(c, f, m, u, i);
      SlotIssued(c, x.p.code, Execute(c, f, m), u, i, e.op, e.tag, t.rem);
      CycleOk(c, f, x, m);
      GoodSlotPending(c, x, p, u, i, e.op, e.tag, t.rem);
    }
  }

  lemma GoodSlotPending(c: Config, x: Trace, m: Machine, u: nat, i: nat, op: Opcode, tag: int, r: int)
    requires Good(c, x, m) && InProgress(m, u, i, op, tag, r)
    ensures tag >= 0 && Pending(m, tag)
  {
    GoodIsCoherent(c, x, m);
    SlotTagInWindow(x, m, u, i);
  }

  lemma TickedFields(pipelined: bool, latency: int, f: ExecFn, es: seq<RsEntry>, i: nat)
    requires i < |es|
    ensures var t := Ticked(pipelined, latency, f, es, i); t.busy == es[i].busy && t.tag == es[i].tag && t.op == es[i].op
  {
    hide MayStart;
  }

  // ----- Whole runs -----

  /** The cycles until the result of slot i: what is left of an operation in progress, or
      the latency of one that may start now. */
  ghost predicate Due(c: Config, es: seq<RsEntry>, i: nat, r: nat) {
    && i < |es| && es[i].busy && !es[i].done
    && if es[i].rem > 0 then r == es[i].rem
       else Waits(es[i]) && MayStart(IsPipelined(c, es[i].op), LatencyOf(c, es[i].op), es, i)
            && r == (if LatencyOf(c, es[i].op) <= 1 then 1 else LatencyOf(c, es[i].op))
  }

  lemma DueTicks(c: Config, f: ExecFn, es: seq<RsEntry>, i: nat, r: nat)
    requires Due(c, es, i, r)
    ensures var t := Ticked(IsPipelined(c, es[i].op), LatencyOf(c, es[i].op), f, es, i);
            r > 0 && (t.done <==> r == 1) && (!t.done ==> t.rem == r - 1)
  {
    hide MayStart, IsPipelined, LatencyOf;
  }

  lemma DoubleSlotCycle(c: Config, sizes: seq<nat>, code: seq<Instruction>, fp: FloatUnit, mem: seq<Word>, n: nat, u: nat, i: nat, r: nat)
    requires c.robSize > 0 && |sizes| == UNITS && Admissible(Reference(code, fp, mem)) && u < UNITS
    requires var d := Double(c, sizes, code, fp, mem, n); !Stopped(code, d) && Due(Unbounded(c), d.stations[u], i, r)
    ensures var d, p := Double(c, sizes, code, fp, mem, n), Double(c, sizes, code, fp, mem, n + 1);
            var tag := d.stations[u][i].tag;
            && tag >= 0 && Pending(d, tag) && r > 0
            && if r == 1 then Arrived(p, tag) else Due(Unbounded(c), p.stations[u], i, r - 1) && p.stations[u][i].tag == tag
  {
    var d, x := Double(c, sizes, code, fp, mem, n), TraceOf(Reference(code, fp, mem));
    hide Good, Inv, Cycle, RingMachine, TraceOf, Sound, SameResults, SimulatorResults, Stopped, Due, Ticked, IsPipelined, LatencyOf, Arrived, Pending, PowerOn, Reference;
    TraceIs(Reference(code, fp, mem));
    SameFunctions(fp);
    Lockstep(c, sizes, code, fp, mem, n);
    NotStoppedIsInv(Unbounded(c), x, d);
    assert Double(c, sizes, code, fp, mem, n + 1) == Iterate(Unbounded(c), SimulatorResults(fp), code, d);
    SlotStep(Unbounded(c), SimulatorResults(fp), x, d, u, i, r);
  }

  lemma NotStoppedIsInv(c: Config, x: Trace, m: Machine)
    requires Good(c, x, m) && !Stopped(x.p.code, m)
    ensures Inv(c, x, m)
  {
  }

  lemma SlotStep(c: Config, f: ExecFn, x: Trace, m: Machine, u: nat, i: nat, r: nat)
    requires c.linear && c.robSize > 0 && SameResults(f, x.p.alu) && Sound(x) && Inv(c, x, m)
    requires u < UNITS && Due(c, m.stations[u], i, r)
    ensures var p, tag := Cycle(c, f, x.p.code, m), m.stations[u][i].tag;
            && tag >= 0 && Pending(m, tag) && r > 0
            && if r == 1 then Arrived(p, tag) else Due(c, p.stations[u], i, r - 1) && p.stations[u][i].tag == tag
  {
    hide Cycle, Ticked, MayStart, IsPipelined, LatencyOf, UnitsOk, FrontOk, Arrived, Pending, SameResults, Sound, Waits;
    DueTicks(c, f, m.stations[u], i, r);
    SlotTagInWindow(x, m, u, i);
    SlotCycle(c, f, x, m, u, i);
  }

  lemma {:induction false} DoubleOnTime(c: Config, sizes: seq<nat>, code: seq<Instruction>, fp: FloatUnit, mem: seq<Word>,
                                        n: nat, u: nat, i: nat, r: nat)
    requires c.robSize > 0 && |sizes| == UNITS && Admissible(Reference(code, fp, mem)) && u < UNITS
    requires Due(Unbounded(c), Double(c, sizes, code, fp, mem, n).stations[u], i, r)
    requires forall t: nat :: n <= t < n + r ==> !Stopped(code, Double(c, sizes, code, fp, mem, t))
    ensures i < |Double(c, sizes, code, fp, mem, n).stations[u]|
    ensures var tag := Double(c, sizes, code, fp, mem, n).stations[u][i].tag;
            && tag >= 0 && (forall t: nat :: n <= t < n + r ==> Pending(Double(c, sizes, code, fp, mem, t), tag))
            && Arrived(Double(c, sizes, code, fp, mem, n + r), tag)
    decreases r
  {
    hide Double, Stopped, Due, Arrived, Pending, Admissible, Reference, Unbounded;
    DueInRange(Unbounded(c), Double(c, sizes, code, fp, mem, n).stations[u], i, r);
    DoubleSlotCycle(c, sizes, code, fp, mem, n, u, i, r);
    if r > 1 {
      DoubleOnTime(c, sizes, code, fp, mem, n + 1, u, i, r - 1);
    }
  }

  lemma DueInRange(c: Config, es: seq<RsEntry>, i: nat, r: nat)
    requires Due(c, es, i, r)
    ensures i < |es| && r > 0
  {
    hide MayStart;
  }

  // ----- The simulator itself -----

  lemma DueIgnoresNaming(c: Config, es: seq<RsEntry>, i: nat, r: nat)
    requires c.robSize > 0
    ensures Due(c, RingStation(Unbounded(c), es), i, r) <==> Due(Unbounded(c), es, i, r)
  {
    if i < |es| {
      var u := Unbounded(c);
      var t := RingStation(u, es);
      hide Ring;
      forall j | 0 <= j < |es|
        ensures t[j].busy == es[j].busy && t[j].done == es[j].done && t[j].rem == es[j].rem && t[j].op == es[j].op
        ensures Waits(t[j]) == Waits(es[j])
      {
        RingMinus(u, es[j].j.q);
        RingMinus(u, es[j].k.q);
      }
      SameParameters(c, es[i].op);
      hide Waits, RingStation, Unbounded, IsPipelined, LatencyOf;
      assert HeldBack(t, i) <==> HeldBack(es, i);
      assert Preceded(t, i) <==> Preceded(es, i);
    }
  }

  lemma SameParameters(c: Config, op: Opcode)
    ensures IsPipelined(Unbounded(c), op) == IsPipelined(c, op) && LatencyOf(Unbounded(c), op) == LatencyOf(c, op)
  {
  }

  /** Exact timing over every run: the instruction in a slot that is in the middle of an
      operation, or may start one now, has no result in the reorder buffer before the
      remaining cycles, or its latency, are over, and has it then. */
  lemma ResultOnTime(c: Config, sizes: seq<nat>, code: seq<Instruction>, fp: FloatUnit, mem: seq<Word>,
                     n: nat, u: nat, i: nat, r: nat) returns (w: nat)
    requires c.robSize > 0 && |sizes| == UNITS && Admissible(Reference(code, fp, mem)) && u < UNITS
    requires Due(c, After(c, sizes, code, fp, mem, n).stations[u], i, r)
    requires forall t: nat :: n <= t < n + r ==> !Stopped(code, After(c, sizes, code, fp, mem, t))
    ensures i < |After(c, sizes, code, fp, mem, n).stations[u]| && w % c.robSize == After(c, sizes, code, fp, mem, n).stations[u][i].tag
    ensures forall t: nat :: n <= t < n + r ==> Pending(After(c, sizes, code, fp, mem, t), w)
    ensures Arrived(After(c, sizes, code, fp, mem, n + r), w)
  {
    hide Double, After, Stopped, Due, Arrived, Pending, Admissible, Reference, RingStation;
    Imaged(c, sizes, code, fp, mem, n, u);
    DueIgnoresNaming(c, Double(c, sizes, code, fp, mem, n).stations[u], i, r);
    forall t: nat | n <= t < n + r
      ensures !Stopped(code, Double(c, sizes, code, fp, mem, t))
    {
      ImagedProgress(c, sizes, code, fp, mem, t, 0);
    }
    DoubleOnTime(c, sizes, code, fp, mem, n, u, i, r);
    w := Double(c, sizes, code, fp, mem, n).stations[u][i].tag;
    RingTag(c, Double(c, sizes, code, fp, mem, n).stations[u], i);
    forall t: nat | n <= t < n + r
      ensures Pending(After(c, sizes, code, fp, mem, t), w)
    {
      ImagedProgress(c, sizes, code, fp, mem, t, w);
    }
    ImagedProgress(c, sizes, code, fp, mem, n + r, w);
  }

  lemma RingTag(c: Config, es: seq<RsEntry>, i: nat)
    requires c.robSize > 0 && i < |es| && es[i].tag >= 0
    ensures RingStation(Unbounded(c), es)[i].tag == es[i].tag % c.robSize
  {
  }

  lemma Imaged(c: Config, sizes: seq<nat>, code: seq<Instruction>, fp: FloatUnit, mem: seq<Word>, n: nat, u: nat)
    requires c.robSize > 0 && |sizes| == UNITS && Admissible(Reference(code, fp, mem)) && u < UNITS
    ensures After(c, sizes, code, fp, mem, n).stations[u] == RingStation(Unbounded(c), Double(c, sizes, code, fp, mem, n).stations[u])
  {
    hide Double, After, Admissible, Good, TraceOf, RingRat, RingBuffer, RingStation;
    Lockstep(c, sizes, code, fp, mem, n);
  }

  lemma ImagedProgress(c: Config, sizes: seq<nat>, code: seq<Instruction>, fp: FloatUnit, mem: seq<Word>, n: nat, w: nat)
    requires c.robSize > 0 && |sizes| == UNITS && Admissible(Reference(code, fp, mem))
    ensures var m, d := After(c, sizes, code, fp, mem, n), Double(c, sizes, code, fp, mem, n);
            && (Stopped(code, m) <==> Stopped(code, d))
            && (Pending(m, w) <==> Pending(d, w)) && (Arrived(m, w) <==> Arrived(d, w))
  {
    hide Double, After, Admissible, Good, TraceOf, RingRat, RingBuffer, RingStations, Stopped;
    Lockstep(c, sizes, code, fp, mem, n);
    StoppedRing(Unbounded(c), code, Double(c, sizes, code, fp, mem, n));
  }
}
