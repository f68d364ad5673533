/** No runtime assertion of the simulator can fail: tags are slot numbers, each result
    broadcast finds its reorder-buffer entry in flight, and a store that retires is the
    finished head of the load/store buffer. */
module Safety {
  import opened Words
  import opened Instructions
  import opened Renaming
  import opened Buffers
  import opened Machines
  import opened Isa
  import opened Invariants
  import opened BroadcastProofs
  import opened CommitProofs
  import opened DispatchProofs
  import opened Refinement
  import opened Tags
  import opened Simulation
  import opened Reachable

  // ----- Each instruction broadcasts once -----

  ghost predicate TagsUnique(bus: seq<BusResult>) {
    forall i, j :: 0 <= i < j < |bus| ==> bus[i].tag != bus[j].tag
  }

  lemma UniqueConcat(a: seq<BusResult>, b: seq<BusResult>)
    requires TagsUnique(a) && TagsUnique(b)
    requires forall r, s :: r in a && s in b ==> r.tag != s.tag
    ensures TagsUnique(a + b)
  {
    var t := a + b;
    forall i, j | 0 <= i < j < |t|
      ensures t[i].tag != t[j].tag
    {
      if i < |a| <= j {
        assert a[i] in a && b[j - |a|] in b;
      }
    }
  }

  lemma {:induction false} ResultsUnique(es: seq<RsEntry>)
    requires forall i, j :: 0 <= i < j < |es| && es[i].busy && es[j].busy ==> es[i].tag != es[j].tag
    ensures TagsUnique(Results(es))
  {
    if es != [] {
      var rest, e := es[..|es| - 1], es[|es| - 1];
      ResultsUnique(rest);
      if Finished(e) {
        forall r | r in Results(rest)
          ensures r.tag != e.tag
        {
          ResultsAre(rest, r);
          var i :| 0 <= i < |rest| && Finished(rest[i]) && r == BusResult(rest[i].tag, rest[i].result);
          assert rest[i] == es[i];
        }
        UniqueConcat(Results(rest), [BusResult(e.tag, e.result)]);
      }
    }
  }

  lemma StationResultKind(x: Trace, m: Machine, n: nat, r: BusResult)
    requires UnitsOk(x, m, []) && n <= UNITS && r in StationResults(m.stations, n)
    ensures r.tag >= 0 && UnitOf(At(x, r.tag).op) < n
  {
    StationResultsAre(m.stations, n, r);
    var u :| 0 <= u < n && FromStation(m.stations[u], r);
    FromStationOk(x, m.base, m.rob, u, m.stations[u], r);
  }

  lemma OneStationKind(x: Trace, m: Machine, u: nat, r: BusResult)
    requires UnitsOk(x, m, []) && u < UNITS && r in Results(m.stations[u])
    ensures r.tag >= 0 && UnitOf(At(x, r.tag).op) == u
  {
    ResultsAre(m.stations[u], r);
    FromStationOk(x, m.base, m.rob, u, m.stations[u], r);
  }

  lemma {:induction false} StationResultsUnique(x: Trace, m: Machine, n: nat)
    requires UnitsOk(x, m, []) && n <= UNITS
    ensures TagsUnique(StationResults(m.stations, n))
  {
    if n > 0 {
      StationResultsUnique(x, m, n - 1);
      assert StationOk(x, m.base, m.rob, [], n - 1, m.stations[n - 1]);
      ResultsUnique(m.stations[n - 1]);
      hide UnitsOk, StationOk, Results;
      forall r, s | r in StationResults(m.stations, n - 1) && s in Results(m.stations[n - 1])
        ensures r.tag != s.tag
      {
        StationResultKind(x, m, n - 1, r);
        OneStationKind(x, m, n - 1, s);
      }
      UniqueConcat(StationResults(m.stations, n - 1), Results(m.stations[n - 1]));
    }
  }

  lemma LoadResultsUnique(es: seq<LsbEntry>, n: nat)
    requires Ordered(es) && n <= |es|
    ensures TagsUnique(LoadResults(es, n))
  {
  }

  lemma LoadResultKind(x: Trace, m: Machine, r: BusResult)
    requires UnitsOk(x, m, []) && r in LoadResults(m.lsb, LoadRun(m.lsb))
    ensures UnitOf(At(x, r.tag).op) == UNITS
  {
    var n := LoadRun(m.lsb);
    var i :| 0 <= i < n && r == LoadResults(m.lsb, n)[i];
    assert FromLoads(m.lsb, n, r);
    FromLoadsOk(x, m.base, m.rob, m.lsb, r);
  }

  lemma BusUnique(x: Trace, m: Machine)
    requires UnitsOk(x, m, [])
    ensures TagsUnique(BusOf(m))
  {
    var s, l := StationResults(m.stations, UNITS), LoadResults(m.lsb, LoadRun(m.lsb));
    StationResultsUnique(x, m, UNITS);
    LoadResultsUnique(m.lsb, LoadRun(m.lsb));
    hide UnitsOk, StationResults, LoadResults;
    forall a, b | a in s && b in l
      ensures a.tag != b.tag
    {
      StationResultKind(x, m, UNITS, a);
      LoadResultKind(x, m, b);
    }
    UniqueConcat(s, l);
  }

  // ----- Every broadcast write finds its entry in flight -----

  /** Writing the results one after the other, each finds its entry in flight. */
  ghost predicate Writable(c: Config, base: nat, rob: seq<RobEntry>, bus: seq<BusResult>)
    requires c.robSize > 0
  {
    forall i :: 0 <= i < |bus| ==> WritableAt(c, base, rob, bus, i)
  }

  ghost predicate WritableAt(c: Config, base: nat, rob: seq<RobEntry>, bus: seq<BusResult>, i: nat)
    requires c.robSize > 0 && i < |bus|
  {
    && 0 <= bus[i].tag
    && (!c.linear ==> bus[i].tag < c.robSize)
    && Peek(c, base, WriteAll(c, base, rob, bus[..i]), bus[i].tag).state == InFlight
  }

  lemma LinearWritable(c: Config, x: Trace, m: Machine, i: nat)
    requires c.linear && c.robSize > 0 && UnitsOk(x, m, []) && i < |BusOf(m)|
    ensures WritableAt(c, m.base, m.rob, BusOf(m), i)
    ensures InWindow(m.base, m.rob, BusOf(m)[i].tag)
  {
    hide UnitsOk, BusOf, ValueOk, FromStation, FromLoads;
    var bus := BusOf(m);
    assert bus[i] in bus;
    BusValue(x, m, bus[i]);
    BusUnique(x, m);
    var n := bus[i].tag - m.base;
    WriteAllEffect(c, m.base, m.rob, bus[..i], n);
    assert !OnBus(bus[..i], m.base + n);
  }

  lemma RingWritable(c: Config, x: Trace, m: Machine, i: nat)
    requires c.linear && c.robSize > 0 && UnitsOk(x, m, []) && |m.rob| <= c.robSize && i < |BusOf(m)|
    ensures WritableAt(Circular(c), m.base, m.rob, RingBus(c, BusOf(m)), i)
  {
    var bus := BusOf(m);
    LinearWritable(c, x, m, i);
    BusIn(c, x, m);
    hide UnitsOk, BusOf, Peek, Ring;
    assert bus[i] in bus && InSpan(c, m.base, bus[i].tag);
    WriteAllRing(c, m.base, m.rob, bus[..i]);
    assert RingBus(c, bus)[..i] == RingBus(c, bus[..i]);
    PeekRing(c, m.base, WriteAll(c, m.base, m.rob, bus[..i]), bus[i].tag);
    RingRange(c, bus[i].tag);
  }

  lemma RingRange(c: Config, t: nat)
    requires c.robSize > 0
    ensures 0 <= Ring(c, t) < c.robSize
  {
  }

  lemma RingBusWritable(c: Config, x: Trace, m: Machine)
    requires c.linear && c.robSize > 0 && UnitsOk(x, m, []) && |m.rob| <= c.robSize
    ensures Writable(Circular(c), m.base, m.rob, BusOf(RingMachine(c, m)))
  {
    BusRing(c, m);
    hide UnitsOk, BusOf, WritableAt, RingMachine;
    forall i | 0 <= i < |BusOf(m)|
      ensures WritableAt(Circular(c), m.base, m.rob, RingBus(c, BusOf(m)), i)
    {
      RingWritable(c, x, m, i);
    }
  }

  // ----- A store retires from the head of the load/store buffer -----

  ghost predicate StoreAtHead(m: Machine) {
    HeadReady(m) && IsStore(m.rob[0].op) ==> |m.lsb| > 0 && DoneStore(m.lsb[0])
  }

  lemma InvStoreAtHead(c: Config, x: Trace, m: Machine)
    requires c.robSize > 0 && Inv(c, x, m)
    ensures StoreAtHead(RingMachine(c, m))
  {
    hide StationsOk, AllOwned, FrontOk, ArchOk, RingRat, RingStations;
    if HeadReady(m) && IsStore(m.rob[0].op) {
      assert RobEntryOk(x, m.base + 0, m.rob[0]);
      HeadStore(x, m.base, m.rob, m.lsb);
    }
  }

  // ----- Tags are slot numbers -----

  ghost predicate InRange(c: Config, m: Machine) {
    RatInRange(c.robSize, m.rat) && TagsInRange(c.robSize, m.lsb)
  }

  lemma RingRatInRange(c: Config, base: nat, t: Rat)
    requires c.robSize > 0 && RatIn(c, base, t)
    ensures RatInRange(c.robSize, RingRat(c, t))
  {
    forall idx: int, fp: bool | 0 <= idx < 32 && Lookup(RingRat(c, t), idx, fp).valid
      ensures 0 <= Lookup(RingRat(c, t), idx, fp).tag < c.robSize
    {
      assert Lookup(RingRat(c, t), idx, fp) == RingRatEntry(c, Lookup(t, idx, fp));
      RingRange(c, Lookup(t, idx, fp).tag);
    }
  }

  lemma InvIsCoherent(c: Config, x: Trace, m: Machine)
    requires Inv(c, x, m)
    ensures Coherent(c, x, m)
  {
    hide UnitsOk, FrontOk, ArchOk;
  }

  lemma InvInRange(c: Config, x: Trace, m: Machine)
    requires c.robSize > 0 && Inv(c, x, m)
    ensures InRange(c, RingMachine(c, m))
  {
    InvRatIn(c, x, m);
    RingRatInRange(c, m.base, m.rat);
    InvIsCoherent(c, x, m);
    UnitsOfCoherent(c, x, m);
    hide Inv, Coherent, RatInRange, RingRat, RingStations, StationsOk, AllOwned, RobOk;
    forall i | 0 <= i < |m.lsb|
      ensures 0 <= Ring(c, m.lsb[i].tag) < c.robSize
    {
      assert LsbEntryOk(x, m.base, m.rob, m.lsb[i]);
      RingRange(c, m.lsb[i].tag);
    }
  }

  lemma TickInRange(c: Config, f: ExecFn, m: Machine)
    requires InRange(c, m)
    ensures InRange(c, Tick(c, f, m))
  {
    hide RatInRange, StationTick;
  }

  lemma ExecuteInRange(c: Config, f: ExecFn, m: Machine)
    requires c.robSize > 0 && InRange(c, m)
    ensures InRange(c, Execute(c, f, m))
  {
    TickInRange(c, f, m);
    hide RatInRange, StationTick, LsbTick, WriteAll, ReportStores, SnoopStation, CatchAll, BusOf, Drained;
  }

  lemma RatAfterInRange(size: nat, e: RobEntry, t: Rat, tag: int)
    requires RatInRange(size, t)
    ensures RatInRange(size, RatAfter(e, t, tag))
  {
    var r := RatAfter(e, t, tag);
    forall idx: int, fp: bool | 0 <= idx < 32 && Lookup(r, idx, fp).valid
      ensures Lookup(r, idx, fp) == Lookup(t, idx, fp)
    {
    }
  }

  lemma RetireInRange(c: Config, m: Machine)
    requires c.robSize > 0 && InRange(c, m) && HeadReady(m)
    ensures InRange(c, Retire(c, m))
  {
    RetireFields(c, m, Slot(c, m.base));
    RatAfterInRange(c.robSize, m.rob[0], m.rat, Slot(c, m.base));
    hide Slot, Retire, RegsAfter, RatAfter, RatInRange;
  }

  lemma RatWithInRange(size: nat, i: Instruction, t: Rat, tag: int)
    requires RatInRange(size, t) && 0 <= tag < size
    ensures RatInRange(size, RatWith(i, t, tag))
  {
    var r := RatWith(i, t, tag);
    forall idx: int, fp: bool | 0 <= idx < 32 && Lookup(r, idx, fp).valid
      ensures Lookup(r, idx, fp).tag == tag || Lookup(r, idx, fp) == Lookup(t, idx, fp)
    {
    }
  }

  lemma PlaceInRange(c: Config, m: Machine)
    requires !c.linear && c.robSize > 0 && InRange(c, m) && CanDispatch(c, m)
    ensures InRange(c, Place(c, m))
  {
    var tag := Slot(c, m.base + |m.rob|);
    assert 0 <= tag < c.robSize;
    PlaceFields(c, m, tag);
    RatWithInRange(c.robSize, m.iq.buffer[0], m.rat, tag);
    hide Place, Slot, Resolve, Room, RatInRange, RatWith;
  }

  // ----- Every cycle of every run -----

  /** What the assertions met during one pass of the clock loop need. */
  ghost predicate AssertionsHold(c: Config, f: ExecFn, m: Machine)
    requires c.robSize > 0
  {
    var r := Report(c, Tick(c, f, m));
    && InRange(c, m)
    && Writable(c, r.base, r.rob, BusOf(r))
    && StoreAtHead(Execute(c, f, m))
  }

  lemma InvAssertionsHold(c: Config, f: ExecFn, x: Trace, m: Machine)
    requires c.linear && c.robSize > 0 && SameResults(f, x.p.alu) && Sound(x) && Inv(c, x, m)
    ensures AssertionsHold(Circular(c), f, RingMachine(c, m))
  {
    var t := Tick(c, f, m);
    var r := Report(c, t);
    InvUnits(c, x, m);
    TickUnitsOk(c, f, x, m);
    UnitsOkIn(c, x, t, []);
    ReportOk(c, x, t);
    RingBusWritable(c, x, r);
    TickRing(c, f, m);
    ReportMachineRing(c, t);
    InvInRange(c, x, m);
    ExecuteInv(c, f, x, m);
    ExecuteRing(c, f, x, m);
    InvStoreAtHead(c, x, Execute(c, f, m));
    hide Tick, Execute, UnitsOk, Inv, Writable, InRange, StoreAtHead, ReportStores, RingRat, RingStations, RingBuffer;
    InRangeCircular(c, RingMachine(c, m));
  }

  lemma InRangeCircular(c: Config, m: Machine)
    requires InRange(c, m)
    ensures InRange(Circular(c), m)
  {
  }

  /** Assertion safety over whole runs. */
  lemma RunAssertionsHold(c: Config, sizes: seq<nat>, code: seq<Instruction>, fp: FloatUnit, mem: seq<Word>, n: nat)
    requires c.robSize > 0 && |sizes| == UNITS && Admissible(Reference(code, fp, mem))
    requires !After(c, sizes, code, fp, mem, n).halted
    ensures AssertionsHold(Circular(c), SimulatorResults(fp), After(c, sizes, code, fp, mem, n))
  {
    var x := TraceOf(Reference(code, fp, mem));
    var d := Double(c, sizes, code, fp, mem, n);
    hide After, Double, Inv, TraceOf, Sound, SameResults, SimulatorResults, ReferenceResults, RingRat, RingStations, RingBuffer, AssertionsHold;
    RunningDouble(c, sizes, code, fp, mem, n);
    SameFunctions(fp);
    TraceIs(Reference(code, fp, mem));
    InvAssertionsHold(Unbounded(c), SimulatorResults(fp), x, d);
    assert Circular(Unbounded(c)) == Circular(c);
  }
}
