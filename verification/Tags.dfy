/** Reusing reorder-buffer slots as tags loses nothing: the machine with circular
    tags runs in lock step with the machine that never reuses a tag. */
module Tags {
  import opened Words
  import opened Instructions
  import opened ArchState
  import opened Renaming
  import opened Buffers
  import opened Machines
  import opened Isa
  import opened Invariants
  import opened BroadcastProofs
  import opened CommitProofs
  import opened DispatchProofs
  import opened Refinement

  /** The same configuration with slots as tags. */
  function Circular(c: Config): Config { c.(linear := false) }

  /** The slot an unbounded tag is stored in; -1 stays -1. */
  function Ring(c: Config, t: int): int
    requires c.robSize > 0
  {
    if t < 0 then t else t % c.robSize
  }

  // ----- Arithmetic of slots -----

  lemma ModShift(a: nat, b: nat, n: nat)
    requires n > 0 && b <= a < b + n
    ensures (a % n - b) % n == a - b
  {
    var q := a / n;
    assert a == q * n + a % n;
    assert a % n - b == (-q) * n + (a - b) by {
      assert (-q) * n == -(q * n);
    }
    QuotientUnique(a % n - b, n, -q, a - b);
  }

  /** Within one window of the buffer's size, slots identify tags. */
  lemma SlotPosition(c: Config, base: nat, t: nat)
    requires c.linear && c.robSize > 0 && base <= t < base + c.robSize
    ensures Position(Circular(c), base, Ring(c, t)) == Position(c, base, t)
  {
    ModShift(t, base, c.robSize);
  }

  lemma SlotsDiffer(c: Config, base: nat, a: nat, b: nat)
    requires c.linear && c.robSize > 0 && base <= a < base + c.robSize && base <= b < base + c.robSize
    ensures Ring(c, a) == Ring(c, b) <==> a == b
  {
    ModShift(a, base, c.robSize);
    ModShift(b, base, c.robSize);
  }

  // ----- The circular image of a machine -----

  function RingOperand(c: Config, o: Operand): Operand
    requires c.robSize > 0
  {
    o.(q := Ring(c, o.q))
  }

  function RingRs(c: Config, e: RsEntry): RsEntry
    requires c.robSize > 0
  {
    e.(tag := Ring(c, e.tag), j := RingOperand(c, e.j), k := RingOperand(c, e.k))
  }

  function RingStation(c: Config, es: seq<RsEntry>): (r: seq<RsEntry>)
    requires c.robSize > 0
    ensures |r| == |es|
  {
    seq(|es|, i requires 0 <= i < |es| => RingRs(c, es[i]))
  }

  function RingStations(c: Config, s: Stations): Stations
    requires c.robSize > 0
  {
    seq(UNITS, u requires 0 <= u < UNITS => RingStation(c, s[u]))
  }

  function RingLsb(c: Config, e: LsbEntry): LsbEntry
    requires c.robSize > 0
  {
    e.(tag := Ring(c, e.tag), j := RingOperand(c, e.j), k := RingOperand(c, e.k))
  }

  function RingBuffer(c: Config, es: seq<LsbEntry>): (r: seq<LsbEntry>)
    requires c.robSize > 0
    ensures |r| == |es|
  {
    seq(|es|, i requires 0 <= i < |es| => RingLsb(c, es[i]))
  }

  function RingResult(c: Config, r: BusResult): BusResult
    requires c.robSize > 0
  {
    r.(tag := Ring(c, r.tag))
  }

  function RingBus(c: Config, bus: seq<BusResult>): (r: seq<BusResult>)
    requires c.robSize > 0
    ensures |r| == |bus|
  {
    seq(|bus|, i requires 0 <= i < |bus| => RingResult(c, bus[i]))
  }

  function RingRatEntry(c: Config, e: RatEntry): RatEntry
    requires c.robSize > 0
  {
    e.(tag := Ring(c, e.tag))
  }

  function RingBank(c: Config, b: RatBank): RatBank
    requires c.robSize > 0
  {
    seq(32, i requires 0 <= i < 32 => RingRatEntry(c, b[i]))
  }

  function RingRat(c: Config, t: Rat): Rat
    requires c.robSize > 0
  {
    Rat(RingBank(c, t.x), RingBank(c, t.f))
  }

  function RingMachine(c: Config, m: Machine): Machine
    requires c.robSize > 0
  {
    m.(rat := RingRat(c, m.rat), stations := RingStations(c, m.stations), lsb := RingBuffer(c, m.lsb))
  }

  // ----- Which tags occur -----

  ghost predicate InSpan(c: Config, base: nat, t: int) { base <= t < base + c.robSize }

  ghost predicate OperandIn(c: Config, base: nat, o: Operand) { o.q == -1 || InSpan(c, base, o.q) }

  ghost predicate RsIn(c: Config, base: nat, e: RsEntry) {
    e.busy ==> InSpan(c, base, e.tag) && OperandIn(c, base, e.j) && OperandIn(c, base, e.k)
  }

  ghost predicate LsbIn(c: Config, base: nat, e: LsbEntry) {
    InSpan(c, base, e.tag) && OperandIn(c, base, e.j) && OperandIn(c, base, e.k)
  }

  ghost predicate UnitsIn(c: Config, m: Machine) {
    && |m.rob| <= c.robSize
    && (forall u, i :: 0 <= u < UNITS && 0 <= i < |m.stations[u]| ==> RsIn(c, m.base, m.stations[u][i]))
    && (forall i :: 0 <= i < |m.lsb| ==> LsbIn(c, m.base, m.lsb[i]))
  }

  lemma OperandsIn(c: Config, x: Trace, k: nat, rob: seq<RobEntry>, bus: seq<BusResult>, n: nat, o1: Operand, o2: Operand)
    requires OperandsOk(x, k, rob, bus, n, o1, o2) && InWindow(k, rob, n) && |rob| <= c.robSize
    ensures OperandIn(c, k, o1) && OperandIn(c, k, o2)
  {
  }

  lemma UnitsOkIn(c: Config, x: Trace, m: Machine, bus: seq<BusResult>)
    requires UnitsOk(x, m, bus) && |m.rob| <= c.robSize
    ensures UnitsIn(c, m)
  {
    hide OperandsOk, AllOwned, RobOk;
    forall u, i | 0 <= u < UNITS && 0 <= i < |m.stations[u]|
      ensures RsIn(c, m.base, m.stations[u][i])
    {
      var es := m.stations[u];
      assert StationOk(x, m.base, m.rob, bus, u, es);
      if es[i].busy {
        assert RsEntryOk(x, m.base, m.rob, u, es[i]);
        OperandsIn(c, x, m.base, m.rob, bus, es[i].tag, es[i].j, es[i].k);
      }
    }
    forall i | 0 <= i < |m.lsb|
      ensures LsbIn(c, m.base, m.lsb[i])
    {
      assert LsbEntryOk(x, m.base, m.rob, m.lsb[i]);
      OperandsIn(c, x, m.base, m.rob, bus, m.lsb[i].tag, m.lsb[i].j, m.lsb[i].k);
    }
  }

  // ----- Phase 1 does not look at tags -----

  lemma CountDownRing(c: Config, f: ExecFn, es: seq<RsEntry>)
    requires c.robSize > 0
    ensures CountDownAll(f, RingStation(c, es)) == RingStation(c, CountDownAll(f, es))
  {
  }

  lemma StartsRing(c: Config, es: seq<RsEntry>, i: nat)
    requires c.robSize > 0 && i < |es|
    ensures Starts(Circular(c), RingStation(c, es), i) <==> Starts(c, es, i)
  {
    var r := RingStation(c, es);
    assert forall j :: 0 <= j < |es| ==> (Executing(r[j]) <==> Executing(es[j])) && r[j].op == es[j].op;
    assert Startable(r[i]) <==> Startable(es[i]) by { RingMinus(c, es[i].j.q); RingMinus(c, es[i].k.q); }
    if UnitBusy(es, i) {
      var j :| 0 <= j < |es| && j != i && Executing(es[j]) && es[j].op == es[i].op;
      assert Executing(r[j]);
    }
    if UnitBusy(r, i) {
      var j :| 0 <= j < |r| && j != i && Executing(r[j]) && r[j].op == r[i].op;
      assert Executing(es[j]);
    }
  }

  lemma RingMinus(c: Config, t: int)
    requires c.robSize > 0
    ensures Ring(c, t) == -1 <==> t == -1
  {
  }

  lemma StartedRing(c: Config, f: ExecFn, e: RsEntry)
    requires c.robSize > 0
    ensures Started(Circular(c), f, RingRs(c, e)) == RingRs(c, Started(c, f, e))
  {
  }

  lemma {:induction false} StartUpToRing(c: Config, f: ExecFn, es: seq<RsEntry>, n: nat)
    requires c.robSize > 0 && n <= |es|
    ensures StartUpTo(Circular(c), f, RingStation(c, es), n) == RingStation(c, StartUpTo(c, f, es, n))
  {
    if n > 0 {
      hide Starts, Started, RingRs;
      StartUpToRing(c, f, es, n - 1);
      var p := StartUpTo(c, f, es, n - 1);
      StartsRing(c, p, n - 1);
      StartedRing(c, f, p[n - 1]);
    }
  }

  lemma ScanRing(c: Config, es: seq<LsbEntry>, a: Word, n: nat)
    requires c.robSize > 0 && n <= |es|
    ensures ScanStores(RingBuffer(c, es), a, n) == ScanStores(es, a, n)
  {
  }

  lemma ResolvedRing(c: Config, es: seq<LsbEntry>)
    requires c.robSize > 0
    ensures Resolved(RingBuffer(c, es)) == RingBuffer(c, Resolved(es))
  {
    forall i | 0 <= i < |es|
      ensures CloseStore(Address(RingLsb(c, es[i]))) == RingLsb(c, CloseStore(Address(es[i])))
    {
      RingMinus(c, es[i].j.q);
      RingMinus(c, es[i].k.q);
    }
  }

  lemma StartLoadRing(c: Config, es: seq<LsbEntry>, mem: seq<Word>, i: nat)
    requires c.robSize > 0 && i < |es|
    ensures Access(StartLoad(Circular(c), RingBuffer(c, es), mem, i), mem) == RingLsb(c, Access(StartLoad(c, es, mem, i), mem))
  {
    ScanRing(c, es, es[i].addr, i);
  }

  lemma LsbTickRing(c: Config, es: seq<LsbEntry>, mem: seq<Word>)
    requires c.robSize > 0
    ensures LsbTick(Circular(c), RingBuffer(c, es), mem) == RingBuffer(c, LsbTick(c, es, mem))
  {
    hide StartLoad, Access, RingLsb;
    ResolvedRing(c, es);
    forall i | 0 <= i < |es| {
      StartLoadRing(c, Resolved(es), mem, i);
    }
  }

  lemma StationTickRing(c: Config, f: ExecFn, es: seq<RsEntry>)
    requires c.robSize > 0
    ensures StationTick(Circular(c), f, RingStation(c, es)) == RingStation(c, StationTick(c, f, es))
  {
    CountDownRing(c, f, es);
    StartUpToRing(c, f, CountDownAll(f, es), |es|);
  }

  lemma TickRing(c: Config, f: ExecFn, m: Machine)
    requires c.robSize > 0
    ensures Tick(Circular(c), f, RingMachine(c, m)) == RingMachine(c, Tick(c, f, m))
  {
    hide RingStation, StationTick, RingBuffer, LsbTick;
    forall u | 0 <= u < UNITS {
      StationTickRing(c, f, m.stations[u]);
    }
    LsbTickRing(c, m.lsb, m.mem);
  }

  // ----- Phase 2 -----

  lemma PeekRing(c: Config, base: nat, rob: seq<RobEntry>, t: int)
    requires c.linear && c.robSize > 0 && InSpan(c, base, t)
    ensures Peek(Circular(c), base, rob, Ring(c, t)) == Peek(c, base, rob, t)
    ensures forall v :: WriteResult(Circular(c), base, rob, Ring(c, t), v) == WriteResult(c, base, rob, t, v)
  {
    SlotPosition(c, base, t);
  }

  lemma {:induction false} ReportRing(c: Config, base: nat, rob: seq<RobEntry>, es: seq<LsbEntry>, n: nat)
    requires c.linear && c.robSize > 0 && n <= |es|
    requires forall i :: 0 <= i < |es| ==> InSpan(c, base, es[i].tag)
    ensures ReportStores(Circular(c), base, rob, RingBuffer(c, es), n) == ReportStores(c, base, rob, es, n)
  {
    if n > 0 {
      hide Peek, WriteResult, Ring;
      ReportRing(c, base, rob, es, n - 1);
      PeekRing(c, base, ReportStores(c, base, rob, es, n - 1), es[n - 1].tag);
    }
  }

  // ----- Phase 3 -----

  lemma {:induction false} ResultsRing(c: Config, es: seq<RsEntry>)
    requires c.robSize > 0
    ensures Results(RingStation(c, es)) == RingBus(c, Results(es))
    decreases |es|
  {
    if es != [] {
      hide Ring;
      var last := |es| - 1;
      ResultsRing(c, es[..last]);
      assert RingStation(c, es)[..last] == RingStation(c, es[..last]);
    }
  }

  lemma {:induction false} StationResultsRing(c: Config, s: Stations, n: nat)
    requires c.robSize > 0 && n <= UNITS
    ensures StationResults(RingStations(c, s), n) == RingBus(c, StationResults(s, n))
  {
    hide RingStation, Results, RingResult;
    if n > 0 {
      StationResultsRing(c, s, n - 1);
      ResultsRing(c, s[n - 1]);
    }
  }

  lemma {:induction false} LoadRunRing(c: Config, es: seq<LsbEntry>)
    requires c.robSize > 0
    ensures LoadRun(RingBuffer(c, es)) == LoadRun(es)
    decreases |es|
  {
    hide Ring;
    if es != [] && DoneLoad(es[0]) {
      LoadRunRing(c, es[1..]);
      assert RingBuffer(c, es)[1..] == RingBuffer(c, es[1..]);
    }
  }

  lemma BusRing(c: Config, m: Machine)
    requires c.robSize > 0
    ensures BusOf(RingMachine(c, m)) == RingBus(c, BusOf(m))
  {
    hide StationResults, RingStations, Ring, LoadRun;
    StationResultsRing(c, m.stations, UNITS);
    LoadRunRing(c, m.lsb);
  }

  lemma {:induction false} WriteAllRing(c: Config, base: nat, rob: seq<RobEntry>, bus: seq<BusResult>)
    requires c.linear && c.robSize > 0
    requires forall r :: r in bus ==> InSpan(c, base, r.tag)
    ensures WriteAll(Circular(c), base, rob, RingBus(c, bus)) == WriteAll(c, base, rob, bus)
    decreases |bus|
  {
    if bus != [] {
      hide WriteResult, Ring;
      var last := |bus| - 1;
      WriteAllRing(c, base, rob, bus[..last]);
      assert RingBus(c, bus)[..last] == RingBus(c, bus[..last]);
      PeekRing(c, base, WriteAll(c, base, rob, bus[..last]), bus[last].tag);
    }
  }

  lemma DrainedRing(c: Config, es: seq<RsEntry>)
    requires c.robSize > 0
    ensures Drained(RingStation(c, es)) == RingStation(c, Drained(es))
  {
  }

  lemma BroadcastRing(c: Config, m: Machine)
    requires c.linear && c.robSize > 0
    requires forall r :: r in BusOf(m) ==> InSpan(c, m.base, r.tag)
    ensures Broadcast(Circular(c), RingMachine(c, m)) == RingMachine(c, Broadcast(c, m))
  {
    hide WriteAll, BusOf, RingBus, RingStation, Drained, Ring;
    BusRing(c, m);
    WriteAllRing(c, m.base, m.rob, BusOf(m));
    LoadRunRing(c, m.lsb);
    forall u | 0 <= u < UNITS {
      DrainedRing(c, m.stations[u]);
    }
    assert RingBuffer(c, m.lsb)[LoadRun(m.lsb)..] == RingBuffer(c, m.lsb[LoadRun(m.lsb)..]);
  }

  // ----- Phase 4 -----

  /** A waiting operand hears exactly the results it waits for. */
  lemma {:induction false} CatchRing(c: Config, base: nat, o: Operand, bus: seq<BusResult>)
    requires c.linear && c.robSize > 0 && OperandIn(c, base, o)
    requires forall r :: r in bus ==> InSpan(c, base, r.tag)
    ensures CatchAll(RingOperand(c, o), RingBus(c, bus)) == RingOperand(c, CatchAll(o, bus))
    ensures OperandIn(c, base, CatchAll(o, bus))
    decreases |bus|
  {
    if bus != [] {
      var last := |bus| - 1;
      CatchRing(c, base, o, bus[..last]);
      assert RingBus(c, bus)[..last] == RingBus(c, bus[..last]);
      CatchOneRing(c, base, CatchAll(o, bus[..last]), bus[last]);
    }
  }

  lemma CatchOneRing(c: Config, base: nat, o: Operand, r: BusResult)
    requires c.linear && c.robSize > 0 && OperandIn(c, base, o) && InSpan(c, base, r.tag)
    ensures Catch(RingOperand(c, o), RingResult(c, r)) == RingOperand(c, Catch(o, r))
  {
    if o.q != -1 {
      SlotsDiffer(c, base, o.q, r.tag);
    }
  }

  lemma SnoopRsRing(c: Config, base: nat, e: RsEntry, bus: seq<BusResult>)
    requires c.linear && c.robSize > 0 && RsIn(c, base, e)
    requires forall r :: r in bus ==> InSpan(c, base, r.tag)
    ensures SnoopRs(RingRs(c, e), RingBus(c, bus)) == RingRs(c, SnoopRs(e, bus))
  {
    if e.busy {
      hide Ring;
      CatchRing(c, base, e.j, bus);
      CatchRing(c, base, e.k, bus);
    }
  }

  lemma SnoopLsbRing(c: Config, base: nat, e: LsbEntry, bus: seq<BusResult>)
    requires c.linear && c.robSize > 0 && LsbIn(c, base, e)
    requires forall r :: r in bus ==> InSpan(c, base, r.tag)
    ensures SnoopLsb(RingLsb(c, e), RingBus(c, bus)) == RingLsb(c, SnoopLsb(e, bus))
  {
    hide Ring;
    CatchRing(c, base, e.j, bus);
    CatchRing(c, base, e.k, bus);
  }

  lemma SnoopRing(c: Config, m: Machine, bus: seq<BusResult>)
    requires c.linear && c.robSize > 0 && UnitsIn(c, m)
    requires forall r :: r in bus ==> InSpan(c, m.base, r.tag)
    ensures Snoop(RingMachine(c, m), RingBus(c, bus)) == RingMachine(c, Snoop(m, bus))
  {
    hide RingBus, RingRs, RingLsb, SnoopRs, SnoopLsb, RsIn, LsbIn, RingRat;
    forall u, i | 0 <= u < UNITS && 0 <= i < |m.stations[u]| {
      SnoopRsRing(c, m.base, m.stations[u][i], bus);
    }
    forall u | 0 <= u < UNITS
      ensures SnoopStation(RingStation(c, m.stations[u]), RingBus(c, bus)) == RingStation(c, SnoopStation(m.stations[u], bus))
    {
    }
    forall i | 0 <= i < |m.lsb| {
      SnoopLsbRing(c, m.base, m.lsb[i], bus);
    }
    assert SnoopBuffer(RingBuffer(c, m.lsb), RingBus(c, bus)) == RingBuffer(c, SnoopBuffer(m.lsb, bus));
  }

  lemma BusIn(c: Config, x: Trace, m: Machine)
    requires UnitsOk(x, m, []) && |m.rob| <= c.robSize
    ensures forall r :: r in BusOf(m) ==> InSpan(c, m.base, r.tag)
  {
    hide UnitsOk, BusOf;
    forall r | r in BusOf(m)
      ensures InSpan(c, m.base, r.tag)
    {
      BusValue(x, m, r);
    }
  }

  /** Phases 1 to 4. */
  lemma ExecuteRing(c: Config, f: ExecFn, x: Trace, m: Machine)
    requires c.linear && c.robSize > 0 && SameResults(f, x.p.alu) && Sound(x)
    requires UnitsOk(x, m, []) && m.mem == T(x, m.base).mem && |m.rob| <= c.robSize
    ensures Execute(Circular(c), f, RingMachine(c, m)) == RingMachine(c, Execute(c, f, m))
  {
    var t := Tick(c, f, m);
    var r := Report(c, t);
    var b := Broadcast(c, r);
    TickUnitsOk(c, f, x, m);
    ReportOk(c, x, t);
    BroadcastOk(c, x, r);
    TickRing(c, f, m);
    UnitsOkIn(c, x, t, []);
    ReportMachineRing(c, t);
    BusIn(c, x, r);
    BroadcastRing(c, r);
    BusRing(c, r);
    UnitsOkIn(c, x, b, BusOf(r));
    hide Tick, ReportStores, UnitsOk, UnitsIn, RingRat, RingStations, RingBuffer, BusOf, RingBus;
    assert |r.rob| == |b.rob|;
    SnoopRing(c, b, BusOf(r));
  }

  lemma ReportMachineRing(c: Config, m: Machine)
    requires c.linear && c.robSize > 0 && UnitsIn(c, m)
    ensures Report(Circular(c), RingMachine(c, m)) == RingMachine(c, Report(c, m))
  {
    hide ReportStores, RingStations, RingRat;
    ReportRing(c, m.base, m.rob, m.lsb, |m.lsb|);
  }

  // ----- Phase 5 -----

  ghost predicate RatIn(c: Config, base: nat, t: Rat) {
    forall idx: int, fp: bool :: 0 <= idx < 32 && Lookup(t, idx, fp).valid ==> InSpan(c, base, Lookup(t, idx, fp).tag)
  }

  lemma InvRatIn(c: Config, x: Trace, m: Machine)
    requires Inv(c, x, m)
    ensures RatIn(c, m.base, m.rat)
  {
    hide UnitsOk, ControlOk, QueueOk, ArchOk;
    forall idx: int, fp: bool | 0 <= idx < 32 && Lookup(m.rat, idx, fp).valid
      ensures InSpan(c, m.base, Lookup(m.rat, idx, fp).tag)
    {
      assert RatEntryOk(x, m.base, m.base + |m.rob|, Lookup(m.rat, idx, fp), idx, fp);
    }
  }

  lemma SetEntryRing(c: Config, t: Rat, idx: int, fp: bool, e: RatEntry)
    requires c.robSize > 0 && 0 <= idx < 32
    ensures SetEntry(RingRat(c, t), idx, fp, RingRatEntry(c, e)) == RingRat(c, SetEntry(t, idx, fp, e))
  {
    var r := RingRat(c, SetEntry(t, idx, fp, e));
    assert SetEntry(RingRat(c, t), idx, fp, RingRatEntry(c, e)).x == r.x;
    assert SetEntry(RingRat(c, t), idx, fp, RingRatEntry(c, e)).f == r.f;
  }

  lemma ReleaseRing(c: Config, base: nat, t: Rat, idx: int, fp: bool)
    requires c.linear && c.robSize > 0 && 0 <= idx < 32 && RatIn(c, base, t)
    ensures Release(RingRat(c, t), idx, fp, Slot(Circular(c), base)) == RingRat(c, Release(t, idx, fp, Slot(c, base)))
  {
    var e := Lookup(t, idx, fp);
    if e.valid {
      SlotsDiffer(c, base, e.tag, base);
    }
    SetEntryRing(c, t, idx, fp, UNMAPPED);
    assert Lookup(RingRat(c, t), idx, fp) == RingRatEntry(c, e);
    hide RingRat, SetEntry;
  }

  lemma RatAfterRing(c: Config, base: nat, e: RobEntry, t: Rat)
    requires c.linear && c.robSize > 0 && RatIn(c, base, t)
    ensures RatAfter(e, RingRat(c, t), Slot(Circular(c), base)) == RingRat(c, RatAfter(e, t, Slot(c, base)))
  {
    if e.rd >= 0 {
      ReleaseRing(c, base, t, e.rd, if IsJump(e.op) then false else e.rdFp);
    }
    hide Slot, Release, RingRat, RatIn;
  }

  lemma LsbAfterRing(c: Config, e: RobEntry, es: seq<LsbEntry>)
    requires c.robSize > 0
    ensures LsbAfter(e, RingBuffer(c, es)) == RingBuffer(c, LsbAfter(e, es))
    ensures |es| > 0 ==> RingBuffer(c, es)[0].addr == es[0].addr && RingBuffer(c, es)[0].k.v == es[0].k.v
  {
  }

  lemma RetireRing(c: Config, m: Machine)
    requires c.linear && c.robSize > 0 && HeadReady(m) && RatIn(c, m.base, m.rat)
    ensures Retire(Circular(c), RingMachine(c, m)) == RingMachine(c, Retire(c, m))
  {
    hide Retire, RatAfter, LsbAfter, RegsAfter, RingRat, RingStations, RingBuffer, Slot, RatIn, Seek, WriteMem;
    RetireFields(c, m, Slot(c, m.base));
    RetireFields(Circular(c), RingMachine(c, m), Slot(Circular(c), m.base));
    RatAfterRing(c, m.base, m.rob[0], m.rat);
    LsbAfterRing(c, m.rob[0], m.lsb);
  }

  // ----- Phase 6 -----

  lemma RenameRing(c: Config, t: Rat, idx: int, fp: bool, n: nat)
    requires c.linear && c.robSize > 0 && 0 <= idx < 32
    ensures Rename(RingRat(c, t), idx, fp, Slot(Circular(c), n)) == RingRat(c, Rename(t, idx, fp, Slot(c, n)))
  {
    SetEntryRing(c, t, idx, fp, RatEntry(true, n));
    hide RingRat, SetEntry;
  }

  lemma ResolveRing(c: Config, src: RegField, fp: bool, rat: Rat, regs: Regs, base: nat, rob: seq<RobEntry>)
    requires c.linear && c.robSize > 0 && RatIn(c, base, rat)
    ensures Resolve(Circular(c), src, fp, RingRat(c, rat), regs, base, rob) == RingOperand(c, Resolve(c, src, fp, rat, regs, base, rob))
  {
    if src >= 0 {
      var e := Lookup(rat, src, fp);
      assert Lookup(RingRat(c, rat), src, fp) == RingRatEntry(c, e);
      if e.valid {
        PeekRing(c, base, rob, e.tag);
      }
      hide RingRat, Peek;
    }
  }

  lemma {:induction false} FirstFreeRing(c: Config, es: seq<RsEntry>, n: nat)
    requires c.robSize > 0 && n <= |es| && exists i :: n <= i < |es| && !es[i].busy
    requires exists i :: n <= i < |es| && !RingStation(c, es)[i].busy
    ensures FirstFree(RingStation(c, es), n) == FirstFree(es, n)
    decreases |es| - n
  {
    hide Ring;
    if es[n].busy {
      var i :| n <= i < |es| && !es[i].busy;
      assert !RingStation(c, es)[i].busy;
      FirstFreeRing(c, es, n + 1);
    }
  }

  lemma HasFreeRing(c: Config, es: seq<RsEntry>)
    requires c.robSize > 0
    ensures HasFree(RingStation(c, es)) <==> HasFree(es)
    ensures HasFree(es) ==> FirstFree(RingStation(c, es), 0) == FirstFree(es, 0)
  {
    var r := RingStation(c, es);
    assert forall i :: 0 <= i < |es| ==> r[i].busy == es[i].busy;
    if HasFree(es) {
      var i :| 0 <= i < |es| && !es[i].busy;
      assert !r[i].busy;
      FirstFreeRing(c, es, 0);
    }
  }

  lemma CanDispatchRing(c: Config, m: Machine)
    requires c.robSize > 0
    ensures CanDispatch(Circular(c), RingMachine(c, m)) <==> CanDispatch(c, m)
  {
    hide RingStation, HasFree, Ring, RingRat;
    if m.iq.buffer != [] && !IsMemory(m.iq.buffer[0].op) {
      HasFreeRing(c, m.stations[UnitOf(m.iq.buffer[0].op)]);
    }
  }

  lemma InsertRing(c: Config, s: Stations, u: nat, slot: nat, e: RsEntry)
    requires c.robSize > 0 && u < UNITS && slot < |s[u]|
    ensures RingStations(c, s)[u := RingStations(c, s)[u][slot := RingRs(c, e)]] == RingStations(c, s[u := s[u][slot := e]])
  {
    hide RingRs;
    assert RingStation(c, s[u])[slot := RingRs(c, e)] == RingStation(c, s[u][slot := e]);
  }

  lemma RatWithRing(c: Config, i: Instruction, t: Rat, n: nat)
    requires c.linear && c.robSize > 0
    ensures RatWith(i, RingRat(c, t), Slot(Circular(c), n)) == RingRat(c, RatWith(i, t, Slot(c, n)))
  {
    hide Rename, RingRat, Slot;
    if i.rd >= 0 {
      RenameRing(c, t, i.rd, i.rdFp, n);
    }
  }

  lemma NewLsbRing(c: Config, m: Machine, rob: seq<RobEntry>, i: Instruction, n: nat)
    requires c.linear && c.robSize > 0 && RatIn(c, m.base, m.rat)
    ensures var t := RingRat(c, m.rat);
            RingBuffer(c, m.lsb) + [NewLsbEntry(i, Slot(Circular(c), n), Resolve(Circular(c), i.rs1, false, t, m.regs, m.base, rob),
                                                Resolve(Circular(c), i.rs2, i.rs2Fp, t, m.regs, m.base, rob))]
            == RingBuffer(c, m.lsb + [NewLsbEntry(i, Slot(c, n), Resolve(c, i.rs1, false, m.rat, m.regs, m.base, rob),
                                                  Resolve(c, i.rs2, i.rs2Fp, m.rat, m.regs, m.base, rob))])
  {
    hide Resolve, RingRat, RatIn;
    ResolveRing(c, i.rs1, false, m.rat, m.regs, m.base, rob);
    ResolveRing(c, i.rs2, i.rs2Fp, m.rat, m.regs, m.base, rob);
  }

  lemma NewRsRing(c: Config, m: Machine, rob: seq<RobEntry>, i: Instruction, n: nat)
    requires c.linear && c.robSize > 0 && RatIn(c, m.base, m.rat)
    ensures var t := RingRat(c, m.rat);
            NewRsEntry(i, Slot(Circular(c), n), Resolve(Circular(c), i.rs1, i.rs1Fp, t, m.regs, m.base, rob),
                       Resolve(Circular(c), i.rs2, i.rs2Fp, t, m.regs, m.base, rob))
            == RingRs(c, NewRsEntry(i, Slot(c, n), Resolve(c, i.rs1, i.rs1Fp, m.rat, m.regs, m.base, rob),
                                    Resolve(c, i.rs2, i.rs2Fp, m.rat, m.regs, m.base, rob)))
  {
    hide Resolve, RingRat, RatIn;
    ResolveRing(c, i.rs1, i.rs1Fp, m.rat, m.regs, m.base, rob);
    ResolveRing(c, i.rs2, i.rs2Fp, m.rat, m.regs, m.base, rob);
  }

  lemma DispatchLsbRing(c: Config, m: Machine, r: Machine)
    requires c.linear && c.robSize > 0 && CanDispatch(c, m) && RatIn(c, m.base, m.rat)
    requires r == RingMachine(c, m) && CanDispatch(Circular(c), r) && IsMemory(m.iq.buffer[0].op)
    ensures Dispatch(Circular(c), r).lsb == RingBuffer(c, Dispatch(c, m).lsb)
    ensures Dispatch(Circular(c), r).stations == RingStations(c, Dispatch(c, m).stations)
  {
    hide Dispatch, Resolve, RingRat, RingStations, RingBuffer, Slot, RatIn, NewLsbEntry, NewRobEntry, Room, UnitOf;
    var n := m.base + |m.rob|;
    assert r.stations == RingStations(c, m.stations) && r.lsb == RingBuffer(c, m.lsb) && r.rat == RingRat(c, m.rat);
    assert r.base == m.base && r.rob == m.rob && r.iq == m.iq && r.regs == m.regs;
    hide RingMachine;
    DispatchUnits(c, m, Slot(c, n));
    DispatchUnits(Circular(c), r, Slot(Circular(c), n));
    assert Dispatch(Circular(c), r).rob == Dispatch(c, m).rob by {
      DispatchFields(c, m, Slot(c, n));
      DispatchFields(Circular(c), r, Slot(Circular(c), n));
    }
    NewLsbRing(c, m, Dispatch(c, m).rob, m.iq.buffer[0], n);
  }

  lemma DispatchStationRing(c: Config, m: Machine)
    requires c.linear && c.robSize > 0 && CanDispatch(c, m) && RatIn(c, m.base, m.rat)
    requires CanDispatch(Circular(c), RingMachine(c, m)) && !IsMemory(m.iq.buffer[0].op)
    ensures Dispatch(Circular(c), RingMachine(c, m)).lsb == RingBuffer(c, Dispatch(c, m).lsb)
    ensures Dispatch(Circular(c), RingMachine(c, m)).stations == RingStations(c, Dispatch(c, m).stations)
  {
    var i, n, rob := m.iq.buffer[0], m.base + |m.rob|, Dispatch(c, m).rob;
    var u := UnitOf(i.op);
    HasFreeRing(c, m.stations[u]);
    assert RingStations(c, m.stations)[u] == RingStation(c, m.stations[u]);
    hide Dispatch, Resolve, RingRat, RingStations, RingBuffer, RingStation, Slot, RatIn, NewRsEntry, NewLsbEntry, NewRobEntry, RingRs;
    DispatchFields(c, m, Slot(c, n));
    DispatchFields(Circular(c), RingMachine(c, m), Slot(Circular(c), n));
    DispatchUnits(c, m, Slot(c, n));
    DispatchUnits(Circular(c), RingMachine(c, m), Slot(Circular(c), n));
    NewRsRing(c, m, rob, i, n);
    var e := NewRsEntry(i, Slot(c, n), Resolve(c, i.rs1, i.rs1Fp, m.rat, m.regs, m.base, rob), Resolve(c, i.rs2, i.rs2Fp, m.rat, m.regs, m.base, rob));
    InsertRing(c, m.stations, u, FirstFree(m.stations[u], 0), e);
  }

  lemma DispatchRestRing(c: Config, m: Machine, r: Machine)
    requires c.linear && c.robSize > 0 && CanDispatch(c, m)
    requires r == RingMachine(c, m) && CanDispatch(Circular(c), r)
    ensures var d, p := Dispatch(Circular(c), r), Dispatch(c, m);
            && d.rat == RingRat(c, p.rat)
            && d.regs == p.regs && d.mem == p.mem && d.base == p.base && d.rob == p.rob
            && d.iq == p.iq && d.branchInFlight == p.branchInFlight && d.halted == p.halted
  {
    hide Dispatch, RingRat, RingStations, RingBuffer, Slot, RatWith, NewRobEntry, Room, Seek;
    var n := m.base + |m.rob|;
    DispatchFields(c, m, Slot(c, n));
    DispatchFields(Circular(c), r, Slot(Circular(c), n));
    RatWithRing(c, m.iq.buffer[0], m.rat, n);
  }

  lemma DispatchRing(c: Config, m: Machine)
    requires c.linear && c.robSize > 0 && CanDispatch(c, m) && RatIn(c, m.base, m.rat)
    ensures CanDispatch(Circular(c), RingMachine(c, m))
    ensures Dispatch(Circular(c), RingMachine(c, m)) == RingMachine(c, Dispatch(c, m))
  {
    hide Dispatch, RingRat, RingStations, RingBuffer, RatIn, Room;
    CanDispatchRing(c, m);
    DispatchRestRing(c, m, RingMachine(c, m));
    if IsMemory(m.iq.buffer[0].op) {
      DispatchLsbRing(c, m, RingMachine(c, m));
    } else {
      DispatchStationRing(c, m);
    }
  }

  lemma {:induction false} DispatchUpToRing(c: Config, x: Trace, m: Machine, n: nat)
    requires c.linear && c.robSize > 0 && WellFormed(x) && Inv(c, x, m) && !m.branchInFlight
    ensures DispatchUpTo(Circular(c), RingMachine(c, m), n) == RingMachine(c, DispatchUpTo(c, m, n))
    decreases n
  {
    hide Inv, Dispatch, RingRat, RingStations, RingBuffer, CanDispatch, RatIn;
    CanDispatchRing(c, m);
    if n > 0 && CanDispatch(c, m) {
      InvRatIn(c, x, m);
      DispatchRing(c, m);
      CanDispatchNonEmpty(c, m);
      DispatchOk(c, x, m);
      if !IsControl(m.iq.buffer[0].op) {
        DispatchUpToRing(c, x, Dispatch(c, m), n - 1);
      }
    }
  }

  lemma {:induction false} FetchRing(c: Config, code: seq<Instruction>, q: Queue, n: nat)
    ensures FetchUpTo(Circular(c), code, q, n) == FetchUpTo(c, code, q, n)
  {
    if n > 0 {
      FetchRing(c, code, q, n - 1);
    }
  }

  lemma IssueRing(c: Config, x: Trace, m: Machine)
    requires c.linear && c.robSize > 0 && WellFormed(x) && Inv(c, x, m)
    ensures Issue(Circular(c), x.p.code, RingMachine(c, m)) == RingMachine(c, Issue(c, x.p.code, m))
  {
    FetchRing(c, x.p.code, m.iq, c.width);
    InvNotHalted(c, x, m);
    if !m.branchInFlight {
      FetchedInv(c, x, m);
      hide Inv, DispatchUpTo, RingRat, RingStations, RingBuffer;
      DispatchUpToRing(c, x, Fetch(c, x.p.code, m), c.width);
    }
  }

  // ----- Whole cycles and runs -----

  lemma HaltStopsIssue(c: Config, code: seq<Instruction>, m: Machine)
    requires c.robSize > 0 && m.halted
    ensures Issue(c, code, m) == m
  {
  }

  lemma SoundIsWellFormed(x: Trace)
    requires Sound(x)
    ensures WellFormed(x)
  {
  }

  /** One cycle of the machine with reused slots mirrors one cycle without reuse. */
  lemma CycleRing(c: Config, f: ExecFn, x: Trace, m: Machine)
    requires c.linear && c.robSize > 0 && SameResults(f, x.p.alu) && Sound(x) && Inv(c, x, m)
    ensures Cycle(Circular(c), f, x.p.code, RingMachine(c, m)) == RingMachine(c, Cycle(c, f, x.p.code, m))
  {
    hide Inv, UnitsOk, Execute, HaltedOk, Retire, Issue, RingRat, RingStations, RingBuffer, RatIn, Sound, SameResults;
    var e := Execute(c, f, m);
    InvUnits(c, x, m);
    SoundIsWellFormed(x);
    ExecuteRing(c, f, x, m);
    ExecuteInv(c, f, x, m);
    InvRatIn(c, x, e);
    if HeadReady(e) {
      RetireRing(c, e);
      RetireOk(c, x, e);
      if At(x, e.base).op == HALT {
        HaltedIsHalted(c, x, Retire(c, e));
        HaltStopsIssue(c, x.p.code, Retire(c, e));
        HaltStopsIssue(Circular(c), x.p.code, RingMachine(c, Retire(c, e)));
      } else {
        IssueRing(c, x, Retire(c, e));
      }
    } else {
      IssueRing(c, x, e);
    }
  }

  lemma StoppedRing(c: Config, code: seq<Instruction>, m: Machine)
    requires c.robSize > 0
    ensures Stopped(code, RingMachine(c, m)) <==> Stopped(code, m)
  {
  }

  lemma GoodRunning(c: Config, x: Trace, m: Machine)
    requires Good(c, x, m) && !Stopped(x.p.code, m)
    ensures Inv(c, x, m)
  {
  }

  lemma IterateRing(c: Config, f: ExecFn, x: Trace, m: Machine)
    requires c.linear && c.robSize > 0 && SameResults(f, x.p.alu) && Sound(x) && Good(c, x, m)
    ensures Iterate(Circular(c), f, x.p.code, RingMachine(c, m)) == RingMachine(c, Iterate(c, f, x.p.code, m))
  {
    hide Cycle, Good, Inv, RingMachine, Stopped, Sound, SameResults;
    StoppedRing(c, x.p.code, m);
    if !Stopped(x.p.code, m) {
      GoodRunning(c, x, m);
      CycleRing(c, f, x, m);
    }
  }

  /** A whole run with reused slots is the image of the run without reuse. */
  lemma {:induction false} RunRing(c: Config, f: ExecFn, x: Trace, m: Machine, n: nat)
    requires c.linear && c.robSize > 0 && SameResults(f, x.p.alu) && Sound(x) && Good(c, x, m)
    ensures Run(Circular(c), f, x.p.code, RingMachine(c, m), n) == RingMachine(c, Run(c, f, x.p.code, m, n))
  {
    hide Iterate, Good, RingMachine, Sound, SameResults;
    if n > 0 {
      RunRing(c, f, x, m, n - 1);
      RunOk(c, f, x, m, n - 1);
      IterateRing(c, f, x, Run(c, f, x.p.code, m, n - 1));
    }
  }

  lemma PowerOnRing(c: Config, sizes: seq<nat>, mem: seq<Word>)
    requires c.robSize > 0 && |sizes| == UNITS
    ensures RingMachine(c, PowerOn(sizes, mem)) == PowerOn(sizes, mem)
  {
    var p := PowerOn(sizes, mem);
    forall u | 0 <= u < UNITS
      ensures RingStation(c, p.stations[u]) == p.stations[u]
    {
    }
    assert RingStations(c, p.stations) == p.stations;
    assert RingBank(c, EMPTY_RAT.x) == EMPTY_RAT.x;
    assert RingBank(c, EMPTY_RAT.f) == EMPTY_RAT.f;
    assert RingBuffer(c, []) == [];
  }
}
