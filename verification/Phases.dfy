/** The phases of the clock loop over the units: tick, broadcast, snoop, dispatch. */
module Phases {
  import opened Words
  import opened Instructions
  import opened Renaming
  import opened Buffers
  import opened Machines
  import opened DispatchProofs
  import opened Rings
  import opened RegisterUnits
  import opened ReorderBufferUnit
  import opened StationUnit
  import opened LoadStoreUnit
  import opened FetchUnit
  import opened Safety

  /** The six stations, each its own object, built for one configuration. */
  ghost predicate StationsOf(s: seq<ReservationStation>, c: Config, f: ExecFn) {
    && |s| == UNITS
    && (forall u, v :: 0 <= u < v < UNITS ==> s[u] != s[v])
    && (forall u :: 0 <= u < UNITS ==> s[u].c == c && s[u].f == f)
  }

  ghost predicate StationsValid(s: seq<ReservationStation>)
    reads s
  {
    forall u :: 0 <= u < |s| ==> s[u].Valid()
  }

  ghost function Entries(s: seq<ReservationStation>): (r: Stations)
    requires |s| == UNITS
    reads s
    ensures forall u :: 0 <= u < UNITS ==> r[u] == s[u].entries
  {
    var r := [s[0].entries, s[1].entries, s[2].entries, s[3].entries, s[4].entries, s[5].entries];
    assert |r| == UNITS;
    r
  }

  // ----- Phase 1 -----

  method TickStations(s: seq<ReservationStation>, c: Config, f: ExecFn)
    requires StationsOf(s, c, f) && StationsValid(s)
    modifies s
    ensures StationsValid(s)
    ensures Entries(s) == seq(UNITS, u requires 0 <= u < UNITS => StationTick(c, f, old(Entries(s))[u]))
  {
    hide StationTick;
    for u := 0 to UNITS
      invariant StationsValid(s)
      invariant forall v :: 0 <= v < u ==> s[v].entries == StationTick(c, f, old(s[v].entries))
      invariant forall v :: u <= v < UNITS ==> s[v].entries == old(s[v].entries)
    {
      s[u].Tick();
    }
  }

  // ----- Phase 3 -----

  /** The bus carries the first k of the results to come; each was written back. */
  ghost predicate Broadcasting(rob: ReorderBuffer, cdb: CommonDataBus, base: nat, rob0: seq<RobEntry>, bus: seq<BusResult>, k: nat)
    reads rob, cdb
  {
    && rob.Valid() && rob.base == base && k <= |bus|
    && cdb.pending == bus[..k]
    && rob.Contents() == WriteAll(rob.c, base, rob0, bus[..k])
  }

  /** One result is written to the reorder buffer and put on the bus. */
  method BroadcastOne(rob: ReorderBuffer, cdb: CommonDataBus, tag: int, value: Word,
                      ghost base: nat, ghost rob0: seq<RobEntry>, ghost bus: seq<BusResult>, ghost k: nat)
    requires Broadcasting(rob, cdb, base, rob0, bus, k) && k < |bus| && bus[k] == BusResult(tag, value)
    requires Writable(rob.c, base, rob0, bus)
    modifies rob, cdb
    ensures Broadcasting(rob, cdb, base, rob0, bus, k + 1)
  {
    hide Wrap, Window, Vacant, Peek, WriteResult;
    assert WritableAt(rob.c, base, rob0, bus, k);
    assert bus[..k + 1][..k] == bus[..k] && bus[..k + 1] == bus[..k] + [bus[k]];
    rob.WriteBack(tag, value);
    cdb.Broadcast(tag, value);
  }

  /** Everything a station has finished goes onto the bus. */
  method DrainStation(rob: ReorderBuffer, cdb: CommonDataBus, s: ReservationStation,
                      ghost base: nat, ghost rob0: seq<RobEntry>, ghost bus: seq<BusResult>, ghost k: nat, ghost end: nat)
    requires s.Valid() && Broadcasting(rob, cdb, base, rob0, bus, k) && Writable(rob.c, base, rob0, bus)
    requires k <= end <= |bus| && bus[k..end] == Results(s.entries)
    modifies rob, cdb, s
    ensures s.Valid() && s.entries == Drained(old(s.entries))
    ensures Broadcasting(rob, cdb, base, rob0, bus, end)
  {
    ghost var i := k;
    var more := s.HasResult();
    hide Broadcasting, Writable;
    while more
      invariant s.Valid() && k <= i <= end && Broadcasting(rob, cdb, base, rob0, bus, i)
      invariant bus[i..end] == Results(s.entries) && Drained(s.entries) == old(Drained(s.entries))
      invariant more == exists n :: 0 <= n < |s.entries| && Finished(s.entries[n])
      invariant more == (Results(s.entries) != [])
      decreases end - i
    {
      var r := s.PopResult();
      assert bus[i] == bus[i..end][0] && bus[i + 1..end] == bus[i..end][1..];
      BroadcastOne(rob, cdb, r.tag, r.result, base, rob0, bus, i);
      i := i + 1;
      more := s.HasResult();
    }
    NothingFinished(s.entries);
  }

  lemma NothingFinished(es: seq<RsEntry>)
    requires Results(es) == [] && !exists n :: 0 <= n < |es| && Finished(es[n])
    ensures Drained(es) == es
  {
    NoResults(es);
  }

  function ReadyLoads(es: seq<LsbEntry>): seq<BusResult> { LoadResults(es, LoadRun(es)) }

  function Unread(es: seq<LsbEntry>): seq<LsbEntry> { es[LoadRun(es)..] }

  /** The finished loads at the head of the buffer follow. */
  method DrainLoads(rob: ReorderBuffer, cdb: CommonDataBus, lsb: LoadStoreBuffer,
                    ghost base: nat, ghost rob0: seq<RobEntry>, ghost bus: seq<BusResult>, ghost k: nat)
    requires lsb.Valid() && Broadcasting(rob, cdb, base, rob0, bus, k) && Writable(rob.c, base, rob0, bus)
    requires bus[k..] == ReadyLoads(lsb.Contents())
    modifies rob, cdb, lsb
    ensures lsb.Valid() && lsb.Contents() == Unread(old(lsb.Contents()))
    ensures Broadcasting(rob, cdb, base, rob0, bus, |bus|)
  {
    ghost var i := k;
    assert k <= |bus|;
    hide Broadcasting, Writable, Wrap, Window, Vacant, ReadyLoads, Unread;
    var more := lsb.HasLoadResult();
    while more
      invariant lsb.Valid() && k <= i <= |bus| && Broadcasting(rob, cdb, base, rob0, bus, i)
      invariant bus[i..] == ReadyLoads(lsb.Contents()) && Unread(lsb.Contents()) == old(Unread(lsb.Contents()))
      invariant more == lsb.HasLoadResult()
      decreases |bus| - i
    {
      LoadRunPop(lsb.Contents());
      var r := lsb.PopLoadResult();
      assert bus[i] == bus[i..][0] && bus[i + 1..] == bus[i..][1..];
      BroadcastOne(rob, cdb, r.tag, r.result, base, rob0, bus, i);
      i := i + 1;
      more := lsb.HasLoadResult();
    }
    NothingReady(lsb.Contents());
  }

  lemma NothingReady(es: seq<LsbEntry>)
    requires LoadRun(es) == 0
    ensures Unread(es) == es && ReadyLoads(es) == []
  {
  }

  lemma LoadRunPop(es: seq<LsbEntry>)
    requires |es| > 0 && DoneLoad(es[0])
    ensures ReadyLoads(es) == [BusResult(es[0].tag, es[0].result)] + ReadyLoads(es[1..])
    ensures Unread(es[1..]) == Unread(es)
  {
    assert LoadRun(es) == 1 + LoadRun(es[1..]);
  }

  /** All stations in order, then the loads. */
  method BroadcastAll(rob: ReorderBuffer, cdb: CommonDataBus, s: seq<ReservationStation>, lsb: LoadStoreBuffer,
                      c: Config, f: ExecFn, ghost bus: seq<BusResult>)
    requires rob.Valid() && cdb.pending == [] && StationsOf(s, c, f) && StationsValid(s) && lsb.Valid()
    requires bus == StationResults(Entries(s), UNITS) + LoadResults(lsb.Contents(), LoadRun(lsb.Contents()))
    requires Writable(rob.c, rob.base, rob.Contents(), bus)
    modifies rob, cdb, s, lsb
    ensures rob.Valid() && StationsValid(s) && lsb.Valid() && rob.base == old(rob.base)
    ensures cdb.pending == bus && rob.Contents() == WriteAll(rob.c, rob.base, old(rob.Contents()), bus)
    ensures Entries(s) == seq(UNITS, u requires 0 <= u < UNITS => Drained(old(Entries(s))[u]))
    ensures lsb.Contents() == old(lsb.Contents())[LoadRun(old(lsb.Contents()))..]
  {
    ghost var base, rob0, all := rob.base, rob.Contents(), Entries(s);
    assert bus[..0] == [];
    assert bus[..|bus|] == bus;
    DrainStations(rob, cdb, s, c, f, base, rob0, bus);
    hide StationsValid, StationsOf, ReorderBuffer.Valid, LoadStoreBuffer.Valid, Writable, StationResults, Results, Drained,
         LoadRun, LoadResults, Wrap, Window, Vacant, WriteAll;
    DrainLoads(rob, cdb, lsb, base, rob0, bus, |StationResults(all, UNITS)|);
  }

  lemma {:induction false} StationResultsPrefix(s: Stations, u: nat, n: nat)
    requires u < n <= UNITS
    ensures StationResults(s, u) + Results(s[u]) <= StationResults(s, n)
  {
    if u + 1 < n {
      StationResultsPrefix(s, u, n - 1);
    }
  }

  lemma StationSlice(s: Stations, u: nat, bus: seq<BusResult>)
    requires u < UNITS && StationResults(s, UNITS) <= bus
    ensures var k := |StationResults(s, u)|;
            var end := |StationResults(s, u + 1)|;
            k <= end <= |bus| && bus[k..end] == Results(s[u])
  {
    StationResultsPrefix(s, u, UNITS);
    hide Results;
    var a, b := StationResults(s, u), Results(s[u]);
    assert a + b <= bus;
    assert bus[..|a| + |b|][|a|..] == (a + b)[|a|..];
  }

  /** The first u stations are drained, the others are as they were. */
  ghost predicate DrainedUpTo(s: seq<ReservationStation>, all: Stations, u: nat)
    requires |s| == UNITS
    reads s
  {
    && StationsValid(s)
    && (forall v :: 0 <= v < u && v < UNITS ==> s[v].entries == Drained(all[v]))
    && (forall v :: u <= v < UNITS ==> s[v].entries == all[v])
  }

  method DrainStations(rob: ReorderBuffer, cdb: CommonDataBus, s: seq<ReservationStation>, c: Config, f: ExecFn,
                       ghost base: nat, ghost rob0: seq<RobEntry>, ghost bus: seq<BusResult>)
    requires StationsOf(s, c, f) && StationsValid(s) && Broadcasting(rob, cdb, base, rob0, bus, 0) && Writable(rob.c, base, rob0, bus)
    requires StationResults(Entries(s), UNITS) <= bus
    modifies rob, cdb, s
    ensures StationsValid(s)
    ensures Entries(s) == seq(UNITS, u requires 0 <= u < UNITS => Drained(old(Entries(s))[u]))
    ensures Broadcasting(rob, cdb, base, rob0, bus, |StationResults(old(Entries(s)), UNITS)|)
  {
    ghost var all := Entries(s);
    assert StationResults(all, 0) == [];
    assert DrainedUpTo(s, all, 0);
    hide Broadcasting, Writable, Results, Drained, StationResults, StationsValid, DrainedUpTo;
    for u := 0 to UNITS
      invariant DrainedUpTo(s, all, u) && Broadcasting(rob, cdb, base, rob0, bus, |StationResults(all, u)|)
    {
      StationSlice(all, u, bus);
      DrainNext(rob, cdb, s, c, f, base, rob0, bus, all, u, |StationResults(all, u)|, |StationResults(all, u + 1)|);
    }
    AllDrained(s, all);
  }

  lemma AllDrained(s: seq<ReservationStation>, all: Stations)
    requires |s| == UNITS && DrainedUpTo(s, all, UNITS)
    ensures StationsValid(s) && Entries(s) == seq(UNITS, u requires 0 <= u < UNITS => Drained(all[u]))
  {
    hide Drained;
  }

  method DrainNext(rob: ReorderBuffer, cdb: CommonDataBus, s: seq<ReservationStation>, c: Config, f: ExecFn,
                   ghost base: nat, ghost rob0: seq<RobEntry>, ghost bus: seq<BusResult>, ghost all: Stations,
                   u: nat, ghost k: nat, ghost end: nat)
    requires StationsOf(s, c, f) && u < UNITS && DrainedUpTo(s, all, u)
    requires Broadcasting(rob, cdb, base, rob0, bus, k) && Writable(rob.c, base, rob0, bus)
    requires k <= end <= |bus| && bus[k..end] == Results(all[u])
    modifies rob, cdb, s[u]
    ensures DrainedUpTo(s, all, u + 1) && Broadcasting(rob, cdb, base, rob0, bus, end)
  {
    hide Broadcasting, Writable, Results, Drained;
    DrainStation(rob, cdb, s[u], base, rob0, bus, k, end);
  }

  // ----- Phase 4 -----

  method SnoopStations(s: seq<ReservationStation>, cdb: CommonDataBus, c: Config, f: ExecFn)
    requires StationsOf(s, c, f) && StationsValid(s)
    modifies s
    ensures StationsValid(s)
    ensures var bus := cdb.pending;
            Entries(s) == seq(UNITS, u requires 0 <= u < UNITS => SnoopStation(old(Entries(s))[u], bus))
  {
    hide SnoopStation;
    for u := 0 to UNITS
      invariant StationsValid(s)
      invariant forall v :: 0 <= v < u ==> s[v].entries == SnoopStation(old(s[v].entries), cdb.pending)
      invariant forall v :: u <= v < UNITS ==> s[v].entries == old(s[v].entries)
    {
      s[u].Snoop(cdb);
    }
  }

  // ----- Phase 6: one instruction leaves the queue for its unit -----

  /** The destination is renamed once the operands have been looked up. */
  method RenameDestination(i: Instruction, tag: int, rat: RegisterRemappingTable)
    requires rat.Valid()
    modifies rat.intRat, rat.fpRat
    ensures rat.View() == RatWith(i, old(rat.View()), tag)
  {
    if i.rd >= 0 {
      rat.Map(i.rd, i.rdFp, tag);
    }
  }

  method PlaceMemory(iq: InstructionQueue, rob: ReorderBuffer, rat: RegisterRemappingTable, rf: RegisterFile, lsb: LoadStoreBuffer)
    requires rob.Valid() && rat.Valid() && rf.Valid() && lsb.Valid() && RatInRange(rob.c.robSize, rat.View())
    requires !rob.Full() && !lsb.Full() && iq.CanDispatch()
    modifies iq, rob, rat.intRat, rat.fpRat, lsb
    ensures rob.Valid() && lsb.Valid() && rob.base == old(rob.base) && iq.program == old(iq.program)
    ensures var i, tag := old(iq.buffer)[0], Slot(rob.c, rob.base + old(rob.count));
            var j := Resolve(rob.c, i.rs1, false, old(rat.View()), rf.View(), rob.base, rob.Contents());
            var k := Resolve(rob.c, i.rs2, i.rs2Fp, old(rat.View()), rf.View(), rob.base, rob.Contents());
            && rob.Contents() == old(rob.Contents()) + [NewRobEntry(i)]
            && rat.View() == RatWith(i, old(rat.View()), tag)
            && iq.View() == Queue(old(iq.pc), old(iq.buffer)[1..])
            && lsb.Contents() == old(lsb.Contents()) + [NewLsbEntry(i, tag, j, k)]
  {
    hide Slot, Resolve, RatWith, RatInRange, Wrap, Window, Vacant;
    var i := iq.Front();
    var tag := rob.Allocate(i);
    var ok := lsb.Issue(i, tag, rat, rf, rob);
    assert ok;
    RenameDestination(i, tag, rat);
    var _ := iq.Dispatch();
  }

  method PlaceCompute(iq: InstructionQueue, rob: ReorderBuffer, rat: RegisterRemappingTable, rf: RegisterFile, target: ReservationStation)
    requires rob.Valid() && rat.Valid() && rf.Valid() && target.Valid() && RatInRange(rob.c.robSize, rat.View())
    requires !rob.Full() && HasFree(target.entries) && iq.CanDispatch()
    modifies iq, rob, rat.intRat, rat.fpRat, target
    ensures rob.Valid() && target.Valid() && rob.base == old(rob.base) && iq.program == old(iq.program)
    ensures var i, tag, es := old(iq.buffer)[0], Slot(rob.c, rob.base + old(rob.count)), old(target.entries);
            var j := Resolve(rob.c, i.rs1, i.rs1Fp, old(rat.View()), rf.View(), rob.base, rob.Contents());
            var k := Resolve(rob.c, i.rs2, i.rs2Fp, old(rat.View()), rf.View(), rob.base, rob.Contents());
            && rob.Contents() == old(rob.Contents()) + [NewRobEntry(i)]
            && rat.View() == RatWith(i, old(rat.View()), tag)
            && iq.View() == Queue(old(iq.pc), old(iq.buffer)[1..])
            && target.entries == es[FirstFree(es, 0) := NewRsEntry(i, tag, j, k)]
  {
    hide Slot, Resolve, RatWith, RatInRange, Wrap, Window, Vacant, HasFree;
    var i := iq.Front();
    var tag := rob.Allocate(i);
    var ok := target.Issue(i, tag, rat, rf, rob);
    assert ok;
    RenameDestination(i, tag, rat);
    var _ := iq.Dispatch();
  }

  /** The same with the station chosen among the six. */
  method PlaceAt(iq: InstructionQueue, rob: ReorderBuffer, rat: RegisterRemappingTable, rf: RegisterFile,
                 s: seq<ReservationStation>, c: Config, f: ExecFn, u: nat)
    requires rob.Valid() && rat.Valid() && rf.Valid() && StationsOf(s, c, f) && StationsValid(s) && u < UNITS
    requires RatInRange(rob.c.robSize, rat.View()) && !rob.Full() && HasFree(Entries(s)[u]) && iq.CanDispatch()
    modifies iq, rob, rat.intRat, rat.fpRat, s
    ensures rob.Valid() && StationsValid(s) && rob.base == old(rob.base) && iq.program == old(iq.program)
    ensures var i, tag, es := old(iq.buffer)[0], Slot(rob.c, rob.base + old(rob.count)), old(Entries(s)[u]);
            var j := Resolve(rob.c, i.rs1, i.rs1Fp, old(rat.View()), rf.View(), rob.base, rob.Contents());
            var k := Resolve(rob.c, i.rs2, i.rs2Fp, old(rat.View()), rf.View(), rob.base, rob.Contents());
            && rob.Contents() == old(rob.Contents()) + [NewRobEntry(i)]
            && rat.View() == RatWith(i, old(rat.View()), tag)
            && iq.View() == Queue(old(iq.pc), old(iq.buffer)[1..])
            && HasFree(es)
            && Entries(s) == old(Entries(s))[u := es[FirstFree(es, 0) := NewRsEntry(i, tag, j, k)]]
  {
    hide Slot, Resolve, RatWith, RatInRange, NewRobEntry, NewRsEntry, FirstFree, HasFree, Wrap, Window, Vacant,
         ReorderBuffer.Valid, RegisterFile.Valid, RegisterRemappingTable.Valid, ReservationStation.Valid;
    PlaceCompute(iq, rob, rat, rf, s[u]);
  }

  // ----- Power-on -----

  method NewStations(c: Config, f: ExecFn, sizes: seq<nat>) returns (s: seq<ReservationStation>)
    requires |sizes| == UNITS
    ensures StationsOf(s, c, f) && StationsValid(s) && forall u :: 0 <= u < |s| ==> fresh(s[u])
    ensures Entries(s) == seq(UNITS, u requires 0 <= u < UNITS => seq(sizes[u], i => IDLE_RS))
  {
    s := [];
    for n := 0 to UNITS
      invariant |s| == n && StationsValid(s)
      invariant forall u :: 0 <= u < n ==> fresh(s[u]) && s[u].c == c && s[u].f == f
      invariant forall u, v :: 0 <= u < v < n ==> s[u] != s[v]
      invariant forall u :: 0 <= u < n ==> s[u].entries == seq(sizes[u], i => IDLE_RS)
    {
      var e := new ReservationStation(c, f, sizes[n]);
      s := s + [e];
    }
  }
}
