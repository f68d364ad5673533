/** Reporting finished stores, broadcasting results and snooping them keep the
    invariant: nobody misses a result and nobody takes a wrong one. */
module BroadcastProofs {
  import opened Instructions
  import opened Buffers
  import opened Machines
  import opened Isa
  import opened Invariants
  import opened MemoryProofs
  import opened StationProofs

  // ----- Units under a changing reorder buffer -----

  /** Every register writer that was in flight still is, or its result is on the bus. */
  ghost predicate StillPending(x: Trace, k: nat, rob: seq<RobEntry>, rob': seq<RobEntry>, bus: seq<BusResult>) {
    && |rob'| == |rob|
    && forall q: nat :: Flying(k, rob, q) && At(x, q).rd >= 0 ==> Flying(k, rob', q) || OnBus(bus, q)
  }

  lemma OperandsFrame(x: Trace, k: nat, rob: seq<RobEntry>, rob': seq<RobEntry>, bus: seq<BusResult>, n: nat, o1: Operand, o2: Operand)
    requires StillPending(x, k, rob, rob', bus)
    requires OperandsOk(x, k, rob, [], n, o1, o2)
    ensures OperandsOk(x, k, rob', bus, n, o1, o2)
  {
  }

  lemma StationFrame(x: Trace, k: nat, rob: seq<RobEntry>, rob': seq<RobEntry>, bus: seq<BusResult>, u: nat, es: seq<RsEntry>)
    requires u < UNITS && StationOk(x, k, rob, [], u, es)
    requires StillPending(x, k, rob, rob', bus)
    requires forall i :: 0 <= i < |es| && es[i].busy ==> Flying(k, rob', es[i].tag)
    ensures StationOk(x, k, rob', bus, u, es)
  {
    forall i | 0 <= i < |es| && es[i].busy
      ensures OperandsOk(x, k, rob', bus, es[i].tag, es[i].j, es[i].k)
    {
      OperandsFrame(x, k, rob, rob', bus, es[i].tag, es[i].j, es[i].k);
    }
  }

  lemma LsbEntryFrame(x: Trace, k: nat, rob: seq<RobEntry>, rob': seq<RobEntry>, e: LsbEntry)
    requires LsbEntryOk(x, k, rob, e) && |rob'| == |rob| && StatusOk(k, rob', e)
    ensures LsbEntryOk(x, k, rob', e)
  {
  }

  lemma LsbFrame(x: Trace, k: nat, rob: seq<RobEntry>, rob': seq<RobEntry>, bus: seq<BusResult>, es: seq<LsbEntry>)
    requires LsbOk(x, k, rob, [], es)
    requires StillPending(x, k, rob, rob', bus)
    requires forall i :: 0 <= i < |es| ==> StatusOk(k, rob', es[i])
    ensures LsbOk(x, k, rob', bus, es)
  {
    forall i | 0 <= i < |es|
      ensures LsbEntryOk(x, k, rob', es[i])
      ensures OperandsOk(x, k, rob', bus, es[i].tag, es[i].j, es[i].k)
    {
      OperandsFrame(x, k, rob, rob', bus, es[i].tag, es[i].j, es[i].k);
      LsbEntryFrame(x, k, rob, rob', es[i]);
    }
  }

  // ----- Phase 2: finished stores -----

  ghost predicate DoneStoreAt(es: seq<LsbEntry>, n: nat, t: int)
    requires n <= |es|
  {
    exists i :: 0 <= i < n && DoneStore(es[i]) && es[i].tag == t
  }

  lemma {:induction false} ReportEffect(c: Config, k: nat, rob: seq<RobEntry>, es: seq<LsbEntry>, n: nat, i: nat)
    requires c.linear && c.robSize > 0 && n <= |es| && i < |rob|
    ensures var r := ReportStores(c, k, rob, es, n);
            if rob[i].state == InFlight && DoneStoreAt(es, n, k + i) then r[i] == Finish(rob[i], 0) else r[i] == rob[i]
  {
    if n > 0 {
      ReportEffect(c, k, rob, es, n - 1, i);
    }
  }

  lemma StoreResIs(x: Trace, n: nat)
    requires IsTrace(x) && IsStore(At(x, n).op)
    ensures Res(x, n) == 0
  {
    ResIs(x, n);
  }

  lemma DoneStoreIsStore(x: Trace, k: nat, rob: seq<RobEntry>, e: LsbEntry)
    requires LsbEntryOk(x, k, rob, e) && DoneStore(e)
    ensures e.tag >= 0 && IsStore(At(x, e.tag).op)
  {
  }

  lemma ReportedEntryOk(x: Trace, k: nat, rob: seq<RobEntry>, lsb: seq<LsbEntry>, i: nat, e: RobEntry)
    requires IsTrace(x) && RobOk(x, k, rob) && i < |rob|
    requires forall j :: 0 <= j < |lsb| ==> LsbEntryOk(x, k, rob, lsb[j])
    requires if rob[i].state == InFlight && DoneStoreAt(lsb, |lsb|, k + i) then e == Finish(rob[i], 0) else e == rob[i]
    ensures RobEntryOk(x, k + i, e)
    ensures !IsStore(At(x, k + i).op) ==> e == rob[i]
  {
    hide IsTrace, LsbEntryOk, On, Live;
    assert RobEntryOk(x, k + i, rob[i]);
    if rob[i].state == InFlight && DoneStoreAt(lsb, |lsb|, k + i) {
      var j :| 0 <= j < |lsb| && DoneStore(lsb[j]) && lsb[j].tag == k + i;
      DoneStoreIsStore(x, k, rob, lsb[j]);
      StoreResIs(x, k + i);
    }
  }

  lemma ReportRobOk(c: Config, x: Trace, k: nat, rob: seq<RobEntry>, lsb: seq<LsbEntry>)
    requires c.linear && c.robSize > 0 && IsTrace(x) && RobOk(x, k, rob)
    requires forall j :: 0 <= j < |lsb| ==> LsbEntryOk(x, k, rob, lsb[j])
    ensures var r := ReportStores(c, k, rob, lsb, |lsb|);
            && RobOk(x, k, r)
            && (forall n: nat :: Flying(k, rob, n) && !IsStore(At(x, n).op) ==> Flying(k, r, n))
            && (forall n: nat :: Flying(k, r, n) ==> Flying(k, rob, n))
  {
    var r := ReportStores(c, k, rob, lsb, |lsb|);
    forall i | 0 <= i < |r|
      ensures RobEntryOk(x, k + i, r[i])
      ensures r[i].state == InFlight ==> rob[i].state == InFlight
      ensures !IsStore(At(x, k + i).op) ==> r[i] == rob[i]
    {
      ReportEffect(c, k, rob, lsb, |lsb|, i);
      ReportedEntryOk(x, k, rob, lsb, i, r[i]);
    }
  }

  /** A buffered store whose reorder-buffer entry is finished is finished itself. */
  lemma ReportedStatus(c: Config, x: Trace, k: nat, rob: seq<RobEntry>, lsb: seq<LsbEntry>, i: nat)
    requires c.linear && c.robSize > 0 && Ordered(lsb)
    requires i < |lsb| && StatusOk(k, rob, lsb[i])
    requires forall n: nat :: Flying(k, rob, n) && !IsStore(At(x, n).op) ==> Flying(k, ReportStores(c, k, rob, lsb, |lsb|), n)
    requires InWindow(k, rob, lsb[i].tag) && lsb[i].op == At(x, lsb[i].tag).op
    ensures StatusOk(k, ReportStores(c, k, rob, lsb, |lsb|), lsb[i])
  {
    var n := lsb[i].tag;
    ReportEffect(c, k, rob, lsb, |lsb|, n - k);
    if rob[n - k].state == InFlight && DoneStoreAt(lsb, |lsb|, n) {
      var j :| 0 <= j < |lsb| && DoneStore(lsb[j]) && lsb[j].tag == n;
      UniqueTag(lsb, i, j);
    }
  }

  lemma UniqueTag(es: seq<LsbEntry>, i: nat, j: nat)
    requires Ordered(es) && i < |es| && j < |es| && es[i].tag == es[j].tag
    ensures i == j
  {
  }

  lemma ReportStation(x: Trace, k: nat, rob: seq<RobEntry>, r: seq<RobEntry>, u: nat, es: seq<RsEntry>)
    requires u < UNITS && StationOk(x, k, rob, [], u, es) && StillPending(x, k, rob, r, [])
    requires forall n: nat :: Flying(k, rob, n) && !IsStore(At(x, n).op) ==> Flying(k, r, n)
    ensures StationOk(x, k, r, [], u, es)
  {
    forall i | 0 <= i < |es| && es[i].busy
      ensures Flying(k, r, es[i].tag)
    {
      assert RsEntryOk(x, k, rob, u, es[i]);
    }
    StationFrame(x, k, rob, r, [], u, es);
  }

  lemma ReportBuffer(c: Config, x: Trace, k: nat, rob: seq<RobEntry>, lsb: seq<LsbEntry>)
    requires c.linear && c.robSize > 0 && LsbOk(x, k, rob, [], lsb)
    requires StillPending(x, k, rob, ReportStores(c, k, rob, lsb, |lsb|), [])
    requires forall n: nat :: Flying(k, rob, n) && !IsStore(At(x, n).op) ==> Flying(k, ReportStores(c, k, rob, lsb, |lsb|), n)
    ensures LsbOk(x, k, ReportStores(c, k, rob, lsb, |lsb|), [], lsb)
  {
    var r := ReportStores(c, k, rob, lsb, |lsb|);
    forall i | 0 <= i < |lsb|
      ensures StatusOk(k, r, lsb[i])
    {
      assert LsbEntryOk(x, k, rob, lsb[i]);
      ReportedStatus(c, x, k, rob, lsb, i);
    }
    LsbFrame(x, k, rob, r, [], lsb);
  }

  lemma ReportOk(c: Config, x: Trace, m: Machine)
    requires c.linear && c.robSize > 0 && WellFormed(x) && UnitsOk(x, m, [])
    ensures UnitsOk(x, Report(c, m), [])
  {
    var k, r := m.base, ReportStores(c, m.base, m.rob, m.lsb, |m.lsb|);
    ReportRobOk(c, x, k, m.rob, m.lsb);
    forall q: nat | Flying(k, m.rob, q) && At(x, q).rd >= 0
      ensures Flying(k, r, q)
    {
      AtDecodable(x, q);
    }
    forall u | 0 <= u < UNITS
      ensures StationOk(x, k, r, [], u, m.stations[u])
    {
      ReportStation(x, k, m.rob, r, u, m.stations[u]);
    }
    ReportBuffer(c, x, k, m.rob, m.lsb);
  }

  // ----- Phase 3: what is on the bus -----

  /** Result r comes from a finished slot of the station. */
  ghost predicate FromStation(es: seq<RsEntry>, r: BusResult) {
    exists i :: 0 <= i < |es| && Finished(es[i]) && r == BusResult(es[i].tag, es[i].result)
  }

  /** Result r comes from one of the first n buffered loads. */
  ghost predicate FromLoads(es: seq<LsbEntry>, n: nat, r: BusResult)
    requires n <= |es|
  {
    exists i :: 0 <= i < n && r == BusResult(es[i].tag, es[i].result)
  }

  lemma {:induction false} ResultsAre(es: seq<RsEntry>, r: BusResult)
    ensures r in Results(es) <==> FromStation(es, r)
    decreases |es|
  {
    if es != [] {
      var p, e := es[..|es| - 1], es[|es| - 1];
      ResultsAre(p, r);
      if FromStation(es, r) {
        var i :| 0 <= i < |es| && Finished(es[i]) && r == BusResult(es[i].tag, es[i].result);
        assert i < |p| ==> p[i] == es[i];
      }
    }
  }

  ghost predicate FromStations(s: Stations, n: nat, r: BusResult)
    requires n <= UNITS
  {
    exists u :: 0 <= u < n && FromStation(s[u], r)
  }

  lemma {:induction false} StationResultsAre(s: Stations, n: nat, r: BusResult)
    requires n <= UNITS
    ensures r in StationResults(s, n) <==> FromStations(s, n, r)
  {
    if n > 0 {
      StationResultsAre(s, n - 1, r);
      ResultsAre(s[n - 1], r);
    }
  }

  /** The bus carries exactly the finished slots and the finished loads at the head. */
  lemma BusIs(m: Machine, r: BusResult)
    ensures r in BusOf(m) <==> FromStations(m.stations, UNITS, r) || FromLoads(m.lsb, LoadRun(m.lsb), r)
  {
    StationResultsAre(m.stations, UNITS, r);
    var n := LoadRun(m.lsb);
    var l := LoadResults(m.lsb, n);
    if r in l {
      var i :| 0 <= i < |l| && l[i] == r;
    }
    if FromLoads(m.lsb, n, r) {
      var i :| 0 <= i < n && r == BusResult(m.lsb[i].tag, m.lsb[i].result);
      assert l[i] == r;
    }
  }

  /** A bus value is the trace result of the instruction it is tagged with. */
  ghost predicate ValueOk(x: Trace, k: nat, rob: seq<RobEntry>, r: BusResult) {
    InWindow(k, rob, r.tag) && (Live(x, r.tag) ==> r.value == Res(x, r.tag))
  }

  lemma FromStationOk(x: Trace, k: nat, rob: seq<RobEntry>, u: nat, es: seq<RsEntry>, r: BusResult)
    requires u < UNITS && StationOk(x, k, rob, [], u, es) && FromStation(es, r)
    ensures ValueOk(x, k, rob, r) && Flying(k, rob, r.tag) && UnitOf(At(x, r.tag).op) == u
  {
    var i :| 0 <= i < |es| && Finished(es[i]) && r == BusResult(es[i].tag, es[i].result);
    assert RsEntryOk(x, k, rob, u, es[i]);
  }

  lemma FromLoadsOk(x: Trace, k: nat, rob: seq<RobEntry>, es: seq<LsbEntry>, r: BusResult)
    requires forall i :: 0 <= i < |es| ==> LsbEntryOk(x, k, rob, es[i])
    requires FromLoads(es, LoadRun(es), r)
    ensures ValueOk(x, k, rob, r) && Flying(k, rob, r.tag) && UnitOf(At(x, r.tag).op) == UNITS
  {
    var i :| 0 <= i < LoadRun(es) && r == BusResult(es[i].tag, es[i].result);
    assert LsbEntryOk(x, k, rob, es[i]) && DoneLoad(es[i]);
  }

  /** Every bus result is correct and belongs to an instruction still in flight. */
  lemma BusValue(x: Trace, m: Machine, r: BusResult)
    requires UnitsOk(x, m, []) && r in BusOf(m)
    ensures ValueOk(x, m.base, m.rob, r) && Flying(m.base, m.rob, r.tag)
    ensures var u := UnitOf(At(x, r.tag).op);
            if u == UNITS then FromLoads(m.lsb, LoadRun(m.lsb), r) else FromStation(m.stations[u], r)
  {
    BusIs(m, r);
    if FromStations(m.stations, UNITS, r) {
      var u :| 0 <= u < UNITS && FromStation(m.stations[u], r);
      FromStationOk(x, m.base, m.rob, u, m.stations[u], r);
    } else {
      FromLoadsOk(x, m.base, m.rob, m.lsb, r);
    }
  }

  // ----- Phase 3: the reorder buffer after the broadcast -----

  lemma {:induction false} WriteAllEffect(c: Config, k: nat, rob: seq<RobEntry>, bus: seq<BusResult>, i: nat)
    requires c.linear && c.robSize > 0 && i < |rob|
    ensures var r := WriteAll(c, k, rob, bus);
            if OnBus(bus, k + i) then exists j :: 0 <= j < |bus| && bus[j].tag == k + i && r[i] == Finish(rob[i], bus[j].value)
            else r[i] == rob[i]
    decreases |bus|
  {
    if bus != [] {
      var last := |bus| - 1;
      var p := bus[..last];
      WriteAllEffect(c, k, rob, p, i);
      if bus[last].tag != k + i && OnBus(bus, k + i) {
        var j :| 0 <= j < |bus| && bus[j].tag == k + i;
        assert p[j].tag == k + i;
        assert OnBus(p, k + i);
        var j' :| 0 <= j' < |p| && p[j'].tag == k + i && WriteAll(c, k, rob, p)[i] == Finish(rob[i], p[j'].value);
        assert bus[j'] == p[j'];
      } else if bus[last].tag != k + i {
        assert !OnBus(p, k + i);
      } else {
        assert WriteAll(c, k, rob, bus)[i] == Finish(rob[i], bus[last].value);
      }
    }
  }

  lemma BroadcastEntryOk(c: Config, x: Trace, k: nat, rob: seq<RobEntry>, bus: seq<BusResult>, i: nat)
    requires c.linear && c.robSize > 0 && RobOk(x, k, rob) && i < |rob|
    requires forall r :: r in bus ==> ValueOk(x, k, rob, r)
    ensures RobEntryOk(x, k + i, WriteAll(c, k, rob, bus)[i])
    ensures OnBus(bus, k + i) ==> WriteAll(c, k, rob, bus)[i].state == RobDone
    ensures !OnBus(bus, k + i) ==> WriteAll(c, k, rob, bus)[i] == rob[i]
  {
    WriteAllEffect(c, k, rob, bus, i);
    assert RobEntryOk(x, k + i, rob[i]);
    if OnBus(bus, k + i) {
      var j :| 0 <= j < |bus| && bus[j].tag == k + i && WriteAll(c, k, rob, bus)[i] == Finish(rob[i], bus[j].value);
      assert ValueOk(x, k, rob, bus[j]);
    }
  }

  lemma BroadcastRobOk(c: Config, x: Trace, k: nat, rob: seq<RobEntry>, bus: seq<BusResult>)
    requires c.linear && c.robSize > 0 && RobOk(x, k, rob)
    requires forall r :: r in bus ==> ValueOk(x, k, rob, r)
    ensures var r := WriteAll(c, k, rob, bus);
            && RobOk(x, k, r)
            && StillPending(x, k, rob, r, bus)
            && BusOk(x, k, r, bus)
            && (forall n: nat :: Flying(k, r, n) <==> Flying(k, rob, n) && !OnBus(bus, n))
  {
    var r := WriteAll(c, k, rob, bus);
    forall i | 0 <= i < |r|
      ensures RobEntryOk(x, k + i, r[i])
      ensures OnBus(bus, k + i) ==> r[i].state == RobDone
      ensures !OnBus(bus, k + i) ==> r[i] == rob[i]
    {
      BroadcastEntryOk(c, x, k, rob, bus, i);
    }
    forall j | 0 <= j < |bus|
      ensures InWindow(k, r, bus[j].tag) && r[bus[j].tag - k].state == RobDone
      ensures Live(x, bus[j].tag) ==> bus[j].value == Res(x, bus[j].tag)
    {
      assert bus[j] in bus;
      assert ValueOk(x, k, rob, bus[j]);
      assert OnBus(bus, bus[j].tag);
    }
    forall n: nat
      ensures Flying(k, r, n) <==> Flying(k, rob, n) && !OnBus(bus, n)
    {
      if InWindow(k, rob, n) {
        var i := n - k;
        assert n == k + i;
      }
    }
  }

  // ----- Phase 3: the units after the broadcast -----

  lemma BusTagOfStation(x: Trace, m: Machine, u: nat, i: nat)
    requires UnitsOk(x, m, []) && u < UNITS && i < |m.stations[u]| && m.stations[u][i].busy
    ensures OnBus(BusOf(m), m.stations[u][i].tag) <==> m.stations[u][i].done
  {
    var es, bus := m.stations[u], BusOf(m);
    var t := es[i].tag;
    assert RsEntryOk(x, m.base, m.rob, u, es[i]);
    if OnBus(bus, t) {
      var j :| 0 <= j < |bus| && bus[j].tag == t;
      BusValue(x, m, bus[j]);
      SameSlot(x, m.base, m.rob, u, es, i, bus[j]);
    }
    if es[i].done {
      var r := BusResult(t, es[i].result);
      assert FromStation(es, r);
      BusIs(m, r);
      var j :| 0 <= j < |bus| && bus[j] == r;
    }
  }

  lemma SameSlot(x: Trace, k: nat, rob: seq<RobEntry>, u: nat, es: seq<RsEntry>, i: nat, r: BusResult)
    requires StationOk(x, k, rob, [], u, es) && i < |es| && es[i].busy
    requires FromStation(es, r) && r.tag == es[i].tag
    ensures es[i].done
  {
    var j :| 0 <= j < |es| && Finished(es[j]) && r == BusResult(es[j].tag, es[j].result);
  }

  lemma BusTagOfBuffer(x: Trace, m: Machine, i: nat)
    requires UnitsOk(x, m, []) && i < |m.lsb|
    ensures OnBus(BusOf(m), m.lsb[i].tag) <==> i < LoadRun(m.lsb)
  {
    var bus := BusOf(m);
    var t := m.lsb[i].tag;
    assert LsbEntryOk(x, m.base, m.rob, m.lsb[i]);
    if OnBus(bus, t) {
      var j :| 0 <= j < |bus| && bus[j].tag == t;
      BusValue(x, m, bus[j]);
      var s :| 0 <= s < LoadRun(m.lsb) && bus[j] == BusResult(m.lsb[s].tag, m.lsb[s].result);
      UniqueTag(m.lsb, i, s);
    }
    if i < LoadRun(m.lsb) {
      var r := BusResult(t, m.lsb[i].result);
      assert FromLoads(m.lsb, LoadRun(m.lsb), r);
      BusIs(m, r);
      var j :| 0 <= j < |bus| && bus[j] == r;
    }
  }

  /** Exactly the broadcast instructions stop being in flight. */
  ghost predicate Retagged(x: Trace, k: nat, rob: seq<RobEntry>, r: seq<RobEntry>, bus: seq<BusResult>) {
    && StillPending(x, k, rob, r, bus)
    && forall n: nat :: Flying(k, r, n) <==> Flying(k, rob, n) && !OnBus(bus, n)
  }

  lemma DrainedOk(x: Trace, k: nat, rob: seq<RobEntry>, r: seq<RobEntry>, bus: seq<BusResult>, u: nat, es: seq<RsEntry>)
    requires u < UNITS && StationOk(x, k, rob, [], u, es) && Retagged(x, k, rob, r, bus)
    requires forall i :: 0 <= i < |es| && es[i].busy ==> (OnBus(bus, es[i].tag) <==> es[i].done)
    ensures StationOk(x, k, r, bus, u, Drained(es))
    ensures forall n: nat :: Flying(k, r, n) && Stationed(es, n) ==> Stationed(Drained(es), n)
  {
    var d := Drained(es);
    assert StationOk(x, k, rob, [], u, d);
    forall i | 0 <= i < |d| && d[i].busy
      ensures Flying(k, r, d[i].tag)
    {
      assert d[i] == es[i];
      assert RsEntryOk(x, k, rob, u, es[i]);
    }
    StationFrame(x, k, rob, r, bus, u, d);
    forall n: nat | Flying(k, r, n) && Stationed(es, n)
      ensures Stationed(d, n)
    {
      var i :| 0 <= i < |es| && es[i].busy && es[i].tag == n;
      assert d[i] == es[i];
    }
  }

  /** Dropping finished loads from the head keeps the buffer's invariant. */
  lemma PoppedOk(x: Trace, k: nat, rob: seq<RobEntry>, bus: seq<BusResult>, es: seq<LsbEntry>, n: nat)
    requires LsbOk(x, k, rob, bus, es) && n <= |es|
    requires forall i :: 0 <= i < n ==> IsLoad(es[i].op)
    ensures LsbOk(x, k, rob, bus, es[n..])
  {
    var t := es[n..];
    forall s: nat | k <= s < k + |rob| && IsStore(At(x, s).op)
      ensures Buffered(t, s)
    {
      assert Buffered(es, s);
      var i :| 0 <= i < |es| && es[i].tag == s;
      assert LsbEntryOk(x, k, rob, es[i]);
      assert t[i - n].tag == s;
    }
    forall i | 0 <= i < |t| && t[i].state == Accessing
      ensures ClearBelow(t, i, t[i].addr)
    {
      assert ClearBelow(es, i + n, es[i + n].addr);
    }
  }

  lemma PoppedFrame(x: Trace, k: nat, rob: seq<RobEntry>, r: seq<RobEntry>, bus: seq<BusResult>, es: seq<LsbEntry>)
    requires LsbOk(x, k, rob, [], es) && Retagged(x, k, rob, r, bus)
    requires forall i :: 0 <= i < |es| ==> !OnBus(bus, es[i].tag)
    requires forall i :: 0 <= i < |rob| && !OnBus(bus, k + i) ==> r[i] == rob[i]
    ensures LsbOk(x, k, r, bus, es)
  {
    forall i | 0 <= i < |es|
      ensures StatusOk(k, r, es[i])
    {
      assert LsbEntryOk(x, k, rob, es[i]);
      UnchangedStatus(k, rob, r, bus, es[i]);
    }
    LsbFrame(x, k, rob, r, bus, es);
  }

  lemma UnchangedStatus(k: nat, rob: seq<RobEntry>, r: seq<RobEntry>, bus: seq<BusResult>, e: LsbEntry)
    requires |r| == |rob| && InWindow(k, rob, e.tag) && StatusOk(k, rob, e) && !OnBus(bus, e.tag)
    requires forall i :: 0 <= i < |rob| && !OnBus(bus, k + i) ==> r[i] == rob[i]
    ensures StatusOk(k, r, e)
  {
    var i := e.tag - k;
    assert e.tag == k + i;
  }

  lemma BroadcastLsbOk(c: Config, x: Trace, m: Machine)
    requires c.linear && c.robSize > 0 && UnitsOk(x, m, [])
    requires Retagged(x, m.base, m.rob, WriteAll(c, m.base, m.rob, BusOf(m)), BusOf(m))
    ensures LsbOk(x, m.base, WriteAll(c, m.base, m.rob, BusOf(m)), BusOf(m), m.lsb[LoadRun(m.lsb)..])
    ensures forall n: nat :: !OnBus(BusOf(m), n) && Buffered(m.lsb, n) ==> Buffered(m.lsb[LoadRun(m.lsb)..], n)
  {
    hide LsbOk, StationsOk, RobOk, AllOwned, BusOf;
    forall i | 0 <= i < |m.lsb|
      ensures OnBus(BusOf(m), m.lsb[i].tag) <==> i < LoadRun(m.lsb)
    {
      BusTagOfBuffer(x, m, i);
    }
    RunPopped(c, x, m.base, m.rob, m.lsb, LoadRun(m.lsb), BusOf(m));
  }

  lemma RunPopped(c: Config, x: Trace, k: nat, rob: seq<RobEntry>, lsb: seq<LsbEntry>, run: nat, bus: seq<BusResult>)
    requires c.linear && c.robSize > 0 && LsbOk(x, k, rob, [], lsb) && run <= |lsb|
    requires Retagged(x, k, rob, WriteAll(c, k, rob, bus), bus)
    requires forall i :: 0 <= i < run ==> IsLoad(lsb[i].op)
    requires forall i :: 0 <= i < |lsb| ==> (OnBus(bus, lsb[i].tag) <==> i < run)
    ensures LsbOk(x, k, WriteAll(c, k, rob, bus), bus, lsb[run..])
    ensures forall n: nat :: !OnBus(bus, n) && Buffered(lsb, n) ==> Buffered(lsb[run..], n)
  {
    hide LsbOk, Retagged, WriteAll;
    var r := WriteAll(c, k, rob, bus);
    var t := lsb[run..];
    PoppedOk(x, k, rob, [], lsb, run);
    forall i | 0 <= i < |rob| && !OnBus(bus, k + i)
      ensures r[i] == rob[i]
    {
      WriteAllEffect(c, k, rob, bus, i);
    }
    PoppedFrame(x, k, rob, r, bus, t);
    forall n: nat | !OnBus(bus, n) && Buffered(lsb, n)
      ensures Buffered(t, n)
    {
      var i :| 0 <= i < |lsb| && lsb[i].tag == n;
      assert t[i - run].tag == n;
    }
  }

  lemma BroadcastOk(c: Config, x: Trace, m: Machine)
    requires c.linear && c.robSize > 0 && UnitsOk(x, m, [])
    ensures UnitsOk(x, Broadcast(c, m), BusOf(m))
    ensures BusOk(x, m.base, Broadcast(c, m).rob, BusOf(m))
  {
    var k, bus, b := m.base, BusOf(m), Broadcast(c, m);
    forall r | r in bus
      ensures ValueOk(x, k, m.rob, r)
    {
      BusValue(x, m, r);
    }
    BroadcastRobOk(c, x, k, m.rob, bus);
    forall u | 0 <= u < UNITS
      ensures StationOk(x, k, b.rob, bus, u, b.stations[u])
      ensures forall n: nat :: Flying(k, b.rob, n) && Stationed(m.stations[u], n) ==> Stationed(b.stations[u], n)
    {
      BroadcastStationOk(c, x, m, u);
    }
    BroadcastLsbOk(c, x, m);
    BroadcastOwned(x, k, m.rob, b.rob, bus, m.stations, b.stations, m.lsb, b.lsb);
  }

  lemma BroadcastStationOk(c: Config, x: Trace, m: Machine, u: nat)
    requires c.linear && c.robSize > 0 && UnitsOk(x, m, []) && u < UNITS
    requires Retagged(x, m.base, m.rob, WriteAll(c, m.base, m.rob, BusOf(m)), BusOf(m))
    ensures StationOk(x, m.base, WriteAll(c, m.base, m.rob, BusOf(m)), BusOf(m), u, Drained(m.stations[u]))
    ensures forall n: nat :: Flying(m.base, WriteAll(c, m.base, m.rob, BusOf(m)), n) && Stationed(m.stations[u], n)
              ==> Stationed(Drained(m.stations[u]), n)
  {
    forall i | 0 <= i < |m.stations[u]| && m.stations[u][i].busy
      ensures OnBus(BusOf(m), m.stations[u][i].tag) <==> m.stations[u][i].done
    {
      BusTagOfStation(x, m, u, i);
    }
    DrainedOk(x, m.base, m.rob, WriteAll(c, m.base, m.rob, BusOf(m)), BusOf(m), u, m.stations[u]);
  }

  lemma BroadcastOwned(x: Trace, k: nat, rob: seq<RobEntry>, r: seq<RobEntry>, bus: seq<BusResult>,
                       s: Stations, s': Stations, lsb: seq<LsbEntry>, lsb': seq<LsbEntry>)
    requires AllOwned(x, k, rob, s, lsb) && Retagged(x, k, rob, r, bus)
    requires forall u, n: nat :: 0 <= u < UNITS && Flying(k, r, n) && Stationed(s[u], n) ==> Stationed(s'[u], n)
    requires forall n: nat :: !OnBus(bus, n) && Buffered(lsb, n) ==> Buffered(lsb', n)
    ensures AllOwned(x, k, r, s', lsb')
  {
    forall n: nat | Flying(k, r, n)
      ensures Owned(x, s', lsb', n)
    {
      assert Flying(k, rob, n);
      assert Owned(x, s, lsb, n);
    }
  }

  // ----- Phase 4: snooping -----

  /** After all results of the cycle have been seen, an operand is present or its
      producer is still in flight. */
  lemma {:induction false} CaughtAll(o: Operand, bus: seq<BusResult>)
    requires o.q != -1 && (forall i :: 0 <= i < |bus| ==> bus[i].tag != -1)
    ensures var r := CatchAll(o, bus);
            if OnBus(bus, o.q) then r.q == -1 && exists i :: 0 <= i < |bus| && bus[i].tag == o.q && r.v == bus[i].value
            else r == o
    decreases |bus|
  {
    if bus != [] {
      var last := |bus| - 1;
      var p := bus[..last];
      CaughtAll(o, p);
      if OnBus(p, o.q) {
        var i :| 0 <= i < |p| && p[i].tag == o.q && CatchAll(o, p).v == p[i].value;
        assert bus[i] == p[i];
        assert OnBus(bus, o.q);
      } else if OnBus(bus, o.q) {
        assert forall i :: 0 <= i < |bus| && i != last ==> p[i] == bus[i];
        assert bus[last].tag == o.q;
      }
    }
  }

  lemma {:induction false} PresentKept(o: Operand, bus: seq<BusResult>)
    requires o.q == -1 && (forall i :: 0 <= i < |bus| ==> bus[i].tag != -1)
    ensures CatchAll(o, bus) == o
    decreases |bus|
  {
    if bus != [] {
      PresentKept(o, bus[..|bus| - 1]);
    }
  }

  lemma CaughtOk(x: Trace, k: nat, rob: seq<RobEntry>, bus: seq<BusResult>, n: nat, o: Operand, src: RegField, fp: bool)
    requires IsTrace(x) && BusOk(x, k, rob, bus) && OperandOk(x, k, rob, bus, n, o, src, fp)
    ensures OperandOk(x, k, rob, [], n, CatchAll(o, bus), src, fp)
  {
    if o.q == -1 {
      PresentKept(o, bus);
    } else {
      CaughtAll(o, bus);
      if OnBus(bus, o.q) && Live(x, n) {
        LiveBefore(x, o.q, n);
      }
    }
  }

  lemma CaughtOperandsOk(x: Trace, k: nat, rob: seq<RobEntry>, bus: seq<BusResult>, n: nat, o1: Operand, o2: Operand)
    requires IsTrace(x) && BusOk(x, k, rob, bus) && OperandsOk(x, k, rob, bus, n, o1, o2)
    ensures OperandsOk(x, k, rob, [], n, CatchAll(o1, bus), CatchAll(o2, bus))
  {
    CaughtOk(x, k, rob, bus, n, o1, At(x, n).rs1, At(x, n).rs1Fp);
    CaughtOk(x, k, rob, bus, n, o2, At(x, n).rs2, At(x, n).rs2Fp);
  }

  /** Operands that are both present do not depend on the bus. */
  lemma PresentOk(x: Trace, k: nat, rob: seq<RobEntry>, bus: seq<BusResult>, n: nat, o1: Operand, o2: Operand)
    requires OperandsOk(x, k, rob, bus, n, o1, o2) && o1.q == -1 && o2.q == -1
    ensures OperandsOk(x, k, rob, [], n, o1, o2)
  {
  }

  ghost predicate Tagged(bus: seq<BusResult>) {
    forall i :: 0 <= i < |bus| ==> bus[i].tag != -1
  }

  lemma SnoopedSlot(x: Trace, k: nat, rob: seq<RobEntry>, bus: seq<BusResult>, u: nat, e: RsEntry)
    requires IsTrace(x) && BusOk(x, k, rob, bus) && e.busy
    requires RsEntryOk(x, k, rob, u, e) && OperandsOk(x, k, rob, bus, e.tag, e.j, e.k)
    ensures var s := SnoopRs(e, bus);
            RsEntryOk(x, k, rob, u, s) && OperandsOk(x, k, rob, [], s.tag, s.j, s.k)
  {
    assert Tagged(bus);
    if e.done {
      PresentOk(x, k, rob, bus, e.tag, e.j, e.k);
    } else {
      CaughtOperandsOk(x, k, rob, bus, e.tag, e.j, e.k);
      if e.rem > 0 {
        PresentKept(e.j, bus);
        PresentKept(e.k, bus);
      }
    }
  }

  lemma SnoopStationOk(x: Trace, k: nat, rob: seq<RobEntry>, bus: seq<BusResult>, u: nat, es: seq<RsEntry>)
    requires IsTrace(x) && BusOk(x, k, rob, bus) && StationOk(x, k, rob, bus, u, es)
    ensures StationOk(x, k, rob, [], u, SnoopStation(es, bus))
    ensures forall n :: Stationed(es, n) ==> Stationed(SnoopStation(es, bus), n)
  {
    var t := SnoopStation(es, bus);
    forall i | 0 <= i < |t| && t[i].busy
      ensures RsEntryOk(x, k, rob, u, t[i]) && OperandsOk(x, k, rob, [], t[i].tag, t[i].j, t[i].k)
    {
      SnoopedSlot(x, k, rob, bus, u, es[i]);
    }
    forall n | Stationed(es, n)
      ensures Stationed(t, n)
    {
      var i :| 0 <= i < |es| && es[i].busy && es[i].tag == n;
      assert t[i].busy && t[i].tag == n;
    }
  }

  lemma SnoopedLsbEntry(x: Trace, k: nat, rob: seq<RobEntry>, bus: seq<BusResult>, e: LsbEntry)
    requires IsTrace(x) && BusOk(x, k, rob, bus)
    requires LsbEntryOk(x, k, rob, e) && OperandsOk(x, k, rob, bus, e.tag, e.j, e.k)
    ensures var s := SnoopLsb(e, bus);
            LsbEntryOk(x, k, rob, s) && OperandsOk(x, k, rob, [], s.tag, s.j, s.k)
  {
    assert Tagged(bus);
    if e.state == LsbDone {
      PresentOk(x, k, rob, bus, e.tag, e.j, e.k);
    } else {
      CaughtOperandsOk(x, k, rob, bus, e.tag, e.j, e.k);
      if e.state != Waiting {
        PresentKept(e.j, bus);
      }
      if IsLoad(e.op) {
        PresentKept(e.k, bus);
      }
    }
  }

  lemma SnoopBufferOk(x: Trace, k: nat, rob: seq<RobEntry>, bus: seq<BusResult>, es: seq<LsbEntry>)
    requires IsTrace(x) && BusOk(x, k, rob, bus) && LsbOk(x, k, rob, bus, es)
    ensures LsbOk(x, k, rob, [], SnoopBuffer(es, bus))
    ensures forall n :: Buffered(es, n) ==> Buffered(SnoopBuffer(es, bus), n)
  {
    var t := SnoopBuffer(es, bus);
    forall i | 0 <= i < |t|
      ensures LsbEntryOk(x, k, rob, t[i]) && OperandsOk(x, k, rob, [], t[i].tag, t[i].j, t[i].k)
    {
      SnoopedLsbEntry(x, k, rob, bus, es[i]);
    }
    forall i | 0 <= i < |t|
      ensures t[i].tag == es[i].tag && t[i].op == es[i].op && t[i].addr == es[i].addr && t[i].state == es[i].state
    {
    }
    SameTags(x, k, k + |rob|, es, t);
    KnownStaysClear(es, t);
  }

  lemma SnoopOk(x: Trace, m: Machine, bus: seq<BusResult>)
    requires IsTrace(x) && UnitsOk(x, m, bus) && BusOk(x, m.base, m.rob, bus)
    ensures UnitsOk(x, Snoop(m, bus), [])
  {
    var s := Snoop(m, bus);
    forall u | 0 <= u < UNITS
      ensures StationOk(x, m.base, m.rob, [], u, s.stations[u])
      ensures forall n :: Stationed(m.stations[u], n) ==> Stationed(s.stations[u], n)
    {
      SnoopStationOk(x, m.base, m.rob, bus, u, m.stations[u]);
    }
    SnoopBufferOk(x, m.base, m.rob, bus, m.lsb);
    StillOwned(x, m.base, m.rob, m.stations, s.stations, m.lsb, s.lsb);
  }

  lemma StillOwned(x: Trace, k: nat, rob: seq<RobEntry>, s: Stations, s': Stations, lsb: seq<LsbEntry>, lsb': seq<LsbEntry>)
    requires AllOwned(x, k, rob, s, lsb)
    requires forall u, n :: 0 <= u < UNITS && Stationed(s[u], n) ==> Stationed(s'[u], n)
    requires forall n :: Buffered(lsb, n) ==> Buffered(lsb', n)
    ensures AllOwned(x, k, rob, s', lsb')
  {
    forall n: nat | Flying(k, rob, n)
      ensures Owned(x, s', lsb', n)
    {
      assert Owned(x, s, lsb, n);
    }
  }

  // ----- Phase 1 -----

  lemma TickUnitsOk(c: Config, f: ExecFn, x: Trace, m: Machine)
    requires SameResults(f, x.p.alu) && Sound(x) && UnitsOk(x, m, []) && m.mem == T(x, m.base).mem
    ensures UnitsOk(x, Tick(c, f, m), [])
  {
    var t := Tick(c, f, m);
    forall u | 0 <= u < UNITS
      ensures StationOk(x, m.base, m.rob, [], u, t.stations[u])
      ensures forall n :: Stationed(m.stations[u], n) ==> Stationed(t.stations[u], n)
    {
      TickOk(c, f, x, m.base, m.rob, [], u, m.stations[u]);
    }
    LsbTickOk(c, x, m.base, m.rob, [], m.lsb);
    StillOwned(x, m.base, m.rob, m.stations, t.stations, m.lsb, t.lsb);
  }

  /** Phases 1 to 4 keep the unit invariant. */
  lemma ExecuteOk(c: Config, f: ExecFn, x: Trace, m: Machine)
    requires c.linear && c.robSize > 0 && SameResults(f, x.p.alu) && Sound(x)
    requires UnitsOk(x, m, []) && m.mem == T(x, m.base).mem
    ensures UnitsOk(x, Execute(c, f, m), [])
    ensures |Execute(c, f, m).rob| == |m.rob| && |Execute(c, f, m).lsb| <= |m.lsb|
  {
    TickUnitsOk(c, f, x, m);
    var t := Tick(c, f, m);
    ReportOk(c, x, t);
    var r := Report(c, t);
    BroadcastOk(c, x, r);
    SnoopOk(x, Broadcast(c, r), BusOf(r));
  }
}
