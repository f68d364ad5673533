/** Progress: an amortised measure that every clock cycle pays into. */
module Progress {
  import opened Words
  import opened Instructions
  import opened Buffers
  import opened Machines
  import opened Isa
  import opened Invariants
  import opened StationProofs
  import opened MemoryProofs
  import opened BroadcastProofs
  import opened CommitProofs
  import opened DispatchProofs
  import opened Refinement

  function Max(a: int, b: int): int { if a >= b then a else b }

  /** Clock ticks an operation occupies its unit for. */
  function Ticks(c: Config, op: Opcode): nat { Max(LatencyOf(c, op), 1) }

  // ----- Remaining work of a slot -----

  function RsWork(c: Config, e: RsEntry): nat {
    if !e.busy || e.done then 0 else if e.rem > 0 then e.rem else Ticks(c, e.op)
  }

  function LsbWork(c: Config, e: LsbEntry): nat {
    match e.state
    case LsbIdle | LsbDone => 0
    case Accessing => Max(e.rem, 0)
    case AddrReady => if IsLoad(e.op) then Ticks(c, e.op) else 1
    case Waiting => if IsLoad(e.op) then Ticks(c, e.op) + 1 else 2
  }

  function StationWork(c: Config, es: seq<RsEntry>): nat {
    if es == [] then 0 else StationWork(c, es[..|es| - 1]) + RsWork(c, es[|es| - 1])
  }

  function BufferWork(c: Config, es: seq<LsbEntry>): nat {
    if es == [] then 0 else BufferWork(c, es[..|es| - 1]) + LsbWork(c, es[|es| - 1])
  }

  function StationsWork(c: Config, s: Stations, n: nat): nat
    requires n <= UNITS
  {
    if n == 0 then 0 else StationsWork(c, s, n - 1) + StationWork(c, s[n - 1])
  }

  function TotalWork(c: Config, m: Machine): nat {
    StationsWork(c, m.stations, UNITS) + BufferWork(c, m.lsb)
  }

  // ----- Sums -----

  lemma {:induction false} StationWorkDrops(c: Config, a: seq<RsEntry>, b: seq<RsEntry>, s: int)
    requires |a| == |b| && -1 <= s < |a|
    requires forall i :: 0 <= i < |a| ==> RsWork(c, b[i]) <= RsWork(c, a[i])
    requires s >= 0 ==> RsWork(c, b[s]) < RsWork(c, a[s])
    ensures StationWork(c, b) <= StationWork(c, a)
    ensures s >= 0 ==> StationWork(c, b) < StationWork(c, a)
    decreases |a|
  {
    if a != [] {
      hide RsWork;
      var last := |a| - 1;
      StationWorkDrops(c, a[..last], b[..last], if s == last then -1 else s);
    }
  }

  lemma {:induction false} BufferWorkDrops(c: Config, a: seq<LsbEntry>, b: seq<LsbEntry>, s: int)
    requires |a| == |b| && -1 <= s < |a|
    requires forall i :: 0 <= i < |a| ==> LsbWork(c, b[i]) <= LsbWork(c, a[i])
    requires s >= 0 ==> LsbWork(c, b[s]) < LsbWork(c, a[s])
    ensures BufferWork(c, b) <= BufferWork(c, a)
    ensures s >= 0 ==> BufferWork(c, b) < BufferWork(c, a)
    decreases |a|
  {
    if a != [] {
      hide LsbWork;
      var last := |a| - 1;
      BufferWorkDrops(c, a[..last], b[..last], if s == last then -1 else s);
    }
  }

  lemma {:induction false} StationsWorkDrops(c: Config, a: Stations, b: Stations, n: nat, s: int)
    requires n <= UNITS && -1 <= s < n
    requires forall u :: 0 <= u < n ==> StationWork(c, b[u]) <= StationWork(c, a[u])
    requires s >= 0 ==> StationWork(c, b[s]) < StationWork(c, a[s])
    ensures StationsWork(c, b, n) <= StationsWork(c, a, n)
    ensures s >= 0 ==> StationsWork(c, b, n) < StationsWork(c, a, n)
  {
    if n > 0 {
      hide StationWork;
      StationsWorkDrops(c, a, b, n - 1, if s == n - 1 then -1 else s);
    }
  }

  /** Dropping entries from the head leaves no more work. */
  lemma {:induction false} TailWork(c: Config, es: seq<LsbEntry>, n: nat)
    requires n <= |es|
    ensures BufferWork(c, es[n..]) <= BufferWork(c, es)
    decreases |es|
  {
    if n < |es| {
      hide LsbWork;
      var last := |es| - 1;
      TailWork(c, es[..last], n);
      assert es[n..][..last - n] == es[..last][n..];
    }
  }

  // ----- A station tick -----

  lemma CountDownWork(c: Config, f: ExecFn, e: RsEntry)
    requires e.busy ==> e.rem >= 0
    ensures RsWork(c, CountDown(f, e)) <= RsWork(c, e)
    ensures Executing(e) ==> RsWork(c, CountDown(f, e)) < RsWork(c, e)
    ensures Executing(CountDown(f, e)) ==> Executing(e)
    ensures !Executing(e) ==> CountDown(f, e) == e
  {
  }

  lemma {:induction false} StartUpToWork(c: Config, f: ExecFn, es: seq<RsEntry>, n: nat, i: nat)
    requires n <= |es| && i < |es|
    ensures var p := StartUpTo(c, f, es, n);
            && RsWork(c, p[i]) <= RsWork(c, es[i])
            && (p[i] != es[i] ==> RsWork(c, p[i]) < RsWork(c, es[i]))
            && (i >= n ==> p[i] == es[i])
  {
    if n > 0 {
      StartUpToWork(c, f, es, n - 1, i);
      StartedWork(c, f, StartUpTo(c, f, es, n - 1)[n - 1]);
    }
  }

  lemma StartedWork(c: Config, f: ExecFn, e: RsEntry)
    ensures Startable(e) ==> RsWork(c, Started(c, f, e)) < RsWork(c, e)
  {
  }

  lemma TickSlotWork(c: Config, f: ExecFn, es: seq<RsEntry>, i: nat)
    requires i < |es| && (es[i].busy ==> es[i].rem >= 0)
    ensures RsWork(c, StationTick(c, f, es)[i]) <= RsWork(c, es[i])
    ensures Executing(es[i]) ==> RsWork(c, StationTick(c, f, es)[i]) < RsWork(c, es[i])
    ensures StationTick(c, f, es)[i] != CountDownAll(f, es)[i] ==> RsWork(c, StationTick(c, f, es)[i]) < RsWork(c, es[i])
  {
    hide StartUpTo, RsWork;
    CountDownWork(c, f, es[i]);
    StartUpToWork(c, f, CountDownAll(f, es), |es|, i);
  }

  /** Later starts leave a slot as it was once its turn has passed. */
  lemma {:induction false} StartUpToStable(c: Config, f: ExecFn, es: seq<RsEntry>, i: nat, n: nat)
    requires i < n <= |es|
    ensures StartUpTo(c, f, es, n)[i] == StartUpTo(c, f, es, i + 1)[i]
    ensures forall j :: n <= j < |es| ==> StartUpTo(c, f, es, n)[j] == es[j]
    decreases n
  {
    if n > i + 1 {
      hide Starts, Started;
      StartUpToStable(c, f, es, i, n - 1);
    } else {
      StartUpToUntouched(c, f, es, i);
    }
  }

  lemma {:induction false} StartUpToUntouched(c: Config, f: ExecFn, es: seq<RsEntry>, n: nat)
    requires n <= |es|
    ensures forall j :: n <= j < |es| ==> StartUpTo(c, f, es, n)[j] == es[j]
  {
    if n > 0 {
      hide Starts, Started;
      StartUpToUntouched(c, f, es, n - 1);
    }
  }

  /** A slot is working when the tick strictly reduces what is left to do in it. */
  ghost predicate Works(c: Config, f: ExecFn, es: seq<RsEntry>, s: nat)
    requires s < |es|
  {
    RsWork(c, StationTick(c, f, es)[s]) < RsWork(c, es[s])
  }

  /** If some slot has all its operands, the station does work, even when an
      unpipelined unit is held by a younger instruction. */
  lemma ReadyStationWorks(c: Config, f: ExecFn, es: seq<RsEntry>, i: nat) returns (s: nat)
    requires i < |es| && es[i].busy && !es[i].done && Ready(es[i])
    requires forall j :: 0 <= j < |es| && es[j].busy ==> es[j].rem >= 0
    ensures s < |es| && Works(c, f, es, s)
  {
    hide RsWork, StartUpTo;
    var d := CountDownAll(f, es);
    TickSlotWork(c, f, es, i);
    if Executing(es[i]) {
      s := i;
    } else {
      CountDownWork(c, f, es[i]);
      s := ReadySlotStarts(c, f, es, i);
    }
  }

  lemma ReadySlotStarts(c: Config, f: ExecFn, es: seq<RsEntry>, i: nat) returns (s: nat)
    requires i < |es| && Startable(es[i]) && CountDown(f, es[i]) == es[i]
    requires forall j :: 0 <= j < |es| && es[j].busy ==> es[j].rem >= 0
    ensures s < |es| && Works(c, f, es, s)
  {
    hide RsWork;
    var d := CountDownAll(f, es);
    var p := StartUpTo(c, f, d, i);
    StartUpToUntouched(c, f, d, i);
    StartUpToStable(c, f, d, i, |es|);
    if Starts(c, p, i) {
      s := i;
      StartedDiffers(c, f, d[i]);
      TickSlotWork(c, f, es, i);
    } else {
      var j :| 0 <= j < |p| && j != i && Executing(p[j]) && p[j].op == p[i].op;
      s := j;
      HolderWorks(c, f, es, i, j);
    }
  }

  lemma StartedDiffers(c: Config, f: ExecFn, e: RsEntry)
    requires Startable(e)
    ensures Started(c, f, e) != e
  {
  }

  /** Whoever holds the unit at slot i's turn has worked in this tick. */
  lemma HolderWorks(c: Config, f: ExecFn, es: seq<RsEntry>, i: nat, j: nat)
    requires i < |es| && j < |es| && j != i && (es[j].busy ==> es[j].rem >= 0)
    requires Executing(StartUpTo(c, f, CountDownAll(f, es), i)[j])
    ensures Works(c, f, es, j)
  {
    hide RsWork;
    var d := CountDownAll(f, es);
    CountDownWork(c, f, es[j]);
    TickSlotWork(c, f, es, j);
    if j < i {
      StartUpToStable(c, f, d, j, i);
      StartUpToStable(c, f, d, j, |es|);
    } else {
      StartUpToUntouched(c, f, d, i);
    }
  }

  // ----- A load/store buffer tick -----

  lemma ResolvedWork(c: Config, e: LsbEntry)
    ensures LsbWork(c, CloseStore(Address(e))) <= LsbWork(c, e)
    ensures e.state == Waiting && e.j.q == -1 ==> LsbWork(c, CloseStore(Address(e))) < LsbWork(c, e)
  {
  }

  lemma AccessedWork(c: Config, es: seq<LsbEntry>, mem: seq<Word>, i: nat)
    requires i < |es| && (es[i].state == Accessing ==> es[i].rem >= 1)
    ensures var t := Access(StartLoad(c, es, mem, i), mem);
            && LsbWork(c, t) <= LsbWork(c, es[i])
            && (es[i].state == Accessing ==> LsbWork(c, t) < LsbWork(c, es[i]))
            && (i == 0 && es[0].state == AddrReady && IsLoad(es[0].op) ==> LsbWork(c, t) < LsbWork(c, es[0]))
  {
  }

  /** A load with its base register that has not got its data yet. */
  predicate UnfinishedLoad(e: LsbEntry) {
    IsLoad(e.op) && e.j.q == -1 && e.state != LsbIdle && e.state != LsbDone
  }

  lemma LsbSlotWork(c: Config, es: seq<LsbEntry>, mem: seq<Word>, i: nat)
    requires i < |es| && (es[i].state == Accessing ==> es[i].rem >= 1)
    ensures LsbWork(c, LsbTick(c, es, mem)[i]) <= LsbWork(c, es[i])
    ensures i == 0 && UnfinishedLoad(es[0]) ==> LsbWork(c, LsbTick(c, es, mem)[0]) < LsbWork(c, es[0])
  {
    var r := Resolved(es);
    ResolvedFields(es[i]);
    ResolvedRem(es[i]);
    hide LsbWork, StartLoad, Access;
    ResolvedWork(c, es[i]);
    AccessedWork(c, r, mem, i);
  }

  lemma ResolvedRem(e: LsbEntry)
    ensures CloseStore(Address(e)).rem == e.rem
    ensures IsLoad(e.op) && e.state == Waiting && e.j.q == -1 ==> CloseStore(Address(e)).state == AddrReady
    ensures IsLoad(e.op) && e.state == AddrReady ==> CloseStore(Address(e)).state == AddrReady
  {
  }

  // ----- Phases 1 to 4 -----

  /** The oldest instruction waits for nothing. */
  lemma OldestReady(x: Trace, k: nat, rob: seq<RobEntry>, o1: Operand, o2: Operand)
    requires OperandsOk(x, k, rob, [], k, o1, o2)
    ensures o1.q == -1 && o2.q == -1
  {
  }

  lemma StationTickWork(c: Config, f: ExecFn, es: seq<RsEntry>)
    requires forall i :: 0 <= i < |es| && es[i].busy ==> es[i].rem >= 0
    ensures StationWork(c, StationTick(c, f, es)) <= StationWork(c, es)
    ensures HasReady(es) ==> StationWork(c, StationTick(c, f, es)) < StationWork(c, es)
  {
    var t := StationTick(c, f, es);
    hide RsWork, StationTick, StationWork;
    forall i | 0 <= i < |es|
      ensures RsWork(c, t[i]) <= RsWork(c, es[i])
    {
      TickSlotWork(c, f, es, i);
    }
    StationWorkDrops(c, es, t, -1);
    if HasReady(es) {
      var i :| 0 <= i < |es| && es[i].busy && !es[i].done && Ready(es[i]);
      var s := ReadyStationWorks(c, f, es, i);
      StationWorkDrops(c, es, t, s);
    }
  }

  ghost predicate HasReady(es: seq<RsEntry>) {
    exists i :: 0 <= i < |es| && es[i].busy && !es[i].done && Ready(es[i])
  }

  lemma BufferTickWork(c: Config, es: seq<LsbEntry>, mem: seq<Word>)
    requires forall i :: 0 <= i < |es| && es[i].state == Accessing ==> es[i].rem >= 1
    ensures BufferWork(c, LsbTick(c, es, mem)) <= BufferWork(c, es)
    ensures |es| > 0 && UnfinishedLoad(es[0]) ==> BufferWork(c, LsbTick(c, es, mem)) < BufferWork(c, es)
  {
    var t := LsbTick(c, es, mem);
    hide LsbWork, LsbTick, BufferWork;
    forall i | 0 <= i < |es|
      ensures LsbWork(c, t[i]) <= LsbWork(c, es[i])
    {
      LsbSlotWork(c, es, mem, i);
    }
    if |es| > 0 {
      LsbSlotWork(c, es, mem, 0);
    }
    BufferWorkDrops(c, es, t, if |es| > 0 && UnfinishedLoad(es[0]) then 0 else -1);
  }

  /** Some unit is bound to work in this cycle. */
  ghost predicate Working(m: Machine) {
    || (exists u :: 0 <= u < UNITS && HasReady(m.stations[u]))
    || (|m.lsb| > 0 && UnfinishedLoad(m.lsb[0]))
  }

  lemma TickWork(c: Config, f: ExecFn, m: Machine)
    requires forall u, i :: 0 <= u < UNITS && 0 <= i < |m.stations[u]| && m.stations[u][i].busy ==> m.stations[u][i].rem >= 0
    requires forall i :: 0 <= i < |m.lsb| && m.lsb[i].state == Accessing ==> m.lsb[i].rem >= 1
    ensures TotalWork(c, Tick(c, f, m)) <= TotalWork(c, m)
    ensures Working(m) ==> TotalWork(c, Tick(c, f, m)) < TotalWork(c, m)
  {
    var t := Tick(c, f, m);
    hide StationTick, LsbTick, StationWork, BufferWork, StationsWork, HasReady, UnfinishedLoad;
    forall u | 0 <= u < UNITS
      ensures StationWork(c, t.stations[u]) <= StationWork(c, m.stations[u])
      ensures HasReady(m.stations[u]) ==> StationWork(c, t.stations[u]) < StationWork(c, m.stations[u])
    {
      StationTickWork(c, f, m.stations[u]);
    }
    BufferTickWork(c, m.lsb, m.mem);
    StationsWorkDrops(c, m.stations, t.stations, UNITS, -1);
    if exists u :: 0 <= u < UNITS && HasReady(m.stations[u]) {
      var u :| 0 <= u < UNITS && HasReady(m.stations[u]);
      StationsWorkDrops(c, m.stations, t.stations, UNITS, u);
    }
  }

  lemma BroadcastWork(c: Config, m: Machine)
    requires c.robSize > 0
    ensures TotalWork(c, Broadcast(c, m)) <= TotalWork(c, m)
  {
    var b := Broadcast(c, m);
    hide StationWork, BufferWork, StationsWork;
    forall u | 0 <= u < UNITS
      ensures StationWork(c, b.stations[u]) <= StationWork(c, m.stations[u])
    {
      StationWorkDrops(c, m.stations[u], Drained(m.stations[u]), -1);
    }
    StationsWorkDrops(c, m.stations, b.stations, UNITS, -1);
    TailWork(c, m.lsb, LoadRun(m.lsb));
  }

  lemma SnoopWork(c: Config, m: Machine, bus: seq<BusResult>)
    ensures TotalWork(c, Snoop(m, bus)) <= TotalWork(c, m)
  {
    var s := Snoop(m, bus);
    hide StationWork, BufferWork, StationsWork, CatchAll;
    forall u | 0 <= u < UNITS
      ensures StationWork(c, s.stations[u]) <= StationWork(c, m.stations[u])
    {
      StationWorkDrops(c, m.stations[u], SnoopStation(m.stations[u], bus), -1);
    }
    StationsWorkDrops(c, m.stations, s.stations, UNITS, -1);
    BufferWorkDrops(c, m.lsb, SnoopBuffer(m.lsb, bus), -1);
  }

  lemma ExecuteWork(c: Config, f: ExecFn, x: Trace, m: Machine)
    requires c.linear && c.robSize > 0 && Inv(c, x, m)
    ensures TotalWork(c, Execute(c, f, m)) <= TotalWork(c, m)
    ensures Working(m) ==> TotalWork(c, Execute(c, f, m)) < TotalWork(c, m)
  {
    RemsOk(c, x, m);
    hide Inv, Tick, Broadcast, Snoop, BusOf, Working, StationsWork, BufferWork;
    TickWork(c, f, m);
    var t := Report(c, Tick(c, f, m));
    BroadcastWork(c, t);
    SnoopWork(c, Broadcast(c, t), BusOf(t));
  }

  lemma RemsOk(c: Config, x: Trace, m: Machine)
    requires Inv(c, x, m)
    ensures forall u, i :: 0 <= u < UNITS && 0 <= i < |m.stations[u]| && m.stations[u][i].busy ==> m.stations[u][i].rem >= 0
    ensures forall i :: 0 <= i < |m.lsb| && m.lsb[i].state == Accessing ==> m.lsb[i].rem >= 1
  {
    hide FrontOk, ArchOk, OperandsOk, AllOwned, RobOk;
    forall u, i | 0 <= u < UNITS && 0 <= i < |m.stations[u]| && m.stations[u][i].busy
      ensures m.stations[u][i].rem >= 0
    {
      assert StationOk(x, m.base, m.rob, [], u, m.stations[u]);
      assert RsEntryOk(x, m.base, m.rob, u, m.stations[u][i]);
    }
    forall i | 0 <= i < |m.lsb| && m.lsb[i].state == Accessing
      ensures m.lsb[i].rem >= 1
    {
      assert LsbEntryOk(x, m.base, m.rob, m.lsb[i]);
    }
  }

  // ----- The oldest instruction either works or is ready to retire -----

  lemma HeadBuffered(x: Trace, k: nat, rob: seq<RobEntry>, es: seq<LsbEntry>)
    requires LsbOk(x, k, rob, [], es) && Buffered(es, k)
    ensures |es| > 0 && es[0].tag == k && LsbEntryOk(x, k, rob, es[0]) && OperandsOk(x, k, rob, [], k, es[0].j, es[0].k)
  {
    var i :| 0 <= i < |es| && es[i].tag == k;
    assert LsbEntryOk(x, k, rob, es[i]);
    assert LsbEntryOk(x, k, rob, es[0]);
    TagOrder(es, 0, i);
  }

  lemma HeadDoneAfterTick(c: Config, es: seq<LsbEntry>, mem: seq<Word>)
    requires |es| > 0 && es[0].state != LsbIdle && es[0].j.q == -1 && es[0].k.q == -1
    requires IsMemory(es[0].op) && (es[0].state == Accessing ==> IsLoad(es[0].op)) && !UnfinishedLoad(es[0])
    ensures var t := LsbTick(c, es, mem)[0];
            t.state == LsbDone && t.op == es[0].op && t.tag == es[0].tag
  {
  }

  lemma {:induction false} FinishedStaysFinished(c: Config, k: nat, rob: seq<RobEntry>, bus: seq<BusResult>)
    requires c.linear && c.robSize > 0 && |rob| > 0
    requires rob[0].state == RobDone || OnBus(bus, k)
    ensures WriteAll(c, k, rob, bus)[0].state == RobDone
  {
    WriteAllEffect(c, k, rob, bus, 0);
    assert k + 0 == k;
  }

  lemma HeadStoreMarked(c: Config, x: Trace, t: Machine)
    requires c.linear && c.robSize > 0 && UnitsOk(x, t, []) && |t.rob| > 0 && |t.lsb| > 0
    requires t.lsb[0].tag == t.base && DoneStore(t.lsb[0])
    ensures Report(c, t).rob[0].state == RobDone
  {
    assert RobEntryOk(x, t.base + 0, t.rob[0]);
    ReportEffect(c, t.base, t.rob, t.lsb, |t.lsb|, 0);
    assert DoneStoreAt(t.lsb, |t.lsb|, t.base + 0);
  }

  /** A finished memory operation at the head of both buffers is marked by the end
      of the broadcast. */
  lemma HeadMemoryMarked(c: Config, x: Trace, t: Machine)
    requires c.linear && c.robSize > 0 && WellFormed(x) && UnitsOk(x, t, []) && |t.rob| > 0 && |t.lsb| > 0
    requires t.lsb[0].tag == t.base && t.lsb[0].state == LsbDone && IsMemory(t.lsb[0].op)
    ensures HeadReady(Broadcast(c, Report(c, t)))
  {
    var r := Report(c, t);
    ReportOk(c, x, t);
    if IsStore(t.lsb[0].op) {
      HeadStoreMarked(c, x, t);
    } else {
      BusTagOfBuffer(x, r, 0);
      assert LoadRun(r.lsb) > 0;
    }
    hide UnitsOk, BusOf, LoadRun, ReportStores, WriteAll;
    FinishedStaysFinished(c, r.base, r.rob, BusOf(r));
  }

  lemma HeadMemoryFinishes(c: Config, f: ExecFn, x: Trace, m: Machine)
    requires c.linear && c.robSize > 0 && SameResults(f, x.p.alu) && Sound(x)
    requires UnitsOk(x, m, []) && m.mem == T(x, m.base).mem
    requires Flying(m.base, m.rob, m.base) && IsMemory(At(x, m.base).op)
    requires |m.lsb| > 0 ==> !UnfinishedLoad(m.lsb[0])
    ensures HeadReady(Execute(c, f, m))
  {
    hide StationsOk, RobOk;
    assert Owned(x, m.stations, m.lsb, m.base);
    HeadBuffered(x, m.base, m.rob, m.lsb);
    OldestReady(x, m.base, m.rob, m.lsb[0].j, m.lsb[0].k);
    HeadDoneAfterTick(c, m.lsb, m.mem);
    TickUnitsOk(c, f, x, m);
    hide LsbOk, AllOwned, Broadcast, Report, BusOf, LsbTick, StationTick, UnitsOk, LsbEntryOk, OperandsOk, UnfinishedLoad;
    HeadMemoryMarked(c, x, Tick(c, f, m));
  }

  lemma HeadStationWorks(x: Trace, k: nat, rob: seq<RobEntry>, u: nat, es: seq<RsEntry>)
    requires StationOk(x, k, rob, [], u, es) && Stationed(es, k)
    ensures HasReady(es) || exists i :: 0 <= i < |es| && Finished(es[i]) && es[i].tag == k
  {
    var i :| 0 <= i < |es| && es[i].busy && es[i].tag == k;
    assert RsEntryOk(x, k, rob, u, es[i]);
    OldestReady(x, k, rob, es[i].j, es[i].k);
  }

  /** A finished slot is broadcast and its instruction marked in the same cycle. */
  lemma FinishedSlotMarked(c: Config, f: ExecFn, x: Trace, m: Machine, u: nat, i: nat)
    requires c.linear && c.robSize > 0 && SameResults(f, x.p.alu) && Sound(x)
    requires UnitsOk(x, m, []) && m.mem == T(x, m.base).mem && |m.rob| > 0
    requires u < UNITS && i < |m.stations[u]| && Finished(m.stations[u][i]) && m.stations[u][i].tag == m.base
    ensures HeadReady(Execute(c, f, m))
  {
    var t := Tick(c, f, m);
    var r := Report(c, t);
    assert t.stations[u] == StationTick(c, f, m.stations[u]);
    FinishedSlotKept(c, f, m.stations[u], i);
    TickUnitsOk(c, f, x, m);
    ReportOk(c, x, t);
    BusTagOfStation(x, r, u, i);
    hide UnitsOk, BusOf, ReportStores, WriteAll, StationTick;
    FinishedStaysFinished(c, r.base, r.rob, BusOf(r));
  }

  lemma FinishedSlotKept(c: Config, f: ExecFn, es: seq<RsEntry>, i: nat)
    requires i < |es| && Finished(es[i])
    ensures StationTick(c, f, es)[i] == es[i]
  {
    StartUpToSlot(c, f, CountDownAll(f, es), |es|, i);
  }

  lemma {:induction false} DoneStaysDone(c: Config, k: nat, rob: seq<RobEntry>, es: seq<LsbEntry>, n: nat)
    requires c.linear && c.robSize > 0 && n <= |es| && |rob| > 0 && rob[0].state == RobDone
    ensures ReportStores(c, k, rob, es, n)[0].state == RobDone
  {
    ReportEffect(c, k, rob, es, n, 0);
  }

  lemma DoneHeadReady(c: Config, f: ExecFn, m: Machine)
    requires c.linear && c.robSize > 0 && HeadReady(m)
    ensures HeadReady(Execute(c, f, m))
  {
    var t := Tick(c, f, m);
    DoneStaysDone(c, m.base, m.rob, t.lsb, |t.lsb|);
    var r := Report(c, t);
    hide BusOf, ReportStores, WriteAll, StationTick, LsbTick;
    FinishedStaysFinished(c, r.base, r.rob, BusOf(r));
  }

  /** With instructions in flight, a cycle does work or can retire the oldest one. */
  lemma WorksOrRetires(c: Config, f: ExecFn, x: Trace, m: Machine)
    requires c.linear && c.robSize > 0 && SameResults(f, x.p.alu) && Sound(x)
    requires UnitsOk(x, m, []) && m.mem == T(x, m.base).mem && |m.rob| > 0
    ensures Working(m) || HeadReady(Execute(c, f, m))
  {
    hide Execute, LsbOk, HasReady, UnfinishedLoad, StationOk;
    assert RobEntryOk(x, m.base + 0, m.rob[0]);
    if m.rob[0].state == RobDone {
      DoneHeadReady(c, f, m);
    } else if IsMemory(At(x, m.base).op) {
      if !Working(m) {
        HeadMemoryFinishes(c, f, x, m);
      }
    } else {
      var u := UnitOf(At(x, m.base).op);
      assert Owned(x, m.stations, m.lsb, m.base);
      assert StationOk(x, m.base, m.rob, [], u, m.stations[u]);
      HeadStationWorks(x, m.base, m.rob, u, m.stations[u]);
      if !HasReady(m.stations[u]) {
        var i :| 0 <= i < |m.stations[u]| && Finished(m.stations[u][i]) && m.stations[u][i].tag == m.base;
        FinishedSlotMarked(c, f, x, m, u, i);
      }
    }
  }

  // ----- The potential -----

  /** More than any single instruction can need. */
  function Wmax(c: Config): (w: nat)
    ensures w >= 2
  {
    var l := c.lat;
    Max(l.intAlu, Max(l.intLs, Max(l.branch, Max(l.fpAddSub, Max(l.fpMul, Max(l.fpDiv, Max(l.fpLs, Max(l.fpCvt, Max(l.misc, 1))))))))) + 1
  }

  lemma TicksBound(c: Config, op: Opcode)
    ensures Ticks(c, op) + 1 <= Wmax(c)
  {
  }

  /** Free reorder-buffer slots weighted by the most work each can bring, plus the work left. */
  function Potential(c: Config, m: Machine): nat
    requires |m.rob| <= c.robSize
  {
    Weigh(FreeSlots(c, m), Wmax(c), TotalWork(c, m))
  }

  function Weigh(free: nat, w: nat, work: nat): nat {
    MulNonNegative(free, w + 1);
    free * (w + 1) + work
  }

  function FreeSlots(c: Config, m: Machine): nat
    requires |m.rob| <= c.robSize
  {
    c.robSize - |m.rob|
  }

  lemma {:induction false} InsertWork(c: Config, es: seq<RsEntry>, slot: nat, e: RsEntry)
    requires slot < |es| && !es[slot].busy
    ensures StationWork(c, es[slot := e]) == StationWork(c, es) + RsWork(c, e)
    decreases |es|
  {
    hide Ticks;
    var last := |es| - 1;
    if slot < last {
      InsertWork(c, es[..last], slot, e);
      assert es[slot := e][..last] == es[..last][slot := e];
    } else {
      assert es[slot := e][..last] == es[..last];
    }
  }

  lemma {:induction false} ReplaceStationWork(c: Config, s: Stations, u: nat, t: seq<RsEntry>, w: int, n: nat)
    requires u < UNITS && n <= UNITS && StationWork(c, t) == StationWork(c, s[u]) + w
    ensures StationsWork(c, s[u := t], n) == StationsWork(c, s, n) + (if u < n then w else 0)
  {
    if n > 0 {
      hide StationWork;
      ReplaceStationWork(c, s, u, t, w, n - 1);
    }
  }

  lemma NewEntryWork(c: Config, i: Instruction, tag: int, j: Operand, k: Operand)
    ensures RsWork(c, NewRsEntry(i, tag, j, k)) <= Wmax(c)
    ensures LsbWork(c, NewLsbEntry(i, tag, j, k)) <= Wmax(c)
  {
    TicksBound(c, i.op);
    hide Ticks, Wmax;
  }

  lemma DispatchWork(c: Config, m: Machine)
    requires c.linear && c.robSize > 0 && CanDispatch(c, m)
    ensures TotalWork(c, Dispatch(c, m)) <= TotalWork(c, m) + Wmax(c)
    ensures |Dispatch(c, m).rob| == |m.rob| + 1 <= c.robSize
  {
    var i, tag, d := m.iq.buffer[0], Slot(c, m.base + |m.rob|), Dispatch(c, m);
    hide Dispatch, Slot, Resolve, NewRsEntry, NewLsbEntry, StationWork, StationsWork, RsWork, LsbWork, Wmax, FirstFree;
    DispatchFields(c, m, tag);
    DispatchUnits(c, m, tag);
    var k := Resolve(c, i.rs2, i.rs2Fp, m.rat, m.regs, m.base, d.rob);
    if IsMemory(i.op) {
      var e := NewLsbEntry(i, tag, Resolve(c, i.rs1, false, m.rat, m.regs, m.base, d.rob), k);
      NewEntryWork(c, i, tag, Resolve(c, i.rs1, false, m.rat, m.regs, m.base, d.rob), k);
      assert d.lsb[..|d.lsb| - 1] == m.lsb;
    } else {
      var u := UnitOf(i.op);
      var j := Resolve(c, i.rs1, i.rs1Fp, m.rat, m.regs, m.base, d.rob);
      NewEntryWork(c, i, tag, j, k);
      InsertWork(c, m.stations[u], FirstFree(m.stations[u], 0), NewRsEntry(i, tag, j, k));
      ReplaceStationWork(c, m.stations, u, d.stations[u], RsWork(c, NewRsEntry(i, tag, j, k)), UNITS);
    }
  }

  lemma DispatchPays(c: Config, m: Machine)
    requires c.linear && c.robSize > 0 && CanDispatch(c, m)
    ensures |Dispatch(c, m).rob| == |m.rob| + 1 <= c.robSize
    ensures Potential(c, Dispatch(c, m)) + 1 <= Potential(c, m)
  {
    hide Dispatch, TotalWork, Wmax, Weigh, CanDispatch;
    DispatchWork(c, m);
    SlotTaken(FreeSlots(c, m), Wmax(c), TotalWork(c, m), TotalWork(c, Dispatch(c, m)));
  }

  lemma SlotTaken(free: nat, w: nat, work: nat, work': nat)
    requires free >= 1 && work' <= work + w
    ensures Weigh(free - 1, w, work') + 1 <= Weigh(free, w, work)
  {
    assert (free - 1) * (w + 1) == free * (w + 1) - (w + 1);
  }

  lemma {:induction false} DispatchUpToPays(c: Config, m: Machine, n: nat)
    requires c.linear && c.robSize > 0 && |m.rob| <= c.robSize
    ensures |DispatchUpTo(c, m, n).rob| <= c.robSize
    ensures Potential(c, DispatchUpTo(c, m, n)) <= Potential(c, m)
    ensures n > 0 && CanDispatch(c, m) ==> Potential(c, DispatchUpTo(c, m, n)) + 1 <= Potential(c, m)
    decreases n
  {
    if n > 0 && CanDispatch(c, m) {
      hide Dispatch, Potential;
      DispatchPays(c, m);
      if !IsControl(m.iq.buffer[0].op) {
        DispatchUpToPays(c, Dispatch(c, m), n - 1);
      }
    }
  }

  lemma FetchKeepsPotential(c: Config, code: seq<Instruction>, m: Machine)
    requires |m.rob| <= c.robSize
    ensures Potential(c, Fetch(c, code, m)) == Potential(c, m) && Fetch(c, code, m).rob == m.rob
  {
    hide StationsWork, BufferWork, Wmax;
  }

  predicate WillDispatch(c: Config, code: seq<Instruction>, m: Machine) {
    !m.branchInFlight && !m.halted && c.width > 0 && CanDispatch(c, Fetch(c, code, m))
  }

  lemma IssuePays(c: Config, code: seq<Instruction>, m: Machine)
    requires c.linear && c.robSize > 0 && |m.rob| <= c.robSize
    ensures |Issue(c, code, m).rob| <= c.robSize
    ensures Potential(c, Issue(c, code, m)) <= Potential(c, m)
    ensures WillDispatch(c, code, m) ==> Potential(c, Issue(c, code, m)) + 1 <= Potential(c, m)
  {
    hide Potential, DispatchUpTo, CanDispatch, Fetch;
    if !m.branchInFlight && !m.halted {
      FetchKeepsPotential(c, code, m);
      DispatchUpToPays(c, Fetch(c, code, m), c.width);
    }
  }

  // ----- An empty pipeline dispatches -----

  /** Every buffer has at least one slot, and fetch is at least one wide. */
  ghost predicate Roomy(c: Config, m: Machine) {
    && c.robSize > 0 && c.lsbSize > 0 && c.iqCapacity > 0 && c.width > 0
    && forall u :: 0 <= u < UNITS ==> |m.stations[u]| > 0
  }

  lemma EmptyWindow(x: Trace, k: nat, u: nat, es: seq<RsEntry>, lsb: seq<LsbEntry>)
    requires StationOk(x, k, [], [], u, es) && LsbOk(x, k, [], [], lsb)
    ensures lsb == [] && forall i :: 0 <= i < |es| ==> !es[i].busy
  {
    assert |lsb| > 0 ==> LsbEntryOk(x, k, [], lsb[0]);
  }

  /** With nothing in flight there is room for any instruction. */
  lemma EmptyIsFree(c: Config, x: Trace, m: Machine, op: Opcode)
    requires Roomy(c, m) && UnitsOk(x, m, []) && m.rob == []
    ensures Room(c, m, op)
  {
    var u := if IsMemory(op) then 0 else UnitOf(op);
    EmptyWindow(x, m.base, u, m.stations[u], m.lsb);
    assert !m.stations[u][0].busy;
  }

  lemma {:induction false} FetchFills(c: Config, code: seq<Instruction>, q: Queue, n: nat)
    requires n > 0 && c.iqCapacity > 0 && (q.pc < |code| || q.buffer != [])
    ensures FetchUpTo(c, code, q, n).buffer != []
  {
    if n > 1 {
      FetchFills(c, code, q, n - 1);
    } else {
      assert FetchUpTo(c, code, q, 0) == q;
    }
  }

  lemma EmptyDispatches(c: Config, x: Trace, m: Machine)
    requires Roomy(c, m) && Inv(c, x, m) && m.rob == [] && !Stopped(x.p.code, m)
    ensures WillDispatch(c, x.p.code, m)
  {
    var g := Fetch(c, x.p.code, m);
    FetchFills(c, x.p.code, m.iq, c.width);
    EmptyIsFree(c, x, m, g.iq.buffer[0].op);
    hide UnitsOk;
  }

  // ----- One cycle pays -----

  lemma RetirePays(c: Config, m: Machine)
    requires c.linear && c.robSize > 0 && HeadReady(m) && |m.rob| <= c.robSize
    ensures |Retire(c, m).rob| <= c.robSize
    ensures Potential(c, Retire(c, m)) <= Potential(c, m) + Wmax(c) + 1
  {
    hide Retire, StationsWork, BufferWork, Wmax, Weigh, Slot, RegsAfter, RatAfter;
    RetireFields(c, m, Slot(c, m.base));
    if LsbAfter(m.rob[0], m.lsb) != m.lsb {
      TailWork(c, m.lsb, 1);
    }
    SlotFreed(FreeSlots(c, m), Wmax(c), TotalWork(c, m), TotalWork(c, Retire(c, m)));
  }

  lemma SlotFreed(free: nat, w: nat, work: nat, work': nat)
    requires work' <= work
    ensures Weigh(free + 1, w, work') <= Weigh(free, w, work) + w + 1
  {
    assert (free + 1) * (w + 1) == free * (w + 1) + w + 1;
  }

  lemma ExecutePays(c: Config, f: ExecFn, x: Trace, m: Machine)
    requires c.linear && c.robSize > 0 && SameResults(f, x.p.alu) && Sound(x) && Inv(c, x, m)
    ensures |Execute(c, f, m).rob| == |m.rob| <= c.robSize
    ensures Potential(c, Execute(c, f, m)) <= Potential(c, m)
    ensures m.rob != [] && !HeadReady(Execute(c, f, m)) ==> Potential(c, Execute(c, f, m)) + 1 <= Potential(c, m)
  {
    hide Execute, TotalWork, Wmax, UnitsOk, Inv, Working;
    InvUnits(c, x, m);
    ExecuteOk(c, f, x, m);
    ExecuteWork(c, f, x, m);
    if m.rob != [] {
      WorksOrRetires(c, f, x, m);
    }
  }

  /** Every cycle of a running machine lowers the potential by one, except that each
      retirement may raise it by a constant. */
  lemma CyclePays(c: Config, f: ExecFn, x: Trace, m: Machine)
    requires c.linear && SameResults(f, x.p.alu) && Sound(x) && Inv(c, x, m) && Roomy(c, m) && !Stopped(x.p.code, m)
    ensures var p := Cycle(c, f, x.p.code, m);
            && |p.rob| <= c.robSize && |m.rob| <= c.robSize
            && m.base <= p.base <= m.base + 1
            && Potential(c, p) + 1 <= Potential(c, m) + (if p.base > m.base then Wmax(c) + 2 else 0)
  {
    var e := Execute(c, f, m);
    hide Execute, Inv, Cycle, Potential, Wmax, HeadReady, Stopped, Roomy, Sound, SameResults;
    assert c.robSize > 0 by { RoomyRob(c, m); }
    ExecutePays(c, f, x, m);
    ExecuteInv(c, f, x, m);
    if HeadReady(e) {
      CycleRetires(c, f, x, m);
    } else {
      CycleWaits(c, f, x, m);
    }
  }

  lemma RoomyRob(c: Config, m: Machine)
    requires Roomy(c, m)
    ensures c.robSize > 0
  {
  }

  lemma CycleRetires(c: Config, f: ExecFn, x: Trace, m: Machine)
    requires c.linear && c.robSize > 0 && HeadReady(Execute(c, f, m)) && |Execute(c, f, m).rob| <= c.robSize && |m.rob| <= c.robSize
    requires Potential(c, Execute(c, f, m)) <= Potential(c, m) && Execute(c, f, m).base == m.base
    ensures var p := Cycle(c, f, x.p.code, m);
            && |p.rob| <= c.robSize && p.base == m.base + 1
            && Potential(c, p) + 1 <= Potential(c, m) + Wmax(c) + 2
  {
    hide Execute, Retire, Issue, Potential, HeadReady;
    var e := Execute(c, f, m);
    assert Cycle(c, f, x.p.code, m) == Issue(c, x.p.code, Retire(c, e));
    RetirePays(c, e);
    IssuePays(c, x.p.code, Retire(c, e));
    RetireBase(c, e);
    IssueBase(c, x.p.code, Retire(c, e));
  }

  lemma RetireBase(c: Config, m: Machine)
    requires c.robSize > 0 && HeadReady(m)
    ensures Retire(c, m).base == m.base + 1
  {
    hide Retire;
    RetireFields(c, m, Slot(c, m.base));
  }

  lemma {:induction false} DispatchUpToBase(c: Config, m: Machine, n: nat)
    requires c.robSize > 0
    ensures DispatchUpTo(c, m, n).base == m.base
    decreases n
  {
    if n > 0 && CanDispatch(c, m) {
      hide Dispatch;
      DispatchFields(c, m, Slot(c, m.base + |m.rob|));
      if !IsControl(m.iq.buffer[0].op) {
        DispatchUpToBase(c, Dispatch(c, m), n - 1);
      }
    }
  }

  lemma IssueBase(c: Config, code: seq<Instruction>, m: Machine)
    requires c.robSize > 0
    ensures Issue(c, code, m).base == m.base
  {
    if !m.branchInFlight && !m.halted {
      DispatchUpToBase(c, Fetch(c, code, m), c.width);
    }
  }

  lemma CycleWaits(c: Config, f: ExecFn, x: Trace, m: Machine)
    requires c.linear && SameResults(f, x.p.alu) && Sound(x) && Inv(c, x, m) && Roomy(c, m) && !Stopped(x.p.code, m)
    requires !HeadReady(Execute(c, f, m)) && Inv(c, x, Execute(c, f, m))
    ensures var p := Cycle(c, f, x.p.code, m);
            && |p.rob| <= c.robSize && |m.rob| <= c.robSize && p.base == m.base
            && Potential(c, p) + 1 <= Potential(c, m)
  {
    var e := Execute(c, f, m);
    ExecutePays(c, f, x, m);
    ExecuteFields(c, f, m);
    EmptyCycle(c, f, x, m);
    hide Execute, Issue, Potential, HeadReady, Inv, WillDispatch, Roomy;
    assert Cycle(c, f, x.p.code, m) == Issue(c, x.p.code, e);
    IssuePays(c, x.p.code, e);
    IssueBase(c, x.p.code, e);
  }

  lemma EmptyCycle(c: Config, f: ExecFn, x: Trace, m: Machine)
    requires c.linear && Inv(c, x, m) && Roomy(c, m) && !Stopped(x.p.code, m)
    requires Inv(c, x, Execute(c, f, m)) && |Execute(c, f, m).rob| == |m.rob|
    ensures m.rob == [] ==> WillDispatch(c, x.p.code, Execute(c, f, m))
  {
    if m.rob == [] {
      var e := Execute(c, f, m);
      ExecuteFields(c, f, m);
      ExecuteSizes(c, f, m);
      hide Execute, Inv, WillDispatch;
      EmptyDispatches(c, x, e);
    }
  }

  lemma ExecuteSizes(c: Config, f: ExecFn, m: Machine)
    requires c.robSize > 0
    ensures forall u :: 0 <= u < UNITS ==> |Execute(c, f, m).stations[u]| == |m.stations[u]|
  {
    hide BusOf, ReportStores, WriteAll, LsbTick;
  }

  // ----- Whole runs -----

  lemma {:induction false} DispatchUpToSizes(c: Config, m: Machine, n: nat)
    requires c.robSize > 0
    ensures forall u :: 0 <= u < UNITS ==> |DispatchUpTo(c, m, n).stations[u]| == |m.stations[u]|
    decreases n
  {
    hide Dispatch, CanDispatch, IsControl;
    if n > 0 && CanDispatch(c, m) {
      DispatchSizes(c, m);
      CanDispatchNonEmpty(c, m);
      if !IsControl(m.iq.buffer[0].op) {
        DispatchUpToSizes(c, Dispatch(c, m), n - 1);
      }
    }
  }

  lemma DispatchSizes(c: Config, m: Machine)
    requires c.robSize > 0 && CanDispatch(c, m)
    ensures forall u :: 0 <= u < UNITS ==> |Dispatch(c, m).stations[u]| == |m.stations[u]|
  {
    hide Dispatch, Slot, Resolve, NewRsEntry, NewLsbEntry;
    DispatchUnits(c, m, Slot(c, m.base + |m.rob|));
  }

  lemma RoomyKept(c: Config, f: ExecFn, code: seq<Instruction>, m: Machine)
    requires Roomy(c, m)
    ensures Roomy(c, Iterate(c, f, code, m))
  {
    var e := Execute(c, f, m);
    ExecuteSizes(c, f, m);
    hide Execute, Retire, DispatchUpTo, Stopped;
    if HeadReady(e) {
      RetireFields(c, e, Slot(c, e.base));
    }
    var r := Commit(c, e);
    DispatchUpToSizes(c, Fetch(c, code, r), c.width);
  }

  /** Cycles that k retirements pay for. */
  function Allowance(c: Config, k: nat): nat {
    MulNonNegative(k, Wmax(c) + 2);
    k * (Wmax(c) + 2)
  }

  lemma AllowanceNext(c: Config, k: nat)
    ensures Allowance(c, k + 1) == Allowance(c, k) + Wmax(c) + 2
    ensures Allowance(c, 0) == 0
  {
    hide Wmax;
  }

  /** n cycles from m to p are covered by the initial potential and the retirements. */
  ghost predicate Paid(c: Config, x: Trace, m: Machine, p: Machine, n: nat) {
    && Good(c, x, p) && Roomy(c, p) && p.base >= m.base && |m.rob| <= c.robSize
    && (!Stopped(x.p.code, p) ==>
          && |p.rob| <= c.robSize
          && Potential(c, p) + n <= Potential(c, m) + Allowance(c, p.base - m.base))
  }

  lemma NothingPaid(c: Config, x: Trace, m: Machine)
    requires Inv(c, x, m) && Roomy(c, m)
    ensures Paid(c, x, m, m, 0)
  {
    InvNotHalted(c, x, m);
    RobFits(c, x, m);
    AllowanceNext(c, 0);
    hide Inv, Roomy, Potential, Allowance;
  }

  lemma IteratePays(c: Config, f: ExecFn, x: Trace, m: Machine, q: Machine, n: nat)
    requires c.linear && c.robSize > 0 && SameResults(f, x.p.alu) && Sound(x) && Paid(c, x, m, q, n)
    ensures Paid(c, x, m, Iterate(c, f, x.p.code, q), n + 1)
  {
    hide Cycle, Wmax, Inv, Good, Potential, Stopped, Sound, SameResults, Roomy, Allowance;
    RoomyKept(c, f, x.p.code, q);
    IterateOk(c, f, x, q);
    if !Stopped(x.p.code, q) {
      GoodIsInv(c, x, q);
      CyclePays(c, f, x, q);
      AllowanceNext(c, q.base - m.base);
    }
  }

  /** After n cycles of a machine that is still running, n is at most the initial
      potential plus a constant per retirement. */
  lemma {:induction false} RunPays(c: Config, f: ExecFn, x: Trace, m: Machine, n: nat)
    requires c.linear && c.robSize > 0 && SameResults(f, x.p.alu) && Sound(x) && Inv(c, x, m) && Roomy(c, m)
    ensures Paid(c, x, m, Run(c, f, x.p.code, m, n), n)
  {
    hide Paid, Iterate, Sound, SameResults, Inv, Roomy;
    if n == 0 {
      NothingPaid(c, x, m);
    } else {
      RunPays(c, f, x, m, n - 1);
      IteratePays(c, f, x, m, Run(c, f, x.p.code, m, n - 1), n - 1);
    }
  }

  lemma RobFits(c: Config, x: Trace, m: Machine)
    requires Inv(c, x, m)
    ensures |m.rob| <= c.robSize
  {
  }

  lemma GoodIsInv(c: Config, x: Trace, m: Machine)
    requires Good(c, x, m) && !Stopped(x.p.code, m)
    ensures Inv(c, x, m)
  {
  }

  /** Whenever something is in flight, the oldest instruction retires within as many
      cycles as the potential. */
  lemma HeadRetires(c: Config, f: ExecFn, x: Trace, m: Machine, n: nat)
    requires c.linear && SameResults(f, x.p.alu) && Sound(x) && Inv(c, x, m) && Roomy(c, m)
    requires m.rob != [] && |m.rob| <= c.robSize && n > Potential(c, m)
    ensures Run(c, f, x.p.code, m, n).base > m.base
  {
    RoomyRob(c, m);
    hide Paid, Inv, Roomy, Sound, SameResults, Potential;
    RunPays(c, f, x, m, n);
    SoundIsTrace(x);
    PaidMoves(c, x, m, Run(c, f, x.p.code, m, n), n);
  }

  lemma SoundIsTrace(x: Trace)
    requires Sound(x)
    ensures IsTrace(x)
  {
  }

  lemma PaidMoves(c: Config, x: Trace, m: Machine, p: Machine, n: nat)
    requires IsTrace(x) && Inv(c, x, m) && m.rob != [] && |m.rob| <= c.robSize && n > Potential(c, m)
    requires Paid(c, x, m, p, n)
    ensures p.base > m.base
  {
    hide Potential, Inv, Good, Stopped, Roomy, Allowance, IsTrace;
    HeadExists(c, x, m);
    if Stopped(x.p.code, p) && p.base == m.base {
      StoppedElsewhere(c, x, p);
    }
    AllowanceNext(c, 0);
  }

  lemma HeadExists(c: Config, x: Trace, m: Machine)
    requires Inv(c, x, m) && m.rob != []
    ensures On(x, m.base) && Live(x, m.base)
  {
    hide StationsOk, LsbOk, AllOwned, FrontOk;
    assert RobEntryOk(x, m.base + 0, m.rob[0]);
  }

  /** The loop never exits in front of an instruction that is still to be executed. */
  lemma StoppedElsewhere(c: Config, x: Trace, p: Machine)
    requires IsTrace(x) && Good(c, x, p) && Stopped(x.p.code, p)
    ensures !(On(x, p.base) && Live(x, p.base))
  {
    if p.halted {
      LiveStep(x, p.base - 1);
    } else {
      DrainedIsFinished(c, x, p);
    }
  }
}
