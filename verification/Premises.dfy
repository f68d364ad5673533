/** Why the refinement needs its premise on addresses: the load/store buffer compares
    byte addresses while memory is indexed by word and drops what is out of range. */
module Premises {
  import opened Words
  import opened Instructions
  import opened ArchState
  import opened Buffers
  import opened Renaming
  import opened Machines
  import opened Isa
  import opened Simulation
  import opened Tags

  /** A finished store of v to address a. */
  function FinishedStore(a: Word, v: Word): LsbEntry {
    IDLE_LSB.(state := LsbDone, op := SW, addr := a, k := Operand(v, -1))
  }

  /** A load of address a that is about to start. */
  function StartingLoad(a: Word): LsbEntry {
    IDLE_LSB.(state := AddrReady, op := LW, addr := a)
  }

  function LsbTicks(c: Config, es: seq<LsbEntry>, mem: seq<Word>, n: nat): (r: seq<LsbEntry>)
    ensures |r| == |es|
  {
    if n == 0 then es else LsbTick(c, LsbTicks(c, es, mem, n - 1), mem)
  }

  function LoadTicks(c: Config): nat { if LatencyOf(c, LW) <= 1 then 1 else LatencyOf(c, LW) }

  /** The load behind the finished store, when it finishes. */
  function LoadedBehind(c: Config, mem: seq<Word>, a: Word, v: Word, b: Word): LsbEntry {
    LsbTicks(c, [FinishedStore(a, v), StartingLoad(b)], mem, LoadTicks(c))[1]
  }

  lemma FirstTick(c: Config, mem: seq<Word>, a: Word, v: Word, b: Word)
    ensures LsbTick(c, [FinishedStore(a, v), StartingLoad(b)], mem) ==
            [FinishedStore(a, v),
             if a == b then StartingLoad(b).(state := LsbDone, result := v)
             else if LatencyOf(c, LW) <= 1 then StartingLoad(b).(state := LsbDone, result := ReadMem(mem, b))
             else Access(StartingLoad(b).(state := Accessing, rem := LatencyOf(c, LW) - 1), mem)]
  {
    var es := [FinishedStore(a, v), StartingLoad(b)];
    var ready := Resolved(es);
    assert ready == es;
    assert ScanStores(ready, b, 0) == Clear;
    assert ScanStores(ready, b, 1) == if a == b then Forward(0) else Clear;
  }

  lemma NextTick(c: Config, mem: seq<Word>, a: Word, v: Word, l: LsbEntry)
    requires l.op == LW && (l.state == Accessing || l.state == LsbDone)
    ensures LsbTick(c, [FinishedStore(a, v), l], mem) == [FinishedStore(a, v), Access(l, mem)]
  {
    assert Resolved([FinishedStore(a, v), l]) == [FinishedStore(a, v), l];
  }

  lemma {:induction false} LaterTicks(c: Config, mem: seq<Word>, a: Word, v: Word, b: Word, n: nat)
    requires n > 0
    ensures LsbTicks(c, [FinishedStore(a, v), StartingLoad(b)], mem, n) ==
            [FinishedStore(a, v),
             if a == b then StartingLoad(b).(state := LsbDone, result := v)
             else if n + 1 >= LatencyOf(c, LW) then StartingLoad(b).(state := LsbDone, result := ReadMem(mem, b))
             else StartingLoad(b).(state := Accessing, rem := LatencyOf(c, LW) - 1 - n)]
  {
    hide LsbTick, LatencyOf;
    var es := [FinishedStore(a, v), StartingLoad(b)];
    assert LsbTicks(c, es, mem, n) == LsbTick(c, LsbTicks(c, es, mem, n - 1), mem);
    if n == 1 {
      FirstTick(c, mem, a, v, b);
      assert LsbTicks(c, es, mem, 0) == es;
    } else {
      LaterTicks(c, mem, a, v, b, n - 1);
      NextTick(c, mem, a, v, LsbTicks(c, es, mem, n - 1)[1]);
    }
  }

  /** The premise for one store and one load, in a memory of n words. */
  predicate AliasingAgrees(n: nat, a: Word, b: Word) {
    a == b <==> a / 4 == b / 4 && b / 4 < n
  }

  /** The load gets the value program order demands, for every memory and every stored
      value, exactly when comparing byte addresses agrees with comparing memory words;
      a store to byte 4 followed by a load of byte 5 is one of the failures. */
  lemma ForwardingCorrectIff(c: Config, n: nat, a: Word, b: Word)
    ensures (forall mem: seq<Word>, v: Word :: |mem| == n ==> LoadedBehind(c, mem, a, v, b).result == ReadMem(WriteMem(mem, a, v), b))
            <==> AliasingAgrees(n, a, b)
    ensures n > 1 ==> !AliasingAgrees(n, 4, 5)
  {
    var zeros: seq<Word> := seq(n, i => 0);
    forall mem: seq<Word>, v: Word
      ensures LoadedBehind(c, mem, a, v, b).result == if a == b then v else ReadMem(mem, b)
    {
      LaterTicks(c, mem, a, v, b, LoadTicks(c));
    }
    hide LoadedBehind;
    if !AliasingAgrees(n, a, b) {
      assert LoadedBehind(c, zeros, a, 1, b).result != ReadMem(WriteMem(zeros, a, 1), b);
    }
  }

  // ----- A whole run without the premise -----

  /** SW x0, a(x0) followed by LW x2, b(x0). */
  function StoreThenLoad(a: Word, b: Word): seq<Instruction> {
    [Instruction(SW, -1, 0, 0, a, false, false, false, 0),
     Instruction(LW, 2, 0, -1, b, false, false, false, 4)]
  }

  /** Both instructions are dispatched in one cycle, and a load takes one cycle. */
  predicate Brisk(c: Config) {
    c.robSize > 1 && c.lsbSize > 1 && c.iqCapacity > 1 && c.width == 2 && LatencyOf(c, LW) <= 1 && !c.linear
  }

  predicate Idle(es: seq<RsEntry>) {
    forall i :: 0 <= i < |es| ==> es[i] == IDLE_RS
  }

  predicate AllIdle(s: Stations) {
    forall u :: 0 <= u < UNITS ==> Idle(s[u])
  }

  lemma {:induction false} NothingStarts(c: Config, f: ExecFn, es: seq<RsEntry>, n: nat)
    requires Idle(es) && n <= |es|
    ensures StartUpTo(c, f, es, n) == es
  {
    if n > 0 {
      NothingStarts(c, f, es, n - 1);
    }
  }

  lemma {:induction false} NothingFinished(es: seq<RsEntry>)
    requires Idle(es)
    ensures Results(es) == []
  {
    if es != [] {
      NothingFinished(es[..|es| - 1]);
    }
  }

  lemma IdleStation(c: Config, f: ExecFn, es: seq<RsEntry>, bus: seq<BusResult>)
    requires Idle(es)
    ensures StationTick(c, f, es) == es && Results(es) == [] && Drained(es) == es && SnoopStation(es, bus) == es
  {
    NothingStarts(c, f, es, |es|);
    NothingFinished(es);
    assert CountDownAll(f, es) == es;
  }

  lemma {:induction false} IdleResults(s: Stations, n: nat)
    requires AllIdle(s) && n <= UNITS
    ensures StationResults(s, n) == []
  {
    if n > 0 {
      IdleResults(s, n - 1);
      NothingFinished(s[n - 1]);
    }
  }

  /** Phases 1 to 4 with nothing in the stations: only the load/store buffer acts. */
  function ExecuteMemory(c: Config, m: Machine): Machine
    requires c.robSize > 0
  {
    var es := LsbTick(c, m.lsb, m.mem);
    var n := LoadRun(es);
    m.(rob := WriteAll(c, m.base, ReportStores(c, m.base, m.rob, es, |es|), LoadResults(es, n)),
       lsb := SnoopBuffer(es[n..], LoadResults(es, n)))
  }

  lemma IdleStations(c: Config, f: ExecFn, s: Stations, bus: seq<BusResult>)
    requires AllIdle(s)
    ensures seq(UNITS, u requires 0 <= u < UNITS => StationTick(c, f, s[u])) == s
    ensures seq(UNITS, u requires 0 <= u < UNITS => Drained(s[u])) == s
    ensures seq(UNITS, u requires 0 <= u < UNITS => SnoopStation(s[u], bus)) == s
  {
    hide StationTick, Results, Drained, SnoopStation, Idle;
    forall u | 0 <= u < UNITS
      ensures StationTick(c, f, s[u]) == s[u] && Drained(s[u]) == s[u] && SnoopStation(s[u], bus) == s[u]
    {
      IdleStation(c, f, s[u], bus);
    }
  }

  lemma IdleExecute(c: Config, f: ExecFn, m: Machine)
    requires c.robSize > 0 && AllIdle(m.stations)
    ensures Execute(c, f, m) == ExecuteMemory(c, m)
  {
    var es := LsbTick(c, m.lsb, m.mem);
    var bus := LoadResults(es, LoadRun(es));
    hide StationTick, Drained, SnoopStation, AllIdle, LsbTick, LoadRun, LoadResults, WriteAll, ReportStores, SnoopBuffer, StationResults;
    IdleStations(c, f, m.stations, bus);
    IdleResults(m.stations, UNITS);
    assert BusOf(Report(c, Tick(c, f, m))) == bus;
  }

  /** The two accesses in flight, the load waiting for no register. */
  function BothInFlight(mem: seq<Word>, s: Stations, rat: Rat, a: Word, b: Word): Machine {
    var code := StoreThenLoad(a, b);
    Machine(ZERO_REGS, mem, rat, 0, [NewRobEntry(code[0]), NewRobEntry(code[1])], s,
            [NewLsbEntry(code[0], 0, NO_OPERAND, NO_OPERAND), NewLsbEntry(code[1], 1, NO_OPERAND, NO_OPERAND)],
            Queue(2, []), false, false)
  }

  /** The load has finished with value v and the store has retired. */
  function LoadLeft(mem: seq<Word>, s: Stations, rat: Rat, a: Word, b: Word, v: Word): Machine {
    var code := StoreThenLoad(a, b);
    Machine(ZERO_REGS, WriteMem(mem, a, 0), rat, 1, [NewRobEntry(code[1])], s,
            [NewLsbEntry(code[1], 1, NO_OPERAND, NO_OPERAND).(addr := b, result := v, state := LsbDone)],
            Queue(2, []), false, false)
  }

  lemma ZeroBase(a: Word)
    ensures EffAddr(0, a) == a
  {
    SignedRoundTrip(a, 0);
  }

  lemma FetchBoth(c: Config, a: Word, b: Word)
    requires Brisk(c)
    ensures FetchUpTo(c, StoreThenLoad(a, b), Queue(0, []), 2) == Queue(2, StoreThenLoad(a, b))
  {
    var code := StoreThenLoad(a, b);
    assert FetchUpTo(c, code, Queue(0, []), 1) == Queue(1, [code[0]]);
  }

  function Mapped(): Rat { Rename(EMPTY_RAT, 2, false, 1) }

  lemma NoOperands(c: Config, rob: seq<RobEntry>)
    requires c.robSize > 0
    ensures Resolve(c, 0, false, EMPTY_RAT, ZERO_REGS, 0, rob) == NO_OPERAND
    ensures Resolve(c, -1, false, EMPTY_RAT, ZERO_REGS, 0, rob) == NO_OPERAND
  {
  }

  lemma PlaceStore(c: Config, s: Stations, mem: seq<Word>, a: Word, b: Word)
    requires Brisk(c)
    ensures var code := StoreThenLoad(a, b);
            var m := Machine(ZERO_REGS, mem, EMPTY_RAT, 0, [], s, [], Queue(2, code), false, false);
            CanDispatch(c, m)
            && Dispatch(c, m) == m.(rob := [NewRobEntry(code[0])], lsb := [NewLsbEntry(code[0], 0, NO_OPERAND, NO_OPERAND)],
                                    iq := Queue(2, [code[1]]))
  {
    hide Resolve, Rename, LatencyOf, NewRobEntry, NewLsbEntry, HasFree, FirstFree;
    NoOperands(c, [] + [NewRobEntry(StoreThenLoad(a, b)[0])]);
  }

  lemma PlaceLoad(c: Config, s: Stations, mem: seq<Word>, a: Word, b: Word)
    requires Brisk(c)
    ensures var code := StoreThenLoad(a, b);
            var m := BothInFlight(mem, s, EMPTY_RAT, a, b).(rob := [NewRobEntry(code[0])],
                       lsb := [NewLsbEntry(code[0], 0, NO_OPERAND, NO_OPERAND)], iq := Queue(2, [code[1]]));
            CanDispatch(c, m) && Dispatch(c, m) == BothInFlight(mem, s, Mapped(), a, b)
  {
    hide Resolve, Rename, LatencyOf, NewRobEntry, NewLsbEntry, HasFree, FirstFree;
    var code := StoreThenLoad(a, b);
    NoOperands(c, [NewRobEntry(code[0])] + [NewRobEntry(code[1])]);
  }

  lemma FirstCycle(c: Config, f: ExecFn, s: Stations, mem: seq<Word>, a: Word, b: Word)
    requires Brisk(c) && AllIdle(s)
    ensures Cycle(c, f, StoreThenLoad(a, b), Machine(ZERO_REGS, mem, EMPTY_RAT, 0, [], s, [], Queue(0, []), false, false))
            == BothInFlight(mem, s, Mapped(), a, b)
  {
    var m := Machine(ZERO_REGS, mem, EMPTY_RAT, 0, [], s, [], Queue(0, []), false, false);
    hide AllIdle, Dispatch, CanDispatch, FetchUpTo, Execute;
    IdleExecute(c, f, m);
    FetchBoth(c, a, b);
    PlaceStore(c, s, mem, a, b);
    PlaceLoad(c, s, mem, a, b);
  }

  /** What the load finds one cycle after dispatch, when the store has just finished. */
  function Found(mem: seq<Word>, a: Word, b: Word): Word {
    if a == b then 0 else ReadMem(mem, b)
  }

  lemma BothFinish(c: Config, mem: seq<Word>, s: Stations, rat: Rat, a: Word, b: Word)
    requires Brisk(c)
    ensures var m := BothInFlight(mem, s, rat, a, b);
            LsbTick(c, m.lsb, mem) ==
              [m.lsb[0].(addr := a, state := LsbDone), m.lsb[1].(addr := b, result := Found(mem, a, b), state := LsbDone)]
  {
    var es := BothInFlight(mem, s, rat, a, b).lsb;
    ZeroBase(a);
    ZeroBase(b);
    var ready := Resolved(es);
    assert ready == [es[0].(addr := a, state := LsbDone), es[1].(addr := b, state := AddrReady)];
    assert ScanStores(ready, b, 0) == Clear;
    assert ScanStores(ready, b, 1) == if a == b then Forward(0) else Clear;
  }

  /** The second cycle before retirement. */
  function BothDone(mem: seq<Word>, s: Stations, rat: Rat, a: Word, b: Word): Machine {
    var m := BothInFlight(mem, s, rat, a, b);
    m.(rob := [Finish(m.rob[0], 0), m.rob[1]],
       lsb := [m.lsb[0].(addr := a, state := LsbDone), m.lsb[1].(addr := b, result := Found(mem, a, b), state := LsbDone)])
  }

  lemma SecondExecute(c: Config, mem: seq<Word>, s: Stations, rat: Rat, a: Word, b: Word)
    requires Brisk(c)
    ensures ExecuteMemory(c, BothInFlight(mem, s, rat, a, b)) == BothDone(mem, s, rat, a, b)
  {
    var m := BothInFlight(mem, s, rat, a, b);
    var es := LsbTick(c, m.lsb, mem);
    hide LsbTick, Found, WriteMem, LatencyOf;
    BothFinish(c, mem, s, rat, a, b);
    assert ReportStores(c, 0, m.rob, es, 1) == [Finish(m.rob[0], 0), m.rob[1]];
    assert ReportStores(c, 0, m.rob, es, 2) == [Finish(m.rob[0], 0), m.rob[1]];
    assert LoadRun(es) == 0;
    assert SnoopBuffer(es, []) == es;
  }

  lemma SecondRetire(c: Config, mem: seq<Word>, s: Stations, rat: Rat, a: Word, b: Word)
    requires Brisk(c)
    ensures Issue(c, StoreThenLoad(a, b), Commit(c, BothDone(mem, s, rat, a, b))) == LoadLeft(mem, s, rat, a, b, Found(mem, a, b))
  {
    var m := LoadLeft(mem, s, rat, a, b, Found(mem, a, b));
    hide Found, WriteMem, ReadMem, LatencyOf;
    assert Commit(c, BothDone(mem, s, rat, a, b)) == m;
    assert FetchUpTo(c, StoreThenLoad(a, b), m.iq, 1) == m.iq;
  }

  lemma SecondCycle(c: Config, f: ExecFn, s: Stations, mem: seq<Word>, rat: Rat, a: Word, b: Word)
    requires Brisk(c) && AllIdle(s)
    ensures Cycle(c, f, StoreThenLoad(a, b), BothInFlight(mem, s, rat, a, b)) == LoadLeft(mem, s, rat, a, b, Found(mem, a, b))
  {
    hide AllIdle, Execute, ExecuteMemory, Commit, Issue;
    IdleExecute(c, f, BothInFlight(mem, s, rat, a, b));
    SecondExecute(c, mem, s, rat, a, b);
    SecondRetire(c, mem, s, rat, a, b);
  }

  lemma ThirdExecute(c: Config, mem: seq<Word>, s: Stations, rat: Rat, a: Word, b: Word, v: Word)
    requires Brisk(c)
    ensures var m := LoadLeft(mem, s, rat, a, b, v);
            ExecuteMemory(c, m) == m.(rob := [Finish(m.rob[0], v)], lsb := [])
  {
    var m := LoadLeft(mem, s, rat, a, b, v);
    hide WriteMem, ReadMem, LatencyOf;
    assert LsbTick(c, m.lsb, m.mem) == m.lsb;
    assert ReportStores(c, 1, m.rob, m.lsb, 1) == m.rob;
    assert LoadRun(m.lsb) == 1;
    assert LoadResults(m.lsb, 1) == [BusResult(1, v)];
    assert WriteAll(c, 1, m.rob, []) == m.rob;
  }

  lemma ThirdCycle(c: Config, f: ExecFn, s: Stations, mem: seq<Word>, rat: Rat, a: Word, b: Word, v: Word)
    requires Brisk(c) && AllIdle(s)
    ensures var m := Cycle(c, f, StoreThenLoad(a, b), LoadLeft(mem, s, rat, a, b, v));
            m.base == 2 && m.regs == Write(ZERO_REGS, 2, false, v) && m.mem == WriteMem(mem, a, 0)
  {
    var m := LoadLeft(mem, s, rat, a, b, v);
    hide AllIdle, Execute, ExecuteMemory, WriteMem, Write, Release;
    IdleExecute(c, f, m);
    ThirdExecute(c, mem, s, rat, a, b, v);
  }

  lemma SequentialStore(p: Program, a: Word, b: Word)
    requires p.code == StoreThenLoad(a, b)
    ensures StateAt(p, 1) == State(ZERO_REGS, WriteMem(p.mem, a, 0), 1)
  {
    hide WriteMem;
    assert StateAt(p, 0) == Initial(p);
  }

  lemma LoadAddress(mem: seq<Word>, b: Word)
    ensures AddressIn(State(ZERO_REGS, mem, 1), StoreThenLoad(0, b)[1]) == b
  {
  }

  lemma SequentialLoad(p: Program, mem: seq<Word>, a: Word, b: Word)
    requires p.code == StoreThenLoad(a, b)
    ensures Step(p, State(ZERO_REGS, mem, 1)).regs == Write(ZERO_REGS, 2, false, ReadMem(mem, b))
  {
    hide Write, Read, ReadMem, AddressIn, NextMem, NextPc;
    LoadAddress(mem, b);
    assert p.code[1] == StoreThenLoad(0, b)[1] && p.code[1].op == LW;
  }

  lemma SequentialPair(p: Program, a: Word, b: Word)
    requires p.code == StoreThenLoad(a, b)
    ensures StateAt(p, 2).regs == Write(ZERO_REGS, 2, false, ReadMem(WriteMem(p.mem, a, 0), b))
  {
    hide Step, Write, WriteMem, ReadMem;
    SequentialStore(p, a, b);
    SequentialLoad(p, WriteMem(p.mem, a, 0), a, b);
    assert StateAt(p, 2) == Step(p, StateAt(p, 1));
  }

  lemma PowerOnIdle(sizes: seq<nat>, mem: seq<Word>)
    requires |sizes| == UNITS
    ensures var m := PowerOn(sizes, mem);
            AllIdle(m.stations) && m == Machine(ZERO_REGS, mem, EMPTY_RAT, 0, [], m.stations, [], Queue(0, []), false, false)
  {
  }

  lemma NotStopped(mem: seq<Word>, s: Stations, rat: Rat, a: Word, b: Word, v: Word)
    ensures var code := StoreThenLoad(a, b);
            && !Stopped(code, Machine(ZERO_REGS, mem, EMPTY_RAT, 0, [], s, [], Queue(0, []), false, false))
            && !Stopped(code, BothInFlight(mem, s, rat, a, b))
            && !Stopped(code, LoadLeft(mem, s, rat, a, b, v))
  {
  }

  lemma PairRun(c: Config, sizes: seq<nat>, fp: FloatUnit, mem: seq<Word>, a: Word, b: Word)
    requires Brisk(Circular(c)) && |sizes| == UNITS
    ensures var m := After(c, sizes, StoreThenLoad(a, b), fp, mem, 3);
            m.base == 2 && m.regs == Write(ZERO_REGS, 2, false, Found(mem, a, b))
  {
    var d, f, code := Circular(c), SimulatorResults(fp), StoreThenLoad(a, b);
    var m := PowerOn(sizes, mem);
    var s, t, v := m.stations, Mapped(), Found(mem, a, b);
    hide Cycle, Stopped, AllIdle, SimulatorResults, StoreThenLoad, Found, PowerOn, BothInFlight, LoadLeft, Write, WriteMem, Mapped;
    PowerOnIdle(sizes, mem);
    FirstCycle(d, f, s, mem, a, b);
    SecondCycle(d, f, s, mem, t, a, b);
    ThirdCycle(d, f, s, mem, t, a, b, v);
    NotStopped(mem, s, t, a, b, v);
    assert Run(d, f, code, m, 0) == m;
    assert Run(d, f, code, m, 1) == BothInFlight(mem, s, t, a, b);
    assert Run(d, f, code, m, 2) == LoadLeft(mem, s, t, a, b, v);
  }

  /** Whole runs of this program, whose store writes zero: when both have retired, the
      registers are those of the sequential machine unless two different byte addresses
      name one word of memory and that word was not zero. */
  lemma PairRefinesIff(c: Config, sizes: seq<nat>, fp: FloatUnit, mem: seq<Word>, a: Word, b: Word)
    requires Brisk(Circular(c)) && |sizes| == UNITS
    ensures var code := StoreThenLoad(a, b);
            var m := After(c, sizes, code, fp, mem, 3);
            m.base == 2
            && (m.regs != StateAt(Reference(code, fp, mem), 2).regs <==> a != b && a / 4 == b / 4 && b / 4 < |mem| && mem[b / 4] != 0)
  {
    hide After, Brisk;
    PairRun(c, sizes, fp, mem, a, b);
    SequentialPair(Reference(StoreThenLoad(a, b), fp, mem), a, b);
    assert forall v: Word :: Read(Write(ZERO_REGS, 2, false, v), 2, false) == v;
  }

  // ----- Programs that meet the premises -----

  /** x0 stays zero in the sequential machine. */
  lemma {:induction false} ZeroRegister(p: Program, n: nat)
    ensures Read(StateAt(p, n).regs, 0, false) == 0
  {
    if n > 0 {
      ZeroRegister(p, n - 1);
      hide Produced, NextMem, NextPc;
    }
  }

  /** Every load and store addresses an aligned word inside memory relative to x0. */
  predicate StaticallyAligned(code: seq<Instruction>, words: nat) {
    forall i :: 0 <= i < |code| && IsMemory(code[i].op) ==> code[i].rs1 == 0 && code[i].imm % 4 == 0 && code[i].imm / 4 < words
  }

  /** Aligned accesses inside memory, however the program computes them, are enough. */
  lemma AlignedIsAdmissible(p: Program)
    requires forall i :: 0 <= i < |p.code| ==> Decodable(p.code[i]) && p.code[i].pc == ByteAddr(i)
    requires AlignedInRange(TraceOf(p))
    ensures Admissible(p)
  {
    AlignedIsUnambiguous(TraceOf(p));
  }

  lemma StaticAddress(p: Program, n: nat)
    requires StaticallyAligned(p.code, |p.mem|)
    ensures var t := StateAt(p, n);
            var i := InstructionAt(p, t);
            IsMemory(i.op) ==> AddressIn(t, i) % 4 == 0 && AddressIn(t, i) / 4 < |p.mem|
  {
    hide StateAt;
    ZeroRegister(p, n);
  }

  /** A condition on the text of the program alone under which the theorems apply. */
  lemma StaticallyAlignedIsAdmissible(p: Program)
    requires forall i :: 0 <= i < |p.code| ==> Decodable(p.code[i]) && p.code[i].pc == ByteAddr(i)
    requires StaticallyAligned(p.code, |p.mem|)
    ensures Admissible(p)
  {
    hide StateAt, Decodable, Admissible, StaticallyAligned, AddressIn, InstructionAt, IsTrace, NoHaltBefore;
    var x := TraceOf(p);
    forall n: nat | Live(x, n) && IsMemory(At(x, n).op)
      ensures Addr(x, n) % 4 == 0 && Addr(x, n) / 4 < |x.p.mem|
    {
      AtIs(x, n);
      AddrIs(x, n);
      StaticAddress(p, n);
    }
    AlignedIsAdmissible(p);
  }
}
