/** The rates of a cycle: how many instructions are fetched, dispatched and retired, and
    that no finished result is left over. */
module CycleTiming {
  import opened Words
  import opened Instructions
  import opened ArchState
  import opened Buffers
  import opened Machines
  import opened CommitProofs
  import opened DispatchProofs
  import opened Tags
  import opened Simulation

  // ----- Fetch -----

  function Least(a: int, b: int): int { if a <= b then a else b }

  function AtLeastZero(a: int): nat { if a < 0 then 0 else a }

  /** Instructions that can be fetched: the width, the room in the queue and the rest of
      the program, whichever is least. */
  function Fetchable(width: nat, capacity: nat, length: nat, q: Queue): nat {
    Least(width, Least(AtLeastZero(capacity - |q.buffer|), AtLeastZero(length - q.pc)))
  }

  /** A cycle fetches exactly as many instructions as it can, the next of the program. */
  lemma {:induction false} FetchesAll(c: Config, code: seq<Instruction>, q: Queue, n: nat)
    ensures var k, p := Fetchable(n, c.iqCapacity, |code|, q), FetchUpTo(c, code, q, n);
            if k == 0 then p == q else q.pc + k <= |code| && p == Queue(q.pc + k, q.buffer + code[q.pc..q.pc + k])
  {
    if n > 0 {
      FetchesAll(c, code, q, n - 1);
      var k := Fetchable(n - 1, c.iqCapacity, |code|, q);
      if 0 < k && q.pc + k < |code| {
        assert q.buffer + code[q.pc..q.pc + k] + [code[q.pc + k]] == q.buffer + code[q.pc..q.pc + k + 1];
      }
    }
  }

  // ----- Dispatch -----

  predicate Transfer(op: Opcode) {
    match op
    case BEQ | BNE | BLT | BGE | JAL | JALR => true
    case _ => false
  }

  predicate Accesses(op: Opcode) { op == LW || op == SW || op == FLW || op == FSW }

  /** The instruction finds a reorder-buffer slot and a slot in its unit. */
  ghost predicate Fits(c: Config, m: Machine, i: Instruction) {
    && |m.rob| < c.robSize
    && if Accesses(i.op) then |m.lsb| < c.lsbSize
       else exists s :: 0 <= s < |m.stations[UnitOf(i.op)]| && !m.stations[UnitOf(i.op)][s].busy
  }

  /** A reorder-buffer entry as dispatch makes it. */
  predicate Fresh(e: RobEntry, i: Instruction) {
    e.state == InFlight && e.op == i.op && e.rd == i.rd && e.rdFp == i.rdFp && e.pc == i.pc
  }

  /** From m to p exactly the first k instructions of the queue have been dispatched. */
  ghost predicate Dispatched(m: Machine, p: Machine, k: nat) {
    && k <= |m.iq.buffer|
    && p.base == m.base && |p.rob| == |m.rob| + k && p.rob[..|m.rob|] == m.rob
    && forall i :: 0 <= i < k ==> Fresh(p.rob[|m.rob| + i], m.iq.buffer[i])
  }

  /** Why dispatching ended after k instructions: the last one is a control transfer, with
      which the rest of the queue is dropped, or the width is used up, or nothing is left,
      or the next instruction does not fit. */
  ghost predicate Ended(c: Config, m: Machine, p: Machine, n: nat, k: nat) {
    if k > 0 && k <= |m.iq.buffer| && Transfer(m.iq.buffer[k - 1].op)
    then p.branchInFlight && p.iq == Queue((m.iq.buffer[k - 1].pc + 4) % WORD_COUNT / 4, [])
    else
      && k <= |m.iq.buffer|
      && p.branchInFlight == m.branchInFlight && p.iq == Queue(m.iq.pc, m.iq.buffer[k..])
      && (k == n || p.iq.buffer == [] || !Fits(c, p, p.iq.buffer[0]))
  }

  lemma ClassIs(op: Opcode)
    ensures IsControl(op) == Transfer(op) && IsMemory(op) == Accesses(op)
  {
  }

  lemma FitsIs(c: Config, m: Machine, i: Instruction)
    ensures Room(c, m, i.op) <==> Fits(c, m, i)
  {
    ClassIs(i.op);
  }

  lemma DispatchOne(c: Config, m: Machine)
    requires c.robSize > 0 && CanDispatch(c, m)
    ensures m.iq.buffer != [] && Dispatched(m, Dispatch(c, m), 1)
    ensures var i, p := m.iq.buffer[0], Dispatch(c, m);
            if Transfer(i.op) then p.branchInFlight && p.iq == Queue((i.pc + 4) % WORD_COUNT / 4, [])
            else p.branchInFlight == m.branchInFlight && p.iq == Queue(m.iq.pc, m.iq.buffer[1..])
  {
    hide Dispatch, Slot, Room, RatWith, Transfer;
    ClassIs(m.iq.buffer[0].op);
    DispatchFields(c, m, Slot(c, m.base + |m.rob|));
  }

  lemma MoreDispatched(m: Machine, d: Machine, p: Machine, k: nat)
    requires m.iq.buffer != [] && Dispatched(m, d, 1) && d.iq.buffer == m.iq.buffer[1..] && Dispatched(d, p, k)
    ensures Dispatched(m, p, k + 1)
  {
    hide Fresh;
    assert p.rob[..|m.rob|] == p.rob[..|d.rob|][..|m.rob|];
    forall i | 0 <= i < k + 1
      ensures Fresh(p.rob[|m.rob| + i], m.iq.buffer[i])
    {
      if i == 0 {
        assert p.rob[|m.rob|] == p.rob[..|d.rob|][|m.rob|];
      } else {
        assert Fresh(p.rob[|d.rob| + (i - 1)], d.iq.buffer[i - 1]);
      }
    }
  }

  lemma EndedMore(c: Config, m: Machine, d: Machine, p: Machine, n: nat, k: nat)
    requires m.iq.buffer != [] && n > 0 && d.iq == Queue(m.iq.pc, m.iq.buffer[1..]) && d.branchInFlight == m.branchInFlight
    requires !Transfer(m.iq.buffer[0].op) && Ended(c, d, p, n - 1, k)
    ensures Ended(c, m, p, n, k + 1)
  {
    hide Fits, Transfer;
  }

  /** None of the first k instructions is a control transfer. */
  ghost predicate NoTransfer(buffer: seq<Instruction>, k: int) {
    forall i :: 0 <= i < k && i < |buffer| ==> !Transfer(buffer[i].op)
  }

  lemma NoTransferMore(buffer: seq<Instruction>, k: nat)
    requires buffer != [] && !Transfer(buffer[0].op) && NoTransfer(buffer[1..], k - 1)
    ensures NoTransfer(buffer, k)
  {
    hide Transfer;
    forall i | 0 <= i < k && i < |buffer|
      ensures !Transfer(buffer[i].op)
    {
      if i > 0 {
        assert buffer[i] == buffer[1..][i - 1];
      }
    }
  }

  lemma NothingDispatched(c: Config, m: Machine, n: nat)
    requires n == 0 || !CanDispatch(c, m)
    ensures Dispatched(m, m, 0) && Ended(c, m, m, n, 0) && NoTransfer(m.iq.buffer, -1)
  {
    hide Room, Fits, Transfer, Fresh;
    if m.iq.buffer != [] {
      FitsIs(c, m, m.iq.buffer[0]);
    }
  }

  lemma EndedAtTransfer(c: Config, m: Machine, p: Machine, n: nat)
    requires n > 0 && m.iq.buffer != [] && Transfer(m.iq.buffer[0].op)
    requires p.branchInFlight && p.iq == Queue((m.iq.buffer[0].pc + 4) % WORD_COUNT / 4, [])
    ensures Ended(c, m, p, n, 1) && NoTransfer(m.iq.buffer, 0)
  {
    hide Fits, Transfer;
  }

  /** Within a cycle instructions are dispatched in order, as many as the width allows,
      up to and including the first control transfer, while they fit. */
  lemma {:induction false} DispatchesAll(c: Config, m: Machine, n: nat) returns (k: nat)
    requires c.robSize > 0
    ensures var p := DispatchUpTo(c, m, n); k <= n && Dispatched(m, p, k) && Ended(c, m, p, n, k) && NoTransfer(m.iq.buffer, k - 1)
    decreases n
  {
    hide Dispatch, CanDispatch, Dispatched, Ended, NoTransfer, Transfer, IsControl;
    if n > 0 && CanDispatch(c, m) {
      var d := Dispatch(c, m);
      DispatchOne(c, m);
      ClassIs(m.iq.buffer[0].op);
      if IsControl(m.iq.buffer[0].op) {
        k := 1;
        EndedAtTransfer(c, m, d, n);
      } else {
        var j := DispatchesAll(c, d, n - 1);
        var p := DispatchUpTo(c, d, n - 1);
        k := j + 1;
        MoreDispatched(m, d, p, j);
        EndedMore(c, m, d, p, n, j);
        NoTransferMore(m.iq.buffer, j);
      }
    } else {
      k := 0;
      NothingDispatched(c, m, n);
    }
  }

  /** The last phase of a cycle: nothing while a control transfer is pending or after
      HALT; otherwise all that can be fetched, then all that can be dispatched. */
  lemma IssueRate(c: Config, code: seq<Instruction>, m: Machine) returns (k: nat)
    requires c.robSize > 0
    ensures m.branchInFlight || m.halted ==> k == 0 && Issue(c, code, m) == m
    ensures !m.branchInFlight && !m.halted ==>
              var q, p := m.(iq := FetchUpTo(c, code, m.iq, c.width)), Issue(c, code, m);
              k <= c.width && Dispatched(q, p, k) && Ended(c, q, p, c.width, k) && NoTransfer(q.iq.buffer, k - 1)
    ensures Issue(c, code, m).base + |Issue(c, code, m).rob| == m.base + |m.rob| + k
  {
    hide DispatchUpTo, FetchUpTo, Ended, NoTransfer;
    if m.branchInFlight || m.halted {
      k := 0;
    } else {
      k := DispatchesAll(c, Fetch(c, code, m), c.width);
    }
  }

  // ----- Retirement and left-overs -----

  /** A cycle retires the oldest instruction exactly when its entry is finished after the
      broadcast, and never another one. */
  lemma RetireRate(c: Config, f: ExecFn, code: seq<Instruction>, m: Machine) returns (k: nat)
    requires c.robSize > 0
    ensures var e, p := Execute(c, f, m), Cycle(c, f, code, m);
            && p.base == m.base + (if |e.rob| > 0 && e.rob[0].state == RobDone then 1 else 0)
            && k <= c.width && p.base + |p.rob| == m.base + |m.rob| + k
  {
    hide Execute, Retire, Issue, Dispatched, Ended, NoTransfer, FetchUpTo, RegsAfter, RatAfter, LsbAfter, WriteMem;
    var e := Execute(c, f, m);
    ExecuteWindow(c, f, m);
    if HeadReady(e) {
      RetireFields(c, e, Slot(c, e.base));
    }
    k := IssueRate(c, code, Commit(c, e));
    IssueKeepsBase(c, code, Commit(c, e));
  }

  lemma ExecuteWindow(c: Config, f: ExecFn, m: Machine)
    requires c.robSize > 0
    ensures Execute(c, f, m).base == m.base && |Execute(c, f, m).rob| == |m.rob|
  {
    hide StationTick, LsbTick, BusOf, SnoopStation, SnoopBuffer, Drained, LoadRun;
  }

  lemma IssueKeepsBase(c: Config, code: seq<Instruction>, m: Machine)
    requires c.robSize > 0
    ensures Issue(c, code, m).base == m.base
  {
    hide DispatchUpTo, FetchUpTo, Ended, NoTransfer;
    var k := IssueRate(c, code, m);
  }

  /** After the broadcast no station holds a finished operation and no finished load is
      at the head of the load/store buffer. */
  lemma NothingLeftOver(c: Config, f: ExecFn, m: Machine)
    requires c.robSize > 0
    ensures var e := Execute(c, f, m);
            && (forall u, i :: 0 <= u < UNITS && 0 <= i < |e.stations[u]| ==> !(e.stations[u][i].busy && e.stations[u][i].done))
            && (e.lsb != [] ==> !((e.lsb[0].op == LW || e.lsb[0].op == FLW) && e.lsb[0].state == LsbDone))
  {
    hide StationTick, LsbTick, BusOf, WriteAll, ReportStores, CatchAll;
  }

  /** Reporting leaves no finished store whose reorder-buffer entry is still in flight. */
  lemma {:induction false} StoresReported(c: Config, base: nat, rob: seq<RobEntry>, es: seq<LsbEntry>, n: nat, i: nat)
    requires c.robSize > 0 && i < n <= |es| && (es[i].op == SW || es[i].op == FSW) && es[i].state == LsbDone
    ensures Peek(c, base, ReportStores(c, base, rob, es, n), es[i].tag).state != InFlight
  {
    hide Position;
    if i < n - 1 {
      StoresReported(c, base, rob, es, n - 1, i);
    }
  }

  /** Rates over whole runs of every program: in n cycles at most n instructions retire
      and at most n times the width are dispatched. */
  lemma {:induction false} RunRate(c: Config, sizes: seq<nat>, code: seq<Instruction>, fp: FloatUnit, mem: seq<Word>, n: nat)
    requires c.robSize > 0 && |sizes| == UNITS
    ensures var m := After(c, sizes, code, fp, mem, n); m.base <= n && m.base + |m.rob| <= n * c.width
  {
    hide Cycle, Execute, SimulatorResults, Stopped, PowerOn;
    if n == 0 {
      PowerOnEmpty(sizes, mem);
    } else {
      RunRate(c, sizes, code, fp, mem, n - 1);
      var k := RetireRate(Circular(c), SimulatorResults(fp), code, After(c, sizes, code, fp, mem, n - 1));
      assert n * c.width == (n - 1) * c.width + c.width;
    }
  }

  lemma PowerOnEmpty(sizes: seq<nat>, mem: seq<Word>)
    requires |sizes| == UNITS
    ensures PowerOn(sizes, mem).base == 0 && PowerOn(sizes, mem).rob == []
  {
  }
}
