/** The circular load/store buffer, updated in place. */
module LoadStoreUnit {
  import opened Words
  import opened Instructions
  import opened ArchState
  import opened Renaming
  import opened Buffers
  import opened Rings
  import opened RegisterUnits
  import opened ReorderBufferUnit
  import opened StationUnit

  class LoadStoreBuffer {
    const c: Config
    var entries: seq<LsbEntry>
    var head: nat
    var tail: nat
    var count: nat
    /** How many entries have left the buffer; head is the slot of the next. */
    ghost var base: nat

    ghost predicate Valid()
      reads this
    {
      && 0 < |entries| && |entries| == c.lsbSize && count <= |entries|
      && head == Wrap(base, 0, |entries|) && tail == Wrap(base, count, |entries|)
      && Vacant(entries, base, count, IDLE_LSB)
    }

    /** The buffered accesses in program order, oldest first. */
    ghost function Contents(): (s: seq<LsbEntry>)
      requires Valid()
      reads this
      ensures |s| == count
    {
      Window(entries, base, count)
    }

    constructor (c: Config)
      requires c.lsbSize > 0
      ensures Valid() && this.c == c && Contents() == []
    {
      this.c := c;
      entries := seq(c.lsbSize, i => IDLE_LSB);
      head, tail, count, base := 0, 0, 0, 0;
    }

    predicate Full()
      reads this
    {
      count == c.lsbSize
    }

    predicate Empty()
      reads this
    {
      count == 0
    }

    /** The slot of the i-th oldest entry. */
    function Phys(i: nat): (s: nat)
      requires Valid()
      reads this
      ensures s == Wrap(base, i, |entries|)
    {
      WrapFromHead(base, i, |entries|);
      (head + i) % |entries|
    }

    /** Overwrite the i-th oldest entry. */
    method Put(i: nat, e: LsbEntry)
      requires Valid() && i < count
      modifies this`entries
      ensures Valid() && Contents() == old(Contents())[i := e]
    {
      UpdateAt(entries, base, count, i, e, IDLE_LSB);
      var slot := Phys(i);
      hide Wrap;
      entries := entries[slot := e];
    }

    method Get(i: nat) returns (e: LsbEntry)
      requires Valid() && i < count
      ensures e == Contents()[i]
    {
      e := entries[Phys(i)];
    }

    method Issue(i: Instruction, tag: int, rat: RegisterRemappingTable, rf: RegisterFile, rob: ReorderBuffer)
      returns (ok: bool)
      requires Valid() && rat.Valid() && rf.Valid() && rob.Valid()
      requires RatInRange(rob.c.robSize, rat.View())
      modifies this
      ensures Valid()
      ensures ok == (|old(Contents())| < c.lsbSize)
      ensures ok ==>
                var j := Resolve(rob.c, i.rs1, false, rat.View(), rf.View(), rob.base, rob.Contents());
                var k := Resolve(rob.c, i.rs2, i.rs2Fp, rat.View(), rf.View(), rob.base, rob.Contents());
                Contents() == old(Contents()) + [NewLsbEntry(i, tag, j, k)]
      ensures !ok ==> Contents() == old(Contents())
    {
      if Full() {
        return false;
      }
      VacantAt(entries, base, count, IDLE_LSB, count);
      var e := entries[tail];
      var j := ResolveOperand(i.rs1, false, rat, rf, rob, e.j.v);
      var k := ResolveOperand(i.rs2, i.rs2Fp, rat, rf, rob, e.k.v);
      hide Resolve, RatInRange;
      WrapNext(base, count, |entries|);
      Push(entries, base, count, NewLsbEntry(i, tag, j, k), IDLE_LSB);
      hide Wrap;
      entries := entries[tail := e.(state := Waiting, op := i.op, tag := tag, imm := i.imm, rdFp := i.rdFp,
                                    rem := 0, result := 0, pc := i.pc, j := j, k := k)];
      tail := (tail + 1) % |entries|;
      count := count + 1;
      return true;
    }

    method Snoop(cdb: CommonDataBus)
      requires Valid()
      modifies this
      ensures Valid() && Contents() == SnoopBuffer(old(Contents()), cdb.pending)
    {
      var b := 0;
      ghost var was := Contents();
      while b < |cdb.pending|
        invariant 0 <= b <= |cdb.pending|
        invariant Valid() && Contents() == SnoopBuffer(was, cdb.pending[..b])
      {
        SnoopOne(cdb.pending[b]);
        SnoopBufferNext(was, cdb.pending, b);
        b := b + 1;
      }
      assert cdb.pending[..b] == cdb.pending;
    }

    method SnoopOne(r: BusResult)
      requires Valid()
      modifies this`entries
      ensures Valid() && Contents() == SnoopBuffer(old(Contents()), [r])
    {
      var n := 0;
      ghost var was := Contents();
      while n < count
        invariant 0 <= n <= count && Valid()
        invariant forall i :: 0 <= i < n ==> Contents()[i] == SnoopLsb(was[i], [r])
        invariant forall i :: n <= i < count ==> Contents()[i] == was[i]
      {
        var e := Get(n);
        if e.state != LsbIdle && e.state != LsbDone {
          if e.j.q == r.tag {
            e := e.(j := Operand(r.value, -1));
          }
          if e.k.q == r.tag {
            e := e.(k := Operand(r.value, -1));
          }
          CatchOne(was[n].j, r);
          CatchOne(was[n].k, r);
          Put(n, e);
        }
        n := n + 1;
      }
    }

    // ----- One cycle: four passes -----

    method Tick(mem: array<Word>)
      requires Valid()
      modifies this
      ensures Valid() && Contents() == LsbTick(c, old(Contents()), mem[..])
    {
      ResolveAddresses();
      CloseStores();
      ghost var ready := Contents();
      assert ready == Resolved(old(Contents()));
      StartLoads(mem);
      AdvanceLoads(mem);
    }

    /** Pass 1. */
    method ResolveAddresses()
      requires Valid()
      modifies this`entries
      ensures Valid() && |Contents()| == |old(Contents())|
      ensures forall i :: 0 <= i < |Contents()| ==> Contents()[i] == Address(old(Contents())[i])
    {
      var n := 0;
      ghost var was := Contents();
      while n < count
        invariant 0 <= n <= count && Valid()
        invariant forall i :: 0 <= i < n ==> Contents()[i] == Address(was[i])
        invariant forall i :: n <= i < count ==> Contents()[i] == was[i]
      {
        var e := Get(n);
        if e.state == Waiting && e.j.q == -1 {
          e := e.(addr := ToWord(Signed(e.j.v) + Signed(e.imm)));
          Put(n, e.(state := AddrReady));
        }
        n := n + 1;
      }
    }

    /** Pass 2. */
    method CloseStores()
      requires Valid()
      modifies this`entries
      ensures Valid() && |Contents()| == |old(Contents())|
      ensures forall i :: 0 <= i < |Contents()| ==> Contents()[i] == CloseStore(old(Contents())[i])
    {
      var n := 0;
      ghost var was := Contents();
      while n < count
        invariant 0 <= n <= count && Valid()
        invariant forall i :: 0 <= i < n ==> Contents()[i] == CloseStore(was[i])
        invariant forall i :: n <= i < count ==> Contents()[i] == was[i]
      {
        var e := Get(n);
        if e.state == AddrReady && IsStore(e.op) && e.k.q == -1 {
          Put(n, e.(state := LsbDone));
        }
        n := n + 1;
      }
    }

    /** Pass 3: what each load does, given the older stores as they stand. */
    method StartLoads(mem: array<Word>)
      requires Valid()
      modifies this`entries
      ensures Valid() && |Contents()| == |old(Contents())|
      ensures forall i :: 0 <= i < |Contents()| ==> Contents()[i] == StartLoad(c, old(Contents()), mem[..], i)
    {
      var n := 0;
      ghost var was := Contents();
      hide StartLoad, Wrap, Window, Vacant;
      while n < count
        invariant 0 <= n <= count && Valid()
        invariant forall i :: 0 <= i < n ==> Contents()[i] == StartLoad(c, was, mem[..], i)
        invariant forall i :: n <= i < count ==> Contents()[i] == was[i]
      {
        StartIgnoresLoads(c, was, Contents(), mem[..], n);
        StartOne(n, mem);
        n := n + 1;
      }
    }

    method StartOne(n: nat, mem: array<Word>)
      requires Valid() && n < count
      modifies this`entries
      ensures Valid() && Contents() == old(Contents())[n := StartLoad(c, old(Contents()), mem[..], n)]
    {
      var e := Get(n);
      if e.state != AddrReady || !IsLoad(e.op) {
        return;
      }
      var blocked, fwd := AliasScan(n, e.addr);
      hide Wrap, Window, Vacant, ScanStores;
      if blocked {
        return;
      }
      if fwd >= 0 {
        var s := Get(fwd);
        Put(n, e.(result := s.k.v, state := LsbDone));
        return;
      }
      var lat := LatencyOf(c, e.op);
      if lat <= 1 {
        var v := ReadWord(mem, e.addr);
        Put(n, e.(result := v, state := LsbDone));
      } else {
        Put(n, e.(rem := lat - 1, state := Accessing));
      }
    }

    /** The scan of a load's older stores: blocked, or the youngest finished alias, or -1. */
    method AliasScan(n: nat, a: Word) returns (blocked: bool, fwd: int)
      requires Valid() && n <= count
      ensures blocked == ScanStores(Contents(), a, n).Blocked?
      ensures !blocked ==> -1 <= fwd < n && ScanStores(Contents(), a, n) == (if fwd >= 0 then Forward(fwd) else Clear)
    {
      blocked, fwd := false, -1;
      var j := 0;
      hide Wrap, Window, Vacant;
      while j < n
        invariant 0 <= j <= n && -1 <= fwd < j && !blocked
        invariant ScanStores(Contents(), a, j) == if fwd >= 0 then Forward(fwd) else Clear
      {
        var older := Get(j);
        if IsStore(older.op) {
          if older.state == Waiting || (older.addr == a && older.state != LsbDone) {
            BlockedStays(Contents(), a, j + 1, n);
            return true, -1;
          }
          if older.addr == a {
            fwd := j;
          }
        }
        j := j + 1;
      }
    }

    /** Pass 4. */
    method AdvanceLoads(mem: array<Word>)
      requires Valid()
      modifies this`entries
      ensures Valid() && |Contents()| == |old(Contents())|
      ensures forall i :: 0 <= i < |Contents()| ==> Contents()[i] == Access(old(Contents())[i], mem[..])
    {
      var n := 0;
      ghost var was := Contents();
      while n < count
        invariant 0 <= n <= count && Valid()
        invariant forall i :: 0 <= i < n ==> Contents()[i] == Access(was[i], mem[..])
        invariant forall i :: n <= i < count ==> Contents()[i] == was[i]
      {
        var e := Get(n);
        if e.state == Accessing {
          e := e.(rem := e.rem - 1);
          if e.rem == 0 {
            var v := ReadWord(mem, e.addr);
            e := e.(result := v, state := LsbDone);
          }
          Put(n, e);
        }
        n := n + 1;
      }
    }

    // ----- The head of the buffer -----

    predicate HasLoadResult()
      requires Valid()
      reads this
      ensures HasLoadResult() <==> LoadRun(Contents()) > 0
    {
      !Empty() && entries[head].state == LsbDone && IsLoad(entries[head].op)
    }

    predicate CanCommitStore()
      requires Valid()
      reads this
      ensures CanCommitStore() <==> |Contents()| > 0 && DoneStore(Contents()[0])
    {
      !Empty() && entries[head].state == LsbDone && IsStore(entries[head].op)
    }

    /** The head leaves the buffer. */
    method Advance()
      requires Valid() && count > 0
      modifies this
      ensures Valid() && Contents() == old(Contents())[1..]
    {
      Pop(entries, base, count, IDLE_LSB);
      WrapNext(base, 0, |entries|);
      WrapMoved(base, 0, |entries|);
      WrapMoved(base, count - 1, |entries|);
      hide Wrap;
      entries := entries[head := IDLE_LSB];
      head := (head + 1) % |entries|;
      count := count - 1;
      base := base + 1;
    }

    method PopLoadResult() returns (e: LsbEntry)
      requires Valid() && HasLoadResult()
      modifies this
      ensures Valid() && e == old(Contents())[0] && Contents() == old(Contents())[1..]
    {
      e := entries[head];
      Advance();
    }

    method CommitStore(mem: array<Word>)
      requires Valid() && CanCommitStore()
      modifies this, mem
      ensures Valid() && Contents() == old(Contents())[1..]
      ensures mem[..] == WriteMem(old(mem[..]), old(Contents())[0].addr, old(Contents())[0].k.v)
    {
      var h := entries[head];
      var wa := h.addr / 4;
      if wa < mem.Length {
        mem[wa] := h.k.v;
      }
      Advance();
    }

    /** Finished stores are reported to the reorder buffer, oldest first. */
    method UpdateRob(rob: ReorderBuffer)
      requires Valid() && rob.Valid() && TagsInRange(rob.c.robSize, Contents())
      modifies rob
      ensures rob.Valid() && rob.base == old(rob.base)
      ensures rob.Contents() == ReportStores(rob.c, rob.base, old(rob.Contents()), Contents(), |Contents()|)
    {
      var n := 0;
      ghost var was := rob.Contents();
      hide Wrap, Window, Vacant, Peek, WriteResult;
      while n < count
        invariant 0 <= n <= count && rob.Valid() && rob.base == old(rob.base)
        invariant rob.Contents() == ReportStores(rob.c, rob.base, was, Contents(), n)
      {
        var e := Get(n);
        ReportEntry(e, rob);
        n := n + 1;
      }
    }
  }

  method ReportEntry(e: LsbEntry, rob: ReorderBuffer)
    requires rob.Valid() && 0 <= e.tag < rob.c.robSize
    modifies rob
    ensures rob.Valid() && rob.base == old(rob.base)
    ensures rob.Contents() == if DoneStore(e) && Peek(rob.c, rob.base, old(rob.Contents()), e.tag).state == InFlight
                              then WriteResult(rob.c, rob.base, old(rob.Contents()), e.tag, 0) else old(rob.Contents())
  {
    if IsStore(e.op) && e.state == LsbDone {
      var r := rob.PeekEntry(e.tag);
      hide Wrap, Window, Vacant, Peek, WriteResult;
      if r.state == InFlight {
        rob.WriteBack(e.tag, 0);
      }
    }
  }

  method ReadWord(mem: array<Word>, a: Word) returns (v: Word)
    ensures v == ReadMem(mem[..], a)
  {
    var wa := a / 4;
    if wa < mem.Length {
      v := mem[wa];
    } else {
      v := 0;
    }
  }

  /** Starting a load depends only on the stores before it. */
  lemma StartIgnoresLoads(c: Config, was: seq<LsbEntry>, es: seq<LsbEntry>, mem: seq<Word>, n: nat)
    requires |es| == |was| && n < |es| && es[n] == was[n]
    requires forall i :: 0 <= i < n ==> es[i] == StartLoad(c, was, mem, i)
    ensures StartLoad(c, es, mem, n) == StartLoad(c, was, mem, n)
  {
    ScanIgnoresLoads(c, was, es, mem, es[n].addr, n);
    ScanIsStore(was, es[n].addr, n);
  }

  lemma {:induction false} BlockedStays(es: seq<LsbEntry>, a: Word, m: nat, n: nat)
    requires m <= n <= |es| && ScanStores(es, a, m) == Blocked
    ensures ScanStores(es, a, n) == Blocked
  {
    if m < n {
      BlockedStays(es, a, m, n - 1);
    }
  }

  /** A forwarding scan names a store. */
  lemma {:induction false} ScanIsStore(es: seq<LsbEntry>, a: Word, n: nat)
    requires n <= |es|
    ensures var r := ScanStores(es, a, n); r.Forward? ==> IsStore(es[r.from].op)
  {
    if n > 0 {
      ScanIsStore(es, a, n - 1);
    }
  }

  /** The scan looks only at stores, which starting older loads leaves alone. */
  lemma {:induction false} ScanIgnoresLoads(c: Config, was: seq<LsbEntry>, es: seq<LsbEntry>, mem: seq<Word>, a: Word, n: nat)
    requires |es| == |was| && n <= |es|
    requires forall i :: 0 <= i < n ==> es[i] == StartLoad(c, was, mem, i)
    ensures ScanStores(es, a, n) == ScanStores(was, a, n)
    ensures forall i :: 0 <= i < n && IsStore(was[i].op) ==> es[i] == was[i]
  {
    if n > 0 {
      ScanIgnoresLoads(c, was, es, mem, a, n - 1);
    }
  }

  lemma SnoopBufferNext(es: seq<LsbEntry>, bus: seq<BusResult>, b: nat)
    requires b < |bus|
    ensures SnoopBuffer(SnoopBuffer(es, bus[..b]), [bus[b]]) == SnoopBuffer(es, bus[..b + 1])
  {
    forall i | 0 <= i < |es|
      ensures SnoopLsb(SnoopLsb(es[i], bus[..b]), [bus[b]]) == SnoopLsb(es[i], bus[..b + 1])
    {
      CatchNext(es[i].j, bus, b);
      CatchNext(es[i].k, bus, b);
      hide CatchAll;
    }
  }
}
