/** Operand forwarding at dispatch, the common data bus, and the reservation station. */
module StationUnit {
  import opened Words
  import opened Instructions
  import opened Renaming
  import opened Buffers
  import opened RegisterUnits
  import opened ReorderBufferUnit

  /** v0 is what the destination field held before: it is left alone while waiting. */
  method ResolveOperand(idx: RegField, fp: bool, rat: RegisterRemappingTable, rf: RegisterFile,
                        rob: ReorderBuffer, v0: Word) returns (o: Operand)
    requires rat.Valid() && rf.Valid() && rob.Valid()
    requires RatInRange(rob.c.robSize, rat.View())
    ensures var r := Resolve(rob.c, idx, fp, rat.View(), rf.View(), rob.base, rob.Contents());
            o == if r.q == -1 then r else Operand(v0, r.q)
  {
    if idx < 0 {
      return Operand(0, -1);
    }
    var e := rat.LookupReg(idx, fp);
    if !e.valid {
      var v := rf.ReadReg(idx, fp);
      return Operand(v, -1);
    }
    var r := rob.PeekEntry(e.tag);
    if r.state == RobDone {
      return Operand(r.result, -1);
    }
    return Operand(v0, e.tag);
  }

  class CommonDataBus {
    var pending: seq<BusResult>

    constructor ()
      ensures pending == []
    {
      pending := [];
    }

    method Broadcast(tag: int, value: Word)
      modifies this
      ensures pending == old(pending) + [BusResult(tag, value)]
    {
      pending := pending + [BusResult(tag, value)];
    }

    method Flush()
      modifies this
      ensures pending == []
    {
      pending := [];
    }
  }

  // ----- Occupancy -----

  function BusyCount(es: seq<RsEntry>): (n: nat)
    ensures n <= |es|
  {
    if es == [] then 0 else BusyCount(es[..|es| - 1]) + (if es[|es| - 1].busy then 1 else 0)
  }

  /** The station is full exactly when its counter says so. */
  lemma {:induction false} BusyCountFull(es: seq<RsEntry>)
    ensures BusyCount(es) == |es| <==> !HasFree(es)
  {
    if es != [] {
      var rest, last := es[..|es| - 1], |es| - 1;
      BusyCountFull(rest);
      assert HasFree(rest) || !es[last].busy <==> HasFree(es) by {
        if HasFree(rest) {
          var i :| 0 <= i < |rest| && !rest[i].busy;
          assert !es[i].busy;
        }
        if HasFree(es) && es[last].busy {
          var i :| 0 <= i < |es| && !es[i].busy;
          assert !rest[i].busy;
        }
      }
    }
  }

  lemma {:induction false} BusyCountUpdate(es: seq<RsEntry>, i: nat, e: RsEntry)
    requires i < |es|
    ensures BusyCount(es[i := e]) == BusyCount(es) + (if e.busy then 1 else 0) - (if es[i].busy then 1 else 0)
  {
    var last := |es| - 1;
    if i < last {
      BusyCountUpdate(es[..last], i, e);
      assert es[i := e][..last] == es[..last][i := e];
    } else {
      assert es[i := e][..last] == es[..last];
    }
  }

  /** Slots that keep their occupancy keep the count. */
  lemma {:induction false} BusyCountSame(a: seq<RsEntry>, b: seq<RsEntry>)
    requires |a| == |b| && forall i :: 0 <= i < |a| ==> a[i].busy == b[i].busy
    ensures BusyCount(a) == BusyCount(b)
  {
    if a != [] {
      BusyCountSame(a[..|a| - 1], b[..|b| - 1]);
    }
  }

  lemma {:induction false} FirstFreeIs(es: seq<RsEntry>, n: nat, i: nat)
    requires n <= i < |es| && !es[i].busy && forall j :: n <= j < i ==> es[j].busy
    ensures FirstFree(es, n) == i
  {
  }

  // ----- Draining -----

  /** The first finished slot is the first result broadcast; the rest follow. */
  lemma {:induction false} PopFirst(es: seq<RsEntry>, i: nat)
    requires i < |es| && Finished(es[i]) && forall j :: 0 <= j < i ==> !Finished(es[j])
    ensures Results(es) == [BusResult(es[i].tag, es[i].result)] + Results(es[i := IDLE_RS])
    ensures Drained(es) == Drained(es[i := IDLE_RS])
  {
    var last := |es| - 1;
    if i < last {
      PopFirst(es[..last], i);
      assert es[i := IDLE_RS][..last] == es[..last][i := IDLE_RS];
    } else {
      assert es[i := IDLE_RS][..last] == es[..last];
      NoResults(es[..last]);
    }
  }

  lemma {:induction false} NoResults(es: seq<RsEntry>)
    requires forall j :: 0 <= j < |es| ==> !Finished(es[j])
    ensures Results(es) == [] && Drained(es) == es
  {
    if es != [] {
      NoResults(es[..|es| - 1]);
    }
  }

  class ReservationStation {
    const c: Config
    const f: ExecFn
    var entries: seq<RsEntry>
    var count: nat

    ghost predicate Valid()
      reads this
    {
      && count == BusyCount(entries)
      && forall i :: 0 <= i < |entries| && !entries[i].busy ==> entries[i] == IDLE_RS
    }

    constructor (c: Config, f: ExecFn, size: nat)
      ensures Valid() && this.c == c && this.f == f && entries == seq(size, i => IDLE_RS)
    {
      this.c, this.f := c, f;
      entries := seq(size, i => IDLE_RS);
      count := 0;
      new;
      IdleCount(size);
    }

    predicate Full()
      reads this
    {
      count == |entries|
    }

    method Issue(i: Instruction, tag: int, rat: RegisterRemappingTable, rf: RegisterFile, rob: ReorderBuffer)
      returns (ok: bool)
      requires Valid() && rat.Valid() && rf.Valid() && rob.Valid()
      requires RatInRange(rob.c.robSize, rat.View())
      modifies this
      ensures Valid()
      ensures ok == HasFree(old(entries))
      ensures ok ==>
                var j := Resolve(rob.c, i.rs1, i.rs1Fp, rat.View(), rf.View(), rob.base, rob.Contents());
                var k := Resolve(rob.c, i.rs2, i.rs2Fp, rat.View(), rf.View(), rob.base, rob.Contents());
                entries == old(entries)[FirstFree(old(entries), 0) := NewRsEntry(i, tag, j, k)]
      ensures !ok ==> entries == old(entries)
    {
      var n := 0;
      while n < |entries|
        invariant 0 <= n <= |entries| && entries == old(entries)
        invariant forall j :: 0 <= j < n ==> entries[j].busy
      {
        if entries[n].busy {
          n := n + 1;
          continue;
        }
        var e := entries[n];
        var j := ResolveOperand(i.rs1, i.rs1Fp, rat, rf, rob, e.j.v);
        var k := ResolveOperand(i.rs2, i.rs2Fp, rat, rf, rob, e.k.v);
        hide Resolve, RatInRange;
        FirstFreeIs(entries, 0, n);
        BusyCountUpdate(entries, n, NewRsEntry(i, tag, j, k));
        entries := entries[n := e.(busy := true, op := i.op, tag := tag, imm := i.imm, rdFp := i.rdFp,
                                   done := false, rem := 0, result := 0, pc := i.pc, j := j, k := k)];
        count := count + 1;
        return true;
      }
      return false;
    }

    method Snoop(cdb: CommonDataBus)
      requires Valid()
      modifies this
      ensures Valid()
      ensures entries == SnoopStation(old(entries), cdb.pending)
    {
      var b := 0;
      ghost var was := entries;
      while b < |cdb.pending|
        invariant 0 <= b <= |cdb.pending|
        invariant entries == SnoopStation(was, cdb.pending[..b])
        invariant count == old(count)
      {
        SnoopOne(cdb.pending[b]);
        SnoopNext(was, cdb.pending, b);
        b := b + 1;
      }
      assert cdb.pending[..b] == cdb.pending;
      BusyCountSame(was, entries);
    }

    /** One bus result against every slot. */
    method SnoopOne(r: BusResult)
      modifies this`entries
      ensures entries == SnoopStation(old(entries), [r])
    {
      var n := 0;
      ghost var was := entries;
      while n < |entries|
        invariant 0 <= n <= |entries| == |was|
        invariant forall i :: 0 <= i < n ==> entries[i] == SnoopRs(was[i], [r])
        invariant forall i :: n <= i < |entries| ==> entries[i] == was[i]
      {
        var e := entries[n];
        if e.busy && !e.done {
          if e.j.q == r.tag {
            e := e.(j := Operand(r.value, -1));
          }
          if e.k.q == r.tag {
            e := e.(k := Operand(r.value, -1));
          }
          CatchOne(was[n].j, r);
          CatchOne(was[n].k, r);
          entries := entries[n := e];
        }
        n := n + 1;
      }
    }

    method Tick()
      requires Valid()
      modifies this
      ensures Valid()
      ensures entries == StationTick(c, f, old(entries))
    {
      TickRunning();
      ghost var mid := entries;
      assert mid == CountDownAll(f, old(entries));
      StartReady();
      StartKeepsBusy(c, f, mid, |mid|);
      BusyCountSame(old(entries), entries);
    }

    /** First pass: running entries count down. */
    method TickRunning()
      modifies this`entries
      ensures entries == CountDownAll(f, old(entries))
    {
      var n := 0;
      ghost var was := entries;
      while n < |entries|
        invariant 0 <= n <= |entries| == |was|
        invariant forall i :: 0 <= i < n ==> entries[i] == CountDown(f, was[i])
        invariant forall i :: n <= i < |entries| ==> entries[i] == was[i]
      {
        var e := entries[n];
        if e.busy && !e.done && e.rem != 0 {
          e := e.(rem := e.rem - 1);
          if e.rem == 0 {
            e := e.(result := f(e.op, e.j.v, e.k.v, e.imm, e.pc), done := true);
          }
          entries := entries[n := e];
        }
        n := n + 1;
      }
    }

    /** Second pass: ready entries start, one per unpipelined unit. */
    method StartReady()
      modifies this`entries
      ensures entries == StartUpTo(c, f, old(entries), |old(entries)|)
    {
      var n := 0;
      ghost var was := entries;
      while n < |entries|
        invariant 0 <= n <= |entries| == |was|
        invariant entries == StartUpTo(c, f, was, n)
      {
        var e := entries[n];
        var ready := e.busy && !e.done && e.j.q == -1 && e.k.q == -1 && e.rem == 0;
        if ready && !IsPipelined(c, e.op) {
          var taken := UnitTaken(n);
          ready := !taken;
        }
        if ready {
          var lat := LatencyOf(c, e.op);
          if lat <= 1 {
            e := e.(result := f(e.op, e.j.v, e.k.v, e.imm, e.pc), done := true);
          } else {
            e := e.(rem := lat - 1);
          }
          entries := entries[n := e];
        }
        n := n + 1;
      }
    }

    method UnitTaken(n: nat) returns (taken: bool)
      requires n < |entries|
      ensures taken == UnitBusy(entries, n)
    {
      var j := 0;
      while j < |entries|
        invariant 0 <= j <= |entries|
        invariant forall i :: 0 <= i < j ==> !(i != n && Executing(entries[i]) && entries[i].op == entries[n].op)
      {
        var other := entries[j];
        if j != n && other.busy && !other.done && other.op == entries[n].op && other.rem > 0 {
          assert Executing(entries[j]);
          return true;
        }
        j := j + 1;
      }
      return false;
    }

    method HasResult() returns (b: bool)
      ensures b == exists i :: 0 <= i < |entries| && Finished(entries[i])
      ensures b == (Results(entries) != [])
    {
      var n := 0;
      while n < |entries|
        invariant 0 <= n <= |entries|
        invariant forall j :: 0 <= j < n ==> !Finished(entries[j])
      {
        if entries[n].busy && entries[n].done {
          PopFirst(entries, n);
          return true;
        }
        n := n + 1;
      }
      NoResults(entries);
      return false;
    }

    /** The first finished entry leaves the station. */
    method PopResult() returns (e: RsEntry)
      requires Valid()
      requires exists i :: 0 <= i < |entries| && Finished(entries[i])
      modifies this
      ensures Valid()
      ensures Results(old(entries)) == [BusResult(e.tag, e.result)] + Results(entries)
      ensures Drained(entries) == Drained(old(entries))
    {
      var n := 0;
      while n < |entries|
        invariant 0 <= n <= |entries| && entries == old(entries) && count == old(count)
        invariant forall j :: 0 <= j < n ==> !Finished(entries[j])
      {
        if entries[n].busy && entries[n].done {
          e := entries[n];
          PopFirst(entries, n);
          BusyCountUpdate(entries, n, IDLE_RS);
          entries := entries[n := IDLE_RS];
          count := count - 1;
          return;
        }
        n := n + 1;
      }
      assert false;
    }
  }

  lemma {:induction false} IdleCount(n: nat)
    ensures BusyCount(seq(n, i => IDLE_RS)) == 0
  {
    if n > 0 {
      IdleCount(n - 1);
      assert seq(n, i => IDLE_RS)[..n - 1] == seq(n - 1, i => IDLE_RS);
    }
  }

  lemma CatchOne(o: Operand, r: BusResult)
    ensures CatchAll(o, [r]) == Catch(o, r)
  {
    assert [r][..0] == [];
  }

  /** Snooping a bus is snooping its results one after the other. */
  lemma SnoopNext(es: seq<RsEntry>, bus: seq<BusResult>, b: nat)
    requires b < |bus|
    ensures SnoopStation(SnoopStation(es, bus[..b]), [bus[b]]) == SnoopStation(es, bus[..b + 1])
  {
    forall i | 0 <= i < |es|
      ensures SnoopRs(SnoopRs(es[i], bus[..b]), [bus[b]]) == SnoopRs(es[i], bus[..b + 1])
    {
      SnoopRsNext(es[i], bus, b);
    }
  }

  lemma CatchNext(o: Operand, bus: seq<BusResult>, b: nat)
    requires b < |bus|
    ensures CatchAll(CatchAll(o, bus[..b]), [bus[b]]) == CatchAll(o, bus[..b + 1])
  {
    assert bus[..b + 1][..b] == bus[..b];
    CatchOne(CatchAll(o, bus[..b]), bus[b]);
  }

  lemma SnoopRsNext(e: RsEntry, bus: seq<BusResult>, b: nat)
    requires b < |bus|
    ensures SnoopRs(SnoopRs(e, bus[..b]), [bus[b]]) == SnoopRs(e, bus[..b + 1])
  {
    CatchNext(e.j, bus, b);
    CatchNext(e.k, bus, b);
    hide CatchAll;
  }

  lemma {:induction false} StartKeepsBusy(c: Config, f: ExecFn, es: seq<RsEntry>, n: nat)
    requires n <= |es|
    ensures forall i :: 0 <= i < |es| ==> StartUpTo(c, f, es, n)[i].busy == es[i].busy
    ensures forall i :: 0 <= i < |es| && !es[i].busy ==> StartUpTo(c, f, es, n)[i] == es[i]
  {
    if n > 0 {
      StartKeepsBusy(c, f, es, n - 1);
    }
  }
}
