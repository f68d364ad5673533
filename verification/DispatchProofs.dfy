/** Dispatching takes the next instruction of the trace, gives it the right
    operands, and renames exactly its destination. */
module DispatchProofs {
  import opened Words
  import opened Instructions
  import opened ArchState
  import opened Renaming
  import opened Buffers
  import opened Machines
  import opened Isa
  import opened Invariants
  import opened CommitProofs

  // ----- Units when the reorder buffer grows -----

  ghost predicate Grown(rob: seq<RobEntry>, rob': seq<RobEntry>) {
    |rob'| == |rob| + 1 && forall i :: 0 <= i < |rob| ==> rob'[i] == rob[i]
  }

  lemma OperandsGrow(x: Trace, k: nat, rob: seq<RobEntry>, rob': seq<RobEntry>, n: nat, o1: Operand, o2: Operand)
    requires Grown(rob, rob') && OperandsOk(x, k, rob, [], n, o1, o2)
    ensures OperandsOk(x, k, rob', [], n, o1, o2)
  {
  }

  lemma StationGrow(x: Trace, k: nat, rob: seq<RobEntry>, rob': seq<RobEntry>, u: nat, es: seq<RsEntry>)
    requires Grown(rob, rob') && StationOk(x, k, rob, [], u, es)
    ensures StationOk(x, k, rob', [], u, es)
  {
    forall i | 0 <= i < |es| && es[i].busy
      ensures OperandsOk(x, k, rob', [], es[i].tag, es[i].j, es[i].k)
      ensures RsEntryOk(x, k, rob', u, es[i])
    {
      OperandsGrow(x, k, rob, rob', es[i].tag, es[i].j, es[i].k);
    }
  }

  lemma LsbEntryGrow(x: Trace, k: nat, rob: seq<RobEntry>, rob': seq<RobEntry>, e: LsbEntry)
    requires Grown(rob, rob') && LsbEntryOk(x, k, rob, e)
    ensures LsbEntryOk(x, k, rob', e)
  {
  }

  /** All of the buffer's invariant except that the newest instruction is buffered. */
  ghost predicate LsbGrown(x: Trace, k: nat, rob': seq<RobEntry>, es: seq<LsbEntry>) {
    && |rob'| > 0
    && (forall i :: 0 <= i < |es| ==> LsbEntryOk(x, k, rob', es[i]))
    && (forall i :: 0 <= i < |es| ==> OperandsOk(x, k, rob', [], es[i].tag, es[i].j, es[i].k))
    && Ordered(es)
    && StoresBuffered(x, k, k + |rob'| - 1, es)
    && (forall i :: 0 <= i < |es| && es[i].state == Accessing ==> ClearBelow(es, i, es[i].addr))
    && (forall i :: 0 <= i < |es| ==> es[i].tag < k + |rob'| - 1)
  }

  lemma LsbGrow(x: Trace, k: nat, rob: seq<RobEntry>, rob': seq<RobEntry>, es: seq<LsbEntry>)
    requires Grown(rob, rob') && LsbOk(x, k, rob, [], es)
    ensures LsbGrown(x, k, rob', es)
  {
    forall i | 0 <= i < |es|
      ensures OperandsOk(x, k, rob', [], es[i].tag, es[i].j, es[i].k)
      ensures LsbEntryOk(x, k, rob', es[i]) && es[i].tag < k + |rob|
    {
      OperandsGrow(x, k, rob, rob', es[i].tag, es[i].j, es[i].k);
      LsbEntryGrow(x, k, rob, rob', es[i]);
    }
  }

  /** A new instruction that is no store leaves the buffer correct as it is. */
  lemma LsbKept(x: Trace, k: nat, rob': seq<RobEntry>, es: seq<LsbEntry>)
    requires LsbGrown(x, k, rob', es) && !IsStore(At(x, k + |rob'| - 1).op)
    ensures LsbOk(x, k, rob', [], es)
  {
  }

  lemma LsbAppend(x: Trace, k: nat, rob': seq<RobEntry>, es: seq<LsbEntry>, e: LsbEntry)
    requires LsbGrown(x, k, rob', es)
    requires LsbEntryOk(x, k, rob', e) && OperandsOk(x, k, rob', [], e.tag, e.j, e.k)
    requires e.tag == k + |rob'| - 1 && e.state == Waiting
    ensures LsbOk(x, k, rob', [], es + [e])
    ensures Buffered(es + [e], e.tag) && forall n :: Buffered(es, n) ==> Buffered(es + [e], n)
  {
    var t := es + [e];
    assert t[|es|] == e;
    forall n | Buffered(es, n)
      ensures Buffered(t, n)
    {
      var i :| 0 <= i < |es| && es[i].tag == n;
      assert t[i].tag == n;
    }
    forall n: nat | k <= n < k + |rob'| && IsStore(At(x, n).op)
      ensures Buffered(t, n)
    {
      if n != e.tag {
        assert Buffered(es, n);
      }
    }
    forall i | 0 <= i < |t|
      ensures LsbEntryOk(x, k, rob', t[i]) && OperandsOk(x, k, rob', [], t[i].tag, t[i].j, t[i].k)
      ensures t[i].state == Accessing ==> ClearBelow(t, i, t[i].addr)
    {
      assert i < |es| ==> t[i] == es[i];
      if i < |es| && es[i].state == Accessing {
        ClearBelowPrefix(es, t, i, t[i].addr);
      }
    }
  }

  lemma ClearBelowPrefix(es: seq<LsbEntry>, t: seq<LsbEntry>, i: nat, a: Word)
    requires |es| <= |t| && i <= |es| && (forall j :: 0 <= j < |es| ==> t[j] == es[j])
    requires ClearBelow(es, i, a)
    ensures ClearBelow(t, i, a)
  {
  }

  lemma StationInsert(x: Trace, k: nat, rob': seq<RobEntry>, u: nat, es: seq<RsEntry>, slot: nat, e: RsEntry)
    requires StationOk(x, k, rob', [], u, es) && slot < |es| && !es[slot].busy
    requires e.busy && RsEntryOk(x, k, rob', u, e) && OperandsOk(x, k, rob', [], e.tag, e.j, e.k)
    requires forall i :: 0 <= i < |es| && es[i].busy ==> es[i].tag != e.tag
    ensures StationOk(x, k, rob', [], u, es[slot := e])
    ensures Stationed(es[slot := e], e.tag) && forall n :: Stationed(es, n) ==> Stationed(es[slot := e], n)
  {
    hide RsEntryOk, OperandsOk, Stationed;
    InsertStationed(es, slot, e);
  }

  lemma InsertStationed(es: seq<RsEntry>, slot: nat, e: RsEntry)
    requires slot < |es| && !es[slot].busy && e.busy
    ensures Stationed(es[slot := e], e.tag) && forall n :: Stationed(es, n) ==> Stationed(es[slot := e], n)
  {
    var t := es[slot := e];
    assert t[slot] == e;
    forall n | Stationed(es, n)
      ensures Stationed(t, n)
    {
      var i :| 0 <= i < |es| && es[i].busy && es[i].tag == n;
      assert t[i] == es[i];
    }
  }

  // ----- The new instruction's operands -----

  /** The youngest writer in flight supplies the operand, or will broadcast it. */
  lemma ProducedOperand(x: Trace, k: nat, rob: seq<RobEntry>, rob': seq<RobEntry>, w: nat, src: RegField, fp: bool)
    requires WellFormed(x) && Grown(rob, rob') && InWindow(k, rob, w) && RobEntryOk(x, w, rob[w - k])
    requires Writes(At(x, w), src, fp) && !IsJump(At(x, w).op) && Unwritten(x, w + 1, k + |rob|, src, fp)
    ensures OperandOk(x, k, rob', [], k + |rob|,
                      if rob'[w - k].state == RobDone then Operand(rob'[w - k].result, -1) else Operand(0, w), src, fp)
  {
    LastWriter(x, w, k + |rob|, src, fp);
    if Live(x, k + |rob|) {
      LiveBefore(x, w, k + |rob|);
    }
  }

  /** A register without a writer in flight is read from the register file. */
  lemma CommittedOperand(x: Trace, k: nat, rob: seq<RobEntry>, rob': seq<RobEntry>, src: RegField, fp: bool)
    requires WellFormed(x) && src >= 0 && Unwritten(x, k, k + |rob|, src, fp)
    ensures OperandOk(x, k, rob', [], k + |rob|, Operand(Read(T(x, k).regs, src, fp), -1), src, fp)
  {
    RegisterKept(x, k, k + |rob|, src, fp);
  }

  lemma UnusedOperand(x: Trace, k: nat, rob: seq<RobEntry>, n: nat, src: RegField, fp: bool)
    requires src < 0
    ensures OperandOk(x, k, rob, [], n, Operand(0, -1), src, fp)
  {
  }

  lemma ResolvedRenamed(c: Config, x: Trace, m: Machine, rob': seq<RobEntry>, src: RegField, fp: bool)
    requires c.linear && c.robSize > 0 && WellFormed(x) && src >= 0
    requires RobOk(x, m.base, m.rob) && Grown(m.rob, rob') && ControlOk(x, m.base, m.base + |m.rob|, false)
    requires Lookup(m.rat, src, fp).valid && RatEntryOk(x, m.base, m.base + |m.rob|, Lookup(m.rat, src, fp), src, fp)
    ensures OperandOk(x, m.base, rob', [], m.base + |m.rob|, Resolve(c, src, fp, m.rat, m.regs, m.base, rob'), src, fp)
  {
    hide OperandOk, RobEntryOk;
    var e := Lookup(m.rat, src, fp);
    assert RobEntryOk(x, m.base + (e.tag - m.base), m.rob[e.tag - m.base]);
    assert !IsControl(At(x, e.tag).op);
    ProducedOperand(x, m.base, m.rob, rob', e.tag, src, fp);
  }

  lemma ResolvedOperandOk(c: Config, x: Trace, m: Machine, rob': seq<RobEntry>, src: RegField, fp: bool)
    requires c.linear && c.robSize > 0 && WellFormed(x)
    requires RobOk(x, m.base, m.rob) && Grown(m.rob, rob') && m.regs == T(x, m.base).regs
    requires RatOk(x, m.base, m.base + |m.rob|, m.rat) && ControlOk(x, m.base, m.base + |m.rob|, false)
    ensures OperandOk(x, m.base, rob', [], m.base + |m.rob|, Resolve(c, src, fp, m.rat, m.regs, m.base, rob'), src, fp)
  {
    hide OperandOk, RobOk, ControlOk, Grown, Unwritten;
    if src < 0 {
      UnusedOperand(x, m.base, rob', m.base + |m.rob|, src, fp);
    } else {
      assert RatEntryOk(x, m.base, m.base + |m.rob|, Lookup(m.rat, src, fp), src, fp);
      if Lookup(m.rat, src, fp).valid {
        ResolvedRenamed(c, x, m, rob', src, fp);
      } else {
        CommittedOperand(x, m.base, m.rob, rob', src, fp);
      }
    }
  }

  lemma NewOperandsOk(c: Config, x: Trace, m: Machine, rob': seq<RobEntry>, i: Instruction)
    requires c.linear && c.robSize > 0 && WellFormed(x)
    requires RobOk(x, m.base, m.rob) && Grown(m.rob, rob') && m.regs == T(x, m.base).regs
    requires RatOk(x, m.base, m.base + |m.rob|, m.rat) && ControlOk(x, m.base, m.base + |m.rob|, false)
    requires i == At(x, m.base + |m.rob|)
    ensures OperandsOk(x, m.base, rob', [], m.base + |m.rob|,
                       Resolve(c, i.rs1, i.rs1Fp, m.rat, m.regs, m.base, rob'),
                       Resolve(c, i.rs2, i.rs2Fp, m.rat, m.regs, m.base, rob'))
  {
    hide RobOk, RatOk, ControlOk, Resolve, OperandOk;
    ResolvedOperandOk(c, x, m, rob', i.rs1, i.rs1Fp);
    ResolvedOperandOk(c, x, m, rob', i.rs2, i.rs2Fp);
  }

  // ----- Renaming -----

  function RatWith(i: Instruction, rat: Rat, tag: int): Rat {
    if i.rd >= 0 then Rename(rat, i.rd, i.rdFp, tag) else rat
  }

  lemma RatGrow(x: Trace, k: nat, end: nat, rat: Rat)
    requires k <= end && RatOk(x, k, end, rat)
    ensures RatOk(x, k, end + 1, RatWith(At(x, end), rat, end))
  {
    forall idx: int, fp: bool | 0 <= idx < 32
      ensures RatEntryOk(x, k, end + 1, Lookup(RatWith(At(x, end), rat, end), idx, fp), idx, fp)
    {
      RatEntryGrow(x, k, end, rat, idx, fp);
    }
  }

  lemma RatEntryGrow(x: Trace, k: nat, end: nat, rat: Rat, idx: int, fp: bool)
    requires 0 <= idx < 32 && k <= end && RatEntryOk(x, k, end, Lookup(rat, idx, fp), idx, fp)
    ensures RatEntryOk(x, k, end + 1, Lookup(RatWith(At(x, end), rat, end), idx, fp), idx, fp)
  {
    var o, n := Lookup(rat, idx, fp), Lookup(RatWith(At(x, end), rat, end), idx, fp);
    if Writes(At(x, end), idx, fp) {
      assert n == RatEntry(true, end);
    } else {
      assert n == o;
    }
  }

  // ----- Control and fetch -----

  lemma NextIsFront(x: Trace, end: nat, iq: Queue)
    requires IsTrace(x) && QueueOk(x, end, iq) && iq.buffer != []
    ensures On(x, end) && At(x, end) == iq.buffer[0]
  {
    AtIs(x, end);
  }

  lemma QueueAdvance(x: Trace, end: nat, iq: Queue)
    requires IsTrace(x) && QueueOk(x, end, iq) && iq.buffer != [] && !IsControl(iq.buffer[0].op)
    ensures QueueOk(x, end + 1, iq.(buffer := iq.buffer[1..]))
  {
    NextIsFront(x, end, iq);
    StepPc(x, end);
  }

  lemma {:induction false} FetchOk(c: Config, x: Trace, end: nat, iq: Queue, n: nat)
    requires QueueOk(x, end, iq)
    ensures QueueOk(x, end, FetchUpTo(c, x.p.code, iq, n))
  {
    if n > 0 {
      FetchOk(c, x, end, iq, n - 1);
    }
  }

  // ----- One dispatch -----

  /** Dispatch before any stall, field by field. */
  lemma PlaceFields(c: Config, m: Machine, tag: int)
    requires c.robSize > 0 && CanDispatch(c, m) && tag == Slot(c, m.base + |m.rob|)
    ensures var i, p := m.iq.buffer[0], Place(c, m);
            var k := Resolve(c, i.rs2, i.rs2Fp, m.rat, m.regs, m.base, p.rob);
            && p.base == m.base && p.rob == m.rob + [NewRobEntry(i)]
            && p.regs == m.regs && p.mem == m.mem && p.halted == m.halted && p.branchInFlight == m.branchInFlight
            && p.rat == RatWith(i, m.rat, tag) && p.iq == Queue(m.iq.pc, m.iq.buffer[1..])
            && if IsMemory(i.op) then
                 && p.stations == m.stations
                 && p.lsb == m.lsb + [NewLsbEntry(i, tag, Resolve(c, i.rs1, false, m.rat, m.regs, m.base, p.rob), k)]
               else
                 var u := UnitOf(i.op);
                 && p.lsb == m.lsb
                 && p.stations == m.stations[u := m.stations[u][FirstFree(m.stations[u], 0) :=
                      NewRsEntry(i, tag, Resolve(c, i.rs1, i.rs1Fp, m.rat, m.regs, m.base, p.rob), k)]]
  {
    hide Slot, Resolve, Rename, NewRsEntry, NewLsbEntry, NewRobEntry;
  }

  lemma DispatchFields(c: Config, m: Machine, tag: int)
    requires c.robSize > 0 && CanDispatch(c, m) && tag == Slot(c, m.base + |m.rob|)
    ensures var i, p := m.iq.buffer[0], Dispatch(c, m);
            && p.base == m.base && p.rob == m.rob + [NewRobEntry(i)]
            && p.regs == m.regs && p.mem == m.mem && p.halted == m.halted
            && p.rat == RatWith(i, m.rat, tag)
            && p.branchInFlight == (m.branchInFlight || IsControl(i.op))
            && p.iq == (if IsControl(i.op) then Seek(ToWord(i.pc + 4)) else m.iq.(buffer := m.iq.buffer[1..]))
  {
    hide Place, Slot, Resolve, Rename, NewRsEntry, NewLsbEntry, NewRobEntry;
    PlaceFields(c, m, tag);
  }

  lemma DispatchUnits(c: Config, m: Machine, tag: int)
    requires c.robSize > 0 && CanDispatch(c, m) && tag == Slot(c, m.base + |m.rob|)
    ensures var i, p := m.iq.buffer[0], Dispatch(c, m);
            var k := Resolve(c, i.rs2, i.rs2Fp, m.rat, m.regs, m.base, p.rob);
            if IsMemory(i.op) then
              && p.stations == m.stations
              && p.lsb == m.lsb + [NewLsbEntry(i, tag, Resolve(c, i.rs1, false, m.rat, m.regs, m.base, p.rob), k)]
            else
              var u := UnitOf(i.op);
              && p.lsb == m.lsb
              && p.stations == m.stations[u := m.stations[u][FirstFree(m.stations[u], 0) :=
                   NewRsEntry(i, tag, Resolve(c, i.rs1, i.rs1Fp, m.rat, m.regs, m.base, p.rob), k)]]
  {
    hide Place, Slot, Resolve, RatWith, NewRsEntry, NewLsbEntry, NewRobEntry;
    PlaceFields(c, m, tag);
  }

  /** No slot of the station holds the next instruction yet. */
  lemma TagIsNew(x: Trace, k: nat, rob: seq<RobEntry>, u: nat, es: seq<RsEntry>)
    requires StationOk(x, k, rob, [], u, es)
    ensures forall s :: 0 <= s < |es| && es[s].busy ==> es[s].tag != k + |rob|
  {
    forall s | 0 <= s < |es| && es[s].busy
      ensures es[s].tag != k + |rob|
    {
      assert RsEntryOk(x, k, rob, u, es[s]);
    }
  }

  lemma NewEntryOk(x: Trace, k: nat, rob: seq<RobEntry>, rob': seq<RobEntry>, u: nat, i: Instruction, j: Operand, o: Operand)
    requires Grown(rob, rob') && rob'[|rob|] == NewRobEntry(i)
    requires i == At(x, k + |rob|) && u == UnitOf(i.op) && u < UNITS && i.pc == ByteAddr(T(x, k + |rob|).pc)
    ensures RsEntryOk(x, k, rob', u, NewRsEntry(i, k + |rob|, j, o))
  {
    hide UnitOf, ByteAddr, IsTrace;
  }

  lemma NewStationOk(x: Trace, k: nat, rob: seq<RobEntry>, rob': seq<RobEntry>, u: nat, es: seq<RsEntry>, i: Instruction, j: Operand, o: Operand, slot: nat)
    requires Grown(rob, rob') && rob'[|rob|] == NewRobEntry(i) && StationOk(x, k, rob, [], u, es)
    requires i == At(x, k + |rob|) && u == UnitOf(i.op) && u < UNITS && i.pc == ByteAddr(T(x, k + |rob|).pc)
    requires OperandsOk(x, k, rob', [], k + |rob|, j, o)
    requires slot < |es| && !es[slot].busy
    ensures StationOk(x, k, rob', [], u, es[slot := NewRsEntry(i, k + |rob|, j, o)])
    ensures Stationed(es[slot := NewRsEntry(i, k + |rob|, j, o)], k + |rob|)
    ensures forall n :: Stationed(es, n) ==> Stationed(es[slot := NewRsEntry(i, k + |rob|, j, o)], n)
  {
    hide StationOk, RsEntryOk, OperandsOk, Stationed;
    var e := NewRsEntry(i, k + |rob|, j, o);
    StationGrow(x, k, rob, rob', u, es);
    TagIsNew(x, k, rob, u, es);
    NewEntryOk(x, k, rob, rob', u, i, j, o);
    StationInsert(x, k, rob', u, es, slot, e);
  }

  lemma NewLsbOk(x: Trace, k: nat, rob: seq<RobEntry>, rob': seq<RobEntry>, es: seq<LsbEntry>, i: Instruction, j: Operand, o: Operand)
    requires Grown(rob, rob') && rob'[|rob|] == NewRobEntry(i) && LsbOk(x, k, rob, [], es)
    requires i == At(x, k + |rob|) && IsMemory(i.op)
    requires OperandsOk(x, k, rob', [], k + |rob|, j, o) && (IsLoad(i.op) ==> o.q == -1)
    ensures LsbOk(x, k, rob', [], es + [NewLsbEntry(i, k + |rob|, j, o)])
    ensures Buffered(es + [NewLsbEntry(i, k + |rob|, j, o)], k + |rob|)
    ensures forall n :: Buffered(es, n) ==> Buffered(es + [NewLsbEntry(i, k + |rob|, j, o)], n)
  {
    hide LsbOk, LsbGrown, OperandsOk;
    LsbGrow(x, k, rob, rob', es);
    LsbAppend(x, k, rob', es, NewLsbEntry(i, k + |rob|, j, o));
  }

  lemma RobGrow(x: Trace, k: nat, rob: seq<RobEntry>, i: Instruction)
    requires RobOk(x, k, rob) && On(x, k + |rob|) && i == At(x, k + |rob|)
    ensures RobOk(x, k, rob + [NewRobEntry(i)])
    ensures Grown(rob, rob + [NewRobEntry(i)])
  {
  }

  lemma OwnedKept(x: Trace, s: Stations, s': Stations, lsb: seq<LsbEntry>, lsb': seq<LsbEntry>, n: nat)
    requires Owned(x, s, lsb, n)
    requires forall u, n :: 0 <= u < UNITS && Stationed(s[u], n) ==> Stationed(s'[u], n)
    requires forall n :: Buffered(lsb, n) ==> Buffered(lsb', n)
    ensures Owned(x, s', lsb', n)
  {
    hide Stationed, Buffered;
  }

  lemma OwnedGrow(x: Trace, k: nat, rob: seq<RobEntry>, rob': seq<RobEntry>, s: Stations, s': Stations, lsb: seq<LsbEntry>, lsb': seq<LsbEntry>)
    requires AllOwned(x, k, rob, s, lsb) && Grown(rob, rob')
    requires forall u, n :: 0 <= u < UNITS && Stationed(s[u], n) ==> Stationed(s'[u], n)
    requires forall n :: Buffered(lsb, n) ==> Buffered(lsb', n)
    requires Owned(x, s', lsb', k + |rob|)
    ensures AllOwned(x, k, rob', s', lsb')
  {
    hide Owned, Stationed, Buffered;
    forall n: nat | Flying(k, rob', n)
      ensures Owned(x, s', lsb', n)
    {
      if n < k + |rob| {
        assert Flying(k, rob, n);
        OwnedKept(x, s, s', lsb, lsb', n);
      }
    }
  }

  lemma StationsGrow(x: Trace, k: nat, rob: seq<RobEntry>, rob': seq<RobEntry>, s: Stations)
    requires Grown(rob, rob') && StationsOk(x, k, rob, [], s)
    ensures StationsOk(x, k, rob', [], s)
  {
    forall u | 0 <= u < UNITS
      ensures StationOk(x, k, rob', [], u, s[u])
    {
      StationGrow(x, k, rob, rob', u, s[u]);
    }
  }

  lemma DispatchStations(x: Trace, k: nat, rob: seq<RobEntry>, rob': seq<RobEntry>, s: Stations, lsb: seq<LsbEntry>, u: nat, t: seq<RsEntry>)
    requires StationsOk(x, k, rob, [], s) && LsbOk(x, k, rob, [], lsb) && AllOwned(x, k, rob, s, lsb) && Grown(rob, rob')
    requires u == UnitOf(At(x, k + |rob|).op) && u < UNITS
    requires StationOk(x, k, rob', [], u, t) && Stationed(t, k + |rob|)
    requires forall n :: Stationed(s[u], n) ==> Stationed(t, n)
    ensures StationsOk(x, k, rob', [], s[u := t]) && LsbOk(x, k, rob', [], lsb) && AllOwned(x, k, rob', s[u := t], lsb)
  {
    hide StationOk, LsbOk, LsbGrown, Stationed;
    StationsGrow(x, k, rob, rob', s);
    LsbGrow(x, k, rob, rob', lsb);
    LsbKept(x, k, rob', lsb);
    OwnedGrow(x, k, rob, rob', s, s[u := t], lsb, lsb);
  }

  /** Everything one dispatch relies on. */
  ghost predicate Dispatchable(c: Config, x: Trace, m: Machine) {
    && c.linear && c.robSize > 0 && WellFormed(x)
    && UnitsOk(x, m, []) && FrontOk(x, m) && ArchOk(x, m)
    && !m.branchInFlight && CanDispatch(c, m)
  }

  /** The next instruction, and its operands once its reorder-buffer entry exists. */
  lemma NextInstruction(c: Config, x: Trace, m: Machine)
    requires Dispatchable(c, x, m)
    ensures var i, end := m.iq.buffer[0], m.base + |m.rob|;
            var rob' := m.rob + [NewRobEntry(i)];
            && i == At(x, end) && Decodable(i) && i.pc == ByteAddr(T(x, end).pc)
            && RobOk(x, m.base, rob') && Grown(m.rob, rob')
            && OperandsOk(x, m.base, rob', [], end, Resolve(c, i.rs1, i.rs1Fp, m.rat, m.regs, m.base, rob'),
                          Resolve(c, i.rs2, i.rs2Fp, m.rat, m.regs, m.base, rob'))
  {
    hide CanDispatch, Slot, Resolve, RobOk, StationsOk, LsbOk, AllOwned, RatOk, ControlOk, QueueOk, OperandsOk, Decodable, NewRobEntry, Grown;
    CanDispatchNonEmpty(c, m);
    var end, i := m.base + |m.rob|, m.iq.buffer[0];
    NextIsFront(x, end, m.iq);
    AtDecodable(x, end);
    RobGrow(x, m.base, m.rob, i);
    NewOperandsOk(c, x, m, m.rob + [NewRobEntry(i)], i);
  }

  lemma CanDispatchNonEmpty(c: Config, m: Machine)
    requires CanDispatch(c, m)
    ensures m.iq.buffer != []
    ensures !IsMemory(m.iq.buffer[0].op) ==> HasFree(m.stations[UnitOf(m.iq.buffer[0].op)])
  {
  }

  lemma DispatchUnitsOk(c: Config, x: Trace, m: Machine)
    requires Dispatchable(c, x, m)
    ensures UnitsOk(x, Dispatch(c, m), [])
  {
    hide Dispatch, CanDispatch, Slot, Resolve, RobOk, StationsOk, LsbOk, AllOwned, FrontOk, ArchOk, OperandsOk, Decodable, NewRobEntry, IsTrace, Grown, HasFree, RatWith, Seek;
    CanDispatchNonEmpty(c, m);
    var end, i, p := m.base + |m.rob|, m.iq.buffer[0], Dispatch(c, m);
    NextInstruction(c, x, m);
    LinearSlot(c, end);
    DispatchFields(c, m, end);
    DispatchUnits(c, m, end);
    assert p.rob[|m.rob|] == NewRobEntry(i);
    if IsMemory(i.op) {
      AddressOperand(c, m, i, p.rob);
      DispatchMemory(c, x, m, p.rob, i);
    } else {
      DispatchStation(c, x, m, p.rob, i);
    }
  }

  /** A memory access takes its base from the integer bank. */
  lemma AddressOperand(c: Config, m: Machine, i: Instruction, rob: seq<RobEntry>)
    requires c.robSize > 0 && Decodable(i) && IsMemory(i.op)
    ensures Resolve(c, i.rs1, false, m.rat, m.regs, m.base, rob) == Resolve(c, i.rs1, i.rs1Fp, m.rat, m.regs, m.base, rob)
  {
  }

  /** A load has no second operand to wait for. */
  lemma LoadHasNoData(c: Config, m: Machine, i: Instruction, rob: seq<RobEntry>)
    requires c.robSize > 0 && Decodable(i)
    ensures IsLoad(i.op) ==> Resolve(c, i.rs2, i.rs2Fp, m.rat, m.regs, m.base, rob).q == -1
  {
  }

  lemma DispatchMemory(c: Config, x: Trace, m: Machine, rob': seq<RobEntry>, i: Instruction)
    requires c.linear && c.robSize > 0
    requires StationsOk(x, m.base, m.rob, [], m.stations) && LsbOk(x, m.base, m.rob, [], m.lsb) && AllOwned(x, m.base, m.rob, m.stations, m.lsb)
    requires Grown(m.rob, rob') && rob'[|m.rob|] == NewRobEntry(i)
    requires i == At(x, m.base + |m.rob|) && IsMemory(i.op) && Decodable(i)
    requires OperandsOk(x, m.base, rob', [], m.base + |m.rob|,
                        Resolve(c, i.rs1, i.rs1Fp, m.rat, m.regs, m.base, rob'),
                        Resolve(c, i.rs2, i.rs2Fp, m.rat, m.regs, m.base, rob'))
    ensures var lsb' := m.lsb + [NewLsbEntry(i, m.base + |m.rob|, Resolve(c, i.rs1, i.rs1Fp, m.rat, m.regs, m.base, rob'),
                                             Resolve(c, i.rs2, i.rs2Fp, m.rat, m.regs, m.base, rob'))];
            StationsOk(x, m.base, rob', [], m.stations) && LsbOk(x, m.base, rob', [], lsb') && AllOwned(x, m.base, rob', m.stations, lsb')
  {
    hide Resolve, StationsOk, LsbOk, AllOwned, OperandsOk, NewLsbEntry, NewRobEntry, Stationed, Buffered, Grown, Decodable, UnitOf;
    var j := Resolve(c, i.rs1, i.rs1Fp, m.rat, m.regs, m.base, rob');
    var o := Resolve(c, i.rs2, i.rs2Fp, m.rat, m.regs, m.base, rob');
    LoadHasNoData(c, m, i, rob');
    StationsGrow(x, m.base, m.rob, rob', m.stations);
    NewLsbOk(x, m.base, m.rob, rob', m.lsb, i, j, o);
    OwnedGrow(x, m.base, m.rob, rob', m.stations, m.stations, m.lsb, m.lsb + [NewLsbEntry(i, m.base + |m.rob|, j, o)]);
  }

  lemma StationOkOf(x: Trace, k: nat, rob: seq<RobEntry>, s: Stations, u: nat)
    requires u < UNITS && StationsOk(x, k, rob, [], s)
    ensures StationOk(x, k, rob, [], u, s[u])
  {
    hide StationOk;
  }

  lemma DispatchStation(c: Config, x: Trace, m: Machine, rob': seq<RobEntry>, i: Instruction)
    requires c.linear && c.robSize > 0 && !IsMemory(i.op) && HasFree(m.stations[UnitOf(i.op)])
    requires StationsOk(x, m.base, m.rob, [], m.stations) && LsbOk(x, m.base, m.rob, [], m.lsb) && AllOwned(x, m.base, m.rob, m.stations, m.lsb)
    requires Grown(m.rob, rob') && rob'[|m.rob|] == NewRobEntry(i)
    requires i == At(x, m.base + |m.rob|) && i.pc == ByteAddr(T(x, m.base + |m.rob|).pc)
    requires OperandsOk(x, m.base, rob', [], m.base + |m.rob|,
                        Resolve(c, i.rs1, i.rs1Fp, m.rat, m.regs, m.base, rob'),
                        Resolve(c, i.rs2, i.rs2Fp, m.rat, m.regs, m.base, rob'))
    ensures var u := UnitOf(i.op);
            var e := NewRsEntry(i, m.base + |m.rob|, Resolve(c, i.rs1, i.rs1Fp, m.rat, m.regs, m.base, rob'),
                                Resolve(c, i.rs2, i.rs2Fp, m.rat, m.regs, m.base, rob'));
            var s' := m.stations[u := m.stations[u][FirstFree(m.stations[u], 0) := e]];
            StationsOk(x, m.base, rob', [], s') && LsbOk(x, m.base, rob', [], m.lsb) && AllOwned(x, m.base, rob', s', m.lsb)
  {
    hide Resolve, StationsOk, StationOk, LsbOk, AllOwned, OperandsOk, NewRsEntry, NewRobEntry, FirstFree, Stationed, Grown, UnitOf, ByteAddr;
    var u := UnitOf(i.op);
    var j := Resolve(c, i.rs1, i.rs1Fp, m.rat, m.regs, m.base, rob');
    var o := Resolve(c, i.rs2, i.rs2Fp, m.rat, m.regs, m.base, rob');
    var slot := FirstFree(m.stations[u], 0);
    StationOkOf(x, m.base, m.rob, m.stations, u);
    NewStationOk(x, m.base, m.rob, rob', u, m.stations[u], i, j, o, slot);
    DispatchStations(x, m.base, m.rob, rob', m.stations, m.lsb, u, m.stations[u][slot := NewRsEntry(i, m.base + |m.rob|, j, o)]);
  }

  lemma ControlGrow(x: Trace, k: nat, end: nat)
    requires k <= end && ControlOk(x, k, end, false)
    ensures ControlOk(x, k, end + 1, IsControl(At(x, end).op))
  {
  }

  lemma DispatchFrontOk(c: Config, x: Trace, m: Machine)
    requires Dispatchable(c, x, m)
    ensures FrontOk(x, Dispatch(c, m))
  {
    hide Dispatch, UnitsOk, ArchOk, Room, Slot;
    LinearSlot(c, m.base + |m.rob|);
    DispatchFields(c, m, m.base + |m.rob|);
    FrontGrow(x, m, Dispatch(c, m));
  }

  lemma FrontGrow(x: Trace, m: Machine, p: Machine)
    requires WellFormed(x) && FrontOk(x, m) && !m.branchInFlight && m.iq.buffer != []
    requires p.base == m.base && |p.rob| == |m.rob| + 1
    requires p.rat == RatWith(m.iq.buffer[0], m.rat, m.base + |m.rob|)
    requires p.branchInFlight == IsControl(m.iq.buffer[0].op)
    requires !p.branchInFlight ==> p.iq == m.iq.(buffer := m.iq.buffer[1..])
    ensures FrontOk(x, p)
  {
    hide RatOk, ControlOk, QueueOk, RatWith;
    var end := m.base + |m.rob|;
    NextIsFront(x, end, m.iq);
    RatGrow(x, m.base, end, m.rat);
    ControlGrow(x, m.base, end);
    if !p.branchInFlight {
      QueueAdvance(x, end, m.iq);
    }
  }

  lemma DispatchOk(c: Config, x: Trace, m: Machine)
    requires c.linear && c.robSize > 0 && WellFormed(x)
    requires Inv(c, x, m) && !m.branchInFlight && CanDispatch(c, m)
    ensures Inv(c, x, Dispatch(c, m)) && Dispatch(c, m).base == m.base
    ensures Dispatch(c, m).branchInFlight <==> IsControl(m.iq.buffer[0].op)
  {
    hide Dispatch, UnitsOk, FrontOk, Slot, Resolve, RatWith, Seek, NewLsbEntry, NewRsEntry, NewRobEntry, IsTrace, HasFree;
    DispatchFields(c, m, Slot(c, m.base + |m.rob|));
    DispatchUnits(c, m, Slot(c, m.base + |m.rob|));
    DispatchUnitsOk(c, x, m);
    DispatchFrontOk(c, x, m);
  }

  /** The whole dispatch phase of a cycle. */
  lemma {:induction false} DispatchUpToOk(c: Config, x: Trace, m: Machine, n: nat)
    requires c.linear && c.robSize > 0 && WellFormed(x)
    requires Inv(c, x, m) && !m.branchInFlight
    ensures Inv(c, x, DispatchUpTo(c, m, n)) && DispatchUpTo(c, m, n).base == m.base
    decreases n
  {
    if n > 0 && CanDispatch(c, m) {
      hide Inv, Dispatch;
      DispatchOk(c, x, m);
      if !IsControl(m.iq.buffer[0].op) {
        DispatchUpToOk(c, x, Dispatch(c, m), n - 1);
      }
    }
  }

  lemma FetchedInv(c: Config, x: Trace, m: Machine)
    requires Inv(c, x, m) && !m.branchInFlight
    ensures Inv(c, x, Fetch(c, x.p.code, m))
  {
    hide RobOk, StationsOk, LsbOk, AllOwned, RatOk, ControlOk, QueueOk;
    FetchOk(c, x, m.base + |m.rob|, m.iq, c.width);
  }

  lemma IssueOk(c: Config, x: Trace, m: Machine)
    requires c.linear && c.robSize > 0 && WellFormed(x) && Inv(c, x, m)
    ensures Inv(c, x, Issue(c, x.p.code, m)) && Issue(c, x.p.code, m).base == m.base
  {
    if !m.branchInFlight {
      FetchedInv(c, x, m);
      hide Inv, DispatchUpTo;
      DispatchUpToOk(c, x, Fetch(c, x.p.code, m), c.width);
    } else {
    }
  }
}
