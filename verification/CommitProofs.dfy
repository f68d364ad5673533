/** Retiring one instruction is exactly one step of the reference machine. */
module CommitProofs {
  import opened Words
  import opened Instructions
  import opened ArchState
  import opened Renaming
  import opened Buffers
  import opened Machines
  import opened Isa
  import opened Invariants
  import opened MemoryProofs

  // ----- Units when the oldest entry leaves -----

  lemma RobShift(x: Trace, k: nat, rob: seq<RobEntry>)
    requires RobOk(x, k, rob) && |rob| > 0
    ensures RobOk(x, k + 1, rob[1..])
  {
    var r := rob[1..];
    forall i | 0 <= i < |r|
      ensures RobEntryOk(x, k + 1 + i, r[i])
    {
      assert RobEntryOk(x, k + (i + 1), rob[i + 1]);
    }
  }

  lemma OperandsShift(x: Trace, k: nat, rob: seq<RobEntry>, n: nat, o1: Operand, o2: Operand)
    requires |rob| > 0 && rob[0].state == RobDone
    requires OperandsOk(x, k, rob, [], n, o1, o2)
    ensures OperandsOk(x, k + 1, rob[1..], [], n, o1, o2)
  {
  }

  lemma StationShift(x: Trace, k: nat, rob: seq<RobEntry>, u: nat, es: seq<RsEntry>)
    requires |rob| > 0 && rob[0].state == RobDone
    requires StationOk(x, k, rob, [], u, es)
    ensures StationOk(x, k + 1, rob[1..], [], u, es)
  {
    forall i | 0 <= i < |es| && es[i].busy
      ensures RsEntryOk(x, k + 1, rob[1..], u, es[i])
      ensures OperandsOk(x, k + 1, rob[1..], [], es[i].tag, es[i].j, es[i].k)
    {
      assert RsEntryOk(x, k, rob, u, es[i]);
      OperandsShift(x, k, rob, es[i].tag, es[i].j, es[i].k);
    }
  }

  lemma LsbEntryShift(x: Trace, k: nat, rob: seq<RobEntry>, e: LsbEntry)
    requires |rob| > 0 && rob[0].state == RobDone
    requires LsbEntryOk(x, k, rob, e) && e.tag != k
    ensures LsbEntryOk(x, k + 1, rob[1..], e)
  {
  }

  lemma LsbShift(x: Trace, k: nat, rob: seq<RobEntry>, es: seq<LsbEntry>)
    requires |rob| > 0 && rob[0].state == RobDone
    requires LsbOk(x, k, rob, [], es) && forall i :: 0 <= i < |es| ==> es[i].tag != k
    ensures LsbOk(x, k + 1, rob[1..], [], es)
  {
    forall i | 0 <= i < |es|
      ensures LsbEntryOk(x, k + 1, rob[1..], es[i])
      ensures OperandsOk(x, k + 1, rob[1..], [], es[i].tag, es[i].j, es[i].k)
    {
      LsbEntryShift(x, k, rob, es[i]);
      OperandsShift(x, k, rob, es[i].tag, es[i].j, es[i].k);
    }
  }

  lemma OwnedShift(x: Trace, k: nat, rob: seq<RobEntry>, s: Stations, lsb: seq<LsbEntry>, lsb': seq<LsbEntry>)
    requires |rob| > 0 && rob[0].state == RobDone
    requires AllOwned(x, k, rob, s, lsb)
    requires forall n :: n != k && Buffered(lsb, n) ==> Buffered(lsb', n)
    ensures AllOwned(x, k + 1, rob[1..], s, lsb')
  {
    forall n: nat | Flying(k + 1, rob[1..], n)
      ensures Owned(x, s, lsb', n)
    {
      assert Flying(k, rob, n);
      assert Owned(x, s, lsb, n);
    }
  }

  /** The retiring instruction is in the load/store buffer only if it is a store,
      and then it is the finished head. */
  lemma HeadStore(x: Trace, k: nat, rob: seq<RobEntry>, es: seq<LsbEntry>)
    requires LsbOk(x, k, rob, [], es) && |rob| > 0 && rob[0].state == RobDone
    ensures IsStore(At(x, k).op) ==> |es| > 0 && es[0].tag == k && DoneStore(es[0]) && LsbEntryOk(x, k, rob, es[0])
    ensures !IsStore(At(x, k).op) ==> forall i :: 0 <= i < |es| ==> es[i].tag != k
  {
    forall i | 0 <= i < |es| && es[i].tag == k
      ensures IsStore(At(x, k).op) && i == 0 && DoneStore(es[i])
    {
      assert LsbEntryOk(x, k, rob, es[i]);
      assert LsbEntryOk(x, k, rob, es[0]);
      TagOrder(es, 0, i);
    }
    if IsStore(At(x, k).op) {
      assert Buffered(es, k);
    }
  }

  lemma TailOk(x: Trace, k: nat, rob: seq<RobEntry>, es: seq<LsbEntry>)
    requires LsbOk(x, k, rob, [], es) && |rob| > 0 && rob[0].state == RobDone
    requires |es| > 0 && es[0].tag == k
    ensures LsbOk(x, k + 1, rob[1..], [], es[1..])
    ensures forall n :: n != k && Buffered(es, n) ==> Buffered(es[1..], n)
  {
    var t := es[1..];
    forall n | n != k && Buffered(es, n)
      ensures Buffered(t, n)
    {
      var i :| 0 <= i < |es| && es[i].tag == n;
      assert t[i - 1].tag == n;
    }
    forall i | 0 <= i < |t|
      ensures LsbEntryOk(x, k + 1, rob[1..], t[i])
      ensures OperandsOk(x, k + 1, rob[1..], [], t[i].tag, t[i].j, t[i].k)
      ensures t[i].state == Accessing ==> ClearBelow(t, i, t[i].addr)
    {
      TagOrder(es, 0, i + 1);
      LsbEntryShift(x, k, rob, es[i + 1]);
      OperandsShift(x, k, rob, es[i + 1].tag, es[i + 1].j, es[i + 1].k);
    }
  }

  /** The load/store buffer after retirement. */
  function LsbAfter(e: RobEntry, lsb: seq<LsbEntry>): seq<LsbEntry> {
    if IsStore(e.op) && |lsb| > 0 then lsb[1..] else lsb
  }

  lemma LsbAfterOk(x: Trace, k: nat, rob: seq<RobEntry>, es: seq<LsbEntry>)
    requires LsbOk(x, k, rob, [], es) && |rob| > 0 && rob[0].state == RobDone
    requires rob[0].op == At(x, k).op
    ensures LsbOk(x, k + 1, rob[1..], [], LsbAfter(rob[0], es))
    ensures forall n :: n != k && Buffered(es, n) ==> Buffered(LsbAfter(rob[0], es), n)
  {
    HeadStore(x, k, rob, es);
    if IsStore(rob[0].op) {
      TailOk(x, k, rob, es);
    } else {
      LsbShift(x, k, rob, es);
    }
  }

  lemma StationsShift(x: Trace, k: nat, rob: seq<RobEntry>, s: Stations)
    requires |rob| > 0 && rob[0].state == RobDone && StationsOk(x, k, rob, [], s)
    ensures StationsOk(x, k + 1, rob[1..], [], s)
  {
    forall u | 0 <= u < UNITS
      ensures StationOk(x, k + 1, rob[1..], [], u, s[u])
    {
      StationShift(x, k, rob, u, s[u]);
    }
  }

  lemma UnitsShift(x: Trace, m: Machine, p: Machine)
    requires UnitsOk(x, m, []) && HeadReady(m) && m.rob[0].op == At(x, m.base).op
    requires p.base == m.base + 1 && p.rob == m.rob[1..]
    requires p.stations == m.stations && p.lsb == LsbAfter(m.rob[0], m.lsb)
    ensures UnitsOk(x, p, [])
  {
    hide RobOk, StationsOk, LsbOk, AllOwned;
    RobShift(x, m.base, m.rob);
    LsbAfterOk(x, m.base, m.rob, m.lsb);
    StationsShift(x, m.base, m.rob, m.stations);
    OwnedShift(x, m.base, m.rob, m.stations, m.lsb, p.lsb);
  }

  // ----- Architectural state: one reference step -----

  function RegsAfter(e: RobEntry, regs: Regs): Regs {
    if e.rd < 0 || e.op == HALT || IsBranch(e.op) || IsStore(e.op) then regs
    else if IsJump(e.op) then Write(regs, e.rd, false, ToWord(e.pc + 4))
    else Write(regs, e.rd, e.rdFp, e.result)
  }

  lemma RegsStep(x: Trace, k: nat, e: RobEntry)
    requires WellFormed(x) && Live(x, k) && RobEntryOk(x, k, e) && e.state == RobDone
    ensures RegsAfter(e, T(x, k).regs) == T(x, k + 1).regs
  {
    AtDecodable(x, k);
    AtIs(x, k);
    ResIs(x, k);
    StepIs(x, k);
  }

  lemma MemStep(x: Trace, k: nat, rob: seq<RobEntry>, e: LsbEntry)
    requires WellFormed(x) && Live(x, k) && e.tag == k && DoneStore(e)
    requires LsbEntryOk(x, k, rob, e) && OperandsOk(x, k, rob, [], k, e.j, e.k)
    ensures WriteMem(T(x, k).mem, e.addr, e.k.v) == T(x, k + 1).mem
  {
    OperandValues(x, k, rob, [], k, e.j, e.k);
    AddrIs(x, k);
    StepMem(x, k);
  }

  lemma MemUnchanged(x: Trace, k: nat)
    requires IsTrace(x) && !IsStore(At(x, k).op)
    ensures T(x, k + 1).mem == T(x, k).mem
  {
    StepMem(x, k);
  }

  // ----- Renaming -----

  function RatAfter(e: RobEntry, rat: Rat, tag: int): Rat {
    if e.rd < 0 || e.op == HALT || IsBranch(e.op) || IsStore(e.op) then rat
    else if IsJump(e.op) then Release(rat, e.rd, false, tag)
    else Release(rat, e.rd, e.rdFp, tag)
  }

  lemma RatShift(x: Trace, k: nat, end: nat, rat: Rat, e: RobEntry)
    requires WellFormed(x) && k < end && RatOk(x, k, end, rat) && RobEntryOk(x, k, e)
    ensures RatOk(x, k + 1, end, RatAfter(e, rat, k))
  {
    AtDecodable(x, k);
    forall idx: int, fp: bool | 0 <= idx < 32
      ensures RatEntryOk(x, k + 1, end, Lookup(RatAfter(e, rat, k), idx, fp), idx, fp)
    {
      assert RatEntryOk(x, k, end, Lookup(rat, idx, fp), idx, fp);
      RatEntryShift(x, k, end, rat, e, idx, fp);
    }
  }

  lemma RatEntryShift(x: Trace, k: nat, end: nat, rat: Rat, e: RobEntry, idx: int, fp: bool)
    requires Decodable(At(x, k)) && k < end && 0 <= idx < 32
    requires RatEntryOk(x, k, end, Lookup(rat, idx, fp), idx, fp) && RobEntryOk(x, k, e)
    ensures RatEntryOk(x, k + 1, end, Lookup(RatAfter(e, rat, k), idx, fp), idx, fp)
  {
    var o, n := Lookup(rat, idx, fp), Lookup(RatAfter(e, rat, k), idx, fp);
    if o.valid && o.tag == k {
      assert !n.valid;
    } else {
      assert n == o;
    }
  }

  // ----- Control -----

  lemma ControlShift(x: Trace, k: nat, end: nat, bif: bool)
    requires k < end && ControlOk(x, k, end, bif)
    ensures IsControl(At(x, k).op) ==> bif && end == k + 1
    ensures ControlOk(x, k + 1, end, bif && !IsControl(At(x, k).op))
  {
    assert IsControl(At(x, k).op) <==> bif && k == end - 1;
  }

  lemma TargetOk(x: Trace, k: nat, e: RobEntry)
    requires IsTrace(x) && Live(x, k) && RobEntryOk(x, k, e) && e.state == RobDone && IsControl(e.op)
    ensures QueueOk(x, k + 1, Seek(e.result))
  {
    ResIs(x, k);
    StepPc(x, k);
  }

  // ----- Putting a retirement together -----

  lemma LinearSlot(c: Config, n: nat)
    requires c.linear && c.robSize > 0
    ensures Slot(c, n) == n
  {
  }

  /** Retirement, field by field. */
  lemma RetireFields(c: Config, m: Machine, tag: int)
    requires c.robSize > 0 && HeadReady(m) && tag == Slot(c, m.base)
    ensures var e, p := m.rob[0], Retire(c, m);
            && p.base == m.base + 1 && p.rob == m.rob[1..] && p.stations == m.stations
            && p.lsb == LsbAfter(e, m.lsb)
            && p.regs == RegsAfter(e, m.regs)
            && p.rat == RatAfter(e, m.rat, tag)
            && p.mem == (if IsStore(e.op) && |m.lsb| > 0 then WriteMem(m.mem, m.lsb[0].addr, m.lsb[0].k.v) else m.mem)
            && p.iq == (if IsControl(e.op) then Seek(e.result) else m.iq)
            && p.branchInFlight == (m.branchInFlight && !IsControl(e.op))
            && p.halted == (m.halted || e.op == HALT)
  {
    hide Slot, Release, Write, WriteMem;
  }

  lemma ArchStep(c: Config, x: Trace, m: Machine)
    requires c.linear && c.robSize > 0 && WellFormed(x)
    requires UnitsOk(x, m, []) && ArchOk(x, m) && Live(x, m.base) && HeadReady(m)
    ensures ArchOk(x, Retire(c, m))
  {
    var k := m.base;
    LinearSlot(c, k);
    hide Retire, RatAfter, Slot;
    RetireFields(c, m, k);
    assert RobEntryOk(x, k + 0, m.rob[0]);
    RegsStep(x, k, m.rob[0]);
    if IsStore(m.rob[0].op) {
      HeadStore(x, k, m.rob, m.lsb);
      MemStep(x, k, m.rob, m.lsb[0]);
    } else {
      MemUnchanged(x, k);
    }
  }

  lemma FrontRetired(x: Trace, m: Machine, p: Machine)
    requires WellFormed(x) && FrontOk(x, m) && Live(x, m.base) && HeadReady(m) && RobEntryOk(x, m.base, m.rob[0])
    requires p.base == m.base + 1 && |p.rob| == |m.rob| - 1
    requires p.rat == RatAfter(m.rob[0], m.rat, m.base)
    requires p.iq == (if IsControl(m.rob[0].op) then Seek(m.rob[0].result) else m.iq)
    requires p.branchInFlight == (m.branchInFlight && !IsControl(m.rob[0].op))
    ensures FrontOk(x, p)
  {
    hide RatAfter, RatOk, ControlOk, QueueOk, Seek;
    var end := m.base + |m.rob|;
    RatShift(x, m.base, end, m.rat, m.rob[0]);
    ControlShift(x, m.base, end, m.branchInFlight);
    if IsControl(m.rob[0].op) {
      TargetOk(x, m.base, m.rob[0]);
    }
  }

  lemma FrontShift(c: Config, x: Trace, m: Machine)
    requires c.linear && c.robSize > 0 && WellFormed(x)
    requires RobOk(x, m.base, m.rob) && FrontOk(x, m) && Live(x, m.base) && HeadReady(m)
    ensures FrontOk(x, Retire(c, m))
  {
    assert RobEntryOk(x, m.base + 0, m.rob[0]);
    LinearSlot(c, m.base);
    hide Retire, RatAfter, FrontOk, RobOk, RobEntryOk, Slot, RegsAfter, LsbAfter, WellFormed;
    RetireFields(c, m, m.base);
    FrontRetired(x, m, Retire(c, m));
  }

  /** The invariant, or the state in which the clock loop exits after HALT. */
  ghost predicate HaltedOk(c: Config, x: Trace, m: Machine) {
    && m.halted && ArchOk(x, m) && Coherent(c, x, m)
    && m.base > 0 && At(x, m.base - 1).op == HALT && Live(x, m.base - 1) && On(x, m.base - 1)
  }

  /** Retirement takes the reference machine's next step and keeps the invariant,
      unless it retires HALT. */
  lemma RetireOk(c: Config, x: Trace, m: Machine)
    requires c.linear && c.robSize > 0 && WellFormed(x) && Inv(c, x, m) && HeadReady(m)
    ensures Retire(c, m).base == m.base + 1
    ensures if At(x, m.base).op == HALT then HaltedOk(c, x, Retire(c, m)) else Inv(c, x, Retire(c, m))
  {
    hide Retire, RatAfter, RegsAfter, Slot, FrontOk, WellFormed, StationsOk, LsbOk, AllOwned, RobOk, Seek;
    var p := Retire(c, m);
    LinearSlot(c, m.base);
    RetireFields(c, m, m.base);
    HeadEntryOk(x, m.base, m.rob);
    ArchStep(c, x, m);
    FrontShift(c, x, m);
    UnitsShift(x, m, p);
    if At(x, m.base).op != HALT {
      WellFormedIsTrace(x);
      LiveStep(x, m.base);
    }
  }

  lemma HeadEntryOk(x: Trace, k: nat, rob: seq<RobEntry>)
    requires RobOk(x, k, rob) && |rob| > 0
    ensures RobEntryOk(x, k, rob[0])
  {
    assert RobEntryOk(x, k + 0, rob[0]);
  }

  lemma WellFormedIsTrace(x: Trace)
    requires WellFormed(x)
    ensures IsTrace(x)
  {
  }
}
