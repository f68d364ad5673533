/** What holds in every reachable state of the simulator, in terms of its own buffers. */
module Reachable {
  import opened Words
  import opened Instructions
  import opened Renaming
  import opened Buffers
  import opened Machines
  import opened Isa
  import opened Invariants
  import opened Refinement
  import opened Tags
  import opened Simulation

  // ----- Renaming -----

  /** Reorder-buffer entry i will write the register; x0 is never written. */
  predicate RobWrites(m: Machine, i: nat, idx: int, fp: bool)
    requires i < |m.rob|
  {
    m.rob[i].rd == idx && m.rob[i].rdFp == fp && (fp || idx != 0)
  }

  /** A register is renamed exactly when something in flight writes it, and then to
      the slot of the youngest such entry. */
  ghost predicate RenamingExact(size: nat, m: Machine)
    requires size > 0
  {
    forall idx: int, fp: bool :: 0 <= idx < 32 ==> RenamedExactly(size, m, Lookup(m.rat, idx, fp), idx, fp)
  }

  ghost predicate RenamedExactly(size: nat, m: Machine, e: RatEntry, idx: int, fp: bool)
    requires size > 0
  {
    && (e.valid <==> exists i :: 0 <= i < |m.rob| && RobWrites(m, i, idx, fp))
    && (e.valid ==> exists i :: 0 <= i < |m.rob| && RobWrites(m, i, idx, fp) && e.tag == (m.base + i) % size
                               && forall j :: i < j < |m.rob| ==> !RobWrites(m, j, idx, fp))
  }

  lemma RobWritesIs(x: Trace, m: Machine, i: nat, idx: int, fp: bool)
    requires RobOk(x, m.base, m.rob) && i < |m.rob| && 0 <= idx < 32
    ensures RobWrites(m, i, idx, fp) <==> Writes(At(x, m.base + i), idx, fp)
  {
    assert RobEntryOk(x, m.base + i, m.rob[i]);
  }

  lemma RenamedEntry(c: Config, x: Trace, d: Machine, idx: int, fp: bool)
    requires c.linear && c.robSize > 0 && RobOk(x, d.base, d.rob) && 0 <= idx < 32
    requires RatEntryOk(x, d.base, d.base + |d.rob|, Lookup(d.rat, idx, fp), idx, fp)
    ensures RenamedExactly(c.robSize, d, RingRatEntry(c, Lookup(d.rat, idx, fp)), idx, fp)
  {
    var e := Lookup(d.rat, idx, fp);
    forall i | 0 <= i < |d.rob|
      ensures RobWrites(d, i, idx, fp) <==> Writes(At(x, d.base + i), idx, fp)
    {
      RobWritesIs(x, d, i, idx, fp);
    }
    hide RobOk, RobWrites, Writes;
    if e.valid {
      var i := e.tag - d.base;
      assert e.tag == d.base + i && RobWrites(d, i, idx, fp);
      assert forall j :: i < j < |d.rob| ==> !RobWrites(d, j, idx, fp);
    }
  }

  lemma RingRenaming(c: Config, x: Trace, d: Machine)
    requires c.linear && c.robSize > 0 && Coherent(c, x, d)
    ensures RenamingExact(c.robSize, RingMachine(c, d))
  {
    hide StationsOk, LsbOk, AllOwned, ControlOk, QueueOk, ArchOk, RobOk, RingStations, RingBuffer;
    var m := RingMachine(c, d);
    forall idx: int, fp: bool | 0 <= idx < 32
      ensures RenamedExactly(c.robSize, m, Lookup(m.rat, idx, fp), idx, fp)
    {
      assert RatEntryOk(x, d.base, d.base + |d.rob|, Lookup(d.rat, idx, fp), idx, fp);
      RenamedEntry(c, x, d, idx, fp);
      assert Lookup(m.rat, idx, fp) == RingRatEntry(c, Lookup(d.rat, idx, fp));
      RenamedSame(c.robSize, d, m, Lookup(m.rat, idx, fp), idx, fp);
    }
  }

  lemma RenamedSame(size: nat, d: Machine, m: Machine, e: RatEntry, idx: int, fp: bool)
    requires size > 0 && m.rob == d.rob && m.base == d.base && RenamedExactly(size, d, e, idx, fp)
    ensures RenamedExactly(size, m, e, idx, fp)
  {
    forall i | 0 <= i < |m.rob|
      ensures RobWrites(m, i, idx, fp) == RobWrites(d, i, idx, fp)
    {
    }
    hide RobWrites;
    if e.valid {
      var i :| 0 <= i < |d.rob| && RobWrites(d, i, idx, fp) && e.tag == (d.base + i) % size
                 && forall j :: i < j < |d.rob| ==> !RobWrites(d, j, idx, fp);
      assert RobWrites(m, i, idx, fp);
    }
  }

  // ----- Control -----

  /** A control transfer in flight is the youngest entry, and the stall flag says so. */
  ghost predicate ControlLast(m: Machine) {
    && (forall i :: 0 <= i < |m.rob| ==> (IsControl(m.rob[i].op) <==> m.branchInFlight && i == |m.rob| - 1))
    && (m.branchInFlight ==> m.rob != [])
  }

  lemma RingControl(c: Config, x: Trace, d: Machine)
    requires Coherent(c, x, d)
    ensures ControlLast(d)
  {
    hide StationsOk, LsbOk, AllOwned, RatOk, QueueOk, ArchOk;
    forall i | 0 <= i < |d.rob|
      ensures IsControl(d.rob[i].op) <==> d.branchInFlight && i == |d.rob| - 1
    {
      assert RobEntryOk(x, d.base + i, d.rob[i]);
    }
  }

  // ----- Operands and tags -----

  /** The operand equals the register's sequential value before instruction n, or waits
      for the slot of an older instruction in flight that produces that value. */
  ghost predicate OperandTrue(size: nat, p: Program, m: Machine, n: nat, o: Operand, src: RegField, fp: bool)
    requires size > 0
  {
    var want := Source(StateAt(p, n).regs, src, fp);
    if o.q == -1 then NoHaltBefore(p, n) ==> o.v == want
    else exists w: nat :: Supplies(size, p, m, w, o.q, want) && w < n
  }

  ghost predicate Supplies(size: nat, p: Program, m: Machine, w: nat, q: int, want: Word)
    requires size > 0
  {
    && m.base <= w < m.base + |m.rob| && w % size == q
    && m.rob[w - m.base].state == InFlight
    && Produced(p, StateAt(p, w), InstructionAt(p, StateAt(p, w))) == want
  }

  /** A slot named tag holds trace instruction n, still in flight, with true operands. */
  ghost predicate HoldsInstruction(size: nat, p: Program, m: Machine, n: nat, tag: int, op: Opcode, j: Operand, k: Operand)
    requires size > 0
  {
    var i := InstructionAt(p, StateAt(p, n));
    && m.base <= n < m.base + |m.rob| && n % size == tag && op == i.op
    && OperandTrue(size, p, m, n, j, i.rs1, i.rs1Fp)
    && OperandTrue(size, p, m, n, k, i.rs2, i.rs2Fp)
  }

  ghost predicate StationsTrue(size: nat, p: Program, m: Machine)
    requires size > 0
  {
    forall u, i :: 0 <= u < UNITS && 0 <= i < |m.stations[u]| && m.stations[u][i].busy ==>
      StationTrue(size, p, m, u, m.stations[u][i])
  }

  ghost predicate StationTrue(size: nat, p: Program, m: Machine, u: nat, e: RsEntry)
    requires size > 0
  {
    && UnitOf(e.op) == u
    && exists n: nat :: HoldsInstruction(size, p, m, n, e.tag, e.op, e.j, e.k) && Flying(m.base, m.rob, n)
  }

  ghost predicate BufferTrue(size: nat, p: Program, m: Machine)
    requires size > 0
  {
    forall i :: 0 <= i < |m.lsb| ==> LsbTrue(size, p, m, m.lsb[i])
  }

  ghost predicate LsbTrue(size: nat, p: Program, m: Machine, e: LsbEntry)
    requires size > 0
  {
    exists n: nat :: HoldsInstruction(size, p, m, n, e.tag, e.op, e.j, e.k)
  }

  lemma RingSupplies(c: Config, p: Program, d: Machine, w: nat, want: Word)
    requires c.linear && c.robSize > 0 && Flying(d.base, d.rob, w) && want == Res(TraceOf(p), w)
    ensures Supplies(c.robSize, p, RingMachine(c, d), w, Ring(c, w), want)
  {
    hide TraceOf, RingRat, RingStations, RingBuffer, StateAt, InstructionAt, Produced;
    AtIs(TraceOf(p), w);
    ResIs(TraceOf(p), w);
  }

  lemma RingOperandTrue(c: Config, p: Program, d: Machine, n: nat, o: Operand, src: RegField, fp: bool)
    requires c.linear && c.robSize > 0 && OperandOk(TraceOf(p), d.base, d.rob, [], n, o, src, fp)
    ensures OperandTrue(c.robSize, p, RingMachine(c, d), n, RingOperand(c, o), src, fp)
  {
    hide TraceOf, StateAt, NoHaltBefore, Flying, Supplies, RingMachine, Source;
    assert T(TraceOf(p), n) == StateAt(p, n);
    if o.q != -1 {
      RingMinus(c, o.q);
      assert !OnBus([], o.q);
      hide Ring;
      RingSupplies(c, p, d, o.q, Res(TraceOf(p), o.q));
    }
  }

  lemma RingHolds(c: Config, p: Program, d: Machine, n: nat, op: Opcode, j: Operand, k: Operand)
    requires c.linear && c.robSize > 0 && InWindow(d.base, d.rob, n) && op == At(TraceOf(p), n).op
    requires OperandsOk(TraceOf(p), d.base, d.rob, [], n, j, k)
    ensures HoldsInstruction(c.robSize, p, RingMachine(c, d), n, Ring(c, n), op, RingOperand(c, j), RingOperand(c, k))
  {
    hide TraceOf, OperandTrue, OperandOk, RingOperand;
    var i := At(TraceOf(p), n);
    AtIs(TraceOf(p), n);
    RingOperandTrue(c, p, d, n, j, i.rs1, i.rs1Fp);
    RingOperandTrue(c, p, d, n, k, i.rs2, i.rs2Fp);
  }

  lemma RingSlotTrue(c: Config, p: Program, d: Machine, u: nat, e: RsEntry)
    requires c.linear && c.robSize > 0 && u < UNITS && RsEntryOk(TraceOf(p), d.base, d.rob, u, e)
    requires OperandsOk(TraceOf(p), d.base, d.rob, [], e.tag, e.j, e.k)
    ensures StationTrue(c.robSize, p, RingMachine(c, d), u, RingRs(c, e))
  {
    assert Flying(d.base, d.rob, e.tag) && e.op == At(TraceOf(p), e.tag).op && UnitOf(e.op) == u;
    var m := RingMachine(c, d);
    assert Flying(m.base, m.rob, e.tag);
    hide HoldsInstruction, OperandsOk, RsEntryOk, Flying, UnitOf, TraceOf, RingMachine, Ring, RingOperand;
    RingHolds(c, p, d, e.tag, e.op, e.j, e.k);
    assert HoldsInstruction(c.robSize, p, m, e.tag, Ring(c, e.tag), e.op, RingOperand(c, e.j), RingOperand(c, e.k));
  }

  lemma RingStationsTrue(c: Config, p: Program, d: Machine)
    requires c.linear && c.robSize > 0 && StationsOk(TraceOf(p), d.base, d.rob, [], d.stations)
    ensures StationsTrue(c.robSize, p, RingMachine(c, d))
  {
    hide RsEntryOk, OperandsOk, StationTrue, TraceOf, RingRat, RingBuffer, Ring;
    var m := RingMachine(c, d);
    forall u, i | 0 <= u < UNITS && 0 <= i < |m.stations[u]| && m.stations[u][i].busy
      ensures StationTrue(c.robSize, p, m, u, m.stations[u][i])
    {
      assert StationOk(TraceOf(p), d.base, d.rob, [], u, d.stations[u]);
      assert m.stations[u][i] == RingRs(c, d.stations[u][i]);
      RingSlotTrue(c, p, d, u, d.stations[u][i]);
    }
  }

  lemma RingLsbTrue(c: Config, p: Program, d: Machine, e: LsbEntry)
    requires c.linear && c.robSize > 0 && LsbEntryOk(TraceOf(p), d.base, d.rob, e)
    requires OperandsOk(TraceOf(p), d.base, d.rob, [], e.tag, e.j, e.k)
    ensures LsbTrue(c.robSize, p, RingMachine(c, d), RingLsb(c, e))
  {
    RingHolds(c, p, d, e.tag, e.op, e.j, e.k);
    hide HoldsInstruction, TraceOf, Res, RingRat, RingStations, RingBuffer;
    assert HoldsInstruction(c.robSize, p, RingMachine(c, d), e.tag, Ring(c, e.tag), e.op, RingOperand(c, e.j), RingOperand(c, e.k));
  }

  lemma RingBufferTrue(c: Config, p: Program, d: Machine)
    requires c.linear && c.robSize > 0 && LsbOk(TraceOf(p), d.base, d.rob, [], d.lsb)
    ensures BufferTrue(c.robSize, p, RingMachine(c, d))
  {
    hide OperandsOk, LsbEntryOk, LsbTrue, TraceOf, RingRat, RingStations, Ring;
    var m := RingMachine(c, d);
    forall i | 0 <= i < |m.lsb|
      ensures LsbTrue(c.robSize, p, m, m.lsb[i])
    {
      assert m.lsb[i] == RingLsb(c, d.lsb[i]);
      RingLsbTrue(c, p, d, d.lsb[i]);
    }
  }

  // ----- Every reachable state -----

  lemma RunningDouble(c: Config, sizes: seq<nat>, code: seq<Instruction>, fp: FloatUnit, mem: seq<Word>, n: nat)
    requires c.robSize > 0 && |sizes| == UNITS && Admissible(Reference(code, fp, mem))
    requires !After(c, sizes, code, fp, mem, n).halted
    ensures var d := Double(c, sizes, code, fp, mem, n);
            && After(c, sizes, code, fp, mem, n) == RingMachine(Unbounded(c), d)
            && Inv(Unbounded(c), TraceOf(Reference(code, fp, mem)), d)
  {
    hide After, Double, Inv, TraceOf, Admissible, RingRat, RingStations, RingBuffer;
    Lockstep(c, sizes, code, fp, mem, n);
  }

  lemma ReachableDouble(c: Config, sizes: seq<nat>, code: seq<Instruction>, fp: FloatUnit, mem: seq<Word>, n: nat)
    requires c.robSize > 0 && |sizes| == UNITS && Admissible(Reference(code, fp, mem))
    ensures var d := Double(c, sizes, code, fp, mem, n);
            && After(c, sizes, code, fp, mem, n) == RingMachine(Unbounded(c), d)
            && Coherent(Unbounded(c), TraceOf(Reference(code, fp, mem)), d)
  {
    hide After, Double, Good, Coherent, TraceOf, Admissible, RingMachine;
    Lockstep(c, sizes, code, fp, mem, n);
    GoodIsCoherent(Unbounded(c), TraceOf(Reference(code, fp, mem)), Double(c, sizes, code, fp, mem, n));
  }

  /** Renaming is exact and control transfers are youngest in every reachable state. */
  lemma ReachableRenaming(c: Config, sizes: seq<nat>, code: seq<Instruction>, fp: FloatUnit, mem: seq<Word>, n: nat)
    requires c.robSize > 0 && |sizes| == UNITS && Admissible(Reference(code, fp, mem))
    ensures RenamingExact(c.robSize, After(c, sizes, code, fp, mem, n))
    ensures ControlLast(After(c, sizes, code, fp, mem, n))
  {
    hide After, Double, Coherent, TraceOf, Admissible, RingRat, RingStations, RingBuffer, RenamedExactly;
    var d := Double(c, sizes, code, fp, mem, n);
    var x := TraceOf(Reference(code, fp, mem));
    ReachableDouble(c, sizes, code, fp, mem, n);
    RingRenaming(Unbounded(c), x, d);
    RingControl(Unbounded(c), x, d);
  }

  // ----- Ownership: no two slots hold the same instruction -----

  /** Different occupied slots carry different tags. */
  ghost predicate TagsDistinct(m: Machine) {
    && (forall u, v, i, j | 0 <= u < UNITS && 0 <= v < UNITS && 0 <= i < |m.stations[u]| && 0 <= j < |m.stations[v]| ::
          m.stations[u][i].busy && m.stations[v][j].busy && m.stations[u][i].tag == m.stations[v][j].tag ==> u == v && i == j)
    && (forall u, i, j | 0 <= u < UNITS && 0 <= i < |m.stations[u]| && 0 <= j < |m.lsb| ::
          m.stations[u][i].busy ==> m.stations[u][i].tag != m.lsb[j].tag)
    && (forall i, j :: 0 <= i < j < |m.lsb| ==> m.lsb[i].tag != m.lsb[j].tag)
  }

  /** Every entry in flight is held by a slot of its unit. */
  ghost predicate EveryoneHeld(size: nat, m: Machine)
    requires size > 0
  {
    forall i :: 0 <= i < |m.rob| && m.rob[i].state == InFlight ==> Held(m, (m.base + i) % size, UnitOf(m.rob[i].op))
  }

  ghost predicate Held(m: Machine, tag: int, u: nat)
    requires u <= UNITS
  {
    if u == UNITS then Buffered(m.lsb, tag) else Stationed(m.stations[u], tag)
  }

  lemma StationTags(c: Config, x: Trace, d: Machine, u: nat, v: nat, i: nat, j: nat)
    requires c.linear && c.robSize > 0 && |d.rob| <= c.robSize && StationsOk(x, d.base, d.rob, [], d.stations)
    requires u < UNITS && v < UNITS && i < |d.stations[u]| && j < |d.stations[v]|
    requires d.stations[u][i].busy && d.stations[v][j].busy && Ring(c, d.stations[u][i].tag) == Ring(c, d.stations[v][j].tag)
    ensures u == v && i == j
  {
    hide Ring;
    var a, b := d.stations[u][i], d.stations[v][j];
    assert StationOk(x, d.base, d.rob, [], u, d.stations[u]) && StationOk(x, d.base, d.rob, [], v, d.stations[v]);
    assert RsEntryOk(x, d.base, d.rob, u, a) && RsEntryOk(x, d.base, d.rob, v, b);
    SlotsDiffer(c, d.base, a.tag, b.tag);
  }

  lemma BufferTags(c: Config, x: Trace, d: Machine, u: nat, i: nat, j: nat)
    requires c.linear && c.robSize > 0 && |d.rob| <= c.robSize
    requires StationsOk(x, d.base, d.rob, [], d.stations) && LsbOk(x, d.base, d.rob, [], d.lsb)
    requires u < UNITS && i < |d.stations[u]| && j < |d.lsb| && d.stations[u][i].busy
    ensures Ring(c, d.stations[u][i].tag) != Ring(c, d.lsb[j].tag)
  {
    hide Ring;
    assert StationOk(x, d.base, d.rob, [], u, d.stations[u]);
    assert RsEntryOk(x, d.base, d.rob, u, d.stations[u][i]) && LsbEntryOk(x, d.base, d.rob, d.lsb[j]);
    SlotsDiffer(c, d.base, d.stations[u][i].tag, d.lsb[j].tag);
  }

  lemma BufferTagsDistinct(c: Config, x: Trace, d: Machine, i: nat, j: nat)
    requires c.linear && c.robSize > 0 && |d.rob| <= c.robSize && LsbOk(x, d.base, d.rob, [], d.lsb) && i < j < |d.lsb|
    ensures Ring(c, d.lsb[i].tag) != Ring(c, d.lsb[j].tag)
  {
    hide Ring;
    assert LsbEntryOk(x, d.base, d.rob, d.lsb[i]) && LsbEntryOk(x, d.base, d.rob, d.lsb[j]);
    SlotsDiffer(c, d.base, d.lsb[i].tag, d.lsb[j].tag);
  }

  lemma RingTagsDistinct(c: Config, x: Trace, d: Machine)
    requires c.linear && c.robSize > 0 && |d.rob| <= c.robSize
    requires StationsOk(x, d.base, d.rob, [], d.stations) && LsbOk(x, d.base, d.rob, [], d.lsb)
    ensures TagsDistinct(RingMachine(c, d))
  {
    hide Ring, StationsOk, LsbOk, RingRat;
    var m := RingMachine(c, d);
    forall u, v, i, j | 0 <= u < UNITS && 0 <= v < UNITS && 0 <= i < |m.stations[u]| && 0 <= j < |m.stations[v]|
          && m.stations[u][i].busy && m.stations[v][j].busy && m.stations[u][i].tag == m.stations[v][j].tag
      ensures u == v && i == j
    {
      StationTags(c, x, d, u, v, i, j);
    }
    forall u, i, j | 0 <= u < UNITS && 0 <= i < |m.stations[u]| && 0 <= j < |m.lsb| && m.stations[u][i].busy
      ensures m.stations[u][i].tag != m.lsb[j].tag
    {
      BufferTags(c, x, d, u, i, j);
    }
    forall i, j | 0 <= i < j < |m.lsb|
      ensures m.lsb[i].tag != m.lsb[j].tag
    {
      BufferTagsDistinct(c, x, d, i, j);
    }
  }

  lemma RingHeld(c: Config, x: Trace, d: Machine, i: nat)
    requires c.linear && c.robSize > 0 && AllOwned(x, d.base, d.rob, d.stations, d.lsb) && RobOk(x, d.base, d.rob)
    requires i < |d.rob| && d.rob[i].state == InFlight
    ensures Held(RingMachine(c, d), Ring(c, d.base + i), UnitOf(d.rob[i].op))
  {
    hide Ring, UnitOf, RingRat;
    var n: nat, m := d.base + i, RingMachine(c, d);
    assert RobEntryOk(x, d.base + i, d.rob[i]);
    assert Owned(x, d.stations, d.lsb, n);
    var u := UnitOf(d.rob[i].op);
    if u == UNITS {
      var j :| 0 <= j < |d.lsb| && d.lsb[j].tag == n;
      assert m.lsb[j].tag == Ring(c, n);
    } else {
      var j :| 0 <= j < |d.stations[u]| && d.stations[u][j].busy && d.stations[u][j].tag == n;
      assert m.stations[u][j].busy && m.stations[u][j].tag == Ring(c, n);
    }
  }

  lemma RingEveryoneHeld(c: Config, x: Trace, d: Machine)
    requires c.linear && c.robSize > 0 && AllOwned(x, d.base, d.rob, d.stations, d.lsb) && RobOk(x, d.base, d.rob)
    ensures EveryoneHeld(c.robSize, RingMachine(c, d))
  {
    hide AllOwned, RobOk, Held, UnitOf, RingRat, RingStations, RingBuffer;
    var m := RingMachine(c, d);
    forall i | 0 <= i < |m.rob| && m.rob[i].state == InFlight
      ensures Held(m, (m.base + i) % c.robSize, UnitOf(m.rob[i].op))
    {
      RingHeld(c, x, d, i);
    }
  }

  /** Operand correctness, no stale tag and no lost wake-up: in every reachable state
      each occupied slot holds one instruction of the sequential trace, each operand is
      its true value or waits for the slot of an older instruction in flight that will
      produce it, tags are unambiguous, and whatever is in flight is in its unit. */
  lemma ReachableOperands(c: Config, sizes: seq<nat>, code: seq<Instruction>, fp: FloatUnit, mem: seq<Word>, n: nat)
    requires c.robSize > 0 && |sizes| == UNITS && Admissible(Reference(code, fp, mem))
    ensures var m, p := After(c, sizes, code, fp, mem, n), Reference(code, fp, mem);
            && StationsTrue(c.robSize, p, m) && BufferTrue(c.robSize, p, m)
            && TagsDistinct(m) && EveryoneHeld(c.robSize, m)
  {
    var d, u := Double(c, sizes, code, fp, mem, n), Unbounded(c);
    var p := Reference(code, fp, mem);
    var x := TraceOf(p);
    assert u.robSize == c.robSize && u.linear;
    ReachableDouble(c, sizes, code, fp, mem, n);
    UnitsOfCoherent(u, x, d);
    hide After, Double, Coherent, TraceOf, Admissible, Reference, Unbounded, RingMachine, StationsTrue, BufferTrue, TagsDistinct, EveryoneHeld, StationsOk, LsbOk, AllOwned, RobOk;
    RingStationsTrue(u, p, d);
    RingBufferTrue(u, p, d);
    RingTagsDistinct(u, x, d);
    RingEveryoneHeld(u, x, d);
  }

  lemma UnitsOfCoherent(c: Config, x: Trace, d: Machine)
    requires Coherent(c, x, d)
    ensures |d.rob| <= c.robSize && RobOk(x, d.base, d.rob) && StationsOk(x, d.base, d.rob, [], d.stations)
    ensures LsbOk(x, d.base, d.rob, [], d.lsb) && AllOwned(x, d.base, d.rob, d.stations, d.lsb)
  {
    hide RobOk, StationsOk, LsbOk, AllOwned;
  }
}
