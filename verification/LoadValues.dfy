/** Memory disambiguation over whole runs: what every finished load has read. */
module LoadValues {
  import opened Words
  import opened Instructions
  import opened ArchState
  import opened Buffers
  import opened Machines
  import opened Isa
  import opened Invariants
  import opened Tags
  import opened Simulation
  import opened Reachable
  import opened Retirement

  /** Instruction s of the program is a store to the memory word that address a selects. */
  ghost predicate StoresTo(p: Program, s: nat, a: Word) {
    var t := StateAt(p, s);
    var i := InstructionAt(p, t);
    IsStore(i.op) && AddressIn(t, i) / 4 == a / 4 && a / 4 < |p.mem|
  }

  /** The data of the youngest store before instruction n to the word of address a,
      or else that word of the initial memory. */
  ghost function YoungestStore(p: Program, n: nat, a: Word): Word {
    if n == 0 then ReadMem(p.mem, a)
    else if StoresTo(p, n - 1, a) then
      var t := StateAt(p, n - 1);
      var i := InstructionAt(p, t);
      Source(t.regs, i.rs2, i.rs2Fp)
    else YoungestStore(p, n - 1, a)
  }

  lemma {:induction false} MemoryIsYoungestStore(p: Program, n: nat, a: Word)
    ensures ReadMem(StateAt(p, n).mem, a) == YoungestStore(p, n, a)
    ensures |StateAt(p, n).mem| == |p.mem|
  {
    hide Produced, NextRegs, NextPc, NextMem, ReadMem, AddressIn, Source;
    if n > 0 {
      MemoryIsYoungestStore(p, n - 1, a);
      var t := StateAt(p, n - 1);
      StoredOrKept(t, InstructionAt(p, t), a);
    }
  }

  /** What one instruction does to the word of address a. */
  lemma StoredOrKept(t: State, i: Instruction, a: Word)
    ensures ReadMem(NextMem(t, i), a) ==
            if IsStore(i.op) && AddressIn(t, i) / 4 == a / 4 && a / 4 < |t.mem| then Source(t.regs, i.rs2, i.rs2Fp) else ReadMem(t.mem, a)
    ensures |NextMem(t, i)| == |t.mem|
    ensures !IsStore(i.op) ==> NextMem(t, i) == t.mem
  {
    hide AddressIn, Source;
  }

  /** A finished load holds the youngest older store's data, or the initial word. */
  ghost predicate LoadTrue(size: nat, p: Program, m: Machine, e: LsbEntry)
    requires size > 0
  {
    DoneLoad(e) ==>
      exists n: nat :: LoadOf(size, p, m, e, n) && (NoHaltBefore(p, n) ==> e.result == YoungestStore(p, n, e.addr))
  }

  /** The entry is the buffered load that is instruction n, with its effective address. */
  ghost predicate LoadOf(size: nat, p: Program, m: Machine, e: LsbEntry, n: nat)
    requires size > 0
  {
    var t := StateAt(p, n);
    var i := InstructionAt(p, t);
    && m.base <= n < m.base + |m.rob| && n % size == e.tag && IsLoad(i.op) && e.op == i.op
    && (NoHaltBefore(p, n) ==> e.addr == AddressIn(t, i))
  }

  lemma RingLoadTrue(c: Config, p: Program, d: Machine, e: LsbEntry)
    requires c.linear && c.robSize > 0 && LsbEntryOk(TraceOf(p), d.base, d.rob, e)
    ensures LoadTrue(c.robSize, p, RingMachine(c, d), RingLsb(c, e))
  {
    var x := TraceOf(p);
    if DoneLoad(e) {
      var n: nat := e.tag;
      AtIs(x, n);
      AddrIs(x, n);
      ResIs(x, n);
      MemoryIsYoungestStore(p, n, e.addr);
      hide TraceOf, StateAt, InstructionAt, NoHaltBefore, YoungestStore, AddressIn, RingRat, RingStations, RingBuffer, IsTrace;
      assert LoadOf(c.robSize, p, RingMachine(c, d), RingLsb(c, e), n);
    }
  }

  /** In every reachable state, whether forwarded from the buffer or read from memory while
      older stores were still waiting, every finished load holds what program order demands. */
  lemma ReachableLoads(c: Config, sizes: seq<nat>, code: seq<Instruction>, fp: FloatUnit, mem: seq<Word>, n: nat)
    requires c.robSize > 0 && |sizes| == UNITS && Admissible(Reference(code, fp, mem))
    ensures var m := After(c, sizes, code, fp, mem, n);
            forall i :: 0 <= i < |m.lsb| ==> LoadTrue(c.robSize, Reference(code, fp, mem), m, m.lsb[i])
  {
    hide After, Double, Coherent, TraceOf, Admissible, RingRat, RingStations, LoadTrue, LsbEntryOk, RingLsb, Reference, StationsOk, RobOk, AllOwned;
    var d, u, p := Double(c, sizes, code, fp, mem, n), Unbounded(c), Reference(code, fp, mem);
    ReachableDouble(c, sizes, code, fp, mem, n);
    UnitsOfCoherent(u, TraceOf(p), d);
    forall i | 0 <= i < |d.lsb|
      ensures LoadTrue(c.robSize, p, RingMachine(u, d), RingMachine(u, d).lsb[i])
    {
      RingLoadTrue(u, p, d, d.lsb[i]);
    }
  }

  /** The value of every load that retires, in any cycle of any run. */
  lemma RetiringLoads(c: Config, sizes: seq<nat>, code: seq<Instruction>, fp: FloatUnit, mem: seq<Word>, n: nat)
    requires c.robSize > 0 && |sizes| == UNITS && Admissible(Reference(code, fp, mem))
    requires !After(c, sizes, code, fp, mem, n).halted
    requires HeadReady(Retiring(c, sizes, code, fp, mem, n)) && IsLoad(Retiring(c, sizes, code, fp, mem, n).rob[0].op)
    ensures var e, p := Retiring(c, sizes, code, fp, mem, n), Reference(code, fp, mem);
            var t := StateAt(p, e.base);
            e.rob[0].result == YoungestStore(p, e.base, AddressIn(t, InstructionAt(p, t)))
  {
    hide After, Retiring, StateAt, InstructionAt, AddressIn, YoungestStore, ReadMem, Admissible, Reference;
    var e, p := Retiring(c, sizes, code, fp, mem, n), Reference(code, fp, mem);
    var t := StateAt(p, e.base);
    RetiresSequentially(c, sizes, code, fp, mem, n);
    MemoryIsYoungestStore(p, e.base, AddressIn(t, InstructionAt(p, t)));
  }
}
