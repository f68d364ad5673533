/** What retires: the instruction sequence of the sequential machine, with its values. */
module Retirement {
  import opened Words
  import opened Instructions
  import opened Buffers
  import opened Machines
  import opened Isa
  import opened Invariants
  import opened Refinement
  import opened Tags
  import opened Simulation
  import opened Reachable

  /** The commit record of the sequential machine's k-th instruction. */
  ghost predicate RecordsInstruction(p: Program, k: nat, e: RobEntry) {
    var s := StateAt(p, k);
    var i := InstructionAt(p, s);
    && e.op == i.op && e.rd == i.rd && e.rdFp == i.rdFp && e.pc == i.pc
    && e.result == Produced(p, s, i)
  }

  /** What would retire in the cycle after n passes of the loop. */
  function Retiring(c: Config, sizes: seq<nat>, code: seq<Instruction>, fp: FloatUnit, mem: seq<Word>, n: nat): Machine
    requires c.robSize > 0 && |sizes| == UNITS
  {
    Execute(Circular(c), SimulatorResults(fp), After(c, sizes, code, fp, mem, n))
  }

  lemma HeadRecord(c: Config, p: Program, m: Machine)
    requires Inv(c, TraceOf(p), m) && HeadReady(m)
    ensures RecordsInstruction(p, m.base, m.rob[0])
  {
    hide StationsOk, LsbOk, AllOwned, FrontOk, ArchOk, TraceOf, StateAt, InstructionAt, Produced;
    var x := TraceOf(p);
    assert RobEntryOk(x, m.base + 0, m.rob[0]);
    AtIs(x, m.base);
    ResIs(x, m.base);
  }

  /** Whatever retires is the sequential machine's next instruction, with its value. */
  lemma RetiresSequentially(c: Config, sizes: seq<nat>, code: seq<Instruction>, fp: FloatUnit, mem: seq<Word>, n: nat)
    requires c.robSize > 0 && |sizes| == UNITS && Admissible(Reference(code, fp, mem))
    requires !After(c, sizes, code, fp, mem, n).halted
    ensures var e := Retiring(c, sizes, code, fp, mem, n);
            && e.base == After(c, sizes, code, fp, mem, n).base
            && (HeadReady(e) ==> RecordsInstruction(Reference(code, fp, mem), e.base, e.rob[0]))
  {
    var x := TraceOf(Reference(code, fp, mem));
    var d := Double(c, sizes, code, fp, mem, n);
    var u := Unbounded(c);
    hide After, Double, Inv, TraceOf, Sound, SameResults, SimulatorResults, ReferenceResults, RingRat, RingStations, RingBuffer, Execute, RecordsInstruction, UnitsOk;
    RunningDouble(c, sizes, code, fp, mem, n);
    SameFunctions(fp);
    TraceIs(Reference(code, fp, mem));
    assert Circular(u) == Circular(c);
    InvUnits(u, x, d);
    ExecuteRing(u, SimulatorResults(fp), x, d);
    ExecuteInv(u, SimulatorResults(fp), x, d);
    if HeadReady(Execute(u, SimulatorResults(fp), d)) {
      HeadRecord(u, Reference(code, fp, mem), Execute(u, SimulatorResults(fp), d));
    }
  }

  /** Two configurations retire the same instruction with the same value as their k-th. */
  lemma SameRetirements(c1: Config, sizes1: seq<nat>, n1: nat, c2: Config, sizes2: seq<nat>, n2: nat,
                        code: seq<Instruction>, fp: FloatUnit, mem: seq<Word>)
    requires c1.robSize > 0 && c2.robSize > 0 && |sizes1| == |sizes2| == UNITS && Admissible(Reference(code, fp, mem))
    requires !After(c1, sizes1, code, fp, mem, n1).halted && !After(c2, sizes2, code, fp, mem, n2).halted
    requires HeadReady(Retiring(c1, sizes1, code, fp, mem, n1)) && HeadReady(Retiring(c2, sizes2, code, fp, mem, n2))
    requires After(c1, sizes1, code, fp, mem, n1).base == After(c2, sizes2, code, fp, mem, n2).base
    ensures Retiring(c1, sizes1, code, fp, mem, n1).rob[0] == Retiring(c2, sizes2, code, fp, mem, n2).rob[0]
  {
    hide After, Retiring, StateAt, InstructionAt, Produced, Admissible, Reference;
    RetiresSequentially(c1, sizes1, code, fp, mem, n1);
    RetiresSequentially(c2, sizes2, code, fp, mem, n2);
  }
}
