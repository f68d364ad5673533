/** The out-of-order pipeline refines the sequential machine: every cycle is a
    stutter or one sequential step, over every run. */
module Refinement {
  import opened Instructions
  import opened Buffers
  import opened Machines
  import opened Isa
  import opened Invariants
  import opened BroadcastProofs
  import opened CommitProofs
  import opened DispatchProofs

  /** What the clock loop's state satisfies at the top of every iteration and at its exit. */
  ghost predicate Good(c: Config, x: Trace, m: Machine) {
    if m.halted then HaltedOk(c, x, m) else Inv(c, x, m)
  }

  lemma InvUnits(c: Config, x: Trace, m: Machine)
    requires Inv(c, x, m)
    ensures UnitsOk(x, m, []) && m.mem == T(x, m.base).mem && |m.rob| <= c.robSize
  {
    hide UnitsOk, FrontOk;
  }

  lemma InvKept(c: Config, x: Trace, m: Machine, e: Machine)
    requires Inv(c, x, m) && UnitsOk(x, e, []) && |e.rob| == |m.rob| && |e.lsb| <= |m.lsb|
    requires e.regs == m.regs && e.mem == m.mem && e.rat == m.rat && e.base == m.base
    requires e.iq == m.iq && e.branchInFlight == m.branchInFlight && e.halted == m.halted
    ensures Inv(c, x, e)
  {
    hide UnitsOk, RatOk, ControlOk, QueueOk;
  }

  lemma ExecuteInv(c: Config, f: ExecFn, x: Trace, m: Machine)
    requires c.linear && c.robSize > 0 && SameResults(f, x.p.alu) && Sound(x) && Inv(c, x, m)
    ensures Inv(c, x, Execute(c, f, m)) && Execute(c, f, m).base == m.base
  {
    hide Execute, UnitsOk, FrontOk;
    ExecuteOk(c, f, x, m);
    ExecuteFields(c, f, m);
    InvKept(c, x, m, Execute(c, f, m));
  }

  lemma ExecuteFields(c: Config, f: ExecFn, m: Machine)
    requires c.robSize > 0
    ensures var e := Execute(c, f, m);
            && e.regs == m.regs && e.mem == m.mem && e.rat == m.rat && e.base == m.base
            && e.iq == m.iq && e.branchInFlight == m.branchInFlight && e.halted == m.halted
  {
  }

  /** One pass of the clock loop: nothing retires, or exactly the next instruction of
      the sequential run does; HALT stops the loop with exactly that state. */
  lemma CycleOk(c: Config, f: ExecFn, x: Trace, m: Machine)
    requires c.linear && c.robSize > 0 && SameResults(f, x.p.alu) && Sound(x) && Inv(c, x, m)
    ensures var p := Cycle(c, f, x.p.code, m);
            && Good(c, x, p)
            && (p.base == m.base || p.base == m.base + 1)
            && (p.halted ==> p.base == m.base + 1)
  {
    hide Inv, Execute, HaltedOk, DispatchUpTo, Retire;
    var e := Execute(c, f, m);
    ExecuteInv(c, f, x, m);
    InvNotHalted(c, x, e);
    if HeadReady(e) {
      RetireOk(c, x, e);
      var r := Retire(c, e);
      if At(x, e.base).op == HALT {
        HaltedIsHalted(c, x, r);
      } else {
        InvNotHalted(c, x, r);
        IssueOk(c, x, r);
        InvNotHalted(c, x, Issue(c, x.p.code, r));
      }
    } else {
      IssueOk(c, x, e);
      InvNotHalted(c, x, Issue(c, x.p.code, e));
    }
  }

  lemma InvNotHalted(c: Config, x: Trace, m: Machine)
    requires Inv(c, x, m)
    ensures !m.halted
  {
  }

  lemma HaltedIsHalted(c: Config, x: Trace, m: Machine)
    requires HaltedOk(c, x, m)
    ensures m.halted
  {
  }

  /** The power-on state is the sequential machine's initial state. */
  lemma PowerOnOk(c: Config, x: Trace, sizes: seq<nat>)
    requires IsTrace(x) && |sizes| == UNITS
    ensures Inv(c, x, PowerOn(sizes, x.p.mem))
  {
    var m := PowerOn(sizes, x.p.mem);
    forall u | 0 <= u < UNITS
      ensures StationOk(x, 0, [], [], u, m.stations[u])
    {
      assert forall i :: 0 <= i < |m.stations[u]| ==> m.stations[u][i] == IDLE_RS;
    }
  }

  lemma IterateOk(c: Config, f: ExecFn, x: Trace, m: Machine)
    requires c.linear && c.robSize > 0 && SameResults(f, x.p.alu) && Sound(x) && Good(c, x, m)
    ensures Good(c, x, Iterate(c, f, x.p.code, m))
  {
    hide HaltedOk, Inv, Cycle;
    if !Stopped(x.p.code, m) {
      CycleOk(c, f, x, m);
    }
  }

  /** Every reachable state is good. */
  lemma {:induction false} RunOk(c: Config, f: ExecFn, x: Trace, m: Machine, n: nat)
    requires c.linear && c.robSize > 0 && SameResults(f, x.p.alu) && Sound(x) && Good(c, x, m)
    ensures Good(c, x, Run(c, f, x.p.code, m, n))
  {
    hide Good, Iterate, Sound, SameResults;
    if n > 0 {
      RunOk(c, f, x, m, n - 1);
      IterateOk(c, f, x, Run(c, f, x.p.code, m, n - 1));
    }
  }

  /** Whether running or halted, every unit agrees with the trace. */
  lemma GoodIsCoherent(c: Config, x: Trace, m: Machine)
    requires Good(c, x, m)
    ensures Coherent(c, x, m)
  {
    hide UnitsOk, FrontOk, ArchOk;
  }

  /** When the loop exits without HALT the sequential machine has run off the program. */
  lemma DrainedIsFinished(c: Config, x: Trace, m: Machine)
    requires IsTrace(x) && Inv(c, x, m) && Stopped(x.p.code, m)
    ensures !On(x, m.base)
  {
  }
}
