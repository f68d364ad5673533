/** The reservation stations keep their invariant through tick, broadcast and snoop. */
module StationProofs {
  import opened Instructions
  import opened Buffers
  import opened Machines
  import opened Isa
  import opened Invariants

  predicate Ready(e: RsEntry) { e.j.q == -1 && e.k.q == -1 }

  /** What one clock tick may do to a slot. */
  ghost predicate Advanced(f: ExecFn, e: RsEntry, e': RsEntry) {
    || e' == e
    || (&& e.busy && !e.done && (e.rem > 0 || Ready(e))
        && (e' == Computed(f, e) || (e'.rem > 0 && e' == e.(rem := e'.rem))))
  }

  lemma {:induction false} StartUpToSlot(c: Config, f: ExecFn, es: seq<RsEntry>, n: nat, i: nat)
    requires n <= |es| && i < |es|
    ensures Advanced(f, es[i], StartUpTo(c, f, es, n)[i])
    ensures i >= n ==> StartUpTo(c, f, es, n)[i] == es[i]
  {
    if n > 0 {
      StartUpToSlot(c, f, es, n - 1, i);
    }
  }

  lemma TickSlot(c: Config, f: ExecFn, es: seq<RsEntry>, i: nat)
    requires i < |es| && es[i].rem >= 0
    ensures Advanced(f, es[i], StationTick(c, f, es)[i])
  {
    StartUpToSlot(c, f, CountDownAll(f, es), |es|, i);
  }

  lemma AdvancedOk(f: ExecFn, x: Trace, k: nat, rob: seq<RobEntry>, bus: seq<BusResult>, u: nat, e: RsEntry, e': RsEntry)
    requires SameResults(f, x.p.alu) && WellFormed(x) && RobOk(x, k, rob)
    requires u < UNITS && RsEntryOk(x, k, rob, u, e) && Advanced(f, e, e')
    requires OperandsOk(x, k, rob, bus, e.tag, e.j, e.k)
    ensures RsEntryOk(x, k, rob, u, e')
  {
    if e' == Computed(f, e) && e' != e && Live(x, e.tag) {
      assert RobEntryOk(x, e.tag, rob[e.tag - k]);
      AtDecodable(x, e.tag);
      ResIs(x, e.tag);
      OperandValues(x, k, rob, bus, e.tag, e.j, e.k);
    }
  }

  lemma TickOk(c: Config, f: ExecFn, x: Trace, k: nat, rob: seq<RobEntry>, bus: seq<BusResult>, u: nat, es: seq<RsEntry>)
    requires SameResults(f, x.p.alu) && WellFormed(x) && RobOk(x, k, rob)
    requires u < UNITS && StationOk(x, k, rob, bus, u, es)
    ensures StationOk(x, k, rob, bus, u, StationTick(c, f, es))
    ensures forall n :: Stationed(es, n) ==> Stationed(StationTick(c, f, es), n)
  {
    var t := StationTick(c, f, es);
    forall i | 0 <= i < |es|
      ensures t[i].busy == es[i].busy && t[i].tag == es[i].tag
      ensures t[i].busy ==> t[i].j == es[i].j && t[i].k == es[i].k
      ensures t[i].busy ==> RsEntryOk(x, k, rob, u, t[i])
    {
      if es[i].busy {
        TickSlot(c, f, es, i);
        AdvancedOk(f, x, k, rob, bus, u, es[i], t[i]);
      } else {
        IdleSlot(c, f, es, i);
      }
    }
    TickStationed(es, t);
  }

  lemma TickStationed(es: seq<RsEntry>, t: seq<RsEntry>)
    requires |es| == |t|
    requires forall i :: 0 <= i < |es| ==> t[i].busy == es[i].busy && t[i].tag == es[i].tag
    ensures forall n :: Stationed(es, n) ==> Stationed(t, n)
  {
    forall n | Stationed(es, n)
      ensures Stationed(t, n)
    {
      var i :| 0 <= i < |es| && es[i].busy && es[i].tag == n;
      assert t[i].busy;
    }
  }

  lemma IdleSlot(c: Config, f: ExecFn, es: seq<RsEntry>, i: nat)
    requires i < |es| && !es[i].busy
    ensures StationTick(c, f, es)[i] == es[i]
  {
    StartUpToSlot(c, f, CountDownAll(f, es), |es|, i);
  }
}
