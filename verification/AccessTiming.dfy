/** The timing of loads and stores: what one tick of the load/store buffer does to each
    access, in terms of the buffer before the tick. */
module AccessTiming {
  import opened Words
  import opened Instructions
  import opened Buffers

  // ----- The alias scan -----

  /** An older store keeps a load of address a back. */
  predicate Obstructs(e: LsbEntry, a: Word) {
    (e.op == SW || e.op == FSW) && (e.state == Waiting || (e.addr == a && e.state != LsbDone))
  }

  /** An older store to address a. */
  predicate Matches(e: LsbEntry, a: Word) {
    (e.op == SW || e.op == FSW) && e.addr == a
  }

  /** The scan is blocked by any store that obstructs; otherwise it names the youngest
      matching store, or none. */
  lemma {:induction false} ScanIs(es: seq<LsbEntry>, a: Word, n: nat)
    requires n <= |es|
    ensures var r := ScanStores(es, a, n);
            && (r.Blocked? <==> exists j :: 0 <= j < n && Obstructs(es[j], a))
            && (r.Clear? <==> forall j :: 0 <= j < n ==> !Obstructs(es[j], a) && !Matches(es[j], a))
            && (r.Forward? ==> Matches(es[r.from], a) && es[r.from].state == LsbDone && forall k :: r.from < k < n ==> !Matches(es[k], a))
  {
    if n > 0 {
      ScanIs(es, a, n - 1);
    }
  }

  // ----- One tick, access by access -----

  /** The address of an access once its base register is there. */
  function Place(e: LsbEntry): Word {
    if e.state == Waiting then (e.j.v + e.imm) % WORD_COUNT else e.addr
  }

  predicate Placed(e: LsbEntry) { e.state != Waiting || e.j.q == -1 }

  predicate IsStoreOp(e: LsbEntry) { e.op == SW || e.op == FSW }

  /** A store that is finished after this tick's first two passes. */
  predicate Closed(e: LsbEntry) {
    IsStoreOp(e) && Placed(e) && (e.state == LsbDone || ((e.state == Waiting || e.state == AddrReady) && e.k.q == -1))
  }

  /** Some older store has no address yet, or the same address and no data yet. */
  ghost predicate Conflicts(es: seq<LsbEntry>, a: Word, i: nat)
    requires i <= |es|
  {
    exists j :: 0 <= j < i && IsStoreOp(es[j]) && (!Placed(es[j]) || (Place(es[j]) == a && !Closed(es[j])))
  }

  /** The youngest older store to address a is s. */
  ghost predicate Youngest(es: seq<LsbEntry>, a: Word, i: nat, s: nat)
    requires i <= |es|
  {
    s < i && IsStoreOp(es[s]) && Place(es[s]) == a && forall k :: s < k < i && IsStoreOp(es[k]) ==> Place(es[k]) != a
  }

  ghost predicate NoneOlder(es: seq<LsbEntry>, a: Word, i: nat)
    requires i <= |es|
  {
    forall k :: 0 <= k < i && IsStoreOp(es[k]) ==> Place(es[k]) != a
  }

  /** The word at byte address a. */
  function WordAt(mem: seq<Word>, a: Word): Word {
    if a / 4 < |mem| then mem[a / 4] else 0
  }

  lemma ResolvedStore(e: LsbEntry)
    requires IsStoreOp(e)
    ensures var r := CloseStore(Address(e));
            && r.op == e.op && (r.state == Waiting <==> !Placed(e)) && (r.state == LsbDone <==> Closed(e)) && r.k == e.k
            && (Placed(e) ==> r.addr == Place(e))
  {
    SignedSum(e.j.v, e.imm);
  }

  lemma ResolvedLoad(e: LsbEntry)
    requires e.op == LW || e.op == FLW
    ensures var r := CloseStore(Address(e));
            r == if e.state == Waiting && e.j.q == -1 then e.(addr := Place(e), state := AddrReady) else e
  {
    SignedSum(e.j.v, e.imm);
  }

  /** The scan over the resolved buffer, in terms of the buffer before the tick. */
  lemma ScanResolved(es: seq<LsbEntry>, a: Word, i: nat)
    requires i <= |es|
    ensures var r := ScanStores(Resolved(es), a, i);
            && (r.Blocked? <==> Conflicts(es, a, i))
            && (r.Clear? ==> NoneOlder(es, a, i))
            && (r.Forward? ==> Youngest(es, a, i, r.from))
  {
    var ready := Resolved(es);
    ScanIs(ready, a, i);
    forall j | 0 <= j < i
      ensures Obstructs(ready[j], a) <==> IsStoreOp(es[j]) && (!Placed(es[j]) || (Place(es[j]) == a && !Closed(es[j])))
      ensures IsStoreOp(ready[j]) == IsStoreOp(es[j])
      ensures IsStoreOp(es[j]) && Placed(es[j]) ==> (Matches(ready[j], a) <==> Place(es[j]) == a)
    {
      if IsStoreOp(es[j]) {
        ResolvedStore(es[j]);
      }
    }
    hide Address, CloseStore, Resolved, ScanStores, Placed, Place, Closed;
    assert ScanStores(ready, a, i).Blocked? <==> Conflicts(es, a, i);
  }

  /** What one tick leaves of load i. A load whose address is known waits while an older
      store conflicts, takes the value of the youngest older store to its address, or else
      reads memory: at once with a latency of at most two, otherwise after latency - 2
      further ticks. */
  ghost predicate LoadTicked(latency: int, es: seq<LsbEntry>, mem: seq<Word>, i: nat, t: LsbEntry)
    requires i < |es|
  {
    var e, a := es[i], Place(es[i]);
    var p := e.(addr := a, state := AddrReady);
    var done := p.(result := WordAt(mem, a), state := LsbDone);
    if e.state == LsbDone || e.state == LsbIdle then t == e
    else if e.state == Accessing then t == if e.rem == 1 then done.(rem := 0) else e.(rem := e.rem - 1)
    else if e.state == Waiting && e.j.q != -1 then t == e
    else if Conflicts(es, a, i) then t == p
    else if exists s: nat :: Youngest(es, a, i, s) then exists s: nat :: Youngest(es, a, i, s) && t == p.(result := es[s].k.v, state := LsbDone)
    else if latency <= 1 then t == done
    else if latency == 2 then t == done.(rem := 0)
    else t == p.(rem := latency - 2, state := Accessing)
  }

  lemma StartedLoad(c: Config, es: seq<LsbEntry>, mem: seq<Word>, i: nat)
    requires i < |es| && (es[i].op == LW || es[i].op == FLW)
    requires es[i].state == AddrReady || (es[i].state == Waiting && es[i].j.q == -1)
    ensures var p, s := es[i].(addr := Place(es[i]), state := AddrReady), StartLoad(c, Resolved(es), mem, i);
            var done := p.(result := WordAt(mem, p.addr), state := LsbDone);
            match ScanStores(Resolved(es), p.addr, i)
            case Blocked => s == p
            case Forward(n) => s == p.(result := es[n].k.v, state := LsbDone)
            case Clear => s == if LatencyOf(c, p.op) <= 1 then done else p.(rem := LatencyOf(c, p.op) - 1, state := Accessing)
  {
    var a := Place(es[i]);
    ResolvedLoad(es[i]);
    ScanResolved(es, a, i);
    var r := ScanStores(Resolved(es), a, i);
    if r.Forward? {
      ResolvedStore(es[r.from]);
    }
    hide ScanStores, LatencyOf, Address, CloseStore, Conflicts, Youngest, NoneOlder, Closed;
  }

  lemma NotWaitingLoad(c: Config, es: seq<LsbEntry>, mem: seq<Word>, i: nat)
    requires i < |es| && (es[i].op == LW || es[i].op == FLW)
    requires !(es[i].state == AddrReady || (es[i].state == Waiting && es[i].j.q == -1))
    ensures StartLoad(c, Resolved(es), mem, i) == es[i]
  {
    hide ScanStores, LatencyOf;
  }

  /** The four passes of a tick, in which each pass sees what the ones before have left,
      in closed form for every load. */
  lemma LoadTick(c: Config, es: seq<LsbEntry>, mem: seq<Word>, i: nat)
    requires i < |es| && (es[i].op == LW || es[i].op == FLW)
    ensures LoadTicked(LatencyOf(c, es[i].op), es, mem, i, LsbTick(c, es, mem)[i])
  {
    hide ScanStores, LatencyOf, Resolved, StartLoad, Conflicts, Youngest, NoneOlder;
    if es[i].state == AddrReady || (es[i].state == Waiting && es[i].j.q == -1) {
      var a := Place(es[i]);
      StartedLoad(c, es, mem, i);
      ScanResolved(es, a, i);
      OlderCases(es, a, i);
    } else {
      NotWaitingLoad(c, es, mem, i);
    }
  }

  /** An older matching store rules out that there is none. */
  lemma OlderCases(es: seq<LsbEntry>, a: Word, i: nat)
    requires i <= |es|
    ensures NoneOlder(es, a, i) ==> forall s: nat :: !Youngest(es, a, i, s)
  {
  }

  /** A store is finished in the tick in which its address and its data are both there,
      and only then. */
  lemma StoreTick(c: Config, es: seq<LsbEntry>, mem: seq<Word>, i: nat)
    requires i < |es| && (es[i].op == SW || es[i].op == FSW) && es[i].state != Accessing
    ensures var e, t := es[i], LsbTick(c, es, mem)[i];
            t == if e.state == Waiting && e.j.q != -1 then e
                 else if e.state == Waiting || e.state == AddrReady
                 then e.(addr := Place(e), state := if e.k.q == -1 then LsbDone else AddrReady)
                 else e
  {
    SignedSum(es[i].j.v, es[i].imm);
    hide ScanStores, LatencyOf;
  }
}
