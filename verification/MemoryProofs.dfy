/** Memory disambiguation: every load gets the data of the youngest older store to
    its address, whether forwarded from the buffer or read from memory. */
module MemoryProofs {
  import opened Words
  import opened Instructions
  import opened ArchState
  import opened Buffers
  import opened Isa
  import opened Invariants

  // ----- What the alias scan finds -----

  /** Every buffered store strictly between s and n has a known address other than a. */
  ghost predicate ClearBetween(es: seq<LsbEntry>, s: int, n: nat, a: Word)
    requires -1 <= s && n <= |es|
  {
    forall j :: s < j < n && IsStore(es[j].op) ==> es[j].state != Waiting && es[j].addr != a
  }

  lemma {:induction false} ScanFinds(es: seq<LsbEntry>, a: Word, n: nat)
    requires n <= |es|
    ensures ScanStores(es, a, n).Clear? ==> ClearBelow(es, n, a)
    ensures ScanStores(es, a, n).Forward? ==>
              var s := ScanStores(es, a, n).from;
              DoneStore(es[s]) && es[s].addr == a && ClearBetween(es, s, n, a)
  {
    if n > 0 {
      ScanFinds(es, a, n - 1);
    }
  }

  // ----- The value a load must get -----

  lemma LoadResIs(x: Trace, n: nat)
    requires IsTrace(x) && IsLoad(At(x, n).op)
    ensures Res(x, n) == ReadMem(T(x, n).mem, Addr(x, n))
  {
    ResIs(x, n);
    AddrIs(x, n);
  }

  /** A buffered store with another known address does not hit the load's word. */
  lemma StoreMisses(x: Trace, k: nat, rob: seq<RobEntry>, bus: seq<BusResult>, e: LsbEntry, n: nat)
    requires Sound(x) && Live(x, n)
    requires LsbEntryOk(x, k, rob, e) && IsStore(e.op) && e.state != Waiting
    requires e.tag < n && IsLoad(At(x, n).op)
    ensures e.addr == Addr(x, n) <==> Hits(x, e.tag, Addr(x, n))
  {
    LiveBefore(x, e.tag, n);
    assert AliasAgrees(x, e.tag, n);
  }

  lemma TagOrder(es: seq<LsbEntry>, i: nat, j: nat)
    requires Ordered(es) && i < |es| && j < |es|
    ensures i < j <==> es[i].tag < es[j].tag
  {
  }

  /** Stores older than a load are buffered before it. */
  lemma StoreBefore(x: Trace, k: nat, rob: seq<RobEntry>, bus: seq<BusResult>, es: seq<LsbEntry>, i: nat, s: nat)
      returns (j: nat)
    requires LsbOk(x, k, rob, bus, es) && i < |es|
    requires k <= s < es[i].tag && IsStore(At(x, s).op)
    ensures j < i && es[j].tag == s && IsStore(es[j].op)
  {
    assert LsbEntryOk(x, k, rob, es[i]);
    assert Buffered(es, s);
    j :| 0 <= j < |es| && es[j].tag == s;
    assert LsbEntryOk(x, k, rob, es[j]);
    TagOrder(es, j, i);
  }

  /** From instruction a on, no store before the load hits the load's word. */
  lemma NoHitAfter(x: Trace, k: nat, rob: seq<RobEntry>, bus: seq<BusResult>, es: seq<LsbEntry>, i: nat, s: int)
    requires Sound(x) && LsbOk(x, k, rob, bus, es)
    requires i < |es| && IsLoad(es[i].op) && Live(x, es[i].tag)
    requires -1 <= s < i && ClearBetween(es, s, i, Addr(x, es[i].tag))
    ensures LsbEntryOk(x, k, rob, es[i])
    ensures Unhit(x, if s < 0 then k else es[s].tag + 1, es[i].tag, Addr(x, es[i].tag))
  {
    assert LsbEntryOk(x, k, rob, es[i]);
    var n := es[i].tag;
    var from := if s < 0 then k else es[s].tag + 1;
    if s >= 0 {
      assert LsbEntryOk(x, k, rob, es[s]);
    }
    forall t: nat | from <= t < n
      ensures !Hits(x, t, Addr(x, n))
    {
      if IsStore(At(x, t).op) {
        var j := StoreBefore(x, k, rob, bus, es, i, t);
        if s >= 0 {
          TagOrder(es, j, s);
        }
        StoreMisses(x, k, rob, bus, es[j], n);
      }
    }
  }

  /** With no conflicting store in the buffer, memory holds the value to load. */
  lemma ClearLoadValue(x: Trace, k: nat, rob: seq<RobEntry>, bus: seq<BusResult>, es: seq<LsbEntry>, i: nat)
    requires Sound(x) && LsbOk(x, k, rob, bus, es)
    requires i < |es| && IsLoad(es[i].op) && es[i].state != Waiting && Live(x, es[i].tag)
    requires ClearBelow(es, i, es[i].addr)
    ensures ReadMem(T(x, k).mem, es[i].addr) == Res(x, es[i].tag)
  {
    assert LsbEntryOk(x, k, rob, es[i]);
    NoHitAfter(x, k, rob, bus, es, i, -1);
    MemoryKept(x, k, es[i].tag, es[i].addr);
    LoadResIs(x, es[i].tag);
  }

  /** The store the scan chose holds the value to load. */
  lemma ForwardedValue(x: Trace, k: nat, rob: seq<RobEntry>, bus: seq<BusResult>, es: seq<LsbEntry>, i: nat, s: nat)
    requires Sound(x) && LsbOk(x, k, rob, bus, es)
    requires s < i < |es| && IsLoad(es[i].op) && es[i].state != Waiting && Live(x, es[i].tag)
    requires DoneStore(es[s]) && es[s].addr == es[i].addr && ClearBetween(es, s, i, es[i].addr)
    ensures es[s].k.v == Res(x, es[i].tag)
  {
    assert LsbEntryOk(x, k, rob, es[i]) && LsbEntryOk(x, k, rob, es[s]);
    assert es[s].tag < es[i].tag;
    NoHitAfter(x, k, rob, bus, es, i, s);
    StoreMisses(x, k, rob, bus, es[s], es[i].tag);
    LiveBefore(x, es[s].tag, es[i].tag);
    LastStore(x, es[s].tag, es[i].tag, es[i].addr);
    LoadResIs(x, es[i].tag);
  }

  // ----- Passes 1 and 2 -----

  lemma ResolvedAddress(x: Trace, k: nat, rob: seq<RobEntry>, bus: seq<BusResult>, e: LsbEntry)
    requires WellFormed(x) && LsbEntryOk(x, k, rob, e) && OperandsOk(x, k, rob, bus, e.tag, e.j, e.k)
    requires e.j.q == -1 && Live(x, e.tag)
    ensures EffAddr(e.j.v, e.imm) == Addr(x, e.tag)
  {
    SignedSum(e.j.v, e.imm);
    AddrIs(x, e.tag);
    AtDecodable(x, e.tag);
    OperandValues(x, k, rob, bus, e.tag, e.j, e.k);
  }

  lemma AddressOk(x: Trace, k: nat, rob: seq<RobEntry>, bus: seq<BusResult>, e: LsbEntry)
    requires WellFormed(x) && LsbEntryOk(x, k, rob, e) && OperandsOk(x, k, rob, bus, e.tag, e.j, e.k)
    ensures LsbEntryOk(x, k, rob, Address(e))
  {
    if e.state == Waiting && e.j.q == -1 && Live(x, e.tag) {
      ResolvedAddress(x, k, rob, bus, e);
    }
  }

  lemma CloseStoreOk(x: Trace, k: nat, rob: seq<RobEntry>, e: LsbEntry)
    requires LsbEntryOk(x, k, rob, e)
    ensures LsbEntryOk(x, k, rob, CloseStore(e))
  {
  }

  /** What resolving changes in an entry. */
  lemma ResolvedFields(e: LsbEntry)
    ensures var r := CloseStore(Address(e));
            && r.tag == e.tag && r.j == e.j && r.k == e.k && r.op == e.op
            && (r.state == Accessing <==> e.state == Accessing)
            && (e.state != Waiting ==> r.state != Waiting && r.addr == e.addr)
  {
  }

  lemma ResolvedOk(x: Trace, k: nat, rob: seq<RobEntry>, bus: seq<BusResult>, es: seq<LsbEntry>)
    requires WellFormed(x) && LsbOk(x, k, rob, bus, es)
    ensures LsbOk(x, k, rob, bus, Resolved(es))
  {
    var t := Resolved(es);
    forall i | 0 <= i < |t|
      ensures LsbEntryOk(x, k, rob, t[i])
      ensures OperandsOk(x, k, rob, bus, t[i].tag, t[i].j, t[i].k)
    {
      AddressOk(x, k, rob, bus, es[i]);
      CloseStoreOk(x, k, rob, Address(es[i]));
      ResolvedFields(es[i]);
    }
    forall i | 0 <= i < |t|
      ensures t[i].tag == es[i].tag && t[i].op == es[i].op
      ensures t[i].state == Accessing <==> es[i].state == Accessing
      ensures es[i].state != Waiting ==> t[i].state != Waiting && t[i].addr == es[i].addr
    {
      ResolvedFields(es[i]);
    }
    SameTags(x, k, k + |rob|, es, t);
    AccessStaysClear(es, t);
  }

  /** Running accesses stay clear when known addresses and store opcodes are kept. */
  lemma AccessStaysClear(es: seq<LsbEntry>, t: seq<LsbEntry>)
    requires |t| == |es|
    requires forall i :: 0 <= i < |es| ==> t[i].op == es[i].op && (t[i].state == Accessing ==> es[i].state == Accessing)
    requires forall i :: 0 <= i < |es| ==> es[i].state != Waiting ==> t[i].state != Waiting && t[i].addr == es[i].addr
    requires forall i :: 0 <= i < |es| && es[i].state == Accessing ==> ClearBelow(es, i, es[i].addr)
    ensures forall i :: 0 <= i < |t| && t[i].state == Accessing ==> ClearBelow(t, i, t[i].addr)
  {
  }

  lemma SameTags(x: Trace, k: nat, end: nat, es: seq<LsbEntry>, t: seq<LsbEntry>)
    requires |t| == |es| && forall i :: 0 <= i < |es| ==> t[i].tag == es[i].tag
    ensures Ordered(es) ==> Ordered(t)
    ensures forall n :: Buffered(es, n) ==> Buffered(t, n)
    ensures StoresBuffered(x, k, end, es) ==> StoresBuffered(x, k, end, t)
  {
    forall n | Buffered(es, n)
      ensures Buffered(t, n)
    {
      var i :| 0 <= i < |es| && es[i].tag == n;
      assert t[i].tag == n;
    }
  }

  // ----- Passes 3 and 4 -----

  /** The value a load is given when it starts, if it finishes at once. */
  lemma StartedValue(c: Config, x: Trace, k: nat, rob: seq<RobEntry>, bus: seq<BusResult>, es: seq<LsbEntry>, i: nat)
    requires Sound(x) && LsbOk(x, k, rob, bus, es) && i < |es|
    requires es[i].state == AddrReady && IsLoad(es[i].op)
    ensures var s := StartLoad(c, es, T(x, k).mem, i);
            && (s.state == LsbDone && Live(x, s.tag) ==> s.result == Res(x, s.tag))
            && (s.state == Accessing ==> ClearBelow(es, i, es[i].addr))
  {
    var e := es[i];
    ScanFinds(es, e.addr, i);
    if Live(x, e.tag) {
      match ScanStores(es, e.addr, i)
      case Blocked =>
      case Clear => ClearLoadValue(x, k, rob, bus, es, i);
      case Forward(s) => ForwardedValue(x, k, rob, bus, es, i, s);
    }
  }

  /** What starting a load may change in its entry. */
  lemma StartedFields(c: Config, es: seq<LsbEntry>, mem: seq<Word>, i: nat)
    requires i < |es|
    ensures var e, s := es[i], StartLoad(c, es, mem, i);
            && s == e.(state := s.state, rem := s.rem, result := s.result)
            && (s != e ==> e.state == AddrReady && IsLoad(e.op) && (s.state == LsbDone || (s.state == Accessing && s.rem >= 1)))
  {
  }

  lemma StartedEntryOk(c: Config, x: Trace, k: nat, rob: seq<RobEntry>, bus: seq<BusResult>, es: seq<LsbEntry>, i: nat)
    requires Sound(x) && LsbOk(x, k, rob, bus, es) && i < |es|
    ensures LsbEntryOk(x, k, rob, StartLoad(c, es, T(x, k).mem, i))
    ensures StartLoad(c, es, T(x, k).mem, i).state == Accessing ==> ClearBelow(es, i, es[i].addr)
  {
    var e := es[i];
    assert LsbEntryOk(x, k, rob, e);
    StartedFields(c, es, T(x, k).mem, i);
    if e.state == AddrReady && IsLoad(e.op) {
      StartedValue(c, x, k, rob, bus, es, i);
      StartedStatusOk(x, k, rob, e, StartLoad(c, es, T(x, k).mem, i));
    }
  }

  lemma StartedStatusOk(x: Trace, k: nat, rob: seq<RobEntry>, e: LsbEntry, s: LsbEntry)
    requires LsbEntryOk(x, k, rob, e)
    requires s == e.(state := s.state, rem := s.rem, result := s.result)
    requires s != e ==> e.state == AddrReady && IsLoad(e.op) && (s.state == LsbDone || (s.state == Accessing && s.rem >= 1))
    requires s.state == LsbDone && IsLoad(s.op) && Live(x, s.tag) ==> s.result == Res(x, s.tag)
    ensures LsbEntryOk(x, k, rob, s)
  {
  }

  lemma AccessedEntryOk(c: Config, x: Trace, k: nat, rob: seq<RobEntry>, bus: seq<BusResult>, es: seq<LsbEntry>, i: nat)
    requires Sound(x) && LsbOk(x, k, rob, bus, es) && i < |es|
    ensures LsbEntryOk(x, k, rob, Access(StartLoad(c, es, T(x, k).mem, i), T(x, k).mem))
    ensures Access(StartLoad(c, es, T(x, k).mem, i), T(x, k).mem).state == Accessing ==> ClearBelow(es, i, es[i].addr)
  {
    var e := es[i];
    var s := StartLoad(c, es, T(x, k).mem, i);
    StartedFields(c, es, T(x, k).mem, i);
    StartedEntryOk(c, x, k, rob, bus, es, i);
    assert LsbEntryOk(x, k, rob, e);
    if s.state == Accessing && Live(x, e.tag) {
      ClearLoadValue(x, k, rob, bus, es, i);
    }
  }

  /** What a tick after resolution may change in an entry. */
  lemma AccessedFields(c: Config, es: seq<LsbEntry>, mem: seq<Word>, i: nat)
    requires i < |es|
    ensures var e, s := es[i], Access(StartLoad(c, es, mem, i), mem);
            && s == e.(state := s.state, rem := s.rem, result := s.result)
            && (e.state == Accessing || IsLoad(e.op) || s == e)
            && (s.state == Waiting <==> e.state == Waiting)
  {
    StartedFields(c, es, mem, i);
  }

  lemma LsbTickOk(c: Config, x: Trace, k: nat, rob: seq<RobEntry>, bus: seq<BusResult>, es: seq<LsbEntry>)
    requires Sound(x) && LsbOk(x, k, rob, bus, es)
    ensures LsbOk(x, k, rob, bus, LsbTick(c, es, T(x, k).mem))
    ensures forall n :: Buffered(es, n) ==> Buffered(LsbTick(c, es, T(x, k).mem), n)
  {
    ResolvedOk(x, k, rob, bus, es);
    AccessOk(c, x, k, rob, bus, Resolved(es), LsbTick(c, es, T(x, k).mem));
    forall i | 0 <= i < |es|
      ensures LsbTick(c, es, T(x, k).mem)[i].tag == es[i].tag
    {
      ResolvedFields(es[i]);
      AccessedFields(c, Resolved(es), T(x, k).mem, i);
    }
    SameTags(x, k, k + |rob|, es, LsbTick(c, es, T(x, k).mem));
  }

  lemma AccessOk(c: Config, x: Trace, k: nat, rob: seq<RobEntry>, bus: seq<BusResult>, r: seq<LsbEntry>, t: seq<LsbEntry>)
    requires Sound(x) && LsbOk(x, k, rob, bus, r) && |t| == |r|
    requires forall i :: 0 <= i < |r| ==> t[i] == Access(StartLoad(c, r, T(x, k).mem, i), T(x, k).mem)
    ensures LsbOk(x, k, rob, bus, t)
  {
    forall i | 0 <= i < |t|
      ensures LsbEntryOk(x, k, rob, t[i])
      ensures t[i].state == Accessing ==> ClearBelow(r, i, r[i].addr)
    {
      AccessedEntryOk(c, x, k, rob, bus, r, i);
    }
    forall i | 0 <= i < |t|
      ensures t[i].addr == r[i].addr && t[i].tag == r[i].tag && t[i].op == r[i].op
      ensures t[i].j == r[i].j && t[i].k == r[i].k
      ensures t[i].state == Waiting <==> r[i].state == Waiting
    {
      AccessedFields(c, r, T(x, k).mem, i);
    }
    SameTags(x, k, k + |rob|, r, t);
    KnownStaysClear(r, t);
  }

  lemma KnownStaysClear(r: seq<LsbEntry>, t: seq<LsbEntry>)
    requires |t| == |r|
    requires forall i :: 0 <= i < |t| ==> t[i].addr == r[i].addr && t[i].op == r[i].op
    requires forall i :: 0 <= i < |t| ==> (t[i].state == Waiting <==> r[i].state == Waiting)
    requires forall i :: 0 <= i < |t| && t[i].state == Accessing ==> ClearBelow(r, i, r[i].addr)
    ensures forall i :: 0 <= i < |t| && t[i].state == Accessing ==> ClearBelow(t, i, t[i].addr)
  {
  }
}
