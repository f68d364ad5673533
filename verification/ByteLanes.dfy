/** The byte-enabled data memory and the byte lanes of the load/store path, against a
    little-endian byte-addressed memory (section 2.6 of the RISC-V Unprivileged ISA). */
module ByteLanes {
  import opened Words

  type Byte = b: int | 0 <= b < 256

  datatype StoreOp = SB | SH | SW
  datatype LoadOp = LB | LBU | LH | LHU | LW

  function Lane(w: Word, i: nat): Byte
    requires i < 4
  {
    if i == 0 then w % 256
    else if i == 1 then w / 256 % 256
    else if i == 2 then w / 256 / 256 % 256
    else w / 256 / 256 / 256 % 256
  }

  function FromLanes(b0: Byte, b1: Byte, b2: Byte, b3: Byte): (w: Word)
    ensures Lane(w, 0) == b0 && Lane(w, 1) == b1 && Lane(w, 2) == b2 && Lane(w, 3) == b3
  {
    var t2 := b2 + 256 * (b3 as int);
    var t1 := b1 + 256 * t2;
    var w := b0 + 256 * t1;
    assert w / 256 == t1 && w % 256 == b0;
    assert t1 / 256 == t2 && t1 % 256 == b1;
    assert t2 / 256 == b3 && t2 % 256 == b2;
    w
  }

  lemma LanesUnique(w: Word)
    ensures w == FromLanes(Lane(w, 0), Lane(w, 1), Lane(w, 2), Lane(w, 3))
    ensures w % 0x1_0000 == Halfword(Lane(w, 0), Lane(w, 1)) && w / 0x1_0000 == Halfword(Lane(w, 2), Lane(w, 3))
  {
    var q1 := w / 256;
    var q2 := q1 / 256;
    assert w == 256 * q1 + w % 256 && q1 == 256 * q2 + q1 % 256 && q2 == 256 * (q2 / 256) + q2 % 256;
    assert q2 / 256 < 256;
    QuotientUnique(w, 0x1_0000, q2, w % 256 + 256 * (q1 % 256));
  }

  /** Two bytes, little endian. */
  function Halfword(lo: Byte, hi: Byte): (h: nat)
    ensures h < 0x1_0000
  {
    lo + 256 * (hi as int)
  }

  // ----- The hardware: enables, lane replication, extraction -----

  /** Which byte lanes a store writes. */
  function Enabled(op: StoreOp, addr: Word, lane: nat): bool
    requires lane < 4
  {
    match op
    case SB => lane == addr % 4
    case SH => if addr / 2 % 2 == 1 then lane >= 2 else lane < 2
    case SW => true
  }

  /** The store data copied into every lane it may be written to. */
  function Replicated(op: StoreOp, v: Word): Word {
    match op
    case SB => FromLanes(v % 256, v % 256, v % 256, v % 256)
    case SH => FromLanes(v % 256, v / 256 % 256, v % 256, v / 256 % 256)
    case SW => v
  }

  function SignExtend8(b: Byte): Word { if b >= 128 then b + 0xFFFF_FF00 else b }

  function SignExtend16(h: nat): Word
    requires h < 0x1_0000
  {
    if h >= 0x8000 then h + 0xFFFF_0000 else h
  }

  /** What a load takes out of the word read, given the low address bits. */
  function Extracted(op: LoadOp, sel: nat, w: Word): Word
    requires sel < 4
  {
    match op
    case LB => SignExtend8(Lane(w, sel))
    case LBU => Lane(w, sel)
    case LH => SignExtend16(if sel / 2 == 1 then w / 0x1_0000 else w % 0x1_0000)
    case LHU => if sel / 2 == 1 then w / 0x1_0000 else w % 0x1_0000
    case LW => w
  }

  /** The word an address selects: address bits above the memory's size are ignored. */
  function WordIndex(addr: Word, words: nat): (i: nat)
    requires words > 0
    ensures i < words
  {
    addr / 4 % words
  }

  function WriteLanes(w: Word, op: StoreOp, addr: Word, data: Word): (r: Word)
    ensures forall i :: 0 <= i < 4 ==> Lane(r, i) == if Enabled(op, addr, i) then Lane(data, i) else Lane(w, i)
  {
    FromLanes(
      if Enabled(op, addr, 0) then Lane(data, 0) else Lane(w, 0), if Enabled(op, addr, 1) then Lane(data, 1) else Lane(w, 1),
      if Enabled(op, addr, 2) then Lane(data, 2) else Lane(w, 2), if Enabled(op, addr, 3) then Lane(data, 3) else Lane(w, 3))
  }

  function StoreWord(mem: seq<Word>, op: StoreOp, addr: Word, v: Word): (m: seq<Word>)
    requires |mem| > 0
    ensures |m| == |mem|
  {
    var i := WordIndex(addr, |mem|);
    mem[i := WriteLanes(mem[i], op, addr, Replicated(op, v))]
  }

  function LoadWord(mem: seq<Word>, op: LoadOp, addr: Word): Word
    requires |mem| > 0
  {
    Extracted(op, addr % 4, mem[WordIndex(addr, |mem|)])
  }

  /** The memory array with its byte enables and its registered read port. */
  class DataMemory {
    const mem: array<Word>
    var rdData: Word

    constructor (words: nat)
      requires words > 0
      ensures mem.Length == words && fresh(mem) && mem[..] == seq(words, i => 0)
    {
      mem := new Word[words](i => 0);
      rdData := 0;
    }

    /** One clock: the write takes effect at the edge, the read port sees the old word. */
    method Clock(wrEn: bool, op: StoreOp, wrAddr: Word, value: Word, rdAddr: Word)
      requires mem.Length > 0
      modifies this, mem
      ensures mem[..] == if wrEn then StoreWord(old(mem[..]), op, wrAddr, value) else old(mem[..])
      ensures rdData == old(mem[..])[WordIndex(rdAddr, mem.Length)]
    {
      hide Enabled, Replicated, Lane, FromLanes;
      var before := mem[WordIndex(rdAddr, mem.Length)];
      if wrEn {
        var i := WordIndex(wrAddr, mem.Length);
        var data := Replicated(op, value);
        for lane := 0 to 4
          invariant forall k :: 0 <= k < mem.Length && k != i ==> mem[k] == old(mem[k])
          invariant forall j :: 0 <= j < 4 ==>
                      Lane(mem[i], j) == if j < lane && Enabled(op, wrAddr, j) then Lane(data, j) else Lane(old(mem[i]), j)
        {
          if Enabled(op, wrAddr, lane) {
            mem[i] := PutLane(mem[i], lane, Lane(data, lane));
          }
        }
        SameLanes(mem[i], WriteLanes(old(mem[i]), op, wrAddr, data));
      }
      rdData := before;
    }
  }

  function PutLane(w: Word, lane: nat, b: Byte): (r: Word)
    requires lane < 4
    ensures forall j :: 0 <= j < 4 ==> Lane(r, j) == if j == lane then b else Lane(w, j)
  {
    FromLanes(if lane == 0 then b else Lane(w, 0), if lane == 1 then b else Lane(w, 1),
              if lane == 2 then b else Lane(w, 2), if lane == 3 then b else Lane(w, 3))
  }

  lemma SameLanes(x: Word, y: Word)
    requires forall j :: 0 <= j < 4 ==> Lane(x, j) == Lane(y, j)
    ensures x == y
  {
    LanesUnique(x);
    LanesUnique(y);
    assert Lane(x, 0) == Lane(y, 0) && Lane(x, 1) == Lane(y, 1) && Lane(x, 2) == Lane(y, 2) && Lane(x, 3) == Lane(y, 3);
    hide Lane, FromLanes;
  }

  // ----- The reference: bytes, little endian -----

  ghost function Bytes(mem: seq<Word>): (b: seq<Byte>)
    ensures |b| == 4 * |mem|
  {
    seq(4 * |mem|, i requires 0 <= i < 4 * |mem| => Lane(mem[i / 4], i % 4))
  }

  function StoreSize(op: StoreOp): (n: nat)
    ensures n == 1 || n == 2 || n == 4
  {
    match op case SB => 1 case SH => 2 case SW => 4
  }

  function LoadSize(op: LoadOp): (n: nat)
    ensures n == 1 || n == 2 || n == 4
  {
    match op case LB | LBU => 1 case LH | LHU => 2 case LW => 4
  }

  /** Where an access of n bytes starts: rounded down to its size, modulo the memory. */
  function Start(addr: Word, n: nat, bytes: nat): (s: nat)
    requires bytes > 0 && n > 0
  {
    addr / n * n % bytes
  }

  /** Byte memories hold a whole number of words. */
  ghost predicate WholeWords(b: seq<Byte>) { |b| > 0 && |b| % 4 == 0 }

  ghost function StoredByte(b: seq<Byte>, s: nat, n: nat, v: Word, i: nat): Byte
    requires i < |b| && n <= 4
  {
    if s <= i < s + n then Lane(v, i - s) else b[i]
  }

  ghost function StoreBytes(b: seq<Byte>, op: StoreOp, addr: Word, v: Word): (r: seq<Byte>)
    requires |b| > 0
    ensures |r| == |b|
  {
    var s, n := Start(addr, StoreSize(op), |b|), StoreSize(op);
    seq(|b|, i requires 0 <= i < |b| => StoredByte(b, s, n, v, i))
  }

  ghost function LoadedBytes(b: seq<Byte>, op: LoadOp, addr: Word): Word
    requires WholeWords(b)
  {
    StartIs(addr, LoadSize(op), |b| / 4);
    var s := Start(addr, LoadSize(op), |b|);
    match op
    case LB => SignExtend8(b[s])
    case LBU => b[s]
    case LH => SignExtend16(Halfword(b[s], b[s + 1]))
    case LHU => Halfword(b[s], b[s + 1])
    case LW => FromLanes(b[s], b[s + 1], b[s + 2], b[s + 3])
  }

  /** Position of an access inside the word it falls into. */
  lemma StartIs(addr: Word, n: nat, words: nat)
    requires words > 0 && (n == 1 || n == 2 || n == 4)
    ensures Start(addr, n, 4 * words) == 4 * WordIndex(addr, words) + addr % 4 / n * n
    ensures addr % 4 / n * n + n <= 4
  {
    RoundedDown(addr, n);
    StartFrom(addr / n * n, addr / 4, words, addr % 4 / n * n);
  }

  lemma DivideAgain(a: nat, words: nat)
    requires words > 0
    ensures a == a / words * words + a % words
  {
  }

  lemma RoundedDown(addr: Word, n: nat)
    requires n == 1 || n == 2 || n == 4
    ensures addr / n * n == 4 * (addr / 4) + addr % 4 / n * n
    ensures addr % 4 / n * n + n <= 4
  {
  }

  lemma StartFrom(a: nat, k: nat, words: nat, low: nat)
    requires words > 0 && low < 4 && a == 4 * k + low
    ensures a % (4 * words) == 4 * (k % words) + low
  {
    var q, i := k / words, k % words;
    DivideAgain(k, words);
    assert 4 * (q * words) == q * (4 * words);
    QuotientUnique(a, 4 * words, q, 4 * i + low);
  }

  /** Storing through the lanes is storing the bytes, for every address. */
  lemma StoreIsBytewise(mem: seq<Word>, op: StoreOp, addr: Word, v: Word)
    requires |mem| > 0
    ensures Bytes(StoreWord(mem, op, addr, v)) == StoreBytes(Bytes(mem), op, addr, v)
  {
    var k, n, after := WordIndex(addr, |mem|), StoreSize(op), StoreWord(mem, op, addr, v);
    StartIs(addr, n, |mem|);
    forall i | 0 <= i < 4 * |mem|
      ensures Bytes(after)[i] == StoredByte(Bytes(mem), 4 * k + addr % 4 / n * n, n, v, i)
    {
      ByteWritten(mem, op, addr, v, i);
    }
    hide StoredByte, Start, WordIndex, Lane;
    assert Bytes(after) == StoreBytes(Bytes(mem), op, addr, v);
  }

  lemma ByteWritten(mem: seq<Word>, op: StoreOp, addr: Word, v: Word, i: nat)
    requires |mem| > 0 && i < 4 * |mem|
    ensures var n := StoreSize(op);
            Bytes(StoreWord(mem, op, addr, v))[i] ==
            StoredByte(Bytes(mem), 4 * WordIndex(addr, |mem|) + addr % 4 / n * n, n, v, i)
  {
    hide Lane, WordIndex, WriteLanes, Replicated;
    RoundedDown(addr, StoreSize(op));
    if i / 4 == WordIndex(addr, |mem|) {
      LaneWritten(mem[i / 4], op, addr, v, i % 4);
    }
  }

  lemma LaneWritten(w: Word, op: StoreOp, addr: Word, v: Word, lane: nat)
    requires lane < 4
    ensures var low := addr % 4 / StoreSize(op) * StoreSize(op);
            Lane(WriteLanes(w, op, addr, Replicated(op, v)), lane) ==
            if low <= lane < low + StoreSize(op) then Lane(v, lane - low) else Lane(w, lane)
  {
    hide Lane, Replicated, Enabled, WriteLanes;
    EnabledIs(op, addr, lane);
    ReplicatedIs(op, v, lane);
    LanePosition(StoreSize(op), addr % 4, lane);
  }

  lemma LanePosition(n: nat, sel: nat, lane: nat)
    requires (n == 1 || n == 2 || n == 4) && sel < 4 && lane < 4
    ensures sel / n * n <= lane < sel / n * n + n ==> lane % n == lane - sel / n * n
  {
  }

  /** The enabled lanes are the bytes of the access. */
  lemma EnabledIs(op: StoreOp, addr: Word, lane: nat)
    requires lane < 4
    ensures var low := addr % 4 / StoreSize(op) * StoreSize(op); Enabled(op, addr, lane) <==> low <= lane < low + StoreSize(op)
  {
    assert addr / 2 % 2 == addr % 4 / 2;
  }

  /** Every lane a store may write carries the byte that belongs there. */
  lemma ReplicatedIs(op: StoreOp, v: Word, lane: nat)
    requires lane < 4
    ensures Lane(Replicated(op, v), lane) == Lane(v, lane % StoreSize(op))
  {
  }

  /** Loading through the lanes is loading the bytes, for every address. */
  lemma LoadIsBytewise(mem: seq<Word>, op: LoadOp, addr: Word)
    requires |mem| > 0
    ensures LoadWord(mem, op, addr) == LoadedBytes(Bytes(mem), op, addr)
  {
    hide Lane, FromLanes, Halfword, Start, WordIndex, Bytes, SignExtend8, SignExtend16;
    var k, n := WordIndex(addr, |mem|), LoadSize(op);
    StartIs(addr, n, |mem|);
    BytesOfWord(mem, k);
    ExtractedLanes(op, addr % 4, mem[k], addr % 4 / n * n);
  }

  lemma BytesOfWord(mem: seq<Word>, k: nat)
    requires k < |mem|
    ensures forall j :: 4 * k <= j < 4 * k + 4 ==> Bytes(mem)[j] == Lane(mem[k], j - 4 * k)
  {
    forall j | 4 * k <= j < 4 * k + 4
      ensures Bytes(mem)[j] == Lane(mem[k], j - 4 * k)
    {
      assert j / 4 == k && j % 4 == j - 4 * k;
    }
  }

  /** What a load extracts, lane by lane. */
  lemma ExtractedLanes(op: LoadOp, sel: nat, w: Word, low: nat)
    requires sel < 4 && low == sel / LoadSize(op) * LoadSize(op)
    ensures low + LoadSize(op) <= 4
    ensures Extracted(op, sel, w) ==
            match op
            case LB => SignExtend8(Lane(w, low))
            case LBU => Lane(w, low)
            case LH => SignExtend16(Halfword(Lane(w, low), Lane(w, low + 1)))
            case LHU => Halfword(Lane(w, low), Lane(w, low + 1))
            case LW => FromLanes(Lane(w, 0), Lane(w, 1), Lane(w, 2), Lane(w, 3))
  {
    LanesUnique(w);
    hide Lane, FromLanes, Halfword, SignExtend8, SignExtend16;
  }

  // ----- The same accesses as arithmetic on words -----

  /** The weight of byte k of a word. */
  function Weight(k: nat): (p: nat)
    requires k < 4
    ensures p > 0
  {
    if k == 0 then 1 else if k == 1 then 0x100 else if k == 2 then 0x1_0000 else 0x100_0000
  }

  lemma LaneIs(w: Word, k: nat)
    requires k < 4
    ensures Lane(w, k) == w / Weight(k) % 256
  {
  }

  /** A word is the weighted sum of its bytes. */
  lemma LaneSum(w: Word)
    ensures w == Lane(w, 0) + 0x100 * (Lane(w, 1) as int) + 0x1_0000 * (Lane(w, 2) as int) + 0x100_0000 * (Lane(w, 3) as int)
  {
  }

  /** What each load returns, read as a signed number where the load extends the sign:
      the addressed byte or halfword in two's complement, or its unsigned value, or the
      word; addresses are taken modulo the memory and rounded down to the size. */
  lemma LoadedNumber(mem: seq<Word>, addr: Word)
    requires |mem| > 0
    ensures var w := mem[addr / 4 % |mem|];
            var b, h := w / Weight(addr % 4) % 256, w / (if addr % 4 < 2 then 1 else 0x1_0000) % 0x1_0000;
            && LoadWord(mem, LBU, addr) == b
            && Signed(LoadWord(mem, LB, addr)) == (if b < 128 then b else b - 256)
            && LoadWord(mem, LHU, addr) == h
            && Signed(LoadWord(mem, LH, addr)) == (if h < 0x8000 then h else h - 0x1_0000)
            && LoadWord(mem, LW, addr) == w
  {
    var w := mem[WordIndex(addr, |mem|)];
    hide Lane;
    LaneIs(w, addr % 4);
  }

  /** The word a store leaves: the addressed byte or halfword replaced by the low bits of
      the value, everything else as it was. */
  lemma StoredNumber(mem: seq<Word>, addr: Word, v: Word)
    requires |mem| > 0
    ensures var i, p, q := addr / 4 % |mem|, Weight(addr % 4), if addr % 4 < 2 then 1 else 0x1_0000;
            var w := mem[i];
            && |StoreWord(mem, SB, addr, v)| == |StoreWord(mem, SH, addr, v)| == |mem|
            && StoreWord(mem, SB, addr, v)[i] == w + (v % 256 - w / p % 256) * p
            && StoreWord(mem, SH, addr, v)[i] == w + (v % 0x1_0000 - w / q % 0x1_0000) * q
            && StoreWord(mem, SW, addr, v) == mem[i := v]
            && forall j, op :: 0 <= j < |mem| && j != i ==> StoreWord(mem, op, addr, v)[j] == mem[j]
  {
    var i := WordIndex(addr, |mem|);
    ByteReplaced(mem[i], addr, v);
    HalfReplaced(mem[i], addr, v);
    WordReplaced(mem[i], addr, v);
    hide WriteLanes, Replicated, Weight;
  }

  lemma ByteReplaced(w: Word, addr: Word, v: Word)
    ensures var p := Weight(addr % 4); WriteLanes(w, SB, addr, Replicated(SB, v)) == w + (v % 256 - w / p % 256) * p
  {
    var r := WriteLanes(w, SB, addr, Replicated(SB, v));
    hide Lane, WriteLanes, FromLanes;
    LaneIs(w, addr % 4);
    LaneSum(w);
    LaneSum(r);
    assert Lane(Replicated(SB, v), 0) == Lane(Replicated(SB, v), 1) == Lane(Replicated(SB, v), 2) == Lane(Replicated(SB, v), 3) == v % 256;
    assert forall k :: 0 <= k < 4 ==> Lane(r, k) == if k == addr % 4 then v % 256 else Lane(w, k);
  }

  lemma HalfLanes(w: Word, addr: Word, v: Word, k: nat)
    requires k < 4
    ensures Lane(WriteLanes(w, SH, addr, Replicated(SH, v)), k) ==
            if (k >= 2) == (addr % 4 >= 2) then Lane(v, k % 2) else Lane(w, k)
  {
    assert addr / 2 % 2 == addr % 4 / 2;
    LaneIs(v, 0);
    LaneIs(v, 1);
    hide Lane, WriteLanes, FromLanes;
  }

  lemma HalfReplaced(w: Word, addr: Word, v: Word)
    ensures var q := if addr % 4 < 2 then 1 else 0x1_0000;
            WriteLanes(w, SH, addr, Replicated(SH, v)) == w + (v % 0x1_0000 - w / q % 0x1_0000) * q
  {
    var r := WriteLanes(w, SH, addr, Replicated(SH, v));
    hide Lane, WriteLanes, FromLanes, Replicated;
    LanesUnique(w);
    LanesUnique(v);
    LaneSum(w);
    LaneSum(r);
    HalfLanes(w, addr, v, 0);
    HalfLanes(w, addr, v, 1);
    HalfLanes(w, addr, v, 2);
    HalfLanes(w, addr, v, 3);
  }

  lemma WordReplaced(w: Word, addr: Word, v: Word)
    ensures WriteLanes(w, SW, addr, Replicated(SW, v)) == v
  {
    hide WriteLanes, Lane;
    SameLanes(WriteLanes(w, SW, addr, v), v);
  }

  // ----- Sequences of accesses -----

  datatype Access = Store(sop: StoreOp, addr: Word, value: Word) | Load(lop: LoadOp, addr: Word)

  function RunWords(mem: seq<Word>, trace: seq<Access>): (m: seq<Word>)
    requires |mem| > 0
    ensures |m| == |mem|
  {
    if trace == [] then mem
    else
      var before := RunWords(mem, trace[..|trace| - 1]);
      match trace[|trace| - 1]
      case Store(op, addr, v) => StoreWord(before, op, addr, v)
      case Load(_, _) => before
  }

  ghost function RunBytes(b: seq<Byte>, trace: seq<Access>): (r: seq<Byte>)
    requires WholeWords(b)
    ensures |r| == |b|
  {
    if trace == [] then b
    else
      var before := RunBytes(b, trace[..|trace| - 1]);
      match trace[|trace| - 1]
      case Store(op, addr, v) => StoreBytes(before, op, addr, v)
      case Load(_, _) => before
  }

  /** After any sequence of byte, halfword and word accesses the word memory holds what
      the byte-addressed memory holds, and every load returns the same value. */
  lemma {:induction false} LanesRefineBytes(mem: seq<Word>, trace: seq<Access>)
    requires |mem| > 0
    ensures Bytes(RunWords(mem, trace)) == RunBytes(Bytes(mem), trace)
    ensures forall op, addr :: LoadWord(RunWords(mem, trace), op, addr) == LoadedBytes(RunBytes(Bytes(mem), trace), op, addr)
    decreases |trace|
  {
    hide StoreWord, StoreBytes, LoadWord, LoadedBytes, Bytes;
    if trace != [] {
      var before := RunWords(mem, trace[..|trace| - 1]);
      LanesRefineBytes(mem, trace[..|trace| - 1]);
      match trace[|trace| - 1]
      case Store(op, addr, v) => StoreIsBytewise(before, op, addr, v);
      case Load(_, _) =>
    }
    forall op, addr
      ensures LoadWord(RunWords(mem, trace), op, addr) == LoadedBytes(RunBytes(Bytes(mem), trace), op, addr)
    {
      LoadIsBytewise(RunWords(mem, trace), op, addr);
    }
  }
}
