/** Architectural state: the register file and word-indexed memory. */
module ArchState {
  import opened Words

  type Bank = b: seq<Word> | |b| == 32 witness seq(32, i => 0)

  /** Integer bank x0-x31 and floating-point bank f0-f31, both as bit patterns. */
  datatype Regs = Regs(x: Bank, f: Bank)

  function ZeroBank(): Bank { seq(32, i => 0) }

  const ZERO_REGS := Regs(ZeroBank(), ZeroBank())

  function Read(r: Regs, idx: int, fp: bool): Word
    requires 0 <= idx < 32
  {
    if fp then r.f[idx] else r.x[idx]
  }

  /** Writes to x0 are ignored. */
  function Write(r: Regs, idx: int, fp: bool, v: Word): Regs
    requires 0 <= idx < 32
  {
    if fp then r.(f := r.f[idx := v])
    else if idx == 0 then r
    else r.(x := r.x[idx := v])
  }

  /** Word-indexed memory read by byte address; out of range reads zero. */
  function ReadMem(mem: seq<Word>, a: Word): Word {
    if a / 4 < |mem| then mem[a / 4] else 0
  }

  /** Word-indexed memory write by byte address; out of range is dropped. */
  function WriteMem(mem: seq<Word>, a: Word, v: Word): (m: seq<Word>)
    ensures |m| == |mem|
  {
    if a / 4 < |mem| then mem[a / 4 := v] else mem
  }
}
