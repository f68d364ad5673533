/** The register renaming table: which in-flight instruction will write each register. */
module Renaming {
  datatype RatEntry = RatEntry(valid: bool, tag: int)

  type RatBank = b: seq<RatEntry> | |b| == 32 witness seq(32, i => RatEntry(false, -1))

  datatype Rat = Rat(x: RatBank, f: RatBank)

  const UNMAPPED := RatEntry(false, -1)

  function EmptyBank(): RatBank { seq(32, i => UNMAPPED) }

  const EMPTY_RAT := Rat(EmptyBank(), EmptyBank())

  function Lookup(t: Rat, idx: int, fp: bool): RatEntry
    requires 0 <= idx < 32
  {
    if fp then t.f[idx] else t.x[idx]
  }

  function SetEntry(t: Rat, idx: int, fp: bool, e: RatEntry): Rat
    requires 0 <= idx < 32
  {
    if fp then t.(f := t.f[idx := e]) else t.(x := t.x[idx := e])
  }

  /** Dispatch renames idx to tag; x0 is never renamed. */
  function Rename(t: Rat, idx: int, fp: bool, tag: int): Rat
    requires 0 <= idx < 32
  {
    if !fp && idx == 0 then t else SetEntry(t, idx, fp, RatEntry(true, tag))
  }

  /** Retirement clears the mapping only if it still belongs to tag. */
  function Release(t: Rat, idx: int, fp: bool, tag: int): Rat
    requires 0 <= idx < 32
  {
    var e := Lookup(t, idx, fp);
    if e.valid && e.tag == tag then SetEntry(t, idx, fp, UNMAPPED) else t
  }

  /** Every renamed register is renamed to a slot of the reorder buffer. */
  ghost predicate RatInRange(size: nat, t: Rat) {
    forall idx: int, fp: bool :: 0 <= idx < 32 && Lookup(t, idx, fp).valid ==> 0 <= Lookup(t, idx, fp).tag < size
  }
}
