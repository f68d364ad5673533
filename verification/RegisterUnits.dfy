/** The register file and the renaming table as the simulator updates them. */
module RegisterUnits {
  import opened Words
  import opened ArchState
  import opened Renaming

  class RegisterFile {
    const ints: array<Word>
    const fps: array<Word>

    ghost predicate Valid() {
      ints.Length == 32 && fps.Length == 32 && ints != fps
    }

    ghost function View(): Regs
      requires Valid()
      reads ints, fps
    {
      Regs(ints[..], fps[..])
    }

    constructor ()
      ensures Valid() && fresh(ints) && fresh(fps)
      ensures View() == ZERO_REGS
    {
      ints := new Word[32](i => 0);
      fps := new Word[32](i => 0);
      new;
      assert ints[..] == ZeroBank() && fps[..] == ZeroBank();
    }

    method ReadReg(idx: int, fp: bool) returns (v: Word)
      requires Valid() && 0 <= idx < 32
      ensures v == Read(View(), idx, fp)
    {
      if fp {
        v := fps[idx];
      } else {
        v := ints[idx];
      }
    }

    /** x0 is hardwired to zero. */
    method WriteInt(idx: int, v: Word)
      requires Valid() && 0 <= idx < 32
      modifies ints
      ensures View() == Write(old(View()), idx, false, v)
    {
      if idx == 0 {
        return;
      }
      ints[idx] := v;
    }

    method WriteFp(idx: int, v: Word)
      requires Valid() && 0 <= idx < 32
      modifies fps
      ensures View() == Write(old(View()), idx, true, v)
    {
      fps[idx] := v;
    }
  }

  class RegisterRemappingTable {
    const intRat: array<RatEntry>
    const fpRat: array<RatEntry>

    ghost predicate Valid() {
      intRat.Length == 32 && fpRat.Length == 32 && intRat != fpRat
    }

    ghost function View(): Rat
      requires Valid()
      reads intRat, fpRat
    {
      Rat(intRat[..], fpRat[..])
    }

    constructor ()
      ensures Valid() && fresh(intRat) && fresh(fpRat)
      ensures View() == EMPTY_RAT
    {
      intRat := new RatEntry[32](i => UNMAPPED);
      fpRat := new RatEntry[32](i => UNMAPPED);
      new;
      assert intRat[..] == EmptyBank() && fpRat[..] == EmptyBank();
    }

    method LookupReg(idx: int, fp: bool) returns (e: RatEntry)
      requires Valid() && 0 <= idx < 32
      ensures e == Lookup(View(), idx, fp)
    {
      if fp {
        e := fpRat[idx];
      } else {
        e := intRat[idx];
      }
    }

    method Map(idx: int, fp: bool, tag: int)
      requires Valid() && 0 <= idx < 32
      modifies intRat, fpRat
      ensures View() == Rename(old(View()), idx, fp, tag)
    {
      if !fp && idx == 0 {
        return;
      }
      if fp {
        fpRat[idx] := RatEntry(true, tag);
      } else {
        intRat[idx] := RatEntry(true, tag);
      }
    }

    method Commit(idx: int, fp: bool, tag: int)
      requires Valid() && 0 <= idx < 32
      modifies intRat, fpRat
      ensures View() == Release(old(View()), idx, fp, tag)
    {
      var e := LookupReg(idx, fp);
      if e.valid && e.tag == tag {
        if fp {
          fpRat[idx] := UNMAPPED;
        } else {
          intRat[idx] := UNMAPPED;
        }
      }
    }
  }
}
