/** In-order retirement, as the commit unit performs it on the other units. */
module RetireUnit {
  import opened Words
  import opened Instructions
  import opened ArchState
  import opened Renaming
  import opened Buffers
  import opened CommitProofs
  import opened RegisterUnits
  import opened ReorderBufferUnit
  import opened LoadStoreUnit
  import opened Rings

  datatype CommitRecord = CommitRecord(valid: bool, op: Opcode, rd: RegField, rdFp: bool, result: Word, pc: Word)

  const NO_COMMIT := CommitRecord(false, NOP, -1, false, 0, 0)

  function RecordOf(e: RobEntry): CommitRecord {
    CommitRecord(true, e.op, e.rd, e.rdFp, e.result, e.pc)
  }

  class CommitUnit {
    var last: CommitRecord

    constructor ()
      ensures last == NO_COMMIT
    {
      last := NO_COMMIT;
    }

    /** Retires the oldest instruction if it has finished. A store can be retired only
        when it is the finished head of the load/store buffer. */
    method Tick(rob: ReorderBuffer, rf: RegisterFile, rat: RegisterRemappingTable, lsb: LoadStoreBuffer, mem: array<Word>)
      returns (committed: bool, nextPc: Word, halted: bool)
      requires rob.Valid() && rf.Valid() && rat.Valid() && lsb.Valid() && mem != rf.ints && mem != rf.fps
      requires rob.HeadReady() && IsStore(rob.Contents()[0].op) ==> lsb.CanCommitStore()
      modifies this, rob, rf.ints, rf.fps, rat.intRat, rat.fpRat, lsb, mem
      ensures rob.Valid() && lsb.Valid()
      ensures committed == old(rob.HeadReady())
      ensures !committed ==>
                && last == NO_COMMIT && !halted
                && rob.base == old(rob.base) && rob.Contents() == old(rob.Contents())
                && rf.View() == old(rf.View()) && rat.View() == old(rat.View())
                && lsb.Contents() == old(lsb.Contents()) && mem[..] == old(mem[..])
      ensures committed ==>
                var e, es := old(rob.Contents())[0], old(lsb.Contents());
                && last == RecordOf(e) && halted == (e.op == HALT)
                && (IsControl(e.op) ==> nextPc == e.result)
                && rob.base == old(rob.base) + 1 && rob.Contents() == old(rob.Contents())[1..]
                && rf.View() == RegsAfter(e, old(rf.View()))
                && rat.View() == RatAfter(e, old(rat.View()), Slot(rob.c, old(rob.base)))
                && lsb.Contents() == LsbAfter(e, es)
                && (IsStore(e.op) ==> |es| > 0)
                && mem[..] == (if IsStore(e.op) then WriteMem(old(mem[..]), es[0].addr, es[0].k.v) else old(mem[..]))
    {
      last := NO_COMMIT;
      committed, nextPc, halted := false, 0, false;
      if !rob.HeadReady() {
        return;
      }
      hide Wrap, Slot, RegsAfter, RatAfter, LsbAfter, WriteMem, Window, Vacant;
      var tag := rob.HeadTag();
      var e := rob.Commit();
      last := CommitRecord(true, e.op, e.rd, e.rdFp, e.result, e.pc);
      committed := true;
      nextPc, halted := RetireEntry(e, tag, rf, rat, lsb, mem);
    }
  }

  /** What retiring an entry does, by kind. */
  method RetireEntry(e: RobEntry, tag: int, rf: RegisterFile, rat: RegisterRemappingTable, lsb: LoadStoreBuffer, mem: array<Word>)
    returns (nextPc: Word, halted: bool)
    requires rf.Valid() && rat.Valid() && lsb.Valid() && mem != rf.ints && mem != rf.fps
    requires IsStore(e.op) ==> lsb.CanCommitStore()
    modifies rf.ints, rf.fps, rat.intRat, rat.fpRat, lsb, mem
    ensures lsb.Valid()
    ensures halted == (e.op == HALT)
    ensures IsControl(e.op) ==> nextPc == e.result
    ensures rf.View() == RegsAfter(e, old(rf.View())) && rat.View() == RatAfter(e, old(rat.View()), tag)
    ensures lsb.Contents() == LsbAfter(e, old(lsb.Contents()))
    ensures IsStore(e.op) ==> |old(lsb.Contents())| > 0
    ensures mem[..] == (if IsStore(e.op) then WriteMem(old(mem[..]), old(lsb.Contents())[0].addr, old(lsb.Contents())[0].k.v)
                        else old(mem[..]))
  {
    hide Wrap, Release, Write, WriteMem, Window, Vacant;
    nextPc, halted := 0, false;
    if e.op == HALT {
      halted := true;
    } else if IsBranch(e.op) {
      nextPc := e.result;
    } else if IsJump(e.op) {
      nextPc := e.result;
      if e.rd >= 0 {
        rf.WriteInt(e.rd, ToWord(e.pc + 4));
        rat.Commit(e.rd, false, tag);
      }
    } else if IsStore(e.op) {
      lsb.CommitStore(mem);
    } else if e.rd >= 0 {
      WriteRegister(e, tag, rf, rat);
    }
  }

  method WriteRegister(e: RobEntry, tag: int, rf: RegisterFile, rat: RegisterRemappingTable)
    requires rf.Valid() && rat.Valid() && e.rd >= 0
    modifies rf.ints, rf.fps, rat.intRat, rat.fpRat
    ensures rf.View() == Write(old(rf.View()), e.rd, e.rdFp, e.result)
    ensures rat.View() == Release(old(rat.View()), e.rd, e.rdFp, tag)
  {
    hide Release, Write;
    if e.rdFp {
      rf.WriteFp(e.rd, e.result);
    } else {
      rf.WriteInt(e.rd, e.result);
    }
    rat.Commit(e.rd, e.rdFp, tag);
  }
}
