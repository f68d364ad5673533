/** The circular reorder buffer, updated in place. */
module ReorderBufferUnit {
  import opened Instructions
  import opened Words
  import opened Buffers
  import opened Rings

  /** The configuration of a machine whose tags are reorder-buffer slots. */
  predicate SlotTags(c: Config) { !c.linear && c.robSize > 0 }

  lemma SlotIsWrap(c: Config, base: nat, i: nat)
    requires SlotTags(c)
    ensures Slot(c, base + i) == Wrap(base, i, c.robSize)
  {
  }

  lemma PositionIsOffset(c: Config, base: nat, tag: nat)
    requires SlotTags(c) && tag < c.robSize
    ensures 0 <= Position(c, base, tag) < c.robSize
    ensures Wrap(base, Position(c, base, tag), c.robSize) == tag
  {
    WrapOffset(base, tag, c.robSize);
  }

  class ReorderBuffer {
    const c: Config
    var entries: seq<RobEntry>
    var head: nat
    var tail: nat
    var count: nat
    /** How many instructions have been retired; head is its slot. */
    ghost var base: nat

    ghost predicate Valid()
      reads this
    {
      && SlotTags(c)
      && |entries| == c.robSize && count <= c.robSize
      && head == Wrap(base, 0, c.robSize) && tail == Wrap(base, count, c.robSize)
      && Vacant(entries, base, count, IDLE_ROB)
    }

    /** The entries in flight, oldest first. */
    ghost function Contents(): (s: seq<RobEntry>)
      requires Valid()
      reads this
      ensures |s| == count
    {
      Window(entries, base, count)
    }

    constructor (c: Config)
      requires SlotTags(c)
      ensures Valid() && this.c == c && base == 0 && Contents() == []
    {
      this.c := c;
      entries := seq(c.robSize, i => IDLE_ROB);
      head, tail, count, base := 0, 0, 0, 0;
    }

    predicate Full()
      reads this
    {
      count == c.robSize
    }

    predicate Empty()
      reads this
    {
      count == 0
    }

    method Allocate(i: Instruction) returns (tag: int)
      requires Valid()
      modifies this
      ensures Valid() && base == old(base)
      ensures old(count) == c.robSize ==> tag == -1 && Contents() == old(Contents())
      ensures old(count) < c.robSize ==>
                tag == Slot(c, base + old(count)) && Contents() == old(Contents()) + [NewRobEntry(i)]
    {
      if Full() {
        return -1;
      }
      tag := tail;
      SlotIsWrap(c, base, count);
      WrapNext(base, count, c.robSize);
      Push(entries, base, count, NewRobEntry(i), IDLE_ROB);
      hide Slot, Wrap;
      entries := entries[tag := RobEntry(InFlight, i.op, i.rd, i.rdFp, 0, i.pc)];
      tail := (tail + 1) % c.robSize;
      count := count + 1;
    }

    /** The slot of a tag holds what the window shows for it. */
    lemma PeekIs(tag: nat)
      requires Valid() && tag < c.robSize
      ensures entries[tag] == Peek(c, base, Contents(), tag)
      ensures Wrap(base, Position(c, base, tag), c.robSize) == tag
      ensures entries[tag].state == InFlight ==> 0 <= Position(c, base, tag) < count
    {
      PositionIsOffset(c, base, tag);
      hide Position, Wrap;
    }

    method PeekEntry(tag: int) returns (e: RobEntry)
      requires Valid() && 0 <= tag < c.robSize
      ensures e == Peek(c, base, Contents(), tag)
    {
      PeekIs(tag);
      e := entries[tag];
    }

    method WriteBack(tag: int, v: Word)
      requires Valid() && 0 <= tag < c.robSize
      requires Peek(c, base, Contents(), tag).state == InFlight
      modifies this
      ensures Valid() && base == old(base)
      ensures Contents() == WriteResult(c, base, old(Contents()), tag, v)
    {
      PeekIs(tag);
      hide Position, Wrap;
      ghost var was, k := entries, Position(c, base, tag);
      UpdateAt(entries, base, count, k, Finish(entries[tag], v), IDLE_ROB);
      entries := entries[tag := entries[tag].(result := v)];
      entries := entries[tag := entries[tag].(state := RobDone)];
      assert entries == was[tag := Finish(was[tag], v)];
    }

    predicate HeadReady()
      requires Valid()
      reads this
      ensures HeadReady() <==> |Contents()| > 0 && Contents()[0].state == RobDone
    {
      !Empty() && entries[head].state == RobDone
    }

    function HeadTag(): int
      requires Valid() && !Empty()
      reads this
      ensures HeadTag() == Slot(c, base)
    {
      head
    }

    method Commit() returns (e: RobEntry)
      requires Valid() && HeadReady()
      modifies this
      ensures Valid() && base == old(base) + 1
      ensures e == old(Contents())[0] && Contents() == old(Contents())[1..]
    {
      e := entries[head];
      Pop(entries, base, count, IDLE_ROB);
      WrapNext(base, 0, c.robSize);
      WrapMoved(base, 0, c.robSize);
      WrapMoved(base, count - 1, c.robSize);
      hide Wrap;
      entries := entries[head := IDLE_ROB];
      head := (head + 1) % c.robSize;
      count := count - 1;
      base := base + 1;
    }
  }
}
