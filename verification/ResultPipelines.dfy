/** The result pipelines of the hardware units under back-pressure from the bus: every
    accepted operation leaves exactly once, in order, and nothing waiting is overwritten. */
module ResultPipelines {
  import opened Words
  import opened FloatAdd
  import opened FloatConvert
  import opened FloatMul

  /** A result on its way to the bus. */
  datatype Item = Item(tag: nat, value: Word)

  /** The registers of one pipeline stage. */
  datatype Stage<T> = Stage(valid: bool, tag: nat, data: T)

  function Present(s: Stage<Word>): seq<Item> {
    if s.valid then [Item(s.tag, s.data)] else []
  }

  const EMPTY := Stage(false, 0, 0 as Word)

  // ----- A pipeline that moves as a whole, as the items in its stages -----

  datatype Slot = Free | Holds(item: Item)

  /** What a unit is given in one clock. */
  datatype Input = Input(flush: bool, offered: Slot, grant: bool)

  function Seen(s: Stage<Word>): Slot {
    if s.valid then Holds(Item(s.tag, s.data)) else Free
  }

  function Offer(flush: bool, valid: bool, tag: nat, value: Word, grant: bool): Input {
    Input(flush, if valid then Holds(Item(tag, value)) else Free, grant)
  }

  /** Entry first, bus side last. The line stands still while a result waits for the bus. */
  function Moved(line: seq<Slot>, i: Input): (r: seq<Slot>)
    requires |line| > 0
    ensures |r| == |line|
  {
    if i.flush then seq(|line|, k => Free)
    else if line[|line| - 1].Holds? && !i.grant then line
    else [i.offered] + line[..|line| - 1]
  }

  /** The two-stage pipeline of the add and convert units. */
  class TwoStage {
    var s1: Stage<Word>
    var s2: Stage<Word>
    /** Since the last flush. */
    ghost var accepted: seq<Item>
    ghost var delivered: seq<Item>

    ghost function InFlight(): seq<Item>
      reads this
    {
      Present(s2) + Present(s1)
    }

    ghost predicate Valid()
      reads this
    {
      accepted == delivered + InFlight()
    }

    constructor ()
      ensures Valid() && accepted == [] && delivered == [] && InFlight() == []
    {
      s1, s2 := EMPTY, EMPTY;
      accepted, delivered := [], [];
    }

    ghost function Stages(): seq<Slot>
      reads this
    {
      [Seen(s1), Seen(s2)]
    }

    /** An operation is taken exactly when nothing waits in the second stage or what
        waits there is granted. */
    method Clock(flush: bool, valid: bool, tag: nat, result: Word, grant: bool)
      requires Valid()
      modifies this
      ensures Valid()
      ensures flush ==> accepted == [] && delivered == [] && !s1.valid && !s2.valid
      ensures !flush ==> delivered == old(delivered) + (if grant then Present(old(s2)) else [])
      ensures !flush && valid && (!old(s2).valid || grant) ==> accepted == old(accepted) + [Item(tag, result)]
      ensures !flush && (!valid || (old(s2).valid && !grant)) ==> accepted == old(accepted)
      ensures !flush && (!old(s2).valid || grant) ==> s2 == old(s1) && s1.valid == valid && (valid ==> s1 == Stage(true, tag, result))
      ensures !flush && old(s2).valid && !grant ==> s1 == old(s1) && s2 == old(s2)
      ensures Stages() == Moved(old(Stages()), Offer(flush, valid, tag, result, grant))
    {
      if flush {
        s1, s2 := EMPTY, EMPTY;
        accepted, delivered := [], [];
      } else if !s2.valid || grant {
        delivered := delivered + Present(s2);
        accepted := accepted + Present(Stage(valid, tag, result));
        s2 := s1;
        s1 := Stage(valid, tag, if valid then result else 0);
      }
    }
  }

  /** The adder: the core in front of its pipeline. */
  class AddUnit {
    const pipe: TwoStage

    constructor ()
      ensures fresh(pipe) && pipe.Valid() && pipe.accepted == []
    {
      pipe := new TwoStage();
    }

    /** Exactly-once delivery, in order; whatever is accepted enters with its tag and a
        result that meets the adder's specification. */
    method Clock(flush: bool, valid: bool, tag: nat, rs1: Word, rs2: Word, subtract: bool, grant: bool)
      requires pipe.Valid()
      modifies pipe
      ensures pipe.Valid()
      ensures flush ==> pipe.accepted == [] && pipe.delivered == [] && !pipe.s1.valid && !pipe.s2.valid
      ensures !flush ==> pipe.delivered == old(pipe.delivered) + (if grant then Present(old(pipe.s2)) else [])
      ensures !flush && (!valid || (old(pipe.s2).valid && !grant)) ==> pipe.accepted == old(pipe.accepted)
      ensures !flush && valid && (!old(pipe.s2).valid || grant) ==>
                exists r: Word :: AddSpec(rs1, Effective(rs2, subtract), r) && pipe.accepted == old(pipe.accepted) + [Item(tag, r)] && pipe.s1 == Stage(true, tag, r)
      ensures !flush && (!old(pipe.s2).valid || grant) ==> pipe.s2 == old(pipe.s1) && pipe.s1.valid == valid
      ensures !flush && old(pipe.s2).valid && !grant ==> pipe.s1 == old(pipe.s1) && pipe.s2 == old(pipe.s2)
      ensures exists r: Word :: AddSpec(rs1, Effective(rs2, subtract), r) && pipe.Stages() == Moved(old(pipe.Stages()), Offer(flush, valid, tag, r, grant))
    {
      hide AddSpec;
      var r := AddCore(rs1, rs2, subtract);
      pipe.Clock(flush, valid, tag, r, grant);
    }
  }

  /** The conversion unit. */
  class ConvertUnit {
    const pipe: TwoStage

    constructor ()
      ensures fresh(pipe) && pipe.Valid() && pipe.accepted == []
    {
      pipe := new TwoStage();
    }

    /** Exactly-once delivery, in order; whatever is accepted enters with its tag and the
        converted value. */
    method Clock(flush: bool, valid: bool, tag: nat, rs1: Word, toInt: bool, grant: bool)
      requires pipe.Valid()
      modifies pipe
      ensures pipe.Valid()
      ensures flush ==> pipe.accepted == [] && pipe.delivered == [] && !pipe.s1.valid && !pipe.s2.valid
      ensures !flush ==> pipe.delivered == old(pipe.delivered) + (if grant then Present(old(pipe.s2)) else [])
      ensures !flush && (!valid || (old(pipe.s2).valid && !grant)) ==> pipe.accepted == old(pipe.accepted)
      ensures !flush && valid && (!old(pipe.s2).valid || grant) ==>
                exists r: Word :: Converted(rs1, toInt, r) && pipe.accepted == old(pipe.accepted) + [Item(tag, r)] && pipe.s1 == Stage(true, tag, r)
      ensures !flush && (!old(pipe.s2).valid || grant) ==> pipe.s2 == old(pipe.s1) && pipe.s1.valid == valid
      ensures !flush && old(pipe.s2).valid && !grant ==> pipe.s1 == old(pipe.s1) && pipe.s2 == old(pipe.s2)
      ensures exists r: Word :: Converted(rs1, toInt, r) && pipe.Stages() == Moved(old(pipe.Stages()), Offer(flush, valid, tag, r, grant))
    {
      hide FromIntSpec, ToInt;
      var r;
      if toInt {
        r := ToInt(rs1);
      } else {
        r := FromInt(rs1);
      }
      assert Converted(rs1, toInt, r);
      pipe.Clock(flush, valid, tag, r, grant);
    }
  }

  /** What the conversion unit may answer. */
  ghost predicate Converted(rs1: Word, toInt: bool, r: Word) {
    if toInt then r == ToInt(rs1) else FromIntSpec(Signed(rs1), r)
  }

  /** The multiplier's four stages: partial products, product, packed result, bus hold. */
  class MultiplyUnit {
    var s1: Stage<Partials>
    var s2: Stage<Product>
    var s3: Stage<Word>
    var s4: Stage<Word>
    ghost var accepted: seq<Item>
    ghost var delivered: seq<Item>

    /** Each stage stands for the result it will become. */
    ghost function InFlight(): seq<Item>
      reads this
    {
      Line(Present(s4), Present(s3), Present(Packed(s2)), Present(Packed(Summed(s1))))
    }

    ghost predicate Valid()
      reads this
    {
      accepted == delivered + InFlight()
    }

    constructor ()
      ensures Valid() && accepted == [] && delivered == [] && InFlight() == []
    {
      s1 := Stage(false, 0, Partials(false, false, 0, 0, 0, 0, 0));
      s2 := Stage(false, 0, Product(false, false, 0, 0));
      s3, s4 := EMPTY, EMPTY;
      accepted, delivered := [], [];
    }

    ghost function Stages(): seq<Slot>
      reads this
    {
      [Seen(Packed(Summed(s1))), Seen(Packed(s2)), Seen(s3), Seen(s4)]
    }

    /** An operation is taken exactly when nothing waits in the last stage or what waits
        there is granted. */
    method Clock(flush: bool, valid: bool, tag: nat, rs1: Word, rs2: Word, grant: bool)
      requires Valid()
      modifies this
      ensures Valid()
      ensures flush ==> accepted == [] && delivered == [] && !s1.valid && !s2.valid && !s3.valid && !s4.valid
      ensures !flush ==> delivered == old(delivered) + (if grant then Present(old(s4)) else [])
      ensures !flush && valid && (!old(s4).valid || grant) ==> accepted == old(accepted) + [Item(tag, Multiply(rs1, rs2))]
      ensures !flush && (!valid || (old(s4).valid && !grant)) ==> accepted == old(accepted)
      ensures !flush && old(s4).valid && !grant ==> s1 == old(s1) && s2 == old(s2) && s3 == old(s3) && s4 == old(s4)
      ensures Stages() == Moved(old(Stages()), Offer(flush, valid, tag, Multiply(rs1, rs2), grant))
    {
      if flush {
        s1 := Stage(false, 0, Partials(false, false, 0, 0, 0, 0, 0));
        s2 := Stage(false, 0, Product(false, false, 0, 0));
        s3, s4 := EMPTY, EMPTY;
        accepted, delivered := [], [];
      } else if !s4.valid || grant {
        Advance(valid, tag, rs1, rs2);
      }
    }

    /** Every stage moves one on. */
    method Advance(valid: bool, tag: nat, rs1: Word, rs2: Word)
      requires Valid()
      modifies this
      ensures Valid()
      ensures delivered == old(delivered) + Present(old(s4))
      ensures accepted == old(accepted) + Present(Stage(valid, tag, Multiply(rs1, rs2)))
      ensures Stages() == [if valid then Holds(Item(tag, Multiply(rs1, rs2))) else Free] + old(Stages())[..3]
    {
      hide Normalise, Accumulate, Split, Present, Line;
      ghost var n := Present(Stage(valid, tag, Multiply(rs1, rs2)));
      Shifted(delivered, Present(s4), Present(s3), Present(Packed(s2)), Present(Packed(Summed(s1))), n);
      delivered := delivered + Present(s4);
      accepted := accepted + n;
      s4 := s3;
      s3 := Packed(s2);
      s2 := Summed(s1);
      s1 := Stage(valid, tag, Split(rs1, rs2));
    }
  }

  function Summed(s: Stage<Partials>): Stage<Product> { Stage(s.valid, s.tag, Accumulate(s.data)) }

  function Packed(s: Stage<Product>): Stage<Word> { Stage(s.valid, s.tag, Normalise(s.data)) }

  function Line(p4: seq<Item>, p3: seq<Item>, p2: seq<Item>, p1: seq<Item>): seq<Item> { p4 + p3 + p2 + p1 }

  /** When the line moves on, its front leaves and a new item joins at the back. */
  lemma Shifted(d: seq<Item>, p4: seq<Item>, p3: seq<Item>, p2: seq<Item>, p1: seq<Item>, n: seq<Item>)
    ensures d + Line(p4, p3, p2, p1) + n == (d + p4) + Line(p3, p2, p1, n)
  {
  }

  /** A one-cycle unit (integer or branch) and the latch that holds its result for the bus. */
  class LatchedUnit {
    var out: Stage<Word>
    var latch: Stage<Word>
    ghost var accepted: seq<Item>
    ghost var delivered: seq<Item>

    ghost function InFlight(): seq<Item>
      reads this
    {
      Present(latch) + Present(out)
    }

    /** The unit never finishes while the latch is still occupied. */
    ghost predicate Valid()
      reads this
    {
      accepted == delivered + InFlight() && !(out.valid && latch.valid)
    }

    constructor ()
      ensures Valid() && accepted == [] && delivered == [] && InFlight() == []
    {
      out, latch := EMPTY, EMPTY;
      accepted, delivered := [], [];
    }

    /** Operations are issued only when the unit is ready, and only a waiting result is
        granted. A flush empties the latch and drops what the unit has just finished,
        but an operation issued in that very cycle still goes through. */
    method Clock(flush: bool, valid: bool, tag: nat, value: Word, grant: bool)
      requires Valid() && (grant ==> latch.valid)
      requires valid ==> !out.valid && (!latch.valid || grant)
      modifies this
      ensures Valid()
      ensures flush ==> accepted == Present(Stage(valid, tag, value)) && delivered == []
      ensures !flush ==> delivered == old(delivered) + (if grant then Present(old(latch)) else [])
      ensures !flush ==> accepted == old(accepted) + Present(Stage(valid, tag, value))
      ensures out.valid == valid && (valid ==> out == Stage(true, tag, value))
      ensures flush ==> !latch.valid
      ensures !flush && old(out).valid ==> latch == old(out)
      ensures !flush && !old(out).valid && grant ==> !latch.valid
      ensures !flush && !old(out).valid && !grant ==> latch == old(latch)
    {
      if flush {
        latch := EMPTY;
        accepted, delivered := [], [];
      } else {
        if grant {
          delivered := delivered + Present(latch);
        }
        if out.valid {
          latch := out;
        } else if grant {
          latch := latch.(valid := false);
        }
      }
      accepted := accepted + Present(Stage(valid, tag, value));
      out := if valid then Stage(true, tag, value) else out.(valid := false);
    }
  }
}
