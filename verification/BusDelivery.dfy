/** How long a result takes from a unit's entry to the bus: the pipelines of
    ResultPipelines over whole runs, alone and behind the round-robin bus. */
module BusDelivery {
  import opened Words
  import opened Arbiter
  import opened ResultPipelines
  import opened CommonDataBusRtl

  /** The stages before clock t of a run. */
  function LineAt(line: seq<Slot>, ins: seq<Input>, t: nat): (r: seq<Slot>)
    requires |line| > 0 && t <= |ins|
    ensures |r| == |line|
  {
    if t == 0 then line else Moved(LineAt(line, ins, t - 1), ins[t - 1])
  }

  ghost predicate NoFlush(ins: seq<Input>, t: nat, n: nat) {
    t + n <= |ins| && forall s :: t <= s < t + n ==> !ins[s].flush
  }

  /** The last stage of the line: what asks for the bus. */
  function Front(line: seq<Slot>): Slot
    requires |line| > 0
  {
    line[|line| - 1]
  }

  // ----- Alone -----

  /** An item that enters a line with nothing in it stands in stage n after n clocks,
      whatever else is offered or granted meanwhile. */
  lemma {:induction false} Advances(line: seq<Slot>, ins: seq<Input>, t: nat, item: Item, n: nat)
    requires |line| > 0 && 0 < n <= |line| && NoFlush(ins, t, n) && ins[t].offered == Holds(item)
    requires forall k :: 0 <= k < |line| ==> LineAt(line, ins, t)[k] == Free
    ensures var l := LineAt(line, ins, t + n); l[n - 1] == Holds(item) && forall k :: n <= k < |line| ==> l[k] == Free
    decreases n
  {
    assert !ins[t + n - 1].flush;
    if n > 1 {
      Advances(line, ins, t, item, n - 1);
    }
  }

  /** Entering an empty line at clock t, an item asks for the bus after as many clocks as
      there are stages. */
  lemma {:induction false} ReachesTheBus(line: seq<Slot>, ins: seq<Input>, t: nat, item: Item)
    requires |line| > 0 && NoFlush(ins, t, |line|) && ins[t].offered == Holds(item)
    requires forall k :: 0 <= k < |line| ==> LineAt(line, ins, t)[k] == Free
    ensures Front(LineAt(line, ins, t + |line|)) == Holds(item)
  {
    hide Moved, LineAt;
    Advances(line, ins, t, item, |line|);
  }

  // ----- Behind a bus that serves whoever keeps asking within g clocks -----

  /** Among any g clocks in which the front keeps asking, one grants it. */
  ghost predicate ServedWithinClocks(line: seq<Slot>, ins: seq<Input>, g: nat)
    requires |line| > 0
  {
    forall t: nat {:trigger LineAt(line, ins, t)} :: NoFlush(ins, t, g) && Asks(line, ins, t, g) ==> exists s :: t <= s < t + g && ins[s].grant
  }

  ghost predicate Asks(line: seq<Slot>, ins: seq<Input>, t: nat, g: nat)
    requires |line| > 0
  {
    t + g <= |ins| && forall s :: t <= s < t + g ==> Front(LineAt(line, ins, s)).Holds?
  }

  /** Blocked for n clocks, the line has not changed and its front has kept asking. */
  lemma {:induction false} Stands(line: seq<Slot>, ins: seq<Input>, t: nat, n: nat)
    requires |line| > 0 && NoFlush(ins, t, n) && Front(LineAt(line, ins, t)).Holds?
    requires forall s :: t <= s < t + n ==> !ins[s].grant
    ensures LineAt(line, ins, t + n) == LineAt(line, ins, t)
    ensures Asks(line, ins, t, n)
    decreases n
  {
    if n > 0 {
      Stands(line, ins, t, n - 1);
      assert !ins[t + n - 1].grant && !ins[t + n - 1].flush;
    }
  }

  /** The first clock at or after t, within g, in which the line moves. */
  lemma {:induction false} MovesWithin(line: seq<Slot>, ins: seq<Input>, t: nat, g: nat) returns (when: nat)
    requires |line| > 0 && g > 0 && NoFlush(ins, t, g) && ServedWithinClocks(line, ins, g)
    ensures t <= when < t + g && LineAt(line, ins, when) == LineAt(line, ins, t)
    ensures LineAt(line, ins, when + 1) == [ins[when].offered] + LineAt(line, ins, when)[..|line| - 1]
    ensures Front(LineAt(line, ins, when)).Holds? ==> ins[when].grant
  {
    when := t;
    if Front(LineAt(line, ins, t)).Holds? {
      while when < t + g && !ins[when].grant
        invariant t <= when <= t + g
        invariant forall s :: t <= s < when ==> !ins[s].grant
      {
        when := when + 1;
      }
      Stands(line, ins, t, when - t);
    }
    assert !ins[when].flush;
  }

  /** Every item in the line is handed to the bus within g clocks per stage left. */
  lemma {:induction false} Delivered(line: seq<Slot>, ins: seq<Input>, t: nat, k: nat, item: Item, g: nat) returns (when: nat)
    requires |line| > 0 && g > 0 && k < |line| && NoFlush(ins, t, (|line| - k) * g) && ServedWithinClocks(line, ins, g)
    requires LineAt(line, ins, t)[k] == Holds(item)
    ensures t <= when < t + (|line| - k) * g
    ensures Front(LineAt(line, ins, when)) == Holds(item) && ins[when].grant
    decreases |line| - k
  {
    assert (|line| - k) * g == (|line| - k - 1) * g + g;
    MulNonNegative(|line| - k - 1, g);
    var s := MovesWithin(line, ins, t, g);
    if k == |line| - 1 {
      when := s;
    } else {
      when := Delivered(line, ins, s + 1, k + 1, item, g);
    }
  }

  // ----- Behind the round-robin bus -----

  /** Unit u of the bus is this pipeline: it asks while its front holds an item, and it
      sees the grant in the same clock. */
  ghost predicate Attached(line: seq<Slot>, ins: seq<Input>, w: nat, inputs: seq<seq<Result>>, grants: seq<nat>, u: nat)
    requires |line| > 0
  {
    && |inputs| == |grants| == |ins|
    && (forall s :: 0 <= s < |ins| ==> |inputs[s]| == w)
    && u < w
    && forall s :: 0 <= s < |ins| ==> inputs[s][u] == Request(Front(LineAt(line, ins, s))) && (ins[s].grant <==> grants[s] == Pow2(u))
  }

  function Request(s: Slot): Result {
    match s
    case Free => NO_RESULT
    case Holds(item) => Result(true, item.tag, item.value)
  }

  lemma {:induction false} BusServes(line: seq<Slot>, ins: seq<Input>, w: nat, inputs: seq<seq<Result>>, last: seq<nat>, outs: seq<Result>, grants: seq<nat>, u: nat)
    requires |line| > 0 && BusRun(w, inputs, last, outs, grants) && Attached(line, ins, w, inputs, grants, u)
    ensures ServedWithinClocks(line, ins, w)
  {
    forall t: nat | NoFlush(ins, t, w) && Asks(line, ins, t, w)
      ensures exists s :: t <= s < t + w && ins[s].grant
    {
      var s := Fairness(w, inputs, last, outs, grants, u, t);
      assert ins[s].grant;
    }
  }

  /** Whatever a unit accepts at clock t goes out on the bus, with its tag and value,
      within as many clocks as stages times units, whatever the other units ask for. */
  lemma {:induction false} AcceptedIsBroadcast(line: seq<Slot>, ins: seq<Input>, w: nat, inputs: seq<seq<Result>>, last: seq<nat>, outs: seq<Result>,
                            grants: seq<nat>, u: nat, t: nat, item: Item) returns (when: nat)
    requires |line| > 0 && BusRun(w, inputs, last, outs, grants) && Attached(line, ins, w, inputs, grants, u)
    requires NoFlush(ins, t, 1 + |line| * w) && ins[t].offered == Holds(item)
    requires Front(LineAt(line, ins, t)) == Free || ins[t].grant
    ensures t < when < t + 1 + |line| * w && outs[when] == Result(true, item.tag, item.value)
  {
    hide BusRun, ServedWithinClocks, LineAt, Moved;
    BusServes(line, ins, w, inputs, last, outs, grants, u);
    Enters(line, ins, t, item);
    when := Delivered(line, ins, t + 1, 0, item, w);
    assert grants[when] == Pow2(u) && inputs[when][u] == Result(true, item.tag, item.value);
    Granted(w, inputs, last, outs, grants, u, when);
  }

  lemma Enters(line: seq<Slot>, ins: seq<Input>, t: nat, item: Item)
    requires |line| > 0 && t < |ins| && !ins[t].flush && ins[t].offered == Holds(item)
    requires Front(LineAt(line, ins, t)) == Free || ins[t].grant
    ensures LineAt(line, ins, t + 1)[0] == Holds(item)
  {
  }

  /** A granted unit's result is on the bus. */
  lemma {:induction false} Granted(w: nat, inputs: seq<seq<Result>>, last: seq<nat>, outs: seq<Result>, grants: seq<nat>, u: nat, t: nat)
    requires BusRun(w, inputs, last, outs, grants) && u < w && t < |inputs| && grants[t] == Pow2(u)
    ensures outs[t] == inputs[t][u]
  {
    assert BusStep(inputs[t], last[t], last[t + 1], outs[t], grants[t]);
    OneHotUnique(u, last[t + 1]);
  }

  lemma {:induction false} OneHotUnique(a: nat, b: nat)
    requires Pow2(a) == Pow2(b)
    ensures a == b
  {
    if a < b {
      Pow2Strict(a, b);
    } else if b < a {
      Pow2Strict(b, a);
    }
  }
}
