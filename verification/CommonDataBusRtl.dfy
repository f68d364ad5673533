/** The round-robin common data bus: one broadcast a cycle, and nobody starves. */
module CommonDataBusRtl {
  import opened Words
  import opened Arbiter

  /** A functional unit's result register. */
  datatype Result = Result(valid: bool, tag: nat, value: Word)

  const NO_RESULT := Result(false, 0, 0)

  /** The valid bits as a number; slot i is bit i. */
  function ValidBits(rs: seq<Result>): (v: nat)
    ensures v < Pow2(|rs|)
    decreases |rs|
  {
    if rs == [] then 0 else 2 * ValidBits(rs[1..]) + (if rs[0].valid then 1 else 0)
  }

  lemma {:induction false} ValidBitsAre(rs: seq<Result>, i: nat)
    requires i < |rs|
    ensures Bit(ValidBits(rs), i) <==> rs[i].valid
    decreases |rs|
  {
    assert ValidBits(rs) / 2 == ValidBits(rs[1..]);
    if i > 0 {
      ValidBitsAre(rs[1..], i - 1);
    }
  }

  /** Rotating left by one: the top bit comes round to the bottom. */
  function RotateLeft(x: nat, w: nat): nat
    requires w > 0
  {
    (x % Pow2(w - 1)) * 2 + x / Pow2(w - 1)
  }

  /** The slot after k, going round. */
  function Next(k: nat, w: nat): (n: nat)
    requires k < w
    ensures n < w
  {
    if k + 1 == w then 0 else k + 1
  }

  lemma RotateOneHot(k: nat, w: nat)
    requires k < w
    ensures RotateLeft(Pow2(k), w) == Pow2(Next(k, w))
  {
    var p := Pow2(w - 1);
    if k == w - 1 {
      QuotientUnique(p, p, 1, 0);
    } else {
      Pow2Strict(k, w - 1);
      QuotientUnique(Pow2(k), p, 0, Pow2(k));
    }
  }

  /** The one-hot to index reduction: each slot's index where granted, or-ed together. */
  function IndexUpTo(grant: nat, n: nat): (x: Word)
    requires n <= WORD_COUNT
  {
    if n == 0 then 0
    else Or(IndexUpTo(grant, n - 1), if Bit(grant, n - 1) then n - 1 else 0)
  }

  lemma OrZero(x: Word)
    ensures Or(x, 0) == x && Or(0, x) == x
  {
    Pow2At32();
    forall i: nat | i < 32
      ensures Bit(Or(x, 0), i) == Bit(x, i) && Bit(Or(0, x), i) == Bit(x, i)
    {
      BitOfZero(i);
    }
    hide Or;
    BitsEqual(Or(x, 0), x, 32);
    BitsEqual(Or(0, x), x, 32);
  }

  lemma {:induction false} IndexOfOneHot(g: nat, n: nat)
    requires n <= WORD_COUNT
    ensures IndexUpTo(Pow2(g), n) == if g < n then g else 0
  {
    if n > 0 {
      IndexOfOneHot(g, n - 1);
      BitOfPow2(g, n - 1);
      hide Or, Bit, Pow2;
      OrZero(0);
      if g < n {
        OrZero(g);
      }
    }
  }

  /** What goes out on the bus this cycle. */
  function Output(rs: seq<Result>, grant: nat): Result
    requires grant < Pow2(|rs|) && |rs| <= WORD_COUNT
  {
    if grant != 0 && IndexUpTo(grant, |rs|) < |rs| then rs[IndexUpTo(grant, |rs|)] else NO_RESULT
  }

  /** One cycle of the bus, between one last-served slot and the next. */
  ghost predicate BusStep(rs: seq<Result>, last: nat, last': nat, out: Result, grant: nat)
    requires last < |rs|
  {
    if exists i :: 0 <= i < |rs| && rs[i].valid then
      && last' < |rs| && FirstRequester(ValidBits(rs), Next(last, |rs|), |rs|, last')
      && grant == Pow2(last') && rs[last'].valid && out == rs[last']
    else last' == last && grant == 0 && out == NO_RESULT
  }

  /** The bus with its last-grant register. */
  class Cdb {
    const width: nat
    /** One-hot. */
    var lastGrant: nat
    /** The slot lastGrant names. */
    ghost var last: nat

    ghost predicate Valid()
      reads this
    {
      0 < width <= WORD_COUNT && last < width && lastGrant == Pow2(last)
    }

    /** Reset points at slot 0. */
    constructor (width: nat)
      requires 0 < width <= WORD_COUNT
      ensures Valid() && this.width == width && last == 0
    {
      this.width := width;
      lastGrant := 1;
      last := 0;
    }

    /** One clock. The grant is one-hot at the first unit with a result after the last
        one served; the bus carries that unit's result. */
    method Clock(rs: seq<Result>) returns (out: Result, grant: nat)
      requires Valid() && |rs| == width
      modifies this
      ensures Valid()
      ensures BusStep(rs, old(last), last, out, grant)
    {
      var req := ValidBits(rs);
      var base := RotateLeft(lastGrant, width);
      RotateOneHot(last, width);
      grant := Grant(req, base, width);
      out := Output(rs, grant);
      if grant != 0 {
        lastGrant := grant;
      }
      if req == 0 {
        NoRequestNoGrant(base, width);
        NoneValid(rs);
      } else {
        var winner := GrantIsFirst(req, Next(last, width), width);
        IndexOfOneHot(winner, width);
        ValidBitsAre(rs, winner);
        last := winner;
      }
    }
  }

  lemma NoneValid(rs: seq<Result>)
    requires ValidBits(rs) == 0
    ensures forall i :: 0 <= i < |rs| ==> !rs[i].valid
  {
    forall i | 0 <= i < |rs|
      ensures !rs[i].valid
    {
      ValidBitsAre(rs, i);
      BitOfZero(i);
    }
  }

  // ----- Fairness -----

  /** A requesting unit that is passed over is closer to the front next time. */
  lemma Closer(rs: seq<Result>, last: nat, last': nat, out: Result, grant: nat, u: nat)
    requires last < |rs| && u < |rs| && rs[u].valid && BusStep(rs, last, last', out, grant) && last' != u
    ensures Distance(Next(last', |rs|), u, |rs|) < Distance(Next(last, |rs|), u, |rs|)
  {
    var w, k := |rs|, Next(last, |rs|);
    ValidBitsAre(rs, u);
    DistanceIs(k, last', w);
    DistanceIs(k, u, w);
    DistanceIs(Next(last', w), u, w);
    hide Distance, Bit, Pow2, ValidBits;
  }

  /** A run of the bus: the inputs of each cycle, and the slot served before each. */
  ghost predicate BusRun(w: nat, inputs: seq<seq<Result>>, last: seq<nat>, outs: seq<Result>, grants: seq<nat>) {
    && |last| == |inputs| + 1 && |outs| == |grants| == |inputs|
    && forall t :: 0 <= t < |inputs| ==> |inputs[t]| == w && last[t] < w && BusStep(inputs[t], last[t], last[t + 1], outs[t], grants[t])
  }

  lemma {:induction false} ServedWithin(w: nat, inputs: seq<seq<Result>>, last: seq<nat>, outs: seq<Result>, grants: seq<nat>,
                                        u: nat, t: nat, n: nat) returns (when: nat)
    requires BusRun(w, inputs, last, outs, grants) && u < w && t + n <= |inputs| && n > 0
    requires forall s :: t <= s < t + n ==> inputs[s][u].valid
    requires Distance(Next(last[t], w), u, w) < n
    ensures t <= when < t + n && last[when + 1] == u && grants[when] == Pow2(u) && outs[when] == inputs[when][u]
    decreases n
  {
    assert BusStep(inputs[t], last[t], last[t + 1], outs[t], grants[t]) && inputs[t][u].valid;
    if last[t + 1] == u {
      when := t;
    } else {
      Closer(inputs[t], last[t], last[t + 1], outs[t], grants[t], u);
      when := ServedWithin(w, inputs, last, outs, grants, u, t + 1, n - 1);
    }
  }

  /** Fairness: a unit that keeps requesting is served within as many cycles as there
      are units, whatever the others request. */
  lemma Fairness(w: nat, inputs: seq<seq<Result>>, last: seq<nat>, outs: seq<Result>, grants: seq<nat>, u: nat, t: nat) returns (when: nat)
    requires BusRun(w, inputs, last, outs, grants) && u < w && t + w <= |inputs|
    requires forall s :: t <= s < t + w ==> inputs[s][u].valid
    ensures t <= when < t + w && grants[when] == Pow2(u) && outs[when] == inputs[when][u]
  {
    when := ServedWithin(w, inputs, last, outs, grants, u, t, w);
  }
}
