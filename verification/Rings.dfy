/** Circular buffers seen through the number of entries ever removed from them. */
module Rings {
  import opened Words

  /** The slot of the entry i places after the base-th entry ever inserted. */
  function Wrap(base: nat, i: nat, size: nat): (s: nat)
    requires size > 0
    ensures s < size
  {
    (base + i) % size
  }

  lemma WrapNext(base: nat, i: nat, size: nat)
    requires size > 0
    ensures (Wrap(base, i, size) + 1) % size == Wrap(base, i + 1, size)
  {
    var q, r := (Wrap(base, i, size) + 1) / size, (Wrap(base, i, size) + 1) % size;
    var p := (base + i) / size;
    assert base + i == p * size + Wrap(base, i, size) && Wrap(base, i, size) + 1 == q * size + r;
    assert (p + q) * size == p * size + q * size;
    QuotientUnique(base + i + 1, size, p + q, r);
  }

  /** Slots counted from the head slot are slots counted from the base. */
  lemma WrapFromHead(base: nat, i: nat, size: nat)
    requires size > 0
    ensures (Wrap(base, 0, size) + i) % size == Wrap(base, i, size)
  {
    var q, r := (base % size + i) / size, (base % size + i) % size;
    var p := base / size;
    assert base == p * size + base % size && base % size + i == q * size + r;
    assert (p + q) * size == p * size + q * size;
    QuotientUnique(base + i, size, p + q, r);
  }

  lemma WrapMoved(base: nat, i: nat, size: nat)
    requires size > 0
    ensures Wrap(base + 1, i, size) == Wrap(base, i + 1, size)
  {
    assert base + 1 + i == base + (i + 1);
  }

  /** A whole turn comes back to the same slot. */
  lemma WrapFull(base: nat, size: nat)
    requires size > 0
    ensures Wrap(base, size, size) == Wrap(base, 0, size)
  {
    var q := base / size;
    assert base == q * size + base % size && (q + 1) * size == q * size + size;
    QuotientUnique(base + size, size, q + 1, base % size);
  }

  /** Within one window of the buffer's size, slots are distinct. */
  lemma WrapInjective(base: nat, i: nat, j: nat, size: nat)
    requires size > 0 && i < size && j < size && Wrap(base, i, size) == Wrap(base, j, size)
    ensures i == j
  {
    var qi, qj := (base + i) / size, (base + j) / size;
    assert base + i == qi * size + (base + i) % size && base + j == qj * size + (base + j) % size;
    assert (qi - qj) * size == qi * size - qj * size && (qj - qi) * size == qj * size - qi * size;
    if qi > qj {
      MulAtLeast(qi - qj, size);
    } else if qj > qi {
      MulAtLeast(qj - qi, size);
    }
  }

  lemma SlotsDistinct(base: nat, k: nat, size: nat)
    requires k < size
    ensures forall i :: 0 <= i < size && i != k ==> Wrap(base, i, size) != Wrap(base, k, size)
  {
    forall i | 0 <= i < size && i != k
      ensures Wrap(base, i, size) != Wrap(base, k, size)
    {
      if Wrap(base, i, size) == Wrap(base, k, size) {
        WrapInjective(base, i, k, size);
      }
    }
  }

  /** Every slot is at the offset its distance from the base gives. */
  lemma WrapOffset(base: nat, slot: nat, size: nat)
    requires size > 0 && slot < size
    ensures 0 <= (slot - base) % size < size && Wrap(base, (slot - base) % size, size) == slot
  {
    var d, q := (slot - base) % size, (slot - base) / size;
    assert slot - base == q * size + d;
    var k := -q;
    assert k * size == -(q * size);
    QuotientUnique(base + d, size, k, slot);
  }

  /** The window of count entries that starts at base. */
  ghost function Window<T>(es: seq<T>, base: nat, count: nat): (w: seq<T>)
    requires 0 < |es| && count <= |es|
    ensures |w| == count
    ensures forall i :: 0 <= i < count ==> w[i] == es[Wrap(base, i, |es|)]
  {
    seq(count, i requires 0 <= i < count => es[Wrap(base, i, |es|)])
  }

  /** Every slot outside the window holds the idle entry. */
  ghost predicate Vacant<T>(es: seq<T>, base: nat, count: nat, idle: T)
    requires 0 < |es| && count <= |es|
  {
    forall i :: count <= i < |es| ==> es[Wrap(base, i, |es|)] == idle
  }

  lemma VacantAt<T>(es: seq<T>, base: nat, count: nat, idle: T, i: nat)
    requires 0 < |es| && count <= i < |es| && Vacant(es, base, count, idle)
    ensures es[Wrap(base, i, |es|)] == idle
  {
  }

  /** Writing one slot changes exactly one element of the window. */
  lemma UpdateAt<T>(es: seq<T>, base: nat, count: nat, k: nat, e: T, idle: T)
    requires k < count <= |es| && Vacant(es, base, count, idle)
    ensures Window(es[Wrap(base, k, |es|) := e], base, count) == Window(es, base, count)[k := e]
    ensures Vacant(es[Wrap(base, k, |es|) := e], base, count, idle)
  {
    SlotsDistinct(base, k, |es|);
    hide Wrap;
  }

  lemma Push<T>(es: seq<T>, base: nat, count: nat, e: T, idle: T)
    requires count < |es| && Vacant(es, base, count, idle)
    ensures var t := es[Wrap(base, count, |es|) := e];
            && Window(t, base, count + 1) == Window(es, base, count) + [e]
            && Vacant(t, base, count + 1, idle)
  {
    SlotsDistinct(base, count, |es|);
    hide Wrap;
  }

  lemma Pop<T>(es: seq<T>, base: nat, count: nat, idle: T)
    requires 0 < count <= |es| && Vacant(es, base, count, idle)
    ensures var t := es[Wrap(base, 0, |es|) := idle];
            && Window(t, base + 1, count - 1) == Window(es, base, count)[1..]
            && Vacant(t, base + 1, count - 1, idle)
  {
    SlotsDistinct(base, 0, |es|);
    WrapFull(base, |es|);
    forall i {:trigger Wrap(base + 1, i, |es|)} | 0 <= i < |es|
      ensures Wrap(base + 1, i, |es|) == Wrap(base, i + 1, |es|)
    {
      WrapMoved(base, i, |es|);
    }
    hide Wrap;
  }
}
