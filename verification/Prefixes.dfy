/**
 Address prefixes in CIDR notation (section 3.1 of RFC 4632).

 A prefix is its leading address bits, read as a number, and how many of them there are; `width` is the
 number of bits of an address of the family (32 or 128).  Its meaning is the set of addresses it contains.
 */
module Prefixes {
  import opened Powers

  datatype Prefix = Prefix(bits: nat, length: nat)

  ghost predicate Valid(p: Prefix, width: nat) {
    p.length <= width && p.bits < Pow2(p.length)
  }

  /** `num_addresses`. */
  function Size(p: Prefix, width: nat): (n: nat)
    requires p.length <= width
    ensures n >= 1
  {
    Pow2(width - p.length)
  }

  /** `network_address`. */
  function First(p: Prefix, width: nat): nat
    requires p.length <= width
  {
    p.bits * Size(p, width)
  }

  /** `broadcast_address`. */
  function Last(p: Prefix, width: nat): (n: nat)
    requires p.length <= width
    ensures First(p, width) <= n
  {
    First(p, width) + Size(p, width) - 1
  }

  predicate Contains(p: Prefix, a: nat, width: nat) {
    p.length <= width && First(p, width) <= a <= Last(p, width)
  }

  /** `supernet()`: one bit shorter, and the whole space is its own supernet. */
  function Supernet(p: Prefix): Prefix {
    if p.length == 0 then p else Prefix(p.bits / 2, p.length - 1)
  }

  ghost predicate Siblings(p: Prefix, q: Prefix) {
    p != q && p.length == q.length && Supernet(p) == Supernet(q)
  }

  predicate Within(p: Prefix, q: Prefix, width: nat) {
    && p.length <= width && q.length <= width
    && First(q, width) <= First(p, width) && Last(p, width) <= Last(q, width)
  }

  ghost predicate Precedes(p: Prefix, q: Prefix, width: nat) {
    p.length <= width && q.length <= width && Last(p, width) < First(q, width)
  }

  ghost predicate Apart(p: Prefix, q: Prefix, width: nat) {
    Precedes(p, q, width) || Precedes(q, p, width)
  }

  /** A supernet is made of exactly two halves, the even-numbered one first. */
  lemma Halves(p: Prefix, width: nat)
    requires Valid(p, width) && p.length > 0
    ensures Valid(Supernet(p), width)
    ensures Size(Supernet(p), width) == 2 * Size(p, width)
    ensures First(p, width) == First(Supernet(p), width) + (p.bits % 2) * Size(p, width)
  {
    var s := Size(p, width);
    var q := p.bits / 2;
    assert p.bits == 2 * q + p.bits % 2;
    assert (2 * q + p.bits % 2) * s == q * (2 * s) + (p.bits % 2) * s;
  }

  lemma WithinSupernet(p: Prefix, width: nat)
    requires Valid(p, width)
    ensures Valid(Supernet(p), width) && Within(p, Supernet(p), width)
  {
    if p.length > 0 {
      Halves(p, width);
    }
  }

  lemma {:induction false} Multiples(a: nat, b: nat, s: nat)
    requires a < b
    ensures a * s + s <= b * s
  {
    assert (b - 1) * s + s == b * s;
    if a + 1 < b {
      Multiples(a, b - 1, s);
    }
  }

  lemma SameLength(p: Prefix, q: Prefix, width: nat)
    requires Valid(p, width) && Valid(q, width) && p.length == q.length && p.bits < q.bits
    ensures Precedes(p, q, width)
  {
    Multiples(p.bits, q.bits, Size(p, width));
  }

  /** The fact everything rests on: two prefixes are nested or have no address in common. */
  lemma {:induction false} NestedOrApart(p: Prefix, q: Prefix, width: nat)
    requires Valid(p, width) && Valid(q, width) && p.length <= q.length
    ensures Within(q, p, width) || Apart(p, q, width)
    decreases q.length - p.length
  {
    if p.length == q.length {
      if p.bits < q.bits {
        SameLength(p, q, width);
      } else if q.bits < p.bits {
        SameLength(q, p, width);
      }
    } else {
      WithinSupernet(q, width);
      NestedOrApart(p, Supernet(q), width);
    }
  }

  /** Every prefix stays inside the address space. */
  lemma InsideSpace(p: Prefix, width: nat)
    requires Valid(p, width)
    ensures Last(p, width) < Pow2(width)
  {
    Pow2Adds(p.length, width - p.length);
    assert p.length + (width - p.length) == width;
    Multiples(p.bits, Pow2(p.length), Size(p, width));
  }

  /** Two distinct valid prefixes with the same first address differ in length, the longer one inside. */
  lemma SameExtent(p: Prefix, q: Prefix, width: nat)
    requires Valid(p, width) && Valid(q, width)
    requires Within(p, q, width) && Within(q, p, width)
    ensures p == q
  {
    if p.length < q.length {
      Pow2Grows(width - q.length, width - p.length);
    } else if q.length < p.length {
      Pow2Grows(width - p.length, width - q.length);
    } else if p.bits < q.bits {
      SameLength(p, q, width);
    } else if q.bits < p.bits {
      SameLength(q, p, width);
    }
  }

  /** Within with a shorter-or-equal prefix reads off the lengths. */
  lemma WithinIsLonger(p: Prefix, q: Prefix, width: nat)
    requires Valid(p, width) && Valid(q, width) && Within(p, q, width)
    ensures q.length <= p.length
  {
    if p.length < q.length {
      Pow2Grows(width - q.length, width - p.length);
    }
  }
}
