/**
  The static area that pmm_buddy_init carves the bitmaps out of.  It has two bits for each page.  The bitmap of
  order 0 takes one bit for each page, and each further one half as many bytes as the one before.  Three orders below
  the top that is one byte; the top three orders are left with ranges of no bytes at all, which begin at the same
  place: the last byte of the area, which nothing ever sets.
*/
module BuddyBitmaps {

  import opened Buddy

  /** Bits in the range of an order. */
  function Length(top: nat, o: nat): nat {
    if o + 3 <= top then Pow2(top - o) else 0
  }

  /** Where the range of an order begins, in bits. */
  function Base(top: nat, o: nat): nat {
    if o == 0 then 0 else Base(top, o - 1) + Length(top, o - 1)
  }

  lemma {:induction false} BaseIs(top: nat, o: nat)
    requires top >= 3 && o <= top
    ensures Base(top, o) + (if o + 2 <= top then Pow2(top + 1 - o) else 8) == Pow2(top + 1)
  {
    if o > 0 {
      BaseIs(top, o - 1);
      if o + 2 == top + 1 {
        assert Pow2(3) == 2 * Pow2(2) && Pow2(2) == 2 * Pow2(1) && Pow2(1) == 2 * Pow2(0);
      }
    }
  }

  lemma {:induction false} BaseMonotone(top: nat, o: nat, p: nat)
    requires o < p
    ensures Base(top, o) + Length(top, o) <= Base(top, p)
  {
    if o + 1 < p {
      BaseMonotone(top, o, p - 1);
    }
  }

  lemma {:induction false} PowAtLeast(n: nat, m: nat)
    requires m <= n
    ensures Pow2(m) <= Pow2(n)
  {
    if m < n {
      PowAtLeast(n - 1, m);
    }
  }

  /** The bit of a block is in the area; for the top three orders it is in the last byte, and for no other. */
  lemma BitInArea(top: nat, o: nat, b: nat)
    requires top >= 3 && o <= top && b < Pow2(top - o)
    ensures Base(top, o) + b < Pow2(top + 1)
    ensures Base(top, o) + b >= Pow2(top + 1) - 8 <==> o + 2 >= top
  {
    BaseIs(top, o);
    assert Pow2(3) == 8 && Pow2(2) == 4;
    if o + 3 <= top {
      BaseIs(top, o + 1);
      assert Pow2(top + 1 - o) == 2 * Pow2(top - o);
      PowAtLeast(top - o, 3);
    } else {
      PowAtLeast(2, top - o);
    }
  }

  /** Below the top three orders no two blocks have the same bit. */
  lemma BitsApart(top: nat, o: nat, b: nat, p: nat, c: nat)
    requires o + 3 <= top && p + 3 <= top && b < Pow2(top - o) && c < Pow2(top - p)
    ensures Base(top, o) + b == Base(top, p) + c ==> o == p && b == c
  {
    if o < p {
      BaseMonotone(top, o, p);
    } else if p < o {
      BaseMonotone(top, p, o);
    }
  }

  /** The area holds the bitmaps of all orders but the top three, whose byte is zero. */
  ghost predicate Carved(area: seq<bool>, bases: seq<nat>, bits: seq<seq<bool>>, top: nat) {
    top >= 3 && |bases| == |bits| == top + 1 && |area| == Pow2(top + 1) &&
    (forall o | 0 <= o <= top :: bases[o] == Base(top, o)) &&
    (forall o: nat, b: nat | o + 3 <= top && b < Pow2(top - o) :: Shown(area, bits, top, o, b)) &&
    (forall j | 0 <= j < |area| && |area| - 8 <= j :: !area[j])
  }

  predicate Shown(area: seq<bool>, bits: seq<seq<bool>>, top: nat, o: nat, b: nat) {
    o < |bits| && b < |bits[o]| && Base(top, o) + b < |area| && area[Base(top, o) + b] == bits[o][b]
  }

  /** Testing the bit of a block: that of its bitmap, and zero in the top three orders. */
  lemma CarvedTest(area: seq<bool>, bases: seq<nat>, bits: seq<seq<bool>>, top: nat, o: nat, b: nat)
    requires Carved(area, bases, bits, top) && o <= top && b < Pow2(top - o)
    ensures o < |bases| && bases[o] + b < |area|
    ensures if o + 3 <= top then b < |bits[o]| && area[bases[o] + b] == bits[o][b] else !area[bases[o] + b]
  {
    hide Pow2, Base;
    BitInArea(top, o, b);
    if o + 3 <= top {
      assert Shown(area, bits, top, o, b);
    }
  }

  /** Assigning the bit of a block below the top three orders. */
  lemma CarvedSet(area: seq<bool>, bases: seq<nat>, bits: seq<seq<bool>>, top: nat, o: nat, b: nat, v: bool)
    requires Carved(area, bases, bits, top) && o + 3 <= top && b < Pow2(top - o)
    ensures o < |bases| == |bits| && b < |bits[o]| && bases[o] + b < |area|
    ensures Carved(area[bases[o] + b := v], bases, SetBit(bits, o, b, v), top)
  {
    hide Pow2, Base;
    CarvedTest(area, bases, bits, top, o, b);
    BitInArea(top, o, b);
    var area', bits' := area[bases[o] + b := v], SetBit(bits, o, b, v);
    forall p: nat, c: nat | p + 3 <= top && c < Pow2(top - p)
      ensures Shown(area', bits', top, p, c)
    {
      assert Shown(area, bits, top, p, c);
      BitsApart(top, o, b, p, c);
    }
  }

  /** What the loop of pmm_buddy_init has done before order i. */
  ghost predicate Carving(area: seq<bool>, bases: seq<nat>, top: nat, i: nat) {
    |area| == Pow2(top + 1) && |bases| == i && (forall o | 0 <= o < i :: bases[o] == Base(top, o)) &&
    forall j | 0 <= j < |area| :: area[j] == (j < Base(top, i))
  }

  function Filled(area: seq<bool>, start: nat, length: nat): (r: seq<bool>)
    requires start + length <= |area|
    ensures |r| == |area|
    ensures forall j | 0 <= j < |r| :: r[j] == (area[j] || start <= j < start + length)
  {
    area[..start] + seq(length, _ => true) + area[start + length..]
  }

  lemma CarvingNext(area: seq<bool>, bases: seq<nat>, top: nat, i: nat)
    requires top >= 3 && i <= top && Carving(area, bases, top, i)
    ensures Base(top, i) + Length(top, i) <= |area|
    ensures Carving(Filled(area, Base(top, i), Length(top, i)), bases + [Base(top, i)], top, i + 1)
  {
    BaseIs(top, i);
    if i + 3 <= top {
      assert Pow2(top + 1 - i) == 2 * Pow2(top - i);
    }
    hide Pow2, Filled;
  }

  lemma CarvingDone(area: seq<bool>, bases: seq<nat>, bits: seq<seq<bool>>, top: nat)
    requires top >= 3 && Carving(area, bases, top, top + 1) && |bits| == top + 1
    requires forall o | 0 <= o <= top :: |bits[o]| >= Pow2(top - o) && forall b | 0 <= b < |bits[o]| :: bits[o][b]
    ensures Carved(area, bases, bits, top)
  {
    hide Pow2, Base;
    BaseIs(top, top);
    assert Base(top, top + 1) == Base(top, top) by {
      BaseEnd(top);
    }
    forall o: nat, b: nat | o + 3 <= top && b < Pow2(top - o)
      ensures Shown(area, bits, top, o, b)
    {
      BitInArea(top, o, b);
    }
  }

  lemma BaseEnd(top: nat)
    ensures Base(top, top + 1) == Base(top, top)
  {
  }

  // memset is given bytes, half as many at each order
  lemma HalfLength(top: nat, i: nat)
    requires top >= 3
    ensures Length(top, i) == 8 * (Length(top, i) / 8) && Length(top, i + 1) / 8 == Length(top, i) / 8 / 2
  {
    if i + 3 <= top {
      EightTimes(top - i);
    }
    if i + 4 <= top {
      EightTimes(top - i - 1);
    }
  }

  lemma EightTimes(n: nat)
    requires n >= 3
    ensures Pow2(n) == 8 * Pow2(n - 3)
  {
    assert Pow2(n) == 2 * Pow2(n - 1) && Pow2(n - 1) == 2 * Pow2(n - 2) && Pow2(n - 2) == 2 * Pow2(n - 3);
  }
}
