/**
  The physical page allocator over the bitmaps as the kernel carves them.

  The bits of the top three orders are never set, so no block of these orders is ever handed out or put on a free
  list.  When both halves of a block of the third order from the top are free, the allocator takes them off their
  list, looks for the bit of the joined block, does not find it, and leaves the memory on no list at all.  Such a
  block is lost: in the labels it stays allocated, though nobody has it.
*/
module BuddyAllocator {

  import opened Common
  import opened Arith
  import opened Buddy
  import opened BuddyBitmaps

  // ----- what callers see

  /** The lowest of the orders whose bits are never set. */
  function Dead(k: Kinds): nat
    requires |k| >= 4
  {
    |k| - 3
  }

  /** No block of a dead order is free or handed out; one of the lowest dead order may be lost. */
  ghost predicate Cap(k: Kinds) {
    |k| >= 4 &&
    forall o, b | Dead(k) <= o < |k| && 0 <= b < |k[o]| ::
      if o == Dead(k) then Busy(KindAt(k, o, b)) else KindAt(k, o, b) == Split
  }

  /** A block that a caller has. */
  ghost predicate Outstanding(k: Kinds, o: nat, b: nat)
    requires |k| >= 4
  {
    o < Dead(k) && IsUsed(k, o, b)
  }

  /** A page that no caller has: it is on a free list, or lost. */
  ghost predicate Given(k: Kinds, x: nat)
    requires |k| >= 4
  {
    PageFree(k, x) || IsUsed(k, Dead(k), Anc(x, Dead(k)))
  }

  ghost predicate AllGiven(k: Kinds, o: nat, b: nat)
    requires |k| >= 4
  {
    forall x: nat | x < Pages(k) && InBlock(x, o, b) :: Given(k, x)
  }

  /** Block (o, b) has gone to a caller; no other page and no other caller's block has changed. */
  ghost predicate Lent(k: Kinds, k': Kinds, o: nat, b: nat) {
    SameShape(k, k') && |k| >= 4 && o < Dead(k) && b < |k[o]| && AllGiven(k, o, b) &&
    (forall x: nat :: Given(k', x) <==> Given(k, x) && !InBlock(x, o, b)) &&
    forall o': nat, b': nat :: Outstanding(k', o', b') <==> Outstanding(k, o', b') || (o' == o && b' == b)
  }

  /** Block (o, b) has come back from its caller; no other page and no other caller's block has changed. */
  ghost predicate Returned(k: Kinds, k': Kinds, o: nat, b: nat) {
    SameShape(k, k') && |k| >= 4 && Outstanding(k, o, b) &&
    (forall x: nat :: Given(k', x) <==> Given(k, x) || InBlock(x, o, b)) &&
    forall o': nat, b': nat :: Outstanding(k', o', b') <==> Outstanding(k, o', b') && !(o' == o && b' == b)
  }

  lemma {:induction false} AncBound(k: Kinds, x: nat, o: nat)
    requires Shape(k) && x < Pages(k) && o < |k|
    ensures Anc(x, o) < |k[o]|
  {
    if o > 0 {
      AncBound(k, x, o - 1);
      AncAdd(x, o - 1, 1);
      assert |k[o - 1]| == 2 * |k[o]|;
    }
  }

  /** Every page lies in a block that is free or allocated. */
  lemma {:induction false} Owner(k: Kinds, x: nat, o: nat) returns (p: nat)
    requires Inv(k) && x < Pages(k) && o < |k| && KindAt(k, o, Anc(x, o)) != Below
    ensures p <= o && Whole(KindAt(k, p, Anc(x, p)))
  {
    p := o;
    if KindAt(k, o, Anc(x, o)) == Split {
      AncAdd(x, o - 1, 1);
      var c := Anc(x, o);
      assert Family(KindAt(k, o, c), KindAt(k, o - 1, 2 * c), KindAt(k, o - 1, 2 * c + 1));
      assert Anc(x, o - 1) == 2 * c || Anc(x, o - 1) == 2 * c + 1;
      p := Owner(k, x, o - 1);
    }
  }

  /** A page is given back exactly when it lies in no block that a caller has. */
  lemma GivenIs(k: Kinds, x: nat)
    requires Inv(k) && Cap(k) && x < Pages(k)
    ensures Given(k, x) <==> forall o: nat | o < Dead(k) :: !Outstanding(k, o, Anc(x, o))
  {
    if Given(k, x) {
      var p: nat :| p < |k| && Whole(KindAt(k, p, Anc(x, p))) && (KindAt(k, p, Anc(x, p)) == Free || p == Dead(k));
      forall o: nat | o < Dead(k)
        ensures !Outstanding(k, o, Anc(x, o))
      {
        if IsUsed(k, o, Anc(x, o)) {
          LeavesDisjoint(k, o, Anc(x, o), p, Anc(x, p), x);
        }
      }
    } else {
      AncBound(k, x, |k| - 1);
      var p := Owner(k, x, |k| - 1);
      AncBound(k, x, p);
      assert p < Dead(k) ==> Outstanding(k, p, Anc(x, p));
    }
  }

  /** A block is lost exactly when all its pages have been given back. */
  lemma LostExactly(k: Kinds, c: nat)
    requires Inv(k) && Cap(k) && c < |k[Dead(k)]|
    ensures IsUsed(k, Dead(k), c) <==> AllGiven(k, Dead(k), c)
  {
    assert Busy(KindAt(k, Dead(k), c));
    if !IsUsed(k, Dead(k), c) {
      var x := BusyPage(k, Dead(k), c);
      assert !Given(k, x);
    }
  }

  /**
    The pages of a block can be allocated exactly if they are given back and the block of the dead order around them is
    not lost.
  */
  lemma FreeIsGiven(k: Kinds, o: nat, b: nat)
    requires Inv(k) && Cap(k) && o < Dead(k) && b < |k[o]|
    ensures AllFree(k, o, b) <==> AllGiven(k, o, b) && !AllGiven(k, Dead(k), Anc(b, Dead(k) - o))
  {
    var x := Down(b, o);
    DownAnc(b, o);
    DownBound(k, o, b, o);
    AncAdd(x, o, Dead(k) - o);
    AncBound(k, x, Dead(k));
    var c := Anc(b, Dead(k) - o);
    LostExactly(k, c);
    if IsUsed(k, Dead(k), c) {
      UsedPageNotFree(k, Dead(k), c, x);
    } else {
      forall y: nat | y < Pages(k) && InBlock(y, o, b)
        ensures PageFree(k, y) <==> Given(k, y)
      {
        AncAdd(y, o, Dead(k) - o);
      }
    }
  }

  // ----- when the allocator is a buddy allocator

  /** Free lists as the design has them: exactly the maximal aligned blocks of pages that have been given back. */
  ghost predicate ListsCanonical(k: Kinds)
    requires |k| >= 4
  {
    forall o: nat, b: nat | o < |k| && b < |k[o]| :: ListedRight(k, o, b)
  }

  ghost predicate ListedRight(k: Kinds, o: nat, b: nat)
    requires |k| >= 4
  {
    KindAt(k, o, b) == Free <==> AllGiven(k, o, b) && (o == |k| - 1 || !AllGiven(k, o + 1, b / 2))
  }

  /** Some aligned run of 2^(top - 2) pages, a quarter of all memory, has been given back as a whole. */
  ghost predicate WholeRun(k: Kinds)
    requires |k| >= 4
  {
    exists c: nat :: c < |k[Dead(k)]| && AllGiven(k, Dead(k), c)
  }

  /** Climbing from a block whose pages are all given back to the largest such block. */
  lemma {:induction false} Largest(k: Kinds, o: nat, b: nat) returns (p: nat, c: nat)
    requires Shape(k) && |k| >= 4 && o < |k| && b < |k[o]| && AllGiven(k, o, b)
    ensures o <= p < |k| && c < |k[p]| && AllGiven(k, p, c) && (p == |k| - 1 || !AllGiven(k, p + 1, c / 2))
    decreases |k| - o
  {
    p, c := o, b;
    if o < |k| - 1 && AllGiven(k, o + 1, b / 2) {
      assert |k[o + 1 - 1]| == 2 * |k[o + 1]|;
      p, c := Largest(k, o + 1, b / 2);
    }
  }

  lemma NoLossSame(k: Kinds, o: nat, b: nat)
    requires Inv(k) && Cap(k) && !WholeRun(k) && o < |k| && b < |k[o]|
    ensures AllGiven(k, o, b) <==> AllFree(k, o, b)
  {
    forall x: nat | x < Pages(k)
      ensures Given(k, x) <==> PageFree(k, x)
    {
      AncBound(k, x, Dead(k));
      LostExactly(k, Anc(x, Dead(k)));
    }
  }

  /**
    The free lists are the maximal blocks of pages given back exactly while no aligned run of 2^(top - 2) pages has
    been given back as a whole.
  */
  lemma CanonicalExactly(k: Kinds)
    requires Inv(k) && Cap(k)
    ensures ListsCanonical(k) <==> !WholeRun(k)
  {
    if WholeRun(k) {
      var c: nat :| c < |k[Dead(k)]| && AllGiven(k, Dead(k), c);
      var p, d := Largest(k, Dead(k), c);
      assert Busy(KindAt(k, p, d));
      assert !ListedRight(k, p, d);
    } else {
      forall o: nat, b: nat | o < |k| && b < |k[o]|
        ensures ListedRight(k, o, b)
      {
        Canonical(k, o, b);
        NoLossSame(k, o, b);
        if o < |k| - 1 {
          assert |k[o + 1 - 1]| == 2 * |k[o + 1]|;
          NoLossSame(k, o + 1, b / 2);
        }
      }
    }
  }

  /** The pages given back alone decide every free list: the order of frees does not matter, lost blocks or not. */
  lemma SameGivenSameLists(k: Kinds, k': Kinds)
    requires Inv(k) && Cap(k) && Inv(k') && Cap(k') && SameShape(k, k')
    requires forall x: nat | x < Pages(k) :: Given(k, x) <==> Given(k', x)
    ensures forall o, b :: KindAt(k, o, b) == Free <==> KindAt(k', o, b) == Free
  {
    forall x: nat | x < Pages(k)
      ensures PageFree(k, x) <==> PageFree(k', x)
    {
      var c := Anc(x, Dead(k));
      AncBound(k, x, Dead(k));
      LostExactly(k, c);
      LostExactly(k', c);
      assert AllGiven(k, Dead(k), c) <==> AllGiven(k', Dead(k), c);
      assert Given(k, x) <==> Given(k', x);
      if IsUsed(k, Dead(k), c) {
        UsedPageNotFree(k, Dead(k), c, x);
        UsedPageNotFree(k', Dead(k), c, x);
      }
    }
    SamePagesSameLists(k, k');
  }

  // ----- how much is lost

  function UsedCount(s: seq<Kind>): nat {
    if s == [] then 0 else UsedCount(s[1..]) + if s[0] == Used then 1 else 0
  }

  lemma {:induction false} UsedCountSame(s: seq<Kind>, t: seq<Kind>)
    requires |s| == |t| && forall i | 0 <= i < |s| :: s[i] == Used <==> t[i] == Used
    ensures UsedCount(s) == UsedCount(t)
  {
    if s != [] {
      UsedCountSame(s[1..], t[1..]);
    }
  }

  lemma {:induction false} UsedCountSet(s: seq<Kind>, b: nat)
    requires b < |s| && s[b] != Used
    ensures UsedCount(s[b := Used]) == UsedCount(s) + 1
  {
    if b > 0 {
      assert s[b := Used][1..] == s[1..][b - 1 := Used];
      UsedCountSet(s[1..], b - 1);
    } else {
      assert s[b := Used][1..] == s[1..];
    }
  }

  lemma {:induction false} UsedCountNone(s: seq<Kind>)
    ensures UsedCount(s) == 0 <==> forall i | 0 <= i < |s| :: s[i] != Used
  {
    if s != [] {
      UsedCountNone(s[1..]);
      assert s == [s[0]] + s[1..];
      if UsedCount(s) == 0 {
        forall i | 0 <= i < |s|
          ensures s[i] != Used
        {
          assert i > 0 ==> s[i] == s[1..][i - 1];
        }
      } else if s[0] != Used {
        var i :| 0 <= i < |s[1..]| && s[1..][i] == Used;
        assert s[i + 1] == Used;
      }
    }
  }

  /** Pages lost. */
  ghost function LostSize(k: Kinds): nat
    requires |k| >= 4
  {
    UsedCount(k[Dead(k)]) * Pow2(Dead(k))
  }

  lemma LostSame(k: Kinds, k': Kinds)
    requires SameShape(k, k') && |k| >= 4
    requires forall c: nat :: IsUsed(k, Dead(k), c) <==> IsUsed(k', Dead(k), c)
    ensures LostSize(k) == LostSize(k')
  {
    var o := Dead(k);
    forall i: nat | i < |k[o]|
      ensures k[o][i] == Used <==> k'[o][i] == Used
    {
      assert IsUsed(k, o, i) <==> IsUsed(k', o, i);
    }
    UsedCountSame(k[o], k'[o]);
  }

  /** Memory is lost exactly when an aligned run of 2^(top - 2) pages has been given back as a whole. */
  lemma LostSizeExactly(k: Kinds)
    requires Inv(k) && Cap(k)
    ensures LostSize(k) == 0 <==> !WholeRun(k)
  {
    var o := Dead(k);
    UsedCountNone(k[o]);
    forall c: nat | c < |k[o]|
      ensures k[o][c] == Used <==> AllGiven(k, o, c)
    {
      LostExactly(k, c);
    }
    Positive(UsedCount(k[o]), Pow2(o));
  }

  lemma Positive(n: nat, p: nat)
    requires p >= 1
    ensures n * p == 0 <==> n == 0
  {
    if n > 0 {
      MulAtLeast(n, p);
    }
  }

  // ----- the steps

  lemma CapSet(k: Kinds, o: nat, b: nat, v: Kind)
    requires Cap(k) && o < Dead(k) && b < |k[o]|
    ensures Cap(Set(k, o, b, v)) && LostSize(Set(k, o, b, v)) == LostSize(k)
  {
    SetAt(k, o, b, v);
    hide Set, KindAt;
    LostSame(k, Set(k, o, b, v));
  }

  lemma CapHalved(k: Kinds, o: nat, b: nat)
    requires Shape(k) && Cap(k) && 0 < o < Dead(k) && b < |k[o]| && 2 * b + 1 < |k[o - 1]|
    ensures Cap(Halved(k, o, b)) && LostSize(Halved(k, o, b)) == LostSize(k)
  {
    HalvedAt(k, o, b);
    hide Halved, KindAt;
    LostSame(k, Halved(k, o, b));
  }

  lemma CapJoined(k: Kinds, o: nat, b: nat)
    requires Shape(k) && Cap(k) && o < Dead(k) && b < |k[o]| && Sib(b) < |k[o]| && b / 2 < |k[o + 1]|
    requires KindAt(k, o + 1, b / 2) == Split
    ensures Cap(Joined(k, o, b))
    ensures LostSize(Joined(k, o, b)) == LostSize(k) + if o + 1 == Dead(k) then Pow2(o + 1) else 0
  {
    JoinedAt(k, o, b);
    if o + 1 == Dead(k) {
      UsedCountSet(k[o + 1], b / 2);
      MulSucc(UsedCount(k[o + 1]), Pow2(o + 1));
      assert Joined(k, o, b)[o + 1] == k[o + 1][b / 2 := Used];
    } else {
      hide Joined, KindAt;
      LostSame(k, Joined(k, o, b));
    }
  }

  // A free list of a dead order is empty.
  lemma DeadEmpty(k: Kinds, bits: seq<seq<bool>>, free: seq<seq<nat>>, o: nat)
    requires Ties(k, bits, free) && Cap(k) && Dead(k) <= o < |k|
    ensures free[o] == []
  {
    if free[o] != [] {
      var b := TopBlock(k, free, o);
    }
  }

  lemma DeadNone(k: Kinds, o: nat)
    requires Cap(k) && Dead(k) <= o
    ensures !FreeAtLeast(k, o)
  {
  }

  lemma TookLent(k: Kinds, k': Kinds, o: nat, b: nat)
    requires Inv(k) && Cap(k) && Took(k, k', o, b) && o < Dead(k)
    ensures Lent(k, k', o, b)
  {
    forall x: nat
      ensures Given(k', x) <==> Given(k, x) && !InBlock(x, o, b)
    {
      if IsUsed(k, Dead(k), Anc(x, Dead(k))) {
        UsedPageNotFree(k, Dead(k), Anc(x, Dead(k)), x);
      }
    }
    hide Inv, PageFree;
  }

  lemma GaveReturned(k: Kinds, k': Kinds, o: nat, b: nat)
    requires Cap(k) && Gave(k, k', o, b) && o < Dead(k)
    ensures Returned(k, k', o, b)
  {
    hide Inv, PageFree, InBlock;
  }

  // The free buddy's pages are given back, and they are the rest of the joined block.
  lemma JoinReturned(k: Kinds, k1: Kinds, k2: Kinds, o: nat, b: nat)
    requires Inv(k) && Cap(k) && IsUsed(k, o, b) && KindAt(k, o, Sib(b)) == Free && o + 1 < Dead(k)
    requires b < |k[o]| && Sib(b) < |k[o]| && b / 2 < |k[o + 1]|
    requires k1 == Joined(k, o, b) && Returned(k1, k2, o + 1, b / 2)
    ensures Returned(k, k2, o, b)
  {
    var j := Join(k, o, b);
    JoinedAt(k, o, b);
    forall x: nat
      ensures Given(k2, x) <==> Given(k, x) || InBlock(x, o, b)
    {
      InHalves(x, o, b / 2);
      if InBlock(x, o, Sib(b)) {
        assert KindAt(k, o, Anc(x, o)) == Free;
      }
    }
    hide Inv, PageFree, InBlock, Joined, KindAt;
    forall o': nat, b': nat
      ensures Outstanding(k2, o', b') <==> Outstanding(k, o', b') && !(o' == o && b' == b)
    {
      JoinUsed(k, o, b, o', b');
      assert Outstanding(k2, o', b') <==> Outstanding(k1, o', b') && !(o' == o + 1 && b' == b / 2);
    }
  }

  lemma JoinUsed(k: Kinds, o: nat, b: nat, o': nat, b': nat)
    requires Inv(k) && IsUsed(k, o, b) && KindAt(k, o, Sib(b)) == Free && o + 1 < |k|
    requires b < |k[o]| && Sib(b) < |k[o]| && b / 2 < |k[o + 1]|
    ensures IsUsed(Joined(k, o, b), o', b') <==>
              (IsUsed(k, o', b') && !(o' == o && b' == b)) || (o' == o + 1 && b' == b / 2)
    ensures !IsUsed(k, o + 1, b / 2)
  {
    JoinedAt(k, o, b);
    ParentRule(k, o, b);
  }

  // Joining into a block of a dead order: the block is lost.
  lemma JoinLost(k: Kinds, o: nat, b: nat)
    requires Inv(k) && Cap(k) && IsUsed(k, o, b) && KindAt(k, o, Sib(b)) == Free && o + 1 == Dead(k)
    requires b < |k[o]| && Sib(b) < |k[o]| && b / 2 < |k[o + 1]|
    ensures Returned(k, Joined(k, o, b), o, b)
  {
    var k1 := Join(k, o, b);
    JoinedAt(k, o, b);
    forall x: nat
      ensures Given(k1, x) <==> Given(k, x) || InBlock(x, o, b)
    {
      InHalves(x, o, b / 2);
      JoinUsed(k, o, b, o + 1, Anc(x, o + 1));
      if InBlock(x, o, Sib(b)) {
        assert KindAt(k, o, Anc(x, o)) == Free;
      }
    }
    hide Inv, PageFree, InBlock, Joined, KindAt;
    forall o': nat, b': nat
      ensures Outstanding(k1, o', b') <==> Outstanding(k, o', b') && !(o' == o && b' == b)
    {
      JoinUsed(k, o, b, o', b');
    }
  }

  // ----- finding bits

  // bitmap_test
  function Test(area: seq<bool>, bases: seq<nat>, o: nat, bit: nat): bool {
    o < |bases| && bases[o] + bit < |area| && area[bases[o] + bit]
  }

  lemma BlockBound(x: nat, o: nat, top: nat)
    requires o <= top && x < Pow2(top)
    ensures Block(o, x) < Pow2(top - o)
  {
    var q, p := Block(o, x), Pow2(o);
    assert q * p <= x;
    PowProduct(o, top - o);
    if q >= Pow2(top - o) {
      MulMono(Pow2(top - o), q, p);
    }
  }

  // The address of a block is inside memory.
  lemma BlockInMemory(k: Kinds, o: nat, b: nat)
    requires Shape(k) && IsUsed(k, o, b)
    ensures o < |k| && b < |k[o]| && Addr(o, b) < Pow2(|k| - 1)
  {
    hide Pow2, Addr;
    UsedInRange(k, o, b);
    ShapePow(k, o);
    AddrBound(o, b, |k| - 1);
  }

  // The bit that the search of deallocate tests at an order.
  lemma TestSearch(area: seq<bool>, bases: seq<nat>, k: Kinds, bits: seq<seq<bool>>, free: seq<seq<nat>>, order: nat,
                   o: nat, b: nat)
    requires Ties(k, bits, free) && Cap(k) && Carved(area, bases, bits, |k| - 1) && order <= o && Outstanding(k, o, b)
    ensures Test(area, bases, order, Block(order, Addr(o, b))) <==> order == o
    ensures order == o ==> Block(order, Addr(o, b)) == b < |k[o]| == Pow2(|k| - 1 - o)
  {
    hide Pow2, Addr, Block, Carved, BitsTie, ListsTie, KindAt;
    BlockInMemory(k, o, b);
    BlockBound(Addr(o, b), order, |k| - 1);
    CarvedTest(area, bases, bits, |k| - 1, order, Block(order, Addr(o, b)));
    SearchBit(k, bits, free, order, o, b);
    ShapePow(k, o);
  }

  // The buddy's bit, after the bit of the block itself has been cleared.
  lemma TestBuddy(area: seq<bool>, bases: seq<nat>, k: Kinds, bits: seq<seq<bool>>, free: seq<seq<nat>>, o: nat, b: nat)
    requires Ties(k, bits, free) && Cap(k) && Carved(area, bases, bits, |k| - 1) && Outstanding(k, o, b)
    ensures o < |bits| && b < |bits[o]| && o < |bases| && bases[o] + b < |area|
    ensures Carved(area[bases[o] + b := false], bases, SetBit(bits, o, b, false), |k| - 1)
    ensures Test(area[bases[o] + b := false], bases, o, Sib(b)) <==> KindAt(k, o, Sib(b)) != Free
  {
    hide Pow2, Addr, Block, Carved, BitsTie, ListsTie, KindAt;
    UsedInRange(k, o, b);
    assert |k[o + 1 - 1]| == 2 * |k[o + 1]|;
    ShapePow(k, o);
    CarvedSet(area, bases, bits, |k| - 1, o, b, false);
    BuddyBit(k, bits, free, o, b);
    CarvedTest(area[bases[o] + b := false], bases, SetBit(bits, o, b, false), |k| - 1, o, Sib(b));
  }

  // A block of a dead order is looked for in vain.
  lemma TestDead(area: seq<bool>, bases: seq<nat>, bits: seq<seq<bool>>, top: nat, x: nat, o: nat)
    requires Carved(area, bases, bits, top) && x < Pow2(top) && top - 2 <= o <= top
    ensures !Test(area, bases, o, Block(o, x))
  {
    hide Pow2, Block, Carved;
    BlockBound(x, o, top);
    CarvedTest(area, bases, bits, top, o, Block(o, x));
  }

  // The bit that an allocation sets.
  lemma TestTaken(area: seq<bool>, bases: seq<nat>, bits: seq<seq<bool>>, k: Kinds, o: nat, b: nat)
    requires Shape(k) && |k| >= 4 && Carved(area, bases, bits, |k| - 1) && o < Dead(k) && b < |k[o]|
    requires o < |bits| && b < |bits[o]| && !bits[o][b]
    ensures o < |bases| && bases[o] + b < |area| && !area[bases[o] + b]
    ensures Carved(area[bases[o] + b := true], bases, SetBit(bits, o, b, true), |k| - 1)
  {
    hide Pow2, Carved;
    ShapePow(k, o);
    CarvedTest(area, bases, bits, |k| - 1, o, b);
    CarvedSet(area, bases, bits, |k| - 1, o, b, true);
  }

  // What the search for a joined block meets, when the block is of a dead order.
  lemma LookAbove(area: seq<bool>, bases: seq<nat>, k: Kinds, bits: seq<seq<bool>>, free: seq<seq<nat>>, o: nat, b: nat)
    requires Ties(k, bits, free) && |k| >= 4 && Carved(area, bases, bits, |k| - 1) && IsUsed(k, o, b)
    ensures Addr(o, b) < Pow2(|k| - 1)
    ensures o >= Dead(k) ==> forall p: nat | o <= p < |k| :: !Test(area, bases, p, Block(p, Addr(o, b)))
  {
    hide Pow2, Addr, Block, Carved, Test, BitsTie, ListsTie, KindAt;
    BlockInMemory(k, o, b);
    if o >= Dead(k) {
      forall p: nat | o <= p < |k|
        ensures !Test(area, bases, p, Block(p, Addr(o, b)))
      {
        TestDead(area, bases, bits, |k| - 1, Addr(o, b), p);
      }
    }
  }

  lemma SizesOf(k: Kinds, bits: seq<seq<bool>>, free: seq<seq<nat>>)
    requires Ties(k, bits, free) && Cap(k)
    ensures |k| >= 4 && |bits| == |free| == |k| && Inv(k) && Shape(k)
  {
    hide KindAt;
  }

  lemma CutCap(k: Kinds, bits: seq<seq<bool>>, free: seq<seq<nat>>, o: nat, p: nat)
    requires Ties(k, bits, free) && Cap(k) && o + 1 < Dead(k) && p < |k[o + 1]| && 2 * p + 1 < |k[o]|
    ensures Cap(Halved(k, o + 1, p)) && LostSize(Halved(k, o + 1, p)) == LostSize(k)
  {
    hide KindAt, LostSize;
    CapHalved(k, o + 1, p);
  }

  lemma JoinCap(k: Kinds, bits: seq<seq<bool>>, free: seq<seq<nat>>, o: nat, b: nat)
    requires Ties(k, bits, free) && Cap(k) && Outstanding(k, o, b) && b < |k[o]| && Sib(b) < |k[o]| &&
             b / 2 < |k[o + 1]|
    ensures Cap(Joined(k, o, b))
    ensures LostSize(Joined(k, o, b)) == LostSize(k) + if o + 1 == Dead(k) then Pow2(o + 1) else 0
  {
    hide LostSize, Pow2;
    ParentRule(k, o, b);
    CapJoined(k, o, b);
  }

  // the loop of pmm_buddy_init over the static area, which is zero at first
  method Carve(top: nat) returns (area: seq<bool>, bases: seq<nat>)
    requires top >= 3
    ensures Carving(area, bases, top, top + 1)
  {
    hide Pow2, Base, Length, Filled, Carving;
    area, bases := seq(Pow2(top + 1), _ => false), [];
    StartsCarving(area, top);
    var at, length, i := 0, Pow2(top) / 8, 0;
    while i <= top
      invariant i <= top + 1 && at == Base(top, i) && length == Length(top, i) / 8 && Carving(area, bases, top, i)
    {
      HalfLength(top, i);
      CarvingNext(area, bases, top, i);
      BaseNext(top, i);
      bases := bases + [at];
      area := Filled(area, at, 8 * length);
      at, length, i := at + 8 * length, length / 2, i + 1;
    }
  }

  class Allocator {
    const top: nat                 // MAX_ORDER
    const start: nat               // MIN_PHYS_MEM
    var area: seq<bool>            // static_bitmaps
    var bases: seq<nat>            // bitmaps[order], as places in the area
    var free: seq<seq<nat>>        // freelists[order], top of the stack last
    var num: seq<int>              // num_allocated[order]
    var freeMemory: int
    var totalMemory: int
    ghost var k: Kinds
    ghost var bits: seq<seq<bool>>

    ghost predicate Ready()
      reads this
    {
      Ties(k, bits, free) && Cap(k) && |bits| == |free| == |num| == |k| == top + 1 && Carved(area, bases, bits, top)
    }

    /** Between calls: the counters agree with the labels, and free memory counts what is listed and what is lost. */
    ghost predicate Valid()
      reads this
    {
      Ready() && (forall o: nat | o < |k| :: Slack(k, num, o) == 0) &&
      freeMemory == FreeSize(free, |free|) + LostSize(k) <= totalMemory
    }

    /**
      The lists are canonical, and free memory is what is on the lists, exactly while no aligned run of 2^(top - 2)
      pages has been given back as a whole.
    */
    lemma RightExactly()
      requires Valid()
      ensures ListsCanonical(k) <==> !WholeRun(k)
      ensures freeMemory == FreeSize(free, |free|) <==> !WholeRun(k)
    {
      hide Cap, KindAt, FreeSize, LostSize, Carved, Slack, WholeRun, ListsCanonical;
      SizesOf(k, bits, free);
      CanonicalExactly(k);
      LostSizeExactly(k);
    }

    // __do_pmm_buddy_allocate; running past the top order is its "out of physical memory" panic
    method Alloc(order: nat) returns (r: Option<nat>, ghost b: nat)
      requires Ready()
      modifies this`area, this`free, this`num, this`k, this`bits
      ensures Ready() && |k| == |old(k)|
      ensures r.None? <==> !FreeAtLeast(old(k), order)
      ensures r.None? ==> unchanged(this)
      ensures r.Some? ==> order < Dead(k) && r.value == Addr(order, b) && Took(old(k), k, order, b)
      ensures r.Some? ==> FreeSize(free, |free|) == old(FreeSize(free, |free|)) - Pow2(order)
      ensures LostSize(k) == LostSize(old(k)) && SameSlack(old(k), old(num), k, num)
      ensures forall j: nat | j < order && j < |free| :: free[j] == old(free)[j]
      decreases top + 1 - order
    {
      hide Ties, Took, KindAt, Addr, Pow2, FreeSize, Slack, Block, Carved, Cap, LostSize, Inv, Set, Halved, FreeAtLeast;
      b := 0;
      SizesOf(k, bits, free);
      if order > top {
        NothingHere(k, bits, free, order);
        return None, b;
      }
      ghost var k0, cut := k, free[order] == [];
      ghost var p, lists := 0, free;
      if free[order] == [] {
        NothingHere(k, bits, free, order);
        var up;
        up, p := Alloc(order + 1);
        if up.None? {
          return None, b;
        }
        var a := up.value;
        AddrHalves(order, p);
        AddrHalves(order, 2 * p);
        lists := free;
        var list := free[order];
        FreeSizeStep(free, order, [a]);
        list := list + [a];
        list := list + [a + Pow2(order)];
        assert list[..1] == [a];
        free := free[order := list];
      } else {
        SomethingHere(k, bits, free, order);
        FreeSizeStep(free, order, free[order][..|free[order]| - 1]);
        if order >= Dead(k) {
          DeadEmpty(k, bits, free, order);
        }
      }
      var last := |free[order]| - 1;
      var address := free[order][last];
      free := free[order := free[order][..last]];
      ghost var k1 := k;
      if cut {
        assert free == lists[order := [Addr(order, 2 * p)]];
        ghost var k' := CutTies(k0, k, bits, lists, num, order, p);
        CutCap(k1, bits, lists, order, p);
        k, b := k', 2 * p + 1;
      } else {
        assert free == lists[order := lists[order][..|lists[order]| - 1]];
        ghost var b', k' := TakeTies(k, bits, lists, num, order);
        CapSet(k, order, b', Used);
        k, b := k', b';
      }
      AddrDiv(order, b);
      var bit := Block(order, address);
      SizesOf(k1, bits, lists);
      TestTaken(area, bases, bits, k1, order, b);
      assert !area[bases[order] + bit];
      area := area[bases[order] + bit := true];
      bits := SetBit(bits, order, bit, true);
      num := num[order := num[order] + 1];
      return Some(address), b;
    }

    // deallocate: climb to the order whose bit is set, clear it, then push the block or join it with its
    // buddy.  The ghost argument names the outstanding block at this address, if there is one.
    method Dealloc(address: nat, order: nat, ghost at: Option<(nat, nat)>) returns (r: int)
      requires Ready() && address < Pow2(top)
      requires at.Some? ==> order <= at.value.0 && Outstanding(k, at.value.0, at.value.1)
      requires at.Some? ==> address == Addr(at.value.0, at.value.1)
      requires at.None? ==> forall o: nat | order <= o <= top :: !Test(area, bases, o, Block(o, address))
      modifies this`area, this`free, this`num, this`k, this`bits
      ensures Ready() && |k| == |old(k)|
      ensures at.None? ==> r == -1 && unchanged(this)
      ensures at.Some? ==> r == at.value.0 && Returned(old(k), k, at.value.0, at.value.1)
      ensures at.Some? ==>
                FreeSize(free, |free|) + LostSize(k) == old(FreeSize(free, |free|)) + LostSize(old(k)) +
                Pow2(at.value.0)
      ensures SameSlack(old(k), old(num), k, num)
      decreases top + 1 - order, 2
    {
      hide Ties, KindAt, Addr, Pow2, FreeSize, Block, Inv, Slack, Carved, Cap, LostSize, Returned, Test;
      SizesOf(k, bits, free);
      if at.Some? {
        UsedInRange(k, at.value.0, at.value.1);
        TestSearch(area, bases, k, bits, free, order, at.value.0, at.value.1);
      }
      if order > top {
        return -1;
      }
      if !Test(area, bases, order, Block(order, address)) {
        r := Dealloc(address, order + 1, at);
        return;
      }
      ClearAndMerge(address, order, at.value.1);
      return order;
    }

    // the other branch of deallocate: the bit is set
    method ClearAndMerge(address: nat, order: nat, ghost b: nat)
      requires Ready() && Outstanding(k, order, b) && address == Addr(order, b) && Block(order, address) == b
      modifies this`area, this`free, this`num, this`k, this`bits
      ensures Ready() && |k| == |old(k)| && Returned(old(k), k, order, b)
      ensures FreeSize(free, |free|) + LostSize(k) == old(FreeSize(free, |free|)) + LostSize(old(k)) + Pow2(order)
      ensures SameSlack(old(k), old(num), k, num)
      decreases top + 1 - order, 1
    {
      hide Ties, Gave, KindAt, Addr, Pow2, FreeSize, Block, FlipBit, Joined, Inv, Slack, Carved, Cap, LostSize,
        Returned, Set, Test;
      SizesOf(k, bits, free);
      var buddy := FlipBit(address, order);
      BuddyAddr(order, b);
      AddrDiv(order, Sib(b));
      ghost var k0, bits0, free0, num0 := k, bits, free, num;
      TestBuddy(area, bases, k, bits, free, order, b);
      area := area[bases[order] + Block(order, address) := false];
      bits := SetBit(bits, order, b, false);
      if !Test(area, bases, order, Block(order, buddy)) {
        Merge(address, buddy, order, b, bits0);
      } else {
        FreeSizeStep(free, order, free[order] + [address]);
        k := GiveTies(k0, bits0, free0, num0, order, b);
        CapSet(k0, order, b, Free);
        GaveReturned(k0, k, order, b);
        free := free[order := free[order] + [address]];
      }
      num := num[order := num[order] - 1];
    }

    // the buddy is free: it leaves its list, and the joined block is freed one order up
    method Merge(address: nat, buddy: nat, order: nat, ghost b: nat, ghost bits0: seq<seq<bool>>)
      requires Ties(k, bits0, free) && Cap(k) && |bits0| == |free| == |num| == |k| == top + 1
      requires Outstanding(k, order, b) && KindAt(k, order, Sib(b)) == Free && order < |bits0| && b < |bits0[order]|
      requires bits == SetBit(bits0, order, b, false) && Carved(area, bases, bits, top)
      requires address == Addr(order, b) && buddy == Addr(order, Sib(b))
      modifies this`area, this`free, this`num, this`k, this`bits
      ensures Ready() && |k| == |old(k)| && Returned(old(k), k, order, b)
      ensures FreeSize(free, |free|) + LostSize(k) == old(FreeSize(free, |free|)) + LostSize(old(k)) + Pow2(order)
      ensures SameSlack(old(k), old(num), k, num[order := num[order] - 1])
      decreases top + 1 - order, 0
    {
      hide Ties, KindAt, Addr, Pow2, FreeSize, Block, Joined, Inv, Slack, Carved, Cap, LostSize, Returned, Test;
      SizesOf(k, bits0, free);
      ghost var k0, num0 := k, num;
      k := JoinTies(k0, bits0, free, num0, order, b);
      FreeSizeStep(free, order, StackDelete(free[order], buddy));
      JoinCap(k0, bits0, free, order, b);
      free := free[order := StackDelete(free[order], buddy)];
      ghost var k1 := k;
      AddrHalves(order, b / 2);
      BuddyAddr(order, b);
      ghost var next := if order + 1 < Dead(k) then Some((order + 1, b / 2)) else None;
      LookAbove(area, bases, k, bits, free, order + 1, b / 2);
      var _ := Dealloc(if buddy > address then address else buddy, order + 1, next);
      if next.Some? {
        JoinReturned(k0, k1, k, order, b);
      } else {
        JoinLost(k0, order, b);
      }
      SlackLater(k0, num0, k1, k, num, order);
    }

    /** pmm_buddy_init: the bitmaps are carved and set, the free lists are empty, so every page counts as allocated. */
    constructor (maxOrder: nat, minPhys: nat)
      requires maxOrder >= 3
      ensures Valid() && top == maxOrder && start == minPhys && freeMemory == 0
      ensures Pages(k) == Pow2(top) && forall o: nat, b: nat :: Outstanding(k, o, b) <==> o == 0 && b < Pow2(top)
    {
      top, start := maxOrder, minPhys;
      var bitmaps, places := Carve(maxOrder);
      area, bases := bitmaps, places;
      free := seq(maxOrder + 1, _ => []);
      num := BlockCounts(maxOrder);
      freeMemory, totalMemory := 0, 0;
      k, bits := AllUsed(maxOrder), SetBitmaps(maxOrder);
      new;
      hide Pow2, Base, AllUsed, SetBitmaps, BlockCounts, Ties, Inv, Cap, LostSize, Slack, FreeSize, Outstanding, Pages,
        Carved, Carving, BitmapLength;
      StartValid(top, free, num, area, bases);
    }

    /** pmm_buddy_allocate: None stands for its panics (length not a power of two, or out of memory). */
    method PmmAllocate(length: nat) returns (r: Option<nat>, ghost order: nat, ghost b: nat)
      requires Valid()
      modifies this`area, this`free, this`num, this`k, this`bits, this`freeMemory
      ensures Valid() && |k| == |old(k)|
      ensures IsPower2(length) ==> length == Pow2(order)
      ensures r.Some? <==> IsPower2(length) && order < Dead(old(k)) && Room(old(k), order)
      ensures r.None? ==> unchanged(this)
      ensures r.Some? ==>
                r.value == Addr(order, b) && Lent(old(k), k, order, b) && freeMemory == old(freeMemory) - length
    {
      hide Ties, Cap, Took, Lent, Inv, Pow2, Addr, FreeSize, Slack, LostSize, Carved, Room, FreeAtLeast;
      order, b := 0, 0;
      if !IsPower2(length) {
        return None, order, b;
      }
      var o := MinPossibleOrder(length);
      order := o;
      SizesOf(k, bits, free);
      RoomExactly(k, o);
      r, b := Alloc(o);
      if r.Some? {
        TookLent(old(k), k, o, b);
        freeMemory := freeMemory - length;
      }
    }

    /**
      pmm_buddy_deallocate of an outstanding block; an address past the end of memory is ignored.  The guard lets the
      addresses from 2^top up to start + 2^top through, which no block has: their bits are past the ends of the bitmaps.
    */
    method PmmDeallocate(address: nat, ghost o: nat, ghost b: nat)
      requires Valid()
      requires address < start + Pow2(top) ==> Outstanding(k, o, b) && address == Addr(o, b)
      modifies this`area, this`free, this`num, this`k, this`bits, this`freeMemory, this`totalMemory
      ensures Valid() && |k| == |old(k)|
      ensures address >= start + Pow2(top) ==> unchanged(this)
      ensures address < start + Pow2(top) ==> Returned(old(k), k, o, b) && freeMemory == old(freeMemory) + Pow2(o)
    {
      hide Ties, Cap, Returned, Inv, Pow2, Addr, FreeSize, Slack, LostSize, Carved, KindAt;
      if address >= start + Pow2(top) {
        return;
      }
      SizesOf(k, bits, free);
      BlockInMemory(k, o, b);
      var order := Dealloc(address, 0, Some((o, b)));
      if order >= 0 {
        freeMemory := freeMemory + Pow2(order);
        if totalMemory < freeMemory {
          totalMemory := freeMemory;
        }
      }
    }

    /** Allocating and freeing again leaves every free list with the blocks it had. */
    method AllocateThenFree(length: nat) returns (ok: bool)
      requires Valid()
      modifies this
      ensures Valid() && freeMemory == old(freeMemory) && |free| == |old(free)|
      ensures forall o: nat | o < |free| :: multiset(free[o]) == multiset(old(free)[o])
    {
      hide Ties, Cap, Lent, Returned, Inv, Slack, FreeSize, LostSize, Carved, Addr, Pow2, IsPower2, Room, KindAt;
      ghost var k0, bits0, free0 := k, bits, free;
      var r; ghost var order, b;
      r, order, b := PmmAllocate(length);
      ok := r.Some?;
      if ok {
        ghost var k1 := k;
        LentOut(k0, k1, order, b);
        SizesOf(k1, bits, free);
        BlockInMemory(k1, order, b);
        PmmDeallocate(r.value, order, b);
        BackAgain(k0, bits0, free0, k1, k, bits, free, order, b);
      }
    }
  }

  lemma StartsCarving(area: seq<bool>, top: nat)
    requires top >= 3 && area == seq(Pow2(top + 1), _ => false)
    ensures Carving(area, [], top, 0) && Base(top, 0) == 0 && Length(top, 0) == Pow2(top)
  {
  }

  lemma BaseNext(top: nat, i: nat)
    ensures Base(top, i + 1) == Base(top, i) + Length(top, i)
  {
  }

  lemma StartValid(top: nat, free: seq<seq<nat>>, num: seq<int>, area: seq<bool>, bases: seq<nat>)
    requires top >= 3 && free == seq(top + 1, _ => []) && num == BlockCounts(top) && Carving(area, bases, top, top + 1)
    ensures var k, bits := AllUsed(top), SetBitmaps(top);
            Ties(k, bits, free) && Cap(k) && |bits| == |free| == |num| == |k| == top + 1 &&
            Carved(area, bases, bits, top) &&
            (forall o: nat | o < |k| :: Slack(k, num, o) == 0) && FreeSize(free, |free|) == 0 == LostSize(k) &&
            Pages(k) == Pow2(top) && forall o: nat, b: nat :: Outstanding(k, o, b) <==> o == 0 && b < Pow2(top)
  {
    hide Pow2, Base, AllUsed, SetBitmaps, BlockCounts, Ties, Inv, Carving, Carved, Slack, BitmapLength, FreeSize,
      UsedCount;
    AllUsedAt(top);
    AllUsedInv(top);
    InitialTies(top, SetBitmaps(top), free);
    InitialSlack(top, num);
    EmptySize(free, |free|);
    BitmapsLong(top);
    CarvingDone(area, bases, SetBitmaps(top), top);
    var k := AllUsed(top);
    forall i: nat | i < |k[Dead(k)]|
      ensures k[Dead(k)][i] != Used
    {
      assert KindAt(k, Dead(k), i) == Split;
    }
    UsedCountNone(k[Dead(k)]);
  }

  lemma BitmapsLong(top: nat)
    ensures forall o | 0 <= o <= top :: |SetBitmaps(top)[o]| >= Pow2(top - o)
  {
    hide SetBitmaps, Pow2;
  }

  /** A run that an allocation of order o can be taken from. */
  ghost predicate Room(k: Kinds, o: nat)
    requires |k| >= 4 && o < Dead(k)
  {
    exists c: nat :: c < |k[o]| && AllGiven(k, o, c) && !AllGiven(k, Dead(k), Anc(c, Dead(k) - o))
  }

  lemma RoomExactly(k: Kinds, o: nat)
    requires Inv(k) && Cap(k)
    ensures FreeAtLeast(k, o) <==> o < Dead(k) && Room(k, o)
  {
    if o < Dead(k) {
      FreeRun(k, o);
      forall c: nat | c < |k[o]|
        ensures AllFree(k, o, c) <==> AllGiven(k, o, c) && !AllGiven(k, Dead(k), Anc(c, Dead(k) - o))
      {
        FreeIsGiven(k, o, c);
      }
    } else {
      DeadNone(k, o);
    }
  }

  lemma LentOut(k: Kinds, k': Kinds, o: nat, b: nat)
    requires Lent(k, k', o, b)
    ensures |k'| >= 4 && Outstanding(k', o, b)
  {
  }

  lemma BackAgain(k0: Kinds, bits0: seq<seq<bool>>, free0: seq<seq<nat>>, k1: Kinds,
                  k2: Kinds, bits2: seq<seq<bool>>, free2: seq<seq<nat>>, o: nat, b: nat)
    requires Ties(k0, bits0, free0) && Cap(k0) && Ties(k2, bits2, free2) && Cap(k2)
    requires Lent(k0, k1, o, b) && Returned(k1, k2, o, b)
    ensures |free0| == |free2| && forall j: nat | j < |free0| :: multiset(free2[j]) == multiset(free0[j])
  {
    hide BitsTie;
    forall x: nat | x < Pages(k0)
      ensures Given(k0, x) <==> Given(k2, x)
    {
      assert InBlock(x, o, b) ==> Given(k0, x);
    }
    SameGivenSameLists(k0, k2);
    ListsDetermined(k0, free0, k2, free2);
  }

  // ----- memory that is lost at boot

  lemma {:induction false} AncRange(x: nat, o: nat)
    ensures Addr(o, Anc(x, o)) <= x < Addr(o, Anc(x, o)) + Pow2(o)
  {
    if o > 0 {
      AncRange(x, o - 1);
      AncAdd(x, o - 1, 1);
      var c := Anc(x, o - 1);
      AddrHalves(o - 1, c / 2);
      AddrHalves(o - 1, 2 * (c / 2));
    }
  }

  lemma InRun(x: nat, o: nat, c: nat)
    ensures InBlock(x, o, c) <==> Addr(o, c) <= x < Addr(o, c) + Pow2(o)
  {
    hide Pow2;
    AncRange(x, o);
    var d := Anc(x, o);
    if d < c {
      MulMono(d + 1, c, Pow2(o));
      MulSucc(d, Pow2(o));
    } else if c < d {
      MulMono(c + 1, d, Pow2(o));
      MulSucc(c, Pow2(o));
    }
  }

  /** Pages lo up to hi have been given back, and all others are outstanding. */
  ghost predicate GivenRange(k: Kinds, lo: nat, hi: nat)
    requires |k| >= 4
  {
    forall o: nat, b: nat :: Outstanding(k, o, b) <==> o == 0 && b < Pages(k) && !(lo <= b < hi)
  }

  lemma RangeGiven(k: Kinds, lo: nat, hi: nat, x: nat)
    requires Inv(k) && Cap(k) && GivenRange(k, lo, hi) && x < Pages(k)
    ensures Given(k, x) <==> lo <= x < hi
  {
    GivenIs(k, x);
    assert Anc(x, 0) == x;
    assert Outstanding(k, 0, Anc(x, 0)) <==> !(lo <= x < hi);
  }

  lemma RangeNext(k: Kinds, k': Kinds, lo: nat, hi: nat)
    requires |k| >= 4 && lo <= hi && GivenRange(k, lo, hi) && Returned(k, k', 0, hi)
    ensures |k'| >= 4 && GivenRange(k', lo, hi + 1)
  {
    hide Given, InBlock;
    assert Pages(k') == Pages(k);
    forall o: nat, b: nat
      ensures Outstanding(k', o, b) <==> o == 0 && b < Pages(k') && !(lo <= b < hi + 1)
    {
      assert Outstanding(k', o, b) <==> Outstanding(k, o, b) && !(o == 0 && b == hi);
    }
  }

  // A whole run of a dead order given back: every free list is empty.
  lemma RangeLost(k: Kinds, bits: seq<seq<bool>>, free: seq<seq<nat>>, c: nat, o: nat)
    requires Ties(k, bits, free) && Cap(k) && c < |k[Dead(k)]| && o < |k|
    requires GivenRange(k, Addr(Dead(k), c), Addr(Dead(k), c) + Pow2(Dead(k)))
    ensures free[o] == [] && AllGiven(k, Dead(k), c)
  {
    hide BitsTie, Pow2, Addr;
    var lo, d := Addr(Dead(k), c), Dead(k);
    forall x: nat | x < Pages(k)
      ensures Given(k, x) <==> InBlock(x, d, c)
    {
      InRun(x, d, c);
      RangeGiven(k, lo, lo + Pow2(d), x);
    }
    LostExactly(k, c);
    if free[o] != [] {
      var b := TopBlock(k, free, o);
      var x := Down(b, o);
      DownAnc(b, o);
      DownBound(k, o, b, o);
      assert PageFree(k, x) by {
        assert KindAt(k, o, Anc(x, o)) == Free;
      }
      UsedPageNotFree(k, d, c, x);
    }
  }

  lemma RunInMemory(k: Kinds, c: nat)
    requires Shape(k) && |k| >= 4 && c < 4
    ensures c < |k[Dead(k)]| && Addr(Dead(k), c) == c * Pow2(Dead(k))
    ensures Addr(Dead(k), c) + Pow2(Dead(k)) <= Pow2(|k| - 1)
  {
    var d := Dead(k);
    ShapePow(k, d);
    assert Pow2(2) == 2 * Pow2(1) && Pow2(1) == 2 * Pow2(0);
    PowProduct(d, 2);
    MulMono(c + 1, 4, Pow2(d));
    MulSucc(c, Pow2(d));
  }

  lemma NoneGiven(k: Kinds, lo: nat)
    requires |k| >= 4 && forall o: nat, b: nat :: Outstanding(k, o, b) <==> o == 0 && b < Pages(k)
    ensures GivenRange(k, lo, lo)
  {
  }

  lemma NextPage(k: Kinds, lo: nat, x: nat)
    requires |k| >= 4 && GivenRange(k, lo, x) && x < Pages(k)
    ensures Outstanding(k, 0, x) && Addr(0, x) == x && Pow2(0) == 1
  {
  }

  lemma SamePages(k: Kinds, k': Kinds, x: nat)
    requires Returned(k, k', 0, x)
    ensures Pages(k') == Pages(k)
  {
  }

  // With every list empty there is room for nothing.
  lemma NoRoom(k: Kinds, bits: seq<seq<bool>>, free: seq<seq<nat>>)
    requires Ties(k, bits, free) && Cap(k) && forall o | 0 <= o < |free| :: free[o] == []
    ensures forall o: nat | o < Dead(k) :: !Room(k, o)
  {
    forall p: nat, b: nat
      ensures KindAt(k, p, b) != Free
    {
      if p < |k| {
        assert multiset(free[p])[Addr(p, b)] == 0;
      }
    }
    hide Room, KindAt;
    forall o: nat | o < Dead(k)
      ensures !Room(k, o)
    {
      RoomExactly(k, o);
    }
  }

  /**
    Booting with a run of 2^(top - 2) pages of memory, aligned to its size: kernel/mmu.c frees its pages one by one.
    All of them count as free memory afterwards, every free list is empty, and not even one page can be allocated.
  */
  method BootLosesRun(maxOrder: nat, minPhys: nat, c: nat) returns (a: Allocator, r: Option<nat>)
    requires maxOrder >= 3 && c < 4
    ensures a.Valid() && a.freeMemory == Pow2(maxOrder - 2) && |a.free| == maxOrder + 1 && a.top == maxOrder
    ensures WholeRun(a.k) && (forall o | 0 <= o < |a.free| :: a.free[o] == []) && r == None
  {
    hide Ties, Cap, Inv, Pow2, Addr, FreeSize, Slack, LostSize, Carved, KindAt, Returned, Lent, GivenRange,
      Outstanding, Room, AllGiven;
    a := new Allocator(maxOrder, minPhys);
    var d := maxOrder - 2;
    SizesOf(a.k, a.bits, a.free);
    RunInMemory(a.k, c);
    var lo := c * Pow2(d);
    NoneGiven(a.k, lo);
    var i := 0;
    while i < Pow2(d)
      invariant i <= Pow2(d) && a.Valid() && a.top == maxOrder && a.freeMemory == i && fresh(a) && |a.k| == maxOrder + 1
      invariant Pages(a.k) == Pow2(maxOrder) && lo == Addr(d, c) && lo + Pow2(d) <= Pow2(maxOrder)
      invariant GivenRange(a.k, lo, lo + i)
    {
      ghost var k := a.k;
      NextPage(k, lo, lo + i);
      a.PmmDeallocate(lo + i, 0, lo + i);
      RangeNext(k, a.k, lo, lo + i);
      SamePages(k, a.k, lo + i);
      i := i + 1;
    }
    SizesOf(a.k, a.bits, a.free);
    RunInMemory(a.k, c);
    forall o: nat | o < |a.free|
      ensures a.free[o] == []
    {
      RangeLost(a.k, a.bits, a.free, c, o);
    }
    RangeLost(a.k, a.bits, a.free, c, 0);
    ghost var order, b;
    NoRoom(a.k, a.bits, a.free);
    r, order, b := a.PmmAllocate(1);
  }
}
