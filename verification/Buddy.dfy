/**
  The physical page allocator: a binary buddy system over per-order bitmaps and free-list stacks.
  Addresses are counted in units of the smallest block (MIN_SIZE).  This module is about one bitmap for each order.

  Ghost state labels every block of every order with its role.  The labels obey local rules between a
  block and its two halves, and every step of the allocator is a local relabelling.  What the allocator
  promises about pages (canonical coalescing, disjointness, conservation) is derived from the rules.
*/
module Buddy {
  import opened Common
  import opened Arith

  function Pow2(n: nat): (p: nat)
    ensures p >= 1
  {
    if n == 0 then 1 else 2 * Pow2(n - 1)
  }

  /** Below: strictly inside a free or allocated block.  Free: on a free list.  Used: allocated as such.
      Split: cut into two halves with roles of their own. */
  datatype Kind = Below | Free | Used | Split

  /** kinds[o][b] is the role of block b of order o. */
  type Kinds = seq<seq<Kind>>

  function KindAt(k: Kinds, o: int, b: int): Kind {
    if 0 <= o < |k| && 0 <= b < |k[o]| then k[o][b] else Below
  }

  predicate Family(p: Kind, l: Kind, r: Kind) {
    if p == Split then l != Below && r != Below && !(l == Free && r == Free)
    else l == Below && r == Below
  }

  ghost predicate Shape(k: Kinds) {
    |k| >= 1 && |k[|k| - 1]| == 1 &&
    forall o | 0 < o < |k| :: |k[o - 1]| == 2 * |k[o]|
  }

  ghost predicate Inv(k: Kinds) {
    Shape(k) && KindAt(k, |k| - 1, 0) != Below &&
    (forall b :: KindAt(k, 0, b) != Split) &&
    forall o, b | 0 < o < |k| :: Family(KindAt(k, o, b), KindAt(k, o - 1, 2 * b), KindAt(k, o - 1, 2 * b + 1))
  }

  /** The block of order o + d that contains block b of order o. */
  function Anc(b: nat, d: nat): nat {
    if d == 0 then b else Anc(b / 2, d - 1)
  }

  /** A page is free when it lies in a block on a free list. */
  ghost predicate PageFree(k: Kinds, x: nat) {
    exists o: nat :: o < |k| && KindAt(k, o, Anc(x, o)) == Free
  }

  ghost predicate InBlock(x: nat, o: nat, b: nat) {
    Anc(x, o) == b
  }

  function Pages(k: Kinds): nat {
    if k == [] then 0 else |k[0]|
  }

  ghost predicate AllFree(k: Kinds, o: nat, b: nat) {
    forall x: nat | x < Pages(k) && InBlock(x, o, b) :: PageFree(k, x)
  }

  function Set(k: Kinds, o: nat, b: nat, v: Kind): Kinds
    requires o < |k| && b < |k[o]|
  {
    k[o := k[o][b := v]]
  }

  lemma SetAt(k: Kinds, o: nat, b: nat, v: Kind)
    requires o < |k| && b < |k[o]|
    ensures SameShape(k, Set(k, o, b, v))
    ensures forall o', b' :: KindAt(Set(k, o, b, v), o', b') == if o' == o && b' == b then v else KindAt(k, o', b')
  {
  }

  // ----- consequences of the local rules

  lemma ParentRule(k: Kinds, o: nat, b: nat)
    requires Inv(k) && o + 1 < |k|
    ensures KindAt(k, o, b) != Below ==> KindAt(k, o + 1, b / 2) == Split
    ensures b < |k[o]| && KindAt(k, o, b) == Below ==> KindAt(k, o + 1, b / 2) != Split
  {
    var p := b / 2;
    assert Family(KindAt(k, o + 1, p), KindAt(k, o + 1 - 1, 2 * p), KindAt(k, o + 1 - 1, 2 * p + 1));
    assert b == 2 * p || b == 2 * p + 1;
  }

  /** Every block above one that has a role is split. */
  lemma {:induction false} Chain(k: Kinds, o: nat, b: nat, d: nat)
    requires Inv(k) && KindAt(k, o, b) != Below && 0 < d && o + d < |k|
    ensures KindAt(k, o + d, Anc(b, d)) == Split
    decreases d
  {
    ParentRule(k, o, b);
    if d > 1 {
      Chain(k, o + 1, b / 2, d - 1);
    }
  }

  lemma {:induction false} AncAdd(b: nat, d: nat, e: nat)
    ensures Anc(Anc(b, d), e) == Anc(b, d + e)
  {
    if d > 0 {
      AncAdd(b / 2, d - 1, e);
    }
  }

  /** Blocks with a role and not split (free or allocated) are pairwise disjoint. */
  lemma LeavesDisjoint(k: Kinds, o: nat, b: nat, o': nat, b': nat, x: nat)
    requires Inv(k) && o < |k| && o' < |k| && InBlock(x, o, b) && InBlock(x, o', b')
    requires Whole(KindAt(k, o, b)) && Whole(KindAt(k, o', b'))
    ensures o == o' && b == b'
  {
    if o < o' {
      AncAdd(x, o, o' - o);
      Chain(k, o, b, o' - o);
    } else if o' < o {
      AncAdd(x, o', o - o');
      Chain(k, o', b', o - o');
    }
  }

  /** The first block of order o - d inside block b of order o. */
  function Down(b: nat, d: nat): nat
    decreases d
  {
    if d == 0 then b else Down(2 * b, d - 1)
  }

  lemma {:induction false} DownAnc(b: nat, d: nat)
    ensures Anc(Down(b, d), d) == b
    decreases d
  {
    if d > 0 {
      DownAnc(2 * b, d - 1);
      AncAdd(Down(b, d), d - 1, 1);
    }
  }

  lemma {:induction false} DownBound(k: Kinds, o: nat, b: nat, d: nat)
    requires Shape(k) && d <= o < |k| && b < |k[o]|
    ensures Down(b, d) < |k[o - d]|
    decreases d
  {
    if d > 0 {
      DownBound(k, o - 1, 2 * b, d - 1);
    }
  }

  lemma UsedPageNotFree(k: Kinds, o: nat, b: nat, x: nat)
    requires Inv(k) && o < |k| && KindAt(k, o, b) == Used && InBlock(x, o, b)
    ensures !PageFree(k, x)
  {
    if o': nat :| o' < |k| && KindAt(k, o', Anc(x, o')) == Free {
      LeavesDisjoint(k, o, b, o', Anc(x, o'), x);
    }
  }

  /** An allocated or split block contains a page that is not free. */
  lemma {:induction false} BusyPage(k: Kinds, o: nat, b: nat) returns (x: nat)
    requires Inv(k) && o < |k| && b < |k[o]| && Busy(KindAt(k, o, b))
    ensures x < Pages(k) && InBlock(x, o, b) && !PageFree(k, x)
    decreases o
  {
    if KindAt(k, o, b) == Used {
      x := Down(b, o);
      DownAnc(b, o);
      DownBound(k, o, b, o);
      UsedPageNotFree(k, o, b, x);
    } else {
      var c := if KindAt(k, o - 1, 2 * b) == Free then 2 * b + 1 else 2 * b;
      assert Family(KindAt(k, o, b), KindAt(k, o - 1, 2 * b), KindAt(k, o - 1, 2 * b + 1));
      x := BusyPage(k, o - 1, c);
      AncAdd(x, o - 1, 1);
    }
  }

  /** A free page inside a block without a role is owned by a larger free block. */
  lemma FreeOwnerAbove(k: Kinds, o: nat, b: nat, x: nat) returns (o': nat)
    requires Inv(k) && o < |k| && b < |k[o]| && KindAt(k, o, b) == Below && InBlock(x, o, b) && PageFree(k, x)
    ensures o < o' < |k| && KindAt(k, o', Anc(b, o' - o)) == Free
  {
    o' :| o' < |k| && KindAt(k, o', Anc(x, o')) == Free;
    if o' < o {
      AncAdd(x, o', o - o');
      Chain(k, o', Anc(x, o'), o - o');
    }
    AncAdd(x, o, o' - o);
  }

  lemma InsideFree(k: Kinds, o: nat, b: nat, d: nat)
    requires o + d < |k| && KindAt(k, o + d, Anc(b, d)) == Free
    ensures AllFree(k, o, b)
  {
    forall x: nat | x < Pages(k) && InBlock(x, o, b)
      ensures PageFree(k, x)
    {
      AncAdd(x, o, d);
    }
  }

  /**
    Coalescing is canonical: a block is on a free list exactly when all its pages are free and it is not
    half of a larger block whose pages are all free.
  */
  lemma Canonical(k: Kinds, o: nat, b: nat)
    requires Inv(k) && o < |k| && b < |k[o]|
    ensures KindAt(k, o, b) == Free <==> AllFree(k, o, b) && (o == |k| - 1 || !AllFree(k, o + 1, b / 2))
  {
    match KindAt(k, o, b)
    case Free =>
      InsideFree(k, o, b, 0);
      if o < |k| - 1 {
        ParentRule(k, o, b);
        var x := BusyPage(k, o + 1, b / 2);
      }
    case Below =>
      if AllFree(k, o, b) {
        DownAnc(b, o);
        DownBound(k, o, b, o);
        var o' := FreeOwnerAbove(k, o, b, Down(b, o));
        InsideFree(k, o + 1, b / 2, o' - o - 1);
      }
    case _ =>
      var x := BusyPage(k, o, b);
  }

  /** So the free pages alone decide every free list: the order of frees does not matter. */
  lemma SamePagesSameLists(k: Kinds, k': Kinds)
    requires Inv(k) && Inv(k') && |k| == |k'| && forall o | 0 <= o < |k| :: |k[o]| == |k'[o]|
    requires forall x: nat | x < Pages(k) :: PageFree(k, x) <==> PageFree(k', x)
    ensures forall o, b :: KindAt(k, o, b) == Free <==> KindAt(k', o, b) == Free
  {
    forall o, b | 0 <= o < |k| && 0 <= b < |k[o]|
      ensures KindAt(k, o, b) == Free <==> KindAt(k', o, b) == Free
    {
      Canonical(k, o, b);
      Canonical(k', o, b);
    }
  }

  ghost predicate FreeAtLeast(k: Kinds, o: nat) {
    exists o': nat, b': nat :: o <= o' && KindAt(k, o', b') == Free
  }

  /** A free block of order o or more exists exactly when some aligned run of 2^o pages is free. */
  lemma FreeRun(k: Kinds, o: nat)
    requires Inv(k) && o < |k|
    ensures FreeAtLeast(k, o) <==> exists b: nat :: b < |k[o]| && AllFree(k, o, b)
  {
    if FreeAtLeast(k, o) {
      var o': nat, b': nat :| o <= o' && KindAt(k, o', b') == Free;
      DownAnc(b', o' - o);
      DownBound(k, o', b', o' - o);
      InsideFree(k, o, Down(b', o' - o), o' - o);
    }
    if b: nat :| b < |k[o]| && AllFree(k, o, b) {
      match KindAt(k, o, b)
      case Free =>
      case Below =>
        DownAnc(b, o);
        DownBound(k, o, b, o);
        var o' := FreeOwnerAbove(k, o, b, Down(b, o));
      case _ =>
        var x := BusyPage(k, o, b);
    }
  }

  // ----- the four relabellings

  function Sib(b: nat): nat {
    if b % 2 == 0 then b + 1 else b - 1
  }

  /** Allocate a free block. */
  lemma Take(k: Kinds, o: nat, b: nat) returns (k': Kinds)
    requires Inv(k) && KindAt(k, o, b) == Free
    ensures o < |k| && b < |k[o]| && k' == Set(k, o, b, Used) && Inv(k')
    ensures forall x: nat :: PageFree(k', x) <==> PageFree(k, x) && !InBlock(x, o, b)
  {
    k' := Set(k, o, b, Used);
    forall o', b' | 0 < o' < |k'|
      ensures Family(KindAt(k', o', b'), KindAt(k', o' - 1, 2 * b'), KindAt(k', o' - 1, 2 * b' + 1))
    {
      assert Family(KindAt(k, o', b'), KindAt(k, o' - 1, 2 * b'), KindAt(k, o' - 1, 2 * b' + 1));
    }
    LessFree(k, k', o, b);
  }

  /** Free an allocated block whose buddy is not free. */
  lemma Give(k: Kinds, o: nat, b: nat) returns (k': Kinds)
    requires Inv(k) && KindAt(k, o, b) == Used && KindAt(k, o, Sib(b)) != Free
    ensures o < |k| && b < |k[o]| && k' == Set(k, o, b, Free) && Inv(k')
    ensures forall x: nat :: PageFree(k', x) <==> PageFree(k, x) || InBlock(x, o, b)
  {
    k' := Set(k, o, b, Free);
    forall o', b' | 0 < o' < |k'|
      ensures Family(KindAt(k', o', b'), KindAt(k', o' - 1, 2 * b'), KindAt(k', o' - 1, 2 * b' + 1))
    {
      assert Family(KindAt(k, o', b'), KindAt(k, o' - 1, 2 * b'), KindAt(k, o' - 1, 2 * b' + 1));
    }
    MoreFree(k, k', o, b);
  }

  function Halved(k: Kinds, o: nat, b: nat): Kinds
    requires 0 < o < |k| && b < |k[o]| && 2 * b + 1 < |k[o - 1]|
  {
    Set(Set(Set(k, o, b, Split), o - 1, 2 * b, Free), o - 1, 2 * b + 1, Used)
  }

  lemma HalvedAt(k: Kinds, o: nat, b: nat)
    requires Shape(k) && 0 < o < |k| && b < |k[o]| && 2 * b + 1 < |k[o - 1]|
    ensures Shape(Halved(k, o, b)) && SameShape(k, Halved(k, o, b))
    ensures forall o', b' :: KindAt(Halved(k, o, b), o', b') ==
              if o' == o && b' == b then Split
              else if o' == o - 1 && b' == 2 * b then Free
              else if o' == o - 1 && b' == 2 * b + 1 then Used else KindAt(k, o', b')
  {
  }

  /** Cut an allocated block: its first half becomes free, its second half stays allocated. */
  lemma Cut(k: Kinds, o: nat, b: nat) returns (k': Kinds)
    requires Inv(k) && o > 0 && KindAt(k, o, b) == Used
    ensures o < |k| && b < |k[o]| && 2 * b + 1 < |k[o - 1]| && k' == Halved(k, o, b) && Inv(k')
    ensures forall x: nat :: PageFree(k', x) <==> PageFree(k, x) || InBlock(x, o - 1, 2 * b)
  {
    k' := Halved(k, o, b);
    HalvedAt(k, o, b);
    assert Family(KindAt(k, o, b), KindAt(k, o - 1, 2 * b), KindAt(k, o - 1, 2 * b + 1));
    hide Halved, PageFree;
    forall o', b' | 0 < o' < |k'|
      ensures Family(KindAt(k', o', b'), KindAt(k', o' - 1, 2 * b'), KindAt(k', o' - 1, 2 * b' + 1))
    {
      assert Family(KindAt(k, o', b'), KindAt(k, o' - 1, 2 * b'), KindAt(k, o' - 1, 2 * b' + 1));
    }
    MoreFree(k, k', o - 1, 2 * b);
  }

  function Joined(k: Kinds, o: nat, b: nat): Kinds
    requires o + 1 < |k| && b < |k[o]| && Sib(b) < |k[o]| && b / 2 < |k[o + 1]|
  {
    Set(Set(Set(k, o, b, Below), o, Sib(b), Below), o + 1, b / 2, Used)
  }

  lemma JoinedAt(k: Kinds, o: nat, b: nat)
    requires Shape(k) && o + 1 < |k| && b < |k[o]| && Sib(b) < |k[o]| && b / 2 < |k[o + 1]|
    ensures Shape(Joined(k, o, b)) && SameShape(k, Joined(k, o, b))
    ensures forall o', b' :: KindAt(Joined(k, o, b), o', b') ==
              if o' == o && (b' == b || b' == Sib(b)) then Below
              else if o' == o + 1 && b' == b / 2 then Used else KindAt(k, o', b')
  {
  }

  /** Join an allocated block with its free buddy into one allocated block. */
  lemma Join(k: Kinds, o: nat, b: nat) returns (k': Kinds)
    requires Inv(k) && KindAt(k, o, b) == Used && KindAt(k, o, Sib(b)) == Free
    ensures o + 1 < |k| && b < |k[o]| && Sib(b) < |k[o]| && b / 2 < |k[o + 1]|
    ensures k' == Joined(k, o, b) && Inv(k')
    ensures forall x: nat :: PageFree(k', x) <==> PageFree(k, x) && !InBlock(x, o, Sib(b))
  {
    ParentRule(k, o, b);
    var p := b / 2;
    assert Family(KindAt(k, o + 1, p), KindAt(k, o + 1 - 1, 2 * p), KindAt(k, o + 1 - 1, 2 * p + 1));
    k' := Joined(k, o, b);
    JoinedAt(k, o, b);
    hide Joined, PageFree;
    forall o', b' | 0 < o' < |k'|
      ensures Family(KindAt(k', o', b'), KindAt(k', o' - 1, 2 * b'), KindAt(k', o' - 1, 2 * b' + 1))
    {
      assert Family(KindAt(k, o', b'), KindAt(k, o' - 1, 2 * b'), KindAt(k, o' - 1, 2 * b' + 1));
    }
    LessFree(k, k', o, Sib(b));
  }

  // A free list gains one block.
  lemma MoreFree(k: Kinds, k': Kinds, o: nat, b: nat)
    requires |k'| == |k| && o < |k|
    requires forall o', b' :: KindAt(k', o', b') == Free <==> KindAt(k, o', b') == Free || (o' == o && b' == b)
    ensures forall x: nat :: PageFree(k', x) <==> PageFree(k, x) || InBlock(x, o, b)
  {
  }

  // A free list loses one block.
  lemma LessFree(k: Kinds, k': Kinds, o: nat, b: nat)
    requires Inv(k) && |k'| == |k| && o < |k| && KindAt(k, o, b) == Free
    requires forall o', b' :: KindAt(k', o', b') == Free <==> KindAt(k, o', b') == Free && !(o' == o && b' == b)
    ensures forall x: nat :: PageFree(k', x) <==> PageFree(k, x) && !InBlock(x, o, b)
  {
    forall x: nat
      ensures PageFree(k', x) <==> PageFree(k, x) && !InBlock(x, o, b)
    {
      if o': nat :| o' < |k| && KindAt(k', o', Anc(x, o')) == Free {
        if InBlock(x, o, b) {
          LeavesDisjoint(k, o, b, o', Anc(x, o'), x);
        }
      }
    }
  }

  // ----- addresses

  function Addr(o: nat, b: nat): nat {
    b * Pow2(o)
  }

  /** The block of order o that contains an address. */
  function Block(o: nat, x: nat): nat {
    Div(x, Pow2(o))
  }

  lemma AddrDiv(o: nat, b: nat)
    ensures Block(o, Addr(o, b)) == b
  {
    DivModUnique(Addr(o, b), b, 0, Pow2(o));
  }

  lemma AddrInjective(o: nat, b: nat)
    ensures forall b': nat :: b' != b ==> Addr(o, b') != Addr(o, b)
    ensures Addr(o, Block(o, Addr(o, b))) == Addr(o, b)
  {
    AddrDiv(o, b);
    forall b': nat | b' != b
      ensures Addr(o, b') != Addr(o, b)
    {
      AddrDiv(o, b');
    }
  }

  lemma AddrHalves(o: nat, b: nat)
    ensures Addr(o + 1, b) == Addr(o, 2 * b) && Addr(o, b + 1) == Addr(o, b) + Pow2(o)
    ensures Pow2(o + 1) == 2 * Pow2(o)
  {
    var p := Pow2(o);
    assert b * (2 * p) == (2 * b) * p;
    MulSucc(b, p);
  }

  lemma {:induction false} AddrDown(o: nat, b: nat, d: nat)
    requires d <= o
    ensures Addr(o - d, Down(b, d)) == Addr(o, b)
    decreases d
  {
    if d > 0 {
      AddrHalves(o - 1, b);
      AddrDown(o - 1, 2 * b, d - 1);
    }
  }

  /** address XOR block size: flips bit `order` of the address. */
  function FlipBit(address: nat, order: nat): nat {
    if Block(order, address) % 2 == 0 then address + Pow2(order)
    else
      assert address >= Pow2(order) by {
        assert address == (address / Pow2(order)) * Pow2(order) + address % Pow2(order);
        MulAtLeast(address / Pow2(order), Pow2(order));
      }
      address - Pow2(order)
  }

  lemma BuddyAddr(o: nat, b: nat)
    ensures FlipBit(Addr(o, b), o) == Addr(o, Sib(b))
    ensures (if Addr(o, Sib(b)) > Addr(o, b) then Addr(o, b) else Addr(o, Sib(b))) == Addr(o + 1, b / 2)
  {
    AddrDiv(o, b);
    AddrHalves(o, b / 2);
    AddrHalves(o, 2 * (b / 2));
  }

  // ----- free lists and bitmaps

  /** Free list o holds the addresses of exactly the free blocks of order o, each once. */
  ghost predicate ListsTie(k: Kinds, free: seq<seq<nat>>) {
    |free| == |k| &&
    (forall o, b: nat | 0 <= o < |k| :: multiset(free[o])[Addr(o, b)] == if KindAt(k, o, b) == Free then 1 else 0) &&
    forall o, x | 0 <= o < |k| && x in free[o] :: Addr(o, Block(o, x)) == x
  }

  // Free or allocated, and not cut.
  predicate Whole(v: Kind) {
    v == Free || v == Used
  }

  predicate Busy(v: Kind) {
    v == Used || v == Split
  }

  /** Bitmap o has a set bit for exactly the busy blocks of order o; the top bitmap has a spare set bit. */
  ghost predicate BitsTie(k: Kinds, bits: seq<seq<bool>>) {
    |bits| == |k| >= 1 &&
    (forall o | 0 <= o < |k| :: |bits[o]| >= |k[o]|) &&
    (forall o, b | 0 <= o < |k| && 0 <= b < |k[o]| :: bits[o][b] == Busy(KindAt(k, o, b))) &&
    |bits[|k| - 1]| >= 2 && bits[|k| - 1][1]
  }

  lemma ListsAdd(k: Kinds, k': Kinds, free: seq<seq<nat>>, o: nat, b: nat, list: seq<nat>)
    requires ListsTie(k, free) && o < |k| && |k'| == |k| && KindAt(k, o, b) != Free
    requires forall o', b' :: KindAt(k', o', b') == Free <==> KindAt(k, o', b') == Free || (o' == o && b' == b)
    requires multiset(list) == multiset(free[o]) + multiset{Addr(o, b)}
    ensures ListsTie(k', free[o := list])
  {
    hide Addr, Pow2, Block;
    AddrInjective(o, b);
    forall x | x in list
      ensures Addr(o, Block(o, x)) == x
    {
      assert x in multiset(list);
    }
  }

  lemma ListsDel(k: Kinds, k': Kinds, free: seq<seq<nat>>, o: nat, b: nat, list: seq<nat>)
    requires ListsTie(k, free) && o < |k| && |k'| == |k| && KindAt(k, o, b) == Free
    requires forall o', b' :: KindAt(k', o', b') == Free <==> KindAt(k, o', b') == Free && !(o' == o && b' == b)
    requires multiset(list) == multiset(free[o]) - multiset{Addr(o, b)}
    ensures ListsTie(k', free[o := list])
  {
    hide Addr, Pow2, Block;
    AddrInjective(o, b);
    forall x | x in list
      ensures Addr(o, Block(o, x)) == x
    {
      assert x in multiset(list);
    }
  }

  // stack_delete of the element x
  function StackDelete(s: seq<nat>, x: nat): (r: seq<nat>)
    ensures multiset(r) == multiset(s) - multiset{x} && |r| == |s| - if x in s then 1 else 0
  {
    if s == [] then []
    else
      var top := |s| - 1;
      assert s == s[..top] + [s[top]];
      if s[top] == x then s[..top] else StackDelete(s[..top], x) + [s[top]]
  }

  function BusyCount(s: seq<Kind>): nat {
    if s == [] then 0 else BusyCount(s[1..]) + if Busy(s[0]) then 1 else 0
  }

  lemma {:induction false} BusyCountSet(s: seq<Kind>, b: nat, v: Kind)
    requires b < |s|
    ensures BusyCount(s[b := v]) ==
            BusyCount(s) - (if Busy(s[b]) then 1 else 0) + (if Busy(v) then 1 else 0)
  {
    if b > 0 {
      assert s[b := v][1..] == s[1..][b - 1 := v];
      BusyCountSet(s[1..], b - 1, v);
    }
  }

  /** Total size of the blocks on the first n free lists. */
  function FreeSize(free: seq<seq<nat>>, n: nat): nat
    requires n <= |free|
  {
    if n == 0 then 0 else FreeSize(free, n - 1) + |free[n - 1]| * Pow2(n - 1)
  }

  lemma {:induction false} FreeSizeSet(free: seq<seq<nat>>, n: nat, o: nat, list: seq<nat>)
    requires n <= |free| && o < |free|
    ensures FreeSize(free[o := list], n) ==
            FreeSize(free, n) + if o < n then |list| * Pow2(o) - |free[o]| * Pow2(o) else 0
  {
    if n > 0 {
      FreeSizeSet(free, n - 1, o, list);
    }
  }

  lemma FreeSizeStep(free: seq<seq<nat>>, o: nat, list: seq<nat>)
    requires o < |free| && (|list| == |free[o]| + 1 || |list| + 1 == |free[o]|)
    ensures FreeSize(free[o := list], |free|) ==
            (FreeSize(free, |free|) as int) + if |list| > |free[o]| then Pow2(o) else -(Pow2(o) as int)
  {
    FreeSizeSet(free, |free|, o, list);
    if |list| > |free[o]| {
      MulSucc(|free[o]|, Pow2(o));
    } else {
      MulSucc(|list|, Pow2(o));
    }
  }

  // ----- the effect of an allocation and of a free on the whole state

  ghost predicate SameShape(k: Kinds, k': Kinds) {
    |k| == |k'| && forall o | 0 <= o < |k| :: |k[o]| == |k'[o]|
  }

  ghost predicate IsUsed(k: Kinds, o: nat, b: nat) {
    KindAt(k, o, b) == Used
  }

  /** Block (o, b), free before, has been allocated; no other page and no other allocation has changed. */
  ghost predicate Took(k: Kinds, k': Kinds, o: nat, b: nat) {
    SameShape(k, k') && Inv(k') && o < |k| && b < |k[o]| && !IsUsed(k, o, b) &&
    (forall x: nat | InBlock(x, o, b) :: PageFree(k, x)) &&
    (forall x: nat :: PageFree(k', x) <==> PageFree(k, x) && !InBlock(x, o, b)) &&
    forall o': nat, b': nat :: IsUsed(k', o', b') <==> IsUsed(k, o', b') || (o' == o && b' == b)
  }

  /** Block (o, b), allocated before, has been freed; no other page and no other allocation has changed. */
  ghost predicate Gave(k: Kinds, k': Kinds, o: nat, b: nat) {
    SameShape(k, k') && Inv(k') && IsUsed(k, o, b) &&
    (forall x: nat :: PageFree(k', x) <==> PageFree(k, x) || InBlock(x, o, b)) &&
    forall o': nat, b': nat :: IsUsed(k', o', b') <==> IsUsed(k, o', b') && !(o' == o && b' == b)
  }

  lemma InHalves(x: nat, o: nat, b: nat)
    ensures InBlock(x, o + 1, b) <==> InBlock(x, o, 2 * b) || InBlock(x, o, 2 * b + 1)
    ensures !(InBlock(x, o, 2 * b) && InBlock(x, o, 2 * b + 1))
  {
    AncAdd(x, o, 1);
  }

  lemma TakeTook(k: Kinds, o: nat, b: nat) returns (k': Kinds)
    requires Inv(k) && KindAt(k, o, b) == Free
    ensures o < |k| && b < |k[o]| && k' == Set(k, o, b, Used) && Inv(k') && Took(k, k', o, b)
  {
    k' := Take(k, o, b);
    SetAt(k, o, b, Used);
    assert KindAt(k, o, Anc(Down(b, o), o)) == Free by {
      DownAnc(b, o);
    }
    hide Set, Inv;
  }

  lemma CutTook(k: Kinds, k1: Kinds, o: nat, p: nat) returns (k2: Kinds)
    requires Took(k, k1, o + 1, p)
    ensures o + 1 < |k1| && p < |k1[o + 1]| && 2 * p + 1 < |k1[o]|
    ensures k2 == Halved(k1, o + 1, p)
    ensures Took(k, k2, o, 2 * p + 1)
  {
    assert IsUsed(k1, o + 1, p);
    var l, r := 2 * p, 2 * p + 1;
    assert Family(KindAt(k1, o + 1, p), KindAt(k1, o + 1 - 1, 2 * p), KindAt(k1, o + 1 - 1, 2 * p + 1));
    k2 := Cut(k1, o + 1, p);
    HalvedAt(k1, o + 1, p);
    assert !IsUsed(k1, o, l) && !IsUsed(k1, o, r) && !IsUsed(k, o, r);
    hide PageFree, InBlock, Inv, KindAt, Halved;
    forall x: nat
      ensures InBlock(x, o, r) ==> PageFree(k, x)
      ensures PageFree(k2, x) <==> PageFree(k, x) && !InBlock(x, o, r)
    {
      InHalves(x, o, p);
      assert PageFree(k1, x) <==> PageFree(k, x) && !InBlock(x, o + 1, p);
      assert PageFree(k2, x) <==> PageFree(k1, x) || InBlock(x, o, l);
    }
    forall o': nat, b': nat
      ensures IsUsed(k2, o', b') <==> IsUsed(k, o', b') || (o' == o && b' == r)
    {
      assert IsUsed(k1, o', b') <==> IsUsed(k, o', b') || (o' == o + 1 && b' == p);
    }
  }

  lemma GiveGave(k: Kinds, o: nat, b: nat) returns (k': Kinds)
    requires Inv(k) && IsUsed(k, o, b) && KindAt(k, o, Sib(b)) != Free
    ensures o < |k| && b < |k[o]| && k' == Set(k, o, b, Free) && Gave(k, k', o, b)
  {
    k' := Give(k, o, b);
  }

  ghost predicate Ties(k: Kinds, bits: seq<seq<bool>>, free: seq<seq<nat>>) {
    Inv(k) && ListsTie(k, free) && BitsTie(k, bits)
  }

  function SetBit(bits: seq<seq<bool>>, o: nat, b: nat, v: bool): seq<seq<bool>>
    requires o < |bits| && b < |bits[o]|
  {
    bits[o := bits[o][b := v]]
  }

  // Busy blocks of order o beyond the counter.
  ghost function Slack(k: Kinds, num: seq<int>, o: nat): int
    requires o < |k| && o < |num|
  {
    num[o] - BusyCount(k[o])
  }

  ghost predicate SameSlack(k: Kinds, num: seq<int>, k': Kinds, num': seq<int>) {
    |k'| == |k| == |num| == |num'| && forall o: nat | o < |k| :: Slack(k', num', o) == Slack(k, num, o)
  }

  lemma BitsSet(k: Kinds, k': Kinds, bits: seq<seq<bool>>, o: nat, b: nat, v: bool)
    requires Shape(k) && BitsTie(k, bits) && SameShape(k, k') && o < |k| && b < |k[o]|
    requires forall o', b' :: Busy(KindAt(k', o', b')) == if o' == o && b' == b then v else Busy(KindAt(k, o', b'))
    ensures b < |bits[o]| && BitsTie(k', SetBit(bits, o, b, v))
  {
    hide KindAt;
  }

  lemma SlackRow(k: Kinds, k': Kinds, num: seq<int>, o: nat, d: int)
    requires |k| == |k'| == |num| && o < |k| && BusyCount(k'[o]) == BusyCount(k[o]) + d
    requires forall j | 0 <= j < |k| && j != o :: BusyCount(k'[j]) == BusyCount(k[j])
    ensures SameSlack(k, num, k', num[o := num[o] + d])
  {
  }

  // Pop a free block and mark it allocated.
  lemma TakeTies(k: Kinds, bits: seq<seq<bool>>, free: seq<seq<nat>>, num: seq<int>, o: nat)
      returns (b: nat, k': Kinds)
    requires Ties(k, bits, free) && o < |k| == |num| && free[o] != []
    ensures |free| == |bits| == |k| == |k'| && b < |k[o]| <= |bits[o]|
    ensures free[o][|free[o]| - 1] == Addr(o, b) && !bits[o][b] && Took(k, k', o, b) && k' == Set(k, o, b, Used)
    ensures Ties(k', SetBit(bits, o, b, true), free[o := free[o][..|free[o]| - 1]])
    ensures SameSlack(k, num, k', num[o := num[o] + 1])
  {
    b := TopBlock(k, free, o);
    k' := TakeTook(k, o, b);
    SetAt(k, o, b, Used);
    BusyCountSet(k[o], b, Used);
    SlackRow(k, k', num, o, 1);
    hide Took, Addr, Inv, Set, Slack;
    var top := |free[o]| - 1;
    assert free[o] == free[o][..top] + [free[o][top]];
    ListsDel(k, k', free, o, b, free[o][..top]);
    BitsSet(k, k', bits, o, b, true);
  }

  lemma TopBlock(k: Kinds, free: seq<seq<nat>>, o: nat) returns (b: nat)
    requires ListsTie(k, free) && o < |k| && free[o] != []
    ensures free[o][|free[o]| - 1] == Addr(o, b) && KindAt(k, o, b) == Free && b < |k[o]|
  {
    var x := free[o][|free[o]| - 1];
    b := Block(o, x);
    assert x in multiset(free[o]) && Addr(o, b) == x;
  }

  // Cut block p of order o + 1, just allocated; its second half is the allocation.
  lemma CutTies(k: Kinds, k1: Kinds, bits: seq<seq<bool>>, free: seq<seq<nat>>, num: seq<int>, o: nat, p: nat)
      returns (k2: Kinds)
    requires Ties(k1, bits, free) && Took(k, k1, o + 1, p) && |k1| == |num| && free[o] == []
    ensures |free| == |bits| == |k1| == |k2| && o + 1 < |k1| && 2 * p + 1 < |k1[o]| <= |bits[o]|
    ensures !bits[o][2 * p + 1] && Took(k, k2, o, 2 * p + 1)
    ensures 2 * p + 1 < |k1[o]| && p < |k1[o + 1]| && k2 == Halved(k1, o + 1, p)
    ensures Ties(k2, SetBit(bits, o, 2 * p + 1, true), free[o := [Addr(o, 2 * p)]])
    ensures SameSlack(k1, num, k2, num[o := num[o] + 1])
  {
    k2 := CutTook(k, k1, o, p);
    HalvedAt(k1, o + 1, p);
    assert IsUsed(k1, o + 1, p) && Inv(k2);
    assert Family(KindAt(k1, o + 1, p), KindAt(k1, o + 1 - 1, 2 * p), KindAt(k1, o + 1 - 1, 2 * p + 1));
    HalvedCount(k1, o + 1, p);
    SlackRow(k1, k2, num, o, 1);
    hide Took, Addr, Halved, Inv, Slack;
    ListsAdd(k1, k2, free, o, 2 * p, [Addr(o, 2 * p)]);
    BitsSet(k1, k2, bits, o, 2 * p + 1, true);
  }

  lemma HalvedCount(k: Kinds, o: nat, b: nat)
    requires 0 < o < |k| && b < |k[o]| && 2 * b + 1 < |k[o - 1]|
    requires Family(k[o][b], k[o - 1][2 * b], k[o - 1][2 * b + 1]) && k[o][b] == Used
    ensures BusyCount(Halved(k, o, b)[o - 1]) == BusyCount(k[o - 1]) + 1
    ensures forall j | 0 <= j < |k| && j != o - 1 :: BusyCount(Halved(k, o, b)[j]) == BusyCount(k[j])
  {
    var row := k[o - 1];
    BusyCountSet(row, 2 * b, Free);
    BusyCountSet(row[2 * b := Free], 2 * b + 1, Used);
    BusyCountSet(k[o], b, Split);
  }

  // Clear the bit of an allocated block and push it, its buddy being busy.
  lemma GiveTies(k: Kinds, bits: seq<seq<bool>>, free: seq<seq<nat>>, num: seq<int>, o: nat, b: nat)
      returns (k': Kinds)
    requires Ties(k, bits, free) && |k| == |num| && IsUsed(k, o, b) && KindAt(k, o, Sib(b)) != Free
    ensures o < |k| && b < |k[o]| && Gave(k, k', o, b) && k' == Set(k, o, b, Free)
    ensures Ties(k', SetBit(bits, o, b, false), free[o := free[o] + [Addr(o, b)]])
    ensures SameSlack(k, num, k', num[o := num[o] - 1])
  {
    k' := GiveGave(k, o, b);
    SetAt(k, o, b, Free);
    BusyCountSet(k[o], b, Free);
    SlackRow(k, k', num, o, -1);
    assert Inv(k');
    hide Gave, Addr, Inv, Set, Slack;
    ListsAdd(k, k', free, o, b, free[o] + [Addr(o, b)]);
    BitsSet(k, k', bits, o, b, false);
  }

  // Clear the bit of an allocated block and unlink its free buddy: the joined block counts as allocated.
  lemma JoinTies(k: Kinds, bits: seq<seq<bool>>, free: seq<seq<nat>>, num: seq<int>, o: nat, b: nat)
      returns (k': Kinds)
    requires Ties(k, bits, free) && |k| == |num| && IsUsed(k, o, b) && KindAt(k, o, Sib(b)) == Free
    ensures o + 1 < |k| && b < |k[o]| && Sib(b) < |k[o]| && b / 2 < |k[o + 1]| && k' == Joined(k, o, b)
    ensures Inv(k) && IsUsed(k', o + 1, b / 2)
    ensures Addr(o, Sib(b)) in free[o]
    ensures Ties(k', SetBit(bits, o, b, false), free[o := StackDelete(free[o], Addr(o, Sib(b)))])
    ensures SameSlack(k, num, k', num[o := num[o] - 1])
  {
    k' := Join(k, o, b);
    JoinedAt(k, o, b);
    ParentRule(k, o, b);
    JoinedCount(k, o, b);
    SlackRow(k, k', num, o, -1);
    hide Addr, Joined, Inv, Slack;
    assert multiset(free[o])[Addr(o, Sib(b))] == 1;
    ListsDel(k, k', free, o, Sib(b), StackDelete(free[o], Addr(o, Sib(b))));
    BitsSet(k, k', bits, o, b, false);
  }

  lemma JoinedCount(k: Kinds, o: nat, b: nat)
    requires o + 1 < |k| && b < |k[o]| && Sib(b) < |k[o]| && b / 2 < |k[o + 1]|
    requires k[o][b] == Used && k[o][Sib(b)] == Free && k[o + 1][b / 2] == Split
    ensures BusyCount(Joined(k, o, b)[o]) == BusyCount(k[o]) - 1
    ensures forall j | 0 <= j < |k| && j != o :: BusyCount(Joined(k, o, b)[j]) == BusyCount(k[j])
  {
    BusyCountSet(k[o], b, Below);
    BusyCountSet(k[o][b := Below], Sib(b), Below);
    BusyCountSet(k[o + 1], b / 2, Used);
  }

  function BitmapLength(e: nat): nat {
    if Pow2(e) < 8 then 8 else Pow2(e)
  }

  ghost function AllUsed(top: nat): Kinds {
    seq(top + 1, o requires 0 <= o <= top => seq(Pow2(top - o), _ => if o == 0 then Used else Split))
  }

  // memset of the bitmap of every order
  function SetBitmaps(top: nat): (r: seq<seq<bool>>)
    ensures |r| == top + 1
    ensures forall o | 0 <= o <= top :: |r[o]| == BitmapLength(top - o) && forall b | 0 <= b < |r[o]| :: r[o][b]
  {
    seq(top + 1, o requires 0 <= o <= top => seq(BitmapLength(top - o), _ => true))
  }

  function BlockCounts(top: nat): (r: seq<int>)
    ensures |r| == top + 1 && forall o | 0 <= o <= top :: r[o] == Pow2(top - o)
  {
    seq(top + 1, o requires 0 <= o <= top => Pow2(top - o))
  }

  lemma AllUsedAt(top: nat)
    ensures |AllUsed(top)| == top + 1
    ensures forall o | 0 <= o <= top :: |AllUsed(top)[o]| == Pow2(top - o)
    ensures forall o, b :: KindAt(AllUsed(top), o, b) ==
              if !(0 <= o <= top && 0 <= b < Pow2(top - o)) then Below else if o == 0 then Used else Split
  {
  }

  lemma AllUsedInv(top: nat)
    ensures Inv(AllUsed(top)) && Pages(AllUsed(top)) == Pow2(top)
    ensures forall x: nat | x < Pow2(top) :: IsUsed(AllUsed(top), 0, x) && !PageFree(AllUsed(top), x)
  {
    AllUsedAt(top);
    var k := AllUsed(top);
    hide AllUsed, KindAt;
    forall o | 0 < o < |k|
      ensures |k[o - 1]| == 2 * |k[o]|
    {
      assert Pow2(top - (o - 1)) == 2 * Pow2(top - o);
    }
    forall o, b | 0 < o < |k|
      ensures Family(KindAt(k, o, b), KindAt(k, o - 1, 2 * b), KindAt(k, o - 1, 2 * b + 1))
    {
      assert Pow2(top - (o - 1)) == 2 * Pow2(top - o);
    }
    hide Pow2;
    forall x: nat | x < Pow2(top)
      ensures IsUsed(k, 0, x) && !PageFree(k, x)
    {
    }
  }

  lemma InitialTies(top: nat, bits: seq<seq<bool>>, free: seq<seq<nat>>)
    requires |bits| == |free| == top + 1 && forall o | 0 <= o <= top :: free[o] == []
    requires forall o | 0 <= o <= top ::
               |bits[o]| == BitmapLength(top - o) && forall b | 0 <= b < |bits[o]| :: bits[o][b]
    ensures Ties(AllUsed(top), bits, free)
  {
    AllUsedAt(top);
    AllUsedInv(top);
    hide AllUsed, KindAt, Inv, Pow2, Addr;
  }

  lemma {:induction false} AllBusy(s: seq<Kind>)
    requires forall i | 0 <= i < |s| :: Busy(s[i])
    ensures BusyCount(s) == |s|
  {
    if s != [] {
      AllBusy(s[1..]);
    }
  }

  lemma InitialSlack(top: nat, num: seq<int>)
    requires |num| == top + 1 && forall o | 0 <= o <= top :: num[o] == Pow2(top - o)
    ensures |AllUsed(top)| == top + 1 && forall o: nat | o <= top :: Slack(AllUsed(top), num, o) == 0
  {
    AllUsedAt(top);
    forall o: nat | o <= top
      ensures Slack(AllUsed(top), num, o) == 0
    {
      var row := AllUsed(top)[o];
      assert forall i | 0 <= i < |row| :: row[i] == KindAt(AllUsed(top), o, i);
      AllBusy(row);
    }
  }

  lemma {:induction false} EmptySize(free: seq<seq<nat>>, n: nat)
    requires n <= |free| && forall o | 0 <= o < |free| :: free[o] == []
    ensures FreeSize(free, n) == 0
  {
    if n > 0 {
      EmptySize(free, n - 1);
    }
  }

  predicate IsPower2(x: nat) {
    x == 1 || (x > 1 && x % 2 == 0 && IsPower2(x / 2))
  }

  lemma {:induction false} Power2Of(o: nat)
    ensures IsPower2(Pow2(o))
  {
    if o > 0 {
      Power2Of(o - 1);
      assert Pow2(o) / 2 == Pow2(o - 1) && Pow2(o) % 2 == 0;
    }
  }

  // min_possible_order: the number of trailing zero bits, none for zero
  method MinPossibleOrder(address: nat) returns (o: nat)
    ensures address == 0 ==> o == 0
    ensures address > 0 ==> exists odd: nat :: odd % 2 == 1 && address == odd * Pow2(o)
    ensures IsPower2(address) ==> address == Pow2(o)
  {
    var a: nat := address;
    o := 0;
    while a != 0 && a % 2 == 0
      invariant address == a * Pow2(o) && (IsPower2(address) ==> IsPower2(a)) && (a == 0 ==> o == 0)
      decreases a
    {
      MulHalf(a, o);
      o := o + 1;
      a := a / 2;
    }
  }

  lemma MulHalf(a: nat, o: nat)
    requires a % 2 == 0
    ensures a * Pow2(o) == (a / 2) * Pow2(o + 1)
  {
    var p, h := Pow2(o), a / 2;
    assert a == 2 * h && (2 * h) * p == h * (2 * p);
  }

  // Counting a freed block out after its joined block has been freed, rather than before.
  lemma SlackLater(k0: Kinds, num0: seq<int>, k1: Kinds, k2: Kinds, num2: seq<int>, o: nat)
    requires o < |num0| && SameSlack(k0, num0, k1, num0[o := num0[o] - 1]) && SameSlack(k1, num0, k2, num2)
    ensures SameSlack(k0, num0, k2, num2[o := num2[o] - 1])
  {
    forall j: nat | j < |k0|
      ensures Slack(k2, num2[o := num2[o] - 1], j) == Slack(k0, num0, j)
    {
      assert Slack(k2, num2, j) == Slack(k1, num0, j);
      assert Slack(k1, num0[o := num0[o] - 1], j) == Slack(k0, num0, j);
    }
  }

  lemma UsedInRange(k: Kinds, o: nat, b: nat)
    requires IsUsed(k, o, b)
    ensures o < |k| && b < |k[o]|
  {
  }

  /** Climbing from order 0, the first set bit is the one of the allocated block. */
  lemma SearchBit(k: Kinds, bits: seq<seq<bool>>, free: seq<seq<nat>>, order: nat, o: nat, b: nat)
    requires Ties(k, bits, free) && order <= o && IsUsed(k, o, b)
    ensures o < |k| == |bits| && Block(order, Addr(o, b)) < |bits[order]|
    ensures bits[order][Block(order, Addr(o, b))] <==> order == o
    ensures order == o ==> Block(order, Addr(o, b)) == b
  {
    var d := o - order;
    var c := Down(b, d);
    AddrDown(o, b, d);
    AddrDiv(order, c);
    DownBound(k, o, b, d);
    DownAnc(b, d);
    if d > 0 && KindAt(k, order, c) != Below {
      Chain(k, order, c, d);
    }
  }

  /** The buddy's bit is clear exactly when the buddy is free; at the top order it is never clear. */
  lemma BuddyBit(k: Kinds, bits: seq<seq<bool>>, free: seq<seq<nat>>, o: nat, b: nat)
    requires Ties(k, bits, free) && IsUsed(k, o, b)
    ensures o < |k| == |bits| && Sib(b) < |bits[o]|
    ensures bits[o][Sib(b)] <==> KindAt(k, o, Sib(b)) != Free
  {
    if o + 1 < |k| {
      ParentRule(k, o, b);
      ParentRule(k, o, Sib(b));
    }
  }

  lemma SomethingHere(k: Kinds, bits: seq<seq<bool>>, free: seq<seq<nat>>, o: nat)
    requires Ties(k, bits, free) && o < |k| && free[o] != []
    ensures FreeAtLeast(k, o)
  {
    var x := free[o][0];
    assert x in multiset(free[o]) && Addr(o, Block(o, x)) == x;
  }

  lemma NothingHere(k: Kinds, bits: seq<seq<bool>>, free: seq<seq<nat>>, o: nat)
    requires Ties(k, bits, free) && (o < |k| ==> free[o] == [])
    ensures FreeAtLeast(k, o) <==> o < |k| && FreeAtLeast(k, o + 1)
  {
    if o < |k| {
      forall b: nat
        ensures KindAt(k, o, b) != Free
      {
        assert multiset(free[o])[Addr(o, b)] == 0;
      }
    }
  }

  lemma AddrBound(o: nat, b: nat, top: nat)
    requires o <= top && b < Pow2(top - o)
    ensures Addr(o, b) < Pow2(top)
  {
    var p, q := Pow2(o), Pow2(top - o);
    MulMono(b + 1, q, p);
    MulSucc(b, p);
    PowProduct(o, top - o);
  }

  lemma {:induction false} ShapePow(k: Kinds, o: nat)
    requires Shape(k) && o < |k|
    ensures |k[o]| == Pow2(|k| - 1 - o)
    decreases |k| - o
  {
    if o < |k| - 1 {
      ShapePow(k, o + 1);
    }
  }

  lemma MulMono(a: nat, b: nat, c: nat)
    requires a <= b
    ensures a * c <= b * c
  {
  }

  lemma {:induction false} PowProduct(a: nat, b: nat)
    ensures Pow2(b) * Pow2(a) == Pow2(a + b)
  {
    if b > 0 {
      PowProduct(a, b - 1);
      MulAssoc(2, Pow2(b - 1), Pow2(a));
    }
  }

  /** Free lists are determined, up to the order of their entries, by the free blocks. */
  lemma ListsDetermined(k: Kinds, free: seq<seq<nat>>, k': Kinds, free': seq<seq<nat>>)
    requires ListsTie(k, free) && ListsTie(k', free') && |k| == |k'|
    requires forall o, b :: KindAt(k, o, b) == Free <==> KindAt(k', o, b) == Free
    ensures forall o: nat | o < |free| :: multiset(free[o]) == multiset(free'[o])
  {
    forall o: nat, x: nat | o < |free|
      ensures multiset(free[o])[x] == multiset(free'[o])[x]
    {
      if x in free[o] || x in free'[o] {
        assert Addr(o, Block(o, x)) == x;
      }
    }
  }
}
