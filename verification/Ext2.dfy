/**
  The ext2 block map: twelve direct pointers and one, two and three levels of indirect blocks, filled in on
  demand with blocks from per-group bitmaps.  num is the number of pointers in a block.
*/
module Ext2 {

  import Arith

  // ----- the block bitmaps

  /** free: the count in the group descriptor; bits: the block bitmap, true for a block in use. */
  datatype Group = Group(free: nat, bits: seq<bool>)

  function Clear(bits: seq<bool>): nat {
    if bits == [] then 0 else Clear(bits[..|bits| - 1]) + if bits[|bits| - 1] then 0 else 1
  }

  lemma {:induction false} ClearSet(bits: seq<bool>, i: nat)
    requires i < |bits| && !bits[i]
    ensures Clear(bits[i := true]) + 1 == Clear(bits)
  {
    var n := |bits| - 1;
    if i < n {
      assert bits[i := true][..n] == bits[..n][i := true];
      ClearSet(bits[..n], i);
    } else {
      assert bits[i := true][..n] == bits[..n];
    }
  }

  lemma {:induction false} ClearNone(bits: seq<bool>)
    requires forall i | 0 <= i < |bits| :: bits[i]
    ensures Clear(bits) == 0
  {
    if bits != [] {
      ClearNone(bits[..|bits| - 1]);
    }
  }

  /** The descriptor of every group counts the clear bits of its bitmap. */
  ghost predicate Consistent(groups: seq<Group>, per: nat) {
    per > 0 && forall g | 0 <= g < |groups| :: |groups[g].bits| == per && groups[g].free == Clear(groups[g].bits)
  }

  function Quot(b: nat, per: nat): nat
    requires per > 0
  {
    b / per
  }

  function Rem(b: nat, per: nat): nat
    requires per > 0
  {
    b % per
  }

  /** Bit i of group g stands for this block. */
  function BlockId(g: nat, i: nat, per: nat): nat {
    i + g * per
  }

  lemma SameBlock(per: nat, c: nat, g: nat, i: nat)
    requires per > 0 && i < per
    ensures Quot(c, per) == g && Rem(c, per) == i <==> c == BlockId(g, i, per)
  {
    Arith.DivModUnique(i + g * per, g, i, per);
  }

  /** Block b is in use, or is no block at all. */
  predicate Taken(groups: seq<Group>, per: nat, b: nat)
    requires per > 0
  {
    var g, i := Quot(b, per), Rem(b, per);
    g >= |groups| || i >= |groups[g].bits| || groups[g].bits[i]
  }

  /** No group has a free block. */
  predicate AllFull(groups: seq<Group>) {
    forall g | 0 <= g < |groups| :: groups[g].free == 0
  }

  function SetBit(groups: seq<Group>, g: nat, i: nat): seq<Group>
    requires g < |groups| && i < |groups[g].bits| && groups[g].free > 0
  {
    groups[g := Group(groups[g].free - 1, groups[g].bits[i := true])]
  }

  // ----- which block is taken

  /** The first clear bit. */
  function FirstClear(bits: seq<bool>): (i: nat)
    ensures i <= |bits| && (i < |bits| ==> !bits[i]) && forall j | 0 <= j < i :: bits[j]
  {
    if bits == [] || !bits[0] then 0 else 1 + FirstClear(bits[1..])
  }

  /** The first group with a free block. */
  function FirstGroup(groups: seq<Group>): (g: nat)
    ensures g <= |groups| && (g < |groups| ==> groups[g].free > 0) && forall j | 0 <= j < g :: groups[j].free == 0
  {
    if groups == [] || groups[0].free > 0 then 0 else 1 + FirstGroup(groups[1..])
  }

  /** The number that the allocator hands out, if any group has a free block. */
  function FirstFree(groups: seq<Group>, per: nat): nat {
    var g := FirstGroup(groups);
    if g < |groups| then BlockId(g, FirstClear(groups[g].bits), per) else 0
  }

  lemma FirstIs(groups: seq<Group>, g: nat, i: nat, per: nat)
    requires g < |groups| && groups[g].free > 0 && (forall j | 0 <= j < g :: groups[j].free == 0)
    requires i < |groups[g].bits| && !groups[g].bits[i] && forall j | 0 <= j < i :: groups[g].bits[j]
    ensures FirstFree(groups, per) == BlockId(g, i, per)
  {
    var f, c := FirstGroup(groups), FirstClear(groups[g].bits);
    assert f == g;
    assert c == i;
  }

  /** The number handed out is 0, which cannot be told from failure, exactly when block 0 is free. */
  lemma ZeroExactly(groups: seq<Group>, per: nat)
    requires Consistent(groups, per)
    ensures !Taken(groups, per, 0) <==> !AllFull(groups) && FirstFree(groups, per) == 0
  {
    hide Quot, Rem;
    SameBlock(per, 0, 0, 0);
    var g := FirstGroup(groups);
    if !Taken(groups, per, 0) {
      TakeOne(groups, per, 0, 0);
      FirstIs(groups, 0, 0, per);
    } else if g < |groups| {
      var i := FirstClear(groups[g].bits);
      if i == |groups[g].bits| {
        ClearNone(groups[g].bits);
      }
      SameBlock(per, BlockId(g, i, per), g, i);
    }
  }

  /** Such a bitmap: block 0 is free, and so is block 1, but the allocator reports an error. */
  lemma ZeroExample()
    ensures var groups := [Group(2, [false, false])];
            Consistent(groups, 2) && !Taken(groups, 2, 0) && !Taken(groups, 2, 1) && !AllFull(groups) &&
            FirstFree(groups, 2) == 0
  {
    var bits := [false, false];
    assert bits == seq(2, _ => false);
    ClearAll(2);
  }

  // ----- the numbering of the disk

  /**
    Block n of the disk is in use: bit i of group g stands for block first + g * per + i there, and the blocks below
    the first data block hold the boot record and the superblock.
  */
  predicate InUse(groups: seq<Group>, per: nat, first: nat, n: nat)
    requires per > 0
  {
    n < first || Taken(groups, per, n - first)
  }

  // The first bit is set, all others are clear.
  function OneSet(per: nat): seq<bool>
    requires per > 0
  {
    [true] + seq(per - 1, _ => false)
  }

  lemma {:induction false} ClearAll(n: nat)
    ensures Clear(seq(n, _ => false)) == n
  {
    if n > 0 {
      var s := seq(n, _ => false);
      assert s[..n - 1] == seq(n - 1, _ => false);
      ClearAll(n - 1);
    }
  }

  lemma {:induction false} ClearOneSet(n: nat)
    ensures Clear([true] + seq(n, _ => false)) == n
  {
    var s := [true] + seq(n, _ => false);
    if n > 0 {
      assert s[..n] == [true] + seq(n - 1, _ => false);
      ClearOneSet(n - 1);
    } else {
      assert s == [true] && s[..0] == [];
    }
  }

  /** A disk whose data blocks begin after block 0: the allocator hands out block 1, which is in use. */
  lemma HandsOutUsed(per: nat, first: nat)
    requires per >= 2 && first > 0
    ensures var groups := [Group(per - 1, OneSet(per))];
            Consistent(groups, per) && !AllFull(groups) && FirstFree(groups, per) == 1 && InUse(groups, per, first, 1)
  {
    var groups := [Group(per - 1, OneSet(per))];
    ClearOneSet(per - 1);
    FirstIs(groups, 0, 1, per);
    if first == 1 {
      SameBlock(per, 0, 0, 0);
    }
  }

  /** The block handed out is free on the disk, whatever the bitmaps, exactly if the data blocks begin at block 0. */
  lemma RightBlockExactly(per: nat, first: nat)
    requires per >= 2
    ensures (forall groups | Consistent(groups, per) && !AllFull(groups) ::
               !InUse(groups, per, first, FirstFree(groups, per)))
            <==> first == 0
  {
    if first == 0 {
      forall groups | Consistent(groups, per) && !AllFull(groups)
        ensures !InUse(groups, per, first, FirstFree(groups, per))
      {
        FirstFreeIsFree(groups, per);
      }
    } else {
      HandsOutUsed(per, first);
      var groups := [Group(per - 1, OneSet(per))];
      assert InUse(groups, per, first, FirstFree(groups, per));
    }
  }

  lemma FirstFreeIsFree(groups: seq<Group>, per: nat)
    requires Consistent(groups, per) && !AllFull(groups)
    ensures !Taken(groups, per, FirstFree(groups, per))
  {
    hide Quot, Rem;
    var g := FirstGroup(groups);
    var i := FirstClear(groups[g].bits);
    if i == |groups[g].bits| {
      ClearNone(groups[g].bits);
    }
    TakeOne(groups, per, g, i);
  }

  // ----- how many blocks are left

  function TotalFree(groups: seq<Group>): nat {
    if groups == [] then 0 else TotalFree(groups[..|groups| - 1]) + groups[|groups| - 1].free
  }

  lemma {:induction false} TotalNone(groups: seq<Group>)
    ensures TotalFree(groups) == 0 <==> AllFull(groups)
  {
    if groups != [] {
      var n := |groups| - 1;
      TotalNone(groups[..n]);
      assert AllFull(groups) <==> AllFull(groups[..n]) && groups[n].free == 0;
    }
  }

  lemma {:induction false} TotalSet(groups: seq<Group>, g: nat, i: nat)
    requires g < |groups| && i < |groups[g].bits| && groups[g].free > 0
    ensures TotalFree(SetBit(groups, g, i)) + 1 == TotalFree(groups)
  {
    var n := |groups| - 1;
    var groups' := SetBit(groups, g, i);
    if g < n {
      assert groups'[..n] == SetBit(groups[..n], g, i);
      TotalSet(groups[..n], g, i);
    } else {
      assert groups'[..n] == groups[..n];
    }
  }

  /** Taking a free block: the counts stay right, and no other block changes. */
  lemma TakeOne(groups: seq<Group>, per: nat, g: nat, i: nat)
    requires Consistent(groups, per) && g < |groups| && i < per && !groups[g].bits[i]
    ensures groups[g].free > 0 && Consistent(SetBit(groups, g, i), per)
    ensures !Taken(groups, per, BlockId(g, i, per))
    ensures forall b: nat :: Taken(SetBit(groups, g, i), per, b) <==> Taken(groups, per, b) || b == BlockId(g, i, per)
  {
    hide Quot, Rem, BlockId;
    ClearSet(groups[g].bits, i);
    SameBlock(per, BlockId(g, i, per), g, i);
    forall c: nat
      ensures Taken(SetBit(groups, g, i), per, c) <==> Taken(groups, per, c) || c == BlockId(g, i, per)
    {
      SameBlock(per, c, g, i);
    }
  }

  // ----- from a file block number to a place in the tree of pointers

  /** How many file blocks one pointer spans with `left` levels to go. */
  function Span(num: nat, left: nat): nat {
    if left == 3 then num * num else if left == 2 then num else 1
  }

  // ext2_get_indirection
  function Level(num: nat, k: nat): nat {
    if k < 12 then 0 else if k < num + 12 then 1 else if k < num + 12 + num * num then 2 else 3
  }

  function Indirect(num: nat, k: nat): nat {
    if k < 12 then 0 else if k < num + 12 then k - 12
    else if k < num + 12 + num * num then k - 12 - num else k - 12 - num - num * num
  }

  function Direct(num: nat, k: nat): nat {
    if Level(num, k) == 0 then k else 11 + Level(num, k)
  }

  /** The block numbers that the map can hold. */
  predicate InRange(num: nat, k: nat) {
    k < 12 + num + num * num + num * num * num
  }

  /** The index to follow at each level. */
  function Digits(num: nat, left: nat, x: nat): (r: seq<nat>)
    requires num > 0 && left <= 3
    ensures |r| == left
  {
    if left == 0 then [] else [Quot(x, Span(num, left))] + Digits(num, left - 1, Rem(x, Span(num, left)))
  }

  function Number(num: nat, d: seq<nat>): nat
    requires |d| <= 3
  {
    if d == [] then 0 else d[0] * Span(num, |d|) + Number(num, d[1..])
  }

  lemma QuotRem(x: nat, s: nat)
    requires s > 0
    ensures x == Quot(x, s) * s + Rem(x, s) && Rem(x, s) < s
  {
  }

  lemma QuotSmall(x: nat, s: nat, num: nat)
    requires s > 0 && x < num * s
    ensures Quot(x, s) < num
  {
    QuotRem(x, s);
  }

  lemma {:induction false} DigitsNumber(num: nat, left: nat, x: nat)
    requires num > 0 && left <= 3 && x < num * Span(num, left) && (left == 0 ==> x == 0)
    ensures Number(num, Digits(num, left, x)) == x
    ensures forall i | 0 <= i < left :: Digits(num, left, x)[i] < num
  {
    if left > 0 {
      SpanNext(num, left);
      QuotRem(x, Span(num, left));
      QuotSmall(x, Span(num, left), num);
      hide Quot, Rem;
      DigitsNumber(num, left - 1, Rem(x, Span(num, left)));
    }
  }

  lemma SpanNext(num: nat, left: nat)
    requires num > 0 && 1 <= left <= 3
    ensures Span(num, left) > 0 && (left > 1 ==> Span(num, left) == num * Span(num, left - 1)) &&
            (left == 1 ==> Span(num, left) == 1)
  {
  }

  /** The pointers to follow for file block k: a slot of the inode, then an index at each level. */
  function Path(num: nat, k: nat): seq<nat>
    requires num > 0
  {
    [Direct(num, k)] + Digits(num, Level(num, k), Indirect(num, k))
  }

  lemma IndirectFits(num: nat, k: nat)
    requires num > 0 && InRange(num, k)
    ensures Indirect(num, k) < num * Span(num, Level(num, k)) && (Level(num, k) == 0 ==> Indirect(num, k) == 0)
  {
    assert num * (num * num) == num * num * num;
  }

  /** Different file blocks have different paths. */
  lemma PathsDiffer(num: nat, j: nat, k: nat)
    requires num > 0 && InRange(num, j) && InRange(num, k) && Path(num, j) == Path(num, k)
    ensures j == k
  {
    IndirectFits(num, j);
    IndirectFits(num, k);
    DigitsNumber(num, Level(num, j), Indirect(num, j));
    DigitsNumber(num, Level(num, k), Indirect(num, k));
    var p, q := Path(num, j), Path(num, k);
    assert p[0] == q[0] && p[1..] == q[1..];
    assert p[1..] == Digits(num, Level(num, j), Indirect(num, j)) &&
      q[1..] == Digits(num, Level(num, k), Indirect(num, k));
    hide Digits, Number;
  }

  // ----- the tree of pointers on disk

  type Disk = map<nat, seq<nat>>

  function Zeros(num: nat): seq<nat> {
    seq(num, _ => 0)
  }

  /** The pointers in block b. */
  function Block(disk: Disk, num: nat, b: nat): (r: seq<nat>)
    ensures |r| == num
  {
    if b in disk && |disk[b]| == num then disk[b] else Zeros(num)
  }

  /** An inode's pointers, the disk, and which block is the indirect block at each place. */
  datatype Tree = Tree(num: nat, blocks: seq<nat>, disk: Disk, nodes: map<seq<nat>, nat>)

  function Parent(p: seq<nat>): seq<nat>
    requires p != []
  {
    p[..|p| - 1]
  }

  function Last(p: seq<nat>): nat
    requires p != []
  {
    p[|p| - 1]
  }

  /** A place for a pointer: an inode slot below 15, or an index in the indirect block above. */
  predicate Slot(num: nat, p: seq<nat>) {
    p != [] && p[0] < 15 && forall i | 1 <= i < |p| :: p[i] < num
  }

  /** A place for the pointer to an indirect block: slots 12, 13 and 14 lead to one, two and three levels of them. */
  predicate Place(num: nat, p: seq<nat>) {
    Slot(num, p) && 12 <= p[0] && |p| <= p[0] - 11
  }

  /** The pointer at place p; below a missing indirect block all pointers are zero. */
  function Stored(t: Tree, p: seq<nat>): nat
    requires p != []
  {
    if |p| == 1 then if p[0] < |t.blocks| then t.blocks[p[0]] else 0
    else if Parent(p) in t.nodes && Last(p) < t.num then Block(t.disk, t.num, t.nodes[Parent(p)])[Last(p)]
    else 0
  }

  predicate NodeOk(t: Tree, p: seq<nat>, groups: seq<Group>, per: nat)
    requires per > 0 && p in t.nodes
  {
    Place(t.num, p) && t.nodes[p] != 0 && Taken(groups, per, t.nodes[p]) && (|p| > 1 ==> Parent(p) in t.nodes)
  }

  ghost predicate NodesOk(t: Tree, groups: seq<Group>, per: nat)
    requires per > 0
  {
    forall p | p in t.nodes :: NodeOk(t, p, groups, per)
  }

  ghost predicate PointersOk(t: Tree) {
    forall p | Place(t.num, p) :: Stored(t, p) == if p in t.nodes then t.nodes[p] else 0
  }

  ghost predicate Distinct(nodes: map<seq<nat>, nat>) {
    forall p, q | p in nodes && q in nodes && nodes[p] == nodes[q] :: p == q
  }

  ghost predicate FreeClear(t: Tree, groups: seq<Group>, per: nat)
    requires per > 0
  {
    forall b: nat | !Taken(groups, per, b) :: Block(t.disk, t.num, b) == Zeros(t.num)
  }

  /** The indirect blocks form a tree of distinct blocks in use, and free blocks read as zero. */
  ghost predicate TreeOk(t: Tree, groups: seq<Group>, per: nat) {
    per > 0 && t.num > 0 && |t.blocks| == 15 &&
    NodesOk(t, groups, per) && PointersOk(t) && Distinct(t.nodes) && FreeClear(t, groups, per)
  }

  /** Writing the pointer at place p. */
  function Write(t: Tree, p: seq<nat>, v: nat): Tree
    requires Slot(t.num, p) && |t.blocks| == 15 && (|p| > 1 ==> Parent(p) in t.nodes)
  {
    if |p| == 1 then t.(blocks := t.blocks[p[0] := v])
    else
      var b := t.nodes[Parent(p)];
      t.(disk := t.disk[b := Block(t.disk, t.num, b)[Last(p) := v]])
  }

  /** It changes that pointer and no other. */
  lemma StoredWrite(t: Tree, groups: seq<Group>, per: nat, p: seq<nat>, v: nat, q: seq<nat>)
    requires TreeOk(t, groups, per) && Slot(t.num, p) && (|p| > 1 ==> Parent(p) in t.nodes) && q != []
    ensures Stored(Write(t, p, v), q) == if q == p then v else Stored(t, q)
  {
    hide Taken, Zeros, NodeOk;
    if |p| > 1 && |q| > 1 && Parent(q) in t.nodes && t.nodes[Parent(q)] == t.nodes[Parent(p)] {
      assert Parent(q) == Parent(p);
      assert q == Parent(q) + [Last(q)] && p == Parent(p) + [Last(p)];
    }
  }

  lemma NodeAt(t: Tree, groups: seq<Group>, per: nat, p: seq<nat>)
    requires TreeOk(t, groups, per) && p in t.nodes
    ensures NodeOk(t, p, groups, per)
  {
  }

  // A write into an indirect block leaves free blocks alone.
  lemma FreeStays(t: Tree, groups: seq<Group>, per: nat, p: seq<nat>, v: nat, b: nat)
    requires TreeOk(t, groups, per) && Slot(t.num, p) && (|p| > 1 ==> Parent(p) in t.nodes) && !Taken(groups, per, b)
    ensures Block(Write(t, p, v).disk, t.num, b) == Zeros(t.num)
  {
    if |p| > 1 {
      NodeAt(t, groups, per, Parent(p));
    }
  }

  /** Writing a pointer to a data block. */
  lemma DataKeeps(t: Tree, groups: seq<Group>, per: nat, p: seq<nat>, v: nat)
    requires TreeOk(t, groups, per) && Slot(t.num, p) && (|p| > 1 ==> Parent(p) in t.nodes) && !Place(t.num, p)
    ensures TreeOk(Write(t, p, v), groups, per)
    ensures forall q: seq<nat> | q != [] :: Stored(Write(t, p, v), q) == if q == p then v else Stored(t, q)
  {
    var t' := Write(t, p, v);
    hide Zeros, Block, Distinct;
    forall q: seq<nat> | q != []
      ensures Stored(t', q) == if q == p then v else Stored(t, q)
    {
      StoredWrite(t, groups, per, p, v, q);
    }
    hide Stored;
    forall b: nat | !Taken(groups, per, b)
      ensures Block(t'.disk, t.num, b) == Zeros(t.num)
    {
      FreeStays(t, groups, per, p, v, b);
    }
    forall q | q in t'.nodes
      ensures NodeOk(t', q, groups, per)
    {
      NodeAt(t, groups, per, q);
    }
    hide Taken, NodeOk;
  }

  /** A new indirect block. */
  function Linked(t: Tree, p: seq<nat>, b: nat): Tree
    requires Slot(t.num, p) && |t.blocks| == 15 && (|p| > 1 ==> Parent(p) in t.nodes)
  {
    var t1 := Write(t, p, b);
    t1.(nodes := t1.nodes[p := b])
  }

  lemma LinkedStored(t: Tree, groups: seq<Group>, per: nat, p: seq<nat>, b: nat, q: seq<nat>)
    requires TreeOk(t, groups, per) && Slot(t.num, p) && (|p| > 1 ==> Parent(p) in t.nodes) && p !in t.nodes
    requires !Taken(groups, per, b) && q != []
    ensures Stored(Linked(t, p, b), q) == if q == p then b else Stored(t, q)
  {
    StoredWrite(t, groups, per, p, b, q);
    FreeStays(t, groups, per, p, b, b);
    hide TreeOk, Taken;
  }

  /** It comes into use where there was none, and no pointer below or elsewhere changes. */
  lemma LinkKeeps(t: Tree, groups: seq<Group>, groups': seq<Group>, per: nat, p: seq<nat>, b: nat)
    requires TreeOk(t, groups, per) && Place(t.num, p) && (|p| > 1 ==> Parent(p) in t.nodes) && p !in t.nodes
    requires !Taken(groups, per, b) && b != 0
    requires forall c: nat :: Taken(groups', per, c) <==> Taken(groups, per, c) || c == b
    ensures TreeOk(Linked(t, p, b), groups', per)
    ensures forall q: seq<nat> | q != [] :: Stored(Linked(t, p, b), q) == if q == p then b else Stored(t, q)
  {
    hide NodesOk, PointersOk, Distinct, FreeClear, Stored, Block, Taken;
    LinkNodes(t, groups, groups', per, p, b);
    LinkPointers(t, groups, per, p, b);
    LinkDistinct(t, groups, per, p, b);
    LinkFree(t, groups, groups', per, p, b);
  }

  lemma LinkNodes(t: Tree, groups: seq<Group>, groups': seq<Group>, per: nat, p: seq<nat>, b: nat)
    requires TreeOk(t, groups, per) && Place(t.num, p) && (|p| > 1 ==> Parent(p) in t.nodes) && b != 0
    requires forall c: nat :: Taken(groups', per, c) <==> Taken(groups, per, c) || c == b
    ensures NodesOk(Linked(t, p, b), groups', per)
  {
    hide PointersOk, Distinct, FreeClear, Block;
    var t' := Linked(t, p, b);
    forall q | q in t'.nodes
      ensures NodeOk(t', q, groups', per)
    {
      if q != p {
        NodeAt(t, groups, per, q);
      }
      hide Taken;
    }
  }

  lemma LinkPointers(t: Tree, groups: seq<Group>, per: nat, p: seq<nat>, b: nat)
    requires TreeOk(t, groups, per) && Slot(t.num, p) && (|p| > 1 ==> Parent(p) in t.nodes) && p !in t.nodes
    requires !Taken(groups, per, b)
    ensures PointersOk(Linked(t, p, b))
    ensures forall q: seq<nat> | q != [] :: Stored(Linked(t, p, b), q) == if q == p then b else Stored(t, q)
  {
    hide NodesOk, Distinct, FreeClear, Stored, Block, Taken;
    forall q: seq<nat> | q != []
      ensures Stored(Linked(t, p, b), q) == if q == p then b else Stored(t, q)
    {
      LinkedStored(t, groups, per, p, b, q);
    }
  }

  lemma LinkDistinct(t: Tree, groups: seq<Group>, per: nat, p: seq<nat>, b: nat)
    requires TreeOk(t, groups, per) && p !in t.nodes && !Taken(groups, per, b)
    ensures Distinct(t.nodes[p := b])
  {
    hide PointersOk, FreeClear;
    forall q | q in t.nodes
      ensures t.nodes[q] != b
    {
      NodeAt(t, groups, per, q);
    }
  }

  lemma LinkFree(t: Tree, groups: seq<Group>, groups': seq<Group>, per: nat, p: seq<nat>, b: nat)
    requires TreeOk(t, groups, per) && Slot(t.num, p) && (|p| > 1 ==> Parent(p) in t.nodes)
    requires forall c: nat :: Taken(groups', per, c) <==> Taken(groups, per, c) || c == b
    ensures FreeClear(Linked(t, p, b), groups', per)
  {
    hide NodesOk, PointersOk, Distinct, Block, Zeros, Taken;
    forall c: nat | !Taken(groups', per, c)
      ensures Block(Linked(t, p, b).disk, t.num, c) == Zeros(t.num)
    {
      FreeStays(t, groups, per, p, b, c);
    }
  }

  // ----- reading

  /** The pointer found by following p from pointer b. */
  function Follow(disk: Disk, num: nat, b: nat, p: seq<nat>): nat
    decreases |p|
  {
    if p == [] || b == 0 || p[0] >= num then b else Follow(disk, num, Block(disk, num, b)[p[0]], p[1..])
  }

  // A full path: each place above its end can hold an indirect block.
  predicate Full(num: nat, x: seq<nat>) {
    Slot(num, x) && |x| == if x[0] < 12 then 1 else x[0] - 10
  }

  lemma PathFull(num: nat, k: nat)
    requires num > 0 && InRange(num, k)
    ensures Full(num, Path(num, k))
  {
    IndirectFits(num, k);
    DigitsNumber(num, Level(num, k), Indirect(num, k));
    hide Digits;
  }

  // Below a missing indirect block everything is missing.
  lemma {:induction false} Missing(t: Tree, groups: seq<Group>, per: nat, x: seq<nat>, j: nat)
    requires TreeOk(t, groups, per) && 1 <= j < |x| && x[..j] !in t.nodes
    ensures Stored(t, x) == 0
    decreases |x| - j
  {
    hide Block;
    if j + 1 < |x| {
      assert Parent(x[..j + 1]) == x[..j];
      if x[..j + 1] in t.nodes {
        NodeAt(t, groups, per, x[..j + 1]);
      }
      Missing(t, groups, per, x, j + 1);
    }
  }

  lemma {:induction false} FollowStored(t: Tree, groups: seq<Group>, per: nat, x: seq<nat>, j: nat)
    requires TreeOk(t, groups, per) && Full(t.num, x) && 1 <= j <= |x|
    ensures Follow(t.disk, t.num, Stored(t, x[..j]), x[j..]) == Stored(t, x)
    decreases |x| - j
  {
    hide NodesOk, Distinct, FreeClear, Taken, Block;
    if j == |x| {
      assert x[..j] == x;
    } else {
      assert Place(t.num, x[..j]);
      hide TreeOk, Place, Full;
      if x[..j] in t.nodes {
        NodeAt(t, groups, per, x[..j]);
        assert Parent(x[..j + 1]) == x[..j] && Last(x[..j + 1]) == x[j];
        assert x[j..][1..] == x[j + 1..];
        FollowStored(t, groups, per, x, j + 1);
      } else {
        Missing(t, groups, per, x, j);
      }
    }
  }

  // ----- the operations

  const ENOSPC := 28
  const EIO := 5

  class FileSystem {
    const num: nat
    const per: nat
    var groups: seq<Group>
    var disk: Disk
    var blocks: seq<nat>
    ghost var nodes: map<seq<nat>, nat>

    ghost function T(): Tree
      reads this
    {
      Tree(num, blocks, disk, nodes)
    }

    ghost predicate Valid()
      reads this
    {
      num > 0 && Consistent(groups, per) && TreeOk(T(), groups, per)
    }

    // an inode without blocks on a disk whose free blocks are clear
    constructor (n: nat, perGroup: nat, bitmaps: seq<Group>, contents: Disk)
      requires n > 0 && Consistent(bitmaps, perGroup)
      requires forall b: nat | !Taken(bitmaps, perGroup, b) :: Block(contents, n, b) == Zeros(n)
      ensures Valid() && groups == bitmaps && nodes == map[] && forall k | 0 <= k < 15 :: blocks[k] == 0
    {
      num, per, groups, disk, blocks, nodes := n, perGroup, bitmaps, contents, seq(15, _ => 0), map[];
    }

    // __allocate_block_from_group: the first clear bit of the group's bitmap, or 0
    method AllocateFromGroup(g: nat) returns (i: nat)
      requires Consistent(groups, per) && g < |groups| && groups[g].free > 0
      modifies this`groups
      ensures i < per == |old(groups)[g].bits| && !old(groups)[g].bits[i] && groups == SetBit(old(groups), g, i)
      ensures forall j | 0 <= j < i :: old(groups)[g].bits[j]
    {
      i := 0;
      while i < per
        invariant i <= per && groups == old(groups)
        invariant forall j | 0 <= j < i :: groups[g].bits[j]
      {
        if !groups[g].bits[i] {
          groups := groups[g := Group(groups[g].free - 1, groups[g].bits[i := true])];
          return;
        }
        i := i + 1;
      }
      ClearNone(groups[g].bits);
      assert false;
    }

    // __alloc_block
    method AllocBlock() returns (err: int, b: nat)
      requires Consistent(groups, per)
      modifies this`groups
      ensures Consistent(groups, per) && (err == 0 || err == -EIO || err == -ENOSPC)
      ensures err == -ENOSPC <==> AllFull(old(groups))
      ensures err == -EIO <==> !Taken(old(groups), per, 0)
      ensures err == -ENOSPC ==> groups == old(groups)
      ensures err != -ENOSPC ==> b == FirstFree(old(groups), per) && !Taken(old(groups), per, b)
      ensures err != -ENOSPC ==> forall c: nat :: Taken(groups, per, c) <==> Taken(old(groups), per, c) || c == b
      ensures err == 0 ==> b != 0
      ensures TotalFree(groups) == TotalFree(old(groups)) - if err == -ENOSPC then 0 else 1
    {
      hide Taken, Consistent, FirstFree;
      ZeroExactly(groups, per);
      var g := 0;
      b := 0;
      while g < |groups|
        invariant g <= |groups| && groups == old(groups)
        invariant forall j | 0 <= j < g :: groups[j].free == 0
      {
        if groups[g].free > 0 {
          var i := AllocateFromGroup(g);
          TakenFirst(old(groups), per, g, i);
          b := BlockId(g, i, per);
          return if b == 0 then -EIO else 0, b;
        }
        g := g + 1;
      }
      err := -ENOSPC;
    }

    // ext2_inode_get_block
    method GetBlock(k: nat) returns (b: nat)
      requires Valid() && InRange(num, k)
      ensures b == Stored(T(), Path(num, k))
    {
      hide TreeOk, Quot, Rem, Span, Level, Indirect, Direct, InRange, Follow, Digits, Stored, Path;
      GetStart(T(), groups, per, k);
      ghost var x := Path(num, k);
      var level: nat, rest: nat := Level(num, k), Indirect(num, k);
      b := blocks[Direct(num, k)];
      var i := 0;
      while i < level && b != 0
        invariant i <= level <= 3 && rest < num * Span(num, level - i)
        invariant Follow(disk, num, b, Digits(num, level - i, rest)) == Stored(T(), x)
      {
        FollowDigit(disk, num, b, level - i, rest);
        var div := Span(num, level - i);
        b, rest := Block(disk, num, b)[Quot(rest, div)], Rem(rest, div);
        i := i + 1;
      }
      FollowEnd(disk, num, b, level - i, rest);
    }

    // the first half of the loop of ext2_inode_set_block: the indirect block at x[..i + 1], allocated and linked if
    // missing
    method EnsureNode(ghost t0: Tree, ghost x: seq<nat>, i: nat, b: nat, prevBlock: nat, prev: nat)
      returns (err: int, nb: nat)
      requires Consistent(groups, per) && i + 1 < |x| && Reached(t0, T(), groups, per, x, i) &&
               b == Stored(T(), x[..i + 1])
      requires prev == x[i] && (i > 0 ==> x[..i] in nodes && prevBlock == nodes[x[..i]])
      modifies this`groups, this`blocks, this`disk, this`nodes
      ensures Consistent(groups, per) && (err == 0 || err == -ENOSPC)
      ensures err == 0 ==> Reached(t0, T(), groups, per, x, i + 1) && x[..i + 1] in nodes && nodes[x[..i + 1]] == nb
      ensures err != 0 ==> TreeOk(T(), groups, per) && SameData(t0, T())
      ensures Grows(old(groups), old(nodes), groups, nodes, per)
      ensures NodeEnsured(old(groups), old(nodes), groups, nodes, per, x[..i + 1], err)
      ensures blocks == old(blocks) || (i == 0 && b == 0)
      ensures forall c: nat | i == 0 || c != prevBlock :: Block(disk, num, c) == Block(old(disk), num, c)
    {
      hide TreeOk, Stored, Reached, SameData, Consistent, Taken, Slot, Place, AllFull, Grows, NodeEnsured, TotalFree;
      ghost var p := x[..i + 1];
      ReachedFacts(t0, T(), groups, per, x, i);
      PlaceFits(T(), groups, per, p);
      NothingGrown(groups, nodes, per, p);
      nb := b;
      if b != 0 {
        ReachedNext(t0, T(), groups, per, x, i);
        return 0, nb;
      }
      ghost var groups0, t := groups, T();
      err, nb := AllocBlock();
      if err != 0 {
        GroupsGrow(t, groups0, groups, per);
        AllocFailed(groups0, groups, nodes, per, p, err, nb);
        return -ENOSPC, 0;
      }
      ReachedLink(t0, t, groups0, groups, per, x, i, nb);
      LinkedIs(t, p, nb);
      NodeGrown(groups0, groups, nodes, per, p, nb);
      if i == 0 {
        blocks := blocks[prev := nb];
      } else {
        disk := disk[prevBlock := Block(disk, num, prevBlock)[prev := nb]];
      }
      nodes := nodes[p := nb];
    }

    // ext2_inode_set_block
    method SetBlock(k: nat, v: nat) returns (err: int)
      requires Valid() && InRange(num, k)
      modifies this`groups, this`blocks, this`disk, this`nodes
      ensures Valid() && (err == 0 || err == -ENOSPC)
      ensures var need := Need(old(nodes), Path(num, k), 0);
              err == 0 <==> need == 0 || (Taken(old(groups), per, 0) && need <= TotalFree(old(groups)))
      ensures forall j: nat | InRange(num, j) ::
                Stored(T(), Path(num, j)) == if err == 0 && j == k then v else Stored(old(T()), Path(num, j))
      ensures Grows(old(groups), old(nodes), groups, nodes, per)
      ensures DiskKept(old(T()), T())
      ensures err != 0 ==> Undone(old(T()), T(), old(groups), per, Direct(num, k))
    {
      hide TreeOk, Quot, Rem, Span, Level, Indirect, Direct, InRange, Digits, Stored, Path, Reached, Finished, Place,
        Slot, Consistent, SameData, Block, AllFull, Taken, Grows, NodeEnsured, Budget, Undone, Need, TotalFree,
        DiskKept;
      PerPositive(T(), groups, per);
      ghost var t0, x := T(), Path(num, k);
      SetStart(t0, groups, per, k);
      PathFull(num, k);
      var level: nat, rest: nat, direct: nat := Level(num, k), Indirect(num, k), Direct(num, k);
      NoGrowth(groups, nodes, per);
      DiskSame(t0);
      BudgetStart(groups, nodes, per, x);
      if level == 0 {
        FinishAt(t0, t0, groups, per, x, 0, v);
        assert Write(t0, x, v) == t0.(blocks := blocks[direct := v]);
        blocks := blocks[direct := v];
        DiskTouched(t0, t0, T(), [], 0);
        FinishedMeans(t0, T(), groups, per, k, v);
        FinishedOk(t0, T(), groups, per, x, v);
        NeedNone(nodes, x);
        return 0;
      }
      NothingUndone(t0, groups, per, direct);
      var b: nat, prevBlock: nat, prev: nat, i: nat := blocks[direct], 0, direct, 0;
      while i < level
        invariant i <= level == |x| - 1 <= 3 && Consistent(groups, per) && rest < num * Span(num, level - i)
        invariant x[i + 1..] == Digits(num, level - i, rest)
        invariant i < level ==> Reached(t0, T(), groups, per, x, i) && b == Stored(T(), x[..i + 1]) && prev == x[i]
        invariant 0 < i < level ==> x[..i] in nodes && prevBlock == nodes[x[..i]]
        invariant i == level ==> Finished(t0, T(), groups, per, x, v)
        invariant Grows(old(groups), old(nodes), groups, nodes, per) && DiskKept(t0, T())
        invariant Budget(old(groups), old(nodes), groups, nodes, per, x, i)
        invariant (i < level ==> Undone(t0, T(), old(groups), per, direct)) && (i == 0 ==> T() == t0)
      {
        ghost var t, groups1 := T(), groups;
        err, b := EnsureNode(t0, x, i, b, prevBlock, prev);
        GrowsTrans(old(groups), old(nodes), groups1, t.nodes, groups, nodes, per);
        BudgetNext(old(groups), old(nodes), groups1, t.nodes, groups, nodes, per, x, i, err);
        UndoneNext(t0, t, T(), old(groups), groups1, per, direct, x, i, prevBlock);
        NodesStay(groups1, t.nodes, groups, nodes, per);
        DiskTouched(t0, t, T(), x[..i], prevBlock);
        if err != 0 {
          SameDataMeans(t0, T());
          return;
        }
        DigitHead(num, level - i, rest, x, i + 1);
        var div := Span(num, level - i);
        prev, rest, prevBlock := Quot(rest, div), Rem(rest, div), b;
        if i == level - 1 {
          FinishAt(t0, T(), groups, per, x, i + 1, v);
          WriteIs(T(), x, v);
          ghost var t1 := T();
          disk := disk[b := Block(disk, num, b)[prev := v]];
          BlockElsewhere(t1.disk, num, b, disk[b]);
          DiskTouched(t0, t1, T(), x[..i + 1], b);
        } else {
          NextPointer(T(), x, i + 1);
        }
        b := Block(disk, num, b)[prev];
        i := i + 1;
      }
      FinishedMeans(t0, T(), groups, per, k, v);
      FinishedOk(t0, T(), groups, per, x, v);
      BudgetEnd(old(groups), old(nodes), groups, nodes, per, x);
      err := 0;
    }
  }

  // ----- what setting a block uses up

  /** How many of the indirect blocks above place x, from the one at x[..i + 1] on, are missing. */
  function Need(nodes: map<seq<nat>, nat>, x: seq<nat>, i: nat): nat
    decreases |x| - i
  {
    if i + 1 >= |x| then 0 else (if x[..i + 1] in nodes then 0 else 1) + Need(nodes, x, i + 1)
  }

  /** Blocks in use stay in use, indirect blocks stay where they are, and new ones were free. */
  ghost predicate Grows(groups0: seq<Group>, nodes0: map<seq<nat>, nat>, groups: seq<Group>, nodes: map<seq<nat>, nat>,
                        per: nat) {
    per > 0 && (forall c: nat | Taken(groups0, per, c) :: Taken(groups, per, c)) &&
    (forall p | p in nodes0 :: p in nodes && nodes[p] == nodes0[p]) &&
    (forall p | p in nodes && p !in nodes0 :: !Taken(groups0, per, nodes[p]) && Taken(groups, per, nodes[p]))
  }

  /** One step of it: the indirect block at p was there, or has been allocated, or could not be. */
  ghost predicate NodeEnsured(groups0: seq<Group>, nodes0: map<seq<nat>, nat>, groups: seq<Group>,
                              nodes: map<seq<nat>, nat>, per: nat, p: seq<nat>, err: int) {
    per > 0 &&
    if p in nodes0 then err == 0 && nodes == nodes0 && groups == groups0
    else if err == 0 then
      p in nodes && nodes == nodes0[p := nodes[p]] && Taken(groups0, per, 0) &&
      TotalFree(groups) + 1 == TotalFree(groups0)
    else nodes == nodes0 && (TotalFree(groups0) == 0 || !Taken(groups0, per, 0))
  }

  lemma NothingGrown(groups: seq<Group>, nodes: map<seq<nat>, nat>, per: nat, p: seq<nat>)
    requires per > 0
    ensures Grows(groups, nodes, groups, nodes, per)
    ensures p in nodes ==> NodeEnsured(groups, nodes, groups, nodes, per, p, 0)
  {
    hide Taken;
  }

  lemma NoGrowth(groups: seq<Group>, nodes: map<seq<nat>, nat>, per: nat)
    requires per > 0
    ensures Grows(groups, nodes, groups, nodes, per)
  {
    hide Taken;
  }

  lemma AllocFailed(groups0: seq<Group>, groups: seq<Group>, nodes: map<seq<nat>, nat>, per: nat, p: seq<nat>,
                    err: int, b: nat)
    requires per > 0 && p !in nodes && err != 0 && (err == -ENOSPC ==> groups == groups0 && AllFull(groups0))
    requires err != -ENOSPC ==> !Taken(groups0, per, 0)
    requires err != -ENOSPC ==> forall c: nat :: Taken(groups, per, c) <==> Taken(groups0, per, c) || c == b
    ensures Grows(groups0, nodes, groups, nodes, per)
    ensures NodeEnsured(groups0, nodes, groups, nodes, per, p, -ENOSPC)
  {
    hide Taken;
    TotalNone(groups0);
  }

  lemma NodeGrown(groups0: seq<Group>, groups: seq<Group>, nodes: map<seq<nat>, nat>, per: nat, p: seq<nat>, b: nat)
    requires per > 0 && p !in nodes && !Taken(groups0, per, b) && Taken(groups0, per, 0)
    requires forall c: nat :: Taken(groups, per, c) <==> Taken(groups0, per, c) || c == b
    requires TotalFree(groups) + 1 == TotalFree(groups0)
    ensures Grows(groups0, nodes, groups, nodes[p := b], per)
    ensures NodeEnsured(groups0, nodes, groups, nodes[p := b], per, p, 0)
  {
    hide Taken;
  }

  lemma GrowsTrans(g0: seq<Group>, n0: map<seq<nat>, nat>, g1: seq<Group>, n1: map<seq<nat>, nat>, g2: seq<Group>,
                   n2: map<seq<nat>, nat>, per: nat)
    requires Grows(g0, n0, g1, n1, per) && Grows(g1, n1, g2, n2, per)
    ensures Grows(g0, n0, g2, n2, per)
  {
    hide Taken;
  }

  lemma PerPositive(t: Tree, groups: seq<Group>, per: nat)
    requires TreeOk(t, groups, per)
    ensures per > 0
  {
  }

  /** The books on the way: every missing block so far has cost one free block, and block 0 was no obstacle. */
  ghost predicate Budget(groups0: seq<Group>, nodes0: map<seq<nat>, nat>, groups: seq<Group>,
                         nodes: map<seq<nat>, nat>, per: nat, x: seq<nat>, i: nat) {
    per > 0 && Need(nodes, x, i) <= Need(nodes0, x, 0) &&
    TotalFree(groups) + (Need(nodes0, x, 0) - Need(nodes, x, i)) == TotalFree(groups0) &&
    (Need(nodes0, x, 0) > Need(nodes, x, i) ==> Taken(groups0, per, 0)) &&
    (Need(nodes0, x, 0) == Need(nodes, x, i) ==> groups == groups0)
  }

  lemma BudgetStart(groups: seq<Group>, nodes: map<seq<nat>, nat>, per: nat, x: seq<nat>)
    requires per > 0
    ensures Budget(groups, nodes, groups, nodes, per, x, 0)
  {
    hide Need, TotalFree, Taken;
  }

  lemma NeedNone(nodes: map<seq<nat>, nat>, x: seq<nat>)
    requires |x| == 1
    ensures Need(nodes, x, 0) == 0
  {
  }

  // Longer places are not affected by a new block at a shorter one.
  lemma {:induction false} NeedSame(nodes: map<seq<nat>, nat>, x: seq<nat>, p: seq<nat>, b: nat, i: nat)
    requires |p| <= i
    ensures Need(nodes[p := b], x, i) == Need(nodes, x, i)
    decreases |x| - i
  {
    if i + 1 < |x| {
      assert x[..i + 1] != p;
      NeedSame(nodes, x, p, b, i + 1);
    }
  }

  lemma BudgetNext(g0: seq<Group>, n0: map<seq<nat>, nat>, g1: seq<Group>, n1: map<seq<nat>, nat>,
                   g2: seq<Group>, n2: map<seq<nat>, nat>, per: nat, x: seq<nat>, i: nat, err: int)
    requires i + 1 < |x| && Budget(g0, n0, g1, n1, per, x, i) && NodeEnsured(g1, n1, g2, n2, per, x[..i + 1], err)
    requires Grows(g0, n0, g1, n1, per)
    ensures err == 0 ==> Budget(g0, n0, g2, n2, per, x, i + 1)
    ensures err != 0 ==> !(Need(n0, x, 0) == 0 || (Taken(g0, per, 0) && Need(n0, x, 0) <= TotalFree(g0)))
  {
    hide TotalFree, Taken;
    assert Need(n1, x, i) == (if x[..i + 1] in n1 then 0 else 1) + Need(n1, x, i + 1);
    if x[..i + 1] !in n1 && err == 0 {
      NeedSame(n1, x, x[..i + 1], n2[x[..i + 1]], i + 1);
    }
    hide Need;
  }

  lemma BudgetEnd(g0: seq<Group>, n0: map<seq<nat>, nat>, g: seq<Group>, n: map<seq<nat>, nat>, per: nat, x: seq<nat>)
    requires x != [] && Budget(g0, n0, g, n, per, x, |x| - 1)
    ensures Need(n0, x, 0) == 0 || (Taken(g0, per, 0) && Need(n0, x, 0) <= TotalFree(g0))
  {
    assert Need(n, x, |x| - 1) == 0;
    hide Need, TotalFree, Taken;
  }

  ghost predicate IsNode(nodes: map<seq<nat>, nat>, c: nat) {
    exists p :: p in nodes && nodes[p] == c
  }

  /** Only indirect blocks have been written. */
  ghost predicate DiskKept(t0: Tree, t: Tree) {
    t.num == t0.num && forall c: nat :: IsNode(t.nodes, c) || Block(t.disk, t.num, c) == Block(t0.disk, t.num, c)
  }

  lemma DiskSame(t: Tree)
    ensures DiskKept(t, t)
  {
  }

  lemma NodesStay(g0: seq<Group>, n0: map<seq<nat>, nat>, g: seq<Group>, n: map<seq<nat>, nat>, per: nat)
    requires Grows(g0, n0, g, n, per)
    ensures forall p | p in n0 :: p in n && n[p] == n0[p]
  {
    hide Taken;
  }

  // One more indirect block, that at place p if it is any, is written.
  lemma DiskTouched(t0: Tree, t: Tree, t': Tree, p: seq<nat>, b: nat)
    requires DiskKept(t0, t) && t'.num == t.num && (p != [] ==> p in t.nodes && t.nodes[p] == b)
    requires forall q | q in t.nodes :: q in t'.nodes && t'.nodes[q] == t.nodes[q]
    requires forall c: nat | p == [] || c != b :: Block(t'.disk, t.num, c) == Block(t.disk, t.num, c)
    ensures DiskKept(t0, t')
  {
    hide Block, IsNode;
    forall c: nat
      ensures IsNode(t'.nodes, c) || Block(t'.disk, t'.num, c) == Block(t0.disk, t'.num, c)
    {
      IsNodeStill(t.nodes, t'.nodes, c);
      if p != [] && c == b {
        IsNodeAt(t'.nodes, p);
      }
    }
  }

  lemma IsNodeStill(n: map<seq<nat>, nat>, n': map<seq<nat>, nat>, c: nat)
    requires forall q | q in n :: q in n' && n'[q] == n[q]
    ensures IsNode(n, c) ==> IsNode(n', c)
  {
  }

  lemma IsNodeAt(n: map<seq<nat>, nat>, p: seq<nat>)
    requires p in n
    ensures IsNode(n, n[p])
  {
  }

  lemma BlockElsewhere(disk: Disk, num: nat, b: nat, data: seq<nat>)
    ensures forall c: nat | c != b :: Block(disk[b := data], num, c) == Block(disk, num, c)
  {
  }

  /** After a failure the inode on disk is still good: its slot was not touched, or nothing that it leads to was. */
  ghost predicate Undone(t0: Tree, t: Tree, groups0: seq<Group>, per: nat, direct: nat) {
    per > 0 && direct < |t0.blocks| && t.num == t0.num &&
    if t0.blocks[direct] != 0 then t.blocks == t0.blocks
    else forall c: nat | Taken(groups0, per, c) :: Block(t.disk, t.num, c) == Block(t0.disk, t.num, c)
  }

  lemma NothingUndone(t0: Tree, groups0: seq<Group>, per: nat, direct: nat)
    requires per > 0 && direct < |t0.blocks|
    ensures Undone(t0, t0, groups0, per, direct)
  {
    hide Taken;
  }

  lemma UndoneNext(t0: Tree, t: Tree, t': Tree, groups0: seq<Group>, groups: seq<Group>, per: nat, direct: nat,
                   x: seq<nat>, i: nat, prevBlock: nat)
    requires Undone(t0, t, groups0, per, direct) && t'.num == t.num && i + 1 < |x| && x[0] == direct
    requires TreeOk(t0, groups0, per) && Grows(groups0, t0.nodes, groups, t.nodes, per) && Full(t0.num, x)
    requires i > 0 ==> x[..i] in t.nodes && prevBlock == t.nodes[x[..i]]
    requires t'.blocks == t.blocks || (i == 0 && Stored(t, x[..i + 1]) == 0)
    requires i == 0 ==> t.blocks == t0.blocks
    requires forall c: nat | i == 0 || c != prevBlock :: Block(t'.disk, t.num, c) == Block(t.disk, t.num, c)
    ensures Undone(t0, t', groups0, per, direct)
  {
    hide Taken, Block;
    if t0.blocks[direct] != 0 {
      if i == 0 {
        assert x[..1] == [direct];
      }
    } else if i > 0 {
      DirectMissing(t0, groups0, per, x, i);
    }
  }

  // With the slot of the inode empty there is no indirect block anywhere on the way.
  lemma {:induction false} DirectMissing(t: Tree, groups: seq<Group>, per: nat, x: seq<nat>, i: nat)
    requires TreeOk(t, groups, per) && Full(t.num, x) && 1 <= i < |x| && x[0] < |t.blocks| && t.blocks[x[0]] == 0
    ensures x[..i] !in t.nodes
  {
    hide Taken, Block;
    if i > 1 {
      DirectMissing(t, groups, per, x, i - 1);
      assert Parent(x[..i]) == x[..i - 1];
      assert x[..i] in t.nodes ==> NodeOk(t, x[..i], groups, per);
    } else {
      assert Place(t.num, x[..1]) && Stored(t, x[..1]) == t.blocks[x[0]];
      assert x[..1] in t.nodes ==> NodeOk(t, x[..1], groups, per);
    }
  }

  lemma TakenFirst(groups: seq<Group>, per: nat, g: nat, i: nat)
    requires Consistent(groups, per) && g < |groups| && groups[g].free > 0 &&
             (forall j | 0 <= j < g :: groups[j].free == 0)
    requires i < per && |groups[g].bits| == per && !groups[g].bits[i] && forall j | 0 <= j < i :: groups[g].bits[j]
    ensures var b := BlockId(g, i, per);
            b == FirstFree(groups, per) && !Taken(groups, per, b) && Consistent(SetBit(groups, g, i), per) &&
            (forall c: nat :: Taken(SetBit(groups, g, i), per, c) <==> Taken(groups, per, c) || c == b) &&
            TotalFree(SetBit(groups, g, i)) + 1 == TotalFree(groups)
  {
    hide Taken;
    TakeOne(groups, per, g, i);
    FirstIs(groups, g, i, per);
    TotalSet(groups, g, i);
  }

  lemma FinishedOk(t0: Tree, t: Tree, groups: seq<Group>, per: nat, x: seq<nat>, v: nat)
    requires Finished(t0, t, groups, per, x, v)
    ensures TreeOk(t, groups, per)
  {
  }

  lemma PlaceFits(t: Tree, groups: seq<Group>, per: nat, p: seq<nat>)
    requires TreeOk(t, groups, per) && Place(t.num, p)
    ensures |t.blocks| == 15 && per > 0 && Slot(t.num, p) && p[0] < 15 && (|p| > 1 ==> Last(p) < t.num)
  {
  }

  // Linking, spelt out.
  lemma LinkedIs(t: Tree, p: seq<nat>, b: nat)
    requires Slot(t.num, p) && |t.blocks| == 15 && (|p| > 1 ==> Parent(p) in t.nodes)
    ensures Linked(t, p, b) == if |p| == 1 then t.(blocks := t.blocks[p[0] := b], nodes := t.nodes[p := b])
                               else var c := t.nodes[Parent(p)];
                                    t.(disk := t.disk[c := Block(t.disk, t.num, c)[Last(p) := b]],
                                       nodes := t.nodes[p := b])
  {
  }

  lemma WriteIs(t: Tree, x: seq<nat>, v: nat)
    requires Slot(t.num, x) && |t.blocks| == 15 && |x| > 1 && Parent(x) in t.nodes
    ensures Last(x) < t.num
    ensures var c := t.nodes[Parent(x)];
            Write(t, x, v) == t.(disk := t.disk[c := Block(t.disk, t.num, c)[Last(x) := v]])
  {
  }

  lemma NextPointer(t: Tree, x: seq<nat>, i: nat)
    requires 1 <= i < |x| && x[..i] in t.nodes && x[i] < t.num
    ensures Stored(t, x[..i + 1]) == Block(t.disk, t.num, t.nodes[x[..i]])[x[i]]
  {
    assert Parent(x[..i + 1]) == x[..i];
  }

  lemma DigitHead(num: nat, left: nat, rest: nat, x: seq<nat>, i: nat)
    requires num > 0 && 1 <= left <= 3 && rest < num * Span(num, left) && i <= |x| && x[i..] == Digits(num, left, rest)
    ensures var div := Span(num, left);
            div > 0 && i < |x| && x[i] == Quot(rest, div) < num && Rem(rest, div) < num * Span(num, left - 1) &&
            x[i + 1..] == Digits(num, left - 1, Rem(rest, div))
  {
    SpanNext(num, left);
    QuotSmall(rest, Span(num, left), num);
    QuotRem(rest, Span(num, left));
    hide Quot, Rem;
    var d := Digits(num, left, rest);
    assert d[1..] == Digits(num, left - 1, Rem(rest, Span(num, left)));
    hide Digits, Span;
    assert x[i] == x[i..][0] && x[i + 1..] == x[i..][1..];
  }

  lemma SetStart(t: Tree, groups: seq<Group>, per: nat, k: nat)
    requires TreeOk(t, groups, per) && InRange(t.num, k)
    ensures var x := Path(t.num, k);
            t.num > 0 && |t.blocks| == 15 && |x| == Level(t.num, k) + 1 <= 4 && x[0] == Direct(t.num, k) < 15 &&
            Indirect(t.num, k) < t.num * Span(t.num, Level(t.num, k)) &&
            x[0 + 1..] == Digits(t.num, Level(t.num, k), Indirect(t.num, k)) &&
            Reached(t, t, groups, per, x, 0) && Stored(t, x[..0 + 1]) == t.blocks[x[0]]
  {
    PathFull(t.num, k);
    IndirectFits(t.num, k);
    hide TreeOk, Digits, Place;
  }

  /** The map as it is to be: file block x has v, and every other file block what it had. */
  ghost predicate Finished(t0: Tree, t: Tree, groups: seq<Group>, per: nat, x: seq<nat>, v: nat) {
    TreeOk(t, groups, per) && t.num == t0.num &&
    forall q: seq<nat> | q != [] && !Place(t.num, q) :: Stored(t, q) == if q == x then v else Stored(t0, q)
  }

  lemma FinishAt(t0: Tree, t: Tree, groups: seq<Group>, per: nat, x: seq<nat>, i: nat, v: nat)
    requires Reached(t0, t, groups, per, x, i) && i == |x| - 1
    ensures Slot(t.num, x) && |t.blocks| == 15 &&
            (|x| > 1 ==> Parent(x) == x[..i] && Parent(x) in t.nodes && Last(x) == x[i])
    ensures Finished(t0, Write(t, x, v), groups, per, x, v)
  {
    hide Stored, Block;
    assert !Place(t.num, x);
    DataKeeps(t, groups, per, x, v);
    hide TreeOk, Place;
  }

  lemma FinishedMeans(t0: Tree, t: Tree, groups: seq<Group>, per: nat, k: nat, v: nat)
    requires t.num > 0 && InRange(t.num, k) && Finished(t0, t, groups, per, Path(t.num, k), v)
    ensures forall j: nat | InRange(t.num, j) ::
              Stored(t, Path(t.num, j)) == if j == k then v else Stored(t0, Path(t.num, j))
  {
    hide TreeOk, Stored;
    forall j: nat | InRange(t.num, j)
      ensures Stored(t, Path(t.num, j)) == if j == k then v else Stored(t0, Path(t.num, j))
    {
      DataPath(t.num, j);
      hide Path, InRange, Place;
      if j != k && Path(t.num, j) == Path(t.num, k) {
        PathsDiffer(t.num, j, k);
      }
    }
  }

  lemma DataPath(num: nat, j: nat)
    requires num > 0 && InRange(num, j)
    ensures Path(num, j) != [] && !Place(num, Path(num, j))
  {
    PathFull(num, j);
    hide Path, InRange;
  }

  lemma SameDataMeans(t0: Tree, t: Tree)
    requires t.num == t0.num > 0 && SameData(t0, t)
    ensures forall j: nat | InRange(t.num, j) :: Stored(t, Path(t.num, j)) == Stored(t0, Path(t.num, j))
  {
    hide Stored;
    forall j: nat | InRange(t.num, j)
      ensures Stored(t, Path(t.num, j)) == Stored(t0, Path(t.num, j))
    {
      DataPath(t.num, j);
      hide Path, InRange, Place;
    }
  }

  // More blocks in use does not hurt.
  lemma GroupsGrow(t: Tree, groups: seq<Group>, groups': seq<Group>, per: nat)
    requires TreeOk(t, groups, per) && forall c: nat | Taken(groups, per, c) :: Taken(groups', per, c)
    ensures TreeOk(t, groups', per)
  {
    hide Distinct, PointersOk, Block;
    forall p | p in t.nodes
      ensures NodeOk(t, p, groups', per)
    {
      NodeAt(t, groups, per, p);
    }
    hide Taken;
  }

  /** The pointers to data blocks are those of before. */
  ghost predicate SameData(t: Tree, t': Tree) {
    forall q: seq<nat> | q != [] && !Place(t.num, q) :: Stored(t', q) == Stored(t, q)
  }

  /** Where SetBlock is: the indirect blocks above place x[..i + 1] are there, and no data pointer has changed. */
  ghost predicate Reached(t0: Tree, t: Tree, groups: seq<Group>, per: nat, x: seq<nat>, i: nat) {
    TreeOk(t, groups, per) && t.num == t0.num && Full(t.num, x) && i < |x| && (i > 0 ==> x[..i] in t.nodes) &&
    SameData(t0, t)
  }

  lemma ReachedFacts(t0: Tree, t: Tree, groups: seq<Group>, per: nat, x: seq<nat>, i: nat)
    requires Reached(t0, t, groups, per, x, i) && i + 1 < |x|
    ensures TreeOk(t, groups, per) && SameData(t0, t)
    ensures var p := x[..i + 1];
            Place(t.num, p) && Last(p) == x[i] && (i > 0 ==> Parent(p) == x[..i] && x[..i] in t.nodes) &&
            (i == 0 ==> |p| == 1) &&
            (Stored(t, p) == 0 <==> p !in t.nodes) && (p in t.nodes ==> t.nodes[p] == Stored(t, p))
  {
    var p := x[..i + 1];
    assert Place(t.num, p);
    if p in t.nodes {
      NodeAt(t, groups, per, p);
    }
    hide Stored, NodesOk, Distinct, FreeClear;
  }

  lemma ReachedLink(t0: Tree, t: Tree, groups: seq<Group>, groups': seq<Group>, per: nat, x: seq<nat>, i: nat, b: nat)
    requires Reached(t0, t, groups, per, x, i) && i + 1 < |x| && x[..i + 1] !in t.nodes && b != 0
    requires Place(t.num, x[..i + 1]) && |t.blocks| == 15 && (|x[..i + 1]| > 1 ==> Parent(x[..i + 1]) in t.nodes)
    requires !Taken(groups, per, b) && forall c: nat :: Taken(groups', per, c) <==> Taken(groups, per, c) || c == b
    ensures Reached(t0, Linked(t, x[..i + 1], b), groups', per, x, i + 1)
  {
    hide Stored, Taken, Block;
    LinkKeeps(t, groups, groups', per, x[..i + 1], b);
    hide TreeOk, Place, Slot;
  }

  lemma ReachedNext(t0: Tree, t: Tree, groups: seq<Group>, per: nat, x: seq<nat>, i: nat)
    requires Reached(t0, t, groups, per, x, i) && i + 1 < |x| && x[..i + 1] in t.nodes
    ensures Reached(t0, t, groups, per, x, i + 1)
  {
    hide TreeOk, Place, Slot, SameData;
  }

  lemma GetStart(t: Tree, groups: seq<Group>, per: nat, k: nat)
    requires TreeOk(t, groups, per) && InRange(t.num, k)
    ensures t.num > 0 && Level(t.num, k) <= 3 && Indirect(t.num, k) < t.num * Span(t.num, Level(t.num, k))
    ensures Direct(t.num, k) < |t.blocks| && Path(t.num, k) != []
    ensures Follow(t.disk, t.num, t.blocks[Direct(t.num, k)], Digits(t.num, Level(t.num, k), Indirect(t.num, k))) ==
              Stored(t, Path(t.num, k))
  {
    var x := Path(t.num, k);
    PathFull(t.num, k);
    IndirectFits(t.num, k);
    FollowStored(t, groups, per, x, 1);
    hide TreeOk, Follow, Digits;
    assert x[1..] == Digits(t.num, Level(t.num, k), Indirect(t.num, k)) &&
      Stored(t, x[..1]) == t.blocks[Direct(t.num, k)];
  }

  // One turn of the loops over levels.
  lemma FollowDigit(disk: Disk, num: nat, b: nat, left: nat, rest: nat)
    requires num > 0 && 1 <= left <= 3 && rest < num * Span(num, left) && b != 0
    ensures var div := Span(num, left);
            div > 0 && Quot(rest, div) < num && Rem(rest, div) < num * Span(num, left - 1) &&
            Follow(disk, num, b, Digits(num, left, rest))
            == Follow(disk, num, Block(disk, num, b)[Quot(rest, div)], Digits(num, left - 1, Rem(rest, div)))
  {
    SpanNext(num, left);
    QuotSmall(rest, Span(num, left), num);
    QuotRem(rest, Span(num, left));
    hide Quot, Rem, Block;
    var d := Digits(num, left, rest);
    assert d[1..] == Digits(num, left - 1, Rem(rest, Span(num, left)));
    hide Digits, Span;
  }

  lemma FollowEnd(disk: Disk, num: nat, b: nat, left: nat, rest: nat)
    requires num > 0 && left <= 3 && (left == 0 || b == 0)
    ensures Follow(disk, num, b, Digits(num, left, rest)) == b
  {
  }
}
