/**
  Writing the pages of an ext2 file whose blocks are as large as pages: a page without a block gets one from the
  bitmaps, the block map is extended, and the data go to the block.
*/
module Ext2Write {

  import opened Ext2

  /** The block of page j, zero if it has none. */
  function Data(t: Tree, j: nat): nat
    requires t.num > 0
  {
    Stored(t, Path(t.num, j))
  }

  /** What page j reads as: its block, or block 0 of the disk if it has none (the page is cleared before the read). */
  function Content(t: Tree, j: nat): seq<nat>
    requires t.num > 0
  {
    Block(t.disk, t.num, Data(t, j))
  }

  /** The block of page j, if it has one, is in use, is no indirect block, and is the block of no other page. */
  ghost predicate DataOk(t: Tree, groups: seq<Group>, per: nat, j: nat)
    requires t.num > 0 && per > 0
  {
    Data(t, j) != 0 ==>
      Taken(groups, per, Data(t, j)) && !IsNode(t.nodes, Data(t, j)) &&
      forall i: nat | InRange(t.num, i) && i != j :: Data(t, i) != Data(t, j)
  }

  /** No block is used twice. */
  ghost predicate Clean(t: Tree, groups: seq<Group>, per: nat) {
    per > 0 && t.num > 0 && TreeOk(t, groups, per) && forall j: nat | InRange(t.num, j) :: DataOk(t, groups, per, j)
  }

  // The pages' blocks are those of t, except that page k has v; the indirect blocks have grown.
  ghost predicate Extended(t: Tree, t': Tree, groups: seq<Group>, groups': seq<Group>, per: nat, k: nat, v: nat)
    requires t.num > 0
  {
    t'.num == t.num && TreeOk(t', groups', per) && Grows(groups, t.nodes, groups', t'.nodes, per) &&
    forall j: nat | InRange(t.num, j) :: Data(t', j) == if j == k then v else Data(t, j)
  }

  lemma NodeTaken(t: Tree, groups: seq<Group>, per: nat, c: nat)
    requires TreeOk(t, groups, per) && IsNode(t.nodes, c)
    ensures Taken(groups, per, c) && c != 0
  {
    hide Taken, Block;
    var p :| p in t.nodes && t.nodes[p] == c;
    NodeAt(t, groups, per, p);
  }

  lemma ZeroNoNode(t: Tree, groups: seq<Group>, per: nat)
    requires TreeOk(t, groups, per)
    ensures !IsNode(t.nodes, 0)
  {
    hide TreeOk;
    if IsNode(t.nodes, 0) {
      NodeTaken(t, groups, per, 0);
    }
  }

  // A block that is in use and is no indirect block does not become one.
  lemma StaysData(t: Tree, groups: seq<Group>, groups': seq<Group>, nodes': map<seq<nat>, nat>, per: nat, c: nat)
    requires Grows(groups, t.nodes, groups', nodes', per) && Taken(groups, per, c) && !IsNode(t.nodes, c)
    ensures Taken(groups', per, c) && !IsNode(nodes', c)
  {
    hide Taken;
  }

  // `mine` tells whether page k has been given the block v, which was free before.
  lemma ExtendedOk(t: Tree, t': Tree, groups0: seq<Group>, groups: seq<Group>, groups': seq<Group>, per: nat, k: nat,
                   v: nat, j: nat)
    requires Clean(t, groups0, per) && t.num > 0 && InRange(t.num, k) && InRange(t.num, j)
    requires !Taken(groups0, per, v) && v != 0
    requires forall c: nat :: Taken(groups, per, c) <==> Taken(groups0, per, c) || c == v
    requires Extended(t, t', groups, groups', per, k, v)
    ensures DataOk(t', groups', per, j)
  {
    hide TreeOk, Taken, IsNode, Grows, InRange, Data, Path;
    assert DataOk(t, groups0, per, j);
    if IsNode(t.nodes, v) {
      NodeTaken(t, groups0, per, v);
    }
    var d := Data(t', j);
    if d != 0 {
      StaysData(t, groups, groups', t'.nodes, per, d);
      forall i: nat | InRange(t.num, i) && i != j
        ensures Data(t', i) != d
      {
        assert DataOk(t, groups0, per, i);
      }
    }
  }

  lemma ExtendedClean(t: Tree, t': Tree, groups0: seq<Group>, groups: seq<Group>, groups': seq<Group>, per: nat,
                      k: nat, v: nat)
    requires Clean(t, groups0, per) && t.num > 0 && InRange(t.num, k)
    requires !Taken(groups0, per, v) && v != 0
    requires forall c: nat :: Taken(groups, per, c) <==> Taken(groups0, per, c) || c == v
    requires Extended(t, t', groups, groups', per, k, v)
    ensures Clean(t', groups', per)
  {
    hide DataOk, TreeOk, Taken, Grows, InRange, Data;
    forall j: nat | InRange(t'.num, j)
      ensures DataOk(t', groups', per, j)
    {
      ExtendedOk(t, t', groups0, groups, groups', per, k, v, j);
    }
  }

  // A page's block stays as it is while the map is extended for another page.
  lemma ContentKept(t: Tree, t': Tree, groups0: seq<Group>, groups: seq<Group>, groups': seq<Group>, per: nat, k: nat,
                    v: nat, j: nat)
    requires Clean(t, groups0, per) && t.num > 0 && InRange(t.num, j) && j != k && DiskKept(t, t')
    requires forall c: nat | Taken(groups0, per, c) :: Taken(groups, per, c)
    requires Extended(t, t', groups, groups', per, k, v)
    ensures Content(t', j) == Content(t, j)
  {
    hide TreeOk, Taken, IsNode, Grows, InRange, Data, Path, Block;
    assert DataOk(t, groups0, per, j);
    if Data(t, j) != 0 {
      StaysData(t, groups, groups', t'.nodes, per, Data(t, j));
    } else {
      ZeroNoNode(t', groups', per);
    }
  }

  // ----- writing the data

  function Put(t: Tree, b: nat, data: seq<nat>): Tree {
    t.(disk := t.disk[b := data])
  }

  lemma PutStored(t: Tree, groups: seq<Group>, per: nat, b: nat, data: seq<nat>, p: seq<nat>)
    requires TreeOk(t, groups, per) && !IsNode(t.nodes, b) && p != []
    ensures Stored(Put(t, b, data), p) == Stored(t, p)
  {
    hide TreeOk;
    if |p| > 1 && Parent(p) in t.nodes {
      IsNodeAt(t.nodes, Parent(p));
      BlockElsewhere(t.disk, t.num, b, data);
    }
  }

  lemma PutTree(t: Tree, groups: seq<Group>, per: nat, b: nat, data: seq<nat>)
    requires TreeOk(t, groups, per) && !IsNode(t.nodes, b) && Taken(groups, per, b)
    ensures TreeOk(Put(t, b, data), groups, per)
  {
    var t' := Put(t, b, data);
    forall p | Place(t.num, p)
      ensures Stored(t', p) == if p in t.nodes then t.nodes[p] else 0
    {
      PutStored(t, groups, per, b, data, p);
    }
    BlockElsewhere(t.disk, t.num, b, data);
    forall p | p in t.nodes
      ensures NodeOk(t', p, groups, per)
    {
      NodeAt(t, groups, per, p);
    }
    hide Taken, Block, Stored;
  }

  lemma PutData(t: Tree, groups: seq<Group>, per: nat, b: nat, data: seq<nat>)
    requires t.num > 0 && TreeOk(t, groups, per) && !IsNode(t.nodes, b)
    ensures forall j: nat | InRange(t.num, j) :: Data(Put(t, b, data), j) == Data(t, j)
  {
    hide TreeOk, IsNode, Stored;
    forall j: nat | InRange(t.num, j)
      ensures Data(Put(t, b, data), j) == Data(t, j)
    {
      DataPath(t.num, j);
      hide Path, InRange;
      PutStored(t, groups, per, b, data, Path(t.num, j));
    }
  }

  lemma PutClean(t: Tree, groups: seq<Group>, per: nat, k: nat, data: seq<nat>)
    requires Clean(t, groups, per) && t.num > 0 && InRange(t.num, k) && Data(t, k) != 0 && |data| == t.num
    ensures var t' := Put(t, Data(t, k), data);
            Clean(t', groups, per) && Content(t', k) == data && Data(t', k) == Data(t, k) &&
            forall j: nat | InRange(t.num, j) && j != k :: Content(t', j) == Content(t, j)
  {
    hide TreeOk, Taken, IsNode, InRange, Data, Path;
    assert DataOk(t, groups, per, k);
    var b := Data(t, k);
    var t' := Put(t, b, data);
    PutTree(t, groups, per, b, data);
    PutData(t, groups, per, b, data);
    BlockElsewhere(t.disk, t.num, b, data);
    forall j: nat | InRange(t.num, j)
      ensures DataOk(t', groups, per, j) && (j != k ==> Content(t', j) == Content(t, j))
    {
      assert DataOk(t, groups, per, j);
    }
  }

  // ----- giving up

  // The inode on disk, with what a failed extension has left on the disk.
  function Reloaded(t0: Tree, t: Tree, direct: nat): Tree
    requires direct < |t0.blocks|
  {
    if t0.blocks[direct] != 0 then t else t0.(disk := t.disk)
  }

  lemma ReloadStored(t0: Tree, disk: Disk, groups: seq<Group>, per: nat, p: seq<nat>)
    requires TreeOk(t0, groups, per) && p != []
    requires forall c: nat | Taken(groups, per, c) :: Block(disk, t0.num, c) == Block(t0.disk, t0.num, c)
    ensures Stored(t0.(disk := disk), p) == Stored(t0, p)
  {
    hide Taken, Block;
    if |p| > 1 && Parent(p) in t0.nodes {
      NodeAt(t0, groups, per, Parent(p));
    }
  }

  lemma ReloadTree(t0: Tree, t: Tree, groups: seq<Group>, groups': seq<Group>, per: nat)
    requires TreeOk(t0, groups, per) && TreeOk(t, groups', per) && t.num == t0.num
    requires forall c: nat | Taken(groups, per, c) :: Taken(groups', per, c)
    requires forall c: nat | Taken(groups, per, c) :: Block(t.disk, t0.num, c) == Block(t0.disk, t0.num, c)
    ensures TreeOk(t0.(disk := t.disk), groups', per)
  {
    var t' := t0.(disk := t.disk);
    forall p | Place(t0.num, p)
      ensures Stored(t', p) == if p in t0.nodes then t0.nodes[p] else 0
    {
      ReloadStored(t0, t.disk, groups, per, p);
    }
    forall p | p in t0.nodes
      ensures NodeOk(t', p, groups', per)
    {
      NodeAt(t0, groups, per, p);
    }
    hide Taken, Block, Stored;
  }

  /** After a failure the inode as it is on disk is as good as before: nothing of the file has changed. */
  lemma ReloadClean(t0: Tree, t: Tree, groups0: seq<Group>, groups: seq<Group>, groups': seq<Group>, per: nat,
                    direct: nat)
    requires Clean(t0, groups0, per) && t0.num > 0 && TreeOk(t0, groups, per) && TreeOk(t, groups', per)
    requires forall c: nat | Taken(groups0, per, c) :: Taken(groups, per, c)
    requires Grows(groups, t0.nodes, groups', t.nodes, per) && DiskKept(t0, t) && Undone(t0, t, groups, per, direct)
    requires forall j: nat | InRange(t0.num, j) :: Data(t, j) == Data(t0, j)
    ensures direct < |t0.blocks| && var t' := Reloaded(t0, t, direct);
            t'.num == t0.num && t'.blocks == t0.blocks && Clean(t', groups', per) &&
            forall j: nat | InRange(t0.num, j) :: Content(t', j) == Content(t0, j)
  {
    var t' := Reloaded(t0, t, direct);
    if t0.blocks[direct] == 0 {
      ReloadTree(t0, t, groups, groups', per);
      ReloadData(t0, t, groups, per);
    }
    hide TreeOk, Taken, IsNode, InRange, Data, Path, Block;
    forall j: nat | InRange(t0.num, j)
      ensures DataOk(t', groups', per, j) && Content(t', j) == Content(t0, j)
    {
      assert DataOk(t0, groups0, per, j);
      if Data(t0, j) != 0 {
        StaysData(t0, groups, groups', t.nodes, per, Data(t0, j));
      } else {
        ZeroNoNode(t, groups', per);
      }
    }
  }

  lemma ReloadData(t0: Tree, t: Tree, groups: seq<Group>, per: nat)
    requires t0.num > 0 && TreeOk(t0, groups, per)
    requires forall c: nat | Taken(groups, per, c) :: Block(t.disk, t0.num, c) == Block(t0.disk, t0.num, c)
    ensures forall j: nat | InRange(t0.num, j) :: Data(t0.(disk := t.disk), j) == Data(t0, j)
  {
    hide TreeOk, Taken, Block, Stored;
    forall j: nat | InRange(t0.num, j)
      ensures Data(t0.(disk := t.disk), j) == Data(t0, j)
    {
      DataPath(t0.num, j);
      hide Path, InRange;
      ReloadStored(t0, t.disk, groups, per, Path(t0.num, j));
    }
  }

  // ----- the operation

  ghost predicate Settled(fs: FileSystem)
    reads fs
  {
    fs.Valid() && fs.num > 0 && fs.per > 0 && Clean(fs.T(), fs.groups, fs.per)
  }

  /** Page k has a block, or there are enough free blocks for it and the indirect blocks above it. */
  predicate Room(t: Tree, groups: seq<Group>, per: nat, k: nat)
    requires t.num > 0 && per > 0
  {
    Data(t, k) != 0 || (Taken(groups, per, 0) && Need(t.nodes, Path(t.num, k), 0) < TotalFree(groups))
  }

  // _write_page; on failure the changed copy of the inode is dropped and the inode on disk is read again
  method WritePage(fs: FileSystem, k: nat, data: seq<nat>) returns (err: int)
    requires Settled(fs) && InRange(fs.num, k) && |data| == fs.num
    modifies fs`groups, fs`blocks, fs`disk, fs`nodes
    ensures Settled(fs)
    ensures err == 0 <==> Room(old(fs.T()), old(fs.groups), fs.per, k)
    ensures forall c: nat | Taken(old(fs.groups), fs.per, c) :: Taken(fs.groups, fs.per, c)
    ensures err == 0 ==> Content(fs.T(), k) == data && Data(fs.T(), k) != 0
    ensures forall j: nat | InRange(fs.num, j) && (err != 0 || j != k) :: Content(fs.T(), j) == Content(old(fs.T()), j)
  {
    hide TreeOk, Clean, Taken, Consistent, InRange, Data, Content, Extended, Grows, DiskKept, Undone, Stored, Path,
      Block, Direct, AllFull, FirstFree, TotalFree, Need;
    ghost var t0, groups0 := fs.T(), fs.groups;
    DataIs(t0, k);
    TotalNone(groups0);
    var b := fs.GetBlock(k);
    if b == 0 {
      err, b := fs.AllocBlock();
      ghost var groups := fs.groups;
      if err != 0 {
        MoreTaken(t0, groups0, groups, fs.per);
        return;
      }
      assert TotalFree(groups) == TotalFree(groups0) - 1;
      MoreTaken(t0, groups0, groups, fs.per);
      var inode := fs.blocks;
      err := fs.SetBlock(k, b);
      GrowsTaken(groups0, groups, t0.nodes, fs.groups, fs.nodes, fs.per);
      if err != 0 {
        SameDataAll(t0, fs.T());
        ReloadClean(t0, fs.T(), groups0, groups, fs.groups, fs.per, Direct(fs.num, k));
        fs.nodes := Reloaded(t0, fs.T(), Direct(fs.num, k)).nodes;
        fs.blocks := inode;
        CleanTree(fs.T(), fs.groups, fs.per);
        return -ENOSPC;
      }
      ExtendedIs(t0, fs.T(), groups, fs.groups, fs.per, k, b);
      ExtendedClean(t0, fs.T(), groups0, groups, fs.groups, fs.per, k, b);
      forall j: nat | InRange(fs.num, j) && j != k
        ensures Content(fs.T(), j) == Content(t0, j)
      {
        ContentKept(t0, fs.T(), groups0, groups, fs.groups, fs.per, k, b, j);
      }
      DataNow(t0, fs.T(), groups, fs.groups, fs.per, k, b);
    }
    PutClean(fs.T(), fs.groups, fs.per, k, data);
    CleanTree(Put(fs.T(), b, data), fs.groups, fs.per);
    fs.disk := fs.disk[b := data];
    err := 0;
  }

  lemma GrowsTaken(groups0: seq<Group>, groups: seq<Group>, nodes: map<seq<nat>, nat>, groups': seq<Group>,
                   nodes': map<seq<nat>, nat>, per: nat)
    requires Grows(groups, nodes, groups', nodes', per) &&
             forall c: nat | Taken(groups0, per, c) :: Taken(groups, per, c)
    ensures forall c: nat | Taken(groups0, per, c) :: Taken(groups', per, c)
  {
    hide Taken;
  }

  lemma DataIs(t: Tree, k: nat)
    requires t.num > 0
    ensures Data(t, k) == Stored(t, Path(t.num, k))
  {
  }

  lemma CleanTree(t: Tree, groups: seq<Group>, per: nat)
    requires Clean(t, groups, per)
    ensures t.num > 0 && TreeOk(t, groups, per)
  {
  }

  // More blocks in use do not hurt.
  lemma MoreTaken(t: Tree, groups: seq<Group>, groups': seq<Group>, per: nat)
    requires Clean(t, groups, per) && t.num > 0 && per > 0 &&
             forall c: nat | Taken(groups, per, c) :: Taken(groups', per, c)
    ensures Clean(t, groups', per) && TreeOk(t, groups', per)
  {
    hide Taken, IsNode, InRange, Data, TreeOk;
    GroupsGrow(t, groups, groups', per);
    forall j: nat | InRange(t.num, j)
      ensures DataOk(t, groups', per, j)
    {
      assert DataOk(t, groups, per, j);
    }
  }

  lemma SameDataAll(t: Tree, t': Tree)
    requires t'.num == t.num > 0 && forall j: nat | InRange(t.num, j) ::
               Stored(t', Path(t.num, j)) == Stored(t, Path(t.num, j))
    ensures forall j: nat | InRange(t.num, j) :: Data(t', j) == Data(t, j)
  {
    hide InRange, Path, Stored;
  }

  lemma ExtendedIs(t: Tree, t': Tree, groups: seq<Group>, groups': seq<Group>, per: nat, k: nat, v: nat)
    requires t'.num == t.num > 0 && TreeOk(t', groups', per) && Grows(groups, t.nodes, groups', t'.nodes, per)
    requires forall j: nat | InRange(t.num, j) ::
               Stored(t', Path(t.num, j)) == if j == k then v else Stored(t, Path(t.num, j))
    ensures Extended(t, t', groups, groups', per, k, v)
  {
    hide InRange, Path, Stored, TreeOk, Grows;
  }

  lemma DataNow(t: Tree, t': Tree, groups: seq<Group>, groups': seq<Group>, per: nat, k: nat, v: nat)
    requires t.num > 0 && InRange(t.num, k) && Extended(t, t', groups, groups', per, k, v)
    ensures t'.num == t.num && Data(t', k) == v
  {
    hide InRange, Data, TreeOk, Grows;
  }

  /**
    After any run of page writes on a fresh file, successful or not, no block is used twice: every data block and
    every indirect block is in use and has one place in the file.  Every page reads as it was last written.
  */
  method WritePages(fs: FileSystem, writes: seq<(nat, seq<nat>)>) returns (done: seq<bool>)
    requires Settled(fs) && forall i | 0 <= i < |writes| :: InRange(fs.num, writes[i].0) && |writes[i].1| == fs.num
    modifies fs`groups, fs`blocks, fs`disk, fs`nodes
    ensures Settled(fs) && |done| == |writes|
    ensures forall j: nat | InRange(fs.num, j) ::
              Content(fs.T(), j) == LastWritten(writes, done, j, Content(old(fs.T()), j))
  {
    hide InRange, Content, Clean, TreeOk;
    done := [];
    for n := 0 to |writes|
      invariant Settled(fs) && |done| == n
      invariant forall j: nat | InRange(fs.num, j) ::
                  Content(fs.T(), j) == LastWritten(writes[..n], done, j, Content(old(fs.T()), j))
    {
      var err := WritePage(fs, writes[n].0, writes[n].1);
      assert writes[..n + 1][..n] == writes[..n] && (done + [err == 0])[..n] == done;
      done := done + [err == 0];
    }
    assert writes[..|writes|] == writes;
  }

  /** The data of the last write to page j that was done, or what was there before. */
  function LastWritten(writes: seq<(nat, seq<nat>)>, done: seq<bool>, j: nat, before: seq<nat>): seq<nat>
    requires |writes| == |done|
  {
    if writes == [] then before
    else
      var n := |writes| - 1;
      if writes[n].0 == j && done[n] then writes[n].1 else LastWritten(writes[..n], done[..n], j, before)
  }

  /** A fresh inode: no page has a block. */
  lemma FreshSettled(fs: FileSystem)
    requires fs.Valid() && fs.num > 0 && fs.per > 0 && fs.nodes == map[] && forall k | 0 <= k < 15 :: fs.blocks[k] == 0
    ensures Settled(fs)
  {
    forall j: nat | InRange(fs.num, j)
      ensures Data(fs.T(), j) == 0
    {
      DataPath(fs.num, j);
      hide Path, InRange;
    }
  }

  // ----- blocks smaller than a page

  /** The disk after ext2_write_blockdev has put the blocks of a page at b, b + 1, ... */
  function PutRun(disk: Disk, b: nat, data: seq<seq<nat>>): Disk {
    if data == [] then disk else PutRun(disk, b, data[..|data| - 1])[b + |data| - 1 := data[|data| - 1]]
  }

  /** What page q reads as when a page is `count` blocks long: only its first block has a place in the file. */
  function PageAt(t: Tree, count: nat, q: nat): seq<seq<nat>>
    requires t.num > 0
  {
    var b := Data(t, q * count);
    seq(count, i requires 0 <= i => Block(t.disk, t.num, b + i))
  }

  /** With num pointers to a block: in a file that uses no block twice, writing a page leaves the others alone. */
  ghost predicate WritesApart(num: nat, count: nat) {
    forall t, groups, per, p: nat, q: nat, data |
      Clean(t, groups, per) && t.num == num && Unmixed(t, count, p, q, data) :: Apart(t, count, p, q, data)
  }

  predicate Unmixed(t: Tree, count: nat, p: nat, q: nat, data: seq<seq<nat>>)
    requires t.num > 0
  {
    p != q && InRange(t.num, p * count) && InRange(t.num, q * count) && Data(t, p * count) != 0 && |data| == count &&
    forall i | 0 <= i < count :: |data[i]| == t.num
  }

  predicate Apart(t: Tree, count: nat, p: nat, q: nat, data: seq<seq<nat>>)
    requires t.num > 0
  {
    PageAt(t.(disk := PutRun(t.disk, Data(t, p * count), data)), count, q) == PageAt(t, count, q)
  }

  // A file of two pages, which have adjacent blocks.
  function Adjacent(num: nat, count: nat, disk: Disk): Tree
    requires count < 12
  {
    Tree(num, seq(15, j => if j == 0 then 1 else if j == count then 2 else 0), disk, map[])
  }

  function AllUsed(): seq<Group> {
    [Group(0, seq(3, _ => true))]
  }

  lemma AdjacentData(num: nat, count: nat, disk: Disk, j: nat)
    requires num > 0 && 0 < count < 12 && InRange(num, j)
    ensures Data(Adjacent(num, count, disk), j) == if j == 0 then 1 else if j == count then 2 else 0
  {
    PathFull(num, j);
  }

  lemma AdjacentClean(num: nat, count: nat)
    requires num > 0 && 0 < count < 12
    ensures Clean(Adjacent(num, count, map[]), AllUsed(), 3)
  {
    var t := Adjacent(num, count, map[]);
    assert TreeOk(t, AllUsed(), 3);
    forall j: nat | InRange(num, j)
      ensures DataOk(t, AllUsed(), 3, j)
    {
      AdjacentData(num, count, map[], j);
      forall i: nat | InRange(num, i)
        ensures Data(t, i) == if i == 0 then 1 else if i == count then 2 else 0
      {
        AdjacentData(num, count, map[], i);
      }
    }
  }

  lemma {:induction false} PutRunFirst(disk: Disk, b: nat, data: seq<seq<nat>>)
    requires data != []
    ensures b in PutRun(disk, b, data) && PutRun(disk, b, data)[b] == data[0]
  {
    if |data| > 1 {
      PutRunFirst(disk, b, data[..|data| - 1]);
    }
  }

  lemma PageSecond(t: Tree, count: nat)
    requires t.num > 0 && count >= 2 && Data(t, 0) == 1
    ensures PageAt(t, count, 0)[1] == Block(t.disk, t.num, 2)
  {
    hide Data;
    assert 0 * count == 0;
  }

  // Writing the second page writes the second block of the first page.
  lemma NotApart(num: nat, count: nat)
    requires num > 0 && 2 <= count <= 4
    ensures !WritesApart(num, count)
  {
    var t, data := Adjacent(num, count, map[]), seq(count, _ => seq(num, _ => 1));
    AdjacentClean(num, count);
    AdjacentData(num, count, map[], 0);
    AdjacentData(num, count, map[], count);
    assert InRange(num, 1 * count) && InRange(num, 0 * count);
    assert Unmixed(t, count, 1, 0, data);
    var disk := PutRun(map[], 2, data);
    PutRunFirst(map[], 2, data);
    AdjacentData(num, count, disk, 0);
    hide Data, Clean;
    assert t.(disk := disk) == Adjacent(num, count, disk);
    PageSecond(Adjacent(num, count, disk), count);
    PageSecond(t, count);
    assert Block(disk, num, 2)[0] == 1 && Block(map[], num, 2)[0] == 0;
    assert !Apart(t, count, 1, 0, data);
  }

  lemma OneApart(t: Tree, groups: seq<Group>, per: nat, p: nat, q: nat, data: seq<seq<nat>>)
    requires Clean(t, groups, per) && Unmixed(t, 1, p, q, data)
    ensures Apart(t, 1, p, q, data)
  {
    hide Data, Clean, InRange, Block;
    CleanTree(t, groups, per);
    assert p * 1 == p && q * 1 == q;
    var b := Data(t, p);
    assert PutRun(t.disk, b, data[..0]) == t.disk;
    var t' := Put(t, b, data[0]);
    assert t.(disk := PutRun(t.disk, b, data)) == t';
    PutClean(t, groups, per, p, data[0]);
    DataOkKept(t, groups, per, p, q, data[0]);
    assert Content(t', q) == Content(t, q);
  }

  lemma AllApart(num: nat)
    ensures WritesApart(num, 1)
  {
    hide TreeOk, DataOk, Unmixed, Apart;
    forall t, groups, per, p: nat, q: nat, data | Clean(t, groups, per) && t.num == num && Unmixed(t, 1, p, q, data)
      ensures Apart(t, 1, p, q, data)
    {
      OneApart(t, groups, per, p, q, data);
    }
  }

  /**
    The driver maps one block for each page but writes as many consecutive blocks as a page is long.  With pages of
    4 KiB and blocks of 1, 2 or 4 KiB, whatever the number of pointers in a block, a page write leaves the other pages
    alone exactly if the blocks are of 4 KiB.
  */
  lemma WritesApartExactly(num: nat, count: nat)
    requires num > 0 && 1 <= count <= 4
    ensures WritesApart(num, count) <==> count == 1
  {
    if count == 1 {
      AllApart(num);
    } else {
      NotApart(num, count);
    }
  }

  lemma DataOkKept(t: Tree, groups: seq<Group>, per: nat, p: nat, q: nat, data: seq<nat>)
    requires Clean(t, groups, per) && InRange(t.num, p) && InRange(t.num, q) && p != q && Data(t, p) != 0
    ensures Data(Put(t, Data(t, p), data), q) == Data(t, q)
  {
    assert DataOk(t, groups, per, p);
    PutData(t, groups, per, Data(t, p), data);
  }
}
