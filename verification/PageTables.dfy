/**
  The x86_64 page tables: a four-level radix tree of 512-entry tables in physical memory, with 4 KiB,
  2 MiB and 1 GiB pages, seen as a partial map from pages to frames and flags.
*/
module PageTables {

  import opened Common

  type Word = bv64

  const PRESENT: Word := 0x1
  const WRITE: Word := 0x2
  const USER: Word := 0x4
  const WRITETHR: Word := 0x8
  const NOCACHE: Word := 0x10
  const ACCESSED: Word := 0x20
  const DIRTY: Word := 0x40
  const LARGE: Word := 0x80
  const GLOBAL: Word := 0x100
  const NOEXEC: Word := 0x8000_0000_0000_0000
  const PHYS_MASK: Word := 0x7FFF_FFFF_FFFF_F000

  const MAP_DEVICE: Word := 0x2
  const MAP_USER: Word := 0x4
  const MAP_WRITE: Word := 0x8
  const MAP_PRIVATE: Word := 0x10
  const MAP_ACCESSED: Word := 0x20
  const MAP_EXECUTE: Word := 0x40
  const MAP_DIRTY: Word := 0x80

  function If(c: bool, w: Word): Word {
    if c then w else 0
  }

  // __convert_attr_to_flags
  function ToFlags(attr: Word): Word {
    If(attr & ACCESSED != 0, MAP_ACCESSED)
    | If(attr & WRITETHR != 0 && attr & NOCACHE != 0, MAP_DEVICE)
    | If(attr & GLOBAL == 0, MAP_PRIVATE)
    | If(attr & NOEXEC == 0, MAP_EXECUTE)
    | If(attr & USER != 0, MAP_USER)
    | If(attr & WRITE != 0, MAP_WRITE)
  }

  // __convert_flags_to_attr
  function ToAttr(flags: Word): Word {
    If(flags & MAP_PRIVATE == 0, GLOBAL)
    | If(flags & MAP_USER != 0, USER)
    | If(flags & MAP_WRITE != 0, WRITE)
    | If(flags & MAP_DEVICE != 0, NOCACHE | WRITETHR)
    | If(flags & MAP_EXECUTE == 0, NOEXEC)
    | If(flags & MAP_ACCESSED != 0, ACCESSED)
    | If(flags & MAP_DIRTY != 0, DIRTY)
  }

  /** Only the MAP_ bits. */
  predicate KnownFlags(flags: Word) {
    flags & 0xFE == flags
  }

  /** What is read back of flags: all but MAP_DIRTY. */
  function Stored(flags: Word): Word {
    flags & !MAP_DIRTY
  }

  /** Every flag but MAP_DIRTY survives being stored in an entry. */
  lemma FlagsRoundTrip(flags: Word)
    requires KnownFlags(flags)
    ensures ToFlags(ToAttr(flags)) == Stored(flags)
  {
  }

  lemma AttrBits(flags: Word)
    ensures PhysOf(ToAttr(flags)) == 0 && !IsLarge(ToAttr(flags))
  {
  }

  function TableEntry(base: Word): Word {
    base | PRESENT | WRITE | USER
  }

  function LeafEntry(phys: Word, attr: Word, large: bool): Word {
    phys | attr | PRESENT | If(large, LARGE)
  }

  function PhysOf(e: Word): Word {
    e & PHYS_MASK
  }

  predicate IsLarge(e: Word) {
    e & LARGE != 0
  }

  function FlagsOf(e: Word): Word {
    ToFlags(e & !PHYS_MASK)
  }

  predicate NodeOk(n: Node) {
    match n
    case Table(base) => PhysOf(base) == base
    case Leaf(phys, attr) => PhysOf(phys) == phys && PhysOf(attr) == 0 && !IsLarge(attr)
  }

  /** What hangs at a place: a table, or a page. */
  datatype Node = Table(base: Word) | Leaf(phys: Word, attr: Word)

  function Entry(n: Node, depth: nat): Word {
    match n
    case Table(base) => TableEntry(base)
    case Leaf(phys, attr) => LeafEntry(phys, attr, depth < 4)
  }

  lemma TableBits(base: Word)
    requires PhysOf(base) == base
    ensures TableEntry(base) != 0 && PhysOf(TableEntry(base)) == base && !IsLarge(TableEntry(base))
  {
  }

  lemma LeafBits(phys: Word, attr: Word, large: bool)
    requires PhysOf(phys) == phys && PhysOf(attr) == 0 && !IsLarge(attr)
    ensures var e := LeafEntry(phys, attr, large); e != 0 && PhysOf(e) == phys && (IsLarge(e) <==> large)
  {
  }

  lemma LeafFlags(phys: Word, attr: Word, large: bool)
    requires PhysOf(phys) == phys && PhysOf(attr) == 0
    ensures FlagsOf(LeafEntry(phys, attr, large)) == ToFlags(attr)
  {
    LeafLow(phys, attr, large);
    hide ToFlags, LeafEntry, PhysOf;
    FlagsDepend(LeafEntry(phys, attr, large) & !PHYS_MASK, attr);
  }

  lemma LeafLow(phys: Word, attr: Word, large: bool)
    requires PhysOf(phys) == phys && PhysOf(attr) == 0
    ensures LeafEntry(phys, attr, large) & !PHYS_MASK & 0x8000_0000_0000_017E == attr & 0x8000_0000_0000_017E
  {
  }

  lemma FlagsDepend(a: Word, b: Word)
    requires a & 0x8000_0000_0000_017E == b & 0x8000_0000_0000_017E
    ensures ToFlags(a) == ToFlags(b)
  {
  }

  /** What can be read off an entry. */
  lemma EntryBits(n: Node, depth: nat)
    requires NodeOk(n)
    ensures Entry(n, depth) != 0
    ensures n.Table? ==> PhysOf(Entry(n, depth)) == n.base && !IsLarge(Entry(n, depth))
    ensures n.Leaf? ==> PhysOf(Entry(n, depth)) == n.phys && (IsLarge(Entry(n, depth)) <==> depth < 4)
    ensures n.Leaf? ==> FlagsOf(Entry(n, depth)) == ToFlags(n.attr)
  {
    hide PhysOf, IsLarge, FlagsOf, ToFlags, TableEntry, LeafEntry;
    match n
    case Table(base) => TableBits(base);
    case Leaf(phys, attr) =>
      LeafBits(phys, attr, depth < 4);
      LeafFlags(phys, attr, depth < 4);
  }

  /** A place in the tree: the indices from the root table down. */
  type Path = seq<Word>

  function Pml4Index(virt: Word): Word {
    (virt >> 39) & 0x1FF
  }

  function PdptIndex(virt: Word): Word {
    (virt >> 30) & 0x1FF
  }

  function PdIndex(virt: Word): Word {
    (virt >> 21) & 0x1FF
  }

  function PtIndex(virt: Word): Word {
    (virt >> 12) & 0x1FF
  }

  function PathOf(virt: Word): (x: Path)
    ensures |x| == 4
  {
    [Pml4Index(virt), PdptIndex(virt), PdIndex(virt), PtIndex(virt)]
  }

  lemma SameIndices(a: Word, b: Word)
    requires a & 0xFFFF_FFFF_F000 == a && b & 0xFFFF_FFFF_F000 == b
    requires Pml4Index(a) == Pml4Index(b) && PdptIndex(a) == PdptIndex(b)
    requires PdIndex(a) == PdIndex(b) && PtIndex(a) == PtIndex(b)
    ensures a == b
  {
  }

  /** Different pages of the 48-bit address space have different paths. */
  lemma PathsDiffer(a: Word, b: Word)
    requires a & 0xFFFF_FFFF_F000 == a && b & 0xFFFF_FFFF_F000 == b && PathOf(a) == PathOf(b)
    ensures a == b
  {
    hide Pml4Index, PdptIndex, PdIndex, PtIndex;
    var p, q := PathOf(a), PathOf(b);
    assert p[0] == q[0] && p[1] == q[1] && p[2] == q[2] && p[3] == q[3];
    SameIndices(a, b);
  }

  // ----- the tree in memory

  /** What the walk of the tables finds at the end of each path. */
  type Tree = map<Path, Node>

  type Memory = map<(Word, Word), Word>

  function Read(mem: Memory, base: Word, i: Word): Word {
    if (base, i) in mem then mem[(base, i)] else 0
  }

  predicate IsTable(tree: Tree, p: Path) {
    p == [] || (p in tree && tree[p].Table?)
  }

  function Base(root: Word, tree: Tree, p: Path): Word {
    if p in tree && tree[p].Table? then tree[p].base else root
  }

  function EntryAt(tree: Tree, p: Path): Word {
    if p in tree then Entry(tree[p], |p|) else 0
  }

  function Parent(p: Path): Path
    requires p != []
  {
    p[..|p| - 1]
  }

  /** Tables hang below tables, down to depth three; pages are at depths two to four. */
  predicate PlaceOk(tree: Tree, p: Path)
    requires p in tree
  {
    1 <= |p| <= 4 && IsTable(tree, Parent(p)) && NodeOk(tree[p]) && (|p| == 4 ==> tree[p].Leaf?) &&
    (|p| == 1 ==> tree[p].Table?)
  }

  ghost predicate Shaped(tree: Tree) {
    [] !in tree && forall p | p in tree :: PlaceOk(tree, p)
  }

  /** Every table holds exactly the entries that the tree has below it. */
  ghost predicate Holds(mem: Memory, root: Word, tree: Tree) {
    forall p: Path, i: Word :: IsTable(tree, p) ==> Read(mem, Base(root, tree, p), i) == EntryAt(tree, p + [i])
  }

  /** No two tables share a page, and none is free. */
  ghost predicate Separate(free: set<Word>, root: Word, tree: Tree) {
    (forall p: Path | IsTable(tree, p) :: Base(root, tree, p) !in free) &&
    (forall p: Path, q: Path | IsTable(tree, p) && IsTable(tree, q) && Base(root, tree, p) == Base(root, tree, q) ::
       p == q) &&
    (forall b | b in free :: PhysOf(b) == b)
  }

  ghost predicate Ok(mem: Memory, free: set<Word>, root: Word, tree: Tree) {
    Shaped(tree) && Holds(mem, root, tree) && Separate(free, root, tree)
  }

  lemma SnocParts(p: Path, i: Word, q: Path, j: Word)
    ensures Parent(p + [i]) == p
    ensures p + [i] == q + [j] <==> p == q && i == j
  {
    if p + [i] == q + [j] {
      assert (p + [i])[|p|] == (q + [j])[|q|];
      assert Parent(p + [i]) == Parent(q + [j]);
    }
  }

  ghost predicate SameTables(root: Word, tree: Tree, tree': Tree) {
    forall q: Path :: IsTable(tree', q) == IsTable(tree, q) && Base(root, tree', q) == Base(root, tree, q)
  }

  lemma SeparateSame(free: set<Word>, root: Word, tree: Tree, tree': Tree)
    requires Separate(free, root, tree) && SameTables(root, tree, tree')
    ensures Separate(free, root, tree')
  {
    hide IsTable, Base;
  }

  // The tables stay; what the tree has below p at index i becomes what e says.
  lemma HoldsSet(mem: Memory, free: set<Word>, root: Word, tree: Tree, tree': Tree, p: Path, i: Word, e: Word)
    requires Ok(mem, free, root, tree) && SameTables(root, tree, tree') && IsTable(tree, p)
    requires forall q: Path | q != p + [i] :: EntryAt(tree', q) == EntryAt(tree, q)
    requires EntryAt(tree', p + [i]) == e
    ensures Holds(mem[(Base(root, tree, p), i) := e], root, tree')
  {
    hide IsTable, Base, EntryAt, Shaped;
    forall q: Path, j: Word | IsTable(tree', q)
      ensures Read(mem[(Base(root, tree, p), i) := e], Base(root, tree', q), j) == EntryAt(tree', q + [j])
    {
      SnocParts(p, i, q, j);
      assert Read(mem, Base(root, tree, q), j) == EntryAt(tree, q + [j]);
    }
  }

  lemma ShapedSet(root: Word, tree: Tree, p: Path, i: Word, n: Node)
    requires Shaped(tree) && IsTable(tree, p) && 1 <= |p| <= 3 && !IsTable(tree, p + [i]) && n.Leaf? && NodeOk(n)
    ensures Shaped(tree[p + [i] := n]) && SameTables(root, tree, tree[p + [i] := n])
  {
    hide NodeOk;
    SnocParts(p, i, p, i);
    var tree' := tree[p + [i] := n];
    assert forall q: Path :: IsTable(tree', q) == IsTable(tree, q);
    hide IsTable;
    forall q | q in tree'
      ensures PlaceOk(tree', q)
    {
      if q != p + [i] {
        assert PlaceOk(tree, q);
      }
    }
  }

  /** Writing a page entry into a table. */
  lemma LeafSet(mem: Memory, free: set<Word>, root: Word, tree: Tree, p: Path, i: Word, n: Node)
    requires Ok(mem, free, root, tree) && IsTable(tree, p) && 1 <= |p| <= 3 && !IsTable(tree, p + [i])
    requires n.Leaf? && NodeOk(n)
    ensures Ok(mem[(Base(root, tree, p), i) := Entry(n, |p| + 1)], free, root, tree[p + [i] := n])
  {
    var tree' := tree[p + [i] := n];
    hide NodeOk, EntryAt, Entry, Holds, Separate, Shaped, SameTables, IsTable, Base;
    EntriesSet(tree, p + [i], n);
    ShapedSet(root, tree, p, i, n);
    SeparateSame(free, root, tree, tree');
    HoldsSet(mem, free, root, tree, tree', p, i, Entry(n, |p| + 1));
  }

  lemma ShapedDrop(root: Word, tree: Tree, p: Path)
    requires Shaped(tree) && !IsTable(tree, p)
    ensures Shaped(tree - {p}) && SameTables(root, tree, tree - {p})
  {
    hide NodeOk;
    var tree' := tree - {p};
    assert forall q: Path :: IsTable(tree', q) == IsTable(tree, q);
    hide IsTable;
    forall q | q in tree'
      ensures PlaceOk(tree', q)
    {
      assert PlaceOk(tree, q);
    }
  }

  lemma EntriesDrop(tree: Tree, p: Path)
    ensures EntryAt(tree - {p}, p) == 0 && forall q: Path | q != p :: EntryAt(tree - {p}, q) == EntryAt(tree, q)
  {
    hide Entry;
  }

  lemma EntriesSet(tree: Tree, p: Path, n: Node)
    ensures EntryAt(tree[p := n], p) == Entry(n, |p|)
    ensures forall q: Path | q != p :: EntryAt(tree[p := n], q) == EntryAt(tree, q)
  {
    hide Entry;
  }

  /** Clearing a page entry, or one that is clear. */
  lemma LeafDrop(mem: Memory, free: set<Word>, root: Word, tree: Tree, p: Path, i: Word)
    requires Ok(mem, free, root, tree) && IsTable(tree, p) && !IsTable(tree, p + [i])
    ensures Ok(mem[(Base(root, tree, p), i) := 0], free, root, tree - {p + [i]})
  {
    var tree' := tree - {p + [i]};
    hide NodeOk, EntryAt, Holds, Separate, Shaped, SameTables, IsTable, Base;
    EntriesDrop(tree, p + [i]);
    ShapedDrop(root, tree, p + [i]);
    SeparateSame(free, root, tree, tree');
    HoldsSet(mem, free, root, tree, tree', p, i, 0);
  }

  // ----- a new table

  // mm_physical_allocate clears the page
  function Cleared(mem: Memory, b: Word): Memory {
    map k | k in mem && k.0 != b :: mem[k]
  }

  lemma ShapedAdd(tree: Tree, p: Path, i: Word, b: Word)
    requires Shaped(tree) && IsTable(tree, p) && |p| <= 2 && p + [i] !in tree && PhysOf(b) == b
    ensures Shaped(tree[p + [i] := Table(b)])
  {
    SnocParts(p, i, p, i);
    var tree' := tree[p + [i] := Table(b)];
    assert NodeOk(Table(b));
    hide NodeOk;
    forall q | q in tree'
      ensures PlaceOk(tree', q)
    {
      if q != p + [i] {
        assert PlaceOk(tree, q);
      }
    }
  }

  // Nothing hangs below a place that is not a table.
  lemma NothingBelow(tree: Tree, p: Path, j: Word)
    requires Shaped(tree)
    ensures p + [j] in tree ==> IsTable(tree, p)
  {
    SnocParts(p, j, p, j);
    assert p + [j] in tree ==> PlaceOk(tree, p + [j]);
  }

  lemma SeparateAdd(free: set<Word>, root: Word, tree: Tree, q: Path, b: Word)
    requires Separate(free, root, tree) && q != [] && q !in tree && b in free
    ensures Separate(free - {b}, root, tree[q := Table(b)])
  {
    var tree' := tree[q := Table(b)];
    assert forall r: Path | r != q ::
        IsTable(tree', r) == IsTable(tree, r) && Base(root, tree', r) == Base(root, tree, r);
    assert IsTable(tree', q) && Base(root, tree', q) == b;
    hide IsTable, Base;
  }

  function Grown(mem: Memory, root: Word, tree: Tree, p: Path, i: Word, b: Word): Memory {
    Cleared(mem, b)[(Base(root, tree, p), i) := TableEntry(b)]
  }

  // A table that was there before.
  lemma HoldsOld(mem: Memory, free: set<Word>, root: Word, tree: Tree, p: Path, i: Word, b: Word, q: Path, j: Word)
    requires Ok(mem, free, root, tree) && IsTable(tree, p) && p + [i] !in tree && b in free && IsTable(tree, q) &&
             q != p + [i]
    ensures var tree' := tree[p + [i] := Table(b)];
            Read(Grown(mem, root, tree, p, i, b), Base(root, tree', q), j) == EntryAt(tree', q + [j])
  {
    hide Shaped, TableEntry, LeafEntry;
    SnocParts(p, i, q, j);
    assert Read(mem, Base(root, tree, q), j) == EntryAt(tree, q + [j]);
  }

  // The new table is empty.
  lemma HoldsNew(mem: Memory, free: set<Word>, root: Word, tree: Tree, p: Path, i: Word, b: Word, j: Word)
    requires Ok(mem, free, root, tree) && IsTable(tree, p) && p + [i] !in tree && b in free
    ensures var tree' := tree[p + [i] := Table(b)];
            Read(Grown(mem, root, tree, p, i, b), b, j) == 0 == EntryAt(tree', p + [i] + [j])
  {
    assert Base(root, tree, p) != b;
    NothingBelow(tree, p + [i], j);
    hide Shaped, Holds, Separate, TableEntry;
    assert |p + [i] + [j]| != |p + [i]|;
  }

  lemma HoldsAdd(mem: Memory, free: set<Word>, root: Word, tree: Tree, p: Path, i: Word, b: Word)
    requires Ok(mem, free, root, tree) && IsTable(tree, p) && p + [i] !in tree && b in free
    ensures Holds(Grown(mem, root, tree, p, i, b), root, tree[p + [i] := Table(b)])
  {
    var n, tree' := p + [i], tree[p + [i] := Table(b)];
    assert forall r: Path | r != n :: IsTable(tree', r) == IsTable(tree, r);
    assert Base(root, tree', n) == b;
    hide Shaped, Separate, IsTable, Base, EntryAt, Grown, Read;
    forall q: Path, j: Word | IsTable(tree', q)
      ensures Read(Grown(mem, root, tree, p, i, b), Base(root, tree', q), j) == EntryAt(tree', q + [j])
    {
      if q == n {
        HoldsNew(mem, free, root, tree, p, i, b, j);
      } else {
        HoldsOld(mem, free, root, tree, p, i, b, q, j);
      }
    }
  }

  /** Hanging a new, cleared table below another. */
  lemma TableAdd(mem: Memory, free: set<Word>, root: Word, tree: Tree, p: Path, i: Word, b: Word)
    requires Ok(mem, free, root, tree) && IsTable(tree, p) && |p| <= 2 && p + [i] !in tree && b in free
    ensures Ok(Grown(mem, root, tree, p, i, b), free - {b}, root, tree[p + [i] := Table(b)])
  {
    assert PhysOf(b) == b;
    hide Holds, Separate, Shaped, IsTable, Grown;
    ShapedAdd(tree, p, i, b);
    SeparateAdd(free, root, tree, p + [i], b);
    HoldsAdd(mem, free, root, tree, p, i, b);
  }

  // ----- reading the tree back

  /** The page that hangs at p. */
  function LeafAt(tree: Tree, p: Path): Option<Node> {
    if p in tree && tree[p].Leaf? then Some(tree[p]) else None
  }

  /** How deep the page for path x hangs: 2 for 1 GiB, 3 for 2 MiB, 4 for 4 KiB, and 0 for none. */
  function LeafDepth(tree: Tree, x: Path): nat
    requires |x| == 4
  {
    if LeafAt(tree, x[..2]).Some? then 2 else if LeafAt(tree, x[..3]).Some? then 3
    else if LeafAt(tree, x[..4]).Some? then 4 else 0
  }

  datatype Mapping = Mapping(phys: Word, flags: Word, depth: nat)

  /** The partial map that the tables stand for. */
  function Lookup(tree: Tree, x: Path): Option<Mapping>
    requires |x| == 4
  {
    var d := LeafDepth(tree, x);
    if d == 0 then None
    else var n := LeafAt(tree, x[..d]).value; Some(Mapping(n.phys, ToFlags(n.attr), d))
  }

  /** What a table entry says about the place it leads to. */
  lemma EntryFacts(mem: Memory, free: set<Word>, root: Word, tree: Tree, p: Path, i: Word)
    requires Ok(mem, free, root, tree) && IsTable(tree, p)
    ensures var e, n := Read(mem, Base(root, tree, p), i), p + [i];
            if n !in tree then e == 0
            else e == Entry(tree[n], |n|) && e != 0 && |n| <= 4 && NodeOk(tree[n]) &&
                 (|n| == 1 ==> tree[n].Table?) && (|n| == 4 ==> tree[n].Leaf?)
  {
    var n := p + [i];
    assert Read(mem, Base(root, tree, p), i) == EntryAt(tree, n);
    hide Holds, Separate;
    if n in tree {
      assert PlaceOk(tree, n);
      hide Shaped, TableEntry, LeafEntry, NodeOk;
      EntryBits(tree[n], |n|);
    }
  }

  // Below a missing place or a page there is nothing.
  lemma Below(tree: Tree, x: Path, d: nat)
    requires Shaped(tree) && |x| == 4 && 1 <= d <= 4 && !IsTable(tree, x[..d])
    ensures forall k | d < k <= 4 :: x[..k] !in tree
    decreases 4 - d
  {
    if d < 4 {
      assert x[..d + 1] == x[..d] + [x[d]];
      NothingBelow(tree, x[..d], x[d]);
      Below(tree, x, d + 1);
    }
  }

  // ----- the operations

  datatype MapResult = Mapped | Exists | NoMemory

  /** No page of another size covers the place at depth d of x. */
  predicate Clear(tree: Tree, x: Path, d: nat)
    requires |x| == 4 && d <= 4
  {
    (d > 2 ==> LeafAt(tree, x[..2]) == None) && (d > 3 ==> LeafAt(tree, x[..3]) == None)
  }

  ghost predicate SameLeaves(tree: Tree, tree': Tree) {
    forall q: Path :: LeafAt(tree', q) == LeafAt(tree, q)
  }

  /** The pages are those of before, except that p now has n. */
  ghost predicate LeafChanged(tree: Tree, tree': Tree, p: Path, n: Option<Node>) {
    forall q: Path :: LeafAt(tree', q) == if q == p then n else LeafAt(tree, q)
  }

  /** The partial map is that of before, except that the pages below the first d steps of x now show m. */
  ghost predicate Remapped(tree: Tree, tree': Tree, x: Path, d: nat, m: Option<Mapping>)
    requires |x| == 4 && d <= 4
  {
    forall y: Path | |y| == 4 :: Lookup(tree', y) == if y[..d] == x[..d] then m else Lookup(tree, y)
  }

  function Shown(n: Option<Node>, d: nat): Option<Mapping>
    requires n.Some? ==> n.value.Leaf?
  {
    if n.Some? then Some(Mapping(n.value.phys, ToFlags(n.value.attr), d)) else None
  }

  lemma ChangedLookup(tree: Tree, tree': Tree, x: Path, d: nat, n: Option<Node>, y: Path)
    requires |x| == 4 == |y| && 2 <= d <= 4 && Shaped(tree) && Clear(tree, x, d) && !IsTable(tree, x[..d])
    requires LeafChanged(tree, tree', x[..d], n) && (n.Some? ==> n.value.Leaf?)
    ensures Lookup(tree', y) == if y[..d] == x[..d] then Shown(n, d) else Lookup(tree, y)
  {
    assert forall k | 2 <= k <= 4 :: LeafAt(tree', y[..k]) == if y[..k] == x[..d] then n else LeafAt(tree, y[..k]);
    if y[..d] == x[..d] {
      Below(tree, y, d);
      assert forall k | 0 <= k <= d :: y[..k] == y[..d][..k] && x[..k] == x[..d][..k];
    }
    hide LeafAt, ToFlags, Shaped, LeafChanged;
    assert y[..2] == x[..d] ==> d == 2;
    assert y[..3] == x[..d] ==> d == 3;
    assert y[..4] == x[..d] ==> d == 4;
  }

  lemma ChangedRemapped(tree: Tree, tree': Tree, x: Path, d: nat, n: Option<Node>)
    requires |x| == 4 && 2 <= d <= 4 && Shaped(tree) && Clear(tree, x, d) && !IsTable(tree, x[..d])
    requires LeafChanged(tree, tree', x[..d], n) && (n.Some? ==> n.value.Leaf?)
    ensures Remapped(tree, tree', x, d, Shown(n, d))
  {
    hide Lookup, LeafChanged, Shaped, Clear, IsTable;
    forall y: Path | |y| == 4
      ensures Lookup(tree', y) == if y[..d] == x[..d] then Shown(n, d) else Lookup(tree, y)
    {
      ChangedLookup(tree, tree', x, d, n, y);
    }
  }

  ghost predicate SameLookups(tree: Tree, tree': Tree) {
    forall y: Path | |y| == 4 :: Lookup(tree', y) == Lookup(tree, y)
  }

  lemma SameLookup(tree: Tree, tree': Tree)
    requires SameLeaves(tree, tree')
    ensures SameLookups(tree, tree')
  {
    forall y: Path | |y| == 4
      ensures Lookup(tree', y) == Lookup(tree, y)
    {
      assert forall k | 2 <= k <= 4 :: LeafAt(tree', y[..k]) == LeafAt(tree, y[..k]);
      hide LeafAt, ToFlags, SameLeaves;
    }
  }

  /** Where the walk for x ends: at the first entry that is zero or a page. */
  predicate EndsAt(root: Word, tree: Tree, x: Path, d: nat, base: Word)
    requires |x| == 4
  {
    1 <= d <= 4 && IsTable(tree, x[..d - 1]) && base == Base(root, tree, x[..d - 1]) && !IsTable(tree, x[..d])
  }

  lemma EndDepth(tree: Tree, root: Word, x: Path, d: nat, base: Word)
    requires |x| == 4 && Shaped(tree) && EndsAt(root, tree, x, d, base)
    ensures LeafDepth(tree, x) == if x[..d] in tree then d else 0
  {
    Below(tree, x, d);
    Above(tree, x, d - 1);
    if x[..d] in tree {
      assert PlaceOk(tree, x[..d]);
    }
  }

  // Above a table there are only tables.
  lemma Above(tree: Tree, x: Path, d: nat)
    requires Shaped(tree) && |x| == 4 && d <= 4 && IsTable(tree, x[..d])
    ensures forall k | 0 <= k <= d :: IsTable(tree, x[..k])
  {
    if d > 0 {
      assert PlaceOk(tree, x[..d]) && Parent(x[..d]) == x[..d - 1];
      Above(tree, x, d - 1);
    }
  }

  /** What the entry at the end of a walk says. */
  lemma WalkEnd(mem: Memory, free: set<Word>, root: Word, tree: Tree, x: Path, d: nat, base: Word)
    requires |x| == 4 && Ok(mem, free, root, tree) && EndsAt(root, tree, x, d, base)
    ensures var e := Read(mem, base, x[d - 1]);
            LeafDepth(tree, x) == (if e != 0 then d else 0) && (e == 0 <==> x[..d] !in tree) &&
            (e != 0 ==>
               tree[x[..d]].Leaf? && PhysOf(e) == tree[x[..d]].phys && FlagsOf(e) == ToFlags(tree[x[..d]].attr))
  {
    EndDepth(tree, root, x, d, base);
    assert x[..d] == x[..d - 1] + [x[d - 1]];
    EntryFacts(mem, free, root, tree, x[..d - 1], x[d - 1]);
    hide Entry, PhysOf, FlagsOf, NodeOk, ToFlags, IsLarge, Ok, LeafDepth;
    if x[..d] in tree {
      EntryBits(tree[x[..d]], d);
    }
  }

  lemma DropAt(mem: Memory, free: set<Word>, root: Word, tree: Tree, x: Path, d: nat, base: Word)
    requires |x| == 4 && Ok(mem, free, root, tree) && EndsAt(root, tree, x, d, base)
    ensures Ok(mem[(base, x[d - 1]) := 0], free, root, tree - {x[..d]})
    ensures LeafChanged(tree, tree - {x[..d]}, x[..d], None)
  {
    hide Ok;
    assert x[..d] == x[..d - 1] + [x[d - 1]];
    LeafDrop(mem, free, root, tree, x[..d - 1], x[d - 1]);
  }

  lemma SetAt(mem: Memory, free: set<Word>, root: Word, tree: Tree, x: Path, d: nat, base: Word, n: Node)
    requires |x| == 4 && Ok(mem, free, root, tree) && EndsAt(root, tree, x, d, base) && d >= 2 && n.Leaf? && NodeOk(n)
    ensures Ok(mem[(base, x[d - 1]) := Entry(n, d)], free, root, tree[x[..d] := n])
    ensures LeafChanged(tree, tree[x[..d] := n], x[..d], Some(n))
  {
    hide Ok, NodeOk, Entry;
    assert x[..d] == x[..d - 1] + [x[d - 1]];
    LeafSet(mem, free, root, tree, x[..d - 1], x[d - 1], n);
  }

  // One step down the tables, or the end of the walk.
  lemma WalkStep(mem: Memory, free: set<Word>, root: Word, tree: Tree, x: Path, d: nat, base: Word)
    requires |x| == 4 && Ok(mem, free, root, tree) && 1 <= d <= 4 && IsTable(tree, x[..d - 1]) &&
             base == Base(root, tree, x[..d - 1])
    ensures var e := Read(mem, base, x[d - 1]);
            if e == 0 || d == 4 || IsLarge(e) then EndsAt(root, tree, x, d, base)
            else IsTable(tree, x[..d]) && PhysOf(e) == Base(root, tree, x[..d])
  {
    assert x[..d] == x[..d - 1] + [x[d - 1]];
    EntryFacts(mem, free, root, tree, x[..d - 1], x[d - 1]);
    hide Entry, PhysOf, NodeOk, IsLarge, Ok;
    if x[..d] in tree {
      EntryBits(tree[x[..d]], d);
    }
  }

  // A page at depth one cannot be.
  lemma EndDeep(mem: Memory, free: set<Word>, root: Word, tree: Tree, x: Path, d: nat, base: Word)
    requires |x| == 4 && Ok(mem, free, root, tree) && EndsAt(root, tree, x, d, base) && Read(mem, base, x[d - 1]) != 0
    ensures d >= 2
  {
    WalkEnd(mem, free, root, tree, x, d, base);
  }

  class Tables {
    const root: Word
    var mem: Memory
    var free: set<Word>
    ghost var tree: Tree

    ghost predicate Valid()
      reads this
    {
      Ok(mem, free, root, tree)
    }

    // an empty root table
    constructor (base: Word, pages: set<Word>)
      requires base !in pages && forall b | b in pages :: PhysOf(b) == b
      ensures Valid() && tree == map[] && free == pages
    {
      root, mem, free, tree := base, map[], pages, map[];
    }

    // the walk shared by unmap, getmap and chattr
    method Walk(virt: Word) returns (base: Word, i: Word, d: nat)
      requires Valid()
      ensures 1 <= d <= 4 && i == PathOf(virt)[d - 1] && EndsAt(root, tree, PathOf(virt), d, base)
    {
      var x := PathOf(virt);
      assert |x| == 4 && x[..0] == [] && IsTable(tree, []) && Base(root, tree, []) == root;
      hide PathOf, Ok, Base, IsTable, EndsAt, PhysOf, IsLarge, Read;
      base, d := root, 1;
      while true
        invariant 1 <= d <= 4 && IsTable(tree, x[..d - 1]) && base == Base(root, tree, x[..d - 1])
        decreases 4 - d
      {
        i := x[d - 1];
        WalkStep(mem, free, root, tree, x, d, base);
        var e := Read(mem, base, i);
        if e == 0 || d == 4 || IsLarge(e) {
          return;
        }
        base := PhysOf(e);
        d := d + 1;
      }
    }

    // arch_mm_virtual_getmap
    method GetMap(virt: Word) returns (r: Option<Mapping>)
      requires Valid()
      ensures r == Lookup(tree, PathOf(virt))
    {
      ghost var x := PathOf(virt);
      assert |x| == 4;
      hide PathOf, Ok, EndsAt, PhysOf, FlagsOf, ToFlags, Read, LeafDepth;
      var base, i, d := Walk(virt);
      WalkEnd(mem, free, root, tree, x, d, base);
      var e := Read(mem, base, i);
      if e == 0 {
        return None;
      }
      r := Some(Mapping(PhysOf(e), FlagsOf(e), d));
    }

    // one level of arch_mm_virtual_map: the table below, made if it is missing
    method EnsureTable(ghost x: Path, d: nat, base: Word, i: Word) returns (ok: bool, next: Word)
      requires Valid() && |x| == 4 && 1 <= d <= 3 && LeafAt(tree, x[..d]) == None && i == x[d - 1]
      requires IsTable(tree, x[..d - 1]) && base == Base(root, tree, x[..d - 1])
      modifies this
      ensures Valid()
      ensures ok ==> Ensured(root, old(tree), tree, x[..d], next)
      ensures !ok ==> free == {} && tree == old(tree) && x[..d] !in tree
      ensures |old(free)| <= |free| + 1
    {
      hide Ok, PhysOf, TableEntry, Grown, Ensured, IsTable, Base, Read, LeafAt;
      NewTable(mem, free, root, tree, x, d, base);
      next := 0;
      if Read(mem, base, i) == 0 {
        if free == {} {
          return false, 0;
        }
        SomeFree(free);
        var b :| b in free;
        EnsuredNew(root, tree, x[..d], b);
        mem := Cleared(mem, b);
        mem := mem[(base, i) := TableEntry(b)];
        GrownIs(old(mem), root, tree, x[..d - 1], i, b, base);
        OneLess(free, b);
        free := free - {b};
        tree := tree[x[..d] := Table(b)];
        next := PhysOf(TableEntry(b));
      } else {
        next := PhysOf(Read(mem, base, i));
        EnsuredOld(root, tree, x[..d], next);
      }
      ok := true;
    }

    // the levels of arch_mm_virtual_map above the entry it writes
    method MakeTables(x: Path, d: nat) returns (ok: bool, base: Word)
      requires Valid() && |x| == 4 && 2 <= d <= 4 && Clear(tree, x, d)
      modifies this
      ensures Valid() && SameLeaves(old(tree), tree)
      ensures ok ==> Descended(root, old(tree), tree, x, d, d, base)
      ensures !ok ==> free == {} && x[..d] !in old(tree)
      ensures ok ==> Tabled(old(tree), tree, x, d)
      ensures |old(free)| <= |free| + d - 1
    {
      hide Ok, SameLeaves, Clear, LeafAt, Descended, Ensured, IsTable, Base, Tabled;
      OkShaped(mem, free, root, tree);
      DescendStart(root, tree, x, d);
      TabledStart(tree, x);
      var k := 1;
      base := root;
      while k < d
        invariant 1 <= k <= d && Valid() && Descended(root, old(tree), tree, x, k, d, base)
        invariant Tabled(old(tree), tree, x, k) && |old(free)| <= |free| + k - 1
      {
        ghost var before, mem0, free0, base0 := tree, mem, free, base;
        DescendFacts(root, old(tree), tree, x, k, d, base);
        NoPageAbove(mem, free, root, old(tree), tree, x, d, k);
        ok, base := EnsureTable(x, k, base, x[k - 1]);
        if !ok {
          MissingBelow(mem, free, root, tree, x, k, d);
          DescendMissing(root, old(tree), tree, x, k, d, base0);
          return;
        }
        DescendStep(mem0, free0, root, old(tree), before, tree, x, k, d, base0, base);
        TabledStep(root, old(tree), before, tree, x, k, base);
        k := k + 1;
      }
      DescendFacts(root, old(tree), tree, x, k, d, base);
      ok := true;
    }

    // the entry that arch_mm_virtual_map writes, if it is zero
    method PutPage(x: Path, d: nat, base: Word, phys: Word, flags: Word, ghost mem0: Memory, ghost free0: set<Word>,
                   ghost tree0: Tree)
      returns (r: MapResult)
      requires Valid() && |x| == 4 && 2 <= d <= 4 && Ok(mem0, free0, root, tree0) && Clear(tree0, x, d)
      requires Descended(root, tree0, tree, x, d, d, base) && PhysOf(phys) == phys && KnownFlags(flags)
      requires Tabled(tree0, tree, x, d)
      modifies this
      ensures Valid() && MapEffect(r, tree0, tree, free, x, d, phys, flags) && free == old(free)
    {
      hide Ok, PhysOf, ToAttr, Read, Clear, LeafEntry, Descended, KnownFlags, MapEffect, Tabled;
      MapDone(mem0, free0, mem, free, root, tree0, tree, x, d, base, phys, flags);
      if Read(mem, base, x[d - 1]) != 0 {
        return Exists;
      }
      mem := mem[(base, x[d - 1]) := LeafEntry(phys, ToAttr(flags), d < 4)];
      tree := tree[x[..d] := Leaf(phys, ToAttr(flags))];
      r := Mapped;
    }

    // arch_mm_virtual_map: a page of 4 KiB, 2 MiB or 1 GiB (level 0, 1 or 2), not inside a page of a larger size
    method Map(virt: Word, phys: Word, level: nat, flags: Word) returns (r: MapResult)
      requires Valid() && level <= 2 && PhysOf(phys) == phys && Clear(tree, PathOf(virt), 4 - level) &&
               KnownFlags(flags)
      modifies this
      ensures Valid() && MapEffect(r, old(tree), tree, free, PathOf(virt), 4 - level, phys, flags)
      ensures |old(free)| <= |free| + 3
    {
      hide PathOf, Ok, PhysOf, Clear, KnownFlags, SameLeaves, Descended, MapEffect, Tabled;
      var x, d := PathOf(virt), 4 - level;
      ghost var mem0, free0 := mem, free;
      var ok, base := MakeTables(x, d);
      if ok {
        r := PutPage(x, d, base, phys, flags, mem0, free0, old(tree));
      } else {
        NoRoom(old(tree), tree, free, x, d, phys, flags);
        r := NoMemory;
      }
    }

    // arch_mm_virtual_unmap: the frame that was mapped, or zero
    method Unmap(virt: Word) returns (phys: Word)
      requires Valid()
      modifies this
      ensures Valid()
      ensures var o := Lookup(old(tree), PathOf(virt));
              if o == None then phys == 0 && SameLookups(old(tree), tree)
              else phys == o.value.phys && Remapped(old(tree), tree, PathOf(virt), o.value.depth, None)
      ensures KeepsTables(old(tree), tree) && free == old(free)
    {
      hide PathOf, Ok, EndsAt, PhysOf, Read, Lookup, Remapped, SameLookups, KeepsTables;
      ghost var x := PathOf(virt);
      var base, i, d := Walk(virt);
      DropTables(root, tree, x, d, base);
      UnmapEnd(mem, free, root, tree, x, d, base);
      var e := Read(mem, base, i);
      if e == 0 && d < 4 {
        return 0;
      }
      phys := PhysOf(e);
      mem := mem[(base, i) := 0];
      tree := tree - {x[..d]};
    }

    // arch_mm_virtual_chattr
    method Chattr(virt: Word, flags: Word) returns (ok: bool)
      requires Valid() && KnownFlags(flags)
      modifies this
      ensures Valid() && (ok <==> Lookup(old(tree), PathOf(virt)).Some?)
      ensures !ok ==> tree == old(tree)
      ensures ok ==> var o := Lookup(old(tree), PathOf(virt)).value;
              Remapped(old(tree), tree, PathOf(virt), o.depth, Some(Mapping(o.phys, Stored(flags), o.depth)))
    {
      ghost var x := PathOf(virt);
      assert |x| == 4;
      FlagsRoundTrip(flags);
      hide KnownFlags, Stored, PathOf, Ok, EndsAt, PhysOf, ToFlags, ToAttr, Read, Lookup, LeafEntry, Remapped;
      var base, i, d := Walk(virt);
      ChattrEnd(mem, free, root, tree, x, d, base, flags);
      var e := Read(mem, base, i);
      if e == 0 {
        return false;
      }
      ghost var n := Leaf(PhysOf(e), ToAttr(flags));
      mem := mem[(base, i) := LeafEntry(PhysOf(e), ToAttr(flags), d < 4)];
      tree := tree[x[..d] := n];
      ok := true;
    }
  }

  // A place that is not a page either is a table or is missing.
  lemma NewTable(mem: Memory, free: set<Word>, root: Word, tree: Tree, x: Path, d: nat, base: Word)
    requires |x| == 4 && Ok(mem, free, root, tree) && 1 <= d <= 3 && LeafAt(tree, x[..d]) == None
    requires IsTable(tree, x[..d - 1]) && base == Base(root, tree, x[..d - 1])
    ensures var e := Read(mem, base, x[d - 1]);
            if e != 0 then IsTable(tree, x[..d]) && PhysOf(e) == Base(root, tree, x[..d])
            else x[..d] !in tree && forall b | b in free ::
                   Ok(Grown(mem, root, tree, x[..d - 1], x[d - 1], b), free - {b}, root, tree[x[..d] := Table(b)]) &&
                   PhysOf(TableEntry(b)) == b
  {
    assert x[..d] == x[..d - 1] + [x[d - 1]];
    EntryFacts(mem, free, root, tree, x[..d - 1], x[d - 1]);
    if x[..d] in tree {
      hide Ok, Entry, NodeOk, PhysOf;
      EntryBits(tree[x[..d]], d);
    } else {
      assert forall b | b in free :: PhysOf(b) == b;
      hide Ok;
      forall b | b in free
        ensures Ok(Grown(mem, root, tree, x[..d - 1], x[d - 1], b), free - {b}, root, tree[x[..d] := Table(b)])
        ensures PhysOf(TableEntry(b)) == b
      {
        EntryBits(Table(b), d);
        TableAdd(mem, free, root, tree, x[..d - 1], x[d - 1], b);
      }
    }
  }

  lemma OneLess(s: set<Word>, b: Word)
    requires b in s
    ensures |s - {b}| == |s| - 1
  {
  }

  lemma SomeFree(free: set<Word>)
    requires free != {}
    ensures exists b :: b in free
  {
    assert (forall b :: b !in free) ==> free == {};
  }

  /** There is a table at p, as before or new. */
  ghost predicate Ensured(root: Word, tree: Tree, tree': Tree, p: Path, base: Word) {
    IsTable(tree', p) && base == Base(root, tree', p) && SameLeaves(tree, tree') &&
    (tree' == tree || (p !in tree && tree' == tree[p := Table(base)]))
  }

  lemma EnsuredNew(root: Word, tree: Tree, p: Path, b: Word)
    requires p !in tree
    ensures Ensured(root, tree, tree[p := Table(b)], p, b)
  {
  }

  lemma EnsuredOld(root: Word, tree: Tree, p: Path, base: Word)
    requires IsTable(tree, p) && base == Base(root, tree, p)
    ensures Ensured(root, tree, tree, p, base)
  {
  }

  /** The tables of x down to depth k - 1 are there, and if one of them is new then nothing hangs below it. */
  ghost predicate Descended(root: Word, tree0: Tree, tree: Tree, x: Path, k: nat, d: nat, base: Word) {
    1 <= k <= d <= |x| && IsTable(tree, x[..k - 1]) && base == Base(root, tree, x[..k - 1]) &&
    SameLeaves(tree0, tree) &&
    (tree == tree0 || (x[..d] !in tree0 && x[..k] !in tree))
  }

  lemma OkShaped(mem: Memory, free: set<Word>, root: Word, tree: Tree)
    requires Ok(mem, free, root, tree)
    ensures Shaped(tree)
  {
  }

  lemma DescendStart(root: Word, tree: Tree, x: Path, d: nat)
    requires 1 <= d <= |x| && Shaped(tree)
    ensures Descended(root, tree, tree, x, 1, d, root)
  {
    assert x[..0] == [];
  }

  lemma DescendFacts(root: Word, tree0: Tree, tree: Tree, x: Path, k: nat, d: nat, base: Word)
    requires Descended(root, tree0, tree, x, k, d, base)
    ensures 1 <= k <= |x| && IsTable(tree, x[..k - 1]) && base == Base(root, tree, x[..k - 1]) &&
            SameLeaves(tree0, tree)
    ensures d == k <= |x| ==> tree == tree0 || (x[..d] !in tree0 && x[..d] !in tree)
  {
  }

  lemma DescendMissing(root: Word, tree0: Tree, tree: Tree, x: Path, k: nat, d: nat, base: Word)
    requires Descended(root, tree0, tree, x, k, d, base) && x[..d] !in tree
    ensures x[..d] !in tree0
  {
  }

  lemma DescendStep(mem: Memory, free: set<Word>, root: Word, tree0: Tree, tree: Tree, tree': Tree,
                    x: Path, k: nat, d: nat, base: Word, next: Word)
    requires |x| == 4 && Ok(mem, free, root, tree) && k < d && Descended(root, tree0, tree, x, k, d, base)
    requires Ensured(root, tree, tree', x[..k], next)
    ensures Descended(root, tree0, tree', x, k + 1, d, next)
  {
    SameLeavesTrans(tree0, tree, tree');
    if x[..k] !in tree {
      MissingBelow(mem, free, root, tree, x, k, k + 1);
      MissingBelow(mem, free, root, tree, x, k, d);
    }
    hide Ok, IsTable, Base, SameLeaves;
    assert x[..k] != x[..k + 1];
  }

  lemma SameLeavesTrans(tree: Tree, tree1: Tree, tree2: Tree)
    requires SameLeaves(tree, tree1) && SameLeaves(tree1, tree2)
    ensures SameLeaves(tree, tree2)
  {
    hide LeafAt;
    forall q: Path
      ensures LeafAt(tree2, q) == LeafAt(tree, q)
    {
      assert LeafAt(tree1, q) == LeafAt(tree, q);
    }
  }

  lemma NoPageAbove(mem: Memory, free: set<Word>, root: Word, tree: Tree, tree': Tree, x: Path, d: nat, k: nat)
    requires |x| == 4 && d <= 4 && Ok(mem, free, root, tree') && Clear(tree, x, d) && SameLeaves(tree, tree') &&
             1 <= k < d
    ensures LeafAt(tree', x[..k]) == None
  {
    if k == 1 && x[..1] in tree' {
      assert PlaceOk(tree', x[..1]);
    }
    assert LeafAt(tree', x[..k]) == LeafAt(tree, x[..k]);
  }

  // Once a table is missing, everything below it is.
  lemma MissingBelow(mem: Memory, free: set<Word>, root: Word, tree: Tree, x: Path, k: nat, d: nat)
    requires |x| == 4 && Ok(mem, free, root, tree) && 1 <= k <= d <= 4 && x[..k] !in tree
    ensures x[..d] !in tree
    decreases d - k
  {
    if k < d {
      assert x[..k + 1] == x[..k] + [x[k]];
      NothingBelow(tree, x[..k], x[k]);
      MissingBelow(mem, free, root, tree, x, k + 1, d);
    }
  }

  lemma GrownIs(mem: Memory, root: Word, tree: Tree, p: Path, i: Word, b: Word, base: Word)
    requires base == Base(root, tree, p)
    ensures Grown(mem, root, tree, p, i, b) == Cleared(mem, b)[(base, i) := TableEntry(b)]
  {
  }

  // The entry that Map writes is zero exactly when nothing hangs there.
  lemma LastEntry(mem: Memory, free: set<Word>, root: Word, tree: Tree, x: Path, d: nat, base: Word)
    requires |x| == 4 && Ok(mem, free, root, tree) && 1 <= d <= 4
    requires IsTable(tree, x[..d - 1]) && base == Base(root, tree, x[..d - 1])
    ensures Read(mem, base, x[d - 1]) == 0 <==> x[..d] !in tree
    ensures x[..d] !in tree ==> EndsAt(root, tree, x, d, base)
  {
    assert x[..d] == x[..d - 1] + [x[d - 1]];
    EntryFacts(mem, free, root, tree, x[..d - 1], x[d - 1]);
  }

  lemma NewNode(phys: Word, flags: Word)
    requires PhysOf(phys) == phys
    ensures NodeOk(Leaf(phys, ToAttr(flags)))
  {
    AttrBits(flags);
    hide ToAttr;
  }

  lemma ChangedAfter(tree: Tree, tree1: Tree, tree2: Tree, p: Path, n: Node)
    requires SameLeaves(tree, tree1) && LeafChanged(tree1, tree2, p, Some(n))
    ensures LeafChanged(tree, tree2, p, Some(n))
  {
    hide LeafAt;
    forall q: Path
      ensures LeafAt(tree2, q) == if q == p then Some(n) else LeafAt(tree, q)
    {
      assert LeafAt(tree1, q) == LeafAt(tree, q);
    }
  }

  // The entry that Map finds, and the state after it writes one.
  lemma MapEnd(mem: Memory, free: set<Word>, root: Word, tree0: Tree, tree: Tree, x: Path, d: nat, base: Word,
               phys: Word, flags: Word)
    requires |x| == 4 && 2 <= d <= 4 && Ok(mem, free, root, tree) && Descended(root, tree0, tree, x, d, d, base) &&
             PhysOf(phys) == phys
    ensures var n := Leaf(phys, ToAttr(flags));
            if Read(mem, base, x[d - 1]) != 0 then x[..d] in tree0 && tree == tree0
            else x[..d] !in tree0 && x[..d] !in tree && LeafChanged(tree0, tree[x[..d] := n], x[..d], Some(n)) &&
                 Ok(mem[(base, x[d - 1]) := Entry(n, d)], free, root, tree[x[..d] := n])
  {
    hide Ok, Base, IsTable, PhysOf, ToAttr, Read, LeafAt, SameLeaves, LeafChanged, NodeOk, EndsAt, Descended, Entry;
    DescendFacts(root, tree0, tree, x, d, d, base);
    LastEntry(mem, free, root, tree, x, d, base);
    if x[..d] !in tree {
      NewNode(phys, flags);
      var n := Leaf(phys, ToAttr(flags));
      SetAt(mem, free, root, tree, x, d, base, n);
      ChangedAfter(tree0, tree, tree[x[..d] := n], x[..d], n);
    }
  }

  /** The tables are those of before and those on the way to the first d steps of x. */
  ghost predicate Tabled(tree0: Tree, tree: Tree, x: Path, d: nat) {
    d <= |x| && forall p: Path | p != [] :: IsTable(tree, p) <==> IsTable(tree0, p) || (|p| < d && p == x[..|p|])
  }

  lemma TabledStart(tree: Tree, x: Path)
    requires |x| == 4
    ensures Tabled(tree, tree, x, 1)
  {
  }

  lemma TabledStep(root: Word, tree0: Tree, tree: Tree, tree': Tree, x: Path, k: nat, next: Word)
    requires |x| == 4 && 1 <= k < 4 && Tabled(tree0, tree, x, k) && Ensured(root, tree, tree', x[..k], next)
    ensures Tabled(tree0, tree', x, k + 1)
  {
    forall p: Path | p != []
      ensures IsTable(tree', p) <==> IsTable(tree0, p) || (|p| < k + 1 && p == x[..|p|])
    {
      assert IsTable(tree, p) <==> IsTable(tree0, p) || (|p| < k && p == x[..|p|]);
      assert IsTable(tree', p) <==> IsTable(tree, p) || p == x[..k];
    }
  }

  lemma TabledLeaf(tree0: Tree, tree: Tree, x: Path, d: nat, n: Node)
    requires |x| == 4 && 2 <= d <= 4 && Tabled(tree0, tree, x, d) && x[..d] !in tree && n.Leaf?
    ensures Tabled(tree0, tree[x[..d] := n], x, d)
  {
    forall p: Path | p != []
      ensures IsTable(tree[x[..d] := n], p) <==> IsTable(tree0, p) || (|p| < d && p == x[..|p|])
    {
      assert IsTable(tree, p) <==> IsTable(tree0, p) || (|p| < d && p == x[..|p|]);
    }
  }

  ghost predicate KeepsTables(tree: Tree, tree': Tree) {
    forall p: Path :: IsTable(tree', p) <==> IsTable(tree, p)
  }

  lemma DropTables(root: Word, tree: Tree, x: Path, d: nat, base: Word)
    requires |x| == 4 && EndsAt(root, tree, x, d, base)
    ensures KeepsTables(tree, tree) && KeepsTables(tree, tree - {x[..d]})
  {
  }

  /** What Map has done to the partial map. */
  lemma MapMeans(mem: Memory, free: set<Word>, root: Word, tree: Tree, tree': Tree, x: Path, d: nat, n: Node)
    requires |x| == 4 && 2 <= d <= 4 && Ok(mem, free, root, tree) && Clear(tree, x, d) && n.Leaf?
    ensures d == 4 && x[..d] in tree ==> Lookup(tree, x).Some?
    ensures x[..d] !in tree ==> Lookup(tree, x) == None
    ensures x[..d] !in tree && LeafChanged(tree, tree', x[..d], Some(n)) ==>
              Remapped(tree, tree', x, d, Shown(Some(n), d))
  {
    hide Holds, Separate, Remapped, LeafChanged;
    if x[..d] in tree {
      assert PlaceOk(tree, x[..d]);
    } else {
      assert x[..d] != [];
      Below(tree, x, d);
      if LeafChanged(tree, tree', x[..d], Some(n)) {
        ChangedRemapped(tree, tree', x, d, Some(n));
      }
    }
  }

  /**
    What mapping a page at the first d steps of x does: it fails exactly if something hangs there, which for a page of
    more than 4 KiB can be a table without pages; when it succeeds only that page changes.
  */
  ghost predicate MapEffect(r: MapResult, tree0: Tree, tree: Tree, free: set<Word>, x: Path, d: nat, phys: Word,
                            flags: Word)
    requires |x| == 4 && d <= 4
  {
    (r == Exists <==> x[..d] in tree0) &&
    match r
    case Mapped =>
      Lookup(tree0, x) == None && Remapped(tree0, tree, x, d, Some(Mapping(phys, Stored(flags), d))) &&
      Tabled(tree0, tree, x, d)
    case Exists => tree == tree0 && (d == 4 ==> Lookup(tree, x).Some?)
    case NoMemory => free == {} && SameLookups(tree0, tree)
  }

  lemma NoRoom(tree0: Tree, tree: Tree, free: set<Word>, x: Path, d: nat, phys: Word, flags: Word)
    requires |x| == 4 && d <= 4 && SameLeaves(tree0, tree) && free == {} && x[..d] !in tree0
    ensures MapEffect(NoMemory, tree0, tree, free, x, d, phys, flags)
  {
    SameLookup(tree0, tree);
  }

  lemma MapDone(mem0: Memory, free0: set<Word>, mem: Memory, free: set<Word>, root: Word, tree0: Tree, tree: Tree,
                x: Path, d: nat, base: Word, phys: Word, flags: Word)
    requires |x| == 4 && 2 <= d <= 4 && Ok(mem0, free0, root, tree0) && Ok(mem, free, root, tree) && Clear(tree0, x, d)
    requires Descended(root, tree0, tree, x, d, d, base) && PhysOf(phys) == phys && KnownFlags(flags)
    requires Tabled(tree0, tree, x, d)
    ensures var n := Leaf(phys, ToAttr(flags));
            if Read(mem, base, x[d - 1]) != 0 then MapEffect(Exists, tree0, tree, free, x, d, phys, flags)
            else MapEffect(Mapped, tree0, tree[x[..d] := n], free, x, d, phys, flags) &&
                 Ok(mem[(base, x[d - 1]) := Entry(n, d)], free, root, tree[x[..d] := n])
  {
    hide KnownFlags, Stored, Ok, PhysOf, ToAttr, ToFlags, Read, LeafChanged, Clear, Entry, Descended, Lookup, Remapped,
      Tabled;
    FlagsRoundTrip(flags);
    var n := Leaf(phys, ToAttr(flags));
    MapEnd(mem, free, root, tree0, tree, x, d, base, phys, flags);
    MapMeans(mem0, free0, root, tree0, tree[x[..d] := n], x, d, n);
    if x[..d] !in tree {
      TabledLeaf(tree0, tree, x, d, n);
    }
  }

  // The state after Unmap clears an entry.
  lemma UnmapEnd(mem: Memory, free: set<Word>, root: Word, tree: Tree, x: Path, d: nat, base: Word)
    requires |x| == 4 && 1 <= d <= 4 && Ok(mem, free, root, tree) && EndsAt(root, tree, x, d, base)
    ensures var e, o := Read(mem, base, x[d - 1]), Lookup(tree, x);
            var tree' := tree - {x[..d]};
            Ok(mem[(base, x[d - 1]) := 0], free, root, tree') && SameLookups(tree, tree) && PhysOf(0) == 0 &&
            if e == 0 then o == None && SameLookups(tree, tree')
            else o.Some? && PhysOf(e) == o.value.phys && o.value.depth == d && Remapped(tree, tree', x, d, None)
  {
    WalkEnd(mem, free, root, tree, x, d, base);
    DropAt(mem, free, root, tree, x, d, base);
    var e := Read(mem, base, x[d - 1]);
    hide FlagsOf, ToFlags, Read, Remapped, SameLookups, Holds, Separate;
    SameLookup(tree, tree);
    if e == 0 {
      SameLookup(tree, tree - {x[..d]});
    } else {
      EndClear(tree, root, x, d, base);
      EndDeep(mem, free, root, tree, x, d, base);
      ChangedRemapped(tree, tree - {x[..d]}, x, d, None);
    }
  }

  lemma EndClear(tree: Tree, root: Word, x: Path, d: nat, base: Word)
    requires |x| == 4 && Shaped(tree) && EndsAt(root, tree, x, d, base)
    ensures Clear(tree, x, d)
  {
    Above(tree, x, d - 1);
  }

  // The state after Chattr rewrites an entry.
  lemma ChattrEnd(mem: Memory, free: set<Word>, root: Word, tree: Tree, x: Path, d: nat, base: Word, flags: Word)
    requires |x| == 4 && 1 <= d <= 4 && Ok(mem, free, root, tree) && EndsAt(root, tree, x, d, base)
    ensures var e, o := Read(mem, base, x[d - 1]), Lookup(tree, x);
            if e == 0 then o == None
            else o.Some? && o.value.phys == PhysOf(e) && o.value.depth == d &&
                 var n := Leaf(PhysOf(e), ToAttr(flags));
                 Remapped(tree, tree[x[..d] := n], x, d, Shown(Some(n), d)) &&
                 Ok(mem[(base, x[d - 1]) := Entry(n, d)], free, root, tree[x[..d] := n])
  {
    WalkEnd(mem, free, root, tree, x, d, base);
    hide PhysOf, FlagsOf, ToFlags, ToAttr, Read, NodeOk, Entry, LeafChanged, Remapped, Holds, Separate;
    var e := Read(mem, base, x[d - 1]);
    if e != 0 {
      EndDeep(mem, free, root, tree, x, d, base);
      PageNode(mem, free, root, tree, x[..d], flags);
      var n := Leaf(PhysOf(e), ToAttr(flags));
      SetAt(mem, free, root, tree, x, d, base, n);
      EndClear(tree, root, x, d, base);
      ChangedRemapped(tree, tree[x[..d] := n], x, d, Some(n));
    }
  }

  lemma PageNode(mem: Memory, free: set<Word>, root: Word, tree: Tree, p: Path, flags: Word)
    requires Ok(mem, free, root, tree) && p in tree && tree[p].Leaf?
    ensures NodeOk(Leaf(tree[p].phys, ToAttr(flags)))
  {
    assert PlaceOk(tree, p);
    hide Ok, ToAttr;
    AttrBits(flags);
  }

  /**
    A page of 4 KiB is mapped and unmapped again.  No page is mapped then, but a page of 2 MiB cannot be mapped there:
    the table that held the small page is still in place.
  */
  method EmptiedTable() returns (small: MapResult, phys: Word, large: MapResult, t: Tables)
    ensures small == Mapped && large == Exists && t.Valid() && forall y: Path | |y| == 4 :: Lookup(t.tree, y) == None
  {
    hide Ok, Remapped, Tabled, KeepsTables, Lookup, SameLookups, IsTable, Clear;
    var pages: set<Word> := {0x2000, 0x3000, 0x4000, 0x5000};
    assert |pages| == 4;
    t := new Tables(0x1000, pages);
    FreshClear(PathOf(0));
    small := t.Map(0, 0x6000, 0, 0);
    ghost var tree1 := t.tree;
    MappedOnce(tree1, PathOf(0), 0x6000);
    phys := t.Unmap(0);
    Emptied(tree1, t.tree, PathOf(0));
    ghost var tree2 := t.tree;
    large := t.Map(0, 0, 1, 0);
  }

  lemma FreshClear(x: Path)
    requires |x| == 4
    ensures var none: Tree := map[]; Clear(none, x, 4) && x[..4] !in none
    ensures forall y: Path | |y| == 4 :: Lookup(map[], y) == None
  {
  }

  lemma MappedOnce(tree: Tree, x: Path, phys: Word)
    requires |x| == 4 && Remapped(map[], tree, x, 4, Some(Mapping(phys, Stored(0), 4))) && Tabled(map[], tree, x, 4)
    ensures Lookup(tree, x) == Some(Mapping(phys, Stored(0), 4)) && IsTable(tree, x[..2]) && IsTable(tree, x[..3])
    ensures forall y: Path | |y| == 4 && y != x :: Lookup(tree, y) == None
  {
    hide Lookup, Stored;
    FreshClear(x);
    assert x[..4] == x;
    assert x[..2] != [] && x[..3] != [];
    assert x[..2] == x[..|x[..2]|] && x[..3] == x[..|x[..3]|];
    forall y: Path | |y| == 4 && y != x
      ensures Lookup(tree, y) == None
    {
      assert y[..4] == y;
    }
  }

  lemma Emptied(tree: Tree, tree': Tree, x: Path)
    requires |x| == 4 && Remapped(tree, tree', x, 4, None) && KeepsTables(tree, tree')
    requires IsTable(tree, x[..2]) && IsTable(tree, x[..3])
    requires forall y: Path | |y| == 4 && y != x :: Lookup(tree, y) == None
    ensures Clear(tree', x, 3) && x[..3] in tree' && forall y: Path | |y| == 4 :: Lookup(tree', y) == None
  {
    hide Lookup;
    assert IsTable(tree', x[..2]) && IsTable(tree', x[..3]);
    forall y: Path | |y| == 4
      ensures Lookup(tree', y) == None
    {
      assert y[..4] == y && x[..4] == x;
    }
  }
}
