/**
  The operations on address spaces, as the kernel carries them out: loops over pages and regions that
  change the frame table, the page tables and the region lists in place.
*/
module AddressSpaces {

  import opened Common
  import opened Regions
  import opened CopyOnWrite
  import opened PageRefs

  /** Crash: an assertion of the source fails. */
  datatype Result = Handled | Denied | NoMemory | Crash

  // ----- what the operations do, page by page

  /** Whatever a fault on page k does, the pages keep the bytes they have to themselves. */
  ghost predicate Faulted(s: Sys, s': Sys, k: Key) {
    forall j: Key :: At(s', j) == At(s, j) && (j != k || Own(s, k).Some? ==> Own(s', j) == Own(s, j))
  }

  /** The frame that page k is mapped to. */
  function Phys(s: Sys, k: Key): Option<nat> {
    if k in s.ptes then Some(s.ptes[k].phys) else None
  }

  /** The bytes that a load from page k would see, if it is mapped. */
  function Data(s: Sys, k: Key): Option<Page> {
    if k in s.ptes && s.ptes[k].phys < |s.frames| then Some(s.frames[s.ptes[k].phys].data) else None
  }

  predicate IsShared(s: Sys, k: Key) {
    At(s, k).Some? && At(s, k).value.shared
  }

  predicate IsSharedZero(s: Sys, k: Key) {
    IsShared(s, k) && At(s, k).value.file == Zero
  }

  /**
    Frames after a fault on page k: a page keeps its frame, unless k is private; a first touch of shared anonymous
    memory takes a frame that no other page has.
  */
  ghost predicate FramesKept(s: Sys, s': Sys, k: Key) {
    (forall j: Key | j != k :: Phys(s', j) == Phys(s, j)) &&
    (IsShared(s, k) && k in s.ptes ==> Phys(s', k) == Phys(s, k)) &&
    (IsSharedZero(s, k) && k !in s.ptes && k in s'.ptes ==> forall j: Key | j != k :: Phys(s', j) != Phys(s', k))
  }

  /** The same, and the bytes in them; a first touch of shared anonymous memory shows zeros. */
  ghost predicate Touched(s: Sys, s': Sys, k: Key) {
    FramesKept(s, s', k) && (forall j: Key | j in s.ptes && (j != k || IsShared(s, k)) :: Data(s', j) == Data(s, j)) &&
    (IsSharedZero(s, k) && k !in s.ptes && k in s'.ptes ==> Data(s', k) == Some(ZeroPage()))
  }

  ghost predicate Same(s: Sys, s': Sys, k: Key) {
    At(s', k) == At(s, k) && Own(s', k) == Own(s, k) && Phys(s', k) == Phys(s, k)
  }

  /** Pages a up to b of a process are gone; nothing else has changed. */
  ghost predicate Removed(s: Sys, s': Sys, pid: nat, a: nat, b: nat) {
    forall k: Key :: if k.0 == pid && a <= k.1 < b then At(s', k) == None else Same(s, s', k)
  }

  /** The bytes of a page that has never been touched. */
  function Initial(a: Attr): Option<Page> {
    if !a.shared && a.file == Zero then Some(ZeroPage()) else None
  }

  /** Page k has just been mapped as a says, and has not been touched. */
  ghost predicate New(s: Sys, k: Key, a: Attr) {
    At(s, k) == Some(a) && k !in s.ptes && Own(s, k) == Initial(a)
  }

  /** Region r has replaced whatever was there; nothing else has changed. */
  ghost predicate Mapped(s: Sys, s': Sys, pid: nat, r: Region) {
    forall k: Key ::
      if k.0 == pid && Covers(r, k.1) then New(s', k, AttrOf(r)) else Same(s, s', k)
  }

  // Page k after a copy from one process to another of the pages chosen by `done`.
  ghost predicate CopiedAt(s: Sys, s': Sys, from: nat, to: nat, k: Key, done: bool) {
    if k.0 == to && done then
      At(s', k) == At(s, (from, k.1)) && Own(s', k) == Own(s, (from, k.1)) && Phys(s', k) == Phys(s, (from, k.1))
    else Same(s, s', k)
  }

  /** Every page of `from` has been copied to `to`; nothing else has changed. */
  ghost predicate Forked(s: Sys, s': Sys, from: nat, to: nat) {
    forall k: Key :: CopiedAt(s, s', from, to, k, At(s, (from, k.1)).Some?)
  }

  // Page k after a change of one region list.
  lemma SetMapsAt(s: Sys, pid: nat, l: seq<Region>, k: Key)
    ensures At(SetMaps(s, pid, l), k) == if k.0 == pid then AttrAt(l, k.1) else At(s, k)
    ensures At(SetMaps(s, pid, l), k) == At(s, k) ==> Own(SetMaps(s, pid, l), k) == Own(s, k)
  {
    hide AttrAt;
  }

  lemma SplitSys(s: Sys, pid: nat, i: nat, v: nat)
    requires Ok(s) && var l := Maps(s, pid); i < |l| && l[i].start < v < l[i].start + l[i].len
    ensures Ok(SetMaps(s, pid, Split(Maps(s, pid), i, v)))
    ensures forall k: Key :: Same(s, SetMaps(s, pid, Split(Maps(s, pid), i, v)), k)
  {
    hide Ok, AttrAt, Own, Disjoint, Split;
    var l' := Split(Maps(s, pid), i, v);
    MapsDisjoint(s, pid);
    SplitKeeps(Maps(s, pid), i, v);
    SetMapsKeeps(s, pid, l');
    forall k: Key
      ensures Same(s, SetMaps(s, pid, l'), k)
    {
      SetMapsAt(s, pid, l', k);
    }
  }

  lemma ShrinkSys(s: Sys, pid: nat, i: nat)
    requires Ok(s) && var l := Maps(s, pid); i < |l| && l[i].len > 0 && (pid, l[i].start) !in s.ptes
    ensures var l := Maps(s, pid);
            Ok(SetMaps(s, pid, Shrink(l, i))) &&
            Removed(s, SetMaps(s, pid, Shrink(l, i)), pid, l[i].start, l[i].start + 1)
  {
    hide Ok, AttrAt, Own, Disjoint, Shrink;
    var l' := Shrink(Maps(s, pid), i);
    MapsDisjoint(s, pid);
    ShrinkRemoves(Maps(s, pid), i);
    SetMapsKeeps(s, pid, l');
    var v := Maps(s, pid)[i].start;
    forall k: Key
      ensures if k.0 == pid && v <= k.1 < v + 1 then At(SetMaps(s, pid, l'), k) == None
              else Same(s, SetMaps(s, pid, l'), k)
    {
      SetMapsAt(s, pid, l', k);
    }
  }

  lemma Unmapped(s: Sys, k: Key)
    requires Ok(s) && At(s, k) == None
    ensures k !in s.ptes
  {
    hide Ok, Refs, AttrAt;
    if k in s.ptes {
      PteAt(s, k);
    }
  }

  lemma InsertSys(s: Sys, pid: nat, r: Region)
    requires Ok(s) && forall v: nat | Covers(r, v) :: At(s, (pid, v)) == None
    ensures Ok(SetMaps(s, pid, [r] + Maps(s, pid))) && Mapped(s, SetMaps(s, pid, [r] + Maps(s, pid)), pid, r)
  {
    hide Ok, RegionAt, Disjoint;
    var l := Maps(s, pid);
    MapsDisjoint(s, pid);
    assert forall v: nat | Covers(r, v) :: At(s, (pid, v)) == AttrAt(l, v);
    InsertKeeps(l, r);
    forall v: nat | (pid, v) in s.ptes
      ensures AttrAt([r] + l, v) == AttrAt(l, v)
    {
      if Covers(r, v) {
        Unmapped(s, (pid, v));
      }
    }
    SetMapsKeeps(s, pid, [r] + l);
    InsertMapped(s, pid, r);
  }

  lemma InsertMapped(s: Sys, pid: nat, r: Region)
    requires Ok(s) && forall v: nat | Covers(r, v) :: At(s, (pid, v)) == None
    requires forall u: nat ::
               AttrAt([r] + Maps(s, pid), u) == if Covers(r, u) then Some(AttrOf(r)) else AttrAt(Maps(s, pid), u)
    ensures Mapped(s, SetMaps(s, pid, [r] + Maps(s, pid)), pid, r)
  {
    hide Ok, AttrAt, Disjoint;
    var s' := SetMaps(s, pid, [r] + Maps(s, pid));
    forall k: Key
      ensures if k.0 == pid && Covers(r, k.1) then New(s', k, AttrOf(r)) else Same(s, s', k)
    {
      SetMapsAt(s, pid, [r] + Maps(s, pid), k);
      if k.0 == pid && Covers(r, k.1) {
        assert k == (pid, k.1);
        Unmapped(s, k);
      }
    }
  }

  // Taking away page b, after the pages from a up to b.
  lemma RemovedNext(s: Sys, s1: Sys, s2: Sys, pid: nat, a: nat, b: nat)
    requires a <= b && Removed(s, s1, pid, a, b) && Removed(s1, s2, pid, b, b + 1)
    ensures Removed(s, s2, pid, a, b + 1)
  {
    hide At, Own;
    forall k: Key
      ensures if k.0 == pid && a <= k.1 < b + 1 then At(s2, k) == None else Same(s, s2, k)
    {
      assert if k.0 == pid && a <= k.1 < b then At(s1, k) == None else Same(s, s1, k);
      assert if k.0 == pid && b <= k.1 < b + 1 then At(s2, k) == None else Same(s1, s2, k);
    }
  }

  lemma SameThenRemoved(s: Sys, s1: Sys, s2: Sys, pid: nat, v: nat)
    requires (forall k: Key :: Same(s, s1, k)) && Removed(s1, s2, pid, v, v + 1)
    ensures Removed(s, s2, pid, v, v + 1)
  {
    hide At, Own;
    forall k: Key
      ensures if k.0 == pid && v <= k.1 < v + 1 then At(s2, k) == None else Same(s, s2, k)
    {
      assert Same(s, s1, k);
      assert if k.0 == pid && v <= k.1 < v + 1 then At(s2, k) == None else Same(s1, s2, k);
    }
  }

  lemma SameTrans(s: Sys, s1: Sys, s2: Sys)
    requires (forall k: Key :: Same(s, s1, k)) && (forall k: Key :: Same(s1, s2, k))
    ensures forall k: Key :: Same(s, s2, k)
  {
    hide At, Own;
    forall k: Key
      ensures Same(s, s2, k)
    {
      assert Same(s, s1, k) && Same(s1, s2, k);
    }
  }

  lemma NothingThere(s: Sys, pid: nat, v: nat)
    requires Find(Maps(s, pid), v) == |Maps(s, pid)|
    ensures Removed(s, s, pid, v, v + 1)
  {
  }

  lemma MappedAfter(s: Sys, s1: Sys, s2: Sys, pid: nat, r: Region)
    requires Removed(s, s1, pid, r.start, r.start + r.len) && Mapped(s1, s2, pid, r)
    ensures Mapped(s, s2, pid, r)
  {
    hide At, Own;
    forall k: Key
      ensures if k.0 == pid && Covers(r, k.1) then New(s2, k, AttrOf(r)) else Same(s, s2, k)
    {
      assert if k.0 == pid && r.start <= k.1 < r.start + r.len then At(s1, k) == None else Same(s, s1, k);
    }
  }

  // Unmapping a page and then taking it out of its region.
  lemma UnmapThenShrink(s: Sys, s1: Sys, s2: Sys, pid: nat, v: nat)
    requires s1.maps == s.maps &&
             forall k: Key | k != (pid, v) :: Own(s1, k) == Own(s, k) && Phys(s1, k) == Phys(s, k)
    requires Removed(s1, s2, pid, v, v + 1)
    ensures Removed(s, s2, pid, v, v + 1)
  {
    hide Own, AttrAt;
    forall k: Key
      ensures if k.0 == pid && v <= k.1 < v + 1 then At(s2, k) == None else Same(s, s2, k)
    {
      assert if k.0 == pid && v <= k.1 < v + 1 then At(s2, k) == None else Same(s1, s2, k);
      assert At(s1, k) == At(s, k);
    }
  }

  function Below(n: nat): (r: set<nat>)
    ensures |r| == n && forall f: nat :: f in r <==> f < n
  {
    if n == 0 then {} else Below(n - 1) + {n - 1}
  }

  // ----- copying a region page by page

  /** The pages of r from v on are still to be copied to `to`: mapped as they are in `from`, and untouched. */
  ghost predicate Pending(s: Sys, from: nat, to: nat, r: Region, v: nat) {
    forall u: nat | Covers(r, u) && u >= v ::
      RegionOf(s, (to, u)) == RegionOf(s, (from, u)) == Some(r) && (to, u) !in s.ptes
  }

  lemma AttrIs(s: Sys, k: Key, r: Region)
    requires RegionOf(s, k) == Some(r)
    ensures At(s, k) == Some(AttrOf(r))
  {
  }

  // All that the page loop has to keep: s1 is the state in which it started on the region.
  ghost predicate CopyLoop(s1: Sys, s: Sys, from: nat, to: nat, r: Region, v: nat) {
    s.maps == s1.maps && Pending(s, from, to, r, v) &&
    forall k: Key :: var j := if k.0 == to && r.start <= k.1 < v then (from, k.1) else k;
                     Own(s, k) == Own(s1, j) && Phys(s, k) == Phys(s1, j)
  }

  lemma CopyLoopStart(s: Sys, from: nat, to: nat, r: Region)
    requires Pending(s, from, to, r, r.start)
    ensures CopyLoop(s, s, from, to, r, r.start)
  {
  }

  // The next page of `from` is mapped.
  lemma CopyMapped(s1: Sys, s: Sys, from: nat, to: nat, r: Region, v: nat)
    requires Ok(s) && from != to && Covers(r, v) && CopyLoop(s1, s, from, to, r, v) && (from, v) in s.ptes
    ensures s.ptes[(from, v)].phys < |s.frames| == |s.use| && At(s, (from, v)) == Some(AttrOf(r))
    ensures var s' := Duplicated(s, (from, v), (to, v));
            Ok(s') && CopyLoop(s1, s', from, to, r, v + 1) && (Sound(s) ==> Sound(s'))
  {
    hide Ok, Own, AttrAt, RegionOf;
    assert (to, v) !in s.ptes && RegionOf(s, (to, v)) == RegionOf(s, (from, v)) == Some(r);
    AttrIs(s, (to, v), r);
    AttrIs(s, (from, v), r);
    CopyKeeps(s, (from, v), (to, v));
    if Sound(s) {
      SoundDuplicated(s, (from, v), (to, v));
    }
    CopyLoopNext(s1, s, Duplicated(s, (from, v), (to, v)), from, to, r, v);
  }

  // The next page of `from` is not mapped, and neither is its copy.
  lemma CopyUnmapped(s1: Sys, s: Sys, from: nat, to: nat, r: Region, v: nat)
    requires from != to && Covers(r, v) && CopyLoop(s1, s, from, to, r, v) && (from, v) !in s.ptes
    ensures CopyLoop(s1, s, from, to, r, v + 1)
  {
    hide AttrAt, RegionOf;
    assert RegionOf(s, (to, v)) == RegionOf(s, (from, v)) == Some(r);
    AttrIs(s, (to, v), r);
    AttrIs(s, (from, v), r);
    assert Own(s, (to, v)) == Own(s, (from, v));
    hide Own;
    CopyLoopNext(s1, s, s, from, to, r, v);
  }

  lemma CopyLoopNext(s1: Sys, s: Sys, s': Sys, from: nat, to: nat, r: Region, v: nat)
    requires from != to && Covers(r, v) && CopyLoop(s1, s, from, to, r, v) && s'.maps == s.maps
    requires forall k: Key | k != (to, v) :: Own(s', k) == Own(s, k) && Phys(s', k) == Phys(s, k)
    requires Own(s', (to, v)) == Own(s, (from, v)) && Phys(s', (to, v)) == Phys(s, (from, v))
    ensures CopyLoop(s1, s', from, to, r, v + 1)
  {
    hide Own, AttrAt, RegionAt;
    forall u: nat | Covers(r, u) && u >= v + 1
      ensures RegionOf(s', (to, u)) == RegionOf(s', (from, u)) == Some(r) && (to, u) !in s'.ptes
    {
      assert RegionOf(s, (to, u)) == RegionOf(s, (from, u)) == Some(r) && (to, u) !in s.ptes;
      assert Phys(s', (to, u)) == Phys(s, (to, u));
    }
    forall k: Key
      ensures var j := if k.0 == to && r.start <= k.1 < v + 1 then (from, k.1) else k;
              Own(s', k) == Own(s1, j) && Phys(s', k) == Phys(s1, j)
    {
      hide Phys;
      assert var j := if k.0 == to && r.start <= k.1 < v then (from, k.1) else k;
             Own(s, k) == Own(s1, j) && Phys(s, k) == Phys(s1, j);
      var i := (from, v);
      assert k == (k.0, k.1) && Own(s, i) == Own(s1, i) && Phys(s, i) == Phys(s1, i);
    }
  }

  /** The first i regions of `from` have been copied. */
  ghost predicate ForkLoop(s0: Sys, s: Sys, from: nat, to: nat, i: nat) {
    i <= |Maps(s0, from)| && forall k: Key :: CopiedAt(s0, s, from, to, k, Hits(Maps(s0, from)[..i], k.1) > 0)
  }

  lemma ForkStart(s: Sys, from: nat, to: nat)
    ensures ForkLoop(s, s, from, to, 0)
  {
    assert Maps(s, from)[..0] == [];
  }

  lemma {:induction false} HitsNext(l: seq<Region>, i: nat, v: nat)
    requires i < |l|
    ensures Hits(l[..i + 1], v) == Hits(l[..i], v) + Hit(l[i], v)
    ensures Hits(l[..i + 1], v) <= Hits(l, v)
  {
    if i == 0 {
      assert l[..1][1..] == [] && l[..0] == [];
    } else {
      assert l[..i + 1][1..] == l[1..][..i] && l[..i][1..] == l[1..][..i - 1];
      HitsNext(l[1..], i - 1, v);
    }
  }

  // The region being copied is what `from` says about its pages.
  lemma OwnRegion(s: Sys, pid: nat, i: nat, v: nat)
    requires Ok(s) && i < |Maps(s, pid)| && Covers(Maps(s, pid)[i], v)
    ensures RegionOf(s, (pid, v)) == Some(Maps(s, pid)[i]) && At(s, (pid, v)) == Some(AttrOf(Maps(s, pid)[i]))
  {
    hide Ok;
    MapsDisjoint(s, pid);
    FindOnly(Maps(s, pid), i, v);
  }

  /** The same for the regions: pages of `to` that are not copied have had the copied ones cut out of their regions. */
  ghost predicate RegionLoop(s0: Sys, s: Sys, from: nat, to: nat, i: nat) {
    i <= |Maps(s0, from)| && forall k: Key :: RegionCopied(s0, s, from, to, Pages(Maps(s0, from)[..i]), k)
  }

  ghost predicate RegionCopied(s: Sys, s': Sys, from: nat, to: nat, X: iset<nat>, k: Key) {
    if k.0 == to && k.1 in X then RegionOf(s', k) == RegionOf(s, (from, k.1)) else CutAt(s, s', to, X, k)
  }

  /** The pages of the regions. */
  ghost function Pages(l: seq<Region>): iset<nat> {
    iset v: nat | Hits(l, v) > 0
  }

  ghost predicate RegionsForked(s: Sys, s': Sys, from: nat, to: nat) {
    forall k: Key :: RegionCopied(s, s', from, to, Pages(Maps(s, from)), k)
  }

  lemma RegionStart(s: Sys, from: nat, to: nat)
    ensures RegionLoop(s, s, from, to, 0)
  {
    hide Cut, RegionOf;
    assert Maps(s, from)[..0] == [];
    assert Pages([]) == iset{};
    CutSame(s, s, to);
    assert forall k: Key :: CutAt(s, s, to, iset{}, k) by {
      CutEach(s, s, to, iset{});
    }
  }

  lemma CutEach(s: Sys, s': Sys, pid: nat, X: iset<nat>)
    requires Cut(s, s', pid, X)
    ensures forall k: Key :: CutAt(s, s', pid, X, k)
  {
  }

  lemma SetupPending(s0: Sys, s: Sys, s1: Sys, from: nat, to: nat, i: nat)
    requires Ok(s0) && from != to && RegionLoop(s0, s, from, to, i) && i < |Maps(s0, from)|
    requires var r := Maps(s0, from)[i]; Mapped(s, s1, to, r) && Placed(s, s1, to, r)
    ensures var r := Maps(s0, from)[i]; Pending(s1, from, to, r, r.start)
  {
    hide Ok, AttrAt, Hits, RegionAt, CutBy;
    var r := Maps(s0, from)[i];
    forall u: nat | Covers(r, u)
      ensures RegionOf(s1, (to, u)) == RegionOf(s1, (from, u)) == Some(r) && (to, u) !in s1.ptes
    {
      OwnRegion(s0, from, i, u);
      var k, j := (to, u), (from, u);
      hide At, Own, RegionOf;
      assert New(s1, k, AttrOf(r));
      assert RegionCopied(s0, s, from, to, Pages(Maps(s0, from)[..i]), j);
      assert RegionOf(s1, j) == RegionOf(s, j);
    }
  }

  lemma PagesNext(l: seq<Region>, i: nat)
    requires i < |l|
    ensures Pages(l[..i + 1]) == Pages(l[..i]) + Span(l[i].start, l[i].start + l[i].len)
  {
    var X, Y := Pages(l[..i + 1]), Pages(l[..i]) + Span(l[i].start, l[i].start + l[i].len);
    forall v: nat
      ensures v in X <==> v in Y
    {
      HitsNext(l, i, v);
    }
    assert X == Y;
  }

  lemma RegionNext(s0: Sys, s: Sys, s1: Sys, from: nat, to: nat, i: nat)
    requires Ok(s0) && from != to && RegionLoop(s0, s, from, to, i) && i < |Maps(s0, from)|
    requires Placed(s, s1, to, Maps(s0, from)[i])
    ensures RegionLoop(s0, s1, from, to, i + 1)
  {
    hide Ok, CutBy, RegionAt, Hits;
    var l := Maps(s0, from);
    PagesNext(l, i);
    var X := Pages(l[..i + 1]);
    forall k: Key
      ensures RegionCopied(s0, s1, from, to, X, k)
    {
      RegionNextAt(s0, s, s1, from, to, i, k);
    }
  }

  lemma RegionNextAt(s0: Sys, s: Sys, s1: Sys, from: nat, to: nat, i: nat, k: Key)
    requires Ok(s0) && from != to && RegionLoop(s0, s, from, to, i) && i < |Maps(s0, from)|
    requires Placed(s, s1, to, Maps(s0, from)[i])
    ensures var l := Maps(s0, from);
            RegionCopied(s0, s1, from, to, Pages(l[..i]) + Span(l[i].start, l[i].start + l[i].len), k)
  {
    hide Ok, Hits, RegionAt, Pages;
    var l := Maps(s0, from);
    var r, X, Y := l[i], Pages(l[..i]), Span(l[i].start, l[i].start + l[i].len);
    assert RegionCopied(s0, s, from, to, X, k);
    assert if k.0 == to && Covers(r, k.1) then RegionOf(s1, k) == Some(r) else CutAt(s, s1, to, Y, k);
    if k.0 == to {
      if Covers(r, k.1) {
        OwnRegion(s0, from, i, k.1);
      } else if k.1 in X {
        CopiedStays(s0, s, s1, from, to, i, k);
      } else {
        hide RegionOf, CutBy;
        CutTwice(RegionOf(s0, k), RegionOf(s, k), RegionOf(s1, k), k.1, X, Y);
      }
    }
  }

  // A region copied before has no page in common with the next one.
  lemma CopiedStays(s0: Sys, s: Sys, s1: Sys, from: nat, to: nat, i: nat, k: Key)
    requires Ok(s0) && i < |Maps(s0, from)| && k.0 == to && RegionOf(s, k) == RegionOf(s0, (from, k.1))
    requires var r := Maps(s0, from)[i]; !Covers(r, k.1) && CutAt(s, s1, to, Span(r.start, r.start + r.len), k)
    ensures RegionOf(s1, k) == RegionOf(s, k)
  {
    hide Ok;
    var l := Maps(s0, from);
    var r := l[i];
    MapsDisjoint(s0, from);
    if RegionOf(s, k).Some? {
      var q, X := RegionOf(s, k).value, Span(r.start, r.start + r.len);
      forall w | q.start <= w < q.start + q.len
        ensures w !in X
      {
        if Covers(r, w) {
          SameRegion(l, k.1, w);
          FindOnly(l, i, w);
        }
      }
    }
  }

  lemma RegionEnd(s0: Sys, s: Sys, from: nat, to: nat)
    requires RegionLoop(s0, s, from, to, |Maps(s0, from)|)
    ensures RegionsForked(s0, s, from, to)
  {
    var l := Maps(s0, from);
    assert l[..|l|] == l;
    hide CutBy, RegionOf;
  }

  lemma RegionSame(s0: Sys, s: Sys, s': Sys, from: nat, to: nat, i: nat)
    requires RegionLoop(s0, s, from, to, i) && s'.maps == s.maps
    ensures RegionLoop(s0, s', from, to, i)
  {
    hide CutBy, RegionAt, Hits;
    forall k: Key
      ensures RegionCopied(s0, s', from, to, Pages(Maps(s0, from)[..i]), k)
    {
      assert RegionCopied(s0, s, from, to, Pages(Maps(s0, from)[..i]), k);
      assert RegionOf(s', k) == RegionOf(s, k);
    }
  }

  /** No page of `from` is one of several pages of a file region of `to`. */
  ghost predicate ForkSingles(s: Sys, from: nat, to: nat) {
    forall v: nat | v in Pages(Maps(s, from)) :: SinglePage(s, (to, v))
  }

  // Nothing is in the way in a process that had no regions.
  lemma FreshRoom(s0: Sys, s: Sys, from: nat, to: nat, i: nat)
    requires Ok(s0) && from != to && RegionLoop(s0, s, from, to, i) && i < |Maps(s0, from)| && Maps(s0, to) == []
    ensures var r := Maps(s0, from)[i]; CutPages(s, to, r.start, r.len) == Some(s)
  {
    hide Ok, CutPages;
    var l := Maps(s0, from);
    var r := l[i];
    MapsDisjoint(s0, from);
    forall v: nat | r.start <= v < r.start + r.len
      ensures RegionOf(s, (to, v)) == None
    {
      HitsNext(l, i, v);
      assert Hits(l, v) <= 1;
      assert v !in Pages(l[..i]);
      hide Hits, Disjoint, Pages;
      assert RegionCopied(s0, s, from, to, Pages(l[..i]), (to, v));
    }
    CutEmpty(s, to, r.start, r.len);
  }

  lemma ForkSinglesAt(s0: Sys, s: Sys, from: nat, to: nat, i: nat)
    requires Ok(s0) && from != to && ForkSingles(s0, from, to) && RegionLoop(s0, s, from, to, i) && i < |Maps(s0, from)|
    ensures var r := Maps(s0, from)[i]; Singles(s, to, r.start, r.start + r.len)
  {
    hide Ok, RegionAt;
    var l := Maps(s0, from);
    var r := l[i];
    MapsDisjoint(s0, from);
    forall v: nat | r.start <= v < r.start + r.len
      ensures SinglePage(s, (to, v))
    {
      HitLeHits(l, i, v);
      HitsNext(l, i, v);
      assert Hits(l, v) <= 1;
      assert v in Pages(l) && v !in Pages(l[..i]);
      hide Hits, Disjoint, Pages;
      assert SinglePage(s0, (to, v));
      assert RegionCopied(s0, s, from, to, Pages(l[..i]), (to, v));
    }
  }

  lemma ForkNext(s0: Sys, s: Sys, s1: Sys, s2: Sys, from: nat, to: nat, i: nat)
    requires Ok(s0) && from != to && ForkLoop(s0, s, from, to, i) && i < |Maps(s0, from)|
    requires Mapped(s, s1, to, Maps(s0, from)[i])
    requires var r := Maps(s0, from)[i]; CopyLoop(s1, s2, from, to, r, r.start + r.len)
    ensures ForkLoop(s0, s2, from, to, i + 1)
  {
    hide Ok, AttrAt, Hits;
    var l := Maps(s0, from);
    forall k: Key
      ensures CopiedAt(s0, s2, from, to, k, Hits(l[..i + 1], k.1) > 0)
    {
      ForkNextAt(s0, s, s1, s2, from, to, i, k);
    }
  }

  lemma ForkNextAt(s0: Sys, s: Sys, s1: Sys, s2: Sys, from: nat, to: nat, i: nat, k: Key)
    requires Ok(s0) && from != to && ForkLoop(s0, s, from, to, i) && i < |Maps(s0, from)|
    requires Mapped(s, s1, to, Maps(s0, from)[i])
    requires var r := Maps(s0, from)[i]; CopyLoop(s1, s2, from, to, r, r.start + r.len)
    ensures CopiedAt(s0, s2, from, to, k, Hits(Maps(s0, from)[..i + 1], k.1) > 0)
  {
    hide Ok, AttrAt, Hits;
    var r := Maps(s0, from)[i];
    var j := (from, k.1);
    HitsNext(Maps(s0, from), i, k.1);
    assert At(s2, k) == At(s1, k);
    if Covers(r, k.1) {
      OwnRegion(s0, from, i, k.1);
    }
    hide At, Own, Maps;
    assert CopiedAt(s0, s, from, to, k, Hits(Maps(s0, from)[..i], k.1) > 0);
    assert CopiedAt(s0, s, from, to, j, Hits(Maps(s0, from)[..i], j.1) > 0);
    assert if k.0 == to && Covers(r, k.1) then New(s1, k, AttrOf(r)) else Same(s, s1, k);
    assert Same(s, s1, j);
    hide Phys;
    assert var i := if k.0 == to && Covers(r, k.1) then j else k;
           Own(s2, k) == Own(s1, i) && Phys(s2, k) == Phys(s1, i);
  }

  lemma ForkEnd(s0: Sys, s: Sys, from: nat, to: nat)
    requires ForkLoop(s0, s, from, to, |Maps(s0, from)|)
    ensures Forked(s0, s, from, to)
  {
    var l := Maps(s0, from);
    assert l[..|l|] == l;
    hide Hits, Own;
    forall k: Key
      ensures CopiedAt(s0, s, from, to, k, At(s0, (from, k.1)).Some?)
    {
      FindHits(l, k.1);
      assert CopiedAt(s0, s, from, to, k, Hits(l, k.1) > 0);
    }
  }

  // ----- taking whole regions away

  /** Which regions process_remove_mappings leaves. */
  function Spared(l: seq<Region>, tlsToo: bool): seq<Region> {
    if l == [] then []
    else if Stays(l[0], tlsToo) then [l[0]] + Spared(l[1..], tlsToo)
    else Spared(l[1..], tlsToo)
  }

  lemma {:induction false} SparedNone(l: seq<Region>)
    ensures Spared(l, true) == []
  {
    if l != [] {
      SparedNone(l[1..]);
    }
  }

  lemma SparedNext(l: seq<Region>, i: nat, tlsToo: bool)
    requires i < |l|
    ensures var rest := l[..i] + l[i + 1..];
            if !tlsToo && TLS_START <= l[i].start < TLS_END
            then l[..i + 1] + Spared(l[i + 1..], tlsToo) == l[..i] + Spared(l[i..], tlsToo)
            else rest[..i] + Spared(rest[i..], tlsToo) == l[..i] + Spared(l[i..], tlsToo)
  {
    assert l[i..][0] == l[i] && l[i..][1..] == l[i + 1..];
    assert l[..i + 1] == l[..i] + [l[i]];
    assert (l[..i] + l[i + 1..])[..i] == l[..i] && (l[..i] + l[i + 1..])[i..] == l[i + 1..];
  }

  lemma DropSys(s: Sys, pid: nat, i: nat)
    requires Ok(s) && i < |Maps(s, pid)|
    requires forall v: nat | Covers(Maps(s, pid)[i], v) :: (pid, v) !in s.ptes
    ensures var l, s' := Maps(s, pid), SetMaps(s, pid, Maps(s, pid)[..i] + Maps(s, pid)[i + 1..]);
            Ok(s') && Removed(s, s', pid, l[i].start, l[i].start + l[i].len)
  {
    hide Ok, AttrAt, Own, Disjoint;
    var l := Maps(s, pid);
    var l', s' := l[..i] + l[i + 1..], SetMaps(s, pid, l[..i] + l[i + 1..]);
    MapsDisjoint(s, pid);
    DropDisjoint(l, i);
    SetMapsKeeps(s, pid, l');
    forall k: Key
      ensures if k.0 == pid && l[i].start <= k.1 < l[i].start + l[i].len then At(s', k) == None else Same(s, s', k)
    {
      SetMapsAt(s, pid, l', k);
    }
  }

  lemma DropDisjoint(l: seq<Region>, i: nat)
    requires Disjoint(l) && i < |l|
    ensures Disjoint(l[..i] + l[i + 1..])
    ensures forall v: nat :: AttrAt(l[..i] + l[i + 1..], v) == if Covers(l[i], v) then None else AttrAt(l, v)
  {
    var m := l[..i] + l[i + 1..];
    forall v: nat
      ensures Hits(m, v) <= 1 && AttrAt(m, v) == if Covers(l[i], v) then None else AttrAt(l, v)
    {
      assert Hits(l, v) <= 1;
      HitsDrop(l, i, v);
      FindDrop(l, i, v);
    }
  }

  lemma UnmapsThenDrop(s: Sys, s1: Sys, s2: Sys, pid: nat, a: nat, b: nat)
    requires s1.maps == s.maps && Removed(s1, s2, pid, a, b)
    requires forall k: Key | k.0 != pid || k.1 < a || b <= k.1 :: Own(s1, k) == Own(s, k) && Phys(s1, k) == Phys(s, k)
    ensures Removed(s, s2, pid, a, b)
  {
    hide Own, AttrAt;
    forall k: Key
      ensures if k.0 == pid && a <= k.1 < b then At(s2, k) == None else Same(s, s2, k)
    {
      assert if k.0 == pid && a <= k.1 < b then At(s2, k) == None else Same(s1, s2, k);
      assert At(s1, k) == At(s, k);
    }
  }

  /** A page of process pid is as it was, or gone. */
  ghost predicate SameOrGone(s: Sys, s': Sys, pid: nat) {
    forall k: Key :: Same(s, s', k) || (k.0 == pid && At(s', k) == None)
  }

  lemma GoneStart(s: Sys, pid: nat)
    ensures SameOrGone(s, s, pid)
  {
  }

  lemma GoneNext(s: Sys, s1: Sys, s2: Sys, pid: nat, a: nat, b: nat)
    requires SameOrGone(s, s1, pid) && Removed(s1, s2, pid, a, b)
    ensures SameOrGone(s, s2, pid)
  {
    hide At, Own;
    forall k: Key
      ensures Same(s, s2, k) || (k.0 == pid && At(s2, k) == None)
    {
      assert Same(s, s1, k) || (k.0 == pid && At(s1, k) == None);
      assert if k.0 == pid && a <= k.1 < b then At(s2, k) == None else Same(s1, s2, k);
    }
  }

  // ----- faults

  lemma TouchedTrans(s: Sys, s1: Sys, s2: Sys, k: Key)
    requires Touched(s, s1, k) && Touched(s1, s2, k) && At(s1, k) == At(s, k)
    ensures Touched(s, s2, k)
  {
    hide At;
    forall j: Key | j != k
      ensures Phys(s2, j) == Phys(s, j)
    {
      assert Phys(s1, j) == Phys(s, j);
    }
    forall j: Key | j in s.ptes && (j != k || IsShared(s, k))
      ensures Data(s2, j) == Data(s, j)
    {
      assert Phys(s1, j) == Phys(s, j);
    }
  }

  lemma ZeroTouched(s: Sys, k: Key, f: nat, u: Use, write: bool)
    requires Ok(s) && k !in s.ptes && f in s.free && f < |s.frames| == |s.use|
    ensures Touched(s, Install(s, k, f, Frame(1, false, false, ZeroPage()), u, write), k)
  {
    hide Ok, At, ZeroPage;
    FreeUnmapped(s, f);
  }

  lemma CacheTouched(s: Sys, k: Key, f: nat, fr: Frame, write: bool)
    requires k !in s.ptes && f < |s.frames| == |s.use| && fr.data == s.frames[f].data && !IsSharedZero(s, k)
    ensures Touched(s, Install(s, k, f, fr, Cache, write), k)
  {
    hide At;
  }

  lemma CopyTouched(s: Sys, k: Key, f: nat)
    requires Ok(s) && k in s.ptes && Counted(s, k) && f in s.free && f < |s.frames| == |s.use| && !IsShared(s, k)
    ensures Touched(s, Copied(s, k, f), k)
  {
    hide Ok, At;
    FreeUnmapped(s, f);
  }

  lemma FaultedTrans(s: Sys, s1: Sys, s2: Sys, k: Key)
    requires Faulted(s, s1, k) && Faulted(s1, s2, k)
    ensures Faulted(s, s2, k)
  {
    hide At, Own;
    forall j: Key
      ensures At(s2, j) == At(s, j) && (j != k || Own(s, k).Some? ==> Own(s2, j) == Own(s, j))
    {
      assert At(s1, j) == At(s, j) && (j != k || Own(s, k).Some? ==> Own(s1, j) == Own(s, j));
      assert At(s2, j) == At(s1, j) && (j != k || Own(s1, k).Some? ==> Own(s2, j) == Own(s1, j));
      assert Own(s, k).Some? ==> Own(s1, k) == Own(s, k);
    }
  }

  /**
    Whether a page in a region may be mapped writable at once: a private page only on a frame of its own, a shared one
    only when dirty.
  */
  function MayWrite(r: Region, fr: Frame): bool {
    r.write && !((!r.shared && (fr.persist || fr.count > 1)) || (r.shared && !fr.dirty))
  }

  // First touch of zero-filled memory.
  lemma ZeroFault(s: Sys, k: Key, r: Region, f: nat)
    requires Ok(s) && At(s, k) == Some(AttrOf(r)) && k !in s.ptes && f in s.free && r.file == Zero
    ensures f < |s.frames| == |s.use|
    ensures var fr := Frame(1, false, false, ZeroPage());
            var s' := Install(s, k, f, fr, if r.shared then Shared else Private, MayWrite(r, fr));
            Ok(s') && Faulted(s, s', k)
  {
    assert FreeOk(s);
    hide Ok, AttrAt;
    var fr := Frame(1, false, false, ZeroPage());
    var u := if r.shared then Shared else Private;
    var s' := Install(s, k, f, fr, u, MayWrite(r, fr));
    FreeIsFrozen(s, f);
    InstallKeeps(s, k, f, fr, u, MayWrite(r, fr));
    assert Own(s', k) == Own(s, k);
    hide Own;
    assert forall j: Key :: At(s', j) == At(s, j);
  }

  lemma SameIsFaulted(s: Sys, s': Sys, k: Key)
    requires forall j: Key :: Same(s, s', j)
    ensures Faulted(s, s', k)
  {
    hide At, Own;
    forall j: Key
      ensures At(s', j) == At(s, j) && Own(s', j) == Own(s, j)
    {
      assert Same(s, s', j);
    }
  }

  // First touch of an inode page that is in the cache.
  lemma CacheFault(s: Sys, k: Key, r: Region, c: Key)
    requires Ok(s) && At(s, k) == Some(AttrOf(r)) && k !in s.ptes && c in s.cache && r.file != Zero
    ensures s.cache[c] < |s.frames| == |s.use| && s.cache[c] !in s.free && s.use[s.cache[c]] == Cache
    ensures var f := s.cache[c];
            var fr := s.frames[f].(count := s.frames[f].count + 1);
            var s' := Install(s, k, f, fr, Cache, MayWrite(r, fr));
            Ok(s') && Faulted(s, s', k)
  {
    hide Ok, AttrAt, Own, Frozen, Installable;
    CacheFrame(s, c);
    var f := s.cache[c];
    var fr := s.frames[f].(count := s.frames[f].count + 1);
    var s' := Install(s, k, f, fr, Cache, MayWrite(r, fr));
    CacheInstallable(s, k, r, f);
    FreeIsFrozen(s, f);
    InstallKeeps(s, k, f, fr, Cache, MayWrite(r, fr));
    assert forall j: Key :: At(s', j) == At(s, j);
  }

  /** The cached page of s1 is mapped for page k, with one more reference. */
  lemma CachedMapped(s: Sys, s1: Sys, k: Key, r: Region, p: map<Key, nat>)
    requires Ok(s1) && Faulted(s, s1, k) && Touched(s, s1, k) && s1.maps == s.maps && Kept(s, s1)
    requires k !in s1.ptes && RegionOf(s, k) == Some(r) && r.file.Inode? && Named(r, k.1) in s1.cache
    requires var c := Named(r, k.1); p == s1.pins[c := (if c in s1.pins then s1.pins[c] else 0) + 1]
    ensures var f := s1.cache[Named(r, k.1)];
            f < |s1.frames| &&
            var fr := s1.frames[f].(count := s1.frames[f].count + 1);
            var s' := s1.(frames := s1.frames[f := fr], ptes := s1.ptes[k := Pte(f, MayWrite(r, fr))], pins := p);
            Ok(s') && Faulted(s, s', k) && Touched(s, s', k) && Brought(s, s', k, Named(r, k.1)) &&
            (Sound(s1) ==> Sound(s'))
  {
    hide Ok, Own, AttrAt, Faulted, Touched, Sound, RegionAt;
    var c := Named(r, k.1);
    AttrIs(s, k, r);
    SameAt(s, s1, k);
    CacheFault(s1, k, r, c);
    var f := s1.cache[c];
    var fr := s1.frames[f].(count := s1.frames[f].count + 1);
    var s2 := Install(s1, k, f, fr, Cache, MayWrite(r, fr));
    CachedIs(s1, k, f, fr, MayWrite(r, fr));
    CacheTouched(s1, k, f, fr, MayWrite(r, fr));
    FaultedTrans(s, s1, s2, k);
    TouchedTrans(s, s1, s2, k);
    if Sound(s1) {
      SoundCached(s1, k, r, fr, MayWrite(r, fr));
    }
    PinsAside(s2, p);
    PinsFault(s, s2, p, k);
  }

  lemma CacheFrame(s: Sys, c: Key)
    requires Ok(s) && c in s.cache
    ensures s.cache[c] < |s.frames| == |s.use| && s.cache[c] !in s.free
    ensures s.use[s.cache[c]] == Cache && s.frames[s.cache[c]].persist
  {
    assert |s.use| == |s.frames|;
    CacheAt(s, c);
    FrameAt(s, s.cache[c]);
  }

  lemma CacheInstallable(s: Sys, k: Key, r: Region, f: nat)
    requires At(s, k) == Some(AttrOf(r)) && k !in s.ptes && r.file != Zero
    requires f < |s.frames| == |s.use| && f !in s.free && s.use[f] == Cache && s.frames[f].persist
    ensures var fr := s.frames[f].(count := s.frames[f].count + 1);
            Installable(s, k, f, fr, Cache, MayWrite(r, fr))
            && Own(Install(s, k, f, fr, Cache, MayWrite(r, fr)), k) == Own(s, k)
  {
    hide AttrAt;
  }

  // A private write fault.
  lemma CopyFault(s: Sys, k: Key, f: nat)
    requires Ok(s) && k in s.ptes && f in s.free && At(s, k).Some? && !At(s, k).value.shared && At(s, k).value.write
    ensures Counted(s, k) && f < |s.frames| == |s.use| && s.frames[f].count == 0 && s.ptes[k].phys != f
    ensures Ok(Copied(s, k, f)) && Faulted(s, Copied(s, k, f), k)
  {
    assert FreeOk(s);
    hide Ok, AttrAt, Own;
    CopiedKeeps(s, k, f);
    PteAt(s, k);
    FrameAt(s, f);
    hide FrameOk, PteOk;
    assert Copied(s, k, f).maps == s.maps;
    assert forall j: Key :: At(Copied(s, k, f), j) == At(s, j);
  }

  // A shared write fault.
  lemma DirtyFault(s: Sys, k: Key)
    requires Ok(s) && k in s.ptes && At(s, k).Some? && At(s, k).value.shared && At(s, k).value.write
    ensures s.ptes[k].phys < |s.frames| && Ok(Chattr(s, k, true, true)) && Faulted(s, Chattr(s, k, true, true), k)
  {
    hide Ok, AttrAt, Own;
    PteAt(s, k);
    ChattrKeeps(s, k, true, true);
    assert forall j: Key :: At(Chattr(s, k, true, true), j) == At(s, j);
  }

  predicate Full(frames: seq<Frame>) {
    forall f | 0 <= f < |frames| :: |frames[f].data| == PAGE
  }

  lemma CopiedFull(s: Sys, k: Key, f: nat)
    requires Full(s.frames) && k in s.ptes && Counted(s, k) && f < |s.frames| == |s.use| && s.ptes[k].phys != f
    ensures Full(Copied(s, k, f).frames) && s.free - {f} <= Copied(s, k, f).free
  {
  }

  lemma OneFewer(a: set<nat>, b: set<nat>, f: nat)
    requires a - {f} <= b
    ensures |a| <= |b| + 1
  {
    Subset(a - {f}, b);
    if f in a {
      assert a == (a - {f}) + {f};
    } else {
      assert a == a - {f};
    }
  }

  lemma {:induction false} Subset(a: set<nat>, b: set<nat>)
    requires a <= b
    ensures |a| <= |b|
  {
    assert b == a + (b - a);
  }

  class Memory {
    var frames: seq<Frame>
    ghost var use: seq<Use>
    var free: set<nat>
    var cache: map<Key, nat>
    var pins: map<Key, nat>
    var ptes: map<Key, Pte>
    var maps: map<nat, seq<Region>>

    ghost function S(): Sys
      reads this
    {
      Sys(frames, use, free, cache, pins, ptes, maps)
    }

    ghost predicate Valid()
      reads this
    {
      Ok(S()) && Full(frames)
    }

    // n frames, all of them free, and no process has any mapping
    constructor (n: nat)
      ensures Valid() && Sound(S()) && ptes == map[] && maps == map[] && cache == map[]
      ensures forall k: Key :: At(S(), k) == None && Own(S(), k) == None
      ensures |frames| == n == |free| && forall f: nat :: f in free <==> f < n
    {
      frames := seq(n, _ => Frame(0, false, false, ZeroPage()));
      use := seq(n, _ => Unused);
      free := Below(n);
      cache := map[];
      pins := map[];
      ptes := map[];
      maps := map[];
      new;
      assert forall f: nat | f < |frames| :: FrameOk(S(), f);
    }

    // frame_release: the count must be positive; a frame is freed with its last reference
    method FrameRelease(f: nat)
      requires f < |frames| == |use| && frames[f].count > 0
      modifies this`frames, this`free, this`use
      ensures S() == Release(old(S()), f)
    {
      var c := frames[f].count - 1;
      frames := frames[f := frames[f].(count := c)];
      if c == 0 && !frames[f].persist {
        free := free + {f};
        use := use[f := Unused];
      }
    }

    /**
      __unmap_page_if_mapped for page v as a page of region r.  The callback of a file gets the cached page that the
      region names, and so a reference, and puts it twice; the second put panics if that was the only reference.
    */
    method UnmapPage(pid: nat, v: nat, r: Region) returns (ok: bool)
      requires Valid() && r.start <= v
      modifies this
      ensures Valid() && maps == old(maps) && old(free) <= free
      ensures Counted(old(S()), (pid, v)) && (ok <==> !UnmapFails(old(S()), (pid, v), r))
      ensures ok ==> S() == Dropped(old(S()), (pid, v), r)
      ensures ptes == old(ptes) - {(pid, v)}
      ensures forall k: Key | k != (pid, v) :: Own(S(), k) == Own(old(S()), k) && Phys(S(), k) == Phys(old(S()), k)
    {
      hide Ok, Own;
      UnmapKeeps(S(), (pid, v));
      ok := true;
      assert (pid, v) !in ptes ==> ptes - {(pid, v)} == ptes;
      if (pid, v) in ptes {
        var phys := ptes[(pid, v)].phys;
        UnmapCached(S(), (pid, v));
        ptes := ptes - {(pid, v)};
        FrameRelease(phys);
        ghost var s := S();
        if r.file.Inode? && frames[phys].count == 0 && frames[phys].persist {
          var c := Named(r, v);
          var refs := if c in cache && c in pins then pins[c] + 1 else 1;
          refs := refs - 1;
          if refs == 0 {
            return false;
          }
          pins := pins[c := refs - 1];
          PinsAside(s, pins);
        }
      }
    }

    // the region list of a process
    function List(pid: nat): seq<Region>
      reads this
    {
      if pid in maps then maps[pid] else []
    }

    // map_region_remove
    method Remove(pid: nat, start: nat, len: nat) returns (ok: bool)
      requires Valid()
      modifies this
      ensures Valid() && old(free) <= free
      ensures CutPages(old(S()), pid, start, len) == if ok then Some(S()) else None
      ensures ok ==> Removed(old(S()), S(), pid, start, start + len)
      ensures ok ==> Cut(old(S()), S(), pid, Span(start, start + len))
      ensures Sound(old(S())) && Singles(old(S()), pid, start, start + len) ==> ok && Sound(S())
    {
      hide Ok, Own, AttrAt, Sound, Cut, SinglePage, CutPage, CutPages;
      CutStart(S(), pid, start);
      ghost var nice := Sound(S()) && Singles(S(), pid, start, start + len);
      var v := start;
      while v < start + len
        invariant start <= v <= start + len
        invariant Valid() && Removed(old(S()), S(), pid, start, v) && old(free) <= free
        invariant CutPages(old(S()), pid, start, v - start) == Some(S()) && Cut(old(S()), S(), pid, Span(start, v))
        invariant nice ==> Sound(S()) && Singles(S(), pid, v, start + len)
      {
        ghost var s := S();
        CutNext(old(S()), s, pid, start, v - start);
        if nice {
          SoundCut(s, pid, v);
        }
        ok := RemovePage(pid, v);
        if !ok {
          CutStops(old(S()), pid, start, v + 1 - start, len);
          return;
        }
        RemovedNext(old(S()), s, S(), pid, start, v);
        SpanNext(old(S()), s, S(), pid, start, v);
        if nice {
          SinglesLeft(s, S(), pid, v, start + len);
        }
        v := v + 1;
      }
      ok := true;
    }

    // the inner loop of map_region_remove: split until the page is the first of its region, then cut it off
    method RemovePage(pid: nat, v: nat) returns (ok: bool)
      requires Valid()
      modifies this
      ensures Valid() && old(free) <= free
      ensures CutPage(old(S()), pid, v) == if ok then Some(S()) else None
      ensures ok ==> Removed(old(S()), S(), pid, v, v + 1) && Cut(old(S()), S(), pid, iset{v})
    {
      hide Ok, Own, AttrAt, Cut, CutFront;
      if CutPage(S(), pid, v).Some? {
        CutPageCuts(S(), pid, v);
      }
      ok := true;
      var split := true;
      ghost var rounds := 2;
      while split
        invariant Valid() && 0 <= rounds <= 2 && old(free) <= free && ok
        invariant split ==> forall k: Key :: Same(old(S()), S(), k)
        invariant rounds == 2 ==> S() == old(S())
        invariant split && rounds < 2 ==> rounds == 1 && SplitTo(old(S()), S(), pid, v)
        invariant !split ==> Removed(old(S()), S(), pid, v, v + 1) && CutPage(old(S()), pid, v) == Some(S())
        decreases split, rounds
      {
        split := false;
        rounds := rounds - 1;
        ghost var s := S();
        var l := List(pid);
        var i := Find(l, v);
        if i == |l| {
          NothingThere(s, pid, v);
          SameThenRemoved(old(S()), s, S(), pid, v);
        } else {
          if v == l[i].start {
            ok := CutFirst(pid, l, i);
            CutSplit(old(S()), s, pid, v);
            if !ok {
              return;
            }
            SameThenRemoved(old(S()), s, S(), pid, v);
          } else {
            split := true;
            SplitSys(s, pid, i, v);
            MapsDisjoint(s, pid);
            SplitKeeps(l, i, v);
            maps := maps[pid := Split(l, i, v)];
            SameTrans(old(S()), s, S());
          }
        }
      }
    }

    // the page is unmapped and the region starts one page later; an empty region is taken off the list
    method CutFirst(pid: nat, l: seq<Region>, i: nat) returns (ok: bool)
      requires Valid() && l == List(pid) && i < |l| && l[i].len > 0
      modifies this
      ensures Valid() && old(free) <= free
      ensures CutFront(old(S()), pid, l, i) == if ok then Some(S()) else None
      ensures ok ==> Removed(old(S()), S(), pid, l[i].start, l[i].start + 1)
    {
      hide Ok, Own, AttrAt, Dropped, UnmapFails;
      var r := l[i];
      ok := UnmapPage(pid, r.start, r);
      if !ok {
        return;
      }
      ghost var s := S();
      ShrinkSys(s, pid, i);
      UnmapThenShrink(old(S()), s, SetMaps(s, pid, Shrink(l, i)), pid, r.start);
      var l' := l[i := r.(start := r.start + 1, len := r.len - 1)];
      if l'[i].len == 0 {
        assert l'[..i] + l'[i + 1..] == l[..i] + l[i + 1..];
        l' := l'[..i] + l'[i + 1..];
      }
      maps := maps[pid := l'];
    }

    // map_region_setup
    method Setup(pid: nat, r: Region) returns (ok: bool)
      requires Valid()
      modifies this
      ensures Valid() && old(free) <= free
      ensures ok <==> CutPages(old(S()), pid, r.start, r.len).Some?
      ensures ok ==> S() == Inserted(CutPages(old(S()), pid, r.start, r.len).value, pid, r)
      ensures ok ==> Mapped(old(S()), S(), pid, r) && Placed(old(S()), S(), pid, r)
      ensures Sound(old(S())) && Singles(old(S()), pid, r.start, r.start + r.len) ==> ok && Sound(S())
    {
      hide Ok, Own, AttrAt, Cut, CutPages, Sound, Singles;
      ok := Remove(pid, r.start, r.len);
      if !ok {
        return;
      }
      ghost var s := S();
      assert forall v: nat | Covers(r, v) :: At(s, (pid, v)) == None;
      InsertSys(s, pid, r);
      InsertPlaced(old(S()), s, pid, r);
      if Sound(s) {
        InsertSound(s, pid, r);
      }
      MappedAfter(old(S()), s, Inserted(s, pid, r), pid, r);
      maps := maps[pid := [r] + List(pid)];
    }

    // process_copy_mappings
    method Fork(from: nat, to: nat) returns (ok: bool)
      requires Valid() && from != to
      modifies this
      ensures Valid() && old(free) <= free
      ensures ok ==> Forked(old(S()), S(), from, to) && RegionsForked(old(S()), S(), from, to)
      ensures old(List(to)) == [] ==> ok
      ensures Sound(old(S())) && ForkSingles(old(S()), from, to) ==> ok && Sound(S())
    {
      hide Ok, Own, AttrAt, Sound, RegionLoop, Placed, RegionsForked, ForkSingles, CutPages, Singles;
      hide ForkLoop, Mapped, CopyLoop, Forked, Pending, Inserted;
      var l := List(from);
      var i := 0;
      ForkStart(S(), from, to);
      RegionStart(S(), from, to);
      ghost var nice := Sound(S()) && ForkSingles(S(), from, to);
      while i < |l|
        invariant i <= |l| && l == Maps(old(S()), from)
        invariant Valid() && ForkLoop(old(S()), S(), from, to, i) && old(free) <= free
        invariant RegionLoop(old(S()), S(), from, to, i)
        invariant nice ==> Sound(S())
      {
        ghost var s := S();
        if nice {
          ForkSinglesAt(old(S()), s, from, to, i);
        }
        if Maps(old(S()), to) == [] {
          FreshRoom(old(S()), s, from, to, i);
        }
        ok := Setup(to, l[i]);
        if !ok {
          return;
        }
        ghost var s1 := S();
        SetupPending(old(S()), s, s1, from, to, i);
        RegionNext(old(S()), s, s1, from, to, i);
        CopyPages(from, to, l[i]);
        ForkNext(old(S()), s, s1, S(), from, to, i);
        RegionSame(old(S()), s1, S(), from, to, i + 1);
        i := i + 1;
      }
      ForkEnd(old(S()), S(), from, to);
      RegionEnd(old(S()), S(), from, to);
      ok := true;
    }

    // the page loop of process_copy_mappings
    method CopyPages(from: nat, to: nat, r: Region)
      requires Valid() && from != to && Pending(S(), from, to, r, r.start)
      modifies this
      ensures Valid() && CopyLoop(old(S()), S(), from, to, r, r.start + r.len) && maps == old(maps)
      ensures old(free) <= free
      ensures Sound(old(S())) ==> Sound(S())
    {
      hide Ok, Own, AttrAt, CopyLoop, Duplicated, Pending, Sound;
      CopyLoopStart(S(), from, to, r);
      var v := r.start;
      while v < r.start + r.len
        invariant r.start <= v <= r.start + r.len
        invariant Valid() && CopyLoop(old(S()), S(), from, to, r, v) && free == old(free) && maps == old(maps)
        invariant Sound(old(S())) ==> Sound(S())
      {
        ghost var s := S();
        if (from, v) in ptes {
          CopyMapped(old(S()), s, from, to, r, v);
          UnmapCached(s, (from, v));
          DuplicatedIs(s, (from, v), (to, v));
          var e := ptes[(from, v)];
          if !r.shared {
            e := e.(write := false);
            ptes := ptes[(from, v) := e];
          }
          frames := frames[e.phys := frames[e.phys].(count := frames[e.phys].count + 1)];
          assert ptes == s.ptes[(from, v) := e];
          ptes := ptes[(to, v) := e];
        } else {
          CopyUnmapped(old(S()), s, from, to, r, v);
        }
        v := v + 1;
      }
    }

    // _zero_map, and the mapping of the frame it returns
    method MapZero(pid: nat, v: nat, r: Region) returns (ok: bool)
      requires Valid() && At(S(), (pid, v)) == Some(AttrOf(r)) && (pid, v) !in ptes && r.file == Zero
      modifies this
      ensures Valid() && Faulted(old(S()), S(), (pid, v)) && Touched(old(S()), S(), (pid, v)) && maps == old(maps)
      ensures ok ==> (pid, v) in ptes && (!r.shared ==> ptes[(pid, v)].write == r.write)
      ensures !ok ==> free == {}
      ensures |old(free)| <= |free| + 1
      ensures Sound(old(S())) ==> Sound(S())
    {
      hide Ok, Own, AttrAt, Faulted, Touched, Sound;
      ghost var s := S();
      if free == {} {
        NotFaulted(s, (pid, v));
        return false;
      }
      var f :| f in free;
      ZeroFault(s, (pid, v), r, f);
      var fr := Frame(1, false, false, ZeroPage());
      ZeroTouched(s, (pid, v), f, if r.shared then Shared else Private, MayWrite(r, fr));
      if Sound(s) {
        SoundZero(s, (pid, v), f, fr, if r.shared then Shared else Private, MayWrite(r, fr));
      }
      frames := frames[f := fr];
      use := use[f := if r.shared then Shared else Private];
      free := free - {f};
      ptes := ptes[(pid, v) := Pte(f, MayWrite(r, fr))];
      ok := true;
    }

    // _fs_inode_map, and the mapping of the frame it returns; contents is the page on disk
    method MapCached(pid: nat, v: nat, r: Region, contents: Page) returns (ok: bool)
      requires Valid() && |contents| == PAGE && RegionOf(S(), (pid, v)) == Some(r) && (pid, v) !in ptes && r.file.Inode?
      modifies this
      ensures Valid() && Faulted(old(S()), S(), (pid, v)) && Touched(old(S()), S(), (pid, v)) && maps == old(maps)
      ensures if ok then (pid, v) in ptes && Brought(old(S()), S(), (pid, v), Named(r, v)) else free == {}
      ensures |old(free)| <= |free| + 1
      ensures Sound(old(S())) ==> Sound(S())
    {
      hide Ok, Own, AttrAt, Faulted, Touched, Sound, RegionAt, Brought;
      ghost var s := S();
      ghost var k := (pid, v);
      AttrIs(s, k, r);
      var c := Named(r, v);
      ok := GetPage(c, contents, k);
      if !ok {
        return;
      }
      var f := cache[c];
      ghost var s1 := S();
      SameAt(s, s1, k);
      pins := pins[c := (if c in pins then pins[c] else 0) + 1];
      CachedMapped(s, s1, k, r, pins);
      frames := frames[f := frames[f].(count := frames[f].count + 1)];
      ptes := ptes[(pid, v) := Pte(f, MayWrite(r, frames[f]))];
    }

    // inode_get_page, without the reference that it takes
    method GetPage(c: Key, contents: Page, ghost k: Key) returns (ok: bool)
      requires Valid() && |contents| == PAGE
      modifies this
      ensures Valid() && Faulted(old(S()), S(), k) && Touched(old(S()), S(), k) && maps == old(maps) &&
              ptes == old(ptes)
      ensures if ok then c in cache else free == {}
      ensures Kept(old(S()), S())
      ensures |old(free)| <= |free| + 1
      ensures Sound(old(S())) ==> Sound(S())
    {
      hide Ok, Own, AttrAt, Faulted, Touched, Sound;
      NotFaulted(S(), k);
      ok := true;
      if c !in cache {
        ok := LoadPage(c, contents);
        SameIsFaulted(old(S()), S(), k);
        LoadTouched(old(S()), S(), k);
      }
    }

    // _inode_page_initialize
    method LoadPage(c: Key, contents: Page) returns (ok: bool)
      requires Valid() && |contents| == PAGE && c !in cache
      modifies this
      ensures Valid() && maps == old(maps) && ptes == old(ptes) && (forall k: Key :: Same(old(S()), S(), k))
      ensures |frames| == old(|frames|)
      ensures forall j | j in ptes && ptes[j].phys < |frames| ::
                frames[ptes[j].phys].data == old(frames)[ptes[j].phys].data
      ensures if ok then c in cache else free == {}
      ensures Kept(old(S()), S())
      ensures |old(free)| <= |free| + 1
      ensures Sound(old(S())) ==> Sound(S())
    {
      hide Ok, Own, AttrAt, Sound;
      if free == {} {
        return false;
      }
      var f :| f in free;
      LoadKeeps(S(), c, f, contents);
      FreeUnmapped(S(), f);
      if Sound(S()) {
        SoundLoad(S(), c, f, contents);
      }
      frames := frames[f := Frame(0, true, false, contents)];
      use := use[f := Cache];
      free := free - {f};
      cache := cache[c := f];
      pins := pins[c := 0];
      ok := true;
    }

    // the write fault on a private page: it moves to a copy of its frame
    method CopyPage(pid: nat, v: nat) returns (ok: bool)
      requires Valid() && (pid, v) in ptes
      requires At(S(), (pid, v)).Some? && !At(S(), (pid, v)).value.shared && At(S(), (pid, v)).value.write
      modifies this
      ensures Valid() && Faulted(old(S()), S(), (pid, v)) && Touched(old(S()), S(), (pid, v)) && maps == old(maps)
      ensures if ok then (pid, v) in ptes && ptes[(pid, v)].write else free == {}
      ensures |old(free)| <= |free| + 1
      ensures Sound(old(S())) ==> Sound(S())
    {
      hide Ok, Own, AttrAt, Faulted, Touched, Full, Copied, Sound;
      var k := (pid, v);
      ghost var s := S();
      if free == {} {
        NotFaulted(s, k);
        return false;
      }
      var phys := ptes[k].phys;
      var f :| f in free;
      CopyFault(s, k, f);
      CopyTouched(s, k, f);
      CopiedIs(s, k, f);
      CopiedFull(s, k, f);
      if Sound(s) {
        SoundCopied(s, k, f);
      }
      frames := frames[f := Frame(1, false, false, frames[phys].data)];
      use := use[f := Private];
      free := free - {f};
      ptes := ptes[k := Pte(f, true)];
      FrameRelease(phys);
      OneFewer(s.free, free, f);
      ok := true;
    }

    // the write fault on a shared page
    method DirtyPage(pid: nat, v: nat)
      requires Valid() && (pid, v) in ptes
      requires At(S(), (pid, v)).Some? && At(S(), (pid, v)).value.shared && At(S(), (pid, v)).value.write
      modifies this
      ensures Valid() && Faulted(old(S()), S(), (pid, v)) && Touched(old(S()), S(), (pid, v)) && maps == old(maps)
      ensures (pid, v) in ptes && ptes[(pid, v)].write && free == old(free)
      ensures Sound(old(S())) ==> Sound(S())
    {
      hide Ok, Own, AttrAt, Faulted, Touched, Sound;
      var k := (pid, v);
      DirtyFault(S(), k);
      DirtyTouched(S(), k);
      if Sound(S()) {
        SoundChattr(S(), k, true, true);
      }
      var phys := ptes[k].phys;
      frames := frames[phys := frames[phys].(dirty := true)];
      ptes := ptes[k := Pte(phys, true)];
    }

    // mmu_mappings_handle_fault; pres, perm, write and exec are the bits of the fault
    method Fault(pid: nat, v: nat, pres: bool, perm: bool, write: bool, exec: bool, contents: Page) returns (r: Result)
      requires Valid() && |contents| == PAGE
      modifies this
      ensures Valid() && Faulted(old(S()), S(), (pid, v)) && Touched(old(S()), S(), (pid, v)) && maps == old(maps)
      ensures r == Denied ==> Refused(At(old(S()), (pid, v)), perm, write, exec)
      ensures Refused(At(old(S()), (pid, v)), perm, write, exec) ==>
                r == Denied || (r == NoMemory && pres && perm && exec)
      ensures r == NoMemory ==> free == {} && At(old(S()), (pid, v)).Some?
      ensures r == Crash <==> perm && !pres && write && old((pid, v) !in ptes) &&
                              !Refused(At(old(S()), (pid, v)), perm, write, exec)
      ensures r == Handled && pres ==> (pid, v) in ptes
      ensures r == Handled && perm && write ==> (pid, v) in ptes && ptes[(pid, v)].write
      ensures |old(free)| <= |free| + 2
      ensures Sound(old(S())) ==> Sound(S())
      ensures var o := RegionOf(old(S()), (pid, v));
              r == Handled && pres && !perm && old((pid, v) !in ptes) && o.Some? && o.value.file.Inode? ==>
                Brought(old(S()), S(), (pid, v), Named(o.value, v))
    {
      hide Ok, Own, Faulted, Touched, Sound, Brought;
      var l := List(pid);
      var i := Find(l, v);
      NotFaulted(S(), (pid, v));
      if i == |l| {
        return Denied;
      }
      var reg := l[i];
      assert RegionOf(S(), (pid, v)) == Some(reg) && At(S(), (pid, v)) == Some(AttrOf(reg));
      hide AttrAt, RegionAt;
      if write && !reg.write {
        return Denied;
      }
      if pres && (pid, v) !in ptes {
        var ok;
        if reg.file == Zero {
          ok := MapZero(pid, v, reg);
        } else {
          ok := MapCached(pid, v, reg, contents);
        }
        if !ok {
          return NoMemory;
        }
      }
      ghost var s := S();
      if perm {
        if exec {
          return Denied;
        }
        if write {
          if (pid, v) !in ptes {
            return Crash;
          }
          if !reg.shared {
            var ok := CopyPage(pid, v);
            FaultedTrans(old(S()), s, S(), (pid, v));
            TouchedTrans(old(S()), s, S(), (pid, v));
            return if ok then Handled else NoMemory;
          }
          DirtyPage(pid, v);
          FaultedTrans(old(S()), s, S(), (pid, v));
          TouchedTrans(old(S()), s, S(), (pid, v));
        }
      }
      r := Handled;
    }

    // __mapping_remove: all pages of the region are unmapped and the region leaves the list (the two orders agree, as
    // the map lock is held)
    method RemoveRegion(pid: nat, i: nat) returns (ok: bool)
      requires Valid() && i < |List(pid)|
      modifies this
      ensures Valid() && forall q: nat | q != pid :: List(q) == old(List(q))
      ensures ok ==> List(pid) == old(List(pid)[..i] + List(pid)[i + 1..])
      ensures DropRegion(old(S()), pid, i) == if ok then Some(S()) else None
      ensures ok ==> var r := old(List(pid)[i]); Removed(old(S()), S(), pid, r.start, r.start + r.len)
      ensures Sound(old(S())) ==> ok && Sound(S())
    {
      hide Ok, Own, AttrAt, Sound, Dropped, UnmapFails, RegionOf, DropPages;
      ok := true;
      var r := List(pid)[i];
      DropsStart(S(), pid, r);
      var v := r.start;
      while v < r.start + r.len
        invariant r.start <= v <= r.start + r.len
        invariant Valid() && maps == old(maps) && ok && DropPages(old(S()), pid, r, v - r.start) == Some(S())
        invariant forall u: nat | r.start <= u < v :: (pid, u) !in ptes
        invariant forall k: Key | k.0 != pid || k.1 < r.start || r.start + r.len <= k.1 ::
                    Own(S(), k) == Own(old(S()), k) && Phys(S(), k) == Phys(old(S()), k)
        invariant Sound(old(S())) ==> Sound(S())
      {
        OwnRegion(S(), pid, i, v);
        if Sound(S()) {
          SoundUnmaps(S(), (pid, v), r);
        }
        UnmapKeeps(S(), (pid, v));
        DropsNext(old(S()), S(), pid, r, v - r.start);
        ok := UnmapPage(pid, v, r);
        if !ok {
          DropsStop(old(S()), pid, r, v - r.start + 1, r.len);
          return;
        }
        v := v + 1;
      }
      ghost var s := S();
      DropSys(s, pid, i);
      if Sound(s) {
        SoundDrop(s, pid, i);
      }
      UnmapsThenDrop(old(S()), s, SetMaps(s, pid, List(pid)[..i] + List(pid)[i + 1..]), pid, r.start, r.start + r.len);
      maps := maps[pid := List(pid)[..i] + List(pid)[i + 1..]];
    }

    // process_remove_mappings
    method RemoveAll(pid: nat, tlsToo: bool) returns (ok: bool)
      requires Valid()
      modifies this
      ensures Valid() && forall q: nat | q != pid :: List(q) == old(List(q))
      ensures ok ==> List(pid) == Spared(old(List(pid)), tlsToo) && SameOrGone(old(S()), S(), pid)
      ensures DropAll(old(S()), pid, 0, tlsToo) == if ok then Some(S()) else None
      ensures Sound(old(S())) ==> ok && Sound(S())
    {
      hide Ok, Own, AttrAt, SameOrGone, Removed, Sound, DropRegion;
      GoneStart(S(), pid);
      ok := true;
      var i := 0;
      assert List(pid)[..0] == [] && List(pid)[0..] == List(pid);
      while i < |List(pid)|
        invariant i <= |List(pid)| && List(pid)[..i] + Spared(List(pid)[i..], tlsToo) == Spared(old(List(pid)), tlsToo)
        invariant Valid() && SameOrGone(old(S()), S(), pid) && ok
        invariant DropAll(old(S()), pid, 0, tlsToo) == DropAll(S(), pid, i, tlsToo)
        invariant forall q: nat | q != pid :: List(q) == old(List(q))
        invariant Sound(old(S())) ==> Sound(S())
        decreases |List(pid)| - i
      {
        SparedNext(List(pid), i, tlsToo);
        var r := List(pid)[i];
        if Stays(r, tlsToo) {
          i := i + 1;
        } else {
          ghost var s := S();
          ok := RemoveRegion(pid, i);
          if !ok {
            return;
          }
          GoneNext(old(S()), s, S(), pid, r.start, r.start + r.len);
        }
      }
    }

    // a store by the program: the processor faults until the page may be written
    method Store(pid: nat, v: nat, off: nat, b: bv8, contents: Page) returns (r: Result)
      requires Valid() && |contents| == PAGE
      modifies this
      ensures Valid() && forall k: Key ::
                At(S(), k) == At(old(S()), k) && (k != (pid, v) ==> Own(S(), k) == Own(old(S()), k))
      ensures r == NoMemory ==> free == {}
      ensures r != Crash && (r == Denied <==> Refused(At(old(S()), (pid, v)), false, true, false))
      ensures var o := Own(old(S()), (pid, v));
              o.Some? ==> Own(S(), (pid, v)) == if r == Handled then Poked(o, off, b) else o
      ensures FramesKept(old(S()), S(), (pid, v))
      ensures r == Handled ==> Stores(old(S()), S(), (pid, v), off, b)
      ensures |old(free)| <= |free| + 4
      ensures maps == old(maps) && (Sound(old(S())) ==> Sound(S()))
    {
      hide Ok, Own, AttrAt, Faulted, Touched, FramesKept, Sound, Brought;
      var k := (pid, v);
      ghost var faults := 0;
      NotFaulted(S(), k);
      TouchedFrames(S(), S(), k);
      while !(k in ptes && ptes[k].write)
        invariant Valid() && Faulted(old(S()), S(), k) && Touched(old(S()), S(), k) && maps == old(maps)
        invariant Sound(old(S())) ==> Sound(S())
        invariant faults <= 2 && (faults >= 1 ==> k in ptes) && (faults == 2 ==> ptes[k].write) &&
                  |old(free)| <= |free| + 2 * faults
        decreases k !in ptes, !(k in ptes && ptes[k].write)
      {
        ghost var s := S();
        r := Fault(pid, v, k !in ptes, k in ptes, true, false, contents);
        SameAt(old(S()), s, k);
        FaultedTrans(old(S()), s, S(), k);
        TouchedTrans(old(S()), s, S(), k);
        faults := faults + 1;
        if r != Handled {
          FaultedSame(old(S()), S(), k);
          TouchedFrames(old(S()), S(), k);
          return;
        }
      }
      ghost var s := S();
      WritableAt(s, k);
      SameAt(old(S()), s, k);
      StoreKeeps(s, k, off, b);
      StoresAfter(old(S()), s, k, off, b);
      if Sound(s) {
        SoundStored(s, k, off, b);
      }
      FaultedSame(old(S()), s, k);
      var f := ptes[k].phys;
      frames := frames[f := frames[f].(data := Poke(frames[f].data, off, b))];
      assert forall j: Key :: At(S(), j) == At(s, j);
      r := Handled;
    }

    // a load by the program
    method Load(pid: nat, v: nat, off: nat, contents: Page) returns (r: Result, b: bv8)
      requires Valid() && |contents| == PAGE && off < PAGE
      modifies this
      ensures Valid() && Faulted(old(S()), S(), (pid, v)) && Touched(old(S()), S(), (pid, v))
      ensures r != Crash && (r == Denied <==> At(old(S()), (pid, v)) == None) && (r == NoMemory ==> free == {})
      ensures var o := Own(old(S()), (pid, v)); r == Handled && o.Some? ==> |o.value| == PAGE && b == o.value[off]
      ensures r == Handled ==> var d := Data(S(), (pid, v)); d.Some? && |d.value| == PAGE && b == d.value[off]
      ensures |old(free)| <= |free| + 2
      ensures maps == old(maps) && (Sound(old(S())) ==> Sound(S()))
      ensures var o := RegionOf(old(S()), (pid, v));
              r == Handled && old((pid, v) !in ptes) && o.Some? && o.value.file.Inode? ==>
                Brought(old(S()), S(), (pid, v), Named(o.value, v))
    {
      hide Ok, Own, AttrAt, Faulted, Touched, Sound, Brought;
      var k := (pid, v);
      b, r := 0, Handled;
      NotFaulted(S(), k);
      if k !in ptes {
        r := Fault(pid, v, true, false, false, false, contents);
        if r != Handled {
          return;
        }
      }
      FaultedSame(old(S()), S(), k);
      ReadAt(S(), k);
      b := frames[ptes[k].phys].data[off];
    }

    // _inode_page_release: run by the page cache on a page that nobody references; the frame must not be mapped
    method Evict(c: Key) returns (ok: bool)
      requires Valid() && c in cache && Pin(S(), c) == 0
      modifies this
      ensures Valid() && old(cache[c] < |frames|) && (ok <==> old(frames[cache[c]].count == 0))
      ensures ok ==> c !in cache && maps == old(maps) && forall k: Key :: Same(old(S()), S(), k)
      ensures !ok ==> unchanged(this)
      ensures Sound(old(S())) ==> ok && Sound(S())
    {
      hide Ok, Own, AttrAt, Sound;
      CacheFrame(S(), c);
      if Sound(S()) {
        SoundEvict(S(), c);
      }
      if frames[cache[c]].count != 0 {
        return false;
      }
      EvictKeeps(S(), c);
      use := use[cache[c] := Unused];
      free := free + {cache[c]};
      cache := cache - {c};
      ok := true;
    }
  }

  /** The cache still has the pages that it had, with the references that they had. */
  ghost predicate Kept(s: Sys, s': Sys) {
    (forall d | d in s.cache :: d in s'.cache && s'.cache[d] == s.cache[d]) && forall d: Key :: Pin(s', d) == Pin(s, d)
  }

  /** Page k has been mapped on the cached page c, with one more reference. */
  ghost predicate Brought(s: Sys, s': Sys, k: Key, c: Key) {
    c in s'.cache && k in s'.ptes && s'.ptes[k].phys == s'.cache[c] && Pin(s', c) == Pin(s, c) + 1 &&
    (forall d | d in s.cache :: d in s'.cache && s'.cache[d] == s.cache[d]) &&
    forall d: Key | d != c :: Pin(s', d) == Pin(s, d)
  }

  lemma PinsFault(s: Sys, s': Sys, p: map<Key, nat>, k: Key)
    requires Faulted(s, s', k) && Touched(s, s', k) && Ok(s')
    ensures Faulted(s, s'.(pins := p), k) && Touched(s, s'.(pins := p), k)
  {
    PinsAside(s', p);
    var s2 := s'.(pins := p);
    hide Ok, Own, AttrAt;
    assert forall j: Key :: At(s2, j) == At(s', j) && Phys(s2, j) == Phys(s', j) && Data(s2, j) == Data(s', j);
  }

  lemma SoundDrop(s: Sys, pid: nat, i: nat)
    requires Ok(s) && Sound(s) && i < |Maps(s, pid)|
    requires forall v: nat | Covers(Maps(s, pid)[i], v) :: (pid, v) !in s.ptes
    ensures Sound(SetMaps(s, pid, Maps(s, pid)[..i] + Maps(s, pid)[i + 1..]))
  {
    hide Ok, Sound;
    var l := Maps(s, pid);
    MapsDisjoint(s, pid);
    forall v: nat | (pid, v) in s.ptes
      ensures RegionAt(l[..i] + l[i + 1..], v) == RegionOf(s, (pid, v))
    {
      assert Hits(l, v) <= 1;
      FindDrop(l, i, v);
    }
    SoundSetMaps(s, pid, l[..i] + l[i + 1..]);
  }

  /**
    What a store to page k does to the bytes that loads see: those of its frame change, for every page that has the
    frame, and no others.
  */
  ghost predicate Stores(s: Sys, s': Sys, k: Key, off: nat, b: bv8) {
    k in s'.ptes &&
    (forall j: Key | j in s.ptes && j != k ::
       Data(s', j) == if Phys(s', j) == Phys(s', k) then Poked(Data(s, j), off, b) else Data(s, j)) &&
    (IsShared(s, k) && k in s.ptes ==> Data(s', k) == Poked(Data(s, k), off, b))
  }

  lemma StoresAfter(s: Sys, s1: Sys, k: Key, off: nat, b: bv8)
    requires Touched(s, s1, k) && k in s1.ptes && s1.ptes[k].phys < |s1.frames|
    ensures Stores(s, Stored(s1, k, off, b), k, off, b) && FramesKept(s, Stored(s1, k, off, b), k)
  {
    hide At, Poke;
    var s2 := Stored(s1, k, off, b);
    forall j: Key | j in s.ptes && j != k
      ensures Data(s2, j) == if Phys(s2, j) == Phys(s2, k) then Poked(Data(s, j), off, b) else Data(s, j)
    {
      assert Phys(s1, j) == Phys(s, j) && Data(s1, j) == Data(s, j);
    }
    assert forall j: Key :: Phys(s2, j) == Phys(s1, j);
  }

  lemma TouchedFrames(s: Sys, s': Sys, k: Key)
    requires Touched(s, s', k)
    ensures FramesKept(s, s', k)
  {
    hide FramesKept;
  }

  lemma DirtyTouched(s: Sys, k: Key)
    requires k in s.ptes && s.ptes[k].phys < |s.frames|
    ensures Touched(s, Chattr(s, k, true, true), k)
  {
    hide At;
  }

  lemma LoadTouched(s: Sys, s': Sys, k: Key)
    requires s'.ptes == s.ptes && |s'.frames| == |s.frames|
    requires forall j | j in s.ptes && s.ptes[j].phys < |s.frames| ::
               s'.frames[s.ptes[j].phys].data == s.frames[s.ptes[j].phys].data
    ensures Touched(s, s', k)
  {
    hide At;
  }

  lemma NotFaulted(s: Sys, k: Key)
    ensures Faulted(s, s, k) && Touched(s, s, k)
  {
    hide At, Own;
  }

  lemma SameAt(s: Sys, s': Sys, k: Key)
    requires s'.maps == s.maps
    ensures At(s', k) == At(s, k)
  {
  }

  lemma FaultedSame(s: Sys, s': Sys, k: Key)
    requires Faulted(s, s', k)
    ensures forall j: Key :: At(s', j) == At(s, j) && (j != k ==> Own(s', j) == Own(s, j))
    ensures Own(s, k).Some? ==> Own(s', k) == Own(s, k)
  {
    hide At, Own;
  }

  lemma UnmapCached(s: Sys, k: Key)
    requires Ok(s) && k in s.ptes
    ensures var f := s.ptes[k].phys;
            f < |s.frames| == |s.use| && s.frames[f].count > 0 && (s.frames[f].persist <==> s.use[f] == Cache)
  {
    hide Ok, Refs, AttrAt;
    PteAt(s, k);
  }

  lemma WritableAt(s: Sys, k: Key)
    requires Ok(s) && k in s.ptes && s.ptes[k].write
    ensures s.ptes[k].phys < |s.frames| && At(s, k).Some? && At(s, k).value.write
  {
    hide Ok, Refs, AttrAt;
    PteAt(s, k);
  }

  lemma ReadAt(s: Sys, k: Key)
    requires Ok(s) && k in s.ptes
    ensures s.ptes[k].phys < |s.frames| && At(s, k).Some?
    ensures Own(s, k).Some? ==> Own(s, k).value == s.frames[s.ptes[k].phys].data
  {
    hide Ok, Refs, AttrAt;
    PteAt(s, k);
  }

  /** When a fault is refused: no region, a write to a read-only region, or an execute permission fault. */
  predicate Refused(a: Option<Attr>, perm: bool, write: bool, exec: bool) {
    a == None || (write && !a.value.write) || (perm && exec)
  }
}
