/**
  Copy-on-write address spaces.  Regions, page table entries and frame counts of all processes move
  together through page faults, stores, fork and unmapping.  All regions are page-aligned and made of
  base pages, so addresses and lengths are in pages.
*/
module CopyOnWrite {

  import opened Common
  import opened Regions

  function Poke(p: Page, off: nat, b: bv8): Page {
    if off < |p| then p[off := b] else p
  }

  /** count, and the flags FRAME_PERSIST and FRAME_DIRTY. */
  datatype Frame = Frame(count: nat, persist: bool, dirty: bool, data: Page)

  datatype Pte = Pte(phys: nat, write: bool)

  /** What a frame is used for: free, memory of private regions, memory of shared regions, page of an inode. */
  datatype Use = Unused | Private | Shared | Cache

  /** A page of a process: its id and the page number. */
  type Key = (nat, nat)

  /**
    The whole state: frame table, free frames, cached inode pages with the references that mappings hold on them beyond
    the cache's own, page tables and region lists of all processes.
  */
  datatype Sys = Sys(frames: seq<Frame>, use: seq<Use>, free: set<nat>, cache: map<Key, nat>, pins: map<Key, nat>,
                     ptes: map<Key, Pte>, maps: map<nat, seq<Region>>)

  function Maps(s: Sys, pid: nat): seq<Region> {
    if pid in s.maps then s.maps[pid] else []
  }

  function At(s: Sys, k: Key): Option<Attr> {
    AttrAt(Maps(s, k.0), k.1)
  }

  /** The region that page k is in. */
  function RegionOf(s: Sys, k: Key): (r: Option<Region>)
    ensures r.Some? ==> Covers(r.value, k.1)
  {
    RegionAt(Maps(s, k.0), k.1)
  }

  // ----- references to a frame

  function Mapping(ptes: map<Key, Pte>, f: nat): set<Key> {
    set k | k in ptes && ptes[k].phys == f
  }

  function Refs(ptes: map<Key, Pte>, f: nat): nat {
    |Mapping(ptes, f)|
  }

  lemma RefsAdd(ptes: map<Key, Pte>, k: Key, e: Pte, f: nat)
    requires k !in ptes
    ensures Refs(ptes[k := e], f) == Refs(ptes, f) + if e.phys == f then 1 else 0
  {
    assert Mapping(ptes[k := e], f) == if e.phys == f then Mapping(ptes, f) + {k} else Mapping(ptes, f);
  }

  lemma RefsDrop(ptes: map<Key, Pte>, k: Key, f: nat)
    requires k in ptes
    ensures Refs(ptes - {k}, f) == Refs(ptes, f) - if ptes[k].phys == f then 1 else 0
  {
    assert Mapping(ptes - {k}, f) == if ptes[k].phys == f then Mapping(ptes, f) - {k} else Mapping(ptes, f);
  }

  lemma RefsSame(ptes: map<Key, Pte>, k: Key, e: Pte, f: nat)
    requires k in ptes && ptes[k].phys == e.phys
    ensures Refs(ptes[k := e], f) == Refs(ptes, f)
  {
    assert Mapping(ptes[k := e], f) == Mapping(ptes, f);
  }

  lemma RefsOne(ptes: map<Key, Pte>, k: Key, j: Key, f: nat)
    requires k in ptes && j in ptes && ptes[k].phys == f && ptes[j].phys == f && Refs(ptes, f) == 1
    ensures k == j
  {
    var m := Mapping(ptes, f);
    assert |m - {k}| == 0;
    assert m == {k} && j in m;
  }

  lemma RefsSome(ptes: map<Key, Pte>, k: Key, f: nat)
    requires k in ptes && ptes[k].phys == f
    ensures Refs(ptes, f) >= 1
  {
    assert k in Mapping(ptes, f);
  }

  lemma RefsNone(ptes: map<Key, Pte>, f: nat)
    requires Refs(ptes, f) == 0
    ensures forall k | k in ptes :: ptes[k].phys != f
  {
    assert forall k | k in ptes :: ptes[k].phys == f <==> k in Mapping(ptes, f);
  }

  // ----- the invariant

  /**
    The accounting for one frame: its count is the number of entries that map it; it is free exactly when nothing uses
    it.
  */
  predicate FrameFine(fr: Frame, u: Use, isFree: bool, refs: nat) {
    fr.count == refs && (isFree <==> u == Unused) && (isFree ==> refs == 0) &&
    (!isFree ==> (fr.persist <==> u == Cache)) && (u == Private || u == Shared ==> refs > 0)
  }

  /**
    An entry is writable only if its region is; then a private page is the sole owner of its frame, and a shared one is
    marked dirty.
  */
  predicate PteFine(fr: Frame, u: Use, write: bool, a: Attr) {
    (u == Cache || u == (if a.shared then Shared else Private)) &&
    (write ==> a.write && if a.shared then fr.dirty else u == Private && fr.count == 1)
  }

  predicate FrameOk(s: Sys, f: nat) {
    f < |s.frames| == |s.use| && FrameFine(s.frames[f], s.use[f], f in s.free, Refs(s.ptes, f))
  }

  predicate PteOk(s: Sys, k: Key)
    requires k in s.ptes
  {
    var e := s.ptes[k];
    At(s, k).Some? && e.phys < |s.frames| == |s.use| &&
    PteFine(s.frames[e.phys], s.use[e.phys], e.write, At(s, k).value)
  }

  predicate CacheOk(s: Sys, c: Key)
    requires c in s.cache
  {
    s.cache[c] < |s.use| && s.use[s.cache[c]] == Cache
  }

  predicate FreeOk(s: Sys) {
    forall f | f in s.free :: f < |s.frames|
  }

  ghost predicate Ok(s: Sys) {
    |s.use| == |s.frames| && FreeOk(s) &&
    (forall f | 0 <= f < |s.frames| :: FrameOk(s, f)) &&
    (forall k | k in s.ptes :: PteOk(s, k)) &&
    (forall c | c in s.cache :: CacheOk(s, c)) &&
    (forall c, d | c in s.cache && d in s.cache && s.cache[c] == s.cache[d] :: c == d) &&
    (forall pid: nat :: Disjoint(Maps(s, pid)))
  }

  /**
    The bytes that page k is guaranteed to have to itself: pages of private regions, unless they still show an inode
    page.
  */
  function Own(s: Sys, k: Key): Option<Page> {
    match At(s, k)
    case None => None
    case Some(a) =>
      if a.shared then None
      else if k !in s.ptes then if a.file == Zero then Some(ZeroPage()) else None
      else
        var f := s.ptes[k].phys;
        if f < |s.use| == |s.frames| && s.use[f] == Private then Some(s.frames[f].data) else None
  }

  lemma FrameAt(s: Sys, f: nat)
    requires Ok(s) && f < |s.frames|
    ensures FrameOk(s, f)
  {
    hide Refs, FrameFine, PteOk, CacheOk, Disjoint;
  }

  lemma FreeAt(s: Sys)
    requires Ok(s)
    ensures FreeOk(s) && |s.use| == |s.frames|
  {
  }

  lemma PteAt(s: Sys, k: Key)
    requires Ok(s) && k in s.ptes
    ensures PteOk(s, k) && FrameOk(s, s.ptes[k].phys) && s.ptes[k].phys !in s.free &&
            s.frames[s.ptes[k].phys].count >= 1
  {
    assert PteOk(s, k);
    RefsSome(s.ptes, k, s.ptes[k].phys);
    FrameAt(s, s.ptes[k].phys);
  }

  lemma CacheAt(s: Sys, c: Key)
    requires Ok(s) && c in s.cache
    ensures CacheOk(s, c)
  {
    hide FrameOk, PteOk, Disjoint;
  }

  /** Assembling the invariant after a step on frames and entries. */
  lemma Rebuild(s: Sys, s': Sys)
    requires Ok(s) && |s'.use| == |s'.frames| == |s.frames| && s'.maps == s.maps && s'.cache == s.cache
    requires FreeOk(s')
    requires forall f | 0 <= f < |s.frames| :: FrameOk(s', f) && (s.use[f] == Cache ==> s'.use[f] == Cache)
    requires forall k | k in s'.ptes :: PteOk(s', k)
    ensures Ok(s')
  {
    hide FrameOk, PteOk, Disjoint;
    assert forall pid: nat :: Maps(s', pid) == Maps(s, pid);
  }

  // ----- unmapping a page

  // frame_release
  function Release(s: Sys, f: nat): Sys
    requires f < |s.frames| == |s.use| && s.frames[f].count > 0
  {
    var c := s.frames[f].count - 1;
    var s1 := s.(frames := s.frames[f := s.frames[f].(count := c)]);
    if c == 0 && !s.frames[f].persist then s1.(free := s.free + {f}, use := s.use[f := Unused]) else s1
  }

  predicate Counted(s: Sys, k: Key) {
    k in s.ptes ==> s.ptes[k].phys < |s.frames| == |s.use| && s.frames[s.ptes[k].phys].count > 0
  }

  // arch_mm_virtual_unmap and the region's unmap callback
  function Unmap(s: Sys, k: Key): Sys
    requires Counted(s, k)
  {
    if k in s.ptes then Release(s, s.ptes[k].phys).(ptes := s.ptes - {k}) else s
  }

  lemma UnmapFrame(s: Sys, k: Key, f: nat)
    requires Ok(s) && k in s.ptes && f < |s.frames|
    requires Counted(s, k)
    ensures FrameOk(Unmap(s, k), f) && (s.use[f] == Cache ==> Unmap(s, k).use[f] == Cache)
  {
    hide Ok, Refs;
    PteAt(s, k);
    FrameAt(s, f);
    RefsDrop(s.ptes, k, f);
  }

  lemma UnmapPte(s: Sys, k: Key, j: Key)
    requires Ok(s) && k in s.ptes && j != k
    requires Counted(s, k)
    ensures j in s.ptes ==> PteOk(Unmap(s, k), j)
    ensures Own(Unmap(s, k), j) == Own(s, j)
  {
    hide Ok, Refs, AttrAt;
    if j in s.ptes {
      PteAt(s, j);
      PteAt(s, k);
      if s.ptes[j].phys == s.ptes[k].phys && s.frames[s.ptes[k].phys].count == 1 {
        RefsOne(s.ptes, k, j, s.ptes[k].phys);
      }
    }
  }

  lemma UnmapMapped(s: Sys, k: Key)
    requires Ok(s) && k in s.ptes && Counted(s, k)
    ensures Ok(Unmap(s, k))
    ensures forall j: Key | j != k :: Own(Unmap(s, k), j) == Own(s, j)
  {
    hide Ok, FrameOk, Own, PteOk;
    FreeAt(s);
    var s' := Unmap(s, k);
    forall f | 0 <= f < |s.frames|
      ensures FrameOk(s', f) && (s.use[f] == Cache ==> s'.use[f] == Cache)
    {
      UnmapFrame(s, k, f);
    }
    forall j: Key | j != k
      ensures j in s.ptes ==> PteOk(s', j)
      ensures Own(s', j) == Own(s, j)
    {
      UnmapPte(s, k, j);
    }
    Rebuild(s, s');
  }

  /** A page is unmapped; the frame is freed with its last entry, and no other page loses its bytes. */
  lemma UnmapKeeps(s: Sys, k: Key)
    requires Ok(s)
    ensures Counted(s, k) && Ok(Unmap(s, k)) && Unmap(s, k).maps == s.maps && s.free <= Unmap(s, k).free
    ensures forall j: Key | j != k :: Own(Unmap(s, k), j) == Own(s, j)
  {
    hide Ok, Own;
    if k in s.ptes {
      PteAt(s, k);
      UnmapMapped(s, k);
    }
  }

  /**
    frame_release: the frame of a page goes back to the free frames exactly when no other page maps it and it is not a
    page of the cache.
  */
  lemma FreedExactly(s: Sys, k: Key)
    requires Ok(s) && k in s.ptes
    ensures Counted(s, k)
    ensures var f := s.ptes[k].phys;
            f in Unmap(s, k).free <==> s.use[f] != Cache && forall j | j in s.ptes && j != k :: s.ptes[j].phys != f
  {
    hide Ok, AttrAt;
    PteAt(s, k);
    var f := s.ptes[k].phys;
    assert k in Mapping(s.ptes, f);
    if s.frames[f].count == 1 {
      forall j | j in s.ptes && j != k
        ensures s.ptes[j].phys != f
      {
        if s.ptes[j].phys == f {
          RefsOne(s.ptes, k, j, f);
        }
      }
    } else {
      SecondRef(s.ptes, k, f);
    }
  }

  lemma SecondRef(ptes: map<Key, Pte>, k: Key, f: nat)
    requires k in ptes && ptes[k].phys == f && Refs(ptes, f) != 1
    ensures exists j :: j in ptes && j != k && ptes[j].phys == f
  {
    var m := Mapping(ptes, f);
    assert m == (m - {k}) + {k};
    assert |m - {k}| != 0;
    var j :| j in m - {k};
  }

  // A free frame is mapped nowhere.
  lemma FreeUnmapped(s: Sys, f: nat)
    requires Ok(s) && f in s.free
    ensures forall j | j in s.ptes :: s.ptes[j].phys != f
  {
    hide Ok, Refs;
    FreeAt(s);
    FrameAt(s, f);
    RefsNone(s.ptes, f);
  }

  // ----- mapping a page

  /** Page k gets an entry for frame f, which becomes fr, used for u. */
  function Install(s: Sys, k: Key, f: nat, fr: Frame, u: Use, write: bool): Sys
    requires f < |s.frames| == |s.use|
  {
    s.(frames := s.frames[f := fr], use := s.use[f := u], free := s.free - {f}, ptes := s.ptes[k := Pte(f, write)])
  }

  /** Either a free frame gets its first entry, or a frame in use gets one more. */
  predicate Installable(s: Sys, k: Key, f: nat, fr: Frame, u: Use, write: bool) {
    k !in s.ptes && f < |s.frames| == |s.use| && At(s, k).Some? && PteFine(fr, u, write, At(s, k).value) &&
    if f in s.free then fr.count == 1 && !fr.persist && (u == Private || u == Shared)
    else fr == s.frames[f].(count := s.frames[f].count + 1) && u == s.use[f]
  }

  /** No page has a private writable entry for frame f. */
  ghost predicate Frozen(s: Sys, f: nat) {
    forall j | j in s.ptes && s.ptes[j].phys == f && s.ptes[j].write :: At(s, j).Some? && At(s, j).value.shared
  }

  lemma InstallFrame(s: Sys, k: Key, f: nat, fr: Frame, u: Use, write: bool, g: nat)
    requires Ok(s) && Installable(s, k, f, fr, u, write) && g < |s.frames|
    ensures var s' := Install(s, k, f, fr, u, write); FrameOk(s', g) && (s.use[g] == Cache ==> s'.use[g] == Cache)
  {
    hide Ok, Refs, AttrAt;
    FrameAt(s, f);
    FrameAt(s, g);
    RefsAdd(s.ptes, k, Pte(f, write), g);
  }

  lemma InstallPte(s: Sys, k: Key, f: nat, fr: Frame, u: Use, write: bool, j: Key)
    requires Ok(s) && Installable(s, k, f, fr, u, write) && Frozen(s, f)
    ensures j == k || j in s.ptes ==> PteOk(Install(s, k, f, fr, u, write), j)
    ensures j != k ==> Own(Install(s, k, f, fr, u, write), j) == Own(s, j)
  {
    hide Ok, Refs, AttrAt;
    if j in s.ptes {
      PteAt(s, j);
      assert s.ptes[j].phys == f && s.ptes[j].write ==> At(s, j).value.shared;
    }
  }

  lemma InstallKeeps(s: Sys, k: Key, f: nat, fr: Frame, u: Use, write: bool)
    requires Ok(s) && Installable(s, k, f, fr, u, write) && Frozen(s, f)
    ensures Ok(Install(s, k, f, fr, u, write))
    ensures forall j: Key | j != k :: Own(Install(s, k, f, fr, u, write), j) == Own(s, j)
  {
    assert FreeOk(s);
    var s' := Install(s, k, f, fr, u, write);
    hide Ok, FrameOk, Own, PteFine, Frozen, At, PteOk;
    forall g | 0 <= g < |s.frames|
      ensures FrameOk(s', g) && (s.use[g] == Cache ==> s'.use[g] == Cache)
    {
      InstallFrame(s, k, f, fr, u, write, g);
    }
    forall j: Key
      ensures j == k || j in s.ptes ==> PteOk(s', j)
      ensures j != k ==> Own(s', j) == Own(s, j)
    {
      InstallPte(s, k, f, fr, u, write, j);
    }
    Rebuild(s, s');
  }

  lemma FreeIsFrozen(s: Sys, f: nat)
    requires Ok(s) && f < |s.frames| && (f in s.free || s.use[f] == Cache)
    ensures Frozen(s, f)
  {
    hide Ok, Refs, AttrAt;
    FrameAt(s, f);
    if f in s.free {
      RefsNone(s.ptes, f);
    } else {
      forall j | j in s.ptes && s.ptes[j].phys == f && s.ptes[j].write
        ensures At(s, j).Some? && At(s, j).value.shared
      {
        PteAt(s, j);
      }
    }
  }

  // ----- storing through a writable entry

  function Stored(s: Sys, k: Key, off: nat, b: bv8): Sys
    requires k in s.ptes && s.ptes[k].phys < |s.frames|
  {
    var f := s.ptes[k].phys;
    s.(frames := s.frames[f := s.frames[f].(data := Poke(s.frames[f].data, off, b))])
  }

  function Poked(o: Option<Page>, off: nat, b: bv8): Option<Page> {
    if o.Some? then Some(Poke(o.value, off, b)) else None
  }

  /** A store changes no bytes that another page has to itself. */
  lemma StoreKeeps(s: Sys, k: Key, off: nat, b: bv8)
    requires Ok(s) && k in s.ptes && s.ptes[k].write
    ensures s.ptes[k].phys < |s.frames|
    ensures Ok(Stored(s, k, off, b)) && Own(Stored(s, k, off, b), k) == Poked(Own(s, k), off, b)
    ensures forall j: Key | j != k :: Own(Stored(s, k, off, b), j) == Own(s, j)
  {
    hide Ok, Refs, AttrAt, Poke;
    PteAt(s, k);
    StoreOk(s, k, off, b);
    var s' := Stored(s, k, off, b);
    forall j: Key | j != k
      ensures Own(s', j) == Own(s, j)
    {
      if j in s.ptes && s.ptes[j].phys == s.ptes[k].phys {
        StoreElsewhere(s, k, j);
      }
    }
  }

  lemma StoreOk(s: Sys, k: Key, off: nat, b: bv8)
    requires Ok(s) && k in s.ptes && s.ptes[k].write && s.ptes[k].phys < |s.frames|
    ensures Ok(Stored(s, k, off, b))
  {
    assert FreeOk(s);
    hide Ok, Refs, AttrAt, Poke;
    var s' := Stored(s, k, off, b);
    forall g | 0 <= g < |s.frames|
      ensures FrameOk(s', g)
    {
      FrameAt(s, g);
    }
    forall j | j in s.ptes
      ensures PteOk(s', j)
    {
      PteAt(s, j);
    }
    hide FrameOk, PteOk;
    Rebuild(s, s');
  }

  // A writable entry shares its frame with no private memory of another page.
  lemma StoreElsewhere(s: Sys, k: Key, j: Key)
    requires Ok(s) && k in s.ptes && s.ptes[k].write && j in s.ptes && j != k && s.ptes[j].phys == s.ptes[k].phys
    ensures s.ptes[j].phys < |s.use| && s.use[s.ptes[j].phys] != Private
  {
    hide Ok, AttrAt;
    PteAt(s, k);
    PteAt(s, j);
    hide Refs;
    if s.use[s.ptes[k].phys] == Private && s.frames[s.ptes[k].phys].count == 1 {
      RefsOne(s.ptes, k, j, s.ptes[k].phys);
    }
  }

  // ----- changing one entry

  // arch_mm_virtual_chattr on page k, with the dirty flag of its frame
  function Chattr(s: Sys, k: Key, write: bool, dirty: bool): Sys
    requires k in s.ptes && s.ptes[k].phys < |s.frames|
  {
    var f := s.ptes[k].phys;
    s.(frames := s.frames[f := s.frames[f].(dirty := dirty)], ptes := s.ptes[k := Pte(f, write)])
  }

  predicate Changeable(s: Sys, k: Key, write: bool, dirty: bool) {
    k in s.ptes && s.ptes[k].phys < |s.frames| && (s.frames[s.ptes[k].phys].dirty ==> dirty) &&
    (write ==> At(s, k).Some? && At(s, k).value.write && At(s, k).value.shared && dirty)
  }

  lemma ChattrFrame(s: Sys, k: Key, write: bool, dirty: bool, g: nat)
    requires Ok(s) && Changeable(s, k, write, dirty) && g < |s.frames|
    ensures FrameOk(Chattr(s, k, write, dirty), g)
  {
    hide Ok, Refs, AttrAt;
    FrameAt(s, g);
    RefsSame(s.ptes, k, Pte(s.ptes[k].phys, write), g);
  }

  lemma ChattrPte(s: Sys, k: Key, write: bool, dirty: bool, j: Key)
    requires Ok(s) && Changeable(s, k, write, dirty)
    ensures j in s.ptes ==> PteOk(Chattr(s, k, write, dirty), j)
    ensures Own(Chattr(s, k, write, dirty), j) == Own(s, j)
  {
    hide Ok, Refs, AttrAt;
    if j in s.ptes {
      PteAt(s, j);
    }
  }

  lemma ChattrKeeps(s: Sys, k: Key, write: bool, dirty: bool)
    requires Ok(s) && Changeable(s, k, write, dirty)
    ensures Ok(Chattr(s, k, write, dirty))
    ensures forall j: Key :: Own(Chattr(s, k, write, dirty), j) == Own(s, j)
  {
    assert FreeOk(s);
    var s' := Chattr(s, k, write, dirty);
    hide Ok, FrameOk, PteOk, Own;
    forall g | 0 <= g < |s.frames|
      ensures FrameOk(s', g)
    {
      ChattrFrame(s, k, write, dirty, g);
    }
    forall j: Key
      ensures j in s.ptes ==> PteOk(s', j)
      ensures Own(s', j) == Own(s, j)
    {
      ChattrPte(s, k, write, dirty, j);
    }
    Rebuild(s, s');
  }

  // ----- changing a region list

  function SetMaps(s: Sys, pid: nat, l: seq<Region>): Sys {
    s.(maps := s.maps[pid := l])
  }

  /** The regions of a process change, but not under a mapped page. */
  lemma SetMapsKeeps(s: Sys, pid: nat, l: seq<Region>)
    requires Ok(s) && Disjoint(l)
    requires forall v: nat | (pid, v) in s.ptes :: AttrAt(l, v) == AttrAt(Maps(s, pid), v)
    ensures Ok(SetMaps(s, pid, l))
  {
    var s' := SetMaps(s, pid, l);
    assert forall q: nat :: Maps(s', q) == if q == pid then l else Maps(s, q);
    hide Disjoint, AttrAt, Refs;
    forall k | k in s'.ptes
      ensures PteOk(s', k)
    {
      assert PteOk(s, k) && k == (k.0, k.1);
    }
    assert forall f | 0 <= f < |s.frames| :: FrameOk(s', f) == FrameOk(s, f);
    assert forall c | c in s.cache :: CacheOk(s', c) == CacheOk(s, c);
    hide PteOk, FrameOk, CacheOk;
  }

  // ----- the page cache

  // _inode_page_initialize: a free frame takes the page's contents
  function Loaded(s: Sys, c: Key, f: nat, data: Page): Sys
    requires f < |s.frames| == |s.use|
  {
    s.(frames := s.frames[f := Frame(0, true, false, data)], use := s.use[f := Cache], free := s.free - {f},
       cache := s.cache[c := f], pins := s.pins[c := 0])
  }

  /** A frame that nothing maps changes; the cache changes to match. */
  ghost predicate Swapped(s: Sys, s': Sys, f: nat) {
    f < |s.frames| == |s.use| && Refs(s.ptes, f) == 0 && s'.ptes == s.ptes && s'.maps == s.maps &&
    |s'.frames| == |s.frames| == |s'.use| && FrameOk(s', f) && FreeOk(s') &&
    (forall g | 0 <= g < |s.frames| && g != f ::
       s'.frames[g] == s.frames[g] && s'.use[g] == s.use[g] && (g in s'.free <==> g in s.free)) &&
    (forall c | c in s'.cache :: CacheOk(s', c)) &&
    (forall c, d | c in s'.cache && d in s'.cache && s'.cache[c] == s'.cache[d] :: c == d)
  }

  lemma SwapPte(s: Sys, s': Sys, f: nat, j: Key)
    requires Ok(s) && Swapped(s, s', f)
    ensures j in s.ptes ==> PteOk(s', j)
    ensures Own(s', j) == Own(s, j)
  {
    hide Ok, AttrAt, Refs;
    RefsNone(s.ptes, f);
    if j in s.ptes {
      PteAt(s, j);
    }
  }

  lemma SwapKeeps(s: Sys, s': Sys, f: nat)
    requires Ok(s) && Swapped(s, s', f)
    ensures Ok(s')
    ensures forall j: Key :: Own(s', j) == Own(s, j)
  {
    forall g | 0 <= g < |s.frames|
      ensures FrameOk(s', g)
    {
      assert FrameOk(s, g);
    }
    hide FrameOk, PteOk, Own, Disjoint, CacheOk, Refs;
    forall j: Key
      ensures j in s.ptes ==> PteOk(s', j)
      ensures Own(s', j) == Own(s, j)
    {
      SwapPte(s, s', f, j);
    }
    assert forall pid: nat :: Maps(s', pid) == Maps(s, pid);
  }

  lemma LoadKeeps(s: Sys, c: Key, f: nat, data: Page)
    requires Ok(s) && c !in s.cache && f in s.free
    ensures f < |s.frames| == |s.use| && Ok(Loaded(s, c, f, data))
    ensures forall j: Key :: Own(Loaded(s, c, f, data), j) == Own(s, j)
  {
    assert f < |s.frames| && FrameOk(s, f);
    forall d | d in s.cache
      ensures s.cache[d] != f && CacheOk(s, d)
    {
      CacheAt(s, d);
    }
    hide PteOk, Refs, Disjoint;
    assert Swapped(s, Loaded(s, c, f, data), f);
    hide Ok, Own, Swapped;
    SwapKeeps(s, Loaded(s, c, f, data), f);
  }

  // _inode_page_release: the frame of an idle page, which nothing maps any more, is freed
  function Evicted(s: Sys, c: Key): Sys
    requires c in s.cache && s.cache[c] < |s.use|
  {
    s.(use := s.use[s.cache[c] := Unused], free := s.free + {s.cache[c]}, cache := s.cache - {c})
  }

  lemma EvictKeeps(s: Sys, c: Key)
    requires Ok(s) && c in s.cache && s.cache[c] < |s.frames| == |s.use| && s.frames[s.cache[c]].count == 0
    ensures Ok(Evicted(s, c))
    ensures forall j: Key :: Own(Evicted(s, c), j) == Own(s, j)
  {
    var f := s.cache[c];
    assert CacheOk(s, c) && FrameOk(s, f);
    hide PteOk, Refs, Disjoint;
    assert Swapped(s, Evicted(s, c), f);
    hide Ok, Own, Swapped;
    SwapKeeps(s, Evicted(s, c), f);
  }

  // ----- copying a page to another process

  // The body of the page loop of process_copy_mappings, for a mapped page k: a private page loses its write
  // permission, and page j gets the same entry.
  function Duplicated(s: Sys, k: Key, j: Key): Sys
    requires k in s.ptes && s.ptes[k].phys < |s.frames| == |s.use| && At(s, k).Some?
  {
    var f := s.ptes[k].phys;
    var write := s.ptes[k].write && At(s, k).value.shared;
    Install(Chattr(s, k, write, s.frames[f].dirty), j, f, s.frames[f].(count := s.frames[f].count + 1), s.use[f], write)
  }

  lemma CopyFrozen(s: Sys, k: Key)
    requires Ok(s) && k in s.ptes && s.ptes[k].phys < |s.frames| &&
             (s.ptes[k].write ==> At(s, k).Some? && At(s, k).value.shared)
    ensures Frozen(s, s.ptes[k].phys)
  {
    hide Ok, AttrAt;
    var f := s.ptes[k].phys;
    PteAt(s, k);
    hide Refs;
    forall j | j in s.ptes && s.ptes[j].phys == f && s.ptes[j].write
      ensures At(s, j).Some? && At(s, j).value.shared
    {
      PteAt(s, j);
      if !At(s, j).value.shared {
        RefsOne(s.ptes, k, j, f);
      }
    }
  }

  /** The copy has the bytes of the original, and everyone else keeps theirs. */
  lemma CopyKeeps(s: Sys, k: Key, j: Key)
    requires Ok(s) && k in s.ptes && j !in s.ptes && At(s, j) == At(s, k)
    ensures s.ptes[k].phys < |s.frames| == |s.use| && At(s, k).Some?
    ensures Ok(Duplicated(s, k, j)) && Own(Duplicated(s, k, j), j) == Own(s, k)
    ensures forall i: Key | i != j :: Own(Duplicated(s, k, j), i) == Own(s, i)
  {
    hide Ok, AttrAt, Refs;
    PteAt(s, k);
    var f, a := s.ptes[k].phys, At(s, k).value;
    var write := s.ptes[k].write && a.shared;
    var s1 := Chattr(s, k, write, s.frames[f].dirty);
    ChattrKeeps(s, k, write, s.frames[f].dirty);
    assert At(s1, j) == At(s, j) && At(s1, k) == At(s, k);
    CopyFrozen(s1, k);
    assert s1.frames[f] == s.frames[f];
    InstallKeeps(s1, j, f, s.frames[f].(count := s.frames[f].count + 1), s.use[f], write);
  }

  // ----- the private copy

  // A private write fault: page k moves to the free frame f, which takes a copy of its bytes.
  function Copied(s: Sys, k: Key, f: nat): Sys
    requires k in s.ptes && Counted(s, k) && f < |s.frames|
  {
    Install(Unmap(s, k), k, f, Frame(1, false, false, s.frames[s.ptes[k].phys].data), Private, true)
  }

  lemma CopiedKeeps(s: Sys, k: Key, f: nat)
    requires Ok(s) && k in s.ptes && f in s.free && At(s, k).Some? && !At(s, k).value.shared && At(s, k).value.write
    ensures Counted(s, k) && f < |s.frames| && Ok(Copied(s, k, f))
    ensures Own(Copied(s, k, f), k) == Some(s.frames[s.ptes[k].phys].data)
    ensures Own(s, k).Some? ==> Own(Copied(s, k, f), k) == Own(s, k)
    ensures forall i: Key | i != k :: Own(Copied(s, k, f), i) == Own(s, i)
  {
    assert FreeOk(s);
    hide Ok, AttrAt, Refs;
    PteAt(s, k);
    UnmapKeeps(s, k);
    var s1 := Unmap(s, k);
    FreeIsFrozen(s1, f);
    InstallKeeps(s1, k, f, Frame(1, false, false, s.frames[s.ptes[k].phys].data), Private, true);
  }

  // Spelt out: only the two entries and the count change.
  lemma DuplicatedIs(s: Sys, k: Key, j: Key)
    requires Ok(s) && k in s.ptes && s.ptes[k].phys < |s.frames| == |s.use| && At(s, k).Some?
    ensures var f := s.ptes[k].phys;
            var e := if At(s, k).value.shared then s.ptes[k] else Pte(f, false);
            Duplicated(s, k, j) == s.(frames := s.frames[f := s.frames[f].(count := s.frames[f].count + 1)],
                                      ptes := s.ptes[k := e][j := e])
  {
    hide Ok, AttrAt, Refs;
    PteAt(s, k);
    var f := s.ptes[k].phys;
    assert s.use[f := s.use[f]] == s.use && s.free - {f} == s.free;
    assert s.frames[f := s.frames[f]] == s.frames;
  }

  // The order of the source: the new frame is mapped before the old one is released.
  lemma CopiedIs(s: Sys, k: Key, f: nat)
    requires k in s.ptes && Counted(s, k) && f < |s.frames| && f in s.free && s.ptes[k].phys != f
    ensures var g := s.ptes[k].phys;
            Release(Install(s, k, f, Frame(1, false, false, s.frames[g].data), Private, true), g) == Copied(s, k, f)
  {
    var g, s' := s.ptes[k].phys, Copied(s, k, f);
    var s1 := Release(Install(s, k, f, Frame(1, false, false, s.frames[g].data), Private, true), g);
    assert s1.frames == s'.frames;
    assert s1.free == s'.free;
    assert s1.use == s'.use;
    assert s1.ptes == s'.ptes;
  }

  lemma CachedIs(s: Sys, k: Key, f: nat, fr: Frame, write: bool)
    requires f < |s.frames| == |s.use| && s.use[f] == Cache && f !in s.free
    ensures Install(s, k, f, fr, Cache, write) == s.(frames := s.frames[f := fr], ptes := s.ptes[k := Pte(f, write)])
  {
    assert s.use[f := Cache] == s.use && s.free - {f} == s.free;
  }
}
