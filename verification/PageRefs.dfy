/**
  References to cached pages of files.  Mapping a page of a file takes a reference to the cached page; unmapping the
  last entry of its frame gives one back, to the page that the region names at that moment.  Cutting a region moves its
  start and leaves its first file page, so the page named then need not be the one that was mapped.
*/
module PageRefs {

  import opened Common
  import opened Regions
  import opened CopyOnWrite

  /** References that mappings hold on a page beyond the two of the cache itself. */
  function Pin(s: Sys, c: Key): nat {
    if c in s.cache && c in s.pins then s.pins[c] else 0
  }

  /** The file page that the callbacks of a region take page v for. */
  function Named(r: Region, v: nat): Key
    requires r.file.Inode? && r.start <= v
  {
    (r.file.ino, r.nodepage + v - r.start)
  }

  /** Unmapping k brings the count of a cached frame to zero. */
  predicate LastEntry(s: Sys, k: Key) {
    k in s.ptes && s.ptes[k].phys < |s.frames| &&
    s.frames[s.ptes[k].phys].count == 1 && s.frames[s.ptes[k].phys].persist
  }

  /**
    Unmapping page k of region r fails: the callback gets the page that the region names, which is in the cache from
    then on, and puts it twice, but no mapping holds a reference to it.
  */
  predicate UnmapFails(s: Sys, k: Key, r: Region)
    requires r.start <= k.1
  {
    r.file.Inode? && LastEntry(s, k) && Pin(s, Named(r, k.1)) == 0
  }

  // __unmap_page_if_mapped with the callback of the region
  function Dropped(s: Sys, k: Key, r: Region): Sys
    requires Counted(s, k) && r.start <= k.1 && !UnmapFails(s, k, r)
  {
    if r.file.Inode? && LastEntry(s, k)
    then Unmap(s, k).(pins := s.pins[Named(r, k.1) := Pin(s, Named(r, k.1)) - 1])
    else Unmap(s, k)
  }

  // The references play no part in the other accounts.
  lemma PinsAside(s: Sys, p: map<Key, nat>)
    requires Ok(s)
    ensures Ok(s.(pins := p)) && forall j: Key :: Own(s.(pins := p), j) == Own(s, j)
  {
    var s' := s.(pins := p);
    assert forall pid: nat :: Maps(s', pid) == Maps(s, pid);
    assert forall f | 0 <= f < |s.frames| :: FrameOk(s', f) == FrameOk(s, f);
    assert forall k | k in s.ptes :: PteOk(s', k) == PteOk(s, k);
    assert forall c | c in s.cache :: CacheOk(s', c) == CacheOk(s, c);
    hide FrameOk, PteOk, CacheOk, Disjoint;
  }

  lemma DroppedKeeps(s: Sys, k: Key, r: Region)
    requires Ok(s) && r.start <= k.1 && !UnmapFails(s, k, r)
    ensures Counted(s, k) && Ok(Dropped(s, k, r)) && Dropped(s, k, r).maps == s.maps && s.free <= Dropped(s, k, r).free
    ensures Dropped(s, k, r).ptes == s.ptes - {k}
    ensures forall j: Key | j != k :: Own(Dropped(s, k, r), j) == Own(s, j)
  {
    hide Ok, Own;
    UnmapKeeps(s, k);
    PinsAside(Unmap(s, k), Dropped(s, k, r).pins);
    assert k !in s.ptes ==> s.ptes - {k} == s.ptes;
  }

  // ----- taking pages out of the region list

  // The first page of a region goes.
  function CutFront(s: Sys, pid: nat, l: seq<Region>, i: nat): Option<Sys>
    requires i < |l| && l[i].len > 0
  {
    var k, r := (pid, l[i].start), l[i];
    if !Counted(s, k) || UnmapFails(s, k, r) then None else Some(SetMaps(Dropped(s, k, r), pid, Shrink(l, i)))
  }

  /** One turn of the loop of map_region_remove; None stands for the panic of the callback. */
  function CutPage(s: Sys, pid: nat, v: nat): Option<Sys> {
    var l := Maps(s, pid);
    var i := Find(l, v);
    if i == |l| then Some(s)
    else if l[i].start == v then CutFront(s, pid, l, i)
    else CutFront(s, pid, Split(l, i, v), 0)
  }

  /** map_region_remove. */
  function CutPages(s: Sys, pid: nat, a: nat, n: nat): Option<Sys> {
    if n == 0 then Some(s)
    else
      var s1 := CutPages(s, pid, a, n - 1);
      if s1 == None then None else CutPage(s1.value, pid, a + n - 1)
  }

  // The first n pages of a region that is going, each by the callback of the region.
  function DropPages(s: Sys, pid: nat, r: Region, n: nat): (o: Option<Sys>)
    ensures o.Some? ==> o.value.maps == s.maps
  {
    if n == 0 then Some(s)
    else
      match DropPages(s, pid, r, n - 1)
      case None => None
      case Some(t) =>
        var k := (pid, r.start + n - 1);
        if !Counted(t, k) || UnmapFails(t, k, r) then None else Some(Dropped(t, k, r))
  }

  lemma DropsStart(s: Sys, pid: nat, r: Region)
    ensures DropPages(s, pid, r, 0) == Some(s)
  {
  }

  lemma DropsNext(s: Sys, t: Sys, pid: nat, r: Region, n: nat)
    requires DropPages(s, pid, r, n) == Some(t) && Counted(t, (pid, r.start + n))
    ensures var k := (pid, r.start + n);
            DropPages(s, pid, r, n + 1) == if UnmapFails(t, k, r) then None else Some(Dropped(t, k, r))
  {
    hide UnmapFails, Dropped;
  }

  lemma {:induction false} DropsStop(s: Sys, pid: nat, r: Region, m: nat, n: nat)
    requires DropPages(s, pid, r, m) == None && m <= n
    ensures DropPages(s, pid, r, n) == None
  {
    if m < n {
      DropsStop(s, pid, r, m, n - 1);
    }
  }

  /** __mapping_remove of region i. */
  function DropRegion(s: Sys, pid: nat, i: nat): (o: Option<Sys>)
    requires i < |Maps(s, pid)|
    ensures o.Some? ==> |Maps(o.value, pid)| == |Maps(s, pid)| - 1
  {
    var l := Maps(s, pid);
    match DropPages(s, pid, l[i], l[i].len)
    case None => None
    case Some(t) => Some(SetMaps(t, pid, l[..i] + l[i + 1..]))
  }

  /** The user thread-local storage area, in pages: it survives process_remove_mappings when the caller asks. */
  const TLS_START := 0x7_0000_0000
  const TLS_END := 0x8_0000_0000

  /** Thread-local storage, when it is to stay. */
  predicate Stays(r: Region, tlsToo: bool) {
    !tlsToo && TLS_START <= r.start < TLS_END
  }

  /** process_remove_mappings, from region i on; None stands for the panic of the callback. */
  function DropAll(s: Sys, pid: nat, i: nat, tlsToo: bool): Option<Sys>
    decreases |Maps(s, pid)| - i
  {
    var l := Maps(s, pid);
    if i >= |l| then Some(s)
    else if Stays(l[i], tlsToo) then DropAll(s, pid, i + 1, tlsToo)
    else
      match DropRegion(s, pid, i)
      case None => None
      case Some(t) => DropAll(t, pid, i, tlsToo)
  }

  // ----- when the references are right

  /** A page on a cached frame has the frame of the file page that its region names. */
  predicate NamedRight(s: Sys, k: Key)
    requires k in s.ptes
  {
    var f := s.ptes[k].phys;
    f < |s.use| && s.use[f] == Cache ==>
      var o := RegionOf(s, k);
      o.Some? && o.value.file.Inode? && Named(o.value, k.1) in s.cache && s.cache[Named(o.value, k.1)] == f
  }

  /** A cached page that is mapped has a reference. */
  predicate Held(s: Sys, c: Key)
    requires c in s.cache
  {
    s.cache[c] < |s.frames| && s.frames[s.cache[c]].count > 0 ==> Pin(s, c) >= 1
  }

  ghost predicate Sound(s: Sys) {
    (forall k | k in s.ptes :: NamedRight(s, k)) && (forall c | c in s.cache :: Held(s, c))
  }

  lemma NamedAt(s: Sys, k: Key)
    requires Sound(s) && k in s.ptes
    ensures NamedRight(s, k)
  {
    hide NamedRight, Held;
  }

  lemma HeldAt(s: Sys, c: Key)
    requires Sound(s) && c in s.cache
    ensures Held(s, c)
  {
    hide NamedRight, Held;
  }

  lemma OneFrame(s: Sys, c: Key, d: Key)
    requires Ok(s) && c in s.cache && d in s.cache && s.cache[c] == s.cache[d]
    ensures c == d
  {
    hide FrameOk, PteOk, CacheOk, Disjoint;
  }

  /** While the references are right no unmapping fails, and they stay right. */
  lemma SoundUnmaps(s: Sys, k: Key, r: Region)
    requires Ok(s) && Sound(s) && (k in s.ptes ==> RegionOf(s, k) == Some(r)) && r.start <= k.1
    ensures !UnmapFails(s, k, r) && Counted(s, k) && Sound(Dropped(s, k, r))
  {
    hide Ok, Sound, RegionOf;
    if k in s.ptes {
      PteAt(s, k);
      hide Refs, At;
      NamedAt(s, k);
      if LastEntry(s, k) {
        HeldAt(s, Named(r, k.1));
      }
    }
    var s' := Dropped(s, k, r);
    forall j | j in s'.ptes
      ensures NamedRight(s', j)
    {
      NamedAt(s, j);
      UnmapsSame(s, k, r, j);
    }
    forall c | c in s'.cache
      ensures Held(s', c)
    {
      HeldAt(s, c);
      if k in s.ptes && LastEntry(s, k) {
        OneOf(s, c, Named(r, k.1));
      }
    }
    SoundIs(s');
  }

  lemma OneOf(s: Sys, c: Key, d: Key)
    requires Ok(s) && c in s.cache && d in s.cache
    ensures s.cache[c] == s.cache[d] ==> c == d
  {
    hide Ok;
    if s.cache[c] == s.cache[d] {
      OneFrame(s, c, d);
    }
  }

  lemma SoundIs(s: Sys)
    requires (forall k | k in s.ptes :: NamedRight(s, k)) && (forall c | c in s.cache :: Held(s, c))
    ensures Sound(s)
  {
  }

  // The region and the use of the frame of another page stay.
  lemma UnmapsSame(s: Sys, k: Key, r: Region, j: Key)
    requires Ok(s) && Counted(s, k) && r.start <= k.1 && !UnmapFails(s, k, r) && j in s.ptes && j != k
    ensures var s' := Dropped(s, k, r);
            RegionOf(s', j) == RegionOf(s, j) && s'.cache == s.cache && s'.ptes[j] == s.ptes[j] &&
             |s'.use| == |s.use| &&
            (s.ptes[j].phys < |s.use| && s'.use[s.ptes[j].phys] == Cache ==> s.use[s.ptes[j].phys] == Cache)
  {
    hide Ok, RegionAt;
  }

  // ----- the other steps keep them right

  /** Page j is on the frame that it was on, which is used as it was. */
  predicate Unmoved(s: Sys, s': Sys, j: Key) {
    j in s.ptes && j in s'.ptes && s'.ptes[j].phys == s.ptes[j].phys &&
    (s.ptes[j].phys < |s'.use| && s'.use[s.ptes[j].phys] == Cache ==>
       s.ptes[j].phys < |s.use| && s.use[s.ptes[j].phys] == Cache)
  }

  /** Page d is in the cache as it was, and mapped only if it was. */
  predicate Undisturbed(s: Sys, s': Sys, d: Key) {
    d in s.cache && d in s'.cache && s'.cache[d] == s.cache[d] && Pin(s', d) == Pin(s, d) &&
    (s.cache[d] < |s.frames| && s.cache[d] < |s'.frames| && s'.frames[s.cache[d]].count > 0 ==>
       s.frames[s.cache[d]].count > 0)
  }

  /** A step that leaves the region lists, all entries but k, and all cached pages but c. */
  lemma SoundStep(s: Sys, s': Sys, k: Option<Key>, c: Option<Key>)
    requires Sound(s) && s'.maps == s.maps && |s'.frames| == |s.frames|
    requires forall j | j in s'.ptes :: if k == Some(j) then NamedRight(s', j) else Unmoved(s, s', j)
    requires forall d | d in s'.cache :: if c == Some(d) then Held(s', d) else Undisturbed(s, s', d)
    requires forall j, d | j in s'.ptes && j in s.ptes && d in s.cache && s.cache[d] == s.ptes[j].phys ::
               d in s'.cache && s'.cache[d] == s.cache[d]
    ensures Sound(s')
  {
    hide Sound, Pin;
    forall j | j in s'.ptes
      ensures NamedRight(s', j)
    {
      if k != Some(j) {
        assert Unmoved(s, s', j);
        NamedAt(s, j);
        assert RegionOf(s', j) == RegionOf(s, j);
      }
    }
    forall d | d in s'.cache
      ensures Held(s', d)
    {
      if c != Some(d) {
        assert Undisturbed(s, s', d);
        HeldAt(s, d);
      }
    }
    SoundIs(s');
  }

  lemma CacheUse(s: Sys, c: Key)
    requires Ok(s) && c in s.cache
    ensures s.cache[c] < |s.frames| == |s.use| && s.use[s.cache[c]] == Cache && s.cache[c] !in s.free
  {
    hide Refs;
    FreeAt(s);
    CacheAt(s, c);
    FrameAt(s, s.cache[c]);
  }

  lemma SoundZero(s: Sys, k: Key, f: nat, fr: Frame, u: Use, write: bool)
    requires Ok(s) && Sound(s) && k !in s.ptes && f in s.free && f < |s.frames| == |s.use| && u != Cache
    ensures Sound(Install(s, k, f, fr, u, write))
  {
    hide Ok, Sound, RegionOf;
    FreeUnmapped(s, f);
    forall d | d in s.cache
      ensures s.cache[d] != f
    {
      CacheUse(s, d);
    }
    SoundStep(s, Install(s, k, f, fr, u, write), Some(k), None);
  }

  // A mapping of the cached page, with one more reference.
  lemma SoundCached(s: Sys, k: Key, r: Region, fr: Frame, write: bool)
    requires Ok(s) && Sound(s) && k !in s.ptes && RegionOf(s, k) == Some(r) && r.file.Inode?
    requires var c := Named(r, k.1); c in s.cache && s.cache[c] < |s.frames| == |s.use|
    ensures var c := Named(r, k.1);
            Sound(Install(s, k, s.cache[c], fr, Cache, write).(pins := s.pins[c := Pin(s, c) + 1]))
  {
    hide Ok, Sound;
    var c := Named(r, k.1);
    var s' := Install(s, k, s.cache[c], fr, Cache, write).(pins := s.pins[c := Pin(s, c) + 1]);
    assert RegionOf(s', k) == RegionOf(s, k);
    hide RegionOf;
    forall d | d in s.cache
      ensures s.cache[d] == s.cache[c] ==> d == c
    {
      OneOf(s, d, c);
    }
    CacheUse(s, c);
    SoundStep(s, s', Some(k), Some(c));
  }

  lemma SoundLoad(s: Sys, c: Key, f: nat, data: Page)
    requires Ok(s) && Sound(s) && c !in s.cache && f in s.free && f < |s.frames| == |s.use|
    ensures Sound(Loaded(s, c, f, data))
  {
    hide Ok, Sound, RegionOf;
    FreeUnmapped(s, f);
    forall d | d in s.cache
      ensures s.cache[d] != f
    {
      CacheUse(s, d);
    }
    SoundStep(s, Loaded(s, c, f, data), None, Some(c));
  }

  /** A page without references is not mapped, and the cache may drop it. */
  lemma SoundEvict(s: Sys, c: Key)
    requires Ok(s) && Sound(s) && c in s.cache && Pin(s, c) == 0
    ensures s.cache[c] < |s.frames| == |s.use| && s.frames[s.cache[c]].count == 0 && Sound(Evicted(s, c))
  {
    hide Ok, Sound, RegionOf;
    CacheUse(s, c);
    HeldAt(s, c);
    FrameAt(s, s.cache[c]);
    RefsNone(s.ptes, s.cache[c]);
    hide Refs;
    SoundStep(s, Evicted(s, c), None, None);
  }

  lemma SoundCopied(s: Sys, k: Key, f: nat)
    requires Ok(s) && Sound(s) && k in s.ptes && Counted(s, k) && f in s.free && f < |s.frames|
    ensures Sound(Copied(s, k, f))
  {
    hide Ok, Sound, RegionOf;
    FreeUnmapped(s, f);
    forall d | d in s.cache
      ensures s.cache[d] != f
    {
      CacheUse(s, d);
    }
    SoundStep(s, Copied(s, k, f), Some(k), None);
  }

  lemma SoundChattr(s: Sys, k: Key, write: bool, dirty: bool)
    requires Sound(s) && k in s.ptes && s.ptes[k].phys < |s.frames|
    ensures Sound(Chattr(s, k, write, dirty))
  {
    hide Sound, RegionOf;
    SoundStep(s, Chattr(s, k, write, dirty), None, None);
  }

  lemma SoundStored(s: Sys, k: Key, off: nat, b: bv8)
    requires Sound(s) && k in s.ptes && s.ptes[k].phys < |s.frames|
    ensures Sound(Stored(s, k, off, b))
  {
    hide Sound, RegionOf, Poke;
    SoundStep(s, Stored(s, k, off, b), None, None);
  }

  lemma SoundDuplicated(s: Sys, k: Key, j: Key)
    requires Ok(s) && Sound(s) && k in s.ptes && s.ptes[k].phys < |s.frames| == |s.use| && At(s, k).Some?
    requires j !in s.ptes && j.1 == k.1 && RegionOf(s, j) == RegionOf(s, k)
    ensures Sound(Duplicated(s, k, j))
  {
    hide Ok, Sound, AttrAt;
    PteAt(s, k);
    NamedAt(s, k);
    var s' := Duplicated(s, k, j);
    assert RegionOf(s', j) == RegionOf(s, j);
    hide RegionOf, Refs;
    SoundStep(s, s', Some(j), None);
  }

  /** The lists change, but not the region of a page that is on a cached frame. */
  lemma SoundSetMaps(s: Sys, pid: nat, l: seq<Region>)
    requires Sound(s)
    requires forall v: nat | (pid, v) in s.ptes && s.ptes[(pid, v)].phys < |s.use| &&
                             s.use[s.ptes[(pid, v)].phys] == Cache :: RegionAt(l, v) == RegionOf(s, (pid, v))
    ensures Sound(SetMaps(s, pid, l))
  {
    hide Sound, RegionAt;
    var s' := SetMaps(s, pid, l);
    forall k | k in s'.ptes
      ensures NamedRight(s', k)
    {
      NamedAt(s, k);
      assert k == (k.0, k.1);
    }
    forall c | c in s'.cache
      ensures Held(s', c)
    {
      HeldAt(s, c);
    }
    SoundIs(s');
  }

  // ----- cutting pages out, one by one

  // Page k after the pages X of a process have been taken out of its regions.
  ghost predicate CutAt(s: Sys, s': Sys, pid: nat, X: iset<nat>, k: Key) {
    if k.0 != pid then RegionOf(s', k) == RegionOf(s, k)
    else if k.1 in X then RegionOf(s', k) == None
    else CutBy(RegionOf(s, k), RegionOf(s', k), k.1, X)
  }

  /** The pages X of a process have been taken out of its regions. */
  ghost predicate Cut(s: Sys, s': Sys, pid: nat, X: iset<nat>) {
    forall k: Key :: CutAt(s, s', pid, X, k)
  }

  lemma CutSame(s: Sys, s': Sys, pid: nat)
    requires s'.maps == s.maps
    ensures Cut(s, s', pid, iset{})
  {
    hide RegionAt, CutBy;
    forall k: Key
      ensures CutAt(s, s', pid, iset{}, k)
    {
      CutNone(RegionOf(s, k), k.1);
    }
  }

  lemma CutMore(s: Sys, s1: Sys, s2: Sys, pid: nat, X: iset<nat>, Y: iset<nat>)
    requires Cut(s, s1, pid, X) && Cut(s1, s2, pid, Y)
    ensures Cut(s, s2, pid, X + Y)
  {
    hide RegionOf;
    forall k: Key
      ensures CutAt(s, s2, pid, X + Y, k)
    {
      assert CutAt(s, s1, pid, X, k) && CutAt(s1, s2, pid, Y, k);
      if k.0 == pid && k.1 !in X && k.1 !in Y {
        CutTwice(RegionOf(s, k), RegionOf(s1, k), RegionOf(s2, k), k.1, X, Y);
      }
    }
  }

  /** The list after page v has been taken out. */
  function Without1(l: seq<Region>, v: nat): seq<Region> {
    var i := Find(l, v);
    if i == |l| then l
    else if l[i].start == v then Shrink(l, i)
    else Shrink(Split(l, i, v), 0)
  }

  lemma Without1At(l: seq<Region>, v: nat, u: nat)
    requires Disjoint(l)
    ensures u == v || RegionAt(l, u) == None ==> RegionAt(Without1(l, v), u) == None
    ensures u != v && RegionAt(l, u).Some? ==> RegionAt(Without1(l, v), u) == Some(Trimmed(RegionAt(l, u).value, v, u))
  {
    var i := Find(l, v);
    if i == |l| {
      if RegionAt(l, u).Some? && Covers(RegionAt(l, u).value, v) {
        HitLeHits(l, Find(l, u), v);
        FindHits(l, v);
      }
    } else if l[i].start == v {
      ShrinkAt(l, i, u);
    } else {
      SplitKeeps(l, i, v);
      SplitAt(l, i, v, u);
      hide Disjoint, Split, Shrink, RegionAt;
      ShrinkAt(Split(l, i, v), 0, u);
    }
  }

  lemma CutPageLists(s: Sys, pid: nat, v: nat)
    requires CutPage(s, pid, v).Some?
    ensures forall q: nat ::
              Maps(CutPage(s, pid, v).value, q) == if q == pid then Without1(Maps(s, pid), v) else Maps(s, q)
  {
    hide Shrink, Split;
  }

  lemma CutPageCuts(s: Sys, pid: nat, v: nat)
    requires Ok(s) && CutPage(s, pid, v).Some?
    ensures Cut(s, CutPage(s, pid, v).value, pid, iset{v})
  {
    var s', l := CutPage(s, pid, v).value, Maps(s, pid);
    assert Disjoint(l);
    CutPageLists(s, pid, v);
    hide Ok, CutPage, Without1, Disjoint, CutBy, RegionAt, Trimmed;
    forall k: Key
      ensures CutAt(s, s', pid, iset{v}, k)
    {
      if k.0 == pid {
        Without1At(l, v, k.1);
        if k.1 != v {
          if RegionOf(s, k).Some? {
            TrimmedIsCut(RegionOf(s, k).value, v, k.1);
          } else {
            CutNothing(k.1, iset{v});
          }
        }
      }
    }
  }

  lemma CutNothing(u: nat, X: iset<nat>)
    ensures CutBy(None, None, u, X)
  {
  }

  /** If page k is in a region of a file, the region has no other page. */
  predicate SinglePage(s: Sys, k: Key) {
    RegionOf(s, k).Some? && RegionOf(s, k).value.file.Inode? ==> RegionOf(s, k).value.len == 1
  }

  lemma SameRegion(l: seq<Region>, u: nat, v: nat)
    requires Disjoint(l) && RegionAt(l, u).Some? && Covers(RegionAt(l, u).value, v)
    ensures RegionAt(l, v) == RegionAt(l, u)
  {
    assert Hits(l, v) <= 1;
    FindOnly(l, Find(l, u), v);
  }

  // Cutting page v is unmapping it by the region that it is in, and the list without it.
  lemma CutPageIs(s: Sys, pid: nat, v: nat, r: Region)
    requires RegionOf(s, (pid, v)) == Some(r) && (r.file.Inode? ==> r.start == v)
    requires Counted(s, (pid, v)) && !UnmapFails(s, (pid, v), r)
    ensures CutPage(s, pid, v) == Some(SetMaps(Dropped(s, (pid, v), r), pid, Without1(Maps(s, pid), v)))
  {
    hide Shrink;
  }

  lemma Apart(s: Sys, pid: nat, v: nat, u: nat)
    requires Ok(s) && Sound(s) && SinglePage(s, (pid, v)) && (pid, u) in s.ptes && u != v
    requires s.ptes[(pid, u)].phys < |s.use| && s.use[s.ptes[(pid, u)].phys] == Cache
    ensures RegionAt(Without1(Maps(s, pid), v), u) == RegionOf(s, (pid, u))
  {
    assert Disjoint(Maps(s, pid));
    hide Ok, Sound, Disjoint, Without1;
    NamedAt(s, (pid, u));
    Without1At(Maps(s, pid), v, u);
    if Covers(RegionOf(s, (pid, u)).value, v) {
      SameRegion(Maps(s, pid), u, v);
    }
  }

  /** Taking out a page of memory or the only page of a region of a file keeps the references right. */
  lemma SoundCut(s: Sys, pid: nat, v: nat)
    requires Ok(s) && Sound(s) && SinglePage(s, (pid, v))
    ensures CutPage(s, pid, v).Some? && Sound(CutPage(s, pid, v).value)
  {
    var k, l := (pid, v), Maps(s, pid);
    if RegionOf(s, k) == None {
      assert CutPage(s, pid, v) == Some(s);
    } else {
      var r := RegionOf(s, k).value;
      hide Ok, Sound, CutPage, Dropped, Without1, UnmapFails;
      SoundUnmaps(s, k, r);
      CutPageIs(s, pid, v, r);
      var s1 := Dropped(s, k, r);
      DroppedKeeps(s, k, r);
      forall u: nat
        | (pid, u) in s1.ptes && s1.ptes[(pid, u)].phys < |s1.use| && s1.use[s1.ptes[(pid, u)].phys] == Cache
        ensures RegionAt(Without1(l, v), u) == RegionOf(s1, (pid, u))
      {
        UnmapsSame(s, k, r, (pid, u));
        Apart(s, pid, v, u);
      }
      SoundSetMaps(s1, pid, Without1(l, v));
    }
  }

  // ----- cutting a range

  predicate Between(a: nat, b: nat, w: nat) {
    a <= w < b
  }

  ghost function Span(a: nat, b: nat): iset<nat> {
    iset w: nat | Between(a, b, w)
  }

  /** Every region of a file that has a page from a up to b has no other page. */
  ghost predicate Singles(s: Sys, pid: nat, a: nat, b: nat) {
    forall v: nat | a <= v < b :: SinglePage(s, (pid, v))
  }

  lemma CutStart(s: Sys, pid: nat, a: nat)
    ensures CutPages(s, pid, a, 0) == Some(s) && Cut(s, s, pid, Span(a, a))
  {
    CutSame(s, s, pid);
    assert Span(a, a) == iset{};
  }

  lemma CutNext(s0: Sys, s: Sys, pid: nat, a: nat, n: nat)
    requires CutPages(s0, pid, a, n) == Some(s)
    ensures CutPages(s0, pid, a, n + 1) == CutPage(s, pid, a + n)
  {
    hide CutPage;
  }

  lemma {:induction false} CutStops(s: Sys, pid: nat, a: nat, m: nat, n: nat)
    requires CutPages(s, pid, a, m) == None && m <= n
    ensures CutPages(s, pid, a, n) == None
  {
    hide CutPage;
    if m < n {
      CutStops(s, pid, a, m, n - 1);
    }
  }

  lemma CutVacant(s: Sys, pid: nat, v: nat)
    requires RegionOf(s, (pid, v)) == None
    ensures CutPage(s, pid, v) == Some(s)
  {
  }

  lemma {:induction false} CutEmpty(s: Sys, pid: nat, a: nat, n: nat)
    requires forall v: nat | a <= v < a + n :: RegionOf(s, (pid, v)) == None
    ensures CutPages(s, pid, a, n) == Some(s)
  {
    hide CutPage, RegionOf;
    if n > 0 {
      CutEmpty(s, pid, a, n - 1);
      CutVacant(s, pid, a + n - 1);
    }
  }

  lemma SpanNext(s0: Sys, s: Sys, s': Sys, pid: nat, a: nat, v: nat)
    requires a <= v && Cut(s0, s, pid, Span(a, v)) && Cut(s, s', pid, iset{v})
    ensures Cut(s0, s', pid, Span(a, v + 1))
  {
    hide Cut;
    CutMore(s0, s, s', pid, Span(a, v), iset{v});
    assert Span(a, v) + iset{v} == Span(a, v + 1);
  }

  lemma SinglesLeft(s: Sys, s': Sys, pid: nat, v: nat, b: nat)
    requires Singles(s, pid, v, b) && Cut(s, s', pid, iset{v})
    ensures Singles(s', pid, v + 1, b)
  {
    hide RegionAt;
    forall u: nat | v + 1 <= u < b
      ensures SinglePage(s', (pid, u))
    {
      assert SinglePage(s, (pid, u)) && CutAt(s, s', pid, iset{v}, (pid, u));
    }
  }

  /** The region of page v has been split at v. */
  predicate SplitTo(s0: Sys, s: Sys, pid: nat, v: nat) {
    var l := Maps(s0, pid);
    var i := Find(l, v);
    i < |l| && l[i].start < v && s == SetMaps(s0, pid, Split(l, i, v)) && Find(Split(l, i, v), v) == 0
  }

  lemma CutSplit(s0: Sys, s: Sys, pid: nat, v: nat)
    requires s == s0 || SplitTo(s0, s, pid, v)
    requires var l := Maps(s, pid); Find(l, v) < |l| && l[Find(l, v)].start == v
    ensures CutFront(s, pid, Maps(s, pid), Find(Maps(s, pid), v)) == CutPage(s0, pid, v)
  {
    hide Shrink;
    if s != s0 {
      var l := Split(Maps(s0, pid), Find(Maps(s0, pid), v), v);
      assert Maps(s, pid) == l;
      FrontSame(s0, pid, l, 0);
    }
  }

  lemma FrontSame(s: Sys, pid: nat, l: seq<Region>, i: nat)
    requires i < |l| && l[i].len > 0
    ensures CutFront(SetMaps(s, pid, l), pid, l, i) == CutFront(s, pid, l, i)
  {
    hide Shrink, Unmap;
    var k, r := (pid, l[i].start), l[i];
    if Counted(s, k) && !UnmapFails(s, k, r) {
      DroppedMaps(s, pid, l, k, r);
      hide Dropped;
      SetTwice(Dropped(s, k, r), pid, l, Shrink(l, i));
    }
  }

  // The region lists play no part in unmapping a page.
  lemma DroppedMaps(s: Sys, pid: nat, l: seq<Region>, k: Key, r: Region)
    requires Counted(s, k) && r.start <= k.1 && !UnmapFails(s, k, r)
    ensures var t := SetMaps(s, pid, l);
            Counted(t, k) && !UnmapFails(t, k, r) && Dropped(t, k, r) == SetMaps(Dropped(s, k, r), pid, l)
  {
  }

  lemma SetTwice(s: Sys, pid: nat, l: seq<Region>, l': seq<Region>)
    ensures SetMaps(SetMaps(s, pid, l), pid, l') == SetMaps(s, pid, l')
  {
    assert s.maps[pid := l][pid := l'] == s.maps[pid := l'];
  }

  // ----- putting a region in

  function Inserted(s: Sys, pid: nat, r: Region): Sys {
    SetMaps(s, pid, [r] + Maps(s, pid))
  }

  /** Region r is where it was to be, and the pages that it took have been cut out of the other regions. */
  ghost predicate Placed(s: Sys, s': Sys, pid: nat, r: Region) {
    forall k: Key ::
      if k.0 == pid && Covers(r, k.1) then RegionOf(s', k) == Some(r)
      else CutAt(s, s', pid, Span(r.start, r.start + r.len), k)
  }

  lemma InsertPlaced(s0: Sys, s: Sys, pid: nat, r: Region)
    requires Ok(s) && Cut(s0, s, pid, Span(r.start, r.start + r.len))
    requires forall v: nat | Covers(r, v) :: At(s, (pid, v)) == None
    ensures Placed(s0, Inserted(s, pid, r), pid, r)
  {
    var l := Maps(s, pid);
    assert Disjoint(l);
    assert forall v: nat | Covers(r, v) :: At(s, (pid, v)) == AttrAt(l, v);
    InsertKeeps(l, r);
    hide Ok, RegionAt, AttrAt, Disjoint, CutBy;
    var s' := Inserted(s, pid, r);
    forall k: Key
      ensures if k.0 == pid && Covers(r, k.1) then RegionOf(s', k) == Some(r)
              else CutAt(s0, s', pid, Span(r.start, r.start + r.len), k)
    {
      assert CutAt(s0, s, pid, Span(r.start, r.start + r.len), k);
      assert RegionOf(s', k) == if k.0 == pid && Covers(r, k.1) then Some(r) else RegionOf(s, k);
    }
  }

  lemma InsertSound(s: Sys, pid: nat, r: Region)
    requires Ok(s) && Sound(s) && forall v: nat | Covers(r, v) :: At(s, (pid, v)) == None
    ensures Sound(Inserted(s, pid, r))
  {
    var l := Maps(s, pid);
    assert Disjoint(l);
    assert forall v: nat | Covers(r, v) :: At(s, (pid, v)) == AttrAt(l, v);
    InsertKeeps(l, r);
    hide Ok, RegionAt, AttrAt, Disjoint, Sound;
    forall v: nat | (pid, v) in s.ptes
      ensures RegionAt([r] + l, v) == RegionOf(s, (pid, v))
    {
      PteAt(s, (pid, v));
    }
    SoundSetMaps(s, pid, [r] + l);
  }

  // ----- mapping over a file region

  /** How many pages from a on have the last entry of a cached frame. */
  function Lasts(s: Sys, pid: nat, a: nat, n: nat): nat {
    if n == 0 then 0 else Lasts(s, pid, a, n - 1) + if LastEntry(s, (pid, a + n - 1)) then 1 else 0
  }

  /** The region after its first n pages have been cut off. */
  function CutShort(l: seq<Region>, i: nat, n: nat): seq<Region>
    requires i < |l| && n <= l[i].len
  {
    if n < l[i].len then l[i := l[i].(start := l[i].start + n, len := l[i].len - n)] else l[..i] + l[i + 1..]
  }

  /** Page k is mapped as it was, and so is its frame if it is cached. */
  predicate Awaits(s: Sys, s': Sys, k: Key) {
    (k in s'.ptes <==> k in s.ptes) &&
    (k in s.ptes ==>
       s'.ptes[k] == s.ptes[k] && s.ptes[k].phys < |s.frames| == |s'.frames| &&
       s'.frames[s.ptes[k].phys].persist == s.frames[s.ptes[k].phys].persist &&
       (s.frames[s.ptes[k].phys].persist ==> s'.frames[s.ptes[k].phys] == s.frames[s.ptes[k].phys]))
  }

  /** n pages of region i have been cut off; `left` references to its first page are left. */
  ghost predicate Progress(s: Sys, s': Sys, pid: nat, i: nat, n: nat, left: int) {
    var l := Maps(s, pid);
    i < |l| && n <= l[i].len && l[i].file.Inode? && Ok(s') && s'.cache == s.cache &&
    Maps(s', pid) == CutShort(l, i, n) &&
    Pin(s', Named(l[i], l[i].start)) == left &&
    forall v: nat | l[i].start + n <= v < l[i].start + l[i].len :: Awaits(s, s', (pid, v))
  }

  /** Region i is of a file, and its pages are on the frames that it names. */
  ghost predicate FileRegion(s: Sys, pid: nat, i: nat) {
    var l := Maps(s, pid);
    Ok(s) && i < |l| && l[i].len > 0 && l[i].file.Inode? &&
    forall v: nat | Covers(l[i], v) && (pid, v) in s.ptes :: NamedRight(s, (pid, v))
  }

  lemma MapsDisjoint(s: Sys, pid: nat)
    requires Ok(s)
    ensures Disjoint(Maps(s, pid))
  {
    hide FrameOk, PteOk, CacheOk;
  }

  // Two cached pages are not on one frame.
  lemma OneName(s: Sys, c: Key, d: Key)
    requires Ok(s)
    ensures c in s.cache && d in s.cache && s.cache[c] == s.cache[d] ==> c == d
  {
    hide Ok;
    if c in s.cache && d in s.cache {
      OneOf(s, c, d);
    }
  }

  // Two pages of the region are not on one cached frame.
  lemma OwnFrames(s: Sys, pid: nat, i: nat, u: nat, v: nat)
    requires FileRegion(s, pid, i) && var r := Maps(s, pid)[i]; Covers(r, u) && Covers(r, v)
    requires u != v && (pid, u) in s.ptes && (pid, v) in s.ptes
    ensures s.ptes[(pid, u)].phys == s.ptes[(pid, v)].phys < |s.frames| ==> !s.frames[s.ptes[(pid, u)].phys].persist
  {
    var l := Maps(s, pid);
    assert Disjoint(l);
    assert NamedRight(s, (pid, u)) && NamedRight(s, (pid, v));
    assert Hits(l, u) <= 1 && Hits(l, v) <= 1;
    FindOnly(l, i, u);
    FindOnly(l, i, v);
    hide Ok, Refs;
    PteAt(s, (pid, u));
    OneName(s, Named(l[i], u), Named(l[i], v));
  }

  lemma NextFront(s: Sys, s': Sys, pid: nat, i: nat, n: nat, left: int)
    requires FileRegion(s, pid, i) && Progress(s, s', pid, i, n, left) && n < Maps(s, pid)[i].len
    ensures var r := Maps(s, pid)[i];
            var r' := r.(start := r.start + n, len := r.len - n);
            var k := (pid, r.start + n);
            var l' := Maps(s', pid);
            l' == Maps(s, pid)[i := r'] && CutPage(s', pid, r.start + n) == CutFront(s', pid, l', i) &&
            Counted(s', k) &&
            Named(r', r.start + n) == Named(r, r.start) && LastEntry(s', k) == LastEntry(s, k)
  {
    hide Ok, CutFront, Counted, Dropped, NamedRight, Pin, Shrink;
    var r := Maps(s, pid)[i];
    var v, l' := r.start + n, Maps(s', pid);
    MapsDisjoint(s', pid);
    assert Hits(l', v) <= 1;
    FindOnly(l', i, v);
    assert Awaits(s, s', (pid, v));
    UnmapKeeps(s', (pid, v));
  }

  lemma CutPrefixStep(s: Sys, s': Sys, pid: nat, i: nat, n: nat, left: int)
    requires FileRegion(s, pid, i) && Progress(s, s', pid, i, n, left) && n < Maps(s, pid)[i].len
    ensures var k := (pid, Maps(s, pid)[i].start + n);
            var o := CutPage(s', pid, k.1);
            (o.Some? <==> !(LastEntry(s, k) && left == 0)) &&
            (o.Some? ==> Progress(s, o.value, pid, i, n + 1, left - if LastEntry(s, k) then 1 else 0))
  {
    hide Ok, NamedRight, CutPage, Dropped, LastEntry, Pin, Awaits, Shrink, CutShort;
    NextFront(s, s', pid, i, n, left);
    var r := Maps(s, pid)[i];
    var k, r' := (pid, r.start + n), r.(start := r.start + n, len := r.len - n);
    if !UnmapFails(s', k, r') {
      FrontProgress(s, s', pid, i, n, left, k, r');
    }
  }

  lemma FrontProgress(s: Sys, s': Sys, pid: nat, i: nat, n: nat, left: int, k: Key, r': Region)
    requires FileRegion(s, pid, i) && Progress(s, s', pid, i, n, left) && n < Maps(s, pid)[i].len
    requires var r := Maps(s, pid)[i]; r' == r.(start := r.start + n, len := r.len - n) && k == (pid, r.start + n)
    requires Maps(s', pid) == Maps(s, pid)[i := r'] && Counted(s', k) && !UnmapFails(s', k, r')
    ensures Progress(s, SetMaps(Dropped(s', k, r'), pid, Shrink(Maps(s', pid), i)), pid, i, n + 1,
                     left - if LastEntry(s', k) then 1 else 0)
  {
    hide Ok, NamedRight, Dropped, LastEntry, UnmapFails, Pin, Awaits, Shrink, CutShort;
    var l := Maps(s, pid);
    var r, s1 := l[i], Dropped(s', k, r');
    DroppedKeeps(s', k, r');
    ShrinkKeepsOk(s1, pid, i);
    ShortNext(l, i, n);
    var s2 := SetMaps(s1, pid, Shrink(Maps(s', pid), i));
    FrontPins(s', pid, k, r', Shrink(Maps(s', pid), i));
    forall v: nat | r.start + n + 1 <= v < r.start + r.len
      ensures Awaits(s, s2, (pid, v))
    {
      assert Awaits(s, s', (pid, v)) && Awaits(s, s', k);
      AwaitsNext(s, s', pid, i, k, r', v);
      AwaitsMaps(s, s1, pid, Shrink(Maps(s', pid), i), (pid, v));
    }
  }

  lemma FrontPins(s: Sys, pid: nat, k: Key, r: Region, l: seq<Region>)
    requires Counted(s, k) && r.file.Inode? && r.start == k.1 && !UnmapFails(s, k, r)
    ensures var s' := SetMaps(Dropped(s, k, r), pid, l);
            s'.cache == s.cache &&
            Pin(s', Named(r, k.1)) == Pin(s, Named(r, k.1)) - if LastEntry(s, k) then 1 else 0
  {
  }

  lemma AwaitsMaps(s: Sys, s': Sys, pid: nat, l: seq<Region>, k: Key)
    requires Awaits(s, s', k)
    ensures Awaits(s, SetMaps(s', pid, l), k)
  {
  }

  lemma ShortNext(l: seq<Region>, i: nat, n: nat)
    requires i < |l| && n < l[i].len
    ensures Shrink(l[i := l[i].(start := l[i].start + n, len := l[i].len - n)], i) == CutShort(l, i, n + 1)
  {
    var l' := l[i := l[i].(start := l[i].start + n, len := l[i].len - n)];
    assert l'[..i] == l[..i] && l'[i + 1..] == l[i + 1..];
  }

  lemma ShrinkKeepsOk(s: Sys, pid: nat, i: nat)
    requires Ok(s) && var l := Maps(s, pid); i < |l| && l[i].len > 0 && (pid, l[i].start) !in s.ptes
    ensures Ok(SetMaps(s, pid, Shrink(Maps(s, pid), i)))
  {
    var l := Maps(s, pid);
    assert Disjoint(l);
    ShrinkRemoves(l, i);
    hide Ok, Disjoint, Shrink, AttrAt;
    SetMapsKeeps(s, pid, Shrink(l, i));
  }

  lemma AwaitsNext(s: Sys, s': Sys, pid: nat, i: nat, k: Key, r: Region, v: nat)
    requires FileRegion(s, pid, i) && Ok(s') && Counted(s', k) && r.start <= k.1 && !UnmapFails(s', k, r)
    requires k.0 == pid && Covers(Maps(s, pid)[i], k.1) && Covers(Maps(s, pid)[i], v) && v != k.1
    requires Awaits(s, s', k) && Awaits(s, s', (pid, v))
    ensures Awaits(s, Dropped(s', k, r), (pid, v))
  {
    hide Ok, UnmapFails, LastEntry;
    if (pid, v) in s.ptes && k in s.ptes {
      assert k == (pid, k.1);
      hide FileRegion;
      OwnFrames(s, pid, i, v, k.1);
    }
  }

  lemma {:induction false} CutPrefix(s: Sys, pid: nat, i: nat, n: nat)
    requires FileRegion(s, pid, i) && n <= Maps(s, pid)[i].len
    ensures var r := Maps(s, pid)[i];
            var o := CutPages(s, pid, r.start, n);
            var left := Pin(s, Named(r, r.start)) - Lasts(s, pid, r.start, n);
            (o.Some? <==> left >= 0) && (o.Some? ==> Progress(s, o.value, pid, i, n, left))
  {
    hide Ok, NamedRight, CutPage, LastEntry, Pin, Progress;
    var r := Maps(s, pid)[i];
    if n == 0 {
      ProgressStart(s, pid, i);
    } else {
      CutPrefix(s, pid, i, n - 1);
      var o := CutPages(s, pid, r.start, n - 1);
      if o.Some? {
        CutPrefixStep(s, o.value, pid, i, n - 1, Pin(s, Named(r, r.start)) - Lasts(s, pid, r.start, n - 1));
      }
    }
  }

  lemma ProgressStart(s: Sys, pid: nat, i: nat)
    requires FileRegion(s, pid, i)
    ensures var r := Maps(s, pid)[i]; Progress(s, s, pid, i, 0, Pin(s, Named(r, r.start)))
  {
    var l := Maps(s, pid);
    assert Ok(s);
    hide Ok, NamedRight;
    assert l[i := l[i].(start := l[i].start + 0, len := l[i].len - 0)] == l;
    forall v: nat | l[i].start <= v < l[i].start + l[i].len
      ensures Awaits(s, s, (pid, v))
    {
      if (pid, v) in s.ptes {
        PteAt(s, (pid, v));
      }
    }
  }

  /**
    Mapping over a whole region of a file panics exactly if more of its pages have the last entry of their frame than
    there are references to the first page.
  */
  lemma CutExactly(s: Sys, pid: nat, i: nat)
    requires FileRegion(s, pid, i)
    ensures var r := Maps(s, pid)[i];
            CutPages(s, pid, r.start, r.len) == None <==> Lasts(s, pid, r.start, r.len) > Pin(s, Named(r, r.start))
  {
    hide Ok, NamedRight, Progress, CutPages, Lasts, Pin;
    CutPrefix(s, pid, i, Maps(s, pid)[i].len);
  }

  // ----- when a region that goes as a whole makes the kernel fail

  /** n pages of region i have gone; the others are as they were, and so are the references to what they name. */
  ghost predicate Leaving(s: Sys, t: Sys, pid: nat, i: nat, n: nat) {
    var l := Maps(s, pid);
    i < |l| && n <= l[i].len && l[i].file.Inode? && Ok(t) &&
    forall v: nat | l[i].start + n <= v < l[i].start + l[i].len ::
      Awaits(s, t, (pid, v)) && Pin(t, Named(l[i], v)) == Pin(s, Named(l[i], v))
  }

  /** Page v has the last entry of its frame, and the page that its region names has no reference. */
  predicate Bare(s: Sys, pid: nat, r: Region, v: nat) {
    r.file.Inode? && r.start <= v && UnmapFails(s, (pid, v), r)
  }

  lemma LeavingStart(s: Sys, pid: nat, i: nat)
    requires FileRegion(s, pid, i)
    ensures Leaving(s, s, pid, i, 0)
  {
    hide Ok, NamedRight, Pin;
    forall v: nat | Covers(Maps(s, pid)[i], v)
      ensures Awaits(s, s, (pid, v))
    {
      if (pid, v) in s.ptes {
        PteAt(s, (pid, v));
      }
    }
  }

  ghost predicate LeavesNext(s: Sys, t: Sys, pid: nat, i: nat, n: nat) {
    i < |Maps(s, pid)| &&
    var r := Maps(s, pid)[i];
    var k := (pid, r.start + n);
    Counted(t, k) && (UnmapFails(t, k, r) <==> Bare(s, pid, r, k.1)) &&
    (!UnmapFails(t, k, r) ==> Leaving(s, Dropped(t, k, r), pid, i, n + 1))
  }

  lemma LeavingStep(s: Sys, t: Sys, pid: nat, i: nat, n: nat)
    requires FileRegion(s, pid, i) && Leaving(s, t, pid, i, n) && n < Maps(s, pid)[i].len
    ensures LeavesNext(s, t, pid, i, n)
  {
    hide Ok, NamedRight, Dropped;
    var r := Maps(s, pid)[i];
    var k := (pid, r.start + n);
    assert Awaits(s, t, k);
    UnmapKeeps(t, k);
    if !UnmapFails(t, k, r) {
      DroppedKeeps(t, k, r);
      forall v: nat | r.start + n + 1 <= v < r.start + r.len
        ensures Awaits(s, Dropped(t, k, r), (pid, v)) && Pin(Dropped(t, k, r), Named(r, v)) == Pin(s, Named(r, v))
      {
        assert Awaits(s, t, (pid, v)) && Pin(t, Named(r, v)) == Pin(s, Named(r, v));
        AwaitsNext(s, t, pid, i, k, r, v);
        DroppedPin(t, k, r, Named(r, v));
      }
    }
  }

  // The references of other pages stay.
  lemma DroppedPin(s: Sys, k: Key, r: Region, c: Key)
    requires Counted(s, k) && r.start <= k.1 && !UnmapFails(s, k, r) && (r.file.Inode? ==> Named(r, k.1) != c)
    ensures Pin(Dropped(s, k, r), c) == Pin(s, c)
  {
  }

  ghost predicate NoneBare(s: Sys, pid: nat, r: Region, n: nat) {
    forall v: nat | r.start <= v < r.start + n :: !Bare(s, pid, r, v)
  }

  lemma NoneBareNext(s: Sys, pid: nat, r: Region, n: nat)
    ensures NoneBare(s, pid, r, n + 1) <==> NoneBare(s, pid, r, n) && !Bare(s, pid, r, r.start + n)
  {
    hide Bare;
  }

  lemma {:induction false} DropPrefix(s: Sys, pid: nat, i: nat, n: nat)
    requires FileRegion(s, pid, i) && n <= Maps(s, pid)[i].len
    ensures var o := DropPages(s, pid, Maps(s, pid)[i], n);
            (o.Some? <==> NoneBare(s, pid, Maps(s, pid)[i], n)) && (o.Some? ==> Leaving(s, o.value, pid, i, n))
  {
    hide Ok, FileRegion, Leaving, Bare, NoneBare, UnmapFails, Dropped, Counted, DropPages;
    FileRegionAt(s, pid, i);
    var r := Maps(s, pid)[i];
    if n == 0 {
      LeavingStart(s, pid, i);
      DropsStart(s, pid, r);
      NoneYet(s, pid, r);
    } else {
      DropPrefix(s, pid, i, n - 1);
      NoneBareNext(s, pid, r, n - 1);
      var o := DropPages(s, pid, r, n - 1);
      if o.Some? {
        LeavingStep(s, o.value, pid, i, n - 1);
        DropsNext(s, o.value, pid, r, n - 1);
      } else {
        DropsStop(s, pid, r, n - 1, n);
      }
    }
  }

  lemma FileRegionAt(s: Sys, pid: nat, i: nat)
    requires FileRegion(s, pid, i)
    ensures i < |Maps(s, pid)| && Maps(s, pid)[i].file.Inode?
  {
    hide Ok, NamedRight;
  }

  lemma NoneYet(s: Sys, pid: nat, r: Region)
    ensures NoneBare(s, pid, r, 0)
  {
  }

  /**
    A region of a file that goes as a whole, as on exit, makes the kernel panic exactly if one of its pages has the last
    entry of its frame while its own reference is gone: only mapping over takes references from other pages.
  */
  lemma DropExactly(s: Sys, pid: nat, i: nat)
    requires FileRegion(s, pid, i)
    ensures var r := Maps(s, pid)[i];
            DropRegion(s, pid, i) == None <==> exists v: nat :: Covers(r, v) && Bare(s, pid, r, v)
  {
    hide NamedRight, Leaving, Bare, DropPages, Ok;
    DropPrefix(s, pid, i, Maps(s, pid)[i].len);
  }
}
