/**
  Runs in which mapping over a file makes the kernel fail.
*/
module FileMappings {

  import opened Common
  import opened Regions
  import opened CopyOnWrite
  import opened PageRefs
  import opened AddressSpaces

  /** Two pages of file 7, from its beginning. */
  const FILE := Region(0, 2, false, true, Inode(7), 0)

  /** Memory to be mapped over it. */
  const OVER := Region(0, 2, true, false, Zero, 0)

  // A frame that one page alone is on.
  lemma AloneOnce(s: Sys, k: Key, c: Key)
    requires Ok(s) && k in s.ptes && c in s.cache && s.ptes[k].phys == s.cache[c]
    requires forall j | j in s.ptes && j != k :: s.ptes[j].phys != s.cache[c]
    ensures LastEntry(s, k)
  {
    hide Ok;
    CacheUse(s, c);
    FrameAt(s, s.cache[c]);
    assert Mapping(s.ptes, s.cache[c]) == {k};
  }

  lemma IsFileRegion(s: Sys, pid: nat)
    requires Ok(s) && Sound(s) && Maps(s, pid) == [FILE]
    ensures FileRegion(s, pid, 0)
  {
    hide Ok, NamedRight;
  }

  /** Both pages of the file are touched by one process and by no other. */
  ghost predicate BothTouched(s: Sys) {
    Ok(s) && Sound(s) && Maps(s, 0) == [FILE] && s.ptes.Keys == {(0, 0), (0, 1)} && Pin(s, (7, 0)) == 1 &&
    (7, 0) in s.cache && (7, 1) in s.cache &&
    s.ptes[(0, 0)].phys == s.cache[(7, 0)] && s.ptes[(0, 1)].phys == s.cache[(7, 1)]
  }

  lemma BothFail(s: Sys)
    requires BothTouched(s)
    ensures CutPages(s, 0, 0, 2) == None
  {
    hide Ok, Sound;
    IsFileRegion(s, 0);
    OneOf(s, (7, 0), (7, 1));
    AloneOnce(s, (0, 0), (7, 0));
    AloneOnce(s, (0, 1), (7, 1));
    hide FileRegion, Pin, CutPages, LastEntry;
    CutExactly(s, 0, 0);
    assert Lasts(s, 0, 0, 1) == 1 && Lasts(s, 0, 0, 2) == 2;
  }

  // A load by a process that had not touched the page.
  lemma OneMore(s: Sys, s': Sys, k: Key)
    requires Touched(s, s', k) && k in s'.ptes && k !in s.ptes
    ensures s'.ptes.Keys == s.ptes.Keys + {k} && forall j | j in s.ptes :: s'.ptes[j].phys == s.ptes[j].phys
  {
    hide At, Data;
    forall j: Key
      ensures j != k ==> (j in s'.ptes <==> j in s.ptes) && (j in s.ptes ==> s'.ptes[j].phys == s.ptes[j].phys)
    {
      assert j != k ==> Phys(s', j) == Phys(s, j);
    }
  }

  lemma Vacant(s: Sys, pid: nat, r: Region)
    requires Maps(s, pid) == []
    ensures CutPages(s, pid, r.start, r.len) == Some(s) && Maps(Inserted(s, pid, r), pid) == [r]
    ensures forall q: nat | q != pid :: Maps(Inserted(s, pid, r), q) == Maps(s, q)
  {
    hide CutPages;
    CutEmpty(s, pid, r.start, r.len);
  }

  lemma SingleRegion(s: Sys, pid: nat, v: nat)
    requires Maps(s, pid) == [FILE] && v < 2
    ensures RegionOf(s, (pid, v)) == Some(FILE) && At(s, (pid, v)) == Some(AttrOf(FILE)) && Named(FILE, v) == (7, v)
  {
    assert Covers(FILE, v);
  }

  lemma VacantSingles(s: Sys, pid: nat, a: nat, b: nat)
    requires Maps(s, pid) == []
    ensures Singles(s, pid, a, b)
  {
  }

  // mmap in a process that has nothing mapped
  method MapFile(m: Memory, pid: nat)
    requires m.Valid() && Sound(m.S()) && Maps(m.S(), pid) == []
    modifies m
    ensures m.Valid() && Sound(m.S()) && m.S() == Inserted(old(m.S()), pid, FILE) && Maps(m.S(), pid) == [FILE]
    ensures forall q: nat | q != pid :: Maps(m.S(), q) == Maps(old(m.S()), q)
  {
    hide Ok, Own, AttrAt, RegionAt, Full, Sound, Mapped, Placed, CutPages, Singles;
    Vacant(m.S(), pid, FILE);
    VacantSingles(m.S(), pid, 0, 2);
    var ok := m.Setup(pid, FILE);
  }

  /** Page k has come to be mapped on the cached page c. */
  ghost predicate Joined(s: Sys, s': Sys, k: Key, c: Key) {
    s'.maps == s.maps && s'.ptes.Keys == s.ptes.Keys + {k} &&
    (forall j | j in s.ptes :: s'.ptes[j].phys == s.ptes[j].phys) &&
    Brought(s, s', k, c)
  }

  // a load from a page of the file
  method Touch(m: Memory, pid: nat, v: nat, contents: Page)
    requires m.Valid() && Sound(m.S()) && Maps(m.S(), pid) == [FILE] && v < 2 && (pid, v) !in m.ptes && |m.free| >= 3
    requires |contents| == PAGE
    modifies m
    ensures m.Valid() && Sound(m.S()) && Joined(old(m.S()), m.S(), (pid, v), (7, v)) && |old(m.free)| <= |m.free| + 2
  {
    hide Ok, Own, AttrAt, RegionAt, Full, Sound, Touched, Faulted, Pin;
    ghost var s := m.S();
    SingleRegion(s, pid, v);
    var r, b := m.Load(pid, v, 0, contents);
    OneMore(s, m.S(), (pid, v));
  }

  lemma TouchedBoth(s: Sys, s1: Sys, s2: Sys)
    requires Ok(s2) && Sound(s2) && s.ptes == map[] && s.cache == map[] && Maps(s, 0) == [FILE]
    requires Joined(s, s1, (0, 0), (7, 0)) && Joined(s1, s2, (0, 1), (7, 1))
    ensures BothTouched(s2)
  {
    hide Ok, Sound, Pin;
    NoPin(s, (7, 0));
  }

  /** A process maps two pages of a file, touches both, and maps over them: the kernel panics. */
  method MapOverPanics(contents: Page) returns (ok: bool)
    requires |contents| == PAGE
    ensures !ok
  {
    hide Ok, Own, AttrAt, RegionAt, Full, Sound, Mapped, Placed, CutPages, Pin, Singles, Joined, BothTouched;
    var m := new Memory(9);
    MapFile(m, 0);
    ghost var s := m.S();
    Touch(m, 0, 0, contents);
    ghost var s1 := m.S();
    JoinedIs(s, s1, (0, 0), (7, 0));
    Touch(m, 0, 1, contents);
    TouchedBoth(s, s1, m.S());
    BothFail(m.S());
    ok := m.Setup(0, OVER);
  }

  lemma JoinedIs(s: Sys, s': Sys, k: Key, c: Key)
    requires Joined(s, s', k, c)
    ensures s'.maps == s.maps && s'.ptes.Keys == s.ptes.Keys + {k}
  {
    hide Pin;
  }

  /** Process 1 has touched the first page of the file only, and process 0 the second only. */
  ghost predicate EachTouched(s: Sys) {
    Ok(s) && Sound(s) && Maps(s, 0) == Maps(s, 1) == [FILE] && s.ptes.Keys == {(1, 0), (0, 1)} &&
    Pin(s, (7, 0)) == 1 && (7, 0) in s.cache && (7, 1) in s.cache &&
    s.ptes[(1, 0)].phys == s.cache[(7, 0)] && s.ptes[(0, 1)].phys == s.cache[(7, 1)]
  }

  lemma TouchedEach(s: Sys, s1: Sys, s2: Sys)
    requires Ok(s2) && Sound(s2) && s.ptes == map[] && s.cache == map[] && Maps(s, 0) == Maps(s, 1) == [FILE]
    requires Joined(s, s1, (1, 0), (7, 0)) && Joined(s1, s2, (0, 1), (7, 1))
    ensures EachTouched(s2)
  {
    hide Ok, Sound, Pin;
    NoPin(s, (7, 0));
  }

  lemma EachFacts(s: Sys)
    requires EachTouched(s)
    ensures Maps(s, 0) == [FILE] && FileRegion(s, 0, 0) && Pin(s, (7, 0)) == 1
    ensures !LastEntry(s, (0, 0)) && LastEntry(s, (0, 1))
  {
    hide Ok, Sound, Pin, NamedRight;
    IsFileRegion(s, 0);
    hide FileRegion;
    OneOf(s, (7, 0), (7, 1));
    AloneOnce(s, (0, 1), (7, 1));
  }

  /** Mapping over the file in process 0 takes the reference of process 1 away. */
  lemma ReferenceGone(s: Sys)
    requires EachTouched(s)
    ensures CutPages(s, 0, 0, 2).Some?
    ensures var s' := CutPages(s, 0, 0, 2).value; s'.cache == s.cache && Pin(s', (7, 0)) == 0
  {
    hide EachTouched, FileRegion, Pin, CutPages, LastEntry, Progress;
    EachFacts(s);
    CutPrefix(s, 0, 0, 2);
    assert Lasts(s, 0, 0, 1) == 0 && Lasts(s, 0, 0, 2) == 1;
    ProgressIs(s, CutPages(s, 0, 0, 2).value, 0, 0, 2, 0);
  }

  lemma ProgressIs(s: Sys, s': Sys, pid: nat, i: nat, n: nat, left: int)
    requires Maps(s, pid) == [FILE] && i == 0 && Progress(s, s', pid, i, n, left)
    ensures s'.cache == s.cache && Pin(s', (7, 0)) == left
  {
    hide Ok, Pin, Awaits;
  }

  /** The first page of the file is mapped by process 1 alone, and has no reference. */
  ghost predicate Robbed(s: Sys) {
    Ok(s) && Maps(s, 1) == [FILE] && s.ptes.Keys == {(1, 0)} && Pin(s, (7, 0)) == 0 &&
    (7, 0) in s.cache && s.ptes[(1, 0)].phys == s.cache[(7, 0)]
  }

  // Which entries are left after mapping over the file.
  lemma OneLeft(s: Sys, s': Sys)
    requires EachTouched(s) && Mapped(s, s', 0, OVER)
    ensures s'.ptes.Keys == {(1, 0)} && s'.ptes[(1, 0)].phys == s.ptes[(1, 0)].phys
  {
    hide Ok, Sound, Pin, At, Own;
    forall k: Key
      ensures k in s'.ptes <==> k == (1, 0)
    {
      assert if k.0 == 0 && Covers(OVER, k.1) then New(s', k, AttrOf(OVER)) else Same(s, s', k);
    }
    assert Same(s, s', (1, 0));
  }

  lemma IsRobbed(s: Sys, s': Sys)
    requires EachTouched(s) && CutPages(s, 0, 0, 2).Some? && s' == Inserted(CutPages(s, 0, 0, 2).value, 0, OVER)
    requires Ok(s') && Mapped(s, s', 0, OVER)
    ensures Robbed(s')
  {
    OneLeft(s, s');
    ReferenceGone(s);
    hide Ok, Sound, CutPages, Mapped, Pin;
    PinKept(CutPages(s, 0, 0, 2).value, 0, OVER, (7, 0));
    OtherLists(s, 0, 0, 2, 1);
  }

  lemma {:induction false} OtherLists(s: Sys, pid: nat, a: nat, n: nat, q: nat)
    requires CutPages(s, pid, a, n).Some? && q != pid
    ensures Maps(CutPages(s, pid, a, n).value, q) == Maps(s, q)
  {
    hide CutPage;
    if n > 0 {
      OtherLists(s, pid, a, n - 1, q);
      CutPageLists(CutPages(s, pid, a, n - 1).value, pid, a + n - 1);
    }
  }

  // Two processes map two pages of a file, each touches one of them, and the one with the second page maps over both.
  method Rob(contents: Page) returns (m: Memory, mapped: bool)
    requires |contents| == PAGE
    ensures fresh(m) && m.Valid() && mapped && Robbed(m.S())
  {
    hide Ok, Own, AttrAt, RegionAt, Full, Sound, Mapped, Placed, CutPages, Pin, Singles, Joined, EachTouched, Robbed;
    m := new Memory(9);
    MapFile(m, 0);
    MapFile(m, 1);
    ghost var s := m.S();
    Touch(m, 1, 0, contents);
    ghost var s1 := m.S();
    JoinedIs(s, s1, (1, 0), (7, 0));
    Touch(m, 0, 1, contents);
    ghost var s2 := m.S();
    TouchedEach(s, s1, s2);
    ReferenceGone(s2);
    mapped := m.Setup(0, OVER);
    IsRobbed(s2, m.S());
  }

  lemma StillMapped(s: Sys)
    requires Robbed(s)
    ensures (7, 0) in s.cache && Pin(s, (7, 0)) == 0 && s.cache[(7, 0)] < |s.frames| &&
            s.frames[s.cache[(7, 0)]].count > 0
  {
    hide Ok, Refs, At, Pin;
    PteAt(s, (1, 0));
  }

  /**
    Two processes map two pages of a file; each touches one of them, and the one with the second page maps over both.
    The first page then has no reference, and when the cache drops it an assertion fails, as it is still mapped.
  */
  method EvictFails(contents: Page) returns (mapped: bool, dropped: bool)
    requires |contents| == PAGE
    ensures mapped && !dropped
  {
    hide Ok, Own, AttrAt, Full, Sound, Pin, Robbed;
    var m;
    m, mapped := Rob(contents);
    StillMapped(m.S());
    dropped := m.Evict((7, 0));
  }

  lemma RobbedRegion(s: Sys)
    requires Robbed(s)
    ensures Maps(s, 1) == [FILE] && FileRegion(s, 1, 0)
  {
    hide Ok, Pin, NamedRight;
    RobbedNamed(s);
    forall v: nat | (1, v) in s.ptes
      ensures v == 0
    {
      assert (1, v) in s.ptes.Keys;
    }
  }

  lemma RobbedNamed(s: Sys)
    requires Robbed(s)
    ensures NamedRight(s, (1, 0))
  {
    hide Ok, Pin, RegionOf, At, Named, AttrOf;
    SingleRegion(s, 1, 0);
    assert RegionOf(s, (1, 0)) == Some(FILE) && Named(FILE, 0) == (7, 0);
  }

  lemma RobbedBare(s: Sys)
    requires Robbed(s)
    ensures Bare(s, 1, FILE, 0)
  {
    hide Ok, Pin, LastEntry;
    AloneOnce(s, (1, 0), (7, 0));
  }

  lemma LeavesBare(s: Sys)
    requires Robbed(s)
    ensures DropAll(s, 1, 0, true) == None
  {
    hide Robbed, FileRegion, Bare, DropRegion;
    RobbedRegion(s);
    RobbedBare(s);
    assert Covers(FILE, 0);
    DropExactly(s, 1, 0);
  }

  /** In the same run the other process exits instead: the kernel panics. */
  method ExitPanics(contents: Page) returns (mapped: bool, left: bool)
    requires |contents| == PAGE
    ensures mapped && !left
  {
    hide Ok, Own, AttrAt, Full, Sound, Pin, Robbed, DropAll, SameOrGone, Spared;
    var m;
    m, mapped := Rob(contents);
    LeavesBare(m.S());
    left := m.RemoveAll(1, true);
  }

  lemma PinKept(s: Sys, pid: nat, r: Region, c: Key)
    ensures Inserted(s, pid, r).cache == s.cache && Pin(Inserted(s, pid, r), c) == Pin(s, c)
  {
  }

  lemma NoPin(s: Sys, c: Key)
    requires s.cache == map[]
    ensures Pin(s, c) == 0
  {
  }
}
