/**
  A process's list of mapped regions, in pages.  Regions are found by a scan from the head of the list,
  shortened from the front one page at a time, split in two, and inserted at the head.
*/
module Regions {

  import opened Common

  /** What backs a region: zero-filled memory, or the pages of an inode. */
  datatype File = Zero | Inode(ino: nat)

  datatype Region = Region(start: nat, len: nat, write: bool, shared: bool, file: File, nodepage: nat)

  /** What a region says about each of its pages. */
  datatype Attr = Attr(write: bool, shared: bool, file: File)

  predicate Covers(r: Region, v: nat) {
    r.start <= v < r.start + r.len
  }

  function AttrOf(r: Region): Attr {
    Attr(r.write, r.shared, r.file)
  }

  // __find_region: the position of the first region that covers v, or the length of the list
  function Find(l: seq<Region>, v: nat): (i: nat)
    ensures i <= |l| && (i < |l| ==> Covers(l[i], v))
  {
    if l == [] || Covers(l[0], v) then 0 else 1 + Find(l[1..], v)
  }

  /** The region that page v is in. */
  function RegionAt(l: seq<Region>, v: nat): (r: Option<Region>)
    ensures r.Some? ==> Covers(r.value, v)
  {
    var i := Find(l, v);
    if i < |l| then Some(l[i]) else None
  }

  /** What the list says about page v. */
  function AttrAt(l: seq<Region>, v: nat): Option<Attr> {
    var r := RegionAt(l, v);
    if r.Some? then Some(AttrOf(r.value)) else None
  }

  function Hit(r: Region, v: nat): nat {
    if Covers(r, v) then 1 else 0
  }

  /** Number of regions that cover v. */
  function Hits(l: seq<Region>, v: nat): nat {
    if l == [] then 0 else Hit(l[0], v) + Hits(l[1..], v)
  }

  /** No page is in two regions. */
  ghost predicate Disjoint(l: seq<Region>) {
    forall v: nat :: Hits(l, v) <= 1
  }

  lemma {:induction false} FindHits(l: seq<Region>, v: nat)
    ensures Find(l, v) < |l| <==> Hits(l, v) > 0
  {
    if l != [] && !Covers(l[0], v) {
      FindHits(l[1..], v);
    }
  }

  lemma {:induction false} HitLeHits(l: seq<Region>, i: nat, v: nat)
    requires i < |l|
    ensures Hit(l[i], v) <= Hits(l, v)
  {
    if i > 0 {
      HitLeHits(l[1..], i - 1, v);
    }
  }

  /** In a disjoint list a region that covers v is the one that is found. */
  lemma {:induction false} FindOnly(l: seq<Region>, i: nat, v: nat)
    requires i < |l| && Covers(l[i], v) && Hits(l, v) <= 1
    ensures Find(l, v) == i
  {
    if i > 0 {
      HitLeHits(l[1..], i - 1, v);
      FindOnly(l[1..], i - 1, v);
    }
  }

  lemma {:induction false} HitsSet(l: seq<Region>, i: nat, r: Region, v: nat)
    requires i < |l|
    ensures Hits(l[i := r], v) == Hits(l, v) - Hit(l[i], v) + Hit(r, v)
  {
    if i > 0 {
      assert l[i := r][1..] == l[1..][i - 1 := r];
      HitsSet(l[1..], i - 1, r, v);
    }
  }

  lemma {:induction false} HitsDrop(l: seq<Region>, i: nat, v: nat)
    requires i < |l|
    ensures Hits(l[..i] + l[i + 1..], v) == Hits(l, v) - Hit(l[i], v)
  {
    if i == 0 {
      assert l[..i] + l[i + 1..] == l[1..];
    } else {
      assert (l[..i] + l[i + 1..])[1..] == l[1..][..i - 1] + l[1..][i..];
      HitsDrop(l[1..], i - 1, v);
    }
  }

  /** Changing one region changes what the list says only where the region covers or covered. */
  lemma {:induction false} FindSet(l: seq<Region>, i: nat, r: Region, v: nat)
    requires i < |l| && Hits(l, v) <= 1 && Hits(l[i := r], v) <= 1
    ensures RegionAt(l[i := r], v) == if Covers(r, v) then Some(r)
                                      else if Covers(l[i], v) then None else RegionAt(l, v)
  {
    HitsSet(l, i, r, v);
    FindHits(l[i := r], v);
    FindHits(l, v);
    if Covers(r, v) {
      FindOnly(l[i := r], i, v);
    } else if !Covers(l[i], v) && Hits(l, v) == 1 {
      var j := Find(l, v);
      FindOnly(l[i := r], j, v);
    }
  }

  lemma {:induction false} FindDrop(l: seq<Region>, i: nat, v: nat)
    requires i < |l| && Hits(l, v) <= 1
    ensures RegionAt(l[..i] + l[i + 1..], v) == if Covers(l[i], v) then None else RegionAt(l, v)
  {
    var m := l[..i] + l[i + 1..];
    HitsDrop(l, i, v);
    FindHits(m, v);
    FindHits(l, v);
    if !Covers(l[i], v) && Hits(l, v) == 1 {
      var j := Find(l, v);
      FindOnly(m, if j < i then j else j - 1, v);
    }
  }

  /** __split_region: the found region keeps its first pages, the rest becomes a new region at the head. */
  function Split(l: seq<Region>, i: nat, v: nat): seq<Region>
    requires i < |l| && l[i].start < v < l[i].start + l[i].len
  {
    var r := l[i];
    [r.(start := v, len := r.start + r.len - v)] + l[i := r.(len := v - r.start)]
  }

  /** The part of region r with page u, when it has been split at v. */
  function Parted(r: Region, v: nat, u: nat): Region {
    if !(r.start < v < r.start + r.len) then r
    else if u < v then r.(len := v - r.start)
    else r.(start := v, len := r.start + r.len - v)
  }

  /** Splitting changes nothing that the list says, and the page is then the first of its region. */
  lemma SplitKeeps(l: seq<Region>, i: nat, v: nat)
    requires Disjoint(l) && i < |l| && l[i].start < v < l[i].start + l[i].len
    ensures Disjoint(Split(l, i, v)) && forall u: nat :: AttrAt(Split(l, i, v), u) == AttrAt(l, u)
    ensures Find(Split(l, i, v), v) == 0 && Split(l, i, v)[0].start == v
  {
    var m := Split(l, i, v);
    forall u: nat
      ensures Hits(m, u) <= 1 && AttrAt(m, u) == AttrAt(l, u)
    {
      SplitAt(l, i, v, u);
    }
  }

  lemma SplitAt(l: seq<Region>, i: nat, v: nat, u: nat)
    requires Disjoint(l) && i < |l| && l[i].start < v < l[i].start + l[i].len
    ensures Hits(Split(l, i, v), u) <= 1
    ensures RegionAt(l, u) == None ==> RegionAt(Split(l, i, v), u) == None
    ensures RegionAt(l, u).Some? ==> RegionAt(Split(l, i, v), u) == Some(Parted(RegionAt(l, u).value, v, u))
  {
    var r := l[i].(len := v - l[i].start);
    assert Hits(l, u) <= 1 && Hits(l, v) <= 1;
    HitsSet(l, i, r, u);
    FindSet(l, i, r, u);
    assert Split(l, i, v)[1..] == l[i := r];
    FindOnly(l, i, v);
    if Covers(l[i], u) {
      FindOnly(l, i, u);
    } else if RegionAt(l, u).Some? && Covers(RegionAt(l, u).value, v) {
      FindOnly(l, Find(l, u), v);
    }
  }

  /** The first page of a region goes; a region left without pages goes with it. */
  function Shrink(l: seq<Region>, i: nat): seq<Region>
    requires i < |l| && l[i].len > 0
  {
    if l[i].len == 1 then l[..i] + l[i + 1..] else l[i := l[i].(start := l[i].start + 1, len := l[i].len - 1)]
  }

  lemma ShrinkRemoves(l: seq<Region>, i: nat)
    requires Disjoint(l) && i < |l| && l[i].len > 0
    ensures Disjoint(Shrink(l, i))
    ensures forall u: nat :: AttrAt(Shrink(l, i), u) == if u == l[i].start then None else AttrAt(l, u)
  {
    var m, v := Shrink(l, i), l[i].start;
    forall u: nat
      ensures Hits(m, u) <= 1 && AttrAt(m, u) == if u == v then None else AttrAt(l, u)
    {
      ShrinkAt(l, i, u);
    }
  }

  /** What is left of region r around page u, when page v has been taken out of it. */
  function Trimmed(r: Region, v: nat, u: nat): Region {
    if !Covers(r, v) then r
    else if u < v then r.(len := v - r.start)
    else r.(start := v + 1, len := r.start + r.len - v - 1)
  }

  lemma ShrinkAt(l: seq<Region>, i: nat, u: nat)
    requires Disjoint(l) && i < |l| && l[i].len > 0
    ensures Hits(Shrink(l, i), u) <= 1
    ensures u == l[i].start || RegionAt(l, u) == None ==> RegionAt(Shrink(l, i), u) == None
    ensures u != l[i].start && RegionAt(l, u).Some? ==>
              RegionAt(Shrink(l, i), u) == Some(Trimmed(RegionAt(l, u).value, l[i].start, u))
  {
    var v := l[i].start;
    assert Hits(l, u) <= 1 && Hits(l, v) <= 1;
    if Covers(l[i], u) {
      FindOnly(l, i, u);
    } else if RegionAt(l, u).Some? && Covers(RegionAt(l, u).value, v) {
      FindOnly(l, i, v);
      FindOnly(l, Find(l, u), v);
    }
    if l[i].len == 1 {
      HitsDrop(l, i, u);
      FindDrop(l, i, u);
    } else {
      var r := l[i].(start := l[i].start + 1, len := l[i].len - 1);
      HitsSet(l, i, r, u);
      FindSet(l, i, r, u);
    }
  }

  // ----- what cutting pages out does to the regions of the others

  /**
    Page u was in region o and is in region o' after the pages X have been taken out of the list: the region begins
    where it did exactly if no page from there to u has gone, and is as it was if none of its pages has gone.
  */
  ghost predicate CutBy(o: Option<Region>, o': Option<Region>, u: nat, X: iset<nat>) {
    if o == None then o' == None
    else
      o'.Some? &&
      var r, r' := o.value, o'.value;
      r'.(start := r.start, len := r.len) == r && r.start <= r'.start &&
      (r'.start == r.start <==> forall w | r.start <= w <= u :: w !in X) &&
      ((forall w | r.start <= w < r.start + r.len :: w !in X) ==> r' == r)
  }

  lemma CutNone(o: Option<Region>, u: nat)
    ensures CutBy(o, o, u, iset{})
  {
  }

  lemma CutTwice(o: Option<Region>, o1: Option<Region>, o2: Option<Region>, u: nat, X: iset<nat>, Y: iset<nat>)
    requires CutBy(o, o1, u, X) && CutBy(o1, o2, u, Y)
    ensures CutBy(o, o2, u, X + Y)
  {
    if o.Some? {
      var r, r1 := o.value, o1.value;
      assert forall w | r.start <= w <= u :: w in X + Y <==> w in X || w in Y;
      if r1.start == r.start {
        assert forall w | r.start <= w <= u :: w !in X;
      }
    }
  }

  lemma TrimmedIsCut(r: Region, v: nat, u: nat)
    requires Covers(r, u) && u != v
    ensures CutBy(Some(r), Some(Trimmed(r, v, u)), u, iset{v})
  {
    if Covers(r, v) && v < u {
      assert v in iset{v};
    }
  }

  /** A region is inserted where the list says nothing. */
  lemma InsertKeeps(l: seq<Region>, r: Region)
    requires Disjoint(l) && forall u: nat | Covers(r, u) :: AttrAt(l, u) == None
    ensures Disjoint([r] + l)
    ensures forall u: nat :: RegionAt([r] + l, u) == if Covers(r, u) then Some(r) else RegionAt(l, u)
  {
    forall u: nat
      ensures Hits([r] + l, u) <= 1
      ensures RegionAt([r] + l, u) == if Covers(r, u) then Some(r) else RegionAt(l, u)
    {
      assert Hits(l, u) <= 1 && ([r] + l)[1..] == l;
      FindHits(l, u);
    }
  }
}
