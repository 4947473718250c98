/**
  When memory that is mapped shared really is shared between parent and child.
*/
module ForkSharing {

  import opened Common
  import opened Regions
  import opened CopyOnWrite
  import opened PageRefs
  import opened AddressSpaces
  import opened AddressRuns

  /** The operation does not map, unmap or copy anything over page v of the two processes. */
  predicate LeavesAlone(op: Op, from: nat, to: nat, v: nat) {
    match op
    case Mmap(pid, r) => !((pid == from || pid == to) && Covers(r, v))
    case Remove(pid, start, len) => !((pid == from || pid == to) && start <= v < start + len)
    case ForkTo(_, child) => child != from && child != to
    case Exit(pid) => pid != from && pid != to
    case _ => true
  }

  /** Page v of both processes is shared anonymous memory; `one` tells whether both have it on one frame. */
  ghost predicate Linked(s: Sys, from: nat, to: nat, v: nat, a: Attr, one: bool) {
    a.shared && a.file == Zero && At(s, (from, v)) == Some(a) == At(s, (to, v)) &&
    (one <==> (from, v) in s.ptes && (to, v) in s.ptes && Phys(s, (from, v)) == Phys(s, (to, v)))
  }

  lemma ForkLinks(s: Sys, s': Sys, from: nat, to: nat, v: nat)
    requires from != to && Forked(s, s', from, to) && IsSharedZero(s, (from, v))
    ensures Linked(s', from, to, v, At(s, (from, v)).value, (from, v) in s.ptes)
    ensures (from, v) !in s.ptes ==> (from, v) !in s'.ptes && (to, v) !in s'.ptes
  {
    hide Own, AttrAt;
    var k, j := (to, v), (from, v);
    assert CopiedAt(s, s', from, to, k, At(s, (from, k.1)).Some?) &&
      CopiedAt(s, s', from, to, j, At(s, (from, j.1)).Some?);
  }

  lemma LinkedStep(s: Sys, s': Sys, op: Op, got: Option<bv8>, from: nat, to: nat, v: nat, a: Attr, one: bool)
    requires from != to && Linked(s, from, to, v, a, one) && LeavesAlone(op, from, to, v)
    requires Done(s, s', op, got)
    ensures Linked(s', from, to, v, a, one)
  {
    hide Own, At, RegionEffect;
    var j, k := (from, v), (to, v);
    assert Effect(s, s', op, j) && Effect(s, s', op, k);
    assert At(s', j) == At(s, j) && At(s', k) == At(s, k);
  }

  /**
    Fork, and then any run that leaves the page alone: parent and child have it on one frame exactly if the parent had
    it mapped at the fork.
  */
  method ForkThenRun(m: Memory, from: nat, to: nat, v: nat, ops: seq<Op>) returns (r: Result)
    requires m.Valid() && from != to && IsSharedZero(m.S(), (from, v))
    requires forall i | 0 <= i < |ops| :: OpOk(ops[i]) && LeavesAlone(ops[i], from, to, v)
    modifies m
    ensures m.Valid() && r != Denied && (r == NoMemory ==> m.free == {})
    ensures r == Handled ==> Linked(m.S(), from, to, v, At(old(m.S()), (from, v)).value, old((from, v) in m.ptes))
    ensures ops == [] && Maps(old(m.S()), to) == [] ==> r == Handled
  {
    hide Ok, Own, AttrAt, Done, Forked, RegionsForked, Linked, IsSharedZero, Full, Sound, Clean, CrashRight, Stopped,
      ForkSingles;
    ghost var s0 := m.S();
    SomeAttr(s0, (from, v));
    ghost var one, a := (from, v) in m.ptes, At(s0, (from, v)).value;
    var ok := m.Fork(from, to);
    if !ok {
      return Crash;
    }
    ForkLinks(s0, m.S(), from, to, v);
    var n := 0;
    while n < |ops|
      invariant n <= |ops| && m.Valid() && Linked(m.S(), from, to, v, a, one)
    {
      ghost var s := m.S();
      var got;
      r, got := Perform(m, ops[n]);
      if r != Handled {
        return;
      }
      LinkedStep(s, m.S(), ops[n], got, from, to, v, a, one);
      n := n + 1;
    }
    r := Handled;
  }

  lemma SomeAttr(s: Sys, k: Key)
    requires IsSharedZero(s, k)
    ensures At(s, k).Some?
  {
  }

  lemma LinkedMapped(s: Sys, from: nat, to: nat, v: nat, a: Attr, one: bool)
    requires Linked(s, from, to, v, a, one)
    ensures At(s, (from, v)) == Some(a) == At(s, (to, v))
  {
  }

  // First the child looks, then the parent stores, then the child looks again.
  lemma SeenIff(s: Sys, s1: Sys, s2: Sys, s3: Sys, from: nat, to: nat, v: nat, a: Attr, one: bool,
                off: nat, b: bv8)
    requires from != to && Linked(s, from, to, v, a, one) && Touched(s, s1, (to, v)) && (to, v) in s1.ptes
    requires At(s1, (to, v)) == At(s, (to, v)) && At(s1, (from, v)) == At(s, (from, v))
    requires FramesKept(s1, s2, (from, v)) && Stores(s1, s2, (from, v), off, b)
    requires At(s2, (to, v)) == At(s, (to, v)) && Touched(s2, s3, (to, v))
    requires Data(s1, (to, v)).Some? && off < |Data(s1, (to, v)).value|
    ensures Data(s3, (to, v)) == if one then Poked(Data(s1, (to, v)), off, b) else Data(s1, (to, v))
  {
    hide At, Poke;
    var j, k := (from, v), (to, v);
    assert Phys(s2, k) == Phys(s1, k);
    if one {
      assert Phys(s2, j) == Phys(s1, j) == Phys(s, j);
      assert Phys(s1, k) == Phys(s, k);
    } else if j in s1.ptes {
      assert Phys(s2, j) == Phys(s1, j) == Phys(s, j);
      assert Phys(s1, k) != Phys(s1, j);
    } else {
      assert Phys(s2, k) != Phys(s2, j);
    }
    assert Data(s2, k) == if Phys(s2, k) == Phys(s2, j) then Poked(Data(s1, k), off, b) else Data(s1, k);
  }

  /**
    Shared anonymous memory is shared between parent and child exactly if the parent had touched it before the fork:
    whatever else runs in between, a byte that the parent stores is the one that the child then reads in that case,
    and in the other case the child goes on reading what it read before.
  */
  method SharedExactly(m: Memory, from: nat, to: nat, v: nat, ops: seq<Op>, off: nat, b: bv8, contents: Page)
    returns (r: Result, before: bv8, after: bv8)
    requires m.Valid() && from != to && IsSharedZero(m.S(), (from, v)) && At(m.S(), (from, v)).Some?
    requires At(m.S(), (from, v)).value.write
    requires forall i | 0 <= i < |ops| :: OpOk(ops[i]) && LeavesAlone(ops[i], from, to, v)
    requires off < PAGE && |contents| == PAGE
    modifies m
    ensures m.Valid() && r != Denied && (r == NoMemory ==> m.free == {})
    ensures r == Handled ==> after == if old((from, v) in m.ptes) then b else before
    ensures ops == [] && Maps(old(m.S()), to) == [] ==> r != Crash
  {
    hide Ok, Own, AttrAt, Linked, IsSharedZero, Touched, FramesKept, Stores, Full, Faulted, Sound, Brought;
    ghost var one, a := (from, v) in m.ptes, At(m.S(), (from, v)).value;
    before, after := 0, 0;
    r := ForkThenRun(m, from, to, v, ops);
    if r != Handled {
      return;
    }
    ghost var s := m.S();
    LinkedMapped(s, from, to, v, a, one);
    r, before := m.Load(to, v, off, contents);
    FaultedSame(s, m.S(), (to, v));
    if r == NoMemory {
      return;
    }
    ghost var s1 := m.S();
    r := m.Store(from, v, off, b, contents);
    ghost var s2 := m.S();
    if r == NoMemory {
      return;
    }
    r, after := m.Load(to, v, off, contents);
    FaultedSame(s2, m.S(), (to, v));
    if r == NoMemory {
      return;
    }
    DataMapped(s1, (to, v));
    SeenIff(s, s1, s2, m.S(), from, to, v, a, one, off, b);
  }

  lemma DataMapped(s: Sys, k: Key)
    requires Data(s, k).Some?
    ensures k in s.ptes
  {
  }

  /** A run in which the child does not see what the parent stores into memory they share. */
  method NotSharedExample() returns (wrote: Result, r: Result, seen: bv8)
    ensures wrote == Handled && r == Handled && seen == 0
  {
    hide Ok, Own, AttrAt, Full, Faulted, Stores, Sound, Brought, CutPages, Placed, RegionsForked;
    var m := new Memory(9);
    var reg := Region(0, 1, true, true, Zero, 0);
    ghost var s := m.S();
    Vacant(s, 0, reg);
    var ok := m.Setup(0, reg);
    ghost var s1 := m.S();
    FreshShared(s, s1, reg);
    Subset(s.free, m.free);
    OnlyList(s, 0, reg, 1);
    ok := m.Fork(0, 1);
    ghost var s2 := m.S();
    ForkLinks(s1, s2, 0, 1, 0);
    Subset(s1.free, m.free);
    wrote := m.Store(0, 0, 0, 1, ZeroPage());
    ghost var s3 := m.S();
    r, seen := m.Load(1, 0, 0, ZeroPage());
  }

  lemma FreshShared(s: Sys, s': Sys, r: Region)
    requires Mapped(s, s', 0, r) && r == Region(0, 1, true, true, Zero, 0)
    ensures IsSharedZero(s', (0, 0)) && (0, 0) !in s'.ptes && At(s', (0, 0)).value.write
  {
    assert New(s', (0, 0), AttrOf(r));
  }

  // Nothing is in the way in a process without regions.
  lemma Vacant(s: Sys, pid: nat, r: Region)
    requires Maps(s, pid) == []
    ensures CutPages(s, pid, r.start, r.len) == Some(s)
  {
    hide CutPages;
    CutEmpty(s, pid, r.start, r.len);
  }

  lemma OnlyList(s: Sys, pid: nat, r: Region, q: nat)
    requires Maps(s, q) == [] && pid != q
    ensures Maps(Inserted(s, pid, r), q) == []
  {
  }
}
