/**
  Whole runs of programs on the address spaces: what each process sees of its own memory, and when memory that is
  mapped shared really is shared between parent and child.
*/
module AddressRuns {

  import opened Common
  import opened Regions
  import opened CopyOnWrite
  import opened PageRefs
  import opened AddressSpaces

  /**
    What programs can do: map memory, fork, exit, and touch bytes; contents is what the disk holds for a page that has
    to be read in.  Remove is map_region_remove by itself: sys_munmap does not call it, and programs reach it only by
    mapping over something.  Between the steps of programs the page cache may drop a page.
  */
  datatype Op =
    | Mmap(pid: nat, r: Region)
    | Remove(pid: nat, start: nat, len: nat)
    | ForkTo(pid: nat, child: nat)
    | Exit(pid: nat)
    | Write(pid: nat, v: nat, off: nat, b: bv8, contents: Page)
    | Read(pid: nat, v: nat, off: nat, contents: Page)
    | Evict(c: Key)

  /** Offsets are inside a page, and the disk holds whole pages. */
  predicate OpOk(op: Op) {
    match op
    case Write(_, _, off, _, contents) => off < PAGE && |contents| == PAGE
    case Read(_, _, off, contents) => off < PAGE && |contents| == PAGE
    case _ => true
  }

  // ----- the specification

  /** The region that page k was mapped with, as the program asked for it. */
  function SpecRegion(ops: seq<Op>, k: Key): Option<Region> {
    if ops == [] then None
    else
      var before := ops[..|ops| - 1];
      match ops[|ops| - 1]
      case Mmap(pid, r) => if k.0 == pid && Covers(r, k.1) then Some(r) else SpecRegion(before, k)
      case Remove(pid, start, len) =>
        if k.0 == pid && start <= k.1 < start + len then None else SpecRegion(before, k)
      case ForkTo(pid, child) =>
        if k.0 == child && SpecRegion(before, (pid, k.1)).Some? then SpecRegion(before, (pid, k.1))
        else SpecRegion(before, k)
      case Exit(pid) => if k.0 == pid then None else SpecRegion(before, k)
      case _ => SpecRegion(before, k)
  }

  /** How page k is mapped after a run, with no frames or page tables in sight. */
  function SpecAt(ops: seq<Op>, k: Key): Option<Attr> {
    var r := SpecRegion(ops, k);
    if r.Some? then Some(AttrOf(r.value)) else None
  }

  /**
    Every private page is a page of bytes of its own, zero at first; fork copies it, and only the owner's stores change
    it.
  */
  function SpecOwn(ops: seq<Op>, k: Key): Option<Page> {
    if ops == [] then None
    else
      var before := ops[..|ops| - 1];
      match ops[|ops| - 1]
      case Mmap(pid, r) => if k.0 == pid && Covers(r, k.1) then Initial(AttrOf(r)) else SpecOwn(before, k)
      case Remove(pid, start, len) => if k.0 == pid && start <= k.1 < start + len then None else SpecOwn(before, k)
      case ForkTo(pid, child) =>
        if k.0 == child && SpecAt(before, (pid, k.1)).Some? then SpecOwn(before, (pid, k.1)) else SpecOwn(before, k)
      case Exit(pid) => if k.0 == pid then None else SpecOwn(before, k)
      case Write(pid, v, off, b, _) =>
        if k == (pid, v) && !Refused(SpecAt(before, k), false, true, false) then Poked(SpecOwn(before, k), off, b)
        else SpecOwn(before, k)
      case _ => SpecOwn(before, k)
  }

  /** What a program must get when it reads after a run: nothing outside its regions, and its own byte inside. */
  predicate SpecRead(ops: seq<Op>, k: Key, off: nat, got: Option<bv8>) {
    if SpecAt(ops, k) == None then got == None
    else got.Some? && match SpecOwn(ops, k)
                      case None => true
                      case Some(page) => off < |page| && got.value == page[off]
  }

  /** The memory shows what the specification says, wherever it says something. */
  ghost predicate Refines(s: Sys, ops: seq<Op>) {
    forall k: Key :: RefinesAt(s, ops, k)
  }

  ghost predicate RefinesAt(s: Sys, ops: seq<Op>, k: Key) {
    At(s, k) == SpecAt(ops, k) && (SpecOwn(ops, k).Some? ==> Own(s, k) == SpecOwn(ops, k))
  }

  // ----- one operation

  // What one operation does to page k of the memory.
  ghost predicate Effect(s: Sys, s': Sys, op: Op, k: Key) {
    match op
    case Mmap(pid, r) => if k.0 == pid && Covers(r, k.1) then New(s', k, AttrOf(r)) else Same(s, s', k)
    case Remove(pid, start, len) =>
      if k.0 == pid && start <= k.1 < start + len then At(s', k) == None else Same(s, s', k)
    case ForkTo(pid, child) => CopiedAt(s, s', pid, child, k, At(s, (pid, k.1)).Some?)
    case Exit(pid) => if k.0 == pid then At(s', k) == None else Same(s, s', k)
    case Write(pid, v, off, b, _) =>
      At(s', k) == At(s, k) &&
      (k != (pid, v) ==> Own(s', k) == Own(s, k)) &&
      (k == (pid, v) && Own(s, k).Some? ==>
         Own(s', k) == if Refused(At(s, k), false, true, false) then Own(s, k) else Poked(Own(s, k), off, b))
    case Read(pid, v, _, _) => At(s', k) == At(s, k) && (k != (pid, v) || Own(s, k).Some? ==> Own(s', k) == Own(s, k))
    case Evict(_) => Same(s, s', k)
  }

  // What a load and a store do to the frames of the pages.
  ghost predicate FrameEffect(s: Sys, s': Sys, op: Op) {
    match op
    case Write(pid, v, _, _, _) => FramesKept(s, s', (pid, v))
    case Read(pid, v, _, _) => FramesKept(s, s', (pid, v))
    case _ => true
  }

  // What a load returns.
  ghost predicate ReadEffect(s: Sys, op: Op, got: Option<bv8>) {
    op.Read? ==>
      var k := (op.pid, op.v);
      if At(s, k) == None then got == None
      else got.Some? && (Own(s, k).Some? ==> op.off < |Own(s, k).value| && got.value == Own(s, k).value[op.off])
  }

  lemma EffectRefines(s: Sys, s': Sys, ops: seq<Op>, op: Op)
    requires Refines(s, ops) && forall k: Key :: Effect(s, s', op, k)
    ensures Refines(s', ops + [op])
  {
    forall k: Key
      ensures RefinesAt(s', ops + [op], k)
    {
      assert Effect(s, s', op, k) && RefinesAt(s, ops, k);
      if op.ForkTo? {
        assert RefinesAt(s, ops, (op.pid, k.1));
      }
      EffectAt(s, s', ops, op, k);
    }
  }

  lemma EffectAt(s: Sys, s': Sys, ops: seq<Op>, op: Op, k: Key)
    requires RefinesAt(s, ops, k) && Effect(s, s', op, k) && (op.ForkTo? ==> RefinesAt(s, ops, (op.pid, k.1)))
    ensures RefinesAt(s', ops + [op], k)
  {
    assert (ops + [op])[..|ops|] == ops;
    assert At(s', k) == None ==> Own(s', k) == None;
    hide At, Own;
  }

  // ----- the regions along a run

  /** The pages that an operation takes out of the regions of a process. */
  ghost function TakenFrom(s: Sys, op: Op, q: nat): iset<nat> {
    match op
    case Mmap(pid, r) => if q == pid then Span(r.start, r.start + r.len) else iset{}
    case Remove(pid, start, len) => if q == pid then Span(start, start + len) else iset{}
    case ForkTo(pid, child) => if q == child && pid != child then Pages(Maps(s, pid)) else iset{}
    case _ => iset{}
  }

  // What one operation does to the region of page k.
  ghost predicate RegionEffect(s: Sys, s': Sys, op: Op, k: Key) {
    if op.Mmap? && k.0 == op.pid && Covers(op.r, k.1) then RegionOf(s', k) == Some(op.r)
    else if op.ForkTo? && k.0 == op.child && RegionOf(s, (op.pid, k.1)).Some? then
      RegionOf(s', k) == RegionOf(s, (op.pid, k.1))
    else if op.Exit? && k.0 == op.pid then RegionOf(s', k) == None
    else if k.1 in TakenFrom(s, op, k.0) then RegionOf(s', k) == None
    else CutBy(RegionOf(s, k), RegionOf(s', k), k.1, TakenFrom(s, op, k.0))
  }

  lemma ReadRefines(s: Sys, ops: seq<Op>, op: Op, got: Option<bv8>)
    requires Refines(s, ops) && op.Read? && ReadEffect(s, op, got)
    ensures SpecRead(ops, (op.pid, op.v), op.off, got)
  {
    hide At, Own, SpecAt, SpecOwn;
    assert RefinesAt(s, ops, (op.pid, op.v));
  }

  /** The operation takes no page from a file region of several pages. */
  ghost predicate Clean(s: Sys, op: Op) {
    match op
    case Mmap(pid, r) => Singles(s, pid, r.start, r.start + r.len)
    case Remove(pid, start, len) => Singles(s, pid, start, start + len)
    case ForkTo(pid, child) => pid == child || ForkSingles(s, pid, child)
    case _ => true
  }

  /**
    Exactly when an operation panics: the callback of a page that is mapped over puts a page that no mapping references,
    or the cache drops a page that is still mapped.  Fork into a new process never does, nor do loads and stores.
  */
  ghost predicate CrashRight(s: Sys, op: Op, crash: bool) {
    match op
    case Mmap(pid, r) => crash <==> CutPages(s, pid, r.start, r.len) == None
    case Remove(pid, start, len) => crash <==> CutPages(s, pid, start, len) == None
    case ForkTo(pid, child) => crash ==> pid != child && Maps(s, child) != []
    case Exit(pid) => crash <==> DropAll(s, pid, 0, true) == None
    case Evict(c) =>
      crash <==> c in s.cache && Pin(s, c) == 0 && s.cache[c] < |s.frames| && s.frames[s.cache[c]].count > 0
    case _ => !crash
  }

  ghost predicate Done(s: Sys, s': Sys, op: Op, got: Option<bv8>) {
    (forall k: Key :: Effect(s, s', op, k)) && FrameEffect(s, s', op) && ReadEffect(s, op, got) &&
    forall k: Key :: RegionEffect(s, s', op, k)
  }

  ghost predicate Stopped(s: Sys, s': Sys) {
    s'.maps == s.maps &&
    forall k: Key :: At(s', k) == At(s, k) && (Own(s, k).Some? ==> Own(s', k) == Own(s, k))
  }

  /** One operation, on the memory. */
  method Perform(m: Memory, op: Op) returns (r: Result, got: Option<bv8>)
    requires m.Valid() && OpOk(op)
    modifies m
    ensures m.Valid() && r != Denied && CrashRight(old(m.S()), op, r == Crash)
    ensures r == Handled ==> Done(old(m.S()), m.S(), op, got)
    ensures r == NoMemory ==> m.free == {} && Stopped(old(m.S()), m.S())
    ensures Sound(old(m.S())) && Clean(old(m.S()), op) ==> r != Crash && Sound(m.S())
  {
    hide Ok, Own, AttrAt, Full, Sound, Done, Stopped, CutPages, Mapped, Placed, Removed, Cut, Forked, RegionsForked,
      Stores, Brought, FramesKept, Touched, Faulted, SameOrGone, Singles, ForkSingles;
    r, got := Handled, None;
    ghost var s := m.S();
    match op
    case Mmap(pid, reg) =>
      var ok := m.Setup(pid, reg);
      if !ok {
        return Crash, None;
      }
      MmapDone(s, m.S(), pid, reg);
    case Remove(pid, start, len) =>
      var ok := m.Remove(pid, start, len);
      if !ok {
        return Crash, None;
      }
      RemoveDone(s, m.S(), pid, start, len);
    case ForkTo(pid, child) =>
      if pid != child {
        var ok := m.Fork(pid, child);
        if !ok {
          return Crash, None;
        }
        ForkDone(s, m.S(), pid, child);
      } else {
        SelfForkDone(s, pid);
      }
    case Exit(pid) =>
      var ok := m.RemoveAll(pid, true);
      if !ok {
        return Crash, None;
      }
      SparedNone(old(m.List(pid)));
      forall q: nat | q != pid
        ensures Maps(m.S(), q) == Maps(s, q)
      {
        assert m.List(q) == old(m.List(q));
      }
      ExitDone(s, m.S(), pid);
    case Write(pid, v, off, b, contents) =>
      r := m.Store(pid, v, off, b, contents);
      if r == NoMemory {
        StoreStopped(s, m.S(), (pid, v));
        return;
      }
      WriteDone(s, m.S(), op, r);
      r := Handled;
    case Read(pid, v, off, contents) =>
      var b;
      r, b := m.Load(pid, v, off, contents);
      if r == NoMemory {
        LoadStopped(s, m.S(), (pid, v));
        return;
      }
      if r == Handled {
        got := Some(b);
      }
      ReadDone(s, m.S(), op, got, r, b);
      r := Handled;
    case Evict(c) =>
      SameSelf(s);
      if c in m.cache && (if c in m.pins then m.pins[c] else 0) == 0 {
        var ok := m.Evict(c);
        if !ok {
          return Crash, None;
        }
      }
      EvictDone(s, m.S(), c);
  }

  lemma MmapDone(s: Sys, s': Sys, pid: nat, r: Region)
    requires Mapped(s, s', pid, r) && Placed(s, s', pid, r)
    ensures Done(s, s', Mmap(pid, r), None)
  {
    hide Own, At, RegionOf, CutBy;
    forall k: Key
      ensures Effect(s, s', Mmap(pid, r), k) && RegionEffect(s, s', Mmap(pid, r), k)
    {
      assert if k.0 == pid && Covers(r, k.1) then RegionOf(s', k) == Some(r)
             else CutAt(s, s', pid, Span(r.start, r.start + r.len), k);
      CutNone(RegionOf(s, k), k.1);
    }
  }

  lemma RemoveDone(s: Sys, s': Sys, pid: nat, start: nat, len: nat)
    requires Removed(s, s', pid, start, start + len) && Cut(s, s', pid, Span(start, start + len))
    ensures Done(s, s', Remove(pid, start, len), None)
  {
    hide Own, At, RegionOf, CutBy;
    forall k: Key
      ensures Effect(s, s', Remove(pid, start, len), k) && RegionEffect(s, s', Remove(pid, start, len), k)
    {
      assert CutAt(s, s', pid, Span(start, start + len), k);
      CutNone(RegionOf(s, k), k.1);
    }
  }

  lemma InPages(s: Sys, pid: nat, v: nat)
    ensures v in Pages(Maps(s, pid)) <==> RegionOf(s, (pid, v)).Some?
  {
    FindHits(Maps(s, pid), v);
  }

  lemma ForkDone(s: Sys, s': Sys, pid: nat, child: nat)
    requires pid != child && Forked(s, s', pid, child) && RegionsForked(s, s', pid, child)
    ensures Done(s, s', ForkTo(pid, child), None)
  {
    hide Own, At, RegionOf, CutBy, Pages;
    forall k: Key
      ensures Effect(s, s', ForkTo(pid, child), k) && RegionEffect(s, s', ForkTo(pid, child), k)
    {
      InPages(s, pid, k.1);
      assert RegionCopied(s, s', pid, child, Pages(Maps(s, pid)), k);
      CutNone(RegionOf(s, k), k.1);
    }
  }

  lemma SelfForkDone(s: Sys, pid: nat)
    ensures Done(s, s, ForkTo(pid, pid), None)
  {
    hide Own, At, RegionOf, CutBy;
    forall k: Key
      ensures Effect(s, s, ForkTo(pid, pid), k) && RegionEffect(s, s, ForkTo(pid, pid), k)
    {
      assert k == (k.0, k.1);
      CutNone(RegionOf(s, k), k.1);
    }
  }

  lemma ExitDone(s: Sys, s': Sys, pid: nat)
    requires SameOrGone(s, s', pid) && Maps(s', pid) == [] && forall q: nat | q != pid :: Maps(s', q) == Maps(s, q)
    ensures Done(s, s', Exit(pid), None)
  {
    hide Own;
    forall k: Key
      ensures Effect(s, s', Exit(pid), k) && RegionEffect(s, s', Exit(pid), k)
    {
      assert Same(s, s', k) || (k.0 == pid && At(s', k) == None);
      CutNone(RegionOf(s, k), k.1);
    }
  }

  // An operation that changes no region list.
  lemma ListsStay(s: Sys, s': Sys, op: Op)
    requires s'.maps == s.maps && (op.Write? || op.Read? || op.Evict?)
    ensures forall k: Key :: RegionEffect(s, s', op, k)
  {
    hide RegionAt, CutBy;
    forall k: Key
      ensures RegionEffect(s, s', op, k)
    {
      CutNone(RegionOf(s, k), k.1);
    }
  }

  lemma WriteDone(s: Sys, s': Sys, op: Op, r: Result)
    requires op.Write? && s'.maps == s.maps && FramesKept(s, s', (op.pid, op.v)) && (r == Handled || r == Denied)
    requires forall k: Key :: At(s', k) == At(s, k) && (k != (op.pid, op.v) ==> Own(s', k) == Own(s, k))
    requires r == Denied <==> Refused(At(s, (op.pid, op.v)), false, true, false)
    requires var o := Own(s, (op.pid, op.v));
             o.Some? ==> Own(s', (op.pid, op.v)) == if r == Handled then Poked(o, op.off, op.b) else o
    ensures Done(s, s', op, None)
  {
    hide Own, At, FramesKept, RegionEffect;
    ListsStay(s, s', op);
  }

  lemma ReadDone(s: Sys, s': Sys, op: Op, got: Option<bv8>, r: Result, b: bv8)
    requires op.Read? && s'.maps == s.maps && Faulted(s, s', (op.pid, op.v)) && Touched(s, s', (op.pid, op.v))
    requires (r == Handled || r == Denied) && (r == Denied <==> At(s, (op.pid, op.v)) == None)
    requires var o := Own(s, (op.pid, op.v)); r == Handled && o.Some? ==> op.off < |o.value| && b == o.value[op.off]
    requires got == if r == Handled then Some(b) else None
    ensures Done(s, s', op, got)
  {
    hide Own, At, FramesKept, RegionEffect;
    ListsStay(s, s', op);
    FaultedSame(s, s', (op.pid, op.v));
  }

  lemma EvictDone(s: Sys, s': Sys, c: Key)
    requires s'.maps == s.maps && forall k: Key :: Same(s, s', k)
    ensures Done(s, s', Evict(c), None)
  {
    hide Own, At, RegionEffect;
    ListsStay(s, s', Evict(c));
  }

  lemma SameSelf(s: Sys)
    ensures forall k: Key :: Same(s, s, k)
  {
    hide Own, At;
  }

  lemma StoreStopped(s: Sys, s': Sys, k: Key)
    requires s'.maps == s.maps && forall j: Key :: At(s', j) == At(s, j) && (j != k ==> Own(s', j) == Own(s, j))
    requires Own(s, k).Some? ==> Own(s', k) == Own(s, k)
    ensures Stopped(s, s')
  {
    hide Own, At;
  }

  lemma LoadStopped(s: Sys, s': Sys, k: Key)
    requires s'.maps == s.maps && Faulted(s, s', k)
    ensures Stopped(s, s')
  {
    hide Own, At;
    FaultedSame(s, s', k);
  }

  // ----- the regions of a run

  /** The pages that an operation takes out of the regions of process q, after a run. */
  ghost function SpecTaken(ops: seq<Op>, op: Op, q: nat): iset<nat> {
    match op
    case Mmap(pid, r) => if q == pid then Span(r.start, r.start + r.len) else iset{}
    case Remove(pid, start, len) => if q == pid then Span(start, start + len) else iset{}
    case ForkTo(pid, child) =>
      if q == child && pid != child then iset v: nat | SpecRegion(ops, (pid, v)).Some? else iset{}
    case _ => iset{}
  }

  /** No page from the beginning of its mapping up to page k has been mapped over since. */
  ghost predicate Intact(ops: seq<Op>, k: Key) {
    ops == [] ||
    var before, op := ops[..|ops| - 1], ops[|ops| - 1];
    if op.Mmap? && k.0 == op.pid && Covers(op.r, k.1) then true
    else if op.ForkTo? && k.0 == op.child && SpecRegion(before, (op.pid, k.1)).Some? then Intact(before, (op.pid, k.1))
    else
      Intact(before, k) &&
      (SpecRegion(before, k).Some? ==>
         var X := SpecTaken(before, op, k.0);
         forall w | SpecRegion(before, k).value.start <= w <= k.1 :: w !in X)
  }

  /** The region that page k is in begins where its mapping began exactly if the mapping is intact up to k. */
  ghost predicate TracksAt(s: Sys, ops: seq<Op>, k: Key) {
    match SpecRegion(ops, k)
    case None => RegionOf(s, k) == None
    case Some(r) =>
      RegionOf(s, k).Some? &&
      var r' := RegionOf(s, k).value;
      r'.(start := r.start, len := r.len) == r && r.start <= r'.start && (r'.start == r.start <==> Intact(ops, k))
  }

  ghost predicate Tracks(s: Sys, ops: seq<Op>) {
    forall k: Key :: TracksAt(s, ops, k)
  }

  lemma TakenSame(s: Sys, ops: seq<Op>, op: Op, q: nat)
    requires Tracks(s, ops)
    ensures SpecTaken(ops, op, q) == TakenFrom(s, op, q)
  {
    hide RegionOf, Intact, Pages;
    if op.ForkTo? && q == op.child && op.pid != op.child {
      var X, Y := SpecTaken(ops, op, q), TakenFrom(s, op, q);
      forall v: nat
        ensures v in X <==> v in Y
      {
        InPages(s, op.pid, v);
        assert TracksAt(s, ops, (op.pid, v));
      }
    }
  }

  lemma TracksStep(s: Sys, s': Sys, ops: seq<Op>, op: Op)
    requires Tracks(s, ops) && forall k: Key :: RegionEffect(s, s', op, k)
    ensures Tracks(s', ops + [op])
  {
    hide RegionEffect, TracksAt;
    forall k: Key
      ensures TracksAt(s', ops + [op], k)
    {
      assert RegionEffect(s, s', op, k);
      TracksStepAt(s, s', ops, op, k);
    }
  }

  // A region that is cut once more.
  lemma CutTracks(r: Region, o: Option<Region>, o': Option<Region>, u: nat, X: iset<nat>, intact: bool)
    requires o.Some? && o.value.(start := r.start, len := r.len) == r && r.start <= o.value.start
    requires CutBy(o, o', u, X) && (o.value.start == r.start <==> intact)
    ensures o'.Some? && o'.value.(start := r.start, len := r.len) == r && r.start <= o'.value.start
    ensures o'.value.start == r.start <==> intact && forall w | r.start <= w <= u :: w !in X
  {
  }

  lemma TracksStepAt(s: Sys, s': Sys, ops: seq<Op>, op: Op, k: Key)
    requires Tracks(s, ops) && RegionEffect(s, s', op, k)
    ensures TracksAt(s', ops + [op], k)
  {
    hide RegionOf;
    TakenSame(s, ops, op, k.0);
    assert (ops + [op])[..|ops|] == ops;
    assert TracksAt(s, ops, k);
    if op.ForkTo? {
      assert TracksAt(s, ops, (op.pid, k.1));
    }
    var X := SpecTaken(ops, op, k.0);
    if k.1 in X || (op.Mmap? && k.0 == op.pid && Covers(op.r, k.1)) || (op.Exit? && k.0 == op.pid) {
    } else if op.ForkTo? && k.0 == op.child && SpecRegion(ops, (op.pid, k.1)).Some? {
    } else if SpecRegion(ops, k).Some? {
      CutTracks(SpecRegion(ops, k).value, RegionOf(s, k), RegionOf(s', k), k.1, X, Intact(ops, k));
      hide CutBy, TakenFrom, Tracks;
    }
  }

  /** A touch of page k brings in the page of the file that was asked for exactly if the mapping is intact up to k. */
  lemma PageShown(s: Sys, ops: seq<Op>, k: Key)
    requires Tracks(s, ops) && SpecRegion(ops, k).Some? && SpecRegion(ops, k).value.file.Inode?
    ensures RegionOf(s, k).Some? && RegionOf(s, k).value.file.Inode? && SpecRegion(ops, k).value.start <= k.1
    ensures Named(RegionOf(s, k).value, k.1) == Named(SpecRegion(ops, k).value, k.1) <==> Intact(ops, k)
  {
    hide Intact;
    assert TracksAt(s, ops, k);
  }

  /** Two pages of file 7, and memory over the first of them. */
  const PAGES := [Mmap(0, Region(0, 2, false, true, Inode(7), 0)), Mmap(0, Region(0, 1, true, false, Zero, 0))]

  /** After which the second page of the mapping is no longer the second page of the file. */
  lemma WrongPage(s: Sys)
    requires Tracks(s, PAGES)
    ensures var r, asked := RegionOf(s, (0, 1)), SpecRegion(PAGES, (0, 1));
            r.Some? && asked.Some? && r.value.file == asked.value.file == Inode(7) && r.value.start <= 1 &&
            Named(asked.value, 1) == (7, 1) && Named(r.value, 1) == (7, 0)
  {
    var k: Key := (0, 1);
    assert PAGES[..1] == [PAGES[0]];
    assert TracksAt(s, PAGES, k);
    assert 0 in SpecTaken(PAGES[..1], PAGES[1], 0);
    PageShown(s, PAGES, k);
    hide Tracks, TracksAt;
    assert RegionOf(s, k).value.start == 1 by {
      assert Covers(RegionOf(s, k).value, 1);
    }
  }

  // ----- runs that do not cut file regions

  predicate SpecSingle(ops: seq<Op>, k: Key) {
    SpecRegion(ops, k).Some? && SpecRegion(ops, k).value.file.Inode? ==> SpecRegion(ops, k).value.len == 1
  }

  /** The operation takes no page from a file mapping of several pages. */
  ghost predicate TidyOp(ops: seq<Op>, op: Op) {
    match op
    case Mmap(pid, r) => forall v: nat | Covers(r, v) :: SpecSingle(ops, (pid, v))
    case Remove(pid, start, len) => forall v: nat | start <= v < start + len :: SpecSingle(ops, (pid, v))
    case ForkTo(pid, child) =>
      pid == child || forall v: nat | SpecRegion(ops, (pid, v)).Some? :: SpecSingle(ops, (child, v))
    case _ => true
  }

  /** In the whole run, mappings of more than one page of a file leave only by exit. */
  ghost predicate Tidy(ops: seq<Op>) {
    forall i | 0 <= i < |ops| :: TidyOp(ops[..i], ops[i])
  }

  /** File regions are as they were mapped. */
  ghost predicate ExactAt(s: Sys, ops: seq<Op>, k: Key) {
    SpecRegion(ops, k).Some? && SpecRegion(ops, k).value.file.Inode? ==> RegionOf(s, k) == SpecRegion(ops, k)
  }

  ghost predicate Exact(s: Sys, ops: seq<Op>) {
    forall k: Key :: ExactAt(s, ops, k)
  }

  lemma SingleAt(s: Sys, ops: seq<Op>, k: Key)
    requires TracksAt(s, ops, k) && ExactAt(s, ops, k) && SpecSingle(ops, k)
    ensures SinglePage(s, k)
  {
    hide RegionOf, Intact;
  }

  lemma TidyClean(s: Sys, ops: seq<Op>, op: Op)
    requires Tracks(s, ops) && Exact(s, ops) && TidyOp(ops, op)
    ensures Clean(s, op)
  {
    hide TracksAt, ExactAt, SinglePage, SpecSingle, Pages;
    match op
    case Mmap(pid, r) =>
      forall v: nat | r.start <= v < r.start + r.len
        ensures SinglePage(s, (pid, v))
      {
        assert Covers(r, v) && SpecSingle(ops, (pid, v));
        SingleAt(s, ops, (pid, v));
      }
    case Remove(pid, start, len) =>
      forall v: nat | start <= v < start + len
        ensures SinglePage(s, (pid, v))
      {
        SingleAt(s, ops, (pid, v));
      }
    case ForkTo(pid, child) =>
      if pid != child {
        TidyForkClean(s, ops, pid, child);
      }
    case _ =>
  }

  lemma TidyForkClean(s: Sys, ops: seq<Op>, pid: nat, child: nat)
    requires Tracks(s, ops) && Exact(s, ops) && pid != child && TidyOp(ops, ForkTo(pid, child))
    ensures ForkSingles(s, pid, child)
  {
    hide ExactAt, SinglePage, SpecSingle, Pages, RegionOf, Intact;
    var X := Pages(Maps(s, pid));
    forall v: nat | v in X
      ensures SinglePage(s, (child, v))
    {
      InPages(s, pid, v);
      assert TracksAt(s, ops, (pid, v)) && TracksAt(s, ops, (child, v)) && ExactAt(s, ops, (child, v));
      SingleAt(s, ops, (child, v));
    }
  }

  lemma CleanSingle(s: Sys, op: Op, q: nat, w: nat)
    requires Clean(s, op) && w in TakenFrom(s, op, q)
    ensures SinglePage(s, (q, w))
  {
    hide SinglePage, Pages;
  }

  // No page of a file region that stays is taken.
  lemma NoneTaken(s: Sys, ops: seq<Op>, op: Op, k: Key, r: Region)
    requires Ok(s) && Tracks(s, ops) && Exact(s, ops) && TidyOp(ops, op)
    requires RegionOf(s, k) == Some(r) && r.file.Inode? && k.1 !in TakenFrom(s, op, k.0)
    ensures var X := TakenFrom(s, op, k.0); forall w | r.start <= w < r.start + r.len :: w !in X
  {
    var X := TakenFrom(s, op, k.0);
    MapsDisjoint(s, k.0);
    TidyClean(s, ops, op);
    hide Ok, Tracks, Exact, TidyOp;
    forall w | r.start <= w < r.start + r.len
      ensures w !in X
    {
      if w in X {
        CleanSingle(s, op, k.0, w);
        SameRegion(Maps(s, k.0), k.1, w);
      }
    }
  }

  lemma ExactStep(s: Sys, s': Sys, ops: seq<Op>, op: Op)
    requires Ok(s) && Tracks(s, ops) && Exact(s, ops) && TidyOp(ops, op) && forall k: Key :: RegionEffect(s, s', op, k)
    ensures Exact(s', ops + [op])
  {
    hide Ok, Tracks, TidyOp, RegionEffect, ExactAt;
    forall k: Key
      ensures ExactAt(s', ops + [op], k)
    {
      assert RegionEffect(s, s', op, k);
      ExactStepAt(s, s', ops, op, k);
    }
  }

  lemma ExactStepAt(s: Sys, s': Sys, ops: seq<Op>, op: Op, k: Key)
    requires Ok(s) && Tracks(s, ops) && Exact(s, ops) && TidyOp(ops, op) && RegionEffect(s, s', op, k)
    ensures ExactAt(s', ops + [op], k)
  {
    hide Ok, TidyOp, RegionOf, Intact;
    assert TracksAt(s, ops, k) && ExactAt(s, ops, k);
    if op.ForkTo? {
      assert TracksAt(s, ops, (op.pid, k.1)) && ExactAt(s, ops, (op.pid, k.1));
      InPages(s, op.pid, k.1);
    }
    assert (ops + [op])[..|ops|] == ops;
    hide Pages;
    var o := RegionOf(s, k);
    if o.Some? && o.value.file.Inode? && k.1 !in TakenFrom(s, op, k.0) {
      hide Tracks, Exact;
      NoneTaken(s, ops, op, k, o.value);
    }
  }

  // ----- every run

  /**
    Every run of programs on fresh memory, until memory is used up or the kernel panics, shows each process its own
    bytes, and every load returned the byte that the specification has there.  No run panics in which mappings of more
    than one page of a file leave only by exit.
  */
  method Execute(m: Memory, ops: seq<Op>) returns (n: nat, results: seq<Option<bv8>>, r: Result)
    requires m.Valid() && (forall k: Key :: At(m.S(), k) == None) && forall i | 0 <= i < |ops| :: OpOk(ops[i])
    modifies m
    ensures m.Valid() && n <= |ops| && r != Denied && (r == Handled <==> n == |ops|) && (r == NoMemory ==> m.free == {})
    ensures r != Crash ==> Refines(m.S(), ops[..n]) && Tracks(m.S(), ops[..n])
    ensures |results| == n && forall i | 0 <= i < n && ops[i].Read? ::
              SpecRead(ops[..i], (ops[i].pid, ops[i].v), ops[i].off, results[i])
    ensures Sound(old(m.S())) && Tidy(ops) ==> r != Crash
  {
    hide Ok, Own, AttrAt, Done, SpecRead, Refines, Full, Sound, Tracks, Exact, Clean, CrashRight, Stopped, TidyOp;
    n, results, r := 0, [], Handled;
    NothingYet(m.S());
    ghost var nice := Sound(m.S()) && Tidy(ops);
    assert ops[..0] == [];
    while n < |ops|
      invariant n <= |ops| && m.Valid() && Refines(m.S(), ops[..n]) && Tracks(m.S(), ops[..n])
      invariant |results| == n && r == Handled
      invariant forall i | 0 <= i < n && ops[i].Read? ::
                  SpecRead(ops[..i], (ops[i].pid, ops[i].v), ops[i].off, results[i])
      invariant nice ==> Sound(m.S()) && Exact(m.S(), ops[..n])
    {
      ghost var s := m.S();
      if nice {
        TidyClean(s, ops[..n], ops[n]);
      }
      var got;
      r, got := Perform(m, ops[n]);
      if r == Crash {
        return;
      }
      if r == NoMemory {
        StoppedRefines(s, m.S(), ops[..n]);
        return;
      }
      RunStep(s, m.S(), ops[..n], ops[n], got, nice);
      assert ops[..n] + [ops[n]] == ops[..n + 1];
      results := results + [got];
      n := n + 1;
    }
    assert ops[..n] == ops;
  }

  lemma RunStep(s: Sys, s': Sys, ops: seq<Op>, op: Op, got: Option<bv8>, nice: bool)
    requires Ok(s) && Done(s, s', op, got) && Refines(s, ops) && Tracks(s, ops)
    requires nice ==> Exact(s, ops) && TidyOp(ops, op)
    ensures Refines(s', ops + [op]) && Tracks(s', ops + [op]) && (nice ==> Exact(s', ops + [op]))
    ensures op.Read? ==> SpecRead(ops, (op.pid, op.v), op.off, got)
  {
    hide Ok, Refines, Tracks, Exact, TidyOp, SpecRead, Effect, RegionEffect, FrameEffect, ReadEffect;
    EffectRefines(s, s', ops, op);
    TracksStep(s, s', ops, op);
    if nice {
      ExactStep(s, s', ops, op);
    }
    if op.Read? {
      ReadRefines(s, ops, op, got);
    }
  }

  lemma NothingYet(s: Sys)
    requires forall k: Key :: At(s, k) == None
    ensures Refines(s, []) && Tracks(s, []) && Exact(s, [])
  {
    hide Own;
    forall k: Key
      ensures TracksAt(s, [], k)
    {
      assert At(s, k) == None;
    }
  }

  lemma StoppedRefines(s: Sys, s': Sys, ops: seq<Op>)
    requires Refines(s, ops) && Tracks(s, ops) && Stopped(s, s')
    ensures Refines(s', ops) && Tracks(s', ops)
  {
    hide AttrAt, Own, RegionAt, Intact;
    forall k: Key
      ensures RefinesAt(s', ops, k) && TracksAt(s', ops, k)
    {
      assert RefinesAt(s, ops, k) && TracksAt(s, ops, k);
    }
  }
}
