/**
  The object cache: fixed-size objects are carved from slabs of `max` objects.  A slab sits on the empty,
  partial or full list as its count says.  Allocation reserves a place in a slab under the cache lock and
  pops an object from the slab's own stack after releasing it; freeing pushes first and gives the place
  back under the lock afterwards.  Steps of different requests interleave freely.
*/
module Slab {

  import opened Common
  import Arith

  /** An object: the number of its slab, and its place there. */
  type Slot = (nat, nat)

  /** stack: the places of free objects, top last. */
  datatype Slab = Slab(count: nat, stack: seq<nat>)

  /** How far one request is, from kobj_allocate to the last putref. */
  datatype Pc =
    | Idle
    | Reserved(k: nat)      // counted in slab k, before stack_pop
    | Popped(x: Slot)       // before allocated_objects is raised
    | Held(x: Slot)         // in use
    | Freeing(x: Slot)      // allocated_objects lowered, before stack_push
    | Pushed(k: nat)        // before the lock in deallocate_object

  datatype State = State(max: nat, slabs: seq<Slab>, empty: seq<nat>, partial: seq<nat>, full: seq<nat>,
                         total: nat, inuse: int, objects: int, pc: seq<Pc>)

  datatype Outcome = Next(s: State) | Panic

  // ----- the source's operations

  function At(s: State, t: nat, p: Pc): State
    requires t < |s.pc|
  {
    s.(pc := s.pc[t := p])
  }

  // create_new_slab
  function NewSlab(max: nat): Slab {
    Slab(0, seq(max, i => i))
  }

  // the slab chosen under the lock: the head of partial, else of empty, else a new one
  function Choose(s: State): nat {
    if s.partial != [] then s.partial[0] else if s.empty != [] then s.empty[0] else |s.slabs|
  }

  function Grow(s: State): State {
    if s.partial == [] && s.empty == [] then s.(slabs := s.slabs + [NewSlab(s.max)], total := s.total + 1) else s
  }

  // the critical section of allocate_from_cache; a list removal panics when the slab is not on that list
  function Reserve(s: State, t: nat): Outcome
    requires t < |s.pc|
  {
    var k, g := Choose(s), Grow(s);
    if k >= |g.slabs| then Panic
    else
      var count := g.slabs[k].count;
      var s1 := At(g.(slabs := g.slabs[k := g.slabs[k].(count := count + 1)]), t, Reserved(k));
      if count == s.max - 1 then
        if k !in s.partial then Panic
        else Next(s1.(partial := Without(s.partial, k), full := [k] + s.full))
      else if count == 0 then
        if k < |s.slabs| && k !in s.empty then Panic
        else Next(s1.(empty := if k < |s.slabs| then Without(s.empty, k) else s.empty, partial := [k] + s.partial,
                      inuse := s.inuse + 1))
      else Next(s1)
  }

  // stack_pop; the result must not be NULL
  function Pop(s: State, t: nat, k: nat): Outcome
    requires t < |s.pc|
  {
    if k >= |s.slabs| || s.slabs[k].stack == [] then Panic
    else
      var st := s.slabs[k].stack;
      Next(At(s.(slabs := s.slabs[k := s.slabs[k].(stack := st[..|st| - 1])]), t, Popped((k, st[|st| - 1]))))
  }

  // stack_push
  function Push(s: State, t: nat, x: Slot): Outcome
    requires t < |s.pc|
  {
    if x.0 >= |s.slabs| then Panic
    else Next(At(s.(slabs := s.slabs[x.0 := s.slabs[x.0].(stack := s.slabs[x.0].stack + [x.1])]), t, Pushed(x.0)))
  }

  // the critical section of deallocate_object
  function Unreserve(s: State, t: nat, k: nat): Outcome
    requires t < |s.pc|
  {
    if k >= |s.slabs| || s.slabs[k].count == 0 then Panic
    else
      var count := s.slabs[k].count;
      var s1 := At(s.(slabs := s.slabs[k := s.slabs[k].(count := count - 1)]), t, Idle);
      if count == s.max then
        if k !in s.full then Panic
        else Next(s1.(full := Without(s.full, k), partial := [k] + s.partial))
      else if count == 1 then
        if k !in s.partial then Panic
        else Next(s1.(partial := Without(s.partial, k), empty := [k] + s.empty, inuse := s.inuse - 1))
      else Next(s1)
  }

  /** One step of request t. */
  function Step(s: State, t: nat): Outcome
    requires t < |s.pc|
  {
    match s.pc[t]
    case Idle => Reserve(s, t)
    case Reserved(k) => Pop(s, t, k)
    case Popped(x) => Next(At(s.(objects := s.objects + 1), t, Held(x)))
    case Held(x) => Next(At(s.(objects := s.objects - 1), t, Freeing(x)))
    case Freeing(x) => Push(s, t, x)
    case Pushed(k) => Unreserve(s, t, k)
  }

  function Start(max: nat, n: nat): State {
    State(max, [], [], [], [], 0, 0, 0, seq(n, _ => Idle))
  }

  function Run(s: State, schedule: seq<nat>): Outcome
    decreases |schedule|
  {
    if schedule == [] then Next(s)
    else if schedule[0] >= |s.pc| then Run(s, schedule[1..])
    else
      match Step(s, schedule[0])
      case Next(s') => Run(s', schedule[1..])
      case Panic => Panic
  }

  // ----- counting requests

  /**
    Requests counted in a slab, requests that have an object of it, requests that have reserved and not popped, requests
    that have pushed and not unreserved, owners of an object, requests in one of the first m slabs, objects in use.
  */
  datatype Query =
    | UsersOf(k: nat) | OutOf(k: nat) | ReservingIn(k: nat) | PushedIn(k: nat)
    | OwnersOf(x: Slot) | Before(m: nat) | InUse

  predicate HasObject(p: Pc) {
    p.Popped? || p.Held? || p.Freeing?
  }

  // The slab a request is in; none is -1.
  function Home(p: Pc): int {
    match p
    case Idle => -1
    case Reserved(k) => k
    case Pushed(k) => k
    case _ => p.x.0
  }

  predicate In(p: Pc, k: nat) {
    Home(p) == k
  }

  function Hit(p: Pc, q: Query): nat {
    match q
    case UsersOf(k) => if In(p, k) then 1 else 0
    case OutOf(k) => if HasObject(p) && In(p, k) then 1 else 0
    case ReservingIn(k) => if p == Reserved(k) then 1 else 0
    case PushedIn(k) => if p == Pushed(k) then 1 else 0
    case OwnersOf(x) => if HasObject(p) && p.x == x then 1 else 0
    case Before(m) => if 0 <= Home(p) < m then 1 else 0
    case InUse => if p.Held? then 1 else 0
  }

  function Tally(pc: seq<Pc>, q: Query): nat {
    if pc == [] then 0 else Hit(pc[0], q) + Tally(pc[1..], q)
  }

  lemma {:induction false} TallySet(pc: seq<Pc>, t: nat, p: Pc, q: Query)
    requires t < |pc|
    ensures Tally(pc[t := p], q) == Tally(pc, q) - Hit(pc[t], q) + Hit(p, q)
    ensures Hit(pc[t], q) <= Tally(pc, q)
  {
    if t > 0 {
      assert pc[t := p][1..] == pc[1..][t - 1 := p];
      TallySet(pc[1..], t - 1, p, q);
    }
  }

  lemma {:induction false} OutLeUsers(pc: seq<Pc>, k: nat)
    ensures Tally(pc, OutOf(k)) <= Tally(pc, UsersOf(k))
  {
    if pc != [] {
      OutLeUsers(pc[1..], k);
    }
  }

  lemma {:induction false} TallyBound(pc: seq<Pc>, q: Query)
    ensures Tally(pc, q) <= |pc|
  {
    if pc != [] {
      TallyBound(pc[1..], q);
    }
  }

  lemma {:induction false} BeforeSplit(pc: seq<Pc>, m: nat)
    ensures Tally(pc, Before(m + 1)) == Tally(pc, Before(m)) + Tally(pc, UsersOf(m))
  {
    if pc != [] {
      BeforeSplit(pc[1..], m);
    }
  }

  lemma {:induction false} BeforeNone(pc: seq<Pc>)
    ensures Tally(pc, Before(0)) == 0
  {
    if pc != [] {
      BeforeNone(pc[1..]);
    }
  }

  // ----- the invariant

  function Occ(l: seq<nat>, k: nat): nat {
    multiset(l)[k]
  }

  /** What the cache itself records about slab k: its fields and the lists it is on. */
  datatype Entry = Entry(made: bool, slab: Slab, empty: int, partial: int, full: int)

  function EntryOf(s: State, k: nat): Entry {
    Entry(k < |s.slabs|, if k < |s.slabs| then s.slabs[k] else Slab(0, []),
          Occ(s.empty, k), Occ(s.partial, k), Occ(s.full, k))
  }

  /** The same with the requests in it. */
  datatype View = View(e: Entry, users: int, out: int)

  function ViewOf(s: State, k: nat): View {
    View(EntryOf(s, k), Tally(s.pc, UsersOf(k)), Tally(s.pc, OutOf(k)))
  }

  /**
    The count of a slab is the number of requests in it; the objects not on its stack are out; its list follows from its
    count.
  */
  predicate ViewOk(v: View, max: nat) {
    var Entry(made, slab, empty, partial, full) := v.e;
    slab.count == v.users <= max && 0 <= v.out <= v.users && (!made ==> slab.count == 0) &&
    |slab.stack| + v.out == (if made then max else 0) &&
    empty == (if made && slab.count == 0 then 1 else 0) &&
    partial == (if made && 0 < slab.count < max then 1 else 0) &&
    full == (if made && slab.count == max then 1 else 0)
  }

  /** How often object i of slab k is free or owned. */
  function Places(s: State, k: nat, i: nat): nat {
    Tally(s.pc, OwnersOf((k, i))) + Occ(EntryOf(s, k).slab.stack, i)
  }

  function Expected(s: State, k: nat, i: nat): nat {
    if k < |s.slabs| && i < s.max then 1 else 0
  }

  ghost predicate SlabOk(s: State, k: nat) {
    ViewOk(ViewOf(s, k), s.max) && forall i: nat :: Places(s, k, i) == Expected(s, k, i)
  }

  ghost predicate Inv(s: State) {
    Totals(s) && forall k: nat :: SlabOk(s, k)
  }

  /** The statistics, and the bound on the number of slabs. */
  predicate Totals(s: State) {
    s.total == |s.slabs| && s.inuse == |s.partial| + |s.full| && s.objects == Tally(s.pc, InUse) &&
    (|s.slabs| > 0 ==> (|s.slabs| - 1) * s.max < |s.pc|)
  }

  lemma SlabAt(s: State, k: nat)
    requires Inv(s)
    ensures ViewOk(ViewOf(s, k), s.max)
  {
    assert SlabOk(s, k);
  }

  lemma PlacesAt(s: State, k: nat, i: nat)
    requires Inv(s)
    ensures Places(s, k, i) == Expected(s, k, i)
  {
    assert SlabOk(s, k);
  }

  // ----- steps keep the invariant

  predicate OnlyIn(p: Pc, k: nat) {
    p == Idle || In(p, k)
  }

  /** A step of request t that touches no slab but k. */
  ghost predicate Local(s: State, s': State, t: nat, k: nat) {
    t < |s.pc| == |s'.pc| && s'.pc == s.pc[t := s'.pc[t]] && s'.max == s.max &&
    OnlyIn(s.pc[t], k) && OnlyIn(s'.pc[t], k) && forall j: nat | j != k :: EntryOf(s', j) == EntryOf(s, j)
  }

  lemma OtherSlab(s: State, s': State, t: nat, k: nat, j: nat)
    requires Inv(s) && Local(s, s', t, k) && j != k
    ensures SlabOk(s', j)
  {
    assert EntryOf(s', j) == EntryOf(s, j);
    assert j < |s'.slabs| <==> j < |s.slabs|;
    hide Occ, Tally, ViewOk, Inv, EntryOf;
    TallySet(s.pc, t, s'.pc[t], UsersOf(j));
    TallySet(s.pc, t, s'.pc[t], OutOf(j));
    SlabAt(s, j);
    forall i: nat
      ensures Places(s', j, i) == Expected(s', j, i)
    {
      TallySet(s.pc, t, s'.pc[t], OwnersOf((j, i)));
      PlacesAt(s, j, i);
    }
  }

  lemma LocalKeeps(s: State, s': State, t: nat, k: nat)
    requires Inv(s) && Local(s, s', t, k) && Totals(s') && SlabOk(s', k)
    ensures Inv(s')
  {
    hide Local, Totals, SlabOk;
    forall j: nat
      ensures SlabOk(s', j)
    {
      if j != k {
        OtherSlab(s, s', t, k, j);
      }
    }
  }

  /** The counts of slab k after request t moves from p to q. */
  function Moved(v: View, p: Pc, q: Pc, k: nat): View {
    v.(users := v.users - Hit(p, UsersOf(k)) + Hit(q, UsersOf(k)), out := v.out - Hit(p, OutOf(k)) + Hit(q, OutOf(k)))
  }

  lemma OwnView(s: State, s': State, t: nat, k: nat)
    requires t < |s.pc| == |s'.pc| && s'.pc == s.pc[t := s'.pc[t]]
    ensures ViewOf(s', k) == Moved(ViewOf(s, k), s.pc[t], s'.pc[t], k).(e := EntryOf(s', k))
    ensures Tally(s'.pc, InUse) == Tally(s.pc, InUse) - Hit(s.pc[t], InUse) + Hit(s'.pc[t], InUse)
  {
    hide EntryOf;
    TallySet(s.pc, t, s'.pc[t], UsersOf(k));
    TallySet(s.pc, t, s'.pc[t], OutOf(k));
    TallySet(s.pc, t, s'.pc[t], InUse);
  }

  // A request in a slab without an object of it keeps one more place than there are objects out.
  lemma Spare(s: State, t: nat, k: nat)
    requires t < |s.pc| && In(s.pc[t], k)
    ensures ViewOf(s, k).users >= 1 + if HasObject(s.pc[t]) then 0 else ViewOf(s, k).out
  {
    hide Occ;
    TallySet(s.pc, t, Idle, UsersOf(k));
    TallySet(s.pc, t, Idle, OutOf(k));
    OutLeUsers(s.pc[t := Idle], k);
  }

  /** No object of slab k is lost or doubled when request t moves. */
  ghost predicate SameObjects(s: State, s': State, t: nat, k: nat)
    requires t < |s.pc| == |s'.pc|
  {
    forall i: nat :: Occ(EntryOf(s', k).slab.stack, i) + Hit(s'.pc[t], OwnersOf((k, i))) - Expected(s', k, i)
                     == Occ(EntryOf(s, k).slab.stack, i) + Hit(s.pc[t], OwnersOf((k, i))) - Expected(s, k, i)
  }

  /** The last pieces of every step. */
  lemma Finish(s: State, s': State, t: nat, k: nat)
    requires Inv(s) && Local(s, s', t, k) && Totals(s') && SameObjects(s, s', t, k)
    requires ViewOk(Moved(ViewOf(s, k), s.pc[t], s'.pc[t], k).(e := EntryOf(s', k)), s.max)
    ensures Inv(s')
  {
    assert t < |s.pc| == |s'.pc| && s'.pc == s.pc[t := s'.pc[t]] && s'.max == s.max;
    hide Inv, Local, Totals, ViewOk, Moved, EntryOf, Occ, Tally;
    OwnView(s, s', t, k);
    forall i: nat
      ensures Places(s', k, i) == Expected(s', k, i)
    {
      TallySet(s.pc, t, s'.pc[t], OwnersOf((k, i)));
      PlacesAt(s, k, i);
    }
    LocalKeeps(s, s', t, k);
  }

  /** Entering and leaving use: only the statistics change. */
  lemma UseKeeps(s: State, t: nat, q: Pc, n: int)
    requires Inv(s) && t < |s.pc| && HasObject(s.pc[t]) && HasObject(q) && q.x == s.pc[t].x
    requires n == s.objects - Hit(s.pc[t], InUse) + Hit(q, InUse)
    ensures Inv(At(s.(objects := n), t, q))
  {
    var s', k := At(s.(objects := n), t, q), q.x.0;
    assert Totals(s) && EntryOf(s', k) == EntryOf(s, k);
    hide Inv, ViewOk, Occ, Tally;
    OwnView(s, s', t, k);
    SlabAt(s, k);
    assert Local(s, s', t, k);
    assert Moved(ViewOf(s, k), s.pc[t], q, k).(e := EntryOf(s', k)) == ViewOf(s, k);
    hide EntryOf, Local, ViewOf;
    Finish(s, s', t, k);
  }

  // A change of slab k's own fields.
  function SetSlab(s: State, t: nat, k: nat, b: Slab, q: Pc): State
    requires t < |s.pc| && k < |s.slabs|
  {
    At(s.(slabs := s.slabs[k := b]), t, q)
  }

  lemma SetSlabLocal(s: State, t: nat, k: nat, b: Slab, q: Pc)
    requires t < |s.pc| && k < |s.slabs| && OnlyIn(s.pc[t], k) && OnlyIn(q, k)
    ensures var s' := SetSlab(s, t, k, b, q); Local(s, s', t, k) && EntryOf(s', k) == EntryOf(s, k).(slab := b)
  {
    hide Occ;
  }

  lemma InvTotals(s: State)
    requires Inv(s)
    ensures Totals(s)
  {
  }

  // The top of the stack moves to request t.
  lemma PopObjects(s: State, t: nat, k: nat, s': State)
    requires t < |s.pc| && s.pc[t] == Reserved(k) && k < |s.slabs| && s.slabs[k].stack != []
    requires var st := s.slabs[k].stack;
             s' == SetSlab(s, t, k, s.slabs[k].(stack := st[..|st| - 1]), Popped((k, st[|st| - 1])))
    ensures SameObjects(s, s', t, k)
  {
    hide Occ, Tally;
    var st := s.slabs[k].stack;
    TopOcc(st, st[..|st| - 1], st[|st| - 1]);
  }

  /** A reserved place is always backed by an object. */
  lemma PopKeeps(s: State, t: nat, k: nat)
    requires Inv(s) && t < |s.pc| && s.pc[t] == Reserved(k)
    ensures Pop(s, t, k).Next? && |Pop(s, t, k).s.pc| == |s.pc| && Inv(Pop(s, t, k).s)
  {
    hide Inv, Occ, Tally, ViewOk, Moved, Local, SameObjects;
    InvTotals(s);
    SlabAt(s, k);
    Spare(s, t, k);
    PopView(ViewOf(s, k), k, s.max);
    var st := s.slabs[k].stack;
    var b, q := s.slabs[k].(stack := st[..|st| - 1]), Popped((k, st[|st| - 1]));
    SetSlabLocal(s, t, k, b, q);
    var s' := SetSlab(s, t, k, b, q);
    OwnView(s, s', t, k);
    PopObjects(s, t, k, s');
    hide EntryOf;
    Finish(s, s', t, k);
  }

  lemma PopView(v: View, k: nat, max: nat)
    requires ViewOk(v, max) && v.users >= 1 + v.out
    ensures v.e.made && v.e.slab.stack != []
    ensures var st := v.e.slab.stack;
            ViewOk(Moved(v, Reserved(k), Popped((k, st[|st| - 1])), k).(
                     e := v.e.(slab := v.e.slab.(stack := st[..|st| - 1]))), max)
  {
  }

  lemma PushView(v: View, k: nat, i: nat, max: nat)
    requires ViewOk(v, max) && v.users >= 1 && v.out >= 1
    ensures v.e.made
    ensures var slab := v.e.slab.(stack := v.e.slab.stack + [i]);
            ViewOk(Moved(v, Freeing((k, i)), Pushed(k), k).(e := v.e.(slab := slab)), max)
  {
  }

  lemma TopOcc(st: seq<nat>, rest: seq<nat>, i: nat)
    requires st == rest + [i]
    ensures forall j: nat :: Occ(st, j) == Occ(rest, j) + if i == j then 1 else 0
  {
  }

  lemma PushKeeps(s: State, t: nat, x: Slot)
    requires Inv(s) && t < |s.pc| && s.pc[t] == Freeing(x)
    ensures Push(s, t, x).Next? && |Push(s, t, x).s.pc| == |s.pc| && Inv(Push(s, t, x).s)
  {
    hide Inv, Occ, Tally, ViewOk, Moved, Local;
    InvTotals(s);
    var k := x.0;
    SlabAt(s, k);
    Spare(s, t, k);
    TallySet(s.pc, t, Idle, OutOf(k));
    PushView(ViewOf(s, k), k, x.1, s.max);
    var st, q := s.slabs[k].stack, Pushed(k);
    var b := s.slabs[k].(stack := st + [x.1]);
    SetSlabLocal(s, t, k, b, q);
    TopOcc(b.stack, st, x.1);
    var s' := SetSlab(s, t, k, b, q);
    OwnView(s, s', t, k);
    assert SameObjects(s, s', t, k);
    hide EntryOf, SameObjects;
    Finish(s, s', t, k);
  }

  // A change of slab k's count and of the lists, as far as k is concerned.
  function Relist(s: State, t: nat, k: nat, count: nat, empty: seq<nat>, partial: seq<nat>, full: seq<nat>,
                  q: Pc): State
    requires t < |s.pc| && k < |s.slabs|
  {
    SetSlab(s.(empty := empty, partial := partial, full := full, inuse := |partial| + |full|),
            t, k, s.slabs[k].(count := count), q)
  }

  ghost predicate ListsLocal(s: State, k: nat, empty: seq<nat>, partial: seq<nat>, full: seq<nat>) {
    forall j: nat | j != k ::
      Occ(empty, j) == Occ(s.empty, j) && Occ(partial, j) == Occ(s.partial, j) && Occ(full, j) == Occ(s.full, j)
  }

  lemma RelistKeeps(s: State, t: nat, k: nat, count: nat, empty: seq<nat>, partial: seq<nat>, full: seq<nat>, q: Pc)
    requires Inv(s) && t < |s.pc| && k < |s.slabs| && OnlyIn(s.pc[t], k) && OnlyIn(q, k)
    requires !HasObject(s.pc[t]) && !HasObject(q) && ListsLocal(s, k, empty, partial, full)
    requires ViewOk(Moved(ViewOf(s, k), s.pc[t], q, k).(
                      e := Entry(true, s.slabs[k].(count := count), Occ(empty, k), Occ(partial, k), Occ(full, k))),
                    s.max)
    ensures var s' := Relist(s, t, k, count, empty, partial, full, q); Inv(s') && |s'.pc| == |s.pc| && s'.max == s.max
  {
    assert Totals(s);
    hide Inv, Occ, Tally, ViewOk;
    var s' := Relist(s, t, k, count, empty, partial, full, q);
    assert Local(s, s', t, k);
    OwnView(s, s', t, k);
    assert SameObjects(s, s', t, k);
    assert EntryOf(s', k) == Entry(true, s.slabs[k].(count := count), Occ(empty, k), Occ(partial, k), Occ(full, k));
    hide EntryOf, Local, SameObjects, Moved, ViewOf;
    Finish(s, s', t, k);
  }

  /** Slab k moves from list a to list b. */
  lemma MoveOcc(a: seq<nat>, b: seq<nat>, k: nat)
    requires Occ(a, k) > 0
    ensures k in a && |Without(a, k)| + 1 == |a| && |[k] + b| == |b| + 1
    ensures Occ(Without(a, k), k) == Occ(a, k) - 1 && Occ([k] + b, k) == Occ(b, k) + 1
    ensures forall j: nat | j != k :: Occ(Without(a, k), j) == Occ(a, j) && Occ([k] + b, j) == Occ(b, j)
  {
    hide Without;
    WithoutCounts(a, k);
  }

  lemma UnreserveKeeps(s: State, t: nat, k: nat)
    requires Inv(s) && s.max >= 2 && t < |s.pc| && s.pc[t] == Pushed(k)
    ensures var r := Unreserve(s, t, k); r.Next? && |r.s.pc| == |s.pc| && r.s.max == s.max && Inv(r.s)
  {
    hide Inv, Occ, Tally, Without, ViewOk, Moved, Unreserve, Relist;
    InvTotals(s);
    SlabAt(s, k);
    Spare(s, t, k);
    DownView(ViewOf(s, k), k, s.max);
    var count := s.slabs[k].count;
    if count == s.max || count == 1 {
      MoveOcc(if count == s.max then s.full else s.partial, [], k);
    }
    UnreserveIs(s, t, k);
    if count == s.max {
      MoveOcc(s.full, s.partial, k);
      RelistKeeps(s, t, k, count - 1, s.empty, [k] + s.partial, Without(s.full, k), Idle);
    } else if count == 1 {
      MoveOcc(s.partial, s.empty, k);
      RelistKeeps(s, t, k, count - 1, [k] + s.empty, Without(s.partial, k), s.full, Idle);
    } else {
      RelistKeeps(s, t, k, count - 1, s.empty, s.partial, s.full, Idle);
    }
  }

  lemma UnreserveIs(s: State, t: nat, k: nat)
    requires t < |s.pc| && k < |s.slabs| && s.slabs[k].count >= 1 && s.max >= 2 && s.inuse == |s.partial| + |s.full|
    requires s.slabs[k].count == s.max ==> k in s.full && |Without(s.full, k)| + 1 == |s.full|
    requires s.slabs[k].count == 1 ==> k in s.partial && |Without(s.partial, k)| + 1 == |s.partial|
    ensures var count := s.slabs[k].count;
            Unreserve(s, t, k)
            == Next(if count == s.max
                    then Relist(s, t, k, count - 1, s.empty, [k] + s.partial, Without(s.full, k), Idle)
                    else if count == 1
                    then Relist(s, t, k, count - 1, [k] + s.empty, Without(s.partial, k), s.full, Idle)
                    else Relist(s, t, k, count - 1, s.empty, s.partial, s.full, Idle))
  {
    hide Without;
  }

  lemma DownView(v: View, k: nat, max: nat)
    requires ViewOk(v, max) && v.users >= 1 + v.out && max >= 2
    ensures v.e.made && 1 <= v.e.slab.count <= max
    ensures v.e.slab.count == max ==> v.e.full == 1
    ensures v.e.slab.count == 1 ==> v.e.partial == 1
    ensures var e := v.e.(slab := v.e.slab.(count := v.e.slab.count - 1));
            ViewOk(Moved(v, Pushed(k), Idle, k).(
                     e := if v.e.slab.count == max then e.(full := e.full - 1, partial := e.partial + 1)
                          else if v.e.slab.count == 1 then e.(partial := e.partial - 1, empty := e.empty + 1)
                          else e), max)
  {
  }

  lemma ReserveKeeps(s: State, t: nat)
    requires Inv(s) && s.max >= 2 && t < |s.pc| && s.pc[t] == Idle && (s.partial != [] || s.empty != [])
    ensures var r := Reserve(s, t); r.Next? && |r.s.pc| == |s.pc| && r.s.max == s.max && Inv(r.s)
  {
    assert s.inuse == |s.partial| + |s.full|;
    var k := Choose(s);
    assert if s.partial != [] then Occ(s.partial, k) > 0 else Occ(s.empty, k) > 0;
    hide Inv, Occ, Tally, Without, ViewOk, Moved;
    SlabAt(s, k);
    UpView(ViewOf(s, k), k, s.max);
    var count := s.slabs[k].count;
    if count == s.max - 1 || count == 0 {
      MoveOcc(if count == 0 then s.empty else s.partial, [], k);
    }
    ReserveIs(s, t, k);
    hide Reserve, Relist;
    if count == s.max - 1 {
      MoveOcc(s.partial, s.full, k);
      RelistKeeps(s, t, k, count + 1, s.empty, Without(s.partial, k), [k] + s.full, Reserved(k));
    } else if count == 0 {
      MoveOcc(s.empty, s.partial, k);
      RelistKeeps(s, t, k, count + 1, Without(s.empty, k), [k] + s.partial, s.full, Reserved(k));
    } else {
      RelistKeeps(s, t, k, count + 1, s.empty, s.partial, s.full, Reserved(k));
    }
  }

  lemma ReserveIs(s: State, t: nat, k: nat)
    requires t < |s.pc| && (s.partial != [] || s.empty != []) && k == Choose(s) && s.max >= 2
    requires k < |s.slabs| && s.inuse == |s.partial| + |s.full|
    requires s.slabs[k].count == s.max - 1 ==> k in s.partial && |Without(s.partial, k)| + 1 == |s.partial|
    requires s.slabs[k].count == 0 ==> k in s.empty && |Without(s.empty, k)| + 1 == |s.empty|
    ensures var count := s.slabs[k].count;
            Reserve(s, t)
            == Next(if count == s.max - 1
                    then Relist(s, t, k, count + 1, s.empty, Without(s.partial, k), [k] + s.full, Reserved(k))
                    else if count == 0
                    then Relist(s, t, k, count + 1, Without(s.empty, k), [k] + s.partial, s.full, Reserved(k))
                    else Relist(s, t, k, count + 1, s.empty, s.partial, s.full, Reserved(k)))
  {
    hide Without;
  }

  lemma UpView(v: View, k: nat, max: nat)
    requires ViewOk(v, max) && (v.e.partial > 0 || v.e.empty > 0) && max >= 2
    ensures v.e.made && v.e.slab.count < max
    ensures v.e.slab.count == max - 1 ==> v.e.partial == 1
    ensures v.e.slab.count == 0 ==> v.e.empty == 1
    ensures var e := v.e.(slab := v.e.slab.(count := v.e.slab.count + 1));
            ViewOk(Moved(v, Idle, Reserved(k), k).(
                     e := if v.e.slab.count == max - 1 then e.(partial := e.partial - 1, full := e.full + 1)
                          else if v.e.slab.count == 0 then e.(empty := e.empty - 1, partial := e.partial + 1)
                          else e), max)
  {
  }

  // ----- a new slab

  /** The cache with a new slab, as if it had been on the empty list. */
  function Grown(s: State): State {
    s.(slabs := s.slabs + [NewSlab(s.max)], total := s.total + 1, empty := [|s.slabs|])
  }

  // When the first m slabs are full, they account for m * max requests.
  lemma {:induction false} FullSlabs(s: State, m: nat)
    requires Inv(s) && m <= |s.slabs| && s.partial == [] && s.empty == []
    ensures Tally(s.pc, Before(m)) == m * s.max
  {
    hide Inv, Tally;
    if m == 0 {
      BeforeNone(s.pc);
    } else {
      FullSlabs(s, m - 1);
      BeforeSplit(s.pc, m - 1);
      SlabAt(s, m - 1);
      Arith.MulSucc(m - 1, s.max);
    }
  }

  lemma {:induction false} Counting(max: nat, i: nat)
    ensures Occ(seq(max, j => j), i) == if i < max then 1 else 0
  {
    if max > 0 {
      var rest := seq(max - 1, j => j);
      assert seq(max, j => j) == rest + [max - 1];
      Counting(max - 1, i);
    }
  }

  lemma GrowKeeps(s: State, t: nat)
    requires Inv(s) && s.max >= 2 && t < |s.pc| && s.pc[t] == Idle && s.partial == [] && s.empty == []
    ensures Inv(Grown(s))
  {
    var s', k := Grown(s), |s.slabs|;
    assert Totals(s);
    GrowBound(s, t);
    hide Inv, Tally;
    SlabAt(s, k);
    assert s'.pc == s.pc[t := s'.pc[t]];
    assert Local(s, s', t, k);
    assert EntryOf(s', k) == Entry(true, NewSlab(s.max), 1, 0, Occ(s.full, k));
    hide Occ;
    forall i: nat
      ensures Occ(NewSlab(s.max).stack, i) == Expected(s', k, i)
      ensures Occ(EntryOf(s, k).slab.stack, i) == 0
    {
      Counting(s.max, i);
      assert Occ([], i) == 0;
    }
    assert SameObjects(s, s', t, k);
    hide EntryOf, SameObjects;
    Finish(s, s', t, k);
  }

  lemma GrowBound(s: State, t: nat)
    requires Inv(s) && t < |s.pc| && s.pc[t] == Idle && s.partial == [] && s.empty == []
    ensures |s.slabs| * s.max < |s.pc|
  {
    hide Inv, Tally;
    var m := |s.slabs|;
    if m > 0 {
      FullSlabs(s, m);
      TallySet(s.pc, t, Reserved(0), Before(m));
      TallyBound(s.pc[t := Reserved(0)], Before(m));
    }
  }

  lemma IdleSafe(s: State, t: nat)
    requires Inv(s) && s.max >= 2 && t < |s.pc| && s.pc[t] == Idle
    ensures var r := Reserve(s, t); r.Next? && |r.s.pc| == |s.pc| && r.s.max == s.max && Inv(r.s)
  {
    hide Inv;
    if s.partial == [] && s.empty == [] {
      GrowKeeps(s, t);
      ReserveKeeps(Grown(s), t);
      assert Reserve(Grown(s), t) == Reserve(s, t);
    } else {
      ReserveKeeps(s, t);
    }
  }

  // ----- every step, every run

  /** With at least two objects to a slab, no step panics and every step keeps the accounts. */
  lemma StepSafe(s: State, t: nat)
    requires Inv(s) && s.max >= 2 && t < |s.pc|
    ensures Step(s, t).Next? && Step(s, t).s.max == s.max && |Step(s, t).s.pc| == |s.pc| && Inv(Step(s, t).s)
  {
    hide Inv;
    match s.pc[t]
    case Idle => IdleSafe(s, t);
    case Reserved(k) => PopKeeps(s, t, k);
    case Popped(x) => UseKeeps(s, t, Held(x), s.objects + 1);
    case Held(x) => UseKeeps(s, t, Freeing(x), s.objects - 1);
    case Freeing(x) => PushKeeps(s, t, x);
    case Pushed(k) => UnreserveKeeps(s, t, k);
  }

  lemma {:induction false} NoneIdle(pc: seq<Pc>, q: Query)
    requires forall t | 0 <= t < |pc| :: pc[t] == Idle
    ensures Tally(pc, q) == 0
  {
    if pc != [] {
      NoneIdle(pc[1..], q);
    }
  }

  lemma StartInv(max: nat, n: nat)
    ensures Inv(Start(max, n))
  {
    var s := Start(max, n);
    forall q
      ensures Tally(s.pc, q) == 0
    {
      NoneIdle(s.pc, q);
    }
    hide Tally;
    assert forall k: nat :: SlabOk(s, k);
  }

  lemma {:induction false} RunSafe(s: State, schedule: seq<nat>)
    requires Inv(s) && s.max >= 2
    ensures Run(s, schedule).Next? && Inv(Run(s, schedule).s) && Run(s, schedule).s.max == s.max
    ensures |Run(s, schedule).s.pc| == |s.pc|
    decreases |schedule|
  {
    hide Inv, Step;
    if schedule != [] {
      if schedule[0] < |s.pc| {
        StepSafe(s, schedule[0]);
        RunSafe(Step(s, schedule[0]).s, schedule[1..]);
      } else {
        RunSafe(s, schedule[1..]);
      }
    }
  }

  // With room for fewer than two objects to a slab the very first allocation fails.
  lemma TooSmall(max: nat)
    requires max < 2
    ensures Run(Start(max, 1), [0, 0]) == Panic
  {
    var s := Start(max, 1);
    if max == 0 {
      var s1 := Step(s, 0).s;
      assert s1.pc[0] == Reserved(0) && s1.slabs[0].stack == [];
      assert Run(s1, [0]) == Panic;
      assert [0, 0][1..] == [0];
    } else {
      assert Step(s, 0) == Panic;
    }
  }

  /** The cache is safe on every run of every number of requests exactly when a slab holds at least two objects. */
  lemma SafeExactly(max: nat)
    ensures (forall n: nat, schedule :: Run(Start(max, n), schedule) != Panic) <==> max >= 2
  {
    if max >= 2 {
      forall n: nat, schedule
        ensures Run(Start(max, n), schedule) != Panic
      {
        StartInv(max, n);
        RunSafe(Start(max, n), schedule);
      }
    } else {
      TooSmall(max);
    }
  }

  predicate LeadsTo(max: nat, n: nat, schedule: seq<nat>, s: State) {
    max >= 2 && Run(Start(max, n), schedule) == Next(s)
  }

  /** The states reached by n requests over slabs of at least two objects. */
  ghost predicate Reachable(s: State) {
    exists max: nat, n: nat, schedule :: LeadsTo(max, n, schedule, s)
  }

  lemma ReachableInv(s: State)
    requires Reachable(s)
    ensures Inv(s) && s.max >= 2
  {
    var max: nat, n: nat, schedule :| LeadsTo(max, n, schedule, s);
    StartInv(max, n);
    RunSafe(Start(max, n), schedule);
  }

  /** No object is handed to two requests, or handed out while it is on its slab's stack. */
  lemma OneOwner(s: State, t: nat, u: nat)
    requires Reachable(s) && t < |s.pc| && u < |s.pc| && t != u && HasObject(s.pc[t]) && HasObject(s.pc[u])
    ensures s.pc[t].x != s.pc[u].x
    ensures var x := s.pc[t].x; x.0 < |s.slabs| && x.1 < s.max && x.1 !in s.slabs[x.0].stack
  {
    ReachableInv(s);
    var x := s.pc[t].x;
    PlacesAt(s, x.0, x.1);
    hide Inv, Tally;
    assert x == (x.0, x.1);
    TallySet(s.pc, t, Idle, OwnersOf(x));
    TallySet(s.pc[t := Idle], u, Idle, OwnersOf(x));
  }

  lemma {:induction false} UsersSplit(pc: seq<Pc>, k: nat)
    ensures Tally(pc, UsersOf(k)) == Tally(pc, OutOf(k)) + Tally(pc, ReservingIn(k)) + Tally(pc, PushedIn(k))
  {
    if pc != [] {
      UsersSplit(pc[1..], k);
    }
  }

  /**
    Nothing leaks, in any state.  The stack of a slab lacks as many objects as are counted, but for the requests between
    their two steps; every object is on the stack or has one owner; and the slab is once on the list its count says.
  */
  lemma NothingLost(s: State, k: nat)
    requires Reachable(s) && k < |s.slabs|
    ensures s.slabs[k].count <= s.max
    ensures |s.slabs[k].stack| == s.max - s.slabs[k].count + Tally(s.pc, ReservingIn(k)) + Tally(s.pc, PushedIn(k))
    ensures forall i: nat | i < s.max :: Occ(s.slabs[k].stack, i) + Tally(s.pc, OwnersOf((k, i))) == 1
    ensures Occ(s.empty, k) == (if s.slabs[k].count == 0 then 1 else 0)
    ensures Occ(s.full, k) == (if s.slabs[k].count == s.max then 1 else 0)
    ensures Occ(s.partial, k) == (if 0 < s.slabs[k].count < s.max then 1 else 0)
  {
    ReachableInv(s);
    SlabAt(s, k);
    UsersSplit(s.pc, k);
    forall i: nat | i < s.max
      ensures Occ(s.slabs[k].stack, i) + Tally(s.pc, OwnersOf((k, i))) == 1
    {
      PlacesAt(s, k, i);
    }
  }

  lemma {:induction false} NoneBetween(pc: seq<Pc>, k: nat)
    requires forall t | 0 <= t < |pc| :: !pc[t].Reserved? && !pc[t].Pushed?
    ensures Tally(pc, ReservingIn(k)) == 0 && Tally(pc, PushedIn(k)) == 0
  {
    if pc != [] {
      NoneBetween(pc[1..], k);
    }
  }

  /** When no request is between its two steps, the objects of a slab are the free ones and those handed out. */
  lemma QuietSlab(s: State, k: nat)
    requires Reachable(s) && k < |s.slabs|
    requires forall t | 0 <= t < |s.pc| :: !s.pc[t].Reserved? && !s.pc[t].Pushed?
    ensures s.slabs[k].count == Tally(s.pc, OutOf(k)) == s.max - |s.slabs[k].stack|
    ensures k in s.empty <==> s.slabs[k].count == 0
    ensures k in s.full <==> s.slabs[k].stack == []
    ensures k in s.partial <==> 0 < |s.slabs[k].stack| < s.max
  {
    ReachableInv(s);
    SlabAt(s, k);
    NothingLost(s, k);
    NoneBetween(s.pc, k);
    hide Inv, Reachable, Tally;
  }

  /** n requests never need more than n / max slabs, rounded up; and the statistics are right. */
  lemma SlabBound(s: State)
    requires Reachable(s)
    ensures s.total == |s.slabs| && (s.total > 0 ==> (s.total - 1) * s.max < |s.pc|)
    ensures s.inuse == |s.partial| + |s.full| && s.objects == Tally(s.pc, InUse)
  {
    ReachableInv(s);
  }
}
