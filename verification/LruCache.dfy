/**
  The reference-counted object cache: a hash from ids to objects, a list of idle objects (lru) and a set
  of objects in use (active), shared by any number of threads.  A miss allocates an object and
  initialises it outside the lock; later callers for the same id sleep until that is done.  Idle objects
  may be reclaimed.

  One step is one critical section of the cache lock, or one access made outside it.  A failed assertion
  or panic of the source is the outcome Panic; so is any use of an object that has been freed.
*/
module LruCache {

  import opened Common

  /**
    refs: the reference count; init, err, destroy: KOBJ_LRU_INIT, _ERR, _DESTROY; flag: KOBJ_LRU;
    released: how often the release callback has run on this object.
  */
  datatype Obj = Obj(id: nat, refs: nat, init: bool, err: bool, destroy: bool, flag: bool, released: nat)

  /** What a thread is doing; o is the object concerned. */
  datatype Pc =
    | Idle
    | Lookup(id: nat, tried: bool, cachedOnly: bool)                // before the lock in get / lookup_cached
    | Wait(o: nat, ref: nat, retry: Pc, woken: bool)                // asleep until initialised
    | Initing(o: nat)                                               // in the init callback
    | ReadyWake(o: nat)                                             // marked ready, before unblock_all
    | ErrWake(o: nat)                                               // marked failed, before unblock_all
    | ErrPut(o: nat, left: nat)                                     // dropping `left` references after a failure
    | Hold(o: nat)                                                  // owns one reference
    | PutThen(o: nat, next: Pc)                                     // dropping a reference, then next
    | Reclaim(next: Pc)                                             // before the lock in kobj_lru_reclaim
    | Releasing(o: nat, next: Pc)                                   // before the release callback
    | Unhash(o: nat, next: Pc)                                      // after it, before the second lock
    | FinalPut(o: nat, next: Pc)                                    // dropping the reclaimer's reference

  datatype State = State(max: nat, objs: map<nat, Obj>, hash: map<nat, nat>, lru: seq<nat>, active: set<nat>,
                         pc: seq<Pc>)

  datatype Outcome = Next(s: State) | Disabled | Panic

  /** A scheduler's choices: what an idle or holding thread does, the id and object it picks, and init's result. */
  datatype Act = Get | GetCached | ReclaimOne | PutBack | Remove | DropRef
  datatype Choice = Choice(act: Act, id: nat, pick: nat, ok: bool)

  // ----- the source's operations

  // __kobj_putref
  function PutRef(s: State, o: nat): Outcome {
    if o !in s.objs || s.objs[o].refs == 0 then Panic
    else if s.objs[o].refs == 1 then Next(s.(objs := s.objs - {o}))
    else Next(s.(objs := s.objs[o := s.objs[o].(refs := s.objs[o].refs - 1)]))
  }

  function At(s: State, t: nat, p: Pc): State
    requires t < |s.pc|
  {
    s.(pc := s.pc[t := p])
  }

  function PutThenGo(s: State, t: nat, o: nat, p: Pc): Outcome
    requires t < |s.pc|
  {
    match PutRef(s, o)
    case Next(s') => if |s'.pc| == |s.pc| then Next(At(s', t, p)) else Panic
    case _ => Panic
  }

  // the critical section of kobj_lru_get and kobj_lru_lookup_cached
  function DoLookup(s: State, t: nat, c: Choice): Outcome
    requires t < |s.pc| && s.pc[t].Lookup?
  {
    var p := s.pc[t];
    if p.id in s.hash then
      var o := s.hash[p.id];
      if o !in s.objs || !s.objs[o].flag then Panic
      else
        var b := s.objs[o];
        if b.destroy then Next(s)
        else
          var s1 := s.(objs := s.objs[o := b.(refs := b.refs + 1)]);
          if !b.init then Next(At(s1, t, Wait(o, b.refs, p, false)))
          else Admit(s1, t, o, b.refs, p)
    else if p.cachedOnly then Next(At(s, t, Idle))
    else if |s.hash| >= s.max > 0 && !p.tried then Next(At(s, t, Reclaim(p.(tried := true))))
    else if c.pick in s.objs then Disabled
    else
      Next(At(s.(objs := s.objs[c.pick := Obj(p.id, 3, false, false, false, true, 0)],
                 hash := s.hash[p.id := c.pick], active := s.active + {c.pick}), t, Initing(c.pick)))
  }

  // the checks after the object is found (and initialised): hand it out, or drop it and retry or fail
  function Admit(s: State, t: nat, o: nat, ref: nat, retry: Pc): Outcome
    requires t < |s.pc| && o in s.objs
  {
    var b := s.objs[o];
    if !b.flag then Next(At(s, t, PutThen(o, retry)))
    else if !b.init then Panic
    else if b.destroy then Next(At(s, t, PutThen(o, retry)))
    else if b.err then Next(At(s, t, PutThen(o, Idle)))
    else if b.refs <= 2 then Panic
    else if ref == 2 then
      if o !in s.lru then Panic
      else Next(At(s.(lru := Without(s.lru, o), active := s.active + {o}), t, Hold(o)))
    else Next(At(s, t, Hold(o)))
  }

  // kobj_lru_mark_ready and kobj_lru_mark_error, under the lock
  function DoInit(s: State, t: nat, o: nat, ok: bool): Outcome
    requires t < |s.pc|
  {
    if o !in s.objs then Panic
    else
      var b := s.objs[o];
      if ok then
        Next(At(s.(objs := s.objs[o := b.(init := true)], hash := s.hash[b.id := o]), t, ReadyWake(o)))
      else if o !in s.active then Panic
      else
        Next(At(s.(objs := s.objs[o := b.(init := true, err := true)], hash := s.hash - {b.id},
                   active := s.active - {o}), t, ErrWake(o)))
  }

  // the first critical section of kobj_lru_reclaim
  function DoReclaim(s: State, t: nat, next: Pc): Outcome
    requires t < |s.pc|
  {
    if s.lru == [] then Next(At(s, t, next))
    else
      var o := s.lru[|s.lru| - 1];
      if o !in s.objs || s.objs[o].refs != 2 then Panic
      else Next(At(s.(lru := s.lru[..|s.lru| - 1], objs := s.objs[o := s.objs[o].(destroy := true, refs := 1)]),
                   t, Releasing(o, next)))
  }

  // the second critical section of kobj_lru_reclaim
  function DoUnhash(s: State, t: nat, o: nat, next: Pc): Outcome
    requires t < |s.pc|
  {
    if o !in s.objs || s.objs[o].id !in s.hash then Panic
    else Next(At(s.(hash := s.hash - {s.objs[o].id}, objs := s.objs[o := s.objs[o].(destroy := false)]),
                 t, FinalPut(o, next)))
  }

  // kobj_lru_put
  function DoPut(s: State, t: nat, o: nat): Outcome
    requires t < |s.pc|
  {
    if o !in s.objs || s.objs[o].destroy || s.objs[o].refs < 3 then Panic
    else
      var b := s.objs[o];
      var s1 := s.(objs := s.objs[o := b.(refs := b.refs - 1)]);
      if b.refs - 1 == 2 && b.flag then
        if o !in s.active then Panic
        else Next(At(s1.(active := s.active - {o}, lru := [o] + s.lru), t, Idle))
      else Next(At(s1, t, Idle))
  }

  // kobj_lru_remove: takes the object out of the cache; the caller keeps its own reference
  function DoRemove(s: State, t: nat, o: nat): Outcome
    requires t < |s.pc|
  {
    if o !in s.objs || o !in s.active || s.objs[o].refs < 3 then Panic
    else
      var b := s.objs[o];
      Next(s.(objs := s.objs[o := b.(flag := false, refs := b.refs - 2)], hash := s.hash - {b.id},
              active := s.active - {o}))
  }

  // blocklist_unblock_all on the object's wait list
  function Wake(pc: seq<Pc>, o: nat): (r: seq<Pc>)
    ensures |r| == |pc|
  {
    if pc == [] then []
    else [if pc[0].Wait? && pc[0].o == o then pc[0].(woken := true) else pc[0]] + Wake(pc[1..], o)
  }

  /** One step of thread t. Put and Remove are for objects still in the cache, a plain putref for removed ones. */
  function Step(s: State, t: nat, c: Choice): Outcome
    requires t < |s.pc|
  {
    match s.pc[t]
    case Idle =>
      (match c.act
       case Get => Next(At(s, t, Lookup(c.id, false, false)))
       case GetCached => Next(At(s, t, Lookup(c.id, false, true)))
       case ReclaimOne => Next(At(s, t, Reclaim(Idle)))
       case _ => Disabled)
    case Lookup(_, _, _) => DoLookup(s, t, c)
    case Wait(o, ref, retry, woken) =>
      if !woken then Disabled else if o !in s.objs then Panic else Admit(s, t, o, ref, retry)
    case Initing(o) => DoInit(s, t, o, c.ok)
    case ReadyWake(o) => Next(At(s.(pc := Wake(s.pc, o)), t, Hold(o)))
    case ErrWake(o) => Next(At(s.(pc := Wake(s.pc, o)), t, ErrPut(o, 3)))
    case ErrPut(o, left) => PutThenGo(s, t, o, if left <= 1 then Idle else ErrPut(o, left - 1))
    case Hold(o) =>
      if o !in s.objs then Panic
      else
        (match c.act
         case PutBack => if s.objs[o].flag then DoPut(s, t, o) else Disabled
         case Remove => if s.objs[o].flag then DoRemove(s, t, o) else Disabled
         case DropRef => if s.objs[o].flag then Disabled else PutThenGo(s, t, o, Idle)
         case _ => Disabled)
    case PutThen(o, next) => PutThenGo(s, t, o, next)
    case Reclaim(next) => DoReclaim(s, t, next)
    case Releasing(o, next) =>
      if o !in s.objs then Panic
      else Next(At(s.(objs := s.objs[o := s.objs[o].(released := s.objs[o].released + 1)]), t, Unhash(o, next)))
    case Unhash(o, next) => DoUnhash(s, t, o, next)
    case FinalPut(o, next) => PutThenGo(s, t, o, next)
  }

  function Start(max: nat, n: nat): State {
    State(max, map[], map[], [], {}, seq(n, _ => Idle))
  }

  function Run(s: State, schedule: seq<(nat, Choice)>): Outcome
    decreases |schedule|
  {
    if schedule == [] then Next(s)
    else
      var (t, c) := schedule[0];
      if t >= |s.pc| then Run(s, schedule[1..])
      else
        match Step(s, t, c)
        case Next(s') => Run(s', schedule[1..])
        case Disabled => Run(s, schedule[1..])
        case Panic => Panic
  }

  // ----- who refers to an object

  datatype Role = Nobody | Initer | Releaser | Unhasher | Finisher | Waker | Sleeper | User

  /** The object a thread refers to, in what role, and with how many references. */
  function RoleOf(p: Pc): (Role, nat, nat) {
    match p
    case Initing(o) => (Initer, o, 1)
    case ReadyWake(o) => (Waker, o, 1)
    case ErrWake(o) => (Waker, o, 3)
    case ErrPut(o, left) => (User, o, if left == 0 then 1 else left)
    case Wait(o, _, _, woken) => (if woken then User else Sleeper, o, 1)
    case Hold(o) => (User, o, 1)
    case PutThen(o, _) => (User, o, 1)
    case Releasing(o, _) => (Releaser, o, 1)
    case Unhash(o, _) => (Unhasher, o, 1)
    case FinalPut(o, _) => (Finisher, o, 1)
    case _ => (Nobody, 0, 0)
  }

  predicate On(p: Pc, o: nat) {
    RoleOf(p).0 != Nobody && RoleOf(p).1 == o
  }

  predicate OnlyOn(p: Pc, o: nat) {
    RoleOf(p).0 == Nobody || RoleOf(p).1 == o
  }

  function WeightOf(p: Pc, o: nat): nat {
    if On(p, o) then RoleOf(p).2 else 0
  }

  /** References that threads hold on object o. */
  function Weight(pc: seq<Pc>, o: nat): nat {
    if pc == [] then 0 else WeightOf(pc[0], o) + Weight(pc[1..], o)
  }

  function HasRole(p: Pc, r: Role, o: nat): nat {
    if On(p, o) && RoleOf(p).0 == r then 1 else 0
  }

  /** Number of threads in role r on object o. */
  function Count(pc: seq<Pc>, r: Role, o: nat): nat {
    if pc == [] then 0 else HasRole(pc[0], r, o) + Count(pc[1..], r, o)
  }

  lemma {:induction false} WeightSet(pc: seq<Pc>, t: nat, p: Pc, o: nat)
    requires t < |pc|
    ensures Weight(pc[t := p], o) == Weight(pc, o) - WeightOf(pc[t], o) + WeightOf(p, o)
    ensures WeightOf(pc[t], o) <= Weight(pc, o)
  {
    if t > 0 {
      assert pc[t := p][1..] == pc[1..][t - 1 := p];
      WeightSet(pc[1..], t - 1, p, o);
    }
  }

  lemma {:induction false} CountSet(pc: seq<Pc>, t: nat, p: Pc, r: Role, o: nat)
    requires t < |pc|
    ensures Count(pc[t := p], r, o) == Count(pc, r, o) - HasRole(pc[t], r, o) + HasRole(p, r, o)
    ensures HasRole(pc[t], r, o) <= Count(pc, r, o)
  {
    if t > 0 {
      assert pc[t := p][1..] == pc[1..][t - 1 := p];
      CountSet(pc[1..], t - 1, p, r, o);
    }
  }

  lemma {:induction false} CountsLeWeight(pc: seq<Pc>, o: nat)
    ensures Count(pc, Initer, o) + Count(pc, Releaser, o) + Count(pc, Unhasher, o) + Count(pc, Finisher, o)
            + Count(pc, Waker, o) + Count(pc, Sleeper, o) + Count(pc, User, o) <= Weight(pc, o)
  {
    if pc != [] {
      CountsLeWeight(pc[1..], o);
    }
  }

  lemma CountTwo(pc: seq<Pc>, t: nat, u: nat, r: Role, o: nat)
    requires t < |pc| && u < |pc| && t != u && HasRole(pc[t], r, o) == 1 && HasRole(pc[u], r, o) == 1
    ensures Count(pc, r, o) >= 2
  {
    CountSet(pc, t, Idle, r, o);
    CountSet(pc[t := Idle], u, Idle, r, o);
  }

  // ----- the invariant

  ghost predicate InHash(s: State, o: nat) {
    o in s.objs && s.objs[o].id in s.hash && s.hash[s.objs[o].id] == o
  }

  function Occ(l: seq<nat>, o: nat): nat {
    multiset(l)[o]
  }

  function LruCount(s: State, o: nat): nat {
    Occ(s.lru, o)
  }

  /** An object as the invariant sees it: its fields, where it is listed, and which threads are on it. */
  datatype View = View(b: Obj, hashed: bool, lru: int, active: bool, weight: int,
                       initers: int, releasers: int, unhashers: int, finishers: int, wakers: int, sleepers: int)

  ghost function ViewOf(s: State, o: nat): View
    requires o in s.objs
  {
    View(s.objs[o], InHash(s, o), LruCount(s, o), o in s.active, Weight(s.pc, o),
         Count(s.pc, Initer, o), Count(s.pc, Releaser, o), Count(s.pc, Unhasher, o), Count(s.pc, Finisher, o),
         Count(s.pc, Waker, o), Count(s.pc, Sleeper, o))
  }

  /**
    The accounting for one object.  The cache itself owns two references of a hashed object that is not
    being destroyed, the threads on it own the others; a ready object is on the lru list when no thread
    is on it and active otherwise.
  */
  predicate ViewOk(v: View) {
    v.b.refs == v.weight + (if v.hashed && !v.b.destroy then 2 else 0) && v.b.refs >= 1 &&
    (v.hashed ==> v.b.flag && !v.b.err) &&
    (v.hashed && !v.b.init ==> !v.b.destroy && v.active && v.lru == 0) &&
    v.initers == (if v.b.init then 0 else 1) &&
    (v.hashed && v.b.init && !v.b.destroy ==>
       v.lru == (if v.weight == 0 then 1 else 0) && (v.active <==> v.weight > 0)) &&
    (v.hashed && v.b.destroy ==> v.b.init && v.weight == 1 && v.lru == 0 && !v.active) &&
    v.releasers + v.unhashers == (if v.hashed && v.b.destroy then 1 else 0) &&
    (!v.hashed ==> v.b.init && !v.b.destroy && v.lru == 0 && !v.active) &&
    (!v.hashed && v.b.flag && !v.b.err ==> v.finishers > 0) &&
    (v.finishers > 0 ==> !v.hashed && v.weight == 1) &&
    (v.b.init && v.sleepers > 0 ==> v.wakers > 0) &&
    v.b.released == v.unhashers + v.finishers &&
    0 <= v.releasers && 0 <= v.unhashers && 0 <= v.finishers && 0 <= v.wakers && 0 <= v.sleepers &&
    v.initers + v.releasers + v.unhashers + v.finishers + v.wakers + v.sleepers <= v.weight
  }

  ghost predicate ObjOk(s: State, o: nat)
    requires o in s.objs
  {
    ViewOk(ViewOf(s, o))
  }

  /** The counts after a thread moves from p to q. */
  function Moved(v: View, p: Pc, q: Pc, o: nat): View {
    v.(weight := v.weight - WeightOf(p, o) + WeightOf(q, o),
       initers := v.initers - HasRole(p, Initer, o) + HasRole(q, Initer, o),
       releasers := v.releasers - HasRole(p, Releaser, o) + HasRole(q, Releaser, o),
       unhashers := v.unhashers - HasRole(p, Unhasher, o) + HasRole(q, Unhasher, o),
       finishers := v.finishers - HasRole(p, Finisher, o) + HasRole(q, Finisher, o),
       wakers := v.wakers - HasRole(p, Waker, o) + HasRole(q, Waker, o),
       sleepers := v.sleepers - HasRole(p, Sleeper, o) + HasRole(q, Sleeper, o))
  }

  /** Where a lookup or a reclaim may go on afterwards. */
  predicate Resume(p: Pc) {
    p.Idle? || p.Lookup?
  }

  /** What a thread relies on. */
  ghost predicate ThreadOk(s: State, p: Pc) {
    (RoleOf(p).0 != Nobody ==> RoleOf(p).1 in s.objs) &&
    match p
    case Initing(o) => InHash(s, o) && !s.objs[o].init
    case ReadyWake(o) => s.objs[o].init && !s.objs[o].err
    case ErrWake(o) => s.objs[o].init && s.objs[o].err
    case ErrPut(o, left) => 1 <= left <= 3 && s.objs[o].init && s.objs[o].err
    case Wait(o, ref, retry, woken) => ref >= 3 && Resume(retry) && (woken ==> s.objs[o].init)
    case Hold(o) => s.objs[o].init && !s.objs[o].err
    case PutThen(o, next) => s.objs[o].init && Resume(next) && !InHash(s, o)
    case Reclaim(next) => Resume(next)
    case Releasing(o, next) => InHash(s, o) && s.objs[o].destroy && Resume(next)
    case Unhash(o, next) => InHash(s, o) && s.objs[o].destroy && Resume(next)
    case FinalPut(o, next) => Resume(next)
    case _ => true
  }

  ghost predicate Inv(s: State) {
    (forall id | id in s.hash :: s.hash[id] in s.objs && s.objs[s.hash[id]].id == id) &&
    (forall o | o in s.objs :: ObjOk(s, o)) &&
    (forall o: nat | o !in s.objs :: Weight(s.pc, o) == 0 && LruCount(s, o) == 0 && o !in s.active) &&
    forall t | 0 <= t < |s.pc| :: ThreadOk(s, s.pc[t])
  }

  lemma ObjAt(s: State, o: nat)
    requires Inv(s) && o in s.objs
    ensures ViewOk(ViewOf(s, o))
  {
    assert ObjOk(s, o);
  }

  lemma HashedAt(s: State, id: nat)
    requires Inv(s) && id in s.hash
    ensures s.hash[id] in s.objs && s.objs[s.hash[id]].id == id && InHash(s, s.hash[id])
    ensures ViewOf(s, s.hash[id]).hashed
  {
    hide ObjOk, ThreadOk;
  }

  lemma ThreadAt(s: State, t: nat)
    requires Inv(s) && t < |s.pc|
    ensures ThreadOk(s, s.pc[t])
  {
    hide ObjOk;
  }

  // ----- steps keep the invariant

  /** A step of thread t that touches no object but o. */
  ghost predicate Local(s: State, s': State, t: nat, o: nat) {
    t < |s.pc| && |s'.pc| == |s.pc| && s'.pc == s.pc[t := s'.pc[t]] &&
    OnlyOn(s.pc[t], o) && OnlyOn(s'.pc[t], o) &&
    (forall x: nat | x != o :: (x in s'.objs <==> x in s.objs) && LruCount(s', x) == LruCount(s, x)
                               && (x in s'.active <==> x in s.active)) &&
    (forall x: nat | x != o && x in s.objs :: s'.objs[x] == s.objs[x] && (InHash(s', x) <==> InHash(s, x)))
  }

  lemma OtherCounts(s: State, s': State, t: nat, o: nat, x: nat)
    requires Local(s, s', t, o) && x != o
    ensures Weight(s'.pc, x) == Weight(s.pc, x)
    ensures forall r :: Count(s'.pc, r, x) == Count(s.pc, r, x)
  {
    WeightSet(s.pc, t, s'.pc[t], x);
    forall r
      ensures Count(s'.pc, r, x) == Count(s.pc, r, x)
    {
      CountSet(s.pc, t, s'.pc[t], r, x);
    }
  }

  lemma OtherObj(s: State, s': State, t: nat, o: nat, x: nat)
    requires Inv(s) && Local(s, s', t, o) && x != o
    ensures x in s'.objs ==> ObjOk(s', x)
    ensures x !in s'.objs ==> Weight(s'.pc, x) == 0 && LruCount(s', x) == 0 && x !in s'.active
  {
    OtherCounts(s, s', t, o, x);
    hide Weight, Count, LruCount, On, ThreadOk;
    if x in s'.objs {
      assert ObjOk(s, x);
      assert s'.objs[x] == s.objs[x] && (InHash(s', x) <==> InHash(s, x));
      hide InHash;
    }
  }

  ghost predicate Stable(s: State, s': State, r: Role, o: nat) {
    o in s.objs && o in s'.objs &&
    (s.objs[o].init ==> s'.objs[o].init && s'.objs[o].err == s.objs[o].err) &&
    (InHash(s', o) ==> InHash(s, o)) &&
    (r == Initer ==> InHash(s', o) && !s'.objs[o].init) &&
    (r == Releaser || r == Unhasher ==> InHash(s', o) && s'.objs[o].destroy)
  }

  lemma RefAlive(s: State, p: Pc)
    requires ThreadOk(s, p) && RoleOf(p).0 != Nobody
    ensures RoleOf(p).1 in s.objs
    ensures RoleOf(p).0 == Initer ==> InHash(s, RoleOf(p).1) && !s.objs[RoleOf(p).1].init
    ensures RoleOf(p).0 == Releaser || RoleOf(p).0 == Unhasher ==> InHash(s, RoleOf(p).1) && s.objs[RoleOf(p).1].destroy
  {
    hide InHash;
  }

  /** What a thread relies on survives a step that keeps these facts about its object. */
  lemma ThreadStable(s: State, s': State, p: Pc)
    requires ThreadOk(s, p)
    requires var (r, o, _) := RoleOf(p);
             r != Nobody ==> Stable(s, s', r, o)
    ensures ThreadOk(s', p)
  {
    hide InHash;
  }

  lemma OtherThread(s: State, s': State, t: nat, o: nat, u: nat)
    requires Inv(s) && Local(s, s', t, o) && u < |s.pc| && u != t && !On(s.pc[u], o)
    ensures ThreadOk(s', s.pc[u])
  {
    hide ThreadOk, ObjOk;
    var (r, x, _) := RoleOf(s.pc[u]);
    if r != Nobody {
      RefAlive(s, s.pc[u]);
      assert s'.objs[x] == s.objs[x] && (InHash(s', x) <==> InHash(s, x));
    }
    hide InHash;
    ThreadStable(s, s', s.pc[u]);
  }

  lemma OthersOk(s: State, s': State, t: nat, o: nat)
    requires Inv(s) && Local(s, s', t, o)
    ensures forall x: nat | x != o && x in s'.objs :: ObjOk(s', x)
    ensures forall x: nat | x != o && x !in s'.objs :: Weight(s'.pc, x) == 0 && LruCount(s', x) == 0 && x !in s'.active
    ensures forall u | 0 <= u < |s.pc| && u != t && !On(s.pc[u], o) :: ThreadOk(s', s.pc[u])
  {
    hide ObjOk, ThreadOk, Inv, Local, Weight, LruCount;
    forall x: nat | x != o
      ensures x in s'.objs ==> ObjOk(s', x)
      ensures x !in s'.objs ==> Weight(s'.pc, x) == 0 && LruCount(s', x) == 0 && x !in s'.active
    {
      OtherObj(s, s', t, o, x);
    }
    forall u | 0 <= u < |s.pc| && u != t && !On(s.pc[u], o)
      ensures ThreadOk(s', s.pc[u])
    {
      OtherThread(s, s', t, o, u);
    }
  }

  // The view of o itself after the move.
  lemma OwnView(s: State, s': State, t: nat, o: nat)
    requires t < |s.pc| && |s'.pc| == |s.pc| && s'.pc == s.pc[t := s'.pc[t]] && o in s.objs && o in s'.objs
    ensures ViewOf(s', o) == Moved(ViewOf(s, o), s.pc[t], s'.pc[t], o).(
              b := s'.objs[o], hashed := InHash(s', o), lru := LruCount(s', o), active := o in s'.active)
    ensures WeightOf(s.pc[t], o) <= ViewOf(s, o).weight
  {
    var p := s'.pc[t];
    WeightSet(s.pc, t, p, o);
    CountSet(s.pc, t, p, Initer, o);
    CountSet(s.pc, t, p, Releaser, o);
    CountSet(s.pc, t, p, Unhasher, o);
    CountSet(s.pc, t, p, Finisher, o);
    CountSet(s.pc, t, p, Waker, o);
    CountSet(s.pc, t, p, Sleeper, o);
  }

  ghost predicate HashOk(s: State) {
    forall id | id in s.hash :: s.hash[id] in s.objs && s.objs[s.hash[id]].id == id
  }

  /** Assembling the invariant after a local step. */
  lemma LocalKeeps(s: State, s': State, t: nat, o: nat)
    requires Inv(s) && Local(s, s', t, o) && HashOk(s')
    requires o in s'.objs ==> ObjOk(s', o)
    requires o !in s'.objs ==> Weight(s'.pc, o) == 0 && LruCount(s', o) == 0 && o !in s'.active
    requires ThreadOk(s', s'.pc[t])
    requires forall u | 0 <= u < |s.pc| && u != t && On(s.pc[u], o) :: ThreadOk(s', s.pc[u])
    ensures Inv(s')
  {
    OthersOk(s, s', t, o);
    hide ObjOk, Weight, LruCount, ThreadOk;
    forall u | 0 <= u < |s'.pc|
      ensures ThreadOk(s', s'.pc[u])
    {
      if u != t {
        assert s'.pc[u] == s.pc[u];
      }
    }
  }

  ghost predicate Keeps(s: State, t: nat, c: Choice)
    requires t < |s.pc|
  {
    var r := Step(s, t, c);
    r != Panic && (r.Next? ==> |r.s.pc| == |s.pc| && Inv(r.s))
  }

  // The threads on o other than t keep what they rely on when o's entry in the cache stays as it was.
  lemma SameForAll(s: State, s': State, t: nat, o: nat)
    requires Inv(s) && o in s.objs && o in s'.objs && (InHash(s', o) <==> InHash(s, o))
    requires s'.objs[o].init == s.objs[o].init && s'.objs[o].err == s.objs[o].err
    requires s'.objs[o].destroy == s.objs[o].destroy
    ensures forall u | 0 <= u < |s.pc| && u != t && On(s.pc[u], o) :: ThreadOk(s', s.pc[u])
  {
    hide ThreadOk, ObjOk, InHash;
    forall u | 0 <= u < |s.pc| && u != t && On(s.pc[u], o)
      ensures ThreadOk(s', s.pc[u])
    {
      RefAlive(s, s.pc[u]);
      ThreadStable(s, s', s.pc[u]);
    }
  }

  // Steps that only move a thread between places where it refers to no object.
  lemma QuietKeeps(s: State, t: nat, p: Pc)
    requires Inv(s) && t < |s.pc| && RoleOf(s.pc[t]).0 == Nobody && RoleOf(p).0 == Nobody && ThreadOk(s, p)
    ensures Inv(At(s, t, p))
  {
    var s' := At(s, t, p);
    var o: nat := 0;
    assert Local(s, s', t, o);
    QuietThread(s, s', p);
    hide ThreadOk;
    if o in s.objs {
      OwnView(s, s', t, o);
      assert ObjOk(s, o) && ObjOk(s', o);
      SameForAll(s, s', t, o);
    } else {
      NobodyOn(s, o);
      WeightSet(s.pc, t, p, o);
    }
    hide ObjOk, Local, LruCount;
    LocalKeeps(s, s', t, o);
  }

  lemma QuietThread(s: State, s': State, p: Pc)
    requires ThreadOk(s, p) && RoleOf(p).0 == Nobody
    ensures ThreadOk(s', p)
  {
  }

  lemma NobodyOn(s: State, o: nat)
    requires Weight(s.pc, o) == 0
    ensures forall u | 0 <= u < |s.pc| :: !On(s.pc[u], o)
    ensures forall r | r != Nobody :: Count(s.pc, r, o) == 0
  {
    forall u | 0 <= u < |s.pc|
      ensures !On(s.pc[u], o)
    {
      WeightSet(s.pc, u, Idle, o);
      PositiveWeight(s.pc[u], o);
    }
    CountsLeWeight(s.pc, o);
    forall r: Role | r != Nobody
      ensures Count(s.pc, r, o) == 0
    {
      match r
      case Initer =>
      case Releaser =>
      case Unhasher =>
      case Finisher =>
      case Waker =>
      case Sleeper =>
      case User =>
    }
  }

  lemma PositiveWeight(p: Pc, o: nat)
    ensures On(p, o) ==> WeightOf(p, o) > 0
  {
  }

  /** The last pieces of every step on one object: its view stays in order, and threads keep what they rely on. */
  lemma Finish(s: State, s': State, t: nat, o: nat)
    requires Inv(s) && Local(s, s', t, o) && HashOk(s') && o in s.objs && o in s'.objs
    requires ViewOk(Moved(ViewOf(s, o), s.pc[t], s'.pc[t], o).(
               b := s'.objs[o], hashed := InHash(s', o), lru := LruCount(s', o), active := o in s'.active))
    requires ThreadOk(s', s'.pc[t])
    requires forall u | 0 <= u < |s.pc| && u != t && On(s.pc[u], o) :: Stable(s, s', RoleOf(s.pc[u]).0, o)
    ensures Inv(s')
  {
    OwnView(s, s', t, o);
    hide ThreadOk, Moved, ViewOk, ViewOf, LruCount, Local, Stable;
    forall u | 0 <= u < |s.pc| && u != t && On(s.pc[u], o)
      ensures ThreadOk(s', s.pc[u])
    {
      ThreadStable(s, s', s.pc[u]);
    }
    LocalKeeps(s, s', t, o);
  }

  // A step that changes only o's fields and lists, and not the hash.
  function Update(s: State, t: nat, o: nat, b: Obj, lru: seq<nat>, active: set<nat>, q: Pc): State
    requires t < |s.pc|
  {
    At(s.(objs := s.objs[o := b], lru := lru, active := active), t, q)
  }

  ghost predicate ListsLocal(s: State, lru: seq<nat>, active: set<nat>, o: nat) {
    forall x: nat | x != o :: Occ(lru, x) == LruCount(s, x) && (x in active <==> x in s.active)
  }

  lemma UpdateLocal(s: State, t: nat, o: nat, b: Obj, lru: seq<nat>, active: set<nat>, q: Pc)
    requires Inv(s) && t < |s.pc| && o in s.objs && b.id == s.objs[o].id && ListsLocal(s, lru, active, o)
    requires OnlyOn(s.pc[t], o) && OnlyOn(q, o)
    ensures var s' := Update(s, t, o, b, lru, active, q);
            Local(s, s', t, o) && HashOk(s') && (InHash(s', o) <==> InHash(s, o))
            && LruCount(s', o) == Occ(lru, o)
  {
    hide ObjOk, ThreadOk, Weight;
  }

  ghost predicate ThreadsStable(s: State, s': State, t: nat, o: nat) {
    forall u | 0 <= u < |s.pc| && u != t && On(s.pc[u], o) :: Stable(s, s', RoleOf(s.pc[u]).0, o)
  }

  lemma UpdateKeeps(s: State, t: nat, o: nat, b: Obj, lru: seq<nat>, active: set<nat>, q: Pc)
    requires Inv(s) && t < |s.pc| && o in s.objs && b.id == s.objs[o].id && ListsLocal(s, lru, active, o)
    requires OnlyOn(s.pc[t], o) && OnlyOn(q, o)
    requires ViewOk(Moved(ViewOf(s, o), s.pc[t], q, o).(b := b, lru := Occ(lru, o), active := o in active))
    requires ThreadOk(Update(s, t, o, b, lru, active, q), q)
    requires ThreadsStable(s, Update(s, t, o, b, lru, active, q), t, o)
    ensures Inv(Update(s, t, o, b, lru, active, q))
  {
    var s' := Update(s, t, o, b, lru, active, q);
    UpdateLocal(s, t, o, b, lru, active, q);
    hide Inv, Local, HashOk, ListsLocal, Stable, ThreadOk, On, ViewOk;
    assert Moved(ViewOf(s, o), s.pc[t], q, o).(b := b, lru := Occ(lru, o), active := o in active)
           == Moved(ViewOf(s, o), s.pc[t], s'.pc[t], o).(
               b := s'.objs[o], hashed := InHash(s', o), lru := LruCount(s', o), active := o in s'.active);
    Finish(s, s', t, o);
  }

  // Changing neither the hash nor the state flags of o disturbs no thread.
  lemma SameFlagsStable(s: State, s': State, t: nat, o: nat)
    requires Inv(s) && o in s.objs && o in s'.objs && (InHash(s', o) <==> InHash(s, o))
    requires s'.objs[o].init == s.objs[o].init && s'.objs[o].err == s.objs[o].err
    requires s'.objs[o].destroy == s.objs[o].destroy
    ensures ThreadsStable(s, s', t, o)
  {
    hide ThreadOk, ObjOk, InHash;
    forall u | 0 <= u < |s.pc| && u != t && On(s.pc[u], o)
      ensures Stable(s, s', RoleOf(s.pc[u]).0, o)
    {
      RefAlive(s, s.pc[u]);
    }
  }

  // A step that leaves the hash and the state flags of o alone.
  lemma FieldKeeps(s: State, t: nat, o: nat, b: Obj, lru: seq<nat>, active: set<nat>, q: Pc)
    requires Inv(s) && t < |s.pc| && o in s.objs && ListsLocal(s, lru, active, o)
    requires b.(refs := 0, released := 0) == s.objs[o].(refs := 0, released := 0)
    requires OnlyOn(s.pc[t], o) && OnlyOn(q, o)
    requires ViewOk(Moved(ViewOf(s, o), s.pc[t], q, o).(b := b, lru := Occ(lru, o), active := o in active))
    requires ThreadOk(Update(s, t, o, b, lru, active, q), q)
    ensures Inv(Update(s, t, o, b, lru, active, q))
  {
    hide Inv, ListsLocal, Moved, ViewOk, ThreadOk, Occ, ThreadsStable, Local, HashOk, InHash;
    UpdateLocal(s, t, o, b, lru, active, q);
    SameFlagsStable(s, Update(s, t, o, b, lru, active, q), t, o);
    UpdateKeeps(s, t, o, b, lru, active, q);
  }

  /** A hit on an object that is still being initialised: one more sleeper. */
  lemma SleepKeeps(s: State, t: nat, o: nat)
    requires Inv(s) && t < |s.pc| && s.pc[t].Lookup? && s.pc[t].id in s.hash && s.hash[s.pc[t].id] == o
    requires o in s.objs && !s.objs[o].init && !s.objs[o].destroy
    ensures var b := s.objs[o];
            Inv(At(s.(objs := s.objs[o := b.(refs := b.refs + 1)]), t, Wait(o, b.refs, s.pc[t], false)))
  {
    hide Inv, Weight, Count, InHash, Moved, ViewOk;
    var b := s.objs[o];
    var b', q := b.(refs := b.refs + 1), Wait(o, b.refs, s.pc[t], false);
    HashedAt(s, s.pc[t].id);
    ObjAt(s, o);
    SleepView(ViewOf(s, o), s.pc[t], q, o, Occ(s.lru, o), o in s.active);
    assert ThreadOk(Update(s, t, o, b', s.lru, s.active, q), q);
    hide ThreadOk, Occ;
    FieldKeeps(s, t, o, b', s.lru, s.active, q);
  }

  lemma SleepView(v: View, p: Pc, q: Pc, o: nat, lru: int, active: bool)
    requires ViewOk(v) && v.hashed && !v.b.init && RoleOf(p).0 == Nobody && lru == v.lru && active == v.active
    requires q.Wait? && !q.woken && q.o == o
    ensures ViewOk(Moved(v, p, q, o).(b := v.b.(refs := v.b.refs + 1), lru := lru, active := active))
    ensures v.b.refs >= 3
  {
  }

  // What one thread on an object adds to the bound on its references.
  lemma UserBound(s: State, t: nat, o: nat)
    requires o in s.objs && t < |s.pc| && RoleOf(s.pc[t]).0 == User && RoleOf(s.pc[t]).1 == o
    ensures var v := ViewOf(s, o);
            v.initers + v.releasers + v.unhashers + v.finishers + v.wakers + v.sleepers
            + WeightOf(s.pc[t], o) <= v.weight && WeightOf(s.pc[t], o) >= 1
  {
    var s' := At(s, t, Idle);
    OwnView(s, s', t, o);
    CountsLeWeight(s'.pc, o);
    PositiveWeight(s.pc[t], o);
  }

  /** A hit on a ready object: it leaves the lru list if it was idle, and the thread owns a reference. */
  lemma HitKeeps(s: State, t: nat, o: nat)
    requires Inv(s) && t < |s.pc| && s.pc[t].Lookup? && s.pc[t].id in s.hash && s.hash[s.pc[t].id] == o
    requires o in s.objs && s.objs[o].init && !s.objs[o].destroy
    ensures var b := s.objs[o];
            var r := Admit(s.(objs := s.objs[o := b.(refs := b.refs + 1)]), t, o, b.refs, s.pc[t]);
            r.Next? && |r.s.pc| == |s.pc| && Inv(r.s)
  {
    assert ObjOk(s, o);
    HitState(s, t, o);
    hide Inv, ObjOk, Without, ListsLocal, Occ, LruCount;
    var idle := s.objs[o].refs == 2;
    var lru, active := if idle then Without(s.lru, o) else s.lru, if idle then s.active + {o} else s.active;
    HandOutLists(s, o, lru, active);
    HandOut(s, t, o, lru, active);
  }

  // The result of the critical section on a hit.
  lemma HitState(s: State, t: nat, o: nat)
    requires t < |s.pc| && o in s.objs && ObjOk(s, o) && InHash(s, o) && s.objs[o].init && !s.objs[o].destroy
    ensures var b := s.objs[o];
            var idle := b.refs == 2;
            Admit(s.(objs := s.objs[o := b.(refs := b.refs + 1)]), t, o, b.refs, s.pc[t])
            == Next(Update(s, t, o, b.(refs := b.refs + 1), if idle then Without(s.lru, o) else s.lru,
                           if idle then s.active + {o} else s.active, Hold(o)))
  {
    assert s.objs[o].refs == 2 ==> Occ(s.lru, o) == 1;
  }

  lemma HandOut(s: State, t: nat, o: nat, lru: seq<nat>, active: set<nat>)
    requires Inv(s) && t < |s.pc| && RoleOf(s.pc[t]).0 == Nobody && o in s.objs && InHash(s, o)
    requires s.objs[o].init && !s.objs[o].destroy && ListsLocal(s, lru, active, o)
    requires if s.objs[o].refs == 2 then Occ(lru, o) == 0 && o in active
             else Occ(lru, o) == LruCount(s, o) && (o in active <==> o in s.active)
    ensures Inv(Update(s, t, o, s.objs[o].(refs := s.objs[o].refs + 1), lru, active, Hold(o)))
  {
    var b := s.objs[o].(refs := s.objs[o].refs + 1);
    hide Inv, Weight, Count, InHash, Moved, ViewOk, Occ, ListsLocal, LruCount, ThreadOk;
    ObjAt(s, o);
    HandOutView(ViewOf(s, o), s.pc[t], o, Occ(lru, o), o in active);
    HoldThread(s, t, o, b, lru, active);
    FieldKeeps(s, t, o, b, lru, active, Hold(o));
  }

  lemma HoldThread(s: State, t: nat, o: nat, b: Obj, lru: seq<nat>, active: set<nat>)
    requires t < |s.pc| && b.init && !b.err
    ensures ThreadOk(Update(s, t, o, b, lru, active, Hold(o)), Hold(o))
  {
  }

  lemma HandOutLists(s: State, o: nat, lru: seq<nat>, active: set<nat>)
    requires o in s.objs && ObjOk(s, o) && InHash(s, o) && s.objs[o].init && !s.objs[o].destroy
    requires if s.objs[o].refs == 2 then lru == Without(s.lru, o) && active == s.active + {o}
             else lru == s.lru && active == s.active
    ensures ListsLocal(s, lru, active, o)
    ensures if s.objs[o].refs == 2 then Occ(lru, o) == 0 && o in active
            else Occ(lru, o) == LruCount(s, o) && (o in active <==> o in s.active)
  {
    hide InHash, Weight, Count, Without;
    WithoutCounts(s.lru, o);
  }

  lemma HandOutView(v: View, p: Pc, o: nat, lru: int, active: bool)
    requires ViewOk(v) && v.hashed && v.b.init && !v.b.destroy && RoleOf(p).0 == Nobody
    requires if v.b.refs == 2 then lru == 0 && active else lru == v.lru && active == v.active
    ensures ViewOk(Moved(v, p, Hold(o), o).(b := v.b.(refs := v.b.refs + 1), lru := lru, active := active))
    ensures !v.b.err
  {
  }

  // A thread on o changes its place, and nothing else.
  lemma ShiftKeeps(s: State, t: nat, o: nat, q: Pc)
    requires Inv(s) && t < |s.pc| && o in s.objs && On(s.pc[t], o) && On(q, o) && ThreadOk(s, q)
    requires ViewOk(Moved(ViewOf(s, o), s.pc[t], q, o))
    ensures Inv(At(s, t, q))
  {
    var b := s.objs[o];
    assert s.objs[o := b] == s.objs;
    assert ThreadOk(Update(s, t, o, b, s.lru, s.active, q), q);
    hide Inv, ThreadOk, ViewOk;
    FieldKeeps(s, t, o, b, s.lru, s.active, q);
  }

  /** A woken sleeper is given the object, or drops it to retry or to report the failure. */
  lemma AdmitKeeps(s: State, t: nat, o: nat, ref: nat, retry: Pc)
    requires Inv(s) && t < |s.pc| && s.pc[t] == Wait(o, ref, retry, true)
    ensures o in s.objs
    ensures var r := Admit(s, t, o, ref, retry); r.Next? && |r.s.pc| == |s.pc| && Inv(r.s)
  {
    hide Inv, Weight, Count, Moved, ViewOk, InHash;
    ThreadAt(s, t);
    var b := s.objs[o];
    ObjAt(s, o);
    UserBound(s, t, o);
    var q := if !b.flag then PutThen(o, retry) else if b.err then PutThen(o, Idle) else Hold(o);
    AdmitCases(ViewOf(s, o));
    UserMoves(ViewOf(s, o), s.pc[t], q, o);
    assert ThreadOk(s, q);
    assert Admit(s, t, o, ref, retry) == Next(At(s, t, q));
    hide ThreadOk;
    ShiftKeeps(s, t, o, q);
  }

  lemma AdmitCases(v: View)
    requires ViewOk(v) && v.b.init
    requires v.initers + v.releasers + v.unhashers + v.finishers + v.wakers + v.sleepers + 1 <= v.weight
    ensures !v.b.destroy
    ensures if v.b.flag && !v.b.err then v.hashed && v.b.refs > 2 else !v.hashed
  {
  }

  // A user of an object that stays a user, with as many references.
  lemma UserMoves(v: View, p: Pc, q: Pc, o: nat)
    requires ViewOk(v) && RoleOf(p) == RoleOf(q) && RoleOf(p).0 == User
    ensures ViewOk(Moved(v, p, q, o))
  {
  }

  // ----- taking an object out of the hash

  // An object leaves the hash and the active set.
  function Unhook(s: State, t: nat, o: nat, b: Obj, q: Pc): State
    requires t < |s.pc| && o in s.objs
  {
    At(s.(objs := s.objs[o := b], hash := s.hash - {s.objs[o].id}, active := s.active - {o}), t, q)
  }

  lemma UnhookLocal(s: State, t: nat, o: nat, b: Obj, q: Pc)
    requires Inv(s) && t < |s.pc| && InHash(s, o) && b.id == s.objs[o].id
    requires OnlyOn(s.pc[t], o) && OnlyOn(q, o)
    ensures var s' := Unhook(s, t, o, b, q);
            Local(s, s', t, o) && HashOk(s') && !InHash(s', o) && LruCount(s', o) == LruCount(s, o)
  {
    hide ObjOk, ThreadOk, Weight, Occ;
  }

  // When thread t is the only one in role r on o, no other thread is.
  lemma NoOther(pc: seq<Pc>, t: nat, r: Role, o: nat, u: nat)
    requires t < |pc| && u < |pc| && u != t && Count(pc, r, o) == HasRole(pc[t], r, o) && On(pc[u], o)
    ensures RoleOf(pc[u]).0 != r
  {
    CountSet(pc, t, Idle, r, o);
    CountSet(pc[t := Idle], u, Idle, r, o);
  }

  lemma AloneStable(s: State, s': State, t: nat, o: nat)
    requires t < |s.pc| && o in s.objs && o in s'.objs && (InHash(s', o) ==> InHash(s, o))
    requires s.objs[o].init ==> s'.objs[o].init && s'.objs[o].err == s.objs[o].err
    requires forall r | r == Initer || r == Releaser || r == Unhasher :: Count(s.pc, r, o) == HasRole(s.pc[t], r, o)
    ensures ThreadsStable(s, s', t, o)
  {
    hide InHash, HasRole, Count;
    forall u | 0 <= u < |s.pc| && u != t && On(s.pc[u], o)
      ensures Stable(s, s', RoleOf(s.pc[u]).0, o)
    {
      NoOther(s.pc, t, Initer, o, u);
      NoOther(s.pc, t, Releaser, o, u);
      NoOther(s.pc, t, Unhasher, o, u);
    }
  }

  lemma UnhookKeeps(s: State, t: nat, o: nat, b: Obj, q: Pc)
    requires Inv(s) && t < |s.pc| && InHash(s, o) && b.id == s.objs[o].id
    requires OnlyOn(s.pc[t], o) && OnlyOn(q, o)
    requires s.objs[o].init ==> b.init && b.err == s.objs[o].err
    requires forall r | r == Initer || r == Releaser || r == Unhasher :: Count(s.pc, r, o) == HasRole(s.pc[t], r, o)
    requires ViewOk(Moved(ViewOf(s, o), s.pc[t], q, o).(
                      b := b, hashed := false, lru := LruCount(s, o), active := false))
    requires ThreadOk(Unhook(s, t, o, b, q), q)
    ensures Inv(Unhook(s, t, o, b, q))
  {
    assert o in s.objs;
    hide Inv, Count, HasRole, InHash, Moved, ViewOk, ThreadOk, Local, HashOk, ThreadsStable, LruCount, OnlyOn;
    var s' := Unhook(s, t, o, b, q);
    UnhookLocal(s, t, o, b, q);
    AloneStable(s, s', t, o);
    UnhookFinish(s, s', t, o);
  }

  lemma UnhookFinish(s: State, s': State, t: nat, o: nat)
    requires Inv(s) && Local(s, s', t, o) && HashOk(s') && o in s.objs && o in s'.objs
    requires !InHash(s', o) && LruCount(s', o) == LruCount(s, o) && o !in s'.active
    requires ViewOk(Moved(ViewOf(s, o), s.pc[t], s'.pc[t], o).(
               b := s'.objs[o], hashed := false, lru := LruCount(s, o), active := false))
    requires ThreadOk(s', s'.pc[t]) && ThreadsStable(s, s', t, o)
    ensures Inv(s')
  {
    hide Inv, Local, InHash, Moved, ViewOk, ThreadOk, HashOk, Stable, LruCount;
    Finish(s, s', t, o);
  }

  /** Initialisation fails: the object leaves the cache, and its three references pass to the waker. */
  lemma InitErrKeeps(s: State, t: nat, o: nat)
    requires Inv(s) && t < |s.pc| && s.pc[t] == Initing(o)
    ensures var r := DoInit(s, t, o, false); r.Next? && |r.s.pc| == |s.pc| && Inv(r.s)
  {
    hide Inv, Count, Weight, Moved, ViewOk, InHash, LruCount;
    ThreadAt(s, t);
    ObjAt(s, o);
    var b := s.objs[o].(init := true, err := true);
    assert ViewOf(s, o).hashed;
    InitErrView(ViewOf(s, o), o);
    assert ThreadOk(Unhook(s, t, o, b, ErrWake(o)), ErrWake(o));
    hide ThreadOk;
    UnhookKeeps(s, t, o, b, ErrWake(o));
  }

  lemma InitErrView(v: View, o: nat)
    requires ViewOk(v) && v.hashed && !v.b.init
    ensures v.active && v.initers == 1 && v.releasers == 0 && v.unhashers == 0
    ensures ViewOk(Moved(v, Initing(o), ErrWake(o), o).(
              b := v.b.(init := true, err := true), hashed := false, lru := v.lru, active := false))
  {
  }

  /** Initialisation succeeds. */
  lemma InitOkKeeps(s: State, t: nat, o: nat)
    requires Inv(s) && t < |s.pc| && s.pc[t] == Initing(o)
    ensures var r := DoInit(s, t, o, true); r.Next? && |r.s.pc| == |s.pc| && Inv(r.s)
  {
    hide Inv, Count, Weight, Moved, ViewOk, Occ;
    ThreadAt(s, t);
    ObjAt(s, o);
    var b, q := s.objs[o].(init := true), ReadyWake(o);
    var s' := Update(s, t, o, b, s.lru, s.active, q);
    assert s.hash[b.id := o] == s.hash && ViewOf(s, o).hashed;
    InitOkView(ViewOf(s, o), o, Occ(s.lru, o), o in s.active);
    assert ThreadOk(s', q);
    hide ThreadOk;
    AloneStable(s, s', t, o);
    hide InHash, ThreadsStable;
    UpdateKeeps(s, t, o, b, s.lru, s.active, q);
  }

  lemma InitOkView(v: View, o: nat, lru: int, active: bool)
    requires ViewOk(v) && v.hashed && !v.b.init && lru == v.lru && active == v.active
    ensures !v.b.err && v.initers == 1 && v.releasers == 0 && v.unhashers == 0
    ensures ViewOk(Moved(v, Initing(o), ReadyWake(o), o).(b := v.b.(init := true), lru := lru, active := active))
  {
  }

  /** A thread with a cached object takes it out of the cache and keeps its own reference. */
  lemma RemoveKeeps(s: State, t: nat, o: nat)
    requires Inv(s) && t < |s.pc| && s.pc[t] == Hold(o) && o in s.objs && s.objs[o].flag
    ensures var r := DoRemove(s, t, o); r.Next? && |r.s.pc| == |s.pc| && Inv(r.s)
  {
    hide Inv, Count, Weight, Moved, ViewOk, InHash, LruCount;
    ThreadAt(s, t);
    ObjAt(s, o);
    UserBound(s, t, o);
    AdmitCases(ViewOf(s, o));
    RemoveView(ViewOf(s, o), o);
    var b := s.objs[o].(flag := false, refs := s.objs[o].refs - 2);
    assert s.pc[t := Hold(o)] == s.pc;
    assert ThreadOk(Unhook(s, t, o, b, Hold(o)), Hold(o));
    hide ThreadOk;
    UnhookKeeps(s, t, o, b, Hold(o));
  }

  lemma RemoveView(v: View, o: nat)
    requires ViewOk(v) && v.hashed && v.b.init && !v.b.destroy && v.weight >= 1
    ensures v.active && v.b.refs >= 3 && v.initers == 0 && v.releasers == 0 && v.unhashers == 0
    ensures ViewOk(Moved(v, Hold(o), Hold(o), o).(
              b := v.b.(flag := false, refs := v.b.refs - 2), hashed := false, lru := v.lru, active := false))
  {
  }

  // ----- reclaiming

  /** The longest idle object is chosen; nobody is on it. */
  lemma ReclaimKeeps(s: State, t: nat, next: Pc)
    requires Inv(s) && t < |s.pc| && s.pc[t] == Reclaim(next)
    ensures var r := DoReclaim(s, t, next); r.Next? && |r.s.pc| == |s.pc| && Inv(r.s)
  {
    hide Inv, Count, Weight, Moved, ViewOk, InHash, Occ;
    ThreadAt(s, t);
    if s.lru == [] {
      QuietKeeps(s, t, next);
    } else {
      var o := s.lru[|s.lru| - 1];
      var lru := s.lru[..|s.lru| - 1];
      assert s.lru == lru + [o];
      LastLru(s, o, lru);
      ObjAt(s, o);
      var q := Releasing(o, next);
      ReclaimView(ViewOf(s, o), next, o, Occ(lru, o), o in s.active);
      var b := s.objs[o].(destroy := true, refs := 1);
      var s' := Update(s, t, o, b, lru, s.active, q);
      ReclaimThread(s, t, o, lru, next);
      hide ListsLocal, ThreadOk;
      NobodyOn(s, o);
      assert ThreadsStable(s, s', t, o);
      hide ThreadsStable;
      UpdateKeeps(s, t, o, b, lru, s.active, q);
    }
  }

  lemma LastLru(s: State, o: nat, lru: seq<nat>)
    requires Inv(s) && s.lru == lru + [o]
    ensures o in s.objs && LruCount(s, o) == Occ(lru, o) + 1 && ListsLocal(s, lru, s.active, o)
  {
    hide ObjOk, ThreadOk, Weight;
    assert LruCount(s, o) > 0;
  }

  lemma ReclaimView(v: View, next: Pc, o: nat, lru: int, active: bool)
    requires ViewOk(v) && v.lru == lru + 1 && lru >= 0 && active == v.active
    ensures v.b.refs == 2 && v.weight == 0 && v.hashed && v.b.init
    ensures ViewOk(Moved(v, Reclaim(next), Releasing(o, next), o).(
              b := v.b.(destroy := true, refs := 1), lru := lru, active := active))
  {
  }

  lemma ReclaimThread(s: State, t: nat, o: nat, lru: seq<nat>, next: Pc)
    requires t < |s.pc| && InHash(s, o) && Resume(next)
    ensures ThreadOk(Update(s, t, o, s.objs[o].(destroy := true, refs := 1), lru, s.active, Releasing(o, next)),
                     Releasing(o, next))
  {
  }

  /** The release callback runs, once. */
  lemma ReleaseKeeps(s: State, t: nat, o: nat, next: Pc)
    requires Inv(s) && t < |s.pc| && s.pc[t] == Releasing(o, next)
    ensures o in s.objs
    ensures Inv(At(s.(objs := s.objs[o := s.objs[o].(released := s.objs[o].released + 1)]), t, Unhash(o, next)))
  {
    hide Inv, Count, Weight, Moved, ViewOk, Occ;
    ThreadAt(s, t);
    ObjAt(s, o);
    var b, q := s.objs[o].(released := s.objs[o].released + 1), Unhash(o, next);
    assert ViewOf(s, o).hashed;
    CountSet(s.pc, t, Idle, Releaser, o);
    ReleaseView(ViewOf(s, o), next, o, Occ(s.lru, o), o in s.active);
    assert ThreadOk(Update(s, t, o, b, s.lru, s.active, q), q);
    hide ThreadOk, InHash;
    FieldKeeps(s, t, o, b, s.lru, s.active, q);
  }

  lemma ReleaseView(v: View, next: Pc, o: nat, lru: int, active: bool)
    requires ViewOk(v) && v.hashed && v.b.destroy && v.releasers >= 1 && lru == v.lru && active == v.active
    ensures ViewOk(Moved(v, Releasing(o, next), Unhash(o, next), o).(
              b := v.b.(released := v.b.released + 1), lru := lru, active := active))
  {
  }

  /** The released object leaves the hash. */
  lemma UnhashKeeps(s: State, t: nat, o: nat, next: Pc)
    requires Inv(s) && t < |s.pc| && s.pc[t] == Unhash(o, next)
    ensures var r := DoUnhash(s, t, o, next); r.Next? && |r.s.pc| == |s.pc| && Inv(r.s)
  {
    hide Inv, Count, Weight, Moved, ViewOk, LruCount;
    ThreadAt(s, t);
    ObjAt(s, o);
    var b, q := s.objs[o].(destroy := false), FinalPut(o, next);
    assert ViewOf(s, o).hashed;
    CountSet(s.pc, t, Idle, Unhasher, o);
    UnhashView(ViewOf(s, o), next, o);
    assert s.active - {o} == s.active;
    assert ThreadOk(Unhook(s, t, o, b, q), q);
    hide ThreadOk, InHash;
    UnhookKeeps(s, t, o, b, q);
  }

  lemma UnhashView(v: View, next: Pc, o: nat)
    requires ViewOk(v) && v.hashed && v.b.destroy && v.unhashers >= 1
    ensures !v.active && v.initers == 0 && v.releasers == 0 && v.unhashers == 1
    ensures ViewOk(Moved(v, Unhash(o, next), FinalPut(o, next), o).(
              b := v.b.(destroy := false), hashed := false, lru := v.lru, active := false))
  {
  }

  // ----- dropping references

  /** A reference to an object outside the cache is dropped; the last one frees it. */
  lemma PutRefKeeps(s: State, t: nat, o: nat, q: Pc)
    requires Inv(s) && t < |s.pc| && On(s.pc[t], o) && o in s.objs && !InHash(s, o)
    requires RoleOf(s.pc[t]).0 == User || RoleOf(s.pc[t]).0 == Finisher
    requires OnlyOn(q, o) && (RoleOf(q).0 == Nobody || RoleOf(q).0 == User) && ThreadOk(s, q)
    requires WeightOf(q, o) + 1 == WeightOf(s.pc[t], o)
    ensures var r := PutThenGo(s, t, o, q); r.Next? && |r.s.pc| == |s.pc| && Inv(r.s)
  {
    hide Inv, Count, Weight, Moved, ViewOk, InHash, Occ;
    ObjAt(s, o);
    WeightSet(s.pc, t, q, o);
    CountSet(s.pc, t, q, Finisher, o);
    if RoleOf(s.pc[t]).0 == User {
      UserBound(s, t, o);
    }
    if s.objs[o].refs == 1 {
      FreeView(ViewOf(s, o));
      hide ThreadOk;
      FreeKeeps(s, t, o, q);
    } else {
      var b := s.objs[o].(refs := s.objs[o].refs - 1);
      PutView(ViewOf(s, o), s.pc[t], q, o, Occ(s.lru, o), o in s.active);
      PutThread(s, t, o, b, q);
      hide ThreadOk, RoleOf;
      FieldKeeps(s, t, o, b, s.lru, s.active, q);
    }
  }

  lemma FreeKeeps(s: State, t: nat, o: nat, q: Pc)
    requires Inv(s) && t < |s.pc| && o in s.objs && !InHash(s, o)
    requires Weight(s.pc, o) == 1 && LruCount(s, o) == 0 && o !in s.active
    requires OnlyOn(s.pc[t], o) && OnlyOn(q, o) && WeightOf(q, o) + 1 == WeightOf(s.pc[t], o) && ThreadOk(s, q)
    ensures Inv(At(s.(objs := s.objs - {o}), t, q))
  {
    var s' := At(s.(objs := s.objs - {o}), t, q);
    FreeLocal(s, t, o, q);
    hide Inv, InHash, Local, HashOk, LruCount;
    WeightSet(s.pc, t, q, o);
    PositiveWeight(q, o);
    QuietThread(s, s', q);
    NobodyOn(s', o);
    hide ThreadOk, Weight;
    assert forall u | 0 <= u < |s.pc| && u != t :: s.pc[u] == s'.pc[u];
    LocalKeeps(s, s', t, o);
  }

  lemma FreeLocal(s: State, t: nat, o: nat, q: Pc)
    requires Inv(s) && t < |s.pc| && o in s.objs && !InHash(s, o) && OnlyOn(s.pc[t], o) && OnlyOn(q, o)
    ensures var s' := At(s.(objs := s.objs - {o}), t, q); Local(s, s', t, o) && HashOk(s')
  {
    hide ObjOk, ThreadOk, Weight, Occ;
  }

  lemma PutThread(s: State, t: nat, o: nat, b: Obj, q: Pc)
    requires t < |s.pc| && o in s.objs && OnlyOn(q, o) && ThreadOk(s, q) && !InHash(s, o)
    requires b.(refs := 0) == s.objs[o].(refs := 0)
    ensures ThreadOk(Update(s, t, o, b, s.lru, s.active, q), q)
  {
  }

  lemma FreeView(v: View)
    requires ViewOk(v) && !v.hashed && v.b.refs == 1
    ensures v.weight == 1 && v.lru == 0 && !v.active
  {
  }

  lemma PutView(v: View, p: Pc, q: Pc, o: nat, lru: int, active: bool)
    requires ViewOk(v) && !v.hashed && v.b.refs >= 2 && On(p, o) && lru == v.lru && active == v.active
    requires RoleOf(p).0 == User || RoleOf(p).0 == Finisher
    requires OnlyOn(q, o) && (RoleOf(q).0 == Nobody || RoleOf(q).0 == User) && WeightOf(q, o) + 1 == WeightOf(p, o)
    requires HasRole(p, Finisher, o) <= v.finishers
    requires v.initers + v.releasers + v.unhashers + v.finishers + v.wakers + v.sleepers +
             HasRole(p, User, o) <= v.weight
    ensures ViewOk(Moved(v, p, q, o).(b := v.b.(refs := v.b.refs - 1), lru := lru, active := active))
  {
  }

  /** A cached object is put back; with the last user gone it goes to the front of the lru list. */
  lemma PutKeeps(s: State, t: nat, o: nat)
    requires Inv(s) && t < |s.pc| && s.pc[t] == Hold(o) && o in s.objs && s.objs[o].flag
    ensures var r := DoPut(s, t, o); r.Next? && |r.s.pc| == |s.pc| && Inv(r.s)
  {
    hide Inv, Count, Weight, Moved, ViewOk, InHash, Occ;
    ThreadAt(s, t);
    ObjAt(s, o);
    UserBound(s, t, o);
    AdmitCases(ViewOf(s, o));
    var b := s.objs[o].(refs := s.objs[o].refs - 1);
    var (lru, active) := if b.refs == 2 then ([o] + s.lru, s.active - {o}) else (s.lru, s.active);
    PutLists(s, o);
    PutBackView(ViewOf(s, o), o, Occ(lru, o), o in active);
    assert ThreadOk(Update(s, t, o, b, lru, active, Idle), Idle);
    hide ThreadOk, ListsLocal;
    FieldKeeps(s, t, o, b, lru, active, Idle);
  }

  lemma PutLists(s: State, o: nat)
    ensures ListsLocal(s, [o] + s.lru, s.active - {o}, o) && ListsLocal(s, s.lru, s.active, o)
    ensures Occ([o] + s.lru, o) == LruCount(s, o) + 1 && Occ(s.lru, o) == LruCount(s, o)
  {
  }

  lemma PutBackView(v: View, o: nat, lru: int, active: bool)
    requires ViewOk(v) && v.hashed && v.b.init && !v.b.destroy
    requires v.initers + v.releasers + v.unhashers + v.finishers + v.wakers + v.sleepers + 1 <= v.weight
    requires if v.b.refs == 3 then lru == v.lru + 1 && !active else lru == v.lru && active == v.active
    ensures v.b.refs >= 3 && v.active
    ensures ViewOk(Moved(v, Hold(o), Idle, o).(b := v.b.(refs := v.b.refs - 1), lru := lru, active := active))
  {
  }

  // ----- a miss

  /** A new object enters the hash, referenced by the cache and by the thread that will initialise it. */
  lemma MissKeeps(s: State, t: nat, o: nat, id: nat)
    requires Inv(s) && t < |s.pc| && RoleOf(s.pc[t]).0 == Nobody && id !in s.hash && o !in s.objs
    ensures Inv(Fresh(s, t, o, id))
  {
    var s' := Fresh(s, t, o, id);
    assert Weight(s.pc, o) == 0 && LruCount(s, o) == 0;
    MissLocal(s, t, o, id);
    hide Inv;
    assert ThreadOk(s', s'.pc[t]);
    hide Local, HashOk, LruCount, ThreadOk;
    NobodyOn(s, o);
    NewView(s, t, o, id);
    LocalKeeps(s, s', t, o);
  }

  function Fresh(s: State, t: nat, o: nat, id: nat): State
    requires t < |s.pc|
  {
    At(s.(objs := s.objs[o := Obj(id, 3, false, false, false, true, 0)], hash := s.hash[id := o],
          active := s.active + {o}), t, Initing(o))
  }

  lemma MissLocal(s: State, t: nat, o: nat, id: nat)
    requires Inv(s) && t < |s.pc| && RoleOf(s.pc[t]).0 == Nobody && id !in s.hash && o !in s.objs
    ensures Local(s, Fresh(s, t, o, id), t, o) && HashOk(Fresh(s, t, o, id))
  {
    hide ObjOk, ThreadOk, Weight, Occ;
  }

  lemma NewView(s: State, t: nat, o: nat, id: nat)
    requires t < |s.pc| && RoleOf(s.pc[t]).0 == Nobody && Weight(s.pc, o) == 0 && LruCount(s, o) == 0
    requires forall r | r != Nobody :: Count(s.pc, r, o) == 0
    ensures ObjOk(Fresh(s, t, o, id), o)
  {
    var q := Initing(o);
    WeightSet(s.pc, t, q, o);
    CountSet(s.pc, t, q, Initer, o);
    CountSet(s.pc, t, q, Releaser, o);
    CountSet(s.pc, t, q, Unhasher, o);
    CountSet(s.pc, t, q, Finisher, o);
    CountSet(s.pc, t, q, Waker, o);
    CountSet(s.pc, t, q, Sleeper, o);
    hide Weight, Count, Occ;
  }

  // ----- waking the sleepers

  lemma {:induction false} WakeWeight(pc: seq<Pc>, o: nat, x: nat)
    ensures Weight(Wake(pc, o), x) == Weight(pc, x)
  {
    if pc != [] {
      WakeWeight(pc[1..], o, x);
    }
  }

  lemma {:induction false} WakeCount(pc: seq<Pc>, o: nat, r: Role, x: nat)
    requires r != User
    ensures Count(Wake(pc, o), r, x) == if r == Sleeper && x == o then 0 else Count(pc, r, x)
  {
    if pc != [] {
      WakeCount(pc[1..], o, r, x);
    }
  }

  lemma {:induction false} WakeAt(pc: seq<Pc>, o: nat, u: nat)
    requires u < |pc|
    ensures Wake(pc, o)[u] == if pc[u].Wait? && pc[u].o == o then pc[u].(woken := true) else pc[u]
  {
    if u > 0 {
      WakeAt(pc[1..], o, u - 1);
    }
  }

  lemma WakeView(s: State, o: nat, x: nat)
    requires x in s.objs
    ensures ViewOf(s.(pc := Wake(s.pc, o)), x) == ViewOf(s, x).(sleepers := if x == o then 0 else ViewOf(s, x).sleepers)
  {
    WakeWeight(s.pc, o, x);
    WakeCount(s.pc, o, Initer, x);
    WakeCount(s.pc, o, Releaser, x);
    WakeCount(s.pc, o, Unhasher, x);
    WakeCount(s.pc, o, Finisher, x);
    WakeCount(s.pc, o, Waker, x);
    WakeCount(s.pc, o, Sleeper, x);
    hide Weight, Count, Wake;
  }

  lemma WakeKeeps(s: State, o: nat)
    requires Inv(s) && o in s.objs && s.objs[o].init
    ensures Inv(s.(pc := Wake(s.pc, o)))
  {
    var s' := s.(pc := Wake(s.pc, o));
    hide Wake, Weight, Count, Occ, ThreadOk;
    forall x | x in s'.objs
      ensures ObjOk(s', x)
    {
      WakeView(s, o, x);
      ObjAt(s, x);
    }
    forall x: nat | x !in s'.objs
      ensures Weight(s'.pc, x) == 0
    {
      WakeWeight(s.pc, o, x);
    }
    forall u | 0 <= u < |s'.pc|
      ensures ThreadOk(s', s'.pc[u])
    {
      WakeAt(s.pc, o, u);
      ThreadAt(s, u);
      WokenThread(s, s', s.pc[u], s'.pc[u]);
    }
  }

  lemma WokenThread(s: State, s': State, p: Pc, q: Pc)
    requires ThreadOk(s, p) && s' == s.(pc := s'.pc)
    requires q == p || (p.Wait? && q == p.(woken := true) && p.o in s.objs && s.objs[p.o].init)
    ensures ThreadOk(s', q)
  {
  }

  predicate WakesTo(p: Pc, q: Pc, o: nat) {
    (p == ReadyWake(o) && q == Hold(o)) || (p == ErrWake(o) && q == ErrPut(o, 3))
  }

  /** The initialiser wakes every sleeper, and goes on as the user of the object or as its undertaker. */
  lemma WakerKeeps(s: State, t: nat, o: nat, q: Pc)
    requires Inv(s) && t < |s.pc| && WakesTo(s.pc[t], q, o)
    ensures Inv(At(s.(pc := Wake(s.pc, o)), t, q))
  {
    hide Inv, Wake, Weight, Count, Moved, ViewOk, InHash;
    ThreadAt(s, t);
    var s' := s.(pc := Wake(s.pc, o));
    WakeKeeps(s, o);
    WakeAt(s.pc, o, t);
    WakeView(s, o, o);
    ObjAt(s', o);
    CountSet(s'.pc, t, q, Waker, o);
    WakerView(ViewOf(s', o), s.pc[t], q, o);
    WokenThread(s, s', s.pc[t], s.pc[t]);
    assert ThreadOk(s', q);
    hide ThreadOk;
    ShiftKeeps(s', t, o, q);
  }

  lemma WakerView(v: View, p: Pc, q: Pc, o: nat)
    requires ViewOk(v) && v.b.init && v.sleepers == 0 && v.wakers >= 1
    requires WakesTo(p, q, o)
    ensures ViewOk(Moved(v, p, q, o))
  {
  }

  // ----- every step, every run

  lemma LookupSafe(s: State, t: nat, c: Choice)
    requires Inv(s) && t < |s.pc| && s.pc[t].Lookup?
    ensures Keeps(s, t, c)
  {
    hide Inv, InHash;
    var p := s.pc[t];
    if p.id in s.hash {
      HashedAt(s, p.id);
      var o := s.hash[p.id];
      ObjAt(s, o);
      if !s.objs[o].destroy {
        if s.objs[o].init {
          HitKeeps(s, t, o);
        } else {
          SleepKeeps(s, t, o);
        }
      }
    } else if p.cachedOnly {
      QuietKeeps(s, t, Idle);
    } else if |s.hash| >= s.max > 0 && !p.tried {
      QuietKeeps(s, t, Reclaim(p.(tried := true)));
    } else if c.pick !in s.objs {
      MissKeeps(s, t, c.pick, p.id);
    }
  }

  lemma PutSafe(s: State, t: nat, o: nat, q: Pc)
    requires Inv(s) && t < |s.pc|
    requires match s.pc[t]
             case ErrPut(x, left) => x == o && q == if left <= 1 then Idle else ErrPut(o, left - 1)
             case PutThen(x, next) => x == o && q == next
             case FinalPut(x, next) => x == o && q == next
             case Hold(x) => x == o && q == Idle && o in s.objs && !s.objs[o].flag
             case _ => false
    ensures var r := PutThenGo(s, t, o, q); r.Next? && |r.s.pc| == |s.pc| && Inv(r.s)
  {
    hide Inv, InHash, Weight, Count;
    ThreadAt(s, t);
    ObjAt(s, o);
    CountSet(s.pc, t, q, Finisher, o);
    assert !InHash(s, o);
    PutRefKeeps(s, t, o, q);
  }

  /** No step panics or touches a freed object, and every step keeps the accounts. */
  lemma StepSafe(s: State, t: nat, c: Choice)
    requires Inv(s) && t < |s.pc|
    ensures Keeps(s, t, c)
  {
    hide Inv, Admit, DoInit, DoReclaim, DoUnhash, DoPut, DoRemove, PutThenGo, DoLookup, Wake;
    match s.pc[t]
    case Idle =>
      if c.act == Get || c.act == GetCached {
        QuietKeeps(s, t, Lookup(c.id, false, c.act == GetCached));
      } else if c.act == ReclaimOne {
        QuietKeeps(s, t, Reclaim(Idle));
      }
    case Lookup(_, _, _) => LookupSafe(s, t, c);
    case Wait(o, ref, retry, woken) =>
      if woken {
        AdmitKeeps(s, t, o, ref, retry);
      }
    case Initing(o) =>
      if c.ok {
        InitOkKeeps(s, t, o);
      } else {
        InitErrKeeps(s, t, o);
      }
    case ReadyWake(o) => WakerKeeps(s, t, o, Hold(o));
    case ErrWake(o) => WakerKeeps(s, t, o, ErrPut(o, 3));
    case ErrPut(o, left) => PutSafe(s, t, o, if left <= 1 then Idle else ErrPut(o, left - 1));
    case Hold(o) => HoldSafe(s, t, c);
    case PutThen(o, next) => PutSafe(s, t, o, next);
    case Reclaim(next) => ReclaimKeeps(s, t, next);
    case Releasing(o, next) => ReleaseKeeps(s, t, o, next);
    case Unhash(o, next) => UnhashKeeps(s, t, o, next);
    case FinalPut(o, next) => PutSafe(s, t, o, next);
  }

  lemma HoldSafe(s: State, t: nat, c: Choice)
    requires Inv(s) && t < |s.pc| && s.pc[t].Hold?
    ensures Keeps(s, t, c)
  {
    hide Inv, DoPut, DoRemove, PutThenGo;
    var o := s.pc[t].o;
    ThreadAt(s, t);
    if c.act == PutBack && s.objs[o].flag {
      PutKeeps(s, t, o);
    } else if c.act == Remove && s.objs[o].flag {
      RemoveKeeps(s, t, o);
    } else if c.act == DropRef && !s.objs[o].flag {
      PutSafe(s, t, o, Idle);
    }
  }

  lemma StartInv(max: nat, n: nat)
    ensures Inv(Start(max, n))
  {
    var pc := Start(max, n).pc;
    forall o: nat
      ensures Weight(pc, o) == 0
    {
      IdleWeight(pc, o);
    }
  }

  lemma {:induction false} IdleWeight(pc: seq<Pc>, o: nat)
    requires forall t | 0 <= t < |pc| :: pc[t] == Idle
    ensures Weight(pc, o) == 0
  {
    if pc != [] {
      IdleWeight(pc[1..], o);
    }
  }

  lemma {:induction false} RunSafe(s: State, schedule: seq<(nat, Choice)>)
    requires Inv(s)
    ensures Run(s, schedule).Next? && Inv(Run(s, schedule).s)
    decreases |schedule|
  {
    hide Inv;
    if schedule != [] {
      var (t, c) := schedule[0];
      if t >= |s.pc| {
        RunSafe(s, schedule[1..]);
      } else {
        StepSafe(s, t, c);
        var r := Step(s, t, c);
        RunSafe(if r.Next? then r.s else s, schedule[1..]);
      }
    }
  }

  /** Whatever n threads do, in whatever order, no assertion of the cache fails and no freed object is touched. */
  lemma NeverPanics(max: nat, n: nat, schedule: seq<(nat, Choice)>)
    ensures Run(Start(max, n), schedule).Next?
  {
    StartInv(max, n);
    RunSafe(Start(max, n), schedule);
  }

  predicate LeadsTo(max: nat, n: nat, schedule: seq<(nat, Choice)>, s: State) {
    Run(Start(max, n), schedule) == Next(s)
  }

  ghost predicate Reachable(s: State) {
    exists max: nat, n: nat, schedule :: LeadsTo(max, n, schedule, s)
  }

  lemma ReachableInv(s: State)
    requires Reachable(s)
    ensures Inv(s)
  {
    var max: nat, n: nat, schedule :| LeadsTo(max, n, schedule, s);
    StartInv(max, n);
    RunSafe(Start(max, n), schedule);
  }

  /**
    A ready cached object has two references of the cache's own and one for each reference a thread holds; it is idle,
    and listed once, exactly when no thread is on it.
  */
  lemma CachedAccounts(s: State, id: nat)
    requires Reachable(s) && id in s.hash
    ensures var o := s.hash[id];
            o in s.objs && s.objs[o].id == id && s.objs[o].flag && !s.objs[o].err &&
            (s.objs[o].init && !s.objs[o].destroy ==>
               s.objs[o].refs == 2 + Weight(s.pc, o) &&
               (o in s.lru <==> Weight(s.pc, o) == 0) && (o in s.active <==> Weight(s.pc, o) > 0) &&
               multiset(s.lru)[o] <= 1)
  {
    ReachableInv(s);
    HashedAt(s, id);
    ObjAt(s, s.hash[id]);
    hide Inv, Weight, Count;
  }

  /** Objects outside the cache live exactly as long as some thread holds a reference to them. */
  lemma UncachedAccounts(s: State, o: nat)
    requires Reachable(s) && !InHash(s, o)
    ensures o in s.objs <==> Weight(s.pc, o) > 0
    ensures o in s.objs ==> s.objs[o].refs == Weight(s.pc, o) && o !in s.lru && o !in s.active
  {
    ReachableInv(s);
    if o in s.objs {
      ObjAt(s, o);
    }
  }

  /** Two threads are never initialising an object for the same id. */
  lemma OneInitialiser(s: State, t: nat, u: nat)
    requires Reachable(s) && t < |s.pc| && u < |s.pc| && s.pc[t].Initing? && s.pc[u].Initing?
    requires s.pc[t].o in s.objs && s.pc[u].o in s.objs && s.objs[s.pc[t].o].id == s.objs[s.pc[u].o].id
    ensures t == u
  {
    ReachableInv(s);
    ThreadAt(s, t);
    ThreadAt(s, u);
    ObjAt(s, s.pc[t].o);
    hide Inv;
    if t != u {
      CountTwo(s.pc, t, u, Initer, s.pc[t].o);
    }
  }

  predicate Serves(p: Pc, o: nat) {
    p == Initing(o) || p == ReadyWake(o) || p == ErrWake(o)
  }

  /** No wake-up is lost: while a thread sleeps on an object, another is initialising it or about to wake it. */
  lemma SleeperIsServed(s: State, t: nat)
    requires Reachable(s) && t < |s.pc| && s.pc[t].Wait? && !s.pc[t].woken
    ensures exists u :: 0 <= u < |s.pc| && Serves(s.pc[u], s.pc[t].o)
  {
    ReachableInv(s);
    hide Inv, Reachable, Weight, Count, InHash;
    ThreadAt(s, t);
    var o := s.pc[t].o;
    ObjAt(s, o);
    CountSet(s.pc, t, Idle, Sleeper, o);
    hide ThreadOk;
    var u := Someone(s.pc, if s.objs[o].init then Waker else Initer, o);
    assert Serves(s.pc[u], o);
  }

  lemma {:induction false} Someone(pc: seq<Pc>, r: Role, o: nat) returns (u: nat)
    requires Count(pc, r, o) > 0
    ensures u < |pc| && On(pc[u], o) && RoleOf(pc[u]).0 == r
  {
    if HasRole(pc[0], r, o) == 1 {
      u := 0;
    } else {
      u := Someone(pc[1..], r, o);
      u := u + 1;
    }
  }

  /**
    An object is freed having been released once if it was reclaimed, and never if it was removed or failed to
    initialise.
  */
  lemma ReleasedOnce(s: State, t: nat, c: Choice, o: nat)
    requires Reachable(s) && t < |s.pc| && o in s.objs
    requires Step(s, t, c).Next? && o !in Step(s, t, c).s.objs
    ensures s.objs[o].released == if s.pc[t].FinalPut? then 1 else 0
  {
    ReachableInv(s);
    FreedBy(s, t, c, o);
    hide Inv, Step, Weight, Count, InHash, Reachable, ViewOk;
    ObjAt(s, o);
    if s.pc[t].FinalPut? {
      CountSet(s.pc, t, Idle, Finisher, o);
    } else {
      UserBound(s, t, o);
    }
    FreedView(ViewOf(s, o), s.pc[t].FinalPut?);
  }

  lemma FreedView(v: View, finisher: bool)
    requires ViewOk(v) && v.b.refs == 1
    requires if finisher then v.finishers >= 1
             else v.initers + v.releasers + v.unhashers + v.finishers + v.wakers + v.sleepers + 1 <= v.weight
    ensures v.b.released == if finisher then 1 else 0
  {
  }

  // Only dropping the last reference frees an object.
  lemma FreedBy(s: State, t: nat, c: Choice, o: nat)
    requires t < |s.pc| && o in s.objs && Step(s, t, c).Next? && o !in Step(s, t, c).s.objs
    ensures On(s.pc[t], o) && s.objs[o].refs == 1
    ensures s.pc[t].FinalPut? || RoleOf(s.pc[t]).0 == User
  {
    hide Wake, Without;
    if s.pc[t].Lookup? {
      LookupFreesNone(s, t, c, o);
    }
    hide DoLookup;
  }

  lemma LookupFreesNone(s: State, t: nat, c: Choice, o: nat)
    requires t < |s.pc| && o in s.objs && s.pc[t].Lookup?
    ensures var r := DoLookup(s, t, c); r.Next? ==> o in r.s.objs
  {
    hide Without;
  }

  // ----- putting back what has been removed

  /**
    kobj_lru_put by a thread that holds an object fails exactly when the object has been removed from the cache and
    fewer than three references to it are left.
  */
  lemma PutExactly(s: State, t: nat)
    requires Reachable(s) && t < |s.pc| && s.pc[t].Hold?
    ensures var o := s.pc[t].o;
            o in s.objs && (DoPut(s, t, o) == Panic <==> !s.objs[o].flag && s.objs[o].refs < 3)
  {
    ReachableInv(s);
    var o := s.pc[t].o;
    ThreadAt(s, t);
    ObjAt(s, o);
    if s.objs[o].flag {
      PutKeeps(s, t, o);
    }
    hide Inv, Weight, Count, InHash;
  }

  lemma {:induction false} RunMore(s: State, schedule: seq<(nat, Choice)>, t: nat, c: Choice, s1: State, s2: State)
    requires Run(s, schedule) == Next(s1) && t < |s1.pc| && Step(s1, t, c) == Next(s2)
    ensures Run(s, schedule + [(t, c)]) == Next(s2)
    decreases |schedule|
  {
    hide Step;
    var more := schedule + [(t, c)];
    if schedule == [] {
      assert more[1..] == [];
    } else {
      assert more[0] == schedule[0] && more[1..] == schedule[1..] + [(t, c)];
      var (u, d) := schedule[0];
      if u >= |s.pc| {
        RunMore(s, schedule[1..], t, c, s1, s2);
      } else {
        var r := Step(s, u, d);
        RunMore(if r.Next? then r.s else s, schedule[1..], t, c, s1, s2);
      }
    }
  }

  lemma ReachMore(s: State, t: nat, c: Choice, s': State)
    requires Reachable(s) && t < |s.pc| && Step(s, t, c) == Next(s')
    ensures Reachable(s')
  {
    hide Step;
    var max: nat, n: nat, schedule :| LeadsTo(max, n, schedule, s);
    RunMore(Start(max, n), schedule, t, c, s, s');
    assert LeadsTo(max, n, schedule + [(t, c)], s');
  }

  // One object, fetched by thread 0.
  function OneHeld(refs: nat, first: Pc, second: Pc): State {
    State(0, map[0 := Obj(0, refs, !first.Initing?, false, false, true, 0)], map[0 := 0], [], {0}, [first, second])
  }

  lemma FetchOne()
    ensures Reachable(OneHeld(3, Hold(0), Idle))
  {
    var g := Choice(Get, 0, 0, true);
    var s0, s1 := Start(0, 2), State(0, map[], map[], [], {}, [Lookup(0, false, false), Idle]);
    assert LeadsTo(0, 2, [], s0);
    assert s0.pc == [Idle, Idle];
    ReachMore(s0, 0, g, s1);
    ReachMore(s1, 0, g, OneHeld(3, Initing(0), Idle));
    InitOne();
    ReachMore(OneHeld(3, Initing(0), Idle), 0, g, OneHeld(3, ReadyWake(0), Idle));
    WakeNone();
    ReachMore(OneHeld(3, ReadyWake(0), Idle), 0, g, OneHeld(3, Hold(0), Idle));
  }

  lemma InitOne()
    ensures Step(OneHeld(3, Initing(0), Idle), 0, Choice(Get, 0, 0, true)) == Next(OneHeld(3, ReadyWake(0), Idle))
  {
    assert map[0 := 0][0 := 0] == map[0 := 0];
    var o: map<nat, Obj> := map[0 := Obj(0, 3, false, false, false, true, 0)];
    assert o[0 := Obj(0, 3, true, false, false, true, 0)] == map[0 := Obj(0, 3, true, false, false, true, 0)];
  }

  lemma WakeNone()
    ensures Step(OneHeld(3, ReadyWake(0), Idle), 0, Choice(Get, 0, 0, true)) == Next(OneHeld(3, Hold(0), Idle))
  {
    var pc := [ReadyWake(0), Idle];
    assert pc[1..] == [Idle] && [Idle][1..] == [];
    assert Wake([Idle], 0) == [Idle];
    assert Wake(pc, 0) == pc;
  }

  /** Such a state can be reached: two threads hold an object and one of them removes it. */
  lemma PutFails() returns (s: State)
    ensures Reachable(s) && s.pc == [Hold(0), Hold(0)] && DoPut(s, 1, 0) == Panic
  {
    var g := Choice(Get, 0, 0, true);
    FetchOne();
    ReachMore(OneHeld(3, Hold(0), Idle), 1, g, OneHeld(3, Hold(0), Lookup(0, false, false)));
    HitOne();
    ReachMore(OneHeld(3, Hold(0), Lookup(0, false, false)), 1, g, OneHeld(4, Hold(0), Hold(0)));
    s := State(0, map[0 := Obj(0, 2, true, false, false, false, 0)], map[], [], {}, [Hold(0), Hold(0)]);
    RemoveOne(s);
    ReachMore(OneHeld(4, Hold(0), Hold(0)), 0, Choice(Remove, 0, 0, true), s);
  }

  lemma HitOne()
    ensures Step(OneHeld(3, Hold(0), Lookup(0, false, false)), 1, Choice(Get, 0, 0, true)) ==
              Next(OneHeld(4, Hold(0), Hold(0)))
  {
    var o: map<nat, Obj> := map[0 := Obj(0, 3, true, false, false, true, 0)];
    assert o[0 := Obj(0, 4, true, false, false, true, 0)] == map[0 := Obj(0, 4, true, false, false, true, 0)];
  }

  lemma RemoveOne(s: State)
    requires s == State(0, map[0 := Obj(0, 2, true, false, false, false, 0)], map[], [], {}, [Hold(0), Hold(0)])
    ensures Step(OneHeld(4, Hold(0), Hold(0)), 0, Choice(Remove, 0, 0, true)) == Next(s)
  {
    var o: map<nat, Obj> := map[0 := Obj(0, 4, true, false, false, true, 0)];
    assert o[0 := Obj(0, 2, true, false, false, false, 0)] == map[0 := Obj(0, 2, true, false, false, false, 0)];
    var h: map<nat, nat> := map[0 := 0];
    assert h - {0} == map[];
  }

  // ----- the order of reclaim

  /** The objects that a step makes idle get the number of that step. */
  function Stamped(since: map<nat, nat>, s: State, s': State, clock: nat): map<nat, nat> {
    since + map o | o in s'.lru && o !in s.lru :: clock
  }

  /** When each object last became idle in a run. */
  function Stamps(s: State, schedule: seq<(nat, Choice)>, clock: nat, since: map<nat, nat>): map<nat, nat>
    decreases |schedule|
  {
    if schedule == [] then since
    else
      var (t, c) := schedule[0];
      if t < |s.pc| && Step(s, t, c).Next?
      then var s' := Step(s, t, c).s; Stamps(s', schedule[1..], clock + 1, Stamped(since, s, s', clock))
      else Stamps(s, schedule[1..], clock + 1, since)
  }

  /** The list of idle objects, the one that became idle last coming first. */
  ghost predicate Ordered(lru: seq<nat>, since: map<nat, nat>, clock: nat) {
    (forall i | 0 <= i < |lru| :: lru[i] in since && since[lru[i]] < clock) &&
    (forall i, j | 0 <= i < j < |lru| :: since[lru[i]] > since[lru[j]])
  }

  lemma {:induction false} WithoutIs(l: seq<nat>, o: nat) returns (i: nat)
    ensures i <= |l| && Without(l, o) == l[..i] + if i < |l| then l[i + 1..] else []
  {
    if l == [] || l[0] == o {
      i := 0;
    } else {
      var k := WithoutIs(l[1..], o);
      i := k + 1;
      assert l[..i] == [l[0]] + l[1..][..k];
      assert i < |l| ==> l[1..][k + 1..] == l[i + 1..];
      assert Without(l, o) == [l[0]] + Without(l[1..], o);
    }
  }

  // Taking objects off the list keeps it in order.
  lemma OrderedLess(l: seq<nat>, i: nat, since: map<nat, nat>, clock: nat)
    requires Ordered(l, since, clock) && i <= |l|
    ensures Ordered(l[..i] + if i < |l| then l[i + 1..] else [], since, clock + 1)
  {
  }

  /** How a step changes the list. */
  ghost predicate ListMoves(l: seq<nat>, l': seq<nat>) {
    || l' == l
    || (exists i: nat :: i < |l| && l' == l[..i] + l[i + 1..])
    || (exists o :: l' == [o] + l && o !in l)
  }

  lemma TakenOff(l: seq<nat>, o: nat)
    ensures ListMoves(l, Without(l, o))
  {
    var i := WithoutIs(l, o);
    if i < |l| {
      assert Without(l, o) == l[..i] + l[i + 1..];
    } else {
      assert Without(l, o) == l;
    }
  }

  lemma LastOff(l: seq<nat>)
    requires l != []
    ensures ListMoves(l, l[..|l| - 1])
  {
    var i := |l| - 1;
    assert l[..i] == l[..i] + l[i + 1..];
  }

  lemma PutFront(s: State, t: nat, o: nat)
    requires Inv(s) && t < |s.pc| && s.pc[t] == Hold(o) && DoPut(s, t, o).Next?
    ensures ListMoves(s.lru, DoPut(s, t, o).s.lru)
  {
    hide Inv;
    assert o in s.objs;
    ObjAt(s, o);
    UserBound(s, t, o);
    if o in s.lru {
      assert false;
    }
  }

  lemma StepMoves(s: State, t: nat, c: Choice)
    requires Inv(s) && t < |s.pc| && Step(s, t, c).Next?
    ensures ListMoves(s.lru, Step(s, t, c).s.lru)
  {
    hide Inv, ListMoves;
    SameList(s.lru);
    match s.pc[t]
    case Lookup(_, _, _) =>
      if s.pc[t].id in s.hash {
        TakenOff(s.lru, s.hash[s.pc[t].id]);
      }
    case Wait(o, ref, retry, woken) =>
      TakenOff(s.lru, o);
    case Hold(o) =>
      if c.act == PutBack {
        PutFront(s, t, o);
      }
    case Reclaim(_) =>
      if s.lru != [] {
        LastOff(s.lru);
      }
    case _ =>
  }

  lemma SameList(l: seq<nat>)
    ensures ListMoves(l, l)
  {
  }

  lemma MovesKeepOrder(s: State, s': State, since: map<nat, nat>, clock: nat)
    requires ListMoves(s.lru, s'.lru) && Ordered(s.lru, since, clock)
    ensures Ordered(s'.lru, Stamped(since, s, s', clock), clock + 1)
  {
    if i: nat :| i < |s.lru| && s'.lru == s.lru[..i] + s.lru[i + 1..] {
      OrderedLess(s.lru, i, since, clock);
      assert Stamped(since, s, s', clock) == since;
    } else if o :| s'.lru == [o] + s.lru && o !in s.lru {
      FrontOrder(s.lru, o, since, Stamped(since, s, s', clock), clock);
    } else {
      assert Stamped(since, s, s', clock) == since;
    }
  }

  lemma FrontOrder(l: seq<nat>, o: nat, since: map<nat, nat>, now: map<nat, nat>, clock: nat)
    requires Ordered(l, since, clock) && o !in l && o in now && now[o] == clock
    requires forall x | x in since && x != o :: x in now && now[x] == since[x]
    ensures Ordered([o] + l, now, clock + 1)
  {
  }

  lemma {:induction false} RunOrder(s: State, schedule: seq<(nat, Choice)>, clock: nat, since: map<nat, nat>)
    requires Inv(s) && Ordered(s.lru, since, clock)
    ensures Run(s, schedule).Next? &&
            Ordered(Run(s, schedule).s.lru, Stamps(s, schedule, clock, since), clock + |schedule|)
    decreases |schedule|
  {
    hide Inv, Step, Ordered, Stamped;
    RunSafe(s, schedule);
    if schedule != [] {
      var (t, c) := schedule[0];
      if t < |s.pc| {
        StepSafe(s, t, c);
      }
      if t < |s.pc| && Step(s, t, c).Next? {
        var s' := Step(s, t, c).s;
        StepMoves(s, t, c);
        MovesKeepOrder(s, s', since, clock);
        RunOrder(s', schedule[1..], clock + 1, Stamped(since, s, s', clock));
      } else {
        Later(s.lru, since, clock);
        RunOrder(s, schedule[1..], clock + 1, since);
      }
    }
  }

  lemma Later(l: seq<nat>, since: map<nat, nat>, clock: nat)
    requires Ordered(l, since, clock)
    ensures Ordered(l, since, clock + 1)
  {
  }

  /** In every run, kobj_lru_reclaim takes the object that has been idle for the longest time. */
  lemma ReclaimsLongestIdle(max: nat, n: nat, schedule: seq<(nat, Choice)>, t: nat)
    requires Run(Start(max, n), schedule).Next?
    requires var s := Run(Start(max, n), schedule).s; t < |s.pc| && s.pc[t].Reclaim? && s.lru != []
    ensures var s, since := Run(Start(max, n), schedule).s, Stamps(Start(max, n), schedule, 0, map[]);
            var r := DoReclaim(s, t, s.pc[t].next);
            r.Next? && |r.s.pc| == |s.pc| && r.s.pc[t].Releasing? && r.s.pc[t].o in s.lru && r.s.pc[t].o !in r.s.lru &&
            forall o | o in r.s.lru :: o in s.lru && o in since && r.s.pc[t].o in since && since[r.s.pc[t].o] < since[o]
  {
    hide Inv, Step, Run, Stamps;
    StartInv(max, n);
    assert Ordered([], map[], 0);
    RunOrder(Start(max, n), schedule, 0, map[]);
    RunSafe(Start(max, n), schedule);
    ReclaimKeeps(Run(Start(max, n), schedule).s, t, Run(Start(max, n), schedule).s.pc[t].next);
  }
}
