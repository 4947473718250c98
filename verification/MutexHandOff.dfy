/**
  The blocking mutex: an atomic counter plus a list of waiting threads, with ownership handed directly
  from the releasing thread to a registered waiter.  Any number of threads interleave; one step is one
  atomic access or one critical section of the wait list's own lock.

  The protocol is subtle because a waiter registers on the wait list before it counts itself, so a
  release may hand the mutex to a thread that the counter does not know about yet.
*/
module MutexHandOff {

  import opened Common

  const SPINS: nat := 40

  /** Where a thread is in mutex_acquire or mutex_release. */
  datatype Pc =
    | Idle
    | Spin(i: nat)    // attempt i of _spinlock_first
    | Register        // before blockpoint_startblock
    | Count           // on the wait list, before atomic_fetch_add
    | Sleep           // in schedule(), until the block point is flagged
    | Cleanup         // before blockpoint_cleanup
    | Enter           // before taking the owner field
    | Hold            // mutex_acquire has returned
    | Drop            // owner cleared, before atomic_fetch_sub
    | HandOff         // others are counted, before blocklist_unblock_one

  /** waitlist: head first; flagged: threads whose block point carries BLOCK_UNBLOCKED. */
  datatype State = State(pc: seq<Pc>, lock: int, owner: Option<nat>, waitlist: seq<nat>, flagged: set<nat>)

  /** Disabled: the thread is asleep.  Panic: an assertion of the source fails. */
  datatype Outcome = Next(s: State) | Disabled | Panic

  /** blocklist_unblock_one scans from the tail for a block point that is not flagged yet. */
  function Oldest(waitlist: seq<nat>, flagged: set<nat>): Option<nat> {
    if waitlist == [] then None
    else
      var last := waitlist[|waitlist| - 1];
      if last !in flagged then Some(last) else Oldest(waitlist[..|waitlist| - 1], flagged)
  }

  /** One step of thread t; `lucky` says whether a weak compare-and-swap that could succeed does. */
  function Step(s: State, t: nat, lucky: bool): Outcome
    requires t < |s.pc|
  {
    match s.pc[t]
    case Idle =>
      if s.owner == Some(t) then Panic else Next(s.(pc := s.pc[t := Spin(0)]))
    case Spin(i) =>
      if i >= SPINS then Next(s.(pc := s.pc[t := Register]))
      else if s.lock == 0 && lucky then Next(s.(lock := 1, pc := s.pc[t := Enter]))
      else Next(s.(pc := s.pc[t := Spin(i + 1)]))
    case Register =>
      Next(s.(waitlist := [t] + s.waitlist, flagged := s.flagged - {t}, pc := s.pc[t := Count]))
    case Count =>
      Next(s.(lock := s.lock + 1, pc := s.pc[t := if s.lock > 0 then Sleep else Cleanup]))
    case Sleep =>
      if t in s.flagged then Next(s.(pc := s.pc[t := Cleanup])) else Disabled
    case Cleanup =>
      if t !in s.waitlist then Panic
      else Next(s.(waitlist := Without(s.waitlist, t), pc := s.pc[t := Enter]))
    case Enter =>
      if s.owner.Some? then Panic else Next(s.(owner := Some(t), pc := s.pc[t := Hold]))
    case Hold =>
      if s.owner != Some(t) then Panic else Next(s.(owner := None, pc := s.pc[t := Drop]))
    case Drop =>
      Next(s.(lock := s.lock - 1, pc := s.pc[t := if s.lock != 1 then HandOff else Idle]))
    case HandOff =>
      var u := Oldest(s.waitlist, s.flagged);
      Next(s.(flagged := if u.Some? then s.flagged + {u.value} else s.flagged, pc := s.pc[t := Idle]))
  }

  function Start(n: nat): State {
    State(seq(n, _ => Idle), 0, None, [], {})
  }

  /** A run: which thread moves at each step, and its luck.  A sleeping thread's turn is skipped. */
  function Run(s: State, schedule: seq<(nat, bool)>): Outcome
    decreases |schedule|
  {
    if schedule == [] then Next(s)
    else
      var (t, lucky) := schedule[0];
      if t >= |s.pc| then Run(s, schedule[1..])
      else
        match Step(s, t, lucky)
        case Next(s') => Run(s', schedule[1..])
        case Disabled => Run(s, schedule[1..])
        case Panic => Panic
  }

  // ----- the invariant

  predicate Counted(p: Pc) {
    p == Sleep || p == Cleanup || p == Enter || p == Hold || p == Drop
  }

  predicate Waiting(p: Pc) {
    p == Count || p == Sleep || p == Cleanup
  }

  /** The right to enter: held by one thread at a time, possibly one that has not counted itself yet. */
  predicate Token(s: State, t: nat)
    requires t < |s.pc|
  {
    var p := s.pc[t];
    p == Cleanup || p == Enter || p == Hold || p == Drop || p == HandOff ||
    ((p == Count || p == Sleep) && t in s.flagged)
  }

  function CountedThreads(pc: seq<Pc>): nat {
    if pc == [] then 0 else CountedThreads(pc[1..]) + if Counted(pc[0]) then 1 else 0
  }

  ghost predicate Inv(s: State) {
    s.lock == CountedThreads(s.pc) &&
    (forall t: nat, u: nat | t < |s.pc| && u < |s.pc| && Token(s, t) && Token(s, u) :: t == u) &&
    (s.lock > 0 <==> exists t: nat :: t < |s.pc| && Token(s, t)) &&
    (forall t: nat :: multiset(s.waitlist)[t] == if t < |s.pc| && Waiting(s.pc[t]) then 1 else 0) &&
    (forall t: nat :: s.owner == Some(t) <==> t < |s.pc| && s.pc[t] == Hold)
  }

  lemma {:induction false} CountedSet(pc: seq<Pc>, t: nat, p: Pc)
    requires t < |pc|
    ensures CountedThreads(pc[t := p]) ==
            CountedThreads(pc) - (if Counted(pc[t]) then 1 else 0) + (if Counted(p) then 1 else 0)
  {
    if t > 0 {
      assert pc[t := p][1..] == pc[1..][t - 1 := p];
      CountedSet(pc[1..], t - 1, p);
    }
  }

  lemma {:induction false} CountedSome(pc: seq<Pc>) returns (t: nat)
    requires CountedThreads(pc) > 0
    ensures t < |pc| && Counted(pc[t])
  {
    if Counted(pc[0]) {
      t := 0;
    } else {
      t := CountedSome(pc[1..]);
      t := t + 1;
    }
  }

  /** The scan finds the entry nearest the tail that is not flagged, and fails only if all are flagged. */
  lemma {:induction false} OldestFinds(waitlist: seq<nat>, flagged: set<nat>)
    ensures match Oldest(waitlist, flagged)
            case None => forall i | 0 <= i < |waitlist| :: waitlist[i] in flagged
            case Some(u) =>
              exists i :: 0 <= i < |waitlist| && waitlist[i] == u && u !in flagged &&
                          forall j | i < j < |waitlist| :: waitlist[j] in flagged
  {
    if waitlist != [] {
      var n := |waitlist| - 1;
      if waitlist[n] in flagged {
        OldestFinds(waitlist[..n], flagged);
      }
    }
  }

  /**
    A release that saw other threads counted always finds a registered, unflagged waiter, and the waiter
    chosen is one that does not hold the token yet.
  */
  lemma HandOffFinds(s: State, t: nat)
    requires Inv(s) && t < |s.pc| && s.pc[t] == HandOff
    ensures Oldest(s.waitlist, s.flagged).Some?
    ensures var u := Oldest(s.waitlist, s.flagged).value;
            u < |s.pc| && (s.pc[u] == Count || s.pc[u] == Sleep) && u !in s.flagged
  {
    assert Token(s, t);
    var y := CountedSome(s.pc);
    assert !Token(s, y);
    assert multiset(s.waitlist)[y] == 1;
    OldestFinds(s.waitlist, s.flagged);
    var u := Oldest(s.waitlist, s.flagged).value;
    assert multiset(s.waitlist)[u] > 0;
    assert s.pc[u] == Cleanup ==> Token(s, u);
  }

  // ----- every step keeps the invariant

  // The step moves t to p and changes nobody else's claim to the token.
  lemma MoveKeeps(s: State, s': State, t: nat, p: Pc)
    requires Inv(s) && t < |s.pc| && s'.pc == s.pc[t := p]
    requires s'.lock == CountedThreads(s'.pc)
    requires forall u: nat | u < |s.pc| && u != t :: Token(s', u) == Token(s, u)
    requires Token(s', t) == Token(s, t) && (s'.lock > 0 <==> s.lock > 0)
    requires forall u: nat :: multiset(s'.waitlist)[u] == if u < |s'.pc| && Waiting(s'.pc[u]) then 1 else 0
    requires forall u: nat :: s'.owner == Some(u) <==> u < |s'.pc| && s'.pc[u] == Hold
    ensures Inv(s')
  {
    assert forall u: nat | u < |s.pc| :: Token(s', u) == Token(s, u);
    if x: nat :| x < |s.pc| && Token(s, x) {
      assert Token(s', x);
    }
  }

  // The step creates the token: nobody held it before.
  lemma TokenBorn(s: State, s': State, t: nat, p: Pc)
    requires Inv(s) && s.lock == 0 && t < |s.pc| && s'.pc == s.pc[t := p]
    requires s'.lock == CountedThreads(s'.pc) > 0 && s'.flagged == s.flagged && Token(s', t)
    requires forall u: nat :: multiset(s'.waitlist)[u] == if u < |s'.pc| && Waiting(s'.pc[u]) then 1 else 0
    requires forall u: nat :: s'.owner == Some(u) <==> u < |s'.pc| && s'.pc[u] == Hold
    ensures Inv(s')
  {
    assert forall u: nat | u < |s.pc| && u != t :: Token(s', u) ==> Token(s, u);
  }

  ghost predicate Keeps(s: State, t: nat, lucky: bool)
    requires t < |s.pc|
  {
    var r := Step(s, t, lucky);
    r != Panic && (r.Next? ==> |r.s.pc| == |s.pc| && Inv(r.s))
  }

  lemma IdleKeeps(s: State, t: nat, lucky: bool)
    requires Inv(s) && t < |s.pc| && s.pc[t] == Idle
    ensures Keeps(s, t, lucky)
  {
    CountedSet(s.pc, t, Spin(0));
    MoveKeeps(s, Step(s, t, lucky).s, t, Spin(0));
  }

  lemma SpinKeeps(s: State, t: nat, lucky: bool)
    requires Inv(s) && t < |s.pc| && s.pc[t].Spin?
    ensures Keeps(s, t, lucky)
  {
    var s' := Step(s, t, lucky).s;
    var p := s'.pc[t];
    CountedSet(s.pc, t, p);
    assert s'.pc == s.pc[t := p] && s'.flagged == s.flagged && s'.waitlist == s.waitlist && s'.owner == s.owner;
    assert Step(s, t, lucky) == Next(s');
    assert if p == Enter then s.lock == 0 && s'.lock == 1 else s'.lock == s.lock && (p == Register || p.Spin?);
    hide Step;
    if p == Enter {
      TokenBorn(s, s', t, p);
    } else {
      MoveKeeps(s, s', t, p);
    }
  }

  lemma RegisterKeeps(s: State, t: nat, lucky: bool)
    requires Inv(s) && t < |s.pc| && s.pc[t] == Register
    ensures Keeps(s, t, lucky)
  {
    var s' := Step(s, t, lucky).s;
    CountedSet(s.pc, t, Count);
    MoveKeeps(s, s', t, Count);
  }

  lemma CountKeeps(s: State, t: nat, lucky: bool)
    requires Inv(s) && t < |s.pc| && s.pc[t] == Count
    ensures Keeps(s, t, lucky)
  {
    var s' := Step(s, t, lucky).s;
    CountedSet(s.pc, t, s'.pc[t]);
    if s.lock == 0 {
      TokenBorn(s, s', t, Cleanup);
    } else {
      MoveKeeps(s, s', t, Sleep);
    }
  }

  lemma SleepKeeps(s: State, t: nat, lucky: bool)
    requires Inv(s) && t < |s.pc| && s.pc[t] == Sleep
    ensures Keeps(s, t, lucky)
  {
    if t in s.flagged {
      var s' := Step(s, t, lucky).s;
      CountedSet(s.pc, t, Cleanup);
      MoveKeeps(s, s', t, Cleanup);
    }
  }

  lemma CleanupKeeps(s: State, t: nat, lucky: bool)
    requires Inv(s) && t < |s.pc| && s.pc[t] == Cleanup
    ensures Keeps(s, t, lucky)
  {
    assert multiset(s.waitlist)[t] == 1;
    WithoutCounts(s.waitlist, t);
    CountedSet(s.pc, t, Enter);
    MoveKeeps(s, Step(s, t, lucky).s, t, Enter);
  }

  lemma OwnerKeeps(s: State, t: nat, lucky: bool)
    requires Inv(s) && t < |s.pc| && (s.pc[t] == Enter || s.pc[t] == Hold)
    ensures Keeps(s, t, lucky)
  {
    if s.owner.Some? {
      assert Token(s, s.owner.value) && Token(s, t);
    }
    var s' := Step(s, t, lucky).s;
    CountedSet(s.pc, t, s'.pc[t]);
    MoveKeeps(s, s', t, s'.pc[t]);
  }

  /** No assertion of the source fails, and the invariant is kept, whatever thread moves. */
  lemma StepSafe(s: State, t: nat, lucky: bool)
    requires Inv(s) && t < |s.pc|
    ensures Step(s, t, lucky) != Panic
    ensures Step(s, t, lucky).Next? ==> |Step(s, t, lucky).s.pc| == |s.pc| && Inv(Step(s, t, lucky).s)
  {
    hide Inv;
    match s.pc[t]
    case Idle => IdleKeeps(s, t, lucky);
    case Spin(_) => SpinKeeps(s, t, lucky);
    case Register => RegisterKeeps(s, t, lucky);
    case Count => CountKeeps(s, t, lucky);
    case Sleep => SleepKeeps(s, t, lucky);
    case Cleanup => CleanupKeeps(s, t, lucky);
    case Enter => OwnerKeeps(s, t, lucky);
    case Hold => OwnerKeeps(s, t, lucky);
    case Drop => DropKeeps(s, t);
    case HandOff => HandOffKeeps(s, t);
  }

  lemma DropKeeps(s: State, t: nat)
    requires Inv(s) && t < |s.pc| && s.pc[t] == Drop
    ensures Inv(Step(s, t, true).s)
  {
    var s' := Step(s, t, true).s;
    CountedSet(s.pc, t, s'.pc[t]);
    assert Token(s, t);
    assert forall u: nat | u < |s.pc| && u != t :: Token(s', u) ==> Token(s, u);
    assert s'.lock > 0 ==> Token(s', t);
  }

  lemma HandOffKeeps(s: State, t: nat)
    requires Inv(s) && t < |s.pc| && s.pc[t] == HandOff
    ensures Inv(Step(s, t, true).s)
  {
    HandOffFinds(s, t);
    var u := Oldest(s.waitlist, s.flagged).value;
    var s' := Step(s, t, true).s;
    CountedSet(s.pc, t, Idle);
    assert Token(s, t) && Token(s', u);
    assert forall x: nat | x < |s.pc| && x != u :: Token(s', x) ==> Token(s, x) && x != t;
  }

  lemma {:induction false} StartInv(n: nat)
    ensures Inv(Start(n))
  {
    StartCount(n);
  }

  lemma {:induction false} StartCount(n: nat)
    ensures CountedThreads(seq(n, _ => Idle)) == 0
  {
    if n > 0 {
      assert seq(n, _ => Idle)[1..] == seq(n - 1, _ => Idle);
      StartCount(n - 1);
    }
  }

  lemma {:induction false} RunSafe(s: State, schedule: seq<(nat, bool)>)
    requires Inv(s)
    ensures Run(s, schedule).Next? && Inv(Run(s, schedule).s)
    decreases |schedule|
  {
    if schedule != [] {
      var (t, lucky) := schedule[0];
      if t >= |s.pc| {
        RunSafe(s, schedule[1..]);
      } else {
        StepSafe(s, t, lucky);
        match Step(s, t, lucky)
        case Next(s') => RunSafe(s', schedule[1..]);
        case Disabled => RunSafe(s, schedule[1..]);
      }
    }
  }

  /** For any number of threads and any interleaving: no assertion fails and at most one thread is inside. */
  lemma MutualExclusion(n: nat, schedule: seq<(nat, bool)>)
    ensures Run(Start(n), schedule).Next?
    ensures var s := Run(Start(n), schedule).s;
            forall t: nat, u: nat | t < |s.pc| && u < |s.pc| && s.pc[t] == Hold && s.pc[u] == Hold :: t == u
  {
    StartInv(n);
    RunSafe(Start(n), schedule);
    var s := Run(Start(n), schedule).s;
    assert forall t: nat | t < |s.pc| && s.pc[t] == Hold :: Token(s, t);
  }

  /** No wakeup is lost: while any thread sleeps, some thread that can move holds the token. */
  lemma SleepersAreServed(n: nat, schedule: seq<(nat, bool)>, t: nat)
    requires Run(Start(n), schedule).Next?
    requires var s := Run(Start(n), schedule).s; t < |s.pc| && s.pc[t] == Sleep
    ensures var s := Run(Start(n), schedule).s;
            exists u: nat :: u < |s.pc| && Token(s, u) && forall lucky :: Step(s, u, lucky).Next?
  {
    StartInv(n);
    RunSafe(Start(n), schedule);
    var s := Run(Start(n), schedule).s;
    CountedAtLeast(s.pc, t);
    hide Run, CountedThreads;
    var u: nat :| u < |s.pc| && Token(s, u);
    StepSafe(s, u, true);
    StepSafe(s, u, false);
    assert forall lucky :: Step(s, u, lucky).Next?;
  }

  lemma {:induction false} CountedAtLeast(pc: seq<Pc>, t: nat)
    requires t < |pc| && Counted(pc[t])
    ensures CountedThreads(pc) > 0
  {
    if t > 0 {
      CountedAtLeast(pc[1..], t - 1);
    }
  }
}
