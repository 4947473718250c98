/**
  The kernel's hierarchical timer wheel: eight lists, level l holding the timers whose remaining
  ticks lie in [64^l, 64^(l+1)).  A tick visits level l only when the counter is a multiple of 64^l.

  The class below is the imperative wheel; `StepTimer` says what one tick does to one timer, and the
  lemmas give the firing times in closed form.
*/
module TimerWheel {
  import opened Arith

  const LEVELS: nat := 8

  function Pow64(l: nat): (p: nat)
    ensures p >= 1
  {
    if l == 0 then 1 else 64 * Pow64(l - 1)
  }

  /** Largest multiple of p that is at most n. */
  function Floor(n: nat, p: nat): nat
    requires p > 0
  {
    n - Mod(n, p)
  }

  // Level chosen by __add_timer for a remaining time.
  function LevelOf(ticks: nat): nat {
    if ticks < 64 then 0 else 1 + LevelOf(ticks / 64)
  }

  /** ticks: remaining time; level: list index, or -1 after firing; linked: the node is on a list. */
  datatype Timer = Timer(ticks: int, initial: nat, periodic: bool, level: int, linked: bool)

  predicate Wellformed(t: Timer) {
    t.initial < Pow64(LEVELS) &&
    (t.linked ==> 0 <= t.ticks < Pow64(LEVELS) && t.level == LevelOf(t.ticks) && t.level < LEVELS)
  }

  function Arm(t: Timer): Timer
    requires 0 <= t.ticks
  {
    t.(level := LevelOf(t.ticks), linked := true)
  }

  /** What visiting a linked timer on its own list does: its new state, and whether it fires. */
  function Visited(t: Timer): (Timer, bool)
    requires 0 <= t.level
  {
    var left := t.ticks - Pow64(t.level);
    if left <= 0 then
      (if t.periodic then Arm(t.(ticks := t.initial))
       else t.(ticks := left, level := -1, linked := false), true)
    else if left < Pow64(t.level) then (Arm(t.(ticks := left)), false)
    else (t.(ticks := left), false)
  }

  /** What the tick that brings the counter to n does to one timer: level l is visited on multiples of 64^l. */
  function StepTimer(t: Timer, n: nat): (Timer, bool) {
    if t.linked && 0 <= t.level && Mod(n, Pow64(t.level)) == 0 then Visited(t) else (t, false)
  }

  function Stepper(n: nat): Timer -> (Timer, bool) {
    t => StepTimer(t, n)
  }

  /** The counter value at which an armed timer will fire, seen from counter n. */
  ghost function Deadline(t: Timer, n: nat): nat
    requires t.linked && Wellformed(t)
  {
    if t.ticks == 0 then n + 1 else t.ticks + Floor(n, Pow64(t.level))
  }

  /** A periodic timer below its home level is due at a counter that is no multiple of that level's period. */
  ghost predicate OffBeat(t: Timer, n: nat) {
    Wellformed(t) &&
    (t.linked && t.periodic ==>
       t.level <= LevelOf(t.initial) &&
       (t.level < LevelOf(t.initial) ==> Mod(Deadline(t, n), Pow64(LevelOf(t.initial))) != 0))
  }

  // ----- arithmetic of levels

  lemma LevelZero(n: nat)
    ensures Pow64(0) == 1 && LevelOf(0) == 0 && Mod(n, 1) == 0
  {
    ModIs(n, 1);
  }

  lemma {:induction false} LevelBounds(ticks: nat)
    ensures ticks < Pow64(LevelOf(ticks) + 1)
    ensures ticks > 0 ==> Pow64(LevelOf(ticks)) <= ticks
  {
    if ticks >= 64 {
      LevelBounds(ticks / 64);
    }
  }

  lemma {:induction false} LevelExact(ticks: nat, l: nat)
    requires Pow64(l) <= ticks < Pow64(l + 1)
    ensures LevelOf(ticks) == l
  {
    if l > 0 {
      LevelExact(ticks / 64, l - 1);
    }
  }

  lemma {:induction false} LevelBelow(ticks: nat, l: nat)
    requires ticks < Pow64(l) && l > 0
    ensures LevelOf(ticks) < l
  {
    if l > 1 && ticks >= 64 {
      LevelBelow(ticks / 64, l - 1);
    }
  }

  lemma FloorIs(n: nat, p: nat)
    requires p > 0
    ensures Floor(n, p) == (n / p) * p
  {
    hide Mod;
    ModIs(n, p);
  }

  lemma ModAddFloor(x: nat, n: nat, p: nat)
    requires p > 0
    ensures Mod(x + Floor(n, p), p) == Mod(x, p)
  {
    FloorIs(n, p);
    hide Mod, Floor;
    ModIs(x, p);
    ModIs(x + Floor(n, p), p);
    assert Floor(n, p) == (n / p) * p;
    ModAddMultiple(x, n / p, p);
  }

  lemma ModSmall(r: nat, n: nat, p: nat)
    requires r < p
    ensures Mod(r + Floor(n, p), p) == r
  {
    ModAddFloor(r, n, p);
  }

  lemma ModNext(n: nat, p: nat)
    requires p > 0
    ensures Mod(n + 1, p) == if Mod(n, p) + 1 == p then 0 else Mod(n, p) + 1
  {
    ModIs(n, p);
    ModIs(n + 1, p);
    ModSucc(n, p);
  }

  // A multiple of 64^b is a multiple of every smaller power.
  lemma {:induction false} MultipleDown(n: nat, a: nat, b: nat)
    requires a <= b && Mod(n, Pow64(b)) == 0
    ensures Mod(n, Pow64(a)) == 0
  {
    if a < b {
      var p := Pow64(b - 1);
      MultipleStep(n, p);
      MultipleDown(n, a, b - 1);
    }
  }

  lemma MultipleStep(n: nat, p: nat)
    requires p > 0 && Mod(n, 64 * p) == 0
    ensures Mod(n, p) == 0
  {
    ModIs(n, 64 * p);
    ModIs(n, p);
    var q := n / (64 * p);
    assert n == q * (64 * p) == 0 + (64 * q) * p;
    ModAddMultiple(0, 64 * q, p);
  }

  // ----- one tick of one timer

  /** The deadline is invariant: a tick fires the timer exactly when the counter reaches it. */
  lemma StepKeepsDeadline(t: Timer, n: nat)
    requires t.linked && Wellformed(t)
    ensures var (t', fired) := StepTimer(t, n + 1);
            var d := Deadline(t, n);
            (fired <==> d == n + 1) && d >= n + 1 &&
            (!fired ==> t'.linked && Wellformed(t') && Deadline(t', n + 1) == d
                        && t'.initial == t.initial && t'.periodic == t.periodic && t'.level <= t.level)
  {
    hide Mod, Pow64, LevelOf;
    var p := Pow64(t.level);
    LevelZero(n + 1);
    LevelBounds(t.ticks);
    ModNext(n, p);
    if t.ticks > 0 && Mod(n + 1, p) == 0 {
      var left := t.ticks - p;
      if 0 < left < p {
        LevelBelow(left, t.level);
        MultipleDown(n + 1, LevelOf(left), t.level);
      } else if left > 0 {
        LevelExact(left, t.level);
      }
    }
  }

  /** Closed form for a timer of T ticks added at counter c. */
  ghost function FireTime(T: nat, c: nat): nat {
    if T == 0 then c + 1 else T + Floor(c, Pow64(LevelOf(T)))
  }

  /** State of one timer after k ticks starting from counter c. */
  ghost function After(t: Timer, c: nat, k: nat): (r: Timer)
    ensures r.periodic == t.periodic && r.initial == t.initial
  {
    if k == 0 then t else StepTimer(After(t, c, k - 1), c + k).0
  }

  /** Whether the k-th tick after counter c fires the timer (k counts from 1). */
  ghost predicate FiresAt(t: Timer, c: nat, k: nat)
    requires k > 0
  {
    StepTimer(After(t, c, k - 1), c + k).1
  }

  lemma StepWellformed(t: Timer, n: nat)
    requires Wellformed(t)
    ensures Wellformed(StepTimer(t, n).0)
  {
    if t.linked {
      LevelBounds(t.ticks);
      LevelBelow(t.initial, LEVELS);
      var left := t.ticks - Pow64(t.level);
      if 0 < left < Pow64(t.level) && t.level > 0 {
        LevelBelow(left, t.level);
      } else if left > 0 {
        LevelExact(left, t.level);
      }
    }
  }

  function Fresh(T: nat, periodic: bool): Timer {
    Arm(Timer(T, T, periodic, -1, false))
  }

  const IDLE := -1
  const BAD := -2

  /** The deadline of an armed timer, IDLE for one that is on no list. */
  ghost function Due(t: Timer, n: nat): int {
    if !Wellformed(t) then BAD else if !t.linked then IDLE else Deadline(t, n)
  }

  lemma FreshDue(T: nat, periodic: bool, c: nat)
    requires T < Pow64(LEVELS)
    ensures Due(Fresh(T, periodic), c) == FireTime(T, c)
  {
    LevelBelow(T, LEVELS);
  }

  lemma DueStep(t: Timer, n: nat)
    requires Due(t, n) != BAD
    ensures var (t', fired) := StepTimer(t, n + 1);
            (fired <==> Due(t, n) == n + 1) &&
            Due(t', n + 1) == if !fired then Due(t, n) else if t.periodic then FireTime(t.initial, n + 1) else IDLE
    ensures Due(t, n) == IDLE || Due(t, n) > n
  {
    StepWellformed(t, n + 1);
    if t.linked {
      StepKeepsDeadline(t, n);
    }
  }

  lemma {:induction false} OneShotDue(T: nat, c: nat, k: nat)
    requires T < Pow64(LEVELS)
    ensures Due(After(Fresh(T, false), c, k), c + k) == if c + k < FireTime(T, c) then FireTime(T, c) else IDLE
  {
    hide Due, FireTime, StepTimer, Pow64, LevelOf;
    if k == 0 {
      FreshDue(T, false, c);
      FireTimeWindow(T, c);
    } else {
      OneShotDue(T, c, k - 1);
      DueStep(After(Fresh(T, false), c, k - 1), c + k - 1);
    }
  }

  /** A one-shot timer of T ticks (T < 64^8) added at counter c fires once, at FireTime(T, c), and never again. */
  lemma OneShotFiresOnce(T: nat, c: nat, k: nat)
    requires T < Pow64(LEVELS) && k > 0
    ensures FiresAt(Fresh(T, false), c, k) <==> c + k == FireTime(T, c)
  {
    hide Due, FireTime, StepTimer, Pow64, LevelOf;
    OneShotDue(T, c, k - 1);
    DueStep(After(Fresh(T, false), c, k - 1), c + k - 1);
  }

  /** Never late, early by less than 64^L, and exact when T < 64. */
  lemma FireTimeWindow(T: nat, c: nat)
    ensures FireTime(T, c) > c
    ensures T > 0 ==> c + T - Pow64(LevelOf(T)) < FireTime(T, c) <= c + T
    ensures 0 < T < 64 ==> FireTime(T, c) == c + T
  {
    LevelBounds(T);
  }

  /**
    The real period of a periodic timer: T rounded down to a multiple of 64^L.  So a periodic timer keeps
    the period it was asked for exactly when T is a multiple of 64^L.
  */
  function Period(T: nat): nat {
    if T == 0 then 1 else Floor(T, Pow64(LevelOf(T)))
  }

  lemma PeriodExact(T: nat)
    requires T > 0
    ensures Period(T) == T <==> Mod(T, Pow64(LevelOf(T))) == 0
    ensures 0 < Period(T) <= T
  {
    LevelBounds(T);
  }

  lemma PeriodShortExample()
    ensures Period(100) == 64
  {
  }

  /** Re-arming at its own firing time makes the next firing Period(T) later. */
  lemma RefireGap(T: nat, c: nat)
    ensures FireTime(T, FireTime(T, c)) == FireTime(T, c) + Period(T)
  {
    if T > 0 {
      ModAddFloor(T, c, Pow64(LevelOf(T)));
    }
  }

  /** The k-th firing of a periodic timer. */
  ghost function NthFire(T: nat, c: nat, k: nat): nat {
    if k == 0 then FireTime(T, c) else NthFire(T, c, k - 1) + Period(T)
  }

  lemma {:induction false} NthFireClosed(T: nat, c: nat, k: nat)
    ensures NthFire(T, c, k) == FireTime(T, c) + k * Period(T)
  {
    if k > 0 {
      NthFireClosed(T, c, k - 1);
      MulSucc(k - 1, Period(T));
    }
  }

  lemma {:induction false} NthFireMono(T: nat, c: nat, j: nat, k: nat)
    requires j <= k
    ensures NthFire(T, c, j) <= NthFire(T, c, k)
  {
    if j < k {
      NthFireMono(T, c, j, k - 1);
    }
  }

  /**
    A periodic timer of T ticks added at counter c is due, after any number n of ticks, at its first
    firing time after c + n, and all its firing times are FireTime(T, c) + k * Period(T).
  */
  lemma PeriodicFires(T: nat, c: nat, n: nat)
    requires T < Pow64(LEVELS) && n > 0
    ensures FiresAt(Fresh(T, true), c, n) <==> exists k: nat :: c + n == NthFire(T, c, k)
  {
    hide Due, FireTime, StepTimer, Pow64, LevelOf, Period;
    var k := PeriodicDue(T, c, n - 1);
    DueStep(After(Fresh(T, true), c, n - 1), c + n - 1);
    BetweenFires(T, c, k, c + n);
  }

  // Strictly after firing k - 1 and no later than firing k, only firing k itself is possible.
  lemma BetweenFires(T: nat, c: nat, k: nat, x: nat)
    requires x <= NthFire(T, c, k) && (k > 0 ==> NthFire(T, c, k - 1) < x)
    ensures (exists j: nat :: x == NthFire(T, c, j)) <==> x == NthFire(T, c, k)
  {
    forall j: nat | x == NthFire(T, c, j)
      ensures x == NthFire(T, c, k)
    {
      if j < k {
        NthFireMono(T, c, j, k - 1);
      } else {
        NthFireMono(T, c, k, j);
      }
    }
  }

  lemma {:induction false} PeriodicDue(T: nat, c: nat, n: nat) returns (k: nat)
    requires T < Pow64(LEVELS)
    ensures Due(After(Fresh(T, true), c, n), c + n) == NthFire(T, c, k) > c + n
    ensures k > 0 ==> NthFire(T, c, k - 1) <= c + n
  {
    hide Due, FireTime, StepTimer, Period, Pow64, LevelOf;
    if n == 0 {
      k := 0;
      FreshDue(T, true, c);
      FireTimeWindow(T, c);
    } else {
      k := PeriodicDue(T, c, n - 1);
      DueStep(After(Fresh(T, true), c, n - 1), c + n - 1);
      if c + n == NthFire(T, c, k) {
        NthRefire(T, c, k);
        FireTimeWindow(T, c + n);
        k := k + 1;
      }
    }
  }

  lemma {:induction false} NthRefire(T: nat, c: nat, k: nat)
    ensures FireTime(T, NthFire(T, c, k)) == NthFire(T, c, k + 1)
  {
    if k == 0 {
      RefireGap(T, c);
    } else {
      NthRefire(T, c, k - 1);
      RefireGap(T, NthFire(T, c, k - 1));
    }
  }

  // ----- what a tick keeps

  /** A periodic timer that fires below its home level fires off the beat of that level. */
  lemma FiresOffBeat(t: Timer, n: nat)
    requires OffBeat(t, n) && StepTimer(t, n + 1).1 && t.periodic && t.level < LevelOf(t.initial)
    ensures Mod(n + 1, Pow64(LevelOf(t.initial))) != 0
  {
    hide Mod, Pow64, LevelOf;
    StepKeepsDeadline(t, n);
  }

  /** A timer already stepped in this tick is not on a list the tick still has to visit. */
  lemma NotVisitedTwice(t: Timer, n: nat, l: nat)
    requires OffBeat(t, n) && Mod(n + 1, Pow64(l)) == 0 && t.linked && t.level < l
    ensures var t' := StepTimer(t, n + 1).0; t'.linked ==> t'.level != l
  {
    hide Mod, Pow64, LevelOf;
    StepKeepsDeadline(t, n);
    if StepTimer(t, n + 1).1 && t.periodic && LevelOf(t.initial) == l {
      FiresOffBeat(t, n);
    }
  }

  lemma StepOffBeat(t: Timer, n: nat)
    requires OffBeat(t, n)
    ensures OffBeat(StepTimer(t, n + 1).0, n + 1)
  {
    hide Mod;
    StepWellformed(t, n + 1);
    if t.linked {
      StepKeepsDeadline(t, n);
      var (t', fired) := StepTimer(t, n + 1);
      var u := LevelOf(t.initial);
      if t.periodic && !fired && t.level == u && t'.level < u {
        // demoted from its home level by a tick on that level's beat
        ModSmall(t'.ticks, n + 1, Pow64(u));
      }
    }
  }

  // ----- the wheel

  ghost function Occurs(lists: seq<seq<nat>>, l: nat, id: nat): nat
    requires l < |lists|
  {
    multiset(lists[l])[id]
  }

  /** List l holds exactly the linked timers of level l, each once. */
  ghost predicate Struct(lists: seq<seq<nat>>, timers: map<nat, Timer>) {
    |lists| == LEVELS &&
    (forall id | id in timers :: timers[id].linked ==> 0 <= timers[id].level < LEVELS) &&
    forall l, id | 0 <= l < LEVELS ::
      Occurs(lists, l, id) == if id in timers && timers[id].linked && timers[id].level == l then 1 else 0
  }

  lemma RemoveAt(s: seq<nat>, i: nat)
    requires i < |s|
    ensures multiset(s[..i] + s[i + 1..]) == multiset(s) - multiset{s[i]}
  {
    assert s == s[..i] + [s[i]] + s[i + 1..];
  }

  lemma Distinct(L: seq<nat>, k: nat)
    requires k < |L| && multiset(L)[L[k]] <= 1
    ensures L[k] !in L[..k] && L[k] !in L[k + 1..]
  {
    assert L == L[..k] + [L[k]] + L[k + 1..];
    assert multiset(L)[L[k]] == multiset(L[..k])[L[k]] + 1 + multiset(L[k + 1..])[L[k]];
  }

  predicate InBand(t: Timer, lo: nat, hi: nat) {
    t.linked && lo <= t.level < hi
  }

  /** Exactly the linked timers with level in [lo, hi) have taken the step. */
  ghost predicate Stepped(was: map<nat, Timer>, now: map<nat, Timer>, step: Timer -> (Timer, bool), lo: nat, hi: nat) {
    now.Keys == was.Keys &&
    forall id | id in was :: now[id] == if InBand(was[id], lo, hi) then step(was[id]).0 else was[id]
  }

  /** `fired` lists, once each, the timers with level in [lo, hi) that the step fires. */
  ghost predicate FiredBetween(was: map<nat, Timer>, fired: seq<nat>, step: Timer -> (Timer, bool), lo: nat, hi: nat) {
    forall id :: multiset(fired)[id] ==
      if id in was && InBand(was[id], lo, hi) && step(was[id]).1 then 1 else 0
  }

  lemma StepNextLevel(was: map<nat, Timer>, mid: map<nat, Timer>, now: map<nat, Timer>,
                      fired: seq<nat>, more: seq<nat>, step: Timer -> (Timer, bool), l: nat)
    requires forall id | id in was && InBand(was[id], 0, l) :: !InBand(step(was[id]).0, l, l + 1)
    requires Stepped(was, mid, step, 0, l) && FiredBetween(was, fired, step, 0, l)
    requires Stepped(mid, now, step, l, l + 1) && FiredBetween(mid, more, step, l, l + 1)
    ensures Stepped(was, now, step, 0, l + 1) && FiredBetween(was, fired + more, step, 0, l + 1)
  {
    forall id | id in was
      ensures InBand(mid[id], l, l + 1) <==> InBand(was[id], l, l + 1)
      ensures InBand(was[id], l, l + 1) ==> mid[id] == was[id]
    {
    }
  }

  lemma StepRestIdle(was: map<nat, Timer>, now: map<nat, Timer>, fired: seq<nat>, step: Timer -> (Timer, bool), l: nat)
    requires l < LEVELS && forall id | id in was && InBand(was[id], l, LEVELS) :: step(was[id]) == (was[id], false)
    requires Stepped(was, now, step, 0, l) && FiredBetween(was, fired, step, 0, l)
    ensures Stepped(was, now, step, 0, LEVELS) && FiredBetween(was, fired, step, 0, LEVELS)
  {
    assert forall id | id in was :: InBand(was[id], 0, LEVELS) <==> InBand(was[id], 0, l) || InBand(was[id], l, LEVELS);
  }

  /** The timers in `done` have taken the step, and `fired` lists those of them that fire. */
  ghost predicate Progress(was: map<nat, Timer>, now: map<nat, Timer>, fired: seq<nat>, done: seq<nat>,
                           step: Timer -> (Timer, bool))
  {
    now.Keys == was.Keys &&
    (forall id | id in was :: now[id] == if id in done then step(was[id]).0 else was[id]) &&
    forall id :: multiset(fired)[id] == if id in done && id in was && step(was[id]).1 then 1 else 0
  }

  lemma ProgressOne(was: map<nat, Timer>, mid: map<nat, Timer>, now: map<nat, Timer>, fired: seq<nat>,
                    done: seq<nat>, id: nat, step: Timer -> (Timer, bool))
    requires Progress(was, mid, fired, done, step) && id in was && id !in done
    requires now == mid[id := step(was[id]).0]
    ensures step(was[id]).1 ==> Progress(was, now, fired + [id], done + [id], step)
    ensures !step(was[id]).1 ==> Progress(was, now, fired, done + [id], step)
  {
  }

  lemma DueAtLevel(timers: map<nat, Timer>, n: nat, l: nat)
    requires Mod(n, Pow64(l)) == 0
    ensures forall id | id in timers && InBand(timers[id], l, l + 1) :: Stepper(n)(timers[id]) == Visited(timers[id])
  {
  }

  lemma SteppedWellformed(was: map<nat, Timer>, now: map<nat, Timer>, n: nat, l: nat)
    requires forall id | id in was :: Wellformed(was[id])
    requires Stepped(was, now, Stepper(n), 0, l)
    ensures forall id | id in now :: Wellformed(now[id])
  {
    forall id | id in now
      ensures Wellformed(now[id])
    {
      StepWellformed(was[id], n);
    }
  }

  lemma NoSecondVisit(was: map<nat, Timer>, n: nat, l: nat)
    requires n > 0 && Mod(n, Pow64(l)) == 0 && forall id | id in was :: OffBeat(was[id], n - 1)
    ensures forall id | id in was && InBand(was[id], 0, l) :: !InBand(Stepper(n)(was[id]).0, l, l + 1)
  {
    hide StepTimer, OffBeat, Pow64;
    forall id | id in was && InBand(was[id], 0, l)
      ensures !InBand(Stepper(n)(was[id]).0, l, l + 1)
    {
      NotVisitedTwice(was[id], n - 1, l);
    }
  }

  lemma NotDue(was: map<nat, Timer>, n: nat, l: nat)
    requires Mod(n, Pow64(l)) != 0
    ensures forall id | id in was && InBand(was[id], l, LEVELS) :: Stepper(n)(was[id]) == (was[id], false)
  {
    forall id | id in was && InBand(was[id], l, LEVELS)
      ensures Stepper(n)(was[id]) == (was[id], false)
    {
      if Mod(n, Pow64(was[id].level)) == 0 {
        MultipleDown(n, l, was[id].level);
      }
    }
  }

  /** The last n elements. */
  ghost function Tail(s: seq<nat>, n: nat): seq<nat>
    requires n <= |s|
  {
    s[|s| - n..]
  }

  lemma TailStep(now: seq<nat>, L: seq<nat>, n: nat)
    requires n < |now| && n < |L| && Tail(now, n + 1) == Tail(L, n + 1)
    ensures now[|now| - n - 1] == L[|L| - n - 1] && Tail(now, n) == Tail(L, n)
    ensures L[..|L| - n] == L[..|L| - n - 1] + [L[|L| - n - 1]]
  {
    assert now[|now| - n - 1] == Tail(now, n + 1)[0] && L[|L| - n - 1] == Tail(L, n + 1)[0];
    assert Tail(now, n) == Tail(now, n + 1)[1..] && Tail(L, n) == Tail(L, n + 1)[1..];
  }

  lemma TailAfterRemove(s: seq<nat>, n: nat)
    requires n < |s|
    ensures var i := |s| - n - 1; Tail(s[..i] + s[i + 1..], n) == Tail(s, n)
  {
  }

  lemma TailOfTail(s: seq<nat>, now: seq<nat>, n: nat)
    requires n <= |s| <= |now| && Tail(now, |s|) == s
    ensures Tail(now, n) == Tail(s, n)
  {
  }

  // Reading a whole tick through the deadlines.
  lemma TickEffect(was: map<nat, Timer>, now: map<nat, Timer>, fired: seq<nat>, n: nat)
    requires forall id | id in was :: OffBeat(was[id], n)
    requires forall id | id in was :: was[id].linked ==> 0 <= was[id].level < LEVELS
    requires Stepped(was, now, Stepper(n + 1), 0, LEVELS) && FiredBetween(was, fired, Stepper(n + 1), 0, LEVELS)
    ensures now.Keys == was.Keys
    ensures forall id | id in now :: OffBeat(now[id], n + 1) && now[id] == StepTimer(was[id], n + 1).0
    ensures forall id :: multiset(fired)[id] ==
              if id in was && was[id].linked && Wellformed(was[id]) && Deadline(was[id], n) == n + 1 then 1 else 0
    ensures forall id | id in was && id !in fired && was[id].linked && Wellformed(was[id]) ::
              now[id].linked && Wellformed(now[id]) && Deadline(now[id], n + 1) == Deadline(was[id], n)
  {
    hide Pow64, LevelOf, Mod;
    forall id | id in was
      ensures now[id] == StepTimer(was[id], n + 1).0 && OffBeat(now[id], n + 1)
      ensures was[id].linked ==> (Stepper(n + 1)(was[id]).1 <==> Deadline(was[id], n) == n + 1)
      ensures was[id].linked && !Stepper(n + 1)(was[id]).1 ==>
                now[id].linked && Deadline(now[id], n + 1) == Deadline(was[id], n)
    {
      StepOffBeat(was[id], n);
      if was[id].linked {
        StepKeepsDeadline(was[id], n);
      }
    }
    assert forall id :: id in fired <==> multiset(fired)[id] > 0;
  }

  class Wheel {
    var counter: nat
    var lists: seq<seq<nat>>      // timer ids, head first
    var timers: map<nat, Timer>

    ghost predicate Valid()
      reads this
    {
      Struct(lists, timers) && forall id | id in timers :: OffBeat(timers[id], counter)
    }

    constructor ()
      ensures Valid() && counter == 0 && timers == map[]
    {
      counter := 0;
      lists := seq(LEVELS, _ => []);
      timers := map[];
    }

    // linkedlist_remove of the entry of list l that has `left` entries after it
    method Unlink(l: nat, left: nat)
      requires Struct(lists, timers) && l < LEVELS && left < |lists[l]|
      modifies this
      ensures Struct(lists, timers) && counter == old(counter)
      ensures var id := old(lists[l][|lists[l]| - left - 1]);
              id in old(timers) && timers == old(timers)[id := old(timers)[id].(linked := false)]
      ensures left <= |lists[l]| && Tail(lists[l], left) == old(Tail(lists[l], left))
    {
      var i := |lists[l]| - left - 1;
      var id := lists[l][i];
      assert Occurs(lists, l, id) > 0;
      RemoveAt(lists[l], i);
      TailAfterRemove(lists[l], left);
      lists := lists[l := lists[l][..i] + lists[l][i + 1..]];
      timers := timers[id := timers[id].(linked := false)];
      assert forall k, x | 0 <= k < LEVELS && k != l :: Occurs(lists, k, x) == old(Occurs(lists, k, x));
    }

    // change a timer's fields without moving it
    method Put(id: nat, timer: Timer)
      requires Struct(lists, timers) && id in timers && timer.linked == timers[id].linked
      requires timer.linked ==> timer.level == timers[id].level
      modifies this`timers
      ensures Struct(lists, timers) && timers == old(timers)[id := timer]
    {
      timers := timers[id := timer];
      assert forall k, x | 0 <= k < LEVELS :: Occurs(lists, k, x) == old(Occurs(lists, k, x));
    }

    // __add_timer: choose the level by repeated division, insert at the head of its list
    method Link(id: nat)
      requires Struct(lists, timers)
      requires id in timers && !timers[id].linked && 0 <= timers[id].ticks < Pow64(LEVELS)
      modifies this
      ensures counter == old(counter)
      ensures timers == old(timers)[id := Arm(old(timers)[id])]
      ensures LevelOf(old(timers)[id].ticks) < LEVELS == |old(lists)|
      ensures var l := LevelOf(old(timers)[id].ticks); lists == old(lists)[l := [id] + old(lists)[l]]
      ensures Struct(lists, timers)
    {
      var t, ticks, i := 0, timers[id].ticks, 0;
      LevelBelow(ticks, LEVELS);
      while i < LEVELS && ticks >= 64
        invariant 0 <= i == t <= LEVELS && 0 <= ticks
        invariant LevelOf(timers[id].ticks) == t + LevelOf(ticks)
      {
        ticks := ticks / 64;
        t := t + 1;
        i := i + 1;
      }
      lists := lists[t := [id] + lists[t]];
      timers := timers[id := timers[id].(level := t, linked := true)];
      assert forall k, x | 0 <= k < LEVELS && k != t :: Occurs(lists, k, x) == old(Occurs(lists, k, x));
    }

    // timer_add_locked
    method Add(id: nat, periodic: bool, ticks: nat)
      requires Valid() && ticks < Pow64(LEVELS)
      requires id in timers ==> !timers[id].linked
      modifies this
      ensures Valid() && counter == old(counter)
      ensures timers == old(timers)[id := Fresh(ticks, periodic)]
      ensures Deadline(timers[id], counter) == FireTime(ticks, counter)
    {
      timers := timers[id := Timer(ticks, ticks, periodic, -1, false)];
      assert forall k, x | 0 <= k < LEVELS :: Occurs(lists, k, x) == old(Occurs(lists, k, x));
      Link(id);
    }

    // timer_remove: the level is left as it was, so removing a removed timer is a caller's error
    method Remove(id: nat)
      requires Valid() && id in timers && (timers[id].level != -1 ==> timers[id].linked)
      modifies this
      ensures Valid() && counter == old(counter)
      ensures timers == old(timers)[id := old(timers)[id].(linked := false)]
    {
      if timers[id].level != -1 {
        var l := timers[id].level;
        assert Occurs(lists, l, id) == 1;
        var i := 0;
        while lists[l][i] != id
          invariant 0 <= i < |lists[l]| && id !in lists[l][..i]
          decreases |lists[l]| - i
        {
          assert id in lists[l][i + 1..] by {
            assert lists[l] == lists[l][..i] + [lists[l][i]] + lists[l][i + 1..];
          }
          i := i + 1;
        }
        Unlink(l, |lists[l]| - i - 1);
      } else {
        assert timers[id].(linked := false) == timers[id];
      }
    }

    // the loop body of check_timers for the entry of list t that has `left` entries after it
    method Visit(t: nat, left: nat) returns (fires: bool)
      requires Struct(lists, timers) && t < LEVELS && left < |lists[t]|
      requires var id := lists[t][|lists[t]| - left - 1]; id in timers && Wellformed(timers[id])
      modifies this
      ensures Struct(lists, timers) && counter == old(counter)
      ensures var id := old(lists[t][|lists[t]| - left - 1]);
              var was := old(timers)[id];
              was.linked && was.level == t &&
              timers == old(timers)[id := Visited(was).0] && fires == Visited(was).1
      ensures left <= |lists[t]| && Tail(lists[t], left) == old(Tail(lists[t], left))
    {
      hide Pow64, LevelOf, Tail;
      var mult, id := Pow64(t), lists[t][|lists[t]| - left - 1];
      var timer := timers[id];
      assert Occurs(lists, t, id) > 0;
      var ticks := timer.ticks - mult;
      fires := ticks <= 0;
      if fires || ticks < mult {
        Unlink(t, left);
        if fires && !timer.periodic {
          Put(id, timer.(ticks := ticks, level := -1, linked := false));
        } else {
          ghost var mid := lists[t];
          Refile(id, timer.(ticks := if fires then timer.initial else ticks, level := -1, linked := false));
          TailOfTail(mid, lists[t], left);
        }
      } else {
        Put(id, timer.(ticks := ticks));
      }
    }

    // give an unlinked timer its new ticks and put it back on the wheel
    method Refile(id: nat, timer: Timer)
      requires Struct(lists, timers) && id in timers && !timers[id].linked
      requires !timer.linked && 0 <= timer.ticks < Pow64(LEVELS)
      modifies this
      ensures Struct(lists, timers) && counter == old(counter)
      ensures timers == old(timers)[id := Arm(timer)] && |lists| == |old(lists)|
      ensures forall l | 0 <= l < LEVELS ::
                |old(lists)[l]| <= |lists[l]| && Tail(lists[l], |old(lists)[l]|) == old(lists)[l]
    {
      Put(id, timer);
      Link(id);
    }

    // one list of check_timers; `left` counts the entries after the cursor, which insertions at the
    // head and removals of the current entry leave alone
    method CheckLevel(t: nat, ghost step: Timer -> (Timer, bool)) returns (fired: seq<nat>)
      requires Struct(lists, timers) && t < LEVELS
      requires forall id | id in timers :: Wellformed(timers[id])
      requires forall id | id in timers && InBand(timers[id], t, t + 1) :: step(timers[id]) == Visited(timers[id])
      modifies this
      ensures Struct(lists, timers) && counter == old(counter)
      ensures Stepped(old(timers), timers, step, t, t + 1)
      ensures FiredBetween(old(timers), fired, step, t, t + 1)
    {
      hide Visited, Wellformed, Pow64;
      ghost var L := lists[t];
      var left := |lists[t]|;
      fired := [];
      while left > 0
        invariant Struct(lists, timers) && counter == old(counter)
        invariant 0 <= left <= |L| && left <= |lists[t]|
        invariant Tail(lists[t], left) == Tail(L, left)
        invariant Progress(old(timers), timers, fired, L[..|L| - left], step)
      {
        left := left - 1;
        var id := lists[t][|lists[t]| - left - 1];
        TailStep(lists[t], L, left);
        assert Occurs(old(lists), t, id) == 1;
        Distinct(L, |L| - left - 1);
        ghost var mid := timers;
        var fires := Visit(t, left);
        ProgressOne(old(timers), mid, timers, fired, L[..|L| - left - 1], id, step);
        if fires {
          fired := fired + [id];
        }
      }
      assert L[..|L|] == L;
      forall id
        ensures id in L <==> id in old(timers) && InBand(old(timers)[id], t, t + 1)
      {
        assert Occurs(old(lists), t, id) == multiset(L)[id];
      }
    }

    // check_timers: visit the levels from 0 up while the counter is a multiple of their period
    method CheckTimers() returns (fired: seq<nat>)
      requires Struct(lists, timers) && counter > 0
      requires forall id | id in timers :: OffBeat(timers[id], counter - 1)
      modifies this
      ensures Struct(lists, timers) && counter == old(counter)
      ensures Stepped(old(timers), timers, Stepper(counter), 0, LEVELS)
      ensures FiredBetween(old(timers), fired, Stepper(counter), 0, LEVELS)
    {
      hide Visited, LevelOf;
      var mult, t := 1, 0;
      fired := [];
      while (mult == 1 || counter % mult == 0) && t < LEVELS
        invariant Struct(lists, timers) && counter == old(counter)
        invariant 0 <= t <= LEVELS && mult == Pow64(t)
        invariant Stepped(old(timers), timers, Stepper(counter), 0, t)
        invariant FiredBetween(old(timers), fired, Stepper(counter), 0, t)
        decreases LEVELS - t
      {
        ModIs(counter, mult);
        ghost var mid := timers;
        SteppedWellformed(old(timers), mid, counter, t);
        DueAtLevel(mid, counter, t);
        var now := CheckLevel(t, Stepper(counter));
        NoSecondVisit(old(timers), counter, t);
        StepNextLevel(old(timers), mid, timers, fired, now, Stepper(counter), t);
        fired := fired + now;
        t := t + 1;
        mult := mult * 64;
      }
      if t < LEVELS {
        ModIs(counter, mult);
        NotDue(old(timers), counter, t);
        StepRestIdle(old(timers), timers, fired, Stepper(counter), t);
      }
    }

    /** timer_tick: fires each timer whose deadline is the new counter, exactly once, and no other. */
    method Tick() returns (fired: seq<nat>)
      requires Valid()
      modifies this
      ensures Valid() && counter == old(counter) + 1 && timers.Keys == old(timers).Keys
      ensures forall id | id in timers :: timers[id] == StepTimer(old(timers)[id], counter).0
      ensures forall id :: multiset(fired)[id] ==
                if id in timers && old(timers)[id].linked && Deadline(old(timers)[id], old(counter)) == counter
                then 1 else 0
      ensures forall id | id in timers && id !in fired && old(timers)[id].linked ::
                timers[id].linked && Deadline(timers[id], counter) == Deadline(old(timers)[id], old(counter))
    {
      hide Stepped, FiredBetween, StepTimer;
      counter := counter + 1;
      fired := CheckTimers();
      TickEffect(old(timers), timers, fired, old(counter));
    }
  }
}
