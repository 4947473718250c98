/**
  The ring buffer behind pipes and terminals: readers and writers take separate locks, and meet only in the
  atomic counter of pending bytes.  Every load, every copied byte and every counter update is a step of its own.

  A call number stands for one call of charbuffer_write or charbuffer_read.  The bytes that were ever
  committed form a stream; the model records beside it which call wrote each byte and which call, if any,
  has taken it.
*/
module CharBuffer {

  /** The capacity, which charbuffer_create insists on, and the range of the position counters. */
  function Slot(i: int): (r: int)
    ensures 0 <= r < 4096
  {
    i % 4096
  }

  function Wrap(i: int): int {
    i % 0x1_0000_0000_0000_0000
  }

  type Bytes = seq<bv8>

  /** How far a call is; any and nb are CHARBUFFER_DO_ANY and CHARBUFFER_DO_NONBLOCK. */
  datatype Pc =
    | WStart(buf: Bytes, any: bool, nb: bool)
    | WTest(buf: Bytes, any: bool, nb: bool, done: nat)                          // at the loop test, lock held
    | WCopy(buf: Bytes, any: bool, nb: bool, done: nat, amount: nat, k: nat)     // k of amount bytes copied
    | WMove(buf: Bytes, any: bool, nb: bool, done: nat, amount: nat)             // pending raised, head not yet
    | WBack(buf: Bytes, any: bool, nb: bool, done: nat, wait: bool)              // lock released, to be taken again
    | WDone(buf: Bytes, done: nat)
    | RStart(len: nat, any: bool, nb: bool)
    | RTest(len: nat, any: bool, nb: bool, got: Bytes)
    | RCopy(len: nat, any: bool, nb: bool, got: Bytes, amount: nat, chunk: Bytes)
    | RMove(len: nat, any: bool, nb: bool, got: Bytes, amount: nat)              // pending lowered, tail not yet
    | RBack(len: nat, any: bool, nb: bool, got: Bytes, wait: bool)
    | RDone(got: Bytes)

  /**
    log: the stream; author: who wrote it; taker: who took it, as far as it has been taken; base: where slot zero was
    last reset to; fault: a copy has gone out of a buffer, or an amount below zero.
  */
  datatype State = State(buffer: Bytes, head: int, tail: int, pending: int, term: bool, eof: bool, fault: bool,
                         wlock: int, rlock: int, pc: seq<Pc>, log: Bytes, author: seq<int>, taker: seq<int>, base: nat)

  /**
    A scheduler's choice: call t takes a step (a waiting call may find itself interrupted), or the buffer is terminated,
    reset or marked at end of file.
  */
  datatype Event = Go(t: nat, interrupted: bool) | Terminate | Reset | SetEof

  function Min(a: int, b: int): int {
    if a < b then a else b
  }

  function Repeat(x: int, n: nat): seq<int> {
    seq(n, _ => x)
  }

  predicate More(any: bool, len: nat, done: nat) {
    done != len && (!any || done == 0)
  }

  function Set(s: State, t: nat, p: Pc): State
    requires t < |s.pc|
  {
    s.(pc := s.pc[t := p])
  }

  function Fault(s: State): State {
    s.(fault := true)
  }

  // one step of charbuffer_write
  function WStep(s: State, t: nat, interrupted: bool): State
    requires t < |s.pc|
  {
    match s.pc[t]
    case WStart(buf, any, nb) =>
      if s.wlock >= 0 then s
      else if s.term then Set(s, t, WDone(buf, 0))
      else Set(s.(wlock := t), t, WTest(buf, any, nb, 0))
    case WTest(buf, any, nb, done) =>
      if !More(any, |buf|, done) then Set(s.(wlock := -1), t, WDone(buf, done))
      else
        var amount := Min(Min(4096 - s.pending, |buf| - done), 4096 - Slot(s.head));
        if amount < 0 then Fault(s) else Set(s, t, WCopy(buf, any, nb, done, amount, 0))
    case WCopy(buf, any, nb, done, amount, k) =>
      if k < amount then
        var i := Slot(s.head) + k;
        if 0 <= i < |s.buffer| && done + k < |buf|
        then Set(s.(buffer := s.buffer[i := buf[done + k]]), t, WCopy(buf, any, nb, done, amount, k + 1)) else Fault(s)
      else if done + amount > |buf| then Fault(s)
      else
        Set(s.(pending := s.pending + amount, log := s.log + buf[done..done + amount],
               author := s.author + Repeat(t, amount)),
            t, WMove(buf, any, nb, done + amount, amount))
    case WMove(buf, any, nb, done, amount) =>
      var s1 := s.(head := Wrap(s.head + amount), wlock := -1);
      if More(any, |buf|, done) then
        if nb then Set(s1, t, WDone(buf, done)) else Set(s1, t, WBack(buf, any, nb, done, true))
      else Set(s1, t, WBack(buf, any, nb, done, false))
    case WBack(buf, any, nb, done, wait) =>
      if wait && interrupted then Set(s, t, WDone(buf, done))
      else if s.wlock >= 0 then s
      else if wait && s.term then Set(s, t, WDone(buf, done))
      else Set(s.(wlock := t), t, WTest(buf, any, nb, done))
    case _ => s
  }

  // one step of charbuffer_read
  function RStep(s: State, t: nat, interrupted: bool): State
    requires t < |s.pc|
  {
    match s.pc[t]
    case RStart(len, any, nb) =>
      if s.rlock >= 0 then s
      else if s.term && s.pending == 0 then Set(s, t, RDone([]))
      else Set(s.(rlock := t), t, RTest(len, any, nb, []))
    case RTest(len, any, nb, got) =>
      if !More(any, len, |got|) then Set(s.(rlock := -1), t, RDone(got))
      else
        var amount := Min(Min(s.pending, len - |got|), 4096 - Slot(s.tail));
        if amount < 0 then Fault(s) else Set(s, t, RCopy(len, any, nb, got, amount, []))
    case RCopy(len, any, nb, got, amount, chunk) =>
      if |chunk| < amount then
        var i := Slot(s.tail) + |chunk|;
        if 0 <= i < |s.buffer| then Set(s, t, RCopy(len, any, nb, got, amount, chunk + [s.buffer[i]])) else Fault(s)
      else if More(any, len, |got + chunk|) && !nb && s.eof && got + chunk == [] then
        Set(s.(eof := false, rlock := -1), t, RDone([]))
      else
        Set(s.(pending := s.pending - amount, taker := s.taker + Repeat(t, amount)), t,
            RMove(len, any, nb, got + chunk, amount))
    case RMove(len, any, nb, got, amount) =>
      var s1 := s.(tail := Wrap(s.tail + amount), rlock := -1);
      if More(any, len, |got|) then
        if nb then Set(s1, t, RDone(got)) else Set(s1, t, RBack(len, any, nb, got, true))
      else Set(s1, t, RBack(len, any, nb, got, false))
    case RBack(len, any, nb, got, wait) =>
      if wait && interrupted then Set(s, t, RDone(got))
      else if s.rlock >= 0 then s
      else if wait && s.term && s.pending == 0 then Set(s, t, RDone(got))
      else Set(s.(rlock := t), t, RTest(len, any, nb, got))
    case _ => s
  }

  predicate Writing(p: Pc) {
    p.WStart? || p.WTest? || p.WCopy? || p.WMove? || p.WBack? || p.WDone?
  }

  // charbuffer_terminate, charbuffer_reset and an end of file; the first two need both locks
  function Step(s: State, e: Event): State {
    match e
    case Go(t, interrupted) =>
      if t >= |s.pc| then s
      else if Writing(s.pc[t]) then WStep(s, t, interrupted)
      else RStep(s, t, interrupted)
    case Terminate => if s.wlock >= 0 || s.rlock >= 0 then s else s.(term := true)
    case Reset =>
      if s.wlock >= 0 || s.rlock >= 0 then s
      else if |s.taker| > |s.log| then Fault(s)
      else s.(term := false, head := 0, tail := 0, pending := 0, eof := false,
              taker := s.taker + Repeat(-1, |s.log| - |s.taker|), base := |s.log|)
    case SetEof => s.(eof := true)
  }

  function Run(s: State, events: seq<Event>): State
    decreases |events|
  {
    if events == [] then s else Run(Step(s, events[0]), events[1..])
  }

  /** Calls that have not started, on an empty buffer. */
  predicate Initial(s: State) {
    !s.fault && |s.buffer| == 4096 && s.head == s.tail == s.pending == 0 && s.wlock == s.rlock == -1 &&
    s.log == [] && s.author == [] && s.taker == [] && s.base == 0 &&
    forall t | 0 <= t < |s.pc| :: s.pc[t].WStart? || s.pc[t].RStart?
  }

  // ----- the bytes of one call

  /** The bytes of the stream whose tag is t, in order. */
  function Sub(log: Bytes, tags: seq<int>, t: int): Bytes
    requires |tags| <= |log|
  {
    if tags == [] then []
    else
      var n := |tags| - 1;
      Sub(log, tags[..n], t) + if tags[n] == t then [log[n]] else []
  }

  lemma {:induction false} SubMore(log: Bytes, tags: seq<int>, u: int, n: nat, t: int)
    requires |tags| + n <= |log|
    ensures Sub(log, tags + Repeat(u, n), t) == Sub(log, tags, t) + if u == t then log[|tags|..|tags| + n] else []
  {
    if n == 0 {
      assert tags + Repeat(u, 0) == tags;
    } else {
      var more := tags + Repeat(u, n);
      assert more[..|more| - 1] == tags + Repeat(u, n - 1) && more[|more| - 1] == u;
      SubMore(log, tags, u, n - 1, t);
      assert log[|tags|..|tags| + n] == log[|tags|..|tags| + n - 1] + [log[|tags| + n - 1]];
    }
  }

  lemma {:induction false} SubLonger(log: Bytes, more: Bytes, tags: seq<int>, t: int)
    requires |tags| <= |log|
    ensures Sub(log + more, tags, t) == Sub(log, tags, t)
  {
    if tags != [] {
      SubLonger(log, more, tags[..|tags| - 1], t);
    }
  }

  // ----- the invariant

  predicate WriteHolds(p: Pc) {
    p.WTest? || p.WCopy? || p.WMove?
  }

  predicate ReadHolds(p: Pc) {
    p.RTest? || p.RCopy? || p.RMove?
  }

  /** How many bytes of its buffer a write call has put into the stream. */
  function Put(p: Pc): nat {
    match p
    case WStart(_, _, _) => 0
    case WTest(_, _, _, done) => done
    case WCopy(_, _, _, done, _, _) => done
    case WMove(_, _, _, done, _) => done
    case WBack(_, _, _, done, _) => done
    case WDone(_, done) => done
    case _ => 0
  }

  /** The bytes a read call has taken from the stream. */
  function Got(p: Pc): Bytes {
    match p
    case RTest(_, _, _, got) => got
    case RCopy(_, _, _, got, _, _) => got
    case RMove(_, _, _, got, _) => got
    case RBack(_, _, _, got, _) => got
    case RDone(got) => got
    case _ => []
  }

  predicate Sizes(s: State) {
    !s.fault && |s.buffer| == 4096 && |s.author| == |s.log| && s.base <= |s.taker| <= |s.log| &&
    s.pending == |s.log| - |s.taker| <= 4096
  }

  // The part of a copy that a writer has made.
  predicate CopyOk(s: State, p: Pc)
    requires Sizes(s)
  {
    p.WCopy? ==>
      p.amount <= 4096 - s.pending && Slot(s.head) + p.amount <= 4096 && p.done + p.amount <= |p.buf| &&
      p.k <= p.amount &&
      s.buffer[Slot(s.head)..Slot(s.head) + p.k] == p.buf[p.done..p.done + p.k]
  }

  // The part of a copy that a reader has made.
  predicate ChunkOk(s: State, p: Pc)
    requires Sizes(s)
  {
    p.RCopy? ==>
      p.amount <= s.pending && Slot(s.tail) + p.amount <= 4096 && |p.chunk| <= p.amount &&
      p.chunk == s.log[|s.taker|..|s.taker| + |p.chunk|]
  }

  // A reader takes no more than it was asked for.
  predicate LenOk(p: Pc) {
    match p
    case RTest(len, _, _, got) => |got| <= len
    case RCopy(len, _, _, got, amount, _) => |got| + amount <= len
    case RMove(len, _, _, got, _) => |got| <= len
    case RBack(len, _, _, got, _) => |got| <= len
    case _ => true
  }

  /** What holds of call t. */
  predicate CallOk(s: State, t: nat)
    requires t < |s.pc|
  {
    var p := s.pc[t];
    Sizes(s) && (WriteHolds(p) <==> s.wlock == t) && (ReadHolds(p) <==> s.rlock == t) &&
    (Writing(p) ==> Put(p) <= |p.buf| && Sub(s.log, s.author, t) == p.buf[..Put(p)]) &&
    (!Writing(p) ==> Sub(s.log, s.taker, t) == Got(p)) &&
    CopyOk(s, p) && ChunkOk(s, p) && LenOk(p)
  }

  /** Bytes counted as pending but not yet in head, and the other way round for tail. */
  function Late(s: State, lock: int): int {
    if 0 <= lock < |s.pc| && (s.pc[lock].WMove? || s.pc[lock].RMove?) then s.pc[lock].amount else 0
  }

  /** The counters, and the unread bytes in their slots. */
  ghost predicate RingOk(s: State) {
    Sizes(s) && -1 <= s.wlock < |s.pc| && -1 <= s.rlock < |s.pc| &&
    s.head == Wrap(|s.log| - s.base - Late(s, s.wlock)) && s.tail == Wrap(|s.taker| - s.base - Late(s, s.rlock)) &&
    forall i | |s.taker| <= i < |s.log| :: s.buffer[Slot(i - s.base)] == s.log[i]
  }

  ghost predicate Inv(s: State) {
    RingOk(s) && forall t | 0 <= t < |s.pc| :: CallOk(s, t)
  }

  lemma SlotShift(i: int, m: int)
    ensures Slot(i - 4096 * m) == Slot(i)
  {
  }

  lemma SlotWrap(i: int)
    ensures Slot(Wrap(i)) == Slot(i)
  {
    var q := i / 0x1_0000_0000_0000_0000;
    assert Wrap(i) == i - 4096 * (0x10_0000_0000_0000 * q);
    hide Slot;
    SlotShift(i, 0x10_0000_0000_0000 * q);
  }

  lemma SlotNext(i: int, k: nat)
    requires Slot(i) + k < 4096
    ensures Slot(i + k) == Slot(i) + k
  {
  }

  lemma SlotsDiffer(i: int, j: int)
    requires 0 < j - i < 4096
    ensures Slot(i) != Slot(j)
  {
  }

  lemma CallAt(s: State, t: nat)
    requires Inv(s) && t < |s.pc|
    ensures CallOk(s, t)
  {
    hide RingOk;
  }

  // ----- steps keep the invariant

  /** A step of call t as another call u sees it. */
  ghost predicate Beside(s: State, s': State, t: nat, u: nat) {
    u < |s.pc| == |s'.pc| && s'.pc[u] == s.pc[u] && Sizes(s) && Sizes(s') &&
    (s'.wlock == u <==> s.wlock == u) && (s'.rlock == u <==> s.rlock == u) &&
    s.log <= s'.log && Sub(s'.log, s'.author, u) == Sub(s.log, s.author, u) &&
    Sub(s'.log, s'.taker, u) == Sub(s.log, s.taker, u) &&
    (s.wlock == u ==> s'.head == s.head && s'.pending <= s.pending && s'.buffer == s.buffer) &&
    (s.rlock == u ==> s'.tail == s.tail && s'.pending >= s.pending && s'.taker == s.taker)
  }

  lemma BesideKeeps(s: State, s': State, t: nat, u: nat)
    requires Beside(s, s', t, u) && CallOk(s, u)
    ensures CallOk(s', u)
  {
    hide Sub, Slot;
    var p := s.pc[u];
    if p.RCopy? {
      assert s.log[|s.taker|..|s.taker| + |p.chunk|] == s'.log[|s'.taker|..|s'.taker| + |p.chunk|];
    }
  }

  /** Assembling the invariant after a step of call t. */
  lemma CallsKeep(s: State, s': State, t: nat)
    requires Inv(s) && t < |s.pc| == |s'.pc| && RingOk(s') && CallOk(s', t)
    requires forall u | 0 <= u < |s.pc| && u != t :: Beside(s, s', t, u)
    ensures Inv(s')
  {
    hide RingOk, CallOk, Beside;
    forall u | 0 <= u < |s'.pc|
      ensures CallOk(s', u)
    {
      if u != t {
        CallAt(s, u);
        BesideKeeps(s, s', t, u);
      }
    }
  }

  // A step that leaves the stream and the counters alone: taking or releasing a lock, testing, starting a copy.
  lemma QuietKeeps(s: State, s': State, t: nat)
    requires Inv(s) && t < |s.pc| == |s'.pc| && s'.pc == s.pc[t := s'.pc[t]] && CallOk(s', t)
    requires s' == s.(pc := s'.pc, wlock := s'.wlock, rlock := s'.rlock, term := s'.term, eof := s'.eof)
    requires s'.wlock == s.wlock || (s.wlock == -1 && s'.wlock == t) || (s.wlock == t && s'.wlock == -1)
    requires s'.rlock == s.rlock || (s.rlock == -1 && s'.rlock == t) || (s.rlock == t && s'.rlock == -1)
    requires !s.pc[t].WMove? && !s.pc[t].RMove? && !s'.pc[t].WMove? && !s'.pc[t].RMove?
    ensures Inv(s')
  {
    assert RingOk(s');
    hide RingOk, CallOk, Sub;
    CallsKeep(s, s', t);
  }

  lemma WrapAdd(i: int, n: nat)
    ensures Wrap(Wrap(i - n) + n) == Wrap(i)
  {
  }

  // A writer's next byte goes where no unread byte is.
  lemma ByteRing(s: State, t: nat, s': State)
    requires Inv(s) && t < |s.pc| && s.pc[t].WCopy? && s.pc[t].k < s.pc[t].amount
    requires Slot(s.head) + s.pc[t].k < |s.buffer| && s.pc[t].done + s.pc[t].k < |s.pc[t].buf|
    requires s' == Set(s.(buffer := s.buffer[Slot(s.head) + s.pc[t].k := s.pc[t].buf[s.pc[t].done + s.pc[t].k]]), t,
                       s.pc[t].(k := s.pc[t].k + 1))
    ensures RingOk(s')
  {
    hide Sub, Slot, Wrap;
    CallAt(s, t);
    SlotWrap(|s.log| - s.base);
    SlotNext(|s.log| - s.base, s.pc[t].k);
    forall j | |s.taker| <= j < |s.log|
      ensures s'.buffer[Slot(j - s.base)] == s.log[j]
    {
      SlotsDiffer(j - s.base, |s.log| + s.pc[t].k - s.base);
    }
  }

  lemma ByteCall(s: State, t: nat, s': State)
    requires t < |s.pc| && CallOk(s, t) && s.pc[t].WCopy? && s.pc[t].k < s.pc[t].amount
    requires Slot(s.head) + s.pc[t].k < |s.buffer| && s.pc[t].done + s.pc[t].k < |s.pc[t].buf|
    requires s' == Set(s.(buffer := s.buffer[Slot(s.head) + s.pc[t].k := s.pc[t].buf[s.pc[t].done + s.pc[t].k]]), t,
                       s.pc[t].(k := s.pc[t].k + 1))
    ensures CallOk(s', t)
  {
    var p, h := s.pc[t], Slot(s.head);
    hide Sub, Slot;
    var b := p.buf[p.done + p.k];
    assert s'.buffer[h..h + p.k + 1] == s.buffer[h..h + p.k] + [b];
    assert p.buf[p.done..p.done + p.k + 1] == p.buf[p.done..p.done + p.k] + [b];
  }

  lemma ByteKeeps(s: State, t: nat, s': State)
    requires Inv(s) && t < |s.pc| && s.pc[t].WCopy? && s.pc[t].k < s.pc[t].amount
    requires Slot(s.head) + s.pc[t].k < |s.buffer| && s.pc[t].done + s.pc[t].k < |s.pc[t].buf|
    requires s' == Set(s.(buffer := s.buffer[Slot(s.head) + s.pc[t].k := s.pc[t].buf[s.pc[t].done + s.pc[t].k]]), t,
                       s.pc[t].(k := s.pc[t].k + 1))
    ensures Inv(s')
  {
    CallAt(s, t);
    ByteRing(s, t, s');
    ByteCall(s, t, s');
    hide Sub, Slot;
    assert Sizes(s') && s.wlock == t;
    hide RingOk, CallOk;
    CallsKeep(s, s', t);
  }

  // The stream grows by what a writer has copied.
  ghost predicate Committed(s: State, t: nat, s': State) {
    t < |s.pc| && s.pc[t].WCopy? && s.pc[t].k == s.pc[t].amount && s.pc[t].done + s.pc[t].amount <= |s.pc[t].buf| &&
    var p := s.pc[t];
    s' == Set(s.(pending := s.pending + p.amount, log := s.log + p.buf[p.done..p.done + p.amount],
                 author := s.author + Repeat(t, p.amount)), t, WMove(p.buf, p.any, p.nb, p.done + p.amount, p.amount))
  }

  lemma CommitData(s: State, t: nat, s': State, i: nat)
    requires Inv(s) && Committed(s, t, s') && |s.log| <= i < |s'.log|
    ensures |s'.buffer| == 4096 && s'.buffer[Slot(i - s.base)] == s'.log[i]
  {
    CallAt(s, t);
    var p, j := s.pc[t], i - |s.log|;
    assert Late(s, s.wlock) == 0;
    SlotWrap(|s.log| - s.base);
    SlotNext(|s.log| - s.base, j);
    hide Sub, Wrap;
    var h := Slot(s.head);
    assert s.buffer[h..h + p.k][j] == p.buf[p.done..p.done + p.k][j];
  }

  lemma CommitRing(s: State, t: nat, s': State)
    requires Inv(s) && Committed(s, t, s')
    ensures RingOk(s')
  {
    hide Sub, Wrap;
    CallAt(s, t);
    forall i | |s.log| <= i < |s'.log|
      ensures s'.buffer[Slot(i - s.base)] == s'.log[i]
    {
      CommitData(s, t, s', i);
    }
  }

  lemma CommitOwn(s: State, t: nat, s': State)
    requires CommittedOk(s, t, s')
    ensures CallOk(s', t)
  {
    hide Sub, Slot, Wrap;
    var p := s.pc[t];
    var more := p.buf[p.done..p.done + p.amount];
    SubLonger(s.log, more, s.author, t);
    SubMore(s'.log, s.author, t, p.amount, t);
    assert s'.log[|s.log|..|s.log| + p.amount] == more;
    assert p.buf[..p.done] + more == p.buf[..p.done + p.amount];
  }

  ghost predicate CommittedOk(s: State, t: nat, s': State) {
    Committed(s, t, s') && CallOk(s, t) && Sizes(s')
  }

  lemma CommitBeside(s: State, t: nat, s': State, u: nat)
    requires CommittedOk(s, t, s') && u < |s.pc| && u != t
    ensures Beside(s, s', t, u)
  {
    var p := s.pc[t];
    var more := p.buf[p.done..p.done + p.amount];
    SubLonger(s.log, more, s.author, u);
    SubLonger(s.log, more, s.taker, u);
    SubMore(s'.log, s.author, t, p.amount, u);
    hide Sub, Slot, Wrap;
  }

  lemma CommitKeeps(s: State, t: nat, s': State)
    requires Inv(s) && Committed(s, t, s')
    ensures Inv(s')
  {
    CallAt(s, t);
    CommitRing(s, t, s');
    assert t < |s.pc| == |s'.pc| && CommittedOk(s, t, s');
    hide RingOk, CallOk, Beside, CommittedOk, Committed;
    CommitOwn(s, t, s');
    forall u | 0 <= u < |s.pc| && u != t
      ensures Beside(s, s', t, u)
    {
      CommitBeside(s, t, s', u);
    }
    CallsKeep(s, s', t);
  }

  // head, or tail, catches up, and the lock is released.
  lemma MoveKeeps(s: State, s': State, t: nat)
    requires Inv(s) && t < |s.pc| == |s'.pc| && s'.pc == s.pc[t := s'.pc[t]] && (s.pc[t].WMove? || s.pc[t].RMove?)
    requires s' == if s.pc[t].WMove? then s.(pc := s'.pc, head := Wrap(s.head + s.pc[t].amount), wlock := -1)
                   else s.(pc := s'.pc, tail := Wrap(s.tail + s.pc[t].amount), rlock := -1)
    requires match s'.pc[t]
             case WBack(buf, _, _, done, _) => s.pc[t].WMove? && buf == s.pc[t].buf && done == s.pc[t].done
             case WDone(buf, done) => s.pc[t].WMove? && buf == s.pc[t].buf && done == s.pc[t].done
             case RBack(len, _, _, got, _) => s.pc[t].RMove? && got == s.pc[t].got && len == s.pc[t].len
             case RDone(got) => s.pc[t].RMove? && got == s.pc[t].got
             case _ => false
    ensures Inv(s')
  {
    hide Sub, Slot, Wrap;
    CallAt(s, t);
    WrapAdd(|s.log| - s.base, s.pc[t].amount);
    WrapAdd(|s.taker| - s.base, s.pc[t].amount);
    assert RingOk(s') && CallOk(s', t);
    hide RingOk, CallOk;
    CallsKeep(s, s', t);
  }

  // A reader takes what it has copied off the stream.
  lemma TakeCalls(s: State, t: nat, u: nat, s': State, q: Pc)
    requires Inv(s) && t < |s.pc| && u < |s.pc| && s.pc[t].RCopy? && |s.pc[t].chunk| == s.pc[t].amount
    requires q.RMove? && q.amount == s.pc[t].amount && q.got == s.pc[t].got + s.pc[t].chunk && q.len == s.pc[t].len
    requires s' == Set(s.(pending := s.pending - s.pc[t].amount, taker := s.taker + Repeat(t, s.pc[t].amount)), t, q)
    ensures Sizes(s')
    ensures if u == t then CallOk(s', t) else Beside(s, s', t, u)
  {
    CallAt(s, t);
    CallAt(s, u);
    SubMore(s.log, s.taker, t, s.pc[t].amount, u);
    hide Sub, Slot, Wrap;
  }

  lemma TakeKeeps(s: State, t: nat, s': State, q: Pc)
    requires Inv(s) && t < |s.pc| && s.pc[t].RCopy? && |s.pc[t].chunk| == s.pc[t].amount
    requires q.RMove? && q.amount == s.pc[t].amount && q.got == s.pc[t].got + s.pc[t].chunk && q.len == s.pc[t].len
    requires s' == Set(s.(pending := s.pending - s.pc[t].amount, taker := s.taker + Repeat(t, s.pc[t].amount)), t, q)
    ensures Inv(s')
  {
    CallAt(s, t);
    TakeCalls(s, t, t, s', q);
    forall u | 0 <= u < |s.pc| && u != t
      ensures Beside(s, s', t, u)
    {
      TakeCalls(s, t, u, s', q);
    }
    hide Sub, Slot, Wrap, Beside;
    assert RingOk(s');
    hide RingOk, CallOk;
    CallsKeep(s, s', t);
  }

  // ----- every step, every run

  // The write steps that only move a call: into the lock, to the start of a copy, or out.
  lemma WriteQuiet(s: State, t: nat, interrupted: bool)
    requires Inv(s) && t < |s.pc| && (s.pc[t].WStart? || s.pc[t].WTest? || s.pc[t].WBack? || s.pc[t].WDone?)
    ensures Inv(WStep(s, t, interrupted))
  {
    CallAt(s, t);
    assert -1 <= s.wlock;
    hide Inv, Sub, Slot, Wrap;
    var s' := WStep(s, t, interrupted);
    if s' != s {
      WriteQuietCall(s, t, interrupted);
      hide CallOk;
      QuietKeeps(s, s', t);
    }
  }

  lemma WriteQuietCall(s: State, t: nat, interrupted: bool)
    requires t < |s.pc| && CallOk(s, t) && -1 <= s.wlock
    requires s.pc[t].WStart? || s.pc[t].WTest? || s.pc[t].WBack? || s.pc[t].WDone?
    ensures WStep(s, t, interrupted) != s ==> CallOk(WStep(s, t, interrupted), t)
  {
    hide Sub, Slot;
  }

  lemma WriteCopySafe(s: State, t: nat, interrupted: bool)
    requires Inv(s) && t < |s.pc| && s.pc[t].WCopy?
    ensures Inv(WStep(s, t, interrupted))
  {
    hide Sub, Slot, Wrap;
    CallAt(s, t);
    hide Inv;
    var s' := WStep(s, t, interrupted);
    if s.pc[t].k < s.pc[t].amount {
      ByteKeeps(s, t, s');
    } else {
      assert Committed(s, t, s');
      CommitKeeps(s, t, s');
    }
  }

  lemma WriteMoveSafe(s: State, t: nat, interrupted: bool)
    requires Inv(s) && t < |s.pc| && s.pc[t].WMove?
    ensures Inv(WStep(s, t, interrupted))
  {
    hide Inv, Wrap;
    MoveKeeps(s, WStep(s, t, interrupted), t);
  }

  lemma WriteSafe(s: State, t: nat, interrupted: bool)
    requires Inv(s) && t < |s.pc| && Writing(s.pc[t])
    ensures Inv(WStep(s, t, interrupted)) && |WStep(s, t, interrupted).pc| == |s.pc|
  {
    hide Inv, Slot, Wrap;
    assert |WStep(s, t, interrupted).pc| == |s.pc|;
    hide WStep;
    if s.pc[t].WCopy? {
      WriteCopySafe(s, t, interrupted);
    } else if s.pc[t].WMove? {
      WriteMoveSafe(s, t, interrupted);
    } else {
      WriteQuiet(s, t, interrupted);
    }
  }

  // The byte a reader copies is the next one of the stream.
  lemma ChunkGrows(s: State, t: nat)
    requires Inv(s) && t < |s.pc| && s.pc[t].RCopy? && |s.pc[t].chunk| < s.pc[t].amount
    ensures var i := Slot(s.tail) + |s.pc[t].chunk|;
            0 <= i < |s.buffer| && |s.taker| + |s.pc[t].chunk| < |s.log| &&
            s.pc[t].chunk + [s.buffer[i]] == s.log[|s.taker|..|s.taker| + |s.pc[t].chunk| + 1]
  {
    CallAt(s, t);
    var p := s.pc[t];
    assert Late(s, s.rlock) == 0;
    SlotWrap(|s.taker| - s.base);
    SlotNext(|s.taker| - s.base, |p.chunk|);
    hide Sub, Wrap;
    var n := |s.taker| + |p.chunk|;
    assert s.buffer[Slot(n - s.base)] == s.log[n];
    assert s.log[|s.taker|..n + 1] == s.log[|s.taker|..n] + [s.log[n]];
  }

  lemma ReadQuiet(s: State, t: nat, interrupted: bool)
    requires Inv(s) && t < |s.pc| && (s.pc[t].RStart? || s.pc[t].RTest? || s.pc[t].RBack? || s.pc[t].RDone?)
    ensures Inv(RStep(s, t, interrupted))
  {
    CallAt(s, t);
    assert -1 <= s.rlock;
    hide Inv, Sub, Slot, Wrap;
    var s' := RStep(s, t, interrupted);
    if s' != s {
      ReadQuietCall(s, t, interrupted);
      hide CallOk;
      QuietKeeps(s, s', t);
    }
  }

  lemma ReadQuietCall(s: State, t: nat, interrupted: bool)
    requires t < |s.pc| && CallOk(s, t) && -1 <= s.rlock
    requires s.pc[t].RStart? || s.pc[t].RTest? || s.pc[t].RBack? || s.pc[t].RDone?
    ensures RStep(s, t, interrupted) != s ==> CallOk(RStep(s, t, interrupted), t)
  {
    hide Sub, Slot;
  }

  // The copy loop of a reader: one more byte, or the end of file with nothing copied.
  lemma ChunkKeeps(s: State, t: nat, s': State)
    requires Inv(s) && t < |s.pc| && s.pc[t].RCopy?
    requires if |s.pc[t].chunk| < s.pc[t].amount
             then var i := Slot(s.tail) + |s.pc[t].chunk|;
                  0 <= i < |s.buffer| && s' == Set(s, t, s.pc[t].(chunk := s.pc[t].chunk + [s.buffer[i]]))
             else s.pc[t].got + s.pc[t].chunk == [] && s' == Set(s.(eof := false, rlock := -1), t, RDone([]))
    ensures Inv(s')
  {
    CallAt(s, t);
    if |s.pc[t].chunk| < s.pc[t].amount {
      ChunkGrows(s, t);
    }
    hide Inv, Sub, Slot;
    assert CallOk(s', t);
    hide CallOk;
    QuietKeeps(s, s', t);
  }

  lemma ReadCopySafe(s: State, t: nat, interrupted: bool)
    requires Inv(s) && t < |s.pc| && s.pc[t].RCopy?
    ensures Inv(RStep(s, t, interrupted))
  {
    CallAt(s, t);
    var p, s' := s.pc[t], RStep(s, t, interrupted);
    if |p.chunk| < p.amount {
      ChunkGrows(s, t);
      hide Inv, CallOk, Slot;
      ChunkKeeps(s, t, s');
    } else if More(p.any, p.len, |p.got + p.chunk|) && !p.nb && s.eof && p.got + p.chunk == [] {
      hide Inv, CallOk, Slot;
      ChunkKeeps(s, t, s');
    } else {
      assert |p.chunk| == p.amount;
      hide Inv, CallOk, Slot;
      TakeKeeps(s, t, s', RMove(p.len, p.any, p.nb, p.got + p.chunk, p.amount));
    }
  }

  lemma ReadMoveSafe(s: State, t: nat, interrupted: bool)
    requires Inv(s) && t < |s.pc| && s.pc[t].RMove?
    ensures Inv(RStep(s, t, interrupted))
  {
    hide Inv, Wrap;
    MoveKeeps(s, RStep(s, t, interrupted), t);
  }

  lemma ReadSafe(s: State, t: nat, interrupted: bool)
    requires Inv(s) && t < |s.pc| && !Writing(s.pc[t])
    ensures Inv(RStep(s, t, interrupted)) && |RStep(s, t, interrupted).pc| == |s.pc|
  {
    hide Inv, Slot, Wrap;
    assert |RStep(s, t, interrupted).pc| == |s.pc|;
    hide RStep;
    if s.pc[t].RCopy? {
      ReadCopySafe(s, t, interrupted);
    } else if s.pc[t].RMove? {
      ReadMoveSafe(s, t, interrupted);
    } else {
      ReadQuiet(s, t, interrupted);
    }
  }

  lemma ResetSafe(s: State)
    requires Inv(s)
    ensures Inv(Step(s, Reset)) && |Step(s, Reset).pc| == |s.pc|
  {
    var s' := Step(s, Reset);
    if s.wlock == -1 && s.rlock == -1 {
      hide Sub;
      assert |s.log| - |s.taker| >= 0;
      assert RingOk(s');
      forall u | 0 <= u < |s.pc|
        ensures CallOk(s', u)
      {
        CallAt(s, u);
        SubMore(s.log, s.taker, -1, |s.log| - |s.taker|, u);
      }
    }
  }

  /** Every step of every call keeps the stream and the ring in agreement. */
  lemma StepSafe(s: State, e: Event)
    requires Inv(s)
    ensures Inv(Step(s, e)) && |Step(s, e).pc| == |s.pc|
  {
    match e
    case Go(t, interrupted) =>
      hide Inv, WStep, RStep;
      if t < |s.pc| {
        if Writing(s.pc[t]) {
          WriteSafe(s, t, interrupted);
        } else {
          ReadSafe(s, t, interrupted);
        }
      }
    case Reset =>
      hide Inv;
      ResetSafe(s);
    case _ =>
      hide Inv;
      FlagsKeep(s, Step(s, e));
  }

  lemma FlagsKeep(s: State, s': State)
    requires Inv(s) && s' == s.(term := s'.term, eof := s'.eof)
    ensures Inv(s')
  {
    hide Sub, RingOk;
    RingFlags(s, s');
    forall t | 0 <= t < |s.pc|
      ensures CallOk(s', t)
    {
      CallAt(s, t);
      CallFlags(s, s', t);
    }
  }

  lemma RingFlags(s: State, s': State)
    requires RingOk(s) && s' == s.(term := s'.term, eof := s'.eof)
    ensures RingOk(s')
  {
  }

  lemma CallFlags(s: State, s': State, t: nat)
    requires t < |s.pc| && CallOk(s, t) && s' == s.(term := s'.term, eof := s'.eof)
    ensures CallOk(s', t)
  {
    hide Sub;
  }

  lemma StartInv(s: State)
    requires Initial(s)
    ensures Inv(s)
  {
  }

  lemma {:induction false} RunSafe(s: State, events: seq<Event>)
    requires Inv(s)
    ensures Inv(Run(s, events)) && |Run(s, events).pc| == |s.pc|
    decreases |events|
  {
    hide Inv, Step;
    if events != [] {
      StepSafe(s, events[0]);
      RunSafe(Step(s, events[0]), events[1..]);
    }
  }

  /**
    At every moment of every run: the count of pending bytes is right and within the capacity, the unread bytes are in
    their slots, and the taken bytes are the front of the stream.
  */
  lemma Fifo(s0: State, events: seq<Event>)
    requires Initial(s0)
    ensures var s := Run(s0, events);
            0 <= s.pending <= 4096 && |s.taker| <= |s.log| == |s.author| && s.pending == |s.log| - |s.taker| &&
            s.base <= |s.taker| && |s.buffer| == 4096 &&
            forall i | |s.taker| <= i < |s.log| :: s.buffer[Slot(i - s.base)] == s.log[i]
  {
    StartInv(s0);
    RunSafe(s0, events);
  }

  /**
    What each call has done: a writer has put a prefix of its buffer into the stream, in order; a reader has taken
    exactly the bytes it returns.
  */
  lemma CallsAccount(s0: State, events: seq<Event>, t: nat)
    requires Initial(s0) && t < |s0.pc|
    ensures var s := Run(s0, events);
            t < |s.pc| && |s.taker| <= |s.log| == |s.author| &&
            var p := s.pc[t];
            if Writing(p) then Put(p) <= |p.buf| && Sub(s.log, s.author, t) == p.buf[..Put(p)]
            else Sub(s.log, s.taker, t) == Got(p)
  {
    StartInv(s0);
    RunSafe(s0, events);
    CallAt(Run(s0, events), t);
  }

  /** No copy ever goes out of the ring or out of the caller's buffer, and no amount is ever below zero. */
  lemma NeverFaults(s0: State, events: seq<Event>)
    requires Initial(s0)
    ensures !Run(s0, events).fault
  {
    StartInv(s0);
    RunSafe(s0, events);
  }

  /** No slot that a writer copies into holds an unread byte. */
  lemma CopiesApart(s0: State, events: seq<Event>, t: nat, k: nat, i: nat)
    requires Initial(s0)
    requires var s := Run(s0, events); t < |s.pc| && s.pc[t].WCopy? && k < s.pc[t].amount && |s.taker| <= i < |s.log|
    ensures var s := Run(s0, events); Slot(s.head) + k < 4096 && Slot(s.head) + k != Slot(i - s.base)
  {
    StartInv(s0);
    RunSafe(s0, events);
    var s := Run(s0, events);
    CallAt(s, t);
    SlotWrap(|s.log| - s.base);
    SlotNext(|s.log| - s.base, k);
    SlotsDiffer(i - s.base, |s.log| + k - s.base);
  }

  /** The slots that a reader copies out are those of the first unread bytes. */
  lemma CopiesUnread(s0: State, events: seq<Event>, u: nat, j: nat)
    requires Initial(s0)
    requires var s := Run(s0, events); u < |s.pc| && s.pc[u].RCopy? && j < s.pc[u].amount
    ensures var s := Run(s0, events); |s.taker| + j < |s.log| && Slot(s.tail) + j == Slot(|s.taker| + j - s.base)
  {
    StartInv(s0);
    RunSafe(s0, events);
    var s := Run(s0, events);
    CallAt(s, u);
    SlotWrap(|s.taker| - s.base);
    SlotNext(|s.taker| - s.base, j);
  }
}
