/**
  Flattened device trees: the sequential writer, which lays out structure tags from the front of a buffer
  and property names from the back, and the reader, which walks the tags.

  The header fields are kept beside the buffer instead of inside it.
*/
module FlatTree {

  import opened Common

  /** One structure tag with its payload; a name is a C string, so it holds no zero byte. */
  datatype Token = BeginNode(name: Bytes) | EndNode | Prop(name: Bytes, val: Bytes) | End

  const FDT_BEGIN_NODE := 1
  const FDT_END_NODE := 2
  const FDT_PROP := 3
  const FDT_NOP := 4
  const FDT_END := 9

  function Tag(t: Token): int {
    match t
    case BeginNode(_) => FDT_BEGIN_NODE
    case EndNode => FDT_END_NODE
    case Prop(_, _) => FDT_PROP
    case End => FDT_END
  }

  // FDT_TAGALIGN
  function Align(n: nat): nat {
    (n + 3) / 4 * 4
  }

  /** Bytes a tag takes in the structure block. */
  function Size(t: Token): nat {
    match t
    case BeginNode(name) => 4 + Align(|name| + 1)
    case Prop(_, val) => 12 + Align(|val|)
    case _ => 4
  }

  /** Where tag k begins. */
  function Start(toks: seq<Token>, k: nat): nat
    requires k <= |toks|
  {
    if k == 0 then 0 else Start(toks, k - 1) + Size(toks[k - 1])
  }

  // cpu_to_fdt32 and fdt32_to_cpu: big-endian words
  function Word(b: Bytes, i: nat): (w: int)
    requires i + 4 <= |b|
    ensures 0 <= w < 0x1_0000_0000
  {
    var b0: int, b1: int, b2: int, b3: int := b[i], b[i + 1], b[i + 2], b[i + 3];
    b0 * 0x100_0000 + b1 * 0x1_0000 + b2 * 256 + b3
  }

  function Encode(w: int): (r: Bytes)
    requires 0 <= w < 0x1_0000_0000
    ensures |r| == 4
  {
    var a := w / 256;
    var b := a / 256;
    [b / 256, b % 256, a % 256, w % 256]
  }

  lemma WordRoundTrip(w: int)
    requires 0 <= w < 0x1_0000_0000
    ensures Word(Encode(w), 0) == w
  {
  }

  /** A signed 32-bit number as a word. */
  function Unsigned(o: int): int {
    if o < 0 then o + 0x1_0000_0000 else o
  }

  function Signed(w: int): int {
    if w >= 0x8000_0000 then w - 0x1_0000_0000 else w
  }

  /** memcpy */
  function Splice(b: Bytes, at: nat, d: Bytes): (r: Bytes)
    requires at + |d| <= |b|
    ensures |r| == |b|
  {
    b[..at] + d + b[at + |d|..]
  }

  lemma SpliceIn(b: Bytes, at: nat, d: Bytes)
    requires at + |d| <= |b|
    ensures Splice(b, at, d)[at..at + |d|] == d
  {
  }

  lemma SpliceOut(b: Bytes, at: nat, d: Bytes, lo: nat, hi: nat)
    requires at + |d| <= |b| && lo <= hi <= |b| && (hi <= at || at + |d| <= lo)
    ensures Splice(b, at, d)[lo..hi] == b[lo..hi]
  {
  }

  lemma WordSlice(b: Bytes, i: nat, c: Bytes, j: nat)
    requires i + 4 <= |b| && j + 4 <= |c| && b[i..i + 4] == c[j..j + 4]
    ensures Word(b, i) == Word(c, j)
  {
    var d, e := b[i..i + 4], c[j..j + 4];
    assert d[0] == e[0] && d[1] == e[1] && d[2] == e[2] && d[3] == e[3];
  }

  /** Token t is laid out at position at, with name offset o if it is a property; the padding may hold anything. */
  predicate TokAt(b: Bytes, at: nat, t: Token, o: int) {
    at + Size(t) <= |b| && Word(b, at) == Tag(t) &&
    match t
    case BeginNode(name) =>
      |name| + 1 <= Align(|name| + 1) && b[at + 4..at + 4 + |name|] == name && b[at + 4 + |name|] == 0 && 0 !in name
    case Prop(name, val) =>
      |val| <= Align(|val|) && Word(b, at + 4) == |val| && Word(b, at + 8) == Unsigned(o) &&
      b[at + 12..at + 12 + |val|] == val
    case _ => true
  }

  /** The string s, with its zero byte, at position p of the string table. */
  predicate StrAt(table: Bytes, p: int, s: Bytes) {
    0 <= p && p + |s| + 1 <= |table| && table[p..p + |s|] == s && table[p + |s|] == 0 && 0 !in s
  }

  lemma AlignUp(n: nat)
    ensures n <= Align(n) < n + 4
  {
  }

  /** A token depends only on its own bytes. */
  lemma TokSame(b: Bytes, b': Bytes, at: nat, t: Token, o: int)
    requires TokAt(b, at, t, o) && at + Size(t) <= |b'| && b'[at..at + Size(t)] == b[at..at + Size(t)]
    ensures TokAt(b', at, t, o)
  {
    var n := Size(t);
    assert forall k | at <= k < at + n :: b'[k] == b'[at..at + n][k - at] && b[k] == b[at..at + n][k - at];
    hide Align;
    match t
    case BeginNode(name) =>
      assert b'[at + 4..at + 4 + |name|] == b[at + 4..at + 4 + |name|];
    case Prop(name, val) =>
      assert b'[at + 12..at + 12 + |val|] == b[at + 12..at + 12 + |val|];
    case _ =>
  }

  lemma SizeAligned(t: Token)
    ensures Size(t) % 4 == 0
  {
    match t
    case BeginNode(name) =>
    case Prop(_, val) =>
    case _ =>
  }

  lemma {:induction false} StartAligned(toks: seq<Token>, k: nat)
    requires k <= |toks|
    ensures Start(toks, k) % 4 == 0
  {
    hide Size;
    if k > 0 {
      SizeAligned(toks[k - 1]);
      StartAligned(toks, k - 1);
    }
  }

  lemma {:induction false} StartMonotone(toks: seq<Token>, j: nat, k: nat)
    requires j <= k <= |toks|
    ensures Start(toks, j) + 4 * (k - j) <= Start(toks, k)
    ensures j < k ==> Start(toks, j) + Size(toks[j]) <= Start(toks, k)
  {
    if j < k {
      StartMonotone(toks, j, k - 1);
    }
  }

  lemma {:induction false} StartPrefix(toks: seq<Token>, more: seq<Token>, k: nat)
    requires k <= |toks|
    ensures Start(toks + more, k) == Start(toks, k)
  {
    if k > 0 {
      StartPrefix(toks, more, k - 1);
    }
  }

  // ----- reading tags

  const FDT_ERR_NOTFOUND := 1
  const FDT_ERR_BADOFFSET := 4
  const FDT_ERR_TRUNCATED := 8
  const FDT_ERR_BADSTRUCTURE := 11

  /** Bytes of a tag without its padding. */
  function Raw(t: Token): nat {
    match t
    case BeginNode(name) => 4 + |name| + 1
    case Prop(_, val) => 12 + |val|
    case _ => 4
  }

  lemma RawAligns(off: nat, t: Token)
    requires off % 4 == 0
    ensures Align(off + Raw(t)) == off + Size(t)
  {
  }

  /** The first zero byte from start on, or the limit. */
  function Stop(b: Bytes, start: nat, limit: nat): (stop: nat)
    requires start <= limit <= |b|
    ensures start <= stop <= limit
    decreases limit - start
  {
    if start == limit || b[start] == 0 then start else Stop(b, start + 1, limit)
  }

  // strlen, within a limit
  method Scan(b: Bytes, start: nat, limit: nat) returns (stop: nat)
    requires start <= limit <= |b|
    ensures start <= stop <= limit && 0 !in b[start..stop] && (stop < limit ==> b[stop] == 0)
    ensures stop == Stop(b, start, limit)
  {
    stop := start;
    while stop < limit && b[stop] != 0
      invariant start <= stop <= limit && 0 !in b[start..stop] && Stop(b, stop, limit) == Stop(b, start, limit)
    {
      assert b[start..stop + 1] == b[start..stop] + [b[stop]];
      stop := stop + 1;
    }
  }

  // A scan that begins at a string stops at its zero byte.
  lemma ScanFinds(b: Bytes, start: nat, limit: nat, stop: nat, name: Bytes)
    requires start <= stop <= limit <= |b| && 0 !in b[start..stop] && (stop < limit ==> b[stop] == 0)
    requires start + |name| < limit && b[start..start + |name|] == name && 0 !in name && b[start + |name|] == 0
    ensures stop == start + |name|
  {
  }

  /** Offsets are 32-bit ints: in shorter blobs every offset, and what it is rounded up to, is one. */
  const LIMIT := 0x7FFF_FFFD

  /** There is a property at off, and the 32-bit offset of its end wraps around. */
  predicate Wraps(b: Bytes, base: nat, size: nat, off: nat)
    requires base + size <= |b|
  {
    off + 8 <= size && Word(b, base + off) == FDT_PROP && off + 12 + Word(b, base + off + 4) >= 0x1_0000_0000
  }

  /** Its length is such that the next tag is not after it. */
  predicate Backward(b: Bytes, base: nat, size: nat, off: nat)
    requires base + size <= |b|
  {
    Wraps(b, base, size, off) && Word(b, base + off + 4) <= 0xFFFF_FFF4 - off % 4
  }

  /** Its length is such that the next tag is itself. */
  predicate Spins(b: Bytes, base: nat, size: nat, off: nat)
    requires base + size <= |b|
  {
    off % 4 == 0 && Wraps(b, base, size, off) && 0xFFFF_FFF1 <= Word(b, base + off + 4) <= 0xFFFF_FFF4
  }

  /** Where the tag after a property of that length begins. */
  function AfterProp(off: nat, len: nat): nat {
    (off + 12 + len) % 0x1_0000_0000
  }

  // An offset that wraps around is less than off + 12.
  lemma WrappedAligns(off: nat, len: nat)
    requires len < 0x1_0000_0000 <= off + 12 + len
    ensures Align(off + 12 + len - 0x1_0000_0000) > off <==> len > 0xFFFF_FFF4 - off % 4
    ensures off % 4 == 0 ==> (Align(off + 12 + len - 0x1_0000_0000) == off <==> 0xFFFF_FFF1 <= len <= 0xFFFF_FFF4)
  {
  }

  lemma AfterPropIs(off: nat, len: nat)
    requires off < 0x8000_0000 && len < 0x1_0000_0000
    ensures var n := off + 12 + len; AfterProp(off, len) == if n < 0x1_0000_0000 then n else n - 0x1_0000_0000
  {
  }

  /**
    What fdt_next_tag says on any block: the next tag is after this one unless this is a property whose length wraps
    the offset around, and exactly the properties whose length does not wrap it end within the block.
  */
  predicate Onward(b: Bytes, base: nat, size: nat, off: nat, tag: int, next: int)
    requires base + size <= |b|
  {
    (next < 0 ==> tag == FDT_END && !Backward(b, base, size, off)) &&
    (next >= 0 ==>
      off + 4 <= size && tag == Word(b, base + off) && next <= size + 3 &&
      (next > off <==> !Backward(b, base, size, off)) &&
      (off % 4 == 0 ==> (next == off <==> Spins(b, base, size, off)))) &&
    (tag == FDT_PROP ==>
      off + 8 <= size && (off + 12 + Word(b, base + off + 4) <= size <==> !Wraps(b, base, size, off)))
  }

  lemma OnwardFails(b: Bytes, base: nat, size: nat, off: nat, next: int)
    requires base + size <= |b| < LIMIT && off < 0x8000_0000 && next < 0
    requires off + 8 <= size && Word(b, base + off) == FDT_PROP ==> AfterProp(off, Word(b, base + off + 4)) > size
    ensures Onward(b, base, size, off, FDT_END, next)
  {
    hide Align, AfterProp;
    if off + 8 <= size {
      AfterPropIs(off, Word(b, base + off + 4));
    }
  }

  lemma OnwardProp(b: Bytes, base: nat, size: nat, off: nat)
    requires base + size <= |b| < LIMIT && off + 8 <= size && Word(b, base + off) == FDT_PROP
    requires AfterProp(off, Word(b, base + off + 4)) <= size
    ensures Onward(b, base, size, off, FDT_PROP, Align(AfterProp(off, Word(b, base + off + 4))))
  {
    hide Align, AfterProp;
    var n := Word(b, base + off + 4);
    hide Word;
    AfterPropIs(off, n);
    AlignUp(AfterProp(off, n));
    if off + 12 + n >= 0x1_0000_0000 {
      WrappedAligns(off, n);
    }
  }

  lemma OnwardPlain(b: Bytes, base: nat, size: nat, off: nat, offset: nat)
    requires base + size <= |b| < LIMIT && off + 4 <= offset <= size && Word(b, base + off) != FDT_PROP
    ensures Onward(b, base, size, off, Word(b, base + off), Align(offset))
  {
    AlignUp(offset);
  }

  lemma LaidTag(b: Bytes, base: nat, size: nat, off: nat, t: Token, o: int)
    requires base + size <= |b| < LIMIT && Laid(b, base, size, off, t, o)
    ensures off + 4 <= size && Word(b, base + off) == Tag(t)
    ensures t == EndNode || t == End ==> Align(off + 4) == off + Size(t)
  {
    hide Word;
    RawAligns(off, t);
    hide Align;
  }

  lemma LaidName(b: Bytes, base: nat, size: nat, off: nat, t: Token, o: int, stop: nat)
    requires base + size <= |b| < LIMIT && Laid(b, base, size, off, t, o) && t.BeginNode?
    requires base + off + 4 <= stop <= base + size && 0 !in b[base + off + 4..stop] &&
             (stop < base + size ==> b[stop] == 0)
    ensures stop < base + size && Align(stop - base + 1) == off + Size(t)
  {
    hide Word;
    RawAligns(off, t);
    hide Align;
    ScanFinds(b, base + off + 4, base + size, stop, t.name);
  }

  lemma LaidProp(b: Bytes, base: nat, size: nat, off: nat, t: Token, o: int)
    requires base + size <= |b| < LIMIT && Laid(b, base, size, off, t, o) && t.Prop?
    ensures off + 8 <= size
    ensures var n := AfterProp(off, Word(b, base + off + 4)); n <= size && Align(n) == off + Size(t)
  {
    hide Word, AfterProp;
    RawAligns(off, t);
    hide Align;
    AfterPropIs(off, |t.val|);
  }

  // A tag whose bytes end at offset: where the next one begins, or that this one does not fit.
  function TagEnds(tag: int, offset: nat, size: nat): (int, int) {
    if offset > size then (FDT_END, -FDT_ERR_BADSTRUCTURE) else (tag, Align(offset))
  }

  /** The tag at off and the offset of the next, as a function of the block. */
  function TagAt(b: Bytes, base: nat, size: nat, off: nat): (r: (int, int))
    requires base + size <= |b|
    ensures r.0 != FDT_END ==> 0 <= r.1 <= size + 3
  {
    if off + 4 > size then (FDT_END, -FDT_ERR_TRUNCATED)
    else
      var tag := Word(b, base + off);
      if tag == FDT_BEGIN_NODE then
        var stop := Stop(b, base + off + 4, base + size);
        if stop == base + size then (FDT_END, -FDT_ERR_BADSTRUCTURE) else TagEnds(tag, stop - base + 1, size)
      else if tag == FDT_PROP then
        if off + 8 > size then (FDT_END, -FDT_ERR_BADSTRUCTURE)
        else TagEnds(tag, AfterProp(off, Word(b, base + off + 4)), size)
      else if tag == FDT_END || tag == FDT_END_NODE || tag == FDT_NOP then TagEnds(tag, off + 4, size)
      else (FDT_END, -FDT_ERR_BADSTRUCTURE)
  }

  /**
    fdt_next_tag on the structure block b[base..base + size]: the tag at off and where the next one begins.
    Where a token is laid out, that token is found.
  */
  method NextTag(b: Bytes, base: nat, size: nat, off: nat, ghost t: Token, ghost o: int) returns (tag: int, next: int)
    requires base + size <= |b| < LIMIT && off < 0x8000_0000
    ensures Onward(b, base, size, off, tag, next) && (tag, next) == TagAt(b, base, size, off)
    ensures tag == FDT_BEGIN_NODE || tag == FDT_END_NODE || tag == FDT_PROP || tag == FDT_NOP || tag == FDT_END
    ensures Laid(b, base, size, off, t, o) ==> tag == Tag(t) && next == off + Size(t)
  {
    hide Align, AfterProp, Onward, Laid, Size, Wraps;
    ghost var laid := Laid(b, base, size, off, t, o);
    if laid {
      LaidTag(b, base, size, off, t, o);
    }
    if off + 4 > size {
      OnwardFails(b, base, size, off, -FDT_ERR_TRUNCATED);
      return FDT_END, -FDT_ERR_TRUNCATED;
    }
    tag := Word(b, base + off);
    hide Word;
    var offset := off + 4;
    if tag == FDT_BEGIN_NODE {
      var stop := Scan(b, base + offset, base + size);
      if laid {
        LaidName(b, base, size, off, t, o, stop);
      }
      if stop == base + size {
        OnwardFails(b, base, size, off, -FDT_ERR_BADSTRUCTURE);
        return FDT_END, -FDT_ERR_BADSTRUCTURE;
      }
      offset := stop - base + 1;
    } else if tag == FDT_PROP {
      if laid {
        LaidProp(b, base, size, off, t, o);
      }
      if offset + 4 > size {
        OnwardFails(b, base, size, off, -FDT_ERR_BADSTRUCTURE);
        return FDT_END, -FDT_ERR_BADSTRUCTURE;
      }
      offset := AfterProp(off, Word(b, base + offset));
    } else if tag != FDT_END && tag != FDT_END_NODE && tag != FDT_NOP {
      OnwardFails(b, base, size, off, -FDT_ERR_BADSTRUCTURE);
      return FDT_END, -FDT_ERR_BADSTRUCTURE;
    }
    if offset > size {
      OnwardFails(b, base, size, off, -FDT_ERR_BADSTRUCTURE);
      return FDT_END, -FDT_ERR_BADSTRUCTURE;
    }
    next := Align(offset);
    if tag == FDT_PROP {
      OnwardProp(b, base, size, off);
    } else {
      OnwardPlain(b, base, size, off, offset);
    }
  }

  /** Token t lies at off within the structure block. */
  predicate Laid(b: Bytes, base: nat, size: nat, off: nat, t: Token, o: int)
    requires base + size <= |b|
  {
    TokAt(b, base + off, t, o) && off + Size(t) <= size && off % 4 == 0
  }

  // ----- the layout

  /** The structure block at base holds the tokens, with name offsets offs for the properties. */
  ghost predicate Holds(b: Bytes, base: nat, toks: seq<Token>, offs: seq<int>) {
    |toks| == |offs| && forall k | 0 <= k < |toks| :: TokAt(b, base + Start(toks, k), toks[k], offs[k])
  }

  /** Every property's name is in the string table, at its offset from position shift. */
  ghost predicate Named(table: Bytes, shift: int, toks: seq<Token>, offs: seq<int>) {
    |toks| == |offs| && forall k | 0 <= k < |toks| && toks[k].Prop? :: StrAt(table, shift + offs[k], toks[k].name)
  }

  /** Appending a token after the block. */
  lemma HoldsMore(b: Bytes, b': Bytes, base: nat, toks: seq<Token>, offs: seq<int>, t: Token, o: int)
    requires Holds(b, base, toks, offs) && base + Start(toks, |toks|) <= |b| == |b'|
    requires b'[base..base + Start(toks, |toks|)] == b[base..base + Start(toks, |toks|)]
    requires TokAt(b', base + Start(toks, |toks|), t, o)
    ensures Holds(b', base, toks + [t], offs + [o])
    ensures Start(toks + [t], |toks| + 1) == Start(toks, |toks|) + Size(t)
  {
    StartPrefix(toks, [t], |toks|);
    assert Start(toks + [t], |toks| + 1) == Start(toks, |toks|) + Size(t);
    hide TokAt, Size, Start;
    forall k | 0 <= k < |toks| + 1
      ensures TokAt(b', base + Start(toks + [t], k), (toks + [t])[k], (offs + [o])[k])
    {
      MoreAt(b, b', base, toks, offs, t, o, k);
    }
  }

  lemma MoreAt(b: Bytes, b': Bytes, base: nat, toks: seq<Token>, offs: seq<int>, t: Token, o: int, k: nat)
    requires Holds(b, base, toks, offs) && base + Start(toks, |toks|) <= |b| == |b'| && k <= |toks|
    requires b'[base..base + Start(toks, |toks|)] == b[base..base + Start(toks, |toks|)]
    requires TokAt(b', base + Start(toks, |toks|), t, o)
    ensures TokAt(b', base + Start(toks + [t], k), (toks + [t])[k], (offs + [o])[k])
  {
    hide TokAt, Start;
    StartPrefix(toks, [t], k);
    if k < |toks| {
      TokKept(b, b', base, toks, offs, k);
    }
  }

  // A token of the block stays when the bytes of the block stay.
  lemma TokKept(b: Bytes, b': Bytes, base: nat, toks: seq<Token>, offs: seq<int>, k: nat)
    requires Holds(b, base, toks, offs) && base + Start(toks, |toks|) <= |b| == |b'| && k < |toks|
    requires b'[base..base + Start(toks, |toks|)] == b[base..base + Start(toks, |toks|)]
    ensures TokAt(b', base + Start(toks, k), toks[k], offs[k])
  {
    hide TokAt, Size, Start;
    var at := base + Start(toks, k);
    StartMonotone(toks, k, |toks|);
    assert TokAt(b, at, toks[k], offs[k]);
    SubSlice(b, b', base, base + Start(toks, |toks|), at, at + Size(toks[k]));
    TokSame(b, b', at, toks[k], offs[k]);
  }

  lemma SubSlice(b: Bytes, c: Bytes, lo: nat, hi: nat, x: nat, y: nat)
    requires lo <= x <= y <= hi <= |b| == |c| && b[lo..hi] == c[lo..hi]
    ensures b[x..y] == c[x..y]
  {
    forall i | x <= i < y
      ensures b[i] == c[i]
    {
      assert b[i] == b[lo..hi][i - lo] && c[i] == c[lo..hi][i - lo];
    }
  }

  lemma {:induction false} NamedMore(table: Bytes, shift: int, toks: seq<Token>, offs: seq<int>, t: Token, o: int)
    requires Named(table, shift, toks, offs) && (t.Prop? ==> StrAt(table, shift + o, t.name))
    ensures Named(table, shift, toks + [t], offs + [o])
  {
    hide StrAt;
  }

  // A table grows at the front: offsets from its end stay good.
  lemma NamedFront(table: Bytes, front: Bytes, toks: seq<Token>, offs: seq<int>)
    requires Named(table, |table|, toks, offs)
    ensures Named(front + table, |front + table|, toks, offs)
  {
    forall k | 0 <= k < |toks| && toks[k].Prop?
      ensures StrAt(front + table, |front + table| + offs[k], toks[k].name)
    {
      StrShift(table, front, |table| + offs[k], toks[k].name);
    }
  }

  lemma StrShift(table: Bytes, front: Bytes, p: int, s: Bytes)
    requires StrAt(table, p, s)
    ensures StrAt(front + table, |front| + p, s)
  {
    var all, q := front + table, |front| + p;
    assert all[q..q + |s|] == table[p..p + |s|];
  }

  // ----- writing

  /**
    An unfinished blob: the structure block from base up, the string table at the end of the buffer, and room between
    them.
  */
  ghost predicate Open(b: Bytes, base: nat, size: nat, strings: nat, toks: seq<Token>, offs: seq<int>) {
    |b| < LIMIT && base + size + strings <= |b| && size == Start(toks, |toks|) &&
    Holds(b, base, toks, offs) && Named(b[|b| - strings..], strings, toks, offs)
  }

  /** A token is written into the room; the table is not touched. */
  lemma OpenMore(b: Bytes, b': Bytes, base: nat, size: nat, strings: nat, toks: seq<Token>, offs: seq<int>, t: Token,
                 o: int)
    requires Open(b, base, size, strings, toks, offs) && base + size + Size(t) + strings <= |b| == |b'|
    requires b'[..base + size] == b[..base + size] && b'[base + size + Size(t)..] == b[base + size + Size(t)..]
    requires TokAt(b', base + size, t, o) && (t.Prop? ==> StrAt(b[|b| - strings..], strings + o, t.name))
    ensures Open(b', base, size + Size(t), strings, toks + [t], offs + [o])
  {
    hide TokAt, Size, Start, Holds, Named, StrAt;
    var n, end := |b|, base + size;
    assert b[0..end] == b[..end] && b'[0..end] == b'[..end];
    SubSlice(b, b', 0, end, base, end);
    assert b[end + Size(t)..n] == b[end + Size(t)..] && b'[end + Size(t)..n] == b'[end + Size(t)..];
    SubSlice(b, b', end + Size(t), n, n - strings, n);
    assert b[n - strings..n] == b[n - strings..] && b'[n - strings..n] == b'[n - strings..];
    assert |toks + [t]| == |toks| + 1;
    HoldsMore(b, b', base, toks, offs, t, o);
    NamedMore(b[n - strings..], strings, toks, offs, t, o);
  }

  lemma BeginLaid(b: Bytes, at: nat, name: Bytes)
    requires at + Size(BeginNode(name)) <= |b| && 0 !in name && |name| + 1 <= Align(|name| + 1)
    ensures TokAt(Splice(Splice(b, at, Encode(FDT_BEGIN_NODE)), at + 4, name + [0]), at, BeginNode(name), 0)
  {
    hide Align;
    var b1 := Splice(b, at, Encode(FDT_BEGIN_NODE));
    var b2 := Splice(b1, at + 4, name + [0]);
    SpliceIn(b, at, Encode(FDT_BEGIN_NODE));
    SpliceOut(b1, at + 4, name + [0], at, at + 4);
    WordRoundTrip(FDT_BEGIN_NODE);
    WordSlice(b2, at, Encode(FDT_BEGIN_NODE), 0);
    SpliceIn(b1, at + 4, name + [0]);
    var d := b2[at + 4..at + 4 + |name + [0]|];
    assert d == name + [0];
    assert b2[at + 4..at + 4 + |name|] == d[..|name|];
    assert b2[at + 4 + |name|] == d[|name|];
  }

  lemma TagLaid(b: Bytes, at: nat, t: Token)
    requires at + 4 <= |b| && (t == EndNode || t == End)
    ensures TokAt(Splice(b, at, Encode(Tag(t))), at, t, 0)
  {
    var b1 := Splice(b, at, Encode(Tag(t)));
    SpliceIn(b, at, Encode(Tag(t)));
    WordRoundTrip(Tag(t));
    WordSlice(b1, at, Encode(Tag(t)), 0);
  }

  /** The bytes of a property, up to its padding. */
  function PropBytes(len: nat, o: int, val: Bytes): (r: Bytes)
    requires len == |val| < 0x8000_0000 && -0x8000_0000 <= o < 0x8000_0000
    ensures |r| == 12 + |val|
  {
    Encode(FDT_PROP) + Encode(len) + Encode(Unsigned(o)) + val
  }

  lemma PropLaid(b: Bytes, at: nat, name: Bytes, val: Bytes, o: int)
    requires |val| < 0x8000_0000 && -0x8000_0000 <= o < 0x8000_0000 && |val| <= Align(|val|)
    requires at + Size(Prop(name, val)) <= |b|
    ensures TokAt(Splice(b, at, PropBytes(|val|, o, val)), at, Prop(name, val), o)
  {
    hide Align, Word, Encode;
    var d := PropBytes(|val|, o, val);
    var b1 := Splice(b, at, d);
    SpliceIn(b, at, d);
    assert d[0..4] == Encode(FDT_PROP)[0..4] && d[4..8] == Encode(|val|)[0..4] && d[8..12] == Encode(Unsigned(o))[0..4];
    assert b1[at..at + 4] == d[0..4] && b1[at + 4..at + 8] == d[4..8] && b1[at + 8..at + 12] == d[8..12];
    WordRoundTrip(FDT_PROP);
    WordRoundTrip(|val|);
    WordRoundTrip(Unsigned(o));
    WordSlice(b1, at, Encode(FDT_PROP), 0);
    WordSlice(b1, at + 4, Encode(|val|), 0);
    WordSlice(b1, at + 8, Encode(Unsigned(o)), 0);
    assert b1[at + 12..at + 12 + |val|] == d[12..] == val;
  }

  const FDT_ERR_NOSPACE := 3

  // _fdt_find_string: the first place in the table where s stands, with its zero byte
  method FindString(table: Bytes, s: Bytes) returns (p: int)
    requires 0 !in s
    ensures p >= 0 ==> StrAt(table, p, s)
    ensures p < 0 ==> forall q :: !StrAt(table, q, s)
  {
    p := 0;
    while p + |s| + 1 <= |table|
      invariant p >= 0 && forall q | 0 <= q < p :: !StrAt(table, q, s)
      decreases |table| - p
    {
      if table[p..p + |s|] == s && table[p + |s|] == 0 {
        return;
      }
      p := p + 1;
    }
    p := -1;
  }

  // A new name at the front of the table, which ends the buffer.
  lemma StringAdded(b: Bytes, base: nat, size: nat, strings: nat, toks: seq<Token>, offs: seq<int>, s: Bytes)
    requires Open(b, base, size, strings, toks, offs) && 0 !in s && base + size + strings + |s| + 1 <= |b|
    ensures var n := strings + |s| + 1;
            var b' := Splice(b, |b| - n, s + [0]);
            Open(b', base, size, n, toks, offs) && StrAt(b'[|b'| - n..], 0, s)
  {
    hide TokAt, Start, StrAt;
    var n := strings + |s| + 1;
    var b' := Splice(b, |b| - n, s + [0]);
    var table := b[|b| - strings..];
    assert b'[|b'| - n..] == s + [0] + table;
    NamedFront(table, s + [0], toks, offs);
    FrontString(s, table);
    SpliceOut(b, |b| - n, s + [0], base, base + size);
    HoldsSame(b, b', base, toks, offs);
  }

  lemma FrontString(s: Bytes, table: Bytes)
    requires 0 !in s
    ensures StrAt(s + [0] + table, 0, s)
  {
    var all := s + [0] + table;
    assert all[0..0 + |s|] == s;
  }

  lemma HoldsSame(b: Bytes, b': Bytes, base: nat, toks: seq<Token>, offs: seq<int>)
    requires Holds(b, base, toks, offs) && base + Start(toks, |toks|) <= |b| == |b'|
    requires b'[base..base + Start(toks, |toks|)] == b[base..base + Start(toks, |toks|)]
    ensures Holds(b', base, toks, offs)
  {
    hide TokAt, Start;
    forall k | 0 <= k < |toks|
      ensures TokAt(b', base + Start(toks, k), toks[k], offs[k])
    {
      TokKept(b, b', base, toks, offs, k);
    }
  }

  lemma StrInside(table: Bytes, p: int, s: Bytes)
    requires StrAt(table, p, s)
    ensures 0 <= p < |table|
  {
  }

  lemma OpenFits(b: Bytes, base: nat, size: nat, strings: nat, toks: seq<Token>, offs: seq<int>)
    requires Open(b, base, size, strings, toks, offs)
    ensures base + size + strings <= |b| < LIMIT
  {
  }

  function BeginBytes(b: Bytes, at: nat, name: Bytes): (r: Bytes)
    requires at + 4 + |name| + 1 <= |b|
    ensures |r| == |b|
  {
    Splice(Splice(b, at, Encode(FDT_BEGIN_NODE)), at + 4, name + [0])
  }

  // The tag and the name in their place, and the rest of the buffer as it was.
  lemma BeginSpliced(b: Bytes, at: nat, name: Bytes)
    requires at + Size(BeginNode(name)) <= |b| && 0 !in name
    ensures at + 4 + |name| + 1 <= |b|
    ensures var b', end := BeginBytes(b, at, name), at + Size(BeginNode(name));
            TokAt(b', at, BeginNode(name), 0) && b'[..at] == b[..at] && b'[end..] == b[end..]
  {
    AlignUp(|name| + 1);
    hide Align, TokAt, Splice;
    var end := at + Size(BeginNode(name));
    BeginLaid(b, at, name);
    var b1 := Splice(b, at, Encode(FDT_BEGIN_NODE));
    SpliceOut(b, at, Encode(FDT_BEGIN_NODE), 0, at);
    SpliceOut(b1, at + 4, name + [0], 0, at);
    SpliceOut(b, at, Encode(FDT_BEGIN_NODE), end, |b|);
    SpliceOut(b1, at + 4, name + [0], end, |b|);
    EndsSame(b, BeginBytes(b, at, name), at, end);
  }

  lemma BeginWritten(b: Bytes, base: nat, size: nat, strings: nat, toks: seq<Token>, offs: seq<int>, name: Bytes)
    requires Open(b, base, size, strings, toks, offs) && base + size + Size(BeginNode(name)) + strings <= |b| &&
             0 !in name
    ensures base + size + 4 + |name| + 1 <= |b|
    ensures Open(BeginBytes(b, base + size, name), base, size + Size(BeginNode(name)), strings,
                 toks + [BeginNode(name)], offs + [0])
  {
    hide Open, TokAt, BeginBytes, Size;
    BeginSpliced(b, base + size, name);
    OpenMore(b, BeginBytes(b, base + size, name), base, size, strings, toks, offs, BeginNode(name), 0);
  }

  lemma EndsSame(b: Bytes, c: Bytes, lo: nat, hi: nat)
    requires lo <= hi <= |b| == |c| && c[0..lo] == b[0..lo] && c[hi..|b|] == b[hi..|b|]
    ensures c[..lo] == b[..lo] && c[hi..] == b[hi..]
  {
    assert c[..lo] == c[0..lo] && b[..lo] == b[0..lo] && c[hi..] == c[hi..|b|] && b[hi..] == b[hi..|b|];
  }

  lemma TagWritten(b: Bytes, base: nat, size: nat, strings: nat, toks: seq<Token>, offs: seq<int>, t: Token)
    requires Open(b, base, size, strings, toks, offs) && base + size + 4 + strings <= |b| && (t == EndNode || t == End)
    ensures Open(Splice(b, base + size, Encode(Tag(t))), base, size + 4, strings, toks + [t], offs + [0])
  {
    hide Open, TokAt;
    var at, b' := base + size, Splice(b, base + size, Encode(Tag(t)));
    TagLaid(b, at, t);
    SpliceOut(b, at, Encode(Tag(t)), 0, at);
    SpliceOut(b, at, Encode(Tag(t)), at + 4, |b|);
    hide Splice;
    EndsSame(b, b', at, at + 4);
    OpenMore(b, b', base, size, strings, toks, offs, t, 0);
  }

  // The property in its place, and the rest of the buffer as it was.
  lemma PropSpliced(b: Bytes, at: nat, name: Bytes, val: Bytes, o: int)
    requires |val| < 0x8000_0000 && -0x8000_0000 <= o < 0x8000_0000 && at + Size(Prop(name, val)) <= |b|
    ensures at + 12 + |val| <= |b|
    ensures var b', end := Splice(b, at, PropBytes(|val|, o, val)), at + Size(Prop(name, val));
            TokAt(b', at, Prop(name, val), o) && b'[..at] == b[..at] && b'[end..] == b[end..]
  {
    AlignUp(|val|);
    hide Align, TokAt, Splice, PropBytes;
    var d, end := PropBytes(|val|, o, val), at + Size(Prop(name, val));
    PropLaid(b, at, name, val, o);
    SpliceOut(b, at, d, 0, at);
    SpliceOut(b, at, d, end, |b|);
    EndsSame(b, Splice(b, at, d), at, end);
  }

  lemma PropWritten(b: Bytes, base: nat, size: nat, strings: nat, toks: seq<Token>, offs: seq<int>, name: Bytes,
                    val: Bytes, o: int)
    requires Open(b, base, size, strings, toks, offs) && base + size + Size(Prop(name, val)) + strings <= |b|
    requires |val| < 0x8000_0000 && -0x8000_0000 <= o < 0 && StrAt(b[|b| - strings..], strings + o, name)
    ensures base + size + 12 + |val| <= |b|
    ensures Open(Splice(b, base + size, PropBytes(|val|, o, val)), base, size + Size(Prop(name, val)), strings,
                 toks + [Prop(name, val)], offs + [o])
  {
    hide Open, TokAt, StrAt, Splice, PropBytes, Size;
    PropSpliced(b, base + size, name, val, o);
    OpenMore(b, Splice(b, base + size, PropBytes(|val|, o, val)), base, size, strings, toks, offs, Prop(name, val), o);
  }

  // ----- finishing

  /** A finished blob: the string table follows the structure block, and name offsets count from its start. */
  ghost predicate Shows(b: Bytes, base: nat, size: nat, table: nat, strings: nat, toks: seq<Token>, offs: seq<int>) {
    base + size <= table && table + strings <= |b| < LIMIT && size == Start(toks, |toks|) &&
    Holds(b, base, toks, offs) && Named(b[table..table + strings], 0, toks, offs)
  }

  /** The name offsets when the first k tokens have been corrected by n. */
  function Fixed(toks: seq<Token>, offs: seq<int>, k: nat, n: nat): (r: seq<int>)
    requires |toks| == |offs|
    ensures |r| == |offs|
  {
    seq(|offs|, j requires 0 <= j < |offs| => if j < k && toks[j].Prop? then offs[j] + n else offs[j])
  }

  lemma FixedNone(toks: seq<Token>, offs: seq<int>, n: nat)
    requires |toks| == |offs|
    ensures Fixed(toks, offs, 0, n) == offs
  {
  }

  lemma OpenParts(b: Bytes, base: nat, size: nat, strings: nat, toks: seq<Token>, offs: seq<int>)
    requires Open(b, base, size, strings, toks, offs)
    ensures |offs| == |toks| && size == Start(toks, |toks|) && base + size + strings <= |b| &&
            Holds(b, base, toks, offs)
  {
    hide TokAt, Start, Named;
  }

  // memmove of the string table down to the end of the structure block
  lemma TableMoved(b: Bytes, base: nat, size: nat, strings: nat, toks: seq<Token>, offs: seq<int>)
    requires Open(b, base, size, strings, toks, offs)
    ensures var table := b[|b| - strings..];
            var b' := Splice(b, base + size, table);
            Holds(b', base, toks, Fixed(toks, offs, 0, strings)) && b'[base + size..base + size + strings] == table
  {
    OpenParts(b, base, size, strings, toks, offs);
    hide Open, Holds, Splice, TokAt, Start, Fixed;
    var table := b[|b| - strings..];
    SpliceIn(b, base + size, table);
    SpliceOut(b, base + size, table, base, base + size);
    HoldsSame(b, Splice(b, base + size, table), base, toks, offs);
    FixedNone(toks, offs, strings);
  }

  /** What the walk of fdt_finish keeps: the tokens, with the first k offsets corrected, and the table. */
  ghost predicate Fixing(b: Bytes, base: nat, size: nat, strings: nat, table: Bytes, toks: seq<Token>, offs: seq<int>,
                         k: nat) {
    |toks| == |offs| && base + size + strings <= |b| < LIMIT && |table| == strings && size == Start(toks, |toks|) &&
    k < |toks| &&
    Holds(b, base, toks, Fixed(toks, offs, k, strings)) && b[base + size..base + size + strings] == table &&
    Named(table, strings, toks, offs)
  }

  lemma HoldsAt(b: Bytes, base: nat, toks: seq<Token>, offs: seq<int>, k: nat)
    requires Holds(b, base, toks, offs) && k < |toks|
    ensures |offs| == |toks| && TokAt(b, base + Start(toks, k), toks[k], offs[k])
  {
    hide TokAt, Start;
  }

  lemma NamedAt(table: Bytes, shift: int, toks: seq<Token>, offs: seq<int>, k: nat)
    requires Named(table, shift, toks, offs) && k < |toks| && toks[k].Prop?
    ensures |offs| == |toks| && StrAt(table, shift + offs[k], toks[k].name)
  {
    hide StrAt;
  }

  /** The name offset stored in the property at position at. */
  function NameOff(b: Bytes, at: nat): int {
    if at + 12 <= |b| then Signed(Word(b, at + 8)) else 0
  }

  function Rename(b: Bytes, at: nat, o: int): (r: Bytes)
    ensures |r| == |b|
  {
    if at + 12 <= |b| && -0x8000_0000 <= o < 0x8000_0000 then Splice(b, at + 8, Encode(Unsigned(o))) else b
  }

  lemma PropName(b: Bytes, at: nat, t: Token, o: int)
    requires TokAt(b, at, t, o) && t.Prop? && -0x8000_0000 <= o < 0x8000_0000
    ensures NameOff(b, at) == o
  {
    hide Word, Align;
  }

  lemma FixAt(b: Bytes, base: nat, size: nat, strings: nat, table: Bytes, toks: seq<Token>, offs: seq<int>, k: nat)
    requires base + size <= |b| && k < |toks| == |offs| && Fixing(b, base, size, strings, table, toks, offs, k)
    ensures |b| < LIMIT && Start(toks, k) <= size && Laid(b, base, size, Start(toks, k), toks[k], offs[k])
    ensures toks[k].Prop? ==> 0 <= offs[k] + strings < strings && NameOff(b, base + Start(toks, k)) == offs[k]
  {
    hide Start, Holds, Named, Fixed, TokAt, NameOff, Size;
    StartAligned(toks, k);
    StartMonotone(toks, k, |toks|);
    HoldsAt(b, base, toks, Fixed(toks, offs, k, strings), k);
    FixedAt(toks, offs, k, strings, k);
    if toks[k].Prop? {
      NamedAt(table, strings, toks, offs, k);
      PropName(b, base + Start(toks, k), toks[k], offs[k]);
    }
  }

  lemma FixedAt(toks: seq<Token>, offs: seq<int>, k: nat, n: nat, j: nat)
    requires |toks| == |offs| && j < |offs|
    ensures Fixed(toks, offs, k, n)[j] == if j < k && toks[j].Prop? then offs[j] + n else offs[j]
  {
  }

  // Bytes outside the rewritten offset stay.
  lemma RenameOut(b: Bytes, at: nat, o: int, lo: nat, hi: nat)
    requires lo <= hi <= |b| && (hi <= at + 8 || at + 12 <= lo)
    ensures Rename(b, at, o)[lo..hi] == b[lo..hi]
  {
    if at + 12 <= |b| && -0x8000_0000 <= o < 0x8000_0000 {
      SpliceOut(b, at + 8, Encode(Unsigned(o)), lo, hi);
    }
  }

  // Tokens other than k are not touched when the offset of k is rewritten.
  lemma FixOther(b: Bytes, base: nat, toks: seq<Token>, offs: seq<int>, k: nat, o: int, j: nat)
    requires Holds(b, base, toks, offs) && k < |toks| && j < |toks| == |offs| && j != k && toks[k].Prop?
    requires base + Start(toks, |toks|) <= |b|
    ensures TokAt(Rename(b, base + Start(toks, k), o), base + Start(toks, j), toks[j], offs[j])
  {
    hide TokAt, Start, Holds, Rename, Align;
    StartMonotone(toks, j, |toks|);
    if j < k {
      StartMonotone(toks, j, k);
    } else {
      StartMonotone(toks, k, j);
    }
    HoldsAt(b, base, toks, offs, j);
    var at, n := base + Start(toks, j), Size(toks[j]);
    assert Size(toks[k]) >= 12;
    hide Size;
    RenameOut(b, base + Start(toks, k), o, at, at + n);
    TokSame(b, Rename(b, base + Start(toks, k), o), at, toks[j], offs[j]);
  }

  // The rewritten offset of token k.
  lemma FixOwn(b: Bytes, at: nat, t: Token, o: int, o': int)
    requires TokAt(b, at, t, o) && t.Prop? && -0x8000_0000 <= o' < 0x8000_0000
    ensures TokAt(Rename(b, at, o'), at, t, o')
  {
    hide Align, Encode;
    var d := Encode(Unsigned(o'));
    var b' := Splice(b, at + 8, d);
    SpliceIn(b, at + 8, d);
    SpliceOut(b, at + 8, d, at, at + 4);
    SpliceOut(b, at + 8, d, at + 4, at + 8);
    SpliceOut(b, at + 8, d, at + 12, at + 12 + |t.val|);
    hide Splice;
    WordRoundTrip(Unsigned(o'));
    WordSlice(b', at, b, at);
    WordSlice(b', at + 4, b, at + 4);
    WordSlice(b', at + 8, d, 0);
    hide Word;
  }

  lemma FixHolds(b: Bytes, base: nat, toks: seq<Token>, was: seq<int>, now: seq<int>, k: nat)
    requires Holds(b, base, toks, was) && k < |toks| == |was| == |now| && toks[k].Prop? &&
             -0x8000_0000 <= now[k] < 0x8000_0000
    requires base + Start(toks, |toks|) <= |b| && forall j | 0 <= j < |toks| && j != k :: now[j] == was[j]
    ensures Holds(Rename(b, base + Start(toks, k), now[k]), base, toks, now)
  {
    hide TokAt, Start, Rename;
    var b' := Rename(b, base + Start(toks, k), now[k]);
    HoldsAt(b, base, toks, was, k);
    FixOwn(b, base + Start(toks, k), toks[k], was[k], now[k]);
    forall j | 0 <= j < |toks|
      ensures TokAt(b', base + Start(toks, j), toks[j], now[j])
    {
      if j != k {
        FixOther(b, base, toks, was, k, now[k], j);
      }
    }
  }

  lemma FixProp(b: Bytes, base: nat, size: nat, strings: nat, table: Bytes, toks: seq<Token>, offs: seq<int>, k: nat)
    requires k + 1 < |toks| == |offs| && toks[k].Prop? && 0 <= offs[k] + strings < strings
    requires Fixing(b, base, size, strings, table, toks, offs, k)
    ensures Fixing(Rename(b, base + Start(toks, k), offs[k] + strings), base, size, strings, table, toks, offs, k + 1)
  {
    hide TokAt, Start, Rename, Holds, Named, Fixed, Align;
    StartMonotone(toks, k, |toks|);
    assert Size(toks[k]) >= 12;
    hide Size;
    RenameOut(b, base + Start(toks, k), offs[k] + strings, base + size, base + size + strings);
    var was, now := Fixed(toks, offs, k, strings), Fixed(toks, offs, k + 1, strings);
    forall j | 0 <= j < |toks|
      ensures now[j] == if j == k then offs[k] + strings else was[j]
    {
      FixedAt(toks, offs, k, strings, j);
      FixedAt(toks, offs, k + 1, strings, j);
    }
    FixHolds(b, base, toks, was, now, k);
  }

  // A token that is not a property needs no correction.
  lemma FixNone(b: Bytes, base: nat, size: nat, strings: nat, table: Bytes, toks: seq<Token>, offs: seq<int>, k: nat)
    requires k + 1 < |toks| == |offs| && !toks[k].Prop?
    requires Fixing(b, base, size, strings, table, toks, offs, k)
    ensures Fixing(b, base, size, strings, table, toks, offs, k + 1)
  {
    hide TokAt, Start, Holds, Named;
    assert Fixed(toks, offs, k + 1, strings) == Fixed(toks, offs, k, strings);
  }

  lemma FixEnd(b: Bytes, base: nat, size: nat, strings: nat, table: Bytes, toks: seq<Token>, offs: seq<int>, k: nat)
    requires Fixing(b, base, size, strings, table, toks, offs, k) && k == |toks| - 1 && toks[k] == End
    ensures Shows(b, base, size, base + size, strings, toks, Fixed(toks, offs, k, strings))
  {
    hide TokAt, Start;
    forall j | 0 <= j < |toks| && toks[j].Prop?
      ensures StrAt(table, 0 + Fixed(toks, offs, k, strings)[j], toks[j].name)
    {
      assert StrAt(table, strings + offs[j], toks[j].name);
    }
  }

  lemma StartNext(toks: seq<Token>, k: nat)
    requires k < |toks|
    ensures Start(toks, k) + Size(toks[k]) == Start(toks, k + 1)
  {
  }

  lemma FixStart(b: Bytes, base: nat, size: nat, strings: nat, toks: seq<Token>, offs: seq<int>)
    requires Open(b, base, size, strings, toks, offs) && base + size + strings <= |b| && toks != []
    ensures |toks| == |offs| && Start(toks, 0) == 0
    ensures Fixing(Splice(b, base + size, b[|b| - strings..]), base, size, strings, b[|b| - strings..], toks, offs, 0)
  {
    TableMoved(b, base, size, strings, toks, offs);
    hide Splice, TokAt, StrAt;
  }

  /** The room that a name needs in the string table: none if it stands there already. */
  ghost function NameCost(table: Bytes, s: Bytes): nat {
    if exists q :: StrAt(table, q, s) then 0 else |s| + 1
  }

  lemma CostNone(table: Bytes, s: Bytes, q: int)
    requires StrAt(table, q, s)
    ensures NameCost(table, s) == 0
  {
    hide StrAt;
  }

  lemma CostAll(table: Bytes, s: Bytes)
    requires forall q :: !StrAt(table, q, s)
    ensures NameCost(table, s) == |s| + 1
  {
    hide StrAt;
  }

  class Writer {
    var bytes: Bytes
    var base: nat
    var size: nat
    var strings: nat
    var table: nat
    ghost var toks: seq<Token>
    ghost var offs: seq<int>

    ghost predicate Valid()
      reads this
    {
      Open(bytes, base, size, strings, toks, offs)
    }

    ghost function Cost(name: Bytes): (n: nat)
      reads this
      ensures n <= |name| + 1
    {
      if strings <= |bytes| then NameCost(bytes[|bytes| - strings..], name) else 0
    }

    // fdt_create: a cleared buffer whose structure block is to start at off
    constructor (bufsize: nat, off: nat)
      requires off <= bufsize < LIMIT
      ensures Valid() && toks == [] && |bytes| == bufsize && base == off && size == strings == 0
    {
      bytes := seq(bufsize, _ => 0);
      base, size, strings, table, toks, offs := off, 0, 0, bufsize, [], [];
    }

    // _fdt_grab_space: the place of len more bytes of structure, or -1
    method GrabSpace(len: nat) returns (at: int)
      requires Valid()
      ensures at == if base + size + len + strings <= |bytes| then base + size else -1
    {
      if size + len > |bytes| - base - strings {
        return -1;
      }
      at := base + size;
    }

    // fdt_begin_node
    method Begin(name: Bytes) returns (err: int)
      requires Valid() && 0 !in name
      modifies this
      ensures Valid() && |bytes| == old(|bytes|) && base == old(base)
      ensures err == if old(base + size + strings) + Size(BeginNode(name)) <= |bytes| then 0 else -FDT_ERR_NOSPACE
      ensures toks == if err == 0 then old(toks) + [BeginNode(name)] else old(toks)
      ensures err == 0 ==> base + size + strings == old(base + size + strings) + Size(BeginNode(name))
    {
      hide Open, Align, Splice, Encode;
      var at := GrabSpace(4 + Align(|name| + 1));
      if at < 0 {
        return -FDT_ERR_NOSPACE;
      }
      BeginWritten(bytes, base, size, strings, toks, offs, name);
      bytes := Splice(bytes, at, Encode(FDT_BEGIN_NODE));
      bytes := Splice(bytes, at + 4, name + [0]);
      size := size + 4 + Align(|name| + 1);
      toks, offs := toks + [BeginNode(name)], offs + [0];
      err := 0;
    }

    // fdt_end_node and the terminator of fdt_finish
    method PutTag(t: Token) returns (err: int)
      requires Valid() && (t == EndNode || t == End)
      modifies this
      ensures Valid() && |bytes| == old(|bytes|) && base == old(base) && strings == old(strings)
      ensures err == if old(base + size + strings) + 4 <= |bytes| then 0 else -FDT_ERR_NOSPACE
      ensures toks == if err == 0 then old(toks) + [t] else old(toks)
      ensures err == 0 ==> size == old(size) + 4
    {
      hide Open, Splice, Encode;
      var at := GrabSpace(4);
      if at < 0 {
        return -FDT_ERR_NOSPACE;
      }
      TagWritten(bytes, base, size, strings, toks, offs, t);
      bytes := Splice(bytes, at, Encode(Tag(t)));
      size := size + 4;
      toks, offs := toks + [t], offs + [0];
      err := 0;
    }

    // _fdt_find_add_string: the offset of s from the end of the table, or 0 when there is no room
    method FindAddString(s: Bytes) returns (o: int)
      requires Valid() && 0 !in s
      modifies this
      ensures Valid() && |bytes| == old(|bytes|) && base == old(base) && size == old(size) && toks == old(toks) &&
              offs == old(offs)
      ensures o <= 0 && (o < 0 <==> old(base + size + strings + Cost(s)) <= |bytes|)
      ensures strings == old(strings) + if o < 0 then old(Cost(s)) else 0
      ensures o < 0 ==> strings <= |bytes| && StrAt(bytes[|bytes| - strings..], strings + o, s)
    {
      hide Open, StrAt, Splice, NameCost;
      OpenFits(bytes, base, size, strings, toks, offs);
      var p := FindString(bytes[|bytes| - strings..], s);
      if p >= 0 {
        StrInside(bytes[|bytes| - strings..], p, s);
        CostNone(bytes[|bytes| - strings..], s, p);
        return p - strings;
      }
      CostAll(bytes[|bytes| - strings..], s);
      var n := strings + |s| + 1;
      if |bytes| - n < base + size {
        return 0;
      }
      StringAdded(bytes, base, size, strings, toks, offs, s);
      bytes := Splice(bytes, |bytes| - n, s + [0]);
      strings := n;
      o := -n;
    }

    // fdt_property
    method Property(name: Bytes, val: Bytes) returns (err: int)
      requires Valid() && 0 !in name && |val| < 0x8000_0000
      modifies this
      ensures Valid() && |bytes| == old(|bytes|) && base == old(base)
      ensures var need := old(base + size + strings + Cost(name)) + Size(Prop(name, val));
              err == if need <= |bytes| then 0 else -FDT_ERR_NOSPACE
      ensures toks == if err == 0 then old(toks) + [Prop(name, val)] else old(toks)
      ensures err == 0 ==> base + size + strings == old(base + size + strings + Cost(name)) + Size(Prop(name, val))
    {
      hide Open, Align, StrAt, Splice, PropBytes, NameCost;
      var o := FindAddString(name);
      OpenFits(bytes, base, size, strings, toks, offs);
      if o == 0 {
        return -FDT_ERR_NOSPACE;
      }
      StrInside(bytes[|bytes| - strings..], strings + o, name);
      var at := GrabSpace(12 + Align(|val|));
      if at < 0 {
        return -FDT_ERR_NOSPACE;
      }
      PropWritten(bytes, base, size, strings, toks, offs, name, val, o);
      bytes := Splice(bytes, at, PropBytes(|val|, o, val));
      size := size + 12 + Align(|val|);
      toks, offs := toks + [Prop(name, val)], offs + [o];
      err := 0;
    }

    // fdt_finish: the terminator, the string table moved down, and every name offset made to count from its start
    method Finish() returns (err: int)
      requires Valid() && End !in toks
      modifies this
      ensures err == if old(base + size + strings) + 4 <= old(|bytes|) then 0 else -FDT_ERR_NOSPACE
      ensures err != 0 ==> Valid() && toks == old(toks)
      ensures err == 0 ==>
                toks == old(toks) + [End] && base == old(base) && Shows(bytes, base, size, table, strings, toks, offs)
    {
      hide Open, Fixing, Shows, Splice, Rename, Start, Laid;
      err := PutTag(End);
      if err != 0 {
        return;
      }
      OpenFits(bytes, base, size, strings, toks, offs);
      ghost var names, offs0 := bytes[|bytes| - strings..], offs;
      FixStart(bytes, base, size, strings, toks, offs);
      bytes := Splice(bytes, base + size, bytes[|bytes| - strings..]);
      table := base + size;
      var off := 0;
      ghost var k := 0;
      while true
        invariant k < |toks| == |offs0| && off == Start(toks, k) && base + size <= |bytes|
        invariant Fixing(bytes, base, size, strings, names, toks, offs0, k)
        invariant toks == old(toks) + [End] && base == old(base) && table == base + size
        decreases |toks| - k
      {
        FixAt(bytes, base, size, strings, names, toks, offs0, k);
        var tag, next := NextTag(bytes, base, size, off, toks[k], offs0[k]);
        StartNext(toks, k);
        if tag == FDT_END {
          break;
        }
        if tag == FDT_PROP {
          FixProp(bytes, base, size, strings, names, toks, offs0, k);
          bytes := Rename(bytes, base + off, NameOff(bytes, base + off) + strings);
        } else {
          FixNone(bytes, base, size, strings, names, toks, offs0, k);
        }
        off := next;
        k := k + 1;
      }
      FixEnd(bytes, base, size, strings, names, toks, offs0, k);
      offs := Fixed(toks, offs0, k, strings);
    }
  }
}
