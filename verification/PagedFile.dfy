/**
  File data through the page cache: reads and writes go page by page through cached pages, which are loaded
  from and written back to the backing store (ramfs) and may be evicted between any two page accesses.
*/
module PagedFile {

  import opened Common

  datatype Cached = Cached(frame: Page, dirty: bool)

  /** An inode: its length, its pages in the cache, and its pages in the backing store. */
  datatype Inode = Inode(length: nat, cache: map<nat, Cached>, store: map<nat, Page>)

  // ramfs creates a cleared block for a page it does not have
  function StorePage(f: Inode, p: nat): Page {
    if p in f.store then f.store[p] else ZeroPage()
  }

  function Current(f: Inode, p: nat): Page {
    if p in f.cache then f.cache[p].frame else StorePage(f, p)
  }

  /** The byte at position i of the file, which reads as zero past its end. */
  function Byte(f: Inode, i: nat): bv8
    requires Sized(f)
  {
    Current(f, i / PAGE)[i % PAGE]
  }

  ghost predicate Sized(f: Inode) {
    (forall p | p in f.cache :: |f.cache[p].frame| == PAGE) && (forall p | p in f.store :: |f.store[p]| == PAGE)
  }

  /** Bytes of page p at and after the end of the file are zero. */
  predicate TailZero(page: Page, p: nat, length: nat) {
    forall o | 0 <= o < |page| && p * PAGE + o >= length :: page[o] == 0
  }

  ghost predicate Ok(f: Inode) {
    Sized(f) && (forall p: nat :: TailZero(Current(f, p), p, f.length) && TailZero(StorePage(f, p), p, f.length)) &&
    (forall p | p in f.cache && !f.cache[p].dirty :: f.cache[p].frame == StorePage(f, p))
  }

  /** The file reads as before. */
  ghost predicate SameBytes(f: Inode, f': Inode) {
    f'.length == f.length && Sized(f) && Sized(f') && forall i: nat :: Byte(f', i) == Byte(f, i)
  }

  // ----- loading and evicting

  // memset of the part of a freshly read page past the end of the file
  function Cut(page: Page, keep: nat): (r: Page)
    requires keep <= |page|
    ensures |r| == |page|
  {
    page[..keep] + seq(|page| - keep, _ => 0)
  }

  // how much of page p lies in the file
  function PageLen(length: nat, p: nat): (n: nat)
    ensures n <= PAGE
  {
    if length <= p * PAGE then 0 else if length - p * PAGE > PAGE then PAGE else length - p * PAGE
  }

  // _inode_page_initialize: a page wholly past the end is not read
  function Loaded(f: Inode, p: nat): Inode
    requires Sized(f)
  {
    var n := PageLen(f.length, p);
    var frame := if n > 0 then Cut(StorePage(f, p), n) else ZeroPage();
    f.(cache := f.cache[p := Cached(frame, false)], store := if n > 0 then f.store[p := StorePage(f, p)] else f.store)
  }

  lemma CutIsSame(page: Page, p: nat, length: nat)
    requires |page| == PAGE && TailZero(page, p, length)
    ensures Cut(page, PageLen(length, p)) == page
    ensures PageLen(length, p) == 0 ==> page == ZeroPage()
  {
  }

  // A step after which every page reads as before.
  lemma ViewsKeep(f: Inode, f': Inode)
    requires Ok(f) && Sized(f') && f'.length == f.length && forall q: nat :: Current(f', q) == Current(f, q)
    requires forall q: nat :: StorePage(f', q) == StorePage(f, q) || StorePage(f', q) == Current(f, q)
    requires forall p | p in f'.cache && !f'.cache[p].dirty :: f'.cache[p].frame == StorePage(f', p)
    ensures Ok(f') && SameBytes(f, f')
  {
    hide TailZero, Current, StorePage;
    forall q: nat
      ensures TailZero(Current(f', q), q, f.length) && TailZero(StorePage(f', q), q, f.length)
    {
      assert TailZero(Current(f, q), q, f.length) && TailZero(StorePage(f, q), q, f.length);
    }
    forall i: nat
      ensures Byte(f', i) == Byte(f, i)
    {
      assert Current(f', i / PAGE) == Current(f, i / PAGE);
    }
  }

  // The tail of the page is zero already, so the page read is the page stored.
  lemma LoadedFrame(f: Inode, p: nat)
    requires Ok(f)
    ensures var f' := Loaded(f, p);
            f'.cache == f.cache[p := Cached(StorePage(f, p), false)] && f'.length == f.length &&
            (f'.store == f.store || f'.store == f.store[p := StorePage(f, p)])
  {
    assert TailZero(StorePage(f, p), p, f.length);
    CutIsSame(StorePage(f, p), p, f.length);
    hide TailZero, Cut, ZeroPage, PageLen, StorePage;
  }

  lemma LoadKeeps(f: Inode, p: nat)
    requires Ok(f) && p !in f.cache
    ensures Ok(Loaded(f, p)) && SameBytes(f, Loaded(f, p))
  {
    LoadedFrame(f, p);
    var f' := Loaded(f, p);
    LoadedSize(f, f', p);
    hide Loaded, Ok, Sized, ZeroPage;
    forall q: nat
      ensures StorePage(f', q) == StorePage(f, q) && Current(f', q) == Current(f, q)
      ensures q in f'.cache && !f'.cache[q].dirty ==> f'.cache[q].frame == StorePage(f', q)
    {
      CleanAt(f, q);
    }
    hide StorePage, Current;
    ViewsKeep(f, f');
  }

  lemma LoadedSize(f: Inode, f': Inode, p: nat)
    requires Ok(f) && f'.cache == f.cache[p := Cached(StorePage(f, p), false)]
    requires f'.store == f.store || f'.store == f.store[p := StorePage(f, p)]
    ensures Sized(f) && Sized(f')
  {
  }

  lemma CleanAt(f: Inode, q: nat)
    requires Ok(f)
    ensures q in f.cache && !f.cache[q].dirty ==> f.cache[q].frame == StorePage(f, q)
  {
  }

  // _inode_page_release: a dirty page is written back
  function Evicted(f: Inode, p: nat): Inode
    requires p in f.cache
  {
    f.(cache := f.cache - {p}, store := if f.cache[p].dirty then f.store[p := f.cache[p].frame] else f.store)
  }

  lemma EvictKeeps(f: Inode, p: nat)
    requires Ok(f) && p in f.cache
    ensures Ok(Evicted(f, p)) && SameBytes(f, Evicted(f, p))
  {
    hide TailZero, ZeroPage;
    ViewsKeep(f, Evicted(f, p));
  }

  // ----- writing into a cached page

  function Splice(page: Page, o: nat, d: Page): (r: Page)
    requires o + |d| <= |page|
    ensures |r| == |page|
  {
    page[..o] + d + page[o + |d|..]
  }

  function Max(a: nat, b: nat): nat {
    if a < b then b else a
  }

  // one turn of inode_do_write_data: memcpy, the new length, and the dirty flag
  function Stored(f: Inode, p: nat, o: nat, d: Page): Inode
    requires p in f.cache && o + |d| <= |f.cache[p].frame|
  {
    f.(cache := f.cache[p := Cached(Splice(f.cache[p].frame, o, d), true)], length := Max(f.length, p * PAGE + o + |d|))
  }

  lemma StoreTail(f: Inode, p: nat, o: nat, d: Page, q: nat)
    requires Ok(f) && p in f.cache && o + |d| <= |f.cache[p].frame|
    ensures var f' := Stored(f, p, o, d);
            TailZero(Current(f', q), q, f'.length) && TailZero(StorePage(f', q), q, f'.length)
  {
    assert TailZero(Current(f, q), q, f.length) && TailZero(StorePage(f, q), q, f.length);
    hide Ok;
  }

  lemma StoreByte(f: Inode, p: nat, o: nat, d: Page, i: nat)
    requires Sized(f) && p in f.cache && o + |d| <= PAGE
    ensures var f', at := Stored(f, p, o, d), p * PAGE + o;
            Sized(f') && Byte(f', i) == if at <= i < at + |d| then d[i - at] else Byte(f, i)
  {
  }

  lemma StoreKeeps(f: Inode, p: nat, o: nat, d: Page)
    requires Ok(f) && p in f.cache && o + |d| <= PAGE
    ensures |f.cache[p].frame| == PAGE && Ok(Stored(f, p, o, d))
  {
    var f' := Stored(f, p, o, d);
    forall q: nat
      ensures TailZero(Current(f', q), q, f'.length) && TailZero(StorePage(f', q), q, f'.length)
    {
      StoreTail(f, p, o, d, q);
    }
    hide TailZero, ZeroPage;
  }

  /** The bytes of the file from a up to b. */
  function Part(f: Inode, a: nat, b: nat): (r: Page)
    requires Sized(f) && a <= b
    ensures |r| == b - a
  {
    seq(b - a, k requires 0 <= k < b - a => Byte(f, a + k))
  }

  class File {
    var length: nat
    var cache: map<nat, Cached>
    var store: map<nat, Page>

    function F(): Inode
      reads this
    {
      Inode(length, cache, store)
    }

    ghost predicate Valid()
      reads this
    {
      Ok(F())
    }

    constructor ()
      ensures Valid() && length == 0 && forall i: nat :: Byte(F(), i) == 0
    {
      length, cache, store := 0, map[], map[];
    }

    // the page cache drops any number of pages that nobody holds, at any time
    method Reclaim()
      requires Valid()
      modifies this
      ensures Valid() && SameBytes(old(F()), F())
    {
      hide Byte, Ok;
      SameSelf(F());
      while cache != map[]
        invariant Valid() && SameBytes(old(F()), F())
        decreases |cache|
      {
        if * {
          break;
        }
        var p :| p in cache;
        EvictKeeps(F(), p);
        SameTrans(old(F()), F(), Evicted(F(), p));
        if cache[p].dirty {
          store := store[p := cache[p].frame];
        }
        cache := cache - {p};
      }
    }

    // inode_get_page
    method GetPage(p: nat)
      requires Valid()
      modifies this
      ensures Valid() && SameBytes(old(F()), F()) && p in cache && |cache[p].frame| == PAGE
    {
      Reclaim();
      if p !in cache {
        LoadKeeps(F(), p);
        var n := PageLen(length, p);
        var frame := ZeroPage();
        if n > 0 {
          store := store[p := if p in store then store[p] else ZeroPage()];
          frame := Cut(store[p], n);
        }
        cache := cache[p := Cached(frame, false)];
      }
    }

    // inode_do_read_data: as many bytes as the file has there
    method Read(off: nat, len: nat) returns (buf: Page)
      requires Valid()
      modifies this
      ensures Valid() && SameBytes(old(F()), F())
      ensures |buf| == if off >= length then 0 else if off + len > length then length - off else len
      ensures buf == Part(old(F()), off, off + |buf|)
    {
      buf := [];
      var want := len;
      if off + len > length {
        if off >= length {
          return;
        }
        want := length - off;
      }
      var pageoff, pagenum := off % PAGE, off / PAGE;
      while |buf| < want
        invariant |buf| <= want && Valid() && SameBytes(old(F()), F())
        invariant |buf| < want ==> pagenum * PAGE + pageoff == off + |buf| && 0 <= pageoff < PAGE && 0 <= pagenum
        invariant buf == Part(old(F()), off, off + |buf|)
      {
        var n := PAGE - pageoff;
        if n > want - |buf| {
          n := want - |buf|;
        }
        ghost var s := F();
        GetPage(pagenum);
        SameTrans(old(F()), s, F());
        PageBytes(old(F()), F(), off, off + |buf|, pagenum, pageoff, n);
        buf := buf + cache[pagenum].frame[pageoff..pageoff + n];
        pageoff, pagenum := 0, pagenum + 1;
      }
    }

    // the part of a write that falls into one page
    method StorePart(p: nat, o: nat, d: Page)
      requires Valid() && p in cache && |cache[p].frame| == PAGE && o + |d| <= PAGE
      modifies this
      ensures Valid() && F() == Stored(old(F()), p, o, d) && length == Max(old(length), p * PAGE + o + |d|)
    {
      StoreKeeps(F(), p, o, d);
      hide Ok;
      cache := cache[p := Cached(Splice(cache[p].frame, o, d), true)];
      if p * PAGE + o + |d| > length {
        length := p * PAGE + o + |d|;
      }
    }

    // inode_do_write_data
    method Write(off: nat, buf: Page) returns (amount: nat)
      requires Valid()
      modifies this
      ensures Valid() && amount == |buf|
      ensures length == if buf == [] then old(length) else Max(old(length), off + |buf|)
      ensures Wrote(old(F()), F(), off, buf)
    {
      hide Ok, Wrote, SameBytes, Stored, Byte, Sized;
      WroteNone(F(), off);
      amount := 0;
      var pageoff: nat, pagenum: nat := off % PAGE, off / PAGE;
      assert buf[..0] == [];
      while amount < |buf|
        invariant amount <= |buf| && Valid()
        invariant amount < |buf| ==> pagenum * PAGE + pageoff == off + amount && pageoff < PAGE
        invariant length == if amount == 0 then old(length) else Max(old(length), off + amount)
        invariant Wrote(old(F()), F(), off, buf[..amount])
      {
        var n := PAGE - pageoff;
        if n > |buf| - amount {
          n := |buf| - amount;
        }
        ghost var s := F();
        GetPage(pagenum);
        ghost var s1 := F();
        var d := buf[amount..amount + n];
        TakeMore(buf, amount, n);
        SameLength(s, s1);
        WroteNext(old(F()), s, s1, off, buf[..amount], pagenum, pageoff, d);
        StorePart(pagenum, pageoff, d);
        pageoff, pagenum, amount := 0, pagenum + 1, amount + n;
      }
      assert buf[..amount] == buf;
    }
  }

  /** The bytes of d stand at off; all other bytes are those of before. */
  ghost predicate Wrote(f: Inode, f': Inode, off: nat, d: Page) {
    Sized(f) && Sized(f') && forall i: nat :: Byte(f', i) == if off <= i < off + |d| then d[i - off] else Byte(f, i)
  }

  lemma WroteNone(f: Inode, off: nat)
    requires Ok(f)
    ensures Wrote(f, f, off, [])
  {
    hide Byte;
  }

  lemma TakeMore(buf: Page, a: nat, n: nat)
    requires a + n <= |buf|
    ensures buf[..a] + buf[a..a + n] == buf[..a + n]
  {
  }

  lemma SameLength(f: Inode, f': Inode)
    requires SameBytes(f, f')
    ensures f'.length == f.length
  {
    hide Byte;
  }

  lemma WroteNext(f0: Inode, f: Inode, f1: Inode, off: nat, done: Page, p: nat, o: nat, d: Page)
    requires Wrote(f0, f, off, done) && SameBytes(f, f1) && p in f1.cache && |f1.cache[p].frame| == PAGE &&
             o + |d| <= PAGE
    requires p * PAGE + o == off + |done|
    ensures Wrote(f0, Stored(f1, p, o, d), off, done + d)
  {
    forall i: nat
      ensures Sized(Stored(f1, p, o, d))
      ensures Byte(Stored(f1, p, o, d), i) == if off <= i < off + |done + d| then (done + d)[i - off] else Byte(f0, i)
    {
      StoreByte(f1, p, o, d, i);
      hide Byte, Stored;
      assert Byte(f1, i) == Byte(f, i);
    }
  }

  lemma SameSelf(f: Inode)
    requires Ok(f)
    ensures SameBytes(f, f)
  {
    hide Byte;
  }

  lemma SameTrans(f: Inode, f1: Inode, f2: Inode)
    requires SameBytes(f, f1) && SameBytes(f1, f2)
    ensures SameBytes(f, f2)
  {
    hide Byte;
  }

  lemma PageByte(f: Inode, f': Inode, p: nat, j: nat)
    requires SameBytes(f, f') && j < PAGE && p in f'.cache && |f'.cache[p].frame| == PAGE
    ensures f'.cache[p].frame[j] == Byte(f, p * PAGE + j)
  {
    assert (p * PAGE + j) / PAGE == p && (p * PAGE + j) % PAGE == j;
    assert Byte(f', p * PAGE + j) == Byte(f, p * PAGE + j);
  }

  // The part of a page that a read copies.
  lemma PageBytes(f: Inode, f': Inode, off: nat, at: nat, p: nat, o: nat, n: nat)
    requires SameBytes(f, f') && off <= at == p * PAGE + o && o + n <= PAGE && p in f'.cache &&
             |f'.cache[p].frame| == PAGE
    ensures Part(f, off, at) + f'.cache[p].frame[o..o + n] == Part(f, off, at + n)
  {
    assert Sized(f);
    hide Byte, SameBytes, Sized;
    var part := f'.cache[p].frame[o..o + n];
    forall j: nat | j < n
      ensures part[j] == Byte(f, at + j)
    {
      PageByte(f, f', p, o + j);
    }
    BytesMore(f, off, at, part);
  }

  lemma BytesMore(f: Inode, off: nat, at: nat, part: Page)
    requires Sized(f) && off <= at && forall j: nat | j < |part| :: part[j] == Byte(f, at + j)
    ensures Part(f, off, at) + part == Part(f, off, at + |part|)
  {
    hide Byte, Sized;
  }
}
