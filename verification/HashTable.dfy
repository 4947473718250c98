/**
  The chained hash table over intrusive lists: a finite map from byte strings to elements, with an
  iteration that stays sound when the loop body deletes the current element.
*/
module HashTable {

  import opened IntrusiveList

  type Key = seq<bv8>

  // __hashfn before the reduction: 64-bit arithmetic wraps
  function Mix(key: Key): nat {
    if key == [] then 5381
    else (Mix(key[..|key| - 1]) * 33 + key[|key| - 1] as nat) % 0x1_0000_0000_0000_0000
  }

  function Bucket(key: Key, length: nat): (b: nat)
    requires length > 0
    ensures b < length
  {
    Mix(key) % length
  }

  /** The ring of list b with these elements. */
  function RingOf(b: nat, chain: seq<nat>): (r: seq<Ref>)
    ensures |r| == |chain| + 1 && r[0] == Sentry(b) && forall i | 0 <= i < |chain| :: r[i + 1] == Elem(chain[i])
  {
    [Sentry(b)] + seq(|chain|, i requires 0 <= i < |chain| => Elem(chain[i]))
  }

  /**
    links: the pointers; keys: the key stored in each element; chains: each list's elements; contents: the map that the
    table stands for.
  */
  datatype Table = Table(length: nat, links: Links, keys: map<nat, Key>, chains: seq<seq<nat>>, contents: map<Key, nat>)

  /** The elements of list b are those of the map whose keys belong there. */
  predicate ChainOk(t: Table, b: nat)
    requires t.length > 0 && b < |t.chains|
  {
    Ring(t.links, RingOf(b, t.chains[b])) &&
    forall id | id in t.chains[b] ::
      id in t.keys && t.keys[id] in t.contents && t.contents[t.keys[id]] == id && Bucket(t.keys[id], t.length) == b
  }

  predicate KeyOk(t: Table, key: Key)
    requires t.length > 0 && |t.chains| == t.length && key in t.contents
  {
    var id := t.contents[key];
    id in t.chains[Bucket(key, t.length)] && id in t.keys && t.keys[id] == key
  }

  ghost predicate Ok(t: Table) {
    t.length > 0 && |t.chains| == t.length &&
    (forall b | 0 <= b < t.length :: ChainOk(t, b)) && (forall key | key in t.contents :: KeyOk(t, key))
  }

  lemma ChainAt(t: Table, b: nat)
    requires Ok(t) && b < t.length
    ensures ChainOk(t, b)
  {
    hide ChainOk, KeyOk;
  }

  lemma KeyAt(t: Table, key: Key)
    requires Ok(t) && key in t.contents
    ensures KeyOk(t, key)
  {
    hide ChainOk;
  }

  // An element is on one list only.
  lemma OneChain(t: Table, id: nat, b: nat, c: nat)
    requires Ok(t) && b < t.length && c < t.length && id in t.chains[b] && id in t.chains[c]
    ensures b == c
  {
    ChainAt(t, b);
    ChainAt(t, c);
    hide Ok, Ring;
  }

  // ----- inserting

  function Inserted(t: Table, key: Key, id: nat): Table
    requires t.length > 0 && |t.chains| == t.length && Sentry(Bucket(key, t.length)) in t.links.next
  {
    var b := Bucket(key, t.length);
    Table(t.length, Insert(t.links, Sentry(b), Elem(id)), t.keys[id := key], t.chains[b := [id] + t.chains[b]],
          t.contents[key := id])
  }

  /** The element is in no list. */
  predicate Unlinked(t: Table, id: nat) {
    forall b | 0 <= b < |t.chains| :: id !in t.chains[b]
  }

  lemma InsertedRing(t: Table, key: Key, id: nat, c: nat)
    requires Ok(t) && Unlinked(t, id) && c < t.length
    ensures Sentry(Bucket(key, t.length)) in t.links.next
    ensures Ring(Inserted(t, key, id).links, RingOf(c, Inserted(t, key, id).chains[c]))
  {
    var b := Bucket(key, t.length);
    ChainAt(t, b);
    ChainAt(t, c);
    NotInRing(b, t.chains[b], id);
    NotInRing(c, t.chains[c], id);
    if b != c {
      Apart(t, b, c);
    }
    hide Ok, Bucket, RingOf, Insert, Ring, Unlinked;
    InsertRings(t.links, b, t.chains[b], c, t.chains[c], id);
  }

  // The ring that gets the element, and any other.
  lemma InsertRings(l: Links, b: nat, chain: seq<nat>, c: nat, other: seq<nat>, id: nat)
    requires Ring(l, RingOf(b, chain)) && Elem(id) !in RingOf(b, chain) && Ring(l, RingOf(c, other)) &&
             Elem(id) !in RingOf(c, other)
    requires (b == c && other == chain) || forall r | r in RingOf(b, chain) :: r !in RingOf(c, other)
    ensures Sentry(b) in l.next
    ensures Ring(Insert(l, Sentry(b), Elem(id)), RingOf(c, if b == c then [id] + chain else other))
  {
    hide Ring, Insert;
    if b == c {
      InsertOwn(l, b, chain, id);
    } else {
      InsertOwn(l, b, chain, id);
      InsertOther(l, RingOf(b, chain), RingOf(c, other), id);
    }
  }

  lemma InsertOwn(l: Links, b: nat, chain: seq<nat>, id: nat)
    requires Ring(l, RingOf(b, chain)) && Elem(id) !in RingOf(b, chain)
    ensures Sentry(b) in l.next && Ring(Insert(l, Sentry(b), Elem(id)), RingOf(b, [id] + chain))
  {
    var ring := RingOf(b, chain);
    assert Joined(l, ring[0], After(ring, 0));
    InsertRing(l, ring, Elem(id));
    hide Ring, Insert;
    assert [ring[0], Elem(id)] + ring[1..] == RingOf(b, [id] + chain);
  }

  lemma InsertOther(l: Links, ring: seq<Ref>, other: seq<Ref>, id: nat)
    requires Ring(l, ring) && Ring(l, other) && Elem(id) !in other && forall r | r in ring :: r !in other
    ensures ring[0] in l.next && Ring(Insert(l, ring[0], Elem(id)), other)
  {
    assert Joined(l, ring[0], After(ring, 0));
    hide Insert, Untouched;
    forall r | r in other
      ensures Untouched(l, Insert(l, ring[0], Elem(id)), r)
    {
      InsertTouches(l, ring, Elem(id), r);
    }
    OtherRing(l, Insert(l, ring[0], Elem(id)), other);
  }

  lemma NotInRing(b: nat, chain: seq<nat>, id: nat)
    requires id !in chain
    ensures Elem(id) !in RingOf(b, chain)
  {
    var r := RingOf(b, chain);
    assert forall i | 1 <= i < |r| :: r[i] == Elem(chain[i - 1]);
  }

  // Two lists have no entry in common.
  lemma Apart(t: Table, b: nat, c: nat)
    requires Ok(t) && b < t.length && c < t.length && b != c
    ensures forall r | r in RingOf(b, t.chains[b]) :: r !in RingOf(c, t.chains[c])
  {
    var p, q := RingOf(b, t.chains[b]), RingOf(c, t.chains[c]);
    forall i, j | 0 <= i < |p| && 0 <= j < |q|
      ensures p[i] != q[j]
    {
      if i > 0 && j > 0 && p[i] == q[j] {
        OneChain(t, t.chains[b][i - 1], b, c);
      }
    }
  }

  lemma InsertKeeps(t: Table, key: Key, id: nat)
    requires Ok(t) && key !in t.contents && Unlinked(t, id)
    ensures Sentry(Bucket(key, t.length)) in t.links.next && Ok(Inserted(t, key, id))
  {
    hide Bucket;
    InsertedRing(t, key, id, 0);
    var t' := Inserted(t, key, id);
    forall c | 0 <= c < t.length
      ensures ChainOk(t', c)
    {
      InsertedRing(t, key, id, c);
      ChainAt(t, c);
      hide Ring, Ok;
    }
    forall k | k in t'.contents
      ensures KeyOk(t', k)
    {
      if k != key {
        KeyAt(t, k);
      }
      hide Ok;
    }
    hide ChainOk, KeyOk;
  }

  // ----- deleting

  function Deleted(t: Table, b: nat, i: nat): Table
    requires b < |t.chains| && i < |t.chains[b]| && t.chains[b][i] in t.keys
    requires Elem(t.chains[b][i]) in t.links.next && Elem(t.chains[b][i]) in t.links.prev
  {
    var id := t.chains[b][i];
    Table(t.length, Remove(t.links, Elem(id)), t.keys, t.chains[b := t.chains[b][..i] + t.chains[b][i + 1..]],
          t.contents - {t.keys[id]})
  }

  lemma DeletedRing(t: Table, b: nat, i: nat, c: nat)
    requires Ok(t) && b < t.length && c < t.length && i < |t.chains[b]|
    ensures t.chains[b][i] in t.keys && Elem(t.chains[b][i]) in t.links.next && Elem(t.chains[b][i]) in t.links.prev
    ensures Ring(Deleted(t, b, i).links, RingOf(c, Deleted(t, b, i).chains[c]))
  {
    ChainAt(t, b);
    ChainAt(t, c);
    if b != c {
      Apart(t, b, c);
    }
    hide Ok, Bucket, RingOf, Remove, Ring;
    RemoveRings(t.links, b, t.chains[b], i, c, t.chains[c]);
  }

  lemma RemoveRings(l: Links, b: nat, chain: seq<nat>, i: nat, c: nat, other: seq<nat>)
    requires i < |chain| && Ring(l, RingOf(b, chain)) && Ring(l, RingOf(c, other))
    requires (b == c && other == chain) || forall r | r in RingOf(b, chain) :: r !in RingOf(c, other)
    ensures Elem(chain[i]) in l.next && Elem(chain[i]) in l.prev
    ensures Ring(Remove(l, Elem(chain[i])), RingOf(c, if b == c then chain[..i] + chain[i + 1..] else other))
  {
    hide Ring, Remove;
    RemoveOwn(l, b, chain, i);
    if b != c {
      RemoveOther(l, RingOf(b, chain), i + 1, RingOf(c, other));
    }
  }

  lemma RemoveOwn(l: Links, b: nat, chain: seq<nat>, i: nat)
    requires i < |chain| && Ring(l, RingOf(b, chain))
    ensures Elem(chain[i]) in l.next && Elem(chain[i]) in l.prev
    ensures Ring(Remove(l, Elem(chain[i])), RingOf(b, chain[..i] + chain[i + 1..]))
  {
    var ring := RingOf(b, chain);
    hide Ring, Remove;
    RemoveRing(l, ring, i + 1);
    assert ring[..i + 1] + ring[i + 2..] == RingOf(b, chain[..i] + chain[i + 1..]);
  }

  lemma RemoveOther(l: Links, ring: seq<Ref>, k: nat, other: seq<Ref>)
    requires Ring(l, ring) && Ring(l, other) && 1 <= k < |ring| && ring[k] in l.next && ring[k] in l.prev
    requires forall r | r in ring :: r !in other
    ensures Ring(Remove(l, ring[k]), other)
  {
    hide Remove, Untouched, Ring;
    forall r | r in other
      ensures Untouched(l, Remove(l, ring[k]), r)
    {
      RemoveTouches(l, ring, k, r);
    }
    OtherRing(l, Remove(l, ring[k]), other);
  }

  // No element occurs twice in its list.
  lemma NoTwice(t: Table, b: nat, i: nat)
    requires Ok(t) && b < t.length && i < |t.chains[b]|
    ensures t.chains[b][i] !in t.chains[b][..i] && t.chains[b][i] !in t.chains[b][i + 1..]
  {
    ChainAt(t, b);
    hide Ok;
    var ring, chain := RingOf(b, t.chains[b]), t.chains[b];
    forall j | 0 <= j < |chain| && j != i
      ensures chain[j] != chain[i]
    {
      assert ring[j + 1] != ring[i + 1];
    }
  }

  lemma DeleteKeeps(t: Table, b: nat, i: nat)
    requires Ok(t) && b < t.length && i < |t.chains[b]|
    ensures t.chains[b][i] in t.keys && Elem(t.chains[b][i]) in t.links.next && Elem(t.chains[b][i]) in t.links.prev
    ensures Ok(Deleted(t, b, i)) && Unlinked(Deleted(t, b, i), t.chains[b][i])
  {
    DeletedRing(t, b, i, 0);
    NoTwice(t, b, i);
    var t', id := Deleted(t, b, i), t.chains[b][i];
    forall c | 0 <= c < t.length
      ensures ChainOk(t', c) && id !in t'.chains[c]
    {
      DeletedChain(t, b, i, c);
    }
    forall k | k in t'.contents
      ensures KeyOk(t', k)
    {
      KeyAt(t, k);
      ChainAt(t, b);
      hide Ok;
      var n := t.contents[k];
      assert n != id;
      assert n in t.chains[b] ==> n in t.chains[b][..i] + t.chains[b][i + 1..];
    }
    hide ChainOk, KeyOk;
  }

  lemma DeletedChain(t: Table, b: nat, i: nat, c: nat)
    requires Ok(t) && b < t.length && c < t.length && i < |t.chains[b]|
    requires t.chains[b][i] in t.keys && Elem(t.chains[b][i]) in t.links.next && Elem(t.chains[b][i]) in t.links.prev
    ensures ChainOk(Deleted(t, b, i), c) && t.chains[b][i] !in Deleted(t, b, i).chains[c]
  {
    hide Bucket, Ring, RingOf, Remove;
    DeletedRing(t, b, i, c);
    ChainAt(t, c);
    ChainAt(t, b);
    NoTwice(t, b, i);
    if t.chains[b][i] in t.chains[c] {
      OneChain(t, t.chains[b][i], b, c);
    }
    hide Ok;
  }

  // ----- the operations

  // The entry at position i of list b, or its sentry.
  function EntryAt(b: nat, chain: seq<nat>, i: nat): Ref {
    if i < |chain| then Elem(chain[i]) else Sentry(b)
  }

  lemma Advance(l: Links, b: nat, chain: seq<nat>, i: nat)
    requires Ring(l, RingOf(b, chain)) && i <= |chain|
    ensures Sentry(b) in l.next && l.next[Sentry(b)] == EntryAt(b, chain, 0)
    ensures i < |chain| ==> Elem(chain[i]) in l.next && l.next[Elem(chain[i])] == EntryAt(b, chain, i + 1)
  {
    var ring := RingOf(b, chain);
    assert Joined(l, ring[0], After(ring, 0)) && (i < |chain| ==> Joined(l, ring[i + 1], After(ring, i + 1)));
  }

  /** The elements of lists b and on, in the order of iteration. */
  function Flat(chains: seq<seq<nat>>, b: nat): seq<nat>
    decreases |chains| - b
  {
    if b >= |chains| then [] else chains[b] + Flat(chains, b + 1)
  }

  lemma {:induction false} FlatSame(chains: seq<seq<nat>>, c: nat, chain: seq<nat>, b: nat)
    requires c < b && c < |chains|
    ensures Flat(chains[c := chain], b) == Flat(chains, b)
    decreases |chains| - b
  {
    if b < |chains| {
      FlatSame(chains, c, chain, b + 1);
    }
  }

  class Hash {
    const length: nat
    var next: map<Ref, Ref>
    var prev: map<Ref, Ref>
    var keys: map<nat, Key>
    var counts: seq<nat>
    var count: nat
    ghost var chains: seq<seq<nat>>
    ghost var contents: map<Key, nat>

    ghost function T(): Table
      reads this
    {
      Table(length, Links(next, prev), keys, chains, contents)
    }

    ghost predicate Valid()
      reads this
    {
      Ok(T()) && |counts| == length && (forall b | 0 <= b < length :: counts[b] == |chains[b]|) && count == |contents|
    }

    // hash_create: n empty lists
    constructor (n: nat)
      requires n > 0
      ensures Valid() && contents == map[] && count == 0
    {
      length := n;
      next := map b: nat | b < n :: Sentry(b) := Sentry(b);
      prev := map b: nat | b < n :: Sentry(b) := Sentry(b);
      keys, counts, count, chains, contents := map[], seq(n, _ => 0), 0, seq(n, _ => []), map[];
      new;
      hide Bucket;
      forall b | 0 <= b < n
        ensures ChainOk(T(), b)
      {
        assert RingOf(b, []) == [Sentry(b)];
      }
    }

    // linkedlist_find: the element of list b with that key, or -1
    method Find(b: nat, key: Key) returns (id: int, ghost i: nat)
      requires Valid() && b < length
      ensures id == -1 || (id >= 0 && id in chains[b] && id in keys && keys[id] == key)
      ensures id == -1 ==> forall n | n in chains[b] :: n in keys && keys[n] != key
      ensures id >= 0 ==> i < |chains[b]| && chains[b][i] == id
    {
      ghost var chain := chains[b];
      ChainAt(T(), b);
      hide Ok, Ring;
      i := 0;
      Advance(Links(next, prev), b, chain, 0);
      var ent := next[Sentry(b)];
      while ent != Sentry(b)
        invariant i <= |chain| && ent == EntryAt(b, chain, i)
        invariant forall n | n in chain[..i] :: n in keys && keys[n] != key
        decreases |chain| - i
      {
        assert chain[i] in chain && chain[..i + 1] == chain[..i] + [chain[i]];
        if keys[ent.id] == key {
          return ent.id, i;
        }
        Advance(Links(next, prev), b, chain, i);
        ent := next[ent];
        i := i + 1;
      }
      assert chain[..i] == chain;
      id := -1;
    }

    // hash_lookup
    method Lookup(key: Key) returns (id: int)
      requires Valid()
      ensures if key in contents then id == contents[key] else id == -1
    {
      hide Ok, Bucket;
      LengthOk(T());
      ghost var i;
      id, i := Find(Bucket(key, length), key);
      FoundIs(T(), key, id);
    }

    // hash_insert of an element that is in no list
    method Insert(key: Key, id: nat) returns (r: int)
      requires Valid() && Unlinked(T(), id)
      modifies this
      ensures Valid() && (r == 0 <==> key !in old(contents)) && (r == 0 || r == -1)
      ensures contents == if r == 0 then old(contents)[key := id] else old(contents)
    {
      hide Ok, Bucket;
      LengthOk(T());
      ghost var t, i := T(), 0;
      var found;
      var b := Bucket(key, length);
      found, i := Find(b, key);
      FoundIs(t, key, found);
      if found >= 0 {
        KeyOfUnlinked(t, id, key);
        keys := keys[id := key];
        return -1;
      }
      InsertKeeps(t, key, id);
      keys := keys[id := key];
      var first := next[Sentry(b)];
      next := next[Elem(id) := first][Sentry(b) := Elem(id)];
      prev := prev[Elem(id) := Sentry(b)][first := Elem(id)];
      counts := counts[b := counts[b] + 1];
      count := count + 1;
      chains := chains[b := [id] + chains[b]];
      contents := contents[key := id];
      r := 0;
    }

    // linkedlist_remove of an element of list b
    method Unlink(b: nat, id: nat, ghost i: nat)
      requires Valid() && b < length && i < |chains[b]| && chains[b][i] == id && id in keys
      modifies this
      ensures Valid() && keys == old(keys) && chains == old(chains[b := chains[b][..i] + chains[b][i + 1..]])
      ensures contents == old(contents) - {keys[id]} && Unlinked(T(), id)
    {
      hide Ok, Ring, Bucket, RingOf, Unlinked;
      LengthOk(T());
      ghost var t := T();
      DeleteKeeps(t, b, i);
      ChainAt(t, b);
      next, prev := next[prev[Elem(id)] := next[Elem(id)]], prev[next[Elem(id)] := prev[Elem(id)]];
      counts := counts[b := counts[b] - 1];
      count := count - 1;
      chains := chains[b := chains[b][..i] + chains[b][i + 1..]];
      contents := contents - {keys[id]};
    }

    // hash_delete
    method Delete(key: Key) returns (r: int, ghost i: nat)
      requires Valid()
      modifies this
      ensures Valid() && (r == 0 <==> key in old(contents)) && (r == 0 || r == -1)
      ensures contents == old(contents) - {key} && keys == old(keys)
      ensures r == 0 ==> var b := Bucket(key, length);
              old(i < |chains[b]| && chains[b][i] == contents[key]) &&
              chains == old(chains[b := chains[b][..i] + chains[b][i + 1..]])
    {
      hide Ok, Bucket;
      LengthOk(T());
      ghost var t := T();
      var id;
      var b := Bucket(key, length);
      id, i := Find(b, key);
      FoundIs(t, key, id);
      if id >= 0 {
        Unlink(b, id, i);
        return 0, i;
      }
      r := -1;
    }

    /**
      hash_iter_init, and the bucket search of hash_iter_next: the first list from b on that is not empty, or the end.
      The search tests a list before it tests whether there is one, so from the end it reads the word after the table;
      whatever it finds there, it is at the end.
    */
    method FirstFull(b: nat) returns (c: nat, past: bool)
      requires Valid() && b <= length
      ensures b <= c <= length + 1 && Flat(chains, c) == Flat(chains, b) && (c < length ==> chains[c] != [])
      ensures past <==> b == length
    {
      hide Ok;
      LengthOk(T());
      c, past := b, b == length;
      while true
        invariant b <= c <= length && Flat(chains, c) == Flat(chains, b) && (c == length ==> b == length)
        decreases length - c
      {
        var count: nat := *;
        if c < length {
          count := counts[c];
        }
        if count != 0 {
          break;
        }
        assert c < length ==> chains[c] == [];
        c := c + 1;
        if c >= length {
          break;
        }
      }
    }

    // the body of the loop below, for the element at position k of list b
    method Body(victims: set<nat>, id: nat, b: nat, ghost k: nat) returns (ghost k': nat)
      requires Valid() && b < length == |chains| && k < |chains[b]| && chains[b][k] == id
      requires id in keys && keys[id] in contents && contents[keys[id]] == id && Bucket(keys[id], length) == b
      modifies this
      ensures Valid() && keys == old(keys) && |chains| == length
      ensures contents == if id in victims then old(contents) - {keys[id]} else old(contents)
      ensures k' <= |chains[b]| && Remaining(chains, b, k') == old(Remaining(chains, b, k + 1))
      ensures EntryAt(b, chains[b], k') == old(EntryAt(b, chains[b], k + 1))
    {
      hide Ok, Bucket;
      if id !in victims {
        return k + 1;
      }
      ghost var t, i := T(), 0;
      var r;
      r, i := Delete(keys[id]);
      SamePlace(t, b, i, k);
      FlatSame(t.chains, b, chains[b], b + 1);
      k' := k;
    }

    // hash_iter_next: k is where the entry after the current one stands now
    method NextEntry(b: nat, after: Ref, ghost k: nat)
      returns (c: nat, entry: Ref, then_: Ref, past: bool, ghost k': nat)
      requires Valid() && b < length == |chains| && k <= |chains[b]| && after == EntryAt(b, chains[b], k)
      ensures past <==> b + 1 == length && k == |chains[b]|
      ensures Remaining(chains, c, k') == Remaining(chains, b, k)
      ensures c < length ==> Cursor(chains, c, k', entry, then_)
    {
      hide Ok, Ring, RingOf;
      c, entry, past, k' := b, after, false, k;
      then_ := after;
      if after == Sentry(b) {
        c, past := FirstFull(b + 1);
        k' := 0;
        if c >= length {
          return;
        }
        ChainAt(T(), c);
        Advance(Links(next, prev), c, chains[c], 0);
        entry := next[Sentry(c)];
      }
      ChainAt(T(), c);
      Advance(Links(next, prev), c, chains[c], k');
      then_ := next[entry];
    }

    // the loop hash_iter_init .. hash_iter_next whose body deletes the current element if it is one of victims
    method Iterate(victims: set<nat>) returns (visited: seq<nat>)
      requires Valid()
      modifies this
      ensures Valid() && visited == Flat(old(chains), 0)
      ensures Survivors(old(contents), contents, victims, visited)
    {
      hide Ok, Ring, Bucket, RingOf, Flat, Survivors, Remaining;
      LengthOk(T());
      NoneYet(contents, victims);
      ghost var k: nat, t0 := 0, T();
      visited := [];
      var bucket: nat, past := FirstFull(0);
      var entry, after := Sentry(0), Sentry(0);
      RemainingAll(chains, bucket);
      if bucket < length {
        ChainAt(T(), bucket);
        Advance(Links(next, prev), bucket, chains[bucket], 0);
        entry, after := next[Sentry(bucket)], next[next[Sentry(bucket)]];
      }
      while bucket < length
        invariant Valid() && |chains| == length && keys == old(keys)
        invariant bucket < length ==> Cursor(chains, bucket, k, entry, after)
        invariant visited + Remaining(chains, bucket, k) == Flat(old(chains), 0)
        invariant Survivors(old(contents), contents, victims, visited)
        decreases |Flat(old(chains), 0)| - |visited|
      {
        RemainingHead(chains, bucket, k);
        VisitOne(t0, T(), victims, visited, bucket, k);
        visited := visited + [entry.id];
        k := Body(victims, entry.id, bucket, k);
        bucket, entry, after, past, k := NextEntry(bucket, after, k);
      }
      NoneLeft(chains, bucket, k);
    }
  }

  /** What is still to be visited from position k of list b on. */
  function Remaining(chains: seq<seq<nat>>, b: nat, k: nat): seq<nat> {
    if b < |chains| && k <= |chains[b]| then chains[b][k..] + Flat(chains, b + 1) else []
  }

  /** The iterator stands on position k of list b. */
  predicate Cursor(chains: seq<seq<nat>>, b: nat, k: nat, entry: Ref, after: Ref) {
    b < |chains| && k < |chains[b]| && entry == Elem(chains[b][k]) && after == EntryAt(b, chains[b], k + 1)
  }

  lemma RemainingHead(chains: seq<seq<nat>>, b: nat, k: nat)
    requires b < |chains| && k < |chains[b]|
    ensures Remaining(chains, b, k) == [chains[b][k]] + Remaining(chains, b, k + 1)
  {
  }

  lemma RemainingAll(chains: seq<seq<nat>>, b: nat)
    ensures Remaining(chains, b, 0) == Flat(chains, b)
  {
  }

  lemma NoneLeft(chains: seq<seq<nat>>, b: nat, k: nat)
    requires b >= |chains|
    ensures Remaining(chains, b, k) == []
  {
  }

  lemma NoneYet(c: map<Key, nat>, victims: set<nat>)
    ensures Survivors(c, c, victims, [])
  {
  }

  /** The map without the victims among the elements visited. */
  ghost predicate Survivors(c0: map<Key, nat>, c: map<Key, nat>, victims: set<nat>, visited: seq<nat>) {
    (forall key | key in c :: key in c0 && c[key] == c0[key]) &&
    (forall key | key in c0 :: key in c <==> !(c0[key] in victims && c0[key] in visited))
  }

  // The current element, and what is left of the map when it has been dealt with.
  lemma VisitOne(t0: Table, t: Table, victims: set<nat>, visited: seq<nat>, b: nat, k: nat)
    requires Ok(t0) && Ok(t) && t.length == t0.length && t.keys == t0.keys && b < t.length && k < |t.chains[b]|
    requires Survivors(t0.contents, t.contents, victims, visited)
    ensures var id := t.chains[b][k];
            id in t.keys && t.keys[id] in t.contents && t.contents[t.keys[id]] == id &&
            Bucket(t.keys[id], t.length) == b &&
            Survivors(t0.contents, if id in victims then t.contents - {t.keys[id]} else t.contents, victims,
                      visited + [id])
  {
    var id := t.chains[b][k];
    ChainAt(t, b);
    forall key | key in t0.contents && t0.contents[key] == id
      ensures key == t.keys[id]
    {
      KeyAt(t0, key);
    }
    hide Ok, Bucket, Ring;
  }

  lemma SamePlace(t: Table, b: nat, i: nat, k: nat)
    requires Ok(t) && b < t.length && i < |t.chains[b]| && k < |t.chains[b]| && t.chains[b][i] == t.chains[b][k]
    ensures i == k
  {
    NoTwice(t, b, i);
    hide Ok;
  }

  lemma LengthOk(t: Table)
    requires Ok(t)
    ensures t.length > 0 && |t.chains| == t.length
  {
  }

  // What a search of the key's own list says about the map.
  lemma FoundIs(t: Table, key: Key, id: int)
    requires Ok(t)
    requires var b := Bucket(key, t.length);
             if id >= 0 then id in t.chains[b] && id in t.keys && t.keys[id] == key
             else forall n | n in t.chains[b] :: n in t.keys && t.keys[n] != key
    ensures if id >= 0 then key in t.contents && t.contents[key] == id else key !in t.contents
  {
    hide Bucket;
    ChainAt(t, Bucket(key, t.length));
    if key in t.contents {
      KeyAt(t, key);
    }
    hide Ok, Ring;
  }

  // Writing the key into an element that is in no list changes nothing.
  lemma KeyOfUnlinked(t: Table, id: nat, key: Key)
    requires Ok(t) && Unlinked(t, id)
    ensures Ok(t.(keys := t.keys[id := key]))
  {
    var t' := t.(keys := t.keys[id := key]);
    forall b | 0 <= b < t.length
      ensures ChainOk(t', b)
    {
      ChainAt(t, b);
      hide Ring, Ok;
    }
    forall k | k in t'.contents
      ensures KeyOk(t', k)
    {
      KeyAt(t, k);
      hide Ok;
    }
    hide ChainOk, KeyOk;
  }

  // ----- each element once

  lemma {:induction false} Occurs(chain: seq<nat>, id: nat)
    requires forall i, j | 0 <= i < j < |chain| :: chain[i] != chain[j]
    ensures multiset(chain)[id] == if id in chain then 1 else 0
  {
    if chain != [] {
      var n := |chain| - 1;
      assert chain == chain[..n] + [chain[n]];
      Occurs(chain[..n], id);
    }
  }

  lemma ChainOnce(t: Table, b: nat, id: nat)
    requires Ok(t) && b < t.length
    ensures multiset(t.chains[b])[id] == if id in t.chains[b] then 1 else 0
  {
    ChainAt(t, b);
    hide Ok;
    var ring, chain := RingOf(b, t.chains[b]), t.chains[b];
    forall i, j | 0 <= i < j < |chain|
      ensures chain[i] != chain[j]
    {
      assert ring[i + 1] != ring[j + 1];
    }
    Occurs(chain, id);
  }

  lemma {:induction false} FlatOnce(t: Table, b: nat, id: nat)
    requires Ok(t) && b <= t.length
    ensures multiset(Flat(t.chains, b))[id] == if exists c :: b <= c < t.length && id in t.chains[c] then 1 else 0
    decreases t.length - b
  {
    hide ChainOk, KeyOk;
    if b < t.length {
      ChainOnce(t, b, id);
      FlatOnce(t, b + 1, id);
      if id in t.chains[b] {
        forall c | b < c < t.length
          ensures id !in t.chains[c]
        {
          if id in t.chains[c] {
            OneChain(t, id, b, c);
          }
        }
      }
    }
  }

  /** The order of iteration holds every element of the map exactly once, and nothing else. */
  lemma VisitsOnce(t: Table, id: nat)
    requires Ok(t)
    ensures multiset(Flat(t.chains, 0))[id] == if exists key :: key in t.contents && t.contents[key] == id then 1 else 0
  {
    FlatOnce(t, 0, id);
    if c :| 0 <= c < t.length && id in t.chains[c] {
      ChainAt(t, c);
      assert t.keys[id] in t.contents && t.contents[t.keys[id]] == id;
    } else if key :| key in t.contents && t.contents[key] == id {
      KeyAt(t, key);
    }
    hide Ok, Flat;
  }
}
