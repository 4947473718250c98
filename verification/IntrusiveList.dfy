/**
  Circular doubly linked lists threaded through their elements, each with a sentry that belongs to the list.
  The links of all lists live in two maps, as the pointers of all entries live in one memory.
*/
module IntrusiveList {

  /** The sentry of list b, or the entry inside element id. */
  datatype Ref = Sentry(b: nat) | Elem(id: nat)

  datatype Links = Links(next: map<Ref, Ref>, prev: map<Ref, Ref>)

  /** r is followed by s, and s preceded by r. */
  predicate Joined(l: Links, r: Ref, s: Ref) {
    r in l.next && l.next[r] == s && s in l.prev && l.prev[s] == r
  }

  /** The element after position i, going round. */
  function After(ring: seq<Ref>, i: nat): Ref
    requires i < |ring|
  {
    if i + 1 < |ring| then ring[i + 1] else ring[0]
  }

  /** ring, beginning with its sentry, is one of the circles; no entry occurs twice. */
  predicate Ring(l: Links, ring: seq<Ref>) {
    ring != [] && (forall i | 0 <= i < |ring| :: Joined(l, ring[i], After(ring, i))) &&
    (forall i, j | 0 <= i < j < |ring| :: ring[i] != ring[j])
  }

  // linkedlist_insert: a new entry right after the sentry
  function Insert(l: Links, head: Ref, e: Ref): Links
    requires head in l.next
  {
    var first := l.next[head];
    Links(l.next[e := first][head := e], l.prev[e := head][first := e])
  }

  lemma InsertRing(l: Links, ring: seq<Ref>, e: Ref)
    requires Ring(l, ring) && e !in ring
    ensures Ring(Insert(l, ring[0], e), [ring[0], e] + ring[1..])
  {
    var l', ring' := Insert(l, ring[0], e), [ring[0], e] + ring[1..];
    assert Joined(l, ring[0], After(ring, 0));
    forall i | 0 <= i < |ring'|
      ensures Joined(l', ring'[i], After(ring', i))
    {
      if i >= 2 {
        assert Joined(l, ring[i - 1], After(ring, i - 1));
      }
    }
  }

  // linkedlist_do_remove
  function Remove(l: Links, e: Ref): Links
    requires e in l.next && e in l.prev
  {
    Links(l.next[l.prev[e] := l.next[e]], l.prev[l.next[e] := l.prev[e]])
  }

  lemma RemoveRing(l: Links, ring: seq<Ref>, k: nat)
    requires Ring(l, ring) && 1 <= k < |ring|
    ensures ring[k] in l.next && ring[k] in l.prev && Ring(Remove(l, ring[k]), ring[..k] + ring[k + 1..])
  {
    assert Joined(l, ring[k - 1], After(ring, k - 1)) && Joined(l, ring[k], After(ring, k));
    var l', ring' := Remove(l, ring[k]), ring[..k] + ring[k + 1..];
    forall i | 0 <= i < |ring'|
      ensures Joined(l', ring'[i], After(ring', i))
    {
      var j := if i < k then i else i + 1;
      assert Joined(l, ring[j], After(ring, j));
    }
  }

  predicate Untouched(l: Links, l': Links, r: Ref) {
    (r in l.next ==> r in l'.next && l'.next[r] == l.next[r]) &&
    (r in l.prev ==> r in l'.prev && l'.prev[r] == l.prev[r])
  }

  /** A ring with no entry in common with the change stays as it is. */
  lemma OtherRing(l: Links, l': Links, ring: seq<Ref>)
    requires Ring(l, ring) && forall r | r in ring :: Untouched(l, l', r)
    ensures Ring(l', ring)
  {
    forall i | 0 <= i < |ring|
      ensures Joined(l', ring[i], After(ring, i))
    {
      assert Joined(l, ring[i], After(ring, i)) && ring[i] in ring && After(ring, i) in ring;
    }
  }

  lemma InsertTouches(l: Links, ring: seq<Ref>, e: Ref, r: Ref)
    requires Ring(l, ring) && r !in ring && r != e
    ensures ring[0] in l.next && Untouched(l, Insert(l, ring[0], e), r)
  {
    assert Joined(l, ring[0], After(ring, 0)) && After(ring, 0) in ring;
  }

  lemma RemoveTouches(l: Links, ring: seq<Ref>, k: nat, r: Ref)
    requires Ring(l, ring) && 1 <= k < |ring| && r !in ring
    ensures ring[k] in l.next && ring[k] in l.prev && Untouched(l, Remove(l, ring[k]), r)
  {
    assert Joined(l, ring[k - 1], After(ring, k - 1)) && Joined(l, ring[k], After(ring, k));
    assert ring[k - 1] in ring && After(ring, k) in ring;
  }
}
