/** Types and list operations that several models share. */
module Common {

  datatype Option<T> = None | Some(value: T)

  /** A byte as a number. */
  type byte = x: int | 0 <= x < 256

  type Bytes = seq<byte>

  const PAGE := 4096

  /** The contents of a page frame. */
  type Page = seq<bv8>

  function ZeroPage(): (p: Page)
    ensures |p| == PAGE
  {
    seq(PAGE, _ => 0)
  }

  /** A list without the first x in it, as linkedlist_remove leaves it. */
  function Without(l: seq<nat>, x: nat): seq<nat> {
    if l == [] then [] else if l[0] == x then l[1..] else [l[0]] + Without(l[1..], x)
  }

  lemma {:induction false} WithoutCounts(l: seq<nat>, x: nat)
    ensures multiset(Without(l, x)) == multiset(l) - multiset{x}
    ensures |Without(l, x)| == if x in l then |l| - 1 else |l|
  {
    if l != [] {
      assert l == [l[0]] + l[1..];
      assert multiset(l) == multiset{l[0]} + multiset(l[1..]);
      if l[0] != x {
        WithoutCounts(l[1..], x);
      }
    }
  }
}
