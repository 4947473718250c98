/**
  When the loop of fdt_next_node ends: a property whose length wraps an offset around can lead the walk back, and the
  loop has no other way to go on for ever.
*/
module FlatTreeEnds {

  import opened FlatTree
  import opened FlatTreeReader

  ghost predicate Ends(f: Blob, s: Loop)
    requires Fits(f)
  {
    exists n: nat :: Turns(f, s, n).Ended?
  }

  /** The walk comes back to an offset at the depth it had there. */
  ghost predicate Revisits(f: Blob, s: Loop)
    requires Fits(f)
  {
    exists i: nat, j: nat :: i < j && Turns(f, s, i).At? && Turns(f, s, i) == Turns(f, s, j)
  }

  /** As many turns as there are offsets and depths that the walk can be at. */
  function Most(f: Blob, depth: int): nat {
    (f.size + 4) * if depth < 0 then 1 else depth + 1
  }

  /** The places a walk from that depth can be at. */
  predicate Inside(f: Blob, depth: int, s: Loop) {
    s.At? ==> s.off <= f.size + 3 && s.d <= depth && (s.d == depth || s.d >= 0)
  }

  lemma {:induction false} StaysInside(f: Blob, depth: int, s: Loop, n: nat)
    requires Fits(f) && Inside(f, depth, s)
    ensures Inside(f, depth, Turns(f, s, n))
  {
    if n > 0 {
      StaysInside(f, depth, s, n - 1);
      hide TagAt;
    }
  }

  // ----- coming back means going on for ever

  lemma {:induction false} SameOnward(f: Blob, s: Loop, i: nat, j: nat, k: nat)
    requires Fits(f) && Turns(f, s, i) == Turns(f, s, j)
    ensures Turns(f, s, i + k) == Turns(f, s, j + k)
  {
    hide Turn;
    if k > 0 {
      SameOnward(f, s, i, j, k - 1);
    }
  }

  /** A walk that came back has not ended, whenever it is looked at. */
  lemma {:induction false} Circles(f: Blob, s: Loop, i: nat, j: nat, n: nat)
    requires Fits(f) && i < j && Turns(f, s, i).At? && Turns(f, s, i) == Turns(f, s, j)
    ensures Turns(f, s, n).At?
    decreases n
  {
    hide Turns;
    if n <= j {
      if Turns(f, s, n).Ended? {
        StaysEnded(f, s, n, j);
      }
    } else {
      SameOnward(f, s, i, j, n - j);
      Circles(f, s, i, j, n - (j - i));
    }
  }

  // ----- not coming back means running out of places

  /** A number below Most for each place. */
  function Code(f: Blob, depth: int, s: Loop): int
    requires s.At?
  {
    s.off + (f.size + 4) * if depth < 0 then 0 else s.d
  }

  lemma CodeFits(f: Blob, depth: int, s: Loop)
    requires s.At? && Inside(f, depth, s)
    ensures 0 <= Code(f, depth, s) < Most(f, depth)
  {
    if depth >= 0 {
      assert (f.size + 4) * s.d <= (f.size + 4) * depth;
    }
  }

  lemma CodeTells(f: Blob, depth: int, s: Loop, t: Loop)
    requires s.At? && t.At? && Inside(f, depth, s) && Inside(f, depth, t) && s != t
    ensures Code(f, depth, s) != Code(f, depth, t)
  {
    if depth >= 0 && s.d < t.d {
      RowsApart(f.size + 4, s.d, t.d);
    } else if depth >= 0 && t.d < s.d {
      RowsApart(f.size + 4, t.d, s.d);
    }
  }

  lemma {:induction false} RowsApart(w: nat, a: int, b: int)
    requires a < b
    ensures w * a + w <= w * b
    decreases b - a
  {
    if a + 1 < b {
      RowsApart(w, a, b - 1);
    }
    assert w * b == w * (b - 1) + w;
  }

  /** More numbers than there are below m are not all different. */
  lemma {:induction false} Repeats(c: seq<int>, m: nat) returns (i: nat, j: nat)
    requires |c| > m && forall k :: 0 <= k < |c| ==> 0 <= c[k] < m
    ensures i < j < |c| && c[i] == c[j]
    decreases m
  {
    var top := c[|c| - 1];
    if k: nat :| k < |c| - 1 && c[k] == top {
      i, j := k, |c| - 1;
    } else {
      // No other is the last one: the highest takes its place.
      var rest := seq(|c| - 1, (k: int) requires 0 <= k < |c| - 1 => if c[k] == m - 1 then top else c[k]);
      i, j := Repeats(rest, m - 1);
    }
  }

  // The codes of the first n places of the walk
  ghost function Codes(f: Blob, depth: int, s: Loop, n: nat): (c: seq<int>)
    requires Fits(f)
    ensures |c| == n
    ensures forall k: nat :: k < n && Turns(f, s, k).At? ==> c[k] == Code(f, depth, Turns(f, s, k))
  {
    seq(n, (k: int) requires 0 <= k < n && Fits(f) =>
      if Turns(f, s, k).At? then Code(f, depth, Turns(f, s, k)) else 0)
  }

  /** A walk that is still at work after Most turns has come back. */
  lemma RunsOut(f: Blob, depth: int, s: Loop)
    requires Fits(f) && Inside(f, depth, s) && Turns(f, s, Most(f, depth)).At?
    ensures Revisits(f, s)
  {
    hide Turns, Most, Inside, Code, Codes;
    var n := Most(f, depth);
    var c := Codes(f, depth, s, n + 1);
    forall k: nat | k <= n
      ensures Turns(f, s, k).At? && Inside(f, depth, Turns(f, s, k)) && 0 <= c[k] < n
    {
      if Turns(f, s, k).Ended? {
        StaysEnded(f, s, k, n);
      }
      StaysInside(f, depth, s, k);
      CodeFits(f, depth, Turns(f, s, k));
    }
    var i, j := Repeats(c, n);
    if Turns(f, s, i) != Turns(f, s, j) {
      CodeTells(f, depth, Turns(f, s, i), Turns(f, s, j));
    }
  }

  /**
    fdt_next_node ends on any blob exactly when its walk does not come back to an offset at the same depth; and if it
    ends, it does so within as many turns as there are offsets and depths.
  */
  lemma EndsExactly(f: Blob, offset: int, depth: int)
    requires Fits(f)
    ensures var s := Entry(f, offset, depth);
            (Ends(f, s) <==> !Revisits(f, s)) && (Ends(f, s) <==> Turns(f, s, Most(f, depth)).Ended?)
  {
    var s := Entry(f, offset, depth);
    hide Turns, Most, Entry;
    if Revisits(f, s) {
      var i: nat, j: nat :| i < j && Turns(f, s, i).At? && Turns(f, s, i) == Turns(f, s, j);
      forall n: nat ensures Turns(f, s, n).At? {
        Circles(f, s, i, j, n);
      }
    } else if Turns(f, s, Most(f, depth)).At? {
      RunsOut(f, depth, s);
    }
  }
}
