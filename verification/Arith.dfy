/** Quotient and remainder facts shared by the models. */
module Arith {

  function Div(x: nat, p: nat): nat
    requires p > 0
  {
    x / p
  }

  lemma MulAtLeast(d: int, p: nat)
    requires d >= 1
    ensures d * p >= p
  {
    assert (d - 1) * p >= 0;
    assert d * p == (d - 1) * p + p;
  }

  lemma MulSucc(k: nat, d: int)
    ensures (k + 1) * d == k * d + d
  {
  }

  lemma MulAssoc(a: int, b: int, c: int)
    ensures (a * b) * c == a * (b * c)
  {
  }

  /** Division is unique. */
  lemma DivModUnique(x: nat, q: int, r: nat, p: nat)
    requires x == q * p + r && r < p
    ensures x / p == q && x % p == r
  {
    var q', r' := x / p, x % p;
    assert x == q' * p + r';
    var d := q' - q;
    assert d * p == q' * p - q * p == r - r';
    if d >= 1 {
      MulAtLeast(d, p);
    } else if d <= -1 {
      assert (-d) * p == -(d * p);
      MulAtLeast(-d, p);
    }
  }

  lemma ModAddMultiple(x: nat, q: nat, p: nat)
    requires p > 0
    ensures (x + q * p) % p == x % p && (x + q * p) / p == x / p + q
  {
    var a, r := x / p, x % p;
    assert x == a * p + r;
    assert x + q * p == (a + q) * p + r by {
      assert (a + q) * p == a * p + q * p;
    }
    DivModUnique(x + q * p, a + q, r, p);
  }

  lemma ModSucc(n: nat, p: nat)
    requires p > 0
    ensures (n + 1) % p == if n % p + 1 == p then 0 else n % p + 1
  {
    var q, r := n / p, n % p;
    assert n == q * p + r;
    if r + 1 == p {
      assert (q + 1) * p == q * p + p;
      DivModUnique(n + 1, q + 1, 0, p);
    } else {
      DivModUnique(n + 1, q, r + 1, p);
    }
  }

  /** The remainder by repeated subtraction: equal to n % p, but without nonlinear arithmetic. */
  function Mod(n: nat, p: nat): (r: nat)
    requires p > 0
    ensures r < p && r <= n
  {
    if n < p then n else Mod(n - p, p)
  }

  lemma {:induction false} ModIs(n: nat, p: nat)
    requires p > 0
    ensures Mod(n, p) == n % p
  {
    if n < p {
      DivModUnique(n, 0, n, p);
    } else {
      ModIs(n - p, p);
      ModAddMultiple(n - p, 1, p);
    }
  }
}
