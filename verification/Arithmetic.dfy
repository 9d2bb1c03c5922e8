/** Products, quotients and powers of natural numbers. */
module Arithmetic {

  const TWO_32 := 0x1_0000_0000

  function Pow(b: nat, k: nat): (p: nat)
    ensures b > 0 ==> p > 0
  {
    if k == 0 then 1 else b * Pow(b, k - 1)
  }

  lemma {:induction false} PowAdd(b: nat, x: nat, y: nat)
    ensures Pow(b, x + y) == Pow(b, x) * Pow(b, y)
  {
    if x > 0 {
      PowAdd(b, x - 1, y);
      Associate(b, Pow(b, x - 1), Pow(b, y));
    }
  }

  /** C++ division of integers, and BN_div: truncation toward zero. */
  function TruncDiv(a: int, b: nat): int
    requires b > 0
  {
    if a >= 0 then a / b else 0 - (0 - a) / b
  }

  lemma Associate(x: nat, y: nat, z: nat)
    ensures x * (y * z) == (x * y) * z
  {
  }

  lemma MulMonotone(a: nat, b: nat, p: nat)
    requires a <= b
    ensures a * p <= b * p
  {
    assert b * p - a * p == (b - a) * p;
  }

  lemma MulMonotoneBoth(a: nat, b: nat, c: nat, d: nat)
    requires a <= b && c <= d
    ensures a * c <= b * d
  {
    MulMonotone(a, b, c);
    MulMonotone(c, d, b);
  }

  lemma DivBounds(n: nat, p: nat)
    requires p > 0
    ensures n / p * p <= n < n / p * p + p
  {
    assert n == n / p * p + n % p;
  }

  lemma DivAtLeast(a: nat, n: nat, p: nat)
    requires p > 0 && a * p <= n
    ensures a <= n / p
  {
    DivBounds(n, p);
    if n / p < a {
      MulMonotone(n / p + 1, a, p);
    }
  }

  lemma DivBelow(a: nat, n: nat, p: nat)
    requires p > 0 && n < a * p
    ensures n / p < a
  {
    DivBounds(n, p);
    if n / p >= a {
      MulMonotone(a, n / p, p);
    }
  }

  lemma DivUnique(n: nat, p: nat, q: nat)
    requires p > 0 && q * p <= n < q * p + p
    ensures n / p == q
  {
    DivAtLeast(q, n, p);
    assert (q + 1) * p == q * p + p;
    DivBelow(q + 1, n, p);
  }

  lemma MulDiv(a: nat, p: nat)
    requires p > 0
    ensures a * p / p == a
  {
    DivUnique(a * p, p, a);
  }

  /** Dividing by more gives no more. */
  lemma DivByMore(a: nat, d: nat, e: nat)
    requires 0 < d <= e
    ensures a / e <= a / d
  {
    DivBounds(a, e);
    MulMonotone(d, e, a / e);
    DivAtLeast(a / e, a, d);
  }
}
