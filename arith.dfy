/** Small facts about multiplication and remainder, proved one step at a time. */
module Arith {

  lemma MulSucc(a: nat, n: nat)
    ensures (a + 1) * n == a * n + n
  {
  }

  lemma {:induction false} MulMonotone(a: nat, b: nat, n: nat)
    requires a <= b
    ensures a * n <= b * n
  {
    if a < b {
      MulMonotone(a, b - 1, n);
      MulSucc(b - 1, n);
    }
  }

  /** Quotient and remainder are determined by any quotient-remainder decomposition. */
  lemma ModUnique(a: nat, n: nat, q: nat, m: nat)
    requires n > 0 && m < n && a == q * n + m
    ensures a % n == m && a / n == q
  {
    var q', m' := a / n, a % n;
    assert a == q' * n + m';
    if q' < q {
      MulMonotone(q' + 1, q, n);
      MulSucc(q', n);
    } else if q < q' {
      MulMonotone(q + 1, q', n);
      MulSucc(q, n);
    }
  }

  /** The smaller of two naturals. */
  function Min(a: nat, b: nat): (m: nat)
    ensures m <= a && m <= b && (m == a || m == b)
  {
    if a < b then a else b
  }

  /** `ceil(a / d)` for a non-negative `a`. */
  function CeilDiv(a: nat, d: nat): nat
    requires d > 0
  {
    (a + d - 1) / d
  }

  /** Rounding up a fraction of at most `n` wholes gives at most `n`; none gives 0, all gives `n`, some gives at least 1. */
  lemma CeilDivBounds(a: nat, d: nat, n: nat)
    requires d > 0 && a <= n * d
    ensures CeilDiv(a, d) <= n
    ensures a == 0 ==> CeilDiv(a, d) == 0
    ensures a > 0 ==> CeilDiv(a, d) >= 1
    ensures a == n * d ==> CeilDiv(a, d) == n
  {
    var b := a + d - 1;
    var q, m := b / d, b % d;
    assert b == q * d + m;
    if q >= n + 1 {
      MulMonotone(n + 1, q, d);
      MulSucc(n, d);
    }
    if a == 0 {
      ModUnique(b, d, 0, d - 1);
    }
    if a == n * d {
      ModUnique(b, d, n, d - 1);
    }
  }
}
