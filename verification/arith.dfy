/** Euclidean division facts used to follow loops that act on `i % size == 0`. */
module Arith {

  lemma MulBounds(d: int, m: int)
    requires d > 0
    ensures m >= 1 ==> d * m >= d
    ensures m <= -1 ==> d * m <= -d
  {
  }

  /** Quotient and remainder are determined by `x == d * q + r` with `0 <= r < d`. */
  lemma DivModUnique(x: int, d: int, q: int, r: int)
    requires d > 0 && 0 <= r < d && x == d * q + r
    ensures x / d == q && x % d == r
  {
    var q0 := x / d;
    var r0 := x % d;
    assert x == d * q0 + r0;
    assert d * (q - q0) == r0 - r;
    MulBounds(d, q - q0);
  }

  /** How quotient and remainder change from `k - 1` to `k`. */
  lemma DivModStep(k: nat, d: nat)
    requires k > 0 && d > 0
    ensures k % d == 0 ==> (k - 1) % d == d - 1 && k / d == (k - 1) / d + 1
    ensures k % d != 0 ==> k % d == (k - 1) % d + 1 && k / d == (k - 1) / d
  {
    var q := (k - 1) / d;
    var r := (k - 1) % d;
    assert k - 1 == d * q + r;
    if r == d - 1 {
      DivModUnique(k, d, q + 1, 0);
    } else {
      DivModUnique(k, d, q, r + 1);
    }
  }

  /** A share `c / n` of a whole with `1 <= c <= n` lies in (0, 1] and is 1 only when `c == n`. */
  lemma ShareRange(c: nat, n: nat)
    requires 1 <= c <= n
    ensures 0.0 < c as real / n as real <= 1.0
    ensures c as real / n as real == 1.0 <==> c == n
  {
    var q := c as real / n as real;
    assert q * n as real == c as real;
  }
}
