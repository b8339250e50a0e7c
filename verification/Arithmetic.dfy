/** Division facts the solver does not find by itself. */
module Arithmetic {

  lemma MulAtLeast(k: int, n: int)
    requires k >= 1 && n >= 0
    ensures k * n >= n
  {
  }

  lemma DivModUnique(a: int, b: int, n: int, r: int, s: int)
    requires n > 0 && a * n + r == b * n + s && 0 <= r < n && 0 <= s < n
    ensures a == b && r == s
  {
    if a > b {
      assert (a - b) * n == a * n - b * n;
      MulAtLeast(a - b, n);
    } else if b > a {
      assert (b - a) * n == b * n - a * n;
      MulAtLeast(b - a, n);
    }
  }

  /** Quotient and remainder are whatever splits `x` this way. */
  lemma DivModOf(x: int, k: int, n: int, r: int)
    requires n > 0 && x == k * n + r && 0 <= r < n
    ensures x / n == k && x % n == r
  {
    assert x == (x / n) * n + x % n;
    DivModUnique(x / n, k, n, x % n, r);
  }

  /** A product stays under a limit exactly when a factor stays under the quotient. */
  lemma FitsExactly(e: int, n: int, limit: int)
    requires n > 0 && limit >= 0
    ensures e > limit / n <==> e * n > limit
  {
    var q := limit / n;
    assert limit == q * n + limit % n;
    if e > q {
      assert (e - q) * n == e * n - q * n;
      MulAtLeast(e - q, n);
    } else if e < q {
      assert (q - e) * n == q * n - e * n;
      MulAtLeast(q - e, n);
    }
  }

  lemma MulBounds(q: nat, b: int, c: int)
    requires 0 <= b <= c
    ensures 0 <= q * b <= q * c
  {
    assert q * c - q * b == q * (c - b);
  }
}
