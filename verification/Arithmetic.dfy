// The few facts about products and quotients that the solver does not find by itself.
module Arithmetic {

  lemma MultipleIsFar(d: int, n: int)
    requires n > 0
    ensures d >= 1 ==> d * n >= n
    ensures d <= -1 ==> d * n <= -n
  {
  }

  // A quotient and remainder are the only ones there are.
  lemma QuotientIs(x: int, n: int, q: int, r: int)
    requires n > 0 && x == q * n + r && 0 <= r < n
    ensures x / n == q && x % n == r
  {
    MultipleIsFar(x / n - q, n);
    assert x == (x / n) * n + x % n;
    assert (x / n - q) * n == r - x % n;
  }

  lemma DivModCancel(q: int, r: int, n: int)
    requires 0 <= r < n
    ensures (q * n + r) / n == q && (q * n + r) % n == r
  {
    QuotientIs(q * n + r, n, q, r);
  }

  lemma QuotientIsSmaller(x: nat, n: int)
    requires n > 0
    ensures 0 <= x / n <= x
  {
    var q := x / n;
    MultipleIsFar(q, n);
    assert x == q * n + x % n;
    if q >= 0 {
      ProductGrows(q, n);
    }
  }

  lemma ProductGrows(q: int, n: int)
    requires q >= 0 && n >= 1
    ensures q * n >= q
  {
    assert q * n == q * (n - 1) + q;
  }
}
