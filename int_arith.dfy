/** Integer division facts shared by the date and the batching code. */
module IntArith {
  /** A positive multiple of `n` is at least `n`. */
  lemma MulAtLeast(x: int, n: int)
    requires x >= 1 && n > 0
    ensures x * n >= n
  {
    assert x * n == (x - 1) * n + n;
  }

  /** Quotient and remainder are unique: `a == q * n + r` with
      `0 <= r < n` gives `a / n == q` and `a % n == r`. */
  lemma DivModOf(a: int, n: int, q: int, r: int)
    requires n > 0 && 0 <= r < n && a == q * n + r
    ensures a / n == q && a % n == r
  {
    var q', r' := a / n, a % n;
    assert a == q' * n + r';
    assert (q - q') * n == r' - r;
    if q > q' {
      MulAtLeast(q - q', n);
    } else if q < q' {
      MulAtLeast(q' - q, n);
    }
  }
}
