/** Quotients and remainders by a positive divisor. */
module Division {

  lemma MulStep(m: int, p: int, q: int)
    requires m > 0
    ensures p < q ==> m * p + m <= m * q
  {
    if p < q {
      assert m * q == m * (p + 1) + m * (q - p - 1);
    }
  }

  lemma DivUnique(x: int, m: int, q: int, r: int)
    requires m > 0 && x == m * q + r && 0 <= r < m
    ensures x / m == q && x % m == r
  {
    var p := x / m;
    assert x == m * p + x % m;
    MulStep(m, p, q);
    MulStep(m, q, p);
  }
}
