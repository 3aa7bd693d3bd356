/** Rounding, and products and quotients of integers. */
module Numbers {

  /** Conversion of a double to an int: towards zero. */
  function Truncate(x: real): int {
    if x >= 0.0 then x.Floor else -(-x).Floor
  }

  lemma NotNegative(x: real, y: real)
    requires x >= 0.0 && y >= 0.0
    ensures x * y >= 0.0
  {
  }

  lemma Positive(x: real, y: real)
    requires x > 0.0 && y > 0.0
    ensures x * y > 0.0
  {
  }

  lemma MulAtMost(x: int, y: int, f: int)
    requires x <= y && f > 0
    ensures x * f <= y * f
  {
    var d := y - x;
    assert d * f >= 0;
    assert y * f == x * f + d * f;
  }

  lemma MulBelow(x: int, y: int, f: int)
    requires x < y && f > 0
    ensures x * f + f <= y * f
  {
    MulAtMost(x + 1, y, f);
  }

  lemma QuotientBelow(j: int, f: int, m: int)
    requires f > 0
    ensures j / f < m <==> j < m * f
  {
    var q := j / f;
    assert j == q * f + j % f;
    if q < m {
      MulAtMost(q + 1, m, f);
      assert (q + 1) * f == q * f + f;
    } else {
      MulAtMost(m, q, f);
    }
  }

  lemma QuotientIs(x: int, f: int, q: int)
    requires f > 0 && q * f <= x < (q + 1) * f
    ensures x / f == q && x % f == x - q * f
  {
    QuotientBelow(x, f, q);
    QuotientBelow(x, f, q + 1);
  }
}
