/** The smaller and the larger of two integers, and facts about products the solver is not asked to find
    by itself. */
module Arithmetic {
  function Min(a: int, b: int): int {
    if a < b then a else b
  }

  function Max(a: int, b: int): (m: int)
    ensures m >= a && m >= b
  {
    if a < b then b else a
  }

  lemma IntProductMonotone(a: int, b: int, c: int)
    requires a <= b && 0 <= c
    ensures a * c <= b * c
  {
  }

  lemma RealProductMonotone(a: real, b: real, c: real)
    requires a <= b && 0.0 <= c
    ensures a * c <= b * c
  {
  }

  lemma RealProductStrict(a: real, b: real, c: real)
    requires a < b && 0.0 < c
    ensures a * c < b * c
  {
  }

  lemma QuotientUnique(n: int, i: int, q: int, r: int)
    requires n > 0 && i == q * n + r && 0 <= r < n
    ensures i / n == q && i % n == r
  {
    var d := i / n - q;
    assert d * n == (i / n) * n - q * n == r - i % n;
    assert d >= 1 ==> d * n >= n by {
      if d >= 1 {
        IntProductMonotone(1, d, n);
      }
    }
    assert d <= -1 ==> d * n <= -n by {
      if d <= -1 {
        IntProductMonotone(d, -1, n);
      }
    }
  }

  /** The quotient of a sum lies where the sum lies. */
  lemma MeanBounded(sum: real, weight: real, lo: real, hi: real)
    requires weight > 0.0 && lo * weight <= sum <= hi * weight
    ensures lo <= sum / weight <= hi
  {
    var mean := sum / weight;
    assert mean * weight == sum;
    assert mean < lo ==> mean * weight < lo * weight by {
      if mean < lo {
        RealProductStrict(mean, lo, weight);
      }
    }
    assert mean > hi ==> mean * weight > hi * weight by {
      if mean > hi {
        RealProductStrict(hi, mean, weight);
      }
    }
  }
}
