/** The few facts about division that the solver does not find on its own. */
module Arith {

  lemma MulMono(a: int, b: int, k: int)
    requires a <= b && 0 <= k
    ensures a * k <= b * k
  {
    assert (b - a) * k >= 0;
  }

  /** Quotient and remainder are determined by their defining equation. */
  lemma DivModUnique(x: int, d: int, q: int, r: int)
    requires d > 0 && x == q * d + r && 0 <= r < d
    ensures x / d == q && x % d == r
  {
    var q', r' := x / d, x % d;
    assert x == q' * d + r';
    assert (q - q') * d == r' - r;
    if q < q' {
      MulMono(1, q' - q, d);
    } else if q > q' {
      MulMono(1, q - q', d);
    }
  }

  lemma DivBounds(x: int, d: int)
    requires d > 0
    ensures (x / d) * d <= x < (x / d + 1) * d
  {
  }

  lemma DivMono(x: int, y: int, d: int)
    requires d > 0 && x <= y
    ensures x / d <= y / d
  {
    DivBounds(x, d);
    DivBounds(y, d);
    if x / d > y / d {
      MulMono(y / d + 1, x / d, d);
    }
  }

  /** (n % (k * step)) / step is the quotient n / step, reduced modulo k. */
  lemma SlotIsQuotient(n: nat, k: nat, step: nat)
    requires k > 0 && step > 0
    ensures k * step > 0
    ensures (n % (k * step)) / step == (n / step) % k
  {
    var q, r := n / step, n % step;
    var a, b := q / k, q % k;
    assert n == q * step + r;
    assert q == a * k + b;
    calc {
      n;
      (a * k + b) * step + r;
      a * (k * step) + (b * step + r);
    }
    MulMono(b, k - 1, step);
    assert b * step + r < k * step;
    DivModUnique(n, k * step, a, b * step + r);
    DivModUnique(b * step + r, step, b, r);
  }
}
