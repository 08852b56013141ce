/** Facts about integer multiplication and Euclidean division that the solver
    does not find on its own. */
module Arith {

  /** Multiplying by a non-negative number keeps the order. */
  lemma {:induction false} MulMono(a: int, b: int, s: int)
    requires a <= b && s >= 0
    ensures a * s <= b * s
  {
    assert b * s - a * s == (b - a) * s;
  }

  /** Division by a positive number is determined by quotient and remainder. */
  lemma {:induction false} DivModUnique(x: int, n: int, q: int, r: int)
    requires n > 0 && 0 <= r < n && x == q * n + r
    ensures x / n == q && x % n == r
  {
    var q' := x / n;
    var r' := x % n;
    assert x == q' * n + r';
    if q' < q {
      MulMono(q' + 1, q, n);
      assert false;
    } else if q' > q {
      MulMono(q + 1, q', n);
      assert false;
    }
  }
}
