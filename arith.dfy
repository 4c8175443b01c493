/** Facts about multiplication and division that the solver does not find alone. */
module Arith {

  lemma MulMonotone(a: nat, b: nat, c: nat)
    requires a <= b
    ensures a * c <= b * c
  {
  }

  lemma MulCancelLess(a: nat, b: nat, c: nat)
    requires c > 0 && a * c < b * c
    ensures a < b
  {
  }

  /** Quotient and remainder are the only pair with `y == q * c + r` and `0 <= r < c`. */
  lemma DivModUnique(y: int, c: int, q: int, r: int)
    requires c > 0 && 0 <= r < c && y == q * c + r
    ensures y / c == q && y % c == r
  {
    var q', r' := y / c, y % c;
    assert (q - q') * c == r' - r;
    if q > q' {
      MulMonotone(1, q - q', c);
    } else if q < q' {
      MulMonotone(1, q' - q, c);
    }
  }
}
