/** Products, quotients and roundings of integers and exact reals. */
module Arithmetic {

  function Ceil(x: real): int {
    -((-x).Floor)
  }

  lemma CeilIs(x: real)
    ensures x <= Ceil(x) as real < x + 1.0
  {
  }

  /** Shifting by an integer. */
  lemma FloorShift(x: real, k: int)
    ensures (x + k as real).Floor == x.Floor + k && Ceil(x + k as real) == Ceil(x) + k
  {
  }

  lemma DivIs(a: real, b: real)
    requires b != 0.0
    ensures a / b * b == a
  {
  }

  lemma CancelLess(a: real, b: real, c: real)
    requires c > 0.0
    ensures a * c < b * c <==> a < b
  {
    if a < b { Positive(b - a, c); assert (b - a) * c == b * c - a * c; }
    if b < a { Positive(a - b, c); assert (a - b) * c == a * c - b * c; }
  }

  lemma Positive(a: real, b: real)
    requires a > 0.0 && b > 0.0
    ensures a * b > 0.0
  {
  }

  lemma Cancel(a: real, b: real, c: real)
    requires c > 0.0 && a * c == b * c
    ensures a == b
  {
    CancelLess(a, b, c);
    CancelLess(b, a, c);
  }

  lemma MulReal(a: int, b: int)
    ensures (a * b) as real == a as real * b as real
  {
  }

  lemma Assoc(a: real, b: real, c: real)
    ensures a * b * c == a * (b * c) == a * c * b
  {
  }

  lemma MulMono(a: int, b: int, c: nat)
    requires a <= b
    ensures a * c <= b * c
  {
  }

  lemma MulSum(a: real, b: real, c: real)
    ensures (a + b) * c == a * c + b * c && 0.0 * c == 0.0
  {
  }

  lemma MulDiff(a: real, b: real, c: real)
    ensures (a - b) * c == a * c - b * c
  {
  }

  lemma MulNonNegative(a: real, b: real)
    requires a >= 0.0 && b >= 0.0
    ensures a * b >= 0.0
  {
  }

  lemma Distribute(a: int, b: int, c: int)
    ensures (a + b) * c == a * c + b * c
  {
  }

  lemma Subtract(a: int, b: int, c: int)
    ensures (a - b) * c == a * c - b * c
  {
  }

  lemma DivBounds(a: int, n: nat)
    requires n > 0
    ensures a / n * n <= a < a / n * n + n
  {
  }

  lemma DivExact(a: nat, b: nat)
    requires b > 0
    ensures a * b / b == a
  {
    var q, r := a * b / b, a * b % b;
    assert (a - q) * b == r;
    if a > q { MulMono(1, a - q, b); }
    if a < q { MulMono(1, q - a, b); }
  }
}
