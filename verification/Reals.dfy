/** Elementary facts about real numbers, and the contract the model assumes of the C library's square root. */
module Reals {

  function Abs(x: real): real {
    if x < 0.0 then -x else x
  }

  function Min(x: real, y: real): real {
    if y < x then y else x
  }

  function Max(x: real, y: real): real {
    if x < y then y else x
  }

  /** A product kept by name, so that proofs can treat it as a whole. */
  function Times(x: real, y: real): real {
    x * y
  }

  /** `sqrt` behaves as the exact square root on the nonnegative reals. */
  ghost predicate IsSqrt(sqrt: real -> real) {
    forall x: real :: 0.0 <= x ==> 0.0 <= sqrt(x) && sqrt(x) * sqrt(x) == x
  }

  ghost predicate IsAdditive(sin: real -> real, cos: real -> real) {
    forall x: real, y: real, z: real {:trigger sin(x), sin(y), sin(z)} :: z == x + y ==>
      sin(z) == sin(x) * cos(y) + cos(x) * sin(y) && cos(z) == cos(x) * cos(y) - sin(x) * sin(y)
  }

  /** `sin` and `cos` satisfy the Pythagorean, parity and addition laws. */
  ghost predicate IsTrig(sin: real -> real, cos: real -> real) {
    (forall x: real :: cos(x) * cos(x) + sin(x) * sin(x) == 1.0) &&
    (forall x: real :: sin(-x) == -sin(x) && cos(-x) == cos(x)) &&
    IsAdditive(sin, cos) && sin(0.0) == 0.0 && cos(0.0) == 1.0
  }

  lemma AngleSum(sin: real -> real, cos: real -> real, x: real, y: real, z: real)
    requires IsAdditive(sin, cos) && z == x + y
    ensures sin(z) == sin(x) * cos(y) + cos(x) * sin(y) && cos(z) == cos(x) * cos(y) - sin(x) * sin(y)
  {
  }

  lemma MulSign(x: real, y: real)
    ensures 0.0 <= x && 0.0 <= y ==> 0.0 <= x * y
    ensures x <= 0.0 && y <= 0.0 ==> 0.0 <= x * y
    ensures 0.0 <= x && y <= 0.0 ==> x * y <= 0.0
    ensures x <= 0.0 && 0.0 <= y ==> x * y <= 0.0
    ensures x < 0.0 && y < 0.0 ==> 0.0 < x * y
    ensures 0.0 < x && 0.0 < y ==> 0.0 < x * y
    ensures 0.0 < x && y < 0.0 ==> x * y < 0.0
    ensures x < 0.0 && 0.0 < y ==> x * y < 0.0
  {
  }

  lemma NonpositiveProduct(x: real, y: real, p: real)
    requires x == y && p == x * y && p <= 0.0
    ensures x == 0.0
  {
    MulSign(x, y);
  }

  lemma NonpositiveSquare(d: real)
    requires d * d <= 0.0
    ensures d == 0.0
  {
    NonpositiveProduct(d, d, d * d);
  }

  lemma Quotient(x: real, y: real)
    requires y != 0.0
    ensures x / y * y == x
  {
  }
}
