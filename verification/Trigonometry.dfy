/** The contract the model assumes of the C library's circular functions, and what follows from it. */
module Trigonometry {
  import opened Reals

  /** The library functions and the number pi. */
  datatype Library = Library(
    sin: real -> real, cos: real -> real, sqrt: real -> real, atan2: (real, real) -> real,
    asin: real -> real, acos: real -> real, pi: real)

  /** atan2(y, x) is an angle of the point (x, y). */
  ghost predicate IsAtan2(l: Library) {
    forall x: real, y: real :: l.sqrt(x * x + y * y) * l.cos(l.atan2(y, x)) == x &&
                               l.sqrt(x * x + y * y) * l.sin(l.atan2(y, x)) == y
  }

  ghost predicate IsArc(l: Library) {
    (forall z: real :: -1.0 <= z <= 1.0 ==> l.sin(l.asin(z)) == z) &&
    forall z: real :: -1.0 <= z <= 1.0 ==> l.cos(l.acos(z)) == z
  }

  ghost predicate Exact(l: Library) {
    IsTrig(l.sin, l.cos) && IsSqrt(l.sqrt) && IsAtan2(l) && IsArc(l) &&
    0.0 < l.pi && l.sin(0.5 * l.pi) == 1.0 && l.cos(0.5 * l.pi) == 0.0
  }

  /** The inverse functions return principal values, and the sine is positive between 0 and pi. */
  ghost predicate Principal(l: Library) {
    (forall x: real, y: real :: -l.pi <= l.atan2(y, x) <= l.pi) &&
    (forall z: real :: -0.5 * l.pi <= l.asin(z) <= 0.5 * l.pi) &&
    (forall z: real :: 0.0 <= l.acos(z) <= l.pi) &&
    forall x: real :: 0.0 < x < l.pi ==> 0.0 < l.sin(x)
  }

  // ----- The laws, one at a time -----

  lemma Pythagoras(l: Library, a: real)
    requires Exact(l)
    ensures l.cos(a) * l.cos(a) + l.sin(a) * l.sin(a) == 1.0
  {
  }

  lemma Parity(l: Library, a: real)
    requires Exact(l)
    ensures l.sin(-a) == -l.sin(a) && l.cos(-a) == l.cos(a)
  {
  }

  lemma Sum(l: Library, a: real, b: real, c: real)
    requires Exact(l) && c == a + b
    ensures l.sin(c) == l.sin(a) * l.cos(b) + l.cos(a) * l.sin(b)
    ensures l.cos(c) == l.cos(a) * l.cos(b) - l.sin(a) * l.sin(b)
  {
    hide IsAdditive, IsSqrt, IsAtan2, IsArc;
    AngleSum(l.sin, l.cos, a, b, c);
  }

  lemma Difference(l: Library, a: real, b: real, c: real)
    requires Exact(l) && c == a - b
    ensures l.sin(c) == l.sin(a) * l.cos(b) - l.cos(a) * l.sin(b)
    ensures l.cos(c) == l.cos(a) * l.cos(b) + l.sin(a) * l.sin(b)
  {
    hide Exact;
    Sum(l, a, -b, c);
    Parity(l, b);
  }

  lemma AtZero(l: Library)
    requires Exact(l)
    ensures l.sin(0.0) == 0.0 && l.cos(0.0) == 1.0
  {
  }

  lemma Quarter(l: Library)
    requires Exact(l)
    ensures 0.0 < l.pi && l.sin(0.5 * l.pi) == 1.0 && l.cos(0.5 * l.pi) == 0.0
  {
  }

  lemma UnitTurn(s: real, c: real, p: real, q: real)
    requires p == 1.0 && q == 0.0
    ensures s * q + c * p == c && c * q - s * p == -s
  {
  }

  lemma QuarterTurn(l: Library, a: real, c: real)
    requires Exact(l) && c == a + 0.5 * l.pi
    ensures l.sin(c) == l.cos(a) && l.cos(c) == -l.sin(a)
  {
    hide Exact;
    Quarter(l);
    Sum(l, a, 0.5 * l.pi, c);
    UnitTurn(l.sin(a), l.cos(a), l.sin(0.5 * l.pi), l.cos(0.5 * l.pi));
  }

  lemma HalfTurn(l: Library, a: real, c: real)
    requires Exact(l) && c == a + l.pi
    ensures l.sin(c) == -l.sin(a) && l.cos(c) == -l.cos(a)
  {
    hide Exact;
    QuarterTurn(l, a, a + 0.5 * l.pi);
    QuarterTurn(l, a + 0.5 * l.pi, c);
  }

  // ----- Angles up to whole turns -----

  /** The angles differ by `k` whole turns. */
  predicate TurnsApart(l: Library, a: real, b: real, k: int) {
    a == b + k as real * (2.0 * l.pi)
  }

  ghost predicate Congruent(l: Library, a: real, b: real) {
    exists k: int :: TurnsApart(l, a, b, k)
  }

  lemma WholeTurn(l: Library, a: real, c: real)
    requires Exact(l) && c == a + 2.0 * l.pi
    ensures l.sin(c) == l.sin(a) && l.cos(c) == l.cos(a)
  {
    hide Exact;
    HalfTurn(l, a, a + l.pi);
    HalfTurn(l, a + l.pi, c);
  }

  lemma {:induction false} Turns(l: Library, a: real, b: real, k: int)
    requires Exact(l) && TurnsApart(l, a, b, k)
    ensures l.sin(a) == l.sin(b) && l.cos(a) == l.cos(b)
    decreases if k < 0 then -k else k
  {
    hide Exact;
    Quarter(l);
    assert k == 0 ==> a == b;
    if k > 0 {
      WholeTurn(l, a - 2.0 * l.pi, a);
      Turns(l, a - 2.0 * l.pi, b, k - 1);
    } else if k < 0 {
      WholeTurn(l, a, a + 2.0 * l.pi);
      Turns(l, a + 2.0 * l.pi, b, k + 1);
    }
  }

  lemma SamePoint(l: Library, a: real, b: real)
    requires Exact(l) && Congruent(l, a, b)
    ensures l.sin(a) == l.sin(b) && l.cos(a) == l.cos(b)
  {
    hide Exact;
    var k :| TurnsApart(l, a, b, k);
    Turns(l, a, b, k);
  }

  lemma CongruentSum(l: Library, a: real, b: real, a': real, b': real)
    requires Congruent(l, a, a') && Congruent(l, b, b')
    ensures Congruent(l, a + b, a' + b') && Congruent(l, a - b, a' - b')
  {
    var k :| TurnsApart(l, a, a', k);
    var j :| TurnsApart(l, b, b', j);
    assert TurnsApart(l, a + b, a' + b', k + j);
    assert TurnsApart(l, a - b, a' - b', k - j);
  }

  lemma CongruentRefl(l: Library, a: real)
    ensures Congruent(l, a, a)
  {
    assert TurnsApart(l, a, a, 0);
  }

  lemma CongruentSym(l: Library, a: real, b: real)
    requires Congruent(l, a, b)
    ensures Congruent(l, b, a) && Congruent(l, -a, -b)
  {
    var k :| TurnsApart(l, a, b, k);
    assert TurnsApart(l, b, a, -k);
    assert TurnsApart(l, -a, -b, -k);
  }
}
