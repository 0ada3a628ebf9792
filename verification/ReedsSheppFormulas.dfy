/** The eight closed formulas of Reeds and Shepp as the code evaluates them (Reeds_Shepp.h). */
module ReedsSheppFormulas {
  import opened Reals
  import opened Trigonometry

  datatype Solution = NoSolution | Solution(t: real, u: real, v: real)

  datatype Formula = LpSpLp | LpSpRp | LpRmL | LpRupLumRm | LpRumLumRp | LpRmSmLm | LpRmSmRm | LpRmSLmRp

  // ----- Helpers of the class -----

  function Truncate(q: real): int {
    if q < 0.0 then -(-q).Floor else q.Floor
  }

  /** std::fmod and a correction into [-pi, pi]. */
  function Mod2Pi(l: Library, x: real): real
    requires 0.0 < l.pi
  {
    var turn := 2.0 * l.pi;
    var v := x - Truncate(x / turn) as real * turn;
    if v < -l.pi then v + turn else if v > l.pi then v - turn else v
  }

  lemma Mod2PiCongruent(l: Library, x: real)
    requires 0.0 < l.pi
    ensures Congruent(l, Mod2Pi(l, x), x)
  {
    var k := Truncate(x / (2.0 * l.pi));
    assert TurnsApart(l, Mod2Pi(l, x), x, -k) || TurnsApart(l, Mod2Pi(l, x), x, 1 - k)
        || TurnsApart(l, Mod2Pi(l, x), x, -1 - k);
  }

  lemma TruncateNear(q: real)
    ensures -1.0 < q - Truncate(q) as real < 1.0
  {
  }

  lemma FactorOut(x: real, turn: real, q: real, k: real)
    requires q * turn == x
    ensures x - k * turn == (q - k) * turn
  {
  }

  lemma Distribute(e: real, turn: real)
    ensures (1.0 - e) * turn == turn - e * turn && (e + 1.0) * turn == e * turn + turn
  {
  }

  /** The reduced angle lies in [-pi, pi]. */
  lemma Mod2PiRange(l: Library, x: real)
    requires 0.0 < l.pi
    ensures -l.pi <= Mod2Pi(l, x) <= l.pi
  {
    hide Truncate;
    var turn := 2.0 * l.pi;
    var q := x / turn;
    Quotient(x, turn);
    TruncateNear(q);
    FactorOut(x, turn, q, Truncate(q) as real);
    MulSign(1.0 - (q - Truncate(q) as real), turn);
    MulSign(q - Truncate(q) as real + 1.0, turn);
    Distribute(q - Truncate(q) as real, turn);
  }

  function Radius(l: Library, x: real, y: real): real {
    l.sqrt(x * x + y * y)
  }

  function Angle(l: Library, x: real, y: real): real {
    l.atan2(y, x)
  }

  lemma SquaresNonnegative(x: real, y: real)
    ensures 0.0 <= x * x + y * y
  {
    MulSign(x, x);
    MulSign(y, y);
  }

  lemma Polar(l: Library, x: real, y: real, r: real, a: real)
    requires Exact(l) && r == Radius(l, x, y) && a == Angle(l, x, y)
    ensures r * l.cos(a) == x && r * l.sin(a) == y && 0.0 <= r && r * r == x * x + y * y
  {
    hide IsTrig, IsArc;
    SquaresNonnegative(x, y);
  }

  lemma Root(l: Library, z: real)
    requires Exact(l) && 0.0 <= z
    ensures 0.0 <= l.sqrt(z) && l.sqrt(z) * l.sqrt(z) == z
  {
    hide IsTrig, IsArc, IsAtan2;
  }

  lemma SameRoot(a: real, b: real)
    requires 0.0 <= a && 0.0 <= b && a * a == b * b
    ensures a == b
  {
    assert (a - b) * (a + b) == 0.0;
    MulSign(a - b, a + b);
  }

  lemma RootOfSquare(l: Library, z: real, r: real)
    requires Exact(l) && 0.0 <= r && r * r == z
    ensures l.sqrt(z) == r
  {
    hide Exact;
    MulSign(r, r);
    Root(l, z);
    SameRoot(l.sqrt(z), r);
  }

  function Squared(r: real): real {
    r * r
  }

  function Opposite(u: real, xi: real, eta: real): real {
    (4.0 - u) * xi - 2.0 * eta
  }

  function Adjacent(u: real, xi: real, eta: real): real {
    -2.0 * xi + (u - 4.0) * eta
  }

  function ParallelCosine(xi: real, eta: real): real {
    (20.0 - xi * xi - eta * eta) / 16.0
  }

  // ----- The formulas -----

  function Accept(ok: bool, t: real, u: real, v: real): Solution {
    if ok then Solution(t, u, v) else NoSolution
  }

  function SolveLpSpLp(l: Library, zero: real, x: real, y: real, phi: real): Solution
    requires 0.0 < l.pi
  {
    var xi, eta := x - l.sin(phi), y - 1.0 + l.cos(phi);
    var u, t := Radius(l, xi, eta), Angle(l, xi, eta);
    var v := Mod2Pi(l, phi - t);
    Accept(t >= -zero && v >= -zero, t, u, v)
  }

  function SolveLpSpRp(l: Library, zero: real, x: real, y: real, phi: real): Solution
    requires 0.0 < l.pi
  {
    var xi, eta := x + l.sin(phi), y - 1.0 - l.cos(phi);
    var r, t1 := Radius(l, xi, eta), Angle(l, xi, eta);
    var u1 := Squared(r);
    if u1 >= 4.0 then
      var u := l.sqrt(u1 - 4.0);
      var theta := l.atan2(2.0, u);
      var t := Mod2Pi(l, t1 + theta);
      var v := Mod2Pi(l, t - phi);
      Accept(t >= -zero && v >= -zero, t, u, v)
    else NoSolution
  }

  function SolveLpRmL(l: Library, zero: real, x: real, y: real, phi: real): Solution
    requires 0.0 < l.pi
  {
    var xi, eta := x - l.sin(phi), y - 1.0 + l.cos(phi);
    var u1, theta := Radius(l, xi, eta), Angle(l, xi, eta);
    if u1 <= 4.0 then
      var u := -2.0 * l.asin(0.25 * u1);
      var t := Mod2Pi(l, theta + 0.5 * u + l.pi);
      var v := Mod2Pi(l, phi - t + u);
      Accept(t >= -zero && u <= zero, t, u, v)
    else NoSolution
  }

  function SolveLpRmSmLm(l: Library, zero: real, x: real, y: real, phi: real): Solution
    requires 0.0 < l.pi
  {
    var xi, eta := x - l.sin(phi), y - 1.0 + l.cos(phi);
    var rho, theta := Radius(l, xi, eta), Angle(l, xi, eta);
    if rho >= 2.0 then
      var r := l.sqrt(Squared(rho) - 4.0);
      var u := 2.0 - r;
      var t := Mod2Pi(l, theta + l.atan2(r, -2.0));
      var v := Mod2Pi(l, phi - 0.5 * l.pi - t);
      Accept(t >= -zero && u <= zero && v <= zero, t, u, v)
    else NoSolution
  }

  function SolveLpRmSmRm(l: Library, zero: real, x: real, y: real, phi: real): Solution
    requires 0.0 < l.pi
  {
    var xi, eta := x + l.sin(phi), y - 1.0 - l.cos(phi);
    var rho, t := Radius(l, -eta, xi), Angle(l, -eta, xi);
    if rho >= 2.0 then
      var u := 2.0 - rho;
      var v := Mod2Pi(l, t + 0.5 * l.pi - phi);
      Accept(t >= -zero && u <= zero && v <= zero, t, u, v)
    else NoSolution
  }

  function SolveLpRmSLmRp(l: Library, zero: real, x: real, y: real, phi: real): Solution
    requires 0.0 < l.pi
  {
    var xi, eta := x + l.sin(phi), y - 1.0 - l.cos(phi);
    var rho := Radius(l, xi, eta);
    if rho >= 2.0 then
      var u := 4.0 - l.sqrt(Squared(rho) - 4.0);
      if u <= zero then
        var t := Mod2Pi(l, l.atan2(Opposite(u, xi, eta), Adjacent(u, xi, eta)));
        var v := Mod2Pi(l, t - phi);
        Accept(t >= -zero && v >= -zero, t, u, v)
      else NoSolution
    else NoSolution
  }

  // ----- The equations each formula asserts of its solution -----

  /** The exact form of the three assertions in each formula. */
  ghost predicate Equations(l: Library, f: Formula, x: real, y: real, phi: real, t: real, u: real, v: real) {
    var st, ct, sp, cp := l.sin(t), l.cos(t), l.sin(phi), l.cos(phi);
    match f
    case LpSpLp =>
      Times(u, ct) + sp == x && Times(u, st) - cp + 1.0 == y && Congruent(l, t + v, phi)
    case LpSpRp =>
      2.0 * st + Times(u, ct) - sp == x && -2.0 * ct + Times(u, st) + cp + 1.0 == y && Congruent(l, t - v, phi)
    case LpRmL =>
      2.0 * (st - l.sin(t - u)) + sp == x && 2.0 * (-ct + l.cos(t - u)) - cp + 1.0 == y && Congruent(l, t - u + v, phi)
    case LpRupLumRm =>
      2.0 * (st - l.sin(t - u) + l.sin(t - 2.0 * u)) - sp == x &&
      2.0 * (-ct + l.cos(t - u) - l.cos(t - 2.0 * u)) + cp + 1.0 == y && Congruent(l, t - 2.0 * u - v, phi)
    case LpRumLumRp =>
      4.0 * st - 2.0 * l.sin(t - u) - sp == x && -4.0 * ct + 2.0 * l.cos(t - u) + cp + 1.0 == y &&
      Congruent(l, t - v, phi)
    case LpRmSmLm =>
      2.0 * (st - ct) - Times(u, st) + sp == x && -2.0 * (st + ct) + Times(u, ct) - cp + 1.0 == y &&
      Congruent(l, t + 0.5 * l.pi + v, phi)
    case LpRmSmRm =>
      2.0 * st - l.cos(t - v) - Times(u, st) == x && -2.0 * ct - l.sin(t - v) + Times(u, ct) + 1.0 == y &&
      Congruent(l, t + 0.5 * l.pi - v, phi)
    case LpRmSLmRp =>
      4.0 * st - 2.0 * ct - Times(u, st) - sp == x && -4.0 * ct - 2.0 * st + Times(u, ct) + cp + 1.0 == y &&
      Congruent(l, t - v, phi)
  }

  // ----- The assertions hold -----

  lemma ModPoint(l: Library, t: real, a: real)
    requires Exact(l) && 0.0 < l.pi && t == Mod2Pi(l, a)
    ensures l.sin(t) == l.sin(a) && l.cos(t) == l.cos(a)
  {
    hide Exact, Mod2Pi, Congruent;
    Mod2PiCongruent(l, a);
    SamePoint(l, t, a);
  }

  /** v = mod2pi(a) makes b + v and b - v congruent to b + a and b - a. */
  lemma ModSum(l: Library, v: real, a: real, b: real, plus: real, minus: real)
    requires 0.0 < l.pi && v == Mod2Pi(l, a) && plus == b + a && minus == b - a
    ensures Congruent(l, b + v, plus) && Congruent(l, b - v, minus)
  {
    hide Mod2Pi, Congruent;
    Mod2PiCongruent(l, a);
    CongruentRefl(l, b);
    CongruentSum(l, b, v, b, a);
  }

  lemma LpSpLpSound(l: Library, zero: real, x: real, y: real, phi: real, t: real, u: real, v: real)
    requires Exact(l) && 0.0 < l.pi && SolveLpSpLp(l, zero, x, y, phi) == Solution(t, u, v)
    ensures Equations(l, LpSpLp, x, y, phi, t, u, v)
  {
    hide Exact, Mod2Pi, Congruent, Radius, Angle;
    Polar(l, x - l.sin(phi), y - 1.0 + l.cos(phi), u, t);
    ModSum(l, v, phi - t, t, phi, t - (phi - t));
  }

  /** Turning by the angle of a right triangle with legs r ca and r sa. */
  lemma RotateBack(r: real, c1: real, s1: real, ca: real, sa: real, ct: real, st: real, p: real, q: real)
    requires ct == c1 * ca - s1 * sa && st == s1 * ca + c1 * sa && ca * ca + sa * sa == 1.0
    requires p == r * sa && q == r * ca
    ensures p * st + q * ct == r * c1 && q * st - p * ct == r * s1
  {
    assert p * st + q * ct == r * c1 * (ca * ca + sa * sa);
    assert q * st - p * ct == r * s1 * (ca * ca + sa * sa);
  }

  lemma Atan2(l: Library, x: real, y: real, r: real)
    requires Exact(l) && r == l.sqrt(x * x + y * y)
    ensures r * l.cos(l.atan2(y, x)) == x && r * l.sin(l.atan2(y, x)) == y
  {
    hide IsTrig, IsSqrt, IsArc;
  }

  /** The point (r cos t1, r sin t1) after a turn by the angle of (q, p), for q q + p p == r r. */
  lemma Turned(l: Library, r: real, t1: real, p: real, q: real, t: real)
    requires Exact(l) && 0.0 < l.pi && 0.0 <= r && r * r == q * q + p * p && t == Mod2Pi(l, t1 + l.atan2(p, q))
    ensures p * l.sin(t) + q * l.cos(t) == r * l.cos(t1) && q * l.sin(t) - p * l.cos(t) == r * l.sin(t1)
  {
    hide Exact, Mod2Pi;
    var a := l.atan2(p, q);
    RootOfSquare(l, q * q + p * p, r);
    Atan2(l, q, p, r);
    ModPoint(l, t, t1 + a);
    Sum(l, t1, a, t1 + a);
    Pythagoras(l, a);
    RotateBack(r, l.cos(t1), l.sin(t1), l.cos(a), l.sin(a), l.cos(t), l.sin(t), p, q);
  }

  /** The leg of a right triangle whose other leg is 2. */
  lemma Leg(l: Library, r: real, leg: real)
    requires Exact(l) && 4.0 <= Squared(r) && leg == l.sqrt(Squared(r) - 4.0)
    ensures 0.0 <= leg && leg * leg == r * r - 4.0 && r * r == leg * leg + 2.0 * 2.0 && r * r == -2.0 * -2.0 + leg * leg
  {
    hide Exact;
    Root(l, r * r - 4.0);
  }

  lemma LpSpRpSound(l: Library, zero: real, x: real, y: real, phi: real, t: real, u: real, v: real)
    requires Exact(l) && 0.0 < l.pi && SolveLpSpRp(l, zero, x, y, phi) == Solution(t, u, v)
    ensures Equations(l, LpSpRp, x, y, phi, t, u, v)
  {
    hide Exact, Mod2Pi, Congruent, Radius, Angle, Squared, Opposite, Adjacent;
    var xi, eta := x + l.sin(phi), y - 1.0 - l.cos(phi);
    var r, t1 := Radius(l, xi, eta), Angle(l, xi, eta);
    Polar(l, xi, eta, r, t1);
    assert 4.0 <= Squared(r) && u == l.sqrt(Squared(r) - 4.0) && t == Mod2Pi(l, t1 + l.atan2(2.0, u));
    Leg(l, r, u);
    Turned(l, r, t1, 2.0, u, t);
    ModSum(l, v, t - phi, t, t + (t - phi), phi);
  }

  lemma Shortened(u: real, k: real, r: real, st: real, ct: real)
    requires u == k - r
    ensures u * st == k * st - r * st && u * ct == k * ct - r * ct
  {
  }

  lemma AtLeastTwo(r: real)
    requires 2.0 <= r
    ensures 4.0 <= Squared(r)
  {
    MulSign(r - 2.0, r + 2.0);
    assert (r - 2.0) * (r + 2.0) == r * r - 4.0;
  }

  lemma ShortenedTurn(u: real, r: real, st: real, ct: real, xi: real, eta: real)
    requires u == 2.0 - r && r * st + -2.0 * ct == xi && -2.0 * st - r * ct == eta
    ensures 2.0 * (st - ct) - Times(u, st) == xi && -2.0 * (st + ct) + Times(u, ct) == eta
  {
    Shortened(u, 2.0, r, st, ct);
  }

  /** The point part of the formula: a turn of a right angle shortened by `r`. */
  lemma LpRmSmLmPoint(l: Library, xi: real, eta: real, u: real, t: real)
    requires Exact(l) && 0.0 < l.pi && 2.0 <= Radius(l, xi, eta)
    requires var r := l.sqrt(Squared(Radius(l, xi, eta)) - 4.0);
             u == 2.0 - r && t == Mod2Pi(l, Angle(l, xi, eta) + l.atan2(r, -2.0))
    ensures 2.0 * (l.sin(t) - l.cos(t)) - Times(u, l.sin(t)) == xi
    ensures -2.0 * (l.sin(t) + l.cos(t)) + Times(u, l.cos(t)) == eta
  {
    hide Exact, Mod2Pi, Radius, Angle, Squared, Times;
    var rho, theta := Radius(l, xi, eta), Angle(l, xi, eta);
    Polar(l, xi, eta, rho, theta);
    AtLeastTwo(rho);
    var r := l.sqrt(Squared(rho) - 4.0);
    Leg(l, rho, r);
    Turned(l, rho, theta, r, -2.0, t);
    ShortenedTurn(u, r, l.sin(t), l.cos(t), xi, eta);
  }

  lemma LpRmSmLmSound(l: Library, zero: real, x: real, y: real, phi: real, t: real, u: real, v: real)
    requires Exact(l) && 0.0 < l.pi && SolveLpRmSmLm(l, zero, x, y, phi) == Solution(t, u, v)
    ensures Equations(l, LpRmSmLm, x, y, phi, t, u, v)
  {
    hide Exact, Mod2Pi, Congruent, Radius, Angle, Squared, Opposite, Adjacent, Times;
    LpRmSmLmPoint(l, x - l.sin(phi), y - 1.0 + l.cos(phi), u, t);
    ModSum(l, v, phi - 0.5 * l.pi - t, t + 0.5 * l.pi, phi, 2.0 * t + l.pi - phi);
  }

  lemma ArcSine(l: Library, z: real, h: real)
    requires Exact(l) && 0.0 <= z <= 1.0 && h == -l.asin(z)
    ensures l.sin(h) == -z
  {
    Parity(l, l.asin(z));
    hide IsTrig, IsSqrt, IsAtan2;
  }

  lemma HalfWay(l: Library, theta: real, h: real, t: real, m: real)
    requires Exact(l) && 0.0 < l.pi && t == Mod2Pi(l, theta + h + l.pi) && m == t - h
    ensures l.cos(m) == -l.cos(theta) && l.sin(m) == -l.sin(theta)
  {
    hide Exact, Mod2Pi, Congruent;
    Mod2PiCongruent(l, theta + h + l.pi);
    CongruentRefl(l, h);
    CongruentSum(l, t, h, theta + h + l.pi, h);
    SamePoint(l, m, theta + l.pi);
    HalfTurn(l, theta, theta + l.pi);
  }

  lemma Chord(l: Library, m: real, h: real, a: real, b: real)
    requires Exact(l) && a == m + h && b == m - h
    ensures l.sin(a) - l.sin(b) == 2.0 * (l.cos(m) * l.sin(h)) && -l.cos(a) + l.cos(b) == 2.0 * (l.sin(m) * l.sin(h))
  {
    hide Exact;
    Sum(l, m, h, a);
    Difference(l, m, h, b);
  }

  lemma QuarterChord(u1: real, sh: real, cm: real, sm: real, c: real, s: real, xi: real, eta: real)
    requires sh == -(0.25 * u1) && cm == -c && sm == -s && u1 * c == xi && u1 * s == eta
    ensures 2.0 * (2.0 * (cm * sh)) == xi && 2.0 * (2.0 * (sm * sh)) == eta
  {
    assert cm * sh == 0.25 * (u1 * c) && sm * sh == 0.25 * (u1 * s);
  }

  lemma LpRmLSound(l: Library, zero: real, x: real, y: real, phi: real, t: real, u: real, v: real)
    requires Exact(l) && 0.0 < l.pi && SolveLpRmL(l, zero, x, y, phi) == Solution(t, u, v)
    ensures Equations(l, LpRmL, x, y, phi, t, u, v)
  {
    hide Exact, Mod2Pi, Congruent, Radius, Angle;
    var xi, eta := x - l.sin(phi), y - 1.0 + l.cos(phi);
    var u1, theta := Radius(l, xi, eta), Angle(l, xi, eta);
    Polar(l, xi, eta, u1, theta);
    var h := 0.5 * u;
    ArcSine(l, 0.25 * u1, h);
    var m := t - h;
    HalfWay(l, theta, h, t, m);
    Chord(l, m, h, t, t - u);
    QuarterChord(u1, l.sin(h), l.cos(m), l.sin(m), l.cos(theta), l.sin(theta), xi, eta);
    ModSum(l, v, phi - t + u, t - u, phi, t - u - (phi - t + u));
  }

  lemma LpRmSmRmSound(l: Library, zero: real, x: real, y: real, phi: real, t: real, u: real, v: real)
    requires Exact(l) && 0.0 < l.pi && SolveLpRmSmRm(l, zero, x, y, phi) == Solution(t, u, v)
    ensures Equations(l, LpRmSmRm, x, y, phi, t, u, v)
  {
    hide Exact, Mod2Pi, Congruent, Radius, Angle;
    var xi, eta := x + l.sin(phi), y - 1.0 - l.cos(phi);
    var rho := Radius(l, -eta, xi);
    Polar(l, -eta, xi, rho, t);
    var st, ct := l.sin(t), l.cos(t);
    assert u * st == 2.0 * st - rho * st && u * ct == 2.0 * ct - rho * ct;
    ModSum(l, v, t + 0.5 * l.pi - phi, t, 2.0 * t + 0.5 * l.pi - phi, phi - 0.5 * l.pi);
    SamePoint(l, t - v, phi - 0.5 * l.pi);
    QuarterTurn(l, phi - 0.5 * l.pi, phi);
    ModSum(l, v, t + 0.5 * l.pi - phi, t + 0.5 * l.pi, 2.0 * t + l.pi - phi, phi);
  }

  lemma NegatedFactor(w: real, e: real, u: real)
    requires w == 4.0 - u
    ensures (u - 4.0) * e == -(w * e)
  {
  }

  lemma TwoRotations(w: real, xi: real, eta: real, square: real, p: real, q: real)
    requires w * w == square - 4.0 && xi * xi + eta * eta == square
    requires p == w * xi - 2.0 * eta && q == -2.0 * xi - w * eta
    ensures q * q + p * p == square * square
  {
    assert q * q + p * p == (w * w + 4.0) * (xi * xi + eta * eta);
  }

  lemma Cancel(k: real, a: real, b: real)
    requires 0.0 < k && k * a == k * b
    ensures a == b
  {
    assert k * (a - b) == 0.0;
    MulSign(k, a - b);
  }

  lemma SolvedPair(w: real, xi: real, eta: real, square: real, p: real, q: real, st: real, ct: real)
    requires w * w == square - 4.0 && 0.0 < square && p == w * xi - 2.0 * eta && q == -2.0 * xi - w * eta
    requires square * st == p && square * ct == q
    ensures w * st - 2.0 * ct == xi && -w * ct - 2.0 * st == eta
  {
    assert square * (w * st - 2.0 * ct) == w * p - 2.0 * q;
    assert w * p - 2.0 * q == (w * w + 4.0) * xi;
    assert square * (-w * ct - 2.0 * st) == -w * q - 2.0 * p;
    assert -w * q - 2.0 * p == (w * w + 4.0) * eta;
    Cancel(square, w * st - 2.0 * ct, xi);
    Cancel(square, -w * ct - 2.0 * st, eta);
  }

  lemma SolvedSlack(l: Library, xi: real, eta: real, rho: real, w: real, u: real, p: real, q: real, t: real)
    requires Exact(l) && 0.0 < l.pi && 2.0 <= rho && rho * rho == xi * xi + eta * eta && w == l.sqrt(Squared(rho) - 4.0)
    requires u == 4.0 - w && p == Opposite(u, xi, eta) && q == Adjacent(u, xi, eta)
    requires t == Mod2Pi(l, l.atan2(p, q))
    ensures w * l.sin(t) - 2.0 * l.cos(t) == xi && -w * l.cos(t) - 2.0 * l.sin(t) == eta
  {
    hide Exact, Mod2Pi;
    AtLeastTwo(rho);
    Leg(l, rho, w);
    NegatedFactor(w, eta, u);
    var square := rho * rho;
    TwoRotations(w, xi, eta, square, p, q);
    RootOfSquare(l, q * q + p * p, square);
    Atan2(l, q, p, square);
    ModPoint(l, t, l.atan2(p, q));
    SolvedPair(w, xi, eta, square, p, q, l.sin(t), l.cos(t));
  }

  lemma LpRmSLmRpPoint(l: Library, xi: real, eta: real, t: real, u: real)
    requires Exact(l) && 0.0 < l.pi && 2.0 <= Radius(l, xi, eta)
    requires u == 4.0 - l.sqrt(Squared(Radius(l, xi, eta)) - 4.0)
    requires t == Mod2Pi(l, l.atan2(Opposite(u, xi, eta), Adjacent(u, xi, eta)))
    ensures 4.0 * l.sin(t) - 2.0 * l.cos(t) - Times(u, l.sin(t)) == xi
    ensures -4.0 * l.cos(t) - 2.0 * l.sin(t) + Times(u, l.cos(t)) == eta
  {
    hide Exact, Mod2Pi, Radius, Angle, Squared, Opposite, Adjacent;
    var rho := Radius(l, xi, eta);
    Polar(l, xi, eta, rho, Angle(l, xi, eta));
    var w := l.sqrt(Squared(rho) - 4.0);
    SolvedSlack(l, xi, eta, rho, w, u, Opposite(u, xi, eta), Adjacent(u, xi, eta), t);
    Shortened(u, 4.0, w, l.sin(t), l.cos(t));
  }

  lemma LpRmSLmRpSound(l: Library, zero: real, x: real, y: real, phi: real, t: real, u: real, v: real)
    requires Exact(l) && 0.0 < l.pi && SolveLpRmSLmRp(l, zero, x, y, phi) == Solution(t, u, v)
    ensures Equations(l, LpRmSLmRp, x, y, phi, t, u, v)
  {
    hide Exact, Mod2Pi, Congruent, Radius, Squared, Opposite, Adjacent, Times;
    LpRmSLmRpPoint(l, x + l.sin(phi), y - 1.0 - l.cos(phi), t, u);
    ModSum(l, v, t - phi, t, t + (t - phi), phi);
  }

  // ----- tauOmega -----

  function TauY(a: real, b: real, xi: real, eta: real): real {
    eta * a - xi * b
  }

  function TauX(a: real, b: real, xi: real, eta: real): real {
    xi * a + eta * b
  }

  lemma TauRadius(a: real, b: real, xi: real, eta: real, d: real)
    requires d == a * a + b * b && xi * xi + eta * eta == 4.0 * d
    ensures var p, q := TauY(a, b, xi, eta), TauX(a, b, xi, eta); q * q + p * p == (2.0 * d) * (2.0 * d)
  {
    var p, q := TauY(a, b, xi, eta), TauX(a, b, xi, eta);
    assert q * q + p * p == (xi * xi + eta * eta) * (a * a + b * b);
  }

  lemma ZeroSquares(a: real, b: real)
    requires a * a + b * b <= 0.0
    ensures a == 0.0 && b == 0.0
  {
    MulSign(a, a);
    MulSign(b, b);
    NonpositiveSquare(a);
    NonpositiveSquare(b);
  }

  lemma TauTurned(a: real, b: real, xi: real, eta: real, d: real)
    requires d == a * a + b * b
    ensures a * TauX(a, b, xi, eta) - b * TauY(a, b, xi, eta) == d * xi
    ensures a * TauY(a, b, xi, eta) + b * TauX(a, b, xi, eta) == d * eta
  {
    assert a * (xi * a + eta * b) - b * (eta * a - xi * b) == xi * (a * a + b * b);
    assert a * (eta * a - xi * b) + b * (xi * a + eta * b) == eta * (a * a + b * b);
  }

  lemma TauScaled(a: real, b: real, d: real, ct: real, st: real, p: real, q: real)
    requires 2.0 * d * ct == p && 2.0 * d * st == q
    ensures d * (2.0 * (a * ct - b * st)) == a * p - b * q && d * (2.0 * (a * st + b * ct)) == a * q + b * p
  {
    assert a * (2.0 * d * ct) == d * (2.0 * (a * ct)) && b * (2.0 * d * st) == d * (2.0 * (b * st));
    assert a * (2.0 * d * st) == d * (2.0 * (a * st)) && b * (2.0 * d * ct) == d * (2.0 * (b * ct));
  }

  lemma CancelTo(d: real, x: real, y: real, m: real)
    requires 0.0 < d && d * x == m && m == d * y
    ensures x == y
  {
    Cancel(d, x, y);
  }

  lemma TauPositive(a: real, b: real, xi: real, eta: real, d: real, ct: real, st: real, p: real, q: real)
    requires 0.0 < d && a * p - b * q == d * xi && a * q + b * p == d * eta
    requires 2.0 * d * ct == p && 2.0 * d * st == q
    ensures 2.0 * (a * ct - b * st) == xi && 2.0 * (a * st + b * ct) == eta
  {
    TauScaled(a, b, d, ct, st, p, q);
    CancelTo(d, 2.0 * (a * ct - b * st), xi, a * p - b * q);
    CancelTo(d, 2.0 * (a * st + b * ct), eta, a * q + b * p);
  }

  lemma TauPair(a: real, b: real, xi: real, eta: real, d: real, ct: real, st: real)
    requires d == a * a + b * b && xi * xi + eta * eta == 4.0 * d
    requires 2.0 * d * ct == TauX(a, b, xi, eta) && 2.0 * d * st == TauY(a, b, xi, eta)
    ensures 2.0 * (a * ct - b * st) == xi && 2.0 * (a * st + b * ct) == eta
  {
    hide TauX, TauY;
    SquaresNonnegative(a, b);
    if d > 0.0 {
      TauTurned(a, b, xi, eta, d);
      TauPositive(a, b, xi, eta, d, ct, st, TauX(a, b, xi, eta), TauY(a, b, xi, eta));
    } else {
      ZeroSquares(a, b);
      ZeroSquares(xi, eta);
    }
  }

  /** The angle t1 solves 2 (a cos t - b sin t) == xi and 2 (a sin t + b cos t) == eta. */
  lemma TauSolves(l: Library, a: real, b: real, xi: real, eta: real, t: real)
    requires Exact(l) && 0.0 < l.pi && xi * xi + eta * eta == 4.0 * (a * a + b * b)
    requires t == Mod2Pi(l, l.atan2(TauY(a, b, xi, eta), TauX(a, b, xi, eta)))
    ensures 2.0 * (a * l.cos(t) - b * l.sin(t)) == xi && 2.0 * (a * l.sin(t) + b * l.cos(t)) == eta
  {
    hide Exact, Mod2Pi, TauX, TauY;
    var d, p, q := a * a + b * b, TauY(a, b, xi, eta), TauX(a, b, xi, eta);
    SquaresNonnegative(a, b);
    TauRadius(a, b, xi, eta, d);
    RootOfSquare(l, q * q + p * p, 2.0 * d);
    Atan2(l, q, p, 2.0 * d);
    ModPoint(l, t, l.atan2(p, q));
    TauPair(a, b, xi, eta, d, l.cos(t), l.sin(t));
  }

  function TauOmega(l: Library, u: real, v: real, xi: real, eta: real, phi: real): (r: (real, real))
    requires 0.0 < l.pi
  {
    var delta := Mod2Pi(l, u - v);
    var a, b := l.sin(u) - l.sin(delta), l.cos(u) - l.cos(delta) - 1.0;
    var t1 := l.atan2(TauY(a, b, xi, eta), TauX(a, b, xi, eta));
    var t2 := 2.0 * (l.cos(delta) - l.cos(v) - l.cos(u)) + 3.0;
    var tau := if t2 < 0.0 then Mod2Pi(l, t1 + l.pi) else Mod2Pi(l, t1);
    (tau, Mod2Pi(l, tau - u + v - phi))
  }

  /** tauOmega in the two uses the code makes of it. */
  lemma TauOmegaSolves(l: Library, u: real, w: real, delta: real, a: real, b: real,
                       xi: real, eta: real, phi: real, t: real, v: real)
    requires Exact(l) && 0.0 < l.pi && TauOmega(l, u, w, xi, eta, phi) == (t, v) && delta == Mod2Pi(l, u - w)
    requires a == l.sin(u) - l.sin(delta) && b == l.cos(u) - l.cos(delta) - 1.0
    requires 0.0 <= 2.0 * (l.cos(delta) - l.cos(w) - l.cos(u)) + 3.0
    requires xi * xi + eta * eta == 4.0 * (a * a + b * b)
    ensures 2.0 * (a * l.cos(t) - b * l.sin(t)) == xi && 2.0 * (a * l.sin(t) + b * l.cos(t)) == eta
    ensures v == Mod2Pi(l, t - u + w - phi)
  {
    hide Exact, Mod2Pi, TauX, TauY;
    assert t == Mod2Pi(l, l.atan2(TauY(a, b, xi, eta), TauX(a, b, xi, eta)));
    TauSolves(l, a, b, xi, eta, t);
  }

  /** With v == -u, the distance is 4 cos u - 2. */
  lemma CrossedDistance(su: real, cu: real, s2: real, c2: real, r: real, a: real, b: real, square: real)
    requires cu * cu + su * su == 1.0 && s2 == 2.0 * (su * cu) && c2 == cu * cu - su * su
    requires cu == 0.25 * (2.0 + r) && square == r * r && a == su - s2 && b == cu - c2 - 1.0
    ensures square == 4.0 * (a * a + b * b) && 0.0 <= 2.0 * (c2 - cu - cu) + 3.0
  {
    var k := 2.0 * cu - 1.0;
    assert c2 == 2.0 * (cu * cu) - 1.0;
    assert r == 2.0 * k && r * r == 4.0 * (k * k);
    assert b == cu * (1.0 - 2.0 * cu) && a == su * (1.0 - 2.0 * cu);
    assert a * a + b * b == (k * k) * (su * su + cu * cu);
    assert 2.0 * (c2 - cu - cu) + 3.0 == k * k;
    MulSign(k, k);
  }

  function SolveLpRupLumRm(l: Library, zero: real, x: real, y: real, phi: real): Solution
    requires 0.0 < l.pi
  {
    var xi, eta := x + l.sin(phi), y - 1.0 - l.cos(phi);
    var rho := 0.25 * (2.0 + Radius(l, xi, eta));
    if rho <= 1.0 then
      var u := l.acos(rho);
      var (t, v) := TauOmega(l, u, -u, xi, eta, phi);
      Accept(t >= -zero && v <= zero, t, u, v)
    else NoSolution
  }

  lemma ArcCosine(l: Library, z: real, u: real)
    requires Exact(l) && 0.0 <= z <= 1.0 && (u == l.acos(z) || u == -l.acos(z))
    ensures l.cos(u) == z
  {
    Parity(l, l.acos(z));
    hide IsTrig, IsSqrt, IsAtan2;
  }

  lemma DoubleDifference(l: Library, t: real, u: real, delta: real)
    requires Exact(l) && 0.0 < l.pi && delta == Mod2Pi(l, u - -u)
    ensures l.sin(t - 2.0 * u) == l.sin(t) * l.cos(delta) - l.cos(t) * l.sin(delta)
    ensures l.cos(t - 2.0 * u) == l.cos(t) * l.cos(delta) + l.sin(t) * l.sin(delta)
  {
    hide Exact, Mod2Pi;
    ModPoint(l, delta, u - -u);
    Difference(l, t, u - -u, t - 2.0 * u);
  }

  lemma CrossedSum(st: real, ct: real, su: real, cu: real, s2: real, c2: real, a: real, b: real)
    requires a == su - s2 && b == cu - c2 - 1.0
    ensures 2.0 * (st - (st * cu - ct * su) + (st * c2 - ct * s2)) == 2.0 * (a * ct - b * st)
    ensures 2.0 * (-ct + (ct * cu + st * su) - (ct * c2 + st * s2)) == 2.0 * (a * st + b * ct)
  {
  }

  lemma CrossedPoint(l: Library, t: real, u: real, delta: real, a: real, b: real)
    requires Exact(l) && 0.0 < l.pi && delta == Mod2Pi(l, u - -u)
    requires a == l.sin(u) - l.sin(delta) && b == l.cos(u) - l.cos(delta) - 1.0
    ensures 2.0 * (l.sin(t) - l.sin(t - u) + l.sin(t - 2.0 * u)) == 2.0 * (a * l.cos(t) - b * l.sin(t))
    ensures 2.0 * (-l.cos(t) + l.cos(t - u) - l.cos(t - 2.0 * u)) == 2.0 * (a * l.sin(t) + b * l.cos(t))
  {
    hide Exact, Mod2Pi;
    Difference(l, t, u, t - u);
    DoubleDifference(l, t, u, delta);
    CrossedSum(l.sin(t), l.cos(t), l.sin(u), l.cos(u), l.sin(delta), l.cos(delta), a, b);
  }

  /** The point part of the formula; `t` and `v` come from tauOmega. */
  lemma LpRupLumRmPoint(l: Library, xi: real, eta: real, phi: real, t: real, u: real, v: real)
    requires Exact(l) && 0.0 < l.pi && u == l.acos(0.25 * (2.0 + Radius(l, xi, eta)))
    requires Radius(l, xi, eta) <= 2.0 && TauOmega(l, u, -u, xi, eta, phi) == (t, v)
    ensures 2.0 * (l.sin(t) - l.sin(t - u) + l.sin(t - 2.0 * u)) == xi
    ensures 2.0 * (-l.cos(t) + l.cos(t - u) - l.cos(t - 2.0 * u)) == eta
    ensures v == Mod2Pi(l, t - u + -u - phi)
  {
    hide Exact, Mod2Pi, Radius, Angle, TauOmega;
    var r, delta := Radius(l, xi, eta), Mod2Pi(l, u - -u);
    Polar(l, xi, eta, r, Angle(l, xi, eta));
    ArcCosine(l, 0.25 * (2.0 + r), u);
    ModPoint(l, delta, u - -u);
    Sum(l, u, u, u - -u);
    Parity(l, u);
    Pythagoras(l, u);
    var su, cu, s2, c2 := l.sin(u), l.cos(u), l.sin(delta), l.cos(delta);
    var a, b := su - s2, cu - c2 - 1.0;
    CrossedDistance(su, cu, s2, c2, r, a, b, xi * xi + eta * eta);
    TauOmegaSolves(l, u, -u, delta, a, b, xi, eta, phi, t, v);
    CrossedPoint(l, t, u, delta, a, b);
  }

  lemma LpRupLumRmSound(l: Library, zero: real, x: real, y: real, phi: real, t: real, u: real, v: real)
    requires Exact(l) && 0.0 < l.pi && SolveLpRupLumRm(l, zero, x, y, phi) == Solution(t, u, v)
    ensures Equations(l, LpRupLumRm, x, y, phi, t, u, v)
  {
    hide Exact, Mod2Pi, Congruent, Radius, TauOmega;
    LpRupLumRmPoint(l, x + l.sin(phi), y - 1.0 - l.cos(phi), phi, t, u, v);
    ModSum(l, v, t - u + -u - phi, t - 2.0 * u, 2.0 * t - 4.0 * u - phi, phi);
  }

  /** With v == u, the squared distance is 20 - 16 cos u. */
  lemma ParallelDistance(su: real, cu: real, a: real, b: real, xi: real, eta: real)
    requires cu * cu + su * su == 1.0 && cu == ParallelCosine(xi, eta) && cu <= 1.0 && a == su && b == cu - 2.0
    ensures xi * xi + eta * eta == 4.0 * (a * a + b * b) && 0.0 <= 2.0 * (1.0 - cu - cu) + 3.0
  {
    assert a * a + b * b == (cu * cu + su * su) - 4.0 * cu + 4.0;
  }

  function SolveLpRumLumRp(l: Library, zero: real, x: real, y: real, phi: real): Solution
    requires 0.0 < l.pi
  {
    var xi, eta := x + l.sin(phi), y - 1.0 - l.cos(phi);
    var rho := ParallelCosine(xi, eta);
    if 0.0 <= rho <= 1.0 then
      var u := -l.acos(rho);
      if u >= -0.5 * l.pi then
        var (t, v) := TauOmega(l, u, u, xi, eta, phi);
        Accept(t >= -zero && v >= -zero, t, u, v)
      else NoSolution
    else NoSolution
  }

  lemma ParallelSum(st: real, ct: real, su: real, cu: real)
    ensures 4.0 * st - 2.0 * (st * cu - ct * su) == 2.0 * (su * ct - (cu - 2.0) * st)
    ensures -4.0 * ct + 2.0 * (ct * cu + st * su) == 2.0 * (su * st + (cu - 2.0) * ct)
  {
  }

  lemma LpRumLumRpSound(l: Library, zero: real, x: real, y: real, phi: real, t: real, u: real, v: real)
    requires Exact(l) && 0.0 < l.pi && SolveLpRumLumRp(l, zero, x, y, phi) == Solution(t, u, v)
    ensures Equations(l, LpRumLumRp, x, y, phi, t, u, v)
  {
    hide Exact, Mod2Pi, Congruent, TauOmega, ParallelCosine;
    var xi, eta := x + l.sin(phi), y - 1.0 - l.cos(phi);
    var delta := Mod2Pi(l, u - u);
    ArcCosine(l, ParallelCosine(xi, eta), u);
    ModPoint(l, delta, u - u);
    AtZero(l);
    Pythagoras(l, u);
    var su, cu := l.sin(u), l.cos(u);
    ParallelDistance(su, cu, su, cu - 2.0, xi, eta);
    TauOmegaSolves(l, u, u, delta, su, cu - 2.0, xi, eta, phi, t, v);
    Difference(l, t, u, t - u);
    ParallelSum(l.sin(t), l.cos(t), su, cu);
    ModSum(l, v, t - u + u - phi, t, t + (t - phi), phi);
  }

  /** Lengths within `zero` of the right sign are accepted. */
  function Solve(l: Library, zero: real, f: Formula, x: real, y: real, phi: real): Solution
    requires 0.0 < l.pi
  {
    match f
    case LpSpLp => SolveLpSpLp(l, zero, x, y, phi)
    case LpSpRp => SolveLpSpRp(l, zero, x, y, phi)
    case LpRmL => SolveLpRmL(l, zero, x, y, phi)
    case LpRupLumRm => SolveLpRupLumRm(l, zero, x, y, phi)
    case LpRumLumRp => SolveLpRumLumRp(l, zero, x, y, phi)
    case LpRmSmLm => SolveLpRmSmLm(l, zero, x, y, phi)
    case LpRmSmRm => SolveLpRmSmRm(l, zero, x, y, phi)
    case LpRmSLmRp => SolveLpRmSLmRp(l, zero, x, y, phi)
  }

  /** Every solution a formula returns satisfies the equations it asserts. */
  lemma FormulaSound(l: Library, zero: real, f: Formula, x: real, y: real, phi: real)
    requires Exact(l) && 0.0 < l.pi && Solve(l, zero, f, x, y, phi).Solution?
    ensures var s := Solve(l, zero, f, x, y, phi); Equations(l, f, x, y, phi, s.t, s.u, s.v)
  {
    hide Exact, Equations, SolveLpSpLp, SolveLpSpRp, SolveLpRmL, SolveLpRupLumRm, SolveLpRumLumRp, SolveLpRmSmLm,
         SolveLpRmSmRm, SolveLpRmSLmRp;
    var s := Solve(l, zero, f, x, y, phi);
    match f
    case LpSpLp => LpSpLpSound(l, zero, x, y, phi, s.t, s.u, s.v);
    case LpSpRp => LpSpRpSound(l, zero, x, y, phi, s.t, s.u, s.v);
    case LpRmL => LpRmLSound(l, zero, x, y, phi, s.t, s.u, s.v);
    case LpRupLumRm => LpRupLumRmSound(l, zero, x, y, phi, s.t, s.u, s.v);
    case LpRumLumRp => LpRumLumRpSound(l, zero, x, y, phi, s.t, s.u, s.v);
    case LpRmSmLm => LpRmSmLmSound(l, zero, x, y, phi, s.t, s.u, s.v);
    case LpRmSmRm => LpRmSmRmSound(l, zero, x, y, phi, s.t, s.u, s.v);
    case LpRmSLmRp => LpRmSLmRpSound(l, zero, x, y, phi, s.t, s.u, s.v);
  }
}
