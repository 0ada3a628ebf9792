/**
 * Which lengths the closed formulas find: every solution they return lies in the range of its
 * formula, and every solution of the equations in that range is returned.
 */
module ReedsSheppRanges {
  import opened Reals
  import opened Trigonometry
  import opened ReedsSheppFormulas

  // ----- Angles are determined by sine and cosine -----

  lemma SinePositive(l: Library, x: real)
    requires Principal(l) && 0.0 < x < l.pi
    ensures 0.0 < l.sin(x)
  {
  }

  lemma AngleZero(l: Library, a: real)
    requires Exact(l) && Principal(l) && l.sin(a) == 0.0 && l.cos(a) == 1.0 && -2.0 * l.pi < a < 2.0 * l.pi
    ensures a == 0.0
  {
    hide Exact, Principal;
    Quarter(l);
    Parity(l, a);
    var b := Abs(a);
    assert l.sin(b) == 0.0 && l.cos(b) == 1.0;
    if 0.0 < b < l.pi {
      SinePositive(l, b);
    } else if b == l.pi {
      HalfTurn(l, 0.0, l.pi);
      AtZero(l);
    } else if l.pi < b {
      SinePositive(l, b - l.pi);
      HalfTurn(l, b - l.pi, b);
    }
  }

  lemma PointDifference(ca: real, sa: real, cb: real, sb: real)
    requires ca == cb && sa == sb && cb * cb + sb * sb == 1.0
    ensures sa * cb - ca * sb == 0.0 && ca * cb + sa * sb == 1.0
  {
  }

  /** Angles less than a whole turn apart with the same sine and cosine are the same. */
  lemma AngleUnique(l: Library, a: real, b: real)
    requires Exact(l) && Principal(l) && -2.0 * l.pi < a - b < 2.0 * l.pi
    requires l.sin(a) == l.sin(b) && l.cos(a) == l.cos(b)
    ensures a == b
  {
    hide Exact, Principal;
    Difference(l, a, b, a - b);
    Pythagoras(l, b);
    PointDifference(l.cos(a), l.sin(a), l.cos(b), l.sin(b));
    AngleZero(l, a - b);
  }

  /** The angle strictly between -pi and pi that has the sine and cosine of `a`. */
  lemma Mod2PiIs(l: Library, a: real, t: real)
    requires Exact(l) && Principal(l) && 0.0 < l.pi && -l.pi < t < l.pi
    requires l.sin(a) == l.sin(t) && l.cos(a) == l.cos(t)
    ensures Mod2Pi(l, a) == t
  {
    hide Exact, Principal, Mod2Pi;
    Mod2PiRange(l, a);
    ModPoint(l, Mod2Pi(l, a), a);
    AngleUnique(l, Mod2Pi(l, a), t);
  }

  lemma Mod2PiOf(l: Library, a: real, t: real)
    requires Exact(l) && Principal(l) && 0.0 < l.pi && -l.pi < t < l.pi && Congruent(l, t, a)
    ensures Mod2Pi(l, a) == t
  {
    hide Exact, Principal, Mod2Pi, Congruent;
    SamePoint(l, t, a);
    Mod2PiIs(l, a, t);
  }

  lemma AtanRange(l: Library, x: real, y: real)
    requires Principal(l)
    ensures -l.pi <= l.atan2(y, x) <= l.pi
  {
  }

  lemma OnCircle(r: real, c: real, s: real, x: real, y: real)
    requires c * c + s * s == 1.0 && r * c == x && r * s == y
    ensures x * x + y * y == r * r
  {
    assert (r * c) * (r * c) + (r * s) * (r * s) == (r * r) * (c * c + s * s);
  }

  /** The angle of a point given in polar form. */
  lemma Atan2Is(l: Library, x: real, y: real, r: real, t: real)
    requires Exact(l) && Principal(l) && 0.0 < l.pi && -l.pi < t < l.pi && 0.0 < r
    requires r * l.cos(t) == x && r * l.sin(t) == y
    ensures l.sqrt(x * x + y * y) == r && l.atan2(y, x) == t
  {
    hide Exact, Principal;
    Pythagoras(l, t);
    OnCircle(r, l.cos(t), l.sin(t), x, y);
    RootOfSquare(l, x * x + y * y, r);
    Atan2(l, x, y, r);
    AtanRange(l, x, y);
    CancelTo(r, l.cos(l.atan2(y, x)), l.cos(t), x);
    CancelTo(r, l.sin(l.atan2(y, x)), l.sin(t), y);
    AngleUnique(l, l.atan2(y, x), t);
  }

  lemma PolarIs(l: Library, x: real, y: real, r: real, t: real)
    requires Exact(l) && Principal(l) && 0.0 < l.pi && -l.pi < t < l.pi && 0.0 < r
    requires Times(r, l.cos(t)) == x && Times(r, l.sin(t)) == y
    ensures Radius(l, x, y) == r && Angle(l, x, y) == t
  {
    hide Exact, Principal;
    Atan2Is(l, x, y, r, t);
  }

  lemma SineNonnegative(l: Library, x: real)
    requires Exact(l) && Principal(l) && 0.0 <= x <= l.pi
    ensures 0.0 <= l.sin(x)
  {
    AtZero(l);
    HalfTurn(l, 0.0, l.pi);
    if 0.0 < x < l.pi {
      SinePositive(l, x);
    }
  }

  lemma CosineNonnegative(l: Library, x: real)
    requires Exact(l) && Principal(l) && -0.5 * l.pi <= x <= 0.5 * l.pi
    ensures 0.0 <= l.cos(x)
  {
    hide Exact, Principal;
    SineNonnegative(l, x + 0.5 * l.pi);
    QuarterTurn(l, x, x + 0.5 * l.pi);
  }

  lemma OtherLeg(c: real, s: real, c': real, s': real)
    requires c * c + s * s == 1.0 && c' * c' + s' * s' == 1.0 && s == s' && 0.0 <= c && 0.0 <= c'
    ensures c == c'
  {
    SameRoot(c, c');
  }

  lemma InverseValues(l: Library, z: real)
    requires Exact(l) && Principal(l) && -1.0 <= z <= 1.0
    ensures l.sin(l.asin(z)) == z && -0.5 * l.pi <= l.asin(z) <= 0.5 * l.pi
    ensures l.cos(l.acos(z)) == z && 0.0 <= l.acos(z) <= l.pi
  {
    hide IsTrig, IsAtan2, IsSqrt;
  }

  lemma AsinIs(l: Library, z: real, h: real)
    requires Exact(l) && Principal(l) && -0.5 * l.pi <= h <= 0.5 * l.pi && z == l.sin(h) && -1.0 <= z <= 1.0
    ensures l.asin(z) == h
  {
    hide Exact, Principal;
    Quarter(l);
    InverseValues(l, z);
    CosineNonnegative(l, h);
    CosineNonnegative(l, l.asin(z));
    Pythagoras(l, h);
    Pythagoras(l, l.asin(z));
    OtherLeg(l.cos(h), l.sin(h), l.cos(l.asin(z)), l.sin(l.asin(z)));
    AngleUnique(l, l.asin(z), h);
  }

  lemma AcosIs(l: Library, z: real, u: real)
    requires Exact(l) && Principal(l) && 0.0 <= u <= l.pi && z == l.cos(u) && -1.0 <= z <= 1.0
    ensures l.acos(z) == u
  {
    hide Exact, Principal;
    Quarter(l);
    InverseValues(l, z);
    SineNonnegative(l, u);
    SineNonnegative(l, l.acos(z));
    Pythagoras(l, u);
    Pythagoras(l, l.acos(z));
    OtherLeg(l.sin(u), l.cos(u), l.sin(l.acos(z)), l.cos(l.acos(z)));
    AngleUnique(l, l.acos(z), u);
  }

  lemma PositiveProduct(x: real, y: real, p: real)
    requires 0.0 < x && 0.0 < y && p == x * y
    ensures 0.0 < p
  {
    MulSign(x, y);
  }

  lemma PointProducts(p: real, q: real, ct: real, st: real)
    ensures (p * st + q * ct) * q - (q * st - p * ct) * p == (q * q + p * p) * ct
    ensures (q * st - p * ct) * q + (p * st + q * ct) * p == (q * q + p * p) * st
  {
  }

  lemma RotateProducts(r: real, c1: real, s1: real, ca: real, sa: real, p: real, q: real)
    requires r * ca == q && r * sa == p
    ensures (r * r) * (c1 * ca - s1 * sa) == (r * c1) * q - (r * s1) * p
    ensures (r * r) * (s1 * ca + c1 * sa) == (r * s1) * q + (r * c1) * p
  {
    assert (r * r) * (c1 * ca) == (r * c1) * (r * ca) && (r * r) * (s1 * sa) == (r * s1) * (r * sa);
    assert (r * r) * (s1 * ca) == (r * s1) * (r * ca) && (r * r) * (c1 * sa) == (r * c1) * (r * sa);
  }

  lemma RotateOn(r: real, c1: real, s1: real, ca: real, sa: real, p: real, q: real, ct: real, st: real)
    requires 0.0 < r && r * r == q * q + p * p && r * ca == q && r * sa == p
    requires p * st + q * ct == r * c1 && q * st - p * ct == r * s1
    ensures c1 * ca - s1 * sa == ct && s1 * ca + c1 * sa == st
  {
    var rr := r * r;
    PositiveProduct(r, r, rr);
    RotateProducts(r, c1, s1, ca, sa, p, q);
    PointProducts(p, q, ct, st);
    CancelTo(rr, c1 * ca - s1 * sa, ct, (r * c1) * q - (r * s1) * p);
    CancelTo(rr, s1 * ca + c1 * sa, st, (r * s1) * q + (r * c1) * p);
  }

  /** The angle of a turned point, as the formulas reduce it. */
  lemma TurnIs(l: Library, r: real, t1: real, p: real, q: real, t: real)
    requires Exact(l) && Principal(l) && 0.0 < l.pi && 0.0 < r && r * r == q * q + p * p && -l.pi < t < l.pi
    requires p * l.sin(t) + q * l.cos(t) == r * l.cos(t1) && q * l.sin(t) - p * l.cos(t) == r * l.sin(t1)
    ensures Mod2Pi(l, t1 + l.atan2(p, q)) == t
  {
    hide Exact, Principal, Mod2Pi;
    var a := l.atan2(p, q);
    RootOfSquare(l, q * q + p * p, r);
    Atan2(l, q, p, r);
    Sum(l, t1, a, t1 + a);
    RotateOn(r, l.cos(t1), l.sin(t1), l.cos(a), l.sin(a), p, q, l.cos(t), l.sin(t));
    Mod2PiIs(l, t1 + a, t);
  }

  /** Congruence only depends on the difference, up to sign. */
  lemma Rearranged(l: Library, a: real, b: real, c: real, d: real)
    requires Congruent(l, a, b) && (a - b == c - d || a - b == d - c)
    ensures Congruent(l, c, d)
  {
    var k :| TurnsApart(l, a, b, k);
    assert TurnsApart(l, c, d, k) || TurnsApart(l, c, d, -k);
  }

  // ----- The lengths each formula looks for -----

  /** A turn by less than half a turn forwards. */
  predicate Ahead(l: Library, a: real) {
    0.0 <= a < l.pi
  }

  /** A turn by less than half a turn backwards. */
  predicate Back(l: Library, a: real) {
    -l.pi < a <= 0.0
  }

  /** The signs in the formula's name, and turns by less than half a turn. */
  predicate InRange(l: Library, f: Formula, t: real, u: real, v: real) {
    Ahead(l, t) &&
    match f
    case LpSpLp => 0.0 < u && Ahead(l, v)
    case LpSpRp => 0.0 <= u && Ahead(l, v)
    case LpRmL => -l.pi <= u < 0.0 && -l.pi < v < l.pi
    case LpRupLumRm => 0.0 <= u <= l.pi && 0.5 < l.cos(u) && Back(l, v)
    case LpRumLumRp => -0.5 * l.pi <= u <= 0.0 && Ahead(l, v)
    case LpRmSmLm => u <= 0.0 && Back(l, v)
    case LpRmSmRm => u <= 0.0 && Back(l, v)
    case LpRmSLmRp => u <= 0.0 && Ahead(l, v)
  }

  lemma LpSpLpFound(l: Library, zero: real, x: real, y: real, phi: real, t: real, u: real, v: real)
    requires Exact(l) && Principal(l) && 0.0 < l.pi && 0.0 <= zero && InRange(l, LpSpLp, t, u, v)
    requires Equations(l, LpSpLp, x, y, phi, t, u, v)
    ensures SolveLpSpLp(l, zero, x, y, phi) == Solution(t, u, v)
  {
    hide Exact, Principal, Mod2Pi, Congruent, Radius, Angle, Times;
    PolarIs(l, x - l.sin(phi), y - 1.0 + l.cos(phi), u, t);
    Rearranged(l, t + v, phi, v, phi - t);
    Mod2PiOf(l, phi - t, v);
  }

  lemma SumOfSquares(p: real, q: real, st: real, ct: real, xi: real, eta: real)
    requires ct * ct + st * st == 1.0 && xi == p * st + q * ct && eta == q * st - p * ct
    ensures xi * xi + eta * eta == q * q + p * p
  {
    assert xi * xi + eta * eta == (q * q + p * p) * (ct * ct + st * st);
  }

  lemma Nonnegative(x: real, y: real, p: real)
    requires x == y && p == x * y
    ensures 0.0 <= p
  {
    MulSign(x, y);
  }

  lemma AtLeastTwoOf(r: real, leg: real)
    requires 0.0 <= r && r * r == leg * leg + 4.0
    ensures 2.0 <= r
  {
    Nonnegative(leg, leg, leg * leg);
    MulSign(2.0 - r, 2.0 + r);
    assert (2.0 - r) * (2.0 + r) == 4.0 - r * r;
  }

  /** The radius of a point that is a turned right triangle, and its other leg. */
  lemma Hypotenuse(l: Library, leg: real, p: real, q: real, xi: real, eta: real, r: real)
    requires Exact(l) && xi * xi + eta * eta == q * q + p * p && q * q + p * p == leg * leg + 4.0 && 0.0 <= leg
    requires r == Radius(l, xi, eta)
    ensures 2.0 <= r && r * r == q * q + p * p && l.sqrt(Squared(r) - 4.0) == leg
  {
    hide Exact;
    SquaresNonnegative(xi, eta);
    Root(l, xi * xi + eta * eta);
    RootOfSquare(l, Squared(r) - 4.0, leg);
    AtLeastTwoOf(r, leg);
  }

  /** A turned right triangle with legs 2 and `leg`: its radius, and the angle it was turned by. */
  lemma TriangleFound(l: Library, xi: real, eta: real, p: real, q: real, leg: real, t: real)
    requires Exact(l) && Principal(l) && 0.0 < l.pi && 0.0 <= leg && -l.pi < t < l.pi
    requires q * q + p * p == leg * leg + 4.0
    requires xi == p * l.sin(t) + q * l.cos(t) && eta == q * l.sin(t) - p * l.cos(t)
    ensures 2.0 <= Radius(l, xi, eta) && l.sqrt(Squared(Radius(l, xi, eta)) - 4.0) == leg
    ensures Mod2Pi(l, Angle(l, xi, eta) + l.atan2(p, q)) == t
  {
    hide Exact, Principal, Mod2Pi, Radius, Angle, Squared;
    var r, t1 := Radius(l, xi, eta), Angle(l, xi, eta);
    Pythagoras(l, t);
    SumOfSquares(p, q, l.sin(t), l.cos(t), xi, eta);
    Hypotenuse(l, leg, p, q, xi, eta, r);
    Polar(l, xi, eta, r, t1);
    TurnIs(l, r, t1, p, q, t);
  }

  lemma LpSpRpFound(l: Library, zero: real, x: real, y: real, phi: real, t: real, u: real, v: real)
    requires Exact(l) && Principal(l) && 0.0 < l.pi && 0.0 <= zero && InRange(l, LpSpRp, t, u, v)
    requires Equations(l, LpSpRp, x, y, phi, t, u, v)
    ensures SolveLpSpRp(l, zero, x, y, phi) == Solution(t, u, v)
  {
    hide Exact, Principal, Mod2Pi, Congruent, Radius, Angle, Squared;
    var xi, eta := x + l.sin(phi), y - 1.0 - l.cos(phi);
    TriangleFound(l, xi, eta, 2.0, u, u, t);
    AtLeastTwo(Radius(l, xi, eta));
    Rearranged(l, t - v, phi, v, t - phi);
    Mod2PiOf(l, t - phi, v);
  }

  lemma QuarterTurned(u: real, leg: real, st: real, ct: real, xi: real, eta: real)
    requires leg == 2.0 - u
    requires xi == 2.0 * (st - ct) - Times(u, st) && eta == -2.0 * (st + ct) + Times(u, ct)
    ensures xi == leg * st + -2.0 * ct && eta == -2.0 * st - leg * ct
  {
    Shortened(leg, 2.0, u, st, ct);
  }

  lemma LpRmSmLmFound(l: Library, zero: real, x: real, y: real, phi: real, t: real, u: real, v: real)
    requires Exact(l) && Principal(l) && 0.0 < l.pi && 0.0 <= zero && InRange(l, LpRmSmLm, t, u, v)
    requires Equations(l, LpRmSmLm, x, y, phi, t, u, v)
    ensures SolveLpRmSmLm(l, zero, x, y, phi) == Solution(t, u, v)
  {
    hide Exact, Principal, Mod2Pi, Congruent, Radius, Angle, Squared, Times;
    var xi, eta, leg := x - l.sin(phi), y - 1.0 + l.cos(phi), 2.0 - u;
    QuarterTurned(u, leg, l.sin(t), l.cos(t), xi, eta);
    TriangleFound(l, xi, eta, leg, -2.0, leg, t);
    Rearranged(l, t + 0.5 * l.pi + v, phi, v, phi - 0.5 * l.pi - t);
    Mod2PiOf(l, phi - 0.5 * l.pi - t, v);
  }

  lemma Remaining(u: real, rho: real, st: real, ct: real)
    requires rho == 2.0 - u
    ensures Times(rho, st) == 2.0 * st - Times(u, st) && Times(rho, ct) == 2.0 * ct - Times(u, ct)
  {
  }

  lemma LpRmSmRmFound(l: Library, zero: real, x: real, y: real, phi: real, t: real, u: real, v: real)
    requires Exact(l) && Principal(l) && 0.0 < l.pi && 0.0 <= zero && InRange(l, LpRmSmRm, t, u, v)
    requires Equations(l, LpRmSmRm, x, y, phi, t, u, v)
    ensures SolveLpRmSmRm(l, zero, x, y, phi) == Solution(t, u, v)
  {
    hide Exact, Principal, Mod2Pi, Congruent, Radius, Angle, Times;
    var xi, eta, rho := x + l.sin(phi), y - 1.0 - l.cos(phi), 2.0 - u;
    SamePoint(l, t + 0.5 * l.pi - v, phi);
    QuarterTurn(l, t - v, t + 0.5 * l.pi - v);
    Remaining(u, rho, l.sin(t), l.cos(t));
    PolarIs(l, -eta, xi, rho, t);
    Rearranged(l, t + 0.5 * l.pi - v, phi, v, t + 0.5 * l.pi - phi);
    Mod2PiOf(l, t + 0.5 * l.pi - phi, v);
  }

  lemma TwiceTurned(u: real, w: real, st: real, ct: real, xi: real, eta: real)
    requires w == 4.0 - u
    requires xi == 4.0 * st - 2.0 * ct - Times(u, st) && eta == -4.0 * ct - 2.0 * st + Times(u, ct)
    ensures xi == w * st + -2.0 * ct && eta == -2.0 * st - w * ct
  {
    Shortened(w, 4.0, u, st, ct);
  }

  lemma SlackAngle(w: real, u: real, st: real, ct: real, xi: real, eta: real)
    requires u == 4.0 - w && xi == w * st + -2.0 * ct && eta == -2.0 * st - w * ct
    ensures Opposite(u, xi, eta) == (w * w + 4.0) * st && Adjacent(u, xi, eta) == (w * w + 4.0) * ct
  {
    assert w * xi - 2.0 * eta == (w * w + 4.0) * st;
    assert -2.0 * xi - w * eta == (w * w + 4.0) * ct;
    NegatedFactor(w, eta, u);
  }

  lemma LpRmSLmRpFound(l: Library, zero: real, x: real, y: real, phi: real, t: real, u: real, v: real)
    requires Exact(l) && Principal(l) && 0.0 < l.pi && 0.0 <= zero && InRange(l, LpRmSLmRp, t, u, v)
    requires Equations(l, LpRmSLmRp, x, y, phi, t, u, v)
    ensures SolveLpRmSLmRp(l, zero, x, y, phi) == Solution(t, u, v)
  {
    hide Exact, Principal, Mod2Pi, Congruent, Radius, Squared, Times, Opposite, Adjacent;
    var xi, eta, w := x + l.sin(phi), y - 1.0 - l.cos(phi), 4.0 - u;
    var r := Radius(l, xi, eta);
    Pythagoras(l, t);
    TwiceTurned(u, w, l.sin(t), l.cos(t), xi, eta);
    SumOfSquares(w, -2.0, l.sin(t), l.cos(t), xi, eta);
    Hypotenuse(l, w, w, -2.0, xi, eta, r);
    SlackAngle(w, u, l.sin(t), l.cos(t), xi, eta);
    SquaresNonnegative(w, 0.0);
    Atan2Is(l, Adjacent(u, xi, eta), Opposite(u, xi, eta), w * w + 4.0, t);
    Mod2PiIs(l, t, t);
    Rearranged(l, t - v, phi, v, t - phi);
    Mod2PiOf(l, t - phi, v);
  }

  // ----- Three turns -----

  lemma SineAtMostOne(c: real, s: real)
    requires c * c + s * s == 1.0
    ensures -1.0 <= s <= 1.0
  {
    SquaresNonnegative(c, 0.0);
    MulSign(1.0 - s, 1.0 + s);
    assert (1.0 - s) * (1.0 + s) == 1.0 - s * s;
  }

  lemma ChordScaled(cm: real, sm: real, sh: real, xi: real, eta: real, r: real)
    requires r == -4.0 * sh && xi == 2.0 * (2.0 * (cm * sh)) && eta == 2.0 * (2.0 * (sm * sh))
    requires cm * cm + sm * sm == 1.0
    ensures r * -cm == xi && r * -sm == eta && -cm * -cm + -sm * -sm == 1.0
  {
  }

  /** The chord of the middle turn. */
  lemma ChordPolar(l: Library, t: real, u: real, k: real, theta: real, xi: real, eta: real)
    requires Exact(l) && Principal(l) && 0.0 < l.pi && -l.pi <= u < 0.0 && -l.pi < t < l.pi
    requires 2.0 * (l.sin(t) - l.sin(t - u)) == xi && 2.0 * (-l.cos(t) + l.cos(t - u)) == eta
    requires k == Radius(l, xi, eta) && theta == Angle(l, xi, eta)
    ensures k == -4.0 * l.sin(0.5 * u) && 0.0 < k <= 4.0
    ensures Mod2Pi(l, theta + 0.5 * u + l.pi) == t
  {
    hide Exact, Principal, Mod2Pi;
    var h, m := 0.5 * u, t - 0.5 * u;
    var r := -4.0 * l.sin(h);
    Chord(l, m, h, t, t - u);
    SinePositive(l, -h);
    Parity(l, h);
    Pythagoras(l, h);
    Pythagoras(l, m);
    SineAtMostOne(l.cos(h), l.sin(h));
    ChordScaled(l.cos(m), l.sin(m), l.sin(h), xi, eta, r);
    OnCircle(r, -l.cos(m), -l.sin(m), xi, eta);
    RootOfSquare(l, xi * xi + eta * eta, r);
    Atan2(l, xi, eta, r);
    CancelTo(r, l.cos(theta), -l.cos(m), xi);
    CancelTo(r, l.sin(theta), -l.sin(m), eta);
    HalfTurn(l, theta, theta + l.pi);
    Sum(l, theta + l.pi, h, theta + h + l.pi);
    Sum(l, m, h, t);
    Mod2PiIs(l, theta + 0.5 * u + l.pi, t);
  }

  lemma LpRmLFound(l: Library, zero: real, x: real, y: real, phi: real, t: real, u: real, v: real)
    requires Exact(l) && Principal(l) && 0.0 < l.pi && 0.0 <= zero && InRange(l, LpRmL, t, u, v)
    requires Equations(l, LpRmL, x, y, phi, t, u, v)
    ensures SolveLpRmL(l, zero, x, y, phi) == Solution(t, u, v)
  {
    hide Exact, Principal, Mod2Pi, Congruent, Radius, Angle;
    var xi, eta := x - l.sin(phi), y - 1.0 + l.cos(phi);
    var k, theta := Radius(l, xi, eta), Angle(l, xi, eta);
    ChordPolar(l, t, u, k, theta, xi, eta);
    Parity(l, 0.5 * u);
    AsinIs(l, 0.25 * k, -(0.5 * u));
    Rearranged(l, t - u + v, phi, v, phi - t + u);
    Mod2PiOf(l, phi - t + u, v);
  }

  // ----- Four turns -----

  lemma TauProducts(a: real, b: real, ct: real, st: real)
    ensures 2.0 * (a * ct - b * st) * a + 2.0 * (a * st + b * ct) * b == 2.0 * (a * a + b * b) * ct
    ensures 2.0 * (a * st + b * ct) * a - 2.0 * (a * ct - b * st) * b == 2.0 * (a * a + b * b) * st
  {
  }

  lemma TauPolar(a: real, b: real, d: real, ct: real, st: real, xi: real, eta: real)
    requires d == a * a + b * b && xi == 2.0 * (a * ct - b * st) && eta == 2.0 * (a * st + b * ct)
    ensures 2.0 * d * ct == TauX(a, b, xi, eta) && 2.0 * d * st == TauY(a, b, xi, eta)
  {
    TauProducts(a, b, ct, st);
  }

  /** tauOmega finds the angle of the pair of equations it is for. */
  lemma TauOmegaFinds(l: Library, u: real, w: real, a: real, b: real, d: real, xi: real, eta: real, phi: real, t: real,
                      v: real)
    requires Exact(l) && Principal(l) && 0.0 < l.pi && -l.pi < t < l.pi && -l.pi < v < l.pi
    requires var delta := Mod2Pi(l, u - w);
             a == l.sin(u) - l.sin(delta) && b == l.cos(u) - l.cos(delta) - 1.0 &&
             0.0 <= 2.0 * (l.cos(delta) - l.cos(w) - l.cos(u)) + 3.0
    requires d == a * a + b * b && 0.0 < d
    requires xi == 2.0 * (a * l.cos(t) - b * l.sin(t)) && eta == 2.0 * (a * l.sin(t) + b * l.cos(t))
    requires Congruent(l, v, t - u + w - phi)
    ensures TauOmega(l, u, w, xi, eta, phi) == (t, v)
  {
    hide Exact, Principal, Mod2Pi, Congruent, TauX, TauY;
    TauPolar(a, b, d, l.cos(t), l.sin(t), xi, eta);
    Atan2Is(l, TauX(a, b, xi, eta), TauY(a, b, xi, eta), 2.0 * d, t);
    Mod2PiIs(l, t, t);
    Mod2PiOf(l, t - u + w - phi, v);
  }

  lemma PairSquare(a: real, b: real, ct: real, st: real, xi: real, eta: real)
    requires ct * ct + st * st == 1.0 && xi == 2.0 * (a * ct - b * st) && eta == 2.0 * (a * st + b * ct)
    ensures xi * xi + eta * eta == 4.0 * (a * a + b * b)
  {
    assert xi * xi + eta * eta == 4.0 * ((a * a + b * b) * (ct * ct + st * st));
  }

  /** With v == -u the coefficients are multiples of 2 cos u - 1. */
  lemma CrossedSquare(su: real, cu: real, s2: real, c2: real, k: real, kk: real, a: real, b: real)
    requires cu * cu + su * su == 1.0 && s2 == 2.0 * (su * cu) && c2 == cu * cu - su * su
    requires a == su - s2 && b == cu - c2 - 1.0 && k == 2.0 * cu - 1.0 && kk == k * k
    ensures a * a + b * b == kk && 2.0 * (c2 - cu - cu) + 3.0 == kk
  {
    assert c2 == 2.0 * (cu * cu) - 1.0;
    assert b == cu * (1.0 - 2.0 * cu) && a == su * (1.0 - 2.0 * cu);
    assert a * a + b * b == (k * k) * (su * su + cu * cu);
  }

  lemma FourTimes(k: real, d: real)
    requires d == k * k
    ensures (2.0 * k) * (2.0 * k) == 4.0 * d
  {
  }

  lemma CrossedCoefficients(l: Library, u: real, delta: real, k: real, d: real, a: real, b: real)
    requires Exact(l) && 0.0 < l.pi && delta == Mod2Pi(l, u - -u) && k == 2.0 * l.cos(u) - 1.0 && d == k * k
    requires a == l.sin(u) - l.sin(delta) && b == l.cos(u) - l.cos(delta) - 1.0
    ensures d == a * a + b * b && 2.0 * (l.cos(delta) - l.cos(-u) - l.cos(u)) + 3.0 == d
  {
    hide Exact, Mod2Pi;
    ModPoint(l, delta, u - -u);
    Sum(l, u, u, u - -u);
    Parity(l, u);
    Pythagoras(l, u);
    CrossedSquare(l.sin(u), l.cos(u), l.sin(delta), l.cos(delta), k, d, a, b);
  }

  lemma CrossedRadius(l: Library, xi: real, eta: real, a: real, b: real, k: real, d: real, t: real)
    requires Exact(l) && 0.0 < k && d == k * k && d == a * a + b * b
    requires xi == 2.0 * (a * l.cos(t) - b * l.sin(t)) && eta == 2.0 * (a * l.sin(t) + b * l.cos(t))
    ensures Radius(l, xi, eta) == 2.0 * k
  {
    hide Exact;
    Pythagoras(l, t);
    PairSquare(a, b, l.cos(t), l.sin(t), xi, eta);
    FourTimes(k, d);
    RootOfSquare(l, xi * xi + eta * eta, 2.0 * k);
  }

  lemma CrossedPart(l: Library, xi: real, eta: real, phi: real, t: real, u: real, v: real)
    requires Exact(l) && Principal(l) && 0.0 < l.pi && -l.pi < t < l.pi && -l.pi < v < l.pi && 0.5 < l.cos(u)
    requires 2.0 * (l.sin(t) - l.sin(t - u) + l.sin(t - 2.0 * u)) == xi
    requires 2.0 * (-l.cos(t) + l.cos(t - u) - l.cos(t - 2.0 * u)) == eta
    requires Congruent(l, v, t - u + -u - phi)
    ensures Radius(l, xi, eta) == 2.0 * (2.0 * l.cos(u) - 1.0)
    ensures TauOmega(l, u, -u, xi, eta, phi) == (t, v)
  {
    hide Exact, Principal, Mod2Pi, Congruent, TauOmega, Radius;
    var delta, k := Mod2Pi(l, u - -u), 2.0 * l.cos(u) - 1.0;
    var a, b, d := l.sin(u) - l.sin(delta), l.cos(u) - l.cos(delta) - 1.0, k * k;
    PositiveProduct(k, k, d);
    CrossedCoefficients(l, u, delta, k, d, a, b);
    CrossedPoint(l, t, u, delta, a, b);
    CrossedRadius(l, xi, eta, a, b, k, d, t);
    TauOmegaFinds(l, u, -u, a, b, d, xi, eta, phi, t, v);
  }

  lemma LpRupLumRmFound(l: Library, zero: real, x: real, y: real, phi: real, t: real, u: real, v: real)
    requires Exact(l) && Principal(l) && 0.0 < l.pi && 0.0 <= zero && InRange(l, LpRupLumRm, t, u, v)
    requires Equations(l, LpRupLumRm, x, y, phi, t, u, v)
    ensures SolveLpRupLumRm(l, zero, x, y, phi) == Solution(t, u, v)
  {
    hide Exact, Principal, Mod2Pi, Congruent, Radius, TauOmega;
    Rearranged(l, t - 2.0 * u - v, phi, v, t - u + -u - phi);
    CrossedPart(l, x + l.sin(phi), y - 1.0 - l.cos(phi), phi, t, u, v);
    Pythagoras(l, u);
    SineAtMostOne(l.sin(u), l.cos(u));
    AcosIs(l, l.cos(u), u);
  }

  /** With v == u the sum of squares is 5 - 4 cos u. */
  lemma ParallelSquare(su: real, cu: real, a: real, b: real, xi: real, eta: real)
    requires cu * cu + su * su == 1.0 && a == su && b == cu - 2.0 && xi * xi + eta * eta == 4.0 * (a * a + b * b)
    ensures a * a + b * b == 5.0 - 4.0 * cu && ParallelCosine(xi, eta) == cu
  {
    assert a * a + b * b == (cu * cu + su * su) - 4.0 * cu + 4.0;
  }

  lemma LpRumLumRpFound(l: Library, zero: real, x: real, y: real, phi: real, t: real, u: real, v: real)
    requires Exact(l) && Principal(l) && 0.0 < l.pi && 0.0 <= zero && InRange(l, LpRumLumRp, t, u, v)
    requires Equations(l, LpRumLumRp, x, y, phi, t, u, v)
    ensures SolveLpRumLumRp(l, zero, x, y, phi) == Solution(t, u, v)
  {
    hide Exact, Principal, Mod2Pi, Congruent, TauOmega, ParallelCosine;
    var xi, eta := x + l.sin(phi), y - 1.0 - l.cos(phi);
    var delta := Mod2Pi(l, u - u);
    var su, cu, st, ct := l.sin(u), l.cos(u), l.sin(t), l.cos(t);
    ModPoint(l, delta, u - u);
    AtZero(l);
    Pythagoras(l, u);
    Pythagoras(l, t);
    Difference(l, t, u, t - u);
    ParallelSum(st, ct, su, cu);
    PairSquare(su, cu - 2.0, ct, st, xi, eta);
    ParallelSquare(su, cu, su, cu - 2.0, xi, eta);
    SineAtMostOne(su, cu);
    CosineNonnegative(l, u);
    Parity(l, u);
    AcosIs(l, cu, -u);
    Rearranged(l, t - v, phi, v, t - u + u - phi);
    TauOmegaFinds(l, u, u, su, cu - 2.0, 5.0 - 4.0 * cu, xi, eta, phi, t, v);
  }

  /** Every solution of a formula's equations in its range is the one it returns. */
  lemma FormulaFinds(l: Library, zero: real, f: Formula, x: real, y: real, phi: real, t: real, u: real, v: real)
    requires Exact(l) && Principal(l) && 0.0 < l.pi && 0.0 <= zero && InRange(l, f, t, u, v)
    requires Equations(l, f, x, y, phi, t, u, v)
    ensures Solve(l, zero, f, x, y, phi) == Solution(t, u, v)
  {
    hide Exact, Principal, Equations, InRange, Mod2Pi;
    match f
    case LpSpLp => LpSpLpFound(l, zero, x, y, phi, t, u, v);
    case LpSpRp => LpSpRpFound(l, zero, x, y, phi, t, u, v);
    case LpRmL => LpRmLFound(l, zero, x, y, phi, t, u, v);
    case LpRupLumRm => LpRupLumRmFound(l, zero, x, y, phi, t, u, v);
    case LpRumLumRp => LpRumLumRpFound(l, zero, x, y, phi, t, u, v);
    case LpRmSmLm => LpRmSmLmFound(l, zero, x, y, phi, t, u, v);
    case LpRmSmRm => LpRmSmRmFound(l, zero, x, y, phi, t, u, v);
    case LpRmSLmRp => LpRmSLmRpFound(l, zero, x, y, phi, t, u, v);
  }

  // ----- The lengths the formulas return -----

  /** The signs in the formula's name up to `zero`, and turns by at most half a turn. */
  predicate NearRange(l: Library, zero: real, f: Formula, t: real, u: real, v: real) {
    -zero <= t <= l.pi && -l.pi <= v <= l.pi &&
    match f
    case LpSpLp => 0.0 <= u && -zero <= v
    case LpSpRp => 0.0 <= u && -zero <= v
    case LpRmL => -l.pi <= u <= zero
    case LpRupLumRm => 0.0 <= u <= l.pi && v <= zero
    case LpRumLumRp => -0.5 * l.pi <= u <= 0.0 && -zero <= v
    case LpRmSmLm => u <= zero && v <= zero
    case LpRmSmRm => u <= zero && v <= zero
    case LpRmSLmRp => u <= zero && -zero <= v
  }

  lemma Principals(l: Library, x: real, y: real, z: real)
    requires Exact(l) && Principal(l) && 0.0 < l.pi
    ensures -l.pi <= l.atan2(y, x) <= l.pi && -l.pi <= Mod2Pi(l, x) <= l.pi && 0.0 <= l.acos(z) <= l.pi
    ensures -0.5 * l.pi <= l.asin(z) <= 0.5 * l.pi && (0.0 <= x ==> 0.0 <= l.sqrt(x))
  {
    hide Mod2Pi, IsTrig, IsAtan2, IsArc;
    Mod2PiRange(l, x);
  }

  lemma SolutionInRange(l: Library, zero: real, f: Formula, x: real, y: real, phi: real)
    requires Exact(l) && Principal(l) && 0.0 < l.pi && Solve(l, zero, f, x, y, phi).Solution?
    ensures var s := Solve(l, zero, f, x, y, phi); NearRange(l, zero, f, s.t, s.u, s.v)
  {
    hide Exact, Principal, Mod2Pi, Squared, Opposite, Adjacent, ParallelCosine, TauX, TauY;
    forall a: real, b: real
      ensures -l.pi <= l.atan2(b, a) <= l.pi
    {
      Principals(l, a, b, 0.0);
    }
    forall a: real
      ensures -l.pi <= Mod2Pi(l, a) <= l.pi
    {
      Principals(l, a, 0.0, 0.0);
    }
    forall z: real
      ensures 0.0 <= l.acos(z) <= l.pi && -0.5 * l.pi <= l.asin(z) <= 0.5 * l.pi && (0.0 <= z ==> 0.0 <= l.sqrt(z))
    {
      Principals(l, z, 0.0, z);
    }
    var xi, eta := if f in {LpSpLp, LpRmL, LpRmSmLm} then x - l.sin(phi) else x + l.sin(phi),
                   if f in {LpSpLp, LpRmL, LpRmSmLm} then y - 1.0 + l.cos(phi) else y - 1.0 - l.cos(phi);
    SquaresNonnegative(xi, eta);
  }
}
