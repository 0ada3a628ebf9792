/**
 * The separating axis theorem for two rectangles, in the frame of the first.
 * The second rectangle has half sizes `l` and `w`, axes (c, s) and (-s, c), and its centre
 * has coordinates `m` and `n` along those axes.
 */
module SeparatingAxis {
  import opened Reals
  import opened NormalPosition
  import opened RectSegment

  /** The coordinates of (x, y) along the axes (c, s) and (-s, c). */
  function Along(c: real, s: real, x: real, y: real): real {
    c * x + s * y
  }

  function Across(c: real, s: real, x: real, y: real): real {
    c * y - s * x
  }

  /** Half the extent, along an axis, of a rectangle whose own axes make the angle with it that (c, s) describes. */
  function Extent(c: real, s: real, l: real, w: real): real {
    Abs(c) * l + Abs(s) * w
  }

  /** (x, y) lies in the first rectangle, of half sizes `a` and `b`, and in the second. */
  predicate Common(a: real, b: real, l: real, w: real, c: real, s: real, m: real, n: real, x: real, y: real) {
    Abs(x) <= a && Abs(y) <= b && Abs(Along(c, s, x, y) - m) <= l && Abs(Across(c, s, x, y) - n) <= w
  }

  ghost predicate Meets(a: real, b: real, l: real, w: real, c: real, s: real, m: real, n: real) {
    exists x: real, y: real :: Common(a, b, l, w, c, s, m, n, x, y)
  }

  /** On each of the four axes the centres are no further apart than the projected half sizes. */
  predicate NoGap(a: real, b: real, l: real, w: real, c: real, s: real, m: real, n: real) {
    Abs(Along(c, -s, m, n)) <= Extent(c, s, l, w) + a &&
    Abs(Across(c, -s, m, n)) <= Extent(s, c, l, w) + b &&
    Abs(m) <= Extent(c, s, a, b) + l &&
    Abs(n) <= Extent(s, c, a, b) + w
  }

  // ----- A shared point leaves no gap -----

  lemma ProductBound(c: real, p: real, l: real)
    requires Abs(p) <= l
    ensures -(Abs(c) * l) <= c * p <= Abs(c) * l
  {
    MulSign(Abs(c), l - p);
    MulSign(Abs(c), l + p);
  }

  lemma ProjectionBound(c: real, p: real, l: real, s: real, q: real, w: real)
    requires Abs(p) <= l && Abs(q) <= w
    ensures Abs(c * p + s * q) <= Extent(c, s, l, w)
    ensures Abs(c * p - s * q) <= Extent(c, s, l, w)
  {
    ProductBound(c, p, l);
    ProductBound(s, q, w);
  }

  lemma AxisBounds(c: real, s: real, p: real, l: real, q: real, w: real)
    requires Abs(p) <= l && Abs(q) <= w
    ensures Abs(Along(c, -s, p, q)) <= Extent(c, s, l, w)
    ensures Abs(Across(c, -s, p, q)) <= Extent(s, c, l, w)
  {
    ProjectionBound(c, p, l, s, q, w);
    ProjectionBound(s, p, l, c, q, w);
  }

  lemma ExtentEven(c: real, s: real, l: real, w: real)
    ensures Extent(c, -s, l, w) == Extent(c, s, l, w) && Extent(-s, c, l, w) == Extent(s, c, l, w)
    ensures Extent(-c, -s, l, w) == Extent(c, s, l, w) && Extent(-s, -c, l, w) == Extent(s, c, l, w)
  {
  }

  lemma AlongDifference(c: real, s: real, p: real, q: real, m: real, n: real)
    ensures Along(c, s, p - m, q - n) == Along(c, s, p, q) - Along(c, s, m, n)
    ensures Across(c, s, p - m, q - n) == Across(c, s, p, q) - Across(c, s, m, n)
  {
  }

  lemma TurnedBack(c: real, s: real, x: real, y: real, p: real, q: real)
    requires p == Along(c, s, x, y) && q == Across(c, s, x, y)
    ensures Along(c, -s, p, q) == (c * c + s * s) * x && Across(c, -s, p, q) == (c * c + s * s) * y
  {
    assert c * (c * x + s * y) == (c * c) * x + (c * s) * y;
    assert s * (c * y - s * x) == (c * s) * y - (s * s) * x;
    assert c * (c * y - s * x) == (c * c) * y - (c * s) * x;
    assert s * (c * x + s * y) == (c * s) * x + (s * s) * y;
  }

  lemma Unscaled(k: real, x: real)
    requires k == 1.0
    ensures k * x == x
  {
  }

  lemma RotateBack(c: real, s: real, x: real, y: real, m: real, n: real)
    requires c * c + s * s == 1.0
    ensures Along(c, -s, Along(c, s, x, y) - m, Across(c, s, x, y) - n) == x - Along(c, -s, m, n)
    ensures Across(c, -s, Along(c, s, x, y) - m, Across(c, s, x, y) - n) == y - Across(c, -s, m, n)
    ensures Along(c, - -s, x, y) == Along(c, s, x, y) && Across(c, - -s, x, y) == Across(c, s, x, y)
  {
    var p, q := Along(c, s, x, y), Across(c, s, x, y);
    assert - -s == s;
    AlongDifference(c, -s, p, q, m, n);
    TurnedBack(c, s, x, y, p, q);
    Unscaled(c * c + s * s, x);
    Unscaled(c * c + s * s, y);
  }

  lemma CommonHasNoGap(a: real, b: real, l: real, w: real, c: real, s: real, m: real, n: real, x: real, y: real)
    requires c * c + s * s == 1.0 && Common(a, b, l, w, c, s, m, n, x, y)
    ensures NoGap(a, b, l, w, c, s, m, n)
  {
    hide Along, Across, Extent;
    var p, q := Along(c, s, x, y) - m, Across(c, s, x, y) - n;
    AxisBounds(c, s, p, l, q, w);
    AxisBounds(c, -s, x, a, y, b);
    RotateBack(c, s, x, y, m, n);
    ExtentEven(c, s, a, b);
  }

  // ----- Without a gap there is a shared point -----

  /** A half turn of the second rectangle, and a reflection of everything in the x axis. */
  lemma Signs(c: real, s: real, x: real, y: real)
    ensures Along(-c, -s, x, y) == -Along(c, s, x, y) && Across(-c, -s, x, y) == -Across(c, s, x, y)
    ensures Along(-c, - -s, -x, -y) == Along(c, -s, x, y) && Across(-c, - -s, -x, -y) == Across(c, -s, x, y)
    ensures Along(c, -s, x, y) == Along(c, s, x, -y) && Across(c, -s, x, y) == -Across(c, s, x, -y)
    ensures Along(c, - -s, x, -y) == Along(c, -s, x, y) && Across(c, - -s, x, -y) == -Across(c, -s, x, y)
  {
  }

  lemma UnitValue(x: real)
    requires 0.0 <= x && x * x == 1.0
    ensures x == 1.0
  {
    if x < 1.0 {
      MulSign(x, 1.0 - x);
    } else {
      MulSign(x, x - 1.0);
    }
  }

  /** A point within `a` of the origin and within `l` of `m`. */
  function Clamp(m: real, a: real, l: real): (x: real)
    requires 0.0 <= a && 0.0 <= l && Abs(m) <= a + l
    ensures Abs(x) <= a && Abs(x - m) <= l
  {
    if a < m then a else if m < -a then -a else m
  }

  lemma AcrossPoint(a: real, b: real, l: real, w: real, m: real, n: real) returns (x: real, y: real)
    requires 0.0 <= a && 0.0 <= b && 0.0 <= l && 0.0 <= w && NoGap(a, b, l, w, 0.0, 1.0, m, n)
    ensures Common(a, b, l, w, 0.0, 1.0, m, n, x, y)
  {
    x, y := Clamp(-n, a, w), Clamp(m, b, l);
  }

  lemma AlongPoint(a: real, b: real, l: real, w: real, m: real, n: real) returns (x: real, y: real)
    requires 0.0 <= a && 0.0 <= b && 0.0 <= l && 0.0 <= w && NoGap(a, b, l, w, 1.0, 0.0, m, n)
    ensures Common(a, b, l, w, 1.0, 0.0, m, n, x, y)
  {
    x, y := Clamp(m, a, l), Clamp(n, b, w);
  }

  lemma AlignedPoint(a: real, b: real, l: real, w: real, c: real, s: real, m: real, n: real) returns (x: real, y: real)
    requires 0.0 <= a && 0.0 <= b && 0.0 <= l && 0.0 <= w
    requires 0.0 <= c && 0.0 <= s && c * c + s * s == 1.0 && (c == 0.0 || s == 0.0)
    requires NoGap(a, b, l, w, c, s, m, n)
    ensures Common(a, b, l, w, c, s, m, n, x, y)
  {
    hide NoGap, Common;
    if c == 0.0 {
      UnitValue(s);
      x, y := AcrossPoint(a, b, l, w, m, n);
    } else {
      UnitValue(c);
      x, y := AlongPoint(a, b, l, w, m, n);
    }
  }

  // ----- Elimination of one variable at a time -----

  function Ratio(p: real, u: real): real
    requires 0.0 < u
  {
    p / u
  }

  predicate Band(p: real, q: real, u: real, z: real) {
    p <= u * z <= q
  }

  /** The interval [lo, hi] and the band [p, q] / u overlap. */
  predicate Overlap(lo: real, hi: real, p: real, q: real, u: real) {
    lo <= hi && p <= q && p <= hi * u && lo * u <= q
  }

  predicate Crossing(p1: real, q1: real, u1: real, p2: real, q2: real, u2: real) {
    p1 * u2 <= q2 * u1 && p2 * u1 <= q1 * u2
  }

  lemma WholeRatio(x: real)
    ensures Ratio(x, 1.0) == x
  {
  }

  lemma Regroup(x: real, y: real, z: real)
    ensures x * (y * z) == (x * y) * z && x * (z * y) == (x * y) * z
  {
  }

  lemma Apart(x: real, y: real, z: real)
    ensures (x - y) * z == x * z - y * z
  {
  }

  lemma Compare(f: real, u: real, g: real, v: real)
    requires 0.0 < u && 0.0 < v && (f * u) * v <= (g * v) * u
    ensures f <= g
  {
    MulSign(u, v);
    Regroup(f, u, v);
    Regroup(g, v, u);
    Apart(f, g, u * v);
    MulSign(f - g, u * v);
  }

  lemma CompareRatios(p: real, u: real, q: real, v: real)
    requires 0.0 < u && 0.0 < v
    ensures p * v <= q * u ==> Ratio(p, u) <= Ratio(q, v)
  {
    if p * v <= q * u {
      Quotient(p, u);
      Quotient(q, v);
      Compare(Ratio(p, u), u, Ratio(q, v), v);
    }
  }

  lemma OverlapRatios(lo: real, hi: real, p: real, q: real, u: real)
    requires 0.0 < u && Overlap(lo, hi, p, q, u)
    ensures lo <= hi && Ratio(p, u) <= Ratio(q, u) && Ratio(p, u) <= hi && lo <= Ratio(q, u)
  {
    hide Ratio;
    CompareRatios(p, u, q, u);
    CompareRatios(p, u, hi, 1.0);
    CompareRatios(lo, 1.0, q, u);
    WholeRatio(lo);
    WholeRatio(hi);
    MulSign(u, q - p);
  }

  lemma CrossingRatios(p1: real, q1: real, u1: real, p2: real, q2: real, u2: real)
    requires 0.0 < u1 && 0.0 < u2 && Crossing(p1, q1, u1, p2, q2, u2)
    ensures Ratio(p1, u1) <= Ratio(q2, u2) && Ratio(p2, u2) <= Ratio(q1, u1)
  {
    hide Ratio;
    CompareRatios(p1, u1, q2, u2);
    CompareRatios(p2, u2, q1, u1);
  }

  lemma InBand(z: real, p: real, q: real, u: real)
    requires 0.0 < u && Ratio(p, u) <= z <= Ratio(q, u)
    ensures Band(p, q, u, z)
  {
    Quotient(p, u);
    Quotient(q, u);
    MulSign(u, z - p / u);
    MulSign(u, q / u - z);
  }

  /** An interval and two bands that pairwise overlap have a point in common. */
  lemma Bands(lo: real, hi: real, p1: real, q1: real, u1: real, p2: real, q2: real, u2: real) returns (z: real)
    requires 0.0 < u1 && 0.0 < u2
    requires Overlap(lo, hi, p1, q1, u1) && Overlap(lo, hi, p2, q2, u2) && Crossing(p1, q1, u1, p2, q2, u2)
    ensures lo <= z <= hi && Band(p1, q1, u1, z) && Band(p2, q2, u2, z)
  {
    hide Ratio, Band, Overlap, Crossing;
    OverlapRatios(lo, hi, p1, q1, u1);
    OverlapRatios(lo, hi, p2, q2, u2);
    CrossingRatios(p1, q1, u1, p2, q2, u2);
    z := Max(lo, Max(Ratio(p1, u1), Ratio(p2, u2)));
    InBand(z, p1, q1, u1);
    InBand(z, p2, q2, u2);
  }

  /** What elimination of `y` leaves of the constraints, besides `Abs(x) <= a`. */
  predicate Remaining(b: real, l: real, w: real, c: real, s: real, m: real, n: real, x: real) {
    Band(m - (l + b * s), m + (l + b * s), c, x) &&
    Band(-n - (w + b * c), -n + (w + b * c), s, x) &&
    Abs(x - Along(c, -s, m, n)) <= Along(c, s, l, w)
  }

  lemma FromBands(l: real, w: real, c: real, s: real, m: real, n: real, x: real, y: real, p: real, q: real)
    requires p == m - c * x && q == n + s * x
    requires Band(p - l, p + l, s, y) && Band(q - w, q + w, c, y)
    ensures Abs(Along(c, s, x, y) - m) <= l && Abs(Across(c, s, x, y) - n) <= w
  {
  }

  lemma YBand(p: real, l: real, b: real, s: real)
    requires 0.0 <= b && 0.0 <= l && Abs(p) <= l + b * s
    ensures Overlap(-b, b, p - l, p + l, s)
  {
    assert -b * s == -(b * s);
  }

  lemma AlongSum(c: real, s: real, l: real, w: real)
    ensures Along(c, s, l, w) == l * c + w * s
  {
  }

  lemma YShift(c: real, s: real, m: real, n: real, x: real, p: real, q: real)
    requires c * c + s * s == 1.0 && p == m - c * x && q == n + s * x
    ensures p * c - q * s == Along(c, -s, m, n) - x
  {
    assert p * c - q * s == Along(c, -s, m, n) - (c * c + s * s) * x;
  }

  lemma Distribute(k: real, r: real, c: real)
    ensures (k + r) * c == k * c + r * c && (k - r) * c == k * c - r * c
  {
  }

  lemma YCrossing(l: real, w: real, c: real, s: real, m: real, n: real, x: real, p: real, q: real)
    requires c * c + s * s == 1.0 && p == m - c * x && q == n + s * x
    requires Abs(x - Along(c, -s, m, n)) <= Along(c, s, l, w)
    ensures Crossing(p - l, p + l, s, q - w, q + w, c)
  {
    hide Along;
    YShift(c, s, m, n, x, p, q);
    AlongSum(c, s, l, w);
    Distribute(p, l, c);
    Distribute(q, w, s);
  }

  lemma YBands(b: real, l: real, w: real, c: real, s: real, m: real, n: real, x: real, p: real, q: real)
    requires 0.0 <= b && 0.0 <= l && 0.0 <= w && 0.0 < c && 0.0 < s && c * c + s * s == 1.0
    requires Remaining(b, l, w, c, s, m, n, x) && p == m - c * x && q == n + s * x
    ensures Overlap(-b, b, p - l, p + l, s) && Overlap(-b, b, q - w, q + w, c)
    ensures Crossing(p - l, p + l, s, q - w, q + w, c)
  {
    hide Overlap, Crossing, Along;
    YBand(p, l, b, s);
    YBand(q, w, b, c);
    YCrossing(l, w, c, s, m, n, x, p, q);
  }

  lemma ChooseY(b: real, l: real, w: real, c: real, s: real, m: real, n: real, x: real) returns (y: real)
    requires 0.0 <= b && 0.0 <= l && 0.0 <= w && 0.0 < c && 0.0 < s && c * c + s * s == 1.0
    requires Remaining(b, l, w, c, s, m, n, x)
    ensures Abs(y) <= b && Abs(Along(c, s, x, y) - m) <= l && Abs(Across(c, s, x, y) - n) <= w
  {
    hide Overlap, Crossing, Remaining, Along, Across, Band;
    var p, q := m - c * x, n + s * x;
    YBands(b, l, w, c, s, m, n, x, p, q);
    y := Bands(-b, b, p - l, p + l, s, q - w, q + w, c);
    FromBands(l, w, c, s, m, n, x, y, p, q);
  }

  lemma XInterval(a: real, l: real, w: real, c: real, s: real, k: real)
    requires 0.0 <= a && 0.0 <= l && 0.0 <= w && 0.0 < c && 0.0 < s && Abs(k) <= Extent(c, s, l, w) + a
    ensures Max(-a, k - Along(c, s, l, w)) <= Min(a, k + Along(c, s, l, w))
  {
    MulSign(c, l);
    MulSign(s, w);
  }

  lemma PositiveExtent(c: real, s: real, l: real, w: real)
    requires 0.0 <= c && 0.0 <= s
    ensures Extent(s, c, l, w) == Along(s, c, l, w)
  {
    assert Abs(s) == s && Abs(c) == c;
  }

  lemma CrossingSum(b: real, l: real, w: real, c: real, s: real)
    requires c * c + s * s == 1.0
    ensures (l + b * s) * s + (w + b * c) * c == Along(s, c, l, w) + b
  {
    assert (b * s) * s + (b * c) * c == b * (c * c + s * s);
    assert (l + b * s) * s == s * l + (b * s) * s && (w + b * c) * c == c * w + (b * c) * c;
  }

  lemma CrossingBounds(m: real, n: real, u: real, v: real, c: real, s: real, e: real)
    requires u * s + v * c == e && -e <= Across(c, -s, m, n) <= e
    ensures Crossing(m - u, m + u, c, -n - v, -n + v, s)
  {
    assert Across(c, -s, m, n) == n * c + m * s;
    assert (m - u) * s == m * s - u * s && (m + u) * s == m * s + u * s;
    assert (-n - v) * c == -(n * c) - v * c && (-n + v) * c == -(n * c) + v * c;
  }

  lemma XCrossing(b: real, l: real, w: real, c: real, s: real, m: real, n: real)
    requires 0.0 < c && 0.0 < s && c * c + s * s == 1.0 && Abs(Across(c, -s, m, n)) <= Extent(s, c, l, w) + b
    ensures var u, v := l + b * s, w + b * c; Crossing(m - u, m + u, c, -n - v, -n + v, s)
  {
    hide Across, Along, Extent, Crossing;
    PositiveExtent(c, s, l, w);
    CrossingSum(b, l, w, c, s);
    CrossingBounds(m, n, l + b * s, w + b * c, c, s, Extent(s, c, l, w) + b);
  }

  lemma NearBand(a: real, b: real, l: real, c: real, s: real, m: real)
    requires 0.0 <= c && 0.0 <= s && Abs(m) <= Extent(c, s, a, b) + l
    ensures m - (l + b * s) <= a * c && -(a * c) <= m + (l + b * s)
  {
    hide Extent;
    PositiveExtent(s, c, a, b);
  }

  lemma IntervalBand(a: real, k: real, r: real, m: real, u: real, c: real)
    requires 0.0 <= u && m - u <= a * c && -(a * c) <= m + u
    requires m - u <= (k + r) * c && (k - r) * c <= m + u
    ensures Max(-a, k - r) <= Min(a, k + r) ==> Overlap(Max(-a, k - r), Min(a, k + r), m - u, m + u, c)
  {
    assert -a * c == -(a * c);
  }

  lemma Scaled(s: real, y: real, e: real)
    requires 0.0 <= s && Abs(y) <= e
    ensures -(s * e) <= s * y <= s * e
  {
    MulSign(s, e - y);
    MulSign(s, e + y);
  }

  lemma SpreadTerms(b: real, l: real, w: real, c: real, s: real)
    ensures s * (Along(s, c, l, w) + b) == (s * s) * l + (s * w) * c + b * s
    ensures Along(c, s, l, w) * c == (c * c) * l + (s * w) * c
  {
  }

  lemma SpreadOut(b: real, l: real, w: real, c: real, s: real)
    requires 0.0 <= l && c * c + s * s == 1.0
    ensures s * (Along(s, c, l, w) + b) <= Along(c, s, l, w) * c + (l + b * s)
  {
    SpreadTerms(b, l, w, c, s);
    assert 0.0 <= c * c;
    MulSign(c * c, l);
    Apart(1.0, c * c, l);
  }

  lemma FarSpread(b: real, l: real, w: real, c: real, s: real, y: real)
    requires 0.0 <= l && 0.0 < s && c * c + s * s == 1.0 && Abs(y) <= Extent(s, c, l, w) + b && 0.0 < c
    ensures -(Along(c, s, l, w) * c + (l + b * s)) <= s * y <= Along(c, s, l, w) * c + (l + b * s)
  {
    hide *;
    PositiveExtent(c, s, l, w);
    Scaled(s, y, Along(s, c, l, w) + b);
    SpreadOut(b, l, w, c, s);
  }

  lemma Reachable(k: real, r: real, c: real, m: real, t: real, u: real)
    requires k * c == m - t && -(r * c + u) <= t <= r * c + u
    ensures m - u <= (k + r) * c && (k - r) * c <= m + u
  {
    Distribute(k, r, c);
  }

  lemma BackAlong(c: real, s: real, m: real, n: real)
    requires c * c + s * s == 1.0
    ensures Along(c, -s, m, n) * c == m - s * Across(c, -s, m, n)
  {
    assert Along(c, -s, m, n) * c + s * Across(c, -s, m, n) == (c * c + s * s) * m;
  }

  /** The second band lies within reach of the interval of radius `Along(c, s, l, w)` around `c * m - s * n`. */
  lemma FarBand(b: real, l: real, w: real, c: real, s: real, m: real, n: real)
    requires 0.0 <= l && 0.0 < s && c * c + s * s == 1.0 && Abs(Across(c, -s, m, n)) <= Extent(s, c, l, w) + b &&
      0.0 < c
    ensures m - (l + b * s) <= (Along(c, -s, m, n) + Along(c, s, l, w)) * c
    ensures (Along(c, -s, m, n) - Along(c, s, l, w)) * c <= m + (l + b * s)
  {
    hide *;
    FarSpread(b, l, w, c, s, Across(c, -s, m, n));
    BackAlong(c, s, m, n);
    Reachable(Along(c, -s, m, n), Along(c, s, l, w), c, m, s * Across(c, -s, m, n), l + b * s);
  }

  lemma XBand2(a: real, b: real, l: real, w: real, c: real, s: real, m: real, n: real)
    requires 0.0 <= a && 0.0 <= b && 0.0 <= l && 0.0 <= w && 0.0 < c && 0.0 < s && c * c + s * s == 1.0
    requires NoGap(a, b, l, w, c, s, m, n)
    ensures var u, k, r := l + b * s, Along(c, -s, m, n), Along(c, s, l, w);
            Max(-a, k - r) <= Min(a, k + r) ==> Overlap(Max(-a, k - r), Min(a, k + r), m - u, m + u, c)
  {
    hide Along, Across, Overlap, Extent, Max, Min;
    MulSign(b, s);
    FarBand(b, l, w, c, s, m, n);
    NearBand(a, b, l, c, s, m);
    IntervalBand(a, Along(c, -s, m, n), Along(c, s, l, w), m, l + b * s, c);
  }

  lemma ExtentSwap(c: real, s: real, l: real, w: real)
    ensures Extent(c, s, l, w) == Extent(s, c, w, l) && Extent(s, c, l, w) == Extent(c, s, w, l)
  {
  }

  lemma Exchange(a: real, b: real, l: real, w: real, c: real, s: real, m: real, n: real)
    requires NoGap(a, b, l, w, c, s, m, n)
    ensures NoGap(a, b, w, l, s, c, -n, -m) && Along(s, -c, -n, -m) == Along(c, -s, m, n)
    ensures Along(s, c, w, l) == Along(c, s, l, w)
  {
    hide Extent;
    ExtentSwap(c, s, l, w);
    assert Across(s, -c, -n, -m) == -Across(c, -s, m, n);
  }

  lemma XBand3(a: real, b: real, l: real, w: real, c: real, s: real, m: real, n: real)
    requires 0.0 <= a && 0.0 <= b && 0.0 <= l && 0.0 <= w && 0.0 < c && 0.0 < s && c * c + s * s == 1.0
    requires NoGap(a, b, l, w, c, s, m, n)
    ensures var v, k, r := w + b * c, Along(c, -s, m, n), Along(c, s, l, w);
            Max(-a, k - r) <= Min(a, k + r) ==> Overlap(Max(-a, k - r), Min(a, k + r), -n - v, -n + v, s)
  {
    hide *;
    Exchange(a, b, l, w, c, s, m, n);
    XBand2(a, b, w, l, s, c, -n, -m);
  }

  lemma ChooseX(a: real, b: real, l: real, w: real, c: real, s: real, m: real, n: real) returns (x: real)
    requires 0.0 <= a && 0.0 <= b && 0.0 <= l && 0.0 <= w && 0.0 < c && 0.0 < s && c * c + s * s == 1.0
    requires NoGap(a, b, l, w, c, s, m, n)
    ensures Abs(x) <= a && Remaining(b, l, w, c, s, m, n, x)
  {
    hide Overlap, Crossing, Along, Across, Band, Extent;
    var u, v := l + b * s, w + b * c;
    var k, r := Along(c, -s, m, n), Along(c, s, l, w);
    XInterval(a, l, w, c, s, k);
    XBand2(a, b, l, w, c, s, m, n);
    XBand3(a, b, l, w, c, s, m, n);
    XCrossing(b, l, w, c, s, m, n);
    x := Bands(Max(-a, k - r), Min(a, k + r), m - u, m + u, c, -n - v, -n + v, s);
  }

  lemma CommonPoint(a: real, b: real, l: real, w: real, c: real, s: real, m: real, n: real) returns (x: real, y: real)
    requires 0.0 <= a && 0.0 <= b && 0.0 <= l && 0.0 <= w && c * c + s * s == 1.0
    requires NoGap(a, b, l, w, c, s, m, n)
    ensures Common(a, b, l, w, c, s, m, n, x, y)
    decreases c < 0.0, s < 0.0
  {
    hide Along, Across, Extent;
    NegSquare(c);
    NegSquare(s);
    if c < 0.0 {
      Signs(c, s, m, n);
      ExtentEven(c, s, l, w);
      ExtentEven(c, s, a, b);
      x, y := CommonPoint(a, b, l, w, -c, -s, -m, -n);
      Signs(c, s, x, y);
    } else if s < 0.0 {
      Signs(c, s, m, n);
      ExtentEven(c, s, l, w);
      ExtentEven(c, s, a, b);
      x, y := CommonPoint(a, b, l, w, c, -s, m, -n);
      Signs(c, s, x, y);
      y := -y;
    } else if c == 0.0 || s == 0.0 {
      x, y := AlignedPoint(a, b, l, w, c, s, m, n);
    } else {
      x := ChooseX(a, b, l, w, c, s, m, n);
      y := ChooseY(b, l, w, c, s, m, n, x);
    }
  }

  /** Two rectangles share a point if and only if none of the four axes separates them. */
  lemma SeparatingAxisTheorem(a: real, b: real, l: real, w: real, c: real, s: real, m: real, n: real)
    requires 0.0 <= a && 0.0 <= b && 0.0 <= l && 0.0 <= w && c * c + s * s == 1.0
    ensures Meets(a, b, l, w, c, s, m, n) <==> NoGap(a, b, l, w, c, s, m, n)
  {
    hide Common, NoGap;
    if Meets(a, b, l, w, c, s, m, n) {
      var x, y :| Common(a, b, l, w, c, s, m, n, x, y);
      CommonHasNoGap(a, b, l, w, c, s, m, n, x, y);
    }
    if NoGap(a, b, l, w, c, s, m, n) {
      var x, y := CommonPoint(a, b, l, w, c, s, m, n);
    }
  }
}
