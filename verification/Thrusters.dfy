/** The rotation and angle of one thruster from one allocation step to the next (thrustallocation.h). */
module Thrusters {
  import opened Reals

  // ----- Numbers -----

  function RootFrom(v: nat, t: nat): (r: nat)
    requires t * t <= v
    ensures r * r <= v < (r + 1) * (r + 1)
    decreases v - t
  {
    if (t + 1) * (t + 1) <= v then RootFrom(v, t + 1) else t
  }

  /** The greatest integer whose square is at most `v`. */
  function IntegerRoot(v: nat): (t: nat)
    ensures t * t <= v < (t + 1) * (t + 1)
  {
    RootFrom(v, 0)
  }

  /** static_cast<int>(std::sqrt(abs(u) / k)) */
  function Root(k: real, u: real): (t: nat)
    requires 0.0 < k
  {
    IntegerRoot((Abs(u) / k).Floor)
  }

  /** std::round: halves go away from zero. */
  function Round(x: real): (n: int)
    ensures -0.5 <= n as real - x <= 0.5
  {
    if x < 0.0 then -(-x + 0.5).Floor else (x + 0.5).Floor
  }

  function Rad2Degree(rad: real, pi: real): int
    requires 0.0 < pi
  {
    Round(rad * 180.0 / pi)
  }

  function Degree2Rad(degree: int, pi: real): real {
    degree as real * pi / 180.0
  }

  /** The thrust at rotation `n`. */
  function Thrust(k: real, n: int): real {
    k * (n * n) as real
  }

  // ----- One thruster -----

  datatype Thruster =
    | Tunnel(kPositive: real, kNegative: real, maxDelta: int, maxRotation: int)
    | Azimuth(k: real, maxDelta: int, maxRotation: int, minRotation: int,
              maxDeltaAlpha: real, maxAlpha: real, minAlpha: real)
    | TwinFixed(kPositive: real, kNegative: real, maxDelta: int, maxDeltaP2n: int, maxRotation: int, ly: real)

  /** What the configuration comments ask for: positive coefficients, bands that fit below the maximum. */
  predicate WellConfigured(t: Thruster) {
    match t
    case Tunnel(kp, kn, delta, top) => 0.0 < kp && 0.0 < kn && 1 <= delta && 2 * delta <= top
    case Azimuth(k, delta, top, bottom, turn, high, low) =>
      0.0 < k && 1 <= delta && 0 <= bottom <= top && 0.0 <= turn && low <= high
    case TwinFixed(kp, kn, delta, p2n, top, _) => 0.0 < kp && 0.0 < kn && 1 <= p2n <= delta && 2 * delta <= top
  }

  /** The limits the solver has to respect on the increments of thrust and angle. */
  datatype Bounds = Bounds(lowerU: real, upperU: real, lowerAlpha: real, upperAlpha: real)

  predicate Within(b: Bounds, du: real, dalpha: real) {
    b.lowerU <= du <= b.upperU && b.lowerAlpha <= dalpha <= b.upperAlpha
  }

  /** The solver's answer for one thruster: within the bounds, or zero after a failure. */
  predicate Answer(b: Bounds, du: real, dalpha: real) {
    Within(b, du, dalpha) || (du == 0.0 && dalpha == 0.0)
  }

  // calculateu: a stopped propeller reads as one turn, an azimuth below its minimum as the minimum

  function FeedbackRotation(t: Thruster, n: int): int {
    match t
    case Azimuth(_, _, _, bottom, _, _, _) => if n < bottom then bottom else n
    case _ => if n == 0 then 1 else n
  }

  function FeedbackThrust(t: Thruster, n: int): real {
    match t
    case Tunnel(kp, kn, _, _) => if n < 0 then Thrust(kn, n) else Thrust(kp, n)
    case Azimuth(k, _, _, _, _, _, _) => Thrust(k, n)
    case TwinFixed(kp, kn, _, _, _, _) => if n < 0 then Thrust(kn, n) else Thrust(kp, n)
  }

  function TunnelBounds(t: Thruster, n: int, u: real, desired: real, pi: real): Bounds
    requires t.Tunnel?
  {
    var d, kp, kn := t.maxDelta, t.kPositive, t.kNegative;
    if 0 < n <= d then
      if desired > 0.0 then Bounds(-u, Thrust(kp, n + d) - u, 0.0, 0.0)
      else Bounds(-u, Thrust(kn, n - d) - u, -pi, -pi)
    else if -d <= n < 0 then
      if desired > 0.0 then Bounds(-u, Thrust(kp, n + d) - u, pi, pi)
      else Bounds(-u, Thrust(kn, n - d) - u, 0.0, 0.0)
    else if n > d then
      Bounds(Thrust(kp, n - d) - u, Min(Thrust(kp, t.maxRotation) - u, Thrust(kp, n + d) - u), 0.0, 0.0)
    else
      Bounds(Thrust(kn, n + d) - u, Min(Thrust(kn, n - d) - u, Thrust(kn, t.maxRotation) - u), 0.0, 0.0)
  }

  function AzimuthBounds(t: Thruster, n: int, u: real, alpha: real): Bounds
    requires t.Azimuth?
  {
    Bounds(
      if n < t.maxDelta then Thrust(t.k, t.minRotation) - u
      else Max(Thrust(t.k, n - t.maxDelta), Thrust(t.k, t.minRotation)) - u,
      Min(Thrust(t.k, t.maxRotation), Thrust(t.k, n + t.maxDelta)) - u,
      Max(-t.maxDeltaAlpha, t.minAlpha - alpha),
      Min(t.maxDeltaAlpha, t.maxAlpha - alpha))
  }

  function TwinFixedBounds(t: Thruster, n: int, u: real, desired: real, pi: real): Bounds
    requires t.TwinFixed?
  {
    var d, p2n, kp, kn := t.maxDelta, t.maxDeltaP2n, t.kPositive, t.kNegative;
    if n >= d then
      Bounds(Thrust(kp, n - d) - u, Min(Thrust(kp, t.maxRotation) - u, Thrust(kp, n + d) - u), 0.0, 0.0)
    else if p2n <= n < d then
      Bounds(Thrust(kp, n - p2n) - u, Thrust(kp, n + p2n) - u, 0.0, 0.0)
    else if 0 < n < p2n then
      if desired < 0.0 then Bounds(Thrust(kn, n - p2n) - u, Thrust(kn, n - p2n) - u, pi, pi)
      else Bounds(Thrust(kp, n + p2n) - u, Thrust(kp, n + p2n) - u, 0.0, 0.0)
    else if -p2n < n < 0 then
      if desired < 0.0 then Bounds(Thrust(kn, n - p2n) - u, Thrust(kn, n - p2n) - u, 0.0, 0.0)
      else Bounds(Thrust(kp, n + p2n) - u, Thrust(kp, n + p2n) - u, -pi, -pi)
    else if -d < n <= -p2n then
      Bounds(Thrust(kn, n + p2n) - u, Thrust(kn, n - p2n) - u, 0.0, 0.0)
    else
      Bounds(Thrust(kn, n + d) - u, Min(Thrust(kn, t.maxRotation) - u, Thrust(kn, n - d) - u), 0.0, 0.0)
  }

  /** The bounds for rotation `n` with thrust `u` at `alpha`; `desired` decides the direction. */
  function BoundsOf(t: Thruster, n: int, u: real, alpha: real, desired: real, pi: real): Bounds {
    match t
    case Tunnel(_, _, _, _) => TunnelBounds(t, n, u, desired, pi)
    case Azimuth(_, _, _, _, _, _, _) => AzimuthBounds(t, n, u, alpha)
    case TwinFixed(_, _, _, _, _, _) => TwinFixedBounds(t, n, u, desired, pi)
  }

  // calculaterotation

  /** Whether the propeller is to turn backwards at this angle. */
  predicate Backwards(t: Thruster, alpha: real, pi: real) {
    match t
    case Tunnel(_, _, _, _) => alpha < 0.0
    case Azimuth(_, _, _, _, _, _, _) => false
    case TwinFixed(_, _, _, _, _, _) => alpha > 0.5 * pi
  }

  function Coefficient(t: Thruster, alpha: real, pi: real): (k: real)
    ensures WellConfigured(t) ==> 0.0 < k
  {
    match t
    case Azimuth(k, _, _, _, _, _, _) => k
    case _ => if Backwards(t, alpha, pi) then t.kNegative else t.kPositive
  }

  function CommandRotation(t: Thruster, u: real, alpha: real, pi: real): int
    requires WellConfigured(t)
  {
    var root: int := Root(Coefficient(t, alpha, pi), u);
    match t
    case Azimuth(_, _, _, bottom, _, _, _) => if root < bottom then bottom else root
    case _ =>
      if Backwards(t, alpha, pi) then if root == 0 then -1 else -root
      else if root == 0 then 1 else root
  }

  function CommandThrust(t: Thruster, u: real, alpha: real, pi: real): real
    requires WellConfigured(t)
  {
    var root := Root(Coefficient(t, alpha, pi), u);
    match t
    case Azimuth(k, _, _, bottom, _, _, _) => if root < bottom then Thrust(k, bottom) else u
    case _ => if root == 0 then Coefficient(t, alpha, pi) else u
  }

  // ----- One allocation step -----

  /** What is sent to a thruster and comes back as feedback: turns and whole degrees. */
  datatype Drive = Drive(rotation: int, alphaDeg: int)

  function StepBounds(t: Thruster, d: Drive, desired: real, pi: real): Bounds {
    var n := FeedbackRotation(t, d.rotation);
    BoundsOf(t, n, FeedbackThrust(t, n), Degree2Rad(d.alphaDeg, pi), desired, pi)
  }

  function Step(t: Thruster, d: Drive, du: real, dalpha: real, pi: real): Drive
    requires WellConfigured(t) && 0.0 < pi
  {
    var u := FeedbackThrust(t, FeedbackRotation(t, d.rotation)) + du;
    var alpha := Degree2Rad(d.alphaDeg, pi) + dalpha;
    Drive(CommandRotation(t, u, alpha, pi), Rad2Degree(alpha, pi))
  }

  function Magnitude(n: int): nat {
    if n < 0 then -n else n
  }

  /** A command a thruster can follow: never stopped, never too fast, and pointing the way it turns. */
  predicate Healthy(t: Thruster, d: Drive, pi: real)
    requires 0.0 < pi
  {
    match t
    case Tunnel(_, _, _, top) =>
      1 <= Magnitude(d.rotation) <= top && d.alphaDeg == if d.rotation > 0 then 90 else -90
    case Azimuth(_, _, top, bottom, _, high, low) =>
      bottom <= d.rotation <= top && Rad2Degree(low, pi) <= d.alphaDeg <= Rad2Degree(high, pi)
    case TwinFixed(_, _, _, _, top, _) =>
      1 <= Magnitude(d.rotation) <= top && d.alphaDeg == if d.rotation > 0 then 0 else 180
  }

  predicate Reverses(d: Drive, d': Drive) {
    (d.rotation > 0) != (d'.rotation > 0)
  }

  /** How far one step may go. */
  predicate Gradual(t: Thruster, d: Drive, d': Drive, pi: real)
    requires 0.0 < pi
  {
    var change := Magnitude(d'.rotation - d.rotation);
    match t
    case Tunnel(_, _, delta, _) =>
      // one turn more than max_delta_rotation, and that exactly when reversing from max_delta_rotation
      change <= delta + 1 &&
      (change > delta <==> Magnitude(d.rotation) == delta && Reverses(d, d')) &&
      (Reverses(d, d') ==> Magnitude(d.rotation) <= delta)
    case Azimuth(_, delta, _, _, turn, _, _) =>
      change <= delta && Magnitude(d'.alphaDeg - d.alphaDeg) as real <= turn * 180.0 / pi + 0.5
    case TwinFixed(_, _, delta, p2n, _, _) =>
      change <= (if Magnitude(d.rotation) >= delta then delta else p2n) &&
      (Reverses(d, d') ==> Magnitude(d.rotation) < p2n)
  }

  // ----- Thrust bounds are rotation bounds -----

  lemma SquareMonotone(a: nat, b: nat)
    requires a * a < (b + 1) * (b + 1)
    ensures a <= b
  {
  }

  lemma QuotientBetween(k: real, u: real, low: int, high: int)
    requires 0.0 < k && k * low as real <= u <= k * high as real
    ensures low as real <= u / k <= high as real
  {
    var q := u / k;
    assert q * k == u;
    MulSign(low as real - q, k);
    MulSign(q - high as real, k);
  }

  lemma IntegerRootBetween(v: nat, low: nat, high: nat)
    requires low * low <= v <= high * high
    ensures low <= IntegerRoot(v) <= high
  {
    var t := IntegerRoot(v);
    SquareMonotone(low, t);
    SquareMonotone(t, high);
  }

  lemma SquareOfMagnitude(n: int)
    ensures Magnitude(n) * Magnitude(n) == n * n
  {
  }

  lemma NonnegativeThrust(k: real, v: nat)
    requires 0.0 < k
    ensures 0.0 <= k * v as real
  {
  }

  lemma RootOfSquares(k: real, u: real, low: nat, high: nat, lowSquare: nat, highSquare: nat)
    requires 0.0 < k && lowSquare == low * low && highSquare == high * high
    requires k * lowSquare as real <= u <= k * highSquare as real
    ensures low <= Root(k, u) <= high
  {
    hide IntegerRoot;
    NonnegativeThrust(k, lowSquare);
    QuotientBetween(k, u, lowSquare, highSquare);
    IntegerRootBetween((u / k).Floor, low, high);
  }

  /** A thrust between those of `low` and `high` turns asks for between `low` and `high` turns. */
  lemma RootBetween(k: real, u: real, low: int, high: int)
    requires 0.0 < k && Thrust(k, low) <= u <= Thrust(k, high)
    ensures Magnitude(low) <= Root(k, u) <= Magnitude(high)
  {
    hide Root, Magnitude;
    SquareOfMagnitude(low);
    SquareOfMagnitude(high);
    RootOfSquares(k, u, Magnitude(low), Magnitude(high), low * low, high * high);
  }

  // ----- Angles -----

  lemma DegreeOf(rad: real, degree: int, pi: real)
    requires 0.0 < pi && rad == Degree2Rad(degree, pi)
    ensures Rad2Degree(rad, pi) == degree
  {
    var q := rad * 180.0 / pi;
    assert q * pi == rad * 180.0 == degree as real * pi;
    assert (q - degree as real) * pi == 0.0;
    assert q == degree as real;
  }

  lemma ScaledMonotone(a: real, b: real, pi: real)
    requires 0.0 < pi && a <= b
    ensures a * 180.0 / pi <= b * 180.0 / pi
  {
    var p, q := a * 180.0 / pi, b * 180.0 / pi;
    assert p * pi == a * 180.0 && q * pi == b * 180.0;
    MulSign(p - q, pi);
  }

  lemma DegreeMonotone(a: real, b: real, pi: real)
    requires 0.0 < pi && a <= b
    ensures Rad2Degree(a, pi) <= Rad2Degree(b, pi)
  {
    ScaledMonotone(a, b, pi);
  }

  /** Half a turn more or less on a whole number of degrees. */
  lemma DegreeShifted(degree: int, rad: real, half: int, pi: real)
    requires 0.0 < pi && rad == Degree2Rad(degree, pi) + half as real * pi
    ensures Rad2Degree(rad, pi) == degree + 180 * half
  {
    DegreeOf(rad, degree + 180 * half, pi);
  }

  lemma ScaledNegative(a: real, pi: real)
    requires 0.0 < pi
    ensures -a * 180.0 / pi == -(a * 180.0 / pi)
  {
  }

  lemma ScaledSum(degree: int, a: real, pi: real)
    requires 0.0 < pi
    ensures (Degree2Rad(degree, pi) + a) * 180.0 / pi == degree as real + a * 180.0 / pi
  {
    var p, q := (Degree2Rad(degree, pi) + a) * 180.0 / pi, a * 180.0 / pi;
    assert p * pi == degree as real * pi + a * 180.0 && q * pi == a * 180.0;
    assert (p - degree as real - q) * pi == 0.0;
    MulSign(p - degree as real - q, pi);
  }

  /** A turn by at most `turn` changes the whole degrees by at most its degrees and a half. */
  lemma DegreeChange(degree: int, dalpha: real, turn: real, pi: real)
    requires 0.0 < pi && -turn <= dalpha <= turn
    ensures var degree' := Rad2Degree(Degree2Rad(degree, pi) + dalpha, pi);
            Magnitude(degree' - degree) as real <= turn * 180.0 / pi + 0.5
  {
    var x, y := dalpha * 180.0 / pi, turn * 180.0 / pi;
    ScaledMonotone(dalpha, turn, pi);
    ScaledMonotone(-turn, dalpha, pi);
    ScaledNegative(turn, pi);
    ScaledSum(degree, dalpha, pi);
  }

  // ----- Every step keeps a thruster healthy and gradual -----

  lemma QuarterTurns(pi: real)
    requires 0.0 < pi
    ensures Degree2Rad(90, pi) == 0.5 * pi && Degree2Rad(-90, pi) == -0.5 * pi
    ensures Degree2Rad(0, pi) == 0.0 && Degree2Rad(180, pi) == pi
  {
  }

  lemma NoThrust(k: real)
    ensures Thrust(k, 0) == 0.0
  {
  }

  lemma TunnelStep(t: Thruster, d: Drive, desired: real, du: real, dalpha: real, pi: real)
    requires t.Tunnel? && WellConfigured(t) && 0.0 < pi && Healthy(t, d, pi)
    requires Answer(StepBounds(t, d, desired, pi), du, dalpha)
    ensures Healthy(t, Step(t, d, du, dalpha, pi), pi) && Gradual(t, d, Step(t, d, du, dalpha, pi), pi)
  {
    hide Thrust, Root, Rad2Degree, Degree2Rad;
    var n, delta, top := d.rotation, t.maxDelta, t.maxRotation;
    var u, alpha := FeedbackThrust(t, n) + du, Degree2Rad(d.alphaDeg, pi) + dalpha;
    QuarterTurns(pi);
    DegreeShifted(d.alphaDeg, alpha, if dalpha == 0.0 then 0 else if dalpha == pi then 1 else -1, pi);
    NoThrust(t.kPositive);
    NoThrust(t.kNegative);
    if du == 0.0 && dalpha == 0.0 {
      RootBetween(if n > 0 then t.kPositive else t.kNegative, u, n, n);
    } else if 0 < n <= delta || -delta <= n < 0 {
      if desired > 0.0 {
        RootBetween(t.kPositive, u, 0, n + delta);
      } else {
        RootBetween(t.kNegative, u, 0, n - delta);
      }
    } else if n > delta {
      RootBetween(t.kPositive, u, n - delta, n + delta);
      RootBetween(t.kPositive, u, n - delta, top);
    } else {
      RootBetween(t.kNegative, u, n + delta, n - delta);
      RootBetween(t.kNegative, u, n + delta, top);
    }
  }

  lemma TwinFixedFast(t: Thruster, d: Drive, desired: real, du: real, dalpha: real, pi: real)
    requires t.TwinFixed? && WellConfigured(t) && 0.0 < pi && Healthy(t, d, pi)
    requires Answer(StepBounds(t, d, desired, pi), du, dalpha)
    requires Magnitude(d.rotation) >= t.maxDelta
    ensures Healthy(t, Step(t, d, du, dalpha, pi), pi) && Gradual(t, d, Step(t, d, du, dalpha, pi), pi)
  {
    hide Thrust, Root, Rad2Degree, Degree2Rad;
    var n, delta, p2n, top, kp, kn := d.rotation, t.maxDelta, t.maxDeltaP2n, t.maxRotation, t.kPositive, t.kNegative;
    var u, alpha := FeedbackThrust(t, n) + du, Degree2Rad(d.alphaDeg, pi) + dalpha;
    QuarterTurns(pi);
    DegreeShifted(d.alphaDeg, alpha, if dalpha == 0.0 then 0 else if dalpha == pi then 1 else -1, pi);
    if du == 0.0 && dalpha == 0.0 {
      RootBetween(if n > 0 then kp else kn, u, n, n);
    } else if n > 0 {
      RootBetween(kp, u, n - delta, n + delta);
      RootBetween(kp, u, n - delta, top);
    } else {
      RootBetween(kn, u, n + delta, n - delta);
      RootBetween(kn, u, n + delta, top);
    }
  }

  lemma TwinFixedSlow(t: Thruster, d: Drive, desired: real, du: real, dalpha: real, pi: real)
    requires t.TwinFixed? && WellConfigured(t) && 0.0 < pi && Healthy(t, d, pi)
    requires Answer(StepBounds(t, d, desired, pi), du, dalpha)
    requires t.maxDeltaP2n <= Magnitude(d.rotation) < t.maxDelta
    ensures Healthy(t, Step(t, d, du, dalpha, pi), pi) && Gradual(t, d, Step(t, d, du, dalpha, pi), pi)
  {
    hide Thrust, Root, Rad2Degree, Degree2Rad;
    var n, delta, p2n, top, kp, kn := d.rotation, t.maxDelta, t.maxDeltaP2n, t.maxRotation, t.kPositive, t.kNegative;
    var u, alpha := FeedbackThrust(t, n) + du, Degree2Rad(d.alphaDeg, pi) + dalpha;
    QuarterTurns(pi);
    DegreeShifted(d.alphaDeg, alpha, if dalpha == 0.0 then 0 else if dalpha == pi then 1 else -1, pi);
    if du == 0.0 && dalpha == 0.0 {
      RootBetween(if n > 0 then kp else kn, u, n, n);
    } else if n > 0 {
      RootBetween(kp, u, n - p2n, n + p2n);
    } else {
      RootBetween(kn, u, n + p2n, n - p2n);
    }
  }

  lemma TwinFixedReversing(t: Thruster, d: Drive, desired: real, du: real, dalpha: real, pi: real)
    requires t.TwinFixed? && WellConfigured(t) && 0.0 < pi && Healthy(t, d, pi)
    requires Answer(StepBounds(t, d, desired, pi), du, dalpha)
    requires Magnitude(d.rotation) < t.maxDeltaP2n
    ensures Healthy(t, Step(t, d, du, dalpha, pi), pi) && Gradual(t, d, Step(t, d, du, dalpha, pi), pi)
  {
    hide Thrust, Root, Rad2Degree, Degree2Rad;
    var n, delta, p2n, top, kp, kn := d.rotation, t.maxDelta, t.maxDeltaP2n, t.maxRotation, t.kPositive, t.kNegative;
    var u, alpha := FeedbackThrust(t, n) + du, Degree2Rad(d.alphaDeg, pi) + dalpha;
    QuarterTurns(pi);
    DegreeShifted(d.alphaDeg, alpha, if dalpha == 0.0 then 0 else if dalpha == pi then 1 else -1, pi);
    if du == 0.0 && dalpha == 0.0 {
      RootBetween(if n > 0 then kp else kn, u, n, n);
    } else if desired < 0.0 {
      RootBetween(kn, u, n - p2n, n - p2n);
    } else {
      RootBetween(kp, u, n + p2n, n + p2n);
    }
  }

  lemma TwinFixedStep(t: Thruster, d: Drive, desired: real, du: real, dalpha: real, pi: real)
    requires t.TwinFixed? && WellConfigured(t) && 0.0 < pi && Healthy(t, d, pi)
    requires Answer(StepBounds(t, d, desired, pi), du, dalpha)
    ensures Healthy(t, Step(t, d, du, dalpha, pi), pi) && Gradual(t, d, Step(t, d, du, dalpha, pi), pi)
  {
    hide Healthy, Gradual, Step, Answer, StepBounds;
    if Magnitude(d.rotation) >= t.maxDelta {
      TwinFixedFast(t, d, desired, du, dalpha, pi);
    } else if Magnitude(d.rotation) >= t.maxDeltaP2n {
      TwinFixedSlow(t, d, desired, du, dalpha, pi);
    } else {
      TwinFixedReversing(t, d, desired, du, dalpha, pi);
    }
  }

  lemma AzimuthStep(t: Thruster, d: Drive, desired: real, du: real, dalpha: real, pi: real)
    requires t.Azimuth? && WellConfigured(t) && 0.0 < pi && Healthy(t, d, pi)
    requires Answer(StepBounds(t, d, desired, pi), du, dalpha)
    ensures Healthy(t, Step(t, d, du, dalpha, pi), pi) && Gradual(t, d, Step(t, d, du, dalpha, pi), pi)
  {
    hide Thrust, Root, Rad2Degree, Degree2Rad;
    var n, delta, k := d.rotation, t.maxDelta, t.k;
    var u, alpha := FeedbackThrust(t, n) + du, Degree2Rad(d.alphaDeg, pi) + dalpha;
    DegreeChange(d.alphaDeg, dalpha, t.maxDeltaAlpha, pi);
    if du == 0.0 && dalpha == 0.0 {
      RootBetween(k, u, n, n);
      DegreeOf(alpha, d.alphaDeg, pi);
    } else {
      DegreeMonotone(t.minAlpha, alpha, pi);
      DegreeMonotone(alpha, t.maxAlpha, pi);
      var low := if n < delta then t.minRotation else n - delta;
      RootBetween(k, u, t.minRotation, t.maxRotation);
      RootBetween(k, u, low, n + delta);
    }
  }

  /** Every step keeps every kind of thruster healthy and gradual, whatever is asked for and answered. */
  lemma StepSafe(t: Thruster, d: Drive, desired: real, du: real, dalpha: real, pi: real)
    requires WellConfigured(t) && 0.0 < pi && Healthy(t, d, pi)
    requires Answer(StepBounds(t, d, desired, pi), du, dalpha)
    ensures Healthy(t, Step(t, d, du, dalpha, pi), pi) && Gradual(t, d, Step(t, d, du, dalpha, pi), pi)
  {
    hide Healthy, Gradual, Step, Answer, StepBounds;
    match t
    case Tunnel(_, _, _, _) => TunnelStep(t, d, desired, du, dalpha, pi);
    case Azimuth(_, _, _, _, _, _, _) => AzimuthStep(t, d, desired, du, dalpha, pi);
    case TwinFixed(_, _, _, _, _, _) => TwinFixedStep(t, d, desired, du, dalpha, pi);
  }

  // ----- The bounds allow exactly the permitted rotations -----

  predicate SameSign(n: int, n': int) {
    (n > 0 && n' > 0) || (n < 0 && n' < 0)
  }

  /** The rotations one step may lead to when the solver succeeds; `desired` decides the direction at low rotations. */
  predicate Permitted(t: Thruster, n: int, desired: real, n': int) {
    match t
    case Tunnel(_, _, d, top) =>
      if 0 < Magnitude(n) <= d then
        if desired > 0.0 then 1 <= n' <= n + d || (n + d == 0 && n' == 1)
        else n - d <= n' <= -1 || (n - d == 0 && n' == -1)
      else SameSign(n, n') && Magnitude(n) - d <= Magnitude(n') <= top && Magnitude(n') <= Magnitude(n) + d
    case Azimuth(_, d, top, bottom, _, _, _) => bottom <= n' <= top && n - d <= n' <= n + d
    case TwinFixed(_, _, d, p2n, top, _) =>
      if Magnitude(n) < p2n then n' == if desired < 0.0 then n - p2n else n + p2n
      else
        var change := if Magnitude(n) >= d then d else p2n;
        SameSign(n, n') && Magnitude(n' - n) <= change && Magnitude(n') <= top
  }

  /** The solver has an answer within the bounds that leads to rotation `n'`. */
  ghost predicate Attainable(t: Thruster, d: Drive, desired: real, n': int, pi: real)
    requires WellConfigured(t) && 0.0 < pi
  {
    exists du: real, dalpha: real ::
      Within(StepBounds(t, d, desired, pi), du, dalpha) && Step(t, d, du, dalpha, pi).rotation == n'
  }

  /**
   * An azimuth thruster can be turned back into its range in one step. Its feedback is in whole degrees, so it may
   * read up to half a degree outside.
   */
  predicate MayTurn(t: Thruster, d: Drive, pi: real) {
    t.Azimuth? ==>
      var alpha := Degree2Rad(d.alphaDeg, pi);
      t.minAlpha - alpha <= t.maxDeltaAlpha && alpha - t.maxAlpha <= t.maxDeltaAlpha
  }

  lemma TunnelPermitted(t: Thruster, d: Drive, desired: real, du: real, dalpha: real, pi: real)
    requires t.Tunnel? && WellConfigured(t) && 0.0 < pi && Healthy(t, d, pi)
    requires Within(StepBounds(t, d, desired, pi), du, dalpha)
    ensures Permitted(t, d.rotation, desired, Step(t, d, du, dalpha, pi).rotation)
  {
    hide Thrust, Root, Rad2Degree, Degree2Rad;
    var n, delta, top := d.rotation, t.maxDelta, t.maxRotation;
    var u := FeedbackThrust(t, n) + du;
    QuarterTurns(pi);
    NoThrust(t.kPositive);
    NoThrust(t.kNegative);
    if 0 < n <= delta || -delta <= n < 0 {
      if desired > 0.0 {
        RootBetween(t.kPositive, u, 0, n + delta);
      } else {
        RootBetween(t.kNegative, u, 0, n - delta);
      }
    } else if n > delta {
      RootBetween(t.kPositive, u, n - delta, n + delta);
      RootBetween(t.kPositive, u, n - delta, top);
    } else {
      RootBetween(t.kNegative, u, n + delta, n - delta);
      RootBetween(t.kNegative, u, n + delta, top);
    }
  }

  lemma TwinFixedPermitted(t: Thruster, d: Drive, desired: real, du: real, dalpha: real, pi: real)
    requires t.TwinFixed? && WellConfigured(t) && 0.0 < pi && Healthy(t, d, pi)
    requires Within(StepBounds(t, d, desired, pi), du, dalpha)
    ensures Permitted(t, d.rotation, desired, Step(t, d, du, dalpha, pi).rotation)
  {
    hide Thrust, Root, Rad2Degree, Degree2Rad;
    var n, delta, p2n, top, kp, kn := d.rotation, t.maxDelta, t.maxDeltaP2n, t.maxRotation, t.kPositive, t.kNegative;
    var u := FeedbackThrust(t, n) + du;
    QuarterTurns(pi);
    if n >= delta {
      RootBetween(kp, u, n - delta, n + delta);
      RootBetween(kp, u, n - delta, top);
    } else if p2n <= n {
      RootBetween(kp, u, n - p2n, n + p2n);
    } else if -p2n < n {
      if desired < 0.0 {
        RootBetween(kn, u, n - p2n, n - p2n);
      } else {
        RootBetween(kp, u, n + p2n, n + p2n);
      }
    } else if -delta < n {
      RootBetween(kn, u, n + p2n, n - p2n);
    } else {
      RootBetween(kn, u, n + delta, n - delta);
      RootBetween(kn, u, n + delta, top);
    }
  }

  lemma AzimuthPermitted(t: Thruster, d: Drive, desired: real, du: real, dalpha: real, pi: real)
    requires t.Azimuth? && WellConfigured(t) && 0.0 < pi && Healthy(t, d, pi)
    requires Within(StepBounds(t, d, desired, pi), du, dalpha)
    ensures Permitted(t, d.rotation, desired, Step(t, d, du, dalpha, pi).rotation)
  {
    hide Thrust, Root, Rad2Degree, Degree2Rad;
    var n, delta := d.rotation, t.maxDelta;
    var u := FeedbackThrust(t, n) + du;
    RootBetween(t.k, u, t.minRotation, t.maxRotation);
    RootBetween(t.k, u, if n < delta then t.minRotation else n - delta, n + delta);
  }

  /** The increments that lead to a permitted rotation. */
  function Towards(t: Thruster, d: Drive, desired: real, n': int, pi: real): (real, real) {
    var b, n := StepBounds(t, d, desired, pi), FeedbackRotation(t, d.rotation);
    var u := FeedbackThrust(t, n);
    var target :=
      if t.Tunnel? && Magnitude(n) == t.maxDelta && SameSign(n, -n') then 0.0 else FeedbackThrust(t, n');
    (target - u, b.lowerAlpha)
  }

  lemma WithinTurns(t: Thruster, d: Drive, desired: real, du: real, dalpha: real, pi: real)
    requires Within(StepBounds(t, d, desired, pi), du, dalpha)
    ensures MayTurn(t, d, pi)
  {
    hide Thrust, Degree2Rad;
  }

  // ----- Feedback that is not healthy -----

  /** The step sees the normalised feedback only. */
  lemma StepNormalises(t: Thruster, d: Drive, desired: real, du: real, dalpha: real, pi: real)
    requires WellConfigured(t) && 0.0 < pi
    ensures var d' := d.(rotation := FeedbackRotation(t, d.rotation));
            StepBounds(t, d, desired, pi) == StepBounds(t, d', desired, pi) &&
            Step(t, d, du, dalpha, pi) == Step(t, d', du, dalpha, pi)
  {
    hide BoundsOf, CommandRotation, Rad2Degree;
  }

  /** A stopped propeller whose angle points forwards starts healthy, and as if it had made one turn before. */
  lemma StoppedStarts(t: Thruster, d: Drive, desired: real, du: real, dalpha: real, pi: real)
    requires !t.Azimuth? && WellConfigured(t) && 0.0 < pi && d == Drive(0, if t.Tunnel? then 90 else 0)
    requires Answer(StepBounds(t, d, desired, pi), du, dalpha)
    ensures var d' := Step(t, d, du, dalpha, pi);
            Healthy(t, d', pi) && Gradual(t, Drive(1, d.alphaDeg), d', pi)
  {
    hide Gradual, Step, Answer, StepBounds;
    StepNormalises(t, d, desired, du, dalpha, pi);
    StepSafe(t, d.(rotation := 1), desired, du, dalpha, pi);
  }

  /** An azimuth thruster that turns too slowly is driven as if it made its least number of turns. */
  lemma SlowAzimuthRecovers(t: Thruster, d: Drive, desired: real, du: real, dalpha: real, pi: real)
    requires t.Azimuth? && WellConfigured(t) && 0.0 < pi && d.rotation < t.minRotation
    requires Rad2Degree(t.minAlpha, pi) <= d.alphaDeg <= Rad2Degree(t.maxAlpha, pi)
    requires Answer(StepBounds(t, d, desired, pi), du, dalpha)
    ensures var d' := Step(t, d, du, dalpha, pi);
            Healthy(t, d', pi) && Gradual(t, Drive(t.minRotation, d.alphaDeg), d', pi)
  {
    hide Gradual, Step, Answer, StepBounds;
    StepNormalises(t, d, desired, du, dalpha, pi);
    StepSafe(t, d.(rotation := t.minRotation), desired, du, dalpha, pi);
  }

  /**
   * A stopped tunnel thruster whose angle points backwards is taken to turn forwards: asked to turn backwards, it is
   * turned by half a turn too many.
   */
  lemma StoppedBackwards(t: Thruster, desired: real, du: real, dalpha: real, pi: real)
    requires t.Tunnel? && WellConfigured(t) && 0.0 < pi && desired <= 0.0
    requires Within(StepBounds(t, Drive(0, -90), desired, pi), du, dalpha)
    ensures Step(t, Drive(0, -90), du, dalpha, pi).alphaDeg == -270
    ensures !Healthy(t, Step(t, Drive(0, -90), du, dalpha, pi), pi)
  {
    hide Thrust, Root, Rad2Degree, Degree2Rad, CommandRotation;
    DegreeShifted(-90, Degree2Rad(-90, pi) + dalpha, -1, pi);
  }

  lemma AnswerWithin(b: Bounds, du: real, dalpha: real)
    requires Within(b, du, dalpha)
    ensures Answer(b, du, dalpha)
  {
  }

  // ----- The corrected thrust -----

  lemma OneTurn(k: real)
    ensures Thrust(k, 1) == k
  {
  }

  /**
   * The thrust written back asks for exactly the commanded number of turns, and so would be commanded again; it is
   * left alone if it did so before.
   */
  lemma ThrustMatchesRotation(t: Thruster, u: real, alpha: real, pi: real)
    requires WellConfigured(t)
    ensures var u' := CommandThrust(t, u, alpha, pi);
            Root(Coefficient(t, alpha, pi), u') == Magnitude(CommandRotation(t, u, alpha, pi)) &&
            CommandRotation(t, u', alpha, pi) == CommandRotation(t, u, alpha, pi) &&
            (Root(Coefficient(t, alpha, pi), u) == Magnitude(CommandRotation(t, u, alpha, pi)) ==> u' == u)
  {
    hide Root, Thrust, Backwards;
    var k := Coefficient(t, alpha, pi);
    if t.Azimuth? {
      RootBetween(k, Thrust(k, t.minRotation), t.minRotation, t.minRotation);
    } else {
      OneTurn(k);
      RootBetween(k, Thrust(k, 1), 1, 1);
    }
  }

  // ----- When a tunnel thruster changes by more than its rate -----

  /** Where the thruster is slow enough to choose, it turns the way it is asked to. */
  predicate TurnsAsAsked(t: Thruster, n: int, desired: real, n': int) {
    match t
    case Tunnel(_, _, delta, _) => 0 < Magnitude(n) <= delta ==> (n' > 0 <==> desired > 0.0)
    case Azimuth(_, _, _, _, _, _, _) => true
    case TwinFixed(_, _, _, p2n, _, _) => Magnitude(n) < p2n ==> (n' > 0 <==> desired >= 0.0)
  }

  lemma DirectionFollows(t: Thruster, d: Drive, desired: real, du: real, dalpha: real, pi: real)
    requires WellConfigured(t) && 0.0 < pi && Healthy(t, d, pi) && Within(StepBounds(t, d, desired, pi), du, dalpha)
    ensures TurnsAsAsked(t, d.rotation, desired, Step(t, d, du, dalpha, pi).rotation)
  {
    hide Step, StepBounds, Within;
    match t
    case Tunnel(_, _, _, _) => TunnelPermitted(t, d, desired, du, dalpha, pi);
    case Azimuth(_, _, _, _, _, _, _) =>
    case TwinFixed(_, _, _, _, _, _) => TwinFixedPermitted(t, d, desired, du, dalpha, pi);
  }

  /** The demand asks a tunnel thruster that turns at just its rate to reverse. */
  predicate AsksTooMuch(t: Thruster, n: int, desired: real) {
    t.Tunnel? && Magnitude(n) == t.maxDelta && (n > 0) != (desired > 0.0)
  }

  /** Every answer within the bounds then overshoots, and no other does. */
  lemma OvershootExactly(t: Thruster, d: Drive, desired: real, du: real, dalpha: real, pi: real)
    requires t.Tunnel? && WellConfigured(t) && 0.0 < pi && Healthy(t, d, pi)
    requires Within(StepBounds(t, d, desired, pi), du, dalpha)
    ensures Magnitude(Step(t, d, du, dalpha, pi).rotation - d.rotation) > t.maxDelta
       <==> AsksTooMuch(t, d.rotation, desired)
  {
    hide Step, StepBounds, Within;
    TunnelPermitted(t, d, desired, du, dalpha, pi);
  }

  /** A failed solver leaves every healthy thruster as it is. */
  lemma ZeroAnswerKeeps(t: Thruster, d: Drive, pi: real)
    requires WellConfigured(t) && 0.0 < pi && Healthy(t, d, pi)
    ensures Step(t, d, 0.0, 0.0, pi) == d
  {
    hide Thrust, Root, Rad2Degree, Degree2Rad;
    var n := d.rotation;
    DegreeOf(Degree2Rad(d.alphaDeg, pi), d.alphaDeg, pi);
    QuarterTurns(pi);
    RootBetween(if t.Azimuth? then t.k else if n > 0 then t.kPositive else t.kNegative, FeedbackThrust(t, n), n, n);
  }

  // ----- Whole runs -----

  /** What arrives between two commands: the demand, and the solver's answer. */
  datatype Input = Input(desired: real, du: real, dalpha: real)

  /** Each command is fed back and answered by the next. */
  predicate IsRun(t: Thruster, run: seq<Drive>, inputs: seq<Input>, pi: real)
    requires WellConfigured(t) && 0.0 < pi
  {
    |run| == |inputs| + 1 &&
    forall i :: 0 <= i < |inputs| ==>
      Answer(StepBounds(t, run[i], inputs[i].desired, pi), inputs[i].du, inputs[i].dalpha) &&
      run[i + 1] == Step(t, run[i], inputs[i].du, inputs[i].dalpha, pi)
  }

  /** From a healthy start, every command of every run is healthy and every change gradual. */
  lemma {:induction false} RunSafe(t: Thruster, run: seq<Drive>, inputs: seq<Input>, pi: real, k: nat)
    requires WellConfigured(t) && 0.0 < pi && IsRun(t, run, inputs, pi) && Healthy(t, run[0], pi)
    requires k <= |inputs|
    ensures Healthy(t, run[k], pi)
    ensures k < |inputs| ==> Gradual(t, run[k], run[k + 1], pi)
  {
    hide Healthy, Gradual, Step, Answer, StepBounds;
    if k > 0 {
      RunSafe(t, run, inputs, pi, k - 1);
      StepSafe(t, run[k - 1], inputs[k - 1].desired, inputs[k - 1].du, inputs[k - 1].dalpha, pi);
    }
    if k < |inputs| {
      StepSafe(t, run[k], inputs[k].desired, inputs[k].du, inputs[k].dalpha, pi);
    }
  }

  /** The command written before the first step. */
  function Initial(t: Thruster, pi: real): Drive
    requires 0.0 < pi
  {
    match t
    case Tunnel(_, _, _, _) => Drive(1, 90)
    case Azimuth(_, _, _, bottom, _, high, low) => Drive(bottom, Rad2Degree((low + high) / 2.0, pi))
    case TwinFixed(_, _, _, _, _, _) => Drive(1, 0)
  }

  /** No healthy thruster turns slower. */
  lemma InitialHealthy(t: Thruster, pi: real)
    requires WellConfigured(t) && 0.0 < pi
    ensures Healthy(t, Initial(t, pi), pi)
    ensures forall d: Drive :: Healthy(t, d, pi) ==> Magnitude(Initial(t, pi).rotation) <= Magnitude(d.rotation)
  {
    if t.Azimuth? {
      hide Rad2Degree;
      var middle := (t.minAlpha + t.maxAlpha) / 2.0;
      DegreeMonotone(t.minAlpha, middle, pi);
      DegreeMonotone(middle, t.maxAlpha, pi);
    }
  }

  lemma SquareOrder(a: nat, b: nat)
    requires a <= b
    ensures a * a <= b * b
  {
  }

  lemma ThrustMonotone(k: real, a: int, b: int)
    requires 0.0 < k
    ensures Magnitude(a) <= Magnitude(b) ==> Thrust(k, a) <= Thrust(k, b)
  {
    if Magnitude(a) <= Magnitude(b) {
      SquareOrder(Magnitude(a), Magnitude(b));
      assert Magnitude(a) * Magnitude(a) == a * a && Magnitude(b) * Magnitude(b) == b * b;
      MulSign(k, (b * b - a * a) as real);
    }
  }

  lemma TunnelTowards(t: Thruster, d: Drive, desired: real, n': int, pi: real)
    requires t.Tunnel? && WellConfigured(t) && 0.0 < pi && Healthy(t, d, pi) && Permitted(t, d.rotation, desired, n')
    ensures Attainable(t, d, desired, n', pi)
  {
    hide Thrust, Root, Rad2Degree, Degree2Rad;
    var n, delta, top, kp, kn := d.rotation, t.maxDelta, t.maxRotation, t.kPositive, t.kNegative;
    var (du, dalpha) := Towards(t, d, desired, n', pi);
    var k := if n' > 0 then kp else kn;
    QuarterTurns(pi);
    NoThrust(kp);
    NoThrust(kn);
    RootBetween(k, Thrust(k, n'), n', n');
    RootBetween(k, Thrust(k, 0), 0, 0);
    ThrustMonotone(k, 0, n');
    ThrustMonotone(k, n', n + delta);
    ThrustMonotone(k, n', n - delta);
    ThrustMonotone(k, n - delta, n');
    ThrustMonotone(k, n + delta, n');
    ThrustMonotone(k, n', top);
    ThrustMonotone(k, 0, n + delta);
    ThrustMonotone(k, 0, n - delta);
    assert Within(StepBounds(t, d, desired, pi), du, dalpha);
    assert Step(t, d, du, dalpha, pi).rotation == n';
  }

  lemma TwinFixedTowardsFast(t: Thruster, d: Drive, desired: real, n': int, pi: real)
    requires t.TwinFixed? && WellConfigured(t) && 0.0 < pi && Healthy(t, d, pi) && Permitted(t, d.rotation, desired, n')
    requires Magnitude(d.rotation) >= t.maxDelta
    ensures Attainable(t, d, desired, n', pi)
  {
    hide Thrust, Root, Rad2Degree, Degree2Rad;
    var n, delta, p2n, top := d.rotation, t.maxDelta, t.maxDeltaP2n, t.maxRotation;
    var (du, dalpha) := Towards(t, d, desired, n', pi);
    var k := if n' > 0 then t.kPositive else t.kNegative;
    QuarterTurns(pi);
    RootBetween(k, Thrust(k, n'), n', n');
    ThrustMonotone(k, n', n + delta);
    ThrustMonotone(k, n', n - delta);
    ThrustMonotone(k, n - delta, n');
    ThrustMonotone(k, n + delta, n');
    ThrustMonotone(k, n', top);
    assert Within(StepBounds(t, d, desired, pi), du, dalpha);
    assert Step(t, d, du, dalpha, pi).rotation == n';
  }

  lemma TwinFixedTowardsSlow(t: Thruster, d: Drive, desired: real, n': int, pi: real)
    requires t.TwinFixed? && WellConfigured(t) && 0.0 < pi && Healthy(t, d, pi) && Permitted(t, d.rotation, desired, n')
    requires Magnitude(d.rotation) < t.maxDelta
    ensures Attainable(t, d, desired, n', pi)
  {
    hide Thrust, Root, Rad2Degree, Degree2Rad;
    var n, delta, p2n, top := d.rotation, t.maxDelta, t.maxDeltaP2n, t.maxRotation;
    var (du, dalpha) := Towards(t, d, desired, n', pi);
    var k := if n' > 0 then t.kPositive else t.kNegative;
    QuarterTurns(pi);
    RootBetween(k, Thrust(k, n'), n', n');
    ThrustMonotone(k, n', n + p2n);
    ThrustMonotone(k, n', n - p2n);
    ThrustMonotone(k, n - p2n, n');
    ThrustMonotone(k, n + p2n, n');
    assert Within(StepBounds(t, d, desired, pi), du, dalpha);
    assert Step(t, d, du, dalpha, pi).rotation == n';
  }

  lemma TwinFixedTowards(t: Thruster, d: Drive, desired: real, n': int, pi: real)
    requires t.TwinFixed? && WellConfigured(t) && 0.0 < pi && Healthy(t, d, pi) && Permitted(t, d.rotation, desired, n')
    ensures Attainable(t, d, desired, n', pi)
  {
    hide Healthy, Permitted, Attainable;
    if Magnitude(d.rotation) >= t.maxDelta {
      TwinFixedTowardsFast(t, d, desired, n', pi);
    } else {
      TwinFixedTowardsSlow(t, d, desired, n', pi);
    }
  }

  lemma AzimuthTowards(t: Thruster, d: Drive, desired: real, n': int, pi: real)
    requires t.Azimuth? && WellConfigured(t) && 0.0 < pi && Healthy(t, d, pi) && Permitted(t, d.rotation, desired, n')
    requires MayTurn(t, d, pi)
    ensures Attainable(t, d, desired, n', pi)
  {
    hide Thrust, Root, Rad2Degree, Degree2Rad;
    var n, delta, top, k := d.rotation, t.maxDelta, t.maxRotation, t.k;
    var (du, dalpha) := Towards(t, d, desired, n', pi);
    RootBetween(k, Thrust(k, n'), n', n');
    ThrustMonotone(k, n', n + delta);
    ThrustMonotone(k, n - delta, n');
    ThrustMonotone(k, n', top);
    ThrustMonotone(k, t.minRotation, n');
    assert Within(StepBounds(t, d, desired, pi), du, dalpha);
    assert Step(t, d, du, dalpha, pi).rotation == n';
  }

  /**
   * The bounds are neither too wide nor too narrow: the rotations that answers within them lead to are
   * exactly the permitted ones, and there is none exactly if an azimuth thruster cannot be turned into its range.
   */
  lemma AttainableExactly(t: Thruster, d: Drive, desired: real, n': int, pi: real)
    requires WellConfigured(t) && 0.0 < pi && Healthy(t, d, pi)
    ensures Attainable(t, d, desired, n', pi) <==> Permitted(t, d.rotation, desired, n') && MayTurn(t, d, pi)
  {
    hide Healthy, Permitted, MayTurn, Step, StepBounds, Within;
    if Attainable(t, d, desired, n', pi) {
      var du: real, dalpha: real :|
        Within(StepBounds(t, d, desired, pi), du, dalpha) && Step(t, d, du, dalpha, pi).rotation == n';
      WithinTurns(t, d, desired, du, dalpha, pi);
      match t {
        case Tunnel(_, _, _, _) => TunnelPermitted(t, d, desired, du, dalpha, pi);
        case Azimuth(_, _, _, _, _, _, _) => AzimuthPermitted(t, d, desired, du, dalpha, pi);
        case TwinFixed(_, _, _, _, _, _) => TwinFixedPermitted(t, d, desired, du, dalpha, pi);
      }
    }
    if Permitted(t, d.rotation, desired, n') && MayTurn(t, d, pi) {
      match t {
        case Tunnel(_, _, _, _) => TunnelTowards(t, d, desired, n', pi);
        case Azimuth(_, _, _, _, _, _, _) => AzimuthTowards(t, d, desired, n', pi);
        case TwinFixed(_, _, _, _, _, _) => TwinFixedTowards(t, d, desired, n', pi);
      }
    }
  }

  /** The bounds of a healthy thruster leave the solver a choice exactly if an azimuth can turn into its range. */
  lemma BoundsNotEmpty(t: Thruster, d: Drive, desired: real, pi: real)
    requires WellConfigured(t) && 0.0 < pi && Healthy(t, d, pi)
    ensures (exists du: real, dalpha: real :: Within(StepBounds(t, d, desired, pi), du, dalpha)) <==> MayTurn(t, d, pi)
  {
    forall du: real, dalpha: real | Within(StepBounds(t, d, desired, pi), du, dalpha)
      ensures MayTurn(t, d, pi)
    {
      WithinTurns(t, d, desired, du, dalpha, pi);
    }
    hide StepBounds, Step, Within, MayTurn;
    var n := d.rotation;
    var n' :=
      if t.TwinFixed? && Magnitude(n) < t.maxDeltaP2n then
        if desired < 0.0 then n - t.maxDeltaP2n else n + t.maxDeltaP2n
      else if t.Tunnel? && Magnitude(n) <= t.maxDelta then if desired > 0.0 then 1 else -1
      else n;
    AttainableExactly(t, d, desired, n', pi);
  }

  lemma RadBelow(degree: int, high: real, pi: real)
    requires 0.0 < pi && degree <= Rad2Degree(high, pi)
    ensures Degree2Rad(degree, pi) <= high + pi / 360.0
  {
    var q := high * 180.0 / pi;
    assert q * pi == high * 180.0;
    MulSign(q + 0.5 - degree as real, pi);
  }

  lemma RadAbove(degree: int, low: real, pi: real)
    requires 0.0 < pi && Rad2Degree(low, pi) <= degree
    ensures low - pi / 360.0 <= Degree2Rad(degree, pi)
  {
    var q := low * 180.0 / pi;
    assert q * pi == low * 180.0;
    MulSign(degree as real - q + 0.5, pi);
  }

  /** Half a degree per step is enough. */
  lemma HalfDegreeEnough(t: Thruster, d: Drive, pi: real)
    requires WellConfigured(t) && 0.0 < pi && Healthy(t, d, pi)
    requires t.Azimuth? ==> pi / 360.0 <= t.maxDeltaAlpha
    ensures MayTurn(t, d, pi)
  {
    if t.Azimuth? {
      hide Rad2Degree, Degree2Rad;
      RadBelow(d.alphaDeg, t.maxAlpha, pi);
      RadAbove(d.alphaDeg, t.minAlpha, pi);
    }
  }

  /** Such an answer exists, in both directions. */
  lemma OvershootAttainable(t: Thruster, d: Drive, desired: real, pi: real)
    requires WellConfigured(t) && 0.0 < pi && Healthy(t, d, pi) && AsksTooMuch(t, d.rotation, desired)
    ensures Attainable(t, d, desired, if desired > 0.0 then 1 else -1, pi)
  {
    hide Healthy, Step, StepBounds, Within;
    AttainableExactly(t, d, desired, if desired > 0.0 then 1 else -1, pi);
  }

  lemma BackwardsAnswer(t: Thruster, pi: real) returns (du: real)
    requires t.Tunnel? && WellConfigured(t) && 0.0 < pi
    ensures Within(StepBounds(t, Drive(0, -90), 0.0, pi), du, -pi)
  {
    hide Thrust, Degree2Rad;
    du := -Thrust(t.kPositive, 1);
    NoThrust(t.kNegative);
    ThrustMonotone(t.kNegative, 0, 1 - t.maxDelta);
  }

  /** So the angle of a stopped tunnel thruster decides whether every demand and answer are safe. */
  lemma StoppedExactly(t: Thruster, alphaDeg: int, pi: real)
    requires t.Tunnel? && WellConfigured(t) && 0.0 < pi && alphaDeg in {90, -90}
    ensures (forall desired: real, du: real, dalpha: real ::
              Answer(StepBounds(t, Drive(0, alphaDeg), desired, pi), du, dalpha) ==>
              Healthy(t, Step(t, Drive(0, alphaDeg), du, dalpha, pi), pi)) <==> alphaDeg == 90
  {
    hide Healthy, Step, Answer;
    if alphaDeg == 90 {
      hide StepBounds;
      forall desired: real, du: real, dalpha: real |
        Answer(StepBounds(t, Drive(0, alphaDeg), desired, pi), du, dalpha)
        ensures Healthy(t, Step(t, Drive(0, alphaDeg), du, dalpha, pi), pi)
      {
        StoppedStarts(t, Drive(0, alphaDeg), desired, du, dalpha, pi);
      }
    } else {
      var du := BackwardsAnswer(t, pi);
      StoppedBackwards(t, 0.0, du, -pi, pi);
      AnswerWithin(StepBounds(t, Drive(0, -90), 0.0, pi), du, -pi);
    }
  }
}
