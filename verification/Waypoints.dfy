/** Following waypoints by line of sight (trajectorytracking.h). */
module Waypoints {
  import opened Reals
  import opened Planar
  import opened NormalPosition

  /** IsEnterCaptureRadius */
  predicate Captures(radius: real, position: Vec2d, waypoint: Vec2d) {
    SqrLength(Sub(position, waypoint)) <= radius * radius
  }

  /** For a proper radius, the distance of the waypoint is at most the radius. */
  lemma CapturesMeans(sqrt: real -> real, radius: real, position: Vec2d, waypoint: Vec2d)
    requires IsSqrt(sqrt) && 0.0 <= radius
    ensures Captures(radius, position, waypoint) <==>
            Hypot(sqrt, position.x - waypoint.x, position.y - waypoint.y) <= radius
  {
    hide IsSqrt, Hypot, SqrLength;
    HypotSquare(sqrt, Sub(position, waypoint));
    var d := Hypot(sqrt, position.x - waypoint.x, position.y - waypoint.y);
    if d <= radius {
      ProductMonotone(d, d, radius, radius);
    } else if d * d <= radius * radius {
      SquareBelow(d, radius);
    }
  }

  /** The waypoint index after a sequence of positions. */
  function Index(points: seq<Vec2d>, radius: real, positions: seq<Vec2d>): (index: nat)
    requires 2 <= |points|
    ensures index <= |points| - 2
  {
    if positions == [] then 0
    else
      var n := |positions| - 1;
      var before := Index(points, radius, positions[..n]);
      if before < |points| - 2 && Captures(radius, positions[n], points[before + 1]) then before + 1 else before
  }

  /** Whether the last position finishes the track. */
  predicate Finishes(points: seq<Vec2d>, radius: real, positions: seq<Vec2d>)
    requires 2 <= |points|
  {
    positions != [] &&
    var n := |positions| - 1;
    Index(points, radius, positions[..n]) == |points| - 2 && Captures(radius, positions[n], points[|points| - 1])
  }

  /** The positions at increasing `times` capture the waypoints 1, 2, ..., in this order. */
  predicate InOrder(points: seq<Vec2d>, radius: real, positions: seq<Vec2d>, times: seq<nat>) {
    |times| < |points| &&
    (forall i :: 0 <= i < |times| ==> times[i] < |positions| && Captures(radius, positions[times[i]], points[i + 1])) &&
    forall i, j :: 0 <= i < j < |times| ==> times[i] < times[j]
  }

  /** The waypoints 1 to `k` have been captured in order. */
  ghost predicate Captured(points: seq<Vec2d>, radius: real, positions: seq<Vec2d>, k: nat) {
    exists times: seq<nat> :: |times| == k && InOrder(points, radius, positions, times)
  }

  /** The index never decreases and rises by at most one per position. */
  lemma IndexSteps(points: seq<Vec2d>, radius: real, positions: seq<Vec2d>, p: Vec2d)
    requires 2 <= |points|
    ensures Index(points, radius, positions) <= Index(points, radius, positions + [p])
         <= Index(points, radius, positions) + 1
  {
    assert (positions + [p])[..|positions|] == positions;
  }

  lemma IndexSnoc(points: seq<Vec2d>, radius: real, positions: seq<Vec2d>, p: Vec2d)
    requires 2 <= |points|
    ensures var before := Index(points, radius, positions);
            Index(points, radius, positions + [p])
              == (if before < |points| - 2 && Captures(radius, p, points[before + 1]) then before + 1 else before) &&
            Finishes(points, radius, positions + [p])
              == (before == |points| - 2 && Captures(radius, p, points[|points| - 1]))
  {
    assert (positions + [p])[..|positions|] == positions;
  }

  /** As many waypoints as the index counts have been captured in order. */
  lemma {:induction false} IndexCaptured(points: seq<Vec2d>, radius: real, positions: seq<Vec2d>)
    returns (times: seq<nat>)
    requires 2 <= |points|
    ensures |times| == Index(points, radius, positions) && InOrder(points, radius, positions, times)
  {
    if positions == [] {
      times := [];
    } else {
      hide Captures;
      var n := |positions| - 1;
      times := IndexCaptured(points, radius, positions[..n]);
      if Index(points, radius, positions) > |times| {
        times := times + [n];
      }
    }
  }

  /** No selection of positions captures more: the index is the best that can be said. */
  lemma {:induction false} IndexBest(points: seq<Vec2d>, radius: real, positions: seq<Vec2d>, times: seq<nat>)
    requires 2 <= |points| && InOrder(points, radius, positions, times) && |times| <= |points| - 2
    ensures |times| <= Index(points, radius, positions)
    decreases |positions|
  {
    if times != [] {
      hide Captures;
      var n, k := |positions| - 1, |times| - 1;
      if times[k] == n {
        assert InOrder(points, radius, positions[..n], times[..k]);
        IndexBest(points, radius, positions[..n], times[..k]);
      } else {
        assert InOrder(points, radius, positions[..n], times);
        IndexBest(points, radius, positions[..n], times);
      }
    }
  }

  /**
   * The track is finished exactly when the last position captures the last waypoint and the others came before, in
   * order.
   */
  lemma FinishedExactly(points: seq<Vec2d>, radius: real, positions: seq<Vec2d>)
    requires 2 <= |points| && positions != []
    ensures var n := |positions| - 1;
            Finishes(points, radius, positions) <==>
              Captured(points, radius, positions[..n], |points| - 2) &&
              Captures(radius, positions[n], points[|points| - 1])
  {
    hide Captures;
    var before := positions[..|positions| - 1];
    var times := IndexCaptured(points, radius, before);
    if Captured(points, radius, before, |points| - 2) {
      var best: seq<nat> :| |best| == |points| - 2 && InOrder(points, radius, before, best);
      IndexBest(points, radius, before, best);
    }
  }

  // ----- The tracker -----

  datatype Mode = Started | Tracking | Finished

  /** common::math::VectorAngle_2d is not part of this model: any function of the two directions. */
  type AngleBetween = (real, real, real, real) -> real

  /** The way from waypoint `i` to the next. */
  function Leg(x: seq<real>, y: seq<real>, i: nat): Vec2d
    requires i + 1 < |x| == |y|
  {
    Sub(Vec2d(x[i + 1], y[i + 1]), Vec2d(x[i], y[i]))
  }

  /** The angle between consecutive legs. */
  function TurningAngles(angle: AngleBetween, x: seq<real>, y: seq<real>): (angles: seq<real>)
    requires 2 < |x| == |y|
    ensures |angles| == |x| - 2
  {
    seq(|x| - 2, i requires 0 <= i < |x| - 2 =>
      angle(x[i + 1] - x[i], y[i + 1] - y[i], x[i + 2] - x[i + 1], y[i + 2] - y[i + 1]))
  }

  class TrajectoryTracking {
    const angle: AngleBetween
    const pi: real
    var captureRadius: real
    var desiredSpeed: real
    var mode: Mode
    var gridPointsIndex: nat
    var gridPointsX: seq<real>
    var gridPointsY: seq<real>
    var turningAngles: seq<real>
    var speedSetpoint: real
    /** The positions seen since the waypoints were set. */
    ghost var positions: seq<Vec2d>

    function Points(): (points: seq<Vec2d>)
      requires |gridPointsX| == |gridPointsY|
      reads this
      ensures |points| == |gridPointsX|
    {
      var x, y := gridPointsX, gridPointsY;
      seq(|x|, i requires 0 <= i < |x| => Vec2d(x[i], y[i]))
    }

    ghost predicate Valid()
      reads this
    {
      pi != 0.0 && 2 <= |gridPointsX| == |gridPointsY| &&
      (|gridPointsX| > 2 ==> |turningAngles| == |gridPointsX| - 2) &&
      gridPointsIndex == Index(Points(), captureRadius, positions)
    }

    constructor (angle: AngleBetween, pi: real, captureRadius: real)
      requires pi != 0.0
      ensures Valid() && this.captureRadius == captureRadius && gridPointsIndex == 0
    {
      this.angle := angle;
      this.pi := pi;
      this.captureRadius := captureRadius;
      desiredSpeed := 1.0;
      mode := Started;
      gridPointsIndex := 0;
      gridPointsX, gridPointsY := [0.0, 1.0], [1.0, 0.0];
      turningAngles := [];
      speedSetpoint := 0.0;
      positions := [];
    }

    method ComputeTurningAngles(x: seq<real>, y: seq<real>) returns (angles: seq<real>)
      requires 2 < |x| == |y|
      ensures angles == TurningAngles(angle, x, y)
      ensures |angles| == |x| - 2 && forall i :: 0 <= i < |x| - 2 ==>
        var leg, next := Leg(x, y, i), Leg(x, y, i + 1); angles[i] == angle(leg.x, leg.y, next.x, next.y)
    {
      angles := [];
      for i := 0 to |x| - 2
        invariant angles == TurningAngles(angle, x, y)[..i]
      {
        angles := angles + [angle(x[i + 1] - x[i], y[i + 1] - y[i], x[i + 2] - x[i + 1], y[i + 2] - y[i + 1])];
      }
    }

    method SetGridPoints(x: seq<real>, y: seq<real>, speed: real, radius: real)
      requires pi != 0.0 && 2 <= |x| == |y| && 0.0 < speed
      modifies this
      ensures Valid() && gridPointsX == x && gridPointsY == y && desiredSpeed == speed
      ensures captureRadius == if |x| > 2 then radius else old(captureRadius)
      ensures gridPointsIndex == 0 && positions == [] && mode == Started
      ensures |x| > 2 ==> turningAngles == TurningAngles(angle, x, y)
    {
      if |x| > 2 {
        turningAngles := ComputeTurningAngles(x, y);
        captureRadius := radius;
      }
      desiredSpeed := speed;
      gridPointsX, gridPointsY := x, y;
      gridPointsIndex := 0;
      mode := Started;
      positions := [];
    }

    /** One position: the index and the mode follow the track, the speed is reduced at a turn just reached. */
    method GridLOS(position: Vec2d)
      requires Valid()
      modifies this
      ensures Valid() && positions == old(positions) + [position]
      ensures gridPointsX == old(gridPointsX) && gridPointsY == old(gridPointsY) && captureRadius == old(captureRadius)
      ensures mode == if Finishes(Points(), captureRadius, positions) then Finished else Tracking
      ensures mode == Finished ==> speedSetpoint == old(speedSetpoint)
      ensures mode == Tracking ==>
        speedSetpoint == if gridPointsIndex > 0 && Captures(captureRadius, position, Points()[old(gridPointsIndex)])
                         then (1.0 - Abs(turningAngles[gridPointsIndex - 1]) / pi) * desiredSpeed else desiredSpeed
      ensures desiredSpeed == old(desiredSpeed) && turningAngles == old(turningAngles)
    {
      hide Captures, Index, Finishes, TurningAngles;
      ghost var points := Points();
      IndexSnoc(points, captureRadius, positions, position);
      positions := positions + [position];
      assert Points() == points;
      var wp0 := Vec2d(gridPointsX[gridPointsIndex], gridPointsY[gridPointsIndex]);
      var wp1 := Vec2d(gridPointsX[gridPointsIndex + 1], gridPointsY[gridPointsIndex + 1]);
      if |gridPointsX| > 2 {
        if Captures(captureRadius, position, wp1) {
          if gridPointsIndex == |gridPointsX| - 2 {
            mode := Finished;
            return;
          }
          gridPointsIndex := gridPointsIndex + 1;
        }
        if Captures(captureRadius, position, wp0) && gridPointsIndex > 0 {
          speedSetpoint := (1.0 - Abs(turningAngles[gridPointsIndex - 1]) / pi) * desiredSpeed;
        } else {
          speedSetpoint := desiredSpeed;
        }
      } else {
        if Captures(captureRadius, position, wp1) {
          mode := Finished;
          return;
        }
        speedSetpoint := desiredSpeed;
      }
      mode := Tracking;
    }
  }
}
