# Verified models of the vessel software's core algorithms

This project models, in Dafny, the parts of the repository where a small slip is hardest to see: the geometry kernel
used for collision checks, the smallest enclosing ball, Reeds-Shepp path planning, thrust allocation and the quadratic
program it solves, the Kalman filter, the CRC engine, the CSV reader, the logger's configuration index, wild-card
matching and waypoint tracking. Each model follows the code branch by branch; each main result is a statement about
all inputs, all states or all runs.

`dafny verify dfyconfig.toml` checks everything.

## How the code is modelled

Doubles are exact reals. Nothing is assumed of the C library except through predicates that appear in `requires`
clauses: `IsSqrt`, `IsTrig`, `Exact` (square root, sine and cosine with their addition laws, `atan2`, `asin`, `acos`)
and `Principal` (the ranges of the last three, and a positive sine between 0 and pi), and `Invertible` for Eigen's
matrix inverse. `math_utils.h`, `Vec2d.h` and Eigen are not part of this model; inner and cross products have their
usual definitions and `kMathEpsilon` is a positive constant. Objects whose methods update fields are classes, fixed
buffers are arrays, Eigen vectors and standard containers are sequences and maps, loops stay loops; what a loop
computes is stated by a function or a predicate, and the results below are proved about those.

**Geometry** (`SegmentDistance`, `NormalPosition`, `CaseTable`, `LineSegment2d`, `Rectangles`, `Extents`,
`SeparatingAxis`, `OverlapTest`, `Box2d`). The distance from a box to a segment goes through a sign classification,
two reflections, a swap and a table of ten cases. The result is the minimum of the distance over the two point sets,
attained and never undercut. The overlap test of two boxes is exact although it exits early on extents that start at
the origin and never shrink: they always cover the current corners.

**Smallest enclosing ball** (`Vectors`, `MiniballChain`, `MiniballCertificate`, `SmallestBalls`, `Dimension`,
`Subsets`, `MoveToFront`, `Miniball`). A chain of pushed points carries orthogonal vectors, an equidistant centre and
growing radii, and has at most d + 1 points, in any dimension d. A rejected push overwrites a row of the tables; the
class tracks how many rows of the last chain are intact. Back substitution on an intact chain yields the centre as an
affine combination of the pushed points, and without negative coefficients this certifies the unique smallest ball.
The move-to-front recursion terminates, permutes only the list prefix it is given, and keeps the forced points. Unless
a push is rejected, it computes the smallest ball around the prefix through the forced points, every iteration of the
driver makes the ball larger or ends the search, and the driver ends with a ball no larger than any around all points.

**Reeds-Shepp curves** (`Trigonometry`, `ReedsSheppWords`, `ReedsSheppFormulas`, `ReedsSheppRanges`, `ReedsShepp`).
Words of segments act on poses. Negating lengths, exchanging left and right, and reversing the order act on end points
as the code's rewritings say, for words of any length. Every one of the eight closed formulas is proved to satisfy the
equations it asserts, so every candidate of the five families leads to the goal; and to find every solution with the
signs in its name and turns below half a turn. So no word of the families with such lengths that leads to the goal is
shorter than the chosen path. Interpolation at full length ends at the goal.

**Thrust allocation** (`Thrusters`, `ThrustAllocation`, `QuadraticProgram`, `MosekProgram`, `OsqpProgram`,
`ProgramEquivalence`). The solver may answer with any vector within the bounds, or with zeros. Whatever it answers, a
thruster that was healthy stays healthy and changes gradually, step after step; and the rotations it can reach are
exactly the permitted ones, as long as an azimuth can turn into its range in one step. A thruster slow enough to
reverse turns the way the demanded force and moment ask. The two sparse encodings of the quadratic program, for any
number of thrusters, describe the same feasible set and the same cost. The constant 180/pi conversion is exact: `pi`
is any positive real.

**Kalman filter** (`Matrices`, `KalmanFilter`). For all dimensions, the covariance stays symmetric and positive
semidefinite over every run, a correction never increases it, and no other gain does better. The prediction carries
the covariance of A x + w, and without noise the estimation error is multiplied by (I - K H) A.

**CRC** (`Gf2`, `LongDivision`, `Crc`). Words are bit strings, most significant bit first. The table-driven engine is
long division of polynomials over GF(2); from that follow which errors it detects.

**CSV reader** (`Csv`). The character automaton over a stream with a fail bit. What is read back of printed rows of
well escaped fields, with quotes opening and closing anywhere, is stated for all rows, blank ones included, and all
mixtures of line ends; printing and reading are inverse exactly if no line begins with a line feed after another that
ends with a single character. Delimiters other than the quote, the backslash and the first character of the line end
are exactly those that work.

**Logger configuration** (`Configurations`, `TypedConfigurations`, `LoggerConfigurations`). The list searched by level
and type, and the maps compressed from it. The maps agree with the list exactly if a type's first entry has the value
of its Global entry; every run from the defaults keeps it so.

**Wild cards** (`WildCard`) and **waypoints** (`Waypoints`): a recursive matcher against the meaning of patterns, and
a tracker against the captures in its history.

## Where the code differs from its description

- A tunnel thruster may change by one turn more than `max_delta_rotation`: every answer within the bounds does so
  exactly if the thruster turns at `max_delta_rotation` and the demand asks it to reverse (`OvershootExactly`), and
  such answers exist (`OvershootAttainable`). There the thrust bounds leave no thrust, and the rotation is forced away
  from zero.
- A stopped thruster is treated as turning forwards, whatever its angle. A tunnel thruster stopped at -90 degrees and
  asked backwards is sent to -270 degrees (`StoppedBackwards`); of the two angles only 90 is safe to stop at
  (`StoppedExactly`).
- `setRemainingToDefault` is described as filling in what is not set. A value set at a level survives exactly if its
  type is `ToFile` or `LogFlushThreshold`, Global has a value of the type, or the value is the default
  (`SurvivesExactly`): a logger disabled at Debug only is enabled again (`SilencedAgainEnabled`). A level without a
  value gets its own default only under the condition of `FilledExactly`: `ToFile` and `LogFlushThreshold` are never
  filled in, the formats of Debug, Verbose and Trace only if Global has a format already, and other types only if
  Global has no value.
- Typed maps built from a list in which a type does not start with its Global value return wrong values for the level
  that comes first (`AgreesExactly`). Setting a level, then Global, then the level again on a new object makes such a
  list, and its index answers with the Global value (`LevelFirstWrong`, `DebugAnsweredWrong`).
- The decrement in `pivot_move_to_front` is never taken: the support end is then one less than the number of pushed
  points, which is at most d + 1.
- A line feed at the beginning of a line joins the end of the line before, unless that already consists of a return
  and a line feed. Blank lines ended by a single line feed disappear (`BlankLineLost`); rows are read back exactly
  under the condition of `ReadsBackExactly`, and `AllRoundTripExactly` says for which delimiters and line ends nothing
  is ever lost.

## Model

| member | source | states |
|---|---|---|
| CaseTable.FromCorner | common/math/Geometry/include/box2d.h:233-261 | for a segment starting beyond a corner, the switch returns the minimum distance to the rectangle in each of its reachable cases |
| CaseTable.FromSide | common/math/Geometry/include/box2d.h:262-279 | the same for a segment starting beside the right side |
| CaseTable.LocalDistance | common/math/Geometry/include/box2d.h:193-284 | classification, reflections, swap and table together give the minimum distance of every segment, the last return being unreachable |
| RectSegment.Certificate | common/math/Geometry/include/box2d.h:189-284 | a foot on the segment and a supporting point of the rectangle certify a minimum distance |
| RectSegment.FlipXSymmetry | common/math/Geometry/include/box2d.h:213-218 | reflecting the first coordinate keeps the distance |
| RectSegment.TransposeSymmetry | common/math/Geometry/include/box2d.h:225-231 | swapping coordinates and half sizes keeps the distance |
| NormalPosition.PtSegFoot | common/math/Geometry/include/box2d.h:451-469 | PtSegDistance is the distance to a foot of the point on the segment |
| LineSegments.NearestPoint | common/math/Geometry/include/linesegment2d.h:76-90 | the point found lies on the segment and no other point of it is nearer; for a segment no longer than kMathEpsilon it is the start, and no point of it is nearer by more than kMathEpsilon |
| LineSegments.PtSegDistanceAgrees | common/math/Geometry/include/linesegment2d.h:112-116 | PtSegDistance of the box equals DistanceTo of the segment; for a segment no longer than kMathEpsilon DistanceTo is larger by at most the length |
| Rectangles.FramesInverse | common/math/Geometry/include/box2d.h:439-449 | the two frame changes undo each other, for a unit heading |
| Rectangles.ContainsMeans | common/math/Geometry/include/box2d.h:47-63 | a rectangle is the set of points at most half a length along and half a width across its heading from the centre |
| Rectangles.NearlyContainsExactly | common/math/Geometry/include/box2d.h:147-155 | the two inequalities on local coordinates hold exactly if a point of the rectangle is within the tolerance in each coordinate of its frame |
| Rectangles.FromLocalFrame | common/math/Geometry/include/box2d.h:196-207 | a distance in the box's frame is the distance in the plane |
| Rectangles.LeavesThroughEdge | common/math/Geometry/include/box2d.h:287-306 | going from a point of a rectangle to one outside crosses an edge |
| Rectangles.EdgesDecide | common/math/Geometry/include/box2d.h:287-306 | if neither rectangle holds corner 0 of the other, the edges of one decide the distance |
| ExtentsModel.WidenAllLeast | common/math/Geometry/include/box2d.h:430-435 | the cached extents are the least that cover the old ones and the corners |
| ExtentsModel.CoversRect | common/math/Geometry/include/box2d.h:430-435 | extents that cover the corners cover the whole rectangle |
| SeparatingAxis.SeparatingAxisTheorem | common/math/Geometry/include/box2d.h:349-366 | two rectangles share a point exactly if no axis of either separates them |
| OverlapTest.AxesOverlapExact | common/math/Geometry/include/box2d.h:337-366 | the four inequalities of the code hold exactly if the rectangles share a point |
| Boxes.Box2d.constructor | common/math/Geometry/include/box2d.h:47-63 | a new box has the given rectangle, its corners, and extents that cover the corners and the origin |
| Boxes.Box2d.InitCorners | common/math/Geometry/include/box2d.h:425-437 | the corners are recomputed and the extents widened to cover them |
| Boxes.Box2d.UpdateBox2d | common/math/Geometry/include/box2d.h:93-101 | position and heading change, the sizes stay, the invariant is kept |
| Boxes.Box2d.RotateFromCenter | common/math/Geometry/include/box2d.h:379-385 | the heading turns, all else stays, the invariant is kept |
| Boxes.Box2d.Shift | common/math/Geometry/include/box2d.h:388-391 | the centre moves, all else stays, the invariant is kept |
| Boxes.Box2d.LongitudinalExtend | common/math/Geometry/include/box2d.h:397-401 | the length grows, the invariant is kept |
| Boxes.Box2d.LateralExtend | common/math/Geometry/include/box2d.h:403-407 | the width grows, the invariant is kept |
| Boxes.Box2d.IsPointIn | common/math/Geometry/include/box2d.h:147-155 | true exactly if some point of the rectangle is within kMathEpsilon, in each coordinate of its frame |
| Boxes.Box2d.DistanceToPoint | common/math/Geometry/include/box2d.h:174-186 | the minimum distance from the box to the point |
| Boxes.Box2d.DistanceToSegment | common/math/Geometry/include/box2d.h:189-284 | the minimum distance from the box to the segment; to its start if it is no longer than kMathEpsilon |
| Boxes.Box2d.DistanceToBox | common/math/Geometry/include/box2d.h:287-306 | 0 if a corner 0 is within kMathEpsilon of a point of the other box, in each coordinate of its frame; otherwise the result is the distance of two points and no two points are closer by more than kMathEpsilon; with longer edges it is the minimum distance; 0 only if a point of one box is within kMathEpsilon, per coordinate of a frame, of a point of the other |
| Boxes.Box2d.HasOverlapSegment | common/math/Geometry/include/box2d.h:313-324 | true exactly if the segment is within kMathEpsilon of the box and its extents meet the cached ones, so for every segment that touches the box; for a segment no longer than kMathEpsilon exactly if its start is within kMathEpsilon of a point of the box, in each coordinate of its frame |
| Boxes.Box2d.HasOverlap | common/math/Geometry/include/box2d.h:331-367 | true exactly if the two rectangles share a point, in every reachable state |
| MiniballChain.ChainOrthogonal | common/math/Geometry/include/Miniball.hpp:436-446 | the vectors of a chain are pairwise orthogonal |
| MiniballChain.CentreOrthogonal | common/math/Geometry/include/Miniball.hpp:464-465 | the displacement of a centre has no component along later vectors of the chain |
| MiniballChain.Equidistant | common/math/Geometry/include/Miniball.hpp:458-466 | every pushed point is at squared distance sqr_r from every later centre |
| MiniballChain.RadiusMonotone | common/math/Geometry/include/Miniball.hpp:466 | radii never decrease along a chain, and increase if the new point has excess |
| MiniballCertificate.AffineCombination | common/math/Geometry/include/Miniball.hpp:479-485 | back substitution gives coefficients with sum 1 that combine the pushed points to the centre |
| MiniballCertificate.SmallestBall | common/math/Geometry/include/Miniball.hpp:475-490 | without negative coefficients no ball around the pushed points is smaller, by the distance of the centres |
| SmallestBalls.Touching | common/math/Geometry/include/Miniball.hpp:333-335 | between a ball that misses a point and one that holds it there is one through the point, no larger than both, that keeps what both keep |
| SmallestBalls.LeastUnique | common/math/Geometry/include/Miniball.hpp:111-114 | smallest balls around some points, through some points, are unique |
| SmallestBalls.LeastGrows | common/math/Geometry/include/Miniball.hpp:333-337 | the smallest ball with a missed point forced is the smallest with it inside, and larger than before |
| SmallestBalls.SupportGrows | common/math/Geometry/include/Miniball.hpp:336-339 | so it is for the support alone |
| SmallestBalls.ChainLeast | common/math/Geometry/include/Miniball.hpp:320-323 | the ball of a chain is the smallest through its points |
| Dimension.ChainLength | common/math/Geometry/include/Miniball.hpp:324 | no chain has more than d + 1 points |
| Dimension.FullChain | common/math/Geometry/include/Miniball.hpp:324 | through d + 1 points of a chain there is one ball only, so nothing is left to visit |
| Miniballs.Miniball.constructor | common/math/Geometry/include/Miniball.hpp:175-201 | the state before the first pivot |
| Miniballs.Miniball.Excess | common/math/Geometry/include/Miniball.hpp:402-411 | squared distance from the current centre minus the squared radius |
| Miniballs.Miniball.Push | common/math/Geometry/include/Miniball.hpp:419-472 | an accepted push extends the chain and the ball passes through the point; a rejected one leaves the ball and the rows of the current chain before fsize; rejected exactly if the new vector is too short |
| Miniballs.Miniball.Pop | common/math/Geometry/include/Miniball.hpp:414-416 | one point fewer is forced, the ball stays |
| Miniballs.Miniball.MtfMoveToFront | common/math/Geometry/include/Miniball.hpp:343-346 | the element comes first, the others keep their order, the support end follows |
| Miniballs.Miniball.MtfMb | common/math/Geometry/include/Miniball.hpp:312-340 | terminates, permutes only the prefix, restores fsize, keeps support_end == ssize - fsize, never shrinks the ball, never pushes beyond row d; without a rejected push the ball is the smallest around the prefix through the forced points, and already so around the support |
| Miniballs.Miniball.Force | common/math/Geometry/include/Miniball.hpp:332-337 | one visited element: pushed, recursed upon, popped, moved to the front; then it belongs to what the ball is smallest for |
| Miniballs.Miniball.PivotMoveToFront | common/math/Geometry/include/Miniball.hpp:396-399 | the pivot comes first and joins the support; the decrement is not taken when the caller's support lacks just the pivot |
| Miniballs.Miniball.FindPivot | common/math/Geometry/include/Miniball.hpp:364-375 | a point of greatest excess |
| Miniballs.Miniball.PivotStep | common/math/Geometry/include/Miniball.hpp:361-391 | one iteration keeps the state between iterations; within tolerance it changes nothing, otherwise the ball grows unless a push is rejected |
| Miniballs.Miniball.PivotMb | common/math/Geometry/include/Miniball.hpp:348-394 | without a rejected push the loop ends, and then no ball around all points is smaller and none of them is outside by more than the tolerance |
| Miniballs.Miniball.Substitute | common/math/Geometry/include/Miniball.hpp:481-482 | one coefficient of the back substitution |
| Miniballs.Miniball.Suboptimality | common/math/Geometry/include/Miniball.hpp:475-490 | 0 exactly if no coefficient is negative, else the absolute value of the least |
| Miniballs.Miniball.LowerBound | common/math/Geometry/include/Miniball.hpp:131-133 | an intact chain without negative coefficients: no enclosing ball is smaller |
| Miniballs.Miniball.UniqueSmallest | common/math/Geometry/include/Miniball.hpp:111-114 | if moreover no point has excess, the ball is the unique smallest one around all input points |
| Miniballs.Miniball.RelativeError | common/math/Geometry/include/Miniball.hpp:278-297 | for a positive radius the error bounds the excess of every input point and, if positive, is that of one of them; 0 for radius zero; the suboptimality is 0 or the absolute value of the least coefficient |
| Miniballs.Miniball.IsValid | common/math/Geometry/include/Miniball.hpp:300-304 | true exactly if no coefficient is negative and, for a positive radius, no input point has excess above the tolerance; a valid intact ball is smallest up to the tolerance |
| ReedsSheppWords.MoveMeans | common/math/Geometry/include/Reeds_Shepp.h:194-213 | a turn keeps the centre on its side and turns the heading by its length, a straight segment moves along the heading |
| ReedsSheppWords.DriveFlipped | common/math/Geometry/include/Reeds_Shepp.h:308-313 | negating all lengths leads to (-x, y, -phi), for words of any length |
| ReedsSheppWords.DriveReflected | common/math/Geometry/include/Reeds_Shepp.h:314-319 | exchanging left and right leads to (x, -y, -phi) |
| ReedsSheppWords.DriveReversed | common/math/Geometry/include/Reeds_Shepp.h:396-402 | reversing a word leads to (xb, yb, phi) |
| ReedsSheppWords.DriveComposes | common/math/Geometry/include/Reeds_Shepp.h:160-170 | a word acts from any pose as from the origin |
| ReedsSheppWords.BackwardsInvolution | common/math/Geometry/include/Reeds_Shepp.h:397-398 | the backwards substitution undoes itself |
| ReedsSheppFormulas.Mod2PiCongruent | common/math/Geometry/include/Reeds_Shepp.h:239-246 | mod2pi changes an angle by whole turns |
| ReedsSheppFormulas.Mod2PiRange | common/math/Geometry/include/Reeds_Shepp.h:239-246 | its result lies between -pi and pi |
| ReedsSheppFormulas.TauOmegaSolves | common/math/Geometry/include/Reeds_Shepp.h:253-261 | tau solves the pair of equations tauOmega is used for |
| ReedsSheppFormulas.LpSpLpSound | common/math/Geometry/include/Reeds_Shepp.h:264-277 | formula 8.1 satisfies its three assertions exactly |
| ReedsSheppFormulas.LpSpRpSound | common/math/Geometry/include/Reeds_Shepp.h:280-299 | formula 8.2 satisfies its assertions |
| ReedsSheppFormulas.LpRmLSound | common/math/Geometry/include/Reeds_Shepp.h:351-367 | formula 8.3 / 8.4 satisfies its assertions |
| ReedsSheppFormulas.LpRupLumRmSound | common/math/Geometry/include/Reeds_Shepp.h:423-440 | formula 8.7 satisfies its assertions |
| ReedsSheppFormulas.LpRumLumRpSound | common/math/Geometry/include/Reeds_Shepp.h:443-460 | formula 8.8 satisfies its assertions |
| ReedsSheppFormulas.LpRmSmLmSound | common/math/Geometry/include/Reeds_Shepp.h:517-534 | formula 8.9 satisfies its assertions |
| ReedsSheppFormulas.LpRmSmRmSound | common/math/Geometry/include/Reeds_Shepp.h:537-553 | formula 8.10 satisfies its assertions |
| ReedsSheppFormulas.LpRmSLmRpSound | common/math/Geometry/include/Reeds_Shepp.h:659-677 | formula 8.11 satisfies its assertions |
| ReedsSheppFormulas.FormulaSound | common/math/Geometry/include/Reeds_Shepp.h:264-677 | every solution of every formula satisfies the equations it asserts |
| ReedsSheppRanges.FormulaFinds | common/math/Geometry/include/Reeds_Shepp.h:264-677 | every solution of the equations of a formula with the signs in its name and turns below half a turn is the one returned |
| ReedsSheppRanges.SolutionInRange | common/math/Geometry/include/Reeds_Shepp.h:264-677 | every solution returned has these signs up to the tolerance, and turns by at most half a turn |
| ReedsShepps.EquationsReach | common/math/Geometry/include/Reeds_Shepp.h:184-213 | the asserted equations hold exactly if the formula's word drives from the origin to its goal |
| ReedsShepps.RewriteReaches | common/math/Geometry/include/Reeds_Shepp.h:396-419 | if a word reaches the transformed goal, the rewritten word reaches the goal itself |
| ReedsShepps.CandidateIsRewrite | common/math/Geometry/include/Reeds_Shepp.h:34-53 | the path type table and the written lengths are the rewriting of the formula's word, in all uses |
| ReedsShepps.CandidateReaches | common/math/Geometry/include/Reeds_Shepp.h:301-706 | every candidate of every family leads to the goal |
| ReedsShepps.WeightIsLength | common/math/Geometry/include/Reeds_Shepp.h:555-562 | what is compared differs from the path length by the quarter turns shared in the family |
| ReedsShepps.FamilyFound | common/math/Geometry/include/Reeds_Shepp.h:301-706 | every word of a family, with lengths in the range of its formula, that leads to the goal is among the candidates, with its own length |
| ReedsShepps.ReedsSheppStateSpace.CSC | common/math/Geometry/include/Reeds_Shepp.h:301-348 | the result is the given path or a candidate, and no longer than any of the eight candidates |
| ReedsShepps.ReedsSheppStateSpace.CCC | common/math/Geometry/include/Reeds_Shepp.h:369-420 | the same for eight candidates, four of them backwards |
| ReedsShepps.ReedsSheppStateSpace.CCCC | common/math/Geometry/include/Reeds_Shepp.h:462-514 | the same for eight candidates |
| ReedsShepps.ReedsSheppStateSpace.CCSC | common/math/Geometry/include/Reeds_Shepp.h:555-656 | the same for sixteen candidates, eight of them backwards |
| ReedsShepps.ReedsSheppStateSpace.CCSCC | common/math/Geometry/include/Reeds_Shepp.h:679-706 | the same for four candidates |
| ReedsShepps.ReedsSheppStateSpace.Shortest | common/math/Geometry/include/Reeds_Shepp.h:229-237 | a path found reaches the goal, is the least of all accepted candidates, and no word of the families in range that leads to the goal is shorter |
| ReedsShepps.ReachesArrives | common/math/Geometry/include/Reeds_Shepp.h:160-170 | a word leads to the goal in the frame of the start exactly if it leads from one pose to the other in the plane, heading up to whole turns |
| ReedsShepps.ReedsSheppStateSpace.Plan | common/math/Geometry/include/Reeds_Shepp.h:160-170 | a path planned between two poses leads from one to the other, heading up to whole turns, and no word of the families in range that does so is shorter |
| ReedsShepps.ReedsSheppStateSpace.Interpolate | common/math/Geometry/include/Reeds_Shepp.h:172-219 | the pose after driving the segments clipped to the given arc length |
| ReedsShepps.ClippedLength | common/math/Geometry/include/Reeds_Shepp.h:186-192 | the clipped segments have exactly the requested length, or that of the path |
| ReedsShepps.ClippedShape | common/math/Geometry/include/Reeds_Shepp.h:186-192 | no segment is lengthened or turned around, and none moves after one that is cut |
| ReedsShepps.PlannedPathEnds | common/math/Geometry/include/Reeds_Shepp.h:172-219 | interpolating a planned path at its full length ends at the goal |
| Thrusters.IntegerRoot | modules/controller/include/thrustallocation.h:807-808 | the truncated square root is the greatest integer whose square is at most the argument |
| Thrusters.RootBetween | modules/controller/include/thrustallocation.h:802-888 | a thrust between those of two rotations asks for a rotation between them |
| Thrusters.TunnelStep | modules/controller/include/thrustallocation.h:438-506 | a tunnel thruster never stops, turns as its angle says, and changes by at most max_delta_rotation, or one more exactly when reversing from max_delta_rotation |
| Thrusters.AzimuthStep | modules/controller/include/thrustallocation.h:509-542 | an azimuth thruster stays within its rotation and angle ranges and changes gradually |
| Thrusters.TwinFixedStep | modules/controller/include/thrustallocation.h:635-710 | a twin fixed thruster never stops, points as it turns, keeps its rate limits, and reverses only below max_delta_rotation_p2n |
| Thrusters.StepSafe | modules/controller/include/thrustallocation.h:90-96 | every kind of thruster stays healthy and changes gradually for every demand and every solver answer |
| Thrusters.DirectionFollows | modules/controller/include/thrustallocation.h:438-710 | a tunnel thruster at most at its rate turns forwards exactly if asked for a positive moment, a twin below its reversal limit exactly if asked for a nonnegative share |
| Thrusters.ThrustMatchesRotation | modules/controller/include/thrustallocation.h:802-888 | the corrected thrust asks for exactly the commanded rotation, and is left alone if it did so before |
| Thrusters.RunSafe | modules/controller/include/thrustallocation.h:90-96 | the same for every command of every run with the previous command as feedback |
| Thrusters.AttainableExactly | modules/controller/include/thrustallocation.h:438-710 | the rotations that answers within the bounds lead to are exactly the permitted ones, in the demanded direction, as long as an azimuth can turn into its range in one step |
| Thrusters.InitialHealthy | modules/controller/include/thrustallocation.h:98-135 | the initial command is healthy, and no healthy thruster turns slower |
| Thrusters.BoundsNotEmpty | modules/controller/include/thrustallocation.h:438-710 | the bounds of a healthy thruster are contradictory exactly if an azimuth cannot turn into its range in one step |
| Thrusters.HalfDegreeEnough | modules/controller/include/thrustallocation.h:512-519 | an azimuth that may turn by half a degree per step can always turn into its range |
| Thrusters.StoppedStarts | modules/controller/include/thrustallocation.h:891-965 | a stopped tunnel or twin thruster at its forward angle is healthy after a step and starts from one turn |
| Thrusters.SlowAzimuthRecovers | modules/controller/include/thrustallocation.h:908-924 | an azimuth thruster below its minimum is healthy after a step and starts from the minimum |
| Thrusters.StoppedBackwards | modules/controller/include/thrustallocation.h:891-906 | a stopped tunnel thruster at -90 degrees asked backwards ends at -270 degrees, which is not healthy |
| Thrusters.StoppedExactly | modules/controller/include/thrustallocation.h:438-506 | a stopped tunnel thruster at 90 or -90 degrees is healthy after every step exactly if it is at 90 |
| Thrusters.OvershootExactly | modules/controller/include/thrustallocation.h:438-506 | a tunnel thruster changes by more than max_delta_rotation exactly if it turns at that rate and is asked to reverse |
| Thrusters.OvershootAttainable | modules/controller/include/thrustallocation.h:438-506 | then there are answers within the bounds, whichever way it turns |
| Thrusters.ZeroAnswerKeeps | modules/controller/include/thrustallocation.h:802-888 | a failed solver leaves every healthy thruster as it is |
| ThrustAllocations.TwinDemandBalances | modules/controller/include/thrustallocation.h:638-644 | the demands of the twins add up to the surge force and the yaw moment |
| ThrustAllocations.OnlyBalance | modules/controller/include/thrustallocation.h:638-644 | no other pair of thrusts adds up to them |
| ThrustAllocations.ThrustAllocation.ConvertAlphaInt2Radian | modules/controller/include/thrustallocation.h:779-800 | feedback angles in radians, those of rudders untouched |
| ThrustAllocations.ThrustAllocation.CalculateU | modules/controller/include/thrustallocation.h:891-965 | feedback rotations normalised and thrusts computed for every thruster |
| ThrustAllocations.ThrustAllocation.CalculateConstraints | modules/controller/include/thrustallocation.h:438-710 | the bound vectors hold the bounds of every thruster |
| ThrustAllocations.ThrustAllocation.UpdateAlphaAndU | modules/controller/include/thrustallocation.h:738-743 | commands are feedback plus increments |
| ThrustAllocations.ThrustAllocation.ConvertAlphaRadian2Int | modules/controller/include/thrustallocation.h:746-776 | commanded angles in whole degrees |
| ThrustAllocations.ThrustAllocation.CalculateRotation | modules/controller/include/thrustallocation.h:802-888 | commanded rotations and corrected thrusts for every thruster |
| ThrustAllocations.ThrustAllocation.UpdateNextstepCommand | modules/controller/include/thrustallocation.h:722-735 | the solution becomes the commanded angles, rotations and thrusts |
| ThrustAllocations.ThrustAllocation.OneStepThrustAllocation | modules/controller/include/thrustallocation.h:90-96 | one step over all thrusters is a step of each of them, and keeps every healthy one healthy and gradual; if the solver respects the bounds, slow tunnel thrusters turn the way of the yaw moment and slow twins the way of their shares of force and moment; if it fails, every healthy thruster is left as it is |
| QuadraticPrograms.FeasibleMeans | modules/controller/include/thrustallocation.h:1062-1088 | thrust, angle and slack increments are feasible exactly if they balance the force equations within the bounds |
| QuadraticPrograms.CostMeans | modules/controller/include/thrustallocation.h:1062-1088 | the cost is the weighted squares of the three parts and the linear terms of the first two |
| QuadraticPrograms.SlacksComplete | modules/controller/include/thrustallocation.h:399-407 | any increments within bounds are completed by slacks: the program is never infeasible for other reasons |
| MosekPrograms.EncodedRow | modules/controller/include/thrustallocation.h:381-398 | the column arrays expand to [B, dB, I] |
| MosekPrograms.EncodingFeasible | modules/controller/include/thrustallocation.h:366-418 | the Mosek arrays admit exactly the solutions of the program |
| MosekPrograms.EncodingCost | modules/controller/include/thrustallocation.h:403-417 | the Mosek arrays charge every point the cost of the program |
| MosekPrograms.MosekProgram.constructor | modules/controller/include/thrustallocation.h:366-418 | initialisation fills pointers, keys and the fixed costs |
| MosekPrograms.MosekProgram.UpdateMosekParameters | modules/controller/include/thrustallocation.h:1062-1088 | after an update the arrays hold the program of the step |
| OsqpPrograms.EncodedShape | modules/controller/include/thrustallocation_osqp.h:1016-1035 | both compressed matrices are well formed |
| OsqpPrograms.EncodedRow | modules/controller/include/thrustallocation_osqp.h:1016-1035 | the constraint matrix expands to [[B, dB, I], [I, 0], [0, I]] |
| OsqpPrograms.EncodingFeasible | modules/controller/include/thrustallocation_osqp.h:995-1048 | the work arrays admit exactly the solutions of the program |
| OsqpPrograms.EncodingCost | modules/controller/include/thrustallocation_osqp.h:999-1014 | the work arrays charge every point the cost of the program |
| OsqpPrograms.OsqpProgram.constructor | modules/controller/include/thrustallocation_osqp.h:995-1048 | initialisation fills both matrices, the fixed costs and the free slack rows |
| OsqpPrograms.OsqpProgram.UpdateOsqpParameters | modules/controller/include/thrustallocation_osqp.h:1078-1104 | after an update the arrays hold the program of the step |
| ProgramEquivalence.SameProgram | modules/controller/include/thrustallocation_osqp.h:1078-1104 | Mosek and OSQP are given the same feasible set and the same cost at every point |
| Kalman.PredictedEntry | modules/estimator/include/kalmanfilter.h:134 | every entry of the predicted covariance is that of A x + w |
| Kalman.PredictedForm | modules/estimator/include/kalmanfilter.h:134 | as a quadratic form, P in the direction of A's transpose applied to x, and Q at x |
| Kalman.InnovationEntry | modules/estimator/include/kalmanfilter.h:140 | every entry of H P H^T + R is that of the covariance of H x + v |
| Kalman.CorrectedForm | modules/estimator/include/kalmanfilter.h:140-143 | (I - K H) P as a quadratic form: P less what is seen through the gain |
| Kalman.JosephForm | modules/estimator/include/kalmanfilter.h:143 | the Joseph form for any gain as a quadratic form |
| Kalman.CorrectionIsJoseph | modules/estimator/include/kalmanfilter.h:143 | with the gain of the code, (I - K H) P equals the Joseph form |
| Kalman.CorrectionSound | modules/estimator/include/kalmanfilter.h:139-144 | a correction keeps P symmetric and positive semidefinite and never increases it |
| Kalman.GainOptimal | modules/estimator/include/kalmanfilter.h:140 | no other gain gives a smaller covariance |
| Kalman.ErrorCorrected | modules/estimator/include/kalmanfilter.h:142 | for a noiseless measurement of a true state a correction leaves (I - K H) times the error |
| Kalman.StepError | modules/estimator/include/kalmanfilter.h:75-80 | and a whole step (I - K H) A times the error before |
| Kalman.StepPositive | modules/estimator/include/kalmanfilter.h:75-80 | prediction and correction keep P symmetric and positive semidefinite |
| Kalman.RunPositive | modules/estimator/include/kalmanfilter.h:75-92 | the same over every run with arbitrary matrices in each step |
| Kalman.IdentityPositive | modules/estimator/include/kalmanfilter.h:63 | the initial covariance is symmetric and positive semidefinite |
| Kalman.KalmanFilter.constructor | modules/estimator/include/kalmanfilter.h:55-65 | the initial state is valid |
| Kalman.KalmanFilter.Predict | modules/estimator/include/kalmanfilter.h:132-135 | state after a prediction, and the covariance entry by entry that of A x + w |
| Kalman.KalmanFilter.Correct | modules/estimator/include/kalmanfilter.h:139-144 | state, gain and covariance after a correction, which never increases the covariance |
| Kalman.KalmanFilter.LinearKalman | modules/estimator/include/kalmanfilter.h:75-80 | a whole step, valid again afterwards; for a noiseless measurement of any true state the error left is (I - K H) A times the error before |
| LongDivision.StepsXor | common/communication/include/crc.h:45-52 | the shift register is linear |
| LongDivision.FeedIsSteps | common/communication/include/crc.h:92-95 | up to a register's width of message bits may be injected before shifting |
| LongDivision.FeedIsRemainder | common/communication/include/crc.h:40-55 | the register is the remainder of init x^n + M x^W modulo x^W + poly |
| Gf2.RemainderUnique | common/communication/include/crc.h:40-55 | the remainder modulo the generator is unique |
| Gf2.ToBitsAt | common/communication/include/crc.h:42 | the bit of weight 2^(n - 1 - i) comes at place i |
| Crcs.FlattenAt | common/communication/include/crc.h:92-95 | messages are fed byte after byte, each from its most significant bit |
| Crcs.EntryIsSteps | common/communication/include/crc.h:41-55 | a table entry is eight steps of long division of the aligned byte |
| Crcs.ByteStep | common/communication/include/crc.h:93-94 | one look-up does the work of eight single-bit steps |
| Crcs.Crc.constructor | common/communication/include/crc.h:65-74 | parameters stored and the table filled |
| Crcs.Crc.Build | common/communication/include/crc.h:76-84 | the table follows the new polynomial, the running remainder stays |
| Crcs.Crc.CrcInit | common/communication/include/crc.h:36-56 | every entry is what its byte leaves in a zero register |
| Crcs.Crc.CrcCompute | common/communication/include/crc.h:86-98 | the checksum of bit-at-a-time long division |
| Crcs.Crc.CrcComputePart | common/communication/include/crc.h:100-115 | the running remainder goes on by long division |
| Crcs.ChecksumIsRemainder | common/communication/include/crc.h:86-98 | the checksum is the remainder of polynomial division |
| Crcs.PartsAgree | common/communication/include/crc.h:100-115 | a message cut into any parts, reinitialised at the first only, has the one-shot checksum |
| Crcs.ResidueIndependent | common/communication/include/crc.h:86-98 | appending the big-endian checksum leaves a residue independent of the message |
| Crcs.BurstDetected | common/communication/include/crc.h:86-98 | with an odd polynomial, every change within W consecutive bits changes the checksum |
| Crcs.OddErrorsDetected | common/communication/include/crc.h:86-98 | with a polynomial of odd weight, every odd number of changed bits changes the checksum |
| Crcs.Undetected | common/communication/include/crc.h:86-98 | a change is undetected exactly if the generator divides it times x^W |
| Csv.InputStream.Get | common/fileIO/include/csvstream.h:101 | reading a character, or failing at the end or with the fail bit set |
| Csv.ReadCsvLine | common/fileIO/include/csvstream.h:91-189 | the fields and the rest of the input the automaton defines; every success makes progress; failure exactly at the end |
| Csv.PiecesCover | common/fileIO/include/csvstream.h:91-189 | successive reads consume nonempty pieces that concatenate to the input, one for each row |
| Csv.ReadText | common/fileIO/include/csvstream.h:114-158 | an escaped text is taken as it stands, inside quotes or outside |
| Csv.ReadField | common/fileIO/include/csvstream.h:114-158 | a field yields its text, wherever quotes open and close in it |
| Csv.ReadEnd | common/fileIO/include/csvstream.h:124-172 | a line feed, a return or both end the row and are consumed, with a line feed after a single character but none after both |
| Csv.RoundTrip | common/fileIO/include/csvstream.h:91-189 | rows of which none joins the line end before are read back, with any mixture of line ends and of quoted and bare fields, and then the input is at its end |
| Csv.ReadsSeen | common/fileIO/include/csvstream.h:91-189 | all printed rows, with blank ones anywhere: a line feed at the beginning of a line takes away an empty field or a blank line, and everything else is read back |
| Csv.ReadsBackExactly | common/fileIO/include/csvstream.h:160-172 | exactly the rows printed are read back if and only if no line begins with a line feed, except after a return and a line feed |
| Csv.BlankLineLost | common/fileIO/include/csvstream.h:160-172 | a blank line between two others is lost with line feeds, and kept with returns or both |
| Csv.RoundTripsExactly | common/fileIO/include/csvstream.h:113-132 | printing and reading agree on all rows exactly if the delimiter differs from quote, backslash and the start of the line end |
| Csv.AllRoundTripExactly | common/fileIO/include/csvstream.h:113-172 | nothing at all is lost exactly for distinct delimiters with both characters at line ends, or with returns and a delimiter other than a line feed |
| Csv.CsvStream.ReadHeader | common/fileIO/include/csvstream.h:292-297 | the first line becomes the header, failing on an empty input |
| Csv.CsvStream.Extract | common/fileIO/include/csvstream.h:224-255 | the row as a map, the end, or a length error in strict mode |
| Csv.CombineKeys | common/fileIO/include/csvstream.h:249-252 | the map has exactly the columns of the header |
| Csv.CombineAt | common/fileIO/include/csvstream.h:249-252 | a column holds the value under its last occurrence |
| Csv.ColumnHolds | common/fileIO/include/csvstream.h:231-252 | without strictness a column holds the field under it, or an empty text if the row is too short |
| ConfigurationLists.LookupSetOne | common/logging/src/easylogging++.cc:377-386 | a set value is found at its level, a Global value at every level, all else stays |
| ConfigurationLists.LookupSetEverywhere | common/logging/src/easylogging++.cc:638-650 | setting globally is found at every level |
| ConfigurationLists.SetOneIndexed | common/logging/src/easylogging++.cc:623-636 | setting keeps keys unique and Global first, if Global has a value |
| TypedMaps.AgreesExactly | common/logging/include/easylogging++.h:2187-2214 | with unique keys, the compressed map agrees with the list exactly if the type's first entry has its Global value |
| LoggerConfigurations.LevelFirstWrong | common/logging/include/easylogging++.h:2187-2214 | a level set before and after Global is answered with the Global value |
| LoggerConfigurations.DebugAnsweredWrong | common/logging/include/easylogging++.h:2143-2163 | Debug, enabled last, is answered as disabled |
| LoggerConfigurations.Configurations.Find | common/logging/include/easylogging++.h:1634-1641 | the first matching entry, or none |
| LoggerConfigurations.Configurations.UnsafeSet | common/logging/src/easylogging++.cc:623-636 | the new list: one entry changed or appended, every level if Global |
| LoggerConfigurations.Configurations.UnsafeSetGlobally | common/logging/src/easylogging++.cc:652-664 | the new list with the value at every level |
| LoggerConfigurations.Configurations.Set | common/logging/src/easylogging++.cc:377-386 | the new list after a set |
| LoggerConfigurations.Configurations.SetGlobally | common/logging/src/easylogging++.cc:638-650 | the new list after a global set |
| LoggerConfigurations.Configurations.SetToDefault | common/logging/src/easylogging++.cc:395-425 | the default list |
| LoggerConfigurations.Configurations.SetRemainingToDefault | common/logging/src/easylogging++.cc:427-462 | the list with missing values filled in, one after the other |
| LoggerConfigurations.Configurations.SetFromBase | common/logging/src/easylogging++.cc:342-350 | every entry of another object set in order; nothing for itself or null |
| LoggerConfigurations.LookupDefault | common/logging/src/easylogging++.cc:395-425 | the value of every level and type after setToDefault |
| LoggerConfigurations.RunLookup | common/logging/src/easylogging++.cc:377-462 | after any run from the defaults, every level and type holds the value last set there |
| LoggerConfigurations.RunIndexed | common/logging/src/easylogging++.cc:612-664 | any run keeps keys unique and Global first |
| LoggerConfigurations.IndexReturnsLastSet | common/logging/src/easylogging++.cc:1858-1912 | after any run the typed maps return, at every level, the parsed value last set there |
| LoggerConfigurations.FromBasePreserves | common/logging/src/easylogging++.cc:342-350 | a new object set from an indexed base answers every search as the base, or with its Global value |
| LoggerConfigurations.RemainingMeans | common/logging/src/easylogging++.cc:427-462 | what setRemainingToDefault leaves at every level, of every type and for every list |
| LoggerConfigurations.SurvivesExactly | common/logging/src/easylogging++.cc:427-462 | a set value survives exactly if its type is never filled in, Global has a value of the type, or it is the default |
| LoggerConfigurations.FilledExactly | common/logging/src/easylogging++.cc:427-462 | exactly when a level without a value gets its own default |
| LoggerConfigurations.SilencedAgainEnabled | common/logging/src/easylogging++.cc:427-435 | a logger disabled at Debug only is enabled again |
| LoggerConfigurations.TrimSplits | common/logging/src/easylogging++.cc:978-992 | trimming takes away spaces at both ends, and all of them |
| LoggerConfigurations.BoolMeans | common/logging/src/easylogging++.cc:1860-1864 | true exactly for TRUE, true or 1 between any spaces |
| LoggerConfigurations.NumberRoundTrip | common/logging/src/easylogging++.cc:1930-1945 | a natural number in decimal, between any spaces, is read back |
| LoggerConfigurations.NumberRejected | common/logging/src/easylogging++.cc:1930-1945 | what is not digits between spaces reads as 0 |
| LoggerConfigurations.SubsecondMeans | common/logging/src/easylogging++.cc:1893-1896 | a width from 1 to 6 is kept, every other one that fits an int becomes 3 |
| LoggerConfigurations.LastDecides | common/logging/src/easylogging++.cc:1882-1893 | subsecond precision and performance tracking take the last entry, whatever its level |
| LoggerConfigurations.TypedConfigurations.Build | common/logging/src/easylogging++.cc:1858-1912 | every map but that of file names is the compressed index of its type, with the subsecond width normalised |
| WildCards.DenotesStar | common/logging/src/easylogging++.cc:966-969 | a star takes nothing or one character more |
| WildCards.WildCardMatch | common/logging/src/easylogging++.cc:958-976 | terminates, and is true exactly if the pattern denotes the whole string |
| Waypoints.CapturesMeans | modules/controller/include/trajectorytracking.h:43-49 | a waypoint is captured exactly if its distance is at most the radius |
| Waypoints.IndexSteps | modules/controller/include/trajectorytracking.h:128-137 | the index never decreases and rises by at most one |
| Waypoints.IndexCaptured | modules/controller/include/trajectorytracking.h:128-137 | as many waypoints as the index counts have been captured in order |
| Waypoints.IndexBest | modules/controller/include/trajectorytracking.h:128-137 | no choice of earlier positions captures more in order |
| Waypoints.FinishedExactly | modules/controller/include/trajectorytracking.h:131-134 | finished exactly if the last position captures the last waypoint and the others were captured before, in order |
| Waypoints.TrajectoryTracking.SetGridPoints | modules/controller/include/trajectorytracking.h:179-198 | new waypoints, index and mode reset, turning angles computed |
| Waypoints.TrajectoryTracking.ComputeTurningAngles | modules/controller/include/trajectorytracking.h:230-246 | the angles between consecutive legs |
| Waypoints.TrajectoryTracking.GridLOS | modules/controller/include/trajectorytracking.h:116-161 | every access in range; mode and speed follow the history of positions |

## Left out

- Rounding of doubles: all arithmetic is exact, so tolerances only appear where the code compares with them.
- PivotMb: what happens after a rejected push is not bounded, so the loop is given a limit of iterations; without one it ends by itself. The certificate says when a ball is smallest all the same.
- Push: not stated for the only point of a ball of radius zero, where the code divides by zero, nor with d + 1 points forced, where it would write beyond its tables; it is called in neither case.
- UniqueSmallest: needs the rows of the last chain intact, since a rejected push overwrites a row that `suboptimality` may read.
- CRC at width 8: the table loop of the one-byte engine cannot exit (its counter never reaches 256), so the model has registers wider than 8 bits; bit reflection is not in the code either.
- Rudders: their thrust and angle bounds use `atan` and a misplaced vertex; slots of thrusters with a rudder keep their values in the model.
- The matrices of the quadratic program: `B_alpha`, its numerical derivative, the singularity term and the weights are data of a step.
- The solvers, their settings and error codes; Eigen's inverse is assumed to be one where `Invertible` says so.
- Shortest: words with turns of half a turn or more are not compared with the path, since `mod2pi` returns one representative only; that some candidate is always accepted is not shown, and without one the path stays the initial one.
- `rs_trajectory`, `rs_state` and `rs_type`: sampling along a path.
- The heading of a segment and the box constructors from a segment or an axis-parallel box; perpendicular feet, intersections and boundary tests.
- GridLOS: the heading of the line of sight and the cross-track error need `atan2` and `asin` of the position and are not modelled.
- `getMaxEigenP` and the vessel-specific subclass of the Kalman filter.
- The vector form of the CSV extraction, whose length check compares two sizes just made equal; error texts and file opening.
- Log files, file rolling, the `Filename` map, date and time formats, threads, and parsing of configuration text. `getULong` is exact, without overflow.
- Aliasing of registered configurations: an entry is a value of the list, not a shared object.
- Sockets, databases, JSON, plotting, planners, simulators and wave models: plumbing or numeric physics.
