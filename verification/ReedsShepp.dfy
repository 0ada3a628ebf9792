/** Choosing the shortest Reeds-Shepp path and driving along it (Reeds_Shepp.h). */
module ReedsShepps {
  import opened Reals
  import opened Trigonometry
  import opened ReedsSheppFormulas
  import opened ReedsSheppRanges
  import opened ReedsSheppWords
  import opened Wrappers

  /** The table of path types. */
  function PathType(k: nat): (kinds: seq<Kind>)
    requires k < 18
    ensures |kinds| == 5
  {
    match k
    case 0 => [Left, Right, Left, Nop, Nop]
    case 1 => [Right, Left, Right, Nop, Nop]
    case 2 => [Left, Right, Left, Right, Nop]
    case 3 => [Right, Left, Right, Left, Nop]
    case 4 => [Left, Right, Straight, Left, Nop]
    case 5 => [Right, Left, Straight, Right, Nop]
    case 6 => [Left, Straight, Right, Left, Nop]
    case 7 => [Right, Straight, Left, Right, Nop]
    case 8 => [Left, Right, Straight, Right, Nop]
    case 9 => [Right, Left, Straight, Left, Nop]
    case 10 => [Right, Straight, Right, Left, Nop]
    case 11 => [Left, Straight, Left, Right, Nop]
    case 12 => [Left, Straight, Right, Nop, Nop]
    case 13 => [Right, Straight, Left, Nop, Nop]
    case 14 => [Left, Straight, Left, Nop, Nop]
    case 15 => [Right, Straight, Right, Nop, Nop]
    case 16 => [Left, Right, Straight, Left, Right]
    case _ => [Right, Left, Straight, Right, Left]
  }

  function Zip(kinds: seq<Kind>, lengths: seq<real>): (w: Word)
    requires |kinds| == |lengths|
    ensures |w| == |kinds|
  {
    seq(|kinds|, i requires 0 <= i < |kinds| => Segment(kinds[i], lengths[i]))
  }

  function TotalLength(lengths: seq<real>): real {
    if lengths == [] then 0.0 else TotalLength(lengths[..|lengths| - 1]) + Abs(lengths[|lengths| - 1])
  }

  // ----- The word of each formula, and the rewriting of words -----

  function BaseKinds(f: Formula): seq<Kind> {
    match f
    case LpSpLp => [Left, Straight, Left]
    case LpSpRp => [Left, Straight, Right]
    case LpRmL => [Left, Right, Left]
    case LpRupLumRm => [Left, Right, Left, Right]
    case LpRumLumRp => [Left, Right, Left, Right]
    case LpRmSmLm => [Left, Right, Straight, Left]
    case LpRmSmRm => [Left, Right, Straight, Right]
    case LpRmSLmRp => [Left, Right, Straight, Left, Right]
  }

  function BaseLengths(l: Library, f: Formula, t: real, u: real, v: real): (lengths: seq<real>)
    ensures |lengths| == |BaseKinds(f)|
  {
    match f
    case LpSpLp => [t, u, v]
    case LpSpRp => [t, u, v]
    case LpRmL => [t, u, v]
    case LpRupLumRm => [t, u, -u, v]
    case LpRumLumRp => [t, u, u, v]
    case LpRmSmLm => [t, -0.5 * l.pi, u, v]
    case LpRmSmRm => [t, -0.5 * l.pi, u, v]
    case LpRmSLmRp => [t, -0.5 * l.pi, u, -0.5 * l.pi, v]
  }

  function BaseWord(l: Library, f: Formula, t: real, u: real, v: real): Word {
    Zip(BaseKinds(f), BaseLengths(l, f, t, u, v))
  }

  /** How a formula is put to use: on which mirror images of the goal, and from which end. */
  datatype Use = Use(timeFlip: bool, reflect: bool, backwards: bool)

  function Rewrite(w: Word, use: Use): Word {
    var flipped := if use.timeFlip then TimeFlip(w) else w;
    var reflected := if use.reflect then Reflect(flipped) else flipped;
    if use.backwards then Reverse(reflected) else reflected
  }

  /** The goal handed to the formula. */
  function GoalFor(l: Library, x: real, y: real, phi: real, use: Use): Pose {
    var g := if use.backwards then BackwardsPose(l, Pose(x, y, phi)) else Pose(x, y, phi);
    Pose(if use.timeFlip then -g.x else g.x, if use.reflect then -g.y else g.y,
         if use.timeFlip != use.reflect then -phi else phi)
  }

  /** The pose is the goal, its heading up to whole turns. */
  ghost predicate At(l: Library, s: Pose, x: real, y: real, phi: real) {
    s.x == x && s.y == y && Congruent(l, s.theta, phi)
  }

  /** The word leads from the origin to the goal. */
  ghost predicate Reaches(l: Library, w: Word, x: real, y: real, phi: real) {
    At(l, Drive(l, ORIGIN, w), x, y, phi)
  }

  lemma MirroredAt(l: Library, s: Pose, x: real, y: real, phi: real)
    requires At(l, s, x, y, phi)
    ensures At(l, FlippedPose(s), -x, y, -phi) && At(l, ReflectedPose(s), x, -y, -phi)
  {
    hide Congruent;
    CongruentSym(l, s.theta, phi);
  }

  lemma FlippedOrigin()
    ensures FlippedPose(ORIGIN) == ORIGIN
  {
  }

  lemma ReflectedOrigin()
    ensures ReflectedPose(ORIGIN) == ORIGIN
  {
  }

  lemma FlipReaches(l: Library, w: Word, x: real, y: real, phi: real)
    requires Exact(l) && Reaches(l, w, x, y, phi)
    ensures Reaches(l, TimeFlip(w), -x, y, -phi)
  {
    hide Exact, At, Drive, TimeFlip, FlippedPose, ReflectedPose;
    DriveFlipped(l, ORIGIN, w);
    FlippedOrigin();
    MirroredAt(l, Drive(l, ORIGIN, w), x, y, phi);
  }

  lemma ReflectReaches(l: Library, w: Word, x: real, y: real, phi: real)
    requires Exact(l) && Reaches(l, w, x, y, phi)
    ensures Reaches(l, Reflect(w), x, -y, -phi)
  {
    hide Exact, At, Drive, Reflect, FlippedPose, ReflectedPose;
    DriveReflected(l, ORIGIN, w);
    ReflectedOrigin();
    MirroredAt(l, Drive(l, ORIGIN, w), x, y, phi);
  }

  lemma ReverseReaches(l: Library, w: Word, x: real, y: real, phi: real)
    requires Exact(l) && Reaches(l, w, x, y, phi)
    ensures var g := BackwardsPose(l, Pose(x, y, phi)); Reaches(l, Reverse(w), g.x, g.y, phi)
  {
    hide Exact, Drive, Congruent, BackX, BackY, Reverse;
    DriveReversed(l, w);
    SamePoint(l, Drive(l, ORIGIN, w).theta, phi);
  }

  lemma BackwardsHeading(l: Library, s: Pose)
    ensures BackwardsPose(l, s).theta == s.theta
  {
  }

  /** If the base word reaches the goal handed to its formula, the rewritten word reaches the goal itself. */
  lemma RewriteReaches(l: Library, w: Word, x: real, y: real, phi: real, use: Use)
    requires Exact(l) && var g := GoalFor(l, x, y, phi, use); Reaches(l, w, g.x, g.y, g.theta)
    ensures Reaches(l, Rewrite(w, use), x, y, phi)
  {
    hide Exact, Reaches, BackwardsPose;
    var g := GoalFor(l, x, y, phi, use);
    var flipped := if use.timeFlip then TimeFlip(w) else w;
    if use.timeFlip {
      FlipReaches(l, w, g.x, g.y, g.theta);
    }
    var reflected := if use.reflect then Reflect(flipped) else flipped;
    if use.reflect {
      ReflectReaches(l, flipped, if use.timeFlip then -g.x else g.x, g.y, if use.timeFlip then -g.theta else g.theta);
    }
    if use.backwards {
      var b := BackwardsPose(l, Pose(x, y, phi));
      BackwardsHeading(l, Pose(x, y, phi));
      BackwardsInvolution(l, Pose(x, y, phi));
      ReverseReaches(l, reflected, b.x, b.y, phi);
    }
  }

  // ----- The base words reach the goals of their formulas -----

  lemma DriveThree(l: Library, a: Segment, b: Segment, c: Segment)
    ensures Drive(l, ORIGIN, [a, b, c]) == Move(l, Move(l, Move(l, ORIGIN, a), b), c)
  {
    hide Move;
    DriveSnoc(l, ORIGIN, [], a);
    DriveSnoc(l, ORIGIN, [a], b);
    DriveSnoc(l, ORIGIN, [a, b], c);
    assert [] + [a] == [a] && [a] + [b] == [a, b] && [a, b] + [c] == [a, b, c];
  }

  lemma DriveFour(l: Library, a: Segment, b: Segment, c: Segment, d: Segment)
    ensures Drive(l, ORIGIN, [a, b, c, d]) == Move(l, Move(l, Move(l, Move(l, ORIGIN, a), b), c), d)
  {
    hide Move, Drive;
    DriveThree(l, a, b, c);
    DriveSnoc(l, ORIGIN, [a, b, c], d);
    assert [a, b, c] + [d] == [a, b, c, d];
  }

  lemma DriveFive(l: Library, a: Segment, b: Segment, c: Segment, d: Segment, e: Segment)
    ensures Drive(l, ORIGIN, [a, b, c, d, e]) == Move(l, Move(l, Move(l, Move(l, Move(l, ORIGIN, a), b), c), d), e)
  {
    hide Move, Drive;
    DriveFour(l, a, b, c, d);
    DriveSnoc(l, ORIGIN, [a, b, c, d], e);
    assert [a, b, c, d] + [e] == [a, b, c, d, e];
  }

  lemma LeftTo(l: Library, s: Pose, v: real, a: real)
    requires a == s.theta + v
    ensures Move(l, s, Segment(Left, v))
         == Pose(s.x + l.sin(a) - l.sin(s.theta), s.y - l.cos(a) + l.cos(s.theta), a)
  {
  }

  lemma RightTo(l: Library, s: Pose, v: real, a: real)
    requires a == s.theta - v
    ensures Move(l, s, Segment(Right, v))
         == Pose(s.x - l.sin(a) + l.sin(s.theta), s.y + l.cos(a) - l.cos(s.theta), a)
  {
  }

  lemma StraightOn(l: Library, s: Pose, v: real)
    ensures Move(l, s, Segment(Straight, v))
         == Pose(s.x + Times(v, l.cos(s.theta)), s.y + Times(v, l.sin(s.theta)), s.theta)
  {
    hide Times;
  }

  lemma OppositeFactor(u: real, a: real, b: real)
    requires a == -b
    ensures Times(u, a) == -Times(u, b)
  {
  }

  lemma CscReaches(l: Library, f: Formula, x: real, y: real, phi: real, t: real, u: real, v: real)
    requires Exact(l) && (f == LpSpLp || f == LpSpRp)
    ensures Reaches(l, BaseWord(l, f, t, u, v), x, y, phi) <==> Equations(l, f, x, y, phi, t, u, v)
  {
    hide Exact, Congruent, Drive, Move, Times;
    AtZero(l);
    var last := if f == LpSpLp then Left else Right;
    assert BaseWord(l, f, t, u, v) == [Segment(Left, t), Segment(Straight, u), Segment(last, v)];
    hide BaseWord;
    DriveThree(l, Segment(Left, t), Segment(Straight, u), Segment(last, v));
    LeftTo(l, ORIGIN, t, t);
    var p1 := Move(l, ORIGIN, Segment(Left, t));
    StraightOn(l, p1, u);
    var p2 := Move(l, p1, Segment(Straight, u));
    if f == LpSpLp {
      LeftTo(l, p2, v, t + v);
      if Congruent(l, t + v, phi) {
        SamePoint(l, t + v, phi);
      }
    } else {
      RightTo(l, p2, v, t - v);
      if Congruent(l, t - v, phi) {
        SamePoint(l, t - v, phi);
      }
    }
  }

  lemma CccReaches(l: Library, x: real, y: real, phi: real, t: real, u: real, v: real)
    requires Exact(l)
    ensures Reaches(l, BaseWord(l, LpRmL, t, u, v), x, y, phi) <==> Equations(l, LpRmL, x, y, phi, t, u, v)
  {
    hide Exact, Congruent, Drive, Move;
    AtZero(l);
    assert BaseWord(l, LpRmL, t, u, v) == [Segment(Left, t), Segment(Right, u), Segment(Left, v)];
    hide BaseWord;
    DriveThree(l, Segment(Left, t), Segment(Right, u), Segment(Left, v));
    LeftTo(l, ORIGIN, t, t);
    var p1 := Move(l, ORIGIN, Segment(Left, t));
    RightTo(l, p1, u, t - u);
    LeftTo(l, Move(l, p1, Segment(Right, u)), v, t - u + v);
    if Congruent(l, t - u + v, phi) {
      SamePoint(l, t - u + v, phi);
    }
  }

  lemma CcccReaches(l: Library, f: Formula, x: real, y: real, phi: real, t: real, u: real, v: real)
    requires Exact(l) && (f == LpRupLumRm || f == LpRumLumRp)
    ensures Reaches(l, BaseWord(l, f, t, u, v), x, y, phi) <==> Equations(l, f, x, y, phi, t, u, v)
  {
    hide Exact, Congruent, Drive, Move;
    AtZero(l);
    var w := if f == LpRupLumRm then -u else u;
    assert BaseWord(l, f, t, u, v) == [Segment(Left, t), Segment(Right, u), Segment(Left, w), Segment(Right, v)];
    hide BaseWord;
    DriveFour(l, Segment(Left, t), Segment(Right, u), Segment(Left, w), Segment(Right, v));
    LeftTo(l, ORIGIN, t, t);
    var p1 := Move(l, ORIGIN, Segment(Left, t));
    RightTo(l, p1, u, t - u);
    var p2 := Move(l, p1, Segment(Right, u));
    if f == LpRupLumRm {
      LeftTo(l, p2, w, t - 2.0 * u);
      RightTo(l, Move(l, p2, Segment(Left, w)), v, t - 2.0 * u - v);
      if Congruent(l, t - 2.0 * u - v, phi) {
        SamePoint(l, t - 2.0 * u - v, phi);
      }
    } else {
      LeftTo(l, p2, w, t);
      RightTo(l, Move(l, p2, Segment(Left, w)), v, t - v);
      if Congruent(l, t - v, phi) {
        SamePoint(l, t - v, phi);
      }
    }
  }

  /** The straight piece after a left turn and a quarter of a right turn backwards. */
  lemma AfterQuarter(l: Library, t: real, q: real, u: real) returns (p: Pose)
    requires Exact(l) && q == -0.5 * l.pi
    ensures p == Move(l, Move(l, Move(l, ORIGIN, Segment(Left, t)), Segment(Right, q)), Segment(Straight, u))
    ensures p.theta == t + 0.5 * l.pi
    ensures l.sin(p.theta) == l.cos(t) && l.cos(p.theta) == -l.sin(t)
    ensures p.x == 2.0 * l.sin(t) - l.cos(t) - Times(u, l.sin(t))
    ensures p.y == 1.0 - 2.0 * l.cos(t) - l.sin(t) + Times(u, l.cos(t))
  {
    hide Exact, Move, Times;
    var a := t + 0.5 * l.pi;
    AtZero(l);
    QuarterTurn(l, t, a);
    LeftTo(l, ORIGIN, t, t);
    var p1 := Move(l, ORIGIN, Segment(Left, t));
    RightTo(l, p1, q, a);
    var p2 := Move(l, p1, Segment(Right, q));
    StraightOn(l, p2, u);
    p := Move(l, p2, Segment(Straight, u));
    OppositeFactor(u, l.cos(a), l.sin(t));
  }

  lemma CcscReaches(l: Library, f: Formula, x: real, y: real, phi: real, t: real, u: real, v: real)
    requires Exact(l) && (f == LpRmSmLm || f == LpRmSmRm)
    ensures Reaches(l, BaseWord(l, f, t, u, v), x, y, phi) <==> Equations(l, f, x, y, phi, t, u, v)
  {
    hide Exact, Congruent, Drive, Move, Times;
    var q := -0.5 * l.pi;
    var last := if f == LpRmSmLm then Left else Right;
    assert BaseWord(l, f, t, u, v) == [Segment(Left, t), Segment(Right, q), Segment(Straight, u), Segment(last, v)];
    hide BaseWord;
    DriveFour(l, Segment(Left, t), Segment(Right, q), Segment(Straight, u), Segment(last, v));
    var p := AfterQuarter(l, t, q, u);
    if f == LpRmSmLm {
      LeftTo(l, p, v, t + 0.5 * l.pi + v);
      if Congruent(l, t + 0.5 * l.pi + v, phi) {
        SamePoint(l, t + 0.5 * l.pi + v, phi);
      }
    } else {
      RightTo(l, p, v, t + 0.5 * l.pi - v);
      QuarterTurn(l, t - v, t + 0.5 * l.pi - v);
    }
  }

  lemma CcsccReaches(l: Library, x: real, y: real, phi: real, t: real, u: real, v: real)
    requires Exact(l)
    ensures Reaches(l, BaseWord(l, LpRmSLmRp, t, u, v), x, y, phi) <==> Equations(l, LpRmSLmRp, x, y, phi, t, u, v)
  {
    hide Exact, Congruent, Drive, Move, Times;
    var q := -0.5 * l.pi;
    assert BaseWord(l, LpRmSLmRp, t, u, v)
        == [Segment(Left, t), Segment(Right, q), Segment(Straight, u), Segment(Left, q), Segment(Right, v)];
    hide BaseWord;
    DriveFive(l, Segment(Left, t), Segment(Right, q), Segment(Straight, u), Segment(Left, q), Segment(Right, v));
    var p := AfterQuarter(l, t, q, u);
    LeftTo(l, p, q, t);
    RightTo(l, Move(l, p, Segment(Left, q)), v, t - v);
    if Congruent(l, t - v, phi) {
      SamePoint(l, t - v, phi);
    }
  }

  /** The equations of a formula hold exactly if its word reaches its goal. */
  lemma EquationsReach(l: Library, f: Formula, x: real, y: real, phi: real, t: real, u: real, v: real)
    requires Exact(l)
    ensures Reaches(l, BaseWord(l, f, t, u, v), x, y, phi) <==> Equations(l, f, x, y, phi, t, u, v)
  {
    hide Exact, Equations, Reaches, BaseWord;
    match f
    case LpSpLp => CscReaches(l, f, x, y, phi, t, u, v);
    case LpSpRp => CscReaches(l, f, x, y, phi, t, u, v);
    case LpRmL => CccReaches(l, x, y, phi, t, u, v);
    case LpRupLumRm => CcccReaches(l, f, x, y, phi, t, u, v);
    case LpRumLumRp => CcccReaches(l, f, x, y, phi, t, u, v);
    case LpRmSmLm => CcscReaches(l, f, x, y, phi, t, u, v);
    case LpRmSmRm => CcscReaches(l, f, x, y, phi, t, u, v);
    case LpRmSLmRp => CcsccReaches(l, x, y, phi, t, u, v);
  }

  // ----- The literal candidates of the code -----

  function HasBackwards(f: Formula): bool {
    f == LpRmL || f == LpRmSmLm || f == LpRmSmRm
  }

  predicate Usable(f: Formula, use: Use) {
    use.backwards ==> HasBackwards(f)
  }

  function TypeIndex(f: Formula, use: Use): (k: nat)
    ensures k < 18
  {
    var k := if use.reflect then 1 else 0;
    match f
    case LpSpLp => 14 + k
    case LpSpRp => 12 + k
    case LpRmL => k
    case LpRupLumRm => 2 + k
    case LpRumLumRp => 2 + k
    case LpRmSmLm => if use.backwards then 6 + k else 4 + k
    case LpRmSmRm => if use.backwards then 10 + k else 8 + k
    case LpRmSLmRp => 16 + k
  }

  /** The five lengths written for a solution that is not flipped in time. */
  function ForwardLengths(l: Library, f: Formula, use: Use, t: real, u: real, v: real): (lengths: seq<real>)
    ensures |lengths| == 5
  {
    match f
    case LpSpLp => [t, u, v, 0.0, 0.0]
    case LpSpRp => [t, u, v, 0.0, 0.0]
    case LpRmL => if use.backwards then [v, u, t, 0.0, 0.0] else [t, u, v, 0.0, 0.0]
    case LpRupLumRm => [t, u, -u, v, 0.0]
    case LpRumLumRp => [t, u, u, v, 0.0]
    case LpRmSmLm => if use.backwards then [v, u, -0.5 * l.pi, t, 0.0] else [t, -0.5 * l.pi, u, v, 0.0]
    case LpRmSmRm => if use.backwards then [v, u, -0.5 * l.pi, t, 0.0] else [t, -0.5 * l.pi, u, v, 0.0]
    case LpRmSLmRp => [t, -0.5 * l.pi, u, -0.5 * l.pi, v]
  }

  function Negated(lengths: seq<real>): (n: seq<real>)
    ensures |n| == |lengths|
  {
    seq(|lengths|, i requires 0 <= i < |lengths| => -lengths[i])
  }

  function CandidatePath(l: Library, f: Formula, use: Use, t: real, u: real, v: real): (p: Path)
    ensures p.Valid()
  {
    var lengths := ForwardLengths(l, f, use, t, u, v);
    Path(TypeIndex(f, use), if use.timeFlip then Negated(lengths) else lengths)
  }

  const PAUSE := Segment(Nop, 0.0)

  function Pauses(n: nat): Word {
    seq(n, i => PAUSE)
  }

  lemma SameType(f: Formula, use: Use)
    ensures TypeIndex(f, use.(timeFlip := false)) == TypeIndex(f, use)
  {
  }

  lemma ZipNegated(kinds: seq<Kind>, lengths: seq<real>)
    requires |kinds| == |lengths|
    ensures Zip(kinds, Negated(lengths)) == TimeFlip(Zip(kinds, lengths))
  {
  }

  lemma FlippedWord(l: Library, f: Formula, use: Use, t: real, u: real, v: real)
    requires use.timeFlip
    ensures CandidatePath(l, f, use, t, u, v).Word()
         == TimeFlip(CandidatePath(l, f, use.(timeFlip := false), t, u, v).Word())
  {
    hide PathType, TypeIndex;
    var lengths := ForwardLengths(l, f, use, t, u, v);
    assert ForwardLengths(l, f, use.(timeFlip := false), t, u, v) == lengths;
    hide ForwardLengths;
    SameType(f, use);
    ZipNegated(PathType(TypeIndex(f, use)), lengths);
  }

  /** Odd rows of the table mirror the even rows above them. */
  lemma MirroredRows(f: Formula, use: Use)
    requires use.reflect
    ensures var row, row' := PathType(TypeIndex(f, use.(reflect := false))), PathType(TypeIndex(f, use));
            |row| == |row'| == 5 && forall i :: 0 <= i < 5 ==> row'[i] == Turn(row[i])
  {
  }

  lemma ReflectedWord(l: Library, f: Formula, use: Use, t: real, u: real, v: real)
    requires use.reflect && !use.timeFlip
    ensures CandidatePath(l, f, use, t, u, v).Word()
         == Reflect(CandidatePath(l, f, use.(reflect := false), t, u, v).Word())
  {
    hide TypeIndex, Turn;
    MirroredRows(f, use);
  }

  lemma {:induction false} ReverseAt(w: Word, i: nat)
    requires i < |w|
    ensures Reverse(w)[i] == w[|w| - 1 - i]
  {
    if i > 0 {
      ReverseAt(w[..|w| - 1], i - 1);
    }
  }

  /** Neither flipped nor reflected: the row and the lengths are those of the formula, perhaps reversed. */
  lemma PlainWord(l: Library, f: Formula, use: Use, t: real, u: real, v: real)
    requires Usable(f, use) && !use.timeFlip && !use.reflect
    ensures var w := if use.backwards then Reverse(BaseWord(l, f, t, u, v)) else BaseWord(l, f, t, u, v);
            |w| <= 5 && CandidatePath(l, f, use, t, u, v).Word() == w + Pauses(5 - |w|)
  {
    hide Reverse;
    var base, path := BaseWord(l, f, t, u, v), CandidatePath(l, f, use, t, u, v).Word();
    var w := if use.backwards then Reverse(base) else base;
    var filled := w + Pauses(5 - |w|);
    forall i | 0 <= i < 5
      ensures path[i] == filled[i]
    {
      if use.backwards && i < |w| {
        ReverseAt(base, i);
      }
    }
  }

  lemma MirrorsCommute(w: Word, n: nat)
    ensures TimeFlip(w + Pauses(n)) == TimeFlip(w) + Pauses(n) && Reflect(w + Pauses(n)) == Reflect(w) + Pauses(n)
    ensures Reverse(TimeFlip(w)) == TimeFlip(Reverse(w)) && Reverse(Reflect(w)) == Reflect(Reverse(w))
    ensures TimeFlip(Reflect(w)) == Reflect(TimeFlip(w))
  {
    forall i | 0 <= i < |w|
      ensures Reverse(TimeFlip(w))[i] == TimeFlip(Reverse(w))[i] && Reverse(Reflect(w))[i] == Reflect(Reverse(w))[i]
    {
      ReverseAt(TimeFlip(w), i);
      ReverseAt(Reflect(w), i);
      ReverseAt(w, i);
    }
  }

  lemma StillUsable(f: Formula, use: Use)
    requires Usable(f, use)
    ensures Usable(f, use.(reflect := false)) && Usable(f, use.(timeFlip := false))
  {
  }

  lemma ReflectionOf(l: Library, f: Formula, use: Use, t: real, u: real, v: real) returns (w: Word)
    requires Usable(f, use) && !use.timeFlip
    ensures w == Rewrite(BaseWord(l, f, t, u, v), use) && |w| <= 5
    ensures CandidatePath(l, f, use, t, u, v).Word() == w + Pauses(5 - |w|)
  {
    hide BaseWord, CandidatePath, TimeFlip, Reflect, Reverse, Pauses, Usable;
    var base := BaseWord(l, f, t, u, v);
    var plain := if use.backwards then Reverse(base) else base;
    assert Usable(f, use.(reflect := false)) by {
      StillUsable(f, use);
    }
    PlainWord(l, f, use.(reflect := false), t, u, v);
    MirrorsCommute(base, 0);
    w := plain;
    if use.reflect {
      w := Reflect(plain);
      ReflectedWord(l, f, use, t, u, v);
      MirrorsCommute(plain, 5 - |plain|);
    }
  }

  /** Every candidate is the rewritten word of its formula, filled up with pauses. */
  lemma CandidateIsRewrite(l: Library, f: Formula, use: Use, t: real, u: real, v: real)
    requires Usable(f, use)
    ensures var w := Rewrite(BaseWord(l, f, t, u, v), use);
            |w| <= 5 && CandidatePath(l, f, use, t, u, v).Word() == w + Pauses(5 - |w|)
  {
    hide BaseWord, CandidatePath, TimeFlip, Reflect, Reverse, Pauses, Usable;
    var base := BaseWord(l, f, t, u, v);
    StillUsable(f, use);
    var w := ReflectionOf(l, f, use.(timeFlip := false), t, u, v);
    if use.timeFlip {
      FlippedWord(l, f, use, t, u, v);
      MirrorsCommute(w, 5 - |w|);
      MirrorsCommute(base, 0);
      MirrorsCommute(if use.reflect then Reflect(base) else base, 0);
    }
  }

  lemma {:induction false} DrivePauses(l: Library, s: Pose, w: Word, n: nat)
    ensures Drive(l, s, w + Pauses(n)) == Drive(l, s, w)
  {
    if n == 0 {
      assert w + Pauses(0) == w;
    } else {
      DrivePauses(l, s, w, n - 1);
      assert w + Pauses(n) == (w + Pauses(n - 1)) + [PAUSE];
      DriveSnoc(l, s, w + Pauses(n - 1), PAUSE);
    }
  }

  /** Every candidate of every formula and use drives from the origin to the goal. */
  lemma CandidateReaches(l: Library, zero: real, f: Formula, use: Use, x: real, y: real, phi: real)
    requires Exact(l) && 0.0 < l.pi && Usable(f, use)
    requires var g := GoalFor(l, x, y, phi, use); Solve(l, zero, f, g.x, g.y, g.theta).Solution?
    ensures var g := GoalFor(l, x, y, phi, use);
            var s := Solve(l, zero, f, g.x, g.y, g.theta);
            Reaches(l, CandidatePath(l, f, use, s.t, s.u, s.v).Word(), x, y, phi)
  {
    hide Exact, Solve, Equations, BaseWord, CandidatePath, Rewrite, Pauses, GoalFor, Drive;
    var g := GoalFor(l, x, y, phi, use);
    var s := Solve(l, zero, f, g.x, g.y, g.theta);
    FormulaSound(l, zero, f, g.x, g.y, g.theta);
    EquationsReach(l, f, g.x, g.y, g.theta, s.t, s.u, s.v);
    var w := BaseWord(l, f, s.t, s.u, s.v);
    RewriteReaches(l, w, x, y, phi, use);
    CandidateIsRewrite(l, f, use, s.t, s.u, s.v);
    DrivePauses(l, ORIGIN, Rewrite(w, use), 5 - |Rewrite(w, use)|);
  }

  // ----- Lengths -----

  /** What the code compares: the length without the quarter turns every word of the family shares. */
  function Weight(f: Formula, t: real, u: real, v: real): real {
    if f == LpRupLumRm || f == LpRumLumRp then Abs(t) + 2.0 * Abs(u) + Abs(v) else Abs(t) + Abs(u) + Abs(v)
  }

  function Shared(l: Library, f: Formula): real {
    if f == LpRmSmLm || f == LpRmSmRm then 0.5 * l.pi else if f == LpRmSLmRp then l.pi else 0.0
  }

  lemma TotalOfFive(a: real, b: real, c: real, d: real, e: real)
    ensures TotalLength([a, b, c, d, e]) == Abs(a) + Abs(b) + Abs(c) + Abs(d) + Abs(e)
  {
    assert [a, b, c, d, e][..4] == [a, b, c, d] && [a, b, c, d][..3] == [a, b, c];
    assert [a, b, c][..2] == [a, b] && [a, b][..1] == [a] && [a][..0] == [];
    assert TotalLength([a]) == Abs(a);
    assert TotalLength([a, b]) == Abs(a) + Abs(b);
    assert TotalLength([a, b, c]) == Abs(a) + Abs(b) + Abs(c);
  }

  /** The weight misses the length of the candidate by exactly the shared turns. */
  lemma WeightIsLength(l: Library, f: Formula, use: Use, t: real, u: real, v: real)
    requires 0.0 < l.pi && Usable(f, use)
    ensures CandidatePath(l, f, use, t, u, v).Length() == Weight(f, t, u, v) + Shared(l, f)
  {
    hide TotalLength;
    var s := ForwardLengths(l, f, use, t, u, v);
    var r := if use.timeFlip then Negated(s) else s;
    assert r == [r[0], r[1], r[2], r[3], r[4]];
    TotalOfFive(r[0], r[1], r[2], r[3], r[4]);
  }

  // ----- The choice -----

  /** The path a formula offers for one use, if it has a solution there. */
  function Candidate(l: Library, zero: real, f: Formula, use: Use, x: real, y: real, phi: real): (c: Option<Path>)
    requires 0.0 < l.pi
    ensures c.Some? ==> c.value.Valid()
  {
    var g := GoalFor(l, x, y, phi, use);
    match Solve(l, zero, f, g.x, g.y, g.theta)
    case NoSolution => None
    case Solution(t, u, v) => Some(CandidatePath(l, f, use, t, u, v))
  }

  /** `best` is no longer than the path offered, if one is. */
  predicate NoLonger(best: Path, offered: Option<Path>) {
    offered.Some? ==> best.Length() <= offered.value.Length()
  }

  /** A search for the goal (x, y, phi) that started from `start` has arrived at `best`. */
  ghost predicate Found(l: Library, zero: real, x: real, y: real, phi: real, start: Path, best: Path)
    requires 0.0 < l.pi
  {
    best.Valid() && best.Length() <= start.Length() &&
    (best == start || exists f, use :: Usable(f, use) && Candidate(l, zero, f, use, x, y, phi) == Some(best))
  }

  // ----- The words of the five families -----

  function WordLength(w: Word): real {
    if w == [] then 0.0 else WordLength(w[..|w| - 1]) + Abs(w[|w| - 1].length)
  }

  lemma {:induction false} ZipLength(kinds: seq<Kind>, lengths: seq<real>)
    requires |kinds| == |lengths|
    ensures WordLength(Zip(kinds, lengths)) == TotalLength(lengths)
  {
    if kinds != [] {
      var n := |kinds| - 1;
      ZipLength(kinds[..n], lengths[..n]);
      assert Zip(kinds, lengths)[..n] == Zip(kinds[..n], lengths[..n]);
    }
  }

  lemma LengthSnoc(w: Word, g: Segment)
    ensures WordLength(w + [g]) == WordLength(w) + Abs(g.length)
  {
    assert (w + [g])[..|w|] == w;
  }

  lemma {:induction false} PausesLength(w: Word, n: nat)
    ensures WordLength(w + Pauses(n)) == WordLength(w)
  {
    if n == 0 {
      assert w + Pauses(0) == w;
    } else {
      PausesLength(w, n - 1);
      assert w + Pauses(n) == (w + Pauses(n - 1)) + [PAUSE];
      LengthSnoc(w + Pauses(n - 1), PAUSE);
    }
  }

  lemma Involutions(w: Word)
    ensures TimeFlip(TimeFlip(w)) == w && Reflect(Reflect(w)) == w && Reverse(Reverse(w)) == w
  {
    forall i | 0 <= i < |w|
      ensures Reverse(Reverse(w))[i] == w[i]
    {
      ReverseAt(Reverse(w), i);
      ReverseAt(w, |w| - 1 - i);
    }
  }

  /** If the rewritten word reaches the goal, the base word reaches the goal handed to its formula. */
  lemma RewriteReachesBack(l: Library, w: Word, x: real, y: real, phi: real, use: Use)
    requires Exact(l) && Reaches(l, Rewrite(w, use), x, y, phi)
    ensures var g := GoalFor(l, x, y, phi, use); Reaches(l, w, g.x, g.y, g.theta)
  {
    hide Exact, Reaches, BackwardsPose, TimeFlip, Reflect, Reverse;
    var flipped := if use.timeFlip then TimeFlip(w) else w;
    var reflected := if use.reflect then Reflect(flipped) else flipped;
    var b := if use.backwards then BackwardsPose(l, Pose(x, y, phi)) else Pose(x, y, phi);
    BackwardsHeading(l, Pose(x, y, phi));
    Involutions(reflected);
    Involutions(flipped);
    Involutions(w);
    if use.backwards {
      ReverseReaches(l, Reverse(reflected), x, y, phi);
    }
    assert Reaches(l, reflected, b.x, b.y, phi);
    if use.reflect {
      ReflectReaches(l, reflected, b.x, b.y, phi);
    }
    if use.timeFlip {
      FlipReaches(l, flipped, b.x, if use.reflect then -b.y else b.y, if use.reflect then -phi else phi);
    }
  }

  /** A word of a family, with lengths in the range of its formula, that leads to the goal. */
  ghost predicate InFamily(l: Library, f: Formula, use: Use, t: real, u: real, v: real, x: real, y: real, phi: real) {
    Usable(f, use) && InRange(l, f, t, u, v) && Reaches(l, Rewrite(BaseWord(l, f, t, u, v), use), x, y, phi)
  }

  /** Every such word is among the candidates. */
  lemma FamilyFound(l: Library, zero: real, f: Formula, use: Use, t: real, u: real, v: real, x: real, y: real,
                    phi: real)
    requires Exact(l) && Principal(l) && 0.0 < l.pi && 0.0 <= zero && InFamily(l, f, use, t, u, v, x, y, phi)
    ensures Candidate(l, zero, f, use, x, y, phi) == Some(CandidatePath(l, f, use, t, u, v))
    ensures CandidatePath(l, f, use, t, u, v).Length() == WordLength(Rewrite(BaseWord(l, f, t, u, v), use))
  {
    hide Exact, Principal, Reaches, BaseWord, Rewrite, GoalFor, Solve, Equations, InRange, CandidatePath, Pauses,
         Usable, TotalLength, WordLength;
    var w, g := BaseWord(l, f, t, u, v), GoalFor(l, x, y, phi, use);
    RewriteReachesBack(l, w, x, y, phi, use);
    EquationsReach(l, f, g.x, g.y, g.theta, t, u, v);
    FormulaFinds(l, zero, f, g.x, g.y, g.theta, t, u, v);
    CandidateIsRewrite(l, f, use, t, u, v);
    PausesLength(Rewrite(w, use), 5 - |Rewrite(w, use)|);
    var path := CandidatePath(l, f, use, t, u, v);
    ZipLength(PathType(path.typeIndex), path.lengths);
  }

  /** No word of the families that leads to the goal is shorter. */
  ghost predicate ShortestOfFamilies(l: Library, path: Path, x: real, y: real, phi: real) {
    forall f, use, t: real, u: real, v: real :: InFamily(l, f, use, t, u, v, x, y, phi) ==>
      path.Length() <= WordLength(Rewrite(BaseWord(l, f, t, u, v), use))
  }

  lemma BeatsFamilies(l: Library, zero: real, path: Path, x: real, y: real, phi: real)
    requires Exact(l) && Principal(l) && 0.0 < l.pi && 0.0 <= zero
    requires forall f, use :: Usable(f, use) ==> NoLonger(path, Candidate(l, zero, f, use, x, y, phi))
    ensures ShortestOfFamilies(l, path, x, y, phi)
  {
    hide Exact, Principal, Candidate, TotalLength, Rewrite, BaseWord, Usable;
    forall f, use, t: real, u: real, v: real | InFamily(l, f, use, t, u, v, x, y, phi)
      ensures path.Length() <= WordLength(Rewrite(BaseWord(l, f, t, u, v), use))
    {
      FamilyFound(l, zero, f, use, t, u, v, x, y, phi);
    }
  }

  // ----- From frame to frame -----

  /** The goal seen from q0, in units of the turning radius. */
  function FrameGoal(l: Library, rho: real, q0: Pose, q1: Pose): Pose
    requires 0.0 < rho
  {
    var dx, dy := q1.x - q0.x, q1.y - q0.y;
    var c, s := l.cos(q0.theta), l.sin(q0.theta);
    Pose((c * dx + s * dy) / rho, (-s * dx + c * dy) / rho, q1.theta - q0.theta)
  }

  /** Back in the world: scaled, and moved to q0. */
  function Placed(rho: real, q0: Pose, s: Pose): Pose {
    Pose(s.x * rho + q0.x, s.y * rho + q0.y, s.theta)
  }

  /** Driving the whole word from q0 ends at q1, the heading up to whole turns. */
  ghost predicate Arrives(l: Library, rho: real, q0: Pose, q1: Pose, w: Word) {
    At(l, Placed(rho, q0, Drive(l, Pose(0.0, 0.0, q0.theta), w)), q1.x, q1.y, q1.theta)
  }

  lemma Unrotated(rho: real, dx: real, dy: real, c: real, s: real, x: real, y: real)
    requires 0.0 < rho && c * c + s * s == 1.0 && x == (c * dx + s * dy) / rho && y == (-s * dx + c * dy) / rho
    ensures RotateX(x, y, c, s) * rho == dx && RotateY(x, y, c, s) * rho == dy
  {
    var p, q := c * dx + s * dy, -s * dx + c * dy;
    assert x * rho == p && y * rho == q;
    assert RotateX(x, y, c, s) * rho == (x * rho) * c - (y * rho) * s;
    assert RotateY(x, y, c, s) * rho == (x * rho) * s + (y * rho) * c;
    assert p * c - q * s == dx * (c * c + s * s);
    assert p * s + q * c == dy * (c * c + s * s);
  }

  lemma RotatedBack(x: real, y: real, c: real, s: real)
    requires c * c + s * s == 1.0
    ensures RotateX(x, y, c, s) * c + RotateY(x, y, c, s) * s == x
    ensures RotateY(x, y, c, s) * c - RotateX(x, y, c, s) * s == y
  {
    assert RotateX(x, y, c, s) * c + RotateY(x, y, c, s) * s == x * (c * c + s * s);
    assert RotateY(x, y, c, s) * c - RotateX(x, y, c, s) * s == y * (c * c + s * s);
  }

  lemma RotationInjective(x: real, y: real, x': real, y': real, c: real, s: real)
    requires c * c + s * s == 1.0
    requires RotateX(x, y, c, s) == RotateX(x', y', c, s) && RotateY(x, y, c, s) == RotateY(x', y', c, s)
    ensures x == x' && y == y'
  {
    RotatedBack(x, y, c, s);
    RotatedBack(x', y', c, s);
  }

  lemma SameScaled(rho: real, x: real, y: real)
    requires 0.0 < rho && x * rho == y * rho
    ensures x == y
  {
    Cancel(rho, x, y);
  }

  /** A word arrives at q1 from q0 exactly if it reaches q1 as seen from q0. */
  lemma ReachesArrives(l: Library, rho: real, q0: Pose, q1: Pose, w: Word)
    requires Exact(l) && 0.0 < rho
    ensures var g := FrameGoal(l, rho, q0, q1); Reaches(l, w, g.x, g.y, g.theta) <==> Arrives(l, rho, q0, q1, w)
  {
    hide Exact, Drive, Congruent, RotateX, RotateY;
    var g, start, d := FrameGoal(l, rho, q0, q1), Pose(0.0, 0.0, q0.theta), Drive(l, ORIGIN, w);
    var c, s := l.cos(q0.theta), l.sin(q0.theta);
    DriveComposes(l, start, w);
    Pythagoras(l, q0.theta);
    Unrotated(rho, q1.x - q0.x, q1.y - q0.y, c, s, g.x, g.y);
    if Reaches(l, w, g.x, g.y, g.theta) {
      CongruentRefl(l, q0.theta);
      CongruentSum(l, q0.theta, d.theta, q0.theta, g.theta);
    }
    if Arrives(l, rho, q0, q1, w) {
      SameScaled(rho, RotateX(d.x, d.y, c, s), RotateX(g.x, g.y, c, s));
      SameScaled(rho, RotateY(d.x, d.y, c, s), RotateY(g.x, g.y, c, s));
      RotationInjective(d.x, d.y, g.x, g.y, c, s);
      Rearranged(l, q0.theta + d.theta, q1.theta, d.theta, g.theta);
    }
  }

  /** No word of the families that leads from q0 to q1 is shorter. */
  ghost predicate ShortestBetween(l: Library, rho: real, q0: Pose, q1: Pose, path: Path) {
    forall f, use, t: real, u: real, v: real ::
      Usable(f, use) && InRange(l, f, t, u, v) && Arrives(l, rho, q0, q1, Rewrite(BaseWord(l, f, t, u, v), use)) ==>
      path.Length() <= WordLength(Rewrite(BaseWord(l, f, t, u, v), use))
  }

  lemma ShortestInWorld(l: Library, rho: real, q0: Pose, q1: Pose, path: Path)
    requires Exact(l) && 0.0 < rho
    requires var g := FrameGoal(l, rho, q0, q1); ShortestOfFamilies(l, path, g.x, g.y, g.theta)
    ensures ShortestBetween(l, rho, q0, q1, path)
  {
    hide Exact, Reaches, Arrives, FrameGoal, InRange, Rewrite, BaseWord, WordLength, Usable, TotalLength;
    var g := FrameGoal(l, rho, q0, q1);
    forall f, use, t: real, u: real, v: real |
      Usable(f, use) && InRange(l, f, t, u, v) && Arrives(l, rho, q0, q1, Rewrite(BaseWord(l, f, t, u, v), use))
      ensures path.Length() <= WordLength(Rewrite(BaseWord(l, f, t, u, v), use))
    {
      ReachesArrives(l, rho, q0, q1, Rewrite(BaseWord(l, f, t, u, v), use));
      assert InFamily(l, f, use, t, u, v, g.x, g.y, g.theta);
    }
  }

  // ----- A given arc length -----

  function Clamped(seg: real, length: real): real {
    if seg < 0.0 then 0.0 else if seg > length then length else seg
  }

  /** How much of a segment fits into what is left. */
  function Clip(length: real, rest: real): real {
    if length < 0.0 then Max(-rest, length) else Min(rest, length)
  }

  /** The lengths driven when only `seg` may be driven in all. */
  function Clipped(lengths: seq<real>, seg: real): (c: seq<real>)
    ensures |c| == |lengths|
  {
    if lengths == [] then []
    else
      var before := Clipped(lengths[..|lengths| - 1], seg);
      before + [Clip(lengths[|lengths| - 1], seg - TotalLength(before))]
  }

  lemma TotalSnoc(lengths: seq<real>, v: real)
    ensures TotalLength(lengths + [v]) == TotalLength(lengths) + Abs(v)
  {
    assert (lengths + [v])[..|lengths|] == lengths;
  }

  lemma {:induction false} TotalNonnegative(lengths: seq<real>)
    ensures 0.0 <= TotalLength(lengths)
  {
    if lengths != [] {
      TotalNonnegative(lengths[..|lengths| - 1]);
    }
  }

  lemma ClippedLast(before: seq<real>, last: real, seg: real)
    ensures Clipped(before + [last], seg)
         == Clipped(before, seg) + [Clip(last, seg - TotalLength(Clipped(before, seg)))]
  {
    hide Clip, TotalLength;
    assert (before + [last])[..|before|] == before;
  }

  /** Exactly `seg` is driven, unless the path is shorter. */
  lemma {:induction false} ClippedLength(lengths: seq<real>, seg: real)
    requires 0.0 <= seg
    ensures TotalLength(Clipped(lengths, seg)) == Min(seg, TotalLength(lengths))
  {
    if lengths != [] {
      var before, last := lengths[..|lengths| - 1], lengths[|lengths| - 1];
      ClippedLength(before, seg);
      TotalNonnegative(before);
      assert lengths == before + [last];
      hide Clipped, TotalLength;
      ClippedLast(before, last, seg);
      TotalSnoc(before, last);
      TotalSnoc(Clipped(before, seg), Clip(last, seg - TotalLength(Clipped(before, seg))));
    } else {
      assert TotalLength(Clipped(lengths, seg)) == 0.0;
    }
  }

  /** `c` drives `lengths` as far as `i` and `j` tell: within its length, and not at all after a segment that is cut. */
  predicate CutFromEnd(lengths: seq<real>, c: seq<real>, seg: real, i: nat, j: nat) {
    i <= j < |lengths| == |c| &&
    (if lengths[j] < 0.0 then lengths[j] <= c[j] <= 0.0 else 0.0 <= c[j] <= lengths[j]) &&
    (i < j && c[i] != lengths[i] ==> c[j] == 0.0) && (c[i] != lengths[i] ==> TotalLength(c) == seg)
  }

  lemma ClipRange(length: real, rest: real)
    requires 0.0 <= rest
    ensures var v := Clip(length, rest);
            (if length < 0.0 then length <= v <= 0.0 else 0.0 <= v <= length) &&
            (v != length ==> Abs(v) == rest) && (rest == 0.0 ==> v == 0.0)
  {
  }

  /** Segments are cut from the end: none is lengthened or turned around, and none moves after one that is cut. */
  lemma {:induction false} ClippedShape(lengths: seq<real>, seg: real, i: nat, j: nat)
    requires 0.0 <= seg && i <= j < |lengths|
    ensures CutFromEnd(lengths, Clipped(lengths, seg), seg, i, j)
  {
    hide Clipped, TotalLength, Clip;
    var n := |lengths| - 1;
    var before, last := lengths[..n], lengths[n];
    var c := Clipped(before, seg);
    var rest := seg - TotalLength(c);
    if i < n {
      ClippedShape(before, seg, i, if j < n then j else i);
    }
    ClippedLast(before, last, seg);
    ClippedLength(before, seg);
    assert lengths == before + [last];
    TotalSnoc(c, Clip(last, rest));
    ClipRange(last, rest);
  }

  lemma ClippedNone(seg: real)
    ensures Clipped([], seg) == []
  {
  }

  lemma LastFits(before: seq<real>, last: real, seg: real)
    requires TotalLength(before + [last]) <= seg
    ensures TotalLength(before) <= seg && Clip(last, seg - TotalLength(before)) == last
  {
    hide TotalLength;
    TotalSnoc(before, last);
  }

  /** The whole length drives the whole word. */
  lemma {:induction false} ClippedWhole(lengths: seq<real>, seg: real)
    requires TotalLength(lengths) <= seg
    ensures Clipped(lengths, seg) == lengths
  {
    if lengths != [] {
      hide Clipped, TotalLength, Clip;
      var before, last := lengths[..|lengths| - 1], lengths[|lengths| - 1];
      assert lengths == before + [last];
      LastFits(before, last, seg);
      ClippedWhole(before, seg);
      ClippedLast(before, last, seg);
    } else {
      ClippedNone(seg);
    }
  }

  lemma AtStart(l: Library, s: Pose, kinds: seq<Kind>, lengths: seq<real>, seg: real)
    requires |kinds| == |lengths|
    ensures TotalLength(Clipped(lengths[..0], seg)) == 0.0
    ensures Drive(l, s, Zip(kinds[..0], Clipped(lengths[..0], seg))) == s
  {
  }

  lemma ZipSnoc(kinds: seq<Kind>, i: nat, lengths: seq<real>, v: real)
    requires i < |kinds| && |lengths| == i
    ensures Zip(kinds[..i + 1], lengths + [v]) == Zip(kinds[..i], lengths) + [Segment(kinds[i], v)]
  {
  }

  lemma ClipBounds(length: real, rest: real)
    requires 0.0 <= rest
    ensures var v := Clip(length, rest); Abs(v) <= rest && Abs(v) == if length < 0.0 then -v else v
  {
  }

  lemma NextPiece(l: Library, s: Pose, kinds: seq<Kind>, lengths: seq<real>, seg: real, i: nat, rest: real, v: real)
    requires |kinds| == |lengths| && i < |lengths| && 0.0 <= rest == seg - TotalLength(Clipped(lengths[..i], seg))
    requires v == Clip(lengths[i], rest)
    ensures Clipped(lengths[..i + 1], seg) == Clipped(lengths[..i], seg) + [v]
    ensures TotalLength(Clipped(lengths[..i + 1], seg)) == TotalLength(Clipped(lengths[..i], seg)) + Abs(v)
    ensures Abs(v) == if lengths[i] < 0.0 then -v else v
    ensures Abs(v) <= rest
    ensures Drive(l, s, Zip(kinds[..i + 1], Clipped(lengths[..i + 1], seg)))
         == Move(l, Drive(l, s, Zip(kinds[..i], Clipped(lengths[..i], seg))), Segment(kinds[i], v))
  {
    hide Move, Clipped, TotalLength, Zip, Drive, Clip;
    var before := Clipped(lengths[..i], seg);
    ClippedLast(lengths[..i], lengths[i], seg);
    assert lengths[..i + 1] == lengths[..i] + [lengths[i]];
    ClipBounds(lengths[i], rest);
    TotalSnoc(before, v);
    ZipSnoc(kinds, i, before, v);
    DriveSnoc(l, s, Zip(kinds[..i], before), Segment(kinds[i], v));
  }

  lemma StandStill(l: Library, s: Pose, kind: Kind)
    ensures Move(l, s, Segment(kind, 0.0)) == s
  {
    assert s.theta + 0.0 == s.theta == s.theta - 0.0;
  }

  /** Once nothing is left, the remaining segments do not move. */
  lemma {:induction false} NothingLeft(l: Library, s: Pose, kinds: seq<Kind>, lengths: seq<real>, seg: real, i: nat)
    requires |kinds| == |lengths| && i <= |lengths| && seg == TotalLength(Clipped(lengths[..i], seg))
    ensures Drive(l, s, Zip(kinds, Clipped(lengths, seg))) == Drive(l, s, Zip(kinds[..i], Clipped(lengths[..i], seg)))
    decreases |lengths| - i
  {
    if i == |lengths| {
      assert kinds[..i] == kinds && lengths[..i] == lengths;
    } else {
      hide Move, Drive, TotalLength, Clipped;
      var v := Clip(lengths[i], 0.0);
      NextPiece(l, s, kinds, lengths, seg, i, 0.0, v);
      StandStill(l, Drive(l, s, Zip(kinds[..i], Clipped(lengths[..i], seg))), kinds[i]);
      NothingLeft(l, s, kinds, lengths, seg, i + 1);
    }
  }

  /** Interpolating a planned path at its full length ends at the goal. */
  lemma PlannedPathEnds(l: Library, rho: real, q0: Pose, q1: Pose, path: Path, s: Pose)
    requires path.Valid() && Arrives(l, rho, q0, q1, path.Word())
    requires s == Placed(rho, q0, Drive(l, Pose(0.0, 0.0, q0.theta), path.Upto(path.Length())))
    ensures At(l, s, q1.x, q1.y, q1.theta)
  {
    hide Drive, At;
    TotalNonnegative(path.lengths);
    ClippedWhole(path.lengths, path.Length());
  }

  lemma AcceptedReaches(l: Library, zero: real, f: Formula, use: Use, x: real, y: real, phi: real, path: Path)
    requires Exact(l) && 0.0 < l.pi && Usable(f, use) && Candidate(l, zero, f, use, x, y, phi) == Some(path)
    ensures Reaches(l, path.Word(), x, y, phi)
  {
    hide Exact, Solve, CandidatePath, Reaches;
    CandidateReaches(l, zero, f, use, x, y, phi);
  }

  /** A row of the table and five lengths. */
  datatype Path = Path(typeIndex: nat, lengths: seq<real>) {
    predicate Valid() {
      typeIndex < 18 && |lengths| == 5
    }

    function Word(): (w: Word)
      requires Valid()
      ensures |w| == 5
    {
      Zip(PathType(typeIndex), lengths)
    }

    function Length(): real {
      TotalLength(lengths)
    }

    /** What is driven up to arc length `seg`. */
    function Upto(seg: real): Word
      requires Valid()
    {
      Zip(PathType(typeIndex), Clipped(lengths, Clamped(seg, Length())))
    }
  }

  // ----- ReedsSheppStateSpace -----

  class ReedsSheppStateSpace {
    const l: Library
    const rho: real
    const zero: real
    /** The length no path exceeds: the largest double. */
    const infinity: real

    constructor (l: Library, turningRadius: real, zero: real, infinity: real)
      ensures this.l == l && rho == turningRadius && this.zero == zero && this.infinity == infinity
    {
      this.l := l;
      rho := turningRadius;
      this.zero := zero;
      this.infinity := infinity;
    }

    /** One `if` of the code: a shorter candidate replaces the path. `lmin` is compared with the weight. */
    method Improve(f: Formula, use: Use, x: real, y: real, phi: real, path: Path, lmin: real)
      returns (best: Path, lbest: real)
      requires Exact(l) && 0.0 < l.pi && Usable(f, use) && path.Valid() && lmin == path.Length() - Shared(l, f)
      ensures lbest == best.Length() - Shared(l, f)
      ensures Found(l, zero, x, y, phi, path, best) && NoLonger(best, Candidate(l, zero, f, use, x, y, phi))
    {
      hide Exact, Solve, CandidatePath, TotalLength, Shared, Weight;
      best, lbest := path, lmin;
      var g := GoalFor(l, x, y, phi, use);
      var s := Solve(l, zero, f, g.x, g.y, g.theta);
      if s.Solution? {
        var w := Weight(f, s.t, s.u, s.v);
        WeightIsLength(l, f, use, s.t, s.u, s.v);
        if lmin > w {
          best, lbest := CandidatePath(l, f, use, s.t, s.u, s.v), w;
          assert Candidate(l, zero, f, use, x, y, phi) == Some(best);
        }
      }
    }

    /** A formula on the goal, flipped in time, reflected, and both. */
    method ImproveFour(f: Formula, backwards: bool, x: real, y: real, phi: real, path: Path, lmin: real)
      returns (best: Path, lbest: real)
      requires Exact(l) && 0.0 < l.pi && (backwards ==> HasBackwards(f))
      requires path.Valid() && lmin == path.Length() - Shared(l, f)
      ensures lbest == best.Length() - Shared(l, f) && Found(l, zero, x, y, phi, path, best)
      ensures forall flip, reflect :: NoLonger(best, Candidate(l, zero, f, Use(flip, reflect, backwards), x, y, phi))
    {
      hide Exact, Candidate, TotalLength, Shared, HasBackwards;
      var p1, l1 := Improve(f, Use(false, false, backwards), x, y, phi, path, lmin);
      var p2, l2 := Improve(f, Use(true, false, backwards), x, y, phi, p1, l1);
      var p3, l3 := Improve(f, Use(false, true, backwards), x, y, phi, p2, l2);
      best, lbest := Improve(f, Use(true, true, backwards), x, y, phi, p3, l3);
    }

    method CSC(x: real, y: real, phi: real, path: Path) returns (best: Path)
      requires Exact(l) && 0.0 < l.pi && path.Valid()
      ensures Found(l, zero, x, y, phi, path, best)
      ensures forall flip, reflect :: NoLonger(best, Candidate(l, zero, LpSpLp, Use(flip, reflect, false), x, y, phi))
      ensures forall flip, reflect :: NoLonger(best, Candidate(l, zero, LpSpRp, Use(flip, reflect, false), x, y, phi))
    {
      hide Exact, Candidate, TotalLength;
      var p, lmin := ImproveFour(LpSpLp, false, x, y, phi, path, path.Length());
      best, lmin := ImproveFour(LpSpRp, false, x, y, phi, p, lmin);
    }

    method CCC(x: real, y: real, phi: real, path: Path) returns (best: Path)
      requires Exact(l) && 0.0 < l.pi && path.Valid()
      ensures Found(l, zero, x, y, phi, path, best)
      ensures forall flip, reflect, back ::
        NoLonger(best, Candidate(l, zero, LpRmL, Use(flip, reflect, back), x, y, phi))
    {
      hide Exact, Candidate, TotalLength;
      var p, lmin := ImproveFour(LpRmL, false, x, y, phi, path, path.Length());
      best, lmin := ImproveFour(LpRmL, true, x, y, phi, p, lmin);
    }

    method CCCC(x: real, y: real, phi: real, path: Path) returns (best: Path)
      requires Exact(l) && 0.0 < l.pi && path.Valid()
      ensures Found(l, zero, x, y, phi, path, best)
      ensures forall flip, reflect ::
        NoLonger(best, Candidate(l, zero, LpRupLumRm, Use(flip, reflect, false), x, y, phi))
      ensures forall flip, reflect ::
        NoLonger(best, Candidate(l, zero, LpRumLumRp, Use(flip, reflect, false), x, y, phi))
    {
      hide Exact, Candidate, TotalLength;
      var p, lmin := ImproveFour(LpRupLumRm, false, x, y, phi, path, path.Length());
      best, lmin := ImproveFour(LpRumLumRp, false, x, y, phi, p, lmin);
    }

    method CCSC(x: real, y: real, phi: real, path: Path) returns (best: Path)
      requires Exact(l) && 0.0 < l.pi && path.Valid()
      ensures Found(l, zero, x, y, phi, path, best)
      ensures forall flip, reflect, back ::
        NoLonger(best, Candidate(l, zero, LpRmSmLm, Use(flip, reflect, back), x, y, phi))
      ensures forall flip, reflect, back ::
        NoLonger(best, Candidate(l, zero, LpRmSmRm, Use(flip, reflect, back), x, y, phi))
    {
      hide Exact, Candidate, TotalLength;
      var p1, l1 := ImproveFour(LpRmSmLm, false, x, y, phi, path, path.Length() - 0.5 * l.pi);
      var p2, l2 := ImproveFour(LpRmSmRm, false, x, y, phi, p1, l1);
      var p3, l3 := ImproveFour(LpRmSmLm, true, x, y, phi, p2, l2);
      best, l3 := ImproveFour(LpRmSmRm, true, x, y, phi, p3, l3);
    }

    method CCSCC(x: real, y: real, phi: real, path: Path) returns (best: Path)
      requires Exact(l) && 0.0 < l.pi && path.Valid()
      ensures Found(l, zero, x, y, phi, path, best)
      ensures forall flip, reflect ::
        NoLonger(best, Candidate(l, zero, LpRmSLmRp, Use(flip, reflect, false), x, y, phi))
    {
      hide Exact, Candidate, TotalLength;
      var lmin;
      best, lmin := ImproveFour(LpRmSLmRp, false, x, y, phi, path, path.Length() - l.pi);
    }

    /** The path before any candidate has been accepted. */
    function NoPath(): Path {
      Path(0, [infinity, 0.0, 0.0, 0.0, 0.0])
    }

    /** The path for a goal in units of the turning radius. */
    method Shortest(x: real, y: real, phi: real) returns (path: Path)
      requires Exact(l) && 0.0 < l.pi
      ensures path.Valid()
      ensures path == NoPath() || Reaches(l, path.Word(), x, y, phi)
      ensures forall f, use :: Usable(f, use) ==> NoLonger(path, Candidate(l, zero, f, use, x, y, phi))
      ensures Found(l, zero, x, y, phi, NoPath(), path)
      ensures Principal(l) && 0.0 <= zero ==> ShortestOfFamilies(l, path, x, y, phi)
    {
      hide Exact, Principal, Candidate, TotalLength, Reaches, ShortestOfFamilies;
      var p1 := CSC(x, y, phi, NoPath());
      var p2 := CCC(x, y, phi, p1);
      var p3 := CCCC(x, y, phi, p2);
      var p4 := CCSC(x, y, phi, p3);
      path := CCSCC(x, y, phi, p4);
      forall f, use | Usable(f, use)
        ensures NoLonger(path, Candidate(l, zero, f, use, x, y, phi))
      {
        var flip, reflect, back := use.timeFlip, use.reflect, use.backwards;
        assert use == Use(flip, reflect, back);
        match f {
          case LpSpLp => assert NoLonger(p1, Candidate(l, zero, LpSpLp, Use(flip, reflect, false), x, y, phi));
          case LpSpRp => assert NoLonger(p1, Candidate(l, zero, LpSpRp, Use(flip, reflect, false), x, y, phi));
          case LpRmL => assert NoLonger(p2, Candidate(l, zero, LpRmL, Use(flip, reflect, back), x, y, phi));
          case LpRupLumRm => assert NoLonger(p3, Candidate(l, zero, LpRupLumRm, Use(flip, reflect, false), x, y, phi));
          case LpRumLumRp => assert NoLonger(p3, Candidate(l, zero, LpRumLumRp, Use(flip, reflect, false), x, y, phi));
          case LpRmSmLm => assert NoLonger(p4, Candidate(l, zero, LpRmSmLm, Use(flip, reflect, back), x, y, phi));
          case LpRmSmRm => assert NoLonger(p4, Candidate(l, zero, LpRmSmRm, Use(flip, reflect, back), x, y, phi));
          case LpRmSLmRp => assert NoLonger(path, Candidate(l, zero, LpRmSLmRp, Use(flip, reflect, false), x, y, phi));
        }
      }
      if Principal(l) && 0.0 <= zero {
        BeatsFamilies(l, zero, path, x, y, phi);
      }
      if path != NoPath() {
        var f, use :| Usable(f, use) && Candidate(l, zero, f, use, x, y, phi) == Some(path);
        AcceptedReaches(l, zero, f, use, x, y, phi, path);
      }
    }

    /** The path from one pose to another, in units of the turning radius. */
    method Plan(q0: Pose, q1: Pose) returns (path: Path)
      requires Exact(l) && 0.0 < l.pi && 0.0 < rho
      ensures path.Valid()
      ensures path == NoPath() || Arrives(l, rho, q0, q1, path.Word())
      ensures var g := FrameGoal(l, rho, q0, q1);
              forall f, use :: Usable(f, use) ==> NoLonger(path, Candidate(l, zero, f, use, g.x, g.y, g.theta))
      ensures Principal(l) && 0.0 <= zero ==> ShortestBetween(l, rho, q0, q1, path)
    {
      hide Exact, Principal, Reaches, Candidate, TotalLength, Arrives, FrameGoal, ShortestOfFamilies,
           ShortestBetween;
      var g := FrameGoal(l, rho, q0, q1);
      path := Shortest(g.x, g.y, g.theta);
      ReachesArrives(l, rho, q0, q1, path.Word());
      if Principal(l) && 0.0 <= zero {
        ShortestInWorld(l, rho, q0, q1, path);
      }
    }

    /** The pose after arc length `seg` along the path from `q0`. */
    method Interpolate(q0: Pose, path: Path, seg: real) returns (s: Pose)
      requires Exact(l) && path.Valid()
      ensures s == Placed(rho, q0, Drive(l, Pose(0.0, 0.0, q0.theta), path.Upto(seg)))
    {
      hide Exact, TotalLength, Move, Clip;
      var kinds, lengths := PathType(path.typeIndex), path.lengths;
      var rest := Clamped(seg, path.Length());
      ghost var whole := rest;
      s := Pose(0.0, 0.0, q0.theta);
      var i := 0;
      TotalNonnegative(lengths);
      AtStart(l, s, kinds, lengths, whole);
      while i < 5 && rest > 0.0
        invariant 0 <= i <= 5 && 0.0 <= rest
        invariant rest == whole - TotalLength(Clipped(lengths[..i], whole))
        invariant s == Drive(l, Pose(0.0, 0.0, q0.theta), Zip(kinds[..i], Clipped(lengths[..i], whole)))
      {
        var v := Clip(lengths[i], rest);
        NextPiece(l, Pose(0.0, 0.0, q0.theta), kinds, lengths, whole, i, rest, v);
        rest := if lengths[i] < 0.0 then rest + v else rest - v;
        s := Move(l, s, Segment(kinds[i], v));
        i := i + 1;
      }
      if i < 5 {
        NothingLeft(l, Pose(0.0, 0.0, q0.theta), kinds, lengths, whole, i);
      }
      assert kinds[..5] == kinds && lengths[..5] == lengths;
      s := Placed(rho, q0, s);
    }
  }
}
