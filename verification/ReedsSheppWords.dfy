/** Words of Reeds-Shepp segments, where they lead, and the symmetries of the plane they obey (Reeds_Shepp.h). */
module ReedsSheppWords {
  import opened Reals
  import opened Trigonometry

  datatype Kind = Nop | Left | Straight | Right

  datatype Segment = Segment(kind: Kind, length: real)

  type Word = seq<Segment>

  datatype Pose = Pose(x: real, y: real, theta: real)

  const ORIGIN := Pose(0.0, 0.0, 0.0)

  /** One segment, for a turning radius of one. */
  function Move(l: Library, s: Pose, g: Segment): Pose {
    var phi, v := s.theta, g.length;
    match g.kind
    case Left =>
      Pose(s.x + (l.sin(phi + v) - l.sin(phi)), s.y + (-l.cos(phi + v) + l.cos(phi)), phi + v)
    case Right =>
      Pose(s.x + (-l.sin(phi - v) + l.sin(phi)), s.y + (l.cos(phi - v) - l.cos(phi)), phi - v)
    case Straight =>
      Pose(s.x + Times(v, l.cos(phi)), s.y + Times(v, l.sin(phi)), phi)
    case Nop => s
  }

  /** The centre of the circle of radius one to the left of a pose. */
  function LeftCentre(l: Library, s: Pose): (real, real) {
    (s.x - l.sin(s.theta), s.y + l.cos(s.theta))
  }

  function RightCentre(l: Library, s: Pose): (real, real) {
    (s.x + l.sin(s.theta), s.y - l.cos(s.theta))
  }

  /** Turns go round the centre on their side by their length; straight segments follow the heading. */
  lemma MoveMeans(l: Library, s: Pose, g: Segment)
    ensures var s' := Move(l, s, g);
            match g.kind
            case Left => LeftCentre(l, s') == LeftCentre(l, s) && s'.theta == s.theta + g.length
            case Right => RightCentre(l, s') == RightCentre(l, s) && s'.theta == s.theta - g.length
            case Straight =>
              s'.x - s.x == g.length * l.cos(s.theta) && s'.y - s.y == g.length * l.sin(s.theta) && s'.theta == s.theta
            case Nop => s' == s
  {
  }

  /** All segments of a word, in order. */
  function Drive(l: Library, s: Pose, w: Word): Pose {
    if w == [] then s else Move(l, Drive(l, s, w[..|w| - 1]), w[|w| - 1])
  }

  function Turn(k: Kind): Kind {
    match k
    case Left => Right
    case Right => Left
    case _ => k
  }

  function TimeFlip(w: Word): (f: Word)
    ensures |f| == |w|
  {
    seq(|w|, i requires 0 <= i < |w| => Segment(w[i].kind, -w[i].length))
  }

  function Reflect(w: Word): (f: Word)
    ensures |f| == |w|
  {
    seq(|w|, i requires 0 <= i < |w| => Segment(Turn(w[i].kind), w[i].length))
  }

  function Reverse(w: Word): (f: Word)
    ensures |f| == |w|
  {
    if w == [] then [] else [w[|w| - 1]] + Reverse(w[..|w| - 1])
  }

  // ----- Time flip and reflection -----

  function FlippedPose(s: Pose): Pose {
    Pose(-s.x, s.y, -s.theta)
  }

  function ReflectedPose(s: Pose): Pose {
    Pose(s.x, -s.y, -s.theta)
  }

  lemma NegatedProduct(a: real, b: real)
    ensures -a * b == -(a * b) && -a * -b == a * b && a * -b == -(a * b)
  {
  }

  lemma MoveFlipped(l: Library, s: Pose, g: Segment)
    requires Exact(l)
    ensures Move(l, FlippedPose(s), Segment(g.kind, -g.length)) == FlippedPose(Move(l, s, g))
  {
    hide Exact;
    Parity(l, s.theta);
    Parity(l, s.theta + g.length);
    Parity(l, s.theta - g.length);
    assert -s.theta + -g.length == -(s.theta + g.length) && -s.theta - -g.length == -(s.theta - g.length);
    NegatedProduct(g.length, l.cos(s.theta));
    NegatedProduct(g.length, l.sin(s.theta));
  }

  lemma MoveReflected(l: Library, s: Pose, g: Segment)
    requires Exact(l)
    ensures Move(l, ReflectedPose(s), Segment(Turn(g.kind), g.length)) == ReflectedPose(Move(l, s, g))
  {
    hide Exact;
    Parity(l, s.theta);
    Parity(l, s.theta + g.length);
    Parity(l, s.theta - g.length);
    assert -s.theta + g.length == -(s.theta - g.length) && -s.theta - g.length == -(s.theta + g.length);
    NegatedProduct(g.length, l.sin(s.theta));
  }

  lemma DriveSnoc(l: Library, s: Pose, w: Word, g: Segment)
    ensures Drive(l, s, w + [g]) == Move(l, Drive(l, s, w), g)
  {
    assert (w + [g])[..|w|] == w;
  }

  lemma FlipSnoc(w: Word, g: Segment)
    ensures TimeFlip(w + [g]) == TimeFlip(w) + [Segment(g.kind, -g.length)]
    ensures Reflect(w + [g]) == Reflect(w) + [Segment(Turn(g.kind), g.length)]
  {
  }

  lemma SnocSplit(w: Word)
    requires w != []
    ensures w == w[..|w| - 1] + [w[|w| - 1]]
  {
  }

  lemma FlippedStep(l: Library, s: Pose, w: Word, g: Segment)
    requires Exact(l) && Drive(l, FlippedPose(s), TimeFlip(w)) == FlippedPose(Drive(l, s, w))
    ensures Drive(l, FlippedPose(s), TimeFlip(w + [g])) == FlippedPose(Drive(l, s, w + [g]))
  {
    hide *;
    FlipSnoc(w, g);
    DriveSnoc(l, s, w, g);
    DriveSnoc(l, FlippedPose(s), TimeFlip(w), Segment(g.kind, -g.length));
    MoveFlipped(l, Drive(l, s, w), g);
  }

  /** Negating every length leads to (-x, y, -phi), from the mirrored start. */
  lemma {:induction false} DriveFlipped(l: Library, s: Pose, w: Word)
    requires Exact(l)
    ensures Drive(l, FlippedPose(s), TimeFlip(w)) == FlippedPose(Drive(l, s, w))
  {
    if w != [] {
      var w', g := w[..|w| - 1], w[|w| - 1];
      SnocSplit(w);
      DriveFlipped(l, s, w');
      FlippedStep(l, s, w', g);
    }
  }

  lemma ReflectedStep(l: Library, s: Pose, w: Word, g: Segment)
    requires Exact(l) && Drive(l, ReflectedPose(s), Reflect(w)) == ReflectedPose(Drive(l, s, w))
    ensures Drive(l, ReflectedPose(s), Reflect(w + [g])) == ReflectedPose(Drive(l, s, w + [g]))
  {
    hide *;
    FlipSnoc(w, g);
    DriveSnoc(l, s, w, g);
    DriveSnoc(l, ReflectedPose(s), Reflect(w), Segment(Turn(g.kind), g.length));
    MoveReflected(l, Drive(l, s, w), g);
  }

  /** Exchanging left and right leads to (x, -y, -phi). */
  lemma {:induction false} DriveReflected(l: Library, s: Pose, w: Word)
    requires Exact(l)
    ensures Drive(l, ReflectedPose(s), Reflect(w)) == ReflectedPose(Drive(l, s, w))
  {
    if w != [] {
      var w', g := w[..|w| - 1], w[|w| - 1];
      SnocSplit(w);
      DriveReflected(l, s, w');
      ReflectedStep(l, s, w', g);
    }
  }

  // ----- Composition of motions -----

  function RotateX(x: real, y: real, c: real, s: real): real {
    x * c - y * s
  }

  function RotateY(x: real, y: real, c: real, s: real): real {
    x * s + y * c
  }

  /** Motion `q` made from pose `p`. */
  function Compose(l: Library, p: Pose, q: Pose): Pose {
    var c, s := l.cos(p.theta), l.sin(p.theta);
    Pose(p.x + RotateX(q.x, q.y, c, s), p.y + RotateY(q.x, q.y, c, s), p.theta + q.theta)
  }

  /** A single motion, seen from the origin. */
  function Primitive(l: Library, g: Segment): Pose {
    var v := g.length;
    match g.kind
    case Left => Pose(l.sin(v), 1.0 - l.cos(v), v)
    case Right => Pose(l.sin(v), l.cos(v) - 1.0, -v)
    case Straight => Pose(v, 0.0, 0.0)
    case Nop => ORIGIN
  }

  lemma MoveFromOrigin(l: Library, g: Segment)
    requires Exact(l)
    ensures Move(l, ORIGIN, g) == Primitive(l, g)
  {
    hide Exact;
    AtZero(l);
    Parity(l, g.length);
    assert 0.0 + g.length == g.length && 0.0 - g.length == -g.length;
  }

  lemma DistributeLeft(c: real, s: real, cv: real, sv: real)
    ensures RotateX(sv, 1.0 - cv, c, s) == (s * cv + c * sv) - s
    ensures RotateY(sv, 1.0 - cv, c, s) == -(c * cv - s * sv) + c
  {
  }

  lemma DistributeRight(c: real, s: real, cv: real, sv: real)
    ensures RotateX(sv, cv - 1.0, c, s) == -(s * cv - c * sv) + s
    ensures RotateY(sv, cv - 1.0, c, s) == (c * cv + s * sv) - c
  {
  }

  lemma DistributeStraight(c: real, s: real, v: real)
    ensures RotateX(v, 0.0, c, s) == Times(v, c) && RotateY(v, 0.0, c, s) == Times(v, s)
    ensures v == 0.0 ==> Times(v, c) == 0.0 && Times(v, s) == 0.0
  {
  }

  lemma MoveIsPrimitive(l: Library, p: Pose, g: Segment)
    requires Exact(l)
    ensures Move(l, p, g) == Compose(l, p, Primitive(l, g))
  {
    hide Exact, RotateX, RotateY;
    var phi, v := p.theta, g.length;
    var c, s, cv, sv := l.cos(phi), l.sin(phi), l.cos(v), l.sin(v);
    match g.kind {
      case Left =>
        Sum(l, phi, v, phi + v);
        DistributeLeft(c, s, cv, sv);
        assert Move(l, p, g).x == p.x + RotateX(sv, 1.0 - cv, c, s);
        assert Move(l, p, g).y == p.y + RotateY(sv, 1.0 - cv, c, s);
      case Right =>
        Difference(l, phi, v, phi - v);
        DistributeRight(c, s, cv, sv);
        assert Move(l, p, g).x == p.x + RotateX(sv, cv - 1.0, c, s);
        assert Move(l, p, g).y == p.y + RotateY(sv, cv - 1.0, c, s);
      case Straight =>
        DistributeStraight(c, s, v);
      case Nop =>
        DistributeStraight(c, s, 0.0);
    }
  }

  lemma MoveComposes(l: Library, p: Pose, g: Segment)
    requires Exact(l)
    ensures Move(l, p, g) == Compose(l, p, Move(l, ORIGIN, g))
  {
    hide Exact, Move, Compose, Primitive;
    MoveFromOrigin(l, g);
    MoveIsPrimitive(l, p, g);
  }

  lemma RotateTwice(x: real, y: real, c: real, s: real, c': real, s': real, cs: real, sn: real)
    requires cs == c * c' - s * s' && sn == s * c' + c * s'
    ensures RotateX(x, y, cs, sn) == RotateX(RotateX(x, y, c', s'), RotateY(x, y, c', s'), c, s)
    ensures RotateY(x, y, cs, sn) == RotateY(RotateX(x, y, c', s'), RotateY(x, y, c', s'), c, s)
  {
  }

  lemma RotateSum(x: real, y: real, x': real, y': real, c: real, s: real)
    ensures RotateX(x + x', y + y', c, s) == RotateX(x, y, c, s) + RotateX(x', y', c, s)
    ensures RotateY(x + x', y + y', c, s) == RotateY(x, y, c, s) + RotateY(x', y', c, s)
  {
  }

  lemma ComposeAssoc(l: Library, p: Pose, q: Pose, r: Pose)
    requires Exact(l)
    ensures Compose(l, Compose(l, p, q), r) == Compose(l, p, Compose(l, q, r))
  {
    hide Exact, RotateX, RotateY;
    Sum(l, p.theta, q.theta, p.theta + q.theta);
    var c, s, c', s' := l.cos(p.theta), l.sin(p.theta), l.cos(q.theta), l.sin(q.theta);
    RotateTwice(r.x, r.y, c, s, c', s', l.cos(p.theta + q.theta), l.sin(p.theta + q.theta));
    RotateSum(q.x, q.y, RotateX(r.x, r.y, c', s'), RotateY(r.x, r.y, c', s'), c, s);
  }

  lemma ComposeOrigin(l: Library, p: Pose)
    requires Exact(l)
    ensures Compose(l, p, ORIGIN) == p && Compose(l, ORIGIN, p) == p
  {
    AtZero(l);
  }

  /** A word drives from any pose as from the origin. */
  lemma {:induction false} DriveComposes(l: Library, p: Pose, w: Word)
    requires Exact(l)
    ensures Drive(l, p, w) == Compose(l, p, Drive(l, ORIGIN, w))
  {
    hide Exact, Move, Compose;
    if w == [] {
      ComposeOrigin(l, p);
    } else {
      var n := |w| - 1;
      var m := Move(l, ORIGIN, w[n]);
      DriveComposes(l, p, w[..n]);
      MoveComposes(l, Drive(l, p, w[..n]), w[n]);
      MoveComposes(l, Drive(l, ORIGIN, w[..n]), w[n]);
      ComposeAssoc(l, p, Drive(l, ORIGIN, w[..n]), m);
    }
  }

  // ----- Reversal -----

  function BackX(x: real, y: real, c: real, s: real): real {
    x * c + y * s
  }

  function BackY(x: real, y: real, c: real, s: real): real {
    x * s - y * c
  }

  /** The goal (xb, yb, phi) of the backwards formulas. */
  function BackwardsPose(l: Library, s: Pose): Pose {
    var c, sn := l.cos(s.theta), l.sin(s.theta);
    Pose(BackX(s.x, s.y, c, sn), BackY(s.x, s.y, c, sn), s.theta)
  }

  lemma TurnedBack(x: real, y: real, c: real, s: real)
    requires c * c + s * s == 1.0
    ensures BackX(BackX(x, y, c, s), BackY(x, y, c, s), c, s) == x
    ensures BackY(BackX(x, y, c, s), BackY(x, y, c, s), c, s) == y
  {
    assert (x * c + y * s) * c + (x * s - y * c) * s == x * (c * c + s * s);
    assert (x * c + y * s) * s - (x * s - y * c) * c == y * (c * c + s * s);
  }

  lemma BackwardsInvolution(l: Library, s: Pose)
    requires Exact(l)
    ensures BackwardsPose(l, BackwardsPose(l, s)) == s
  {
    hide Exact;
    Pythagoras(l, s.theta);
    TurnedBack(s.x, s.y, l.cos(s.theta), l.sin(s.theta));
  }

  lemma OwnReversal(c: real, s: real)
    requires c * c + s * s == 1.0
    ensures BackX(s, 1.0 - c, c, s) == s && BackY(s, 1.0 - c, c, s) == 1.0 - c
    ensures BackX(s, c - 1.0, c, -s) == s && BackY(s, c - 1.0, c, -s) == c - 1.0
  {
  }

  /** A single segment is its own reversal. */
  lemma BackwardsMove(l: Library, g: Segment)
    requires Exact(l)
    ensures BackwardsPose(l, Move(l, ORIGIN, g)) == Move(l, ORIGIN, g)
  {
    hide Exact, Move;
    MoveFromOrigin(l, g);
    AtZero(l);
    Parity(l, g.length);
    Pythagoras(l, g.length);
    OwnReversal(l.cos(g.length), l.sin(g.length));
  }

  lemma BackSum(x: real, y: real, x': real, y': real, c: real, s: real)
    ensures BackX(x + x', y + y', c, s) == BackX(x, y, c, s) + BackX(x', y', c, s)
    ensures BackY(x + x', y + y', c, s) == BackY(x, y, c, s) + BackY(x', y', c, s)
  {
  }

  lemma BackScaled(x: real, y: real, c: real, s: real, c': real, s': real, cs: real, sn: real)
    requires cs == c * c' - s * s' && sn == s * c' + c * s'
    ensures BackX(RotateX(x, y, c, s), RotateY(x, y, c, s), cs, sn) == BackX(x, y, c', s') * (c * c + s * s)
    ensures BackY(RotateX(x, y, c, s), RotateY(x, y, c, s), cs, sn) == BackY(x, y, c', s') * (c * c + s * s)
  {
  }

  lemma UnitFactor(x: real, k: real)
    requires k == 1.0
    ensures x * k == x
  {
  }

  lemma BackRotated(x: real, y: real, c: real, s: real, c': real, s': real, cs: real, sn: real)
    requires c * c + s * s == 1.0 && cs == c * c' - s * s' && sn == s * c' + c * s'
    ensures BackX(RotateX(x, y, c, s), RotateY(x, y, c, s), cs, sn) == BackX(x, y, c', s')
    ensures BackY(RotateX(x, y, c, s), RotateY(x, y, c, s), cs, sn) == BackY(x, y, c', s')
  {
    BackScaled(x, y, c, s, c', s', cs, sn);
    UnitFactor(BackX(x, y, c', s'), c * c + s * s);
    UnitFactor(BackY(x, y, c', s'), c * c + s * s);
  }

  lemma BackTurned(x: real, y: real, c: real, s: real, c': real, s': real, cs: real, sn: real)
    requires cs == c * c' - s * s' && sn == s * c' + c * s'
    ensures BackX(x, y, cs, sn) == RotateX(BackX(x, y, c, s), BackY(x, y, c, s), c', s')
    ensures BackY(x, y, cs, sn) == RotateY(BackX(x, y, c, s), BackY(x, y, c, s), c', s')
  {
  }

  /** Composition is reversed. */
  lemma BackwardsCompose(l: Library, p: Pose, q: Pose)
    requires Exact(l)
    ensures BackwardsPose(l, Compose(l, p, q)) == Compose(l, BackwardsPose(l, q), BackwardsPose(l, p))
  {
    hide Exact, RotateX, RotateY, BackX, BackY;
    Sum(l, p.theta, q.theta, p.theta + q.theta);
    Pythagoras(l, p.theta);
    var c, s, c', s' := l.cos(p.theta), l.sin(p.theta), l.cos(q.theta), l.sin(q.theta);
    var cs, sn := l.cos(p.theta + q.theta), l.sin(p.theta + q.theta);
    BackSum(p.x, p.y, RotateX(q.x, q.y, c, s), RotateY(q.x, q.y, c, s), cs, sn);
    BackRotated(q.x, q.y, c, s, c', s', cs, sn);
    BackTurned(p.x, p.y, c, s, c', s', cs, sn);
  }

  lemma DriveOne(l: Library, p: Pose, g: Segment)
    ensures Drive(l, p, [g]) == Move(l, p, g)
  {
    assert [g][..0] == [] && Drive(l, p, []) == p;
  }

  lemma {:induction false} DriveConcat(l: Library, p: Pose, w: Word, w': Word)
    ensures Drive(l, p, w + w') == Drive(l, Drive(l, p, w), w')
  {
    if w' == [] {
      assert w + w' == w;
    } else {
      var n := |w'| - 1;
      assert (w + w')[..|w + w'| - 1] == w + w'[..n];
      DriveConcat(l, p, w, w'[..n]);
    }
  }

  lemma BackwardsOrigin(l: Library)
    ensures BackwardsPose(l, ORIGIN) == ORIGIN
  {
  }

  /** Taking the segments in the opposite order leads to (xb, yb, phi). */
  lemma {:induction false} DriveReversed(l: Library, w: Word)
    requires Exact(l)
    ensures Drive(l, ORIGIN, Reverse(w)) == BackwardsPose(l, Drive(l, ORIGIN, w))
  {
    hide Exact, Move, Compose, BackwardsPose;
    if w == [] {
      assert Reverse(w) == [];
      BackwardsOrigin(l);
    } else {
      var n := |w| - 1;
      var m, p := Move(l, ORIGIN, w[n]), Drive(l, ORIGIN, w[..n]);
      DriveReversed(l, w[..n]);
      DriveConcat(l, ORIGIN, [w[n]], Reverse(w[..n]));
      DriveOne(l, ORIGIN, w[n]);
      DriveComposes(l, m, Reverse(w[..n]));
      MoveComposes(l, p, w[n]);
      BackwardsCompose(l, p, m);
      BackwardsMove(l, w[n]);
    }
  }
}
