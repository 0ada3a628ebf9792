/** The overlap test of two boxes (box2d.h:337-366) as a statement about rectangles. */
module OverlapTest {
  import opened Reals
  import opened Planar
  import opened RectSegment
  import opened Rectangles
  import opened SeparatingAxis

  function Cross(p: Vec2d, q: Vec2d): real {
    CrossProd(p.x, p.y, q.x, q.y)
  }

  function Heading(r: Rect): Vec2d {
    Vec2d(r.c, r.s)
  }

  /** (dx1, dy1) and (dx3, dy3) of box2d.h:340-345: the half length as a vector. */
  function HalfLength(r: Rect): Vec2d {
    Vec2d(r.c * r.hl, r.s * r.hl)
  }

  /** (dx2, dy2) and (dx4, dy4) of box2d.h:342-347: the half width as a vector. */
  function HalfWidth(r: Rect): Vec2d {
    Vec2d(r.s * r.hw, -r.c * r.hw)
  }

  /** The four inequalities of HasOverlap (box2d.h:349-366), for `r` against `r'`. */
  predicate AxesOverlap(r: Rect, r': Rect) {
    var shift := Sub(r'.center, r.center);
    var h, h' := Heading(r), Heading(r');
    Abs(Dot(shift, h)) <= Abs(Dot(HalfLength(r'), h)) + Abs(Dot(HalfWidth(r'), h)) + r.hl &&
    Abs(Cross(shift, h)) <= Abs(Cross(HalfLength(r'), h)) + Abs(Cross(HalfWidth(r'), h)) + r.hw &&
    Abs(Dot(shift, h')) <= Abs(Dot(HalfLength(r), h')) + Abs(Dot(HalfWidth(r), h')) + r'.hl &&
    Abs(Cross(shift, h')) <= Abs(Cross(HalfLength(r), h')) + Abs(Cross(HalfWidth(r), h')) + r'.hw
  }

  /** The heading of `r'` relative to `r`. */
  function RelC(r: Rect, r': Rect): real {
    r.c * r'.c + r.s * r'.s
  }

  function RelS(r: Rect, r': Rect): real {
    r.c * r'.s - r.s * r'.c
  }

  /** The centre of `r'` relative to that of `r`, in the axes of `r'`. */
  function Shift(r: Rect, r': Rect): Vec2d {
    Global2Local(r'.c, r'.s, Sub(r'.center, r.center))
  }

  ghost predicate Canonical(r: Rect, r': Rect) {
    Meets(r.hl, r.hw, r'.hl, r'.hw, RelC(r, r'), RelS(r, r'), Shift(r, r').x, Shift(r, r').y)
  }

  lemma UnitProduct(c: real, s: real, c': real, s': real)
    requires c * c + s * s == 1.0 && c' * c' + s' * s' == 1.0
    ensures (c * c' + s * s') * (c * c' + s * s') + (c * s' - s * c') * (c * s' - s * c') == 1.0
  {
    assert (c * c' + s * s') * (c * c' + s * s') + (c * s' - s * c') * (c * s' - s * c')
        == (c * c + s * s) * (c' * c') + (c * c + s * s) * (s' * s');
  }

  lemma RelativeUnit(r: Rect, r': Rect)
    requires Unit(r) && Unit(r')
    ensures RelC(r, r') * RelC(r, r') + RelS(r, r') * RelS(r, r') == 1.0
  {
    UnitProduct(r.c, r.s, r'.c, r'.s);
  }

  // ----- Shared points in the frame of the first rectangle -----

  lemma Turn(c: real, s: real, c': real, s': real, x: real, y: real,
             rc: real, rs: real, qx: real, qy: real, qx': real, qy': real)
    requires c * c + s * s == 1.0 && rc == c * c' + s * s' && rs == c * s' - s * c'
    requires qx == x * c + y * s && qy == -x * s + y * c
    requires qx' == x * c' + y * s' && qy' == -x * s' + y * c'
    ensures Along(rc, rs, qx, qy) == qx' && Across(rc, rs, qx, qy) == qy'
  {
    var one := c * c + s * s;
    assert (c * c' + s * s') * (x * c + y * s) + (c * s' - s * c') * (-x * s + y * c) == one * (x * c' + y * s');
    assert (c * c' + s * s') * (-x * s + y * c) - (c * s' - s * c') * (x * c + y * s) == one * (-x * s' + y * c');
  }

  lemma TurnFurther(r: Rect, r': Rect, v: Vec2d)
    requires Unit(r)
    ensures var q := Global2Local(r.c, r.s, v);
            Global2Local(r'.c, r'.s, v)
            == Vec2d(Along(RelC(r, r'), RelS(r, r'), q.x, q.y), Across(RelC(r, r'), RelS(r, r'), q.x, q.y))
  {
    hide Along, Across;
    var q, q' := Global2Local(r.c, r.s, v), Global2Local(r'.c, r'.s, v);
    Turn(r.c, r.s, r'.c, r'.s, v.x, v.y, RelC(r, r'), RelS(r, r'), q.x, q.y, q'.x, q'.y);
  }

  lemma LocalInOther(r: Rect, r': Rect, p: Vec2d)
    requires Unit(r)
    ensures var q := ToLocal(r, p);
            ToLocal(r', p) == Vec2d(Along(RelC(r, r'), RelS(r, r'), q.x, q.y) - Shift(r, r').x,
                                    Across(RelC(r, r'), RelS(r, r'), q.x, q.y) - Shift(r, r').y)
  {
    hide Global2Local, Along, Across, RelC, RelS;
    var v := Sub(p, r.center);
    assert Sub(p, r'.center) == Sub(v, Sub(r'.center, r.center));
    RotationLinear(r'.c, r'.s, v, Sub(r'.center, r.center));
    TurnFurther(r, r', v);
  }

  lemma SharedIsCanonical(r: Rect, r': Rect)
    requires Proper(r) && Proper(r')
    ensures SharePoint(r, r') <==> Canonical(r, r')
  {
    hide ToLocal, ToGlobal, Along, Across, RelC, RelS, Shift;
    if SharePoint(r, r') {
      var p: Vec2d :| Contains(r, p) && Contains(r', p);
      LocalInOther(r, r', p);
      var q := ToLocal(r, p);
      assert Common(r.hl, r.hw, r'.hl, r'.hw, RelC(r, r'), RelS(r, r'), Shift(r, r').x, Shift(r, r').y, q.x, q.y);
    }
    if Canonical(r, r') {
      var x: real, y: real :|
        Common(r.hl, r.hw, r'.hl, r'.hw, RelC(r, r'), RelS(r, r'), Shift(r, r').x, Shift(r, r').y, x, y);
      var p := ToGlobal(r, Vec2d(x, y));
      FramesInverse(r, Vec2d(x, y));
      LocalInOther(r, r', p);
      assert Contains(r, p) && Contains(r', p);
    }
  }

  // ----- The test in canonical form -----

  lemma Reverse(r: Rect, r': Rect)
    ensures RelC(r', r) == RelC(r, r') && RelS(r', r) == -RelS(r, r')
    ensures forall l: real, w: real {:trigger Extent(RelC(r', r), RelS(r', r), l, w)} ::
              Extent(RelC(r', r), RelS(r', r), l, w) == Extent(RelC(r, r'), RelS(r, r'), l, w)
    ensures forall l: real, w: real {:trigger Extent(RelS(r', r), RelC(r', r), l, w)} ::
              Extent(RelS(r', r), RelC(r', r), l, w) == Extent(RelS(r, r'), RelC(r, r'), l, w)
  {
    hide Extent;
    forall l: real, w: real {
      ExtentEven(RelC(r, r'), RelS(r, r'), l, w);
    }
  }

  lemma AxisCoordinates(r: Rect, v: Vec2d)
    ensures Dot(v, Heading(r)) == Global2Local(r.c, r.s, v).x
    ensures Abs(Cross(v, Heading(r))) == Abs(Global2Local(r.c, r.s, v).y)
  {
    assert Cross(v, Heading(r)) == -Global2Local(r.c, r.s, v).y;
  }

  /** The centre displacement along the axes of the two rectangles. */
  lemma ShiftAxes(r: Rect, r': Rect)
    requires Unit(r) && Unit(r')
    ensures var v, m := Sub(r'.center, r.center), Shift(r, r');
            Abs(Dot(v, Heading(r))) == Abs(Along(RelC(r, r'), -RelS(r, r'), m.x, m.y)) &&
            Abs(Cross(v, Heading(r))) == Abs(Across(RelC(r, r'), -RelS(r, r'), m.x, m.y)) &&
            Abs(Dot(v, Heading(r'))) == Abs(m.x) && Abs(Cross(v, Heading(r'))) == Abs(m.y)
  {
    hide Along, Across, RelC, RelS, Dot, Cross, Abs, Global2Local, Extent;
    var v := Sub(r'.center, r.center);
    TurnFurther(r', r, v);
    Reverse(r, r');
    AxisCoordinates(r, v);
    AxisCoordinates(r', v);
  }

  lemma ProjectedHalves(r: Rect, r': Rect)
    ensures Dot(HalfLength(r), Heading(r')) == RelC(r, r') * r.hl
    ensures Dot(HalfWidth(r), Heading(r')) == -(RelS(r, r') * r.hw)
    ensures Cross(HalfLength(r), Heading(r')) == RelS(r, r') * r.hl
    ensures Cross(HalfWidth(r), Heading(r')) == RelC(r, r') * r.hw
  {
    assert (r.c * r.hl) * r'.c + (r.s * r.hl) * r'.s == (r.c * r'.c + r.s * r'.s) * r.hl;
    assert (r.s * r.hw) * r'.c + (-r.c * r.hw) * r'.s == -((r.c * r'.s - r.s * r'.c) * r.hw);
    assert (r.c * r.hl) * r'.s - r'.c * (r.s * r.hl) == (r.c * r'.s - r.s * r'.c) * r.hl;
    assert (r.s * r.hw) * r'.s - r'.c * (-r.c * r.hw) == (r.c * r'.c + r.s * r'.s) * r.hw;
  }

  lemma AbsProduct(p: real, x: real, h: real)
    requires 0.0 <= h && (p == x * h || p == -(x * h))
    ensures Abs(p) == Abs(x) * h
  {
    MulSign(x, h);
  }

  /** The projections of the half length and half width of `r` on the axes of `r'`. */
  lemma Projections(r: Rect, r': Rect)
    requires 0.0 <= r.hl && 0.0 <= r.hw
    ensures Abs(Dot(HalfLength(r), Heading(r'))) + Abs(Dot(HalfWidth(r), Heading(r')))
         == Extent(RelC(r, r'), RelS(r, r'), r.hl, r.hw)
    ensures Abs(Cross(HalfLength(r), Heading(r'))) + Abs(Cross(HalfWidth(r), Heading(r')))
         == Extent(RelS(r, r'), RelC(r, r'), r.hl, r.hw)
  {
    hide Dot, Cross, HalfLength, HalfWidth, RelC, RelS, Abs, Heading;
    ProjectedHalves(r, r');
    var h := Heading(r');
    AbsProduct(Dot(HalfLength(r), h), RelC(r, r'), r.hl);
    AbsProduct(Dot(HalfWidth(r), h), RelS(r, r'), r.hw);
    AbsProduct(Cross(HalfLength(r), h), RelS(r, r'), r.hl);
    AbsProduct(Cross(HalfWidth(r), h), RelC(r, r'), r.hw);
  }

  lemma TestIsNoGap(r: Rect, r': Rect)
    requires Proper(r) && Proper(r')
    ensures var m := Shift(r, r');
            AxesOverlap(r, r') <==> NoGap(r.hl, r.hw, r'.hl, r'.hw, RelC(r, r'), RelS(r, r'), m.x, m.y)
  {
    hide Abs, Along, Across, RelC, RelS, Dot, Cross, HalfLength, HalfWidth, Extent, Shift;
    ShiftAxes(r, r');
    Projections(r', r);
    Projections(r, r');
    Reverse(r, r');
  }

  /** The overlap test answers true exactly when the rectangles share a point. */
  lemma AxesOverlapExact(r: Rect, r': Rect)
    requires Proper(r) && Proper(r')
    ensures AxesOverlap(r, r') <==> SharePoint(r, r')
  {
    hide AxesOverlap, SharePoint, Meets, NoGap, RelC, RelS, Shift;
    RelativeUnit(r, r');
    var m := Shift(r, r');
    SeparatingAxisTheorem(r.hl, r.hw, r'.hl, r'.hw, RelC(r, r'), RelS(r, r'), m.x, m.y);
    SharedIsCanonical(r, r');
    TestIsNoGap(r, r');
  }
}
