/** The axis-parallel extents a box caches for its early exits (box2d.h:430-435). */
module ExtentsModel {
  import opened Reals
  import opened Planar
  import opened RectSegment
  import opened Rectangles

  datatype Extents = Extents(maxX: real, minX: real, maxY: real, minY: real)

  predicate Within(e: Extents, p: Vec2d) {
    e.minX <= p.x <= e.maxX && e.minY <= p.y <= e.maxY
  }

  /** Widening by one corner. */
  function Widen(e: Extents, p: Vec2d): Extents {
    Extents(Max(p.x, e.maxX), Min(p.x, e.minX), Max(p.y, e.maxY), Min(p.y, e.minY))
  }

  /** Widening by corners in turn. */
  function WidenAll(e: Extents, ps: seq<Vec2d>): Extents {
    if ps == [] then e else Widen(WidenAll(e, ps[..|ps| - 1]), ps[|ps| - 1])
  }

  /** Widening covers the old extents and every corner, and is the least that does. */
  lemma {:induction false} WidenAllLeast(e: Extents, ps: seq<Vec2d>, q: Vec2d)
    ensures Within(e, q) ==> Within(WidenAll(e, ps), q)
    ensures forall i :: 0 <= i < |ps| ==> Within(WidenAll(e, ps), ps[i])
    ensures forall f: Extents :: f.minX <= e.minX && e.maxX <= f.maxX && f.minY <= e.minY && e.maxY <= f.maxY
              && (forall i :: 0 <= i < |ps| ==> Within(f, ps[i]))
              ==> f.minX <= WidenAll(e, ps).minX && WidenAll(e, ps).maxX <= f.maxX
                  && f.minY <= WidenAll(e, ps).minY && WidenAll(e, ps).maxY <= f.maxY
  {
    if ps != [] {
      var rest := ps[..|ps| - 1];
      WidenAllLeast(e, rest, q);
      assert forall i :: 0 <= i < |ps| - 1 ==> ps[i] == rest[i];
    }
  }

  ghost predicate CoversCorners(e: Extents, r: Rect) {
    forall i: nat :: i < 4 ==> Within(e, Corner(r, i))
  }

  lemma CornerCoordinates(c: real, s: real, hl: real, hw: real, q: Vec2d)
    ensures Local2Global(c, s, Vec2d(hl, -hw)) == Vec2d(Times(hl, c) + Times(hw, s), Times(hl, s) - Times(hw, c))
    ensures Local2Global(c, s, Vec2d(hl, hw)) == Vec2d(Times(hl, c) - Times(hw, s), Times(hl, s) + Times(hw, c))
    ensures Local2Global(c, s, Vec2d(-hl, hw)) == Vec2d(-Times(hl, c) - Times(hw, s), -Times(hl, s) + Times(hw, c))
    ensures Local2Global(c, s, Vec2d(-hl, -hw)) == Vec2d(-Times(hl, c) + Times(hw, s), -Times(hl, s) - Times(hw, c))
    ensures Local2Global(c, s, q) == Vec2d(Times(q.x, c) - Times(q.y, s), Times(q.x, s) + Times(q.y, c))
  {
  }

  /** The image of a point of the rectangle lies between the images of corners, in each coordinate. */
  lemma BetweenCorners(e: Extents, o: Vec2d, lc: real, ws: real, ls: real, wc: real,
                       xc: real, ys: real, xs: real, yc: real)
    requires Abs(xc) <= Abs(lc) && Abs(ys) <= Abs(ws) && Abs(xs) <= Abs(ls) && Abs(yc) <= Abs(wc)
    requires Within(e, Add(o, Vec2d(lc + ws, ls - wc))) && Within(e, Add(o, Vec2d(lc - ws, ls + wc)))
    requires Within(e, Add(o, Vec2d(-lc - ws, -ls + wc))) && Within(e, Add(o, Vec2d(-lc + ws, -ls - wc)))
    ensures Within(e, Add(o, Vec2d(xc - ys, xs + yc)))
  {
  }

  lemma Expanded(h: real, x: real, c: real)
    ensures (h - x) * c == h * c - x * c && (h + x) * c == h * c + x * c
  {
  }

  lemma ScaledBound(c: real, x: real, h: real)
    requires -h <= x <= h
    ensures Abs(Times(x, c)) <= Abs(Times(h, c))
  {
    MulSign(h - x, c);
    MulSign(h + x, c);
    Expanded(h, x, c);
  }

  lemma ScaledBounds(c: real, s: real, x: real, h: real)
    requires -h <= x <= h
    ensures Abs(Times(x, c)) <= Abs(Times(h, c)) && Abs(Times(x, s)) <= Abs(Times(h, s))
  {
    hide Times;
    ScaledBound(c, x, h);
    ScaledBound(s, x, h);
  }

  /** Extents that cover the corners cover the rectangle. */
  lemma CoversRect(e: Extents, r: Rect, p: Vec2d)
    requires Proper(r) && CoversCorners(e, r) && Contains(r, p)
    ensures Within(e, p)
  {
    hide Global2Local, Local2Global, Within, Times, Abs;
    var q, c, s, hl, hw := ToLocal(r, p), r.c, r.s, r.hl, r.hw;
    FramesInverse(r, p);
    assert p == ToGlobal(r, q);
    assert Within(e, Corner(r, 0)) && Within(e, Corner(r, 1)) && Within(e, Corner(r, 2)) && Within(e, Corner(r, 3));
    CornerCoordinates(c, s, hl, hw, q);
    ScaledBounds(c, s, q.x, hl);
    ScaledBounds(c, s, q.y, hw);
    BetweenCorners(e, r.center, Times(hl, c), Times(hw, s), Times(hl, s), Times(hw, c),
                   Times(q.x, c), Times(q.y, s), Times(q.x, s), Times(q.y, c));
  }
}
