/**
 * The plane-geometry helpers nested in PSC_1CEL_XY: perpendicular_point, intersect and point_on_line.
 * Lengths come from `root`, the square root the Python code takes with `** 0.5`.
 */
module Geometry {
  import opened Common

  /** point_on_line: (x3, y3) lies on the line through (x1, y1) and (x2, y2) (cross product zero). */
  predicate PointOnLine(p1: Point, p2: Point, p3: Point)
  {
    (p2.y - p1.y) * (p3.x - p1.x) == (p3.y - p1.y) * (p2.x - p1.x)
  }

  /** p3 - f is orthogonal to the direction p2 - p1. */
  predicate Orthogonal(p1: Point, p2: Point, p3: Point, f: Point)
  {
    (p3.x - f.x) * (p2.x - p1.x) + (p3.y - f.y) * (p2.y - p1.y) == 0.0
  }

  /**
   * The span test of perpendicular_point: f lies in the closed box spanned by p1 and p2.
   * For a point on the line p1p2 this is exactly "length(p1 f) + length(f p2) == length(p1 p2)".
   */
  predicate InSpan(p1: Point, p2: Point, f: Point)
  {
    Min(p1.x, p2.x) <= f.x <= Max(p1.x, p2.x) && Min(p1.y, p2.y) <= f.y <= Max(p1.y, p2.y)
  }

  lemma SlopeFoot(p1: Point, p2: Point, p3: Point, m: real, c: real, xp: real)
    requires p2.x != p1.x
    requires m * (p2.x - p1.x) == p2.y - p1.y
    requires c == p1.y - m * p1.x
    requires xp * (1.0 + m * m) == p3.x + m * (p3.y - c)
    ensures PointOnLine(p1, p2, Point(xp, m * xp + c))
    ensures Orthogonal(p1, p2, p3, Point(xp, m * xp + c))
  {
    var dx, dy := p2.x - p1.x, p2.y - p1.y;
    var yp := m * xp + c;
    assert yp - p1.y == m * (xp - p1.x);
    assert (yp - p1.y) * dx == m * dx * (xp - p1.x);
    assert dy * (xp - p1.x) == (yp - p1.y) * dx;
    assert (p3.x - xp) + m * (p3.y - yp) == p3.x + m * (p3.y - c) - xp * (1.0 + m * m);
    assert (p3.x - xp) * dx + (p3.y - yp) * dy == dx * ((p3.x - xp) + m * (p3.y - yp));
  }

  /** The foot of the perpendicular from p3, computed with the slope form of the Python code. */
  function Foot(p1: Point, p2: Point, p3: Point): (f: Point)
    ensures PointOnLine(p1, p2, f)
    ensures Orthogonal(p1, p2, p3, f)
    ensures p1.x == p2.x ==> f == Point(p1.x, p3.y)
  {
    if p2.x != p1.x then
      var m := (p2.y - p1.y) / (p2.x - p1.x);
      var c := p1.y - m * p1.x;
      assert 1.0 + m * m > 0.0;
      var xp := (p3.x + m * (p3.y - c)) / (1.0 + m * m);
      SlopeFoot(p1, p2, p3, m, c, xp);
      Point(xp, m * xp + c)
    else
      Point(p1.x, p3.y)
  }

  /** The foot is the only point of the line p1p2 that sees p3 at a right angle. */
  lemma FootUnique(p1: Point, p2: Point, p3: Point, q: Point)
    requires p1 != p2
    requires PointOnLine(p1, p2, q) && Orthogonal(p1, p2, p3, q)
    ensures q == Foot(p1, p2, p3)
  {
    var f := Foot(p1, p2, p3);
    var dx, dy := p2.x - p1.x, p2.y - p1.y;
    var u, w := f.x - q.x, f.y - q.y;
    assert dy * u == w * dx;
    assert u * dx + w * dy == 0.0;
    assert u * (dx * dx + dy * dy) == dx * (u * dx + w * dy) + dy * (dy * u - w * dx);
    assert dx * dx + dy * dy > 0.0;
    assert u == 0.0;
    assert w * dy == 0.0 && w * dx == 0.0;
  }

  /** The point p1 + t (p2 - p1) of the line through p1 and p2. */
  function Along(p1: Point, p2: Point, t: real): Point
  {
    Point(p1.x + t * (p2.x - p1.x), p1.y + t * (p2.y - p1.y))
  }

  /** Every point of the line p1p2 (p1 != p2) is Along(p1, p2, t) for the t read off one coordinate. */
  lemma LineParameter(p1: Point, p2: Point, q: Point) returns (t: real)
    requires p1 != p2 && PointOnLine(p1, p2, q)
    ensures q == Along(p1, p2, t)
    ensures p2.x != p1.x ==> t * (p2.x - p1.x) == q.x - p1.x
    ensures p2.x == p1.x ==> t * (p2.y - p1.y) == q.y - p1.y
  {
    var dx, dy := p2.x - p1.x, p2.y - p1.y;
    if dx != 0.0 {
      t := (q.x - p1.x) / dx;
      assert q.x == p1.x + t * dx;
      assert (q.y - p1.y) * dx == dy * (t * dx);
      assert q.y == p1.y + t * dy;
    } else {
      t := (q.y - p1.y) / dy;
      assert q.x == p1.x;
      assert q.y == p1.y + t * dy;
    }
  }

  lemma UnitFromScaled(t: real, d: real)
    requires d != 0.0 && Min(0.0, d) <= t * d <= Max(0.0, d)
    ensures 0.0 <= t <= 1.0
  {
    var q := t * d;
    assert t == q / d;
    if d > 0.0 {
      assert 0.0 <= q <= d;
      assert q / d <= d / d;
    } else {
      assert d <= q <= 0.0;
      assert q / d <= d / d;
    }
  }

  lemma ScaledFromUnit(a: real, d: real, t: real)
    requires 0.0 <= t <= 1.0
    ensures Min(a, a + d) <= a + t * d <= Max(a, a + d)
  {
    if d >= 0.0 {
      assert t * d >= 0.0;
      assert (1.0 - t) * d >= 0.0;
    } else {
      assert t * d <= 0.0;
      assert (1.0 - t) * d <= 0.0;
    }
  }

  lemma SpanGivesUnit(p1: Point, p2: Point, f: Point, t: real)
    requires p1 != p2 && InSpan(p1, p2, f)
    requires p2.x != p1.x ==> t * (p2.x - p1.x) == f.x - p1.x
    requires p2.x == p1.x ==> t * (p2.y - p1.y) == f.y - p1.y
    ensures 0.0 <= t <= 1.0
  {
    if p2.x != p1.x {
      var d := p2.x - p1.x;
      assert Min(0.0, d) <= f.x - p1.x <= Max(0.0, d);
      UnitFromScaled(t, d);
    } else {
      var d := p2.y - p1.y;
      assert Min(0.0, d) <= f.y - p1.y <= Max(0.0, d);
      UnitFromScaled(t, d);
    }
  }

  lemma UnitGivesSpan(p1: Point, p2: Point, t: real)
    requires 0.0 <= t <= 1.0
    ensures InSpan(p1, p2, Along(p1, p2, t))
  {
    ScaledFromUnit(p1.x, p2.x - p1.x, t);
    ScaledFromUnit(p1.y, p2.y - p1.y, t);
    assert p1.x + (p2.x - p1.x) == p2.x && p1.y + (p2.y - p1.y) == p2.y;
  }

  /** On the line p1p2, the span test holds exactly at the points p1 + t (p2 - p1) with 0 <= t <= 1. */
  lemma InSpanIsSegment(p1: Point, p2: Point, f: Point)
    requires p1 != p2 && PointOnLine(p1, p2, f)
    ensures InSpan(p1, p2, f) <==> exists t :: 0.0 <= t <= 1.0 && f == Along(p1, p2, t)
  {
    if InSpan(p1, p2, f) {
      var t := LineParameter(p1, p2, f);
      SpanGivesUnit(p1, p2, f, t);
    }
    if exists t :: 0.0 <= t <= 1.0 && f == Along(p1, p2, t) {
      var t :| 0.0 <= t <= 1.0 && f == Along(p1, p2, t);
      UnitGivesSpan(p1, p2, t);
    }
  }

  datatype Perp = Perp(foot: Point, thk: real)

  /**
   * perpendicular_point(x1, y1, x2, y2, x3, y3, l): the foot of the perpendicular from p3 on the
   * line p1p2 and the distance `thk` to it. With l = 0 the foot must lie on the segment, with
   * l = 1 it may lie anywhere; any other l returns None.
   */
  function PerpendicularPoint(p1: Point, p2: Point, p3: Point, l: int, root: real -> real): Option<Perp>
  {
    var f := Foot(p1, p2, p3);
    var thk := root(Dist2(p3, f));
    if InSpan(p1, p2, f) && l == 0 then Some(Perp(f, thk))
    else if l == 1 then Some(Perp(f, thk))
    else None
  }

  /**
   * A foot found lies on the line p1p2 with p3 - foot normal to it, at distance thk (under `root`)
   * from p3; a vertical line puts it level with p3. With l = 0 a foot is found exactly when the
   * foot lies on the segment; l = 1 always finds one; any other l never does.
   */
  lemma PerpendicularFacts(p1: Point, p2: Point, p3: Point, l: int, root: real -> real)
    ensures var r := PerpendicularPoint(p1, p2, p3, l, root);
      (r.Some? ==> PointOnLine(p1, p2, r.value.foot) && Orthogonal(p1, p2, p3, r.value.foot)) &&
      (r.Some? ==> r.value.thk == root(Dist2(p3, r.value.foot))) &&
      (r.Some? && p1.x == p2.x ==> r.value.foot == Point(p1.x, p3.y)) &&
      (l == 0 ==> (r.Some? <==> InSpan(p1, p2, Foot(p1, p2, p3)))) &&
      (r.Some? && l != 1 ==> InSpan(p1, p2, r.value.foot)) &&
      (l == 1 ==> r.Some?) &&
      (l != 0 && l != 1 ==> r.None?)
  {
  }

  /** The lines p1p2 and p3p4 are parallel (the determinant `den` of intersect is zero). */
  predicate Parallel(p1: Point, p2: Point, p3: Point, p4: Point)
  {
    (p2.x - p1.x) * (p4.y - p3.y) - (p2.y - p1.y) * (p4.x - p3.x) == 0.0
  }

  lemma IntersectOnBoth(p1: Point, p2: Point, p3: Point, p4: Point, t: real, den: real, detT: real)
    requires den == (p2.x - p1.x) * (p4.y - p3.y) - (p2.y - p1.y) * (p4.x - p3.x)
    requires detT == (p3.x - p1.x) * (p4.y - p3.y) - (p3.y - p1.y) * (p4.x - p3.x)
    requires t * den == detT
    ensures PointOnLine(p1, p2, Point(p1.x + t * (p2.x - p1.x), p1.y + t * (p2.y - p1.y)))
    ensures PointOnLine(p3, p4, Point(p1.x + t * (p2.x - p1.x), p1.y + t * (p2.y - p1.y)))
  {
    var a, b := p2.x - p1.x, p2.y - p1.y;
    var c, e := p4.x - p3.x, p4.y - p3.y;
    var x, y := p1.x + t * a, p1.y + t * b;
    assert b * (x - p1.x) == (y - p1.y) * a;
    assert (y - p3.y) * c == (p1.y - p3.y) * c + t * b * c;
    assert e * (x - p3.x) == (p1.x - p3.x) * e + t * a * e;
    assert t * a * e - t * b * c == t * den;
    assert e * (x - p3.x) == (y - p3.y) * c;
  }

  /**
   * intersect(x1, y1, …, x4, y4): the intersection of the lines p1p2 and p3p4. Parallel lines make
   * the Python division by `den` raise ZeroDivisionError, modelled as None.
   */
  function Intersect(p1: Point, p2: Point, p3: Point, p4: Point): (r: Option<Point>)
    ensures r.None? <==> Parallel(p1, p2, p3, p4)
    ensures r.Some? ==> PointOnLine(p1, p2, r.value) && PointOnLine(p3, p4, r.value)
  {
    var den := (p2.x - p1.x) * (p4.y - p3.y) - (p2.y - p1.y) * (p4.x - p3.x);
    var detT := (p3.x - p1.x) * (p4.y - p3.y) - (p3.y - p1.y) * (p4.x - p3.x);
    if den == 0.0 then None
    else
      var t := detT / den;
      IntersectOnBoth(p1, p2, p3, p4, t, den, detT);
      Some(Point(p1.x + t * (p2.x - p1.x), p1.y + t * (p2.y - p1.y)))
  }

  /** Two lines that are not parallel meet in exactly one point: the one intersect returns. */
  lemma IntersectUnique(p1: Point, p2: Point, p3: Point, p4: Point, q: Point)
    requires !Parallel(p1, p2, p3, p4)
    requires PointOnLine(p1, p2, q) && PointOnLine(p3, p4, q)
    ensures Intersect(p1, p2, p3, p4) == Some(q)
  {
    var r := Intersect(p1, p2, p3, p4).value;
    var a, b := p2.x - p1.x, p2.y - p1.y;
    var c, e := p4.x - p3.x, p4.y - p3.y;
    var u, w := q.x - r.x, q.y - r.y;
    assert b * u == w * a;
    assert e * u == w * c;
    assert w * (a * e - b * c) == e * (w * a) - b * (w * c);
    assert w == 0.0;
    assert u * (a * e - b * c) == a * (e * u) - c * (b * u);
    assert u == 0.0;
  }

  /** On a line through two distinct points, point_on_line holds exactly at p1 + t (p2 - p1). */
  lemma PointOnLineParametric(p1: Point, p2: Point, q: Point)
    requires p1 != p2
    ensures PointOnLine(p1, p2, q) <==> exists t :: q == Along(p1, p2, t)
  {
    if PointOnLine(p1, p2, q) {
      var t := LineParameter(p1, p2, q);
    }
    if exists t :: q == Along(p1, p2, t) {
      var t :| q == Along(p1, p2, t);
      var dx, dy := p2.x - p1.x, p2.y - p1.y;
      assert dy * (t * dx) == (t * dy) * dx;
    }
  }
}
