/**
 * ortho_line_plot (backend/midasfn_npg.py:520-540): from every vertex of curve 2 drop a perpendicular
 * on every edge of curve 1 and keep the ones whose foot lies on the edge and whose length is a
 * plausible wall thickness. These "thickness lines" are the raw material of the centreline.
 */
module OrthoLines {
  import opened Common
  import opened Geometry

  /** The tuple (x3, y3, x_perp, y_perp, thk) appended to `lines`: vertex, foot and length. */
  datatype Ortho = Ortho(x1: real, y1: real, x2: real, y2: real, thk: real)

  /** The number of edges `range(len(li1) - 1)` visits. */
  function EdgeCount(xs: seq<real>): nat
  {
    if |xs| == 0 then 0 else |xs| - 1
  }

  /** The acceptance test for a foot found from vertex p3: thickness within [0.0001, d], and the h / v filters. */
  predicate Keeps(p3: Point, pp: Perp, d: real, h: int, v: int)
  {
    pp.thk <= d && pp.thk >= 0.0001 &&
    (if h == 0 && v == 0 then p3.y != pp.foot.y && p3.x != pp.foot.x
     else if h == 0 then p3.y != pp.foot.y
     else if v == 0 then p3.x != pp.foot.x
     else true)
  }

  /** The perpendicular from vertex k of curve 2 onto edge i of curve 1 (l = 0: the foot must lie on the edge). */
  function Hit(li1: seq<real>, li2: seq<real>, li3: seq<real>, li4: seq<real>, k: nat, i: nat,
               root: real -> real): Option<Perp>
    requires |li1| == |li2| && |li3| == |li4| && k < |li3| && i + 1 < |li1|
  {
    PerpendicularPoint(Point(li1[i], li2[i]), Point(li1[i + 1], li2[i + 1]), Point(li3[k], li4[k]), 0, root)
  }

  /** Vertex k against edge i yields the line o. */
  predicate Candidate(li1: seq<real>, li2: seq<real>, li3: seq<real>, li4: seq<real>, k: int, i: int,
                      d: real, h: int, v: int, root: real -> real, o: Ortho)
    requires |li1| == |li2| && |li3| == |li4|
  {
    0 <= k < |li3| && 0 <= i && i + 1 < |li1| &&
    var p3 := Point(li3[k], li4[k]);
    var hit := Hit(li1, li2, li3, li4, k, i, root);
    hit.Some? && Keeps(p3, hit.value, d, h, v) &&
    o == Ortho(p3.x, p3.y, hit.value.foot.x, hit.value.foot.y, hit.value.thk)
  }

  /** The lines vertex k contributes against edges 0 .. n-1, in order. */
  function EdgeHits(li1: seq<real>, li2: seq<real>, li3: seq<real>, li4: seq<real>, k: nat, n: nat,
                    d: real, h: int, v: int, root: real -> real): seq<Ortho>
    requires |li1| == |li2| && |li3| == |li4| && k < |li3| && n <= EdgeCount(li1)
    decreases n
  {
    if n == 0 then []
    else
      var p3 := Point(li3[k], li4[k]);
      var hit := Hit(li1, li2, li3, li4, k, n - 1, root);
      EdgeHits(li1, li2, li3, li4, k, n - 1, d, h, v, root) +
      (if hit.Some? && Keeps(p3, hit.value, d, h, v)
       then [Ortho(p3.x, p3.y, hit.value.foot.x, hit.value.foot.y, hit.value.thk)] else [])
  }

  /** The lines vertices 0 .. m-1 contribute, vertex by vertex. */
  function OrthoSegments(li1: seq<real>, li2: seq<real>, li3: seq<real>, li4: seq<real>, m: nat,
                         d: real, h: int, v: int, root: real -> real): seq<Ortho>
    requires |li1| == |li2| && |li3| == |li4| && m <= |li3|
    decreases m
  {
    if m == 0 then []
    else
      OrthoSegments(li1, li2, li3, li4, m - 1, d, h, v, root) +
      EdgeHits(li1, li2, li3, li4, m - 1, EdgeCount(li1), d, h, v, root)
  }

  /** ortho_line_plot: the nested loops append to `lines` in place; the new list is returned. */
  method OrthoLinePlot(li1: seq<real>, li2: seq<real>, li3: seq<real>, li4: seq<real>, lines: seq<Ortho>,
                       d: real, h: int, v: int, root: real -> real) returns (out: seq<Ortho>)
    requires |li1| == |li2| && |li3| == |li4|
    ensures out == lines + OrthoSegments(li1, li2, li3, li4, |li3|, d, h, v, root)
  {
    out := lines;
    for k := 0 to |li3|
      invariant out == lines + OrthoSegments(li1, li2, li3, li4, k, d, h, v, root)
    {
      out := EdgeLoop(li1, li2, li3, li4, k, out, d, h, v, root);
    }
  }

  /** The inner loop of ortho_line_plot: vertex k of curve 2 against every edge of curve 1. */
  method EdgeLoop(li1: seq<real>, li2: seq<real>, li3: seq<real>, li4: seq<real>, k: nat, lines: seq<Ortho>,
                  d: real, h: int, v: int, root: real -> real) returns (out: seq<Ortho>)
    requires |li1| == |li2| && |li3| == |li4| && k < |li3|
    ensures out == lines + EdgeHits(li1, li2, li3, li4, k, EdgeCount(li1), d, h, v, root)
  {
    out := lines;
    var x3, y3 := li3[k], li4[k];
    for i := 0 to EdgeCount(li1)
      invariant out == lines + EdgeHits(li1, li2, li3, li4, k, i, d, h, v, root)
    {
      var x1, y1 := li1[i], li2[i];
      var x2, y2 := li1[i + 1], li2[i + 1];
      var lin := PerpendicularPoint(Point(x1, y1), Point(x2, y2), Point(x3, y3), 0, root);
      if lin.Some? {
        var f, thk := lin.value.foot, lin.value.thk;
        if thk <= d && thk >= 0.0001 {
          if h == 0 && v == 0 {
            if y3 != f.y && x3 != f.x {
              out := out + [Ortho(x3, y3, f.x, f.y, thk)];
            }
          } else if h == 0 {
            if y3 != f.y {
              out := out + [Ortho(x3, y3, f.x, f.y, thk)];
            }
          } else if v == 0 {
            if x3 != f.x {
              out := out + [Ortho(x3, y3, f.x, f.y, thk)];
            }
          } else {
            out := out + [Ortho(x3, y3, f.x, f.y, thk)];
          }
        }
      }
    }
  }

  lemma {:induction false} EdgeHitsIff(li1: seq<real>, li2: seq<real>, li3: seq<real>, li4: seq<real>, k: nat, n: nat,
                                      d: real, h: int, v: int, root: real -> real, o: Ortho)
    requires |li1| == |li2| && |li3| == |li4| && k < |li3| && n <= EdgeCount(li1)
    ensures o in EdgeHits(li1, li2, li3, li4, k, n, d, h, v, root) <==>
      exists i :: 0 <= i < n && Candidate(li1, li2, li3, li4, k, i, d, h, v, root, o)
    decreases n
  {
    if n > 0 {
      EdgeHitsIff(li1, li2, li3, li4, k, n - 1, d, h, v, root, o);
      if Candidate(li1, li2, li3, li4, k, n - 1, d, h, v, root, o) {
        assert o in EdgeHits(li1, li2, li3, li4, k, n, d, h, v, root);
      }
    }
  }

  /** The rows concatenated in order. */
  function Flatten<T>(rows: seq<seq<T>>): seq<T>
    decreases |rows|
  {
    if |rows| == 0 then [] else Flatten(rows[..|rows| - 1]) + rows[|rows| - 1]
  }

  lemma {:induction false} FlattenMember<T>(rows: seq<seq<T>>, o: T)
    ensures o in Flatten(rows) <==> exists k :: 0 <= k < |rows| && o in rows[k]
    decreases |rows|
  {
    if |rows| > 0 {
      var init := rows[..|rows| - 1];
      FlattenMember(init, o);
      if exists k :: 0 <= k < |rows| && o in rows[k] {
        var k :| 0 <= k < |rows| && o in rows[k];
        if k < |rows| - 1 {
          assert init[k] == rows[k];
        }
      }
      if o in Flatten(init) {
        var k :| 0 <= k < |init| && o in init[k];
        assert rows[k] == init[k];
      }
    }
  }

  /** The lines of vertices 0 .. m-1, one row per vertex. */
  function VertexRows(li1: seq<real>, li2: seq<real>, li3: seq<real>, li4: seq<real>, m: nat,
                      d: real, h: int, v: int, root: real -> real): (r: seq<seq<Ortho>>)
    requires |li1| == |li2| && |li3| == |li4| && m <= |li3|
    ensures |r| == m && forall k :: 0 <= k < m ==> r[k] == EdgeHits(li1, li2, li3, li4, k, EdgeCount(li1), d, h, v, root)
  {
    seq(m, k requires 0 <= k < m => EdgeHits(li1, li2, li3, li4, k, EdgeCount(li1), d, h, v, root))
  }

  /** The lines appended are the vertices' rows, one after the other. */
  lemma {:induction false} OrthoSegmentsRows(li1: seq<real>, li2: seq<real>, li3: seq<real>, li4: seq<real>, m: nat,
                                            d: real, h: int, v: int, root: real -> real)
    requires |li1| == |li2| && |li3| == |li4| && m <= |li3|
    ensures OrthoSegments(li1, li2, li3, li4, m, d, h, v, root) == Flatten(VertexRows(li1, li2, li3, li4, m, d, h, v, root))
    decreases m
  {
    if m > 0 {
      OrthoSegmentsRows(li1, li2, li3, li4, m - 1, d, h, v, root);
      var r := VertexRows(li1, li2, li3, li4, m, d, h, v, root);
      assert r[..m - 1] == VertexRows(li1, li2, li3, li4, m - 1, d, h, v, root);
    }
  }

  /** A line is appended exactly when some vertex and some edge produce it. */
  lemma OrthoSegmentsIff(li1: seq<real>, li2: seq<real>, li3: seq<real>, li4: seq<real>, m: nat,
                         d: real, h: int, v: int, root: real -> real, o: Ortho)
    requires |li1| == |li2| && |li3| == |li4| && m <= |li3|
    ensures o in OrthoSegments(li1, li2, li3, li4, m, d, h, v, root) <==>
      exists k, i :: 0 <= k < m && Candidate(li1, li2, li3, li4, k, i, d, h, v, root, o)
  {
    var n := EdgeCount(li1);
    var rows := VertexRows(li1, li2, li3, li4, m, d, h, v, root);
    OrthoSegmentsRows(li1, li2, li3, li4, m, d, h, v, root);
    FlattenMember(rows, o);
    if o in OrthoSegments(li1, li2, li3, li4, m, d, h, v, root) {
      var k :| 0 <= k < m && o in rows[k];
      EdgeHitsIff(li1, li2, li3, li4, k, n, d, h, v, root, o);
      var i :| 0 <= i < n && Candidate(li1, li2, li3, li4, k, i, d, h, v, root, o);
      assert 0 <= k < m && Candidate(li1, li2, li3, li4, k, i, d, h, v, root, o);
    }
    if exists k, i :: 0 <= k < m && Candidate(li1, li2, li3, li4, k, i, d, h, v, root, o) {
      var k, i :| 0 <= k < m && Candidate(li1, li2, li3, li4, k, i, d, h, v, root, o);
      EdgeHitsIff(li1, li2, li3, li4, k, n, d, h, v, root, o);
      assert 0 <= i < n;
      assert o in rows[k];
    }
  }

  /** The foot f of the perpendicular from p3 lies on edge i of curve 1 and p3 - f is normal to it. */
  predicate FootOnEdge(li1: seq<real>, li2: seq<real>, i: int, p3: Point, f: Point)
    requires |li1| == |li2|
  {
    0 <= i && i + 1 < |li1| &&
    var p1, p2 := Point(li1[i], li2[i]), Point(li1[i + 1], li2[i + 1]);
    PointOnLine(p1, p2, f) && Orthogonal(p1, p2, p3, f) && InSpan(p1, p2, f)
  }

  /**
   * Every appended line starts at a vertex of curve 2, ends at the foot of its perpendicular on an
   * edge of curve 1, is as long as the foot is far (thk under `root`), has 0.0001 <= thk <= d, and
   * obeys the filters (h = 0: not horizontal; v = 0: not vertical).
   */
  lemma OrthoSegmentFacts(li1: seq<real>, li2: seq<real>, li3: seq<real>, li4: seq<real>,
                          d: real, h: int, v: int, root: real -> real, o: Ortho)
    requires |li1| == |li2| && |li3| == |li4|
    requires o in OrthoSegments(li1, li2, li3, li4, |li3|, d, h, v, root)
    ensures exists k :: 0 <= k < |li3| && o.x1 == li3[k] && o.y1 == li4[k]
    ensures exists i :: FootOnEdge(li1, li2, i, Point(o.x1, o.y1), Point(o.x2, o.y2))
    ensures o.thk == root(Dist2(Point(o.x1, o.y1), Point(o.x2, o.y2)))
    ensures 0.0001 <= o.thk <= d
    ensures h == 0 ==> o.y1 != o.y2
    ensures v == 0 ==> o.x1 != o.x2
  {
    OrthoSegmentsIff(li1, li2, li3, li4, |li3|, d, h, v, root, o);
    var k, i :| 0 <= k < |li3| && Candidate(li1, li2, li3, li4, k, i, d, h, v, root, o);
    assert FootOnEdge(li1, li2, i, Point(o.x1, o.y1), Point(o.x2, o.y2));
  }
}
