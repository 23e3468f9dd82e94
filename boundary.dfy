/**
 * The outer outline and the inner cell outlines of a PSC one- or two-cell box section, computed in
 * PSC_1CEL_XY from the dimension lists of the section (backend/midasfn_npg.py:383-475).
 *
 * The right half of each outline is nine vertices; the outer outline and a one-cell inner outline are
 * continued through their mirror image in the section axis x = 0, repeated points are dropped and the
 * ring is closed by repeating its first point. A two-cell section has two inner rings instead: the nine
 * inner vertices, and their mirror image.
 */
module Boundary {
  import opened Common
  import opened Seqs
  import opened UniqueLists

  /**
   * What PSC_1CEL_XY reads for one section: its type, its shape name, the dimension lists
   * vSIZE_PSC_A .. vSIZE_PSC_D (oh, ob, ih, ib, in m) and the top-fibre distance Zt (in mm).
   */
  datatype Section = Section(sectType: string, shape: string,
    oh: seq<real>, ob: seq<real>, ih: seq<real>, ib: seq<real>, zt: real)

  /** `shape[-3:] == 'CEL'`: a shorter name is compared whole, so it never matches. */
  predicate IsCell(shape: string)
  {
    |shape| >= 3 && shape[|shape| - 3..] == "CEL"
  }

  predicate Supported(sec: Section)
  {
    sec.sectType == "PSC" && IsCell(sec.shape)
  }

  predicate OneCell(sec: Section)
  {
    sec.shape == "1CEL"
  }

  /** Every dimension that the vertex formulas index is present (ib[7] only for two cells). */
  predicate Sized(sec: Section)
  {
    |sec.oh| >= 6 && |sec.ob| >= 6 && |sec.ih| >= 10 && |sec.ib| >= (if OneCell(sec) then 7 else 8)
  }

  /** oht: the outer depth at the section axis. */
  function OuterHeight(oh: seq<real>): real
    requires |oh| >= 6
  {
    oh[0] + oh[1] + oh[4]
  }

  /** iht: the inner cell depth plus both slabs. */
  function InnerHeight(ih: seq<real>): real
    requires |ih| >= 10
  {
    ih[0] + ih[1] + ih[4] + ih[6] + ih[9]
  }

  /** y0 of the outer outline, the top of the section axis. */
  function OuterTop(sec: Section): real
    requires Sized(sec)
  {
    var oht, iht := OuterHeight(sec.oh), InnerHeight(sec.ih);
    if oht > iht then sec.zt / 1000.0 - (oht - iht) else sec.zt / 1000.0
  }

  /** The nine outer vertices x0..x8, y0..y8 of the right half (backend/midasfn_npg.py:396-423). */
  function OuterVertices(sec: Section): (v: seq<Point>)
    requires Sized(sec)
    ensures |v| == 9
    ensures v[0].x == 0.0 && v[8].x == 0.0
    ensures v[1].x == v[2].x == sec.ob[0] + sec.ob[3] + sec.ob[5]
    ensures v[1].y == v[0].y + (OuterHeight(sec.oh) - InnerHeight(sec.ih))
    ensures v[8].y == v[7].y
    // the higher of the two top vertices lies on the top fibre Zt (given in mm)
    ensures Max(v[0].y, v[1].y) == sec.zt / 1000.0
    // the soffit lies oht below the outer top vertex
    ensures v[8].y == v[1].y - OuterHeight(sec.oh)
  {
    var oh, ob := sec.oh, sec.ob;
    var y0 := OuterTop(sec);
    var x1 := ob[0] + ob[3] + ob[5];
    var y1 := y0 + (OuterHeight(oh) - InnerHeight(sec.ih));
    var y2 := y1 - oh[0];
    var x3 := x1 - ob[1];
    var y3 := y2 - oh[2];
    var x4 := x3 - Max(0.0, ob[2] - ob[1]);
    var y4 := y2 - oh[3];
    var x5 := x1 - ob[0];
    var y5 := y2 - oh[1];
    var x6 := x5 - ob[3] + ob[4];
    var y6 := y5 - oh[4] + oh[5];
    var x7 := ob[5];
    var y7 := y6 - oh[5];
    [Point(0.0, y0), Point(x1, y1), Point(x1, y2), Point(x3, y3), Point(x4, y4),
     Point(x5, y5), Point(x6, y6), Point(x7, y7), Point(0.0, y7)]
  }

  /** The nine inner vertices ix0..ix8, iy0..iy8 (backend/midasfn_npg.py:428-451). */
  function InnerVertices(sec: Section): (v: seq<Point>)
    requires Sized(sec)
    ensures |v| == 9
    ensures v[0].x == v[8].x == (if OneCell(sec) then 0.0 else sec.ib[7])
    // the top slab is ih[0] thick at the axis, the bottom slab ih[9]
    ensures v[0].y == OuterVertices(sec)[0].y - sec.ih[0]
    ensures v[8].y == OuterVertices(sec)[8].y + sec.ih[9]
    // the lower haunch rises ih[7] above the bottom of the cell
    ensures v[7].y == v[8].y + sec.ih[7] && v[6].y >= v[7].y && v[6].x >= v[7].x
  {
    var ih, ib := sec.ih, sec.ib;
    var y0 := OuterTop(sec) - ih[0];
    var x0 := if OneCell(sec) then 0.0 else ib[7];
    var y1 := y0 - ih[2];
    var x1 := x0 + ib[1];
    var y2 := y1 + Max(0.0, ih[3] - ih[2]);
    var x2 := x1 + Max(0.0, ib[2] - ib[1]);
    var y3 := y0 - ih[1];
    var x3 := ib[0];
    var y4 := y3 - ih[5];
    var x4 := ib[3];
    var y5 := y0 - ih[1] - ih[4];
    var x5 := ib[4];
    var y8 := y5 - ih[6];
    var x8 := x0;
    var y7 := y8 + ih[7];
    var x7 := ib[5];
    var y6 := y8 + Max(ih[7], ih[8]);
    var x6 := Max(ib[5], ib[6]);
    [Point(x0, y0), Point(x1, y1), Point(x2, y2), Point(x3, y3), Point(x4, y4),
     Point(x5, y5), Point(x6, y6), Point(x7, y7), Point(x8, y8)]
  }

  // ---------------------------------------------------------------------------------------------
  // Rings
  // ---------------------------------------------------------------------------------------------

  function Xs(v: seq<Point>): (r: seq<real>)
    ensures |r| == |v| && forall k :: 0 <= k < |v| ==> r[k] == v[k].x
  {
    seq(|v|, k requires 0 <= k < |v| => v[k].x)
  }

  function Ys(v: seq<Point>): (r: seq<real>)
    ensures |r| == |v| && forall k :: 0 <= k < |v| ==> r[k] == v[k].y
  {
    seq(|v|, k requires 0 <= k < |v| => v[k].y)
  }

  function Reversed(s: seq<real>): (r: seq<real>)
    ensures |r| == |s| && forall k :: 0 <= k < |s| ==> r[k] == s[|s| - 1 - k]
  {
    seq(|s|, k requires 0 <= k < |s| => s[|s| - 1 - k])
  }

  function Negated(s: seq<real>): (r: seq<real>)
    ensures |r| == |s| && forall k :: 0 <= k < |s| ==> r[k] == -s[k]
  {
    seq(|s|, k requires 0 <= k < |s| => -s[k])
  }

  /** The x list continued through its mirror image: `x + reversed([-a for a in x])`. */
  function MirrorX(xs: seq<real>): seq<real>
  {
    xs + Reversed(Negated(xs))
  }

  /** The y list continued the same way: `y.extend(reversed(y))`. */
  function MirrorY(ys: seq<real>): seq<real>
  {
    ys + Reversed(ys)
  }

  /** The intended effect of unique_lists on two coordinate lists: the first occurrence of every point, in order. */
  function Dedup(xs: seq<real>, ys: seq<real>): (seq<real>, seq<real>)
    requires |xs| == |ys|
  {
    var f := FirstBy(Zip(xs, ys), Id);
    (Firsts(f), Seconds(f))
  }

  /** The ring the boundary code means to build: deduplicate, then close it by appending its first point. */
  function Ring(xs: seq<real>, ys: seq<real>): (r: (seq<real>, seq<real>))
    requires |xs| == |ys| > 0
    ensures |r.0| == |r.1| >= 2
    ensures r.0[|r.0| - 1] == r.0[0] && r.1[|r.1| - 1] == r.1[0]
  {
    FirstByKeepsEarliest(Zip(xs, ys), Id, 0);
    var d := Dedup(xs, ys);
    (d.0 + [d.0[0]], d.1 + [d.1[0]])
  }

  /**
   * The ring the boundary code builds: unique_lists as written, then `x.append(x[0])` and
   * `y.append(y[0])`, which raise IndexError on an empty list.
   */
  function RingOf(xs: seq<real>, ys: seq<real>): (r: Result<(seq<real>, seq<real>)>)
    ensures |xs| == |ys| && r.Ok? ==>
      |r.value.0| == |r.value.1| >= 2 && r.value.0[|r.value.0| - 1] == r.value.0[0] && r.value.1[|r.value.1| - 1] == r.value.1[0]
  {
    match AsWritten(xs, ys)
    case Err(e) => Err(e)
    case Ok(d) => if |d.0| == 0 || |d.1| == 0 then Err(IndexError) else Ok((d.0 + [d.0[0]], d.1 + [d.1[0]]))
  }

  /** No position is listed twice in `indices_to_remove`; a point met three times breaks this (TripleRemovals). */
  predicate OnceEach(xs: seq<real>, ys: seq<real>)
    requires |xs| == |ys|
  {
    Distinct(Removals(Zip(xs, ys), |xs|))
  }

  /** Where no index is listed twice, the ring built as written is the intended ring. */
  lemma RingOfAgrees(xs: seq<real>, ys: seq<real>)
    requires |xs| == |ys| > 0 && OnceEach(xs, ys)
    ensures RingOf(xs, ys) == Ok(Ring(xs, ys))
  {
    AsWrittenAgrees(xs, ys);
    CorrectedIsFirstOccurrences(xs, ys);
    FirstByKeepsEarliest(Zip(xs, ys), Id, 0);
  }

  /** A point met three times makes the ring's unique_lists call raise IndexError. */
  lemma RingOfTriple()
    ensures RingOf([0.0, 0.0, 0.0], [0.0, 0.0, 0.0]) == Err(IndexError)
  {
    AsWrittenFailsOnTriple();
  }

  /** The lists that PSC_1CEL_XY leaves behind for one section. */
  datatype Outline = Outline(
    external: seq<Point>,                   // the nine outer vertices
    internal: seq<Point>,                   // the nine inner vertices
    x: seq<real>, y: seq<real>,             // the closed outer ring
    ix: seq<real>, iy: seq<real>,           // the closed inner ring (the first cell of two)
    second: Option<(seq<real>, seq<real>)>) // ix_1, iy_1: the closed second cell of a two-cell section

  /** The lists whose rings the section's outer outline is built from: the half outline and its mirror image. */
  function OuterLists(sec: Section): (seq<real>, seq<real>)
    requires Sized(sec)
  {
    var ext := OuterVertices(sec);
    (MirrorX(Xs(ext)), MirrorY(Ys(ext)))
  }

  /** The lists of the (first) inner ring: mirrored for one cell, the nine vertices alone for two. */
  function InnerLists(sec: Section): (seq<real>, seq<real>)
    requires Sized(sec)
  {
    var inn := InnerVertices(sec);
    if OneCell(sec) then (MirrorX(Xs(inn)), MirrorY(Ys(inn))) else (Xs(inn), Ys(inn))
  }

  /** The lists of the second cell of a two-cell section: the mirror image of the inner vertices. */
  function SecondLists(sec: Section): (seq<real>, seq<real>)
    requires Sized(sec)
  {
    var inn := InnerVertices(sec);
    (Reversed(Negated(Xs(inn))), Reversed(Ys(inn)))
  }

  /** No unique_lists call of the section lists an index twice. */
  predicate OnceEachRing(sec: Section)
    requires Sized(sec)
  {
    OnceEach(OuterLists(sec).0, OuterLists(sec).1) && OnceEach(InnerLists(sec).0, InnerLists(sec).1) &&
    (OneCell(sec) || OnceEach(SecondLists(sec).0, SecondLists(sec).1))
  }

  /** What the boundary stage computes, or the error it raises, with the rings closed in the code's order. */
  function OutlineOf(sec: Section): Result<Outline>
  {
    if !Supported(sec) then Err(UnsupportedShape)
    else if !Sized(sec) then Err(IndexError)
    else
      var ext, inn := OuterVertices(sec), InnerVertices(sec);
      match RingOf(OuterLists(sec).0, OuterLists(sec).1)
      case Err(e) => Err(e)
      case Ok(outer) =>
        if OneCell(sec) then
          match RingOf(InnerLists(sec).0, InnerLists(sec).1)
          case Err(e) => Err(e)
          case Ok(inner) => Ok(Outline(ext, inn, outer.0, outer.1, inner.0, inner.1, None))
        else
          match RingOf(SecondLists(sec).0, SecondLists(sec).1)
          case Err(e) => Err(e)
          case Ok(cell2) =>
            match RingOf(InnerLists(sec).0, InnerLists(sec).1)
            case Err(e) => Err(e)
            case Ok(inner) => Ok(Outline(ext, inn, outer.0, outer.1, inner.0, inner.1, Some(cell2)))
  }

  /** `unique_lists(x, y); x.append(x[0]); y.append(y[0])` */
  method CloseRing(xs: seq<real>, ys: seq<real>) returns (r: Result<(seq<real>, seq<real>)>)
    ensures r == RingOf(xs, ys)
  {
    var d := UniqueLists.UniqueListsAsWritten(xs, ys);
    if d.Err? {
      return Err(d.error);
    }
    var x, y := d.value.0, d.value.1;
    if |x| == 0 || |y| == 0 {
      return Err(IndexError);
    }
    x := x + [x[0]];
    y := y + [y[0]];
    return Ok((x, y));
  }

  /** The boundary part of PSC_1CEL_XY, list operation by list operation. */
  method BuildOutline(sec: Section) returns (r: Result<Outline>)
    ensures r == OutlineOf(sec)
  {
    if !Supported(sec) {
      return Err(UnsupportedShape);
    }
    if !Sized(sec) {
      return Err(IndexError);
    }
    var external := OuterVertices(sec);
    var x, y := Xs(external), Ys(external);
    var x_1 := Reversed(Negated(x));
    x := x + x_1;
    y := y + Reversed(y);
    var internal := InnerVertices(sec);
    var ix, iy := Xs(internal), Ys(internal);
    var ix_1 := Reversed(Negated(ix));
    var outer := CloseRing(x, y);
    if outer.Err? {
      return Err(outer.error);
    }
    var second: Option<(seq<real>, seq<real>)> := None;
    if OneCell(sec) {
      ix := ix + ix_1;
      iy := iy + Reversed(iy);
    } else {
      var iy_1 := Reversed(iy);
      var cell2 := CloseRing(ix_1, iy_1);
      if cell2.Err? {
        return Err(cell2.error);
      }
      second := Some(cell2.value);
    }
    var inner := CloseRing(ix, iy);
    if inner.Err? {
      return Err(inner.error);
    }
    return Ok(Outline(external, internal, outer.value.0, outer.value.1, inner.value.0, inner.value.1, second));
  }

  // ---------------------------------------------------------------------------------------------
  // What the rings look like
  // ---------------------------------------------------------------------------------------------

  /** (px, py) is one of the points (xs[k], ys[k]). */
  predicate HasPoint(xs: seq<real>, ys: seq<real>, px: real, py: real)
  {
    exists k :: 0 <= k < |xs| && k < |ys| && xs[k] == px && ys[k] == py
  }

  /** The points of a ring are exactly the points of the lists it was built from. */
  lemma RingPoints(xs: seq<real>, ys: seq<real>, px: real, py: real)
    requires |xs| == |ys| > 0
    ensures HasPoint(Ring(xs, ys).0, Ring(xs, ys).1, px, py) <==> HasPoint(xs, ys, px, py)
  {
    var s := Zip(xs, ys);
    var f := FirstBy(s, Id);
    var r := Ring(xs, ys);
    UnzipZip(xs, ys);
    FirstBySeen(s, Id, (px, py));
    SeenId(s, (px, py));
    SeenId(f, (px, py));
    FirstByKeepsEarliest(s, Id, 0);
    assert r.0 == Firsts(f) + [Firsts(f)[0]] && r.1 == Seconds(f) + [Seconds(f)[0]];
    if HasPoint(r.0, r.1, px, py) {
      var k :| 0 <= k < |r.0| && k < |r.1| && r.0[k] == px && r.1[k] == py;
      var k' := if k < |f| then k else 0;
      assert f[k'] == (px, py);
      var i :| 0 <= i < |s| && s[i] == (px, py);
      assert xs[i] == px && ys[i] == py;
    }
    if HasPoint(xs, ys, px, py) {
      var k :| 0 <= k < |xs| && k < |ys| && xs[k] == px && ys[k] == py;
      assert s[k] == (px, py);
      var m :| 0 <= m < |f| && f[m] == (px, py);
      assert r.0[m] == px && r.1[m] == py;
    }
  }

  /** Apart from the closing point, no point of a ring occurs twice. */
  lemma RingDistinct(xs: seq<real>, ys: seq<real>)
    requires |xs| == |ys| > 0
    ensures var r := Ring(xs, ys);
      forall i, j :: 0 <= i < j < |r.0| - 1 ==> (r.0[i], r.1[i]) != (r.0[j], r.1[j])
  {
    var s := Zip(xs, ys);
    var key: Pair -> Pair := Id;
    var f := FirstBy(s, key);
    FirstByDistinct(s, key);
    var r := Ring(xs, ys);
    assert f == FirstBy(s, Id);
    assert |r.0| == |f| + 1;
    forall i, j | 0 <= i < j < |f| ensures (r.0[i], r.1[i]) != (r.0[j], r.1[j]) {
      assert key(f[i]) != key(f[j]);
      assert r.0[i] == Firsts(f)[i] && r.1[i] == Seconds(f)[i];
      assert r.0[j] == Firsts(f)[j] && r.1[j] == Seconds(f)[j];
    }
  }

  /** The mirror image of a point of a mirrored ring is a point of the ring too. */
  lemma MirrorPoint(xs: seq<real>, ys: seq<real>, px: real, py: real)
    requires |xs| == |ys| > 0
    requires HasPoint(Ring(MirrorX(xs), MirrorY(ys)).0, Ring(MirrorX(xs), MirrorY(ys)).1, px, py)
    ensures HasPoint(Ring(MirrorX(xs), MirrorY(ys)).0, Ring(MirrorX(xs), MirrorY(ys)).1, -px, py)
  {
    RingPoints(MirrorX(xs), MirrorY(ys), px, py);
    MirrorHas(xs, ys, px, py);
    RingPoints(MirrorX(xs), MirrorY(ys), -px, py);
  }

  /** The lists continued through their mirror image hold the mirror image of each of their points. */
  lemma MirrorHas(xs: seq<real>, ys: seq<real>, px: real, py: real)
    requires |xs| == |ys|
    requires HasPoint(MirrorX(xs), MirrorY(ys), px, py)
    ensures HasPoint(MirrorX(xs), MirrorY(ys), -px, py)
  {
    var mx, my := MirrorX(xs), MirrorY(ys);
    var i :| 0 <= i < |mx| && i < |my| && mx[i] == px && my[i] == py;
    var n := |xs|;
    var j := 2 * n - 1 - i;
    var rx, ry := Reversed(Negated(xs)), Reversed(ys);
    if i < n {
      assert mx[i] == xs[i] && my[i] == ys[i];
      assert rx[j - n] == -xs[i] && ry[j - n] == ys[i];
      assert mx[j] == rx[j - n] && my[j] == ry[j - n];
    } else {
      assert mx[i] == rx[i - n] && my[i] == ry[i - n];
      assert rx[i - n] == -xs[j] && ry[i - n] == ys[j];
      assert mx[j] == xs[j] && my[j] == ys[j];
    }
    assert mx[j] == -px && my[j] == py;
  }

  /** A ring built from a half outline and its mirror image is symmetric about the axis x = 0. */
  lemma MirroredRingSymmetric(xs: seq<real>, ys: seq<real>)
    requires |xs| == |ys| > 0
    ensures var r := Ring(MirrorX(xs), MirrorY(ys));
      forall k :: 0 <= k < |r.0| ==> HasPoint(r.0, r.1, -r.0[k], r.1[k])
  {
    var r := Ring(MirrorX(xs), MirrorY(ys));
    forall k | 0 <= k < |r.0| ensures HasPoint(r.0, r.1, -r.0[k], r.1[k]) {
      assert HasPoint(r.0, r.1, r.0[k], r.1[k]);
      MirrorPoint(xs, ys, r.0[k], r.1[k]);
    }
  }

  /** The two cells of a two-cell section are mirror images of each other. */
  lemma SecondCellMirrors(xs: seq<real>, ys: seq<real>, px: real, py: real)
    requires |xs| == |ys| > 0
    ensures var r1, r2 := Ring(xs, ys), Ring(Reversed(Negated(xs)), Reversed(ys));
      HasPoint(r2.0, r2.1, px, py) <==> HasPoint(r1.0, r1.1, -px, py)
  {
    RingPoints(xs, ys, -px, py);
    RingPoints(Reversed(Negated(xs)), Reversed(ys), px, py);
    ReversedHas(xs, ys, px, py);
  }

  /** The negated, reversed lists hold exactly the mirror images of the points of the lists. */
  lemma ReversedHas(xs: seq<real>, ys: seq<real>, px: real, py: real)
    requires |xs| == |ys|
    ensures HasPoint(Reversed(Negated(xs)), Reversed(ys), px, py) <==> HasPoint(xs, ys, -px, py)
  {
    var x2, y2 := Reversed(Negated(xs)), Reversed(ys);
    var n := |xs|;
    if HasPoint(x2, y2, px, py) {
      var k :| 0 <= k < |x2| && k < |y2| && x2[k] == px && y2[k] == py;
      assert xs[n - 1 - k] == -px && ys[n - 1 - k] == py;
    }
    if HasPoint(xs, ys, -px, py) {
      var m :| 0 <= m < |xs| && m < |ys| && xs[m] == -px && ys[m] == py;
      assert x2[n - 1 - m] == px && y2[n - 1 - m] == py;
    }
  }

  /**
   * A half outline that starts and ends on the axis gives a closed ring of at most 2n - 1 entries:
   * the axis points are met twice, and the second meeting is dropped.
   */
  lemma AxisPointsMerge(xs: seq<real>, ys: seq<real>)
    requires |xs| == |ys| >= 2
    requires xs[0] == 0.0 && xs[|xs| - 1] == 0.0
    ensures |Ring(MirrorX(xs), MirrorY(ys)).0| <= 2 * |xs| - 1
  {
    var n := |xs|;
    var s := Zip(MirrorX(xs), MirrorY(ys));
    var key: Pair -> Pair := Id;
    assert s[n] == s[n - 1] && s[2 * n - 1] == s[0];
    assert key(s[..n][n - 1]) == key(s[n]);
    assert key(s[..2 * n - 1][0]) == key(s[2 * n - 1]);
    FirstByLengthTwo(s, key, n, 2 * n - 1);
  }

  /**
   * A closed ring of at most 17 entries, symmetric about the axis x = 0, in which only the closing
   * entry repeats: at most 16 distinct points.
   */
  predicate SymmetricRing(x: seq<real>, y: seq<real>)
  {
    |x| == |y| && 2 <= |x| <= 17 && x[|x| - 1] == x[0] && y[|y| - 1] == y[0] &&
    (forall k :: 0 <= k < |x| ==> HasPoint(x, y, -x[k], y[k])) &&
    (forall i, j :: 0 <= i < j < |x| - 1 ==> (x[i], y[i]) != (x[j], y[j]))
  }

  /** A ring through nine vertices and their mirror images, starting and ending on the axis, is a symmetric ring. */
  lemma MirroredRing(xs: seq<real>, ys: seq<real>)
    requires |xs| == |ys| == 9 && xs[0] == 0.0 && xs[8] == 0.0
    ensures var r := Ring(MirrorX(xs), MirrorY(ys)); SymmetricRing(r.0, r.1)
  {
    AxisPointsMerge(xs, ys);
    MirroredRingSymmetric(xs, ys);
    RingDistinct(MirrorX(xs), MirrorY(ys));
  }

  /**
   * The boundary stage succeeds for a supported section with every dimension present, unless
   * unique_lists lists an index twice; its rings are then the intended ones.
   */
  lemma OutlineRings(sec: Section)
    requires Supported(sec) && Sized(sec) && OnceEachRing(sec)
    ensures OutlineOf(sec).Ok?
    ensures var o := OutlineOf(sec).value;
      o.external == OuterVertices(sec) && o.internal == InnerVertices(sec) &&
      (o.x, o.y) == Ring(OuterLists(sec).0, OuterLists(sec).1) &&
      (o.ix, o.iy) == Ring(InnerLists(sec).0, InnerLists(sec).1) &&
      (OneCell(sec) <==> o.second.None?) &&
      (o.second.Some? ==> o.second.value == Ring(SecondLists(sec).0, SecondLists(sec).1))
  {
    RingOfAgrees(OuterLists(sec).0, OuterLists(sec).1);
    RingOfAgrees(InnerLists(sec).0, InnerLists(sec).1);
    if !OneCell(sec) {
      RingOfAgrees(SecondLists(sec).0, SecondLists(sec).1);
    }
  }

  /** Whenever the boundary stage succeeds, its rings are what unique_lists as written and the closing give. */
  lemma OuterOf(sec: Section)
    requires OutlineOf(sec).Ok?
    ensures Supported(sec) && Sized(sec)
    ensures var o := OutlineOf(sec).value;
      RingOf(OuterLists(sec).0, OuterLists(sec).1) == Ok((o.x, o.y)) &&
      RingOf(InnerLists(sec).0, InnerLists(sec).1) == Ok((o.ix, o.iy)) &&
      (OneCell(sec) ==> o.second.None?) &&
      (!OneCell(sec) ==> o.second.Some? && RingOf(SecondLists(sec).0, SecondLists(sec).1) == Ok(o.second.value))
  {
  }

  /**
   * Unless unique_lists lists an index twice, the outer ring is closed, symmetric about the axis, at
   * most 17 entries long, and no entry but the closing one repeats.
   */
  lemma OuterRing(sec: Section)
    requires Supported(sec) && Sized(sec) && OnceEachRing(sec)
    ensures OutlineOf(sec).Ok? && SymmetricRing(OutlineOf(sec).value.x, OutlineOf(sec).value.y)
  {
    OutlineRings(sec);
    var ext := OuterVertices(sec);
    MirroredRing(Xs(ext), Ys(ext));
  }

  /** Unless unique_lists lists an index twice, a one-cell inner ring is a symmetric ring too, and there is no second cell. */
  lemma OneCellInnerRing(sec: Section)
    requires Supported(sec) && Sized(sec) && OneCell(sec) && OnceEachRing(sec)
    ensures OutlineOf(sec).Ok? && OutlineOf(sec).value.second.None?
    ensures SymmetricRing(OutlineOf(sec).value.ix, OutlineOf(sec).value.iy)
  {
    OutlineRings(sec);
    var inn := InnerVertices(sec);
    MirroredRing(Xs(inn), Ys(inn));
  }

  /**
   * Unless unique_lists lists an index twice, a two-cell section has a second cell ring holding exactly
   * the mirror images of the first cell's points, and both cell rings have at most ten entries.
   */
  lemma TwoCellRings(sec: Section, px: real, py: real)
    requires Supported(sec) && Sized(sec) && !OneCell(sec) && OnceEachRing(sec)
    ensures OutlineOf(sec).Ok?
    ensures var o := OutlineOf(sec).value;
      o.second.Some? && |o.ix| <= 10 && |o.second.value.0| <= 10 &&
      (HasPoint(o.second.value.0, o.second.value.1, px, py) <==> HasPoint(o.ix, o.iy, -px, py))
  {
    OutlineRings(sec);
    var inn := InnerVertices(sec);
    SecondCellMirrors(Xs(inn), Ys(inn), px, py);
    FirstByLength(Zip(Xs(inn), Ys(inn)), Id);
    FirstByLength(Zip(Reversed(Negated(Xs(inn))), Reversed(Ys(inn))), Id);
  }
}
