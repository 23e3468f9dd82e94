/**
 * The element lists of each member (backend/midasfn_npg.py:782-832) and their conversion to
 * per-member coordinate arrays in plotsegment (backend/midasfn_npg.py:839-910).
 *
 * A renumbered member {1: p1, ..., n: pn} gives n - 1 elements; element i holds the x pair and the
 * y pair (next point first) and the mean of the two thicknesses. For the middle web the code appends
 * the y pair twice and no x pair; plotsegment then places the middle web at x = 0 and reads the
 * second entry of each y pair.
 */
module Segments {
  import opened Common
  import opened Dicts

  /** `segment[member]`: the lists 'Xm', 'Ym' and 'thk'. */
  datatype Segment = Segment(xm: seq<(real, real)>, ym: seq<(real, real)>, thk: seq<real>)

  /** `array_1[member]`: the member's X and Y coordinates and thicknesses. */
  datatype Coords = Coords(xs: seq<real>, ys: seq<real>, thks: seq<real>)

  /** The number of elements between n points. */
  function Elements(n: nat): nat
  {
    if n == 0 then 0 else n - 1
  }

  function Mean(a: real, b: real): real
  {
    (a + b) / 2.0
  }

  // ---------------------------------------------------------------------------------------------
  // The element lists, as reference definitions
  // ---------------------------------------------------------------------------------------------

  /** The y pairs of the elements between consecutive points of s, next point first. */
  function YPairs(s: seq<Rec>): seq<(real, real)>
  {
    var n := Elements(|s|);
    seq(n, i requires 0 <= i < n => (s[i + 1].ym, s[i].ym))
  }

  /** The thickness of each element, the mean of its two ends. */
  function Thks(s: seq<Rec>): seq<real>
  {
    var n := Elements(|s|);
    seq(n, i requires 0 <= i < n => Mean(s[i].thk, s[i + 1].thk))
  }

  /** The elements of a flange or outer web whose points, in key order, are s. */
  function SegmentOf(s: seq<Rec>): Segment
  {
    var n := Elements(|s|);
    Segment(seq(n, i requires 0 <= i < n => (s[i + 1].xm, s[i].xm)), YPairs(s), Thks(s))
  }

  /** `i // 2`. */
  function Half(i: nat): (r: nat)
    ensures 2 * r <= i <= 2 * r + 1
  {
    i / 2
  }

  /** Every entry of p, twice. */
  function Doubled<T>(p: seq<T>): (r: seq<T>)
    ensures |r| == 2 * |p|
  {
    seq(2 * |p|, i requires 0 <= i < 2 * |p| => p[Half(i)])
  }

  /** The middle web's elements as the code builds them: each y pair twice, no x pairs. */
  function MidSegmentOf(s: seq<Rec>): Segment
  {
    Segment([], Doubled(YPairs(s)), Thks(s))
  }

  /** A renumbered member read through its keys 1 .. n gives its values in order. */
  lemma GetNumbered(d: Dict<Rec>, k: int)
    requires IsDense(d) && 1 <= k <= |d|
    ensures Get(d, k as real) == Some(d[k - 1].1)
  {
    DenseOfValues(d);
    GetDense(Values(d), k);
  }

  /** The loop `for i in range(1, len(member))` that appends one element per pair of keys i, i + 1. */
  method MemberSegments(d: Dict<Rec>) returns (seg: Segment)
    requires IsDense(d)
    ensures seg == SegmentOf(Values(d))
  {
    ghost var target := SegmentOf(Values(d));
    var xm, ym, thk := [], [], [];
    for i := 1 to if |d| == 0 then 1 else |d|
      invariant xm == target.xm[..i - 1] && ym == target.ym[..i - 1] && thk == target.thk[..i - 1]
    {
      GetNumbered(d, i);
      GetNumbered(d, i + 1);
      var current := Get(d, i as real).value;
      var next1 := Get(d, (i + 1) as real).value;
      assert target.xm[..i] == target.xm[..i - 1] + [(next1.xm, current.xm)];
      assert target.ym[..i] == target.ym[..i - 1] + [(next1.ym, current.ym)];
      assert target.thk[..i] == target.thk[..i - 1] + [Mean(current.thk, next1.thk)];
      xm := xm + [(next1.xm, current.xm)];
      ym := ym + [(next1.ym, current.ym)];
      thk := thk + [Mean(current.thk, next1.thk)];
    }
    assert target.xm[..Elements(|d|)] == target.xm;
    assert target.ym[..Elements(|d|)] == target.ym;
    assert target.thk[..Elements(|d|)] == target.thk;
    seg := Segment(xm, ym, thk);
  }

  /** The same loop for the middle web, which appends the y pair twice and never an x pair. */
  method MidSegments(d: Dict<Rec>) returns (seg: Segment)
    requires IsDense(d)
    ensures seg == MidSegmentOf(Values(d))
  {
    ghost var pairs, thks := YPairs(Values(d)), Thks(Values(d));
    var xm, ym, thk := [], [], [];
    for i := 1 to if |d| == 0 then 1 else |d|
      invariant xm == [] && thk == thks[..i - 1]
      invariant |ym| == 2 * (i - 1) && DoubledPrefix(ym, pairs)
    {
      GetNumbered(d, i);
      GetNumbered(d, i + 1);
      var current := Get(d, i as real).value;
      var next1 := Get(d, (i + 1) as real).value;
      assert pairs[i - 1] == (next1.ym, current.ym);
      assert thks[..i] == thks[..i - 1] + [Mean(current.thk, next1.thk)];
      DoubledSnoc(pairs, ym, i - 1);
      ym := ym + [(next1.ym, current.ym)];
      ym := ym + [(next1.ym, current.ym)];
      thk := thk + [Mean(current.thk, next1.thk)];
    }
    DoubledFull(pairs, ym);
    assert thks[..Elements(|d|)] == thks;
    seg := Segment(xm, ym, thk);
  }

  /** ym holds the first |ym| entries of the doubled p. */
  ghost predicate DoubledPrefix<T>(ym: seq<T>, p: seq<T>)
  {
    |ym| <= 2 * |p| && forall j :: 0 <= j < |ym| ==> Half(j) < |p| && ym[j] == p[Half(j)]
  }

  lemma DoubledSnoc<T>(p: seq<T>, ym: seq<T>, k: nat)
    requires k < |p| && |ym| == 2 * k && DoubledPrefix(ym, p)
    ensures DoubledPrefix(ym + [p[k]] + [p[k]], p)
  {
    var ym' := ym + [p[k]] + [p[k]];
    forall j | 0 <= j < |ym'| ensures Half(j) < |p| && ym'[j] == p[Half(j)] {
      if j < |ym| {
        assert ym'[j] == ym[j];
      } else {
        Halves(k);
      }
    }
  }

  lemma DoubledFull<T>(p: seq<T>, ym: seq<T>)
    requires |ym| == 2 * |p| && DoubledPrefix(ym, p)
    ensures ym == Doubled(p)
  {
  }

  /** Entries 2k and 2k + 1 of a doubled sequence are entry k. */
  lemma DoubledAt<T>(p: seq<T>, k: int)
    requires 0 <= k < |p|
    ensures Doubled(p)[2 * k] == p[k] && Doubled(p)[2 * k + 1] == p[k]
  {
    Halves(k);
  }

  // ---------------------------------------------------------------------------------------------
  // plotsegment
  // ---------------------------------------------------------------------------------------------

  /**
   * The coordinate arrays of a flange or outer web: the second x of the first element, then the
   * first x of every element (likewise for y). An empty element list raises IndexError, and so does
   * a y list shorter than the x list.
   */
  function CoordsOf(seg: Segment): Result<Coords>
  {
    var n := |seg.xm|;
    if n == 0 || |seg.ym| < n then Err(IndexError)
    else Ok(Coords(
      [seg.xm[0].1] + seq(n, i requires 0 <= i < n => seg.xm[i].0),
      [seg.ym[0].1] + seq(n, i requires 0 <= i < n => seg.ym[i].0),
      seg.thk))
  }

  /**
   * The middle web's arrays: x = 0 for every y entry, y the second entry of each y pair.
   * (The 1CEL placeholder branch of plotsegment cannot run: `segment['mid_web']` is always a
   * dictionary with three keys, so it is never falsy.)
   */
  function MidCoordsOf(seg: Segment): Coords
  {
    Coords(seq(|seg.ym|, i => 0.0), seq(|seg.ym|, i requires 0 <= i < |seg.ym| => seg.ym[i].1), seg.thk)
  }

  /** plotsegment's loop for a flange or outer web. */
  method PlotMember(seg: Segment) returns (r: Result<Coords>)
    ensures r == CoordsOf(seg)
  {
    if |seg.xm| == 0 || |seg.ym| == 0 {
      return Err(IndexError);
    }
    var xs, ys := [seg.xm[0].1], [seg.ym[0].1];
    for i := 0 to |seg.xm|
      invariant i <= |seg.ym|
      invariant xs == [seg.xm[0].1] + seq(i, k requires 0 <= k < i => seg.xm[k].0)
      invariant ys == [seg.ym[0].1] + seq(i, k requires 0 <= k < i => seg.ym[k].0)
    {
      if i >= |seg.ym| {
        return Err(IndexError);
      }
      xs := xs + [seg.xm[i].0];
      ys := ys + [seg.ym[i].0];
    }
    r := Ok(Coords(xs, ys, seg.thk));
  }

  /** plotsegment's loop for the middle web. */
  method PlotMid(seg: Segment) returns (c: Coords)
    ensures c == MidCoordsOf(seg)
  {
    var xs := seq(|seg.ym|, i => 0.0);
    var ys := [];
    for i := 0 to |seg.ym|
      invariant ys == seq(i, k requires 0 <= k < i => seg.ym[k].1)
    {
      ys := ys + [seg.ym[i].1];
    }
    c := Coords(xs, ys, seg.thk);
  }

  // ---------------------------------------------------------------------------------------------
  // What the arrays hold
  // ---------------------------------------------------------------------------------------------

  function XmOf(s: seq<Rec>): (r: seq<real>)
    ensures |r| == |s| && forall i :: 0 <= i < |s| ==> r[i] == s[i].xm
  {
    seq(|s|, i requires 0 <= i < |s| => s[i].xm)
  }

  function YmOf(s: seq<Rec>): (r: seq<real>)
    ensures |r| == |s| && forall i :: 0 <= i < |s| ==> r[i] == s[i].ym
  {
    seq(|s|, i requires 0 <= i < |s| => s[i].ym)
  }

  /**
   * A flange or outer web with at least two points gives coordinate arrays listing exactly its
   * points in order, with one thickness per element, the mean of its two ends; with fewer than two
   * points plotsegment raises IndexError.
   */
  lemma MemberCoords(s: seq<Rec>)
    ensures CoordsOf(SegmentOf(s)).Ok? <==> |s| >= 2
    ensures |s| >= 2 ==> var c := CoordsOf(SegmentOf(s)).value;
      c.xs == XmOf(s) && c.ys == YmOf(s) && c.thks == Thks(s)
  {
    if |s| >= 2 {
      var seg := SegmentOf(s);
      var n := |s| - 1;
      assert |seg.xm| == n && |seg.ym| == n;
      var c := CoordsOf(seg).value;
      forall i | 0 <= i < |s| ensures c.xs[i] == s[i].xm && c.ys[i] == s[i].ym {
        if i > 0 {
          assert c.xs[i] == seg.xm[i - 1].0 && c.ys[i] == seg.ym[i - 1].0;
        }
      }
    }
  }

  lemma MidCoords(s: seq<Rec>)
    ensures MidShaped(MidCoordsOf(MidSegmentOf(s)), s)
  {
    var c := MidCoordsOf(MidSegmentOf(s));
    assert |c.xs| == |c.ys| == 2 * Elements(|s|) && |c.thks| == Elements(|s|);
    forall i | 0 <= i < |c.ys| ensures c.xs[i] == 0.0 && Half(i) + 1 < |s| && c.ys[i] == s[Half(i)].ym {
      MidCoordAt(s, i);
    }
    assert c.thks == Thks(s);
  }

  /**
   * The middle web's arrays for points s: 2(n - 1) entries at x = 0, entry i at the height of point
   * i // 2, so every point but the last appears twice and the last never does; one thickness per
   * element, the mean of its two ends.
   */
  predicate MidShaped(c: Coords, s: seq<Rec>)
  {
    |c.xs| == |c.ys| == 2 * Elements(|s|) && |c.thks| == Elements(|s|) &&
    (forall i :: 0 <= i < |c.xs| ==> c.xs[i] == 0.0) &&
    (forall i :: 0 <= i < |c.ys| ==> Half(i) + 1 < |s| && c.ys[i] == s[Half(i)].ym) &&
    forall k :: 0 <= k < |c.thks| ==> c.thks[k] == Mean(s[k].thk, s[k + 1].thk)
  }

  lemma Halves(k: nat)
    ensures Half(2 * k) == k && Half(2 * k + 1) == k
  {
  }

  /** Entry i of the middle web's arrays lies at x = 0, at the height of point i // 2. */
  lemma MidCoordAt(s: seq<Rec>, i: nat)
    requires i < 2 * Elements(|s|)
    ensures var c := MidCoordsOf(MidSegmentOf(s));
      |c.xs| == |c.ys| == 2 * Elements(|s|) && |c.thks| == Elements(|s|) &&
      c.xs[i] == 0.0 && Half(i) + 1 < |s| && c.ys[i] == s[Half(i)].ym
  {
    var k := Half(i);
    Halves(k);
    assert i == 2 * k || i == 2 * k + 1;
    DoubledAt(YPairs(s), k);
  }
}
