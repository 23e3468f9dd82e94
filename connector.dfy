/**
 * connector (backend/midasfn_npg.py:580-626) and the helpers lower_2 / left_2 (496-508): the points
 * where the webs meet the flanges.
 *
 * The top of each web is joined to the nearest perpendicular foot on a flange edge. The bottom of the
 * left web is joined to the bottom flange at the intersection of their lines, the right web at its
 * mirror image, and a middle web at the intersection of its line with the horizontal through the
 * lowest bottom-flange point.
 */
module Connector {
  import opened Common
  import opened Seqs
  import opened Geometry

  function RecPoint(r: Rec): Point
  {
    Point(r.xm, r.ym)
  }

  /** `max(dic, key = ym)`: the first record, in dictionary order, with the greatest ym. */
  function Topmost(d: seq<Rec>): (r: Rec)
    requires |d| > 0
    ensures forall q :: 0 <= q < |d| ==> d[q].ym <= r.ym
    ensures exists k :: 0 <= k < |d| && d[k] == r && forall q :: 0 <= q < k ==> d[q].ym < r.ym
    decreases |d|
  {
    if |d| == 1 then d[0]
    else
      var m := Topmost(d[1..]);
      assert forall q :: 1 <= q < |d| ==> d[q] == d[1..][q - 1];
      if m.ym > d[0].ym then m else d[0]
  }

  /** `min(dic, key = ym)`: the first record, in dictionary order, with the least ym. */
  function Lowest(d: seq<Rec>): (r: Rec)
    requires |d| > 0
    ensures forall q :: 0 <= q < |d| ==> r.ym <= d[q].ym
    ensures exists k :: 0 <= k < |d| && d[k] == r && forall q :: 0 <= q < k ==> r.ym < d[q].ym
    decreases |d|
  {
    if |d| == 1 then d[0]
    else
      var m := Lowest(d[1..]);
      assert forall q :: 1 <= q < |d| ==> d[q] == d[1..][q - 1];
      if m.ym < d[0].ym then m else d[0]
  }

  function ByY(r: Rec): (real, real) { (r.ym, 0.0) }

  function ByX(r: Rec): (real, real) { (r.xm, 0.0) }

  /**
   * The first two records of a stable sort, as points (fewer if there are fewer). They come from two
   * different positions of the input; the first is minimal, and the second is minimal among the rest.
   */
  function FirstTwoBy(d: seq<Rec>, key: Rec -> (real, real)): (r: seq<Point>)
    ensures |r| == if |d| < 2 then |d| else 2
    ensures forall i :: 0 <= i < |r| ==> exists q :: 0 <= q < |d| && r[i] == RecPoint(d[q])
    ensures |r| > 0 ==> forall q :: 0 <= q < |d| ==> LexLe(key(SortBy(d, key)[0]), key(d[q]))
    ensures |r| == 2 ==> LexLe(key(SortBy(d, key)[0]), key(SortBy(d, key)[1]))
    ensures |r| == 2 ==>
      exists q0, q1 :: 0 <= q0 < |d| && 0 <= q1 < |d| && q0 != q1 &&
        r[0] == RecPoint(d[q0]) && r[1] == RecPoint(d[q1]) &&
        forall q :: 0 <= q < |d| && q != q0 ==> LexLe(key(d[q1]), key(d[q]))
  {
    var s := SortBy(d, key);
    var n := if |d| < 2 then |d| else 2;
    SortedFront(d, key, n);
    SortedSecond(d, key);
    seq(n, i requires 0 <= i < n => RecPoint(s[i]))
  }

  lemma SortedFront(d: seq<Rec>, key: Rec -> (real, real), n: nat)
    requires n <= |d|
    ensures forall i :: 0 <= i < n ==> exists q :: 0 <= q < |d| && SortBy(d, key)[i] == d[q]
    ensures n > 0 ==> forall q :: 0 <= q < |d| ==> LexLe(key(SortBy(d, key)[0]), key(d[q]))
  {
    var s := SortBy(d, key);
    forall i | 0 <= i < n ensures exists q :: 0 <= q < |d| && s[i] == d[q] {
      assert s[i] in multiset(d);
    }
    if n > 0 {
      forall q | 0 <= q < |d| ensures LexLe(key(s[0]), key(d[q])) {
        assert d[q] in multiset(s);
        var j :| 0 <= j < |s| && s[j] == d[q];
        assert j == 0 || LexLe(key(s[0]), key(s[j]));
      }
    }
  }

  /** The second record of the sort sits at another position than the first and is minimal among the others. */
  lemma SortedSecond(d: seq<Rec>, key: Rec -> (real, real))
    ensures |d| >= 2 ==>
      exists q0, q1 :: 0 <= q0 < |d| && 0 <= q1 < |d| && q0 != q1 &&
        SortBy(d, key)[0] == d[q0] && SortBy(d, key)[1] == d[q1] &&
        forall q :: 0 <= q < |d| && q != q0 ==> LexLe(key(d[q1]), key(d[q]))
  {
    if |d| >= 2 {
      SecondOfSorted(SortBy(d, key), d, key);
    }
  }

  /** In a sorted permutation `s` of `d`, the first two entries come from two positions of `d`, the second minimal among the others. */
  lemma SecondOfSorted<T>(s: seq<T>, d: seq<T>, key: T -> (real, real))
    requires |s| == |d| >= 2 && multiset(s) == multiset(d) && SortedBy(s, key)
    ensures
      exists q0, q1 :: 0 <= q0 < |d| && 0 <= q1 < |d| && q0 != q1 &&
        s[0] == d[q0] && s[1] == d[q1] &&
        forall q :: 0 <= q < |d| && q != q0 ==> LexLe(key(d[q1]), key(d[q]))
  {
    assert s[0] in multiset(d);
    var q0 :| 0 <= q0 < |d| && d[q0] == s[0];
    var tail := s[1..];
    DropFirst(s, d, q0);
    assert s[1] == tail[0];
    var q1 := OtherPosition(d, q0, s[1]);
    forall q | 0 <= q < |d| && q != q0 ensures LexLe(key(d[q1]), key(d[q])) {
      SkipIndex(d, q0, q);
      var k :| 0 <= k < |tail| && tail[k] == d[q];
      assert s[k + 1] == d[q];
      assert k == 0 || LexLe(key(s[1]), key(s[k + 1]));
    }
  }

  /** Taking the entry at `q0` out of `d` leaves the same elements as taking the head off `s`. */
  lemma DropFirst<T>(s: seq<T>, d: seq<T>, q0: nat)
    requires |s| == |d| && q0 < |d| && multiset(s) == multiset(d) && d[q0] == s[0]
    ensures multiset(d[..q0] + d[q0 + 1..]) == multiset(s[1..])
  {
    var rest := d[..q0] + d[q0 + 1..];
    var tail := s[1..];
    assert d == d[..q0] + [d[q0]] + d[q0 + 1..];
    assert s == [s[0]] + tail;
    assert forall e :: multiset(rest)[e] == multiset(d)[e] - (if e == s[0] then 1 else 0) == multiset(tail)[e];
  }

  /** An element left after taking out the entry at `q0` sits at a position other than `q0`. */
  lemma OtherPosition<T>(d: seq<T>, q0: nat, x: T) returns (q1: nat)
    requires q0 < |d| && x in multiset(d[..q0] + d[q0 + 1..])
    ensures q1 < |d| && q1 != q0 && d[q1] == x
  {
    var rest := d[..q0] + d[q0 + 1..];
    var j :| 0 <= j < |rest| && rest[j] == x;
    q1 := if j < q0 then j else j + 1;
  }

  /** Every entry of `d` at a position other than `q0` is left after taking that entry out. */
  lemma SkipIndex<T>(d: seq<T>, q0: nat, q: nat)
    requires q0 < |d| && q < |d| && q != q0
    ensures d[q] in multiset(d[..q0] + d[q0 + 1..])
  {
    var rest := d[..q0] + d[q0 + 1..];
    var p := if q < q0 then q else q - 1;
    assert rest[p] == d[q];
  }

  /**
   * lower_2: the two lowest points of a web, lowest first; the second comes from another record and
   * is the lowest of the records other than the first.
   */
  function LowerTwo(d: seq<Rec>): (r: seq<Point>)
    ensures |r| == if |d| < 2 then |d| else 2
    ensures |r| > 0 ==> forall q :: 0 <= q < |d| ==> r[0].y <= d[q].ym
    ensures |r| == 2 ==> r[0].y <= r[1].y
    ensures |r| == 2 ==>
      exists q0, q1 :: 0 <= q0 < |d| && 0 <= q1 < |d| && q0 != q1 &&
        r[0] == RecPoint(d[q0]) && r[1] == RecPoint(d[q1]) &&
        forall q :: 0 <= q < |d| && q != q0 ==> r[1].y <= d[q].ym
  {
    FirstTwoBy(d, ByY)
  }

  /**
   * left_2: the two leftmost points of a flange, leftmost first; the second comes from another record
   * and is the leftmost of the records other than the first.
   */
  function LeftTwo(d: seq<Rec>): (r: seq<Point>)
    ensures |r| == if |d| < 2 then |d| else 2
    ensures |r| > 0 ==> forall q :: 0 <= q < |d| ==> r[0].x <= d[q].xm
    ensures |r| == 2 ==> r[0].x <= r[1].x
    ensures |r| == 2 ==>
      exists q0, q1 :: 0 <= q0 < |d| && 0 <= q1 < |d| && q0 != q1 &&
        r[0] == RecPoint(d[q0]) && r[1] == RecPoint(d[q1]) &&
        forall q :: 0 <= q < |d| && q != q0 ==> r[1].x <= d[q].xm
  {
    FirstTwoBy(d, ByX)
  }

  // ---------------------------------------------------------------------------------------------
  // The top connection: the nearest perpendicular foot
  // ---------------------------------------------------------------------------------------------

  /** `range(1, len(dic) - 1)`: the edges (dic[j], dic[j+1]) visited; the last edge is not among them. */
  function ScanCount(vals: seq<Rec>): nat
  {
    if |vals| < 2 then 0 else |vals| - 2
  }

  /** The feet found on edges 0 .. n-1 of one flange (edge k joins the records at keys k+1 and k+2). */
  function FlangeHits(vals: seq<Rec>, p: Point, root: real -> real, n: nat): seq<Perp>
    requires n <= ScanCount(vals)
    decreases n
  {
    if n == 0 then []
    else
      var pp := PerpendicularPoint(RecPoint(vals[n - 1]), RecPoint(vals[n]), p, 0, root);
      FlangeHits(vals, p, root, n - 1) + (if pp.Some? then [pp.value] else [])
  }

  /** The feet found on the flanges, flange after flange. */
  function AllHits(flanges: seq<seq<Rec>>, p: Point, root: real -> real): seq<Perp>
    decreases |flanges|
  {
    if |flanges| == 0 then []
    else
      var last := flanges[|flanges| - 1];
      AllHits(flanges[..|flanges| - 1], p, root) + FlangeHits(last, p, root, ScanCount(last))
  }

  /** One step of the scan: `dist = min(dist, thk)`, and the foot is taken when `thk <= dist`. */
  function ScanStep(st: (real, Option<Point>), c: Perp): (real, Option<Point>)
  {
    var dist := Min(st.0, c.thk);
    if c.thk <= dist then (dist, Some(c.foot)) else (dist, st.1)
  }

  function Scan(cands: seq<Perp>, st: (real, Option<Point>)): (real, Option<Point>)
    decreases |cands|
  {
    if |cands| == 0 then st else ScanStep(Scan(cands[..|cands| - 1], st), cands[|cands| - 1])
  }

  /** The initial `dist = 999999`. */
  const Far: real := 999999.0

  /**
   * The scan ends at the least thickness (capped at the start value). If some foot is no farther
   * than the start value, the foot kept is the LAST one at that least thickness; otherwise the
   * state is unchanged.
   */
  lemma {:induction false} ScanFacts(cands: seq<Perp>, st: (real, Option<Point>))
    ensures var r := Scan(cands, st);
      r.0 <= st.0 && (forall k :: 0 <= k < |cands| ==> r.0 <= cands[k].thk) &&
      (r.0 == st.0 || exists k :: 0 <= k < |cands| && cands[k].thk == r.0) &&
      ((exists k :: 0 <= k < |cands| && cands[k].thk <= st.0) ==>
        exists k :: 0 <= k < |cands| && r.1 == Some(cands[k].foot) && cands[k].thk == r.0 &&
          forall k' :: k < k' < |cands| ==> cands[k'].thk > r.0) &&
      ((forall k :: 0 <= k < |cands| ==> cands[k].thk > st.0) ==> r == st)
    decreases |cands|
  {
    if |cands| > 0 {
      var init, c := cands[..|cands| - 1], cands[|cands| - 1];
      ScanFacts(init, st);
      var r0 := Scan(init, st);
      var r := Scan(cands, st);
      assert forall k :: 0 <= k < |init| ==> init[k] == cands[k];
      if c.thk <= r0.0 {
        assert r == (c.thk, Some(c.foot));
        assert cands[|cands| - 1].thk == r.0;
      } else {
        assert r == r0;
        if exists k :: 0 <= k < |cands| && cands[k].thk <= st.0 {
          if r0.0 != st.0 {
            var k :| 0 <= k < |init| && init[k].thk == r0.0;
            assert init[k].thk <= st.0;
          } else {
            var k :| 0 <= k < |cands| && cands[k].thk <= st.0;
            assert k < |init|;
          }
          var k0 :| 0 <= k0 < |init| && r0.1 == Some(init[k0].foot) && init[k0].thk == r0.0 &&
            forall k' :: k0 < k' < |init| ==> init[k'].thk > r0.0;
          assert forall k' :: k0 < k' < |cands| ==> cands[k'].thk > r.0;
        }
      }
    }
  }

  /** The foot the top scan settles on for the point p. */
  function NearestFoot(top: seq<Rec>, bot: seq<Rec>, p: Point, root: real -> real): Option<Point>
  {
    Scan(AllHits([top, bot], p, root), (Far, None)).1
  }

  /** The scan over one flange, as the loop over j does it. */
  method ScanFlange(vals: seq<Rec>, p: Point, root: real -> real, st: (real, Option<Point>))
    returns (dist: real, best: Option<Point>)
    ensures (dist, best) == Scan(FlangeHits(vals, p, root, ScanCount(vals)), st)
  {
    dist, best := st.0, st.1;
    ghost var done: seq<Perp> := [];
    for j := 1 to ScanCount(vals) + 1
      invariant done == FlangeHits(vals, p, root, j - 1)
      invariant (dist, best) == Scan(done, st)
    {
      var pp := PerpendicularPoint(RecPoint(vals[j - 1]), RecPoint(vals[j]), p, 0, root);
      if pp.Some? {
        dist := Min(dist, pp.value.thk);
        if pp.value.thk <= dist {
          best := Some(pp.value.foot);
        }
        assert (done + [pp.value])[..|done|] == done;
        done := done + [pp.value];
      }
    }
  }

  lemma {:induction false} ScanAppend(a: seq<Perp>, b: seq<Perp>, st: (real, Option<Point>))
    ensures Scan(a + b, st) == Scan(b, Scan(a, st))
    decreases |b|
  {
    if |b| == 0 {
      assert a + b == a;
    } else {
      var b' := b[..|b| - 1];
      ScanAppend(a, b', st);
      assert (a + b)[..|a + b| - 1] == a + b';
    }
  }

  /** The loop `for dic in flange` with the running minimum carried across flanges. */
  method NearestFootScan(flanges: seq<seq<Rec>>, p: Point, root: real -> real) returns (best: Option<Point>)
    ensures best == Scan(AllHits(flanges, p, root), (Far, None)).1
  {
    var dist := Far;
    best := None;
    for f := 0 to |flanges|
      invariant (dist, best) == Scan(AllHits(flanges[..f], p, root), (Far, None))
    {
      var dic := flanges[f];
      assert flanges[..f + 1][..f] == flanges[..f];
      ScanAppend(AllHits(flanges[..f], p, root), FlangeHits(dic, p, root, ScanCount(dic)), (Far, None));
      dist, best := ScanFlange(dic, p, root, (dist, best));
    }
    assert flanges[..|flanges|] == flanges;
  }

  // ---------------------------------------------------------------------------------------------
  // connector
  // ---------------------------------------------------------------------------------------------

  /** The two lists connector returns, one record per web: the top joints and the bottom joints. */
  datatype Joints = Joints(top: seq<Rec>, bottom: seq<Rec>)

  function Mirror(p: Point): Point
  {
    Point(-p.x, p.y)
  }

  predicate AllNonEmpty(webs: seq<seq<Rec>>)
  {
    forall i :: 0 <= i < |webs| ==> |webs[i]| > 0
  }

  /** A joint level with the horizontal through (0, y2) and (5, y2) has height y2. */
  lemma LevelJoint(y2: real, q: Point)
    requires PointOnLine(Point(0.0, y2), Point(5.0, y2), q)
    ensures q.y == y2
  {
  }

  /** p lies on the left web's lower line and on the bottom flange's left line. */
  predicate SideFits(web: seq<Rec>, bot: seq<Rec>, p: Point)
  {
    var wl, fl := LowerTwo(web), LeftTwo(bot);
    |wl| == 2 && |fl| == 2 && PointOnLine(wl[0], wl[1], p) && PointOnLine(fl[0], fl[1], p)
  }

  /** p lies on the middle web's lower line, at the height of the lowest bottom-flange point. */
  predicate MidFits(web: seq<Rec>, bot: seq<Rec>, p: Point)
    requires |bot| > 0
  {
    var ml := LowerTwo(web);
    |ml| == 2 && PointOnLine(ml[0], ml[1], p) && p.y == Lowest(bot).ym
  }

  /** The left web's lower line and the bottom flange's left line both exist and are parallel. */
  predicate SideParallel(web: seq<Rec>, bot: seq<Rec>)
  {
    |web| >= 2 && |bot| >= 2 &&
    Parallel(LowerTwo(web)[0], LowerTwo(web)[1], LeftTwo(bot)[0], LeftTwo(bot)[1])
  }

  /** The bottom joints v fit the webs: one per web, the right web's the mirror of the left web's. */
  predicate BottomFits(webs: seq<seq<Rec>>, bot: seq<Rec>, v: seq<Point>)
    requires 2 <= |webs| <= 3 && |bot| > 0
  {
    |v| == |webs| && v[1] == Mirror(v[0]) && SideFits(webs[0], bot, v[0]) &&
    (|webs| == 3 ==> MidFits(webs[2], bot, v[2]))
  }

  /**
   * The bottom joints, or the error raised while computing them: the left web meets the bottom
   * flange where their lines cross, the right web at the mirror point, and a middle web where its
   * line crosses the level of the lowest bottom-flange point. IndexError comes from a web or flange
   * with fewer than two points (the middle web is reached only when the left web's lines cross);
   * parallel lines raise ZeroDivisionError.
   */
  function BottomJoints(webs: seq<seq<Rec>>, bot: seq<Rec>): (r: Result<seq<Point>>)
    requires 2 <= |webs| <= 3 && |bot| > 0
    ensures r.Ok? ==> BottomFits(webs, bot, r.value)
    ensures r.Err? ==> r.error == IndexError || r.error == ZeroDivision
    ensures r == Err(IndexError) <==>
      (|webs[0]| < 2 || |bot| < 2 || (|webs| == 3 && |webs[2]| < 2 && !SideParallel(webs[0], bot)))
  {
    match SideBottom(webs[0], bot)
    case Err(e) => Err(e)
    case Ok(pp) =>
      if |webs| == 2 then Ok([pp, Mirror(pp)])
      else
        match MidBottom(webs[2], bot)
        case Err(e) => Err(e)
        case Ok(pm) => Ok([pp, Mirror(pp), pm])
  }

  /** The left web's bottom joint: its lower line crossed with the bottom flange's left line. */
  function SideBottom(web: seq<Rec>, bot: seq<Rec>): (r: Result<Point>)
    ensures r.Ok? ==> SideFits(web, bot, r.value)
    ensures r.Err? ==> r.error == IndexError || r.error == ZeroDivision
    ensures r == Err(IndexError) <==> |web| < 2 || |bot| < 2
    ensures r == Err(ZeroDivision) <==> SideParallel(web, bot)
  {
    var fl, wl := LeftTwo(bot), LowerTwo(web);
    if |wl| < 2 || |fl| < 2 then Err(IndexError)
    else
      match Intersect(wl[0], wl[1], fl[0], fl[1])
      case None => Err(ZeroDivision)
      case Some(pp) => Ok(pp)
  }

  /** The middle web's bottom joint: its lower line crossed with the level of the lowest bottom-flange point. */
  function MidBottom(web: seq<Rec>, bot: seq<Rec>): (r: Result<Point>)
    requires |bot| > 0
    ensures r.Ok? ==> MidFits(web, bot, r.value)
    ensures r.Err? ==> r.error == IndexError || r.error == ZeroDivision
    ensures r == Err(IndexError) <==> |web| < 2
  {
    var y2 := Lowest(bot).ym;
    var ml := LowerTwo(web);
    if |ml| < 2 then Err(IndexError)
    else
      match Intersect(ml[0], ml[1], Point(0.0, y2), Point(5.0, y2))
      case None => Err(ZeroDivision)
      case Some(pm) =>
        LevelJoint(y2, pm);
        Ok(pm)
  }

  /** The top joint of each web: the nearest foot from its highest point, with that point's thickness. */
  function TopJoints(webs: seq<seq<Rec>>, top: seq<Rec>, bot: seq<Rec>, root: real -> real): (r: seq<Option<Rec>>)
    requires AllNonEmpty(webs)
    ensures |r| == |webs|
  {
    seq(|webs|, i requires 0 <= i < |webs| =>
      var t := Topmost(webs[i]);
      match NearestFoot(top, bot, RecPoint(t), root)
      case None => None
      case Some(f) => Some(Rec(f.x, f.y, t.thk)))
  }

  predicate AllSome(r: seq<Option<Rec>>)
  {
    forall i :: 0 <= i < |r| ==> r[i].Some?
  }

  function Values(r: seq<Option<Rec>>): (v: seq<Rec>)
    requires AllSome(r)
    ensures |v| == |r| && forall i :: 0 <= i < |r| ==> r[i] == Some(v[i])
  {
    seq(|r|, i requires 0 <= i < |r| => r[i].value)
  }

  /**
   * connector([left, right(, mid)], [top, bot]). A missing top foot leaves None in the Python lists,
   * which makes the next stage fail; here it is the error MissingConnector.
   */
  function Connect(webs: seq<seq<Rec>>, top: seq<Rec>, bot: seq<Rec>, root: real -> real): Result<Joints>
    requires 2 <= |webs| <= 3
  {
    if |bot| == 0 || !AllNonEmpty(webs) then Err(EmptySequence)
    else Assemble(webs, TopJoints(webs, top, bot, root), BottomJoints(webs, bot))
  }

  /** The joint records: position from the joint, thickness from the web's highest or lowest record. */
  function Assemble(webs: seq<seq<Rec>>, tops: seq<Option<Rec>>, bs: Result<seq<Point>>): (r: Result<Joints>)
    requires AllNonEmpty(webs) && |tops| == |webs| && (bs.Ok? ==> |bs.value| == |webs|)
    ensures r.Ok? <==> bs.Ok? && AllSome(tops)
    ensures r.Ok? ==> (|r.value.top| == |webs| && |r.value.bottom| == |webs| &&
      (forall i :: 0 <= i < |webs| ==> tops[i] == Some(r.value.top[i])) &&
      forall i :: 0 <= i < |webs| ==>
        RecPoint(r.value.bottom[i]) == bs.value[i] && r.value.bottom[i].thk == Lowest(webs[i]).thk)
    ensures bs.Err? ==> r == Err(bs.error)
    ensures bs.Ok? && !AllSome(tops) ==> r == Err(MissingConnector)
  {
    match bs
    case Err(e) => Err(e)
    case Ok(ps) =>
      if !AllSome(tops) then Err(MissingConnector)
      else Ok(Joints(Values(tops), seq(|webs|, i requires 0 <= i < |webs| => Rec(ps[i].x, ps[i].y, Lowest(webs[i]).thk))))
  }

  /** The loop `for dic in web` that records each web's highest and lowest record. */
  method WebExtremes(webs: seq<seq<Rec>>) returns (ok: bool, highs: seq<Rec>, lows: seq<Rec>)
    ensures ok <==> AllNonEmpty(webs)
    ensures ok ==> |highs| == |webs| && forall k :: 0 <= k < |webs| ==> highs[k] == Topmost(webs[k])
    ensures ok ==> |lows| == |webs| && forall k :: 0 <= k < |webs| ==> lows[k] == Lowest(webs[k])
  {
    highs, lows := [], [];
    for i := 0 to |webs|
      invariant AllNonEmpty(webs[..i])
      invariant |highs| == i && forall k :: 0 <= k < i ==> highs[k] == Topmost(webs[k])
      invariant |lows| == i && forall k :: 0 <= k < i ==> lows[k] == Lowest(webs[k])
    {
      if |webs[i]| == 0 {
        return false, highs, lows;
      }
      highs := highs + [Topmost(webs[i])];
      lows := lows + [Lowest(webs[i])];
    }
    assert webs[..|webs|] == webs;
    ok := true;
  }

  /** The loop `for i in range(len(xw_min))` that scans the flanges from the top of each web. */
  method TopJointScan(webs: seq<seq<Rec>>, highs: seq<Rec>, top: seq<Rec>, bot: seq<Rec>, root: real -> real)
    returns (feet: seq<Option<Rec>>)
    requires AllNonEmpty(webs)
    requires |highs| == |webs| && forall k :: 0 <= k < |webs| ==> highs[k] == Topmost(webs[k])
    ensures feet == TopJoints(webs, top, bot, root)
  {
    feet := [];
    for i := 0 to |webs|
      invariant feet == TopJoints(webs, top, bot, root)[..i]
    {
      var f := NearestFootScan([top, bot], RecPoint(highs[i]), root);
      var joint := if f.Some? then Some(Rec(f.value.x, f.value.y, highs[i].thk)) else None;
      assert TopJoints(webs, top, bot, root)[i] == joint;
      feet := feet + [joint];
    }
  }

  /** connector as the Python loops compute it. */
  method RunConnector(webs: seq<seq<Rec>>, top: seq<Rec>, bot: seq<Rec>, root: real -> real)
    returns (r: Result<Joints>)
    requires 2 <= |webs| <= 3
    ensures r == Connect(webs, top, bot, root)
  {
    if |bot| == 0 {
      return Err(EmptySequence);
    }
    var ok, highs, lows := WebExtremes(webs);
    if !ok {
      return Err(EmptySequence);
    }
    var feet := TopJointScan(webs, highs, top, bot, root);
    var bs := BottomJoints(webs, bot);
    r := Assemble(webs, feet, bs);
  }

  /** A web's top joint exists exactly when some flange edge has a foot no farther than 999999. */
  lemma TopJointFacts(webs: seq<seq<Rec>>, top: seq<Rec>, bot: seq<Rec>, root: real -> real, i: nat)
    requires AllNonEmpty(webs) && i < |webs|
    ensures var t := Topmost(webs[i]);
      var hits := AllHits([top, bot], RecPoint(t), root);
      var j := TopJoints(webs, top, bot, root)[i];
      (j.Some? <==> exists k :: 0 <= k < |hits| && hits[k].thk <= Far) &&
      (j.Some? ==> (j.value.thk == t.thk &&
        exists k :: 0 <= k < |hits| && hits[k].foot == Point(j.value.xm, j.value.ym) &&
          hits[k].thk <= Far && (forall k' :: 0 <= k' < |hits| ==> hits[k].thk <= hits[k'].thk) &&
          forall k' :: k < k' < |hits| ==> hits[k'].thk > hits[k].thk))
  {
    var t := Topmost(webs[i]);
    var hits := AllHits([top, bot], RecPoint(t), root);
    ScanFacts(hits, (Far, None));
  }

  /** The joints connector returns, one per web, and where each one lies. */
  lemma ConnectFacts(webs: seq<seq<Rec>>, top: seq<Rec>, bot: seq<Rec>, root: real -> real)
    requires 2 <= |webs| <= 3 && Connect(webs, top, bot, root).Ok?
    ensures var j := Connect(webs, top, bot, root).value;
      |j.top| == |webs| && |j.bottom| == |webs| && AllNonEmpty(webs) && |bot| > 0 &&
      (forall i :: 0 <= i < |webs| ==> TopJoints(webs, top, bot, root)[i] == Some(j.top[i])) &&
      (forall i :: 0 <= i < |webs| ==> j.bottom[i].thk == Lowest(webs[i]).thk) &&
      // the bottom joints of the outer webs are mirror images
      j.bottom[1].xm == -j.bottom[0].xm && j.bottom[1].ym == j.bottom[0].ym &&
      // the left one lies on the left web's line and on the bottom flange's line
      var wl, fl := LowerTwo(webs[0]), LeftTwo(bot);
      |wl| == 2 && |fl| == 2 &&
      PointOnLine(wl[0], wl[1], RecPoint(j.bottom[0])) && PointOnLine(fl[0], fl[1], RecPoint(j.bottom[0])) &&
      // the middle one lies on the middle web's line, level with the lowest bottom-flange point
      (|webs| == 3 ==>
        var ml := LowerTwo(webs[2]);
        |ml| == 2 && PointOnLine(ml[0], ml[1], RecPoint(j.bottom[2])) &&
        j.bottom[2].ym == Lowest(bot).ym && forall q :: 0 <= q < |bot| ==> j.bottom[2].ym <= bot[q].ym)
  {
    var bs := BottomJoints(webs, bot).value;
    var j := Connect(webs, top, bot, root).value;
    assert RecPoint(j.bottom[0]) == bs[0] && RecPoint(j.bottom[1]) == bs[1];
    if |webs| == 3 {
      assert RecPoint(j.bottom[2]) == bs[2];
    }
  }
}
