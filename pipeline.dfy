/**
 * The centreline pipeline of PSC_1CEL_XY (backend/midasfn_npg.py:630-837) followed by plotsegment and
 * build_global_arrays (backend/midasfn_npg.py:839-953). The stages are the ones of the modules this
 * one imports: the outline rings, the thickness lines of ortho_line_plot, the table without repeated
 * lines, the classification into members, the web-to-flange joints, their injection, xysort,
 * part_len and reorder, the element lists, the coordinate arrays and the mesh arrays.
 */
module Pipeline {
  import opened Common
  import opened Seqs
  import opened Dicts
  import Boundary
  import OrthoLines
  import LineTable
  import opened Members
  import Connector
  import opened Injection
  import Resample
  import opened Segments
  import opened GlobalArrays

  /** The three arrays build_global_arrays returns. */
  datatype Mesh = Mesh(nodes: seq<Point>, lines: seq<(nat, nat)>, thicknesses: seq<real>)

  // ---------------------------------------------------------------------------------------------
  // The stages, as reference definitions
  // ---------------------------------------------------------------------------------------------

  /** The lengths the later stages index by: nine vertices each, rings as paired coordinate lists. */
  predicate Closed(o: Boundary.Outline)
  {
    |o.external| == 9 && |o.internal| == 9 && |o.x| == |o.y| && |o.ix| == |o.iy| &&
    (o.second.Some? ==> |o.second.value.0| == |o.second.value.1|)
  }

  /**
   * The four ortho_line_plot calls of lines 651-657: inner ring against the outer edges, the outer
   * ring against itself with h = 0, and for two cells the second cell against the outer edges and
   * the first cell against the second cell's edges with d = 0.5.
   */
  function ThicknessLines(o: Boundary.Outline, root: real -> real): seq<OrthoLines.Ortho>
    requires Closed(o)
  {
    var first := OrthoLines.OrthoSegments(o.x, o.y, o.ix, o.iy, |o.ix|, 1.0, 1, 1, root) +
      OrthoLines.OrthoSegments(o.x, o.y, o.x, o.y, |o.x|, 1.0, 0, 1, root);
    match o.second
    case None => first
    case Some(cell) =>
      first + OrthoLines.OrthoSegments(o.x, o.y, cell.0, cell.1, |cell.0|, 1.0, 1, 1, root) +
      OrthoLines.OrthoSegments(cell.0, cell.1, o.ix, o.iy, |o.ix|, 0.5, 1, 1, root)
  }

  /** The stored lines in midpoint order: the table without repeated lines, sorted. */
  function EntriesOf(o: Boundary.Outline, root: real -> real): seq<LineTable.Entry>
    requires Closed(o)
  {
    LineTable.Ordered(FirstBy(LineTable.Indexed(ThicknessLines(o, root)), LineTable.EndsOf))
  }

  /** The member dictionaries of an outline: its stored lines, classified. */
  function MembersOf(o: Boundary.Outline, root: real -> real): Parts
    requires Closed(o)
  {
    var b := Classified(EntriesOf(o, root), o.external, o.internal);
    Parts(b.top, b.bot, b.right, b.left, b.mid)
  }

  /** The web list connector receives: [left, right] or, with a middle web, [left, right, mid]. */
  function Webs(p: Parts): (r: seq<seq<Rec>>)
    ensures |r| == if HasMid(p) then 3 else 2
  {
    if HasMid(p) then [Values(p.left), Values(p.right), Values(p.mid)] else [Values(p.left), Values(p.right)]
  }

  function Joints(p: Parts, root: real -> real): Result<Connector.Joints>
  {
    Connector.Connect(Webs(p), Values(p.top), Values(p.bot), root)
  }

  /** xysort, then part_len with element length 0.3, then reorder. */
  function Refine(d: Dict<Rec>, x: int, root: real -> real): Dict<Rec>
    requires x == 0 || x == 1
  {
    Resample.Reorder(Resample.PartLen(Resample.XySort(d, x), root))
  }

  /** The members after the joints are injected and each member is sorted and resampled. */
  function Placed(p: Parts, j: Connector.Joints, root: real -> real): Parts
    requires Fits(p, j)
  {
    var q := Inject(p, j);
    Parts(Refine(q.top, 1, root), Refine(q.bot, 1, root), Refine(q.right, 0, root), Refine(q.left, 0, root),
      if HasMid(q) then Refine(q.mid, 0, root) else q.mid)
  }

  /** array_1 for the members: plotsegment fails on a flange or outer web with no element. */
  function ItemsOf(p: Parts): Result<seq<(string, Coords)>>
  {
    var top, bot := CoordsOf(SegmentOf(Values(p.top))), CoordsOf(SegmentOf(Values(p.bot)));
    var left, right := CoordsOf(SegmentOf(Values(p.left))), CoordsOf(SegmentOf(Values(p.right)));
    if top.Err? then Err(top.error)
    else if bot.Err? then Err(bot.error)
    else if left.Err? then Err(left.error)
    else if right.Err? then Err(right.error)
    else Ok(Items(top.value, bot.value, right.value, left.value, MidCoordsOf(MidSegmentOf(Values(p.mid)))))
  }

  /** array_1 for a section, or the exception the pipeline raises on the way. */
  function ItemsFor(sec: Boundary.Section, root: real -> real): Result<seq<(string, Coords)>>
  {
    match Boundary.OutlineOf(sec)
    case Err(e) => Err(e)
    case Ok(o) =>
      OutlineClosed(sec);
      var p := MembersOf(o, root);
      match Joints(p, root)
      case Err(e) => Err(e)
      case Ok(j) =>
        JointsFit(p, root);
        ItemsOf(Placed(p, j, root))
  }

  lemma OutlineClosed(sec: Boundary.Section)
    requires Boundary.OutlineOf(sec).Ok?
    ensures Closed(Boundary.OutlineOf(sec).value)
  {
  }

  /** The joints connector finds fit the injection: one per web. */
  lemma JointsFit(p: Parts, root: real -> real)
    requires Joints(p, root).Ok?
    ensures Fits(p, Joints(p, root).value)
    ensures |Joints(p, root).value.top| == |Joints(p, root).value.bottom| == if HasMid(p) then 3 else 2
  {
  }

  // ---------------------------------------------------------------------------------------------
  // The pipeline as the source runs it
  // ---------------------------------------------------------------------------------------------

  /** xysort, part_len and reorder of one member. */
  method RefineMember(d: Dict<Rec>, x: int, root: real -> real) returns (r: Dict<Rec>)
    requires x == 0 || x == 1
    ensures r == Refine(d, x, root)
  {
    var sorted := Resample.XySort(d, x);
    var cut := Resample.RunPartLen(sorted, root);
    r := Resample.Reorder(cut);
  }

  /** From the section's dimensions to the node, line and thickness arrays, stage by stage. */
  method CentreLine(sec: Boundary.Section, root: real -> real) returns (r: Result<Mesh>)
    ensures r.Ok? <==> ItemsFor(sec, root).Ok?
    ensures r.Err? ==> r.error == ItemsFor(sec, root).error
    ensures r.Ok? ==> var items := ItemsFor(sec, root).value;
      AllShaped(items) && Built(AllEdges(items), r.value.nodes, r.value.lines, r.value.thicknesses)
  {
    var outline := Boundary.BuildOutline(sec);
    if outline.Err? {
      return Err(outline.error);
    }
    OutlineClosed(sec);
    var p := ClassifyLines(outline.value, root);
    var li := Connect(p, root);
    if li.Err? {
      return Err(li.error);
    }
    JointsFit(p, root);
    var placed := PlaceMembers(p, li.value, root);
    var arrays := PlaceItems(placed);
    if arrays.Err? {
      return Err(arrays.error);
    }
    var nodes, ls, thks := BuildGlobalArrays(arrays.value);
    return Ok(Mesh(nodes, ls, thks));
  }

  /** The thickness lines, the table without repeats, the midpoint order and the classification. */
  method ClassifyLines(o: Boundary.Outline, root: real -> real) returns (p: Parts)
    requires Closed(o)
    ensures p == MembersOf(o, root)
  {
    var lines := PlotLines(o, root);
    var dic := LineTable.BuildTable(lines);
    var b := Classify(LineTable.Ordered(dic), o.external, o.internal);
    p := Parts(b.top, b.bot, b.right, b.left, b.mid);
  }

  /** The ortho_line_plot calls, each appending to the same list. */
  method PlotLines(o: Boundary.Outline, root: real -> real) returns (lines: seq<OrthoLines.Ortho>)
    requires Closed(o)
    ensures lines == ThicknessLines(o, root)
  {
    lines := OrthoLines.OrthoLinePlot(o.x, o.y, o.ix, o.iy, [], 1.0, 1, 1, root);
    lines := OrthoLines.OrthoLinePlot(o.x, o.y, o.x, o.y, lines, 1.0, 0, 1, root);
    assert lines == OrthoLines.OrthoSegments(o.x, o.y, o.ix, o.iy, |o.ix|, 1.0, 1, 1, root) +
      OrthoLines.OrthoSegments(o.x, o.y, o.x, o.y, |o.x|, 1.0, 0, 1, root);
    if o.second.Some? {
      var cell := o.second.value;
      lines := OrthoLines.OrthoLinePlot(o.x, o.y, cell.0, cell.1, lines, 1.0, 1, 1, root);
      lines := OrthoLines.OrthoLinePlot(cell.0, cell.1, o.ix, o.iy, lines, 0.5, 1, 1, root);
    }
  }

  /** The connector call: two webs, or three when the middle web is not empty. */
  method Connect(p: Parts, root: real -> real) returns (li: Result<Connector.Joints>)
    ensures li == Joints(p, root)
  {
    var webs := if p.mid != [] then [Values(p.left), Values(p.right), Values(p.mid)]
      else [Values(p.left), Values(p.right)];
    li := Connector.RunConnector(webs, Values(p.top), Values(p.bot), root);
  }

  /** The injection, then xysort, part_len and reorder of every member (the middle web only when present). */
  method PlaceMembers(p: Parts, j: Connector.Joints, root: real -> real) returns (placed: Parts)
    requires Fits(p, j)
    ensures placed == Placed(p, j, root) && AllDense(placed)
  {
    var q := Inject(p, j);
    var top := RefineMember(q.top, 1, root);
    var bot := RefineMember(q.bot, 1, root);
    var right := RefineMember(q.right, 0, root);
    var left := RefineMember(q.left, 0, root);
    var mid := q.mid;
    if mid != [] {
      mid := RefineMember(mid, 0, root);
    }
    placed := Parts(top, bot, right, left, mid);
  }

  /** The element loops of PSC_1CEL_XY and plotsegment for the five members. */
  method PlaceItems(p: Parts) returns (r: Result<seq<(string, Coords)>>)
    requires AllDense(p)
    ensures r == ItemsOf(p)
    ensures r.Ok? ==> AllShaped(r.value)
  {
    var sTop := MemberSegments(p.top);
    var sBot := MemberSegments(p.bot);
    var sLeft := MemberSegments(p.left);
    var sRight := MemberSegments(p.right);
    var sMid := MidSegments(p.mid);
    var top := PlotMember(sTop);
    if top.Err? {
      return Err(top.error);
    }
    var bot := PlotMember(sBot);
    if bot.Err? {
      return Err(bot.error);
    }
    var left := PlotMember(sLeft);
    if left.Err? {
      return Err(left.error);
    }
    var right := PlotMember(sRight);
    if right.Err? {
      return Err(right.error);
    }
    var mid := PlotMid(sMid);
    r := Ok(Items(top.value, bot.value, right.value, left.value, mid));
    ItemsShaped(p);
  }

  /** Every array_1 the members give is indexed within bounds by build_global_arrays. */
  lemma ItemsShaped(p: Parts)
    requires ItemsOf(p).Ok?
    ensures AllShaped(ItemsOf(p).value)
  {
    ItemsOk(p);
    MemberPolyline("top_flange", Values(p.top));
    MemberPolyline("bot_flange", Values(p.bot));
    MemberPolyline("right_web", Values(p.right));
    MemberPolyline("left_web", Values(p.left));
    MidLines(Values(p.mid));
    var items := ItemsOf(p).value;
    forall k | 0 <= k < |items| ensures Shaped(items[k]) {
    }
  }

  // ---------------------------------------------------------------------------------------------
  // What the stages give together
  // ---------------------------------------------------------------------------------------------

  /**
   * Every member dictionary the classification builds is numbered 1 .. n; the bottom flange and the
   * webs hold exactly the records of their own lines, in midpoint order.
   */
  lemma MembersDense(o: Boundary.Outline, root: real -> real)
    requires Closed(o)
    ensures AllDense(MembersOf(o, root))
    ensures var p, es := MembersOf(o, root), EntriesOf(o, root);
      var ms := Labels(es, o.external, o.internal);
      Values(p.bot) == Only(es, ms, Bottom) && Values(p.right) == Only(es, ms, RightWeb) &&
      Values(p.left) == Only(es, ms, LeftWeb) && Values(p.mid) == Only(es, ms, MidWeb)
  {
    var es := EntriesOf(o, root);
    var ms := Labels(es, o.external, o.internal);
    TopDense(es, ms);
    MemberDense(es, ms, Bottom);
    MemberDense(es, ms, RightWeb);
    MemberDense(es, ms, LeftWeb);
    MemberDense(es, ms, MidWeb);
    DenseValues(Only(es, ms, Bottom));
    DenseValues(Only(es, ms, RightWeb));
    DenseValues(Only(es, ms, LeftWeb));
    DenseValues(Only(es, ms, MidWeb));
  }

  lemma DenseValues(s: seq<Rec>)
    ensures IsDense(Dense(s)) && Values(Dense(s)) == s
  {
  }

  /** A member's records in the order xysort puts them: along x for the flanges, along y for the webs. */
  function Along(d: Dict<Rec>, x: int): seq<Rec>
    requires x == 0 || x == 1
  {
    SortBy(Values(d), Resample.SortKey(x))
  }

  /**
   * xysort, part_len and reorder give the member's records in sorted order with the interpolated
   * points in their gaps, numbered 1 .. n.
   */
  lemma RefineResampled(d: Dict<Rec>, x: int, root: real -> real)
    requires x == 0 || x == 1
    requires Resample.ShortGaps(Along(d, x), root)
    ensures Refine(d, x, root) == Dense(Resample.Resampled(Along(d, x), root))
  {
    var s := Along(d, x);
    assert Values(Dense(s)) == s;
    assert Resample.XySort(d, x) == Dense(s);
    Resample.ReorderPartLen(s, root);
  }

  /** No gap of a member needs 100 or more pieces, for each member the pipeline resamples. */
  predicate AllShort(q: Parts, root: real -> real)
  {
    Resample.ShortGaps(Along(q.top, 1), root) && Resample.ShortGaps(Along(q.bot, 1), root) &&
    Resample.ShortGaps(Along(q.right, 0), root) && Resample.ShortGaps(Along(q.left, 0), root) &&
    Resample.ShortGaps(Along(q.mid, 0), root)
  }

  /**
   * On numbered members, each placed member is its own records plus its joints, sorted along the
   * member, with the interpolated points in their gaps: the flanges gain the top (bottom) joint of
   * every web, each web its own two joints.
   */
  lemma PlacedMembers(p: Parts, j: Connector.Joints, root: real -> real)
    requires Fits(p, j) && AllDense(p) && AllShort(Inject(p, j), root)
    ensures var r, n := Placed(p, j, root), if HasMid(p) then 3 else 2;
      Values(r.top) == Resample.Resampled(SortBy(Values(p.top) + j.top[..n], Resample.XThenY), root) &&
      Values(r.bot) == Resample.Resampled(SortBy(Values(p.bot) + j.bottom[..n], Resample.XThenY), root) &&
      Values(r.right) == Resample.Resampled(SortBy(Values(p.right) + [j.top[1], j.bottom[1]], Resample.YThenX), root) &&
      Values(r.left) == Resample.Resampled(SortBy(Values(p.left) + [j.top[0], j.bottom[0]], Resample.YThenX), root) &&
      (HasMid(p) ==>
        Values(r.mid) == Resample.Resampled(SortBy(Values(p.mid) + [j.top[2], j.bottom[2]], Resample.YThenX), root)) &&
      (!HasMid(p) ==> r.mid == [])
  {
    var q := Inject(p, j);
    InjectAppends(p, j);
    RefineValues(q.top, 1, root);
    RefineValues(q.bot, 1, root);
    RefineValues(q.right, 0, root);
    RefineValues(q.left, 0, root);
    if HasMid(p) {
      RefineValues(q.mid, 0, root);
    }
  }

  lemma RefineValues(d: Dict<Rec>, x: int, root: real -> real)
    requires x == 0 || x == 1
    requires Resample.ShortGaps(Along(d, x), root)
    ensures Values(Refine(d, x, root)) == Resample.Resampled(Along(d, x), root)
  {
    RefineResampled(d, x, root);
    DenseValues(Resample.Resampled(Along(d, x), root));
  }

  /** The lines between consecutive points of a member, with the mean thickness of their ends. */
  function Polyline(s: seq<Rec>): (r: seq<Edge>)
  {
    var n := Elements(|s|);
    seq(n, i requires 0 <= i < n => Edge(At(s[i]), At(s[i + 1]), Mean(s[i].thk, s[i + 1].thk)))
  }

  /** The middle web's lines as build_global_arrays makes them from its arrays. */
  function MidPolyline(s: seq<Rec>): seq<Edge>
  {
    MidLines(s);
    PartEdges(("mid_web", MidCoordsOf(MidSegmentOf(s))))
  }

  /** plotsegment succeeds exactly when each flange and outer web has two points or more. */
  lemma ItemsOk(p: Parts)
    ensures ItemsOf(p).Ok? <==>
      |p.top| >= 2 && |p.bot| >= 2 && |p.left| >= 2 && |p.right| >= 2
    ensures ItemsOf(p).Err? ==> ItemsOf(p).error == IndexError
  {
    MemberCoords(Values(p.top));
    MemberCoords(Values(p.bot));
    MemberCoords(Values(p.left));
    MemberCoords(Values(p.right));
  }

  /**
   * The mesh's lines, in order: the polylines through the points of the top flange, the bottom
   * flange, the right web and the left web, then the middle web's lines.
   */
  lemma ItemsEdges(p: Parts)
    requires ItemsOf(p).Ok?
    ensures AllShaped(ItemsOf(p).value)
    ensures AllEdges(ItemsOf(p).value) ==
      Polyline(Values(p.top)) + Polyline(Values(p.bot)) + Polyline(Values(p.right)) + Polyline(Values(p.left)) +
      MidPolyline(Values(p.mid))
  {
    ItemsOk(p);
    ItemsShaped(p);
    var items := ItemsOf(p).value;
    MemberPolyline("top_flange", Values(p.top));
    MemberPolyline("bot_flange", Values(p.bot));
    MemberPolyline("right_web", Values(p.right));
    MemberPolyline("left_web", Values(p.left));
    FiveEdges(items);
  }

  /**
   * For a section the pipeline handles, the mesh's lines are the polylines through the placed top
   * flange, bottom flange, right web and left web, then the middle web's lines.
   */
  lemma SectionEdges(sec: Boundary.Section, root: real -> real)
    requires ItemsFor(sec, root).Ok?
    ensures Boundary.OutlineOf(sec).Ok? && Closed(Boundary.OutlineOf(sec).value)
    ensures var p := MembersOf(Boundary.OutlineOf(sec).value, root);
      Joints(p, root).Ok? && Fits(p, Joints(p, root).value) &&
      var r := Placed(p, Joints(p, root).value, root);
      AllShaped(ItemsFor(sec, root).value) &&
      AllEdges(ItemsFor(sec, root).value) ==
        Polyline(Values(r.top)) + Polyline(Values(r.bot)) + Polyline(Values(r.right)) + Polyline(Values(r.left)) +
        MidPolyline(Values(r.mid))
  {
    var o := Boundary.OutlineOf(sec).value;
    OutlineClosed(sec);
    var p := MembersOf(o, root);
    JointsFit(p, root);
    ItemsEdges(Placed(p, Joints(p, root).value, root));
  }

  lemma MemberPolyline(name: string, s: seq<Rec>)
    requires name != "mid_web" && |s| >= 2
    ensures CoordsOf(SegmentOf(s)).Ok?
    ensures var c := CoordsOf(SegmentOf(s)).value; Shaped((name, c)) && PartEdges((name, c)) == Polyline(s)
  {
    MemberLines(name, s);
  }

  lemma FiveEdges(items: seq<(string, Coords)>)
    requires |items| == 5 && AllShaped(items)
    ensures AllEdges(items) ==
      PartEdges(items[0]) + PartEdges(items[1]) + PartEdges(items[2]) + PartEdges(items[3]) + PartEdges(items[4])
  {
    var a, b, c, d, e := items[0], items[1], items[2], items[3], items[4];
    assert Shaped(a) && Shaped(b) && Shaped(c) && Shaped(d) && Shaped(e);
    var s1 := [] + [a];
    var s2 := s1 + [b];
    var s3 := s2 + [c];
    var s4 := s3 + [d];
    assert items == s4 + [e];
    EdgesSnoc([], a);
    assert AllEdges(s1) == PartEdges(a);
    EdgesSnoc(s1, b);
    EdgesSnoc(s2, c);
    EdgesSnoc(s3, d);
    assert AllEdges(s4) == PartEdges(a) + PartEdges(b) + PartEdges(c) + PartEdges(d);
    EdgesSnoc(s4, e);
  }

  lemma EdgesSnoc(items: seq<(string, Coords)>, x: (string, Coords))
    requires AllShaped(items) && Shaped(x)
    ensures AllShaped(items + [x]) && AllEdges(items + [x]) == AllEdges(items) + PartEdges(x)
  {
    assert (items + [x])[..|items|] == items;
  }
}
