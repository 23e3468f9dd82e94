/**
 * build_global_arrays (backend/midasfn_npg.py:912-953): the per-member coordinate arrays become one
 * node list without repeats, one line per element as a pair of node indices, and one thickness per
 * line. Members are visited in array_1's order; a node is added the first time it is met, and a line
 * refers to the first position of each of its end nodes.
 */
module GlobalArrays {
  import opened Common
  import opened Seqs
  import opened Segments

  /** One line of the mesh: its end nodes and its thickness. */
  datatype Edge = Edge(n1: Point, n2: Point, thk: real)

  /** array_1's items in insertion order. */
  function Items(top: Coords, bot: Coords, right: Coords, left: Coords, mid: Coords): seq<(string, Coords)>
  {
    [("top_flange", top), ("bot_flange", bot), ("right_web", right), ("left_web", left), ("mid_web", mid)]
  }

  /**
   * The indexing the loops do stays in range: the middle web reads `Thks[i // 2]` for i up to
   * `len(Xs) - 2`, the other members read points i and i + 1 for every thickness i.
   */
  predicate Shaped(item: (string, Coords))
  {
    var c := item.1;
    if item.0 == "mid_web" then |c.ys| >= |c.xs| && (|c.xs| >= 2 ==> |c.xs| - 1 <= 2 * |c.thks|)
    else |c.xs| >= |c.thks| + 1 && |c.ys| >= |c.thks| + 1
  }

  predicate AllShaped(items: seq<(string, Coords)>)
  {
    forall p :: 0 <= p < |items| ==> Shaped(items[p])
  }

  function Node(c: Coords, i: int): Point
    requires 0 <= i < |c.xs| && i < |c.ys|
  {
    Point(c.xs[i], c.ys[i])
  }

  /** The number of lines a member gives: len(Xs) - 1 for the middle web, len(Thks) for the others. */
  function LineCount(item: (string, Coords)): nat
  {
    if item.0 == "mid_web" then (if |item.1.xs| == 0 then 0 else |item.1.xs| - 1) else |item.1.thks|
  }

  /** The lines of one member: points i and i + 1, with thickness `Thks[i // 2]` or `Thks[i]`. */
  function PartEdges(item: (string, Coords)): (r: seq<Edge>)
    requires Shaped(item)
    ensures |r| == LineCount(item)
  {
    if item.0 == "mid_web" then MidEdges(item.1) else WebEdges(item.1)
  }

  function MidEdges(c: Coords): (r: seq<Edge>)
    requires |c.ys| >= |c.xs| && (|c.xs| >= 2 ==> |c.xs| - 1 <= 2 * |c.thks|)
    ensures |r| == if |c.xs| == 0 then 0 else |c.xs| - 1
  {
    var n := if |c.xs| == 0 then 0 else |c.xs| - 1;
    seq(n, i requires 0 <= i < n => Edge(Node(c, i), Node(c, i + 1), c.thks[Half(i)]))
  }

  function WebEdges(c: Coords): (r: seq<Edge>)
    requires |c.xs| >= |c.thks| + 1 && |c.ys| >= |c.thks| + 1
    ensures |r| == |c.thks|
  {
    seq(|c.thks|, i requires 0 <= i < |c.thks| => Edge(Node(c, i), Node(c, i + 1), c.thks[i]))
  }

  /** The lines of all members, in visiting order. */
  function AllEdges(items: seq<(string, Coords)>): seq<Edge>
    requires AllShaped(items)
    decreases |items|
  {
    if |items| == 0 then [] else AllEdges(items[..|items| - 1]) + PartEdges(items[|items| - 1])
  }

  /** The end nodes of the lines, in the order the loop meets them. */
  function Ends(es: seq<Edge>): seq<Point>
    decreases |es|
  {
    if |es| == 0 then [] else Ends(es[..|es| - 1]) + [es[|es| - 1].n1, es[|es| - 1].n2]
  }

  /** `nodes.index(x)`: the first position of x. */
  function IndexOf(s: seq<Point>, x: Point): (r: nat)
    requires x in s
    ensures r < |s| && s[r] == x && x !in s[..r]
  {
    if s[0] == x then 0
    else
      var r := 1 + IndexOf(s[1..], x);
      assert s[..r] == [s[0]] + s[1..][..r - 1];
      r
  }

  /**
   * nodes, lines and thicknesses after the loop has handled the lines es: the nodes are the end
   * nodes deduplicated in order of first appearance, and each line refers to positions of its end
   * nodes and carries its thickness.
   */
  predicate Built(es: seq<Edge>, nodes: seq<Point>, lines: seq<(nat, nat)>, thks: seq<real>)
  {
    nodes == FirstBy(Ends(es), Id) && |lines| == |es| && |thks| == |es| &&
    forall k :: 0 <= k < |es| ==> Refers(nodes, lines[k], es[k]) && thks[k] == es[k].thk
  }

  /** The line l joins two positions holding e's end nodes. */
  predicate Refers(nodes: seq<Point>, l: (nat, nat), e: Edge)
  {
    l.0 < |nodes| && l.1 < |nodes| && nodes[l.0] == e.n1 && nodes[l.1] == e.n2
  }

  /** Nodes added later do not move the ones a line refers to. */
  lemma RefersGrow(nodes: seq<Point>, more: seq<Point>, l: (nat, nat), e: Edge)
    requires Refers(nodes, l, e)
    ensures Refers(nodes + more, l, e)
  {
    assert (nodes + more)[..l.0] == nodes[..l.0];
    assert (nodes + more)[..l.1] == nodes[..l.1];
  }

  /** A node enters the list when it is not in it yet. */
  lemma AddNode(s: seq<Point>, x: Point)
    ensures FirstBy(s + [x], Id) == FirstBy(s, Id) + (if x in FirstBy(s, Id) then [] else [x])
  {
    FirstByAppend(s, x, Id);
    SeenId(s, x);
    SeenId(FirstBy(s, Id), x);
    FirstBySeen(s, Id, x);
  }

  lemma EndsSnoc(es: seq<Edge>, e: Edge)
    ensures Ends(es + [e]) == Ends(es) + [e.n1] + [e.n2]
  {
    assert (es + [e])[..|es|] == es;
  }

  /** One pass of either inner loop: add the two end nodes if new, then the line and its thickness. */
  method AddLine(ghost es: seq<Edge>, nodes: seq<Point>, lines: seq<(nat, nat)>, thks: seq<real>, e: Edge)
    returns (nodes': seq<Point>, lines': seq<(nat, nat)>, thks': seq<real>)
    requires Built(es, nodes, lines, thks)
    ensures Built(es + [e], nodes', lines', thks')
  {
    ghost var more: seq<Point> := [];
    nodes' := nodes;
    if e.n1 !in nodes' {
      nodes' := nodes' + [e.n1];
      more := [e.n1];
    }
    assert nodes' == nodes + more;
    if e.n2 !in nodes' {
      nodes' := nodes' + [e.n2];
      more := more + [e.n2];
    }
    assert nodes' == nodes + more;
    var idx1 := IndexOf(nodes', e.n1);
    var idx2 := IndexOf(nodes', e.n2);
    lines' := lines + [(idx1, idx2)];
    thks' := thks + [e.thk];
    assert nodes' == FirstBy(Ends(es + [e]), Id) by {
      NodesStep(es, e);
    }
    assert Refers(nodes + more, (idx1, idx2), e);
    BuiltStep(es, nodes, lines, thks, e, more, (idx1, idx2));
  }

  /** The Python membership tests add exactly the first occurrences. */
  lemma NodesStep(es: seq<Edge>, e: Edge)
    ensures var n0 := FirstBy(Ends(es), Id);
      var n1 := if e.n1 !in n0 then n0 + [e.n1] else n0;
      FirstBy(Ends(es + [e]), Id) == if e.n2 !in n1 then n1 + [e.n2] else n1
  {
    EndsSnoc(es, e);
    AddNode(Ends(es), e.n1);
    AddNode(Ends(es) + [e.n1], e.n2);
  }

  /** Appending a line whose indices are right keeps every earlier line right. */
  lemma BuiltStep(es: seq<Edge>, nodes: seq<Point>, lines: seq<(nat, nat)>, thks: seq<real>, e: Edge,
                  more: seq<Point>, l: (nat, nat))
    requires Built(es, nodes, lines, thks)
    requires nodes + more == FirstBy(Ends(es + [e]), Id) && Refers(nodes + more, l, e)
    ensures Built(es + [e], nodes + more, lines + [l], thks + [e.thk])
  {
    forall k | 0 <= k < |es| ensures Refers(nodes + more, lines[k], es[k]) {
      RefersGrow(nodes, more, lines[k], es[k]);
    }
  }

  lemma AllEdgesSnoc(items: seq<(string, Coords)>, p: int)
    requires AllShaped(items) && 0 <= p < |items|
    ensures AllShaped(items[..p]) && AllShaped(items[..p + 1])
    ensures AllEdges(items[..p + 1]) == AllEdges(items[..p]) + PartEdges(items[p])
  {
    assert items[..p + 1][..p] == items[..p];
  }

  lemma PrefixStep<T>(a: seq<T>, pe: seq<T>, i: int)
    requires 0 <= i < |pe|
    ensures a + pe[..i] + [pe[i]] == a + pe[..i + 1]
  {
    assert pe[..i + 1] == pe[..i] + [pe[i]];
  }

  /** build_global_arrays: the loops over array_1's members and over each member's lines. */
  method BuildGlobalArrays(items: seq<(string, Coords)>)
    returns (nodes: seq<Point>, lines: seq<(nat, nat)>, thicknesses: seq<real>)
    requires AllShaped(items)
    ensures Built(AllEdges(items), nodes, lines, thicknesses)
  {
    nodes, lines, thicknesses := [], [], [];
    for p := 0 to |items|
      invariant AllShaped(items[..p])
      invariant Built(AllEdges(items[..p]), nodes, lines, thicknesses)
    {
      AllEdgesSnoc(items, p);
      var part, data := items[p].0, items[p].1;
      var xs, ys, tks := data.xs, data.ys, data.thks;
      ghost var done := AllEdges(items[..p]);
      ghost var pe := PartEdges(items[p]);
      var n := if part == "mid_web" then (if |xs| == 0 then 0 else |xs| - 1) else |tks|;
      assert done + pe[..0] == done;
      for i := 0 to n
        invariant Built(done + pe[..i], nodes, lines, thicknesses)
      {
        var n1 := Point(xs[i], ys[i]);
        var n2 := Point(xs[i + 1], ys[i + 1]);
        var t := if part == "mid_web" then tks[i / 2] else tks[i];
        assert i / 2 == Half(i);
        assert pe[i] == Edge(n1, n2, t);
        PrefixStep(done, pe, i);
        nodes, lines, thicknesses := AddLine(done + pe[..i], nodes, lines, thicknesses, Edge(n1, n2, t));
      }
      assert pe[..n] == pe;
    }
    assert items[..|items|] == items;
  }

  // ---------------------------------------------------------------------------------------------
  // What the arrays promise
  // ---------------------------------------------------------------------------------------------

  /**
   * The node list has no repeats, holds exactly the end nodes of the lines, and every line joins the
   * two nodes at its indices, which are the only positions of those nodes (what `nodes.index` gives).
   */
  lemma BuiltFacts(es: seq<Edge>, nodes: seq<Point>, lines: seq<(nat, nat)>, thks: seq<real>)
    requires Built(es, nodes, lines, thks)
    ensures forall i, j :: 0 <= i < j < |nodes| ==> nodes[i] != nodes[j]
    ensures forall x :: x in nodes <==> x in Ends(es)
    ensures forall k :: 0 <= k < |lines| ==>
      lines[k].0 < |nodes| && lines[k].1 < |nodes| && nodes[lines[k].0] == es[k].n1 && nodes[lines[k].1] == es[k].n2
    ensures forall k, i :: 0 <= k < |lines| && 0 <= i < |nodes| && nodes[i] == es[k].n1 ==> i == lines[k].0
    ensures forall k, i :: 0 <= k < |lines| && 0 <= i < |nodes| && nodes[i] == es[k].n2 ==> i == lines[k].1
    ensures |lines| == |thks| == |es|
  {
    FirstByDistinct(Ends(es), Id);
    forall x ensures x in nodes <==> x in Ends(es) {
      FirstBySeen(Ends(es), Id, x);
      SeenId(Ends(es), x);
      SeenId(nodes, x);
    }
  }

  // ---------------------------------------------------------------------------------------------
  // The lines of one member
  // ---------------------------------------------------------------------------------------------

  function At(r: Rec): Point
  {
    Point(r.xm, r.ym)
  }

  /**
   * A flange or outer web with points s (at least two) gives one line per element: from point i to
   * point i + 1, with the element's mean thickness.
   */
  lemma MemberLines(name: string, s: seq<Rec>)
    requires name != "mid_web" && |s| >= 2
    ensures CoordsOf(SegmentOf(s)).Ok?
    ensures var c := CoordsOf(SegmentOf(s)).value;
      Shaped((name, c)) && var es := PartEdges((name, c));
      |es| == |s| - 1 &&
      forall i :: 0 <= i < |s| - 1 ==> es[i] == Edge(At(s[i]), At(s[i + 1]), Mean(s[i].thk, s[i + 1].thk))
  {
    MemberCoords(s);
    var c := CoordsOf(SegmentOf(s)).value;
    WebLines(c, s);
    assert PartEdges((name, c)) == WebEdges(c);
  }

  /** The lines of a member whose arrays are the points' midpoints and the elements' thicknesses. */
  lemma WebLines(c: Coords, s: seq<Rec>)
    requires |s| >= 2 && c.xs == XmOf(s) && c.ys == YmOf(s) && c.thks == Thks(s)
    ensures |c.xs| >= |c.thks| + 1 && |c.ys| >= |c.thks| + 1
    ensures var es := WebEdges(c);
      |es| == |s| - 1 &&
      forall i :: 0 <= i < |s| - 1 ==> es[i] == Edge(At(s[i]), At(s[i + 1]), Mean(s[i].thk, s[i + 1].thk))
  {
    assert |c.thks| == |s| - 1;
    var es := WebEdges(c);
    forall i | 0 <= i < |s| - 1
      ensures es[i] == Edge(At(s[i]), At(s[i + 1]), Mean(s[i].thk, s[i + 1].thk))
    {
      assert Node(c, i) == At(s[i]) && Node(c, i + 1) == At(s[i + 1]);
      assert c.thks[i] == Mean(s[i].thk, s[i + 1].thk);
    }
  }

  /**
   * The middle web with points s gives, for each element k, first a line from the foot of point k
   * (at x = 0) to itself, then (except after the last element) a line from point k to point k + 1;
   * both carry element k's thickness.
   */
  lemma MidLines(s: seq<Rec>)
    ensures var c := MidCoordsOf(MidSegmentOf(s)); var n := Elements(|s|);
      Shaped(("mid_web", c)) && var es := PartEdges(("mid_web", c));
      |es| == (if n == 0 then 0 else 2 * n - 1) &&
      forall k :: 0 <= k < n ==> MidLine(es, s, k)
  {
    var c := MidCoordsOf(MidSegmentOf(s));
    MidCoords(s);
    MidLinesOf(c, s);
  }

  /** The same for any arrays shaped like the middle web's. */
  lemma MidLinesOf(c: Coords, s: seq<Rec>)
    requires MidShaped(c, s)
    ensures var n := Elements(|s|);
      Shaped(("mid_web", c)) && var es := PartEdges(("mid_web", c));
      |es| == (if n == 0 then 0 else 2 * n - 1) &&
      forall k :: 0 <= k < n ==> MidLine(es, s, k)
  {
    var es := MidEdges(c);
    assert PartEdges(("mid_web", c)) == es;
    forall k | 0 <= k < Elements(|s|)
      ensures MidLine(es, s, k)
    {
      MidLineAt(c, s, k);
    }
  }

  /**
   * Lines 2k and 2k + 1 of the middle web: a line from point k to itself, then (unless k is the last
   * element) a line from point k to point k + 1, both with the thickness of element k.
   */
  predicate MidLine(es: seq<Edge>, s: seq<Rec>, k: int)
    requires 0 <= k && k + 1 < |s|
  {
    var n := Elements(|s|);
    2 * k < |es| &&
    es[2 * k] == Edge(Point(0.0, s[k].ym), Point(0.0, s[k].ym), Mean(s[k].thk, s[k + 1].thk)) &&
    (k + 1 < n ==>
      2 * k + 1 < |es| &&
      es[2 * k + 1] == Edge(Point(0.0, s[k].ym), Point(0.0, s[k + 1].ym), Mean(s[k].thk, s[k + 1].thk)))
  }

  lemma MidNode(c: Coords, s: seq<Rec>, i: int)
    requires MidShaped(c, s) && 0 <= i < |c.xs|
    ensures Node(c, i) == Point(0.0, s[Half(i)].ym)
  {
  }

  lemma MidLineAt(c: Coords, s: seq<Rec>, k: int)
    requires MidShaped(c, s) && 0 <= k < Elements(|s|)
    ensures |c.ys| >= |c.xs| && (|c.xs| >= 2 ==> |c.xs| - 1 <= 2 * |c.thks|)
    ensures MidLine(MidEdges(c), s, k)
  {
    var n := Elements(|s|);
    var es := MidEdges(c);
    Halves(k);
    MidNode(c, s, 2 * k);
    MidNode(c, s, 2 * k + 1);
    assert es[2 * k] == Edge(Node(c, 2 * k), Node(c, 2 * k + 1), c.thks[k]);
    if k + 1 < n {
      Halves(k + 1);
      MidNode(c, s, 2 * k + 2);
      assert es[2 * k + 1] == Edge(Node(c, 2 * k + 1), Node(c, 2 * k + 2), c.thks[k]);
    }
  }
}
