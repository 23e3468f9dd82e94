# Centreline of a PSC one-cell / two-cell box girder section

This project models the centreline pipeline of `backend/midasfn_npg.py`.
That module reads the dimension lists of a PSC box section (`vSIZE_PSC_A` .. `vSIZE_PSC_D`) and its top-fibre distance `Zt`. It turns them into a centreline mesh for a line-to-plate conversion:

1. **Outlines** (`PSC_1CEL_XY`). It draws the outer outline and the inner cell outline(s). Each is nine vertices of the right half, mirrored in the section axis. `unique_lists` removes repeated points, and each ring is closed. The boundary stage runs `unique_lists` as written: when a point occurs three or more times in one list pair, it deletes a wrong entry or raises `IndexError`, and the model does the same.
2. **Thickness lines.** `ortho_line_plot` drops perpendiculars from the vertices of one outline onto the edges of another. `perpendicular_point` does the geometry. The lines keep a length between 0.0001 and `d` and pass the `h`/`v` filters.
3. **Table.** A dictionary of the lines without repeated end points is built, and the lines are sorted by midpoint.
4. **Members.** The lines are split into five member dictionaries (top flange, bottom flange, right, left and middle web), using `point_on_line` against reference lines of the outer outline.
5. **Joints.** `connector` finds where the webs meet the flanges:
   - the nearest perpendicular foot at the top;
   - a line intersection (`intersect`) at the bottom — the right web mirrors the left, and the middle web is met level with the lowest bottom-flange point.

   The joints are injected into the members under keys 0.0001 .. 0.0003.
6. **Resampling.** Each member is sorted along its direction (`xysort`), subdivided into elements of at most 0.3 (`part_len`) and renumbered (`reorder`).
7. **Arrays.** The element lists of each member become per-member coordinate arrays (`plotsegment`). Those become one node list without repeats, index-pair lines and thicknesses (`build_global_arrays`).

Modelling conventions:

- Coordinates are `real`. Python's `** 0.5` is a parameter `root: real -> real`. Facts that need it to be a true square root assume `IsRootOf(root, v)`.
- A Python dictionary is an association list `seq<(real, V)>` in insertion order, because insertion order decides stable sorts and first maxima.
- The exceptions the code can raise on the modelled paths are the values of `Common.Error`, returned through `Result`:
  - an unsupported shape;
  - `IndexError`;
  - `max()` of an empty member;
  - division by zero in `intersect`;
  - a web top without a perpendicular foot, for which the Python code stores `None` and fails later.
- Each stage is a method with the source's loops, proved equal to a reference function. The properties are proved about those functions.
- `Pipeline.CentreLine` chains all the stages for one section.
- When no point occurs three times in one list pair (`Boundary.OnceEachRing`), the outer outline has at most 16 distinct vertices, not 17: `unique_lists` drops the mirror copies of both axis vertices (x0 = x8 = 0), not only one.
- The source's quirks are reproduced as written:
  - `t =+ 1` resets the top-flange counter;
  - the middle web appends its y pair twice and no x pair;
  - alternate middle-web lines join a node to itself;
  - the top-joint scan skips the last edge of each flange;
  - the keys `i + 0.01 j` of `part_len` are kept.

## Model

| member | source | states |
|---|---|---|
| UniqueLists.UniqueLists | backend/midasfn_npg.py:370-380 | Uses the corrected deletion order. Lists of different lengths come back unchanged. Otherwise: the result's pairs are the first occurrences of the input pairs; no two positions share a pair; survivors keep their relative order; every pair's earliest occurrence survives. |
| UniqueLists.UniqueListsAsWritten | backend/midasfn_npg.py:370-380 | The code as written (both loops, `sorted(..., reverse=True)` and the paired `del`s) computes the reference `AsWritten`, including its `IndexError`. |
| UniqueLists.CollectRemovals | backend/midasfn_npg.py:373-377 | The nested `i < j` loops list, for every `i`, each later position holding the same pair as `i`. |
| UniqueLists.CollectRemovalsOnce | backend/midasfn_npg.py:373-377 | The corrected scan lists each repeated position once. |
| UniqueLists.DeleteIndices | backend/midasfn_npg.py:378-380 | Deleting from both lists in a given order gives the pairs of the reference deletion. It fails with `IndexError` exactly when that deletion does. |
| UniqueLists.RemovalsElems | backend/midasfn_npg.py:373-377 | A position is listed after the first `i` rows iff some earlier row `< i` holds its pair. |
| UniqueLists.RemovalsAreRepeats | backend/midasfn_npg.py:373-377 | The complete index list holds exactly the positions whose pair occurred before. |
| UniqueLists.RowSound | backend/midasfn_npg.py:375-377 | Every index found in row `i` lies in the scanned range and repeats the pair at `i`. |
| UniqueLists.RowComplete | backend/midasfn_npg.py:375-377 | Every position in the scanned range that repeats the pair at `i` is found. |
| UniqueLists.DeleteDescending | backend/midasfn_npg.py:378-380 | Deleting distinct in-range indices in descending order removes exactly those positions and keeps the rest in order. |
| UniqueLists.KeepOutRepeats | backend/midasfn_npg.py:370-380 | Removing exactly the positions whose pair was seen earlier leaves the first occurrences. |
| UniqueLists.SortDescDistinct | backend/midasfn_npg.py:378 | Sorting distinct indices with `reverse=True` gives a strictly descending list of the same indices. |
| UniqueLists.CorrectedRemovesRepeats | backend/midasfn_npg.py:370-380 | Deleting the once-listed repeats in descending order succeeds and leaves the first occurrences. |
| UniqueLists.CorrectedIsFirstOccurrences | backend/midasfn_npg.py:370-380 | The corrected function leaves lists of different lengths unchanged. Otherwise it returns the two coordinate lists of the first occurrences. |
| UniqueLists.AsWrittenAgrees | backend/midasfn_npg.py:370-380 | When no index is listed twice (no pair occurs three or more times), the code as written equals the corrected function. |
| UniqueLists.TripleRemovals | backend/midasfn_npg.py:373-377 | For three equal pairs the code lists indices 1, 2, 2. |
| UniqueLists.TripleOrder | backend/midasfn_npg.py:378 | The descending order of 1, 2, 2 is 2, 2, 1. |
| UniqueLists.TripleDelete | backend/midasfn_npg.py:378-380 | Deleting 2, 2, 1 from three entries raises `IndexError`. |
| UniqueLists.AsWrittenFailsOnTriple | backend/midasfn_npg.py:370-380 | `unique_lists([0,0,0], [0,0,0])` as written raises `IndexError`. |
| Boundary.OuterVertices | backend/midasfn_npg.py:396-423 | The nine outer vertices satisfy: x0 = x8 = 0; x1 = x2 = ob0+ob3+ob5; y1 = y0 + diff_ht; y8 = y7. The higher top vertex lies at Zt/1000, and the soffit lies oht below y1. |
| Boundary.InnerVertices | backend/midasfn_npg.py:428-451 | ix0 = ix8 is 0 for 1CEL and ib7 otherwise. iy0 is ih0 below the outer top at the axis, and iy8 is ih9 above the soffit. The lower haunch rises ih7 above the cell bottom. |
| Boundary.CloseRing | backend/midasfn_npg.py:458-460 | `unique_lists` as written, then appending the first point, gives `RingOf(xs, ys)`: the error of `unique_lists`, `IndexError` for an empty list, or the closed ring. |
| Boundary.RingOf | backend/midasfn_npg.py:458-460 | A ring that is built is closed (its last point is its first), has equal-length lists and at least two points. |
| Boundary.RingOfAgrees | backend/midasfn_npg.py:370-380 | When no index is listed twice, the ring built as written is the intended ring `Ring(xs, ys)`. |
| Boundary.RingOfTriple | backend/midasfn_npg.py:370-380 | A point met three times makes the ring's `unique_lists` call raise `IndexError`. |
| Boundary.Ring | backend/midasfn_npg.py:458-460 | The intended ring (each point's first occurrence, then the first point again) is closed and has at least two points. |
| Boundary.BuildOutline | backend/midasfn_npg.py:383-475 | The boundary code computes the reference `OutlineOf`:<br>- a section that is not PSC `...CEL` gives `UnsupportedShape`;<br>- a short dimension list gives `IndexError`;<br>- the rings are closed in the code's order (outer; then the second cell before the first for two cells), and the first `unique_lists` error is raised. |
| Boundary.RingPoints | backend/midasfn_npg.py:458-460 | The intended ring keeps exactly the points of the input. |
| Boundary.RingDistinct | backend/midasfn_npg.py:458-460 | Apart from the closing point, no point of the intended ring repeats. |
| Boundary.MirroredRingSymmetric | backend/midasfn_npg.py:424-427 | The intended ring of vertices followed by their x-negated copies in reverse order is symmetric about x = 0. |
| Boundary.SecondCellMirrors | backend/midasfn_npg.py:456-468 | The intended ring of the negated, reversed lists holds exactly the mirror images of the points of the intended ring of the lists. |
| Boundary.AxisPointsMerge | backend/midasfn_npg.py:424-458 | With both axis vertices at x = 0, both coincide with their mirror copies and are dropped: the closed ring has at most 2n − 1 points, so at most 2n − 2 distinct ones. |
| Boundary.MirroredRing | backend/midasfn_npg.py:424-460 | The intended ring of nine vertices starting and ending on the axis, and their mirror copies, is a `SymmetricRing`: closed, 2 to 17 entries, symmetric about x = 0, and no entry but the closing one repeats (at most 16 distinct points). |
| Boundary.OutlineRings | backend/midasfn_npg.py:383-471 | For a supported section with every dimension present and no index listed twice (`OnceEachRing`), the boundary stage succeeds, keeps the vertices, and its rings are the intended rings of the outer, inner and (for two cells only) second-cell lists. |
| Boundary.OuterRing | backend/midasfn_npg.py:396-460 | Under `OnceEachRing`, the boundary stage succeeds and the outer ring is a `SymmetricRing`. |
| Boundary.OuterOf | backend/midasfn_npg.py:383-471 | Whenever the boundary stage succeeds, the section is supported and sized, and each ring is what `unique_lists` as written and the closing give for its lists: the vertices then their mirror copies (outer; inner for one cell), the inner vertices and their mirror image (two cells). |
| Boundary.OneCellInnerRing | backend/midasfn_npg.py:428-471 | Under `OnceEachRing`, a one-cell section succeeds with no second cell, and its inner ring is a `SymmetricRing`. |
| Boundary.TwoCellRings | backend/midasfn_npg.py:428-471 | Under `OnceEachRing`, a two-cell section succeeds with a second cell ring. Both cell rings have at most ten points, and the second holds exactly the mirror images of the first's points. |
| Geometry.Foot | backend/midasfn_npg.py:479-485 | The computed foot lies on line P1P2, and P3 − foot is orthogonal to the edge. For a vertical edge it is (x1, y3). |
| Geometry.SlopeFoot | backend/midasfn_npg.py:479-483 | The slope-intercept formulas give a point on the line whose offset to P3 is orthogonal to (1, m). |
| Geometry.FootUnique | backend/midasfn_npg.py:477-485 | For distinct P1, P2 only one point of the line is an orthogonal foot. |
| Geometry.InSpanIsSegment | backend/midasfn_npg.py:487-491 | For a point on the line, the span check holds iff the point is P1 + t(P2 − P1) with 0 ≤ t ≤ 1. |
| Geometry.PerpendicularFacts | backend/midasfn_npg.py:477-494 | A result holds a foot on the line, orthogonal to the edge, and the thickness `root(‖P3 − foot‖²)`. With l = 0 there is a result iff the foot is in the span. With l = 1 there is always a result, and with any other l there is none. |
| Geometry.Intersect | backend/midasfn_npg.py:510-518 | There is no result (a division by zero) iff the lines are parallel. Otherwise the point lies on both lines. |
| Geometry.IntersectOnBoth | backend/midasfn_npg.py:511-517 | The parametric point P1 + t(P2 − P1) with t·den = det_t lies on both lines. |
| Geometry.IntersectUnique | backend/midasfn_npg.py:510-518 | For non-parallel lines the intersection is the only point on both. |
| Geometry.PointOnLineParametric | backend/midasfn_npg.py:542-547 | The collinearity test holds iff the point is P1 + t(P2 − P1) for some t. |
| OrthoLines.OrthoLinePlot | backend/midasfn_npg.py:520-540 | The loops only append to `lines`: the result is the old list followed by the accepted perpendiculars, vertex by vertex and edge by edge. |
| OrthoLines.EdgeLoop | backend/midasfn_npg.py:524-540 | The inner loop over the edges of curve 1 appends that vertex's accepted perpendiculars. |
| OrthoLines.EdgeHitsIff | backend/midasfn_npg.py:524-540 | A tuple is appended for a vertex iff it is the accepted perpendicular onto one of the scanned edges. |
| OrthoLines.OrthoSegmentsIff | backend/midasfn_npg.py:520-540 | A tuple is appended iff it is accepted for some vertex of curve 2 and some edge of curve 1. |
| OrthoLines.OrthoSegmentFacts | backend/midasfn_npg.py:520-540 | Every appended tuple:<br>- starts at a vertex of curve 2 and ends at the foot on an edge of curve 1;<br>- has thickness `root` of the squared length, with 0.0001 ≤ thk ≤ d;<br>- has y1 ≠ y2 when h = 0 and x1 ≠ x2 when v = 0. |
| LineTable.ToEntry | backend/midasfn_npg.py:668-685 | A stored entry keeps the end points and the thickness. Its slope is rise/run, or 10000 for a vertical line, and xm, ym are the midpoint. |
| LineTable.UpdateFlag | backend/midasfn_npg.py:672-675 | The inner scan yields 0 exactly when a stored line already has the same two endpoints, and 1 otherwise. |
| LineTable.BuildTable | backend/midasfn_npg.py:664-686 | The dedup loop keeps the first line of each end-point quadruple, under its index in `ortho_lines`. |
| LineTable.TableFacts | backend/midasfn_npg.py:664-686 | The table's keys are distinct, and no two entries share end points. Each entry is the line at its key. Every line's end points are represented. The table is a subsequence of the indexed lines. |
| LineTable.Ordered | backend/midasfn_npg.py:690-691 | The ordered entries are a permutation of the table, sorted by (xm, ym). The sort is stable: entries with equal keys keep table order. |
| Members.Classify | backend/midasfn_npg.py:695-715 | The classification loop, with its counters and dictionary updates, computes the reference `Classified`. |
| Members.Labels | backend/midasfn_npg.py:697-715 | Each line gets the member of the first `point_on_line` test in the elif chain that holds for its foot. |
| Members.MemberDense | backend/midasfn_npg.py:695-715 | The bottom flange and the three webs are numbered 1..n and hold exactly their lines in order. Their counters are n + 1. |
| Members.TopDense | backend/midasfn_npg.py:697-703 | The top flange is numbered 1..n even with `t =+ 1`. Every record in it is a top-flange line. |
| Members.TopWithoutLeft | backend/midasfn_npg.py:697-703 | When no line falls on the left half of the top flange, the top flange holds exactly the right-half lines, numbered 1..n. |
| Members.LevelDeckHasNoLeftBranch | backend/midasfn_npg.py:697-703 | When the deck is level at the axis, no foot reaches the `t =+ 1` branch. |
| Members.LevelDeckTop | backend/midasfn_npg.py:695-715 | For a level deck the top flange holds exactly its lines, numbered 1..n. |
| Members.LeftHalfFirstState | backend/midasfn_npg.py:697-703 | When all left-half lines come before the right-half lines, each left-half line restarts the counter and overwrites key 1. The right-half lines then fill 1..n. |
| Members.LeftHalfOverwritten | backend/midasfn_npg.py:697-703 | In that order, with at least one right-half line, the left-half lines are lost. The top flange is exactly the right-half lines. |
| Members.OnlyHas | backend/midasfn_npg.py:695-715 | A member that received a line is not empty. |
| Connector.Topmost | backend/midasfn_npg.py:590-593 | `max(dic, key=ym)` gives the first record of greatest ym. |
| Connector.Lowest | backend/midasfn_npg.py:594-597 | `min(dic, key=ym)` gives the first record of least ym. |
| Connector.LowerTwo | backend/midasfn_npg.py:496-501 | `lower_2` gives the two lowest points, or fewer if there are fewer records, lowest first. The two come from different records; the second is the lowest of the records other than the first. |
| Connector.LeftTwo | backend/midasfn_npg.py:503-508 | `left_2` gives the two leftmost points, or fewer if there are fewer records, leftmost first. The two come from different records; the second is the leftmost of the records other than the first. |
| Connector.FirstTwoBy | backend/midasfn_npg.py:496-508 | The first two records of a stable sort are records of the input at two different positions. The first is minimal; the second is minimal among the others. |
| Connector.SecondOfSorted | backend/midasfn_npg.py:496-508 | In a sorted permutation, the first two entries sit at two different positions of the input, and the second is minimal among all but the first. |
| Connector.ScanFacts | backend/midasfn_npg.py:602-611 | The running `dist` minimum:<br>- never increases and ends at or below every candidate thickness;<br>- when some candidate is at most the start value, the foot kept is that of the last candidate attaining the minimum;<br>- with no such candidate, nothing changes. |
| Connector.ScanAppend | backend/midasfn_npg.py:603-611 | Scanning two flanges is scanning the second from the state the first left. |
| Connector.ScanFlange | backend/midasfn_npg.py:605-611 | The loop over one flange (skipping its last edge) computes the reference scan of its perpendicular hits. |
| Connector.NearestFootScan | backend/midasfn_npg.py:601-611 | The scan over both flanges, starting from 999999, computes the reference nearest foot. |
| Connector.WebExtremes | backend/midasfn_npg.py:589-597 | It reports whether every web is non-empty. If so, it gives each web's topmost and lowest records. |
| Connector.TopJointScan | backend/midasfn_npg.py:601-611 | The scan loop computes the reference top joints, web by web. |
| Connector.TopJointFacts | backend/midasfn_npg.py:601-611 | A web's top joint exists iff some perpendicular from its top point has thickness at most 999999. It is the foot of the last such hit of least thickness, and carries the top record's thickness. |
| Connector.BottomJoints | backend/midasfn_npg.py:612-625 | On success, the bottom joints fit the web and flange lines. The error is `IndexError` exactly when the left web or the bottom flange has fewer than two records, or the middle web does while the left web and bottom flange lines are not parallel. Otherwise the error is division by zero. |
| Connector.SideBottom | backend/midasfn_npg.py:612-619 | The left bottom joint lies on both the web line and the flange line. It fails with `IndexError` iff a side has fewer than two points, and with division by zero iff the lines are parallel. |
| Connector.MidBottom | backend/midasfn_npg.py:614-625 | The middle joint lies on the middle web's line and on the horizontal through the lowest bottom-flange point. |
| Connector.LevelJoint | backend/midasfn_npg.py:622-623 | A point on the line (0, y2)–(5, y2) has y = y2. |
| Connector.Assemble | backend/midasfn_npg.py:601-626 | The joints exist iff the bottom joints exist and every top foot was found. Top joints are the feet found. Bottom joints are the intersections, carrying the lowest record's thickness. |
| Connector.RunConnector | backend/midasfn_npg.py:580-626 | The connector code computes the reference `Connect`, including its errors for empty members. |
| Connector.ConnectFacts | backend/midasfn_npg.py:580-626 | On success:<br>- there is one top joint and one bottom joint per web, with the thicknesses of the web's extreme records;<br>- the right bottom joint is the x-mirror of the left;<br>- the left joint is on the left web's and the bottom flange's lines;<br>- the middle joint is on its web's line, level with the lowest bottom-flange point. |
| Injection.AddJointsReads | backend/midasfn_npg.py:722-741 | After the flange update, keys 0.0001, 0.0002 (and 0.0003 with a middle web) read the joints. All other keys read as before. |
| Injection.AddEndsReads | backend/midasfn_npg.py:742-760 | After the web update, 0.0001 reads the top joint and 0.0002 the bottom joint. All other keys read as before. |
| Injection.InjectReads | backend/midasfn_npg.py:721-760 | Every member reads its joints under the injected keys and its old records elsewhere. Without a middle web the middle member stays empty. |
| Injection.AddJointsAppends | backend/midasfn_npg.py:722-741 | On a numbered flange the joints are new entries appended in key order. |
| Injection.AddEndsAppends | backend/midasfn_npg.py:742-760 | On a numbered web the two joints are new entries at the end. |
| Injection.InjectAppends | backend/midasfn_npg.py:721-760 | On numbered members, each member's records are its old records followed by its joints: every web top (bottom) joint for a flange, and its own two joints for a web. |
| Injection.DenseLacks | backend/midasfn_npg.py:722-760 | A key strictly between 0 and 1 is not in a dictionary numbered 1..n, so the injection never overwrites. |
| Resample.XySort | backend/midasfn_npg.py:567-575 | The result is numbered 1..n, holds a permutation of the values, and is sorted by (xm, ym) for x = 1 or (ym, xm) for x = 0. |
| Resample.XySortStable | backend/midasfn_npg.py:567-575 | Records with equal keys keep their dictionary order. |
| Resample.Reorder | backend/midasfn_npg.py:561-565 | The result is numbered 1..n and lists the values in key order. They are a permutation of the input values. |
| Resample.Pieces | backend/midasfn_npg.py:553-554 | `nos` is the least n ≥ 1 with dist < 0.3·n. |
| Resample.PiecesIsTrunc | backend/midasfn_npg.py:553-554 | For dist > 0.3 that is `int(dist/0.3) + 1`. |
| Resample.RunPartLen | backend/midasfn_npg.py:549-559 | The update loops compute the reference `PartLen` on a numbered dictionary. |
| Resample.RunRow | backend/midasfn_npg.py:552-559 | The body of the outer loop computes the reference `Row` for gap i: a gap of at most 0.3 is kept, a longer one is filled. |
| Resample.RunFill | backend/midasfn_npg.py:555-559 | The inner loop inserts the points `j = 1 .. nos − 1`. |
| Resample.RowsKeepsKeys | backend/midasfn_npg.py:551-559 | No key disappears during `part_len`. |
| Resample.Block | backend/midasfn_npg.py:555-559 | Point j sits at key i + 0.01 j and interpolates thk, xm and ym at j/nos. |
| Resample.PartLenAppends | backend/midasfn_npg.py:549-559 | With short enough gaps, the original entries are unchanged and every gap's interpolated points are appended after them. |
| Resample.FillAppends | backend/midasfn_npg.py:555-559 | The first t passes of the inner loop append the first t points of the gap's block. |
| Resample.RowCut | backend/midasfn_npg.py:552-554 | A gap longer than 0.3 receives exactly `Pieces(dist) − 1` points. |
| Resample.RowKeep | backend/midasfn_npg.py:552-553 | A gap of at most 0.3 is left alone. |
| Resample.ShortGapPieces | backend/midasfn_npg.py:553-556 | A gap below 30 is cut into at most 100 pieces, so its keys stay below i + 1. |
| Resample.ResampledSorted | backend/midasfn_npg.py:549-565 | Original and inserted keys are strictly increasing in the order of the reference chain. |
| Resample.ReorderPartLen | backend/midasfn_npg.py:549-565 | `reorder(part_len(d))` of a numbered member is the member with each gap's points inserted in place, numbered 1..n. |
| Resample.KeyedPermutation | backend/midasfn_npg.py:549-559 | The keyed chain is a permutation of the dictionary `part_len` leaves. |
| Resample.InterpOnSegment | backend/midasfn_npg.py:557-559 | Every inserted point lies strictly between the two ends of its gap, on the segment joining them. |
| Resample.SubGap | backend/midasfn_npg.py:554-559 | Consecutive points of one gap are dist/nos apart (stated on squares). |
| Resample.PiecesShort | backend/midasfn_npg.py:552-559 | With a true square root, every sub-gap is shorter than 0.3. |
| Resample.PieceBelow | backend/midasfn_npg.py:554-559 | A gap shorter than nos times 0.3 (stated on squares), cut into nos pieces, gives pieces shorter than 0.3. |
| Resample.PiecesCover | backend/midasfn_npg.py:552-554 | With a true square root, dist² < (0.3·nos)². |
| Segments.MemberSegments | backend/midasfn_npg.py:789-823 | The element loop of a flange or outer web gives the reference element lists: next point first, and mean thickness. |
| Segments.MidSegments | backend/midasfn_npg.py:825-832 | The middle-web loop appends each y pair twice, no x pair, and one mean thickness per element. |
| Segments.Half | backend/midasfn_npg.py:825-832 | `i // 2` is the element of the i-th doubled entry. |
| Segments.DoubledAt | backend/midasfn_npg.py:830-831 | Entries 2k and 2k+1 of the doubled y list are both element k's pair. |
| Segments.PlotMember | backend/midasfn_npg.py:849-888 | plotsegment's loop for a flange or web gives the reference arrays, and `IndexError` for an empty member. |
| Segments.PlotMid | backend/midasfn_npg.py:889-907 | plotsegment's middle-web branch gives x = 0 for every entry and the second entry of each y pair. |
| Segments.MemberCoords | backend/midasfn_npg.py:782-888 | The arrays of a member exist iff it has at least two points. They are then its xm values, its ym values and the element thicknesses. |
| Segments.MidCoordAt | backend/midasfn_npg.py:825-907 | The middle web's i-th node is (0, ym of point `i // 2`). There are twice as many nodes as elements. |
| GlobalArrays.IndexOf | backend/midasfn_npg.py:932-948 | `nodes.index(n)` is the first position holding n. |
| GlobalArrays.AddLine | backend/midasfn_npg.py:924-951 | One loop step keeps the arrays built for the edges so far. |
| GlobalArrays.BuildGlobalArrays | backend/midasfn_npg.py:912-953 | The loops give the arrays built from all member edges in `array_1` order. |
| GlobalArrays.BuiltFacts | backend/midasfn_npg.py:912-953 | For built arrays:<br>- nodes has no repeats and holds exactly the edge ends;<br>- every line's indices are in range, at the first positions of its edge's ends;<br>- lines, thicknesses and edges have equal lengths. |
| GlobalArrays.NodesStep | backend/midasfn_npg.py:927-945 | Adding an edge appends its ends to the node list if they are new, first end first. |
| GlobalArrays.MemberLines | backend/midasfn_npg.py:938-951 | A flange or outer web of n ≥ 2 points gives n − 1 lines, from point i to point i + 1, with the element's mean thickness. |
| GlobalArrays.MidLines | backend/midasfn_npg.py:922-936 | The middle web with n elements gives 2n − 1 lines, found by `Thks[i // 2]`. Each element's two lines are the self-loop at its node and the step to the next node. |
| GlobalArrays.MidLineAt | backend/midasfn_npg.py:922-936 | Element k of the middle web gives that pair of lines. |
| Pipeline.Webs | backend/midasfn_npg.py:718-719 | The connector gets two webs, or three when there is a middle web. |
| Pipeline.PlotLines | backend/midasfn_npg.py:651-657 | The four `ortho_line_plot` calls produce the reference thickness lines:<br>- inner vs outer;<br>- outer vs outer with h = 0;<br>- for two cells, the second cell vs outer and the inner cells against each other with d = 0.5. |
| Pipeline.ClassifyLines | backend/midasfn_npg.py:651-715 | The thickness lines, the table, the midpoint sort and the classification give the reference members of the outline. |
| Pipeline.MembersDense | backend/midasfn_npg.py:651-715 | Every member of an outline is numbered 1..n. The bottom flange and the webs hold exactly their lines, in midpoint order. |
| Pipeline.Connect | backend/midasfn_npg.py:718-719 | The connector call computes the reference joints of the members. |
| Pipeline.JointsFit | backend/midasfn_npg.py:718-760 | Successful joints have one top and one bottom joint per web, the right number for the injection. |
| Pipeline.RefineMember | backend/midasfn_npg.py:763-780 | xysort, part_len with 0.3, and reorder give the reference refinement. |
| Pipeline.RefineResampled | backend/midasfn_npg.py:763-780 | With short enough gaps, a refined member is the member sorted along its direction with every gap subdivided, numbered 1..n. |
| Pipeline.PlaceMembers | backend/midasfn_npg.py:721-780 | Injecting the joints and refining each member gives the reference members, each numbered 1..n. |
| Pipeline.PlacedMembers | backend/midasfn_npg.py:721-780 | Each refined member is the subdivided sort of its old records plus its joints:<br>- flanges get every web's top (bottom) joint and are sorted by (xm, ym);<br>- webs get their own two joints and are sorted by (ym, xm);<br>- without a middle web the middle member stays empty. |
| Pipeline.PlaceItems | backend/midasfn_npg.py:782-909 | The element lists and plotsegment give the reference `array_1`, well-shaped for `build_global_arrays`. |
| Pipeline.ItemsOk | backend/midasfn_npg.py:782-909 | `array_1` exists iff the top flange, bottom flange and both outer webs each have at least two points. Otherwise the error is `IndexError`. |
| Pipeline.ItemsShaped | backend/midasfn_npg.py:839-909 | Every array of a produced `array_1` has the lengths `build_global_arrays` indexes. |
| Pipeline.ItemsEdges | backend/midasfn_npg.py:782-953 | The edges `build_global_arrays` reads are the point-to-point polylines of the members, top, bottom, right, left, then the middle web's doubled polyline. |
| Pipeline.MemberPolyline | backend/midasfn_npg.py:789-951 | A flange or outer web of at least two points contributes exactly its polyline. |
| Pipeline.FiveEdges | backend/midasfn_npg.py:916-953 | The edges of the five members are concatenated in `array_1` order. |
| Pipeline.SectionEdges | backend/midasfn_npg.py:383-953 | When a section gives `array_1`: its outline is closed, its joints exist and fit, and the mesh edges are the polylines of the placed members. |
| Pipeline.CentreLine | backend/midasfn_npg.py:383-953 | The whole pipeline, with `unique_lists` as written, returns a mesh iff the reference pipeline gives `array_1`, with the same error otherwise (including the `IndexError` of `unique_lists`). The mesh's nodes, lines and thicknesses are the arrays built from that `array_1`'s edges. |

## Left out

- HTTP and the Civil NX API (`MidasAPI`, `units`, `analyze`, `sect_prop`, `sect_inp`, `get_Section`): the section is a parameter (`Boundary.Section`: type, shape, oh, ob, ih, ib, Zt).
- `PSC_BOX` and its JSON, `remove_duplicate` (it needs the unseen `midas_civil` classes), and the Streamlit `app.py`: not modelled.
- Plotting:
  - matplotlib calls and the returned figure are not modelled;
  - `segment['ortho_lines']` is a plotting record, also not modelled;
  - the `slope` field of a table entry is kept but never read.
- Global state: the dictionaries `segment` and `array_1` are passed between stages as values. `center_top` is an unused stub. `np.array` conversion is not modelled: the arrays are sequences.
- Floating point:
  - `real` arithmetic replaces IEEE floats;
  - the `round(..., 5)` comparisons are exact: the span check is "foot within the bounding box of P1, P2" and `point_on_line` is an exact cross-product equality;
  - `** 0.5` is the parameter `root`.
- Python's `int()` of a negative value is not needed: part_len only truncates a positive quotient.
- Resample.ReorderPartLen: assumes `ShortGaps` (every gap below 30, so at most 99 inserted points). With more, keys `i + 0.01 j` reach `i + 1`, and the model does not describe the collision.
- Pipeline.RefineResampled, Pipeline.PlacedMembers: assume `ShortGaps` of each member for the same reason.
- Resample.PiecesShort, Resample.PiecesCover: assume `root` is a true square root of the gap.
- Resample.XySort: requires x ∈ {0, 1}, as every call site passes. `xysort` with another x would raise `UnboundLocalError`; this is not modelled.
- Resample.RunPartLen: requires keys 1..n, which every call site supplies after `xysort`.
- Connector.Connect: a web top with no accepted perpendicular foot leaves `None` in `xo_max`. The Python code then fails at the next comparison on it; the model reports `MissingConnector` at once.
- The `web != [] and flange != []` guard of `connector` always holds at its call sites (the lists have two or three entries), so the `None` return is not modelled.
- Segments.PlotMid: the 1CEL placeholder branch of plotsegment (`[0]`, `[0]`, `0`) cannot be reached, because `segment['mid_web']` is always a non-empty dictionary. A section without a middle web reaches the `else` branch with empty lists, as in the code.
- Members.MemberDense, Members.TopDense: stated for any labelling of the lines, not only for labels produced by `point_on_line`.
- Pipeline.PlaceItems: requires numbered members (keys 1..n), which `Pipeline.PlaceMembers` guarantees.
- OrthoLines.OrthoLinePlot: requires each curve's x and y lists to have equal length, as the rings built by the boundary stage do.
- UniqueLists.UniqueLists: inputs that are not lists are not modelled; the coordinate lists are always lists.
- Boundary.RingPoints, Boundary.RingDistinct, Boundary.MirroredRingSymmetric, Boundary.SecondCellMirrors, Boundary.AxisPointsMerge, Boundary.MirroredRing: stated for the intended ring `Ring`, not for the ring built as written (`RingOf`). The two are equal when no index is listed twice (`Boundary.RingOfAgrees`). Otherwise the code as written may lose points, keep repeats or raise `IndexError`, and these lemmas say nothing about that ring.
- Boundary.OuterRing, Boundary.OneCellInnerRing, Boundary.TwoCellRings, Boundary.OutlineRings: assume `OnceEachRing`, i.e. no point occurs three times in the list pair of any ring. Without it the source may raise `IndexError` or build an asymmetric ring. The model reproduces that behaviour through `RingOf`, but these lemmas promise nothing about it.
- A section without a `...CEL` shape leaves the vertex lists unbound, and the code fails at the `a = ...` line. The model reports `UnsupportedShape`.

## Findings

| source | as written | input that shows it | evidently intended | confidence | as-written member | corrected member |
|---|---|---|---|---|---|---|
| backend/midasfn_npg.py:373-380 | `indices_to_remove` gets position j once for every earlier equal position i. A pair occurring three or more times puts an index into the list twice, and the descending `del`s then remove a wrong entry or run past the end. | `unique_lists([0, 0, 0], [0, 0, 0])`: indices 1, 2, 2; deleting 2, 2, 1 raises `IndexError` | each repeated position is deleted once, leaving the first occurrence of every pair in order | not executed | UniqueLists.AsWrittenFailsOnTriple | UniqueLists.CorrectedIsFirstOccurrences |

The boundary stage and `Pipeline.CentreLine` follow the code as written (`Boundary.RingOf`, with `Boundary.RingOfTriple` showing its `IndexError`). The ring lemmas are stated for the corrected ring `Boundary.Ring`, which `Boundary.RingOfAgrees` ties to the code when no index is listed twice.
