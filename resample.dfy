/**
 * xysort, part_len and reorder (backend/midasfn_npg.py:549-575): a member dictionary is sorted
 * along the member and renumbered, every gap longer than the element length is subdivided by
 * linear interpolation, and the result is renumbered in key order.
 */
module Resample {
  import opened Common
  import opened Seqs
  import opened Dicts

  // ---------------------------------------------------------------------------------------------
  // xysort and reorder
  // ---------------------------------------------------------------------------------------------

  function XThenY(r: Rec): (real, real) { (r.xm, r.ym) }

  function YThenX(r: Rec): (real, real) { (r.ym, r.xm) }

  /** The sort key of xysort: (xm, ym) for x = 1 (flanges), (ym, xm) for x = 0 (webs). */
  function SortKey(x: int): Rec -> (real, real)
  {
    if x == 1 then XThenY else YThenX
  }

  /** xysort: the values sorted stably by the key, renumbered 1 .. n. */
  function XySort(d: Dict<Rec>, x: int): (r: Dict<Rec>)
    requires x == 0 || x == 1
    ensures IsDense(r) && |r| == |d|
    ensures multiset(Values(r)) == multiset(Values(d))
    ensures SortedBy(Values(r), SortKey(x))
  {
    var s := SortBy(Values(d), SortKey(x));
    assert Values(Dense(s)) == s;
    Dense(s)
  }

  /** Values with equal sort keys keep their dictionary order. */
  lemma XySortStable(d: Dict<Rec>, x: int, c: (real, real))
    requires x == 0 || x == 1
    ensures WithKey(Values(XySort(d, x)), SortKey(x), c) == WithKey(Values(d), SortKey(x), c)
  {
    var s := SortBy(Values(d), SortKey(x));
    assert Values(Dense(s)) == s;
    SortStable(Values(d), SortKey(x), c);
  }

  function ItemKey(e: (real, Rec)): (real, real) { (e.0, 0.0) }

  /** reorder: the entries sorted by key, renumbered 1 .. n. */
  function Reorder(d: Dict<Rec>): (r: Dict<Rec>)
    ensures IsDense(r) && |r| == |d|
    ensures multiset(Values(r)) == multiset(Values(d))
    ensures var sd := SortBy(d, ItemKey);
      multiset(sd) == multiset(d) && SortedBy(Keys(sd), KeyOrder) && Values(r) == Values(sd)
  {
    var sd := SortBy(d, ItemKey);
    ValuesPermutation(sd, d);
    assert Values(Dense(Values(sd))) == Values(sd);
    Dense(Values(sd))
  }

  function KeyOrder(k: real): (real, real) { (k, 0.0) }

  // ---------------------------------------------------------------------------------------------
  // part_len as written
  // ---------------------------------------------------------------------------------------------

  /** Python's int() on a float: truncation toward zero. */
  function Trunc(x: real): int
  {
    if x >= 0.0 then x.Floor else -((-x).Floor)
  }

  /** The key `i + 0.01*j` of the j-th point inserted after key i. */
  function Key(i: int, j: int): real
  {
    i as real + 0.01 * j as real
  }

  /** The point j/nos of the way from a to b, in xm, ym and thk. */
  function Interp(a: Rec, b: Rec, j: int, nos: int): Rec
    requires nos != 0
  {
    Rec(Lerp(a.xm, b.xm, j, nos), Lerp(a.ym, b.ym, j, nos), Lerp(a.thk, b.thk, j, nos))
  }

  /** The value j/nos of the way from u to v. */
  function Lerp(u: real, v: real, j: int, nos: int): real
    requires nos != 0
  {
    u + (v - u) * j as real / nos as real
  }

  /** The distance between two records, through the square root `root`. */
  function Gap(a: Rec, b: Rec, root: real -> real): real
  {
    root(Sq(a.xm - b.xm) + Sq(a.ym - b.ym))
  }

  /**
   * `nos = int(dist/0.3) + 1` for a gap longer than 0.3: the least n >= 1 with dist < 0.3 n
   * (PiecesIsTrunc shows the two agree).
   */
  function Pieces(dist: real): (nos: int)
    ensures nos >= 1 && dist < nos as real * 0.3
    ensures nos == 1 || (nos - 1) as real * 0.3 <= dist
  {
    PiecesFrom(dist, 1)
  }

  function PiecesFrom(dist: real, n: int): (nos: int)
    requires n >= 1
    ensures nos >= n && dist < nos as real * 0.3
    ensures nos == n || (nos - 1) as real * 0.3 <= dist
    decreases if dist < n as real * 0.3 then 0 else (dist / 0.3).Floor + 1 - n
  {
    if dist < n as real * 0.3 then n else PiecesFrom(dist, n + 1)
  }

  /** The number of pieces is Python's `int(dist/0.3) + 1`. */
  lemma PiecesIsTrunc(dist: real)
    requires dist > 0.3
    ensures Pieces(dist) == Trunc(dist / 0.3) + 1
  {
    var q := dist / 0.3;
    assert q * 0.3 == dist;
  }

  /** `d[k]`; the placeholder record for a missing key is never read (RowsKeepsKeys). */
  function At(d: Dict<Rec>, k: real): Rec
  {
    match Get(d, k)
    case Some(v) => v
    case None => Rec(0.0, 0.0, 0.0)
  }

  /** The dictionary after m passes of the inner loop for gap i; each pass re-reads d[i] and d[i+1]. */
  function Fill(d: Dict<Rec>, i: int, nos: int, m: nat): Dict<Rec>
    requires nos != 0
    decreases m
  {
    if m == 0 then d
    else
      var p := Fill(d, i, nos, m - 1);
      Update(p, Key(i, m), Interp(At(p, i as real), At(p, (i + 1) as real), m, nos))
  }

  /** One pass of the outer loop: gap i is cut when it is longer than the element length. */
  function Row(d: Dict<Rec>, i: int, root: real -> real): Dict<Rec>
  {
    var dist := Gap(At(d, i as real), At(d, (i + 1) as real), root);
    if dist > 0.3 then
      var nos := Pieces(dist);
      Fill(d, i, nos, nos - 1)
    else d
  }

  /** The dictionary after the passes for gaps 1 .. m. */
  function Rows(d: Dict<Rec>, root: real -> real, m: nat): Dict<Rec>
    decreases m
  {
    if m == 0 then d else Row(Rows(d, root, m - 1), m, root)
  }

  /** part_len(dic, 0.3): `range(1, len(dic))` is fixed before the loop starts. */
  function PartLen(d: Dict<Rec>, root: real -> real): Dict<Rec>
  {
    Rows(d, root, if |d| == 0 then 0 else |d| - 1)
  }

  lemma KeepsKeysTrans(a: Dict<Rec>, b: Dict<Rec>, c: Dict<Rec>)
    requires KeepsKeys(a, b) && KeepsKeys(b, c)
    ensures KeepsKeys(a, c)
  {
  }

  /** The inner loop only adds entries: every key keeps its position. */
  lemma {:induction false} FillKeepsKeys(d: Dict<Rec>, i: int, nos: int, m: nat)
    requires nos != 0
    ensures KeepsKeys(d, Fill(d, i, nos, m))
    decreases m
  {
    if m > 0 {
      FillKeepsKeys(d, i, nos, m - 1);
      var p := Fill(d, i, nos, m - 1);
      KeepsKeysTrans(d, p, Fill(d, i, nos, m));
    }
  }

  lemma RowKeepsKeys(d: Dict<Rec>, i: int, root: real -> real)
    ensures KeepsKeys(d, Row(d, i, root))
  {
    var dist := Gap(At(d, i as real), At(d, (i + 1) as real), root);
    if dist > 0.3 {
      FillKeepsKeys(d, i, Pieces(dist), Pieces(dist) - 1);
    }
  }

  /** part_len never removes or moves a key, so every `dic[i]` and `dic[i+1]` it reads exists. */
  lemma {:induction false} RowsKeepsKeys(d: Dict<Rec>, root: real -> real, m: nat)
    ensures KeepsKeys(d, Rows(d, root, m))
    decreases m
  {
    if m > 0 {
      RowsKeepsKeys(d, root, m - 1);
      var p := Rows(d, root, m - 1);
      RowKeepsKeys(p, m, root);
      KeepsKeysTrans(d, p, Rows(d, root, m));
    }
  }

  /** part_len as the Python loops run it, updating the dictionary as they go. */
  method RunPartLen(dic: Dict<Rec>, root: real -> real) returns (r: Dict<Rec>)
    requires IsDense(dic)
    ensures r == PartLen(dic, root)
  {
    r := dic;
    var n := |dic|;
    for i := 1 to if n == 0 then 1 else n
      invariant r == Rows(dic, root, i - 1)
    {
      r := RunPass(dic, r, i, root);
    }
  }

  /** Pass i of the outer loop, taking the dictionary after passes 1 .. i-1 to the one after pass i. */
  method RunPass(dic: Dict<Rec>, r: Dict<Rec>, i: int, root: real -> real) returns (r': Dict<Rec>)
    requires IsDense(dic) && 1 <= i < |dic| && r == Rows(dic, root, i - 1)
    ensures r' == Rows(dic, root, i)
  {
    RowsKeepsKeys(dic, root, i - 1);
    assert r[i - 1].0 == i as real && r[i].0 == (i + 1) as real;
    r' := RunRow(r, i, root);
  }

  /** One pass of the outer loop of part_len. */
  method RunRow(d: Dict<Rec>, i: int, root: real -> real) returns (r: Dict<Rec>)
    requires HasKey(d, i as real) && HasKey(d, (i + 1) as real)
    ensures r == Row(d, i, root)
  {
    var a, b := At(d, i as real), At(d, (i + 1) as real);
    var dist := root(Sq(a.xm - b.xm) + Sq(a.ym - b.ym));
    assert dist == Gap(a, b, root);
    if dist > 0.3 {
      var nos := Pieces(dist);
      r := RunFill(d, i, nos);
      assert Row(d, i, root) == Fill(d, i, nos, nos - 1);
    } else {
      r := d;
    }
  }

  /** The inner loop of part_len: `for j in range(1, nos)`. */
  method RunFill(d: Dict<Rec>, i: int, nos: int) returns (r: Dict<Rec>)
    requires HasKey(d, i as real) && HasKey(d, (i + 1) as real) && nos >= 1
    ensures r == Fill(d, i, nos, nos - 1)
  {
    r := d;
    for j := 1 to nos
      invariant r == Fill(d, i, nos, j - 1)
    {
      var cur, next := At(r, i as real), At(r, (i + 1) as real);
      r := Update(r, Key(i, j), Interp(cur, next, j, nos));
    }
  }

  // ---------------------------------------------------------------------------------------------
  // The resampled member, as a reference definition
  // ---------------------------------------------------------------------------------------------

  /** The nos - 1 points j/nos of the way from a to b (j = 1 .. nos-1), keyed after key i. */
  function Block(a: Rec, b: Rec, i: int, nos: int): (r: seq<(real, Rec)>)
    requires nos >= 1
    ensures |r| == nos - 1
    ensures forall j :: 0 <= j < nos - 1 ==> r[j] == (Key(i, j + 1), Interp(a, b, j + 1, nos))
  {
    seq(nos - 1, j requires 0 <= j < nos - 1 => (Key(i, j + 1), Interp(a, b, j + 1, nos)))
  }

  /** The points part_len inserts into the gap from a (key i) to b: int(dist/length) of them. */
  function GapPoints(a: Rec, b: Rec, i: int, root: real -> real): seq<(real, Rec)>
  {
    var dist := Gap(a, b, root);
    if dist > 0.3 then Block(a, b, i, Pieces(dist)) else []
  }

  /** The points inserted into gaps 1 .. m of the member s, in insertion order. */
  function Inserts(s: seq<Rec>, root: real -> real, m: nat): seq<(real, Rec)>
    requires (m == 0 || m < |s|)
    decreases m
  {
    if m == 0 then [] else Inserts(s, root, m - 1) + GapPoints(s[m - 1], s[m], m, root)
  }

  /** Points 1 .. m of the member, each followed by the points inserted after it. */
  function Chain(s: seq<Rec>, root: real -> real, m: nat): seq<(real, Rec)>
    requires (m == 0 || m < |s|)
    decreases m
  {
    if m == 0 then []
    else Chain(s, root, m - 1) + [(m as real, s[m - 1])] + GapPoints(s[m - 1], s[m], m, root)
  }

  /** The subdivided member with its keys: original points and inserted points in order along it. */
  function ResampledKeyed(s: seq<Rec>, root: real -> real): seq<(real, Rec)>
  {
    if |s| == 0 then [] else Chain(s, root, |s| - 1) + [(|s| as real, s[|s| - 1])]
  }

  function Resampled(s: seq<Rec>, root: real -> real): seq<Rec>
  {
    Values(ResampledKeyed(s, root))
  }

  /** No gap needs 100 or more pieces, so no key `i + 0.01*j` reaches `i + 1`. */
  predicate ShortGaps(s: seq<Rec>, root: real -> real)
  {
    forall k :: 0 < k < |s| ==> Gap(s[k - 1], s[k], root) < 30.0
  }

  // ---------------------------------------------------------------------------------------------
  // part_len appends exactly the interpolated points
  // ---------------------------------------------------------------------------------------------

  predicate KeysBelow(t: seq<(real, Rec)>, b: real)
  {
    forall q :: 0 <= q < |t| ==> t[q].0 < b
  }

  predicate KeysAbove(t: seq<(real, Rec)>, b: real)
  {
    forall q :: 0 <= q < |t| ==> b < t[q].0
  }

  predicate StrictKeys(t: seq<(real, Rec)>)
  {
    forall p, q :: 0 <= p < q < |t| ==> t[p].0 < t[q].0
  }

  lemma ShortGapPieces(dist: real)
    requires 0.3 < dist < 30.0
    ensures 2 <= Pieces(dist) <= 100
  {
  }

  lemma MulMonotone(a: real, b: real, c: real)
    requires a <= b && c > 0.0
    ensures a * c <= b * c
  {
    assert (b - a) * c >= 0.0;
  }

  /** A block inserted after key i lies strictly between i and i + 1, in increasing key order. */
  lemma BlockKeys(a: Rec, b: Rec, i: int, nos: int)
    requires 1 <= nos <= 100
    ensures KeysAbove(Block(a, b, i, nos), i as real) && KeysBelow(Block(a, b, i, nos), (i + 1) as real)
    ensures StrictKeys(Block(a, b, i, nos))
  {
  }

  lemma GapPointsKeys(a: Rec, b: Rec, i: int, root: real -> real)
    requires Gap(a, b, root) < 30.0
    ensures var g := GapPoints(a, b, i, root);
      KeysAbove(g, i as real) && KeysBelow(g, (i + 1) as real) && StrictKeys(g)
  {
    var dist := Gap(a, b, root);
    if dist > 0.3 {
      ShortGapPieces(dist);
      BlockKeys(a, b, i, Pieces(dist));
    }
  }

  lemma {:induction false} InsertsBelow(s: seq<Rec>, root: real -> real, m: nat)
    requires (m == 0 || m < |s|) && ShortGaps(s, root)
    ensures KeysBelow(Inserts(s, root, m), (m + 1) as real)
    decreases m
  {
    if m > 0 {
      InsertsBelow(s, root, m - 1);
      GapPointsKeys(s[m - 1], s[m], m, root);
    }
  }

  /** In the dense dictionary of s followed by other entries, key k (1 <= k <= |s|) reads s[k-1]. */
  lemma AtDensePrefix(s: seq<Rec>, rest: seq<(real, Rec)>, k: int)
    requires 1 <= k <= |s|
    ensures HasKey(Dense(s) + rest, k as real) && At(Dense(s) + rest, k as real) == s[k - 1]
  {
    var d := Dense(s);
    assert (d + rest)[k - 1] == (k as real, s[k - 1]);
    GetFirst(d + rest, k as real, k - 1);
  }

  lemma AppendAssoc<T>(a: seq<T>, b: seq<T>, c: seq<T>)
    ensures a + b + c == a + (b + c)
  {
  }

  lemma PrefixSnoc<T>(s: seq<T>, t: int)
    requires 0 < t <= |s|
    ensures s[..t] == s[..t - 1] + [s[t - 1]]
  {
  }

  /** A key `i + 0.01*t` with 1 <= t <= 99 is no whole number. */
  lemma KeyNotWhole(k: int, i: int, t: int)
    requires 1 <= t <= 99
    ensures k as real != Key(i, t)
  {
    if k <= i {
      assert k as real <= i as real;
    } else {
      assert k as real >= (i + 1) as real;
    }
  }

  /** The key of the t-th inserted point is new while only the earlier ones precede it. */
  lemma FreshKey(s: seq<Rec>, ins: seq<(real, Rec)>, pre: seq<(real, Rec)>, i: int, t: int)
    requires 1 <= t <= 99 && KeysBelow(ins, i as real)
    requires forall q :: 0 <= q < |pre| ==> pre[q].0 == Key(i, q + 1)
    requires |pre| == t - 1
    ensures !HasKey(Dense(s) + ins + pre, Key(i, t))
  {
    var d := Dense(s);
    var p := d + ins + pre;
    forall q | 0 <= q < |p| ensures p[q].0 != Key(i, t) {
      if q < |d| {
        assert p[q].0 == (q + 1) as real;
        KeyNotWhole(q + 1, i, t);
      } else if q < |d| + |ins| {
        assert p[q] == ins[q - |d|];
      } else {
        assert p[q] == pre[q - |d| - |ins|];
      }
    }
  }

  /** One pass of the inner loop appends its point when the key is new. */
  lemma FillStep(d: Dict<Rec>, i: int, nos: int, t: nat, p: Dict<Rec>, a: Rec, b: Rec)
    requires HasKey(d, i as real) && HasKey(d, (i + 1) as real) && nos != 0 && t >= 1
    requires Fill(d, i, nos, t - 1) == p
    requires HasKey(p, i as real) && HasKey(p, (i + 1) as real)
    requires At(p, i as real) == a && At(p, (i + 1) as real) == b && !HasKey(p, Key(i, t))
    ensures Fill(d, i, nos, t) == p + [(Key(i, t), Interp(a, b, t, nos))]
  {
  }

  /** Appending the next point of a block to its prefix. */
  lemma BlockSnoc(d: Dict<Rec>, ins: seq<(real, Rec)>, a: Rec, b: Rec, i: int, nos: int, t: nat)
    requires 1 <= t <= nos - 1
    ensures var blk := Block(a, b, i, nos);
      d + (ins + blk[..t - 1]) + [(Key(i, t), Interp(a, b, t, nos))] == d + ins + blk[..t]
  {
    var blk := Block(a, b, i, nos);
    PrefixSnoc(blk, t);
  }

  /** With the inner loop's reads unaffected, each pass of it appends one interpolated point. */
  lemma {:induction false} FillAppends(s: seq<Rec>, ins: seq<(real, Rec)>, i: int, nos: int, t: nat)
    requires 1 <= i < |s| && 2 <= nos <= 100 && t <= nos - 1 && KeysBelow(ins, i as real)
    requires HasKey(Dense(s) + ins, i as real) && HasKey(Dense(s) + ins, (i + 1) as real)
    ensures Fill(Dense(s) + ins, i, nos, t) == Dense(s) + ins + Block(s[i - 1], s[i], i, nos)[..t]
    decreases t
  {
    var d := Dense(s);
    var blk := Block(s[i - 1], s[i], i, nos);
    if t == 0 {
      assert blk[..0] == [];
    } else {
      FillAppends(s, ins, i, nos, t - 1);
      var pre := blk[..t - 1];
      AppendAssoc(d, ins, pre);
      AtDensePrefix(s, ins + pre, i);
      AtDensePrefix(s, ins + pre, i + 1);
      FreshKey(s, ins, pre, i, t);
      FillStep(d + ins, i, nos, t, d + (ins + pre), s[i - 1], s[i]);
      BlockSnoc(d, ins, s[i - 1], s[i], i, nos, t);
    }
  }

  /** The two outcomes of one pass of the outer loop. */
  lemma RowCut(d: Dict<Rec>, i: int, root: real -> real, dist: real, nos: int)
    requires HasKey(d, i as real) && HasKey(d, (i + 1) as real)
    requires dist == Gap(At(d, i as real), At(d, (i + 1) as real), root) && dist > 0.3
    requires nos == Pieces(dist)
    ensures Row(d, i, root) == Fill(d, i, nos, nos - 1)
  {
  }

  lemma RowKeep(d: Dict<Rec>, i: int, root: real -> real)
    requires HasKey(d, i as real) && HasKey(d, (i + 1) as real)
    requires Gap(At(d, i as real), At(d, (i + 1) as real), root) <= 0.3
    ensures Row(d, i, root) == d
  {
  }

  /** One pass of the outer loop appends the points of its gap, when earlier insertions sit below it. */
  lemma RowAppends(s: seq<Rec>, ins: seq<(real, Rec)>, i: int, root: real -> real)
    requires 1 <= i < |s| && KeysBelow(ins, i as real) && Gap(s[i - 1], s[i], root) < 30.0
    requires HasKey(Dense(s) + ins, i as real) && HasKey(Dense(s) + ins, (i + 1) as real)
    requires At(Dense(s) + ins, i as real) == s[i - 1] && At(Dense(s) + ins, (i + 1) as real) == s[i]
    ensures Row(Dense(s) + ins, i, root) == Dense(s) + (ins + GapPoints(s[i - 1], s[i], i, root))
  {
    var d := Dense(s) + ins;
    var dist := Gap(s[i - 1], s[i], root);
    assert Gap(At(d, i as real), At(d, (i + 1) as real), root) == dist;
    if dist > 0.3 {
      ShortGapPieces(dist);
      var nos := Pieces(dist);
      var blk := Block(s[i - 1], s[i], i, nos);
      RowCut(d, i, root, dist, nos);
      FillAppends(s, ins, i, nos, nos - 1);
      assert Fill(d, i, nos, nos - 1) == d + blk[..nos - 1];
      assert blk[..nos - 1] == blk;
      AppendAssoc(Dense(s), ins, blk);
      assert GapPoints(s[i - 1], s[i], i, root) == blk;
      assert Row(d, i, root) == Fill(d, i, nos, nos - 1);
      assert Fill(d, i, nos, nos - 1) == d + blk;
      assert d + blk == Dense(s) + (ins + blk);
      assert Row(d, i, root) == Dense(s) + (ins + blk);
    } else {
      RowKeep(d, i, root);
      assert GapPoints(s[i - 1], s[i], i, root) == [];
      assert ins + [] == ins;
      assert Row(d, i, root) == Dense(s) + (ins + []);
    }
  }

  /** Given short gaps, part_len keeps the dense entries in place and appends the inserted points. */
  lemma {:induction false} RowsAppend(s: seq<Rec>, root: real -> real, m: nat)
    requires (m == 0 || m < |s|) && ShortGaps(s, root)
    ensures Rows(Dense(s), root, m) == Dense(s) + Inserts(s, root, m)
    decreases m
  {
    if m > 0 {
      RowsAppend(s, root, m - 1);
      var ins := Inserts(s, root, m - 1);
      InsertsBelow(s, root, m - 1);
      AtDensePrefix(s, ins, m);
      AtDensePrefix(s, ins, m + 1);
      RowAppends(s, ins, m, root);
    }
  }

  /** The entries part_len leaves: the original ones unchanged, then the inserted points. */
  lemma PartLenAppends(s: seq<Rec>, root: real -> real)
    requires ShortGaps(s, root)
    ensures PartLen(Dense(s), root) == Dense(s) + Inserts(s, root, if |s| == 0 then 0 else |s| - 1)
  {
    RowsAppend(s, root, if |s| == 0 then 0 else |s| - 1);
  }

  // ---------------------------------------------------------------------------------------------
  // reorder(part_len(...)) is the resampled member
  // ---------------------------------------------------------------------------------------------

  lemma {:induction false} ChainMultiset(s: seq<Rec>, root: real -> real, m: nat)
    requires (m == 0 || m < |s|)
    ensures multiset(Chain(s, root, m)) == multiset(Dense(s)[..m]) + multiset(Inserts(s, root, m))
    decreases m
  {
    if m > 0 {
      ChainMultiset(s, root, m - 1);
      var d, e, g := Dense(s), (m as real, s[m - 1]), GapPoints(s[m - 1], s[m], m, root);
      PrefixSnoc(d, m);
      MultisetStep(Chain(s, root, m - 1), d[..m - 1], Inserts(s, root, m - 1), e, g);
    }
  }

  lemma MultisetStep<T>(c: seq<T>, pre: seq<T>, ins: seq<T>, e: T, g: seq<T>)
    requires multiset(c) == multiset(pre) + multiset(ins)
    ensures multiset(c + [e] + g) == multiset(pre + [e]) + multiset(ins + g)
  {
  }

  lemma StrictJoin(a: seq<(real, Rec)>, b: seq<(real, Rec)>, c: real)
    requires StrictKeys(a) && StrictKeys(b) && KeysBelow(a, c) && (forall q :: 0 <= q < |b| ==> c <= b[q].0)
    ensures StrictKeys(a + b)
  {
    forall p, q | 0 <= p < q < |a + b| ensures (a + b)[p].0 < (a + b)[q].0 {
      if q >= |a| && p < |a| {
        assert (a + b)[q] == b[q - |a|];
      }
    }
  }

  lemma {:induction false} ChainSorted(s: seq<Rec>, root: real -> real, m: nat)
    requires (m == 0 || m < |s|) && ShortGaps(s, root)
    ensures StrictKeys(Chain(s, root, m)) && KeysBelow(Chain(s, root, m), (m + 1) as real)
    decreases m
  {
    if m > 0 {
      ChainSorted(s, root, m - 1);
      var g := GapPoints(s[m - 1], s[m], m, root);
      GapPointsKeys(s[m - 1], s[m], m, root);
      ChainStep(Chain(s, root, m - 1), s[m - 1], g, m as real, (m + 1) as real);
    }
  }

  /** Appending a point with key k and the points inserted after it keeps the keys increasing. */
  lemma ChainStep(c: seq<(real, Rec)>, x: Rec, g: seq<(real, Rec)>, k: real, k1: real)
    requires StrictKeys(c) && KeysBelow(c, k) && k < k1
    requires StrictKeys(g) && KeysAbove(g, k) && KeysBelow(g, k1)
    ensures StrictKeys(c + [(k, x)] + g) && KeysBelow(c + [(k, x)] + g, k1)
  {
    var blk := [(k, x)] + g;
    HeadBlock(k, x, g, k1);
    StrictJoin(c, blk, k);
    BelowJoin(c, blk, k, k1);
    assert c + [(k, x)] + g == c + blk;
  }

  /** An original point followed by the points inserted after it. */
  lemma HeadBlock(k: real, x: Rec, g: seq<(real, Rec)>, c: real)
    requires StrictKeys(g) && KeysAbove(g, k) && KeysBelow(g, c) && k < c
    ensures var blk := [(k, x)] + g;
      StrictKeys(blk) && KeysBelow(blk, c) && forall q :: 0 <= q < |blk| ==> k <= blk[q].0
  {
    var blk := [(k, x)] + g;
    forall p, q | 0 <= p < q < |blk| ensures blk[p].0 < blk[q].0 {
      assert blk[q] == g[q - 1];
      if p > 0 {
        assert blk[p] == g[p - 1];
      }
    }
    forall q | 0 < q < |blk| ensures k < blk[q].0 < c {
      assert blk[q] == g[q - 1];
    }
  }

  lemma BelowJoin(a: seq<(real, Rec)>, b: seq<(real, Rec)>, c0: real, c: real)
    requires KeysBelow(a, c0) && c0 <= c && KeysBelow(b, c)
    ensures KeysBelow(a + b, c)
  {
    forall q | 0 <= q < |a + b| ensures (a + b)[q].0 < c {
      if q >= |a| {
        assert (a + b)[q] == b[q - |a|];
      }
    }
  }

  lemma ResampledSorted(s: seq<Rec>, root: real -> real)
    requires ShortGaps(s, root)
    ensures StrictKeys(ResampledKeyed(s, root))
  {
    if |s| > 0 {
      var n := |s|;
      ChainSorted(s, root, n - 1);
      StrictJoin(Chain(s, root, n - 1), [(n as real, s[n - 1])], n as real);
    }
  }

  /**
   * The main property of the resampling stage: when no gap needs 100 pieces, reorder(part_len(...))
   * of a renumbered member is the member with the interpolated points placed in their gaps,
   * renumbered 1 .. n.
   */
  lemma ReorderPartLen(s: seq<Rec>, root: real -> real)
    requires ShortGaps(s, root)
    ensures Reorder(PartLen(Dense(s), root)) == Dense(Resampled(s, root))
  {
    var m := if |s| == 0 then 0 else |s| - 1;
    PartLenAppends(s, root);
    var x := Dense(s) + Inserts(s, root, m);
    var t := ResampledKeyed(s, root);
    KeyedPermutation(s, root);
    ResampledSorted(s, root);
    SortedKeyed(t, x);
  }

  /** The keyed resampled member holds the same entries as part_len's dictionary. */
  lemma KeyedPermutation(s: seq<Rec>, root: real -> real)
    ensures var m := if |s| == 0 then 0 else |s| - 1;
      multiset(ResampledKeyed(s, root)) == multiset(Dense(s) + Inserts(s, root, m))
  {
    if |s| > 0 {
      var m := |s| - 1;
      ChainMultiset(s, root, m);
      var c, ins, e := Chain(s, root, m), Inserts(s, root, m), (|s| as real, s[|s| - 1]);
      var d := Dense(s);
      PrefixSnoc(d, |s|);
      assert d[..|s|] == d;
      Regroup(c, d[..m], ins, e, d);
    }
  }

  lemma Regroup<T>(c: seq<T>, pre: seq<T>, ins: seq<T>, e: T, d: seq<T>)
    requires multiset(c) == multiset(pre) + multiset(ins) && d == pre + [e]
    ensures multiset(c + [e]) == multiset(d + ins)
  {
  }

  /** reorder of a dictionary whose entries, in strict key order, are t gives t renumbered. */
  lemma SortedKeyed(t: seq<(real, Rec)>, x: Dict<Rec>)
    requires StrictKeys(t) && multiset(t) == multiset(x)
    ensures Reorder(x) == Dense(Values(t))
  {
    var sx := SortBy(x, ItemKey);
    assert SortedBy(t, ItemKey);
    assert forall p, q :: 0 <= p < q < |t| ==> ItemKey(t[p]) != ItemKey(t[q]);
    assert SortedBy(sx, ItemKey) by {
      forall p, q | 0 <= p < q < |sx| ensures LexLe(ItemKey(sx[p]), ItemKey(sx[q])) {
        assert Keys(sx)[p] == sx[p].0 && Keys(sx)[q] == sx[q].0;
        assert LexLe(KeyOrder(Keys(sx)[p]), KeyOrder(Keys(sx)[q]));
      }
    }
    SortedUnique(t, sx, ItemKey);
  }

  // ---------------------------------------------------------------------------------------------
  // The inserted points
  // ---------------------------------------------------------------------------------------------

  function RecPoint(r: Rec): Point { Point(r.xm, r.ym) }

  /** The inserted points lie on the segment between the two ends of their gap. */
  lemma InterpOnSegment(a: Rec, b: Rec, j: int, nos: int)
    requires 1 <= j < nos
    ensures var p := Interp(a, b, j, nos);
      p.xm - a.xm == (b.xm - a.xm) * (j as real / nos as real) &&
      p.ym - a.ym == (b.ym - a.ym) * (j as real / nos as real) &&
      0.0 < j as real / nos as real < 1.0
  {
  }

  /** Consecutive points of a cut gap are one nos-th of it apart: nos² times their squared distance is the gap's. */
  lemma SubGap(a: Rec, b: Rec, j: int, nos: int)
    requires 0 <= j < nos
    ensures Dist2(RecPoint(Interp(a, b, j, nos)), RecPoint(Interp(a, b, j + 1, nos))) * (nos as real * nos as real) ==
      Dist2(RecPoint(a), RecPoint(b))
  {
    var p, q := Interp(a, b, j, nos), Interp(a, b, j + 1, nos);
    assert (p.xm - q.xm) * nos as real == a.xm - b.xm && (p.ym - q.ym) * nos as real == a.ym - b.ym by {
      InterpStep(a, b, j, nos);
    }
    ScaledDist(p, q, a, b, nos as real);
  }

  lemma ScaledDist(p: Rec, q: Rec, a: Rec, b: Rec, n: real)
    requires (p.xm - q.xm) * n == a.xm - b.xm && (p.ym - q.ym) * n == a.ym - b.ym
    ensures Dist2(RecPoint(p), RecPoint(q)) * (n * n) == Dist2(RecPoint(a), RecPoint(b))
  {
    ScaleSum(p.xm - q.xm, p.ym - q.ym, n, a.xm - b.xm, a.ym - b.ym);
  }

  lemma InterpStep(a: Rec, b: Rec, j: int, nos: int)
    requires 0 < nos
    ensures (Interp(a, b, j, nos).xm - Interp(a, b, j + 1, nos).xm) * nos as real == a.xm - b.xm
    ensures (Interp(a, b, j, nos).ym - Interp(a, b, j + 1, nos).ym) * nos as real == a.ym - b.ym
  {
    LerpStep(a.xm, b.xm, j, nos);
    LerpStep(a.ym, b.ym, j, nos);
  }

  /** Two consecutive interpolation steps differ by one nos-th of the whole. */
  lemma LerpStep(u: real, v: real, j: int, nos: int)
    requires nos > 0
    ensures (Lerp(u, v, j, nos) - Lerp(u, v, j + 1, nos)) * nos as real == u - v
  {
    var k, n := j as real, nos as real;
    assert (v - u) * (k + 1.0) == (v - u) * k + (v - u);
    assert ((v - u) * k + (v - u)) / n == (v - u) * k / n + (v - u) / n;
    assert ((u - v) / n) * n == u - v;
  }

  lemma ScaleSum(dx: real, dy: real, n: real, ex: real, ey: real)
    requires dx * n == ex && dy * n == ey
    ensures (Sq(dx) + Sq(dy)) * (n * n) == Sq(ex) + Sq(ey)
  {
    assert Sq(ex) == Sq(dx) * (n * n);
    assert Sq(ey) == Sq(dy) * (n * n);
  }

  lemma SquareLess(a: real, b: real)
    requires 0.0 <= a < b
    ensures a * a < b * b
  {
    var p, q, r := a * a, a * b, b * b;
    assert (b - a) * a >= 0.0;
    assert (b - a) * b > 0.0;
    assert p <= q < r;
  }

  /** With an exact square root, a gap cut into nos pieces is shorter than nos element lengths. */
  lemma PiecesCover(a: Rec, b: Rec, root: real -> real)
    requires Gap(a, b, root) > 0.3
    requires IsRootOf(root, Sq(a.xm - b.xm) + Sq(a.ym - b.ym))
    ensures var nos := Pieces(Gap(a, b, root));
      Dist2(RecPoint(a), RecPoint(b)) < 0.3 * 0.3 * (nos as real * nos as real)
  {
    var dist := Gap(a, b, root);
    var n := Pieces(dist) as real;
    assert dist * dist == Dist2(RecPoint(a), RecPoint(b));
    SquareLess(dist, n * 0.3);
    assert (n * 0.3) * (n * 0.3) == 0.3 * 0.3 * (n * n);
  }

  /** With an exact square root, every piece of a cut gap is shorter than the element length. */
  lemma PiecesShort(a: Rec, b: Rec, root: real -> real, j: int)
    requires Gap(a, b, root) > 0.3
    requires IsRootOf(root, Sq(a.xm - b.xm) + Sq(a.ym - b.ym))
    requires 0 <= j < Pieces(Gap(a, b, root))
    ensures var nos := Pieces(Gap(a, b, root));
      Dist2(RecPoint(Interp(a, b, j, nos)), RecPoint(Interp(a, b, j + 1, nos))) < 0.3 * 0.3
  {
    PiecesCover(a, b, root);
    PieceBelow(a, b, j, Pieces(Gap(a, b, root)));
  }

  /** When the gap's squared length is below nos² element lengths squared, so is each of its nos pieces. */
  lemma PieceBelow(a: Rec, b: Rec, j: int, nos: int)
    requires 0 <= j < nos
    requires Dist2(RecPoint(a), RecPoint(b)) < 0.3 * 0.3 * (nos as real * nos as real)
    ensures Dist2(RecPoint(Interp(a, b, j, nos)), RecPoint(Interp(a, b, j + 1, nos))) < 0.3 * 0.3
  {
    SubGap(a, b, j, nos);
    assert nos as real * nos as real > 0.0 by {
      assert nos as real >= 1.0;
    }
    ScaledBelow(Dist2(RecPoint(Interp(a, b, j, nos)), RecPoint(Interp(a, b, j + 1, nos))), Dist2(RecPoint(a), RecPoint(b)),
      nos as real * nos as real);
  }

  lemma ScaledBelow(piece: real, whole: real, w: real)
    requires w > 0.0
    requires piece * w == whole
    requires whole < 0.3 * 0.3 * w
    ensures piece < 0.3 * 0.3
  {
    assert (0.3 * 0.3 - piece) * w > 0.0;
  }
}
