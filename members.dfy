/**
 * The split of the ordered thickness lines into the five members of the section
 * (backend/midasfn_npg.py:694-715). A line belongs to the first member whose reference line passes
 * through its foot (x2, y2); the member dictionaries are numbered by counters s, t, u, v, w.
 *
 * The code writes `t =+ 1` for the left half of the top flange, which sets t to 1 instead of
 * incrementing it; this model does the same, so later top-flange lines overwrite key 1, 2, ...
 */
module Members {
  import opened Common
  import opened Seqs
  import opened Dicts
  import opened Geometry
  import opened LineTable

  datatype Member = TopRight | TopLeft | Bottom | RightWeb | LeftWeb | MidWeb | NoMember

  function Foot2(e: Entry): Point
  {
    Point(e.x2, e.y2)
  }

  function MirrorPt(p: Point): Point
  {
    Point(-1.0 * p.x, p.y)
  }

  /** The chain of point_on_line tests, in the order of the elif chain. */
  function MemberOf(e: Entry, ext: seq<Point>, inn: seq<Point>): Member
    requires |ext| == 9 && |inn| == 9
  {
    var q := Foot2(e);
    if PointOnLine(ext[0], ext[1], q) then TopRight
    else if PointOnLine(ext[0], MirrorPt(ext[1]), q) then TopLeft
    else if PointOnLine(ext[7], ext[8], q) then Bottom
    else if PointOnLine(ext[5], ext[7], q) then RightWeb
    else if PointOnLine(MirrorPt(ext[5]), MirrorPt(ext[7]), q) then LeftWeb
    else if PointOnLine(MirrorPt(inn[0]), MirrorPt(inn[8]), q) then MidWeb
    else NoMember
  }

  /** What the later stages read from a member record: its midpoint and thickness. */
  function RecOf(e: Entry): Rec
  {
    Rec(e.xm, e.ym, e.thk)
  }

  /** The five member dictionaries and their counters. */
  datatype Buckets = Buckets(
    top: Dict<Rec>, t: int,
    bot: Dict<Rec>, u: int,
    right: Dict<Rec>, v: int,
    left: Dict<Rec>, w: int,
    mid: Dict<Rec>, s: int)

  const Empty := Buckets([], 1, [], 1, [], 1, [], 1, [], 1)

  /** The member of every line, in order. */
  function Labels(es: seq<Entry>, ext: seq<Point>, inn: seq<Point>): (ms: seq<Member>)
    requires |ext| == 9 && |inn| == 9
    ensures |ms| == |es| && forall k :: 0 <= k < |es| ==> ms[k] == MemberOf(es[k], ext, inn)
  {
    seq(|es|, k requires 0 <= k < |es| => MemberOf(es[k], ext, inn))
  }

  /** One pass of the loop body, for a line that falls in member m. */
  function Step(b: Buckets, e: Entry, m: Member): Buckets
  {
    match m
    case TopRight => b.(top := Update(b.top, b.t as real, RecOf(e)), t := b.t + 1)
    case TopLeft => b.(top := Update(b.top, b.t as real, RecOf(e)), t := 1)
    case Bottom => b.(bot := Update(b.bot, b.u as real, RecOf(e)), u := b.u + 1)
    case RightWeb => b.(right := Update(b.right, b.v as real, RecOf(e)), v := b.v + 1)
    case LeftWeb => b.(left := Update(b.left, b.w as real, RecOf(e)), w := b.w + 1)
    case MidWeb => b.(mid := Update(b.mid, b.s as real, RecOf(e)), s := b.s + 1)
    case NoMember => b
  }

  /**
   * The buckets after the loop has run over the lines es, line k falling in member ms[k]. The
   * classification of the source is `ClassifiedBy(es, Labels(es, ext, inn))`; the lemmas below hold
   * for every labelling, so for that one in particular.
   */
  function ClassifiedBy(es: seq<Entry>, ms: seq<Member>): Buckets
    requires |ms| == |es|
    decreases |es|
  {
    if |es| == 0 then Empty
    else Step(ClassifiedBy(es[..|es| - 1], ms[..|ms| - 1]), es[|es| - 1], ms[|ms| - 1])
  }

  function Classified(es: seq<Entry>, ext: seq<Point>, inn: seq<Point>): Buckets
    requires |ext| == 9 && |inn| == 9
  {
    ClassifiedBy(es, Labels(es, ext, inn))
  }

  /** The classification loop, with its five counters and dictionary updates. */
  method Classify(es: seq<Entry>, ext: seq<Point>, inn: seq<Point>) returns (b: Buckets)
    requires |ext| == 9 && |inn| == 9
    ensures b == Classified(es, ext, inn)
  {
    ghost var ms := Labels(es, ext, inn);
    var s, t, u, v, w := 1, 1, 1, 1, 1;
    var mid, top, bot, left, right: Dict<Rec> := [], [], [], [], [];
    for i := 0 to |es|
      invariant Buckets(top, t, bot, u, right, v, left, w, mid, s) == ClassifiedBy(es[..i], ms[..i])
    {
      ClassifiedSnoc(es, ms, i);
      var e := es[i];
      assert ms[i] == MemberOf(e, ext, inn);
      var q := Point(e.x2, e.y2);
      if PointOnLine(ext[0], ext[1], q) {
        top := Update(top, t as real, RecOf(e));
        t := t + 1;
      } else if PointOnLine(ext[0], MirrorPt(ext[1]), q) {
        top := Update(top, t as real, RecOf(e));
        t := 1;  // `t =+ 1`
      } else if PointOnLine(ext[7], ext[8], q) {
        bot := Update(bot, u as real, RecOf(e));
        u := u + 1;
      } else if PointOnLine(ext[5], ext[7], q) {
        right := Update(right, v as real, RecOf(e));
        v := v + 1;
      } else if PointOnLine(MirrorPt(ext[5]), MirrorPt(ext[7]), q) {
        left := Update(left, w as real, RecOf(e));
        w := w + 1;
      } else if PointOnLine(MirrorPt(inn[0]), MirrorPt(inn[8]), q) {
        mid := Update(mid, s as real, RecOf(e));
        s := s + 1;
      }
    }
    assert es[..|es|] == es && ms[..|ms|] == ms;
    b := Buckets(top, t, bot, u, right, v, left, w, mid, s);
  }

  lemma ClassifiedSnoc(es: seq<Entry>, ms: seq<Member>, i: int)
    requires |ms| == |es| && 0 <= i < |es|
    ensures ClassifiedBy(es[..i + 1], ms[..i + 1]) == Step(ClassifiedBy(es[..i], ms[..i]), es[i], ms[i])
  {
    assert es[..i + 1][..i] == es[..i] && ms[..i + 1][..i] == ms[..i];
  }

  // ---------------------------------------------------------------------------------------------
  // What ends up in each member
  // ---------------------------------------------------------------------------------------------

  /** The records of the lines that fall in member m, in order. */
  function Only(es: seq<Entry>, ms: seq<Member>, m: Member): (r: seq<Rec>)
    requires |ms| == |es|
    ensures |r| <= |es|
    decreases |es|
  {
    if |es| == 0 then []
    else
      Only(es[..|es| - 1], ms[..|ms| - 1], m) + (if ms[|ms| - 1] == m then [RecOf(es[|es| - 1])] else [])
  }

  lemma DenseAppend(s: seq<Rec>, x: Rec)
    ensures Dense(s + [x]) == Dense(s) + [((|s| + 1) as real, x)]
  {
  }

  lemma DenseHasKey(s: seq<Rec>, k: int)
    ensures HasKey(Dense(s), k as real) <==> 1 <= k <= |s|
  {
    if 1 <= k <= |s| {
      assert Dense(s)[k - 1].0 == k as real;
    }
  }

  /** Appending under the next key of a dense dictionary extends it by one. */
  lemma UpdateDenseNext(s: seq<Rec>, x: Rec)
    ensures Update(Dense(s), (|s| + 1) as real, x) == Dense(s + [x])
  {
    DenseHasKey(s, |s| + 1);
    DenseAppend(s, x);
  }

  /** The dictionary and the counter of a member other than the top flange. */
  function BucketOf(b: Buckets, m: Member): Dict<Rec>
  {
    match m
    case Bottom => b.bot
    case RightWeb => b.right
    case LeftWeb => b.left
    case MidWeb => b.mid
    case _ => b.top
  }

  function CounterOf(b: Buckets, m: Member): int
  {
    match m
    case Bottom => b.u
    case RightWeb => b.v
    case LeftWeb => b.w
    case MidWeb => b.s
    case _ => b.t
  }

  /** A step for a line of member m leaves every other member's dictionary and counter alone. */
  lemma StepOther(b: Buckets, e: Entry, m: Member, m': Member)
    requires m' in {Bottom, RightWeb, LeftWeb, MidWeb} && m != m'
    ensures BucketOf(Step(b, e, m), m') == BucketOf(b, m') && CounterOf(Step(b, e, m), m') == CounterOf(b, m')
  {
  }

  /**
   * The bottom flange and each web hold exactly the records of their lines, in order, under keys
   * 1, 2, ..., and the counter is one past the last key.
   */
  lemma {:induction false} MemberDense(es: seq<Entry>, ms: seq<Member>, m: Member)
    requires |ms| == |es|
    requires m in {Bottom, RightWeb, LeftWeb, MidWeb}
    ensures MemberState(ClassifiedBy(es, ms), m, Only(es, ms, m))
    decreases |es|
  {
    if |es| > 0 {
      var init, minit := es[..|es| - 1], ms[..|ms| - 1];
      MemberDense(init, minit, m);
      MemberStateStep(ClassifiedBy(init, minit), es[|es| - 1], ms[|ms| - 1], m, Only(init, minit, m));
    }
  }

  /** The dictionary of member m holds the records only under keys 1, 2, ..., its counter one past the last key. */
  predicate MemberState(b: Buckets, m: Member, only: seq<Rec>)
  {
    BucketOf(b, m) == Dense(only) && CounterOf(b, m) == |BucketOf(b, m)| + 1
  }

  lemma MemberStateStep(b0: Buckets, e: Entry, l: Member, m: Member, only: seq<Rec>)
    requires m in {Bottom, RightWeb, LeftWeb, MidWeb}
    requires MemberState(b0, m, only)
    ensures MemberState(Step(b0, e, l), m, only + (if l == m then [RecOf(e)] else []))
  {
    if l == m {
      UpdateDenseNext(only, RecOf(e));
    } else {
      StepOther(b0, e, l, m);
    }
  }

  /** A record of a top-flange line. */
  predicate TopRecord(es: seq<Entry>, ms: seq<Member>, r: Rec)
    requires |ms| == |es|
  {
    exists k :: 0 <= k < |es| && ms[k] in {TopRight, TopLeft} && RecOf(es[k]) == r
  }

  /**
   * Even with `t =+ 1` the top flange keeps keys 1 .. n in order (an overwrite reuses a key, a new key
   * is always the next one), and it holds only records of top-flange lines.
   */
  lemma {:induction false} TopDense(es: seq<Entry>, ms: seq<Member>)
    requires |ms| == |es|
    ensures var b := ClassifiedBy(es, ms);
      IsDense(b.top) && 1 <= b.t <= |b.top| + 1 && |b.top| <= |es| &&
      forall q :: 0 <= q < |b.top| ==> TopRecord(es, ms, b.top[q].1)
    decreases |es|
  {
    if |es| > 0 {
      var init, e, m := es[..|es| - 1], es[|es| - 1], ms[|ms| - 1];
      var minit := ms[..|ms| - 1];
      TopDense(init, minit);
      var b0 := ClassifiedBy(init, minit);
      forall q | 0 <= q < |b0.top| ensures TopRecord(es, ms, b0.top[q].1) {
        var k :| 0 <= k < |init| && minit[k] in {TopRight, TopLeft} && RecOf(init[k]) == b0.top[q].1;
        assert es[k] == init[k] && ms[k] == minit[k];
      }
      if m == TopRight || m == TopLeft {
        TopStep(es, ms, b0);
      }
    }
  }

  /** The step of a top-flange line keeps the top flange dense and made of top-flange records. */
  lemma TopStep(es: seq<Entry>, ms: seq<Member>, b0: Buckets)
    requires |ms| == |es| > 0 && ms[|ms| - 1] in {TopRight, TopLeft}
    requires IsDense(b0.top) && 1 <= b0.t <= |b0.top| + 1 && |b0.top| < |es|
    requires forall q :: 0 <= q < |b0.top| ==> TopRecord(es, ms, b0.top[q].1)
    ensures var top := Step(b0, es[|es| - 1], ms[|ms| - 1]).top;
      IsDense(top) && |top| <= |es| && forall q :: 0 <= q < |top| ==> TopRecord(es, ms, top[q].1)
  {
    var e := es[|es| - 1];
    var rec := RecOf(e);
    var top := Update(b0.top, b0.t as real, rec);
    assert Step(b0, e, ms[|ms| - 1]).top == top;
    assert TopRecord(es, ms, rec) by {
      assert ms[|es| - 1] in {TopRight, TopLeft} && RecOf(es[|es| - 1]) == rec;
    }
    if b0.t == |b0.top| + 1 {
      DenseOfValues(b0.top);
      UpdateDenseNext(Values(b0.top), rec);
      assert top == b0.top + [(b0.t as real, rec)];
    } else {
      assert b0.top[b0.t - 1].0 == b0.t as real;
      UpdateAt(b0.top, b0.t - 1, rec);
      assert top == b0.top[b0.t - 1 := (b0.t as real, rec)];
    }
    forall q | 0 <= q < |top| ensures TopRecord(es, ms, top[q].1) {
      if q < |b0.top| && q != b0.t - 1 {
        assert top[q] == b0.top[q];
      }
    }
  }

  /** In a dictionary with distinct keys, updating the key at position q replaces that entry only. */
  lemma UpdateAt(d: Dict<Rec>, q: int, x: Rec)
    requires 0 <= q < |d|
    requires IsDense(d)
    ensures Update(d, d[q].0, x) == d[q := (d[q].0, x)]
  {
    var r := Update(d, d[q].0, x);
    assert HasKey(d, d[q].0);
    UpdateFirst(d, d[q].0, x, q);
    assert r == d[q := (d[q].0, x)];
  }

  // ---------------------------------------------------------------------------------------------
  // The top flange and `t =+ 1`
  // ---------------------------------------------------------------------------------------------

  /** Without left-half top lines the top flange is numbered like the other members. */
  lemma {:induction false} TopWithoutLeft(es: seq<Entry>, ms: seq<Member>)
    requires |ms| == |es|
    requires forall k :: 0 <= k < |ms| ==> ms[k] != TopLeft
    ensures var b := ClassifiedBy(es, ms);
      b.top == Dense(Only(es, ms, TopRight)) && b.t == |b.top| + 1
    decreases |es|
  {
    if |es| > 0 {
      var init, e, minit := es[..|es| - 1], es[|es| - 1], ms[..|ms| - 1];
      assert forall k :: 0 <= k < |minit| ==> minit[k] == ms[k];
      TopWithoutLeft(init, minit);
      if ms[|ms| - 1] == TopRight {
        UpdateDenseNext(Only(init, minit, TopRight), RecOf(e));
      }
    }
  }

  /**
   * A level deck (the axis top vertex and the outer top vertex at the same height) puts every
   * top-flange foot on the first reference line, so the `t =+ 1` branch is never taken.
   */
  lemma LevelDeckHasNoLeftBranch(e: Entry, ext: seq<Point>, inn: seq<Point>)
    requires |ext| == 9 && |inn| == 9
    requires ext[0].x == 0.0 && ext[0].y == ext[1].y && ext[1].x != 0.0
    ensures MemberOf(e, ext, inn) != TopLeft
  {
    var q := Foot2(e);
    if PointOnLine(ext[0], MirrorPt(ext[1]), q) {
      assert (q.y - ext[0].y) * (-ext[1].x) == 0.0;
      assert q.y - ext[0].y == 0.0;
      assert PointOnLine(ext[0], ext[1], q);
    }
  }

  /** On a level deck the top flange of the source's classification is numbered like the other members. */
  lemma LevelDeckTop(es: seq<Entry>, ext: seq<Point>, inn: seq<Point>)
    requires |ext| == 9 && |inn| == 9
    requires ext[0].x == 0.0 && ext[0].y == ext[1].y && ext[1].x != 0.0
    ensures var b := Classified(es, ext, inn);
      b.top == Dense(Only(es, Labels(es, ext, inn), TopRight)) && b.t == |b.top| + 1
  {
    var ms := Labels(es, ext, inn);
    forall k | 0 <= k < |ms| ensures ms[k] != TopLeft {
      LevelDeckHasNoLeftBranch(es[k], ext, inn);
    }
    TopWithoutLeft(es, ms);
  }

  /** The last element of a non-empty sequence. */
  function Last(s: seq<Rec>): Rec
    requires |s| > 0
  {
    s[|s| - 1]
  }

  /** No right-half top line comes before a left-half one. */
  predicate LeftHalfFirst(ms: seq<Member>)
  {
    forall i, j :: 0 <= i < j < |ms| && ms[j] == TopLeft ==> ms[i] != TopRight
  }

  /**
   * The top flange in terms of the right-half and left-half records seen so far: numbered from the
   * first right-half record on, and before that at most the latest left-half record under key 1.
   */
  predicate TopState(b: Buckets, rights: seq<Rec>, lefts: seq<Rec>)
  {
    if |rights| > 0 then b.top == Dense(rights) && b.t == |b.top| + 1
    else b.t == 1 && b.top == (if |lefts| == 0 then [] else [(1.0, Last(lefts))])
  }

  lemma {:induction false} LeftHalfFirstState(es: seq<Entry>, ms: seq<Member>)
    requires |ms| == |es|
    requires LeftHalfFirst(ms)
    ensures TopState(ClassifiedBy(es, ms), Only(es, ms, TopRight), Only(es, ms, TopLeft))
    decreases |es|
  {
    if |es| > 0 {
      var init, e, minit := es[..|es| - 1], es[|es| - 1], ms[..|ms| - 1];
      assert LeftHalfFirst(minit) by {
        assert forall k :: 0 <= k < |minit| ==> minit[k] == ms[k];
      }
      LeftHalfFirstState(init, minit);
      var m := ms[|ms| - 1];
      if m == TopLeft {
        NoRightBeforeLeft(es, ms);
      }
      TopStateStep(ClassifiedBy(init, minit), e, m, Only(init, minit, TopRight), Only(init, minit, TopLeft));
    }
  }

  /** One step keeps TopState, provided a left-half line never follows a right-half one. */
  lemma TopStateStep(b0: Buckets, e: Entry, m: Member, rights: seq<Rec>, lefts: seq<Rec>)
    requires TopState(b0, rights, lefts)
    requires m == TopLeft ==> |rights| == 0
    ensures TopState(Step(b0, e, m), rights + (if m == TopRight then [RecOf(e)] else []),
      lefts + (if m == TopLeft then [RecOf(e)] else []))
  {
    if m == TopRight && |rights| > 0 {
      UpdateDenseNext(rights, RecOf(e));
    } else if m == TopRight {
      RestartTop(b0.top, RecOf(e));
      assert Dense([RecOf(e)]) == [(1.0, RecOf(e))];
    } else if m == TopLeft {
      RestartTop(b0.top, RecOf(e));
    }
  }

  /** The top flange before a restart holds at most the single key 1; writing key 1 leaves just the new record. */
  lemma RestartTop(top: Dict<Rec>, x: Rec)
    requires top == [] || (|top| == 1 && top[0].0 == 1.0)
    ensures Update(top, 1.0, x) == [(1.0, x)]
  {
    if top != [] {
      UpdateFirst(top, 1.0, x, 0);
    }
  }

  /** Under LeftHalfFirst, a left-half top line has no right-half top line before it. */
  lemma NoRightBeforeLeft(es: seq<Entry>, ms: seq<Member>)
    requires |ms| == |es|
    requires LeftHalfFirst(ms) && |ms| > 0 && ms[|ms| - 1] == TopLeft
    ensures |Only(es[..|es| - 1], ms[..|ms| - 1], TopRight)| == 0
  {
    var minit := ms[..|ms| - 1];
    forall i | 0 <= i < |minit| ensures minit[i] != TopRight {
      assert ms[i] == minit[i];
    }
    OnlyEmpty(es[..|es| - 1], minit, TopRight);
  }

  /** A member no line is labelled with gets no records. */
  lemma {:induction false} OnlyEmpty(es: seq<Entry>, ms: seq<Member>, m: Member)
    requires |ms| == |es|
    requires forall i :: 0 <= i < |ms| ==> ms[i] != m
    ensures |Only(es, ms, m)| == 0
    decreases |es|
  {
    if |es| > 0 {
      var minit := ms[..|ms| - 1];
      assert forall i :: 0 <= i < |minit| ==> minit[i] == ms[i];
      OnlyEmpty(es[..|es| - 1], minit, m);
    }
  }

  /**
   * When every left-half top line comes before every right-half one, `t =+ 1` makes the right half
   * overwrite the left half: the top flange ends up holding the right-half lines only.
   */
  lemma LeftHalfOverwritten(es: seq<Entry>, ms: seq<Member>)
    requires |ms| == |es|
    requires LeftHalfFirst(ms)
    requires exists k :: 0 <= k < |ms| && ms[k] == TopRight
    ensures ClassifiedBy(es, ms).top == Dense(Only(es, ms, TopRight))
  {
    LeftHalfFirstState(es, ms);
    var k :| 0 <= k < |ms| && ms[k] == TopRight;
    OnlyHas(es, ms, TopRight, k);
  }

  lemma {:induction false} OnlyHas(es: seq<Entry>, ms: seq<Member>, m: Member, k: int)
    requires |ms| == |es|
    requires 0 <= k < |ms| && ms[k] == m
    ensures |Only(es, ms, m)| > 0
    decreases |es|
  {
    var init, minit := es[..|es| - 1], ms[..|ms| - 1];
    if k < |ms| - 1 {
      assert minit[k] == ms[k];
      OnlyHas(init, minit, m, k);
    }
  }
}
