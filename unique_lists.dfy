/**
 * unique_lists(li1, li2) (backend/midasfn_npg.py:370-380): drop the positions whose pair
 * (li1[k], li2[k]) already occurred earlier, deleting in place from both lists.
 *
 * The Python code collects `indices_to_remove` with one entry per EARLIER equal position, so a pair
 * that occurs three or more times contributes the same index twice; deleting in descending order
 * then deletes past the end (IndexError) or deletes a different element. `AsWritten` models that
 * code, and the boundary builder uses it; `UniqueLists` deletes each repeated position once, which
 * is what the function is for. The two agree whenever no index is listed twice.
 */
module UniqueLists {
  import opened Common
  import opened Seqs

  type Pair = (real, real)

  function Zip(a: seq<real>, b: seq<real>): (r: seq<Pair>)
    requires |a| == |b|
    ensures |r| == |a| && forall k :: 0 <= k < |a| ==> r[k] == (a[k], b[k])
  {
    seq(|a|, k requires 0 <= k < |a| => (a[k], b[k]))
  }

  function Firsts(ps: seq<Pair>): (r: seq<real>)
    ensures |r| == |ps| && forall k :: 0 <= k < |ps| ==> r[k] == ps[k].0
  {
    seq(|ps|, k requires 0 <= k < |ps| => ps[k].0)
  }

  function Seconds(ps: seq<Pair>): (r: seq<real>)
    ensures |r| == |ps| && forall k :: 0 <= k < |ps| ==> r[k] == ps[k].1
  {
    seq(|ps|, k requires 0 <= k < |ps| => ps[k].1)
  }

  lemma UnzipZip(a: seq<real>, b: seq<real>)
    requires |a| == |b|
    ensures Firsts(Zip(a, b)) == a && Seconds(Zip(a, b)) == b
  {
  }

  // ---------------------------------------------------------------------------------------------
  // The index list and the deletions
  // ---------------------------------------------------------------------------------------------

  /** The j appended by the inner loop for row i while j runs over lo .. hi-1. */
  function Row(ps: seq<Pair>, i: nat, lo: nat, hi: nat): seq<nat>
    requires i < |ps| && hi <= |ps|
    decreases hi
  {
    if hi <= lo then []
    else Row(ps, i, lo, hi - 1) + (if ps[i] == ps[hi - 1] then [hi - 1] else [])
  }

  /** indices_to_remove after the outer loop has done rows 0 .. i-1. */
  function Removals(ps: seq<Pair>, i: nat): seq<nat>
    requires i <= |ps|
  {
    if i == 0 then [] else Removals(ps, i - 1) + Row(ps, i - 1, i, |ps|)
  }

  /** Key of `sorted(…, reverse = True)` on indices. */
  function DescKey(k: nat): (real, real) { (-(k as real), 0.0) }

  function Delete(ps: seq<Pair>, k: nat): seq<Pair>
    requires k < |ps|
  {
    ps[..k] + ps[k + 1..]
  }

  /** `del li1[index]; del li2[index]` for each index in turn; an index past the end raises IndexError. */
  function DeleteAll(ps: seq<Pair>, order: seq<nat>): Result<seq<Pair>>
    decreases |order|
  {
    if |order| == 0 then Ok(ps)
    else if order[0] < |ps| then DeleteAll(Delete(ps, order[0]), order[1..])
    else Err(IndexError)
  }

  /** unique_lists exactly as written: indices may repeat. */
  function AsWritten(li1: seq<real>, li2: seq<real>): Result<(seq<real>, seq<real>)>
  {
    if |li1| != |li2| then Ok((li1, li2))
    else
      var ps := Zip(li1, li2);
      match DeleteAll(ps, SortBy(Removals(ps, |ps|), DescKey))
      case Ok(qs) => Ok((Firsts(qs), Seconds(qs)))
      case Err(e) => Err(e)
  }

  /** The intended index list: each index once, in the order it is first found. */
  function Corrected(li1: seq<real>, li2: seq<real>): Result<(seq<real>, seq<real>)>
  {
    if |li1| != |li2| then Ok((li1, li2))
    else
      var ps := Zip(li1, li2);
      match DeleteAll(ps, SortBy(RemovalsOnce(ps), DescKey))
      case Ok(qs) => Ok((Firsts(qs), Seconds(qs)))
      case Err(e) => Err(e)
  }

  // ---------------------------------------------------------------------------------------------
  // The deletions remove exactly the listed positions
  // ---------------------------------------------------------------------------------------------

  /** ps without the positions in `gone`. */
  function KeepOut(ps: seq<Pair>, gone: set<nat>): seq<Pair>
    decreases |ps|
  {
    if |ps| == 0 then []
    else KeepOut(ps[..|ps| - 1], gone) + (if |ps| - 1 in gone then [] else [ps[|ps| - 1]])
  }

  lemma {:induction false} KeepOutAppend(a: seq<Pair>, b: seq<Pair>, gone: set<nat>)
    requires forall k :: k in gone ==> k < |a|
    ensures KeepOut(a + b, gone) == KeepOut(a, gone) + b
    decreases |b|
  {
    if |b| == 0 {
      assert a + b == a;
    } else {
      var b' := b[..|b| - 1];
      KeepOutAppend(a, b', gone);
      assert (a + b)[..|a + b| - 1] == a + b';
      assert b == b' + [b[|b| - 1]];
    }
  }

  lemma {:induction false} KeepOutAgree(ps: seq<Pair>, g1: set<nat>, g2: set<nat>)
    requires forall k :: k < |ps| ==> (k in g1 <==> k in g2)
    ensures KeepOut(ps, g1) == KeepOut(ps, g2)
    decreases |ps|
  {
    if |ps| > 0 {
      KeepOutAgree(ps[..|ps| - 1], g1, g2);
    }
  }

  predicate StrictlyDescending(order: seq<nat>)
  {
    forall i, j :: 0 <= i < j < |order| ==> order[i] > order[j]
  }

  /** Deleting distinct positions from the highest down removes exactly those positions. */
  lemma {:induction false} DeleteDescending(ps: seq<Pair>, order: seq<nat>)
    requires StrictlyDescending(order)
    requires forall i :: 0 <= i < |order| ==> order[i] < |ps|
    ensures DeleteAll(ps, order) == Ok(KeepOut(ps, set k | k in order))
    decreases |order|
  {
    var gone := set k | k in order;
    if |order| == 0 {
      KeepOutAgree(ps, gone, {});
      KeepOutAppend([], ps, {});
      assert [] + ps == ps;
      assert KeepOut([], {}) == [];
    } else {
      var m, rest := order[0], order[1..];
      var gone' := set k | k in rest;
      assert forall i :: 0 <= i < |rest| ==> rest[i] == order[i + 1] && rest[i] < m;
      DeleteDescending(Delete(ps, m), rest);
      forall k | k < m ensures k in gone <==> k in gone' {
        if k in gone {
          var i :| 0 <= i < |order| && order[i] == k;
          assert i > 0 && rest[i - 1] == k;
        }
      }
      KeepOutTop(ps, m, gone, gone');
    }
  }

  /** Dropping the highest deleted position m first leaves the positions below m to drop. */
  lemma KeepOutTop(ps: seq<Pair>, m: nat, gone: set<nat>, gone': set<nat>)
    requires m < |ps| && m in gone
    requires forall k :: k in gone ==> k <= m
    requires forall k :: k in gone' ==> k < m
    requires forall k :: k < m ==> (k in gone <==> k in gone')
    ensures KeepOut(ps, gone) == KeepOut(Delete(ps, m), gone')
  {
    var lo, hi := ps[..m], ps[m + 1..];
    KeepOutAppend(lo, hi, gone');
    assert Delete(ps, m) == lo + hi;
    KeepOutAppend(ps[..m + 1], hi, gone);
    assert ps == ps[..m + 1] + hi;
    assert ps[..m + 1][..m] == lo;
    assert KeepOut(ps[..m + 1], gone) == KeepOut(lo, gone);
    KeepOutAgree(lo, gone, gone');
  }

  /** The positions whose pair already occurred earlier. */
  function Repeats(ps: seq<Pair>): set<nat>
  {
    set k: nat | k < |ps| && Seen(ps[..k], Id, ps[k])
  }

  lemma {:induction false} KeepOutRepeats(ps: seq<Pair>, gone: set<nat>)
    requires forall k: nat :: k < |ps| ==> (k in gone <==> Seen(ps[..k], Id, ps[k]))
    ensures KeepOut(ps, gone) == FirstBy(ps, Id)
    decreases |ps|
  {
    if |ps| > 0 {
      var init := ps[..|ps| - 1];
      forall k: nat | k < |init| ensures k in gone <==> Seen(init[..k], Id, init[k]) {
        assert init[..k] == ps[..k];
      }
      KeepOutRepeats(init, gone);
    }
  }

  /** Row i lists only later positions that repeat ps[i] ... */
  lemma {:induction false} RowSound(ps: seq<Pair>, i: nat, lo: nat, hi: nat, k: nat)
    requires i < |ps| && hi <= |ps| && k in Row(ps, i, lo, hi)
    ensures lo <= k < hi && ps[k] == ps[i]
    decreases hi
  {
    var init := Row(ps, i, lo, hi - 1);
    if k in init {
      RowSound(ps, i, lo, hi - 1, k);
    }
  }

  /** Membership in a concatenation, one direction at a time. */
  lemma InSplit(a: seq<nat>, b: seq<nat>, k: nat)
    requires k in a + b
    ensures k in a || k in b
  {
  }

  /** Every listed index repeats the pair of an earlier row, which w names. */
  lemma {:induction false} RemovalsSound(ps: seq<Pair>, i: nat, k: nat) returns (w: nat)
    requires i <= |ps| && k in Removals(ps, i)
    ensures k < |ps| && w < i && w < k && ps[w] == ps[k]
  {
    var a, b := Removals(ps, i - 1), Row(ps, i - 1, i, |ps|);
    InSplit(a, b, k);
    if k in a {
      w := RemovalsSound(ps, i - 1, k);
    } else {
      RowSound(ps, i - 1, i, |ps|, k);
      w := i - 1;
    }
  }

  /** ... and all of them. */
  lemma {:induction false} RowComplete(ps: seq<Pair>, i: nat, lo: nat, hi: nat, k: nat)
    requires i < |ps| && hi <= |ps| && lo <= k < hi && ps[k] == ps[i]
    ensures k in Row(ps, i, lo, hi)
    decreases hi
  {
    if k < hi - 1 {
      RowComplete(ps, i, lo, hi - 1, k);
    }
  }

  lemma InAppend(a: seq<nat>, b: seq<nat>, k: nat)
    requires k in a || k in b
    ensures k in a + b
  {
  }

  /** Every position repeating the pair of an earlier row i' < i is listed. */
  lemma {:induction false} RemovalsComplete(ps: seq<Pair>, i: nat, k: nat, i': nat)
    requires i <= |ps| && k < |ps| && i' < i && i' < k && ps[i'] == ps[k]
    ensures k in Removals(ps, i)
  {
    if i' < i - 1 {
      RemovalsComplete(ps, i - 1, k, i');
    } else {
      RowComplete(ps, i - 1, i, |ps|, k);
    }
    InAppend(Removals(ps, i - 1), Row(ps, i - 1, i, |ps|), k);
  }

  /** Some position before both i and k holds the pair at k. */
  predicate Earlier(ps: seq<Pair>, i: nat, k: nat)
    requires k < |ps|
  {
    exists i' :: 0 <= i' < i && i' < k && ps[i'] == ps[k]
  }

  /** After rows 0 .. i-1, the list holds exactly the positions k that repeat the pair of some earlier row. */
  lemma RemovalsElems(ps: seq<Pair>, i: nat, k: nat)
    requires i <= |ps|
    ensures k in Removals(ps, i) <==> k < |ps| && Earlier(ps, i, k)
  {
    if k in Removals(ps, i) {
      var w := RemovalsSound(ps, i, k);
    }
    if k < |ps| && Earlier(ps, i, k) {
      var i' :| 0 <= i' < i && i' < k && ps[i'] == ps[k];
      RemovalsComplete(ps, i, k, i');
    }
  }

  lemma RemovalsAreRepeats(ps: seq<Pair>, k: nat)
    ensures k in Removals(ps, |ps|) <==> k in Repeats(ps)
  {
    RemovalsElems(ps, |ps|, k);
    if k < |ps| && Seen(ps[..k], Id, ps[k]) {
      var i' :| 0 <= i' < k && Id(ps[..k][i']) == ps[k];
      assert ps[i'] == ps[k];
    }
    if k < |ps| && Earlier(ps, |ps|, k) {
      var i' :| 0 <= i' < |ps| && i' < k && ps[i'] == ps[k];
      assert Id(ps[..k][i']) == ps[k];
    }
  }

  predicate Distinct(idx: seq<nat>)
  {
    forall i, j :: 0 <= i < j < |idx| ==> idx[i] != idx[j]
  }

  /** Sorting distinct indices in reverse gives a strictly descending list with the same elements. */
  lemma SortDescDistinct(idx: seq<nat>)
    requires forall i, j :: 0 <= i < j < |idx| ==> idx[i] != idx[j]
    ensures var order := SortBy(idx, DescKey);
      StrictlyDescending(order) && (forall k :: k in order <==> k in idx)
  {
    var order := SortBy(idx, DescKey);
    forall k ensures k in order <==> k in idx {
      assert k in order <==> k in multiset(order);
    }
    forall i, j | 0 <= i < j < |order| ensures order[i] > order[j] {
      assert LexLe(DescKey(order[i]), DescKey(order[j]));
      if order[i] == order[j] {
        DistinctAfterPermutation(idx, order, i, j);
      }
    }
  }

  lemma DistinctAfterPermutation(idx: seq<nat>, order: seq<nat>, i: int, j: int)
    requires forall a, b :: 0 <= a < b < |idx| ==> idx[a] != idx[b]
    requires multiset(order) == multiset(idx)
    requires 0 <= i < j < |order|
    ensures order[i] != order[j]
  {
    var v := order[i];
    if order[j] == v {
      var rest := order[..i] + order[i + 1..];
      assert order == order[..i] + [v] + order[i + 1..];
      assert order[j] in order[i + 1..];
      assert multiset(order)[v] >= 2;
      DistinctCount(idx, v);
      assert false;
    }
  }

  lemma {:induction false} DistinctCount(idx: seq<nat>, v: nat)
    requires forall a, b :: 0 <= a < b < |idx| ==> idx[a] != idx[b]
    ensures multiset(idx)[v] <= 1
    decreases |idx|
  {
    if |idx| > 0 {
      var init := idx[..|idx| - 1];
      DistinctCount(init, v);
      assert idx == init + [idx[|idx| - 1]];
      if idx[|idx| - 1] == v {
        assert v !in init;
      }
    }
  }

  /** The index list of the corrected function: each collected index once. */
  function RemovalsOnce(ps: seq<Pair>): seq<nat>
  {
    FirstBy<nat, nat>(Removals(ps, |ps|), Id)
  }

  lemma RemovalsOnceDistinct(ps: seq<Pair>)
    ensures Distinct(RemovalsOnce(ps))
  {
    var idx := RemovalsOnce(ps);
    var key: nat -> nat := Id;
    FirstByDistinct<nat, nat>(Removals(ps, |ps|), key);
    assert idx == FirstBy<nat, nat>(Removals(ps, |ps|), key);
    forall i, j | 0 <= i < j < |idx| ensures idx[i] != idx[j] {
      assert key(idx[i]) != key(idx[j]);
    }
  }

  lemma RemovalsOnceElems(ps: seq<Pair>, k: nat)
    ensures k in RemovalsOnce(ps) <==> k in Repeats(ps)
  {
    var idx := RemovalsOnce(ps);
    var key: nat -> nat := Id;
    FirstBySeen<nat, nat>(Removals(ps, |ps|), Id, k);
    RemovalsAreRepeats(ps, k);
    if k in idx {
      var i :| 0 <= i < |idx| && idx[i] == k;
      assert key(idx[i]) == k;
    }
    if k in Removals(ps, |ps|) {
      var i :| 0 <= i < |Removals(ps, |ps|)| && Removals(ps, |ps|)[i] == k;
      assert key(Removals(ps, |ps|)[i]) == k;
    }
  }

  /** The corrected deletion keeps exactly the first occurrence of every pair. */
  lemma CorrectedRemovesRepeats(ps: seq<Pair>)
    ensures DeleteAll(ps, SortBy(RemovalsOnce(ps), DescKey)) == Ok(FirstBy(ps, Id))
  {
    var order := SortBy(RemovalsOnce(ps), DescKey);
    CorrectedOrder(ps);
    DeleteDescending(ps, order);
    var gone := set k | k in order;
    forall k: nat | k < |ps| ensures k in gone <==> Seen(ps[..k], Id, ps[k]) {
      assert k in gone <==> k in order;
    }
    KeepOutRepeats(ps, gone);
  }

  /** The corrected deletion order: strictly descending, in range, and made of the repeated positions. */
  lemma CorrectedOrder(ps: seq<Pair>)
    ensures var order := SortBy<nat>(RemovalsOnce(ps), DescKey);
      StrictlyDescending(order) && (forall i :: 0 <= i < |order| ==> order[i] < |ps|) &&
      forall k: nat :: k < |ps| ==> (k in order <==> Seen(ps[..k], Id, ps[k]))
  {
    var order := SortBy<nat>(RemovalsOnce(ps), DescKey);
    RemovalsOnceDistinct(ps);
    SortDescDistinct(RemovalsOnce(ps));
    forall k: nat ensures k in order <==> k in Repeats(ps) {
      OrderElems(ps, k);
    }
    forall i | 0 <= i < |order| ensures order[i] < |ps| {
      OrderElems(ps, order[i]);
    }
  }

  lemma OrderElems(ps: seq<Pair>, k: nat)
    ensures k in SortBy<nat>(RemovalsOnce(ps), DescKey) <==> k in Repeats(ps)
    ensures k in Repeats(ps) <==> k < |ps| && Seen(ps[..k], Id, ps[k])
  {
    var idx := RemovalsOnce(ps);
    var order := SortBy<nat>(idx, DescKey);
    assert k in order <==> k in multiset(order);
    assert k in idx <==> k in multiset(idx);
    RemovalsOnceElems(ps, k);
  }

  // ---------------------------------------------------------------------------------------------
  // The contract of the corrected function and its agreement with the code as written
  // ---------------------------------------------------------------------------------------------

  /** Equal-length lists lose exactly the later copies of repeated pairs; other lists are left alone. */
  lemma CorrectedIsFirstOccurrences(li1: seq<real>, li2: seq<real>)
    ensures |li1| != |li2| ==> Corrected(li1, li2) == Ok((li1, li2))
    ensures |li1| == |li2| ==>
      var ps := Zip(li1, li2);
      Corrected(li1, li2) == Ok((Firsts(FirstBy(ps, Id)), Seconds(FirstBy(ps, Id))))
  {
    if |li1| == |li2| {
      CorrectedRemovesRepeats(Zip(li1, li2));
    }
  }

  /** Where no index is collected twice, the code as written computes the same lists. */
  lemma AsWrittenAgrees(li1: seq<real>, li2: seq<real>)
    requires |li1| == |li2|
    requires Distinct(Removals(Zip(li1, li2), |li1|))
    ensures AsWritten(li1, li2) == Corrected(li1, li2)
  {
    var idx := Removals(Zip(li1, li2), |li1|);
    var key: nat -> nat := Id;
    assert KeysDistinct(idx, key) by {
      forall i, j | 0 <= i < j < |idx| ensures key(idx[i]) != key(idx[j]) {
        assert idx[i] != idx[j];
      }
    }
    FirstByOfDistinct<nat, nat>(idx, key);
  }

  lemma TripleRemovals()
    ensures var ps := Zip([0.0, 0.0, 0.0], [0.0, 0.0, 0.0]);
      ps == [(0.0, 0.0), (0.0, 0.0), (0.0, 0.0)] && Removals(ps, 3) == [1, 2, 2]
  {
    var ps := Zip([0.0, 0.0, 0.0], [0.0, 0.0, 0.0]);
    assert ps == [(0.0, 0.0), (0.0, 0.0), (0.0, 0.0)];
    assert Row(ps, 0, 1, 3) == [1, 2];
    assert Row(ps, 1, 2, 3) == [2];
    assert Row(ps, 2, 3, 3) == [];
  }

  lemma TripleOrder()
    ensures var found: seq<nat> := [1, 2, 2]; SortBy(found, DescKey) == [2, 2, 1]
  {
    var found: seq<nat> := [1, 2, 2];
    var last: seq<nat> := [2];
    var lastTwo: seq<nat> := [2, 2];
    assert found[1..] == lastTwo && lastTwo[1..] == last;
    var none: seq<nat> := [];
    var one: seq<nat> := [1];
    assert last[1..] == none;
    assert SortBy(none, DescKey) == none;
    assert Insert(2, none, DescKey) == [2];
    assert SortBy(last, DescKey) == [2];
    assert Insert(2, last, DescKey) == [2, 2];
    assert SortBy(lastTwo, DescKey) == [2, 2];
    assert Insert(1, none, DescKey) == [1];
    assert last[1..] == none && lastTwo[1..] == last;
    assert !LexLe(DescKey(1), DescKey(2));
    assert Insert(1, last, DescKey) == [2] + Insert(1, none, DescKey) == [2, 1];
    assert Insert(1, lastTwo, DescKey) == [2] + Insert(1, last, DescKey) == [2, 2, 1];
  }

  /** A pair occurring three times: index 2 is collected twice and the second deletion fails. */
  lemma AsWrittenFailsOnTriple()
    ensures AsWritten([0.0, 0.0, 0.0], [0.0, 0.0, 0.0]) == Err(IndexError)
  {
    TripleRemovals();
    TripleOrder();
    TripleDelete([(0.0, 0.0), (0.0, 0.0), (0.0, 0.0)]);
  }

  /** Deleting positions 2, 2, 1 from three entries: the second deletion is past the end. */
  lemma TripleDelete(ps: seq<Pair>)
    requires |ps| == 3
    ensures DeleteAll(ps, [2, 2, 1]) == Err(IndexError)
  {
    var order: seq<nat> := [2, 2, 1];
    var rest: seq<nat> := [2, 1];
    assert order[1..] == rest;
    var two := Delete(ps, 2);
    assert |two| == 2;
    assert DeleteAll(two, rest) == Err(IndexError);
  }

  // ---------------------------------------------------------------------------------------------
  // The imperative procedures
  // ---------------------------------------------------------------------------------------------

  lemma ZipDelete(l1: seq<real>, l2: seq<real>, k: nat)
    requires |l1| == |l2| && k < |l1|
    ensures Zip(l1[..k] + l1[k + 1..], l2[..k] + l2[k + 1..]) == Delete(Zip(l1, l2), k)
  {
  }

  /** The deletion loop `for index in order: del li1[index]; del li2[index]`. */
  method DeleteIndices(li1: seq<real>, li2: seq<real>, order: seq<nat>) returns (r: Result<(seq<real>, seq<real>)>)
    requires |li1| == |li2|
    ensures r.Ok? <==> DeleteAll(Zip(li1, li2), order).Ok?
    ensures r.Ok? ==> |r.value.0| == |r.value.1| && Zip(r.value.0, r.value.1) == DeleteAll(Zip(li1, li2), order).value
    ensures r.Err? ==> r == Err(IndexError) && DeleteAll(Zip(li1, li2), order) == Err(IndexError)
  {
    var l1, l2 := li1, li2;
    var k := 0;
    while k < |order|
      invariant 0 <= k <= |order|
      invariant |l1| == |l2|
      invariant DeleteAll(Zip(li1, li2), order) == DeleteAll(Zip(l1, l2), order[k..])
    {
      var index := order[k];
      assert order[k..][0] == index && order[k..][1..] == order[k + 1..];
      if index >= |l1| {
        return Err(IndexError);
      }
      ZipDelete(l1, l2, index);
      l1 := l1[..index] + l1[index + 1..];
      l2 := l2[..index] + l2[index + 1..];
      k := k + 1;
    }
    return Ok((l1, l2));
  }

  /** Row i, once the inner loop has run to the end, completes the list for rows 0 .. i. */
  lemma RemovalsNext(ps: seq<Pair>, i: nat)
    requires i < |ps|
    ensures Removals(ps, i + 1) == Removals(ps, i) + Row(ps, i, i + 1, |ps|)
    ensures Removals(ps, i) + Row(ps, i, i + 1, i + 1) == Removals(ps, i)
  {
  }

  lemma RowStep(ps: seq<Pair>, i: nat, j: nat)
    requires i < |ps| && i + 1 <= j < |ps|
    ensures Row(ps, i, i + 1, j + 1) == Row(ps, i, i + 1, j) + (if ps[i] == ps[j] then [j] else [])
  {
  }

  /** The two loops that collect `indices_to_remove`, appending j each time ps[i] == ps[j]. */
  method CollectRemovals(ps: seq<Pair>) returns (indices: seq<nat>)
    ensures indices == Removals(ps, |ps|)
  {
    indices := [];
    for i := 0 to |ps|
      invariant indices == Removals(ps, i)
    {
      RemovalsNext(ps, i);
      for j := i + 1 to |ps|
        invariant indices == Removals(ps, i) + Row(ps, i, i + 1, j)
      {
        RowStep(ps, i, j);
        if ps[i] == ps[j] {
          indices := indices + [j];
        }
      }
    }
  }

  /** One step of the inner loop when duplicates are skipped. */
  lemma OnceStep(ps: seq<Pair>, i: nat, j: nat, indices: seq<nat>)
    requires i < |ps| && i + 1 <= j < |ps|
    requires indices == FirstBy<nat, nat>(Removals(ps, i) + Row(ps, i, i + 1, j), Id)
    ensures FirstBy<nat, nat>(Removals(ps, i) + Row(ps, i, i + 1, j + 1), Id)
      == if ps[i] == ps[j] && j !in indices then indices + [j] else indices
  {
    RowStep(ps, i, j);
    var before := Removals(ps, i) + Row(ps, i, i + 1, j);
    if ps[i] == ps[j] {
      FirstByAppend<nat, nat>(before, j, Id);
      FirstBySeen<nat, nat>(before, Id, j);
      assert Seen(indices, Id, j) <==> j in indices by {
        if j in indices {
          var k :| 0 <= k < |indices| && indices[k] == j;
          assert Id(indices[k]) == j;
        }
      }
      assert before + [j] == Removals(ps, i) + Row(ps, i, i + 1, j + 1);
    } else {
      assert before == Removals(ps, i) + Row(ps, i, i + 1, j + 1);
    }
  }

  /** The same loops, skipping an index that is already listed. */
  method CollectRemovalsOnce(ps: seq<Pair>) returns (indices: seq<nat>)
    ensures indices == RemovalsOnce(ps)
  {
    indices := [];
    for i := 0 to |ps|
      invariant indices == FirstBy<nat, nat>(Removals(ps, i), Id)
    {
      RemovalsNext(ps, i);
      for j := i + 1 to |ps|
        invariant indices == FirstBy<nat, nat>(Removals(ps, i) + Row(ps, i, i + 1, j), Id)
      {
        OnceStep(ps, i, j, indices);
        if ps[i] == ps[j] && j !in indices {
          indices := indices + [j];
        }
      }
    }
  }

  /** unique_lists as written. */
  method UniqueListsAsWritten(li1: seq<real>, li2: seq<real>) returns (r: Result<(seq<real>, seq<real>)>)
    ensures r == AsWritten(li1, li2)
  {
    if |li1| != |li2| {
      return Ok((li1, li2));
    }
    var ps := Zip(li1, li2);
    var indices := CollectRemovals(ps);
    r := DeleteIndices(li1, li2, SortBy(indices, DescKey));
    if r.Ok? {
      var qs := Zip(r.value.0, r.value.1);
      assert Firsts(qs) == r.value.0 && Seconds(qs) == r.value.1;
    }
  }

  /**
   * unique_lists with each repeated position deleted once: equal-length lists end without two
   * positions holding the same pair, each pair keeps its earliest position, and the survivors keep
   * their order; lists of different lengths are returned unchanged.
   */
  method UniqueLists(li1: seq<real>, li2: seq<real>) returns (r1: seq<real>, r2: seq<real>)
    ensures |li1| != |li2| ==> r1 == li1 && r2 == li2
    ensures |li1| == |li2| ==> |r1| == |r2| && Zip(r1, r2) == FirstBy(Zip(li1, li2), Id)
    ensures |li1| == |li2| ==> forall i, j :: 0 <= i < j < |r1| ==> (r1[i], r2[i]) != (r1[j], r2[j])
    ensures |li1| == |li2| ==> IsSubseq(Zip(r1, r2), Zip(li1, li2))
    ensures |li1| == |li2| ==> forall k :: 0 <= k < |li1| && !Seen(Zip(li1, li2)[..k], Id, (li1[k], li2[k])) ==>
      (li1[k], li2[k]) in Zip(r1, r2)
  {
    if |li1| != |li2| {
      return li1, li2;
    }
    var ps := Zip(li1, li2);
    var indices := CollectRemovalsOnce(ps);
    CorrectedRemovesRepeats(ps);
    var r := DeleteIndices(li1, li2, SortBy(indices, DescKey));
    r1, r2 := r.value.0, r.value.1;
    FirstByDistinct(ps, Id);
    FirstBySubseq(ps, Id);
    forall k | 0 <= k < |li1| && !Seen(ps[..k], Id, (li1[k], li2[k])) ensures (li1[k], li2[k]) in Zip(r1, r2) {
      FirstByKeepsEarliest(ps, Id, k);
    }
    forall i, j | 0 <= i < j < |r1| ensures (r1[i], r2[i]) != (r1[j], r2[j]) {
      assert Zip(r1, r2)[i] == (r1[i], r2[i]) && Zip(r1, r2)[j] == (r1[j], r2[j]);
    }
  }
}
