/** Sequence helpers the pipeline is built from: first-occurrence deduplication and Python's stable sort. */
module Seqs {

  // ---------------------------------------------------------------------------------------------
  // First occurrences
  // ---------------------------------------------------------------------------------------------

  /** Some element of `s` has key `k`. */
  predicate Seen<T, K(==)>(s: seq<T>, key: T -> K, k: K)
  {
    exists i :: 0 <= i < |s| && key(s[i]) == k
  }

  /** The elements of `s` whose key does not occur earlier in `s`, in their original order. */
  function FirstBy<T, K(==)>(s: seq<T>, key: T -> K): seq<T>
    decreases |s|
  {
    if |s| == 0 then []
    else
      var init := s[..|s| - 1];
      FirstBy(init, key) + (if Seen(init, key, key(s[|s| - 1])) then [] else [s[|s| - 1]])
  }

  function Id<T>(x: T): T { x }

  /** Under the identity key, "seen" is plain membership. */
  lemma SeenId<T>(s: seq<T>, p: T)
    ensures Seen(s, Id, p) <==> p in s
  {
    var key: T -> T := Id;
    if p in s {
      var i :| 0 <= i < |s| && s[i] == p;
      assert key(s[i]) == p;
    }
  }

  /** `a` is obtained from `b` by deleting elements. */
  predicate IsSubseq<T(==)>(a: seq<T>, b: seq<T>)
    decreases |b|
  {
    |a| == 0 ||
    (|b| > 0 &&
      (IsSubseq(a, b[..|b| - 1]) ||
        (a[|a| - 1] == b[|b| - 1] && IsSubseq(a[..|a| - 1], b[..|b| - 1]))))
  }

  lemma FirstByAppend<T, K>(s: seq<T>, a: T, key: T -> K)
    ensures FirstBy(s + [a], key) == FirstBy(s, key) + (if Seen(s, key, key(a)) then [] else [a])
  {
    assert (s + [a])[..|s|] == s;
  }

  /** Deduplication neither loses nor invents a key. */
  lemma {:induction false} FirstBySeen<T, K>(s: seq<T>, key: T -> K, k: K)
    ensures Seen(FirstBy(s, key), key, k) <==> Seen(s, key, k)
    decreases |s|
  {
    if |s| > 0 {
      var init := s[..|s| - 1];
      var last := s[|s| - 1];
      FirstBySeen(init, key, k);
      assert s == init + [last];
      FirstByAppend(init, last, key);
      var p := FirstBy(init, key);
      var r := FirstBy(s, key);
      assert forall j :: 0 <= j < |p| ==> r[j] == p[j];
      if Seen(s, key, k) {
        var i :| 0 <= i < |s| && key(s[i]) == k;
        if i < |s| - 1 {
          assert key(init[i]) == k;
          var j :| 0 <= j < |p| && key(p[j]) == k;
          assert key(r[j]) == k;
        } else if Seen(init, key, key(last)) {
          var j :| 0 <= j < |p| && key(p[j]) == k;
          assert key(r[j]) == k;
        } else {
          assert key(r[|p|]) == k;
        }
      }
      if Seen(r, key, k) {
        var i :| 0 <= i < |r| && key(r[i]) == k;
        if i < |p| {
          assert key(p[i]) == k;
          var j :| 0 <= j < |init| && key(init[j]) == k;
          assert key(s[j]) == k;
        } else {
          assert key(s[|s| - 1]) == k;
        }
      }
    }
  }

  /** Survivors are elements of the input. */
  lemma {:induction false} FirstByMember<T, K>(s: seq<T>, key: T -> K, x: T)
    requires x in FirstBy(s, key)
    ensures x in s
    decreases |s|
  {
    var init := s[..|s| - 1];
    assert s == init + [s[|s| - 1]];
    FirstByAppend(init, s[|s| - 1], key);
    if x in FirstBy(init, key) {
      FirstByMember(init, key, x);
    }
  }

  /** No two survivors share a key. */
  lemma {:induction false} FirstByDistinct<T, K>(s: seq<T>, key: T -> K)
    ensures var r := FirstBy(s, key);
      forall i, j :: 0 <= i < j < |r| ==> key(r[i]) != key(r[j])
    decreases |s|
  {
    if |s| > 0 {
      var init := s[..|s| - 1];
      var last := s[|s| - 1];
      FirstByDistinct(init, key);
      assert s == init + [last];
      FirstByAppend(init, last, key);
      if !Seen(init, key, key(last)) {
        var p := FirstBy(init, key);
        var r := FirstBy(s, key);
        forall i, j | 0 <= i < j < |r| ensures key(r[i]) != key(r[j]) {
          if j == |p| {
            if key(r[i]) == key(r[j]) {
              assert key(p[i]) == key(last);
              FirstBySeen(init, key, key(last));
              assert false;
            }
          } else {
            assert r[i] == p[i] && r[j] == p[j];
          }
        }
      }
    }
  }

  lemma IsSubseqExtend<T>(a: seq<T>, b: seq<T>, x: T)
    requires IsSubseq(a, b)
    ensures IsSubseq(a, b + [x])
  {
    assert (b + [x])[..|b|] == b;
  }

  /** Survivors keep their relative order: the result is a subsequence of the input. */
  lemma {:induction false} FirstBySubseq<T, K>(s: seq<T>, key: T -> K)
    ensures IsSubseq(FirstBy(s, key), s)
    decreases |s|
  {
    if |s| > 0 {
      var init, last := s[..|s| - 1], s[|s| - 1];
      FirstBySubseq(init, key);
      var p := FirstBy(init, key);
      if Seen(init, key, key(last)) {
        IsSubseqExtend(p, init, last);
        assert s == init + [last];
        assert FirstBy(s, key) == p;
      } else {
        IsSubseqSnoc(p, init, last);
        assert s == init + [last];
      }
    }
  }

  lemma IsSubseqSnoc<T>(a: seq<T>, b: seq<T>, x: T)
    requires IsSubseq(a, b)
    ensures IsSubseq(a + [x], b + [x])
  {
    assert (a + [x])[..|a|] == a && (b + [x])[..|b|] == b;
  }

  /** The earliest element carrying each key survives. */
  lemma {:induction false} FirstByKeepsEarliest<T, K>(s: seq<T>, key: T -> K, k: nat)
    requires k < |s| && !Seen(s[..k], key, key(s[k]))
    ensures s[k] in FirstBy(s, key)
    decreases |s|
  {
    var init := s[..|s| - 1];
    var last := s[|s| - 1];
    assert s == init + [last];
    FirstByAppend(init, last, key);
    if k < |s| - 1 {
      assert init[..k] == s[..k];
      FirstByKeepsEarliest(init, key, k);
    } else {
      assert init == s[..k];
    }
  }

  /** No two elements of `s` share a key. */
  predicate KeysDistinct<T, K(==)>(s: seq<T>, key: T -> K)
  {
    forall i, j :: 0 <= i < j < |s| ==> key(s[i]) != key(s[j])
  }

  /** Dropping the last element keeps the keys distinct, and the last key was not seen before it. */
  lemma DistinctInit<T, K>(s: seq<T>, key: T -> K)
    requires |s| > 0 && KeysDistinct(s, key)
    ensures KeysDistinct(s[..|s| - 1], key) && !Seen(s[..|s| - 1], key, key(s[|s| - 1]))
  {
    var init := s[..|s| - 1];
    forall i | 0 <= i < |init| ensures init[i] == s[i] && key(init[i]) != key(s[|s| - 1]) {
      assert key(s[i]) != key(s[|s| - 1]);
    }
  }

  /** A sequence whose keys are already distinct is its own deduplication. */
  lemma {:induction false} FirstByOfDistinct<T, K>(s: seq<T>, key: T -> K)
    requires KeysDistinct(s, key)
    ensures FirstBy(s, key) == s
    decreases |s|
  {
    if |s| > 0 {
      var init, last := s[..|s| - 1], s[|s| - 1];
      DistinctInit(s, key);
      FirstByOfDistinct(init, key);
      assert s == init + [last];
    }
  }

  /** Each element whose key was already seen shortens the result by one. */
  lemma {:induction false} FirstByLength<T, K>(s: seq<T>, key: T -> K)
    ensures |FirstBy(s, key)| <= |s|
    ensures forall k :: 0 <= k < |s| && Seen(s[..k], key, key(s[k])) ==> |FirstBy(s, key)| <= |s| - 1
    decreases |s|
  {
    if |s| > 0 {
      var init := s[..|s| - 1];
      FirstByLength(init, key);
      assert s == init + [s[|s| - 1]];
      FirstByAppend(init, s[|s| - 1], key);
      forall k | 0 <= k < |s| && Seen(s[..k], key, key(s[k])) ensures |FirstBy(s, key)| <= |s| - 1 {
        if k < |s| - 1 {
          assert init[..k] == s[..k];
        } else {
          assert init == s[..k];
        }
      }
    }
  }

  /** Two repeated positions shorten the result by two. */
  lemma {:induction false} FirstByLengthTwo<T, K>(s: seq<T>, key: T -> K, k1: nat, k2: nat)
    requires k1 < k2 < |s|
    requires Seen(s[..k1], key, key(s[k1])) && Seen(s[..k2], key, key(s[k2]))
    ensures |FirstBy(s, key)| <= |s| - 2
    decreases |s|
  {
    var init := s[..|s| - 1];
    assert s == init + [s[|s| - 1]];
    FirstByAppend(init, s[|s| - 1], key);
    if k2 < |s| - 1 {
      assert init[..k1] == s[..k1] && init[..k2] == s[..k2];
      FirstByLengthTwo(init, key, k1, k2);
    } else {
      assert init == s[..k2];
      assert init[..k1] == s[..k1];
      FirstByLength(init, key);
    }
  }

  // ---------------------------------------------------------------------------------------------
  // Python's sorted(): a stable sort on a lexicographic (real, real) key
  // ---------------------------------------------------------------------------------------------

  /** Python's `<=` on a pair of floats. */
  predicate LexLe(a: (real, real), b: (real, real))
  {
    a.0 < b.0 || (a.0 == b.0 && a.1 <= b.1)
  }

  predicate SortedBy<T>(s: seq<T>, key: T -> (real, real))
  {
    forall i, j :: 0 <= i < j < |s| ==> LexLe(key(s[i]), key(s[j]))
  }

  /** Insert `x` in front of the first element whose key is not smaller than its own. */
  function Insert<T(==)>(x: T, s: seq<T>, key: T -> (real, real)): (r: seq<T>)
    ensures |r| == |s| + 1
    ensures multiset(r) == multiset{x} + multiset(s)
    decreases |s|
  {
    if |s| == 0 then [x]
    else if LexLe(key(x), key(s[0])) then [x] + s
    else
      assert s == [s[0]] + s[1..];
      [s[0]] + Insert(x, s[1..], key)
  }

  lemma {:induction false} InsertSorted<T>(x: T, s: seq<T>, key: T -> (real, real))
    requires SortedBy(s, key)
    ensures SortedBy(Insert(x, s, key), key)
    decreases |s|
  {
    if |s| > 0 && !LexLe(key(x), key(s[0])) {
      var rest := Insert(x, s[1..], key);
      InsertSorted(x, s[1..], key);
      var r := [s[0]] + rest;
      forall y | y in rest ensures LexLe(key(s[0]), key(y)) {
        assert y in multiset(rest);
        if y != x {
          assert y in multiset(s[1..]);
          var j :| 0 <= j < |s[1..]| && s[1..][j] == y;
          assert s[j + 1] == y;
        }
      }
      forall i, j | 0 <= i < j < |r| ensures LexLe(key(r[i]), key(r[j])) {
        if i == 0 {
          assert r[j] == rest[j - 1];
          assert r[j] in rest;
        } else {
          assert r[i] == rest[i - 1] && r[j] == rest[j - 1];
        }
      }
    }
  }

  /** `sorted(s, key=key)`: a permutation of `s`, ordered by `key`. */
  function SortBy<T(==)>(s: seq<T>, key: T -> (real, real)): (r: seq<T>)
    ensures |r| == |s|
    ensures multiset(r) == multiset(s)
    ensures SortedBy(r, key)
    decreases |s|
  {
    if |s| == 0 then []
    else
      assert s == [s[0]] + s[1..];
      InsertSorted(s[0], SortBy(s[1..], key), key);
      Insert(s[0], SortBy(s[1..], key), key)
  }

  /** The elements of `s` whose key is exactly `c`, in order. */
  function WithKey<T>(s: seq<T>, key: T -> (real, real), c: (real, real)): seq<T>
    decreases |s|
  {
    if |s| == 0 then []
    else (if key(s[0]) == c then [s[0]] else []) + WithKey(s[1..], key, c)
  }

  lemma WithKeyCons<T>(y: T, t: seq<T>, key: T -> (real, real), c: (real, real))
    ensures WithKey([y] + t, key, c) == (if key(y) == c then [y] else []) + WithKey(t, key, c)
  {
    assert ([y] + t)[1..] == t;
  }

  lemma SwapEmpty<T>(a: seq<T>, b: seq<T>, w: seq<T>)
    requires a == [] || b == []
    ensures a + (b + w) == b + (a + w)
  {
    if a == [] {
      assert a + (b + w) == b + w == b + (a + w);
    } else {
      assert a + (b + w) == a + w == b + (a + w);
    }
  }

  lemma {:induction false} InsertWithKey<T>(x: T, s: seq<T>, key: T -> (real, real), c: (real, real))
    ensures WithKey(Insert(x, s, key), key, c) == (if key(x) == c then [x] else []) + WithKey(s, key, c)
    decreases |s|
  {
    if |s| == 0 {
      WithKeyCons(x, [], key, c);
      assert [x] + [] == [x];
    } else if LexLe(key(x), key(s[0])) {
      WithKeyCons(x, s, key, c);
    } else {
      var rest := Insert(x, s[1..], key);
      InsertWithKey(x, s[1..], key, c);
      WithKeyCons(s[0], rest, key, c);
      WithKeyCons(s[0], s[1..], key, c);
      assert s == [s[0]] + s[1..];
      var a: seq<T> := if key(s[0]) == c then [s[0]] else [];
      var b: seq<T> := if key(x) == c then [x] else [];
      var w := WithKey(s[1..], key, c);
      assert a == [] || b == [];
      SwapEmpty(a, b, w);
    }
  }

  /** Stability: elements with equal keys keep their relative order. */
  lemma {:induction false} SortStable<T>(s: seq<T>, key: T -> (real, real), c: (real, real))
    ensures WithKey(SortBy(s, key), key, c) == WithKey(s, key, c)
    decreases |s|
  {
    if |s| > 0 {
      SortStable(s[1..], key, c);
      InsertWithKey(s[0], SortBy(s[1..], key), key, c);
    }
  }

  /** With pairwise distinct keys, two sorted permutations of each other are equal. */
  lemma {:induction false} SortedUnique<T>(a: seq<T>, b: seq<T>, key: T -> (real, real))
    requires SortedBy(a, key) && SortedBy(b, key)
    requires multiset(a) == multiset(b)
    requires forall i, j :: 0 <= i < j < |a| ==> key(a[i]) != key(a[j])
    ensures a == b
    decreases |a|
  {
    assert |a| == |multiset(a)| == |multiset(b)| == |b|;
    if |a| > 0 {
      SortedHeads(a, b, key);
      assert a == [a[0]] + a[1..];
      assert b == [b[0]] + b[1..];
      assert multiset(a[1..]) == multiset(a) - multiset{a[0]};
      assert multiset(b[1..]) == multiset(b) - multiset{b[0]};
      SortedUnique(a[1..], b[1..], key);
    }
  }

  /** Both sorted permutations start with the element of least key. */
  lemma SortedHeads<T>(a: seq<T>, b: seq<T>, key: T -> (real, real))
    requires SortedBy(a, key) && SortedBy(b, key)
    requires multiset(a) == multiset(b) && |a| == |b| > 0
    requires forall i, j :: 0 <= i < j < |a| ==> key(a[i]) != key(a[j])
    ensures a[0] == b[0]
  {
    assert a[0] in multiset(b);
    assert b[0] in multiset(a);
    var i :| 0 <= i < |b| && b[i] == a[0];
    var j :| 0 <= j < |a| && a[j] == b[0];
    assert LexLe(key(a[0]), key(a[j]));
    assert LexLe(key(b[0]), key(b[i]));
    assert key(a[0]) == key(a[j]);
    assert j == 0;
  }
}
