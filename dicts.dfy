/** Python dictionaries as association lists that keep insertion order. */
module Dicts {
  import opened Common

  /** A dictionary with `real` keys (Python's ints and floats hash alike), in insertion order. */
  type Dict<V> = seq<(real, V)>

  function Keys<V>(d: Dict<V>): (r: seq<real>)
    ensures |r| == |d| && forall i :: 0 <= i < |d| ==> r[i] == d[i].0
  {
    seq(|d|, i requires 0 <= i < |d| => d[i].0)
  }

  function Values<V>(d: Dict<V>): (r: seq<V>)
    ensures |r| == |d| && forall i :: 0 <= i < |d| ==> r[i] == d[i].1
  {
    seq(|d|, i requires 0 <= i < |d| => d[i].1)
  }

  /** Every key occurs once, which `Update` maintains. */
  predicate DistinctKeys<V>(d: Dict<V>)
  {
    forall i, j :: 0 <= i < j < |d| ==> d[i].0 != d[j].0
  }

  predicate HasKey<V>(d: Dict<V>, k: real)
  {
    exists i :: 0 <= i < |d| && d[i].0 == k
  }

  /** `d[k]`, or None where Python raises KeyError (GetFirst, GetMissing). */
  function Get<V>(d: Dict<V>, k: real): Option<V>
    decreases |d|
  {
    if |d| == 0 then None
    else if d[0].0 == k then Some(d[0].1)
    else Get(d[1..], k)
  }

  /** A lookup reads the value of the first entry with the key. */
  lemma {:induction false} GetFirst<V>(d: Dict<V>, k: real, q: int)
    requires 0 <= q < |d| && d[q].0 == k
    requires forall j :: 0 <= j < q ==> d[j].0 != k
    ensures Get(d, k) == Some(d[q].1)
    decreases q
  {
    if q > 0 {
      assert d[1..][q - 1] == d[q];
      GetFirst(d[1..], k, q - 1);
    }
  }

  /** A lookup of a key that is not there fails. */
  lemma {:induction false} GetMissing<V>(d: Dict<V>, k: real)
    requires !HasKey(d, k)
    ensures Get(d, k) == None
    decreases |d|
  {
    if |d| > 0 {
      assert !HasKey(d[1..], k) by {
        forall i | 0 <= i < |d[1..]| ensures d[1..][i].0 != k {
          assert d[1..][i] == d[i + 1];
        }
      }
      GetMissing(d[1..], k);
    }
  }

  /** In a dictionary with distinct keys the entry with key k is found at its place. */
  lemma GetDistinct<V>(d: Dict<V>, q: int)
    requires DistinctKeys(d) && 0 <= q < |d|
    ensures Get(d, d[q].0) == Some(d[q].1)
  {
    GetFirst(d, d[q].0, q);
  }

  /** `d.update({k: v})`: an existing key keeps its place and takes the new value; a new key goes last. */
  function Update<V>(d: Dict<V>, k: real, v: V): (r: Dict<V>)
    ensures HasKey(d, k) ==> |r| == |d|
    ensures !HasKey(d, k) ==> r == d + [(k, v)]
    ensures forall i :: 0 <= i < |d| ==> r[i].0 == d[i].0
    ensures forall i :: 0 <= i < |d| && d[i].0 != k ==> r[i] == d[i]
    decreases |d|
  {
    if |d| == 0 then [(k, v)]
    else if d[0].0 == k then [(k, v)] + d[1..]
    else
      assert !HasKey(d, k) ==> !HasKey(d[1..], k);
      assert HasKey(d, k) ==> HasKey(d[1..], k) by {
        if HasKey(d, k) {
          var i :| 0 <= i < |d| && d[i].0 == k;
          assert d[1..][i - 1].0 == k;
        }
      }
      [d[0]] + Update(d[1..], k, v)
  }

  /** `r` keeps every key of `d` at its position (and may have more entries after them). */
  predicate KeepsKeys<V>(d: Dict<V>, r: Dict<V>)
  {
    |d| <= |r| && forall q :: 0 <= q < |d| ==> r[q].0 == d[q].0
  }

  /** After an update the key reads back the new value and every other key reads as before. */
  lemma {:induction false} GetUpdate<V>(d: Dict<V>, k: real, v: V, k': real)
    ensures Get(Update(d, k, v), k') == if k' == k then Some(v) else Get(d, k')
    decreases |d|
  {
    if |d| > 0 && d[0].0 != k {
      GetUpdate(d[1..], k, v, k');
      var r := Update(d, k, v);
      assert r[1..] == Update(d[1..], k, v);
    } else if |d| > 0 {
      var r := Update(d, k, v);
      assert r[1..] == d[1..];
    }
  }

  /** Updating a key overwrites its first entry in place. */
  lemma {:induction false} UpdateFirst<V>(d: Dict<V>, k: real, v: V, q: int)
    requires 0 <= q < |d| && d[q].0 == k
    requires forall j :: 0 <= j < q ==> d[j].0 != k
    ensures Update(d, k, v)[q] == (k, v)
    decreases q
  {
    if q > 0 {
      assert d[1..][q - 1] == d[q];
      UpdateFirst(d[1..], k, v, q - 1);
    }
  }

  lemma UpdateDistinct<V>(d: Dict<V>, k: real, v: V)
    requires DistinctKeys(d)
    ensures DistinctKeys(Update(d, k, v))
  {
    var r := Update(d, k, v);
    if !HasKey(d, k) {
      forall i, j | 0 <= i < j < |r| ensures r[i].0 != r[j].0 {
        if j == |d| {
          assert r[i].0 == d[i].0;
        }
      }
    }
  }

  /** The dictionary `{1: s[0], 2: s[1], …}` that enumerate(…, start=1) builds. */
  function Dense<V>(s: seq<V>): (r: Dict<V>)
    ensures |r| == |s|
    ensures forall i :: 0 <= i < |s| ==> r[i] == ((i + 1) as real, s[i])
  {
    seq(|s|, i requires 0 <= i < |s| => ((i + 1) as real, s[i]))
  }

  /** The keys are exactly 1 .. |d|, in this order. */
  predicate IsDense<V>(d: Dict<V>)
  {
    forall i :: 0 <= i < |d| ==> d[i].0 == (i + 1) as real
  }

  lemma DenseOfValues<V>(d: Dict<V>)
    requires IsDense(d)
    ensures d == Dense(Values(d))
  {
  }

  /** In a dense dictionary `d[k]` is the k-th value. */
  lemma GetDense<V>(s: seq<V>, k: int)
    requires 1 <= k <= |s|
    ensures Get(Dense(s), k as real) == Some(s[k - 1])
  {
    GetFirst(Dense(s), k as real, k - 1);
  }

  /** A lookup finds the first entry with the key, so entries appended later do not hide it. */
  lemma {:induction false} GetAppend<V>(a: Dict<V>, b: Dict<V>, k: real)
    requires HasKey(a, k)
    ensures Get(a + b, k) == Get(a, k)
    decreases |a|
  {
    if a[0].0 != k {
      var i :| 0 <= i < |a| && a[i].0 == k;
      assert a[1..][i - 1].0 == k;
      GetAppend(a[1..], b, k);
      assert (a + b)[1..] == a[1..] + b;
    }
  }

  lemma ValuesAppend<V>(a: Dict<V>, b: Dict<V>)
    ensures Values(a + b) == Values(a) + Values(b)
  {
  }

  lemma ValuesRemove<V>(b: Dict<V>, i: nat)
    requires i < |b|
    ensures multiset(Values(b)) == multiset(Values(b[..i] + b[i + 1..])) + multiset{b[i].1}
  {
    var l, x, r := b[..i], b[i], b[i + 1..];
    assert Values(b) == Values(l) + [x.1] + Values(r) && Values(l + r) == Values(l) + Values(r) by {
      assert b == l + [x] + r;
      ValuesAppend(l + [x], r);
      ValuesAppend(l, [x]);
      ValuesAppend(l, r);
    }
    MultisetSplit(Values(b), Values(l), Values(r), x.1);
  }

  lemma MultisetSplit<T>(s: seq<T>, l: seq<T>, r: seq<T>, y: T)
    requires s == l + [y] + r
    ensures multiset(s) == multiset(l + r) + multiset{y}
  {
  }

  lemma MultisetRemove<T>(b: seq<T>, i: nat)
    requires i < |b|
    ensures multiset(b[..i] + b[i + 1..]) == multiset(b) - multiset{b[i]}
  {
    assert b == b[..i] + [b[i]] + b[i + 1..];
  }

  lemma ValuesPermutationStep<V>(a: Dict<V>, b: Dict<V>, i: nat)
    requires 0 < |a| && i < |b| && b[i] == a[0]
    requires multiset(Values(a[1..])) == multiset(Values(b[..i] + b[i + 1..]))
    ensures multiset(Values(a)) == multiset(Values(b))
  {
    ValuesRemove(b, i);
    ValuesHead(a);
  }

  lemma ValuesHead<V>(a: Dict<V>)
    requires 0 < |a|
    ensures multiset(Values(a)) == multiset(Values(a[1..])) + multiset{a[0].1}
  {
    assert Values(a) == [a[0].1] + Values(a[1..]);
  }

  /** Permuting the entries permutes the values. */
  lemma {:induction false} ValuesPermutation<V>(a: Dict<V>, b: Dict<V>)
    requires multiset(a) == multiset(b)
    ensures multiset(Values(a)) == multiset(Values(b))
    decreases |a|
  {
    if |a| == 0 {
      assert |b| == |multiset(b)| == 0;
    } else {
      assert a[0] in multiset(b);
      var i :| 0 <= i < |b| && b[i] == a[0];
      var rest := b[..i] + b[i + 1..];
      assert multiset(a[1..]) == multiset(rest) by {
        MultisetRemove(b, i);
        MultisetRemove(a, 0);
        assert a[..0] + a[1..] == a[1..];
      }
      ValuesPermutation(a[1..], rest);
      ValuesPermutationStep(a, b, i);
    }
  }
}
