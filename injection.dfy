/**
 * The injection of the junction points into the member dictionaries
 * (backend/midasfn_npg.py:720-760). Each flange receives the top (or bottom) joint of every web
 * under keys 0.0001, 0.0002 and, with a middle web, 0.0003; each web receives its own top joint
 * under 0.0001 and its bottom joint under 0.0002.
 */
module Injection {
  import opened Common
  import opened Dicts
  import Connector

  /** The five member dictionaries, in the roles the classification gave them. */
  datatype Parts = Parts(top: Dict<Rec>, bot: Dict<Rec>, right: Dict<Rec>, left: Dict<Rec>, mid: Dict<Rec>)

  const K1: real := 0.0001
  const K2: real := 0.0002
  const K3: real := 0.0003

  /** A section has a middle web exactly when the classification filled `mid_web`. */
  predicate HasMid(p: Parts)
  {
    |p.mid| > 0
  }

  /** The joint lists hold an entry for every web injection reads: two, or three with a middle web. */
  predicate Fits(p: Parts, j: Connector.Joints)
  {
    |j.top| >= 2 && |j.bottom| >= 2 && (HasMid(p) ==> |j.top| >= 3 && |j.bottom| >= 3)
  }

  /** The flange update: joints 0 and 1 under K1 and K2, joint 2 under K3 when there is a middle web. */
  function AddJoints(d: Dict<Rec>, js: seq<Rec>, mid: bool): Dict<Rec>
    requires |js| >= 2 && (mid ==> |js| >= 3)
  {
    var d2 := Update(Update(d, K1, js[0]), K2, js[1]);
    if mid then Update(d2, K3, js[2]) else d2
  }

  /** The web update: the top joint under K1, the bottom joint under K2. */
  function AddEnds(d: Dict<Rec>, t: Rec, b: Rec): Dict<Rec>
  {
    Update(Update(d, K1, t), K2, b)
  }

  /** The update calls of the injection step, in the order of the source; mid_web is left alone when empty. */
  function Inject(p: Parts, j: Connector.Joints): Parts
    requires Fits(p, j)
  {
    var mid := HasMid(p);
    Parts(
      AddJoints(p.top, j.top, mid),
      AddJoints(p.bot, j.bottom, mid),
      AddEnds(p.right, j.top[1], j.bottom[1]),
      AddEnds(p.left, j.top[0], j.bottom[0]),
      if mid then AddEnds(p.mid, j.top[2], j.bottom[2]) else p.mid)
  }

  // ---------------------------------------------------------------------------------------------
  // What a lookup reads after the injection
  // ---------------------------------------------------------------------------------------------

  /** Whatever the dictionaries held before, the joint keys read the joints and other keys read as before. */
  lemma AddJointsReads(d: Dict<Rec>, js: seq<Rec>, mid: bool, k: real)
    requires |js| >= 2 && (mid ==> |js| >= 3)
    ensures var r := AddJoints(d, js, mid);
      Get(r, k) ==
        if k == K1 then Some(js[0])
        else if k == K2 then Some(js[1])
        else if k == K3 && mid then Some(js[2])
        else Get(d, k)
  {
    var d1 := Update(d, K1, js[0]);
    var d2 := Update(d1, K2, js[1]);
    GetUpdate(d, K1, js[0], k);
    GetUpdate(d1, K2, js[1], k);
    if mid {
      GetUpdate(d2, K3, js[2], k);
    }
  }

  lemma AddEndsReads(d: Dict<Rec>, t: Rec, b: Rec, k: real)
    ensures Get(AddEnds(d, t, b), k) == if k == K1 then Some(t) else if k == K2 then Some(b) else Get(d, k)
  {
    GetUpdate(d, K1, t, k);
    GetUpdate(Update(d, K1, t), K2, b, k);
  }

  /**
   * After the injection, each flange reads the joints of all webs under K1, K2 (and K3), each web
   * reads its own top joint under K1 and bottom joint under K2; every other key reads as before.
   */
  lemma InjectReads(p: Parts, j: Connector.Joints, k: real)
    requires Fits(p, j)
    ensures var r := Inject(p, j);
      Get(r.top, k) == (if k == K1 then Some(j.top[0]) else if k == K2 then Some(j.top[1])
        else if k == K3 && HasMid(p) then Some(j.top[2]) else Get(p.top, k)) &&
      Get(r.bot, k) == (if k == K1 then Some(j.bottom[0]) else if k == K2 then Some(j.bottom[1])
        else if k == K3 && HasMid(p) then Some(j.bottom[2]) else Get(p.bot, k)) &&
      Get(r.left, k) == (if k == K1 then Some(j.top[0]) else if k == K2 then Some(j.bottom[0]) else Get(p.left, k)) &&
      Get(r.right, k) == (if k == K1 then Some(j.top[1]) else if k == K2 then Some(j.bottom[1]) else Get(p.right, k)) &&
      (HasMid(p) ==>
        Get(r.mid, k) == (if k == K1 then Some(j.top[2]) else if k == K2 then Some(j.bottom[2]) else Get(p.mid, k))) &&
      (!HasMid(p) ==> r.mid == [])
  {
    AddJointsReads(p.top, j.top, HasMid(p), k);
    AddJointsReads(p.bot, j.bottom, HasMid(p), k);
    AddEndsReads(p.left, j.top[0], j.bottom[0], k);
    AddEndsReads(p.right, j.top[1], j.bottom[1], k);
    if HasMid(p) {
      AddEndsReads(p.mid, j.top[2], j.bottom[2], k);
    }
  }

  // ---------------------------------------------------------------------------------------------
  // On numbered dictionaries the joints are new entries at the end
  // ---------------------------------------------------------------------------------------------

  /** Keys 1 .. n never clash with the joint keys, which lie strictly between 0 and 1. */
  lemma DenseLacks(d: Dict<Rec>, k: real)
    requires IsDense(d) && 0.0 < k < 1.0
    ensures !HasKey(d, k)
  {
    forall i | 0 <= i < |d| ensures d[i].0 != k {
      assert d[i].0 == (i + 1) as real;
    }
  }

  lemma AppendFresh(d: Dict<Rec>, k: real, v: Rec)
    requires !HasKey(d, k)
    ensures Update(d, k, v) == d + [(k, v)]
  {
  }

  lemma Lacks2(d: Dict<Rec>, k: real, v: Rec, k': real)
    requires !HasKey(d, k') && k != k'
    ensures !HasKey(d + [(k, v)], k')
  {
    forall i | 0 <= i < |d| + 1 ensures (d + [(k, v)])[i].0 != k' {
      if i < |d| {
        assert (d + [(k, v)])[i] == d[i];
      }
    }
  }

  /** On a numbered flange the joints are appended after the flange's own records. */
  lemma AddJointsAppends(d: Dict<Rec>, js: seq<Rec>, mid: bool)
    requires IsDense(d) && |js| >= 2 && (mid ==> |js| >= 3)
    ensures AddJoints(d, js, mid) ==
      d + [(K1, js[0]), (K2, js[1])] + (if mid then [(K3, js[2])] else [])
  {
    DenseLacks(d, K1);
    DenseLacks(d, K2);
    DenseLacks(d, K3);
    var d1 := d + [(K1, js[0])];
    AppendFresh(d, K1, js[0]);
    Lacks2(d, K1, js[0], K2);
    AppendFresh(d1, K2, js[1]);
    var d2 := d1 + [(K2, js[1])];
    assert d2 == d + [(K1, js[0]), (K2, js[1])];
    if mid {
      Lacks2(d, K1, js[0], K3);
      Lacks2(d1, K2, js[1], K3);
      AppendFresh(d2, K3, js[2]);
    }
  }

  lemma AddEndsAppends(d: Dict<Rec>, t: Rec, b: Rec)
    requires IsDense(d)
    ensures AddEnds(d, t, b) == d + [(K1, t), (K2, b)]
  {
    DenseLacks(d, K1);
    DenseLacks(d, K2);
    AppendFresh(d, K1, t);
    Lacks2(d, K1, t, K2);
    AppendFresh(d + [(K1, t)], K2, b);
  }

  predicate AllDense(p: Parts)
  {
    IsDense(p.top) && IsDense(p.bot) && IsDense(p.right) && IsDense(p.left) && IsDense(p.mid)
  }

  /**
   * On the numbered member dictionaries the classification builds, every joint is a new record:
   * the members keep their records and gain the joints at the end, so the sorts that follow see
   * exactly the member's records plus its joints.
   */
  lemma InjectAppends(p: Parts, j: Connector.Joints)
    requires Fits(p, j) && AllDense(p)
    ensures var r := Inject(p, j);
      var extra := if HasMid(p) then 1 else 0;
      Values(r.top) == Values(p.top) + j.top[..2 + extra] &&
      Values(r.bot) == Values(p.bot) + j.bottom[..2 + extra] &&
      Values(r.right) == Values(p.right) + [j.top[1], j.bottom[1]] &&
      Values(r.left) == Values(p.left) + [j.top[0], j.bottom[0]] &&
      Values(r.mid) == Values(p.mid) + (if HasMid(p) then [j.top[2], j.bottom[2]] else [])
  {
    var mid := HasMid(p);
    AddJointsAppends(p.top, j.top, mid);
    AddJointsAppends(p.bot, j.bottom, mid);
    AddEndsAppends(p.right, j.top[1], j.bottom[1]);
    AddEndsAppends(p.left, j.top[0], j.bottom[0]);
    ValuesOfJoints(p.top, j.top, mid);
    ValuesOfJoints(p.bot, j.bottom, mid);
    ValuesOfEnds(p.right, j.top[1], j.bottom[1]);
    ValuesOfEnds(p.left, j.top[0], j.bottom[0]);
    if mid {
      AddEndsAppends(p.mid, j.top[2], j.bottom[2]);
      ValuesOfEnds(p.mid, j.top[2], j.bottom[2]);
    }
  }

  lemma ValuesOfJoints(d: Dict<Rec>, js: seq<Rec>, mid: bool)
    requires |js| >= 2 && (mid ==> |js| >= 3)
    ensures Values(d + [(K1, js[0]), (K2, js[1])] + (if mid then [(K3, js[2])] else [])) ==
      Values(d) + js[..if mid then 3 else 2]
  {
    var tail := [(K1, js[0]), (K2, js[1])] + (if mid then [(K3, js[2])] else []);
    ValuesAppend(d, tail);
    assert d + [(K1, js[0]), (K2, js[1])] + (if mid then [(K3, js[2])] else []) == d + tail;
    assert Values(tail) == js[..if mid then 3 else 2];
  }

  lemma ValuesOfEnds(d: Dict<Rec>, t: Rec, b: Rec)
    ensures Values(d + [(K1, t), (K2, b)]) == Values(d) + [t, b]
  {
    ValuesAppend(d, [(K1, t), (K2, b)]);
  }
}
