/**
 * The table of thickness lines built in PSC_1CEL_XY (backend/midasfn_npg.py:664-691): each line is
 * stored under its position in `ortho_lines` unless a line with the same two endpoints is already
 * stored, and the survivors are then ordered by their midpoint (xm, then ym).
 */
module LineTable {
  import opened Common
  import opened Seqs
  import opened Dicts
  import opened OrthoLines

  /** The record stored for a thickness line: endpoints, thickness, slope and midpoint. */
  datatype Entry = Entry(x1: real, y1: real, x2: real, y2: real, thk: real, slope: real, xm: real, ym: real)

  /** The record for one line; a vertical line is given the slope 10000. */
  function ToEntry(o: Ortho): (e: Entry)
    ensures e.x1 == o.x1 && e.y1 == o.y1 && e.x2 == o.x2 && e.y2 == o.y2 && e.thk == o.thk
    ensures o.x2 != o.x1 ==> e.slope * (o.x2 - o.x1) == o.y2 - o.y1
    ensures o.x2 == o.x1 ==> e.slope == 10000.0
    ensures e.xm - o.x1 == o.x2 - e.xm && e.ym - o.y1 == o.y2 - e.ym
  {
    var m := if o.x2 - o.x1 != 0.0 then (o.y2 - o.y1) / (o.x2 - o.x1) else 10000.0;
    Entry(o.x1, o.y1, o.x2, o.y2, o.thk, m, (o.x1 + o.x2) / 2.0, (o.y1 + o.y2) / 2.0)
  }

  /** What the duplicate test compares: the two endpoints. */
  function Ends(e: Entry): (real, real, real, real)
  {
    (e.x1, e.y1, e.x2, e.y2)
  }

  function EndsOf(item: (real, Entry)): (real, real, real, real)
  {
    Ends(item.1)
  }

  /** Every line under its position, before duplicates are dropped. */
  function Indexed(lines: seq<Ortho>): (r: Dict<Entry>)
    ensures |r| == |lines| && forall i :: 0 <= i < |lines| ==> r[i] == (i as real, ToEntry(lines[i]))
  {
    seq(|lines|, i requires 0 <= i < |lines| => (i as real, ToEntry(lines[i])))
  }

  lemma IndexedPrefix(lines: seq<Ortho>, i: nat)
    requires i <= |lines|
    ensures Indexed(lines)[..i] == Indexed(lines[..i])
  {
  }

  lemma IndexedSnoc(lines: seq<Ortho>, i: nat)
    requires i < |lines|
    ensures Indexed(lines[..i + 1]) == Indexed(lines[..i]) + [(i as real, ToEntry(lines[i]))]
  {
    assert lines[..i + 1][..i] == lines[..i];
  }

  /** A stored key is the position of its line. */
  lemma TableKeysBelow(lines: seq<Ortho>, i: nat, q: int)
    requires i <= |lines|
    requires 0 <= q < |FirstBy(Indexed(lines[..i]), EndsOf)|
    ensures FirstBy(Indexed(lines[..i]), EndsOf)[q].0 < i as real
  {
    var t := FirstBy(Indexed(lines[..i]), EndsOf);
    FirstByMember(Indexed(lines[..i]), EndsOf, t[q]);
  }

  /** The inner scan of the dedup loop: `update` drops to 0 once a stored line has e's endpoints. */
  method UpdateFlag(dic: Dict<Entry>, e: Entry) returns (update: int)
    ensures update == (if Seen(dic, EndsOf, Ends(e)) then 0 else 1)
  {
    update := 1;
    for j := 0 to |dic|
      invariant update == (if exists q :: 0 <= q < j && EndsOf(dic[q]) == Ends(e) then 0 else 1)
    {
      if dic[j].1.x1 == e.x1 && dic[j].1.y1 == e.y1 && dic[j].1.x2 == e.x2 && dic[j].1.y2 == e.y2 {
        update := 0;
      }
    }
  }

  /** The duplicate-dropping loop: `dic` gets line i under key i unless its endpoints are already stored. */
  method BuildTable(lines: seq<Ortho>) returns (dic: Dict<Entry>)
    ensures dic == FirstBy(Indexed(lines), EndsOf)
  {
    dic := [];
    for i := 0 to |lines|
      invariant dic == FirstBy(Indexed(lines[..i]), EndsOf)
    {
      var e := ToEntry(lines[i]);
      var update := UpdateFlag(dic, e);
      var prefix := Indexed(lines[..i]);
      IndexedSnoc(lines, i);
      FirstByAppend(prefix, (i as real, e), EndsOf);
      FirstBySeen(prefix, EndsOf, Ends(e));
      if update == 1 {
        assert !HasKey(dic, i as real) by {
          forall q | 0 <= q < |dic| ensures dic[q].0 != i as real {
            TableKeysBelow(lines, i, q);
          }
        }
        dic := Update(dic, i as real, e);
      }
    }
    assert lines[..|lines|] == lines;
  }

  /**
   * The table keeps one line per pair of endpoints, the first in `ortho_lines` order, under its own
   * position; no two stored lines share endpoints and every line's endpoints are represented.
   */
  lemma TableFacts(lines: seq<Ortho>)
    ensures var t := FirstBy(Indexed(lines), EndsOf);
      DistinctKeys(t) &&
      (forall i, j :: 0 <= i < j < |t| ==> Ends(t[i].1) != Ends(t[j].1)) &&
      (forall q :: 0 <= q < |t| ==> 0.0 <= t[q].0 < |lines| as real && t[q].1 == ToEntry(lines[t[q].0.Floor])) &&
      (forall k :: 0 <= k < |lines| ==> Seen(t, EndsOf, Ends(ToEntry(lines[k])))) &&
      IsSubseq(t, Indexed(lines))
  {
    var s := Indexed(lines);
    var t := FirstBy(s, EndsOf);
    FirstByDistinct(s, EndsOf);
    FirstBySubseq(s, EndsOf);
    forall q | 0 <= q < |t| ensures 0.0 <= t[q].0 < |lines| as real && t[q].1 == ToEntry(lines[t[q].0.Floor]) {
      FirstByMember(s, EndsOf, t[q]);
    }
    forall i, j | 0 <= i < j < |t| ensures t[i].0 != t[j].0 {
      assert EndsOf(t[i]) != EndsOf(t[j]);
      FirstByMember(s, EndsOf, t[i]);
      FirstByMember(s, EndsOf, t[j]);
    }
    forall k | 0 <= k < |lines| ensures Seen(t, EndsOf, Ends(ToEntry(lines[k]))) {
      assert EndsOf(s[k]) == Ends(ToEntry(lines[k]));
      FirstBySeen(s, EndsOf, Ends(ToEntry(lines[k])));
    }
  }

  /** The sort key of `sorted(dic.items(), key = (xm, ym))`. */
  function ByMidpoint(e: Entry): (real, real)
  {
    (e.xm, e.ym)
  }

  /** The stored lines in midpoint order, which `new_dic` numbers 0, 1, ... (backend/midasfn_npg.py:690-691). */
  function Ordered(dic: Dict<Entry>): (r: seq<Entry>)
    ensures multiset(r) == multiset(Values(dic)) && SortedBy(r, ByMidpoint)
    ensures forall c :: WithKey(r, ByMidpoint, c) == WithKey(Values(dic), ByMidpoint, c)
  {
    var r := SortBy(Values(dic), ByMidpoint);
    forall c ensures WithKey(r, ByMidpoint, c) == WithKey(Values(dic), ByMidpoint, c) {
      SortStable(Values(dic), ByMidpoint, c);
    }
    r
  }
}
