/** `Series.sort_values` on a series of labelled numbers, and the label
    sequence `.index` of the result. A series is a sequence of
    (label, value) pairs. */
module Sorting {

  /** Every label occurs at most once. */
  ghost predicate Distinct<K(!new)>(s: seq<K>)
  {
    forall x :: multiset(s)[x] <= 1
  }

  lemma DistinctTail<K(!new)>(s: seq<K>)
    requires s != []
    ensures Distinct(s) ==> Distinct(s[1..]) && s[0] !in s[1..]
  {
    assert s == [s[0]] + s[1..];
    if Distinct(s) {
    forall x ensures multiset(s[1..])[x] <= 1 {
      assert multiset(s)[x] == multiset{s[0]}[x] + multiset(s[1..])[x];
    }
    assert multiset(s)[s[0]] == 1 + multiset(s[1..])[s[0]];
    }
  }

  lemma DistinctCons<K(!new)>(x: K, s: seq<K>)
    ensures x !in s && Distinct(s) ==> Distinct([x] + s)
  {
    assert multiset([x] + s) == multiset{x} + multiset(s);
  }

  /** The order `sort_values(ascending=...)` asks of two neighbours. */
  predicate InOrder(a: real, b: real, ascending: bool)
  {
    if ascending then a <= b else b <= a
  }

  ghost predicate Sorted<K>(s: seq<(K, real)>, ascending: bool)
  {
    forall i, j :: 0 <= i < j < |s| ==> InOrder(s[i].1, s[j].1, ascending)
  }

  /** `.index`: the labels of a series, in its order. */
  function Labels<K>(s: seq<(K, real)>): (r: seq<K>)
    ensures |r| == |s|
    ensures forall i :: 0 <= i < |s| ==> r[i] == s[i].0
  {
    if s == [] then [] else [s[0].0] + Labels(s[1..])
  }

  /** Inserts e into a series, before the first element it may precede. */
  function Insert<K>(e: (K, real), s: seq<(K, real)>, ascending: bool): seq<(K, real)>
  {
    if s == [] || InOrder(e.1, s[0].1, ascending) then [e] + s
    else [s[0]] + Insert(e, s[1..], ascending)
  }

  lemma {:induction false} InsertPermutes<K>(e: (K, real), s: seq<(K, real)>, ascending: bool)
    ensures multiset(Insert(e, s, ascending)) == multiset(s) + multiset{e}
  {
    if s != [] && !InOrder(e.1, s[0].1, ascending) {
      InsertPermutes(e, s[1..], ascending);
      assert s == [s[0]] + s[1..];
    }
  }

  lemma {:induction false} InsertLabels<K>(e: (K, real), s: seq<(K, real)>, ascending: bool)
    ensures multiset(Labels(Insert(e, s, ascending))) == multiset(Labels(s)) + multiset{e.0}
  {
    if s == [] || InOrder(e.1, s[0].1, ascending) {
      LabelsCons(e, s);
    } else {
      var t := Insert(e, s[1..], ascending);
      InsertLabels(e, s[1..], ascending);
      assert s == [s[0]] + s[1..];
      LabelsCons(s[0], s[1..]);
      LabelsCons(s[0], t);
      calc {
        multiset(Labels(Insert(e, s, ascending)));
        multiset([s[0].0] + Labels(t));
        multiset{s[0].0} + multiset(Labels(t));
        multiset{s[0].0} + multiset(Labels(s[1..])) + multiset{e.0};
        multiset(Labels(s)) + multiset{e.0};
      }
    }
  }

  /** Inserting into a sorted series keeps it sorted. */
  lemma {:induction false} InsertSorted<K>(e: (K, real), s: seq<(K, real)>, ascending: bool)
    requires Sorted(s, ascending)
    ensures Sorted(Insert(e, s, ascending), ascending)
  {
    if s == [] || InOrder(e.1, s[0].1, ascending) {
      SortedCons(e, s, ascending);
    } else {
      var t := Insert(e, s[1..], ascending);
      InsertSorted(e, s[1..], ascending);
      InsertPermutes(e, s[1..], ascending);
      HeadPrecedesTail(s, ascending);
      forall k | 0 <= k < |t| ensures InOrder(s[0].1, t[k].1, ascending) {
        assert t[k] in multiset(t);
        assert t[k] == e || t[k] in s[1..];
      }
      SortedCons(s[0], t, ascending);
    }
  }

  lemma HeadPrecedesTail<K>(s: seq<(K, real)>, ascending: bool)
    requires s != [] && Sorted(s, ascending)
    ensures forall x | x in s[1..] :: InOrder(s[0].1, x.1, ascending)
  {
    forall x | x in s[1..] ensures InOrder(s[0].1, x.1, ascending) {
      var j :| 0 <= j < |s[1..]| && s[1..][j] == x;
      assert s[j + 1] == x;
    }
  }

  lemma LabelsCons<K>(e: (K, real), s: seq<(K, real)>)
    ensures Labels([e] + s) == [e.0] + Labels(s)
  {
    assert ([e] + s)[1..] == s;
  }

  /** A pair that may precede the head of a sorted series, or every element of
      it, may be put in front of it. */
  lemma SortedCons<K>(e: (K, real), s: seq<(K, real)>, ascending: bool)
    requires Sorted(s, ascending)
    requires s == [] || InOrder(e.1, s[0].1, ascending)
    ensures Sorted([e] + s, ascending)
  {
  }

  /** `sort_values(ascending=...)`: the same pairs, ordered by value. Ties
      keep the input order. */
  function SortValues<K>(s: seq<(K, real)>, ascending: bool): (r: seq<(K, real)>)
    ensures Sorted(r, ascending)
    ensures multiset(r) == multiset(s)
    ensures multiset(Labels(r)) == multiset(Labels(s))
  {
    if s == [] then []
    else
      var t := SortValues(s[1..], ascending);
      assert s == [s[0]] + s[1..];
      LabelsCons(s[0], s[1..]);
      InsertSorted(s[0], t, ascending);
      InsertPermutes(s[0], t, ascending);
      InsertLabels(s[0], t, ascending);
      Insert(s[0], t, ascending)
  }

  /** Sorting keeps the pairs and hence each label's value. */
  lemma SortedPairsFromInput<K>(s: seq<(K, real)>, ascending: bool, i: int)
    requires 0 <= i < |SortValues(s, ascending)|
    ensures SortValues(s, ascending)[i] in s
  {
    var r := SortValues(s, ascending);
    assert r[i] in multiset(r);
  }

  /** Sorting keeps the set of labels and lists no label twice more than the input. */
  lemma SortKeepsLabels<K(!new)>(s: seq<(K, real)>, ascending: bool)
    ensures forall x :: x in Labels(SortValues(s, ascending)) <==> x in Labels(s)
    ensures Distinct(Labels(s)) ==> Distinct(Labels(SortValues(s, ascending)))
  {
    var r := SortValues(s, ascending);
    forall x ensures x in Labels(r) <==> x in Labels(s) {
      assert x in Labels(r) <==> x in multiset(Labels(r));
      assert x in Labels(s) <==> x in multiset(Labels(s));
    }
  }
}
