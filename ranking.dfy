/**
  The feature-importance panel (app_ruko.py, section 7 of the page): pair each
  column with its importance weight, sort by weight from high to low and keep
  the first ten. The order among equal weights is left open: the sort used
  there is not promised to be stable, so nothing here depends on it.
 */
module Ranking {
  import opened Optional
  import opened Sequences

  /** How many entries the panel keeps. */
  const TOP_COUNT: nat := 10

  /** The smaller of two counts. */
  function Min(a: nat, b: nat): nat
  {
    if a <= b then a else b
  }

  /** Every index points into a weight list of length `n`. */
  predicate AllBelow(idx: seq<nat>, n: nat)
  {
    forall q :: 0 <= q < |idx| ==> idx[q] < n
  }

  /** The indices are ordered by non-increasing weight. */
  predicate SortedByWeight(idx: seq<nat>, w: seq<real>)
    requires AllBelow(idx, |w|)
  {
    forall a, b :: 0 <= a < b < |idx| ==> w[idx[a]] >= w[idx[b]]
  }

  /** The indices `0 .. n - 1`, in order. */
  function Range(n: nat): (r: seq<nat>)
    ensures |r| == n && forall q :: 0 <= q < n ==> r[q] == q
  {
    if n == 0 then [] else Range(n - 1) + [n - 1]
  }

  /** Inserting one index into a list already ordered by weight keeps it ordered and loses nothing. */
  function Insert(i: nat, sorted: seq<nat>, w: seq<real>): (r: seq<nat>)
    requires i < |w| && AllBelow(sorted, |w|) && SortedByWeight(sorted, w)
    ensures |r| == |sorted| + 1 && AllBelow(r, |w|) && SortedByWeight(r, w)
    ensures multiset(r) == multiset(sorted) + multiset{i}
  {
    if sorted == [] then [i]
    else if w[i] >= w[sorted[0]] then [i] + sorted
    else
      var rest := Insert(i, sorted[1..], w);
      assert sorted == [sorted[0]] + sorted[1..];
      HeadStaysFirst(sorted[0], sorted[1..], i, rest, w);
      [sorted[0]] + rest
  }

  /** An index at least as heavy as a list and as one more index stays in front of both combined. */
  lemma HeadStaysFirst(h: nat, tail: seq<nat>, i: nat, rest: seq<nat>, w: seq<real>)
    requires h < |w| && i < |w| && AllBelow(tail, |w|) && AllBelow(rest, |w|)
    requires forall q :: 0 <= q < |tail| ==> w[h] >= w[tail[q]]
    requires w[h] >= w[i] && SortedByWeight(rest, w)
    requires multiset(rest) == multiset(tail) + multiset{i}
    ensures AllBelow([h] + rest, |w|) && SortedByWeight([h] + rest, w)
  {
    var r := [h] + rest;
    forall a, b | 0 <= a < b < |r|
      ensures w[r[a]] >= w[r[b]]
    {
      if a == 0 {
        assert r[b] == rest[b - 1];
        assert rest[b - 1] in multiset(rest);
        if rest[b - 1] != i {
          assert rest[b - 1] in multiset(tail);
          var q :| 0 <= q < |tail| && tail[q] == rest[b - 1];
        }
      }
    }
  }

  /** A sort of index lists by non-increasing weight: the result is ordered and a permutation. */
  function SortByWeight(idx: seq<nat>, w: seq<real>): (r: seq<nat>)
    requires AllBelow(idx, |w|)
    ensures |r| == |idx| && AllBelow(r, |w|) && SortedByWeight(r, w)
    ensures multiset(r) == multiset(idx)
  {
    if idx == [] then []
    else
      assert idx == [idx[0]] + idx[1..];
      Insert(idx[0], SortByWeight(idx[1..], w), w)
  }

  /** The indices of the ten heaviest weights (fewer when there are fewer columns), heaviest first. */
  function TopIndices(w: seq<real>): (top: seq<nat>)
    ensures |top| == Min(TOP_COUNT, |w|)
    ensures AllBelow(top, |w|) && SortedByWeight(top, w)
  {
    var all := Range(|w|);
    assert AllBelow(all, |w|);
    SortByWeight(all, w)[..Min(TOP_COUNT, |w|)]
  }

  /** Every index below `n` occurs exactly once in `Range(n)`. */
  lemma {:induction false} RangeCount(n: nat, j: nat)
    ensures multiset(Range(n))[j] == if j < n then 1 else 0
  {
    if n > 0 {
      RangeCount(n - 1, j);
    }
  }

  /** A list with the same elements as `Range(n)` has no repetitions. */
  lemma PermutationOfRangeDistinct(s: seq<nat>, n: nat)
    requires multiset(s) == multiset(Range(n))
    ensures Distinct(s)
  {
    forall a, b | 0 <= a < b < |s|
      ensures s[a] != s[b]
    {
      RangeCount(n, s[a]);
      if s[a] == s[b] {
        CountRepeated(s, a, b);
      }
    }
  }

  /** An element found at two positions is counted at least twice. */
  lemma CountRepeated<T>(s: seq<T>, a: nat, b: nat)
    requires a < b < |s| && s[a] == s[b]
    ensures multiset(s)[s[a]] >= 2
  {
    assert s == s[..a] + [s[a]] + s[a + 1..b] + [s[b]] + s[b + 1..];
  }

  /**
    The ranking keeps distinct columns, and no column left out weighs more than
    any column kept.
   */
  lemma TopIndicesSpec(w: seq<real>)
    ensures Distinct(TopIndices(w))
    ensures forall j, q :: 0 <= j < |w| && j !in TopIndices(w) && 0 <= q < |TopIndices(w)| ==>
      w[j] <= w[TopIndices(w)[q]]
  {
    var all := Range(|w|);
    assert AllBelow(all, |w|);
    var sorted := SortByWeight(all, w);
    var top := TopIndices(w);
    assert top == sorted[..|top|];
    PermutationOfRangeDistinct(sorted, |w|);
    forall j, q | 0 <= j < |w| && j !in top && 0 <= q < |top|
      ensures w[j] <= w[top[q]]
    {
      RangeCount(|w|, j);
      assert j in multiset(sorted);
      var p :| 0 <= p < |sorted| && sorted[p] == j;
      assert p >= |top| by {
        assert forall r :: 0 <= r < |top| ==> top[r] == sorted[r];
      }
      assert top[q] == sorted[q];
    }
  }

  /**
    `pd.DataFrame({"Variabel": names, "Importance": w}).sort_values(...).head(10)`:
    the entries of the ranking, each a column name with its own weight.
   */
  function TopImportances(names: seq<string>, w: seq<real>): (r: seq<(string, real)>)
    requires |w| == |names|
    ensures |r| == Min(TOP_COUNT, |names|)
    ensures forall a, b :: 0 <= a < b < |r| ==> r[a].1 >= r[b].1
    ensures forall q :: 0 <= q < |r| ==> r[q] == (names[TopIndices(w)[q]], w[TopIndices(w)[q]])
  {
    TopIndicesSpec(w);
    var top := TopIndices(w);
    seq(|top|, q requires 0 <= q < |top| => (names[top[q]], w[top[q]]))
  }

  /**
    The panel: no ranking when the model has no importance weights, otherwise
    the top entries.
   */
  function Importances(names: seq<string>, weights: Option<seq<real>>): (r: Option<seq<(string, real)>>)
    requires weights.Some? ==> |weights.value| == |names|
    ensures r.Some? <==> weights.Some?
    ensures r.Some? ==> |r.value| <= TOP_COUNT
  {
    match weights
    case None => None
    case Some(w) => Some(TopImportances(names, w))
  }
}
