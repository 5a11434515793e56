/** Sequence facts shared by the aggregations: occurrence counts,
    duplicate-free sequences, first-appearance de-duplication (pandas
    `unique()`), and integer sum, maximum and minimum. */
module Seqs {

  /** Number of occurrences of `x` in `xs`. */
  function Count<T(==)>(xs: seq<T>, x: T): (n: nat)
    ensures n <= |xs|
    ensures n > 0 <==> x in xs
  {
    if |xs| == 0 then 0
    else Count(xs[..|xs| - 1], x) + (if xs[|xs| - 1] == x then 1 else 0)
  }

  ghost predicate Distinct<T>(xs: seq<T>) {
    forall i, j :: 0 <= i < j < |xs| ==> xs[i] != xs[j]
  }

  /** The distinct elements of `xs` in order of first appearance, as
      pandas' `Series.unique()` returns them. */
  function Unique<T(==,!new)>(xs: seq<T>): (u: seq<T>)
    ensures Distinct(u)
    ensures forall x :: x in u <==> x in xs
    ensures |u| <= |xs|
  {
    if |xs| == 0 then []
    else
      var u := Unique(xs[..|xs| - 1]);
      var x := xs[|xs| - 1];
      assert forall y :: y in xs <==> y in xs[..|xs| - 1] || y == x by {
        assert xs == xs[..|xs| - 1] + [x];
      }
      if x in u then u else u + [x]
  }

  /** A duplicate-free sequence has as many elements as its set. */
  lemma {:induction false} DistinctCardinality<T>(xs: seq<T>)
    requires Distinct(xs)
    ensures |set x | x in xs| == |xs|
  {
    if |xs| > 0 {
      var init := xs[..|xs| - 1];
      var last := xs[|xs| - 1];
      DistinctCardinality(init);
      assert xs == init + [last];
      assert last !in init;
      assert (set x | x in xs) == (set x | x in init) + {last};
    }
  }

  /** `len(s.unique())` is the number of distinct values of `s`. */
  lemma UniqueCount<T(!new)>(xs: seq<T>)
    ensures |Unique(xs)| == |set x | x in xs|
  {
    var u := Unique(xs);
    DistinctCardinality(u);
    assert (set x | x in u) == (set x | x in xs);
  }

  function Sum(xs: seq<int>): int {
    if |xs| == 0 then 0 else Sum(xs[..|xs| - 1]) + xs[|xs| - 1]
  }

  /** `max()` of a non-empty column: an upper bound that is attained. */
  function Max(xs: seq<int>): (m: int)
    requires |xs| > 0
    ensures forall i :: 0 <= i < |xs| ==> xs[i] <= m
    ensures m in xs
  {
    if |xs| == 1 then xs[0]
    else
      var m := Max(xs[..|xs| - 1]);
      assert xs == xs[..|xs| - 1] + [xs[|xs| - 1]];
      if xs[|xs| - 1] > m then xs[|xs| - 1] else m
  }

  /** `min()` of a non-empty column: a lower bound that is attained. */
  function Min(xs: seq<int>): (m: int)
    requires |xs| > 0
    ensures forall i :: 0 <= i < |xs| ==> m <= xs[i]
    ensures m in xs
  {
    if |xs| == 1 then xs[0]
    else
      var m := Min(xs[..|xs| - 1]);
      assert xs == xs[..|xs| - 1] + [xs[|xs| - 1]];
      if xs[|xs| - 1] < m then xs[|xs| - 1] else m
  }

  /** The sum lies between |xs| times the minimum and |xs| times the
      maximum, so the mean lies between the minimum and the maximum. */
  lemma {:induction false} SumBetweenBounds(xs: seq<int>, lo: int, hi: int)
    requires forall i :: 0 <= i < |xs| ==> lo <= xs[i] <= hi
    ensures |xs| * lo <= Sum(xs) <= |xs| * hi
  {
    if |xs| > 0 {
      SumBetweenBounds(xs[..|xs| - 1], lo, hi);
    }
  }
}
