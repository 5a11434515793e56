/** The statistics the dashboard computes once the columns are resolved:
    the number of distinct locations, the top products by frequency, the
    stock figures of a numeric quantity column, and the per-location
    comparison table with its largest and smallest location. */
module Aggregator {
  import opened Options
  import opened Seqs
  import opened Table

  // ---------------------------------------------------------------------
  // Distinct locations: `len(df[col_sede].unique())`.

  /** Number of distinct values, counted as the source counts them: the
      length of the first-appearance de-duplication. */
  function DistinctCount<T(==,!new)>(xs: seq<T>): (n: nat)
    ensures n == |set x | x in xs|
  {
    UniqueCount(xs);
    |Unique(xs)|
  }

  // ---------------------------------------------------------------------
  // Top products: `df[col_producto].value_counts().head(10)`.

  const TopProducts: nat := 10

  /** One entry of `value_counts()`: a value and its number of occurrences. */
  datatype Freq<T> = Freq(item: T, count: nat)

  ghost predicate NonIncreasing<T>(s: seq<Freq<T>>) {
    forall i, j :: 0 <= i < j < |s| ==> s[i].count >= s[j].count
  }

  ghost predicate DistinctItems<T>(s: seq<Freq<T>>) {
    forall i, j :: 0 <= i < j < |s| ==> s[i].item != s[j].item
  }

  ghost predicate Listed<T>(s: seq<Freq<T>>, x: T) {
    exists i :: 0 <= i < |s| && s[i].item == x
  }

  /** What a top-`n` frequency list promises about the column `xs`: at
      most `n` entries, counts non-increasing, each value listed once with
      its true number of occurrences, and every value left out occurs no
      more often than any listed one (it is left out only when the list is
      full). */
  ghost predicate IsTopRanking<T>(xs: seq<T>, r: seq<Freq<T>>, n: nat) {
    && |r| <= n
    && NonIncreasing(r)
    && DistinctItems(r)
    && (forall i :: 0 <= i < |r| ==> r[i].item in xs && r[i].count == Count(xs, r[i].item))
    && (forall x :: x in xs && !Listed(r, x) ==>
          |r| == n && forall i :: 0 <= i < |r| ==> Count(xs, x) <= r[i].count)
  }

  /** Pairs each key with its number of occurrences in `xs`. */
  function Tally<T(==)>(keys: seq<T>, xs: seq<T>): (r: seq<Freq<T>>)
    ensures |r| == |keys|
    ensures forall i :: 0 <= i < |keys| ==> r[i] == Freq(keys[i], Count(xs, keys[i]))
  {
    seq(|keys|, i requires 0 <= i < |keys| => Freq(keys[i], Count(xs, keys[i])))
  }

  /** Inserts `e` into a list sorted by decreasing count, before the
      entries whose count it equals or exceeds. */
  function Insert<T>(e: Freq<T>, s: seq<Freq<T>>): (r: seq<Freq<T>>)
    requires NonIncreasing(s)
    ensures NonIncreasing(r)
    ensures multiset(r) == multiset(s) + multiset{e}
  {
    if |s| == 0 || e.count >= s[0].count then [e] + s
    else
      var rest := Insert(e, s[1..]);
      assert s == [s[0]] + s[1..];
      HeadBoundsInsert(e, s, rest);
      [s[0]] + rest
  }

  /** The entry at the head of a sorted list bounds every entry of the
      list that inserting a smaller `e` into its tail gives. */
  lemma HeadBoundsInsert<T>(e: Freq<T>, s: seq<Freq<T>>, rest: seq<Freq<T>>)
    requires NonIncreasing(s) && |s| > 0 && e.count < s[0].count
    requires multiset(rest) == multiset(s[1..]) + multiset{e}
    ensures forall j :: 0 <= j < |rest| ==> rest[j].count <= s[0].count
  {
    forall j | 0 <= j < |rest| ensures rest[j].count <= s[0].count {
      assert rest[j] in multiset(rest);
      if rest[j] != e {
        assert rest[j] in s[1..];
      }
    }
  }

  /** Sorting by decreasing count: a permutation whose counts do not
      increase. */
  function SortByCount<T>(s: seq<Freq<T>>): (r: seq<Freq<T>>)
    ensures NonIncreasing(r)
    ensures multiset(r) == multiset(s)
  {
    if |s| == 0 then []
    else
      assert s == [s[0]] + s[1..];
      Insert(s[0], SortByCount(s[1..]))
  }

  lemma {:induction false} InsertKeepsDistinct<T>(e: Freq<T>, s: seq<Freq<T>>)
    requires NonIncreasing(s) && DistinctItems(s)
    requires forall i :: 0 <= i < |s| ==> s[i].item != e.item
    ensures DistinctItems(Insert(e, s))
  {
    if !(|s| == 0 || e.count >= s[0].count) {
      var rest := Insert(e, s[1..]);
      InsertKeepsDistinct(e, s[1..]);
      assert s == [s[0]] + s[1..];
      forall i | 0 <= i < |rest|
        ensures rest[i].item != s[0].item
      {
        assert rest[i] in multiset(s[1..]) + multiset{e};
      }
      assert Insert(e, s) == [s[0]] + rest;
    }
  }

  lemma {:induction false} SortKeepsDistinct<T>(s: seq<Freq<T>>)
    requires DistinctItems(s)
    ensures DistinctItems(SortByCount(s))
  {
    if |s| > 0 {
      var rest := SortByCount(s[1..]);
      SortKeepsDistinct(s[1..]);
      forall i | 0 <= i < |rest|
        ensures rest[i].item != s[0].item
      {
        assert rest[i] in multiset(s[1..]);
      }
      InsertKeepsDistinct(s[0], rest);
    }
  }

  /** `value_counts()`: the distinct values with their counts, most
      frequent first. */
  function ValueCounts<T(==,!new)>(xs: seq<T>): seq<Freq<T>> {
    SortByCount(Tally(Unique(xs), xs))
  }

  lemma ValueCountsFacts<T(!new)>(xs: seq<T>)
    ensures NonIncreasing(ValueCounts(xs))
    ensures DistinctItems(ValueCounts(xs))
    ensures forall i :: 0 <= i < |ValueCounts(xs)| ==>
              ValueCounts(xs)[i].item in xs && ValueCounts(xs)[i].count == Count(xs, ValueCounts(xs)[i].item)
    ensures forall x :: x in xs ==> Listed(ValueCounts(xs), x)
  {
    var u := Unique(xs);
    var t := Tally(u, xs);
    var vc := ValueCounts(xs);
    SortKeepsDistinct(t);
    forall i | 0 <= i < |vc|
      ensures vc[i].item in xs && vc[i].count == Count(xs, vc[i].item)
    {
      assert vc[i] in multiset(t);
    }
    forall x | x in xs
      ensures Listed(vc, x)
    {
      var k :| 0 <= k < |u| && u[k] == x;
      assert t[k] in multiset(vc);
      var i :| 0 <= i < |vc| && vc[i] == t[k];
    }
  }

  /** `value_counts().head(n)`. */
  function Top<T(==,!new)>(xs: seq<T>, n: nat): (r: seq<Freq<T>>)
    ensures IsTopRanking(xs, r, n)
  {
    var vc := ValueCounts(xs);
    var r := vc[..if n < |vc| then n else |vc|];
    TopPrefix(xs, n, r);
    r
  }

  lemma TopPrefix<T(!new)>(xs: seq<T>, n: nat, r: seq<Freq<T>>)
    requires r == ValueCounts(xs)[..if n < |ValueCounts(xs)| then n else |ValueCounts(xs)|]
    ensures IsTopRanking(xs, r, n)
  {
    var vc := ValueCounts(xs);
    ValueCountsFacts(xs);
    RankingPrefix(xs, vc, n, r);
  }

  /** The first `n` entries of a complete frequency ranking of `xs` form
      its top-`n` list. */
  lemma RankingPrefix<T>(xs: seq<T>, vc: seq<Freq<T>>, n: nat, r: seq<Freq<T>>)
    requires NonIncreasing(vc) && DistinctItems(vc)
    requires forall i :: 0 <= i < |vc| ==> vc[i].item in xs && vc[i].count == Count(xs, vc[i].item)
    requires forall x :: x in xs ==> Listed(vc, x)
    requires r == vc[..if n < |vc| then n else |vc|]
    ensures IsTopRanking(xs, r, n)
  {
    forall x | x in xs && !Listed(r, x)
      ensures |r| == n && forall i :: 0 <= i < |r| ==> Count(xs, x) <= r[i].count
    {
      var k :| 0 <= k < |vc| && vc[k].item == x;
      PrefixOmitted(vc, |r|, k);
    }
  }

  /** An entry of a ranking whose value does not appear among the first
      `m` entries sits at or after position `m`, and every earlier count is
      at least its own. */
  lemma PrefixOmitted<T>(vc: seq<Freq<T>>, m: nat, k: nat)
    requires NonIncreasing(vc) && k < |vc| && m <= |vc|
    requires !Listed(vc[..m], vc[k].item)
    ensures m <= k
    ensures forall i :: 0 <= i < m ==> vc[k].count <= vc[i].count
  {
  }

  // ---------------------------------------------------------------------
  // Stock figures: `sum()`, `max()`, `min()` of a numeric quantity column.

  datatype StockStats = StockStats(total: int, maximum: int, minimum: int)

  /** The total is the sum of the quantities, and the maximum and minimum
      are bounds that some quantity attains. */
  ghost predicate IsStockSummary(xs: seq<int>, st: StockStats) {
    && st.total == Sum(xs)
    && (forall i :: 0 <= i < |xs| ==> st.minimum <= xs[i] <= st.maximum)
    && st.maximum in xs
    && st.minimum in xs
  }

  /** Stock figures of a non-empty quantity column: present exactly when
      the column's dtype is numeric. */
  function Stock(qs: seq<Value>): (r: Option<StockStats>)
    requires |qs| > 0
    ensures r.Some? <==> IsNumeric(qs)
    ensures r.Some? ==> IsStockSummary(Ints(qs), r.value)
  {
    if IsNumeric(qs) then
      var xs := Ints(qs);
      Some(StockStats(Sum(xs), Max(xs), Min(xs)))
    else
      None
  }

  /** `mean()`: the arithmetic mean as a real number. */
  function Mean(total: int, count: nat): (m: real)
    requires count > 0
    ensures m * count as real == total as real
  {
    total as real / count as real
  }

  /** The mean stock lies between the minimum and the maximum. */
  lemma MeanWithinBounds(xs: seq<int>, st: StockStats)
    requires |xs| > 0 && IsStockSummary(xs, st)
    ensures st.minimum as real <= Mean(st.total, |xs|) <= st.maximum as real
  {
    SumBetweenBounds(xs, st.minimum, st.maximum);
    DividedBounds(st.minimum, st.total, st.maximum, |xs|);
  }

  lemma DividedBounds(lo: int, total: int, hi: int, n: nat)
    requires n > 0 && n * lo <= total <= n * hi
    ensures lo as real <= Mean(total, n) <= hi as real
  {
    var m := Mean(total, n);
    var nr := n as real;
    assert m * nr == total as real;
    assert (lo as real) * nr <= m * nr;
    assert m * nr <= (hi as real) * nr;
  }

  // ---------------------------------------------------------------------
  // Comparison table: `df.groupby(col_sede)[col_cantidad].agg(['sum',
  // 'mean', 'count'])` and the locations found by `idxmax` / `idxmin`.

  /** A record reduced to the two cells the comparison uses. */
  datatype Record<K> = Record(location: K, quantity: int)

  /** One row of the comparison table: a location, the sum of its
      quantities ("Stock Total") and its number of records ("Cantidad
      Productos"). */
  datatype GroupRow<K> = GroupRow(location: K, total: int, count: nat) {
    /** "Stock Promedio". */
    function Average(): real
      requires count > 0
    {
      Mean(total, count)
    }
  }

  function Locations<K>(ps: seq<Record<K>>): seq<K> {
    seq(|ps|, i requires 0 <= i < |ps| => ps[i].location)
  }

  function Quantities<K>(ps: seq<Record<K>>): seq<int> {
    seq(|ps|, i requires 0 <= i < |ps| => ps[i].quantity)
  }

  function Keys<K>(t: seq<GroupRow<K>>): seq<K> {
    seq(|t|, i requires 0 <= i < |t| => t[i].location)
  }

  /** Number of records at location `k`. */
  function CountAt<K(==)>(ps: seq<Record<K>>, k: K): (n: nat)
    ensures k !in Locations(ps) ==> n == 0
  {
    if |ps| == 0 then 0
    else
      assert Locations(ps) == Locations(ps[..|ps| - 1]) + [ps[|ps| - 1].location];
      CountAt(ps[..|ps| - 1], k) + (if ps[|ps| - 1].location == k then 1 else 0)
  }

  /** Sum of the quantities of the records at location `k`. */
  function SumAt<K(==)>(ps: seq<Record<K>>, k: K): (s: int)
    ensures k !in Locations(ps) ==> s == 0
  {
    if |ps| == 0 then 0
    else
      assert Locations(ps) == Locations(ps[..|ps| - 1]) + [ps[|ps| - 1].location];
      SumAt(ps[..|ps| - 1], k) + (if ps[|ps| - 1].location == k then ps[|ps| - 1].quantity else 0)
  }

  function SumTotals<K>(t: seq<GroupRow<K>>): int {
    if |t| == 0 then 0 else t[0].total + SumTotals(t[1..])
  }

  function SumCounts<K>(t: seq<GroupRow<K>>): int {
    if |t| == 0 then 0 else t[0].count + SumCounts(t[1..])
  }

  /** Folds one record into the table: the row of its location gains its
      quantity and one record; a location not yet seen gets a new last row. */
  function AddRecord<K(==)>(t: seq<GroupRow<K>>, k: K, q: int): (r: seq<GroupRow<K>>)
    requires Distinct(Keys(t))
    ensures |r| == if k in Keys(t) then |t| else |t| + 1
    ensures forall i :: 0 <= i < |t| ==>
              r[i] == if t[i].location == k then GroupRow(k, t[i].total + q, t[i].count + 1) else t[i]
    ensures k !in Keys(t) ==> r[|t|] == GroupRow(k, q, 1)
  {
    if |t| == 0 then [GroupRow(k, q, 1)]
    else
      assert Keys(t[1..]) == Keys(t)[1..];
      assert Keys(t) == [t[0].location] + Keys(t[1..]);
      if t[0].location == k then
        forall i | 0 < i < |t|
          ensures t[i].location != k
        {
          assert Keys(t)[0] != Keys(t)[i];
        }
        [GroupRow(k, t[0].total + q, t[0].count + 1)] + t[1..]
      else
        [t[0]] + AddRecord(t[1..], k, q)
  }

  /** Folding a record in keeps the locations in place and appends a new
      one at the end. */
  lemma AddRecordKeys<K>(t: seq<GroupRow<K>>, k: K, q: int)
    requires Distinct(Keys(t))
    ensures Keys(AddRecord(t, k, q)) == if k in Keys(t) then Keys(t) else Keys(t) + [k]
  {
    var r := AddRecord(t, k, q);
    if k in Keys(t) {
      var j :| 0 <= j < |t| && Keys(t)[j] == k;
      assert t[j].location == k;
    }
  }

  /** Folding a record in adds its quantity to the table's total stock and
      one to its record count. */
  lemma {:induction false} AddRecordSums<K>(t: seq<GroupRow<K>>, k: K, q: int)
    requires Distinct(Keys(t))
    ensures SumTotals(AddRecord(t, k, q)) == SumTotals(t) + q
    ensures SumCounts(AddRecord(t, k, q)) == SumCounts(t) + 1
  {
    if |t| > 0 {
      assert Keys(t[1..]) == Keys(t)[1..];
      var r := AddRecord(t, k, q);
      if t[0].location == k {
        assert r[1..] == t[1..];
      } else {
        AddRecordSums(t[1..], k, q);
        assert r[1..] == AddRecord(t[1..], k, q);
      }
    }
  }

  /** What the comparison table promises about the records `ps`. */
  ghost predicate IsGrouping<K(!new)>(ps: seq<Record<K>>, t: seq<GroupRow<K>>) {
    && Keys(t) == Unique(Locations(ps))
    && forall i :: 0 <= i < |t| ==>
         t[i].count == CountAt(ps, t[i].location) && t[i].total == SumAt(ps, t[i].location)
  }

  /** The comparison table: one row per distinct location, in order of
      first appearance, each holding that location's record count and
      quantity sum. */
  function GroupBy<K(==,!new)>(ps: seq<Record<K>>): (t: seq<GroupRow<K>>)
    ensures IsGrouping(ps, t)
  {
    if |ps| == 0 then []
    else
      var t0 := GroupBy(ps[..|ps| - 1]);
      var last := ps[|ps| - 1];
      GroupingStep(ps, t0);
      AddRecord(t0, last.location, last.quantity)
  }

  /** Folding the last record into the table of the earlier records gives
      the table of all records. */
  lemma GroupingStep<K(!new)>(ps: seq<Record<K>>, t0: seq<GroupRow<K>>)
    requires |ps| > 0 && IsGrouping(ps[..|ps| - 1], t0)
    ensures Distinct(Keys(t0))
    ensures IsGrouping(ps, AddRecord(t0, ps[|ps| - 1].location, ps[|ps| - 1].quantity))
  {
    var k := ps[|ps| - 1].location;
    var t := AddRecord(t0, k, ps[|ps| - 1].quantity);
    LocationsOfLast(ps);
    AddRecordKeys(t0, k, ps[|ps| - 1].quantity);
    forall i | 0 <= i < |t|
      ensures t[i].count == CountAt(ps, t[i].location) && t[i].total == SumAt(ps, t[i].location)
    {
      RowStep(ps, t0, i);
    }
  }

  lemma LocationsOfLast<K>(ps: seq<Record<K>>)
    requires |ps| > 0
    ensures Locations(ps) == Locations(ps[..|ps| - 1]) + [ps[|ps| - 1].location]
    ensures Locations(ps)[..|ps| - 1] == Locations(ps[..|ps| - 1])
  {
  }

  lemma RowStep<K(!new)>(ps: seq<Record<K>>, t0: seq<GroupRow<K>>, i: nat)
    requires |ps| > 0 && IsGrouping(ps[..|ps| - 1], t0)
    requires i < |AddRecord(t0, ps[|ps| - 1].location, ps[|ps| - 1].quantity)|
    ensures var t := AddRecord(t0, ps[|ps| - 1].location, ps[|ps| - 1].quantity);
            t[i].count == CountAt(ps, t[i].location) && t[i].total == SumAt(ps, t[i].location)
  {
    var init := ps[..|ps| - 1];
    var k := ps[|ps| - 1].location;
    LocationsOfLast(ps);
    if i < |t0| {
      assert t0[i].location == Keys(t0)[i];
    } else {
      assert k !in Keys(t0);
      assert k !in Locations(init);
    }
  }

  /** The row totals add up to the column total ("Stock Combinado" is the
      stock of the whole sheet), and the row counts to the record count. */
  lemma {:induction false} GroupByPreservesTotals<K(!new)>(ps: seq<Record<K>>)
    ensures SumTotals(GroupBy(ps)) == Sum(Quantities(ps))
    ensures SumCounts(GroupBy(ps)) == |ps|
  {
    if |ps| > 0 {
      var init := ps[..|ps| - 1];
      var last := ps[|ps| - 1];
      GroupByPreservesTotals(init);
      GroupByLast(ps);
      AddRecordSums(GroupBy(init), last.location, last.quantity);
      QuantitiesOfLast(ps);
    }
  }

  /** The table of all records is the table of the earlier ones with the
      last record folded in. */
  lemma GroupByLast<K(!new)>(ps: seq<Record<K>>)
    requires |ps| > 0
    ensures Distinct(Keys(GroupBy(ps[..|ps| - 1])))
    ensures GroupBy(ps) == AddRecord(GroupBy(ps[..|ps| - 1]), ps[|ps| - 1].location, ps[|ps| - 1].quantity)
  {
    GroupingStep(ps, GroupBy(ps[..|ps| - 1]));
  }

  lemma QuantitiesOfLast<K>(ps: seq<Record<K>>)
    requires |ps| > 0
    ensures Sum(Quantities(ps)) == Sum(Quantities(ps[..|ps| - 1])) + ps[|ps| - 1].quantity
  {
    assert Quantities(ps)[..|ps| - 1] == Quantities(ps[..|ps| - 1]);
  }

  /** The table has as many rows as there are distinct locations, the
      figure shown as "Total de Sedes". */
  lemma GroupBySize<K(!new)>(ps: seq<Record<K>>)
    ensures |GroupBy(ps)| == DistinctCount(Locations(ps))
  {
    assert |Keys(GroupBy(ps))| == |GroupBy(ps)|;
  }

  /** `idxmax()` of "Stock Total": the first row with the largest total. */
  ghost predicate IsFirstMax<K>(t: seq<GroupRow<K>>, i: int) {
    && 0 <= i < |t|
    && (forall j :: 0 <= j < |t| ==> t[j].total <= t[i].total)
    && (forall j :: 0 <= j < i ==> t[j].total < t[i].total)
  }

  /** `idxmin()` of "Stock Total": the first row with the smallest total. */
  ghost predicate IsFirstMin<K>(t: seq<GroupRow<K>>, i: int) {
    && 0 <= i < |t|
    && (forall j :: 0 <= j < |t| ==> t[i].total <= t[j].total)
    && (forall j :: 0 <= j < i ==> t[i].total < t[j].total)
  }

  method IdxMax<K>(t: seq<GroupRow<K>>) returns (best: nat)
    requires |t| > 0
    ensures IsFirstMax(t, best)
  {
    best := 0;
    var k := 1;
    while k < |t|
      invariant 1 <= k <= |t| && best < k
      invariant forall j :: 0 <= j < k ==> t[j].total <= t[best].total
      invariant forall j :: 0 <= j < best ==> t[j].total < t[best].total
    {
      if t[k].total > t[best].total {
        best := k;
      }
      k := k + 1;
    }
  }

  method IdxMin<K>(t: seq<GroupRow<K>>) returns (best: nat)
    requires |t| > 0
    ensures IsFirstMin(t, best)
  {
    best := 0;
    var k := 1;
    while k < |t|
      invariant 1 <= k <= |t| && best < k
      invariant forall j :: 0 <= j < k ==> t[best].total <= t[j].total
      invariant forall j :: 0 <= j < best ==> t[best].total < t[j].total
    {
      if t[k].total < t[best].total {
        best := k;
      }
      k := k + 1;
    }
  }

  /** The "Comparativa de Sedes" panel: the table, the rows of the
      locations with most and least stock, and the combined stock. */
  datatype Comparison<K> = Comparison(rows: seq<GroupRow<K>>, most: nat, least: nat, combined: int)

  ghost predicate IsComparison<K(!new)>(ps: seq<Record<K>>, c: Comparison<K>) {
    && Keys(c.rows) == Unique(Locations(ps))
    && (forall i :: 0 <= i < |c.rows| ==>
          c.rows[i].count == CountAt(ps, c.rows[i].location) && c.rows[i].total == SumAt(ps, c.rows[i].location))
    && IsFirstMax(c.rows, c.most)
    && IsFirstMin(c.rows, c.least)
    && c.combined == Sum(Quantities(ps))
  }

  method Compare<K(==,!new)>(ps: seq<Record<K>>) returns (c: Comparison<K>)
    requires |ps| > 0
    ensures IsComparison(ps, c)
  {
    var rows := GroupBy(ps);
    assert Locations(ps)[0] == ps[0].location;
    assert |rows| > 0 by {
      assert ps[0].location in Unique(Locations(ps));
    }
    var most := IdxMax(rows);
    var least := IdxMin(rows);
    GroupByPreservesTotals(ps);
    c := Comparison(rows, most, least, SumTotals(rows));
  }
}
