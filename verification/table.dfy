/** One sheet of the uploaded workbook: column names in display order and
    rows of cells. A cell is an integer or a piece of text; missing cells
    are not modelled. */
module Table {

  datatype Value = Num(n: int) | Str(s: string)

  datatype Dataset = Dataset(columns: seq<string>, rows: seq<seq<Value>>)

  /** Every row has one cell per column. */
  ghost predicate WellFormed(d: Dataset) {
    forall r :: r in d.rows ==> |r| == |d.columns|
  }

  /** pandas' `df.empty`: no rows or no columns. */
  predicate IsEmpty(d: Dataset) {
    |d.rows| == 0 || |d.columns| == 0
  }

  /** Position of the first column called `c`. */
  function IndexOf(cols: seq<string>, c: string): (i: nat)
    requires c in cols
    ensures i < |cols| && cols[i] == c
    ensures forall j :: 0 <= j < i ==> cols[j] != c
  {
    if cols[0] == c then 0 else 1 + IndexOf(cols[1..], c)
  }

  /** `df[c]`: the cells of column `c`, one per row, in row order. */
  function Column(d: Dataset, c: string): (vs: seq<Value>)
    requires WellFormed(d) && c in d.columns
    ensures |vs| == |d.rows|
    ensures forall k :: 0 <= k < |d.rows| ==> vs[k] == d.rows[k][IndexOf(d.columns, c)]
  {
    var i := IndexOf(d.columns, c);
    seq(|d.rows|, k requires 0 <= k < |d.rows| => assert d.rows[k] in d.rows; d.rows[k][i])
  }

  /** The column's dtype is numeric: every cell is a number. */
  predicate IsNumeric(vs: seq<Value>) {
    forall i :: 0 <= i < |vs| ==> vs[i].Num?
  }

  /** The numbers of a numeric column. */
  function Ints(vs: seq<Value>): (xs: seq<int>)
    requires IsNumeric(vs)
    ensures |xs| == |vs|
    ensures forall i :: 0 <= i < |vs| ==> Num(xs[i]) == vs[i]
  {
    seq(|vs|, i requires 0 <= i < |vs| => vs[i].n)
  }
}
