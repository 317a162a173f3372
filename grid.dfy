/** Missing values: an empty spreadsheet cell or an absent unit. */
module Optional {
  datatype Option<T> = None | Some(value: T)
}

/**
 * Rectangular integer tables (rows are products, columns are days) and the
 * sums the allocation reads from them: the total of one column over all rows,
 * and the total of a stretch of one row.
 */
module Grid {

  type Matrix = seq<seq<int>>

  /** Every row has exactly `days` columns. */
  predicate IsGrid<T>(m: seq<seq<T>>, days: nat)
  {
    forall r :: 0 <= r < |m| ==> |m[r]| == days
  }

  /** Every row has a column `t`. */
  predicate HasColumn(m: Matrix, t: nat)
  {
    forall r :: 0 <= r < |m| ==> t < |m[r]|
  }

  /** A table of the given shape holding 0 everywhere. */
  function Zeros(rows: nat, days: nat): (z: Matrix)
    ensures |z| == rows && IsGrid(z, days)
    ensures forall r, t :: 0 <= r < rows && 0 <= t < days ==> z[r][t] == 0
  {
    seq(rows, _ => seq(days, _ => 0))
  }

  /** The table with cell (r, t) replaced by x and every other cell kept. */
  function SetCell(m: Matrix, r: nat, t: nat, x: int): (m': Matrix)
    requires r < |m| && t < |m[r]|
    ensures |m'| == |m|
    ensures forall i :: 0 <= i < |m| ==> |m'[i]| == |m[i]|
    ensures forall i :: 0 <= i < |m| && i != r ==> m'[i] == m[i]
    ensures m'[r] == m[r][t := x]
  {
    m[r := m[r][t := x]]
  }

  /** The total of column t over the first n rows. */
  function ColSumUpTo(m: Matrix, t: nat, n: nat): int
    requires n <= |m| && HasColumn(m, t)
  {
    if n == 0 then 0 else ColSumUpTo(m, t, n - 1) + m[n - 1][t]
  }

  /** The total of column t over all rows. */
  function ColSum(m: Matrix, t: nat): int
    requires HasColumn(m, t)
  {
    ColSumUpTo(m, t, |m|)
  }

  /** The total of s[lo..hi]. */
  function RangeSum(s: seq<int>, lo: nat, hi: nat): int
    requires lo <= hi <= |s|
    decreases hi - lo
  {
    if lo == hi then 0 else RangeSum(s, lo, hi - 1) + s[hi - 1]
  }

  /** The total of a whole row. */
  function RowSum(s: seq<int>): int
  {
    RangeSum(s, 0, |s|)
  }

  lemma {:induction false} ColSumUpToSetCell(m: Matrix, r: nat, t: nat, x: int, c: nat, n: nat)
    requires r < |m| && t < |m[r]| && n <= |m| && HasColumn(m, c)
    ensures HasColumn(SetCell(m, r, t, x), c)
    ensures ColSumUpTo(SetCell(m, r, t, x), c, n)
            == ColSumUpTo(m, c, n) + (if c == t && r < n then x - m[r][t] else 0)
  {
    if n > 0 {
      ColSumUpToSetCell(m, r, t, x, c, n - 1);
    }
  }

  /** Writing one cell changes the total of its own column by the difference and no other total. */
  lemma ColSumSetCell(m: Matrix, days: nat, r: nat, t: nat, x: int)
    requires IsGrid(m, days) && r < |m| && t < days
    ensures forall c :: 0 <= c < days ==>
      ColSum(SetCell(m, r, t, x), c) == ColSum(m, c) + (if c == t then x - m[r][t] else 0)
  {
    forall c | 0 <= c < days
      ensures ColSum(SetCell(m, r, t, x), c) == ColSum(m, c) + (if c == t then x - m[r][t] else 0)
    {
      ColSumUpToSetCell(m, r, t, x, c, |m|);
    }
  }

  lemma {:induction false} ColSumUpToZeros(rows: nat, days: nat, t: nat, n: nat)
    requires t < days && n <= rows
    ensures ColSumUpTo(Zeros(rows, days), t, n) == 0
  {
    if n > 0 {
      ColSumUpToZeros(rows, days, t, n - 1);
    }
  }

  /** Changing one element changes the total of a stretch by the difference when it lies inside. */
  lemma {:induction false} RangeSumUpdate(s: seq<int>, lo: nat, hi: nat, t: nat, x: int)
    requires lo <= hi <= |s| && t < |s|
    ensures RangeSum(s[t := x], lo, hi) == RangeSum(s, lo, hi) + (if lo <= t < hi then x - s[t] else 0)
    decreases hi - lo
  {
    if lo < hi {
      RangeSumUpdate(s, lo, hi - 1, t, x);
    }
  }

  /** Tables of the same shape that agree cell by cell are equal. */
  lemma SameCells(m: Matrix, m': Matrix, days: nat)
    requires |m| == |m'| && IsGrid(m, days) && IsGrid(m', days)
    requires forall r, t :: 0 <= r < |m| && 0 <= t < days ==> m[r][t] == m'[r][t]
    ensures m == m'
  {
    forall r | 0 <= r < |m|
      ensures m[r] == m'[r]
    {
      assert forall t :: 0 <= t < days ==> m[r][t] == m'[r][t];
    }
  }
}
