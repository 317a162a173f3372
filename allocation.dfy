/**
 * The capacity-constrained backward-spillover allocation, as a specification.
 *
 * The demand table holds one row per product and one column per day; a cell
 * may be missing. Rows are processed in index order, days in ascending order.
 * A non-empty demand on day d is placed on day d and then on up to
 * window - 1 earlier days (never before day 0), in chunks of at most the row's
 * unit, each chunk also limited by the room left in that day's column. A day
 * whose column total already reached the capacity is skipped. Placement of a
 * demand stops as soon as the remaining amount is no longer positive; whatever
 * is still left when the window is exhausted is dropped.
 *
 * The result table is the state; each function below takes the table before
 * a step and returns the table after it.
 */
module Allocation {
  import opened Optional
  import opened Grid

  /** The capacity of one day, shared by all products, in the deployed system. */
  const Capacity: nat := 3300
  /** The number of days (the demand's own day included) that may absorb a demand, in the deployed system. */
  const Window: nat := 4

  function Min(a: int, b: int): int
  {
    if a <= b then a else b
  }

  /** The unit of a row; a missing unit counts as 1. */
  function UnitOf(u: Option<int>): (x: int)
    ensures u.Some? ==> x == u.value
    ensures u.None? ==> x == 1
  {
    match u
    case None => 1
    case Some(x) => x
  }

  /** The demand of a cell; a missing cell counts as no demand. */
  function DemandOf(c: Option<int>): (v: int)
    ensures c.Some? ==> v == c.value
    ensures c.None? ==> v == 0
  {
    match c
    case None => 0
    case Some(v) => v
  }

  /** A cell that triggers any placement: present and non-zero. */
  function HasDemand(c: Option<int>): (b: bool)
    ensures b <==> c.Some? && c.value != 0
  {
    DemandOf(c) != 0
  }

  /** The number of days tried for a demand on day d. */
  function Span(window: nat, d: nat): (k: nat)
    ensures k <= window && k <= d + 1
    ensures k == window || k == d + 1
  {
    Min(window, d + 1)
  }

  /**
   * Attempts i, i+1, ..., k-1 of placing `value` of row r's demand on day d:
   * attempt i targets day d - i, looks at that day's live total over all rows,
   * skips the day when it is full, and otherwise adds
   * Min(unit, capacity - total) to cell (r, d - i).
   */
  function Place(m: Matrix, days: nat, r: nat, d: nat, i: nat, k: nat,
                 value: int, unit: int, capacity: int): (m': Matrix)
    requires IsGrid(m, days) && r < |m| && d < days && k <= d + 1
    ensures |m'| == |m| && IsGrid(m', days)
    decreases k - i
  {
    if i >= k then m
    else
      var target := d - i;
      var current := ColSum(m, target);
      if current < capacity then
        var add := Min(unit, capacity - current);
        var m1 := SetCell(m, r, target, m[r][target] + add);
        if value - add <= 0 then m1
        else Place(m1, days, r, d, i + 1, k, value - add, unit, capacity)
      else
        Place(m, days, r, d, i + 1, k, value, unit, capacity)
  }

  /** The demand cell of row r on day d: nothing happens unless it holds a non-zero value. */
  function AllocDay(m: Matrix, days: nat, r: nat, d: nat, cell: Option<int>,
                    unit: int, capacity: int, window: nat): (m': Matrix)
    requires IsGrid(m, days) && r < |m| && d < days
    ensures |m'| == |m| && IsGrid(m', days)
  {
    var value := DemandOf(cell);
    if value == 0 then m
    else Place(m, days, r, d, 0, Span(window, d), value, unit, capacity)
  }

  /** Days 0 .. n-1 of row r, in ascending order; each day starts from its own demand again. */
  function AllocDays(m: Matrix, days: nat, r: nat, demand: seq<Option<int>>, n: nat,
                     unit: int, capacity: int, window: nat): (m': Matrix)
    requires IsGrid(m, days) && r < |m| && |demand| == days && n <= days
    ensures |m'| == |m| && IsGrid(m', days)
  {
    if n == 0 then m
    else AllocDay(AllocDays(m, days, r, demand, n - 1, unit, capacity, window),
                  days, r, n - 1, demand[n - 1], unit, capacity, window)
  }

  /** Rows 0 .. n-1, in index order, starting from the all-zero table. */
  function AllocRows(numbers: seq<seq<Option<int>>>, units: seq<Option<int>>, days: nat,
                     capacity: int, window: nat, n: nat): (m: Matrix)
    requires IsGrid(numbers, days) && |units| == |numbers| && n <= |numbers|
    ensures |m| == |numbers| && IsGrid(m, days)
  {
    if n == 0 then Zeros(|numbers|, days)
    else AllocDays(AllocRows(numbers, units, days, capacity, window, n - 1),
                   days, n - 1, numbers[n - 1], days, UnitOf(units[n - 1]), capacity, window)
  }

  /** The result table of the whole pass. */
  function Allocate(numbers: seq<seq<Option<int>>>, units: seq<Option<int>>, days: nat,
                    capacity: int, window: nat): (m: Matrix)
    requires IsGrid(numbers, days) && |units| == |numbers|
    ensures |m| == |numbers| && IsGrid(m, days)
  {
    AllocRows(numbers, units, days, capacity, window, |numbers|)
  }
}
