/**
 * The allocation loop as the program runs it: a result table allocated as
 * zeros and updated cell by cell inside three nested loops (rows, days,
 * window attempts), with every day's total recomputed from the table at each
 * attempt. Each method is proved against the specification in Allocation.
 */
module Engine {
  import opened Optional
  import opened Grid
  import opened Allocation
  import Properties

  /** The current contents of a result table, row by row. */
  ghost function Snapshot(a: array2<int>): (m: Matrix)
    reads a
    ensures |m| == a.Length0 && IsGrid(m, a.Length1)
    ensures forall i, j :: 0 <= i < a.Length0 && 0 <= j < a.Length1 ==> m[i][j] == a[i, j]
  {
    seq(a.Length0, i requires 0 <= i < a.Length0 reads a =>
      seq(a.Length1, j requires 0 <= j < a.Length1 reads a => a[i, j]))
  }

  /** The live total of day t over all rows, summed row by row. */
  method ColumnTotal(a: array2<int>, t: nat) returns (total: int)
    requires t < a.Length1
    ensures total == ColSum(Snapshot(a), t)
  {
    ghost var m := Snapshot(a);
    total := 0;
    var i := 0;
    while i < a.Length0
      invariant 0 <= i <= a.Length0
      invariant total == ColSumUpTo(m, t, i)
    {
      total := total + a[i, t];
      i := i + 1;
    }
  }

  /**
   * The whole pass. The result has the demand table's shape, equals the
   * specification's table and keeps every day within capacity.
   */
  method AllocatePlan(numbers: seq<seq<Option<int>>>, units: seq<Option<int>>, days: nat,
                      capacity: nat, window: nat) returns (result: array2<int>)
    requires IsGrid(numbers, days) && |units| == |numbers|
    ensures fresh(result)
    ensures result.Length0 == |numbers| && result.Length1 == days
    ensures Snapshot(result) == Allocate(numbers, units, days, capacity, window)
    ensures forall t :: 0 <= t < days ==> ColSum(Snapshot(result), t) <= capacity
  {
    var rows := |numbers|;
    result := new int[rows, days]((_, _) => 0);
    SameCells(Snapshot(result), Zeros(rows, days), days);
    var r := 0;
    while r < rows
      invariant 0 <= r <= rows
      invariant Snapshot(result) == AllocRows(numbers, units, days, capacity, window, r)
    {
      var unit := UnitOf(units[r]);
      ghost var start := Snapshot(result);
      var d := 0;
      while d < days
        invariant 0 <= d <= days
        invariant start == AllocRows(numbers, units, days, capacity, window, r)
        invariant Snapshot(result) == AllocDays(start, days, r, numbers[r], d, unit, capacity, window)
      {
        var value := DemandOf(numbers[r][d]);
        if value != 0 {
          PlaceDemand(result, r, d, value, unit, capacity, window);
        }
        d := d + 1;
      }
      r := r + 1;
    }
    Properties.WithinCapacity(numbers, units, days, capacity, window);
  }

  /**
   * The pass as the program runs it, with its fixed daily capacity of 3300 and
   * its window of 4 days: no day of the result is above 3300.
   */
  method DeployedPlan(numbers: seq<seq<Option<int>>>, units: seq<Option<int>>, days: nat)
    returns (result: array2<int>)
    requires IsGrid(numbers, days) && |units| == |numbers|
    ensures fresh(result)
    ensures result.Length0 == |numbers| && result.Length1 == days
    ensures Snapshot(result) == Allocate(numbers, units, days, Capacity, Window)
    ensures forall t :: 0 <= t < days ==> ColSum(Snapshot(result), t) <= 3300
  {
    result := AllocatePlan(numbers, units, days, Capacity, Window);
  }

  /**
   * One demand of row r on day d: tries day d, then up to window - 1 earlier
   * days, adding to row r's cells until the value is placed or the window is
   * exhausted; whatever is left is dropped.
   */
  method PlaceDemand(result: array2<int>, r: nat, d: nat, value: int, unit: int,
                     capacity: int, window: nat)
    requires r < result.Length0 && d < result.Length1
    modifies result
    ensures Snapshot(result)
            == Place(old(Snapshot(result)), result.Length1, r, d, 0, Span(window, d), value, unit, capacity)
  {
    ghost var before := Snapshot(result);
    var days := result.Length1;
    var k := Span(window, d);
    var remaining := value;
    var i := 0;
    while i < k
      invariant 0 <= i <= k
      invariant Place(before, days, r, d, 0, k, value, unit, capacity)
                == Place(Snapshot(result), days, r, d, i, k, remaining, unit, capacity)
    {
      var target := d - i;
      var current := ColumnTotal(result, target);
      if current < capacity {
        var add := Min(unit, capacity - current);
        ghost var now := Snapshot(result);
        result[r, target] := result[r, target] + add;
        SameCells(Snapshot(result), SetCell(now, r, target, now[r][target] + add), days);
        remaining := remaining - add;
        if remaining <= 0 {
          break;
        }
      }
      i := i + 1;
    }
  }
}
