/**
 * Properties of the whole pass: what one demand does to the table, and what
 * holds of the table once every row and day has been processed.
 */
module Properties {
  import opened Optional
  import opened Grid
  import opened Allocation
  import opened Placement

  /**
   * One demand cell of row r on day d. Nothing changes unless the cell holds
   * a non-zero value; other rows never change; in row r only days
   * d-window+1 .. d (and not before day 0) can change; days within capacity
   * stay within it. With a non-negative unit, every cell grows by 0 .. unit, the
   * row gains at most Span(window, d) units, and a positive demand gains the
   * row less than demand + unit. A tried day receives no chunk or exactly
   * Min(unit, capacity - total); day d itself, when below capacity, receives
   * its chunk; and leftover is dropped only once every day of the window
   * ended full or received a whole unit.
   */
  lemma DemandEffect(m: Matrix, days: nat, r: nat, d: nat, cell: Option<int>,
                     unit: int, capacity: int, window: nat)
    requires IsGrid(m, days) && r < |m| && d < days
    ensures !HasDemand(cell) ==> AllocDay(m, days, r, d, cell, unit, capacity, window) == m
    ensures forall a ::
      0 <= a < |m| && a != r ==>
        AllocDay(m, days, r, d, cell, unit, capacity, window)[a] == m[a]
    ensures forall t ::
      0 <= t < days && !(d - window < t <= d) ==>
        AllocDay(m, days, r, d, cell, unit, capacity, window)[r][t] == m[r][t]
    ensures forall b ::
      0 <= b < days && ColSum(m, b) <= capacity ==>
        ColSum(AllocDay(m, days, r, d, cell, unit, capacity, window), b) <= capacity
    ensures unit >= 0 ==>
      forall t :: 0 <= t < days ==> m[r][t] <= AllocDay(m, days, r, d, cell, unit, capacity, window)[r][t] <= m[r][t] + unit
    ensures unit >= 0 ==>
      RowSum(AllocDay(m, days, r, d, cell, unit, capacity, window)[r]) - RowSum(m[r]) <= Span(window, d) * unit
    ensures unit >= 0 && DemandOf(cell) > 0 ==>
      RowSum(AllocDay(m, days, r, d, cell, unit, capacity, window)[r]) - RowSum(m[r]) <= DemandOf(cell) + unit - 1
    ensures HasDemand(cell) && window > 0 && ColSum(m, d) < capacity ==>
      AllocDay(m, days, r, d, cell, unit, capacity, window)[r][d] == m[r][d] + Min(unit, capacity - ColSum(m, d))
    ensures forall t ::
      d - Span(window, d) < t <= d ==>
        || AllocDay(m, days, r, d, cell, unit, capacity, window)[r][t] == m[r][t]
        || (ColSum(m, t) < capacity
            && AllocDay(m, days, r, d, cell, unit, capacity, window)[r][t] == m[r][t] + Min(unit, capacity - ColSum(m, t)))
    ensures || RowSum(AllocDay(m, days, r, d, cell, unit, capacity, window)[r]) - RowSum(m[r]) >= DemandOf(cell)
            || forall t ::
                 d - Span(window, d) < t <= d ==>
                   || ColSum(AllocDay(m, days, r, d, cell, unit, capacity, window), t) >= capacity
                   || AllocDay(m, days, r, d, cell, unit, capacity, window)[r][t] == m[r][t] + unit
  {
    var m' := AllocDay(m, days, r, d, cell, unit, capacity, window);
    var value := DemandOf(cell);
    if value != 0 {
      var k := Span(window, d);
      PlaceFrame(m, days, r, d, 0, k, value, unit, capacity);
      PlaceWithinCapacity(m, days, r, d, 0, k, value, unit, capacity);
      PlaceChunks(m, days, r, d, 0, k, value, unit, capacity);
      PlaceExhausts(m, days, r, d, 0, k, value, unit, capacity);
      if 0 < k && ColSum(m, d) < capacity {
        PlaceFirstDay(m, days, r, d, 0, k, value, unit, capacity);
      }
      if unit >= 0 {
        PlaceIncrements(m, days, r, d, 0, k, value, unit, capacity);
        PlaceAmount(m, days, r, d, 0, k, value, unit, capacity);
        if value > 0 {
          PlaceOvershoot(m, days, r, d, 0, k, value, unit, capacity);
        }
      }
      forall a | 0 <= a < |m| && a != r
        ensures m'[a] == m[a]
      {
        assert forall b :: 0 <= b < days ==> m'[a][b] == m[a][b];
      }
    }
  }

  /** Processing the days of row r leaves every other row as it was. */
  lemma {:induction false} AllocDaysOtherRows(m: Matrix, days: nat, r: nat, demand: seq<Option<int>>, n: nat,
                                              unit: int, capacity: int, window: nat)
    requires IsGrid(m, days) && r < |m| && |demand| == days && n <= days
    ensures forall a ::
      0 <= a < |m| && a != r ==>
        AllocDays(m, days, r, demand, n, unit, capacity, window)[a] == m[a]
  {
    if n > 0 {
      AllocDaysOtherRows(m, days, r, demand, n - 1, unit, capacity, window);
      DemandEffect(AllocDays(m, days, r, demand, n - 1, unit, capacity, window),
                   days, r, n - 1, demand[n - 1], unit, capacity, window);
      assert AllocDays(m, days, r, demand, n, unit, capacity, window)
          == AllocDay(AllocDays(m, days, r, demand, n - 1, unit, capacity, window),
                      days, r, n - 1, demand[n - 1], unit, capacity, window);
    }
  }

  /** A cell of row r changes only if some demand of days t .. t+window-1 among the first n days is non-empty. */
  lemma {:induction false} AllocDaysSupport(m: Matrix, days: nat, r: nat, demand: seq<Option<int>>, n: nat,
                                            unit: int, capacity: int, window: nat)
    requires IsGrid(m, days) && r < |m| && |demand| == days && n <= days
    ensures forall t ::
      0 <= t < days && AllocDays(m, days, r, demand, n, unit, capacity, window)[r][t] != m[r][t] ==>
        exists d :: t <= d < t + window && d < n && HasDemand(demand[d])
  {
    if n > 0 {
      var mid := AllocDays(m, days, r, demand, n - 1, unit, capacity, window);
      var m' := AllocDays(m, days, r, demand, n, unit, capacity, window);
      AllocDaysSupport(m, days, r, demand, n - 1, unit, capacity, window);
      DemandEffect(mid, days, r, n - 1, demand[n - 1], unit, capacity, window);
      forall t | 0 <= t < days && m'[r][t] != m[r][t]
        ensures exists d :: t <= d < t + window && d < n && HasDemand(demand[d])
      {
        if m'[r][t] != mid[r][t] {
          assert t <= n - 1 < t + window && HasDemand(demand[n - 1]);
        }
      }
    }
  }

  /** Processing the days of a row keeps every day within capacity. */
  lemma {:induction false} AllocDaysWithinCapacity(m: Matrix, days: nat, r: nat, demand: seq<Option<int>>, n: nat,
                                                   unit: int, capacity: int, window: nat)
    requires IsGrid(m, days) && r < |m| && |demand| == days && n <= days
    requires forall b :: 0 <= b < days ==> ColSum(m, b) <= capacity
    ensures forall b ::
      0 <= b < days ==>
        ColSum(AllocDays(m, days, r, demand, n, unit, capacity, window), b) <= capacity
  {
    if n > 0 {
      AllocDaysWithinCapacity(m, days, r, demand, n - 1, unit, capacity, window);
      DemandEffect(AllocDays(m, days, r, demand, n - 1, unit, capacity, window),
                   days, r, n - 1, demand[n - 1], unit, capacity, window);
      assert AllocDays(m, days, r, demand, n, unit, capacity, window)
          == AllocDay(AllocDays(m, days, r, demand, n - 1, unit, capacity, window),
                      days, r, n - 1, demand[n - 1], unit, capacity, window);
    }
  }

  /** With a non-negative unit, processing the days of a row never decreases a cell. */
  lemma {:induction false} AllocDaysGrows(m: Matrix, days: nat, r: nat, demand: seq<Option<int>>, n: nat,
                                          unit: int, capacity: int, window: nat)
    requires IsGrid(m, days) && r < |m| && |demand| == days && n <= days
    requires unit >= 0
    ensures forall a, b ::
      0 <= a < |m| && 0 <= b < days ==>
        m[a][b] <= AllocDays(m, days, r, demand, n, unit, capacity, window)[a][b]
  {
    if n > 0 {
      AllocDaysGrows(m, days, r, demand, n - 1, unit, capacity, window);
      DemandEffect(AllocDays(m, days, r, demand, n - 1, unit, capacity, window),
                   days, r, n - 1, demand[n - 1], unit, capacity, window);
      assert AllocDays(m, days, r, demand, n, unit, capacity, window)
          == AllocDay(AllocDays(m, days, r, demand, n - 1, unit, capacity, window),
                      days, r, n - 1, demand[n - 1], unit, capacity, window);
    }
  }

  /** Rows not yet processed are still all zero. */
  lemma {:induction false} AllocRowsPending(numbers: seq<seq<Option<int>>>, units: seq<Option<int>>, days: nat,
                                            capacity: int, window: nat, n: nat)
    requires IsGrid(numbers, days) && |units| == |numbers| && n <= |numbers|
    ensures forall a, t ::
      n <= a < |numbers| && 0 <= t < days ==>
        AllocRows(numbers, units, days, capacity, window, n)[a][t] == 0
  {
    if n > 0 {
      var prev := AllocRows(numbers, units, days, capacity, window, n - 1);
      AllocRowsPending(numbers, units, days, capacity, window, n - 1);
      AllocDaysOtherRows(prev, days, n - 1, numbers[n - 1], days, UnitOf(units[n - 1]), capacity, window);
      assert AllocRows(numbers, units, days, capacity, window, n)
          == AllocDays(prev, days, n - 1, numbers[n - 1], days, UnitOf(units[n - 1]), capacity, window);
    }
  }

  /** A row, once processed, is never written again: later rows cannot take back what it was given. */
  lemma {:induction false} AllocRowsFinished(numbers: seq<seq<Option<int>>>, units: seq<Option<int>>, days: nat,
                                             capacity: int, window: nat, n: nat)
    requires IsGrid(numbers, days) && |units| == |numbers| && n <= |numbers|
    ensures forall a :: 0 <= a < n ==>
      AllocRows(numbers, units, days, capacity, window, n)[a]
        == AllocRows(numbers, units, days, capacity, window, a + 1)[a]
  {
    if n > 0 {
      var prev := AllocRows(numbers, units, days, capacity, window, n - 1);
      AllocRowsFinished(numbers, units, days, capacity, window, n - 1);
      AllocDaysOtherRows(prev, days, n - 1, numbers[n - 1], days, UnitOf(units[n - 1]), capacity, window);
      assert AllocRows(numbers, units, days, capacity, window, n)
          == AllocDays(prev, days, n - 1, numbers[n - 1], days, UnitOf(units[n - 1]), capacity, window);
    }
  }

  lemma {:induction false} AllocRowsWithinCapacity(numbers: seq<seq<Option<int>>>, units: seq<Option<int>>, days: nat,
                                                   capacity: int, window: nat, n: nat)
    requires IsGrid(numbers, days) && |units| == |numbers| && n <= |numbers|
    requires capacity >= 0
    ensures forall t ::
      0 <= t < days ==>
        ColSum(AllocRows(numbers, units, days, capacity, window, n), t) <= capacity
  {
    if n == 0 {
      forall t | 0 <= t < days
        ensures ColSum(Zeros(|numbers|, days), t) <= capacity
      {
        ColSumUpToZeros(|numbers|, days, t, |numbers|);
      }
    } else {
      AllocRowsWithinCapacity(numbers, units, days, capacity, window, n - 1);
      AllocDaysWithinCapacity(AllocRows(numbers, units, days, capacity, window, n - 1),
                              days, n - 1, numbers[n - 1], days, UnitOf(units[n - 1]), capacity, window);
      assert AllocRows(numbers, units, days, capacity, window, n)
          == AllocDays(AllocRows(numbers, units, days, capacity, window, n - 1),
                       days, n - 1, numbers[n - 1], days, UnitOf(units[n - 1]), capacity, window);
    }
  }

  lemma {:induction false} AllocRowsNonNegative(numbers: seq<seq<Option<int>>>, units: seq<Option<int>>, days: nat,
                                                capacity: int, window: nat, n: nat)
    requires IsGrid(numbers, days) && |units| == |numbers| && n <= |numbers|
    requires forall a :: 0 <= a < |units| ==> UnitOf(units[a]) >= 0
    ensures forall a, t ::
      0 <= a < |numbers| && 0 <= t < days ==>
        AllocRows(numbers, units, days, capacity, window, n)[a][t] >= 0
  {
    if n > 0 {
      AllocRowsNonNegative(numbers, units, days, capacity, window, n - 1);
      AllocDaysGrows(AllocRows(numbers, units, days, capacity, window, n - 1),
                     days, n - 1, numbers[n - 1], days, UnitOf(units[n - 1]), capacity, window);
      assert AllocRows(numbers, units, days, capacity, window, n)
          == AllocDays(AllocRows(numbers, units, days, capacity, window, n - 1),
                       days, n - 1, numbers[n - 1], days, UnitOf(units[n - 1]), capacity, window);
    }
  }

  lemma {:induction false} AllocRowsSupport(numbers: seq<seq<Option<int>>>, units: seq<Option<int>>, days: nat,
                                            capacity: int, window: nat, n: nat)
    requires IsGrid(numbers, days) && |units| == |numbers| && n <= |numbers|
    ensures forall a, t ::
      0 <= a < |numbers| && 0 <= t < days && AllocRows(numbers, units, days, capacity, window, n)[a][t] != 0 ==>
        exists d :: t <= d < t + window && d < days && HasDemand(numbers[a][d])
  {
    if n > 0 {
      var prev := AllocRows(numbers, units, days, capacity, window, n - 1);
      AllocRowsSupport(numbers, units, days, capacity, window, n - 1);
      AllocRowsPending(numbers, units, days, capacity, window, n - 1);
      AllocDaysOtherRows(prev, days, n - 1, numbers[n - 1], days, UnitOf(units[n - 1]), capacity, window);
      assert AllocRows(numbers, units, days, capacity, window, n)
          == AllocDays(prev, days, n - 1, numbers[n - 1], days, UnitOf(units[n - 1]), capacity, window);
      AllocDaysSupport(prev, days, n - 1, numbers[n - 1], days, UnitOf(units[n - 1]), capacity, window);
    }
  }

  /** After the pass, no day's total over all rows exceeds the capacity. */
  lemma WithinCapacity(numbers: seq<seq<Option<int>>>, units: seq<Option<int>>, days: nat,
                       capacity: int, window: nat)
    requires IsGrid(numbers, days) && |units| == |numbers|
    requires capacity >= 0
    ensures forall t ::
      0 <= t < days ==>
        ColSum(Allocate(numbers, units, days, capacity, window), t) <= capacity
  {
    AllocRowsWithinCapacity(numbers, units, days, capacity, window, |numbers|);
  }

  /** With non-negative units, every cell of the result is at least its initial 0. */
  lemma NonNegative(numbers: seq<seq<Option<int>>>, units: seq<Option<int>>, days: nat,
                    capacity: int, window: nat)
    requires IsGrid(numbers, days) && |units| == |numbers|
    requires forall a :: 0 <= a < |units| ==> UnitOf(units[a]) >= 0
    ensures forall a, t ::
      0 <= a < |numbers| && 0 <= t < days ==>
        Allocate(numbers, units, days, capacity, window)[a][t] >= 0
  {
    AllocRowsNonNegative(numbers, units, days, capacity, window, |numbers|);
  }

  /**
   * Window locality: cell (a, t) of the result is non-zero only if row a has
   * a non-empty demand on one of the days t .. t+window-1.
   */
  lemma Support(numbers: seq<seq<Option<int>>>, units: seq<Option<int>>, days: nat,
                capacity: int, window: nat)
    requires IsGrid(numbers, days) && |units| == |numbers|
    ensures forall a, t ::
      0 <= a < |numbers| && 0 <= t < days && Allocate(numbers, units, days, capacity, window)[a][t] != 0 ==>
        exists d :: t <= d < t + window && d < days && HasDemand(numbers[a][d])
  {
    AllocRowsSupport(numbers, units, days, capacity, window, |numbers|);
  }

  /** A row whose demand cells are all missing or 0 stays all zero. */
  lemma NoDemandNoAllocation(numbers: seq<seq<Option<int>>>, units: seq<Option<int>>, days: nat,
                             capacity: int, window: nat, a: nat)
    requires IsGrid(numbers, days) && |units| == |numbers| && a < |numbers|
    requires forall d :: 0 <= d < days ==> !HasDemand(numbers[a][d])
    ensures forall t :: 0 <= t < days ==> Allocate(numbers, units, days, capacity, window)[a][t] == 0
  {
    Support(numbers, units, days, capacity, window);
  }

  /** Row a's final allocation is fixed once its own days are processed. */
  lemma RowFixedAfterItsPass(numbers: seq<seq<Option<int>>>, units: seq<Option<int>>, days: nat,
                             capacity: int, window: nat, a: nat)
    requires IsGrid(numbers, days) && |units| == |numbers| && a < |numbers|
    ensures Allocate(numbers, units, days, capacity, window)[a]
            == AllocRows(numbers, units, days, capacity, window, a + 1)[a]
  {
    AllocRowsFinished(numbers, units, days, capacity, window, |numbers|);
  }

  /** The pass reads the units only through UnitOf. */
  lemma {:induction false} UnitsCongruence(numbers: seq<seq<Option<int>>>, units: seq<Option<int>>,
                                           units': seq<Option<int>>, days: nat,
                                           capacity: int, window: nat, n: nat)
    requires IsGrid(numbers, days) && |units| == |numbers| && |units'| == |numbers| && n <= |numbers|
    requires forall a :: 0 <= a < |numbers| ==> UnitOf(units[a]) == UnitOf(units'[a])
    ensures AllocRows(numbers, units, days, capacity, window, n)
            == AllocRows(numbers, units', days, capacity, window, n)
  {
    if n > 0 {
      UnitsCongruence(numbers, units, units', days, capacity, window, n - 1);
    }
  }

  /** A missing unit gives exactly the allocation of a unit of 1. */
  lemma MissingUnitIsOne(numbers: seq<seq<Option<int>>>, units: seq<Option<int>>, days: nat,
                         capacity: int, window: nat, a: nat)
    requires IsGrid(numbers, days) && |units| == |numbers| && a < |units|
    ensures Allocate(numbers, units[a := None], days, capacity, window)
            == Allocate(numbers, units[a := Some(1)], days, capacity, window)
  {
    UnitsCongruence(numbers, units[a := None], units[a := Some(1)], days, capacity, window, |numbers|);
  }

  /** A row's pass reads its demand cells only through DemandOf. */
  lemma {:induction false} DemandRowCongruence(m: Matrix, days: nat, r: nat, demand: seq<Option<int>>,
                                               demand': seq<Option<int>>, n: nat,
                                               unit: int, capacity: int, window: nat)
    requires IsGrid(m, days) && r < |m| && |demand| == days && |demand'| == days && n <= days
    requires forall d :: 0 <= d < days ==> DemandOf(demand[d]) == DemandOf(demand'[d])
    ensures AllocDays(m, days, r, demand, n, unit, capacity, window)
            == AllocDays(m, days, r, demand', n, unit, capacity, window)
  {
    if n > 0 {
      DemandRowCongruence(m, days, r, demand, demand', n - 1, unit, capacity, window);
    }
  }

  /** The pass reads the demand table only through DemandOf. */
  lemma {:induction false} DemandCongruence(numbers: seq<seq<Option<int>>>, numbers': seq<seq<Option<int>>>,
                                            units: seq<Option<int>>, days: nat,
                                            capacity: int, window: nat, n: nat)
    requires IsGrid(numbers, days) && IsGrid(numbers', days) && |numbers'| == |numbers|
    requires |units| == |numbers| && n <= |numbers|
    requires forall a, d :: 0 <= a < |numbers| && 0 <= d < days ==> DemandOf(numbers[a][d]) == DemandOf(numbers'[a][d])
    ensures AllocRows(numbers, units, days, capacity, window, n)
            == AllocRows(numbers', units, days, capacity, window, n)
  {
    if n > 0 {
      DemandCongruence(numbers, numbers', units, days, capacity, window, n - 1);
      DemandRowCongruence(AllocRows(numbers, units, days, capacity, window, n - 1), days, n - 1,
                          numbers[n - 1], numbers'[n - 1], days, UnitOf(units[n - 1]), capacity, window);
    }
  }

  /** A missing demand cell gives exactly the allocation of a cell holding 0. */
  lemma MissingDemandIsZero(numbers: seq<seq<Option<int>>>, units: seq<Option<int>>, days: nat,
                            capacity: int, window: nat, a: nat, d: nat)
    requires IsGrid(numbers, days) && |units| == |numbers| && a < |numbers| && d < days
    ensures Allocate(numbers[a := numbers[a][d := None]], units, days, capacity, window)
            == Allocate(numbers[a := numbers[a][d := Some(0)]], units, days, capacity, window)
  {
    DemandCongruence(numbers[a := numbers[a][d := None]], numbers[a := numbers[a][d := Some(0)]],
                     units, days, capacity, window, |numbers|);
  }
}
