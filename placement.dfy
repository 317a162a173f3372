/**
 * What placing one demand does: the window walk of Allocation.Place, from
 * attempt i on. Each lemma is stated for an arbitrary starting attempt i so
 * that it can be proved by following the walk one attempt at a time; the
 * demand itself is the case i == 0 (see DemandEffect).
 */
module Placement {
  import opened Grid
  import opened Allocation

  /** Only row r changes, and in it only the days still ahead in the walk (d-k+1 .. d-i); the totals of all other days stay. */
  lemma {:induction false} PlaceFrame(m: Matrix, days: nat, r: nat, d: nat, i: nat, k: nat,
                                      value: int, unit: int, capacity: int)
    requires IsGrid(m, days) && r < |m| && d < days && k <= d + 1
    ensures forall a, b ::
      0 <= a < |m| && 0 <= b < days && !(a == r && d - k < b <= d - i) ==>
        Place(m, days, r, d, i, k, value, unit, capacity)[a][b] == m[a][b]
    ensures forall b ::
      0 <= b < days && !(d - k < b <= d - i) ==>
        ColSum(Place(m, days, r, d, i, k, value, unit, capacity), b) == ColSum(m, b)
    decreases k - i
  {
    if i < k {
      var t := d - i;
      var current := ColSum(m, t);
      if current < capacity {
        var add := Min(unit, capacity - current);
        var m1 := SetCell(m, r, t, m[r][t] + add);
        ColSumSetCell(m, days, r, t, m[r][t] + add);
        if value - add > 0 {
          PlaceFrame(m1, days, r, d, i + 1, k, value - add, unit, capacity);
        }
      } else {
        PlaceFrame(m, days, r, d, i + 1, k, value, unit, capacity);
      }
    }
  }

  /** A day whose total is within capacity before the walk is still within capacity after it. */
  lemma {:induction false} PlaceWithinCapacity(m: Matrix, days: nat, r: nat, d: nat, i: nat, k: nat,
                                               value: int, unit: int, capacity: int)
    requires IsGrid(m, days) && r < |m| && d < days && k <= d + 1
    ensures forall b ::
      0 <= b < days && ColSum(m, b) <= capacity ==>
        ColSum(Place(m, days, r, d, i, k, value, unit, capacity), b) <= capacity
    decreases k - i
  {
    if i < k {
      var t := d - i;
      var current := ColSum(m, t);
      if current < capacity {
        var add := Min(unit, capacity - current);
        var m1 := SetCell(m, r, t, m[r][t] + add);
        ColSumSetCell(m, days, r, t, m[r][t] + add);
        if value - add > 0 {
          PlaceWithinCapacity(m1, days, r, d, i + 1, k, value - add, unit, capacity);
        }
      } else {
        PlaceWithinCapacity(m, days, r, d, i + 1, k, value, unit, capacity);
      }
    }
  }

  /** With a non-negative unit no cell decreases, and no cell gains more than one unit: each day is tried once. */
  lemma {:induction false} PlaceIncrements(m: Matrix, days: nat, r: nat, d: nat, i: nat, k: nat,
                                           value: int, unit: int, capacity: int)
    requires IsGrid(m, days) && r < |m| && d < days && k <= d + 1
    requires unit >= 0
    ensures forall a, b ::
      0 <= a < |m| && 0 <= b < days ==>
        m[a][b] <= Place(m, days, r, d, i, k, value, unit, capacity)[a][b] <= m[a][b] + unit
    decreases k - i
  {
    if i < k {
      var t := d - i;
      var current := ColSum(m, t);
      if current < capacity {
        var add := Min(unit, capacity - current);
        var m1 := SetCell(m, r, t, m[r][t] + add);
        if value - add > 0 {
          PlaceIncrements(m1, days, r, d, i + 1, k, value - add, unit, capacity);
          PlaceFrame(m1, days, r, d, i + 1, k, value - add, unit, capacity);
        }
      } else {
        PlaceIncrements(m, days, r, d, i + 1, k, value, unit, capacity);
      }
    }
  }

  /**
   * The first attempt on a day whose total is below the capacity adds exactly
   * Min(unit, capacity - total) to the demand's cell there, which is positive
   * for a positive unit.
   */
  lemma PlaceFirstDay(m: Matrix, days: nat, r: nat, d: nat, i: nat, k: nat,
                      value: int, unit: int, capacity: int)
    requires IsGrid(m, days) && r < |m| && d < days && k <= d + 1
    requires i < k && ColSum(m, d - i) < capacity
    ensures Place(m, days, r, d, i, k, value, unit, capacity)[r][d - i]
            == m[r][d - i] + Min(unit, capacity - ColSum(m, d - i))
    ensures unit > 0 ==> Place(m, days, r, d, i, k, value, unit, capacity)[r][d - i] > m[r][d - i]
  {
    var t := d - i;
    var add := Min(unit, capacity - ColSum(m, t));
    var m1 := SetCell(m, r, t, m[r][t] + add);
    if value - add > 0 {
      PlaceFrame(m1, days, r, d, i + 1, k, value - add, unit, capacity);
    }
  }

  /**
   * Every day of the walk either keeps its cell or receives exactly one chunk,
   * Min(unit, capacity - total), where total is that day's total when the walk
   * starts and is below the capacity.
   */
  lemma {:induction false} PlaceChunks(m: Matrix, days: nat, r: nat, d: nat, i: nat, k: nat,
                                       value: int, unit: int, capacity: int)
    requires IsGrid(m, days) && r < |m| && d < days && k <= d + 1
    ensures forall t ::
      d - k < t <= d - i ==>
        || Place(m, days, r, d, i, k, value, unit, capacity)[r][t] == m[r][t]
        || (ColSum(m, t) < capacity
            && Place(m, days, r, d, i, k, value, unit, capacity)[r][t] == m[r][t] + Min(unit, capacity - ColSum(m, t)))
    decreases k - i
  {
    if i < k {
      var t := d - i;
      var current := ColSum(m, t);
      if current < capacity {
        var add := Min(unit, capacity - current);
        var m1 := SetCell(m, r, t, m[r][t] + add);
        ColSumSetCell(m, days, r, t, m[r][t] + add);
        if value - add > 0 {
          PlaceChunks(m1, days, r, d, i + 1, k, value - add, unit, capacity);
          PlaceFrame(m1, days, r, d, i + 1, k, value - add, unit, capacity);
        }
      } else {
        PlaceChunks(m, days, r, d, i + 1, k, value, unit, capacity);
        PlaceFrame(m, days, r, d, i + 1, k, value, unit, capacity);
      }
    }
  }

  /**
   * Leftover is dropped only once the window is used up: either the row gained
   * at least the value, or every day of the walk ended full or received a
   * whole unit.
   */
  lemma {:induction false} PlaceExhausts(m: Matrix, days: nat, r: nat, d: nat, i: nat, k: nat,
                                         value: int, unit: int, capacity: int)
    requires IsGrid(m, days) && r < |m| && d < days && k <= d + 1
    ensures || RowSum(Place(m, days, r, d, i, k, value, unit, capacity)[r]) - RowSum(m[r]) >= value
            || forall t ::
                 d - k < t <= d - i ==>
                   || ColSum(Place(m, days, r, d, i, k, value, unit, capacity), t) >= capacity
                   || Place(m, days, r, d, i, k, value, unit, capacity)[r][t] == m[r][t] + unit
    decreases k - i
  {
    if i < k {
      var t := d - i;
      var current := ColSum(m, t);
      if current < capacity {
        var add := Min(unit, capacity - current);
        var m1 := SetCell(m, r, t, m[r][t] + add);
        ColSumSetCell(m, days, r, t, m[r][t] + add);
        RangeSumUpdate(m[r], 0, days, t, m[r][t] + add);
        if value - add > 0 {
          PlaceExhausts(m1, days, r, d, i + 1, k, value - add, unit, capacity);
          PlaceFrame(m1, days, r, d, i + 1, k, value - add, unit, capacity);
        }
      } else {
        PlaceExhausts(m, days, r, d, i + 1, k, value, unit, capacity);
        PlaceFrame(m, days, r, d, i + 1, k, value, unit, capacity);
      }
    }
  }

  /** A day whose total has already reached the capacity when the walk starts is skipped: its cell in row r is not written. */
  lemma {:induction false} PlaceSkipsFullDays(m: Matrix, days: nat, r: nat, d: nat, i: nat, k: nat,
                                              value: int, unit: int, capacity: int)
    requires IsGrid(m, days) && r < |m| && d < days && k <= d + 1
    ensures forall t ::
      0 <= t < days && ColSum(m, t) >= capacity ==>
        Place(m, days, r, d, i, k, value, unit, capacity)[r][t] == m[r][t]
    decreases k - i
  {
    if i < k {
      var t := d - i;
      var current := ColSum(m, t);
      if current < capacity {
        var add := Min(unit, capacity - current);
        var m1 := SetCell(m, r, t, m[r][t] + add);
        ColSumSetCell(m, days, r, t, m[r][t] + add);
        if value - add > 0 {
          PlaceSkipsFullDays(m1, days, r, d, i + 1, k, value - add, unit, capacity);
        }
      } else {
        PlaceSkipsFullDays(m, days, r, d, i + 1, k, value, unit, capacity);
      }
    }
  }

  /** (n + 1) copies of u are n copies and one more, and copies of a non-negative u add up to a non-negative total. */
  lemma {:induction false} MulStep(n: nat, u: int)
    ensures (n + 1) * u == n * u + u
    ensures u >= 0 ==> n * u >= 0
  {
    if n > 0 {
      MulStep(n - 1, u);
    }
  }

  /** With a non-negative unit the amount added to row r is at most one unit per remaining attempt. */
  lemma {:induction false} PlaceAmount(m: Matrix, days: nat, r: nat, d: nat, i: nat, k: nat,
                                       value: int, unit: int, capacity: int)
    requires IsGrid(m, days) && r < |m| && d < days && i <= k <= d + 1
    requires unit >= 0
    ensures 0 <= RowSum(Place(m, days, r, d, i, k, value, unit, capacity)[r]) - RowSum(m[r]) <= (k - i) * unit
    decreases k - i
  {
    if i < k {
      var t := d - i;
      var current := ColSum(m, t);
      MulStep(k - (i + 1), unit);
      var rest := (k - (i + 1)) * unit;
      assert (k - i) * unit == rest + unit && rest >= 0;
      if current < capacity {
        var add := Min(unit, capacity - current);
        var m1 := SetCell(m, r, t, m[r][t] + add);
        RangeSumUpdate(m[r], 0, days, t, m[r][t] + add);
        if value - add > 0 {
          PlaceAmount(m1, days, r, d, i + 1, k, value - add, unit, capacity);
        }
      } else {
        PlaceAmount(m, days, r, d, i + 1, k, value, unit, capacity);
      }
    }
  }

  /**
   * With a non-negative unit and a positive value, the amount added to row r is
   * less than value + unit: the walk stops as soon as the remaining value is
   * no longer positive, so only the last chunk can overshoot, by less than a unit.
   */
  lemma {:induction false} PlaceOvershoot(m: Matrix, days: nat, r: nat, d: nat, i: nat, k: nat,
                                          value: int, unit: int, capacity: int)
    requires IsGrid(m, days) && r < |m| && d < days && k <= d + 1
    requires unit >= 0 && value > 0
    ensures RowSum(Place(m, days, r, d, i, k, value, unit, capacity)[r]) - RowSum(m[r]) <= value + unit - 1
    decreases k - i
  {
    if i < k {
      var t := d - i;
      var current := ColSum(m, t);
      if current < capacity {
        var add := Min(unit, capacity - current);
        var m1 := SetCell(m, r, t, m[r][t] + add);
        RangeSumUpdate(m[r], 0, days, t, m[r][t] + add);
        if value - add > 0 {
          PlaceOvershoot(m1, days, r, d, i + 1, k, value - add, unit, capacity);
        }
      } else {
        PlaceOvershoot(m, days, r, d, i + 1, k, value, unit, capacity);
      }
    }
  }

  /**
   * Days are tried from the latest to the earliest: when the walk writes to a
   * day t, every later day t' of the window was full afterwards or received a
   * whole unit.
   */
  lemma {:induction false} PlaceSpillOrder(m: Matrix, days: nat, r: nat, d: nat, i: nat, k: nat,
                                           value: int, unit: int, capacity: int)
    requires IsGrid(m, days) && r < |m| && d < days && k <= d + 1
    ensures forall t, t' ::
      d - k < t < t' <= d - i && Place(m, days, r, d, i, k, value, unit, capacity)[r][t] != m[r][t] ==>
        || ColSum(Place(m, days, r, d, i, k, value, unit, capacity), t') >= capacity
        || Place(m, days, r, d, i, k, value, unit, capacity)[r][t'] == m[r][t'] + unit
    decreases k - i
  {
    if i < k {
      var t := d - i;
      var current := ColSum(m, t);
      if current < capacity {
        var add := Min(unit, capacity - current);
        var m1 := SetCell(m, r, t, m[r][t] + add);
        ColSumSetCell(m, days, r, t, m[r][t] + add);
        if value - add > 0 {
          PlaceSpillOrder(m1, days, r, d, i + 1, k, value - add, unit, capacity);
          PlaceFrame(m1, days, r, d, i + 1, k, value - add, unit, capacity);
          var m' := Place(m1, days, r, d, i + 1, k, value - add, unit, capacity);
          assert m'[r][t] == m[r][t] + add && ColSum(m', t) == current + add;
          forall s, s' | d - k < s < s' <= t && m'[r][s] != m[r][s]
            ensures ColSum(m', s') >= capacity || m'[r][s'] == m[r][s'] + unit
          {
            if s' < t {
              assert m'[r][s] != m1[r][s] && m1[r][s'] == m[r][s'];
            }
          }
        }
      } else {
        PlaceSpillOrder(m, days, r, d, i + 1, k, value, unit, capacity);
        PlaceFrame(m, days, r, d, i + 1, k, value, unit, capacity);
      }
    }
  }

  /**
   * The walk stops once the value is placed: a day t is written only while
   * what was already placed on the later days t+1 .. d-i is still less than
   * the value.
   */
  lemma {:induction false} PlaceStopsOncePlaced(m: Matrix, days: nat, r: nat, d: nat, i: nat, k: nat,
                                                value: int, unit: int, capacity: int)
    requires IsGrid(m, days) && r < |m| && d < days && i <= k <= d + 1
    requires value > 0
    ensures forall t ::
      d - k < t <= d - i && Place(m, days, r, d, i, k, value, unit, capacity)[r][t] != m[r][t] ==>
        RangeSum(Place(m, days, r, d, i, k, value, unit, capacity)[r], t + 1, d - i + 1)
          - RangeSum(m[r], t + 1, d - i + 1) < value
    decreases k - i
  {
    if i < k {
      var t := d - i;
      var current := ColSum(m, t);
      var m' := Place(m, days, r, d, i, k, value, unit, capacity);
      if current < capacity {
        var add := Min(unit, capacity - current);
        var m1 := SetCell(m, r, t, m[r][t] + add);
        if value - add > 0 {
          PlaceStopsOncePlaced(m1, days, r, d, i + 1, k, value - add, unit, capacity);
          PlaceFrame(m1, days, r, d, i + 1, k, value - add, unit, capacity);
          forall s | d - k < s < t && m'[r][s] != m[r][s]
            ensures RangeSum(m'[r], s + 1, t + 1) - RangeSum(m[r], s + 1, t + 1) < value
          {
            RangeSumUpdate(m[r], s + 1, t, t, m[r][t] + add);
          }
        }
      } else {
        PlaceStopsOncePlaced(m, days, r, d, i + 1, k, value, unit, capacity);
        PlaceFrame(m, days, r, d, i + 1, k, value, unit, capacity);
      }
    }
  }
}
