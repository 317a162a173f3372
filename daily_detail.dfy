/**
 * The per-day detail table shown after the allocation: each day's total over
 * all products and the capacity still free on that day, and the check that
 * reports the days above capacity.
 */
module DailyDetail {
  import opened Optional
  import opened Grid
  import opened Allocation
  import Properties

  /** One line of the detail table. */
  datatype DayLine = DayLine(day: nat, total: int, free: int)

  /** One line per day of the result table: its total and capacity - total. */
  function Detail(m: Matrix, days: nat, capacity: int): (lines: seq<DayLine>)
    requires IsGrid(m, days)
    ensures |lines| == days
    ensures forall t :: 0 <= t < days ==>
      lines[t].day == t && lines[t].total == ColSum(m, t) && lines[t].total + lines[t].free == capacity
  {
    seq(days, t requires 0 <= t < days => DayLine(t, ColSum(m, t), capacity - ColSum(m, t)))
  }

  /** The days whose total is above capacity, in day order. */
  function OverCapacityDays(lines: seq<DayLine>, capacity: int): (over: seq<nat>)
    ensures |over| <= |lines|
    ensures forall j :: 0 <= j < |over| ==>
      exists t :: 0 <= t < |lines| && lines[t].day == over[j] && lines[t].total > capacity
    ensures forall t :: 0 <= t < |lines| && lines[t].total > capacity ==> lines[t].day in over
  {
    if lines == [] then []
    else
      var rest := OverCapacityDays(lines[..|lines| - 1], capacity);
      var last := lines[|lines| - 1];
      if last.total > capacity then rest + [last.day] else rest
  }

  /** No day is reported over capacity exactly when every day's total is within capacity. */
  lemma {:induction false} NoneOverCapacityIff(lines: seq<DayLine>, capacity: int)
    ensures OverCapacityDays(lines, capacity) == []
            <==> forall t :: 0 <= t < |lines| ==> lines[t].total <= capacity
  {
    if lines != [] {
      var init := lines[..|lines| - 1];
      NoneOverCapacityIff(init, capacity);
      assert forall t :: 0 <= t < |init| ==> init[t] == lines[t];
    }
  }

  /**
   * For the result of the pass, every line of the detail table shows the day,
   * its total, and a free capacity that is never negative and adds up with
   * the total to the capacity.
   */
  lemma FreeCapacityNonNegative(numbers: seq<seq<Option<int>>>, units: seq<Option<int>>, days: nat,
                                capacity: int, window: nat)
    requires IsGrid(numbers, days) && |units| == |numbers|
    requires capacity >= 0
    ensures var lines := Detail(Allocate(numbers, units, days, capacity, window), days, capacity);
      forall t :: 0 <= t < days ==>
        lines[t].day == t && lines[t].free >= 0 && lines[t].total + lines[t].free == capacity
  {
    Properties.WithinCapacity(numbers, units, days, capacity, window);
  }

  /** For the result of the pass, the over-capacity report is always empty. */
  lemma NoDayReportedOverCapacity(numbers: seq<seq<Option<int>>>, units: seq<Option<int>>, days: nat,
                                  capacity: int, window: nat)
    requires IsGrid(numbers, days) && |units| == |numbers|
    requires capacity >= 0
    ensures OverCapacityDays(Detail(Allocate(numbers, units, days, capacity, window), days, capacity), capacity) == []
  {
    var lines := Detail(Allocate(numbers, units, days, capacity, window), days, capacity);
    Properties.WithinCapacity(numbers, units, days, capacity, window);
    NoneOverCapacityIff(lines, capacity);
  }
}
