/**
 * Worked examples of the pass on small tables (capacity 10, window 4).
 */
module Scenarios {
  import opened Optional
  import opened Grid
  import opened Allocation

  /** A demand of 12 on day 0 with unit 5: only day 0 is in the window, one chunk of 5 is placed, 7 is dropped. */
  lemma DemandOnFirstDay()
    ensures Allocate([[Some(12), Some(0), Some(0), Some(0)]], [Some(5)], 4, 10, 4) == [[5, 0, 0, 0]]
  {
    var m0 := Zeros(1, 4);
    SameCells(m0, [[0, 0, 0, 0]], 4);
    var m1 := [[5, 0, 0, 0]];
    assert ColSum(m0, 0) == 0;
    SameCells(SetCell(m0, 0, 0, 5), m1, 4);
    assert Place(m1, 4, 0, 0, 1, 1, 7, 5, 10) == m1;
    assert Place(m0, 4, 0, 0, 0, 1, 12, 5, 10) == m1;
    assert AllocDays(m0, 4, 0, [Some(12), Some(0), Some(0), Some(0)], 1, 5, 10, 4) == m1;
    assert AllocDays(m0, 4, 0, [Some(12), Some(0), Some(0), Some(0)], 4, 5, 10, 4) == m1;
  }

  /**
   * A demand of 12 on day 3 with unit 5: days 3, 2 and 1 each receive a whole
   * chunk of 5, because a chunk is limited by the unit and the free capacity
   * but not by what is left of the demand; 15 is placed for a demand of 12.
   */
  lemma DemandOnLastDay()
    ensures Allocate([[None, Some(0), None, Some(12)]], [Some(5)], 4, 10, 4) == [[0, 5, 5, 5]]
  {
    var demand := [None, Some(0), None, Some(12)];
    var m0 := Zeros(1, 4);
    SameCells(m0, [[0, 0, 0, 0]], 4);
    var m1 := [[0, 0, 0, 5]];
    var m2 := [[0, 0, 5, 5]];
    var m3 := [[0, 5, 5, 5]];
    assert ColSum(m0, 3) == 0;
    SameCells(SetCell(m0, 0, 3, 5), m1, 4);
    assert ColSum(m1, 2) == 0;
    SameCells(SetCell(m1, 0, 2, 5), m2, 4);
    assert ColSum(m2, 1) == 0;
    SameCells(SetCell(m2, 0, 1, 5), m3, 4);
    assert Place(m2, 4, 0, 3, 2, 4, 2, 5, 10) == m3;
    assert Place(m1, 4, 0, 3, 1, 4, 7, 5, 10) == m3;
    assert Place(m0, 4, 0, 3, 0, 4, 12, 5, 10) == m3;
    assert AllocDays(m0, 4, 0, demand, 3, 5, 10, 4) == m0;
    assert AllocDays(m0, 4, 0, demand, 4, 5, 10, 4) == m3;
  }

  /**
   * Two products with demand 8 on day 1 and unit 8: the first row fills day 1
   * up to 8; the second row gets the 2 left on day 1 and spills 8 onto day 0.
   */
  lemma RowOrderDecides()
    ensures Allocate([[None, Some(8)], [None, Some(8)]], [Some(8), Some(8)], 2, 10, 4) == [[0, 8], [8, 2]]
  {
    var numbers := [[None, Some(8)], [None, Some(8)]];
    var units := [Some(8), Some(8)];
    var m0 := Zeros(2, 2);
    SameCells(m0, [[0, 0], [0, 0]], 2);
    var m1 := [[0, 8], [0, 0]];
    var m2 := [[0, 8], [0, 2]];
    var m3 := [[0, 8], [8, 2]];
    assert ColSum(m0, 1) == 0;
    SameCells(SetCell(m0, 0, 1, 8), m1, 2);
    assert ColSum(m1, 1) == 8;
    SameCells(SetCell(m1, 1, 1, 2), m2, 2);
    assert ColSum(m2, 0) == 0;
    SameCells(SetCell(m2, 1, 0, 8), m3, 2);
    assert Place(m0, 2, 0, 1, 0, 2, 8, 8, 10) == m1;
    assert Place(m2, 2, 1, 1, 1, 2, 6, 8, 10) == m3;
    assert Place(m1, 2, 1, 1, 0, 2, 8, 8, 10) == m3;
    assert AllocDays(m0, 2, 0, numbers[0], 1, 8, 10, 4) == m0;
    assert AllocRows(numbers, units, 2, 10, 4, 1) == m1;
    assert AllocDays(m1, 2, 1, numbers[1], 1, 8, 10, 4) == m1;
    assert AllocRows(numbers, units, 2, 10, 4, 2) == m3;
  }
}
