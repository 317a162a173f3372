# Production-plan allocation: a Dafny model

The production-plan tool reads a table of demands, with one row per product
and one column per day, and one `unit` per product. It spreads that demand so
that no day's total over all products goes above a daily capacity (3300 in the
program). Rows are processed in index order and days in ascending order. A
non-empty demand on day `d` is put on day `d` first, then on up to three
earlier days (never before day 0). It is placed in chunks of
`min(unit, capacity - live day total)`. The live day total is recomputed from
the result table at every attempt and is shared by all products. A day already
at capacity is skipped. Placing a demand stops as soon as what is left of it is
no longer positive. Whatever is still left when the window runs out is dropped.
The program then shows a per-day table with each day's total and the capacity
still free.

The model has:

- `Allocation` (allocation.dfy): the allocation as a specification on values.
  It has `Place` (the window walk for one demand), `AllocDay` (one demand
  cell), `AllocDays` (one row, day by day), `AllocRows` and `Allocate` (all
  rows, from the all-zero table). Capacity and window are parameters. The
  program's values are the constants `Capacity` (3300) and `Window` (4).
- `Engine` (engine.dfy): the loop as the program runs it. The result is a fresh
  `array2<int>` made of zeros. Three nested loops update it cell by cell.
  `ColumnTotal` recomputes a day's total row by row, as the program does. Each
  method is proved equal to the specification.
- `Placement` (placement.dfy) and `Properties` (properties.dfy): what one
  demand does, and what holds after the whole pass.
- `DailyDetail` (daily_detail.dfy): the per-day total and free-capacity table,
  and the check that reports days above capacity.
- `Scenarios` (scenarios.dfy): worked examples.
- `Grid` and `Optional` (grid.dfy): tables, column and row sums, missing values.

Quantities and units are integers. A missing demand cell and a missing unit are
`None`.

A chunk is limited by the unit and by the capacity still free on its day, but
not by what is left of the demand. The chunk at app.py:39 is
`min(unit, capacity - live day total)`. So a demand of 12 on day 3, with unit 5
and capacity 10, ends as `[0, 5, 5, 5]`: 15 is placed for a demand of 12. The
model follows the code. `Scenarios.DemandOnLastDay` proves this outcome, and
`Placement.PlaceOvershoot` bounds the excess by `unit - 1`.

The program never checks the sign of a unit, and neither does the model. A unit
of 0 is kept as given, so every chunk is then 0. Properties that fail for a
negative unit take a non-negative unit as a hypothesis. The capacity
bound holds for any unit.

## Model

| member | source | states |
|---|---|---|
| `Engine.AllocatePlan` | app.py:23-44 | The result is a fresh table of the demand table's shape. It equals `Allocation.Allocate` of the demands, units, capacity and window. Every day's total is within capacity. |
| `Engine.PlaceDemand` | app.py:34-44 | The window loop for one demand leaves the table equal to `Allocation.Place` from attempt 0, applied to the table before the loop. It stops once `value <= 0` and discards any leftover. |
| `Engine.ColumnTotal` | app.py:36 | The value returned is the live total of day `t` over all rows of the current table. |
| `Engine.DeployedPlan` | app.py:23-44 | The pass with the program's fixed capacity 3300 and window 4 returns a fresh table of the demand table's shape. It equals `Allocation.Allocate` at those values, and no day's total is above 3300. |
| `Allocation.UnitOf` | app.py:26 | A row's unit is its given value, or 1 when it is missing. |
| `Allocation.DemandOf` | app.py:29-32 | A demand cell's value is its given value, or 0 when it is missing. |
| `Allocation.HasDemand` | app.py:29-32 | A cell triggers placement exactly when it is present and not 0. |
| `Allocation.Place` | app.py:34-44 | The window walk for one demand, from attempt `i` to `k`. Its contract keeps the table's shape: as many rows, each with every day. What it places is stated by the `Placement` lemmas below. |
| `Allocation.AllocDay` | app.py:29-44 | One demand cell: a missing or 0 cell is skipped, otherwise the walk runs from attempt 0. Its contract keeps the table's shape. What it places is stated by `Properties.DemandEffect`. |
| `Allocation.AllocDays` | app.py:28-44 | A row's demand cells, processed in ascending day order. Its contract keeps the table's shape. What it places is stated by the `Properties.AllocDays*` lemmas. |
| `Allocation.AllocRows` | app.py:23-44 | The first `n` rows, in index order, from the all-zero table. Its contract gives the demand table's shape. What it places is stated by the `Properties.AllocRows*` lemmas. |
| `Allocation.Allocate` | app.py:23-44 | The whole pass over all rows. Its contract gives the demand table's shape. What it places is stated by `Properties.WithinCapacity`, `Properties.Support` and the other whole-pass lemmas. |
| `Allocation.Span` | app.py:34 | The number of days tried for a demand on day `d` is the smaller of the window and `d + 1`: it never reaches before day 0. |
| `Grid.Zeros` | app.py:23 | The initial result table has the demand table's shape and holds 0 in every cell. |
| `Placement.PlaceFrame` | app.py:34-40 | Only cells of the demand's own row change, and only on the days the walk still has to try, from `d - i` down to `d - k + 1`. The totals of all other days do not change. |
| `Placement.PlaceWithinCapacity` | app.py:36-40 | A day whose total is within capacity before the walk is still within capacity after it. |
| `Placement.PlaceIncrements` | app.py:38-40 | With a non-negative unit, no cell decreases and no cell gains more than one unit. |
| `Placement.PlaceSkipsFullDays` | app.py:36-38 | A day whose total has already reached capacity is skipped: the demand's cell on that day is not written. |
| `Placement.PlaceFirstDay` | app.py:34-40 | The first attempt on a day below capacity adds exactly `min(unit, capacity - total)` to the demand's cell there. With a positive unit, this add is positive. |
| `Placement.PlaceChunks` | app.py:34-40 | On every day of the walk, the demand's cell is either unchanged or grows by exactly one chunk, `min(unit, capacity - total)`. Here `total` is that day's total when the walk starts, and it is below capacity. |
| `Placement.PlaceExhausts` | app.py:34-44 | Leftover is dropped only once the window is used up. Either the row gained at least the value, or every day of the walk ended full or received a whole unit. |
| `Placement.PlaceAmount` | app.py:34-41 | With a non-negative unit, the row gains between 0 and `(k - i) * unit`, i.e. at most one unit per attempt left. |
| `Placement.PlaceOvershoot` | app.py:39-44 | With a non-negative unit and a positive value, the row gains at most `value + unit - 1`. Placement stops once the value is used up, so only the last chunk can overshoot. |
| `Placement.PlaceSpillOrder` | app.py:34-40 | Days are tried latest first. If a day `t` is written, every later day `t'` of the window either ended full or received a whole unit. |
| `Placement.PlaceStopsOncePlaced` | app.py:41-44 | A day `t` is written only while the amount already placed on the later days of the window is still less than the value. |
| `Properties.DemandEffect` | app.py:29-44 | For one demand cell: a missing or 0 cell changes nothing, and other rows never change. Only days `d - window + 1 .. d` of the row (not before day 0) can change. Days within capacity stay within it. With a non-negative unit, each cell grows by 0 to `unit`, the row gains at most `Span(window, d) * unit`, and a positive demand gains the row at most `demand + unit - 1`. A tried day receives no chunk or exactly `min(unit, capacity - total)`. Day `d` itself, when below capacity, receives its chunk. Leftover is dropped only once every day of the window ended full or received a whole unit. |
| `Properties.AllocDaysOtherRows` | app.py:28-44 | Processing the days of row `r` leaves every other row unchanged. |
| `Properties.AllocDaysSupport` | app.py:28-40 | A cell `(r, t)` changes only if row `r` has a non-empty demand on some day `t .. t + window - 1` among the days processed. |
| `Properties.AllocDaysWithinCapacity` | app.py:28-40 | Processing a row's days keeps every day within capacity. |
| `Properties.AllocDaysGrows` | app.py:28-40 | With a non-negative unit, processing a row's days never decreases any cell. |
| `Properties.AllocRowsPending` | app.py:23-25 | Rows not yet processed are still all zero. |
| `Properties.AllocRowsFinished` | app.py:25-44 | Once a row has been processed, it is never written again. |
| `Properties.AllocRowsWithinCapacity` | app.py:23-40 | After any number of rows, every day's total is within a non-negative capacity. |
| `Properties.AllocRowsNonNegative` | app.py:23-40 | With non-negative units, after any number of rows every cell is at least 0. |
| `Properties.AllocRowsSupport` | app.py:25-40 | After any number of rows, cell `(a, t)` is non-zero only if row `a` has a non-empty demand on one of the days `t .. t + window - 1`. |
| `Properties.WithinCapacity` | app.py:36-40 | After the pass, no day's total over all rows exceeds capacity. |
| `Properties.NonNegative` | app.py:23-40 | With non-negative units, every cell of the result is at least 0. |
| `Properties.Support` | app.py:28-40 | Window locality of the result: cell `(a, t)` is non-zero only if row `a` has a non-empty demand on one of the days `t .. t + window - 1`. |
| `Properties.NoDemandNoAllocation` | app.py:31-32 | A row whose demand cells are all missing or 0 stays all zero. |
| `Properties.RowFixedAfterItsPass` | app.py:25-40 | A row's final allocation equals its value right after its own pass. Later rows cannot take back what it got. |
| `Properties.UnitsCongruence` | app.py:26 | The pass reads a unit only through its default-to-1 value. Two unit vectors that agree on that value give the same table. |
| `Properties.MissingUnitIsOne` | app.py:26 | A missing unit gives exactly the same allocation as a unit of 1. |
| `Properties.DemandRowCongruence` | app.py:29-32 | A row's pass reads a demand cell only through its value, with missing counted as 0. |
| `Properties.DemandCongruence` | app.py:29-32 | The whole pass reads demand cells only through their value, with missing counted as 0. |
| `Properties.MissingDemandIsZero` | app.py:31-32 | A missing demand cell gives exactly the same allocation as a cell holding 0. |
| `DailyDetail.Detail` | app.py:142-147 | One line per day of the result table. Each line shows its day and that day's total, and its free capacity plus the total equals the capacity. |
| `DailyDetail.OverCapacityDays` | app.py:121 | Every reported day has a total above capacity, and every day with a total above capacity is reported. The report is no longer than the table. |
| `DailyDetail.FreeCapacityNonNegative` | app.py:142-147 | For the pass's result, every line of the daily table shows its day. Its free capacity `capacity - total` is never negative, and free capacity plus total equals the capacity. |
| `DailyDetail.NoneOverCapacityIff` | app.py:121-125 | No day is reported over capacity if and only if every day's total is within capacity. |
| `DailyDetail.NoDayReportedOverCapacity` | app.py:121-125 | For the pass's result, the over-capacity report is empty, so the warning branch never fires. |
| `Scenarios.DemandOnFirstDay` | app.py:34-44 | Demand 12 on day 0 with unit 5 and capacity 10 ends as `[5, 0, 0, 0]`: one chunk is placed and 7 is dropped. |
| `Scenarios.DemandOnLastDay` | app.py:34-44 | Demand 12 on day 3 with unit 5 and capacity 10 ends as `[0, 5, 5, 5]`: 15 is placed for a demand of 12. |
| `Scenarios.RowOrderDecides` | app.py:25-40 | Two rows with demand 8 on day 1 and unit 8: the first row takes 8 of day 1. The second row gets the remaining 2 and spills 8 onto day 0. |

## Left out

- Spreadsheet reading, the row filter on product names, and the column slice (app.py:16-22). The model takes the filtered demand table and the unit column as its inputs. The input table is a value the model never writes, just as the program never writes `numbers`.
- The web page, the charts and the display statistics (app.py:7-14, 46-136, 188-208): these are user interface and floating-point presentation.
- The utilisation percentage column of the daily table (app.py:145): it is a floating-point ratio rounded to one decimal.
- `DailyDetail.OverCapacityDays`: the program flags a day when its rounded utilisation percentage is above 100 (app.py:106, 121). The model flags a day when its total is above capacity. Rounding can only hide a small excess, never create one, so an empty report in the model means an empty report in the program.
- Excel and CSV export (app.py:153-186): I/O.
- Floating-point quantities and units: all quantities are integers. Non-numeric cells are not modelled; a cell is either missing or an integer.
- `Properties.NonNegative`, `Properties.AllocDaysGrows`, `Placement.PlaceIncrements`, `Placement.PlaceAmount`, `Placement.PlaceOvershoot`: these hold only for a non-negative unit, which the program never checks. With a negative unit, a chunk is negative, and these facts fail.
