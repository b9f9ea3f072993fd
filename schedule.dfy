/** The schedule matrix: for every employee, day and shift, 1 when the employee
    works that shift and 0 otherwise. The original keys a nested dictionary by
    employee id, day name and shift name (api/app/services/genetic_algorithm.py:61);
    here employees are addressed by their position in the employee list and days
    and shifts by their position in DAYS and SHIFTS. */
module ScheduleModel {
  import opened Constants

  /** One employee's week: day -> shift -> cell. */
  type Row = seq<seq<int>>

  /** Employee slot -> week. */
  type Schedule = seq<Row>

  /** A (day, shift) position inside a week. */
  datatype Cell = Cell(day: nat, shift: nat)

  predicate ValidCell(c: Cell) {
    c.day < NUM_DAYS && c.shift < NUM_SHIFTS
  }

  /** Every day and shift key is present. */
  predicate DenseRow(row: Row) {
    |row| == NUM_DAYS && forall d :: 0 <= d < |row| ==> |row[d]| == NUM_SHIFTS
  }

  /** One dense row per employee. */
  predicate Dense(s: Schedule, n: nat) {
    |s| == n && forall i :: 0 <= i < n ==> DenseRow(s[i])
  }

  predicate BinaryRow(row: Row) {
    forall d, t :: 0 <= d < |row| && 0 <= t < |row[d]| ==> row[d][t] == 0 || row[d][t] == 1
  }

  /** Every cell holds 0 or 1. */
  predicate Binary(s: Schedule) {
    forall i :: 0 <= i < |s| ==> BinaryRow(s[i])
  }

  /** The week with no shift worked. */
  const ZERO_ROW: Row := seq(NUM_DAYS, _ => seq(NUM_SHIFTS, _ => 0))

  function Sum(xs: seq<int>): int {
    if xs == [] then 0 else Sum(xs[..|xs| - 1]) + xs[|xs| - 1]
  }

  /** Shifts worked in a week: the sum of all its cells. */
  function RowTotal(row: Row): int {
    if row == [] then 0 else RowTotal(row[..|row| - 1]) + Sum(row[|row| - 1])
  }

  /** A day is off when all of its shifts are 0. */
  predicate DayOff(day: seq<int>) {
    forall t :: 0 <= t < |day| ==> day[t] == 0
  }

  /** Number of days off in a week. */
  function RestDays(row: Row): nat {
    if row == [] then 0 else RestDays(row[..|row| - 1]) + (if DayOff(row[|row| - 1]) then 1 else 0)
  }

  /** Number of employees working shift t of day d. */
  function Coverage(s: Schedule, d: nat, t: nat): int
    requires forall i :: 0 <= i < |s| ==> d < |s[i]| && t < |s[i][d]|
  {
    if s == [] then 0 else Coverage(s[..|s| - 1], d, t) + s[|s| - 1][d][t]
  }

  /** Changing one entry changes the sum by the difference. */
  lemma {:induction false} SumUpdate(xs: seq<int>, k: nat, v: int)
    requires k < |xs|
    ensures Sum(xs[k := v]) == Sum(xs) - xs[k] + v
  {
    var ys := xs[k := v];
    var m := |xs| - 1;
    if k < m {
      assert ys[..m] == xs[..m][k := v];
      SumUpdate(xs[..m], k, v);
    } else {
      assert ys[..m] == xs[..m];
    }
  }

  /** Changing one cell changes the week's total by the difference. */
  lemma {:induction false} RowTotalUpdate(row: Row, d: nat, t: nat, v: int)
    requires d < |row| && t < |row[d]|
    ensures RowTotal(row[d := row[d][t := v]]) == RowTotal(row) - row[d][t] + v
  {
    var r2 := row[d := row[d][t := v]];
    var m := |row| - 1;
    if d < m {
      assert r2[..m] == row[..m][d := row[d][t := v]];
      RowTotalUpdate(row[..m], d, t, v);
    } else {
      assert r2[..m] == row[..m];
      SumUpdate(row[d], t, v);
    }
  }

  /** A binary day is off exactly when its sum is 0, and its sum is at most its length. */
  lemma {:induction false} BinaryDaySum(day: seq<int>)
    requires forall t :: 0 <= t < |day| ==> day[t] == 0 || day[t] == 1
    ensures 0 <= Sum(day) <= |day|
    ensures DayOff(day) <==> Sum(day) == 0
  {
    if day != [] {
      var m := |day| - 1;
      BinaryDaySum(day[..m]);
      assert DayOff(day) <==> DayOff(day[..m]) && day[m] == 0;
    }
  }

  /** In a binary week with at most one shift per day, every day is either worked
      once or off, so shifts worked and days off add up to the number of days. */
  lemma {:induction false} LoadPlusRest(row: Row)
    requires BinaryRow(row)
    requires forall d :: 0 <= d < |row| ==> Sum(row[d]) <= 1
    ensures RowTotal(row) + RestDays(row) == |row|
  {
    if row != [] {
      var m := |row| - 1;
      assert BinaryRow(row[..m]) by {
        forall d, t | 0 <= d < m && 0 <= t < |row[..m][d]|
          ensures row[..m][d][t] == 0 || row[..m][d][t] == 1
        {
          assert row[..m][d] == row[d];
        }
      }
      LoadPlusRest(row[..m]);
      BinaryDaySum(row[m]);
    }
  }

  /** A binary week has between 0 and NUM_SHIFTS = 3 shifts worked per day, and at
      most as many days off as days. */
  lemma {:induction false} RowBounds(row: Row)
    requires BinaryRow(row)
    requires forall d :: 0 <= d < |row| ==> |row[d]| == NUM_SHIFTS
    ensures 0 <= RowTotal(row) <= 3 * |row|
    ensures RestDays(row) <= |row|
  {
    if row != [] {
      var m := |row| - 1;
      assert BinaryRow(row[..m]) by {
        forall d, t | 0 <= d < m && 0 <= t < |row[..m][d]|
          ensures row[..m][d][t] == 0 || row[..m][d][t] == 1
        {
          assert row[..m][d] == row[d];
        }
      }
      RowBounds(row[..m]);
      BinaryDaySum(row[m]);
    }
  }

  /** A week whose days are all off has no shift worked and every day off. */
  lemma {:induction false} AllOffRow(row: Row)
    requires forall d :: 0 <= d < |row| ==> DayOff(row[d])
    ensures RowTotal(row) == 0 && RestDays(row) == |row|
  {
    if row != [] {
      var m := |row| - 1;
      AllOffRow(row[..m]);
      BinaryDaySum(row[m]);
    }
  }

  /** The empty week: dense, binary, no shift worked, every day off. */
  lemma ZeroRowFacts()
    ensures DenseRow(ZERO_ROW) && BinaryRow(ZERO_ROW)
    ensures RowTotal(ZERO_ROW) == 0 && RestDays(ZERO_ROW) == NUM_DAYS
  {
    AllOffRow(ZERO_ROW);
  }
}
