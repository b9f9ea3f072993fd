/** The constraint checker, the fitness and the per-employee statistics of the
    scheduling service (api/app/services/genetic_algorithm.py:30-57, 150-166). */
module Checker {
  import opened Constants
  import opened Config
  import opened ScheduleModel

  /** A detected constraint breach. The original reports each as a message naming
      the employee or the day and shift; here it is tagged by kind. */
  datatype Violation =
    | Overworked(employee: nat)            // more shifts than the weekly maximum
    | UnderRested(employee: nat)           // fewer days off than required
    | UnderCovered(day: nat, shift: nat)   // fewer workers on a slot than required

  /** What the two per-employee kinds of violation mean; a coverage violation is
      not one of them. */
  predicate EmployeeBreach(svc: Service, s: Schedule, v: Violation)
    requires |s| == |svc.employees|
  {
    match v
    case Overworked(e) => e < |svc.employees| && RowTotal(s[e]) > svc.maxWeeklyLoad
    case UnderRested(e) => e < |svc.employees| && RestDays(s[e]) < svc.requiredRestDays
    case UnderCovered(_, _) => false
  }

  /** What each kind of violation means for a dense schedule. */
  predicate IsViolation(svc: Service, s: Schedule, v: Violation)
    requires Dense(s, |svc.employees|)
  {
    if v.UnderCovered? then v.day < NUM_DAYS && v.shift < NUM_SHIFTS && Coverage(s, v.day, v.shift) < svc.minCoverage
    else EmployeeBreach(svc, s, v)
  }

  /** Position of a violation in the report of a schedule with n employees: the two
      checks of each employee in employee order, then the slots day by day, shift
      by shift. A day spans NUM_SHIFTS = 3 positions; the stride is written as a
      literal so that keys stay linear in the day. */
  function Key(n: nat, v: Violation): nat {
    match v
    case Overworked(e) => 2 * e
    case UnderRested(e) => 2 * e + 1
    case UnderCovered(d, t) => 2 * n + 3 * d + t
  }

  /** The report lists violations in report order, each once. */
  predicate StrictlyOrdered(n: nat, vs: seq<Violation>) {
    forall a, b :: 0 <= a < b < |vs| ==> Key(n, vs[a]) < Key(n, vs[b])
  }

  /** The schedule breaks no constraint. */
  predicate Feasible(svc: Service, s: Schedule)
    requires Dense(s, |svc.employees|)
  {
    && (forall i :: 0 <= i < |svc.employees| ==>
          RowTotal(s[i]) <= svc.maxWeeklyLoad && RestDays(s[i]) >= svc.requiredRestDays)
    && (forall d, t :: 0 <= d < NUM_DAYS && 0 <= t < NUM_SHIFTS ==> Coverage(s, d, t) >= svc.minCoverage)
  }

  /** Every key of vs lies in [lo, hi). */
  predicate KeysIn(n: nat, vs: seq<Violation>, lo: nat, hi: nat) {
    forall j :: 0 <= j < |vs| ==> lo <= Key(n, vs[j]) < hi
  }

  /** The report is in report order with every key in [lo, hi). */
  predicate OrderedIn(n: nat, vs: seq<Violation>, lo: nat, hi: nat) {
    StrictlyOrdered(n, vs) && KeysIn(n, vs, lo, hi)
  }

  /** Two ordered reports whose key ranges follow each other concatenate to an
      ordered report. */
  lemma ConcatOrdered(n: nat, a: seq<Violation>, b: seq<Violation>, lo: nat, mid: nat, hi: nat, top: nat)
    requires OrderedIn(n, a, lo, mid)
    requires OrderedIn(n, b, mid, hi)
    requires lo <= mid <= hi <= top
    ensures OrderedIn(n, a + b, lo, top)
  {
    var ab := a + b;
    forall j | 0 <= j < |ab| ensures lo <= Key(n, ab[j]) < top {
      if j < |a| { assert ab[j] == a[j]; } else { assert ab[j] == b[j - |a|]; }
    }
    forall x, y | 0 <= x < y < |ab| ensures Key(n, ab[x]) < Key(n, ab[y]) {
      if y < |a| {
        assert ab[x] == a[x] && ab[y] == a[y];
      } else if x >= |a| {
        assert ab[x] == b[x - |a|] && ab[y] == b[y - |a|];
      } else {
        assert ab[x] == a[x] && ab[y] == b[y - |a|];
      }
    }
  }

  /** The two checks of employee i, in the order the loop appends them. */
  function EmployeeChecks(svc: Service, s: Schedule, i: nat): (r: seq<Violation>)
    requires |s| == |svc.employees| && i < |svc.employees|
    ensures |r| <= 2
  {
    (if RowTotal(s[i]) > svc.maxWeeklyLoad then [Overworked(i)] else [])
      + (if RestDays(s[i]) < svc.requiredRestDays then [UnderRested(i)] else [])
  }

  /** A violation is among the checks of employee i exactly when it is a breach
      by employee i. */
  lemma EmployeeChecksHas(svc: Service, s: Schedule, i: nat, v: Violation)
    requires |s| == |svc.employees| && i < |svc.employees|
    ensures v in EmployeeChecks(svc, s, i) <==> EmployeeBreach(svc, s, v) && v.employee == i
  {
  }

  /** The checks of employee i come overwork first, between the keys of employee i. */
  lemma EmployeeChecksOrdered(svc: Service, s: Schedule, i: nat)
    requires |s| == |svc.employees| && i < |svc.employees|
    ensures var r := EmployeeChecks(svc, s, i);
            OrderedIn(|svc.employees|, r, 2 * i, 2 * i + 2)
  {
  }

  /** The per-employee checks of the first k employees, in employee order. */
  function EmployeeViolations(svc: Service, s: Schedule, k: nat): (r: seq<Violation>)
    requires |s| == |svc.employees| && k <= |svc.employees|
    ensures |r| <= 2 * k
  {
    if k == 0 then [] else EmployeeViolations(svc, s, k - 1) + EmployeeChecks(svc, s, k - 1)
  }

  /** A violation is in the per-employee part of the report of the first k
      employees exactly when it is a breach by one of them. */
  lemma {:induction false} EmployeeViolationsHas(svc: Service, s: Schedule, k: nat, v: Violation)
    requires |s| == |svc.employees| && k <= |svc.employees|
    ensures v in EmployeeViolations(svc, s, k) <==> EmployeeBreach(svc, s, v) && v.employee < k
  {
    if k > 0 {
      var prev, last := EmployeeViolations(svc, s, k - 1), EmployeeChecks(svc, s, k - 1);
      EmployeeViolationsHas(svc, s, k - 1, v);
      EmployeeChecksHas(svc, s, k - 1, v);
      assert v in prev + last <==> v in prev || v in last;
    }
  }

  /** The per-employee part of the report is in employee order. */
  lemma {:induction false} EmployeeViolationsOrdered(svc: Service, s: Schedule, k: nat)
    requires |s| == |svc.employees| && k <= |svc.employees|
    ensures var r := EmployeeViolations(svc, s, k);
            OrderedIn(|svc.employees|, r, 0, 2 * k)
  {
    if k > 0 {
      var prev, last := EmployeeViolations(svc, s, k - 1), EmployeeChecks(svc, s, k - 1);
      EmployeeViolationsOrdered(svc, s, k - 1);
      EmployeeChecksOrdered(svc, s, k - 1);
      ConcatOrdered(|svc.employees|, prev, last, 0, 2 * (k - 1), 2 * (k - 1) + 2, 2 * k);
    }
  }

  /** The coverage check of shift t of day d. */
  function SlotCheck(svc: Service, s: Schedule, d: nat, t: nat): (r: seq<Violation>)
    requires Dense(s, |svc.employees|) && d < NUM_DAYS && t < NUM_SHIFTS
    ensures |r| <= 1
  {
    if Coverage(s, d, t) < svc.minCoverage then [UnderCovered(d, t)] else []
  }

  /** The coverage check of shift t of day d sits at that slot's key. */
  lemma SlotCheckOrdered(svc: Service, s: Schedule, d: nat, t: nat)
    requires Dense(s, |svc.employees|) && d < NUM_DAYS && t < NUM_SHIFTS
    ensures var base := 2 * |svc.employees| + 3 * d;
            var r := SlotCheck(svc, s, d, t);
            OrderedIn(|svc.employees|, r, base + t, base + t + 1)
  {
  }

  /** The coverage checks of the first k shifts of day d. */
  function SlotViolations(svc: Service, s: Schedule, d: nat, k: nat): (r: seq<Violation>)
    requires Dense(s, |svc.employees|) && d < NUM_DAYS && k <= NUM_SHIFTS
    ensures |r| <= k
  {
    if k == 0 then [] else SlotViolations(svc, s, d, k - 1) + SlotCheck(svc, s, d, k - 1)
  }

  /** A violation is in the coverage part of day d, as far as shift k, exactly
      when it is an under-covered shift of that day before k. */
  lemma {:induction false} SlotViolationsHas(svc: Service, s: Schedule, d: nat, k: nat, v: Violation)
    requires Dense(s, |svc.employees|) && d < NUM_DAYS && k <= NUM_SHIFTS
    ensures v in SlotViolations(svc, s, d, k) <==> IsViolation(svc, s, v) && v.UnderCovered? && v.day == d && v.shift < k
  {
    if k > 0 {
      var prev, last := SlotViolations(svc, s, d, k - 1), SlotCheck(svc, s, d, k - 1);
      SlotViolationsHas(svc, s, d, k - 1, v);
      assert v in prev + last <==> v in prev || v in last;
    }
  }

  /** The coverage part of day d is in shift order, between the keys of day d. */
  lemma {:induction false} SlotViolationsOrdered(svc: Service, s: Schedule, d: nat, k: nat)
    requires Dense(s, |svc.employees|) && d < NUM_DAYS && k <= NUM_SHIFTS
    ensures var base := 2 * |svc.employees| + 3 * d;
            var r := SlotViolations(svc, s, d, k);
            OrderedIn(|svc.employees|, r, base, base + k)
  {
    if k > 0 {
      var base := 2 * |svc.employees| + 3 * d;
      var prev, last := SlotViolations(svc, s, d, k - 1), SlotCheck(svc, s, d, k - 1);
      SlotViolationsOrdered(svc, s, d, k - 1);
      SlotCheckOrdered(svc, s, d, k - 1);
      ConcatOrdered(|svc.employees|, prev, last, base, base + (k - 1), base + (k - 1) + 1, base + k);
    }
  }

  /** The report as far as the coverage checks of the first d days: every
      employee check, then the slots of days 0 .. d - 1. */
  function ReportUpTo(svc: Service, s: Schedule, d: nat): (r: seq<Violation>)
    requires Dense(s, |svc.employees|) && d <= NUM_DAYS
    ensures |r| <= 2 * |svc.employees| + 3 * d
  {
    if d == 0 then EmployeeViolations(svc, s, |svc.employees|)
    else ReportUpTo(svc, s, d - 1) + SlotViolations(svc, s, d - 1, NUM_SHIFTS)
  }

  /** A violation is in the report as far as day d exactly when it is a breach
      by an employee or an under-covered slot of a day before d. */
  lemma {:induction false} ReportUpToHas(svc: Service, s: Schedule, d: nat, v: Violation)
    requires Dense(s, |svc.employees|) && d <= NUM_DAYS
    ensures v in ReportUpTo(svc, s, d) <==> IsViolation(svc, s, v) && (v.UnderCovered? ==> v.day < d)
  {
    if d == 0 {
      EmployeeViolationsHas(svc, s, |svc.employees|, v);
    } else {
      var prev, last := ReportUpTo(svc, s, d - 1), SlotViolations(svc, s, d - 1, NUM_SHIFTS);
      ReportUpToHas(svc, s, d - 1, v);
      SlotViolationsHas(svc, s, d - 1, NUM_SHIFTS, v);
      assert IsViolation(svc, s, v) && v.UnderCovered? ==> v.shift < NUM_SHIFTS;
      assert v in prev + last <==> v in prev || v in last;
    }
  }

  /** The report as far as day d is in report order. */
  lemma {:induction false} ReportUpToOrdered(svc: Service, s: Schedule, d: nat)
    requires Dense(s, |svc.employees|) && d <= NUM_DAYS
    ensures var r := ReportUpTo(svc, s, d);
            OrderedIn(|svc.employees|, r, 0, 2 * |svc.employees| + 3 * d)
  {
    var n := |svc.employees|;
    if d == 0 {
      EmployeeViolationsOrdered(svc, s, n);
    } else {
      var prev, last := ReportUpTo(svc, s, d - 1), SlotViolations(svc, s, d - 1, NUM_SHIFTS);
      ReportUpToOrdered(svc, s, d - 1);
      SlotViolationsOrdered(svc, s, d - 1, NUM_SHIFTS);
      var base := 2 * n + 3 * (d - 1);
      ConcatOrdered(n, prev, last, 0, base, base + 3, 2 * n + 3 * d);
    }
  }

  /** checar_restricoes: the employees' checks in employee order, then the slots
      day-major, shift-minor. */
  function CheckConstraints(svc: Service, s: Schedule): (r: seq<Violation>)
    requires Dense(s, |svc.employees|)
    ensures |r| <= 2 * |svc.employees| + NUM_DAYS * NUM_SHIFTS
  {
    ReportUpTo(svc, s, NUM_DAYS)
  }

  /** The report lists every violation of the schedule and nothing else, each
      once, in report order. */
  lemma CheckConstraintsSpec(svc: Service, s: Schedule)
    requires Dense(s, |svc.employees|)
    ensures forall v :: v in CheckConstraints(svc, s) <==> IsViolation(svc, s, v)
    ensures StrictlyOrdered(|svc.employees|, CheckConstraints(svc, s))
  {
    forall v ensures v in CheckConstraints(svc, s) <==> IsViolation(svc, s, v) {
      ReportUpToHas(svc, s, NUM_DAYS, v);
    }
    ReportUpToOrdered(svc, s, NUM_DAYS);
  }

  /** avaliar_individuo: the number of violations. */
  function Fitness(svc: Service, s: Schedule): (f: nat)
    requires Dense(s, |svc.employees|)
    ensures f <= 2 * |svc.employees| + NUM_DAYS * NUM_SHIFTS
  {
    |CheckConstraints(svc, s)|
  }

  /** A schedule has fitness 0 exactly when it breaks no constraint. */
  lemma FitnessZeroIffFeasible(svc: Service, s: Schedule)
    requires Dense(s, |svc.employees|)
    ensures Fitness(svc, s) == 0 <==> Feasible(svc, s)
  {
    var r := CheckConstraints(svc, s);
    CheckConstraintsSpec(svc, s);
    if r == [] {
      EmptyReportFeasible(svc, s, r);
    } else {
      var v := r[0];
      assert v in r;
      assert IsViolation(svc, s, v);
    }
  }

  /** A report without violations means every constraint holds. */
  lemma EmptyReportFeasible(svc: Service, s: Schedule, r: seq<Violation>)
    requires Dense(s, |svc.employees|)
    requires forall v :: v in r <==> IsViolation(svc, s, v)
    requires r == []
    ensures Feasible(svc, s)
  {
    forall i | 0 <= i < |svc.employees|
      ensures RowTotal(s[i]) <= svc.maxWeeklyLoad && RestDays(s[i]) >= svc.requiredRestDays
    {
      assert !IsViolation(svc, s, Overworked(i));
      assert !IsViolation(svc, s, UnderRested(i));
    }
    forall d, t | 0 <= d < NUM_DAYS && 0 <= t < NUM_SHIFTS
      ensures Coverage(s, d, t) >= svc.minCoverage
    {
      assert !IsViolation(svc, s, UnderCovered(d, t));
    }
  }

  /** The statistics the service reports for one employee (the load percentage,
      a floating-point value, is not modelled). */
  datatype EmployeeStats = EmployeeStats(shiftsWorked: int, restDays: nat)

  /** Among the first k employees, none after i has i's name. */
  predicate LastWithName(employees: seq<Employee>, i: nat, k: nat)
    requires i < k <= |employees|
  {
    forall j :: i < j < k ==> employees[j].name != employees[i].name
  }

  /** The statistics of the first k employees, keyed by name; a later employee
      overwrites an earlier one of the same name. */
  function StatisticsUpTo(svc: Service, s: Schedule, k: nat): (m: map<string, EmployeeStats>)
    requires |s| == |svc.employees| && k <= |svc.employees|
    ensures m.Keys == set i | 0 <= i < k :: svc.employees[i].name
    ensures forall i :: 0 <= i < k && LastWithName(svc.employees, i, k) ==>
              svc.employees[i].name in m &&
              m[svc.employees[i].name] == EmployeeStats(RowTotal(s[i]), RestDays(s[i]))
  {
    if k == 0 then map[]
    else
      var i := k - 1;
      var prev := StatisticsUpTo(svc, s, i);
      var m := prev[svc.employees[i].name := EmployeeStats(RowTotal(s[i]), RestDays(s[i]))];
      NamesOfPrefix(svc.employees, k);
      StatisticsStep(svc, s, k, prev, m);
      m
  }

  /** Overwriting the entry of employee k - 1 keeps the entries of the employees
      before it that are the last of their name. */
  lemma StatisticsStep(svc: Service, s: Schedule, k: nat, prev: map<string, EmployeeStats>, m: map<string, EmployeeStats>)
    requires |s| == |svc.employees| && 0 < k <= |svc.employees|
    requires forall j :: 0 <= j < k - 1 && LastWithName(svc.employees, j, k - 1) ==>
               svc.employees[j].name in prev &&
               prev[svc.employees[j].name] == EmployeeStats(RowTotal(s[j]), RestDays(s[j]))
    requires m == prev[svc.employees[k - 1].name := EmployeeStats(RowTotal(s[k - 1]), RestDays(s[k - 1]))]
    ensures forall j :: 0 <= j < k && LastWithName(svc.employees, j, k) ==>
              svc.employees[j].name in m &&
              m[svc.employees[j].name] == EmployeeStats(RowTotal(s[j]), RestDays(s[j]))
  {
    forall j | 0 <= j < k && LastWithName(svc.employees, j, k)
      ensures svc.employees[j].name in m
      ensures m[svc.employees[j].name] == EmployeeStats(RowTotal(s[j]), RestDays(s[j]))
    {
      if j < k - 1 {
        assert svc.employees[k - 1].name != svc.employees[j].name;
        assert LastWithName(svc.employees, j, k - 1);
      }
    }
  }

  /** The names of the first k employees are those of the first k - 1 and one more. */
  lemma NamesOfPrefix(employees: seq<Employee>, k: nat)
    requires 0 < k <= |employees|
    ensures (set j | 0 <= j < k :: employees[j].name)
         == (set j | 0 <= j < k - 1 :: employees[j].name) + {employees[k - 1].name}
  {
    var a := set j | 0 <= j < k :: employees[j].name;
    var b := (set j | 0 <= j < k - 1 :: employees[j].name) + {employees[k - 1].name};
    forall x | x in a ensures x in b {
      var j :| 0 <= j < k && employees[j].name == x;
    }
    forall x | x in b ensures x in a {
      if x != employees[k - 1].name {
        var j :| 0 <= j < k - 1 && employees[j].name == x;
      }
    }
  }

  /** calcular_estatisticas: for every employee name, the shifts worked and days off
      of the last employee carrying that name. */
  function Statistics(svc: Service, s: Schedule): (m: map<string, EmployeeStats>)
    requires Dense(s, |svc.employees|)
    ensures m.Keys == set i | 0 <= i < |svc.employees| :: svc.employees[i].name
    ensures forall i :: 0 <= i < |svc.employees| && LastWithName(svc.employees, i, |svc.employees|) ==>
              m[svc.employees[i].name] == EmployeeStats(RowTotal(s[i]), RestDays(s[i]))
  {
    StatisticsUpTo(svc, s, |svc.employees|)
  }
}
