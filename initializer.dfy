/** The random initialiser gerar_individuo (api/app/services/genetic_algorithm.py:59-69).
    Its random choices are explicit arguments: for every employee, the days drawn by
    random.sample and the shift drawn by random.choice for each of those days. */
module Initializer {
  import opened Wrappers
  import opened Constants
  import opened Config
  import opened ScheduleModel
  import opened Checker

  /** random.sample raises when asked for more days than the week has, or a
      negative number of them. */
  datatype EngineError = SampleLargerThanPopulation

  /** One employee's draws: days[j] is the j-th sampled day, shifts[j] the shift
      drawn for it. */
  datatype EmployeeSample = EmployeeSample(days: seq<nat>, shifts: seq<nat>)

  /** What random.sample(DAYS, load) and random.choice(SHIFTS) can return: load
      distinct days and one shift for each. Nothing is asked of the draws when
      the sample cannot be taken. */
  predicate ValidSample(load: int, smp: EmployeeSample) {
    0 <= load <= NUM_DAYS ==>
      && |smp.days| == load && |smp.shifts| == load
      && (forall j :: 0 <= j < load ==> smp.days[j] < NUM_DAYS && smp.shifts[j] < NUM_SHIFTS)
      && (forall a, b :: 0 <= a < b < load ==> smp.days[a] != smp.days[b])
  }

  /** One valid sample per employee. */
  predicate ValidIndividualDraw(svc: Service, draw: seq<EmployeeSample>) {
    |draw| == |svc.employees| && forall i :: 0 <= i < |draw| ==> ValidSample(svc.maxWeeklyLoad, draw[i])
  }

  /** The initialiser raises: there is an employee to sample days for and the
      weekly load is not a possible sample size. */
  predicate SampleFails(svc: Service) {
    |svc.employees| > 0 && !(0 <= svc.maxWeeklyLoad <= NUM_DAYS)
  }

  /** Shift t of day d is among the first j draws. */
  predicate SampledBefore(smp: EmployeeSample, j: nat, d: nat, t: nat)
    requires j <= |smp.days| && j <= |smp.shifts|
  {
    exists k :: 0 <= k < j && smp.days[k] == d && smp.shifts[k] == t
  }

  /** The week of one employee after the first j draws have been written. */
  predicate PartialRow(row: Row, smp: EmployeeSample, j: nat)
    requires j <= |smp.days| && j <= |smp.shifts|
  {
    && DenseRow(row)
    && RowTotal(row) == j
    && (forall d, t :: 0 <= d < NUM_DAYS && 0 <= t < NUM_SHIFTS ==>
          row[d][t] == if SampledBefore(smp, j, d, t) then 1 else 0)
    && (forall d :: 0 <= d < NUM_DAYS ==> Sum(row[d]) <= 1)
  }

  /** Before any draw is written the week is empty. */
  lemma PartialRowStart(smp: EmployeeSample)
    ensures PartialRow(ZERO_ROW, smp, 0)
  {
    ZeroRowFacts();
    forall d | 0 <= d < NUM_DAYS ensures Sum(ZERO_ROW[d]) <= 1 {
      BinaryDaySum(ZERO_ROW[d]);
    }
  }

  /** Writing the j-th draw: its day was still off, so the week gains exactly one
      shift and that day now holds exactly one. */
  lemma {:induction false} PartialRowStep(row: Row, load: nat, smp: EmployeeSample, j: nat)
    requires ValidSample(load, smp) && load <= NUM_DAYS && j < load
    requires PartialRow(row, smp, j)
    ensures PartialRow(row[smp.days[j] := row[smp.days[j]][smp.shifts[j] := 1]], smp, j + 1)
  {
    var d, t := smp.days[j], smp.shifts[j];
    var row' := row[d := row[d][t := 1]];
    forall t' | 0 <= t' < NUM_SHIFTS ensures row[d][t'] == 0 {
      if SampledBefore(smp, j, d, t') {
        assert false;
      }
    }
    BinaryDaySum(row[d]);
    SumUpdate(row[d], t, 1);
    RowTotalUpdate(row, d, t, 1);
    forall d', t' | 0 <= d' < NUM_DAYS && 0 <= t' < NUM_SHIFTS
      ensures row'[d'][t'] == if SampledBefore(smp, j + 1, d', t') then 1 else 0
    {
      if d' == d && t' == t {
        assert smp.days[j] == d' && smp.shifts[j] == t';
      } else {
        assert SampledBefore(smp, j + 1, d', t') <==> SampledBefore(smp, j, d', t');
      }
    }
  }

  /** The schedule holds exactly the drawn shifts: for every employee, a cell is 1
      when its day and shift were drawn for that employee, and 0 otherwise. */
  predicate GeneratedFrom(svc: Service, draw: seq<EmployeeSample>, s: Schedule)
    requires ValidIndividualDraw(svc, draw) && !SampleFails(svc)
  {
    && Dense(s, |svc.employees|) && Binary(s)
    && forall i, d, t :: 0 <= i < |svc.employees| && 0 <= d < NUM_DAYS && 0 <= t < NUM_SHIFTS ==>
         (s[i][d][t] == 1 <==> SampledBefore(draw[i], |draw[i].days|, d, t))
  }

  /** gerar_individuo: starting from the empty schedule, marks for every employee
      the drawn shift of each drawn day. Fails when the weekly load cannot be
      sampled from the week's days. On success every employee works exactly the
      weekly load, on distinct days, at most one shift a day, and nothing else. */
  method GenerateIndividual(svc: Service, draw: seq<EmployeeSample>) returns (r: Result<Schedule, EngineError>)
    requires ValidIndividualDraw(svc, draw)
    ensures r.Failure? <==> SampleFails(svc)
    ensures r.Success? ==> Dense(r.value, |svc.employees|) && Binary(r.value)
    ensures r.Success? ==> forall i :: 0 <= i < |svc.employees| ==> RowTotal(r.value[i]) == svc.maxWeeklyLoad
    ensures r.Success? ==> forall i, d :: 0 <= i < |svc.employees| && 0 <= d < NUM_DAYS ==> Sum(r.value[i][d]) <= 1
    ensures r.Success? ==> GeneratedFrom(svc, draw, r.value)
  {
    var n := |svc.employees|;
    var schedule: Schedule := seq(n, _ => ZERO_ROW);
    for i := 0 to n
      invariant |schedule| == n
      invariant i > 0 ==> 0 <= svc.maxWeeklyLoad <= NUM_DAYS
      invariant forall k :: i <= k < n ==> schedule[k] == ZERO_ROW
      invariant forall k :: 0 <= k < i ==> PartialRow(schedule[k], draw[k], svc.maxWeeklyLoad)
    {
      if !(0 <= svc.maxWeeklyLoad <= NUM_DAYS) {
        return Failure(SampleLargerThanPopulation);
      }
      var load := svc.maxWeeklyLoad;
      var smp := draw[i];
      PartialRowStart(smp);
      ghost var before := schedule;
      for j := 0 to load
        invariant |schedule| == n
        invariant forall k :: 0 <= k < n && k != i ==> schedule[k] == before[k]
        invariant PartialRow(schedule[i], smp, j)
      {
        var d, t := smp.days[j], smp.shifts[j];
        PartialRowStep(schedule[i], load, smp, j);
        schedule := schedule[i := schedule[i][d := schedule[i][d][t := 1]]];
      }
    }
    r := Success(schedule);
    GeneratedFacts(svc, draw, schedule);
  }

  /** What the finished rows say about the whole schedule. */
  lemma GeneratedFacts(svc: Service, draw: seq<EmployeeSample>, s: Schedule)
    requires ValidIndividualDraw(svc, draw) && |s| == |svc.employees|
    requires |s| > 0 ==> 0 <= svc.maxWeeklyLoad <= NUM_DAYS
    requires forall k :: 0 <= k < |s| ==> PartialRow(s[k], draw[k], svc.maxWeeklyLoad)
    ensures Dense(s, |svc.employees|) && Binary(s)
  {
    forall i, d, t | 0 <= i < |s| && 0 <= d < |s[i]| && 0 <= t < |s[i][d]|
      ensures s[i][d][t] == 0 || s[i][d][t] == 1
    {
      assert PartialRow(s[i], draw[i], svc.maxWeeklyLoad);
    }
  }

  /** A generated individual never breaks the weekly load, rests exactly the
      days it does not work, and breaks the rest rule exactly when the load
      leaves fewer free days than required. */
  lemma GeneratedEmployeeChecks(svc: Service, s: Schedule)
    requires Dense(s, |svc.employees|) && Binary(s)
    requires forall i :: 0 <= i < |svc.employees| ==> RowTotal(s[i]) == svc.maxWeeklyLoad
    requires forall i, d :: 0 <= i < |svc.employees| && 0 <= d < NUM_DAYS ==> Sum(s[i][d]) <= 1
    ensures forall e :: 0 <= e < |svc.employees| ==> RestDays(s[e]) == NUM_DAYS - svc.maxWeeklyLoad
    ensures forall e :: 0 <= e < |svc.employees| ==> !IsViolation(svc, s, Overworked(e))
    ensures forall e :: 0 <= e < |svc.employees| ==>
              (IsViolation(svc, s, UnderRested(e)) <==> NUM_DAYS - svc.maxWeeklyLoad < svc.requiredRestDays)
  {
    forall e | 0 <= e < |svc.employees| ensures RestDays(s[e]) == NUM_DAYS - svc.maxWeeklyLoad {
      LoadPlusRest(s[e]);
    }
  }
}
