/** The two schedule endpoints (api/app/routers/escalas.py): /otimizar guards the
    request, runs the optimiser and assembles its result; /validar checks a given
    schedule against the default constraints and reports its violations and
    statistics. Both turn every exception raised inside them into status 500. */
module Router {
  import opened Wrappers
  import opened Constants
  import opened Config
  import opened ScheduleModel
  import opened Checker
  import opened Ranking
  import opened Initializer
  import opened Optimizer
  import opened Wire

  /** The refusals of /otimizar: the two it makes, and the one it evidently
      intended to make as well (a weekly load above the number of days). */
  datatype Refusal = NoEmployees | LoadAboveSlots | LoadAboveDays

  /** What went wrong inside an endpoint. */
  datatype Cause = Refused(refusal: Refusal) | EngineFailed(error: EngineError) | MissingKey

  /** The error response: a status code and what caused it. */
  datatype HttpError = HttpError(status: int, cause: Cause)

  /** The body of a successful /otimizar response; the elapsed time is not modelled. */
  datatype OptimizationResult = OptimizationResult(
    schedule: WireSchedule,
    violations: nat,
    trace: seq<nat>,
    params: Params)

  /** The body of a successful /validar response. */
  datatype ValidationResult = ValidationResult(
    valid: bool,
    count: nat,
    violations: seq<Violation>,
    stats: map<string, EmployeeStats>)

  /** The request guards of /otimizar, in the order they are tested. */
  function Guard(cfg: ScheduleConfig): (r: Option<Refusal>)
    ensures r == Some(NoEmployees) <==> |cfg.employees| == 0
    ensures r == Some(LoadAboveSlots) <==> |cfg.employees| > 0 && cfg.maxWeeklyLoad > NUM_DAYS * NUM_SHIFTS
  {
    if |cfg.employees| == 0 then Some(NoEmployees)
    else if cfg.maxWeeklyLoad > NUM_DAYS * NUM_SHIFTS then Some(LoadAboveSlots)
    else None
  }

  /** /otimizar as written. A refused request raises a 400 inside the try block,
      and the blanket handler re-raises it, like any other failure, as a 500.
      init is the initial population the run drew and best the schedule returned. */
  method OptimizeEndpoint(cfg: ScheduleConfig, rd: RunDraws)
    returns (r: Result<OptimizationResult, HttpError>, ghost init: seq<Schedule>, ghost best: Schedule)
    requires ValidConfig(cfg) && ValidRunDraws(NewService(cfg), rd)
    ensures r.Failure? <==> |cfg.employees| == 0 || cfg.maxWeeklyLoad > NUM_DAYS
    ensures r.Failure? ==> r.error.status == 500
    ensures r.Failure? && Guard(cfg).Some? ==> r.error.cause == Refused(Guard(cfg).value)
    ensures r.Failure? && Guard(cfg).None? ==> r.error.cause == EngineFailed(SampleLargerThanPopulation)
    ensures r.Success? ==> OptimizationDelivered(NewService(cfg), rd, init, r.value, best)
  {
    init, best := [], [];
    var refusal := Guard(cfg);
    if refusal.Some? {
      return Failure(HttpError(500, Refused(refusal.value))), init, best;
    }
    var svc := NewService(cfg);
    var res;
    res, init := Optimize(svc, rd);
    if res.Failure? {
      return Failure(HttpError(500, EngineFailed(res.error))), init, best;
    }
    var chosen := res.value.best;
    best := chosen;
    r := Success(OptimizationResult(Encode(chosen, svc.employees), Fitness(svc, chosen), res.value.trace, svc.params));
  }

  /** What a successful /otimizar response holds: best and the trace are the
      outcome of the optimiser's run from the draws rd and the initial population
      init generated from them, and the response carries the encoding of best,
      its fitness and the parameters used. */
  predicate OptimizationDelivered(svc: Service, rd: RunDraws, init: seq<Schedule>, out: OptimizationResult, best: Schedule)
    requires ValidRunDraws(svc, rd)
  {
    && RunOutcome(svc, rd, init, RunResult(best, out.trace))
    && out.schedule == Encode(best, svc.employees)
    && out.violations == Fitness(svc, best)
    && out.params == svc.params
  }

  /** The delivered schedule is dense and binary and its fitness is the least of
      the trace, one entry per generation; with elitism that is the fitness of
      the last generation's head. */
  lemma DeliveredIsLeast(svc: Service, rd: RunDraws, init: seq<Schedule>, out: OptimizationResult, best: Schedule)
    requires ValidRunDraws(svc, rd) && OptimizationDelivered(svc, rd, init, out, best)
    ensures Dense(best, |svc.employees|) && Binary(best)
    ensures |out.trace| == svc.params.generations > 0 && out.violations == Min(out.trace)
    ensures svc.params.elitism ==> out.violations == out.trace[|out.trace| - 1]
  {
    if svc.params.elitism {
      ElitistTrace(svc, init, rd.generations, |rd.generations|);
      assert out.trace[|out.trace| - 1] <= out.trace[ArgMin(out.trace)];
    }
  }

  /** The guard as evidently intended: the written tests, and then a refusal of a
      weekly load above the number of days, which the initialiser cannot generate
      because it samples distinct days. */
  function IntendedGuard(cfg: ScheduleConfig): (r: Option<Refusal>)
    ensures r == Some(NoEmployees) <==> |cfg.employees| == 0
    ensures r == Some(LoadAboveSlots) <==> |cfg.employees| > 0 && cfg.maxWeeklyLoad > NUM_DAYS * NUM_SHIFTS
    ensures r == Some(LoadAboveDays) <==> |cfg.employees| > 0 && NUM_DAYS < cfg.maxWeeklyLoad <= NUM_DAYS * NUM_SHIFTS
    ensures r.None? <==> |cfg.employees| > 0 && cfg.maxWeeklyLoad <= NUM_DAYS
  {
    if |cfg.employees| == 0 then Some(NoEmployees)
    else if cfg.maxWeeklyLoad > NUM_DAYS * NUM_SHIFTS then Some(LoadAboveSlots)
    else if cfg.maxWeeklyLoad > NUM_DAYS then Some(LoadAboveDays)
    else None
  }

  /** /otimizar as evidently intended: refusals answered with status 400, and no
      request that passes the guard makes the initialiser fail. */
  method OptimizeEndpointIntended(cfg: ScheduleConfig, rd: RunDraws)
    returns (r: Result<OptimizationResult, HttpError>, ghost init: seq<Schedule>, ghost best: Schedule)
    requires ValidConfig(cfg) && ValidRunDraws(NewService(cfg), rd)
    ensures r.Failure? <==> |cfg.employees| == 0 || cfg.maxWeeklyLoad > NUM_DAYS
    ensures r.Failure? ==> r.error.status == 400 && r.error.cause == Refused(IntendedGuard(cfg).value)
    ensures r.Success? ==> OptimizationDelivered(NewService(cfg), rd, init, r.value, best)
  {
    init, best := [], [];
    var refusal := IntendedGuard(cfg);
    if refusal.Some? {
      return Failure(HttpError(400, Refused(refusal.value))), init, best;
    }
    var svc := NewService(cfg);
    var res;
    res, init := Optimize(svc, rd);
    var out := res.value;
    best := out.best;
    r := Success(OptimizationResult(Encode(out.best, svc.employees), Fitness(svc, out.best), out.trace, svc.params));
  }

  /** Loads from one above the number of days up to the number of slots pass the
      written guard, yet the initialiser cannot sample that many distinct days. */
  lemma GuardAdmitsUnsampleableLoad(cfg: ScheduleConfig)
    requires |cfg.employees| > 0 && NUM_DAYS < cfg.maxWeeklyLoad <= NUM_DAYS * NUM_SHIFTS
    ensures Guard(cfg).None? && SampleFails(NewService(cfg))
  {
  }

  /** Such a request exists within the schema's bounds: one employee and a weekly
      load of eight. */
  lemma UnsampleableLoadExample() returns (cfg: ScheduleConfig)
    ensures ValidConfig(cfg) && Guard(cfg).None? && SampleFails(NewService(cfg))
  {
    cfg := ScheduleConfig([Employee(1, "Ana")], NUM_DAYS + 1, 1, 1, None);
    GuardAdmitsUnsampleableLoad(cfg);
  }

  /** A request that passes the intended guard never makes the initialiser fail. */
  lemma IntendedGuardSampleable(cfg: ScheduleConfig)
    requires ValidConfig(cfg) && IntendedGuard(cfg).None?
    ensures !SampleFails(NewService(cfg))
  {
  }

  /** /validar. The service is built from the employees alone, so the schedule is
      checked against the default constraints; a missing employee, day or shift
      key makes the checker raise, which the handler turns into a 500. */
  function ValidateEndpoint(employees: seq<Employee>, ws: WireSchedule): (r: Result<ValidationResult, HttpError>)
    ensures r.Failure? <==> exists i :: 0 <= i < |employees| && !HasKeys(ws, employees[i].id)
    ensures r.Failure? ==> r.error == HttpError(500, MissingKey)
    ensures r.Success? ==> r.value.count == |r.value.violations|
    ensures r.Success? ==> (r.value.valid <==> r.value.count == 0)
  {
    var svc := ValidationService(employees);
    var decoded := Decode(ws, employees);
    if decoded.None? then Failure(HttpError(500, MissingKey))
    else
      var violations := CheckConstraints(svc, decoded.value);
      Success(ValidationResult(|violations| == 0, |violations|, violations, Statistics(svc, decoded.value)))
  }

  /** The service /validar builds: the employees with the default constraints. */
  function ValidationService(employees: seq<Employee>): Service {
    NewService(DefaultConfig(employees))
  }

  /** A validated schedule is reported valid exactly when it breaks none of the
      default constraints; the report is the checker's, and so are the statistics. */
  lemma ValidateSpec(employees: seq<Employee>, ws: WireSchedule)
    requires Decode(ws, employees).Some?
    ensures var s := Decode(ws, employees).value;
            var svc := ValidationService(employees);
            var r := ValidateEndpoint(employees, ws);
            && r.Success?
            && r.value.violations == CheckConstraints(svc, s)
            && (r.value.valid <==> Feasible(svc, s))
            && (forall v :: v in r.value.violations <==> IsViolation(svc, s, v))
            && r.value.stats == Statistics(svc, s)
  {
    var s := Decode(ws, employees).value;
    var svc := ValidationService(employees);
    FitnessZeroIffFeasible(svc, s);
    CheckConstraintsSpec(svc, s);
  }

  /** Validating the schedule /otimizar returned, for employees with distinct ids,
      reports the violations of that schedule under the default constraints,
      whatever constraints the optimisation ran with. */
  lemma ValidateOptimized(cfg: ScheduleConfig, rd: RunDraws, init: seq<Schedule>, out: OptimizationResult, best: Schedule)
    requires DistinctIds(cfg.employees) && ValidRunDraws(NewService(cfg), rd)
    requires OptimizationDelivered(NewService(cfg), rd, init, out, best)
    ensures var r := ValidateEndpoint(cfg.employees, out.schedule);
            && r.Success?
            && r.value.violations == CheckConstraints(ValidationService(cfg.employees), best)
  {
    DecodeEncode(best, cfg.employees);
    ValidateSpec(cfg.employees, out.schedule);
  }
}
