/** The request data the engine is configured with: employees, constraints and
    algorithm parameters, with the bounds and defaults the request schema applies
    (api/app/models/schemas.py), and the service built from them
    (api/app/services/genetic_algorithm.py, the constructor). */
module Config {
  import opened Wrappers
  import opened Constants

  /** An employee. Preferred rest days are carried by the request but never read
      by the engine, so they are not part of the model. */
  datatype Employee = Employee(id: int, name: string)

  /** Algorithm parameters. The mutation rate is kept only for its bounds: every
      random draw is an explicit argument of the operators. */
  datatype Params = Params(popSize: int, generations: int, mutationRate: real, elitism: bool)

  /** An optimisation request: employees, the three constraints and optional parameters. */
  datatype ScheduleConfig = ScheduleConfig(
    employees: seq<Employee>,
    maxWeeklyLoad: int,
    requiredRestDays: int,
    minCoverage: int,
    params: Option<Params>)

  const DEFAULT_PARAMS := Params(20, 80, 0.2, false)
  const DEFAULT_MAX_WEEKLY_LOAD := 6
  const DEFAULT_REQUIRED_REST_DAYS := 1
  const DEFAULT_MIN_COVERAGE := 2

  /** The bounds the request schema enforces on the parameters. */
  predicate ValidParams(p: Params) {
    && MIN_POP_SIZE <= p.popSize <= MAX_POP_SIZE
    && MIN_N_GENERATIONS <= p.generations <= MAX_N_GENERATIONS
    && MIN_MUTATION_RATE <= p.mutationRate <= MAX_MUTATION_RATE
  }

  /** The bounds the request schema enforces on a configuration. */
  predicate ValidConfig(cfg: ScheduleConfig) {
    && MIN_MAX_WEEKLY_LOAD <= cfg.maxWeeklyLoad <= MAX_MAX_WEEKLY_LOAD
    && MIN_REQUIRED_REST_DAYS <= cfg.requiredRestDays <= MAX_REQUIRED_REST_DAYS
    && MIN_MIN_COVERAGE <= cfg.minCoverage <= MAX_MIN_COVERAGE
    && (cfg.params.Some? ==> ValidParams(cfg.params.value))
  }

  /** A configuration holding only the employees, every other field at its default. */
  function DefaultConfig(employees: seq<Employee>): (cfg: ScheduleConfig)
    ensures ValidConfig(cfg) && cfg.employees == employees && cfg.params.None?
    ensures cfg.maxWeeklyLoad == 6 && cfg.requiredRestDays == 1 && cfg.minCoverage == 2
  {
    ScheduleConfig(employees, DEFAULT_MAX_WEEKLY_LOAD, DEFAULT_REQUIRED_REST_DAYS, DEFAULT_MIN_COVERAGE, None)
  }

  /** The scheduling service: the configuration it was built from, with the
      parameters resolved. Its fields never change after construction. */
  datatype Service = Service(
    employees: seq<Employee>,
    maxWeeklyLoad: int,
    requiredRestDays: int,
    minCoverage: int,
    params: Params)

  /** Builds the service; without parameters in the request the defaults are used. */
  function NewService(cfg: ScheduleConfig): (svc: Service)
    ensures svc.employees == cfg.employees && svc.maxWeeklyLoad == cfg.maxWeeklyLoad
    ensures svc.requiredRestDays == cfg.requiredRestDays && svc.minCoverage == cfg.minCoverage
    ensures cfg.params.Some? ==> svc.params == cfg.params.value
    ensures cfg.params.None? ==> svc.params == Params(20, 80, 0.2, false)
    ensures ValidConfig(cfg) ==> ValidParams(svc.params)
  {
    Service(cfg.employees, cfg.maxWeeklyLoad, cfg.requiredRestDays, cfg.minCoverage,
            if cfg.params.Some? then cfg.params.value else DEFAULT_PARAMS)
  }
}
