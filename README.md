# Work-schedule optimisation service: a Dafny model

This project models the core of a work-schedule service. The service builds a
weekly schedule for a list of employees with a genetic algorithm. A schedule
assigns each employee, for each of the seven days (segunda … domingo) and three
shifts (manha, tarde, noite), a cell that is 1 when the employee works that shift.

The service checks three constraints:

- no employee works more than the weekly load;
- every employee has at least the required number of days off;
- every shift of every day is covered by at least the minimum number of employees.

The fitness of a schedule is the number of violations in the report. The
optimiser proceeds as follows:

- It draws a random initial population.
- In each generation it ranks the population by fitness and records its head.
- When elitism is on, it keeps the head in the first place of the next population.
- It fills the other places with children. Each child is bred from two tournament
  winners by uniform crossover and per-employee mutation.
- It returns the recorded head of least fitness.

Two HTTP endpoints expose the service:

- `/otimizar` guards the request and runs the optimiser;
- `/validar` checks a given schedule against the default constraints and reports
  its violations and per-employee statistics.

The Dafny modules follow the program:

| module | models |
|---|---|
| `Constants` | week layout and parameter bounds |
| `Config` | request data and the service built from it |
| `ScheduleModel` | the schedule matrix and its sums |
| `Checker` | constraint report, fitness and statistics |
| `Ranking` | `min` and `sorted` by fitness |
| `Initializer` | the random initialiser |
| `Operators` | tournament selection, crossover and mutation |
| `Generation` | one generation of the loop |
| `Optimizer` | the whole run |
| `Wire` | the nested-dictionary schedule of the HTTP interface |
| `Router` | the two endpoints |

Every random draw (`random.sample`, `random.choice`, `random.random`) is an
explicit argument, constrained to the values the library call can return.

The engine indexes employees by their position in the employee list. The
dictionary keyed by employee id exists only at the interface, in `Wire`.

## Model

| member | source | states |
|---|---|---|
| Constants.WeekLayout | api/app/core/constants.py:6-7 | the week has 7 distinct day names and 3 distinct shift names, in the order the schedules use |
| Constants.BoundsConsistent | api/app/core/constants.py:10-23 | every lower bound is at most its upper bound; the upper load bound is the number of day/shift slots (21); the upper rest bound is the number of days; the smallest population can hold a 3-entrant tournament |
| Config.DefaultConfig | api/app/models/schemas.py:52-73 | a configuration holding only employees gets load 6, 1 rest day, coverage 2 and no parameters, and is within the schema bounds |
| Config.NewService | api/app/services/genetic_algorithm.py:18-28 | the service copies the constraints; it takes the request's parameters when present and the defaults (20, 80, 0.2, no elitism) otherwise; parameters within bounds stay within bounds |
| ScheduleModel.SumUpdate | api/app/services/genetic_algorithm.py:36 | changing one entry changes a sum by exactly the difference |
| ScheduleModel.RowTotalUpdate | api/app/services/genetic_algorithm.py:36 | changing one cell changes an employee's shift count by exactly the difference |
| ScheduleModel.BinaryDaySum | api/app/services/genetic_algorithm.py:37 | a binary day is off (all shifts 0) exactly when its sum is 0, and its sum is at most its length |
| ScheduleModel.LoadPlusRest | api/app/services/genetic_algorithm.py:36-37 | in a binary week with at most one shift a day, shifts worked plus days off equals the number of days |
| ScheduleModel.RowBounds | api/app/services/genetic_algorithm.py:36-37 | a binary week has between 0 and 3 shifts per day in total, and no more days off than days |
| ScheduleModel.AllOffRow | api/app/services/genetic_algorithm.py:37 | a week whose days are all off has no shift worked and every day off |
| ScheduleModel.ZeroRowFacts | api/app/services/genetic_algorithm.py:61 | the all-zero week is dense and binary, with 0 shifts worked and 7 days off |
| Checker.EmployeeChecksHas | api/app/services/genetic_algorithm.py:39-43 | the checks of employee i contain exactly the overwork and missing-rest breaches of employee i |
| Checker.EmployeeChecksOrdered | api/app/services/genetic_algorithm.py:39-43 | the checks of employee i come overwork first, with keys inside employee i's range |
| Checker.EmployeeViolationsHas | api/app/services/genetic_algorithm.py:35-43 | the employee loop over the first k employees reports exactly the breaches by those employees |
| Checker.EmployeeViolationsOrdered | api/app/services/genetic_algorithm.py:35-43 | the employee part of the report is strictly ordered by employee, each breach once |
| Checker.SlotCheckOrdered | api/app/services/genetic_algorithm.py:48-50 | the coverage check of a shift sits at that shift's own key |
| Checker.SlotViolationsHas | api/app/services/genetic_algorithm.py:47-50 | the shift loop of day d over the first k shifts reports exactly the under-covered shifts among them |
| Checker.SlotViolationsOrdered | api/app/services/genetic_algorithm.py:47-50 | the coverage checks of a day are strictly ordered by shift, within that day's key range |
| Checker.ReportUpToHas | api/app/services/genetic_algorithm.py:46-50 | the report as far as day d holds every employee breach and exactly the under-covered shifts of the days before d |
| Checker.ReportUpToOrdered | api/app/services/genetic_algorithm.py:46-50 | the report as far as day d is strictly ordered: employees first, then days, then shifts |
| Checker.CheckConstraints | api/app/services/genetic_algorithm.py:30-52 | the report has at most two entries per employee plus one per day/shift slot |
| Checker.CheckConstraintsSpec | api/app/services/genetic_algorithm.py:30-52 | the report lists a violation exactly when the schedule commits it, each once, in report order |
| Checker.Fitness | api/app/services/genetic_algorithm.py:54-57 | the fitness is bounded by two per employee plus the 21 slots |
| Checker.FitnessZeroIffFeasible | api/app/services/genetic_algorithm.py:54-57 | the fitness is 0 exactly when the schedule meets all three constraints |
| Checker.EmptyReportFeasible | api/app/services/genetic_algorithm.py:30-52 | a complete report that is empty means the schedule meets every constraint |
| Checker.StatisticsUpTo | api/app/services/genetic_algorithm.py:154-164 | after k employees, the statistics are keyed by exactly their names; the entry of each name is the shift count and days off of the last employee with that name |
| Checker.Statistics | api/app/services/genetic_algorithm.py:150-166 | the statistics are keyed by exactly the employees' names; each name maps to the shifts worked and days off of the last employee bearing it |
| Ranking.ArgMin | api/app/services/genetic_algorithm.py:145 | min with a key returns the first position of least key |
| Ranking.ArgMinUnique | api/app/services/genetic_algorithm.py:145 | any position that is least and strictly below every earlier key is the ArgMin position, so min's choice is determined |
| Ranking.Min | api/app/services/genetic_algorithm.py:145 | the minimum is an entry and is at most every entry |
| Ranking.FitnessesSpec | api/app/services/genetic_algorithm.py:124 | the key list holds each member's fitness at its position |
| Ranking.MinFitness | api/app/services/genetic_algorithm.py:141 | the least fitness is attained by a member and is at most every member's fitness |
| Ranking.RankByFitness | api/app/services/genetic_algorithm.py:124 | sorted() by fitness, built by stable insertion: as many members as the population, each dense; what the order is comes from RankingSpec and RankStable |
| Ranking.WithFitnessSpec | api/app/services/genetic_algorithm.py:124 | the members of one fitness class, in population order, are exactly the population's members of that fitness, each as often as it occurs |
| Ranking.InsertStable | api/app/services/genetic_algorithm.py:124 | insertion puts the member in front of its own fitness class and leaves every class's order unchanged |
| Ranking.RankStable | api/app/services/genetic_algorithm.py:124 | sorted() is stable: in the ranking the members of each fitness keep their population order |
| Ranking.InsertPermutes | api/app/services/genetic_algorithm.py:124 | inserting into the ranking adds exactly the inserted member |
| Ranking.InsertLowerBound | api/app/services/genetic_algorithm.py:124 | a lower bound on the fitness of the inserted member and of the ranking bounds the result |
| Ranking.InsertSorted | api/app/services/genetic_algorithm.py:124 | inserting into a ranking sorted by fitness keeps it sorted |
| Ranking.RankPermutes | api/app/services/genetic_algorithm.py:124 | the ranking is a permutation of the population |
| Ranking.RankSorted | api/app/services/genetic_algorithm.py:124 | the ranking is sorted by non-decreasing fitness |
| Ranking.RankHeadIndex | api/app/services/genetic_algorithm.py:124 | the head of the stable ranking is the first member of least fitness in population order |
| Ranking.RankHead | api/app/services/genetic_algorithm.py:124 | the head of the ranking is the member min would choose |
| Ranking.RankingSpec | api/app/services/genetic_algorithm.py:124 | sorted() is a permutation, sorted by fitness, stable (each fitness class keeps its population order), and its head is the first member of least fitness |
| Ranking.RankHeadFitness | api/app/services/genetic_algorithm.py:124 | the head of the ranking is min's choice and its fitness is the least of the population |
| Initializer.PartialRowStart | api/app/services/genetic_algorithm.py:61 | the all-zero week is the week before any draw is written |
| Initializer.PartialRowStep | api/app/services/genetic_algorithm.py:65-67 | writing the next drawn (day, shift) marks exactly the draws made so far, keeps one shift per day and adds one to the shift count |
| Initializer.GenerateIndividual | api/app/services/genetic_algorithm.py:59-69 | it fails exactly when there are employees and the load cannot be sampled from 7 days; otherwise every employee works exactly the load, at most once a day, on exactly the drawn cells, with binary cells |
| Initializer.GeneratedFacts | api/app/services/genetic_algorithm.py:59-69 | finished rows, each with the load and one shift a day, form a dense, binary schedule |
| Initializer.GeneratedEmployeeChecks | api/app/services/genetic_algorithm.py:59-69 | a generated schedule never overworks anyone; every employee has 7 − load days off; it breaches the rest constraint exactly when 7 − load is below the required rest days |
| Operators.BestEntrantSpec | api/app/services/genetic_algorithm.py:76 | the left-to-right scan keeps an entrant of least fitness, the first drawn among ties |
| Operators.TournamentWinnerWins | api/app/services/genetic_algorithm.py:75-76 | the chosen parent is an entrant of least fitness, and no earlier-drawn entrant has that fitness |
| Operators.WinnerDetermined | api/app/services/genetic_algorithm.py:75-76 | exactly one schedule wins a given tournament |
| Operators.WinnersOfTwo | api/app/services/genetic_algorithm.py:73-78 | the parents are the winners of the two tournaments, in draw order |
| Operators.SelectParents | api/app/services/genetic_algorithm.py:71-78 | selection fails exactly when the population has fewer than 3 members; otherwise it returns the winners of the two tournaments |
| Operators.MixUpToAt | api/app/services/genetic_algorithm.py:84-93 | row i of the partial child is employee i's mixed row |
| Operators.MixCells | api/app/services/genetic_algorithm.py:84-93 | every cell of the child is that cell of the parent its coin names |
| Operators.Crossover | api/app/services/genetic_algorithm.py:80-95 | the loops build a fresh child array whose contents are the uniform mix of the parents |
| Operators.MixFromParents | api/app/services/genetic_algorithm.py:92-93 | every child cell equals one parent's cell; binary parents give a binary child |
| Operators.MixSelf | api/app/services/genetic_algorithm.py:80-95 | crossing a schedule with itself gives it back, whatever the coins |
| Operators.CrossoverMayExceedLoad | api/app/services/genetic_algorithm.py:80-95 | a child can exceed the weekly load when neither parent does (load 1: Monday morning × Tuesday morning) |
| Operators.Flip | api/app/services/genetic_algorithm.py:103-106 | a mutated cell is 0 or 1, and a binary cell is inverted |
| Operators.MutatedUpToAt | api/app/services/genetic_algorithm.py:99-106 | row i of the partially mutated schedule is row i after its own draw |
| Operators.MutatedRows | api/app/services/genetic_algorithm.py:99-106 | each employee's row is mutated only by its own draw |
| Operators.Mutate | api/app/services/genetic_algorithm.py:97-107 | mutation works in place: it returns the same array, whose new contents are the old contents after the draws |
| Operators.MutationLocal | api/app/services/genetic_algorithm.py:99-106 | mutation flips only the drawn cell of each employee whose draw fires, and leaves every other cell |
| Operators.MutationInvolution | api/app/services/genetic_algorithm.py:103-106 | mutation keeps a schedule binary; applying the same draws twice gives the schedule back |
| Operators.MutationLoad | api/app/services/genetic_algorithm.py:103-106 | on a binary schedule a fired draw changes that employee's shift count by exactly one, down for a removed shift and up for an added one; an unfired draw leaves it unchanged |
| Generation.OffspringBinary | api/app/services/genetic_algorithm.py:132-134 | children of a binary ranking are binary |
| Generation.NewMemberBinary | api/app/services/genetic_algorithm.py:127-135 | every place of the new population bred from a binary ranking is binary |
| Generation.NewPopulation | api/app/services/genetic_algorithm.py:127-135 | the new population has one member per place, pop_size of them |
| Generation.ChildAt | api/app/services/genetic_algorithm.py:131-135 | every place the elite does not take holds the child bred from that place's draws |
| Generation.MakeChild | api/app/services/genetic_algorithm.py:132-134 | selecting, crossing and mutating in place gives the specified offspring |
| Generation.Breed | api/app/services/genetic_algorithm.py:121-135 | the elitism branch and the while loop build exactly the specified new population |
| Generation.NextGeneration | api/app/services/genetic_algorithm.py:121-137 | one generation returns the ranking of the population and the population bred from it |
| Generation.RankedBinary | api/app/services/genetic_algorithm.py:124 | ranking keeps a population binary |
| Generation.NewPopulationShape | api/app/services/genetic_algorithm.py:121-135 | the new population is dense, and binary when the ranking is |
| Optimizer.InitialPopulation | api/app/services/genetic_algorithm.py:114 | the initial population fails exactly when the initialiser does; otherwise it has one member per draw, and member k is the schedule generated from the k-th draw |
| Optimizer.Population | api/app/services/genetic_algorithm.py:114-137 | every generation has pop_size dense members |
| Optimizer.BredAt | api/app/services/genetic_algorithm.py:131-135 | place j of a bred population is the member bred for place j |
| Optimizer.PopulationStep | api/app/services/genetic_algorithm.py:121-137 | each generation is the new population bred from the ranking of the one before |
| Optimizer.PopulationBinary | api/app/services/genetic_algorithm.py:114-137 | from a binary initial population every generation is binary |
| Optimizer.TraceAt | api/app/services/genetic_algorithm.py:140-142 | entry j of the fitness trace is the least fitness of generation j |
| Optimizer.HeadsAt | api/app/services/genetic_algorithm.py:138 | entry j of the recorded bests is the head of generation j's ranking |
| Optimizer.GenerationHead | api/app/services/genetic_algorithm.py:124-141 | the recorded head of a generation is dense, has that generation's least fitness, and is binary when the initial population is |
| Optimizer.ElitismKeepsBest | api/app/services/genetic_algorithm.py:127-128 | with elitism the least fitness of the next generation is at most that of the current one |
| Optimizer.ElitistTrace | api/app/services/genetic_algorithm.py:127-142 | with elitism the fitness trace never rises |
| Optimizer.Evolve | api/app/services/genetic_algorithm.py:120-142 | the loop records exactly the head of each generation's ranking and its least fitness |
| Optimizer.EvolveStep | api/app/services/genetic_algorithm.py:120-142 | one pass breeds the next generation from the current ranking and appends its head and the head's fitness |
| Optimizer.Optimize | api/app/services/genetic_algorithm.py:109-148 | the run fails exactly when the initialiser does, with the initialiser's error; otherwise the initial population is the one generated from the initial draws, the trace is the least fitness of each generation evolved from it under the breeding draws, and the result is the head of the first generation reaching the trace minimum, whose fitness is that minimum, dense and binary |
| Optimizer.OptimizeResult | api/app/services/genetic_algorithm.py:145 | the fitnesses of the recorded bests are the trace, and min over them picks the head of the first generation of least trace value |
| Wire.Decode | api/app/services/genetic_algorithm.py:36-48 | reading the nested dictionary succeeds exactly when every employee id, day and shift key is present, and then yields each cell as stored |
| Wire.EncodeUpTo | api/app/services/genetic_algorithm.py:61 | the dictionary of the first k employees is keyed by exactly their ids; a later employee with the same id overwrites an earlier one |
| Wire.Encode | api/app/services/genetic_algorithm.py:61 | the returned dictionary is keyed by exactly the employee ids, each holding the last such employee's week |
| Wire.DecodeEncode | api/app/routers/escalas.py:53 | with distinct ids, decoding the returned schedule gives the schedule back |
| Wire.SharedIdSharesWeek | api/app/services/genetic_algorithm.py:61 | two employees sharing an id read the same week |
| Router.Guard | api/app/routers/escalas.py:33-43 | the request is refused for an empty employee list, otherwise for a load above 21 slots |
| Router.OptimizeEndpoint | api/app/routers/escalas.py:31-64 | /otimizar fails exactly for an empty list or a load above 7, always with status 500; it carries the guard's refusal or the initialiser's error; on success the best schedule and the trace are the outcome of the optimiser's run from the request's draws, and the response holds that schedule's encoding, its fitness, the trace and the parameters |
| Router.IntendedGuard | api/app/routers/escalas.py:33-43 | the intended guard refuses an empty list, then a load above 21 slots as written, then a load above the 7 days; it admits exactly a non-empty list with a load of at most 7 |
| Router.OptimizeEndpointIntended | api/app/routers/escalas.py:31-64 | with the intended guard, refusals carry status 400 and no admitted request fails; a success is the optimiser's run from the request's draws, as in /otimizar |
| Router.DeliveredIsLeast | api/app/routers/escalas.py:46-57 | the returned schedule is dense and binary, its reported violations are the least of the trace, which has one entry per generation, and with elitism they are those of the last generation |
| Router.GuardAdmitsUnsampleableLoad | api/app/routers/escalas.py:39 | every load from 8 to 21 passes the written guard, yet the initialiser fails on it |
| Router.UnsampleableLoadExample | api/app/routers/escalas.py:39-43 | one employee with a load of 8 is a schema-valid request that passes the guard and makes sampling fail |
| Router.IntendedGuardSampleable | api/app/routers/escalas.py:39-43 | a request admitted by the intended guard never makes the initialiser fail |
| Router.ValidateEndpoint | api/app/routers/escalas.py:75-97 | /validar fails with 500 exactly when an employee's id, day or shift key is missing; otherwise the count is the report's length, and the schedule is reported valid exactly when the count is 0 |
| Router.ValidateSpec | api/app/routers/escalas.py:77-91 | with the default constraints, the reported violations are the checker's report: exactly the violations committed. Valid means feasible, and the statistics are the checker's |
| Router.ValidateOptimized | api/app/routers/escalas.py:75-91 | with distinct ids, validating the schedule a successful /otimizar run returned reports that schedule's violations under the default constraints |

## Left out

- Time: `time.time()` and the reported execution time are not modelled.
- Probabilities: the distributions of `random.sample`, `random.choice` and `random.random` are not modelled. Each draw is an argument ranging over the values the call can return.
- Mutation rate: whether a mutation fires is part of the mutation draw (`None` or a cell), so the mutation rate is kept only for its bounds.
- Checker.Statistics: does not model `carga_percentual`, because it is a floating-point ratio; only shifts worked and days off are kept.
- Violation messages: each one is a datatype constructor (employee index or day and shift), not a formatted string.
- Preferred rest days: carried by the request but never read by the engine.
- Duplicate ids in the engine: the original keys its schedule dictionary by employee id, so employees sharing an id share one week in the generated schedule. The engine model gives every employee its own row; `Wire` shows the sharing only at the interface, in `Wire.Encode` and `Wire.SharedIdSharesWeek`.
- Schema validation: the request schema rejects out-of-range fields with status 422 before the handler runs. `Config.ValidConfig` is therefore a precondition of the endpoints, not an error path.
- Exceptions other than those modelled: the handlers' blanket exception handlers are modelled only for the failures the model can raise. These are the guard's refusals, the initialiser's sampling error and a missing dictionary key.
- Ranking: `sorted` and `min` are modelled for their stable order and first-minimal choice; how Python implements the sort (Timsort) is not modelled.
- Tournament fitness: the tournament recomputes fitness on each comparison; the model reads the same values from the population's fitness list.

## Findings

| source | as written | input that shows it | evidently intended | confidence | as-written member | corrected member |
|---|---|---|---|---|---|---|
| api/app/routers/escalas.py:31-64 | the 400 refusals are raised inside the `try` and re-raised by `except Exception` as status 500 | a request with an empty employee list | refusals answered with status 400 | not executed | Router.OptimizeEndpoint | Router.OptimizeEndpointIntended |
| api/app/routers/escalas.py:39 | the guard admits loads up to 21 slots, but the initialiser samples that many distinct days from 7 (api/app/services/genetic_algorithm.py:64), so `random.sample` raises and the request fails with 500 | one employee, weekly load 8 | refuse a load above the 7 days | not executed | Router.UnsampleableLoadExample | Router.IntendedGuardSampleable |
