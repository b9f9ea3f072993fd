/** The optimiser otimizar (api/app/services/genetic_algorithm.py:109-148): build the
    initial population, evolve it for the configured number of generations,
    record the best member and its fitness in every generation, and return the
    best of those. */
module Optimizer {
  import opened Wrappers
  import opened Constants
  import opened Config
  import opened ScheduleModel
  import opened Checker
  import opened Ranking
  import opened Initializer
  import opened Generation

  /** Every random draw of a run: one sample per initial member, then one draw
      per place of every generation. */
  datatype RunDraws = RunDraws(initial: seq<seq<EmployeeSample>>, generations: seq<seq<ChildDraw>>)

  /** The best schedule found and the best fitness of every generation; the
      elapsed time is not modelled. */
  datatype RunResult = RunResult(best: Schedule, trace: seq<nat>)

  predicate ValidRunDraws(svc: Service, rd: RunDraws) {
    && |rd.initial| == svc.params.popSize
    && (forall k :: 0 <= k < |rd.initial| ==> ValidIndividualDraw(svc, rd.initial[k]))
    && |rd.generations| == svc.params.generations
    && (forall g :: 0 <= g < |rd.generations| ==> ValidGenerationDraw(svc, rd.generations[g]))
  }

  /** A member of the initial population: dense, binary, every employee working
      exactly the weekly load and at most one shift a day. */
  predicate InitialMember(svc: Service, s: Schedule) {
    && Dense(s, |svc.employees|) && Binary(s)
    && (forall i :: 0 <= i < |svc.employees| ==> RowTotal(s[i]) == svc.maxWeeklyLoad)
    && (forall i, d :: 0 <= i < |svc.employees| && 0 <= d < NUM_DAYS ==> Sum(s[i][d]) <= 1)
  }

  /** [gerar_individuo() for _ in range(pop_size)]: fails on the first member
      exactly when the initialiser does; otherwise member k is the individual
      generated from the k-th draw. */
  method InitialPopulation(svc: Service, draws: seq<seq<EmployeeSample>>) returns (r: Result<seq<Schedule>, EngineError>)
    requires forall k :: 0 <= k < |draws| ==> ValidIndividualDraw(svc, draws[k])
    ensures r.Failure? <==> |draws| > 0 && SampleFails(svc)
    ensures r.Success? ==> |r.value| == |draws| && forall k :: 0 <= k < |draws| ==> InitialMember(svc, r.value[k])
    ensures r.Success? ==> forall k :: 0 <= k < |draws| ==> GeneratedFrom(svc, draws[k], r.value[k])
  {
    var pop: seq<Schedule> := [];
    for k := 0 to |draws|
      invariant |pop| == k && (k > 0 ==> !SampleFails(svc))
      invariant forall j :: 0 <= j < k ==> InitialMember(svc, pop[j])
      invariant forall j :: 0 <= j < k ==> GeneratedFrom(svc, draws[j], pop[j])
    {
      var ind := GenerateIndividual(svc, draws[k]);
      if ind.Failure? {
        return Failure(ind.error);
      }
      pop := pop + [ind.value];
    }
    return Success(pop);
  }

  /** What a run needs of its initial population and draws. */
  predicate RunInputs(svc: Service, init: seq<Schedule>, draws: seq<seq<ChildDraw>>) {
    && DensePopulation(svc, init) && |init| == svc.params.popSize > 0
    && (forall g :: 0 <= g < |draws| ==> ValidGenerationDraw(svc, draws[g]))
  }

  /** The population evaluated in generation g: the initial one, then the
      population bred from the ranking of the generation before. */
  function Population(svc: Service, init: seq<Schedule>, draws: seq<seq<ChildDraw>>, g: nat): (pop: seq<Schedule>)
    requires RunInputs(svc, init, draws) && g <= |draws|
    ensures DensePopulation(svc, pop) && |pop| == svc.params.popSize
    decreases g, 2, 0
  {
    if g == 0 then init else Bred(svc, init, draws, g, svc.params.popSize)
  }

  /** The first k places of the population of generation g > 0. */
  function Bred(svc: Service, init: seq<Schedule>, draws: seq<seq<ChildDraw>>, g: nat, k: nat): (pop: seq<Schedule>)
    requires RunInputs(svc, init, draws) && 0 < g <= |draws| && k <= svc.params.popSize
    ensures |pop| == k && DensePopulation(svc, pop)
    decreases g, 1, k
  {
    if k == 0 then [] else Bred(svc, init, draws, g, k - 1) + [Member(svc, init, draws, g, k - 1)]
  }

  /** Place j of the population of generation g > 0. */
  function Member(svc: Service, init: seq<Schedule>, draws: seq<seq<ChildDraw>>, g: nat, j: nat): (s: Schedule)
    requires RunInputs(svc, init, draws) && 0 < g <= |draws| && j < svc.params.popSize
    ensures Dense(s, |svc.employees|)
    decreases g, 0, 0
  {
    NewMember(svc, RankByFitness(svc, Population(svc, init, draws, g - 1)), draws[g - 1], j)
  }

  /** Place j of the first k places is member j. */
  lemma {:induction false} BredAt(svc: Service, init: seq<Schedule>, draws: seq<seq<ChildDraw>>, g: nat, k: nat, j: nat)
    requires RunInputs(svc, init, draws) && 0 < g <= |draws| && j < k <= svc.params.popSize
    ensures Bred(svc, init, draws, g, k)[j] == Member(svc, init, draws, g, j)
  {
    if j < k - 1 {
      BredAt(svc, init, draws, g, k - 1, j);
    }
  }

  /** Each generation after the first is the new population bred from the
      ranking of the one before. */
  lemma PopulationStep(svc: Service, init: seq<Schedule>, draws: seq<seq<ChildDraw>>, g: nat)
    requires RunInputs(svc, init, draws) && 0 < g <= |draws|
    ensures var prev := Population(svc, init, draws, g - 1);
            Population(svc, init, draws, g) == NewPopulation(svc, RankByFitness(svc, prev), draws[g - 1])
  {
    var prev := Population(svc, init, draws, g - 1);
    var next := NewPopulation(svc, RankByFitness(svc, prev), draws[g - 1]);
    var pop := Population(svc, init, draws, g);
    forall j | 0 <= j < |pop| ensures pop[j] == next[j] {
      BredAt(svc, init, draws, g, |pop|, j);
    }
  }

  /** Every generation of a run from a binary initial population is binary. */
  lemma {:induction false} PopulationBinary(svc: Service, init: seq<Schedule>, draws: seq<seq<ChildDraw>>, g: nat)
    requires RunInputs(svc, init, draws) && g <= |draws| && BinaryPopulation(init)
    ensures BinaryPopulation(Population(svc, init, draws, g))
  {
    if g > 0 {
      var prev := Population(svc, init, draws, g - 1);
      PopulationBinary(svc, init, draws, g - 1);
      RankedBinary(svc, prev);
      PopulationStep(svc, init, draws, g);
      NewPopulationShape(svc, RankByFitness(svc, prev), draws[g - 1]);
    }
  }

  /** The best fitness of each of the first g generations. */
  function Trace(svc: Service, init: seq<Schedule>, draws: seq<seq<ChildDraw>>, g: nat): (t: seq<nat>)
    requires RunInputs(svc, init, draws) && g <= |draws|
    ensures |t| == g
  {
    if g == 0 then [] else Trace(svc, init, draws, g - 1) + [MinFitness(svc, Population(svc, init, draws, g - 1))]
  }

  /** Entry j of the trace is the least fitness of generation j. */
  lemma {:induction false} TraceAt(svc: Service, init: seq<Schedule>, draws: seq<seq<ChildDraw>>, g: nat, j: nat)
    requires RunInputs(svc, init, draws) && j < g <= |draws|
    ensures Trace(svc, init, draws, g)[j] == MinFitness(svc, Population(svc, init, draws, j))
  {
    if j < g - 1 {
      TraceAt(svc, init, draws, g - 1, j);
    }
  }

  /** The head of the ranking of each of the first g generations. */
  function Heads(svc: Service, init: seq<Schedule>, draws: seq<seq<ChildDraw>>, g: nat): (h: seq<Schedule>)
    requires RunInputs(svc, init, draws) && g <= |draws|
    ensures |h| == g
  {
    if g == 0 then []
    else
      var pop := Population(svc, init, draws, g - 1);
      Heads(svc, init, draws, g - 1) + [RankByFitness(svc, pop)[0]]
  }

  /** Entry j of the heads is the head of the ranking of generation j. */
  lemma {:induction false} HeadsAt(svc: Service, init: seq<Schedule>, draws: seq<seq<ChildDraw>>, g: nat, j: nat)
    requires RunInputs(svc, init, draws) && j < g <= |draws|
    ensures Heads(svc, init, draws, g)[j] == RankByFitness(svc, Population(svc, init, draws, j))[0]
  {
    if j < g - 1 {
      HeadsAt(svc, init, draws, g - 1, j);
    }
  }

  /** The head of the ranking of generation g is a dense schedule of least fitness
      in that generation, binary when the initial population is. */
  lemma GenerationHead(svc: Service, init: seq<Schedule>, draws: seq<seq<ChildDraw>>, g: nat)
    requires RunInputs(svc, init, draws) && g <= |draws|
    ensures var pop := Population(svc, init, draws, g);
            var h := RankByFitness(svc, pop)[0];
            && Dense(h, |svc.employees|)
            && Fitness(svc, h) == MinFitness(svc, pop)
            && (BinaryPopulation(init) ==> Binary(h))
  {
    var pop := Population(svc, init, draws, g);
    RankHeadFitness(svc, pop);
    if BinaryPopulation(init) {
      PopulationBinary(svc, init, draws, g);
      RankedBinary(svc, pop);
    }
  }

  /** With elitism the best fitness never gets worse from one generation to the
      next: the head of the ranking is carried over to the first place. */
  lemma ElitismKeepsBest(svc: Service, init: seq<Schedule>, draws: seq<seq<ChildDraw>>, g: nat)
    requires RunInputs(svc, init, draws) && g < |draws| && svc.params.elitism
    ensures MinFitness(svc, Population(svc, init, draws, g + 1)) <= MinFitness(svc, Population(svc, init, draws, g))
  {
    var pop := Population(svc, init, draws, g);
    var next := Population(svc, init, draws, g + 1);
    RankHeadFitness(svc, pop);
    BredAt(svc, init, draws, g + 1, |next|, 0);
    assert next[0] == RankByFitness(svc, pop)[0];
  }

  /** A sequence that never rises from one entry to the next never rises at all. */
  lemma {:induction false} NonIncreasing(xs: seq<nat>, i: nat, j: nat)
    requires forall k :: 0 <= k < |xs| - 1 ==> xs[k + 1] <= xs[k]
    requires i <= j < |xs|
    ensures xs[j] <= xs[i]
  {
    if i < j {
      NonIncreasing(xs, i, j - 1);
    }
  }

  /** With elitism the trace never rises: the best fitness of a later generation
      is at most that of an earlier one. */
  lemma {:induction false} ElitistTrace(svc: Service, init: seq<Schedule>, draws: seq<seq<ChildDraw>>, g: nat)
    requires RunInputs(svc, init, draws) && g <= |draws| && svc.params.elitism
    ensures forall j, k :: 0 <= j <= k < g ==> Trace(svc, init, draws, g)[k] <= Trace(svc, init, draws, g)[j]
  {
    var t := Trace(svc, init, draws, g);
    forall k | 0 <= k < g - 1 ensures t[k + 1] <= t[k] {
      ElitismKeepsBest(svc, init, draws, k);
      TraceAt(svc, init, draws, g, k);
      TraceAt(svc, init, draws, g, k + 1);
    }
    forall j, k | 0 <= j <= k < g ensures t[k] <= t[j] {
      NonIncreasing(t, j, k);
    }
  }

  /** The generational loop of otimizar: each generation ranks the population,
      records its head and that head's fitness, and breeds the next population.
      The population bred by the last generation is never evaluated. */
  method Evolve(svc: Service, init: seq<Schedule>, draws: seq<seq<ChildDraw>>) returns (bests: seq<Schedule>, trace: seq<nat>)
    requires RunInputs(svc, init, draws)
    ensures bests == Heads(svc, init, draws, |draws|)
    ensures trace == Trace(svc, init, draws, |draws|)
  {
    var pop := init;
    bests, trace := [], [];
    for g := 0 to |draws|
      invariant pop == Population(svc, init, draws, g)
      invariant trace == Trace(svc, init, draws, g)
      invariant bests == Heads(svc, init, draws, g)
    {
      var next, ranked := NextGeneration(svc, pop, draws[g]);
      EvolveStep(svc, init, draws, g);
      bests := bests + [ranked[0]];
      trace := trace + [Fitness(svc, ranked[0])];
      pop := next;
    }
  }

  /** One pass of the loop of otimizar: generation g + 1 is bred from the ranking
      of generation g, whose head is recorded with its fitness. */
  lemma EvolveStep(svc: Service, init: seq<Schedule>, draws: seq<seq<ChildDraw>>, g: nat)
    requires RunInputs(svc, init, draws) && g < |draws|
    ensures var pop := Population(svc, init, draws, g);
            var ranked := RankByFitness(svc, pop);
            && |ranked| > 0
            && Population(svc, init, draws, g + 1) == NewPopulation(svc, ranked, draws[g])
            && Heads(svc, init, draws, g + 1) == Heads(svc, init, draws, g) + [ranked[0]]
            && Trace(svc, init, draws, g + 1) == Trace(svc, init, draws, g) + [Fitness(svc, ranked[0])]
  {
    RankHeadFitness(svc, Population(svc, init, draws, g));
    PopulationStep(svc, init, draws, g + 1);
  }

  /** What a successful run from the draws rd returns: init is the population
      generated member by member from the initial draws, the trace holds the
      least fitness of every generation evolved from it, and the result is the
      head of the ranking of the first generation whose fitness is the least of
      the trace, a dense binary schedule of that fitness. */
  predicate RunOutcome(svc: Service, rd: RunDraws, init: seq<Schedule>, res: RunResult)
    requires ValidRunDraws(svc, rd)
  {
    && !SampleFails(svc)
    && |init| == |rd.initial|
    && (forall k :: 0 <= k < |init| ==> InitialMember(svc, init[k]) && GeneratedFrom(svc, rd.initial[k], init[k]))
    && RunInputs(svc, init, rd.generations)
    && |res.trace| == |rd.generations| == svc.params.generations > 0
    && res.trace == Trace(svc, init, rd.generations, |rd.generations|)
    && res.best == RankByFitness(svc, Population(svc, init, rd.generations, ArgMin(res.trace)))[0]
    && Fitness(svc, res.best) == Min(res.trace)
    && Dense(res.best, |svc.employees|) && Binary(res.best)
  }

  /** otimizar: draw the initial population, evolve it, and return the recorded
      head of least fitness, the first of them on ties. init is the initial
      population drawn. */
  method Optimize(svc: Service, rd: RunDraws) returns (r: Result<RunResult, EngineError>, ghost init: seq<Schedule>)
    requires ValidParams(svc.params) && ValidRunDraws(svc, rd)
    ensures r.Failure? <==> SampleFails(svc)
    ensures r.Failure? ==> r.error == SampleLargerThanPopulation
    ensures r.Success? ==> RunOutcome(svc, rd, init, r.value)
  {
    init := [];
    var first := InitialPopulation(svc, rd.initial);
    if first.Failure? {
      return Failure(first.error), init;
    }
    var pop := first.value;
    init := pop;
    var draws := rd.generations;
    assert RunInputs(svc, pop, draws);
    var bests, trace := Evolve(svc, pop, draws);
    OptimizeResult(svc, init, draws, |draws|);
    var best := bests[ArgMin(Fitnesses(svc, bests))];
    r := Success(RunResult(best, trace));
  }

  /** The choice of the best among the recorded heads. */
  lemma OptimizeResult(svc: Service, init: seq<Schedule>, draws: seq<seq<ChildDraw>>, g: nat)
    requires RunInputs(svc, init, draws) && 0 < g <= |draws| && BinaryPopulation(init)
    ensures DensePopulation(svc, Heads(svc, init, draws, g))
    ensures var bests := Heads(svc, init, draws, g);
            var trace := Trace(svc, init, draws, g);
            var best := bests[ArgMin(Fitnesses(svc, bests))];
            && Fitnesses(svc, bests) == trace
            && best == RankByFitness(svc, Population(svc, init, draws, ArgMin(trace)))[0]
            && Fitness(svc, best) == Min(trace)
            && Dense(best, |svc.employees|) && Binary(best)
  {
    var bests := Heads(svc, init, draws, g);
    var trace := Trace(svc, init, draws, g);
    forall j | 0 <= j < g
      ensures Dense(bests[j], |svc.employees|) && Binary(bests[j]) && Fitness(svc, bests[j]) == trace[j]
      ensures bests[j] == RankByFitness(svc, Population(svc, init, draws, j))[0]
    {
      HeadsAt(svc, init, draws, g, j);
      GenerationHead(svc, init, draws, j);
      TraceAt(svc, init, draws, g, j);
    }
    assert DensePopulation(svc, bests);
    FitnessesSpec(svc, bests);
    assert Fitnesses(svc, bests) == trace;
  }
}
