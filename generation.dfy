/** One generation of the optimiser (api/app/services/genetic_algorithm.py:120-142):
    rank the population, keep its head when elitism is on, and fill the rest of the
    new population with mutated children of tournament winners. */
module Generation {
  import opened Wrappers
  import opened Config
  import opened ScheduleModel
  import opened Checker
  import opened Ranking
  import opened Operators

  /** The draws that make one child: two tournaments, the crossover coins and
      the mutation draws. */
  datatype ChildDraw = ChildDraw(tournaments: seq<seq<nat>>, coins: seq<seq<seq<bool>>>, mutation: seq<Option<Cell>>)

  predicate ValidChildDraw(svc: Service, size: nat, cd: ChildDraw) {
    && |cd.tournaments| == 2 && ValidTournaments(size, cd.tournaments)
    && CoinsFit(cd.coins, |svc.employees|)
    && ValidPicks(cd.mutation, |svc.employees|)
  }

  /** One child draw per place of the new population; the first is unused when
      elitism keeps that place for the best of the old one. */
  predicate ValidGenerationDraw(svc: Service, gdraw: seq<ChildDraw>) {
    |gdraw| == svc.params.popSize && forall j :: 0 <= j < |gdraw| ==> ValidChildDraw(svc, |gdraw|, gdraw[j])
  }

  /** A child: the tournament winners of the ranked population, crossed and
      then mutated. */
  function Offspring(svc: Service, ranked: seq<Schedule>, cd: ChildDraw): (c: Schedule)
    requires DensePopulation(svc, ranked) && ValidChildDraw(svc, |ranked|, cd)
    ensures Dense(c, |svc.employees|)
  {
    var p1 := TournamentWinner(svc, ranked, cd.tournaments[0]);
    var p2 := TournamentWinner(svc, ranked, cd.tournaments[1]);
    Mutated(Mix(p1, p2, cd.coins), cd.mutation)
  }

  /** Children of binary parents are binary. */
  lemma OffspringBinary(svc: Service, ranked: seq<Schedule>, cd: ChildDraw)
    requires DensePopulation(svc, ranked) && ValidChildDraw(svc, |ranked|, cd)
    requires BinaryPopulation(ranked)
    ensures Binary(Offspring(svc, ranked, cd))
  {
    var p1 := TournamentWinner(svc, ranked, cd.tournaments[0]);
    var p2 := TournamentWinner(svc, ranked, cd.tournaments[1]);
    MixFromParents(p1, p2, cd.coins);
    MutationInvolution(Mix(p1, p2, cd.coins), cd.mutation);
  }

  /** Place j of the new population. */
  function NewMember(svc: Service, ranked: seq<Schedule>, gdraw: seq<ChildDraw>, j: nat): (m: Schedule)
    requires DensePopulation(svc, ranked) && |ranked| == |gdraw| && ValidGenerationDraw(svc, gdraw) && j < |gdraw|
    ensures Dense(m, |svc.employees|)
  {
    if j == 0 && svc.params.elitism then ranked[0] else Offspring(svc, ranked, gdraw[j])
  }

  /** Every place of the new population of a binary ranking is binary. */
  lemma NewMemberBinary(svc: Service, ranked: seq<Schedule>, gdraw: seq<ChildDraw>, j: nat)
    requires DensePopulation(svc, ranked) && |ranked| == |gdraw| && ValidGenerationDraw(svc, gdraw) && j < |gdraw|
    requires BinaryPopulation(ranked)
    ensures Binary(NewMember(svc, ranked, gdraw, j))
  {
    if !(j == 0 && svc.params.elitism) {
      OffspringBinary(svc, ranked, gdraw[j]);
    }
  }

  /** The new population, place by place. */
  function NewPopulation(svc: Service, ranked: seq<Schedule>, gdraw: seq<ChildDraw>): (r: seq<Schedule>)
    requires DensePopulation(svc, ranked) && |ranked| == |gdraw| && ValidGenerationDraw(svc, gdraw)
    ensures |r| == |gdraw|
  {
    seq(|gdraw|, j requires 0 <= j < |gdraw| => NewMember(svc, ranked, gdraw, j))
  }

  /** A place the elite does not take holds the child bred for it. */
  lemma ChildAt(svc: Service, ranked: seq<Schedule>, gdraw: seq<ChildDraw>, j: nat)
    requires DensePopulation(svc, ranked) && |ranked| == |gdraw| && ValidGenerationDraw(svc, gdraw)
    requires j < |gdraw| && !(j == 0 && svc.params.elitism)
    ensures NewPopulation(svc, ranked, gdraw)[j] == Offspring(svc, ranked, gdraw[j])
  {
  }

  lemma PrefixExtend<T>(target: seq<T>, k: nat, x: T)
    requires k < |target| && target[k] == x
    ensures target[..k] + [x] == target[..k + 1]
  {
  }

  predicate BinaryPopulation(pop: seq<Schedule>) {
    forall i {:trigger Binary(pop[i])} :: 0 <= i < |pop| ==> Binary(pop[i])
  }

  /** One child of the loop body: select the parents, cross them, mutate the
      child in place. */
  method MakeChild(svc: Service, ranked: seq<Schedule>, cd: ChildDraw) returns (child: Schedule)
    requires DensePopulation(svc, ranked) && ValidChildDraw(svc, |ranked|, cd)
    ensures child == Offspring(svc, ranked, cd)
  {
    var parents := SelectParents(svc, ranked, cd.tournaments);
    var arr := Crossover(parents.value[0], parents.value[1], cd.coins);
    arr := Mutate(svc, arr, cd.mutation);
    child := arr[..];
  }

  /** The new population: the elite first when elitism is on, then children of
      the ranked population until it is full. */
  method Breed(svc: Service, ranked: seq<Schedule>, gdraw: seq<ChildDraw>) returns (next: seq<Schedule>)
    requires DensePopulation(svc, ranked) && |ranked| == svc.params.popSize > 0
    requires ValidGenerationDraw(svc, gdraw)
    ensures next == NewPopulation(svc, ranked, gdraw)
  {
    next := [];
    if svc.params.elitism {
      next := next + [ranked[0]];
      assert next == NewPopulation(svc, ranked, gdraw)[..1];
    }
    while |next| < svc.params.popSize
      invariant |next| <= |ranked|
      invariant svc.params.elitism ==> |next| >= 1
      invariant next == NewPopulation(svc, ranked, gdraw)[..|next|]
      decreases |ranked| - |next|
    {
      var child := MakeChild(svc, ranked, gdraw[|next|]);
      ChildAt(svc, ranked, gdraw, |next|);
      PrefixExtend(NewPopulation(svc, ranked, gdraw), |next|, child);
      next := next + [child];
    }
  }

  /** One generation: ranks the population by fitness and breeds the next one
      from the ranking. */
  method NextGeneration(svc: Service, pop: seq<Schedule>, gdraw: seq<ChildDraw>) returns (next: seq<Schedule>, ranked: seq<Schedule>)
    requires DensePopulation(svc, pop) && |pop| == svc.params.popSize > 0
    requires ValidGenerationDraw(svc, gdraw)
    ensures ranked == RankByFitness(svc, pop)
    ensures next == NewPopulation(svc, ranked, gdraw)
  {
    ranked := RankByFitness(svc, pop);
    next := Breed(svc, ranked, gdraw);
  }

  /** Ranking keeps a population binary. */
  lemma RankedBinary(svc: Service, pop: seq<Schedule>)
    requires DensePopulation(svc, pop) && BinaryPopulation(pop)
    ensures BinaryPopulation(RankByFitness(svc, pop))
  {
    var ranked := RankByFitness(svc, pop);
    RankingSpec(svc, pop);
    forall i | 0 <= i < |ranked| ensures Binary(ranked[i]) {
      assert ranked[i] in multiset(ranked);
      assert ranked[i] in multiset(pop);
      var j :| 0 <= j < |pop| && pop[j] == ranked[i];
    }
  }

  /** Every member of the new population is dense, and binary when the ranked
      population is. */
  lemma NewPopulationShape(svc: Service, ranked: seq<Schedule>, gdraw: seq<ChildDraw>)
    requires DensePopulation(svc, ranked) && |ranked| == |gdraw| && ValidGenerationDraw(svc, gdraw)
    ensures DensePopulation(svc, NewPopulation(svc, ranked, gdraw))
    ensures BinaryPopulation(ranked) ==> BinaryPopulation(NewPopulation(svc, ranked, gdraw))
  {
    var next := NewPopulation(svc, ranked, gdraw);
    forall j | 0 <= j < |next|
      ensures Dense(next[j], |svc.employees|)
      ensures BinaryPopulation(ranked) ==> Binary(next[j])
    {
      if BinaryPopulation(ranked) {
        NewMemberBinary(svc, ranked, gdraw, j);
      }
    }
  }
}
