/** Ranking a population by fitness: Python's min with a key (the first element of
    least key) and the stable sorted with a key, as the optimiser uses them
    (api/app/services/genetic_algorithm.py:76, 124, 145). */
module Ranking {
  import opened ScheduleModel
  import opened Checker
  import opened Config

  /** Index of the first least key, as a left-to-right scan that replaces its
      candidate only on a strictly smaller key finds it. */
  function ArgMin(keys: seq<int>): (r: nat)
    requires |keys| > 0
    ensures r < |keys|
    ensures forall j :: 0 <= j < |keys| ==> keys[r] <= keys[j]
    ensures forall j :: 0 <= j < r ==> keys[r] < keys[j]
  {
    if |keys| == 1 then 0
    else
      var r := ArgMin(keys[..|keys| - 1]);
      if keys[|keys| - 1] < keys[r] then |keys| - 1 else r
  }

  /** The two properties of ArgMin determine it. */
  lemma ArgMinUnique(keys: seq<int>, r: nat)
    requires r < |keys|
    requires forall j :: 0 <= j < |keys| ==> keys[r] <= keys[j]
    requires forall j :: 0 <= j < r ==> keys[r] < keys[j]
    ensures ArgMin(keys) == r
  {
    var a := ArgMin(keys);
    assert !(a < r) && !(r < a);
  }

  /** The least key. */
  function Min(keys: seq<int>): (m: int)
    requires |keys| > 0
    ensures m in keys
    ensures forall j :: 0 <= j < |keys| ==> m <= keys[j]
  {
    keys[ArgMin(keys)]
  }

  /** Every member of the population is a dense schedule for the service's employees. */
  predicate DensePopulation(svc: Service, pop: seq<Schedule>) {
    forall i {:trigger Dense(pop[i], |svc.employees|)} :: 0 <= i < |pop| ==> Dense(pop[i], |svc.employees|)
  }

  /** The fitness of every member, in population order. */
  function Fitnesses(svc: Service, pop: seq<Schedule>): (fs: seq<nat>)
    requires DensePopulation(svc, pop)
    ensures |fs| == |pop|
  {
    if pop == [] then [] else [Fitness(svc, pop[0])] + Fitnesses(svc, pop[1..])
  }

  /** Entry i of the fitnesses is the fitness of member i. */
  lemma {:induction false} FitnessesSpec(svc: Service, pop: seq<Schedule>)
    requires DensePopulation(svc, pop)
    ensures forall i :: 0 <= i < |pop| ==> Fitnesses(svc, pop)[i] == Fitness(svc, pop[i])
  {
    if pop != [] {
      var tail := pop[1..];
      FitnessesSpec(svc, tail);
      assert Fitnesses(svc, pop) == [Fitness(svc, pop[0])] + Fitnesses(svc, tail);
      forall i | 1 <= i < |pop| ensures Fitnesses(svc, pop)[i] == Fitness(svc, pop[i]) {
        assert pop[i] == tail[i - 1];
      }
    }
  }

  /** The least fitness in a non-empty population. */
  function MinFitness(svc: Service, pop: seq<Schedule>): (m: nat)
    requires DensePopulation(svc, pop) && |pop| > 0
    ensures forall i {:trigger Fitness(svc, pop[i])} :: 0 <= i < |pop| ==> m <= Fitness(svc, pop[i])
    ensures exists i :: 0 <= i < |pop| && m == Fitness(svc, pop[i])
  {
    var fs := Fitnesses(svc, pop);
    var a := ArgMin(fs);
    FitnessesSpec(svc, pop);
    fs[a]
  }

  predicate SortedByFitness(svc: Service, pop: seq<Schedule>)
    requires DensePopulation(svc, pop)
  {
    forall a, b {:trigger Fitness(svc, pop[a]), Fitness(svc, pop[b])} :: 0 <= a < b < |pop| ==> Fitness(svc, pop[a]) <= Fitness(svc, pop[b])
  }

  /** Inserts x before the first member whose fitness is not below x's. */
  function InsertByFitness(svc: Service, x: Schedule, ys: seq<Schedule>): (r: seq<Schedule>)
    requires Dense(x, |svc.employees|) && DensePopulation(svc, ys)
    ensures |r| == |ys| + 1 && DensePopulation(svc, r)
  {
    if ys == [] || Fitness(svc, x) <= Fitness(svc, ys[0]) then [x] + ys
    else [ys[0]] + InsertByFitness(svc, x, ys[1..])
  }

  /** sorted(population, key=fitness), a stable sort: the population sorted by
      insertion, each member going in front of the later members of equal
      fitness. RankingSpec states what it is, RankStable that it is stable. */
  function RankByFitness(svc: Service, pop: seq<Schedule>): (r: seq<Schedule>)
    requires DensePopulation(svc, pop)
    ensures |r| == |pop| && DensePopulation(svc, r)
  {
    if pop == [] then [] else InsertByFitness(svc, pop[0], RankByFitness(svc, pop[1..]))
  }

  /** Inserting adds exactly the inserted member. */
  lemma {:induction false} InsertPermutes(svc: Service, x: Schedule, ys: seq<Schedule>)
    requires Dense(x, |svc.employees|) && DensePopulation(svc, ys)
    ensures multiset(InsertByFitness(svc, x, ys)) == multiset(ys) + multiset{x}
  {
    if !(ys == [] || Fitness(svc, x) <= Fitness(svc, ys[0])) {
      assert ys == [ys[0]] + ys[1..];
      InsertPermutes(svc, x, ys[1..]);
    }
  }

  /** A lower bound on the fitness of x and of every member of ys bounds the
      result of the insertion. */
  lemma {:induction false} InsertLowerBound(svc: Service, x: Schedule, ys: seq<Schedule>, lo: int)
    requires Dense(x, |svc.employees|) && DensePopulation(svc, ys)
    requires lo <= Fitness(svc, x) && forall i :: 0 <= i < |ys| ==> lo <= Fitness(svc, ys[i])
    ensures forall i :: 0 <= i <= |ys| ==> lo <= Fitness(svc, InsertByFitness(svc, x, ys)[i])
  {
    if !(ys == [] || Fitness(svc, x) <= Fitness(svc, ys[0])) {
      var tail := ys[1..];
      assert forall i :: 0 <= i < |tail| ==> tail[i] == ys[i + 1];
      InsertLowerBound(svc, x, tail, lo);
      var r := [ys[0]] + InsertByFitness(svc, x, tail);
      forall i | 0 <= i < |r| ensures lo <= Fitness(svc, r[i]) {
        if i > 0 {
          assert r[i] == InsertByFitness(svc, x, tail)[i - 1];
        }
      }
    }
  }

  /** Inserting into a sorted population keeps it sorted. */
  lemma {:induction false} InsertSorted(svc: Service, x: Schedule, ys: seq<Schedule>)
    requires Dense(x, |svc.employees|) && DensePopulation(svc, ys) && SortedByFitness(svc, ys)
    ensures SortedByFitness(svc, InsertByFitness(svc, x, ys))
  {
    if !(ys == [] || Fitness(svc, x) <= Fitness(svc, ys[0])) {
      var tail := ys[1..];
      var r := InsertByFitness(svc, x, tail);
      assert forall i :: 0 <= i < |tail| ==> tail[i] == ys[i + 1];
      InsertSorted(svc, x, tail);
      InsertLowerBound(svc, x, tail, Fitness(svc, ys[0]));
      var all := [ys[0]] + r;
      forall a, b | 0 <= a < b < |all| ensures Fitness(svc, all[a]) <= Fitness(svc, all[b]) {
        assert all[b] == r[b - 1];
        if a > 0 {
          assert all[a] == r[a - 1];
          assert Fitness(svc, r[a - 1]) <= Fitness(svc, r[b - 1]);
        } else {
          assert all[0] == ys[0];
          assert Fitness(svc, ys[0]) <= Fitness(svc, r[b - 1]);
        }
      }
    }
  }

  /** The ranking is a permutation of the population. */
  lemma {:induction false} RankPermutes(svc: Service, pop: seq<Schedule>)
    requires DensePopulation(svc, pop)
    ensures multiset(RankByFitness(svc, pop)) == multiset(pop)
  {
    if pop != [] {
      assert pop == [pop[0]] + pop[1..];
      RankPermutes(svc, pop[1..]);
      InsertPermutes(svc, pop[0], RankByFitness(svc, pop[1..]));
    }
  }

  /** The ranking is in non-decreasing fitness. */
  lemma {:induction false} RankSorted(svc: Service, pop: seq<Schedule>)
    requires DensePopulation(svc, pop)
    ensures SortedByFitness(svc, RankByFitness(svc, pop))
  {
    if pop != [] {
      RankSorted(svc, pop[1..]);
      InsertSorted(svc, pop[0], RankByFitness(svc, pop[1..]));
    }
  }

  /** The head of the ranking is the first member of least fitness, as its
      position m in the population shows. */
  lemma {:induction false} RankHeadIndex(svc: Service, pop: seq<Schedule>) returns (m: nat)
    requires DensePopulation(svc, pop) && |pop| > 0
    ensures m < |pop| && RankByFitness(svc, pop)[0] == pop[m]
    ensures forall j :: 0 <= j < |pop| ==> Fitness(svc, pop[m]) <= Fitness(svc, pop[j])
    ensures forall j :: 0 <= j < m ==> Fitness(svc, pop[m]) < Fitness(svc, pop[j])
  {
    var tail := pop[1..];
    var rest := RankByFitness(svc, tail);
    assert RankByFitness(svc, pop) == InsertByFitness(svc, pop[0], rest);
    if rest == [] {
      m := 0;
    } else {
      var a := RankHeadIndex(svc, tail);
      if Fitness(svc, pop[0]) <= Fitness(svc, rest[0]) {
        m := 0;
        forall j | 1 <= j < |pop| ensures Fitness(svc, pop[0]) <= Fitness(svc, pop[j]) {
          assert pop[j] == tail[j - 1];
        }
      } else {
        m := a + 1;
        forall j | 1 <= j < |pop| ensures Fitness(svc, pop[m]) <= Fitness(svc, pop[j]) {
          assert pop[j] == tail[j - 1];
        }
        forall j | 1 <= j < m ensures Fitness(svc, pop[m]) < Fitness(svc, pop[j]) {
          assert pop[j] == tail[j - 1];
        }
      }
    }
  }

  /** The head of the ranking is the member Python's min with the same key picks. */
  lemma RankHead(svc: Service, pop: seq<Schedule>)
    requires DensePopulation(svc, pop)
    ensures |pop| > 0 ==> RankByFitness(svc, pop)[0] == pop[ArgMin(Fitnesses(svc, pop))]
  {
    if |pop| > 0 {
      var m := RankHeadIndex(svc, pop);
      FitnessesSpec(svc, pop);
      ArgMinUnique(Fitnesses(svc, pop), m);
    }
  }

  /** The members of fitness f, in population order. */
  function WithFitness(svc: Service, pop: seq<Schedule>, f: nat): seq<Schedule>
    requires DensePopulation(svc, pop)
  {
    if pop == [] then []
    else (if Fitness(svc, pop[0]) == f then [pop[0]] else []) + WithFitness(svc, pop[1..], f)
  }

  /** WithFitness keeps exactly the members of fitness f: no others, and each of
      them as often as the population holds it. */
  lemma {:induction false} WithFitnessSpec(svc: Service, pop: seq<Schedule>, f: nat)
    requires DensePopulation(svc, pop)
    ensures var r := WithFitness(svc, pop, f);
            && DensePopulation(svc, r)
            && (forall i :: 0 <= i < |r| ==> Fitness(svc, r[i]) == f)
            && (forall x :: x in pop && Dense(x, |svc.employees|) && Fitness(svc, x) == f ==> multiset(r)[x] == multiset(pop)[x])
            && multiset(r) <= multiset(pop)
  {
    if pop != [] {
      assert pop == [pop[0]] + pop[1..];
      WithFitnessSpec(svc, pop[1..], f);
    }
  }

  /** Inserting x places it in front of the members of its own fitness and keeps
      every other fitness class as it was: each member x passes has a strictly
      smaller fitness. */
  lemma {:induction false} InsertStable(svc: Service, x: Schedule, ys: seq<Schedule>, f: nat)
    requires Dense(x, |svc.employees|) && DensePopulation(svc, ys)
    ensures WithFitness(svc, InsertByFitness(svc, x, ys), f)
              == (if Fitness(svc, x) == f then [x] else []) + WithFitness(svc, ys, f)
  {
    var r := InsertByFitness(svc, x, ys);
    var own := if Fitness(svc, x) == f then [x] else [];
    if ys == [] || Fitness(svc, x) <= Fitness(svc, ys[0]) {
      assert r[0] == x && r[1..] == ys;
    } else {
      var rest := InsertByFitness(svc, x, ys[1..]);
      var first := if Fitness(svc, ys[0]) == f then [ys[0]] else [];
      assert r[0] == ys[0] && r[1..] == rest;
      assert WithFitness(svc, r, f) == first + WithFitness(svc, rest, f);
      InsertStable(svc, x, ys[1..], f);
      assert WithFitness(svc, ys, f) == first + WithFitness(svc, ys[1..], f);
      assert first == [] || own == [];
    }
  }

  /** sorted is stable: the members of each fitness keep their population order. */
  lemma {:induction false} RankStable(svc: Service, pop: seq<Schedule>, f: nat)
    requires DensePopulation(svc, pop)
    ensures WithFitness(svc, RankByFitness(svc, pop), f) == WithFitness(svc, pop, f)
  {
    if pop != [] {
      RankStable(svc, pop[1..], f);
      InsertStable(svc, pop[0], RankByFitness(svc, pop[1..]), f);
    }
  }

  /** The ranking is a permutation of the population in non-decreasing fitness,
      headed by the first member of least fitness, in which the members of each
      fitness keep their population order. */
  lemma RankingSpec(svc: Service, pop: seq<Schedule>)
    requires DensePopulation(svc, pop)
    ensures multiset(RankByFitness(svc, pop)) == multiset(pop)
    ensures SortedByFitness(svc, RankByFitness(svc, pop))
    ensures |pop| > 0 ==> RankByFitness(svc, pop)[0] == pop[ArgMin(Fitnesses(svc, pop))]
    ensures forall f: nat :: WithFitness(svc, RankByFitness(svc, pop), f) == WithFitness(svc, pop, f)
  {
    RankPermutes(svc, pop);
    RankSorted(svc, pop);
    RankHead(svc, pop);
    forall f: nat ensures WithFitness(svc, RankByFitness(svc, pop), f) == WithFitness(svc, pop, f) {
      RankStable(svc, pop, f);
    }
  }

  /** The head of the ranking is a member of least fitness. */
  lemma RankHeadFitness(svc: Service, pop: seq<Schedule>)
    requires DensePopulation(svc, pop) && |pop| > 0
    ensures RankByFitness(svc, pop)[0] == pop[ArgMin(Fitnesses(svc, pop))]
    ensures Fitness(svc, RankByFitness(svc, pop)[0]) == MinFitness(svc, pop)
  {
    RankHead(svc, pop);
    FitnessesSpec(svc, pop);
  }
}
