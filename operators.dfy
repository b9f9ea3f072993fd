/** The three genetic operators of the optimiser: tournament selection
    (api/app/services/genetic_algorithm.py:71-78), uniform crossover (:80-95) and
    per-employee mutation (:97-107). Every random draw is an explicit argument. */
module Operators {
  import opened Wrappers
  import opened Constants
  import opened Config
  import opened ScheduleModel
  import opened Checker
  import opened Ranking

  // ---------------------------------------------------------------- selection

  /** What random.sample(population, 3) returns, as positions: three distinct
      members of the population. */
  predicate ValidTournament(size: nat, draw: seq<nat>) {
    && |draw| == 3
    && (forall j :: 0 <= j < 3 ==> draw[j] < size)
    && draw[0] != draw[1] && draw[0] != draw[2] && draw[1] != draw[2]
  }

  /** w wins the tournament: it is the entrant of least fitness, and the first
      drawn of those when several share it. */
  predicate WinsTournament(svc: Service, pop: seq<Schedule>, draw: seq<nat>, w: Schedule)
    requires DensePopulation(svc, pop) && ValidTournament(|pop|, draw)
  {
    exists k :: 0 <= k < 3 && w == pop[draw[k]]
      && (forall j :: 0 <= j < 3 ==> Fitness(svc, w) <= Fitness(svc, pop[draw[j]]))
      && (forall j :: 0 <= j < k ==> Fitness(svc, w) < Fitness(svc, pop[draw[j]]))
  }

  /** Position, in draw order, of the winner among the first k + 1 entrants,
      given the fitness of every member: min scans left to right and keeps its
      candidate unless a later entrant is strictly better. */
  function BestEntrant(fs: seq<nat>, draw: seq<nat>, k: nat): (b: nat)
    requires ValidTournament(|fs|, draw) && k < 3
    ensures b <= k
  {
    if k == 0 then 0
    else
      var b := BestEntrant(fs, draw, k - 1);
      if fs[draw[k]] < fs[draw[b]] then k else b
  }

  /** The scan keeps an entrant of least key, the first drawn of those. */
  lemma {:induction false} BestEntrantSpec(fs: seq<nat>, draw: seq<nat>, k: nat)
    requires ValidTournament(|fs|, draw) && k < 3
    ensures var b := BestEntrant(fs, draw, k);
            && (forall j :: 0 <= j <= k ==> fs[draw[b]] <= fs[draw[j]])
            && (forall j :: 0 <= j < b ==> fs[draw[b]] < fs[draw[j]])
  {
    if k > 0 {
      BestEntrantSpec(fs, draw, k - 1);
    }
  }

  /** min(torneio, key=avaliar_individuo). The key of an entrant is its fitness,
      read from the fitnesses of the population. */
  function TournamentWinner(svc: Service, pop: seq<Schedule>, draw: seq<nat>): (w: Schedule)
    requires DensePopulation(svc, pop) && ValidTournament(|pop|, draw)
    ensures Dense(w, |svc.employees|)
  {
    pop[draw[BestEntrant(Fitnesses(svc, pop), draw, 2)]]
  }

  /** The winner is the first drawn entrant of least fitness. */
  lemma TournamentWinnerWins(svc: Service, pop: seq<Schedule>, draw: seq<nat>)
    requires DensePopulation(svc, pop) && ValidTournament(|pop|, draw)
    ensures WinsTournament(svc, pop, draw, TournamentWinner(svc, pop, draw))
  {
    FitnessesSpec(svc, pop);
    BestEntrantSpec(Fitnesses(svc, pop), draw, 2);
    assert forall j :: 0 <= j < 3 ==> Fitnesses(svc, pop)[draw[j]] == Fitness(svc, pop[draw[j]]);
  }

  /** The winner is determined: only one schedule wins a given tournament. */
  lemma WinnerDetermined(svc: Service, pop: seq<Schedule>, draw: seq<nat>, w: Schedule)
    requires DensePopulation(svc, pop) && ValidTournament(|pop|, draw)
    requires WinsTournament(svc, pop, draw, w)
    ensures w == TournamentWinner(svc, pop, draw)
  {
    FitnessesSpec(svc, pop);
    var fs := Fitnesses(svc, pop);
    BestEntrantSpec(fs, draw, 2);
    assert forall j :: 0 <= j < 3 ==> fs[draw[j]] == Fitness(svc, pop[draw[j]]);
    var k :| 0 <= k < 3 && w == pop[draw[k]]
      && (forall j :: 0 <= j < 3 ==> Fitness(svc, w) <= Fitness(svc, pop[draw[j]]))
      && (forall j :: 0 <= j < k ==> Fitness(svc, w) < Fitness(svc, pop[draw[j]]));
  }

  /** Every draw is a valid tournament of the population. */
  predicate ValidTournaments(size: nat, draws: seq<seq<nat>>) {
    forall k :: 0 <= k < |draws| ==> ValidTournament(size, draws[k])
  }

  /** The winners of the first k tournaments, in order. */
  function Winners(svc: Service, pop: seq<Schedule>, draws: seq<seq<nat>>, k: nat): (ws: seq<Schedule>)
    requires DensePopulation(svc, pop) && ValidTournaments(|pop|, draws) && k <= |draws|
    ensures |ws| == k
  {
    if k == 0 then [] else Winners(svc, pop, draws, k - 1) + [TournamentWinner(svc, pop, draws[k - 1])]
  }

  lemma WinnersOfTwo(svc: Service, pop: seq<Schedule>, draws: seq<seq<nat>>)
    requires DensePopulation(svc, pop) && ValidTournaments(|pop|, draws) && |draws| == 2
    ensures Winners(svc, pop, draws, 2) == [TournamentWinner(svc, pop, draws[0]), TournamentWinner(svc, pop, draws[1])]
  {
  }

  /** selecionar_pais: two tournaments, one parent each. random.sample raises
      when the population has fewer than three members. */
  method SelectParents(svc: Service, pop: seq<Schedule>, draws: seq<seq<nat>>) returns (r: Option<seq<Schedule>>)
    requires DensePopulation(svc, pop)
    requires |pop| >= 3 ==> |draws| == 2 && ValidTournaments(|pop|, draws)
    ensures r.None? <==> |pop| < 3
    ensures r.Some? ==> |r.value| == 2
    ensures r.Some? ==> r.value[0] == TournamentWinner(svc, pop, draws[0])
    ensures r.Some? ==> r.value[1] == TournamentWinner(svc, pop, draws[1])
  {
    var parents: seq<Schedule> := [];
    for k := 0 to 2
      invariant k == 0 ==> parents == []
      invariant k > 0 ==> |pop| >= 3 && parents == Winners(svc, pop, draws, k)
    {
      if |pop| < 3 {
        return None;
      }
      parents := parents + [TournamentWinner(svc, pop, draws[k])];
    }
    WinnersOfTwo(svc, pop, draws);
    return Some(parents);
  }

  // ---------------------------------------------------------------- crossover

  /** One coin per day and shift of an employee: true takes the cell from the
      first parent (random.random() < 0.5), false from the second. */
  predicate CoinRow(coins: seq<seq<bool>>) {
    |coins| == NUM_DAYS && forall d :: 0 <= d < NUM_DAYS ==> |coins[d]| == NUM_SHIFTS
  }

  predicate CoinsFit(coins: seq<seq<seq<bool>>>, n: nat) {
    |coins| == n && forall i :: 0 <= i < n ==> CoinRow(coins[i])
  }

  /** One employee's row of the child: each cell from the parent its coin names. */
  function MixRow(r1: Row, r2: Row, coins: seq<seq<bool>>): (r: Row)
    requires DenseRow(r1) && DenseRow(r2) && CoinRow(coins)
    ensures DenseRow(r)
  {
    seq(NUM_DAYS, d requires 0 <= d < NUM_DAYS =>
      seq(NUM_SHIFTS, t requires 0 <= t < NUM_SHIFTS =>
        if coins[d][t] then r1[d][t] else r2[d][t]))
  }

  /** The rows of the first k employees of the child. */
  function MixUpTo(p1: Schedule, p2: Schedule, coins: seq<seq<seq<bool>>>, k: nat): (c: Schedule)
    requires Dense(p1, |p1|) && Dense(p2, |p1|) && CoinsFit(coins, |p1|) && k <= |p1|
    ensures Dense(c, k)
  {
    if k == 0 then [] else MixUpTo(p1, p2, coins, k - 1) + [MixRow(p1[k - 1], p2[k - 1], coins[k - 1])]
  }

  /** The child of a uniform crossover. */
  function Mix(p1: Schedule, p2: Schedule, coins: seq<seq<seq<bool>>>): (c: Schedule)
    requires Dense(p1, |p1|) && Dense(p2, |p1|) && CoinsFit(coins, |p1|)
    ensures Dense(c, |p1|)
  {
    MixUpTo(p1, p2, coins, |p1|)
  }

  lemma {:induction false} MixUpToAt(p1: Schedule, p2: Schedule, coins: seq<seq<seq<bool>>>, k: nat, i: nat)
    requires Dense(p1, |p1|) && Dense(p2, |p1|) && CoinsFit(coins, |p1|) && i < k <= |p1|
    ensures MixUpTo(p1, p2, coins, k)[i] == MixRow(p1[i], p2[i], coins[i])
  {
    var prev := MixUpTo(p1, p2, coins, k - 1);
    assert MixUpTo(p1, p2, coins, k) == prev + [MixRow(p1[k - 1], p2[k - 1], coins[k - 1])];
    if i < k - 1 {
      MixUpToAt(p1, p2, coins, k - 1, i);
    }
  }

  /** Every cell of the child is the cell of the parent its coin names. */
  lemma MixCells(p1: Schedule, p2: Schedule, coins: seq<seq<seq<bool>>>)
    requires Dense(p1, |p1|) && Dense(p2, |p1|) && CoinsFit(coins, |p1|)
    ensures forall i, d, t :: 0 <= i < |p1| && 0 <= d < NUM_DAYS && 0 <= t < NUM_SHIFTS ==>
              Mix(p1, p2, coins)[i][d][t] == (if coins[i][d][t] then p1 else p2)[i][d][t]
  {
    forall i | 0 <= i < |p1| ensures Mix(p1, p2, coins)[i] == MixRow(p1[i], p2[i], coins[i]) {
      MixUpToAt(p1, p2, coins, |p1|, i);
    }
  }

  /** cruzar_pais: builds the child employee by employee, day by day, shift by
      shift, copying each cell from the parent its coin chooses. */
  method Crossover(p1: Schedule, p2: Schedule, coins: seq<seq<seq<bool>>>) returns (child: array<Row>)
    requires Dense(p1, |p1|) && Dense(p2, |p1|) && CoinsFit(coins, |p1|)
    ensures fresh(child)
    ensures child[..] == Mix(p1, p2, coins)
  {
    child := new Row[|p1|](_ => []);
    for i := 0 to |p1|
      invariant child[..i] == MixUpTo(p1, p2, coins, i)
    {
      ghost var m := MixRow(p1[i], p2[i], coins[i]);
      var row: Row := [];
      for d := 0 to NUM_DAYS
        invariant row == m[..d]
      {
        var day: seq<int> := [];
        for t := 0 to NUM_SHIFTS
          invariant day == m[d][..t]
        {
          var chosen := if coins[i][d][t] then p1 else p2;
          day := day + [chosen[i][d][t]];
        }
        assert day == m[d];
        row := row + [day];
      }
      assert row == m;
      child[i] := row;
      assert child[..i + 1] == child[..i] + [row];
    }
    assert child[..] == child[..|p1|];
  }

  /** Every cell of the child comes from one of the parents; two binary parents
      give a binary child. */
  lemma MixFromParents(p1: Schedule, p2: Schedule, coins: seq<seq<seq<bool>>>)
    requires Dense(p1, |p1|) && Dense(p2, |p1|) && CoinsFit(coins, |p1|)
    ensures forall i, d, t :: 0 <= i < |p1| && 0 <= d < NUM_DAYS && 0 <= t < NUM_SHIFTS ==>
              Mix(p1, p2, coins)[i][d][t] in {p1[i][d][t], p2[i][d][t]}
    ensures Binary(p1) && Binary(p2) ==> Binary(Mix(p1, p2, coins))
  {
    MixCells(p1, p2, coins);
  }

  /** Crossing a schedule with itself gives it back, whatever the coins. */
  lemma MixSelf(p: Schedule, coins: seq<seq<seq<bool>>>)
    requires Dense(p, |p|) && CoinsFit(coins, |p|)
    ensures Mix(p, p, coins) == p
  {
    var c := Mix(p, p, coins);
    MixCells(p, p, coins);
    forall i | 0 <= i < |p| ensures c[i] == p[i] {
      forall d | 0 <= d < NUM_DAYS ensures c[i][d] == p[i][d] {
        assert |c[i][d]| == |p[i][d]|;
      }
    }
  }

  /** The child can break the weekly load although neither parent does: with a
      load of one, a parent working Monday morning and one working Tuesday
      morning can have a child working both. */
  lemma CrossoverMayExceedLoad()
    ensures var p1 := [ZERO_ROW[0 := ZERO_ROW[0][0 := 1]]];
            var p2 := [ZERO_ROW[1 := ZERO_ROW[1][0 := 1]]];
            var coins := [seq(NUM_DAYS, d => seq(NUM_SHIFTS, t => !(d == 1 && t == 0)))];
            && Dense(p1, 1) && Dense(p2, 1) && CoinsFit(coins, 1)
            && RowTotal(p1[0]) == 1 && RowTotal(p2[0]) == 1
            && RowTotal(Mix(p1, p2, coins)[0]) == 2
  {
    var p1 := [ZERO_ROW[0 := ZERO_ROW[0][0 := 1]]];
    var p2 := [ZERO_ROW[1 := ZERO_ROW[1][0 := 1]]];
    var coins := [seq(NUM_DAYS, d => seq(NUM_SHIFTS, t => !(d == 1 && t == 0)))];
    ZeroRowFacts();
    RowTotalUpdate(ZERO_ROW, 0, 0, 1);
    RowTotalUpdate(ZERO_ROW, 1, 0, 1);
    var half := ZERO_ROW[0 := ZERO_ROW[0][0 := 1]];
    RowTotalUpdate(half, 1, 0, 1);
    var both := half[1 := half[1][0 := 1]];
    var c := Mix(p1, p2, coins);
    MixCells(p1, p2, coins);
    forall d | 0 <= d < NUM_DAYS ensures c[0][d] == both[d] {
      assert |c[0][d]| == |both[d]|;
    }
    assert c[0] == both;
  }

  // ----------------------------------------------------------------- mutation

  /** A mutated cell: 1 becomes 0 and anything else becomes 1. */
  function Flip(v: int): (w: int)
    ensures w == 0 || w == 1
    ensures v == 0 || v == 1 ==> w == 1 - v
  {
    if v == 1 then 0 else 1
  }

  /** One mutation draw per employee: None when random.random() is not below the
      rate, otherwise the drawn day and shift. */
  predicate ValidPicks(picks: seq<Option<Cell>>, n: nat) {
    |picks| == n && forall i :: 0 <= i < n && picks[i].Some? ==> ValidCell(picks[i].value)
  }

  /** One employee's row after its draw. */
  function MutateRow(row: Row, pick: Option<Cell>): (r: Row)
    requires DenseRow(row) && (pick.Some? ==> ValidCell(pick.value))
    ensures DenseRow(r)
  {
    match pick
    case None => row
    case Some(c) => row[c.day := row[c.day][c.shift := Flip(row[c.day][c.shift])]]
  }

  /** The rows of the first k employees after the mutation draws. */
  function MutatedUpTo(s: Schedule, picks: seq<Option<Cell>>, k: nat): (m: Schedule)
    requires Dense(s, |s|) && ValidPicks(picks, |s|) && k <= |s|
    ensures Dense(m, k)
  {
    if k == 0 then [] else MutatedUpTo(s, picks, k - 1) + [MutateRow(s[k - 1], picks[k - 1])]
  }

  /** The schedule after the mutation draws are applied. */
  function Mutated(s: Schedule, picks: seq<Option<Cell>>): (m: Schedule)
    requires Dense(s, |s|) && ValidPicks(picks, |s|)
    ensures Dense(m, |s|)
  {
    MutatedUpTo(s, picks, |s|)
  }

  lemma {:induction false} MutatedUpToAt(s: Schedule, picks: seq<Option<Cell>>, k: nat, i: nat)
    requires Dense(s, |s|) && ValidPicks(picks, |s|) && i < k <= |s|
    ensures MutatedUpTo(s, picks, k)[i] == MutateRow(s[i], picks[i])
  {
    var prev := MutatedUpTo(s, picks, k - 1);
    assert MutatedUpTo(s, picks, k) == prev + [MutateRow(s[k - 1], picks[k - 1])];
    if i < k - 1 {
      MutatedUpToAt(s, picks, k - 1, i);
    }
  }

  /** Row i of the mutated schedule is row i of the schedule after its own draw. */
  lemma MutatedRows(s: Schedule, picks: seq<Option<Cell>>)
    requires Dense(s, |s|) && ValidPicks(picks, |s|)
    ensures forall i :: 0 <= i < |s| ==> Mutated(s, picks)[i] == MutateRow(s[i], picks[i])
  {
    forall i | 0 <= i < |s| ensures Mutated(s, picks)[i] == MutateRow(s[i], picks[i]) {
      MutatedUpToAt(s, picks, |s|, i);
    }
  }

  /** mutar_individuo: for each employee whose draw fires, flips the drawn cell
      of the schedule in place. */
  method Mutate(svc: Service, ind: array<Row>, picks: seq<Option<Cell>>) returns (r: array<Row>)
    requires ind.Length == |svc.employees|
    requires forall i :: 0 <= i < ind.Length ==> DenseRow(ind[i])
    requires ValidPicks(picks, ind.Length)
    modifies ind
    ensures r == ind
    ensures ind[..] == Mutated(old(ind[..]), picks)
  {
    ghost var s := ind[..];
    for i := 0 to |svc.employees|
      invariant ind[..i] == MutatedUpTo(s, picks, i)
      invariant forall k :: i <= k < ind.Length ==> ind[k] == s[k]
    {
      if picks[i].Some? {
        var d, t := picks[i].value.day, picks[i].value.shift;
        if ind[i][d][t] == 1 {
          ind[i] := ind[i][d := ind[i][d][t := 0]];
        } else {
          ind[i] := ind[i][d := ind[i][d][t := 1]];
        }
      }
      assert ind[..i + 1] == ind[..i] + [MutateRow(s[i], picks[i])];
    }
    assert ind[..] == ind[..|svc.employees|];
    r := ind;
  }

  /** Mutation touches only the drawn cell of each employee, and flips it. */
  lemma MutationLocal(s: Schedule, picks: seq<Option<Cell>>)
    requires Dense(s, |s|) && ValidPicks(picks, |s|)
    ensures forall i, d, t :: 0 <= i < |s| && 0 <= d < NUM_DAYS && 0 <= t < NUM_SHIFTS ==>
              Mutated(s, picks)[i][d][t] == if picks[i] == Some(Cell(d, t)) then Flip(s[i][d][t]) else s[i][d][t]
  {
    MutatedRows(s, picks);
  }

  /** Mutation keeps a schedule binary, and applying the same draws twice to a
      binary schedule gives it back. */
  lemma MutationInvolution(s: Schedule, picks: seq<Option<Cell>>)
    requires Dense(s, |s|) && ValidPicks(picks, |s|) && Binary(s)
    ensures Binary(Mutated(s, picks))
    ensures Mutated(Mutated(s, picks), picks) == s
  {
    var m := Mutated(s, picks);
    var mm := Mutated(m, picks);
    MutatedRows(s, picks);
    MutatedRows(m, picks);
    forall i | 0 <= i < |s| ensures mm[i] == s[i] {
      forall d | 0 <= d < NUM_DAYS ensures mm[i][d] == s[i][d] {
        assert |mm[i][d]| == |s[i][d]|;
      }
    }
  }

  /** On a binary schedule a fired draw changes the employee's shift count by
      exactly one: down when it removes a shift, up when it adds one. */
  lemma MutationLoad(s: Schedule, picks: seq<Option<Cell>>, i: nat)
    requires Dense(s, |s|) && ValidPicks(picks, |s|) && Binary(s) && i < |s|
    ensures picks[i].None? ==> RowTotal(Mutated(s, picks)[i]) == RowTotal(s[i])
    ensures picks[i].Some? ==>
              var c := picks[i].value;
              RowTotal(Mutated(s, picks)[i]) == RowTotal(s[i]) + (if s[i][c.day][c.shift] == 1 then -1 else 1)
  {
    MutatedRows(s, picks);
    if picks[i].Some? {
      var c := picks[i].value;
      RowTotalUpdate(s[i], c.day, c.shift, Flip(s[i][c.day][c.shift]));
    }
  }
}
