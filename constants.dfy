/** The fixed week layout and the parameter bounds of the scheduling service
    (api/app/core/constants.py). */
module Constants {

  /** Day names, in the order every schedule uses. */
  const DAYS: seq<string> := ["segunda", "terça", "quarta", "quinta", "sexta", "sábado", "domingo"]

  /** Shift names, in the order every schedule uses. */
  const SHIFTS: seq<string> := ["manha", "tarde", "noite"]

  /** The number of days and of shifts (WeekLayout ties them to the name lists). */
  const NUM_DAYS: nat := 7
  const NUM_SHIFTS: nat := 3

  // Bounds of the algorithm parameters.
  const MIN_POP_SIZE := 10
  const MAX_POP_SIZE := 100
  const MIN_N_GENERATIONS := 10
  const MAX_N_GENERATIONS := 200
  const MIN_MUTATION_RATE: real := 0.01
  const MAX_MUTATION_RATE: real := 1.0

  // Bounds of the schedule constraints.
  const MIN_MAX_WEEKLY_LOAD := 1
  const MAX_MAX_WEEKLY_LOAD := 21
  const MIN_REQUIRED_REST_DAYS := 0
  const MAX_REQUIRED_REST_DAYS := 7
  const MIN_MIN_COVERAGE := 1
  const MAX_MIN_COVERAGE := 10

  /** No two entries of a sequence of names coincide. */
  predicate Distinct(names: seq<string>) {
    forall a, b :: 0 <= a < b < |names| ==> names[a] != names[b]
  }

  /** The week has seven distinct days and three distinct shifts, in this order. */
  lemma WeekLayout()
    ensures |DAYS| == NUM_DAYS && |SHIFTS| == NUM_SHIFTS
    ensures DAYS[0] == "segunda" && DAYS[6] == "domingo"
    ensures SHIFTS == ["manha", "tarde", "noite"]
    ensures Distinct(DAYS) && Distinct(SHIFTS)
  {
  }

  /** The upper load bound is the number of day/shift slots, the upper rest bound the
      number of days, every lower bound is below its upper bound, and the smallest
      admitted population can hold a three-way tournament. */
  lemma BoundsConsistent()
    ensures MAX_MAX_WEEKLY_LOAD == NUM_DAYS * NUM_SHIFTS
    ensures MAX_REQUIRED_REST_DAYS == NUM_DAYS
    ensures MIN_POP_SIZE <= MAX_POP_SIZE && MIN_N_GENERATIONS <= MAX_N_GENERATIONS
    ensures MIN_MUTATION_RATE <= MAX_MUTATION_RATE
    ensures MIN_MAX_WEEKLY_LOAD <= MAX_MAX_WEEKLY_LOAD
    ensures MIN_REQUIRED_REST_DAYS <= MAX_REQUIRED_REST_DAYS
    ensures MIN_MIN_COVERAGE <= MAX_MIN_COVERAGE
    ensures MIN_POP_SIZE >= 3
  {
  }
}
