/** The invariant every reachable snapshot of the simulation satisfies. */
module Invariants {
  import opened AntTypes
  import opened Economy

  /** What every reachable snapshot satisfies at wall-clock time `now`: food levels within
      bounds, distinct ant ids, distinct colony ids, no negative resource, and deposits with a
      strength in (0, 1.5] stamped no later than `now`. */
  predicate WorldInvariant(w: SimulationState, now: real) {
    && AntsInvariant(w.ants)
    && DistinctColonyIds(w.colonies)
    && (forall k :: 0 <= k < |w.resources| ==> 0.0 <= w.resources[k].amount)
    && FieldInvariant(w.pheromones, now)
  }

  predicate AntsInvariant(ants: seq<Ant>) {
    (forall i :: 0 <= i < |ants| ==> FoodBounded(ants[i])) && DistinctIds(ants)
  }

  predicate FieldInvariant(ps: seq<Pheromone>, now: real) {
    forall j :: 0 <= j < |ps| ==> 0.0 < ps[j].strength <= 1.5 && ps[j].createdAt <= now
  }
}
