/** Pheromone lookup and deposit (client/src/utils/antBehaviors.ts, `findStrongestPheromone`
    and `leavePheromone`). */
module Scent {
  import opened Wrappers
  import opened AntTypes
  import opened Geometry

  /** Strength weighted by proximity, `strength * (1 - distance / range)`. */
  function Score(sqrt: real -> real, pos: Vec3, p: Pheromone, range: real): real
    requires range != 0.0
  {
    p.strength * (1.0 - Distance(sqrt, pos, p.position) / range)
  }

  /** A deposit the search may return: of the requested kind, stronger than the detectability
      threshold 0.15, within `range`, and with a strictly positive weighted score. With
      `range == 0` only a deposit at distance 0 passes the range test, and its score is
      `0 / 0`, a NaN, which never beats the initial best of 0, so no deposit qualifies then. */
  predicate Candidate(sqrt: real -> real, pos: Vec3, p: Pheromone, kind: PheromoneType, range: real) {
    && p.kind == kind
    && p.strength > 0.15
    && Distance(sqrt, pos, p.position) <= range
    && range != 0.0
    && Score(sqrt, pos, p, range) > 0.0
  }

  /** Index `k` holds the search's answer: a candidate that no candidate outscores, and that
      every earlier candidate scores strictly below (ties go to the earliest). */
  ghost predicate IsStrongestAt(sqrt: real -> real, pos: Vec3, ps: seq<Pheromone>, kind: PheromoneType,
                                range: real, k: int)
  {
    && 0 <= k < |ps|
    && Candidate(sqrt, pos, ps[k], kind, range)
    && (forall j :: 0 <= j < |ps| && Candidate(sqrt, pos, ps[j], kind, range) ==>
          Score(sqrt, pos, ps[j], range) <= Score(sqrt, pos, ps[k], range))
    && (forall j :: 0 <= j < k && Candidate(sqrt, pos, ps[j], kind, range) ==>
          Score(sqrt, pos, ps[j], range) < Score(sqrt, pos, ps[k], range))
  }

  /** At most one index holds the search's answer. */
  lemma StrongestIsUnique(sqrt: real -> real, pos: Vec3, ps: seq<Pheromone>, kind: PheromoneType,
                          range: real, k1: int, k2: int)
    requires IsStrongestAt(sqrt, pos, ps, kind, range, k1)
    requires IsStrongestAt(sqrt, pos, ps, kind, range, k2)
    ensures k1 == k2
  {
  }

  /** The scan of `findStrongestPheromone` over the first `n` deposits: the index of the best
      deposit seen so far, replaced only by a strictly higher score. */
  function StrongestIndex(sqrt: real -> real, pos: Vec3, ps: seq<Pheromone>, kind: PheromoneType,
                          range: real, n: nat): (r: Option<nat>)
    requires n <= |ps|
    ensures r.None? <==> forall j :: 0 <= j < n ==> !Candidate(sqrt, pos, ps[j], kind, range)
    ensures r.Some? ==> IsStrongestAt(sqrt, pos, ps[..n], kind, range, r.value)
    decreases n
  {
    if n == 0 then None
    else
      var best := StrongestIndex(sqrt, pos, ps, kind, range, n - 1);
      ScanStepKeepsStrongest(sqrt, pos, ps, kind, range, n, best);
      ScanStep(sqrt, pos, ps, kind, range, n, best)
  }

  /** One step of the scan: deposit `n - 1` replaces the best so far when it is of the kind,
      stronger than 0.15, within range and scores strictly higher than the best so far (than
      0 when there is none yet). */
  function ScanStep(sqrt: real -> real, pos: Vec3, ps: seq<Pheromone>, kind: PheromoneType,
                    range: real, n: nat, best: Option<nat>): (r: Option<nat>)
    requires 0 < n <= |ps|
    requires best.Some? ==> best.value < |ps| && range != 0.0
    ensures r == best || r == Some(n - 1)
    ensures r != best ==> && ps[n - 1].kind == kind && ps[n - 1].strength > 0.15
                          && Distance(sqrt, pos, ps[n - 1].position) <= range && range != 0.0
                          && (best.None? ==> Candidate(sqrt, pos, ps[n - 1], kind, range))
                          && (best.Some? ==> Score(sqrt, pos, ps[n - 1], range) > Score(sqrt, pos, ps[best.value], range))
    ensures Candidate(sqrt, pos, ps[n - 1], kind, range)
            && (best.Some? ==> Score(sqrt, pos, ps[n - 1], range) > Score(sqrt, pos, ps[best.value], range))
            ==> r == Some(n - 1)
  {
    var p := ps[n - 1];
    var bar := if best.Some? then Score(sqrt, pos, ps[best.value], range) else 0.0;
    if p.kind == kind && p.strength > 0.15 && Distance(sqrt, pos, p.position) <= range
       && range != 0.0 && Score(sqrt, pos, p, range) > bar
    then Some(n - 1)
    else best
  }

  /** The step takes the answer over the first `n - 1` deposits to the answer over the first
      `n`. */
  lemma ScanStepKeepsStrongest(sqrt: real -> real, pos: Vec3, ps: seq<Pheromone>, kind: PheromoneType,
                               range: real, n: nat, best: Option<nat>)
    requires 0 < n <= |ps|
    requires best.None? <==> forall j :: 0 <= j < n - 1 ==> !Candidate(sqrt, pos, ps[j], kind, range)
    requires best.Some? ==> IsStrongestAt(sqrt, pos, ps[..n - 1], kind, range, best.value)
    ensures best.Some? ==> best.value < |ps| && range != 0.0
    ensures var r := ScanStep(sqrt, pos, ps, kind, range, n, best);
            && (r.None? <==> forall j :: 0 <= j < n ==> !Candidate(sqrt, pos, ps[j], kind, range))
            && (r.Some? ==> IsStrongestAt(sqrt, pos, ps[..n], kind, range, r.value))
  {
    assert ps[..n - 1] == ps[..n][..n - 1];
  }

  /** `findStrongestPheromone(position, pheromones, type, range)`: null exactly when no deposit
      qualifies, otherwise the deposit at the unique index satisfying `IsStrongestAt`. */
  function FindStrongestPheromone(sqrt: real -> real, pos: Vec3, ps: seq<Pheromone>, kind: PheromoneType,
                                  range: real): (r: Option<Pheromone>)
    ensures r.None? <==> forall j :: 0 <= j < |ps| ==> !Candidate(sqrt, pos, ps[j], kind, range)
    ensures r.Some? ==> exists k :: IsStrongestAt(sqrt, pos, ps, kind, range, k) && ps[k] == r.value
    ensures r.Some? ==> r.value in ps && r.value.kind == kind && r.value.strength > 0.15
  {
    match StrongestIndex(sqrt, pos, ps, kind, range, |ps|)
    case None => None
    case Some(k) =>
      assert ps[..|ps|] == ps;
      assert IsStrongestAt(sqrt, pos, ps, kind, range, k);
      Some(ps[k])
  }

  /** `leavePheromone(ant, type, strength)`: a deposit at the ant's position whose strength is
      the base, times 1.5 for a food trail laid while carrying food, times 1.3 for a home trail
      laid while returning. The id and the creation time (`Date.now()`) are parameters. */
  function LeavePheromone(ant: Ant, kind: PheromoneType, base: real, id: string, now: real): (p: Pheromone)
    ensures p.position == ant.position && p.kind == kind && p.createdAt == now && p.id == id
    ensures kind == FoodTrail && ant.carryingFood ==> p.strength == base * 1.5
    ensures kind == HomeTrail && ant.state == Returning ==> p.strength == base * 1.3
    ensures !(kind == FoodTrail && ant.carryingFood) && !(kind == HomeTrail && ant.state == Returning)
            ==> p.strength == base
    ensures 0.0 < base ==> base <= p.strength <= base * 1.5
  {
    var boosted := if kind == FoodTrail && ant.carryingFood then base * 1.5 else base;
    var strength := if kind == HomeTrail && ant.state == Returning then boosted * 1.3 else boosted;
    Pheromone(id, ant.position, kind, strength, now)
  }
}
