/** The pheromone field of one tick (client/src/hooks/useSimulation.ts, the `updatedPheromones`
    list): the old deposits are pruned and decayed, then the deposits of the moved ants are
    appended.

    Ages are measured on the wall clock, `(Date.now() - createdAt) / 1000` seconds, not in
    simulated time, and each tick multiplies the already decayed strength by
    `1 - age / 30`, so decay compounds over ticks. */
module PheromoneField {
  import opened Wrappers
  import opened AntTypes
  import opened Scent
  import opened Seqs

  /** Deposits older than this many seconds are dropped. */
  const Lifetime := 30.0

  /** Age in seconds of a deposit at wall-clock time `now` (milliseconds). */
  function AgeAt(p: Pheromone, now: real): real {
    (now - p.createdAt) / 1000.0
  }

  /** The prune test, taken on the strength before this tick's decay. */
  predicate Survives(p: Pheromone, now: real) {
    AgeAt(p, now) < Lifetime && p.strength > 0.1
  }

  /** A deposit decayed by the factor `1 - age / 30`. */
  function Decayed(p: Pheromone, now: real): (q: Pheromone)
    ensures q == p.(strength := q.strength)
    ensures Survives(p, now) ==> 0.0 < q.strength
    ensures Survives(p, now) && 0.0 <= AgeAt(p, now) ==> q.strength <= p.strength
  {
    var factor := 1.0 - AgeAt(p, now) / Lifetime;
    assert Survives(p, now) ==> 0.0 < p.strength * factor by {
      if Survives(p, now) {
        assert 0.0 < factor;
      }
    }
    assert Survives(p, now) && 0.0 <= AgeAt(p, now) ==> p.strength * factor <= p.strength by {
      if Survives(p, now) && 0.0 <= AgeAt(p, now) {
        assert factor <= 1.0;
        assert p.strength * factor <= p.strength * 1.0;
      }
    }
    p.(strength := p.strength * factor)
  }

  /** The per-deposit step of the prune: kept exactly when it survives, then with only its
      strength changed, to a positive value no larger than before. */
  function Keep(p: Pheromone, now: real): (r: Option<Pheromone>)
    ensures r.Some? <==> Survives(p, now)
    ensures r.Some? ==> r.value == p.(strength := r.value.strength) && 0.0 < r.value.strength
    ensures r.Some? && 0.0 <= AgeAt(p, now) ==> r.value.strength <= p.strength
  {
    if Survives(p, now) then Some(Decayed(p, now)) else None
  }

  /** The surviving old deposits, decayed, in their original order. */
  function Prune(ps: seq<Pheromone>, now: real): (r: seq<Pheromone>)
    ensures |r| <= |ps|
    ensures forall j :: 0 <= j < |r| ==> 0.0 < r[j].strength
    ensures forall j :: 0 <= j < |r| ==> exists i :: 0 <= i < |ps| && Survives(ps[i], now) && r[j] == Decayed(ps[i], now)
  {
    var r := FilterMap(ps, (p: Pheromone) => Keep(p, now));
    assert forall j :: 0 <= j < |r| ==> exists i :: 0 <= i < |ps| && Survives(ps[i], now) && r[j] == Decayed(ps[i], now) by {
      forall j | 0 <= j < |r|
        ensures exists i :: 0 <= i < |ps| && Survives(ps[i], now) && r[j] == Decayed(ps[i], now)
      {
        FilterMapFrom(ps, (p: Pheromone) => Keep(p, now), j);
      }
    }
    r
  }

  /** Number of deposits that survive the prune. */
  function SurvivorCount(ps: seq<Pheromone>, now: real): nat {
    CountSome(ps, (p: Pheromone) => Keep(p, now))
  }

  /** The prune keeps exactly the survivors, in order: their number is the result's length,
      and survivor `i` sits, decayed, after the survivors before it. */
  lemma PruneExact(ps: seq<Pheromone>, now: real, i: nat)
    requires i < |ps| && Survives(ps[i], now)
    ensures |Prune(ps, now)| == SurvivorCount(ps, now)
    ensures SurvivorCount(ps[..i], now) < |Prune(ps, now)|
    ensures Prune(ps, now)[SurvivorCount(ps[..i], now)] == Decayed(ps[i], now)
  {
    FilterMapAt(ps, (p: Pheromone) => Keep(p, now), i);
  }

  /** Pruning a list of deposits prunes each part on its own. */
  lemma PruneConcat(a: seq<Pheromone>, b: seq<Pheromone>, now: real)
    ensures Prune(a + b, now) == Prune(a, now) + Prune(b, now)
  {
    FilterMapConcat(a, b, (p: Pheromone) => Keep(p, now));
  }

  /** A deposit that survives two prunes carries the product of both decay factors, and so
      ends weaker than a single prune at the later reading would leave it: decay compounds
      over ticks instead of fading linearly from creation. */
  lemma DecayCompounds(p: Pheromone, t1: real, t2: real)
    requires Survives(p, t1) && Survives(Decayed(p, t1), t2)
    requires 0.0 < AgeAt(p, t1) <= AgeAt(p, t2)
    ensures Decayed(Decayed(p, t1), t2).strength
              == p.strength * (1.0 - AgeAt(p, t1) / Lifetime) * (1.0 - AgeAt(p, t2) / Lifetime)
    ensures Decayed(Decayed(p, t1), t2).strength < Decayed(p, t2).strength
  {
    var f1, f2 := 1.0 - AgeAt(p, t1) / Lifetime, 1.0 - AgeAt(p, t2) / Lifetime;
    var q := Decayed(p, t1);
    assert q.strength == p.strength * f1;
    assert AgeAt(q, t2) == AgeAt(p, t2);
    assert Decayed(q, t2).strength == (p.strength * f1) * f2;
    assert Decayed(p, t2).strength == p.strength * f2;
    assert 0.0 < f1 < 1.0 && 0.0 < f2;
    assert 0.0 < p.strength * f2;
    assert (p.strength * f2) * f1 < (p.strength * f2) * 1.0;
  }

  // ---------------------------------------------------------------------------------------
  // Emission

  /** The draws of one ant's emission: the `Math.random()` of the emission filter, and the
      deposit's id. */
  datatype EmitDraw = EmitDraw(chance: real, id: string)

  /** Emission probability: 0.3 when carrying food, else 0.25 when returning, else 0.08. */
  function EmitChance(ant: Ant): (r: real)
    ensures 0.08 <= r <= 0.3
    ensures r == 0.3 <==> ant.carryingFood
    ensures r > 0.08 <==> ant.carryingFood || ant.state == Returning
  {
    if ant.carryingFood then 0.3 else if ant.state == Returning then 0.25 else 0.08
  }

  /** The deposit one moved ant adds this tick, if any: none from a DEAD ant; a food trail of
      base 1.0 when carrying; else a home trail of base 0.8 when returning; else a food trail
      of base 0.4 when gathering and a home trail of base 0.4 otherwise. */
  function Emission(ant: Ant, d: EmitDraw, now: real): (r: Option<Pheromone>)
    ensures ant.state == Dead ==> r.None?
    ensures ant.state != Dead ==> (r.Some? <==> d.chance < EmitChance(ant))
    ensures r.Some? ==> r.value.position == ant.position && r.value.createdAt == now && r.value.id == d.id
    ensures r.Some? && ant.carryingFood ==> r.value.kind == FoodTrail && r.value.strength == 1.5
    ensures r.Some? && !ant.carryingFood && ant.state == Returning ==>
              r.value.kind == HomeTrail && r.value.strength == 0.8 * 1.3
    ensures r.Some? && !ant.carryingFood && ant.state == Gathering ==>
              r.value.kind == FoodTrail && r.value.strength == 0.4
    ensures r.Some? && !ant.carryingFood && ant.state != Returning && ant.state != Gathering ==>
              r.value.kind == HomeTrail && r.value.strength == 0.4
  {
    if ant.state == Dead || d.chance >= EmitChance(ant) then None
    else if ant.carryingFood then Some(LeavePheromone(ant, FoodTrail, 1.0, d.id, now))
    else if ant.state == Returning then Some(LeavePheromone(ant, HomeTrail, 0.8, d.id, now))
    else Some(LeavePheromone(ant, if ant.state == Gathering then FoodTrail else HomeTrail, 0.4, d.id, now))
  }

  function Zip<A, B>(a: seq<A>, b: seq<B>): (r: seq<(A, B)>)
    requires |a| == |b|
    ensures |r| == |a| && forall i :: 0 <= i < |a| ==> r[i] == (a[i], b[i])
  {
    seq(|a|, i requires 0 <= i < |a| => (a[i], b[i]))
  }

  function EmitFrom(now: real): ((Ant, EmitDraw)) -> Option<Pheromone> {
    (e: (Ant, EmitDraw)) => Emission(e.0, e.1, now)
  }

  /** The new deposits of the moved ants, in ant order. */
  function Emit(ants: seq<Ant>, draws: seq<EmitDraw>, now: real): (r: seq<Pheromone>)
    requires |draws| == |ants|
    ensures |r| <= |ants|
    ensures forall j :: 0 <= j < |r| ==> r[j].createdAt == now && 0.4 <= r[j].strength <= 1.5
    ensures forall j :: 0 <= j < |r| ==>
              exists i :: 0 <= i < |ants| && ants[i].state != Dead && Emission(ants[i], draws[i], now) == Some(r[j])
  {
    var pairs := Zip(ants, draws);
    var r := FilterMap(pairs, EmitFrom(now));
    assert forall j :: 0 <= j < |r| ==>
             exists i :: 0 <= i < |ants| && ants[i].state != Dead && Emission(ants[i], draws[i], now) == Some(r[j]) by {
      forall j | 0 <= j < |r|
        ensures exists i :: 0 <= i < |ants| && ants[i].state != Dead && Emission(ants[i], draws[i], now) == Some(r[j])
      {
        FilterMapFrom(pairs, EmitFrom(now), j);
        var i :| 0 <= i < |pairs| && EmitFrom(now)(pairs[i]) == Some(r[j]);
        assert Emission(ants[i], draws[i], now) == Some(r[j]);
      }
    }
    r
  }

  /** Every live ant that emits adds exactly one deposit, placed after those of the ants
      before it; DEAD ants add nothing. */
  lemma EmitExact(ants: seq<Ant>, draws: seq<EmitDraw>, now: real, i: nat)
    requires |draws| == |ants| && i < |ants|
    requires Emission(ants[i], draws[i], now).Some?
    ensures ants[i].state != Dead
    ensures CountSome(Zip(ants, draws)[..i], EmitFrom(now)) < |Emit(ants, draws, now)|
    ensures Emit(ants, draws, now)[CountSome(Zip(ants, draws)[..i], EmitFrom(now))]
            == Emission(ants[i], draws[i], now).value
  {
    FilterMapAt(Zip(ants, draws), EmitFrom(now), i);
  }

  /** Zipping two lists with entry `i` removed from both removes entry `i` of the zip. */
  lemma ZipRemove<A, B>(a: seq<A>, b: seq<B>, i: nat)
    requires |a| == |b| && i < |a|
    ensures Zip(a[..i] + a[i + 1..], b[..i] + b[i + 1..]) == Zip(a, b)[..i] + Zip(a, b)[i + 1..]
  {
    var pairs := Zip(a, b);
    var shorter := Zip(a[..i] + a[i + 1..], b[..i] + b[i + 1..]);
    forall k | 0 <= k < |shorter|
      ensures shorter[k] == (pairs[..i] + pairs[i + 1..])[k]
    {
      if k < i {
        assert shorter[k] == (a[k], b[k]);
      } else {
        assert shorter[k] == (a[k + 1], b[k + 1]);
      }
    }
  }

  /** Removing a DEAD ant does not change what is emitted. */
  lemma DeadAntsEmitNothing(ants: seq<Ant>, draws: seq<EmitDraw>, now: real, i: nat)
    requires |draws| == |ants| && i < |ants| && ants[i].state == Dead
    ensures Emit(ants[..i] + ants[i + 1..], draws[..i] + draws[i + 1..], now) == Emit(ants, draws, now)
  {
    ZipRemove(ants, draws, i);
    assert Zip(ants, draws)[i] == (ants[i], draws[i]);
    FilterMapRemoveNone(Zip(ants, draws), EmitFrom(now), i);
  }

  // ---------------------------------------------------------------------------------------
  // The new field

  /** `updatedPheromones`: the pruned old deposits followed by the new ones. Every entry is a
      decayed survivor or the deposit of a live ant. */
  function NextPheromones(ps: seq<Pheromone>, ants: seq<Ant>, draws: seq<EmitDraw>, now: real): (r: seq<Pheromone>)
    requires |draws| == |ants|
    ensures |r| <= |ps| + |ants|
    ensures forall j :: 0 <= j < |r| ==>
              (exists i :: 0 <= i < |ps| && Survives(ps[i], now) && r[j] == Decayed(ps[i], now))
              || (exists i :: 0 <= i < |ants| && ants[i].state != Dead && Emission(ants[i], draws[i], now) == Some(r[j]))
  {
    var kept := Prune(ps, now);
    var deposits := Emit(ants, draws, now);
    assert forall j :: 0 <= j < |deposits| ==> (kept + deposits)[|kept| + j] == deposits[j];
    kept + deposits
  }

  /** The surviving old deposits come first, decayed, in their old order. */
  lemma NextPheromonesKeep(ps: seq<Pheromone>, ants: seq<Ant>, draws: seq<EmitDraw>, now: real, i: nat)
    requires |draws| == |ants| && i < |ps| && Survives(ps[i], now)
    ensures SurvivorCount(ps[..i], now) < |NextPheromones(ps, ants, draws, now)|
    ensures NextPheromones(ps, ants, draws, now)[SurvivorCount(ps[..i], now)] == Decayed(ps[i], now)
  {
    PruneExact(ps, now, i);
  }

  /** After the survivors comes the deposit of every emitting live ant, in ant order. */
  lemma NextPheromonesAppend(ps: seq<Pheromone>, ants: seq<Ant>, draws: seq<EmitDraw>, now: real, i: nat)
    requires |draws| == |ants| && i < |ants| && Emission(ants[i], draws[i], now).Some?
    ensures SurvivorCount(ps, now) + CountSome(Zip(ants, draws)[..i], EmitFrom(now))
            < |NextPheromones(ps, ants, draws, now)|
    ensures NextPheromones(ps, ants, draws, now)[SurvivorCount(ps, now) + CountSome(Zip(ants, draws)[..i], EmitFrom(now))]
            == Emission(ants[i], draws[i], now).value
  {
    FilterMapLength(ps, (p: Pheromone) => Keep(p, now));
    var kept := Prune(ps, now);
    assert |kept| == SurvivorCount(ps, now);
    EmitExact(ants, draws, now, i);
  }
}
