/** One simulation tick (client/src/hooks/useSimulation.ts, the `setState` updater of
    `updateSimulation`), and runs of ticks.

    Every ant runs the state machine against the previous snapshot and then moves; the old
    deposits are pruned and decayed and the moved ants' deposits appended; the resources are
    depleted by the moved gatherers; the colonies are credited by the moved deliverers, which
    are unloaded. Only time, ants, pheromones, resources and colonies change.

    The tick is stated for any per-ant update; `SourceUpdate` is the source's own,
    `updateAntPosition(updateAntState(ant, prevState), simulationDelta)`, and
    `SourceUpdateIsSound` gives the facts about it that the tick-level proofs use.

    The source skips the updater when its captured `state.isPaused` is set; here the pause is
    an explicit input. The elapsed frame time, the wall-clock reading `Date.now()` and every
    `Math.random()` draw are parameters as well. */
module Simulation {
  import opened Wrappers
  import opened AntTypes
  import opened Geometry
  import opened Seqs
  import opened Behaviour
  import opened PheromoneField
  import opened Ledger
  import opened Economy
  import opened Invariants

  /** All draws of one ant in one tick: those of its state update, the wander target of its
      move, its emission, and the wander target of its unloading. */
  datatype AntDraws = AntDraws(state: StateDraws, move: Jitter, emit: EmitDraw, unload: Jitter)

  /** A per-ant update of the `updatedAnts` map: from the previous snapshot, the ant, the
      simulated delta and the ant's draws to the moved ant. */
  type AntUpdate = (SimulationState, Ant, real, AntDraws) -> Ant

  /** `updateAntPosition(updateAntState(ant, world), dt)`. */
  function MoveAnt(sqrt: real -> real, world: SimulationState, ant: Ant, dt: real, d: AntDraws): (r: Ant)
    ensures r.id == ant.id && r.colony == ant.colony && r.genes == ant.genes
    ensures r.speed == ant.speed && r.health == ant.health && r.generation == ant.generation
    ensures FoodBounded(ant) ==> FoodBounded(r)
    ensures ant.state == Dead ==> r.state == Dead && r.position == ant.position
    ensures r.state.IsReserved() ==> r.state == ant.state
  {
    UpdateAntPosition(sqrt, UpdateAntState(sqrt, ant, world, d.state), dt, d.move)
  }

  /** The source's per-ant update: every application is a sound move and enters no reserved
      state the ant was not already in. */
  function SourceUpdate(sqrt: real -> real): (u: AntUpdate)
    ensures forall w, a, dt, d :: SoundMove(a, u(w, a, dt, d))
    ensures forall w, a, dt, d :: u(w, a, dt, d).state.IsReserved() ==> u(w, a, dt, d).state == a.state
  {
    (w: SimulationState, a: Ant, dt: real, d: AntDraws) => MoveAnt(sqrt, w, a, dt, d)
  }

  /** What the tick-level proofs need of a moved ant `b` of `a`: same id and colony, food
      still within bounds, and a DEAD ant still DEAD where it lay. */
  predicate SoundMove(a: Ant, b: Ant) {
    && b.id == a.id && b.colony == a.colony
    && (FoodBounded(a) ==> FoodBounded(b))
    && (a.state == Dead ==> b.state == Dead && b.position == a.position)
  }

  ghost predicate SoundUpdate(update: AntUpdate) {
    forall w, a, dt, d :: SoundMove(a, update(w, a, dt, d))
  }

  lemma SourceUpdateIsSound(sqrt: real -> real)
    ensures SoundUpdate(SourceUpdate(sqrt))
  {
    forall w, a, dt, d
      ensures SoundMove(a, SourceUpdate(sqrt)(w, a, dt, d))
    {
      var b := MoveAnt(sqrt, w, a, dt, d);
    }
  }

  /** The moved ants, in the order of the previous snapshot. */
  function Moved(update: AntUpdate, world: SimulationState, dt: real, draws: nat -> AntDraws): (r: seq<Ant>)
    ensures |r| == |world.ants|
    ensures forall i :: 0 <= i < |r| ==> r[i] == update(world, world.ants[i], dt, draws(i))
  {
    seq(|world.ants|, i requires 0 <= i < |world.ants| => update(world, world.ants[i], dt, draws(i)))
  }

  function EmitDraws(draws: nat -> AntDraws, n: nat): (r: seq<EmitDraw>)
    ensures |r| == n && forall i :: 0 <= i < n ==> r[i] == draws(i).emit
  {
    seq(n, i requires 0 <= i < n => draws(i).emit)
  }

  function UnloadDraws(draws: nat -> AntDraws): nat -> Jitter {
    (i: nat) => draws(i).unload
  }

  /** Steps 2 to 5 of the tick, given the moved ants: the next pheromone field, the depleted
      resources and the credited colonies, with the deliverers unloaded. */
  function Advance(prev: SimulationState, dt: real, now: real, moved: seq<Ant>, draws: nat -> AntDraws): (r: SimulationState)
    requires |moved| == |prev.ants|
    // the fields the tick does not rebuild
    ensures r == prev.(time := r.time, ants := r.ants, pheromones := r.pheromones,
                       resources := r.resources, colonies := r.colonies)
    ensures r.time == prev.time + dt
    // ants: same length and order, each the moved ant or the moved ant unloaded
    ensures |r.ants| == |moved|
    ensures forall i :: 0 <= i < |moved| ==> r.ants[i] == moved[i] || r.ants[i] == Unload(moved[i], draws(i).unload)
    // resources: same length and order, each depleted by the moved gatherers
    ensures |r.resources| == |prev.resources|
    ensures forall k :: 0 <= k < |prev.resources| ==> r.resources[k] == Deplete(prev.resources[k], moved)
    // colonies: same length and order, only the store changes, and it never shrinks
    ensures |r.colonies| == |prev.colonies|
    ensures forall k :: 0 <= k < |prev.colonies| ==>
              r.colonies[k] == prev.colonies[k].(foodStored := r.colonies[k].foodStored)
              && prev.colonies[k].foodStored <= r.colonies[k].foodStored
    // pheromones: the next field of the old deposits and the moved ants
    ensures r.pheromones == NextPheromones(prev.pheromones, moved, EmitDraws(draws, |moved|), now)
  {
    var credited := CreditAll(prev.colonies, moved, UnloadDraws(draws));
    prev.(time := prev.time + dt, ants := credited.ants,
          pheromones := NextPheromones(prev.pheromones, moved, EmitDraws(draws, |moved|), now),
          resources := DepleteAll(prev.resources, moved), colonies := credited.colonies)
  }

  /** The tick: `prev` unchanged when paused, otherwise every ant updated against `prev` and
      the result taken through the remaining steps, with simulated time advanced by `dt`,
      the source's `simulationDelta`. */
  function Tick(prev: SimulationState, paused: bool, dt: real, now: real,
                update: AntUpdate, draws: nat -> AntDraws): (r: SimulationState)
    ensures paused ==> r == prev
    ensures r.speed == prev.speed && r.isPaused == prev.isPaused
    ensures r.predators == prev.predators && r.terrainSeed == prev.terrainSeed
    ensures !paused ==> r.time == prev.time + dt
    ensures |r.ants| == |prev.ants| && |r.resources| == |prev.resources| && |r.colonies| == |prev.colonies|
    ensures forall k :: 0 <= k < |prev.colonies| ==> r.colonies[k] == prev.colonies[k].(foodStored := r.colonies[k].foodStored)
    ensures !paused ==> forall i :: 0 <= i < |prev.ants| ==>
              var m := update(prev, prev.ants[i], dt, draws(i));
              r.ants[i] == m || r.ants[i] == Unload(m, draws(i).unload)
    ensures !paused ==>
              r == Advance(prev, dt, now, Moved(update, prev, dt, draws), draws)
  {
    if paused then prev
    else Advance(prev, dt, now, Moved(update, prev, dt, draws), draws)
  }

  /** With the source's update, each ant of an unpaused tick is
      `updateAntPosition(updateAntState(ant, prev), dt)` of its predecessor,
      possibly unloaded by the crediting step. */
  lemma TickAnts(prev: SimulationState, dt: real, now: real, sqrt: real -> real,
                 draws: nat -> AntDraws, i: nat)
    requires i < |prev.ants|
    ensures var r := Tick(prev, false, dt, now, SourceUpdate(sqrt), draws);
            var m := UpdateAntPosition(sqrt, UpdateAntState(sqrt, prev.ants[i], prev, draws(i).state),
                                       dt, draws(i).move);
            r.ants[i] == m || r.ants[i] == Unload(m, draws(i).unload)
  {
  }

  /** Every resource of an unpaused tick is depleted by the moved gatherers; no resource
      gains food. */
  lemma TickResources(prev: SimulationState, dt: real, now: real, update: AntUpdate,
                      draws: nat -> AntDraws, k: nat)
    requires k < |prev.resources|
    ensures var r := Tick(prev, false, dt, now, update, draws);
            && r.resources[k] == Deplete(prev.resources[k], Moved(update, prev, dt, draws))
            && (0.0 <= prev.resources[k].amount ==> 0.0 <= r.resources[k].amount <= prev.resources[k].amount)
  {
  }

  // ---------------------------------------------------------------------------------------
  // Exact crediting

  /** A sound update keeps the ids, so distinct ids stay distinct. */
  lemma MovedKeepsIds(update: AntUpdate, prev: SimulationState, dt: real, draws: nat -> AntDraws)
    requires SoundUpdate(update)
    ensures var moved := Moved(update, prev, dt, draws);
            forall i :: 0 <= i < |moved| ==> moved[i].id == prev.ants[i].id
    ensures DistinctIds(prev.ants) ==> DistinctIds(Moved(update, prev, dt, draws))
  {
    var moved := Moved(update, prev, dt, draws);
    forall i | 0 <= i < |moved|
      ensures moved[i].id == prev.ants[i].id
    {
      assert SoundMove(prev.ants[i], update(prev, prev.ants[i], dt, draws(i)));
    }
  }

  /** With distinct ids among the moved ants and among the colonies, each colony gains exactly
      the number of moved ants delivering to it. */
  lemma AdvanceCreditsExact(prev: SimulationState, dt: real, now: real, moved: seq<Ant>,
                            draws: nat -> AntDraws, k: nat)
    requires |moved| == |prev.ants| && DistinctIds(moved) && DistinctColonyIds(prev.colonies)
    requires k < |prev.colonies|
    ensures Advance(prev, dt, now, moved, draws).colonies[k].foodStored
            == prev.colonies[k].foodStored + (CountWhere(moved, DeliversTo(prev.colonies[k])) as real)
  {
    CreditAllCounts(prev.colonies, moved, UnloadDraws(draws));
  }

  /** With distinct ids among the moved ants and among the colonies, exactly the moved ants
      delivering to some colony are unloaded. */
  lemma AdvanceUnloadsExact(prev: SimulationState, dt: real, now: real, moved: seq<Ant>,
                            draws: nat -> AntDraws, i: nat)
    requires |moved| == |prev.ants| && DistinctIds(moved) && DistinctColonyIds(prev.colonies)
    requires i < |moved|
    ensures Advance(prev, dt, now, moved, draws).ants[i]
            == if DeliversToSome(prev.colonies, moved[i]) then Unload(moved[i], draws(i).unload) else moved[i]
  {
    CreditAllUnloads(prev.colonies, moved, UnloadDraws(draws));
    assert UnloadDraws(draws)(i) == draws(i).unload;
  }

  /** With distinct ant ids and distinct colony ids, each colony gains exactly the number of
      moved ants delivering to it. */
  lemma TickCreditsExact(prev: SimulationState, dt: real, now: real,
                         update: AntUpdate, draws: nat -> AntDraws, k: nat)
    requires SoundUpdate(update)
    requires DistinctIds(prev.ants) && DistinctColonyIds(prev.colonies) && k < |prev.colonies|
    ensures Tick(prev, false, dt, now, update, draws).colonies[k].foodStored
            == prev.colonies[k].foodStored
               + (CountWhere(Moved(update, prev, dt, draws), DeliversTo(prev.colonies[k])) as real)
  {
    var moved := Moved(update, prev, dt, draws);
    assert Tick(prev, false, dt, now, update, draws) == Advance(prev, dt, now, moved, draws);
    assert DistinctIds(moved) by {
      MovedKeepsIds(update, prev, dt, draws);
    }
    AdvanceCreditsExact(prev, dt, now, moved, draws, k);
  }

  /** With distinct ant ids and distinct colony ids, exactly the moved ants delivering to
      some colony are unloaded. */
  lemma TickUnloadsExact(prev: SimulationState, dt: real, now: real,
                         update: AntUpdate, draws: nat -> AntDraws, i: nat)
    requires SoundUpdate(update)
    requires DistinctIds(prev.ants) && DistinctColonyIds(prev.colonies) && i < |prev.ants|
    ensures var moved := Moved(update, prev, dt, draws);
            Tick(prev, false, dt, now, update, draws).ants[i]
            == if DeliversToSome(prev.colonies, moved[i]) then Unload(moved[i], draws(i).unload) else moved[i]
  {
    var moved := Moved(update, prev, dt, draws);
    assert Tick(prev, false, dt, now, update, draws) == Advance(prev, dt, now, moved, draws);
    assert DistinctIds(moved) by {
      MovedKeepsIds(update, prev, dt, draws);
    }
    AdvanceUnloadsExact(prev, dt, now, moved, draws, i);
  }

  /** With distinct ids, a DEAD ant stays DEAD where it lies. */
  lemma DeadStaysDead(prev: SimulationState, paused: bool, dt: real, now: real,
                      update: AntUpdate, draws: nat -> AntDraws, i: nat)
    requires SoundUpdate(update)
    requires DistinctIds(prev.ants) && DistinctColonyIds(prev.colonies)
    requires i < |prev.ants| && prev.ants[i].state == Dead
    ensures var r := Tick(prev, paused, dt, now, update, draws);
            r.ants[i].state == Dead && r.ants[i].position == prev.ants[i].position
  {
    if !paused {
      TickUnloadsExact(prev, dt, now, update, draws, i);
      var moved := Moved(update, prev, dt, draws);
      assert SoundMove(prev.ants[i], moved[i]);
      assert !DeliversToSome(prev.colonies, moved[i]);
    }
  }

  // ---------------------------------------------------------------------------------------
  // The world invariant

  /** A sound update keeps the ant part of the invariant. */
  lemma MovedKeepsAnts(update: AntUpdate, prev: SimulationState, dt: real, draws: nat -> AntDraws)
    requires SoundUpdate(update) && AntsInvariant(prev.ants)
    ensures AntsInvariant(Moved(update, prev, dt, draws))
  {
    var moved := Moved(update, prev, dt, draws);
    MovedKeepsIds(update, prev, dt, draws);
    forall i | 0 <= i < |moved|
      ensures FoodBounded(moved[i])
    {
      assert SoundMove(prev.ants[i], update(prev, prev.ants[i], dt, draws(i)));
    }
  }

  /** Crediting keeps the ant part of the invariant: unloading touches neither ids nor food. */
  lemma CreditKeepsAnts(cs: seq<Colony>, ants: seq<Ant>, wander: nat -> Jitter)
    requires AntsInvariant(ants)
    ensures AntsInvariant(CreditAll(cs, ants, wander).ants)
  {
    UnloadingKeepsAnts(ants, CreditAll(cs, ants, wander).ants, wander);
  }

  lemma UnloadingKeepsAnts(a: seq<Ant>, b: seq<Ant>, wander: nat -> Jitter)
    requires UnloadedOrSame(a, b, wander) && AntsInvariant(a)
    ensures AntsInvariant(b)
  {
    forall i | 0 <= i < |b|
      ensures b[i].id == a[i].id && FoodBounded(b[i])
    {
      assert FoodBounded(a[i]);
    }
  }

  /** Crediting keeps the colony ids, so distinct ones stay distinct. */
  lemma CreditKeepsColonyIds(cs: seq<Colony>, ants: seq<Ant>, wander: nat -> Jitter)
    requires DistinctColonyIds(cs)
    ensures DistinctColonyIds(CreditAll(cs, ants, wander).colonies)
  {
    var r := CreditAll(cs, ants, wander).colonies;
    forall k, m | 0 <= k < m < |r|
      ensures r[k].id != r[m].id
    {
      assert r[k].id == cs[k].id && r[m].id == cs[m].id;
    }
  }

  /** Depletion never takes a resource below zero. */
  lemma DepleteKeepsNonNegative(rs: seq<Resource>, ants: seq<Ant>)
    requires forall k :: 0 <= k < |rs| ==> 0.0 <= rs[k].amount
    ensures var r := DepleteAll(rs, ants);
            forall k :: 0 <= k < |r| ==> 0.0 <= r[k].amount
  {
    var r := DepleteAll(rs, ants);
    forall k | 0 <= k < |r|
      ensures 0.0 <= r[k].amount
    {
      assert r[k] == Deplete(rs[k], ants);
    }
  }

  /** The field part of the invariant survives the step to the next field, for a clock
      reading no earlier than the one it was stated for. */
  lemma NextFieldKeepsInvariant(ps: seq<Pheromone>, ants: seq<Ant>, draws: seq<EmitDraw>, before: real, now: real)
    requires |draws| == |ants| && FieldInvariant(ps, before) && before <= now
    ensures FieldInvariant(NextPheromones(ps, ants, draws, now), now)
  {
    var r := NextPheromones(ps, ants, draws, now);
    forall j | 0 <= j < |r|
      ensures 0.0 < r[j].strength <= 1.5 && r[j].createdAt <= now
    {
      if exists i :: 0 <= i < |ps| && Survives(ps[i], now) && r[j] == Decayed(ps[i], now) {
        var i :| 0 <= i < |ps| && Survives(ps[i], now) && r[j] == Decayed(ps[i], now);
        assert 0.0 <= AgeAt(ps[i], now);
      } else {
        var i :| 0 <= i < |ants| && ants[i].state != Dead && Emission(ants[i], draws[i], now) == Some(r[j]);
        var e := Emission(ants[i], draws[i], now).value;
        assert e.createdAt == now;
        assert e.strength == 1.5 || e.strength == 0.8 * 1.3 || e.strength == 0.4;
      }
    }
  }

  /** The remaining steps keep the invariant when the moved ants satisfy its ant part. */
  lemma AdvanceKeepsInvariant(prev: SimulationState, before: real, dt: real, now: real,
                              moved: seq<Ant>, draws: nat -> AntDraws)
    requires |moved| == |prev.ants| && AntsInvariant(moved)
    requires WorldInvariant(prev, before) && before <= now
    ensures WorldInvariant(Advance(prev, dt, now, moved, draws), now)
  {
    CreditKeepsAnts(prev.colonies, moved, UnloadDraws(draws));
    CreditKeepsColonyIds(prev.colonies, moved, UnloadDraws(draws));
    DepleteKeepsNonNegative(prev.resources, moved);
    NextFieldKeepsInvariant(prev.pheromones, moved, EmitDraws(draws, |moved|), before, now);
  }

  /** An unpaused tick keeps the invariant when its moved ants satisfy the ant part. */
  lemma UnpausedTickKeepsInvariant(prev: SimulationState, before: real, dt: real, now: real,
                                   update: AntUpdate, draws: nat -> AntDraws)
    requires AntsInvariant(Moved(update, prev, dt, draws))
    requires WorldInvariant(prev, before) && before <= now
    ensures WorldInvariant(Tick(prev, false, dt, now, update, draws), now)
  {
    AdvanceKeepsInvariant(prev, before, dt, now, Moved(update, prev, dt, draws), draws);
  }

  /** A paused tick keeps the invariant, for any later clock reading. */
  lemma PausedTickKeepsInvariant(prev: SimulationState, before: real, dt: real, now: real,
                                 update: AntUpdate, draws: nat -> AntDraws)
    requires WorldInvariant(prev, before) && before <= now
    ensures WorldInvariant(Tick(prev, true, dt, now, update, draws), now)
  {
    assert FieldInvariant(prev.pheromones, now);
  }

  /** A tick taken at a clock reading no earlier than the one the invariant was stated for
      keeps the invariant, now for the tick's own reading. */
  lemma TickPreservesInvariant(prev: SimulationState, before: real, paused: bool, dt: real,
                               now: real, update: AntUpdate, draws: nat -> AntDraws)
    requires SoundUpdate(update)
    requires WorldInvariant(prev, before) && before <= now
    ensures WorldInvariant(Tick(prev, paused, dt, now, update, draws), now)
  {
    if paused {
      PausedTickKeepsInvariant(prev, before, dt, now, update, draws);
    } else {
      MovedKeepsAnts(update, prev, dt, draws);
      UnpausedTickKeepsInvariant(prev, before, dt, now, update, draws);
    }
  }

  // ---------------------------------------------------------------------------------------
  // Runs of ticks

  /** The inputs of one frame: the pause flag the frame sees, the elapsed time `deltaTime`
      in seconds since the previous frame, the clock reading and the draws. */
  datatype TickInput = TickInput(paused: bool, deltaTime: real, now: real, draws: nat -> AntDraws)

  /** `deltaTime * prevState.speed`: the elapsed frame time in seconds, scaled by the speed. */
  function SimulationDelta(deltaTime: real, speed: real): (d: real)
    ensures speed == 1.0 ==> d == deltaTime
    ensures speed == 0.0 || deltaTime == 0.0 ==> d == 0.0
    ensures 0.0 <= deltaTime && 0.0 <= speed ==> 0.0 <= d
  {
    deltaTime * speed
  }

  /** One frame of `updateSimulation`: the tick with the simulated delta
      `deltaTime * prevState.speed`, which both advances the time and moves the ants. */
  function Frame(prev: SimulationState, paused: bool, deltaTime: real, now: real,
                 update: AntUpdate, draws: nat -> AntDraws): (r: SimulationState)
    ensures paused ==> r == prev
    ensures !paused ==> r.time == prev.time + deltaTime * prev.speed
    ensures prev.speed == 0.0 ==> r.time == prev.time
    ensures |r.ants| == |prev.ants|
    ensures !paused ==> forall i :: 0 <= i < |prev.ants| ==>
              var m := update(prev, prev.ants[i], deltaTime * prev.speed, draws(i));
              r.ants[i] == m || r.ants[i] == Unload(m, draws(i).unload)
  {
    var dt := SimulationDelta(deltaTime, prev.speed);
    assert dt == deltaTime * prev.speed;
    Tick(prev, paused, dt, now, update, draws)
  }

  /** One animation frame: a snapshot and the frame's inputs to the next snapshot. */
  type Step = (SimulationState, TickInput) -> SimulationState

  /** The frame of the source: one tick with the given per-ant update. */
  function TickStep(update: AntUpdate): Step {
    (w: SimulationState, t: TickInput) => Frame(w, t.paused, t.deltaTime, t.now, update, t.draws)
  }

  /** The snapshot after a sequence of frames. */
  function Run(w: SimulationState, step: Step, inputs: seq<TickInput>): SimulationState
    decreases |inputs|
  {
    if |inputs| == 0 then w else Run(step(w, inputs[0]), step, inputs[1..])
  }

  /** The clock readings of the inputs never go back, and the first is no earlier than `start`. */
  predicate ClockMonotone(start: real, inputs: seq<TickInput>) {
    && (|inputs| > 0 ==> start <= inputs[0].now)
    && forall j :: 1 <= j < |inputs| ==> inputs[j - 1].now <= inputs[j].now
  }

  function LastReading(start: real, inputs: seq<TickInput>): real {
    if |inputs| == 0 then start else inputs[|inputs| - 1].now
  }

  /** A frame keeps the invariant, moving it to the frame's clock reading. */
  ghost predicate StepKeepsInvariant(step: Step) {
    forall w: SimulationState, t: TickInput, before: real {:trigger step(w, t), WorldInvariant(w, before)} ::
      WorldInvariant(w, before) && before <= t.now ==> WorldInvariant(step(w, t), t.now)
  }

  /** Every tick with a sound update keeps the invariant. */
  lemma TickStepKeepsInvariant(update: AntUpdate)
    requires SoundUpdate(update)
    ensures StepKeepsInvariant(TickStep(update))
  {
    forall w: SimulationState, t: TickInput, before: real {:trigger TickStep(update)(w, t), WorldInvariant(w, before)} | WorldInvariant(w, before) && before <= t.now
      ensures WorldInvariant(TickStep(update)(w, t), t.now)
    {
      TickPreservesInvariant(w, before, t.paused, SimulationDelta(t.deltaTime, w.speed), t.now, update, t.draws);
    }
  }

  /** The tail of a clock that never goes back never goes back, from the first reading on. */
  lemma ClockMonotoneTail(start: real, inputs: seq<TickInput>)
    requires |inputs| > 0 && ClockMonotone(start, inputs)
    ensures ClockMonotone(inputs[0].now, inputs[1..])
    ensures LastReading(inputs[0].now, inputs[1..]) == LastReading(start, inputs)
  {
    var rest := inputs[1..];
    forall j | 1 <= j < |rest|
      ensures rest[j - 1].now <= rest[j].now
    {
      assert rest[j] == inputs[j + 1] && rest[j - 1] == inputs[j];
    }
    if |rest| > 0 {
      assert rest[0] == inputs[1];
    }
  }

  /** Over any run of invariant-keeping frames with a clock that never goes back, the
      invariant holds after every frame. */
  lemma {:induction false} RunPreservesInvariant(w: SimulationState, start: real, step: Step,
                                                 inputs: seq<TickInput>)
    requires StepKeepsInvariant(step)
    requires WorldInvariant(w, start) && ClockMonotone(start, inputs)
    ensures WorldInvariant(Run(w, step, inputs), LastReading(start, inputs))
    decreases |inputs|
  {
    if |inputs| > 0 {
      ClockMonotoneTail(start, inputs);
      RunPreservesInvariant(step(w, inputs[0]), inputs[0].now, step, inputs[1..]);
    }
  }

  /** The source's ticks over any run with a clock that never goes back. */
  lemma SourceRunPreservesInvariant(w: SimulationState, start: real, sqrt: real -> real, inputs: seq<TickInput>)
    requires WorldInvariant(w, start) && ClockMonotone(start, inputs)
    ensures WorldInvariant(Run(w, TickStep(SourceUpdate(sqrt)), inputs), LastReading(start, inputs))
  {
    SourceUpdateIsSound(sqrt);
    TickStepKeepsInvariant(SourceUpdate(sqrt));
    RunPreservesInvariant(w, start, TickStep(SourceUpdate(sqrt)), inputs);
  }

  /** `b` has the shape of `a`, no resource of `a` with food gained any, and every colony
      is where it was, with no less food. */
  predicate Monotone(a: SimulationState, b: SimulationState) {
    && |b.resources| == |a.resources| && |b.colonies| == |a.colonies|
    && (forall k :: 0 <= k < |a.resources| && 0.0 <= a.resources[k].amount ==>
          0.0 <= b.resources[k].amount <= a.resources[k].amount)
    && (forall k :: 0 <= k < |a.colonies| ==>
          b.colonies[k] == a.colonies[k].(foodStored := b.colonies[k].foodStored)
          && a.colonies[k].foodStored <= b.colonies[k].foodStored)
  }

  ghost predicate StepIsMonotone(step: Step) {
    forall w: SimulationState, t: TickInput {:trigger step(w, t)} :: Monotone(w, step(w, t))
  }

  lemma MonotoneTransitive(a: SimulationState, b: SimulationState, c: SimulationState)
    requires Monotone(a, b) && Monotone(b, c)
    ensures Monotone(a, c)
  {
  }

  /** No tick gives a resource food or takes food from a colony. */
  lemma TickIsMonotone(update: AntUpdate)
    ensures StepIsMonotone(TickStep(update))
  {
    forall w, t
      ensures Monotone(w, TickStep(update)(w, t))
    {
      if !t.paused {
        var dt := SimulationDelta(t.deltaTime, w.speed);
        var r := Tick(w, false, dt, t.now, update, t.draws);
        forall k | 0 <= k < |w.resources| && 0.0 <= w.resources[k].amount
          ensures 0.0 <= r.resources[k].amount <= w.resources[k].amount
        {
          TickResources(w, dt, t.now, update, t.draws, k);
        }
      }
    }
  }

  /** Over any run of monotone frames, no resource gains food and no colony loses any. */
  lemma {:induction false} RunIsMonotone(w: SimulationState, step: Step, inputs: seq<TickInput>)
    requires StepIsMonotone(step)
    ensures Monotone(w, Run(w, step, inputs))
    decreases |inputs|
  {
    if |inputs| > 0 {
      var next := step(w, inputs[0]);
      RunIsMonotone(next, step, inputs[1..]);
      MonotoneTransitive(w, next, Run(w, step, inputs));
    }
  }

  /** The source's ticks over any run. */
  lemma SourceRunIsMonotone(w: SimulationState, sqrt: real -> real, inputs: seq<TickInput>)
    ensures Monotone(w, Run(w, TickStep(SourceUpdate(sqrt)), inputs))
  {
    TickIsMonotone(SourceUpdate(sqrt));
    RunIsMonotone(w, TickStep(SourceUpdate(sqrt)), inputs);
  }
}
