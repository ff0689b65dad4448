/** Agent behaviour (client/src/utils/antBehaviors.ts, `updateAntPosition` and
    `updateAntState`).

    The per-state transitions are written as functions returning `Some(ant')` where the source
    returns early and `None` where it breaks out of the `switch`; a `None` falls through to the
    aging block, so an early transition skips aging and food consumption. */
module Behaviour {
  import opened Wrappers
  import opened Numeric
  import opened AntTypes
  import opened Geometry
  import opened Scent
  import opened Seqs

  /** Distance under which a target counts as reached. */
  const ArrivalRadius := 0.5
  /** Radius of a fresh wander target around the ant. */
  const WanderRadius := 10.0
  /** Distance under which an ant is home, or stands at a food resource. */
  const HomeRadius := 1.0
  /** Food an ant eats on delivering at home. */
  const Replenish := 40.0
  /** Food consumed and age gained per fall-through tick. */
  const Hunger := 0.005
  const AgeStep := 0.01

  /** The draws one `updateAntState` call may use: the one `Math.random()` comparison of the
      state's branch, and the pair behind a fresh wander target. */
  datatype StateDraws = StateDraws(choice: real, wander: Jitter)

  /** `b` differs from `a` at most in state, target, carried food, food level and age. */
  predicate StateFieldsOnly(a: Ant, b: Ant) {
    b == a.(state := b.state, target := b.target, carryingFood := b.carryingFood,
            foodLevel := b.foodLevel, age := b.age)
  }

  /** What every transition of the state machine keeps: only the state fields change, the age
      does not, food stays within bounds, and the state is kept or becomes EXPLORING,
      GATHERING or RETURNING. */
  predicate Stepped(a: Ant, b: Ant) {
    && StateFieldsOnly(a, b)
    && b.age == a.age
    && (FoodBounded(a) ==> FoodBounded(b))
    && (b.state == a.state || b.state == Exploring || b.state == Gathering || b.state == Returning)
  }

  /** `t` is a fresh wander target around `center`: on the ground and, for draws in [0, 1),
      within the wander radius on x and z. */
  predicate WanderTarget(t: Option<Vec3>, center: Vec3, w: Jitter) {
    t.Some? && t.value.y == 0.0 && (IsJitter(w) ==> WithinOnGround(t.value, center, WanderRadius))
  }

  function Wander(center: Vec3, w: Jitter): (t: Option<Vec3>)
    ensures WanderTarget(t, center, w)
  {
    Some(RandomPosition(center, WanderRadius, w))
  }

  // ---------------------------------------------------------------------------------------
  // Movement

  /** One step of `direction * speed * deltaTime` on the ground plane towards `t`. */
  function StepToward(sqrt: real -> real, ant: Ant, t: Vec3, dt: real): Vec3 {
    var dir := Normalize(sqrt, Vec3(t.x - ant.position.x, 0.0, t.z - ant.position.z));
    Vec3(ant.position.x + dir.x * ant.speed * dt, 0.0, ant.position.z + dir.z * ant.speed * dt)
  }

  /** `updateAntPosition(ant, deltaTime)`; the rotation is not modelled. */
  function UpdateAntPosition(sqrt: real -> real, ant: Ant, dt: real, w: Jitter): (r: Ant)
    // only position and target can change
    ensures r == ant.(position := r.position, target := r.target)
    ensures ant.state == Dead ==> r == ant
    ensures ant.target.None? && ant.state != Exploring ==> r == ant
    ensures ant.target.None? && ant.state == Exploring ==>
              r.position == ant.position && WanderTarget(r.target, ant.position, w)
    ensures ant.state != Dead && ant.target.Some? ==> r.position.y == 0.0
    ensures ant.state != Dead && ant.target.Some? ==>
              if ant.state == Exploring && Distance(sqrt, r.position, ant.target.value) < ArrivalRadius
              then WanderTarget(r.target, r.position, w)
              else r.target == ant.target
    // a zero direction vector produces no movement
    ensures ant.state != Dead && ant.target.Some? && ant.target.value.x == ant.position.x
            && ant.target.value.z == ant.position.z ==>
              r.position == Vec3(ant.position.x, 0.0, ant.position.z)
  {
    if ant.state == Dead then ant
    else if ant.target.Some? then
      var t := ant.target.value;
      var next := StepToward(sqrt, ant, t, dt);
      if Distance(sqrt, next, t) < ArrivalRadius then
        ant.(position := next, target := if ant.state == Exploring then Wander(next, w) else ant.target)
      else
        ant.(position := next)
    else if ant.state == Exploring then
      ant.(target := Wander(ant.position, w))
    else
      ant
  }

  // ---------------------------------------------------------------------------------------
  // Sensing against the previous snapshot

  /** The exploring filter: a food resource with food left, strictly within sensing range. */
  predicate SensesFood(sqrt: real -> real, ant: Ant, r: Resource) {
    r.kind == Food && Distance(sqrt, ant.position, r.position) < ant.genes.senseRange && r.amount > 0.0
  }

  /** The gathering check: a food resource with food left, strictly within 1 of the ant. */
  predicate FoodHere(sqrt: real -> real, ant: Ant, r: Resource) {
    r.kind == Food && Distance(sqrt, r.position, ant.position) < HomeRadius && r.amount > 0.0
  }

  predicate Reached(sqrt: real -> real, ant: Ant) {
    ant.target.Some? && Distance(sqrt, ant.position, ant.target.value) < ArrivalRadius
  }

  /** The first colony whose id is the ant's colony id (`colonies.find`). */
  function OwnColony(world: SimulationState, ant: Ant): (c: Option<Colony>)
    ensures c.Some? ==> c.value in world.colonies && c.value.id == ant.colony
    ensures c.None? <==> forall k :: 0 <= k < |world.colonies| ==> world.colonies[k].id != ant.colony
  {
    Find(world.colonies, (c: Colony) => c.id == ant.colony)
  }

  // ---------------------------------------------------------------------------------------
  // Per-state transitions

  /** IDLE: with probability 0.05 start exploring towards a fresh wander target. */
  function IdleStep(ant: Ant, d: StateDraws): (r: Option<Ant>)
    ensures r.Some? <==> d.choice < 0.05
    ensures r.Some? ==> Stepped(ant, r.value)
    ensures r.Some? ==> r.value == ant.(state := Exploring, target := r.value.target)
                        && WanderTarget(r.value.target, ant.position, d.wander)
  {
    if d.choice < 0.05 then Some(ant.(state := Exploring, target := Wander(ant.position, d.wander)))
    else None
  }

  /** EXPLORING: head for the first sensed food resource; failing that, while not carrying and
      with probability 0.85, follow the strongest food trail within 1.5 times the sensing range
      (gathering when its strength exceeds 0.6); failing that, re-target once the target is
      reached. */
  function ExploreStep(sqrt: real -> real, ant: Ant, world: SimulationState, d: StateDraws): (r: Option<Ant>)
    ensures r.Some? ==> StateFieldsOnly(ant, r.value) && r.value.carryingFood == ant.carryingFood
                        && r.value.foodLevel == ant.foodLevel && r.value.age == ant.age
    ensures r.Some? ==> Stepped(ant, r.value)
    ensures (exists k :: 0 <= k < |world.resources| && SensesFood(sqrt, ant, world.resources[k])) ==>
              exists k :: 0 <= k < |world.resources| && SensesFood(sqrt, ant, world.resources[k])
                          && (forall j :: 0 <= j < k ==> !SensesFood(sqrt, ant, world.resources[j]))
                          && r == Some(ant.(state := Gathering, target := Some(world.resources[k].position)))
    ensures (forall k :: 0 <= k < |world.resources| ==> !SensesFood(sqrt, ant, world.resources[k]))
            && !ant.carryingFood && d.choice < 0.85 ==>
              var trail := FindStrongestPheromone(sqrt, ant.position, world.pheromones, FoodTrail,
                                                  ant.genes.senseRange * 1.5);
              trail.Some? ==>
                r == Some(ant.(target := Some(trail.value.position),
                               state := if trail.value.strength > 0.6 then Gathering else Exploring))
    ensures (forall k :: 0 <= k < |world.resources| ==> !SensesFood(sqrt, ant, world.resources[k]))
            && (ant.carryingFood || d.choice >= 0.85
                || FindStrongestPheromone(sqrt, ant.position, world.pheromones, FoodTrail,
                                          ant.genes.senseRange * 1.5).None?) ==>
              (r.Some? <==> Reached(sqrt, ant))
              && (r.Some? ==> r.value == ant.(target := r.value.target)
                              && WanderTarget(r.value.target, ant.position, d.wander))
  {
    var food := FirstWhere(world.resources, (res: Resource) => SensesFood(sqrt, ant, res));
    if food.Some? then
      Some(ant.(state := Gathering, target := Some(world.resources[food.value].position)))
    else
      var trail := if !ant.carryingFood && d.choice < 0.85
                   then FindStrongestPheromone(sqrt, ant.position, world.pheromones, FoodTrail,
                                               ant.genes.senseRange * 1.5)
                   else None;
      if trail.Some? then
        Some(ant.(target := Some(trail.value.position),
                  state := if trail.value.strength > 0.6 then Gathering else Exploring))
      else if Reached(sqrt, ant) then
        Some(ant.(target := Wander(ant.position, d.wander)))
      else
        None
  }

  /** GATHERING: on reaching the target, with the own colony known, pick up food and head home
      if a food resource lies within 1, otherwise give up and explore without food. */
  function GatherStep(sqrt: real -> real, ant: Ant, world: SimulationState, d: StateDraws): (r: Option<Ant>)
    ensures r.Some? <==> OwnColony(world, ant).Some? && Reached(sqrt, ant)
    ensures r.Some? ==> Stepped(ant, r.value)
    ensures r.Some? && (exists k :: 0 <= k < |world.resources| && FoodHere(sqrt, ant, world.resources[k])) ==>
              r.value == ant.(state := Returning, target := Some(OwnColony(world, ant).value.position),
                              carryingFood := true)
    ensures r.Some? && (forall k :: 0 <= k < |world.resources| ==> !FoodHere(sqrt, ant, world.resources[k])) ==>
              r.value == ant.(state := Exploring, target := r.value.target, carryingFood := false)
              && WanderTarget(r.value.target, ant.position, d.wander)
  {
    var colony := OwnColony(world, ant);
    if colony.Some? && Reached(sqrt, ant) then
      var food := Find(world.resources, (res: Resource) => FoodHere(sqrt, ant, res));
      if food.Some? then
        Some(ant.(state := Returning, target := Some(colony.value.position), carryingFood := true))
      else
        Some(ant.(state := Exploring, target := Wander(ant.position, d.wander), carryingFood := false))
    else
      None
  }

  /** The vector from the ant towards home used by the RETURNING blend, as the source computes
      it: `home?.position.x || 0 - ant.position.x` parses as
      `(home?.position.x) || (0 - ant.position.x)`, so a colony coordinate that is present and
      non-zero is used as is, not relative to the ant; only a zero or missing coordinate
      yields the vector towards 0. */
  function HomeOffsetAsWritten(home: Option<Colony>, pos: Vec3): (v: Vec3)
    ensures v.y == 0.0
    ensures home.Some? && home.value.position.x != 0.0 ==> v.x == home.value.position.x
    ensures home.Some? && home.value.position.z != 0.0 ==> v.z == home.value.position.z
    ensures !(home.Some? && home.value.position.x != 0.0) ==> pos.x + v.x == 0.0
    ensures !(home.Some? && home.value.position.z != 0.0) ==> pos.z + v.z == 0.0
  {
    Vec3(if home.Some? && home.value.position.x != 0.0 then home.value.position.x else 0.0 - pos.x,
         0.0,
         if home.Some? && home.value.position.z != 0.0 then home.value.position.z else 0.0 - pos.z)
  }

  /** The evidently intended home vector, `(home?.position.x || 0) - ant.position.x`: it leads
      from the ant to its colony (to the origin when the colony is unknown). */
  function HomeOffset(home: Option<Colony>, pos: Vec3): (v: Vec3)
    ensures v.y == 0.0
    ensures home.Some? ==> pos.x + v.x == home.value.position.x && pos.z + v.z == home.value.position.z
    ensures home.None? ==> pos.x + v.x == 0.0 && pos.z + v.z == 0.0
  {
    var hx := if home.Some? then home.value.position.x else 0.0;
    var hz := if home.Some? then home.value.position.z else 0.0;
    Vec3(hx - pos.x, 0.0, hz - pos.z)
  }

  /** With a colony 10 units along x and the ant 10 units beyond it, the source's home vector
      points away from home. */
  lemma HomeOffsetSlip()
    ensures var home := Some(Colony("colony-1", Vec3(10.0, 0.0, 0.0), 200.0, 20, 1, 15, 4));
            var pos := Vec3(20.0, 0.0, 0.0);
            && HomeOffsetAsWritten(home, pos) == Vec3(10.0, 0.0, 0.0)
            && HomeOffset(home, pos) == Vec3(-10.0, 0.0, 0.0)
            && pos.x + HomeOffsetAsWritten(home, pos).x != home.value.position.x
  {
  }

  /** For a colony at the origin, where the reset world places its only colony, the source's
      home vector and the intended one coincide. */
  lemma HomeOffsetAtOrigin(home: Option<Colony>, pos: Vec3)
    requires home.Some? ==> home.value.position.x == 0.0 && home.value.position.z == 0.0
    ensures HomeOffsetAsWritten(home, pos) == HomeOffset(home, pos)
  {
  }

  /** The blended RETURNING target for a home vector `offset`: 5 units ahead along 70% of
      the home direction plus 30% of the direction towards the pheromone. */
  function BlendWith(sqrt: real -> real, ant: Ant, offset: Vec3, trail: Pheromone): (t: Vec3)
    ensures t.y == 0.0
    ensures offset.y == 0.0 && trail.position.x == ant.position.x && trail.position.z == ant.position.z ==>
              t.x == ant.position.x + Normalize(sqrt, offset).x * 3.5
              && t.z == ant.position.z + Normalize(sqrt, offset).z * 3.5
  {
    var homeDir := Normalize(sqrt, offset);
    var trailDir := Normalize(sqrt, Vec3(trail.position.x - ant.position.x, 0.0, trail.position.z - ant.position.z));
    Vec3(ant.position.x + (homeDir.x * 0.7 + trailDir.x * 0.3) * 5.0,
         0.0,
         ant.position.z + (homeDir.z * 0.7 + trailDir.z * 0.3) * 5.0)
  }

  /** The blend of the model, on the intended home vector `HomeOffset`. */
  function BlendedTarget(sqrt: real -> real, ant: Ant, home: Option<Colony>, trail: Pheromone): (t: Vec3)
    ensures t.y == 0.0
    ensures (home.Some? ==> home.value.position.x == 0.0 && home.value.position.z == 0.0) ==>
              t == BlendedTargetAsWritten(sqrt, ant, home, trail)
  {
    assert (home.Some? ==> home.value.position.x == 0.0 && home.value.position.z == 0.0) ==>
             HomeOffset(home, ant.position) == HomeOffsetAsWritten(home, ant.position) by {
      if home.Some? ==> home.value.position.x == 0.0 && home.value.position.z == 0.0 {
        HomeOffsetAtOrigin(home, ant.position);
      }
    }
    BlendWith(sqrt, ant, HomeOffset(home, ant.position), trail)
  }

  /** The blend of lines 256-273 as the source computes it, on `HomeOffsetAsWritten`. */
  function BlendedTargetAsWritten(sqrt: real -> real, ant: Ant, home: Option<Colony>, trail: Pheromone): (t: Vec3)
    ensures t.y == 0.0
  {
    BlendWith(sqrt, ant, HomeOffsetAsWritten(home, ant.position), trail)
  }

  /** RETURNING: within 1 of the own colony, drop the load and explore, eating 40 (capped at
      the capacity) only when food was carried; still en route, with probability 0.7 steer by
      the strongest home trail within sensing range. */
  function ReturnStep(sqrt: real -> real, ant: Ant, world: SimulationState, d: StateDraws): (r: Option<Ant>)
    ensures r.Some? ==> Stepped(ant, r.value)
    ensures var home := OwnColony(world, ant);
            home.Some? && Distance(sqrt, ant.position, home.value.position) < HomeRadius ==>
              && r.Some?
              && r.value == ant.(state := Exploring, target := r.value.target, carryingFood := false,
                                 foodLevel := r.value.foodLevel)
              && WanderTarget(r.value.target, ant.position, d.wander)
              && (ant.carryingFood ==> r.value.foodLevel == Min(ant.foodLevel + Replenish, ant.genes.maxFoodCapacity))
              && (!ant.carryingFood ==> r.value.foodLevel == ant.foodLevel)
    ensures var home := OwnColony(world, ant);
            !(home.Some? && Distance(sqrt, ant.position, home.value.position) < HomeRadius) ==>
              && (r.Some? <==> d.choice < 0.7 && FindStrongestPheromone(sqrt, ant.position, world.pheromones,
                                                                           HomeTrail, ant.genes.senseRange).Some?)
              && (r.Some? ==> r.value == ant.(target := r.value.target) && r.value.target.Some?
                              && r.value.target.value.y == 0.0)
  {
    var home := OwnColony(world, ant);
    if home.Some? && Distance(sqrt, ant.position, home.value.position) < HomeRadius then
      if ant.carryingFood then
        Some(ant.(state := Exploring, target := Wander(ant.position, d.wander), carryingFood := false,
                  foodLevel := Min(ant.foodLevel + Replenish, ant.genes.maxFoodCapacity)))
      else
        Some(ant.(state := Exploring, target := Wander(ant.position, d.wander)))
    else if d.choice < 0.7 then
      var trail := FindStrongestPheromone(sqrt, ant.position, world.pheromones, HomeTrail, ant.genes.senseRange);
      if trail.Some? then Some(ant.(target := Some(BlendedTarget(sqrt, ant, home, trail.value))))
      else None
    else
      None
  }

  // ---------------------------------------------------------------------------------------
  // Aging and the whole state update

  /** The fall-through block: a starved ant dies; otherwise it dies, with age and food level
      unchanged, if one more age step would pass its lifespan; otherwise it ages by 0.01 and
      eats 0.005, never going below 0. The state of a surviving ant is not touched, so a DEAD
      ant that falls through keeps aging and stays DEAD. */
  function Age(ant: Ant): (r: Ant)
    ensures ant.foodLevel <= 0.0 ==> r == ant.(state := Dead)
    ensures ant.foodLevel > 0.0 && ant.age + AgeStep > ant.maxAge ==> r == ant.(state := Dead)
    ensures ant.foodLevel > 0.0 && ant.age + AgeStep <= ant.maxAge ==>
              r == ant.(age := ant.age + AgeStep, foodLevel := Max(0.0, ant.foodLevel - Hunger))
    ensures r.state == Dead || r.state == ant.state
    ensures 0.0 <= ant.foodLevel ==> 0.0 <= r.foodLevel <= ant.foodLevel
  {
    if ant.foodLevel <= 0.0 then ant.(state := Dead)
    else
      var newFood := Max(0.0, ant.foodLevel - Hunger);
      var newAge := ant.age + AgeStep;
      if newAge > ant.maxAge then ant.(state := Dead)
      else ant.(foodLevel := newFood, age := newAge)
  }

  /** `n` consecutive fall-through ticks. */
  function AgeTimes(ant: Ant, n: nat): Ant
    decreases n
  {
    if n == 0 then ant else AgeTimes(Age(ant), n - 1)
  }

  lemma {:induction false} DeadStaysDeadAging(ant: Ant, n: nat)
    requires ant.state == Dead
    ensures AgeTimes(ant, n).state == Dead
    decreases n
  {
    if n > 0 {
      DeadStaysDeadAging(Age(ant), n - 1);
    }
  }

  /** An ant that keeps falling through is DEAD once `n` age steps would pass its lifespan. */
  lemma {:induction false} DiesOfAge(ant: Ant, n: nat)
    requires 1 <= n
    requires ant.age + AgeStep * (n as real) > ant.maxAge
    ensures AgeTimes(ant, n).state == Dead
    decreases n
  {
    var next := Age(ant);
    if next.state == Dead {
      DeadStaysDeadAging(next, n - 1);
    } else {
      assert next.age == ant.age + AgeStep && ant.age + AgeStep <= ant.maxAge;
      assert next.maxAge == ant.maxAge;
      assert next.age + AgeStep * ((n - 1) as real) > next.maxAge;
      DiesOfAge(next, n - 1);
    }
  }

  /** An ant that keeps falling through with at most `0.005 * (n - 1)` food is DEAD after `n`
      ticks: it eats down to 0 and then starves. */
  lemma {:induction false} DiesOfHunger(ant: Ant, n: nat)
    requires 1 <= n
    requires ant.foodLevel <= Hunger * ((n - 1) as real)
    ensures AgeTimes(ant, n).state == Dead
    decreases n
  {
    var next := Age(ant);
    if next.state == Dead {
      DeadStaysDeadAging(next, n - 1);
    } else {
      assert ant.foodLevel > 0.0 && n >= 2;
      assert next.foodLevel == Max(0.0, ant.foodLevel - Hunger);
      assert next.foodLevel <= Hunger * ((n - 2) as real);
      DiesOfHunger(next, n - 1);
    }
  }

  /** The transition of the ant's state branch, or None when the branch breaks out of the
      `switch`; the reserved states and DEAD always fall through. */
  function Transition(sqrt: real -> real, ant: Ant, world: SimulationState, d: StateDraws): (r: Option<Ant>)
    ensures r.Some? ==> Stepped(ant, r.value)
  {
    match ant.state
    case Idle => IdleStep(ant, d)
    case Exploring => ExploreStep(sqrt, ant, world, d)
    case Gathering => GatherStep(sqrt, ant, world, d)
    case Returning => ReturnStep(sqrt, ant, world, d)
    case _ => None
  }

  /** `updateAntState(ant, state)`, evaluated against the previous snapshot `world`. */
  function UpdateAntState(sqrt: real -> real, ant: Ant, world: SimulationState, d: StateDraws): (r: Ant)
    ensures StateFieldsOnly(ant, r)
    ensures ant.state == Dead ==> r.state == Dead
    ensures FoodBounded(ant) ==> FoodBounded(r)
    ensures r.state.IsReserved() ==> r.state == ant.state
    ensures Transition(sqrt, ant, world, d).Some? ==> r == Transition(sqrt, ant, world, d).value
    ensures Transition(sqrt, ant, world, d).None? ==> r == Age(ant)
  {
    match Transition(sqrt, ant, world, d)
    case Some(next) => next
    case None => Age(ant)
  }
}
