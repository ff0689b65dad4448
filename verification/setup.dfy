/** The initial world (client/src/hooks/useSimulation.ts, `createInitialColony`,
    `createInitialAnts`, `createInitialResources`, the `useState` initialiser and
    `resetSimulation`). Every `Math.random()` draw is a parameter. */
module Setup {
  import opened Wrappers
  import opened Numeric
  import opened AntTypes
  import opened Geometry
  import opened Economy
  import opened Invariants
  import opened Simulation
  import opened Behaviour

  // ---------------------------------------------------------------------------------------
  // Decimal numerals for the generated ids

  function Digit(d: nat): (c: char)
    requires d < 10
    ensures '0' <= c <= '9'
  {
    (48 + d) as char
  }

  /** The decimal numeral of `n`, as a template literal prints it. */
  function Decimal(n: nat): (s: string)
    ensures 1 <= |s| && (n >= 10 ==> 2 <= |s|)
    ensures forall k :: 0 <= k < |s| ==> '0' <= s[k] <= '9'
    decreases n
  {
    if n < 10 then [Digit(n)] else Decimal(n / 10) + [Digit(n % 10)]
  }

  /** Different numbers print differently. */
  lemma {:induction false} DecimalInjective(a: nat, b: nat)
    requires Decimal(a) == Decimal(b)
    ensures a == b
    decreases a
  {
    if a >= 10 && b >= 10 {
      var s := Decimal(a);
      assert Digit(a % 10) == s[|s| - 1] == Digit(b % 10);
      assert (48 + a % 10) as char as int == 48 + a % 10;
      assert Decimal(a / 10) == s[..|s| - 1] == Decimal(b / 10);
      DecimalInjective(a / 10, b / 10);
    } else if a < 10 && b < 10 {
      assert Digit(a) == Decimal(a)[0] == Digit(b);
      assert (48 + a) as char as int == 48 + a;
    }
  }

  /** A common prefix cancels. */
  lemma PrefixCancels(p: string, x: string, y: string)
    requires p + x == p + y
    ensures x == y
  {
    assert x == (p + x)[|p|..];
    assert y == (p + y)[|p|..];
  }

  function AntId(i: nat): string {
    "ant-" + Decimal(i)
  }

  /** Different indices give different ant ids. */
  lemma AntIdInjective(i: nat, j: nat)
    requires AntId(i) == AntId(j)
    ensures i == j
  {
    PrefixCancels("ant-", Decimal(i), Decimal(j));
    DecimalInjective(i, j);
  }

  // ---------------------------------------------------------------------------------------
  // The colony

  /** `TERRAIN_SIZE`. */
  const TerrainSize := 100.0

  /** `createInitialColony()`: colony-1 at the origin with 200 food, a population of 20, one
      queen, 15 workers and 4 soldiers. */
  function CreateInitialColony(): (c: Colony)
    ensures c.id == "colony-1" && c.position == Origin && c.foodStored == 200.0
    ensures c.population == 20 && c.queens == 1 && c.workers == 15 && c.soldiers == 4
  {
    Colony("colony-1", Origin, 200.0, 20, 1, 15, 4)
  }

  // ---------------------------------------------------------------------------------------
  // The ants

  datatype Role = Worker | Soldier | Queen

  /** The first `workers` indices are workers, the next `soldiers` soldiers, the rest queens. */
  function RoleOf(c: Colony, i: nat): Role {
    if i < c.workers then Worker
    else if i < c.workers + c.soldiers then Soldier
    else Queen
  }

  /** The draws behind one initial ant: its speed, strength and sensing factors, its place
      around the colony, its first target and its lifespan factor. The heading draw of the
      source is not modelled. */
  datatype AntSeed = AntSeed(speed: real, strength: real, sense: real, place: Jitter, aim: Jitter, lifespan: real)

  predicate IsAntSeed(d: AntSeed) {
    IsDraw(d.speed) && IsDraw(d.strength) && IsDraw(d.sense) && IsJitter(d.place) && IsJitter(d.aim)
    && IsDraw(d.lifespan)
  }

  /** The genes of the role: for draws in [0, 1) they fall in the role's ranges. */
  function RoleGenes(role: Role, d: AntSeed): (g: Genes)
    ensures IsAntSeed(d) ==> GenesFit(role, g)
  {
    match role
    case Worker => Genes(1.0 + d.speed * 0.5, 1.0, 5.0 + d.sense * 2.0, 100.0, 100.0)
    case Soldier => Genes(1.5 + d.speed * 0.5, 3.0 + d.strength, 7.0 + d.sense * 2.0, 200.0, 60.0)
    case Queen => Genes(0.5, 1.0, 3.0, 300.0, 150.0)
  }

  /** The ranges the genes of a role fall in for draws in [0, 1): workers are quick (speed in
      [1, 1.5)), sense 5 to 7, and carry 100; soldiers are quicker (speed in [1.5, 2)), three
      to four times as strong, sense 7 to 9, have 200 health and carry 60; the queen is slow
      (0.5), senses 3, has 300 health and carries 150. */
  predicate GenesFit(role: Role, g: Genes) {
    match role
    case Worker =>
      && 1.0 <= g.speed < 1.5 && g.strength == 1.0 && 5.0 <= g.senseRange < 7.0
      && g.maxHealth == 100.0 && g.maxFoodCapacity == 100.0
    case Soldier =>
      && 1.5 <= g.speed < 2.0 && 3.0 <= g.strength < 4.0 && 7.0 <= g.senseRange < 9.0
      && g.maxHealth == 200.0 && g.maxFoodCapacity == 60.0
    case Queen =>
      && g.speed == 0.5 && g.strength == 1.0 && g.senseRange == 3.0
      && g.maxHealth == 300.0 && g.maxFoodCapacity == 150.0
  }

  /** Ant `i` of `createInitialAnts`. */
  function InitialAnt(c: Colony, i: nat, d: AntSeed): (a: Ant)
    ensures a.id == AntId(i) && a.colony == c.id
    ensures a.state == Exploring && !a.carryingFood && a.generation == 1 && a.age == 0.0
    ensures a.speed == a.genes.speed && a.health == a.genes.maxHealth
    ensures a.foodLevel == a.genes.maxFoodCapacity * 0.8 && FoodBounded(a)
    ensures a.position.y == 0.0 && a.target.Some? && a.target.value.y == 0.0
    ensures IsAntSeed(d) ==>
              && GenesFit(RoleOf(c, i), a.genes)
              && WithinOnGround(a.position, c.position, 5.0)
              && WithinOnGround(a.target.value, Origin, TerrainSize / 3.0)
              && 150.0 <= a.maxAge < 250.0
  {
    var g := RoleGenes(RoleOf(c, i), d);
    Ant(AntId(i), RandomPosition(c.position, 5.0, d.place), g.speed, g.maxHealth, g.maxFoodCapacity * 0.8,
        c.id, Exploring, Some(RandomPosition(Origin, TerrainSize / 3.0, d.aim)), false, g, 1, 0.0,
        150.0 + d.lifespan * 100.0)
  }

  /** `createInitialAnts(colony, count)`: `count` ants (none for a count below 1), ant `i`
      with id `ant-i`. */
  function CreateInitialAnts(c: Colony, count: int, draws: nat -> AntSeed): (r: seq<Ant>)
    ensures |r| == if count > 0 then count else 0
    ensures forall i :: 0 <= i < |r| ==> r[i] == InitialAnt(c, i, draws(i))
  {
    var n := if count > 0 then count else 0;
    seq(n, i requires 0 <= i < n => InitialAnt(c, i, draws(i)))
  }

  /** The initial ants have distinct ids and food within bounds. */
  lemma InitialAntsInvariant(c: Colony, count: int, draws: nat -> AntSeed)
    ensures AntsInvariant(CreateInitialAnts(c, count, draws))
  {
    var r := CreateInitialAnts(c, count, draws);
    forall i, j | 0 <= i < j < |r|
      ensures r[i].id != r[j].id
    {
      if r[i].id == r[j].id {
        AntIdInjective(i, j);
      }
    }
  }

  // ---------------------------------------------------------------------------------------
  // The resources

  /** `numClusters`. */
  const Clusters := 5

  /** `Math.floor(count * 0.8 / numClusters)`: the resources placed in each cluster. */
  function PerCluster(count: int): (per: int)
    ensures 25 * per <= 4 * count < 25 * per + 25
  {
    (count * 4) / 25
  }

  /** The draws behind one resource: the spread of its cluster around the centre (unused
      for a scattered resource), its place, its kind and its amount. */
  datatype ResourceSeed = ResourceSeed(spread: real, place: Jitter, kind: real, amount: real)

  /** The draws of `createInitialResources`: one centre per cluster, one seed per clustered
      resource (by cluster and index) and one per scattered resource. */
  datatype ResourceDraws = ResourceDraws(centre: nat -> Jitter, clustered: (nat, nat) -> ResourceSeed,
                                         scattered: nat -> ResourceSeed)

  predicate IsResourceSeed(d: ResourceSeed) {
    IsDraw(d.spread) && IsJitter(d.place) && IsDraw(d.kind) && IsDraw(d.amount)
  }

  ghost predicate IsResourceDraws(d: ResourceDraws) {
    && (forall k :: IsJitter(d.centre(k)))
    && (forall k, i :: IsResourceSeed(d.clustered(k, i)))
    && (forall i :: IsResourceSeed(d.scattered(i)))
  }

  /** Resource `i` of cluster `k`: within `4 + 3 * spread` of the cluster centre, which lies
      within `TERRAIN_SIZE / 2.5` of the origin; food when the kind draw exceeds 0.2, water
      otherwise; 100 to 250 units. */
  function ClusterResource(k: nat, i: nat, draws: ResourceDraws): (r: Resource)
    ensures r.id == "resource-cluster-" + Decimal(k) + "-" + Decimal(i)
    ensures r.position.y == 0.0
    ensures r.kind == (if draws.clustered(k, i).kind > 0.2 then Food else Water)
    ensures IsJitter(draws.centre(k)) && IsResourceSeed(draws.clustered(k, i)) ==>
              && WithinOnGround(r.position, Origin, TerrainSize / 2.0)
              && 100.0 <= r.amount < 250.0
  {
    var d := draws.clustered(k, i);
    var centre := RandomPosition(Origin, TerrainSize / 2.5, draws.centre(k));
    var spread := 4.0 + d.spread * 3.0;
    Resource("resource-cluster-" + Decimal(k) + "-" + Decimal(i),
             RandomPosition(centre, spread, d.place),
             if d.kind > 0.2 then Food else Water,
             100.0 + d.amount * 150.0)
  }

  /** Scattered resource `i`: within `TERRAIN_SIZE / 2` of the origin; food when the kind
      draw exceeds 0.3, water otherwise; 50 to 100 units. */
  function ScatteredResource(i: nat, draws: ResourceDraws): (r: Resource)
    ensures r.id == "resource-random-" + Decimal(i)
    ensures r.position.y == 0.0
    ensures r.kind == (if draws.scattered(i).kind > 0.3 then Food else Water)
    ensures IsResourceSeed(draws.scattered(i)) ==>
              && WithinOnGround(r.position, Origin, TerrainSize / 2.0)
              && 50.0 <= r.amount < 100.0
  {
    var d := draws.scattered(i);
    Resource("resource-random-" + Decimal(i), RandomPosition(Origin, TerrainSize / 2.0, d.place),
             if d.kind > 0.3 then Food else Water, 50.0 + d.amount * 50.0)
  }

  /** The clustered resources, cluster by cluster, `per` of them in each. */
  function ClusteredResources(per: nat, draws: ResourceDraws): (r: seq<Resource>)
    ensures |r| == Clusters * per
    ensures forall j :: 0 <= j < |r| ==> r[j] == ClusterResource(j / per, j % per, draws)
  {
    seq(Clusters * per, j requires 0 <= j < Clusters * per => ClusterResource(j / per, j % per, draws))
  }

  function ScatteredResources(n: nat, draws: ResourceDraws): (r: seq<Resource>)
    ensures |r| == n
    ensures forall i :: 0 <= i < n ==> r[i] == ScatteredResource(i, draws)
  {
    seq(n, i requires 0 <= i < n => ScatteredResource(i, draws))
  }

  /** `createInitialResources(count)`: five clusters of `floor(count * 0.8 / 5)` resources
      each, then the remaining `count - 5 * floor(count * 0.8 / 5)` scattered. A loop bound
      below 1 runs no iteration. */
  function CreateInitialResources(count: int, draws: ResourceDraws): (r: seq<Resource>)
    ensures var per := PerCluster(count);
            var rest := count - Clusters * per;
            |r| == Clusters * (if per > 0 then per else 0) + (if rest > 0 then rest else 0)
  {
    var per := PerCluster(count);
    var rest := count - Clusters * per;
    ClusteredResources(if per > 0 then per else 0, draws) + ScatteredResources(if rest > 0 then rest else 0, draws)
  }

  /** For a count of at least 0 the clusters and the scattered rest make up exactly `count`
      resources; the clusters hold at most 80% of them, and fall short of 80% by fewer than
      five. */
  lemma InitialResourcesCount(count: int, draws: ResourceDraws)
    requires 0 <= count
    ensures |CreateInitialResources(count, draws)| == count
    ensures 25 * PerCluster(count) <= 4 * count < 25 * PerCluster(count) + 25
  {
  }

  /** The resource lies on the terrain, within `TERRAIN_SIZE / 2` of the origin on x and z,
      and holds a positive amount. */
  predicate OnTerrain(r: Resource) {
    WithinOnGround(r.position, Origin, TerrainSize / 2.0) && 0.0 < r.amount
  }

  lemma ClusteredOnTerrain(per: nat, draws: ResourceDraws)
    requires IsResourceDraws(draws)
    ensures forall j :: 0 <= j < Clusters * per ==> OnTerrain(ClusteredResources(per, draws)[j])
  {
    var r := ClusteredResources(per, draws);
    forall j | 0 <= j < Clusters * per
      ensures OnTerrain(r[j])
    {
      var k, i := j / per, j % per;
      assert IsJitter(draws.centre(k)) && IsResourceSeed(draws.clustered(k, i));
      assert r[j] == ClusterResource(k, i, draws);
    }
  }

  lemma ScatteredOnTerrain(n: nat, draws: ResourceDraws)
    requires IsResourceDraws(draws)
    ensures forall i :: 0 <= i < n ==> OnTerrain(ScatteredResources(n, draws)[i])
  {
    forall i | 0 <= i < n
      ensures OnTerrain(ScatteredResources(n, draws)[i])
    {
      assert IsResourceSeed(draws.scattered(i));
    }
  }

  /** Every initial resource lies on the terrain and holds food or water in a positive
      amount. */
  lemma InitialResourcesOnTerrain(count: int, draws: ResourceDraws)
    requires IsResourceDraws(draws)
    ensures var r := CreateInitialResources(count, draws);
            forall k :: 0 <= k < |r| ==> OnTerrain(r[k])
  {
    var per := PerCluster(count);
    var rest := count - Clusters * per;
    var p: nat := if per > 0 then per else 0;
    var n: nat := if rest > 0 then rest else 0;
    ClusteredOnTerrain(p, draws);
    ScatteredOnTerrain(n, draws);
    var a, b := ClusteredResources(p, draws), ScatteredResources(n, draws);
    assert CreateInitialResources(count, draws) == a + b;
    forall k | 0 <= k < |a + b|
      ensures OnTerrain((a + b)[k])
    {
      if k >= |a| {
        assert (a + b)[k] == b[k - |a|];
      }
    }
  }

  // ---------------------------------------------------------------------------------------
  // The fresh world

  /** The draws of one fresh world: the ants', the resources', and the terrain seed's. */
  datatype SetupDraws = SetupDraws(ants: nat -> AntSeed, resources: ResourceDraws, terrain: real)

  /** The fresh world both the `useState` initialiser (running) and `resetSimulation`
      (paused) build: time 0, speed 1, one colony with its 20 ants, 50 resources, no
      deposits, no predators, and a terrain seed below 1000. */
  function FreshWorld(paused: bool, d: SetupDraws): (w: SimulationState)
    ensures w.time == 0.0 && w.speed == 1.0 && w.isPaused == paused
    ensures w.colonies == [CreateInitialColony()] && |w.ants| == 20
    ensures w.pheromones == [] && w.predators == []
    ensures IsDraw(d.terrain) ==> 0.0 <= w.terrainSeed < 1000.0
  {
    var colony := CreateInitialColony();
    SimulationState(0.0, 1.0, paused, CreateInitialAnts(colony, colony.population, d.ants), [colony],
                    CreateInitialResources(50, d.resources), [], [], d.terrain * 1000.0)
  }

  /** The state the hook starts with: the fresh world, running. */
  function InitialWorld(d: SetupDraws): (w: SimulationState)
    ensures !w.isPaused && w.time == 0.0 && w.speed == 1.0
    ensures w.colonies == [CreateInitialColony()] && |w.ants| == 20 && w.pheromones == [] && w.predators == []
  {
    FreshWorld(false, d)
  }

  /** `resetSimulation()`: the fresh world, paused. */
  function Reset(d: SetupDraws): (w: SimulationState)
    ensures w.isPaused && w.time == 0.0 && w.speed == 1.0
    ensures w.colonies == [CreateInitialColony()] && |w.ants| == 20 && w.pheromones == [] && w.predators == []
  {
    FreshWorld(true, d)
  }

  /** With the same draws, a reset rebuilds the initial world except that it is paused. */
  lemma ResetIsPausedStart(d: SetupDraws)
    ensures Reset(d) == InitialWorld(d).(isPaused := true)
  {
  }

  /** A fresh world holds 50 resources, 40 of them clustered, and satisfies the invariant at
      any clock reading. */
  lemma FreshWorldInvariant(paused: bool, d: SetupDraws, now: real)
    requires IsResourceDraws(d.resources)
    ensures |FreshWorld(paused, d).resources| == 50 && PerCluster(50) == 8
    ensures WorldInvariant(FreshWorld(paused, d), now)
  {
    var colony := CreateInitialColony();
    InitialAntsInvariant(colony, colony.population, d.ants);
    InitialResourcesCount(50, d.resources);
    InitialResourcesOnTerrain(50, d.resources);
  }

  /** The first worker, the first soldier and the queen of a fresh world. */
  lemma FreshWorldRoles(paused: bool, d: SetupDraws)
    requires forall i :: IsAntSeed(d.ants(i))
    ensures var w := FreshWorld(paused, d);
            && (forall i :: 0 <= i < 15 ==> GenesFit(Worker, w.ants[i].genes))
            && (forall i :: 15 <= i < 19 ==> GenesFit(Soldier, w.ants[i].genes))
            && GenesFit(Queen, w.ants[19].genes)
  {
    var w := FreshWorld(paused, d);
    forall i | 0 <= i < 20
      ensures GenesFit(RoleOf(CreateInitialColony(), i), w.ants[i].genes)
    {
      assert IsAntSeed(d.ants(i));
    }
  }

  /** From a fresh world, every run of the source's ticks with a clock that never goes back
      keeps the invariant. */
  lemma FreshRunsKeepInvariant(paused: bool, d: SetupDraws, sqrt: real -> real, start: real,
                               inputs: seq<TickInput>)
    requires IsResourceDraws(d.resources) && ClockMonotone(start, inputs)
    ensures WorldInvariant(Run(FreshWorld(paused, d), TickStep(SourceUpdate(sqrt)), inputs), LastReading(start, inputs))
  {
    FreshWorldInvariant(paused, d, start);
    SourceRunPreservesInvariant(FreshWorld(paused, d), start, sqrt, inputs);
  }

  /** Every colony of a world reached from a fresh one sits at the origin, where the
      colony was created. */
  lemma FreshRunsColoniesAtOrigin(paused: bool, d: SetupDraws, sqrt: real -> real, inputs: seq<TickInput>)
    ensures var w := Run(FreshWorld(paused, d), TickStep(SourceUpdate(sqrt)), inputs);
            forall c :: c in w.colonies ==> c.position == Origin
  {
    var w0 := FreshWorld(paused, d);
    var w := Run(w0, TickStep(SourceUpdate(sqrt)), inputs);
    SourceRunIsMonotone(w0, sqrt, inputs);
    forall c | c in w.colonies
      ensures c.position == Origin
    {
      var k :| 0 <= k < |w.colonies| && w.colonies[k] == c;
      assert w.colonies[k] == w0.colonies[k].(foodStored := w.colonies[k].foodStored);
    }
  }

  /** In every world reached from a fresh one, the RETURNING blend with the corrected home
      vector is the blend the source computes with its precedence slip. */
  lemma FreshRunsBlendAsWritten(paused: bool, d: SetupDraws, sqrt: real -> real, inputs: seq<TickInput>,
                                ant: Ant, trail: Pheromone)
    ensures var w := Run(FreshWorld(paused, d), TickStep(SourceUpdate(sqrt)), inputs);
            BlendedTarget(sqrt, ant, OwnColony(w, ant), trail) == BlendedTargetAsWritten(sqrt, ant, OwnColony(w, ant), trail)
  {
    var w := Run(FreshWorld(paused, d), TickStep(SourceUpdate(sqrt)), inputs);
    FreshRunsColoniesAtOrigin(paused, d, sqrt, inputs);
    var home := OwnColony(w, ant);
    assert home.Some? ==> home.value.position == Origin;
  }
}
