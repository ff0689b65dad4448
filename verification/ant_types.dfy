/** The entities of the simulation: ants and their genes, pheromone deposits, resources,
    colonies, predators and the world snapshot one tick maps to the next.

    Numbers of the source are JavaScript doubles; here they are exact reals. Ant and predator
    rotations are not part of the model (they are presentation only). */
module AntTypes {
  import opened Wrappers

  datatype Vec3 = Vec3(x: real, y: real, z: real)

  const Origin := Vec3(0.0, 0.0, 0.0)

  datatype AntState =
    | Idle
    | Exploring
    | Gathering
    | Returning
    | Reproducing
    | Fleeing
    | Fighting
    | Dead
  {
    /** States present in the data model but entered by no behaviour rule. */
    predicate IsReserved() {
      this == Reproducing || this == Fleeing || this == Fighting
    }
  }

  datatype PheromoneType = FoodTrail | HomeTrail | DangerTrail

  datatype ResourceType = Food | Water

  datatype PredatorState = PredatorIdle | Hunting | Eating | Resting

  datatype Genes = Genes(
    speed: real,
    strength: real,
    senseRange: real,
    maxHealth: real,
    maxFoodCapacity: real)

  datatype Ant = Ant(
    id: string,
    position: Vec3,
    speed: real,
    health: real,
    foodLevel: real,
    colony: string,
    state: AntState,
    target: Option<Vec3>,
    carryingFood: bool,
    genes: Genes,
    generation: int,
    age: real,
    maxAge: real)

  datatype Pheromone = Pheromone(
    id: string,
    position: Vec3,
    kind: PheromoneType,
    strength: real,
    createdAt: real)

  datatype Resource = Resource(
    id: string,
    position: Vec3,
    kind: ResourceType,
    amount: real)

  datatype Colony = Colony(
    id: string,
    position: Vec3,
    foodStored: real,
    population: int,
    queens: int,
    workers: int,
    soldiers: int)

  datatype Predator = Predator(
    id: string,
    position: Vec3,
    speed: real,
    health: real,
    state: PredatorState,
    target: Option<Ant>)

  datatype SimulationState = SimulationState(
    time: real,
    speed: real,
    isPaused: bool,
    ants: seq<Ant>,
    colonies: seq<Colony>,
    resources: seq<Resource>,
    pheromones: seq<Pheromone>,
    predators: seq<Predator>,
    terrainSeed: real)

  /** The bound every ant's food level is meant to keep: `0 <= foodLevel <= maxFoodCapacity`. */
  predicate FoodBounded(a: Ant) {
    0.0 <= a.foodLevel <= a.genes.maxFoodCapacity
  }
}
