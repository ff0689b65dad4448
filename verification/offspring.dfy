/** Offspring creation (client/src/utils/antBehaviors.ts, `createOffspring`): a clone of the
    parent's genes in which each gene mutates by up to 10% with probability `mutationRate`.
    No tick invokes it. */
module Offspring {
  import opened Wrappers
  import opened Numeric
  import opened AntTypes

  /** The two draws behind one gene: whether it mutates, and by what factor. */
  datatype GeneDraw = GeneDraw(pick: real, factor: real)

  /** The draws of one call, one per gene in the order the source visits the genes'
      keys, and the lifespan factor. */
  datatype OffspringDraws = OffspringDraws(
    speed: GeneDraw,
    strength: GeneDraw,
    senseRange: GeneDraw,
    maxHealth: GeneDraw,
    maxFoodCapacity: GeneDraw,
    lifespan: real)

  predicate IsGeneDraw(d: GeneDraw) {
    IsDraw(d.pick) && IsDraw(d.factor)
  }

  predicate IsOffspringDraws(d: OffspringDraws) {
    && IsGeneDraw(d.speed) && IsGeneDraw(d.strength) && IsGeneDraw(d.senseRange)
    && IsGeneDraw(d.maxHealth) && IsGeneDraw(d.maxFoodCapacity) && IsDraw(d.lifespan)
  }

  /** A gene value `v` derived from `g` by a factor in [0.9, 1.1]. */
  predicate WithinTenPercent(v: real, g: real) {
    0.9 * g <= v <= 1.1 * g
  }

  /** One gene: kept when the pick is not below the rate, else scaled by `0.9 + factor * 0.2`. */
  function Mutate(g: real, rate: real, d: GeneDraw): (r: real)
    ensures d.pick >= rate ==> r == g
    ensures IsDraw(d.factor) && 0.0 <= g ==> WithinTenPercent(r, g)
  {
    if d.pick < rate then
      assert IsDraw(d.factor) && 0.0 <= g ==> WithinTenPercent(g * (0.9 + d.factor * 0.2), g) by {
        if IsDraw(d.factor) && 0.0 <= g {
          ScaledWithinTenPercent(g, d.factor);
        }
      }
      g * (0.9 + d.factor * 0.2)
    else g
  }

  /** A factor `0.9 + 0.2 * u` for a draw `u` scales a non-negative value by at most 10%. */
  lemma ScaledWithinTenPercent(g: real, u: real)
    requires 0.0 <= g && IsDraw(u)
    ensures WithinTenPercent(g * (0.9 + u * 0.2), g)
  {
    assert g * (0.9 + u * 0.2) == 0.9 * g + 0.2 * (u * g);
    assert 0.0 <= u * g;
    assert u * g <= 1.0 * g;
  }

  predicate GenesWithinTenPercent(child: Genes, parent: Genes) {
    && WithinTenPercent(child.speed, parent.speed)
    && WithinTenPercent(child.strength, parent.strength)
    && WithinTenPercent(child.senseRange, parent.senseRange)
    && WithinTenPercent(child.maxHealth, parent.maxHealth)
    && WithinTenPercent(child.maxFoodCapacity, parent.maxFoodCapacity)
  }

  predicate NonNegativeGenes(g: Genes) {
    0.0 <= g.speed && 0.0 <= g.strength && 0.0 <= g.senseRange && 0.0 <= g.maxHealth && 0.0 <= g.maxFoodCapacity
  }

  /** `createOffspring(parent, mutationRate)`; the id is a parameter. */
  function CreateOffspring(parent: Ant, rate: real, id: string, d: OffspringDraws): (child: Ant)
    ensures child.generation == parent.generation + 1
    ensures child.state == Exploring && !child.carryingFood && child.target.None? && child.age == 0.0
    ensures child.id == id && child.colony == parent.colony && child.position == parent.position
    ensures child.speed == child.genes.speed && child.health == child.genes.maxHealth
    ensures child.foodLevel == child.genes.maxFoodCapacity / 2.0
    ensures 0.0 <= child.genes.maxFoodCapacity ==> FoodBounded(child)
    // with draws in [0, 1): no mutation at a non-positive rate, and at most 10% per gene
    ensures IsOffspringDraws(d) && rate <= 0.0 ==> child.genes == parent.genes
    ensures IsOffspringDraws(d) && NonNegativeGenes(parent.genes) ==> GenesWithinTenPercent(child.genes, parent.genes)
    ensures IsDraw(d.lifespan) && 0.0 <= parent.maxAge ==> WithinTenPercent(child.maxAge, parent.maxAge)
  {
    var g := parent.genes;
    var genes := Genes(
      Mutate(g.speed, rate, d.speed),
      Mutate(g.strength, rate, d.strength),
      Mutate(g.senseRange, rate, d.senseRange),
      Mutate(g.maxHealth, rate, d.maxHealth),
      Mutate(g.maxFoodCapacity, rate, d.maxFoodCapacity));
    assert IsDraw(d.lifespan) && 0.0 <= parent.maxAge ==>
             WithinTenPercent(parent.maxAge * (0.9 + d.lifespan * 0.2), parent.maxAge) by {
      if IsDraw(d.lifespan) && 0.0 <= parent.maxAge {
        ScaledWithinTenPercent(parent.maxAge, d.lifespan);
      }
    }
    Ant(id, parent.position, genes.speed, genes.maxHealth, genes.maxFoodCapacity / 2.0, parent.colony,
        Exploring, None, false, genes, parent.generation + 1, 0.0,
        parent.maxAge * (0.9 + d.lifespan * 0.2))
  }

  /** The default mutation rate of `createOffspring`. */
  const DefaultMutationRate: real := 0.1

  /** `createOffspring(parent)` with the rate left at its default: a gene whose pick is at
      least 0.1 is the parent's, and with draws in [0, 1) every gene is within 10%. */
  function CreateOffspringDefault(parent: Ant, id: string, d: OffspringDraws): (child: Ant)
    ensures child.generation == parent.generation + 1 && child.colony == parent.colony
    ensures d.speed.pick >= 0.1 ==> child.genes.speed == parent.genes.speed
    ensures d.strength.pick >= 0.1 ==> child.genes.strength == parent.genes.strength
    ensures d.senseRange.pick >= 0.1 ==> child.genes.senseRange == parent.genes.senseRange
    ensures d.maxHealth.pick >= 0.1 ==> child.genes.maxHealth == parent.genes.maxHealth
    ensures d.maxFoodCapacity.pick >= 0.1 ==> child.genes.maxFoodCapacity == parent.genes.maxFoodCapacity
    ensures IsOffspringDraws(d) && NonNegativeGenes(parent.genes) ==> GenesWithinTenPercent(child.genes, parent.genes)
  {
    CreateOffspring(parent, DefaultMutationRate, id, d)
  }
}
