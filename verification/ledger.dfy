/** Resource depletion of one tick (client/src/hooks/useSimulation.ts, `updatedResources`):
    every resource loses 0.1 per moved GATHERING ant whose target lies within 0.5 of it on
    each axis, never going below 0. */
module Ledger {
  import opened Wrappers
  import opened Numeric
  import opened AntTypes
  import opened Geometry

  const DepletionRate := 0.1
  const GatherTolerance := 0.5

  /** The ant is gathering at the resource: GATHERING, with a target within 0.5 of the
      resource on each axis. */
  predicate GathersAt(a: Ant, r: Resource) {
    a.state == Gathering && a.target.Some? && NearOnEachAxis(a.target.value, r.position, GatherTolerance)
  }

  /** Number of ants gathering at the resource. */
  function GathererCount(r: Resource, ants: seq<Ant>): nat
    decreases |ants|
  {
    if |ants| == 0 then 0 else (if GathersAt(ants[0], r) then 1 else 0) + GathererCount(r, ants[1..])
  }

  /** One resource after the tick: `max(0, amount - 0.1 * n)` for `n` gatherers, and the
      resource itself when there are none. */
  function Deplete(r: Resource, ants: seq<Ant>): (r': Resource)
    ensures r' == r.(amount := r'.amount)
    ensures GathererCount(r, ants) == 0 ==> r' == r
    ensures GathererCount(r, ants) > 0 ==>
              r'.amount == Max(0.0, r.amount - (GathererCount(r, ants) as real) * DepletionRate)
    ensures 0.0 <= r.amount ==> 0.0 <= r'.amount <= r.amount
    ensures r'.amount < r.amount ==> GathererCount(r, ants) > 0
  {
    var n := GathererCount(r, ants);
    if n > 0 then r.(amount := Max(0.0, r.amount - (n as real) * DepletionRate)) else r
  }

  /** `prevState.resources.map(...)`, against the moved ants. */
  function DepleteAll(rs: seq<Resource>, ants: seq<Ant>): (r: seq<Resource>)
    ensures |r| == |rs|
    ensures forall i :: 0 <= i < |rs| ==> r[i] == Deplete(rs[i], ants)
  {
    seq(|rs|, i requires 0 <= i < |rs| => Deplete(rs[i], ants))
  }

  /** Ants that are not gathering do not count, wherever they stand. */
  lemma {:induction false} GathererCountIgnoresOthers(r: Resource, a: seq<Ant>, b: seq<Ant>)
    requires forall i :: 0 <= i < |b| ==> b[i].state != Gathering
    ensures GathererCount(r, a + b) == GathererCount(r, a)
    decreases |a|
  {
    if |a| == 0 {
      assert a + b == b;
      GathererCountNone(r, b);
    } else {
      assert (a + b)[1..] == a[1..] + b;
      GathererCountIgnoresOthers(r, a[1..], b);
    }
  }

  lemma {:induction false} GathererCountNone(r: Resource, b: seq<Ant>)
    requires forall i :: 0 <= i < |b| ==> b[i].state != Gathering
    ensures GathererCount(r, b) == 0
    decreases |b|
  {
    if |b| > 0 {
      GathererCountNone(r, b[1..]);
    }
  }

  /** Depletion leaves a resource where it was, so gatherers count the same against it. */
  lemma {:induction false} GathererCountSamePlace(r: Resource, s: Resource, b: seq<Ant>)
    requires r.position == s.position
    ensures GathererCount(r, b) == GathererCount(s, b)
    decreases |b|
  {
    if |b| > 0 {
      GathererCountSamePlace(r, s, b[1..]);
    }
  }

  /** Two ticks of depletion are one tick against both ticks' gatherers: the second tick
      counts the same gatherers at the depleted resource, and the amounts taken add up,
      floored once at 0. */
  lemma DepletionIsAdditive(r: Resource, a: seq<Ant>, b: seq<Ant>)
    requires 0.0 <= r.amount
    ensures GathererCount(Deplete(r, a), b) == GathererCount(r, b)
    ensures Deplete(Deplete(r, a), b).amount ==
              Max(0.0, r.amount - ((GathererCount(r, a) + GathererCount(r, b)) as real) * DepletionRate)
  {
    var once := Deplete(r, a);
    GathererCountSamePlace(once, r, b);
  }
}
