/** Colony crediting of one tick (client/src/hooks/useSimulation.ts, `updatedColonies`).

    Colonies are visited in order. For each, the moved ants that deliver to it (RETURNING,
    of that colony, carrying food, within 1 of its position on each axis) are collected; the
    colony's store grows by their number; then each of them is looked up by id
    (`findIndex`) in the current ant list and that entry is unloaded: no longer carrying,
    EXPLORING, with a fresh wander target. Later colonies see the unloaded ants. */
module Economy {
  import opened Wrappers
  import opened AntTypes
  import opened Geometry
  import opened Seqs
  import Behaviour

  const DeliveryTolerance := 1.0

  /** The ant delivers food to the colony this tick. */
  predicate Delivers(c: Colony, a: Ant) {
    && a.state == Returning
    && a.colony == c.id
    && a.carryingFood
    && NearOnEachAxis(a.position, c.position, DeliveryTolerance)
  }

  function DeliversTo(c: Colony): Ant -> bool {
    (a: Ant) => Delivers(c, a)
  }

  /** The ant delivers to one of the colonies. */
  ghost predicate DeliversToSome(cs: seq<Colony>, a: Ant) {
    exists k :: 0 <= k < |cs| && Delivers(cs[k], a)
  }

  /** The crediting flip: no longer carrying, EXPLORING, with a fresh wander target. */
  function Unload(a: Ant, w: Jitter): (b: Ant)
    ensures b == a.(carryingFood := false, state := Exploring, target := b.target)
    ensures Behaviour.WanderTarget(b.target, a.position, w)
  {
    a.(carryingFood := false, state := Exploring, target := Behaviour.Wander(a.position, w))
  }

  lemma UnloadIdempotent(a: Ant, w: Jitter)
    ensures Unload(Unload(a, w), w) == Unload(a, w)
  {
  }

  predicate DistinctIds(ants: seq<Ant>) {
    forall i, j :: 0 <= i < j < |ants| ==> ants[i].id != ants[j].id
  }

  predicate DistinctColonyIds(cs: seq<Colony>) {
    forall i, j :: 0 <= i < j < |cs| ==> cs[i].id != cs[j].id
  }

  /** `b` is `a` with some entries unloaded, each with its own index's draw. */
  predicate UnloadedOrSame(a: seq<Ant>, b: seq<Ant>, wander: nat -> Jitter) {
    |b| == |a| && forall i :: 0 <= i < |a| ==> b[i] == a[i] || b[i] == Unload(a[i], wander(i))
  }

  /** Unload the first entry with the given id, if any. */
  function UnloadById(ants: seq<Ant>, id: string, wander: nat -> Jitter): (r: seq<Ant>)
    ensures UnloadedOrSame(ants, r, wander)
    ensures DistinctIds(ants) ==>
              forall i :: 0 <= i < |ants| ==> r[i] == if ants[i].id == id then Unload(ants[i], wander(i)) else ants[i]
  {
    match FirstWhere(ants, (a: Ant) => a.id == id)
    case None => ants
    case Some(k) => ants[k := Unload(ants[k], wander(k))]
  }

  /** `returningAnts.forEach(...)`: unload, one after the other, the entries with the ids of
      the ants in `ds`. */
  function UnloadEach(ants: seq<Ant>, ds: seq<Ant>, wander: nat -> Jitter): (r: seq<Ant>)
    ensures UnloadedOrSame(ants, r, wander)
    decreases |ds|
  {
    if |ds| == 0 then ants
    else
      var next := UnloadById(ants, ds[0].id, wander);
      var r := UnloadEach(next, ds[1..], wander);
      assert UnloadedOrSame(ants, r, wander) by {
        forall i | 0 <= i < |ants|
          ensures r[i] == ants[i] || r[i] == Unload(ants[i], wander(i))
        {
          UnloadIdempotent(ants[i], wander(i));
        }
      }
      r
  }

  /** Some ant in `ds` has the id. */
  ghost predicate HasId(ds: seq<Ant>, id: string) {
    exists j :: 0 <= j < |ds| && ds[j].id == id
  }

  /** With distinct ids, exactly the entries whose id occurs in `ds` are unloaded. */
  lemma {:induction false} UnloadEachExact(ants: seq<Ant>, ds: seq<Ant>, wander: nat -> Jitter)
    requires DistinctIds(ants)
    ensures var r := UnloadEach(ants, ds, wander);
            forall i :: 0 <= i < |ants| ==> r[i] == if HasId(ds, ants[i].id) then Unload(ants[i], wander(i)) else ants[i]
    decreases |ds|
  {
    if |ds| > 0 {
      var next := UnloadById(ants, ds[0].id, wander);
      assert forall i :: 0 <= i < |ants| ==> next[i].id == ants[i].id;
      UnloadEachExact(next, ds[1..], wander);
      var r := UnloadEach(ants, ds, wander);
      forall i | 0 <= i < |ants|
        ensures r[i] == if HasId(ds, ants[i].id) then Unload(ants[i], wander(i)) else ants[i]
      {
        UnloadEachAt(ants[i], next[i], r[i], ds, wander(i));
      }
    }
  }

  /** One entry through `UnloadEach`: unloaded by the first id of `ds` or not, then by the
      rest or not, it ends up unloaded exactly when some id of `ds` is its own. */
  lemma UnloadEachAt(a: Ant, mid: Ant, end: Ant, ds: seq<Ant>, w: Jitter)
    requires |ds| > 0
    requires mid == if ds[0].id == a.id then Unload(a, w) else a
    requires end == if HasId(ds[1..], a.id) then Unload(mid, w) else mid
    ensures end == if HasId(ds, a.id) then Unload(a, w) else a
  {
    UnloadIdempotent(a, w);
    if HasId(ds[1..], a.id) {
      var j :| 0 <= j < |ds[1..]| && ds[1..][j].id == a.id;
      assert ds[j + 1].id == a.id;
    }
    if HasId(ds, a.id) && ds[0].id != a.id {
      var j :| 0 <= j < |ds| && ds[j].id == a.id;
      assert ds[1..][j - 1].id == a.id;
    }
  }

  /** The ants delivering to the colony, in order. */
  function Deliverers(c: Colony, ants: seq<Ant>): (r: seq<Ant>)
    ensures |r| == CountWhere(ants, DeliversTo(c))
  {
    Filter(ants, DeliversTo(c))
  }

  /** One colony: credit one unit per delivering ant and unload those ants. */
  function CreditColony(c: Colony, ants: seq<Ant>, wander: nat -> Jitter): (r: (Colony, seq<Ant>))
    ensures r.0 == c.(foodStored := c.foodStored + (CountWhere(ants, DeliversTo(c)) as real))
    ensures UnloadedOrSame(ants, r.1, wander)
  {
    var ds := Deliverers(c, ants);
    (c.(foodStored := c.foodStored + (|ds| as real)), UnloadEach(ants, ds, wander))
  }

  /** With distinct ids, a colony unloads exactly the ants delivering to it. */
  lemma CreditColonyExact(c: Colony, ants: seq<Ant>, wander: nat -> Jitter)
    requires DistinctIds(ants)
    ensures var r := CreditColony(c, ants, wander).1;
            forall i :: 0 <= i < |ants| ==> r[i] == if Delivers(c, ants[i]) then Unload(ants[i], wander(i)) else ants[i]
  {
    var ds := Deliverers(c, ants);
    UnloadEachExact(ants, ds, wander);
    forall i | 0 <= i < |ants|
      ensures HasId(ds, ants[i].id) <==> Delivers(c, ants[i])
    {
      DelivererIds(c, ants, i);
    }
  }

  /** With distinct ids, an ant's id is among the deliverers' exactly when it delivers. */
  lemma DelivererIds(c: Colony, ants: seq<Ant>, i: nat)
    requires DistinctIds(ants) && i < |ants|
    ensures HasId(Deliverers(c, ants), ants[i].id) <==> Delivers(c, ants[i])
  {
    var ds := Deliverers(c, ants);
    if Delivers(c, ants[i]) {
      assert DeliversTo(c)(ants[i]);
      assert ants[i] in ds;
      var j :| 0 <= j < |ds| && ds[j] == ants[i];
    }
    if HasId(ds, ants[i].id) {
      var j :| 0 <= j < |ds| && ds[j].id == ants[i].id;
      assert ds[j] in ants && DeliversTo(c)(ds[j]);
      var m :| 0 <= m < |ants| && ants[m] == ds[j];
      assert m == i;
    }
  }

  /** The result of crediting: the new colonies and the ants after unloading. */
  datatype Credited = Credited(colonies: seq<Colony>, ants: seq<Ant>)

  /** `prevState.colonies.map(...)` with its side effect on the ant list. */
  function CreditAll(cs: seq<Colony>, ants: seq<Ant>, wander: nat -> Jitter): (r: Credited)
    ensures |r.colonies| == |cs|
    ensures forall k :: 0 <= k < |cs| ==>
              r.colonies[k] == cs[k].(foodStored := r.colonies[k].foodStored)
              && cs[k].foodStored <= r.colonies[k].foodStored
    ensures UnloadedOrSame(ants, r.ants, wander)
    decreases |cs|
  {
    if |cs| == 0 then Credited([], ants)
    else
      var first := CreditColony(cs[0], ants, wander);
      var rest := CreditAll(cs[1..], first.1, wander);
      var r := Credited([first.0] + rest.colonies, rest.ants);
      assert UnloadedOrSame(ants, r.ants, wander) by {
        forall i | 0 <= i < |ants|
          ensures r.ants[i] == ants[i] || r.ants[i] == Unload(ants[i], wander(i))
        {
          UnloadIdempotent(ants[i], wander(i));
        }
      }
      r
  }

  /** What the first colony leaves to the later ones: distinct ids still, the ants delivering
      to it unloaded, and for every later colony the same deliverers as before. */
  lemma AfterFirstColony(cs: seq<Colony>, ants: seq<Ant>, wander: nat -> Jitter)
    requires |cs| > 0 && DistinctIds(ants) && DistinctColonyIds(cs)
    ensures var next := CreditColony(cs[0], ants, wander).1;
            && |next| == |ants|
            && DistinctIds(next)
            && (forall i :: 0 <= i < |ants| ==>
                  next[i] == if Delivers(cs[0], ants[i]) then Unload(ants[i], wander(i)) else ants[i])
            && (forall k, i :: 1 <= k < |cs| && 0 <= i < |ants| ==>
                  Delivers(cs[k], next[i]) == Delivers(cs[k], ants[i]))
  {
    var next := CreditColony(cs[0], ants, wander).1;
    CreditColonyExact(cs[0], ants, wander);
    assert forall i :: 0 <= i < |ants| ==> next[i].id == ants[i].id;
    forall k, i | 1 <= k < |cs| && 0 <= i < |ants|
      ensures Delivers(cs[k], next[i]) == Delivers(cs[k], ants[i])
    {
      assert cs[0].id != cs[k].id;
      DeliversAfterOther(cs[k], cs[0], ants[i], wander(i));
    }
  }

  /** Unloading at one colony does not change whether the ant delivers to another. */
  lemma DeliversAfterOther(c: Colony, first: Colony, a: Ant, w: Jitter)
    requires c.id != first.id
    ensures Delivers(c, if Delivers(first, a) then Unload(a, w) else a) == Delivers(c, a)
  {
  }

  /** Crediting a colony keeps every ant's id, so distinct ids stay distinct. */
  lemma CreditColonyKeepsIds(c: Colony, ants: seq<Ant>, wander: nat -> Jitter)
    ensures var next := CreditColony(c, ants, wander).1;
            forall i :: 0 <= i < |ants| ==> next[i].id == ants[i].id
    ensures DistinctIds(ants) ==> DistinctIds(CreditColony(c, ants, wander).1)
  {
    var next := CreditColony(c, ants, wander).1;
    assert forall i :: 0 <= i < |ants| ==> next[i].id == ants[i].id;
  }

  /** Crediting one colony leaves the number of ants delivering to another unchanged. */
  lemma LaterColonyCount(c: Colony, first: Colony, ants: seq<Ant>, wander: nat -> Jitter)
    requires c.id != first.id && DistinctIds(ants)
    ensures CountWhere(CreditColony(first, ants, wander).1, DeliversTo(c)) == CountWhere(ants, DeliversTo(c))
  {
    var next := CreditColony(first, ants, wander).1;
    CreditColonyExact(first, ants, wander);
    forall i | 0 <= i < |ants|
      ensures DeliversTo(c)(ants[i]) == DeliversTo(c)(next[i])
    {
      DeliversAfterOther(c, first, ants[i], wander(i));
    }
    CountAgreeAcross(ants, next, DeliversTo(c));
  }

  /** With distinct ant ids and distinct colony ids, each colony is credited with exactly the
      number of ants delivering to it. */
  lemma CreditAllCounts(cs: seq<Colony>, ants: seq<Ant>, wander: nat -> Jitter)
    requires DistinctIds(ants) && DistinctColonyIds(cs)
    ensures var r := CreditAll(cs, ants, wander);
            forall k :: 0 <= k < |cs| ==>
              r.colonies[k].foodStored == cs[k].foodStored + (CountWhere(ants, DeliversTo(cs[k])) as real)
  {
    forall k | 0 <= k < |cs|
      ensures CreditAll(cs, ants, wander).colonies[k].foodStored
              == cs[k].foodStored + (CountWhere(ants, DeliversTo(cs[k])) as real)
    {
      CreditAllCountAt(cs, ants, wander, k);
    }
  }

  /** Colony `k` gains its own deliverers: those of the earlier colonies were unloaded, but
      none of them delivers to `k`, so the count `k` sees is the count before crediting. */
  lemma {:induction false} CreditAllCountAt(cs: seq<Colony>, ants: seq<Ant>, wander: nat -> Jitter, k: nat)
    requires DistinctIds(ants) && DistinctColonyIds(cs) && k < |cs|
    ensures CreditAll(cs, ants, wander).colonies[k].foodStored
            == cs[k].foodStored + (CountWhere(ants, DeliversTo(cs[k])) as real)
    decreases |cs|
  {
    if k > 0 {
      var next := CreditColony(cs[0], ants, wander).1;
      CreditColonyKeepsIds(cs[0], ants, wander);
      assert DistinctColonyIds(cs[1..]);
      CreditAllCountAt(cs[1..], next, wander, k - 1);
      assert cs[1..][k - 1] == cs[k] && cs[k].id != cs[0].id;
      LaterColonyCount(cs[k], cs[0], ants, wander);
    }
  }

  /** With distinct ant ids and distinct colony ids, exactly the ants delivering to some colony
      are unloaded, and every other ant is left as it was. */
  lemma {:induction false} CreditAllUnloads(cs: seq<Colony>, ants: seq<Ant>, wander: nat -> Jitter)
    requires DistinctIds(ants) && DistinctColonyIds(cs)
    ensures var r := CreditAll(cs, ants, wander);
            forall i :: 0 <= i < |ants| ==>
              r.ants[i] == if DeliversToSome(cs, ants[i]) then Unload(ants[i], wander(i)) else ants[i]
    decreases |cs|
  {
    if |cs| > 0 {
      var r := CreditAll(cs, ants, wander);
      var next := CreditColony(cs[0], ants, wander).1;
      var tail := cs[1..];
      AfterFirstColony(cs, ants, wander);
      assert DistinctColonyIds(tail);
      CreditAllUnloads(tail, next, wander);
      assert r.ants == CreditAll(tail, next, wander).ants;
      forall i | 0 <= i < |ants|
        ensures r.ants[i] == if DeliversToSome(cs, ants[i]) then Unload(ants[i], wander(i)) else ants[i]
      {
        SameDeliveriesLater(cs, ants, next, wander, i);
        if Delivers(cs[0], ants[i]) {
          assert DeliversToSome(cs, ants[i]);
          UnloadIdempotent(ants[i], wander(i));
        }
      }
    }
  }

  /** An ant delivers to a later colony after the first colony's turn iff it did before, and
      an ant the first colony unloaded delivers to no later colony. */
  lemma SameDeliveriesLater(cs: seq<Colony>, ants: seq<Ant>, next: seq<Ant>, wander: nat -> Jitter, i: nat)
    requires |cs| > 0 && DistinctColonyIds(cs) && |next| == |ants| && i < |ants|
    requires next[i] == if Delivers(cs[0], ants[i]) then Unload(ants[i], wander(i)) else ants[i]
    ensures DeliversToSome(cs[1..], next[i]) == (DeliversToSome(cs, ants[i]) && !Delivers(cs[0], ants[i]))
    ensures Delivers(cs[0], ants[i]) ==> !DeliversToSome(cs[1..], ants[i])
  {
    var tail := cs[1..];
    if DeliversToSome(tail, next[i]) {
      var k :| 0 <= k < |tail| && Delivers(tail[k], next[i]);
      assert next[i] == ants[i];
      assert Delivers(cs[k + 1], ants[i]);
    }
    if DeliversToSome(cs, ants[i]) && !Delivers(cs[0], ants[i]) {
      var k :| 0 <= k < |cs| && Delivers(cs[k], ants[i]);
      assert Delivers(tail[k - 1], next[i]);
    }
    if Delivers(cs[0], ants[i]) {
      forall k | 0 <= k < |tail|
        ensures !Delivers(tail[k], ants[i])
      {
        assert cs[0].id != cs[k + 1].id;
      }
    }
  }

  /** Counting over two lists whose elements agree on the predicate gives the same number. */
  lemma {:induction false} CountAgreeAcross(a: seq<Ant>, b: seq<Ant>, p: Ant -> bool)
    requires |a| == |b| && forall i :: 0 <= i < |a| ==> p(a[i]) == p(b[i])
    ensures CountWhere(a, p) == CountWhere(b, p)
    decreases |a|
  {
    if |a| > 0 {
      CountAgreeAcross(a[1..], b[1..], p);
    }
  }

  /** Food held by all colonies together. */
  function TotalStored(cs: seq<Colony>): real
    decreases |cs|
  {
    if |cs| == 0 then 0.0 else cs[0].foodStored + TotalStored(cs[1..])
  }

  function DeliversToAny(cs: seq<Colony>): Ant -> bool {
    (a: Ant) => exists k :: 0 <= k < |cs| && Delivers(cs[k], a)
  }

  /** No ant is credited twice: with distinct colony ids, the food the colonies gain together
      is the number of ants delivering to some colony, which are the ants unloaded. */
  lemma {:induction false} CreditConserves(cs: seq<Colony>, ants: seq<Ant>, wander: nat -> Jitter)
    requires DistinctIds(ants) && DistinctColonyIds(cs)
    ensures TotalStored(CreditAll(cs, ants, wander).colonies)
            == TotalStored(cs) + (CountWhere(ants, DeliversToAny(cs)) as real)
    decreases |cs|
  {
    if |cs| == 0 {
      CountWhereAgree(ants, DeliversToAny(cs), (a: Ant) => false);
      CountNone(ants);
    } else {
      var r := CreditAll(cs, ants, wander);
      var first := CreditColony(cs[0], ants, wander);
      var next := first.1;
      var tail := cs[1..];
      AfterFirstColony(cs, ants, wander);
      assert DistinctColonyIds(tail);
      CreditConserves(tail, next, wander);
      assert r.colonies == [first.0] + CreditAll(tail, next, wander).colonies;
      assert r.colonies[1..] == CreditAll(tail, next, wander).colonies;
      SplitDeliveries(cs, ants, next, wander);
    }
  }

  /** The count of ants delivering to some colony splits into those delivering to the first
      and those delivering to a later one, the latter unchanged by the first colony's turn. */
  lemma SplitDeliveries(cs: seq<Colony>, ants: seq<Ant>, next: seq<Ant>, wander: nat -> Jitter)
    requires |cs| > 0 && DistinctColonyIds(cs) && |next| == |ants|
    requires forall i :: 0 <= i < |ants| ==>
               next[i] == if Delivers(cs[0], ants[i]) then Unload(ants[i], wander(i)) else ants[i]
    ensures CountWhere(next, DeliversToAny(cs[1..])) == CountWhere(ants, DeliversToAny(cs[1..]))
    ensures CountWhere(ants, DeliversToAny(cs))
            == CountWhere(ants, DeliversTo(cs[0])) + CountWhere(ants, DeliversToAny(cs[1..]))
  {
    var tail := cs[1..];
    forall i | 0 <= i < |ants|
      ensures DeliversToAny(tail)(next[i]) == DeliversToAny(tail)(ants[i])
      ensures !(DeliversTo(cs[0])(ants[i]) && DeliversToAny(tail)(ants[i]))
      ensures DeliversToAny(cs)(ants[i]) == (DeliversTo(cs[0])(ants[i]) || DeliversToAny(tail)(ants[i]))
    {
      SameDeliveriesLater(cs, ants, next, wander, i);
    }
    CountAgreeAcross(next, ants, DeliversToAny(tail));
    CountWhereDisjoint(ants, DeliversTo(cs[0]), DeliversToAny(tail), DeliversToAny(cs));
  }

  lemma {:induction false} CountNone(ants: seq<Ant>)
    ensures CountWhere(ants, (a: Ant) => false) == 0
    decreases |ants|
  {
    if |ants| > 0 {
      CountNone(ants[1..]);
    }
  }
}
