/** Linear scans over sequences: the first element satisfying a predicate (the source's
    `find`, `findIndex` and `filter(...)[0]`) and the number of elements satisfying one
    (`filter(...).length`). */
module Seqs {
  import opened Wrappers

  /** Index of the first element of `s` satisfying `p`, or None when there is none. */
  function FirstWhere<T>(s: seq<T>, p: T -> bool): (r: Option<nat>)
    ensures r.None? <==> forall j :: 0 <= j < |s| ==> !p(s[j])
    ensures r.Some? ==> r.value < |s| && p(s[r.value])
    ensures r.Some? ==> forall j :: 0 <= j < r.value ==> !p(s[j])
  {
    if |s| == 0 then None
    else if p(s[0]) then Some(0)
    else
      match FirstWhere(s[1..], p)
      case None => None
      case Some(k) => Some(k + 1)
  }

  /** The first element of `s` satisfying `p` (`Array.prototype.find`). */
  function Find<T>(s: seq<T>, p: T -> bool): (r: Option<T>)
    ensures r.None? <==> forall j :: 0 <= j < |s| ==> !p(s[j])
    ensures r.Some? ==> exists k :: 0 <= k < |s| && s[k] == r.value && p(s[k])
                                    && forall j :: 0 <= j < k ==> !p(s[j])
  {
    match FirstWhere(s, p)
    case None => None
    case Some(k) => Some(s[k])
  }

  /** Number of elements of `s` satisfying `p`. */
  function CountWhere<T>(s: seq<T>, p: T -> bool): nat
    decreases |s|
  {
    if |s| == 0 then 0 else (if p(s[0]) then 1 else 0) + CountWhere(s[1..], p)
  }

  /** Counting by two predicates that agree on every element gives the same number. */
  lemma {:induction false} CountWhereAgree<T>(s: seq<T>, p: T -> bool, q: T -> bool)
    requires forall j :: 0 <= j < |s| ==> p(s[j]) == q(s[j])
    ensures CountWhere(s, p) == CountWhere(s, q)
    decreases |s|
  {
    if |s| > 0 {
      CountWhereAgree(s[1..], p, q);
    }
  }

  /** Counting by a disjunction of two predicates that never hold together adds the counts. */
  lemma {:induction false} CountWhereDisjoint<T>(s: seq<T>, p: T -> bool, q: T -> bool, both: T -> bool)
    requires forall j :: 0 <= j < |s| ==> !(p(s[j]) && q(s[j])) && (both(s[j]) == (p(s[j]) || q(s[j])))
    ensures CountWhere(s, both) == CountWhere(s, p) + CountWhere(s, q)
    decreases |s|
  {
    if |s| > 0 {
      CountWhereDisjoint(s[1..], p, q, both);
    }
  }

  /** The elements of `s` satisfying `p`, in order (`Array.prototype.filter`). */
  function Filter<T>(s: seq<T>, p: T -> bool): (r: seq<T>)
    ensures |r| == CountWhere(s, p)
    ensures forall j :: 0 <= j < |r| ==> r[j] in s && p(r[j])
    ensures forall j :: 0 <= j < |s| && p(s[j]) ==> s[j] in r
  {
    if |s| == 0 then []
    else (if p(s[0]) then [s[0]] else []) + Filter(s[1..], p)
  }

  /** Number of elements that `f` maps to a value. */
  function CountSome<X, Y>(xs: seq<X>, f: X -> Option<Y>): nat
    decreases |xs|
  {
    if |xs| == 0 then 0 else (if f(xs[0]).Some? then 1 else 0) + CountSome(xs[1..], f)
  }

  /** The values `f` gives to the elements of `xs`, in order, skipping those it maps to None
      (the source's `filter(...).map(...)`). */
  function FilterMap<X, Y>(xs: seq<X>, f: X -> Option<Y>): (r: seq<Y>)
    ensures |r| <= |xs|
    decreases |xs|
  {
    if |xs| == 0 then []
    else Slot(xs[0], f) + FilterMap(xs[1..], f)
  }

  /** The contribution of one element to `FilterMap`. */
  function Slot<X, Y>(x: X, f: X -> Option<Y>): (r: seq<Y>)
    ensures |r| == if f(x).Some? then 1 else 0
  {
    match f(x) case Some(y) => [y] case None => []
  }

  lemma {:induction false} FilterMapConcat<X, Y>(a: seq<X>, b: seq<X>, f: X -> Option<Y>)
    ensures FilterMap(a + b, f) == FilterMap(a, f) + FilterMap(b, f)
    decreases |a|
  {
    if |a| == 0 {
      assert a + b == b;
    } else {
      var ab := a + b;
      assert ab[0] == a[0];
      assert ab[1..] == a[1..] + b;
      FilterMapConcat(a[1..], b, f);
      calc {
        FilterMap(ab, f);
        Slot(a[0], f) + FilterMap(a[1..] + b, f);
        Slot(a[0], f) + (FilterMap(a[1..], f) + FilterMap(b, f));
        (Slot(a[0], f) + FilterMap(a[1..], f)) + FilterMap(b, f);
      }
    }
  }

  lemma {:induction false} CountSomeConcat<X, Y>(a: seq<X>, b: seq<X>, f: X -> Option<Y>)
    ensures CountSome(a + b, f) == CountSome(a, f) + CountSome(b, f)
    decreases |a|
  {
    if |a| == 0 {
      assert a + b == b;
    } else {
      assert (a + b)[0] == a[0];
      assert (a + b)[1..] == a[1..] + b;
      CountSomeConcat(a[1..], b, f);
    }
  }

  /** The result holds exactly one value per element mapped to a value: its length is their
      number, and the value of element `i` sits after those of the elements before it. */
  lemma {:induction false} FilterMapAt<X, Y>(xs: seq<X>, f: X -> Option<Y>, i: nat)
    requires i < |xs| && f(xs[i]).Some?
    ensures |FilterMap(xs, f)| == CountSome(xs, f)
    ensures CountSome(xs[..i], f) < |FilterMap(xs, f)|
    ensures FilterMap(xs, f)[CountSome(xs[..i], f)] == f(xs[i]).value
  {
    assert xs == xs[..i] + xs[i..];
    assert xs[i..] == [xs[i]] + xs[i + 1..];
    FilterMapConcat(xs[..i], xs[i..], f);
    FilterMapConcat([xs[i]], xs[i + 1..], f);
    CountSomeConcat(xs[..i], xs[i..], f);
    CountSomeConcat([xs[i]], xs[i + 1..], f);
    FilterMapLength(xs[..i], f);
    FilterMapLength(xs[i + 1..], f);
    assert FilterMap([xs[i]], f) == [f(xs[i]).value] by {
      assert [xs[i]][1..] == [];
    }
    assert CountSome([xs[i]], f) == 1 by {
      assert [xs[i]][1..] == [];
    }
  }

  /** Removing an element that `f` maps to None does not change the result. */
  lemma FilterMapRemoveNone<X, Y>(xs: seq<X>, f: X -> Option<Y>, i: nat)
    requires i < |xs| && f(xs[i]).None?
    ensures FilterMap(xs[..i] + xs[i + 1..], f) == FilterMap(xs, f)
  {
    var before, after := xs[..i], xs[i + 1..];
    assert xs == before + xs[i..];
    assert xs[i..] == [xs[i]] + after;
    FilterMapConcat(before, xs[i..], f);
    FilterMapConcat([xs[i]], after, f);
    FilterMapConcat(before, after, f);
    assert FilterMap([xs[i]], f) == [] by {
      assert [xs[i]][1..] == [];
    }
    calc {
      FilterMap(xs, f);
      FilterMap(before, f) + FilterMap(xs[i..], f);
      FilterMap(before, f) + ([] + FilterMap(after, f));
      { assert [] + FilterMap(after, f) == FilterMap(after, f); }
      FilterMap(before, f) + FilterMap(after, f);
    }
  }

  lemma {:induction false} FilterMapLength<X, Y>(xs: seq<X>, f: X -> Option<Y>)
    ensures |FilterMap(xs, f)| == CountSome(xs, f)
    decreases |xs|
  {
    if |xs| > 0 {
      FilterMapLength(xs[1..], f);
    }
  }

  /** Every value in the result is the value of some element. */
  lemma {:induction false} FilterMapFrom<X, Y>(xs: seq<X>, f: X -> Option<Y>, j: nat)
    requires j < |FilterMap(xs, f)|
    ensures exists i :: 0 <= i < |xs| && f(xs[i]) == Some(FilterMap(xs, f)[j])
    decreases |xs|
  {
    var head := Slot(xs[0], f);
    assert FilterMap(xs, f) == head + FilterMap(xs[1..], f);
    if j < |head| {
      assert f(xs[0]) == Some(FilterMap(xs, f)[j]);
    } else {
      FilterMapFrom(xs[1..], f, j - |head|);
      var i :| 0 <= i < |xs[1..]| && f(xs[1..][i]) == Some(FilterMap(xs[1..], f)[j - |head|]);
      assert f(xs[i + 1]) == Some(FilterMap(xs, f)[j]);
    }
  }
}
