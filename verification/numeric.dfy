/** Numeric helpers: `Math.min`, `Math.max`, and what a `Math.random()` draw is. */
module Numeric {

  /** The smaller and the larger of two reals (`Math.min`, `Math.max`). */
  function Min(a: real, b: real): (r: real)
    ensures r <= a && r <= b
    ensures r == a || r == b
  {
    if a <= b then a else b
  }

  function Max(a: real, b: real): (r: real)
    ensures a <= r && b <= r
    ensures r == a || r == b
  {
    if a >= b then a else b
  }

  /** A random draw of `Math.random()`: a real in [0, 1). */
  predicate IsDraw(u: real) {
    0.0 <= u < 1.0
  }
}
