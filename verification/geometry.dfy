/** Ground-plane geometry (client/src/utils/antBehaviors.ts, `distance`, `normalize`,
    `getRandomPosition`).

    `Math.sqrt` is not modelled: every function that needs a square root takes it as the
    parameter `sqrt`, and no property of the model assumes anything about it. A random
    offset pair stands for the two `Math.random()` draws of `getRandomPosition`. */
module Geometry {
  import opened Wrappers
  import opened Numeric
  import opened AntTypes

  /** The two draws `getRandomPosition` takes, for x and for z. */
  datatype Jitter = Jitter(u: real, v: real)

  predicate IsJitter(w: Jitter) {
    IsDraw(w.u) && IsDraw(w.v)
  }

  function SquaredLength(v: Vec3): real {
    v.x * v.x + v.y * v.y + v.z * v.z
  }

  function Sub(a: Vec3, b: Vec3): Vec3 {
    Vec3(a.x - b.x, a.y - b.y, a.z - b.z)
  }

  /** Euclidean distance, given the square root: the root of the squared length of the
      difference, the root of 0 from a point to itself. */
  function Distance(sqrt: real -> real, a: Vec3, b: Vec3): (r: real)
    ensures a == b ==> r == sqrt(0.0)
  {
    assert a == b ==> SquaredLength(Sub(a, b)) == 0.0 by {
      if a == b {
        assert Sub(a, b) == Origin;
      }
    }
    sqrt(SquaredLength(Sub(a, b)))
  }

  /** Distance does not depend on the direction of measurement. */
  lemma DistanceSymmetric(sqrt: real -> real, a: Vec3, b: Vec3)
    ensures Distance(sqrt, a, b) == Distance(sqrt, b, a)
  {
    var d, e := Sub(a, b), Sub(b, a);
    assert e.x == -d.x && e.y == -d.y && e.z == -d.z;
    assert e.x * e.x == d.x * d.x && e.y * e.y == d.y * d.y && e.z * e.z == d.z * d.z;
    assert SquaredLength(e) == SquaredLength(d);
  }

  /** Distance does not change when both points move by the same offset. */
  lemma DistanceShift(sqrt: real -> real, a: Vec3, b: Vec3, c: Vec3)
    ensures Distance(sqrt, Vec3(a.x + c.x, a.y + c.y, a.z + c.z), Vec3(b.x + c.x, b.y + c.y, b.z + c.z))
            == Distance(sqrt, a, b)
  {
    assert Sub(Vec3(a.x + c.x, a.y + c.y, a.z + c.z), Vec3(b.x + c.x, b.y + c.y, b.z + c.z)) == Sub(a, b);
  }

  /** `normalize`: divides by the length, and maps a vector of length zero to the zero vector
      instead of dividing by zero. */
  function Normalize(sqrt: real -> real, v: Vec3): (r: Vec3)
    ensures v == Origin ==> r == Origin
    ensures v.y == 0.0 ==> r.y == 0.0
    ensures (r.x == 0.0 <==> v.x == 0.0 || r == Origin) && (r.z == 0.0 <==> v.z == 0.0 || r == Origin)
  {
    var mag := sqrt(SquaredLength(v));
    if mag == 0.0 then Origin else Vec3(v.x / mag, v.y / mag, v.z / mag)
  }

  /** `getRandomPosition(center, range)`: a point on the ground (y = 0) offset from the centre
      by `draw * range * 2 - range` on x and on z. */
  function RandomPosition(center: Vec3, range: real, w: Jitter): (r: Vec3)
    ensures r.y == 0.0
    ensures IsJitter(w) && 0.0 <= range ==> WithinOnGround(r, center, range)
  {
    var dx := w.u * range * 2.0 - range;
    var dz := w.v * range * 2.0 - range;
    assert IsJitter(w) && 0.0 <= range ==> -range <= dx <= range by {
      if IsJitter(w) && 0.0 <= range {
        assert 0.0 <= w.u * range <= range;
      }
    }
    assert IsJitter(w) && 0.0 <= range ==> -range <= dz <= range by {
      if IsJitter(w) && 0.0 <= range {
        assert 0.0 <= w.v * range <= range;
      }
    }
    Vec3(center.x + dx, 0.0, center.z + dz)
  }

  /** `p` lies within `range` of `center` on the x and z axes. */
  predicate WithinOnGround(p: Vec3, center: Vec3, range: real) {
    center.x - range <= p.x <= center.x + range && center.z - range <= p.z <= center.z + range
  }

  /** `p` lies strictly within `tolerance` of `q` on each of the three axes. */
  predicate NearOnEachAxis(p: Vec3, q: Vec3, tolerance: real) {
    Abs(p.x - q.x) < tolerance && Abs(p.y - q.y) < tolerance && Abs(p.z - q.z) < tolerance
  }

  function Abs(a: real): (r: real)
    ensures 0.0 <= r && (r == a || r == -a)
  {
    if a < 0.0 then -a else a
  }
}
