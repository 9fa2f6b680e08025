/** Vectors and distance comparisons.

    The editor compares Euclidean distances (`Vector3.Distance`, `Vector2.Distance`)
    against radii. Dafny has no square root, so a distance is represented by its
    square, and each comparison `Distance(a, b) OP r` becomes a predicate on the
    squared distance that is exactly equivalent (lemma DistanceComparisons). */
module Geometry {

  datatype Vec2 = Vec2(x: real, y: real)

  datatype Vec3 = Vec3(x: real, y: real, z: real)

  function Add(a: Vec3, b: Vec3): Vec3 {
    Vec3(a.x + b.x, a.y + b.y, a.z + b.z)
  }

  /** Uniform scaling `v * k` */
  function Scale(v: Vec3, k: real): Vec3 {
    Vec3(v.x * k, v.y * k, v.z * k)
  }

  function Sq(a: real): (r: real)
    ensures r >= 0.0
  {
    a * a
  }

  /** Square of `Vector3.Distance(a, b)` */
  function Dist2(a: Vec3, b: Vec3): (r: real)
    ensures r >= 0.0
  {
    Sq(a.x - b.x) + Sq(a.y - b.y) + Sq(a.z - b.z)
  }

  /** Square of `Vector2.Distance(a, b)` */
  function Dist2D(a: Vec2, b: Vec2): (r: real)
    ensures r >= 0.0
  {
    Sq(a.x - b.x) + Sq(a.y - b.y)
  }

  /** Square of the distance between `a` and `b` projected onto the ground (XZ) plane */
  function HorizontalDist2(a: Vec3, b: Vec3): (r: real)
    ensures r >= 0.0
  {
    Sq(a.x - b.x) + Sq(a.z - b.z)
  }

  /** `d < r`, where `d2` is the square of the non-negative distance `d` */
  predicate DistLt(d2: real, r: real) {
    0.0 < r && d2 < r * r
  }

  /** `d <= r`, where `d2` is the square of the non-negative distance `d` */
  predicate DistLe(d2: real, r: real) {
    0.0 <= r && d2 <= r * r
  }

  /** `d > r`, where `d2` is the square of the non-negative distance `d` */
  predicate DistGt(d2: real, r: real) {
    !DistLe(d2, r)
  }

  /** `d * k < r`, where `d2` is the square of the non-negative distance `d` and `k > 0` */
  predicate ScaledDistLt(d2: real, k: real, r: real) {
    DistLt(d2 * (k * k), r)
  }

  /** For non-negative reals, comparing squares compares the numbers. */
  lemma SquareMonotone(a: real, b: real)
    requires a >= 0.0 && b >= 0.0
    ensures a < b <==> a * a < b * b
    ensures a <= b <==> a * a <= b * b
  {
    if a < b {
      SquareStrictlyMonotone(a, b);
    } else if b < a {
      SquareStrictlyMonotone(b, a);
    }
  }

  lemma SquareStrictlyMonotone(a: real, b: real)
    requires 0.0 <= a < b
    ensures a * a < b * b
  {
    var aa, ab, bb := a * a, a * b, b * b;
    assert aa <= ab by { assert ab - aa == a * (b - a); }
    assert ab < bb by { assert bb - ab == b * (b - a); }
  }

  /** The squared-distance predicates agree with comparisons of the distance itself:
      for any non-negative `d` whose square is `d2`, each predicate holds exactly
      when the corresponding comparison of `d` with `r` does, whatever the sign of `r`. */
  lemma DistanceComparisons(d: real, d2: real, r: real)
    requires d >= 0.0 && d * d == d2
    ensures DistLt(d2, r) <==> d < r
    ensures DistLe(d2, r) <==> d <= r
    ensures DistGt(d2, r) <==> d > r
  {
    if r >= 0.0 {
      SquareMonotone(d, r);
    }
  }

  /** Off the boundary, "not closer than `r`" and "farther than `r`" coincide. */
  lemma OffBoundaryComparisons(d2: real, r: real)
    requires d2 >= 0.0 && r >= 0.0 && d2 != Sq(r)
    ensures !DistLt(d2, r) <==> DistGt(d2, r)
  {
  }

  /** Dividing the threshold by `k` is the same as multiplying the distance by `k`:
      `d < r / k` holds exactly when `d * k < r`, for every positive `k`. */
  lemma DistLtRescaled(d2: real, r: real, k: real)
    requires d2 >= 0.0 && k > 0.0
    ensures DistLt(d2, r / k) <==> ScaledDistLt(d2, k, r)
  {
    var q := r / k;
    assert q * k == r;
    assert (q * q) * (k * k) == r * r by {
      assert (q * q) * (k * k) == (q * k) * (q * k);
    }
    assert 0.0 < q <==> 0.0 < r;
    assert k * k > 0.0;
    if d2 < q * q {
      assert d2 * (k * k) < (q * q) * (k * k);
    } else {
      assert d2 * (k * k) >= (q * q) * (k * k);
    }
  }
}
