/** A ray from `origin` along the unit vector `dir` (model/Ray.cpp). */
module Rays {
  import opened Base
  import opened Vectors

  datatype Ray = Ray(origin: Vec2, dir: Vec2) {

    /** Squared distance from `point` to the ray: to the origin when the
        point lies behind it, otherwise to the foot of the perpendicular. */
    function DistanceSqToPoint(point: Vec2): (r: real)
      ensures 0.0 <= r
    {
      var dirDist := point.Minus(origin).Dot(dir);
      if dirDist < 0.0 then origin.DistToSquared(point)
      else dir.Times(dirDist).Plus(origin).DistToSquared(point)
    }

    function DistanceToPoint(point: Vec2, sqrt: real -> real): (r: real)
      requires IsSqrt(sqrt)
      ensures 0.0 <= r && r * r == DistanceSqToPoint(point)
    {
      sqrt(DistanceSqToPoint(point))
    }

    /** The source declares the result as a double; it is the truth value of
        the comparison. */
    predicate IntersectsCircle(center: Vec2, radius: real) {
      DistanceSqToPoint(center) <= radius * radius
    }
  }

  /** The constructor: `dir` is normalised. The source divides by the length
      without a guard, so the direction must not be the zero vector. */
  function MakeRay(origin: Vec2, d: Vec2, sqrt: real -> real): (r: Ray)
    requires IsSqrt(sqrt) && 0.0 < d.LenSquared()
    ensures r.origin == origin
    ensures r.dir.LenSquared() == 1.0
    ensures r.dir.Times(d.Len(sqrt)) == d
  {
    Ray(origin, d.Normalized(sqrt))
  }

  /** With a unit `dir`, the squared distance from `w` to its projection on
      `dir` is `|w|^2 - t^2`, where `t` is the projection's length. */
  lemma Pythagoras(wx: real, wy: real, dx: real, dy: real, t: real)
    requires dx * dx + dy * dy == 1.0 && t == wx * dx + wy * dy
    ensures (wx - t * dx) * (wx - t * dx) + (wy - t * dy) * (wy - t * dy) == wx * wx + wy * wy - t * t
  {
    calc {
      (wx - t * dx) * (wx - t * dx) + (wy - t * dy) * (wy - t * dy);
      wx * wx + wy * wy - 2.0 * t * (wx * dx + wy * dy) + t * t * (dx * dx + dy * dy);
      wx * wx + wy * wy - 2.0 * t * t + t * t * 1.0;
      wx * wx + wy * wy - t * t;
    }
  }

  /** In front of the origin, the distance to the ray is the distance to the
      foot of the perpendicular, which is `|point - origin|^2 - dirDist^2`. */
  lemma FootDistance(ray: Ray, point: Vec2)
    requires ray.dir.LenSquared() == 1.0
    requires 0.0 <= point.Minus(ray.origin).Dot(ray.dir)
    ensures ray.DistanceSqToPoint(point)
         == ray.origin.DistToSquared(point) - point.Minus(ray.origin).Dot(ray.dir) * point.Minus(ray.origin).Dot(ray.dir)
  {
    var w := point.Minus(ray.origin);
    var t := w.Dot(ray.dir);
    var foot := ray.dir.Times(t).Plus(ray.origin);
    Pythagoras(w.x, w.y, ray.dir.x, ray.dir.y, t);
    assert foot.Minus(point) == Vec2(-(w.x - t * ray.dir.x), -(w.y - t * ray.dir.y));
    NegatedSquare(w.x - t * ray.dir.x);
    NegatedSquare(w.y - t * ray.dir.y);
    NegatedSquare(w.x);
    NegatedSquare(w.y);
    assert ray.origin.Minus(point) == Vec2(-w.x, -w.y);
  }

  lemma NegatedSquare(a: real)
    ensures (-a) * (-a) == a * a
  {
  }

  /** For a unit direction the distance to the ray is never more than the
      distance to its origin. */
  lemma DistanceSqBounds(ray: Ray, point: Vec2)
    requires ray.dir.LenSquared() == 1.0
    ensures 0.0 <= ray.DistanceSqToPoint(point) <= ray.origin.DistToSquared(point)
  {
    var t := point.Minus(ray.origin).Dot(ray.dir);
    if 0.0 <= t {
      FootDistance(ray, point);
      SquareNonNegative(t);
    }
  }

  /** The origin lies on the ray. */
  lemma DistanceAtOrigin(ray: Ray)
    ensures ray.DistanceSqToPoint(ray.origin) == 0.0
  {
    assert ray.origin.Minus(ray.origin) == Zero;
    assert ray.dir.Times(0.0).Plus(ray.origin) == ray.origin;
  }

  /** A circle the ray meets is also met by any circle with the same center
      and a radius at least as large in absolute value. */
  lemma IntersectsMonotone(ray: Ray, center: Vec2, r1: real, r2: real)
    requires ray.IntersectsCircle(center, r1)
    requires (if r1 < 0.0 then -r1 else r1) <= (if r2 < 0.0 then -r2 else r2)
    ensures ray.IntersectsCircle(center, r2)
  {
    var a1, a2 := (if r1 < 0.0 then -r1 else r1), (if r2 < 0.0 then -r2 else r2);
    NegatedSquare(r1);
    NegatedSquare(r2);
    if a1 < a2 {
      SquareLess(a1, a2);
    }
    assert r1 * r1 == a1 * a1 && r2 * r2 == a2 * a2;
  }
}
