/**
 * Ray3: a half-line with an origin and a direction. Its accessors
 * origin() and direction() are the datatype's destructors, so they return
 * exactly the values the ray was built from.
 */
module Ray {
  import opened MathUtils
  import opened Vectors

  datatype Ray3 = Ray3(origin: Vec3, direction: Vec3) {

    /** at(t) = origin + t * direction: the point reached after t direction-lengths. */
    function At(t: real): (p: Vec3)
      ensures p.Sub(origin) == direction.Scale(t)
    {
      AddSubCancel(origin, direction.Scale(t));
      origin.Add(direction.Scale(t))
    }
  }

  /** (u + v) - u == v. */
  lemma AddSubCancel(u: Vec3, v: Vec3)
    ensures u.Add(v).Sub(u) == v
  {
  }

  /** The ray starts at its origin. */
  lemma AtZero(r: Ray3)
    ensures r.At(0.0) == r.origin
  {
  }

  /** One direction-length along the ray is origin + direction. */
  lemma AtOne(r: Ray3)
    ensures r.At(1.0) == r.origin.Add(r.direction)
  {
  }

  /** at is affine in t: moving on by t from at(s) reaches at(s + t). */
  lemma AtAffine(r: Ray3, s: real, t: real)
    ensures r.At(s + t) == r.At(s).Add(r.direction.Scale(t))
  {
  }

  /** Distinct parameters give distinct points when the direction is non-zero. */
  lemma AtInjective(r: Ray3, s: real, t: real)
    requires r.direction != Zero && r.At(s) == r.At(t)
    ensures s == t
  {
  }
}
