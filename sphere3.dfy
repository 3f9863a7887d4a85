/**
 * Sphere3 and its ray intersection test. The test solves
 * |origin + t*direction - center|^2 == radius^2 for t as the quadratic
 * a*t^2 + 2*half_b*t + c == 0, and accepts the nearer root if it lies in
 * the closed interval [t_min, t_max], otherwise the farther one.
 */
module Sphere {
  import opened MathUtils
  import opened Vectors
  import opened Ray
  import opened Materials
  import opened Hittable

  /** The coefficients of a*t^2 + 2*halfB*t + c. */
  datatype Quadratic = Quadratic(a: real, halfB: real, c: real) {

    function Discriminant(): real {
      Mul(halfB, halfB) - Mul(a, c)
    }

    function Value(t: real): real {
      Mul(a, Mul(t, t)) + 2.0 * Mul(halfB, t) + c
    }
  }

  /** Outcome of the root search in Sphere3::hit. */
  datatype RootSearch = NoRealRoots | OutOfRange | Root(t: real)

  /** t_min <= t <= t_max: the test rejects a root only when `root < t_min || t_max < root`. */
  predicate InRange(t: real, tMin: real, tMax: real)
    ensures InRange(t, tMin, tMax) <==> tMin <= t <= tMax
  {
    !(t < tMin || tMax < t)
  }

  datatype Sphere3 = Sphere3(center: Vec3, radius: real, material: Material) {

    /**
     * Sphere3::hit. Returns false straight away on a negative discriminant,
     * leaving rec untouched; sets rec.hit := false and returns false when
     * neither root is in range; otherwise fills every field of rec for the
     * accepted root and returns true.
     */
    method Hit(r: Ray3, tMin: real, tMax: real, rec: HitRecord, sqrt: real -> real) returns (b: bool)
      requires IsSqrt(sqrt) && r.direction != Zero && radius != 0.0
      modifies rec
      ensures b <==> FindRoot(this, r, tMin, tMax, sqrt).Root?
      ensures FindRoot(this, r, tMin, tMax, sqrt).NoRealRoots? ==> rec.Value() == old(rec.Value())
      ensures FindRoot(this, r, tMin, tMax, sqrt).OutOfRange? ==> rec.Value() == old(rec.Value()).(hit := false)
      ensures FindRoot(this, r, tMin, tMax, sqrt).Root? ==>
                rec.Value() == HitRecordAt(this, r, FindRoot(this, r, tMin, tMax, sqrt).t)
    {
      var oc := r.origin.Sub(center);
      var a := r.direction.LengthSquared();
      var halfB := Dot(oc, r.direction);
      var c := oc.LengthSquared() - Mul(radius, radius);
      LengthSquaredPositive(r.direction);

      var discriminant := Mul(halfB, halfB) - Mul(a, c);
      if discriminant < 0.0 {
        return false;
      }
      var sqrtd := sqrt(discriminant);

      var root := Quotient(-halfB - sqrtd, a);
      if root < tMin || tMax < root {
        root := Quotient(-halfB + sqrtd, a);
        if root < tMin || tMax < root {
          rec.hit := false;
          return false;
        }
      }

      rec.hit := true;
      rec.t := root;
      rec.p := r.At(rec.t);
      var outward := rec.p.Sub(center).Div(radius);
      rec.SetFaceNormal(r, outward);
      rec.material := material;
      return true;
    }
  }

  /** Sphere3{}: centred at the origin with radius 1. */
  const DefaultSphere := Sphere3(Zero, 1.0, DefaultMaterial)

  /** oc = origin - center, a = |direction|^2, half_b = dot(oc, direction), c = |oc|^2 - radius^2. */
  function Coefficients(s: Sphere3, r: Ray3): (q: Quadratic)
    ensures r.direction != Zero ==> 0.0 < q.a
  {
    var oc := r.origin.Sub(s.center);
    var q := Quadratic(r.direction.LengthSquared(), Dot(oc, r.direction), oc.LengthSquared() - Mul(s.radius, s.radius));
    if r.direction != Zero then
      LengthSquaredPositive(r.direction);
      q
    else
      q
  }

  /** The point at parameter t lies on the sphere's surface. */
  predicate OnSphere(s: Sphere3, r: Ray3, t: real) {
    r.At(t).Sub(s.center).LengthSquared() == Mul(s.radius, s.radius)
  }

  /** (-half_b - sqrt(discriminant)) / a: a root whenever the discriminant is non-negative. */
  function NearRoot(q: Quadratic, sqrt: real -> real): (root: real)
    requires IsSqrt(sqrt) && q.a != 0.0
    ensures 0.0 <= q.Discriminant() ==> q.Value(root) == 0.0
  {
    Quotient(-q.halfB - sqrt(q.Discriminant()), q.a)
  }

  /** (-half_b + sqrt(discriminant)) / a: a root whenever the discriminant is non-negative. */
  function FarRoot(q: Quadratic, sqrt: real -> real): (root: real)
    requires IsSqrt(sqrt) && q.a != 0.0
    ensures 0.0 <= q.Discriminant() ==> q.Value(root) == 0.0
  {
    Quotient(-q.halfB + sqrt(q.Discriminant()), q.a)
  }

  /** The root search of Sphere3::hit, as a function of its inputs. */
  function FindRoot(s: Sphere3, r: Ray3, tMin: real, tMax: real, sqrt: real -> real): (res: RootSearch)
    requires IsSqrt(sqrt) && r.direction != Zero
    ensures res.NoRealRoots? <==> Coefficients(s, r).Discriminant() < 0.0
    ensures res.Root? ==> InRange(res.t, tMin, tMax) && OnSphere(s, r, res.t)
    ensures res.Root? ==> res.t == NearRoot(Coefficients(s, r), sqrt) || res.t == FarRoot(Coefficients(s, r), sqrt)
    ensures res.Root? && res.t != NearRoot(Coefficients(s, r), sqrt) ==>
              !InRange(NearRoot(Coefficients(s, r), sqrt), tMin, tMax)
  {
    var q := Coefficients(s, r);
    LengthSquaredPositive(r.direction);
    if q.Discriminant() < 0.0 then NoRealRoots
    else
      OnSphereIffRoot(s, r, NearRoot(q, sqrt));
      OnSphereIffRoot(s, r, FarRoot(q, sqrt));
      if InRange(NearRoot(q, sqrt), tMin, tMax) then Root(NearRoot(q, sqrt))
      else if InRange(FarRoot(q, sqrt), tMin, tMax) then Root(FarRoot(q, sqrt))
      else OutOfRange
  }

  /**
   * The record Sphere3::hit writes for an accepted root t: the point at t,
   * the normal (p - center) / radius turned against the ray, and the
   * sphere's material.
   */
  function HitRecordAt(s: Sphere3, r: Ray3, t: real): (rec: Record)
    requires s.radius != 0.0
    ensures rec.hit && rec.t == t && rec.p == r.At(t) && rec.material == s.material
    ensures rec.frontFace <==> Dot(r.direction, OutwardNormal(s, r.At(t))) < 0.0
    ensures rec.frontFace ==> rec.normal == OutwardNormal(s, r.At(t))
    ensures !rec.frontFace ==> rec.normal == OutwardNormal(s, r.At(t)).Neg()
    ensures Dot(r.direction, rec.normal) <= 0.0
  {
    var outward := OutwardNormal(s, r.At(t));
    Record(r.At(t), FacingNormal(r, outward), t, true, FrontFace(r, outward), s.material)
  }

  /** (p - center) / radius: scaled back by the radius it is the vector from the centre to p. */
  function OutwardNormal(s: Sphere3, p: Vec3): (n: Vec3)
    requires s.radius != 0.0
    ensures n.Scale(s.radius) == p.Sub(s.center)
  {
    var d := p.Sub(s.center);
    ScaleScale(d, Recip(s.radius), s.radius);
    ScaleOne(d);
    d.Div(s.radius)
  }

  // ---------------------------------------------------------------------
  // Algebra of the quadratic
  // ---------------------------------------------------------------------

  /** a * (a t^2 + 2 h t + c) == (a t + h)^2 - (h^2 - a c). */
  lemma ScaledValue(q: Quadratic, t: real)
    ensures Mul(q.a, q.Value(t)) == Mul(Mul(q.a, t) + q.halfB, Mul(q.a, t) + q.halfB) - q.Discriminant()
  {
  }

  /** A quadratic with positive leading coefficient and negative discriminant has no root. */
  lemma NoRootsWhenDiscriminantNegative(q: Quadratic, t: real)
    requires 0.0 < q.a && q.Discriminant() < 0.0
    ensures q.Value(t) != 0.0
  {
    ScaledValue(q, t);
    SquareNonNegative(Mul(q.a, t) + q.halfB);
  }

  /** Every root of the quadratic is the near or the far root. */
  lemma OnlyTwoRoots(q: Quadratic, sqrt: real -> real, t: real)
    requires IsSqrt(sqrt) && 0.0 < q.a && q.Value(t) == 0.0
    ensures 0.0 <= q.Discriminant()
    ensures t == NearRoot(q, sqrt) || t == FarRoot(q, sqrt)
  {
    ScaledValue(q, t);
    var u := Mul(q.a, t) + q.halfB;
    SquareNonNegative(u);
    var sd := sqrt(q.Discriminant());
    if 0.0 <= u {
      SqrtOfSquare(sqrt, u);
      CancelFactor(q.a, t, FarRoot(q, sqrt));
    } else {
      assert Mul(u, u) == Mul(-u, -u);
      SqrtOfSquare(sqrt, -u);
      CancelFactor(q.a, t, NearRoot(q, sqrt));
    }
  }

  /** The near root is never past the far root. */
  lemma NearBeforeFar(q: Quadratic, sqrt: real -> real)
    requires IsSqrt(sqrt) && 0.0 < q.a && 0.0 <= q.Discriminant()
    ensures NearRoot(q, sqrt) <= FarRoot(q, sqrt)
  {
  }

  /** One component of |o + t e|^2. */
  lemma ComponentSquare(o: real, e: real, t: real)
    ensures Mul(o + Mul(t, e), o + Mul(t, e)) == Mul(o, o) + 2.0 * Mul(t, Mul(o, e)) + Mul(Mul(t, t), Mul(e, e))
  {
  }

  /** k * (x + y + z) == k*x + k*y + k*z, with the sum on the left. */
  lemma DistributeSum(x: real, y: real, z: real, k: real)
    ensures Mul(x + y + z, k) == Mul(k, x) + Mul(k, y) + Mul(k, z)
  {
  }

  /**
   * The point at parameter t is off the sphere's surface by exactly the
   * quadratic's value: |at(t) - center|^2 - radius^2 == a t^2 + 2 half_b t + c.
   */
  lemma SurfaceEquation(s: Sphere3, r: Ray3, t: real)
    ensures r.At(t).Sub(s.center).LengthSquared() - Mul(s.radius, s.radius) == Coefficients(s, r).Value(t)
  {
    var oc := r.origin.Sub(s.center);
    var d := r.direction;
    assert r.At(t).Sub(s.center) == Vec3(oc.x + Mul(t, d.x), oc.y + Mul(t, d.y), oc.z + Mul(t, d.z));
    ComponentSquare(oc.x, d.x, t);
    ComponentSquare(oc.y, d.y, t);
    ComponentSquare(oc.z, d.z, t);
    DistributeSum(Mul(d.x, d.x), Mul(d.y, d.y), Mul(d.z, d.z), Mul(t, t));
    DistributeSum(Mul(oc.x, d.x), Mul(oc.y, d.y), Mul(oc.z, d.z), t);
    assert Mul(t, Mul(oc.x, d.x)) == Mul(t, Mul(d.x, oc.x));
  }

  /** A point of the ray is on the sphere exactly when its parameter solves the quadratic. */
  lemma OnSphereIffRoot(s: Sphere3, r: Ray3, t: real)
    ensures OnSphere(s, r, t) <==> Coefficients(s, r).Value(t) == 0.0
  {
    SurfaceEquation(s, r, t);
  }

  // ---------------------------------------------------------------------
  // What the root search promises
  // ---------------------------------------------------------------------

  /** A negative discriminant means the ray's line misses the sphere: no t at all is on its surface. */
  lemma NegativeDiscriminantMisses(s: Sphere3, r: Ray3, t: real)
    requires r.direction != Zero && Coefficients(s, r).Discriminant() < 0.0
    ensures !OnSphere(s, r, t)
  {
    OnSphereIffRoot(s, r, t);
    NoRootsWhenDiscriminantNegative(Coefficients(s, r), t);
  }

  /**
   * The root search finds the nearest surface point in [t_min, t_max]: if
   * any t in range is on the sphere, a root is accepted and it is not past t.
   */
  lemma FindRootIsNearest(s: Sphere3, r: Ray3, tMin: real, tMax: real, sqrt: real -> real, t: real)
    requires IsSqrt(sqrt) && r.direction != Zero
    requires InRange(t, tMin, tMax) && OnSphere(s, r, t)
    ensures FindRoot(s, r, tMin, tMax, sqrt).Root?
    ensures FindRoot(s, r, tMin, tMax, sqrt).t <= t
  {
    var q := Coefficients(s, r);
    OnSphereIffRoot(s, r, t);
    OnlyTwoRoots(q, sqrt, t);
    NearBeforeFar(q, sqrt);
  }

  /** When the root search gives up, no surface point lies in [t_min, t_max]. */
  lemma NoRootMeansNoSurfacePoint(s: Sphere3, r: Ray3, tMin: real, tMax: real, sqrt: real -> real, t: real)
    requires IsSqrt(sqrt) && r.direction != Zero
    requires !FindRoot(s, r, tMin, tMax, sqrt).Root?
    ensures InRange(t, tMin, tMax) ==> !OnSphere(s, r, t)
  {
    if InRange(t, tMin, tMax) && OnSphere(s, r, t) {
      FindRootIsNearest(s, r, tMin, tMax, sqrt, t);
    }
  }

  /** The normal of a hit on the surface is a unit vector. */
  lemma HitNormalIsUnit(s: Sphere3, r: Ray3, t: real)
    requires s.radius != 0.0 && OnSphere(s, r, t)
    ensures OutwardNormal(s, r.At(t)).LengthSquared() == 1.0
    ensures HitRecordAt(s, r, t).normal.LengthSquared() == 1.0
  {
    var d := r.At(t).Sub(s.center);
    var k := Recip(s.radius);
    ScaleLengthSquared(d, k);
    assert Mul(Mul(k, k), Mul(s.radius, s.radius)) == Mul(Mul(k, s.radius), Mul(k, s.radius));
  }

  /**
   * A ray with a unit direction aimed straight at the centre of a sphere
   * of radius R > 0 from distance D > R meets it first at t = D - R,
   * whenever that t is in [t_min, t_max].
   */
  lemma HeadOnHit(s: Sphere3, r: Ray3, distance: real, tMin: real, tMax: real, sqrt: real -> real)
    requires IsSqrt(sqrt) && r.direction.LengthSquared() == 1.0
    requires s.center == r.At(distance) && 0.0 < s.radius < distance
    requires InRange(distance - s.radius, tMin, tMax)
    ensures r.direction != Zero
    ensures FindRoot(s, r, tMin, tMax, sqrt) == Root(distance - s.radius)
  {
    var u := r.direction;
    assert u != Zero;
    var R := s.radius;
    forall t | true
      ensures OnSphere(s, r, t) <==> Mul(t - distance, t - distance) == Mul(R, R)
    {
      ScaleSum(u, distance, t - distance);
      assert r.At(t) == r.At(distance).Add(u.Scale(t - distance));
      AddSubCancel(r.At(distance), u.Scale(t - distance));
      ScaleLengthSquared(u, t - distance);
    }
    assert Mul(-R, -R) == Mul(R, R);
    FindRootIsNearest(s, r, tMin, tMax, sqrt, distance - R);
    var t := FindRoot(s, r, tMin, tMax, sqrt).t;
    if t - distance < 0.0 {
      assert Mul(distance - t, distance - t) == Mul(t - distance, t - distance);
      SquareInjective(distance - t, R);
    } else {
      SquareInjective(t - distance, R);
    }
  }
}
