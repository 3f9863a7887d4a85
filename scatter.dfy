/**
 * Material::scatter: given the ray that hit a surface and the hit record,
 * decides whether the ray continues and, if so, the scattered ray.
 *
 * The draws random_unit_vector(), random_in_unit_sphere() and
 * random_float() are parameters, as are std::sqrt, std::pow and refract
 * (which no file of the core defines).
 */
module Scatter {
  import opened MathUtils
  import opened Vectors
  import opened Ray
  import opened Materials
  import opened Hittable

  /**
   * Lambertian direction: normal + roughness * u, or exactly the normal
   * when that sum is near zero. A normal that is not itself near zero
   * never yields a near-zero direction.
   */
  function LambertianDirection(normal: Vec3, roughness: real, u: Vec3): (d: Vec3)
    ensures d == normal || d == normal.Add(u.Scale(roughness))
    ensures d == normal.Add(u.Scale(roughness)) <==> !normal.Add(u.Scale(roughness)).NearZero() || u.Scale(roughness) == Zero
    ensures !normal.NearZero() ==> !d.NearZero()
  {
    var candidate := normal.Add(u.Scale(roughness));
    if candidate.NearZero() then normal else candidate
  }

  /**
   * Metal direction: metallic * reflect(unit_vector(v), n) + roughness * w.
   * Off a unit normal, its normal component is the fuzz's minus metallic
   * times the incoming unit direction's: the mirror part flips the side.
   */
  function MetalDirection(m: Material, v: Vec3, normal: Vec3, w: Vec3, sqrt: real -> real): (d: Vec3)
    requires IsSqrt(sqrt) && v != Zero
    ensures normal.LengthSquared() == 1.0 ==>
              Dot(d, normal) == Mul(m.roughness, Dot(w, normal)) - Mul(m.metallic, Dot(UnitVector(v, sqrt), normal))
  {
    var u := UnitVector(v, sqrt);
    MetalNormalComponent(u, normal, w, m.metallic, m.roughness);
    Reflect(u, normal).Scale(m.metallic).Add(w.Scale(m.roughness))
  }

  /** The normal component of metallic * reflect(u, n) + roughness * w, off a unit normal. */
  lemma MetalNormalComponent(u: Vec3, n: Vec3, w: Vec3, metallic: real, roughness: real)
    ensures n.LengthSquared() == 1.0 ==>
              Dot(Reflect(u, n).Scale(metallic).Add(w.Scale(roughness)), n)
              == Mul(roughness, Dot(w, n)) - Mul(metallic, Dot(u, n))
  {
    if n.LengthSquared() == 1.0 {
      var mirror := Reflect(u, n);
      ReflectNormalComponent(u, n);
      DotScale(mirror, n, metallic);
      DotScale(w, n, roughness);
      DotAdd(mirror.Scale(metallic), w.Scale(roughness), n);
    }
  }

  /** dot(a + b, n) == dot(a, n) + dot(b, n). */
  lemma DotAdd(a: Vec3, b: Vec3, n: Vec3)
    ensures Dot(a.Add(b), n) == Dot(a, n) + Dot(b, n)
  {
  }

  /** refraction_ratio: 1/refractionIndex when entering through the front face, refractionIndex when leaving. */
  function RefractionRatio(frontFace: bool, refractionIndex: real): (ratio: real)
    requires frontFace ==> refractionIndex != 0.0
    ensures frontFace ==> Mul(ratio, refractionIndex) == 1.0
    ensures !frontFace ==> ratio == refractionIndex
  {
    if frontFace then Recip(refractionIndex) else refractionIndex
  }

  /** cos_theta = fmin(dot(-unit_direction, n), 1). */
  function CosTheta(unitDirection: Vec3, normal: Vec3): (c: real)
    ensures c <= 1.0
    ensures c <= -Dot(unitDirection, normal)
    ensures c == 1.0 || c == -Dot(unitDirection, normal)
  {
    NegDotLeft(unitDirection, normal);
    Min(Dot(unitDirection.Neg(), normal), 1.0)
  }

  lemma NegDotLeft(u: Vec3, v: Vec3)
    ensures Dot(u.Neg(), v) == -Dot(u, v)
  {
  }

  /**
   * cannot_refract = refraction_ratio * sqrt(1 - cos_theta^2) > 1. When
   * 1 - cos_theta^2 is negative std::sqrt yields NaN and the comparison
   * is false.
   */
  predicate CannotRefract(ratio: real, cosTheta: real, sqrt: real -> real)
    requires IsSqrt(sqrt)
    ensures CannotRefract(ratio, cosTheta, sqrt) ==> 1.0 < ratio
  {
    RatioBound(ratio, cosTheta, sqrt);
    0.0 <= 1.0 - Mul(cosTheta, cosTheta) && Mul(ratio, sqrt(1.0 - Mul(cosTheta, cosTheta))) > 1.0
  }

  /** sin_theta is at most 1, so a ratio of at most 1 never makes ratio * sin_theta exceed 1. */
  lemma RatioBound(ratio: real, cosTheta: real, sqrt: real -> real)
    requires IsSqrt(sqrt)
    ensures 0.0 <= 1.0 - Mul(cosTheta, cosTheta) && Mul(ratio, sqrt(1.0 - Mul(cosTheta, cosTheta))) > 1.0 ==> 1.0 < ratio
  {
    var x := 1.0 - Mul(cosTheta, cosTheta);
    if 0.0 <= x && ratio <= 1.0 {
      SquareNonNegative(cosTheta);
      SqrtUnitInterval(sqrt, x);
      var s := sqrt(x);
      if ratio <= 0.0 {
        ProductNonNegative(-ratio, s);
        assert Mul(ratio, s) == -Mul(-ratio, s);
      } else {
        MultiplyMonotone(ratio, s, 1.0);
        assert Mul(ratio, 1.0) == ratio;
      }
    }
  }

  /** r0 = ((1 - ref_idx) / (1 + ref_idx))^2, Schlick's reflectance at normal incidence. */
  function NormalReflectance(refIdx: real): (r0: real)
    requires refIdx != -1.0
    ensures 0.0 <= r0
  {
    var q := Quotient(1.0 - refIdx, 1.0 + refIdx);
    SquareNonNegative(q);
    Mul(q, q)
  }

  /**
   * Schlick's approximation: r0 + (1 - r0) * pow(1 - cosine, 5), which runs
   * from r0 (when the power is 0) to 1 (when it is 1).
   */
  function Reflectance(cosine: real, refIdx: real, pow: (real, real) -> real): (rf: real)
    requires refIdx != -1.0
    ensures pow(1.0 - cosine, 5.0) == 0.0 ==> rf == NormalReflectance(refIdx)
    ensures pow(1.0 - cosine, 5.0) == 1.0 ==> rf == 1.0
    ensures 0.0 <= pow(1.0 - cosine, 5.0) <= 1.0 && NormalReflectance(refIdx) <= 1.0 ==>
              NormalReflectance(refIdx) <= rf <= 1.0
  {
    var r0 := NormalReflectance(refIdx);
    var p := pow(1.0 - cosine, 5.0);
    if 0.0 <= p <= 1.0 && r0 <= 1.0 then
      ProductNonNegative(1.0 - r0, p);
      MultiplyMonotone(1.0 - r0, p, 1.0);
      r0 + Mul(1.0 - r0, p)
    else
      r0 + Mul(1.0 - r0, p)
  }

  /**
   * Glass direction: the mirror reflection of the unit incoming direction
   * when refraction is impossible or the draw falls below the reflectance,
   * the refracted direction otherwise.
   */
  function GlassDirection(m: Material, v: Vec3, frontFace: bool, normal: Vec3, draw: real,
                          sqrt: real -> real, pow: (real, real) -> real, refract: (Vec3, Vec3, real) -> Vec3): (d: Vec3)
    requires IsSqrt(sqrt) && v != Zero
    requires (frontFace ==> m.refractionIndex != 0.0) && m.refractionIndex != -1.0
    ensures var unit := UnitVector(v, sqrt);
      var ratio := RefractionRatio(frontFace, m.refractionIndex);
      CannotRefract(ratio, CosTheta(unit, normal), sqrt) ==> d == Reflect(unit, normal)
    ensures var unit := UnitVector(v, sqrt);
      d == Reflect(unit, normal) || d == refract(unit, normal, RefractionRatio(frontFace, m.refractionIndex))
  {
    var ratio := RefractionRatio(frontFace, m.refractionIndex);
    assert ratio != -1.0;
    var unit := UnitVector(v, sqrt);
    var cosTheta := CosTheta(unit, normal);
    if CannotRefract(ratio, cosTheta, sqrt) || Reflectance(cosTheta, ratio, pow) > draw then
      Reflect(unit, normal)
    else
      refract(unit, normal, ratio)
  }

  /** The source's demands on a material and ray for scatter to be defined over the reals. */
  predicate ScatterDefined(m: Material, rayIn: Ray3, rec: Record) {
    (m.kind == Metal || m.kind == Glass ==> rayIn.direction != Zero)
    && (m.kind == Glass ==> (rec.frontFace ==> m.refractionIndex != 0.0) && m.refractionIndex != -1.0)
  }

  /**
   * Material::scatter. `previous` is the value of the out-parameter
   * `result` before the call.
   */
  method Scatter(m: Material, rayIn: Ray3, rec: Record, previous: Ray3,
                 randomUnitVector: Vec3, randomInUnitSphere: Vec3, randomFloat: real,
                 sqrt: real -> real, pow: (real, real) -> real, refract: (Vec3, Vec3, real) -> Vec3)
    returns (scattered: bool, result: Ray3)
    requires IsSqrt(sqrt) && ScatterDefined(m, rayIn, rec)
    ensures m.kind == None ==> !scattered && result == previous
    ensures m.kind != None ==> result.origin == rec.p
    ensures m.kind == Lambertian ==>
              scattered && result.direction == LambertianDirection(rec.normal, m.roughness, randomUnitVector)
    ensures m.kind == Metal ==>
              result.direction == MetalDirection(m, rayIn.direction, rec.normal, randomInUnitSphere, sqrt)
              && (scattered <==> Dot(result.direction, rec.normal) > 0.0)
    ensures m.kind == Glass ==>
              scattered
              && result.direction == GlassDirection(m, rayIn.direction, rec.frontFace, rec.normal, randomFloat, sqrt, pow, refract)
  {
    result := previous;
    match m.kind {
      case Lambertian =>
        var direction := rec.normal.Add(randomUnitVector.Scale(m.roughness));
        if direction.NearZero() {
          direction := rec.normal;
        }
        result := Ray3(rec.p, direction);
        return true, result;
      case Metal =>
        var direction := Reflect(UnitVector(rayIn.direction, sqrt), rec.normal).Scale(m.metallic);
        result := Ray3(rec.p, direction.Add(randomInUnitSphere.Scale(m.roughness)));
        return Dot(result.direction, rec.normal) > 0.0, result;
      case Glass =>
        var direction := GlassDirection(m, rayIn.direction, rec.frontFace, rec.normal, randomFloat, sqrt, pow, refract);
        result := Ray3(rec.p, direction);
        return true, result;
      case None =>
        return false, result;
    }
  }

  // ---------------------------------------------------------------------
  // Properties of the scatter decisions
  // ---------------------------------------------------------------------

  /**
   * Entering glass whose refraction index is at least 1 never meets total
   * internal reflection: refraction_ratio <= 1 and sin_theta <= 1.
   */
  lemma NoTotalInternalReflectionOnEntry(refractionIndex: real, cosTheta: real, sqrt: real -> real)
    requires IsSqrt(sqrt) && 1.0 <= refractionIndex
    ensures !CannotRefract(RefractionRatio(true, refractionIndex), cosTheta, sqrt)
  {
  }

  /**
   * Schlick's r0 is the same for a ratio n and for 1/n, so passing the
   * refraction ratio rather than the index, as scatter does, gives the
   * reflectance at normal incidence of the interface either way.
   */
  lemma {:induction false} NormalReflectanceOfReciprocal(n: real)
    requires n != 0.0 && n != -1.0
    ensures Recip(n) != -1.0
    ensures NormalReflectance(Recip(n)) == NormalReflectance(n)
  {
  }

  /**
   * Metal with metallic 1 and roughness 0 is an ideal mirror off a unit
   * normal: the ray continues exactly when it came from the front of the
   * surface (dot(direction, normal) < 0).
   */
  lemma IdealMirror(m: Material, v: Vec3, normal: Vec3, w: Vec3, sqrt: real -> real)
    requires IsSqrt(sqrt) && v != Zero && normal.LengthSquared() == 1.0
    requires m.metallic == 1.0 && m.roughness == 0.0
    ensures MetalDirection(m, v, normal, w, sqrt) == Reflect(UnitVector(v, sqrt), normal)
    ensures Dot(MetalDirection(m, v, normal, w, sqrt), normal) > 0.0 <==> Dot(v, normal) < 0.0
  {
    var u := UnitVector(v, sqrt);
    ScaleOne(Reflect(u, normal));
    ScaleZero(w);
    ReflectFlipsNormalComponent(u, normal);
    LengthSquaredPositive(v);
    var len := sqrt(v.LengthSquared());
    SqrtPositive(sqrt, v.LengthSquared());
    assert u == v.Scale(Recip(len));
    DotScale(v, normal, Recip(len));
    PositiveFactorKeepsSign(len, Recip(len));
    PositiveFactorKeepsSign(Recip(len), Dot(v, normal));
  }

  /**
   * Head-on incidence on glass of index 1.5 from outside: cos_theta is 1,
   * refraction is possible, and with pow(0, 5) == 0 the reflectance is
   * exactly r0 = ((1 - 2/3) / (1 + 2/3))^2 = 0.04. Every draw below 0.04
   * therefore sends the ray straight back along the normal.
   */
  lemma HeadOnGlassReflectsLowDraws(m: Material, normal: Vec3, draw: real,
                                    sqrt: real -> real, pow: (real, real) -> real, refract: (Vec3, Vec3, real) -> Vec3)
    requires IsSqrt(sqrt) && normal.LengthSquared() == 1.0
    requires m.refractionIndex == 1.5 && pow(0.0, 5.0) == 0.0 && draw < 0.04
    ensures normal.Neg() != Zero
    ensures Reflectance(1.0, RefractionRatio(true, m.refractionIndex), pow) == 0.04
    ensures GlassDirection(m, normal.Neg(), true, normal, draw, sqrt, pow, refract) == normal
  {
    var v := normal.Neg();
    NegLengthSquared(normal);
    assert v != Zero;
    var u := UnitVector(v, sqrt);
    SqrtOfSquare(sqrt, 1.0);
    assert Mul(1.0, 1.0) == 1.0;
    ScaleOne(u);
    assert u == v;
    assert CosTheta(u, normal) == 1.0 by {
      assert u.Neg() == normal;
    }
    assert !CannotRefract(RefractionRatio(true, 1.5), 1.0, sqrt) by {
      SqrtOfSquare(sqrt, 0.0);
      assert Mul(0.0, 0.0) == 0.0;
      assert Mul(RefractionRatio(true, 1.5), 0.0) == 0.0;
    }
    var ratio := RefractionRatio(true, 1.5);
    assert ratio == 2.0 / 3.0;
    var q := Quotient(1.0 - ratio, 1.0 + ratio);
    assert q == 0.2;
    assert NormalReflectance(ratio) == 0.04;
    assert Mul(1.0 - 0.04, pow(0.0, 5.0)) == 0.0;
    NegDotLeft(normal, normal);
    assert Dot(normal, normal) == normal.LengthSquared();
    assert Dot(v, normal) == -1.0;
    assert Reflect(v, normal) == v.Sub(normal.Scale(-2.0));
    assert normal.Scale(-2.0) == Vec3(-2.0 * normal.x, -2.0 * normal.y, -2.0 * normal.z);
  }
}
