/**
 * hit_record: what an intersection test reports. The source mutates it in
 * place (set_face_normal, the sphere test's out-parameter, the list's copy
 * assignment), so it is a class; `Value()` is a snapshot of its fields.
 *
 * The record carries the material of the surface hit: the sphere test
 * writes `rec.material`, although the struct declaration shown in
 * Hittable.hpp lists no such field.
 */
module Hittable {
  import opened MathUtils
  import opened Vectors
  import opened Ray
  import opened Materials

  /** A snapshot of a hit record's fields. */
  datatype Record = Record(p: Vec3, normal: Vec3, t: real, hit: bool, frontFace: bool, material: Material)

  /** front_face = dot(r.direction(), outward_normal) < 0: the ray meets the outside of the surface. */
  predicate FrontFace(r: Ray3, outward: Vec3)
    ensures FrontFace(r, outward) ==> 0.0 < Dot(r.direction, outward.Neg())
    ensures outward == Zero ==> !FrontFace(r, outward)
  {
    NegDot(r.direction, outward);
    Dot(r.direction, outward) < 0.0
  }

  /**
   * The normal set_face_normal stores: the outward normal on a front-face
   * hit, its negation otherwise. It never points along the ray and has the
   * outward normal's length.
   */
  function FacingNormal(r: Ray3, outward: Vec3): (n: Vec3)
    ensures FrontFace(r, outward) ==> n == outward
    ensures !FrontFace(r, outward) ==> n == outward.Neg()
    ensures Dot(r.direction, n) <= 0.0
    ensures n.LengthSquared() == outward.LengthSquared()
  {
    if FrontFace(r, outward) then outward
    else
      NegDot(r.direction, outward);
      NegLengthSquared(outward);
      outward.Neg()
  }

  /** dot(u, -v) == -dot(u, v). */
  lemma NegDot(u: Vec3, v: Vec3)
    ensures Dot(u, v.Neg()) == -Dot(u, v)
  {
  }

  /** |-v|^2 == |v|^2. */
  lemma NegLengthSquared(v: Vec3)
    ensures v.Neg().LengthSquared() == v.LengthSquared()
  {
  }

  class HitRecord {
    var p: Vec3
    var normal: Vec3
    /** Left uninitialised by the source's default constructor: any value. */
    var t: real
    var hit: bool
    var frontFace: bool
    var material: Material

    function Value(): Record
      reads this
    {
      Record(p, normal, t, hit, frontFace, material)
    }

    /** hit_record{}: zero point and normal, no hit, not front-facing. */
    constructor ()
      ensures p == Zero && normal == Zero
      ensures !hit && !frontFace
      ensures material == DefaultMaterial
    {
      p := Zero;
      normal := Zero;
      hit := false;
      frontFace := false;
      material := DefaultMaterial;
    }

    /**
     * set_face_normal: records whether the ray meets the outside of the
     * surface and stores the normal turned against the ray. Nothing else
     * in the record changes.
     */
    method SetFaceNormal(r: Ray3, outward: Vec3)
      modifies this`frontFace, this`normal
      ensures frontFace <==> Dot(r.direction, outward) < 0.0
      ensures frontFace ==> normal == outward
      ensures !frontFace ==> normal == outward.Neg()
      ensures Value() == old(Value()).(frontFace := FrontFace(r, outward), normal := FacingNormal(r, outward))
    {
      frontFace := Dot(r.direction, outward) < 0.0;
      normal := if frontFace then outward else outward.Neg();
    }

    /** Copy assignment `*this = other`. */
    method Assign(other: Record)
      modifies this
      ensures Value() == other
    {
      p, normal, t, hit, frontFace, material := other.p, other.normal, other.t, other.hit, other.frontFace, other.material;
    }
  }
}
