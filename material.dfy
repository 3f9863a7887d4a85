/**
 * Material: a tagged record of surface parameters, and the builders
 * make_material, make_lambertian, make_metal and make_dielectric.
 * Material::scatter, which needs a hit record, is in module Scatter.
 *
 * The tag set is the one Material.cpp dispatches on: None (the default,
 * first enumerator), Lambertian, Metal and Glass.
 */
module Materials {
  import opened Vectors

  datatype MaterialType = None | Lambertian | Metal | Glass

  /**
   * The fields of a Material; `kind` is the source's `type`. A
   * value-initialised Material has every vector and number zero and the
   * tag None.
   */
  datatype Material = Material(
    attenuation: Vec3,
    direction: Vec3,
    color: Vec3,
    kind: MaterialType,
    roughness: real,
    metallic: real,
    refractionIndex: real)

  /** The description a material is built from. */
  datatype MaterialDesc = MaterialDesc(color: Vec3, roughness: real, metallic: real, refractionIndex: real)

  /** Material{}: all zero, tag None. */
  const DefaultMaterial := Material(Zero, Zero, Zero, None, 0.0, 0.0, 0.0)

  /** The attenuation make_material, make_lambertian and make_metal store. */
  const Red := Vec3(1.0, 0.0, 0.0)

  /** The attenuation make_dielectric stores. */
  const White := Vec3(1.0, 1.0, 1.0)

  /**
   * `roughness < 1 ? roughness : 1`: an upper cap only. A negative
   * roughness is kept as it is.
   */
  function CapRoughness(roughness: real): (c: real)
    ensures c <= 1.0
    ensures c == roughness <==> roughness <= 1.0
    ensures roughness < 1.0 ==> c == roughness
    ensures 1.0 <= roughness ==> c == 1.0
  {
    if roughness < 1.0 then roughness else 1.0
  }

  /** make_material: copies colour, metallic and roughness; the tag stays None. */
  function MakeMaterial(desc: MaterialDesc): (m: Material)
    ensures m.kind == None
    ensures m.color == desc.color && m.metallic == desc.metallic && m.roughness == desc.roughness
    ensures m.attenuation == Red
    ensures m.direction == Zero && m.refractionIndex == 0.0
  {
    DefaultMaterial.(color := desc.color, metallic := desc.metallic, roughness := desc.roughness, attenuation := Red)
  }

  /** make_lambertian: tag Lambertian, roughness capped at 1. */
  function MakeLambertian(desc: MaterialDesc): (m: Material)
    ensures m.kind == Lambertian
    ensures m.roughness == CapRoughness(desc.roughness)
    ensures m.color == desc.color && m.metallic == desc.metallic
    ensures m.refractionIndex == desc.refractionIndex
    ensures m.attenuation == Red && m.direction == Zero
  {
    DefaultMaterial.(
      color := desc.color,
      attenuation := Red,
      kind := Lambertian,
      roughness := CapRoughness(desc.roughness),
      metallic := desc.metallic,
      refractionIndex := desc.refractionIndex)
  }

  /** make_metal: tag Metal, roughness capped at 1. */
  function MakeMetal(desc: MaterialDesc): (m: Material)
    ensures m.kind == Metal
    ensures m.roughness == CapRoughness(desc.roughness)
    ensures m.color == desc.color && m.metallic == desc.metallic
    ensures m.refractionIndex == desc.refractionIndex
    ensures m.attenuation == Red && m.direction == Zero
  {
    DefaultMaterial.(
      color := desc.color,
      attenuation := Red,
      roughness := CapRoughness(desc.roughness),
      metallic := desc.metallic,
      refractionIndex := desc.refractionIndex,
      kind := Metal)
  }

  /** make_dielectric: tag Glass, roughness capped at 1, metallic forced to 0, white attenuation. */
  function MakeDielectric(desc: MaterialDesc): (m: Material)
    ensures m.kind == Glass
    ensures m.roughness == CapRoughness(desc.roughness)
    ensures m.color == desc.color && m.metallic == 0.0
    ensures m.refractionIndex == desc.refractionIndex
    ensures m.attenuation == White && m.direction == Zero
  {
    DefaultMaterial.(
      color := desc.color,
      attenuation := White,
      roughness := CapRoughness(desc.roughness),
      metallic := 0.0,
      refractionIndex := desc.refractionIndex,
      kind := Glass)
  }

  /** The description a material's own fields spell out. */
  function Describe(m: Material): MaterialDesc {
    MaterialDesc(m.color, m.roughness, m.metallic, m.refractionIndex)
  }

  /**
   * Rebuilding a material from its own description gives the same
   * material: the roughness cap is idempotent and the other fields are
   * copied.
   */
  lemma RebuildIsIdentity(desc: MaterialDesc)
    ensures MakeLambertian(Describe(MakeLambertian(desc))) == MakeLambertian(desc)
    ensures MakeMetal(Describe(MakeMetal(desc))) == MakeMetal(desc)
    ensures MakeDielectric(Describe(MakeDielectric(desc))) == MakeDielectric(desc)
    ensures MakeMaterial(Describe(MakeMaterial(desc))) == MakeMaterial(desc)
  {
  }

  /** Every tagged builder yields a roughness of at most 1; none raises a roughness below 1. */
  lemma BuiltRoughness(desc: MaterialDesc)
    ensures MakeLambertian(desc).roughness <= 1.0 && MakeLambertian(desc).roughness <= desc.roughness
    ensures MakeMetal(desc).roughness <= 1.0 && MakeMetal(desc).roughness <= desc.roughness
    ensures MakeDielectric(desc).roughness <= 1.0 && MakeDielectric(desc).roughness <= desc.roughness
  {
  }
}
