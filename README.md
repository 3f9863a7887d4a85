# Ray tracer core: intersection, materials and colour output

This project is a Dafny model of the decision logic at the centre of a small CPU ray tracer
in the "Ray Tracing in One Weekend" style. It covers:

- **Ray3**: a ray with an origin and a direction, and the point `at(t)` along it.
- **hit_record**: the record an intersection test fills in. `set_face_normal` turns the
  surface normal against the incoming ray.
- **Sphere3::hit**: the quadratic intersection test. It rejects a negative discriminant,
  then tries the nearer root, then the farther one, against the closed interval
  `[t_min, t_max]`, and writes its out-parameter record.
- **HittableList**: the scene and its closest-hit search. The search is a loop that
  narrows the upper bound to the last accepted hit. The model also has `clear` and `add`.
- **Material**: the tagged material record, its builders `make_material`,
  `make_lambertian`, `make_metal` and `make_dielectric`, and `Material::scatter`.
  Scatter has a Lambertian branch with a near-zero fallback, a Metal branch that absorbs
  rays pointing into the surface, a Glass branch with total internal reflection and
  Schlick reflectance, and a default branch that does not scatter.
- **write_color**: each channel is scaled by 1/samples, gamma-corrected with `sqrt`,
  clamped to [0, 1], multiplied by 255 and truncated. The three channels are written as
  the text line `r g b\n`.

How the C++ is represented:

- `float` is idealised as `real`.
- The vector algebra, which the headers only declare, is given its component-wise
  meaning in module `Vectors`.
- Every product of two variables is written `Mul(a, b)`. This makes products of equal
  operands equal terms for the verifier. Products by a literal constant use `*`.
- `std::sqrt` is a parameter `sqrt` constrained by `IsSqrt`: it returns the non-negative
  square root of a non-negative argument. `std::pow` and `refract` are unconstrained
  parameters; no file of the core defines `refract`.
- Each random draw is an explicit parameter.

Objects whose fields the source updates in place are classes:

- `Hittable.HitRecord` has `SetFaceNormal` and the copy assignment `Assign`. Its
  snapshot `Value()` is the datatype `Record`.
- `Scene.HittableList` holds a `seq<Sphere3>` that `Clear` and `Add` reassign.

Each method is proved against a function of its inputs:

- `Sphere3.Hit` against `FindRoot` and `HitRecordAt`.
- `HittableList.Hit` against the fold `Closest`.
- `Scatter` against `LambertianDirection`, `MetalDirection` and `GlassDirection`.

What those functions promise is proved as lemmas: the root solves the quadratic, the
hit lies on the sphere, the accepted hit is the nearest, and so on.

Behaviours of the code worth knowing, each of which the model follows:

- **Closed interval.** A root exactly at `t_min` or `t_max` is accepted. The test
  rejects only `root < t_min || t_max < root`.
- **Roughness.** The builders cap roughness at 1 (`r < 1 ? r : 1`). They do not clamp it
  from below.
- **Material tags.** The tag set is the one `Material.cpp` dispatches on: None,
  Lambertian, Metal, Glass. None is the default, and `make_material` never changes it.
  `Material.hpp` lists only None, Lambertian and Metal, and it declares neither the
  scalar fields nor `MaterialDesc`. The model takes those fields to default to 0.
- **Material in the record.** `Sphere3::hit` writes `rec.material`, although the
  `hit_record` declared in `Hittable.hpp` has no such field. The model's record carries it.
- **Colour (1, 1, 1).** The accumulated value is divided by `samples_per_pixel`, so a
  white sample accumulated once over four samples writes 127, not 255
  (`ChannelOfOneOverFourSamples`). A channel writes 255 exactly when its
  accumulated value is at least `samples_per_pixel` (`ChannelSaturates`).
- **Head-on glass.** Glass of index 1.5 hit head-on still reflects some rays: its
  Schlick reflectance is r0 = 0.04, assuming `pow(0, 5) == 0`, so every draw below 0.04
  reflects the ray straight back (`HeadOnGlassReflectsLowDraws`).

## Model

| member | source | states |
|---|---|---|
| Ray.Ray3.At | RayTracingInOneWeekend/Ray3.hpp:19-21 | `at(t) - origin == t * direction` |
| Ray.AtZero | RayTracingInOneWeekend/Ray3.hpp:19-21 | `at(0)` is the origin |
| Ray.AtOne | RayTracingInOneWeekend/Ray3.hpp:19-21 | `at(1) == origin + direction` |
| Ray.AtAffine | RayTracingInOneWeekend/Ray3.hpp:19-21 | `at(s + t) == at(s) + t * direction` |
| Ray.AtInjective | RayTracingInOneWeekend/Ray3.hpp:19-21 | with a non-zero direction, distinct parameters give distinct points |
| Vectors.Dot | RayTracingInOneWeekend/Vector3.hpp:64 | a vector's dot product with itself is its squared length; a dot product with the zero vector is 0 |
| Vectors.Reflect | RayTracingInOneWeekend/Vector3.hpp:70 | v and `reflect(v, n)` differ only along n, symmetrically: `reflect(v, n) + dot(v, n) n == v - dot(v, n) n` |
| Vectors.Vec3.NearZero | RayTracingInOneWeekend/Vector3.hpp:40 | the zero vector is near zero, and a near-zero vector has squared length below `3 * (1e-8)^2` |
| Vectors.Vec3.LengthSquared | RayTracingInOneWeekend/Vector3.hpp:32 | the squared length is non-negative |
| Vectors.LengthSquaredPositive | RayTracingInOneWeekend/Vector3.hpp:32 | only the zero vector has squared length 0 |
| Vectors.ScaleLengthSquared | RayTracingInOneWeekend/Vector3.hpp:58 | `\|t v\|^2 == t^2 \|v\|^2` |
| Vectors.UnitVector | RayTracingInOneWeekend/Vector3.hpp:68 | `unit_vector` of a non-zero vector has length 1 and scaled by the length gives the vector back |
| Vectors.ReflectFlipsNormalComponent | RayTracingInOneWeekend/Vector3.hpp:70 | reflecting about a unit normal negates the normal component and keeps the length |
| Vectors.ReflectInvolution | RayTracingInOneWeekend/Vector3.hpp:70 | two reflections about the same unit normal give the original vector |
| Vectors.DotScale | RayTracingInOneWeekend/Vector3.hpp:64 | `dot(k v, n) == k dot(v, n)` |
| Vectors.RandomInUnitSphere | RayTracingInOneWeekend/Vector3.cpp:3-9 | returns the first candidate with squared length at most 1, every earlier candidate being rejected |
| MathUtils.Clamp | RayTracingInOneWeekend/Color.hpp:22 | `std::clamp` lies in [lo, hi], is the identity inside it, gives `lo` below it and `hi` above it |
| MathUtils.Min | RayTracingInOneWeekend/Material.cpp:37 | `std::fmin` is one of its arguments and at most both |
| Hittable.FrontFace | RayTracingInOneWeekend/Hittable.hpp:14 | on a front face the negated outward normal points along the ray; a zero normal is never a front face |
| Hittable.FacingNormal | RayTracingInOneWeekend/Hittable.hpp:13-16 | the stored normal is the outward normal on a front face, its negation otherwise; it never points along the ray and keeps the outward normal's length |
| Hittable.HitRecord.SetFaceNormal | RayTracingInOneWeekend/Hittable.hpp:13-16 | `front_face` iff `dot(direction, outward) < 0`; normal per `front_face`; nothing else in the record changes |
| Hittable.HitRecord.constructor | RayTracingInOneWeekend/Hittable.hpp:6-11 | a default record has no hit, is not front-facing, and has zero point and normal |
| Hittable.HitRecord.Assign | RayTracingInOneWeekend/HittableList.hpp:38 | `rec = temp_rec` copies every field |
| Sphere.Coefficients | RayTracingInOneWeekend/Sphere3.hpp:32-35 | `a > 0` for a non-zero ray direction |
| Sphere.ScaledValue | RayTracingInOneWeekend/Sphere3.hpp:37 | `a (a t^2 + 2 half_b t + c) == (a t + half_b)^2 - discriminant` |
| Sphere.NearRoot | RayTracingInOneWeekend/Sphere3.hpp:39-42 | `(-half_b - sqrt(discriminant)) / a` solves the quadratic when the discriminant is non-negative |
| Sphere.FarRoot | RayTracingInOneWeekend/Sphere3.hpp:39-44 | `(-half_b + sqrt(discriminant)) / a` solves the quadratic when the discriminant is non-negative |
| Sphere.InRange | RayTracingInOneWeekend/Sphere3.hpp:43 | rejecting `root < t_min \|\| t_max < root` accepts exactly the closed interval `[t_min, t_max]` |
| Sphere.SurfaceEquation | RayTracingInOneWeekend/Sphere3.hpp:32-37 | `\|at(t) - center\|^2 - radius^2` equals the quadratic's value at t |
| Sphere.OnSphereIffRoot | RayTracingInOneWeekend/Sphere3.hpp:32-37 | a point of the ray is on the sphere iff its t solves the quadratic |
| Sphere.NoRootsWhenDiscriminantNegative | RayTracingInOneWeekend/Sphere3.hpp:37-38 | with `a > 0`, a negative discriminant leaves the quadratic without roots |
| Sphere.NegativeDiscriminantMisses | RayTracingInOneWeekend/Sphere3.hpp:37-38 | a negative discriminant means no point of the ray is on the sphere |
| Sphere.OnlyTwoRoots | RayTracingInOneWeekend/Sphere3.hpp:39-44 | every root of the quadratic is the near or the far root |
| Sphere.NearBeforeFar | RayTracingInOneWeekend/Sphere3.hpp:42-44 | the near root is not past the far root |
| Sphere.FindRoot | RayTracingInOneWeekend/Sphere3.hpp:32-49 | no real roots iff the discriminant is negative; an accepted root is in `[t_min, t_max]`, on the sphere, and the near root unless the near root is out of range |
| Sphere.FindRootIsNearest | RayTracingInOneWeekend/Sphere3.hpp:41-49 | any surface point in `[t_min, t_max]` makes the search accept a root no farther away |
| Sphere.NoRootMeansNoSurfacePoint | RayTracingInOneWeekend/Sphere3.hpp:43-47 | when no root is accepted, no surface point lies in `[t_min, t_max]` |
| Sphere.OutwardNormal | RayTracingInOneWeekend/Sphere3.hpp:54 | `(p - center) / radius` scaled back by the radius is `p - center` |
| Sphere.HitRecordAt | RayTracingInOneWeekend/Sphere3.hpp:51-56 | the record for root t: `hit`, `t`, `p == r.at(t)`, the sphere's material; `front_face` iff `dot(direction, outward) < 0`, the normal the outward normal on a front face and its negation otherwise (a grazing ray included) |
| Sphere.HitNormalIsUnit | RayTracingInOneWeekend/Sphere3.hpp:53-55 | the normal of a surface hit has length 1 |
| Sphere.HeadOnHit | RayTracingInOneWeekend/Sphere3.hpp:31-59 | a unit ray aimed at the centre from distance D > R meets the sphere first at `t = D - R` |
| Sphere.Sphere3.Hit | RayTracingInOneWeekend/Sphere3.hpp:31-59 | returns whether a root is accepted; a negative discriminant leaves `rec` untouched; no root in range only clears `rec.hit`; an accepted root fills `rec` as `HitRecordAt` |
| Scene.Closest | RayTracingInOneWeekend/HittableList.hpp:30-42 | the fold the loop computes: no result for an empty list, and any result is a hit with t in `[t_min, t_max]` |
| Scene.ClosestNeverIncreases | RayTracingInOneWeekend/HittableList.hpp:33-38 | one more object never makes the closest t so far grow, and a record accepted at it lies in `[t_min, closest so far]` |
| Scene.ClosestIsSomeObjectsHit | RayTracingInOneWeekend/HittableList.hpp:34-38 | an accepted record is one object's hit at a surface point in `[t_min, t_max]` |
| Scene.ClosestIsNearest | RayTracingInOneWeekend/HittableList.hpp:32-41 | any object's surface point in `[t_min, t_max]` makes the search succeed with a t no greater |
| Scene.HittableList.Hit | RayTracingInOneWeekend/HittableList.hpp:30-42 | true iff some object is hit in `[t_min, t_max]`; `rec` is untouched on a miss, the last accepted object's record on a hit, and nearest; an empty list never hits |
| Scene.HittableList.constructor | RayTracingInOneWeekend/HittableList.hpp:11 | a new list is empty |
| Scene.HittableList.FromObject | RayTracingInOneWeekend/HittableList.hpp:12-14 | the one-object list holds that object |
| Scene.HittableList.Clear | RayTracingInOneWeekend/HittableList.hpp:16-18 | `clear` empties the list |
| Scene.HittableList.Add | RayTracingInOneWeekend/HittableList.hpp:20-22 | `add` appends its argument (corrected) |
| Scene.AddAsWritten | RayTracingInOneWeekend/HittableList.hpp:20-22 | as written, add keeps the old objects and appends one more element |
| Scene.AddAsWrittenLosesArgument | RayTracingInOneWeekend/HittableList.hpp:21 | as written, adding one of two different spheres to an empty list loses it |
| Scene.AddedObjectIsSeen | RayTracingInOneWeekend/HittableList.hpp:20-22 | with add corrected, an added sphere's surface points in range are found by the search |
| Materials.CapRoughness | RayTracingInOneWeekend/Material.cpp:70 | the cap is at most 1, keeps any roughness up to 1, and has no lower clamp |
| Materials.MakeMaterial | RayTracingInOneWeekend/Material.cpp:56-63 | copies colour, metallic and roughness, sets attenuation (1,0,0), keeps tag None |
| Materials.MakeLambertian | RayTracingInOneWeekend/Material.cpp:65-74 | tag Lambertian, capped roughness, attenuation (1,0,0), other fields copied |
| Materials.MakeMetal | RayTracingInOneWeekend/Material.cpp:76-85 | tag Metal, capped roughness, attenuation (1,0,0), other fields copied |
| Materials.MakeDielectric | RayTracingInOneWeekend/Material.cpp:87-96 | tag Glass, capped roughness, metallic 0, attenuation (1,1,1) |
| Materials.RebuildIsIdentity | RayTracingInOneWeekend/Material.cpp:56-96 | rebuilding a material from its own description gives the same material |
| Materials.BuiltRoughness | RayTracingInOneWeekend/Material.cpp:65-96 | built roughness is at most 1 and never above the described roughness |
| Scatter.LambertianDirection | RayTracingInOneWeekend/Material.cpp:10-16 | normal + roughness * u, or exactly the normal when that is near zero; never near zero for a normal that is not |
| Scatter.RefractionRatio | RayTracingInOneWeekend/Material.cpp:35 | `1/refractionIndex` on a front face, `refractionIndex` otherwise |
| Scatter.MetalDirection | RayTracingInOneWeekend/Material.cpp:22-23 | off a unit normal, the direction's normal component is `roughness dot(w, n) - metallic dot(unit(v), n)`: the mirror part turns the incoming side around |
| Scatter.CosTheta | RayTracingInOneWeekend/Material.cpp:37 | `fmin(dot(-unit, n), 1)` is at most 1 and at most `-dot(unit, n)`, and is one of the two |
| Scatter.CannotRefract | RayTracingInOneWeekend/Material.cpp:38-39 | refraction is impossible only with a refraction ratio above 1 |
| Scatter.NormalReflectance | RayTracingInOneWeekend/Material.cpp:30-31 | Schlick's r0 is non-negative |
| Scatter.Reflectance | RayTracingInOneWeekend/Material.cpp:28-33 | Schlick's reflectance is r0 when the power term is 0, 1 when it is 1, and between r0 and 1 for a power term in [0, 1] and r0 at most 1 |
| Scatter.GlassDirection | RayTracingInOneWeekend/Material.cpp:34-45 | reflects whenever refraction is impossible; otherwise reflects or refracts |
| Scatter.NoTotalInternalReflectionOnEntry | RayTracingInOneWeekend/Material.cpp:35-39 | entering glass of index >= 1 never meets total internal reflection |
| Scatter.NormalReflectanceOfReciprocal | RayTracingInOneWeekend/Material.cpp:28-40 | r0 is the same for the refraction ratio and the index |
| Scatter.IdealMirror | RayTracingInOneWeekend/Material.cpp:22-24 | metal with metallic 1 and roughness 0 mirrors the ray and scatters iff the ray comes from the front |
| Scatter.HeadOnGlassReflectsLowDraws | RayTracingInOneWeekend/Material.cpp:26-48 | head-on glass of index 1.5 has reflectance 0.04, and every lower draw reflects the ray straight back |
| Scatter.Scatter | RayTracingInOneWeekend/Material.cpp:6-54 | None: false and `result` unchanged; otherwise the origin is `rec.p`; Lambertian: true with the fallback direction; Metal: true iff `dot(direction, normal) > 0`; Glass: true with the glass direction |
| Color.Channel | RayTracingInOneWeekend/Color.hpp:16-24 | a channel value is in [0, 255] |
| Color.ScaledChannel | RayTracingInOneWeekend/Color.hpp:16-17 | `scale * value >= 1` iff the value is at least `samples_per_pixel` |
| Color.ChannelOfZero | RayTracingInOneWeekend/Color.hpp:16-22 | a zero channel writes 0 |
| Color.ChannelSaturates | RayTracingInOneWeekend/Color.hpp:16-24 | a channel writes 255 iff its value is at least `samples_per_pixel` |
| Color.ChannelMonotone | RayTracingInOneWeekend/Color.hpp:17-24 | the channel is non-decreasing in the accumulated value |
| Color.ChannelOfOneOverFourSamples | RayTracingInOneWeekend/Color.hpp:16-22 | value 1 over four samples writes 127 |
| Color.ToPixel | RayTracingInOneWeekend/Color.hpp:11-24 | the three channels, r, g, b, each in [0, 255] |
| Color.Decimal | RayTracingInOneWeekend/Color.hpp:22-24 | an integer is written as a non-empty string of decimal digits |
| Color.DecimalRoundTrip | RayTracingInOneWeekend/Color.hpp:22-24 | reading back a written integer gives the integer |
| Color.LineRoundTrip | RayTracingInOneWeekend/Color.hpp:22-24 | reading back the line `r g b\n` gives the three channels |
| Color.Line | RayTracingInOneWeekend/Color.hpp:22-24 | the line ends in a newline, holds only digits and spaces before it, and is as long as the three numerals with two separators |
| Color.WriteColor | RayTracingInOneWeekend/Color.hpp:9-26 | the written line reads back as the pixel's channels in r, g, b order |

## Left out

- Camera, `main.cpp`, ProfileLogScope, `degrees_to_radians` and the random number
  generator's internals are not part of this model. Camera depends on DirectXMath and
  `tan`. The others are I/O, timing or RNG state. Random draws are parameters.
- IEEE-754 behaviour (NaN, infinities, rounding, `float` precision) is left out. Every
  quantity is an exact real.
- `std::sqrt`, `std::pow` and `refract` are parameters. Only the square-root property is
  assumed of `sqrt`, and nothing of `pow` or `refract`.
- Sphere.Sphere3.Hit: requires a non-zero ray direction and a non-zero radius. Otherwise
  the division by `a` or by `radius` gives infinities or NaN in the source.
- Scene.HittableList.Hit: the list holds spheres only, the one Hittable the core defines.
  Nested lists and other `shared_ptr<Hittable>` objects are not modelled, and the spheres
  need non-zero radii as for `Sphere3.Hit`.
- Scatter.Scatter: Metal and Glass require a non-zero incoming direction, because
  `unit_vector` divides by its length. Glass requires a non-zero refraction index on a
  front face and an index other than -1, because of the divisions in
  `refraction_ratio` and Schlick's r0.
- Scatter.GlassDirection: the reflect/refract split between the two outcomes is stated
  only for total internal reflection. The Schlick branch depends on the unconstrained
  `pow` and the draw.
- Vectors.UnitVector: requires a non-zero vector. The source's
  `random_unit_vector` normalises a sample that could be zero, and the model passes the
  draw in as a value.
- Vectors.RandomInUnitSphere: the unbounded rejection loop runs over a finite sequence of
  candidate draws. It returns the sequence's length when no candidate is accepted.
- Color.Channel: requires a non-negative accumulated value and a positive sample count.
  A negative value gives `sqrt` NaN in the source.
- The stream itself (`std::ostream`) is left out: `WriteColor` returns the text of one
  line.

## Findings

| source | as written | input that shows it | evidently intended | confidence | as-written member | corrected member |
|---|---|---|---|---|---|---|
| RayTracingInOneWeekend/HittableList.hpp:21 | `add(object)` emplaces `objects`, the list itself, instead of its argument `object`; the one-object constructor calls `add` too | adding either of two different spheres to an empty list: the appended element is the same for both, so at least one is lost (no C++ compiler accepts the conversion either) | `objects.emplace_back(object)`: append the argument | high (not executed) | Scene.AddAsWritten, Scene.AddAsWrittenLosesArgument | Scene.HittableList.Add, Scene.AddedObjectIsSeen |
