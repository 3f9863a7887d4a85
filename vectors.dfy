/**
 * Vector3 (also used as Point3 and Color), the vector algebra the
 * intersection and material code is written against. The source only
 * declares these operators; they are given here their usual
 * component-wise meaning over the reals.
 */
module Vectors {
  import opened MathUtils

  datatype Vec3 = Vec3(x: real, y: real, z: real) {

    /** u + v */
    function Add(v: Vec3): Vec3 {
      Vec3(x + v.x, y + v.y, z + v.z)
    }

    /** u - v */
    function Sub(v: Vec3): Vec3 {
      Vec3(x - v.x, y - v.y, z - v.z)
    }

    /** unary minus */
    function Neg(): Vec3 {
      Vec3(-x, -y, -z)
    }

    /** t * v (and v * t) */
    function Scale(t: real): Vec3 {
      Vec3(Mul(t, x), Mul(t, y), Mul(t, z))
    }

    /** v / t, that is (1/t) * v */
    function Div(t: real): Vec3
      requires t != 0.0
    {
      Scale(Recip(t))
    }

    function LengthSquared(): (l: real)
      ensures 0.0 <= l
    {
      SumOfSquaresNonNegative(x, y, z);
      Mul(x, x) + Mul(y, y) + Mul(z, z)
    }

    /**
     * A vector all of whose components are below 1e-8 in magnitude; such a
     * vector has squared length below 3e-16.
     */
    predicate NearZero()
      ensures this == Zero ==> NearZero()
      ensures NearZero() ==> LengthSquared() < 3.0 * Mul(NearZeroBound, NearZeroBound)
    {
      NearZeroSquares(x);
      NearZeroSquares(y);
      NearZeroSquares(z);
      -NearZeroBound < x < NearZeroBound
      && -NearZeroBound < y < NearZeroBound
      && -NearZeroBound < z < NearZeroBound
    }
  }

  const Zero := Vec3(0.0, 0.0, 0.0)

  /** The magnitude below which near_zero treats a component as zero. */
  const NearZeroBound: real := 0.00000001

  /** dot(u, v); a vector's dot product with itself is its squared length. */
  function Dot(u: Vec3, v: Vec3): (d: real)
    ensures u == v ==> d == u.LengthSquared()
    ensures u == Zero || v == Zero ==> d == 0.0
  {
    Mul(u.x, v.x) + Mul(u.y, v.y) + Mul(u.z, v.z)
  }

  /**
   * Mirror reflection of v about a surface with normal n: v - 2*dot(v,n)*n.
   * v and its reflection differ only along n, and they lie symmetrically
   * about the plane through the origin orthogonal to n.
   */
  function Reflect(v: Vec3, n: Vec3): (r: Vec3)
    ensures r.Add(n.Scale(Dot(v, n))) == v.Sub(n.Scale(Dot(v, n)))
  {
    v.Sub(n.Scale(2.0 * Dot(v, n)))
  }

  /** unit_vector(v) = v / length(v), where length is std::sqrt of the squared length. */
  function UnitVector(v: Vec3, sqrt: real -> real): (u: Vec3)
    requires IsSqrt(sqrt) && v != Zero
    ensures u.LengthSquared() == 1.0
    ensures u.Scale(sqrt(v.LengthSquared())) == v
  {
    var len := sqrt(v.LengthSquared());
    LengthSquaredPositive(v);
    SqrtPositive(sqrt, v.LengthSquared());
    var r := Recip(len);
    ScaleLengthSquared(v, r);
    ScaleScale(v, r, len);
    assert Mul(Mul(r, r), Mul(len, len)) == Mul(Mul(r, len), Mul(r, len));
    v.Div(len)
  }

  /** A component below the near-zero bound in magnitude has a square below the bound's square. */
  lemma NearZeroSquares(c: real)
    ensures -NearZeroBound < c < NearZeroBound ==> Mul(c, c) < Mul(NearZeroBound, NearZeroBound)
  {
    if -NearZeroBound < c < NearZeroBound {
      if c < 0.0 {
        assert Mul(c, c) == Mul(-c, -c);
        SquareStrictlyIncreasing(NearZeroBound, -c);
      } else {
        SquareStrictlyIncreasing(NearZeroBound, c);
      }
    }
  }

  lemma SumOfSquaresNonNegative(x: real, y: real, z: real)
    ensures 0.0 <= Mul(x, x) + Mul(y, y) + Mul(z, z)
  {
  }

  lemma SumOfSquaresPositive(x: real, y: real, z: real)
    requires x != 0.0 || y != 0.0 || z != 0.0
    ensures 0.0 < Mul(x, x) + Mul(y, y) + Mul(z, z)
  {
    SumOfSquaresNonNegative(x, y, z);
    if x != 0.0 {
      SquarePositive(x);
    } else if y != 0.0 {
      SquarePositive(y);
    } else {
      SquarePositive(z);
    }
  }

  /** Only the zero vector has squared length 0. */
  lemma LengthSquaredPositive(v: Vec3)
    requires v != Zero
    ensures 0.0 < v.LengthSquared()
  {
    SumOfSquaresPositive(v.x, v.y, v.z);
  }

  /** 0 * v is the zero vector. */
  lemma ScaleZero(v: Vec3)
    ensures v.Scale(0.0) == Zero
  {
  }

  /** 1 * v == v. */
  lemma ScaleOne(v: Vec3)
    ensures v.Scale(1.0) == v
  {
  }

  /** (s + t) * v == s * v + t * v. */
  lemma ScaleSum(v: Vec3, s: real, t: real)
    ensures v.Scale(s + t) == v.Scale(s).Add(v.Scale(t))
  {
  }

  /** dot(k v, n) == k dot(v, n). */
  lemma DotScale(v: Vec3, n: Vec3, k: real)
    ensures Dot(v.Scale(k), n) == Mul(k, Dot(v, n))
  {
  }

  /** Scaling a vector by t scales its squared length by t*t. */
  lemma ScaleLengthSquared(v: Vec3, t: real)
    ensures v.Scale(t).LengthSquared() == Mul(Mul(t, t), v.LengthSquared())
  {
  }

  /** Scaling by s and then by t is scaling by t*s. */
  lemma ScaleScale(v: Vec3, s: real, t: real)
    ensures v.Scale(s).Scale(t) == v.Scale(Mul(t, s))
  {
  }

  /**
   * Reflecting about a unit normal flips the normal component of v and
   * keeps its length.
   */
  lemma ReflectFlipsNormalComponent(v: Vec3, n: Vec3)
    requires n.LengthSquared() == 1.0
    ensures Dot(Reflect(v, n), n) == -Dot(v, n)
    ensures Reflect(v, n).LengthSquared() == v.LengthSquared()
  {
    ReflectNormalComponent(v, n);
    ReflectLength(v, n);
  }

  /** Reflecting about a unit normal negates the normal component. */
  lemma ReflectNormalComponent(v: Vec3, n: Vec3)
    requires n.LengthSquared() == 1.0
    ensures Dot(Reflect(v, n), n) == -Dot(v, n)
  {
    var k := Dot(v, n);
    var b := n.Scale(2.0 * k);
    assert Dot(n, n) == 1.0;
    DotSub(v, b, n);
    DotScale(n, n, 2.0 * k);
    assert Mul(2.0 * k, 1.0) == 2.0 * k;
  }

  /** Reflecting about a unit normal keeps the length. */
  lemma ReflectLength(v: Vec3, n: Vec3)
    requires n.LengthSquared() == 1.0
    ensures Reflect(v, n).LengthSquared() == v.LengthSquared()
  {
    var k := Dot(v, n);
    var b := n.Scale(2.0 * k);
    LengthSquaredSub(v, b);
    DotSymmetric(v, b);
    DotScale(n, v, 2.0 * k);
    DotSymmetric(n, v);
    ScaleLengthSquared(n, 2.0 * k);
    assert Mul(Mul(2.0 * k, 2.0 * k), 1.0) == 2.0 * Mul(2.0 * k, k);
  }

  /** dot(a - b, n) == dot(a, n) - dot(b, n). */
  lemma DotSub(a: Vec3, b: Vec3, n: Vec3)
    ensures Dot(a.Sub(b), n) == Dot(a, n) - Dot(b, n)
  {
  }

  /** dot(u, v) == dot(v, u). */
  lemma DotSymmetric(u: Vec3, v: Vec3)
    ensures Dot(u, v) == Dot(v, u)
  {
  }

  /** |a - b|^2 == |a|^2 - 2 dot(a, b) + |b|^2. */
  lemma LengthSquaredSub(a: Vec3, b: Vec3)
    ensures a.Sub(b).LengthSquared() == a.LengthSquared() - 2.0 * Dot(a, b) + b.LengthSquared()
  {
    SquareSub(a.x, b.x);
    SquareSub(a.y, b.y);
    SquareSub(a.z, b.z);
  }

  /** (p - q)^2 == p^2 - 2 p q + q^2. */
  lemma SquareSub(p: real, q: real)
    ensures Mul(p - q, p - q) == Mul(p, p) - 2.0 * Mul(p, q) + Mul(q, q)
  {
  }

  /** Two ideal mirror bounces off the same unit normal return the original direction. */
  lemma ReflectInvolution(v: Vec3, n: Vec3)
    requires n.LengthSquared() == 1.0
    ensures Reflect(Reflect(v, n), n) == v
  {
    ReflectNormalComponent(v, n);
    var k := Dot(v, n);
    var b := n.Scale(2.0 * k);
    assert 2.0 * Dot(Reflect(v, n), n) == -(2.0 * k);
    ScaleNeg(n, 2.0 * k);
    SubNegCancel(v, b);
  }

  /** (-c) * n == -(c * n). */
  lemma ScaleNeg(n: Vec3, c: real)
    ensures n.Scale(-c) == n.Scale(c).Neg()
  {
  }

  /** (v - b) - (-b) == v. */
  lemma SubNegCancel(v: Vec3, b: Vec3)
    ensures v.Sub(b).Sub(b.Neg()) == v
  {
  }

  /**
   * random_in_unit_sphere: rejection sampling. `candidates` stands for the
   * successive points Vector3::random(-1, 1) draws from the cube; the
   * method returns the index of the first candidate inside the unit ball,
   * or |candidates| when the (finite) stream has none.
   */
  method RandomInUnitSphere(candidates: seq<Vec3>) returns (i: nat)
    ensures i <= |candidates|
    ensures i < |candidates| ==> candidates[i].LengthSquared() <= 1.0
    ensures forall j :: 0 <= j < i ==> candidates[j].LengthSquared() > 1.0
  {
    i := 0;
    while i < |candidates|
      invariant i <= |candidates|
      invariant forall j :: 0 <= j < i ==> candidates[j].LengthSquared() > 1.0
    {
      var p := candidates[i];
      if p.LengthSquared() > 1.0 {
        i := i + 1;
        continue;
      }
      return;
    }
  }
}
