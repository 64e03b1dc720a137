/**
 * Three-component vectors, used by both programs for points, directions and
 * RGB colours (the C++ `vec3`).  Components are mathematical reals: float
 * rounding is not modelled.
 */
module Linalg {

  datatype Vec3 = Vec3(x: real, y: real, z: real)

  const Zero: Vec3 := Vec3(0.0, 0.0, 0.0)

  function Add(a: Vec3, b: Vec3): Vec3 {
    Vec3(a.x + b.x, a.y + b.y, a.z + b.z)
  }

  function Sub(a: Vec3, b: Vec3): Vec3 {
    Vec3(a.x - b.x, a.y - b.y, a.z - b.z)
  }

  function Scale(k: real, v: Vec3): Vec3 {
    Vec3(k * v.x, k * v.y, k * v.z)
  }

  /** The dot product, `a * b` on two `vec3`s in the C++ code. */
  function Dot(a: Vec3, b: Vec3): real {
    a.x * b.x + a.y * b.y + a.z * b.z
  }

  /** Componentwise product, as written out by hand for colours. */
  function Mul(a: Vec3, b: Vec3): Vec3 {
    Vec3(a.x * b.x, a.y * b.y, a.z * b.z)
  }

  function SquaredLength(v: Vec3): real {
    Dot(v, v)
  }

  /** A colour with no negative channel. */
  predicate NonNeg(v: Vec3) {
    v.x >= 0.0 && v.y >= 0.0 && v.z >= 0.0
  }

  lemma MulNonNeg(a: Vec3, b: Vec3)
    requires NonNeg(a) && NonNeg(b)
    ensures NonNeg(Mul(a, b))
  {
    ProductNonNeg(a.x, b.x);
    ProductNonNeg(a.y, b.y);
    ProductNonNeg(a.z, b.z);
  }

  /** Blending two non-negative colours with weights o and 1 - o, o in [0, 1]. */
  lemma BlendNonNeg(o: real, a: Vec3, b: Vec3)
    requires 0.0 <= o <= 1.0 && NonNeg(a) && NonNeg(b)
    ensures NonNeg(Add(Scale(o, a), Scale(1.0 - o, b)))
  {
    ProductNonNeg(o, a.x);
    ProductNonNeg(o, a.y);
    ProductNonNeg(o, a.z);
    ProductNonNeg(1.0 - o, b.x);
    ProductNonNeg(1.0 - o, b.y);
    ProductNonNeg(1.0 - o, b.z);
  }

  lemma ScaleNonNeg(k: real, a: Vec3)
    requires 0.0 <= k && NonNeg(a)
    ensures NonNeg(Scale(k, a))
  {
    ProductNonNeg(k, a.x);
    ProductNonNeg(k, a.y);
    ProductNonNeg(k, a.z);
  }

  lemma ProductNonNeg(a: real, b: real)
    requires 0.0 <= a && 0.0 <= b
    ensures 0.0 <= a * b
  {
  }

  /** Scaling by n and then by 1/n gives the vector back. */
  lemma ScaleInverse(n: real, v: Vec3)
    requires n != 0.0
    ensures Scale(1.0 / n, Scale(n, v)) == v
  {
    var k := 1.0 / n;
    assert k * n == 1.0;
    Reassociate(k, n, v.x);
    Reassociate(k, n, v.y);
    Reassociate(k, n, v.z);
  }

  /** One more copy of v added to m copies of it. */
  lemma ScaleSucc(m: real, v: Vec3)
    ensures Add(Scale(m, v), v) == Scale(m + 1.0, v)
  {
  }

  /** a copies of v and b copies of v are a + b copies of v. */
  lemma ScaleAdd(a: real, b: real, v: Vec3)
    ensures Add(Scale(a, v), Scale(b, v)) == Scale(a + b, v)
  {
  }

  /** m copies of w v, plus one more w v, are (m + 1) w copies of v. */
  lemma ScaleAddOne(m: real, w: real, v: Vec3)
    ensures Add(Scale(m * w, v), Scale(w, v)) == Scale((m + 1.0) * w, v)
  {
    ScaleAdd(m * w, w, v);
    assert m * w + w == (m + 1.0) * w;
  }

  lemma Reassociate(a: real, b: real, c: real)
    ensures a * (b * c) == (a * b) * c
  {
  }
}
