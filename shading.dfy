/**
 * `Scene::calcIout`: the Phong term for light `In` arriving along L and
 * leaving along E at a surface with normal N.  `pow` is the platform's
 * power function, passed in because it is floating-point numerics.
 */
module Shading {
  import opened Linalg

  const Black: Vec3 := Zero

  /** The diffuse part Kd (L.N) In. */
  function Diffuse(N: Vec3, L: Vec3, Kd: Vec3, In: Vec3): (r: Vec3)
    // light grazing the surface adds nothing
    ensures Dot(L, N) == 0.0 ==> r == Black
  {
    Mul(Kd, Scale(Dot(L, N), In))
  }

  /** The specular part Ks (R.E)^ns In, present only in front of the reflection lobe. */
  function Specular(E: Vec3, R: Vec3, Ks: Vec3, ns: real, In: Vec3, pow: (real, real) -> real): (r: Vec3)
    // behind the reflection lobe there is no highlight
    ensures Dot(R, E) < 0.0 ==> r == Black
  {
    if Dot(R, E) < 0.0 then Black else Mul(Ks, Scale(pow(Dot(R, E), ns), In))
  }

  function CalcIout(N: Vec3, L: Vec3, E: Vec3, R: Vec3, Kd: Vec3, Ks: Vec3, ns: real, In: Vec3,
                    pow: (real, real) -> real): (r: Vec3)
    // no light from behind the surface
    ensures Dot(N, L) <= 0.0 ==> r == Black
    // in front: the componentwise sum Ks Is + Kd Id
    ensures Dot(N, L) > 0.0 ==> r == Add(Specular(E, R, Ks, ns, In, pow), Diffuse(N, L, Kd, In))
    // outside the reflection lobe only the diffuse part remains
    ensures Dot(N, L) > 0.0 && Dot(R, E) < 0.0 ==> r == Diffuse(N, L, Kd, In)
  {
    if Dot(N, L) <= 0.0 then
      Black
    else
      var Id := Scale(Dot(L, N), In);
      var Is := if Dot(R, E) < 0.0 then Black else Scale(pow(Dot(R, E), ns), In);
      Vec3(Is.x * Ks.x + Id.x * Kd.x, Is.y * Ks.y + Id.y * Kd.y, Is.z * Ks.z + Id.z * Kd.z)
  }

  /** Non-negative material, light and power give a non-negative outgoing intensity. */
  lemma CalcIoutNonNeg(N: Vec3, L: Vec3, E: Vec3, R: Vec3, Kd: Vec3, Ks: Vec3, ns: real, In: Vec3,
                       pow: (real, real) -> real)
    requires NonNeg(Kd) && NonNeg(Ks) && NonNeg(In) && pow(Dot(R, E), ns) >= 0.0
    ensures NonNeg(CalcIout(N, L, E, R, Kd, Ks, ns, In, pow))
  {
    if Dot(N, L) > 0.0 {
      assert Dot(L, N) == Dot(N, L);
      ScaleNonNeg(Dot(L, N), In);
      MulNonNeg(Kd, Scale(Dot(L, N), In));
      if Dot(R, E) >= 0.0 {
        ScaleNonNeg(pow(Dot(R, E), ns), In);
        MulNonNeg(Ks, Scale(pow(Dot(R, E), ns), In));
      }
    }
  }

  /** calcIout is linear in the incoming light: scaling In by k scales the result by k. */
  lemma CalcIoutLinear(N: Vec3, L: Vec3, E: Vec3, R: Vec3, Kd: Vec3, Ks: Vec3, ns: real, In: Vec3,
                       pow: (real, real) -> real, k: real)
    ensures CalcIout(N, L, E, R, Kd, Ks, ns, Scale(k, In), pow) == Scale(k, CalcIout(N, L, E, R, Kd, Ks, ns, In, pow))
  {
    if Dot(N, L) > 0.0 {
      if Dot(R, E) >= 0.0 {
        WeightScaled(Ks, pow(Dot(R, E), ns), k, In);
      }
      WeightScaled(Kd, Dot(L, N), k, In);
      var s := Specular(E, R, Ks, ns, In, pow);
      var t := Diffuse(N, L, Kd, In);
      ScaleDistributes(k, s, t);
    }
  }

  /** Weighting scaled light by a material scales the weighted light. */
  lemma WeightScaled(K: Vec3, p: real, k: real, In: Vec3)
    ensures Mul(K, Scale(p, Scale(k, In))) == Scale(k, Mul(K, Scale(p, In)))
  {
    var lhs := Mul(K, Scale(p, Scale(k, In)));
    var rhs := Scale(k, Mul(K, Scale(p, In)));
    Rearrange(K.x, p, k, In.x);
    assert lhs.x == rhs.x;
    Rearrange(K.y, p, k, In.y);
    assert lhs.y == rhs.y;
    Rearrange(K.z, p, k, In.z);
    assert lhs.z == rhs.z;
  }

  lemma Rearrange(a: real, b: real, c: real, d: real)
    ensures a * (b * (c * d)) == c * (a * (b * d))
  {
    calc {
      a * (b * (c * d));
      a * ((b * c) * d);
      a * ((c * b) * d);
      a * (c * (b * d));
      (a * c) * (b * d);
      (c * a) * (b * d);
      c * (a * (b * d));
    }
  }

  lemma ScaleDistributes(k: real, s: Vec3, t: Vec3)
    ensures Add(Scale(k, s), Scale(k, t)) == Scale(k, Add(s, t))
  {
    assert k * s.x + k * t.x == k * (s.x + t.x);
    assert k * s.y + k * t.y == k * (s.y + t.y);
    assert k * s.z + k * t.z == k * (s.z + t.z);
  }
}
