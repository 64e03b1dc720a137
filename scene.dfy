/**
 * The ray tracer's `Scene` (a3/scene.cpp): the nearest-hit loop with its
 * debug-ray log, the control skeleton of `raytrace`, and the sample loop of
 * `pixelColour`.  Geometry and floating-point numerics (normalisation,
 * lengths, `pow`, the glossy cone, refraction) are supplied as functions in
 * `Numerics`; `randIn01` is a nondeterministic choice in [0, 1].
 */
module Scenes {
  import opened Wrappers
  import opened Linalg
  import opened Resolver
  import opened Shading

  datatype Light = Light(position: Vec3, colour: Vec3)

  /** The eye position and the image-plane basis computed when rendering restarts. */
  datatype Camera = Camera(eye: Vec3, llCorner: Vec3, right: Vec3, up: Vec3)

  /** Floating-point helpers the control structure calls without this model defining them. */
  datatype Numerics = Numerics(
    /** `vec3::normalize`; also `(1/|L|) L`. */
    normalize: Vec3 -> Vec3,
    /** `vec3::length`. */
    length: Vec3 -> real,
    pow: (real, real) -> real,
    /** `vec3::perp1`, `vec3::perp2`: two directions perpendicular to a vector. */
    perp1: Vec3 -> Vec3,
    perp2: Vec3 -> Vec3,
    /** The glossy disc distance `1/tan(acos(g))`. */
    discDistance: real -> real,
    /** `findRefractionDirection`: None on total internal reflection. */
    refract: (Vec3, Vec3) -> Option<Vec3>)

  const Background: Vec3 := Vec3(1.0, 1.0, 1.0)

  /** Debug-ray colours: shadow ray, ray that hits, ray that misses. */
  const Gold: Vec3 := Vec3(0.843, 0.710, 0.278)
  const Cyan: Vec3 := Vec3(0.1, 0.7, 0.7)
  const Grey: Vec3 := Vec3(0.3, 0.3, 0.3)

  const NumSoftShadowRays: int := 50

  /** The triangle each soft-shadow sample was drawn from, in order. */
  function SampleTriangles(samples: seq<(int, real, real)>): (r: seq<int>)
    ensures |r| == |samples|
  {
    if |samples| == 0 then [] else SampleTriangles(samples[..|samples| - 1]) + [samples[|samples| - 1].0]
  }

  lemma SampleTrianglesSnoc(samples: seq<(int, real, real)>, s: (int, real, real))
    ensures (samples + [s])[..|samples|] == samples
    ensures SampleTriangles(samples + [s]) == SampleTriangles(samples) + [s.0]
  {
    assert (samples + [s])[..|samples|] == samples;
  }

  /** The NumSoftShadowRays shadow rays cast toward one emitting triangle. */
  function Copies(e: int): seq<int> {
    seq(NumSoftShadowRays, _ => e)
  }

  /** The triangles the area-light loop aims at: every emitter of `es` NumSoftShadowRays times, emitter by emitter. */
  function ShadowRayTargets(es: seq<int>): seq<int> {
    if |es| == 0 then [] else ShadowRayTargets(es[..|es| - 1]) + Copies(es[|es| - 1])
  }

  /** Each emitter gets exactly NumSoftShadowRays rays, and no other triangle gets any. */
  lemma {:induction false} ShadowRayTargetsSpec(es: seq<int>)
    ensures |ShadowRayTargets(es)| == NumSoftShadowRays * |es|
    ensures forall t :: t in ShadowRayTargets(es) <==> t in es
  {
    if |es| > 0 {
      var init, e := es[..|es| - 1], es[|es| - 1];
      ShadowRayTargetsSpec(init);
      assert Copies(e)[0] == e;
      assert es == init + [e];
      forall t ensures t in ShadowRayTargets(es) <==> t in es {
        assert t in Copies(e) <==> t == e;
      }
    }
  }

  /** The mirror direction (2 (V.N)) N - V. */
  function Reflect(V: Vec3, N: Vec3): Vec3 {
    Sub(Scale(2.0 * Dot(V, N), N), V)
  }

  /** One debug arrow: drawn at `base` along `dir` in `colour`. */
  datatype Arrow = Arrow(base: Vec3, dir: Vec3, colour: Vec3)

  predicate MaterialNonNeg(m: Material) {
    NonNeg(m.ka) && NonNeg(m.kd) && NonNeg(m.ks) && NonNeg(m.ie) && m.alpha >= 0.0
  }

  /** The sample sum of `pixelColour`: each colour weighted by w, added left to right. */
  function WeightedSum(w: real, cs: seq<Vec3>): (r: Vec3)
    // with weight zero the samples contribute nothing
    ensures w == 0.0 ==> r == Black
  {
    if |cs| == 0 then Black else Add(WeightedSum(w, cs[..|cs| - 1]), Scale(w, cs[|cs| - 1]))
  }

  /** Samples that all have colour c, weighted w, sum to (|cs| w) times c. */
  lemma {:induction false} WeightedSumConstant(w: real, c: Vec3, cs: seq<Vec3>)
    requires forall i | 0 <= i < |cs| :: cs[i] == c
    ensures WeightedSum(w, cs) == Scale(|cs| as real * w, c)
  {
    if |cs| > 0 {
      var m := (|cs| - 1) as real;
      WeightedSumConstant(w, c, cs[..|cs| - 1]);
      ScaleAddOne(m, w, c);
      assert m + 1.0 == |cs| as real;
    } else {
      assert Scale(0.0, c) == Black;
    }
  }

  /** Non-negative samples with a non-negative weight sum to a non-negative colour. */
  lemma {:induction false} WeightedSumNonNeg(w: real, cs: seq<Vec3>)
    requires w >= 0.0 && forall i | 0 <= i < |cs| :: NonNeg(cs[i])
    ensures NonNeg(WeightedSum(w, cs))
  {
    if |cs| > 0 {
      WeightedSumNonNeg(w, cs[..|cs| - 1]);
      ScaleNonNeg(w, cs[|cs| - 1]);
    }
  }

  /** The 1/square weights of `pixelColour` balance: square equal samples of c give c. */
  lemma UniformSamplesGiveTheirColour(c: Vec3, n: nat)
    requires n > 0
    ensures WeightedSum(1.0 / (n as real), seq(n, _ => c)) == c
  {
    WeightedSumConstant(1.0 / (n as real), c, seq(n, _ => c));
    assert n as real * (1.0 / (n as real)) == 1.0;
  }

  class Scene {
    const objects: seq<SceneObject>
    const lights: seq<Light>
    const maxDepth: int
    const glossyIterations: int
    const numPixelSamples: int
    const jitter: bool
    /** Ambient light `Ia`. */
    const Ia: Vec3
    const sceneScale: real
    const camera: Camera
    const num: Numerics

    var storingRays: bool
    var storedRays: seq<Vec3>
    var storedRayColours: seq<Vec3>

    /** Two logged points (start, end) per logged colour: what `drawStoredRays` indexes by. */
    predicate Paired()
      reads this
    {
      |storedRays| == 2 * |storedRayColours|
    }

    /** Every material an intersection can report has glossiness in [0, 1] (the program exits otherwise). */
    ghost predicate GlossinessInRange() {
      forall k, s, d, p, b | 0 <= k < |objects| && objects[k].rayInt(s, d, p, b).Some? ::
        0.0 <= objects[k].rayInt(s, d, p, b).value.mat.g <= 1.0
    }

    ghost predicate Valid()
      reads this
    {
      Paired() && glossyIterations >= 1 && GlossinessInRange()
    }

    /** Every light, material, texture and power in the scene is non-negative. */
    ghost predicate NonNegativeScene() {
      && NonNeg(Ia)
      && (forall i | 0 <= i < |lights| :: NonNeg(lights[i].colour))
      && (forall k | 0 <= k < |objects| :: NonNeg(objects[k].mat.ie))
      && (forall k, s, d, p, b | 0 <= k < |objects| && objects[k].rayInt(s, d, p, b).Some? ::
            MaterialNonNeg(objects[k].rayInt(s, d, p, b).value.mat))
      && (forall k, pt, part, tc | 0 <= k < |objects| ::
            NonNeg(objects[k].textureColour(pt, part, tc).colour) && objects[k].textureColour(pt, part, tc).alpha >= 0.0)
      && (forall a, b :: num.pow(a, b) >= 0.0)
    }

    constructor (objects: seq<SceneObject>, lights: seq<Light>, maxDepth: int, glossyIterations: int,
                 numPixelSamples: int, jitter: bool, Ia: Vec3, sceneScale: real, camera: Camera, num: Numerics)
      requires glossyIterations >= 1
      requires forall k, s, d, p, b | 0 <= k < |objects| && objects[k].rayInt(s, d, p, b).Some? ::
        0.0 <= objects[k].rayInt(s, d, p, b).value.mat.g <= 1.0
      ensures Valid() && !storingRays && storedRays == [] && storedRayColours == []
      ensures this.objects == objects && this.lights == lights && this.maxDepth == maxDepth
      ensures this.glossyIterations == glossyIterations && this.numPixelSamples == numPixelSamples
      ensures this.jitter == jitter && this.Ia == Ia && this.sceneScale == sceneScale
      ensures this.camera == camera && this.num == num
    {
      this.objects := objects;
      this.lights := lights;
      this.maxDepth := maxDepth;
      this.glossyIterations := glossyIterations;
      this.numPixelSamples := numPixelSamples;
      this.jitter := jitter;
      this.Ia := Ia;
      this.sceneScale := sceneScale;
      this.camera := camera;
      this.num := num;
      storingRays := false;
      storedRays := [];
      storedRayColours := [];
    }

    /** Where a logged ray ends: the hit point, else the light, else far along the ray. */
    function RayEnd(rayStart: Vec3, rayDir: Vec3, hit: Option<Intersection>, lightIndex: int): (p: Vec3)
      requires lightIndex < |lights|
      ensures hit.Some? ==> p == hit.value.point
      ensures hit.None? && lightIndex >= 0 ==> p == lights[lightIndex].position
      ensures hit.None? && lightIndex < 0 ==> p == Add(rayStart, Scale(sceneScale * 2.0, rayDir))
    {
      if hit.Some? then hit.value.point
      else if lightIndex >= 0 then lights[lightIndex].position
      else Add(rayStart, Scale(sceneScale * 2.0, rayDir))
    }

    /** The logged colour: gold for every shadow ray, else cyan on a hit and grey on a miss. */
    static function RayColour(hit: bool, lightIndex: int): (c: Vec3)
      ensures c == Gold <==> lightIndex >= 0
      ensures c == Cyan <==> lightIndex < 0 && hit
      ensures c == Grey <==> lightIndex < 0 && !hit
    {
      if lightIndex >= 0 then Gold else if hit then Cyan else Grey
    }

    /**
     * `findFirstObjectInt`: the answer is the resolver's scan over all objects;
     * when rays are being stored, exactly one (start, end) pair and one colour
     * are logged.
     */
    method FindFirstObjectInt(rayStart: Vec3, rayDir: Vec3, thisObj: int, thisPart: int, lightIndex: int)
      returns (hit: Option<Intersection>)
      requires Valid() && lightIndex < |lights|
      modifies this
      ensures Valid()
      ensures hit == Scan(objects, Query(rayStart, rayDir, thisObj, thisPart))
      ensures storingRays == old(storingRays)
      ensures storingRays ==> storedRays == old(storedRays) + [rayStart, RayEnd(rayStart, rayDir, hit, lightIndex)]
      ensures storingRays ==> storedRayColours == old(storedRayColours) + [RayColour(hit.Some?, lightIndex)]
      ensures !storingRays ==> storedRays == old(storedRays) && storedRayColours == old(storedRayColours)
    {
      if storingRays {
        storedRays := storedRays + [rayStart];
      }
      ghost var q := Query(rayStart, rayDir, thisObj, thisPart);
      var found := false;
      var maxParam := MaxFloat;
      hit := None;
      var i := 0;
      while i < |objects|
        invariant 0 <= i <= |objects|
        invariant hit == ScanTo(objects, q, i)
        invariant maxParam == BoundOf(hit)
        invariant found == hit.Some?
      {
        if objects[i].kind == Mesh || i != thisObj {
          var r := objects[i].rayInt(rayStart, rayDir, if i != thisObj then -1 else thisPart, maxParam);
          if r.Some? {
            hit := Some(Intersection(r.value.point, r.value.normal, r.value.texcoords, r.value.t,
                                     i, r.value.partIndex, r.value.mat));
            maxParam := r.value.t;
            found := true;
          }
        }
        i := i + 1;
      }
      if storingRays {
        if found {
          storedRays := storedRays + [hit.value.point];
          storedRayColours := storedRayColours + [if lightIndex >= 0 then Gold else Cyan];
        } else if lightIndex >= 0 {
          storedRays := storedRays + [lights[lightIndex].position];
          storedRayColours := storedRayColours + [Gold];
        } else {
          storedRays := storedRays + [Add(rayStart, Scale(sceneScale * 2.0, rayDir))];
          storedRayColours := storedRayColours + [Grey];
        }
      }
    }

    /** The shadow ray toward point light i is blocked by something no farther than the light. */
    ghost predicate Occluded(h: Intersection, i: int)
      requires 0 <= i < |lights|
    {
      var L := Sub(lights[i].position, h.point);
      var s := Scan(objects, Query(h.point, num.normalize(L), h.objIndex, h.objPartIndex));
      s.Some? && s.value.param <= num.length(L)
    }

    /** What point light i adds at hit h seen along E with diffuse colour kd. */
    function PointLightTerm(h: Intersection, E: Vec3, kd: Vec3, i: int): (r: Vec3)
      requires 0 <= i < |lights|
      ensures r != Black ==> Dot(h.normal, Sub(lights[i].position, h.point)) > 0.0 && !Occluded(h, i)
      ensures Dot(h.normal, Sub(lights[i].position, h.point)) > 0.0 && !Occluded(h, i) ==>
        var Lu := num.normalize(Sub(lights[i].position, h.point));
        r == CalcIout(h.normal, Lu, E, Reflect(Lu, h.normal), kd, h.mat.ks, h.mat.n, lights[i].colour, num.pow)
    {
      var L := Sub(lights[i].position, h.point);
      if Dot(h.normal, L) > 0.0 then
        var Ldist := num.length(L);
        var Lu := num.normalize(L);
        var s := Scan(objects, Query(h.point, Lu, h.objIndex, h.objPartIndex));
        if s.None? || s.value.param > Ldist then
          CalcIout(h.normal, Lu, E, Reflect(Lu, h.normal), kd, h.mat.ks, h.mat.n, lights[i].colour, num.pow)
        else Black
      else Black
    }

    /** Iout after the point-light loop has looked at lights 0 .. n-1. */
    function PointLightsTo(Iout: Vec3, h: Intersection, E: Vec3, kd: Vec3, n: nat): (r: Vec3)
      requires n <= |lights|
    {
      if n == 0 then Iout else Add(PointLightsTo(Iout, h, E, kd, n - 1), PointLightTerm(h, E, kd, n - 1))
    }

    /** Lights that are all behind the surface or in shadow leave the colour as it was. */
    lemma {:induction false} PointLightsAllDark(Iout: Vec3, h: Intersection, E: Vec3, kd: Vec3, n: nat)
      requires n <= |lights|
      requires forall i | 0 <= i < n :: Dot(h.normal, Sub(lights[i].position, h.point)) <= 0.0 || Occluded(h, i)
      ensures PointLightsTo(Iout, h, E, kd, n) == Iout
    {
      if n > 0 {
        PointLightsAllDark(Iout, h, E, kd, n - 1);
        assert PointLightTerm(h, E, kd, n - 1) == Black;
      }
    }

    lemma PointLightTermNonNeg(h: Intersection, E: Vec3, kd: Vec3, i: int)
      requires 0 <= i < |lights| && NonNegativeScene() && NonNeg(kd) && NonNeg(h.mat.ks)
      ensures NonNeg(PointLightTerm(h, E, kd, i))
    {
      var Lu := num.normalize(Sub(lights[i].position, h.point));
      CalcIoutNonNeg(h.normal, Lu, E, Reflect(Lu, h.normal), kd, h.mat.ks, h.mat.n, lights[i].colour, num.pow);
    }

    lemma {:induction false} PointLightsNonNeg(Iout: Vec3, h: Intersection, E: Vec3, kd: Vec3, n: nat)
      requires n <= |lights| && NonNegativeScene() && NonNeg(Iout) && NonNeg(kd) && NonNeg(h.mat.ks)
      ensures NonNeg(PointLightsTo(Iout, h, E, kd, n))
    {
      if n > 0 {
        PointLightsNonNeg(Iout, h, E, kd, n - 1);
        PointLightTermNonNeg(h, E, kd, n - 1);
      }
    }

    /** The shadow ray from h toward the sample (a, b, 1-a-b) on emitting triangle i reaches that triangle first. */
    ghost predicate SampleSeesEmitter(h: Intersection, i: int, a: real, b: real)
      requires 0 <= i < |objects|
    {
      var L := Sub(objects[i].pointFromBarycentric(a, b, 1.0 - a - b), h.point);
      var s := Scan(objects, Query(h.point, num.normalize(L), h.objIndex, h.objPartIndex));
      s.Some? && s.value.objIndex == i
    }

    /** What one soft-shadow sample on triangle i adds: 1/50 of its emission, if the sample is visible. */
    function AreaSampleTerm(h: Intersection, E: Vec3, kd: Vec3, i: int, a: real, b: real): (r: Vec3)
      requires 0 <= i < |objects|
      ensures r != Black ==>
        Dot(h.normal, Sub(objects[i].pointFromBarycentric(a, b, 1.0 - a - b), h.point)) > 0.0
        && SampleSeesEmitter(h, i, a, b)
    {
      var L := Sub(objects[i].pointFromBarycentric(a, b, 1.0 - a - b), h.point);
      if Dot(h.normal, L) > 0.0 then
        var Lu := num.normalize(L);
        var s := Scan(objects, Query(h.point, Lu, h.objIndex, h.objPartIndex));
        if s.Some? && s.value.objIndex == i then
          CalcIout(h.normal, Lu, E, Reflect(Lu, h.normal), kd, h.mat.ks, h.mat.n,
                   Scale(1.0 / (NumSoftShadowRays as real), objects[i].mat.ie), num.pow)
        else Black
      else Black
    }

    lemma AreaSampleTermNonNeg(h: Intersection, E: Vec3, kd: Vec3, i: int, a: real, b: real)
      requires 0 <= i < |objects| && NonNegativeScene() && NonNeg(kd) && NonNeg(h.mat.ks)
      ensures NonNeg(AreaSampleTerm(h, E, kd, i, a, b))
    {
      var Lu := num.normalize(Sub(objects[i].pointFromBarycentric(a, b, 1.0 - a - b), h.point));
      var w := 1.0 / (NumSoftShadowRays as real);
      assert NonNeg(Scale(w, objects[i].mat.ie));
      CalcIoutNonNeg(h.normal, Lu, E, Reflect(Lu, h.normal), kd, h.mat.ks, h.mat.n,
                     Scale(w, objects[i].mat.ie), num.pow);
    }

    /** Triangle i emits light toward a ray that did not start on it. */
    predicate Emitter(i: int, thisObj: int)
      requires 0 <= i < |objects|
    {
      i != thisObj && objects[i].kind == Triangle && SquaredLength(objects[i].mat.ie) > 0.0
    }

    /** The emitting triangles among objects 0 .. n-1, in object order. */
    function EmittersBelow(thisObj: int, n: nat): seq<int>
      requires n <= |objects|
    {
      if n == 0 then [] else EmittersBelow(thisObj, n - 1) + (if Emitter(n - 1, thisObj) then [n - 1] else [])
    }

    /** Exactly the emitters below n are listed, each once, in increasing order. */
    lemma {:induction false} EmittersBelowSpec(thisObj: int, n: nat)
      requires n <= |objects|
      ensures forall k :: k in EmittersBelow(thisObj, n) <==> 0 <= k < n && Emitter(k, thisObj)
      ensures forall a, b | 0 <= a < b < |EmittersBelow(thisObj, n)| :: EmittersBelow(thisObj, n)[a] < EmittersBelow(thisObj, n)[b]
    {
      if n > 0 {
        EmittersBelowSpec(thisObj, n - 1);
        var below := EmittersBelow(thisObj, n - 1);
        if Emitter(n - 1, thisObj) {
          var all := below + [n - 1];
          assert EmittersBelow(thisObj, n) == all;
          forall a, b | 0 <= a < b < |all|
            ensures all[a] < all[b]
          {
            if b == |below| {
              assert all[a] == below[a];
              assert below[a] in below;
            }
          }
        } else {
          assert EmittersBelow(thisObj, n) == below;
        }
      }
    }

    /** The hit the resolver reports is an object of the scene, with a non-negative material in a non-negative scene. */
    lemma HitFacts(q: Query)
      requires Scan(objects, q).Some?
      ensures 0 <= Scan(objects, q).value.objIndex < |objects|
      ensures NonNegativeScene() ==> MaterialNonNeg(Scan(objects, q).value.mat)
    {
      ScanKeepsLastAccepted(objects, q, |objects|);
    }

    /** A non-negative material under non-negative ambient light gives a non-negative diffuse colour and start value. */
    lemma SurfaceNonNeg(m: Material, texture: Vec3)
      requires NonNegativeScene() && MaterialNonNeg(m) && NonNeg(texture)
      ensures NonNeg(Mul(texture, m.kd)) && NonNeg(Add(m.ie, Mul(m.ka, Ia)))
    {
      MulNonNeg(texture, m.kd);
      MulNonNeg(m.ka, Ia);
    }

    /**
     * `raytrace`: depth-limited recursion.  Past maxDepth the ray is black; a
     * ray that hits nothing is the background colour from the eye and black
     * after a bounce.
     */
    method Raytrace(rayStart: Vec3, rayDir: Vec3, depth: int, thisObj: int, thisPart: int) returns (colour: Vec3)
      requires Valid()
      modifies this
      decreases maxDepth - depth, 4
      ensures Valid()
      ensures storingRays == old(storingRays)
      ensures old(storedRays) <= storedRays && old(storedRayColours) <= storedRayColours
      ensures !storingRays ==> storedRays == old(storedRays) && storedRayColours == old(storedRayColours)
      ensures depth + 1 > maxDepth ==> colour == Black && storedRays == old(storedRays)
      ensures depth + 1 <= maxDepth && Scan(objects, Query(rayStart, rayDir, thisObj, thisPart)).None? ==>
        colour == (if depth + 1 == 1 then Background else Black)
      ensures NonNegativeScene() ==> NonNeg(colour)
    {
      var d := depth + 1;
      if d > maxDepth {
        return Black;
      }
      var hit := FindFirstObjectInt(rayStart, rayDir, thisObj, thisPart, -1);
      if hit.None? {
        return if d == 1 then Background else Black;
      }
      HitFacts(Query(rayStart, rayDir, thisObj, thisPart));
      colour := ShadeHit(rayDir, hit.value, d, thisObj);
    }

    /**
     * `raytrace` at a surface point h reached at depth d: the emitted and
     * ambient light, the reflections, the lights and the transparency.
     */
    method ShadeHit(rayDir: Vec3, h: Intersection, d: int, thisObj: int) returns (colour: Vec3)
      requires Valid() && d <= maxDepth && 0 <= h.objIndex < |objects|
      requires NonNegativeScene() ==> MaterialNonNeg(h.mat)
      modifies this
      decreases maxDepth - d + 1, 3
      ensures Valid()
      ensures storingRays == old(storingRays)
      ensures old(storedRays) <= storedRays && old(storedRayColours) <= storedRayColours
      ensures !storingRays ==> storedRays == old(storedRays) && storedRayColours == old(storedRayColours)
      ensures NonNegativeScene() ==> NonNeg(colour)
    {
      var E := num.normalize(Scale(-1.0, rayDir));
      var R := Reflect(E, h.normal);
      var tex := objects[h.objIndex].textureColour(h.point, h.objPartIndex, h.texcoords);
      var kd := Mul(tex.colour, h.mat.kd);
      var Iout := Add(h.mat.ie, Mul(h.mat.ka, Ia));
      var opacity := tex.alpha * h.mat.alpha;
      ghost var bright := NonNegativeScene();
      if bright {
        SurfaceNonNeg(h.mat, tex.colour);
        assert 0.0 <= tex.alpha && 0.0 <= h.mat.alpha;
        ProductNonNeg(tex.alpha, h.mat.alpha);
      }
      ghost var ready := bright && NonNeg(Iout) && NonNeg(kd) && NonNeg(h.mat.ks) && 0.0 <= opacity;
      assert bright ==> ready;
      ghost var Iins;
      Iout, Iins := Glossy(Iout, h, E, R, kd, d);
      assert ready ==> NonNeg(Iout);
      ghost var samples, through;
      colour, samples, through := LightAndTransmit(Iout, rayDir, h, E, kd, opacity, d, thisObj);
      assert ready ==> NonNeg(colour);
    }

    /**
     * The rest of `raytrace` after the reflections: point lights, area lights,
     * then transparency.  The ghost `samples` are the soft-shadow draws and
     * `through` the colour seen through the surface, when one is traced.
     */
    method LightAndTransmit(Iout: Vec3, rayDir: Vec3, h: Intersection, E: Vec3, kd: Vec3, opacity: real,
                            d: int, thisObj: int) returns (r: Vec3, ghost samples: seq<(int, real, real)>,
                                                           ghost through: Option<Vec3>)
      requires Valid() && d <= maxDepth
      modifies this
      decreases maxDepth - d + 1, 2
      ensures Valid()
      ensures storingRays == old(storingRays)
      ensures old(storedRays) <= storedRays && old(storedRayColours) <= storedRayColours
      ensures !storingRays ==> storedRays == old(storedRays) && storedRayColours == old(storedRayColours)
      ensures forall s | s in samples :: EmitterSample(s, thisObj)
      ensures SampleTriangles(samples) == ShadowRayTargets(EmittersBelow(thisObj, |objects|))
      ensures through.Some? <==> opacity < 1.0 && num.refract(rayDir, h.normal).Some?
      ensures var lit := AreaSum(PointLightsTo(Iout, h, E, kd, |lights|), h, E, kd, samples);
        && (through.None? ==> r == lit)
        && (through.Some? ==> r == Add(Scale(opacity, lit), Scale(1.0 - opacity, through.value)))
      ensures NonNegativeScene() && NonNeg(Iout) && NonNeg(kd) && NonNeg(h.mat.ks) && 0.0 <= opacity ==> NonNeg(r)
    {
      r := PointLights(Iout, h, E, kd);
      r, samples := AreaLights(r, h, E, kd, thisObj);
      r, through := Transmit(r, rayDir, h, opacity, d);
    }

    /**
     * The transparency part of `raytrace`: a surface with opacity below one
     * blends its colour with the colour seen through it along the refracted
     * ray, when there is one; the ghost `through` is that colour.
     */
    method Transmit(Iout: Vec3, rayDir: Vec3, h: Intersection, opacity: real, d: int)
      returns (r: Vec3, ghost through: Option<Vec3>)
      requires Valid() && d <= maxDepth
      modifies this
      decreases maxDepth - d + 1, 1
      ensures Valid()
      ensures storingRays == old(storingRays)
      ensures old(storedRays) <= storedRays && old(storedRayColours) <= storedRayColours
      ensures !storingRays ==> storedRays == old(storedRays) && storedRayColours == old(storedRayColours)
      // opaque, or total internal reflection: the colour is kept
      ensures opacity >= 1.0 ==> through.None? && r == Iout
      ensures opacity < 1.0 && num.refract(rayDir, h.normal).None? ==> through.None? && r == Iout
      // otherwise opacity parts of the surface and 1 - opacity of what lies behind it
      ensures opacity < 1.0 && num.refract(rayDir, h.normal).Some? ==>
        through.Some? && r == Add(Scale(opacity, Iout), Scale(1.0 - opacity, through.value))
      ensures NonNegativeScene() ==> through.Some? ==> NonNeg(through.value)
      ensures NonNegativeScene() && NonNeg(Iout) && 0.0 <= opacity ==> NonNeg(r)
    {
      r := Iout;
      through := None;
      if opacity < 1.0 {
        var refraction := num.refract(rayDir, h.normal);
        if refraction.Some? {
          var behind := Raytrace(h.point, refraction.value, d, h.objIndex, h.objPartIndex);
          if NonNegativeScene() && NonNeg(Iout) && 0.0 <= opacity {
            BlendNonNeg(opacity, Iout, behind);
          }
          r := Add(Scale(opacity, Iout), Scale(1.0 - opacity, behind));
          through := Some(behind);
        }
      }
    }

    /**
     * The reflection part of `raytrace`: one mirror ray when the surface is a
     * perfect mirror or only one glossy ray is asked for, otherwise the average
     * of `glossyIterations` rays in the glossy cone, and nothing for a matte
     * surface.  The ghost `Iins` are the colours the traced rays brought back.
     */
    method Glossy(Iout: Vec3, h: Intersection, E: Vec3, R: Vec3, kd: Vec3, d: int)
      returns (r: Vec3, ghost Iins: seq<Vec3>)
      requires Valid() && d <= maxDepth
      modifies this
      decreases maxDepth - d + 1, 1
      ensures Valid()
      ensures storingRays == old(storingRays)
      ensures old(storedRays) <= storedRays && old(storedRayColours) <= storedRayColours
      ensures !storingRays ==> storedRays == old(storedRays) && storedRayColours == old(storedRayColours)
      // a mirror, or a single glossy ray: the Phong term of the one reflected ray
      ensures h.mat.g == 1.0 || glossyIterations == 1 ==>
        |Iins| == 1 && r == Add(Iout, CalcIout(h.normal, R, E, E, kd, h.mat.ks, h.mat.n, Iins[0], num.pow))
      // glossy: the mean of the Phong terms of glossyIterations rays
      ensures h.mat.g != 1.0 && glossyIterations != 1 && h.mat.g > 0.0 ==>
        |Iins| == glossyIterations && r == Add(Iout, Scale(1.0 / (glossyIterations as real), GlossySum(h, E, R, kd, Iins)))
      // matte: nothing is reflected
      ensures h.mat.g <= 0.0 && glossyIterations != 1 ==> Iins == [] && r == Iout
      ensures NonNegativeScene() ==> forall k | 0 <= k < |Iins| :: NonNeg(Iins[k])
      ensures NonNegativeScene() && NonNeg(Iout) && NonNeg(kd) && NonNeg(h.mat.ks) ==> NonNeg(r)
    {
      var g := h.mat.g;
      if g == 1.0 || glossyIterations == 1 {
        var Iin := Raytrace(h.point, R, d, h.objIndex, h.objPartIndex);
        r := Add(Iout, CalcIout(h.normal, R, E, E, kd, h.mat.ks, h.mat.n, Iin, num.pow));
        Iins := [Iin];
        if NonNegativeScene() && NonNeg(kd) && NonNeg(h.mat.ks) {
          CalcIoutNonNeg(h.normal, R, E, E, kd, h.mat.ks, h.mat.n, Iin, num.pow);
        }
      } else if g > 0.0 {
        var sum;
        sum, Iins := GlossySamples(h, E, R, kd, d);
        if NonNegativeScene() && NonNeg(Iout) && NonNeg(kd) && NonNeg(h.mat.ks) {
          ScaleNonNeg(1.0 / (glossyIterations as real), sum);
        }
        r := Add(Iout, Scale(1.0 / (glossyIterations as real), sum));
      } else {
        r := Iout;
        Iins := [];
      }
    }

    /**
     * The glossy loop of `raytrace`: `glossyIterations` rays, each drawn in
     * the cone of the surface's glossiness around R, whose Phong terms are
     * added up.  The ghost `Iins` are the colours the rays brought back.
     */
    method GlossySamples(h: Intersection, E: Vec3, R: Vec3, kd: Vec3, d: int)
      returns (sum: Vec3, ghost Iins: seq<Vec3>)
      requires Valid() && d <= maxDepth && h.mat.g > 0.0
      modifies this
      decreases maxDepth - d + 1, 0
      ensures Valid()
      ensures storingRays == old(storingRays)
      ensures old(storedRays) <= storedRays && old(storedRayColours) <= storedRayColours
      ensures !storingRays ==> storedRays == old(storedRays) && storedRayColours == old(storedRayColours)
      ensures |Iins| == glossyIterations && sum == GlossySum(h, E, R, kd, Iins)
      ensures NonNegativeScene() ==> forall k | 0 <= k < |Iins| :: NonNeg(Iins[k])
      ensures NonNegativeScene() && NonNeg(kd) && NonNeg(h.mat.ks) ==> NonNeg(sum)
    {
      var l := num.discDistance(h.mat.g);
      sum := Black;
      Iins := [];
      var i := 0;
      while i < glossyIterations
        invariant 0 <= i <= glossyIterations
        invariant Valid()
        invariant |Iins| == i && sum == GlossySum(h, E, R, kd, Iins)
        invariant NonNegativeScene() ==> forall k | 0 <= k < |Iins| :: NonNeg(Iins[k])
        invariant storingRays == old(storingRays)
        invariant old(storedRays) <= storedRays && old(storedRayColours) <= storedRayColours
        invariant !storingRays ==> storedRays == old(storedRays) && storedRayColours == old(storedRayColours)
        invariant NonNegativeScene() && NonNeg(kd) && NonNeg(h.mat.ks) ==> NonNeg(sum)
      {
        var a: real, b: real :| 0.0 <= a <= 1.0 && 0.0 <= b <= 1.0 && a + b <= 1.0;
        var randRay := Add(Add(Scale(l, R), Scale(a, num.perp1(R))), Scale(b, num.perp2(R)));
        var Iin := Raytrace(h.point, randRay, d, h.objIndex, h.objPartIndex);
        if NonNegativeScene() && NonNeg(kd) && NonNeg(h.mat.ks) {
          CalcIoutNonNeg(h.normal, R, E, E, kd, h.mat.ks, h.mat.n, Iin, num.pow);
        }
        sum := Add(sum, CalcIout(h.normal, R, E, E, kd, h.mat.ks, h.mat.n, Iin, num.pow));
        assert (Iins + [Iin])[..i] == Iins;
        Iins := Iins + [Iin];
        i := i + 1;
      }
    }

    /** The glossy sum of `raytrace`: the Phong term of each incoming colour, added left to right. */
    function GlossySum(h: Intersection, E: Vec3, R: Vec3, kd: Vec3, Iins: seq<Vec3>): Vec3 {
      if |Iins| == 0 then Black
      else Add(GlossySum(h, E, R, kd, Iins[..|Iins| - 1]),
               CalcIout(h.normal, R, E, E, kd, h.mat.ks, h.mat.n, Iins[|Iins| - 1], num.pow))
    }

    /** n glossy rays that all bring back c sum to n times the mirror ray's term. */
    lemma {:induction false} GlossySumConstant(h: Intersection, E: Vec3, R: Vec3, kd: Vec3, c: Vec3, n: nat)
      ensures GlossySum(h, E, R, kd, seq(n, _ => c)) == Scale(n as real, CalcIout(h.normal, R, E, E, kd, h.mat.ks, h.mat.n, c, num.pow))
    {
      var t := CalcIout(h.normal, R, E, E, kd, h.mat.ks, h.mat.n, c, num.pow);
      if n > 0 {
        var cs := seq(n, _ => c);
        assert cs[..n - 1] == seq(n - 1, _ => c);
        GlossySumConstant(h, E, R, kd, c, n - 1);
        var m := (n - 1) as real;
        assert cs[n - 1] == c;
        assert GlossySum(h, E, R, kd, cs) == Add(Scale(m, t), t);
        ScaleSucc(m, t);
      } else {
        assert 0.0 * t.x == 0.0 && 0.0 * t.y == 0.0 && 0.0 * t.z == 0.0;
        assert Scale(0.0, t) == Black;
      }
    }

    /**
     * The glossy average is consistent with the mirror case: when every one of
     * the glossyIterations rays brings back the same colour c, the averaged
     * reflection is the Phong term of a single ray bringing back c.
     */
    lemma GlossyAverageOfEqualSamples(h: Intersection, E: Vec3, R: Vec3, kd: Vec3, c: Vec3, n: nat)
      requires n > 0
      ensures Scale(1.0 / (n as real), GlossySum(h, E, R, kd, seq(n, _ => c)))
           == CalcIout(h.normal, R, E, E, kd, h.mat.ks, h.mat.n, c, num.pow)
    {
      GlossySumConstant(h, E, R, kd, c, n);
      ScaleInverse(n as real, CalcIout(h.normal, R, E, E, kd, h.mat.ks, h.mat.n, c, num.pow));
    }

    /**
     * The point-light loop of `raytrace`: each light adds `PointLightTerm`, and
     * each light in front of the surface costs one logged shadow ray.
     */
    method PointLights(Iout: Vec3, h: Intersection, E: Vec3, kd: Vec3) returns (r: Vec3)
      requires Valid()
      modifies this
      ensures Valid()
      ensures r == PointLightsTo(Iout, h, E, kd, |lights|)
      ensures storingRays == old(storingRays)
      ensures old(storedRays) <= storedRays && old(storedRayColours) <= storedRayColours
      ensures !storingRays ==> storedRays == old(storedRays) && storedRayColours == old(storedRayColours)
      ensures NonNegativeScene() && NonNeg(Iout) && NonNeg(kd) && NonNeg(h.mat.ks) ==> NonNeg(r)
    {
      r := Iout;
      var i := 0;
      while i < |lights|
        invariant 0 <= i <= |lights|
        invariant Valid()
        invariant r == PointLightsTo(Iout, h, E, kd, i)
        invariant storingRays == old(storingRays)
        invariant old(storedRays) <= storedRays && old(storedRayColours) <= storedRayColours
        invariant !storingRays ==> storedRays == old(storedRays) && storedRayColours == old(storedRayColours)
      {
        var contribution := PointLightSample(h, E, kd, i);
        r := Add(r, contribution);
        i := i + 1;
      }
      if NonNegativeScene() && NonNeg(Iout) && NonNeg(kd) && NonNeg(h.mat.ks) {
        PointLightsNonNeg(Iout, h, E, kd, |lights|);
      }
    }

    /**
     * One light of the point-light loop: a light in front of the surface
     * costs a logged shadow ray, and adds its Phong term when nothing lies
     * between it and the surface.
     */
    method PointLightSample(h: Intersection, E: Vec3, kd: Vec3, i: int) returns (contribution: Vec3)
      requires Valid() && 0 <= i < |lights|
      modifies this
      ensures Valid()
      ensures contribution == PointLightTerm(h, E, kd, i)
      ensures storingRays == old(storingRays)
      ensures old(storedRays) <= storedRays && old(storedRayColours) <= storedRayColours
      ensures !storingRays ==> storedRays == old(storedRays) && storedRayColours == old(storedRayColours)
    {
      var L := Sub(lights[i].position, h.point);
      contribution := Black;
      if Dot(h.normal, L) > 0.0 {
        var Ldist := num.length(L);
        var Lu := num.normalize(L);
        var found := FindFirstObjectInt(h.point, Lu, h.objIndex, h.objPartIndex, i);
        if found.None? || found.value.param > Ldist {
          contribution := CalcIout(h.normal, Lu, E, Reflect(Lu, h.normal), kd, h.mat.ks, h.mat.n,
                                   lights[i].colour, num.pow);
        }
      }
    }

    /** Soft-shadow samples none of which sees its emitter leave the colour as it was. */
    lemma {:induction false} AreaSamplesAllDark(Iout: Vec3, h: Intersection, E: Vec3, kd: Vec3,
                                                samples: seq<(int, real, real)>)
      requires forall k | 0 <= k < |samples| && 0 <= samples[k].0 < |objects| ::
        !SampleSeesEmitter(h, samples[k].0, samples[k].1, samples[k].2)
      ensures AreaSum(Iout, h, E, kd, samples) == Iout
    {
      if |samples| > 0 {
        var rest := samples[..|samples| - 1];
        AreaSamplesAllDark(Iout, h, E, kd, rest);
        var s := samples[|samples| - 1];
        if 0 <= s.0 < |objects| {
          assert AreaSampleTerm(h, E, kd, s.0, s.1, s.2) == Black;
        }
      }
    }

    /**
     * The area-light loop of `raytrace`: 50 shadow rays toward random points of
     * every emitting triangle other than the originating object; the ghost
     * `samples` lists, per sample, the triangle and the barycentric draw, and
     * the result adds up their `AreaSampleTerm`s.
     */
    method AreaLights(Iout: Vec3, h: Intersection, E: Vec3, kd: Vec3, thisObj: int)
      returns (r: Vec3, ghost samples: seq<(int, real, real)>)
      requires Valid()
      modifies this
      ensures Valid()
      ensures forall s | s in samples :: EmitterSample(s, thisObj)
      // NumSoftShadowRays samples of every emitter, in object order
      ensures SampleTriangles(samples) == ShadowRayTargets(EmittersBelow(thisObj, |objects|))
      ensures r == AreaSum(Iout, h, E, kd, samples)
      ensures storingRays == old(storingRays)
      ensures old(storedRays) <= storedRays && old(storedRayColours) <= storedRayColours
      ensures !storingRays ==> storedRays == old(storedRays) && storedRayColours == old(storedRayColours)
      ensures NonNegativeScene() && NonNeg(Iout) && NonNeg(kd) && NonNeg(h.mat.ks) ==> NonNeg(r)
    {
      r := Iout;
      samples := [];
      var i := 0;
      while i < |objects|
        invariant 0 <= i <= |objects|
        invariant Valid()
        invariant forall s | s in samples :: EmitterSample(s, thisObj)
        invariant SampleTriangles(samples) == ShadowRayTargets(EmittersBelow(thisObj, i))
        invariant r == AreaSum(Iout, h, E, kd, samples)
        invariant storingRays == old(storingRays)
        invariant old(storedRays) <= storedRays && old(storedRayColours) <= storedRayColours
        invariant !storingRays ==> storedRays == old(storedRays) && storedRayColours == old(storedRayColours)
        invariant NonNegativeScene() && NonNeg(Iout) && NonNeg(kd) && NonNeg(h.mat.ks) ==> NonNeg(r)
      {
        r, samples := AreaLight(Iout, h, E, kd, thisObj, i, r, samples);
        TargetsStep(thisObj, i);
        i := i + 1;
      }
    }

    /** One more object of the area-light loop adds NumSoftShadowRays targets when it is an emitter. */
    lemma TargetsStep(thisObj: int, i: nat)
      requires i < |objects|
      ensures ShadowRayTargets(EmittersBelow(thisObj, i + 1))
        == ShadowRayTargets(EmittersBelow(thisObj, i)) + (if Emitter(i, thisObj) then Copies(i) else [])
    {
      var targets := EmittersBelow(thisObj, i);
      if Emitter(i, thisObj) {
        assert (targets + [i])[..|targets|] == targets;
      } else {
        assert EmittersBelow(thisObj, i + 1) == targets;
      }
    }

    /** One pass of the area-light loop: the soft-shadow rays of object i when it is an emitter, nothing otherwise. */
    method AreaLight(Iout: Vec3, h: Intersection, E: Vec3, kd: Vec3, thisObj: int, i: int,
                     r0: Vec3, ghost samples0: seq<(int, real, real)>)
      returns (r: Vec3, ghost samples: seq<(int, real, real)>)
      requires Valid() && 0 <= i < |objects|
      requires forall s | s in samples0 :: EmitterSample(s, thisObj)
      requires r0 == AreaSum(Iout, h, E, kd, samples0)
      requires NonNegativeScene() && NonNeg(Iout) && NonNeg(kd) && NonNeg(h.mat.ks) ==> NonNeg(r0)
      modifies this
      ensures Valid()
      ensures forall s | s in samples :: EmitterSample(s, thisObj)
      ensures SampleTriangles(samples) == SampleTriangles(samples0) + (if Emitter(i, thisObj) then Copies(i) else [])
      ensures r == AreaSum(Iout, h, E, kd, samples)
      ensures storingRays == old(storingRays)
      ensures old(storedRays) <= storedRays && old(storedRayColours) <= storedRayColours
      ensures !storingRays ==> storedRays == old(storedRays) && storedRayColours == old(storedRayColours)
      ensures NonNegativeScene() && NonNeg(Iout) && NonNeg(kd) && NonNeg(h.mat.ks) ==> NonNeg(r)
    {
      if i != thisObj && objects[i].kind == Triangle && SquaredLength(objects[i].mat.ie) > 0.0 {
        r, samples := SoftShadowRays(Iout, h, E, kd, thisObj, i, r0, samples0);
      } else {
        r, samples := r0, samples0;
        assert SampleTriangles(samples0) + [] == SampleTriangles(samples0);
      }
    }

    /**
     * The inner loop of the area-light part of `raytrace`: NumSoftShadowRays
     * shadow rays toward random points of the emitting triangle `i`, each
     * adding its `AreaSampleTerm`.
     */
    method SoftShadowRays(Iout: Vec3, h: Intersection, E: Vec3, kd: Vec3, thisObj: int, i: int,
                          r0: Vec3, ghost samples0: seq<(int, real, real)>)
      returns (r: Vec3, ghost samples: seq<(int, real, real)>)
      requires Valid() && 0 <= i < |objects| && Emitter(i, thisObj)
      requires forall s | s in samples0 :: EmitterSample(s, thisObj)
      requires r0 == AreaSum(Iout, h, E, kd, samples0)
      requires NonNegativeScene() && NonNeg(Iout) && NonNeg(kd) && NonNeg(h.mat.ks) ==> NonNeg(r0)
      modifies this
      ensures Valid()
      ensures forall s | s in samples :: EmitterSample(s, thisObj)
      // the earlier samples are kept, followed by NumSoftShadowRays samples of triangle i
      ensures |samples| == |samples0| + NumSoftShadowRays && samples[..|samples0|] == samples0
      ensures SampleTriangles(samples) == SampleTriangles(samples0) + Copies(i)
      ensures r == AreaSum(Iout, h, E, kd, samples)
      ensures storingRays == old(storingRays)
      ensures old(storedRays) <= storedRays && old(storedRayColours) <= storedRayColours
      ensures !storingRays ==> storedRays == old(storedRays) && storedRayColours == old(storedRayColours)
      ensures NonNegativeScene() && NonNeg(Iout) && NonNeg(kd) && NonNeg(h.mat.ks) ==> NonNeg(r)
    {
      r, samples := r0, samples0;
      var j := 0;
      while j < NumSoftShadowRays
        invariant 0 <= j <= NumSoftShadowRays
        invariant |samples| == |samples0| + j && samples[..|samples0|] == samples0
        invariant SampleTriangles(samples) == SampleTriangles(samples0) + Copies(i)[..j]
        invariant Valid()
        invariant forall s | s in samples :: EmitterSample(s, thisObj)
        invariant r == AreaSum(Iout, h, E, kd, samples)
        invariant storingRays == old(storingRays)
        invariant old(storedRays) <= storedRays && old(storedRayColours) <= storedRayColours
        invariant !storingRays ==> storedRays == old(storedRays) && storedRayColours == old(storedRayColours)
        invariant NonNegativeScene() && NonNeg(Iout) && NonNeg(kd) && NonNeg(h.mat.ks) ==> NonNeg(r)
      {
        var contribution;
        ghost var a, b;
        contribution, a, b := SoftShadowSample(h, E, kd, i);
        r := Add(r, contribution);
        ghost var before := samples;
        samples := samples + [(i, a, b)];
        SampleTrianglesSnoc(before, (i, a, b));
        assert Copies(i)[..j + 1] == Copies(i)[..j] + [i];
        j := j + 1;
      }
    }

    /**
     * One shadow ray of the area-light loop: a random point of triangle i;
     * when it lies in front of the surface, one logged shadow ray toward it,
     * and the Phong term of 1/NumSoftShadowRays of the triangle's emission if
     * that ray reaches the triangle first.  The ghost a, b are the draw.
     */
    method SoftShadowSample(h: Intersection, E: Vec3, kd: Vec3, i: int)
      returns (contribution: Vec3, ghost a: real, ghost b: real)
      requires Valid() && 0 <= i < |objects|
      modifies this
      ensures Valid()
      ensures 0.0 <= a && 0.0 <= b && a + b <= 1.0
      ensures contribution == AreaSampleTerm(h, E, kd, i, a, b)
      ensures storingRays == old(storingRays)
      ensures old(storedRays) <= storedRays && old(storedRayColours) <= storedRayColours
      ensures !storingRays ==> storedRays == old(storedRays) && storedRayColours == old(storedRayColours)
      ensures NonNegativeScene() && NonNeg(kd) && NonNeg(h.mat.ks) ==> NonNeg(contribution)
    {
      var u: real, v: real :| 0.0 <= u <= 1.0 && 0.0 <= v <= 1.0 && u + v <= 1.0;
      a, b := u, v;
      var pointOnLight := objects[i].pointFromBarycentric(u, v, 1.0 - u - v);
      var L := Sub(pointOnLight, h.point);
      contribution := Black;
      if Dot(h.normal, L) > 0.0 {
        var Lu := num.normalize(L);
        var found := FindFirstObjectInt(h.point, Lu, h.objIndex, h.objPartIndex, -1);
        if found.Some? && found.value.objIndex == i {
          contribution := CalcIout(h.normal, Lu, E, Reflect(Lu, h.normal), kd, h.mat.ks, h.mat.n,
                                   Scale(1.0 / (NumSoftShadowRays as real), objects[i].mat.ie), num.pow);
        }
      }
      if NonNegativeScene() && NonNeg(kd) && NonNeg(h.mat.ks) {
        AreaSampleTermNonNeg(h, E, kd, i, a, b);
      }
    }

    /** A soft-shadow sample: an emitting triangle and a barycentric draw inside it. */
    predicate EmitterSample(s: (int, real, real), thisObj: int) {
      0 <= s.0 < |objects| && Emitter(s.0, thisObj) && 0.0 <= s.1 && 0.0 <= s.2 && s.1 + s.2 <= 1.0
    }

    /** Iout plus the terms of the listed soft-shadow samples, added in order. */
    function AreaSum(Iout: Vec3, h: Intersection, E: Vec3, kd: Vec3, samples: seq<(int, real, real)>): (r: Vec3)
    {
      if |samples| == 0 then Iout
      else
        var s := samples[|samples| - 1];
        var rest := AreaSum(Iout, h, E, kd, samples[..|samples| - 1]);
        if 0 <= s.0 < |objects| then Add(rest, AreaSampleTerm(h, E, kd, s.0, s.1, s.2)) else rest
    }

    /**
     * `pixelColour`: numPixelSamples x numPixelSamples eye rays through the
     * pixel, each weighted 1/square; afterwards rays are no longer stored.
     */
    method PixelColour(x: int, y: int) returns (result: Vec3, ghost samples: seq<Vec3>)
      requires Valid()
      modifies this
      ensures Valid() && !storingRays
      ensures |samples| == (if numPixelSamples > 0 then numPixelSamples * numPixelSamples else 0)
      ensures numPixelSamples > 0 ==> result == WeightedSum(1.0 / ((numPixelSamples * numPixelSamples) as real), samples)
      ensures numPixelSamples <= 0 ==> result == Black
      ensures NonNegativeScene() ==> NonNeg(result)
    {
      result := Black;
      samples := [];
      var square := numPixelSamples * numPixelSamples;
      var i := 0;
      while i < numPixelSamples
        invariant numPixelSamples > 0 ==> 0 <= i <= numPixelSamples
        invariant numPixelSamples <= 0 ==> i == 0
        invariant Valid()
        invariant |samples| == i * (if numPixelSamples > 0 then numPixelSamples else 0)
        invariant numPixelSamples > 0 ==> result == WeightedSum(1.0 / (square as real), samples)
        invariant numPixelSamples <= 0 ==> result == Black
        invariant NonNegativeScene() ==> NonNeg(result)
      {
        result, samples := SampleRow(x, y, i, 1.0 / (square as real), result, samples);
        i := i + 1;
      }
      storingRays := false;
    }

    /**
     * The inner loop of `pixelColour`: the numPixelSamples eye rays of row
     * `i` of the pixel's sample grid, each added with weight `w`.
     */
    method SampleRow(x: int, y: int, i: int, w: real, result0: Vec3, ghost samples0: seq<Vec3>)
      returns (result: Vec3, ghost samples: seq<Vec3>)
      requires Valid() && 0.0 <= w && result0 == WeightedSum(w, samples0)
      requires NonNegativeScene() ==> NonNeg(result0)
      modifies this
      ensures Valid()
      ensures |samples| == |samples0| + (if numPixelSamples > 0 then numPixelSamples else 0)
      ensures result == WeightedSum(w, samples)
      ensures NonNegativeScene() ==> NonNeg(result)
    {
      result, samples := result0, samples0;
      var n := 0;
      while n < numPixelSamples
        invariant numPixelSamples > 0 ==> 0 <= n <= numPixelSamples
        invariant numPixelSamples <= 0 ==> n == 0
        invariant Valid()
        invariant |samples| == |samples0| + n
        invariant result == WeightedSum(w, samples)
        invariant NonNegativeScene() ==> NonNeg(result)
      {
        var r1: real, r2: real :| 0.0 <= r1 <= 1.0 && 0.0 <= r2 <= 1.0;
        var dir;
        if jitter {
          var k := 1.0 / (numPixelSamples as real);
          dir := num.normalize(Add(Add(camera.llCorner, Scale(x as real + k * (i as real + r1), camera.right)),
                                   Scale(y as real + k * (n as real + r2), camera.up)));
        } else {
          dir := num.normalize(Add(Add(camera.llCorner, Scale(x as real + r1, camera.right)),
                                   Scale(y as real + r2, camera.up)));
        }
        var c := Raytrace(camera.eye, dir, 0, -1, -1);
        if NonNegativeScene() {
          ScaleNonNeg(w, c);
        }
        assert (samples + [c])[..|samples|] == samples;
        result := Add(result, Scale(w, c));
        samples := samples + [c];
        n := n + 1;
      }
    }

    /**
     * The loop of `drawStoredRays`: one arrow per logged pair, from the end
     * point back toward the start, in the logged colour.
     */
    method StoredArrows() returns (arrows: seq<Arrow>)
      requires Paired()
      ensures |arrows| == |storedRayColours|
      ensures forall k | 0 <= k < |arrows| ::
        arrows[k] == Arrow(storedRays[2 * k + 1], Sub(storedRays[2 * k], storedRays[2 * k + 1]), storedRayColours[k])
    {
      arrows := [];
      var i := 0;
      while i < |storedRays|
        invariant 0 <= i <= |storedRays| && i % 2 == 0
        invariant |arrows| == i / 2
        invariant forall k | 0 <= k < |arrows| ::
          arrows[k] == Arrow(storedRays[2 * k + 1], Sub(storedRays[2 * k], storedRays[2 * k + 1]), storedRayColours[k])
      {
        var dir := Sub(storedRays[i], storedRays[i + 1]);
        arrows := arrows + [Arrow(storedRays[i + 1], dir, storedRayColours[i / 2])];
        i := i + 2;
      }
    }
  }
}
