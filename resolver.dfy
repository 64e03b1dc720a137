/**
 * The scene's objects and the nearest-hit rule of `Scene::findFirstObjectInt`,
 * stated on values.  Each object's own intersection test (`rayInt`), texture
 * lookup and triangle sampling are geometry outside this model, so they are
 * functions carried by the object; "is it a wavefront mesh" is an explicit kind.
 */
module Resolver {
  import opened Wrappers
  import opened Linalg

  /** MAXFLOAT as the source defines it when the platform does not. */
  const MaxFloat: real := 9999999.0

  datatype ObjectKind = Sphere | Triangle | Mesh

  /** ka, kd, ks: ambient, diffuse, specular; ie: emitted; g: glossiness; alpha: opacity; n: shininess. */
  datatype Material = Material(ka: Vec3, kd: Vec3, ks: Vec3, ie: Vec3, g: real, alpha: real, n: real)

  /** What one object's `rayInt` reports on a hit. */
  datatype ObjHit = ObjHit(point: Vec3, normal: Vec3, texcoords: Vec3, t: real, mat: Material, partIndex: int)

  /** What `textureColour` reports: a colour and an alpha. */
  datatype Texel = Texel(colour: Vec3, alpha: real)

  datatype SceneObject = SceneObject(
    kind: ObjectKind,
    /** The object's own material (`tri->mat` for a triangle). */
    mat: Material,
    /** rayInt(start, dir, partIndex to exclude or -1, maxParam). */
    rayInt: (Vec3, Vec3, int, real) -> Option<ObjHit>,
    /** textureColour(point, partIndex, texcoords). */
    textureColour: (Vec3, int, Vec3) -> Texel,
    /** pointFromBarycentricCoords(a, b, c), used for triangles only. */
    pointFromBarycentric: (real, real, real) -> Vec3)

  /** The output parameters of `findFirstObjectInt` on a hit. */
  datatype Intersection = Intersection(
    point: Vec3, normal: Vec3, texcoords: Vec3, param: real,
    objIndex: int, objPartIndex: int, mat: Material)

  /** A resolver call: ray start and direction, originating object and its part (-1 for none). */
  datatype Query = Query(start: Vec3, dir: Vec3, thisObj: int, thisPart: int)

  /** The running bound `maxParam`: MAXFLOAT until a hit has been accepted, then that hit's t. */
  function BoundOf(best: Option<Intersection>): real {
    if best.Some? then best.value.param else MaxFloat
  }

  /** An object is examined unless it is the originating object and not a mesh. */
  function Examined(objs: seq<SceneObject>, q: Query, k: int): (b: bool)
    requires 0 <= k < |objs|
    // only the originating object can be skipped
    ensures !b ==> k == q.thisObj
    // a mesh is never skipped, and any other originating object always is
    ensures objs[k].kind == Mesh ==> b
    ensures k == q.thisObj && objs[k].kind != Mesh ==> !b
  {
    objs[k].kind == Mesh || k != q.thisObj
  }

  /** The originating part index goes to the originating object only; every other object gets -1. */
  function PartArg(q: Query, k: int): (p: int)
    ensures k != q.thisObj ==> p == -1
    ensures k == q.thisObj ==> p == q.thisPart
  {
    if k != q.thisObj then -1 else q.thisPart
  }

  /** What object k reports when asked with the bound left by the hit so far. */
  function Probe(objs: seq<SceneObject>, q: Query, k: int, best: Option<Intersection>): Option<ObjHit>
    requires 0 <= k < |objs|
  {
    objs[k].rayInt(q.start, q.dir, PartArg(q, k), BoundOf(best))
  }

  function Attach(h: ObjHit, k: int): Intersection {
    Intersection(h.point, h.normal, h.texcoords, h.t, k, h.partIndex, h.mat)
  }

  /** The hit held after the loop has looked at objects 0 .. n-1. */
  function ScanTo(objs: seq<SceneObject>, q: Query, n: nat): (r: Option<Intersection>)
    requires n <= |objs|
    // a hit names one of the objects looked at, and one that was examined
    ensures r.Some? ==> 0 <= r.value.objIndex < n && Examined(objs, q, r.value.objIndex)
  {
    if n == 0 then None
    else
      var best := ScanTo(objs, q, n - 1);
      if Examined(objs, q, n - 1) && Probe(objs, q, n - 1, best).Some? then
        Some(Attach(Probe(objs, q, n - 1, best).value, n - 1))
      else
        best
  }

  /** The resolver's answer for the whole object list. */
  function Scan(objs: seq<SceneObject>, q: Query): (r: Option<Intersection>)
    // an empty scene has no hit; a hit names an examined object of the scene
    ensures |objs| == 0 ==> r.None?
    ensures r.Some? ==> 0 <= r.value.objIndex < |objs| && Examined(objs, q, r.value.objIndex)
  {
    ScanTo(objs, q, |objs|)
  }

  /** Object k is examined and reports a hit under the bound it is given. */
  predicate Accepted(objs: seq<SceneObject>, q: Query, k: int)
    requires 0 <= k < |objs|
  {
    Examined(objs, q, k) && Probe(objs, q, k, ScanTo(objs, q, k)).Some?
  }

  /** There is a hit after n objects exactly when one of them was accepted. */
  lemma {:induction false} ScanHitIff(objs: seq<SceneObject>, q: Query, n: nat)
    requires n <= |objs|
    ensures ScanTo(objs, q, n).Some? <==> exists k :: 0 <= k < n && Accepted(objs, q, k)
  {
    if n > 0 {
      ScanHitIff(objs, q, n - 1);
      if Accepted(objs, q, n - 1) {
        assert ScanTo(objs, q, n).Some?;
      } else {
        assert ScanTo(objs, q, n) == ScanTo(objs, q, n - 1);
        assert (exists k :: 0 <= k < n && Accepted(objs, q, k)) ==>
               (exists k :: 0 <= k < n - 1 && Accepted(objs, q, k));
      }
    }
  }

  /**
   * A hit comes from the last accepted object: it is accepted, no later object
   * is, and every output field is what that object reported.
   */
  lemma {:induction false} ScanKeepsLastAccepted(objs: seq<SceneObject>, q: Query, n: nat)
    requires n <= |objs| && ScanTo(objs, q, n).Some?
    ensures var j := ScanTo(objs, q, n).value.objIndex;
      && 0 <= j < n
      && Accepted(objs, q, j)
      && (forall k | j < k < n :: !Accepted(objs, q, k))
      && ScanTo(objs, q, n).value == Attach(Probe(objs, q, j, ScanTo(objs, q, j)).value, j)
  {
    if !Accepted(objs, q, n - 1) {
      ScanKeepsLastAccepted(objs, q, n - 1);
    }
  }

  /** The resolver never answers with the originating object unless that object is a mesh. */
  lemma NeverSelfUnlessMesh(objs: seq<SceneObject>, q: Query)
    requires Scan(objs, q).Some? && Scan(objs, q).value.objIndex == q.thisObj
    ensures 0 <= q.thisObj < |objs| && objs[q.thisObj].kind == Mesh
  {
    ScanKeepsLastAccepted(objs, q, |objs|);
  }

  /** Every object's test reports only hits closer than the bound it was given. */
  ghost predicate HonoursBound(objs: seq<SceneObject>, q: Query)
  {
    forall k, bound | 0 <= k < |objs| ::
      objs[k].rayInt(q.start, q.dir, PartArg(q, k), bound).Some? ==>
        objs[k].rayInt(q.start, q.dir, PartArg(q, k), bound).value.t < bound
  }

  /**
   * When the objects honour the bound, the answer is the nearest accepted hit:
   * closer than MAXFLOAT and no farther than any hit reported during the scan.
   */
  lemma {:induction false} ScanIsNearest(objs: seq<SceneObject>, q: Query, n: nat)
    requires n <= |objs| && HonoursBound(objs, q)
    ensures forall k | 0 <= k < n && Accepted(objs, q, k) ::
      BoundOf(ScanTo(objs, q, n)) <= Probe(objs, q, k, ScanTo(objs, q, k)).value.t
    ensures BoundOf(ScanTo(objs, q, n)) <= MaxFloat
  {
    if n > 0 {
      ScanIsNearest(objs, q, n - 1);
      var best := ScanTo(objs, q, n - 1);
      if Accepted(objs, q, n - 1) {
        assert Probe(objs, q, n - 1, best).value.t < BoundOf(best);
      }
    }
  }
}
