/**
 * The record a successful intersection fills in, and the rule that orients
 * its normal against the incoming ray.
 */
module HitRecord {
  import opened Wrappers
  import opened Vec3
  import opened Ray

  /**
   * Textures and materials are shared handles in the renderer; apart from
   * the isotropic phase function of a participating medium they are opaque
   * here.
   */
  datatype Texture = SolidColor(color: Vec3) | TextureRef(id: nat)
  datatype Material = Isotropic(albedo: Texture) | MaterialRef(id: nat)

  /** The contents of a `HitRecord`: point, normal, ray parameter, side, material and surface coordinates. */
  datatype HitValue = HitValue(
    p: Vec3,
    normal: Vec3,
    t: real,
    frontFace: bool,
    material: Option<Material>,
    u: real,
    v: real)

  /** `-dot(d, n)` is `dot(d, -n)`. */
  lemma DotNeg(d: Vec3, n: Vec3)
    ensures Dot(d, Neg(n)) == -Dot(d, n)
  {
  }

  /**
   * The orientation rule shared by `HitRecord::new` and `set_face_normal`:
   * the ray meets the front face when it travels against the outward normal,
   * and the stored normal always opposes the ray.
   */
  function FaceNormal(dir: Vec3, outward: Vec3): (r: (bool, Vec3))
    ensures r.0 <==> Dot(dir, outward) < 0.0
    ensures r.1 == outward || r.1 == Neg(outward)
    ensures r.0 ==> r.1 == outward
    ensures !r.0 ==> r.1 == Neg(outward)
  {
    var front := Dot(dir, outward) < 0.0;
    (front, if front then outward else Neg(outward))
  }

  /** The oriented normal never points along the ray. */
  lemma FaceNormalOpposesRay(dir: Vec3, outward: Vec3)
    ensures Dot(dir, FaceNormal(dir, outward).1) <= 0.0
  {
    DotNeg(dir, outward);
  }

  /**
   * `HitRecord::new`: the point and parameter as given, the normal oriented
   * by `FaceNormal`, and no material or surface coordinates yet.
   */
  function NewRecord(p: Vec3, t: real, ray: Ray, outward: Vec3): (r: HitValue)
    ensures r.p == p && r.t == t
    ensures r.frontFace <==> Dot(ray.dir, outward) < 0.0
    ensures (r.frontFace, r.normal) == FaceNormal(ray.dir, outward)
    ensures r.material == None && r.u == 0.0 && r.v == 0.0
  {
    var (front, normal) := FaceNormal(ray.dir, outward);
    HitValue(p, normal, t, front, None, 0.0, 0.0)
  }

  /** `HitRecord::empty`. */
  function EmptyValue(): HitValue {
    HitValue(Origin, Origin, 0.0, false, None, 0.0, 0.0)
  }

  class HitRecord {
    var p: Vec3
    var normal: Vec3
    var t: real
    var frontFace: bool
    var material: Option<Material>
    var u: real
    var v: real

    function Value(): HitValue
      reads this
    {
      HitValue(p, normal, t, frontFace, material, u, v)
    }

    constructor Empty()
      ensures Value() == EmptyValue()
    {
      p, normal, t, frontFace := Origin, Origin, 0.0, false;
      material, u, v := None, 0.0, 0.0;
    }

    /** `copy_from`: the geometric fields are taken from `other`; material and surface coordinates stay. */
    method CopyFrom(other: HitRecord)
      modifies this
      ensures p == old(other.p) && normal == old(other.normal)
      ensures t == old(other.t) && frontFace == old(other.frontFace)
      ensures material == old(material) && u == old(u) && v == old(v)
    {
      var op, on, ot, of := other.p, other.normal, other.t, other.frontFace;
      p := op;
      normal := on;
      t := ot;
      frontFace := of;
    }

    /** `set_face_normal`: orients the normal in place; nothing else changes. */
    method SetFaceNormal(ray: Ray, outward: Vec3)
      modifies this
      ensures (frontFace, normal) == FaceNormal(ray.dir, outward)
      ensures p == old(p) && t == old(t)
      ensures material == old(material) && u == old(u) && v == old(v)
    {
      frontFace := Dot(ray.dir, outward) < 0.0;
      normal := if frontFace then outward else Neg(outward);
    }

    /** Stores a whole record value, as returning an `Option<HitRecord>` does for the caller. */
    method Store(r: HitValue)
      modifies this
      ensures Value() == r
    {
      p, normal, t, frontFace := r.p, r.normal, r.t, r.frontFace;
      material, u, v := r.material, r.u, r.v;
    }
  }

  /** The default `Hittable::hit`: reports no intersection and leaves the record alone. */
  method DefaultHit(ray: Ray, tMin: real, tMax: real, rec: HitRecord) returns (hit: bool)
    ensures !hit
  {
    hit := false;
  }
}
