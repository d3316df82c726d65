/**
 * The per-pixel raycaster (src/camera.rs): a primary ray per pixel, its
 * intersection with each sphere and triangle of the world, diffuse shading
 * toward the point light, and the choice of the nearest hit.
 *
 * A hit is the shaded colour with the ray parameter `t` at which the ray
 * `position + t·ray` meets the surface. Floating-point conditions become their
 * real-number meaning: a non-finite `t` is a zero denominator, a "sign positive"
 * number is one that is `>= 0`, and NaN from normalising a zero vector is None.
 */
module Render {
  import opened Options
  import opened Reals
  import opened Geometry
  import opened Scene

  /** `Camera`: where it stands, its zoom in pixels per unit, and its focal length. */
  datatype Camera = Camera(transform: Transform, pxPerUnit: real, focalLength: real)

  /** `(Color, f32)`: the shaded colour of a hit and the ray parameter at which it lies. */
  datatype Hit = Hit(color: Color, t: real)

  /**
   * The primary ray through the pixel at offset `(x, y)` from the screen centre:
   * `(focal_length, -x/px_per_unit, -y/px_per_unit)` turned by the camera's rotation.
   */
  function PrimaryRay(cam: Camera, x: real, y: real): Vec3
    requires cam.pxPerUnit != 0.0
  {
    Rotate(Vec3(cam.focalLength, -x / cam.pxPerUnit, -y / cam.pxPerUnit), cam.transform.rotation)
  }

  /**
   * With the identity rotation the ray is the unrotated one, and the pixel
   * offset can be read back from it.
   */
  lemma PrimaryRayUnrotated(cam: Camera, x: real, y: real)
    requires cam.pxPerUnit != 0.0 && cam.transform.rotation == One
    ensures PrimaryRay(cam, x, y) == Vec3(cam.focalLength, -x / cam.pxPerUnit, -y / cam.pxPerUnit)
    ensures -PrimaryRay(cam, x, y).y * cam.pxPerUnit == x
    ensures -PrimaryRay(cam, x, y).z * cam.pxPerUnit == y
  {
    var v := Vec3(cam.focalLength, -x / cam.pxPerUnit, -y / cam.pxPerUnit);
    RotateByOne(v);
    NegatedQuotient(x, cam.pxPerUnit);
    NegatedQuotient(y, cam.pxPerUnit);
  }

  // ---------------------------------------------------------------- shading

  /**
   * `light_vec.dot(normal).max(0.0)` with both vectors normalised. When either
   * vector is zero the source's dot product is NaN and `f32::max` returns the
   * other operand, 0.0.
   */
  function Illumination(sqrt: real -> real, toLight: Vec3, normalDir: Vec3): (l: real)
    ensures l >= 0.0
  {
    Lambert(Normalize(sqrt, toLight), Normalize(sqrt, normalDir))
  }

  /** The cosine term on two normalised directions, 0.0 where either is NaN. */
  function Lambert(l: Option<Vec3>, n: Option<Vec3>): (c: real)
    ensures c >= 0.0
    ensures l.None? || n.None? ==> c == 0.0
  {
    match (l, n)
    case (Some(lv), Some(nv)) => Max(Dot(lv, nv), 0.0)
    case _ => 0.0
  }

  /** With an exact square root the illumination never exceeds one. */
  lemma IlluminationAtMostOne(sqrt: real -> real, toLight: Vec3, normalDir: Vec3)
    requires IsSqrt(sqrt)
    ensures Illumination(sqrt, toLight, normalDir) <= 1.0
  {
    NormalizedIsUnit(sqrt, toLight);
    NormalizedIsUnit(sqrt, normalDir);
    LambertAtMostOne(Normalize(sqrt, toLight), Normalize(sqrt, normalDir));
  }

  /** The half of `NormalizeSome` that the bound needs: what normalising returns has length one. */
  lemma NormalizedIsUnit(sqrt: real -> real, v: Vec3)
    requires IsSqrt(sqrt)
    ensures Normalize(sqrt, v).Some? ==> SqMag(Normalize(sqrt, v).value) == 1.0
  {
    NormalizeSome(sqrt, v);
  }

  lemma LambertAtMostOne(l: Option<Vec3>, n: Option<Vec3>)
    requires l.Some? ==> SqMag(l.value) == 1.0
    requires n.Some? ==> SqMag(n.value) == 1.0
    ensures Lambert(l, n) <= 1.0
  {
    if l.Some? && n.Some? {
      UnitDotBounded(l.value, n.value);
    }
  }

  /** The colour of a surface point: `color * illumination`, with the light at `light`. */
  function Shade(sqrt: real -> real, color: Color, light: Vec3, coord: Vec3, normalDir: Vec3): Color {
    ScaleColor(color, Illumination(sqrt, Sub(light, coord), normalDir))
  }

  /** Shading only darkens: no channel of a shaded colour exceeds the object's own. */
  lemma ShadeDims(sqrt: real -> real, color: Color, light: Vec3, coord: Vec3, normalDir: Vec3)
    requires IsSqrt(sqrt)
    ensures forall i :: 0 <= i < 3 ==> Get(Shade(sqrt, color, light, coord, normalDir), i) <= Get(color, i)
  {
    IlluminationAtMostOne(sqrt, Sub(light, coord), normalDir);
    ScaleDims(color, Illumination(sqrt, Sub(light, coord), normalDir));
  }

  // ---------------------------------------------------------------- sphere

  /**
   * The candidate roots `[b + √Δ, b - √Δ]` filtered to the non-negative ones and
   * reduced with `min_by`, which keeps the earlier of two equal values.
   */
  function SmallestNonNegative(xs: seq<real>): (m: Option<real>)
    ensures m.None? <==> forall i :: 0 <= i < |xs| ==> xs[i] < 0.0
    ensures m.Some? ==> m.value >= 0.0 && m.value in xs
    ensures m.Some? ==> forall i :: 0 <= i < |xs| && xs[i] >= 0.0 ==> m.value <= xs[i]
  {
    if xs == [] then None
    else
      var acc := SmallestNonNegative(xs[..|xs| - 1]);
      var x := xs[|xs| - 1];
      if x < 0.0 then acc
      else match acc
        case None => Some(x)
        case Some(y) => if y > x then Some(x) else Some(y)
  }

  /** The squared length of the ray, `ray.sq_mag()`. */
  function QuadA(ray: Vec3): real {
    SqMag(ray)
  }

  /** `ray.dot(center - position)`. */
  function QuadB(origin: Vec3, ray: Vec3, center: Vec3): real {
    Dot(ray, Sub(center, origin))
  }

  /** `(center - position).sq_mag() - r.powi(2)`. */
  function QuadC(origin: Vec3, center: Vec3, r: real): real {
    SqMag(Sub(center, origin)) - r * r
  }

  /** The discriminant `b² - a·c` of the sphere's quadratic in `t`. */
  function Discriminant(origin: Vec3, ray: Vec3, center: Vec3, r: real): real {
    var b := QuadB(origin, ray, center);
    b * b - QuadA(ray) * QuadC(origin, center, r)
  }

  /**
   * The ray parameter of `sphere_raycast`: None when the discriminant is negative
   * or both roots lie behind the camera, otherwise the nearer non-negative root
   * divided by `a`. A zero ray makes the source's `t` NaN; the model reports no
   * hit for it.
   */
  function SphereT(sqrt: real -> real, origin: Vec3, ray: Vec3, center: Vec3, r: real): Option<real> {
    var a := QuadA(ray);
    var b := QuadB(origin, ray, center);
    var disc := Discriminant(origin, ray, center, r);
    if disc < 0.0 then None else NearerRoot(a, b, sqrt(disc))
  }

  /** `t` from the candidate roots `b ± s`: the nearer non-negative one divided by `a`. */
  function NearerRoot(a: real, b: real, s: real): Option<real> {
    match SmallestNonNegative([b + s, b - s])
    case None => None
    case Some(k) => if a == 0.0 then None else Some(k / a)
  }

  /**
   * With `s >= 0` and `a >= 0`, a root is returned exactly when `a` is not zero
   * and `b + s` is not negative, and it is `(b - s) / a` when that is not
   * negative, else `(b + s) / a`.
   */
  lemma NearerRootSpec(a: real, b: real, s: real)
    requires s >= 0.0 && a >= 0.0
    ensures NearerRoot(a, b, s).Some? <==> a != 0.0 && b + s >= 0.0
    ensures NearerRoot(a, b, s).Some? ==>
      NearerRoot(a, b, s).value >= 0.0
      && NearerRoot(a, b, s).value * a == (if b - s >= 0.0 then b - s else b + s)
  {
    SmallestOfRoots(b + s, b - s);
    if a != 0.0 && b + s >= 0.0 {
      QuotientNonNegative(if b - s >= 0.0 then b - s else b + s, a);
    }
  }

  /** `sphere_raycast`: the hit at `SphereT`, shaded with the normal pointing away from the centre. */
  function SphereRaycast(sqrt: real -> real, origin: Vec3, ray: Vec3, light: Vec3,
                         center: Vec3, r: real, color: Color): Option<Hit>
  {
    match SphereT(sqrt, origin, ray, center, r)
    case None => None
    case Some(t) =>
      var coord := Add(origin, Scale(t, ray));
      Some(Hit(Shade(sqrt, color, light, coord, Sub(coord, center)), t))
  }

  /** Of two candidate roots `x >= y`, the fold picks `y` when it is not negative, else `x` if that is not. */
  lemma SmallestOfRoots(x: real, y: real)
    requires y <= x
    ensures SmallestNonNegative([x, y]) == if y >= 0.0 then Some(y) else if x >= 0.0 then Some(x) else None
  {
    assert [x, y][..1] == [x];
    assert [x][..0] == [];
  }

  /**
   * When the sphere is hit, and exactly when: the discriminant is non-negative,
   * the ray is not zero, and the larger root `b + √Δ` is not behind the camera.
   */
  lemma SphereHitIff(sqrt: real -> real, origin: Vec3, ray: Vec3, center: Vec3, r: real)
    requires IsSqrt(sqrt)
    ensures SphereT(sqrt, origin, ray, center, r).Some? <==>
      var disc := Discriminant(origin, ray, center, r);
      disc >= 0.0 && ray != Zero && QuadB(origin, ray, center) + sqrt(disc) >= 0.0
  {
    var disc := Discriminant(origin, ray, center, r);
    if disc >= 0.0 {
      NearerRootSpec(QuadA(ray), QuadB(origin, ray, center), sqrt(disc));
    }
  }

  /**
   * A returned `t` is the nearer non-negative root `(b ∓ √Δ) / a`: the smaller
   * one `b - √Δ` when it is not negative, else `b + √Δ`. It is never negative.
   */
  lemma SphereHitIsNearerRoot(sqrt: real -> real, origin: Vec3, ray: Vec3, center: Vec3, r: real)
    requires IsSqrt(sqrt)
    requires SphereT(sqrt, origin, ray, center, r).Some?
    ensures var b, s := QuadB(origin, ray, center), sqrt(Discriminant(origin, ray, center, r));
      SphereT(sqrt, origin, ray, center, r).value * QuadA(ray) == (if b - s >= 0.0 then b - s else b + s)
    ensures SphereT(sqrt, origin, ray, center, r).value >= 0.0
  {
    var disc := Discriminant(origin, ray, center, r);
    NearerRootSpec(QuadA(ray), QuadB(origin, ray, center), sqrt(disc));
  }

  /**
   * A returned `t` puts the point `position + t·ray` on the sphere: at distance
   * `r` from the centre.
   */
  lemma SphereHitOnSurface(sqrt: real -> real, origin: Vec3, ray: Vec3, center: Vec3, r: real)
    requires IsSqrt(sqrt)
    requires SphereT(sqrt, origin, ray, center, r).Some?
    ensures var t := SphereT(sqrt, origin, ray, center, r).value;
      SqMag(Sub(Add(origin, Scale(t, ray)), center)) == r * r
  {
    var a := QuadA(ray);
    var b := QuadB(origin, ray, center);
    var c := QuadC(origin, center, r);
    var disc := Discriminant(origin, ray, center, r);
    var t := SphereT(sqrt, origin, ray, center, r).value;
    SphereHitIsNearerRoot(sqrt, origin, ray, center, r);
    assert sqrt(disc) * sqrt(disc) == disc;
    QuadraticRoot(a, b, c, sqrt(disc), t);
    PointOnRay(origin, ray, center, t);
  }

  /** The squared distance from `position + t·ray` to `center`, as a quadratic in `t`. */
  lemma PointOnRay(origin: Vec3, ray: Vec3, center: Vec3, t: real)
    ensures SqMag(Sub(Add(origin, Scale(t, ray)), center))
         == Quadratic(QuadA(ray), QuadB(origin, ray, center), SqMag(Sub(center, origin)), t)
  {
    var d := Sub(center, origin);
    var p := Sub(Add(origin, Scale(t, ray)), center);
    calc {
      SqMag(p);
      p.x * p.x + p.y * p.y + p.z * p.z;
      { ComponentSquare(p.x, origin.x, ray.x, center.x, d.x, t);
        ComponentSquare(p.y, origin.y, ray.y, center.y, d.y, t);
        ComponentSquare(p.z, origin.z, ray.z, center.z, d.z, t); }
      Quadratic(ray.x * ray.x, ray.x * d.x, d.x * d.x, t) + Quadratic(ray.y * ray.y, ray.y * d.y, d.y * d.y, t)
        + Quadratic(ray.z * ray.z, ray.z * d.z, d.z * d.z, t);
      { QuadraticSum(ray.x * ray.x, ray.y * ray.y, ray.z * ray.z, ray.x * d.x, ray.y * d.y, ray.z * d.z,
                     d.x * d.x, d.y * d.y, d.z * d.z, t); }
      Quadratic(ray.x * ray.x + ray.y * ray.y + ray.z * ray.z, ray.x * d.x + ray.y * d.y + ray.z * d.z,
                d.x * d.x + d.y * d.y + d.z * d.z, t);
      Quadratic(QuadA(ray), QuadB(origin, ray, center), SqMag(d), t);
    }
  }

  /** One coordinate of `PointOnRay`. */
  lemma ComponentSquare(p: real, o: real, r: real, c: real, d: real, t: real)
    requires p == o + t * r - c && d == c - o
    ensures p * p == Quadratic(r * r, r * d, d * d, t)
  {
  }

  // ---------------------------------------------------------------- triangle

  /** The components `(a, d, g)`, `(b, e, h)`, `(c, f, i)` of the corners relative to the camera. */
  function Corners(origin: Vec3, p1: Vec3, p2: Vec3, p3: Vec3): seq<Vec3> {
    [Sub(p1, origin), Sub(p2, origin), Sub(p3, origin)]
  }

  /**
   * The three edge terms of `tri_raycast`, each the ray dotted with a row of the
   * adjugate of the corner matrix.
   */
  function EdgeTerms(origin: Vec3, ray: Vec3, p1: Vec3, p2: Vec3, p3: Vec3): seq<real> {
    var a, d, g := p1.x - origin.x, p1.y - origin.y, p1.z - origin.z;
    var b, e, h := p2.x - origin.x, p2.y - origin.y, p2.z - origin.z;
    var c, f, i := p3.x - origin.x, p3.y - origin.y, p3.z - origin.z;
    [ray.x * (e * i - f * h) + ray.y * (c * h - b * i) + ray.z * (b * f - c * e),
     ray.x * (f * g - d * i) + ray.y * (a * i - c * g) + ray.z * (c * d - a * f),
     ray.x * (d * h - e * g) + ray.y * (b * g - a * h) + ray.z * (a * e - b * d)]
  }

  /** `a(ei - fh) + b(fg - di) + c(dh - eg)`, the determinant of the corner matrix. */
  function Determinant(origin: Vec3, p1: Vec3, p2: Vec3, p3: Vec3): real {
    var a, d, g := p1.x - origin.x, p1.y - origin.y, p1.z - origin.z;
    var b, e, h := p2.x - origin.x, p2.y - origin.y, p2.z - origin.z;
    var c, f, i := p3.x - origin.x, p3.y - origin.y, p3.z - origin.z;
    a * (e * i - f * h) + b * (f * g - d * i) + c * (d * h - e * g)
  }

  /**
   * `n.is_sign_positive() ^ det_neg` for all three terms: every term is `>= 0` when
   * the determinant is, and every term is negative when the determinant is.
   */
  predicate InsideCorners(terms: seq<real>, det: real)
    requires |terms| == 3
  {
    forall k :: 0 <= k < 3 ==> (terms[k] >= 0.0) != (det < 0.0)
  }

  /** The plane's normal `(p2 - p1) × (p3 - p1)`. */
  function PlaneNormal(p1: Vec3, p2: Vec3, p3: Vec3): Vec3 {
    Cross(Sub(p2, p1), Sub(p3, p1))
  }

  /**
   * The ray parameter of `tri_raycast`: `t = -n·(position - p1) / n·ray` where the
   * ray meets the triangle's plane; None when the denominator is zero, when `t`
   * is negative, or when the ray does not pass inside the three corners.
   */
  function TriT(origin: Vec3, ray: Vec3, p1: Vec3, p2: Vec3, p3: Vec3): Option<real> {
    var n := PlaneNormal(p1, p2, p3);
    var den := Dot(n, ray);
    if den == 0.0 then None
    else
      var t := -Dot(n, Sub(origin, p1)) / den;
      if t < 0.0 then None
      else if !InsideCorners(EdgeTerms(origin, ray, p1, p2, p3), Determinant(origin, p1, p2, p3)) then None
      else Some(t)
  }

  /** `tri_raycast`: the hit at `TriT`, shaded with the plane's normal. */
  function TriRaycast(sqrt: real -> real, origin: Vec3, ray: Vec3, light: Vec3,
                      p1: Vec3, p2: Vec3, p3: Vec3, color: Color): Option<Hit>
  {
    match TriT(origin, ray, p1, p2, p3)
    case None => None
    case Some(t) =>
      var coord := Add(origin, Scale(t, ray));
      Some(Hit(Shade(sqrt, color, light, coord, PlaneNormal(p1, p2, p3)), t))
  }

  /**
   * When the triangle is hit, and exactly when: the ray is not parallel to the
   * plane, the plane is not behind the camera, and the edge test passes.
   */
  lemma TriHitIff(origin: Vec3, ray: Vec3, p1: Vec3, p2: Vec3, p3: Vec3)
    ensures var n := PlaneNormal(p1, p2, p3);
      TriT(origin, ray, p1, p2, p3).Some? <==>
        Dot(n, ray) != 0.0 && -Dot(n, Sub(origin, p1)) / Dot(n, ray) >= 0.0
        && InsideCorners(EdgeTerms(origin, ray, p1, p2, p3), Determinant(origin, p1, p2, p3))
  {
  }

  /** A returned `t` is not negative and puts `position + t·ray` in the triangle's plane. */
  lemma TriHitOnPlane(origin: Vec3, ray: Vec3, p1: Vec3, p2: Vec3, p3: Vec3)
    requires TriT(origin, ray, p1, p2, p3).Some?
    ensures var t := TriT(origin, ray, p1, p2, p3).value;
      t >= 0.0 && Dot(PlaneNormal(p1, p2, p3), Sub(Add(origin, Scale(t, ray)), p1)) == 0.0
  {
    var n := PlaneNormal(p1, p2, p3);
    var t := TriT(origin, ray, p1, p2, p3).value;
    LinearRoot(Dot(n, Sub(origin, p1)), Dot(n, ray), t);
    PointOnRayInPlane(n, origin, ray, p1, t);
  }

  lemma PointOnRayInPlane(n: Vec3, origin: Vec3, ray: Vec3, p1: Vec3, t: real)
    ensures Dot(n, Sub(Add(origin, Scale(t, ray)), p1)) == Dot(n, Sub(origin, p1)) + t * Dot(n, ray)
  {
  }

  /**
   * The edge terms and the determinant are triple products of the corners `q1, q2,
   * q3` (relative to the camera) and the ray: `n1 = ray·(q2×q3)`, `n2 = ray·(q3×q1)`,
   * `n3 = ray·(q1×q2)` and `det = q1·(q2×q3)`.
   */
  lemma EdgeTermsAreTripleProducts(origin: Vec3, ray: Vec3, p1: Vec3, p2: Vec3, p3: Vec3)
    ensures var q := Corners(origin, p1, p2, p3);
      var n := EdgeTerms(origin, ray, p1, p2, p3);
      n[0] == Dot(ray, Cross(q[1], q[2])) && n[1] == Dot(ray, Cross(q[2], q[0]))
      && n[2] == Dot(ray, Cross(q[0], q[1]))
      && Determinant(origin, p1, p2, p3) == Dot(q[0], Cross(q[1], q[2]))
  {
    var q := Corners(origin, p1, p2, p3);
    TripleProduct(ray, q[1], q[2]);
    TripleProduct(ray, q[2], q[0]);
    TripleProduct(ray, q[0], q[1]);
    TripleProduct(q[0], q[1], q[2]);
  }

  /** The triple product `r·(u×v)` written out in components. */
  lemma TripleProduct(r: Vec3, u: Vec3, v: Vec3)
    ensures Dot(r, Cross(u, v))
         == r.x * (u.y * v.z - u.z * v.y) + r.y * (u.z * v.x - u.x * v.z) + r.z * (u.x * v.y - u.y * v.x)
  {
  }

  /**
   * Cramer's rule: `n1·q1 + n2·q2 + n3·q3 = det·ray`. With the edge test passed and
   * a non-zero determinant, the weights `n_k / det` are all non-negative, so the
   * ray points into the cone the camera sees the triangle's corners in.
   */
  lemma EdgeTermsWeighCorners(origin: Vec3, ray: Vec3, p1: Vec3, p2: Vec3, p3: Vec3)
    ensures var q := Corners(origin, p1, p2, p3);
      var n := EdgeTerms(origin, ray, p1, p2, p3);
      Add(Add(Scale(n[0], q[0]), Scale(n[1], q[1])), Scale(n[2], q[2]))
        == Scale(Determinant(origin, p1, p2, p3), ray)
  {
    var q := Corners(origin, p1, p2, p3);
    var n := EdgeTerms(origin, ray, p1, p2, p3);
    var det := Determinant(origin, p1, p2, p3);
    CramerComponent(ray.x, ray.y, ray.z, q[0].x, q[0].y, q[0].z, q[1].x, q[1].y, q[1].z, q[2].x, q[2].y, q[2].z,
                    n[0], n[1], n[2], det);
    WeightedSum(n[0], n[1], n[2], q[0], q[1], q[2], ray, det);
  }

  /** Three componentwise equations make one vector equation. */
  lemma WeightedSum(n1: real, n2: real, n3: real, q1: Vec3, q2: Vec3, q3: Vec3, r: Vec3, det: real)
    requires n1 * q1.x + n2 * q2.x + n3 * q3.x == det * r.x
    requires n1 * q1.y + n2 * q2.y + n3 * q3.y == det * r.y
    requires n1 * q1.z + n2 * q2.z + n3 * q3.z == det * r.z
    ensures Add(Add(Scale(n1, q1), Scale(n2, q2)), Scale(n3, q3)) == Scale(det, r)
  {
  }

  lemma CramerComponent(rx: real, ry: real, rz: real, a: real, d: real, g: real,
                        b: real, e: real, h: real, c: real, f: real, i: real,
                        n1: real, n2: real, n3: real, det: real)
    requires n1 == rx * (e * i - f * h) + ry * (c * h - b * i) + rz * (b * f - c * e)
    requires n2 == rx * (f * g - d * i) + ry * (a * i - c * g) + rz * (c * d - a * f)
    requires n3 == rx * (d * h - e * g) + ry * (b * g - a * h) + rz * (a * e - b * d)
    requires det == a * (e * i - f * h) + b * (f * g - d * i) + c * (d * h - e * g)
    ensures n1 * a + n2 * b + n3 * c == det * rx
    ensures n1 * d + n2 * e + n3 * f == det * ry
    ensures n1 * g + n2 * h + n3 * i == det * rz
  {
  }

  /** A hit passed the edge test, so the weights of Cramer's rule share the determinant's sign. */
  lemma TriHitWeightsAgree(origin: Vec3, ray: Vec3, p1: Vec3, p2: Vec3, p3: Vec3)
    requires TriT(origin, ray, p1, p2, p3).Some?
    ensures var n := EdgeTerms(origin, ray, p1, p2, p3);
      var det := Determinant(origin, p1, p2, p3);
      (det >= 0.0 && n[0] >= 0.0 && n[1] >= 0.0 && n[2] >= 0.0)
      || (det < 0.0 && n[0] < 0.0 && n[1] < 0.0 && n[2] < 0.0)
  {
    var n := EdgeTerms(origin, ray, p1, p2, p3);
    var det := Determinant(origin, p1, p2, p3);
    assert InsideCorners(n, det);
    assert (n[0] >= 0.0) != (det < 0.0);
    assert (n[1] >= 0.0) != (det < 0.0);
    assert (n[2] >= 0.0) != (det < 0.0);
  }

  /**
   * A hit lies inside the triangle: with `den = n·ray` and the edge terms `w`,
   * the weights `w[k] / den` are non-negative, sum to one, and weigh the corners
   * to the hit point `position + t·ray`.
   */
  lemma TriHitInside(origin: Vec3, ray: Vec3, p1: Vec3, p2: Vec3, p3: Vec3)
    requires TriT(origin, ray, p1, p2, p3).Some?
    ensures var den := Dot(PlaneNormal(p1, p2, p3), ray);
      var w := EdgeTerms(origin, ray, p1, p2, p3);
      var t := TriT(origin, ray, p1, p2, p3).value;
      && den != 0.0
      && w[0] / den >= 0.0 && w[1] / den >= 0.0 && w[2] / den >= 0.0
      && w[0] / den + w[1] / den + w[2] / den == 1.0
      && Add(origin, Scale(t, ray))
         == Add(Add(Scale(w[0] / den, p1), Scale(w[1] / den, p2)), Scale(w[2] / den, p3))
  {
    var n := PlaneNormal(p1, p2, p3);
    var den := Dot(n, ray);
    var w := EdgeTerms(origin, ray, p1, p2, p3);
    var det := Determinant(origin, p1, p2, p3);
    var t := TriT(origin, ray, p1, p2, p3).value;
    EdgeTermsSumToDenominator(origin, ray, p1, p2, p3);
    TriHitWeightsAgree(origin, ray, p1, p2, p3);
    EdgeTermsWeighCorners(origin, ray, p1, p2, p3);
    assert t == det / den;
    CramerAxes(origin, ray, p1, p2, p3, w[0], w[1], w[2], det);
    BarycentricWeights(w[0], w[1], w[2], den, det);
    BarycentricPoint(origin, ray, p1, p2, p3, w[0], w[1], w[2], den, det, t);
  }

  /** Weights of one sign class divided by their non-zero sum are non-negative and add up to one. */
  lemma BarycentricWeights(w0: real, w1: real, w2: real, den: real, det: real)
    requires den != 0.0 && den == w0 + w1 + w2
    requires (det >= 0.0 && w0 >= 0.0 && w1 >= 0.0 && w2 >= 0.0) || (det < 0.0 && w0 < 0.0 && w1 < 0.0 && w2 < 0.0)
    ensures w0 / den >= 0.0 && w1 / den >= 0.0 && w2 / den >= 0.0
    ensures w0 / den + w1 / den + w2 / den == 1.0
  {
    SameSignQuotient(w0, den);
    SameSignQuotient(w1, den);
    SameSignQuotient(w2, den);
    QuotientsSum(w0, w1, w2, den);
  }

  /**
   * Weights that sum to `den` and satisfy Cramer's rule put `position + (det / den)·ray`
   * at their weighted mean of the corners.
   */
  lemma BarycentricPoint(origin: Vec3, ray: Vec3, p1: Vec3, p2: Vec3, p3: Vec3,
                         w0: real, w1: real, w2: real, den: real, det: real, t: real)
    requires den != 0.0 && den == w0 + w1 + w2 && t == det / den
    requires CramerAxis(w0, w1, w2, p1.x - origin.x, p2.x - origin.x, p3.x - origin.x, det, ray.x)
    requires CramerAxis(w0, w1, w2, p1.y - origin.y, p2.y - origin.y, p3.y - origin.y, det, ray.y)
    requires CramerAxis(w0, w1, w2, p1.z - origin.z, p2.z - origin.z, p3.z - origin.z, det, ray.z)
    ensures Add(origin, Scale(t, ray)) == Add(Add(Scale(w0 / den, p1), Scale(w1 / den, p2)), Scale(w2 / den, p3))
  {
    BarycentricComponent(origin.x, ray.x, t, den, det, w0, w1, w2, p1.x, p2.x, p3.x);
    BarycentricComponent(origin.y, ray.y, t, den, det, w0, w1, w2, p1.y, p2.y, p3.y);
    BarycentricComponent(origin.z, ray.z, t, den, det, w0, w1, w2, p1.z, p2.z, p3.z);
    PointFromComponents(origin, ray, t, p1, p2, p3, w0 / den, w1 / den, w2 / den);
  }

  /** The vector equation `position + t·ray = l0·p1 + l1·p2 + l2·p3` from its three components. */
  lemma PointFromComponents(origin: Vec3, ray: Vec3, t: real, p1: Vec3, p2: Vec3, p3: Vec3,
                            l0: real, l1: real, l2: real)
    requires OnAxis(origin.x, ray.x, t, l0, l1, l2, p1.x, p2.x, p3.x)
    requires OnAxis(origin.y, ray.y, t, l0, l1, l2, p1.y, p2.y, p3.y)
    requires OnAxis(origin.z, ray.z, t, l0, l1, l2, p1.z, p2.z, p3.z)
    ensures Add(origin, Scale(t, ray)) == Add(Add(Scale(l0, p1), Scale(l1, p2)), Scale(l2, p3))
  {
  }

  /** Cramer's rule on the corners, read off one axis at a time. */
  lemma CramerAxes(origin: Vec3, ray: Vec3, p1: Vec3, p2: Vec3, p3: Vec3, w0: real, w1: real, w2: real, det: real)
    requires Add(Add(Scale(w0, Sub(p1, origin)), Scale(w1, Sub(p2, origin))), Scale(w2, Sub(p3, origin)))
          == Scale(det, ray)
    ensures CramerAxis(w0, w1, w2, p1.x - origin.x, p2.x - origin.x, p3.x - origin.x, det, ray.x)
    ensures CramerAxis(w0, w1, w2, p1.y - origin.y, p2.y - origin.y, p3.y - origin.y, det, ray.y)
    ensures CramerAxis(w0, w1, w2, p1.z - origin.z, p2.z - origin.z, p3.z - origin.z, det, ray.z)
  {
  }

  /** Cramer's rule along one axis: the weights carry the corners' offsets `d0, d1, d2` to `det·r`. */
  predicate CramerAxis(w0: real, w1: real, w2: real, d0: real, d1: real, d2: real, det: real, r: real) {
    w0 * d0 + w1 * d1 + w2 * d2 == det * r
  }

  /** Along one axis, `o + t·r` is the weighted sum of the corners. */
  predicate OnAxis(o: real, r: real, t: real, l0: real, l1: real, l2: real, x0: real, x1: real, x2: real) {
    o + t * r == l0 * x0 + l1 * x1 + l2 * x2
  }

  /**
   * The edge terms add up to the denominator `n·ray`, and the determinant is the
   * numerator `-n·(position - p1)`.
   */
  lemma EdgeTermsSumToDenominator(origin: Vec3, ray: Vec3, p1: Vec3, p2: Vec3, p3: Vec3)
    ensures var n := PlaneNormal(p1, p2, p3);
      var w := EdgeTerms(origin, ray, p1, p2, p3);
      w[0] + w[1] + w[2] == Dot(n, ray) && Determinant(origin, p1, p2, p3) == -Dot(n, Sub(origin, p1))
  {
    var q := Corners(origin, p1, p2, p3);
    var x, y, z := Cross(q[1], q[2]), Cross(q[2], q[0]), Cross(q[0], q[1]);
    EdgeTermsAreTripleProducts(origin, ray, p1, p2, p3);
    assert Sub(p2, p1) == Sub(q[1], q[0]) && Sub(p3, p1) == Sub(q[2], q[0]);
    NormalOfCorners(q[0], q[1], q[2]);
    assert Sub(origin, p1) == Neg(q[0]);
    DotOfSum(x, y, z, ray);
    DotOfSum(x, y, z, q[0]);
    VecAlgebra(q[0], x, Zero, 0.0);
    CrossOrthogonal(q[2], q[0]);
    CrossOrthogonal(q[0], q[1]);
  }

  /** The plane normal expands into the sum of the corners' pairwise cross products. */
  lemma NormalOfCorners(q1: Vec3, q2: Vec3, q3: Vec3)
    ensures Cross(Sub(q2, q1), Sub(q3, q1)) == Add(Add(Cross(q2, q3), Cross(q3, q1)), Cross(q1, q2))
  {
    SumOfCrosses(q1, q2, q3, Cross(Sub(q2, q1), Sub(q3, q1)), Cross(q2, q3), Cross(q3, q1), Cross(q1, q2));
  }

  /** `NormalOfCorners` with the four cross products written out in components. */
  lemma SumOfCrosses(q1: Vec3, q2: Vec3, q3: Vec3, n: Vec3, x: Vec3, y: Vec3, z: Vec3)
    requires n == Vec3((q2.y - q1.y) * (q3.z - q1.z) - (q2.z - q1.z) * (q3.y - q1.y),
                       (q2.z - q1.z) * (q3.x - q1.x) - (q2.x - q1.x) * (q3.z - q1.z),
                       (q2.x - q1.x) * (q3.y - q1.y) - (q2.y - q1.y) * (q3.x - q1.x))
    requires x == Vec3(q2.y * q3.z - q2.z * q3.y, q2.z * q3.x - q2.x * q3.z, q2.x * q3.y - q2.y * q3.x)
    requires y == Vec3(q3.y * q1.z - q3.z * q1.y, q3.z * q1.x - q3.x * q1.z, q3.x * q1.y - q3.y * q1.x)
    requires z == Vec3(q1.y * q2.z - q1.z * q2.y, q1.z * q2.x - q1.x * q2.z, q1.x * q2.y - q1.y * q2.x)
    ensures n == Add(Add(x, y), z)
  {
  }

  /** Dotting a sum of three vectors with `r`, and with `-r`. */
  lemma DotOfSum(x: Vec3, y: Vec3, z: Vec3, r: Vec3)
    ensures Dot(Add(Add(x, y), z), r) == Dot(r, x) + Dot(r, y) + Dot(r, z)
    ensures Dot(Add(Add(x, y), z), Neg(r)) == -(Dot(x, r) + Dot(y, r) + Dot(z, r))
  {
  }

  /** A quotient of two numbers of the same sign class is not negative. */
  lemma SameSignQuotient(w: real, den: real)
    requires (w >= 0.0 && den > 0.0) || (w < 0.0 && den < 0.0)
    ensures w / den >= 0.0
  {
    if w < 0.0 {
      QuotientNonNegative(-w, -den);
      assert w / den == (-w) / (-den);
    } else {
      QuotientNonNegative(w, den);
    }
  }

  /** Three numbers divided by their non-zero sum add up to one. */
  lemma QuotientsSum(w0: real, w1: real, w2: real, den: real)
    requires den != 0.0 && den == w0 + w1 + w2
    ensures w0 / den + w1 / den + w2 / den == 1.0
  {
    assert w0 / den + w1 / den + w2 / den == (w0 + w1 + w2) / den;
  }

  /**
   * One coordinate of `TriHitInside`: when `Σ w_k·(x_k - o) = det·r`, `Σ w_k = den`
   * and `t = det / den`, the point `o + t·r` is `Σ (w_k / den)·x_k`.
   */
  lemma BarycentricComponent(o: real, r: real, t: real, den: real, det: real,
                             w0: real, w1: real, w2: real, x0: real, x1: real, x2: real)
    requires den != 0.0 && den == w0 + w1 + w2
    requires CramerAxis(w0, w1, w2, x0 - o, x1 - o, x2 - o, det, r)
    requires t == det / den
    ensures OnAxis(o, r, t, w0 / den, w1 / den, w2 / den, x0, x1, x2)
  {
    var s := 1.0 / den;
    assert s * den == 1.0;
    calc {
      o + t * r;
      o + s * (det * r);
      o + s * (w0 * (x0 - o) + w1 * (x1 - o) + w2 * (x2 - o));
      (s * w0) * x0 + (s * w1) * x1 + (s * w2) * x2 + (1.0 - s * den) * o;
      (w0 / den) * x0 + (w1 / den) * x1 + (w2 / den) * x2;
    }
  }

  // ---------------------------------------------------------------- get_px

  /** `raycast`: dispatch on the object's variant, from the camera's position. */
  function Raycast(sqrt: real -> real, cam: Camera, ray: Vec3, light: Vec3, o: Object): Option<Hit> {
    match o
    case Sphere(center, r, color) => SphereRaycast(sqrt, cam.transform.position, ray, light, center, r, color)
    case Triangle(p1, p2, p3, color) => TriRaycast(sqrt, cam.transform.position, ray, light, p1, p2, p3, color)
  }

  /**
   * Every hit `raycast` reports lies in front of the camera, and its colour is
   * the object's own colour darkened by the light, never brightened.
   */
  lemma RaycastHit(sqrt: real -> real, cam: Camera, ray: Vec3, light: Vec3, o: Object)
    requires IsSqrt(sqrt)
    requires Raycast(sqrt, cam, ray, light, o).Some?
    ensures Raycast(sqrt, cam, ray, light, o).value.t >= 0.0
    ensures forall i :: 0 <= i < 3 ==>
      Get(Raycast(sqrt, cam, ray, light, o).value.color, i) <= Get(GetColor(o), i)
  {
    var origin := cam.transform.position;
    match o
    case Sphere(center, r, color) =>
      var t := SphereT(sqrt, origin, ray, center, r).value;
      var coord := Add(origin, Scale(t, ray));
      SphereHitIsNearerRoot(sqrt, origin, ray, center, r);
      ShadeDims(sqrt, color, light, coord, Sub(coord, center));
    case Triangle(p1, p2, p3, color) =>
      var t := TriT(origin, ray, p1, p2, p3).value;
      TriHitOnPlane(origin, ray, p1, p2, p3);
      ShadeDims(sqrt, color, light, Add(origin, Scale(t, ray)), PlaneNormal(p1, p2, p3));
  }

  /** The result of `raycast` for every object, in scene order. */
  function Hits(sqrt: real -> real, cam: Camera, world: World, ray: Vec3): (hs: seq<Option<Hit>>)
    ensures |hs| == |world.objects|
    ensures forall i :: 0 <= i < |hs| ==> hs[i] == Raycast(sqrt, cam, ray, world.light, world.objects[i])
  {
    seq(|world.objects|, i requires 0 <= i < |world.objects| => Raycast(sqrt, cam, ray, world.light, world.objects[i]))
  }

  /**
   * Hit `k` is the one `min_by` selects: it has the least `t` of all hits, and
   * every earlier hit has a strictly greater `t`.
   */
  ghost predicate IsNearest(hits: seq<Option<Hit>>, k: int) {
    && 0 <= k < |hits| && hits[k].Some?
    && (forall j :: 0 <= j < |hits| && hits[j].Some? ==> hits[k].value.t <= hits[j].value.t)
    && (forall j :: 0 <= j < k && hits[j].Some? ==> hits[k].value.t < hits[j].value.t)
  }

  /**
   * `filter_map(..).min_by(total_cmp)`: a left fold over the hits that keeps the
   * one found so far unless the next has a strictly smaller `t`. The model
   * returns the position of the kept hit.
   */
  function NearestIndex(hits: seq<Option<Hit>>): (r: Option<nat>)
    ensures r.None? <==> forall i :: 0 <= i < |hits| ==> hits[i].None?
    ensures r.Some? ==> IsNearest(hits, r.value)
  {
    if hits == [] then None
    else
      var last := |hits| - 1;
      var acc := NearestIndex(hits[..last]);
      assert forall i :: 0 <= i < last ==> hits[..last][i] == hits[i];
      if hits[last].None? then
        if acc.Some? then NearestStep(hits, acc.value); acc else acc
      else
        match acc
        case None => NearestFirst(hits); Some(last)
        case Some(k) =>
          NearestStep(hits, k);
          if hits[k].value.t > hits[last].value.t then Some(last) else Some(k)
  }

  /** A new last hit is the nearest exactly when it is strictly nearer than the nearest before it. */
  lemma NearestStep(hits: seq<Option<Hit>>, k: int)
    requires |hits| > 0 && IsNearest(hits[..|hits| - 1], k)
    ensures var x := hits[|hits| - 1];
      if x.Some? && hits[k].value.t > x.value.t then IsNearest(hits, |hits| - 1) else IsNearest(hits, k)
  {
    var front := hits[..|hits| - 1];
    assert forall i :: 0 <= i < |front| ==> front[i] == hits[i];
  }

  /** The first hit after a run of misses is the nearest so far. */
  lemma NearestFirst(hits: seq<Option<Hit>>)
    requires |hits| > 0 && hits[|hits| - 1].Some?
    requires forall i :: 0 <= i < |hits| - 1 ==> hits[i].None?
    ensures IsNearest(hits, |hits| - 1)
  {
  }

  /** At most one hit is the nearest one. */
  lemma NearestUnique(hits: seq<Option<Hit>>, k1: int, k2: int)
    requires IsNearest(hits, k1) && IsNearest(hits, k2)
    ensures k1 == k2
  {
  }

  /**
   * `get_px`: the colour of the nearest hit along the pixel's primary ray, or
   * black when no object is hit.
   */
  function GetPx(sqrt: real -> real, cam: Camera, world: World, x: real, y: real): (c: Color)
    requires cam.pxPerUnit != 0.0
    ensures var hits := Hits(sqrt, cam, world, PrimaryRay(cam, x, y));
      (forall i :: 0 <= i < |hits| ==> hits[i].None?) ==> c == Black
    ensures var hits := Hits(sqrt, cam, world, PrimaryRay(cam, x, y));
      forall k :: IsNearest(hits, k) ==> c == hits[k].value.color
  {
    var hits := Hits(sqrt, cam, world, PrimaryRay(cam, x, y));
    match NearestIndex(hits)
    case None => Black
    case Some(k) =>
      assert forall j :: IsNearest(hits, j) ==> j == k by {
        forall j | IsNearest(hits, j)
          ensures j == k
        {
          NearestUnique(hits, j, k);
        }
      }
      hits[k].value.color
  }
}
