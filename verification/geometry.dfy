/**
 * Vectors and quaternions (src/math.rs), over the reals.
 *
 * Every operator of the source is one constructor expression; here each is a
 * function, and what the source relies on it for (inverse operations, the
 * Hamilton product, conjugation, rotation by a unit quaternion) is stated in
 * contracts and lemmas. The compound assignments `+=`, `-=` and `*=` only rebind
 * a variable to the result of `+`, `-` and `*`, so they are the same functions.
 */
module Geometry {
  import opened Reals
  import opened Options

  datatype Vec3 = Vec3(x: real, y: real, z: real)

  /** A quaternion `r + i·i + j·j + k·k`. */
  datatype Quat = Quat(r: real, i: real, j: real, k: real)

  /** `Vec3::default()`. */
  const Zero := Vec3(0.0, 0.0, 0.0)
  const I := Vec3(1.0, 0.0, 0.0)
  const J := Vec3(0.0, 1.0, 0.0)
  const K := Vec3(0.0, 0.0, 1.0)

  /** `Quat::default()`. */
  const QZero := Quat(0.0, 0.0, 0.0, 0.0)
  /** `Quat::ONE`, the identity rotation. */
  const One := Quat(1.0, 0.0, 0.0, 0.0)

  // ---------------------------------------------------------------- Vec3

  function Add(a: Vec3, b: Vec3): Vec3 {
    Vec3(a.x + b.x, a.y + b.y, a.z + b.z)
  }

  function Sub(a: Vec3, b: Vec3): Vec3 {
    Vec3(a.x - b.x, a.y - b.y, a.z - b.z)
  }

  function Neg(a: Vec3): Vec3 {
    Vec3(-a.x, -a.y, -a.z)
  }

  /** `f32 * Vec3`, and `Vec3 * f32`, which the source defines as the same product. */
  function Scale(s: real, v: Vec3): Vec3 {
    Vec3(s * v.x, s * v.y, s * v.z)
  }

  /** `Vec3 / f32`; dividing by zero is left to the callers, which rule it out. */
  function Div(v: Vec3, s: real): Vec3
    requires s != 0.0
  {
    Vec3(v.x / s, v.y / s, v.z / s)
  }

  function Dot(a: Vec3, b: Vec3): real {
    a.x * b.x + a.y * b.y + a.z * b.z
  }

  /** `Vec3::sq_mag`, the dot product of a vector with itself. */
  function SqMag(v: Vec3): (m: real)
    ensures m >= 0.0
    ensures m == 0.0 <==> v == Zero
  {
    DotSelfSign(v, v);
    Dot(v, v)
  }

  /** `Vec3::mag`: with an exact square root, a non-negative number whose square is SqMag. */
  function Mag(sqrt: real -> real, v: Vec3): (m: real)
    ensures IsSqrt(sqrt) ==> m >= 0.0 && m * m == SqMag(v)
  {
    sqrt(SqMag(v))
  }

  /**
   * `Vec3::normalize`, `v / v.mag()`. Dividing by a zero magnitude yields NaN
   * components in the source; the model reports that case as None.
   */
  function Normalize(sqrt: real -> real, v: Vec3): Option<Vec3> {
    var m := Mag(sqrt, v);
    if m == 0.0 then None else Some(Div(v, m))
  }

  /**
   * `Vec3::cross`: the vector part of the product of two pure quaternions, which
   * has the familiar components of the cross product.
   */
  function Cross(a: Vec3, b: Vec3): (c: Vec3)
    ensures c == Vec3(a.y * b.z - a.z * b.y, a.z * b.x - a.x * b.z, a.x * b.y - a.y * b.x)
  {
    ToVec(VecMulQuat(a, FromVec(b)))
  }

  /** `impl Sum for Vec3`: a left fold of `+` starting from the zero vector. */
  function Sum(vs: seq<Vec3>): Vec3
  {
    if vs == [] then Zero else Add(Sum(vs[..|vs| - 1]), vs[|vs| - 1])
  }

  // ---------------------------------------------------------------- Quat

  function QAdd(p: Quat, q: Quat): Quat {
    Quat(p.r + q.r, p.i + q.i, p.j + q.j, p.k + q.k)
  }

  function QSub(p: Quat, q: Quat): Quat {
    Quat(p.r - q.r, p.i - q.i, p.j - q.j, p.k - q.k)
  }

  function QNeg(q: Quat): Quat {
    Quat(-q.r, -q.i, -q.j, -q.k)
  }

  /** `Quat::from(f32)`: a real quaternion, whose vector part is zero. */
  function FromScalar(s: real): (q: Quat)
    ensures ToVec(q) == Zero && q.r == s
  {
    Quat(s, 0.0, 0.0, 0.0)
  }

  /** `Quat::from(Vec3)`: a pure quaternion, undone by ToVec. */
  function FromVec(v: Vec3): (q: Quat)
    ensures ToVec(q) == v && q.r == 0.0
  {
    Quat(0.0, v.x, v.y, v.z)
  }

  /** `Vec3::from(Quat)`: the vector part, dropping the real part. */
  function ToVec(q: Quat): Vec3 {
    Vec3(q.i, q.j, q.k)
  }

  /** `Quat + f32` and `f32 + Quat`: adds the scalar to the real part only. */
  function QAddScalar(q: Quat, s: real): (p: Quat)
    ensures ToVec(p) == ToVec(q) && p.r == q.r + s
  {
    QAdd(q, FromScalar(s))
  }

  /** `Vec3 + f32` and `f32 + Vec3`: the quaternion with real part `s` and vector part `v`. */
  function VecAddScalar(v: Vec3, s: real): (q: Quat)
    ensures ToVec(q) == v && q.r == s
  {
    QAddScalar(FromVec(v), s)
  }

  /** `Quat * Quat`, the Hamilton product. */
  function Mul(p: Quat, q: Quat): Quat {
    Quat(p.r * q.r - p.i * q.i - p.j * q.j - p.k * q.k,
         p.r * q.i + p.i * q.r + p.j * q.k - p.k * q.j,
         p.r * q.j - p.i * q.k + p.j * q.r + p.k * q.i,
         p.r * q.k + p.i * q.j - p.j * q.i + p.k * q.r)
  }

  /** `Quat * f32` and `f32 * Quat`. */
  function QScale(q: Quat, s: real): Quat {
    Quat(q.r * s, q.i * s, q.j * s, q.k * s)
  }

  /** `Quat * Vec3`: the product with the pure quaternion of `v`. */
  function QuatMulVec(q: Quat, v: Vec3): Quat {
    Mul(q, FromVec(v))
  }

  /** `Vec3 * Quat`: the product of the pure quaternion of `v` with `q`. */
  function VecMulQuat(v: Vec3, q: Quat): Quat {
    Mul(FromVec(v), q)
  }

  /** `Quat::conj`: negates the vector part. */
  function Conj(q: Quat): Quat {
    Quat(q.r, -q.i, -q.j, -q.k)
  }

  /** The four-dimensional dot product of the components of two quaternions. */
  function QDot(p: Quat, q: Quat): real {
    p.r * q.r + p.i * q.i + p.j * q.j + p.k * q.k
  }

  /** `Quat::sq_mag`, the sum of the squares of the four components. */
  function QSqMag(q: Quat): (m: real)
    ensures m >= 0.0
    ensures m == 0.0 <==> q == QZero
  {
    QuatSelfSign(q, q);
    QDot(q, q)
  }

  /** `Quat::mag`. */
  function QMag(sqrt: real -> real, q: Quat): (m: real)
    ensures IsSqrt(sqrt) ==> m >= 0.0 && m * m == QSqMag(q)
  {
    sqrt(QSqMag(q))
  }

  /**
   * `Quat::rotation(axis, angle)`: `cos(angle/2) + axis * sin(angle/2)`. The
   * trigonometric functions are parameters; with a unit axis the result is a unit
   * quaternion.
   */
  function Rotation(cos: real -> real, sin: real -> real, axis: Vec3, angle: real): (q: Quat)
    ensures q.r == cos(angle / 2.0) && ToVec(q) == Scale(sin(angle / 2.0), axis)
    ensures IsUnitCircle(cos, sin) && SqMag(axis) == 1.0 ==> QSqMag(q) == 1.0
  {
    var half := angle / 2.0;
    var q := VecAddScalar(Scale(sin(half), axis), cos(half));
    ScaledSqMag(sin(half), axis);
    q
  }

  /**
   * `Vec3::rotate`: the identity rotation passes `v` through untouched; any other
   * `q` gives the vector part of `q * v * conj(q)`.
   */
  function Rotate(v: Vec3, q: Quat): Vec3 {
    if q == One then v else ToVec(Mul(QuatMulVec(q, v), Conj(q)))
  }

  // ---------------------------------------------------------------- lemmas

  /**
   * The sign of a sum of squares. The two arguments are the same vector under two
   * names, so that each product is seen as a product of two factors.
   */
  lemma DotSelfSign(u: Vec3, w: Vec3)
    requires u == w
    ensures Dot(u, w) >= 0.0
    ensures u != Zero ==> Dot(u, w) > 0.0
  {
    var ax, ay, az := u.x * w.x, u.y * w.y, u.z * w.z;
    ProductOfEqualNonNegative(u.x, w.x);
    ProductOfEqualNonNegative(u.y, w.y);
    ProductOfEqualNonNegative(u.z, w.z);
    if u != Zero {
      if u.x != 0.0 {
        ProductOfEqualPositive(u.x, w.x);
      } else if u.y != 0.0 {
        ProductOfEqualPositive(u.y, w.y);
      } else {
        ProductOfEqualPositive(u.z, w.z);
      }
      SumPositive(ax, ay, az, 0.0);
    }
  }

  lemma QuatSelfSign(p: Quat, q: Quat)
    requires p == q
    ensures QDot(p, q) >= 0.0
    ensures p != QZero ==> QDot(p, q) > 0.0
  {
    var ar, ai, aj, ak := p.r * q.r, p.i * q.i, p.j * q.j, p.k * q.k;
    ProductOfEqualNonNegative(p.r, q.r);
    ProductOfEqualNonNegative(p.i, q.i);
    ProductOfEqualNonNegative(p.j, q.j);
    ProductOfEqualNonNegative(p.k, q.k);
    if p != QZero {
      if p.r != 0.0 {
        ProductOfEqualPositive(p.r, q.r);
      } else if p.i != 0.0 {
        ProductOfEqualPositive(p.i, q.i);
      } else if p.j != 0.0 {
        ProductOfEqualPositive(p.j, q.j);
      } else {
        ProductOfEqualPositive(p.k, q.k);
      }
      SumPositive(ar, ai, aj, ak);
    }
  }

  lemma ScaledSqMag(s: real, v: Vec3)
    ensures SqMag(Scale(s, v)) == s * s * SqMag(v)
  {
  }

  /** With an exact square root, Normalize fails on the zero vector ... */
  lemma NormalizeZero(sqrt: real -> real)
    requires IsSqrt(sqrt)
    ensures Normalize(sqrt, Zero) == None
  {
    SqrtOfSquare(sqrt, 0.0);
    assert SqMag(Zero) == 0.0;
  }

  /** ... and on no other vector, which it maps to a vector of length one. */
  lemma NormalizeUnit(sqrt: real -> real, v: Vec3)
    requires IsSqrt(sqrt) && v != Zero
    ensures Normalize(sqrt, v).Some?
    ensures SqMag(Normalize(sqrt, v).value) == 1.0
  {
    var m := Mag(sqrt, v);
    SqrtPositive(sqrt, SqMag(v));
    assert Normalize(sqrt, v) == Some(Div(v, m));
    DivUnit(v, m);
  }

  /**
   * With an exact square root, normalising succeeds exactly on the non-zero
   * vectors, and what it returns has length one.
   */
  lemma NormalizeSome(sqrt: real -> real, v: Vec3)
    requires IsSqrt(sqrt)
    ensures v == Zero ==> Normalize(sqrt, v) == None
    ensures v != Zero ==> Normalize(sqrt, v).Some? && SqMag(Normalize(sqrt, v).value) == 1.0
  {
    if v == Zero {
      NormalizeZero(sqrt);
    } else {
      NormalizeUnit(sqrt, v);
    }
  }

  /** Dividing a vector by its magnitude leaves a vector of squared magnitude one. */
  lemma DivUnit(v: Vec3, m: real)
    requires m != 0.0 && m * m == SqMag(v)
    ensures SqMag(Div(v, m)) == 1.0
  {
    var s := 1.0 / m;
    assert s * m == 1.0;
    assert Div(v, m) == Scale(s, v);
    ScaledSqMag(s, v);
    assert s * s * (m * m) == (s * m) * (s * m);
  }

  /** Each componentwise operator is undone by its partner. */
  lemma VecInverses(a: Vec3, b: Vec3, s: real)
    ensures Sub(Add(a, b), b) == a
    ensures Add(Sub(a, b), b) == a
    ensures Sub(a, b) == Zero <==> a == b
    ensures Add(a, Neg(a)) == Zero && Neg(Neg(a)) == a
    ensures Sub(a, b) == Add(a, Neg(b))
    ensures s != 0.0 ==> Div(Scale(s, a), s) == a && Scale(s, Div(a, s)) == a
  {
  }

  lemma VecAlgebra(a: Vec3, b: Vec3, c: Vec3, s: real)
    ensures Add(a, b) == Add(b, a)
    ensures Add(Add(a, b), c) == Add(a, Add(b, c))
    ensures Add(a, Zero) == a
    ensures Dot(a, b) == Dot(b, a)
    ensures Dot(Add(a, b), c) == Dot(a, c) + Dot(b, c)
    ensures Dot(Scale(s, a), b) == s * Dot(a, b)
  {
  }

  /** The quaternion `+`, `-` and negation are undone by their partners. */
  lemma QuatInverses(p: Quat, q: Quat)
    ensures QSub(QAdd(p, q), q) == p
    ensures QSub(p, q) == QZero <==> p == q
    ensures QAdd(p, QNeg(p)) == QZero && QNeg(QNeg(p)) == p
  {
  }

  /** The cross product is perpendicular to both its operands. */
  lemma CrossOrthogonal(a: Vec3, b: Vec3)
    ensures Dot(Cross(a, b), a) == 0.0 && Dot(Cross(a, b), b) == 0.0
  {
  }

  /** `Vec3::sq_mag` is `dot(v, v)`, and `(1, 2, 3)` has squared magnitude 14. */
  lemma SqMagExample()
    ensures SqMag(Vec3(1.0, 2.0, 3.0)) == 14.0
  {
  }

  /** `Quat::sq_mag` of `(1, 2, 3, 4)` is 30. */
  lemma QSqMagExample()
    ensures QSqMag(Quat(1.0, 2.0, 3.0, 4.0)) == 30.0
  {
  }

  /** The componentwise operators on the values of the source's unit tests. */
  lemma VecOperatorExamples()
    ensures Add(Vec3(0.5, 0.5, 1.0), Vec3(1.5, 1.0, 2.0)) == Vec3(2.0, 1.5, 3.0)
    ensures Sub(Vec3(1.0, 3.0, 1.0), Vec3(0.5, 1.2, 1.5)) == Vec3(0.5, 1.8, -0.5)
    ensures Neg(Vec3(1.0, 2.0, 3.0)) == Vec3(-1.0, -2.0, -3.0)
    ensures Scale(10.0, Vec3(1.0, 2.0, 3.0)) == Vec3(10.0, 20.0, 30.0)
    ensures VecAddScalar(Vec3(1.0, 1.0, 2.0), 2.0) == Quat(2.0, 1.0, 1.0, 2.0)
  {
  }

  /** The quaternion operators on the values of the source's unit tests. */
  lemma QuatOperatorExamples()
    ensures QAdd(Quat(1.0, 1.0, 1.0, 1.0), Quat(0.5, 1.0, 0.5, 1.0)) == Quat(1.5, 2.0, 1.5, 2.0)
    ensures QAddScalar(Quat(1.0, 0.5, 1.0, 2.0), 10.0) == Quat(11.0, 0.5, 1.0, 2.0)
    ensures QSub(Quat(1.0, 1.0, 1.0, 1.0), Quat(0.5, 1.0, 0.5, 1.0)) == Quat(0.5, 0.0, 0.5, 0.0)
    ensures QNeg(Quat(1.0, 1.0, 1.0, 1.0)) == Quat(-1.0, -1.0, -1.0, -1.0)
    ensures QScale(Quat(0.5, 1.0, 0.5, 1.0), 2.0) == Quat(1.0, 2.0, 1.0, 2.0)
  {
  }

  /** The Hamilton product on the values of the source's unit tests. */
  lemma HamiltonExamples()
    ensures Mul(Quat(1.0, 1.0, 1.0, 1.0), Quat(0.5, 1.0, 0.5, 1.0)) == Quat(-2.0, 2.0, 1.0, 1.0)
    ensures VecMulQuat(Vec3(1.0, 2.0, 3.0), Quat(1.0, 0.5, 2.0, 1.5)) == Quat(-9.0, -2.0, 2.0, 4.0)
  {
  }

  /** `Quat::from(Vec3)` then `Vec3::from(Quat)` is the identity, and the converse holds for pure quaternions. */
  lemma PureRoundTrip(v: Vec3, q: Quat)
    ensures ToVec(FromVec(v)) == v
    ensures FromVec(ToVec(q)) == q <==> q.r == 0.0
  {
  }

  /**
   * The product of two pure quaternions is `-a·b + a×b`: its real part is minus
   * the dot product and its vector part is Cross.
   */
  lemma CrossIsVectorPart(a: Vec3, b: Vec3)
    ensures Mul(FromVec(a), FromVec(b)) == VecAddScalar(Cross(a, b), -Dot(a, b))
  {
  }

  lemma CrossAnticommutes(a: Vec3, b: Vec3)
    ensures Cross(b, a) == Neg(Cross(a, b))
  {
  }

  /** Lagrange's identity: `|a×b|² = |a|²|b|² - (a·b)²`. */
  lemma Lagrange(a: Vec3, b: Vec3)
    ensures SqMag(Cross(a, b)) == SqMag(a) * SqMag(b) - Dot(a, b) * Dot(a, b)
  {
    var c := Cross(a, b);
    LagrangeScalar(a.x, a.y, a.z, b.x, b.y, b.z, c.x, c.y, c.z);
  }

  /** Lagrange's identity on components, with `c = a×b`. */
  lemma LagrangeScalar(a1: real, a2: real, a3: real, b1: real, b2: real, b3: real, c1: real, c2: real, c3: real)
    requires c1 == a2 * b3 - a3 * b2 && c2 == a3 * b1 - a1 * b3 && c3 == a1 * b2 - a2 * b1
    ensures c1 * c1 + c2 * c2 + c3 * c3
         == (a1 * a1 + a2 * a2 + a3 * a3) * (b1 * b1 + b2 * b2 + b3 * b3)
          - (a1 * b1 + a2 * b2 + a3 * b3) * (a1 * b1 + a2 * b2 + a3 * b3)
  {
  }

  /** Cauchy–Schwarz: `(a·b)² <= |a|²|b|²`. */
  lemma CauchySchwarz(a: Vec3, b: Vec3)
    ensures Dot(a, b) * Dot(a, b) <= SqMag(a) * SqMag(b)
  {
    Lagrange(a, b);
  }

  /** The dot product of two unit vectors lies in [-1, 1]. */
  lemma UnitDotBounded(a: Vec3, b: Vec3)
    requires SqMag(a) == 1.0 && SqMag(b) == 1.0
    ensures -1.0 <= Dot(a, b) <= 1.0
  {
    CauchySchwarz(a, b);
    SquareAtMostOne(Dot(a, b));
  }

  /** `Quat::ONE` is the two-sided identity of the Hamilton product. */
  lemma MulOne(q: Quat)
    ensures Mul(One, q) == q && Mul(q, One) == q
  {
  }

  /**
   * Conjugation negates exactly the vector part; it is an involution, keeps the
   * squared magnitude, and `q * conj(q)` is the real number `|q|²`.
   */
  lemma ConjLaws(q: Quat)
    ensures Conj(q).r == q.r && ToVec(Conj(q)) == Neg(ToVec(q))
    ensures Conj(Conj(q)) == q
    ensures QSqMag(Conj(q)) == QSqMag(q)
    ensures Mul(q, Conj(q)) == FromScalar(QSqMag(q))
  {
    var m := Mul(q, Conj(q));
    assert m.i == 0.0 && m.j == 0.0 && m.k == 0.0;
  }

  /** `q * v * conj(q)` has no real part, so `Vec3::from` loses nothing in Rotate. */
  lemma RotatedIsPure(v: Vec3, q: Quat)
    ensures Mul(QuatMulVec(q, v), Conj(q)).r == 0.0
  {
  }

  /**
   * Rotating by `Quat::ONE` returns `v` exactly, by the fast path; the
   * conjugation formula would also return `v`, so the fast path changes no result.
   */
  lemma RotateByOne(v: Vec3)
    ensures Rotate(v, One) == v
    ensures ToVec(Mul(QuatMulVec(One, v), Conj(One))) == v
  {
    MulOne(FromVec(v));
  }

  /** `Sum` distributes over concatenation. */
  lemma {:induction false} SumAppend(vs: seq<Vec3>, ws: seq<Vec3>)
    ensures Sum(vs + ws) == Add(Sum(vs), Sum(ws))
    decreases |ws|
  {
    if ws == [] {
      assert vs + ws == vs;
    } else {
      var n := |ws| - 1;
      assert (vs + ws)[..|vs + ws| - 1] == vs + ws[..n];
      SumAppend(vs, ws[..n]);
    }
  }
}
