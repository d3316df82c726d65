/**
 * Elastic collisions between spheres (src/main.rs, `handle_collisions`). The
 * application's objects carry a rigid body besides their shape; the model keeps
 * only what the collision code reads and writes: each sphere's position,
 * radius, mass and velocity. Triangles take no part and are never changed.
 *
 * Every unordered pair of objects is visited once, in index order. A pair of
 * spheres that touch and approach each other exchanges momentum along the line
 * through their centres, as in a one-dimensional elastic collision.
 */
module Physics {
  import opened Reals
  import opened Geometry

  /** A sphere's rigid body: where it is, its radius, its mass and its velocity. */
  datatype Body = Body(pos: Vec3, radius: real, mass: real, velocity: Vec3)

  /** An object as `handle_collisions` sees it: a sphere with its body, or a triangle. */
  datatype Item = Sphere(body: Body) | Triangle

  /** Every sphere has a positive mass. */
  predicate PositiveMasses(s: seq<Item>) {
    forall x :: x in s && x.Sphere? ==> x.body.mass > 0.0
  }

  // ---------------------------------------------------------------- one pair

  /**
   * The speeds along the line of centres after a one-dimensional elastic
   * collision: `(p1 + 2·p2 - m2·v1) / m_tot` and `(p2 + 2·p1 - m1·v2) / m_tot`.
   */
  function FinalSpeeds(m1: real, m2: real, v1: real, v2: real): (real, real)
    requires m1 + m2 != 0.0
  {
    ((m1 * v1 + 2.0 * (m2 * v2) - m2 * v1) / (m1 + m2),
     (m2 * v2 + 2.0 * (m1 * v1) - m1 * v2) / (m1 + m2))
  }

  /**
   * The collision conserves momentum, `m1·v1' + m2·v2' = m1·v1 + m2·v2`, and
   * reverses the relative speed, `v2' - v1' = v1 - v2`.
   */
  lemma FinalSpeedsLaws(m1: real, m2: real, v1: real, v2: real)
    requires m1 + m2 != 0.0
    ensures var (f1, f2) := FinalSpeeds(m1, m2, v1, v2);
      m1 * f1 + m2 * f2 == m1 * v1 + m2 * v2 && f2 - f1 == v1 - v2
    ensures var (f1, f2) := FinalSpeeds(m1, m2, v1, v2);
      m1 * (f1 - v1) + m2 * (f2 - v2) == 0.0
  {
    var (f1, f2) := FinalSpeeds(m1, m2, v1, v2);
    var mt := m1 + m2;
    assert f1 * mt == m1 * v1 + 2.0 * (m2 * v2) - m2 * v1;
    assert f2 * mt == m2 * v2 + 2.0 * (m1 * v1) - m1 * v2;
    assert (m1 * f1 + m2 * f2) * mt == (m1 * v1 + m2 * v2) * mt;
    assert (f2 - f1) * mt == (v1 - v2) * mt;
  }

  /** ... and it conserves kinetic energy, `m1·v1'² + m2·v2'² = m1·v1² + m2·v2²`. */
  lemma FinalSpeedsEnergy(m1: real, m2: real, v1: real, v2: real)
    requires m1 + m2 != 0.0
    ensures var (f1, f2) := FinalSpeeds(m1, m2, v1, v2);
      m1 * f1 * f1 + m2 * f2 * f2 == m1 * v1 * v1 + m2 * v2 * v2
  {
    var (f1, f2) := FinalSpeeds(m1, m2, v1, v2);
    FinalSpeedsLaws(m1, m2, v1, v2);
    EnergyFromMomentum(m1, m2, v1, v2, f1, f2);
  }

  /**
   * Momentum conservation and the reversed relative speed together give energy
   * conservation: `m1·(f1² - v1²) = m1·(f1 - v1)·(f1 + v1) = -m2·(f2 - v2)·(f2 + v2)`.
   */
  lemma EnergyFromMomentum(m1: real, m2: real, v1: real, v2: real, f1: real, f2: real)
    requires m1 * f1 + m2 * f2 == m1 * v1 + m2 * v2 && f2 - f1 == v1 - v2
    ensures m1 * f1 * f1 + m2 * f2 * f2 == m1 * v1 * v1 + m2 * v2 * v2
  {
    assert m1 * (f1 - v1) == -(m2 * (f2 - v2));
    assert f1 + v1 == f2 + v2;
    assert m1 * f1 * f1 - m1 * v1 * v1 == m1 * (f1 - v1) * (f1 + v1);
    assert m2 * f2 * f2 - m2 * v2 * v2 == m2 * (f2 - v2) * (f2 + v2);
    assert m1 * (f1 - v1) * (f1 + v1) == -(m2 * (f2 - v2)) * (f2 + v2);
  }

  /** The two spheres touch: the distance of their centres is at most the sum of their radii. */
  predicate Touching(sqrt: real -> real, b1: Body, b2: Body) {
    Mag(sqrt, Sub(b2.pos, b1.pos)) <= b1.radius + b2.radius
  }

  /** The spheres approach each other: their relative velocity points against their offset. */
  predicate Approaching(b1: Body, b2: Body) {
    Dot(Sub(b2.pos, b1.pos), Sub(b2.velocity, b1.velocity)) < 0.0
  }

  /** Spheres that approach each other have distinct centres, at a positive distance. */
  lemma ApproachingApart(sqrt: real -> real, b1: Body, b2: Body)
    requires IsSqrt(sqrt) && Approaching(b1, b2)
    ensures Sub(b2.pos, b1.pos) != Zero && Mag(sqrt, Sub(b2.pos, b1.pos)) > 0.0
  {
    var diff := Sub(b2.pos, b1.pos);
    assert diff != Zero by {
      assert Dot(Zero, Sub(b2.velocity, b1.velocity)) == 0.0;
    }
    SqrtPositive(sqrt, SqMag(diff));
  }

  /** The unit vector `diff_vec / dist` from the first centre to the second. */
  function CollisionAxis(sqrt: real -> real, b1: Body, b2: Body): (col: Vec3)
    requires IsSqrt(sqrt) && Approaching(b1, b2)
    ensures SqMag(col) == 1.0
  {
    ApproachingApart(sqrt, b1, b2);
    var diff := Sub(b2.pos, b1.pos);
    DivUnit(diff, Mag(sqrt, diff));
    Div(diff, Mag(sqrt, diff))
  }

  /**
   * One pass of the inner loop of `handle_collisions` on two spheres: unchanged
   * unless they touch and approach; otherwise they exchange momentum along the
   * collision axis.
   */
  function Collide(sqrt: real -> real, b1: Body, b2: Body): (Body, Body)
    requires IsSqrt(sqrt) && b1.mass + b2.mass != 0.0
  {
    if !Touching(sqrt, b1, b2) || !Approaching(b1, b2) then (b1, b2)
    else Kick(b1, b2, CollisionAxis(sqrt, b1, b2))
  }

  /**
   * The velocity update of a collision along the axis `col`: each velocity gains
   * `(v' - v)·col`, where `v` is its speed along the axis and `v'` the speed
   * after a one-dimensional elastic collision.
   */
  function Kick(b1: Body, b2: Body, col: Vec3): (Body, Body)
    requires b1.mass + b2.mass != 0.0
  {
    var v1, v2 := Dot(b1.velocity, col), Dot(b2.velocity, col);
    var (f1, f2) := FinalSpeeds(b1.mass, b2.mass, v1, v2);
    (b1.(velocity := Add(b1.velocity, Scale(f1 - v1, col))),
     b2.(velocity := Add(b2.velocity, Scale(f2 - v2, col))))
  }

  /** The total momentum `m1·vel1 + m2·vel2` of two bodies. */
  function PairMomentum(b1: Body, b2: Body): Vec3 {
    Add(Scale(b1.mass, b1.velocity), Scale(b2.mass, b2.velocity))
  }

  /** Twice the total kinetic energy, `m1·|vel1|² + m2·|vel2|²`, of two bodies. */
  function PairEnergy(b1: Body, b2: Body): real {
    b1.mass * SqMag(b1.velocity) + b2.mass * SqMag(b2.velocity)
  }

  /**
   * A collision only changes velocities; it leaves the pair as it was unless the
   * spheres touch and approach each other.
   */
  lemma CollideFrame(sqrt: real -> real, b1: Body, b2: Body)
    requires IsSqrt(sqrt) && b1.mass + b2.mass != 0.0
    ensures var (c1, c2) := Collide(sqrt, b1, b2);
      c1.pos == b1.pos && c1.radius == b1.radius && c1.mass == b1.mass
      && c2.pos == b2.pos && c2.radius == b2.radius && c2.mass == b2.mass
    ensures !(Touching(sqrt, b1, b2) && Approaching(b1, b2)) ==> Collide(sqrt, b1, b2) == (b1, b2)
  {
  }

  /** A collision conserves the pair's momentum. */
  lemma CollideMomentum(sqrt: real -> real, b1: Body, b2: Body)
    requires IsSqrt(sqrt) && b1.mass + b2.mass != 0.0
    ensures var (c1, c2) := Collide(sqrt, b1, b2);
      PairMomentum(c1, c2) == PairMomentum(b1, b2)
  {
    if Touching(sqrt, b1, b2) && Approaching(b1, b2) {
      KickMomentum(b1, b2, CollisionAxis(sqrt, b1, b2));
    }
  }

  /** The kick along any axis conserves momentum. */
  lemma KickMomentum(b1: Body, b2: Body, col: Vec3)
    requires b1.mass + b2.mass != 0.0
    ensures var (k1, k2) := Kick(b1, b2, col);
      PairMomentum(k1, k2) == PairMomentum(b1, b2)
  {
    var v1, v2 := Dot(b1.velocity, col), Dot(b2.velocity, col);
    var (f1, f2) := FinalSpeeds(b1.mass, b2.mass, v1, v2);
    FinalSpeedsLaws(b1.mass, b2.mass, v1, v2);
    ShiftedMomentum(b1.mass, b2.mass, b1.velocity, b2.velocity, f1 - v1, f2 - v2, col);
  }

  /** Opposite impulses `m1·d1 = -m2·d2` along one axis leave the momentum as it was. */
  lemma ShiftedMomentum(m1: real, m2: real, u1: Vec3, u2: Vec3, d1: real, d2: real, col: Vec3)
    requires m1 * d1 + m2 * d2 == 0.0
    ensures Add(Scale(m1, Add(u1, Scale(d1, col))), Scale(m2, Add(u2, Scale(d2, col))))
         == Add(Scale(m1, u1), Scale(m2, u2))
  {
    ScaleShift(m1, u1, d1, col);
    ScaleShift(m2, u2, d2, col);
    OppositeShifts(Scale(m1, u1), Scale(m2, u2), m1 * d1, m2 * d2, col);
  }

  /** `m·(u + d·col) = m·u + (m·d)·col`. */
  lemma ScaleShift(m: real, u: Vec3, d: real, col: Vec3)
    ensures Scale(m, Add(u, Scale(d, col))) == Add(Scale(m, u), Scale(m * d, col))
  {
    assert m * (u.x + d * col.x) == m * u.x + (m * d) * col.x;
    assert m * (u.y + d * col.y) == m * u.y + (m * d) * col.y;
    assert m * (u.z + d * col.z) == m * u.z + (m * d) * col.z;
  }

  /** Opposite impulses along one axis cancel: `(a + k1·col) + (b + k2·col) = a + b` when `k1 + k2 = 0`. */
  lemma OppositeShifts(a: Vec3, b: Vec3, k1: real, k2: real, col: Vec3)
    requires k1 + k2 == 0.0
    ensures Add(Add(a, Scale(k1, col)), Add(b, Scale(k2, col))) == Add(a, b)
  {
    assert k2 == -k1;
  }

  /** A collision conserves the pair's kinetic energy. */
  lemma CollideEnergy(sqrt: real -> real, b1: Body, b2: Body)
    requires IsSqrt(sqrt) && b1.mass + b2.mass != 0.0
    ensures var (c1, c2) := Collide(sqrt, b1, b2);
      PairEnergy(c1, c2) == PairEnergy(b1, b2)
  {
    if Touching(sqrt, b1, b2) && Approaching(b1, b2) {
      KickEnergy(b1, b2, CollisionAxis(sqrt, b1, b2));
    }
  }

  /** The kick along a unit axis conserves kinetic energy. */
  lemma KickEnergy(b1: Body, b2: Body, col: Vec3)
    requires b1.mass + b2.mass != 0.0 && SqMag(col) == 1.0
    ensures var (k1, k2) := Kick(b1, b2, col);
      PairEnergy(k1, k2) == PairEnergy(b1, b2)
  {
    var v1, v2 := Dot(b1.velocity, col), Dot(b2.velocity, col);
    var (f1, f2) := FinalSpeeds(b1.mass, b2.mass, v1, v2);
    FinalSpeedsEnergy(b1.mass, b2.mass, v1, v2);
    EnergyShift(b1.mass, b2.mass, v1, v2, f1, f2);
    ShiftedEnergy(b1.mass, b2.mass, b1.velocity, b2.velocity, f1 - v1, f2 - v2, col);
  }

  /**
   * Impulses `d1`, `d2` along a unit axis leave the energy as it was when
   * `m1·(2·d1·(u1·col) + d1²) + m2·(2·d2·(u2·col) + d2²) = 0`.
   */
  lemma ShiftedEnergy(m1: real, m2: real, u1: Vec3, u2: Vec3, d1: real, d2: real, col: Vec3)
    requires SqMag(col) == 1.0
    requires m1 * (2.0 * d1 * Dot(u1, col) + d1 * d1) + m2 * (2.0 * d2 * Dot(u2, col) + d2 * d2) == 0.0
    ensures m1 * SqMag(Add(u1, Scale(d1, col))) + m2 * SqMag(Add(u2, Scale(d2, col)))
         == m1 * SqMag(u1) + m2 * SqMag(u2)
  {
    ShiftedSqMag(u1, d1, col);
    ShiftedSqMag(u2, d2, col);
    Distribute(m1, SqMag(u1), 2.0 * d1 * Dot(u1, col) + d1 * d1);
    Distribute(m2, SqMag(u2), 2.0 * d2 * Dot(u2, col) + d2 * d2);
  }

  lemma Distribute(m: real, a: real, b: real)
    ensures m * (a + b) == m * a + m * b
  {
  }

  /** Pushing a velocity along a unit axis: `|u + d·col|² = |u|² + 2·d·(u·col) + d²`. */
  lemma ShiftedSqMag(u: Vec3, d: real, col: Vec3)
    requires SqMag(col) == 1.0
    ensures SqMag(Add(u, Scale(d, col))) == SqMag(u) + (2.0 * d * Dot(u, col) + d * d)
  {
    assert SqMag(Add(u, Scale(d, col))) == SqMag(u) + 2.0 * d * Dot(u, col) + d * d * SqMag(col);
  }

  /** The energy bookkeeping of `KickEnergy` on the speeds along the axis. */
  lemma EnergyShift(m1: real, m2: real, v1: real, v2: real, f1: real, f2: real)
    requires m1 * f1 * f1 + m2 * f2 * f2 == m1 * v1 * v1 + m2 * v2 * v2
    ensures m1 * (2.0 * (f1 - v1) * v1 + (f1 - v1) * (f1 - v1))
          + m2 * (2.0 * (f2 - v2) * v2 + (f2 - v2) * (f2 - v2)) == 0.0
  {
    assert 2.0 * (f1 - v1) * v1 + (f1 - v1) * (f1 - v1) == f1 * f1 - v1 * v1;
    assert 2.0 * (f2 - v2) * v2 + (f2 - v2) * (f2 - v2) == f2 * f2 - v2 * v2;
  }

  /**
   * After a collision the spheres move apart: their approach speed along the
   * line of centres is exactly reversed.
   */
  lemma CollideSeparates(sqrt: real -> real, b1: Body, b2: Body)
    requires IsSqrt(sqrt) && b1.mass + b2.mass != 0.0
    requires Touching(sqrt, b1, b2) && Approaching(b1, b2)
    ensures var (c1, c2) := Collide(sqrt, b1, b2);
      Dot(Sub(b2.pos, b1.pos), Sub(c2.velocity, c1.velocity))
        == -Dot(Sub(b2.pos, b1.pos), Sub(b2.velocity, b1.velocity))
    ensures var (c1, c2) := Collide(sqrt, b1, b2);
      !Approaching(c1, c2)
  {
    var diff := Sub(b2.pos, b1.pos);
    var col := CollisionAxis(sqrt, b1, b2);
    var (c1, c2) := Collide(sqrt, b1, b2);
    assert (c1, c2) == Kick(b1, b2, col);
    KickReverses(b1, b2, col);
    ApproachingApart(sqrt, b1, b2);
    AxisScales(diff, Mag(sqrt, diff));
    ReversedAlongAxis(Mag(sqrt, diff), col, Sub(b2.velocity, b1.velocity), Sub(c2.velocity, c1.velocity));
  }

  /** The kick along a unit axis reverses the relative speed along that axis. */
  lemma KickReverses(b1: Body, b2: Body, col: Vec3)
    requires b1.mass + b2.mass != 0.0 && SqMag(col) == 1.0
    ensures var (k1, k2) := Kick(b1, b2, col);
      Dot(col, Sub(k2.velocity, k1.velocity)) == -Dot(col, Sub(b2.velocity, b1.velocity))
  {
    var v1, v2 := Dot(b1.velocity, col), Dot(b2.velocity, col);
    var (f1, f2) := FinalSpeeds(b1.mass, b2.mass, v1, v2);
    FinalSpeedsLaws(b1.mass, b2.mass, v1, v2);
    RelativeShift(b1.velocity, b2.velocity, f1 - v1, f2 - v2, col);
    DotSub(col, b2.velocity, b1.velocity);
  }

  /** A relative velocity reversed along `col` is reversed along any multiple of `col`. */
  lemma ReversedAlongAxis(dist: real, col: Vec3, rel: Vec3, rel': Vec3)
    requires Dot(col, rel') == -Dot(col, rel)
    ensures Dot(Scale(dist, col), rel') == -Dot(Scale(dist, col), rel)
  {
    DotScale(dist, col, rel');
    DotScale(dist, col, rel);
  }

  /** The relative velocity along a unit axis after both impulses. */
  lemma RelativeShift(u1: Vec3, u2: Vec3, d1: real, d2: real, col: Vec3)
    requires SqMag(col) == 1.0
    ensures Dot(col, Sub(Add(u2, Scale(d2, col)), Add(u1, Scale(d1, col))))
         == Dot(u2, col) - Dot(u1, col) + d2 - d1
  {
    assert Dot(col, Sub(Add(u2, Scale(d2, col)), Add(u1, Scale(d1, col))))
        == Dot(u2, col) - Dot(u1, col) + (d2 - d1) * SqMag(col);
  }

  /** `col·(a - b) = a·col - b·col`. */
  lemma DotSub(col: Vec3, a: Vec3, b: Vec3)
    ensures Dot(col, Sub(a, b)) == Dot(a, col) - Dot(b, col)
  {
  }

  /** A vector is its magnitude times its direction. */
  lemma AxisScales(v: Vec3, m: real)
    requires m != 0.0
    ensures Scale(m, Div(v, m)) == v
  {
  }

  /** The dot product is linear in its first argument. */
  lemma DotScale(s: real, a: Vec3, b: Vec3)
    ensures Dot(Scale(s, a), b) == s * Dot(a, b)
  {
  }

  // ---------------------------------------------------------------- all pairs

  /** The pairs `(i, i+1), …, (i, m-1)` the inner loop visits for `i1 = i`, up to `i2 = m`. */
  function RowUpTo(i: nat, m: nat): seq<(nat, nat)>
    decreases m
  {
    if m <= i + 1 then [] else RowUpTo(i, m - 1) + [(i, m - 1)]
  }

  /** The pairs the loops visit in the outer passes `i1 = 0, …, k-1`, in order. */
  function PairsUpTo(k: nat, n: nat): seq<(nat, nat)> {
    if k == 0 then [] else PairsUpTo(k - 1, n) + RowUpTo(k - 1, n)
  }

  /** Every pair `handle_collisions` visits, in order, for `n` objects. */
  function Pairs(n: nat): seq<(nat, nat)> {
    PairsUpTo(n, n)
  }

  /** Lexicographic order on index pairs. */
  predicate Before(p: (nat, nat), q: (nat, nat)) {
    p.0 < q.0 || (p.0 == q.0 && p.1 < q.1)
  }

  lemma {:induction false} RowFacts(i: nat, m: nat)
    ensures forall p :: p in RowUpTo(i, m) <==> p.0 == i && i < p.1 < m
    ensures forall a, b :: 0 <= a < b < |RowUpTo(i, m)| ==> Before(RowUpTo(i, m)[a], RowUpTo(i, m)[b])
    decreases m
  {
    if m > i + 1 {
      RowFacts(i, m - 1);
    }
  }

  lemma {:induction false} PairsFacts(k: nat, n: nat)
    ensures forall p :: p in PairsUpTo(k, n) <==> p.0 < k && p.0 < p.1 < n
    ensures forall a, b :: 0 <= a < b < |PairsUpTo(k, n)| ==> Before(PairsUpTo(k, n)[a], PairsUpTo(k, n)[b])
  {
    if k > 0 {
      PairsFacts(k - 1, n);
      RowFacts(k - 1, n);
      var front, row := PairsUpTo(k - 1, n), RowUpTo(k - 1, n);
      var all := front + row;
      forall a, b | 0 <= a < b < |all|
        ensures Before(all[a], all[b])
      {
        if b < |front| {
          assert all[a] == front[a] && all[b] == front[b];
        } else if a >= |front| {
          assert all[a] == row[a - |front|] && all[b] == row[b - |front|];
        } else {
          assert all[a] == front[a] && all[a] in front;
          assert all[b] == row[b - |front|] && all[b] in row;
        }
      }
    }
  }

  /**
   * `handle_collisions` visits each unordered pair `i1 < i2 < n` of indices, and
   * only those, and never the same pair twice.
   */
  lemma PairsExactlyOnce(n: nat)
    ensures forall i: nat, j: nat :: (i, j) in Pairs(n) <==> i < j < n
    ensures forall a, b :: 0 <= a < b < |Pairs(n)| ==> Pairs(n)[a] != Pairs(n)[b]
  {
    PairsFacts(n, n);
    forall i: nat, j: nat
      ensures (i, j) in Pairs(n) <==> i < j < n
    {
      var p := (i, j);
      assert p.0 == i && p.1 == j;
    }
  }

  /**
   * The inner loop's body for `(i1, i2)`: two spheres collide; any pair with a
   * triangle is skipped. (The loops only visit pairs `i < j < |s|`; any other
   * pair changes nothing.)
   */
  function Step(sqrt: real -> real, s: seq<Item>, i: nat, j: nat): (r: seq<Item>)
    requires IsSqrt(sqrt) && PositiveMasses(s)
    ensures |r| == |s| && PositiveMasses(r)
    ensures forall k :: 0 <= k < |s| && k != i && k != j ==> r[k] == s[k]
  {
    if i < j < |s| && s[i].Sphere? && s[j].Sphere? then
      var b1, b2 := s[i].body, s[j].body;
      CollideFrame(sqrt, b1, b2);
      var (c1, c2) := Collide(sqrt, b1, b2);
      s[i := Sphere(c1)][j := Sphere(c2)]
    else s
  }

  /** The objects after the loops have visited the pairs `ps` in order. */
  function ApplyPairs(sqrt: real -> real, s: seq<Item>, ps: seq<(nat, nat)>): (r: seq<Item>)
    requires IsSqrt(sqrt) && PositiveMasses(s)
    ensures |r| == |s| && PositiveMasses(r)
  {
    if ps == [] then s
    else
      var last := ps[|ps| - 1];
      Step(sqrt, ApplyPairs(sqrt, s, ps[..|ps| - 1]), last.0, last.1)
  }

  /** Visiting one more pair is one more step. */
  lemma ApplyPairsSnoc(sqrt: real -> real, s: seq<Item>, ps: seq<(nat, nat)>, p: (nat, nat))
    requires IsSqrt(sqrt) && PositiveMasses(s)
    ensures ApplyPairs(sqrt, s, ps + [p]) == Step(sqrt, ApplyPairs(sqrt, s, ps), p.0, p.1)
  {
    assert (ps + [p])[..|ps|] == ps;
  }

  /** Visiting `ps` and then `qs` is visiting `ps + qs`. */
  lemma {:induction false} ApplyPairsAppend(sqrt: real -> real, s: seq<Item>, ps: seq<(nat, nat)>, qs: seq<(nat, nat)>)
    requires IsSqrt(sqrt) && PositiveMasses(s)
    ensures ApplyPairs(sqrt, s, ps + qs) == ApplyPairs(sqrt, ApplyPairs(sqrt, s, ps), qs)
    decreases |qs|
  {
    if qs == [] {
      assert ps + qs == ps;
    } else {
      var front, last := qs[..|qs| - 1], qs[|qs| - 1];
      assert ps + qs == (ps + front) + [last];
      assert qs == front + [last];
      ApplyPairsSnoc(sqrt, s, ps + front, last);
      ApplyPairsAppend(sqrt, s, ps, front);
      ApplyPairsSnoc(sqrt, ApplyPairs(sqrt, s, ps), front, last);
    }
  }

  /**
   * `handle_collisions`: for `i1` from 0 and each `i2 > i1`, the two objects
   * collide in place when both are spheres. The objects end as the pairs
   * visited in order make them, with the total momentum and kinetic energy
   * they started with.
   */
  method HandleCollisions(sqrt: real -> real, items: array<Item>)
    requires IsSqrt(sqrt) && PositiveMasses(items[..])
    modifies items
    ensures items[..] == ApplyPairs(sqrt, old(items[..]), Pairs(items.Length))
    ensures TotalMomentum(items[..]) == TotalMomentum(old(items[..]))
    ensures TotalEnergy(items[..]) == TotalEnergy(old(items[..]))
  {
    var n := items.Length;
    ghost var s0 := items[..];
    var i1 := 0;
    while i1 < n
      invariant 0 <= i1 <= n
      invariant items[..] == ApplyPairs(sqrt, s0, PairsUpTo(i1, n))
    {
      ApplyPairsRow(sqrt, s0, i1, n);
      CollideRow(sqrt, items, i1);
      i1 := i1 + 1;
    }
    ApplyPairsConserves(sqrt, s0, Pairs(n));
  }

  /** The outer passes up to `k + 1` are those up to `k` followed by the row of `k`. */
  lemma ApplyPairsRow(sqrt: real -> real, s: seq<Item>, k: nat, n: nat)
    requires IsSqrt(sqrt) && PositiveMasses(s)
    ensures ApplyPairs(sqrt, s, PairsUpTo(k + 1, n))
         == ApplyPairs(sqrt, ApplyPairs(sqrt, s, PairsUpTo(k, n)), RowUpTo(k, n))
  {
    ApplyPairsAppend(sqrt, s, PairsUpTo(k, n), RowUpTo(k, n));
  }

  /** One pass of the outer loop: the pairs `(i, i+1), …, (i, n-1)` in turn. */
  method CollideRow(sqrt: real -> real, items: array<Item>, i: nat)
    requires IsSqrt(sqrt) && i < items.Length && PositiveMasses(items[..])
    modifies items
    ensures items[..] == ApplyPairs(sqrt, old(items[..]), RowUpTo(i, items.Length))
  {
    var n := items.Length;
    ghost var s1 := items[..];
    var j := i + 1;
    while j < n
      invariant i + 1 <= j <= n
      invariant items[..] == ApplyPairs(sqrt, s1, RowUpTo(i, j))
    {
      ApplyRowStep(sqrt, s1, i, j);
      CollidePair(sqrt, items, i, j);
      j := j + 1;
    }
  }

  /** The row of `i` up to `j + 1` is the row up to `j` and then the pair `(i, j)`. */
  lemma ApplyRowStep(sqrt: real -> real, s: seq<Item>, i: nat, j: nat)
    requires IsSqrt(sqrt) && PositiveMasses(s) && i < j
    ensures ApplyPairs(sqrt, s, RowUpTo(i, j + 1)) == Step(sqrt, ApplyPairs(sqrt, s, RowUpTo(i, j)), i, j)
  {
    ApplyPairsSnoc(sqrt, s, RowUpTo(i, j), (i, j));
  }

  /** The body of the inner loop, on the objects in place. */
  method CollidePair(sqrt: real -> real, items: array<Item>, i: nat, j: nat)
    requires IsSqrt(sqrt) && i < j < items.Length && PositiveMasses(items[..])
    modifies items
    ensures items[..] == Step(sqrt, old(items[..]), i, j)
  {
    match (items[i], items[j]) {
      case (Sphere(b1), Sphere(b2)) =>
        var (c1, c2) := Collide(sqrt, b1, b2);
        items[i] := Sphere(c1);
        items[j] := Sphere(c2);
      case _ =>
    }
  }

  // ---------------------------------------------------------------- conservation

  /** The momentum `mass·velocity` of a sphere; triangles have none. */
  function ItemMomentum(x: Item): Vec3 {
    match x
    case Sphere(b) => Scale(b.mass, b.velocity)
    case Triangle => Zero
  }

  /** Twice the kinetic energy of a sphere; triangles have none. */
  function ItemEnergy(x: Item): real {
    match x
    case Sphere(b) => b.mass * SqMag(b.velocity)
    case Triangle => 0.0
  }

  /** The momentum of all the objects. */
  function TotalMomentum(s: seq<Item>): Vec3 {
    if s == [] then Zero else Add(TotalMomentum(s[..|s| - 1]), ItemMomentum(s[|s| - 1]))
  }

  /** Twice the kinetic energy of all the objects. */
  function TotalEnergy(s: seq<Item>): real {
    if s == [] then 0.0 else TotalEnergy(s[..|s| - 1]) + ItemEnergy(s[|s| - 1])
  }

  /** Replacing one object changes the total momentum by the difference of the two. */
  lemma {:induction false} MomentumUpdate(s: seq<Item>, i: nat, x: Item)
    requires i < |s|
    ensures TotalMomentum(s[i := x]) == Add(Sub(TotalMomentum(s), ItemMomentum(s[i])), ItemMomentum(x))
  {
    var last := |s| - 1;
    var t := s[i := x];
    if i == last {
      assert t[..last] == s[..last];
    } else {
      assert t[..last] == s[..last][i := x];
      MomentumUpdate(s[..last], i, x);
      VecRearrange(TotalMomentum(s[..last]), ItemMomentum(s[i]), ItemMomentum(x), ItemMomentum(s[last]));
    }
  }

  /** `(a - b + c) + d == (a + d) - b + c` on vectors. */
  lemma VecRearrange(a: Vec3, b: Vec3, c: Vec3, d: Vec3)
    ensures Add(Add(Sub(a, b), c), d) == Add(Sub(Add(a, d), b), c)
  {
  }

  /** Replacing one object changes the total energy by the difference of the two. */
  lemma {:induction false} EnergyUpdate(s: seq<Item>, i: nat, x: Item)
    requires i < |s|
    ensures TotalEnergy(s[i := x]) == TotalEnergy(s) - ItemEnergy(s[i]) + ItemEnergy(x)
  {
    var last := |s| - 1;
    var t := s[i := x];
    if i == last {
      assert t[..last] == s[..last];
    } else {
      assert t[..last] == s[..last][i := x];
      EnergyUpdate(s[..last], i, x);
    }
  }

  /** One step conserves the total momentum of all the objects. */
  lemma StepMomentum(sqrt: real -> real, s: seq<Item>, i: nat, j: nat)
    requires IsSqrt(sqrt) && PositiveMasses(s)
    ensures TotalMomentum(Step(sqrt, s, i, j)) == TotalMomentum(s)
  {
    if i < j < |s| && s[i].Sphere? && s[j].Sphere? {
      var b1, b2 := s[i].body, s[j].body;
      var (c1, c2) := Collide(sqrt, b1, b2);
      CollideMomentum(sqrt, b1, b2);
      PairMomentumUpdate(s, i, j, Sphere(c1), Sphere(c2));
    }
  }

  /** Trading the objects at `i` and `j` for two with the same momentum keeps the total. */
  lemma PairMomentumUpdate(s: seq<Item>, i: nat, j: nat, x: Item, y: Item)
    requires i < j < |s|
    requires Add(ItemMomentum(x), ItemMomentum(y)) == Add(ItemMomentum(s[i]), ItemMomentum(s[j]))
    ensures TotalMomentum(s[i := x][j := y]) == TotalMomentum(s)
  {
    var s1 := s[i := x];
    MomentumUpdate(s, i, x);
    MomentumUpdate(s1, j, y);
    assert s1[j] == s[j];
    PairRearrange(TotalMomentum(s), ItemMomentum(s[i]), ItemMomentum(s[j]), ItemMomentum(x), ItemMomentum(y));
  }

  /** Trading two vectors for two others with the same sum leaves a total unchanged. */
  lemma PairRearrange(t: Vec3, a: Vec3, b: Vec3, c: Vec3, d: Vec3)
    requires Add(c, d) == Add(a, b)
    ensures Add(Sub(Add(Sub(t, a), c), b), d) == t
  {
    assert c.x + d.x == a.x + b.x && c.y + d.y == a.y + b.y && c.z + d.z == a.z + b.z;
  }

  /** One step conserves the total kinetic energy of all the objects. */
  lemma StepEnergy(sqrt: real -> real, s: seq<Item>, i: nat, j: nat)
    requires IsSqrt(sqrt) && PositiveMasses(s)
    ensures TotalEnergy(Step(sqrt, s, i, j)) == TotalEnergy(s)
  {
    if i < j < |s| && s[i].Sphere? && s[j].Sphere? {
      var b1, b2 := s[i].body, s[j].body;
      var (c1, c2) := Collide(sqrt, b1, b2);
      CollideEnergy(sqrt, b1, b2);
      PairEnergyUpdate(s, i, j, Sphere(c1), Sphere(c2));
    }
  }

  /** Trading the objects at `i` and `j` for two with the same energy keeps the total. */
  lemma PairEnergyUpdate(s: seq<Item>, i: nat, j: nat, x: Item, y: Item)
    requires i < j < |s|
    requires ItemEnergy(x) + ItemEnergy(y) == ItemEnergy(s[i]) + ItemEnergy(s[j])
    ensures TotalEnergy(s[i := x][j := y]) == TotalEnergy(s)
  {
    var s1 := s[i := x];
    EnergyUpdate(s, i, x);
    EnergyUpdate(s1, j, y);
    assert s1[j] == s[j];
  }

  /** Visiting any valid pairs conserves the total momentum and energy. */
  lemma {:induction false} ApplyPairsConserves(sqrt: real -> real, s: seq<Item>, ps: seq<(nat, nat)>)
    requires IsSqrt(sqrt) && PositiveMasses(s)
    ensures TotalMomentum(ApplyPairs(sqrt, s, ps)) == TotalMomentum(s)
    ensures TotalEnergy(ApplyPairs(sqrt, s, ps)) == TotalEnergy(s)
  {
    if ps != [] {
      var front := ps[..|ps| - 1];
      var last := ps[|ps| - 1];
      assert front + [last] == ps;
      ApplyPairsSnoc(sqrt, s, front, last);
      ApplyPairsConserves(sqrt, s, front);
      StepMomentum(sqrt, ApplyPairs(sqrt, s, front), last.0, last.1);
      StepEnergy(sqrt, ApplyPairs(sqrt, s, front), last.0, last.1);
    }
  }
}
