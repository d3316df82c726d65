# render-3d, modelled in Dafny

render-3d is a small software raytracer. For every pixel of a 600 × 375 window
it casts a ray from a camera into a world of spheres and triangles, and paints
the pixel with the colour of the nearest object hit. That colour is shaded by
the angle to a single point light. Between frames, spheres that touch and move
toward each other bounce off one another elastically. A short log of frame
times gives a running average.

This project models the geometric and bookkeeping core of that program over
exact real numbers:

- `options.dfy`: an `Option` type.
- `reals.dfy` (`Reals`): the real-number facts the rest relies on. The
  floating-point `sqrt`, `cos` and `sin` become function parameters, and the
  laws the proofs need are the predicates `IsSqrt` and `IsUnitCircle`.
- `geometry.dfy` (`Geometry`): `Vec3` and `Quat` and all their operators,
  from `src/math.rs`. This covers the Hamilton product, `cross` as the vector
  part of a product of pure quaternions, conjugation, squared magnitude,
  `normalize`, `rotate` with its identity fast path, `Quat::rotation` and `Sum`.
- `scene.dfy` (`Scene`): objects and colours from `src/world.rs`. It includes
  `Color * f32`, written out as round half away from zero followed by a
  saturating `as u8` cast, and `interpolate`.
- `render.dfy` (`Render`): the raycaster of `src/camera.rs`. It covers the
  primary ray, sphere and triangle intersection, diffuse shading, and the choice
  of the nearest hit, including the tie-break rule.
- `display.dfy` (`Display`): from `do_render` in `src/main.rs`.
  - The frame loop is a method over the RGBA frame buffer (an `array`).
  - The pixel-index mapping is modelled.
  - The frame-time log is a class whose `Record` method keeps the log's
    length within bounds.
- `physics.dfy` (`Physics`): `handle_collisions` from `src/main.rs`.
  - It is a method over an `array` of objects, updated in place pair by pair.
  - It is proved equal to a left fold of one collision step over the visited
    index pairs.
  - It is proved to conserve total momentum and total kinetic energy.

Floating-point conditions become their real-number meaning:

- a non-finite `t` means a zero denominator;
- "sign positive" means `>= 0`;
- a NaN from normalising the zero vector is `None`;
- `f32::max(NaN, 0.0)` is `0.0`.

## Model

| member | source | states |
|---|---|---|
| Reals.Max | src/camera.rs:81 | `f32::max` returns one of its operands, and that operand is at least as large as both |
| Geometry.SqMag | src/math.rs:124-127 | the squared magnitude is never negative, and it is zero exactly for the zero vector |
| Geometry.Mag | src/math.rs:129-132 | with an exact square root, the magnitude is non-negative and squares to the squared magnitude |
| Geometry.FromScalar | src/math.rs:274-279 | `Quat::from(f32)` has the scalar as its real part and a zero vector part |
| Geometry.FromVec | src/math.rs:267-272 | `Quat::from(Vec3)` is a pure quaternion whose vector part is the vector |
| Geometry.QAddScalar | src/math.rs:186-200 | adding a scalar to a quaternion changes only the real part, by exactly that scalar |
| Geometry.VecAddScalar | src/math.rs:24-38 | `Vec3 + f32` is the quaternion with real part `s` and vector part `v` |
| Geometry.QSqMag | src/math.rs:297-300 | the quaternion squared magnitude is never negative, and it is zero exactly for the zero quaternion |
| Geometry.QMag | src/math.rs:302-305 | with an exact square root, the quaternion magnitude is non-negative and squares to the squared magnitude |
| Geometry.Rotation | src/math.rs:288-291 | the real part is `cos(angle/2)` and the vector part is `sin(angle/2)·axis`; with `cos² + sin² = 1` and a unit axis, the result is a unit quaternion |
| Geometry.Normalize | src/math.rs:134-137 | defines `normalize` as `v / |v|`, with None standing for the NaN the source produces on the zero vector; its laws are NormalizeZero, NormalizeUnit and NormalizeSome |
| Geometry.NormalizeZero | src/math.rs:134-137 | normalising the zero vector fails (NaN in the source) |
| Geometry.NormalizeUnit | src/math.rs:134-137 | normalising a non-zero vector succeeds and gives length one |
| Geometry.NormalizeSome | src/math.rs:134-137 | normalising succeeds exactly on the non-zero vectors, and every result has length one |
| Geometry.VecInverses | src/math.rs:16-106 | `-` undoes `+` and `+` undoes `-`; `a - b` is zero iff `a == b`; negation is an involution and inverts addition; `/ s` undoes `* s` for `s != 0` |
| Geometry.VecAlgebra | src/math.rs:148-151 | `+` is commutative and associative with the default vector as identity; `dot` is symmetric and linear in its first argument |
| Geometry.QuatInverses | src/math.rs:173-221 | quaternion `-` undoes `+`; `p - q` is zero iff `p == q`; negation is an involution and inverts addition |
| Geometry.CrossOrthogonal | src/math.rs:153-156 | `a × b` is perpendicular to both `a` and `b` |
| Geometry.SqMagExample | src/math.rs:367-372 | `(1, 2, 3).sq_mag()` is 14, as the unit test expects |
| Geometry.QSqMagExample | src/math.rs:450-455 | `(1, 2, 3, 4).sq_mag()` is 30, as the unit test expects |
| Geometry.VecOperatorExamples | src/math.rs:320-357 | the vector `+`, `-`, negation, `* f32` and `+ f32` unit tests hold exactly |
| Geometry.QuatOperatorExamples | src/math.rs:403-448 | the quaternion `+`, `+ f32`, `-`, negation and `* f32` unit tests hold exactly |
| Geometry.HamiltonExamples | src/math.rs:223-234 | the Hamilton product gives `(1,1,1,1)·(0.5,1,0.5,1) = (-2,2,1,1)` and `(1,2,3)·(1,0.5,2,1.5) = (-9,-2,2,4)`, as the unit tests at lines 359-365 and 434-440 expect |
| Geometry.PureRoundTrip | src/math.rs:108-113 | `Vec3::from(Quat::from(v)) == v`, and `Quat::from(Vec3::from(q)) == q` exactly when `q` has no real part |
| Geometry.Cross | src/math.rs:153-156 | `cross`, defined as the vector part of `a · Quat::from(b)` as in the source, has the textbook components `(a.y·b.z - a.z·b.y, a.z·b.x - a.x·b.z, a.x·b.y - a.y·b.x)` |
| Geometry.Mul | src/math.rs:223-234 | defines the Hamilton product component by component; HamiltonExamples, MulOne and ConjLaws state its laws |
| Geometry.CrossIsVectorPart | src/math.rs:153-156 | the product of two pure quaternions is `-a·b + a×b`: its real part is minus the dot product and its vector part is `cross` |
| Geometry.CrossAnticommutes | src/math.rs:153-156 | `b × a == -(a × b)` |
| Geometry.Lagrange | src/math.rs:153-156 | Lagrange's identity: `|a × b|² = |a|²·|b|² - (a·b)²` |
| Geometry.CauchySchwarz | src/math.rs:148-151 | `(a·b)² <= |a|²·|b|²` |
| Geometry.UnitDotBounded | src/math.rs:148-151 | the dot product of two unit vectors lies in [-1, 1] |
| Geometry.MulOne | src/math.rs:286 | `Quat::ONE` is a two-sided identity of the Hamilton product |
| Geometry.ConjLaws | src/math.rs:293-300 | `conj` negates exactly the vector part; it is an involution; it keeps `sq_mag`; `q·conj(q)` is the real number `|q|²` |
| Geometry.Rotate | src/math.rs:139-146 | defines `rotate`: `v` itself for `Quat::ONE`, otherwise the vector part of `q·v·conj(q)`; RotatedIsPure and RotateByOne state its laws |
| Geometry.RotatedIsPure | src/math.rs:139-146 | `q·v·conj(q)` has a zero real part, so `Vec3::from` loses nothing in `rotate` |
| Geometry.RotateByOne | src/math.rs:139-146 | rotating by `Quat::ONE` returns `v` exactly through the fast path, and the general formula would also return `v` |
| Geometry.SumAppend | src/math.rs:47-51 | the fold `Sum` of a concatenation is the sum of the two folds |
| Scene.GetColor | src/world.rs:22-27 | `get_color` returns the colour stored in either variant |
| Scene.SetChannel | src/world.rs:45-49 | writing channel `i` sets exactly that channel and leaves the other two unchanged |
| Scene.Round | src/world.rs:54 | `f32::round` is within one half of its argument, and half-way cases go away from zero |
| Scene.Saturate | src/world.rs:54 | the `as u8` cast keeps values in 0..=255 and clamps the others to 0 or 255 |
| Scene.SaturateNearest | src/world.rs:54 | the saturating cast picks the byte nearest to its argument |
| Scene.ScaleColor | src/world.rs:51-56 | `Color * f` maps each channel independently through round-then-saturate |
| Scene.ScaleByOne | src/world.rs:51-56 | scaling by 1.0 leaves a colour unchanged |
| Scene.ScaleByZero | src/world.rs:51-56 | scaling by 0.0 gives `Color([0, 0, 0])` |
| Scene.ScaleChannelDims | src/world.rs:54 | a factor in [0, 1] never makes a channel brighter |
| Scene.ScaleDims | src/world.rs:51-56 | a factor in [0, 1] never makes any channel of a colour brighter |
| Scene.InterpolateAsWritten | src/world.rs:59-64 | defines `interpolate` as written, rounding each term and adding them as `u8`, with None standing for the overflow |
| Scene.InterpolateAsWrittenEnds | src/world.rs:60-64 | `interpolate` as written returns `a` at ratio 0 and `b` at ratio 1 |
| Scene.InterpolateAsWrittenOverflows | src/world.rs:62 | at ratio 0.5, white with white overflows the `u8` addition |
| Scene.MixBetween | src/world.rs:62 | for a ratio in [0, 1], a singly rounded mix lies between the two channels it mixes |
| Scene.Interpolate | src/world.rs:59-64 | corrected: defines `interpolate` with one rounding of the weighted mean per channel |
| Scene.InterpolateBetween | src/world.rs:60-64 | corrected: for a ratio in [0, 1], every channel lies between the two input channels, so it never overflows |
| Scene.InterpolateEnds | src/world.rs:60-64 | corrected: still returns `a` at ratio 0 and `b` at ratio 1 |
| Scene.InterpolateWhite | src/world.rs:60-64 | corrected: white with white at ratio 0.5 is white |
| Render.PrimaryRay | src/camera.rs:14-19 | defines the primary ray `(focal_length, -x/px_per_unit, -y/px_per_unit)` rotated by the camera; PrimaryRayUnrotated states its laws |
| Render.PrimaryRayUnrotated | src/camera.rs:14-19 | with the identity rotation, the ray is `(focal_length, -x/px_per_unit, -y/px_per_unit)`, and the pixel offset can be read back from it |
| Render.Illumination | src/camera.rs:118-121 | the illumination factor is never negative |
| Render.Lambert | src/camera.rs:120 | `max(light·normal, 0)` is never negative, and it is 0 when either direction is NaN |
| Render.IlluminationAtMostOne | src/camera.rs:118-121 | with an exact square root, the illumination never exceeds 1 |
| Render.LambertAtMostOne | src/camera.rs:120 | the cosine term on unit directions never exceeds 1 |
| Render.Shade | src/camera.rs:117-121 | defines the shaded colour as the object colour scaled by the illumination toward the light; ShadeDims bounds it |
| Render.ShadeDims | src/camera.rs:118-121 | shading never makes any channel brighter than the object's own colour |
| Render.SmallestNonNegative | src/camera.rs:110-113 | the `filter`/`min_by` chain gives None iff every candidate is negative; otherwise it gives the least non-negative candidate |
| Render.SmallestOfRoots | src/camera.rs:110-113 | of the roots `b + s >= b - s`, the chain picks `b - s` if it is non-negative, else `b + s` if that is, else none |
| Render.NearerRootSpec | src/camera.rs:108-115 | a root is returned iff `a != 0` and `b + √Δ >= 0`; it is non-negative and equals `(b - √Δ)/a` if that is non-negative, else `(b + √Δ)/a` |
| Render.SphereT | src/camera.rs:93-115 | defines the sphere `t` from the quadratic `a = |ray|²`, `b = ray·dist`, `c = |dist|² - r²`, rejecting a negative discriminant; SphereHitIff, SphereHitIsNearerRoot and SphereHitOnSurface state its laws |
| Render.NearerRoot | src/camera.rs:110-115 | defines the root choice `min` of the non-negative candidates `b ± √Δ`, divided by `a`; NearerRootSpec states it |
| Render.SphereRaycast | src/camera.rs:87-123 | defines `sphere_raycast`: the shaded colour and `t` at the sphere hit, None when `SphereT` is None |
| Render.SphereHitIff | src/camera.rs:100-115 | the sphere is hit exactly when the discriminant is non-negative, the ray is non-zero and `b + √Δ >= 0` |
| Render.SphereHitIsNearerRoot | src/camera.rs:108-115 | a returned `t` is non-negative and is the nearer non-negative root of the sphere's quadratic |
| Render.SphereHitOnSurface | src/camera.rs:93-117 | a returned `t` places `position + t·ray` at distance `r` from the centre |
| Render.PointOnRay | src/camera.rs:93-101 | the squared distance from the ray point to the centre is `a·t² - 2·b·t + (c + r²)` |
| Render.TriT | src/camera.rs:47-76 | defines the triangle `t = -n·(position - p1)/n·ray`, rejecting a zero denominator, a negative `t` and a failed edge-sign test; TriHitIff, TriHitOnPlane and TriHitInside state its laws |
| Render.TriRaycast | src/camera.rs:41-85 | defines `tri_raycast`: the shaded colour and `t` at the triangle hit, None when `TriT` is None |
| Render.TriHitIff | src/camera.rs:48-76 | the triangle is hit exactly when `n·ray != 0`, `t = -n·(position - p1)/n·ray >= 0`, and the edge-sign test passes |
| Render.TriHitOnPlane | src/camera.rs:48-56 | a returned `t` is non-negative and places `position + t·ray` in the triangle's plane |
| Render.EdgeTermsAreTripleProducts | src/camera.rs:59-71 | each edge term is the ray dotted with the cross product of two corners, and the determinant is the corners' triple product |
| Render.EdgeTermsWeighCorners | src/camera.rs:59-71 | Cramer's rule: the edge terms weigh the corners into `det·ray` |
| Render.TriHitWeightsAgree | src/camera.rs:66-76 | on a hit, either all three edge terms and the determinant are non-negative, or all are negative |
| Render.TriHitInside | src/camera.rs:47-76 | a hit lies inside the triangle: with `den = n·ray`, the weights `w[k]/den` of the three edge terms are non-negative, sum to 1, and weigh the corners to `position + t·ray` |
| Render.EdgeTermsSumToDenominator | src/camera.rs:48-71 | the three edge terms add up to the plane test's denominator `n·ray`, and the determinant equals its numerator `-n·(position - p1)` |
| Render.Raycast | src/camera.rs:30-39 | defines `raycast` as the dispatch to the sphere or triangle case; RaycastHit states its laws |
| Render.RaycastHit | src/camera.rs:30-39 | every reported hit has `t >= 0`, and its colour is the object's own colour, never brighter |
| Render.NearestIndex | src/camera.rs:21-26 | `min_by` gives None exactly when no object is hit; otherwise it gives the hit with the least `t`, the earliest on ties |
| Render.NearestStep | src/camera.rs:25 | one step of the `min_by` fold replaces the kept hit only by one with a strictly smaller `t` |
| Render.NearestFirst | src/camera.rs:25 | the first hit after a run of misses is the nearest so far |
| Render.NearestUnique | src/camera.rs:25 | the nearest-hit rule, with its earliest-wins tie-break, selects at most one hit |
| Render.GetPx | src/camera.rs:13-28 | `get_px` is black when nothing is hit, and otherwise is the colour of the nearest hit, the earliest on ties |
| Display.PixelCoords | src/main.rs:318 | for `i < 600·375`: `x < 600`, `y < 375`, and `y·600 + x == i` |
| Display.PixelIndexRoundTrip | src/main.rs:306-318 | every on-screen `(x, y)` has index `y·600 + x`, and that index maps back to `(x, y)` |
| Display.ScreenOffset | src/main.rs:320-321 | the offsets lie in [-300, 300) and [-187.5, 187.5), and the vertical one is never zero |
| Display.PixelColor | src/main.rs:317-322 | defines the colour of pixel `i` as `get_px` at its screen offset |
| Display.RenderFrame | src/main.rs:308-323 | each pixel's RGB bytes get the colour of its primary ray; alpha bytes and bytes past the last pixel keep their values |
| Display.ForEachPixel | src/main.rs:308-311 | every 4-byte chunk `p < n` gets `colorOf(p)` in its first three bytes; the rest of the frame is unchanged |
| Display.PaintPixel | src/main.rs:322 | `copy_from_slice` writes exactly bytes 0..=2 of one chunk |
| Display.TotalBounds | src/main.rs:336 | the sum of the log lies between `len·min` and `len·max` |
| Display.Mean | src/main.rs:336 | the average of a non-empty log never divides by zero and lies between the shortest and the longest entry |
| Display.FrameTimeLog.constructor | src/main.rs:82 | the log starts empty |
| Display.FrameTimeLog.Record | src/main.rs:327-332 | the newest duration is at the front, followed by the newest older entries in their order, and `1 <= len <= N_FRAMES` |
| Display.FrameTimeLog.Average | src/main.rs:334-336 | the average lies between the shortest and the longest logged duration |
| Physics.FinalSpeeds | src/main.rs:205-215 | defines the one-dimensional elastic-collision speeds `((m1-m2)·v1 + 2·m2·v2)/(m1+m2)` and its mirror; FinalSpeedsLaws and FinalSpeedsEnergy state their laws |
| Physics.FinalSpeedsLaws | src/main.rs:205-215 | the final speeds along the axis conserve momentum, `m1·v1' + m2·v2' = m1·v1 + m2·v2`, and reverse the relative speed |
| Physics.FinalSpeedsEnergy | src/main.rs:205-215 | the final speeds conserve kinetic energy |
| Physics.ApproachingApart | src/main.rs:195-203 | approaching spheres have distinct centres at a positive distance, so `diff_vec / dist` is defined |
| Physics.CollisionAxis | src/main.rs:195-207 | `col_vec` is a unit vector |
| Physics.Collide | src/main.rs:191-218 | defines the pair update: unchanged unless the spheres touch and approach, otherwise a `Kick` along the unit line of centres |
| Physics.Kick | src/main.rs:205-218 | defines the velocity update along an axis by the final speeds; KickMomentum, KickEnergy and KickReverses state its laws |
| Physics.CollideFrame | src/main.rs:191-203 | a collision changes only velocities, and leaves the pair unchanged unless the spheres touch and approach |
| Physics.CollideMomentum | src/main.rs:205-218 | a pair update conserves `m1·vel1 + m2·vel2` |
| Physics.KickMomentum | src/main.rs:208-218 | the velocity update along any axis conserves the pair's momentum |
| Physics.ShiftedMomentum | src/main.rs:217-218 | opposite impulses `m1·d1 = -m2·d2` along one axis leave the momentum unchanged |
| Physics.CollideEnergy | src/main.rs:205-218 | a pair update conserves the pair's kinetic energy |
| Physics.KickEnergy | src/main.rs:208-218 | the velocity update along a unit axis conserves kinetic energy |
| Physics.ShiftedEnergy | src/main.rs:217-218 | impulses along a unit axis leave the energy unchanged when their energy terms cancel |
| Physics.CollideSeparates | src/main.rs:195-218 | after colliding, the approach speed along the line of centres is reversed, so the spheres no longer approach |
| Physics.KickReverses | src/main.rs:208-218 | the update reverses the relative velocity along the collision axis |
| Physics.RowFacts | src/main.rs:184-185 | the inner loop for `i1 = i` visits exactly the pairs `(i, j)` with `i < j < m`, in increasing order |
| Physics.PairsFacts | src/main.rs:182-185 | the first `k` outer passes visit exactly the pairs `i1 < k`, `i1 < i2 < n`, in lexicographic order |
| Physics.PairsExactlyOnce | src/main.rs:182-189 | `handle_collisions` visits each unordered pair `i1 < i2 < n` and no other, and never the same pair twice |
| Physics.Step | src/main.rs:186-218 | one inner iteration keeps the length and the positive masses, and changes no object other than the two at `i1` and `i2` |
| Physics.ApplyPairs | src/main.rs:182-219 | visiting any sequence of pairs keeps the number of objects and the positive masses |
| Physics.HandleCollisions | src/main.rs:181-221 | the objects end as the in-order fold of the pair step over all pairs makes them, with unchanged total momentum and kinetic energy |
| Physics.CollideRow | src/main.rs:184-219 | one outer pass applies the pair step to `(i, i+1), …, (i, n-1)` in order |
| Physics.CollidePair | src/main.rs:186-218 | the in-place update of `objects[i1]` and `objects[i2]` is exactly one pair step |
| Physics.StepMomentum | src/main.rs:186-218 | one pair step conserves the total momentum of all objects |
| Physics.StepEnergy | src/main.rs:186-218 | one pair step conserves the total kinetic energy of all objects |
| Physics.ApplyPairsConserves | src/main.rs:181-221 | visiting any pairs in order conserves the total momentum and kinetic energy |

## Left out

- Floating point. The model computes with exact reals, so rounding error is
  not modelled, and neither are infinities, NaN propagation, signed zero
  (`is_sign_positive` is `>= 0`, `is_sign_negative` is `< 0`) or `total_cmp` on
  NaN. The only NaN cases kept are those the model turns into explicit
  conditions: normalising the zero vector, a zero triangle denominator, and
  `max(NaN, 0.0)`.
- Render.SphereHitIff: the subnormal-discriminant rejection at
  src/camera.rs:104 is not modelled, since subnormals do not exist over the
  reals. A zero ray (`a == 0`) is reported as no hit. In the source it gives a
  NaN `t` with a black colour; the ray of `do_render` is never zero, because
  the vertical offset is never zero.
- Scene.Get and Scene.SetChannel require `i < 3`. The source's `Index` and
  `IndexMut` (src/world.rs:38-49) panic on an index of 3 or more. Every caller
  uses a channel in 0..=2, so the panic path is not modelled.
- Reals.IsSqrt and Reals.IsUnitCircle: `f32::sqrt`, `cos` and `sin` are foreign
  functions. They are function parameters, and every result that needs their
  laws says so in its `requires`.
- Render.PrimaryRay requires `px_per_unit != 0`. The source divides by it;
  the camera built in `main` uses 160.
- Physics.HandleCollisions requires every sphere to have a positive mass,
  because the source divides by `m1 + m2`. It also requires an exact square
  root, for `diff_vec.mag()`.
- Physics.Step is also defined on pairs the loops never visit, and changes
  nothing for them. The loops visit only pairs `i1 < i2 < n`
  (PairsExactlyOnce).
- Physics: a world object's shape and colour are not modelled, because
  collisions do not read them; triangles are a bare `Triangle` item. The
  application's `Object::Sphere` has a rigid body as a fourth field
  (src/main.rs:191), whereas `src/world.rs:16` declares three fields, so the
  body is a separate `Body` record.
- Display.Mean: durations are whole nanoseconds without an upper bound. The
  mean is the floor of the total divided by the length. `Duration`'s
  division floors the seconds' carry and the nanoseconds separately, which can
  give one nanosecond less. The `u32` cast of the length and overflow of the
  sum are not modelled.
- Display.RenderFrame: rayon's parallel `for_each` is modelled as a sequential
  loop. The chunks are disjoint, so the order does not matter. `Instant` timing
  and `eprintln!` are left out.
- `Quat::rotation`: the result of `cos`/`sin` is not computed, so the
  quarter-turn unit test (src/math.rs:381-387) is not stated.
- Quaternion product associativity, and the fact that rotating by a unit
  quaternion preserves length, are not proved. The raycaster does not need them.
- The window, event loop and `pixels` surface (src/main.rs:46-147) are not part
  of this model, because they are I/O.
- `handle_input` (src/main.rs:223-294) is keyboard glue. Its re-normalisation
  depends on `f32::EPSILON` drift, which has no meaning over the reals.
- `handle_accels` (src/main.rs:149-179) and `com` are left out. They are
  parallel gravity sums and float averaging.
- Loading the scene from RON through serde is left out; it is a foreign
  library.

## Findings

| source | as written | input that shows it | evidently intended | confidence | as-written member | corrected member |
|---|---|---|---|---|---|---|
| src/world.rs:62 | each channel is `round(a·(1-r)) as u8 + round(b·r) as u8`, rounded twice and added as `u8` with no clamp | `White.interpolate(White, 0.5)`: 127.5 rounds to 128 twice, and 128 + 128 overflows `u8`: a debug build panics, and a release build wraps to 0 so the channel goes dark. `interpolate` is marked `#[allow(dead_code)]` (src/world.rs:59) and has no caller in the source, so no frame shows this | a single rounding of the weighted mean `a·(1-r) + b·r`, which stays between the two channels | not executed | Scene.InterpolateAsWrittenOverflows | Scene.InterpolateBetween |
