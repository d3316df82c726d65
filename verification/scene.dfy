/**
 * Scene values (src/world.rs): the objects a world is made of, and the RGB
 * colour with its two pieces of arithmetic, scaling by a light intensity and
 * linear interpolation.
 *
 * `f32::round` rounds half-way cases away from zero, and a float-to-`u8` cast
 * saturates at 0 and 255; both are written out here.
 */
module Scene {
  import opened Options
  import opened Reals
  import opened Geometry

  /** A `u8`. */
  type Byte = n: int | 0 <= n < 256

  /** The three channels of a colour, `[u8; 3]`. */
  type Channels = s: seq<Byte> | |s| == 3 witness [0, 0, 0]

  /** `Color(pub [u8; 3])`: red, green and blue. */
  datatype Color = Color(channels: Channels)

  /** `Color([0; 3])`, the colour of a pixel that hits nothing. */
  const Black := Color([0, 0, 0])
  const White := Color([255, 255, 255])

  /** `Object`: a triangle given by its three corners, or a sphere by its centre and radius. */
  datatype Object =
    | Triangle(p1: Vec3, p2: Vec3, p3: Vec3, color: Color)
    | Sphere(center: Vec3, radius: real, color: Color)

  /** `Transform`: where a camera stands and how it is turned. */
  datatype Transform = Transform(position: Vec3, rotation: Quat)

  /** `World`: the objects in scene order, and the position of the one point light. */
  datatype World = World(objects: seq<Object>, light: Vec3)

  /** `Object::get_color`: the colour stored in either variant. */
  function GetColor(o: Object): (c: Color)
    ensures o.Triangle? ==> c == o.color
    ensures o.Sphere? ==> c == o.color
  {
    match o
    case Triangle(_, _, _, c) => c
    case Sphere(_, _, c) => c
  }

  /** `Index<usize>`: channel `i`; an index past 2 panics in the source. */
  function Get(c: Color, i: nat): Byte
    requires i < 3
  {
    c.channels[i]
  }

  /**
   * `IndexMut<usize>`, used as `c[i] = n`: the colour with channel `i` replaced by
   * `n` and the other two channels as they were.
   */
  function SetChannel(c: Color, i: nat, n: Byte): (d: Color)
    requires i < 3
    ensures Get(d, i) == n
    ensures forall j :: 0 <= j < 3 && j != i ==> Get(d, j) == Get(c, j)
  {
    Color(c.channels[i := n])
  }

  // ---------------------------------------------------------------- rounding

  /**
   * `f32::round`: the nearest integer, with half-way cases rounded away from
   * zero.
   */
  function Round(x: real): (n: int)
    ensures x - 0.5 <= n as real <= x + 0.5
    ensures n as real == x + 0.5 ==> x >= 0.0
    ensures n as real == x - 0.5 ==> x <= 0.0
  {
    if x >= 0.0 then (x + 0.5).Floor else -((-x + 0.5).Floor)
  }

  /** `as u8` on a whole number: values below 0 become 0 and values above 255 become 255. */
  function Saturate(n: int): (b: Byte)
    ensures 0 <= n < 256 ==> b == n
    ensures n < 0 ==> b == 0
    ensures n >= 256 ==> b == 255
  {
    if n < 0 then 0 else if n > 255 then 255 else n
  }

  /** The product `n as f32 * f`, rounded and cast back to `u8`. */
  function ScaleChannel(n: Byte, f: real): Byte {
    Saturate(Round(n as real * f))
  }

  /** `Color * f32`: every channel scaled, rounded and saturated independently. */
  function ScaleColor(c: Color, f: real): (d: Color)
    ensures forall i :: 0 <= i < 3 ==> Get(d, i) == ScaleChannel(Get(c, i), f)
  {
    Color([ScaleChannel(c.channels[0], f), ScaleChannel(c.channels[1], f), ScaleChannel(c.channels[2], f)])
  }

  lemma RoundOfInteger(k: int)
    ensures Round(k as real) == k
  {
  }

  /** Rounding never reverses the order of two numbers. */
  lemma RoundMonotone(x: real, y: real)
    requires x <= y
    ensures Round(x) <= Round(y)
  {
    if 0.0 <= x {
      assert (x + 0.5).Floor <= (y + 0.5).Floor;
    } else if y < 0.0 {
      assert (-y + 0.5).Floor <= (-x + 0.5).Floor;
    }
  }

  /** Saturation picks the byte nearest to `n`. */
  lemma SaturateNearest(n: int, c: Byte)
    ensures Distance(Saturate(n), n) <= Distance(c, n)
  {
  }

  function Distance(a: int, b: int): nat {
    if a < b then b - a else a - b
  }

  // ---------------------------------------------------------------- Color * f32

  /** Scaling by 1.0 leaves a colour as it was. */
  lemma ScaleByOne(c: Color)
    ensures ScaleColor(c, 1.0) == c
  {
    forall i | 0 <= i < 3
      ensures Get(ScaleColor(c, 1.0), i) == Get(c, i)
    {
      RoundOfInteger(Get(c, i));
    }
    assert ScaleColor(c, 1.0).channels == c.channels;
  }

  /** Scaling by 0.0 gives black. */
  lemma ScaleByZero(c: Color)
    ensures ScaleColor(c, 0.0) == Black
  {
    forall i | 0 <= i < 3
      ensures Get(ScaleColor(c, 0.0), i) == 0
    {
      RoundOfInteger(0);
    }
    assert ScaleColor(c, 0.0).channels == Black.channels;
  }

  /** A factor in [0, 1] can only darken a channel; it never brightens it. */
  lemma ScaleChannelDims(n: Byte, f: real)
    requires 0.0 <= f <= 1.0
    ensures ScaleChannel(n, f) <= n
  {
    FractionOf(n as real, f);
    RoundMonotone(0.0, n as real * f);
    RoundMonotone(n as real * f, n as real);
    RoundOfInteger(0);
    RoundOfInteger(n);
  }

  lemma ScaleDims(c: Color, f: real)
    requires 0.0 <= f <= 1.0
    ensures forall i :: 0 <= i < 3 ==> Get(ScaleColor(c, f), i) <= Get(c, i)
  {
    forall i | 0 <= i < 3
      ensures Get(ScaleColor(c, f), i) <= Get(c, i)
    {
      ScaleChannelDims(Get(c, i), f);
    }
  }

  // ---------------------------------------------------------------- interpolate

  /**
   * `Color::interpolate` as the source writes it: each channel is the sum of two
   * separately rounded `u8` terms, added as `u8`. When a sum exceeds 255 the
   * addition overflows (a panic in a debug build); the model answers None then.
   */
  function InterpolateAsWritten(a: Color, b: Color, ratio: real): Option<Color> {
    var s0 := ScaleChannel(Get(a, 0), 1.0 - ratio) + ScaleChannel(Get(b, 0), ratio);
    var s1 := ScaleChannel(Get(a, 1), 1.0 - ratio) + ScaleChannel(Get(b, 1), ratio);
    var s2 := ScaleChannel(Get(a, 2), 1.0 - ratio) + ScaleChannel(Get(b, 2), ratio);
    if s0 < 256 && s1 < 256 && s2 < 256 then Some(Color([s0, s1, s2])) else None
  }

  /** At ratio 0 the source returns the first colour, and at ratio 1 the second. */
  lemma InterpolateAsWrittenEnds(a: Color, b: Color)
    ensures InterpolateAsWritten(a, b, 0.0) == Some(a)
    ensures InterpolateAsWritten(a, b, 1.0) == Some(b)
  {
    ScaleByOne(a);
    ScaleByZero(a);
    ScaleByOne(b);
    ScaleByZero(b);
    assert Color([Get(a, 0), Get(a, 1), Get(a, 2)]) == a;
    assert Color([Get(b, 0), Get(b, 1), Get(b, 2)]) == b;
  }

  /**
   * The overflow: white with white at ratio 0.5 rounds 127.5 up twice, and
   * 128 + 128 does not fit in a `u8`.
   */
  lemma InterpolateAsWrittenOverflows()
    ensures InterpolateAsWritten(White, White, 0.5) == None
  {
    assert ScaleChannel(255, 0.5) == 128;
  }

  /**
   * Interpolation as intended: one rounding of the weighted mean, so that the
   * result always fits in a `u8`.
   */
  function Interpolate(a: Color, b: Color, ratio: real): Color {
    Color([Mix(Get(a, 0), Get(b, 0), ratio), Mix(Get(a, 1), Get(b, 1), ratio), Mix(Get(a, 2), Get(b, 2), ratio)])
  }

  function Mix(m: Byte, n: Byte, ratio: real): Byte {
    Saturate(Round(Lerp(m as real, n as real, ratio)))
  }

  /** For a ratio in [0, 1] each mixed channel lies between the two channels it mixes. */
  lemma MixBetween(m: Byte, n: Byte, ratio: real)
    requires 0.0 <= ratio <= 1.0
    ensures Smaller(m, n) <= Mix(m, n, ratio) <= Larger(m, n)
  {
    var lo, hi := Smaller(m, n), Larger(m, n);
    var v := Lerp(m as real, n as real, ratio);
    LerpBetween(lo as real, hi as real, m as real, n as real, ratio);
    RoundMonotone(lo as real, v);
    RoundMonotone(v, hi as real);
    RoundOfInteger(lo);
    RoundOfInteger(hi);
  }

  /** The smaller of two whole numbers. */
  function Smaller(m: int, n: int): int {
    if m <= n then m else n
  }

  /** The larger of two whole numbers. */
  function Larger(m: int, n: int): int {
    if m <= n then n else m
  }

  lemma InterpolateBetween(a: Color, b: Color, ratio: real)
    requires 0.0 <= ratio <= 1.0
    ensures forall i :: 0 <= i < 3 ==>
      Smaller(Get(a, i), Get(b, i)) <= Get(Interpolate(a, b, ratio), i) <= Larger(Get(a, i), Get(b, i))
  {
    MixBetween(Get(a, 0), Get(b, 0), ratio);
    MixBetween(Get(a, 1), Get(b, 1), ratio);
    MixBetween(Get(a, 2), Get(b, 2), ratio);
  }

  /** The corrected interpolation keeps both ends: ratio 0 gives `a` and ratio 1 gives `b`. */
  lemma InterpolateEnds(a: Color, b: Color)
    ensures Interpolate(a, b, 0.0) == a
    ensures Interpolate(a, b, 1.0) == b
  {
    InterpolateBetween(a, b, 0.0);
    InterpolateBetween(a, b, 1.0);
    forall i | 0 <= i < 3
      ensures Get(Interpolate(a, b, 0.0), i) == Get(a, i)
      ensures Get(Interpolate(a, b, 1.0), i) == Get(b, i)
    {
      RoundOfInteger(Get(a, i));
      RoundOfInteger(Get(b, i));
    }
    assert Interpolate(a, b, 0.0).channels == a.channels;
    assert Interpolate(a, b, 1.0).channels == b.channels;
  }

  /** Where the source does not overflow on white, the corrected version gives white. */
  lemma InterpolateWhite()
    ensures Interpolate(White, White, 0.5) == White
  {
    RoundOfInteger(255);
    assert Mix(255, 255, 0.5) == 255;
  }
}
