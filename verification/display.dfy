/**
 * The frame loop of the application (src/main.rs, `do_render`): every RGBA pixel
 * of the frame buffer gets the colour of its primary ray, and a bounded log of
 * recent frame times gives the running average.
 *
 * The source colours the pixels in parallel, each four-byte chunk on its own; the
 * chunks are disjoint, so the model colours them one after another.
 */
module Display {
  import opened Reals
  import opened Geometry
  import opened Scene
  import opened Render

  /** `DIMS`: the window is 600 pixels wide and 375 high. */
  const Width: nat := 600
  const Height: nat := 375

  /** `HALF_DIMS`: the screen centre, in pixels. */
  const HalfWidth: real := 300.0
  const HalfHeight: real := 187.5

  /** `N_FRAMES`: how many frame times the running average covers. */
  const NFrames: nat := 20

  // ---------------------------------------------------------------- pixels

  /**
   * `(i % DIMS.0, i / DIMS.0)`: the column and row of the `i`-th pixel in
   * row-major order.
   */
  function PixelCoords(i: nat): (xy: (nat, nat))
    requires i < Width * Height
    ensures xy.0 < Width && xy.1 < Height
    ensures xy.1 * Width + xy.0 == i
  {
    (i % Width, i / Width)
  }

  /** The mapping is one-to-one: the pixel at column `x` and row `y` has index `y·600 + x`. */
  lemma PixelIndexRoundTrip(x: nat, y: nat)
    requires x < Width && y < Height
    ensures y * Width + x < Width * Height
    ensures PixelCoords(y * Width + x) == (x, y)
  {
    assert y * Width + x < (y + 1) * Width <= Height * Width;
    var i := y * Width + x;
    var (x', y') := PixelCoords(i);
    assert (y - y') * Width == x' - x;
  }

  /**
   * `(x as f32 - HALF_DIMS.0, y as f32 - HALF_DIMS.1)`: the pixel's offset from the
   * screen centre. The vertical offset is never zero, since the centre lies
   * between two rows.
   */
  function ScreenOffset(x: nat, y: nat): (o: (real, real))
    requires x < Width && y < Height
    ensures -HalfWidth <= o.0 < HalfWidth
    ensures -HalfHeight <= o.1 < HalfHeight
    ensures o.1 != 0.0
  {
    (x as real - HalfWidth, y as real - HalfHeight)
  }

  /** The number of pixels coloured: whole 4-byte chunks of the frame, at most one per screen pixel. */
  function PixelCount(frameLength: nat): nat {
    Smaller(frameLength / 4, Width * Height)
  }

  /** The colour `get_px` gives the `i`-th pixel. */
  function PixelColor(sqrt: real -> real, cam: Camera, world: World, i: nat): Color
    requires cam.pxPerUnit != 0.0 && i < Width * Height
  {
    var (x, y) := PixelCoords(i);
    var (xw, yw) := ScreenOffset(x, y);
    GetPx(sqrt, cam, world, xw, yw)
  }

  /** Bytes `4p`, `4p + 1` and `4p + 2` of the frame hold the red, green and blue of `c`. */
  ghost predicate Painted(frame: array<Byte>, p: nat, c: Color)
    requires 4 * p + 3 <= frame.Length
    reads frame
  {
    frame[4 * p] == Get(c, 0) && frame[4 * p + 1] == Get(c, 1) && frame[4 * p + 2] == Get(c, 2)
  }

  /**
   * The pixel loop of `do_render`: bytes 0 to 2 of every pixel's chunk receive its
   * colour; the alpha byte of each chunk, and any bytes past the last coloured
   * chunk, keep what they held.
   */
  method RenderFrame(sqrt: real -> real, frame: array<Byte>, world: World, cam: Camera)
    requires cam.pxPerUnit != 0.0
    modifies frame
    ensures forall p :: 0 <= p < PixelCount(frame.Length) ==>
      Painted(frame, p, PixelColor(sqrt, cam, world, p))
    ensures forall p :: 0 <= p < PixelCount(frame.Length) ==> frame[4 * p + 3] == old(frame[4 * p + 3])
    ensures forall j :: 4 * PixelCount(frame.Length) <= j < frame.Length ==> frame[j] == old(frame[j])
  {
    var n := PixelCount(frame.Length);
    var colorOf := (i: nat) => if i < Width * Height then PixelColor(sqrt, cam, world, i) else Black;
    ForEachPixel(frame, n, colorOf);
    forall p | 0 <= p < n
      ensures Painted(frame, p, PixelColor(sqrt, cam, world, p))
    {
      assert p < Width * Height;
      assert colorOf(p) == PixelColor(sqrt, cam, world, p);
    }
  }

  /**
   * `par_chunks_exact_mut(4).zip(0..).for_each(..)`: chunk `p`, for each `p < n`,
   * receives the colour `colorOf(p)` in its first three bytes. The chunks are
   * disjoint, so the order in which they are visited does not matter.
   */
  method ForEachPixel(frame: array<Byte>, n: nat, colorOf: nat -> Color)
    requires 4 * n <= frame.Length
    modifies frame
    ensures forall p :: 0 <= p < n ==> Painted(frame, p, colorOf(p))
    ensures forall p :: 0 <= p < n ==> frame[4 * p + 3] == old(frame[4 * p + 3])
    ensures forall j :: 4 * n <= j < frame.Length ==> frame[j] == old(frame[j])
  {
    var i := 0;
    while i < n
      invariant 0 <= i <= n
      invariant forall p :: 0 <= p < i ==> Painted(frame, p, colorOf(p))
      invariant forall p :: 0 <= p < i ==> frame[4 * p + 3] == old(frame[4 * p + 3])
      invariant forall j :: 4 * i <= j < frame.Length ==> frame[j] == old(frame[j])
    {
      PaintPixel(frame, i, colorOf(i));
      i := i + 1;
    }
  }

  /** `pixel[0..=2].copy_from_slice(..)`: the colour goes into the first three bytes of chunk `p`. */
  method PaintPixel(frame: array<Byte>, p: nat, c: Color)
    requires 4 * p + 3 <= frame.Length
    modifies frame
    ensures Painted(frame, p, c)
    ensures forall j :: 0 <= j < frame.Length && (j < 4 * p || j >= 4 * p + 3) ==> frame[j] == old(frame[j])
  {
    frame[4 * p] := Get(c, 0);
    frame[4 * p + 1] := Get(c, 1);
    frame[4 * p + 2] := Get(c, 2);
  }

  // ---------------------------------------------------------------- frame times

  /** The sum of a sequence of durations. */
  function Total(xs: seq<nat>): nat {
    if xs == [] then 0 else Total(xs[..|xs| - 1]) + xs[|xs| - 1]
  }

  /** The shortest and the longest of a non-empty sequence of durations. */
  function Shortest(xs: seq<nat>): (m: nat)
    requires |xs| >= 1
    ensures m in xs && forall i :: 0 <= i < |xs| ==> m <= xs[i]
  {
    if |xs| == 1 then xs[0] else Smaller(Shortest(xs[..|xs| - 1]), xs[|xs| - 1])
  }

  function Longest(xs: seq<nat>): (m: nat)
    requires |xs| >= 1
    ensures m in xs && forall i :: 0 <= i < |xs| ==> xs[i] <= m
  {
    if |xs| == 1 then xs[0] else Larger(Longest(xs[..|xs| - 1]), xs[|xs| - 1])
  }

  /** The sum lies between `len` times the shortest and `len` times the longest duration. */
  lemma {:induction false} TotalBounds(xs: seq<nat>)
    requires |xs| >= 1
    ensures |xs| * Shortest(xs) <= Total(xs) <= |xs| * Longest(xs)
  {
    if |xs| > 1 {
      var front := xs[..|xs| - 1];
      TotalBounds(front);
      assert Total(xs) == Total(front) + xs[|xs| - 1];
      StepBounds(|front|, Shortest(xs), Shortest(front), Longest(front), Longest(xs),
                 Total(front), xs[|xs| - 1]);
    }
  }

  /**
   * One more element: if the front's sum lies in `[n·s', n·l']` and the bounds widen
   * to `s <= s'`, `l' <= l` with the new element `x` in `[s, l]`, the sum with `x` lies
   * in `[(n + 1)·s, (n + 1)·l]`.
   */
  lemma StepBounds(n: nat, s: int, s': int, l': int, l: int, total: int, x: int)
    requires s <= s' && l' <= l && s <= x <= l
    requires n * s' <= total <= n * l'
    ensures (n + 1) * s <= total + x <= (n + 1) * l
  {
    MulMonotone(n, s, s');
    MulMonotone(n, l', l);
    assert (n + 1) * s == n * s + s;
    assert (n + 1) * l == n * l + l;
  }

  lemma MulMonotone(n: nat, a: int, b: int)
    requires a <= b
    ensures n * a <= n * b
  {
  }

  /** Rounding `t / n` down stays within `[lo, hi]` when `t` lies within `[n·lo, n·hi]`. */
  lemma QuotientBetween(t: nat, n: nat, lo: nat, hi: nat)
    requires n > 0 && n * lo <= t <= n * hi
    ensures lo <= t / n <= hi
  {
    var q, r := t / n, t % n;
    assert t == n * q + r && 0 <= r < n;
    assert n * (q + 1) == n * q + n;
    MulCancel(n, lo, q + 1);
    MulCancel(n, q, hi + 1);
    assert n * (hi + 1) == n * hi + n;
  }

  /** A positive factor can be cancelled from a strict inequality. */
  lemma MulCancel(n: nat, a: int, b: int)
    requires n > 0
    ensures n * a < n * b ==> a < b
  {
    if b <= a {
      MulMonotone(n, b, a);
    }
  }

  /**
   * `sum::<Duration>() / len as u32`: the mean duration, rounded down. It never
   * divides by zero, and it lies between the shortest and the longest duration.
   */
  function Mean(xs: seq<nat>): (m: nat)
    requires |xs| >= 1
    ensures Shortest(xs) <= m <= Longest(xs)
  {
    TotalBounds(xs);
    QuotientBetween(Total(xs), |xs|, Shortest(xs), Longest(xs));
    Total(xs) / |xs|
  }

  /**
   * `frametime_log`, a `VecDeque<Duration>` with the newest duration at the
   * front. Durations are whole nanoseconds.
   */
  class FrameTimeLog {
    var entries: seq<nat>

    /** `VecDeque::with_capacity(N_FRAMES)`: an empty log. */
    constructor ()
      ensures entries == []
    {
      entries := [];
    }

    /**
     * Drop entries from the back while there are `N_FRAMES` or more, then push
     * `took` at the front: the log holds the newest duration followed by the
     * newest of the older ones, in their order, and never more than `N_FRAMES`.
     */
    method Record(took: nat)
      modifies this
      ensures entries == [took] + old(entries)[..Smaller(|old(entries)|, NFrames - 1)]
      ensures 1 <= |entries| <= NFrames
    {
      while |entries| >= NFrames
        invariant Smaller(|old(entries)|, NFrames - 1) <= |entries| <= |old(entries)|
        invariant entries == old(entries)[..|entries|]
        decreases |entries|
      {
        entries := entries[..|entries| - 1];
      }
      entries := [took] + entries;
    }

    /** The average printed after each frame, over the whole log. */
    function Average(): (avg: nat)
      reads this
      requires |entries| >= 1
      ensures Shortest(entries) <= avg <= Longest(entries)
    {
      Mean(entries)
    }
  }
}
