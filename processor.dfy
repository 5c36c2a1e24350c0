/** The wear processor: a field of randomly placed erosion points and a noise
    source, and the four per-pixel transforms that read them. */
module Processing {
  import Rand

  const U64_LIMIT: nat := 0x1_0000_0000_0000_0000

  type u8 = x: int | 0 <= x < 256
  type u64 = x: int | 0 <= x < 0x1_0000_0000_0000_0000

  /** One erosion point is spawned for every POINT_FREQUENCY pixels of area. */
  const POINT_FREQUENCY: nat := 10
  /** Point sizes are drawn from the half-open range POINT_SIZE_MIN..POINT_SIZE_MAX. */
  const POINT_SIZE_MIN: u8 := 1
  const POINT_SIZE_MAX: u8 := 2
  /** Pixel coordinates are divided by this before the noise is sampled. */
  const NOISE_DIVISION: real := 20.0

  datatype Rgba = Rgba(r: u8, g: u8, b: u8, a: u8)

  const OPAQUE_BLACK: Rgba := Rgba(0, 0, 0, 255)

  datatype Position = Position(x: u64, y: u64)

  /** An erosion point: pixels closer to `position` than `size` are eroded. */
  datatype PointData = PointData(position: Position, size: u8)

  /** The coherent-noise source: any function of two coordinates whose values
      stay within [-1, 1]. */
  type Noise = f: (real, real) -> real | forall u, v :: -1.0 <= f(u, v) <= 1.0
    witness (u: real, v: real) => 0.0

  // ---------------------------------------------------------------------
  // Point field generation

  /** Number of points generated for an image of the given size. */
  function PointCount(imageWidth: nat, imageHeight: nat): (n: nat)
    ensures n * POINT_FREQUENCY <= imageWidth * imageHeight < (n + 1) * POINT_FREQUENCY
    ensures n > 0 ==> imageWidth > 0 && imageHeight > 0
  {
    imageWidth * imageHeight / POINT_FREQUENCY
  }

  /** Whether a point lies in the image and has a size from the configured range. */
  predicate InBounds(p: PointData, imageWidth: nat, imageHeight: nat)
  {
    p.position.x < imageWidth && p.position.y < imageHeight &&
    POINT_SIZE_MIN <= p.size < POINT_SIZE_MAX
  }

  /** The i-th generated point: its size, x and y are the generator's
      draws number 3i, 3i+1 and 3i+2. */
  function PointAt(entropy: nat -> nat, imageWidth: u64, imageHeight: u64, i: nat): (p: PointData)
    requires 0 < imageWidth && 0 < imageHeight
    ensures InBounds(p, imageWidth, imageHeight)
  {
    var size := Rand.Draw(entropy, 3 * i, POINT_SIZE_MIN, POINT_SIZE_MAX);
    var x := Rand.Draw(entropy, 3 * i + 1, 0, imageWidth);
    var y := Rand.Draw(entropy, 3 * i + 2, 0, imageHeight);
    PointData(Position(x, y), size)
  }

  /** The first n generated points, in generation order. */
  function PointField(entropy: nat -> nat, imageWidth: u64, imageHeight: u64, n: nat): (ps: seq<PointData>)
    requires n == 0 || (0 < imageWidth && 0 < imageHeight)
    ensures |ps| == n
    ensures forall i :: 0 <= i < n ==> ps[i] == PointAt(entropy, imageWidth, imageHeight, i)
    ensures forall p :: p in ps ==> InBounds(p, imageWidth, imageHeight)
  {
    if n == 0 then []
    else PointField(entropy, imageWidth, imageHeight, n - 1) + [PointAt(entropy, imageWidth, imageHeight, n - 1)]
  }

  /** Appending the point built from the next three draws extends the field by one. */
  lemma PointFieldNext(entropy: nat -> nat, imageWidth: u64, imageHeight: u64, i: nat,
                       size: u8, x: u64, y: u64)
    requires 0 < imageWidth && 0 < imageHeight
    requires size == Rand.Draw(entropy, 3 * i, POINT_SIZE_MIN, POINT_SIZE_MAX)
    requires x == Rand.Draw(entropy, 3 * i + 1, 0, imageWidth)
    requires y == Rand.Draw(entropy, 3 * i + 2, 0, imageHeight)
    ensures PointField(entropy, imageWidth, imageHeight, i + 1) ==
            PointField(entropy, imageWidth, imageHeight, i) + [PointData(Position(x, y), size)]
  {
  }

  /** The points generated for a whole image: floor(w*h / POINT_FREQUENCY) of
      them, all inside the image, all of size 1 (the only value of the range). */
  lemma GeneratedPointsInvariant(entropy: nat -> nat, imageWidth: u64, imageHeight: u64)
    ensures var ps := PointField(entropy, imageWidth, imageHeight, PointCount(imageWidth, imageHeight));
      |ps| == imageWidth * imageHeight / POINT_FREQUENCY &&
      forall p :: p in ps ==>
        p.position.x < imageWidth && p.position.y < imageHeight && p.size == POINT_SIZE_MIN
  {
  }

  // ---------------------------------------------------------------------
  // Distance and point proximity

  /** The squared Euclidean distance between two pixel positions. */
  function SquaredDistance(p: Position, q: Position): (d: nat)
    ensures d == 0 <==> p == q
  {
    var dx := p.x - q.x;
    var dy := p.y - q.y;
    dx * dx + dy * dy
  }

  /** Whether `pos` lies strictly inside the point's radius. A point of size 0
      reaches nothing, and a point of size 1 reaches exactly its own pixel. */
  predicate WithinRadius(point: PointData, pos: Position)
    ensures point.size == 0 ==> !WithinRadius(point, pos)
    ensures point.size == 1 ==> (WithinRadius(point, pos) <==> pos == point.position)
    ensures point.size >= 1 && pos == point.position ==> WithinRadius(point, pos)
  {
    SquaredDistance(point.position, pos) < point.size * point.size
  }

  predicate AnyWithin(points: seq<PointData>, pos: Position)
  {
    exists i :: 0 <= i < |points| && WithinRadius(points[i], pos)
  }

  predicate AnyAt(points: seq<PointData>, pos: Position)
  {
    exists i :: 0 <= i < |points| && points[i].position == pos
  }

  // ---------------------------------------------------------------------
  // Noise

  function Abs(v: real): (r: real)
    ensures 0.0 <= r && (r == v || r == -v)
  {
    if v < 0.0 then -v else v
  }

  /** One octave term: the magnitude of the noise at (u, v), weighted by a third. */
  function Octave(noise: Noise, u: real, v: real): (o: real)
    ensures 0.0 <= o <= 1.0 / 3.0
  {
    Abs(noise(u, v)) / 3.0
  }

  /** The erosion strength at a position: three octaves, sampled at the
      position divided by NOISE_DIVISION and scaled by 1, 2 and 4. */
  function Composite(noise: Noise, pos: Position): (c: real)
    ensures 0.0 <= c <= 1.0
  {
    var u := pos.x as real / NOISE_DIVISION;
    var v := pos.y as real / NOISE_DIVISION;
    Octave(noise, u, v) + Octave(noise, u * 2.0, v * 2.0) + Octave(noise, u * 4.0, v * 4.0)
  }

  /** A float-to-u8 cast: truncation toward zero, saturating at both ends. */
  function SaturatingCast(v: real): (b: u8)
    ensures v <= 0.0 ==> b == 0
    ensures 255.0 <= v ==> b == 255
    ensures 0.0 <= v ==> b as real <= v
    ensures 0.0 <= v < 256.0 ==> v < b as real + 1.0
  {
    if v <= 0.0 then 0 else if v >= 255.0 then 255 else v.Floor
  }

  /** A channel value times a factor, written as repeated addition so that
      the arithmetic stays linear; ScaledIsProduct shows it is the product. */
  function Scaled(channel: nat, c: real): (v: real)
    ensures 0.0 <= c <= 1.0 ==> 0.0 <= v <= channel as real
    ensures c == 1.0 ==> v == channel as real
    ensures c <= 0.0 ==> v <= 0.0
  {
    if channel == 0 then 0.0 else Scaled(channel - 1, c) + c
  }

  lemma {:induction false} ScaledIsProduct(channel: nat, c: real)
    ensures Scaled(channel, c) == channel as real * c
  {
    if channel > 0 {
      ScaledIsProduct(channel - 1, c);
      assert (channel - 1) as real * c + c == channel as real * c;
    }
  }

  /** Casting a value no larger than a channel value gives at most that channel. */
  lemma CastAtMost(v: real, bound: u8)
    ensures v <= bound as real ==> SaturatingCast(v) <= bound
  {
  }

  /** A channel scaled by a noise factor: `(channel as f64 * c) as u8`. A
      factor in [0, 1] never raises the channel, a factor of 1 keeps it, and
      a non-positive factor clears it. */
  function ScaleChannel(channel: u8, c: real): (r: u8)
    ensures 0.0 <= c <= 1.0 ==> r <= channel
    ensures c == 1.0 ==> r == channel
    ensures c <= 0.0 ==> r == 0
  {
    var v := Scaled(channel, c);
    CastAtMost(v, channel);
    SaturatingCast(v)
  }

  /** A channel raised by a noise factor: `(channel as f64 + 255.0 * c) as u8`.
      A factor in [0, 1] never lowers the channel; the cast saturates at 255. */
  function RaiseChannel(channel: u8, c: real): (r: u8)
    ensures 0.0 <= c ==> channel <= r
    ensures c == 0.0 ==> r == channel
    ensures c == 1.0 ==> r == 255
  {
    SaturatingCast(channel as real + 255.0 * c)
  }

  // ---------------------------------------------------------------------
  // The four per-pixel transforms

  /** Normal wear: alpha is scaled by the composite noise, then forced to 0
      inside any point's radius; colour is untouched. */
  function WornPixel(points: seq<PointData>, noise: Noise, pos: Position, px: Rgba): Rgba
  {
    var a := if AnyWithin(points, pos) then 0
             else ScaleChannel(px.a, Composite(noise, pos));
    px.(a := a)
  }

  /** Debug view: green gains the composite noise, blue marks point radii,
      red marks exact point positions; alpha is untouched. */
  function DebugPixel(points: seq<PointData>, noise: Noise, pos: Position, px: Rgba): Rgba
  {
    Rgba(if AnyAt(points, pos) then 255 else px.r,
         RaiseChannel(px.g, Composite(noise, pos)),
         if AnyWithin(points, pos) then 255 else px.b,
         px.a)
  }

  /** Test pattern: opaque white colour, alpha from the low byte of x modulo 255. */
  function TransparencyTest(pos: Position, px: Rgba): (r: Rgba)
    ensures r.r == 255 && r.g == 255 && r.b == 255
    ensures r.a < 255
    ensures pos.x < 256 ==> r.a == pos.x % 255
  {
    Rgba(255, 255, 255, (pos.x % 256) % 255)
  }

  function SetBlack(pos: Position, px: Rgba): (r: Rgba)
    ensures r.r == 0 && r.g == 0 && r.b == 0 && r.a == 255
  {
    OPAQUE_BLACK
  }

  // ---------------------------------------------------------------------
  // The processor

  class Processor {
    const rng: Rand.Rng
    const noise: Noise
    const points: seq<PointData>

    /** Generates PointCount(imageWidth, imageHeight) points from the
        generator's draws. The product of the dimensions must fit in 64 bits
        (overflow panics). */
    constructor (imageWidth: u64, imageHeight: u64, entropy: nat -> nat, noise: Noise)
      requires imageWidth * imageHeight < U64_LIMIT
      ensures points == PointField(entropy, imageWidth, imageHeight, PointCount(imageWidth, imageHeight))
      ensures |points| == imageWidth * imageHeight / POINT_FREQUENCY
      ensures forall p :: p in points ==>
        p.position.x < imageWidth && p.position.y < imageHeight && p.size == POINT_SIZE_MIN
      ensures this.noise == noise
      ensures fresh(rng) && rng.entropy == entropy && rng.cursor == 3 * |points|
    {
      var generator := new Rand.Rng(entropy);
      var pts: seq<PointData> := [];
      var count := PointCount(imageWidth, imageHeight);
      for i := 0 to count
        invariant pts == PointField(entropy, imageWidth, imageHeight, i)
        invariant generator.entropy == entropy && generator.cursor == 3 * i
      {
        var size := generator.RandomRange(POINT_SIZE_MIN, POINT_SIZE_MAX);
        var x := generator.RandomRange(0, imageWidth);
        var y := generator.RandomRange(0, imageHeight);
        PointFieldNext(entropy, imageWidth, imageHeight, i, size, x, y);
        pts := pts + [PointData(Position(x, y), size)];
      }
      rng := generator;
      this.noise := noise;
      points := pts;
      GeneratedPointsInvariant(entropy, imageWidth, imageHeight);
    }

    method ProcessPixel(position: Position, pixel: Rgba) returns (out: Rgba)
      ensures out == WornPixel(points, noise, position, pixel)
    {
      out := pixel.(a := ScaleChannel(pixel.a, Composite(noise, position)));
      for i := 0 to |points|
        invariant out == WornPixel(points[..i], noise, position, pixel)
      {
        var point := points[i];
        var dist := SquaredDistance(point.position, position);
        if dist < point.size * point.size {
          out := out.(a := 0);
        }
      }
      assert points[..|points|] == points;
    }

    method ProcessPixelDebug(position: Position, pixel: Rgba) returns (out: Rgba)
      ensures out == DebugPixel(points, noise, position, pixel)
    {
      out := pixel.(g := RaiseChannel(pixel.g, Composite(noise, position)));
      for i := 0 to |points|
        invariant out == DebugPixel(points[..i], noise, position, pixel)
      {
        var point := points[i];
        var dist := SquaredDistance(point.position, position);
        if dist < point.size * point.size {
          out := out.(b := 255);
        }
        if position == point.position {
          out := out.(r := 255);
        }
      }
      assert points[..|points|] == points;
    }
  }

  // ---------------------------------------------------------------------
  // Properties

  /** Normal wear keeps the colour, never raises alpha, and clears alpha
      inside any point's radius. */
  lemma WornPixelProperties(points: seq<PointData>, noise: Noise, pos: Position, px: Rgba)
    ensures WornPixel(points, noise, pos, px).r == px.r
    ensures WornPixel(points, noise, pos, px).g == px.g
    ensures WornPixel(points, noise, pos, px).b == px.b
    ensures WornPixel(points, noise, pos, px).a <= px.a
    ensures AnyWithin(points, pos) ==> WornPixel(points, noise, pos, px).a == 0
  {
  }

  /** A point of size at least 1 erodes its own pixel completely. */
  lemma WornPixelAtPoint(points: seq<PointData>, noise: Noise, i: nat, px: Rgba)
    requires i < |points| && points[i].size >= 1
    ensures WornPixel(points, noise, points[i].position, px).a == 0
  {
  }

  /** The debug view keeps alpha, never lowers green, and marks red and blue
      exactly where a point sits or reaches. */
  lemma DebugPixelProperties(points: seq<PointData>, noise: Noise, pos: Position, px: Rgba)
    ensures DebugPixel(points, noise, pos, px).a == px.a
    ensures px.g <= DebugPixel(points, noise, pos, px).g
    ensures DebugPixel(points, noise, pos, px).b == (if AnyWithin(points, pos) then 255 else px.b)
    ensures DebugPixel(points, noise, pos, px).r == (if AnyAt(points, pos) then 255 else px.r)
  {
  }

  /** A point of size at least 1 gets both its red and its blue marker. */
  lemma DebugPixelAtPoint(points: seq<PointData>, noise: Noise, i: nat, px: Rgba)
    requires i < |points| && points[i].size >= 1
    ensures DebugPixel(points, noise, points[i].position, px).r == 255
    ensures DebugPixel(points, noise, points[i].position, px).b == 255
  {
  }

  /** Only which points exist matters, not their order or repetitions. */
  lemma PointOrderIrrelevant(ps: seq<PointData>, qs: seq<PointData>, noise: Noise, pos: Position, px: Rgba)
    requires forall p :: p in ps <==> p in qs
    ensures WornPixel(ps, noise, pos, px) == WornPixel(qs, noise, pos, px)
    ensures DebugPixel(ps, noise, pos, px) == DebugPixel(qs, noise, pos, px)
  {
    SameMatches(ps, qs, pos);
    SameMatches(qs, ps, pos);
  }

  lemma SameMatches(ps: seq<PointData>, qs: seq<PointData>, pos: Position)
    requires forall p :: p in ps ==> p in qs
    ensures AnyWithin(ps, pos) ==> AnyWithin(qs, pos)
    ensures AnyAt(ps, pos) ==> AnyAt(qs, pos)
  {
    if AnyWithin(ps, pos) {
      var i :| 0 <= i < |ps| && WithinRadius(ps[i], pos);
      assert ps[i] in qs;
    }
    if AnyAt(ps, pos) {
      var i :| 0 <= i < |ps| && ps[i].position == pos;
      assert ps[i] in qs;
    }
  }

  /** The test pattern repeats every 256 columns and ignores y and the pixel. */
  lemma TransparencyTestPeriodic(x: u64, y1: u64, y2: u64, px1: Rgba, px2: Rgba)
    requires x + 256 < U64_LIMIT
    ensures TransparencyTest(Position(x + 256, y1), px1) == TransparencyTest(Position(x, y2), px2)
  {
  }

  /** The alpha comes from the low byte of x: column 256 is transparent
      again, where x mod 255 would give 1. */
  lemma TransparencyTestUsesLowByte(y: u64, px: Rgba)
    ensures TransparencyTest(Position(256, y), px).a == 0
    ensures TransparencyTest(Position(256, y), px).a != 256 % 255
  {
  }

  lemma SetBlackIdempotent(pos: Position, px: Rgba)
    ensures SetBlack(pos, SetBlack(pos, px)) == SetBlack(pos, px)
  {
  }
}
