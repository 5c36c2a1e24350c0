# wsm wear processor — a Dafny model

wsm makes a texture look worn. It scatters random erosion points over the
image and samples three octaves of coherent noise at every pixel. Normal mode
lowers each pixel's alpha by the noise and clears it near erosion points. A
debug mode paints the same information into the colour channels. There is also
a transparency test pattern and a solid-black stamp. The command-line driver
builds the processor from the image's size. It optionally stamps the image
black, then runs exactly one mode pass over every pixel of the buffer, in
place.

The model has three modules:

- `Rand` (`rand.dfy`) stands in for the random generator. Its raw output is a
  caller-supplied stream `entropy: nat -> nat`, and its state is the number of
  draws taken so far. `RandomRange(lo, hi)` returns `lo + entropy(i) % (hi - lo)`.
- `Processing` (`processor.dfy`) holds the pixel and point data types, point
  generation, the integer distance test, the octave sum over an abstract noise
  function, the saturating float-to-u8 cast and the four per-pixel transforms.
  `Processor` is a class. Its constructor fills the point list with a loop, as
  the source does. `ProcessPixel` and `ProcessPixelDebug` copy the pixel and
  overwrite channels in a loop over the points. Each is proved equal to a
  specification function (`WornPixel`, `DebugPixel`), and lemmas state what
  those functions promise.
- `Driver` (`driver.dfy`) models lines 25-58 of `main`. The image is an
  `array2<Rgba>` indexed `[x, y]`. `RunPass` is the outer `for x` loop and
  `RunColumn` the inner `for y` loop that calls `put_pixel`; `Run` is the
  flag-driven sequence of passes.

Modelling choices:

- The float test `|p - q| < size` is replaced by the integer test
  `dx² + dy² < size²`. For coordinates below 2^53, which every f64 holds
  exactly, and sizes below 256 the two agree. The driver's coordinates are
  below 2^32.
- The noise is a parameter of type `Noise`: any function of two reals whose
  values stay in [-1, 1]. The octave arithmetic is done over exact reals.
  The product alpha × composite is written as repeated addition (`Scaled`), so
  the arithmetic stays linear. `ScaledIsProduct` proves it equals the product.
- A float-to-u8 `as` cast truncates toward zero and saturates at 0 and 255.
  `SaturatingCast` models it.
- `transparency_test` computes `position[0] as u8 % 255`. The cast binds
  before `%`, so the alpha is `(x mod 256) mod 255`, not `x mod 255`; the two
  first differ at x = 256 (`TransparencyTestUsesLowByte`).
- The `as u8` cast truncates the scaled alpha rather than rounding it.
- `Processor::new` computes `image_width * image_height` in u64. With overflow
  checks on (a debug build) an overflow panics; a release build wraps and
  generates the wrong number of points. The constructor requires the product
  to fit in 64 bits. The
  driver passes u32 image dimensions, so the product always fits
  (`DimensionsFit`).

## Model

| member | source | states |
|---|---|---|
| `Rand.Draw` | src/processor.rs:28-30 | a `random_range(lo..hi)` draw lies in the half-open range; a one-value range always yields its lower bound |
| `Rand.Rng.constructor` | src/processor.rs:25 | a fresh generator over the given stream, with no draws taken yet |
| `Rand.Rng.RandomRange` | src/processor.rs:28-30 | returns a value in `lo..hi` (the range must be non-empty) and advances the generator by exactly one draw |
| `Processing.PointCount` | src/processor.rs:27 | the number of points is floor(width·height / POINT_FREQUENCY); it is 0 when width or height is 0 |
| `Processing.PointAt` | src/processor.rs:28-35 | a generated point lies in [0,w)×[0,h) and its size lies in the half-open size range |
| `Processing.PointField` | src/processor.rs:26-36 | n points in generation order; the i-th is built from draws 3i, 3i+1, 3i+2 (size, x, y); every point is in bounds |
| `Processing.PointFieldNext` | src/processor.rs:28-35 | pushing the point built from the next three draws extends the field by exactly that point |
| `Processing.GeneratedPointsInvariant` | src/processor.rs:27-35 | the whole image gets w·h/POINT_FREQUENCY points, all inside the image, all of size 1 |
| `Processing.Processor.constructor` | src/processor.rs:23-43 | the points are exactly the generated field; the generator has taken 3 draws per point; the noise is the one supplied |
| `Processing.SquaredDistance` | src/processor.rs:45-50 | the squared distance is 0 exactly when the two positions coincide |
| `Processing.WithinRadius` | src/processor.rs:61-62 | the radius test `dist < size`: a size-0 point reaches nothing, a size-1 point reaches exactly its own pixel, and any point of size at least 1 reaches its own pixel |
| `Processing.Octave` | src/processor.rs:55-57 | one octave term, the magnitude of the noise divided by 3, lies in [0, 1/3] |
| `Processing.Composite` | src/processor.rs:55-57 | the three-octave composite lies in [0, 1] |
| `Processing.SaturatingCast` | src/processor.rs:58 | float-to-u8 cast: 0 for non-positive inputs, 255 from 255 up, otherwise the truncation (at most v, more than v − 1) |
| `Processing.Scaled` | src/processor.rs:55-58 | channel × factor lies between 0 and the channel for a factor in [0, 1], equals the channel for factor 1 and is non-positive for a non-positive factor |
| `Processing.ScaledIsProduct` | src/processor.rs:55-58 | the repeated-addition form is exactly the real product channel × factor |
| `Processing.ScaleChannel` | src/processor.rs:55-58 | a channel scaled by a factor in [0, 1] never increases; factor 1 keeps it, factor ≤ 0 gives 0 |
| `Processing.RaiseChannel` | src/processor.rs:74-78 | green plus 255·factor never drops below the input green, is unchanged for factor 0 and saturates at 255 for factor 1 |
| `Processing.Processor.ProcessPixel` | src/processor.rs:52-68 | the loop over the points yields `WornPixel`: alpha is 0 if any point's radius holds the position, else the scaled alpha; colour is copied |
| `Processing.WornPixelProperties` | src/processor.rs:54-65 | normal wear leaves R, G, B unchanged, never raises alpha, and gives alpha 0 inside any point's radius |
| `Processing.WornPixelAtPoint` | src/processor.rs:60-65 | the pixel at a point's own position (size ≥ 1) gets alpha 0 |
| `Processing.Processor.ProcessPixelDebug` | src/processor.rs:70-93 | the loop yields `DebugPixel`: blue 255 if some point's radius holds the position, red 255 if some point sits exactly there, green raised by the composite |
| `Processing.DebugPixelProperties` | src/processor.rs:73-90 | debug keeps alpha, never lowers green, sets blue to 255 if some radius holds the position and otherwise keeps the input blue, and red to 255 if some point sits there and otherwise keeps the input red |
| `Processing.DebugPixelAtPoint` | src/processor.rs:82-90 | a point's own position (size ≥ 1) gets both red and blue set to 255 |
| `Processing.PointOrderIrrelevant` | src/processor.rs:60-65 | both transforms depend only on which points exist, not on their order or how many match |
| `Processing.TransparencyTest` | src/processor.rs:95-97 | colour channels (255, 255, 255), alpha below 255, equal to x mod 255 for x below 256 |
| `Processing.TransparencyTestPeriodic` | src/processor.rs:96 | the pattern repeats every 256 columns and ignores y and the input pixel |
| `Processing.TransparencyTestUsesLowByte` | src/processor.rs:96 | at x = 256 the alpha is 0, not 256 mod 255 |
| `Processing.SetBlack` | src/processor.rs:99-101 | the result is (0, 0, 0, 255) whatever the position and pixel |
| `Processing.SetBlackIdempotent` | src/processor.rs:99-101 | stamping black twice equals stamping it once |
| `Driver.SelectMode` | src/main.rs:40-58 | debug wins over the transparency test; normal wear runs when neither flag is set; the black stamp is never the mode pass |
| `Driver.PassResult` | src/main.rs:36-55 | what each pass writes for one pixel: the black stamp writes (0, 0, 0, 255) and the test pattern colour channels (255, 255, 255) with alpha below 255, whatever the pixel |
| `Driver.PassResultChannels` | src/main.rs:43-55 | a normal-wear pass keeps colour and never raises alpha; a debug pass keeps alpha and never lowers green |
| `Driver.ApplyPass` | src/main.rs:43-55 | each pass calls the processor operation for its mode and returns its specified result |
| `Driver.RunColumn` | src/main.rs:35-37 | the inner `for y` loop: every pixel of column x is replaced by the pass applied to its own pre-pass value; other columns are untouched |
| `Driver.RunPass` | src/main.rs:34-38 | every (x, y) of the image is replaced by the pass applied to that pixel's own value before the pass; nothing else changes |
| `Driver.DimensionsFit` | src/main.rs:25 | two u32 image dimensions multiply without overflowing 64 bits |
| `Driver.Run` | src/main.rs:25-58 | the processor is built from the image's size, so all points lie inside the image; each pixel ends as the selected mode applied to black (if stamped) or to its original value |

## Left out

- The Simplex noise itself and the float octave arithmetic. The noise is any function into [-1, 1], and the octave sum is computed over exact reals, so float rounding is not modelled.
- Processing.Composite: only the range [0, 1] of the composite is stated, because the noise is abstract.
- Time-based seeding of the noise generator. The noise function is a parameter.
- The internals of the thread-local random generator and the uniformity of its draws. Draws come from a supplied stream, mapped into a range by a modulus.
- The float `sqrt` in `get_magnitude`. It is replaced by the exact integer squared-distance test.
- Processing.WithinRadius: coordinates of 2^53 and above, which the source rounds when it converts them to f64, are compared exactly; such points arise only when `Processor::new` is called directly with huge dimensions, never from the driver.
- The `println!` of the green value in `process_pixel_debug`, and the console output of `main`, including the point count and the warning when both mode flags are set.
- Command-line parsing, image decoding and saving. The image is passed in as an array, and the flags and entropy as parameters.
- A u64 overflow of width·height when `Processor::new` is called directly with huge dimensions: a debug build panics and a release build wraps, generating too few points. The constructor requires the product to fit; the driver always satisfies this.
- The program has no resolution scaling or RGB darkening, so nothing here models them.
