/** The command-line driver: builds the processor from the image's own
    dimensions, optionally stamps the whole image black, then runs exactly
    one mode pass over every pixel, writing the image in place. */
module Driver {
  import opened Processing

  const U32_LIMIT: nat := 0x1_0000_0000

  /** A decoded RGBA image, indexed [x, y]: Length0 is the width and
      Length1 the height. */
  type Image = array2<Rgba>

  /** The per-pixel transform a pass applies. */
  datatype Pass = Blacken | Debug | TransparencyPattern | Wear

  /** The mode pass for the given flags: debug wins over the transparency
      test, and normal wear runs when neither is set. */
  function SelectMode(debug: bool, transparencyTest: bool): (m: Pass)
    ensures m != Blacken
    ensures m == Debug <==> debug
    ensures m == TransparencyPattern <==> !debug && transparencyTest
    ensures m == Wear <==> !debug && !transparencyTest
  {
    if debug then Debug
    else if transparencyTest then TransparencyPattern
    else Wear
  }

  /** What a pass makes of one pixel, given the pixel's value before the pass.
      The black stamp and the test pattern do not depend on the pixel. */
  function PassResult(p: Processor, pass: Pass, pos: Position, px: Rgba): (r: Rgba)
    ensures pass == Blacken ==> r == OPAQUE_BLACK
    ensures pass == TransparencyPattern ==> r.r == 255 && r.g == 255 && r.b == 255 && r.a < 255
  {
    match pass
    case Blacken => SetBlack(pos, px)
    case Debug => DebugPixel(p.points, p.noise, pos, px)
    case TransparencyPattern => TransparencyTest(pos, px)
    case Wear => WornPixel(p.points, p.noise, pos, px)
  }

  /** Normal wear only lowers alpha; the debug view keeps alpha and never
      lowers green. */
  lemma PassResultChannels(p: Processor, pass: Pass, pos: Position, px: Rgba)
    ensures pass == Wear ==>
      (PassResult(p, pass, pos, px).r == px.r && PassResult(p, pass, pos, px).g == px.g &&
       PassResult(p, pass, pos, px).b == px.b && PassResult(p, pass, pos, px).a <= px.a)
    ensures pass == Debug ==>
      (PassResult(p, pass, pos, px).a == px.a && px.g <= PassResult(p, pass, pos, px).g)
  {
  }

  /** Calls the processor operation the pass stands for. */
  method ApplyPass(p: Processor, pass: Pass, pos: Position, px: Rgba) returns (out: Rgba)
    ensures out == PassResult(p, pass, pos, px)
  {
    match pass {
      case Blacken => out := SetBlack(pos, px);
      case Debug => out := p.ProcessPixelDebug(pos, px);
      case TransparencyPattern => out := TransparencyTest(pos, px);
      case Wear => out := p.ProcessPixel(pos, px);
    }
  }

  /** The inner loop of a pass: column x, row by row, each pixel replaced by
      the pass applied to its own value; every other column is untouched. */
  method RunColumn(p: Processor, image: Image, pass: Pass, x: nat)
    requires x < image.Length0 < U32_LIMIT && image.Length1 < U32_LIMIT
    modifies image
    ensures forall j :: 0 <= j < image.Length1 ==>
      image[x, j] == PassResult(p, pass, Position(x, j), old(image[x, j]))
    ensures forall i, j :: 0 <= i < image.Length0 && i != x && 0 <= j < image.Length1 ==>
      image[i, j] == old(image[i, j])
  {
    for y := 0 to image.Length1
      invariant forall j :: 0 <= j < y ==>
        image[x, j] == PassResult(p, pass, Position(x, j), old(image[x, j]))
      invariant forall j :: y <= j < image.Length1 ==> image[x, j] == old(image[x, j])
      invariant forall i, j :: 0 <= i < image.Length0 && i != x && 0 <= j < image.Length1 ==>
        image[i, j] == old(image[i, j])
    {
      var out := ApplyPass(p, pass, Position(x, y), image[x, y]);
      image[x, y] := out;
    }
  }

  /** One pass: column by column, each pixel is replaced by the pass applied
      to its own value before the pass. */
  method RunPass(p: Processor, image: Image, pass: Pass)
    requires image.Length0 < U32_LIMIT && image.Length1 < U32_LIMIT
    modifies image
    ensures forall x, y :: 0 <= x < image.Length0 && 0 <= y < image.Length1 ==>
      image[x, y] == PassResult(p, pass, Position(x, y), old(image[x, y]))
  {
    for x := 0 to image.Length0
      invariant forall i, j :: 0 <= i < x && 0 <= j < image.Length1 ==>
        image[i, j] == PassResult(p, pass, Position(i, j), old(image[i, j]))
      invariant forall i, j :: x <= i < image.Length0 && 0 <= j < image.Length1 ==>
        image[i, j] == old(image[i, j])
    {
      RunColumn(p, image, pass, x);
    }
  }

  lemma MulMonotone(a: nat, b: nat, c: nat, d: nat)
    requires a <= c && b <= d
    ensures a * b <= c * d
  {
  }

  /** The product of two u32 dimensions never overflows 64 bits. */
  lemma DimensionsFit(width: nat, height: nat)
    requires width < U32_LIMIT && height < U32_LIMIT
    ensures width * height < U64_LIMIT
  {
    MulMonotone(width, height, U32_LIMIT - 1, U32_LIMIT - 1);
  }

  /** The image-processing part of the program: the processor is built from
      the image's width and height, the optional black pre-pass runs first,
      then exactly one mode pass. */
  method Run(image: Image, entropy: nat -> nat, noise: Noise,
             debug: bool, transparencyTest: bool, setBlack: bool)
    returns (p: Processor)
    requires image.Length0 < U32_LIMIT && image.Length1 < U32_LIMIT
    modifies image
    ensures fresh(p) && p.noise == noise
    ensures p.points == PointField(entropy, image.Length0, image.Length1,
                                   PointCount(image.Length0, image.Length1))
    ensures forall pt :: pt in p.points ==>
      pt.position.x < image.Length0 && pt.position.y < image.Length1
    ensures forall x, y :: 0 <= x < image.Length0 && 0 <= y < image.Length1 ==>
      image[x, y] == PassResult(p, SelectMode(debug, transparencyTest), Position(x, y),
                                if setBlack then OPAQUE_BLACK else old(image[x, y]))
  {
    DimensionsFit(image.Length0, image.Length1);
    p := new Processor(image.Length0, image.Length1, entropy, noise);
    if setBlack {
      RunPass(p, image, Blacken);
    }
    if debug {
      RunPass(p, image, Debug);
    } else if transparencyTest {
      RunPass(p, image, TransparencyPattern);
    } else {
      RunPass(p, image, Wear);
    }
  }
}
