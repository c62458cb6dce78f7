/**
 * Raster images as the `image` crate handles them: `RgbImage::from_raw` over interleaved
 * RGB8 bytes, the quarter-turn rotations of `DynamicImage`, and `to_rgba8`.
 */
module Raster {
  import opened Numeric
  import opened Wrappers

  datatype Rgb = Rgb(r: u8, g: u8, b: u8)

  function Channel(p: Rgb, c: nat): u8
    requires c < 3
  {
    if c == 0 then p.r else if c == 1 then p.g else p.b
  }

  datatype Grid = Grid(width: nat, height: nat, rows: seq<seq<Rgb>>)

  predicate Shaped(g: Grid) {
    |g.rows| == g.height && forall y | 0 <= y < |g.rows| :: |g.rows[y]| == g.width
  }

  /** An RGB8 image, row-major: `rows[y][x]` is the pixel at column x of row y. */
  type RgbImage = g: Grid | Shaped(g) witness Grid(0, 0, [])

  function At(img: RgbImage, x: nat, y: nat): Rgb
    requires x < img.width && y < img.height
  {
    img.rows[y][x]
  }

  datatype RgbaBuffer = RgbaBuffer(width: nat, height: nat, data: seq<u8>)

  /** An RGBA8 image: four interleaved bytes per pixel, row-major. */
  type Rgba = i: RgbaBuffer | |i.data| == i.width * i.height * 4 witness RgbaBuffer(0, 0, [])

  // ---------------------------------------------------------------- index arithmetic

  lemma MulMonotone(a: nat, b: nat, c: nat)
    requires a <= b
    ensures a * c <= b * c
  {}

  lemma PixelIndexInRange(x: nat, y: nat, w: nat, h: nat)
    requires x < w && y < h
    ensures y * w + x < w * h
  {
    assert y * w + x < (y + 1) * w;
    MulMonotone(y + 1, h, w);
  }

  lemma DivModUnique(n: int, d: int, q: int, r: int)
    requires d > 0 && 0 <= r < d && n == q * d + r
    ensures n / d == q && n % d == r
  {
    var q', r' := n / d, n % d;
    assert n == q' * d + r';
    assert (q - q') * d == r' - r;
    if q > q' {
      MulMonotone(1, q - q', d);
    } else if q < q' {
      MulMonotone(1, q' - q, d);
    }
  }

  lemma PixelOfIndex(p: nat, w: nat, h: nat)
    requires p < w * h
    ensures w > 0 && p / w < h && p % w < w
  {
  }

  // ---------------------------------------------------------------- from_raw

  function RawPixel(buf: seq<u8>, w: nat, h: nat, x: nat, y: nat): Rgb
    requires x < w && y < h && |buf| >= w * h * 3
  {
    PixelIndexInRange(x, y, w, h);
    var k := (y * w + x) * 3;
    Rgb(buf[k], buf[k + 1], buf[k + 2])
  }

  /** `RgbImage::from_raw(w, h, buf)`: `None` when the buffer is too short for w×h pixels. */
  function FromRaw(w: nat, h: nat, buf: seq<u8>): (r: Option<RgbImage>)
    ensures r.Some? <==> |buf| >= w * h * 3
    ensures r.Some? ==> r.value.width == w && r.value.height == h
  {
    if |buf| < w * h * 3 then None
    else
      Some(Grid(w, h, seq(h, y requires 0 <= y < h =>
                        seq(w, x requires 0 <= x < w => RawPixel(buf, w, h, x, y)))))
  }

  /** Pixel (x, y) of `from_raw` is the byte triple starting at offset 3·(y·w + x). */
  lemma {:induction false} FromRawAt(w: nat, h: nat, buf: seq<u8>, x: nat, y: nat)
    requires |buf| >= w * h * 3 && x < w && y < h
    ensures (y * w + x) * 3 + 2 < |buf|
    ensures At(FromRaw(w, h, buf).value, x, y) ==
            Rgb(buf[(y * w + x) * 3], buf[(y * w + x) * 3 + 1], buf[(y * w + x) * 3 + 2])
  {
    PixelIndexInRange(x, y, w, h);
  }

  // ---------------------------------------------------------------- rotations

  /** `DynamicImage::rotate90`: a clockwise quarter turn, pixel (x, y) goes to (h-1-y, x). */
  function Rotate90(img: RgbImage): (r: RgbImage)
    ensures r.width == img.height && r.height == img.width
    ensures forall x, y | 0 <= x < img.width && 0 <= y < img.height ::
              At(r, img.height - 1 - y, x) == At(img, x, y)
  {
    Grid(img.height, img.width,
         seq(img.width, y requires 0 <= y < img.width =>
           seq(img.height, x requires 0 <= x < img.height => img.rows[img.height - 1 - x][y])))
  }

  /** `DynamicImage::rotate180`: pixel (x, y) goes to (w-1-x, h-1-y). */
  function Rotate180(img: RgbImage): (r: RgbImage)
    ensures r.width == img.width && r.height == img.height
    ensures forall x, y | 0 <= x < img.width && 0 <= y < img.height ::
              At(r, img.width - 1 - x, img.height - 1 - y) == At(img, x, y)
  {
    Grid(img.width, img.height,
         seq(img.height, y requires 0 <= y < img.height =>
           seq(img.width, x requires 0 <= x < img.width =>
             img.rows[img.height - 1 - y][img.width - 1 - x])))
  }

  /** `DynamicImage::rotate270`: a counter-clockwise quarter turn, (x, y) goes to (y, w-1-x). */
  function Rotate270(img: RgbImage): (r: RgbImage)
    ensures r.width == img.height && r.height == img.width
    ensures forall x, y | 0 <= x < img.width && 0 <= y < img.height ::
              At(r, y, img.width - 1 - x) == At(img, x, y)
  {
    Grid(img.height, img.width,
         seq(img.width, y requires 0 <= y < img.width =>
           seq(img.height, x requires 0 <= x < img.height => img.rows[x][img.width - 1 - y])))
  }

  lemma SameImage(a: RgbImage, b: RgbImage)
    requires a.width == b.width && a.height == b.height
    requires forall x, y | 0 <= x < a.width && 0 <= y < a.height :: At(a, x, y) == At(b, x, y)
    ensures a == b
  {
    forall y | 0 <= y < a.height
      ensures a.rows[y] == b.rows[y]
    {
      assert forall x | 0 <= x < a.width :: a.rows[y][x] == At(a, x, y);
    }
  }

  lemma {:induction false} TwoQuarterTurnsAreHalfTurn(img: RgbImage)
    ensures Rotate90(Rotate90(img)) == Rotate180(img)
  {
    var a, b := Rotate90(Rotate90(img)), Rotate180(img);
    forall x, y | 0 <= x < a.width && 0 <= y < a.height
      ensures At(a, x, y) == At(b, x, y)
    {
      var x0, y0 := img.width - 1 - x, img.height - 1 - y;
      assert At(Rotate90(img), img.height - 1 - y0, x0) == At(img, x0, y0);
      assert At(a, img.width - 1 - x0, img.height - 1 - y0) == At(Rotate90(img), img.height - 1 - y0, x0);
      assert At(b, img.width - 1 - x0, img.height - 1 - y0) == At(img, x0, y0);
    }
    SameImage(a, b);
  }

  lemma {:induction false} QuarterAndHalfTurn(img: RgbImage)
    ensures Rotate90(Rotate180(img)) == Rotate270(img)
  {
    var a, b := Rotate90(Rotate180(img)), Rotate270(img);
    forall x, y | 0 <= x < a.width && 0 <= y < a.height
      ensures At(a, x, y) == At(b, x, y)
    {
      // (x, y) of the result comes from (x0, y0) of img
      var x0, y0 := img.width - 1 - y, x;
      assert At(Rotate180(img), img.width - 1 - x0, img.height - 1 - y0) == At(img, x0, y0);
      assert At(a, img.height - 1 - (img.height - 1 - y0), img.width - 1 - x0)
          == At(Rotate180(img), img.width - 1 - x0, img.height - 1 - y0);
      assert At(b, y0, img.width - 1 - x0) == At(img, x0, y0);
    }
    SameImage(a, b);
  }

  /** Two half turns give back the image. */
  lemma {:induction false} HalfTurnTwice(img: RgbImage)
    ensures Rotate180(Rotate180(img)) == img
  {
    var a := Rotate180(Rotate180(img));
    forall x, y | 0 <= x < img.width && 0 <= y < img.height
      ensures At(a, x, y) == At(img, x, y)
    {
      var x0, y0 := img.width - 1 - x, img.height - 1 - y;
      assert At(Rotate180(img), img.width - 1 - x0, img.height - 1 - y0) == At(img, x0, y0);
      assert At(a, img.width - 1 - x, img.height - 1 - y) == At(Rotate180(img), x, y);
    }
    SameImage(a, img);
  }

  /** Four clockwise quarter turns give back the image. */
  lemma {:induction false} FourQuarterTurns(img: RgbImage)
    ensures Rotate90(Rotate90(Rotate90(Rotate90(img)))) == img
  {
    var half := Rotate90(Rotate90(img));
    TwoQuarterTurnsAreHalfTurn(img);
    TwoQuarterTurnsAreHalfTurn(half);
    HalfTurnTwice(img);
  }

  // ---------------------------------------------------------------- to_rgba8

  function RgbaByte(img: RgbImage, k: nat): u8
    requires k < img.width * img.height * 4
  {
    var p := k / 4;
    PixelOfIndex(p, img.width, img.height);
    if k % 4 == 3 then 255 else Channel(img.rows[p / img.width][p % img.width], k % 4)
  }

  /** `to_rgba8` of an RGB8 image: same dimensions, every alpha byte opaque. */
  function ToRgba8(img: RgbImage): (r: Rgba)
    ensures r.width == img.width && r.height == img.height
    ensures forall k | 0 <= k < |r.data| && k % 4 == 3 :: r.data[k] == 255
  {
    RgbaBuffer(img.width, img.height,
               seq(img.width * img.height * 4,
                   k requires 0 <= k < img.width * img.height * 4 => RgbaByte(img, k)))
  }

  /** Byte c of pixel (x, y) in the RGBA buffer is the pixel's channel c, or 255 for alpha. */
  lemma {:induction false} ToRgba8At(img: RgbImage, x: nat, y: nat, c: nat)
    requires x < img.width && y < img.height && c < 4
    ensures (y * img.width + x) * 4 + c < |ToRgba8(img).data|
    ensures ToRgba8(img).data[(y * img.width + x) * 4 + c] ==
            if c == 3 then 255 else Channel(At(img, x, y), c)
  {
    var w, h := img.width, img.height;
    PixelIndexInRange(x, y, w, h);
    var p := y * w + x;
    var k := p * 4 + c;
    DivModUnique(k, 4, p, c);
    DivModUnique(p, w, y, x);
  }
}
