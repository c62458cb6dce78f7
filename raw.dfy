/**
 * The RAW camera-sensor pipeline of `load_image_raw`: sensor samples are normalised to 8 bits
 * through per-colour black/white levels, demosaiced, white balanced (embedded coefficients, or
 * gray-world gains when any coefficient is NaN), turned upright and converted to RGBA8.
 *
 * `rawloader::decode` (the container parser) and `bayer::run_demosaic` are foreign code: the
 * parser is a parameter yielding a `Frame`, the demosaic a parameter yielding either its error
 * or the byte it writes at each offset of the w×h×3 destination raster.
 */
module RawLoader {
  import opened Numeric
  import opened Wrappers
  import Raster

  /** A rawloader colour index: 0 red, 1 green, 2 blue, 3 the fourth filter colour. */
  type Color = c: nat | c < 4

  /** The sensor's colour filter array: its name and `color_at(row, col)`. */
  datatype Cfa = Cfa(name: string, colorAt: (nat, nat) -> Color)

  datatype RawImageData = Integer(samples: seq<u16>) | Float(values: seq<F32>)

  datatype Orientation =
    | Normal | HorizontalFlip | Rotate180 | VerticalFlip | Transpose
    | Rotate90 | Transverse | Rotate270 | Unknown

  type Levels = s: seq<u16> | |s| == 4 witness [0, 0, 0, 0]
  type Coeffs = s: seq<F32> | |s| == 4 witness [NaN, NaN, NaN, NaN]

  datatype SensorFrame = SensorFrame(
    width: nat, height: nat,
    data: RawImageData,
    cfa: Cfa,
    blackLevels: Levels, whiteLevels: Levels,
    wbCoeffs: Coeffs,
    orientation: Orientation)

  function SampleCount(d: RawImageData): nat {
    match d
    case Integer(s) => |s|
    case Float(v) => |v|
  }

  /** A decoded frame holds at least one sample per pixel (the parser's guarantee). */
  type Frame = f: SensorFrame | SampleCount(f.data) >= f.width * f.height
    witness SensorFrame(0, 0, Integer([]), Cfa("", (y: nat, x: nat) => 0),
                        [0, 0, 0, 0], [0, 0, 0, 0], [NaN, NaN, NaN, NaN], Normal)

  // ---------------------------------------------------------------- float rescale

  function Saturate16(n: int): u16 {
    if n < 0 then 0 else if n > 65535 then 65535 else n
  }

  function ScaledSample(f: F32): u16 {
    CastToU16(Mul(f, Fin(65536.0)))
  }

  /**
   * The integer samples the pipeline works on: integer data as delivered, float data
   * scaled by 2^16 and cast to u16 (truncated, saturated, NaN to 0).
   */
  function Samples(d: RawImageData): (r: seq<u16>)
    ensures |r| == SampleCount(d)
    ensures d.Integer? ==> r == d.samples
    ensures d.Float? ==> forall i | 0 <= i < |r| ::
              match d.values[i]
              case Fin(x) => r[i] == Saturate16((x * 65536.0).Floor)
              case PosInf => r[i] == 65535
              case _ => r[i] == 0
  {
    match d
    case Integer(s) => s
    case Float(v) => seq(|v|, i requires 0 <= i < |v| => ScaledSample(v[i]))
  }

  // ---------------------------------------------------------------- normalisation

  /** The CFA colour of pixel index i, at column i mod width of row i div width. */
  function ColorOf(f: SensorFrame, i: nat): Color
    requires i < f.width * f.height
  {
    Raster.PixelOfIndex(i, f.width, f.height);
    f.cfa.colorAt(i / f.width, i % f.width)
  }

  /** Reference map of a sample onto 8 bits: [black, white] stretched linearly onto [0, 255]. */
  function LevelScale(s: u16, black: u16, white: u16): u8 {
    if white == black then (if s > black then 255 else 0)
    else ClampToU8(Fin((s - black) as real * 255.0 / (white - black) as real))
  }

  /** The f32 expression `((pix - bl) / (wl - bl) * 255.0).clamp(0.0, 255.0) as u8`. */
  function NormalizedSample(s: u16, black: u16, white: u16): u8 {
    ClampToU8(Mul(Div(FromInt(s - black), FromInt(white - black)), Fin(255.0)))
  }

  lemma NormalizedSampleIsLevelScale(s: u16, black: u16, white: u16)
    ensures NormalizedSample(s, black, white) == LevelScale(s, black, white)
  {
    if white != black {
      var a, b := (s - black) as real, (white - black) as real;
      assert a / b * 255.0 == a * 255.0 / b;
    }
  }

  /** Below the black level a sample is 0, above the white level it is 255. */
  lemma {:induction false} LevelScaleEnds(s: u16, black: u16, white: u16)
    requires black < white
    ensures s <= black ==> LevelScale(s, black, white) == 0
    ensures s >= white ==> LevelScale(s, black, white) == 255
  {
    if s >= white {
      ScaledPastFull((s - black) as real, (white - black) as real);
    }
  }

  /** A span a at least the full span b maps to at least 255. */
  lemma ScaledPastFull(a: real, b: real)
    requires a >= b > 0.0
    ensures a * 255.0 / b >= 255.0
  {
    var q := a / b;
    assert q * b == a;
    assert q >= 1.0;
    assert a * 255.0 / b == q * 255.0;
  }

  /** `mono8`: one byte per pixel, the f32 normalisation of the sample for that pixel's CFA colour. */
  function Normalize(f: Frame): (mono: seq<u8>)
    ensures |mono| == f.width * f.height
  {
    var raw := Samples(f.data);
    var n := f.width * f.height;
    seq(n, i requires 0 <= i < n =>
      NormalizedSample(raw[i], f.blackLevels[ColorOf(f, i)], f.whiteLevels[ColorOf(f, i)]))
  }

  /** Each byte of mono8 is the level-scaled sample for that pixel's CFA colour. */
  lemma NormalizeIsLevelScale(f: Frame)
    ensures forall i | 0 <= i < f.width * f.height ::
              Normalize(f)[i] == LevelScale(Samples(f.data)[i], f.blackLevels[ColorOf(f, i)],
                                            f.whiteLevels[ColorOf(f, i)])
  {
    var raw := Samples(f.data);
    forall i | 0 <= i < f.width * f.height {
      NormalizedSampleIsLevelScale(raw[i], f.blackLevels[ColorOf(f, i)], f.whiteLevels[ColorOf(f, i)]);
    }
  }

  // ---------------------------------------------------------------- CFA name

  datatype Bayer = RGGB | GRBG | BGGR | GBRG

  function BayerName(b: Bayer): string {
    match b
    case RGGB => "RGGB"
    case GRBG => "GRBG"
    case BGGR => "BGGR"
    case GBRG => "GBRG"
  }

  /** The `match raw_image.cfa.name.as_str()` of the demosaic call. */
  function BayerOf(name: string): (r: Option<Bayer>)
    ensures r.Some? <==> name in ["RGGB", "GRBG", "BGGR", "GBRG"]
    ensures r.Some? ==> BayerName(r.value) == name
  {
    if name == "RGGB" then Some(RGGB)
    else if name == "GRBG" then Some(GRBG)
    else if name == "BGGR" then Some(BGGR)
    else if name == "GBRG" then Some(GBRG)
    else None
  }

  lemma BayerNameRoundTrip(b: Bayer)
    ensures BayerOf(BayerName(b)) == Some(b)
  {}

  /** The colour at (row, col) of a named 2×2 Bayer pattern, read as its name spells it. */
  function BayerColorAt(b: Bayer, row: nat, col: nat): Color {
    var i := (row % 2) * 2 + col % 2;
    var name := BayerName(b);
    if name[i] == 'R' then 0 else if name[i] == 'G' then 1 else 2
  }

  // ---------------------------------------------------------------- demosaic

  /** `bayer::run_demosaic`: its error, or the byte it writes at each offset of the RGB8 raster. */
  type Demosaic = (seq<u8>, nat, nat, Bayer) -> Result<nat -> u8, string>

  // ---------------------------------------------------------------- gray-world white balance

  /** Per-colour sums and counts of the gray-world reduction. */
  datatype Tally = Tally(redSum: nat, greenSum: nat, blueSum: nat,
                         redCount: nat, greenCount: nat, blueCount: nat)

  const NoPixels := Tally(0, 0, 0, 0, 0, 0)

  function Combine(a: Tally, b: Tally): Tally {
    Tally(a.redSum + b.redSum, a.greenSum + b.greenSum, a.blueSum + b.blueSum,
          a.redCount + b.redCount, a.greenCount + b.greenCount, a.blueCount + b.blueCount)
  }

  /** The map step: a pixel of colour 0, 1 or 2 adds its value and one to that colour. */
  function Contribution(v: u8, c: Color): Tally {
    if c == 0 then Tally(v, 0, 0, 1, 0, 0)
    else if c == 1 then Tally(0, v, 0, 0, 1, 0)
    else if c == 2 then Tally(0, 0, v, 0, 0, 1)
    else NoPixels
  }

  function Contributions(f: SensorFrame, mono: seq<u8>): (ts: seq<Tally>)
    requires |mono| == f.width * f.height
    ensures |ts| == |mono|
  {
    seq(|mono|, i requires 0 <= i < |mono| => Contribution(mono[i], ColorOf(f, i)))
  }

  /** The sequential left fold of the reduction. */
  function Fold(ts: seq<Tally>): Tally {
    if ts == [] then NoPixels else Combine(Fold(ts[..|ts| - 1]), ts[|ts| - 1])
  }

  lemma CombineIsMonoid(a: Tally, b: Tally, c: Tally)
    ensures Combine(NoPixels, a) == a && Combine(a, NoPixels) == a
    ensures Combine(Combine(a, b), c) == Combine(a, Combine(b, c))
    ensures Combine(a, b) == Combine(b, a)
  {}

  lemma {:induction false} FoldConcat(a: seq<Tally>, b: seq<Tally>)
    ensures Fold(a + b) == Combine(Fold(a), Fold(b))
    decreases |b|
  {
    if b == [] {
      assert a + b == a;
    } else {
      var b', last := b[..|b| - 1], b[|b| - 1];
      var ab := a + b;
      assert ab != [] && ab[..|ab| - 1] == a + b' && ab[|ab| - 1] == last;
      assert Fold(ab) == Combine(Fold(a + b'), last);
      assert Fold(b) == Combine(Fold(b'), last);
      FoldConcat(a, b');
      CombineIsMonoid(Fold(a), Fold(b'), last);
    }
  }

  /** How a parallel reduction splits its input: a leaf folds sequentially, a split combines halves. */
  datatype Shape = Sequential | Split(at: nat, left: Shape, right: Shape)

  function ReduceBy(shape: Shape, ts: seq<Tally>): Tally
    decreases shape
  {
    match shape
    case Sequential => Fold(ts)
    case Split(k, l, r) =>
      var m := if k <= |ts| then k else |ts|;
      Combine(ReduceBy(l, ts[..m]), ReduceBy(r, ts[m..]))
  }

  /** However the work is split, the reduction equals the sequential left fold. */
  lemma {:induction false} AnyReductionShapeIsFold(shape: Shape, ts: seq<Tally>)
    ensures ReduceBy(shape, ts) == Fold(ts)
    decreases shape
  {
    match shape
    case Sequential =>
    case Split(k, l, r) =>
      var m := if k <= |ts| then k else |ts|;
      AnyReductionShapeIsFold(l, ts[..m]);
      AnyReductionShapeIsFold(r, ts[m..]);
      assert ts[..m] + ts[m..] == ts;
      FoldConcat(ts[..m], ts[m..]);
  }

  /** Sum of the values of colour c among the first n pixels. */
  function SumOfColor(f: SensorFrame, mono: seq<u8>, n: nat, c: Color): nat
    requires |mono| == f.width * f.height && n <= |mono|
  {
    if n == 0 then 0
    else SumOfColor(f, mono, n - 1, c) + (if ColorOf(f, n - 1) == c then mono[n - 1] else 0)
  }

  /** Number of pixels of colour c among the first n. */
  function CountOfColor(f: SensorFrame, mono: seq<u8>, n: nat, c: Color): nat
    requires |mono| == f.width * f.height && n <= |mono|
  {
    if n == 0 then 0
    else CountOfColor(f, mono, n - 1, c) + (if ColorOf(f, n - 1) == c then 1 else 0)
  }

  /** The reduction sums and counts colours 0, 1 and 2 separately and ignores colour 3. */
  lemma {:induction false} FoldIsPerColorSums(f: SensorFrame, mono: seq<u8>, n: nat)
    requires |mono| == f.width * f.height && n <= |mono|
    ensures Fold(Contributions(f, mono)[..n]) ==
            Tally(SumOfColor(f, mono, n, 0), SumOfColor(f, mono, n, 1), SumOfColor(f, mono, n, 2),
                  CountOfColor(f, mono, n, 0), CountOfColor(f, mono, n, 1), CountOfColor(f, mono, n, 2))
  {
    var ts := Contributions(f, mono);
    if n > 0 {
      assert ts[..n][..n - 1] == ts[..n - 1];
      FoldIsPerColorSums(f, mono, n - 1);
      var c, v := ColorOf(f, n - 1), mono[n - 1];
      assert Fold(ts[..n]) == Combine(Fold(ts[..n - 1]), Contribution(v, c));
      CombineContribution(Fold(ts[..n - 1]), v, c);
    }
  }

  /** Adding one pixel's contribution adds its value and one to its colour only. */
  lemma CombineContribution(t: Tally, v: u8, c: Color)
    ensures Combine(t, Contribution(v, c)) ==
            Tally(t.redSum + (if c == 0 then v else 0), t.greenSum + (if c == 1 then v else 0),
                  t.blueSum + (if c == 2 then v else 0), t.redCount + (if c == 0 then 1 else 0),
                  t.greenCount + (if c == 1 then 1 else 0), t.blueCount + (if c == 2 then 1 else 0))
  {}

  /** A tally as the reduction produces it: no colour sums more than 255 per counted pixel. */
  predicate Bounded(t: Tally) {
    t.redSum <= 255 * t.redCount && t.greenSum <= 255 * t.greenCount && t.blueSum <= 255 * t.blueCount
  }

  function Average(sum: nat, count: nat): F32 {
    Div(FromInt(sum), FromInt(count))
  }

  /** Gray-world gains [avgG/avgR, 1, avgG/avgB, 1], with f32 division by zero. */
  function GrayWorldGains(t: Tally): (g: Coeffs)
    ensures g[1] == Fin(1.0) && g[3] == Fin(1.0)
  {
    var redAvg := Average(t.redSum, t.redCount);
    var greenAvg := Average(t.greenSum, t.greenCount);
    var blueAvg := Average(t.blueSum, t.blueCount);
    [Div(greenAvg, redAvg), Fin(1.0), Div(greenAvg, blueAvg), Fin(1.0)]
  }

  /**
   * The red and blue gains: the ratio of the green average to that colour's average when
   * both are positive, +inf for a black colour under a lit green, and NaN when a colour
   * (or green) has no pixel or both averages are zero.
   */
  lemma GrayWorldGainsCases(t: Tally)
    ensures var g := GrayWorldGains(t);
            && (t.redCount > 0 && t.greenCount > 0 && t.redSum > 0 ==>
                  g[0] == Fin((t.greenSum as real / t.greenCount as real) /
                              (t.redSum as real / t.redCount as real)))
            && (t.blueCount > 0 && t.greenCount > 0 && t.blueSum > 0 ==>
                  g[2] == Fin((t.greenSum as real / t.greenCount as real) /
                              (t.blueSum as real / t.blueCount as real)))
            && (Bounded(t) && (t.redCount == 0 || t.greenCount == 0) ==> g[0] == NaN)
            && (Bounded(t) && (t.blueCount == 0 || t.greenCount == 0) ==> g[2] == NaN)
            && (t.redCount > 0 && t.greenCount > 0 && t.redSum == 0 ==>
                  g[0] == if t.greenSum > 0 then PosInf else NaN)
            && (t.blueCount > 0 && t.greenCount > 0 && t.blueSum == 0 ==>
                  g[2] == if t.greenSum > 0 then PosInf else NaN)
  {
  }

  predicate HasNoNaN(c: Coeffs) {
    forall k | 0 <= k < 4 :: !c[k].NaN?
  }

  /** The embedded coefficients when none is NaN, otherwise the gray-world estimate of mono8. */
  function WhiteBalance(f: SensorFrame, mono: seq<u8>): (g: Coeffs)
    requires |mono| == f.width * f.height
    ensures HasNoNaN(f.wbCoeffs) ==> g == f.wbCoeffs
    ensures !HasNoNaN(f.wbCoeffs) ==> g[1] == Fin(1.0) && g[3] == Fin(1.0)
  {
    if HasNoNaN(f.wbCoeffs) then f.wbCoeffs else GrayWorldGains(Fold(Contributions(f, mono)))
  }

  /** Every sum of a folded tally is at most 255 times its count. */
  lemma {:induction false} FoldBounds(f: SensorFrame, mono: seq<u8>, n: nat)
    requires |mono| == f.width * f.height && n <= |mono|
    ensures Bounded(Fold(Contributions(f, mono)[..n]))
  {
    var ts := Contributions(f, mono);
    if n > 0 {
      assert ts[..n][..n - 1] == ts[..n - 1];
      FoldBounds(f, mono, n - 1);
    }
  }

  lemma Distribute(v: nat, a: nat, b: nat)
    ensures v * (a + b) == v * a + v * b
  {}

  /** Every colour of the tally sums to v per counted pixel. */
  predicate Scaled(t: Tally, v: nat) {
    t.redSum == v * t.redCount && t.greenSum == v * t.greenCount && t.blueSum == v * t.blueCount
  }

  lemma ScaledCombine(a: Tally, b: Tally, v: nat)
    requires Scaled(a, v) && Scaled(b, v)
    ensures Scaled(Combine(a, b), v)
  {
    Distribute(v, a.redCount, b.redCount);
    Distribute(v, a.greenCount, b.greenCount);
    Distribute(v, a.blueCount, b.blueCount);
  }

  lemma {:induction false} UniformFold(f: SensorFrame, mono: seq<u8>, v: u8, n: nat)
    requires |mono| == f.width * f.height && n <= |mono|
    requires forall i | 0 <= i < |mono| :: mono[i] == v
    ensures Scaled(Fold(Contributions(f, mono)[..n]), v)
  {
    var ts := Contributions(f, mono);
    if n > 0 {
      assert ts[..n][..n - 1] == ts[..n - 1];
      UniformFold(f, mono, v, n - 1);
      var t, c := Fold(ts[..n - 1]), ts[n - 1];
      assert Fold(ts[..n]) == Combine(t, c);
      assert c == Contribution(v, ColorOf(f, n - 1));
      ScaledCombine(t, c, v);
    }
  }

  lemma AverageOfUniform(v: nat, count: nat)
    requires count > 0
    ensures (v * count) as real / count as real == v as real
  {
    assert (v * count) as real == v as real * count as real;
  }

  lemma {:induction false} UniformTallyHasUnitGains(t: Tally, v: nat)
    requires v > 0 && t.redCount > 0 && t.greenCount > 0 && t.blueCount > 0
    requires Scaled(t, v)
    ensures GrayWorldGains(t) == [Fin(1.0), Fin(1.0), Fin(1.0), Fin(1.0)]
  {
    AverageOfUniform(v, t.redCount);
    AverageOfUniform(v, t.greenCount);
    AverageOfUniform(v, t.blueCount);
    var gray := Fin(v as real);
    assert Average(t.redSum, t.redCount) == gray;
    assert Average(t.greenSum, t.greenCount) == gray;
    assert Average(t.blueSum, t.blueCount) == gray;
    assert v as real > 0.0 && v as real / v as real == 1.0;
    assert Div(gray, gray) == Fin(1.0);
  }

  /** On a uniformly gray frame showing all three colours the gray-world gains are all 1. */
  lemma {:induction false} GrayFrameHasUnitGains(f: SensorFrame, mono: seq<u8>, v: u8)
    requires |mono| == f.width * f.height
    requires forall i | 0 <= i < |mono| :: mono[i] == v
    requires v > 0
    requires var t := Fold(Contributions(f, mono));
             t.redCount > 0 && t.greenCount > 0 && t.blueCount > 0
    ensures GrayWorldGains(Fold(Contributions(f, mono))) == [Fin(1.0), Fin(1.0), Fin(1.0), Fin(1.0)]
  {
    var ts := Contributions(f, mono);
    assert ts[..|ts|] == ts;
    UniformFold(f, mono, v, |ts|);
    UniformTallyHasUnitGains(Fold(ts), v);
  }

  // ---------------------------------------------------------------- gain application

  /** `(v as f32 * gain).clamp(0.0, 255.0) as u8`. */
  function Gained(v: u8, gain: F32): u8 {
    ClampToU8(Mul(FromInt(v), gain))
  }

  /** A finite non-negative gain scales and clips; a NaN gain blacks the channel out. */
  lemma {:induction false} GainedValue(v: u8, gain: F32)
    ensures gain.Fin? && gain.v >= 0.0 ==>
              Gained(v, gain) == if v as real * gain.v > 255.0 then 255 else (v as real * gain.v).Floor
    ensures gain.NaN? ==> Gained(v, gain) == 0
    ensures gain.PosInf? ==> Gained(v, gain) == if v > 0 then 255 else 0
    ensures gain == Fin(1.0) ==> Gained(v, gain) == v
  {
    if gain.Fin? && gain.v >= 0.0 {
      assert v as real * gain.v >= 0.0;
    }
  }

  /** Every byte k of an interleaved RGB8 buffer multiplied by gain k mod 3. */
  function GainsApplied(buf: seq<u8>, g: Coeffs): (r: seq<u8>)
    ensures |r| == |buf|
  {
    seq(|buf|, k requires 0 <= k < |buf| => Gained(buf[k], g[k % 3]))
  }

  /** The fourth coefficient (the second green) never affects the result. */
  lemma FourthGainUnused(buf: seq<u8>, g: Coeffs, other: F32)
    ensures GainsApplied(buf, g) == GainsApplied(buf, g[3 := other])
  {}

  /** Unit gains leave the raster as it was. */
  lemma {:induction false} UnitGainsChangeNothing(buf: seq<u8>, g: Coeffs)
    requires g[0] == Fin(1.0) && g[1] == Fin(1.0) && g[2] == Fin(1.0)
    ensures GainsApplied(buf, g) == buf
  {
    forall k | 0 <= k < |buf| ensures GainsApplied(buf, g)[k] == buf[k] {
      GainedValue(buf[k], g[k % 3]);
    }
  }

  /** Within a 3-byte pixel starting at i, byte i + c is channel c. */
  lemma PixelChannels(i: nat)
    requires i % 3 == 0
    ensures (i + 1) % 3 == 1 && (i + 2) % 3 == 2 && (i + 3) % 3 == 0
  {}

  /** The `par_chunks_mut(3)` loop: each 3-byte pixel's channels are multiplied in place. */
  method ApplyGainsInPlace(buf: array<u8>, g: Coeffs)
    requires buf.Length % 3 == 0
    modifies buf
    ensures buf[..] == GainsApplied(old(buf[..]), g)
  {
    var i := 0;
    while i < buf.Length
      invariant i <= buf.Length && i % 3 == 0
      invariant forall k | 0 <= k < i :: buf[k] == Gained(old(buf[k]), g[k % 3])
      invariant forall k | i <= k < buf.Length :: buf[k] == old(buf[k])
    {
      PixelChannels(i);
      buf[i] := Gained(buf[i], g[0]);
      buf[i + 1] := Gained(buf[i + 1], g[1]);
      buf[i + 2] := Gained(buf[i + 2], g[2]);
      i := i + 3;
    }
  }

  // ---------------------------------------------------------------- orientation

  function OrientedSize(w: nat, h: nat, o: Orientation): (nat, nat) {
    if o.Rotate90? || o.Rotate270? then (h, w) else (w, h)
  }

  /** Rotate90/180/270 turn the image; every other orientation tag leaves it untouched. */
  function Orient(img: Raster.RgbImage, o: Orientation): (r: Raster.RgbImage)
    ensures (r.width, r.height) == OrientedSize(img.width, img.height, o)
    ensures !(o.Rotate90? || o.Rotate180? || o.Rotate270?) ==> r == img
  {
    match o
    case Rotate90 => Raster.Rotate90(img)
    case Rotate180 => Raster.Rotate180(img)
    case Rotate270 => Raster.Rotate270(img)
    case _ => img
  }

  // ---------------------------------------------------------------- the pipeline

  /** The whole pipeline on a parsed frame, stage by stage. */
  function RawDecode(f: Frame, demosaic: Demosaic): (r: Result<Raster.Rgba, string>)
    ensures BayerOf(f.cfa.name).None? ==> r == Err("Unsupported CFA")
    ensures r.Err? <==> BayerOf(f.cfa.name).None? ||
                        demosaic(Normalize(f), f.width, f.height, BayerOf(f.cfa.name).value).Err?
    ensures r.Ok? ==> (r.value.width, r.value.height) == OrientedSize(f.width, f.height, f.orientation)
    ensures r.Ok? ==> forall k | 0 <= k < |r.value.data| && k % 4 == 3 :: r.value.data[k] == 255
  {
    var mono := Normalize(f);
    match BayerOf(f.cfa.name)
    case None => Err("Unsupported CFA")
    case Some(cfa) =>
      match demosaic(mono, f.width, f.height, cfa)
      case Err(e) => Err(e)
      case Ok(fill) => Ok(Develop(f, GainsApplied(Demosaiced(f, fill), WhiteBalance(f, mono))))
  }

  /** The RGB8 raster the demosaic wrote, byte by byte. */
  function Demosaiced(f: Frame, fill: nat -> u8): (rgb: seq<u8>)
    ensures |rgb| == f.width * f.height * 3
  {
    seq(f.width * f.height * 3, k requires 0 <= k < f.width * f.height * 3 => fill(k))
  }

  /** `from_raw`, orientation and `to_rgba8` on the white-balanced raster. */
  function Develop(f: Frame, rgb: seq<u8>): Raster.Rgba
    requires |rgb| == f.width * f.height * 3
  {
    Raster.ToRgba8(Orient(Raster.FromRaw(f.width, f.height, rgb).value, f.orientation))
  }

  /** `load_image_raw`: parse, then run the pipeline with the gains applied in place. */
  method LoadImageRaw(buf: seq<u8>, decode: seq<u8> -> Result<Frame, string>, demosaic: Demosaic)
    returns (r: Result<Raster.Rgba, string>)
    ensures decode(buf).Err? ==> r == Err(decode(buf).error)
    ensures decode(buf).Ok? ==> r == RawDecode(decode(buf).value, demosaic)
  {
    var parsed := decode(buf);
    if parsed.Err? {
      return Err(parsed.error);
    }
    var frame := parsed.value;
    var mono8 := Normalize(frame);
    var cfa := BayerOf(frame.cfa.name);
    if cfa.None? {
      return Err("Unsupported CFA");
    }
    var written := demosaic(mono8, frame.width, frame.height, cfa.value);
    if written.Err? {
      return Err(written.error);
    }
    var wbCoeffs := WhiteBalance(frame, mono8);
    var img := DevelopInPlace(frame, written.value, wbCoeffs);
    r := Ok(img);
  }

  /** The buffer the demosaic fills, white-balanced in place and then wrapped and oriented. */
  method DevelopInPlace(frame: Frame, fill: nat -> u8, wbCoeffs: Coeffs) returns (img: Raster.Rgba)
    ensures img == Develop(frame, GainsApplied(Demosaiced(frame, fill), wbCoeffs))
  {
    var rgb8 := DemosaicRaster(frame, fill);
    WholePixels(frame.width * frame.height);
    ApplyGainsInPlace(rgb8, wbCoeffs);
    img := Develop(frame, rgb8[..]);
  }

  lemma WholePixels(n: nat)
    ensures (n * 3) % 3 == 0
  {}

  /** The w×h×3 destination raster, holding what the demosaic writes. */
  method DemosaicRaster(frame: Frame, fill: nat -> u8) returns (rgb8: array<u8>)
    ensures fresh(rgb8) && rgb8[..] == Demosaiced(frame, fill)
  {
    rgb8 := new u8[frame.width * frame.height * 3](k => fill(k));
  }

  // ---------------------------------------------------------------- a worked example

  /** A 2×2 RGGB frame, levels 0 to 255, samples [10, 200, 200, 10], no embedded gains. */
  function TwoByTwoFrame(): Frame {
    SensorFrame(2, 2, Integer([10, 200, 200, 10]),
                Cfa("RGGB", (row: nat, col: nat) => BayerColorAt(RGGB, row, col)),
                [0, 0, 0, 0], [255, 255, 255, 255], [NaN, NaN, NaN, NaN], Normal)
  }

  lemma {:induction false} TwoByTwoMono()
    ensures Normalize(TwoByTwoFrame()) == [10, 200, 200, 10]
  {
    var f := TwoByTwoFrame();
    var mono := Normalize(f);
    NormalizeIsLevelScale(f);
    forall i | 0 <= i < 4 ensures mono[i] == [10, 200, 200, 10][i] {
      FullRangeKeepsSample([10, 200, 200, 10][i]);
    }
  }

  /** With black level 0 and white level 255 the level map keeps an 8-bit sample. */
  lemma FullRangeKeepsSample(s: u8)
    ensures LevelScale(s, 0, 255) == s
  {
    assert s as real * 255.0 / 255.0 == s as real;
  }

  /** The example's RGGB pattern colours its four pixels red, green, green, blue. */
  lemma TwoByTwoColors()
    ensures var f := TwoByTwoFrame();
            ColorOf(f, 0) == 0 && ColorOf(f, 1) == 1 && ColorOf(f, 2) == 1 && ColorOf(f, 3) == 2
  {
    var f := TwoByTwoFrame();
    assert ColorOf(f, 0) == BayerColorAt(RGGB, 0, 0);
    assert ColorOf(f, 1) == BayerColorAt(RGGB, 0, 1);
    assert ColorOf(f, 2) == BayerColorAt(RGGB, 1, 0);
    assert ColorOf(f, 3) == BayerColorAt(RGGB, 1, 1);
  }

  /** The example's map step: red 10, green 200 twice, blue 10. */
  lemma TwoByTwoContributions()
    ensures Contributions(TwoByTwoFrame(), [10, 200, 200, 10]) ==
            [Tally(10, 0, 0, 1, 0, 0), Tally(0, 200, 0, 0, 1, 0), Tally(0, 200, 0, 0, 1, 0), Tally(0, 0, 10, 0, 0, 1)]
  {
    TwoByTwoColors();
  }

  /** Four tallies fold left to right. */
  lemma FoldOfFour(a: Tally, b: Tally, c: Tally, d: Tally)
    ensures Fold([a, b, c, d]) == Combine(Combine(Combine(a, b), c), d)
  {
    assert [a][..0] == [];
    assert Fold([a]) == a;
    assert [a, b][..1] == [a];
    assert Fold([a, b]) == Combine(a, b);
    assert [a, b, c][..2] == [a, b];
    assert Fold([a, b, c]) == Combine(Combine(a, b), c);
    assert [a, b, c, d][..3] == [a, b, c];
  }

  /** The four contributions of the example, folded in order. */
  lemma {:induction false} TwoByTwoTally()
    ensures Fold(Contributions(TwoByTwoFrame(), [10, 200, 200, 10])) == Tally(10, 400, 10, 1, 2, 1)
  {
    TwoByTwoContributions();
    FoldOfFour(Tally(10, 0, 0, 1, 0, 0), Tally(0, 200, 0, 0, 1, 0), Tally(0, 200, 0, 0, 1, 0), Tally(0, 0, 10, 0, 0, 1));
  }

  lemma {:induction false} TwoByTwoGains()
    ensures WhiteBalance(TwoByTwoFrame(), [10, 200, 200, 10]) == [Fin(20.0), Fin(1.0), Fin(20.0), Fin(1.0)]
  {
    TwoByTwoTally();
    TallyGains();
    assert !TwoByTwoFrame().wbCoeffs[0].Fin?;
  }

  lemma {:induction false} TallyGains()
    ensures GrayWorldGains(Tally(10, 400, 10, 1, 2, 1)) == [Fin(20.0), Fin(1.0), Fin(20.0), Fin(1.0)]
  {
    var g := GrayWorldGains(Tally(10, 400, 10, 1, 2, 1));
    GrayWorldGainsCases(Tally(10, 400, 10, 1, 2, 1));
    assert 400.0 / 2.0 == 200.0 && 10.0 / 1.0 == 10.0 && 200.0 / 10.0 == 20.0;
    assert g[0] == Fin(20.0) && g[2] == Fin(20.0);
    assert g == [g[0], g[1], g[2], g[3]];
  }

  /**
   * The frame decodes to a 2×2 opaque RGBA image whatever the demosaic writes, with mono8
   * equal to the samples and gray-world gains [200/10, 1, 200/10, 1].
   */
  lemma {:induction false} TwoByTwoFrameDecodes(demosaic: Demosaic)
    requires demosaic([10, 200, 200, 10], 2, 2, RGGB).Ok?
    ensures Normalize(TwoByTwoFrame()) == [10, 200, 200, 10]
    ensures WhiteBalance(TwoByTwoFrame(), [10, 200, 200, 10]) == [Fin(20.0), Fin(1.0), Fin(20.0), Fin(1.0)]
    ensures var r := RawDecode(TwoByTwoFrame(), demosaic);
            r.Ok? && r.value.width == 2 && r.value.height == 2 &&
            forall k | 0 <= k < |r.value.data| && k % 4 == 3 :: r.value.data[k] == 255
  {
    TwoByTwoMono();
    TwoByTwoGains();
    assert BayerOf("RGGB") == Some(RGGB);
  }
}
