/**
 * The HEIF loader after libheif has decoded the primary image into one interleaved RGB
 * plane: the rows of the plane, each `stride` bytes apart, are packed back to back with
 * the padding at the end of every row dropped, then wrapped as an RGB8 image and widened
 * to RGBA8.
 */
module HeifLoader {
  import opened Numeric
  import opened Wrappers
  import Raster

  datatype PlaneBuffer = PlaneBuffer(width: nat, height: nat, stride: nat, data: seq<u8>)

  /** Every row slice `data[y*stride .. y*stride + width*3]` lies inside the buffer. */
  predicate RowsInBounds(p: PlaneBuffer) {
    p.height == 0 || (p.height - 1) * p.stride + p.width * 3 <= |p.data|
  }

  /** The interleaved plane libheif hands back; slicing any of its rows never panics. */
  type Plane = p: PlaneBuffer | RowsInBounds(p) witness PlaneBuffer(0, 0, 0, [])

  /** libheif's read, primary-handle lookup and decode to interleaved RGB: foreign code. */
  type HeifDecoder = seq<u8> -> Result<Plane, string>

  lemma RowStartsGrow(y: nat, n: nat, stride: nat)
    requires y < n
    ensures y * stride <= (n - 1) * stride
  {
    Raster.MulMonotone(y, n - 1, stride);
  }

  /** The bytes of row y: `width*3` bytes from `y*stride`. */
  function Row(p: Plane, y: nat): (r: seq<u8>)
    requires y < p.height
    ensures |r| == p.width * 3
  {
    RowStartsGrow(y, p.height, p.stride);
    p.data[y * p.stride .. y * p.stride + p.width * 3]
  }

  /** Rows 0 .. n-1 of the plane, concatenated in increasing row order. */
  function Repack(p: Plane, n: nat): (r: seq<u8>)
    requires n <= p.height
    ensures |r| == n * (p.width * 3)
  {
    if n == 0 then [] else Repack(p, n - 1) + Row(p, n - 1)
  }

  /** Byte k of row y sits inside the packed prefix of n > y rows and inside the plane. */
  lemma RowByteInRange(p: Plane, n: nat, y: nat, k: nat)
    requires n <= p.height && y < n && k < p.width * 3
    ensures y * (p.width * 3) + k < n * (p.width * 3)
    ensures y * p.stride + k < |p.data|
  {
    var w3 := p.width * 3;
    Raster.MulMonotone(y + 1, n, w3);
    assert (y + 1) * w3 == y * w3 + w3;
    RowStartsGrow(y, p.height, p.stride);
  }

  /**
   * Output byte y·width·3 + k is input byte y·stride + k: rows keep their order and only
   * the bytes past width·3 in each row are dropped.
   */
  lemma {:induction false} RepackAt(p: Plane, n: nat, y: nat, k: nat)
    requires n <= p.height && y < n && k < p.width * 3
    ensures y * (p.width * 3) + k < |Repack(p, n)|
    ensures y * p.stride + k < |p.data|
    ensures Repack(p, n)[y * (p.width * 3) + k] == p.data[y * p.stride + k]
  {
    RowByteInRange(p, n, y, k);
    if y < n - 1 {
      RepackAt(p, n - 1, y, k);
      EarlierRow(p, n, y, k);
    } else {
      LastRow(p, n, k);
    }
  }

  /** A byte of an earlier row sits in the prefix Repack(n - 1) and keeps its place. */
  lemma EarlierRow(p: Plane, n: nat, y: nat, k: nat)
    requires n <= p.height && y < n - 1 && k < p.width * 3
    ensures y * (p.width * 3) + k < |Repack(p, n - 1)|
    ensures Repack(p, n)[y * (p.width * 3) + k] == Repack(p, n - 1)[y * (p.width * 3) + k]
  {
    RowByteInRange(p, n - 1, y, k);
    ConcatLeft(Repack(p, n - 1), Row(p, n - 1), y * (p.width * 3) + k);
  }

  /** Byte k of the last of n rows is byte k of that row. */
  lemma LastRow(p: Plane, n: nat, k: nat)
    requires 0 < n <= p.height && k < p.width * 3
    ensures (n - 1) * (p.width * 3) + k < |Repack(p, n)|
    ensures (n - 1) * p.stride + k < |p.data|
    ensures Repack(p, n)[(n - 1) * (p.width * 3) + k] == p.data[(n - 1) * p.stride + k]
  {
    RowAt(p, n - 1, k);
    ConcatRight(Repack(p, n - 1), Row(p, n - 1), k);
  }

  lemma ConcatLeft<T>(a: seq<T>, b: seq<T>, i: nat)
    requires i < |a|
    ensures (a + b)[i] == a[i]
  {}

  lemma ConcatRight<T>(a: seq<T>, b: seq<T>, j: nat)
    requires j < |b|
    ensures (a + b)[|a| + j] == b[j]
  {}

  /** Byte k of row y is byte y·stride + k of the plane. */
  lemma RowAt(p: Plane, y: nat, k: nat)
    requires y < p.height && k < p.width * 3
    ensures y * p.stride + k < |p.data| && Row(p, y)[k] == p.data[y * p.stride + k]
  {
    RowStartsGrow(y, p.height, p.stride);
  }

  /** The packed buffer of a whole plane always fills a width×height RGB8 image exactly. */
  lemma RepackFillsImage(p: Plane)
    ensures |Repack(p, p.height)| == p.width * p.height * 3
    ensures Raster.FromRaw(p.width, p.height, Repack(p, p.height)).Some?
  {
    assert p.height * (p.width * 3) == p.width * p.height * 3;
  }

  /**
   * The image the loader returns: the `from_raw` of the packed rows (which cannot fail),
   * converted to RGBA8.
   */
  function PlaneToRgba(p: Plane): (r: Raster.Rgba)
    ensures r.width == p.width && r.height == p.height
    ensures forall k | 0 <= k < |r.data| && k % 4 == 3 :: r.data[k] == 255
  {
    RepackFillsImage(p);
    Raster.ToRgba8(Raster.FromRaw(p.width, p.height, Repack(p, p.height)).value)
  }

  /** `load_image_heif`: libheif's error, or the repacked plane as RGBA8. */
  function LoadImageHeif(buf: seq<u8>, decode: HeifDecoder): (r: Result<Raster.Rgba, string>)
    ensures r.Err? <==> decode(buf).Err?
    ensures r.Err? ==> r.error == decode(buf).error
    ensures r.Ok? ==> r.value == PlaneToRgba(decode(buf).value)
  {
    match decode(buf)
    case Err(e) => Err(e)
    case Ok(p) => Ok(PlaneToRgba(p))
  }

  lemma PixelOffset(w: nat, x: nat, y: nat, c: nat)
    ensures (y * w + x) * 3 + c == y * (w * 3) + (x * 3 + c)
  {}

  /** Channel c of pixel (x, y) of the decoded image is byte 3x + c of plane row y; alpha is 255. */
  lemma PlaneToRgbaAt(p: Plane, x: nat, y: nat, c: nat)
    requires x < p.width && y < p.height && c < 4
    ensures (y * p.width + x) * 4 + c < |PlaneToRgba(p).data|
    ensures c < 3 ==> y * p.stride + x * 3 + c < |p.data|
    ensures PlaneToRgba(p).data[(y * p.width + x) * 4 + c] ==
            if c == 3 then 255 else p.data[y * p.stride + x * 3 + c]
  {
    RepackFillsImage(p);
    var img := Raster.FromRaw(p.width, p.height, Repack(p, p.height)).value;
    assert PlaneToRgba(p) == Raster.ToRgba8(img);
    Raster.ToRgba8At(img, x, y, c);
    if c < 3 {
      RepackedPixel(p, x, y, c);
    }
  }

  /** Channel c of pixel (x, y) of the repacked image is byte 3x + c of plane row y. */
  lemma RepackedPixel(p: Plane, x: nat, y: nat, c: nat)
    requires x < p.width && y < p.height && c < 3
    ensures Raster.FromRaw(p.width, p.height, Repack(p, p.height)).Some?
    ensures y * p.stride + x * 3 + c < |p.data|
    ensures Raster.Channel(Raster.At(Raster.FromRaw(p.width, p.height, Repack(p, p.height)).value, x, y), c) ==
            p.data[y * p.stride + x * 3 + c]
  {
    RepackFillsImage(p);
    var buf := Repack(p, p.height);
    Raster.FromRawAt(p.width, p.height, buf, x, y);
    RepackAt(p, p.height, y, x * 3 + c);
    PixelOffset(p.width, x, y, c);
    var i := (y * p.width + x) * 3 + c;
    assert i < |buf|;
  }
}
