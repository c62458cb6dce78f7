/**
 * Helpers shared by the viewer: paths and their `file://` URIs, file-name extensions,
 * ASCII case mapping, the on-screen rectangle of the zoomed and panned image, and the
 * initial window size that fits the image on the screen.  Screen coordinates are `real`.
 */
module Utils {
  import opened Wrappers

  // ---------------------------------------------------------------- text

  function LowerChar(c: char): char {
    if 'A' <= c <= 'Z' then (c as int + 32) as char else c
  }

  function UpperChar(c: char): char {
    if 'a' <= c <= 'z' then (c as int - 32) as char else c
  }

  /** `to_lowercase` on ASCII letters; every other character is kept. */
  function Lower(s: string): (r: string)
    ensures |r| == |s|
    ensures forall i | 0 <= i < |s| :: r[i] == LowerChar(s[i])
  {
    seq(|s|, i requires 0 <= i < |s| => LowerChar(s[i]))
  }

  /** `to_uppercase` on ASCII letters; every other character is kept. */
  function Upper(s: string): (r: string)
    ensures |r| == |s|
    ensures forall i | 0 <= i < |s| :: r[i] == UpperChar(s[i])
  {
    seq(|s|, i requires 0 <= i < |s| => UpperChar(s[i]))
  }

  /** Lowercasing is idempotent and lowercase text has no ASCII capital left. */
  lemma LowerIdempotent(s: string)
    ensures Lower(Lower(s)) == Lower(s)
    ensures forall i | 0 <= i < |s| :: !('A' <= Lower(s)[i] <= 'Z')
  {
    assert forall i | 0 <= i < |s| :: Lower(Lower(s))[i] == Lower(s)[i];
  }

  /** Text already in lower case is left alone. */
  lemma LowerOfLowercase(s: string)
    requires forall i | 0 <= i < |s| :: !('A' <= s[i] <= 'Z')
    ensures Lower(s) == s
  {
    assert forall i | 0 <= i < |s| :: Lower(s)[i] == s[i];
  }

  /** Uppercasing is idempotent and leaves no ASCII lower-case letter. */
  lemma UpperIdempotent(s: string)
    ensures Upper(Upper(s)) == Upper(s)
    ensures forall i | 0 <= i < |s| :: !('a' <= Upper(s)[i] <= 'z')
  {
    assert forall i | 0 <= i < |s| :: Upper(Upper(s))[i] == Upper(s)[i];
  }

  /** Text with no lower-case letter is left alone. */
  lemma UpperOfUppercase(s: string)
    requires forall i | 0 <= i < |s| :: !('a' <= s[i] <= 'z')
    ensures Upper(s) == s
  {
    assert forall i | 0 <= i < |s| :: Upper(s)[i] == s[i];
  }

  /** The `Debug` names of image formats come out fully capitalised. */
  lemma UpperOfFormatNames()
    ensures Upper("Png") == "PNG" && Upper("Jpeg") == "JPEG"
  {
    assert Upper("Png") == "PNG";
    assert Upper("Jpeg") == "JPEG";
  }

  // ---------------------------------------------------------------- paths

  /**
   * A path as the viewer sees it: its text, rendered lossily where its bytes are not
   * valid UTF-8, and lossyEnd, the length of the shortest prefix of the text that holds
   * every such byte (0 when there is none).  `to_str` of the whole path succeeds exactly
   * when lossyEnd is 0; `to_str` of a suffix, such as the extension, succeeds when the
   * suffix starts at lossyEnd or later.  A lossyEnd beyond the text stands for no real
   * path; for it no suffix counts as UTF-8.
   */
  datatype Path = Path(text: string, lossyEnd: nat)

  /** `to_str` succeeds on the whole path. */
  predicate Utf8(p: Path) {
    p.lossyEnd == 0
  }

  /** `to_str` succeeds on the last n characters of the path. */
  predicate SuffixIsUtf8(p: Path, n: nat) {
    p.lossyEnd + n <= |p.text|
  }

  /** Index of the last occurrence of ch in s. */
  function LastIndexOf(s: string, ch: char): (r: Option<nat>)
    ensures r.None? <==> ch !in s
    ensures r.Some? ==> r.value < |s| && s[r.value] == ch &&
                        forall j | r.value < j < |s| :: s[j] != ch
  {
    if s == [] then None
    else if s[|s| - 1] == ch then Some(|s| - 1)
    else LastIndexOf(s[..|s| - 1], ch)
  }

  /** The one occurrence of ch with no ch after it is the last one. */
  lemma LastIndexOfAt(s: string, ch: char, i: nat)
    requires i < |s| && s[i] == ch && forall j | i < j < |s| :: s[j] != ch
    ensures LastIndexOf(s, ch) == Some(i)
  {
  }

  /** The last component: everything after the last '/'. */
  function FileName(p: Path): (r: string)
    ensures '/' !in r
    ensures |r| <= |p.text| && r == p.text[|p.text| - |r|..]
  {
    match LastIndexOf(p.text, '/')
    case None => p.text
    case Some(i) => p.text[i + 1..]
  }

  /** The file name depends on the text alone. */
  lemma FileNameOfText(p: Path, q: Path)
    requires p.text == q.text
    ensures FileName(p) == FileName(q)
  {
  }

  /**
   * `Path::extension` of a file name: the text after its last '.', or none when the name
   * has no '.', when its only '.' is the leading one, or when it is "..".
   */
  function Extension(name: string): (r: Option<string>)
    ensures r.Some? ==> |r.value| < |name| && name[|name| - |r.value| - 1] == '.' &&
                        r.value == name[|name| - |r.value|..] && '.' !in r.value
    ensures r.None? <==> name == ".." || '.' !in name || LastIndexOf(name, '.') == Some(0)
  {
    if name == ".." then None
    else match LastIndexOf(name, '.')
      case None => None
      case Some(i) => if i == 0 then None else Some(name[i + 1..])
  }

  /**
   * `extension().and_then(to_str).map(to_lowercase)`: the extension of the path's file
   * name, lowercased; none when it has none or the extension itself is not UTF-8.
   */
  function LowerExtension(p: Path): (r: Option<string>)
    ensures r.Some? <==> Extension(FileName(p)).Some? &&
                         SuffixIsUtf8(p, |Extension(FileName(p)).value|)
    ensures r.Some? ==> r.value == Lower(Extension(FileName(p)).value)
  {
    match Extension(FileName(p))
    case None => None
    case Some(e) => if SuffixIsUtf8(p, |e|) then Some(Lower(e)) else None
  }

  /**
   * Only the extension's own bytes matter: a UTF-8 path has its lowercased extension
   * whenever its file name has one, and bytes that are not UTF-8 before the extension do
   * not hide it.
   */
  lemma LowerExtensionIgnoresStem(p: Path, q: Path)
    requires p.text == q.text
    requires q.lossyEnd <= p.lossyEnd
    requires Extension(FileName(p)).Some?
    requires p.lossyEnd + |Extension(FileName(p)).value| <= |p.text|
    ensures LowerExtension(p) == LowerExtension(q) == Some(Lower(Extension(FileName(p)).value))
  {
    FileNameOfText(p, q);
    var e := Extension(FileName(p)).value;
    assert Extension(FileName(q)) == Some(e);
    assert SuffixIsUtf8(p, |e|) && SuffixIsUtf8(q, |e|);
  }

  /** A UTF-8 path has a lowercased extension exactly when its file name has an extension. */
  lemma Utf8PathExtension(p: Path)
    requires Utf8(p)
    ensures LowerExtension(p).Some? <==> Extension(FileName(p)).Some?
  {
  }

  /**
   * The file name is the last component: a suffix of the path with no '/', preceded by
   * a '/' unless it is the whole path.
   */
  lemma FileNameIsLastComponent(p: Path)
    ensures var r := FileName(p);
      '/' !in r && r == p.text[|p.text| - |r|..] &&
      (|r| == |p.text| || p.text[|p.text| - |r| - 1] == '/')
  {
    match LastIndexOf(p.text, '/')
    case None =>
    case Some(i) => assert |p.text| - |FileName(p)| - 1 == i;
  }

  /** The file name starts after the last '/'. */
  lemma FileNameAt(p: Path, slash: nat)
    requires slash < |p.text| && p.text[slash] == '/'
    requires forall k | slash < k < |p.text| :: p.text[k] != '/'
    ensures FileName(p) == p.text[slash + 1..]
  {
    LastIndexOfAt(p.text, '/', slash);
  }

  /** A '.' past the first character, with no '.' after it, starts a nonempty extension. */
  lemma ExtensionAt(name: string, dot: nat)
    requires 0 < dot && dot + 1 < |name| && name[dot] == '.'
    requires forall k | dot < k < |name| :: name[k] != '.'
    ensures Extension(name) == Some(name[dot + 1..])
  {
    LastIndexOfAt(name, '.', dot);
  }

  /**
   * Located by its last '/' and the last '.' after it, a nonempty extension is read
   * from the path text, lowercased; only its own characters have to be UTF-8.
   */
  lemma LowerExtensionAt(p: Path, slash: nat, dot: nat)
    requires slash + 1 < dot && dot + 1 < |p.text|
    requires p.text[slash] == '/' && forall k | slash < k < |p.text| :: p.text[k] != '/'
    requires p.text[dot] == '.' && forall k | dot < k < |p.text| :: p.text[k] != '.'
    requires p.lossyEnd <= dot
    ensures LowerExtension(p) == Some(Lower(p.text[dot + 1..]))
  {
    FileNameAt(p, slash);
    var name := p.text[slash + 1..];
    ExtensionAt(name, dot - slash - 1);
    var e := name[dot - slash..];
    assert e == p.text[dot + 1..];
    assert Extension(FileName(p)) == Some(e) && SuffixIsUtf8(p, |e|);
  }

  const UriScheme: string := "file://"

  /** `pathbuf_as_uri`: the scheme followed by the path, or by nothing if the path is not UTF-8. */
  function PathAsUri(p: Path): (r: string)
    ensures |r| >= |UriScheme| && r[..|UriScheme|] == UriScheme
    ensures Utf8(p) ==> r[|UriScheme|..] == p.text
    ensures !Utf8(p) ==> r == UriScheme
  {
    UriScheme + (if Utf8(p) then p.text else "")
  }

  /** Removing the scheme recovers the path text: distinct UTF-8 paths get distinct URIs. */
  lemma UriInjective(a: Path, b: Path)
    requires Utf8(a) && Utf8(b)
    ensures PathAsUri(a) == PathAsUri(b) <==> a.text == b.text
  {
    if PathAsUri(a) == PathAsUri(b) {
      assert PathAsUri(a)[|UriScheme|..] == PathAsUri(b)[|UriScheme|..];
    }
  }

  // ---------------------------------------------------------------- geometry

  datatype Vec2 = Vec2(x: real, y: real)
  datatype Pos2 = Pos2(x: real, y: real)
  datatype Rect = Rect(min: Pos2, max: Pos2)

  function Width(r: Rect): real { r.max.x - r.min.x }
  function Height(r: Rect): real { r.max.y - r.min.y }
  function Center(r: Rect): Pos2 { Pos2((r.min.x + r.max.x) / 2.0, (r.min.y + r.max.y) / 2.0) }

  /**
   * `calculate_uv_rect`: the rectangle the image is painted in, `zoom` times the window
   * and centred on the window centre moved by `offset` scaled by `zoom`.
   */
  function UvRect(window: Pos2, zoom: real, offset: Vec2): (r: Rect)
    ensures Width(r) == window.x * zoom && Height(r) == window.y * zoom
    ensures Center(r) == Pos2(window.x / 2.0 + offset.x * zoom, window.y / 2.0 + offset.y * zoom)
  {
    var center := Pos2(window.x / 2.0, window.y / 2.0);
    var zoomedWidth := window.x * zoom;
    var zoomedHeight := window.y * zoom;
    var imgCenterX := center.x - (center.x - window.x / 2.0 - offset.x) * zoom;
    var imgCenterY := center.y - (center.y - window.y / 2.0 - offset.y) * zoom;
    Rect(Pos2(imgCenterX - zoomedWidth / 2.0, imgCenterY - zoomedHeight / 2.0),
         Pos2(imgCenterX + zoomedWidth / 2.0, imgCenterY + zoomedHeight / 2.0))
  }

  /** At zoom 1 and no offset the image fills the window exactly. */
  lemma UvRectAtRest(window: Pos2)
    ensures UvRect(window, 1.0, Vec2(0.0, 0.0)) == Rect(Pos2(0.0, 0.0), window)
  {
    var r := UvRect(window, 1.0, Vec2(0.0, 0.0));
    assert Center(r) == Pos2(window.x / 2.0, window.y / 2.0);
  }

  /**
   * Scaling a side a down to `limit` scales the other side b by the same factor
   * `limit / a`: the new b lies in [0, b] and the two pairs have the same ratio.
   */
  lemma Shrink(a: real, b: real, limit: real)
    requires 0.0 <= limit < a && 0.0 <= b
    ensures 0.0 <= b * (limit / a) <= b
    ensures limit * b == b * (limit / a) * a
  {
    var t := limit / a;
    assert 0.0 <= t < 1.0;
    assert t * a == limit;
  }

  /** The first step: a size wider than `limit` is scaled down to that width. */
  function FitWidth(size: Vec2, limit: real): (r: Vec2)
    requires 0.0 <= size.x && 0.0 <= limit
    ensures size.x <= limit ==> r == size
  {
    if size.x > limit then Vec2(limit, size.y * (limit / size.x)) else size
  }

  /** A wider size ends exactly `limit` wide, no taller than before, with the same ratio. */
  lemma FitWidthScales(size: Vec2, limit: real)
    requires 0.0 <= size.x && 0.0 <= size.y && 0.0 <= limit < size.x
    ensures var r := FitWidth(size, limit);
            r.x == limit && 0.0 <= r.y <= size.y && r.x * size.y == r.y * size.x
  {
    Shrink(size.x, size.y, limit);
    assert FitWidth(size, limit) == Vec2(limit, size.y * (limit / size.x));
  }

  /** The second step: a size taller than `limit` is scaled down to that height. */
  function FitHeight(size: Vec2, limit: real): (r: Vec2)
    requires 0.0 <= size.y && 0.0 <= limit
    ensures size.y <= limit ==> r == size
  {
    if size.y > limit then Vec2(size.x * (limit / size.y), limit) else size
  }

  /** A taller size ends exactly `limit` high, no wider than before, with the same ratio. */
  lemma FitHeightScales(size: Vec2, limit: real)
    requires 0.0 <= size.x && 0.0 <= size.y && 0.0 <= limit < size.y
    ensures var r := FitHeight(size, limit);
            r.y == limit && 0.0 <= r.x <= size.x && r.y * size.x == r.x * size.y
  {
    Shrink(size.y, size.x, limit);
    assert FitHeight(size, limit) == Vec2(size.x * (limit / size.y), limit);
  }

  /** A pair (x, y) with the ratio of (w, h), shrunk in y to (x', limit), keeps that ratio. */
  lemma RatioCarries(x: real, y: real, x': real, limit: real, w: real, h: real)
    requires y > 0.0 && x * h == y * w && limit * x == x' * y
    ensures x' * h == limit * w
  {
    calc {
      x' * h * y;
      == x' * y * h;
      == limit * x * h;
      == limit * (x * h);
      == limit * (y * w);
      == limit * w * y;
    }
  }

  /**
   * `calculate_initial_window_size`: the image size shrunk, keeping its aspect ratio,
   * first to the screen width and then to the screen height.  A screen size that cannot be
   * queried is (0, 0); a missing resolution gives the screen size.
   */
  function InitialWindowSize(resolution: Option<(nat, nat)>, screenSize: Option<(nat, nat)>): (size: Vec2)
    ensures var (sw, sh) := if screenSize.Some? then screenSize.value else (0, 0);
            resolution.None? ==> size == Vec2(sw as real, sh as real)
  {
    var (sw, sh) := if screenSize.Some? then screenSize.value else (0, 0);
    var screen := Vec2(sw as real, sh as real);
    match resolution
    case None => screen
    case Some((w, h)) => FitHeight(FitWidth(Vec2(w as real, h as real), screen.x), screen.y)
  }

  /** The same computation as the source writes it, updating one size in place. */
  method CalculateInitialWindowSize(resolution: Option<(nat, nat)>, screenSize: Option<(nat, nat)>)
    returns (size: Vec2)
    ensures size == InitialWindowSize(resolution, screenSize)
  {
    var (sw, sh) := if screenSize.Some? then screenSize.value else (0, 0);
    var screen := Vec2(sw as real, sh as real);
    if resolution.None? {
      return Vec2(sw as real, sh as real);
    }
    var (w, h) := resolution.value;
    size := Vec2(w as real, h as real);
    if size.x > screen.x {
      size := size.(y := size.y * (screen.x / size.x));
      size := size.(x := screen.x);
    }
    assert size == FitWidth(Vec2(w as real, h as real), screen.x);
    if size.y > screen.y {
      size := size.(x := size.x * (screen.y / size.y));
      size := size.(y := screen.y);
    }
  }

  /** The two steps applied to a w×h image on a sw×sh screen. */
  predicate FitsScreen(size: Vec2, w: nat, h: nat, sw: nat, sh: nat) {
    && 0.0 <= size.x <= sw as real && 0.0 <= size.y <= sh as real
    && size.x * h as real == size.y * w as real
    && (w <= sw && h <= sh ==> size == Vec2(w as real, h as real))
    && (w > sw || h > sh ==> size.x == sw as real || size.y == sh as real)
  }

  lemma FitWiderImage(w: nat, h: nat, sw: nat, sh: nat)
    requires w > sw
    ensures FitsScreen(FitHeight(FitWidth(Vec2(w as real, h as real), sw as real), sh as real), w, h, sw, sh)
  {
    var first := FitWidth(Vec2(w as real, h as real), sw as real);
    FitWidthScales(Vec2(w as real, h as real), sw as real);
    var size := FitHeight(first, sh as real);
    if first.y > sh as real {
      FitHeightScales(first, sh as real);
      RatioCarries(first.x, first.y, size.x, sh as real, w as real, h as real);
    }
  }

  lemma FitTallerImage(w: nat, h: nat, sw: nat, sh: nat)
    requires w <= sw && h > sh
    ensures FitsScreen(FitHeight(FitWidth(Vec2(w as real, h as real), sw as real), sh as real), w, h, sw, sh)
  {
    var size := FitHeight(Vec2(w as real, h as real), sh as real);
    FitHeightScales(Vec2(w as real, h as real), sh as real);
    RatioCarries(w as real, h as real, size.x, sh as real, w as real, h as real);
  }

  /**
   * The window fits the screen and has the image's aspect ratio; an image that fits already
   * keeps its size, and one that does not touches the screen's width or height.
   */
  lemma InitialWindowSizeFits(w: nat, h: nat, sw: nat, sh: nat)
    ensures FitsScreen(InitialWindowSize(Some((w, h)), Some((sw, sh))), w, h, sw, sh)
  {
    assert InitialWindowSize(Some((w, h)), Some((sw, sh))) ==
           FitHeight(FitWidth(Vec2(w as real, h as real), sw as real), sh as real);
    if w > sw {
      FitWiderImage(w, h, sw, sh);
    } else if h > sh {
      FitTallerImage(w, h, sw, sh);
    }
  }
}
