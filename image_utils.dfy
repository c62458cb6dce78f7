/**
 * The format dispatcher and the per-image view state.
 *
 * `get_image_info` (and its older copy `get_image`) keeps a fixed list of candidate
 * loaders, moves the one whose tag is the file's lowercased extension to the front, tries
 * them in order until one decodes the file and labels the result with a format name.
 * `ImageState` holds the displayed image, its rotation, flips, zoom and pan.
 *
 * The file system and the decoders are foreign: they come in as an `Env` of functions.
 */
module ImageUtils {
  import opened Wrappers
  import opened Numeric
  import opened Utils
  import Raster

  // ---------------------------------------------------------------- image info

  /** What the viewer knows of a loaded file. */
  datatype ImageInfo = ImageInfo(path: Path, name: string, format: string, size: nat,
                                 resolution: Option<(nat, nat)>)

  /** `ImageInfo::default`: empty path and name, format "Unknown", size 0, no resolution. */
  function DefaultInfo(): ImageInfo {
    ImageInfo(Path("", 0), "", "Unknown", 0, None)
  }

  /**
   * The outside world as the dispatcher uses it: `std::path::absolute`, `std::fs::read`,
   * the format `image::ImageReader` guesses from the file (its `Debug` name),
   * `std::fs::metadata(..).len()`, and the loader registered under each tag.
   */
  datatype Env = Env(absolute: Path -> Result<Path, string>,
                     read: Path -> Result<seq<u8>, string>,
                     sniff: Path -> Result<string, string>,
                     fileSize: Path -> Result<nat, string>,
                     decode: (string, seq<u8>) -> Result<Raster.Rgba, string>)

  // ---------------------------------------------------------------- registries

  /** Where the reported size comes from: the file's metadata, or the decoded bytes. */
  datatype Sizing = FileSize | DecodedBytes

  /** The candidate tags in their default order, the format label of each, and the size rule. */
  datatype Registry = Registry(tags: seq<string>, formats: map<string, string>, sizing: Sizing)

  predicate Distinct(s: seq<string>) {
    forall i, j | 0 <= i < j < |s| :: s[i] != s[j]
  }

  predicate ValidRegistry(reg: Registry) {
    Distinct(reg.tags) && forall t | t in reg.tags :: t in reg.formats
  }

  /** The registry of `get_image_info`, the one the application uses; it has no "raw" loader. */
  const Wired: Registry :=
    Registry(["default", "svg", "heif", "jxl"],
             map["default" := "Unknown", "svg" := "SVG", "heif" := "HEIF", "jxl" := "JPEG XL"],
             FileSize)

  /** The registry of the older `get_image`, with the RAW loader second. */
  const Legacy: Registry :=
    Registry(["default", "raw", "svg", "heif", "jxl"],
             map["default" := "Unknown", "raw" := "RAW", "svg" := "SVG", "heif" := "HEIF",
                 "jxl" := "JPEG XL"],
             DecodedBytes)

  lemma RegistriesValid()
    ensures ValidRegistry(Wired) && ValidRegistry(Legacy)
    ensures "raw" !in Wired.tags && "raw" in Legacy.tags
  {
  }

  // ---------------------------------------------------------------- loader order

  /** Index of the first occurrence of x in s. */
  function IndexOf(s: seq<string>, x: string): (r: Option<nat>)
    ensures r.None? <==> x !in s
    ensures r.Some? ==> r.value < |s| && s[r.value] == x && x !in s[..r.value]
  {
    if s == [] then None
    else if s[0] == x then Some(0)
    else match IndexOf(s[1..], x)
      case None => None
      case Some(i) => assert s[..i + 1] == [s[0]] + s[1..][..i]; Some(i + 1)
  }

  /** s with every occurrence of x removed, the rest in order. */
  function Without(s: seq<string>, x: string): (r: seq<string>)
    ensures x !in r && |r| <= |s|
  {
    if s == [] then [] else (if s[0] == x then [] else [s[0]]) + Without(s[1..], x)
  }

  /** Removing a value leaves the multiset of the others. */
  lemma {:induction false} WithoutMultiset(s: seq<string>, x: string)
    ensures multiset(Without(s, x)) == multiset(s)[x := 0]
  {
    if s != [] {
      var rest := Without(s[1..], x);
      WithoutMultiset(s[1..], x);
      assert s == [s[0]] + s[1..];
      if s[0] == x {
        assert Without(s, x) == rest;
      } else {
        assert Without(s, x) == [s[0]] + rest;
      }
    }
  }

  lemma {:induction false} WithoutAbsent(s: seq<string>, x: string)
    requires x !in s
    ensures Without(s, x) == s
  {
    if s != [] {
      WithoutAbsent(s[1..], x);
    }
  }

  lemma DistinctTail(s: seq<string>)
    requires Distinct(s) && s != []
    ensures Distinct(s[1..]) && s[0] !in s[1..]
  {
    forall a, b | 0 <= a < b < |s[1..]| ensures s[1..][a] != s[1..][b] {
      assert s[1..][a] == s[a + 1] && s[1..][b] == s[b + 1];
    }
    forall j | 0 <= j < |s[1..]| ensures s[1..][j] != s[0] {
      assert s[1..][j] == s[j + 1];
    }
  }

  /** A value occurs once in a list without repeats. */
  lemma {:induction false} DistinctOnce(s: seq<string>, x: string)
    requires Distinct(s) && x in s
    ensures multiset(s)[x] == 1
  {
    DistinctTail(s);
    assert s == [s[0]] + s[1..];
    if s[0] != x {
      DistinctOnce(s[1..], x);
    }
  }

  /** In a list without repeats, removing the element at i is filtering out its value. */
  lemma {:induction false} RemoveAtIsWithout(s: seq<string>, i: nat)
    requires Distinct(s) && i < |s|
    ensures s[..i] + s[i + 1..] == Without(s, s[i])
  {
    DistinctTail(s);
    if i == 0 {
      WithoutAbsent(s[1..], s[0]);
    } else {
      RemoveAtIsWithout(s[1..], i - 1);
      assert s[1..][i - 1] == s[i];
      assert s[..i] + s[i + 1..] == [s[0]] + (s[1..][..i - 1] + s[1..][i..]);
    }
  }

  /**
   * The order the candidates are tried in: the candidate whose tag is the extension first,
   * then the others in their registry order; the registry order when no tag matches.
   */
  function Prioritized(tags: seq<string>, ext: Option<string>): seq<string> {
    if ext.Some? && ext.value in tags then [ext.value] + Without(tags, ext.value) else tags
  }

  /**
   * Reordering only moves the matching candidate: it is a permutation, the match comes
   * first, and with the match taken out both lists agree.
   */
  lemma PrioritizedIsPermutation(tags: seq<string>, ext: Option<string>)
    requires Distinct(tags)
    ensures multiset(Prioritized(tags, ext)) == multiset(tags)
    ensures ext.Some? && ext.value in tags ==>
              Prioritized(tags, ext)[0] == ext.value &&
              Without(Prioritized(tags, ext), ext.value) == Without(tags, ext.value)
    ensures !(ext.Some? && ext.value in tags) ==> Prioritized(tags, ext) == tags
  {
    if ext.Some? && ext.value in tags {
      MoveToFrontMultiset(tags, ext.value);
      WithoutMovedFront(tags, ext.value);
    }
  }

  lemma MoveToFrontMultiset(tags: seq<string>, e: string)
    requires Distinct(tags) && e in tags
    ensures multiset([e] + Without(tags, e)) == multiset(tags)
  {
    WithoutMultiset(tags, e);
    DistinctOnce(tags, e);
    assert multiset(tags)[e := 0] + multiset{e} == multiset(tags);
  }

  lemma WithoutMovedFront(tags: seq<string>, e: string)
    ensures Without([e] + Without(tags, e), e) == Without(tags, e)
  {
    var rest := Without(tags, e);
    WithoutAbsent(rest, e);
    assert ([e] + rest)[1..] == rest;
  }

  /** The candidate `remove`d from its position and `insert`ed at the front. */
  method Prioritize(tags: seq<string>, ext: Option<string>) returns (order: seq<string>)
    requires Distinct(tags)
    ensures order == Prioritized(tags, ext)
  {
    order := tags;
    if ext.Some? {
      var pos := IndexOf(order, ext.value);
      if pos.Some? {
        var loader := order[pos.value];
        order := order[..pos.value] + order[pos.value + 1..];
        RemoveAtIsWithout(tags, pos.value);
        order := [loader] + order;
      }
    }
  }

  // ---------------------------------------------------------------- first success

  /** Position of the first candidate whose loader decodes the buffer. */
  function FirstLoaded(order: seq<string>, buf: seq<u8>,
                       decode: (string, seq<u8>) -> Result<Raster.Rgba, string>): (r: Option<nat>)
    ensures r.Some? ==> r.value < |order| && decode(order[r.value], buf).Ok? &&
                        forall j | 0 <= j < r.value :: decode(order[j], buf).Err?
    ensures r.None? <==> forall j | 0 <= j < |order| :: decode(order[j], buf).Err?
    ensures r.None? <==> forall t | t in order :: decode(t, buf).Err?
  {
    if order == [] then None
    else if decode(order[0], buf).Ok? then Some(0)
    else match FirstLoaded(order[1..], buf, decode)
      case None => None
      case Some(i) => Some(i + 1)
  }

  /** The tag and image of the first loader, in priority order, that decodes the file. */
  function Attempt(reg: Registry, abs: Path, buf: seq<u8>,
                   decode: (string, seq<u8>) -> Result<Raster.Rgba, string>): Option<(string, Raster.Rgba)> {
    var order := Prioritized(reg.tags, LowerExtension(abs));
    match FirstLoaded(order, buf, decode)
    case None => None
    case Some(i) => Some((order[i], decode(order[i], buf).value))
  }

  lemma SameElements(a: seq<string>, b: seq<string>)
    requires multiset(a) == multiset(b)
    ensures forall t :: t in a <==> t in b
  {
    forall t ensures t in a <==> t in b {
      assert t in a <==> t in multiset(a);
      assert t in b <==> t in multiset(b);
    }
  }

  /**
   * The first success wins: its tag is a registry tag whose loader returned exactly that
   * image, and no attempt happens at all only when every registry loader fails.
   */
  lemma AttemptOutcome(reg: Registry, abs: Path, buf: seq<u8>,
                       decode: (string, seq<u8>) -> Result<Raster.Rgba, string>)
    requires Distinct(reg.tags)
    ensures Attempt(reg, abs, buf, decode).None? <==> forall t | t in reg.tags :: decode(t, buf).Err?
    ensures var a := Attempt(reg, abs, buf, decode);
            a.Some? ==> a.value.0 in reg.tags && decode(a.value.0, buf) == Ok(a.value.1)
  {
    var order := Prioritized(reg.tags, LowerExtension(abs));
    PrioritizedIsPermutation(reg.tags, LowerExtension(abs));
    SameElements(order, reg.tags);
    var first := FirstLoaded(order, buf, decode);
    if first.Some? {
      assert order[first.value] in order;
    } else {
      forall t | t in reg.tags ensures decode(t, buf).Err? {
        assert t in order;
      }
    }
  }

  /** A loader whose tag is the lowercased extension and that decodes the file is the one used. */
  lemma PreferredLoaderWins(reg: Registry, abs: Path, buf: seq<u8>,
                            decode: (string, seq<u8>) -> Result<Raster.Rgba, string>)
    requires Distinct(reg.tags)
    requires LowerExtension(abs).Some? && LowerExtension(abs).value in reg.tags
    requires decode(LowerExtension(abs).value, buf).Ok?
    ensures Attempt(reg, abs, buf, decode) ==
            Some((LowerExtension(abs).value, decode(LowerExtension(abs).value, buf).value))
  {
    PrioritizedIsPermutation(reg.tags, LowerExtension(abs));
  }

  /** Without a matching extension the loaders are tried in registry order. */
  lemma RegistryOrderWithoutMatch(reg: Registry, abs: Path, buf: seq<u8>,
                                  decode: (string, seq<u8>) -> Result<Raster.Rgba, string>)
    requires LowerExtension(abs).None? || LowerExtension(abs).value !in reg.tags
    requires reg.tags != [] && decode(reg.tags[0], buf).Ok?
    ensures Attempt(reg, abs, buf, decode) == Some((reg.tags[0], decode(reg.tags[0], buf).value))
  {
  }

  // ---------------------------------------------------------------- get_image_info

  /** The format label: the sniffed format in upper case for "default", else the registry's. */
  function FormatLabel(reg: Registry, env: Env, abs: Path, tag: string): Result<string, string>
    requires tag in reg.formats
  {
    if tag == "default" then
      match env.sniff(abs)
      case Err(e) => Err(e)
      case Ok(f) => Ok(Upper(f))
    else Ok(reg.formats[tag])
  }

  /** The size field under the registry's size rule. */
  function SizeOf(reg: Registry, env: Env, abs: Path, img: Raster.Rgba): Result<nat, string> {
    match reg.sizing
    case FileSize => env.fileSize(abs)
    case DecodedBytes => Ok(|img.data|)
  }

  /** What `get_image_info` (registry `Wired`) or `get_image` (registry `Legacy`) returns. */
  function InfoOf(reg: Registry, env: Env, path: Path): Result<(ImageInfo, Raster.Rgba), string>
    requires ValidRegistry(reg)
  {
    match env.absolute(path)
    case Err(e) => Err(e)
    case Ok(abs) =>
      match env.read(abs)
      case Err(e) => Err(e)
      case Ok(buf) =>
        match Attempt(reg, abs, buf, env.decode)
        case None => Err("No loaders available")
        case Some((tag, img)) =>
          AttemptOutcome(reg, abs, buf, env.decode);
          match FormatLabel(reg, env, abs, tag)
          case Err(e) => Err(e)
          case Ok(format) =>
            match SizeOf(reg, env, abs, img)
            case Err(e) => Err(e)
            case Ok(size) =>
              Ok((ImageInfo(abs, FileName(abs), format, size, Some((img.width, img.height))), img))
  }

  /**
   * The outcomes of the dispatcher: the I/O errors of `absolute` and `read` first, then
   * "No loaders available" exactly when every loader fails; a success always carries the
   * decoded image's resolution, the absolute path and its file name.
   */
  lemma InfoOutcome(reg: Registry, env: Env, path: Path)
    requires ValidRegistry(reg)
    ensures env.absolute(path).Err? ==> InfoOf(reg, env, path) == Err(env.absolute(path).error)
    ensures env.absolute(path).Ok? && env.read(env.absolute(path).value).Err? ==>
              InfoOf(reg, env, path) == Err(env.read(env.absolute(path).value).error)
    ensures env.absolute(path).Ok? && env.read(env.absolute(path).value).Ok? &&
            (forall t | t in reg.tags :: env.decode(t, env.read(env.absolute(path).value).value).Err?) ==>
              InfoOf(reg, env, path) == Err("No loaders available")
    ensures var r := InfoOf(reg, env, path);
            r.Ok? ==> var (info, img) := r.value;
                      && env.absolute(path).Ok? && info.path == env.absolute(path).value
                      && info.name == FileName(info.path)
                      && info.resolution == Some((img.width, img.height))
                      && env.read(info.path).Ok?
                      && Attempt(reg, info.path, env.read(info.path).value, env.decode).Some?
                      && Attempt(reg, info.path, env.read(info.path).value, env.decode).value.1 == img
  {
    match env.absolute(path)
    case Err(_) =>
    case Ok(abs) =>
      match env.read(abs)
      case Err(_) =>
      case Ok(buf) => AttemptOutcome(reg, abs, buf, env.decode);
  }

  /**
   * Conversely the dispatcher succeeds, with a resolution and the absolute path, once the
   * path resolves and reads, some registry loader decodes the bytes, and the sniffed format
   * and the size are available.
   */
  lemma InfoSucceeds(reg: Registry, env: Env, path: Path, tag: string)
    requires ValidRegistry(reg)
    requires env.absolute(path).Ok? && env.read(env.absolute(path).value).Ok?
    requires tag in reg.tags && env.decode(tag, env.read(env.absolute(path).value).value).Ok?
    requires env.sniff(env.absolute(path).value).Ok?
    requires reg.sizing == FileSize ==> env.fileSize(env.absolute(path).value).Ok?
    ensures var r := InfoOf(reg, env, path);
            r.Ok? && r.value.0.path == env.absolute(path).value && r.value.0.resolution.Some?
  {
    var abs := env.absolute(path).value;
    AttemptOutcome(reg, abs, env.read(abs).value, env.decode);
  }

  /** The label of a success: upper-cased sniffed format for "default", the registry's otherwise. */
  lemma InfoFormat(reg: Registry, env: Env, path: Path)
    requires ValidRegistry(reg)
    requires InfoOf(reg, env, path).Ok?
    ensures var info := InfoOf(reg, env, path).value.0;
            var tag := Attempt(reg, info.path, env.read(info.path).value, env.decode).value.0;
            && tag in reg.tags
            && (tag == "default" ==> env.sniff(info.path).Ok? && info.format == Upper(env.sniff(info.path).value))
            && (tag != "default" ==> info.format == reg.formats[tag])
  {
    var abs := env.absolute(path).value;
    AttemptOutcome(reg, abs, env.read(abs).value, env.decode);
  }

  /**
   * Where `size` comes from: the wired dispatcher reports the file's length from its
   * metadata, the older one the length of the decoded RGBA bytes.
   */
  lemma InfoSize(reg: Registry, env: Env, path: Path)
    requires ValidRegistry(reg) && InfoOf(reg, env, path).Ok?
    ensures var (info, img) := InfoOf(reg, env, path).value;
            && (reg.sizing == FileSize ==> env.fileSize(info.path) == Ok(info.size))
            && (reg.sizing == DecodedBytes ==> info.size == |img.data|)
  {
  }

  lemma WiredAndLegacySizes()
    ensures Wired.sizing == FileSize && Legacy.sizing == DecodedBytes
  {
  }

  /** A success at i after failures before it is the first success. */
  lemma FirstLoadedAt(order: seq<string>, buf: seq<u8>,
                      decode: (string, seq<u8>) -> Result<Raster.Rgba, string>, i: nat)
    requires i < |order| && decode(order[i], buf).Ok?
    requires forall j | 0 <= j < i :: decode(order[j], buf).Err?
    ensures FirstLoaded(order, buf, decode) == Some(i)
  {
  }

  /** Attempt in terms of the first success in the reordered list. */
  lemma AttemptFirstLoaded(reg: Registry, abs: Path, buf: seq<u8>,
                           decode: (string, seq<u8>) -> Result<Raster.Rgba, string>, order: seq<string>)
    requires order == Prioritized(reg.tags, LowerExtension(abs))
    ensures FirstLoaded(order, buf, decode).None? ==> Attempt(reg, abs, buf, decode).None?
    ensures var f := FirstLoaded(order, buf, decode);
            f.Some? ==> Attempt(reg, abs, buf, decode) == Some((order[f.value], decode(order[f.value], buf).value))
  {
  }

  /** The steps of a successful dispatch, put together. */
  lemma InfoOfSuccess(reg: Registry, env: Env, path: Path, abs: Path, buf: seq<u8>, tag: string,
                      img: Raster.Rgba, format: string, size: nat)
    requires ValidRegistry(reg)
    requires env.absolute(path) == Ok(abs) && env.read(abs) == Ok(buf)
    requires Attempt(reg, abs, buf, env.decode) == Some((tag, img)) && tag in reg.formats
    requires FormatLabel(reg, env, abs, tag) == Ok(format) && SizeOf(reg, env, abs, img) == Ok(size)
    ensures InfoOf(reg, env, path) == Ok((ImageInfo(abs, FileName(abs), format, size, Some((img.width, img.height))), img))
  {
  }

  /** A sized success whose size lookup fails reports that failure. */
  lemma InfoOfSizeError(reg: Registry, env: Env, path: Path, abs: Path, buf: seq<u8>, tag: string,
                        img: Raster.Rgba, format: string)
    requires ValidRegistry(reg)
    requires env.absolute(path) == Ok(abs) && env.read(abs) == Ok(buf)
    requires Attempt(reg, abs, buf, env.decode) == Some((tag, img)) && tag in reg.formats
    requires FormatLabel(reg, env, abs, tag) == Ok(format) && SizeOf(reg, env, abs, img).Err?
    ensures InfoOf(reg, env, path) == Err(SizeOf(reg, env, abs, img).error)
  {
  }

  lemma FirstLoadedNone(order: seq<string>, buf: seq<u8>,
                        decode: (string, seq<u8>) -> Result<Raster.Rgba, string>)
    requires forall j | 0 <= j < |order| :: decode(order[j], buf).Err?
    ensures FirstLoaded(order, buf, decode).None?
  {
  }

  /**
   * What trying the loaders in order gives: nothing when all fail, otherwise the first
   * success's image and label (or the error of sniffing the format for "default").
   */
  function TryOutcome(reg: Registry, env: Env, abs: Path, loaders: seq<string>, buf: seq<u8>)
    : Result<Option<(Raster.Rgba, string)>, string>
    requires forall t | t in loaders :: t in reg.formats
  {
    match FirstLoaded(loaders, buf, env.decode)
    case None => Ok(None)
    case Some(i) =>
      match FormatLabel(reg, env, abs, loaders[i])
      case Err(e) => Err(e)
      case Ok(format) => Ok(Some((env.decode(loaders[i], buf).value, format)))
  }

  /** The `for` loop of the dispatcher: try each loader, stop at the first that works. */
  method TryLoaders(reg: Registry, env: Env, abs: Path, loaders: seq<string>, buf: seq<u8>)
    returns (r: Result<Option<(Raster.Rgba, string)>, string>)
    requires forall t | t in loaders :: t in reg.formats
    ensures r == TryOutcome(reg, env, abs, loaders, buf)
  {
    var image: Option<Raster.Rgba> := None;
    var imageFormat: Option<string> := None;
    var i := 0;
    while i < |loaders|
      invariant 0 <= i <= |loaders|
      invariant forall j | 0 <= j < i :: env.decode(loaders[j], buf).Err?
      invariant image.None? && imageFormat.None?
    {
      var ext := loaders[i];
      match env.decode(ext, buf) {
        case Ok(img) => image := Some(img);
        case Err(_) =>
      }
      if image.Some? {
        FirstLoadedAt(loaders, buf, env.decode, i);
        if ext == "default" {
          var sniffed := env.sniff(abs);
          if sniffed.Err? {
            return Err(sniffed.error);
          }
          imageFormat := Some(Upper(sniffed.value));
        } else {
          imageFormat := Some(reg.formats[ext]);
        }
        break;
      }
      i := i + 1;
    }
    if image.None? {
      FirstLoadedNone(loaders, buf, env.decode);
      return Ok(None);
    }
    return Ok(Some((image.value, imageFormat.value)));
  }

  /** The dispatcher itself: reorder, read, try every loader until one works, then describe it. */
  method LoadImageInfo(reg: Registry, env: Env, path: Path)
    returns (r: Result<(ImageInfo, Raster.Rgba), string>)
    requires ValidRegistry(reg)
    ensures r == InfoOf(reg, env, path)
  {
    var absolute := env.absolute(path);
    if absolute.Err? {
      return Err(absolute.error);
    }
    var imgPath := absolute.value;
    var extension := LowerExtension(imgPath);
    var loaders := Prioritize(reg.tags, extension);
    PrioritizedIsPermutation(reg.tags, extension);
    SameElements(loaders, reg.tags);
    var read := env.read(imgPath);
    if read.Err? {
      return Err(read.error);
    }
    var buf := read.value;
    var tried := TryLoaders(reg, env, imgPath, loaders, buf);
    AttemptFirstLoaded(reg, imgPath, buf, env.decode, loaders);
    if tried.Err? {
      return Err(tried.error);
    }
    if tried.value.None? {
      return Err("No loaders available");
    }
    var (img, format) := tried.value.value;
    ghost var tag := loaders[FirstLoaded(loaders, buf, env.decode).value];
    assert Attempt(reg, imgPath, buf, env.decode) == Some((tag, img));
    var size: nat;
    if reg.sizing == FileSize {
      var meta := env.fileSize(imgPath);
      if meta.Err? {
        InfoOfSizeError(reg, env, path, imgPath, buf, tag, img, format);
        return Err(meta.error);
      }
      size := meta.value;
    } else {
      size := |img.data|;
    }
    InfoOfSuccess(reg, env, path, imgPath, buf, tag, img, format, size);
    r := Ok((ImageInfo(imgPath, FileName(imgPath), format, size, Some((img.width, img.height))), img));
  }

  // ---------------------------------------------------------------- image state

  /** Everything `ImageState` holds that the model keeps (the GPU texture handles are left out). */
  datatype ImageView = ImageView(info: ImageInfo, uri: string, uriToForget: Option<string>,
                                 rotation: nat, zoomFactor: real, uvRect: Rect, offset: Vec2,
                                 colorImage: Option<Raster.Rgba>)

  /** The state `App::new` starts from: no rotation, zoom 1, the whole texture, no pan. */
  function InitialView(info: ImageInfo, colorImage: Raster.Rgba): (v: ImageView)
    ensures v.rotation == 0 && v.zoomFactor == 1.0 && v.offset == Vec2(0.0, 0.0)
    ensures v.uvRect == Rect(Pos2(0.0, 0.0), Pos2(1.0, 1.0)) && v.uriToForget.None?
    ensures v.uri == PathAsUri(info.path) && v.info == info && v.colorImage == Some(colorImage)
  {
    ImageView(info, PathAsUri(info.path), None, 0, 1.0, Rect(Pos2(0.0, 0.0), Pos2(1.0, 1.0)),
              Vec2(0.0, 0.0), Some(colorImage))
  }

  /**
   * `load_new_image` on the dispatcher's outcome: an error is passed on and a missing
   * resolution declines, both without a state change; otherwise the old URI is marked to
   * forget, the new image is installed and zoom and rotation are reset.
   */
  function LoadStep(v: ImageView, loaded: Result<(ImageInfo, Raster.Rgba), string>): (Result<bool, string>, ImageView) {
    match loaded
    case Err(e) => (Err(e), v)
    case Ok((info, img)) =>
      if info.resolution.None? then (Ok(false), v)
      else (Ok(true), v.(uriToForget := Some(v.uri), info := info, uri := PathAsUri(info.path),
                         zoomFactor := 1.0, rotation := 0, colorImage := Some(img)))
  }

  /**
   * What a load does to the view: the offset and the texture flips survive every load; a
   * success installs the image and resets zoom and rotation; anything else changes nothing.
   */
  lemma LoadStepEffect(v: ImageView, loaded: Result<(ImageInfo, Raster.Rgba), string>)
    ensures var (r, w) := LoadStep(v, loaded);
            && w.offset == v.offset && w.uvRect == v.uvRect
            && (r != Ok(true) ==> w == v)
            && (r.Err? <==> loaded.Err?)
            && (r == Ok(true) ==> loaded.Ok? && w.info == loaded.value.0 &&
                                  w.colorImage == Some(loaded.value.1) && w.uriToForget == Some(v.uri) &&
                                  w.rotation == 0 && w.zoomFactor == 1.0 && w.uri == PathAsUri(w.info.path))
  {
  }

  /** The dispatcher never reports a success without a resolution, so a load never declines. */
  lemma LoadNeverDeclines(v: ImageView, reg: Registry, env: Env, path: Path)
    requires ValidRegistry(reg)
    ensures LoadStep(v, InfoOf(reg, env, path)).0 != Ok(false)
  {
    InfoOutcome(reg, env, path);
  }

  /** `flip_horizontal`'s texture rectangle: x runs 1→0 if it ran from 0, else 0→1. */
  function FlippedX(r: Rect): Rect {
    if r.min.x == 0.0 then Rect(r.min.(x := 1.0), r.max.(x := 0.0))
    else Rect(r.min.(x := 0.0), r.max.(x := 1.0))
  }

  /** `flip_vertical`'s texture rectangle, the same on y. */
  function FlippedY(r: Rect): Rect {
    if r.min.y == 0.0 then Rect(r.min.(y := 1.0), r.max.(y := 0.0))
    else Rect(r.min.(y := 0.0), r.max.(y := 1.0))
  }

  /** The x extent is one of the two texture orientations. */
  predicate UnitSpanX(r: Rect) {
    (r.min.x, r.max.x) == (0.0, 1.0) || (r.min.x, r.max.x) == (1.0, 0.0)
  }

  predicate UnitSpanY(r: Rect) {
    (r.min.y, r.max.y) == (0.0, 1.0) || (r.min.y, r.max.y) == (1.0, 0.0)
  }

  /**
   * Each flip swaps the two orientations of its axis and keeps the other axis: on unit
   * spans it is an involution, and the two flips commute.
   */
  lemma FlipsAreInvolutions(r: Rect)
    ensures FlippedX(r).min.y == r.min.y && FlippedX(r).max.y == r.max.y
    ensures FlippedY(r).min.x == r.min.x && FlippedY(r).max.x == r.max.x
    ensures UnitSpanX(FlippedX(r)) && UnitSpanY(FlippedY(r))
    ensures (r.min.x, r.max.x) == (0.0, 1.0) ==> (FlippedX(r).min.x, FlippedX(r).max.x) == (1.0, 0.0)
    ensures (r.min.x, r.max.x) == (1.0, 0.0) ==> (FlippedX(r).min.x, FlippedX(r).max.x) == (0.0, 1.0)
    ensures UnitSpanX(r) ==> FlippedX(FlippedX(r)) == r
    ensures UnitSpanY(r) ==> FlippedY(FlippedY(r)) == r
    ensures FlippedX(FlippedY(r)) == FlippedY(FlippedX(r))
  {
  }

  /** `rotate_image`'s counter: one more quarter turn, 4 wrapping to 0. */
  function NextRotation(rotation: nat): nat {
    if rotation + 1 == 4 then 0 else rotation + 1
  }

  /** The counter stays in 0..3 and four steps bring it back. */
  lemma RotationCycles(rotation: nat)
    requires rotation < 4
    ensures NextRotation(rotation) < 4 && NextRotation(rotation) != rotation
    ensures NextRotation(NextRotation(NextRotation(NextRotation(rotation)))) == rotation
  {
  }

  class ImageState {
    var info: ImageInfo
    var uri: string
    var uriToForget: Option<string>
    var rotation: nat
    var zoomFactor: real
    var uvRect: Rect
    var offset: Vec2
    var colorImage: Option<Raster.Rgba>

    /** The rotation counter counts quarter turns, 0 to 3. */
    predicate Valid()
      reads this
    {
      rotation < 4
    }

    function View(): ImageView
      reads this
    {
      ImageView(info, uri, uriToForget, rotation, zoomFactor, uvRect, offset, colorImage)
    }

    /** The image state `App::new` builds around the first image. */
    constructor (info0: ImageInfo, colorImage0: Raster.Rgba)
      ensures Valid() && View() == InitialView(info0, colorImage0)
    {
      info := info0;
      uri := PathAsUri(info0.path);
      uriToForget := None;
      rotation := 0;
      zoomFactor := 1.0;
      uvRect := Rect(Pos2(0.0, 0.0), Pos2(1.0, 1.0));
      offset := Vec2(0.0, 0.0);
      colorImage := Some(colorImage0);
    }

    /** `load_new_image`: run the wired dispatcher on the path and install its image. */
    method LoadNewImage(env: Env, path: Path) returns (r: Result<bool, string>)
      requires Valid()
      modifies this
      ensures Valid()
      ensures (r, View()) == LoadStep(old(View()), InfoOf(Wired, env, path))
    {
      RegistriesValid();
      var loaded := LoadImageInfo(Wired, env, path);
      r := Install(loaded);
    }

    /** The second half of `load_new_image`: act on the dispatcher's outcome. */
    method Install(loaded: Result<(ImageInfo, Raster.Rgba), string>) returns (r: Result<bool, string>)
      requires Valid()
      modifies this
      ensures Valid()
      ensures (r, View()) == LoadStep(old(View()), loaded)
    {
      if loaded.Err? {
        return Err(loaded.error);
      }
      var (newInfo, newColorImage) := loaded.value;
      if newInfo.resolution.None? {
        return Ok(false);
      }
      uriToForget := Some(uri);
      info := newInfo;
      uri := PathAsUri(info.path);
      zoomFactor := 1.0;
      rotation := 0;
      colorImage := Some(newColorImage);
      return Ok(true);
    }

    method FlipHorizontal()
      modifies this
      ensures View() == old(View()).(uvRect := FlippedX(old(uvRect)))
    {
      if uvRect.min.x == 0.0 {
        uvRect := uvRect.(min := uvRect.min.(x := 1.0));
        uvRect := uvRect.(max := uvRect.max.(x := 0.0));
      } else {
        uvRect := uvRect.(min := uvRect.min.(x := 0.0));
        uvRect := uvRect.(max := uvRect.max.(x := 1.0));
      }
    }

    method FlipVertical()
      modifies this
      ensures View() == old(View()).(uvRect := FlippedY(old(uvRect)))
    {
      if uvRect.min.y == 0.0 {
        uvRect := uvRect.(min := uvRect.min.(y := 1.0));
        uvRect := uvRect.(max := uvRect.max.(y := 0.0));
      } else {
        uvRect := uvRect.(min := uvRect.min.(y := 0.0));
        uvRect := uvRect.(max := uvRect.max.(y := 1.0));
      }
    }

    method RotateImage()
      requires Valid()
      modifies this
      ensures Valid()
      ensures View() == old(View()).(rotation := NextRotation(old(rotation)))
    {
      rotation := rotation + 1;
      if rotation == 4 {
        rotation := 0;
      }
    }

    method ResetOffset()
      modifies this
      ensures View() == old(View()).(offset := Vec2(0.0, 0.0))
    {
      offset := Vec2(0.0, 0.0);
    }

    method ResetZoom()
      modifies this
      ensures View() == old(View()).(zoomFactor := 1.0)
    {
      zoomFactor := 1.0;
    }
  }
}
