/**
 * The application shell around the two state objects: opening a file from a dialog, and
 * stepping to the next or previous image of the current file's directory.
 *
 * `next_image` lists the directory, keeps the files whose lowercased extension is one of
 * the supported ones, sorts them by file name, finds the current file and then tries the
 * file `step` positions away, wrapping around the ends of the list.  The directory listing
 * and the file dialog are parameters.
 */
module Application {
  import opened Wrappers
  import opened Utils
  import opened ImageUtils
  import opened State
  import Raster

  // ---------------------------------------------------------------- candidates

  /** `SUPPORTED_EXTENSIONS`: the 42 lowercase extensions the viewer offers and navigates. */
  const SupportedExtensions: seq<string> :=
    ["avif", "bmp", "dds", "ff", "gif", "hdr", "ico", "jpeg", "jpg", "exr", "png", "pnm", "qoi",
     "svg", "tga", "tiff", "webp", "heif", "jxl", "mrw", "arw", "srf", "sr2", "mef", "orf", "srw",
     "erf", "kdc", "dcs", "rw2", "raf", "dcr", "dng", "pef", "crw", "iiq", "3fr", "nrw", "nef",
     "mos", "cr2", "ari"]

  /** The lowercased extension, or "" when there is none, is a supported one. */
  predicate Supported(p: Path) {
    var ext := if LowerExtension(p).Some? then LowerExtension(p).value else "";
    ext in SupportedExtensions
  }

  /** A file without an extension is never a candidate. */
  lemma NoExtensionUnsupported(p: Path)
    requires LowerExtension(p).None?
    ensures !Supported(p)
  {
    EmptyUnsupported();
  }

  /** Every supported extension is nonempty. */
  lemma EmptyUnsupported()
    ensures "" !in SupportedExtensions
  {
    assert forall e | e in SupportedExtensions :: |e| > 0;
  }

  /**
   * The directory entries that are navigation candidates: readable entries whose
   * extension is supported, in listing order.
   */
  function Candidates(entries: seq<Result<Path, string>>): (files: seq<Path>)
    ensures forall p :: p in files <==> Ok(p) in entries && Supported(p)
    ensures |files| <= |entries|
  {
    if entries == [] then []
    else
      var rest := Candidates(entries[1..]);
      assert forall e :: e in entries <==> e == entries[0] || e in entries[1..];
      match entries[0]
      case Err(_) => rest
      case Ok(p) => if Supported(p) then [p] + rest else rest
  }

  // ---------------------------------------------------------------- name order

  /** `str::cmp` on file names: character by character, a proper prefix first. */
  predicate NameLe(a: string, b: string)
    decreases |a|
  {
    a == [] || (b != [] && (a[0] < b[0] || (a[0] == b[0] && NameLe(a[1..], b[1..]))))
  }

  lemma {:induction false} NameLeTotal(a: string, b: string)
    ensures NameLe(a, b) || NameLe(b, a)
    decreases |a|
  {
    if a != [] && b != [] && a[0] == b[0] {
      NameLeTotal(a[1..], b[1..]);
    }
  }

  lemma {:induction false} NameLeTransitive(a: string, b: string, c: string)
    requires NameLe(a, b) && NameLe(b, c)
    ensures NameLe(a, c)
    decreases |a|
  {
    if a != [] && a[0] == b[0] && b[0] == c[0] {
      NameLeTransitive(a[1..], b[1..], c[1..]);
    }
  }

  /** Each file's name is at most the next file's. */
  predicate Sorted(files: seq<Path>) {
    |files| < 2 || (NameLe(FileName(files[0]), FileName(files[1])) && Sorted(files[1..]))
  }

  /** In a sorted list every file's name is at most that of every later file. */
  lemma {:induction false} SortedPairwise(files: seq<Path>)
    requires Sorted(files)
    ensures forall i, j | 0 <= i < j < |files| :: NameLe(FileName(files[i]), FileName(files[j]))
  {
    if |files| >= 2 {
      var tail := files[1..];
      SortedPairwise(tail);
      forall i, j | 0 <= i < j < |files| ensures NameLe(FileName(files[i]), FileName(files[j])) {
        if i > 0 {
          assert files[i] == tail[i - 1] && files[j] == tail[j - 1];
        } else if j > 1 {
          assert files[1] == tail[0] && files[j] == tail[j - 1];
          NameLeTransitive(FileName(files[0]), FileName(files[1]), FileName(files[j]));
        }
      }
    }
  }

  lemma ConsMultiset(p: Path, files: seq<Path>, rest: seq<Path>)
    requires files != [] && multiset(rest) == multiset(files[1..]) + multiset{p}
    ensures multiset([files[0]] + rest) == multiset(files) + multiset{p}
  {
    assert files == [files[0]] + files[1..];
    assert multiset(files) == multiset{files[0]} + multiset(files[1..]);
  }

  /** p placed before the first file whose name is not smaller. */
  function Insert(p: Path, files: seq<Path>): (r: seq<Path>)
    requires Sorted(files)
    ensures Sorted(r) && multiset(r) == multiset(files) + multiset{p}
    ensures r != [] && (r[0] == p || (files != [] && r[0] == files[0]))
  {
    if files == [] then [p]
    else if NameLe(FileName(p), FileName(files[0])) then
      assert ([p] + files)[1..] == files;
      [p] + files
    else
      var rest := Insert(p, files[1..]);
      NameLeTotal(FileName(p), FileName(files[0]));
      ConsMultiset(p, files, rest);
      assert ([files[0]] + rest)[1..] == rest;
      [files[0]] + rest
  }

  /** The candidates sorted by file name; a stable sort, so files of equal name keep their order. */
  function SortByName(files: seq<Path>): (r: seq<Path>)
    ensures Sorted(r) && multiset(r) == multiset(files)
  {
    if files == [] then []
    else
      assert files == [files[0]] + files[1..];
      Insert(files[0], SortByName(files[1..]))
  }

  lemma SortedKeepsFiles(files: seq<Path>)
    ensures forall p :: p in SortByName(files) <==> p in files
    ensures |SortByName(files)| == |files|
  {
    var r := SortByName(files);
    forall p ensures p in r <==> p in files {
      assert p in r <==> p in multiset(r);
      assert p in files <==> p in multiset(files);
    }
    assert |r| == |multiset(r)|;
  }

  /** The files `next_image` steps through: the candidates of the listing in name order. */
  function Neighbours(entries: seq<Result<Path, string>>): (files: seq<Path>)
    ensures Sorted(files)
    ensures forall p :: p in files <==> Ok(p) in entries && Supported(p)
  {
    SortedKeepsFiles(Candidates(entries));
    SortByName(Candidates(entries))
  }

  /** Position of the current file in the list (the first one, should it appear twice). */
  function PositionOf(files: seq<Path>, p: Path): (r: nat)
    requires p in files
    ensures r < |files| && files[r] == p && p !in files[..r]
  {
    if files[0] == p then 0
    else
      var i := PositionOf(files[1..], p);
      assert files[1..][..i] == files[1..i + 1];
      i + 1
  }

  // ---------------------------------------------------------------- cyclic order

  /** The wrap rule: one before the first is the last, one past the last is the first. */
  function Wrap(index: int, maxIndex: int): int {
    if index == -1 then maxIndex else if index > maxIndex then 0 else index
  }

  /** One step off either end of a list of n files wraps around: the rule is remainder by n. */
  lemma WrapIsModulo(index: int, n: nat)
    requires n > 0 && -1 <= index <= n
    ensures Wrap(index, n - 1) == index % n
    ensures 0 <= Wrap(index, n - 1) < n
  {
    if index == -1 {
      Raster.DivModUnique(index, n, -1, n - 1);
    } else if index == n {
      Raster.DivModUnique(index, n, 1, 0);
    } else {
      Raster.DivModUnique(index, n, 0, index);
    }
  }

  /** The position k steps from cur in a list of n files, wrapping at each step. */
  function Cyc(cur: nat, step: int, k: nat, n: nat): (r: nat)
    requires cur < n && (step == 1 || step == -1)
    ensures r < n
  {
    if k == 0 then cur else Wrap(Cyc(cur, step, k - 1, n) + step, n - 1)
  }

  function Target(files: seq<Path>, cur: nat, step: int, k: nat): Path
    requires cur < |files| && (step == 1 || step == -1)
  {
    files[Cyc(cur, step, k, |files|)]
  }

  /** Taking the remainder before adding d does not change the remainder of the sum. */
  lemma ModOfSum(x: int, d: int, n: nat)
    requires n > 0
    ensures (x + d) % n == (x % n + d) % n
  {
    var q1, c := x / n, x % n;
    var q2, r := (c + d) / n, (c + d) % n;
    assert x == q1 * n + c;
    assert c + d == q2 * n + r;
    assert (q1 + q2) * n == q1 * n + q2 * n;
    Raster.DivModUnique(x + d, n, q1 + q2, r);
  }

  /** Wrapping at every step is the same as one remainder by n of the whole displacement. */
  lemma {:induction false} CycIsModulo(cur: nat, step: int, k: nat, n: nat)
    requires cur < n && (step == 1 || step == -1)
    ensures Cyc(cur, step, k, n) == (cur + step * k) % n
  {
    if k == 0 {
      Raster.DivModUnique(cur, n, 0, cur);
    } else {
      CycIsModulo(cur, step, k - 1, n);
      var x := cur + step * (k - 1);
      WrapIsModulo(x % n + step, n);
      ModOfSum(x, step, n);
      assert cur + step * k == x + step by {
        if step == 1 { } else { }
      }
    }
  }

  /** A whole turn forwards or backwards keeps the remainder. */
  lemma ModOfTurn(x: int, step: int, n: nat)
    requires n > 0 && (step == 1 || step == -1)
    ensures (x + step * n) % n == x % n
  {
    assert x == (x / n) * n + x % n;
    if step == 1 {
      Raster.DivModUnique(x + n, n, x / n + 1, x % n);
    } else {
      Raster.DivModUnique(x - n, n, x / n - 1, x % n);
    }
  }

  /** After n steps the walk is back where it started. */
  lemma CycPeriodic(cur: nat, step: int, k: nat, n: nat)
    requires cur < n && (step == 1 || step == -1)
    ensures Cyc(cur, step, k + n, n) == Cyc(cur, step, k, n)
  {
    CycIsModulo(cur, step, k, n);
    CycIsModulo(cur, step, k + n, n);
    assert cur + step * (k + n) == (cur + step * k) + step * n;
    ModOfTurn(cur + step * k, step, n);
  }

  /** Moving a remainder by less than n lands at most one wrap away. */
  lemma ShiftMod(a: int, d: int, n: nat)
    requires n > 0 && d + n > 0 && d < n
    ensures var s := a % n + d;
            (a + d) % n == if s < 0 then s + n else if s >= n then s - n else s
  {
    var s := a % n + d;
    assert a == (a / n) * n + a % n;
    if s < 0 {
      assert a + d == (a / n - 1) * n + (s + n);
      Raster.DivModUnique(a + d, n, a / n - 1, s + n);
    } else if s >= n {
      assert a + d == (a / n + 1) * n + (s - n);
      Raster.DivModUnique(a + d, n, a / n + 1, s - n);
    } else {
      assert a + d == (a / n) * n + s;
      Raster.DivModUnique(a + d, n, a / n, s);
    }
  }

  /** Fewer than n steps apart, two positions of the walk are different files. */
  lemma CycDistinct(cur: nat, step: int, i: nat, j: nat, n: nat)
    requires cur < n && (step == 1 || step == -1) && i < j < i + n
    ensures Cyc(cur, step, i, n) != Cyc(cur, step, j, n)
  {
    CycIsModulo(cur, step, i, n);
    CycIsModulo(cur, step, j, n);
    var d := step * (j - i);
    assert step * j == step * i + d;
    ShiftMod(cur + step * i, d, n);
  }

  // ---------------------------------------------------------------- the dispatcher as a function

  /** `get_image_info` as a function of the path, over a file system that does not change. */
  type Dispatcher = Path -> Result<(ImageInfo, Raster.Rgba), string>

  /**
   * info answers every path as the wired dispatcher does over env.  The navigation
   * contracts are stated over such an info; the equation comes into play only where
   * `InfoOf` itself is mentioned.
   */
  ghost predicate IsGetImageInfo(info: Dispatcher, env: Env) {
    forall p {:trigger InfoOf(Wired, env, p)} ::
      ValidRegistry(Wired) ==> info(p) == InfoOf(Wired, env, p)
  }

  /** The wired dispatcher over env, as a function value. */
  function GetImageInfo(env: Env): Dispatcher {
    RegistriesValid();
    p => InfoOf(Wired, env, p)
  }

  lemma GetImageInfoIsOne(env: Env)
    ensures IsGetImageInfo(GetImageInfo(env), env)
  {
  }

  // ---------------------------------------------------------------- the navigation loop

  const NoImagesText: string := "Couldn't open any image in this directory"

  /** The toast for a file that did not open. */
  function CouldNotOpen(p: Path): string {
    "Couldn't open " + p.text
  }

  /** A `load_new_image` as the loop sees it: the outcome and the image state after it. */
  type Loader = (ImageView, Path) -> (Result<bool, string>, ImageView)

  /** `load_new_image` over the given dispatcher. */
  function LoaderOf(info: Dispatcher): Loader {
    (v: ImageView, p: Path) => LoadStep(v, info(p))
  }

  /** Where the loop stands: its result once it has returned, and the two states. */
  datatype Search = Search(outcome: Option<Result<(), string>>, image: ImageView, app: AppView)

  /**
   * At most `fuel` passes of the loop of `next_image`, for any loader: a pass first sends
   * the "no image" notice if the (unwrapped) index was seen to fail before, wraps the index,
   * and loads that file; an error is returned, a success ends the loop, and a decline
   * notifies, records the index as broken and moves on by `step`.
   */
  function NavLoop(load: Loader, files: seq<Path>, step: int, index: int, broken: seq<int>,
                   iv: ImageView, av: AppView, fuel: nat): Search
    requires |files| > 0 && (step == 1 || step == -1) && -1 <= index <= |files|
    decreases fuel
  {
    if fuel == 0 then Search(None, iv, av)
    else
      var av1 := if index in broken then Notified(av, NoImagesText) else av;
      var i := Wrap(index, |files| - 1);
      var (r, iv1) := load(iv, files[i]);
      if r.Err? then Search(Some(Err(r.error)), iv1, av1)
      else if r.value then Search(Some(Ok(())), iv1, av1)
      else NavLoop(load, files, step, i + step, broken + [i], iv1,
                   Notified(av1, CouldNotOpen(files[i])), fuel - 1)
  }

  /**
   * With a loader that always declines, the loop never returns: every pass adds at least
   * one toast, and revisiting a broken file only adds the "no image" notice.
   */
  lemma {:induction false} DecliningLoaderNeverReturns(load: Loader, files: seq<Path>, step: int,
                                                       index: int, broken: seq<int>,
                                                       iv: ImageView, av: AppView, fuel: nat)
    requires |files| > 0 && (step == 1 || step == -1) && -1 <= index <= |files|
    requires forall v, p :: load(v, p).0 == Ok(false)
    ensures var s := NavLoop(load, files, step, index, broken, iv, av, fuel);
            s.outcome.None? && |s.app.toasts| >= |av.toasts| + fuel
    decreases fuel
  {
    if fuel > 0 {
      var av1 := if index in broken then Notified(av, NoImagesText) else av;
      var i := Wrap(index, |files| - 1);
      var (r, iv1) := load(iv, files[i]);
      assert r == Ok(false);
      DecliningLoaderNeverReturns(load, files, step, i + step, broken + [i], iv1,
                                  Notified(av1, CouldNotOpen(files[i])), fuel - 1);
    }
  }

  /** What `next_image` makes of one load: the dispatcher's error, or success. */
  function Reported(r: Result<bool, string>): Result<(), string> {
    if r.Err? then Err(r.error) else Ok(())
  }

  /**
   * With the wired dispatcher every pass returns: `get_image_info` reports a resolution
   * with every success, so `load_new_image` never declines, and an undecodable file ends
   * the loop with its error instead of being skipped.
   */
  lemma WiredLoopIsOnePass(info: Dispatcher, env: Env, files: seq<Path>, step: int, index: int,
                           broken: seq<int>, iv: ImageView, av: AppView, fuel: nat)
    requires IsGetImageInfo(info, env)
    requires |files| > 0 && (step == 1 || step == -1) && -1 <= index <= |files| && fuel > 0
    ensures var (r, iv1) := LoadStep(iv, info(files[Wrap(index, |files| - 1)]));
            NavLoop(LoaderOf(info), files, step, index, broken, iv, av, fuel) ==
              Search(Some(Reported(r)), iv1, if index in broken then Notified(av, NoImagesText) else av)
  {
    RegistriesValid();
    var i := Wrap(index, |files| - 1);
    LoadNeverDeclines(iv, Wired, env, files[i]);
  }

  /** The as-written `next_image` from position cur: one load of the file `step` away. */
  function Attempted(info: Dispatcher, files: seq<Path>, cur: nat, step: int, iv: ImageView)
    : (Result<(), string>, ImageView)
    requires cur < |files| && (step == 1 || step == -1)
  {
    var (r, iv1) := LoadStep(iv, info(Target(files, cur, step, 1)));
    (Reported(r), iv1)
  }

  /**
   * The loop of `next_image`, started as the source starts it (index cur + step, nothing
   * broken), is decided by its first load: `Attempted` is the whole loop.
   */
  lemma FirstPassDecides(info: Dispatcher, env: Env, files: seq<Path>, cur: nat, step: int,
                         iv: ImageView, av: AppView, fuel: nat)
    requires IsGetImageInfo(info, env)
    requires cur < |files| && (step == 1 || step == -1) && fuel > 0
    ensures var (r, iv1) := Attempted(info, files, cur, step, iv);
            NavLoop(LoaderOf(info), files, step, cur + step, [], iv, av, fuel) == Search(Some(r), iv1, av)
  {
    assert Cyc(cur, step, 1, |files|) == Wrap(cur + step, |files| - 1);
    WiredLoopIsOnePass(info, env, files, step, cur + step, [], iv, av, fuel);
  }

  // ---------------------------------------------------------------- skipping navigation

  /** The file opens: the dispatcher succeeds and reports a resolution. */
  predicate Opens(info: Dispatcher, p: Path) {
    info(p).Ok? && info(p).value.0.resolution.Some?
  }

  /** A load shows its file exactly when the file opens. */
  lemma ShownIffOpens(v: ImageView, info: Dispatcher, p: Path)
    ensures LoadStep(v, info(p)).0 == Ok(true) <==> Opens(info, p)
  {
  }

  /** With the wired dispatcher a file opens exactly when `get_image_info` succeeds on it. */
  lemma OpensIffInfoSucceeds(info: Dispatcher, env: Env, p: Path)
    requires IsGetImageInfo(info, env)
    ensures Opens(info, p) <==> InfoOf(Wired, env, p).Ok?
  {
    RegistriesValid();
    InfoOutcome(Wired, env, p);
  }

  /**
   * The first of the attempts k .. n (attempt j is the file j steps from cur) whose file
   * opens, if any.
   */
  function FirstOpen(info: Dispatcher, files: seq<Path>, cur: nat, step: int, k: nat): (r: Option<nat>)
    requires cur < |files| && (step == 1 || step == -1) && 1 <= k
    decreases |files| + 1 - k
    ensures r.Some? ==> k <= r.value <= |files| && Opens(info, Target(files, cur, step, r.value))
    ensures r.Some? ==> forall j | k <= j < r.value :: !Opens(info, Target(files, cur, step, j))
    ensures r.None? <==> forall j | k <= j <= |files| :: !Opens(info, Target(files, cur, step, j))
  {
    if k > |files| then None
    else if Opens(info, Target(files, cur, step, k)) then Some(k)
    else FirstOpen(info, files, cur, step, k + 1)
  }

  /** The search ends at attempt m when m opens and every attempt before it does not. */
  lemma FirstOpenIs(info: Dispatcher, files: seq<Path>, cur: nat, step: int, m: nat)
    requires cur < |files| && (step == 1 || step == -1) && 1 <= m <= |files|
    requires forall j | 1 <= j < m :: !Opens(info, Target(files, cur, step, j))
    requires Opens(info, Target(files, cur, step, m))
    ensures FirstOpen(info, files, cur, step, 1) == Some(m)
  {
  }

  /** The current file is the n-th attempt: if it opens, the search always ends on a file. */
  lemma CurrentIsLastResort(info: Dispatcher, files: seq<Path>, cur: nat, step: int)
    requires cur < |files| && (step == 1 || step == -1)
    requires Opens(info, files[cur])
    ensures FirstOpen(info, files, cur, step, 1).Some?
  {
    CycPeriodic(cur, step, 0, |files|);
    assert Target(files, cur, step, |files|) == files[cur];
  }

  /** The toasts of the first m failed attempts, in order. */
  function FailuresNotified(av: AppView, files: seq<Path>, cur: nat, step: int, m: nat): AppView
    requires cur < |files| && (step == 1 || step == -1)
  {
    if m == 0 then av
    else Notified(FailuresNotified(av, files, cur, step, m - 1),
                  CouldNotOpen(Target(files, cur, step, m)))
  }

  /** The indexes of the first m attempts, in order: what the loop records as broken. */
  function Visited(cur: nat, step: int, m: nat, n: nat): (r: seq<int>)
    requires cur < n && (step == 1 || step == -1)
    ensures |r| == m
    ensures forall k | 0 <= k < m :: r[k] == Cyc(cur, step, k + 1, n)
  {
    if m == 0 then [] else Visited(cur, step, m - 1, n) + [Cyc(cur, step, m, n)]
  }

  /** None of the first m attempts opens. */
  ghost predicate NoneOpenUpTo(info: Dispatcher, files: seq<Path>, cur: nat, step: int, m: nat)
    requires cur < |files| && (step == 1 || step == -1)
  {
    m == 0 || (NoneOpenUpTo(info, files, cur, step, m - 1) && !Opens(info, Target(files, cur, step, m)))
  }

  lemma {:induction false} NoneOpenUpToMeans(info: Dispatcher, files: seq<Path>, cur: nat, step: int, m: nat)
    requires cur < |files| && (step == 1 || step == -1)
    ensures NoneOpenUpTo(info, files, cur, step, m) <==>
            forall j | 1 <= j <= m :: !Opens(info, Target(files, cur, step, j))
  {
    if m > 0 {
      NoneOpenUpToMeans(info, files, cur, step, m - 1);
    }
  }

  /** The next index is one that already failed exactly when all n files have been tried. */
  lemma RevisitIffFull(cur: nat, step: int, m: nat, n: nat)
    requires cur < n && (step == 1 || step == -1) && m <= n
    ensures Cyc(cur, step, m + 1, n) in Visited(cur, step, m, n) <==> m == n
  {
    var broken := Visited(cur, step, m, n);
    var next := Cyc(cur, step, m + 1, n);
    if m == n {
      CycPeriodic(cur, step, 1, n);
      assert broken[0] == next;
    } else {
      forall k | 0 <= k < m ensures broken[k] != next {
        CycDistinct(cur, step, k + 1, m + 1, n);
      }
    }
  }

  // ---------------------------------------------------------------- the application

  class App {
    const appState: AppState
    const imageState: ImageState

    predicate Valid()
      reads imageState
    {
      imageState.Valid()
    }

    /** `App::new`: the image state around the first image and the configured app state. */
    constructor (info: ImageInfo, colorImage: Raster.Rgba)
      ensures Valid() && fresh(appState) && fresh(imageState)
      ensures imageState.View() == InitialView(info, colorImage)
      ensures appState.View() ==
              AppView(Vec2(0.0, 0.0), DefaultConfig().backgroundColor, true, false, false, [],
                      Some(500))
    {
      imageState := new ImageState(info, colorImage);
      appState := new AppState(DefaultConfig());
    }

    /** `open_image`: true exactly when the dialog picked a file, whatever its load gave. */
    method OpenImage(picked: Option<Path>, env: Env) returns (gotFile: bool)
      requires Valid()
      modifies imageState
      ensures Valid() && gotFile == picked.Some?
      ensures picked.Some? ==>
                imageState.View() == LoadStep(old(imageState.View()), InfoOf(Wired, env, picked.value)).1
      ensures picked.None? ==> imageState.View() == old(imageState.View())
    {
      if picked.Some? {
        var _ := imageState.LoadNewImage(env, picked.value);
        return true;
      }
      return false;
    }

    /** `image_state.load_new_image(path)`, its outcome read through the dispatcher function. */
    method Load(ghost info: Dispatcher, env: Env, path: Path) returns (shown: Result<bool, string>)
      requires Valid() && IsGetImageInfo(info, env)
      modifies imageState
      ensures Valid()
      ensures (shown, imageState.View()) == LoadStep(old(imageState.View()), info(path))
    {
      RegistriesValid();
      shown := imageState.LoadNewImage(env, path);
    }

    /**
     * `next_image` as written.  The source's loop never gets past its first pass (see
     * `WiredLoopIsOnePass`), so the call is one load of the neighbour `step` away, and its
     * error, if any, is the result.
     */
    method NextImage(step: int, ghost info: Dispatcher, env: Env,
                     listing: Result<seq<Result<Path, string>>, string>)
      returns (r: Result<(), string>)
      requires Valid() && (step == 1 || step == -1) && IsGetImageInfo(info, env)
      requires listing.Ok? ==> imageState.info.path in Candidates(listing.value)
      modifies appState, imageState
      ensures Valid() && appState.View() == old(appState.View())
      ensures listing.Err? ==> r == Err(listing.error) && imageState.View() == old(imageState.View())
      ensures listing.Ok? ==>
                var files := Neighbours(listing.value);
                && old(imageState.info.path) in files
                && (r, imageState.View()) ==
                   Attempted(info, files, PositionOf(files, old(imageState.info.path)), step,
                             old(imageState.View()))
    {
      if listing.Err? {
        return Err(listing.error);
      }
      var files := Neighbours(listing.value);
      var cur := PositionOf(files, imageState.info.path);
      r := StepFrom(info, env, files, cur, step);
    }

    /**
     * The loop of `next_image` as written, from position cur.  Its first pass has no failed
     * index yet, so there is no "no image" notice, and the load ends it (see
     * `WiredLoopIsOnePass`).
     */
    method StepFrom(ghost info: Dispatcher, env: Env, files: seq<Path>, cur: nat, step: int)
      returns (r: Result<(), string>)
      requires Valid() && IsGetImageInfo(info, env)
      requires cur < |files| && (step == 1 || step == -1)
      modifies imageState
      ensures Valid()
      ensures (r, imageState.View()) == Attempted(info, files, cur, step, old(imageState.View()))
    {
      var index := Wrap(cur + step, |files| - 1);
      assert index == Cyc(cur, step, 1, |files|);
      var loaded := Load(info, env, files[index]);
      if loaded.Err? {
        return Err(loaded.error);
      }
      return Ok(());
    }

    /**
     * `next_image` as evidently intended: a file that does not open, whether the dispatcher
     * fails or declines, is reported and skipped, and the search gives up once it comes
     * back to a file that already failed.  The files are tried in cyclic order starting
     * `step` away from the current one; the first that opens is shown.
     */
    method NextImageSkipping(step: int, ghost info: Dispatcher, env: Env,
                             listing: Result<seq<Result<Path, string>>, string>)
      returns (r: Result<(), string>)
      requires Valid() && (step == 1 || step == -1) && IsGetImageInfo(info, env)
      requires listing.Ok? ==> imageState.info.path in Candidates(listing.value)
      modifies appState, imageState
      ensures Valid()
      ensures listing.Err? ==> r == Err(listing.error) &&
                               imageState.View() == old(imageState.View()) &&
                               appState.View() == old(appState.View())
      ensures listing.Ok? ==>
                var files := Neighbours(listing.value);
                && old(imageState.info.path) in files
                && (r, imageState.View(), appState.View()) ==
                   SkipOutcome(info, files, PositionOf(files, old(imageState.info.path)), step,
                               old(imageState.View()), old(appState.View()))
    {
      if listing.Err? {
        return Err(listing.error);
      }
      var files := Neighbours(listing.value);
      var cur := PositionOf(files, imageState.info.path);
      r := SkipFrom(info, env, files, cur, step);
    }

    /**
     * The loop of the intended `next_image` from position cur: each file that does not
     * open is reported and recorded as broken, until one opens or the next index is a
     * broken one.
     */
    method SkipFrom(ghost info: Dispatcher, env: Env, files: seq<Path>, cur: nat, step: int)
      returns (r: Result<(), string>)
      requires Valid() && IsGetImageInfo(info, env)
      requires cur < |files| && (step == 1 || step == -1)
      modifies appState, imageState
      ensures Valid()
      ensures (r, imageState.View(), appState.View()) ==
              SkipOutcome(info, files, cur, step, old(imageState.View()), old(appState.View()))
    {
      var n := |files|;
      ghost var iv0, av0 := imageState.View(), appState.View();
      var index := cur + step;
      var broken: seq<int> := [];
      while true
        invariant Valid() && Walking(files, cur, step, broken, index)
        invariant NoneOpenUpTo(info, files, cur, step, |broken|)
        invariant (imageState.View(), appState.View()) == (iv0, FailuresNotified(av0, files, cur, step, |broken|))
        decreases n - |broken|
      {
        ghost var before := index;
        index := Wrap(index, n - 1);
        if index in broken {
          WalkEnds(files, cur, step, broken, before);
          appState.Notify(NoImagesText);
          NoneOpenOutcome(info, files, cur, step, iv0, av0);
          return Err(NoImagesText);
        }
        WalkOn(files, cur, step, broken, before, index);
        var shown := TryAttempt(info, env, files, cur, step, index, |broken|, iv0, av0);
        if shown {
          return Ok(());
        }
        broken := broken + [index];
        index := index + step;
      }
    }

    /**
     * Attempt m + 1 of that loop, at index i, after m attempts that did not open: either it
     * opens and the outcome is reached, or one more failure is recorded.
     */
    method TryAttempt(ghost info: Dispatcher, env: Env, files: seq<Path>, cur: nat, step: int,
                      i: nat, ghost m: nat, ghost iv0: ImageView, ghost av0: AppView)
      returns (shown: bool)
      requires Valid() && IsGetImageInfo(info, env)
      requires cur < |files| && (step == 1 || step == -1)
      requires m < |files| && i < |files| && files[i] == Target(files, cur, step, m + 1)
      requires NoneOpenUpTo(info, files, cur, step, m)
      requires imageState.View() == iv0 && appState.View() == FailuresNotified(av0, files, cur, step, m)
      modifies appState, imageState
      ensures Valid()
      ensures shown ==> (Ok(()), imageState.View(), appState.View()) == SkipOutcome(info, files, cur, step, iv0, av0)
      ensures !shown ==> && NoneOpenUpTo(info, files, cur, step, m + 1)
                         && imageState.View() == iv0
                         && appState.View() == FailuresNotified(av0, files, cur, step, m + 1)
    {
      shown := TryFile(info, env, files[i]);
      if shown {
        FoundOutcome(info, files, cur, step, iv0, av0, m + 1);
      } else {
        FailureRecorded(info, files, cur, step, av0, m);
      }
    }

    /**
     * One attempt of that loop: the file is loaded; if it does not open, the image is kept
     * and a toast names the file.
     */
    method TryFile(ghost info: Dispatcher, env: Env, path: Path) returns (shown: bool)
      requires Valid() && IsGetImageInfo(info, env)
      modifies appState, imageState
      ensures Valid()
      ensures shown <==> Opens(info, path)
      ensures shown ==> && imageState.View() == LoadStep(old(imageState.View()), info(path)).1
                        && appState.View() == old(appState.View())
      ensures !shown ==> && imageState.View() == old(imageState.View())
                         && appState.View() == Notified(old(appState.View()), CouldNotOpen(path))
    {
      var loaded := Load(info, env, path);
      ShownIffOpens(old(imageState.View()), info, path);
      shown := loaded == Ok(true);
      if !shown {
        appState.Notify(CouldNotOpen(path));
      }
    }
  }

  /**
   * The loop's record after m failed attempts: the (unwrapped) index of attempt m + 1,
   * and the indexes of attempts 1 .. m as the broken list.
   */
  ghost predicate Walking(files: seq<Path>, cur: nat, step: int, broken: seq<int>, index: int)
    requires cur < |files| && (step == 1 || step == -1)
  {
    var n := |files|;
    && |broken| <= n && -1 <= index <= n
    && Wrap(index, n - 1) == Cyc(cur, step, |broken| + 1, n)
    && broken == Visited(cur, step, |broken|, n)
  }

  /** The index after wrapping is the next attempt's; it is a broken one only once all n failed. */
  lemma WalkEnds(files: seq<Path>, cur: nat, step: int, broken: seq<int>, index: int)
    requires cur < |files| && (step == 1 || step == -1)
    requires Walking(files, cur, step, broken, index)
    requires Wrap(index, |files| - 1) in broken
    ensures |broken| == |files|
  {
    RevisitIffFull(cur, step, |broken|, |files|);
  }

  /** A fresh index is attempt |broken| + 1; recording it as broken keeps the record. */
  lemma WalkOn(files: seq<Path>, cur: nat, step: int, broken: seq<int>, index: int, i: int)
    requires cur < |files| && (step == 1 || step == -1)
    requires Walking(files, cur, step, broken, index)
    requires i == Wrap(index, |files| - 1) && i !in broken
    ensures && |broken| < |files| && 0 <= i < |files|
            && files[i] == Target(files, cur, step, |broken| + 1)
            && Walking(files, cur, step, broken + [i], i + step)
  {
    var n := |files|;
    RevisitIffFull(cur, step, |broken|, n);
    assert Cyc(cur, step, |broken| + 2, n) == Wrap(i + step, n - 1);
    assert broken + [i] == Visited(cur, step, |broken| + 1, n);
  }

  /** A failed attempt m + 1 extends both the failures and their toasts by one. */
  lemma FailureRecorded(info: Dispatcher, files: seq<Path>, cur: nat, step: int, av: AppView, m: nat)
    requires cur < |files| && (step == 1 || step == -1)
    requires NoneOpenUpTo(info, files, cur, step, m) && !Opens(info, Target(files, cur, step, m + 1))
    ensures NoneOpenUpTo(info, files, cur, step, m + 1)
    ensures Notified(FailuresNotified(av, files, cur, step, m), CouldNotOpen(Target(files, cur, step, m + 1))) ==
            FailuresNotified(av, files, cur, step, m + 1)
  {
  }

  /**
   * The outcome the intended `next_image` promises from position cur: the first file in
   * cyclic order that opens is shown after a toast for each file before it; when none
   * does, the image is kept and a toast for each file is followed by the "no image" notice.
   */
  ghost function SkipOutcome(info: Dispatcher, files: seq<Path>, cur: nat, step: int,
                             iv: ImageView, av: AppView): (Result<(), string>, ImageView, AppView)
    requires cur < |files| && (step == 1 || step == -1)
  {
    match FirstOpen(info, files, cur, step, 1)
    case Some(m) =>
      (Ok(()), LoadStep(iv, info(Target(files, cur, step, m))).1, FailuresNotified(av, files, cur, step, m - 1))
    case None =>
      (Err(NoImagesText), iv, Notified(FailuresNotified(av, files, cur, step, |files|), NoImagesText))
  }

  /** When no attempt opens, keeping the image and adding the "no image" notice is the outcome. */
  lemma NoneOpenOutcome(info: Dispatcher, files: seq<Path>, cur: nat, step: int,
                        iv: ImageView, av: AppView)
    requires cur < |files| && (step == 1 || step == -1)
    requires NoneOpenUpTo(info, files, cur, step, |files|)
    ensures SkipOutcome(info, files, cur, step, iv, av) ==
            (Err(NoImagesText), iv, Notified(FailuresNotified(av, files, cur, step, |files|), NoImagesText))
  {
    NoneOpenUpToMeans(info, files, cur, step, |files|);
  }

  /** When attempt m is the first that opens, showing it after m - 1 toasts is the outcome. */
  lemma FoundOutcome(info: Dispatcher, files: seq<Path>, cur: nat, step: int,
                     iv: ImageView, av: AppView, m: nat)
    requires cur < |files| && (step == 1 || step == -1) && 1 <= m <= |files|
    requires NoneOpenUpTo(info, files, cur, step, m - 1)
    requires Opens(info, Target(files, cur, step, m))
    ensures SkipOutcome(info, files, cur, step, iv, av) ==
            (Ok(()), LoadStep(iv, info(Target(files, cur, step, m))).1, FailuresNotified(av, files, cur, step, m - 1))
  {
    NoneOpenUpToMeans(info, files, cur, step, m - 1);
    FirstOpenIs(info, files, cur, step, m);
  }

  // ---------------------------------------------------------------- a corrupt neighbour

  const PicA: Path := Path("/pics/a.png", 0)
  const PicB: Path := Path("/pics/b.png", 0)
  const PicC: Path := Path("/pics/c.png", 0)

  /** A one-pixel opaque black RGBA image. */
  const Pixel: Raster.Rgba := Raster.RgbaBuffer(1, 1, [0, 0, 0, 255])

  /**
   * A directory whose file b.png holds bytes no loader decodes, while a.png and c.png
   * decode to one pixel; paths are already absolute and the sniffed format is "png".
   */
  function CorruptB(): Env {
    Env(p => Ok(p), p => if p == PicB then Ok([0]) else Ok([]), p => Ok("png"), p => Ok(0),
        (tag: string, buf: seq<Numeric.u8>) => if buf == [] then Ok(Pixel) else Err("corrupt"))
  }

  /** The directory listing a.png, b.png, c.png: one step forwards from a.png is b.png, two c.png. */
  const ThreePics: seq<Path> := [PicA, PicB, PicC]

  lemma ThreePicsForwards()
    ensures Target(ThreePics, 0, 1, 1) == PicB && Target(ThreePics, 0, 1, 2) == PicC
  {
    assert Cyc(0, 1, 1, 3) == 1;
    assert Cyc(0, 1, 2, 3) == 2;
  }

  /**
   * Viewing a.png and stepping forwards, `next_image` as written returns b.png's error and
   * keeps a.png on screen: the viewer can never step past b.png.
   */
  lemma CorruptNeighbourBlocks(iv: ImageView)
    ensures Attempted(GetImageInfo(CorruptB()), ThreePics, 0, 1, iv) == (Err("No loaders available"), iv)
  {
    ThreePicsForwards();
    CorruptFileFails();
  }

  /** The intended search fails on b.png and ends on c.png, the second attempt. */
  lemma CorruptNeighbourSkipped()
    ensures FirstOpen(GetImageInfo(CorruptB()), ThreePics, 0, 1, 1) == Some(2)
  {
    var info := GetImageInfo(CorruptB());
    ThreePicsForwards();
    CorruptFileFails();
    IntactFileOpens();
    SecondAttemptOpens(info, ThreePics, 0, 1);
  }

  /** When the first attempt fails and the second opens, the search ends at the second. */
  lemma SecondAttemptOpens(info: Dispatcher, files: seq<Path>, cur: nat, step: int)
    requires cur < |files| && (step == 1 || step == -1) && |files| >= 2
    requires !Opens(info, Target(files, cur, step, 1)) && Opens(info, Target(files, cur, step, 2))
    ensures FirstOpen(info, files, cur, step, 1) == Some(2)
  {
  }

  /** So the intended `next_image` succeeds and shows c.png. */
  lemma CorruptNeighbourPassed(iv: ImageView, av: AppView)
    ensures var (r, iv1, _) := SkipOutcome(GetImageInfo(CorruptB()), ThreePics, 0, 1, iv, av);
            r == Ok(()) && iv1.info.path == PicC
  {
    CorruptNeighbourSkipped();
    ThreePicsForwards();
    IntactFileOpens();
  }

  /** b.png's bytes are refused by every loader, so the dispatcher reports it. */
  lemma CorruptFileFails()
    ensures GetImageInfo(CorruptB())(PicB) == Err("No loaders available")
  {
    RegistriesValid();
    InfoOutcome(Wired, CorruptB(), PicB);
  }

  /** c.png decodes under the first loader tried, and its label and size are available. */
  lemma IntactFileOpens()
    ensures Opens(GetImageInfo(CorruptB()), PicC)
    ensures GetImageInfo(CorruptB())(PicC).value.0.path == PicC
  {
    var env := CorruptB();
    RegistriesValid();
    assert "default" in Wired.tags;
    InfoSucceeds(Wired, env, PicC, "default");
  }

  /**
   * /pics/<c>.png whose stem character c was not UTF-8 (for a byte such as 0xff it is
   * shown as U+FFFD, at position 6).
   */
  function LossyPic(c: char): (p: Path)
    ensures |p.text| == 11 && p.lossyEnd == 7
    ensures p.text[5] == '/' && p.text[6] == c && p.text[7] == '.' && p.text[8..] == "png"
  {
    Path("/pics/" + [c] + ".png", 7)
  }

  /** Its extension is located by the '/' at 5 and the '.' at 7. */
  lemma LossyPicLocated(c: char)
    requires c != '/' && c != '.'
    ensures LowerExtension(LossyPic(c)) == Some(Lower(LossyPic(c).text[8..]))
  {
    LowerExtensionAt(LossyPic(c), 5, 7);
  }

  /** "png" is already lower-case. */
  lemma LowerPng()
    ensures Lower("png") == "png"
  {
    assert Lower("png")[0] == 'p';
  }

  /** Only the extension has to be UTF-8, and it is: "png". */
  lemma LossyPicExtension(c: char)
    requires c != '/' && c != '.'
    ensures LowerExtension(LossyPic(c)) == Some("png")
  {
    LossyPicLocated(c);
    LowerPng();
  }

  /** "png" is one of the supported extensions. */
  lemma PngSupported()
    ensures "png" in SupportedExtensions
  {
    assert SupportedExtensions[10] == "png";
  }

  /** A listing of one readable, supported file has that file as its only candidate. */
  lemma SingleCandidate(p: Path)
    requires Supported(p)
    ensures Candidates([Ok(p)]) == [p]
  {
    var entries: seq<Result<Path, string>> := [Ok(p)];
    assert entries[1..] == [];
  }

  /** A stem that is not UTF-8 does not keep the file out of navigation. */
  lemma LossyStemIsCandidate(c: char)
    requires c != '/' && c != '.'
    ensures Supported(LossyPic(c))
    ensures Candidates([Ok(LossyPic(c))]) == [LossyPic(c)]
  {
    LossyPicExtension(c);
    PngSupported();
    SingleCandidate(LossyPic(c));
  }
}
