# aqiv core in Dafny

aqiv is a small image viewer built on egui. This project models its core. That core is:

- **The format dispatcher `get_image_info`.** It resolves the path and lowercases the extension. It moves the loader registered under that extension to the front of the candidate list, reads the file, and tries the loaders in order until one decodes it. It then labels the result with a format name and a size. The older copy `get_image` has the RAW loader registered and reports the decoded byte count as the size.
- **The two loaders written in the repository:**
  - HEIF: libheif's interleaved plane is repacked row by row.
  - RAW: samples are rescaled to 8 bits by the black and white levels of their CFA colour, demosaiced, white-balanced with the embedded coefficients or a gray-world estimate, rotated by the orientation tag and widened to RGBA8.
- **The two state objects:**
  - `ImageState`: the displayed image, rotation, texture flips, zoom and pan.
  - `AppState`: flags and the toast queue.
- **The application shell:** opening a file from a dialog, and `next_image`, which steps to the neighbouring image of the current directory with wrap-around.
- **The geometry helpers:** the initial window size, the painted rectangle, and the file URI.

Layout, one module per file:

| file | module | models |
|---|---|---|
| wrappers.dfy | Wrappers | `Option`, `Result` |
| numeric.dfy | Numeric | `u8`/`u16`, an `F32` of exact reals with ±∞ and NaN, the `clamp(..) as u8` and `as u16` casts |
| raster.dfy | Raster | `RgbImage::from_raw`, `rotate90/180/270`, `to_rgba8` of the `image` crate |
| utils.dfy | Utils | lowercasing, file names and extensions, `pathbuf_as_uri`, `calculate_uv_rect`, `calculate_initial_window_size` |
| state.dfy | State | `AppConfig::default`, `AppState` and its toggles |
| heif.dfy | HeifLoader | `load_image_heif` |
| raw.dfy | RawLoader | `load_image_raw` |
| image_utils.dfy | ImageUtils | `get_image_info` / `get_image`, `ImageState` |
| app.dfy | Application | `SUPPORTED_EXTENSIONS`, `App::new`, `open_image`, `next_image` |

How the outside world is modelled:

- The file system, the decoders of foreign crates, the directory listing, the file dialog and the screen size are parameters.
  - `ImageUtils.Env` holds `absolute`, `read`, the format probe, the file length and the registered decoders.
  - `RawLoader.LoadImageRaw` takes rawloader's parser and bayer's demosaic as functions.
  - `HeifLoader.LoadImageHeif` takes libheif's decode as a function.
- The in-place operations are imperative methods proved against specification functions. This covers the white-balance pass over the RGB buffer, the loader loop and the navigation loop. The state objects are classes whose methods update their fields.

`src/app/image_loaders.rs` holds older copies of the loaders. Its `load_image_heif` and `load_image_raw` match the files under `src/app/image_utils/image_loaders/`, which are the ones cited below.

Where the code and the design disagree, the model follows the code:

- The application's registry (`get_image_info`) has no RAW loader, although the 42 supported extensions include the RAW ones. RAW files are therefore offered and navigated to, but only the "default" loader can open them. That loader is ImageMagick through magick_rust (`src/app/image_utils/image_loaders/default.rs:7-8`); the `image` crate only reads back ImageMagick's PNG output (lines 12-13).
- The RAW loader is modelled anyway, as the code defines it. Nothing in the built program calls it. The only registry that lists it is that of `get_image` (`ImageUtils.Legacy`), in `src/app/misc.rs`, and `src/app.rs:1-6` never declares that file as a module.

## Model

| member | source | states |
|---|---|---|
| Raster.FromRaw | src/app/image_utils/image_loaders/raw.rs:59-60 | the buffer is accepted exactly when it holds at least width·height·3 bytes, and the image keeps the given size |
| Raster.FromRawAt | src/app/image_utils/image_loaders/raw.rs:59-60 | pixel (x, y) is the three bytes at offset 3·(y·width + x), row-major |
| Raster.Rotate90 | src/app/image_utils/image_loaders/raw.rs:138 | a clockwise quarter turn: width and height swap, and pixel (x, y) lands at (height−1−y, x) |
| Raster.Rotate180 | src/app/image_utils/image_loaders/raw.rs:139 | the size is kept, and pixel (x, y) lands at (width−1−x, height−1−y) |
| Raster.Rotate270 | src/app/image_utils/image_loaders/raw.rs:140 | an anticlockwise quarter turn: pixel (x, y) lands at (y, width−1−x) |
| Raster.TwoQuarterTurnsAreHalfTurn | src/app/image_utils/image_loaders/raw.rs:137-142 | two quarter turns are the half turn |
| Raster.QuarterAndHalfTurn | src/app/image_utils/image_loaders/raw.rs:137-142 | a quarter turn after a half turn is the three-quarter turn |
| Raster.HalfTurnTwice | src/app/image_utils/image_loaders/raw.rs:137-142 | two half turns give back the image |
| Raster.FourQuarterTurns | src/app/image_utils/image_loaders/raw.rs:137-142 | four quarter turns give back the image |
| Raster.ToRgba8 | src/app/image_utils/image_loaders/raw.rs:144 | widening keeps the size and makes every alpha byte 255 |
| Raster.ToRgba8At | src/app/image_utils/image_loaders/raw.rs:144 | byte 4·(y·width + x) + c is channel c of pixel (x, y) for c < 3, and 255 for c = 3 |
| Utils.Lower | src/app/image_utils/mod.rs:174-177 | lowercasing keeps the length and maps each character on its own (ASCII letters only) |
| Utils.LowerIdempotent | src/app/image_utils/mod.rs:174-177 | lowercasing twice is lowercasing once, and no uppercase letter is left |
| Utils.LowerOfLowercase | src/app/image_utils/mod.rs:174-177 | text without uppercase letters is unchanged |
| Utils.Upper | src/app/image_utils/mod.rs:217 | uppercasing keeps the length and maps each character on its own (ASCII letters only); what that promises is in the next two rows |
| Utils.UpperIdempotent | src/app/image_utils/mod.rs:217 | uppercasing twice is uppercasing once, and no lower-case letter is left |
| Utils.UpperOfUppercase | src/app/image_utils/mod.rs:217 | text without lower-case letters is unchanged |
| Utils.UpperOfFormatNames | src/app/image_utils/mod.rs:217 | the `Debug` names "Png" and "Jpeg" become "PNG" and "JPEG" |
| Utils.FileName | src/app/image_utils/mod.rs:235-239 | the file name is a suffix of the path with no '/' in it |
| Utils.FileNameIsLastComponent | src/app/image_utils/mod.rs:235-239 | the file name is everything after the last '/': a suffix of the path with no '/' in it, preceded by a '/' unless it is the whole path |
| Utils.FileNameOfText | src/app/image_utils/mod.rs:235-239 | the file name depends on the path's text alone |
| Utils.Extension | src/app/image_utils/mod.rs:174-176 | the extension is the text after the last '.', with no '.' in it; there is none exactly for "..", a name without '.', or a name whose only '.' is the first character |
| Utils.LowerExtension | src/app/image_utils/mod.rs:173-177 | there is a lowercased extension exactly when the file name has an extension and the extension's own characters are UTF-8 (the rest of the path may not be), and it is that extension lowercased |
| Utils.FileNameAt | src/app/image_utils/mod.rs:235-239 | with a '/' at i and none after it, the file name is the text after i |
| Utils.ExtensionAt | src/app/image_utils/mod.rs:173-177 | a '.' past the first character with no '.' after it, and text after it, starts the extension |
| Utils.LowerExtensionAt | src/app/image_utils/mod.rs:173-177 | located by the last '/' and the last '.' after it, the lowercased extension is the text after the '.', lowercased, whatever bytes before it are not UTF-8 |
| Utils.LowerExtensionIgnoresStem | src/app/image_utils/mod.rs:173-177 | bytes that are not UTF-8 anywhere before the extension do not change the lowercased extension |
| Utils.Utf8PathExtension | src/app/image_utils/mod.rs:173-177 | a UTF-8 path has a lowercased extension exactly when its file name has an extension |
| Utils.PathAsUri | src/app/utils.rs:77-80 | the URI is "file://" followed by the path text, or just "file://" for a non-UTF-8 path |
| Utils.UriInjective | src/app/utils.rs:77-80 | two UTF-8 paths get the same URI exactly when their texts are equal |
| Utils.UvRect | src/app/utils.rs:8-25 | the rectangle is zoom times the window, centred on the window centre moved by zoom·offset |
| Utils.UvRectAtRest | src/app/utils.rs:8-25 | with zoom 1 and no offset the rectangle is the window |
| Utils.FitWidth | src/app/utils.rs:36-40 | a size no wider than the limit is unchanged |
| Utils.FitWidthScales | src/app/utils.rs:36-40 | a wider size gets the limit as width and a height shrunk in proportion, keeping the aspect ratio |
| Utils.FitHeight | src/app/utils.rs:41-45 | a size no taller than the limit is unchanged |
| Utils.FitHeightScales | src/app/utils.rs:41-45 | a taller size gets the limit as height and a width shrunk in proportion, keeping the aspect ratio |
| Utils.InitialWindowSize | src/app/utils.rs:27-51 | without a resolution the window is the screen size, or 0×0 when the screen is unknown |
| Utils.CalculateInitialWindowSize | src/app/utils.rs:27-51 | the two in-place clamps compute `InitialWindowSize` |
| Utils.FitWiderImage | src/app/utils.rs:36-45 | an image wider than the screen ends up inside the screen, with its aspect ratio and touching an edge |
| Utils.FitTallerImage | src/app/utils.rs:41-45 | an image only taller than the screen ends up inside it, with its aspect ratio and the screen's height |
| Utils.InitialWindowSizeFits | src/app/utils.rs:27-51 | for every resolution and screen, the window fits the screen and keeps the aspect ratio; it is the image size when that fits, and otherwise touches a screen edge |
| State.DefaultConfig | src/app/config.rs:13-25 | background #1B1B1B opaque, aspect ratio kept, info panel hidden, 500 ms toasts, UI scale 1.25 |
| State.ShowInfoMessageNamesValue | src/app/state.rs:23-26 | the "Show info" toast names the flag: different values give different messages |
| State.TogglesKeepTheRest | src/app/state.rs:19-26 | each toggle negates only its own flag; the info toggle appends exactly one toast carrying the new value and the configured duration |
| State.ToggleTwice | src/app/state.rs:19-26 | toggling twice restores both flags; the info toggle leaves its two toasts, in order |
| State.AppState.constructor | src/app.rs:97-109 | the initial application state: zero window size, the configuration's colour and flags, no toasts, the configured duration |
| State.AppState.ToggleMaintainAspectRatio | src/app/state.rs:19-21 | the state after the call is `AspectToggled` of the state before |
| State.AppState.ToggleShowInfo | src/app/state.rs:23-26 | the state after the call is `InfoToggled` of the state before |
| State.AppState.Notify | src/app/state.rs:28-32 | one toast with the message and the configured duration is appended |
| HeifLoader.Row | src/app/image_utils/image_loaders/heif.rs:25-27 | a row slice is width·3 bytes and always lies inside the plane |
| HeifLoader.Repack | src/app/image_utils/image_loaders/heif.rs:22-30 | n packed rows are n·width·3 bytes |
| HeifLoader.RepackAt | src/app/image_utils/image_loaders/heif.rs:22-30 | packed byte y·width·3 + k is plane byte y·stride + k: rows keep their order, and only the padding past width·3 is dropped |
| HeifLoader.RepackFillsImage | src/app/image_utils/image_loaders/heif.rs:32-33 | the packed rows always fill a width×height RGB image exactly, so `from_raw` cannot fail |
| HeifLoader.PlaneToRgba | src/app/image_utils/image_loaders/heif.rs:32-34 | the result has the plane's size and opaque alpha |
| HeifLoader.LoadImageHeif | src/app/image_utils/image_loaders/heif.rs:7-37 | the loader fails exactly when libheif fails, with its error; otherwise it returns the repacked plane |
| HeifLoader.PlaneToRgbaAt | src/app/image_utils/image_loaders/heif.rs:22-34 | RGBA byte c of pixel (x, y) is plane byte y·stride + 3x + c, and alpha is 255 |
| HeifLoader.RepackedPixel | src/app/image_utils/image_loaders/heif.rs:22-33 | channel c of pixel (x, y) of the repacked image is plane byte y·stride + 3x + c |
| RawLoader.Samples | src/app/image_utils/image_loaders/raw.rs:15-21 | integer samples are unchanged; a float sample becomes ⌊x·2^16⌋ saturated to u16, with +∞ giving 65535 and NaN or −∞ giving 0 |
| RawLoader.NormalizedSampleIsLevelScale | src/app/image_utils/image_loaders/raw.rs:32-35 | the f32 expression `((pix−bl)/(wl−bl)·255).clamp(0,255) as u8` equals the exact level rescale, including the wl = bl case (division by zero) |
| RawLoader.LevelScaleEnds | src/app/image_utils/image_loaders/raw.rs:35 | a sample at or below the black level gives 0, and one at or above the white level gives 255 |
| RawLoader.FullRangeKeepsSample | src/app/image_utils/image_loaders/raw.rs:35 | with levels 0 and 255 a sample is kept as is |
| RawLoader.Normalize | src/app/image_utils/image_loaders/raw.rs:23-37 | one byte per pixel |
| RawLoader.NormalizeIsLevelScale | src/app/image_utils/image_loaders/raw.rs:23-37 | byte i is sample i rescaled by the black and white levels of the CFA colour at (i mod width, i div width) |
| RawLoader.BayerOf | src/app/image_utils/image_loaders/raw.rs:47-53 | a pattern is found exactly for the names RGGB, GRBG, BGGR and GBRG, and it spells that name |
| RawLoader.BayerNameRoundTrip | src/app/image_utils/image_loaders/raw.rs:47-53 | each pattern's name maps back to that pattern |
| RawLoader.CombineIsMonoid | src/app/image_utils/image_loaders/raw.rs:88-115 | the reduce operator has the all-zero tuple as identity and is associative and commutative |
| RawLoader.FoldConcat | src/app/image_utils/image_loaders/raw.rs:88-115 | folding a concatenation combines the folds of the parts |
| RawLoader.AnyReductionShapeIsFold | src/app/image_utils/image_loaders/raw.rs:73-115 | however the parallel reduce splits the pixels, the result is the sequential fold |
| RawLoader.CombineContribution | src/app/image_utils/image_loaders/raw.rs:81-86 | a pixel of colour 0, 1 or 2 adds its value and one to that colour's sum and count only, and any other colour adds nothing |
| RawLoader.FoldIsPerColorSums | src/app/image_utils/image_loaders/raw.rs:73-115 | the reduction's six numbers are the per-colour sums of values and counts of pixels |
| RawLoader.FoldBounds | src/app/image_utils/image_loaders/raw.rs:73-115 | each colour's sum is at most 255 times its count |
| RawLoader.UniformFold | src/app/image_utils/image_loaders/raw.rs:73-115 | on a frame of one value v, each colour's sum is v times its count |
| RawLoader.GrayWorldGains | src/app/image_utils/image_loaders/raw.rs:117-125 | the green gain and the unused fourth gain are 1 |
| RawLoader.GrayWorldGainsCases | src/app/image_utils/image_loaders/raw.rs:117-125 | the red and blue gains are avgG/avgR and avgG/avgB when finite; they are NaN when a colour has no pixels, and +∞ or NaN when a colour's sum is zero |
| RawLoader.UniformTallyHasUnitGains | src/app/image_utils/image_loaders/raw.rs:117-125 | per-colour sums proportional to the counts give gains 1, 1, 1, 1 |
| RawLoader.WhiteBalance | src/app/image_utils/image_loaders/raw.rs:63-64 | embedded coefficients without a NaN are used as they are; otherwise the gray-world estimate is used, whose green and fourth gains are 1 |
| RawLoader.GrayFrameHasUnitGains | src/app/image_utils/image_loaders/raw.rs:62-125 | a uniformly gray frame with all three colours present gets gains 1, 1, 1, 1 |
| RawLoader.GainedValue | src/app/image_utils/image_loaders/raw.rs:130-134 | a finite non-negative gain scales, floors and clips at 255; a NaN gain gives 0; +∞ gives 255 for a nonzero value; gain 1 keeps the value |
| RawLoader.FourthGainUnused | src/app/image_utils/image_loaders/raw.rs:130-134 | the fourth coefficient has no effect |
| RawLoader.UnitGainsChangeNothing | src/app/image_utils/image_loaders/raw.rs:130-134 | unit gains leave the buffer unchanged |
| RawLoader.ApplyGainsInPlace | src/app/image_utils/image_loaders/raw.rs:129-134 | the in-place pass leaves the buffer equal to `GainsApplied` of the old buffer |
| RawLoader.Orient | src/app/image_utils/image_loaders/raw.rs:136-142 | the size follows the orientation tag, and every tag other than the three rotations leaves the image untouched |
| RawLoader.Demosaiced | src/app/image_utils/image_loaders/raw.rs:39-57 | the demosaiced raster is width·height·3 bytes |
| RawLoader.DemosaicRaster | src/app/image_utils/image_loaders/raw.rs:39-57 | a fresh RGB8 buffer holding what the demosaic wrote |
| RawLoader.RawDecode | src/app/image_utils/image_loaders/raw.rs:6-147 | fails with "Unsupported CFA" for any other pattern name, and fails exactly then or when the demosaic fails; otherwise the image has the oriented size and opaque alpha |
| RawLoader.LoadImageRaw | src/app/image_utils/image_loaders/raw.rs:6-147 | returns the parser's error, and otherwise exactly `RawDecode` of the parsed frame |
| RawLoader.DevelopInPlace | src/app/image_utils/image_loaders/raw.rs:39-146 | buffer filling, in-place gains, orientation and widening give `Develop` of the gained raster |
| RawLoader.TwoByTwoMono | src/app/image_utils/image_loaders/raw.rs:23-37 | a 2×2 RGGB frame with levels 0..255 normalises to its samples 10, 200, 200, 10 |
| RawLoader.TwoByTwoColors | src/app/image_utils/image_loaders/raw.rs:27-30 | its CFA colours are red, green, green, blue |
| RawLoader.TwoByTwoContributions | src/app/image_utils/image_loaders/raw.rs:76-87 | its four per-pixel tuples |
| RawLoader.TwoByTwoTally | src/app/image_utils/image_loaders/raw.rs:73-115 | its reduction is sums 10, 400, 10 over counts 1, 2, 1 |
| RawLoader.TallyGains | src/app/image_utils/image_loaders/raw.rs:117-125 | those sums give gains 20, 1, 20, 1 |
| RawLoader.TwoByTwoGains | src/app/image_utils/image_loaders/raw.rs:62-127 | with NaN embedded coefficients the frame gets the gray-world gains 20, 1, 20, 1 |
| RawLoader.TwoByTwoFrameDecodes | src/app/image_utils/image_loaders/raw.rs:6-147 | with a demosaic that succeeds, the frame decodes to an opaque 2×2 image |
| ImageUtils.RegistriesValid | src/app/image_utils/mod.rs:179-190 | both registries have distinct tags, each with a format label; "raw" is missing from `get_image_info`'s and present in `get_image`'s |
| ImageUtils.IndexOf | src/app/image_utils/mod.rs:194 | the position found is the first occurrence of the tag, and there is none exactly when the tag is absent |
| ImageUtils.Without | src/app/image_utils/mod.rs:195 | removing a tag leaves no occurrence of it |
| ImageUtils.WithoutMultiset | src/app/image_utils/mod.rs:195 | removing a tag drops exactly its occurrences and keeps every other tag |
| ImageUtils.RemoveAtIsWithout | src/app/image_utils/mod.rs:194-196 | with distinct tags, removing at the found position is removing that tag |
| ImageUtils.PrioritizedIsPermutation | src/app/image_utils/mod.rs:192-198 | the reordering is a permutation that puts the matching loader first and keeps the others in order; without a match it changes nothing |
| ImageUtils.Prioritize | src/app/image_utils/mod.rs:192-198 | the remove-and-insert computes `Prioritized` |
| ImageUtils.FirstLoaded | src/app/image_utils/mod.rs:205-223 | the loader chosen is the first that decodes, all before it fail, and there is none exactly when every loader fails |
| ImageUtils.AttemptOutcome | src/app/image_utils/mod.rs:202-223 | nothing loads exactly when every registered loader fails; otherwise the result is a registered loader's decode |
| ImageUtils.PreferredLoaderWins | src/app/image_utils/mod.rs:192-223 | the loader named by the extension wins whenever it decodes the file |
| ImageUtils.RegistryOrderWithoutMatch | src/app/image_utils/mod.rs:192-223 | without a matching extension the first registered loader that decodes wins, in registry order |
| ImageUtils.InfoOutcome | src/app/image_utils/mod.rs:172-251 | the errors of `absolute` and `read` pass through, and "No loaders available" comes when every loader fails; a success carries the absolute path, its file name, the decoded size as resolution, and the decoded image |
| ImageUtils.InfoSucceeds | src/app/image_utils/mod.rs:172-251 | a readable file that some loader decodes, with working format probe and metadata, yields info with a resolution |
| ImageUtils.InfoFormat | src/app/image_utils/mod.rs:213-220 | the default loader labels with the probed format uppercased, and any other loader with its registered label |
| ImageUtils.InfoSize | src/app/image_utils/mod.rs:243 | the size is the file length under `get_image_info`'s rule, and the decoded byte count under `get_image`'s |
| ImageUtils.WiredAndLegacySizes | src/app/misc.rs:122 | `get_image_info` sizes by metadata and `get_image` by decoded bytes |
| ImageUtils.InfoOfSuccess | src/app/image_utils/mod.rs:225-247 | the info built from a successful load, field by field |
| ImageUtils.InfoOfSizeError | src/app/image_utils/mod.rs:243 | a failing metadata call fails the whole call, even though the image decoded |
| ImageUtils.TryLoaders | src/app/image_utils/mod.rs:202-223 | the loader loop returns the first success with its label, or a probe error, as `TryOutcome` |
| ImageUtils.LoadImageInfo | src/app/image_utils/mod.rs:172-251 | the imperative `get_image_info` computes `InfoOf` |
| ImageUtils.InitialView | src/app.rs:80-95 | initial image state: rotation 0, zoom 1, no offset, the unit texture rectangle, the file's URI |
| ImageUtils.LoadStepEffect | src/app/image_utils/mod.rs:84-100 | a load keeps offset and flips; a success installs the image and URI and resets zoom and rotation, forgetting the old URI; anything else changes nothing, and errors pass through |
| ImageUtils.LoadNeverDeclines | src/app/image_utils/mod.rs:84-89 | loading through `get_image_info` never returns Ok(false) |
| ImageUtils.FlipsAreInvolutions | src/app/image_utils/mod.rs:102-119 | each flip swaps its axis between its two orientations, keeps the other axis, is its own inverse, and the two flips commute |
| ImageUtils.RotationCycles | src/app/image_utils/mod.rs:121-126 | the rotation counter stays in 0..3, always moves, and returns after four steps |
| ImageUtils.ImageState.constructor | src/app.rs:80-95 | the image state `App::new` builds |
| ImageUtils.ImageState.LoadNewImage | src/app/image_utils/mod.rs:84-100 | the result and new state are `LoadStep` of the old state and `get_image_info` |
| ImageUtils.ImageState.Install | src/app/image_utils/mod.rs:89-100 | the result and new state are `LoadStep` of the old state and the loaded info |
| ImageUtils.ImageState.FlipHorizontal | src/app/image_utils/mod.rs:102-110 | only the texture rectangle changes, to `FlippedX` |
| ImageUtils.ImageState.FlipVertical | src/app/image_utils/mod.rs:111-119 | only the texture rectangle changes, to `FlippedY` |
| ImageUtils.ImageState.RotateImage | src/app/image_utils/mod.rs:121-126 | only the rotation changes, to the next in 0..3 |
| ImageUtils.ImageState.ResetOffset | src/app/image_utils/mod.rs:128-130 | only the offset changes, to zero |
| ImageUtils.ImageState.ResetZoom | src/app/image_utils/mod.rs:132-134 | only the zoom changes, to 1 |
| Application.LossyPicExtension | src/app/image_utils/mod.rs:173-177 | /pics/c.png, whose stem character was not UTF-8, has the lowercased extension "png" |
| Application.SingleCandidate | src/app.rs:137-147 | a listing of one readable file with a supported extension has that file as its only candidate |
| Application.LossyStemIsCandidate | src/app.rs:137-147 | /pics/c.png, whose stem character was not UTF-8, is supported and is a navigation candidate |
| Application.NoExtensionUnsupported | src/app.rs:137-147 | a file without an extension is never a candidate |
| Application.Candidates | src/app.rs:133-150 | a path is a candidate exactly when it is a readable entry with a supported lowercased extension |
| Application.NameLeTotal | src/app.rs:152-160 | the file-name order is total |
| Application.NameLeTransitive | src/app.rs:152-160 | the file-name order is transitive |
| Application.SortedPairwise | src/app.rs:152-160 | in a sorted list each name is at most every later name |
| Application.Insert | src/app.rs:152-160 | inserting into a sorted list keeps it sorted and adds exactly one file |
| Application.SortByName | src/app.rs:152-160 | the sorted list is ordered by name and is a permutation of the input |
| Application.SortedKeepsFiles | src/app.rs:152-160 | sorting keeps the same files and the same count |
| Application.Neighbours | src/app.rs:133-160 | the sorted candidate list contains exactly the supported readable entries |
| Application.PositionOf | src/app.rs:162-165 | the current file's index, at its first occurrence |
| Application.WrapIsModulo | src/app.rs:176-184 | stepping one past either end wraps, which is remainder by the file count |
| Application.CycIsModulo | src/app.rs:168-197 | attempt k is file (cur + step·k) mod n |
| Application.CycPeriodic | src/app.rs:168-197 | attempts k and k + n hit the same file |
| Application.CycDistinct | src/app.rs:168-197 | fewer than n steps apart, attempts hit different files |
| Application.DecliningLoaderNeverReturns | src/app.rs:168-198 | if every load declined, the loop would never return and would add at least a toast per pass |
| Application.WiredLoopIsOnePass | src/app.rs:168-198 | through `get_image_info` each pass returns: the load's error, or success |
| Application.FirstPassDecides | src/app.rs:166-198 | the loop, started as the source starts it, is one load of the neighbour and adds no toast |
| Application.ShownIffOpens | src/app/image_utils/mod.rs:84-100 | a load shows its file exactly when the dispatcher succeeds with a resolution |
| Application.OpensIffInfoSucceeds | src/app/image_utils/mod.rs:225-250 | through `get_image_info`, a file opens exactly when the call succeeds |
| Application.FirstOpen | src/app.rs:168-198 | the first attempt among k..n whose file opens, every earlier one failing; there is none exactly when none opens |
| Application.FirstOpenIs | src/app.rs:168-198 | if attempt m opens and all before it fail, the search stops at m |
| Application.SecondAttemptOpens | src/app.rs:168-198 | a failing first neighbour and an opening second one make the search stop at the second |
| Application.CurrentIsLastResort | src/app.rs:168-198 | if the current file opens, the search always finds a file, since attempt n is the current file |
| Application.Visited | src/app.rs:169-196 | the broken list after m failures holds the m attempted indexes in order |
| Application.NoneOpenUpToMeans | src/app.rs:168-198 | "none of the first m attempts opens" means that for each of them |
| Application.RevisitIffFull | src/app.rs:170-174 | the next index was already marked broken exactly when all n files have failed |
| Application.WalkEnds | src/app.rs:170-174 | reaching a broken index means every file was tried |
| Application.WalkOn | src/app.rs:176-197 | an index not yet broken is the next attempt, in range, and the walk goes on |
| Application.FailureRecorded | src/app.rs:191-196 | one more failure adds its "Couldn't open" toast after the earlier ones |
| Application.NoneOpenOutcome | src/app.rs:170-174 | when nothing opens, the image is kept and the "no image" notice follows a toast per file |
| Application.FoundOutcome | src/app.rs:186-189 | the first opening attempt is shown after a toast for each failure before it |
| Application.App.constructor | src/app.rs:77-115 | `App::new`: the initial image state and the default application state |
| Application.App.OpenImage | src/app.rs:117-129 | the result is whether a file was picked; a picked file is loaded with errors ignored, and otherwise nothing changes |
| Application.App.Load | src/app.rs:187 | the load `next_image` does, as `LoadStep` over the dispatcher |
| Application.App.NextImage | src/app.rs:131-199 | as written: a listing error passes through; the move is one load of the neighbour `step` away, and no toast is added |
| Application.App.StepFrom | src/app.rs:166-198 | as written, from index cur: `Attempted` |
| Application.App.NextImageSkipping | src/app.rs:131-199 | as intended: a listing error passes through; otherwise `SkipOutcome` of the sorted candidates |
| Application.App.SkipFrom | src/app.rs:168-198 | the skipping loop computes `SkipOutcome` |
| Application.App.TryAttempt | src/app.rs:186-197 | one pass of the skipping loop: it shows the file and ends, or records a failure |
| Application.App.TryFile | src/app.rs:186-194 | a file is shown exactly when it opens; otherwise the image is kept and one "Couldn't open" toast is added |
| Application.ThreePicsForwards | src/app.rs:168-184 | in a.png, b.png, c.png, one step forwards from a.png is b.png, and two is c.png |
| Application.CorruptFileFails | src/app/image_utils/mod.rs:248-250 | the undecodable b.png gets "No loaders available" |
| Application.IntactFileOpens | src/app/image_utils/mod.rs:225-247 | the intact c.png opens at its own path |
| Application.CorruptNeighbourBlocks | src/app.rs:186-188 | as written, stepping from a.png fails with "No loaders available" and stays on a.png |
| Application.CorruptNeighbourSkipped | src/app.rs:168-198 | as intended, the search from a.png stops at the second attempt |
| Application.CorruptNeighbourPassed | src/app.rs:168-198 | as intended, stepping from a.png shows c.png |

## Left out

- I/O is not modelled; the model receives its results as parameters. This covers file reads, `absolute`, metadata, the directory listing, the file dialog (with the home directory it opens in), the screen size and the clipboard.
- RawLoader.Frame: two guarantees of rawloader are taken as given. The frame holds at least width·height samples, and every colour the filter array reports is below 4. The source would panic otherwise, at `raw_data[i]` (`src/app/image_utils/image_loaders/raw.rs:26`) or at `blacklevels[c]`/`whitelevels[c]` (lines 32-33). The `Frame` subset type and `Color` encode these guarantees.
- HeifLoader.Plane: the plane libheif hands back is taken to hold every row slice. The source would panic at `src/app/image_utils/image_loaders/heif.rs:27` otherwise. `interleaved.unwrap()` (line 17) is absorbed into `HeifLoader.HeifDecoder`, which returns a plane or an error.
- Foreign crates are parameters. These are rawloader's parser, bayer's demosaic, libheif, and the default, SVG and JPEG XL decoders, which are only registered tags. The rotations and `to_rgba8` of the `image` crate are defined here.
- Floating point: `F32` is exact real arithmetic with ±∞ and NaN. It has no rounding and no signed zero. Results are therefore exact where f32 would round, for example the level rescale near a byte boundary and the window-size fits.
- Concurrency: rayon's parallel iterators are modelled as their sequential meaning. For the reduction, the order-independence is proved instead (`AnyReductionShapeIsFold`).
- Case mapping is ASCII only; Unicode `to_lowercase`/`to_uppercase` is not modelled.
- Utils.Path: a path that is not UTF-8 is its lossy text plus the end of the shortest prefix that holds every byte which is not UTF-8. That bound decides `to_str` of the whole path and of any suffix, such as the extension. The bytes themselves are not modelled, and neither is the OsStr order the sort falls back to. A path that is UTF-8 in its extension is still a navigation candidate (`Application.LossyStemIsCandidate`).
- The GUI is outside the core: `update`, `render_img`, `render_info`, the input handling of gui.rs and input.rs, `main`, `run` and the window options.
- Textures are not modelled: `ColorImage`, the texture handle and `forget_image`. The view holds the decoded RGBA image instead.
- Clipboard: `copy_path_to_clipboard` and `copy_uri_to_clipboard` are I/O on the system clipboard.
- `convert_size` formats floating point text with logarithms; it is used only by the info panel.
- Panics are modelled as preconditions or leave the model:
  - RawLoader.ApplyGainsInPlace: `par_chunks_mut(3)` indexing a short last chunk would panic. The buffer length is a multiple of 3 in every call, and the method requires it.
  - `reader.format().unwrap()` after a successful decode is modelled as a probe that may fail with an error, not as a panic.
  - `parent().unwrap()` and `position_any(..).unwrap()` in `next_image` become the precondition that the current file is among the candidates.
  - Application.CouldNotOpen: `to_str().unwrap()` at `src/app.rs:193` would panic on a neighbour whose path is not UTF-8. The model toasts the path's lossy text instead. Under the wired dispatcher that line is never reached, because the `?` at line 187 returns first.
- Application.App.NextImage, Application.App.NextImageSkipping: the directory listing is taken as given at the moment of the call. The file system does not change while the loop runs.
- Application.NavLoop: the unbounded loop of `next_image` is a function with a pass count (fuel). The as-written loop is proved to end after one pass (`WiredLoopIsOnePass`), and the declining-loader case is proved never to return within any number of passes.
- Application.App.NextImage: the dispatcher is a ghost parameter, required to be `get_image_info` over the environment.
- ImageUtils.InfoOutcome: for the `get_image` registry, the decoded byte count is that of the RGBA8 image the decoders return. The `image` crate's native layout of other decoders is not modelled.
- RawLoader.WhiteBalance: its contract states the NaN choice. The gray-world branch's values are stated by `GrayWorldGainsCases`, the worked example and the uniform-frame lemma.
- RawLoader.GrayWorldGains: averaging relies on the sums being exact naturals; the f32 rounding of large sums is not modelled.
- `ImageState.Valid` keeps the rotation below 4, so the `u8` counter never wraps.

## Findings

| source | as written | input that shows it | evidently intended | confidence | as-written member | corrected member |
|---|---|---|---|---|---|---|
| src/app.rs:186-197 | `load_new_image(..)?` returns the dispatcher's error from `next_image`, and `get_image_info` never returns info without a resolution. So the load never declines, the "Couldn't open" / broken-index path is dead, and an undecodable neighbour stops navigation on the current file. If a loader ever did decline for every file, the loop would never return | a directory of a.png, b.png, c.png with b.png undecodable: stepping forwards from a.png returns "No loaders available" and stays on a.png | skip files that do not open (with a toast each), show the first neighbour in cyclic order that opens, and give up with the "no image" notice once every file has failed | not executed | Application.CorruptNeighbourBlocks | Application.CorruptNeighbourPassed |
