# Flipbook, modelled in Dafny

Flipbook is a browser app. It loads a folder of pictures, plays them back as a flip book and exports them as an animated GIF. This project models the logic around the browser and encoder calls, and proves properties of that model:

- **The GIF export loop** (`buildGif`, and the second copy inside the `App` component). Each picture is drawn into a contain-fit rectangle on a square canvas filled with the background colour. The canvas is then appended to the encoder as one frame, and the loaded picture is released.
- **The import-time downscale** (`loadDrawable`, `getSourceSize`, `downscaleIfNeeded`). It returns the original file, or re-encodes it with its larger side reduced to `maxEdge`. On each path it releases what it loaded or says what stays open.
- **The playback tick** (`usePlayback`, and the `App` component's own loop). An accumulator of elapsed time is drained in steps of `frameMs`, and each step moves to the next picture cyclically.
- **The small pure helpers:**
  - `limitNum` and the two select mappings of the control panel;
  - the progress percentage;
  - the icon script's argument folder, `clamp`, `parseColor` and `toHex`.

The browser is a `Platform.Browser` object holding a log of resource events and a counter that names each resource. The events are a bitmap created or closed, an object URL created or revoked, and a canvas encoding being requested. The canvas is a `Platform.Canvas` holding the sequence of paint calls made on it. The encoder is a `Platform.Gif` holding the sequence of frames added to it.

JavaScript numbers are modelled by `JsNumber.Num`: a finite real, plus both infinities and NaN. Arithmetic is exact, and `Math.round(x)` is `floor(x + 0.5)`. `parseFloat` and `parseInt(_, 16)` read the longest valid prefix of a decimal or hexadecimal literal, following the ECMAScript grammar. `Number` reads the whole trimmed string instead. It is 0 for a blank string, and NaN unless that string is exactly one literal: a decimal number or `Infinity`, either optionally signed, or an unsigned `0x`, `0o` or `0b` integer. JavaScript's `%` truncates toward zero and is modelled as `JsNumber.JsRem`.

Modules follow the source files:
- `ExportGif` for `src/features/exportGif.ts`;
- `ImageUtil` for `src/utils/image.ts`;
- `Playback` for `src/hooks/usePlayback.ts`;
- `FlipbookApp` for `src/App.tsx`;
- `ControlPanel`, `ProgressBar` and `GenerateIcons` for the files of the same names.

`JsNumber`, `JsString`, `Platform` and `Wrappers` hold the language and browser semantics the modules share.

## Model

| member | source | states |
|---|---|---|
| ExportGif.ContainFit | src/features/exportGif.ts:32-36 | the draw rectangle of a source on the square: scale `min(side/srcW, side/srcH)` in JavaScript arithmetic, sides rounded, margins floored; what it guarantees is stated by the rows below |
| ExportGif.ContainScale | src/features/exportGif.ts:32 | for positive sides, `min(side/srcW, side/srcH)` is `side / max(srcW, srcH)` |
| ExportGif.FitBounds | src/features/exportGif.ts:32-34 | both rounded sides lie in `[0, side]`; the larger source side becomes exactly `side` |
| ExportGif.Centred | src/features/exportGif.ts:35-36 | the margin `floor((side - d) / 2)` is an integer ≥ 0, the drawing ends inside the square, and the two margins differ by at most one pixel |
| ExportGif.ContainFitInside | src/features/exportGif.ts:32-36 | for positive sides the rectangle is integer-valued and lies inside the square, centred to the pixel. The larger-ratio axis has exactly `side`, and both sides are within half a pixel of the exact scaled size |
| ExportGif.ContainFitZeroWidth | src/features/exportGif.ts:32-36 | a source 0 wide is drawn 0 wide and full height, at the horizontal middle |
| ExportGif.ContainFitNoSize | src/features/exportGif.ts:32-36 | a source with no size gives NaN for every coordinate of the draw call |
| ExportGif.BuildGif | src/features/exportGif.ts:7-43 | no 2D context: fails before any encoder exists and touches nothing. Otherwise the encoder is configured with `side × side`, `repeat 0`, the given quality and background, and holds exactly one frame per image, in order. The browser log is each image's load followed by its release. An image no decoder accepts makes it fail there, after releasing every earlier image |
| ExportGif.AddImages | src/features/exportGif.ts:25-43 | the loop adds frames for the longest loadable prefix; frames, paint history and event log equal the specification functions of that prefix |
| ExportGif.ExportStep | src/features/exportGif.ts:25-43 | one loop turn takes the state after `k` items to the state after `k + 1`, or reports that item `k` cannot be loaded |
| ExportGif.AddImage | src/features/exportGif.ts:26-42 | fills the whole square with `bgColor`, loads, draws in the contain-fit rectangle, and adds the canvas as a frame with the given options. Then it releases the drawable; a failed load logs only the URL it left open |
| ExportGif.AddedStep | src/features/exportGif.ts:25-43 | the state after `k` items, plus one turn, is the state after `k + 1` items |
| ExportGif.LogStep | src/features/exportGif.ts:29-42 | the log after one more item is the log of `k + 1` items |
| ExportGif.PaintsStep | src/features/exportGif.ts:26-38 | the paint history after one more item is the history of `k + 1` sources |
| ExportGif.FramesStep | src/features/exportGif.ts:39 | the frames after one more `addFrame` are the frames of `k + 1` sources |
| ExportGif.History | src/features/exportGif.ts:26-38 | two paint calls per image |
| ExportGif.Frames | src/features/exportGif.ts:39 | one frame per image |
| ExportGif.LoadedSources | src/features/exportGif.ts:29-30 | one source per loaded image |
| ExportGif.FirstUndecodable | src/features/exportGif.ts:29 | the first image no decoder accepts, every earlier one being loadable |
| ExportGif.FirstUndecodableAt | src/features/exportGif.ts:29 | an undecodable image after a loadable prefix is the first undecodable one |
| ExportGif.FrameShowsItem | src/features/exportGif.ts:25-39 | frame `i` has the options of every frame and holds `2(i+1)` paint calls. It ends with the full-square fill and then picture `i`, drawn in its contain-fit rectangle |
| ExportGif.FramesAt | src/features/exportGif.ts:39 | frame `i` is the canvas history after `i + 1` images |
| ExportGif.HistoryAt | src/features/exportGif.ts:26-38 | paint call `2i` is the full-square fill and `2i+1` draws source `i` |
| ExportGif.LoadedSourcesAt | src/features/exportGif.ts:29-30 | source `i` is image `i` loaded with handle `h0 + i` |
| ExportGif.ExportEventsPaired | src/features/exportGif.ts:29-42 | the log holds two events per image: its resource is created, then released the same way (a bitmap closed, a URL revoked), before the next image is loaded |
| ExportGif.ItemEventsShape | src/utils/image.ts:13-21 | a load and release is a bitmap created and closed, or a URL created and revoked |
| ExportGif.HistorySnoc | src/features/exportGif.ts:26-38 | one more source appends its fill and draw |
| ExportGif.FramesSnoc | src/features/exportGif.ts:39 | one more source appends one frame |
| ImageUtil.GetSourceSize | src/utils/image.ts:30-35 | natural size of an image element, size of a canvas, numeric `width`/`height` of another source, else `(0, 0)` |
| ImageUtil.LoadDrawable | src/utils/image.ts:10-23 | creates one resource: a bitmap when `createImageBitmap` accepts the data, else an object URL. Succeeds exactly when either decoder accepts. The bitmap path has `close` and no `revoke`, the element path `revoke` and no `close`. Its release is exactly one event for that resource, and a failed decode releases nothing |
| ImageUtil.LoadThenRelease | src/utils/image.ts:12-22 | loading then releasing creates one resource and releases that same one, in the matching way |
| Platform.ReleaseEvents | src/utils/image.ts:49 | `close?.(); revoke?.()` logs a bitmap closed when only `close` is present, a URL revoked when only `revoke` is, nothing when neither is, and never more than two events |
| ImageUtil.DownscaleTarget | src/utils/image.ts:53-55 | `max(w, h) == maxEdge`, `w ≤ srcW`, `h ≤ srcH`, each side within half a pixel of the scaled size |
| ImageUtil.LargerSideScaled | src/utils/image.ts:53-55 | the larger side, scaled, rounds to exactly `maxEdge` |
| ImageUtil.ScaledFits | src/utils/image.ts:53-55 | a scaled side rounds into `[0, min(n, maxEdge)]` |
| ImageUtil.DownscaleIfNeeded | src/utils/image.ts:38-73 | undecodable: throws with its URL open. A zero side, a source that fits, or no 2D context: returns the original file after releasing the drawable. Otherwise it asks for `w × h` in the requested format (JPEG at 0.85 by default). It returns the new blob and releases the drawable, or, when `toBlob` gives nothing, throws with the drawable open |
| ImageUtil.ThinSourceTargetEmpty | src/utils/image.ts:53-55 | a 3000 × 1 source reduced to 1024 gets height 0 |
| ImageUtil.ThinSourceImportFails | src/utils/image.ts:53-69 | so its import throws whatever the encoder supports |
| ImageUtil.DownscaleTargetNonEmpty | src/utils/image.ts:53-55 | the corrected target has sides of at least one pixel, still within the source, with the larger side `maxEdge`; it agrees with the as-written target wherever that is non-zero |
| ImageUtil.DownscaleIfNeededCorrected | src/utils/image.ts:38-73 | the import with the corrected target: an undecodable file still throws with its URL open; a decodable one with a context and an encoder always gives a picture, the reduced copy at the corrected size when it is too large; wherever the import as written gives a picture, this gives the same result and events |
| ImageUtil.ThinSourceImportCorrected | src/utils/image.ts:53-69 | the 3000 × 1 picture is then reduced to 1024 × 1 |
| Playback.NextIndex | src/hooks/usePlayback.ts:23 | with no pictures the index becomes 0; otherwise `(i + 1) mod total`, in `[0, total)` |
| Playback.Advance | src/hooks/usePlayback.ts:21-24 | the index after `n` turns of the drain loop from `i`, each one `NextIndex`; AdvanceCyclic, AdvanceInRange and AdvanceEmpty below state where it lands |
| Playback.AdvanceCyclic | src/hooks/usePlayback.ts:21-24 | `n` steps from an index in range reach `(i + n) mod total` |
| Playback.AdvanceInRange | src/hooks/usePlayback.ts:23 | the index stays in `[0, total)` |
| Playback.AdvanceEmpty | src/hooks/usePlayback.ts:23 | with no pictures any step reaches 0 |
| Playback.Steps | src/hooks/usePlayback.ts:21-24 | the number of drain steps is `floor(acc / frameMs)` for a non-negative accumulator and 0 below `frameMs`; what remains is in `[0, frameMs)` |
| Playback.Drain | src/hooks/usePlayback.ts:21-24 | the while loop takes `Steps(acc, frameMs)` steps and advances the index that many times |
| Playback.StepTaken | src/hooks/usePlayback.ts:21 | while the remainder reaches `frameMs`, fewer than `Steps` steps were taken |
| Playback.Drained | src/hooks/usePlayback.ts:21 | once it is below, exactly `Steps` were taken |
| Playback.Player.constructor | src/hooks/usePlayback.ts:4-8 | index 0, stopped, nothing accumulated, no previous timestamp |
| Playback.Player.Tick | src/hooks/usePlayback.ts:10-27 | stopped: nothing changes. First callback: only records `t`. Otherwise it adds `t - last` and advances by `floor(acc / frameMs)` steps modulo `total`. With time not going backwards, the accumulator stays in `[0, frameMs)` and the index in range |
| Playback.Player.Start | src/hooks/usePlayback.ts:32 | plays only when `total > 0` |
| Playback.Player.Stop | src/hooks/usePlayback.ts:11-16 | stops and forgets the previous timestamp |
| Playback.Player.Reset | src/hooks/usePlayback.ts:34 | stopped, index 0, accumulator 0, no timestamp |
| Playback.Player.SetIndex | src/hooks/usePlayback.ts:36 | sets the index only |
| FlipbookApp.FilterImages | src/App.tsx:80 | keeps exactly the files whose type starts with `image/`, each as often as it occurs |
| FlipbookApp.FilterConcat | src/App.tsx:80 | the filter keeps the order of the list: the pictures of `a + b` are those of `a`, then those of `b` |
| FlipbookApp.FilterSnoc | src/App.tsx:80 | one more file is appended to the pictures exactly when it is one |
| FlipbookApp.FilterOne | src/App.tsx:80 | a single file is kept exactly when its type starts with `image/` |
| FlipbookApp.SortByKey | src/App.tsx:81 | the result is sorted by the collation key and is a permutation of its input |
| FlipbookApp.SortStable | src/App.tsx:81 | files with equal keys keep their relative order |
| FlipbookApp.InsertByKey | src/App.tsx:81 | one insertion step of the stable sort: the file goes after the longest suffix of files with greater keys; the rows below state what it keeps |
| FlipbookApp.InsertSorted | src/App.tsx:81 | inserting into a sorted list keeps it sorted |
| FlipbookApp.InsertPermutes | src/App.tsx:81 | inserting adds exactly the one file |
| FlipbookApp.InsertKeepsOrder | src/App.tsx:81 | inserting puts the file after those with its key |
| FlipbookApp.CreateItems | src/App.tsx:82-86 | one item per file, with the file's name, the file and a fresh URL, in order |
| FlipbookApp.RevokeAll | src/App.tsx:89-92 | revokes every item's URL, in order |
| FlipbookApp.Revocations | src/App.tsx:89-92 | one revocation per item |
| FlipbookApp.UrlsCreated | src/App.tsx:84 | one fresh URL per file |
| FlipbookApp.App.constructor | src/App.tsx:15-21 | no items, index 0, stopped, nothing accumulated |
| FlipbookApp.App.PickFolder | src/App.tsx:76-98 | the new items are the picture files sorted by name, each with its name and a fresh URL; they replace the previous list. The old URLs are revoked by the update and again by the effect cleanup; index, accumulator and timestamp are reset and `playing` is kept |
| FlipbookApp.App.Tick | src/App.tsx:52-64 | as `Player.Tick` with `FRAME_MS = 500` and `images.length` pictures; items and `playing` unchanged |
| FlipbookApp.App.Start | src/App.tsx:31-34 | does nothing without pictures |
| FlipbookApp.App.Stop | src/App.tsx:27-49 | stops and clears the timestamp |
| FlipbookApp.App.ResetPlayback | src/App.tsx:36-41 | stopped, index 0, accumulator 0, no timestamp |
| FlipbookApp.ExportSide | src/App.tsx:104 | `side = max(2, clientWidth)`: the stage width when it is at least 2, and 2 otherwise |
| FlipbookApp.App.ExportGif | src/App.tsx:101-143 | a no-op without pictures, stage or context. Otherwise the encoder is `side × side` with quality 10 and repeat 0, and holds one frame per picture, in order, on black, with delay 500, dispose 2, copy. Every bitmap is closed; a bitmap `createImageBitmap` rejects makes it throw there |
| FlipbookApp.AddBitmaps | src/App.tsx:123-143 | the loop adds frames for the longest prefix of bitmaps; frames and log equal the specification functions |
| FlipbookApp.AddBitmapStep | src/App.tsx:123-143 | one loop turn takes the state after `k` pictures to `k + 1`, or reports the failure of picture `k` |
| FlipbookApp.AddBitmap | src/App.tsx:125-142 | fill black, create the bitmap, draw, close it, add the frame; a rejected bitmap adds nothing |
| FlipbookApp.CreateBitmap | src/App.tsx:128 | succeeds exactly when the data decodes as a bitmap, creating one bitmap |
| FlipbookApp.FirstWithoutBitmap | src/App.tsx:128 | the first picture that is no bitmap, after a prefix that are |
| FlipbookApp.FirstWithoutBitmapAt | src/App.tsx:128 | a failing picture after a bitmap prefix is the first failing one |
| FlipbookApp.App.Unmount | src/App.tsx:160-164 | revokes every item's URL |
| ControlPanel.ClampFinite | src/components/ControlPanel.tsx:98 | the result is in `[min, max]`, is `x` when `x` is in range, and otherwise the nearer bound |
| ControlPanel.ClampIdempotent | src/components/ControlPanel.tsx:98 | clamping twice is clamping once |
| ControlPanel.LimitNum | src/components/ControlPanel.tsx:96-100 | finite input: the result is in `[min, max]`, and is the input when that lies in range. Non-finite input: `fallback` |
| ControlPanel.LimitNumBlank | src/components/ControlPanel.tsx:97-98 | an empty or blank field reads as 0 and gives `min`, not `fallback` |
| ControlPanel.LimitNumNumeral | src/components/ControlPanel.tsx:97-98 | a decimal numeral in range gives its value |
| ControlPanel.FrameMsInput | src/components/ControlPanel.tsx:20 | in `[50, 5000]`, 500 when unreadable |
| ControlPanel.CustomSizeInput | src/components/ControlPanel.tsx:42 | in `[64, 2048]`, 640 when unreadable |
| ControlPanel.QualityInput | src/components/ControlPanel.tsx:54 | in `[1, 30]`, 10 when unreadable |
| ControlPanel.SizePresetOf | src/components/ControlPanel.tsx:28-31 | `"stage"` exactly for `"stage"`, otherwise `Number(v)` |
| ControlPanel.SizePresetRoundTrip | src/components/ControlPanel.tsx:27-37 | the handler undoes `String` for `"stage"` and every whole-number side written as its decimal numeral (the offered sides are all below 10^21), so each option sets the preset it shows |
| ControlPanel.MaxEdgeOf | src/components/ControlPanel.tsx:62-65 | `"off"` exactly for `"off"`, otherwise `Number(v)` |
| ControlPanel.MaxEdgeRoundTrip | src/components/ControlPanel.tsx:61-71 | the handler undoes `String` for `"off"` and every whole number of pixels written as its decimal numeral (the offered edges are all below 10^21) |
| ProgressBar.Pct | src/components/ProgressBar.tsx:2 | NaN exactly for NaN progress; otherwise a whole number in `[0, 100]` |
| ProgressBar.PctOfFraction | src/components/ProgressBar.tsx:2 | progress in `[0, 1]` shows `round(progress * 100)` |
| ProgressBar.PctSaturates | src/components/ProgressBar.tsx:2 | `progress ≤ 0` shows 0, `progress ≥ 1` shows 100 |
| ProgressBar.PctInfinite | src/components/ProgressBar.tsx:2 | the infinities show 100 and 0 |
| ProgressBar.PctMonotone | src/components/ProgressBar.tsx:2 | more progress never shows a shorter bar |
| ProgressBar.PctHeld | src/components/ProgressBar.tsx:2 | the percentage is the rounded value held to `[0, 100]` |
| GenerateIcons.Entries | scripts/generate-icons.mjs:13-16 | the entries the `reduce` has pushed after the first `n` words, one per option word, in order; their content is stated by EntriesIndexed |
| GenerateIcons.FromEntries | scripts/generate-icons.mjs:12-17 | `Object.fromEntries`: each entry in order overwrites the key it names, so LastOptionWins and ArgsKeys hold |
| GenerateIcons.ArgsOf | scripts/generate-icons.mjs:12-17 | the `args` object after the first `n` words: `Object.fromEntries` of their entries |
| GenerateIcons.CollectEntries | scripts/generate-icons.mjs:13-16 | the `reduce` loop collects the `--key` entries of the words, in order |
| GenerateIcons.EntriesIndexed | scripts/generate-icons.mjs:14 | the entry of option word `i` is its key and the value after it |
| GenerateIcons.ArgsKeys | scripts/generate-icons.mjs:12-17 | a key is present exactly when some option word names it |
| GenerateIcons.LastOptionWins | scripts/generate-icons.mjs:12-17 | for a repeated key `Object.fromEntries` keeps the last occurrence |
| GenerateIcons.OptionValue | scripts/generate-icons.mjs:14 | an option followed by an option is `true`, followed by a word is that word, and last is `undefined` |
| GenerateIcons.Get | scripts/generate-icons.mjs:19-21 | `??` gives the default for a missing or `undefined` key, else the value |
| GenerateIcons.Clamp | scripts/generate-icons.mjs:92 | in `[min, max]`; non-finite input gives `min`; finite input in range is kept, above `max` gives `max` and below `min` gives `min` |
| GenerateIcons.Configure | scripts/generate-icons.mjs:7-21 | fails exactly without a non-empty source image. Otherwise it reads `out`, `bg` and `padding` with their defaults; alpha is 1 and the padding lies in `[0, 0.4]` |
| GenerateIcons.ConfigureDefaults | scripts/generate-icons.mjs:19-21 | with no options: `public/icons`, colour (31, 111, 235), padding 0.12 |
| GenerateIcons.PaddingFlag | scripts/generate-icons.mjs:12-21 | `--padding` followed by an option reads `true`, which `parseFloat` makes NaN, so the padding is 0 |
| GenerateIcons.DefaultPadding | scripts/generate-icons.mjs:21 | `parseFloat("0.12")` is 0.12 |
| GenerateIcons.DefaultBackground | scripts/generate-icons.mjs:20 | the default colour parses to (31, 111, 235) |
| GenerateIcons.ParseFloatFraction | scripts/generate-icons.mjs:21 | `parseFloat` of a plain decimal fraction is its value |
| GenerateIcons.ParseColor | scripts/generate-icons.mjs:93-101 | alpha is 1 and each channel is NaN or a whole number. After trimming and removing the first `#`, three hex digits give the doubled digits `17·d` and six give the pairs at offsets 0, 2 and 4 |
| GenerateIcons.ColorReadings | scripts/generate-icons.mjs:95-100 | the three-digit and six-digit readings of `parseColor` once the `#` is gone |
| GenerateIcons.ColorOf | scripts/generate-icons.mjs:95-100 | alpha is always 1 and each channel is NaN or a whole number |
| GenerateIcons.ColorOfShort | scripts/generate-icons.mjs:95-97 | three hex digits are each doubled: channel `17·d` |
| GenerateIcons.ColorOfLong | scripts/generate-icons.mjs:99-100 | six hex digits give the pairs at offsets 0, 2 and 4 |
| GenerateIcons.ParseColorShort | scripts/generate-icons.mjs:93-98 | with or without `#`, three digits parse as doubled |
| GenerateIcons.ParseColorLong | scripts/generate-icons.mjs:93-100 | with or without `#`, six digits parse as pairs |
| GenerateIcons.Unprefixed | scripts/generate-icons.mjs:94 | trimming and removing `#` give back the digits |
| GenerateIcons.ChannelHex | scripts/generate-icons.mjs:102 | `toString(16)` of a channel: `"NaN"` exactly for NaN, lowercase hex digits whose value is the channel when it is non-negative, and `-` then the lowercase digits of its magnitude when it is negative |
| GenerateIcons.HexField | scripts/generate-icons.mjs:102 | `padStart(2, "0")` of that: at least two characters, the numeral at the end and zeros before it |
| GenerateIcons.ToHex | scripts/generate-icons.mjs:102 | `#` then the three fields, so at least seven characters |
| GenerateIcons.ToHexShape | scripts/generate-icons.mjs:102 | for channels in `0..255`: `#` then six lowercase hex digits, two per channel, zero-padded |
| GenerateIcons.HexByte | scripts/generate-icons.mjs:102 | a byte is written as two lowercase digits that read back as it |
| GenerateIcons.ParseToHex | scripts/generate-icons.mjs:93-102 | `parseColor(toHex(c))` recovers the channels of `c`, with alpha 1 |
| GenerateIcons.ToHexParse | scripts/generate-icons.mjs:93-102 | `toHex(parseColor("#" + s))` is `"#" + s` for six lowercase hex digits |
| GenerateIcons.HexPair | scripts/generate-icons.mjs:102 | two lowercase digits, read and written again, are themselves |
| JsNumber.RoundReal | src/components/ProgressBar.tsx:2 | `Math.round` is within half of its argument, rounding halves up |
| JsNumber.RoundRealMonotone | src/components/ProgressBar.tsx:2 | `Math.round` is monotone |
| JsNumber.Round | src/features/exportGif.ts:33-34 | `Math.round` keeps non-finite values |
| JsNumber.Min | src/features/exportGif.ts:32 | `Math.min` is NaN when an argument is; otherwise the smaller argument |
| JsNumber.Max | src/components/ProgressBar.tsx:2 | `Math.max` is NaN when an argument is; otherwise the larger argument |
| JsNumber.ToNumber | src/components/ControlPanel.tsx:97 | `Number` of a blank string is 0 |
| JsNumber.ToNumberDigits | src/components/ControlPanel.tsx:97 | `Number` of a decimal numeral is its value |
| JsNumber.ParseFloat | scripts/generate-icons.mjs:21 | `parseFloat` is NaN exactly when no decimal literal follows the leading white space |
| JsNumber.ParseInt16 | scripts/generate-icons.mjs:96-99 | `parseInt(_, 16)` is NaN or a whole number |
| JsNumber.ParseInt16Digits | scripts/generate-icons.mjs:96-99 | `parseInt(_, 16)` of hex digits is their value |
| JsNumber.JsRem | src/hooks/usePlayback.ts:23 | the truncating `%` lies strictly between `-b` and `b`, and equals the Euclidean remainder for `a ≥ 0` |
| JsString.RemoveFirst | scripts/generate-icons.mjs:94 | `replace("#", "")` removes the first `#` only |
| JsString.TrimStart | scripts/generate-icons.mjs:94 | removes exactly the leading white space |
| JsString.TrimEnd | scripts/generate-icons.mjs:94 | removes exactly the trailing white space |
| JsString.Slice | scripts/generate-icons.mjs:99 | `slice(from, to)` is the sub-sequence when in range, empty past the end |
| JsString.HexDigits | scripts/generate-icons.mjs:102 | `toString(16)` of a whole number is lowercase hex digits whose value is the number |
| JsString.DecimalDigits | src/components/ControlPanel.tsx:27 | `String` of a whole number below 10^21 is decimal digits whose value is the number, with no leading zero (`"0"` for 0) |
| JsString.PadStart | scripts/generate-icons.mjs:102 | `padStart` pads on the left with the fill up to the length, and keeps the string |

## Left out

- The gif.js encoder is only a list of frames: its configuration and the canvas history at each `addFrame`. Its workers, `render()` and the `"finished"` event are not modelled. The `App` component's download of the finished blob (src/App.tsx:145-156) is not modelled either.
- Pixels are not modelled. A frame records the canvas's paint calls, and `drawImage` and `toBlob` are abstract. Smoothing options are not modelled.
- Browser decoding is not modelled. Whether `createImageBitmap` and `Image.decode` accept a file is a flag of the file's data.
- Environment facts become parameters:
  - whether `getContext("2d")` succeeds;
  - what `toBlob` produces;
  - the stage's `clientWidth`.
- Awaiting is not modelled. Every `await` is taken as completing before the next statement, and awaited calls do not interleave.
- The playback model does not schedule `requestAnimationFrame`. Each callback is a call of `Tick`, and React state updates take effect at once.
- The UI is not modelled: rendering, styles, and the components `FilePicker` and `FlipbookStage`. Download, share and the build configuration are not part of this model.
- Numbers are exact reals, not IEEE-754 doubles, so rounding error in `scale` is not modelled.
- `localeCompare` with numeric collation is taken as an abstract integer key of the name. Sorting is a stable insertion sort by that key. Any total preorder on a finite set of names can be written this way.
- The icon script's reads and writes (scripts/generate-icons.mjs:23-89, `sharp` and `fs.mkdir`) and its log lines are not modelled. The usage message and `process.exit` are modelled as an `Err` result.
- GenerateIcons.ToHex: it requires every channel to be NaN or a whole number, of any sign and size. These are exactly the values `parseColor` produces (`"#-1-2-3"` gives −1, −2 and −3, written back with a `-`). `toString(16)` of a fraction or an infinity is not modelled; `parseColor` never yields one.
- JsString.DecimalDigits: from 10^21 up, `String` writes exponent form (`1e+21`), which is not modelled. The select options offer only small whole numbers.
- Strings are sequences of Unicode scalar values, not of UTF-16 code units. The `length === 3` test and `slice` of scripts/generate-icons.mjs:95-99 count code units, so a colour containing a character outside the Basic Multilingual Plane would be read differently. Such a colour has no hex reading either way.
- Platform.Canvas.SetFillStyle records any string. A real canvas ignores a string that is not a valid CSS colour and keeps the previous fill style. The background colour of `buildGif` comes from its caller, and its validity is not modelled.
- ExportGif.BuildGif: the side is taken as a whole number (`nat`). In the source it is a `number`. A fractional side would set a canvas of the truncated width while `side / srcW` and `fillRect` use the fraction; this is not modelled.
- ProgressBar.Pct: NaN progress gives a NaN percentage, and it is not said how a browser renders the width `NaN%`.
- GenerateIcons.Configure: an `out` option given as a flag makes the output directory `true`. The model keeps that value but not `mkdir`'s handling of it.
- Playback.Player.Tick: it requires `frameMs > 0`. The source would loop forever on a non-positive delay once the accumulator reaches it.
- FlipbookApp.ExportSide: `clientWidth` is already an integer, so the `Math.round` of the source is the identity here.
- The idempotence of `limitNum` on its own output is stated for the clamp on reals (ControlPanel.ClampIdempotent). Covering the output as re-read through `Number` would need `String` for fractions, which is not modelled.
- ImageUtil.DownscaleIfNeeded: `maxEdge` is taken as a whole number (`nat`), in DownscaleTarget and DownscaleIfNeededCorrected too. In the source it is a `number`. A fractional edge would let a rounded side exceed it: a 2000 × 1000 picture with edge 1000.5 gets width 1001. This is not modelled; the size select offers only whole numbers.
- ImageUtil.DownscaleIfNeeded models the target as written. The corrected ImageUtil.DownscaleTargetNonEmpty and ImageUtil.DownscaleIfNeededCorrected stand beside it (see Findings).

## Findings

| source | as written | input that shows it | evidently intended | confidence | as-written member | corrected member |
|---|---|---|---|---|---|---|
| src/utils/image.ts:53-55,67-69 | the rounded target side of a very thin source can be 0, and `toBlob` on a canvas with no pixels gives `null`, so the import throws | a decodable 3000 × 1 picture with `maxEdge` 1024: the target is 1024 × 0 | reduce every side to at least one pixel so that a reduced copy is always produced | not executed | ImageUtil.ThinSourceImportFails | ImageUtil.DownscaleIfNeededCorrected |
