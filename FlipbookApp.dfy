/**
 * The application component: picking a folder of pictures, the preview
 * playback at a fixed half second per picture, and its own GIF export of
 * the picked pictures on a black square the width of the stage.
 */
module FlipbookApp {
  import opened Wrappers
  import opened JsString
  import opened Platform
  import opened ImageUtil
  import opened ExportGif
  import opened Playback

  /** The preview shows each picture for 500 ms. */
  const FrameMs: real := 500.0

  /** Whether a picked file is a picture: its type starts with `image/`. */
  predicate IsImage(f: File) {
    StartsWith(f.data.mime, "image/")
  }

  /** The picked files that are pictures, in their order. */
  function FilterImages(files: seq<File>): (r: seq<File>)
    ensures forall i :: 0 <= i < |r| ==> IsImage(r[i])
    ensures forall f :: IsImage(f) ==> multiset(r)[f] == multiset(files)[f]
    ensures forall f :: !IsImage(f) ==> multiset(r)[f] == 0
  {
    if files == [] then []
    else
      var init, last := files[..|files| - 1], files[|files| - 1];
      assert files == init + [last];
      FilterImages(init) + (if IsImage(last) then [last] else [])
  }

  /** Filtering keeps the order of the list: the picked files of a
      concatenation are those of the first part followed by those of the
      second. */
  lemma {:induction false} FilterConcat(a: seq<File>, b: seq<File>)
    ensures FilterImages(a + b) == FilterImages(a) + FilterImages(b)
    decreases |b|
  {
    if b == [] {
      assert a + b == a;
    } else {
      var init, last := b[..|b| - 1], b[|b| - 1];
      assert b == init + [last];
      assert a + b == (a + init) + [last];
      var tail := if IsImage(last) then [last] else [];
      var fa, fi := FilterImages(a), FilterImages(init);
      FilterSnoc(a + init, last);
      FilterSnoc(init, last);
      FilterConcat(a, init);
      FilesAssoc(fa, fi, tail);
    }
  }

  lemma FilesAssoc(a: seq<File>, b: seq<File>, c: seq<File>)
    ensures a + (b + c) == a + b + c
  {
  }

  /** Appending a file appends it to the picked files when it is an image. */
  lemma FilterSnoc(s: seq<File>, f: File)
    ensures FilterImages(s + [f]) == FilterImages(s) + (if IsImage(f) then [f] else [])
  {
    assert (s + [f])[..|s|] == s;
  }

  /** A single file is kept exactly when it is an image. */
  lemma FilterOne(f: File)
    ensures FilterImages([f]) == if IsImage(f) then [f] else []
  {
    assert [f][..0] == [];
  }

  /** Ordered by the collation key of the names. The comparison of names is
      `localeCompare` with numeric collation and base sensitivity, which
      depends on the locale; any total preorder on the picked names is the
      order of the integer keys some `key` gives them. */
  predicate SortedByKey(s: seq<File>, key: string -> int) {
    forall i, j :: 0 <= i < j < |s| ==> key(s[i].name) <= key(s[j].name)
  }

  /** The files of `s` whose name has key `k`, in their order. */
  function WithKey(s: seq<File>, key: string -> int, k: int): seq<File> {
    if s == [] then []
    else WithKey(s[..|s| - 1], key, k) + (if key(s[|s| - 1].name) == k then [s[|s| - 1]] else [])
  }

  /** Puts `x` into `s` after the longest suffix of files whose keys are
      greater than its own. */
  function InsertByKey(s: seq<File>, x: File, key: string -> int): seq<File> {
    if s == [] || key(s[|s| - 1].name) <= key(x.name) then s + [x]
    else InsertByKey(s[..|s| - 1], x, key) + [s[|s| - 1]]
  }

  /** Inserting into a sorted sequence keeps it sorted, and adds nothing but `x`. */
  lemma {:induction false} InsertSorted(s: seq<File>, x: File, key: string -> int)
    requires SortedByKey(s, key)
    ensures SortedByKey(InsertByKey(s, x, key), key)
    ensures forall i :: 0 <= i < |InsertByKey(s, x, key)| ==> InsertByKey(s, x, key)[i] == x || InsertByKey(s, x, key)[i] in s
    decreases |s|
  {
    if s != [] && key(s[|s| - 1].name) > key(x.name) {
      var init, last := s[..|s| - 1], s[|s| - 1];
      assert s == init + [last];
      assert SortedByKey(init, key);
      InsertSorted(init, x, key);
      var r := InsertByKey(init, x, key);
      assert forall i :: 0 <= i < |r| ==> key(r[i].name) <= key(last.name);
    }
  }

  /** Inserting adds `x` and nothing else. */
  lemma {:induction false} InsertPermutes(s: seq<File>, x: File, key: string -> int)
    ensures multiset(InsertByKey(s, x, key)) == multiset(s) + multiset{x}
    decreases |s|
  {
    if s != [] && key(s[|s| - 1].name) > key(x.name) {
      var init, last := s[..|s| - 1], s[|s| - 1];
      assert s == init + [last];
      InsertPermutes(init, x, key);
    }
  }

  /** `Array.prototype.sort` with a comparator on the keys: sorted, and a
      permutation of its input. */
  function SortByKey(fs: seq<File>, key: string -> int): (r: seq<File>)
    ensures SortedByKey(r, key)
    ensures multiset(r) == multiset(fs)
  {
    if fs == [] then []
    else
      var init, last := fs[..|fs| - 1], fs[|fs| - 1];
      assert fs == init + [last];
      var sorted := SortByKey(init, key);
      InsertSorted(sorted, last, key);
      InsertPermutes(sorted, last, key);
      InsertByKey(sorted, last, key)
  }

  lemma WithKeyAppend(s: seq<File>, x: File, key: string -> int, k: int)
    ensures WithKey(s + [x], key, k) == WithKey(s, key, k) + (if key(x.name) == k then [x] else [])
  {
    assert (s + [x])[..|s|] == s;
  }

  /** Inserting keeps the order among the files of each key, the new file
      coming after the ones already there. */
  lemma {:induction false} InsertKeepsOrder(s: seq<File>, x: File, key: string -> int, k: int)
    ensures WithKey(InsertByKey(s, x, key), key, k) == WithKey(s, key, k) + (if key(x.name) == k then [x] else [])
    decreases |s|
  {
    if s == [] || key(s[|s| - 1].name) <= key(x.name) {
      WithKeyAppend(s, x, key, k);
    } else {
      var init, last := s[..|s| - 1], s[|s| - 1];
      assert s == init + [last];
      var r := InsertByKey(init, x, key);
      assert InsertByKey(s, x, key) == r + [last];
      InsertKeepsOrder(init, x, key, k);
      WithKeyAppend(r, last, key, k);
      WithKeyAppend(init, last, key, k);
      // `last` sorts strictly after `x`, so at most one of them has key `k`
      if key(x.name) == k {
        assert key(last.name) != k;
        assert WithKey(s, key, k) == WithKey(init, key, k);
      } else {
        assert WithKey(InsertByKey(s, x, key), key, k) == WithKey(init, key, k) + (if key(last.name) == k then [last] else []);
      }
    }
  }

  /** The sort is stable: files whose names compare equal keep their
      picked order. */
  lemma {:induction false} SortStable(fs: seq<File>, key: string -> int, k: int)
    ensures WithKey(SortByKey(fs, key), key, k) == WithKey(fs, key, k)
    decreases |fs|
  {
    if fs != [] {
      var init, last := fs[..|fs| - 1], fs[|fs| - 1];
      assert fs == init + [last];
      SortStable(init, key, k);
      InsertKeepsOrder(SortByKey(init, key), last, key, k);
      WithKeyAppend(init, last, key, k);
    }
  }

  /** The events of revoking the URLs of `items`, in order. */
  function Revocations(items: seq<ImageItem>): (evs: seq<Event>)
    ensures |evs| == |items|
    ensures forall i :: 0 <= i < |items| ==> evs[i] == UrlRevoked(items[i].url)
  {
    if items == [] then [] else Revocations(items[..|items| - 1]) + [UrlRevoked(items[|items| - 1].url)]
  }

  /** The events of creating `n` object URLs from handle `h0` on. */
  function UrlsCreated(h0: nat, n: nat): (evs: seq<Event>)
    ensures |evs| == n
    ensures forall i :: 0 <= i < n ==> evs[i] == UrlCreated(h0 + i)
  {
    if n == 0 then [] else UrlsCreated(h0, n - 1) + [UrlCreated(h0 + n - 1)]
  }

  /** The `map` of the picked pictures to items: each keeps its file and
      its file's name, and gets a fresh object URL. */
  method CreateItems(browser: Browser, files: seq<File>) returns (items: seq<ImageItem>)
    modifies browser
    ensures |items| == |files|
    ensures forall i :: 0 <= i < |files| ==>
      items[i] == ImageItem(files[i].name, old(browser.nextHandle) + i, FileData(files[i]))
    ensures browser.log == old(browser.log) + UrlsCreated(old(browser.nextHandle), |files|)
    ensures browser.nextHandle == old(browser.nextHandle) + |files|
  {
    var h0 := browser.nextHandle;
    items := [];
    var i := 0;
    while i < |files|
      invariant i <= |files| && |items| == i
      invariant forall j :: 0 <= j < i ==> items[j] == ImageItem(files[j].name, h0 + j, FileData(files[j]))
      invariant browser.log == old(browser.log) + UrlsCreated(h0, i)
      invariant browser.nextHandle == h0 + i
    {
      var url := browser.nextHandle;
      browser.Perform(Run(url, [UrlCreated(url)], 1));
      items := items + [ImageItem(files[i].name, url, FileData(files[i]))];
      i := i + 1;
    }
  }

  /** `items.forEach((p) => URL.revokeObjectURL(p.url))`. */
  method RevokeAll(browser: Browser, items: seq<ImageItem>)
    modifies browser
    ensures browser.log == old(browser.log) + Revocations(items)
    ensures browser.nextHandle == old(browser.nextHandle)
  {
    var i := 0;
    while i < |items|
      invariant i <= |items|
      invariant browser.log == old(browser.log) + Revocations(items[..i])
      invariant browser.nextHandle == old(browser.nextHandle)
    {
      assert items[..i + 1][..i] == items[..i];
      browser.Perform(Run((), [UrlRevoked(items[i].url)], 0));
      i := i + 1;
    }
    assert items[..i] == items;
  }

  /** `createImageBitmap(file)`: the bitmap, or a rejection and no resource. */
  function CreateBitmap(file: ImageBinary, h: nat): (r: Run<Option<Source>>)
    ensures r.result.Some? <==> Data(file).bitmapDecodes
    ensures r.result.Some? ==>
      && r.result.value == Decoded(file, h).source
      && r.events == [BitmapCreated(h)] && r.used == 1
    ensures r.result.None? ==> r.events == [] && r.used == 0
  {
    var b := Data(file);
    if b.bitmapDecodes then Run(Some(OtherSource(b.id, Some(b.width), Some(b.height))), [BitmapCreated(h)], 1)
    else Run(None, [], 0)
  }

  /** Whether `createImageBitmap` accepts each of the first `n` items. */
  predicate BitmapLoadable(items: seq<ImageItem>, n: nat)
    requires n <= |items|
  {
    forall j | 0 <= j < n :: Data(items[j].file).bitmapDecodes
  }

  /** The position of the first item `createImageBitmap` rejects. */
  function FirstWithoutBitmap(items: seq<ImageItem>, i: nat): (k: nat)
    requires i <= |items| && BitmapLoadable(items, i) && !BitmapLoadable(items, |items|)
    ensures i <= k < |items| && !Data(items[k].file).bitmapDecodes && BitmapLoadable(items, k)
    decreases |items| - i
  {
    if !Data(items[i].file).bitmapDecodes then i else FirstWithoutBitmap(items, i + 1)
  }

  lemma FirstWithoutBitmapAt(items: seq<ImageItem>, i: nat)
    requires i < |items| && BitmapLoadable(items, i) && !Data(items[i].file).bitmapDecodes
    ensures !BitmapLoadable(items, |items|) && FirstWithoutBitmap(items, 0) == i
  {
    MoreWithoutBitmap(items, 0, i);
  }

  lemma {:induction false} MoreWithoutBitmap(items: seq<ImageItem>, j: nat, i: nat)
    requires j <= i < |items| && BitmapLoadable(items, i) && !Data(items[i].file).bitmapDecodes
    ensures !BitmapLoadable(items, |items|) && FirstWithoutBitmap(items, j) == i
    decreases i - j
  {
    if j < i {
      MoreWithoutBitmap(items, j + 1, i);
    }
  }

  /** One turn of the component's export loop: clear the square in black,
      decode the item as a bitmap, draw it, close it, add the frame. */
  method AddBitmap(canvas: Canvas, gif: Gif, browser: Browser, file: ImageBinary)
    returns (ok: bool)
    requires canvas.width == canvas.height
    modifies canvas, gif, browser
    ensures ok <==> Data(file).bitmapDecodes
    ensures ok ==>
      && browser.log == old(browser.log) + ItemEvents(file, old(browser.nextHandle))
      && browser.nextHandle == old(browser.nextHandle) + 1
      && canvas.paints == old(canvas.paints) + StepPaints(canvas.width, "black", Decoded(file, old(browser.nextHandle)).source)
      && gif.frames == old(gif.frames) + [Frame(canvas.paints, FrameOptions(true, 500.0, 2))]
    ensures !ok ==> browser.log == old(browser.log) && browser.nextHandle == old(browser.nextHandle) && gif.frames == old(gif.frames)
  {
    var side := canvas.width;
    canvas.SetFillStyle("black");
    canvas.FillRect(0, 0, side, side);
    var h := browser.nextHandle;
    var bmp := CreateBitmap(file, h);
    browser.Perform(bmp);
    if bmp.result.None? {
      return false;
    }
    var src := bmp.result.value;
    var (srcW, srcH) := GetSourceSize(src);
    canvas.DrawImage(src, ContainFit(side, srcW, srcH));
    browser.Release(Decoded(file, h));
    gif.AddFrame(canvas, FrameOptions(true, 500.0, 2));
    return true;
  }

  /** The loop body of the component's export, from `k` items to `k + 1`. */
  method AddBitmapStep(canvas: Canvas, gif: Gif, browser: Browser, images: seq<ImageItem>, h0: nat,
                       ghost log0: seq<Event>, k: nat)
    returns (ok: bool)
    requires canvas.width == canvas.height
    requires k < |images| && BitmapLoadable(images, k)
    requires browser.nextHandle == h0 + k
    requires browser.log == log0 + ExportEvents(images, h0, k)
    requires canvas.paints == History(canvas.width, "black", LoadedSources(images, h0, k))
    requires gif.frames == Frames(canvas.width, "black", LoadedSources(images, h0, k), FrameOptions(true, 500.0, 2))
    modifies canvas, gif, browser
    ensures ok <==> Data(images[k].file).bitmapDecodes
    ensures ok ==>
      && BitmapLoadable(images, k + 1)
      && browser.nextHandle == h0 + (k + 1)
      && browser.log == log0 + ExportEvents(images, h0, k + 1)
      && canvas.paints == History(canvas.width, "black", LoadedSources(images, h0, k + 1))
      && gif.frames == Frames(canvas.width, "black", LoadedSources(images, h0, k + 1), FrameOptions(true, 500.0, 2))
    ensures !ok ==>
      && browser.nextHandle == h0 + k
      && browser.log == log0 + ExportEvents(images, h0, k)
      && gif.frames == old(gif.frames)
  {
    ghost var handle, log, paints, frames := browser.nextHandle, browser.log, canvas.paints, gif.frames;
    ok := AddBitmap(canvas, gif, browser, images[k].file);
    if ok {
      assert BitmapLoadable(images, k + 1);
      LogStep(log, images, h0, log0, k, handle);
      PaintsStep(paints, images, h0, k, handle, canvas.width, "black");
      FramesStep(frames, canvas.paints, images, h0, k, canvas.width, "black", FrameOptions(true, 500.0, 2));
    }
  }

  /** The component's export loop over its items, stopping at the first
      one that cannot be decoded as a bitmap. */
  method AddBitmaps(canvas: Canvas, gif: Gif, browser: Browser, images: seq<ImageItem>) returns (k: nat)
    requires canvas.width == canvas.height && canvas.paints == [] && gif.frames == []
    modifies canvas, gif, browser
    ensures k <= |images| && BitmapLoadable(images, k)
    ensures k < |images| ==> !Data(images[k].file).bitmapDecodes
    ensures gif.frames == Frames(canvas.width, "black", LoadedSources(images, old(browser.nextHandle), k),
                                 FrameOptions(true, 500.0, 2))
    ensures browser.log == old(browser.log) + ExportEvents(images, old(browser.nextHandle), k)
    ensures browser.nextHandle == old(browser.nextHandle) + k
  {
    var h0 := browser.nextHandle;
    ghost var log0 := browser.log;
    k := 0;
    while k < |images|
      invariant k <= |images| && BitmapLoadable(images, k)
      invariant browser.nextHandle == h0 + k
      invariant browser.log == log0 + ExportEvents(images, h0, k)
      invariant canvas.paints == History(canvas.width, "black", LoadedSources(images, h0, k))
      invariant gif.frames == Frames(canvas.width, "black", LoadedSources(images, h0, k), FrameOptions(true, 500.0, 2))
    {
      var ok := AddBitmapStep(canvas, gif, browser, images, h0, log0, k);
      if !ok {
        return;
      }
      k := k + 1;
    }
  }

  /** The side of the exported square: the stage width, at least 2. The
      width of an element's content box is an integer, which `Math.round`
      leaves as it is. */
  function ExportSide(clientWidth: nat): (side: nat)
    ensures side >= 2 && side >= clientWidth
    ensures clientWidth >= 2 ==> side == clientWidth
    ensures side == 2 || side == clientWidth
  {
    if clientWidth >= 2 then clientWidth else 2
  }

  /** The state of the application component. */
  class App {
    var images: seq<ImageItem>
    var index: int
    var playing: bool
    var accum: real
    var lastTick: Option<real>

    constructor ()
      ensures images == [] && index == 0 && !playing && accum == 0.0 && lastTick == None
    {
      images, index, playing, accum, lastTick := [], 0, false, 0.0, None;
    }

    /** The input's change handler, with `files` absent when the input has
        no file list. The pictures among the files, sorted by name, become
        the new items, each with a fresh object URL; the URLs of the
        previous items are revoked by the state update and once more by the
        cleanup of the effect that watches the items; playback restarts from
        the first picture without being stopped. */
    method PickFolder(browser: Browser, files: Option<seq<File>>, key: string -> int)
      modifies this, browser
      ensures var picked := SortByKey(FilterImages(if files.Some? then files.value else []), key);
        && |images| == |picked|
        && (forall i :: 0 <= i < |picked| ==>
             images[i] == ImageItem(picked[i].name, old(browser.nextHandle) + i, FileData(picked[i])))
        && browser.log == old(browser.log) + UrlsCreated(old(browser.nextHandle), |picked|)
                          + Revocations(old(images)) + Revocations(old(images))
        && browser.nextHandle == old(browser.nextHandle) + |picked|
      ensures index == 0 && accum == 0.0 && lastTick == None && playing == old(playing)
    {
      var all := if files.Some? then files.value else [];
      var picked := SortByKey(FilterImages(all), key);
      var items := CreateItems(browser, picked);
      var previous := images;
      RevokeAll(browser, previous);
      images := items;
      index := 0;
      accum := 0.0;
      lastTick := None;
      RevokeAll(browser, previous);
    }

    /** The animation frame callback of the playback effect. */
    method Tick(t: real)
      modifies this
      ensures images == old(images) && playing == old(playing)
      ensures !old(playing) ==> index == old(index) && accum == old(accum) && lastTick == old(lastTick)
      ensures old(playing) && old(lastTick).None? ==> lastTick == Some(t) && index == old(index) && accum == old(accum)
      ensures old(playing) && old(lastTick).Some? ==>
        var a := old(accum) + (t - old(lastTick).value);
        && lastTick == Some(t)
        && accum == a - Steps(a, FrameMs) as real * FrameMs
        && index == Advance(old(index), |images|, Steps(a, FrameMs))
      ensures 0.0 <= old(accum) < FrameMs && (old(lastTick).Some? ==> t >= old(lastTick).value)
              ==> 0.0 <= accum < FrameMs
      ensures 0 <= old(index) < |images| ==> 0 <= index < |images|
    {
      if !playing {
        return;
      }
      if lastTick.None? {
        lastTick := Some(t);
        return;
      }
      var dt := t - lastTick.value;
      lastTick := Some(t);
      accum := accum + dt;
      accum, index := Drain(accum, index, |images|, FrameMs);
      if 0 <= old(index) < |images| {
        AdvanceInRange(old(index), |images|, Steps(old(accum) + dt, FrameMs));
      }
    }

    /** `start`: nothing happens without pictures. */
    method Start()
      modifies this
      ensures playing == (old(playing) || |images| > 0)
      ensures images == old(images) && index == old(index) && accum == old(accum) && lastTick == old(lastTick)
    {
      if |images| == 0 {
        return;
      }
      playing := true;
    }

    /** `stop`, with the effect that follows it clearing the timestamp. */
    method Stop()
      modifies this
      ensures !playing && lastTick == None
      ensures images == old(images) && index == old(index) && accum == old(accum)
    {
      playing := false;
      lastTick := None;
    }

    /** `resetPlayback`. */
    method ResetPlayback()
      modifies this
      ensures !playing && index == 0 && accum == 0.0 && lastTick == None
      ensures images == old(images)
    {
      Stop();
      index := 0;
      accum := 0.0;
      lastTick := None;
    }

    /** The component's `exportGif` up to the encoder's rendering.
        `stageWidth` is the stage's `clientWidth`, absent when the stage is
        not mounted; `ctxAvailable` says whether the canvas yields a 2D
        context. Without pictures, a stage or a context it does nothing and
        returns no encoder; a picture `createImageBitmap` rejects makes it
        throw there, every earlier bitmap having been closed. */
    method ExportGif(browser: Browser, stageWidth: Option<nat>, ctxAvailable: bool)
      returns (r: Result<Option<Gif>, Failure>)
      modifies browser
      ensures |images| == 0 || stageWidth.None? || !ctxAvailable ==> r == Ok(None) && unchanged(browser)
      ensures |images| > 0 && stageWidth.Some? && ctxAvailable && BitmapLoadable(images, |images|) ==>
        var side := ExportSide(stageWidth.value);
        && r.Ok? && r.value.Some? && fresh(r.value.value)
        && r.value.value.options == GifOptions(2, side, side, 10.0, 0, None)
        && r.value.value.frames
           == Frames(side, "black", LoadedSources(images, old(browser.nextHandle), |images|), FrameOptions(true, 500.0, 2))
        && browser.log == old(browser.log) + ExportEvents(images, old(browser.nextHandle), |images|)
        && browser.nextHandle == old(browser.nextHandle) + |images|
      ensures |images| > 0 && stageWidth.Some? && ctxAvailable && !BitmapLoadable(images, |images|) ==>
        var k := FirstWithoutBitmap(images, 0);
        && r == Err(DecodeFailed)
        && browser.log == old(browser.log) + ExportEvents(images, old(browser.nextHandle), k)
        && browser.nextHandle == old(browser.nextHandle) + k
    {
      if |images| == 0 || stageWidth.None? {
        return Ok(None);
      }
      var side := ExportSide(stageWidth.value);
      var canvas := new Canvas(side, side);
      if !ctxAvailable {
        return Ok(None);
      }
      var gif := new Gif(GifOptions(2, side, side, 10.0, 0, None));
      var k := AddBitmaps(canvas, gif, browser, images);
      if k < |images| {
        FirstWithoutBitmapAt(images, k);
        return Err(DecodeFailed);
      }
      return Ok(Some(gif));
    }

    /** The cleanup of the effect that watches the items, run on unmount:
        every item's URL is revoked. */
    method Unmount(browser: Browser)
      modifies browser
      ensures browser.log == old(browser.log) + Revocations(images)
      ensures browser.nextHandle == old(browser.nextHandle)
    {
      RevokeAll(browser, images);
    }
  }
}
