/**
 * Building an animated GIF from the picked images: each image is drawn,
 * centred and scaled to fit, on a square canvas filled with the background
 * colour, and the canvas is added to the encoder as one frame.
 */
module ExportGif {
  import opened Wrappers
  import opened JsNumber
  import opened Platform
  import opened ImageUtil

  /** A picked image: its name, its object URL (by handle) and its data. */
  datatype ImageItem = ImageItem(name: string, url: nat, file: ImageBinary)

  /** The export settings: the side of the square frame in pixels, the frame
      delay in milliseconds, the background colour, and the encoder's
      quality (1 best, 30 worst). */
  datatype ExportOptions = ExportOptions(side: nat, frameMs: real, bgColor: string, quality: real)

  /** The rectangle a `srcW x srcH` source is drawn into on a `side x side`
      square: scaled by `min(side / srcW, side / srcH)`, the scaled size
      rounded, and the margins floored, in JavaScript arithmetic. */
  function ContainFit(side: nat, srcW: nat, srcH: nat): Rect {
    var s := Finite(side as real);
    var w := Finite(srcW as real);
    var h := Finite(srcH as real);
    var scale := Min(Div(s, w), Div(s, h));
    var dw := Round(Mul(w, scale));
    var dh := Round(Mul(h, scale));
    var dx := Floor(Div(Sub(s, dw), Finite(2.0)));
    var dy := Floor(Div(Sub(s, dh), Finite(2.0)));
    Rect(dx, dy, dw, dh)
  }

  lemma DivAntitone(s: real, a: real, b: real)
    requires 0.0 < b <= a && 0.0 <= s
    ensures s / a <= s / b
  {
  }

  lemma HalfFloor(k: int)
    ensures (k as real / 2.0).Floor == k / 2
  {
  }

  /** For a source with both sides positive the scale is `side / max(srcW, srcH)`. */
  lemma ContainScale(side: nat, srcW: nat, srcH: nat)
    requires srcW > 0 && srcH > 0
    ensures Min(Div(Finite(side as real), Finite(srcW as real)), Div(Finite(side as real), Finite(srcH as real)))
         == Finite(side as real / MaxNat(srcW, srcH) as real)
  {
    if srcW >= srcH {
      DivAntitone(side as real, srcW as real, srcH as real);
    } else {
      DivAntitone(side as real, srcH as real, srcW as real);
    }
  }

  /** A side `n` no larger than `m`, scaled by `side / m`, rounds into
      `[0, side]`; the side `m` itself becomes exactly `side`. */
  lemma ScaledSide(n: nat, m: nat, side: nat)
    requires 0 < n <= m
    ensures 0 <= RoundReal(n as real * (side as real / m as real)) <= side
    ensures n == m ==> RoundReal(n as real * (side as real / m as real)) == side
  {
    var nr, mr, sr := n as real, m as real, side as real;
    var q := sr / mr;
    ScaleFactor(sr, mr);
    MulMono(nr, mr, q);
    MulMono(0.0, nr, q);
    RoundedWithin(nr * q, side);
  }

  /** `s / m` for `s >= 0` and `m > 0` is a non-negative factor taking `m` to `s`. */
  lemma ScaleFactor(s: real, m: real)
    requires 0.0 <= s && 0.0 < m
    ensures 0.0 <= s / m && m * (s / m) == s
  {
    DivMul(s, m);
    var q := s / m;
    if q < 0.0 {
      MulStrict(q, 0.0, m);
    }
  }

  /** A value in `[0, side]` rounds into `[0, side]`, and `side` to itself. */
  lemma RoundedWithin(x: real, side: nat)
    requires 0.0 <= x <= side as real
    ensures 0 <= RoundReal(x) <= side
    ensures x == side as real ==> RoundReal(x) == side
  {
    RoundRealMonotone(0.0, x);
    RoundRealMonotone(x, side as real);
    RoundRealOfInt(0);
    RoundRealOfInt(side);
  }

  /** A drawn length `d` in `[0, side]` is centred with margin
      `floor((side - d) / 2)`: the margin is non-negative, the drawing ends
      inside the square, and the two margins differ by at most one pixel. */
  lemma Centred(side: nat, d: int)
    requires 0 <= d <= side
    ensures var m := Floor(Div(Sub(Finite(side as real), Finite(d as real)), Finite(2.0)));
      && m == Finite(((side - d) / 2) as real)
      && 0 <= (side - d) / 2
      && (side - d) / 2 + d <= side
      && 0 <= side - d - 2 * ((side - d) / 2) <= 1
  {
    HalfFloor(side - d);
    assert (side as real - d as real) == (side - d) as real;
  }

  /** The scaled side lengths of a source with both sides positive. */
  function FitW(side: nat, srcW: nat, srcH: nat): int
    requires srcW > 0 && srcH > 0
  {
    RoundReal(srcW as real * (side as real / MaxNat(srcW, srcH) as real))
  }

  function FitH(side: nat, srcW: nat, srcH: nat): int
    requires srcW > 0 && srcH > 0
  {
    RoundReal(srcH as real * (side as real / MaxNat(srcW, srcH) as real))
  }

  lemma FitBounds(side: nat, srcW: nat, srcH: nat)
    requires srcW > 0 && srcH > 0
    ensures 0 <= FitW(side, srcW, srcH) <= side && 0 <= FitH(side, srcW, srcH) <= side
    ensures srcW >= srcH ==> FitW(side, srcW, srcH) == side
    ensures srcH >= srcW ==> FitH(side, srcW, srcH) == side
  {
    var m := MaxNat(srcW, srcH);
    ScaledSide(srcW, m, side);
    ScaledSide(srcH, m, side);
    assert FitW(side, srcW, srcH) == RoundReal(srcW as real * (side as real / m as real));
    assert FitH(side, srcW, srcH) == RoundReal(srcH as real * (side as real / m as real));
  }

  lemma ContainFitValue(side: nat, srcW: nat, srcH: nat, dw: int, dh: int)
    requires srcW > 0 && srcH > 0
    requires dw == FitW(side, srcW, srcH) && dh == FitH(side, srcW, srcH)
    ensures ContainFit(side, srcW, srcH)
         == Rect(Finite(((side - dw) / 2) as real), Finite(((side - dh) / 2) as real),
                 Finite(dw as real), Finite(dh as real))
  {
    var q := side as real / MaxNat(srcW, srcH) as real;
    ContainScale(side, srcW, srcH);
    FitBounds(side, srcW, srcH);
    ScaledRound(srcW, q, dw);
    ScaledRound(srcH, q, dh);
    Centred(side, dw);
    Centred(side, dh);
  }

  lemma ScaledRound(n: nat, q: real, d: int)
    requires d == RoundReal(n as real * q)
    ensures Round(Mul(Finite(n as real), Finite(q))) == Finite(d as real)
  {
    assert Mul(Finite(n as real), Finite(q)) == Finite(n as real * q);
  }

  predicate IsInteger(n: Num) {
    n.Finite? && n.v == n.v.Floor as real
  }

  /** The rectangle of a source with both sides positive: integer-valued,
      inside the square, centred to the pixel, as large as the square along
      the source's longer side, and within half a pixel of the exact
      scaled size along both. */
  lemma ContainFitInside(side: nat, srcW: nat, srcH: nat)
    requires srcW > 0 && srcH > 0
    ensures var r := ContainFit(side, srcW, srcH);
      && IsInteger(r.x) && IsInteger(r.y) && IsInteger(r.w) && IsInteger(r.h)
      && 0.0 <= r.w.v <= side as real && 0.0 <= r.h.v <= side as real
      && 0.0 <= r.x.v && r.x.v + r.w.v <= side as real
      && 0.0 <= r.y.v && r.y.v + r.h.v <= side as real
      && 0.0 <= side as real - r.w.v - 2.0 * r.x.v <= 1.0
      && 0.0 <= side as real - r.h.v - 2.0 * r.y.v <= 1.0
      && (srcW >= srcH ==> r.w.v == side as real) && (srcH >= srcW ==> r.h.v == side as real)
      && -0.5 <= r.w.v - srcW as real * (side as real / MaxNat(srcW, srcH) as real) <= 0.5
      && -0.5 <= r.h.v - srcH as real * (side as real / MaxNat(srcW, srcH) as real) <= 0.5
  {
    var dw, dh := FitW(side, srcW, srcH), FitH(side, srcW, srcH);
    FitBounds(side, srcW, srcH);
    ContainFitValue(side, srcW, srcH, dw, dh);
    Centred(side, dw);
    Centred(side, dh);
  }

  /** A source of width 0 is drawn zero pixels wide, full height, at the
      horizontal middle of the square. */
  lemma ContainFitZeroWidth(side: nat, srcH: nat)
    requires side > 0 && srcH > 0
    ensures ContainFit(side, 0, srcH)
         == Rect(Finite((side / 2) as real), Finite(0.0), Finite(0.0), Finite(side as real))
  {
    var s := Finite(side as real);
    assert Div(s, Finite(0.0)) == PosInf;
    DivMul(side as real, srcH as real);
    assert Mul(Finite(srcH as real), Finite(side as real / srcH as real)) == Finite(side as real);
    RoundRealOfInt(side);
    RoundRealOfInt(0);
    Centred(side, 0);
    Centred(side, side);
  }

  /** A source with no size gives a rectangle with no coordinates: every
      argument of the draw call is NaN. */
  lemma ContainFitNoSize(side: nat)
    requires side > 0
    ensures ContainFit(side, 0, 0) == Rect(NaN, NaN, NaN, NaN)
  {
    assert Div(Finite(side as real), Finite(0.0)) == PosInf;
  }

  /** What one image adds to the canvas: the whole square filled with
      `fill`, then the source drawn into its contain-fit rectangle. */
  function StepPaints(side: nat, fill: string, src: Source): seq<Paint> {
    var (w, h) := GetSourceSize(src);
    [Fill(fill, 0, 0, side, side), Draw(src, ContainFit(side, w, h))]
  }

  /** The painting calls made on the canvas after the given sources. */
  function History(side: nat, fill: string, srcs: seq<Source>): (ps: seq<Paint>)
    ensures |ps| == 2 * |srcs|
  {
    if srcs == [] then []
    else History(side, fill, srcs[..|srcs| - 1]) + StepPaints(side, fill, srcs[|srcs| - 1])
  }

  /** The frames the encoder holds after the given sources, each added with
      options `fo` once its source was drawn. */
  function Frames(side: nat, fill: string, srcs: seq<Source>, fo: FrameOptions): (fs: seq<Frame>)
    ensures |fs| == |srcs|
  {
    if srcs == [] then []
    else Frames(side, fill, srcs[..|srcs| - 1], fo) + [Frame(History(side, fill, srcs), fo)]
  }

  /** Whether the first `n` items can be loaded. */
  predicate Loadable(items: seq<ImageItem>, n: nat)
    requires n <= |items|
  {
    forall j | 0 <= j < n :: Decodable(Data(items[j].file))
  }

  predicate AllDecodable(items: seq<ImageItem>) {
    Loadable(items, |items|)
  }

  /** The sources the loads of the first `n` items produce, the first load
      using handle `h0` and each next one the next handle. */
  function LoadedSources(items: seq<ImageItem>, h0: nat, n: nat): (srcs: seq<Source>)
    requires n <= |items|
    ensures |srcs| == n
  {
    if n == 0 then []
    else LoadedSources(items, h0, n - 1) + [Decoded(items[n - 1].file, h0 + n - 1).source]
  }

  /** The resource events of loading `b` with handle `h` and releasing it. */
  function ItemEvents(b: ImageBinary, h: nat): seq<Event> {
    [LoadEvent(b, h)] + ReleaseEvents(Decoded(b, h))
  }

  /** The resource events of exporting the first `n` items, in order. */
  function ExportEvents(items: seq<ImageItem>, h0: nat, n: nat): (evs: seq<Event>)
    requires n <= |items|
  {
    if n == 0 then []
    else ExportEvents(items, h0, n - 1) + ItemEvents(items[n - 1].file, h0 + n - 1)
  }

  /** The position of the first item no decoder accepts. */
  function FirstUndecodable(items: seq<ImageItem>): (k: nat)
    requires !AllDecodable(items)
    ensures k < |items| && !Decodable(Data(items[k].file)) && Loadable(items, k)
  {
    FirstUndecodableFrom(items, 0)
  }

  function FirstUndecodableFrom(items: seq<ImageItem>, i: nat): (k: nat)
    requires i <= |items| && Loadable(items, i) && !AllDecodable(items)
    ensures i <= k < |items| && !Decodable(Data(items[k].file)) && Loadable(items, k)
    decreases |items| - i
  {
    if !Decodable(Data(items[i].file)) then i else FirstUndecodableFrom(items, i + 1)
  }

  /** `buildGif(images, opts)` up to the encoder's rendering: returns the
      encoder with its frames. `ctxAvailable` says whether the canvas yields
      a 2D context. */
  method BuildGif(browser: Browser, images: seq<ImageItem>, opts: ExportOptions, ctxAvailable: bool)
    returns (r: Result<Gif, Failure>)
    modifies browser
    // no context: fails before any encoder exists or any image is touched
    ensures !ctxAvailable ==> r == Err(ContextUnavailable) && unchanged(browser)
    ensures ctxAvailable && AllDecodable(images) ==>
      && r.Ok? && fresh(r.value)
      && r.value.options == GifOptions(2, opts.side, opts.side, opts.quality, 0, Some(opts.bgColor))
      && r.value.frames == Frames(opts.side, opts.bgColor, LoadedSources(images, old(browser.nextHandle), |images|),
                                  FrameOptions(true, opts.frameMs, 2))
      && browser.log == old(browser.log) + ExportEvents(images, old(browser.nextHandle), |images|)
      && browser.nextHandle == old(browser.nextHandle) + |images|
    // an image no decoder accepts: the export throws there, having released
    // every earlier image; the URL made for the failed one stays open
    ensures ctxAvailable && !AllDecodable(images) ==>
      var k := FirstUndecodable(images);
      && r == Err(DecodeFailed)
      && browser.log == old(browser.log) + ExportEvents(images, old(browser.nextHandle), k)
                        + [UrlCreated(old(browser.nextHandle) + k)]
      && browser.nextHandle == old(browser.nextHandle) + k + 1
  {
    ghost var h0, log0 := browser.nextHandle, browser.log;
    var side := opts.side;
    var canvas := new Canvas(side, side);
    if !ctxAvailable {
      return Err(ContextUnavailable);
    }
    var gif := new Gif(GifOptions(2, side, side, opts.quality, 0, Some(opts.bgColor)));
    assert browser.nextHandle == h0 && browser.log == log0;
    var k := AddImages(canvas, gif, browser, images, opts.bgColor, FrameOptions(true, opts.frameMs, 2));
    if k < |images| {
      FirstUndecodableAt(images, k);
      return Err(DecodeFailed);
    }
    assert k == |images|;
    return Ok(gif);
  }

  /** The export loop: one turn of `AddImage` per item, in order, stopping
      at the first item that cannot be loaded. Returns the number of items
      added, which is `|images|` unless an item failed to load. */
  method AddImages(canvas: Canvas, gif: Gif, browser: Browser, images: seq<ImageItem>, fill: string, fo: FrameOptions)
    returns (k: nat)
    requires fo.copy && canvas.width == canvas.height && canvas.paints == [] && gif.frames == []
    modifies canvas, gif, browser
    ensures k <= |images| && Loadable(images, k)
    ensures k < |images| ==> !Decodable(Data(images[k].file))
    ensures gif.frames == Frames(canvas.width, fill, LoadedSources(images, old(browser.nextHandle), k), fo)
    ensures browser.log == old(browser.log) + ExportEvents(images, old(browser.nextHandle), k)
                           + (if k < |images| then [UrlCreated(old(browser.nextHandle) + k)] else [])
    ensures browser.nextHandle == old(browser.nextHandle) + k + (if k < |images| then 1 else 0)
  {
    var h0 := browser.nextHandle;
    ghost var log0 := browser.log;
    k := 0;
    while k < |images|
      invariant k <= |images| && AddedUpTo(canvas, gif, browser, images, h0, log0, k, fill, fo)
    {
      var ok := ExportStep(canvas, gif, browser, images, h0, log0, k, fill, fo);
      if !ok {
        return;
      }
      k := k + 1;
    }
  }

  /** The state after the first `k` items were added: they could all be
      loaded, each took one handle, their events are logged, and the canvas
      and the encoder hold what drawing them made. */
  ghost predicate AddedUpTo(canvas: Canvas, gif: Gif, browser: Browser, images: seq<ImageItem>, h0: nat, log0: seq<Event>,
                            k: nat, fill: string, fo: FrameOptions)
    requires k <= |images|
    reads canvas, gif, browser
  {
    Added(browser.nextHandle, browser.log, canvas.paints, gif.frames, images, h0, log0, k, canvas.width, fill, fo)
  }

  /** `AddedUpTo` over the values of the state. */
  ghost predicate Added(handle: nat, log: seq<Event>, paints: seq<Paint>, frames: seq<Frame>, images: seq<ImageItem>,
                        h0: nat, log0: seq<Event>, k: nat, side: nat, fill: string, fo: FrameOptions)
    requires k <= |images|
  {
    && Loadable(images, k)
    && handle == h0 + k
    && log == log0 + ExportEvents(images, h0, k)
    && paints == History(side, fill, LoadedSources(images, h0, k))
    && frames == Frames(side, fill, LoadedSources(images, h0, k), fo)
  }

  /** Adding item `k`, when it loads, takes the state after `k` items to
      the state after `k + 1`. */
  lemma AddedStep(handle: nat, log: seq<Event>, paints: seq<Paint>, frames: seq<Frame>, images: seq<ImageItem>,
                  h0: nat, log0: seq<Event>, k: nat, side: nat, fill: string, fo: FrameOptions)
    requires k < |images| && Added(handle, log, paints, frames, images, h0, log0, k, side, fill, fo)
    requires Decodable(Data(images[k].file))
    ensures var paints' := paints + StepPaints(side, fill, Decoded(images[k].file, handle).source);
      Added(handle + 1, log + ItemEvents(images[k].file, handle), paints', frames + [Frame(paints', fo)],
            images, h0, log0, k + 1, side, fill, fo)
  {
    var paints' := paints + StepPaints(side, fill, Decoded(images[k].file, handle).source);
    assert Loadable(images, k + 1);
    LogStep(log, images, h0, log0, k, handle);
    PaintsStep(paints, images, h0, k, handle, side, fill);
    FramesStep(frames, paints', images, h0, k, side, fill, fo);
  }

  lemma LogStep(log: seq<Event>, images: seq<ImageItem>, h0: nat, log0: seq<Event>, k: nat, handle: nat)
    requires k < |images| && handle == h0 + k && log == log0 + ExportEvents(images, h0, k)
    ensures log + ItemEvents(images[k].file, handle) == log0 + ExportEvents(images, h0, k + 1)
  {
    var n := k + 1;
    EventsSnoc(images, h0, n);
    assert n - 1 == k && h0 + n - 1 == handle;
    var e, i := ExportEvents(images, h0, k), ItemEvents(images[k].file, handle);
    assert ExportEvents(images, h0, n) == e + i;
    AppendAssoc(log0, e, i);
  }

  lemma EventsSnoc(images: seq<ImageItem>, h0: nat, n: nat)
    requires 0 < n <= |images|
    ensures ExportEvents(images, h0, n) == ExportEvents(images, h0, n - 1) + ItemEvents(images[n - 1].file, h0 + n - 1)
  {
  }

  lemma PaintsStep(paints: seq<Paint>, images: seq<ImageItem>, h0: nat, k: nat, handle: nat, side: nat, fill: string)
    requires k < |images| && handle == h0 + k && paints == History(side, fill, LoadedSources(images, h0, k))
    ensures paints + StepPaints(side, fill, Decoded(images[k].file, handle).source)
         == History(side, fill, LoadedSources(images, h0, k + 1))
  {
    NextSources(images, h0, k);
    HistorySnoc(side, fill, LoadedSources(images, h0, k), Decoded(images[k].file, h0 + k).source);
  }

  lemma FramesStep(frames: seq<Frame>, paints: seq<Paint>, images: seq<ImageItem>, h0: nat, k: nat, side: nat,
                   fill: string, fo: FrameOptions)
    requires k < |images| && frames == Frames(side, fill, LoadedSources(images, h0, k), fo)
    requires paints == History(side, fill, LoadedSources(images, h0, k + 1))
    ensures frames + [Frame(paints, fo)] == Frames(side, fill, LoadedSources(images, h0, k + 1), fo)
  {
    NextSources(images, h0, k);
    FramesSnoc(side, fill, LoadedSources(images, h0, k), Decoded(images[k].file, h0 + k).source, fo);
  }

  /** The loop body of the export, from the state after `k` items to the
      state after `k + 1`, or to the failure of item `k`. */
  method ExportStep(canvas: Canvas, gif: Gif, browser: Browser, images: seq<ImageItem>, h0: nat, ghost log0: seq<Event>,
                    k: nat, fill: string, fo: FrameOptions)
    returns (ok: bool)
    requires fo.copy && canvas.width == canvas.height
    requires k < |images| && AddedUpTo(canvas, gif, browser, images, h0, log0, k, fill, fo)
    modifies canvas, gif, browser
    ensures ok <==> Decodable(Data(images[k].file))
    ensures ok ==> AddedUpTo(canvas, gif, browser, images, h0, log0, k + 1, fill, fo)
    ensures !ok ==>
      && browser.nextHandle == h0 + k + 1
      && browser.log == log0 + ExportEvents(images, h0, k) + [UrlCreated(h0 + k)]
      && gif.frames == old(gif.frames)
  {
    ghost var handle, log, paints, frames := browser.nextHandle, browser.log, canvas.paints, gif.frames;
    ok := AddImage(canvas, gif, browser, images[k].file, fill, fo);
    if ok {
      AddedStep(handle, log, paints, frames, images, h0, log0, k, canvas.width, fill, fo);
    }
  }

  /** One turn of the export loop: clear the square, load the image, draw
      it, add the canvas as a frame, release the drawable. Reports whether
      the image could be loaded. */
  method AddImage(canvas: Canvas, gif: Gif, browser: Browser, file: ImageBinary, fill: string, fo: FrameOptions)
    returns (ok: bool)
    requires fo.copy && canvas.width == canvas.height
    modifies canvas, gif, browser
    ensures ok <==> Decodable(Data(file))
    ensures browser.nextHandle == old(browser.nextHandle) + 1
    ensures ok ==>
      && browser.log == old(browser.log) + ItemEvents(file, old(browser.nextHandle))
      && canvas.paints == old(canvas.paints) + StepPaints(canvas.width, fill, Decoded(file, old(browser.nextHandle)).source)
      && gif.frames == old(gif.frames) + [Frame(canvas.paints, fo)]
    ensures !ok ==> browser.log == old(browser.log) + [UrlCreated(old(browser.nextHandle))] && gif.frames == old(gif.frames)
  {
    var side := canvas.width;
    canvas.SetFillStyle(fill);
    canvas.FillRect(0, 0, side, side);
    var load := LoadDrawable(file, browser.nextHandle);
    browser.Perform(load);
    if load.result.Err? {
      return false;
    }
    var d := load.result.value;
    var (srcW, srcH) := GetSourceSize(d.source);
    canvas.DrawImage(d.source, ContainFit(side, srcW, srcH));
    gif.AddFrame(canvas, fo);
    browser.Release(d);
    return true;
  }

  lemma FirstUndecodableAt(items: seq<ImageItem>, i: nat)
    requires i < |items| && Loadable(items, i) && !Decodable(Data(items[i].file))
    ensures !AllDecodable(items) && FirstUndecodable(items) == i
  {
  }

  lemma HistorySnoc(side: nat, fill: string, srcs: seq<Source>, src: Source)
    ensures History(side, fill, srcs + [src]) == History(side, fill, srcs) + StepPaints(side, fill, src)
  {
    assert (srcs + [src])[..|srcs|] == srcs;
  }

  lemma FramesSnoc(side: nat, fill: string, srcs: seq<Source>, src: Source, fo: FrameOptions)
    ensures Frames(side, fill, srcs + [src], fo) == Frames(side, fill, srcs, fo) + [Frame(History(side, fill, srcs + [src]), fo)]
  {
    assert (srcs + [src])[..|srcs|] == srcs;
  }

  lemma NextSources(images: seq<ImageItem>, h0: nat, k: nat)
    requires k < |images|
    ensures LoadedSources(images, h0, k + 1) == LoadedSources(images, h0, k) + [Decoded(images[k].file, h0 + k).source]
  {
  }

  lemma AppendAssoc(a: seq<Event>, b: seq<Event>, c: seq<Event>)
    ensures a + (b + c) == a + b + c
  {
  }

  /** The `i`-th source loaded is the drawable of the `i`-th item, decoded
      with the `i`-th handle. */
  lemma {:induction false} LoadedSourcesAt(items: seq<ImageItem>, h0: nat, n: nat, i: nat)
    requires i < n <= |items|
    ensures LoadedSources(items, h0, n)[i] == Decoded(items[i].file, h0 + i).source
    decreases n
  {
    if i < n - 1 {
      LoadedSourcesAt(items, h0, n - 1, i);
    }
  }

  /** The two painting calls made for the `i`-th source. */
  lemma {:induction false} HistoryAt(side: nat, fill: string, srcs: seq<Source>, i: nat)
    requires i < |srcs|
    ensures History(side, fill, srcs)[2 * i] == Fill(fill, 0, 0, side, side)
    ensures History(side, fill, srcs)[2 * i + 1]
         == Draw(srcs[i], ContainFit(side, GetSourceSize(srcs[i]).0, GetSourceSize(srcs[i]).1))
    decreases |srcs|
  {
    var init := srcs[..|srcs| - 1];
    if i < |srcs| - 1 {
      HistoryAt(side, fill, init, i);
      assert init[i] == srcs[i];
    }
  }

  /** Frame `i` holds exactly the painting calls made up to and including
      the `i`-th source. */
  lemma {:induction false} FramesAt(side: nat, fill: string, srcs: seq<Source>, fo: FrameOptions, i: nat)
    requires i < |srcs|
    ensures Frames(side, fill, srcs, fo)[i] == Frame(History(side, fill, srcs[..i + 1]), fo)
    decreases |srcs|
  {
    var init := srcs[..|srcs| - 1];
    if i < |srcs| - 1 {
      FramesAt(side, fill, init, fo, i);
      assert init[..i + 1] == srcs[..i + 1];
    } else {
      assert srcs[..i + 1] == srcs;
    }
  }

  /** What frame `i` of an export shows: the canvas history of the first
      `i + 1` items, ending with the whole square filled with `fill` and the
      `i`-th picture drawn over it in its contain-fit rectangle, with the
      delay and disposal of `fo`. */
  lemma FrameShowsItem(items: seq<ImageItem>, h0: nat, side: nat, fill: string, fo: FrameOptions, i: nat)
    requires i < |items|
    ensures var f := Frames(side, fill, LoadedSources(items, h0, |items|), fo)[i];
      var b := Data(items[i].file);
      && f.options == fo
      && |f.pixels| == 2 * (i + 1)
      && f.pixels[2 * i] == Fill(fill, 0, 0, side, side)
      && f.pixels[2 * i + 1].Draw?
      && f.pixels[2 * i + 1].source == Decoded(items[i].file, h0 + i).source
      && f.pixels[2 * i + 1].source.picture == b.id
      && f.pixels[2 * i + 1].at == ContainFit(side, b.width, b.height)
  {
    var srcs := LoadedSources(items, h0, |items|);
    FramesAt(side, fill, srcs, fo, i);
    var prefix := srcs[..i + 1];
    HistoryAt(side, fill, prefix, i);
    LoadedSourcesAt(items, h0, |items|, i);
    assert prefix[i] == srcs[i];
  }

  /** A load followed by its release: the resource of handle `h` is created,
      then released the same way. */
  lemma ItemEventsShape(b: ImageBinary, h: nat)
    ensures ItemEvents(b, h)
         == if Data(b).bitmapDecodes then [BitmapCreated(h), BitmapClosed(h)] else [UrlCreated(h), UrlRevoked(h)]
  {
  }

  /** Events `2 j` and `2 j + 1` of an export create and release the
      resource of the `j`-th handle, of the same kind. */
  predicate Paired(evs: seq<Event>, h0: nat, j: nat)
    requires 2 * j + 1 < |evs|
  {
    && IsCreation(evs[2 * j], h0 + j) && IsRelease(evs[2 * j + 1], h0 + j)
    && (evs[2 * j].BitmapCreated? <==> evs[2 * j + 1].BitmapClosed?)
  }

  /** Exporting `n` items creates `n` resources, each released right after
      its frame was taken, so none stays open. */
  lemma {:induction false} ExportEventsPaired(items: seq<ImageItem>, h0: nat, n: nat)
    requires n <= |items|
    ensures |ExportEvents(items, h0, n)| == 2 * n
    ensures forall j :: 0 <= j < n ==> Paired(ExportEvents(items, h0, n), h0, j)
  {
    if n > 0 {
      ExportEventsPaired(items, h0, n - 1);
      var prev := ExportEvents(items, h0, n - 1);
      var item := ItemEvents(items[n - 1].file, h0 + n - 1);
      EventsSnoc(items, h0, n);
      ItemEventsShape(items[n - 1].file, h0 + n - 1);
      forall j | 0 <= j < n
        ensures Paired(prev + item, h0, j)
      {
        if j < n - 1 {
          PairedPrefix(prev, item, h0, j);
        } else {
          PairedLast(prev, item, h0, j);
        }
      }
    }
  }

  /** A pair already in the log stays paired as the log grows. */
  lemma PairedPrefix(prev: seq<Event>, tail: seq<Event>, h0: nat, j: nat)
    requires 2 * j + 1 < |prev| && Paired(prev, h0, j)
    ensures Paired(prev + tail, h0, j)
  {
    assert (prev + tail)[2 * j] == prev[2 * j] && (prev + tail)[2 * j + 1] == prev[2 * j + 1];
  }

  /** The two events of the item with handle `h0 + j`, after `j` pairs. */
  lemma PairedLast(prev: seq<Event>, item: seq<Event>, h0: nat, j: nat)
    requires |prev| == 2 * j
    requires item == [BitmapCreated(h0 + j), BitmapClosed(h0 + j)] || item == [UrlCreated(h0 + j), UrlRevoked(h0 + j)]
    ensures Paired(prev + item, h0, j)
  {
    assert (prev + item)[2 * j] == item[0] && (prev + item)[2 * j + 1] == item[1];
  }
}
