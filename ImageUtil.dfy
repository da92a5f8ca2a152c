/**
 * Loading pictures into drawables, reading their size, and reducing a
 * picked file to a maximum edge before it is imported. Every operation is a
 * function from the platform's next fresh handle to a `Run`: what it
 * returns or throws, the resource events it causes, and the handles it uses.
 */
module ImageUtil {
  import opened Wrappers
  import opened JsNumber
  import opened Platform

  /** What a failed operation throws. */
  datatype Failure = DecodeFailed | EncodeFailed | ContextUnavailable

  /** Whether `src` carries numeric `width` and `height` properties: image
      and canvas elements always do. */
  predicate HasNumericWH(src: Source) {
    match src
    case OtherSource(_, w, h) => w.Some? && h.Some?
    case _ => true
  }

  /** The width and height of a source: the natural size of an image
      element, the bitmap size of a canvas, the numeric `width` and `height`
      of anything else that has them, and (0, 0) otherwise. */
  function GetSourceSize(src: Source): (size: (nat, nat))
    ensures src.ImageElement? ==> size == (src.naturalWidth, src.naturalHeight)
    ensures src.CanvasElement? ==> size == (src.width, src.height)
    ensures src.OtherSource? && HasNumericWH(src) ==> size == (src.numericWidth.value, src.numericHeight.value)
    ensures !HasNumericWH(src) ==> size == (0, 0)
  {
    match src
    case ImageElement(_, nw, nh, _, _) => (nw, nh)
    case CanvasElement(_, w, h) => (w, h)
    case OtherSource(_, w, h) => if w.Some? && h.Some? then (w.value, h.value) else (0, 0)
  }

  /** The drawable a successful load of `file` yields when handle `h` names
      its bitmap or its URL: a bitmap, closed with `h`, when
      `createImageBitmap` accepts the data; otherwise an `<img>` element
      whose URL `h` is revoked. */
  function Decoded(file: ImageBinary, h: nat): Drawable {
    var b := Data(file);
    if b.bitmapDecodes then Drawable(OtherSource(b.id, Some(b.width), Some(b.height)), Some(h), None)
    else Drawable(ImageElement(b.id, b.width, b.height, b.width, b.height), None, Some(h))
  }

  /** The resource a load of `file` creates first: a bitmap, or an object URL
      once `createImageBitmap` has failed. */
  function LoadEvent(file: ImageBinary, h: nat): Event {
    if Data(file).bitmapDecodes then BitmapCreated(h) else UrlCreated(h)
  }

  /** Decodes `file` with `createImageBitmap`; when that fails, through an
      object URL and an `<img>` element. The handle `h` names the bitmap or
      the URL. A failed element decode propagates, and the URL it created is
      never revoked. */
  function LoadDrawable(file: ImageBinary, h: nat): (r: Run<Result<Drawable, Failure>>)
    ensures r.used == 1 && r.events == [LoadEvent(file, h)]
    ensures IsCreation(r.events[0], h)
    ensures r.result.Ok? <==> Decodable(Data(file))
    ensures r.result.Err? ==> r.result.error == DecodeFailed
    ensures r.result.Ok? ==> r.result.value == Decoded(file, h)
    ensures r.result.Ok? ==>
      var d := r.result.value;
      && (d.close.Some? <==> Data(file).bitmapDecodes)
      && (d.revoke.Some? <==> !Data(file).bitmapDecodes)
      && d.source.picture == Data(file).id
      && GetSourceSize(d.source) == (Data(file).width, Data(file).height)
      && ReleaseEvents(d) == [if Data(file).bitmapDecodes then BitmapClosed(h) else UrlRevoked(h)]
  {
    if Decodable(Data(file)) then Run(Ok(Decoded(file, h)), [LoadEvent(file, h)], 1)
    else Run(Err(DecodeFailed), [LoadEvent(file, h)], 1)
  }

  /** Loading then releasing a drawable creates exactly one resource and
      releases exactly that one. */
  lemma LoadThenRelease(file: ImageBinary, h: nat)
    requires Decodable(Data(file))
    ensures var r := LoadDrawable(file, h);
      && |r.events + ReleaseEvents(r.result.value)| == 2
      && IsCreation((r.events + ReleaseEvents(r.result.value))[0], h)
      && IsRelease((r.events + ReleaseEvents(r.result.value))[1], h)
      && ((r.events + ReleaseEvents(r.result.value))[0].BitmapCreated?
          <==> (r.events + ReleaseEvents(r.result.value))[1].BitmapClosed?)
  {
  }

  /** The re-encoding formats a caller may ask for. */
  datatype Format = Jpeg | Webp

  function FormatMime(f: Format): string {
    match f
    case Jpeg => "image/jpeg"
    case Webp => "image/webp"
  }

  function MaxNat(a: nat, b: nat): nat {
    if a >= b then a else b
  }

  /** The size a source larger than `maxEdge` is reduced to: both sides
      scaled by `maxEdge / max(srcW, srcH)` and rounded. */
  function DownscaleTarget(srcW: nat, srcH: nat, maxEdge: nat): (t: (nat, nat))
    requires srcW > 0 && srcH > 0 && MaxNat(srcW, srcH) > maxEdge
    ensures MaxNat(t.0, t.1) == maxEdge
    ensures t.0 <= srcW && t.1 <= srcH
    ensures -0.5 <= t.0 as real - srcW as real * (maxEdge as real / MaxNat(srcW, srcH) as real) <= 0.5
    ensures -0.5 <= t.1 as real - srcH as real * (maxEdge as real / MaxNat(srcW, srcH) as real) <= 0.5
  {
    var m := MaxNat(srcW, srcH);
    ScaledFits(srcW, m, maxEdge);
    ScaledFits(srcH, m, maxEdge);
    LargerSideScaled(m, maxEdge);
    (RoundReal(srcW as real * (maxEdge as real / m as real)) as nat,
     RoundReal(srcH as real * (maxEdge as real / m as real)) as nat)
  }

  /** The larger side, scaled by `edge / m`, is exactly `edge`. */
  lemma LargerSideScaled(m: nat, edge: nat)
    requires m > 0
    ensures RoundReal(m as real * (edge as real / m as real)) == edge
  {
    DivMul(edge as real, m as real);
    assert m as real * (edge as real / m as real) == edge as real;
    RoundRealOfInt(edge);
  }

  /** A side `n` of a source whose larger side `m` exceeds `edge`, scaled by
      `edge / m`, rounds to a value in `[0, min(n, edge)]`. */
  lemma ScaledFits(n: nat, m: nat, edge: nat)
    requires 0 < n <= m && edge < m
    ensures 0 <= RoundReal(n as real * (edge as real / m as real)) <= n
    ensures RoundReal(n as real * (edge as real / m as real)) <= edge
  {
    var nr, mr, er := n as real, m as real, edge as real;
    var q := er / mr;
    var x := nr * q;
    ShrunkSide(nr, mr, er, q, x);
    RoundedBelow(x, n, edge);
  }

  /** A side `n <= m`, scaled by `q = e / m < 1`, lands in `[0, e]` and below `n`. */
  lemma ShrunkSide(n: real, m: real, e: real, q: real, x: real)
    requires 0.0 < n <= m && 0.0 <= e < m && q == e / m && x == n * q
    ensures 0.0 <= x <= e && x < n
  {
    ShrinkFactor(e, m);
    ProductBounds(n, m, q);
  }

  /** `e / m` for `0 <= e < m` is a factor in `[0, 1)` that takes `m` to `e`. */
  lemma ShrinkFactor(e: real, m: real)
    requires 0.0 <= e < m
    ensures 0.0 <= e / m < 1.0 && m * (e / m) == e
  {
    DivMul(e, m);
    QuotientBounds(e, m);
  }

  /** A value in `[0, edge]` and below `n` rounds into `[0, min(n, edge)]`. */
  lemma RoundedBelow(x: real, n: nat, edge: nat)
    requires 0.0 <= x <= edge as real && x < n as real
    ensures 0 <= RoundReal(x) <= n && RoundReal(x) <= edge
  {
    RoundRealMonotone(0.0, x);
    RoundRealMonotone(x, edge as real);
    RoundRealOfInt(0);
    RoundRealOfInt(edge);
  }

  /** Reduces `file` so that its larger side is `maxEdge`, and re-encodes
      it; returns `file` itself when it is small enough, has a zero side, or
      no 2D context can be had. `ctxAvailable` says whether `getContext("2d")`
      succeeds; `encodedMime` is the type of the blob `toBlob` produces for a
      canvas with pixels (`None` when it produces none). A canvas with a zero
      side has no pixels, and `toBlob` then produces nothing. */
  function DownscaleIfNeeded(file: File, maxEdge: nat, h: nat, ctxAvailable: bool, encodedMime: Option<string>,
                             format: Format := Jpeg, quality: real := 0.85): (r: Run<Result<ImageBinary, Failure>>)
    // a file no decoder accepts: the load throws and its URL stays open
    ensures !Decodable(file.data) ==> r.result == Err(DecodeFailed) && r.events == [UrlCreated(h)]
    ensures Decodable(file.data) ==>
      var (w, hh) := (file.data.width, file.data.height);
      && |r.events| >= 1 && IsCreation(r.events[0], h)
      && (w == 0 || hh == 0 || MaxNat(w, hh) <= maxEdge || !ctxAvailable
          ==> r.result == Ok(FileData(file)) && r.used == 1 && |r.events| == 2 && IsRelease(r.events[1], h))
      && (w > 0 && hh > 0 && MaxNat(w, hh) > maxEdge && ctxAvailable ==>
            var (tw, th) := DownscaleTarget(w, hh, maxEdge);
            && |r.events| >= 2 && r.events[1] == EncodeRequested(tw, th, FormatMime(format), quality)
            && (if tw > 0 && th > 0 && encodedMime.Some? then
                  && r.result == Ok(BlobData(Binary(h + 1, encodedMime.value, tw, th, true, true)))
                  && r.used == 2 && |r.events| == 3 && IsRelease(r.events[2], h)
                else
                  // `toBlob` produced nothing: the call throws and the drawable stays open
                  r.result == Err(EncodeFailed) && r.used == 1 && |r.events| == 2))
  {
    var load := LoadDrawable(FileData(file), h);
    if load.result.Err? then Run(Err(load.result.error), load.events, 1)
    else
      var d := load.result.value;
      var (srcW, srcH) := GetSourceSize(d.source);
      if srcW == 0 || srcH == 0 || MaxNat(srcW, srcH) <= maxEdge then
        Run(Ok(FileData(file)), load.events + ReleaseEvents(d), 1)
      else
        var (w, hh) := DownscaleTarget(srcW, srcH, maxEdge);
        if !ctxAvailable then
          Run(Ok(FileData(file)), load.events + ReleaseEvents(d), 1)
        else
          var encode := load.events + [EncodeRequested(w, hh, FormatMime(format), quality)];
          if w > 0 && hh > 0 && encodedMime.Some? then
            Run(Ok(BlobData(Binary(h + 1, encodedMime.value, w, hh, true, true))), encode + ReleaseEvents(d), 2)
          else
            Run(Err(EncodeFailed), encode, 1)
  }

  /** A 3000 x 1 picture reduced to 1024 gets a target height of
      round(1024 / 3000) = 0. */
  lemma ThinSourceTargetEmpty()
    ensures DownscaleTarget(3000, 1, 1024) == (1024, 0)
  {
    var t := DownscaleTarget(3000, 1, 1024);
    assert t.1 as real - 1.0 * (1024.0 / 3000.0) <= 0.5;
  }

  /** So importing a decodable 3000 x 1 picture with a maximum edge of 1024
      throws, whatever the encoder supports. */
  lemma ThinSourceImportFails(name: string, id: nat, mime: string, h: nat, encodedMime: Option<string>)
    ensures DownscaleIfNeeded(File(name, Binary(id, mime, 3000, 1, true, true)), 1024, h, true, encodedMime).result
         == Err(EncodeFailed)
  {
    ThinSourceTargetEmpty();
  }

  /** The target with each side kept at one pixel at least, so that the
      reduced canvas always has pixels to encode. */
  function DownscaleTargetNonEmpty(srcW: nat, srcH: nat, maxEdge: nat): (t: (nat, nat))
    requires srcW > 0 && srcH > 0 && MaxNat(srcW, srcH) > maxEdge
    ensures t.0 >= 1 && t.1 >= 1
    ensures t.0 <= srcW && t.1 <= srcH
    ensures maxEdge >= 1 ==> MaxNat(t.0, t.1) == maxEdge
    ensures DownscaleTarget(srcW, srcH, maxEdge).0 >= 1 ==> t.0 == DownscaleTarget(srcW, srcH, maxEdge).0
    ensures DownscaleTarget(srcW, srcH, maxEdge).1 >= 1 ==> t.1 == DownscaleTarget(srcW, srcH, maxEdge).1
  {
    var (w, h) := DownscaleTarget(srcW, srcH, maxEdge);
    (MaxNat(1, w), MaxNat(1, h))
  }

  /** The import with the corrected target: a decodable picture is always
      returned, reduced whenever it is too large and a context and an
      encoder are to be had; where the import as written returns a picture,
      this returns the same one with the same events. */
  function DownscaleIfNeededCorrected(file: File, maxEdge: nat, h: nat, ctxAvailable: bool, encodedMime: Option<string>,
                                      format: Format := Jpeg, quality: real := 0.85): (r: Run<Result<ImageBinary, Failure>>)
    ensures !Decodable(file.data) ==> r.result == Err(DecodeFailed) && r.events == [UrlCreated(h)]
    ensures Decodable(file.data) && ctxAvailable && encodedMime.Some? ==> r.result.Ok?
    ensures Decodable(file.data) && ctxAvailable && encodedMime.Some?
            && file.data.width > 0 && file.data.height > 0 && MaxNat(file.data.width, file.data.height) > maxEdge ==>
      var (tw, th) := DownscaleTargetNonEmpty(file.data.width, file.data.height, maxEdge);
      && r.result == Ok(BlobData(Binary(h + 1, encodedMime.value, tw, th, true, true)))
      && tw >= 1 && th >= 1 && (maxEdge >= 1 ==> MaxNat(tw, th) == maxEdge)
    ensures DownscaleIfNeeded(file, maxEdge, h, ctxAvailable, encodedMime, format, quality).result.Ok? ==>
      r == DownscaleIfNeeded(file, maxEdge, h, ctxAvailable, encodedMime, format, quality)
  {
    var load := LoadDrawable(FileData(file), h);
    if load.result.Err? then Run(Err(load.result.error), load.events, 1)
    else
      var d := load.result.value;
      var (srcW, srcH) := GetSourceSize(d.source);
      if srcW == 0 || srcH == 0 || MaxNat(srcW, srcH) <= maxEdge then
        Run(Ok(FileData(file)), load.events + ReleaseEvents(d), 1)
      else
        var (w, hh) := DownscaleTargetNonEmpty(srcW, srcH, maxEdge);
        if !ctxAvailable then
          Run(Ok(FileData(file)), load.events + ReleaseEvents(d), 1)
        else
          var encode := load.events + [EncodeRequested(w, hh, FormatMime(format), quality)];
          if encodedMime.Some? then
            Run(Ok(BlobData(Binary(h + 1, encodedMime.value, w, hh, true, true))), encode + ReleaseEvents(d), 2)
          else
            Run(Err(EncodeFailed), encode, 1)
  }

  /** With the correction, the 3000 x 1 picture is reduced to 1024 x 1. */
  lemma ThinSourceImportCorrected(name: string, id: nat, mime: string, h: nat, encoded: string)
    ensures DownscaleIfNeededCorrected(File(name, Binary(id, mime, 3000, 1, true, true)), 1024, h, true, Some(encoded)).result
         == Ok(BlobData(Binary(h + 1, encoded, 1024, 1, true, true)))
  {
    ThinSourceTargetEmpty();
  }
}
