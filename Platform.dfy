/**
 * The browser and the GIF encoder, reduced to what the flipbook's logic can
 * observe: image data and what the two decoders make of it, decoded sources,
 * drawables with their optional release operations, a log of the decoder
 * resources and object URLs created and released, a 2D canvas that records
 * what is painted on it, and an encoder that collects frames.
 */
module Platform {
  import opened Wrappers
  import opened JsNumber

  /** Binary image data (a `Blob`): its MIME type, the size of the picture
      it holds, and whether `createImageBitmap` and an `<img>` element can
      decode it. `id` names the picture. */
  datatype Binary = Binary(id: nat, mime: string, width: nat, height: nat, bitmapDecodes: bool, elementDecodes: bool)

  /** A picked `File`: a `Blob` with a name. */
  datatype File = File(name: string, data: Binary)

  /** `ImageBinary = File | Blob`. */
  datatype ImageBinary = FileData(file: File) | BlobData(blob: Binary)

  function Data(b: ImageBinary): Binary {
    match b
    case FileData(f) => f.data
    case BlobData(d) => d
  }

  predicate Decodable(b: Binary) {
    b.bitmapDecodes || b.elementDecodes
  }

  /** A `CanvasImageSource`. An `<img>` element has a natural size and a
      layout size; a canvas has its bitmap size; every other kind
      (`ImageBitmap`, `<video>`, an SVG image, a `VideoFrame`) may or may not
      carry numeric `width` and `height` properties. */
  datatype Source =
    | ImageElement(picture: nat, naturalWidth: nat, naturalHeight: nat, width: nat, height: nat)
    | CanvasElement(picture: nat, width: nat, height: nat)
    | OtherSource(picture: nat, numericWidth: Option<nat>, numericHeight: Option<nat>)

  /** A decoded source and its optional release operations: `close` names
      the decoder resource it frees, `revoke` the object URL it revokes. */
  datatype Drawable = Drawable(source: Source, close: Option<nat>, revoke: Option<nat>)

  /** What the platform records: decoder resources and object URLs being
      created and released, and canvas encodings being requested. */
  datatype Event =
    | BitmapCreated(handle: nat)
    | BitmapClosed(handle: nat)
    | UrlCreated(handle: nat)
    | UrlRevoked(handle: nat)
    | EncodeRequested(width: nat, height: nat, mime: string, quality: real)

  predicate IsCreation(e: Event, h: nat) {
    e == BitmapCreated(h) || e == UrlCreated(h)
  }

  predicate IsRelease(e: Event, h: nat) {
    e == BitmapClosed(h) || e == UrlRevoked(h)
  }

  /** The events of `drawable.close?.(); drawable.revoke?.()`. */
  function ReleaseEvents(d: Drawable): (evs: seq<Event>)
    ensures |evs| <= 2
    ensures d.close.Some? && d.revoke.None? ==> evs == [BitmapClosed(d.close.value)]
    ensures d.close.None? && d.revoke.Some? ==> evs == [UrlRevoked(d.revoke.value)]
    ensures d.close.None? && d.revoke.None? ==> evs == []
  {
    (if d.close.Some? then [BitmapClosed(d.close.value)] else [])
    + (if d.revoke.Some? then [UrlRevoked(d.revoke.value)] else [])
  }

  /** The effect of one step on the platform: the events it records and the
      number of fresh handles it uses, beside what it returns. */
  datatype Run<T> = Run(result: T, events: seq<Event>, used: nat)

  /** The platform's mutable state: its event log and the next fresh handle
      for a bitmap, an object URL or an encoded blob. */
  class Browser {
    var log: seq<Event>
    var nextHandle: nat

    constructor ()
      ensures log == [] && nextHandle == 0
    {
      log := [];
      nextHandle := 0;
    }

    /** Applies the effect of one step. */
    method Perform<T>(run: Run<T>)
      modifies this
      ensures log == old(log) + run.events
      ensures nextHandle == old(nextHandle) + run.used
    {
      log := log + run.events;
      nextHandle := nextHandle + run.used;
    }

    method Release(d: Drawable)
      modifies this
      ensures log == old(log) + ReleaseEvents(d)
      ensures nextHandle == old(nextHandle)
    {
      log := log + ReleaseEvents(d);
    }
  }

  /** The arguments of `drawImage(src, dx, dy, dw, dh)`. */
  datatype Rect = Rect(x: Num, y: Num, w: Num, h: Num)

  /** One painting call on a 2D context. */
  datatype Paint =
    | Fill(style: string, x: int, y: int, w: int, h: int)
    | Draw(source: Source, at: Rect)

  /** A canvas with its 2D context. The picture it holds is the sequence of
      painting calls made on it since it was created. */
  class Canvas {
    const width: nat
    const height: nat
    var fillStyle: string
    var paints: seq<Paint>

    constructor (w: nat, h: nat)
      ensures width == w && height == h && paints == [] && fillStyle == "#000000"
    {
      width, height := w, h;
      fillStyle := "#000000";
      paints := [];
    }

    /** `ctx.fillStyle = style` for a valid CSS colour. */
    method SetFillStyle(style: string)
      modifies this
      ensures fillStyle == style && paints == old(paints)
    {
      fillStyle := style;
    }

    /** `ctx.fillRect(x, y, w, h)` with the current fill style. */
    method FillRect(x: int, y: int, w: int, h: int)
      modifies this
      ensures paints == old(paints) + [Fill(fillStyle, x, y, w, h)]
      ensures fillStyle == old(fillStyle)
    {
      paints := paints + [Fill(fillStyle, x, y, w, h)];
    }

    /** `ctx.drawImage(src, dx, dy, dw, dh)`. */
    method DrawImage(src: Source, at: Rect)
      modifies this
      ensures paints == old(paints) + [Draw(src, at)]
      ensures fillStyle == old(fillStyle)
    {
      paints := paints + [Draw(src, at)];
    }
  }

  /** The options of `new GIF({...})`; `background` is absent when not given. */
  datatype GifOptions = GifOptions(workers: nat, width: nat, height: nat, quality: real, repeat: int, background: Option<string>)

  /** The options of `gif.addFrame(ctx, {...})`. */
  datatype FrameOptions = FrameOptions(copy: bool, delay: real, dispose: int)

  /** A frame as the encoder holds it: the picture of the canvas when it was
      added, and its options. */
  datatype Frame = Frame(pixels: seq<Paint>, options: FrameOptions)

  /** The encoder object: its options, fixed at construction, and the frames
      added so far, in order. */
  class Gif {
    const options: GifOptions
    var frames: seq<Frame>

    constructor (o: GifOptions)
      ensures options == o && frames == []
    {
      options := o;
      frames := [];
    }

    /** `gif.addFrame(ctx, o)` with `copy: true`: the canvas picture is
        copied at the time of the call. */
    method AddFrame(canvas: Canvas, o: FrameOptions)
      requires o.copy
      modifies this
      ensures frames == old(frames) + [Frame(canvas.paints, o)]
    {
      frames := frames + [Frame(canvas.paints, o)];
    }
  }
}
