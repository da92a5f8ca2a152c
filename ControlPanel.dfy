/**
 * The export and import settings panel: numeric inputs read through
 * `limitNum`, and the two selects whose option values are strings.
 */
module ControlPanel {
  import opened JsString
  import opened JsNumber

  /** `Math.min(max, Math.max(min, n))` for a finite `n`. */
  function ClampFinite(x: real, min: real, max: real): (r: real)
    ensures min <= max ==> min <= r <= max
    ensures min <= x <= max ==> r == x
    ensures min <= max && x < min ==> r == min
    ensures min <= max && x > max ==> r == max
  {
    var lo := Max(Finite(min), Finite(x));
    Min(Finite(max), lo).v
  }

  /** Clamping twice is clamping once. */
  lemma ClampIdempotent(x: real, min: real, max: real)
    requires min <= max
    ensures ClampFinite(ClampFinite(x, min, max), min, max) == ClampFinite(x, min, max)
  {
  }

  /** `limitNum(v, min, max, fallback)`: the input's text read with
      `Number`, clamped to `[min, max]` when finite, and `fallback`
      otherwise. */
  function LimitNum(v: string, min: real, max: real, fallback: real): (r: real)
    ensures IsFinite(ToNumber(v)) && min <= max ==> min <= r <= max
    ensures !IsFinite(ToNumber(v)) ==> r == fallback
    ensures IsFinite(ToNumber(v)) && min <= ToNumber(v).v <= max ==> r == ToNumber(v).v
  {
    var n := ToNumber(v);
    if IsFinite(n) then ClampFinite(n.v, min, max) else fallback
  }

  /** An empty or blank field reads as 0, so it is clamped to `min`
      rather than replaced by `fallback`. */
  lemma LimitNumBlank(v: string, min: real, max: real, fallback: real)
    requires Trim(v) == [] && 0.0 <= min <= max
    ensures LimitNum(v, min, max, fallback) == min
  {
  }

  /** A field holding the decimal numeral of a value in range reads as
      that value. */
  lemma LimitNumNumeral(s: string, min: real, max: real, fallback: real)
    requires |s| >= 1 && AllDigits(s, 10)
    requires min <= DigitsValue(s, 10) as real <= max
    ensures LimitNum(s, min, max, fallback) == DigitsValue(s, 10) as real
  {
    ToNumberDigits(s);
  }

  /** The frame delay field: 50 to 5000 ms, 500 when unreadable. */
  function FrameMsInput(v: string): (ms: real)
    ensures 50.0 <= ms <= 5000.0
    ensures !IsFinite(ToNumber(v)) ==> ms == 500.0
  {
    LimitNum(v, 50.0, 5000.0, 500.0)
  }

  /** The custom size field: 64 to 2048 px, 640 when unreadable. */
  function CustomSizeInput(v: string): (px: real)
    ensures 64.0 <= px <= 2048.0
    ensures !IsFinite(ToNumber(v)) ==> px == 640.0
  {
    LimitNum(v, 64.0, 2048.0, 640.0)
  }

  /** The quality field: 1 to 30, 10 when unreadable. */
  function QualityInput(v: string): (q: real)
    ensures 1.0 <= q <= 30.0
    ensures !IsFinite(ToNumber(v)) ==> q == 10.0
  {
    LimitNum(v, 1.0, 30.0, 10.0)
  }

  /** The export size preset: the stage's width, or a fixed side. */
  datatype SizePreset = Stage | Side(px: Num)

  /** The size select's change handler: `"stage"` or `Number(v)`. */
  function SizePresetOf(v: string): (p: SizePreset)
    ensures p.Stage? <==> v == "stage"
    ensures p.Side? ==> p.px == ToNumber(v)
  {
    if v == "stage" then Stage else Side(ToNumber(v))
  }

  /** A number `String` writes as a plain decimal numeral. */
  predicate IsWholeNumber(n: Num) {
    n.Finite? && n.v >= 0.0 && n.v == n.v.Floor as real
  }

  /** `String(preset)`, the select's value. */
  function PresetValue(p: SizePreset): string
    requires p.Side? ==> IsWholeNumber(p.px)
  {
    match p
    case Stage => "stage"
    case Side(px) => DecimalDigits(px.v.Floor)
  }

  /** Choosing an option of the size select sets the preset it displays:
      the change handler undoes `String`, for `"stage"` and for every
      whole-number side, among them the offered 256, 512 and 720. */
  lemma SizePresetRoundTrip(p: SizePreset)
    requires p.Side? ==> IsWholeNumber(p.px)
    ensures SizePresetOf(PresetValue(p)) == p
  {
    if p.Side? {
      var d := DecimalDigits(p.px.v.Floor);
      NotAWord(d, "stage");
      ToNumberDigits(d);
    }
  }

  /** The maximum-edge setting of the import: off, or a number of pixels. */
  datatype MaxEdge = Off | Edge(px: Num)

  /** The import select's change handler: `"off"` or `Number(v)`. */
  function MaxEdgeOf(v: string): (m: MaxEdge)
    ensures m.Off? <==> v == "off"
    ensures m.Edge? ==> m.px == ToNumber(v)
  {
    if v == "off" then Off else Edge(ToNumber(v))
  }

  /** `String(importMaxEdge)`, the select's value. */
  function MaxEdgeValue(m: MaxEdge): string
    requires m.Edge? ==> IsWholeNumber(m.px)
  {
    match m
    case Off => "off"
    case Edge(px) => DecimalDigits(px.v.Floor)
  }

  /** Choosing an option of the import select sets the setting it displays,
      for `"off"` and every whole number of pixels, among them the offered
      1024, 1536 and 2048. */
  lemma MaxEdgeRoundTrip(m: MaxEdge)
    requires m.Edge? ==> IsWholeNumber(m.px)
    ensures MaxEdgeOf(MaxEdgeValue(m)) == m
  {
    if m.Edge? {
      var d := DecimalDigits(m.px.v.Floor);
      NotAWord(d, "off");
      ToNumberDigits(d);
    }
  }

  /** A numeral is not a word that starts with a letter. */
  lemma NotAWord(d: string, w: string)
    requires |d| >= 1 && '0' <= d[0] <= '9' && |w| >= 1 && 'a' <= w[0] <= 'z'
    ensures d != w
  {
    assert d[0] != w[0];
  }
}
