/**
 * The export progress bar: the fraction done, as a whole percentage held
 * to `[0, 100]`, sets the width of the filled part.
 */
module ProgressBar {
  import opened JsNumber

  /** `Math.max(0, Math.min(100, Math.round(progress * 100)))`. */
  function Pct(progress: Num): (p: Num)
    ensures p.NaN? <==> progress.NaN?
    ensures !progress.NaN? ==> p.Finite? && 0.0 <= p.v <= 100.0 && p.v == p.v.Floor as real
  {
    Max(Finite(0.0), Min(Finite(100.0), Round(Mul(progress, Finite(100.0)))))
  }

  /** A fraction in `[0, 1]` shows as its rounded percentage. */
  lemma PctOfFraction(x: real)
    requires 0.0 <= x <= 1.0
    ensures Pct(Finite(x)) == Finite(RoundReal(x * 100.0) as real)
  {
    RoundRealMonotone(0.0, x * 100.0);
    RoundRealMonotone(x * 100.0, 100.0);
    RoundRealOfInt(0);
    RoundRealOfInt(100);
  }

  /** Nothing done or less shows an empty bar; all done or more, a full one. */
  lemma PctSaturates(x: real)
    ensures x <= 0.0 ==> Pct(Finite(x)) == Finite(0.0)
    ensures x >= 1.0 ==> Pct(Finite(x)) == Finite(100.0)
  {
    if x <= 0.0 {
      RoundRealMonotone(x * 100.0, 0.0);
      RoundRealOfInt(0);
    }
    if x >= 1.0 {
      RoundRealMonotone(100.0, x * 100.0);
      RoundRealOfInt(100);
    }
  }

  /** The infinities land at the ends of the bar. */
  lemma PctInfinite()
    ensures Pct(PosInf) == Finite(100.0) && Pct(NegInf) == Finite(0.0)
  {
  }

  /** More progress never shows a shorter bar. */
  lemma PctMonotone(x: real, y: real)
    requires x <= y
    ensures Pct(Finite(x)).v <= Pct(Finite(y)).v
  {
    assert x * 100.0 <= y * 100.0;
    RoundRealMonotone(x * 100.0, y * 100.0);
    PctHeld(x);
    PctHeld(y);
  }

  /** The percentage of a finite fraction is its rounded value held to
      `[0, 100]`. */
  lemma PctHeld(x: real)
    ensures var r := RoundReal(x * 100.0) as real;
      Pct(Finite(x)).v == if r < 0.0 then 0.0 else if r > 100.0 then 100.0 else r
  {
  }
}
