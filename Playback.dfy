/**
 * The preview playback: while playing, every animation frame callback adds
 * the time elapsed since the previous callback to an accumulator, and the
 * accumulator is drained in steps of `frameMs`, each step showing the next
 * picture, cyclically.
 */
module Playback {
  import opened Wrappers
  import opened JsNumber

  /** The index after one step: `total ? (i + 1) % total : 0`, with the
      truncating remainder of JavaScript. */
  function NextIndex(i: int, total: nat): (j: int)
    ensures total == 0 ==> j == 0
    ensures total > 0 && i >= -1 ==> 0 <= j < total && j == (i + 1) % total
  {
    if total == 0 then 0 else JsRem(i + 1, total)
  }

  /** The index after `n` steps from `i`. */
  function Advance(i: int, total: nat, n: nat): int {
    if n == 0 then i else NextIndex(Advance(i, total, n - 1), total)
  }

  /** From an index in range, `n` steps move `n` pictures on, cyclically. */
  lemma {:induction false} AdvanceCyclic(i: int, total: nat, n: nat)
    requires 0 <= i < total
    ensures Advance(i, total, n) == (i + n) % total
  {
    if n == 0 {
      ModUnique(i, total, 0, i);
    } else {
      AdvanceCyclic(i, total, n - 1);
      AdvanceStep(i, total, n);
      ModSucc(i + n - 1, total);
    }
  }

  lemma AdvanceStep(i: int, total: nat, n: nat)
    requires 0 <= i < total && n > 0
    requires Advance(i, total, n - 1) == (i + n - 1) % total
    ensures Advance(i, total, n) == ((i + n - 1) % total + 1) % total
  {
  }

  /** And the index stays in range. */
  lemma AdvanceInRange(i: int, total: nat, n: nat)
    requires 0 <= i < total
    ensures 0 <= Advance(i, total, n) < total
  {
    AdvanceCyclic(i, total, n);
  }

  /** The quotient and remainder of `x` by `m` are the unique `q` and
      `r` with `x == q * m + r` and `0 <= r < m`. */
  lemma ModUnique(x: int, m: int, q: int, r: int)
    requires m > 0 && 0 <= r < m && x == q * m + r
    ensures x / m == q && x % m == r
  {
    var q', r' := x / m, x % m;
    assert x == q' * m + r';
    assert (q - q') * m == r' - r;
    if q' < q {
      MulAtLeast(q - q', m);
    }
    if q < q' {
      MulAtLeast(q' - q, m);
    }
  }

  lemma MulAtLeast(d: int, m: int)
    requires d >= 1 && m > 0
    ensures d * m >= m
  {
    assert d * m == (d - 1) * m + m;
    assert (d - 1) * m >= 0;
  }

  lemma ModSucc(a: int, m: nat)
    requires m > 0 && a >= 0
    ensures ((a % m) + 1) % m == (a + 1) % m
  {
    var q, r := a / m, a % m;
    assert a == q * m + r;
    if r + 1 < m {
      ModUnique(a + 1, m, q, r + 1);
      ModUnique(r + 1, m, 0, r + 1);
    } else {
      assert (q + 1) * m == q * m + m;
      ModUnique(a + 1, m, q + 1, 0);
      ModUnique(r + 1, m, 1, 0);
    }
  }

  /** With no pictures, any step lands on index 0. */
  lemma {:induction false} AdvanceEmpty(i: int, n: nat)
    requires n > 0
    ensures Advance(i, 0, n) == 0
  {
  }

  /** Dividing after taking `j` whole steps off. */
  lemma DivShift(a: real, f: real, j: int)
    requires f > 0.0
    ensures (a - j as real * f) / f == a / f - j as real
  {
    var q := a / f;
    DivMul(a, f);
    assert (q - j as real) * f == q * f - j as real * f;
    DivMul(a - j as real * f, f);
    var r := (a - j as real * f) / f;
    assert r * f == (q - j as real) * f;
    if r < q - j as real {
      MulStrict(r, q - j as real, f);
    } else if r > q - j as real {
      MulStrict(q - j as real, r, f);
    }
  }

  /** `a / f` is at least one when `a` is at least `f`. */
  lemma QuotientAtLeastOne(a: real, f: real)
    requires 0.0 < f <= a
    ensures a / f >= 1.0
  {
    var q := a / f;
    if q < 1.0 {
      MulStrict(q, 1.0, f);
    }
    DivMul(a, f);
  }

  /** How many times `while (acc >= frameMs) acc -= frameMs` runs:
      `floor(acc / frameMs)` for an accumulator that reaches `frameMs`,
      and none otherwise. What remains is below `frameMs`, and not
      negative unless the accumulator was. */
  function Steps(acc: real, frameMs: real): (k: nat)
    requires frameMs > 0.0
    ensures acc < frameMs ==> k == 0
    ensures acc >= 0.0 ==> k == (acc / frameMs).Floor
    ensures acc - k as real * frameMs < frameMs
    ensures acc >= 0.0 ==> 0.0 <= acc - k as real * frameMs
  {
    if acc < 0.0 then 0
    else
      var k := (acc / frameMs).Floor;
      QuotientBounds0(acc, frameMs);
      DivShift(acc, frameMs, k);
      StepsRemainder(acc, frameMs, k);
      k
  }

  lemma QuotientBounds0(a: real, f: real)
    requires f > 0.0 && a >= 0.0
    ensures a / f >= 0.0
    ensures a < f ==> a / f < 1.0
  {
    var q := a / f;
    if q < 0.0 {
      MulStrict(q, 0.0, f);
    }
    if a < f && q >= 1.0 {
      MulMono(1.0, q, f);
    }
    DivMul(a, f);
  }

  /** Taking `k = floor(a / f)` steps leaves a remainder in `[0, f)`. */
  lemma StepsRemainder(a: real, f: real, k: int)
    requires f > 0.0 && k == (a / f).Floor
    requires (a - k as real * f) / f == a / f - k as real
    ensures 0.0 <= a - k as real * f < f
  {
    var r := a - k as real * f;
    var x := r / f;
    assert 0.0 <= x < 1.0;
    DivMul(r, f);
    assert x * f == r;
    MulMono(0.0, x, f);
    MulStrict(x, 1.0, f);
    assert 0.0 * f == 0.0 && 1.0 * f == f;
  }

  /** The drain loop of one tick: takes whole `frameMs` steps off `acc`,
      one picture per step. */
  method Drain(acc: real, index: int, total: nat, frameMs: real) returns (rest: real, next: int)
    requires frameMs > 0.0
    ensures rest == acc - Steps(acc, frameMs) as real * frameMs
    ensures next == Advance(index, total, Steps(acc, frameMs))
  {
    rest, next := acc, index;
    ghost var j: nat := 0;
    while rest >= frameMs
      invariant rest == acc - j as real * frameMs
      invariant j == 0 || rest >= 0.0
      invariant acc >= frameMs || j == 0
      invariant acc >= 0.0 ==> j <= Steps(acc, frameMs)
      invariant next == Advance(index, total, j)
      decreases Steps(acc, frameMs) - j
    {
      StepTaken(acc, frameMs, j);
      rest := rest - frameMs;
      next := NextIndex(next, total);
      j := j + 1;
    }
    Drained(acc, frameMs, j);
  }

  /** While the remainder after `j` steps still reaches `f`, fewer than
      `Steps(a, f)` steps have been taken. */
  lemma StepTaken(a: real, f: real, j: nat)
    requires f > 0.0 && a - j as real * f >= f
    ensures a >= 0.0 && j < Steps(a, f)
  {
    var r := a - j as real * f;
    MulMono(0.0, j as real, f);
    DivShift(a, f, j);
    QuotientAtLeastOne(r, f);
  }

  /** Once the remainder after `j` steps is below `f`, exactly `j` steps
      were due. */
  lemma Drained(a: real, f: real, j: nat)
    requires f > 0.0
    requires a - j as real * f < f
    requires j == 0 || a - j as real * f >= 0.0
    ensures j == Steps(a, f)
  {
    if j > 0 {
      var r := a - j as real * f;
      MulMono(0.0, j as real, f);
      DivShift(a, f, j);
      QuotientBounds0(r, f);
    }
  }

  /** The playback state of `usePlayback`: the shown index, whether it is
      playing, the time accumulated towards the next step, and the
      timestamp of the previous frame callback (none before the first). */
  class Player {
    var index: int
    var playing: bool
    var acc: real
    var last: Option<real>

    constructor ()
      ensures index == 0 && !playing && acc == 0.0 && last == None
    {
      index, playing, acc, last := 0, false, 0.0, None;
    }

    /** The accumulator holds less than one step. */
    predicate Settled(frameMs: real)
      reads this
    {
      0.0 <= acc < frameMs
    }

    /** One animation frame callback at time `t`, for `total` pictures.
        Stopped, no callback is scheduled and nothing changes; the first
        callback after starting only records `t`. */
    method Tick(t: real, total: nat, frameMs: real)
      requires frameMs > 0.0
      modifies this
      ensures !old(playing) ==> index == old(index) && acc == old(acc) && last == old(last) && !playing
      ensures old(playing) && old(last).None? ==>
        playing && last == Some(t) && index == old(index) && acc == old(acc)
      ensures old(playing) && old(last).Some? ==>
        var a := old(acc) + (t - old(last).value);
        && playing && last == Some(t)
        && acc == a - Steps(a, frameMs) as real * frameMs
        && index == Advance(old(index), total, Steps(a, frameMs))
      // with time not going backwards, the accumulator stays settled and
      // the index stays in range
      ensures old(Settled(frameMs)) && (old(last).Some? ==> t >= old(last).value) ==> Settled(frameMs)
      ensures total > 0 && 0 <= old(index) < total ==> 0 <= index < total
    {
      if !playing {
        return;
      }
      if last.None? {
        last := Some(t);
        return;
      }
      var dt := t - last.value;
      last := Some(t);
      acc := acc + dt;
      acc, index := Drain(acc, index, total, frameMs);
      if total > 0 && 0 <= old(index) < total {
        AdvanceInRange(old(index), total, Steps(old(acc) + dt, frameMs));
      }
    }

    /** `start()`: plays only when there is a picture. */
    method Start(total: nat)
      modifies this
      ensures playing == (old(playing) || total > 0)
      ensures index == old(index) && acc == old(acc) && last == old(last)
    {
      if total > 0 {
        playing := true;
      }
    }

    /** `stop()`, with the effect that follows it: the pending callback is
        cancelled and the previous timestamp forgotten. */
    method Stop()
      modifies this
      ensures !playing && last == None && index == old(index) && acc == old(acc)
    {
      playing := false;
      last := None;
    }

    /** `reset()`: stopped at the first picture with nothing accumulated. */
    method Reset()
      modifies this
      ensures !playing && index == 0 && acc == 0.0 && last == None
    {
      Stop();
      index := 0;
      acc := 0.0;
      last := None;
    }

    /** `setIndex(i)`. */
    method SetIndex(i: int)
      modifies this
      ensures index == i && playing == old(playing) && acc == old(acc) && last == old(last)
    {
      index := i;
    }
  }
}
