/**
 * JavaScript numbers over exact reals: a finite value, one of the two
 * infinities, or NaN. IEEE rounding error and the sign of zero are not
 * modelled. `Math.round(x)` is `floor(x + 0.5)`.
 */
module JsNumber {
  import opened Wrappers
  import opened JsString

  datatype Num = Finite(v: real) | PosInf | NegInf | NaN

  /** `Number.isFinite`. */
  predicate IsFinite(n: Num) {
    n.Finite?
  }

  /** The order of non-NaN numbers, with the infinities at the ends. */
  predicate Le(a: Num, b: Num)
    requires !a.NaN? && !b.NaN?
  {
    match (a, b)
    case (NegInf, _) => true
    case (_, PosInf) => true
    case (Finite(x), Finite(y)) => x <= y
    case _ => false
  }

  /** `Math.round` on an exact real. */
  function RoundReal(x: real): (r: int)
    ensures x - 0.5 < r as real <= x + 0.5
  {
    (x + 0.5).Floor
  }

  lemma RoundRealMonotone(x: real, y: real)
    requires x <= y
    ensures RoundReal(x) <= RoundReal(y)
  {
  }

  lemma RoundRealOfInt(n: int)
    ensures RoundReal(n as real) == n
  {
  }

  /** `Math.round`. */
  function Round(n: Num): (r: Num)
    ensures r.Finite? <==> n.Finite?
    ensures n.Finite? ==> r.v == RoundReal(n.v) as real
    ensures !n.Finite? ==> r == n
  {
    if n.Finite? then Finite(RoundReal(n.v) as real) else n
  }

  /** `Math.floor`. */
  function Floor(n: Num): (r: Num)
    ensures r.Finite? <==> n.Finite?
    ensures n.Finite? ==> r.v == n.v.Floor as real
    ensures !n.Finite? ==> r == n
  {
    if n.Finite? then Finite(n.v.Floor as real) else n
  }

  /** `Math.min(a, b)`: NaN if either is NaN, otherwise the smaller. */
  function Min(a: Num, b: Num): (r: Num)
    ensures r.NaN? <==> a.NaN? || b.NaN?
    ensures !r.NaN? ==> (r == a || r == b) && Le(r, a) && Le(r, b)
  {
    if a.NaN? || b.NaN? then NaN else if Le(a, b) then a else b
  }

  /** `Math.max(a, b)`: NaN if either is NaN, otherwise the larger. */
  function Max(a: Num, b: Num): (r: Num)
    ensures r.NaN? <==> a.NaN? || b.NaN?
    ensures !r.NaN? ==> (r == a || r == b) && Le(a, r) && Le(b, r)
  {
    if a.NaN? || b.NaN? then NaN else if Le(a, b) then b else a
  }

  /** The sign of a non-NaN number: -1, 0 or 1. */
  function Sign(n: Num): int
    requires !n.NaN?
  {
    match n
    case PosInf => 1
    case NegInf => -1
    case Finite(x) => if x > 0.0 then 1 else if x < 0.0 then -1 else 0
  }

  /** The infinity of the given non-zero sign. */
  function Inf(sign: int): Num {
    if sign > 0 then PosInf else NegInf
  }

  function Negate(n: Num): Num {
    match n
    case Finite(x) => Finite(-x)
    case PosInf => NegInf
    case NegInf => PosInf
    case NaN => NaN
  }

  /** `a * b`. */
  function Mul(a: Num, b: Num): (r: Num)
    ensures a.Finite? && b.Finite? ==> r == Finite(a.v * b.v)
  {
    if a.NaN? || b.NaN? then NaN
    else if a.Finite? && b.Finite? then Finite(a.v * b.v)
    else if Sign(a) == 0 || Sign(b) == 0 then NaN
    else Inf(Sign(a) * Sign(b))
  }

  /** `a / b`, where a zero divisor is the positive zero. */
  function Div(a: Num, b: Num): (r: Num)
    ensures a.Finite? && b.Finite? && b.v != 0.0 ==> r == Finite(a.v / b.v)
  {
    if a.NaN? || b.NaN? then NaN
    else if a.Finite? && b.Finite? then
      if b.v != 0.0 then Finite(a.v / b.v)
      else if a.v == 0.0 then NaN
      else Inf(Sign(a))
    else if !a.Finite? && !b.Finite? then NaN
    else if b.Finite? then Inf(Sign(a) * (if b.v < 0.0 then -1 else 1))
    else Finite(0.0)
  }

  /** `a - b`. */
  function Sub(a: Num, b: Num): (r: Num)
    ensures a.Finite? && b.Finite? ==> r == Finite(a.v - b.v)
  {
    if a.NaN? || b.NaN? then NaN
    else if a.Finite? && b.Finite? then Finite(a.v - b.v)
    else if !a.Finite? && !b.Finite? then (if a == b then NaN else a)
    else if a.Finite? then Negate(b)
    else a
  }

  /** `10` raised to an integer power, exactly. */
  function Pow10(e: int): (r: real)
    ensures r > 0.0
    decreases if e < 0 then -e else e
  {
    if e == 0 then 1.0 else if e > 0 then 10.0 * Pow10(e - 1) else Pow10(e + 1) / 10.0
  }

  /** The optional exponent part `(e|E) [+|-] digits` at the start of `s`, as
      its value and length; absent when no digit follows the sign. */
  function ScanExponent(s: string): (r: Option<(int, nat)>)
    ensures r.Some? ==> 2 <= r.value.1 <= |s| && (s[0] == 'e' || s[0] == 'E')
  {
    if |s| == 0 || (s[0] != 'e' && s[0] != 'E') then None
    else
      var t := s[1..];
      var signed := |t| > 0 && (t[0] == '-' || t[0] == '+');
      var ds := DigitPrefix(if signed then t[1..] else t, 10);
      if |ds| == 0 then None
      else
        var e: int := DigitsValue(ds, 10);
        Some((if signed && t[0] == '-' then -e else e, 1 + (if signed then 1 else 0) + |ds|))
  }

  /** The value of the decimal numeral `ip.fp`. */
  function Fraction(ip: string, fp: string): (x: real)
    requires AllDigits(ip, 10) && AllDigits(fp, 10)
    ensures x >= 0.0
  {
    var p := Pow10(|fp|);
    var f := DigitsValue(fp, 10) as real;
    assert f / p >= 0.0 by {
      var q := f / p;
      if q < 0.0 {
        MulStrict(q, 0.0, p);
      }
      DivMul(f, p);
    }
    DigitsValue(ip, 10) as real + f / p
  }

  /** The longest prefix of `s` of the form `digits [. digits]` or
      `. digits`, as its value and length. */
  function ScanMantissa(s: string): (r: Option<(real, nat)>)
    ensures r.Some? ==> 0 < r.value.1 <= |s| && r.value.0 >= 0.0
  {
    var ip := DigitPrefix(s, 10);
    if |ip| < |s| && s[|ip|] == '.' then
      var fp := DigitPrefix(s[|ip| + 1..], 10);
      if |ip| + |fp| == 0 then None
      else Some((Fraction(ip, fp), |ip| + 1 + |fp|))
    else if |ip| == 0 then None
    else Some((DigitsValue(ip, 10) as real, |ip|))
  }

  /** The longest prefix of `s` that is an unsigned decimal literal
      (`Infinity`, or a mantissa with an optional exponent), as its value and
      length. */
  function ScanUnsigned(s: string): (r: Option<(Num, nat)>)
    ensures r.Some? ==> 0 < r.value.1 <= |s| && !r.value.0.NaN? && !r.value.0.NegInf?
  {
    if |s| >= 8 && s[..8] == "Infinity" then Some((PosInf, 8))
    else match ScanMantissa(s)
      case None => None
      case Some((m, len)) =>
        match ScanExponent(s[len..])
        case Some((e, elen)) => Some((Finite(m * Pow10(e)), len + elen))
        case None => Some((Finite(m), len))
  }

  /** The longest prefix of `s` that is a StrDecimalLiteral of ECMAScript
      (an optional sign, then an unsigned decimal literal), as its value and
      length. */
  function ScanDecimal(s: string): (r: Option<(Num, nat)>)
    ensures r.Some? ==> 0 < r.value.1 <= |s| && !r.value.0.NaN?
  {
    var signed := |s| > 0 && (s[0] == '+' || s[0] == '-');
    match ScanUnsigned(if signed then s[1..] else s)
    case None => None
    case Some((v, n)) => Some((if signed && s[0] == '-' then Negate(v) else v, n + (if signed then 1 else 0)))
  }

  /** A whole `0x`, `0o` or `0b` integer literal, as its value. */
  function NonDecimalInteger(s: string): Option<nat> {
    if |s| < 3 || s[0] != '0' then None
    else
      var radix := if s[1] == 'x' || s[1] == 'X' then 16
                   else if s[1] == 'o' || s[1] == 'O' then 8
                   else if s[1] == 'b' || s[1] == 'B' then 2
                   else 0;
      if radix != 0 && AllDigits(s[2..], radix) then Some(DigitsValue(s[2..], radix)) else None
  }

  /** `Number(s)` for a string: white space around the literal is ignored,
      an empty or all-blank string is 0, and anything that is not one whole
      numeric literal is NaN. */
  function ToNumber(s: string): (r: Num)
    ensures Trim(s) == [] ==> r == Finite(0.0)
  {
    var t := Trim(s);
    if t == [] then Finite(0.0)
    else match NonDecimalInteger(t)
      case Some(n) => Finite(n as real)
      case None =>
        match ScanDecimal(t)
        case Some((v, n)) => if n == |t| then v else NaN
        case None => NaN
  }

  /** `parseFloat(s)`: the value of the longest decimal-literal prefix after
      the leading white space, NaN when there is none. */
  function ParseFloat(s: string): (r: Num)
    ensures r.NaN? <==> ScanDecimal(TrimStart(s)).None?
  {
    match ScanDecimal(TrimStart(s))
    case Some((v, _)) => v
    case None => NaN
  }

  /** `parseInt(s, 16)`: skips leading white space, takes one sign, then an
      optional `0x`/`0X`, then the longest run of hexadecimal digits; NaN
      when that run is empty. The result is an integer or NaN. */
  function ParseInt16(s: string): (r: Num)
    ensures r.NaN? || (r.Finite? && r.v == r.v.Floor as real)
  {
    var t := TrimStart(s);
    var signed := |t| > 0 && (t[0] == '-' || t[0] == '+');
    var u := if signed then t[1..] else t;
    var w := if |u| >= 2 && u[0] == '0' && (u[1] == 'x' || u[1] == 'X') then u[2..] else u;
    var z := DigitPrefix(w, 16);
    if |z| == 0 then NaN
    else
      var n: int := DigitsValue(z, 16);
      var k := if signed && t[0] == '-' then -n else n;
      Finite(k as real)
  }

  lemma {:induction false} DigitPrefixConcat(a: string, b: string, radix: nat)
    requires AllDigits(a, radix)
    requires b == [] || !IsDigit(b[0], radix)
    ensures DigitPrefix(a + b, radix) == a
  {
    if a != [] {
      assert (a + b)[1..] == a[1..] + b;
      DigitPrefixConcat(a[1..], b, radix);
    }
  }

  lemma DigitPrefixAll(a: string, radix: nat)
    requires AllDigits(a, radix)
    ensures DigitPrefix(a, radix) == a
  {
    DigitPrefixConcat(a, [], radix);
    assert a + [] == a;
  }

  lemma NotSpaceDigit(c: char, radix: nat)
    requires radix <= 16 && IsDigit(c, radix)
    ensures !IsJsSpace(c) && c != '-' && c != '+' && c != '.' && c != 'x' && c != 'X'
  {
  }

  /** `parseInt(s, 16)` of a plain run of hexadecimal digits is its value. */
  lemma ParseInt16Digits(s: string)
    requires |s| >= 1 && AllDigits(s, 16)
    ensures ParseInt16(s) == Finite(DigitsValue(s, 16) as real)
  {
    NotSpaceDigit(s[0], 16);
    var t := TrimStart(s);
    assert t == s;
    assert !(t[0] == '-' || t[0] == '+');
    if |s| >= 2 { NotSpaceDigit(s[1], 16); }
    assert !(|s| >= 2 && s[0] == '0' && (s[1] == 'x' || s[1] == 'X'));
    DigitPrefixAll(s, 16);
  }

  lemma ScanUnsignedDigits(s: string)
    requires |s| >= 1 && AllDigits(s, 10)
    ensures ScanUnsigned(s) == Some((Finite(DigitsValue(s, 10) as real), |s|))
  {
    NotInfinity(s);
    IntegerMantissa(s);
    assert s[|s|..] == [];
  }

  /** A string starting with a decimal digit does not spell `Infinity`. */
  lemma NotInfinity(s: string)
    requires |s| >= 1 && IsDigit(s[0], 10)
    ensures !(|s| >= 8 && s[..8] == "Infinity")
  {
    if |s| >= 8 {
      assert s[..8][0] == s[0];
    }
  }

  /** The mantissa scan of a run of decimal digits takes all of it. */
  lemma IntegerMantissa(s: string)
    requires |s| >= 1 && AllDigits(s, 10)
    ensures ScanMantissa(s) == Some((DigitsValue(s, 10) as real, |s|))
  {
    DigitPrefixAll(s, 10);
  }

  lemma TrimDigits(s: string, radix: nat)
    requires radix <= 16 && |s| >= 1 && AllDigits(s, radix)
    ensures Trim(s) == s
  {
    NotSpaceDigit(s[0], radix);
    NotSpaceDigit(s[|s| - 1], radix);
    assert TrimStart(s) == s;
  }

  lemma NonDecimalDigits(s: string)
    requires |s| >= 1 && AllDigits(s, 10)
    ensures NonDecimalInteger(s).None?
  {
    if |s| >= 3 { NotSpaceDigit(s[1], 10); }
  }

  lemma ScanDecimalDigits(s: string)
    requires |s| >= 1 && AllDigits(s, 10)
    ensures ScanDecimal(s) == Some((Finite(DigitsValue(s, 10) as real), |s|))
  {
    NotSpaceDigit(s[0], 10);
    ScanUnsignedDigits(s);
  }

  /** `Number(s)` of a plain run of decimal digits is its value. */
  lemma ToNumberDigits(s: string)
    requires |s| >= 1 && AllDigits(s, 10)
    ensures ToNumber(s) == Finite(DigitsValue(s, 10) as real)
  {
    TrimDigits(s, 10);
    NonDecimalDigits(s);
    ScanDecimalDigits(s);
  }

  /** The remainder of JavaScript's `%` on integers: it truncates toward
      zero, so its sign is that of the dividend. */
  function JsRem(a: int, b: int): (r: int)
    requires b > 0
    ensures -b < r < b
    ensures a >= 0 ==> r == a % b
    ensures a < 0 ==> r <= 0
  {
    if a >= 0 then a % b else -((-a) % b)
  }

  /** Multiplying by a non-negative factor keeps an order. */
  lemma MulMono(a: real, b: real, c: real)
    requires a <= b && 0.0 <= c
    ensures a * c <= b * c && c * a <= c * b
  {
  }

  /** Multiplying by a positive factor keeps a strict order. */
  lemma MulStrict(a: real, b: real, c: real)
    requires a < b && 0.0 < c
    ensures a * c < b * c && c * a < c * b
  {
  }

  lemma DivMul(a: real, m: real)
    requires m != 0.0
    ensures (a / m) * m == a && m * (a / m) == a
  {
  }

  lemma QuotientBounds(a: real, m: real)
    requires 0.0 <= a < m
    ensures 0.0 <= a / m < 1.0
  {
  }

  lemma ProductBounds(n: real, m: real, q: real)
    requires 0.0 < n <= m && 0.0 <= q < 1.0
    ensures 0.0 <= n * q <= m * q && n * q < n
  {
  }
}
