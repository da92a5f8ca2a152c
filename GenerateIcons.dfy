/**
 * The command line of the icon generator: the `--key value` arguments,
 * the settings read from them with their defaults, the hexadecimal colour
 * parser and its inverse, and the clamp of the padding ratio.
 */
module GenerateIcons {
  import opened Wrappers
  import opened JsString
  import opened JsNumber

  // ---- arguments ----

  /** What an option name maps to: `true` when the next word is an option
      too, the next word, or `undefined` after the last word. */
  datatype ArgValue = Flag | Word(s: string) | Undefined

  predicate IsOption(w: string) {
    StartsWith(w, "--")
  }

  /** The name of an option word: what follows the two dashes. */
  function Key(w: string): string {
    SliceFrom(w, 2)
  }

  /** The value of the option at `i`: the word after it, read as above. */
  function ValueAfter(words: seq<string>, i: nat): ArgValue {
    if i + 1 < |words| then (if IsOption(words[i + 1]) then Flag else Word(words[i + 1])) else Undefined
  }

  /** The entries the fold of `words[..n]` has pushed, in order. */
  function Entries(words: seq<string>, n: nat): seq<(string, ArgValue)>
    requires n <= |words|
  {
    if n == 0 then []
    else Entries(words, n - 1) + (if IsOption(words[n - 1]) then [(Key(words[n - 1]), ValueAfter(words, n - 1))] else [])
  }

  /** The number of option words in `words[..n]`. */
  function OptionCount(words: seq<string>, n: nat): nat
    requires n <= |words|
  {
    if n == 0 then 0 else OptionCount(words, n - 1) + (if IsOption(words[n - 1]) then 1 else 0)
  }

  /** The `reduce` over the words after the input file: each option word
      pushes its name and value, and every other word pushes nothing. */
  method CollectEntries(words: seq<string>) returns (acc: seq<(string, ArgValue)>)
    ensures acc == Entries(words, |words|)
  {
    acc := [];
    var i := 0;
    while i < |words|
      invariant 0 <= i <= |words|
      invariant acc == Entries(words, i)
    {
      var cur := words[i];
      if StartsWith(cur, "--") {
        var v := if i + 1 < |words| then (if StartsWith(words[i + 1], "--") then Flag else Word(words[i + 1])) else Undefined;
        acc := acc + [(SliceFrom(cur, 2), v)];
      }
      i := i + 1;
    }
  }

  /** Entry `OptionCount(words, i)` is the one the option word at `i`
      pushed, and there are exactly as many entries as option words. */
  lemma {:induction false} EntriesIndexed(words: seq<string>, n: nat, i: nat)
    requires i < n <= |words| && IsOption(words[i])
    ensures |Entries(words, n)| == OptionCount(words, n)
    ensures OptionCount(words, i) < |Entries(words, n)|
    ensures Entries(words, n)[OptionCount(words, i)] == (Key(words[i]), ValueAfter(words, i))
  {
    EntriesLength(words, n);
    EntriesLength(words, i);
    if n - 1 == i {
    } else {
      EntriesIndexed(words, n - 1, i);
      CountMonotone(words, i + 1, n - 1);
    }
  }

  lemma {:induction false} EntriesLength(words: seq<string>, n: nat)
    requires n <= |words|
    ensures |Entries(words, n)| == OptionCount(words, n)
  {
    if n > 0 {
      EntriesLength(words, n - 1);
    }
  }

  lemma {:induction false} CountMonotone(words: seq<string>, m: nat, n: nat)
    requires m <= n <= |words|
    ensures OptionCount(words, m) <= OptionCount(words, n)
  {
    if m < n {
      CountMonotone(words, m, n - 1);
    }
  }

  /** `Object.fromEntries`: later entries overwrite earlier ones. */
  function FromEntries(es: seq<(string, ArgValue)>): map<string, ArgValue> {
    if es == [] then map[] else FromEntries(es[..|es| - 1])[es[|es| - 1].0 := es[|es| - 1].1]
  }

  /** The parsed arguments after the first `n` words. */
  function ArgsOf(words: seq<string>, n: nat): map<string, ArgValue>
    requires n <= |words|
  {
    FromEntries(Entries(words, n))
  }

  /** One more word sets its option, or changes nothing. */
  lemma ArgsStep(words: seq<string>, n: nat)
    requires 0 < n <= |words|
    ensures ArgsOf(words, n)
         == if IsOption(words[n - 1]) then ArgsOf(words, n - 1)[Key(words[n - 1]) := ValueAfter(words, n - 1)]
            else ArgsOf(words, n - 1)
  {
    var es := Entries(words, n - 1);
    if IsOption(words[n - 1]) {
      var e := (Key(words[n - 1]), ValueAfter(words, n - 1));
      assert (es + [e])[..|es|] == es;
    } else {
      assert es + [] == es;
    }
  }

  /** A name is set exactly when some option word names it. */
  lemma {:induction false} ArgsKeys(words: seq<string>, n: nat, k: string)
    requires n <= |words|
    ensures k in ArgsOf(words, n) <==> exists i :: 0 <= i < n && IsOption(words[i]) && Key(words[i]) == k
  {
    if n > 0 {
      ArgsStep(words, n);
      ArgsKeys(words, n - 1, k);
      if k in ArgsOf(words, n - 1) {
        var i :| 0 <= i < n - 1 && IsOption(words[i]) && Key(words[i]) == k;
        assert 0 <= i < n && IsOption(words[i]) && Key(words[i]) == k;
      }
      if exists i :: 0 <= i < n && IsOption(words[i]) && Key(words[i]) == k {
        var i :| 0 <= i < n && IsOption(words[i]) && Key(words[i]) == k;
        if i < n - 1 {
          assert k in ArgsOf(words, n - 1);
        }
      }
    }
  }

  /** The last option word of a name decides its value. */
  lemma {:induction false} LastOptionWins(words: seq<string>, n: nat, i: nat)
    requires i < n <= |words| && IsOption(words[i])
    requires forall j :: i < j < n && IsOption(words[j]) ==> Key(words[j]) != Key(words[i])
    ensures Key(words[i]) in ArgsOf(words, n)
    ensures ArgsOf(words, n)[Key(words[i])] == ValueAfter(words, i)
  {
    ArgsStep(words, n);
    if n - 1 > i {
      LastOptionWins(words, n - 1, i);
    }
  }

  /** An option followed by another option is a flag; one followed by any
      other word takes that word; the last word, when an option, is
      `undefined`. */
  lemma OptionValue(words: seq<string>, i: nat)
    requires i < |words| && IsOption(words[i])
    requires forall j :: i < j < |words| && IsOption(words[j]) ==> Key(words[j]) != Key(words[i])
    ensures Key(words[i]) in ArgsOf(words, |words|)
    ensures i + 1 < |words| && IsOption(words[i + 1]) ==> ArgsOf(words, |words|)[Key(words[i])] == Flag
    ensures i + 1 < |words| && !IsOption(words[i + 1]) ==> ArgsOf(words, |words|)[Key(words[i])] == Word(words[i + 1])
    ensures i + 1 == |words| ==> ArgsOf(words, |words|)[Key(words[i])] == Undefined
  {
    LastOptionWins(words, |words|, i);
  }

  /** What `args.key ?? default` yields: the boolean `true` of a flag, or a
      string. */
  datatype Setting = True | Text(s: string)

  /** `args[key] ?? dflt`: an absent or `undefined` value gives the default. */
  function Get(args: map<string, ArgValue>, key: string, dflt: string): (v: Setting)
    ensures key !in args || args[key] == Undefined ==> v == Text(dflt)
    ensures key in args && args[key].Word? ==> v == Text(args[key].s)
    ensures key in args && args[key] == Flag ==> v == True
  {
    if key !in args then Text(dflt)
    else match args[key]
      case Undefined => Text(dflt)
      case Flag => True
      case Word(s) => Text(s)
  }

  /** `String(v)`. */
  function Str(v: Setting): string {
    match v
    case True => "true"
    case Text(s) => s
  }

  // ---- clamp ----

  /** `clamp(n, min, max)`: a non-finite `n` counts as `min`. */
  function Clamp(n: Num, min: real, max: real): (r: real)
    ensures min <= max ==> min <= r <= max
    ensures min <= max && !IsFinite(n) ==> r == min
    ensures IsFinite(n) && min <= n.v <= max ==> r == n.v
    ensures IsFinite(n) && min <= max && n.v > max ==> r == max
    ensures IsFinite(n) && min <= max && n.v < min ==> r == min
  {
    var x := if IsFinite(n) then n else Finite(min);
    Max(Finite(min), Min(Finite(max), x)).v
  }

  /** The integer digits of `a.b` end at the point. */
  lemma FractionParts(a: string, b: string)
    requires AllDigits(a, 10)
    ensures DigitPrefix(a + "." + b, 10) == a
    ensures (a + "." + b)[|a|] == '.' && (a + "." + b)[|a| + 1..] == b
  {
    assert a + "." + b == a + ("." + b);
    DigitPrefixConcat(a, "." + b, 10);
  }

  /** The mantissa scan of a plain decimal fraction `a.b`. */
  lemma MantissaFraction(a: string, b: string)
    requires |a| >= 1 && AllDigits(a, 10) && |b| >= 1 && AllDigits(b, 10)
    ensures ScanMantissa(a + "." + b) == Some((Fraction(a, b), |a| + 1 + |b|))
  {
    FractionParts(a, b);
    DigitPrefixAll(b, 10);
    MantissaWith(a + "." + b, a, b);
  }

  /** The mantissa scan, once its integer and fraction digits are known. */
  lemma {:induction false} MantissaWith(s: string, ip: string, fp: string)
    requires ip == DigitPrefix(s, 10) && |ip| < |s| && s[|ip|] == '.'
    requires fp == DigitPrefix(s[|ip| + 1..], 10) && |ip| + |fp| > 0
    requires AllDigits(ip, 10) && AllDigits(fp, 10)
    ensures ScanMantissa(s) == Some((Fraction(ip, fp), |ip| + 1 + |fp|))
  {
  }

  /** The unsigned literal scan of `a.b`: the whole of it, with no exponent. */
  lemma UnsignedFraction(a: string, b: string)
    requires |a| >= 1 && AllDigits(a, 10) && |b| >= 1 && AllDigits(b, 10)
    ensures ScanUnsigned(a + "." + b) == Some((Finite(Fraction(a, b)), |a| + 1 + |b|))
  {
    var s := a + "." + b;
    MantissaFraction(a, b);
    NotSpaceDigit(a[0], 10);
    if |s| >= 8 {
      assert s[..8] != "Infinity" by { assert s[..8][0] == a[0]; }
    }
    assert s[|s|..] == [];
  }

  /** `parseFloat` of a plain decimal fraction `a.b`. */
  lemma ParseFloatFraction(a: string, b: string)
    requires |a| >= 1 && AllDigits(a, 10) && |b| >= 1 && AllDigits(b, 10)
    ensures ParseFloat(a + "." + b) == Finite(Fraction(a, b))
  {
    var s := a + "." + b;
    NotSpaceDigit(a[0], 10);
    assert s[0] == a[0];
    assert TrimStart(s) == s;
    UnsignedFraction(a, b);
  }

  lemma FractionTwelve()
    ensures Fraction(['0'], ['1', '2']) == 0.12
  {
    var b := ['1', '2'];
    assert b[..1] == ['1'];
    assert DigitsValue(['0'], 10) == 0;
    assert DigitsValue(b, 10) == 12;
    assert Pow10(2) == 100.0;
  }

  /** The default padding `"0.12"` reads as 0.12. */
  lemma DefaultPadding()
    ensures ParseFloat("0.12") == Finite(0.12)
  {
    var a, b := ['0'], ['1', '2'];
    FractionTwelve();
    ParseFloatFraction(a, b);
    assert a + "." + b == "0.12";
  }

  // ---- colours ----

  /** A colour: the three channels `parseInt` yields, and the opacity. */
  datatype Color = Color(r: Num, g: Num, b: Num, alpha: real)

  /** What `parseInt` can yield: an integer or NaN. */
  predicate IsChannel(v: Num) {
    v.NaN? || (v.Finite? && v.v == v.v.Floor as real)
  }

  /** The colour read from what remains once the input is trimmed and its
      first `#` removed: three doubled digits from three characters,
      otherwise the pairs at offsets 0, 2 and 4; the opacity is always 1. */
  function ColorOf(m: string): (c: Color)
    ensures c.alpha == 1.0
    ensures IsChannel(c.r) && IsChannel(c.g) && IsChannel(c.b)
  {
    if |m| == 3 then Color(ParseInt16([m[0], m[0]]), ParseInt16([m[1], m[1]]), ParseInt16([m[2], m[2]]), 1.0)
    else Color(ParseInt16(Slice(m, 0, 2)), ParseInt16(Slice(m, 2, 4)), ParseInt16(Slice(m, 4, 6)), 1.0)
  }

  /** `parseColor(hex)`: opaque, each channel NaN or an integer; three hex
      digits (after trimming and dropping the first `#`) are each doubled,
      six are read in pairs. */
  function ParseColor(hex: string): (c: Color)
    ensures c.alpha == 1.0 && IsChannel(c.r) && IsChannel(c.g) && IsChannel(c.b)
    ensures var m := RemoveFirst(Trim(hex), '#');
      |m| == 3 && AllDigits(m, 16) ==>
        c == Color(Finite((17 * DigitValue(m[0])) as real), Finite((17 * DigitValue(m[1])) as real),
                   Finite((17 * DigitValue(m[2])) as real), 1.0)
    ensures var m := RemoveFirst(Trim(hex), '#');
      |m| == 6 && AllDigits(m, 16) ==>
        c == Color(Finite(Hex2(m[0], m[1]) as real), Finite(Hex2(m[2], m[3]) as real),
                   Finite(Hex2(m[4], m[5]) as real), 1.0)
  {
    var m := RemoveFirst(Trim(hex), '#');
    ColorReadings(m);
    ColorOf(m)
  }

  /** The two readings of hexadecimal digits. */
  lemma ColorReadings(m: string)
    ensures |m| == 3 && AllDigits(m, 16) ==>
      ColorOf(m) == Color(Finite((17 * DigitValue(m[0])) as real), Finite((17 * DigitValue(m[1])) as real),
                          Finite((17 * DigitValue(m[2])) as real), 1.0)
    ensures |m| == 6 && AllDigits(m, 16) ==>
      ColorOf(m) == Color(Finite(Hex2(m[0], m[1]) as real), Finite(Hex2(m[2], m[3]) as real),
                          Finite(Hex2(m[4], m[5]) as real), 1.0)
  {
    if |m| == 3 && AllDigits(m, 16) {
      ColorOfShort(m);
    }
    if |m| == 6 && AllDigits(m, 16) {
      ColorOfLong(m);
    }
  }

  /** Hexadecimal digits, after an optional `#`, have no white space to
      trim. */
  lemma TrimHex(s: string, hash: bool)
    requires |s| >= 1 && AllDigits(s, 16)
    ensures Trim((if hash then "#" else "") + s) == (if hash then "#" else "") + s
  {
    var x := (if hash then "#" else "") + s;
    NotSpaceDigit(s[0], 16);
    NotSpaceDigit(s[|s| - 1], 16);
    assert x[0] == if hash then '#' else s[0];
    assert x[|x| - 1] == s[|s| - 1];
    TrimEnds(x);
  }

  /** A string that neither starts nor ends with white space is its own trim. */
  lemma TrimEnds(x: string)
    requires |x| >= 1 && !IsJsSpace(x[0]) && !IsJsSpace(x[|x| - 1])
    ensures Trim(x) == x
  {
    assert TrimStart(x) == x;
  }

  /** Removing the first `#` from `#` and digits leaves the digits. */
  lemma RemoveHash(s: string, hash: bool)
    requires AllDigits(s, 16)
    ensures RemoveFirst((if hash then "#" else "") + s, '#') == s
  {
    assert forall i :: 0 <= i < |s| ==> s[i] != '#';
    assert '#' !in s;
    if hash {
      var x := "#" + s;
      assert x[0] == '#';
      assert x[1..] == s;
    }
  }

  /** `#` followed by hexadecimal digits, or the digits alone, is what is
      left once trimmed and with the `#` removed. */
  lemma Unprefixed(s: string, hash: bool)
    requires |s| >= 1 && AllDigits(s, 16)
    ensures RemoveFirst(Trim((if hash then "#" else "") + s), '#') == s
  {
    TrimHex(s, hash);
    RemoveHash(s, hash);
  }

  /** The value of two hexadecimal digits. */
  lemma PairValue(c0: char, c1: char)
    requires IsDigit(c0, 16) && IsDigit(c1, 16)
    ensures AllDigits([c0, c1], 16) && DigitsValue([c0, c1], 16) == 16 * DigitValue(c0) + DigitValue(c1)
  {
    assert [c0, c1][..1] == [c0];
    assert DigitsValue([c0], 16) == DigitValue(c0);
  }

  /** The value of the two hexadecimal digits `c0 c1`. */
  function Hex2(c0: char, c1: char): nat {
    16 * DigitValue(c0) + DigitValue(c1)
  }

  /** `parseInt` of two hexadecimal digits. */
  lemma Pair16(c0: char, c1: char)
    requires IsDigit(c0, 16) && IsDigit(c1, 16)
    ensures ParseInt16([c0, c1]) == Finite(Hex2(c0, c1) as real)
  {
    PairValue(c0, c1);
    ParseInt16Digits([c0, c1]);
  }

  /** `parseInt` of a doubled hexadecimal digit. */
  lemma Doubled(c: char)
    requires IsDigit(c, 16)
    ensures ParseInt16([c, c]) == Finite((17 * DigitValue(c)) as real)
  {
    Pair16(c, c);
  }

  /** The channels of three characters are their doubled digits. */
  lemma ShortChannels(m: string, r: Num, g: Num, b: Num)
    requires |m| == 3
    requires ParseInt16([m[0], m[0]]) == r && ParseInt16([m[1], m[1]]) == g && ParseInt16([m[2], m[2]]) == b
    ensures ColorOf(m) == Color(r, g, b, 1.0)
  {
  }

  /** The channels of six characters are its pairs at offsets 0, 2, 4. */
  lemma LongChannels(m: string, r: Num, g: Num, b: Num)
    requires |m| == 6
    requires ParseInt16([m[0], m[1]]) == r && ParseInt16([m[2], m[3]]) == g && ParseInt16([m[4], m[5]]) == b
    ensures ColorOf(m) == Color(r, g, b, 1.0)
  {
    LongPairs(m);
  }

  lemma LongPairs(m: string)
    requires |m| == 6
    ensures ColorOf(m) == Color(ParseInt16([m[0], m[1]]), ParseInt16([m[2], m[3]]), ParseInt16([m[4], m[5]]), 1.0)
  {
    assert Slice(m, 0, 2) == [m[0], m[1]] && Slice(m, 2, 4) == [m[2], m[3]] && Slice(m, 4, 6) == [m[4], m[5]];
  }

  /** Three digits are doubled: `"abc"` reads as `aa`, `bb`, `cc`. */
  lemma ColorOfShort(m: string)
    requires |m| == 3 && AllDigits(m, 16)
    ensures ColorOf(m) == Color(Finite((17 * DigitValue(m[0])) as real), Finite((17 * DigitValue(m[1])) as real),
                                Finite((17 * DigitValue(m[2])) as real), 1.0)
  {
    assert IsDigit(m[0], 16) && IsDigit(m[1], 16) && IsDigit(m[2], 16);
    Doubled(m[0]);
    Doubled(m[1]);
    Doubled(m[2]);
    ShortChannels(m, Finite((17 * DigitValue(m[0])) as real), Finite((17 * DigitValue(m[1])) as real),
                  Finite((17 * DigitValue(m[2])) as real));
  }

  /** Six digits are read as the pairs at offsets 0, 2 and 4. */
  lemma ColorOfLong(m: string)
    requires |m| == 6 && AllDigits(m, 16)
    ensures ColorOf(m) == Color(Finite(Hex2(m[0], m[1]) as real), Finite(Hex2(m[2], m[3]) as real),
                                Finite(Hex2(m[4], m[5]) as real), 1.0)
  {
    assert IsDigit(m[0], 16) && IsDigit(m[1], 16) && IsDigit(m[2], 16);
    assert IsDigit(m[3], 16) && IsDigit(m[4], 16) && IsDigit(m[5], 16);
    Pair16(m[0], m[1]);
    Pair16(m[2], m[3]);
    Pair16(m[4], m[5]);
    LongChannels(m, Finite(Hex2(m[0], m[1]) as real), Finite(Hex2(m[2], m[3]) as real), Finite(Hex2(m[4], m[5]) as real));
  }

  /** `parseColor` of three digits, with or without `#`. */
  lemma ParseColorShort(s: string, hash: bool)
    requires |s| == 3 && AllDigits(s, 16)
    ensures ParseColor((if hash then "#" else "") + s)
         == Color(Finite((17 * DigitValue(s[0])) as real), Finite((17 * DigitValue(s[1])) as real),
                  Finite((17 * DigitValue(s[2])) as real), 1.0)
  {
    Unprefixed(s, hash);
    ColorOfShort(s);
  }

  /** `parseColor` of six digits, with or without `#`. */
  lemma ParseColorLong(s: string, hash: bool)
    requires |s| == 6 && AllDigits(s, 16)
    ensures ParseColor((if hash then "#" else "") + s)
         == Color(Finite(Hex2(s[0], s[1]) as real), Finite(Hex2(s[2], s[3]) as real), Finite(Hex2(s[4], s[5]) as real), 1.0)
  {
    Unprefixed(s, hash);
    ColorOfLong(s);
  }

  /** The default background `#1f6feb` is (31, 111, 235). */
  lemma DefaultBackground()
    ensures ParseColor("#1f6feb") == Color(Finite(31.0), Finite(111.0), Finite(235.0), 1.0)
  {
    DefaultDigits();
    DefaultSpelling();
    ParseColorLong(['1', 'f', '6', 'f', 'e', 'b'], true);
  }

  lemma DefaultSpelling()
    ensures (if true then "#" else "") + ['1', 'f', '6', 'f', 'e', 'b'] == "#1f6feb"
  {
  }

  lemma DefaultDigits()
    ensures AllDigits(['1', 'f', '6', 'f', 'e', 'b'], 16)
    ensures Hex2('1', 'f') == 31 && Hex2('6', 'f') == 111 && Hex2('e', 'b') == 235
  {
  }

  /** `v.toString(16)` for what `parseInt` yields. */
  function ChannelHex(v: Num): (r: string)
    requires IsChannel(v)
    ensures v.NaN? <==> r == "NaN"
    ensures v.Finite? && v.v >= 0.0 ==> AllDigits(r, 16) && DigitsValue(r, 16) == v.v.Floor
    ensures v.Finite? && v.v >= 0.0 ==> forall i :: 0 <= i < |r| ==> IsLowerHex(r[i])
    ensures v.Finite? && v.v < 0.0 ==>
      |r| >= 2 && r[0] == '-' && AllDigits(r[1..], 16) && DigitsValue(r[1..], 16) == (-v.v).Floor
    ensures v.Finite? && v.v < 0.0 ==> forall i :: 1 <= i < |r| ==> IsLowerHex(r[i])
  {
    if v.NaN? then "NaN"
    else if v.v < 0.0 then
      var r := "-" + HexDigits((-v.v).Floor as nat);
      assert r[0] == '-' && r[1..] == HexDigits((-v.v).Floor as nat);
      r
    else
      var r := HexDigits(v.v.Floor as nat);
      assert r[0] != 'N';
      r
  }

  /** A channel as `toHex` writes it: padded to two characters with zeros. */
  function HexField(v: Num): (r: string)
    requires IsChannel(v)
    ensures |r| >= 2
    ensures var d := ChannelHex(v);
      |r| >= |d| && r[|r| - |d|..] == d && forall i :: 0 <= i < |r| - |d| ==> r[i] == '0'
  {
    PadStart(ChannelHex(v), 2, '0')
  }

  /** `toHex(c)`: `#`, then the three channels in hexadecimal. */
  function ToHex(c: Color): (s: string)
    requires IsChannel(c.r) && IsChannel(c.g) && IsChannel(c.b)
    ensures |s| >= 7 && s[0] == '#'
  {
    "#" + HexField(c.r) + HexField(c.g) + HexField(c.b)
  }

  predicate IsLowerHex(c: char) {
    '0' <= c <= '9' || 'a' <= c <= 'f'
  }

  /** The field of a channel in `0..255` is its numeral padded to two. */
  lemma FieldOfByte(v: nat)
    ensures HexField(Finite(v as real)) == PadStart(HexDigits(v), 2, '0')
  {
    assert (v as real).Floor == v;
  }

  /** A numeral below 16 is padded with one zero. */
  lemma PadSmall(v: nat)
    requires v < 16
    ensures PadStart(HexDigits(v), 2, '0') == ['0', HexChar(v)]
  {
    var d := HexDigits(v);
    assert d == [HexChar(v)];
    assert PadStart(d, 2, '0') == PadStart(['0'] + d, 2, '0');
  }

  /** A channel in `0..255` is written as two lower-case digits that read
      back as its value. */
  lemma HexByte(v: nat)
    requires v < 256
    ensures var p := HexField(Finite(v as real));
      && |p| == 2 && IsLowerHex(p[0]) && IsLowerHex(p[1]) && Hex2(p[0], p[1]) == v
  {
    FieldOfByte(v);
    if v < 16 {
      PadSmall(v);
      HexSmall(v);
    } else {
      PadLarge(v);
    }
  }

  lemma HexSmall(v: nat)
    requires v < 16
    ensures IsLowerHex(HexChar(v)) && Hex2('0', HexChar(v)) == v
  {
  }

  /** A numeral of two digits needs no padding. */
  lemma PadLarge(v: nat)
    requires 16 <= v < 256
    ensures var p := PadStart(HexDigits(v), 2, '0');
      && |p| == 2 && IsLowerHex(p[0]) && IsLowerHex(p[1]) && Hex2(p[0], p[1]) == v
  {
    var d := HexDigits(v);
    assert d == HexDigits(v / 16) + [HexChar(v % 16)];
    assert HexDigits(v / 16) == [HexChar(v / 16)];
    assert d == [HexChar(v / 16), HexChar(v % 16)];
    assert PadStart(d, 2, '0') == d;
  }

  /** `#` and three two-character fields, character by character. */
  lemma Layout(a: string, b: string, c: string)
    requires |a| == 2 && |b| == 2 && |c| == 2
    ensures var s := "#" + a + b + c;
      && |s| == 7 && s[0] == '#' && s[1..] == a + b + c
      && s[1] == a[0] && s[2] == a[1] && s[3] == b[0] && s[4] == b[1] && s[5] == c[0] && s[6] == c[1]
  {
  }

  /** What `toHex` writes for channels in `0..255` is `#` and six
      lower-case digits, two per channel. */
  lemma ToHexShape(r: nat, g: nat, b: nat, alpha: real)
    requires r < 256 && g < 256 && b < 256
    ensures var s := ToHex(Color(Finite(r as real), Finite(g as real), Finite(b as real), alpha));
      && |s| == 7 && s[0] == '#'
      && (forall i :: 1 <= i < 7 ==> IsLowerHex(s[i]))
      && Hex2(s[1], s[2]) == r && Hex2(s[3], s[4]) == g && Hex2(s[5], s[6]) == b
  {
    var fr, fg, fb := HexField(Finite(r as real)), HexField(Finite(g as real)), HexField(Finite(b as real));
    assert ToHex(Color(Finite(r as real), Finite(g as real), Finite(b as real), alpha)) == "#" + fr + fg + fb;
    HexByte(r);
    HexByte(g);
    HexByte(b);
    Fields(fr, fg, fb, r, g, b);
  }

  /** `#` and three fields of two lower-case digits each. */
  lemma Fields(a: string, b: string, c: string, x: nat, y: nat, z: nat)
    requires |a| == 2 && IsLowerHex(a[0]) && IsLowerHex(a[1]) && Hex2(a[0], a[1]) == x
    requires |b| == 2 && IsLowerHex(b[0]) && IsLowerHex(b[1]) && Hex2(b[0], b[1]) == y
    requires |c| == 2 && IsLowerHex(c[0]) && IsLowerHex(c[1]) && Hex2(c[0], c[1]) == z
    ensures var s := "#" + a + b + c;
      && |s| == 7 && s[0] == '#'
      && (forall i :: 1 <= i < 7 ==> IsLowerHex(s[i]))
      && Hex2(s[1], s[2]) == x && Hex2(s[3], s[4]) == y && Hex2(s[5], s[6]) == z
  {
    Layout(a, b, c);
    var s := "#" + a + b + c;
    forall i | 1 <= i < 7
      ensures IsLowerHex(s[i])
    {
      assert s[i] in {a[0], a[1], b[0], b[1], c[0], c[1]};
    }
  }

  /** `parseColor(toHex(c))` recovers a colour whose channels are in
      `0..255`, with opacity 1. */
  lemma ParseToHex(r: nat, g: nat, b: nat, alpha: real)
    requires r < 256 && g < 256 && b < 256
    ensures ParseColor(ToHex(Color(Finite(r as real), Finite(g as real), Finite(b as real), alpha)))
         == Color(Finite(r as real), Finite(g as real), Finite(b as real), 1.0)
  {
    var s := ToHex(Color(Finite(r as real), Finite(g as real), Finite(b as real), alpha));
    ToHexShape(r, g, b, alpha);
    Suffix(s);
    ParseColorLong(s[1..], true);
  }

  /** `#` and six lower-case digits: the digits follow the `#`. */
  lemma Suffix(s: string)
    requires |s| == 7 && s[0] == '#' && forall i :: 1 <= i < 7 ==> IsLowerHex(s[i])
    ensures s == "#" + s[1..] && |s[1..]| == 6 && AllDigits(s[1..], 16)
    ensures s[1..][0] == s[1] && s[1..][1] == s[2] && s[1..][2] == s[3]
    ensures s[1..][3] == s[4] && s[1..][4] == s[5] && s[1..][5] == s[6]
  {
  }

  /** Two lower-case digits are written back as themselves. */
  lemma HexPair(c0: char, c1: char)
    requires IsLowerHex(c0) && IsLowerHex(c1)
    ensures HexField(Finite(Hex2(c0, c1) as real)) == [c0, c1]
  {
    var n := Hex2(c0, c1);
    FieldOfByte(n);
    HexCharOf(c0);
    HexCharOf(c1);
    if DigitValue(c0) == 0 {
      assert c0 == '0';
      PadSmall(n);
    } else {
      HexTwoDigits(c0, c1);
    }
  }

  /** A lower-case digit is the digit `HexChar` writes for its value. */
  lemma HexCharOf(c: char)
    requires IsLowerHex(c)
    ensures DigitValue(c) < 16 && HexChar(DigitValue(c)) == c
  {
  }

  /** Two lower-case digits whose first is not zero are their own numeral. */
  lemma HexTwoDigits(c0: char, c1: char)
    requires IsLowerHex(c0) && IsLowerHex(c1) && DigitValue(c0) > 0
    requires HexChar(DigitValue(c0)) == c0 && HexChar(DigitValue(c1)) == c1
    ensures PadStart(HexDigits(Hex2(c0, c1)), 2, '0') == [c0, c1]
  {
    var a, b := DigitValue(c0), DigitValue(c1);
    DivMod16(a, b);
    TwoNumerals(16 * a + b);
    PadFull([c0, c1]);
  }

  /** `16 a + b` splits back into `a` and `b`. */
  lemma DivMod16(a: nat, b: nat)
    requires b < 16
    ensures (16 * a + b) / 16 == a && (16 * a + b) % 16 == b
  {
  }

  /** A value of two hexadecimal digits is written as those two digits. */
  lemma TwoNumerals(n: nat)
    requires 16 <= n < 256
    ensures HexDigits(n) == [HexChar(n / 16), HexChar(n % 16)]
  {
    assert HexDigits(n) == HexDigits(n / 16) + [HexChar(n % 16)];
    assert HexDigits(n / 16) == [HexChar(n / 16)];
  }

  /** Two characters need no padding to two. */
  lemma PadFull(d: string)
    requires |d| == 2
    ensures PadStart(d, 2, '0') == d
  {
  }

  /** And `toHex(parseColor(s))` gives back `#` and six lower-case digits. */
  lemma ToHexParse(s: string)
    requires |s| == 6 && forall i :: 0 <= i < 6 ==> IsLowerHex(s[i])
    ensures ToHex(ParseColor("#" + s)) == "#" + s
  {
    var x, y, z := Hex2(s[0], s[1]), Hex2(s[2], s[3]), Hex2(s[4], s[5]);
    assert AllDigits(s, 16);
    ParseColorLong(s, true);
    assert (if true then "#" else "") + s == "#" + s;
    var c := Color(Finite(x as real), Finite(y as real), Finite(z as real), 1.0);
    assert ParseColor("#" + s) == c;
    HexPair(s[0], s[1]);
    HexPair(s[2], s[3]);
    HexPair(s[4], s[5]);
    assert ToHex(c) == "#" + [s[0], s[1]] + [s[2], s[3]] + [s[4], s[5]];
    Regroup(s);
  }

  lemma Regroup(s: string)
    requires |s| == 6
    ensures "#" + [s[0], s[1]] + [s[2], s[3]] + [s[4], s[5]] == "#" + s
  {
    assert s == [s[0], s[1]] + [s[2], s[3]] + [s[4], s[5]];
  }

  // ---- settings ----

  datatype UsageError = MissingInput

  /** What the generator works from: the source image, the output
      directory, the maskable background and the padding ratio. */
  datatype Config = Config(input: string, outDir: Setting, bg: Color, padding: real)

  /** The settings read from `process.argv`: the source image is the third
      word and must be there and non-empty; the options follow it. */
  function Configure(argv: seq<string>): (r: Result<Config, UsageError>)
    ensures r.Err? <==> |argv| < 3 || argv[2] == ""
    ensures r.Ok? ==>
      var args := ArgsOf(argv[3..], |argv| - 3);
      && r.value.input == argv[2]
      && r.value.outDir == Get(args, "out", "public/icons")
      && r.value.bg == ParseColor(Str(Get(args, "bg", "#1f6feb")))
      && r.value.bg.alpha == 1.0
      && 0.0 <= r.value.padding <= 0.4
      && r.value.padding == Clamp(ParseFloat(Str(Get(args, "padding", "0.12"))), 0.0, 0.4)
  {
    if |argv| < 3 || argv[2] == "" then Err(MissingInput)
    else
      var words := argv[3..];
      var args := ArgsOf(words, |words|);
      Ok(Config(argv[2], Get(args, "out", "public/icons"), ParseColor(Str(Get(args, "bg", "#1f6feb"))),
                Clamp(ParseFloat(Str(Get(args, "padding", "0.12"))), 0.0, 0.4)))
  }

  /** With no options, the defaults: `public/icons`, (31, 111, 235) and a
      padding of 0.12. */
  lemma ConfigureDefaults(node: string, script: string, input: string)
    requires input != ""
    ensures Configure([node, script, input])
         == Ok(Config(input, Text("public/icons"), Color(Finite(31.0), Finite(111.0), Finite(235.0), 1.0), 0.12))
  {
    var argv := [node, script, input];
    var args := ArgsOf(argv[3..], |argv| - 3);
    NoWords(argv);
    Unset(args);
    DefaultBackground();
    DefaultPadding();
    PaddingInRange();
  }

  /** With no options every setting takes its default. */
  lemma Unset(args: map<string, ArgValue>)
    requires args == map[]
    ensures Get(args, "out", "public/icons") == Text("public/icons")
    ensures Str(Get(args, "bg", "#1f6feb")) == "#1f6feb"
    ensures Str(Get(args, "padding", "0.12")) == "0.12"
  {
  }

  lemma PaddingInRange()
    ensures Clamp(Finite(0.12), 0.0, 0.4) == 0.12
  {
  }

  /** Three words carry no options. */
  lemma NoWords(argv: seq<string>)
    requires |argv| == 3
    ensures ArgsOf(argv[3..], |argv| - 3) == map[]
  {
  }

  /** `--padding` given as a bare flag reads `"true"`, which is not a
      number, so the padding falls to 0. */
  lemma PaddingFlag(node: string, script: string, input: string)
    requires input != ""
    ensures Configure([node, script, input, "--padding", "--out", "dist"]).Ok?
    ensures Configure([node, script, input, "--padding", "--out", "dist"]).value.padding == 0.0
    ensures Configure([node, script, input, "--padding", "--out", "dist"]).value.outDir == Text("dist")
  {
    var argv := [node, script, input, "--padding", "--out", "dist"];
    var words := argv[3..];
    assert words == ["--padding", "--out", "dist"];
    DashDash("--padding", "padding");
    DashDash("--out", "out");
    NotDash("dist");
    FlagThenWord(words, "--padding", "--out", "dist");
    var args := ArgsOf(words, |argv| - 3);
    assert Str(Get(args, "padding", "0.12")) == "true";
    NotNumeric();
    assert Get(args, "out", "public/icons") == Text("dist");
  }

  /** A word starting with two dashes is an option named by the rest. */
  lemma DashDash(w: string, k: string)
    requires |w| >= 2 && w[0] == '-' && w[1] == '-' && w[2..] == k
    ensures IsOption(w) && Key(w) == k
  {
    assert w[..2] == "--";
  }

  /** A word not starting with a dash is no option. */
  lemma NotDash(w: string)
    requires |w| >= 1 && w[0] != '-'
    ensures !IsOption(w)
  {
    if |w| >= 2 {
      assert w[..2][0] == w[0];
    }
  }

  /** An option, another option and a plain word: the first is a flag,
      the second takes the word. */
  lemma FlagThenWord(words: seq<string>, p: string, o: string, v: string)
    requires words == [p, o, v] && IsOption(p) && IsOption(o) && !IsOption(v) && Key(p) != Key(o)
    ensures Key(p) in ArgsOf(words, 3) && ArgsOf(words, 3)[Key(p)] == Flag
    ensures Key(o) in ArgsOf(words, 3) && ArgsOf(words, 3)[Key(o)] == Word(v)
  {
    LastOptionWins(words, 3, 0);
    LastOptionWins(words, 3, 1);
  }

  /** `"true"` holds no number. */
  lemma NotNumeric()
    ensures ParseFloat("true").NaN?
  {
    NoNumberAhead("true");
  }

  /** A word whose first character can start no numeric literal holds no number. */
  lemma NoNumberAhead(w: string)
    requires |w| >= 1 && !IsJsSpace(w[0]) && !IsDigit(w[0], 10)
    requires w[0] != '+' && w[0] != '-' && w[0] != '.' && w[0] != 'I'
    ensures ParseFloat(w).NaN?
  {
    assert TrimStart(w) == w;
    assert DigitPrefix(w, 10) == [];
    if |w| >= 8 {
      assert w[..8][0] == w[0];
    }
  }
}
