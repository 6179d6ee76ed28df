/**
 The fragment of JavaScript's number <-> string conversions that the fare
 engine and the statistics handler rely on: white space, decimal digit
 strings, `parseInt`/`parseFloat` on decimal input (exponents included for
 `parseFloat`), and `toFixed(2)` applied
 to an integer. The parsers work on positions in the string rather than on
 slices of it.
 */
module JsNumber {
  import opened Wrappers

  /** White space as JavaScript strips it in `parseInt`/`parseFloat` and matches it with `\s`. */
  predicate IsWhitespace(c: char) {
    || c == '\t' || c == '\n' || c == '\U{0B}' || c == '\U{0C}' || c == '\r' || c == ' '
    || c == '\U{A0}' || c == '\U{1680}' || ('\U{2000}' <= c <= '\U{200A}')
    || c == '\U{2028}' || c == '\U{2029}' || c == '\U{202F}' || c == '\U{205F}'
    || c == '\U{3000}' || c == '\U{FEFF}'
  }

  predicate IsDigit(c: char) {
    '0' <= c <= '9'
  }

  predicate AllDigits(s: string) {
    forall k | 0 <= k < |s| :: IsDigit(s[k])
  }

  /** The value of a decimal digit (only ever applied to digits). */
  function DigitValue(c: char): (d: nat)
    ensures d < 10
  {
    if IsDigit(c) then (c as int) - ('0' as int) else 0
  }

  function DigitChar(d: nat): (c: char)
    requires d < 10
    ensures IsDigit(c) && DigitValue(c) == d
  {
    (('0' as int) + d) as char
  }

  /** The value of the decimal digits `s[i..j]`, most significant first. */
  function DigitsValue(s: string, i: nat, j: nat): nat
    requires i <= j <= |s|
    decreases j - i
  {
    if j == i then 0 else 10 * DigitsValue(s, i, j - 1) + DigitValue(s[j - 1])
  }

  function Pow10(k: nat): (p: nat)
    ensures p >= 1
  {
    if k == 0 then 1 else 10 * Pow10(k - 1)
  }

  /** The value of a digit run depends only on its characters, not on where it sits. */
  lemma {:induction false} DigitsValueShift(s: string, i: nat, j: nat, t: string, off: nat)
    requires i <= j <= |s| && j + off <= |t|
    requires forall k | i <= k < j :: s[k] == t[k + off]
    ensures DigitsValue(s, i, j) == DigitsValue(t, i + off, j + off)
    decreases j - i
  {
    if j > i {
      DigitsValueShift(s, i, j - 1, t, off);
    }
  }

  /** Decimal rendering of a natural number, without leading zeros. */
  function NatToString(n: nat): (s: string)
    ensures |s| > 0 && AllDigits(s)
    ensures DigitsValue(s, 0, |s|) == n
    ensures |s| == 1 || s[0] != '0'
  {
    if n < 10 then [DigitChar(n)]
    else
      var p := NatToString(n / 10);
      var s := p + [DigitChar(n % 10)];
      DigitsValueShift(p, 0, |p|, s, 0);
      s
  }

  /**
   The decimal digits of an integer `n`, after a `-` when it is negative.
   This is JavaScript's `String(n)` only for |n| < 10^21; from there on
   `String` switches to exponent form.
   */
  function IntToString(n: int): (s: string)
    ensures |s| > 0
    ensures n < 0 <==> s[0] == '-'
    ensures n >= 0 ==> s == NatToString(n)
    ensures n < 0 ==> s[1..] == NatToString(-n)
  {
    if n < 0 then "-" + NatToString(-n) else NatToString(n)
  }

  /** `n.toFixed(2)` for an integer-valued number `n` (below 10^21). */
  function ToFixed2(n: int): string {
    IntToString(n) + ".00"
  }

  /** The first position at or after `i` that does not hold white space. */
  function SkipWhitespace(s: string, i: nat): (j: nat)
    requires i <= |s|
    ensures i <= j <= |s|
    ensures forall k | i <= k < j :: IsWhitespace(s[k])
    ensures j == |s| || !IsWhitespace(s[j])
    decreases |s| - i
  {
    if i < |s| && IsWhitespace(s[i]) then SkipWhitespace(s, i + 1) else i
  }

  /** The end of the run of decimal digits that starts at `i`. */
  function DigitsEnd(s: string, i: nat): (j: nat)
    requires i <= |s|
    ensures i <= j <= |s|
    ensures forall k | i <= k < j :: IsDigit(s[k])
    ensures j == |s| || !IsDigit(s[j])
    decreases |s| - i
  {
    if i < |s| && IsDigit(s[i]) then DigitsEnd(s, i + 1) else i
  }

  /** The position after an optional `+` or `-` at `i`. */
  function SignEnd(s: string, i: nat): (j: nat)
    requires i <= |s|
    ensures i <= j <= |s|
  {
    if i < |s| && (s[i] == '-' || s[i] == '+') then i + 1 else i
  }

  /**
   `parseInt(s)` with the default radix on decimal input: leading white space,
   an optional sign, then the longest run of digits. `None` is `NaN`.
   */
  function ParseInt(s: string): Option<int> {
    var i := SkipWhitespace(s, 0);
    var d := SignEnd(s, i);
    var e := DigitsEnd(s, d);
    if e == d then None
    else
      var v: int := DigitsValue(s, d, e);
      Some(if i < |s| && s[i] == '-' then -v else v)
  }

  /**
   `parseFloat(s)` on decimal input: leading white space, an optional sign,
   integer digits, an optional `.` with fraction digits, and an optional
   exponent part; at least one mantissa digit must be present. `None` is
   `NaN`.
   */
  function ParseFloat(s: string): Option<real> {
    var r := Mantissa(s);
    if r.None? then None else Some(r.value.0 * ExponentScale(s, r.value.1))
  }

  /**
   The signed decimal mantissa `parseFloat` reads, and the position where
   it ends; `None` when no mantissa digit is present.
   */
  function Mantissa(s: string): (r: Option<(real, nat)>)
    ensures r.Some? ==> r.value.1 <= |s|
  {
    var i := SkipWhitespace(s, 0);
    var d := SignEnd(s, i);
    var e := DigitsEnd(s, d);
    var f := if e < |s| && s[e] == '.' then DigitsEnd(s, e + 1) else e;
    var fractionDigits := if e < f then f - (e + 1) else 0;
    if e == d && fractionDigits == 0 then None
    else
      var fraction := if fractionDigits > 0 then DigitsValue(s, e + 1, f) as real / Pow10(fractionDigits) as real else 0.0;
      var v := DigitsValue(s, d, e) as real + fraction;
      Some((if i < |s| && s[i] == '-' then -v else v, f))
  }

  /**
   The factor an exponent part `e`/`E`, optional sign and digits starting at
   `x` stands for; 1 when no such part starts there (a bare `e` is not one).
   */
  function ExponentScale(s: string, x: nat): (scale: real)
    requires x <= |s|
    ensures scale > 0.0
    ensures x == |s| || (s[x] != 'e' && s[x] != 'E') ==> scale == 1.0
  {
    if x < |s| && (s[x] == 'e' || s[x] == 'E') then
      var ds := SignEnd(s, x + 1);
      var de := DigitsEnd(s, ds);
      if de == ds then 1.0
      else if s[x + 1] == '-' then 1.0 / Pow10(DigitsValue(s, ds, de)) as real
      else Pow10(DigitsValue(s, ds, de)) as real
    else 1.0
  }

  /** Where the parsers find the digits of a signed digit string followed by a tail that starts with no digit. */
  lemma SignedDigitsLayout(neg: bool, ds: string, tail: string)
    requires |ds| > 0 && AllDigits(ds)
    requires |tail| == 0 || !IsDigit(tail[0])
    ensures var s := (if neg then "-" else "") + ds + tail;
      var d := if neg then 1 else 0;
      && SkipWhitespace(s, 0) == 0
      && (0 < |s| && s[0] == '-' <==> neg)
      && SignEnd(s, 0) == d
      && DigitsEnd(s, d) == d + |ds|
      && DigitsValue(s, d, d + |ds|) == DigitsValue(ds, 0, |ds|)
  {
    var s := (if neg then "-" else "") + ds + tail;
    var d := if neg then 1 else 0;
    assert forall k | 0 <= k < |ds| :: s[k + d] == ds[k];
    assert s[0] == (if neg then '-' else ds[0]);
    assert DigitsEnd(s, d) == d + |ds| by {
      assert d + |ds| < |s| ==> s[d + |ds|] == tail[0];
      DigitsEndOfRun(s, d, d + |ds|);
    }
    assert DigitsValue(s, d, d + |ds|) == DigitsValue(ds, 0, |ds|) by {
      DigitsValueShift(ds, 0, |ds|, s, d);
    }
  }

  /** A run of digits that is followed by a non-digit ends where the run ends. */
  lemma {:induction false} DigitsEndOfRun(s: string, i: nat, j: nat)
    requires i <= j <= |s|
    requires forall k | i <= k < j :: IsDigit(s[k])
    requires j == |s| || !IsDigit(s[j])
    ensures DigitsEnd(s, i) == j
    decreases j - i
  {
    if i < j {
      DigitsEndOfRun(s, i + 1, j);
    }
  }

  /** `parseInt` reads back the decimal digits of every integer `n`. */
  lemma ParseIntOfIntToString(n: int)
    ensures ParseInt(IntToString(n)) == Some(n)
  {
    var ds := NatToString(if n < 0 then -n else n);
    assert IntToString(n) == (if n < 0 then "-" else "") + ds + "";
    SignedDigitsLayout(n < 0, ds, "");
  }

  /** `parseFloat` reads back the decimal digits of every integer `n`. */
  lemma ParseFloatOfIntToString(n: int)
    ensures ParseFloat(IntToString(n)) == Some(n as real)
  {
    var ds := NatToString(if n < 0 then -n else n);
    assert IntToString(n) == (if n < 0 then "-" else "") + ds + "";
    SignedDigitsLayout(n < 0, ds, "");
  }

  /**
   After any prefix, `n.toFixed(2)` ends in `.00`, the characters before
   that read back as `n` under `parseInt`, and the whole reads back as `n`
   under `parseFloat`. Before the `.00` stand a `-` exactly when `n` is
   negative and then the decimal digits of |n|.
   */
  lemma ToFixed2AfterPrefix(pre: string, n: int)
    ensures var text := pre + ToFixed2(n);
      && |text| > |pre| + 3 && text[..|pre|] == pre && text[|text| - 3..] == ".00"
      && ParseInt(text[|pre|..|text| - 3]) == Some(n)
      && ParseFloat(text[|pre|..]) == Some(n as real)
    ensures var text := pre + ToFixed2(n);
      text[|pre|..|text| - 3] == (if n < 0 then "-" else "") + NatToString(if n < 0 then -n else n)
  {
    ToFixed2Layout(pre, n);
    ParseIntOfIntToString(n);
    ParseFloatOfToFixed2(n);
  }

  /** Where the pieces of `n.toFixed(2)` sit after a prefix. */
  lemma ToFixed2Layout(pre: string, n: int)
    ensures var text := pre + ToFixed2(n);
      && |text| > |pre| + 3 && text[..|pre|] == pre && text[|text| - 3..] == ".00"
      && text[|pre|..] == ToFixed2(n) && text[|pre|..|text| - 3] == IntToString(n)
  {
    var text := pre + ToFixed2(n);
    assert text == pre + IntToString(n) + ".00";
    assert text[|pre|..] == ToFixed2(n);
    assert text[|pre|..|text| - 3] == IntToString(n);
  }

  /** `parseFloat(n.toFixed(2)) == n` for an integer `n`. */
  lemma ParseFloatOfToFixed2(n: int)
    ensures ParseFloat(ToFixed2(n)) == Some(n as real)
  {
    var ds := NatToString(if n < 0 then -n else n);
    var s := (if n < 0 then "-" else "") + ds + ".00";
    assert ToFixed2(n) == s;
    SignedDigitsLayout(n < 0, ds, ".00");
    var e := (if n < 0 then 1 else 0) + |ds|;
    assert s[e] == '.' && s[e + 1] == '0' && s[e + 2] == '0' && e + 3 == |s|;
    DigitsEndOfRun(s, e + 1, e + 3);
    assert DigitsValue(s, e + 1, e + 2) == 0;
    assert DigitsValue(s, e + 1, e + 3) == 0;
  }

  /** The exponent part `e`, an optional `-`, and the decimal digits of `k`. */
  function ExponentPart(negExp: bool, k: nat): (t: string)
    ensures |t| > 0 && t[0] == 'e'
  {
    "e" + (if negExp then "-" else "") + NatToString(k)
  }

  /**
   In the decimal digits of `m` followed by an exponent part, `parseFloat` reads the
   mantissa `m` and scales it by `10^k`, or divides it by `10^k` when the
   exponent is negative.
   */
  lemma ParseFloatOfExponent(m: int, negExp: bool, k: nat)
    ensures var s := IntToString(m) + ExponentPart(negExp, k);
      && Mantissa(s) == Some((m as real, |IntToString(m)|))
      && ExponentScale(s, |IntToString(m)|) == if negExp then 1.0 / Pow10(k) as real else Pow10(k) as real
  {
    MantissaOfIntToString(m, ExponentPart(negExp, k));
    ExponentOfSuffix(IntToString(m), negExp, k);
  }

  /** The decimal digits of `m` followed by a tail that starts with neither a digit nor a point is a mantissa worth `m`. */
  lemma MantissaOfIntToString(m: int, tail: string)
    requires |tail| > 0 && !IsDigit(tail[0]) && tail[0] != '.'
    ensures Mantissa(IntToString(m) + tail) == Some((m as real, |IntToString(m)|))
  {
    var ds := NatToString(if m < 0 then -m else m);
    assert IntToString(m) + tail == (if m < 0 then "-" else "") + ds + tail;
    MantissaLayout(m < 0, ds, tail);
  }

  /** An exponent part `e`, optional `-` and the digits of `k` after any prefix stands for `10^±k`. */
  lemma ExponentOfSuffix(pre: string, negExp: bool, k: nat)
    ensures ExponentScale(pre + ExponentPart(negExp, k), |pre|) == if negExp then 1.0 / Pow10(k) as real else Pow10(k) as real
  {
    var ks := NatToString(k);
    var sg := if negExp then "-" else "";
    var s := pre + ExponentPart(negExp, k);
    assert ExponentPart(negExp, k) == "e" + sg + ks;
    var x := |pre|;
    assert s[x] == 'e';
    assert negExp ==> s[x + 1] == '-';
    assert forall j | 0 <= j < |ks| :: s[x + 1 + |sg| + j] == ks[j];
    ExponentLayout(s, x, negExp, ks);
  }

  /** A signed digit run followed by neither a digit nor a point is a mantissa that ends where the run ends. */
  lemma MantissaLayout(neg: bool, ds: string, tail: string)
    requires |ds| > 0 && AllDigits(ds)
    requires |tail| > 0 && !IsDigit(tail[0]) && tail[0] != '.'
    ensures var s := (if neg then "-" else "") + ds + tail;
      var v := DigitsValue(ds, 0, |ds|) as real;
      Mantissa(s) == Some((if neg then -v else v, (if neg then 1 else 0) + |ds|))
  {
    var s := (if neg then "-" else "") + ds + tail;
    SignedDigitsLayout(neg, ds, tail);
    assert s[(if neg then 1 else 0) + |ds|] == tail[0];
  }

  /** Where an exponent part `e`, optional `-` and a digit run `ks` end a string, it stands for `10^±ks`. */
  lemma ExponentLayout(s: string, x: nat, negExp: bool, ks: string)
    requires |ks| > 0 && AllDigits(ks)
    requires x < |s| && s[x] == 'e'
    requires negExp ==> x + 1 < |s| && s[x + 1] == '-'
    requires x + 1 + (if negExp then 1 else 0) + |ks| == |s|
    requires forall j | 0 <= j < |ks| :: s[x + 1 + (if negExp then 1 else 0) + j] == ks[j]
    ensures var p := Pow10(DigitsValue(ks, 0, |ks|)) as real;
      ExponentScale(s, x) == if negExp then 1.0 / p else p
  {
    var off := x + 1 + (if negExp then 1 else 0);
    if !negExp {
      assert s[x + 1] == ks[0];
    }
    assert SignEnd(s, x + 1) == off;
    forall i | off <= i < |s|
      ensures IsDigit(s[i])
    {
      assert s[off + (i - off)] == ks[i - off];
    }
    DigitsEndOfRun(s, off, |s|);
    DigitsValueShift(ks, 0, |ks|, s, off);
  }

  /** `parseInt` and `parseFloat` give `NaN` on a string whose first character can start no number. */
  lemma ParseOfNonNumericStart(s: string)
    requires |s| > 0
    requires !IsWhitespace(s[0]) && !IsDigit(s[0]) && s[0] != '-' && s[0] != '+' && s[0] != '.'
    ensures ParseInt(s) == None
    ensures ParseFloat(s) == None
  {
  }

  /** A number has `k` digits or fewer iff it is below `10^k`. */
  lemma {:induction false} NatToStringLength(n: nat, k: nat)
    requires k >= 1
    ensures |NatToString(n)| <= k <==> n < Pow10(k)
    decreases n
  {
    if n >= 10 {
      assert |NatToString(n)| == |NatToString(n / 10)| + 1;
      if k == 1 {
        assert Pow10(1) == 10;
      } else {
        NatToStringLength(n / 10, k - 1);
        assert Pow10(k) == 10 * Pow10(k - 1);
      }
    } else {
      Pow10AtLeast(k);
    }
  }

  lemma {:induction false} Pow10AtLeast(k: nat)
    requires k >= 1
    ensures Pow10(k) >= 10
  {
    if k > 1 {
      Pow10AtLeast(k - 1);
    }
  }
}
