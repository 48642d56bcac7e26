/**
 * The part of decimal.js the parser relies on: turning the text captured by
 * `[\d.]+` into an exact decimal value (`new Decimal(text)`), or failing the
 * way the library's constructor throws on text such as "1..2" or ".".
 * Values are exact rationals (`real`); nothing is rounded.
 */
module Decimals {
  import opened Wrappers

  predicate IsDigit(c: char) {
    '0' <= c <= '9'
  }

  predicate AllDigits(s: string) {
    forall i :: 0 <= i < |s| ==> IsDigit(s[i])
  }

  /** The characters `[\d.]` admits. */
  predicate DigitsAndDots(s: string) {
    forall i :: 0 <= i < |s| ==> IsDigit(s[i]) || s[i] == '.'
  }

  function DigitValue(c: char): nat
    requires IsDigit(c)
  {
    (c as int) - ('0' as int)
  }

  function DigitChar(d: nat): (c: char)
    requires d < 10
    ensures IsDigit(c) && DigitValue(c) == d
  {
    ('0' as int + d) as char
  }

  function Pow10(k: nat): (r: nat)
    ensures r >= 1
  {
    if k == 0 then 1 else 10 * Pow10(k - 1)
  }

  /** The natural number a run of decimal digits denotes (most significant first). */
  function DigitsValue(s: string): nat
    requires AllDigits(s)
  {
    if s == [] then 0 else 10 * DigitsValue(s[..|s| - 1]) + DigitValue(s[|s| - 1])
  }

  /** Position of the first '.', or |s| when there is none. */
  function DotIndex(s: string): (k: nat)
    ensures k <= |s|
    ensures k < |s| ==> s[k] == '.'
    ensures forall i :: 0 <= i < k ==> s[i] != '.'
  {
    if s == [] then 0
    else if s[0] == '.' then 0
    else 1 + DotIndex(s[1..])
  }

  /**
   * `new Decimal(t)` for a text made of digits and dots: the accepted forms
   * are `\d+(\.\d*)?` and `\.\d+`; anything else makes the constructor throw,
   * which is `None` here.
   */
  function ParseDecimal(t: string): (r: Option<real>)
    requires DigitsAndDots(t)
    ensures r.Some? ==> r.value >= 0.0
    ensures r.None? ==> t == [] || '.' in t
    ensures AllDigits(t) && t != [] ==> r == Some(DigitsValue(t) as real)
  {
    var k := DotIndex(t);
    if k == |t| then
      if t == [] then None else Some(DigitsValue(t) as real)
    else
      var intPart, fracPart := t[..k], t[k + 1..];
      if !AllDigits(fracPart) || (intPart == [] && fracPart == []) then None
      else Some(PointValue(intPart, fracPart))
  }

  /** The value of `intPart.fracPart`. */
  function PointValue(intPart: string, fracPart: string): real
    requires AllDigits(intPart) && AllDigits(fracPart)
  {
    DigitsValue(intPart) as real + DigitsValue(fracPart) as real / Pow10(|fracPart|) as real
  }

  /** The constructor accepts exactly the texts with at most one dot and at least one digit. */
  lemma ParseDecimalAccepts(t: string)
    requires DigitsAndDots(t)
    ensures ParseDecimal(t).Some? <==> multiset(t)['.'] <= 1 && multiset(t)['.'] < |t|
  {
    var k := DotIndex(t);
    if k < |t| {
      var intPart, fracPart := t[..k], t[k + 1..];
      NoDots(intPart);
      NoDots(fracPart);
      DotCountSplit(t, k);
      assert ParseDecimal(t).Some? <==> AllDigits(fracPart) && (intPart != [] || fracPart != []);
    } else {
      NoDots(t);
    }
  }

  lemma DotCountSplit(t: string, k: nat)
    requires k < |t| && t[k] == '.'
    ensures multiset(t)['.'] == multiset(t[..k])['.'] + 1 + multiset(t[k + 1..])['.']
  {
    assert t == t[..k] + [t[k]] + t[k + 1..];
  }

  /** Within `[\d.]` text, having no dot means being all digits. */
  lemma NoDots(s: string)
    requires DigitsAndDots(s)
    ensures AllDigits(s) <==> multiset(s)['.'] == 0
  {
    if !AllDigits(s) {
      var i :| 0 <= i < |s| && !IsDigit(s[i]);
      assert s[i] in multiset(s);
    }
  }

  /** Digits written one after another: the left part is shifted by the length of the right. */
  lemma {:induction false} DigitsAppend(a: string, b: string)
    requires AllDigits(a) && AllDigits(b)
    ensures AllDigits(a + b)
    ensures DigitsValue(a + b) == DigitsValue(a) * Pow10(|b|) + DigitsValue(b)
  {
    assert AllDigits(a + b) by {
      forall i | 0 <= i < |a + b| ensures IsDigit((a + b)[i]) {
        if i >= |a| { assert (a + b)[i] == b[i - |a|]; }
      }
    }
    if b == [] {
      assert a + b == a;
    } else {
      var b' := b[..|b| - 1];
      assert (a + b)[..|a + b| - 1] == a + b';
      assert (a + b)[|a + b| - 1] == b[|b| - 1];
      DigitsAppend(a, b');
      assert Pow10(|b|) == 10 * Pow10(|b'|);
      ShiftDigit(DigitsValue(a), Pow10(|b'|), DigitsValue(b'), DigitValue(b[|b| - 1]));
    }
  }

  /** The arithmetic of appending one digit to a shifted number. */
  lemma ShiftDigit(v: int, p: int, w: int, d: int)
    ensures 10 * (v * p + w) + d == v * (10 * p) + (10 * w + d)
  {
  }

  /** An amount with a fractional part denotes its digits read as one integer, scaled down. */
  lemma ParseDecimalPoint(intPart: string, fracPart: string)
    requires AllDigits(intPart) && AllDigits(fracPart) && |intPart| + |fracPart| > 0
    ensures DigitsAndDots(intPart + "." + fracPart)
    ensures AllDigits(intPart + fracPart)
    ensures ParseDecimal(intPart + "." + fracPart)
         == Some(DigitsValue(intPart + fracPart) as real / Pow10(|fracPart|) as real)
  {
    var t := intPart + "." + fracPart;
    PointTextChars(intPart, fracPart);
    PointTextDot(intPart, fracPart);
    PointTextParts(intPart, fracPart);
    ParseDecimalSplit(t, intPart, fracPart);
    PointValueScaled(intPart, fracPart);
  }

  lemma ParseDecimalSplit(t: string, intPart: string, fracPart: string)
    requires AllDigits(intPart) && AllDigits(fracPart) && |intPart| + |fracPart| > 0
    requires DigitsAndDots(t) && DotIndex(t) == |intPart| < |t|
    requires t[..|intPart|] == intPart && t[|intPart| + 1..] == fracPart
    ensures ParseDecimal(t) == Some(PointValue(intPart, fracPart))
  {
  }

  lemma PointValueScaled(intPart: string, fracPart: string)
    requires AllDigits(intPart) && AllDigits(fracPart)
    ensures AllDigits(intPart + fracPart)
    ensures PointValue(intPart, fracPart) == DigitsValue(intPart + fracPart) as real / Pow10(|fracPart|) as real
  {
    DigitsAppend(intPart, fracPart);
    ScaleDown(DigitsValue(intPart), DigitsValue(fracPart), Pow10(|fracPart|));
  }

  lemma ScaleDown(m: nat, f: nat, p: nat)
    requires p > 0
    ensures m as real + f as real / p as real == (m * p + f) as real / p as real
  {
  }

  lemma PointTextChars(intPart: string, fracPart: string)
    requires AllDigits(intPart) && AllDigits(fracPart)
    ensures DigitsAndDots(intPart + "." + fracPart)
  {
    var t := intPart + "." + fracPart;
    forall i | 0 <= i < |t| ensures IsDigit(t[i]) || t[i] == '.' {
      if i < |intPart| { assert t[i] == intPart[i]; }
      else if i > |intPart| { assert t[i] == fracPart[i - |intPart| - 1]; }
    }
  }

  lemma PointTextDot(intPart: string, fracPart: string)
    requires AllDigits(intPart)
    ensures DotIndex(intPart + "." + fracPart) == |intPart|
  {
    var t := intPart + "." + fracPart;
    var k := DotIndex(t);
    assert t[|intPart|] == '.';
  }

  lemma PointTextParts(intPart: string, fracPart: string)
    ensures (intPart + "." + fracPart)[..|intPart|] == intPart
    ensures (intPart + "." + fracPart)[|intPart| + 1..] == fracPart
  {
  }

  /** An amount without a dot denotes the integer its digits spell. */
  lemma ParseDecimalInteger(digits: string)
    requires AllDigits(digits) && |digits| > 0
    ensures DigitsAndDots(digits)
    ensures ParseDecimal(digits) == Some(DigitsValue(digits) as real)
  {
  }

  /** The shortest decimal spelling of a natural number. */
  function NatDigits(n: nat): (s: string)
    ensures AllDigits(s) && |s| > 0
  {
    if n < 10 then [DigitChar(n)] else NatDigits(n / 10) + [DigitChar(n % 10)]
  }

  lemma {:induction false} NatDigitsValue(n: nat)
    ensures DigitsValue(NatDigits(n)) == n
  {
    if n >= 10 {
      var s := NatDigits(n);
      assert s[..|s| - 1] == NatDigits(n / 10);
      NatDigitsValue(n / 10);
    }
  }

  /** Left-pads a digit run with zeros up to `width` digits. */
  function ZeroPad(s: string, width: nat): (r: string)
    requires AllDigits(s)
    ensures AllDigits(r) && |r| >= width && |r| >= |s|
    decreases width - |s|
  {
    if |s| >= width then s else ZeroPad("0" + s, width)
  }

  lemma {:induction false} ZeroPadValue(s: string, width: nat)
    requires AllDigits(s)
    ensures DigitsValue(ZeroPad(s, width)) == DigitsValue(s)
    decreases width - |s|
  {
    if |s| < width {
      DigitsAppend("0", s);
      assert DigitsValue("0") == 0;
      ZeroPadValue("0" + s, width);
    }
  }

  /**
   * Writes the amount `mantissa / 10^scale` with exactly `scale` fractional digits,
   * the way amounts with up to 18 fractional digits appear in log lines.
   */
  function RenderDecimal(mantissa: nat, scale: nat): (t: string)
    ensures DigitsAndDots(t)
  {
    var d := ZeroPad(NatDigits(mantissa), scale + 1);
    if scale == 0 then d
    else
      var t := d[..|d| - scale] + "." + d[|d| - scale..];
      assert DigitsAndDots(t) by {
        forall i | 0 <= i < |t| ensures IsDigit(t[i]) || t[i] == '.' {
          if i < |d| - scale { assert t[i] == d[i]; }
          else if i > |d| - scale { assert t[i] == d[i - 1]; }
        }
      }
      t
  }

  /** Parsing a rendered amount gives back its exact value: no digit is lost. */
  lemma RenderDecimalRoundTrip(mantissa: nat, scale: nat)
    ensures ParseDecimal(RenderDecimal(mantissa, scale))
         == Some(mantissa as real / Pow10(scale) as real)
  {
    var n := NatDigits(mantissa);
    var d := ZeroPad(n, scale + 1);
    NatDigitsValue(mantissa);
    ZeroPadValue(n, scale + 1);
    assert DigitsValue(d) == mantissa;
    if scale == 0 {
      ParseDecimalInteger(d);
    } else {
      var ip, fp := d[..|d| - scale], d[|d| - scale..];
      assert ip + fp == d;
      assert |fp| == scale;
      ParseDecimalPoint(ip, fp);
      assert RenderDecimal(mantissa, scale) == ip + "." + fp;
    }
  }
}
