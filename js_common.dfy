// The JavaScript string and number conversions that the GUI scripts rely on:
// parseInt with no radix, Number (and so isNaN) on text, comparisons with the
// numbers Number gives, and String.prototype.substring. Numbers are exact:
// the rounding of IEEE doubles is not modelled.

module JsCommon {
  import opened Common

  /** The length of the run of decimal digits at the start of s. */
  function DigitRun(s: string): (n: nat)
    ensures n <= |s| && AllDigits(s[..n])
    ensures n < |s| ==> !IsDigit(s[n])
    decreases |s|
  {
    if |s| > 0 && IsDigit(s[0]) then
      var m := DigitRun(s[1..]);
      assert s[..m + 1] == [s[0]] + s[1..][..m];
      m + 1
    else 0
  }

  /**
   * parseInt(s) with no radix: leading whitespace is skipped, then an
   * optional sign; a "0x" or "0X" prefix selects hexadecimal, otherwise the
   * digits are decimal, and the longest run of such digits is read; None
   * stands for NaN, when no digit follows.
   */
  function ParseIntJs(s: string): (r: Option<int>)
  {
    SignedRun(LStrip(s))
  }

  /** parseInt after the whitespace: an optional sign, then the leading digit run. */
  function SignedRun(t: string): (r: Option<int>)
  {
    if |t| > 0 && t[0] == '-' then Negated(Magnitude(t[1..]))
    else if |t| > 0 && t[0] == '+' then Magnitude(t[1..])
    else Magnitude(t)
  }

  /** parseInt after the sign: a 0x or 0X prefix reads hexadecimal digits, anything else decimal ones. */
  function Magnitude(t: string): (r: Option<int>)
    ensures !HexPrefixed(t) ==> r == UnsignedRun(t)
  {
    if HexPrefixed(t) then RadixRun(t[2..], 16) else UnsignedRun(t)
  }

  predicate HexPrefixed(t: string)
  {
    |t| >= 2 && t[0] == '0' && (t[1] == 'x' || t[1] == 'X')
  }

  /** The value of the leading run of digits of the radix, None when t does not start with one. */
  function RadixRun(t: string, radix: nat): (r: Option<int>)
    ensures r.Some? <==> |t| > 0 && IsRadixDigit(t[0], radix)
  {
    var n := RadixDigitRun(t, radix);
    if n == 0 then None else Some(RadixValue(t[..n], radix) as int)
  }

  /** The length of the run of digits of the radix at the start of t. */
  function RadixDigitRun(t: string, radix: nat): (n: nat)
    ensures n <= |t| && AllRadixDigits(t[..n], radix)
    ensures n < |t| ==> !IsRadixDigit(t[n], radix)
    decreases |t|
  {
    if |t| > 0 && IsRadixDigit(t[0], radix) then
      var m := RadixDigitRun(t[1..], radix);
      assert t[..m + 1] == [t[0]] + t[1..][..m];
      m + 1
    else 0
  }

  predicate IsHexDigit(c: char)
  {
    IsDigit(c) || 'a' <= c <= 'f' || 'A' <= c <= 'F'
  }

  /** The value of a hexadecimal digit, either case. */
  function HexDigitValue(c: char): (d: nat)
    requires IsHexDigit(c)
    ensures d < 16
    ensures IsDigit(c) ==> d == DigitValue(c)
  {
    if IsDigit(c) then DigitValue(c)
    else if 'a' <= c <= 'f' then (c as int) - ('a' as int) + 10
    else (c as int) - ('A' as int) + 10
  }

  /** A digit of the radix (2, 8, 10 or 16). */
  predicate IsRadixDigit(c: char, radix: nat)
  {
    IsHexDigit(c) && HexDigitValue(c) < radix
  }

  predicate AllRadixDigits(s: string, radix: nat)
  {
    forall i :: 0 <= i < |s| ==> IsRadixDigit(s[i], radix)
  }

  /** The value of the digits of s in the radix, most significant first. */
  function RadixValue(s: string, radix: nat): nat
    requires AllRadixDigits(s, radix)
    decreases |s|
  {
    if |s| == 0 then 0 else radix * RadixValue(s[..|s| - 1], radix) + HexDigitValue(s[|s| - 1])
  }

  function Negated(v: Option<int>): Option<int>
  {
    if v.Some? then Some(-v.value) else None
  }

  /** The value of the leading digit run of t, None when t does not start with a digit. */
  function UnsignedRun(t: string): (r: Option<int>)
    ensures r.Some? <==> |t| > 0 && IsDigit(t[0])
  {
    var n := DigitRun(t);
    if n == 0 then None else Some(DigitsValue(t[..n]) as int)
  }

  /** A string made only of digits runs to its end. */
  lemma UnsignedRunOfDigits(d: string)
    requires |d| > 0 && AllDigits(d)
    ensures UnsignedRun(d) == Some(DigitsValue(d) as int)
  {
    AllDigitsRun(d);
    assert d[..|d|] == d;
  }

  /** The leading run of l is the digits d it starts with, when no digit follows them. */
  lemma UnsignedRunPrefix(d: string, l: string)
    requires |d| > 0 && AllDigits(d) && |d| <= |l| && l[..|d|] == d
    requires |d| < |l| ==> !IsDigit(l[|d|])
    ensures UnsignedRun(l) == Some(DigitsValue(d) as int)
  {
    DigitRunPrefix(d, l);
  }

  /** parseInt after the sign reads the digits d l starts with, when neither a digit nor an 'x' follows them. */
  lemma MagnitudePrefix(d: string, l: string)
    requires |d| > 0 && AllDigits(d) && |d| <= |l| && l[..|d|] == d
    requires |d| < |l| ==> !IsDigit(l[|d|]) && l[|d|] != 'x' && l[|d|] != 'X'
    ensures Magnitude(l) == Some(DigitsValue(d) as int)
  {
    UnsignedRunPrefix(d, l);
    if |d| >= 2 {
      assert l[1] == d[1] && IsDigit(d[1]);
    }
  }

  lemma {:induction false} DigitRunPrefix(d: string, l: string)
    requires AllDigits(d) && |d| <= |l| && l[..|d|] == d
    requires |d| < |l| ==> !IsDigit(l[|d|])
    ensures DigitRun(l) == |d|
    decreases |d|
  {
    if |d| > 0 {
      assert l[1..][..|d| - 1] == d[1..];
      DigitRunPrefix(d[1..], l[1..]);
    }
  }

  lemma {:induction false} AllDigitsRun(s: string)
    requires AllDigits(s)
    ensures DigitRun(s) == |s|
    decreases |s|
  {
    if |s| > 0 {
      AllDigitsRun(s[1..]);
    }
  }

  /** parseInt reads "0x" text in hexadecimal. */
  lemma ParseIntJsHex()
    ensures ParseIntJs("0x1F") == Some(31)
  {
    LStripNoSpace("0x1F");
    assert "0x1F"[2..] == "1F";
    assert RadixDigitRun("1F", 16) == 2 by {
      assert "1F"[1..] == "F" && "F"[1..] == "";
    }
    assert RadixValue("1F", 16) == 31 by {
      assert "1F"[..1] == "1" && "1"[..0] == "";
    }
    assert "1F"[..2] == "1F";
  }

  /** parseInt stops at the first character that is not a digit: "1e3" reads 1. */
  lemma ParseIntJsStopsAtExponent()
    ensures ParseIntJs("1e3") == Some(1)
  {
    LStripNoSpace("1e3");
    UnsignedRunPrefix("1", "1e3");
    assert DigitsValue("1") == 1 by {
      assert "1"[..0] == "";
    }
  }

  /** parseInt of "Infinity", signed or not, is NaN: no digit follows the sign. */
  lemma ParseIntJsInfinity(s: string)
    requires Strip(s) == "Infinity" || Strip(s) == "+Infinity" || Strip(s) == "-Infinity"
    ensures ParseIntJs(s).None?
  {
    var t := LStrip(s);
    var w := Strip(s);
    assert w == RStrip(t) && w == t[..|w|];
    assert t[0] == w[0] && t[1] == w[1];
    if w[0] == 'I' {
      assert !HexPrefixed(t) && !IsDigit(t[0]);
    } else {
      assert t[1..][0] == 'I' && !HexPrefixed(t[1..]);
    }
  }

  /** Text that starts with no whitespace is left as it is by the skip. */
  lemma LStripNoSpace(s: string)
    requires |s| > 0 && !IsSpace(s[0])
    ensures LStrip(s) == s
  {
  }

  /** parseInt reads back the decimal text of every integer. */
  lemma ParseIntJsOfIntToString(i: int)
    ensures ParseIntJs(IntToString(i)) == Some(i)
  {
    var m: nat := if i < 0 then -i else i;
    var digits := NatToString(m);
    DigitsValueOfNatToString(m);
    UnsignedRunOfDigits(digits);
    var s := IntToString(i);
    if i < 0 {
      assert s == "-" + digits && s[1..] == digits;
    } else {
      assert s == digits;
    }
    LStripNoSpace(s);
  }

  // ---------------------------------------------------------------------
  // Number(s)

  /** A JavaScript number: NaN, a finite value or an infinity. */
  datatype JsNumber = NaN | Finite(x: real) | Infinite(negative: bool)

  /**
   * Number(s), which isNaN(s) tests: the surrounding whitespace is skipped;
   * blank text is 0; "0x", "0b" or "0o" (either case) followed by digits of
   * that radix is their value; otherwise an optional sign followed by
   * "Infinity" or by a decimal literal (digits with at most one '.', at
   * least one digit, then an optional exponent 'e' or 'E' with an optionally
   * signed integer); anything else is NaN.
   */
  function NumberJs(s: string): (r: JsNumber)
    ensures Strip(s) == "" ==> r == Finite(0.0)
    ensures ParseInt(s).Some? ==> r == Finite(ParseInt(s).value as real)
    ensures r.Infinite? <==> Strip(s) == "Infinity" || Strip(s) == "+Infinity" || Strip(s) == "-Infinity"
    ensures r.Infinite? ==> (r.negative <==> Strip(s) == "-Infinity")
  {
    ParseIntStrips(s);
    StrippedNumberCases(Strip(s));
    StrippedNumber(Strip(s))
  }

  /** Number of text without surrounding whitespace. */
  function StrippedNumber(t: string): JsNumber
  {
    if t == "" then Finite(0.0)
    else if PrefixRadix(t) != 0 then
      (if |t| > 2 && AllRadixDigits(t[2..], PrefixRadix(t)) then Finite(RadixValue(t[2..], PrefixRadix(t)) as real) else NaN)
    else SignedNumber(t)
  }

  lemma StrippedNumberCases(t: string)
    ensures ParseDecimal(t).Some? ==> StrippedNumber(t) == Finite(ParseDecimal(t).value as real)
    ensures StrippedNumber(t).Infinite? <==> t == "Infinity" || t == "+Infinity" || t == "-Infinity"
    ensures StrippedNumber(t).Infinite? ==> (StrippedNumber(t).negative <==> t == "-Infinity")
  {
    DecimalNumberOfDigits(t);
    if |t| > 0 && (t[0] == '-' || t[0] == '+') {
      assert t == [t[0]] + t[1..];
    }
  }

  /** The radix a "0x", "0b" or "0o" prefix (either case) names, 0 for none. */
  function PrefixRadix(t: string): (radix: nat)
    ensures radix in {0, 2, 8, 16}
    ensures radix != 0 ==> |t| >= 2 && t[0] == '0' && !IsDigit(t[1])
  {
    if |t| < 2 || t[0] != '0' then 0
    else if t[1] == 'x' || t[1] == 'X' then 16
    else if t[1] == 'b' || t[1] == 'B' then 2
    else if t[1] == 'o' || t[1] == 'O' then 8
    else 0
  }

  /** A StrDecimalLiteral: an optional sign, then "Infinity" or an unsigned decimal literal. */
  function SignedNumber(t: string): (r: JsNumber)
  {
    if |t| > 0 && t[0] == '-' then Negate(UnsignedNumber(t[1..]))
    else if |t| > 0 && t[0] == '+' then UnsignedNumber(t[1..])
    else UnsignedNumber(t)
  }

  function Negate(n: JsNumber): JsNumber
  {
    match n
    case NaN => NaN
    case Finite(x) => Finite(-x)
    case Infinite(neg) => Infinite(!neg)
  }

  function UnsignedNumber(u: string): (r: JsNumber)
    ensures r.Infinite? <==> u == "Infinity"
    ensures r.Infinite? ==> !r.negative
  {
    if u == "Infinity" then Infinite(false)
    else
      var v := DecimalValue(u);
      if v.Some? then Finite(v.value) else NaN
  }

  /** The index of the first 'e' or 'E' of u, |u| when there is none. */
  function ExponentAt(u: string): (i: nat)
    ensures i <= |u| && (i < |u| ==> u[i] == 'e' || u[i] == 'E')
    ensures forall k :: 0 <= k < i ==> u[k] != 'e' && u[k] != 'E'
    decreases |u|
  {
    if |u| == 0 then 0
    else if u[0] == 'e' || u[0] == 'E' then 0
    else 1 + ExponentAt(u[1..])
  }

  /**
   * An unsigned decimal literal: the mantissa before the exponent marker holds
   * at most one '.' and at least one digit, the exponent after it is an
   * optionally signed integer; its value is exact.
   */
  function DecimalValue(u: string): (r: Option<real>)
  {
    var e := ExponentAt(u);
    var m := u[..e];
    var exponent := if e == |u| then Some(0) else ParseDecimal(u[e + 1..]);
    var d := FindChar(m, '.', 0);
    var whole := if d == -1 then m else m[..d];
    var fraction := if d == -1 then "" else m[d + 1..];
    if exponent.None? || !AllDigits(whole) || !AllDigits(fraction) || |whole| + |fraction| == 0 then None
    else Some(Scaled(DigitsValue(whole + fraction), exponent.value - |fraction|))
  }

  /** m * 10^e as an exact number. */
  function Scaled(m: nat, e: int): real
  {
    if e >= 0 then (m * Pow10(e)) as real else (m as real) / (Pow10(-e) as real)
  }

  function Pow10(n: nat): (p: nat)
    ensures p >= 1
  {
    if n == 0 then 1 else 10 * Pow10(n - 1)
  }

  /** Optionally signed decimal digits are a decimal literal with the digits' value. */
  lemma DecimalNumberOfDigits(t: string)
    ensures ParseDecimal(t).Some? ==> PrefixRadix(t) == 0
    ensures ParseDecimal(t).Some? ==> SignedNumber(t) == Finite(ParseDecimal(t).value as real)
  {
    if ParseDecimal(t).Some? {
      if AllDigits(t) {
        DecimalValueOfDigits(t);
      } else {
        DecimalValueOfDigits(t[1..]);
      }
    }
  }

  lemma DecimalValueOfDigits(d: string)
    requires |d| > 0 && AllDigits(d)
    ensures DecimalValue(d) == Some(DigitsValue(d) as real)
  {
    var e := ExponentAt(d);
    assert e == |d|;
    assert d[..e] == d;
    assert FindChar(d, '.', 0) == -1;
    assert d + "" == d;
  }

  /** Number reads back the decimal text of every integer. */
  lemma NumberJsOfIntToString(i: int)
    ensures NumberJs(IntToString(i)) == Finite(i as real)
  {
    ParseIntOfIntToString(i);
  }

  /** Number(s) is the number of s with its surrounding whitespace removed. */
  lemma NumberJsStrips(s: string)
    ensures NumberJs(s) == StrippedNumber(Strip(s))
  {
  }

  /** Text with no whitespace around it is read as it is. */
  lemma NumberJsOfStripped(s: string)
    requires |s| > 0 && !IsSpace(s[0]) && !IsSpace(s[|s| - 1])
    ensures NumberJs(s) == StrippedNumber(s)
  {
    StripNoSpace(s);
  }

  /** Number reads the "0x" form in hexadecimal. */
  lemma NumberJsHex()
    ensures NumberJs("0x1F") == Finite(31.0)
  {
    NumberJsOfStripped("0x1F");
    HexValue();
  }

  lemma HexValue()
    ensures StrippedNumber("0x1F") == Finite(31.0)
  {
    assert "0x1F"[2..] == "1F" && "1F"[..1] == "1" && "1"[..0] == "";
  }

  /** Number reads the "0b" form in binary. */
  lemma NumberJsBinary()
    ensures NumberJs("0b101") == Finite(5.0)
  {
    NumberJsOfStripped("0b101");
    BinaryValue();
  }

  lemma BinaryValue()
    ensures StrippedNumber("0b101") == Finite(5.0)
  {
    var d := "0b101"[2..];
    assert d == "101" && PrefixRadix("0b101") == 2;
    assert AllRadixDigits(d, 2);
    assert RadixValue(d, 2) == 5 by {
      assert d[..2] == "10" && d[..2][..1] == "1" && d[..2][..1][..0] == "";
      assert RadixValue("1", 2) == 1;
      assert RadixValue("10", 2) == 2;
    }
  }

  /** A sign is not allowed before a prefix. */
  lemma NumberJsSignedPrefixIsNaN()
    ensures NumberJs("-0x1").NaN?
  {
    NumberJsOfStripped("-0x1");
    SignedPrefixValue();
  }

  lemma SignedPrefixValue()
    ensures StrippedNumber("-0x1").NaN?
  {
    assert "-0x1"[1..] == "0x1";
    assert ExponentAt("0x1") == 3;
    assert "0x1"[..3] == "0x1";
  }

  /** A fraction gives its exact value. */
  lemma NumberJsFraction()
    ensures NumberJs(".5") == Finite(0.5)
  {
    FractionStrips();
    FractionValue();
  }

  lemma FractionStrips()
    ensures NumberJs(".5") == StrippedNumber(".5")
  {
    NumberJsOfStripped(".5");
  }

  lemma FractionValue()
    ensures StrippedNumber(".5") == Finite(0.5)
  {
    assert PrefixRadix(".5") == 0 && SignedNumber(".5") == UnsignedNumber(".5");
    FractionDecimal();
  }

  lemma FractionDecimal()
    ensures DecimalValue(".5") == Some(0.5)
  {
    var u := ".5";
    assert ExponentAt(u) == 2 && u[..2] == u;
    assert FindChar(u, '.', 0) == 0;
    assert u[..0] == "" && u[1..] == "5";
    assert "" + "5" == "5" && DigitsValue("5") == 5 by {
      assert "5"[..0] == "";
    }
    assert Scaled(5, -1) == 0.5;
  }

  /** An exponent scales the mantissa by a power of ten. */
  lemma NumberJsExponent()
    ensures NumberJs("-1e3") == Finite(-1000.0)
  {
    NumberJsOfStripped("-1e3");
    ExponentValue();
  }

  lemma ExponentValue()
    ensures StrippedNumber("-1e3") == Finite(-1000.0)
  {
    assert "-1e3"[1..] == "1e3";
    assert ExponentAt("1e3") == 1 && "1e3"[..1] == "1" && "1e3"[2..] == "3";
    assert "1" + "" == "1" && "1"[..0] == "" && "3"[..0] == "";
  }

  /** "Infinity" with whitespace around it is an infinity. */
  lemma NumberJsInfinity()
    ensures NumberJs(" Infinity") == Infinite(false)
  {
    NumberJsStrips(" Infinity");
    StripInfinity();
  }

  lemma StripInfinity()
    ensures Strip(" Infinity") == "Infinity"
  {
    assert " Infinity"[1..] == "Infinity";
    assert LStrip(" Infinity") == "Infinity";
    StripNoSpace("Infinity");
  }

  /** JavaScript's i < n for an integer i: false when n is NaN. */
  predicate LessJs(i: int, n: JsNumber)
  {
    match n
    case NaN => false
    case Finite(x) => (i as real) < x
    case Infinite(neg) => !neg
  }

  /** JavaScript's k - n for an integer k: NaN stays NaN and an infinity changes sign. */
  function MinusJs(k: int, n: JsNumber): (r: JsNumber)
    ensures r.Finite? <==> n.Finite?
  {
    match n
    case NaN => NaN
    case Finite(x) => Finite(k as real - x)
    case Infinite(neg) => Infinite(!neg)
  }

  /**
   * How many times for (var i = 0; i < n; i++) runs: none for NaN and for
   * n <= 0, otherwise n rounded up; an infinity (n = Infinity) never stops.
   */
  function LoopCount(n: JsNumber): (c: nat)
    requires !n.Infinite?
  {
    if n.NaN? || n.x <= 0.0 then 0 else -((-n.x).Floor)
  }

  /** The loop runs while i < n: i < n exactly for the first LoopCount(n) values of i. */
  lemma LoopCountMeaning(n: JsNumber, i: nat)
    requires !n.Infinite?
    ensures LessJs(i, n) <==> i < LoopCount(n)
  {
  }

  /** A whole number n runs the loop n times, none when negative. */
  lemma LoopCountOfInt(n: int)
    ensures LoopCount(Finite(n as real)) == if n < 0 then 0 else n
  {
  }

  /** s.substring(a, b): both ends clamped to 0..|s|, then swapped when reversed. */
  function Substring(s: string, a: int, b: int): (r: string)
    ensures 0 <= a <= b <= |s| ==> r == s[a..b]
  {
    var lo := if a < 0 then 0 else if a > |s| then |s| else a;
    var hi := if b < 0 then 0 else if b > |s| then |s| else b;
    if lo <= hi then s[lo..hi] else s[hi..lo]
  }
}
