/** The parts of JavaScript's string-to-number conversions the system uses:
    `Number(s)` on integer text (decimal, or `0x`/`0o`/`0b` prefixed) and
    `parseInt(s, 10)`. A result of None stands for NaN, and also for the
    numerals this model does not read (see ToNumber). */
module JsNumber {
  import opened Wrappers
  import opened Text

  /** The optional sign of an integer literal, and the digits after it. */
  function SignedDigits(t: string): (r: Option<int>)
    ensures t != [] && AllDigits(t) ==> r == Some(DigitsValue(t))
    ensures r.Some? ==> t != [] && (IsDigit(t[0]) || t[0] == '+' || t[0] == '-')
  {
    if t != [] && AllDigits(t) then Some(DigitsValue(t))
    else if |t| > 1 && (t[0] == '+' || t[0] == '-') && AllDigits(t[1..]) then
      Some(if t[0] == '-' then 0 - DigitsValue(t[1..]) else DigitsValue(t[1..]))
    else None
  }

  /** The value of a digit in a radix literal: 0-9, then a/A = 10 up to
      f/F = 15; 16 for any other character. */
  function RadixDigit(c: char): (d: nat)
    ensures d <= 16
    ensures IsDigit(c) ==> d == DigitValue(c)
    ensures d < 10 ==> IsDigit(c)
  {
    if IsDigit(c) then DigitValue(c)
    else if 'a' <= c <= 'f' then c as int - 'a' as int + 10
    else if 'A' <= c <= 'F' then c as int - 'A' as int + 10
    else 16
  }

  predicate AllRadixDigits(t: string, base: nat) {
    forall i :: 0 <= i < |t| ==> RadixDigit(t[i]) < base
  }

  /** The value of a run of digits of the given base, most significant first. */
  function RadixValue(t: string, base: nat): nat
    requires AllRadixDigits(t, base)
  {
    if t == [] then 0 else RadixValue(t[..|t| - 1], base) * base + RadixDigit(t[|t| - 1])
  }

  /** The base the letter after a leading `0` names: x/X 16, o/O 8, b/B 2;
      0 for any other character. */
  function RadixOf(c: char): (base: nat)
    ensures base in {0, 2, 8, 16}
    ensures IsDigit(c) ==> base == 0
  {
    if c == 'x' || c == 'X' then 16
    else if c == 'o' || c == 'O' then 8
    else if c == 'b' || c == 'B' then 2
    else 0
  }

  /** A non-decimal integer literal: `0`, a radix letter and at least one
      digit of that base; it takes no sign. */
  predicate IsRadixLiteral(t: string) {
    |t| > 2 && t[0] == '0' && RadixOf(t[1]) > 0 && AllRadixDigits(t[2..], RadixOf(t[1]))
  }

  /** `Number(s)`: surrounding white space is ignored, blank text is 0, a
      `0x`/`0o`/`0b` literal is its value in that base, an optionally
      signed run of decimal digits is its value. Everything else is None:
      NaN for text that is no numeral, and also the exponent, fractional
      and `Infinity` numerals, which are not modelled. */
  function ToNumber(s: string): (r: Option<int>)
    ensures Trim(s) == [] ==> r == Some(0)
    ensures AllDigits(Trim(s)) ==> r == Some(DigitsValue(Trim(s)))
    ensures IsRadixLiteral(Trim(s)) ==> r == Some(RadixValue(Trim(s)[2..], RadixOf(Trim(s)[1])))
    ensures var t := Trim(s);
            |t| > 1 && (t[0] == '+' || t[0] == '-') && !AllDigits(t[1..]) ==> r.None?
    ensures r.Some? && Trim(s) != [] ==> IsDigit(Trim(s)[0]) || Trim(s)[0] == '+' || Trim(s)[0] == '-'
  {
    var t := Trim(s);
    if t == [] then Some(0)
    else if IsRadixLiteral(t) then Some(RadixValue(t[2..], RadixOf(t[1])))
    else SignedDigits(t)
  }

  /** Decimal digits are digits of base 10 with the same value. */
  lemma {:induction false} RadixValueDecimal(t: string)
    requires AllDigits(t)
    ensures AllRadixDigits(t, 10) && RadixValue(t, 10) == DigitsValue(t)
  {
    if t != [] {
      RadixValueDecimal(t[..|t| - 1]);
    }
  }

  /** A radix literal has no surrounding white space, so `Number` reads
      it whole. */
  lemma ToNumberRadix(t: string)
    requires IsRadixLiteral(t)
    ensures ToNumber(t) == Some(RadixValue(t[2..], RadixOf(t[1])))
  {
    assert t[|t| - 1] == t[2..][|t| - 3];
    TrimNoop(t);
  }

  /** `Number` reads hexadecimal literals in either case. */
  lemma ToNumberHex()
    ensures ToNumber("0x10") == Some(16) && ToNumber("0X7E8") == Some(2024)
  {
    assert "0x10"[2..] == "10" && "10"[..1] == "1";
    assert RadixValue("10", 16) == 16;
    ToNumberRadix("0x10");
    assert "0X7E8"[2..] == "7E8" && "7E8"[..2] == "7E" && "7E"[..1] == "7";
    assert RadixValue("7E8", 16) == 2024;
    ToNumberRadix("0X7E8");
  }

  /** `Number` reads octal and binary literals. */
  lemma ToNumberOctalBinary()
    ensures ToNumber("0o17") == Some(15) && ToNumber("0b101") == Some(5)
  {
    assert "0o17"[2..] == "17" && "17"[..1] == "1";
    assert RadixValue("17", 8) == 15;
    ToNumberRadix("0o17");
    assert "0b101"[2..] == "101" && "101"[..2] == "10" && "10"[..1] == "1";
    assert RadixValue("101", 2) == 5;
    ToNumberRadix("0b101");
  }

  /** A sign before the radix prefix, a prefix with no digit, or a digit
      outside the base makes NaN. */
  lemma ToNumberRadixNaN()
    ensures ToNumber("-0x10").None? && ToNumber("0x").None? && ToNumber("0b2").None?
  {
    TrimNoop("-0x10");
    assert "-0x10"[1..][1] == 'x';
    TrimNoop("0x");
    TrimNoop("0b2");
    assert "0b2"[2..][0] == '2';
  }

  /** Leading and trailing white space never changes `Number(s)`. */
  lemma ToNumberTrim(s: string)
    ensures ToNumber(Trim(s)) == ToNumber(s)
  {
    TrimIdempotent(s);
  }

  /** A digit string, leading zeros included, reads back as its value. */
  lemma ToNumberDigits(s: string)
    requires AllDigits(s)
    ensures ToNumber(s) == Some(DigitsValue(s))
  {
    TrimNoSpaces(s);
  }

  /** `Number(String(n).padStart(w, '0')) == n`. */
  lemma ToNumberPadNat(n: nat, w: nat)
    ensures ToNumber(PadNat(n, w)) == Some(n)
  {
    ToNumberDigits(PadNat(n, w));
  }

  /** The longest run of decimal digits at the front of s. */
  function DigitPrefix(s: string): (r: string)
    ensures |r| <= |s| && r == s[..|r|] && AllDigits(r)
    ensures |r| == |s| || !IsDigit(s[|r|])
    ensures r == [] <==> s == [] || !IsDigit(s[0])
  {
    if s != [] && IsDigit(s[0]) then [s[0]] + DigitPrefix(s[1..]) else []
  }

  /** `parseInt(s, 10)`: leading white space and one sign are skipped, then
      the longest digit prefix is read; no digit at all gives NaN. */
  function ParseInt(s: string): (r: Option<int>)
    ensures var t := TrimStart(s);
            r.Some? <==> (t != [] && IsDigit(t[0])) || (|t| > 1 && (t[0] == '+' || t[0] == '-') && IsDigit(t[1]))
  {
    var t := TrimStart(s);
    var signed := t != [] && (t[0] == '+' || t[0] == '-');
    var negative := t != [] && t[0] == '-';
    var body := if signed then t[1..] else t;
    var digits := DigitPrefix(body);
    assert digits != [] <==> body != [] && IsDigit(body[0]);
    if digits == [] then None
    else Some(if negative then 0 - DigitsValue(digits) else DigitsValue(digits))
  }

  /** parseInt reads a plain digit string as its value. */
  lemma ParseIntDigits(s: string)
    requires s != [] && AllDigits(s)
    ensures ParseInt(s) == Some(DigitsValue(s))
  {
    ParseIntStopsAtNonDigit(s, []);
    assert s + [] == s;
  }

  /** parseInt ignores whatever follows the digits: `parseInt('30abc') == 30`. */
  lemma ParseIntStopsAtNonDigit(d: string, rest: string)
    requires d != [] && AllDigits(d)
    requires rest == [] || !IsDigit(rest[0])
    ensures ParseInt(d + rest) == Some(DigitsValue(d))
  {
    var s := d + rest;
    assert s[0] == d[0];
    TrimStartNoop(s);
    assert TrimStart(s) == s;
    DigitPrefixStops(d, rest);
    assert DigitPrefix(s) == d;
  }

  lemma {:induction false} DigitPrefixStops(d: string, rest: string)
    requires AllDigits(d)
    requires rest == [] || !IsDigit(rest[0])
    ensures DigitPrefix(d + rest) == d
  {
    if d != [] {
      assert (d + rest)[1..] == d[1..] + rest;
      DigitPrefixStops(d[1..], rest);
    } else {
      assert d + rest == rest;
    }
  }
}
