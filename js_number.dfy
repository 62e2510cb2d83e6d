/**
 * The two JavaScript number operations the size conversion relies on:
 * `parseInt(text, 10)` (section 19.2.5 of ECMA-262) and the conversion of an
 * integral Number back to text in a template literal (Number::toString).
 */
module JsNumber {

  /** A Number as `parseInt` can produce it: an integer, or NaN when no digit is found. */
  datatype Numeric = Finite(value: int) | NaN

  /** StrWhiteSpaceChar of ECMA-262: the WhiteSpace and LineTerminator code points. */
  predicate IsWhiteSpace(c: char) {
    c == '\t' || c == '\n' || c == '\U{B}' || c == '\U{C}' || c == '\r' || c == ' '
    || c == '\U{A0}' || c == '\U{1680}' || ('\U{2000}' <= c <= '\U{200A}')
    || c == '\U{2028}' || c == '\U{2029}' || c == '\U{202F}' || c == '\U{205F}'
    || c == '\U{3000}' || c == '\U{FEFF}'
  }

  predicate IsDigit(c: char) {
    '0' <= c <= '9'
  }

  predicate AllDigits(s: string) {
    forall i :: 0 <= i < |s| ==> IsDigit(s[i])
  }

  /** TrimString(s, start): drops the leading white space. */
  function TrimStart(s: string): string {
    if s != [] && IsWhiteSpace(s[0]) then TrimStart(s[1..]) else s
  }

  /** The longest prefix of `s` made of decimal digits. */
  function DigitPrefix(s: string): (d: string)
    ensures AllDigits(d)
  {
    if s != [] && IsDigit(s[0]) then [s[0]] + DigitPrefix(s[1..]) else []
  }

  /** The value of a string of decimal digits, most significant first. */
  function DigitsValue(d: string): nat
    requires AllDigits(d)
  {
    if d == [] then 0 else DigitsValue(d[..|d| - 1]) * 10 + (d[|d| - 1] - '0') as int
  }

  /**
   * `parseInt(s, 10)`: skip leading white space, read an optional sign, then
   * as many decimal digits as follow; no digit at all gives NaN. A radix of
   * 10 means no `0x` prefix is recognised.
   */
  function ParseInt(s: string): Numeric {
    ParseSigned(TrimStart(s))
  }

  /** An optional sign, then the digits. */
  function ParseSigned(t: string): Numeric {
    if t != [] && t[0] == '-' then Negate(ParseDigits(t[1..]))
    else if t != [] && t[0] == '+' then ParseDigits(t[1..])
    else ParseDigits(t)
  }

  /** The leading run of digits; NaN when there is none. */
  function ParseDigits(u: string): Numeric {
    var d := DigitPrefix(u);
    if d == [] then NaN else Finite(DigitsValue(d))
  }

  function Negate(x: Numeric): Numeric {
    match x
    case NaN => NaN
    case Finite(v) => Finite(-v)
  }

  /** The decimal digits of a natural number, without leading zeros. */
  function Decimal(n: nat): (d: string)
    ensures d != [] && AllDigits(d)
    ensures |d| > 1 ==> d[0] != '0'
  {
    if n < 10 then ['0' + n as char]
    else Decimal(n / 10) + ['0' + (n % 10) as char]
  }

  /**
   * Number::toString for an integral Number: an optional minus sign and the
   * decimal digits. Negative zero is the integer 0 here, and prints as "0" in
   * JavaScript too.
   */
  function NumberToString(n: int): string {
    if n < 0 then "-" + Decimal(-n) else Decimal(n)
  }

  /** The digits of `n` read back give `n`. */
  lemma {:induction false} DigitsValueOfDecimal(n: nat)
    ensures DigitsValue(Decimal(n)) == n
  {
    if n >= 10 {
      var d := Decimal(n);
      assert d[..|d| - 1] == Decimal(n / 10);
      DigitsValueOfDecimal(n / 10);
    }
  }

  /**
   * `parseInt` reads a signed run of digits up to the first character that
   * is not a digit, whatever follows it.
   */
  lemma ParseIntDigits(ws: string, sign: string, d: string, rest: string)
    requires forall i :: 0 <= i < |ws| ==> IsWhiteSpace(ws[i])
    requires sign == "" || sign == "+" || sign == "-"
    requires d != [] && AllDigits(d)
    requires rest == [] || !IsDigit(rest[0])
    ensures ParseInt(ws + sign + d + rest)
            == Finite(if sign == "-" then -(DigitsValue(d) as int) else DigitsValue(d))
  {
    var t := sign + (d + rest);
    assert ws + sign + d + rest == ws + t;
    ParseSignedDigits(sign, d, rest);
    TrimStartPrefix(ws, t);
    assert ParseInt(ws + t) == ParseSigned(t);
  }

  lemma ParseSignedDigits(sign: string, d: string, rest: string)
    requires sign == "" || sign == "+" || sign == "-"
    requires d != [] && AllDigits(d)
    requires rest == [] || !IsDigit(rest[0])
    ensures var t := sign + (d + rest); t != [] && !IsWhiteSpace(t[0])
    ensures ParseSigned(sign + (d + rest))
            == Finite(if sign == "-" then -(DigitsValue(d) as int) else DigitsValue(d))
  {
    var u := d + rest;
    DigitPrefixOf(d, rest);
    assert ParseDigits(u) == Finite(DigitsValue(d));
    var t := sign + u;
    if sign == "" {
      assert t == u;
      SignOrDigitNotWhiteSpace(u[0]);
    } else {
      assert t[0] == sign[0] && t[1..] == u;
      SignOrDigitNotWhiteSpace(t[0]);
    }
  }

  lemma SignOrDigitNotWhiteSpace(c: char)
    requires IsDigit(c) || c == '+' || c == '-'
    ensures !IsWhiteSpace(c)
  {
  }

  lemma {:induction false} TrimStartPrefix(ws: string, s: string)
    requires forall i :: 0 <= i < |ws| ==> IsWhiteSpace(ws[i])
    requires s == [] || !IsWhiteSpace(s[0])
    ensures TrimStart(ws + s) == s
  {
    if ws != [] {
      assert (ws + s)[1..] == ws[1..] + s;
      TrimStartPrefix(ws[1..], s);
    }
  }

  lemma {:induction false} DigitPrefixOf(d: string, rest: string)
    requires AllDigits(d)
    requires rest == [] || !IsDigit(rest[0])
    ensures DigitPrefix(d + rest) == d
  {
    if d != [] {
      assert (d + rest)[1..] == d[1..] + rest;
      DigitPrefixOf(d[1..], rest);
    }
  }

  /** Round trip: `parseInt` of the printed form of an integer gives the integer back. */
  lemma ParseIntOfNumberToString(n: int)
    ensures ParseInt(NumberToString(n)) == Finite(n)
  {
    var m: nat := if n < 0 then -n else n;
    DigitsValueOfDecimal(m);
    ParseIntDigits("", if n < 0 then "-" else "", Decimal(m), "");
    assert "" + (if n < 0 then "-" else "") + Decimal(m) + "" == NumberToString(n);
  }
}
