/**
 * The global `parseInt(string)` of JavaScript, called without a radix
 * (section 19.2.5 of ECMA-262): leading white space is skipped, one sign is
 * taken, a "0x"/"0X" prefix switches to radix 16, and the longest run of
 * digits of the radix gives the value; no digit at all gives NaN, modelled
 * as None.
 */
module JsNumber {
  import opened Wrappers

  /** StrWhiteSpaceChar: the white space and line terminator code units. */
  predicate IsWhiteSpace(c: char) {
    || c == '\t' || c == '\U{B}' || c == '\U{C}' || c == ' ' || c == '\U{A0}' || c == '\U{FEFF}'
    || c == '\n' || c == '\r' || c == '\U{2028}' || c == '\U{2029}'
    || c == '\U{1680}' || ('\U{2000}' <= c <= '\U{200A}') || c == '\U{202F}' || c == '\U{205F}' || c == '\U{3000}'
  }

  /** The value of a digit in radix 36, or 36 for a code unit that is no digit. */
  function DigitValue(c: char): (d: nat)
    ensures d <= 36
  {
    if '0' <= c <= '9' then c as int - '0' as int
    else if 'a' <= c <= 'z' then c as int - 'a' as int + 10
    else if 'A' <= c <= 'Z' then c as int - 'A' as int + 10
    else 36
  }

  predicate IsDigit(c: char, radix: nat) {
    DigitValue(c) < radix
  }

  /** Drops the leading white space. */
  function TrimStart(s: string): (r: string)
    ensures r == [] || !IsWhiteSpace(r[0])
  {
    if s != [] && IsWhiteSpace(s[0]) then TrimStart(s[1..]) else s
  }

  /** The length of the longest prefix of `s` made of digits of `radix`. */
  function DigitRun(s: string, radix: nat): (n: nat)
    ensures n <= |s|
    ensures forall i :: 0 <= i < n ==> IsDigit(s[i], radix)
    ensures n < |s| ==> !IsDigit(s[n], radix)
  {
    if s != [] && IsDigit(s[0], radix) then 1 + DigitRun(s[1..], radix) else 0
  }

  /** The number a sequence of digits denotes in `radix`, most significant first. */
  function DigitsValue(s: string, radix: nat): nat {
    if s == [] then 0 else DigitsValue(s[..|s| - 1], radix) * radix + DigitValue(s[|s| - 1])
  }

  /** `u` starts with the prefix "0x" or "0X" that selects radix 16. */
  predicate HasHexPrefix(u: string) {
    |u| >= 2 && u[0] == '0' && (u[1] == 'x' || u[1] == 'X')
  }

  /** The magnitude parseInt reads from the text after the sign, or None when no digit follows. */
  function ParseMagnitude(u: string): Option<nat> {
    var radix := if HasHexPrefix(u) then 16 else 10;
    var v := if HasHexPrefix(u) then u[2..] else u;
    var n := DigitRun(v, radix);
    if n == 0 then None else Some(DigitsValue(v[..n], radix))
  }

  /** `parseInt(s)`: None stands for NaN. */
  function ParseInt(s: string): Option<int> {
    var t := TrimStart(s);
    if t != [] && (t[0] == '-' || t[0] == '+') then
      match ParseMagnitude(t[1..])
      case None => None
      case Some(m) => Some(if t[0] == '-' then -(m as int) else m as int)
    else
      match ParseMagnitude(t)
      case None => None
      case Some(m) => Some(m)
  }

  /** The decimal rendering of a natural number, as `String(n)` gives it. */
  function Decimal(n: nat): (s: string)
    ensures |s| >= 1
    ensures forall i :: 0 <= i < |s| ==> '0' <= s[i] <= '9'
    ensures s[0] == '0' ==> n == 0
  {
    if n < 10 then [('0' as int + n) as char]
    else Decimal(n / 10) + [('0' as int + n % 10) as char]
  }

  /** `String(i)` for an integer. */
  function IntToString(i: int): string {
    if i < 0 then "-" + Decimal(-i) else Decimal(i)
  }

  lemma {:induction false} DecimalValue(n: nat)
    ensures DigitsValue(Decimal(n), 10) == n
  {
    if n >= 10 {
      DecimalValue(n / 10);
      var s := Decimal(n);
      assert s[..|s| - 1] == Decimal(n / 10);
    }
  }

  /** The digit run ends exactly where the first non-digit stands. */
  lemma {:induction false} DigitRunIs(s: string, radix: nat, n: nat)
    requires n <= |s|
    requires forall i :: 0 <= i < n ==> IsDigit(s[i], radix)
    requires n == |s| || !IsDigit(s[n], radix)
    ensures DigitRun(s, radix) == n
  {
    if n > 0 {
      DigitRunIs(s[1..], radix, n - 1);
    }
  }

  /** A run of decimal digits followed by a code unit that is not a decimal digit. */
  lemma DigitRunOfDecimal(n: nat, rest: string)
    requires rest == [] || !IsDigit(rest[0], 10)
    ensures DigitRun(Decimal(n) + rest, 10) == |Decimal(n)|
  {
    var d := Decimal(n);
    var u := d + rest;
    forall i | 0 <= i < |d| ensures IsDigit(u[i], 10) {
      assert u[i] == d[i];
    }
    if rest != [] { assert u[|d|] == rest[0]; }
    DigitRunIs(u, 10, |d|);
  }

  /**
   * parseInt reads back what String writes, and ignores whatever follows
   * the number when it does not start with a decimal digit or an 'x'
   * (a track tag "3/12" parses as 3).
   */
  lemma ParseIntOfIntToString(i: int, rest: string)
    requires rest == [] || (!IsDigit(rest[0], 10) && rest[0] != 'x' && rest[0] != 'X')
    ensures ParseInt(IntToString(i) + rest) == Some(i)
  {
    if i < 0 {
      ParseIntOfNegative(i, rest);
    } else {
      ParseIntOfNatural(i, rest);
    }
  }

  lemma ParseIntOfNegative(i: int, rest: string)
    requires i < 0
    requires rest == [] || (!IsDigit(rest[0], 10) && rest[0] != 'x' && rest[0] != 'X')
    ensures ParseInt(IntToString(i) + rest) == Some(i)
  {
    var u := Decimal(-i) + rest;
    ParseMagnitudeOfDecimal(-i, rest);
    NegativeText(i, rest);
    ParseIntAfterMinus(u, -i);
  }

  lemma NegativeText(i: int, rest: string)
    requires i < 0
    ensures IntToString(i) + rest == "-" + (Decimal(-i) + rest)
  {
  }

  lemma ParseIntAfterMinus(u: string, m: nat)
    requires ParseMagnitude(u) == Some(m)
    ensures ParseInt("-" + u) == Some(-(m as int))
  {
    var s := "-" + u;
    assert s[0] == '-';
    assert TrimStart(s) == s;
    assert s[1..] == u;
  }

  lemma ParseIntOfNatural(i: int, rest: string)
    requires i >= 0
    requires rest == [] || (!IsDigit(rest[0], 10) && rest[0] != 'x' && rest[0] != 'X')
    ensures ParseInt(IntToString(i) + rest) == Some(i)
  {
    var d := Decimal(i);
    var u := d + rest;
    ParseMagnitudeOfDecimal(i, rest);
    assert IntToString(i) == d;
    assert u[0] == d[0];
    assert '0' <= u[0] <= '9';
    assert TrimStart(u) == u;
  }

  lemma ParseMagnitudeOfDecimal(n: nat, rest: string)
    requires rest == [] || (!IsDigit(rest[0], 10) && rest[0] != 'x' && rest[0] != 'X')
    ensures ParseMagnitude(Decimal(n) + rest) == Some(n)
  {
    var d := Decimal(n);
    var u := d + rest;
    assert !HasHexPrefix(u) by {
      if |u| >= 2 && u[0] == '0' {
        assert |d| == 1;
        assert u[1] == rest[0];
      }
    }
    DigitRunOfDecimal(n, rest);
    assert u[..|d|] == d;
    DecimalValue(n);
  }

  /** Leading white space does not change what parseInt reads. */
  lemma {:induction false} ParseIntSkipsWhiteSpace(w: string, s: string)
    requires forall i :: 0 <= i < |w| ==> IsWhiteSpace(w[i])
    ensures ParseInt(w + s) == ParseInt(s)
  {
    TrimStartPrefix(w, s);
  }

  lemma {:induction false} TrimStartPrefix(w: string, s: string)
    requires forall i :: 0 <= i < |w| ==> IsWhiteSpace(w[i])
    ensures TrimStart(w + s) == TrimStart(s)
  {
    if w != [] {
      TrimStartPrefix(w[1..], s);
      assert (w + s)[0] == w[0];
      assert (w + s)[1..] == w[1..] + s;
    } else {
      assert w + s == s;
    }
  }

  /** A value without any digit, such as `String(undefined)`, parses as NaN. */
  lemma ParseIntUndefined()
    ensures ParseInt("undefined") == None
    ensures ParseInt("") == None
  {
  }
}
