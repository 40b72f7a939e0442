/** ECMAScript `parseInt(string)` with no radix argument, as the spending route
    applies it to the `:userId` path segment: leading white space is skipped, one
    sign is read, a `0x`/`0X` prefix selects base 16, and the longest run of
    digits of the base is converted; no digits gives NaN (`None` here). */
module JsParseInt {
  import opened Common

  /** ECMAScript's StrWhiteSpaceChar: the WhiteSpace and LineTerminator code points. */
  predicate IsJsSpace(c: char)
  {
    || c == '\t' || c == '\U{000B}' || c == '\U{000C}' || c == ' ' || c == '\U{00A0}' || c == '\U{FEFF}'
    || c == '\n' || c == '\r' || c == '\U{2028}' || c == '\U{2029}'
    || c == '\U{1680}' || ('\U{2000}' <= c <= '\U{200A}') || c == '\U{202F}' || c == '\U{205F}'
    || c == '\U{3000}'
  }

  /** Drops the leading white space: what is dropped is all white space, and
      what is kept is the rest of `s`, starting at a character that is not. */
  function TrimStart(s: string): (r: string)
    ensures |r| <= |s| && r == s[|s| - |r|..]
    ensures forall i :: 0 <= i < |s| - |r| ==> IsJsSpace(s[i])
    ensures |r| > 0 ==> !IsJsSpace(r[0])
  {
    if |s| > 0 && IsJsSpace(s[0]) then
      var r := TrimStart(s[1..]);
      assert forall i :: 1 <= i < |s| ==> s[i] == s[1..][i - 1];
      r
    else s
  }

  /** Value of `c` as a digit in bases up to 36; 36 for a character that is no digit. */
  function DigitValue(c: char): (d: nat)
    ensures d <= 36
  {
    if '0' <= c <= '9' then c as int - '0' as int
    else if 'a' <= c <= 'z' then c as int - 'a' as int + 10
    else if 'A' <= c <= 'Z' then c as int - 'A' as int + 10
    else 36
  }

  predicate IsDigitIn(c: char, radix: nat)
  {
    DigitValue(c) < radix
  }

  /** The longest prefix of `s` made of digits of `radix`. */
  function DigitPrefix(s: string, radix: nat): (r: string)
    ensures |r| <= |s| && r == s[..|r|]
    ensures forall i :: 0 <= i < |r| ==> IsDigitIn(r[i], radix)
    ensures |r| < |s| ==> !IsDigitIn(s[|r|], radix)
  {
    if |s| > 0 && IsDigitIn(s[0], radix) then [s[0]] + DigitPrefix(s[1..], radix) else []
  }

  /** Positional value of a digit string, most significant digit first. */
  function DigitsValue(ds: string, radix: nat): nat
  {
    if |ds| == 0 then 0
    else DigitsValue(ds[..|ds| - 1], radix) * radix + DigitValue(ds[|ds| - 1])
  }

  /** Splits off an optional sign: -1 for a leading '-', 1 otherwise. */
  function SignOf(t: string): (r: (int, string))
    ensures |r.1| <= |t| && r.1 == t[|t| - |r.1|..]
  {
    if |t| > 0 && t[0] == '-' then (-1, t[1..])
    else if |t| > 0 && t[0] == '+' then (1, t[1..])
    else (1, t)
  }

  /** With no radix argument a `0x` or `0X` prefix selects base 16. */
  function RadixOf(u: string): (r: (nat, string))
  {
    if |u| >= 2 && u[0] == '0' && (u[1] == 'x' || u[1] == 'X') then (16, u[2..]) else (10, u)
  }

  /** The unsigned part: the base chosen by the prefix and the value of the
      longest run of digits of that base; no digits gives NaN. */
  function Unsigned(u: string): Option<nat>
  {
    var (radix, w) := RadixOf(u);
    var z := DigitPrefix(w, radix);
    if |z| == 0 then None else Some(DigitsValue(z, radix))
  }

  /** `parseInt(s)`; a number is only ever read from a segment holding a
      decimal digit, since base 16 needs its leading "0". */
  function ParseInt(s: string): (r: Option<int>)
    ensures r.Some? ==> exists i :: 0 <= i < |s| && '0' <= s[i] <= '9'
  {
    var t := TrimStart(s);
    var (sign, u) := SignOf(t);
    match Unsigned(u)
    case None => None
    case Some(v) =>
      UnsignedLeadingDigit(u);
      assert u[0] == t[|t| - |u|] == s[|s| - |u|];
      Some(sign * v)
  }

  /** The unsigned part of a number starts with a decimal digit. */
  lemma UnsignedLeadingDigit(u: string)
    requires Unsigned(u).Some?
    ensures |u| > 0 && '0' <= u[0] <= '9'
  {
    var (radix, w) := RadixOf(u);
    if radix == 10 {
      var z := DigitPrefix(w, radix);
      assert z[0] == u[0] && IsDigitIn(z[0], 10);
    }
  }

  // ---------------------------------------------------------------- decimal text

  function DigitChar(d: nat): (c: char)
    requires d < 10
    ensures '0' <= c <= '9' && DigitValue(c) == d
  {
    ('0' as int + d) as char
  }

  /** The decimal numeral of `n`, without leading zeros. */
  function DecimalString(n: nat): (s: string)
    ensures |s| > 0
    ensures forall i :: 0 <= i < |s| ==> '0' <= s[i] <= '9'
  {
    if n < 10 then [DigitChar(n)] else DecimalString(n / 10) + [DigitChar(n % 10)]
  }

  lemma {:induction false} DecimalStringValue(n: nat)
    ensures DigitsValue(DecimalString(n), 10) == n
  {
    if n >= 10 {
      var s := DecimalString(n);
      assert s[..|s| - 1] == DecimalString(n / 10);
      DecimalStringValue(n / 10);
    }
  }

  /** Only the numeral of 0 starts with the digit 0. */
  lemma {:induction false} DecimalStringLeadingDigit(n: nat)
    ensures DecimalString(n)[0] == '0' ==> n == 0
  {
    if n >= 10 {
      DecimalStringLeadingDigit(n / 10);
    }
  }

  lemma {:induction false} DigitPrefixStops(d: string, rest: string, radix: nat)
    requires forall i :: 0 <= i < |d| ==> IsDigitIn(d[i], radix)
    requires |rest| == 0 || !IsDigitIn(rest[0], radix)
    ensures DigitPrefix(d + rest, radix) == d
  {
    if |d| > 0 {
      assert (d + rest)[1..] == d[1..] + rest;
      DigitPrefixStops(d[1..], rest, radix);
    } else {
      assert d + rest == rest;
    }
  }

  /** A string starting with a digit or a sign has no leading white space. */
  lemma TrimStartKeeps(s: string)
    requires |s| > 0 && ('0' <= s[0] <= '9' || s[0] == '-' || s[0] == '+')
    ensures TrimStart(s) == s
  {
    assert !IsJsSpace(s[0]);
  }

  /** A run of decimal digits that cannot be read as a `0x` prefix is read in
      base 10, up to the first character that is no decimal digit. */
  lemma UnsignedDecimal(d: string, rest: string)
    requires |d| > 0 && forall i :: 0 <= i < |d| ==> '0' <= d[i] <= '9'
    requires d[0] == '0' ==> |d| == 1 && (|rest| == 0 || (rest[0] != 'x' && rest[0] != 'X'))
    requires |rest| == 0 || !IsDigitIn(rest[0], 10)
    ensures Unsigned(d + rest) == Some(DigitsValue(d, 10))
  {
    var u := d + rest;
    assert u[0] == d[0];
    if |u| >= 2 && u[0] == '0' {
      assert u[1] == rest[0];
    }
    assert RadixOf(u) == (10, u);
    assert forall i :: 0 <= i < |d| ==> IsDigitIn(d[i], 10) by {
      forall i | 0 <= i < |d| ensures IsDigitIn(d[i], 10) {
        assert '0' <= d[i] <= '9';
      }
    }
    DigitPrefixStops(d, rest, 10);
  }

  /** parseInt reads the numeral and ignores text after it, as long as that
      text does not continue the numeral (a digit, or an `x` turning "0" into
      a hexadecimal prefix). */
  lemma TrailingTextIgnored(n: nat, rest: string)
    requires |rest| == 0 || !IsDigitIn(rest[0], 10)
    requires n == 0 && |rest| > 0 ==> rest[0] != 'x' && rest[0] != 'X'
    ensures ParseInt(DecimalString(n) + rest) == Some(n)
  {
    var d := DecimalString(n);
    var s := d + rest;
    assert s[0] == d[0];
    TrimStartKeeps(s);
    assert SignOf(s) == (1, s);
    DecimalStringLeadingDigit(n);
    if d[0] == '0' {
      assert |d| == 1;
    }
    UnsignedDecimal(d, rest);
    DecimalStringValue(n);
  }

  /** Printing a non-negative id and parsing it back gives the id. */
  lemma DecimalRoundTrip(n: nat)
    ensures ParseInt(DecimalString(n)) == Some(n)
  {
    assert DecimalString(n) + "" == DecimalString(n);
    TrailingTextIgnored(n, "");
  }

  /** Leading white space does not change the result. */
  lemma {:induction false} LeadingSpaceIgnored(ws: string, s: string)
    requires forall i :: 0 <= i < |ws| ==> IsJsSpace(ws[i])
    ensures ParseInt(ws + s) == ParseInt(s)
  {
    if |ws| > 0 {
      assert (ws + s)[1..] == ws[1..] + s;
      LeadingSpaceIgnored(ws[1..], s);
      assert TrimStart(ws + s) == TrimStart(ws[1..] + s);
    } else {
      assert ws + s == s;
    }
  }

  /** A segment with no decimal digit at all is NaN. */
  lemma NoDecimalDigitIsNaN(s: string)
    requires forall i :: 0 <= i < |s| ==> !('0' <= s[i] <= '9')
    ensures ParseInt(s) == None
  {
  }

  lemma DecimalExample()
    ensures ParseInt("42") == Some(42)
  {
    TrimStartKeeps("42");
    assert SignOf("42") == (1, "42");
    assert "42" == "42" + "";
    UnsignedDecimal("42", "");
    assert "42"[..1] == "4";
    assert DigitsValue("4", 10) == 4;
  }

  lemma TrailingLettersExample()
    ensures ParseInt("12abc") == Some(12)
  {
    TrimStartKeeps("12abc");
    assert SignOf("12abc") == (1, "12abc");
    assert "12abc" == "12" + "abc";
    assert !IsDigitIn('a', 10);
    UnsignedDecimal("12", "abc");
    assert "12"[..1] == "1";
    assert DigitsValue("1", 10) == 1;
  }

  lemma SignAndSpaceExample()
    ensures ParseInt("  -7") == Some(-7)
  {
    assert "  -7" == "  " + "-7";
    LeadingSpaceIgnored("  ", "-7");
    NegativeExample();
  }

  lemma NegativeExample()
    ensures ParseInt("-7") == Some(-7)
  {
    TrimStartKeeps("-7");
    assert SignOf("-7") == (-1, "7");
    assert "7" == "7" + "";
    UnsignedDecimal("7", "");
    assert DigitsValue("7", 10) == DigitsValue("", 10) * 10 + 7;
  }

  lemma HexExample()
    ensures ParseInt("0x1A") == Some(26)
  {
    TrimStartKeeps("0x1A");
    assert SignOf("0x1A") == (1, "0x1A");
    assert RadixOf("0x1A") == (16, "1A");
    assert "1A" == "1A" + "";
    assert IsDigitIn('1', 16) && IsDigitIn('A', 16);
    DigitPrefixStops("1A", "", 16);
    assert "1A"[..1] == "1";
    assert DigitsValue("1", 16) == 1;
    assert DigitsValue("1A", 16) == 26;
  }

  lemma NaNExamples()
    ensures ParseInt("abc") == None
    ensures ParseInt("-") == None
  {
    assert forall i :: 0 <= i < |"abc"| ==> !('0' <= "abc"[i] <= '9');
    NoDecimalDigitIsNaN("abc");
    NoDecimalDigitIsNaN("-");
  }

  lemma BareHexPrefixIsNaN()
    ensures ParseInt("0x") == None
  {
    assert TrimStart("0x") == "0x";
    assert SignOf("0x") == (1, "0x");
    assert "0x"[0] == '0' && "0x"[1] == 'x' && |"0x"[2..]| == 0;
    assert RadixOf("0x") == (16, "");
  }
}
