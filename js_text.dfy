/** The parts of JavaScript's string and number semantics that the game
    relies on: String.prototype.trim, the global parseInt called without a
    radix, and Number.prototype.toString on an integral number.
    Section numbers refer to ECMA-262 (ECMAScript 2023). The functions are
    plain definitions; what they guarantee is stated by the lemmas after
    each of them. */
module JsText {
  import opened Wrappers

  /** The WhiteSpace (section 12.2) and LineTerminator (section 12.3) code
      points, i.e. what trim and parseInt strip. The Zs category is listed
      out: U+0020, U+00A0, U+1680, U+2000..U+200A, U+202F, U+205F, U+3000. */
  predicate IsJsWhitespace(c: char) {
    c == '\t' || c == '\U{B}' || c == '\U{C}' || c == ' ' || c == '\U{A0}' || c == '\U{FEFF}'
    || c == '\U{1680}' || ('\U{2000}' <= c <= '\U{200A}') || c == '\U{202F}' || c == '\U{205F}'
    || c == '\U{3000}' || c == '\n' || c == '\r' || c == '\U{2028}' || c == '\U{2029}'
  }

  /** TrimString(s, start): drop the leading whitespace. */
  function TrimStart(s: string): (r: string) {
    if s != [] && IsJsWhitespace(s[0]) then TrimStart(s[1..]) else s
  }

  /** TrimStart removes a whitespace prefix and nothing more. */
  lemma {:induction false} TrimStartSpec(s: string)
    ensures |TrimStart(s)| <= |s| && TrimStart(s) == s[|s| - |TrimStart(s)|..]
    ensures TrimStart(s) == [] || !IsJsWhitespace(TrimStart(s)[0])
    ensures forall i :: 0 <= i < |s| - |TrimStart(s)| ==> IsJsWhitespace(s[i])
  {
    if s != [] && IsJsWhitespace(s[0]) {
      var t := s[1..];
      TrimStartSpec(t);
      var r := TrimStart(t);
      assert TrimStart(s) == r;
      assert t[|t| - |r|..] == s[|s| - |r|..];
      forall i | 0 <= i < |s| - |r| ensures IsJsWhitespace(s[i]) {
        if i > 0 {
          assert s[i] == t[i - 1];
        }
      }
    }
  }

  /** TrimString(s, end): drop the trailing whitespace. */
  function TrimEnd(s: string): (r: string) {
    if s != [] && IsJsWhitespace(s[|s| - 1]) then TrimEnd(s[..|s| - 1]) else s
  }

  /** TrimEnd removes a whitespace suffix and nothing more. */
  lemma {:induction false} TrimEndSpec(s: string)
    ensures |TrimEnd(s)| <= |s| && TrimEnd(s) == s[..|TrimEnd(s)|]
    ensures TrimEnd(s) == [] || !IsJsWhitespace(TrimEnd(s)[|TrimEnd(s)| - 1])
    ensures forall i :: |TrimEnd(s)| <= i < |s| ==> IsJsWhitespace(s[i])
  {
    if s != [] && IsJsWhitespace(s[|s| - 1]) {
      var t := s[..|s| - 1];
      TrimEndSpec(t);
      var r := TrimEnd(t);
      assert TrimEnd(s) == r;
      assert t[..|r|] == s[..|r|];
      forall i | |r| <= i < |s| ensures IsJsWhitespace(s[i]) {
        if i < |s| - 1 {
          assert s[i] == t[i];
        }
      }
    }
  }

  /** String.prototype.trim (section 22.1.3.32). */
  function Trim(s: string): (r: string) {
    TrimEnd(TrimStart(s))
  }

  /** trim returns the middle of s: what it drops at either end is
      whitespace, and what it keeps neither starts nor ends with any. */
  lemma TrimSpec(s: string)
    ensures Trim(s) == [] || (!IsJsWhitespace(Trim(s)[0]) && !IsJsWhitespace(Trim(s)[|Trim(s)| - 1]))
    ensures exists i, j :: 0 <= i <= j <= |s| && Trim(s) == s[i..j]
                           && (forall k :: 0 <= k < i ==> IsJsWhitespace(s[k]))
                           && (forall k :: j <= k < |s| ==> IsJsWhitespace(s[k]))
  {
    var t := TrimStart(s);
    var r := TrimEnd(t);
    TrimStartSpec(s);
    TrimEndSpec(t);
    var i, j := |s| - |t|, |s| - |t| + |r|;
    assert r == s[i..j];
    forall k | j <= k < |s| ensures IsJsWhitespace(s[k]) {
      assert s[k] == t[k - i];
    }
    if r != [] {
      assert r[0] == t[0];
    }
  }

  /** The value of c as a digit in base 36 ('0'..'9', then 'a'..'z' in
      either case), or -1 when c is not alphanumeric. */
  function DigitValue(c: char): (d: int)
    ensures -1 <= d < 36
  {
    if '0' <= c <= '9' then c as int - '0' as int
    else if 'a' <= c <= 'z' then c as int - 'a' as int + 10
    else if 'A' <= c <= 'Z' then c as int - 'A' as int + 10
    else -1
  }

  predicate IsDigit(c: char, radix: nat) {
    0 <= DigitValue(c) < radix
  }

  /** The length of the longest prefix of s made of digits of the radix. */
  function DigitPrefixLength(s: string, radix: nat): (k: nat)
    ensures k <= |s|
  {
    if s != [] && IsDigit(s[0], radix) then 1 + DigitPrefixLength(s[1..], radix) else 0
  }

  /** DigitPrefixLength is the length of the longest run of digits at the start. */
  lemma {:induction false} DigitPrefixSpec(s: string, radix: nat)
    ensures DigitPrefixLength(s, radix) <= |s|
    ensures forall i :: 0 <= i < DigitPrefixLength(s, radix) ==> IsDigit(s[i], radix)
    ensures DigitPrefixLength(s, radix) == |s| || !IsDigit(s[DigitPrefixLength(s, radix)], radix)
  {
    if s != [] && IsDigit(s[0], radix) {
      DigitPrefixSpec(s[1..], radix);
    }
  }

  /** The mathematical value of a digit string, most significant digit first. */
  function DigitsValue(ds: string, radix: nat): (r: int) {
    if ds == [] then 0
    else DigitsValue(ds[..|ds| - 1], radix) * radix + DigitValue(ds[|ds| - 1])
  }

  /** parseInt(s) with the radix argument absent (section 19.2.5): skip
      leading whitespace, take an optional sign, then read the magnitude.
      None is NaN. */
  function ParseInt(s: string): (r: Option<int>) {
    var t := TrimStart(s);
    if t != [] && t[0] == '-' then
      match ParseMagnitude(t[1..])
      case None => None
      case Some(m) => Some(-m)
    else if t != [] && t[0] == '+' then ParseMagnitude(t[1..])
    else ParseMagnitude(t)
  }

  /** What parseInt reads after the sign: "0x" or "0X" selects base 16,
      otherwise base 10; then the longest run of digits, None when empty. */
  function ParseMagnitude(u: string): (r: Option<int>) {
    if |u| >= 2 && u[0] == '0' && (u[1] == 'x' || u[1] == 'X') then DigitRun(u[2..], 16)
    else DigitRun(u, 10)
  }

  /** The value of the longest prefix of digits of the radix, None when empty. */
  function DigitRun(w: string, radix: nat): (r: Option<int>) {
    var k := DigitPrefixLength(w, radix);
    if k == 0 then None else Some(DigitsValue(w[..k], radix))
  }

  /** The decimal digit for 0 <= d < 10. */
  function DecimalDigit(d: nat): (c: char)
    requires d < 10
    ensures IsDigit(c, 10) && DigitValue(c) == d
  {
    ('0' as int + d) as char
  }

  /** The base-10 digits of n. */
  function NatToDecimal(n: nat): (r: string) {
    if n < 10 then [DecimalDigit(n)] else NatToDecimal(n / 10) + [DecimalDigit(n % 10)]
  }

  /** NatToDecimal writes n in base 10 with no leading zero. */
  lemma {:induction false} NatToDecimalSpec(n: nat)
    ensures NatToDecimal(n) != []
    ensures forall i :: 0 <= i < |NatToDecimal(n)| ==> IsDigit(NatToDecimal(n)[i], 10)
    ensures DigitsValue(NatToDecimal(n), 10) == n
    ensures NatToDecimal(n)[0] == '0' ==> n == 0 && |NatToDecimal(n)| == 1
  {
    if n >= 10 {
      NatToDecimalSpec(n / 10);
      var r := NatToDecimal(n);
      assert r[..|r| - 1] == NatToDecimal(n / 10);
    }
  }

  /** Number.prototype.toString() of an integral number below 1e21 in
      magnitude (section 6.1.6.1.20): optional '-', then the decimal digits. */
  function NumberToString(n: int): (r: string) {
    if n < 0 then "-" + NatToDecimal(-n) else NatToDecimal(n)
  }

  /** Number.prototype.toString() of NaN. */
  const NaNString: string := "NaN"

  lemma {:induction false} DigitPrefixOfDigitsThen(ds: string, rest: string, radix: nat)
    requires forall i :: 0 <= i < |ds| ==> IsDigit(ds[i], radix)
    requires rest == [] || !IsDigit(rest[0], radix)
    ensures DigitPrefixLength(ds + rest, radix) == |ds|
  {
    if ds != [] {
      assert (ds + rest)[1..] == ds[1..] + rest;
      DigitPrefixOfDigitsThen(ds[1..], rest, radix);
    }
  }

  lemma DecimalDigitIsNotSpace(c: char)
    requires IsDigit(c, 10)
    ensures !IsJsWhitespace(c) && c != '-' && c != '+'
  {
  }

  lemma NoTrimBefore(s: string)
    requires s != [] && !IsJsWhitespace(s[0])
    ensures TrimStart(s) == s
  {
  }

  /** The magnitude reader stops at the first non-digit after the decimal
      digits of m, unless m is 0 and an 'x' follows (a hexadecimal prefix). */
  lemma ParseMagnitudeOfDecimal(m: nat, rest: string)
    requires rest == [] || !IsDigit(rest[0], 10)
    requires m == 0 ==> rest == [] || (rest[0] != 'x' && rest[0] != 'X')
    ensures ParseMagnitude(NatToDecimal(m) + rest) == Some(m)
  {
    var ds := NatToDecimal(m);
    NatToDecimalSpec(m);
    var u := ds + rest;
    if |u| >= 2 && u[0] == '0' {
      assert |ds| == 1 && m == 0;
      assert u[1] == rest[0];
    }
    DigitPrefixOfDigitsThen(ds, rest, 10);
    assert u[..|ds|] == ds;
  }

  /** A leading '-' negates what follows it. */
  lemma SignedParse(tail: string)
    ensures ParseInt(['-'] + tail) == match ParseMagnitude(tail) case None => None case Some(m) => Some(-m)
  {
    var s := ['-'] + tail;
    NoTrimBefore(s);
    assert s[1..] == tail;
  }

  /** Without a sign, parseInt is the magnitude reader. */
  lemma UnsignedParse(tail: string)
    requires tail != [] && IsDigit(tail[0], 10)
    ensures ParseInt(tail) == ParseMagnitude(tail)
  {
    DecimalDigitIsNotSpace(tail[0]);
    NoTrimBefore(tail);
  }

  /** parseInt reads back what toString wrote, and stops at the first
      character that is not a decimal digit: "50abc" gives 50. The one
      exception is a zero directly followed by 'x' or 'X', which parseInt
      takes as a hexadecimal prefix. */
  lemma ParseIntOfNumberString(n: int, rest: string)
    requires rest == [] || !IsDigit(rest[0], 10)
    requires n == 0 ==> rest == [] || (rest[0] != 'x' && rest[0] != 'X')
    ensures ParseInt(NumberToString(n) + rest) == Some(n)
  {
    if n < 0 {
      NegativeNumberParse(n, rest);
    } else {
      var tail := NatToDecimal(n) + rest;
      assert NumberToString(n) + rest == tail;
      NatToDecimalSpec(n);
      ParseMagnitudeOfDecimal(n, rest);
      UnsignedParse(tail);
    }
  }

  lemma NegativeNumberParse(n: int, rest: string)
    requires n < 0
    requires rest == [] || !IsDigit(rest[0], 10)
    ensures ParseInt(NumberToString(n) + rest) == Some(n)
  {
    var tail := NatToDecimal(-n) + rest;
    assert NumberToString(n) + rest == ['-'] + tail;
    ParseMagnitudeOfDecimal(-n, rest);
    SignedParse(tail);
  }

  /** The decimal round trip: parseInt(n.toString()) == n for every integer. */
  lemma NumberStringRoundTrip(n: int)
    ensures ParseInt(NumberToString(n)) == Some(n)
  {
    ParseIntOfNumberString(n, []);
    assert NumberToString(n) + [] == NumberToString(n);
  }

  /** parseInt("NaN") is NaN, so NaN.toString() also reads back as NaN. */
  lemma NaNStringRoundTrip()
    ensures ParseInt(NaNString) == None
  {
    assert !IsDigit(NaNString[0], 10);
  }

  /** Inputs parseInt reads as NaN. */
  lemma ParseIntNaNExamples()
    ensures ParseInt("") == None
    ensures ParseInt("abc") == None
    ensures ParseInt("0x") == None
  {
    assert ParseInt("abc") == None by {
      assert !IsDigit('a', 10);
      NoTrimBefore("abc");
    }
    assert ParseInt("0x") == None by {
      NoTrimBefore("0x");
      assert "0x"[2..] == [];
    }
  }

  /** parseInt stops at the first character that is not a digit. */
  lemma ParseIntPrefixExamples()
    ensures ParseInt("50abc") == Some(50)
    ensures ParseInt("7.9") == Some(7)
  {
    assert ParseInt("50abc") == Some(50) by {
      assert NumberToString(50) == "50";
      ParseIntOfNumberString(50, "abc");
      assert "50" + "abc" == "50abc";
    }
    assert ParseInt("7.9") == Some(7) by {
      assert NumberToString(7) == "7";
      ParseIntOfNumberString(7, ".9");
      assert "7" + ".9" == "7.9";
    }
  }

  /** Leading whitespace, a sign and the hexadecimal prefix. */
  lemma ParseIntSignAndHexExamples()
    ensures ParseInt(" -5") == Some(-5)
    ensures ParseInt("0x1A") == Some(26)
  {
    assert ParseInt(" -5") == Some(-5) by {
      assert TrimStart(" -5") == "-5" by {
        assert " -5"[1..] == "-5";
        NoTrimBefore("-5");
      }
      assert NumberToString(-5) == "-5";
      ParseIntOfNumberString(-5, []);
      assert "-5" + [] == "-5";
    }
    assert ParseInt("0x1A") == Some(26) by {
      NoTrimBefore("0x1A");
      var w := "1A";
      assert "0x1A"[2..] == w;
      assert DigitPrefixLength(w, 16) == 2 by {
        assert w[1..] == "A";
        assert "A"[1..] == [];
      }
      assert w[..2] == w;
      assert w[..1] == "1";
      assert DigitsValue(w, 16) == 26;
    }
  }
}
