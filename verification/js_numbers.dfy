/**
 * JavaScript's `parseInt(text)` with no radix argument, as the wizard uses it
 * to turn the selected question count into a number. `None` stands for NaN.
 */
module JsNumbers {
  import opened Optional

  /** The whitespace `parseInt` skips before the number (see README for the rest). */
  const JsSpaces: set<char> :=
    {' ', '\t', '\n', '\U{B}', '\U{C}', '\r', '\U{A0}', '\U{FEFF}', '\U{2028}', '\U{2029}'}

  predicate IsJsSpace(c: char) {
    c in JsSpaces
  }

  predicate AllSpaces(s: string) {
    forall i :: 0 <= i < |s| ==> IsJsSpace(s[i])
  }

  /** `s` is empty or starts with a character `parseInt` does not skip. */
  predicate StartsWithNonSpace(s: string) {
    |s| > 0 ==> !IsJsSpace(s[0])
  }

  /** Value of an alphanumeric digit in radix up to 36; `None` for other characters. */
  function DigitOf(c: char): (d: Option<nat>)
    ensures d.Some? ==> d.value < 36
  {
    if '0' <= c <= '9' then Some(c as int - '0' as int)
    else if 'a' <= c <= 'z' then Some(c as int - 'a' as int + 10)
    else if 'A' <= c <= 'Z' then Some(c as int - 'A' as int + 10)
    else None
  }

  predicate IsDigitIn(c: char, radix: nat) {
    DigitOf(c).Some? && DigitOf(c).value < radix
  }

  predicate AllDigitsIn(s: string, radix: nat) {
    forall i :: 0 <= i < |s| ==> IsDigitIn(s[i], radix)
  }

  /** Leading whitespace removed. */
  function TrimStart(s: string): (t: string)
    ensures |t| <= |s|
    ensures |t| > 0 ==> !IsJsSpace(t[0])
  {
    if |s| > 0 && IsJsSpace(s[0]) then TrimStart(s[1..]) else s
  }

  /** Length of the longest prefix of `s` made of digits of `radix`. */
  function DigitRun(s: string, radix: nat): (k: nat)
    ensures k <= |s|
    ensures AllDigitsIn(s[..k], radix)
    ensures k < |s| ==> !IsDigitIn(s[k], radix)
  {
    if |s| > 0 && IsDigitIn(s[0], radix) then
      var k' := DigitRun(s[1..], radix);
      assert s[..1 + k'] == [s[0]] + s[1..][..k'];
      1 + k'
    else 0
  }

  /** Positional value of a digit string, most significant digit first. */
  function ValueOf(s: string, radix: nat): nat
    requires AllDigitsIn(s, radix)
  {
    if |s| == 0 then 0
    else ValueOf(s[..|s| - 1], radix) * radix + DigitOf(s[|s| - 1]).value
  }

  /** Whether a leading `-` was present, and the text after an optional sign. */
  function StripSign(t: string): (r: (bool, string))
    ensures r.1 == t || (|t| > 0 && r.1 == t[1..])
  {
    if |t| > 0 && (t[0] == '-' || t[0] == '+') then (t[0] == '-', t[1..]) else (false, t)
  }

  /**
   * The magnitude at the start of `u`: a hexadecimal run after a `0x`/`0X`
   * prefix, a decimal run otherwise, ignoring whatever follows the run.
   * `None` when the run is empty.
   */
  function ReadMagnitude(u: string): Option<nat>
  {
    var hex := |u| >= 2 && u[0] == '0' && (u[1] == 'x' || u[1] == 'X');
    var radix := if hex then 16 else 10;
    var body := if hex then u[2..] else u;
    var k := DigitRun(body, radix);
    if k == 0 then None else Some(ValueOf(body[..k], radix))
  }

  /**
   * `parseInt(text)`: skip leading whitespace, read an optional sign, then the
   * magnitude. No digits at all gives NaN (`None`).
   */
  function ParseInt(text: string): (r: Option<int>)
    ensures var u := StripSign(TrimStart(text)).1; (|u| == 0 || !IsDigitIn(u[0], 10)) ==> r.None?
    ensures r.Some? && r.value < 0 ==> StripSign(TrimStart(text)).0
  {
    var (negative, u) := StripSign(TrimStart(text));
    match ReadMagnitude(u)
    case None => None
    case Some(m) => Some(if negative then -(m as int) else m as int)
  }

  function DecimalDigit(d: nat): (c: char)
    requires d < 10
    ensures DigitOf(c) == Some(d)
  {
    ('0' as int + d) as char
  }

  /** `String(n)` for a natural number: decimal digits, no leading zero. */
  function DecimalString(n: nat): (s: string)
    ensures |s| >= 1
    ensures AllDigitsIn(s, 10)
    ensures n > 0 ==> s[0] != '0'
  {
    if n < 10 then [DecimalDigit(n)]
    else DecimalString(n / 10) + [DecimalDigit(n % 10)]
  }

  /** Reading back the decimal digits of `n` gives `n`. */
  lemma {:induction false} ValueOfDecimalString(n: nat)
    ensures ValueOf(DecimalString(n), 10) == n
    decreases n
  {
    var s := DecimalString(n);
    if n >= 10 {
      ValueOfDecimalString(n / 10);
      assert s[..|s| - 1] == DecimalString(n / 10);
    }
  }

  /** A decimal digit is neither whitespace, a sign nor the `x` of a hex prefix. */
  lemma DecimalDigitIsPlain(c: char)
    requires IsDigitIn(c, 10)
    ensures '0' <= c <= '9'
    ensures !IsJsSpace(c) && c != '-' && c != '+' && c != 'x' && c != 'X'
  {
  }

  /** The digit run of digits followed by a non-digit ends where the digits end. */
  lemma {:induction false} DigitRunOfDigitsThenStop(s: string, tail: string, radix: nat)
    requires AllDigitsIn(s, radix)
    requires |tail| > 0 ==> !IsDigitIn(tail[0], radix)
    ensures DigitRun(s + tail, radix) == |s|
    decreases |s|
  {
    if |s| > 0 {
      assert (s + tail)[1..] == s[1..] + tail;
      DigitRunOfDigitsThenStop(s[1..], tail, radix);
    } else {
      assert s + tail == tail;
    }
  }

  /** `parseInt(String(n)) === n` for every natural number `n`. */
  lemma ParseIntDecimalString(n: nat)
    ensures ParseInt(DecimalString(n)) == Some(n)
  {
    var s := DecimalString(n);
    DecimalDigitIsPlain(s[0]);
    assert TrimStart(s) == s;
    assert StripSign(s) == (false, s);
    ReadMagnitudeOfDecimal(n, []);
    assert s + [] == s;
    ParseIntOfParts(s, false, s);
  }

  /** The empty string, `+` or `-`. */
  predicate IsSignPrefix(sign: string) {
    |sign| == 0 || (|sign| == 1 && (sign[0] == '+' || sign[0] == '-'))
  }

  predicate IsMinus(sign: string) {
    |sign| == 1 && sign[0] == '-'
  }

  /** An optional sign in front of text that does not start with one is stripped. */
  lemma StripSignOf(sign: string, rest: string)
    requires IsSignPrefix(sign)
    requires |rest| > 0 && rest[0] != '+' && rest[0] != '-'
    ensures StripSign(sign + rest) == (IsMinus(sign), rest)
  {
    if |sign| == 0 {
      assert sign + rest == rest;
    } else {
      assert (sign + rest)[0] == sign[0];
      assert (sign + rest)[1..] == rest;
    }
  }

  /**
   * `parseInt` reads `n` back from its decimal spelling after leading
   * whitespace and an optional sign, ignoring text after it that does not
   * start with a digit (nor, for `0`, with the `x` of a hex prefix).
   */
  lemma ParseIntReadsLeadingNumber(spaces: string, sign: string, n: nat, tail: string)
    requires AllSpaces(spaces)
    requires IsSignPrefix(sign)
    requires |tail| > 0 ==> !IsDigitIn(tail[0], 10) && (n > 0 || (tail[0] != 'x' && tail[0] != 'X'))
    ensures ParseInt(spaces + sign + DecimalString(n) + tail) == Some(if IsMinus(sign) then -(n as int) else n)
  {
    var rest := DecimalString(n) + tail;
    assert spaces + sign + DecimalString(n) + tail == spaces + sign + rest;
    assert IsDigitIn(rest[0], 10);
    ReadMagnitudeOfDecimal(n, tail);
    ParseIntAfterSpacesAndSign(spaces, sign, rest);
    var text := spaces + sign + rest;
    ParseIntOfParts(text, IsMinus(sign), rest);
    var value: int := if IsMinus(sign) then -(n as int) else n;
    assert ParseInt(text) == Some(value);
    assert spaces + sign + DecimalString(n) + tail == text;
  }

  /** Whitespace and a sign in front of a digit are skipped; a `-` negates the magnitude. */
  lemma ParseIntAfterSpacesAndSign(spaces: string, sign: string, rest: string)
    requires AllSpaces(spaces)
    requires IsSignPrefix(sign)
    requires |rest| > 0 && IsDigitIn(rest[0], 10)
    ensures StripSign(TrimStart(spaces + sign + rest)) == (IsMinus(sign), rest)
  {
    DecimalDigitIsPlain(rest[0]);
    var signed := sign + rest;
    assert StartsWithNonSpace(signed) by {
      if |sign| == 0 { assert signed == rest; } else { assert signed[0] == sign[0]; }
    }
    assert spaces + sign + rest == spaces + signed;
    TrimStartSkipsSpaces(spaces, signed);
    StripSignOf(sign, rest);
  }

  /** The magnitude read from `n`'s decimal spelling and a tail that does not extend it is `n`. */
  lemma ReadMagnitudeOfDecimal(n: nat, tail: string)
    requires |tail| > 0 ==> !IsDigitIn(tail[0], 10) && (n > 0 || (tail[0] != 'x' && tail[0] != 'X'))
    ensures ReadMagnitude(DecimalString(n) + tail) == Some(n)
  {
    var s := DecimalString(n);
    var t := s + tail;
    DecimalDigitIsPlain(s[0]);
    assert t[0] == s[0];
    if |s| >= 2 {
      DecimalDigitIsPlain(s[1]);
      assert t[1] == s[1];
    } else if |tail| > 0 {
      assert t[1] == tail[0];
    }
    DigitRunOfDigitsThenStop(s, tail, 10);
    assert t[..|s|] == s;
    ValueOfDecimalString(n);
  }

  /** `parseInt` is the magnitude after whitespace and sign, negated after a `-`. */
  lemma ParseIntOfParts(text: string, negative: bool, u: string)
    requires StripSign(TrimStart(text)) == (negative, u)
    ensures ReadMagnitude(u).None? ==> ParseInt(text).None?
    ensures ReadMagnitude(u).Some? ==>
      ParseInt(text) == Some(if negative then -(ReadMagnitude(u).value as int) else ReadMagnitude(u).value)
  {
  }

  lemma RegroupFive(a: string, b: string, c: string, d: string, e: string)
    ensures a + b + c + d + e == a + b + (c + d + e)
  {
  }

  /** `parseInt` of a text whose magnitude is `m` is `m`, negated after a `-`. */
  lemma ParseIntOfMagnitude(text: string, negative: bool, u: string, m: nat)
    requires StripSign(TrimStart(text)) == (negative, u)
    requires ReadMagnitude(u) == Some(m)
    ensures ParseInt(text) == Some(if negative then -(m as int) else m as int)
  {
  }

  /** Leading whitespace is skipped up to the first character that is not whitespace. */
  lemma {:induction false} TrimStartSkipsSpaces(spaces: string, rest: string)
    requires AllSpaces(spaces)
    requires StartsWithNonSpace(rest)
    ensures TrimStart(spaces + rest) == rest
    decreases |spaces|
  {
    if |spaces| > 0 {
      assert (spaces + rest)[1..] == spaces[1..] + rest;
      TrimStartSkipsSpaces(spaces[1..], rest);
    } else {
      assert spaces + rest == rest;
    }
  }

  /** Without a digit after the whitespace and sign the result is NaN. */
  lemma ParseIntWithoutDigitsIsNaN(text: string)
    requires var u := StripSign(TrimStart(text)).1; |u| == 0 || !IsDigitIn(u[0], 10)
    ensures ParseInt(text).None?
  {
  }

  /** `0x` or `0X`, the prefix that switches `parseInt` to hexadecimal. */
  predicate IsHexPrefix(prefix: string) {
    |prefix| == 2 && prefix[0] == '0' && (prefix[1] == 'x' || prefix[1] == 'X')
  }

  /** The magnitude after a hexadecimal prefix is the value of the hexadecimal digit run. */
  lemma ReadMagnitudeOfHex(prefix: string, digits: string, tail: string)
    requires IsHexPrefix(prefix)
    requires |digits| > 0 && AllDigitsIn(digits, 16)
    requires |tail| > 0 ==> !IsDigitIn(tail[0], 16)
    ensures ReadMagnitude(prefix + digits + tail) == Some(ValueOf(digits, 16))
  {
    var body := digits + tail;
    var u := prefix + body;
    assert u[0] == prefix[0] && u[1] == prefix[1];
    assert u[2..] == body;
    DigitRunOfDigitsThenStop(digits, tail, 16);
    assert body[..|digits|] == digits;
    assert prefix + digits + tail == u;
  }

  /**
   * After whitespace, an optional sign and a `0x` or `0X` prefix, `parseInt`
   * reads the hexadecimal digit run and ignores a tail that does not extend it.
   */
  lemma ParseIntReadsHexNumber(spaces: string, sign: string, prefix: string, digits: string, tail: string)
    requires AllSpaces(spaces)
    requires IsSignPrefix(sign)
    requires IsHexPrefix(prefix)
    requires |digits| > 0 && AllDigitsIn(digits, 16)
    requires |tail| > 0 ==> !IsDigitIn(tail[0], 16)
    ensures
      var magnitude := ValueOf(digits, 16) as int;
      ParseInt(spaces + sign + prefix + digits + tail) ==
        Some(if IsMinus(sign) then -magnitude else magnitude)
  {
    var rest := prefix + digits + tail;
    assert rest[0] == prefix[0];
    ReadMagnitudeOfHex(prefix, digits, tail);
    ParseIntOfSignedMagnitude(spaces, sign, rest, ValueOf(digits, 16));
    RegroupFive(spaces, sign, prefix, digits, tail);
  }

  /** Whitespace and a sign in front of a magnitude `m` give `m`, negated after a `-`. */
  lemma ParseIntOfSignedMagnitude(spaces: string, sign: string, rest: string, m: nat)
    requires AllSpaces(spaces)
    requires IsSignPrefix(sign)
    requires |rest| > 0 && IsDigitIn(rest[0], 10)
    requires ReadMagnitude(rest) == Some(m)
    ensures ParseInt(spaces + sign + rest) == Some(if IsMinus(sign) then -(m as int) else m as int)
  {
    ParseIntAfterSpacesAndSign(spaces, sign, rest);
    ParseIntOfMagnitude(spaces + sign + rest, IsMinus(sign), rest, m);
  }
}
