/** The pieces of the .NET runtime's text handling that the tool relies on:
    decimal rendering of a 32-bit integer (`int.ToString()`), parsing one
    back (`int.TryParse` with the default integer number style) and the
    blank-string test `string.IsNullOrWhiteSpace`. */
module Text {
  import opened Wrappers

  const Int32Min: int := -0x8000_0000
  const Int32Max: int := 0x7FFF_FFFF

  predicate InInt32(n: int) {
    Int32Min <= n <= Int32Max
  }

  /** `char.IsWhiteSpace`: the Unicode space, line and paragraph separators
      together with the control characters U+0009..U+000D and U+0085. */
  predicate IsWhiteSpace(c: char) {
    || c == ' ' || ('\t' <= c <= '\r') || c == '\U{85}' || c == '\U{A0}'
    || c == '\U{1680}' || ('\U{2000}' <= c <= '\U{200A}') || c == '\U{2028}'
    || c == '\U{2029}' || c == '\U{202F}' || c == '\U{205F}' || c == '\U{3000}'
  }

  /** `string.IsNullOrWhiteSpace` on a non-null string: every character is
      white space (so the empty string is blank). */
  predicate IsBlank(s: string) {
    forall i :: 0 <= i < |s| ==> IsWhiteSpace(s[i])
  }

  /** The white space that the integer number style lets surround a number:
      U+0009..U+000D and U+0020 only. */
  predicate IsNumberWhite(c: char) {
    c == ' ' || ('\t' <= c <= '\r')
  }

  predicate IsDigit(c: char) {
    '0' <= c <= '9'
  }

  predicate AllDigits(s: string) {
    forall i :: 0 <= i < |s| ==> IsDigit(s[i])
  }

  function DigitChar(d: nat): (c: char)
    requires d < 10
    ensures IsDigit(c)
  {
    ('0' as int + d) as char
  }

  function DigitValue(c: char): (d: nat)
    requires IsDigit(c)
    ensures d < 10
  {
    (c as int - '0' as int) as nat
  }

  /** Decimal digits of `n`, most significant first, without leading zeros. */
  function NatToString(n: nat): (s: string)
    ensures |s| > 0 && AllDigits(s)
    ensures |s| > 1 ==> s[0] != '0'
  {
    if n < 10 then [DigitChar(n)] else NatToString(n / 10) + [DigitChar(n % 10)]
  }

  /** `int.ToString()` with the invariant culture's negative sign. */
  function IntToString(n: int): (s: string)
    ensures |s| > 0 && !IsNumberWhite(s[0]) && IsDigit(s[|s| - 1])
    ensures n >= 0 <==> AllDigits(s)
  {
    if n < 0 then "-" + NatToString(-n) else NatToString(n)
  }

  /** The number a non-empty run of decimal digits denotes (leading zeros allowed). */
  function DigitsValue(s: string): (v: nat)
    requires AllDigits(s)
  {
    if |s| == 0 then 0 else 10 * DigitsValue(s[..|s| - 1]) + DigitValue(s[|s| - 1])
  }

  function TrimStart(s: string): (r: string)
    ensures |r| <= |s| && r == s[|s| - |r|..]
    ensures |r| > 0 ==> !IsNumberWhite(r[0])
  {
    if |s| > 0 && IsNumberWhite(s[0]) then TrimStart(s[1..]) else s
  }

  function TrimEnd(s: string): (r: string)
    ensures |r| <= |s| && r == s[..|r|]
    ensures |r| > 0 ==> !IsNumberWhite(r[|r| - 1])
  {
    if |s| > 0 && IsNumberWhite(s[|s| - 1]) then TrimEnd(s[..|s| - 1]) else s
  }

  /** `int.TryParse(text, out v)`: optional surrounding white space, an
      optional leading `-` or `+`, then one or more decimal digits whose
      value must fit in 32 bits; `None` is the `false` return. */
  function TryParseInt32(text: string): (r: Option<int>)
    ensures r.Some? ==> InInt32(r.value)
  {
    ParseSigned(TrimEnd(TrimStart(text)))
  }

  /** The sign and digits once the surrounding white space is gone. */
  function ParseSigned(t: string): (r: Option<int>)
    ensures r.Some? ==> InInt32(r.value)
  {
    if |t| == 0 then None
    else
      var body := if t[0] == '-' || t[0] == '+' then t[1..] else t;
      if |body| == 0 || !AllDigits(body) then None
      else
        var v: int := if t[0] == '-' then -(DigitsValue(body) as int) else DigitsValue(body);
        if InInt32(v) then Some(v) else None
  }

  lemma {:induction false} DigitsOfNat(n: nat)
    ensures DigitsValue(NatToString(n)) == n
  {
    if n >= 10 {
      var s := NatToString(n);
      DigitsOfNat(n / 10);
      assert s[..|s| - 1] == NatToString(n / 10);
    }
  }

  lemma TrimNothing(s: string)
    requires |s| > 0 && !IsNumberWhite(s[0]) && !IsNumberWhite(s[|s| - 1])
    ensures TrimEnd(TrimStart(s)) == s
  {
  }

  lemma ParseRenderedNat(n: nat)
    requires n <= Int32Max
    ensures ParseSigned(NatToString(n)) == Some(n)
  {
    DigitsOfNat(n);
  }

  lemma ParseRenderedNegative(n: int)
    requires Int32Min <= n < 0
    ensures ParseSigned(IntToString(n)) == Some(n)
  {
    var digits := NatToString(-n);
    var s := IntToString(n);
    assert s == "-" + digits;
    assert s[0] == '-' && s[1..] == digits;
    DigitsOfNat(-n);
  }

  /** Rendering a 32-bit integer and parsing the text gives the integer back. */
  lemma ParseRendered(n: int)
    requires InInt32(n)
    ensures TryParseInt32(IntToString(n)) == Some(n)
  {
    var s := IntToString(n);
    TrimNothing(s);
    assert TryParseInt32(s) == ParseSigned(s);
    if n < 0 {
      ParseRenderedNegative(n);
    } else {
      assert s == NatToString(n);
      ParseRenderedNat(n);
    }
  }

  /** White space before the number does not change what is parsed. */
  lemma ParseSkipsLeadingWhite(c: char, text: string)
    requires IsNumberWhite(c)
    ensures TryParseInt32([c] + text) == TryParseInt32(text)
  {
    assert ([c] + text)[1..] == text;
  }
}
