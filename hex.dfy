/**
  The register payload parse `("0x" + payload).hex`: the longest run of hexadecimal digits at the
  front of `payload`, read most significant digit first, and 0 when there is none. `Digits` is the
  device's rendering of a counter value as hexadecimal digits; the lemmas show that the parse reads
  back what was rendered, with or without leading zeros.
*/
module Hex {
  import opened Text

  predicate IsHexDigit(c: char) {
    '0' <= c <= '9' || 'a' <= c <= 'f' || 'A' <= c <= 'F'
  }

  predicate AllHexDigits(s: string) {
    forall i | 0 <= i < |s| :: IsHexDigit(s[i])
  }

  /** The value of one digit; upper and lower case letters mean the same. */
  function DigitValue(c: char): (v: nat)
    requires IsHexDigit(c)
    ensures v < 16
  {
    if '0' <= c <= '9' then c as int - '0' as int
    else if 'a' <= c <= 'f' then c as int - 'a' as int + 10
    else c as int - 'A' as int + 10
  }

  /** The upper-case digit for a value below 16. */
  function DigitChar(v: nat): (c: char)
    requires v < 16
    ensures IsHexDigit(c) && DigitValue(c) == v
    ensures !('a' <= c <= 'f')
  {
    if v < 10 then ('0' as int + v) as char else ('A' as int + v - 10) as char
  }

  /** The longest prefix of `s` made of hexadecimal digits. */
  function LeadingDigits(s: string): (d: string)
    ensures StartsWith(s, d) && AllHexDigits(d)
    ensures |d| < |s| ==> !IsHexDigit(s[|d|])
  {
    if |s| > 0 && IsHexDigit(s[0]) then [s[0]] + LeadingDigits(s[1..]) else ""
  }

  /** The number a digit string denotes, most significant digit first. */
  function Value(d: string): nat
    requires AllHexDigits(d)
  {
    if |d| == 0 then 0 else 16 * Value(d[..|d| - 1]) + DigitValue(d[|d| - 1])
  }

  /** `("0x" + payload).hex` for a payload that holds no underscore. */
  function ParseHex(payload: string): nat {
    Value(LeadingDigits(payload))
  }

  /** The shortest upper-case hexadecimal rendering of `n`. */
  function Digits(n: nat): (d: string)
    ensures AllHexDigits(d) && |d| > 0
  {
    if n < 16 then [DigitChar(n)] else Digits(n / 16) + [DigitChar(n % 16)]
  }

  lemma {:induction false} ValueOfDigits(n: nat)
    ensures Value(Digits(n)) == n
  {
    if n >= 16 {
      var d := Digits(n);
      assert d[..|d| - 1] == Digits(n / 16);
      ValueOfDigits(n / 16);
    }
  }

  /** A run of digits followed by a non-digit is read up to that non-digit and no further. */
  lemma {:induction false} LeadingDigitsStopAtNonDigit(d: string, rest: string)
    requires AllHexDigits(d)
    requires rest == [] || !IsHexDigit(rest[0])
    ensures LeadingDigits(d + rest) == d
  {
    if |d| > 0 {
      assert (d + rest)[1..] == d[1..] + rest;
      LeadingDigitsStopAtNonDigit(d[1..], rest);
    }
  }

  /** Parsing the rendering of `n`, followed by anything that is not a digit, gives back `n`. */
  lemma ParseHexRoundTrip(n: nat, rest: string)
    requires rest == [] || !IsHexDigit(rest[0])
    ensures ParseHex(Digits(n) + rest) == n
  {
    LeadingDigitsStopAtNonDigit(Digits(n), rest);
    ValueOfDigits(n);
  }

  /** A leading zero does not change the value: fixed-width reports such as `0A0D` read as `A0D`. */
  lemma {:induction false} LeadingZero(d: string)
    requires AllHexDigits(d)
    ensures AllHexDigits("0" + d) && Value("0" + d) == Value(d)
  {
    if |d| > 0 {
      assert ("0" + d)[..|d|] == "0" + d[..|d| - 1];
      LeadingZero(d[..|d| - 1]);
    }
  }

  /** A four-digit string read most significant digit first. */
  lemma FourDigits(d: string)
    requires |d| == 4 && AllHexDigits(d)
    ensures Value(d) == 4096 * DigitValue(d[0]) + 256 * DigitValue(d[1]) + 16 * DigitValue(d[2]) + DigitValue(d[3])
  {
    var d3 := d[..3];
    var d2 := d3[..2];
    var d1 := d2[..1];
    assert d3[2] == d[2] && d2[1] == d[1] && d1[0] == d[0] && d1[..0] == "";
    assert Value(d1) == DigitValue(d[0]);
    assert Value(d2) == 16 * DigitValue(d[0]) + DigitValue(d[1]);
    assert Value(d3) == 256 * DigitValue(d[0]) + 16 * DigitValue(d[1]) + DigitValue(d[2]);
  }

  /** Upper- and lower-case digits parse alike: `a` and `A` are both ten. */
  lemma CaseInsensitive()
    ensures ParseHex("0a0d") == ParseHex("0A0D") == 2573
  {
    LeadingDigitsStopAtNonDigit("0a0d", "");
    LeadingDigitsStopAtNonDigit("0A0D", "");
    assert "0a0d" + "" == "0a0d" && "0A0D" + "" == "0A0D";
    FourDigits("0a0d");
    FourDigits("0A0D");
  }

  /** A payload that does not start with a digit parses as 0 instead of failing. */
  lemma NoDigitsIsZero(payload: string)
    requires payload == [] || !IsHexDigit(payload[0])
    ensures ParseHex(payload) == 0
  {
  }
}
