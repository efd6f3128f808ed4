/** The two integer renderings the text parser's report uses: the default
    decimal `ToString()` of an unsigned value and the `X4` format (four
    upper-case hexadecimal digits). Each comes with the parser that reads it
    back, so that what the rendering means is proved as a round trip. */
module NumberFormat {

  import opened Ascii

  /** The digit for `d` in bases up to 16, upper-case letters above nine. */
  function DigitChar(d: nat): (c: char)
    requires d < 16
    ensures IsDigit(c) || ('A' <= c <= 'F')
    ensures d < 10 <==> IsDigit(c)
    ensures DigitValue(c) == d
  {
    if d < 10 then (('0' as int) + d) as char else (('A' as int) + d - 10) as char
  }

  predicate IsDigit(c: char) {
    '0' <= c <= '9'
  }

  predicate IsUpperHexDigit(c: char) {
    IsDigit(c) || ('A' <= c <= 'F')
  }

  /** The value of one hexadecimal digit; -1 for any other character. */
  function DigitValue(c: char): int {
    if IsDigit(c) then c as int - '0' as int
    else if 'A' <= c <= 'F' then c as int - 'A' as int + 10
    else -1
  }

  /** Decimal rendering without sign, separators or leading zeros. */
  function Decimal(n: nat): (s: string)
    ensures 1 <= |s|
    ensures forall i :: 0 <= i < |s| ==> IsDigit(s[i])
    ensures |s| > 1 ==> s[0] != '0'
    ensures n < 10 <==> |s| == 1
  {
    if n < 10 then [DigitChar(n)] else Decimal(n / 10) + [DigitChar(n % 10)]
  }

  /** The number a string of digits denotes in `base`, most significant first. */
  function DigitsValue(s: string, base: nat): int {
    if |s| == 0 then 0 else DigitsValue(s[..|s| - 1], base) * base + DigitValue(s[|s| - 1])
  }

  lemma {:induction false} DecimalRoundTrip(n: nat)
    ensures DigitsValue(Decimal(n), 10) == n
  {
    var s := Decimal(n);
    if n >= 10 {
      DecimalRoundTrip(n / 10);
      assert s[..|s| - 1] == Decimal(n / 10);
    }
  }

  /** `ToString("X4")` of a `ushort`: always exactly four digits. */
  function Hex4(n: U16): (s: string)
    ensures |s| == 4
    ensures forall i :: 0 <= i < 4 ==> IsUpperHexDigit(s[i])
  {
    [DigitChar(n / 0x1000), DigitChar(n / 0x100 % 0x10), DigitChar(n / 0x10 % 0x10), DigitChar(n % 0x10)]
  }

  lemma Hex4RoundTrip(n: U16)
    ensures DigitsValue(Hex4(n), 16) == n
  {
    var s := Hex4(n);
    FourDigitsValue(s);
    Hex4Digits(n);
  }

  /** The value of four digits, most significant first. */
  lemma FourDigitsValue(s: string)
    requires |s| == 4
    ensures DigitsValue(s, 16) == ((DigitValue(s[0]) * 16 + DigitValue(s[1])) * 16 + DigitValue(s[2])) * 16 + DigitValue(s[3])
  {
    assert s[..1][..0] == "" && s[..2][..1] == s[..1] && s[..3][..2] == s[..2] && s[..4][..3] == s[..3];
    assert s[..1][0] == s[0] && s[..2][1] == s[1] && s[..3][2] == s[2];
    assert DigitsValue(s[..1], 16) == DigitValue(s[0]);
    assert DigitsValue(s[..2], 16) == DigitValue(s[0]) * 16 + DigitValue(s[1]);
    assert DigitsValue(s[..3], 16) == (DigitValue(s[0]) * 16 + DigitValue(s[1])) * 16 + DigitValue(s[2]);
    assert s[..4] == s;
  }

  lemma Hex4Digits(n: U16)
    ensures ((n / 0x1000 * 16 + n / 0x100 % 0x10) * 16 + n / 0x10 % 0x10) * 16 + n % 0x10 == n
  {
    var q1, q2, q3 := n / 0x10, n / 0x100, n / 0x1000;
    assert n == q1 * 16 + n % 0x10;
    assert q2 == q1 / 16;
    assert q1 == q2 * 16 + q1 % 16;
    assert q3 == q2 / 16;
    assert q2 == q3 * 16 + q2 % 16;
  }

  /** Decimal rendering is injective: distinct counts print differently. */
  lemma DecimalInjective(m: nat, n: nat)
    requires Decimal(m) == Decimal(n)
    ensures m == n
  {
    DecimalRoundTrip(m);
    DecimalRoundTrip(n);
  }
}
