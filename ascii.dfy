/** Bytes, fixed-width integers and the few character operations of the .NET
    runtime that the resource core relies on: ASCII decoding, ordinal case
    folding and whitespace trimming. */
module Ascii {

  /** A `byte`. */
  type Byte = b: int | 0 <= b < 0x100

  /** A `ushort`. */
  type U16 = x: int | 0 <= x < 0x1_0000

  /** A C# `int`. */
  type Int32 = x: int | -0x8000_0000 <= x < 0x8000_0000

  /** A C# `long`. */
  type Int64 = x: int | -0x8000_0000_0000_0000 <= x < 0x8000_0000_0000_0000

  /** Printable ASCII, the range 32..126. */
  predicate IsPrintable(b: Byte) {
    32 <= b <= 126
  }

  /** One byte as `Encoding.ASCII` decodes it: codes below 0x80 stand for
      themselves, every other byte becomes the replacement character '?'. */
  function DecodeByte(b: Byte): (c: char)
    ensures c as int < 0x80
    ensures b < 0x80 ==> c as int == b
    ensures b >= 0x80 ==> c == '?'
  {
    if b < 0x80 then b as char else '?'
  }

  /** `Encoding.ASCII.GetString`: one character per byte. */
  function Decode(bs: seq<Byte>): (s: string)
    ensures |s| == |bs|
    ensures forall i :: 0 <= i < |bs| ==> s[i] == DecodeByte(bs[i])
  {
    if |bs| == 0 then "" else Decode(bs[..|bs| - 1]) + [DecodeByte(bs[|bs| - 1])]
  }

  /** Ordinal upper-casing restricted to ASCII letters. */
  function UpperChar(c: char): (u: char)
    ensures 'a' <= c <= 'z' ==> u as int == c as int - 32
    ensures !('a' <= c <= 'z') ==> u == c
  {
    if 'a' <= c <= 'z' then (c as int - 32) as char else c
  }

  function UpperString(s: string): (u: string)
    ensures |u| == |s|
    ensures forall i :: 0 <= i < |s| ==> u[i] == UpperChar(s[i])
  {
    if |s| == 0 then "" else [UpperChar(s[0])] + UpperString(s[1..])
  }

  /** No lower-case ASCII letter occurs in `s`. */
  predicate IsUpperCase(s: string) {
    forall i :: 0 <= i < |s| ==> !('a' <= s[i] <= 'z')
  }

  /** `StringComparer.OrdinalIgnoreCase` equality, on ASCII letters. */
  predicate EqualsIgnoreCase(a: string, b: string) {
    UpperString(a) == UpperString(b)
  }

  lemma UpperStringIsUpperCase(s: string)
    ensures IsUpperCase(UpperString(s))
    ensures IsUpperCase(s) ==> UpperString(s) == s
  {
  }

  /** `char.IsWhiteSpace` on the Latin-1 range: tab to carriage return,
      space, next-line and no-break space. */
  predicate IsWhiteSpace(c: char) {
    c == ' ' || ('\t' <= c <= '\r') || c == '\U{85}' || c == '\U{A0}'
  }

  /** `string.IsNullOrWhiteSpace` (strings are never null here). */
  predicate IsNullOrWhiteSpace(s: string) {
    forall i :: 0 <= i < |s| ==> IsWhiteSpace(s[i])
  }

  /** Number of leading whitespace characters. */
  function LeadingWhiteSpace(s: string): (n: nat)
    ensures n <= |s|
    ensures forall i :: 0 <= i < n ==> IsWhiteSpace(s[i])
    ensures n < |s| ==> !IsWhiteSpace(s[n])
  {
    if |s| == 0 || !IsWhiteSpace(s[0]) then 0 else 1 + LeadingWhiteSpace(s[1..])
  }

  /** Number of trailing whitespace characters. */
  function TrailingWhiteSpace(s: string): (n: nat)
    ensures n <= |s|
    ensures forall i :: |s| - n <= i < |s| ==> IsWhiteSpace(s[i])
    ensures n < |s| ==> !IsWhiteSpace(s[|s| - 1 - n])
  {
    if |s| == 0 || !IsWhiteSpace(s[|s| - 1]) then 0 else 1 + TrailingWhiteSpace(s[..|s| - 1])
  }

  /** `string.Trim()`: the longest slice of `s` that neither starts nor ends
      with whitespace; empty when `s` is all whitespace. */
  function Trim(s: string): (t: string)
    ensures t == "" <==> IsNullOrWhiteSpace(s)
    ensures t != "" ==> !IsWhiteSpace(t[0]) && !IsWhiteSpace(t[|t| - 1])
    ensures t != "" ==> exists i, j :: 0 <= i <= j <= |s| && t == s[i..j]
                          && IsNullOrWhiteSpace(s[..i]) && IsNullOrWhiteSpace(s[j..])
  {
    var a := LeadingWhiteSpace(s);
    if a == |s| then ""
    else
      var b := |s| - TrailingWhiteSpace(s);
      assert s[a..b][0] == s[a];
      assert s[a..b][b - a - 1] == s[b - 1];
      s[a..b]
  }

  /** Text that neither starts nor ends with whitespace is its own trim. */
  lemma TrimKeepsTrimmed(s: string)
    requires s != "" && !IsWhiteSpace(s[0]) && !IsWhiteSpace(s[|s| - 1])
    ensures Trim(s) == s
  {
    assert LeadingWhiteSpace(s) == 0 && TrailingWhiteSpace(s) == 0;
    assert s[0..|s|] == s;
  }

  /** Trimming leaves a string that `IsNullOrWhiteSpace` rejects exactly when
      something other than whitespace was there to keep. */
  lemma TrimmedNotBlank(s: string)
    ensures !IsNullOrWhiteSpace(Trim(s)) <==> exists i :: 0 <= i < |s| && !IsWhiteSpace(s[i])
  {
    var t := Trim(s);
    if t != "" {
      assert !IsWhiteSpace(t[0]);
    }
  }
}
