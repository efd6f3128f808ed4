/** The text-resource parser. A text resource starts with a six-byte header
    of three little-endian 16-bit fields (string count, stream size, flags).
    The parser reports the header in five lines and then takes one of two
    branches: when the stream size is positive and smaller than the payload
    it treats the payload as compressed and lists the runs of printable
    ASCII it can find; otherwise it decodes the payload as ASCII text and
    splits it into lines. Huffman decompression itself is not part of the
    parser (it only announces that it is not implemented). */
module TextParser {

  import opened Ascii
  import opened NumberFormat
  import opened Chunks

  datatype TextHeader = TextHeader(stringCount: U16, streamSize: U16, flags: U16)

  /** `BinaryReader.ReadUInt16`: the low byte comes first. */
  function ReadU16(lo: Byte, hi: Byte): (v: U16)
    ensures v % 0x100 == lo && v / 0x100 == hi
  {
    lo + 0x100 * hi
  }

  function EncodeU16(v: U16): (bs: seq<Byte>)
    ensures |bs| == 2 && ReadU16(bs[0], bs[1]) == v
  {
    [v % 0x100, v / 0x100]
  }

  function EncodeHeader(h: TextHeader): (bs: seq<Byte>)
    ensures |bs| == 6
  {
    EncodeU16(h.stringCount) + EncodeU16(h.streamSize) + EncodeU16(h.flags)
  }

  /** The header is bytes 0-1 (string count), 2-3 (stream size) and 4-5
      (flags); encoding it again gives back exactly those six bytes. */
  function ReadHeader(data: seq<Byte>): (h: TextHeader)
    requires |data| >= 6
    ensures EncodeHeader(h) == data[..6]
  {
    TextHeader(ReadU16(data[0], data[1]), ReadU16(data[2], data[3]), ReadU16(data[4], data[5]))
  }

  lemma HeaderRoundTrip(h: TextHeader, rest: seq<Byte>)
    ensures ReadHeader(EncodeHeader(h) + rest) == h
  {
    var bs := EncodeHeader(h) + rest;
    assert bs[..6] == EncodeHeader(h);
    var h' := ReadHeader(bs);
    assert EncodeU16(h'.stringCount) == bs[0..2] == EncodeU16(h.stringCount);
    assert EncodeU16(h'.streamSize) == bs[2..4] == EncodeU16(h.streamSize);
    assert EncodeU16(h'.flags) == bs[4..6] == EncodeU16(h.flags);
  }

  const TooSmallMessage := "Invalid data: too small for header"

  const CompressedNotes: seq<string> := [
    "Compressed text data detected.",
    "Note: Full Huffman decompression not yet implemented.",
    "Original C++ implementation used complex dictionary-based decompression.",
    ""
  ]

  const ReadableHeading := "Potentially readable strings found:"

  const PlainHeading := "Plain text content:"

  /** The five report lines that open every parse of a complete header. */
  function HeaderLines(h: TextHeader): seq<string> {
    [ "Text Resource Header:",
      "  String Count: " + Decimal(h.stringCount),
      "  Stream Size: " + Decimal(h.streamSize),
      "  Flags: 0x" + Hex4(h.flags),
      "" ]
  }

  /** The branch test; only the stream size and the input length take part. */
  predicate IsCompressed(h: TextHeader, dataLength: nat) {
    h.streamSize > 0 && h.streamSize < dataLength - 6
  }

  /** Every byte outside printable ASCII ends a run. */
  predicate IsRunBreak(b: Byte) {
    !IsPrintable(b)
  }

  /** The separators of `String.Split` in the plain branch. */
  predicate IsLineBreak(c: char) {
    c == '\r' || c == '\n' || c == '\0'
  }

  /** What one run of printable bytes contributes: its trimmed text in quotes,
      when the run has at least three bytes and is not blank. */
  function RunEntry(run: seq<Byte>): seq<string> {
    if |run| >= 3 then
      var str := Trim(Decode(run));
      if !IsNullOrWhiteSpace(str) then ["  \"" + str + "\""] else []
    else []
  }

  function Emit(runs: seq<seq<Byte>>): seq<string> {
    if |runs| == 0 then [] else RunEntry(runs[0]) + Emit(runs[1..])
  }

  /** The specification of `ExtractReadableStrings`. */
  function ReadableStrings(data: seq<Byte>): seq<string> {
    Emit(Split(data, IsRunBreak))
  }

  /** The plain branch: ASCII text split on CR, LF and NUL, empty pieces removed. */
  function PlainLines(payload: seq<Byte>): seq<string> {
    NonEmpty(Split(Decode(payload), IsLineBreak))
  }

  /** What the compressed branch reports about the payload. */
  function CompressedReport(payload: seq<Byte>): seq<string> {
    var found := ReadableStrings(payload);
    CompressedNotes + (if |found| > 0 then [ReadableHeading] + found else [])
  }

  /** What the plain branch reports about the payload. */
  function PlainReport(payload: seq<Byte>): seq<string> {
    [PlainHeading] + PlainLines(payload)
  }

  /** The specification of `ParseTextData`. */
  function ParseText(data: seq<Byte>): seq<string> {
    if |data| < 6 then [TooSmallMessage]
    else
      var h := ReadHeader(data);
      HeaderLines(h) + if IsCompressed(h, |data|) then CompressedReport(data[6..]) else PlainReport(data[6..])
  }

  /** Scans the bytes, growing the current run while bytes are printable and
      closing it at every other byte and at the end of the input. */
  method ExtractReadableStrings(data: array<Byte>) returns (strings: seq<string>)
    ensures strings == ReadableStrings(data[..])
  {
    strings := [];
    var currentString: seq<Byte> := [];
    assert data[0..] == data[..];
    for i := 0 to data.Length
      invariant strings + Emit(SplitFrom(currentString, data[i..], IsRunBreak)) == ReadableStrings(data[..])
    {
      var b := data[i];
      ScanStep(currentString, data[i..]);
      assert data[i..][0] == b && data[i..][1..] == data[i + 1..];
      if b >= 32 && b <= 126 {
        currentString := currentString + [b];
      } else {
        ghost var rest := Emit(SplitFrom([], data[i + 1..], IsRunBreak));
        ghost var before := strings;
        strings := CloseRun(strings, currentString);
        ConcatAssociative(before, RunEntry(currentString), rest);
        currentString := [];
      }
    }
    ScanEnd(currentString);
    strings := CloseRun(strings, currentString);
  }

  /** The test applied to a run when it ends (inside the loop at a
      non-printable byte, after the loop at the end of the input). */
  method CloseRun(strings: seq<string>, currentString: seq<Byte>) returns (strings': seq<string>)
    ensures strings' == strings + RunEntry(currentString)
  {
    strings' := strings;
    if |currentString| >= 3 {
      var str := Trim(Decode(currentString));
      if !IsNullOrWhiteSpace(str) {
        strings' := strings' + ["  \"" + str + "\""];
      }
    }
  }

  lemma ConcatAssociative<X>(a: seq<X>, b: seq<X>, c: seq<X>)
    ensures a + (b + c) == (a + b) + c
  {
  }

  /** One byte of the scan: a printable byte extends the current run, any
      other byte closes it. */
  lemma ScanStep(cur: seq<Byte>, s: seq<Byte>)
    requires |s| > 0
    ensures Emit(SplitFrom(cur, s, IsRunBreak)) ==
      if IsPrintable(s[0]) then Emit(SplitFrom(cur + [s[0]], s[1..], IsRunBreak))
      else RunEntry(cur) + Emit(SplitFrom([], s[1..], IsRunBreak))
  {
    if !IsPrintable(s[0]) {
      var rest := SplitFrom([], s[1..], IsRunBreak);
      assert SplitFrom(cur, s, IsRunBreak) == [cur] + rest;
      assert ([cur] + rest)[1..] == rest;
    }
  }

  lemma ScanEnd(cur: seq<Byte>)
    ensures Emit(SplitFrom(cur, [], IsRunBreak)) == RunEntry(cur)
  {
    assert [cur][1..] == [];
  }

  method ParseTextData(data: array<Byte>) returns (textLines: seq<string>)
    ensures textLines == ParseText(data[..])
  {
    textLines := [];
    if data.Length < 6 {
      textLines := textLines + [TooSmallMessage];
      return;
    }
    var header := TextHeader(ReadU16(data[0], data[1]), ReadU16(data[2], data[3]), ReadU16(data[4], data[5]));
    textLines := textLines + ["Text Resource Header:"];
    textLines := textLines + ["  String Count: " + Decimal(header.stringCount)];
    textLines := textLines + ["  Stream Size: " + Decimal(header.streamSize)];
    textLines := textLines + ["  Flags: 0x" + Hex4(header.flags)];
    textLines := textLines + [""];
    assert textLines == HeaderLines(ReadHeader(data[..]));
    if header.streamSize > 0 && header.streamSize < data.Length - 6 {
      var report := ReportCompressed(data);
      textLines := textLines + report;
    } else {
      var report := ReportPlain(data);
      textLines := textLines + report;
    }
  }

  /** The lines the compressed branch adds, about the bytes after the header. */
  method ReportCompressed(data: array<Byte>) returns (textLines: seq<string>)
    requires data.Length >= 6
    ensures textLines == CompressedReport(data[6..])
  {
    textLines := [];
    textLines := textLines + ["Compressed text data detected."];
    textLines := textLines + ["Note: Full Huffman decompression not yet implemented."];
    textLines := textLines + ["Original C++ implementation used complex dictionary-based decompression."];
    textLines := textLines + [""];
    assert textLines == CompressedNotes;
    var n := data.Length - 6;
    var remainingData := new Byte[n](i reads data requires 0 <= i < n => data[6 + i]);
    assert remainingData[..] == data[6..];
    var readableStrings := ExtractReadableStrings(remainingData);
    if |readableStrings| > 0 {
      textLines := textLines + [ReadableHeading];
      textLines := textLines + readableStrings;
      ConcatAssociative(CompressedNotes, [ReadableHeading], readableStrings);
    }
  }

  /** The lines the plain branch adds, about the bytes after the header. */
  method ReportPlain(data: array<Byte>) returns (textLines: seq<string>)
    requires data.Length >= 6
    ensures textLines == PlainReport(data[6..])
  {
    var n := data.Length - 6;
    var remainingData := new Byte[n](i reads data requires 0 <= i < n => data[6 + i]);
    assert remainingData[..] == data[6..];
    var text := Decode(remainingData[..]);
    var lines := NonEmpty(Split(text, IsLineBreak));
    textLines := [];
    textLines := textLines + [PlainHeading];
    textLines := textLines + lines;
  }

  // ---------------------------------------------------------------------
  // Properties of the parse

  /** The branch report that follows the header lines. */
  function Report(data: seq<Byte>): (r: seq<string>)
    requires |data| >= 6
    ensures |r| >= 1
  {
    if IsCompressed(ReadHeader(data), |data|) then CompressedReport(data[6..]) else PlainReport(data[6..])
  }

  lemma ParseTextSplits(data: seq<Byte>)
    requires |data| >= 6
    ensures ParseText(data) == HeaderLines(ReadHeader(data)) + Report(data)
    ensures |ParseText(data)| == 5 + |Report(data)|
    ensures ParseText(data)[5..] == Report(data)
  {
    var lines := HeaderLines(ReadHeader(data)) + Report(data);
    assert lines[5..] == Report(data);
  }

  /** Input too short for a header gives the one error line, and only such
      input does. */
  lemma ParseRejectsShortInput(data: seq<Byte>)
    ensures ParseText(data) == [TooSmallMessage] <==> |data| < 6
  {
    if |data| >= 6 {
      ParseTextSplits(data);
      assert |ParseText(data)| != |[TooSmallMessage]|;
    }
  }

  /** A complete header is reported first: the three little-endian words of
      bytes 0-5, in decimal, decimal and four hexadecimal digits. */
  lemma ParseReportsHeader(data: seq<Byte>)
    requires |data| >= 6
    ensures var lines := ParseText(data);
      && |lines| >= 6
      && lines[0] == "Text Resource Header:"
      && lines[1] == "  String Count: " + Decimal(ReadU16(data[0], data[1]))
      && lines[2] == "  Stream Size: " + Decimal(ReadU16(data[2], data[3]))
      && lines[3] == "  Flags: 0x" + Hex4(ReadU16(data[4], data[5]))
      && lines[4] == ""
  {
    ParseTextSplits(data);
    var header := HeaderLines(ReadHeader(data));
    assert forall k :: 0 <= k < 5 ==> ParseText(data)[k] == header[k];
  }

  /** The compressed branch is taken exactly when 0 < stream size < payload
      length; the sixth line says which branch ran. */
  lemma ParseBranch(data: seq<Byte>)
    requires |data| >= 6
    ensures var streamSize: int := data[2] as int + 256 * data[3] as int;
      && (ParseText(data)[5] == "Compressed text data detected." <==> 0 < streamSize < |data| - 6)
      && (ParseText(data)[5] == PlainHeading <==> !(0 < streamSize < |data| - 6))
  {
    ParseTextSplits(data);
    var first := ParseText(data)[5];
    assert first == Report(data)[0];
    assert "Compressed text data detected."[0] != PlainHeading[0];
  }

  /** String count and flags are reported and nothing more: inputs that
      differ only in bytes 0-1 and 4-5 give the same lines except lines 1
      and 3. */
  lemma ParseIgnoresCountAndFlags(a: seq<Byte>, b: seq<Byte>)
    requires |a| == |b| >= 6
    requires a[2] == b[2] && a[3] == b[3] && a[6..] == b[6..]
    ensures |ParseText(a)| == |ParseText(b)|
    ensures forall k :: 0 <= k < |ParseText(a)| && k != 1 && k != 3 ==> ParseText(a)[k] == ParseText(b)[k]
  {
    ParseTextSplits(a);
    ParseTextSplits(b);
    var ha, hb := ReadHeader(a), ReadHeader(b);
    assert IsCompressed(ha, |a|) == IsCompressed(hb, |b|);
    assert Report(a) == Report(b);
    var la, lb := ParseText(a), ParseText(b);
    forall k | 0 <= k < |la| && k != 1 && k != 3 ensures la[k] == lb[k] {
      if k < 5 {
        assert la[k] == HeaderLines(ha)[k];
        assert lb[k] == HeaderLines(hb)[k];
      } else {
        assert la[k] == la[5..][k - 5];
        assert lb[k] == lb[5..][k - 5];
      }
    }
  }

  /** The compressed branch: the four notes, then - only if something was
      found - a heading and the readable strings of ALL bytes after the
      header, not just the first `streamSize` of them. */
  lemma ParseCompressed(data: seq<Byte>)
    requires |data| >= 6 && IsCompressed(ReadHeader(data), |data|)
    ensures var lines, found := ParseText(data), ReadableStrings(data[6..]);
      && lines[5..9] == CompressedNotes
      && (found == [] <==> |lines| == 9)
      && (found != [] ==> lines[9] == ReadableHeading && lines[10..] == found)
  {
    ParseTextSplits(data);
    var lines := ParseText(data);
    var r := CompressedReport(data[6..]);
    CompressedReportShape(data[6..]);
    assert lines[5..] == r;
    assert |lines| == 5 + |r|;
    assert lines[5..9] == r[..4];
    if |r| > 4 {
      assert lines[9] == r[4];
      assert lines[10..] == r[5..];
    }
  }

  lemma CompressedReportShape(payload: seq<Byte>)
    ensures var r, found := CompressedReport(payload), ReadableStrings(payload);
      && |r| >= 4 && r[..4] == CompressedNotes
      && (found == [] <==> |r| == 4)
      && (found != [] ==> r[4] == ReadableHeading && r[5..] == found)
  {
    var found := ReadableStrings(payload);
    var tail := if found != [] then [ReadableHeading] + found else [];
    var r := CompressedNotes + tail;
    assert CompressedReport(payload) == r;
    assert r[..4] == CompressedNotes;
    if found != [] {
      assert r[4] == tail[0];
      assert r[5..] == tail[1..];
    }
  }

  /** The plain branch: the heading, then lines that are non-empty, free of
      CR, LF and NUL, pure ASCII, and that together hold every other
      character of the decoded payload, in order. */
  lemma ParsePlain(data: seq<Byte>)
    requires |data| >= 6 && !IsCompressed(ReadHeader(data), |data|)
    ensures var lines := ParseText(data);
      && lines[5] == PlainHeading
      && lines[6..] == PlainLines(data[6..])
      && (forall k :: 6 <= k < |lines| ==> |lines[k]| > 0)
      && (forall k, j :: 6 <= k < |lines| && 0 <= j < |lines[k]| ==>
            !IsLineBreak(lines[k][j]) && lines[k][j] as int < 0x80)
      && Flatten(lines[6..]) == Kept(Decode(data[6..]), IsLineBreak)
  {
    PlainTail(data);
    var lines := ParseText(data);
    var pieces := PlainLines(data[6..]);
    PlainLinesProperties(data[6..]);
    forall k | 6 <= k < |lines| ensures lines[k] == pieces[k - 6] { }
  }

  lemma PlainTail(data: seq<Byte>)
    requires |data| >= 6 && !IsCompressed(ReadHeader(data), |data|)
    ensures |ParseText(data)| == 6 + |PlainLines(data[6..])|
    ensures ParseText(data)[5] == PlainHeading && ParseText(data)[6..] == PlainLines(data[6..])
  {
    ParseTextSplits(data);
    var r := PlainReport(data[6..]);
    assert ParseText(data)[5..] == r;
    assert ParseText(data)[6..] == r[1..];
  }

  // ---------------------------------------------------------------------
  // Properties of the plain-text splitter

  lemma PlainLinesProperties(payload: seq<Byte>)
    ensures var lines := PlainLines(payload);
      && (forall k :: 0 <= k < |lines| ==> |lines[k]| > 0)
      && (forall k, j :: 0 <= k < |lines| && 0 <= j < |lines[k]| ==>
            !IsLineBreak(lines[k][j]) && lines[k][j] as int < 0x80)
      && Flatten(lines) == Kept(Decode(payload), IsLineBreak)
  {
    var text := Decode(payload);
    var pieces := Split(text, IsLineBreak);
    var lines := NonEmpty(pieces);
    SplitRoundTrip(text, IsLineBreak);
    SplitFromFlatten([], text, IsLineBreak);
    FlattenNonEmpty(pieces);
    PiecesAscii([], text, IsLineBreak);
    forall k, j | 0 <= k < |lines| && 0 <= j < |lines[k]|
      ensures !IsLineBreak(lines[k][j]) && lines[k][j] as int < 0x80
    {
      assert lines[k] in pieces;
      var i :| 0 <= i < |pieces| && pieces[i] == lines[k];
      assert pieces[i][j] == lines[k][j];
    }
  }

  /** Splitting ASCII text yields ASCII pieces. */
  lemma {:induction false} PiecesAscii(cur: string, s: string, isSep: char -> bool)
    requires forall j :: 0 <= j < |cur| ==> cur[j] as int < 0x80
    requires forall j :: 0 <= j < |s| ==> s[j] as int < 0x80
    ensures forall i, j :: 0 <= i < |SplitFrom(cur, s, isSep)| && 0 <= j < |SplitFrom(cur, s, isSep)[i]|
              ==> SplitFrom(cur, s, isSep)[i][j] as int < 0x80
    decreases |s|
  {
    if |s| > 0 {
      if isSep(s[0]) {
        PiecesAscii([], s[1..], isSep);
      } else {
        PiecesAscii(cur + [s[0]], s[1..], isSep);
      }
    }
  }

  // ---------------------------------------------------------------------
  // Properties of the printable-run scan

  /** For a printable run, a character of its decoding is whitespace
      exactly when the byte is a space. */
  lemma {:induction false} PrintableDecodeWhiteSpace(run: seq<Byte>)
    requires forall j :: 0 <= j < |run| ==> IsPrintable(run[j])
    ensures forall j :: 0 <= j < |run| ==> (IsWhiteSpace(Decode(run)[j]) <==> run[j] == 32)
    ensures forall j :: 0 <= j < |run| ==> Decode(run)[j] as int == run[j]
  {
  }

  /** A run contributes one entry exactly when it has at least three bytes of
      which at least one is not a space. */
  lemma RunEntryMeaning(run: seq<Byte>)
    requires forall j :: 0 <= j < |run| ==> IsPrintable(run[j])
    ensures |RunEntry(run)| == if |run| >= 3 && exists j :: 0 <= j < |run| && run[j] != 32 then 1 else 0
  {
    PrintableDecodeWhiteSpace(run);
    TrimmedNotBlank(Decode(run));
  }

  /** The scan's output is exactly one entry per maximal printable run that
      is long enough and not blank: whichever way the input is written as
      printable runs separated by single non-printable bytes, the scan
      emits what those runs emit. */
  lemma ReadableStringsOfRuns(runs: seq<seq<Byte>>, breaks: seq<Byte>)
    requires |runs| == |breaks| + 1
    requires Clean(runs, IsRunBreak)
    requires AllSeparators(breaks, IsRunBreak)
    ensures ReadableStrings(Interleave(runs, breaks)) == Emit(runs)
  {
    SplitUnique(runs, breaks, IsRunBreak);
  }

  lemma {:induction false} EmitAppend(runs: seq<seq<Byte>>, last: seq<Byte>)
    ensures Emit(runs + [last]) == Emit(runs) + RunEntry(last)
  {
    if |runs| == 0 {
      assert runs + [last] == [last];
      assert [last][1..] == [];
    } else {
      assert (runs + [last])[1..] == runs[1..] + [last];
      EmitAppend(runs[1..], last);
    }
  }

  /** The run that reaches the end of the input is treated like one closed by
      a non-printable byte. */
  lemma FinalRunLikeInterior(data: seq<Byte>, b: Byte)
    requires !IsPrintable(b)
    ensures ReadableStrings(data + [b]) == ReadableStrings(data)
  {
    SplitSeparatorAtEnd(data, b, IsRunBreak);
    EmitAppend(Split(data, IsRunBreak), []);
  }

  /** At most one entry per run. */
  lemma {:induction false} EmitLength(runs: seq<seq<Byte>>)
    ensures |Emit(runs)| <= |runs|
  {
    if |runs| > 0 {
      EmitLength(runs[1..]);
    }
  }

  /** Every entry is two spaces and a quoted, non-empty text of printable
      ASCII that neither starts nor ends with a space. */
  ghost predicate QuotedEntry(e: string) {
    && |e| >= 5
    && e[..3] == "  \""
    && e[|e| - 1] == '"'
    && e[3] != ' ' && e[|e| - 2] != ' '
    && forall j :: 3 <= j < |e| - 1 ==> 32 <= e[j] as int <= 126
  }

  lemma RunEntryShape(run: seq<Byte>)
    requires forall j :: 0 <= j < |run| ==> IsPrintable(run[j])
    ensures forall e :: e in RunEntry(run) ==> QuotedEntry(e)
  {
    if |run| >= 3 {
      var str := Trim(Decode(run));
      if !IsNullOrWhiteSpace(str) {
        TrimPrintable(run);
        QuotedPrintable(str);
      }
    }
  }

  /** Trimming a printable run leaves printable text with no space at either end. */
  lemma TrimPrintable(run: seq<Byte>)
    requires forall j :: 0 <= j < |run| ==> IsPrintable(run[j])
    ensures var str := Trim(Decode(run));
      && (forall k :: 0 <= k < |str| ==> 32 <= str[k] as int <= 126)
      && (str != "" ==> str[0] != ' ' && str[|str| - 1] != ' ')
  {
    var text := Decode(run);
    var str := Trim(text);
    if str != "" {
      assert !IsWhiteSpace(str[0]) && !IsWhiteSpace(str[|str| - 1]);
      var i, j :| 0 <= i <= j <= |text| && str == text[i..j];
      forall k | 0 <= k < |str| ensures 32 <= str[k] as int <= 126 {
        var b := run[i + k];
        assert IsPrintable(b);
        assert str[k] == text[i + k] == DecodeByte(b);
        assert DecodeByte(b) as int == b as int;
      }
    }
  }

  lemma QuotedPrintable(str: string)
    requires str != "" && str[0] != ' ' && str[|str| - 1] != ' '
    requires forall k :: 0 <= k < |str| ==> 32 <= str[k] as int <= 126
    ensures QuotedEntry("  \"" + str + "\"")
  {
    var e := "  \"" + str + "\"";
    assert |e| == |str| + 4;
    assert e[..3] == "  \"";
    forall k | 3 <= k < |e| - 1 ensures 32 <= e[k] as int <= 126 {
      assert e[k] == str[k - 3];
    }
    assert e[3] == str[0] && e[|e| - 2] == str[|str| - 1];
  }

  lemma {:induction false} EmitShape(runs: seq<seq<Byte>>)
    requires Clean(runs, IsRunBreak)
    ensures forall e :: e in Emit(runs) ==> QuotedEntry(e)
  {
    if |runs| > 0 {
      assert forall j :: 0 <= j < |runs[0]| ==> IsPrintable(runs[0][j]);
      RunEntryShape(runs[0]);
      assert Clean(runs[1..], IsRunBreak) by {
        forall i, j | 0 <= i < |runs[1..]| && 0 <= j < |runs[1..][i]|
          ensures !IsRunBreak(runs[1..][i][j])
        {
          assert runs[1..][i] == runs[i + 1];
        }
      }
      EmitShape(runs[1..]);
    }
  }

  lemma ReadableStringsShape(data: seq<Byte>)
    ensures forall e :: e in ReadableStrings(data) ==> QuotedEntry(e)
    ensures |ReadableStrings(data)| <= |Separators(data, IsRunBreak)| + 1
  {
    SplitRoundTrip(data, IsRunBreak);
    EmitShape(Split(data, IsRunBreak));
    EmitLength(Split(data, IsRunBreak));
  }

  // ---------------------------------------------------------------------
  // Worked examples

  /** Stream size 5 and payload `hi` followed by three NULs, whatever the
      count and flags: the stream size is not below the five payload bytes,
      so the plain branch runs and yields the single line `hi`. */
  lemma PlainExample(data: seq<Byte>)
    requires |data| == 11 && data[2] == 5 && data[3] == 0
    requires data[6..] == [104, 105, 0, 0, 0]
    ensures ParseText(data)[5..] == [PlainHeading, "hi"]
  {
    assert ReadHeader(data).streamSize == 5;
    ParsePlain(data);
    PlainLinesExample(data[6..]);
    var lines := ParseText(data);
    assert lines[5..] == [lines[5]] + lines[6..];
  }

  /** The header report of one string, stream size 5 and no flags. */
  lemma HeaderExample()
    ensures HeaderLines(TextHeader(1, 5, 0)) == ["Text Resource Header:", "  String Count: 1", "  Stream Size: 5", "  Flags: 0x0000", ""]
  {
    assert Decimal(1) == "1" && Decimal(5) == "5";
    assert Hex4(0) == "0000";
    assert "  String Count: " + "1" == "  String Count: 1";
    assert "  Stream Size: " + "5" == "  Stream Size: 5";
    assert "  Flags: 0x" + "0000" == "  Flags: 0x0000";
  }

  lemma PlainLinesExample(payload: seq<Byte>)
    requires payload == [104, 105, 0, 0, 0]
    ensures PlainLines(payload) == ["hi"]
  {
    var text := Decode(payload);
    assert text == "hi" + ['\0'] + ['\0'] + ['\0'];
    SplitSeparatorAtEnd("hi" + ['\0'] + ['\0'], '\0', IsLineBreak);
    SplitSeparatorAtEnd("hi" + ['\0'], '\0', IsLineBreak);
    SplitSeparatorAtEnd("hi", '\0', IsLineBreak);
    SplitFromAbsorbs([], "hi", [], IsLineBreak);
    assert "hi" + [] == "hi" && [] + "hi" == "hi";
    assert SplitFrom("hi", [], IsLineBreak) == ["hi"];
    assert Split(text, IsLineBreak) == ["hi", "", "", ""];
    assert NonEmpty(["hi", "", "", ""]) == ["hi"];
  }

  /** Stream size 1 with four payload bytes, whatever the count and flags,
      selects the compressed branch, and the scan for readable strings covers
      the whole payload: the run `abc` is reported although it lies past the
      stream size. */
  lemma CompressedExample(data: seq<Byte>)
    requires |data| == 10 && data[2] == 1 && data[3] == 0
    requires data[6..] == [97, 98, 99, 0]
    ensures ParseText(data)[5..9] == CompressedNotes
    ensures ParseText(data)[9..] == [ReadableHeading, "  \"abc\""]
  {
    assert ReadHeader(data).streamSize == 1;
    ParseCompressed(data);
    ReadableStringsExample(data[6..]);
    var lines := ParseText(data);
    var entry := "  \"abc\"";
    assert lines[9] == ReadableHeading && lines[10..] == [entry];
    assert lines[9..] == [lines[9]] + lines[10..];
  }

  lemma ReadableStringsExample(payload: seq<Byte>)
    requires payload == [97, 98, 99, 0]
    ensures ReadableStrings(payload) == ["  \"abc\""]
  {
    var run: seq<Byte> := [97, 98, 99];
    assert payload == run + [0];
    SplitSeparatorAtEnd(run, 0, IsRunBreak);
    SplitFromAbsorbs([], run, [], IsRunBreak);
    assert run + [] == run && [] + run == run;
    assert SplitFrom(run, [], IsRunBreak) == [run];
    assert Split(payload, IsRunBreak) == [run, []];
    RunEntryExample(run);
    assert Emit([run, []]) == RunEntry(run) + Emit([[]]);
  }

  lemma RunEntryExample(run: seq<Byte>)
    requires run == [97, 98, 99]
    ensures RunEntry(run) == ["  \"abc\""]
  {
    var text := Decode(run);
    assert text[0] == 'a' && text[1] == 'b' && text[2] == 'c';
    assert text == "abc";
    TrimKeepsTrimmed(text);
    assert !IsNullOrWhiteSpace(text);
    QuoteExample();
  }

  lemma QuoteExample()
    ensures "  \"" + "abc" + "\"" == "  \"abc\""
  {
  }
}
