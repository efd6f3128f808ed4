# DGate resource manager: text parser and resource scanner

This project models the core of a resource browser for the 1994 adventure game
*Death Gate*. The model has three parts.

- **The text-resource parser** (`TextParser`). It reads a 6-byte little-endian
  header: string count, stream size and flags. It reports the header in five
  lines. It then takes one of two branches:
  - the "compressed" branch lists the runs of printable ASCII in the payload;
  - the "plain" branch decodes the payload as ASCII and splits it into lines.
- **The scanner** (`ResourceManager`). A closed catalogue of four
  case-insensitive sets of file names decides the kind of each file in a game
  directory: image, video, audio or text. The scan turns each recognised file
  into one typed descriptor. It fills in fixed placeholder details for
  images, videos and audio, and the parser's lines for text. A directory is
  valid when at least one file name is in the catalogue.
- **The descriptors** (`ResourceModels`). There is one record with common
  fields and a payload per kind. The record's `Type` tag is fixed by the kind.

Support modules:
- `Ascii`: bytes, ASCII decoding, case folding and `Trim`.
- `NumberFormat`: decimal and `X4` rendering, each with a parser that reads
  it back.
- `Chunks`: a generic split on separators.

Both parser routines are imperative, as in the source. `ParseTextData` and
`ExtractReadableStrings` are methods over arrays, and the extractor keeps a
loop with a growing run buffer. Each method is proved equal to a
specification function, and the properties are proved about those functions.
The directory scan is likewise a loop (`LoadDirectory`), proved equal to the
function `Scan`.

The file system is a parameter. A directory is `Option<seq<FileEntry>>`, where
`None` means the directory does not exist. A `FileEntry` holds the file's
full path, its name, its length, and what reading its bytes yields: the bytes,
or the message of the exception.

## Behaviour worth noting

- The code never rejects a flag value: any flags are printed as four hex
  digits and otherwise ignored.
- A stream size of 0 takes the plain branch, after the five header lines.
- The compressed branch only scans for printable runs. It emits four fixed
  note lines, then the printable runs of the *whole* payload, not just the
  first `streamSize` bytes.
- A text descriptor whose file cannot be read keeps its lines so far and
  gains one line, `Error loading text resource: <message>`. For a fresh
  descriptor that is exactly one line.

## Model

| member | source | states |
|---|---|---|
| TextParser.ReadU16 | DGateResourceManager/Services/TextParser.cs:41-46 | the low byte comes first: the value's low byte is the first byte and its high byte the second |
| TextParser.ReadHeader | DGateResourceManager/Services/TextParser.cs:41-46 | the header is stored in bytes 0-5; encoding the header again gives back exactly those six bytes |
| TextParser.HeaderRoundTrip | DGateResourceManager/Services/TextParser.cs:14-19 | reading the header of an encoded header followed by anything gives that header back |
| TextParser.ParseTextData | DGateResourceManager/Services/TextParser.cs:25-92 | the method's lines equal `ParseText` of the input bytes |
| TextParser.ReportCompressed | DGateResourceManager/Services/TextParser.cs:57-71 | the compressed branch's lines: the four notes, then the heading and the found strings only if something was found, computed from all bytes after the header |
| TextParser.ReportPlain | DGateResourceManager/Services/TextParser.cs:76-83 | the plain branch's lines: the heading, then the non-empty pieces of the ASCII-decoded payload |
| TextParser.ExtractReadableStrings | DGateResourceManager/Services/TextParser.cs:97-133 | the loop with its run buffer returns `ReadableStrings` of the array: one entry per run of printable bytes between breaks, the final run included |
| TextParser.CloseRun | DGateResourceManager/Services/TextParser.cs:110-117 | closing a run appends that run's entry, if any, to the strings so far |
| TextParser.ParseRejectsShortInput | DGateResourceManager/Services/TextParser.cs:29-33 | the result is the single too-small line exactly when the input has fewer than 6 bytes |
| TextParser.ParseReportsHeader | DGateResourceManager/Services/TextParser.cs:41-52 | with a full header, there are at least six lines and lines 0-4 are the heading, the string count and stream size in decimal, `0x` with the flags in four hex digits, then an empty line; each value is the little-endian word of bytes 0-1, 2-3 and 4-5 |
| TextParser.ParseBranch | DGateResourceManager/Services/TextParser.cs:55 | line 5 opens the compressed report exactly when 0 < stream size < length - 6, and is the plain heading exactly otherwise |
| TextParser.ParseIgnoresCountAndFlags | DGateResourceManager/Services/TextParser.cs:55 | inputs that differ only in the count and flags bytes give lines of equal number that agree everywhere except lines 1 and 3 |
| TextParser.ParseCompressed | DGateResourceManager/Services/TextParser.cs:57-71 | in the compressed branch, lines 5-8 are the notes; there are exactly 9 lines iff nothing was found; otherwise line 9 is the heading and the rest are the strings of bytes 6 to the end |
| TextParser.ParsePlain | DGateResourceManager/Services/TextParser.cs:76-83 | in the plain branch, line 5 is the heading, and every later line is non-empty, ASCII and free of CR, LF and NUL; concatenated, they give the decoded payload minus its separators |
| TextParser.PlainLinesProperties | DGateResourceManager/Services/TextParser.cs:79-80 | the pieces are non-empty and ASCII, contain no separator, and concatenate to the decoded text minus the separators |
| TextParser.RunEntry | DGateResourceManager/Services/TextParser.cs:110-117 | the run test: the run of at least 3 bytes is decoded, trimmed and kept quoted unless blank; `RunEntryMeaning` proves when it yields one entry and `RunEntryShape` what that entry looks like |
| TextParser.RunEntryMeaning | DGateResourceManager/Services/TextParser.cs:110-117 | a printable run gives one entry exactly when it has at least 3 bytes and some byte is not a space, and none otherwise |
| TextParser.RunEntryShape | DGateResourceManager/Services/TextParser.cs:112-115 | an entry is two spaces, a quote, non-empty printable text that neither starts nor ends with a space, and a quote |
| TextParser.ReadableStringsOfRuns | DGateResourceManager/Services/TextParser.cs:102-130 | for any bytes built from printable runs joined by break bytes, the result is the runs' entries in order: exactly one element per qualifying run |
| TextParser.FinalRunLikeInterior | DGateResourceManager/Services/TextParser.cs:122-130 | appending a break byte after the last run changes nothing: the final-run check acts like the one inside the loop |
| TextParser.ReadableStringsShape | DGateResourceManager/Services/TextParser.cs:97-133 | every entry has the quoted shape, and there are at most one more entries than break bytes |
| TextParser.EmitLength | DGateResourceManager/Services/TextParser.cs:102-130 | each run contributes at most one entry |
| TextParser.CompressedReportShape | DGateResourceManager/Services/TextParser.cs:57-71 | the compressed report starts with the four notes; it is only those notes exactly when nothing was found, and otherwise goes on with the heading and the found strings |
| TextParser.PlainTail | DGateResourceManager/Services/TextParser.cs:76-83 | in the plain branch, the lines after the header are the heading and then exactly the pieces of the payload |
| TextParser.PlainExample | DGateResourceManager/Services/TextParser.cs:25-92 | whatever the count and flags, stream size 5 with payload `hi` and three NULs gives, after the header, the plain heading and the one line `hi` |
| TextParser.HeaderExample | DGateResourceManager/Services/TextParser.cs:47-52 | count 1, stream size 5 and flags 0 give the heading, `  String Count: 1`, `  Stream Size: 5`, `  Flags: 0x0000` and an empty line |
| TextParser.CompressedExample | DGateResourceManager/Services/TextParser.cs:55-71 | whatever the count and flags, stream size 1 over four payload bytes takes the compressed branch and reports the run `abc`, which lies past the stream size |
| TextParser.ReadableStringsExample | DGateResourceManager/Services/TextParser.cs:97-133 | the bytes `abc` and a NUL give the one entry `  "abc"` |
| NumberFormat.Decimal | DGateResourceManager/Services/TextParser.cs:49-50 | the rendering is digits only, non-empty, with no leading zero, and has one digit exactly below ten |
| NumberFormat.DecimalRoundTrip | DGateResourceManager/Services/TextParser.cs:49-50 | reading the decimal rendering back gives the number |
| NumberFormat.DecimalInjective | DGateResourceManager/Services/TextParser.cs:49-50 | different values render differently |
| NumberFormat.Hex4 | DGateResourceManager/Services/TextParser.cs:51 | `X4` gives exactly four upper-case hex digits |
| NumberFormat.Hex4RoundTrip | DGateResourceManager/Services/TextParser.cs:51 | reading the four hex digits back gives the value |
| Ascii.Decode | DGateResourceManager/Services/TextParser.cs:79 | ASCII decoding keeps the length, maps bytes below 0x80 to the same code point and every other byte to `?` |
| Ascii.Trim | DGateResourceManager/Services/TextParser.cs:112 | the result is empty iff the text is all white space; otherwise it is a slice with white space only outside it and not at its ends |
| Ascii.UpperString | DGateResourceManager/Services/ResourceManager.cs:50 | case folding keeps the length and upper-cases each ASCII letter in place |
| Ascii.UpperStringIsUpperCase | DGateResourceManager/Services/ResourceManager.cs:50 | folded text has no lower-case letter, and folding upper-case text changes nothing |
| Chunks.SplitRoundTrip | DGateResourceManager/Services/TextParser.cs:80 | the pieces and the separators interleave back to the input, and no piece holds a separator |
| Chunks.SplitUnique | DGateResourceManager/Services/TextParser.cs:80 | any separator-free pieces joined by separators split back into exactly those pieces and separators |
| Chunks.FlattenNonEmpty | DGateResourceManager/Services/TextParser.cs:80 | dropping the empty pieces loses no element |
| Chunks.SplitSeparatorAtEnd | DGateResourceManager/Services/TextParser.cs:80 | a trailing separator adds one empty piece at the end |
| ResourceManager.KnownSetSizes | DGateResourceManager/Services/ResourceManager.cs:50-82 | the sets hold 12 image, 3 video, 3 audio and 3 text names |
| ResourceManager.KnownSetsDisjoint | DGateResourceManager/Services/ResourceManager.cs:50-82 | no name is in two sets |
| ResourceManager.KnownSetsUpperCase | DGateResourceManager/Services/ResourceManager.cs:50-82 | every catalogue name is upper case |
| ResourceManager.IsKnownIgnoresCase | DGateResourceManager/Services/ResourceManager.cs:50-82 | looking up the upper-cased name succeeds exactly when some element equals the name ignoring case |
| ResourceManager.IsKnown | DGateResourceManager/Services/ResourceManager.cs:113 | `HashSet.Contains` under `OrdinalIgnoreCase` as an upper-cased lookup; `IsKnownIgnoresCase` proves it equals the case-insensitive membership |
| ResourceManager.Classify | DGateResourceManager/Services/ResourceManager.cs:113-160 | the image, video, audio, text `if` chain; `ClassifyIsKnown` and `ClassifyMeaning` prove which kind it picks |
| ResourceManager.ClassifyIsKnown | DGateResourceManager/Services/ResourceManager.cs:113-160 | the image, video, audio, text order of the tests yields kind `k` exactly when `k`'s set holds the name |
| ResourceManager.ClassifyMeaning | DGateResourceManager/Services/ResourceManager.cs:113-160 | a name gets kind `k` exactly when `k`'s set holds it ignoring case |
| ResourceManager.ClassifyUnknown | DGateResourceManager/Services/ResourceManager.cs:108-161 | a name gets no kind exactly when no set holds it ignoring case |
| ResourceManager.ClassifyIgnoresCase | DGateResourceManager/Services/ResourceManager.cs:50-82 | names equal ignoring case get the same kind |
| ResourceManager.LoadImageDetails | DGateResourceManager/Services/ResourceManager.cs:174-191 | a readable file sets 320 by 200, 8 bits, with palette; a read failure changes nothing; the common fields never change |
| ResourceManager.LoadVideoDetails | DGateResourceManager/Services/ResourceManager.cs:193-209 | a readable file sets 100 frames, 5000 ms and 20 fps; a read failure changes nothing; the common fields never change |
| ResourceManager.LoadAudioDetails | DGateResourceManager/Services/ResourceManager.cs:211-227 | a readable file sets 30000 ms, 22050 Hz and 1 channel; a read failure changes nothing; the common fields never change |
| ResourceManager.TextDetails | DGateResourceManager/Services/ResourceManager.cs:229-242 | the lines become the parser's lines of the bytes, or gain one error line with the prefix and the message; the common fields never change |
| ResourceManager.LoadTextDetails | DGateResourceManager/Services/ResourceManager.cs:229-242 | the method, which hands the bytes to `ParseTextData` as an array, produces `TextDetails` |
| ResourceManager.LoadDirectory | DGateResourceManager/Services/ResourceManager.cs:99-164 | the loop over the files returns `Scan` of the directory, and nothing for a missing directory |
| ResourceManager.LoadFile | DGateResourceManager/Services/ResourceManager.cs:110-160 | one loop iteration yields `Describe` of the file: the descriptor of the first matching set, or nothing |
| ResourceManager.Recognised | DGateResourceManager/Services/ResourceManager.cs:108-161 | the files with known names, in order, are no more than all the files |
| ResourceManager.RecognisedMembers | DGateResourceManager/Services/ResourceManager.cs:108-161 | a file is recognised exactly when it is in the list and its name has a kind |
| ResourceManager.DescribeMeaning | DGateResourceManager/Services/ResourceManager.cs:113-160 | a file gives a descriptor exactly when its name has a kind; that descriptor has the file's name, path and length, the kind's tag and the kind's details |
| ResourceManager.ScanFilesMeaning | DGateResourceManager/Services/ResourceManager.cs:108-161 | there is exactly one descriptor per recognised file, in file-list order, and descriptor `i` describes recognised file `i` |
| ResourceManager.AnyKnownMeaning | DGateResourceManager/Services/ResourceManager.cs:89-96 | `known.Any(fileNames.Contains)` holds exactly when some file name is in the set ignoring case |
| ResourceManager.IsValidResourceDirectory | DGateResourceManager/Services/ResourceManager.cs:84-97 | a missing directory is invalid, and an existing one is valid when any of the four sets matches a file name; `ValidMeaning` proves this is "some file name has a kind" |
| ResourceManager.ValidMeaning | DGateResourceManager/Services/ResourceManager.cs:84-97 | a directory is valid exactly when it exists and some file's name has a kind |
| ResourceManager.ScanFilesCount | DGateResourceManager/Services/ResourceManager.cs:108-161 | the scan yields as many descriptors as there are recognised files |
| ResourceManager.ValidIffScanFindsSomething | DGateResourceManager/Services/ResourceManager.cs:84-164 | a directory is valid exactly when its scan is non-empty, so a missing directory is invalid |
| ResourceManager.TextDescriptorLines | DGateResourceManager/Services/ResourceManager.cs:233-241 | a text descriptor holds the parser's lines, or, when reading fails, exactly one line that starts with the error prefix |
| ResourceManager.TitleScreenExample | DGateResourceManager/Services/ResourceManager.cs:108-161 | `TITLE.SCR` of 2000 bytes next to `readme.txt` makes a valid directory whose scan is one image descriptor of size 2000 |
| ResourceManager.EmptyDirectoryExample | DGateResourceManager/Services/ResourceManager.cs:84-97 | an empty directory is invalid and scans to nothing |
| ResourceModels.NewResourceModel | DGateResourceManager/Models/ResourceModels.cs:32-35 | a fresh descriptor has an empty name, tag and path and size 0 |
| ResourceModels.NewImageResource | DGateResourceManager/Models/ResourceModels.cs:56-59 | the image constructor sets the tag `Image` |
| ResourceModels.NewVideoResource | DGateResourceManager/Models/ResourceModels.cs:77-80 | the video constructor sets the tag `Video` |
| ResourceModels.NewAudioResource | DGateResourceManager/Models/ResourceModels.cs:98-101 | the audio constructor sets the tag `Audio` |
| ResourceModels.NewTextResource | DGateResourceManager/Models/ResourceModels.cs:111-116 | the text constructor sets the tag `Text` and starts with no lines |
| ResourceModels.NewPaletteResource | DGateResourceManager/Models/ResourceModels.cs:126-131 | the palette constructor sets the tag `Palette` and starts with no colours |
| ResourceModels.FreshDescriptorsAreEmpty | DGateResourceManager/Models/ResourceModels.cs:32-35 | every subclass keeps the base defaults for name, path and size |
| ResourceModels.TagDeterminesKind | DGateResourceManager/Models/ResourceModels.cs:56-131 | the five tags are distinct, so equal tags mean the same kind of descriptor |
| ResourceModels.NewColor | DGateResourceManager/Models/ResourceModels.cs:151-157 | the colour stores R, G, B and A unchanged |
| ResourceModels.ColorAlphaDefaultsOpaque | DGateResourceManager/Models/ResourceModels.cs:151 | alpha defaults to 255 |

## Left out

- `DecompressHuffman` only throws "not implemented". No decompressor exists in
  the code, so none is modelled.
- The `catch` in `ParseTextData` is not modelled. Once the length check has
  passed, nothing in the `try` block can throw: all reads stay inside the
  array.
- The image, video and audio loaders read the file and ignore its bytes.
  Their empty `catch` blocks are modelled as "a read failure leaves the
  fields as they were". The kinds of I/O error are not distinguished.
- File-system access is a parameter of the model. This covers
  `Directory.Exists`, `Directory.GetFiles`, `Path.GetFileName`,
  `FileInfo.Length` and `File.ReadAllBytesAsync`. The order
  `Directory.GetFiles` returns is taken as given. The exceptions of
  `Directory.GetFiles` and `FileInfo.Length` are not modelled: in the source
  they are not caught, so an unreadable directory or a file that vanishes
  before its length is read aborts the whole scan, while in the model every
  entry has a length.
- `LoadResourceDataAsync` is not modelled. It only returns a file's bytes,
  or an empty array for a missing file, and nothing in the core calls it.
- `async`/`await` is not modelled. The loop awaits each loader before the
  next file, so the model treats it as sequential.
- `ResourceManager.IsKnownIgnoresCase`: `OrdinalIgnoreCase` is modelled as
  ASCII case folding. Non-ASCII case pairs are out of scope, which is exact
  for the all-ASCII catalogue names.
- `Ascii.Trim`: white space is `char.IsWhiteSpace` restricted to tab through
  carriage return, space, U+0085 and U+00A0. Other Unicode white space
  cannot occur in ASCII-decoded text.
- Descriptors are values. The source's in-place updates of a descriptor's
  properties are written as record updates. The two are equivalent because
  each descriptor is created, filled in and added to the list in one
  iteration of the scan, with no other alias.
- The user interface, the view models and the application shell hold no
  core logic and are not modelled.
