/** Discovery of resources in a game directory. A closed catalogue of file
    names, four case-insensitive sets, decides the kind of each file; files
    outside it are skipped. Each recognised file becomes one descriptor
    whose kind-specific fields are then filled in: fixed placeholder values
    for images, videos and audio, the text parser's lines for text.

    The file system is abstracted: a directory is the sequence of its files
    (or `None` when it does not exist), and each file carries its full path,
    its name, its length and the outcome of reading its bytes. */
module ResourceManager {

  import opened Ascii
  import opened ResourceModels
  import TextParser

  datatype Option<T> = None | Some(value: T)

  /** What `File.ReadAllBytesAsync` produced: the bytes, or the message of
      the exception it threw. */
  datatype ReadOutcome = Bytes(data: seq<Byte>) | ReadFailure(message: string)

  /** One entry of `Directory.GetFiles`: the full path, the name
      `Path.GetFileName` gives, the length `FileInfo.Length` gives, and
      what reading the file yields. */
  datatype FileEntry = FileEntry(path: string, name: string, length: FileLength, contents: ReadOutcome)

  /** `FileInfo.Length`: a non-negative `long`. */
  type FileLength = x: int | 0 <= x < 0x8000_0000_0000_0000

  datatype Kind = ImageKind | VideoKind | AudioKind | TextKind

  const KnownImageFiles: set<string> := {
    "DGLOGO.SCR", "EAPMLOGO.SCR", "LSLOGO.SCR", "TITLE.SCR",
    "WNDWS.SCR", "ITEMS.SCR", "SPELLS.SCR", "MOUSE.SCR",
    "CHARGEN.SCR", "ENDGAME.SCR", "DEATH.SCR", "PAPER.SCR"
  }

  const KnownVideoFiles: set<string> := {"INTRO.FLC", "ENDING.FLC", "DEATH.FLC"}

  const KnownAudioFiles: set<string> := {"MUSIC.XMI", "SOUND.XMI", "VOICE.WAV"}

  const KnownTextFiles: set<string> := {"STRINGS.TXT", "DIALOG.TXT", "ITEMS.TXT"}

  function KnownFiles(k: Kind): set<string> {
    match k
    case ImageKind => KnownImageFiles
    case VideoKind => KnownVideoFiles
    case AudioKind => KnownAudioFiles
    case TextKind => KnownTextFiles
  }

  /** The meaning of `HashSet<string>.Contains` on a set built with
      `StringComparer.OrdinalIgnoreCase`: some element equals the name
      ignoring case. */
  ghost predicate ContainsIgnoreCase(names: set<string>, name: string) {
    exists n :: n in names && EqualsIgnoreCase(n, name)
  }

  /** The lookup itself: the catalogue holds upper-case names, so the
      upper-cased name is looked up. */
  predicate IsKnown(names: set<string>, name: string) {
    UpperString(name) in names
  }

  /** Which set a file name is in, trying image, video, audio and text in
      that order, as the scan does. */
  function Classify(fileName: string): Option<Kind> {
    if IsKnown(KnownImageFiles, fileName) then Some(ImageKind)
    else if IsKnown(KnownVideoFiles, fileName) then Some(VideoKind)
    else if IsKnown(KnownAudioFiles, fileName) then Some(AudioKind)
    else if IsKnown(KnownTextFiles, fileName) then Some(TextKind)
    else None
  }

  /** `IsValidResourceDirectory`: the directory exists and some known name is
      among its file names, compared ignoring case. */
  predicate IsValidResourceDirectory(dir: Option<seq<FileEntry>>) {
    match dir
    case None => false
    case Some(files) =>
      var fileNames := FileNames(files);
      || AnyKnown(KnownImageFiles, fileNames)
      || AnyKnown(KnownVideoFiles, fileNames)
      || AnyKnown(KnownAudioFiles, fileNames)
      || AnyKnown(KnownTextFiles, fileNames)
  }

  /** `known.Any(fileNames.Contains)`, where `fileNames` is a set under the
      same comparer. */
  predicate AnyKnown(known: set<string>, fileNames: set<string>) {
    exists n :: n in known && IsKnown(UpperSet(fileNames), n)
  }

  /** `files.Select(Path.GetFileName)` as a set. */
  function FileNames(files: seq<FileEntry>): set<string> {
    set i | 0 <= i < |files| :: files[i].name
  }

  function UpperSet(names: set<string>): set<string> {
    set n | n in names :: UpperString(n)
  }

  // ---------------------------------------------------------------------
  // The per-kind detail loaders. Each reads the file first; a read that
  // fails leaves the fields as they were (the image, video and audio
  // loaders swallow the exception) or appends one diagnostic line (the
  // text loader).

  function LoadImageDetails(r: ResourceModel, contents: ReadOutcome): (r': ResourceModel)
    requires r.payload.Image?
    ensures r'.name == r.name && r'.typeName == r.typeName && r'.size == r.size && r'.filePath == r.filePath
    ensures contents.Bytes? ==> r'.payload == Image(320, 200, 8, true)
    ensures contents.ReadFailure? ==> r' == r
  {
    if contents.Bytes? then r.(payload := r.payload.(width := 320, height := 200, colorDepth := 8, hasPalette := true))
    else r
  }

  function LoadVideoDetails(r: ResourceModel, contents: ReadOutcome): (r': ResourceModel)
    requires r.payload.Video?
    ensures r'.name == r.name && r'.typeName == r.typeName && r'.size == r.size && r'.filePath == r.filePath
    ensures contents.Bytes? ==> r'.payload == Video(100, 5000, 20)
    ensures contents.ReadFailure? ==> r' == r
  {
    if contents.Bytes? then r.(payload := r.payload.(frameCount := 100, duration := 5000, frameRate := 20))
    else r
  }

  function LoadAudioDetails(r: ResourceModel, contents: ReadOutcome): (r': ResourceModel)
    requires r.payload.Audio?
    ensures r'.name == r.name && r'.typeName == r.typeName && r'.size == r.size && r'.filePath == r.filePath
    ensures contents.Bytes? ==> r'.payload == Audio(30000, 22050, 1)
    ensures contents.ReadFailure? ==> r' == r
  {
    if contents.Bytes? then r.(payload := r.payload.(duration := 30000, sampleRate := 22050, channels := 1))
    else r
  }

  const TextLoadErrorPrefix := "Error loading text resource: "

  /** The specification of `LoadTextDetails`. */
  function TextDetails(r: ResourceModel, contents: ReadOutcome): (r': ResourceModel)
    requires r.payload.Text?
    ensures r'.name == r.name && r'.typeName == r.typeName && r'.size == r.size && r'.filePath == r.filePath
    ensures r'.payload.Text?
    ensures contents.Bytes? ==> r'.payload.textLines == TextParser.ParseText(contents.data)
    ensures contents.ReadFailure? ==>
      r'.payload.textLines == r.payload.textLines + [TextLoadErrorPrefix + contents.message]
  {
    match contents
    case Bytes(data) => r.(payload := r.payload.(textLines := TextParser.ParseText(data)))
    case ReadFailure(message) => r.(payload := r.payload.(textLines := r.payload.textLines + [TextLoadErrorPrefix + message]))
  }

  method LoadTextDetails(r: ResourceModel, contents: ReadOutcome) returns (r': ResourceModel)
    requires r.payload.Text?
    ensures r' == TextDetails(r, contents)
  {
    r' := r;
    match contents
    case Bytes(bytes) =>
      var data := new Byte[|bytes|](i requires 0 <= i < |bytes| => bytes[i]);
      assert data[..] == bytes;
      var lines := TextParser.ParseTextData(data);
      r' := r'.(payload := r'.payload.(textLines := lines));
    case ReadFailure(message) =>
      r' := r'.(payload := r'.payload.(textLines := r'.payload.textLines + [TextLoadErrorPrefix + message]));
  }

  // ---------------------------------------------------------------------
  // The scan

  /** The descriptor the scan builds for one file, if its name is known. */
  function Describe(file: FileEntry): Option<ResourceModel> {
    match Classify(file.name)
    case None => None
    case Some(kind) =>
      var size := file.length;
      Some(match kind
          case ImageKind => LoadImageDetails(NewImageResource().(name := file.name, filePath := file.path, size := size), file.contents)
          case VideoKind => LoadVideoDetails(NewVideoResource().(name := file.name, filePath := file.path, size := size), file.contents)
          case AudioKind => LoadAudioDetails(NewAudioResource().(name := file.name, filePath := file.path, size := size), file.contents)
          case TextKind => TextDetails(NewTextResource().(name := file.name, filePath := file.path, size := size), file.contents))
  }

  function ScanFiles(files: seq<FileEntry>): seq<ResourceModel> {
    if |files| == 0 then []
    else
      var last := files[|files| - 1];
      ScanFiles(files[..|files| - 1]) + Described(last)
  }

  function Described(file: FileEntry): seq<ResourceModel> {
    match Describe(file)
    case None => []
    case Some(r) => [r]
  }

  lemma ScanFilesPrefix(files: seq<FileEntry>, i: nat)
    requires i < |files|
    ensures ScanFiles(files[..i + 1]) == ScanFiles(files[..i]) + Described(files[i])
  {
    assert files[..i + 1][..i] == files[..i];
  }

  /** The specification of `LoadDirectory`. */
  function Scan(dir: Option<seq<FileEntry>>): seq<ResourceModel> {
    match dir
    case None => []
    case Some(files) => ScanFiles(files)
  }

  /** `LoadDirectoryAsync`: one descriptor per recognised file, in the order
      of the file list. */
  method LoadDirectory(dir: Option<seq<FileEntry>>) returns (resources: seq<ResourceModel>)
    ensures resources == Scan(dir)
    ensures dir.None? ==> resources == []
  {
    resources := [];
    if dir.None? {
      return;
    }
    var files := dir.value;
    for i := 0 to |files|
      invariant resources == ScanFiles(files[..i])
    {
      ScanFilesPrefix(files, i);
      var resource := LoadFile(files[i]);
      if resource.Some? {
        resources := resources + [resource.value];
      }
    }
    assert files[..|files|] == files;
  }

  /** The body of the scan loop for one file: classify it, build the
      descriptor of its kind and load the kind's details. */
  method LoadFile(file: FileEntry) returns (resource: Option<ResourceModel>)
    ensures resource == Describe(file)
  {
    var fileName := file.name;
    var length := file.length;
    if IsKnown(KnownImageFiles, fileName) {
      var imageResource := NewImageResource().(name := fileName, filePath := file.path, size := length);
      imageResource := LoadImageDetails(imageResource, file.contents);
      resource := Some(imageResource);
    } else if IsKnown(KnownVideoFiles, fileName) {
      var videoResource := NewVideoResource().(name := fileName, filePath := file.path, size := length);
      videoResource := LoadVideoDetails(videoResource, file.contents);
      resource := Some(videoResource);
    } else if IsKnown(KnownAudioFiles, fileName) {
      var audioResource := NewAudioResource().(name := fileName, filePath := file.path, size := length);
      audioResource := LoadAudioDetails(audioResource, file.contents);
      resource := Some(audioResource);
    } else if IsKnown(KnownTextFiles, fileName) {
      var textResource := NewTextResource().(name := fileName, filePath := file.path, size := length);
      textResource := LoadTextDetails(textResource, file.contents);
      resource := Some(textResource);
    } else {
      resource := None;
    }
  }

  // ---------------------------------------------------------------------
  // The catalogue

  /** The image set holds twelve distinct names, the others three each. */
  lemma KnownSetSizes()
    ensures |KnownImageFiles| == 12
    ensures |KnownVideoFiles| == 3 && |KnownAudioFiles| == 3 && |KnownTextFiles| == 3
  {
    ImageSetSize();
  }

  lemma ImageSetSize()
    ensures |KnownImageFiles| == 12
  {
  }

  /** The last character of a name tells its set: `R` for images, `C` for
      videos, `I` or `V` for audio and `T` for text. */
  function LastChar(n: string): char {
    if |n| == 0 then ' ' else n[|n| - 1]
  }

  lemma KnownLastChars()
    ensures forall n :: n in KnownImageFiles ==> LastChar(n) == 'R'
    ensures forall n :: n in KnownVideoFiles ==> LastChar(n) == 'C'
    ensures forall n :: n in KnownAudioFiles ==> LastChar(n) in {'I', 'V'}
    ensures forall n :: n in KnownTextFiles ==> LastChar(n) == 'T'
  {
  }

  /** No name is in two sets. */
  lemma KnownSetsDisjoint(k: Kind, k': Kind)
    requires k != k'
    ensures KnownFiles(k) * KnownFiles(k') == {}
  {
    KnownLastChars();
    forall n | n in KnownFiles(k) * KnownFiles(k') ensures false {
    }
  }

  /** The catalogue holds upper-case names only. */
  lemma KnownSetsUpperCase(k: Kind)
    ensures forall n :: n in KnownFiles(k) ==> IsUpperCase(n)
  {
    match k {
      case ImageKind => ImageNamesUpperCase();
      case VideoKind =>
      case AudioKind =>
      case TextKind =>
    }
  }

  lemma ImageNamesUpperCase()
    ensures forall n :: n in KnownImageFiles ==> IsUpperCase(n)
  {
    forall n | n in KnownImageFiles ensures IsUpperCase(n) {
      if n in {"DGLOGO.SCR", "EAPMLOGO.SCR", "LSLOGO.SCR", "TITLE.SCR"} {
      } else if n in {"WNDWS.SCR", "ITEMS.SCR", "SPELLS.SCR", "MOUSE.SCR"} {
      } else {
        assert n in {"CHARGEN.SCR", "ENDGAME.SCR", "DEATH.SCR", "PAPER.SCR"};
      }
    }
  }

  /** The upper-cased lookup is the `OrdinalIgnoreCase` membership test:
      some name of the set equals the file name ignoring case. */
  lemma IsKnownIgnoresCase(names: set<string>, name: string)
    requires forall n :: n in names ==> IsUpperCase(n)
    ensures IsKnown(names, name) <==> ContainsIgnoreCase(names, name)
  {
    UpperStringIsUpperCase(name);
    var u := UpperString(name);
    UpperStringIsUpperCase(u);
    if ContainsIgnoreCase(names, name) {
      var n :| n in names && EqualsIgnoreCase(n, name);
      UpperStringIsUpperCase(n);
    }
    if IsKnown(names, name) {
      assert u in names && EqualsIgnoreCase(u, name);
    }
  }

  /** Since the sets are disjoint, the order in which the scan tries them
      does not matter: a name has kind `k` exactly when `k`'s set holds it. */
  lemma ClassifyIsKnown(name: string, k: Kind)
    ensures Classify(name) == Some(k) <==> IsKnown(KnownFiles(k), name)
  {
    var u := UpperString(name);
    KnownSetsDisjoint(ImageKind, VideoKind);
    KnownSetsDisjoint(ImageKind, AudioKind);
    KnownSetsDisjoint(ImageKind, TextKind);
    KnownSetsDisjoint(VideoKind, AudioKind);
    KnownSetsDisjoint(VideoKind, TextKind);
    KnownSetsDisjoint(AudioKind, TextKind);
    match k {
      case ImageKind =>
      case VideoKind =>
        assert u in KnownVideoFiles ==> u !in KnownImageFiles;
      case AudioKind =>
        assert u in KnownAudioFiles ==> u !in KnownImageFiles && u !in KnownVideoFiles;
      case TextKind =>
        assert u in KnownTextFiles ==> u !in KnownImageFiles && u !in KnownVideoFiles && u !in KnownAudioFiles;
    }
  }

  /** A name has kind `k` exactly when it is in `k`'s set ignoring case. */
  lemma ClassifyMeaning(name: string, k: Kind)
    ensures Classify(name) == Some(k) <==> ContainsIgnoreCase(KnownFiles(k), name)
  {
    ClassifyIsKnown(name, k);
    KnownSetsUpperCase(k);
    IsKnownIgnoresCase(KnownFiles(k), name);
  }

  /** A name has no kind exactly when no set holds it ignoring case. */
  lemma ClassifyUnknown(name: string)
    ensures Classify(name).None? <==> forall k :: !ContainsIgnoreCase(KnownFiles(k), name)
  {
    forall k ensures Classify(name) == Some(k) <==> ContainsIgnoreCase(KnownFiles(k), name) {
      ClassifyMeaning(name, k);
    }
    if Classify(name).Some? {
      ClassifyMeaning(name, Classify(name).value);
    }
  }

  lemma ClassifyIgnoresCase(a: string, b: string)
    requires EqualsIgnoreCase(a, b)
    ensures Classify(a) == Classify(b)
  {
  }

  // ---------------------------------------------------------------------
  // The scan

  /** The files whose names the catalogue knows, in file-list order. */
  function Recognised(files: seq<FileEntry>): (r: seq<FileEntry>)
    ensures |r| <= |files|
  {
    if |files| == 0 then []
    else
      var last := files[|files| - 1];
      Recognised(files[..|files| - 1]) + if Classify(last.name).Some? then [last] else []
  }

  lemma {:induction false} RecognisedMembers(files: seq<FileEntry>)
    ensures forall f :: f in Recognised(files) <==> f in files && Classify(f.name).Some?
  {
    if |files| > 0 {
      var init := files[..|files| - 1];
      RecognisedMembers(init);
      assert files == init + [files[|files| - 1]];
    }
  }

  /** The `Type` string of each kind's descriptor. */
  function KindTypeName(k: Kind): string {
    match k
    case ImageKind => "Image"
    case VideoKind => "Video"
    case AudioKind => "Audio"
    case TextKind => "Text"
  }

  /** The descriptor of a recognised file: its name, full path and length,
      the tag of the set that matched, and the kind's details. */
  predicate DescribesFile(d: ResourceModel, file: FileEntry, k: Kind) {
    && d.name == file.name && d.filePath == file.path && d.size == file.length
    && d.typeName == KindTypeName(k) && WellTagged(d)
    && match k
       case ImageKind =>
         d.payload == if file.contents.Bytes? then Image(320, 200, 8, true) else Image(0, 0, 0, false)
       case VideoKind =>
         d.payload == if file.contents.Bytes? then Video(100, 5000, 20) else Video(0, 0, 0)
       case AudioKind =>
         d.payload == if file.contents.Bytes? then Audio(30000, 22050, 1) else Audio(0, 0, 0)
       case TextKind =>
         d.payload == match file.contents
           case Bytes(data) => Text(TextParser.ParseText(data))
           case ReadFailure(message) => Text([TextLoadErrorPrefix + message])
  }

  lemma DescribeMeaning(file: FileEntry)
    ensures Describe(file).None? <==> Classify(file.name).None?
    ensures Classify(file.name).Some? ==> DescribesFile(Describe(file).value, file, Classify(file.name).value)
  {
  }

  /** The scan emits exactly one descriptor per recognised file, in the
      order of the file list, and nothing for any other file. */
  lemma {:induction false} ScanFilesMeaning(files: seq<FileEntry>)
    ensures |ScanFiles(files)| == |Recognised(files)|
    ensures forall i :: 0 <= i < |ScanFiles(files)| ==>
              Classify(Recognised(files)[i].name).Some? &&
              DescribesFile(ScanFiles(files)[i], Recognised(files)[i], Classify(Recognised(files)[i].name).value)
  {
    ScanFilesCount(files);
    if |files| > 0 {
      var init, last := files[..|files| - 1], files[|files| - 1];
      ScanFilesMeaning(init);
      DescribeMeaning(last);
    }
  }

  lemma {:induction false} ScanFilesCount(files: seq<FileEntry>)
    ensures |ScanFiles(files)| == |Recognised(files)|
  {
    if |files| > 0 {
      var init, last := files[..|files| - 1], files[|files| - 1];
      ScanFilesCount(init);
      assert |Described(last)| == if Classify(last.name).Some? then 1 else 0;
    }
  }

  /** `known.Any(fileNames.Contains)` holds exactly when some file's name is
      in `known` ignoring case. */
  lemma AnyKnownMeaning(known: set<string>, files: seq<FileEntry>)
    requires forall n :: n in known ==> IsUpperCase(n)
    ensures AnyKnown(known, FileNames(files))
        <==> exists i :: 0 <= i < |files| && IsKnown(known, files[i].name)
  {
    var fileNames := FileNames(files);
    if AnyKnown(known, fileNames) {
      var n :| n in known && IsKnown(UpperSet(fileNames), n);
      UpperStringIsUpperCase(n);
      var m :| m in fileNames && UpperString(m) == n;
      var i :| 0 <= i < |files| && files[i].name == m;
      assert IsKnown(known, files[i].name);
    }
    if exists i :: 0 <= i < |files| && IsKnown(known, files[i].name) {
      var i :| 0 <= i < |files| && IsKnown(known, files[i].name);
      assert files[i].name in fileNames;
      var n := UpperString(files[i].name);
      UpperStringIsUpperCase(files[i].name);
      UpperStringIsUpperCase(n);
      assert n in UpperSet(fileNames);
      assert n in known && IsKnown(UpperSet(fileNames), n);
    }
  }

  /** A directory is valid exactly when it exists and the catalogue knows
      the name of one of its files. */
  lemma ValidMeaning(dir: Option<seq<FileEntry>>)
    ensures IsValidResourceDirectory(dir) <==> dir.Some? && exists i :: 0 <= i < |dir.value| && Classify(dir.value[i].name).Some?
  {
    if dir.Some? {
      var files := dir.value;
      assert dir == Some(files);
      if IsValidResourceDirectory(Some(files)) {
        ValidHasKnownFile(files);
      }
      if exists i :: 0 <= i < |files| && Classify(files[i].name).Some? {
        var i :| 0 <= i < |files| && Classify(files[i].name).Some?;
        KnownNameMakesValid(files, i);
      }
    }
  }

  lemma ValidHasKnownFile(files: seq<FileEntry>)
    requires IsValidResourceDirectory(Some(files))
    ensures exists i :: 0 <= i < |files| && Classify(files[i].name).Some?
  {
    var k := ValidPicksKind(files);
    ValidHasKnownName(files, k);
  }

  /** The set a valid directory's known name was found in. */
  lemma ValidPicksKind(files: seq<FileEntry>) returns (k: Kind)
    requires IsValidResourceDirectory(Some(files))
    ensures AnyKnown(KnownFiles(k), FileNames(files))
  {
    var names := FileNames(files);
    k := if AnyKnown(KnownImageFiles, names) then ImageKind
      else if AnyKnown(KnownVideoFiles, names) then VideoKind
      else if AnyKnown(KnownAudioFiles, names) then AudioKind
      else TextKind;
  }

  lemma ValidHasKnownName(files: seq<FileEntry>, k: Kind)
    requires AnyKnown(KnownFiles(k), FileNames(files))
    ensures exists i :: 0 <= i < |files| && Classify(files[i].name).Some?
  {
    CatalogueAnyKnown(k, files);
    var i :| 0 <= i < |files| && IsKnown(KnownFiles(k), files[i].name);
    ClassifyIsKnown(files[i].name, k);
  }

  lemma KnownNameMakesValid(files: seq<FileEntry>, i: nat)
    requires i < |files| && Classify(files[i].name).Some?
    ensures IsValidResourceDirectory(Some(files))
  {
    var k := Classify(files[i].name).value;
    ClassifyIsKnown(files[i].name, k);
    CatalogueAnyKnown(k, files);
    var names := FileNames(files);
    assert AnyKnown(KnownFiles(k), names);
    match k {
      case ImageKind => assert AnyKnown(KnownImageFiles, names);
      case VideoKind => assert AnyKnown(KnownVideoFiles, names);
      case AudioKind => assert AnyKnown(KnownAudioFiles, names);
      case TextKind => assert AnyKnown(KnownTextFiles, names);
    }
  }

  lemma CatalogueAnyKnown(k: Kind, files: seq<FileEntry>)
    ensures AnyKnown(KnownFiles(k), FileNames(files))
        <==> exists i :: 0 <= i < |files| && IsKnown(KnownFiles(k), files[i].name)
  {
    KnownSetsUpperCase(k);
    AnyKnownMeaning(KnownFiles(k), files);
  }

  /** A name has a kind exactly when some set holds it. */
  lemma ClassifySome(name: string)
    ensures Classify(name).Some? <==> exists k :: IsKnown(KnownFiles(k), name)
  {
    if Classify(name).Some? {
      ClassifyIsKnown(name, Classify(name).value);
    }
    if exists k :: IsKnown(KnownFiles(k), name) {
      var k :| IsKnown(KnownFiles(k), name);
      ClassifyIsKnown(name, k);
    }
  }

  /** A directory is valid exactly when the scan finds something in it. */
  lemma ValidIffScanFindsSomething(dir: Option<seq<FileEntry>>)
    ensures IsValidResourceDirectory(dir) <==> Scan(dir) != []
  {
    ValidMeaning(dir);
    if dir.Some? {
      var files := dir.value;
      ScanFilesCount(files);
      if exists i :: 0 <= i < |files| && Classify(files[i].name).Some? {
        var i :| 0 <= i < |files| && Classify(files[i].name).Some?;
        RecognisedMembers(files);
        assert files[i] in Recognised(files);
      }
      if Recognised(files) != [] {
        var f := Recognised(files)[0];
        RecognisedMembers(files);
        assert f in files && Classify(f.name).Some?;
        var i :| 0 <= i < |files| && files[i] == f;
      }
    }
  }

  /** A text descriptor holds the parser's lines, or - when the file could not
      be read - exactly one line, the load error. */
  lemma TextDescriptorLines(file: FileEntry)
    requires Classify(file.name) == Some(TextKind)
    ensures var lines := Describe(file).value.payload.textLines;
      match file.contents
      case Bytes(data) => lines == TextParser.ParseText(data)
      case ReadFailure(message) =>
        |lines| == 1 && lines[0][..|TextLoadErrorPrefix|] == TextLoadErrorPrefix
  {
    DescribeMeaning(file);
  }

  // ---------------------------------------------------------------------
  // Worked examples

  /** `TITLE.SCR` of 2000 bytes next to `readme.txt`: the directory is valid
      and the scan yields one image descriptor of size 2000; the other name
      is skipped. */
  lemma TitleScreenExample(files: seq<FileEntry>)
    requires |files| == 2
    requires files[0].name == "TITLE.SCR" && files[0].length == 2000
    requires files[1].name == "readme.txt"
    ensures IsValidResourceDirectory(Some(files))
    ensures |Scan(Some(files))| == 1
    ensures Scan(Some(files))[0].typeName == "Image" && Scan(Some(files))[0].size == 2000
  {
    TitleIsImage(files[0].name);
    ReadmeIsUnknown(files[1].name);
    ScanKnownThenUnknown(files);
    DescribeMeaning(files[0]);
    ValidIffScanFindsSomething(Some(files));
  }

  lemma ScanKnownThenUnknown(files: seq<FileEntry>)
    requires |files| == 2 && Classify(files[0].name).Some? && Classify(files[1].name).None?
    ensures Scan(Some(files)) == [Describe(files[0]).value]
  {
    assert Described(files[0]) == [Describe(files[0]).value];
    assert Described(files[1]) == [];
    ScanFilesPrefix(files, 0);
    ScanFilesPrefix(files, 1);
    assert files[..0] == [] && files[..2] == files;
  }

  lemma TitleIsImage(name: string)
    requires name == "TITLE.SCR"
    ensures Classify(name) == Some(ImageKind)
  {
    assert IsUpperCase(name);
    UpperStringIsUpperCase(name);
    assert UpperString(name) == name;
    assert name in KnownImageFiles;
  }

  lemma ReadmeIsUnknown(name: string)
    requires name == "readme.txt"
    ensures Classify(name) == None
  {
    var u := UpperString(name);
    assert u[0] == 'R' && u[|u| - 1] == 'T';
    KnownLastChars();
    assert LastChar(u) == 'T';
    assert u !in KnownTextFiles;
  }

  /** An empty directory is not valid and yields no descriptors. */
  lemma EmptyDirectoryExample()
    ensures !IsValidResourceDirectory(Some([]))
    ensures Scan(Some([])) == []
  {
    ValidIffScanFindsSomething(Some([]));
  }
}
