/** Loading the voice guide and the example emails, with a cache that is
    reused for one minute (`loadSources`, api/generate.js:182-220). The file
    system is a value handed in by the caller: the state of the guide file
    and of the emails directory at the moment of the call. */
module SourceCache {
  import opened Wrappers
  import opened Text
  import opened Corpus

  const CacheTtlMs: int := 60000
  const MaxFiles: nat := 200

  /** The voice guide file: absent, present but failing to read, or read. */
  datatype GuideFile = GuideMissing | GuideUnreadable | GuideText(text: string)

  /** One directory entry: its name, whether it is a regular file, and its
      contents (`None` when reading it fails). */
  datatype DirEntry = DirEntry(name: string, isFile: bool, content: Option<string>)

  /** The emails directory: absent, present but failing to list, or listed. */
  datatype EmailsDir = DirMissing | DirUnreadable | Listing(entries: seq<DirEntry>)

  /** Which read made the whole load fail. */
  datatype LoadError = GuideReadFailed | DirReadFailed | FileReadFailed(name: string)

  function ToLowerString(s: string): (r: string)
    ensures |r| == |s|
    ensures forall k :: 0 <= k < |s| ==> r[k] == ToLowerAscii(s[k])
  {
    seq(|s|, k requires 0 <= k < |s| => ToLowerAscii(s[k]))
  }

  /** `s` ends with `suffix`, ignoring the case of ASCII letters (the `i`
      flag of a regular expression on these letters). */
  predicate EndsWithIgnoringCase(s: string, suffix: string) {
    |suffix| <= |s| && ToLowerString(s[|s| - |suffix|..]) == suffix
  }

  /** The test `/\.(txt|md)$/i`. */
  predicate HasTextExtension(name: string) {
    EndsWithIgnoringCase(name, ".txt") || EndsWithIgnoringCase(name, ".md")
  }

  /** `name.replace(/\.(txt|md)$/i, "")`: the name without its extension. */
  function Title(name: string): (r: string)
    ensures |r| <= |name| && r == name[..|r|]
    ensures HasTextExtension(name) ==> |name| - |r| == 4 || |name| - |r| == 3
    ensures !HasTextExtension(name) ==> r == name
    ensures EndsWithIgnoringCase(name, ".txt") ==> r == name[..|name| - 4]
    ensures EndsWithIgnoringCase(name, ".md") ==> r == name[..|name| - 3]
  {
    ExtensionsExclusive(name);
    if EndsWithIgnoringCase(name, ".txt") then name[..|name| - 4]
    else if EndsWithIgnoringCase(name, ".md") then name[..|name| - 3]
    else name
  }

  /** No name ends with both extensions: they end with different letters. */
  lemma ExtensionsExclusive(name: string)
    ensures !(EndsWithIgnoringCase(name, ".txt") && EndsWithIgnoringCase(name, ".md"))
  {
    if EndsWithIgnoringCase(name, ".txt") {
      assert ToLowerAscii(name[|name| - 1]) == ToLowerString(name[|name| - 4..])[3] == 't';
      assert ToLowerString(name[|name| - 3..])[2] == 't';
    }
  }

  predicate IsTextFile(e: DirEntry) {
    e.isFile && HasTextExtension(e.name)
  }

  /** The entries kept by `filter(isFile)` and the extension filter, in
      listing order. */
  function TextEntries(entries: seq<DirEntry>): seq<DirEntry>
    decreases |entries|
  {
    if entries == [] then []
    else (if IsTextFile(entries[0]) then [entries[0]] else []) + TextEntries(entries[1..])
  }

  /** The filter keeps the text files in listing order: it works piece by
      piece. */
  lemma {:induction false} TextEntriesConcat(a: seq<DirEntry>, b: seq<DirEntry>)
    ensures TextEntries(a + b) == TextEntries(a) + TextEntries(b)
    decreases |a|
  {
    if a == [] {
      assert a + b == b;
    } else {
      var head := if IsTextFile(a[0]) then [a[0]] else [];
      assert (a + b)[0] == a[0];
      assert (a + b)[1..] == a[1..] + b;
      assert TextEntries(a + b) == head + TextEntries(a[1..] + b);
      TextEntriesConcat(a[1..], b);
      assert TextEntries(a) == head + TextEntries(a[1..]);
      assert head + (TextEntries(a[1..]) + TextEntries(b)) == (head + TextEntries(a[1..])) + TextEntries(b);
    }
  }

  /** The first 200 of them (`slice(0, 200)`). */
  function TextFiles(entries: seq<DirEntry>): seq<DirEntry> {
    var all := TextEntries(entries);
    if |all| <= MaxFiles then all else all[..MaxFiles]
  }

  function ToDocument(name: string, content: string): Document {
    Document(name, Title(name), NormalizeText(content))
  }

  /** The document read from a directory entry: a readable file, named by
      the file name, titled by the name without its extension,
      holding the normalised text. */
  predicate DocFromEntry(d: Document, e: DirEntry) {
    e.content.Some? && d == ToDocument(e.name, e.content.value)
  }

  /** Reading every file (`Promise.all`): each file name with its text, in
      order, or the first file that could not be read. */
  function ReadAll(files: seq<DirEntry>): Result<seq<(string, string)>, LoadError>
    decreases |files|
  {
    if files == [] then Success([])
    else if files[0].content.None? then Failure(FileReadFailed(files[0].name))
    else
      match ReadAll(files[1..])
      case Failure(err) => Failure(err)
      case Success(rest) => Success([(files[0].name, files[0].content.value)] + rest)
  }

  /** The documents made from the files read. */
  function Documents(read: seq<(string, string)>): (docs: seq<Document>)
    ensures |docs| == |read|
  {
    seq(|read|, i requires 0 <= i < |read| => ToDocument(read[i].0, read[i].1))
  }

  /** `filter((d) => d.content.length > 0)`. */
  function NonEmptyDocs(docs: seq<Document>): seq<Document>
    decreases |docs|
  {
    if docs == [] then []
    else (if docs[0].content != "" then [docs[0]] else []) + NonEmptyDocs(docs[1..])
  }

  /** The filter keeps the non-empty documents in order: it works piece by
      piece. */
  lemma {:induction false} NonEmptyDocsConcat(a: seq<Document>, b: seq<Document>)
    ensures NonEmptyDocs(a + b) == NonEmptyDocs(a) + NonEmptyDocs(b)
    decreases |a|
  {
    if a == [] {
      assert a + b == b;
    } else {
      var head := if a[0].content != "" then [a[0]] else [];
      assert (a + b)[0] == a[0];
      assert (a + b)[1..] == a[1..] + b;
      assert NonEmptyDocs(a + b) == head + NonEmptyDocs(a[1..] + b);
      NonEmptyDocsConcat(a[1..], b);
      assert NonEmptyDocs(a) == head + NonEmptyDocs(a[1..]);
      assert head + (NonEmptyDocs(a[1..]) + NonEmptyDocs(b)) == (head + NonEmptyDocs(a[1..])) + NonEmptyDocs(b);
    }
  }

  function ReadDocs(dir: EmailsDir): Result<seq<Document>, LoadError> {
    match dir
    case DirMissing => Success([])
    case DirUnreadable => Failure(DirReadFailed)
    case Listing(entries) =>
      match ReadAll(TextFiles(entries))
      case Failure(err) => Failure(err)
      case Success(read) => Success(NonEmptyDocs(Documents(read)))
  }

  /** What a load that misses the cache reads: the normalised guide (""
      when the file is absent) and the non-empty example documents. */
  function ReadSources(guide: GuideFile, dir: EmailsDir): Result<Sources, LoadError> {
    match guide
    case GuideUnreadable => Failure(GuideReadFailed)
    case _ =>
      var text := if guide.GuideText? then guide.text else "";
      match ReadDocs(dir)
      case Failure(err) => Failure(err)
      case Success(docs) => Success(Sources(NormalizeText(text), docs))
  }

  /** The module-level cache of `loadSources`. */
  class SourceCache {
    var cachedSources: Option<Sources>
    var cachedAtMs: int

    constructor()
      ensures cachedSources == None && cachedAtMs == 0
    {
      cachedSources := None;
      cachedAtMs := 0;
    }

    /** A cached value younger than the time to live. */
    predicate Fresh(now: int)
      reads this
    {
      cachedSources.Some? && now - cachedAtMs < CacheTtlMs
    }

    /** `loadSources` with the clock reading `now`: a fresh cache is
        returned as is; otherwise the files are read, and a successful read
        replaces the cache and restarts its time to live, while a failed
        read leaves the cache as it was. */
    method LoadSources(now: int, guide: GuideFile, dir: EmailsDir) returns (r: Result<Sources, LoadError>)
      modifies this
      ensures old(Fresh(now)) ==> r == Success(old(cachedSources).value) && unchanged(this)
      ensures !old(Fresh(now)) ==> r == ReadSources(guide, dir)
      ensures !old(Fresh(now)) && r.Success? ==> cachedSources == Some(r.value) && cachedAtMs == now
      ensures !old(Fresh(now)) && r.Failure? ==> unchanged(this)
    {
      if Fresh(now) {
        return Success(cachedSources.value);
      }
      r := ReadSources(guide, dir);
      if r.Success? {
        cachedSources := Some(r.value);
        cachedAtMs := now;
      }
    }
  }

  // ---------------------------------------------------------------------
  // Properties

  /** The title of a base name followed by a text extension is that base
      name. */
  lemma TitleRoundTrip(base: string, ext: string)
    requires ToLowerString(ext) == ".txt" || ToLowerString(ext) == ".md"
    ensures HasTextExtension(base + ext)
    ensures Title(base + ext) == base
  {
    var name := base + ext;
    assert name[|name| - |ext|..] == ext;
    assert name[..|name| - |ext|] == base;
  }

  /** The text entries are exactly the regular files with a text extension,
      in listing order. */
  lemma {:induction false} TextEntriesSpec(entries: seq<DirEntry>)
    ensures |TextEntries(entries)| <= |entries|
    ensures forall e :: e in TextEntries(entries) <==> e in entries && IsTextFile(e)
    decreases |entries|
  {
    if entries != [] {
      TextEntriesSpec(entries[1..]);
      assert entries == [entries[0]] + entries[1..];
    }
  }

  /** At most 200 files are read, all of them regular files with a text
      extension from the listing; when the listing holds no more than 200
      of those, every one of them is read. */
  lemma TextFilesSpec(entries: seq<DirEntry>)
    ensures |TextFiles(entries)| <= MaxFiles
    ensures forall e :: e in TextFiles(entries) ==> e in entries && IsTextFile(e)
    ensures |TextEntries(entries)| <= MaxFiles ==>
      forall e :: e in entries && IsTextFile(e) ==> e in TextFiles(entries)
  {
    TextEntriesSpec(entries);
    var all := TextEntries(entries);
    if |all| > MaxFiles {
      forall e | e in all[..MaxFiles] ensures e in all {
        var k :| 0 <= k < MaxFiles && all[..MaxFiles][k] == e;
        assert all[k] == e;
      }
    }
  }

  /** Reading fails exactly when one of the files fails to read. */
  lemma {:induction false} ReadAllFails(files: seq<DirEntry>)
    ensures ReadAll(files).Success? <==> forall i :: 0 <= i < |files| ==> files[i].content.Some?
    decreases |files|
  {
    if files != [] {
      ReadAllFails(files[1..]);
      if ReadAll(files).Failure? && files[0].content.Some? {
        var i :| 0 <= i < |files[1..]| && files[1..][i].content.None?;
        assert files[i + 1].content.None?;
      }
    }
  }

  /** A successful read gives each file's name and text, in order. */
  lemma {:induction false} ReadAllContents(files: seq<DirEntry>)
    requires ReadAll(files).Success?
    ensures |ReadAll(files).value| == |files|
    ensures forall i :: 0 <= i < |files| ==>
      files[i].content.Some? && ReadAll(files).value[i] == (files[i].name, files[i].content.value)
    decreases |files|
  {
    if files != [] {
      ReadAllContents(files[1..]);
      var rest := ReadAll(files[1..]).value;
      assert ReadAll(files).value == [(files[0].name, files[0].content.value)] + rest;
      forall i | 0 < i < |files|
        ensures files[i].content.Some? && ReadAll(files).value[i] == (files[i].name, files[i].content.value)
      {
        assert files[i] == files[1..][i - 1];
        assert ReadAll(files).value[i] == rest[i - 1];
      }
    }
  }

  /** The documents kept are exactly those with some content, in order. */
  lemma {:induction false} NonEmptyDocsSpec(docs: seq<Document>)
    ensures |NonEmptyDocs(docs)| <= |docs|
    ensures forall d :: d in NonEmptyDocs(docs) <==> d in docs && d.content != ""
    decreases |docs|
  {
    if docs != [] {
      NonEmptyDocsSpec(docs[1..]);
      assert docs == [docs[0]] + docs[1..];
    }
  }

  /** A successful load: the guide is normalised ("" when absent); the
      documents are at most 200, each with trimmed non-empty content and an
      identifier with a text extension, and each is read from an entry of
      the listing. */
  lemma ReadSourcesSpec(guide: GuideFile, dir: EmailsDir)
    ensures ReadSources(guide, dir).Success? ==>
      var s := ReadSources(guide, dir).value;
      && s.voiceGuide == NormalizeText(if guide.GuideText? then guide.text else "")
      && |s.docs| <= MaxFiles
      && (dir.DirMissing? ==> s.docs == [])
      && forall d :: d in s.docs ==>
           && d.content != "" && IsTrimmed(d.content) && HasTextExtension(d.id)
           && dir.Listing? && exists e :: e in dir.entries && IsTextFile(e) && DocFromEntry(d, e)
  {
    if ReadSources(guide, dir).Success? && dir.Listing? {
      var files := TextFiles(dir.entries);
      var docs := ReadSources(guide, dir).value.docs;
      assert ReadAll(files).Success? && docs == NonEmptyDocs(Documents(ReadAll(files).value));
      TextFilesSpec(dir.entries);
      DocsFromFiles(files);
      forall d | d in docs
        ensures HasTextExtension(d.id)
        ensures exists e :: e in dir.entries && IsTextFile(e) && DocFromEntry(d, e)
      {
        var e :| e in files && DocFromEntry(d, e);
        assert e in dir.entries && IsTextFile(e);
      }
    }
  }

  lemma DocsFromFiles(files: seq<DirEntry>)
    requires ReadAll(files).Success?
    ensures |NonEmptyDocs(Documents(ReadAll(files).value))| <= |files|
    ensures forall d :: d in NonEmptyDocs(Documents(ReadAll(files).value)) ==>
      && d.content != "" && IsTrimmed(d.content)
      && exists e :: e in files && DocFromEntry(d, e)
  {
    ReadAllContents(files);
    var all := Documents(ReadAll(files).value);
    NonEmptyDocsSpec(all);
    forall d | d in NonEmptyDocs(all)
      ensures d.content != "" && IsTrimmed(d.content)
      ensures exists e :: e in files && DocFromEntry(d, e)
    {
      var i :| 0 <= i < |all| && all[i] == d;
      assert DocFromEntry(all[i], files[i]);
      assert files[i] in files;
    }
  }

  /** Conversely, when the listing holds at most 200 regular files with a
      text extension and all of them can be read, every one whose normalised
      text is not empty becomes a document. */
  lemma ReadSourcesComplete(guide: GuideFile, entries: seq<DirEntry>, e: DirEntry)
    requires ReadSources(guide, Listing(entries)).Success?
    requires |TextEntries(entries)| <= MaxFiles
    requires e in entries && IsTextFile(e) && e.content.Some?
    requires NormalizeText(e.content.value) != ""
    ensures ToDocument(e.name, e.content.value) in ReadSources(guide, Listing(entries)).value.docs
  {
    var files := TextFiles(entries);
    ReadSourcesDocs(guide, Listing(entries));
    TextFilesSpec(entries);
    var i :| 0 <= i < |files| && files[i] == e;
    DocumentOfFile(files, i);
    var all := Documents(ReadAll(files).value);
    NonEmptyDocsSpec(all);
    assert all[i] in all;
  }

  lemma DocumentOfFile(files: seq<DirEntry>, i: int)
    requires ReadAll(files).Success? && 0 <= i < |files|
    ensures files[i].content.Some? && i < |Documents(ReadAll(files).value)|
    ensures Documents(ReadAll(files).value)[i] == ToDocument(files[i].name, files[i].content.value)
  {
    ReadAllContents(files);
  }

  /** The documents of a successful load from a listing. */
  lemma ReadSourcesDocs(guide: GuideFile, dir: EmailsDir)
    requires ReadSources(guide, dir).Success? && dir.Listing?
    ensures ReadAll(TextFiles(dir.entries)).Success?
    ensures ReadSources(guide, dir).value.docs == NonEmptyDocs(Documents(ReadAll(TextFiles(dir.entries)).value))
  {
  }

  /** A load fails exactly when the guide exists but cannot be read, the
      directory exists but cannot be listed, or one of the files to read
      cannot be read. */
  lemma ReadSourcesFailure(guide: GuideFile, dir: EmailsDir)
    ensures ReadSources(guide, dir).Failure? <==>
      || guide.GuideUnreadable?
      || dir.DirUnreadable?
      || (dir.Listing? && exists e :: e in TextFiles(dir.entries) && e.content.None?)
  {
    if dir.Listing? {
      var files := TextFiles(dir.entries);
      ReadAllFails(files);
      if exists e :: e in files && e.content.None? {
        var e :| e in files && e.content.None?;
        var i :| 0 <= i < |files| && files[i] == e;
      }
    }
  }
}
