/** Dropping pages from a PDF file in place (`PageDropper`). Files are the map
    `FileSystem` from path to document; a document is its page sequence and
    the trailer its writer produced. */
module Pages {
  import opened Results
  import opened Strings
  import opened Metadata

  /** A `pathlib.Path`, split into its parent and its final component `name`. */
  datatype Path = Path(dir: string, name: string)

  /** A PDF file on disk: its pages in order and the trailer it was written with. */
  datatype PdfFile<P> = PdfFile(pages: seq<P>, trailer: Trailer)

  type FileSystem<P> = map<Path, PdfFile<P>>

  /** The parsed command line: the file, the 1-based page numbers to drop,
      `keep_original` and `write_metadata`. */
  datatype DropOptions = DropOptions(filename: Path, pages: seq<int>, keepOriginal: bool, writeMetadata: bool)

  const Separator := '/'

  /** The suffix the original is renamed to. */
  const OrigSuffix := ".pdf.orig"

  // ---------------------------------------------------------------------------
  // pathlib: suffix and with_suffix

  /** `str.rfind`: the last index of `c` in `s`, or -1. */
  function LastIndexOf(s: string, c: char): (i: int)
    ensures -1 <= i < |s|
    ensures i >= 0 ==> s[i] == c
    ensures forall k :: i < k < |s| ==> s[k] != c
    decreases |s|
  {
    if s == [] then -1
    else if s[|s| - 1] == c then |s| - 1
    else LastIndexOf(s[..|s| - 1], c)
  }

  /** `PurePath.suffix`: from the last dot on, unless that dot leads or ends the name. */
  function Suffix(name: string): (suf: string)
    ensures suf == [] || (suf[0] == '.' && 2 <= |suf| <= |name| - 1)
    ensures suf != [] ==> name[|name| - |suf|..] == suf
    ensures forall k :: 0 < k < |suf| ==> suf[k] != '.'
  {
    var i := LastIndexOf(name, '.');
    if 0 < i < |name| - 1 then name[i..] else ""
  }

  /** `PurePath.with_suffix`: the suffix must contain no separator and be empty
      or a dot followed by something; an empty name cannot take a suffix. The
      old suffix is replaced, or the new one appended when there is none. */
  function WithSuffix(p: Path, suffix: string): Result<Path>
  {
    if Separator in suffix || (suffix != "" && (suffix[0] != '.' || suffix == ".")) then Err(ValueError)
    else if p.name == "" then Err(ValueError)
    else
      var oldSuffix := Suffix(p.name);
      Ok(Path(p.dir, p.name[..|p.name| - |oldSuffix|] + suffix))
  }

  /** Renaming to the ".pdf.orig" path never renames a file onto itself, so the
      rewritten file and the kept original are two files. */
  lemma OrigPathDiffers(p: Path)
    ensures WithSuffix(p, OrigSuffix).Ok? <==> p.name != ""
    ensures WithSuffix(p, OrigSuffix).Ok? ==> WithSuffix(p, OrigSuffix).value != p
  {
    if p.name != "" {
      var oldSuffix := Suffix(p.name);
      var stem := p.name[..|p.name| - |oldSuffix|];
      var q := WithSuffix(p, OrigSuffix).value;
      assert oldSuffix != OrigSuffix by {
        assert OrigSuffix[4] == '.';
      }
      assert q.name[|stem|..] == OrigSuffix;
      assert p.name[|stem|..] == oldSuffix;
    }
  }

  /** The file of the page-drop test, "sample.pdf", is kept as "sample.pdf.orig". */
  lemma SampleOrigPath(dir: string)
    ensures WithSuffix(Path(dir, "sample.pdf"), OrigSuffix) == Ok(Path(dir, "sample.pdf.orig"))
  {
    var name := "sample.pdf";
    assert LastIndexOf("sample.", '.') == 6;
    assert "sample.p"[..7] == "sample.";
    assert LastIndexOf("sample.p", '.') == 6;
    assert "sample.pd"[..8] == "sample.p";
    assert LastIndexOf("sample.pd", '.') == 6;
    assert name[..9] == "sample.pd";
    assert LastIndexOf(name, '.') == 6;
    assert Suffix(name) == ".pdf";
    assert name[..6] + OrigSuffix == "sample.pdf.orig";
  }

  // ---------------------------------------------------------------------------
  // The page-selection loop

  /** The pages kept by the loop over `enumerate(reader.pages)`: page `i` stays
      unless its 1-based number `i + 1` is among the drop numbers. */
  function Kept<P>(ps: seq<P>, drops: seq<int>): seq<P>
    decreases |ps|
  {
    if ps == [] then []
    else Kept(ps[..|ps| - 1], drops) + (if |ps| in drops then [] else [ps[|ps| - 1]])
  }

  /** The distinct drop numbers that name one of the first `n` pages. */
  function DropSet(n: int, drops: seq<int>): set<int>
  {
    set d | d in drops && 1 <= d <= n
  }

  lemma DropSetStep(n: nat, drops: seq<int>)
    ensures |DropSet(n + 1, drops)| == |DropSet(n, drops)| + (if n + 1 in drops then 1 else 0)
  {
    if n + 1 in drops {
      assert DropSet(n + 1, drops) == DropSet(n, drops) + {n + 1};
    } else {
      assert DropSet(n + 1, drops) == DropSet(n, drops);
    }
  }

  /** Output page count: the input count less the number of distinct in-range
      drop numbers. */
  lemma {:induction false} KeptLength<P>(ps: seq<P>, drops: seq<int>)
    ensures |Kept(ps, drops)| == |ps| - |DropSet(|ps|, drops)|
    decreases |ps|
  {
    if ps != [] {
      KeptLength(ps[..|ps| - 1], drops);
      DropSetStep(|ps| - 1, drops);
    }
  }

  /** The position in the output of a page that is not dropped: it comes after
      every kept page before it. */
  function Position(i: int, drops: seq<int>): int {
    i - |DropSet(i, drops)|
  }

  /** Every page that is not dropped appears in the output, at its position. */
  lemma {:induction false} KeptAt<P>(ps: seq<P>, drops: seq<int>, i: int)
    requires 0 <= i < |ps| && i + 1 !in drops
    ensures 0 <= Position(i, drops) < |Kept(ps, drops)|
    ensures Kept(ps, drops)[Position(i, drops)] == ps[i]
    decreases |ps|
  {
    var init := ps[..|ps| - 1];
    KeptLength(init, drops);
    if i < |ps| - 1 {
      KeptAt(init, drops, i);
    } else {
      assert DropSet(i, drops) <= Interval(i);
      SubsetCard(DropSet(i, drops), Interval(i));
    }
  }

  /** The numbers 1..n. */
  function Interval(n: int): (s: set<int>)
    ensures forall d :: d in s <==> 1 <= d <= n
    ensures n >= 0 ==> |s| == n
    decreases n
  {
    if n <= 0 then {} else Interval(n - 1) + {n}
  }

  lemma SubsetCard(a: set<int>, b: set<int>)
    requires a <= b
    ensures |a| <= |b|
  {
    assert b == a + (b - a);
  }

  /** Kept pages keep their relative order: a later page lands further on. */
  lemma {:induction false} KeptOrder(drops: seq<int>, i: int, j: int)
    requires 0 <= i < j && i + 1 !in drops
    ensures Position(i, drops) < Position(j, drops)
    decreases j
  {
    DropSetStep(j - 1, drops);
    if i < j - 1 {
      KeptOrder(drops, i, j - 1);
    }
  }

  /** Only the in-range drop numbers matter, and only whether they occur: a
      number outside 1..len(pages) drops nothing and a repeated number drops
      its page once. */
  lemma {:induction false} KeptDependsOnDropSet<P>(ps: seq<P>, d1: seq<int>, d2: seq<int>)
    requires DropSet(|ps|, d1) == DropSet(|ps|, d2)
    ensures Kept(ps, d1) == Kept(ps, d2)
    decreases |ps|
  {
    if ps != [] {
      var n := |ps|;
      assert n in d1 <==> n in DropSet(n, d1);
      assert n in d2 <==> n in DropSet(n, d2);
      assert DropSet(n - 1, d1) == DropSet(n, d1) - {n};
      assert DropSet(n - 1, d2) == DropSet(n, d2) - {n};
      KeptDependsOnDropSet(ps[..n - 1], d1, d2);
    }
  }

  /** The page-drop test: dropping page 2 of a three-page file keeps the first
      and the third, two pages. */
  lemma SampleDrop<P>(a: P, b: P, c: P)
    ensures Kept([a, b, c], [2]) == [a, c]
    ensures |Kept([a, b, c], [2])| == 2
  {
    assert [a][..0] == [];
    assert Kept([a], [2]) == [a];
    assert [a, b][..1] == [a];
    assert Kept([a, b], [2]) == [a];
    assert [a, b, c][..2] == [a, b];
  }

  // ---------------------------------------------------------------------------
  // Metadata written by the page dropper

  /** The keyword arguments of `PDFMetadata(pdfInfo=reader.Info)`; the reader's
      /Info dictionary is some object. */
  const ReaderKwargs: map<string, Arg> := map["pdfInfo" := Object(0)]

  /** The trailer written when `write_metadata` holds. The old /Info is passed
      under a name `PDFMetadata` does not know, so every text entry is blank,
      both dates are the clock reading, and the identifier is the digest of the
      date alone. */
  function DropperTrailer(now: DateTime, sha256: seq<byte> -> string): (t: Trailer)
    requires |now.utcOffset| > 0
    ensures FormatPdfTime(Stamp(now)).Ok?
    ensures var date := FormatPdfTime(Stamp(now)).value;
            var h := sha256(Utf8(date));
            t == Tagged(InfoDict(Text(""), Text(""), Text(""), Text(""), Text(""), Text(""), date, date), [h, h])
  {
    var a := InitAttrs(ReaderKwargs, now);
    BlankAttrs(now);
    TrailerOfTexts(a, sha256);
    assert "" + FormatPdfTime(Stamp(now)).value == FormatPdfTime(Stamp(now)).value;
    TrailerOf(a, sha256).value
  }

  /** The trailer above is the one `pdfInfo()` and `pdfID()` give. */
  lemma DropperTrailerOf(now: DateTime, sha256: seq<byte> -> string)
    requires |now.utcOffset| > 0
    ensures TrailerOf(InitAttrs(ReaderKwargs, now), sha256) == Ok(DropperTrailer(now, sha256))
  {
    BlankAttrs(now);
    TrailerOfTexts(InitAttrs(ReaderKwargs, now), sha256);
  }

  /** What `PDFMetadata(pdfInfo=...)` holds: blank text and the clock reading. */
  lemma BlankAttrs(now: DateTime)
    requires |now.utcOffset| > 0
    ensures Complete(InitAttrs(ReaderKwargs, now)) && TextFields(InitAttrs(ReaderKwargs, now))
    ensures InitAttrs(ReaderKwargs, now)["title"] == InitAttrs(ReaderKwargs, now)["author"] == Text("")
    ensures InitAttrs(ReaderKwargs, now)["subject"] == InitAttrs(ReaderKwargs, now)["keywords"] == Text("")
    ensures InitAttrs(ReaderKwargs, now)["creator"] == InitAttrs(ReaderKwargs, now)["producer"] == Text("")
    ensures InitAttrs(ReaderKwargs, now)["time"] == Stamp(now)
    ensures FieldText(InitAttrs(ReaderKwargs, now)) == ""
    ensures FormatPdfTime(Stamp(now)).Ok?
  {
    var a := InitAttrs(ReaderKwargs, now);
    assert ReaderKwargs.Keys == {"pdfInfo"};
    assert Given(ReaderKwargs, "time") == Text("");
    assert a["title"] == Text("") && a["author"] == Text("") && a["subject"] == Text("");
    assert a["keywords"] == Text("") && a["creator"] == Text("") && a["producer"] == Text("");
  }

  // ---------------------------------------------------------------------------
  // The object

  class PageDropper {
    const options: DropOptions

    constructor (options: DropOptions)
      ensures this.options == options
    {
      this.options := options;
    }

    /** `run()` on the file system `fs` with the clock reading `now`: rename the
        file to ".pdf.orig", write the kept pages to the old name, then remove
        the original unless it is to be kept. */
    method Run<P>(fs: FileSystem<P>, now: DateTime, sha256: seq<byte> -> string) returns (r: Result<FileSystem<P>>)
      requires options.writeMetadata ==> |now.utcOffset| > 0
      ensures options.filename.name == "" ==> r == Err(ValueError)
      ensures options.filename.name != "" && options.filename !in fs ==> r == Err(FileNotFoundError)
      ensures options.filename.name != "" && options.filename in fs ==>
        var file := options.filename;
        var orig := WithSuffix(file, OrigSuffix).value;
        r.Ok? &&
        // the rewritten file: the kept pages, with fresh metadata or none
        file in r.value &&
        r.value[file].pages == Kept(fs[file].pages, options.pages) &&
        r.value[file].trailer == (if options.writeMetadata then DropperTrailer(now, sha256) else Bare) &&
        // the original survives exactly when it is to be kept
        (orig in r.value <==> options.keepOriginal) &&
        (options.keepOriginal ==> r.value[orig] == fs[file]) &&
        // no other file is touched
        (forall q :: q != file && q != orig ==> (q in r.value <==> q in fs)) &&
        (forall q :: q != file && q != orig && q in fs ==> r.value[q] == fs[q])
    {
      var filepath := options.filename;
      OrigPathDiffers(filepath);
      var target := WithSuffix(filepath, OrigSuffix);
      if target.Err? {
        return Err(target.error);
      }
      if filepath !in fs {
        return Err(FileNotFoundError);
      }
      // the rename
      var origpath := target.value;
      var disk := (fs - {filepath})[origpath := fs[filepath]];
      var reader := disk[origpath];

      var out := SelectPages(reader.pages);
      var trailer := Bare;
      if options.writeMetadata {
        trailer := MetadataTrailer(now, sha256);
      }

      // writer.write()
      disk := disk[filepath := PdfFile(out, trailer)];

      if !options.keepOriginal {
        disk := disk - {origpath};
      }
      r := Ok(disk);
    }

    /** The loop over `enumerate(reader.pages)`: skip a page whose 1-based
        number is to be dropped, add every other page to the writer. */
    method SelectPages<P>(pages: seq<P>) returns (out: seq<P>)
      ensures out == Kept(pages, options.pages)
    {
      out := [];
      for i := 0 to |pages|
        invariant out == Kept(pages[..i], options.pages)
      {
        assert pages[..i + 1][..i] == pages[..i];
        if i + 1 in options.pages {
          continue;
        }
        out := out + [pages[i]];
      }
      assert pages[..|pages|] == pages;
    }

    /** The `write_metadata` branch: Info and ID from `PDFMetadata(pdfInfo=reader.Info)`. */
    method MetadataTrailer(now: DateTime, sha256: seq<byte> -> string) returns (t: Trailer)
      requires |now.utcOffset| > 0
      ensures t == DropperTrailer(now, sha256)
    {
      var metadata := new PdfMetadata(ReaderKwargs, now);
      DropperTrailerOf(now, sha256);
      TrailerParts(metadata.attrs, sha256);
      var info := InfoOf(metadata.attrs);
      var h := metadata.Hash(sha256);
      t := Tagged(info.value, [h.value, h.value]);
    }
  }
}
