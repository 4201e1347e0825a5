/** The conversion pipeline: workers turn numbered image files into one-page
    PDF buffers, and `PdfBuilder` assembles the pages in number order while the
    results arrive in any order. */
module Convert {
  import opened Results
  import opened Strings
  import opened Metadata
  import opened Reorder

  type Bytes = seq<byte>

  // ---------------------------------------------------------------------------
  // PDFWorker

  /** Which optional stages the options enable. */
  datatype Switches = Switches(noteshrink: bool, pngquant: bool, optipng: bool)

  /** The external tools, each from an input buffer to an output buffer: reading
      the file, noteshrink, pngquant, optipng and img2pdf. */
  datatype Toolchain = Toolchain(
    load: string -> Bytes,
    noteshrink: Bytes -> Bytes,
    pngquant: Bytes -> Bytes,
    optipng: Bytes -> Bytes,
    img2pdf: Bytes -> Bytes)

  /** A stage of `do_work`: the tool when enabled, the input buffer otherwise. */
  function Stage(enabled: bool, tool: Bytes -> Bytes, buf: Bytes): Bytes {
    if enabled then tool(buf) else buf
  }

  /** The optional tools that are switched on, in pipeline order. */
  function EnabledTools(sw: Switches, tools: Toolchain): (fs: seq<Bytes -> Bytes>)
    ensures |fs| == (if sw.noteshrink then 1 else 0) + (if sw.pngquant then 1 else 0) + (if sw.optipng then 1 else 0)
  {
    (if sw.noteshrink then [tools.noteshrink] else []) +
    (if sw.pngquant then [tools.pngquant] else []) +
    (if sw.optipng then [tools.optipng] else [])
  }

  /** Applies `fs[0]` first, then `fs[1]`, and so on. */
  function ApplyAll(fs: seq<Bytes -> Bytes>, buf: Bytes): Bytes
    decreases |fs|
  {
    if fs == [] then buf else fs[|fs| - 1](ApplyAll(fs[..|fs| - 1], buf))
  }

  lemma {:induction false} ApplyAllConcat(fs: seq<Bytes -> Bytes>, gs: seq<Bytes -> Bytes>, buf: Bytes)
    ensures ApplyAll(fs + gs, buf) == ApplyAll(gs, ApplyAll(fs, buf))
    decreases |gs|
  {
    if gs == [] {
      assert fs + gs == fs;
    } else {
      var init := gs[..|gs| - 1];
      assert (fs + gs)[..|fs + gs| - 1] == fs + init;
      ApplyAllConcat(fs, init, buf);
    }
  }

  /** The page bytes a worker produces for `filename`: the file's bytes through
      the enabled stages, then img2pdf. */
  function Converted(sw: Switches, tools: Toolchain, filename: string): Bytes {
    tools.img2pdf(ApplyAll(EnabledTools(sw, tools), tools.load(filename)))
  }

  /** With every optional stage off, the page is img2pdf of the file as read. */
  lemma {:induction false} AllStagesOff(sw: Switches, tools: Toolchain, filename: string)
    requires !sw.noteshrink && !sw.pngquant && !sw.optipng
    ensures Converted(sw, tools, filename) == tools.img2pdf(tools.load(filename))
  {
    assert EnabledTools(sw, tools) == [];
  }

  /** `do_work`: the stages one after the other; the result keeps the work
      item's number. */
  method DoWork(item: Numbered<string>, sw: Switches, tools: Toolchain) returns (output: Numbered<Bytes>)
    ensures output.number == item.number
    ensures output.thing == Converted(sw, tools, item.thing)
  {
    var raw := tools.load(item.thing);
    var shrunk := Stage(sw.noteshrink, tools.noteshrink, raw);
    var quant := Stage(sw.pngquant, tools.pngquant, shrunk);
    var opt := Stage(sw.optipng, tools.optipng, quant);
    var pdfbuf := tools.img2pdf(opt);
    output := Numbered(item.number, pdfbuf);

    var ns: seq<Bytes -> Bytes> := if sw.noteshrink then [tools.noteshrink] else [];
    var pq: seq<Bytes -> Bytes> := if sw.pngquant then [tools.pngquant] else [];
    var op: seq<Bytes -> Bytes> := if sw.optipng then [tools.optipng] else [];
    assert ApplyAll(ns, raw) == shrunk;
    assert ApplyAll(pq, shrunk) == quant;
    assert ApplyAll(op, quant) == opt;
    ApplyAllConcat(ns, pq, raw);
    ApplyAllConcat(ns + pq, op, raw);
  }

  // ---------------------------------------------------------------------------
  // PDFBuilder

  /** The `metadata` section of the options. */
  datatype MetadataOptions = MetadataOptions(
    title: string, author: string, subject: string, keywords: string, creator: string,
    thumbnail: bool)

  /** The keyword arguments `PDFBuilder.__init__` passes to `PDFMetadata`. */
  function Kwargs(m: MetadataOptions): (kw: map<string, Arg>)
    ensures forall n :: n in kw ==> n in TextNames && kw[n].Text?
    ensures "time" !in kw && "producer" !in kw && "thumbnail" !in kw
  {
    assert TextNames == ["title", "author", "subject", "keywords", "creator", "producer"];
    map["title" := Text(m.title), "author" := Text(m.author), "subject" := Text(m.subject),
        "keywords" := Text(m.keywords), "creator" := Text(m.creator)]
  }

  /** The trailer every write of a builder carries: /Info holds the five
      configured fields, a blank producer and the clock reading as both dates;
      the identifier is twice the digest of the five fields and the date. */
  function BuilderTrailer(m: MetadataOptions, now: DateTime, sha256: Bytes -> string): (t: Trailer)
    requires |now.utcOffset| > 0
    ensures FormatPdfTime(Stamp(now)).Ok?
    ensures var date := FormatPdfTime(Stamp(now)).value;
            var h := sha256(Utf8(m.title + m.author + m.subject + m.keywords + m.creator + date));
            t == Tagged(InfoDict(Text(m.title), Text(m.author), Text(m.subject), Text(m.keywords),
                                 Text(m.creator), Text(""), date, date), [h, h])
  {
    var a := InitAttrs(Kwargs(m), now);
    BuilderAttrs(m, now);
    TrailerOfTexts(a, sha256);
    TrailerOf(a, sha256).value
  }

  /** What `PDFMetadata(title=..., creator=...)` holds. */
  lemma BuilderAttrs(m: MetadataOptions, now: DateTime)
    requires |now.utcOffset| > 0
    ensures Complete(InitAttrs(Kwargs(m), now)) && TextFields(InitAttrs(Kwargs(m), now))
    ensures InitAttrs(Kwargs(m), now)["title"] == Text(m.title)
    ensures InitAttrs(Kwargs(m), now)["author"] == Text(m.author)
    ensures InitAttrs(Kwargs(m), now)["subject"] == Text(m.subject)
    ensures InitAttrs(Kwargs(m), now)["keywords"] == Text(m.keywords)
    ensures InitAttrs(Kwargs(m), now)["creator"] == Text(m.creator)
    ensures InitAttrs(Kwargs(m), now)["producer"] == Text("")
    ensures InitAttrs(Kwargs(m), now)["time"] == Stamp(now)
    ensures FieldText(InitAttrs(Kwargs(m), now)) == m.title + m.author + m.subject + m.keywords + m.creator
    ensures FormatPdfTime(Stamp(now)).Ok?
  {
    var a := InitAttrs(Kwargs(m), now);
    var kw := Kwargs(m);
    assert Given(kw, "time") == Text("");
    assert Given(kw, "title") == Text(m.title);
    assert Given(kw, "author") == Text(m.author);
    assert Given(kw, "subject") == Text(m.subject);
    assert Given(kw, "keywords") == Text(m.keywords);
    assert Given(kw, "creator") == Text(m.creator);
    assert Given(kw, "producer") == Text("");
  }

  /** `PDFBuilder`, generic in the page type: `newpage` is the page read from a
      result's bytes. `writes` lists what `pdf.write()` put on disk, in order. */
  class PdfBuilder<P> {
    const metadata: PdfMetadata
    const sha256: Bytes -> string
    var remaining: int
    var resultsBuffer: seq<Numbered<P>>
    var lastWritten: int
    var pdf: Option<seq<P>>
    var writes: seq<Checkpoint<P>>
    ghost var appended: seq<int>
    /** The attributes of `metadata`, which nothing changes after `__init__`. */
    ghost const fields: map<string, Arg>
    /** What `write_pdf` sets before each write: Info and ID from `metadata`. */
    ghost const trailer: Trailer

    ghost predicate Valid()
      reads metadata
    {
      && metadata.attrs == fields
      && Complete(fields)
      && TrailerOf(fields, sha256) == Ok(trailer)
    }

    ghost function State(): Sequencer<P>
      reads this
    {
      Sequencer(resultsBuffer, lastWritten, pdf, writes, appended)
    }

    /** `PDFBuilder(options)` with the clock reading `now`; `thumbnailOf` stands
        for `get_thumbnail`. */
    constructor (m: MetadataOptions, filenames: seq<string>, thumbnailOf: string -> Arg,
                 now: DateTime, sha256: Bytes -> string)
      requires !m.thumbnail || |filenames| > 0
      requires |now.utcOffset| > 0
      ensures Valid() && fresh(metadata)
      ensures trailer == BuilderTrailer(m, now, sha256)
      ensures metadata.attrs == if m.thumbnail
                                then InitAttrs(Kwargs(m), now)["thumbnail" := thumbnailOf(filenames[0])]
                                else InitAttrs(Kwargs(m), now)
      ensures this.sha256 == sha256
      ensures writes == [] && pdf == None && resultsBuffer == [] && lastWritten == -1
    {
      metadata := new PdfMetadata(Kwargs(m), now);
      this.sha256 := sha256;
      remaining := 0;
      resultsBuffer := [];
      lastWritten := -1;
      pdf := None;
      writes := [];
      appended := [];
      trailer := BuilderTrailer(m, now, sha256);
      fields := if m.thumbnail
                then InitAttrs(Kwargs(m), now)["thumbnail" := thumbnailOf(filenames[0])]
                else InitAttrs(Kwargs(m), now);
      new;
      TrailerDefined(Kwargs(m), now, sha256);
      if m.thumbnail {
        TrailerIgnoresThumbnail(metadata.attrs, thumbnailOf(filenames[0]), sha256);
        metadata.SetThumbnail(thumbnailOf(filenames[0]));
      }
    }

    /** `run(results_queue, remaining)`: takes `remaining` results from the queue,
        in queue order, and processes each. */
    method Run(queue: seq<Numbered<P>>, count: int)
      requires Valid()
      requires count <= |queue|  // otherwise `results_queue.get()` waits forever
      modifies this
      ensures Valid()
      ensures remaining == if count > 0 then 0 else count
      ensures State() == ProcessAll(Start(old(writes)), queue[..if count > 0 then count else 0], trailer)
    {
      ghost var w0 := writes;
      remaining := count;
      resultsBuffer := [];
      lastWritten := -1;
      pdf := None;
      appended := [];
      var taken := 0;
      while remaining > 0
        invariant 0 <= taken <= |queue|
        invariant remaining > 0 ==> taken + remaining == count
        invariant remaining <= 0 ==> remaining == (if count > 0 then 0 else count) && taken == (if count > 0 then count else 0)
        invariant State() == ProcessAll(Start(w0), queue[..taken], trailer)
        decreases remaining
      {
        var result := queue[taken];
        ProcessAllPrefix(Start(w0), queue, taken, trailer);
        ProcessResult(result);
        taken := taken + 1;
        remaining := remaining - 1;
      }
    }

    /** `process_result`: add, then append everything if the test passes. */
    method ProcessResult(result: Numbered<P>)
      requires Valid()
      modifies this
      ensures State() == Process(old(State()), result, trailer)
      ensures remaining == old(remaining)
    {
      RbufferAdd(result);
      if InSequence(lastWritten, resultsBuffer) {
        AppendPdf();
      }
    }

    /** `rbuffer_add`: append, then sort by number. */
    method RbufferAdd(result: Numbered<P>)
      modifies this`resultsBuffer
      ensures resultsBuffer == SortBy(old(resultsBuffer) + [result], NumberKey)
      ensures |resultsBuffer| == |old(resultsBuffer)| + 1
      ensures multiset(resultsBuffer) == multiset(old(resultsBuffer)) + multiset{result}
      ensures SortedBy(resultsBuffer, NumberKey)
    {
      resultsBuffer := resultsBuffer + [result];
      SortByIsSortedPermutation(resultsBuffer, NumberKey);
      resultsBuffer := SortBy(resultsBuffer, NumberKey);
    }

    /** `append_pdf`: for each buffered result, add its page and write; then
        empty the buffer. */
    method AppendPdf()
      requires Valid()
      modifies this
      ensures State() == Flush(old(State()), trailer)
      ensures remaining == old(remaining)
    {
      ghost var s0 := State();
      var items := resultsBuffer;
      for i := 0 to |items|
        invariant resultsBuffer == items
        invariant State() == AppendItems(s0, items[..i], trailer)
        invariant remaining == old(remaining)
      {
        AppendItemsPrefix(s0, items, i, trailer);
        AddPage(items[i]);
      }
      assert items[..|items|] == items;
      resultsBuffer := [];
    }

    /** One pass of the `append_pdf` loop: create the document if needed, add
        the page, write, advance `last_written`. */
    method AddPage(item: Numbered<P>)
      requires Valid()
      modifies this
      ensures State() == AppendOne(old(State()), item, trailer)
      ensures remaining == old(remaining)
    {
      ghost var s0 := State();
      var newpage := item.thing;
      if pdf.None? {
        pdf := Some([]);
      }
      pdf := Some(pdf.value + [newpage]);
      assert pdf.value == Pages(s0) + [newpage];
      WritePdf();
      lastWritten := item.number;
      appended := appended + [item.number];
    }

    /** `write_pdf`: sets Info and ID afresh from `metadata`, then writes the
        whole document. */
    method WritePdf()
      requires Valid() && pdf.Some?
      modifies this`writes
      ensures writes == old(writes) + [Checkpoint(pdf.value, trailer)]
    {
      var info := InfoOf(metadata.attrs);
      var h := metadata.Hash(sha256);
      var id := [h.value, h.value];
      assert id == IdOf(metadata.attrs, sha256).value;
      writes := writes + [Checkpoint(pdf.value, Tagged(info.value, id))];
    }
  }

  // ---------------------------------------------------------------------------
  // PDFWorkQueue

  datatype Options = Options(
    filenames: seq<string>,
    nworkers: int,
    metadata: MetadataOptions,
    switches: Switches)

  /** `enumerate(filenames)` as work items. */
  function Enumerate(filenames: seq<string>): seq<Numbered<string>> {
    seq(|filenames|, i requires 0 <= i < |filenames| => Numbered(i, filenames[i]))
  }

  /** The work items carry 0 .. N-1 once each, in list order, with their files. */
  lemma EnumerateNumbers(filenames: seq<string>)
    ensures IsPermutationOfRange(Numbers(Enumerate(filenames)), |filenames|)
    ensures Numbers(Enumerate(filenames)) == Range(0, |filenames|)
    ensures Things(Enumerate(filenames)) == filenames
  {
  }

  class WorkQueue {
    const options: Options
    var workQueue: seq<Numbered<string>>

    /** `PDFWorkQueue(options)`: puts each filename on the work queue with its
        position in the list. */
    constructor (options: Options)
      ensures this.options == options
      ensures workQueue == Enumerate(options.filenames)
    {
      this.options := options;
      workQueue := [];
      new;
      for i := 0 to |options.filenames|
        invariant workQueue == Enumerate(options.filenames[..i])
      {
        workQueue := workQueue + [Numbered(i, options.filenames[i])];
      }
      assert options.filenames[..|options.filenames|] == options.filenames;
    }

    /** `run()`. The workers are modelled by the order `arrival` in which the
        work items' results reach the results queue: `arrival[j]` is the
        position in the work queue of the j-th result. The run ends with one
        write per page, the j-th holding the first j+1 converted pages in file
        order, whatever the arrival order. */
    method Run(arrival: seq<int>, tools: Toolchain, thumbnailOf: string -> Arg,
               now: DateTime, sha256: Bytes -> string) returns (r: Result<seq<Checkpoint<Bytes>>>)
      requires workQueue == Enumerate(options.filenames)
      requires IsPermutationOfRange(arrival, |options.filenames|)
      requires |now.utcOffset| > 0
      ensures options.nworkers < 1 ==> r == Err(RuntimeError("Need workers"))
      ensures options.nworkers >= 1 && options.metadata.thumbnail && options.filenames == [] ==> r == Err(IndexError)
      ensures options.nworkers >= 1 && (!options.metadata.thumbnail || options.filenames != []) ==>
        && r.Ok?
        && |r.value| == |options.filenames|
        && forall j :: 0 <= j < |r.value| ==>
             r.value[j] == Checkpoint(ConvertedPages(options, tools)[..j + 1],
                                      BuilderTrailer(options.metadata, now, sha256))
    {
      if options.nworkers < 1 {
        return Err(RuntimeError("Need workers"));
      }
      var n := |options.filenames|;
      var results := RunWorkers(arrival, tools);
      if options.metadata.thumbnail && n == 0 {
        return Err(IndexError);
      }
      var writes := BuildPdf(results, thumbnailOf, now, sha256);
      ResultsWritten(options, tools, arrival, results, BuilderTrailer(options.metadata, now, sha256));
      r := Ok(writes);
    }

    /** `PDFBuilder(self.options)` followed by `builder.run(results_queue, N)`. */
    method BuildPdf(results: seq<Numbered<Bytes>>, thumbnailOf: string -> Arg,
                    now: DateTime, sha256: Bytes -> string) returns (writes: seq<Checkpoint<Bytes>>)
      requires !options.metadata.thumbnail || |options.filenames| > 0
      requires |now.utcOffset| > 0
      requires |results| == |options.filenames|
      ensures writes == ProcessAll(Start([]), results, BuilderTrailer(options.metadata, now, sha256)).writes
    {
      assert results[..|results|] == results;
      var builder := new PdfBuilder(options.metadata, options.filenames, thumbnailOf, now, sha256);
      builder.Run(results, |options.filenames|);
      writes := builder.writes;
    }

    /** The workers: the j-th result on the results queue is the converted work
        item `arrival[j]`. */
    method RunWorkers(arrival: seq<int>, tools: Toolchain) returns (results: seq<Numbered<Bytes>>)
      requires workQueue == Enumerate(options.filenames)
      requires forall j :: 0 <= j < |arrival| ==> 0 <= arrival[j] < |options.filenames|
      ensures |results| == |arrival|
      ensures forall j :: 0 <= j < |arrival| ==>
                results[j] == Numbered(arrival[j], Converted(options.switches, tools, options.filenames[arrival[j]]))
    {
      results := [];
      for j := 0 to |arrival|
        invariant |results| == j
        invariant forall k :: 0 <= k < j ==>
                    results[k] == Numbered(arrival[k], Converted(options.switches, tools, options.filenames[arrival[k]]))
      {
        var output := DoWork(workQueue[arrival[j]], options.switches, tools);
        results := results + [output];
      }
    }
  }

  /** The builder fed the workers' results in arrival order writes the
      converted pages in file order, one prefix per write. */
  lemma ResultsWritten(options: Options, tools: Toolchain, arrival: seq<int>,
                       results: seq<Numbered<Bytes>>, trailer: Trailer)
    requires IsPermutationOfRange(arrival, |options.filenames|)
    requires |results| == |arrival|
    requires forall j :: 0 <= j < |arrival| ==>
               results[j] == Numbered(arrival[j], Converted(options.switches, tools, options.filenames[arrival[j]]))
    ensures var f := ProcessAll(Start([]), results, trailer);
      && |f.writes| == |options.filenames|
      && forall j :: 0 <= j < |f.writes| ==> f.writes[j] == Checkpoint(ConvertedPages(options, tools)[..j + 1], trailer)
  {
    var pages := ConvertedPages(options, tools);
    assert Numbers(results) == arrival;
    PermutationWritesPages(results, pages, [], trailer);
  }

  /** Page `i` of the output: the converted `filenames[i]`. */
  function ConvertedPages(options: Options, tools: Toolchain): (pages: seq<Bytes>)
    ensures |pages| == |options.filenames|
    ensures forall i :: 0 <= i < |pages| ==> pages[i] == Converted(options.switches, tools, options.filenames[i])
  {
    seq(|options.filenames|, i requires 0 <= i < |options.filenames| => Converted(options.switches, tools, options.filenames[i]))
  }
}
