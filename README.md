# odp-tools core in Dafny

This project models the core of odp-tools, which turns a set of scanned page images
into one PDF/A document. The model covers four parts.

- **The workers** (`PDFWorker.do_work`). A worker reads one file and passes the
  bytes through the optional noteshrink, pngquant and optipng stages. A disabled
  stage returns its input unchanged. img2pdf then makes a one-page PDF, and the
  result keeps the work item's number.
- **The page reorder buffer** (`PDFBuilder`). Results arrive in any order.
  1. `rbuffer_add` appends the result to `results_buffer` and sorts it by number.
  2. `rbuffer_in_sequence` asks whether `last_written` and every buffered number
     form one gap-free run.
  3. Only then does `append_pdf` flush the whole buffer. It adds each page, rewrites
     the document after every page, and advances `last_written`.
- **The document metadata** (`PDFMetadata`). This covers:
  - the defaults of the eight attributes;
  - the PDF date string;
  - the digest input, which is the UTF-8 bytes of six text fields and the date;
  - the /Info dictionary and the two-entry ID.
- **Page dropping** (`PageDropper.run`). The file is renamed to `.pdf.orig`. The pages
  whose 1-based number is not in the drop list are written back under the old name.
  Metadata is optional, and so is keeping the original.

Each file is one Dafny module:

| file | module | contents |
|---|---|---|
| `results.dfy` | `Results` | `Option`, and a `Result` whose error is the Python exception the source would raise |
| `strings.dfy` | `Strings` | UTF-8 encoding and decoding, `strftime`-style zero padding, Python slicing |
| `metadata.dfy` | `Metadata` | `PDFMetadata` as a class over its attribute map, plus functions for `pdftime`, `hash`, `pdfInfo`, `pdfID` and the trailer they produce |
| `reorder.dfy` | `Reorder` | the reorder buffer as a pure state machine (`Sequencer`, `Process`, `Flush`, `ProcessAll`) and its theorems |
| `convert.dfy` | `Convert` | the worker stage chain, the `PdfBuilder` class, and the `WorkQueue` class |
| `pages.dfy` | `Pages` | `pathlib` suffix handling, the page filter, and the `PageDropper` class over a file-system map |

Each method of the `PdfBuilder` class is proved against the pure state machine in
`Reorder`: its postcondition is `State() == Process(old(State()), ...)`,
`Flush(...)` or `AppendOne(...)`. The theorems about that machine are lemmas in
`Reorder`.

Three behaviours of the builder shape the theorems:

- **Flushing.** The builder flushes only when the whole buffer is contiguous with
  `last_written` (odp_tools/convert.py:236-238). For arrivals 2, 0, 3, 1, nothing
  is written until 1 arrives; then all four pages are written.
  `Reorder.OutOfOrderWaits` and `Reorder.OutOfOrderCompletes` prove this.
- **Persistence.** The builder writes the whole document after every appended
  page (odp_tools/convert.py:251-252).
- **Repeated numbers.** The builder never rejects a repeated number. A repeat of
  `last_written` or of a buffered number joins the buffer, and from then on
  nothing is written again (`Reorder.DuplicateStalls`,
  `Reorder.RepeatedNumberStalls`). A repeat of an earlier written number can
  instead pass the test and be appended a second time. For arrivals 0, 1, 2, 1
  the document ends with four pages and `last_written` back at 1
  (`Reorder.ReappendBelow`, `Reorder.RepeatAfterComplete`).

## Model

| member | source | states |
|---|---|---|
| Strings.Utf8Append | odp_tools/metadata.py:183 | UTF-8 encoding distributes over concatenation, so feeding the fields one by one is the same as encoding them run together |
| Strings.Utf8RoundTrip | odp_tools/metadata.py:183 | decoding the UTF-8 encoding of any string gives back the string |
| Strings.Utf8EmptyIff | odp_tools/metadata.py:183 | a string encodes to no bytes exactly when it is empty, so `b""` for a falsy field is the field's own encoding |
| Strings.Utf8Ascii | odp_tools/metadata.py:183 | an ASCII string (such as a PDF date) encodes to one byte per character, equal to its code |
| Strings.Utf8 | odp_tools/metadata.py:183 | `encode("utf-8")`: each character becomes its one- to four-byte UTF-8 sequence, in order; `Strings.Utf8RoundTrip` and `Strings.Utf8Append` are its properties |
| Strings.PadLength | odp_tools/metadata.py:176-177 | a `%Y`/`%m`-style zero-padded number below 10^width has exactly `width` characters |
| Strings.PadValue | odp_tools/metadata.py:176-177 | the zero-padded digits read back as the number |
| Strings.PadDigits | odp_tools/metadata.py:176-177 | the zero-padded form holds only decimal digits |
| Strings.Pad | odp_tools/metadata.py:176-177 | the `%Y`, `%m`, `%d`, `%H`, `%M`, `%S` fields: the decimal digits of n, zero-padded on the left to `width`; `Strings.PadLength`, `Strings.PadValue` and `Strings.PadDigits` are its properties |
| Strings.PySlice | odp_tools/metadata.py:174 | `ofst[i:j]` never reads outside the string and equals the plain slice when in range |
| Metadata.InitAttrs | odp_tools/metadata.py:155-163 | exactly the eight attributes are set; each comes from the keyword argument or is `""`; an unset time becomes the clock reading, a given one is kept; afterwards `has_time()` holds |
| Metadata.PdfMetadata.constructor | odp_tools/metadata.py:155-163 | the attribute-setting loop followed by the time default leaves exactly `InitAttrs(kwargs, now)` |
| Metadata.InitIgnoresOtherKeywords | odp_tools/metadata.py:156-161 | keyword arguments other than the eight names (such as `pdfInfo=`) change nothing |
| Metadata.InitThumbnail | odp_tools/metadata.py:168-169 | `has_thumbnail()` after construction holds exactly when a non-empty thumbnail was passed |
| Metadata.HasTime | odp_tools/metadata.py:165-166 | `has_time()`: the time attribute is not `""` |
| Metadata.HasThumbnail | odp_tools/metadata.py:168-169 | `has_thumbnail()`: the thumbnail attribute is not `""` |
| Metadata.FormatPdfTime | odp_tools/metadata.py:171-177 | `pdftime()`: "D:" and the six padded fields, then the offset's sign, `[1:3]`, a quote, `[3:5]` and a quote; IndexError for an empty offset and AttributeError when the time is not a datetime; `Metadata.PdfTimeRoundTrip` gives its layout and inverse |
| Metadata.PdfTimeRoundTrip | odp_tools/metadata.py:171-177 | `pdftime()` of an aware datetime is "D:" followed by YYYYMMDDHHMMSS and the offset "+HHMM" reshaped to "+HH'MM'"; it has 23 characters, and parsing it gives back the date, the time and the offset |
| Metadata.Encode | odp_tools/metadata.py:183 | one loop element: the UTF-8 bytes of a non-empty string, no bytes for `""`, AttributeError for any other value |
| Metadata.HashFeed | odp_tools/metadata.py:180-183 | the bytes given to `update` in loop order, or the first element's error; `Metadata.HashFeedOfTexts` and `Metadata.HashFeedStopsAtError` are its properties |
| Metadata.HashOf | odp_tools/metadata.py:179-184 | `hash()`: the digest of the fed bytes, after `pdftime()`; `Metadata.HashInputIsConcatenation` gives its input |
| Metadata.HashFeedOfTexts | odp_tools/metadata.py:181-183 | when every value is a string, the bytes fed to the digest are the UTF-8 encoding of the values concatenated, with empty values contributing nothing |
| Metadata.HashFeedStopsAtError | odp_tools/metadata.py:181-183 | the first value that has no `encode` decides the outcome of the whole loop |
| Metadata.HashInputIsConcatenation | odp_tools/metadata.py:179-184 | the digest input is UTF-8 of title, author, subject, keywords, creator, producer and `pdftime()`, in that order |
| Metadata.IdDependsOnlyOnConcatenation | odp_tools/metadata.py:179-184 | two metadata objects whose fields and date run together to the same text have the same ID, whatever the split into fields |
| Metadata.PdfMetadata.Hash | odp_tools/metadata.py:179-184 | the loop that feeds the digest value by value returns the digest of the concatenation defined by `HashOf`, or the error of the first value that cannot be encoded |
| Metadata.InfoOf | odp_tools/metadata.py:186-196 | /Info mirrors the six text fields, and CreationDate and ModDate are both `pdftime()`; it fails exactly when `pdftime()` fails |
| Metadata.IdOf | odp_tools/metadata.py:198-199 | the ID is a two-element list whose entries are equal, and both are `hash()` |
| Metadata.TrailerOf | odp_tools/convert.py:261-262 | the Info and ID entries of one trailer come from one metadata object; it is defined exactly when `pdftime()` and `hash()` are |
| Metadata.TrailerParts | odp_tools/metadata.py:186-199 | a trailer, when defined, is exactly `pdfInfo()` and two copies of `hash()` |
| Metadata.TrailerDefined | odp_tools/metadata.py:155-199 | metadata built from string arguments and an aware clock reading always has /Info and an ID: nothing in `pdfInfo()` or `pdfID()` raises |
| Metadata.IdStable | odp_tools/metadata.py:179-199 | the ID depends only on the six text fields and the time: equal fields give equal IDs |
| Metadata.TrailerIgnoresThumbnail | odp_tools/convert.py:209-211 | setting the thumbnail after construction changes neither /Info nor the ID |
| Metadata.TrailerOfTexts | odp_tools/metadata.py:179-199 | with text fields and a datetime, the trailer's /Info is the six fields with the date twice, and both ID entries are the digest of the fields and the date concatenated |
| Metadata.PdfMetadata.SetThumbnail | odp_tools/convert.py:210-211 | the thumbnail attribute is replaced and nothing else changes |
| Reorder.InsertAtSlot | odp_tools/convert.py:233-234 | appending and then stably sorting a sorted buffer puts the new item after every item with a number not above its own and before every greater one |
| Reorder.SortByIsSortedPermutation | odp_tools/convert.py:234 | `sort(key=number)` yields a sorted permutation of its input |
| Reorder.SortOfSorted | odp_tools/convert.py:234 | sorting an already sorted list leaves it unchanged |
| Reorder.Add | odp_tools/convert.py:232-234 | `rbuffer_add`: append the result, then stably sort by number; `Reorder.AddInserts` shows it is an insertion at the result's slot |
| Reorder.InSequence | odp_tools/convert.py:236-238 | `rbuffer_in_sequence`: the sorted `[last_written]` plus buffered numbers equals `range(min, max + 1)`; `Reorder.InSequenceIff` and `Reorder.DuplicateFailsTest` characterise it |
| Reorder.AddInserts | odp_tools/convert.py:232-234 | after `rbuffer_add` on a sorted buffer, the buffer holds exactly one more item (the multiset grows by the result), is sorted, and the result sits at its slot |
| Reorder.InSequenceIff | odp_tools/convert.py:236-238 | when every buffered number is above `last_written`, the contiguity test holds exactly when the buffered numbers are `last_written+1 .. last_written+k` |
| Reorder.DuplicateFailsTest | odp_tools/convert.py:236-238 | if `[last_written]` plus the buffered numbers holds a repeated number, the contiguity test is false |
| Reorder.AppendOne | odp_tools/convert.py:243-255 | one pass of the `append_pdf` loop: create the document if absent, add the page, write the whole document with the trailer, set `last_written` to the item's number |
| Reorder.AppendItems | odp_tools/convert.py:241-255 | the `append_pdf` loop: one pass per buffered item, in buffer order |
| Reorder.Flush | odp_tools/convert.py:240-256 | `append_pdf`: the loop over the buffer, then an empty buffer |
| Reorder.AppendItemsEffect | odp_tools/convert.py:241-255 | the `append_pdf` loop adds the pages in buffer order, writes once per page, and each write is the document so far with the same trailer; `last_written` ends at the last number appended |
| Reorder.FlushEffect | odp_tools/convert.py:240-256 | `append_pdf` empties the buffer, appends the buffered pages in order, records one write per page, and sets `last_written` to the last buffered number |
| Reorder.Process | odp_tools/convert.py:227-230 | `process_result`: add the result, then flush exactly when the test holds; `Reorder.ProcessHolds`, `Reorder.LastResultFlushes` and `Reorder.ReappendBelow` state its cases |
| Reorder.ProcessAll | odp_tools/convert.py:221-224 | the `run` loop: one `process_result` per result, in arrival order |
| Reorder.Start | odp_tools/convert.py:215-218 | the state `run` starts from: empty buffer, `last_written` = -1, no document, earlier writes kept |
| Reorder.ProcessAllConcat | odp_tools/convert.py:221-225 | processing results in two runs is the same as processing them in one |
| Reorder.ProcessAllKeepsCheckpoints | odp_tools/convert.py:251-266 | after any sequence of results, every write since the start is the whole document up to that page, with the same trailer |
| Reorder.ProcessHolds | odp_tools/convert.py:227-230 | a result that does not complete a run above `last_written` is only buffered: nothing is written |
| Reorder.DuplicateStalls | odp_tools/convert.py:227-238 | once some number occurs twice among `last_written` and the buffered numbers, no later result writes anything: `last_written`, the document and the writes stay as they are, the buffer only grows, and the duplicate persists |
| Reorder.RepeatedNumberStalls | odp_tools/convert.py:227-238 | a result whose number equals `last_written` or is already buffered stops all further writing |
| Reorder.ReappendBelow | odp_tools/convert.py:227-256 | with an empty buffer, a result numbered one below `last_written` passes the test and is appended again: one more page, one more write, and `last_written` moves back to its number |
| Reorder.RepeatAfterComplete | odp_tools/convert.py:214-256 | for arrivals 0, 1, 2, 1, the pages are p0, p1, p2 and the repeated page, with four writes, an empty buffer and `last_written` = 1 |
| Reorder.GapStalls | odp_tools/convert.py:227-256 | while some number k above `last_written` has not arrived, `last_written` stays below k and no page numbered k or more is written |
| Reorder.GapBuffer | odp_tools/convert.py:227-234 | a number that never arrives is never in the buffer |
| Reorder.ProcessKeepsInv | odp_tools/convert.py:227-256 | processing a fresh in-range number keeps the run invariant: an increasing buffer above `last_written`, the pages written being exactly results 0 .. `last_written` in order |
| Reorder.InvAll | odp_tools/convert.py:221-256 | processing any sequence of distinct numbers below N keeps the run invariant |
| Reorder.LastResultFlushes | odp_tools/convert.py:227-256 | the last of N distinct results completes the run: the whole buffer is flushed and the invariant holds with every result seen |
| Reorder.PermutationCompletes | odp_tools/convert.py:214-256 | for results numbered by a permutation of 0..N-1, the run ends with an empty buffer, `last_written = N-1`, pages 0..N-1 appended once each in order, and one checkpoint write per page |
| Reorder.PermutationWritesPages | odp_tools/convert.py:214-266 | for such a run, the document is the pages in number order, and there are exactly N writes, the j-th holding the first j+1 pages |
| Reorder.OutOfOrderWaits | odp_tools/convert.py:227-238 | for arrivals 2, 0, 3, nothing is written and the buffer is [0, 2, 3] |
| Reorder.OutOfOrderCompletes | odp_tools/convert.py:227-256 | for arrivals 2, 0, 3, 1, all four pages are written in order, with four writes |
| Convert.EnabledTools | odp_tools/convert.py:127-129 | one stage per enabled switch, in pipeline order |
| Convert.Stage | odp_tools/convert.py:145-167 | an optional stage: the tool's output when enabled, the input buffer itself otherwise |
| Convert.ApplyAll | odp_tools/convert.py:126-129 | the stages chained in order, each taking the previous one's output; `Convert.ApplyAllConcat` is its property |
| Convert.Converted | odp_tools/convert.py:124-135 | the bytes `do_work` puts in a result: the file as read, through the enabled stages, then img2pdf; `Convert.DoWork` is proved against it |
| Convert.ApplyAllConcat | odp_tools/convert.py:126-131 | chaining stages in two runs equals chaining them in one |
| Convert.AllStagesOff | odp_tools/convert.py:145-167 | with every optional stage disabled, the page is img2pdf of the file as read: each disabled stage returns its input |
| Convert.DoWork | odp_tools/convert.py:124-135 | the result carries the work item's own number, and its bytes are the file through the enabled stages and img2pdf |
| Convert.Kwargs | odp_tools/convert.py:202-208 | the builder passes only text for the five configured fields, and no time, producer or thumbnail |
| Convert.BuilderAttrs | odp_tools/convert.py:202-208 | the builder's metadata holds the five configured fields, a blank producer and the clock reading as time |
| Convert.BuilderTrailer | odp_tools/convert.py:202-208 | every write carries /Info with the five fields, a blank producer and the date twice, and an ID of twice the digest of the five fields and the date |
| Convert.PdfBuilder.constructor | odp_tools/convert.py:200-212 | the metadata is built from the options, with the thumbnail of the first file when asked for; the trailer is `BuilderTrailer` |
| Convert.PdfBuilder.Run | odp_tools/convert.py:214-225 | takes `remaining` results from the queue in order, processes each, and ends with `remaining = 0` |
| Convert.PdfBuilder.ProcessResult | odp_tools/convert.py:227-230 | add the result, then flush if the contiguity test holds |
| Convert.PdfBuilder.RbufferAdd | odp_tools/convert.py:232-234 | the buffer holds exactly one more item, the result; it is sorted by number |
| Convert.PdfBuilder.AppendPdf | odp_tools/convert.py:240-256 | the buffered pages are appended in order, one write per page, `last_written` advances, and the buffer is emptied |
| Convert.PdfBuilder.AddPage | odp_tools/convert.py:243-255 | one loop pass: create the document if absent, add the page, write, advance `last_written` |
| Convert.PdfBuilder.WritePdf | odp_tools/convert.py:258-266 | every write stores the whole current document with Info and ID recomputed from the one metadata object |
| Convert.EnumerateNumbers | odp_tools/convert.py:284-285 | the work items are numbered 0..N-1 in list order, each with its own file |
| Convert.Enumerate | odp_tools/convert.py:284-285 | `enumerate(filenames)` as work items: item i is file i with number i |
| Convert.WorkQueue.constructor | odp_tools/convert.py:278-286 | the work queue holds every filename with its list position |
| Convert.WorkQueue.Run | odp_tools/convert.py:288-303 | raises RuntimeError("Need workers") when `nworkers < 1`, and IndexError when a thumbnail is asked for with no files; otherwise, whatever the arrival order, the output is written once per page, the j-th write holding the first j+1 converted pages in file order |
| Convert.WorkQueue.BuildPdf | odp_tools/convert.py:301-302 | constructing the builder and running it over all N results yields exactly the writes of the reorder state machine started empty, with the builder's trailer |
| Convert.WorkQueue.RunWorkers | odp_tools/convert.py:293-299 | each result on the results queue is the converted work item with that item's number |
| Convert.ResultsWritten | odp_tools/convert.py:302-303 | the builder fed the workers' results in any arrival order writes the converted pages in file order, one prefix per write |
| Convert.ConvertedPages | odp_tools/convert.py:124-135 | page i of the output is the converted i-th file |
| Pages.LastIndexOf | odp_tools/pages.py:45 | `rfind`: the index holds the character and no later one does, or -1 when it is absent |
| Pages.WithSuffix | odp_tools/pages.py:45 | `with_suffix`: ValueError for a bad suffix or an empty name, otherwise the old suffix replaced by the new one; `Pages.OrigPathDiffers` and `Pages.SampleOrigPath` are its properties |
| Pages.Suffix | odp_tools/pages.py:45 | a path suffix is empty or a single dot followed by at least one character, ends the name, and holds no other dot |
| Pages.OrigPathDiffers | odp_tools/pages.py:45 | `with_suffix(".pdf.orig")` succeeds exactly for a non-empty name and never yields the path itself |
| Pages.SampleOrigPath | test/test-page-drop.py:28-29 | "sample.pdf" is renamed to "sample.pdf.orig" |
| Pages.Kept | odp_tools/pages.py:50-53 | the page-selection loop: page i is kept unless i + 1 is a drop number, in page order; `Pages.KeptLength`, `Pages.KeptAt`, `Pages.KeptOrder` and `Pages.KeptDependsOnDropSet` are its properties |
| Pages.KeptLength | odp_tools/pages.py:50-53 | the output page count is the input count less the number of distinct in-range drop numbers |
| Pages.KeptAt | odp_tools/pages.py:50-53 | every page whose 1-based number is not dropped appears in the output, after exactly the kept pages before it |
| Pages.KeptOrder | odp_tools/pages.py:50-53 | kept pages keep their relative order |
| Pages.KeptDependsOnDropSet | odp_tools/pages.py:51 | drop numbers outside 1..len(pages) have no effect, and repeating a number drops its page only once |
| Pages.SampleDrop | test/test-page-drop.py:35-38 | dropping page 2 of the three-page sample keeps pages 1 and 3: two pages |
| Pages.BlankAttrs | odp_tools/pages.py:56 | `PDFMetadata(pdfInfo=...)` has every text field blank and the clock reading as time |
| Pages.DropperTrailer | odp_tools/pages.py:55-58 | the metadata written by the page dropper has blank /Info text, the clock reading as both dates, and an ID of twice the digest of the date alone |
| Pages.DropperTrailerOf | odp_tools/pages.py:55-58 | the page dropper's trailer is the one `pdfInfo()` and `pdfID()` produce for `PDFMetadata(pdfInfo=...)`, and producing it never fails |
| Pages.PageDropper.constructor | odp_tools/pages.py:40-41 | the dropper keeps its options |
| Pages.PageDropper.Run | odp_tools/pages.py:43-67 | ValueError for an empty name and FileNotFoundError for a missing file. Otherwise the file holds exactly the kept pages, and its trailer is fresh metadata or none. The `.pdf.orig` copy survives exactly when `keep_original` holds, and no other file changes |
| Pages.PageDropper.SelectPages | odp_tools/pages.py:50-53 | the loop over `enumerate(reader.pages)` adds exactly the pages whose 1-based number is not in the drop list, in order |
| Pages.PageDropper.MetadataTrailer | odp_tools/pages.py:55-58 | the `write_metadata` branch sets Info and ID to the blank-text, clock-dated trailer of `Pages.DropperTrailer` |

## Left out

- Concurrency. The `multiprocessing` queues and processes, the workers' `while not work_queue.empty()` loop and `join` are not modelled. The order in which results reach the builder is the parameter `arrival` of `Convert.WorkQueue.Run`.
- Convert.WorkQueue.Run: requires `arrival` to be a permutation of 0..N-1. That is, every worker finishes its item. A stage that fails (a tool's non-zero exit, an unreadable image) is not modelled, so neither is the run that then waits forever.
- Convert.PdfBuilder.constructor: requires a file when a thumbnail is asked for. The IndexError that `filenames[0]` raises otherwise is modelled in `Convert.WorkQueue.Run`, the builder's only caller.
- Convert.PdfBuilder.Run: requires at least `remaining` results on the queue. With fewer, `results_queue.get()` blocks forever, which a terminating model cannot state.
- Image processing is not modelled. `HackedNoteShrink` (palette quantisation with numpy, scikit-learn and PIL), the pngquant and optipng subprocesses, temporary files and img2pdf are the opaque functions of `Convert.Toolchain`. Only the way they chain, and the identity of a disabled stage, is modelled.
- PDF parsing and serialisation by pdfrw are not modelled. A page is an element of the generic type `P`, and decoding a result's bytes into its page is the identity. A written file is its page sequence plus a `Trailer`.
- XMP is not modelled. `XMPGenerator` (`pdfXMP`, through libxmp and ctypes) and the sRGB output intent from odp_tools/colors.py are represented only by the `Tagged` trailer marker beside Info and ID.
- SHA-256 is the parameter `sha256`, and its hex digest is its result.
- The clock (`datetime.now(tzlocal())`) is the parameter `now`, and its `%z` offset is the string `utcOffset`. Callers require a non-empty offset, since local-zone readings are always aware.
- `get_thumbnail` (PIL) is the parameter `thumbnailOf`.
- `get_pdf_time` is not modelled, because nothing in the core calls it.
- Metadata.FormatPdfTime: `%Y` is zero-padded to four digits. Platform C libraries differ for years below 1000.
- Options is not modelled: argparse, YAML loading, the output file name, dpi and tool paths. odp_tools/compliance.py and the tqdm progress bar are not part of this model.
- Pages.PageDropper.Run: the reader's /Info object is the fixed placeholder `Object(0)`. `Metadata.InitIgnoresOtherKeywords` shows that any value under `pdfInfo` gives the same attributes. A file that exists but is not a readable PDF is not modelled.
- Metadata.Encode: only strings, datetimes and truthy objects are modelled as values. A falsy non-string such as None or 0, which `if thing else b""` would feed as no bytes, does not occur, since every attribute the model sets is one of those.
