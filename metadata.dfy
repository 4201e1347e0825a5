/** PDF document properties kept in step between the /Info dictionary and the
    document identifier (`PDFMetadata`). The object's attributes are modelled as
    the map `attrs` from attribute name to value; SHA-256 is the parameter
    `sha256` and the clock is the parameter `now`. */
module Metadata {
  import opened Results
  import opened Strings

  datatype Moment = Moment(year: int, month: int, day: int, hour: int, minute: int, second: int,
                           utcOffset: string)  // what `strftime("%z")` prints, e.g. "+0100"
  {
    predicate InRange() {
      1 <= year <= 9999 && 1 <= month <= 12 && 1 <= day <= 31 &&
      0 <= hour < 24 && 0 <= minute < 60 && 0 <= second < 60
    }
  }

  /** A Python `datetime`: its fields are always in range. */
  type DateTime = d: Moment | d.InRange() witness Moment(1, 1, 1, 0, 0, 0, "")

  /** A Python value held in one of the attributes. */
  datatype Arg =
    | Text(s: string)     // a `str`; `Text("")` is the "unset" marker `""`
    | Stamp(t: DateTime)  // a `datetime`
    | Object(ref: nat)    // any other object (an image, a PDF dictionary)

  /** The attributes `__init__` sets, in the order it sets them. */
  const FieldNames: seq<string> :=
    ["title", "author", "subject", "keywords", "creator", "producer", "time", "thumbnail"]

  /** The attributes that hold text and feed the digest. */
  const TextNames: seq<string> := FieldNames[..6]

  /** Every attribute is present. */
  predicate Complete(attrs: map<string, Arg>) {
    forall n :: n in FieldNames ==> n in attrs
  }

  /** The keyword argument `name`, or `""` when it was not passed. */
  function Given(kwargs: map<string, Arg>, name: string): Arg {
    if name in kwargs then kwargs[name] else Text("")
  }

  // ---------------------------------------------------------------------------
  // __init__, has_time, has_thumbnail

  /** The attributes after `__init__(**kwargs)` with the clock reading `now`. */
  function InitAttrs(kwargs: map<string, Arg>, now: DateTime): (a: map<string, Arg>)
    ensures a.Keys == set n | n in FieldNames
    ensures forall n :: n in FieldNames && n != "time" ==> a[n] == Given(kwargs, n)
    ensures Given(kwargs, "time") != Text("") ==> a["time"] == kwargs["time"]
    ensures Given(kwargs, "time") == Text("") ==> a["time"] == Stamp(now)
    ensures HasTime(a)
  {
    var a := map n | n in FieldNames :: Given(kwargs, n);
    if a["time"] == Text("") then a["time" := Stamp(now)] else a
  }

  predicate HasTime(attrs: map<string, Arg>)
    requires Complete(attrs)
  {
    attrs["time"] != Text("")
  }

  predicate HasThumbnail(attrs: map<string, Arg>)
    requires Complete(attrs)
  {
    attrs["thumbnail"] != Text("")
  }

  /** Keyword arguments other than the eight attribute names change nothing. */
  lemma InitIgnoresOtherKeywords(kwargs: map<string, Arg>, extra: map<string, Arg>, now: DateTime)
    requires forall n :: n in extra ==> n !in FieldNames
    ensures InitAttrs(kwargs + extra, now) == InitAttrs(kwargs, now)
  {
    forall n | n in FieldNames ensures Given(kwargs + extra, n) == Given(kwargs, n) {
    }
  }

  /** `has_thumbnail()` holds after `__init__` exactly when a non-empty thumbnail was passed. */
  lemma InitThumbnail(kwargs: map<string, Arg>, now: DateTime)
    ensures HasThumbnail(InitAttrs(kwargs, now)) <==> Given(kwargs, "thumbnail") != Text("")
  {
  }

  // ---------------------------------------------------------------------------
  // pdftime

  /** `pdftime()`: "D:YYYYMMDDHHMMSS" followed by the `%z` offset reshaped from
      "+HHMM" to "+HH'MM'". A value that is not a datetime has no `strftime`;
      an empty offset makes `ofst[0]` fail. */
  function FormatPdfTime(t: Arg): Result<string>
  {
    match t
    case Stamp(d) =>
      var z := d.utcOffset;
      if |z| == 0 then Err(IndexError)
      else Ok("D:" + Pad(d.year, 4) + Pad(d.month, 2) + Pad(d.day, 2) +
              Pad(d.hour, 2) + Pad(d.minute, 2) + Pad(d.second, 2) +
              [z[0]] + PySlice(z, 1, 3) + "'" + PySlice(z, 3, 5) + "'")
    case _ => Err(AttributeError)
  }

  /** Reads a PDF date string of the shape "D:YYYYMMDDHHMMSS+HH'MM'". */
  function ParsePdfTime(s: string): Option<DateTime>
  {
    if |s| == 23 && s[..2] == "D:" && s[19] == '\'' && s[22] == '\'' then
      var d := Moment(DigitsValue(s[2..6]), DigitsValue(s[6..8]), DigitsValue(s[8..10]),
                      DigitsValue(s[10..12]), DigitsValue(s[12..14]), DigitsValue(s[14..16]),
                      [s[16]] + s[17..19] + s[20..22]);
      if d.InRange() then Some(d) else None
    else None
  }

  /** `pdftime()` of a datetime whose offset has at least "+HHMM" is 23 characters
      of fixed layout, and reading it back gives the date, the time and the offset
      "+HHMM" (seconds of the offset are dropped). */
  lemma PdfTimeRoundTrip(d: DateTime)
    requires |d.utcOffset| >= 5
    ensures FormatPdfTime(Stamp(d)).Ok?
    ensures var s := FormatPdfTime(Stamp(d)).value;
      |s| == 23 && s[..2] == "D:" && s[16..] == [d.utcOffset[0]] + d.utcOffset[1..3] + "'" + d.utcOffset[3..5] + "'"
    ensures ParsePdfTime(FormatPdfTime(Stamp(d)).value) == Some(d.(utcOffset := d.utcOffset[..5]))
  {
    var z := d.utcOffset;
    var off := [z[0]] + z[1..3] + "'" + z[3..5] + "'";
    FormatShape(d);
    OffsetLayout(z);
    PadFields(d);
    var y, mo, da := Pad(d.year, 4), Pad(d.month, 2), Pad(d.day, 2);
    var h, mi, se := Pad(d.hour, 2), Pad(d.minute, 2), Pad(d.second, 2);
    PdfDateLayout(y, mo, da, h, mi, se, off);
    ParseFields(y, mo, da, h, mi, se, off, d);
  }

  /** `pdftime()` is the six padded fields followed by the offset "+HH'MM'". */
  lemma FormatShape(d: DateTime)
    requires |d.utcOffset| >= 5
    ensures var z := d.utcOffset;
      FormatPdfTime(Stamp(d)) ==
      Ok("D:" + Pad(d.year, 4) + Pad(d.month, 2) + Pad(d.day, 2) +
         Pad(d.hour, 2) + Pad(d.minute, 2) + Pad(d.second, 2) +
         ([z[0]] + z[1..3] + "'" + z[3..5] + "'"))
  {
    var z := d.utcOffset;
    var date := "D:" + Pad(d.year, 4) + Pad(d.month, 2) + Pad(d.day, 2) +
                Pad(d.hour, 2) + Pad(d.minute, 2) + Pad(d.second, 2);
    assert PySlice(z, 1, 3) == z[1..3];
    assert PySlice(z, 3, 5) == z[3..5];
    assert date + [z[0]] + z[1..3] + "'" + z[3..5] + "'" == date + ([z[0]] + z[1..3] + "'" + z[3..5] + "'");
  }

  /** Each padded field has its width and reads back as its value. */
  lemma PadFields(d: DateTime)
    ensures |Pad(d.year, 4)| == 4 && DigitsValue(Pad(d.year, 4)) == d.year
    ensures |Pad(d.month, 2)| == 2 && DigitsValue(Pad(d.month, 2)) == d.month
    ensures |Pad(d.day, 2)| == 2 && DigitsValue(Pad(d.day, 2)) == d.day
    ensures |Pad(d.hour, 2)| == 2 && DigitsValue(Pad(d.hour, 2)) == d.hour
    ensures |Pad(d.minute, 2)| == 2 && DigitsValue(Pad(d.minute, 2)) == d.minute
    ensures |Pad(d.second, 2)| == 2 && DigitsValue(Pad(d.second, 2)) == d.second
  {
    PadLength(d.year, 4); PadValue(d.year, 4);
    PadLength(d.month, 2); PadValue(d.month, 2);
    PadLength(d.day, 2); PadValue(d.day, 2);
    PadLength(d.hour, 2); PadValue(d.hour, 2);
    PadLength(d.minute, 2); PadValue(d.minute, 2);
    PadLength(d.second, 2); PadValue(d.second, 2);
  }

  lemma OffsetLayout(z: string)
    requires |z| >= 5
    ensures var off := [z[0]] + z[1..3] + "'" + z[3..5] + "'";
      |off| == 7 && off[3] == '\'' && off[6] == '\'' && [off[0]] + off[1..3] + off[4..6] == z[..5]
  {
    var off := [z[0]] + z[1..3] + "'" + z[3..5] + "'";
    assert off[1..3] == z[1..3];
    assert off[4..6] == z[3..5];
    assert z[..5] == [z[0]] + z[1..3] + z[3..5];
  }

  /** Reading back fields of the right widths and values gives the datetime. */
  lemma ParseFields(y: string, mo: string, da: string, h: string, mi: string, se: string, off: string, d: DateTime)
    requires |y| == 4 && |mo| == |da| == |h| == |mi| == |se| == 2 && |off| == 7
    requires DigitsValue(y) == d.year && DigitsValue(mo) == d.month && DigitsValue(da) == d.day
    requires DigitsValue(h) == d.hour && DigitsValue(mi) == d.minute && DigitsValue(se) == d.second
    requires off[3] == '\'' && off[6] == '\''
    requires |d.utcOffset| >= 5 && [off[0]] + off[1..3] + off[4..6] == d.utcOffset[..5]
    ensures ParsePdfTime("D:" + y + mo + da + h + mi + se + off) == Some(d.(utcOffset := d.utcOffset[..5]))
  {
    var s := "D:" + y + mo + da + h + mi + se + off;
    PdfDateLayout(y, mo, da, h, mi, se, off);
    OffsetFields(s, off);
    ParseLayout(s, d);
  }

  lemma OffsetFields(s: string, off: string)
    requires |s| == 23 && |off| == 7 && s[16..] == off
    ensures s[19] == off[3] && s[22] == off[6]
    ensures [s[16]] + s[17..19] + s[20..22] == [off[0]] + off[1..3] + off[4..6]
  {
    assert s[17..19] == off[1..3];
    assert s[20..22] == off[4..6];
  }

  lemma ParseLayout(s: string, d: DateTime)
    requires |s| == 23 && s[..2] == "D:" && s[19] == '\'' && s[22] == '\''
    requires DigitsValue(s[2..6]) == d.year && DigitsValue(s[6..8]) == d.month
    requires DigitsValue(s[8..10]) == d.day && DigitsValue(s[10..12]) == d.hour
    requires DigitsValue(s[12..14]) == d.minute && DigitsValue(s[14..16]) == d.second
    requires |d.utcOffset| >= 5 && [s[16]] + s[17..19] + s[20..22] == d.utcOffset[..5]
    ensures ParsePdfTime(s) == Some(d.(utcOffset := d.utcOffset[..5]))
  {
  }

  /** Where each field sits in "D:" + year + month + day + hour + minute + second + offset. */
  lemma PdfDateLayout(y: string, mo: string, da: string, h: string, mi: string, se: string, off: string)
    requires |y| == 4 && |mo| == |da| == |h| == |mi| == |se| == 2 && |off| == 7
    ensures var s := "D:" + y + mo + da + h + mi + se + off;
      |s| == 23 && s[..2] == "D:" && s[2..6] == y && s[6..8] == mo && s[8..10] == da &&
      s[10..12] == h && s[12..14] == mi && s[14..16] == se && s[16..] == off
  {
    var s := "D:" + y + mo + da + h + mi + se + off;
    assert s == "D:" + (y + (mo + (da + (h + (mi + (se + off))))));
  }

  // ---------------------------------------------------------------------------
  // hash

  /** One element of the digest loop: `thing.encode("utf-8") if thing else b""`.
      Only a string has `encode`; every other value here is truthy. */
  function Encode(a: Arg): Result<seq<byte>>
  {
    match a
    case Text(s) => Ok(if s == "" then [] else Utf8(s))
    case _ => Err(AttributeError)
  }

  /** The bytes fed to the digest by the loop over `things`, or the error of
      the first element that cannot be encoded. */
  function HashFeed(things: seq<Arg>): Result<seq<byte>>
    decreases |things|
  {
    if things == [] then Ok([])
    else
      var fed :- HashFeed(things[..|things| - 1]);
      var bytes :- Encode(things[|things| - 1]);
      Ok(fed + bytes)
  }

  /** The values `hash()` iterates over, with `pdftime()` already computed as `t`. */
  function HashedThings(attrs: map<string, Arg>, t: string): seq<Arg>
    requires Complete(attrs)
  {
    [attrs["title"], attrs["author"], attrs["subject"], attrs["keywords"],
     attrs["creator"], attrs["producer"], Text(t)]
  }

  function HashInputOf(attrs: map<string, Arg>): Result<seq<byte>>
    requires Complete(attrs)
  {
    var t :- FormatPdfTime(attrs["time"]);
    HashFeed(HashedThings(attrs, t))
  }

  /** `hash()`: the hex digest of the fed bytes. */
  function HashOf(attrs: map<string, Arg>, sha256: seq<byte> -> string): Result<string>
    requires Complete(attrs)
  {
    var fed :- HashInputOf(attrs);
    Ok(sha256(fed))
  }

  function Strs(things: seq<Arg>): string
    requires forall i :: 0 <= i < |things| ==> things[i].Text?
    decreases |things|
  {
    if things == [] then [] else Strs(things[..|things| - 1]) + things[|things| - 1].s
  }

  /** When every value is a string, the fed bytes are the UTF-8 encoding of the
      concatenated strings; empty strings contribute nothing. */
  lemma {:induction false} HashFeedOfTexts(things: seq<Arg>)
    requires forall i :: 0 <= i < |things| ==> things[i].Text?
    ensures HashFeed(things) == Ok(Utf8(Strs(things)))
    decreases |things|
  {
    if things != [] {
      var init := things[..|things| - 1];
      var last := things[|things| - 1].s;
      HashFeedOfTexts(init);
      Utf8Append(Strs(init), last);
      if last == "" {
        assert Strs(init) + last == Strs(init);
      }
    }
  }

  /** The six text attributes are strings. */
  predicate TextFields(attrs: map<string, Arg>)
    requires Complete(attrs)
  {
    attrs["title"].Text? && attrs["author"].Text? && attrs["subject"].Text? &&
    attrs["keywords"].Text? && attrs["creator"].Text? && attrs["producer"].Text?
  }

  /** The six text attributes run together, without separators. */
  function FieldText(attrs: map<string, Arg>): string
    requires Complete(attrs) && TextFields(attrs)
  {
    attrs["title"].s + attrs["author"].s + attrs["subject"].s +
    attrs["keywords"].s + attrs["creator"].s + attrs["producer"].s
  }

  /** The digest input is the UTF-8 encoding of the text attributes and the PDF
      date, concatenated in the fixed order title, author, subject, keywords,
      creator, producer, date. */
  lemma HashInputIsConcatenation(attrs: map<string, Arg>)
    requires Complete(attrs) && TextFields(attrs)
    requires FormatPdfTime(attrs["time"]).Ok?
    ensures HashInputOf(attrs) == Ok(Utf8(FieldText(attrs) + FormatPdfTime(attrs["time"]).value))
  {
    var t := FormatPdfTime(attrs["time"]).value;
    var things := HashedThings(attrs, t);
    HashFeedOfTexts(things);
    StrsOfSeven(things);
  }

  lemma StrsOfSeven(x: seq<Arg>)
    requires |x| == 7 && forall i :: 0 <= i < 7 ==> x[i].Text?
    ensures Strs(x) == x[0].s + x[1].s + x[2].s + x[3].s + x[4].s + x[5].s + x[6].s
  {
    assert x[..1][..0] == [];
    assert Strs(x[..1]) == x[0].s;
    assert x[..2][..1] == x[..1];
    assert Strs(x[..2]) == x[0].s + x[1].s;
    assert x[..3][..2] == x[..2];
    assert Strs(x[..3]) == x[0].s + x[1].s + x[2].s;
    assert x[..4][..3] == x[..3];
    assert Strs(x[..4]) == x[0].s + x[1].s + x[2].s + x[3].s;
    assert x[..5][..4] == x[..4];
    assert Strs(x[..5]) == x[0].s + x[1].s + x[2].s + x[3].s + x[4].s;
    assert x[..6][..5] == x[..5];
    assert Strs(x[..6]) == x[0].s + x[1].s + x[2].s + x[3].s + x[4].s + x[5].s;
    assert x[..7][..6] == x[..6];
    assert x[..7] == x;
  }

  /** The identifier depends on nothing but that concatenation: equal
      concatenations give equal identifiers, whatever the split into fields. */
  lemma IdDependsOnlyOnConcatenation(a1: map<string, Arg>, a2: map<string, Arg>, sha256: seq<byte> -> string)
    requires Complete(a1) && TextFields(a1) && FormatPdfTime(a1["time"]).Ok?
    requires Complete(a2) && TextFields(a2) && FormatPdfTime(a2["time"]).Ok?
    requires FieldText(a1) + FormatPdfTime(a1["time"]).value == FieldText(a2) + FormatPdfTime(a2["time"]).value
    ensures IdOf(a1, sha256) == IdOf(a2, sha256)
  {
    HashInputIsConcatenation(a1);
    HashInputIsConcatenation(a2);
  }

  // ---------------------------------------------------------------------------
  // pdfInfo, pdfID and what gets written to a trailer

  /** The /Info dictionary built by `pdfInfo()`. */
  datatype InfoDict = InfoDict(title: Arg, author: Arg, subject: Arg, keywords: Arg,
                               creator: Arg, producer: Arg, creationDate: string, modDate: string)

  function InfoOf(attrs: map<string, Arg>): (r: Result<InfoDict>)
    requires Complete(attrs)
    ensures r.Ok? <==> FormatPdfTime(attrs["time"]).Ok?
    ensures r.Ok? ==> r.value.creationDate == r.value.modDate == FormatPdfTime(attrs["time"]).value
    ensures r.Ok? ==> r.value.title == attrs["title"] && r.value.author == attrs["author"] &&
                      r.value.subject == attrs["subject"] && r.value.keywords == attrs["keywords"] &&
                      r.value.creator == attrs["creator"] && r.value.producer == attrs["producer"]
  {
    // `pdftime()` is evaluated once per entry; both evaluations agree
    var date :- FormatPdfTime(attrs["time"]);
    Ok(InfoDict(attrs["title"], attrs["author"], attrs["subject"], attrs["keywords"],
                attrs["creator"], attrs["producer"], date, date))
  }

  /** `pdfID()`: `[hash()] * 2`. */
  function IdOf(attrs: map<string, Arg>, sha256: seq<byte> -> string): (r: Result<seq<string>>)
    requires Complete(attrs)
    ensures r.Ok? <==> HashOf(attrs, sha256).Ok?
    ensures r.Ok? ==> |r.value| == 2 && r.value[0] == r.value[1] == HashOf(attrs, sha256).value
  {
    var h :- HashOf(attrs, sha256);
    Ok([h] + [h])
  }

  /** The document-level entries a writer's trailer holds. `Tagged` stands for
      Info and ID set from one metadata object, with Root.Metadata (its XMP
      packet) and Root.OutputIntents (the static sRGB intent) set beside them. */
  datatype Trailer = Bare | Tagged(info: InfoDict, id: seq<string>)

  /** The four trailer assignments of `write_pdf` (and of `PageDropper.run`). */
  function TrailerOf(attrs: map<string, Arg>, sha256: seq<byte> -> string): (r: Result<Trailer>)
    requires Complete(attrs)
    ensures r.Ok? <==> FormatPdfTime(attrs["time"]).Ok? && HashOf(attrs, sha256).Ok?
    ensures r.Ok? ==> r.value.Tagged? && r.value.info == InfoOf(attrs).value && r.value.id == IdOf(attrs, sha256).value
  {
    var info :- InfoOf(attrs);
    var id :- IdOf(attrs, sha256);
    Ok(Tagged(info, id))
  }

  /** A metadata object built from string keyword arguments and an aware clock
      reading always yields a trailer: nothing in `pdfInfo()` or `pdfID()` raises. */
  lemma TrailerDefined(kwargs: map<string, Arg>, now: DateTime, sha256: seq<byte> -> string)
    requires forall n :: n in kwargs && n in TextNames ==> kwargs[n].Text?
    requires "time" !in kwargs
    requires |now.utcOffset| > 0
    ensures Complete(InitAttrs(kwargs, now)) && TextFields(InitAttrs(kwargs, now))
    ensures TrailerOf(InitAttrs(kwargs, now), sha256).Ok?
  {
    InitTexts(kwargs, now);
    TrailerReady(InitAttrs(kwargs, now), sha256);
  }

  /** String keyword arguments and no time give string fields and the clock reading. */
  lemma InitTexts(kwargs: map<string, Arg>, now: DateTime)
    requires forall n :: n in kwargs && n in TextNames ==> kwargs[n].Text?
    requires "time" !in kwargs
    ensures Complete(InitAttrs(kwargs, now)) && TextFields(InitAttrs(kwargs, now))
    ensures InitAttrs(kwargs, now)["time"] == Stamp(now)
  {
    var a := InitAttrs(kwargs, now);
    assert Given(kwargs, "time") == Text("");
    GivenTexts(kwargs, a);
  }

  /** Attributes copied from string keyword arguments are strings. */
  lemma GivenTexts(kwargs: map<string, Arg>, a: map<string, Arg>)
    requires forall n :: n in kwargs && n in TextNames ==> kwargs[n].Text?
    requires a.Keys == set n | n in FieldNames
    requires forall n :: n in FieldNames && n != "time" ==> a[n] == Given(kwargs, n)
    ensures Complete(a) && TextFields(a)
  {
    GivenText(kwargs, a, 0);
    GivenText(kwargs, a, 1);
    GivenText(kwargs, a, 2);
    GivenText(kwargs, a, 3);
    GivenText(kwargs, a, 4);
    GivenText(kwargs, a, 5);
  }

  /** The `i`-th text attribute is present and a string. */
  lemma GivenText(kwargs: map<string, Arg>, a: map<string, Arg>, i: nat)
    requires forall n :: n in kwargs && n in TextNames ==> kwargs[n].Text?
    requires a.Keys == set n | n in FieldNames
    requires forall n :: n in FieldNames && n != "time" ==> a[n] == Given(kwargs, n)
    requires i < |TextNames|
    ensures TextNames[i] in a && a[TextNames[i]].Text?
  {
    assert TextNames[i] == FieldNames[i];
    assert |FieldNames[i]| != 4;
  }

  /** A trailer, when there is one, is made of `pdfInfo()` and two copies of the digest. */
  lemma TrailerParts(a: map<string, Arg>, sha256: seq<byte> -> string)
    requires Complete(a) && TrailerOf(a, sha256).Ok?
    ensures InfoOf(a).Ok? && HashOf(a, sha256).Ok?
    ensures TrailerOf(a, sha256).value == Tagged(InfoOf(a).value, [HashOf(a, sha256).value, HashOf(a, sha256).value])
  {
  }

  /** Text fields and a datetime with an offset always yield a trailer. */
  lemma TrailerReady(a: map<string, Arg>, sha256: seq<byte> -> string)
    requires Complete(a) && TextFields(a)
    requires a["time"].Stamp? && |a["time"].t.utcOffset| > 0
    ensures TrailerOf(a, sha256).Ok?
  {
    HashInputIsConcatenation(a);
  }

  /** Two identifiers from the same fields and time are equal, and so are the
      two entries of one identifier. */
  lemma IdStable(a1: map<string, Arg>, a2: map<string, Arg>, sha256: seq<byte> -> string)
    requires Complete(a1) && Complete(a2)
    requires forall n :: n in TextNames ==> a1[n] == a2[n]
    requires a1["time"] == a2["time"]
    ensures IdOf(a1, sha256) == IdOf(a2, sha256)
  {
    TextsAgree(a1, a2);
    forall t ensures HashedThings(a1, t) == HashedThings(a2, t) {
    }
  }

  /** Agreement on the text attributes, name by name. */
  lemma TextsAgree(a1: map<string, Arg>, a2: map<string, Arg>)
    requires Complete(a1) && Complete(a2)
    requires forall n :: n in TextNames ==> a1[n] == a2[n]
    ensures a1["title"] == a2["title"] && a1["author"] == a2["author"] && a1["subject"] == a2["subject"]
    ensures a1["keywords"] == a2["keywords"] && a1["creator"] == a2["creator"] && a1["producer"] == a2["producer"]
  {
    assert TextNames[0] == "title" && TextNames[1] == "author" && TextNames[2] == "subject";
    assert TextNames[3] == "keywords" && TextNames[4] == "creator" && TextNames[5] == "producer";
  }

  /** Setting the thumbnail changes neither /Info nor the identifier. */
  lemma TrailerIgnoresThumbnail(a: map<string, Arg>, image: Arg, sha256: seq<byte> -> string)
    requires Complete(a)
    ensures Complete(a["thumbnail" := image])
    ensures TrailerOf(a["thumbnail" := image], sha256) == TrailerOf(a, sha256)
  {
    IdStable(a, a["thumbnail" := image], sha256);
  }

  /** With text attributes and a datetime, the trailer is known outright:
      /Info mirrors the six fields with the PDF date twice, and both identifier
      entries are the digest of the fields and the date run together. */
  lemma TrailerOfTexts(a: map<string, Arg>, sha256: seq<byte> -> string)
    requires Complete(a) && TextFields(a)
    requires FormatPdfTime(a["time"]).Ok?
    ensures var date := FormatPdfTime(a["time"]).value;
            var h := sha256(Utf8(FieldText(a) + date));
            TrailerOf(a, sha256) == Ok(Tagged(InfoDict(a["title"], a["author"], a["subject"], a["keywords"],
                                                       a["creator"], a["producer"], date, date), [h, h]))
  {
    var date := FormatPdfTime(a["time"]).value;
    var h := sha256(Utf8(FieldText(a) + date));
    HashInputIsConcatenation(a);
    assert HashOf(a, sha256) == Ok(h);
    assert IdOf(a, sha256).value == [h, h];
  }

  // ---------------------------------------------------------------------------
  // The object

  class PdfMetadata {
    var attrs: map<string, Arg>

    ghost predicate Valid()
      reads this
    {
      Complete(attrs)
    }

    /** `PDFMetadata(**kwargs)` with the clock reading `now`: the loop sets each of
        the eight attributes from the keyword arguments or to `""`, then an unset
        time becomes `now`. */
    constructor (kwargs: map<string, Arg>, now: DateTime)
      ensures Valid() && HasTime(attrs)
      ensures attrs == InitAttrs(kwargs, now)
    {
      attrs := map[];
      new;
      for i := 0 to |FieldNames|
        invariant forall n :: n in attrs <==> n in FieldNames[..i]
        invariant forall n :: n in attrs ==> attrs[n] == Given(kwargs, n)
      {
        var name := FieldNames[i];
        attrs := attrs[name := if name in kwargs then kwargs[name] else Text("")];
      }
      assert FieldNames[..|FieldNames|] == FieldNames;
      if !HasTime(attrs) {
        attrs := attrs["time" := Stamp(now)];
      }
    }

    /** `metadata.thumbnail = ...` */
    method SetThumbnail(image: Arg)
      requires Valid()
      modifies this
      ensures Valid()
      ensures attrs == old(attrs)["thumbnail" := image]
    {
      attrs := attrs["thumbnail" := image];
    }

    /** `hash()`: feeds the seven values to the digest one after the other. */
    method Hash(sha256: seq<byte> -> string) returns (r: Result<string>)
      requires Valid()
      ensures r == HashOf(attrs, sha256)
    {
      var t := FormatPdfTime(attrs["time"]);
      if t.Err? {
        return Err(t.error);
      }
      var things := HashedThings(attrs, t.value);
      var fed: seq<byte> := [];
      for i := 0 to |things|
        invariant HashFeed(things[..i]) == Ok(fed)
      {
        var bytes := Encode(things[i]);
        if bytes.Err? {
          HashFeedStopsAtError(things, i);
          return Err(bytes.error);
        }
        assert things[..i + 1][..i] == things[..i];
        fed := fed + bytes.value;
      }
      assert things[..|things|] == things;
      r := Ok(sha256(fed));
    }
  }

  /** The first value that cannot be encoded decides the outcome of the whole loop. */
  lemma {:induction false} HashFeedStopsAtError(things: seq<Arg>, i: nat)
    requires i < |things| && HashFeed(things[..i]).Ok? && Encode(things[i]).Err?
    ensures HashFeed(things) == Err(Encode(things[i]).error)
    decreases |things|
  {
    if |things| == i + 1 {
      assert things[..|things| - 1] == things[..i];
    } else {
      var init := things[..|things| - 1];
      assert init[..i] == things[..i];
      HashFeedStopsAtError(init, i);
    }
  }
}
