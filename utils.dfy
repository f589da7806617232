/** The ingestion helpers: MIME type to extension, loader dispatch, the
    save-load-chunk pipeline that never raises, temp-file suffix
    normalisation, slide metadata defaults and the PDF page fold.

    MIME sniffing, the document loaders, the text splitter and the temp-file
    write are external; their outcomes are inputs here (`Ingestion`). */
module Utils {
  import opened Results
  import opened PyText
  import opened SlideSchema

  // ---------------------------------------------------------------------
  // SUPPORTED_FILE_TYPES and get_file_extension

  const PlainTextMime: string := "text/plain"

  /** `SUPPORTED_FILE_TYPES`: the eight accepted MIME types and their extensions. */
  const SupportedFileTypes: map<string, string> := map[
    "application/pdf" := ".pdf",
    "application/vnd.openxmlformats-officedocument.wordprocessingml.document" := ".docx",
    "application/vnd.openxmlformats-officedocument.presentationml.presentation" := ".pptx",
    "application/vnd.openxmlformats-officedocument.spreadsheetml.sheet" := ".xlsx",
    "application/msword" := ".doc",
    "application/vnd.ms-powerpoint" := ".ppt",
    "application/vnd.ms-excel" := ".xls",
    PlainTextMime := ".txt"
  ]

  /** `get_file_extension` once the MIME type is known: the table entry, or
      `None` for a type the table does not list. */
  function GetFileExtension(mime: string): (r: Option<string>)
    ensures r.Some? <==> mime in SupportedFileTypes
  {
    if mime in SupportedFileTypes then Some(SupportedFileTypes[mime]) else None
  }

  /** The table, entry by entry, and `None` for every other MIME type. */
  lemma GetFileExtensionCases(mime: string)
    ensures GetFileExtension(mime) ==
      if mime == "application/pdf" then Some(".pdf")
      else if mime == "application/vnd.openxmlformats-officedocument.wordprocessingml.document" then Some(".docx")
      else if mime == "application/vnd.openxmlformats-officedocument.presentationml.presentation" then Some(".pptx")
      else if mime == "application/vnd.openxmlformats-officedocument.spreadsheetml.sheet" then Some(".xlsx")
      else if mime == "application/msword" then Some(".doc")
      else if mime == "application/vnd.ms-powerpoint" then Some(".ppt")
      else if mime == "application/vnd.ms-excel" then Some(".xls")
      else if mime == "text/plain" then Some(".txt")
      else None
  {
  }

  // ---------------------------------------------------------------------
  // load_document

  datatype Loader = PdfLoader | WordLoader | PowerPointLoader | ExcelLoader

  /** The extensions each loader is chosen for. */
  function LoaderExtensions(l: Loader): set<string> {
    match l
    case PdfLoader => {".pdf"}
    case WordLoader => {".docx", ".doc"}
    case PowerPointLoader => {".pptx", ".ppt"}
    case ExcelLoader => {".xlsx", ".xls"}
  }

  /** The `if/elif` chain of `load_document`: `None` is its final `else`,
      which raises "No loader available". */
  function LoaderFor(ext: string): (r: Option<Loader>)
    ensures forall l :: r == Some(l) <==> ext in LoaderExtensions(l)
  {
    if ext == ".pdf" then Some(PdfLoader)
    else if ext in [".docx", ".doc"] then Some(WordLoader)
    else if ext in [".pptx", ".ppt"] then Some(PowerPointLoader)
    else if ext in [".xlsx", ".xls"] then Some(ExcelLoader)
    else None
  }

  /** The loader `load_document` picks for a sniffed MIME type, if any. */
  function MimeLoader(mime: string): Option<Loader> {
    match GetFileExtension(mime)
    case None => None
    case Some(ext) => LoaderFor(ext)
  }

  /** Every listed MIME type has a loader except `text/plain`, whose `.txt`
      falls through to the final `else`. */
  lemma MimeLoaderIff(mime: string)
    ensures MimeLoader(mime).Some? <==> mime in SupportedFileTypes && mime != PlainTextMime
  {
    GetFileExtensionCases(mime);
  }

  /** Why `load_document` raised. */
  datatype LoadError =
    | SniffFailed                      // the MIME detector itself raised
    | UnsupportedFileType(mime: string)
    | NoLoaderAvailable(ext: string)
    | LoaderRaised(loader: Loader)

  /** `load_document`: sniff (given), look the extension up, pick a loader and
      run it. `load(l)` is what loader `l` returns, `None` when it raises. */
  function LoadDocument(mime: Option<string>, load: Loader -> Option<seq<Document>>): (r: Result<seq<Document>, LoadError>)
    ensures mime.Some? && mime.value !in SupportedFileTypes ==> r == Err(UnsupportedFileType(mime.value))
    ensures r.Ok? <==> mime.Some? && MimeLoader(mime.value).Some? && load(MimeLoader(mime.value).value).Some?
    ensures r.Ok? ==> r.value == load(MimeLoader(mime.value).value).value
  {
    match mime
    case None => Err(SniffFailed)
    case Some(m) =>
      match GetFileExtension(m)
      case None => Err(UnsupportedFileType(m))
      case Some(ext) =>
        match LoaderFor(ext)
        case None => Err(NoLoaderAvailable(ext))
        case Some(l) =>
          match load(l)
          case None => Err(LoaderRaised(l))
          case Some(docs) => Ok(docs)
  }

  /** A `text/plain` upload is supported by the table yet can never load,
      whatever the loaders would do. */
  lemma PlainTextNeverLoads(load: Loader -> Option<seq<Document>>)
    ensures GetFileExtension(PlainTextMime) == Some(".txt")
    ensures LoadDocument(Some(PlainTextMime), load) == Err(NoLoaderAvailable(".txt"))
  {
  }

  // ---------------------------------------------------------------------
  // save_upload_file (suffix rule) and process_uploaded_file

  /** The suffix rule of `save_upload_file`: `"." + suffix.lstrip(".")`, or `""`
      for an empty suffix. A non-empty result is one dot followed by the
      suffix with all its leading dots removed. */
  function NormaliseSuffix(suffix: string): (r: string)
    ensures r == "" <==> suffix == ""
    ensures r != "" ==> r[0] == '.' && (|r| > 1 ==> r[1] != '.')
    ensures r != "" ==> |r| <= |suffix| + 1 && r[1..] == suffix[|suffix| - (|r| - 1)..]
    ensures r != "" ==> forall j :: 0 <= j < |suffix| - (|r| - 1) ==> suffix[j] == '.'
  {
    if suffix == "" then ""
    else
      LStripBySuffix(suffix, IsDot);
      "." + LStripBy(suffix, IsDot)
  }

  /** A suffix that is one dot and then no dot is its own normal form. */
  lemma NormalisedSuffixFixed(suffix: string)
    requires |suffix| >= 1 && suffix[0] == '.' && (|suffix| > 1 ==> suffix[1] != '.')
    ensures NormaliseSuffix(suffix) == suffix
  {
    assert LStripBy(suffix[1..], IsDot) == suffix[1..];
  }

  /** Normalising a normalised suffix changes nothing. */
  lemma NormaliseSuffixIdempotent(suffix: string)
    ensures NormaliseSuffix(NormaliseSuffix(suffix)) == NormaliseSuffix(suffix)
  {
    if suffix != "" {
      NormalisedSuffixFixed(NormaliseSuffix(suffix));
    }
  }

  /** What the collaborators of `process_uploaded_file` do with one upload. */
  datatype Ingestion = Ingestion(
    saved: bool,                                    // `save_upload_file` wrote the temp file
    mime: Option<string>,                           // the sniffed type; `None` if sniffing raised
    load: Loader -> Option<seq<Document>>,          // each loader's result; `None` if it raises
    split: seq<Document> -> Option<seq<Document>>)  // `chunk_documents`; `None` if it raises

  /** `process_uploaded_file`: save, load, chunk. It never raises; every
      failure, and an empty load or chunking, gives `[]`. */
  function ProcessUploadedFile(ing: Ingestion): (r: seq<Document>)
    ensures r != [] <==>
      && ing.saved
      && LoadDocument(ing.mime, ing.load).Ok?
      && LoadDocument(ing.mime, ing.load).value != []
      && ing.split(LoadDocument(ing.mime, ing.load).value).Some?
      && ing.split(LoadDocument(ing.mime, ing.load).value).value != []
    ensures r != [] ==> r == ing.split(LoadDocument(ing.mime, ing.load).value).value
  {
    if !ing.saved then []
    else
      match LoadDocument(ing.mime, ing.load)
      case Err(_) => []
      case Ok(documents) =>
        if documents == [] then []
        else
          match ing.split(documents)
          case None => []
          case Some(chunks) => chunks
  }

  // ---------------------------------------------------------------------
  // generate_slide_metadata

  /** An attribute value as Python sees it. */
  datatype PyValue = PyNone | PyStr(s: string)

  /** The argument of `generate_slide_metadata`: an object with attributes, or
      a dictionary (what its type hint announces). */
  datatype SlideArg =
    | SlideObject(attrs: map<string, PyValue>)
    | SlideDict(entries: map<string, PyValue>)

  datatype SlideMetadata = SlideMetadata(
    slideName: PyValue,
    courseName: PyValue,
    subjectName: PyValue,
    description: string,
    createdAt: string,
    updatedAt: string)

  /** `getattr(slide, name, '')`. A dictionary's keys are not attributes, so
      for a dictionary this is always the default. */
  function GetAttr(slide: SlideArg, name: string): PyValue {
    match slide
    case SlideObject(attrs) => if name in attrs then attrs[name] else PyStr("")
    case SlideDict(_) => PyStr("")
  }

  /** `v or ""` for an attribute value: `None` and `''` both become `""`. */
  function OrEmpty(v: PyValue): string {
    match v
    case PyNone => ""
    case PyStr(s) => s
  }

  /** `generate_slide_metadata`, with `datetime.utcnow().isoformat()` given as `now`. */
  function GenerateSlideMetadata(slide: Option<SlideArg>, now: string): (m: SlideMetadata)
    ensures m.createdAt == now && m.updatedAt == now
    ensures slide.None? ==>
      m.slideName == PyStr("") && m.courseName == PyStr("") && m.subjectName == PyStr("") && m.description == ""
  {
    match slide
    case None => SlideMetadata(PyStr(""), PyStr(""), PyStr(""), "", now, now)
    case Some(s) =>
      SlideMetadata(GetAttr(s, "slide_name"), GetAttr(s, "course_name"), GetAttr(s, "subject_name"),
                    OrEmpty(GetAttr(s, "description")), now, now)
  }

  /** The attributes a `SlideCreate` object carries. */
  function SlideAttrs(b: SlideCreate): map<string, PyValue> {
    map[
      "slide_name" := PyStr(b.slideName),
      "course_name" := PyStr(b.courseName),
      "subject_name" := PyStr(b.subjectName),
      "description" := match b.description case None => PyNone case Some(d) => PyStr(d)]
  }

  /** Metadata of a slide object copies its three names and maps a missing
      description to `""`. */
  lemma MetadataOfSlide(b: SlideCreate, now: string)
    ensures GenerateSlideMetadata(Some(SlideObject(SlideAttrs(b))), now) ==
      SlideMetadata(PyStr(b.slideName), PyStr(b.courseName), PyStr(b.subjectName),
                    b.description.GetOr(""), now, now)
  {
  }

  /** For any object, each name is the attribute when it is present and `''`
      when it is missing; the description is additionally mapped through `or ""`. */
  lemma MetadataOfObject(attrs: map<string, PyValue>, now: string)
    ensures var m := GenerateSlideMetadata(Some(SlideObject(attrs)), now);
      && m.slideName == (if "slide_name" in attrs then attrs["slide_name"] else PyStr(""))
      && m.courseName == (if "course_name" in attrs then attrs["course_name"] else PyStr(""))
      && m.subjectName == (if "subject_name" in attrs then attrs["subject_name"] else PyStr(""))
      && m.description == (if "description" in attrs then OrEmpty(attrs["description"]) else "")
  {
  }

  /** A dictionary with a slide name still yields an empty name. */
  lemma DictArgumentIgnored(now: string)
    ensures GenerateSlideMetadata(Some(SlideDict(map["slide_name" := PyStr("Intro")])), now).slideName == PyStr("")
  {
  }

  /** Reading a dictionary's keys the way `getattr` reads an object's attributes. */
  function GetField(slide: SlideArg, name: string): PyValue {
    match slide
    case SlideObject(attrs) => if name in attrs then attrs[name] else PyStr("")
    case SlideDict(entries) => if name in entries then entries[name] else PyStr("")
  }

  /** `generate_slide_metadata` as its `Optional[dict]` signature intends:
      the same on objects, and for a dictionary its entries are used. */
  function GenerateSlideMetadataFixed(slide: Option<SlideArg>, now: string): (m: SlideMetadata)
    ensures m.createdAt == now && m.updatedAt == now
    ensures slide.Some? && slide.value.SlideObject? ==> m == GenerateSlideMetadata(slide, now)
    ensures slide.None? ==> m == GenerateSlideMetadata(slide, now)
    ensures slide.Some? && slide.value.SlideDict? ==>
      var e := slide.value.entries;
      && ("slide_name" in e ==> m.slideName == e["slide_name"])
      && ("course_name" in e ==> m.courseName == e["course_name"])
      && ("subject_name" in e ==> m.subjectName == e["subject_name"])
      && ("description" in e ==> m.description == OrEmpty(e["description"]))
  {
    match slide
    case None => SlideMetadata(PyStr(""), PyStr(""), PyStr(""), "", now, now)
    case Some(s) =>
      SlideMetadata(GetField(s, "slide_name"), GetField(s, "course_name"), GetField(s, "subject_name"),
                    OrEmpty(GetField(s, "description")), now, now)
  }

  // ---------------------------------------------------------------------
  // extract_text_from_pdf

  /** The text of the pages, each followed by a newline, in page order. */
  function PagesText(pages: seq<string>): string {
    if pages == [] then "" else PagesText(pages[..|pages| - 1]) + pages[|pages| - 1] + "\n"
  }

  function TotalLength(pages: seq<string>): nat {
    if pages == [] then 0 else TotalLength(pages[..|pages| - 1]) + |pages[|pages| - 1]|
  }

  /** `extract_text_from_pdf` over the pages' extracted texts. */
  method ExtractTextFromPdf(pages: seq<string>) returns (text: string)
    ensures text == PagesText(pages)
  {
    text := "";
    var i := 0;
    while i < |pages|
      invariant 0 <= i <= |pages|
      invariant text == PagesText(pages[..i])
    {
      assert pages[..i + 1][..i] == pages[..i];
      text := text + pages[i] + "\n";
      i := i + 1;
    }
    assert pages[..|pages|] == pages;
  }

  /** One newline per page on top of the pages' own lengths. */
  lemma {:induction false} PagesTextLength(pages: seq<string>)
    ensures |PagesText(pages)| == TotalLength(pages) + |pages|
  {
    if pages != [] {
      PagesTextLength(pages[..|pages| - 1]);
    }
  }

  /** The fold distributes over concatenation of page lists. */
  lemma {:induction false} PagesTextAppend(a: seq<string>, b: seq<string>)
    ensures PagesText(a + b) == PagesText(a) + PagesText(b)
  {
    if b != [] {
      var b' := b[..|b| - 1];
      assert (a + b)[..|a + b| - 1] == a + b';
      PagesTextAppend(a, b');
    } else {
      assert a + b == a;
    }
  }

  /** Page `k` sits in the text right after the earlier pages, followed by a newline. */
  lemma PageAt(pages: seq<string>, k: nat)
    requires k < |pages|
    ensures var off := |PagesText(pages[..k])|;
      && off + |pages[k]| < |PagesText(pages)|
      && PagesText(pages)[off..off + |pages[k]|] == pages[k]
      && PagesText(pages)[off + |pages[k]|] == '\n'
  {
    var before, rest := pages[..k], pages[k + 1..];
    assert pages == before + [pages[k]] + rest;
    PagesTextAppend(before + [pages[k]], rest);
    PagesTextAppend(before, [pages[k]]);
    assert PagesText([pages[k]]) == pages[k] + "\n" by {
      assert [pages[k]][..0] == [];
    }
  }
}
