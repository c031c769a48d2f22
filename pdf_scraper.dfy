/**
 * `src/tools/pdf_scraper.py`: building the record of one local PDF.
 *
 * pdfplumber, the file system and the regular-expression engine are inputs: whether the path
 * exists, what opening the PDF yields (the text of each page, or the exception's message),
 * where each of the three section patterns matched in the lower-cased text (the span of its
 * first group), and whether writing the persisted JSON succeeded.
 */
module PdfScraper {
  import opened Wrappers
  import opened Text
  import opened JsonValues
  import opened Paths
  import Utils

  const ProcessedDataDir: string := "data/papers/processed"
  const FallbackWordCount: nat := 150
  const ErrorPrefix: string := "Error processing PDF: "
  /** The message of the `IndexError` that `full_text_list[0]` raises for a PDF without pages. */
  const NoPagesMessage: string := "list index out of range"

  /** Where `match.group(1)` lies in the searched text: `text[start..end]`. */
  datatype Span = Span(start: nat, end: nat)

  /** The results of `ABSTRACT_REGEX`, `INTRO_REGEX` and `CONCLUSION_REGEX` on the lowered text. */
  datatype SectionMatches = SectionMatches(abstractMatch: Option<Span>, introMatch: Option<Span>, conclusionMatch: Option<Span>)

  /** `pdfplumber.open(path)`: each page's `extract_text()` (which may be `None`), or the error raised. */
  datatype PdfOpen = OpenFailed(message: string) | Opened(pages: seq<Option<string>>)

  datatype WriteOutcome = Written | WriteFailed(message: string)

  /** A JSON file written by the scraper. */
  datatype PersistedFile = PersistedFile(path: string, record: Record)

  /** The regex engine only reports groups that lie inside the searched text. */
  predicate SpanFits(m: Option<Span>, n: nat) {
    m.Some? ==> m.value.start <= m.value.end <= n
  }

  predicate MatchesFit(matches: SectionMatches, n: nat) {
    SpanFits(matches.abstractMatch, n) && SpanFits(matches.introMatch, n) && SpanFits(matches.conclusionMatch, n)
  }

  /** `s.split('\n')[0]`. */
  function FirstLine(s: string): (r: string)
    ensures '\n' !in r && StartsWith(s, r)
    ensures |r| == |s| || s[|r|] == '\n'
  {
    if s == "" || s[0] == '\n' then "" else [s[0]] + FirstLine(s[1..])
  }

  /** The record before the file is opened. */
  function DefaultRecord(path: string): Record {
    map["path" := JStr(path), "title" := JStr(Basename(path)), "abstract" := JStr(""),
        "introduction" := JStr(""), "conclusion" := JStr(""), "full_text" := JStr(""),
        "source" := JStr("pdf_paper")]
  }

  /** `[page.extract_text() or "" for page in pdf.pages]`. */
  function PageTexts(pages: seq<Option<string>>): seq<string> {
    seq(|pages|, i requires 0 <= i < |pages| => match pages[i] { case Some(t) => t case None => "" })
  }

  /** `"\n".join(full_text_list)`. */
  function FullText(pages: seq<Option<string>>): string {
    JoinWith("\n", PageTexts(pages))
  }

  /**
   * `safe_search`: no match gives `""`; a match gives its group with surrounding whitespace
   * stripped and inner whitespace collapsed to single spaces.
   */
  function SafeSearch(text: string, m: Option<Span>): (r: string)
    requires SpanFits(m, |text|)
    ensures m.None? ==> r == ""
    ensures IsNormalized(r)
    ensures IsLowerCase(text) ==> IsLowerCase(r)
    ensures m.Some? ==> Words(r) == Words(text[m.value.start..m.value.end])
  {
    match m
    case None => ""
    case Some(sp) =>
      var g := Strip(text[sp.start..sp.end]);
      NormalizeSpaceNormalized(g);
      NormalizeSpaceIdempotent(g);
      WordsStrip(text[sp.start..sp.end]);
      GroupLowerCase(text, sp);
      JoinWith(" ", Words(g))
  }

  lemma GroupLowerCase(text: string, sp: Span)
    requires sp.start <= sp.end <= |text|
    ensures IsLowerCase(text) ==> IsLowerCase(NormalizeSpace(Strip(text[sp.start..sp.end])))
  {
    if IsLowerCase(text) {
      var g := text[sp.start..sp.end];
      assert IsLowerCase(g);
      assert IsLowerCase(DropSpaces(g));
      NormalizeSpaceLowerCase(Strip(g));
    }
  }

  /** `" ".join(full_text.split()[:150])`. */
  function FallbackAbstract(fullText: string): string {
    JoinWith(" ", Take(Words(fullText), FallbackWordCount))
  }

  /** The abstract: the abstract match if it is non-empty, else the first 150 words. */
  function AbstractText(fullText: string, m: Option<Span>): string
    requires SpanFits(m, |fullText|)
  {
    var found := SafeSearch(Lower(fullText), m);
    if found == "" then FallbackAbstract(fullText) else found
  }

  /** `os.path.basename(path).replace(".pdf", "").replace(" ", "_").lower()`. */
  function DocId(path: string): string {
    Lower(ReplaceAll(ReplaceAll(Basename(path), ".pdf", ""), " ", "_"))
  }

  function OutputPath(path: string): string {
    JoinPath(ProcessedDataDir, DocId(path) + Utils.ProcessedSuffix)
  }

  /** The values extracted from a PDF whose pages were read. */
  datatype Sections = Sections(title: string, foundAbstract: string, abstractText: string,
                               introduction: string, conclusion: string, fullText: string)

  function ExtractSections(pages: seq<Option<string>>, matches: SectionMatches): Sections
    requires pages != [] && MatchesFit(matches, |FullText(pages)|)
  {
    var fullText := FullText(pages);
    var lowered := Lower(fullText);
    Sections(Strip(FirstLine(PageTexts(pages)[0])), SafeSearch(lowered, matches.abstractMatch),
             AbstractText(fullText, matches.abstractMatch), SafeSearch(lowered, matches.introMatch),
             SafeSearch(lowered, matches.conclusionMatch), NormalizeSpace(fullText))
  }

  /** The record of a PDF whose pages were read, before any write error is recorded. */
  function SectionRecord(path: string, secs: Sections): Record {
    DefaultRecord(path)["title" := JStr(secs.title)]["abstract" := JStr(secs.abstractText)]
                       ["introduction" := JStr(secs.introduction)]["conclusion" := JStr(secs.conclusion)]
                       ["full_text" := JStr(secs.fullText)]
  }

  /** What is written to disk: the record without `full_text`. */
  function PersistedRecord(r: Record): (p: Record)
    ensures p.Keys == r.Keys - {"full_text"}
    ensures forall k :: k in p ==> p[k] == r[k]
  {
    map k | k in r && k != "full_text" :: r[k]
  }

  /** `extract_pdf_sections(path)`: the returned record and the JSON file written, if any. */
  method ExtractPdfSections(path: string, exists_: bool, pdf: PdfOpen, matches: SectionMatches, write: WriteOutcome)
    returns (record: Record, persisted: Option<PersistedFile>)
    requires pdf.Opened? ==> MatchesFit(matches, |FullText(pdf.pages)|)
    ensures !exists_ ==> record == DefaultRecord(path)["error" := JStr("File not found.")] && persisted == None
    ensures exists_ && pdf.OpenFailed? ==>
      record == DefaultRecord(path)["error" := JStr(ErrorPrefix + pdf.message)] && persisted == None
    ensures exists_ && pdf.Opened? && pdf.pages == [] ==>
      record == DefaultRecord(path)["error" := JStr(ErrorPrefix + NoPagesMessage)] && persisted == None
    ensures exists_ && pdf.Opened? && pdf.pages != [] && write == Written ==>
      record == SectionRecord(path, ExtractSections(pdf.pages, matches))
      && persisted == Some(PersistedFile(OutputPath(path), PersistedRecord(record)))
    ensures exists_ && pdf.Opened? && pdf.pages != [] && write.WriteFailed? ==>
      record == SectionRecord(path, ExtractSections(pdf.pages, matches))["error" := JStr(ErrorPrefix + write.message)]
      && persisted == None
  {
    var metadata := DefaultRecord(path);
    persisted := None;
    if !exists_ {
      metadata := metadata["error" := JStr("File not found.")];
      return metadata, None;
    }
    match pdf {
      case OpenFailed(message) =>
        metadata := metadata["error" := JStr(ErrorPrefix + message)];
        return metadata, None;
      case Opened(pages) =>
        var fullTextList := PageTexts(pages);
        var fullText := JoinWith("\n", fullTextList);
        if |fullTextList| == 0 {
          metadata := metadata["error" := JStr(ErrorPrefix + NoPagesMessage)];
          return metadata, None;
        }
        var secs := ExtractSections(pages, matches);
        metadata := metadata["title" := JStr(secs.title)];
        metadata := metadata["abstract" := JStr(secs.foundAbstract)];
        metadata := metadata["introduction" := JStr(secs.introduction)];
        metadata := metadata["conclusion" := JStr(secs.conclusion)];
        SectionsAbstractChoice(pages, matches);
        AbstractLookup(DefaultRecord(path)["title" := JStr(secs.title)], JStr(secs.foundAbstract),
          JStr(secs.introduction), JStr(secs.conclusion));
        if metadata["abstract"] == JStr("") {
          metadata := metadata["abstract" := JStr(FallbackAbstract(fullText))];
        }
        metadata := metadata["full_text" := JStr(secs.fullText)];
        SectionRecordSteps(path, secs, FallbackAbstract(fullText));
        var outputPath := JoinPath(ProcessedDataDir, DocId(path) + Utils.ProcessedSuffix);
        match write {
          case Written =>
            persisted := Some(PersistedFile(outputPath, PersistedRecord(metadata)));
          case WriteFailed(message) =>
            metadata := metadata["error" := JStr(ErrorPrefix + message)];
        }
        record := metadata;
    }
  }

  lemma SectionsAbstractChoice(pages: seq<Option<string>>, matches: SectionMatches)
    requires pages != [] && MatchesFit(matches, |FullText(pages)|)
    ensures var secs := ExtractSections(pages, matches);
      secs.abstractText == if secs.foundAbstract == "" then FallbackAbstract(FullText(pages)) else secs.foundAbstract
  {
  }

  lemma SectionRecordSteps(path: string, secs: Sections, fallback: string)
    requires secs.abstractText == if secs.foundAbstract == "" then fallback else secs.foundAbstract
    ensures var m := DefaultRecord(path)["title" := JStr(secs.title)]["abstract" := JStr(secs.foundAbstract)]
                       ["introduction" := JStr(secs.introduction)]["conclusion" := JStr(secs.conclusion)];
      && (secs.foundAbstract == "" ==>
            m["abstract" := JStr(fallback)]["full_text" := JStr(secs.fullText)] == SectionRecord(path, secs))
      && (secs.foundAbstract != "" ==> m["full_text" := JStr(secs.fullText)] == SectionRecord(path, secs))
  {
  }

  lemma AbstractLookup(m: Record, a: Json, i: Json, c: Json)
    ensures m["abstract" := a]["introduction" := i]["conclusion" := c]["abstract"] == a
  {
  }

  /* ---------------- properties ---------------- */

  /** Before the file is opened: empty sections, `source = "pdf_paper"`, `title = basename(path)`. */
  lemma DefaultRecordShape(path: string)
    ensures DefaultRecord(path).Keys == {"path", "title", "abstract", "introduction", "conclusion", "full_text", "source"}
    ensures DefaultRecord(path)["title"] == JStr(Basename(path)) && '/' !in Basename(path)
    ensures DefaultRecord(path)["source"] == JStr("pdf_paper")
    ensures forall k :: k in {"abstract", "introduction", "conclusion", "full_text"} ==> DefaultRecord(path)[k] == JStr("")
  {
  }

  lemma TakeAllWords(ws: seq<string>, n: nat)
    requires AllWords(ws)
    ensures AllWords(Take(ws, n))
  {
  }

  /** The fallback abstract is exactly the first min(150, n) words of the full text. */
  lemma FallbackAbstractWords(fullText: string)
    ensures Words(FallbackAbstract(fullText)) == Take(Words(fullText), FallbackWordCount)
    ensures |Words(FallbackAbstract(fullText))| <= FallbackWordCount
    ensures IsNormalized(FallbackAbstract(fullText))
  {
    WordsAreWords(fullText);
    TakeAllWords(Words(fullText), FallbackWordCount);
    WordsOfJoinedWords(Take(Words(fullText), FallbackWordCount));
    JoinedWordsNormalized(Take(Words(fullText), FallbackWordCount));
  }

  /** A non-empty abstract match is kept as found: lower case and in whitespace normal form. */
  lemma AbstractFound(fullText: string, m: Option<Span>)
    requires SpanFits(m, |fullText|)
    ensures SafeSearch(Lower(fullText), m) != "" ==>
      AbstractText(fullText, m) == SafeSearch(Lower(fullText), m) && IsLowerCase(AbstractText(fullText, m))
  {
  }

  /** A missing or empty abstract match falls back to the first at most 150 words of the full text. */
  lemma AbstractFallback(fullText: string, m: Option<Span>)
    requires SpanFits(m, |fullText|)
    ensures SafeSearch(Lower(fullText), m) == "" ==>
      Words(AbstractText(fullText, m)) == Take(Words(fullText), FallbackWordCount)
      && |Words(AbstractText(fullText, m))| <= FallbackWordCount
  {
    FallbackAbstractWords(fullText);
  }

  /** Either way the abstract is in whitespace normal form. */
  lemma AbstractNormalized(fullText: string, m: Option<Span>)
    requires SpanFits(m, |fullText|)
    ensures IsNormalized(AbstractText(fullText, m))
  {
    var found := SafeSearch(Lower(fullText), m);
    assert IsNormalized(found);
    FallbackAbstractWords(fullText);
  }

  /**
   * Introduction and conclusion are lower case, in normal form, empty when their pattern did
   * not match, and otherwise carry exactly the words of the matched group of the lowered text.
   */
  lemma SectionsFound(pages: seq<Option<string>>, matches: SectionMatches)
    requires pages != [] && MatchesFit(matches, |FullText(pages)|)
    ensures var secs := ExtractSections(pages, matches);
      && IsLowerCase(secs.introduction) && IsNormalized(secs.introduction)
      && IsLowerCase(secs.conclusion) && IsNormalized(secs.conclusion)
      && (matches.introMatch.None? ==> secs.introduction == "")
      && (matches.conclusionMatch.None? ==> secs.conclusion == "")
    ensures var secs := ExtractSections(pages, matches);
      var lowered := Lower(FullText(pages));
      && (matches.introMatch.Some? ==>
        Words(secs.introduction) == Words(lowered[matches.introMatch.value.start..matches.introMatch.value.end]))
      && (matches.conclusionMatch.Some? ==>
        Words(secs.conclusion) == Words(lowered[matches.conclusionMatch.value.start..matches.conclusionMatch.value.end]))
  {
  }

  /** `full_text` keeps the words of the pages' text, joined by single spaces. */
  lemma SectionsFullText(pages: seq<Option<string>>, matches: SectionMatches)
    requires pages != [] && MatchesFit(matches, |FullText(pages)|)
    ensures IsNormalized(ExtractSections(pages, matches).fullText)
    ensures Words(ExtractSections(pages, matches).fullText) == Words(FullText(pages))
  {
    NormalizeSpaceNormalized(FullText(pages));
    NormalizeSpaceIdempotent(FullText(pages));
  }

  /** The title is the stripped first line of the first page. */
  lemma SectionsTitle(pages: seq<Option<string>>, matches: SectionMatches)
    requires pages != [] && MatchesFit(matches, |FullText(pages)|)
    ensures var title := ExtractSections(pages, matches).title;
      '\n' !in title && (title == "" || (!IsSpace(title[0]) && !IsSpace(title[|title| - 1])))
  {
    StripKeepsAbsent(FirstLine(PageTexts(pages)[0]), '\n');
  }

  /** The record's keys, and the fields set from the path and the source kind. */
  lemma SectionRecordShape(path: string, secs: Sections)
    ensures SectionRecord(path, secs).Keys
         == {"path", "title", "abstract", "introduction", "conclusion", "full_text", "source"}
    ensures SectionRecord(path, secs)["path"] == JStr(path)
    ensures SectionRecord(path, secs)["source"] == JStr("pdf_paper")
    ensures SectionRecord(path, secs)["title"] == JStr(secs.title)
    ensures SectionRecord(path, secs)["abstract"] == JStr(secs.abstractText)
    ensures SectionRecord(path, secs)["full_text"] == JStr(secs.fullText)
  {
  }

  /** The characters of `doc_id`: lower case, no space and no `/`. */
  lemma DocIdChars(path: string)
    ensures IsLowerCase(DocId(path)) && ' ' !in DocId(path) && '/' !in DocId(path)
  {
    var x := ReplaceAll(Basename(path), ".pdf", "");
    var y := ReplaceAll(x, " ", "_");
    assert ' ' !in y;
    assert '/' !in x;
    assert '/' !in y;
    LowerKeepsAbsent(y, ' ');
    LowerKeepsAbsent(y, '/');
  }

  /** `doc_id` is lower case, has no space and no `/`, and names a file the loader will consider. */
  lemma DocIdShape(path: string)
    ensures IsLowerCase(DocId(path)) && ' ' !in DocId(path) && '/' !in DocId(path)
    ensures OutputPath(path) == ProcessedDataDir + "/" + DocId(path) + Utils.ProcessedSuffix
    ensures EndsWith(DocId(path) + Utils.ProcessedSuffix, Utils.ProcessedSuffix)
  {
    DocIdChars(path);
    RelativeOutputName(DocId(path));
    EndsWithAppend(DocId(path), Utils.ProcessedSuffix);
  }

  /** A name without `/` followed by the processed suffix is a relative path. */
  lemma RelativeOutputName(id: string)
    requires '/' !in id
    ensures !StartsWith(id + Utils.ProcessedSuffix, "/")
  {
    var name := id + Utils.ProcessedSuffix;
    assert name[0] == if id == "" then Utils.ProcessedSuffix[0] else id[0];
  }

  /**
   * The persisted copy has neither `text` nor `full_text`, so the loader skips it whatever the
   * file's name: the PDF's content never reaches the chunker through this file.
   */
  lemma PersistedRecordSkippedByLoader(path: string, secs: Sections, name: string)
    ensures var p := PersistedRecord(SectionRecord(path, secs));
      && "text" !in p && "full_text" !in p
      && !Utils.HasText(p)
      && Utils.LoadedFrom(Utils.DirEntry(name, Utils.Decoded(Utils.JsonObject(p)))) == None
  {
    SectionRecordShape(path, secs);
  }
}
