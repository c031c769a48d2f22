/**
 * `src/tools/web_crawler.py`: the record `fetch_page_text` builds for one URL.
 *
 * The HTTP request, BeautifulSoup's parse and its `decompose` of script/style/nav/footer/header/
 * aside/form are inputs: either the request's error message, or the response body together
 * with what the cleaned tree yields (the `<title>` string, the text nodes of every
 * p/li/h1/h2/h3/blockquote element, the text nodes of `<body>`). `datetime.now().isoformat()`
 * and `hash(url)` are parameters, and so is the outcome of each file write.
 */
module WebCrawler {
  import opened Wrappers
  import opened Text
  import opened JsonValues
  import opened Paths
  import Utils

  const RawDataDir: string := "data/raw_web"
  const SourceKind: string := "web_page"
  const TitleLimit: nat := 50
  const HashLimit: nat := 8
  const RawSuffix: string := "_raw.html"
  const FetchFailedPrefix: string := "Failed to fetch: "
  const UnexpectedPrefix: string := "Unexpected error: "
  /** The message of the `ValueError` that `urlsplit` raises for an unbalanced IPv6 bracket. */
  const InvalidIPv6Message: string := "Invalid IPv6 URL"

  /** A tag of the cleaned tree, as the sequence of its text nodes in document order. */
  datatype Element = Element(strings: seq<string>)

  /**
   * What the cleaned tree offers: `soup.title.string` (None without a `<title>`, or when the
   * title holds no single string), the elements `find_all` returns, and `soup.body`.
   */
  datatype ParsedPage = ParsedPage(titleString: Option<string>, elements: seq<Element>, body: Option<Element>)

  /** `requests.get(...)` followed by `raise_for_status()`. */
  datatype HttpOutcome = RequestFailed(message: string) | Fetched(html: string, page: ParsedPage)

  datatype WriteOutcome = Written | WriteFailed(message: string)

  /** A file written under `data/raw_web`. */
  datatype WebFile = RawHtml(path: string, html: string) | ProcessedJson(path: string, record: Record)

  /** The returned dictionary and the files written, in order. */
  datatype FetchOutcome = FetchOutcome(record: Record, files: seq<WebFile>)

  /* ---------------- urlparse(url).netloc ---------------- */

  /** `_WHATWG_C0_CONTROL_OR_SPACE`: what `urlsplit` strips from the front of the URL. */
  predicate IsC0ControlOrSpace(c: char) {
    c <= ' '
  }

  /** `_UNSAFE_URL_BYTES_TO_REMOVE`: what `urlsplit` deletes everywhere. */
  predicate IsUnsafeUrlChar(c: char) {
    c == '\t' || c == '\r' || c == '\n'
  }

  predicate IsAsciiLetter(c: char) {
    ('a' <= c <= 'z') || ('A' <= c <= 'Z')
  }

  /** `scheme_chars`: ASCII letters, digits, `+`, `-` and `.`. */
  predicate IsSchemeChar(c: char) {
    IsAsciiLetter(c) || ('0' <= c <= '9') || c == '+' || c == '-' || c == '.'
  }

  function DropC0ControlOrSpace(s: string): (r: string)
    ensures |r| <= |s| && r == s[|s| - |r|..]
    ensures r == "" || !IsC0ControlOrSpace(r[0])
  {
    if s != "" && IsC0ControlOrSpace(s[0]) then DropC0ControlOrSpace(s[1..]) else s
  }

  function RemoveUnsafe(s: string): (r: string)
    ensures forall i :: 0 <= i < |r| ==> !IsUnsafeUrlChar(r[i])
    ensures |r| <= |s|
  {
    if s == "" then ""
    else if IsUnsafeUrlChar(s[0]) then RemoveUnsafe(s[1..])
    else [s[0]] + RemoveUnsafe(s[1..])
  }

  /** `s.find(c)`, with "not found" given as `|s|`. */
  function FindChar(s: string, c: char): (i: nat)
    ensures i <= |s|
    ensures c !in s[..i]
    ensures i < |s| ==> s[i] == c
  {
    if s == "" then 0
    else if s[0] == c then 0
    else
      var i := 1 + FindChar(s[1..], c);
      assert s[..i] == [s[0]] + s[1..][..i - 1];
      i
  }

  /** The characters that end the authority part of a URL. */
  predicate IsAuthorityEnd(c: char) {
    c == '/' || c == '?' || c == '#'
  }

  /** The length of the authority part: up to the first `/`, `?` or `#`. */
  function AuthorityLength(s: string): (n: nat)
    ensures n <= |s|
    ensures forall i :: 0 <= i < n ==> !IsAuthorityEnd(s[i])
    ensures n < |s| ==> IsAuthorityEnd(s[n])
  {
    if s == "" || IsAuthorityEnd(s[0]) then 0 else 1 + AuthorityLength(s[1..])
  }

  /** What `urlsplit` has left once a well-formed scheme and its `:` are removed. */
  function AfterScheme(url: string): string {
    var i := FindChar(url, ':');
    if 0 < i < |url| && IsAsciiLetter(url[0]) && forall k :: 0 <= k < i ==> IsSchemeChar(url[k])
    then url[i + 1..]
    else url
  }

  /** `urlparse(url).netloc`: what follows `//`, up to the first `/`, `?` or `#`. */
  function Netloc(url: string): (r: Result<string, string>)
    ensures r.Success? ==> forall i :: 0 <= i < |r.value| ==> !IsAuthorityEnd(r.value[i])
  {
    var rest := AfterScheme(RemoveUnsafe(DropC0ControlOrSpace(url)));
    if StartsWith(rest, "//") then
      var netloc := rest[2..][..AuthorityLength(rest[2..])];
      if ('[' in netloc && ']' !in netloc) || (']' in netloc && '[' !in netloc) then Failure(InvalidIPv6Message)
      else Success(netloc)
    else Success("")
  }

  /* ---------------- title and text ---------------- */

  /** `soup.title.string.strip() if soup.title and soup.title.string else urlparse(url).netloc`. */
  function PageTitle(url: string, titleString: Option<string>): Result<string, string> {
    match titleString
    case Some(s) => if s != "" then Success(Strip(s)) else Netloc(url)
    case None => Netloc(url)
  }

  /** The stripped text nodes that are not blank, in order. */
  function StrippedStrings(strings: seq<string>): (parts: seq<string>)
    ensures forall i :: 0 <= i < |parts| ==> parts[i] != ""
  {
    if strings == [] then []
    else (if Strip(strings[0]) == "" then [] else [Strip(strings[0])]) + StrippedStrings(strings[1..])
  }

  /** `e.get_text(separator=sep, strip=True)`. */
  function GetText(sep: string, e: Element): string {
    JoinWith(sep, StrippedStrings(e.strings))
  }

  /** The generator `e.get_text(separator=" ", strip=True) for e in text_elements if e.get_text(strip=True)`. */
  function ElementTexts(es: seq<Element>): seq<string> {
    if es == [] then []
    else (if GetText("", es[0]) != "" then [GetText(" ", es[0])] else []) + ElementTexts(es[1..])
  }

  /** `" ".join(s.split()).strip()`. */
  function CleanText(s: string): string {
    Strip(NormalizeSpace(s))
  }

  /** `cleaned_text`, with the fallback to the body's text when the elements give none. */
  function PageText(page: ParsedPage): string {
    var cleaned := CleanText(JoinWith(" ", ElementTexts(page.elements)));
    if cleaned != "" then cleaned
    else match page.body
      case Some(b) => CleanText(GetText(" ", b))
      case None => ""
  }

  /* ---------------- record, doc_id, files ---------------- */

  /** The dictionary of a successful fetch. */
  function PageRecord(url: string, title: string, dateFetched: string, text: string): Record {
    map["url" := JStr(url), "title" := JStr(title), "date_fetched" := JStr(dateFetched),
        "source" := JStr(SourceKind), "text" := JStr(text)]
  }

  /** The dictionary returned when the fetch fails. */
  function ErrorRecord(url: string, text: string): Record {
    map["url" := JStr(url), "title" := JStr("ERROR"), "text" := JStr(text), "source" := JStr(SourceKind)]
  }

  /** `title.replace(" ", "_").replace("/", "-").lower()[:50]`. */
  function TitlePart(title: string): string {
    Take(Lower(ReplaceAll(ReplaceAll(title, " ", "_"), "/", "-")), TitleLimit)
  }

  /** `... + "_" + str(hash(url))[:8]`. */
  function DocId(title: string, urlHash: int): string {
    TitlePart(title) + "_" + Take(IntToString(urlHash), HashLimit)
  }

  function RawPath(docId: string): string {
    JoinPath(RawDataDir, docId + RawSuffix)
  }

  function JsonPath(docId: string): string {
    JoinPath(RawDataDir, docId + Utils.ProcessedSuffix)
  }

  /** `fetch_page_text(url)`. */
  function FetchPageText(url: string, response: HttpOutcome, dateFetched: string, urlHash: int,
                         rawWrite: WriteOutcome, jsonWrite: WriteOutcome): FetchOutcome
  {
    match response
    case RequestFailed(message) => FetchOutcome(ErrorRecord(url, FetchFailedPrefix + message), [])
    case Fetched(html, page) =>
      match PageTitle(url, page.titleString)
      case Failure(message) => FetchOutcome(ErrorRecord(url, UnexpectedPrefix + message), [])
      case Success(title) =>
        var metadata := PageRecord(url, title, dateFetched, PageText(page));
        var docId := DocId(title, urlHash);
        match rawWrite
        case WriteFailed(message) => FetchOutcome(ErrorRecord(url, UnexpectedPrefix + message), [])
        case Written =>
          var raw := RawHtml(RawPath(docId), html);
          match jsonWrite
          case WriteFailed(message) => FetchOutcome(ErrorRecord(url, UnexpectedPrefix + message), [raw])
          case Written => FetchOutcome(metadata, [raw, ProcessedJson(JsonPath(docId), metadata)])
  }

  /* ---------------- properties ---------------- */

  lemma {:induction false} RemoveUnsafeKeeps(s: string)
    requires forall i :: 0 <= i < |s| ==> !IsUnsafeUrlChar(s[i])
    ensures RemoveUnsafe(s) == s
  {
    if s != "" {
      RemoveUnsafeKeeps(s[1..]);
      assert s == [s[0]] + s[1..];
    }
  }

  /** A well-formed scheme and its `:` are removed. */
  lemma AfterSchemeOf(scheme: string, tail: string)
    requires scheme != "" && IsAsciiLetter(scheme[0])
    requires forall i :: 0 <= i < |scheme| ==> IsSchemeChar(scheme[i])
    ensures AfterScheme(scheme + ":" + tail) == tail
  {
    var url := scheme + ":" + tail;
    var i := FindChar(url, ':');
    assert url[|scheme|] == ':';
    assert forall k :: 0 <= k < |scheme| ==> url[k] == scheme[k];
    assert i == |scheme|;
    assert url[i + 1..] == tail;
  }

  /** The authority ends where the host does. */
  lemma AuthorityOf(host: string, rest: string)
    requires forall i :: 0 <= i < |host| ==> !IsAuthorityEnd(host[i])
    requires rest == "" || IsAuthorityEnd(rest[0])
    ensures (host + rest)[..AuthorityLength(host + rest)] == host
  {
    var after := host + rest;
    var n := AuthorityLength(after);
    assert forall k :: 0 <= k < |host| ==> after[k] == host[k];
    assert rest != "" ==> after[|host|] == rest[0];
    assert n == |host|;
    assert after[..n] == host;
  }

  /** A URL that starts with a visible character and has no tab or line break is left as it is. */
  lemma UrlKeptAsIs(url: string)
    requires url != "" && !IsC0ControlOrSpace(url[0])
    requires forall i :: 0 <= i < |url| ==> !IsUnsafeUrlChar(url[i])
    ensures RemoveUnsafe(DropC0ControlOrSpace(url)) == url
  {
    RemoveUnsafeKeeps(url);
  }

  lemma NetlocOfAuthority(url: string, tail: string, host: string)
    requires RemoveUnsafe(DropC0ControlOrSpace(url)) == url
    requires AfterScheme(url) == tail && StartsWith(tail, "//")
    requires tail[2..][..AuthorityLength(tail[2..])] == host
    ensures Netloc(url) == if ('[' in host) != (']' in host) then Failure(InvalidIPv6Message) else Success(host)
  {
  }

  /** `//host` followed by nothing or by a path, query or fragment has `host` as its authority. */
  lemma AuthorityAfterSlashes(host: string, rest: string)
    requires forall i :: 0 <= i < |host| ==> !IsAuthorityEnd(host[i])
    requires rest == "" || IsAuthorityEnd(rest[0])
    ensures var tail := "//" + host + rest;
      StartsWith(tail, "//") && tail[2..][..AuthorityLength(tail[2..])] == host
  {
    var tail := "//" + host + rest;
    assert tail[..2] == "//";
    assert tail[2..] == host + rest;
    AuthorityOf(host, rest);
  }

  /**
   * For `scheme://host` followed by nothing or by a path, query or fragment, the netloc is the
   * host, unless the host has one bracket of an IPv6 address without the other; the URL must
   * have no tab or line break.
   */
  lemma NetlocOfUrl(scheme: string, host: string, rest: string)
    requires scheme != "" && IsAsciiLetter(scheme[0])
    requires forall i :: 0 <= i < |scheme| ==> IsSchemeChar(scheme[i])
    requires forall i :: 0 <= i < |host| ==> !IsAuthorityEnd(host[i]) && !IsUnsafeUrlChar(host[i])
    requires rest == "" || IsAuthorityEnd(rest[0])
    requires forall i :: 0 <= i < |rest| ==> !IsUnsafeUrlChar(rest[i])
    ensures Netloc(scheme + "://" + host + rest)
         == if ('[' in host) != (']' in host) then Failure(InvalidIPv6Message) else Success(host)
  {
    var tail := "//" + host + rest;
    var url := scheme + ":" + tail;
    assert scheme + "://" + host + rest == url;
    forall i | 0 <= i < |url| ensures !IsUnsafeUrlChar(url[i]) {
      if i < |scheme| {
        assert url[i] == scheme[i];
      } else if i < |scheme| + 3 {
      } else if i < |scheme| + 3 + |host| {
        assert url[i] == host[i - |scheme| - 3];
      } else {
        assert url[i] == rest[i - |scheme| - 3 - |host|];
      }
    }
    UrlKeptAsIs(url);
    AfterSchemeOf(scheme, tail);
    AuthorityAfterSlashes(host, rest);
    NetlocOfAuthority(url, tail, host);
  }

  /** The title is the stripped `<title>` string when there is a non-empty one, else the netloc. */
  lemma TitleChoice(url: string, titleString: Option<string>)
    ensures titleString.Some? && titleString.value != "" ==>
      var t := PageTitle(url, titleString);
      && t == Success(Strip(titleString.value))
      && (t.value == "" || (!IsSpace(t.value[0]) && !IsSpace(t.value[|t.value| - 1])))
    ensures !(titleString.Some? && titleString.value != "") ==> PageTitle(url, titleString) == Netloc(url)
    ensures PageTitle(url, titleString).Failure? ==> PageTitle(url, titleString) == Failure(InvalidIPv6Message)
  {
  }

  /* ---------------- text ---------------- */

  lemma JoinEmptyIff(sep: string, parts: seq<string>)
    requires forall i :: 0 <= i < |parts| ==> parts[i] != ""
    ensures JoinWith(sep, parts) == "" <==> parts == []
  {
    if |parts| > 1 {
      assert |JoinWith(sep, parts)| >= |parts[0]|;
    }
  }

  /**
   * The filter `if e.get_text(strip=True)` keeps exactly the elements whose spaced text
   * `e.get_text(" ", strip=True)` is non-empty: both are empty exactly when every text node is blank.
   */
  lemma GetTextBlankIff(e: Element)
    ensures GetText("", e) == "" <==> StrippedStrings(e.strings) == []
    ensures GetText(" ", e) == "" <==> StrippedStrings(e.strings) == []
  {
    JoinEmptyIff("", StrippedStrings(e.strings));
    JoinEmptyIff(" ", StrippedStrings(e.strings));
  }

  /** `e.get_text(" ", strip=True)` for every element, blank or not. */
  function SpacedTexts(es: seq<Element>): (ts: seq<string>)
    ensures |ts| == |es|
  {
    if es == [] then [] else [GetText(" ", es[0])] + SpacedTexts(es[1..])
  }

  /** The non-empty strings, in order. */
  function NonEmpty(ts: seq<string>): (r: seq<string>)
    ensures forall i :: 0 <= i < |r| ==> r[i] != ""
    ensures |r| <= |ts|
  {
    if ts == [] then [] else (if ts[0] == "" then [] else [ts[0]]) + NonEmpty(ts[1..])
  }

  /** The generator keeps each element's spaced text exactly when it is non-empty, in order. */
  lemma {:induction false} ElementTextsFilter(es: seq<Element>)
    ensures ElementTexts(es) == NonEmpty(SpacedTexts(es))
  {
    if es != [] {
      GetTextBlankIff(es[0]);
      ElementTextsFilter(es[1..]);
    }
  }

  /** Dropping empty strings does not change the words. */
  lemma {:induction false} FlatWordsNonEmpty(ts: seq<string>)
    ensures FlatWords(NonEmpty(ts)) == FlatWords(ts)
  {
    if ts != [] {
      FlatWordsNonEmpty(ts[1..]);
      if ts[0] == "" {
        assert Words(ts[0]) == [];
        assert NonEmpty(ts) == NonEmpty(ts[1..]);
        assert FlatWords(ts) == [] + FlatWords(ts[1..]);
      } else {
        assert NonEmpty(ts) == [ts[0]] + NonEmpty(ts[1..]);
      }
    }
  }

  /** `" ".join(s.split()).strip()` is in normal form, with the words of `s`, and empty iff `s` has none. */
  lemma CleanTextShape(s: string)
    ensures IsNormalized(CleanText(s))
    ensures Words(CleanText(s)) == Words(s)
    ensures CleanText(s) == "" <==> Words(s) == []
  {
    NormalizeSpaceNormalized(s);
    NormalizeSpaceIdempotent(s);
    StripNormalized(NormalizeSpace(s));
  }

  /**
   * The page text is in normal form. When the elements have any words, those are its words, in
   * order; otherwise it has the words of the body's text, or none without a body.
   */
  lemma PageTextShape(page: ParsedPage)
    ensures IsNormalized(PageText(page))
    ensures FlatWords(SpacedTexts(page.elements)) != [] ==>
      Words(PageText(page)) == FlatWords(SpacedTexts(page.elements))
    ensures FlatWords(SpacedTexts(page.elements)) == [] ==>
      Words(PageText(page)) == match page.body { case Some(b) => Words(GetText(" ", b)) case None => [] }
  {
    var joined := JoinWith(" ", ElementTexts(page.elements));
    ElementTextsFilter(page.elements);
    WordsOfJoin(ElementTexts(page.elements));
    FlatWordsNonEmpty(SpacedTexts(page.elements));
    CleanTextShape(joined);
    match page.body {
      case Some(b) => CleanTextShape(GetText(" ", b));
      case None =>
    }
  }

  /* ---------------- record, doc_id, files ---------------- */

  /** A successful record has exactly these five keys. */
  lemma PageRecordShape(url: string, title: string, dateFetched: string, text: string)
    ensures PageRecord(url, title, dateFetched, text).Keys == {"url", "title", "date_fetched", "source", "text"}
    ensures PageRecord(url, title, dateFetched, text)["url"] == JStr(url)
    ensures PageRecord(url, title, dateFetched, text)["title"] == JStr(title)
    ensures PageRecord(url, title, dateFetched, text)["source"] == JStr(SourceKind)
    ensures PageRecord(url, title, dateFetched, text)["text"] == JStr(text)
  {
  }

  lemma ErrorRecordShape(url: string, text: string)
    ensures ErrorRecord(url, text).Keys == {"url", "title", "text", "source"}
    ensures ErrorRecord(url, text)["url"] == JStr(url)
    ensures ErrorRecord(url, text)["title"] == JStr("ERROR")
    ensures ErrorRecord(url, text)["source"] == JStr(SourceKind)
    ensures ErrorRecord(url, text)["text"] == JStr(text)
  {
  }

  /** The title part of `doc_id` has at most 50 characters, none of them a space or a `/`. */
  lemma TitlePartShape(title: string)
    ensures |TitlePart(title)| <= TitleLimit
    ensures ' ' !in TitlePart(title) && '/' !in TitlePart(title)
    ensures IsLowerCase(TitlePart(title))
  {
    var x := ReplaceAll(title, " ", "_");
    var y := ReplaceAll(x, "/", "-");
    assert ' ' !in x;
    assert ' ' !in y;
    assert '/' !in y;
    LowerKeepsAbsent(y, ' ');
    LowerKeepsAbsent(y, '/');
    var l := Lower(y);
    var t := Take(l, TitleLimit);
    assert t == l[..|t|];
  }

  /** `doc_id` has no `/`, so both files land directly in `data/raw_web` and share its prefix. */
  lemma DocIdPaths(title: string, urlHash: int)
    ensures '/' !in DocId(title, urlHash)
    ensures RawPath(DocId(title, urlHash)) == RawDataDir + "/" + DocId(title, urlHash) + RawSuffix
    ensures JsonPath(DocId(title, urlHash)) == RawDataDir + "/" + DocId(title, urlHash) + Utils.ProcessedSuffix
  {
    TitlePartShape(title);
    var h := Take(IntToString(urlHash), HashLimit);
    assert h == IntToString(urlHash)[..|h|];
    assert '/' !in h;
    var d := DocId(title, urlHash);
    assert d == TitlePart(title) + "_" + h;
    assert '/' !in d;
    assert d[0] != '/' by {
      if TitlePart(title) == "" { assert d[0] == '_'; } else { assert d[0] == TitlePart(title)[0]; }
    }
    assert (d + RawSuffix)[0] == d[0];
    assert (d + Utils.ProcessedSuffix)[0] == d[0];
  }

  /** A failed request returns the error record and writes nothing. */
  lemma RequestFailureOutcome(url: string, message: string, dateFetched: string, urlHash: int,
                              rawWrite: WriteOutcome, jsonWrite: WriteOutcome)
    ensures FetchPageText(url, RequestFailed(message), dateFetched, urlHash, rawWrite, jsonWrite)
         == FetchOutcome(ErrorRecord(url, FetchFailedPrefix + message), [])
  {
  }

  /**
   * A fetch that gets a title and writes both files returns the page record, and writes the raw
   * HTML and then that record, under two names that share the `doc_id` prefix.
   */
  lemma SuccessOutcome(url: string, html: string, page: ParsedPage, dateFetched: string, urlHash: int, title: string)
    requires PageTitle(url, page.titleString) == Success(title)
    ensures var out := FetchPageText(url, Fetched(html, page), dateFetched, urlHash, Written, Written);
      var d := DocId(title, urlHash);
      && out.record == PageRecord(url, title, dateFetched, PageText(page))
      && out.files == [RawHtml(RawDataDir + "/" + d + RawSuffix, html),
                       ProcessedJson(RawDataDir + "/" + d + Utils.ProcessedSuffix, out.record)]
  {
    DocIdPaths(title, urlHash);
  }

  /**
   * Any other failure is reported as an unexpected error; a failed JSON write leaves the raw HTML
   * already written.
   */
  lemma UnexpectedFailureOutcome(url: string, html: string, page: ParsedPage, dateFetched: string, urlHash: int,
                                 rawWrite: WriteOutcome, jsonWrite: WriteOutcome)
    ensures var out := FetchPageText(url, Fetched(html, page), dateFetched, urlHash, rawWrite, jsonWrite);
      && (PageTitle(url, page.titleString).Failure? ==>
            out == FetchOutcome(ErrorRecord(url, UnexpectedPrefix + InvalidIPv6Message), []))
      && (PageTitle(url, page.titleString).Success? && rawWrite.WriteFailed? ==>
            out == FetchOutcome(ErrorRecord(url, UnexpectedPrefix + rawWrite.message), []))
      && (PageTitle(url, page.titleString).Success? && rawWrite == Written && jsonWrite.WriteFailed? ==>
            out.record == ErrorRecord(url, UnexpectedPrefix + jsonWrite.message) && |out.files| == 1
            && out.files[0].RawHtml? && out.files[0].html == html)
  {
    TitleChoice(url, page.titleString);
  }

  /**
   * The loader picks the processed JSON up again exactly when the page text is non-empty, and
   * never the raw HTML.
   */
  lemma WrittenFilesAndLoader(url: string, title: string, dateFetched: string, text: string, docId: string,
                              raw: Utils.FileContent)
    ensures var rec := PageRecord(url, title, dateFetched, text);
      Utils.LoadedFrom(Utils.DirEntry(docId + Utils.ProcessedSuffix, Utils.Decoded(Utils.JsonObject(rec))))
        == if text != "" then Some(rec) else None
    ensures Utils.LoadedFrom(Utils.DirEntry(docId + RawSuffix, raw)) == None
  {
    EndsWithAppend(docId, Utils.ProcessedSuffix);
    var name := docId + RawSuffix;
    assert name[|name| - 1] == 'l';
    PageRecordShape(url, title, dateFetched, text);
  }
}
