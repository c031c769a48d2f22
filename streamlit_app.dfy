/**
 * `streamlit_app.py`: the web front end. Modelled here: the gating in `load_rag_chain`, the
 * clearing of the ingestion directories, the parsing of the URL text area, the chat history
 * and the "Sources Used" list appended to each answer.
 *
 * Widgets, caching, spinners and reruns are not modelled. The file system is reduced to the
 * set of file paths and the set of directory paths that exist.
 */
module StreamlitApp {
  import opened Wrappers
  import opened Text
  import opened JsonValues
  import opened Enumerations
  import RagPipeline

  /* ---------------- load_rag_chain ---------------- */

  const ApiKeyMissingMessage: string := "GROQ_API_KEY is not set in your environment or .env file."
  const DbMissingWarning: string :=
    "ChromaDB not found. Please run 'python -m src.vectorstore' first "
    + "to create the knowledge base from your processed data."
  const InitErrorPrefix: string := "Error during RAG chain initialization: "

  /** What the page shows: `st.error` or `st.warning`. */
  datatype Notice = ErrorNotice(text: string) | WarningNotice(text: string)

  /** The chain (None when it could not be built), the notice shown and what was constructed. */
  datatype LoadOutcome = LoadOutcome(chain: Option<RagPipeline.Chain>, notice: Option<Notice>, constructed: seq<RagPipeline.Component>)

  /** `not GROQ_API_KEY`: the variable is unset or empty. */
  predicate ApiKeyMissing(apiKey: Option<string>) {
    apiKey.None? || apiKey.value == ""
  }

  /**
   * `load_rag_chain()`: the API key is checked first, then the Chroma directory; only then is
   * `build_rag_chain` called, and any exception it raises becomes an error notice.
   */
  function LoadRagChain(apiKey: Option<string>, dbExists: bool, groqModelEnv: Option<string>, raising: Option<RagPipeline.Raise>): LoadOutcome {
    if ApiKeyMissing(apiKey) then
      LoadOutcome(None, Some(ErrorNotice(ApiKeyMissingMessage)), [])
    else if !dbExists then
      LoadOutcome(None, Some(WarningNotice(DbMissingWarning)), [])
    else
      var built := RagPipeline.BuildRagChain(dbExists, groqModelEnv, raising);
      match built.result
      case Success(chain) => LoadOutcome(Some(chain), None, built.constructed)
      case Failure(e) => LoadOutcome(None, Some(ErrorNotice(InitErrorPrefix + e.message)), built.constructed)
  }

  /**
   * Without an API key nothing is constructed and the key error is shown, whether or not the
   * directory exists; with a key but no directory nothing is constructed and the warning is
   * shown.
   */
  lemma LoadRagChainGates(apiKey: Option<string>, dbExists: bool, groqModelEnv: Option<string>, raising: Option<RagPipeline.Raise>)
    ensures ApiKeyMissing(apiKey) ==>
      LoadRagChain(apiKey, dbExists, groqModelEnv, raising) == LoadOutcome(None, Some(ErrorNotice(ApiKeyMissingMessage)), [])
    ensures !ApiKeyMissing(apiKey) && !dbExists ==>
      LoadRagChain(apiKey, dbExists, groqModelEnv, raising) == LoadOutcome(None, Some(WarningNotice(DbMissingWarning)), [])
  {
  }

  /**
   * A chain is loaded exactly when the key is set, the directory exists and no component
   * raises; it then carries the configured model and `k` = 5, and no notice is shown. A chain
   * and a notice never come together.
   */
  lemma LoadRagChainSucceeds(apiKey: Option<string>, dbExists: bool, groqModelEnv: Option<string>, raising: Option<RagPipeline.Raise>)
    ensures var o := LoadRagChain(apiKey, dbExists, groqModelEnv, raising);
      && (o.chain.Some? <==> !ApiKeyMissing(apiKey) && dbExists && raising.None?)
      && (o.chain.Some? ==> o.chain.value == RagPipeline.Chain(RagPipeline.GroqModel(groqModelEnv), "rag_capstone_collection_v1", 5) && o.notice.None?)
      && (o.chain.None? ==> o.notice.Some?)
  {
    RagPipeline.BuildOutcomeShape(dbExists, groqModelEnv, raising);
  }

  /**
   * The app checks the directory before calling `build_rag_chain`, so the chain's own
   * `FileNotFoundError` is never what the app reports: the only initialisation errors are
   * exceptions raised by a component.
   */
  lemma BuildDbCheckUnreachable(apiKey: Option<string>, dbExists: bool, groqModelEnv: Option<string>, raising: Option<RagPipeline.Raise>)
    ensures !ApiKeyMissing(apiKey) && dbExists ==>
      var b := RagPipeline.BuildRagChain(dbExists, groqModelEnv, raising);
      b.result.Failure? ==> b.result.error.ComponentFailed?
    ensures var o := LoadRagChain(apiKey, dbExists, groqModelEnv, raising);
      (o.notice.Some? && o.notice.value != ErrorNotice(ApiKeyMissingMessage) && o.notice.value != WarningNotice(DbMissingWarning)
       ==> raising.Some? && o.notice.value == ErrorNotice(InitErrorPrefix + raising.value.message))
  {
    RagPipeline.BuildOutcomeShape(dbExists, groqModelEnv, raising);
  }

  /* ---------------- clearing the ingestion directories ---------------- */

  const PdfDir: string := "data/papers"
  const WebDir: string := "data/raw_web"
  const PdfPattern: string := ".pdf"

  /**
   * The glob of `dir` with the pattern `*` followed by `suffix` lists `path`: a direct child of
   * `dir` whose name ends with `suffix` and, since the pattern does not start with a dot, is
   * not hidden.
   */
  predicate GlobMatch(dir: string, suffix: string, path: string) {
    && StartsWith(path, dir + "/")
    && var name := path[|dir| + 1..];
       name != "" && name[0] != '.' && '/' !in name && EndsWith(name, suffix)
  }

  /** The files the glob lists (directories are left out of the model). */
  function GlobMatches(files: set<string>, dir: string, suffix: string): (r: set<string>)
    ensures r <= files
  {
    set p | p in files && GlobMatch(dir, suffix, p)
  }

  /** `dir` and each of its ancestors, as `os.makedirs(dir)` creates them. */
  function DirChain(dir: string): set<string> {
    set i | 0 < i <= |dir| && (i == |dir| || dir[i] == '/') :: dir[..i]
  }

  /** The files and directories that exist. */
  class Workspace {
    var files: set<string>
    var dirs: set<string>

    constructor (files: set<string>, dirs: set<string>)
      ensures this.files == files && this.dirs == dirs
    {
      this.files := files;
      this.dirs := dirs;
    }

    /** `os.remove(path)` on a file. */
    method Remove(path: string)
      modifies this
      ensures files == old(files) - {path} && dirs == old(dirs)
    {
      files := files - {path};
    }

    /** `os.makedirs(dir)`. */
    method MakeDirs(dir: string)
      modifies this
      ensures files == old(files) && dirs == old(dirs) + DirChain(dir)
    {
      dirs := dirs + DirChain(dir);
    }

    /**
     * `if os.path.exists(dir): remove every file the glob lists else: os.makedirs(dir)`.
     * The glob's order is not specified.
     */
    method ClearDirectory(dir: string, suffix: string)
      modifies this
      ensures dir in old(dirs) ==> files == old(files) - GlobMatches(old(files), dir, suffix) && dirs == old(dirs)
      ensures dir !in old(dirs) ==> files == old(files) && dirs == old(dirs) + DirChain(dir)
    {
      if dir in dirs {
        var matched := Enumerate(GlobMatches(files, dir, suffix));
        var i := 0;
        while i < |matched|
          invariant 0 <= i <= |matched|
          invariant files == old(files) - SetOf(matched[..i]) && dirs == old(dirs)
        {
          assert matched[..i + 1] == matched[..i] + [matched[i]];
          SetOfAppend(matched[..i], matched[i]);
          Remove(matched[i]);
          i := i + 1;
        }
        assert matched[..i] == matched;
      } else {
        MakeDirs(dir);
      }
    }

    /** Lines 97-110: the uploaded PDFs in `data/papers` and everything in `data/raw_web`. */
    method ClearIngestionDirectories()
      modifies this
      ensures files == ClearedFiles(old(files), old(dirs))
      ensures dirs == old(dirs) + (if PdfDir in old(dirs) then {} else DirChain(PdfDir))
                                + (if WebDir in old(dirs) then {} else DirChain(WebDir))
    {
      ClearDirectory(PdfDir, PdfPattern);
      ClearDirectory(WebDir, "");
    }
  }

  /** The files left by clearing both directories. */
  function ClearedFiles(files: set<string>, dirs: set<string>): set<string> {
    var afterPdf := if PdfDir in dirs then files - GlobMatches(files, PdfDir, PdfPattern) else files;
    if WebDir in dirs then afterPdf - GlobMatches(afterPdf, WebDir, "") else afterPdf
  }

  /** A direct child of `dir` is matched exactly when it is not hidden and ends with `suffix`. */
  lemma {:induction false} ChildMatch(dir: string, suffix: string, name: string)
    ensures GlobMatch(dir, suffix, dir + "/" + name) <==> name != "" && name[0] != '.' && '/' !in name && EndsWith(name, suffix)
  {
    var path := dir + "/" + name;
    StartsWithAppend(dir + "/", name);
    assert path[|dir| + 1..] == name;
  }

  /**
   * Clearing removes exactly the visible `.pdf` files directly inside `data/papers` and the
   * visible files directly inside `data/raw_web`, when those directories exist; every other
   * file stays. In particular the records under `data/papers/processed` survive.
   */
  lemma ClearedFilesExactly(files: set<string>, dirs: set<string>, p: string)
    requires p in files
    ensures p !in ClearedFiles(files, dirs) <==>
      (PdfDir in dirs && GlobMatch(PdfDir, PdfPattern, p)) || (WebDir in dirs && GlobMatch(WebDir, "", p))
    ensures StartsWith(p, "data/papers/processed/") ==> p in ClearedFiles(files, dirs)
  {
    if StartsWith(p, "data/papers/processed/") {
      assert p[..|PdfDir| + 1] == "data/papers/";
      assert p[|PdfDir| + 1..][9] == '/' by {
        assert p[..22] == "data/papers/processed/";
        assert p[21] == '/';
      }
      assert !GlobMatch(PdfDir, PdfPattern, p);
      assert !StartsWith(p, WebDir + "/") by {
        assert p[5] == 'p';
        assert (WebDir + "/")[5] == 'r';
      }
    }
  }

  /** The visible files directly inside an existing `data/raw_web` are all removed, whatever their name. */
  lemma WebDirEmptied(files: set<string>, dirs: set<string>, name: string)
    requires WebDir in dirs
    requires name != "" && name[0] != '.' && '/' !in name
    ensures WebDir + "/" + name !in ClearedFiles(files, dirs)
  {
    ChildMatch(WebDir, "", name);
    assert EndsWith(name, "");
  }

  /* ---------------- URL text area ---------------- */

  /** `l.strip()` for every line. */
  function StrippedLines(lines: seq<string>): (r: seq<string>)
    ensures |r| == |lines| && forall i :: 0 <= i < |lines| ==> r[i] == Strip(lines[i])
  {
    seq(|lines|, i requires 0 <= i < |lines| => Strip(lines[i]))
  }

  /** The non-empty strings of `xs`, in order. */
  function DropEmpty(xs: seq<string>): (r: seq<string>)
    ensures |r| <= |xs|
  {
    if xs == [] then []
    else DropEmpty(xs[..|xs| - 1]) + (if xs[|xs| - 1] != "" then [xs[|xs| - 1]] else [])
  }

  /** `[l.strip() for l in lines if l.strip()]`. */
  function NonBlankStripped(lines: seq<string>): seq<string> {
    DropEmpty(StrippedLines(lines))
  }

  /** The URLs the form passes to `fetch_page_text`, in order. */
  function UrlsToFetch(input: string): seq<string> {
    if Strip(input) == "" then [] else NonBlankStripped(SplitLines(Strip(input)))
  }

  /** Lines 120-123: `fetch_page_text(url.strip())` for each non-blank line of the text area. */
  method FetchedUrls(input: string) returns (fetched: seq<string>)
    ensures fetched == UrlsToFetch(input)
  {
    fetched := [];
    var text := Strip(input);
    if text != "" {
      fetched := FetchNonBlankLines(SplitLines(text));
    }
  }

  /** The loop over the lines: each non-blank line is fetched, stripped. */
  method FetchNonBlankLines(lines: seq<string>) returns (fetched: seq<string>)
    ensures fetched == NonBlankStripped(lines)
  {
    fetched := [];
    var i := 0;
    while i < |lines|
      invariant 0 <= i <= |lines|
      invariant fetched == DropEmpty(StrippedLines(lines)[..i])
    {
      DropEmptySnoc(StrippedLines(lines), i);
      var url := Strip(lines[i]);
      if url != "" {
        fetched := fetched + [url];
      }
      i := i + 1;
    }
    assert StrippedLines(lines)[..i] == StrippedLines(lines);
  }

  lemma DropEmptySnoc(xs: seq<string>, i: nat)
    requires i < |xs|
    ensures DropEmpty(xs[..i + 1]) == DropEmpty(xs[..i]) + (if xs[i] != "" then [xs[i]] else [])
  {
    assert xs[..i + 1][..i] == xs[..i];
  }

  /** A string is kept exactly when it is non-empty and occurs in `xs`. */
  lemma {:induction false} DropEmptyMembers(xs: seq<string>)
    ensures forall u :: u in DropEmpty(xs) <==> u != "" && u in xs
  {
    if xs != [] {
      var init := xs[..|xs| - 1];
      DropEmptyMembers(init);
      assert xs == init + [xs[|xs| - 1]];
    }
  }

  /** A URL is fetched exactly when it is a non-blank line, stripped. */
  lemma NonBlankStrippedMembers(lines: seq<string>)
    ensures forall u :: u in NonBlankStripped(lines) <==> u != "" && exists i :: 0 <= i < |lines| && Strip(lines[i]) == u
  {
    var stripped := StrippedLines(lines);
    DropEmptyMembers(stripped);
    forall u
      ensures u in stripped <==> exists i :: 0 <= i < |lines| && Strip(lines[i]) == u
    {
      if u in stripped {
        var i :| 0 <= i < |stripped| && stripped[i] == u;
        assert Strip(lines[i]) == u;
      }
    }
  }

  /** Every fetched URL is one line, non-empty and without surrounding whitespace. */
  lemma NonBlankStrippedShape(lines: seq<string>)
    requires forall i :: 0 <= i < |lines| ==> IsOneLine(lines[i])
    ensures forall u :: u in NonBlankStripped(lines) ==> u != "" && IsOneLine(u) && Strip(u) == u
  {
    NonBlankStrippedMembers(lines);
    forall u | u in NonBlankStripped(lines)
      ensures u != "" && IsOneLine(u) && Strip(u) == u
    {
      var i :| 0 <= i < |lines| && Strip(lines[i]) == u;
      StripOneLine(lines[i]);
      StripUnpadded(u);
    }
  }

  /** The URL parsing, stated on the text area's contents. */
  lemma UrlsToFetchShape(input: string)
    ensures forall u :: u in UrlsToFetch(input) <==>
      u != "" && exists l :: l in SplitLines(Strip(input)) && Strip(l) == u
    ensures forall u :: u in UrlsToFetch(input) ==> IsOneLine(u) && Strip(u) == u
    ensures |UrlsToFetch(input)| <= |SplitLines(Strip(input))|
  {
    var lines := SplitLines(Strip(input));
    NonBlankStrippedMembers(lines);
    NonBlankStrippedShape(lines);
    if Strip(input) == "" {
      assert lines == [];
    }
  }

  /* ---------------- the "Sources Used" list ---------------- */

  const SourcesHeader: string := "### \U{1F4DA} Sources Used\n\n"
  const QueryErrorPrefix: string := "An error occurred during RAG query: "

  /** `(title, source, url_or_path)` of a retrieved document. */
  datatype Citation = Citation(title: Json, source: Json, location: Json)

  function CitationOf(m: Record): Citation {
    Citation(
      GetOr(m, "title", JStr("Untitled Document")),
      GetOr(m, "source", JStr("Unknown Source")),
      GetOr(m, "url", GetOr(m, "path", JStr("N/A"))))
  }

  function Citations(docs: seq<Record>): seq<Citation> {
    seq(|docs|, i requires 0 <= i < |docs| => CitationOf(docs[i]))
  }

  /** The markdown line of one citation. */
  function SourceLine(c: Citation): string {
    "- **" + Display(c.title) + "** (" + Display(c.source) + "): `" + Display(c.location) + "`\n"
  }

  /** The strings of `ls`, one after the other. */
  function Concat(ls: seq<string>): string {
    if ls == [] then "" else Concat(ls[..|ls| - 1]) + ls[|ls| - 1]
  }

  function SourceLineList(cs: seq<Citation>): (r: seq<string>)
    ensures |r| == |cs| && forall i :: 0 <= i < |cs| ==> r[i] == SourceLine(cs[i])
  {
    seq(|cs|, i requires 0 <= i < |cs| => SourceLine(cs[i]))
  }

  /** The lines of `cs`, in order. */
  function SourceLines(cs: seq<Citation>): string {
    Concat(SourceLineList(cs))
  }

  /** `f"**{llm_answer}**\n\n---\n\n{sources_text}"`. */
  function FullResponseMarkdown(answer: string, sourcesText: string): string {
    "**" + answer + "**\n\n---\n\n" + sourcesText
  }

  /**
   * Lines 174-185: the distinct citations of the retrieved documents, listed under the header
   * in the order the set yields them.
   */
  method SourcesText(docs: seq<Record>) returns (unique: set<Citation>, listed: seq<Citation>, text: string)
    ensures unique == SetOf(Citations(docs)) && |unique| <= |docs|
    ensures IsEnumeration(listed, unique)
    ensures text == SourcesHeader + SourceLines(listed)
  {
    unique := CollectSet(Citations(docs));
    SetOfSize(Citations(docs));
    listed := Enumerate(unique);
    text := RenderSources(listed);
  }

  /** `sources_text += ...` for each citation, in order. */
  method RenderSources(listed: seq<Citation>) returns (text: string)
    ensures text == SourcesHeader + SourceLines(listed)
  {
    text := SourcesHeader;
    ghost var lines := SourceLineList(listed);
    var k := 0;
    while k < |listed|
      invariant 0 <= k <= |listed|
      invariant text == SourcesHeader + Concat(lines[..k])
    {
      var line := SourceLine(listed[k]);
      AppendLine(SourcesHeader, lines, k, text, line);
      text := text + line;
      k := k + 1;
    }
    assert lines[..k] == lines;
  }

  lemma AppendLine(header: string, lines: seq<string>, k: nat, text: string, line: string)
    requires k < |lines| && line == lines[k]
    requires text == header + Concat(lines[..k])
    ensures text + line == header + Concat(lines[..k + 1])
  {
    ConcatSnoc(lines, k);
  }

  lemma {:induction false} ConcatAppend(a: seq<string>, b: seq<string>)
    ensures Concat(a + b) == Concat(a) + Concat(b)
    decreases |b|
  {
    if b == [] {
      assert a + b == a;
    } else {
      var init := b[..|b| - 1];
      var last := b[|b| - 1];
      assert (a + b)[..|a + b| - 1] == a + init;
      assert (a + b)[|a + b| - 1] == last;
      ConcatAppend(a, init);
      calc {
        Concat(a + b);
        Concat(a + init) + last;
        (Concat(a) + Concat(init)) + last;
        Concat(a) + (Concat(init) + last);
        Concat(a) + Concat(b);
      }
    }
  }

  /** Cutting the strings at `n` cuts their concatenation. */
  lemma ConcatSplit(ls: seq<string>, n: nat)
    requires n <= |ls|
    ensures Concat(ls) == Concat(ls[..n]) + Concat(ls[n..])
  {
    assert ls[..n] + ls[n..] == ls;
    ConcatAppend(ls[..n], ls[n..]);
  }

  lemma ConcatSnoc(ls: seq<string>, k: nat)
    requires k < |ls|
    ensures Concat(ls[..k + 1]) == Concat(ls[..k]) + ls[k]
  {
    assert ls[..k + 1][..k] == ls[..k];
  }

  /** The `k`-th string follows the strings before it. */
  lemma ConcatPrefix(ls: seq<string>, k: nat)
    requires k < |ls|
    ensures StartsWith(Concat(ls), Concat(ls[..k]) + ls[k])
  {
    ConcatSplit(ls, k + 1);
    ConcatSnoc(ls, k);
    StartsWithSplit(Concat(ls), Concat(ls[..k]) + ls[k], Concat(ls[k + 1..]));
  }

  /** The line of a listed citation follows the lines of the citations listed before it. */
  lemma ListedLine(listed: seq<Citation>, k: nat)
    requires k < |listed|
    ensures StartsWith(SourceLines(listed), SourceLines(listed[..k]) + SourceLine(listed[k]))
  {
    var lines := SourceLineList(listed);
    ConcatPrefix(lines, k);
    assert lines[..k] == SourceLineList(listed[..k]);
  }

  /**
   * Every retrieved document's citation line appears in the list, right after the lines of the
   * citations listed before it.
   */
  lemma SourcesTextListsEveryDocument(docs: seq<Record>, listed: seq<Citation>, d: nat)
    requires IsEnumeration(listed, SetOf(Citations(docs)))
    requires d < |docs|
    ensures exists k ::
      && 0 <= k < |listed| && listed[k] == CitationOf(docs[d])
      && StartsWith(SourceLines(listed), SourceLines(listed[..k]) + SourceLine(CitationOf(docs[d])))
  {
    var c := Citations(docs)[d];
    assert c in SetOf(Citations(docs));
    var k :| 0 <= k < |listed| && listed[k] == c;
    ListedLine(listed, k);
  }

  /** With no retrieved documents the list is just the header. */
  lemma NoDocumentsBareHeader(listed: seq<Citation>)
    requires IsEnumeration(listed, SetOf(Citations([])))
    ensures SourcesHeader + SourceLines(listed) == SourcesHeader
  {
    assert SetOf(Citations([])) == {};
    EnumerationSize(listed, {});
  }

  /* ---------------- chat history ---------------- */

  datatype Message = Message(role: string, content: string)

  /** What `qa_chain.invoke` gave: an exception, or the answer and its documents' metadata. */
  datatype QueryOutcome = QueryRaised(message: string) | Answered(answer: string, sourceDocuments: seq<Record>)

  /** The history alternates: a user message, then the assistant's reply to it. */
  ghost predicate Alternating(messages: seq<Message>) {
    && |messages| % 2 == 0
    && forall i :: 0 <= i < |messages| ==> messages[i].role == (if i % 2 == 0 then "user" else "assistant")
  }

  /** `st.session_state.messages`. */
  class ChatSession {
    var messages: seq<Message>

    ghost predicate Valid()
      reads this
    {
      Alternating(messages)
    }

    constructor ()
      ensures Valid() && messages == []
    {
      messages := [];
    }

    /**
     * One chat turn (lines 155-196): the prompt is appended, then either the answer with its
     * sources or the error text. `listed` is the order in which the sources are shown. Only a
     * non-empty prompt starts a turn: `st.chat_input` gives "" or None otherwise.
     */
    method Submit(prompt: string, outcome: QueryOutcome) returns (reply: string, listed: seq<Citation>)
      requires Valid() && prompt != ""
      modifies this
      ensures Valid()
      ensures messages == old(messages) + [Message("user", prompt), Message("assistant", reply)]
      ensures outcome.QueryRaised? ==> reply == QueryErrorPrefix + outcome.message && listed == []
      ensures outcome.Answered? ==>
        && IsEnumeration(listed, SetOf(Citations(outcome.sourceDocuments)))
        && reply == FullResponseMarkdown(outcome.answer, SourcesHeader + SourceLines(listed))
    {
      ghost var before := messages;
      messages := messages + [Message("user", prompt)];
      match outcome {
        case QueryRaised(message) =>
          reply := QueryErrorPrefix + message;
          listed := [];
        case Answered(answer, docs) =>
          var unique, text;
          unique, listed, text := SourcesText(docs);
          reply := FullResponseMarkdown(answer, text);
      }
      messages := messages + [Message("assistant", reply)];
      assert messages == before + [Message("user", prompt), Message("assistant", reply)];
      TurnKeepsAlternation(before, prompt, reply);
    }
  }

  /** Each turn adds one user message and one assistant message, so the alternation is kept. */
  lemma TurnKeepsAlternation(messages: seq<Message>, prompt: string, reply: string)
    requires Alternating(messages)
    ensures Alternating(messages + [Message("user", prompt), Message("assistant", reply)])
    ensures |messages + [Message("user", prompt), Message("assistant", reply)]| == |messages| + 2
  {
    var m := messages + [Message("user", prompt), Message("assistant", reply)];
    assert m[|messages|].role == "user" && m[|messages| + 1].role == "assistant";
  }
}
