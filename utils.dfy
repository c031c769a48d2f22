/**
 * `src/utils.py`: loading the processed JSON records from the data directories, and cutting
 * each record's content into chunks that carry the record's metadata minus its bulk text.
 *
 * The file system is given as data: each directory is the result of `os.listdir` (or its
 * absence), each entry the outcome of opening and decoding that file. The LangChain splitter
 * is a parameter `split` about which nothing is assumed.
 */
module Utils {
  import opened Wrappers
  import opened Text
  import opened JsonValues
  import opened Sequences

  const ProcessedSuffix: string := "_processed.json"
  const DataDirs: seq<string> := ["data/raw_web", "data/papers/processed"]
  const BulkTextKeys: set<string> := {"text", "full_text"}

  /** The top level of a decoded JSON file: an object, or any other JSON value. */
  datatype TopLevel = JsonObject(fields: Record) | JsonOther

  /** What opening and decoding one file yields. */
  datatype FileContent =
    | Unreadable(reason: string)   // `open` or reading raised
    | Malformed(reason: string)    // `json.load` raised `JSONDecodeError`
    | Decoded(top: TopLevel)

  datatype DirEntry = DirEntry(name: string, content: FileContent)

  /** A data directory; `entries` is `None` when `os.listdir` raises (the directory is missing). */
  datatype Listing = Listing(directory: string, entries: Option<seq<DirEntry>>)

  datatype LoadError = DirectoryNotFound(directory: string)

  /** `data.get('text') or data.get('full_text')` is truthy. */
  predicate HasText(d: Record) {
    Truthy(Get(d, "text")) || Truthy(Get(d, "full_text"))
  }

  /** The record one directory entry contributes, if any. */
  function LoadedFrom(e: DirEntry): Option<Record> {
    if !EndsWith(e.name, ProcessedSuffix) then None
    else
      match e.content
      case Decoded(JsonObject(d)) => if HasText(d) then Some(d) else None
      case _ => None   // decode error, read error, or `.get` on a non-object: skipped
  }

  function LoadEntries(es: seq<DirEntry>): seq<Record> {
    if es == [] then []
    else
      LoadEntries(es[..|es| - 1]) + match LoadedFrom(es[|es| - 1]) { case Some(d) => [d] case None => [] }
  }

  /** `load_processed_data`: every accepted record, directory by directory, entry by entry. */
  function LoadDirectories(dirs: seq<Listing>): Result<seq<Record>, LoadError> {
    if dirs == [] then Success([])
    else
      match LoadDirectories(dirs[..|dirs| - 1])
      case Failure(e) => Failure(e)
      case Success(acc) =>
        var last := dirs[|dirs| - 1];
        match last.entries
        case None => Failure(DirectoryNotFound(last.directory))
        case Some(es) => Success(acc + LoadEntries(es))
  }

  method LoadProcessedData(dirs: seq<Listing>) returns (r: Result<seq<Record>, LoadError>)
    ensures r == LoadDirectories(dirs)
  {
    var all: seq<Record> := [];
    var i := 0;
    while i < |dirs|
      invariant 0 <= i <= |dirs|
      invariant LoadDirectories(dirs[..i]) == Success(all)
    {
      assert dirs[..i + 1][..i] == dirs[..i];
      if dirs[i].entries.None? {
        LoadFailurePersists(dirs[..i + 1], dirs[i + 1..]);
        assert dirs[..i + 1] + dirs[i + 1..] == dirs;
        return Failure(DirectoryNotFound(dirs[i].directory));
      }
      var entries := dirs[i].entries.value;
      ghost var before := all;
      var j := 0;
      while j < |entries|
        invariant 0 <= j <= |entries|
        invariant all == before + LoadEntries(entries[..j])
      {
        assert entries[..j + 1][..j] == entries[..j];
        var e := entries[j];
        if EndsWith(e.name, ProcessedSuffix) {
          match e.content {
            case Decoded(JsonObject(d)) =>
              if HasText(d) {
                all := all + [d];
              }
            case _ =>
          }
        }
        j := j + 1;
      }
      assert entries[..j] == entries;
      i := i + 1;
    }
    assert dirs[..i] == dirs;
    return Success(all);
  }

  /** Once a directory is missing, the directories after it change nothing: the call raises. */
  lemma {:induction false} LoadFailurePersists(a: seq<Listing>, b: seq<Listing>)
    requires LoadDirectories(a).Failure?
    ensures LoadDirectories(a + b) == LoadDirectories(a)
    decreases |b|
  {
    if b == [] {
      assert a + b == a;
    } else {
      assert (a + b)[..|a + b| - 1] == a + b[..|b| - 1];
      LoadFailurePersists(a, b[..|b| - 1]);
    }
  }

  /** Loading fails only on a missing directory, and then whatever came before it is lost. */
  lemma {:induction false} LoadFailsOnlyOnMissingDirectory(dirs: seq<Listing>)
    ensures LoadDirectories(dirs).Failure? <==> exists i :: 0 <= i < |dirs| && dirs[i].entries.None?
  {
    if dirs != [] {
      var init := dirs[..|dirs| - 1];
      LoadFailsOnlyOnMissingDirectory(init);
      if exists i :: 0 <= i < |init| && init[i].entries.None? {
        var i :| 0 <= i < |init| && init[i].entries.None?;
        assert dirs[i] == init[i];
      }
      if exists i :: 0 <= i < |dirs| && dirs[i].entries.None? {
        var i :| 0 <= i < |dirs| && dirs[i].entries.None?;
        if i < |init| { assert init[i] == dirs[i]; }
      }
    }
  }

  /** A failure names the first directory `os.listdir` could not list. */
  lemma {:induction false} LoadFailureNamesFirstMissing(dirs: seq<Listing>)
    ensures LoadDirectories(dirs).Failure? ==>
      exists i :: 0 <= i < |dirs| && dirs[i].entries.None?
        && LoadDirectories(dirs).error == DirectoryNotFound(dirs[i].directory)
        && forall j :: 0 <= j < i ==> dirs[j].entries.Some?
  {
    if dirs != [] {
      var init := dirs[..|dirs| - 1];
      LoadFailureNamesFirstMissing(init);
      LoadFailsOnlyOnMissingDirectory(init);
      if LoadDirectories(init).Failure? {
        var i :| 0 <= i < |init| && init[i].entries.None?
          && LoadDirectories(init).error == DirectoryNotFound(init[i].directory)
          && forall j :: 0 <= j < i ==> init[j].entries.Some?;
        assert dirs[i] == init[i];
        assert forall j :: 0 <= j < i ==> dirs[j] == init[j];
      } else {
        assert forall j :: 0 <= j < |init| ==> dirs[j] == init[j];
      }
    }
  }

  /**
   * With the default `DATA_DIRS` (the web records first, then the PDF records), loading fails
   * exactly when one of them is missing, and then names the first missing one.
   */
  lemma DefaultDirectoriesLoad(web: Listing, pdf: Listing)
    requires web.directory == DataDirs[0] && pdf.directory == DataDirs[1]
    ensures var r := LoadDirectories([web, pdf]);
      && (r.Failure? <==> web.entries.None? || pdf.entries.None?)
      && (web.entries.None? ==> r == Failure(DirectoryNotFound("data/raw_web")))
      && (web.entries.Some? && pdf.entries.None? ==> r == Failure(DirectoryNotFound("data/papers/processed")))
      && (r.Success? ==> r.value == LoadEntries(web.entries.value) + LoadEntries(pdf.entries.value))
  {
    assert [web, pdf][..1] == [web];
    assert [web][..0] == [];
    assert LoadDirectories([]) == Success([]);
    assert LoadDirectories([web]) == if web.entries.None? then Failure(DirectoryNotFound(web.directory))
      else Success([] + LoadEntries(web.entries.value));
    if web.entries.Some? {
      assert [] + LoadEntries(web.entries.value) == LoadEntries(web.entries.value);
    }
  }

  /** A skipped file does not stop the files after it: loading distributes over concatenation. */
  lemma {:induction false} LoadEntriesAppend(a: seq<DirEntry>, b: seq<DirEntry>)
    ensures LoadEntries(a + b) == LoadEntries(a) + LoadEntries(b)
    decreases |b|
  {
    if b == [] {
      AppendEmpty(a);
    } else {
      SnocSplit(a, b);
      LoadEntriesAppend(a, b[..|b| - 1]);
    }
  }

  /** Entry `e` holds record `d` and the loader accepts it. */
  predicate Accepts(e: DirEntry, d: Record) {
    EndsWith(e.name, ProcessedSuffix) && e.content == Decoded(JsonObject(d)) && HasText(d)
  }

  lemma LoadedFromAccepts(e: DirEntry, d: Record)
    ensures LoadedFrom(e) == Some(d) <==> Accepts(e, d)
  {
  }

  /**
   * A record is loaded from a directory exactly when some entry's name ends in
   * `_processed.json`, it decodes to that object, and the object has `text` or `full_text`.
   */
  lemma {:induction false} LoadEntriesMembership(es: seq<DirEntry>, d: Record)
    ensures d in LoadEntries(es) <==> exists k :: 0 <= k < |es| && Accepts(es[k], d)
  {
    if es != [] {
      var init, last := es[..|es| - 1], es[|es| - 1];
      LoadEntriesMembership(init, d);
      LoadedFromAccepts(last, d);
      assert d in LoadEntries(es) <==> d in LoadEntries(init) || LoadedFrom(last) == Some(d);
      if exists k :: 0 <= k < |init| && Accepts(init[k], d) {
        var k :| 0 <= k < |init| && Accepts(init[k], d);
        assert es[k] == init[k];
      }
      if exists k :: 0 <= k < |es| && Accepts(es[k], d) {
        var k :| 0 <= k < |es| && Accepts(es[k], d);
        if k < |init| { assert init[k] == es[k]; }
      }
    }
  }

  /** Every record the loader returns has a non-empty `text` or `full_text`. */
  lemma {:induction false} LoadedRecordsHaveText(dirs: seq<Listing>)
    requires LoadDirectories(dirs).Success?
    ensures forall d :: d in LoadDirectories(dirs).value ==> HasText(d)
  {
    if dirs != [] {
      LoadedRecordsHaveText(dirs[..|dirs| - 1]);
      var es := dirs[|dirs| - 1].entries.value;
      forall d | d in LoadEntries(es) ensures HasText(d) {
        LoadEntriesMembership(es, d);
      }
    }
  }

  /* ---------------- split_text_into_chunks ---------------- */

  /** A LangChain `Document`: page content plus metadata. */
  datatype Chunk = Chunk(text: string, metadata: Record)

  /** `Document(page_content=...)` rejects a truthy content value that is not a string. */
  datatype ChunkError = NonStringContent(value: Json)

  /** `doc.get('full_text') or doc.get('text')`. */
  function ContentField(d: Record): Option<Json> {
    if Truthy(Get(d, "full_text")) then Get(d, "full_text") else Get(d, "text")
  }

  /** `{k: v for k, v in doc.items() if k not in ['text', 'full_text']}`. */
  function ChunkMetadata(d: Record): (m: Record)
    ensures m.Keys == d.Keys - BulkTextKeys
    ensures forall k :: k in m ==> m[k] == d[k]
  {
    map k | k in d && k !in BulkTextKeys :: d[k]
  }

  function ChunksOf(pieces: seq<string>, metadata: Record): (cs: seq<Chunk>)
    ensures |cs| == |pieces|
    ensures forall i :: 0 <= i < |cs| ==> cs[i] == Chunk(pieces[i], metadata)
  {
    seq(|pieces|, i requires 0 <= i < |pieces| => Chunk(pieces[i], metadata))
  }

  /** The chunks of one document: none without content, else the splitter's pieces in order. */
  function DocumentChunks(d: Record, split: string -> seq<string>): Result<seq<Chunk>, ChunkError> {
    var c := ContentField(d);
    if !Truthy(c) then Success([])
    else
      match c.value
      case JStr(s) => Success(ChunksOf(split(s), ChunkMetadata(d)))
      case v => Failure(NonStringContent(v))
  }

  /** The chunks of all documents, in input order; the first rejected document raises. */
  function SplitDocuments(docs: seq<Record>, split: string -> seq<string>): Result<seq<Chunk>, ChunkError> {
    ConcatMapResult(d => DocumentChunks(d, split), docs)
  }

  method SplitTextIntoChunks(docs: seq<Record>, split: string -> seq<string>)
    returns (r: Result<seq<Chunk>, ChunkError>)
    ensures r == SplitDocuments(docs, split)
  {
    var chunks: seq<Chunk> := [];
    var i := 0;
    while i < |docs|
      invariant 0 <= i <= |docs|
      invariant SplitDocuments(docs[..i], split) == Success(chunks)
    {
      assert docs[..i + 1][..i] == docs[..i];
      var doc := docs[i];
      var content := if Truthy(Get(doc, "full_text")) then Get(doc, "full_text") else Get(doc, "text");
      if !Truthy(content) {
        assert chunks + [] == chunks;
        i := i + 1;
        continue;
      }
      var metadata := map k | k in doc && k !in BulkTextKeys :: doc[k];
      if !content.value.JStr? {
        SplitFailurePersists(docs[..i + 1], docs[i + 1..], split);
        assert docs[..i + 1] + docs[i + 1..] == docs;
        return Failure(NonStringContent(content.value));
      }
      var pieces := split(content.value.s);
      var docChunks := ChunksOf(pieces, metadata);
      chunks := chunks + docChunks;
      i := i + 1;
    }
    assert docs[..i] == docs;
    return Success(chunks);
  }

  /** Once a document is rejected, the documents after it change nothing: the call raises. */
  lemma SplitFailurePersists(a: seq<Record>, b: seq<Record>, split: string -> seq<string>)
    requires SplitDocuments(a, split).Failure?
    ensures SplitDocuments(a + b, split) == SplitDocuments(a, split)
  {
    ConcatMapFailurePersists(d => DocumentChunks(d, split), a, b);
  }

  /** The content chosen is `full_text` when it is truthy, otherwise `text`. */
  lemma ContentFieldChoice(d: Record)
    ensures Truthy(Get(d, "full_text")) ==> ContentField(d) == Some(d["full_text"])
    ensures !Truthy(Get(d, "full_text")) ==> ContentField(d) == Get(d, "text")
    ensures Truthy(ContentField(d)) <==> HasText(d)
  {
  }

  /** Chunking distributes over concatenation of the document list (order across documents). */
  lemma SplitDocumentsAppend(a: seq<Record>, b: seq<Record>, split: string -> seq<string>)
    requires SplitDocuments(a, split).Success? && SplitDocuments(b, split).Success?
    ensures SplitDocuments(a + b, split)
         == Success(SplitDocuments(a, split).value + SplitDocuments(b, split).value)
  {
    ConcatMapAppend(d => DocumentChunks(d, split), a, b);
  }

  /**
   * Every chunk comes from some document: its text is one of the splitter's pieces of that
   * document's content, and its metadata is that document minus `text` and `full_text`.
   */
  lemma {:induction false} ChunkProvenance(docs: seq<Record>, split: string -> seq<string>, c: Chunk)
    requires SplitDocuments(docs, split).Success?
    requires c in SplitDocuments(docs, split).value
    ensures exists k :: 0 <= k < |docs| && ContentField(docs[k]).Some? && ContentField(docs[k]).value.JStr?
                        && c.text in split(ContentField(docs[k]).value.s)
                        && c.metadata == ChunkMetadata(docs[k])
  {
    var init := docs[..|docs| - 1];
    var last := docs[|docs| - 1];
    var acc := SplitDocuments(init, split).value;
    if c in acc {
      ChunkProvenance(init, split, c);
      var k :| 0 <= k < |init| && ContentField(init[k]).Some? && ContentField(init[k]).value.JStr?
               && c.text in split(ContentField(init[k]).value.s) && c.metadata == ChunkMetadata(init[k]);
      assert docs[k] == init[k];
    } else {
      var cs := DocumentChunks(last, split).value;
      assert c in cs;
      var i :| 0 <= i < |cs| && cs[i] == c;
      assert docs[|docs| - 1] == last;
    }
  }

  /** A document with neither content field contributes no chunks, and nothing else changes. */
  lemma NoContentNoChunks(docs: seq<Record>, d: Record, split: string -> seq<string>)
    requires !HasText(d)
    ensures SplitDocuments(docs + [d], split) == SplitDocuments(docs, split)
  {
    assert (docs + [d])[..|docs|] == docs;
    ContentFieldChoice(d);
    match SplitDocuments(docs, split) {
      case Failure(_) =>
      case Success(acc) => assert acc + [] == acc;
    }
  }
}
