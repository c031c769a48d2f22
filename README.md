# PDF_RAG_Analyser in Dafny

A PDF and web retrieval-augmented question-answering app, modelled in Dafny. The app scrapes
PDFs (pdfplumber) and web pages (requests and BeautifulSoup) into JSON records. It loads those
records, splits them into chunks and rebuilds a Chroma collection from them. It then answers
questions through a LangChain `RetrievalQA` chain over a Groq LLM, inside a Streamlit page.

The project models the repository's own layer around those libraries. Library calls appear
only as their results, passed in as inputs. Python's JSON values are the `Json` datatype; a
dictionary is a `map<string, Json>`.

Modelled pieces:

- **Loader and chunker** (`src/utils.py`, module `Utils`).
  - `load_processed_data` takes the `_processed.json` files that decode to an object with text.
  - A file that fails is skipped. A missing directory makes the whole call raise. Importing
    the PDF and web scrapers creates both default directories, so inside the app this happens
    only when a directory is removed between that import and the load.
  - `split_text_into_chunks` picks `full_text` or `text` for each document and drops both keys
    from the metadata.
  - It concatenates the splitter's pieces in document order. The splitter is a function
    parameter.
- **PDF records** (`src/tools/pdf_scraper.py`, module `PdfScraper`).
  - It builds the default record, the error records and the section extraction. Each regex
    match is an input span.
  - It covers the 150-word abstract fallback, `doc_id`, the output path and the persisted copy
    without `full_text`.
  - Proved: the loader skips the persisted copy, so an ingested PDF's content never reaches the
    chunker through that file.
- **Web records** (`src/tools/web_crawler.py`, module `WebCrawler`).
  - It covers the title with the `urlparse(url).netloc` fallback, the element-text join,
    whitespace normalisation and the body fallback.
  - It covers the record, `doc_id`, the two files written and the error records.
- **Index rebuild** (`src/vectorstore.py`, module `VectorStore`).
  - A `Collection` class holds an id-to-chunk map and records every call made on it.
  - `CreateVectorStore` lists and deletes every entry, swallowing a failure, then adds the
    chunks under fresh ids.
  - The add runs outside the `try`. When it raises, the exception leaves `create_vector_store`
    and ends the ingestion click before its success notice. The collection then holds none of
    the new chunks: it is empty, or keeps the old entries when the `try` block failed.
- **Query and evaluation** (`src/rag_pipeline.py`, module `RagPipeline`).
  - `build_rag_chain` is modelled as the sequence of components constructed and its outcome.
  - Also modelled: the deduplicated source lines of `run_rag_query` and the rows of
    `run_evaluation_suite`.
- **Front end** (`streamlit_app.py`, module `StreamlitApp`).
  - It covers the `load_rag_chain` gating, the clearing of `data/papers` and `data/raw_web`,
    and the URL text area.
  - It covers the "Sources Used" list and the chat history, a `ChatSession` class whose
    `messages` grow by two per turn.

Shared modules:

- `Wrappers`: `Option` and `Result`.
- `Sequences`: slicing a concatenation, and an in-order concatenating map that stops at the first failure. `split_text_into_chunks` is an instance of it.
- `Enumerations`: iteration over a Python `set`, as an enumeration; the order is unspecified.
- `Text`: the Python `str` operations used, namely `split()`, `join`, `strip()`, ASCII
  `lower()`, `replace`, `splitlines()`, slicing and `str(int)`.
- `Paths`: `os.path.basename` and `os.path.join`.
- `JsonValues`: `dict.get`, truthiness and `str()` of a value.

An exception the source catches becomes a `Result`/`Option` or an error record, whichever
the source's behaviour is. An exception that propagates is an outcome flag (`raised` of
`CreateVectorStore`) or an error `Result`, together with the state left behind. Exceptions
that are not modelled are listed under "## Left out".

## Model

| member | source | states |
|---|---|---|
| Utils.LoadDirectories | src/utils.py:12-44 | the loader as a value: directory by directory, each entry's record appended in order, stopping at the first directory `os.listdir` cannot list; its properties are LoadFailsOnlyOnMissingDirectory, LoadFailureNamesFirstMissing, LoadEntriesMembership and LoadedRecordsHaveText |
| Utils.LoadedFrom | src/utils.py:27-41 | the record one directory entry contributes, if any: characterised by LoadedFromAccepts |
| Utils.LoadProcessedData | src/utils.py:12-44 | the loader's result is the directory-by-directory, file-by-file accumulation `LoadDirectories` |
| Utils.LoadFailsOnlyOnMissingDirectory | src/utils.py:25-26 | loading fails exactly when some directory cannot be listed; file errors never abort it |
| Utils.LoadFailureNamesFirstMissing | src/utils.py:25-26 | a failure names the first directory that cannot be listed; every earlier one was listed |
| Utils.DefaultDirectoriesLoad | src/utils.py:10-26 | with the default `DATA_DIRS`, loading reads `data/raw_web` then `data/papers/processed`, and fails naming the first of them that is missing |
| Utils.LoadFailurePersists | src/utils.py:25-26 | once a directory is missing, later directories do not change the outcome |
| Utils.LoadEntriesAppend | src/utils.py:26-41 | a skipped file does not affect later files: loading distributes over concatenation of directory entries |
| Utils.LoadedFromAccepts | src/utils.py:27-41 | an entry contributes record `d` exactly when its name ends in `_processed.json`, it decodes to the object `d` and `d` has text; any other entry contributes nothing |
| Utils.LoadEntriesMembership | src/utils.py:26-36 | a record is loaded exactly when some entry's name ends in `_processed.json`, it decodes to that object and the object has truthy `text` or `full_text` |
| Utils.LoadedRecordsHaveText | src/utils.py:33-36 | every loaded record has truthy `text` or `full_text` |
| Utils.DocumentChunks | src/utils.py:76-87 | one document's chunks: none for falsy content, otherwise one per splitter piece with the filtered metadata, or the error for non-string content; see ContentFieldChoice, ChunksOf and NoContentNoChunks |
| Utils.SplitDocuments | src/utils.py:74-87 | the documents' chunks concatenated in order, stopping at the first rejected document; see SplitDocumentsAppend, SplitFailurePersists and ChunkProvenance |
| Utils.ChunkMetadata | src/utils.py:82 | the metadata keys are the document's keys minus exactly `text` and `full_text`, with unchanged values |
| Utils.ChunksOf | src/utils.py:84-86 | one chunk per splitter piece, in order, each with the document's metadata |
| Utils.SplitTextIntoChunks | src/utils.py:68-90 | the chunks are the ordered concatenation `SplitDocuments` of each document's chunks, or the error of the first rejected document |
| Utils.ContentFieldChoice | src/utils.py:77-80 | content is `full_text` when truthy, else `text`; it is truthy exactly when the record has text |
| Utils.SplitDocumentsAppend | src/utils.py:76-87 | chunking distributes over concatenation of the document list |
| Utils.SplitFailurePersists | src/utils.py:84-87 | after a rejected document, later documents do not change the outcome |
| Utils.ChunkProvenance | src/utils.py:76-87 | every chunk is a splitter piece of some document's string content, carrying that document's filtered metadata |
| Utils.NoContentNoChunks | src/utils.py:79-80 | a document with neither content field adds no chunks |
| PdfScraper.FirstLine | src/tools/pdf_scraper.py:64 | `split('\n')[0]` is the prefix of the page text up to its first newline, or the whole text when it has none |
| PdfScraper.SafeSearch | src/tools/pdf_scraper.py:67-72 | `""` without a match; otherwise whitespace-normalised with exactly the words of the matched group, and lower case when the searched text is |
| PdfScraper.ExtractSections | src/tools/pdf_scraper.py:58-81 | the values computed from the pages: title, the three searched sections, the abstract with its fallback, and the full text; stated by SectionsTitle, SectionsFound, AbstractFound, AbstractFallback, AbstractNormalized and SectionsFullText |
| PdfScraper.AbstractText | src/tools/pdf_scraper.py:74-79 | the found abstract, or the 150-word fallback when it is empty; see AbstractFound and AbstractFallback |
| PdfScraper.DocId | src/tools/pdf_scraper.py:83 | `basename(path).replace(".pdf", "").replace(" ", "_").lower()`; stated by DocIdShape |
| PdfScraper.GroupLowerCase | src/tools/pdf_scraper.py:61-71 | a group taken from lower-cased text stays lower case after strip and whitespace collapse |
| PdfScraper.PersistedRecord | src/tools/pdf_scraper.py:87 | the persisted record has the returned keys minus `full_text`, with the same values |
| PdfScraper.ExtractPdfSections | src/tools/pdf_scraper.py:29-96 | missing file gives the default record plus `error = "File not found."`; an open failure or a PDF without pages gives `"Error processing PDF: "` plus the message; otherwise the section record, with the persisted copy written to the output path, unless the write fails and the record gets the error; a failed write is modelled as writing nothing |
| PdfScraper.DefaultRecordShape | src/tools/pdf_scraper.py:41-49 | the default record has seven keys, empty sections and full text, `source = "pdf_paper"`, `title = basename(path)` |
| PdfScraper.FallbackAbstractWords | src/tools/pdf_scraper.py:79 | the fallback abstract's words are the first min(150, n) words of the full text, in normal form |
| PdfScraper.AbstractFound | src/tools/pdf_scraper.py:74-78 | a non-empty abstract match is kept as found and is lower case |
| PdfScraper.AbstractFallback | src/tools/pdf_scraper.py:78-79 | an empty or missing abstract match is replaced by the first at most 150 words of the full text |
| PdfScraper.AbstractNormalized | src/tools/pdf_scraper.py:74-79 | the abstract is in whitespace normal form either way |
| PdfScraper.SectionsFound | src/tools/pdf_scraper.py:61-76 | introduction and conclusion are lower case, normalised, `""` without a match, and otherwise have exactly the words of the matched group of the lowered text |
| PdfScraper.SectionsFullText | src/tools/pdf_scraper.py:59-81 | `full_text` is normalised and has the words of the joined page texts |
| PdfScraper.SectionsTitle | src/tools/pdf_scraper.py:63-64 | the title has no newline and no surrounding whitespace |
| PdfScraper.SectionRecordShape | src/tools/pdf_scraper.py:41-81 | the filled record's keys, and its path, source, title, abstract and full-text fields |
| PdfScraper.DocIdShape | src/tools/pdf_scraper.py:83-84 | `doc_id` is lower case with no space or `/`; the output path is `data/papers/processed/` + `doc_id` + `_processed.json` |
| PdfScraper.PersistedRecordSkippedByLoader | src/tools/pdf_scraper.py:87 | the persisted copy has no `text` or `full_text`, so the loader skips it under any file name |
| Paths.Basename | src/tools/pdf_scraper.py:43 | the basename has no `/`, is a suffix of the path, and is the whole path or starts right after a `/` |
| WebCrawler.FetchPageText | src/tools/web_crawler.py:26-76 | the whole fetch: the returned record and the files written, on success, on a request failure and on any other failure; stated by SuccessOutcome, RequestFailureOutcome, UnexpectedFailureOutcome and WrittenFilesAndLoader |
| WebCrawler.PageTitle | src/tools/web_crawler.py:40 | the stripped `<title>` string when non-empty, else the netloc or its error; stated by TitleChoice |
| WebCrawler.PageText | src/tools/web_crawler.py:43-51 | the cleaned element text, else the cleaned body text, else `""`; stated by PageTextShape |
| WebCrawler.DocId | src/tools/web_crawler.py:61 | the title part, `_`, and the first eight characters of `str(hash(url))`; see TitlePartShape and DocIdPaths |
| WebCrawler.Netloc | src/tools/web_crawler.py:40 | a netloc never contains `/`, `?` or `#` |
| WebCrawler.NetlocOfUrl | src/tools/web_crawler.py:40 | for `scheme://host` plus an optional path, query or fragment the netloc is `host`, or the "Invalid IPv6 URL" error for an unbalanced bracket |
| WebCrawler.TitleChoice | src/tools/web_crawler.py:40 | a non-empty `<title>` string gives its stripped form; otherwise the netloc; the only failure is the IPv6 error |
| WebCrawler.GetTextBlankIff | src/tools/web_crawler.py:45 | `get_text("", strip=True)` and `get_text(" ", strip=True)` are blank together, exactly when all text nodes are blank |
| WebCrawler.ElementTextsFilter | src/tools/web_crawler.py:45 | the generator keeps each element's spaced text exactly when it is non-empty, in order |
| WebCrawler.CleanTextShape | src/tools/web_crawler.py:47 | the cleaned text is normalised, keeps the words, and is empty exactly when there are none |
| WebCrawler.PageTextShape | src/tools/web_crawler.py:45-51 | the page text is normalised; its words are the elements' words, else the body's words, else none |
| WebCrawler.PageRecordShape | src/tools/web_crawler.py:53-59 | a successful record has exactly url, title, date_fetched, source and text, with `url` the input and `source = "web_page"` |
| WebCrawler.ErrorRecordShape | src/tools/web_crawler.py:71-76 | an error record has exactly url, title `"ERROR"`, text and source `"web_page"` |
| WebCrawler.TitlePartShape | src/tools/web_crawler.py:61 | the title part of `doc_id` has at most 50 characters, no space, no `/`, and is lower case |
| WebCrawler.DocIdPaths | src/tools/web_crawler.py:61-67 | both files are `data/raw_web/` + the same `doc_id` + their suffix |
| WebCrawler.RequestFailureOutcome | src/tools/web_crawler.py:71-73 | a failed request returns the error record with `"Failed to fetch: "` + message and writes no file |
| WebCrawler.SuccessOutcome | src/tools/web_crawler.py:29-69 | a successful fetch returns the page record and writes the raw HTML, then the record, under the shared `doc_id` |
| WebCrawler.UnexpectedFailureOutcome | src/tools/web_crawler.py:40-76 | a netloc or write failure returns `"Unexpected error: "` + message; a failed JSON write is modelled as writing no JSON file, so only the HTML file is left |
| WebCrawler.WrittenFilesAndLoader | src/tools/web_crawler.py:53-67 | the loader reloads the processed JSON exactly when the text is non-empty, and never the raw HTML |
| VectorStore.Rebuilt | src/vectorstore.py:28-42 | the entries after a `create_vector_store` that returns: the old ones only when `get` or `delete` raised, plus the chunks under fresh ids; see RebuiltClean, RebuildHoldsExactlyChunks and RebuildAfterFaultKeepsOld |
| VectorStore.FreshEntries | src/vectorstore.py:41 | `add_documents` stores chunk `i` under the fresh id `start + i` and nothing else |
| VectorStore.Collection.Get | src/vectorstore.py:29-30 | `get()` lists every id once, or fails; the entries are unchanged |
| VectorStore.Collection.Delete | src/vectorstore.py:33 | `delete(ids)` removes exactly those entries unless it raises |
| VectorStore.Collection.AddDocuments | src/vectorstore.py:41 | adds every chunk under fresh ids, keeping the ids below the counter, or adds nothing when the call raises |
| VectorStore.ClearCollection | src/vectorstore.py:28-39 | the `try` block empties the collection when nothing raises, else leaves it; the calls made are get, then delete only for non-empty ids |
| VectorStore.CreateVectorStore | src/vectorstore.py:16-46 | raises exactly when `add_documents` does; if it returns, entries become `Rebuilt(...)` (old entries only on a fault, plus the chunks under fresh ids); if it raises, entries are what the `try` block left (none, or the old ones on a fault); calls are the `try` block's, then one add |
| VectorStore.RebuiltIdsBelow | src/vectorstore.py:41 | every id stays below the counter after a rebuild |
| VectorStore.RebuildHoldsExactlyChunks | src/vectorstore.py:28-42 | with no fault the collection holds exactly one entry per chunk, none of them an earlier id |
| VectorStore.RebuiltCount | src/vectorstore.py:28-42 | without a fault the rebuilt collection has exactly one entry per chunk, whatever it held before |
| VectorStore.RebuiltClean | src/vectorstore.py:28-42 | without a fault the rebuilt collection is exactly the chunks under fresh ids, chunk `i` under `start + i`, whatever it held before |
| VectorStore.AddRaisedStoresNoChunk | src/vectorstore.py:27-42 | when `add_documents` raises no chunk is stored: the collection is empty after a completed wipe, the old entries after a swallowed error, and for non-empty chunks it differs from every rebuild that returns |
| VectorStore.RebuildAfterFaultKeepsOld | src/vectorstore.py:38-42 | on a get or delete fault the old entries remain, and the count is old plus new |
| VectorStore.DeleteOnlyWhenNonEmpty | src/vectorstore.py:32-37 | delete is called, with the listed ids, exactly when get succeeded on a non-empty collection |
| RagPipeline.BuildRagChain | src/rag_pipeline.py:32-72 | the components constructed in order and the chain or the first error; stated by BuildNeedsDb and BuildOutcomeShape |
| RagPipeline.BuildNeedsDb | src/rag_pipeline.py:40-44 | without the Chroma directory no chain is built, and no vector store, retriever or LLM is constructed; the error is the FileNotFoundError unless embeddings raised first |
| RagPipeline.BuildOutcomeShape | src/rag_pipeline.py:32-72 | a chain exists exactly when the directory exists and nothing raises, with the configured model, the collection `rag_capstone_collection_v1` that `create_vector_store` writes, and k = 5; construction stops at the raising component |
| RagPipeline.RunRagQuery | src/rag_pipeline.py:87-92 | the printed sources are each distinct citation line exactly once, never more than the documents |
| RagPipeline.CitationDedup | src/rag_pipeline.py:89 | documents agreeing on title, source, url and path give one citation line, which is in the printed set |
| RagPipeline.RunEvaluationSuite | src/rag_pipeline.py:109-131 | one row per test, in order, with ID i+1, the query, expected fact, snippet, distinct titles joined, "TBD (Manual)" scores; otherwise the suite stops at the first test whose query raised (with that message) or whose titles are not all strings (the TypeError), and every earlier test built its row |
| RagPipeline.Snippet | src/rag_pipeline.py:126 | `result[:150].replace('\n', ' ') + '...'`; stated by SnippetShape |
| RagPipeline.SnippetShape | src/rag_pipeline.py:126 | the snippet is min(n,150)+3 ≤ 153 characters, the answer's prefix with `\n` turned into spaces, ending in "...", with no newline |
| RagPipeline.SourceListNamesEachTitleOnce | src/rag_pipeline.py:117-127 | the Retrieved_Sources cell joins each distinct title exactly once, at most one per document |
| StreamlitApp.LoadRagChain | streamlit_app.py:33-50 | the key check, then the directory check, then `build_rag_chain` with any exception turned into the error notice; stated by LoadRagChainGates, LoadRagChainSucceeds and BuildDbCheckUnreachable |
| StreamlitApp.LoadRagChainGates | streamlit_app.py:33-42 | without an API key nothing is built and the key error shows, even without a directory; with a key but no directory nothing is built and the warning shows |
| StreamlitApp.LoadRagChainSucceeds | streamlit_app.py:33-50 | a chain loads exactly when the key is set, the directory exists and no component raises; a chain and a notice never come together |
| StreamlitApp.BuildDbCheckUnreachable | streamlit_app.py:37-50 | when the chain is built the directory exists, so its FileNotFoundError never occurs; other errors are the raising component's message |
| StreamlitApp.Workspace.ClearDirectory | streamlit_app.py:98-110 | an existing directory loses exactly the files its glob lists; a missing one is created with its parents |
| StreamlitApp.Workspace.ClearIngestionDirectories | streamlit_app.py:97-110 | the files left are `ClearedFiles`; only the missing directories are created |
| StreamlitApp.ChildMatch | streamlit_app.py:99-107 | a direct child is listed exactly when it is non-hidden, has no `/` and ends with the suffix |
| StreamlitApp.ClearedFilesExactly | streamlit_app.py:97-110 | a file is removed exactly when it is a visible `*.pdf` directly in `data/papers` or a visible file directly in `data/raw_web`; `data/papers/processed/` survives |
| StreamlitApp.WebDirEmptied | streamlit_app.py:105-108 | every visible direct child of an existing `data/raw_web` is removed |
| StreamlitApp.UrlsToFetch | streamlit_app.py:120-123 | the stripped non-blank lines of the stripped input, in order; stated by UrlsToFetchShape and NonBlankStrippedMembers |
| StreamlitApp.FetchedUrls | streamlit_app.py:120-123 | the URLs fetched are `UrlsToFetch(input)` |
| StreamlitApp.FetchNonBlankLines | streamlit_app.py:121-123 | the loop fetches the stripped non-blank lines in order |
| StreamlitApp.NonBlankStrippedMembers | streamlit_app.py:121-123 | a URL is fetched exactly when it is a non-blank line, stripped |
| StreamlitApp.UrlsToFetchShape | streamlit_app.py:120-123 | fetched URLs are exactly the stripped non-blank lines of the stripped input; each is one stripped line, no more than the lines |
| StreamlitApp.CitationOf | streamlit_app.py:177-182 | the `(title, source, url_or_path)` tuple with its defaults `Untitled Document`, `Unknown Source` and `N/A`, the URL preferred over the path; see SourcesText and SourcesTextListsEveryDocument |
| StreamlitApp.SourcesText | streamlit_app.py:174-185 | the distinct citations are the set of document citations, at most one per document, each listed once under the header |
| StreamlitApp.RenderSources | streamlit_app.py:184-185 | the text is the header followed by each listed citation's line |
| StreamlitApp.SourcesTextListsEveryDocument | streamlit_app.py:176-185 | every document's citation line appears in the list, after the lines listed before it |
| StreamlitApp.NoDocumentsBareHeader | streamlit_app.py:174-185 | with no documents the text is the bare header |
| StreamlitApp.ChatSession.constructor | streamlit_app.py:146-147 | the history starts empty |
| StreamlitApp.ChatSession.Submit | streamlit_app.py:155-196 | for a non-empty prompt, exactly two messages are appended: the user's prompt, then the answer markdown with its sources or the error text; the alternation is kept |
| StreamlitApp.TurnKeepsAlternation | streamlit_app.py:157-196 | one turn keeps the history alternating user/assistant and adds two messages |
| Text.Strip | src/tools/pdf_scraper.py:64 | `strip()` leaves no whitespace at either end; it is the input with its leading whitespace dropped, cut before a tail that is all whitespace |
| Text.WordsStrip | src/tools/pdf_scraper.py:71 | `s.strip().split() == s.split()` |
| Text.WordsAppendSpaceChar | src/tools/pdf_scraper.py:71 | `split()` of `a + c + b` for a whitespace character `c` is the words of `a` followed by the words of `b` |
| Text.WordsAreWords | src/tools/pdf_scraper.py:79 | every item of `split()` is non-empty and contains no whitespace |
| Text.NormalizeSpaceNormalized | src/tools/pdf_scraper.py:71-81 | `" ".join(s.split())` has no edge whitespace and no run of spaces |
| Text.ReplaceCharPointwise | src/rag_pipeline.py:126 | replacing one character by one character keeps the length and changes exactly those positions |
| Text.SplitLines | streamlit_app.py:121 | no lines exactly for the empty string, a non-empty string without a break is its only line, and no line contains a break |
| Text.SplitLinesBreak | streamlit_app.py:121 | a single-character boundary after a break-free `a` ends line `a`, and the lines of the rest follow; a final boundary adds no empty line |
| Text.SplitLinesCrLf | streamlit_app.py:121 | `"\r\n"` after a break-free `a` is one boundary: line `a`, then the lines of the rest |
| Enumerations.Enumerate | src/rag_pipeline.py:91 | iterating a set visits each element exactly once |
| Enumerations.CollectSet | streamlit_app.py:176-182 | adding each element of a sequence to an empty set gives its set of elements |
| Enumerations.SetOfSize | streamlit_app.py:176-182 | the set has at most as many elements as the sequence |

## Left out

- pdfplumber, requests, BeautifulSoup parsing and `decompose`, LangChain's splitter, the embedding model, Chroma's storage, persistence and similarity search, the Groq LLM and `RetrievalQA`: foreign libraries, whose results are inputs.
- The regular expressions ABSTRACT/INTRO/CONCLUSION_REGEX: the regex engine is not modelled; each match is an input span into the lower-cased text.
- Python's `hash(url)`, randomised per process, and `datetime.now()`: inputs.
- `str.lower()` covers ASCII letters only; the repository's text may hold other scripts, whose case mapping is not modelled.
- JSON values are null, booleans, integers and strings; floats, arrays and nested objects are not modelled.
- File contents and writes are outcomes passed in: opening, decoding and writing either succeeds or fails with a message.
- `print` output, Streamlit rendering, `st.cache_resource`, spinners, `st.rerun`, the sidebar and the `__main__` blocks of every file: user interface and smoke tests.
- The ingestion sequence at streamlit_app.py:112-132 is not modelled as one operation: writing the uploads, then `extract_pdf_sections`, `fetch_page_text`, the loader, the splitter and the rebuild. Each step is modelled on its own.
- `run_simple_similarity_query`, check_groq.py, src/embeddings.py and view_db.py: they are library calls with no logic of their own.
- WebCrawler.Netloc: `urlsplit`'s checks for a bracketed host are modelled only for bracket balance. Its NFKC check of netlocs with non-ASCII characters is not modelled.
- VectorStore.Collection: Chroma's ids are fresh UUID strings; here they come from a counter above every id in use. Embedding vectors are not stored.
- VectorStore.Collection.Delete: a delete that removes some ids and then raises is not modelled; a failing delete removes nothing.
- VectorStore.Collection.AddDocuments: an add that stores some batches and then raises is not modelled; a failing add stores nothing. A `persist()` that raises after a successful add (line 42) is not modelled either: with the Chroma releases that persist automatically it does nothing but warn.
- StreamlitApp.Workspace.ClearDirectory: the glob also lists subdirectories (any visible one inside `data/raw_web`, or one named `*.pdf` inside `data/papers`), and `os.remove` then raises `IsADirectoryError`, ending the click. The model's glob matches files only, so it neither lists those directories nor raises. A file standing where a directory is expected is not modelled either.
- RagPipeline.RunRagQuery: returns the set and the printed order instead of the response, which it passes through unchanged. Printing is output.
- RagPipeline.RunEvaluationSuite: the source prints the rows and returns None; the model returns the rows. A `test_case` without "query" or "expected_fact" (a KeyError) is not modelled, since test cases are records with both fields. An exception from the printing inside `run_rag_query` is not modelled apart from the query raising.
- StreamlitApp.SourcesText: Python's `set` treats `1` and `True` (and `0` and `False`) as equal, so two citation tuples that differ only there are merged into one; the model's `Json` values keep them apart and list both.
- PdfScraper.ExtractPdfSections: a write is modelled as all or nothing. In the source `open(output_path, "w")` creates the file before `json.dump` runs, so a dump that raises leaves an empty or partial file behind.
- WebCrawler.UnexpectedFailureOutcome: the same holds for both files written. A failed `json.dump` of the record leaves an empty or partial JSON file next to the HTML file.
- StreamlitApp.ChatSession.Submit: a response without `result` or `source_documents` raises inside the `try`, and is modelled as the query raising.
- Set iteration order is unspecified in Python; the model states it as an enumeration of the set.
