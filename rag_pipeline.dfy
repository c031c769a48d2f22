/**
 * `src/rag_pipeline.py`: building the retrieval chain, printing the sources of one answer and
 * the manual-evaluation table.
 *
 * The embedding model, the Chroma client, the Groq LLM and the chain object are not modelled
 * beyond which of them get constructed; an exception raised while constructing one is an
 * input. An answer of the chain (its text and the metadata of the retrieved documents) is an
 * input as well.
 */
module RagPipeline {
  import opened Wrappers
  import opened Text
  import opened JsonValues
  import opened Enumerations
  import VectorStore

  const DefaultGroqModel: string := "llama-3.1-8b-instant"
  const KRetrieval: nat := 5
  const MissingField: string := "N/A"
  const SnippetLimit: nat := 150
  const Ellipsis: string := "..."
  const ManualScore: string := "TBD (Manual)"

  /* ---------------- build_rag_chain ---------------- */

  /** The objects `build_rag_chain` constructs, in the order it constructs them. */
  datatype Component = Embeddings | VectorDb | Retriever | Llm | QaChain

  const Pipeline: seq<Component> := [Embeddings, VectorDb, Retriever, Llm, QaChain]

  /** Position of a component in `Pipeline`. */
  function Position(c: Component): (n: nat)
    ensures n < |Pipeline| && Pipeline[n] == c
  {
    match c
    case Embeddings => 0
    case VectorDb => 1
    case Retriever => 2
    case Llm => 3
    case QaChain => 4
  }

  /** The chain that is built: the LLM's model name, the Chroma collection it reads and the retriever's `k`. */
  datatype Chain = Chain(modelName: string, collection: string, k: nat)

  /** The constructor of `component` raises an exception with `message`. */
  datatype Raise = Raise(component: Component, message: string)

  datatype BuildError = DbNotFound(message: string) | ComponentFailed(component: Component, message: string)

  /** The components constructed before `build_rag_chain` returned or raised, and its outcome. */
  datatype BuildOutcome = BuildOutcome(constructed: seq<Component>, result: Result<Chain, BuildError>)

  /** `os.getenv("GROQ_MODEL", "llama-3.1-8b-instant")`. */
  function GroqModel(env: Option<string>): string {
    if env.Some? then env.value else DefaultGroqModel
  }

  function DbNotFoundMessage(): string {
    "ChromaDB not found at " + VectorStore.ChromaDbPath + ". Please run src/vectorstore.py first."
  }

  /**
   * `build_rag_chain()`: the embedding function first, then the `FileNotFoundError` when the
   * Chroma directory is missing, then the vector store, retriever, LLM and chain.
   */
  function BuildRagChain(dbExists: bool, groqModelEnv: Option<string>, raising: Option<Raise>): BuildOutcome {
    var stop := if raising.Some? then Position(raising.value.component) else |Pipeline|;
    if stop == 0 then
      BuildOutcome([], Failure(ComponentFailed(Embeddings, raising.value.message)))
    else if !dbExists then
      BuildOutcome([Embeddings], Failure(DbNotFound(DbNotFoundMessage())))
    else if stop < |Pipeline| then
      BuildOutcome(Pipeline[..stop], Failure(ComponentFailed(Pipeline[stop], raising.value.message)))
    else
      BuildOutcome(Pipeline, Success(Chain(GroqModel(groqModelEnv), VectorStore.CollectionName, KRetrieval)))
  }

  /**
   * Without the Chroma directory no chain is built and neither the vector store, the retriever
   * nor the LLM is constructed; the error is the `FileNotFoundError` unless the embedding
   * function raised first.
   */
  lemma BuildNeedsDb(groqModelEnv: Option<string>, raising: Option<Raise>)
    ensures var o := BuildRagChain(false, groqModelEnv, raising);
      && o.result.Failure?
      && VectorDb !in o.constructed && Retriever !in o.constructed && Llm !in o.constructed
      && (raising.None? || raising.value.component != Embeddings
          ==> o.constructed == [Embeddings] && o.result.error == DbNotFound(DbNotFoundMessage()))
  {
  }

  /**
   * A chain is returned exactly when the directory exists and nothing raises; it then uses the
   * configured model and retrieves five chunks, and everything was constructed in order. A
   * failure stops construction at the component that raised.
   */
  lemma BuildOutcomeShape(dbExists: bool, groqModelEnv: Option<string>, raising: Option<Raise>)
    ensures var o := BuildRagChain(dbExists, groqModelEnv, raising);
      && (o.result.Success? <==> dbExists && raising.None?)
      && (o.result.Success? ==> o.result.value == Chain(GroqModel(groqModelEnv), "rag_capstone_collection_v1", 5) && o.constructed == Pipeline)
      && |o.constructed| <= |Pipeline| && o.constructed == Pipeline[..|o.constructed|]
      && (raising.Some? ==> raising.value.component !in o.constructed)
      && (o.result.Failure? && o.result.error.ComponentFailed? ==> o.result.error == ComponentFailed(raising.value.component, raising.value.message))
  {
    var o := BuildRagChain(dbExists, groqModelEnv, raising);
    if raising.Some? {
      var n := Position(raising.value.component);
      assert forall k :: 0 <= k < n ==> Pipeline[k] != Pipeline[n];
    }
  }

  /* ---------------- run_rag_query ---------------- */

  /** The answer of the chain: the LLM's text and the metadata of each retrieved document. */
  datatype QaResponse = QaResponse(result: string, sourceDocuments: seq<Record>)

  /** The source line printed for a retrieved document. */
  function CitationLine(m: Record): string {
    "Title: " + Display(GetOr(m, "title", JStr(MissingField)))
    + " | Source: " + Display(GetOr(m, "source", JStr(MissingField)))
    + " | URL/Path: " + Display(GetOr(m, "url", GetOr(m, "path", JStr(MissingField))))
  }

  function CitationLines(docs: seq<Record>): (r: seq<string>)
    ensures |r| == |docs| && forall i :: 0 <= i < |docs| ==> r[i] == CitationLine(docs[i])
  {
    seq(|docs|, i requires 0 <= i < |docs| => CitationLine(docs[i]))
  }

  /**
   * The source lines `run_rag_query` prints for `response`: the distinct citation lines of its
   * documents, in the order the set yields them (each printed after " - ").
   */
  method RunRagQuery(response: QaResponse) returns (sources: set<string>, printed: seq<string>)
    ensures sources == SetOf(CitationLines(response.sourceDocuments))
    ensures IsEnumeration(printed, sources)
    ensures |printed| <= |response.sourceDocuments|
  {
    var docs := response.sourceDocuments;
    sources := CollectSet(CitationLines(docs));
    printed := Enumerate(sources);
    SetOfSize(CitationLines(docs));
  }

  /** Two chunks of the same document are cited once, and a document is cited once per answer. */
  lemma CitationDedup(docs: seq<Record>, i: nat, j: nat)
    requires i < |docs| && j < |docs|
    requires forall key :: key in ["title", "source", "url", "path"] ==> (key in docs[i] <==> key in docs[j])
    requires forall key :: key in ["title", "source", "url", "path"] && key in docs[i] ==> docs[i][key] == docs[j][key]
    ensures CitationLine(docs[i]) == CitationLine(docs[j])
    ensures CitationLine(docs[i]) in SetOf(CitationLines(docs))
  {
    assert "title" in ["title", "source", "url", "path"];
    assert "source" in ["title", "source", "url", "path"];
    assert "url" in ["title", "source", "url", "path"];
    assert "path" in ["title", "source", "url", "path"];
    assert CitationLines(docs)[i] == CitationLine(docs[i]);
  }

  /* ---------------- run_evaluation_suite ---------------- */

  /** `test_case["query"]` and `test_case["expected_fact"]`. */
  datatype TestCase = TestCase(query: string, expectedFact: string)

  /** One row of the evaluation table. */
  datatype Entry = Entry(
    id: nat,
    query: string,
    expectedFact: string,
    responseSnippet: string,
    retrievedSources: string,
    relevanceScore: string,
    correctnessScore: string)

  /**
   * Why the suite stopped at the test at `testIndex`: `qa_chain.invoke` raised with `message`,
   * or `", ".join(...)` raised `TypeError` because a retrieved title is not a string.
   */
  datatype EvalError = QueryRaised(testIndex: nat, message: string) | NonStringTitle(testIndex: nat)

  /** `result[:150].replace('\n', ' ') + '...'`. */
  function Snippet(result: string): string {
    ReplaceAll(Take(result, SnippetLimit), "\n", " ") + Ellipsis
  }

  /** `doc.metadata.get('title', 'N/A')` for each retrieved document. */
  function Titles(docs: seq<Record>): (r: seq<Json>)
    ensures |r| == |docs| && forall i :: 0 <= i < |docs| ==> r[i] == GetOr(docs[i], "title", JStr(MissingField))
  {
    seq(|docs|, i requires 0 <= i < |docs| => GetOr(docs[i], "title", JStr(MissingField)))
  }

  /** Every title is a string, so that joining them does not raise. */
  predicate AllText(vs: seq<Json>) {
    forall i :: 0 <= i < |vs| ==> vs[i].JStr?
  }

  /** The titles as Python strings, once every one of them is a string. */
  function TitleStrings(vs: seq<Json>): (r: seq<string>)
    requires AllText(vs)
    ensures |r| == |vs| && forall k :: 0 <= k < |vs| ==> vs[k] == JStr(r[k])
  {
    seq(|vs|, k requires 0 <= k < |vs| => vs[k].s)
  }

  /** `set(sources)`, once every title is a string. */
  function TitleSet(vs: seq<Json>): set<string>
    requires AllText(vs)
  {
    SetOf(TitleStrings(vs))
  }

  /** `s` is `", ".join` over some iteration order of `titles`. */
  ghost predicate IsSourceList(s: string, titles: set<string>) {
    exists ts :: IsEnumeration(ts, titles) && s == JoinWith(", ", ts)
  }

  /** The row for test `i` with answer `response`. */
  ghost predicate IsEntryFor(e: Entry, i: nat, t: TestCase, response: QaResponse) {
    && e.id == i + 1
    && e.query == t.query
    && e.expectedFact == t.expectedFact
    && e.responseSnippet == Snippet(response.result)
    && AllText(Titles(response.sourceDocuments))
    && IsSourceList(e.retrievedSources, TitleSet(Titles(response.sourceDocuments)))
    && e.relevanceScore == ManualScore
    && e.correctnessScore == ManualScore
  }

  /** The chain answered the test and every retrieved title is a string: its row can be built. */
  predicate RowBuilds(answer: Result<QaResponse, string>) {
    answer.Success? && AllText(Titles(answer.value.sourceDocuments))
  }

  /**
   * The table `run_evaluation_suite` prints: one row per test, with the chain's answer to
   * that test taken from `answers` (a `Failure` carries the message of the exception
   * `qa_chain.invoke` raised). The first test whose query raised, or whose retrieved titles are
   * not all strings, ends the suite with that exception.
   */
  method RunEvaluationSuite(tests: seq<TestCase>, answers: seq<Result<QaResponse, string>>)
    returns (r: Result<seq<Entry>, EvalError>)
    requires |answers| == |tests|
    ensures r.Success? <==> forall i :: 0 <= i < |answers| ==> RowBuilds(answers[i])
    ensures r.Success? ==>
      && |r.value| == |tests|
      && forall i :: 0 <= i < |tests| ==>
        answers[i].Success? && IsEntryFor(r.value[i], i, tests[i], answers[i].value)
    ensures r.Failure? ==>
      && r.error.testIndex < |tests|
      && !RowBuilds(answers[r.error.testIndex])
      && (forall j :: 0 <= j < r.error.testIndex ==> RowBuilds(answers[j]))
      && (r.error.QueryRaised? <==> answers[r.error.testIndex].Failure?)
      && (r.error.QueryRaised? ==> r.error.message == answers[r.error.testIndex].error)
  {
    var results: seq<Entry> := [];
    var i := 0;
    while i < |tests|
      invariant 0 <= i <= |tests| && |results| == i
      invariant forall j :: 0 <= j < i ==> RowBuilds(answers[j])
      invariant forall j :: 0 <= j < i ==> answers[j].Success? && IsEntryFor(results[j], j, tests[j], answers[j].value)
    {
      if answers[i].Failure? {
        return Failure(QueryRaised(i, answers[i].error));
      }
      var response := answers[i].value;
      var sources := Titles(response.sourceDocuments);
      if !AllText(sources) {
        return Failure(NonStringTitle(i));
      }
      var order := Enumerate(TitleSet(sources));
      var entry := Entry(i + 1, tests[i].query, tests[i].expectedFact, Snippet(response.result),
                         JoinWith(", ", order), ManualScore, ManualScore);
      results := results + [entry];
      i := i + 1;
    }
    return Success(results);
  }

  /**
   * The snippet is the first 150 characters of the answer with each line break turned into a
   * space, followed by "...": at most 153 characters and never a line break.
   */
  lemma SnippetShape(result: string)
    ensures var n := if |result| <= SnippetLimit then |result| else SnippetLimit;
      && |Snippet(result)| == n + 3 <= 153
      && '\n' !in Snippet(result)
      && EndsWith(Snippet(result), Ellipsis)
      && forall i :: 0 <= i < n ==> Snippet(result)[i] == if result[i] == '\n' then ' ' else result[i]
  {
    var head := Take(result, SnippetLimit);
    ReplaceCharPointwise(head, '\n', ' ');
    var body := ReplaceAll(head, "\n", " ");
    assert Snippet(result) == body + Ellipsis;
    assert Snippet(result)[|body|..] == Ellipsis;
    assert forall i :: 0 <= i < |body| ==> Snippet(result)[i] == body[i];
  }

  /**
   * The "Retrieved_Sources" cell lists each distinct title exactly once: a title is named in
   * it exactly when some retrieved document carries it, and it names no title twice.
   */
  lemma SourceListNamesEachTitleOnce(s: string, vs: seq<Json>)
    requires AllText(vs) && IsSourceList(s, TitleSet(vs))
    ensures exists ts ::
      && s == JoinWith(", ", ts) && |ts| <= |vs|
      && (forall i, j :: 0 <= i < j < |ts| ==> ts[i] != ts[j])
      && (forall t :: t in ts <==> exists k :: 0 <= k < |vs| && vs[k] == JStr(t))
  {
    var ts :| IsEnumeration(ts, TitleSet(vs)) && s == JoinWith(", ", ts);
    EnumerationSize(ts, TitleSet(vs));
    SetOfSize(TitleStrings(vs));
    forall t
      ensures t in ts <==> exists k :: 0 <= k < |vs| && vs[k] == JStr(t)
    {
      if t in ts {
        assert t in TitleStrings(vs);
      }
      if exists k :: 0 <= k < |vs| && vs[k] == JStr(t) {
        var k :| 0 <= k < |vs| && vs[k] == JStr(t);
        assert TitleStrings(vs)[k] == t;
      }
    }
  }
}
