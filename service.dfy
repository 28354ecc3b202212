/** The question-answering chain and its API boundary (`_create_chain` and
    `ask_question_api`, app/core.py:120-153); the response records of app/models.py. */
module Service {
  import opened Text
  import opened Results
  import opened Documents
  import opened Citations

  datatype QAResponse = QAResponse(answer: string, sources: seq<string>)
  datatype APIResponse = APIResponse(response: QAResponse)

  /** The dictionary the chain returns. `sources` is None when the key is absent. */
  datatype ChainResult = ChainResult(answer: Generated, sources: Option<seq<string>>)

  /** The language model, seen from the chain: given the question and the context string
      it returns an answer or raises. The prompt wording around the two is a constant of
      the program and is folded into this function. */
  type Generator = (string, string) -> Outcome<Generated>

  const ErrorPrefix: string := "Ошибка при обработке запроса: "

  /** The response for an exception whose `str` is message. */
  function ErrorResponse(message: string): (r: APIResponse)
    ensures r.response.sources == []
    ensures ErrorPrefix <= r.response.answer && r.response.answer[|ErrorPrefix|..] == message
  {
    APIResponse(QAResponse(ErrorPrefix + message, []))
  }

  /** `x.content if hasattr(x, "content") else str(x)`: a message gives its content, a
      string is its own `str`. */
  function AnswerText(g: Generated): string
  {
    match g
    case Plain(text) => text
    case ChatMessage(content) => content
  }

  /** The success branch of `ask_question_api`: the answer text and
      `result.get("sources", [])`. */
  function Normalise(result: ChainResult): (r: APIResponse)
    ensures r.response.answer == AnswerText(result.answer)
    ensures r.response.sources == if result.sources.Some? then result.sources.value else []
  {
    APIResponse(QAResponse(AnswerText(result.answer),
                           match result.sources case Some(s) => s case None => []))
  }

  /** The chain after `format_docs`: the generator sees the question and the context,
      the citations in its answer are rewritten over the annotated documents, and the
      sources are read from the same documents. Each stage may raise, and the first
      exception ends the chain. */
  function Respond(question: string, context: string, annotated: seq<Doc>, llm: Generator)
    : Outcome<ChainResult>
  {
    match llm(question, context)
    case Raised(e) => Raised(e)
    case Returned(g) =>
      match Rewrite(g, annotated)
      case Raised(e) => Raised(e)
      case Returned(answer) =>
        match SourcesOf(annotated)
        case Raised(e) => Raised(e)
        case Returned(sources) => Returned(ChainResult(answer, Some(sources)))
  }

  /** `qa_chain.invoke(question)`: the retriever's outcome, then `format_docs`, then the
      rest of the chain. */
  function RunChain(question: string, retrieved: Outcome<seq<Doc>>, llm: Generator): Outcome<ChainResult>
  {
    match retrieved
    case Raised(e) => Raised(e)
    case Returned(ds) => Respond(question, Context(ds), Annotate(ds), llm)
  }

  /** `ask_question_api`, as written: every exception of the chain becomes the error
      response; otherwise the result is normalised. */
  function AskQuestion(question: string, retrieved: Outcome<seq<Doc>>, llm: Generator): APIResponse
  {
    match RunChain(question, retrieved, llm)
    case Raised(e) => ErrorResponse(e)
    case Returned(result) => Normalise(result)
  }

  /** Any exception inside the chain yields exactly the error response. */
  lemma AskQuestionOnError(question: string, retrieved: Outcome<seq<Doc>>, llm: Generator)
    requires RunChain(question, retrieved, llm).Raised?
    ensures AskQuestion(question, retrieved, llm)
            == APIResponse(QAResponse(ErrorPrefix + RunChain(question, retrieved, llm).message, []))
  {
  }

  /** A failed retrieval or a failed generation is reported with the exception's text. */
  lemma AskQuestionStageFailures(question: string, ds: seq<Doc>, e: string, llm: Generator)
    ensures AskQuestion(question, Raised(e), llm) == ErrorResponse(e)
    ensures llm(question, Context(ds)).Raised? ==>
              AskQuestion(question, Returned(ds), llm) == ErrorResponse(llm(question, Context(ds)).message)
  {
  }

  /** A retrieved document without a source makes the chain raise KeyError('source'),
      whether or not the answer cites it, so the response is the fixed error text with
      "'source'" and no sources. */
  lemma AskQuestionMissingSource(question: string, ds: seq<Doc>, llm: Generator)
    requires llm(question, Context(ds)).Returned?
    requires exists p :: 0 <= p < |ds| && ds[p].source.None?
    ensures AskQuestion(question, Returned(ds), llm) == ErrorResponse("'source'")
  {
    var r := Annotate(ds);
    AnnotateKeepsContent(ds);
    var p :| 0 <= p < |ds| && ds[p].source.None?;
    assert r[p].source.None?;
    var rewritten := Rewrite(llm(question, Context(ds)).value, r);
    if rewritten.Raised? {
      AnnotateIndices(ds);
      RewriteIndexedRaisesOnSource(llm(question, Context(ds)).value, r);
    }
  }

  /** The success path: when the generator answers and every document has a source, the
      response carries the rewritten answer's text and every source exactly once. */
  lemma AskQuestionSucceeds(question: string, ds: seq<Doc>, llm: Generator)
    requires llm(question, Context(ds)).Returned? && AllHaveSource(ds)
    ensures var g := llm(question, Context(ds)).value;
            var resp := AskQuestion(question, Returned(ds), llm).response;
            Rewrite(g, Annotate(ds)).Returned? &&
            resp.answer == AnswerText(Rewrite(g, Annotate(ds)).value) &&
            NoDuplicates(resp.sources) &&
            forall x :: x in resp.sources <==> exists p :: 0 <= p < |ds| && ds[p].source == Some(x)
  {
    var r := Annotate(ds);
    AnnotateKeepsContent(ds);
    AnnotateIndices(ds);
    assert AllHaveSource(r);
    RewriteReturns(llm(question, Context(ds)).value, r);
    var srcs := SourcesOf(r);
    forall x ensures x in srcs.value <==> exists p :: 0 <= p < |ds| && ds[p].source == Some(x) {
      if x in srcs.value {
        var p :| 0 <= p < |r| && r[p].source == Some(x);
        assert ds[p].source == Some(x);
      }
      if exists p :: 0 <= p < |ds| && ds[p].source == Some(x) {
        var p :| 0 <= p < |ds| && ds[p].source == Some(x);
        assert r[p].source == Some(x);
      }
    }
  }

  /** When the generator answers, the sources do not depend on what it answered: two
      generators give the same sources, cited or not. */
  lemma SourcesIndependentOfAnswer(question: string, ds: seq<Doc>, llm1: Generator, llm2: Generator)
    requires llm1(question, Context(ds)).Returned? && llm2(question, Context(ds)).Returned?
    ensures AskQuestion(question, Returned(ds), llm1).response.sources
            == AskQuestion(question, Returned(ds), llm2).response.sources
  {
    if AllHaveSource(ds) {
      var r := Annotate(ds);
      AnnotateKeepsContent(ds);
      AnnotateIndices(ds);
      assert AllHaveSource(r);
      RewriteReturns(llm1(question, Context(ds)).value, r);
      RewriteReturns(llm2(question, Context(ds)).value, r);
    } else {
      var p :| 0 <= p < |ds| && ds[p].source.None?;
      AskQuestionMissingSource(question, ds, llm1);
      AskQuestionMissingSource(question, ds, llm2);
    }
  }

  /** The chain always fills in "sources", so the `[]` default of `result.get` applies
      only to a result without the key. */
  lemma ChainAlwaysHasSources(question: string, retrieved: Outcome<seq<Doc>>, llm: Generator)
    requires RunChain(question, retrieved, llm).Returned?
    ensures RunChain(question, retrieved, llm).value.sources.Some?
  {
  }

  /** The answer the generator gives is what the chain sees: its text is passed through
      unchanged when no document's marker occurs in it. */
  lemma AnswerUncitedPassesThrough(question: string, ds: seq<Doc>, llm: Generator, text: string)
    requires llm(question, Context(ds)) == Returned(Plain(text)) && AllHaveSource(ds)
    requires forall n :: 1 <= n <= |ds| ==> !Contains(text, Token(n))
    ensures AskQuestion(question, Returned(ds), llm).response.answer == text
  {
    var r := Annotate(ds);
    AnnotateIndices(ds);
    RewriteWithoutCitations(Plain(text), r);
    AskQuestionSucceeds(question, ds, llm);
  }

  // ---------------------------------------------------------------------------------
  // The order of rewriting and normalising

  /** As written, a chat message answer keeps its markers: its content comes back word
      for word, "[1]" included, even though document 1 has a source. */
  lemma MessageCitationsKept(question: string, ds: seq<Doc>, llm: Generator, c: string)
    requires llm(question, Context(ds)) == Returned(ChatMessage(c)) && AllHaveSource(ds)
    ensures AskQuestion(question, Returned(ds), llm).response.answer == c
  {
    AnnotateIndices(ds);
    RewriteLeavesMessage(c, Annotate(ds));
    AskQuestionSucceeds(question, ds, llm);
  }

  /** The chain with the answer's text taken before the citations are rewritten. */
  function RespondNormalisedFirst(question: string, context: string, annotated: seq<Doc>, llm: Generator)
    : Outcome<ChainResult>
  {
    match llm(question, context)
    case Raised(e) => Raised(e)
    case Returned(g) => Respond(question, context, annotated, (q, c) => Returned(Plain(AnswerText(g))))
  }

  /** `ask_question_api` over the chain that normalises first. */
  function AskQuestionNormalisedFirst(question: string, retrieved: Outcome<seq<Doc>>, llm: Generator)
    : APIResponse
  {
    var chain := match retrieved
      case Raised(e) => Raised(e)
      case Returned(ds) => RespondNormalisedFirst(question, Context(ds), Annotate(ds), llm);
    match chain
    case Raised(e) => ErrorResponse(e)
    case Returned(result) => Normalise(result)
  }

  /** Normalising first, the response no longer depends on the form the generator gives
      its answer in: a chat message is treated exactly as a plain string of its content. */
  lemma NormalisedFirstIgnoresForm(question: string, retrieved: Outcome<seq<Doc>>, llm: Generator)
    ensures AskQuestionNormalisedFirst(question, retrieved, llm)
            == AskQuestionNormalisedFirst(question, retrieved, PlainGenerator(llm))
  {
  }

  /** The generator that returns the text of llm's answer as a plain string. */
  function PlainGenerator(llm: Generator): (r: Generator)
    ensures forall q, c :: llm(q, c).Raised? ==> r(q, c) == llm(q, c)
  {
    (q, c) => match llm(q, c) case Raised(e) => Raised(e) case Returned(g) => Returned(Plain(AnswerText(g)))
  }

  lemma PlainGeneratorAnswers(llm: Generator, q: string, c: string)
    ensures llm(q, c).Returned? ==> PlainGenerator(llm)(q, c) == Returned(Plain(AnswerText(llm(q, c).value)))
  {
  }

  /** The corrected chain is the program's chain run on the generator's answer text:
      whatever holds of `AskQuestion` for plain answers holds of it. */
  lemma NormalisedFirstIsPlainChain(question: string, retrieved: Outcome<seq<Doc>>, llm: Generator)
    ensures AskQuestionNormalisedFirst(question, retrieved, llm)
            == AskQuestion(question, retrieved, PlainGenerator(llm))
  {
  }

  /** Normalising first agrees with the program whenever the generator returns a plain
      string: the change is confined to message answers. */
  lemma NormalisedFirstAgreesOnPlain(question: string, retrieved: Outcome<seq<Doc>>, llm: Generator)
    requires forall q, c :: llm(q, c).Returned? ==> llm(q, c).value.Plain?
    ensures AskQuestionNormalisedFirst(question, retrieved, llm) == AskQuestion(question, retrieved, llm)
  {
  }

  /** Normalising first, a message's citations are rewritten like those of a string. */
  lemma NormalisedFirstRewritesMessage(question: string, ds: seq<Doc>, llm: Generator, c: string)
    requires llm(question, Context(ds)) == Returned(ChatMessage(c)) && AllHaveSource(ds)
    ensures Rewrite(Plain(c), Annotate(ds))
            == Returned(Plain(AskQuestionNormalisedFirst(question, Returned(ds), llm).response.answer))
  {
    var r := Annotate(ds);
    AnnotateKeepsContent(ds);
    AnnotateIndices(ds);
    assert AllHaveSource(r);
    RewriteReturns(Plain(c), r);
    RewritePlainStaysPlain(Plain(c), r);
  }

  /** Rewriting a plain string gives a plain string. */
  lemma {:induction false} RewritePlainStaysPlain(answer: Generated, ds: seq<Doc>)
    requires answer.Plain? && Rewrite(answer, ds).Returned?
    ensures Rewrite(answer, ds).value.Plain?
    decreases |ds|
  {
    if |ds| > 0 {
      RewritePlainStaysPlain(RewriteStep(answer, ds[0]).value, ds[1..]);
    }
  }

  // ---------------------------------------------------------------------------------
  // The chain over the retrieved document objects

  /** `ask_question_api` run over the document objects the retriever returned:
      `format_docs` numbers them in place, the generator is asked, the rewrite loop reads
      their metadata, and the sources are collected from them. */
  method AnswerQuestion(question: string, retrieved: Outcome<seq<Document>>, llm: Generator)
    returns (resp: APIResponse)
    modifies if retrieved.Returned? then retrieved.value else []
    ensures retrieved.Raised? ==> resp == ErrorResponse(retrieved.message)
    ensures retrieved.Returned? ==>
              resp == match Respond(question, Context(old(Views(retrieved.value))), Views(retrieved.value), llm)
                      case Raised(e) => ErrorResponse(e)
                      case Returned(result) => Normalise(result)
    ensures retrieved.Returned? && DistinctObjects(retrieved.value) ==>
              resp == AskQuestion(question, Returned(old(Views(retrieved.value))), llm)
    ensures retrieved.Returned? ==>
              var docs := retrieved.value;
              forall p :: 0 <= p < |docs| ==>
                docs[p].pageContent == old(docs[p].pageContent) && docs[p].source == old(docs[p].source) &&
                docs[p].index == Some(LastPosition(docs, |docs|, p) + 1)
    ensures retrieved.Returned? && DistinctObjects(retrieved.value) ==>
              Views(retrieved.value) == Annotate(old(Views(retrieved.value)))
  {
    if retrieved.Raised? {
      return ErrorResponse(retrieved.message);
    }
    var docs := retrieved.value;
    var context, annotated := FormatDocs(docs);
    var generated := llm(question, context);
    if generated.Raised? {
      return ErrorResponse(generated.message);
    }
    var answer := RewriteCitations(generated.value, annotated);
    if answer.Raised? {
      return ErrorResponse(answer.message);
    }
    var sources := SourcesOf(Views(annotated));
    if sources.Raised? {
      return ErrorResponse(sources.message);
    }
    resp := Normalise(ChainResult(answer.value, Some(sources.value)));
  }
}
