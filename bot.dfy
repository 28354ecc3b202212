/** The text the Telegram bot sends back for a question (`_handle_message`,
    app/bot.py:29-38): the answer, then, when there are sources, a "Источники:" section
    with one source per line. */
module Bot {
  import opened Text
  import opened Results
  import opened Documents
  import opened Citations
  import opened Service

  const SourcesHeader: string := "\n\nИсточники:\n"

  /** The reply to a response: the answer alone, or the answer followed by the header and
      the sources joined by single newlines. */
  function Reply(r: QAResponse): (reply: string)
    ensures r.answer <= reply
    ensures reply == r.answer <==> |r.sources| == 0
  {
    if |r.sources| > 0 then r.answer + SourcesHeader + Join("\n", r.sources) else r.answer
  }

  /** With sources, the reply is the answer, the header and the source lines in that
      order; it ends with the last source, so there is no trailing newline. */
  lemma ReplyLayout(r: QAResponse)
    requires |r.sources| > 0
    ensures var reply := Reply(r); var n := |r.answer| + |SourcesHeader|;
            n <= |reply| &&
            reply[..|r.answer|] == r.answer &&
            reply[|r.answer|..n] == SourcesHeader &&
            reply[n..] == Join("\n", r.sources)
    ensures var reply := Reply(r); var last := r.sources[|r.sources| - 1];
            |last| <= |reply| && reply[|reply| - |last|..] == last
  {
    var reply := Reply(r);
    var list := Join("\n", r.sources);
    assert reply == r.answer + (SourcesHeader + list);
    JoinEnds("\n", r.sources);
  }

  /** The source lines read back, in order, as the sources, when no source itself holds
      a newline. */
  lemma ReplySourcesReadBack(r: QAResponse)
    requires |r.sources| > 0
    requires forall i, k :: 0 <= i < |r.sources| && 0 <= k < |r.sources[i]| ==> r.sources[i][k] != '\n'
    ensures Split(Reply(r)[|r.answer| + |SourcesHeader|..], '\n') == r.sources
  {
    ReplyLayout(r);
    SplitJoin(r.sources, '\n');
    assert "\n" == ['\n'];
  }

  /** The reply to a failed request is the error text alone. */
  lemma ErrorReply(message: string)
    ensures Reply(ErrorResponse(message).response) == ErrorPrefix + message
  {
  }

  /** End to end: when the generator answers and every retrieved document has a
      newline-free source, the lines after the header are the documents' sources, each
      once. */
  lemma ReplyListsRetrievedSources(question: string, ds: seq<Doc>, llm: Generator)
    requires llm(question, Context(ds)).Returned? && |ds| > 0
    requires forall p :: 0 <= p < |ds| ==> ds[p].source.Some? && '\n' !in ds[p].source.value
    ensures var resp := AskQuestion(question, Returned(ds), llm).response;
            |resp.sources| > 0 && |resp.answer| + |SourcesHeader| <= |Reply(resp)| &&
            var lines := Split(Reply(resp)[|resp.answer| + |SourcesHeader|..], '\n');
            lines == resp.sources && NoDuplicates(lines) &&
            forall x :: x in lines <==> exists p :: 0 <= p < |ds| && ds[p].source == Some(x)
  {
    assert AllHaveSource(ds);
    AskQuestionSucceeds(question, ds, llm);
    var resp := AskQuestion(question, Returned(ds), llm).response;
    assert ds[0].source.value in resp.sources;
    forall i, k | 0 <= i < |resp.sources| && 0 <= k < |resp.sources[i]|
      ensures resp.sources[i][k] != '\n'
    {
      assert resp.sources[i] in resp.sources;
      var p :| 0 <= p < |ds| && ds[p].source == Some(resp.sources[i]);
      assert resp.sources[i][k] in ds[p].source.value;
    }
    ReplyLayout(resp);
    ReplySourcesReadBack(resp);
  }

  /** The same holds of the chain that normalises the answer before rewriting it. */
  lemma ReplyListsSourcesNormalisedFirst(question: string, ds: seq<Doc>, llm: Generator)
    requires llm(question, Context(ds)).Returned? && |ds| > 0
    requires forall p :: 0 <= p < |ds| ==> ds[p].source.Some? && '\n' !in ds[p].source.value
    ensures var resp := AskQuestionNormalisedFirst(question, Returned(ds), llm).response;
            |resp.sources| > 0 && |resp.answer| + |SourcesHeader| <= |Reply(resp)| &&
            var lines := Split(Reply(resp)[|resp.answer| + |SourcesHeader|..], '\n');
            lines == resp.sources && NoDuplicates(lines) &&
            forall x :: x in lines <==> exists p :: 0 <= p < |ds| && ds[p].source == Some(x)
  {
    PlainGeneratorAnswers(llm, question, Context(ds));
    ReplyListsRetrievedSources(question, ds, PlainGenerator(llm));
    NormalisedFirstIsPlainChain(question, Returned(ds), llm);
  }
}
