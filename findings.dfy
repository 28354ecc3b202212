/** A concrete request on which the program's order of rewriting and normalising loses
    the citations, next to the corrected order. */
module Findings {
  import opened Text
  import opened Results
  import opened Documents
  import opened Citations
  import opened CitationExamples
  import opened Service

  /** A generator that answers "[1]" as a chat message, whatever it is asked. */
  function CitingModel(): (llm: Generator)
    ensures forall q, c :: llm(q, c) == Returned(ChatMessage("[1]"))
  {
    (q, c) => Returned(ChatMessage("[1]"))
  }

  function OneDocument(): (ds: seq<Doc>)
    ensures |ds| == 1 && AllHaveSource(ds)
  {
    [Doc("case study", Some("http://a"), None)]
  }

  lemma OneDocumentAnnotated()
    ensures Annotate(OneDocument()) == [Doc("case study", Some("http://a"), Some(1))]
  {
  }

  /** Rewriting "[1]" over the numbered document gives "[http://a]". */
  lemma OneCitationRewritten()
    ensures Rewrite(Plain("[1]"), [Doc("case study", Some("http://a"), Some(1))])
            == Returned(Plain("[http://a]"))
  {
    var d := Doc("case study", Some("http://a"), Some(1));
    SmallTokens();
    ReplaceWholeMarker(1, "[http://a]");
    StepReplacing("[1]", 1, "http://a", "case study");
    assert "[" + "http://a" + "]" == "[http://a]";
    assert [d][1..] == [];
  }

  /** As written, the message's "[1]" reaches the user unchanged; normalising first, it
      becomes the document's source. */
  lemma MessageCitationLost(question: string)
    ensures AskQuestion(question, Returned(OneDocument()), CitingModel()).response.answer == "[1]"
    ensures AskQuestionNormalisedFirst(question, Returned(OneDocument()), CitingModel()).response.answer
            == "[http://a]"
  {
    var ds := OneDocument();
    MessageCitationsKept(question, ds, CitingModel(), "[1]");
    NormalisedFirstRewritesMessage(question, ds, CitingModel(), "[1]");
    OneDocumentAnnotated();
    OneCitationRewritten();
  }
}
