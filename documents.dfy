/** Retrieved documents and context assembly (`format_docs`, app/core.py:100-105). */
module Documents {
  import opened Text
  import opened Results

  /** The retriever returns at most this many documents (`search_kwargs={"k": 3}`). */
  const K: nat := 3

  /** A retrieved document. Of its metadata dictionary only the two keys the core reads
      or writes are kept: "source" (the page URL; None when the key is absent) and
      "index" (the citation index; None until `format_docs` writes it). */
  class Document {
    var pageContent: string
    var source: Option<string>
    var index: Option<nat>

    constructor (pageContent: string, source: Option<string>)
      ensures this.pageContent == pageContent && this.source == source && index == None
    {
      this.pageContent := pageContent;
      this.source := source;
      index := None;
    }
  }

  /** The value a document holds at one moment. */
  datatype Doc = Doc(pageContent: string, source: Option<string>, index: Option<nat>)

  function View(d: Document): Doc
    reads d
  {
    Doc(d.pageContent, d.source, d.index)
  }

  function Views(docs: seq<Document>): seq<Doc>
    reads docs
  {
    seq(|docs|, p reads docs requires 0 <= p < |docs| => View(docs[p]))
  }

  /** "[Документ n]: <content>", the labelled block of the document with citation index n. */
  function Block(n: nat, content: string): string
  {
    "[Документ " + NatToString(n) + "]: " + content
  }

  /** The blocks of the documents in retrieval order, numbered from 1. */
  function Blocks(ds: seq<Doc>): seq<string>
  {
    seq(|ds|, p requires 0 <= p < |ds| => Block(p + 1, ds[p].pageContent))
  }

  /** The context string: the blocks separated by blank lines. */
  function Context(ds: seq<Doc>): string
  {
    Join("\n\n", Blocks(ds))
  }

  /** The documents as `format_docs` leaves them: position p carries index p+1. */
  function Annotate(ds: seq<Doc>): seq<Doc>
  {
    seq(|ds|, p requires 0 <= p < |ds| => ds[p].(index := Some(p + 1)))
  }

  predicate DistinctObjects(docs: seq<Document>)
  {
    forall p, q :: 0 <= p < q < |docs| ==> docs[p] != docs[q]
  }

  /** The last position before n holding the same object as position p. */
  function LastPosition(docs: seq<Document>, n: nat, p: nat): (r: nat)
    requires p < n <= |docs|
    ensures p <= r < n
    decreases n
  {
    if docs[n - 1] == docs[p] then n - 1 else LastPosition(docs, n - 1, p)
  }

  /** The last position holds the same object, and no later position before n does. */
  lemma {:induction false} LastPositionIsLast(docs: seq<Document>, n: nat, p: nat)
    requires p < n <= |docs|
    ensures docs[LastPosition(docs, n, p)] == docs[p]
    ensures forall q :: LastPosition(docs, n, p) < q < n ==> docs[q] != docs[p]
    decreases n
  {
    if docs[n - 1] != docs[p] {
      LastPositionIsLast(docs, n - 1, p);
    }
  }

  lemma BlocksSnoc(ds: seq<Doc>, i: nat)
    requires i < |ds|
    ensures Blocks(ds[..i + 1]) == Blocks(ds[..i]) + [Block(i + 1, ds[i].pageContent)]
  {
  }

  /** `format_docs`: numbers the documents from 1 by writing metadata["index"] on each
      object in place and returns the context string together with the same list.
      When one object is retrieved twice the later write wins, so it carries the number
      of its last position; for distinct objects the numbering is 1..N. */
  method FormatDocs(docs: seq<Document>) returns (context: string, annotated: seq<Document>)
    modifies docs
    ensures annotated == docs
    ensures context == Context(old(Views(docs)))
    ensures forall p :: 0 <= p < |docs| ==>
              docs[p].pageContent == old(docs[p].pageContent) && docs[p].source == old(docs[p].source)
    ensures forall p :: 0 <= p < |docs| ==> docs[p].index == Some(LastPosition(docs, |docs|, p) + 1)
    ensures DistinctObjects(docs) ==> Views(docs) == Annotate(old(Views(docs)))
  {
    ghost var before := Views(docs);
    var formatted: seq<string> := [];
    for i := 0 to |docs|
      invariant formatted == Blocks(before[..i])
      invariant forall p :: 0 <= p < |docs| ==>
                  docs[p].pageContent == before[p].pageContent && docs[p].source == before[p].source
      invariant forall p :: 0 <= p < i ==> docs[p].index == Some(LastPosition(docs, i, p) + 1)
    {
      BlocksSnoc(before, i);
      formatted := formatted + [Block(i + 1, docs[i].pageContent)];
      docs[i].index := Some(i + 1);
    }
    assert before[..|docs|] == before;
    context := Join("\n\n", formatted);
    annotated := docs;
    AnnotateByLastPosition(docs, before, Views(docs));
  }

  /** With each object retrieved once, numbering by last position is numbering by position. */
  lemma AnnotateByLastPosition(docs: seq<Document>, before: seq<Doc>, after: seq<Doc>)
    requires |before| == |docs| == |after|
    requires forall p :: 0 <= p < |docs| ==>
               after[p] == Doc(before[p].pageContent, before[p].source, Some(LastPosition(docs, |docs|, p) + 1))
    ensures DistinctObjects(docs) ==> after == Annotate(before)
  {
    if DistinctObjects(docs) {
      forall p | 0 <= p < |docs| ensures after[p] == Annotate(before)[p] {
        LastPositionIsLast(docs, |docs|, p);
      }
    }
  }

  /** The numbers the documents carry as their index. */
  function IndexSet(ds: seq<Doc>): set<nat>
  {
    set p | 0 <= p < |ds| && ds[p].index.Some? :: ds[p].index.value
  }

  /** The citation indices are dense and unique: position p carries p+1, every number in
      1..N is used once, and none exceeds K when the retriever kept to its limit. */
  lemma AnnotateIndices(ds: seq<Doc>)
    ensures |Annotate(ds)| == |ds|
    ensures forall p :: 0 <= p < |ds| ==> Annotate(ds)[p].index == Some(p + 1)
    ensures forall p, q :: 0 <= p < |ds| && 0 <= q < |ds| && Annotate(ds)[p].index == Annotate(ds)[q].index ==> p == q
    ensures forall n: nat :: n in IndexSet(Annotate(ds)) <==> 1 <= n <= |ds|
    ensures |ds| <= K ==> forall p :: 0 <= p < |ds| ==> Annotate(ds)[p].index.value <= K
  {
    var r := Annotate(ds);
    forall n: nat | 1 <= n <= |ds| ensures n in IndexSet(r) {
      assert r[n - 1].index == Some(n);
    }
  }

  /** Annotation writes only the index: contents and sources are those retrieved. */
  lemma AnnotateKeepsContent(ds: seq<Doc>)
    ensures var r := Annotate(ds);
            |r| == |ds| &&
            forall p :: 0 <= p < |r| ==> r[p].pageContent == ds[p].pageContent && r[p].source == ds[p].source
  {
  }

  /** The context of no documents is empty, and the context grows block by block. */
  lemma {:induction false} ContextStep(ds: seq<Doc>, d: Doc)
    ensures Context([]) == ""
    ensures Context(ds + [d]) ==
              if |ds| == 0 then Block(1, d.pageContent)
              else Context(ds) + "\n\n" + Block(|ds| + 1, d.pageContent)
  {
    assert Blocks(ds + [d]) == Blocks(ds) + [Block(|ds| + 1, d.pageContent)];
    JoinSnoc("\n\n", Blocks(ds), Block(|ds| + 1, d.pageContent));
  }

  /** Every retrieved document's block, with its number, occurs in the context. */
  lemma ContextHasEveryBlock(ds: seq<Doc>, p: nat)
    requires p < |ds|
    ensures Contains(Context(ds), Block(p + 1, ds[p].pageContent))
  {
    JoinContainsParts("\n\n", Blocks(ds), p);
  }

  /** The context begins with the first block and ends with the last. */
  lemma ContextEnds(ds: seq<Doc>)
    requires |ds| > 0
    ensures Block(1, ds[0].pageContent) <= Context(ds)
    ensures var c := Context(ds); var l := Block(|ds|, ds[|ds| - 1].pageContent);
            |l| <= |c| && c[|c| - |l|..] == l
  {
    JoinEnds("\n\n", Blocks(ds));
  }

  /** The context does not depend on any index already stored in the documents. */
  lemma ContextIgnoresIndex(ds: seq<Doc>)
    ensures Context(Annotate(ds)) == Context(ds)
  {
    assert Blocks(Annotate(ds)) == Blocks(ds);
  }
}
