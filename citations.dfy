/** Citation rewriting (`format_answer_with_sources`, app/core.py:114-118) and the
    list of sources of a response (app/core.py:128-131). */
module Citations {
  import opened Text
  import opened Results
  import opened Documents

  /** What the language model returns: a plain string, or a chat message object whose
      text is its `content` attribute. */
  datatype Generated = Plain(text: string) | ChatMessage(content: string)

  /** A citation marker: '[' and ']' around text that holds neither bracket. */
  predicate IsMarker(t: string)
  {
    |t| >= 2 && t[0] == '[' && t[|t| - 1] == ']' &&
    forall k :: 0 < k < |t| - 1 ==> t[k] != '[' && t[k] != ']'
  }

  /** "[n]", the citation marker of the document with index n. */
  function Token(n: nat): (t: string)
    ensures |t| >= 3 && t[0] == '[' && t[|t| - 1] == ']'
    ensures t[1..|t| - 1] == NatToString(n)
    ensures IsMarker(t)
  {
    var t := "[" + NatToString(n) + "]";
    assert forall k :: 0 < k < |t| - 1 ==> t[k] == NatToString(n)[k - 1];
    t
  }

  /** Distinct indices have distinct markers. */
  lemma TokenInjective(m: nat, n: nat)
    requires Token(m) == Token(n)
    ensures m == n
  {
    assert NatToString(m) == Token(m)[1..|Token(m)| - 1];
    assert NatToString(n) == Token(n)[1..|Token(n)| - 1];
    NatToStringInjective(m, n);
  }

  lemma TokensDistinct(m: nat, n: nat)
    ensures m != n ==> Token(m) != Token(n)
  {
    if Token(m) == Token(n) {
      TokenInjective(m, n);
    }
  }

  /** Two markers that both start a text are the same marker: each ends at the first
      ']' after its '['. */
  lemma MarkersAtSamePlace(s: string, t: string, u: string)
    requires IsMarker(t) && IsMarker(u)
    ensures t <= s && u <= s ==> t == u
  {
    if t <= s && u <= s {
      assert |t| == |u|;
      assert t == s[..|t|] == u;
    }
  }

  /** No marker starts strictly inside an occurrence of another marker. */
  lemma NoMarkerInsideMarker(s: string, pat: string, t: string, i: nat)
    requires IsMarker(pat) && IsMarker(t)
    ensures pat <= s && 0 < i < |pat| ==> !(t <= s[i..])
  {
    if pat <= s && 0 < i < |pat| {
      assert s[i..][0] == s[i] == pat[i];
    }
  }

  /** Replacing one marker keeps every occurrence of a different marker, because two
      markers never overlap. */
  lemma {:induction false} ReplaceKeepsOtherMarker(s: string, pat: string, rep: string, t: string)
    requires IsMarker(pat) && IsMarker(t) && pat != t && Contains(s, t)
    ensures Contains(ReplaceAll(s, pat, rep), t)
    decreases |s|
  {
    assert |s| > 0;
    if StartsWith(s, pat) {
      var rest := s[|pat|..];
      ContainsAtOffset(s, t);
      var i :| 0 <= i <= |s| && t <= s[i..];
      MarkersAtSamePlace(s, pat, t);
      NoMarkerInsideMarker(s, pat, t, i);
      assert s[0..] == s;
      assert i >= |pat|;
      assert rest[i - |pat|..] == s[i..];
      ContainsAtOffset(rest, t);
      ReplaceKeepsOtherMarker(rest, pat, rep, t);
      ContainsPrepend(rep, ReplaceAll(rest, pat, rep), t);
    } else if StartsWith(s, t) {
      var tail := s[|t|..];
      assert s[1..] == t[1..] + tail;
      assert forall k :: 0 <= k < |t[1..]| ==> t[1..][k] == t[k + 1];
      assert pat[0] !in t[1..];
      ReplaceAfterPlain(t[1..], tail, pat, rep);
      var r := ReplaceAll(s, pat, rep);
      assert r == [s[0]] + (t[1..] + ReplaceAll(tail, pat, rep));
      assert r == t + ReplaceAll(tail, pat, rep);
      assert StartsWith(r, t);
    } else {
      ReplaceKeepsOtherMarker(s[1..], pat, rep, t);
      ContainsPrepend([s[0]], ReplaceAll(s[1..], pat, rep), t);
    }
  }

  /** `marker in answer`. A chat message is a record object: membership iterates its
      (field, value) pairs, none of which equals a string, so it never holds. */
  predicate HasToken(answer: Generated, marker: string)
  {
    answer.Plain? && Contains(answer.text, marker)
  }

  /** One iteration of the loop over the documents: build the marker from
      metadata["index"] (a KeyError when absent); if it occurs, read metadata["source"]
      (a KeyError when absent) and replace every occurrence by "[source]". */
  function RewriteStep(answer: Generated, d: Doc): Outcome<Generated>
  {
    match d.index
    case None => Raised(KeyErrorMessage("index"))
    case Some(n) =>
      if !HasToken(answer, Token(n)) then Returned(answer)
      else match d.source
        case None => Raised(KeyErrorMessage("source"))
        case Some(src) => Returned(Plain(ReplaceAll(answer.text, Token(n), "[" + src + "]")))
  }

  /** The whole loop: the steps in retrieval order, each seeing the text the earlier
      ones produced; the first KeyError ends it. */
  function Rewrite(answer: Generated, ds: seq<Doc>): Outcome<Generated>
    decreases |ds|
  {
    if |ds| == 0 then Returned(answer)
    else match RewriteStep(answer, ds[0])
      case Raised(e) => Raised(e)
      case Returned(next) => Rewrite(next, ds[1..])
  }

  /** The rewrite loop over the documents `format_docs` annotated, reading their
      metadata as it stands. */
  method RewriteCitations(answer: Generated, docs: seq<Document>) returns (r: Outcome<Generated>)
    ensures r == Rewrite(answer, Views(docs))
  {
    ghost var ds := Views(docs);
    var current := answer;
    var i := 0;
    while i < |docs|
      invariant 0 <= i <= |docs|
      invariant Rewrite(answer, ds) == Rewrite(current, ds[i..])
    {
      assert ds[i..][0] == View(docs[i]) && ds[i..][1..] == ds[i + 1..];
      var d := docs[i];
      if d.index.None? {
        return Raised(KeyErrorMessage("index"));
      }
      var marker := "[" + NatToString(d.index.value) + "]";
      if HasToken(current, marker) {
        if d.source.None? {
          return Raised(KeyErrorMessage("source"));
        }
        current := Plain(ReplaceAll(current.text, marker, "[" + d.source.value + "]"));
      }
      i := i + 1;
    }
    r := Returned(current);
  }

  predicate Indexed(ds: seq<Doc>)
  {
    forall p :: 0 <= p < |ds| ==> ds[p].index.Some?
  }

  predicate AllHaveSource(ds: seq<Doc>)
  {
    forall p :: 0 <= p < |ds| ==> ds[p].source.Some?
  }

  /** An answer in which no document's marker occurs comes back unchanged. */
  lemma {:induction false} RewriteWithoutCitations(answer: Generated, ds: seq<Doc>)
    requires Indexed(ds)
    requires forall p :: 0 <= p < |ds| ==> !HasToken(answer, Token(ds[p].index.value))
    ensures Rewrite(answer, ds) == Returned(answer)
    decreases |ds|
  {
    if |ds| > 0 {
      RewriteWithoutCitations(answer, ds[1..]);
    }
  }

  /** A chat-message answer is never rewritten: the markers are not found in it. */
  lemma {:induction false} RewriteLeavesMessage(c: string, ds: seq<Doc>)
    requires Indexed(ds)
    ensures Rewrite(ChatMessage(c), ds) == Returned(ChatMessage(c))
    decreases |ds|
  {
    if |ds| > 0 {
      RewriteLeavesMessage(c, ds[1..]);
    }
  }

  /** With every index and every source present the rewrite always returns; it raises
      only on a missing metadata key. */
  lemma {:induction false} RewriteReturns(answer: Generated, ds: seq<Doc>)
    requires Indexed(ds) && AllHaveSource(ds)
    ensures Rewrite(answer, ds).Returned?
    decreases |ds|
  {
    if |ds| > 0 {
      var next := RewriteStep(answer, ds[0]);
      assert next.Returned?;
      RewriteReturns(next.value, ds[1..]);
    }
  }

  /** When the rewrite raises, some document was missing "index" or "source", and the
      message names that key. */
  lemma {:induction false} RewriteRaisesOnMissingKey(answer: Generated, ds: seq<Doc>)
    requires Rewrite(answer, ds).Raised?
    ensures (exists p :: 0 <= p < |ds| && ds[p].index.None?) || (exists p :: 0 <= p < |ds| && ds[p].source.None?)
    ensures Rewrite(answer, ds).message in {KeyErrorMessage("index"), KeyErrorMessage("source")}
    decreases |ds|
  {
    var step := RewriteStep(answer, ds[0]);
    if step.Raised? {
      if ds[0].index.Some? {
        assert ds[0].source.None?;
      }
    } else {
      RewriteRaisesOnMissingKey(step.value, ds[1..]);
      var p :| 0 <= p < |ds[1..]| && (ds[1..][p].index.None? || ds[1..][p].source.None?);
      assert ds[p + 1] == ds[1..][p];
    }
  }

  /** A marker that no document carries survives the rewrite: whatever the other
      documents replace, the text still contains it. */
  lemma {:induction false} RewriteKeepsUnknownMarker(text: string, ds: seq<Doc>, n: nat)
    requires Indexed(ds) && AllHaveSource(ds)
    requires forall p :: 0 <= p < |ds| ==> ds[p].index.value != n
    requires Contains(text, Token(n))
    ensures Rewrite(Plain(text), ds).Returned?
    ensures Rewrite(Plain(text), ds).value.Plain?
    ensures Contains(Rewrite(Plain(text), ds).value.text, Token(n))
    decreases |ds|
  {
    if |ds| > 0 {
      var m := ds[0].index.value;
      TokensDistinct(m, n);
      var next := if Contains(text, Token(m)) then ReplaceAll(text, Token(m), "[" + ds[0].source.value + "]") else text;
      assert RewriteStep(Plain(text), ds[0]) == Returned(Plain(next));
      if Contains(text, Token(m)) {
        ReplaceKeepsOtherMarker(text, Token(m), "[" + ds[0].source.value + "]", Token(n));
      }
      assert Indexed(ds[1..]) && AllHaveSource(ds[1..]);
      RewriteKeepsUnknownMarker(next, ds[1..], n);
    }
  }

  /** After `format_docs`, a bracketed number outside 1..N stays literal in the answer,
      whatever else the answer cites. */
  lemma UnknownIndexSurvives(text: string, ds: seq<Doc>, n: nat)
    requires AllHaveSource(ds) && !(1 <= n <= |ds|) && Contains(text, Token(n))
    ensures Rewrite(Plain(text), Annotate(ds)).Returned?
    ensures Rewrite(Plain(text), Annotate(ds)).value.Plain?
    ensures Contains(Rewrite(Plain(text), Annotate(ds)).value.text, Token(n))
  {
    AnnotateIndices(ds);
    AnnotateKeepsContent(ds);
    assert AllHaveSource(Annotate(ds));
    RewriteKeepsUnknownMarker(text, Annotate(ds), n);
  }

  /** Over numbered documents the only exception is the missing "source". */
  lemma {:induction false} RewriteIndexedRaisesOnSource(answer: Generated, ds: seq<Doc>)
    requires Indexed(ds) && Rewrite(answer, ds).Raised?
    ensures Rewrite(answer, ds).message == KeyErrorMessage("source")
    decreases |ds|
  {
    var step := RewriteStep(answer, ds[0]);
    if step.Returned? {
      assert Indexed(ds[1..]);
      RewriteIndexedRaisesOnSource(step.value, ds[1..]);
    }
  }

  /** The list has no repeated element. */
  predicate NoDuplicates(xs: seq<string>)
  {
    forall p, q :: 0 <= p < q < |xs| ==> xs[p] != xs[q]
  }

  /** The elements of xs, each once, in the order of first appearance. */
  function Dedup(xs: seq<string>): (r: seq<string>)
    ensures NoDuplicates(r)
    ensures forall x :: x in r <==> x in xs
    decreases |xs|
  {
    if |xs| == 0 then []
    else
      var rest := Dedup(xs[..|xs| - 1]);
      var last := xs[|xs| - 1];
      assert forall x :: x in xs <==> x in xs[..|xs| - 1] || x == last by {
        assert xs == xs[..|xs| - 1] + [last];
      }
      if last in rest then rest else rest + [last]
  }

  function SourceSeq(ds: seq<Doc>): seq<string>
    requires AllHaveSource(ds)
  {
    seq(|ds|, p requires 0 <= p < |ds| => ds[p].source.value)
  }

  /** `list(set(d.metadata["source"] for d in docs))`: every retrieved document's source,
      each once, whatever the answer cites; a KeyError when a document has none.
      Python's set has no defined order, so only membership and uniqueness are promised. */
  function SourcesOf(ds: seq<Doc>): (r: Outcome<seq<string>>)
    ensures r.Returned? <==> AllHaveSource(ds)
    ensures r.Raised? ==> r.message == KeyErrorMessage("source")
    ensures r.Returned? ==> NoDuplicates(r.value)
    ensures r.Returned? ==> forall x :: x in r.value <==> exists p :: 0 <= p < |ds| && ds[p].source == Some(x)
  {
    if AllHaveSource(ds) then
      var all := SourceSeq(ds);
      assert forall x :: x in all <==> exists p :: 0 <= p < |ds| && ds[p].source == Some(x) by {
        forall x ensures x in all ==> exists p :: 0 <= p < |ds| && ds[p].source == Some(x) {
          if x in all {
            var p :| 0 <= p < |all| && all[p] == x;
            assert ds[p].source == Some(x);
          }
        }
        forall x ensures (exists p :: 0 <= p < |ds| && ds[p].source == Some(x)) ==> x in all {
          if exists p :: 0 <= p < |ds| && ds[p].source == Some(x) {
            var p :| 0 <= p < |ds| && ds[p].source == Some(x);
            assert all[p] == x;
          }
        }
      }
      Returned(Dedup(all))
    else Raised(KeyErrorMessage("source"))
  }

  /** The sources do not depend on the citation indices written into the documents. */
  lemma SourcesIgnoreIndex(ds: seq<Doc>)
    ensures SourcesOf(Annotate(ds)) == SourcesOf(ds)
  {
    AnnotateKeepsContent(ds);
    if AllHaveSource(ds) {
      assert SourceSeq(Annotate(ds)) == SourceSeq(ds);
    }
  }
}
