/** Worked instances of the citation rewrite: two citations replaced in one answer, a
    bracketed number no document carries, and the dependence on document order. */
module CitationExamples {
  import opened Text
  import opened Results
  import opened Documents
  import opened Citations

  lemma SmallTokens()
    ensures Token(1) == "[1]" && Token(2) == "[2]"
  {
  }

  /** A step whose marker occurs replaces it by the bracketed source. */
  lemma StepReplacing(text: string, n: nat, src: string, c: string)
    requires Contains(text, Token(n))
    ensures RewriteStep(Plain(text), Doc(c, Some(src), Some(n)))
            == Returned(Plain(ReplaceAll(text, Token(n), "[" + src + "]")))
  {
  }

  /** A step whose marker does not occur leaves the answer as it is. */
  lemma StepSkipping(text: string, d: Doc)
    requires d.index.Some? && !Contains(text, Token(d.index.value))
    ensures RewriteStep(Plain(text), d) == Returned(Plain(text))
  {
  }

  /** Two documents: the second step sees what the first produced. */
  lemma TwoSteps(a0: Generated, d1: Doc, d2: Doc, a1: Generated, a2: Generated)
    requires RewriteStep(a0, d1) == Returned(a1) && RewriteStep(a1, d2) == Returned(a2)
    ensures Rewrite(a0, [d1, d2]) == Returned(a2)
  {
    assert [d1, d2][1..] == [d2] && [d2][1..] == [];
    assert Rewrite(a1, [d2]) == Returned(a2);
  }

  lemma Regroup(p: string, q: string, r: string, s: string)
    ensures p + q + (r + s) == p + q + r + s
  {
  }

  /** Replacing a marker that occurs once, after text free of its first character. */
  lemma ReplaceSingle(x: string, z: string, pat: string, rep: string)
    requires |pat| > 0 && pat[0] !in x && !Contains(z, pat) && !Contains(pat[..|pat| - 1], pat)
    ensures Contains(x + pat + z, pat)
    ensures ReplaceAll(x + pat + z, pat, rep) == x + rep + z
  {
    assert x + pat + z == x + (pat + z);
    assert StartsWith(pat + z, pat);
    ContainsPrepend(x, pat + z, pat);
    ContainsAfterPlain(x, pat[..|pat| - 1], pat);
    ReplaceFirstOccurrence(x, z, pat, rep);
    ReplaceAbsent(z, pat, rep);
  }

  lemma FirstMarkerFacts()
    ensures "[1]"[..2] == "[1" && !Contains("[1", "[1]") && !Contains("[2]", "[1]")
  {
  }

  lemma FirstMarkerNotInTail(y: string)
    requires '[' !in y
    ensures !Contains(y + "[2]", "[1]")
  {
    FirstMarkerFacts();
    ContainsAfterPlain(y, "[2]", "[1]");
  }

  /** The first step of the two-citation example: "[1]" becomes "[a]". */
  lemma FirstCitationStep(x: string, y: string, a: string, c1: string)
    requires '[' !in x && '[' !in y
    ensures RewriteStep(Plain(x + "[1]" + y + "[2]"), Doc(c1, Some(a), Some(1)))
            == Returned(Plain(x + ("[" + a + "]") + y + "[2]"))
  {
    SmallTokens();
    FirstMarkerFacts();
    FirstMarkerNotInTail(y);
    ReplaceSingle(x, y + "[2]", "[1]", "[" + a + "]");
    Regroup(x, "[1]", y, "[2]");
    Regroup(x, "[" + a + "]", y, "[2]");
    StepReplacing(x + "[1]" + y + "[2]", 1, a, c1);
  }

  lemma SecondMarkerFacts()
    ensures "[2]"[..2] == "[2" && !Contains("[2", "[2]") && StartsWith("[2]", "[2]")
  {
  }

  /** "]y[2" holds no "[2]" when y holds no '['. */
  lemma SecondMarkerNotInTail(y: string)
    requires '[' !in y
    ensures !Contains("]" + y + "[2", "[2]")
  {
    assert '[' !in "]" + y;
    SecondMarkerFacts();
    ContainsAfterPlain("]" + y, "[2", "[2]");
  }

  /** A '[' followed by something other than '2' does not start "[2]". */
  lemma SecondMarkerNotAtOpen(a: string, rest: string)
    requires |a| == 0 || a[0] != '2'
    requires |rest| > 0 && rest[0] == ']'
    ensures !StartsWith("[" + a + rest, "[2]")
  {
    var w := "[" + a + rest;
    if |a| == 0 {
      assert w[1] == ']';
    } else {
      assert w[1] == a[0];
    }
  }

  lemma NoEarlySecondMarkerShape(x: string, a: string, y: string)
    ensures x + "[" + a + "]" + y + "[2" == x + ("[" + a + ("]" + y + "[2"))
    ensures ("[" + a + ("]" + y + "[2"))[1..] == a + ("]" + y + "[2")
  {
  }

  /** In "x[a]y" followed by the start of "[2]", the marker "[2]" does not occur. */
  lemma NoEarlySecondMarker(x: string, a: string, y: string)
    requires '[' !in x && '[' !in y && '[' !in a
    requires |a| == 0 || a[0] != '2'
    ensures !Contains(x + "[" + a + "]" + y + "[2", "[2]")
  {
    SecondMarkerNotInTail(y);
    SecondMarkerNotAtOpen(a, "]" + y + "[2");
    NoEarlySecondMarkerShape(x, a, y);
    NotContainsPastHead("[" + a + ("]" + y + "[2"), a, "]" + y + "[2", "[2]");
    ContainsAfterPlain(x, "[" + a + ("]" + y + "[2"), "[2]");
  }

  lemma EmptyTail(u: string, m: string, rep: string)
    requires |m| > 0
    ensures u + m + "" == u + m && u + rep + "" == u + rep && ReplaceAll("", m, rep) == ""
  {
  }

  /** The second step: the one "[2]", at the end of u + "[2]", becomes "[b]". */
  lemma SecondCitationStep(u: string, b: string, c2: string)
    requires !Contains(u + "[2", "[2]")
    ensures RewriteStep(Plain(u + "[2]"), Doc(c2, Some(b), Some(2))) == Returned(Plain(u + ("[" + b + "]")))
  {
    SmallTokens();
    SecondMarkerFacts();
    ReplaceFirstOccurrence(u, "", "[2]", "[" + b + "]");
    EmptyTail(u, "[2]", "[" + b + "]");
    ContainsPrepend(u, "[2]", "[2]");
    StepReplacing(u + "[2]", 2, b, c2);
  }

  /** An answer citing two documents, each once, in the text "x[1]y[2]": both markers
      become their sources, provided the surrounding text holds no '[' and the first
      source cannot be mistaken for the second marker. */
  lemma RewriteTwoCitations(x: string, y: string, a: string, b: string, c1: string, c2: string)
    requires '[' !in x && '[' !in y && '[' !in a
    requires |a| == 0 || a[0] != '2'
    ensures Rewrite(Plain(x + "[1]" + y + "[2]"), [Doc(c1, Some(a), Some(1)), Doc(c2, Some(b), Some(2))])
            == Returned(Plain(x + ("[" + a + "]") + y + ("[" + b + "]")))
  {
    var u := x + ("[" + a + "]") + y;
    FirstCitationStep(x, y, a, c1);
    NoEarlySecondMarker(x, a, y);
    assert u + "[2" == x + "[" + a + "]" + y + "[2";
    SecondCitationStep(u, b, c2);
    TwoSteps(Plain(x + "[1]" + y + "[2]"), Doc(c1, Some(a), Some(1)), Doc(c2, Some(b), Some(2)),
             Plain(u + "[2]"), Plain(u + ("[" + b + "]")));
  }

  lemma ExampleQuestionText()
    ensures '[' !in "X " && '[' !in " and Y " && '[' !in "http://a"
    ensures "X " + "[1]" + " and Y " + "[2]" == "X [1] and Y [2]"
  {
  }

  lemma ExampleAnswerText()
    ensures "X " + ("[" + "http://a" + "]") + " and Y " + ("[" + "http://b" + "]")
            == "X [http://a] and Y [http://b]"
  {
    assert "[" + "http://a" + "]" == "[http://a]";
    assert "[" + "http://b" + "]" == "[http://b]";
    assert "X " + "[http://a]" == "X [http://a]";
    assert "X [http://a]" + " and Y " == "X [http://a] and Y ";
  }

  /** The two-document example: "X [1] and Y [2]" with sources http://a and http://b. */
  lemma RewriteExample()
    ensures Rewrite(Plain("X [1] and Y [2]"),
                    [Doc("a", Some("http://a"), Some(1)), Doc("b", Some("http://b"), Some(2))])
            == Returned(Plain("X [http://a] and Y [http://b]"))
  {
    ExampleQuestionText();
    ExampleAnswerText();
    RewriteTwoCitations("X ", " and Y ", "http://a", "http://b", "a", "b");
  }

  /** "[5]" is none of the markers [1], [2], [3]. */
  lemma NotMarkerFive(n: nat)
    requires 1 <= n <= 3
    ensures !Contains("[5]", Token(n))
  {
    var t := Token(n);
    assert t[1] == Digit(n) && Digit(n) != '5';
    assert "[5]"[1..] == "5]" + "" && '[' !in "5]";
    NotContainsPastHead("[5]", "5]", "", t);
  }

  /** "see [5]" holds none of the markers [1], [2], [3]. */
  lemma NoSmallMarkerInExample(n: nat)
    requires 1 <= n <= 3
    ensures !Contains("see [5]", Token(n))
  {
    assert "see " + "[5]" == "see [5]" && '[' !in "see ";
    NotMarkerFive(n);
    ContainsAfterPlain("see ", "[5]", Token(n));
  }

  /** A bracketed number with no matching document stays literal: with at most K
      documents numbered from 1, "[5]" is nobody's marker. */
  lemma UnknownIndexStaysLiteral(ds: seq<Doc>)
    requires |ds| <= K
    ensures Rewrite(Plain("see [5]"), Annotate(ds)) == Returned(Plain("see [5]"))
  {
    forall n | 1 <= n <= K ensures !Contains("see [5]", Token(n)) {
      NoSmallMarkerInExample(n);
    }
    NoSmallMarkerUnchanged("see [5]", ds);
  }

  /** A text holding none of the markers [1] … [K] is left as it is by the rewrite over
      at most K numbered documents. */
  lemma NoSmallMarkerUnchanged(s: string, ds: seq<Doc>)
    requires |ds| <= K
    requires forall n :: 1 <= n <= K ==> !Contains(s, Token(n))
    ensures Rewrite(Plain(s), Annotate(ds)) == Returned(Plain(s))
  {
    var r := Annotate(ds);
    AnnotateIndices(ds);
    forall p | 0 <= p < |r| ensures !HasToken(Plain(s), Token(r[p].index.value)) {
      assert r[p].index.value == p + 1;
    }
    RewriteWithoutCitations(Plain(s), r);
  }

  /** A text that is exactly a marker is replaced as a whole. */
  lemma ReplaceWholeMarker(n: nat, rep: string)
    ensures Contains(Token(n), Token(n))
    ensures ReplaceAll(Token(n), Token(n), rep) == rep
  {
    var t := Token(n);
    ShorterDoesNotContain(t[..|t| - 1], t);
    assert "" + t[..|t| - 1] == t[..|t| - 1] && "" + t + "" == t;
    ReplaceFirstOccurrence("", "", t, rep);
    assert ReplaceAll("", t, rep) == "" && "" + rep + "" == rep;
    assert StartsWith(t, t);
  }

  /** Order matters: a source that looks like a later marker is rewritten again by the
      later document, and processing the same documents the other way round does not. */
  lemma RewriteIsSequential()
    ensures Rewrite(Plain("[1]"), [Doc("a", Some("2"), Some(1)), Doc("b", Some("http://b"), Some(2))])
            == Returned(Plain("[http://b]"))
    ensures Rewrite(Plain("[1]"), [Doc("b", Some("http://b"), Some(2)), Doc("a", Some("2"), Some(1))])
            == Returned(Plain("[2]"))
  {
    var a := Doc("a", Some("2"), Some(1));
    var b := Doc("b", Some("http://b"), Some(2));
    SmallTokens();
    ReplaceWholeMarker(1, "[2]");
    ReplaceWholeMarker(2, "[http://b]");
    StepReplacing("[1]", 1, "2", "a");
    StepReplacing("[2]", 2, "http://b", "b");
    assert !Contains("[1]", "[2]");
    assert "[" + "2" + "]" == "[2]" && "[" + "http://b" + "]" == "[http://b]";
    StepSkipping("[1]", b);
    TwoSteps(Plain("[1]"), a, b, Plain("[2]"), Plain("[http://b]"));
    TwoSteps(Plain("[1]"), b, a, Plain("[1]"), Plain("[2]"));
  }
}
