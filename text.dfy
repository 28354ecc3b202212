/** String operations the pipeline relies on, with the meaning Python gives them:
    decimal rendering of an int (`str(n)`, f-string interpolation), substring
    membership (`t in s`), `s.replace(old, new)`, `sep.join(parts)` and
    `s.split(c)` for a one-character separator. */
module Text {

  /** The decimal digit for 0 <= d < 10. */
  function Digit(d: nat): (c: char)
    requires d < 10
    ensures '0' <= c <= '9'
  {
    "0123456789"[d]
  }

  predicate IsDigits(s: string) {
    forall k :: 0 <= k < |s| ==> '0' <= s[k] <= '9'
  }

  /** `str(n)` for a non-negative int: its decimal digits, most significant first. */
  function NatToString(n: nat): (r: string)
    ensures |r| > 0 && IsDigits(r)
    ensures n < 10 <==> |r| == 1
  {
    if n < 10 then [Digit(n)] else NatToString(n / 10) + [Digit(n % 10)]
  }

  /** The value a digit character stands for. */
  function DigitValue(c: char): nat
    requires '0' <= c <= '9'
  {
    c as nat - '0' as nat
  }

  /** The number a nonempty string of digits denotes. */
  function DigitsValue(s: string): nat
    requires IsDigits(s)
  {
    if |s| == 0 then 0 else DigitsValue(s[..|s| - 1]) * 10 + DigitValue(s[|s| - 1])
  }

  /** Reading the decimal rendering back gives the number: so `str` is injective on nats. */
  lemma {:induction false} NatToStringRoundTrip(n: nat)
    ensures DigitsValue(NatToString(n)) == n
  {
    var r := NatToString(n);
    if n < 10 {
      assert r[..0] == [];
    } else {
      NatToStringRoundTrip(n / 10);
      assert r[..|r| - 1] == NatToString(n / 10);
    }
  }

  lemma NatToStringInjective(m: nat, n: nat)
    requires NatToString(m) == NatToString(n)
    ensures m == n
  {
    NatToStringRoundTrip(m);
    NatToStringRoundTrip(n);
  }

  /** t occurs in s at offset 0, compared character by character: the test `t in s`
      makes at each offset. */
  predicate StartsWith(s: string, t: string)
    ensures StartsWith(s, t) <==> t <= s
    decreases |t|
  {
    |t| == 0 || (|s| > 0 && s[0] == t[0] && StartsWith(s[1..], t[1..]))
  }

  /** Python's `t in s`: t occurs in s at some offset (the empty string occurs everywhere). */
  predicate Contains(s: string, t: string)
    decreases |s|
  {
    StartsWith(s, t) || (|s| > 0 && Contains(s[1..], t))
  }

  /** `t in s` holds exactly when t is a prefix of s from some offset. */
  lemma {:induction false} ContainsAtOffset(s: string, t: string)
    ensures Contains(s, t) <==> exists i :: 0 <= i <= |s| && t <= s[i..]
    decreases |s|
  {
    if StartsWith(s, t) {
      assert s[0..] == s;
    }
    if |s| > 0 {
      ContainsAtOffset(s[1..], t);
      if exists i :: 0 <= i <= |s[1..]| && t <= s[1..][i..] {
        var i :| 0 <= i <= |s[1..]| && t <= s[1..][i..];
        assert s[1..][i..] == s[i + 1..];
      }
      if exists i :: 0 <= i <= |s| && t <= s[i..] {
        var i :| 0 <= i <= |s| && t <= s[i..];
        if i == 0 {
          assert s[0..] == s;
        } else {
          assert s[1..][i - 1..] == s[i..];
        }
      }
    } else {
      if exists i :: 0 <= i <= |s| && t <= s[i..] {
        var i :| 0 <= i <= |s| && t <= s[i..];
        assert s[i..] == s;
      }
    }
  }

  /** Text in front of an occurrence does not hide it. */
  lemma {:induction false} ContainsPrepend(p: string, s: string, t: string)
    requires Contains(s, t)
    ensures Contains(p + s, t)
    decreases |p|
  {
    if |p| > 0 {
      ContainsPrepend(p[1..], s, t);
      assert (p + s)[1..] == p[1..] + s;
    } else {
      assert p + s == s;
    }
  }

  /** A text shorter than t does not contain it. */
  lemma {:induction false} ShorterDoesNotContain(s: string, t: string)
    requires |s| < |t|
    ensures !Contains(s, t)
    decreases |s|
  {
    if |s| > 0 {
      ShorterDoesNotContain(s[1..], t);
    }
  }

  /** Past a non-matching first character, the search goes on in the rest. */
  lemma NotContainsPastHead(w: string, u: string, rest: string, t: string)
    requires |t| > 0 && t[0] !in u && !Contains(rest, t)
    requires |w| > 0 && !StartsWith(w, t) && w[1..] == u + rest
    ensures !Contains(w, t)
  {
    ContainsAfterPlain(u, rest, t);
  }

  /** Text that does not hold the first character of t cannot hold the start of an
      occurrence of t. */
  lemma {:induction false} ContainsAfterPlain(u: string, v: string, t: string)
    requires |t| > 0 && t[0] !in u
    ensures Contains(u + v, t) <==> Contains(v, t)
    decreases |u|
  {
    if |u| > 0 {
      assert u[0] in u;
      assert (u + v)[1..] == u[1..] + v;
      assert forall c :: c in u[1..] ==> c in u;
      ContainsAfterPlain(u[1..], v, t);
    } else {
      assert u + v == v;
    }
  }

  /** Python's `s.replace(pat, rep)` for a nonempty pat: every occurrence, scanned left
      to right and not overlapping, is replaced; the replacement text is not scanned again. */
  function ReplaceAll(s: string, pat: string, rep: string): string
    requires |pat| > 0
    decreases |s|
  {
    if StartsWith(s, pat) then rep + ReplaceAll(s[|pat|..], pat, rep)
    else if |s| == 0 then ""
    else [s[0]] + ReplaceAll(s[1..], pat, rep)
  }

  /** Text free of the pattern's first character is copied unchanged. */
  lemma {:induction false} ReplaceAfterPlain(u: string, v: string, pat: string, rep: string)
    requires |pat| > 0 && pat[0] !in u
    ensures ReplaceAll(u + v, pat, rep) == u + ReplaceAll(v, pat, rep)
    decreases |u|
  {
    if |u| > 0 {
      assert u[0] in u;
      assert (u + v)[0] == u[0] && (u + v)[1..] == u[1..] + v;
      assert forall c :: c in u[1..] ==> c in u;
      ReplaceAfterPlain(u[1..], v, pat, rep);
      assert [u[0]] + u[1..] == u;
    } else {
      assert u + v == v;
    }
  }

  /** Replacing a pattern that does not occur changes nothing. */
  lemma {:induction false} ReplaceAbsent(s: string, pat: string, rep: string)
    requires |pat| > 0 && !Contains(s, pat)
    ensures ReplaceAll(s, pat, rep) == s
    decreases |s|
  {
    if |s| > 0 {
      ReplaceAbsent(s[1..], pat, rep);
      assert [s[0]] + s[1..] == s;
    }
  }

  /** Replacing a pattern by itself changes nothing. */
  lemma {:induction false} ReplaceBySelf(s: string, pat: string)
    requires |pat| > 0
    ensures ReplaceAll(s, pat, pat) == s
    decreases |s|
  {
    if pat <= s {
      ReplaceBySelf(s[|pat|..], pat);
      assert pat + s[|pat|..] == s;
    } else if |s| > 0 {
      ReplaceBySelf(s[1..], pat);
      assert [s[0]] + s[1..] == s;
    }
  }

  /** Appending text after a position where t does not start cannot make it start there. */
  lemma NotStartsWithPrefix(a: string, b: string, t: string)
    requires |t| <= |a| && !StartsWith(a, t)
    ensures !StartsWith(a + b, t)
  {
  }

  /** Text before the first occurrence is kept, the occurrence is replaced, and scanning
      resumes right after it. The first occurrence is the one at |u| when no
      occurrence starts inside u, that is when u + pat without its last character does
      not contain pat. */
  lemma {:induction false} ReplaceFirstOccurrence(u: string, v: string, pat: string, rep: string)
    requires |pat| > 0
    requires !Contains(u + pat[..|pat| - 1], pat)
    ensures ReplaceAll(u + pat + v, pat, rep) == u + rep + ReplaceAll(v, pat, rep)
    decreases |u|
  {
    var s := u + pat + v;
    var w := u + pat[..|pat| - 1];
    if |u| == 0 {
      assert s == pat + v && StartsWith(s, pat);
      assert s[|pat|..] == v;
    } else {
      assert !StartsWith(w, pat);
      assert s == w + ([pat[|pat| - 1]] + v);
      NotStartsWithPrefix(w, [pat[|pat| - 1]] + v, pat);
      assert s[1..] == u[1..] + pat + v;
      assert w[1..] == u[1..] + pat[..|pat| - 1];
      assert !Contains(w[1..], pat);
      ReplaceFirstOccurrence(u[1..], v, pat, rep);
      calc {
        ReplaceAll(s, pat, rep);
        [s[0]] + ReplaceAll(s[1..], pat, rep);
        [u[0]] + (u[1..] + rep + ReplaceAll(v, pat, rep));
        { assert [u[0]] + u[1..] == u; }
        u + rep + ReplaceAll(v, pat, rep);
      }
    }
  }

  /** Python's `sep.join(parts)`. */
  function Join(sep: string, parts: seq<string>): string
  {
    if |parts| == 0 then ""
    else if |parts| == 1 then parts[0]
    else parts[0] + sep + Join(sep, parts[1..])
  }

  /** Appending a part appends the separator and the part. */
  lemma {:induction false} JoinSnoc(sep: string, parts: seq<string>, x: string)
    ensures Join(sep, parts + [x]) == if |parts| == 0 then x else Join(sep, parts) + sep + x
    decreases |parts|
  {
    if |parts| > 1 {
      assert (parts + [x])[1..] == parts[1..] + [x];
      JoinSnoc(sep, parts[1..], x);
    } else if |parts| == 1 {
      assert (parts + [x])[1..] == [x];
    }
  }

  /** The joined text begins with the first part and ends with the last. */
  lemma {:induction false} JoinEnds(sep: string, parts: seq<string>)
    requires |parts| > 0
    ensures parts[0] <= Join(sep, parts)
    ensures var j := Join(sep, parts); var l := parts[|parts| - 1];
            |l| <= |j| && j[|j| - |l|..] == l
    decreases |parts|
  {
    if |parts| > 1 {
      JoinEnds(sep, parts[1..]);
      var j := Join(sep, parts);
      var l := parts[|parts| - 1];
      var rest := Join(sep, parts[1..]);
      assert j == (parts[0] + sep) + rest;
      assert j[|j| - |l|..] == rest[|rest| - |l|..];
    }
  }

  /** Every part occurs in the joined text. */
  lemma {:induction false} JoinContainsParts(sep: string, parts: seq<string>, i: nat)
    requires i < |parts|
    ensures Contains(Join(sep, parts), parts[i])
    decreases |parts|
  {
    if i == 0 {
      JoinEnds(sep, parts);
    } else {
      JoinContainsParts(sep, parts[1..], i - 1);
      ContainsPrepend(parts[0] + sep, Join(sep, parts[1..]), parts[i]);
    }
  }

  /** Python's `s.split(c)` for a one-character separator: the maximal pieces between
      separators; always at least one piece, `""` gives `[""]`. */
  function Split(s: string, c: char): (r: seq<string>)
    ensures |r| > 0
    decreases |s|
  {
    if |s| == 0 then [""]
    else if s[0] == c then [""] + Split(s[1..], c)
    else var rest := Split(s[1..], c); [[s[0]] + rest[0]] + rest[1..]
  }

  /** Joining the pieces of a split gives the text back. */
  lemma {:induction false} JoinSplit(s: string, c: char)
    ensures Join([c], Split(s, c)) == s
    decreases |s|
  {
    if |s| > 0 {
      var rest := Split(s[1..], c);
      JoinSplit(s[1..], c);
      if s[0] != c {
        var r := Split(s, c);
        assert r[1..] == rest[1..];
        if |rest| > 1 {
          assert rest == [rest[0]] + rest[1..];
        }
      }
    }
  }

  /** Splitting a join gives the parts back when no part contains the separator. */
  lemma {:induction false} SplitJoin(parts: seq<string>, c: char)
    requires |parts| > 0
    requires forall i, k :: 0 <= i < |parts| && 0 <= k < |parts[i]| ==> parts[i][k] != c
    ensures Split(Join([c], parts), c) == parts
    decreases |parts|
  {
    if |parts| == 1 {
      SplitPlain(parts[0], [], c);
      assert Split([], c) == [""];
      assert parts[0] + [] == parts[0];
    } else {
      var tail := Join([c], parts[1..]);
      SplitJoin(parts[1..], c);
      assert Split([c] + tail, c) == [""] + parts[1..] by {
        assert ([c] + tail)[1..] == tail;
      }
      SplitPlain(parts[0], [c] + tail, c);
      var r := [""] + parts[1..];
      assert r[0] == "" && r[1..] == parts[1..];
      assert parts[0] + "" == parts[0];
      assert Join([c], parts) == parts[0] + ([c] + tail);
      assert parts == [parts[0]] + parts[1..];
    }
  }

  /** A separator-free prefix sticks to the first piece. */
  lemma {:induction false} SplitPlain(u: string, v: string, c: char)
    requires forall k :: 0 <= k < |u| ==> u[k] != c
    ensures var r := Split(v, c); Split(u + v, c) == [u + r[0]] + r[1..]
    decreases |u|
  {
    if |u| == 0 {
      var r := Split(v, c);
      assert u + v == v && u + r[0] == r[0];
      assert r == [r[0]] + r[1..];
    } else {
      SplitPlain(u[1..], v, c);
      assert (u + v)[1..] == u[1..] + v;
      assert [u[0]] + (u[1..] + Split(v, c)[0]) == u + Split(v, c)[0];
    }
  }
}
