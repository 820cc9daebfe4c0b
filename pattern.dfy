/** The ECMAScript regular-expression behaviour the source relies on, for the three pattern shapes
    it uses: a lazy span `open(.+?)close`, a fixed literal, and a two-character class run (the last
    one lives beside its only user, in LineLength). A global `replace` scans left to right, takes
    the match that starts at the current position if there is one, and resumes right after it. */
module Pattern {
  import opened Wrappers
  import opened Text

  /** The characters that the regular-expression `.` refuses: the four ECMAScript line terminators. */
  predicate IsLineTerminator(c: char)
  {
    c == '\n' || c == '\r' || c == ' ' || c == ' '
  }

  /** `open(.+?)close` can match at the start of `s` with a captured content of `n` characters. */
  predicate IsSpan(s: String, open: String, close: String, n: nat)
  {
    1 <= n && StartsWith(s, open) && |open| + n <= |s| &&
    (forall k :: |open| <= k < |open| + n ==> !IsLineTerminator(s[k])) &&
    StartsWith(s[|open| + n..], close)
  }

  /** The match of the lazy pattern `open(.+?)close` anchored at the start of `s`: the length of
      the SHORTEST content that works, or None when no content works. */
  function SpanAt(s: String, open: String, close: String): (r: Option<nat>)
    ensures r.Some? ==> IsSpan(s, open, close, r.value)
    ensures r.Some? ==> forall m :: 1 <= m < r.value ==> !IsSpan(s, open, close, m)
    ensures r.None? ==> forall m :: !IsSpan(s, open, close, m)
  {
    if StartsWith(s, open) then LazyContent(s, open, close, 1) else None
  }

  /** The backtracking of `.+?`: content lengths below `n` have been tried and failed; try `n`. */
  function LazyContent(s: String, open: String, close: String, n: nat): (r: Option<nat>)
    requires StartsWith(s, open) && 1 <= n && |open| + n - 1 <= |s|
    requires forall k :: |open| <= k < |open| + n - 1 ==> !IsLineTerminator(s[k])
    requires forall m :: 1 <= m < n ==> !IsSpan(s, open, close, m)
    ensures r.Some? ==> IsSpan(s, open, close, r.value)
    ensures r.Some? ==> forall m :: 1 <= m < r.value ==> !IsSpan(s, open, close, m)
    ensures r.None? ==> forall m :: !IsSpan(s, open, close, m)
    decreases |s| - n
  {
    if |open| + n > |s| then None
    else if IsLineTerminator(s[|open| + n - 1]) then
      None
    else if StartsWith(s[|open| + n..], close) then Some(n)
    else LazyContent(s, open, close, n + 1)
  }

  /** `s.match(/open(.+?)close/)` searching from index `from`: the leftmost start position at
      which the span matches, with its content length. */
  function FindSpan(s: String, open: String, close: String, from: nat): (r: Option<(nat, nat)>)
    requires from <= |s|
    ensures r.Some? ==> from <= r.value.0 <= |s| && IsSpan(s[r.value.0..], open, close, r.value.1)
    ensures r.Some? ==> forall m :: 1 <= m < r.value.1 ==> !IsSpan(s[r.value.0..], open, close, m)
    ensures r.Some? ==> forall p, m :: from <= p < r.value.0 ==> !IsSpan(s[p..], open, close, m)
    ensures r.None? ==> forall p, m :: from <= p <= |s| ==> !IsSpan(s[p..], open, close, m)
    decreases |s| - from
  {
    match SpanAt(s[from..], open, close)
    case Some(n) => Some((from, n))
    case None => if from == |s| then None else FindSpan(s, open, close, from + 1)
  }

  /** The first capture group of `s.match(/open(.+?)close/)`, or None where `match` gives null. */
  function Capture(s: String, open: String, close: String): (r: Option<String>)
    ensures r.Some? <==> exists p, m :: 0 <= p <= |s| && IsSpan(s[p..], open, close, m)
    ensures r.Some? ==> 1 <= |r.value| && forall k :: 0 <= k < |r.value| ==> !IsLineTerminator(r.value[k])
    ensures r.Some? ==> exists p, n :: FindSpan(s, open, close, 0) == Some((p, n)) && r.value == s[p..][|open|..|open| + n]
  {
    match FindSpan(s, open, close, 0)
    case Some((p, n)) =>
      var t := s[p..];
      assert forall k :: |open| <= k < |open| + n ==> !IsLineTerminator(t[k]);
      Some(t[|open|..|open| + n])
    case None => None
  }

  /** `s.replace(/open(.+?)close/g, before + "$1" + after)`. */
  function ReplaceSpans(s: String, open: String, close: String, before: String, after: String): (r: String)
    decreases |s|
  {
    if |s| == 0 then []
    else match SpanAt(s, open, close)
      case Some(n) =>
        before + s[|open|..|open| + n] + after + ReplaceSpans(s[|open| + n + |close|..], open, close, before, after)
      case None => [s[0]] + ReplaceSpans(s[1..], open, close, before, after)
  }

  /** `s.replace(/open.+?close/g, "")`. */
  function RemoveSpans(s: String, open: String, close: String): (r: String)
    decreases |s|
  {
    if |s| == 0 then []
    else match SpanAt(s, open, close)
      case Some(n) => RemoveSpans(s[|open| + n + |close|..], open, close)
      case None => [s[0]] + RemoveSpans(s[1..], open, close)
  }

  /** `s.replace(/pat/g, rep)` for a pattern that is a fixed non-empty string. */
  function ReplaceLiteral(s: String, pat: String, rep: String): (r: String)
    requires |pat| > 0
    decreases |s|
  {
    if StartsWith(s, pat) then rep + ReplaceLiteral(s[|pat|..], pat, rep)
    else if |s| == 0 then []
    else [s[0]] + ReplaceLiteral(s[1..], pat, rep)
  }

  /** Text before the first opening character is copied verbatim: no span can start inside it. */
  lemma {:induction false} ReplaceSpansPlainPrefix(a: String, b: String, open: String, close: String, before: String, after: String)
    requires |open| > 0
    requires forall i :: 0 <= i < |a| ==> a[i] != open[0]
    ensures ReplaceSpans(a + b, open, close, before, after) == a + ReplaceSpans(b, open, close, before, after)
    decreases |a|
  {
    if |a| > 0 {
      var s := a + b;
      assert s[0] == a[0] != open[0];
      assert SpanAt(s, open, close).None?;
      assert s[1..] == a[1..] + b;
      ReplaceSpansPlainPrefix(a[1..], b, open, close, before, after);
    } else {
      assert a + b == b;
    }
  }

  /** A text in which the opening delimiter never occurs is left unchanged by a span rewrite. */
  lemma {:induction false} ReplaceSpansUnchanged(s: String, open: String, close: String, before: String, after: String)
    requires |open| > 0
    requires forall j :: 0 <= j < |s| ==> !StartsWith(s[j..], open)
    ensures ReplaceSpans(s, open, close, before, after) == s
    decreases |s|
  {
    if |s| > 0 {
      assert s[0..] == s;
      forall j | 0 <= j < |s[1..]| ensures !StartsWith(s[1..][j..], open) {
        assert s[1..][j..] == s[j + 1..];
      }
      ReplaceSpansUnchanged(s[1..], open, close, before, after);
    }
  }

  /** A text without the opening delimiter's first character is left unchanged by a span rewrite. */
  lemma {:induction false} ReplaceSpansWithoutOpenChar(s: String, open: String, close: String, before: String, after: String)
    requires |open| > 0
    requires forall i :: 0 <= i < |s| ==> s[i] != open[0]
    ensures ReplaceSpans(s, open, close, before, after) == s
  {
    forall j | 0 <= j < |s| ensures !StartsWith(s[j..], open) { assert s[j..][0] == s[j]; }
    ReplaceSpansUnchanged(s, open, close, before, after);
  }

  /** Removing spans never lengthens a text, and a text without the opening character is kept. */
  lemma {:induction false} RemoveSpansShortens(s: String, open: String, close: String)
    ensures |RemoveSpans(s, open, close)| <= |s|
    ensures |open| > 0 && (forall i :: 0 <= i < |s| ==> s[i] != open[0]) ==> RemoveSpans(s, open, close) == s
    decreases |s|
  {
    if |s| > 0 {
      match SpanAt(s, open, close)
      case Some(n) =>
        RemoveSpansAtSpan(s, open, close, n);
        RemoveSpansShortens(s[|open| + n + |close|..], open, close);
        if |open| > 0 {
          assert s[0] == open[0] by { assert StartsWith(s, open); }
        }
      case None =>
        RemoveSpansNoSpan(s, open, close);
        RemoveSpansShortens(s[1..], open, close);
        assert [s[0]] + s[1..] == s;
    }
  }

  /** One step of span removal where the span matches: the rewrite goes on after the closing delimiter. */
  lemma {:induction false} RemoveSpansAtSpan(s: String, open: String, close: String, n: nat)
    requires SpanAt(s, open, close) == Some(n)
    ensures |open| + n + |close| <= |s|
    ensures RemoveSpans(s, open, close) == RemoveSpans(s[|open| + n + |close|..], open, close)
  {
    assert |s| > 0;
  }

  /** One step of span removal where no span starts: the first character is kept. */
  lemma {:induction false} RemoveSpansNoSpan(s: String, open: String, close: String)
    requires |s| > 0 && SpanAt(s, open, close).None?
    ensures RemoveSpans(s, open, close) == [s[0]] + RemoveSpans(s[1..], open, close)
  {
  }

  /** A text without any occurrence of the literal pattern is left unchanged. */
  lemma {:induction false} ReplaceLiteralUnchanged(s: String, pat: String, rep: String)
    requires |pat| > 0
    requires forall j :: 0 <= j <= |s| ==> !OccursAt(s, pat, j)
    ensures ReplaceLiteral(s, pat, rep) == s
    decreases |s|
  {
    assert !OccursAt(s, pat, 0);
    if |s| > 0 {
      forall j | 0 <= j <= |s[1..]| ensures !OccursAt(s[1..], pat, j) {
        assert s[1..][j..] == s[j + 1..];
        assert !OccursAt(s, pat, j + 1);
      }
      ReplaceLiteralUnchanged(s[1..], pat, rep);
    }
  }

  /** Text that the lazy span takes whole as its content when the closing delimiter starts with
      `c`: non-empty, with no line terminator and no `c`. */
  predicate SpanContent(w: String, c: char)
  {
    |w| >= 1 && forall k :: 0 <= k < |w| ==> !IsLineTerminator(w[k]) && w[k] != c
  }

  /** A delimited word whose content has no line terminator and does not contain the closing
      delimiter's first character is the lazy pattern's match, with exactly that content. */
  lemma {:induction false} SpanOfWord(open: String, w: String, close: String, rest: String)
    requires |close| > 0 && SpanContent(w, close[0])
    ensures SpanAt(open + w + close + rest, open, close) == Some(|w|)
  {
    var t := open + w + close + rest;
    assert t[..|open|] == open;
    assert t[|open| + |w|..][..|close|] == close;
    assert forall k :: |open| <= k < |open| + |w| ==> t[k] == w[k - |open|];
    assert IsSpan(t, open, close, |w|);
    forall m | 1 <= m < |w| ensures !IsSpan(t, open, close, m) {
      assert t[|open| + m..][0] == w[m];
    }
  }

  /** No span starts inside a prefix that holds no opening character. */
  lemma {:induction false} NoSpanInPlainPrefix(a: String, t: String, open: String, close: String)
    requires |open| > 0
    requires forall i :: 0 <= i < |a| ==> a[i] != open[0]
    ensures forall p, m :: 0 <= p < |a| ==> !IsSpan((a + t)[p..], open, close, m)
  {
    forall p, m | 0 <= p < |a| ensures !IsSpan((a + t)[p..], open, close, m) {
      assert (a + t)[p..][0] == a[p];
    }
  }

  /** The converse of FindSpan's contract: the leftmost start at which the span matches, with the
      shortest content there, is what FindSpan returns. */
  lemma {:induction false} FindSpanIsLeftmost(s: String, open: String, close: String, start: nat, n: nat)
    requires start <= |s| && IsSpan(s[start..], open, close, n)
    requires forall m :: 1 <= m < n ==> !IsSpan(s[start..], open, close, m)
    requires forall p, m :: 0 <= p < start ==> !IsSpan(s[p..], open, close, m)
    ensures FindSpan(s, open, close, 0) == Some((start, n))
  {
    var r := FindSpan(s, open, close, 0);
    assert r.Some?;
    assert r.value.0 == start;
    assert r.value.1 == n by {
      assert !(r.value.1 < n);
    }
  }

  /** The first capture of `open(.+?)close` in a text whose part before the word holds no
      opening character is the delimited word. */
  lemma {:induction false} CaptureOfWord(a: String, open: String, w: String, close: String, rest: String)
    requires |open| > 0 && |close| > 0
    requires forall i :: 0 <= i < |a| ==> a[i] != open[0]
    requires SpanContent(w, close[0])
    ensures Capture(a + open + w + close + rest, open, close) == Some(w)
  {
    var t := open + w + close + rest;
    var s := a + t;
    assert a + open + w + close + rest == s;
    assert s[|a|..] == t;
    SpanOfWord(open, w, close, rest);
    NoSpanInPlainPrefix(a, t, open, close);
    FindSpanIsLeftmost(s, open, close, |a|, |w|);
    assert t[|open|..|open| + |w|] == w;
  }

  /** A delimited word after plain text is rewritten to the tagged word, and the rewrite carries
      on after the closing delimiter. */
  lemma {:induction false} ReplaceSpansOfWord(a: String, open: String, w: String, close: String, rest: String, before: String, after: String)
    requires |open| > 0 && |close| > 0
    requires forall i :: 0 <= i < |a| ==> a[i] != open[0]
    requires SpanContent(w, close[0])
    ensures ReplaceSpans(a + open + w + close + rest, open, close, before, after)
         == a + before + w + after + ReplaceSpans(rest, open, close, before, after)
  {
    var t := open + w + close + rest;
    var tagged := before + w + after;
    var tail := ReplaceSpans(rest, open, close, before, after);
    assert ReplaceSpans(a + t, open, close, before, after) == a + ReplaceSpans(t, open, close, before, after) by {
      ReplaceSpansPlainPrefix(a, t, open, close, before, after);
    }
    assert ReplaceSpans(t, open, close, before, after) == tagged + tail by {
      ReplaceSpansOfLeadingWord(open, w, close, rest, before, after);
    }
    Regroup(a, open, w, close, rest);
    Regroup(a, before, w, after, tail);
  }

  /** A text that starts with a delimited word: the word is tagged and the rewrite goes on after
      the closing delimiter. */
  lemma {:induction false} ReplaceSpansOfLeadingWord(open: String, w: String, close: String, rest: String, before: String, after: String)
    requires |close| > 0 && SpanContent(w, close[0])
    ensures ReplaceSpans(open + w + close + rest, open, close, before, after)
         == before + w + after + ReplaceSpans(rest, open, close, before, after)
  {
    var t := open + w + close + rest;
    assert SpanAt(t, open, close) == Some(|w|) by { SpanOfWord(open, w, close, rest); }
    assert t[|open|..|open| + |w|] == w && t[|open| + |w| + |close|..] == rest by {
      PartsOfFour(open, w, close, rest);
    }
    ReplaceSpansAtSpan(t, open, close, before, after, |w|);
  }

  /** One step of the global rewrite at a position where the span matches: its content is tagged
      and the rewrite goes on after the closing delimiter. */
  lemma {:induction false} ReplaceSpansAtSpan(s: String, open: String, close: String, before: String, after: String, n: nat)
    requires SpanAt(s, open, close) == Some(n)
    requires |open| + n + |close| <= |s|
    ensures ReplaceSpans(s, open, close, before, after)
         == before + s[|open|..|open| + n] + after + ReplaceSpans(s[|open| + n + |close|..], open, close, before, after)
  {
    assert |s| > 0;
  }

  /** Where the pattern matches nowhere, the global rewrite leaves the text unchanged. */
  lemma {:induction false} ReplaceSpansNoMatch(s: String, open: String, close: String, before: String, after: String)
    requires FindSpan(s, open, close, 0).None?
    ensures ReplaceSpans(s, open, close, before, after) == s
    decreases |s|
  {
    if |s| > 0 {
      assert s[0..] == s;
      assert SpanAt(s, open, close).None?;
      var t := s[1..];
      forall q, m | 0 <= q <= |t| ensures !IsSpan(t[q..], open, close, m) {
        assert t[q..] == s[q + 1..];
      }
      assert FindSpan(t, open, close, 0).None?;
      ReplaceSpansNoMatch(t, open, close, before, after);
      assert [s[0]] + t == s;
    }
  }

  /** The leftmost match of a text that does not start with one is the leftmost match of the text
      after its first character, one position earlier. */
  lemma {:induction false} FindSpanAfterFirst(s: String, open: String, close: String, p: nat, n: nat)
    requires FindSpan(s, open, close, 0) == Some((p, n)) && p > 0
    ensures FindSpan(s[1..], open, close, 0) == Some((p - 1, n))
  {
    var t := s[1..];
    assert t[p - 1..] == s[p..];
    forall q, m | 0 <= q < p - 1 ensures !IsSpan(t[q..], open, close, m) {
      assert t[q..] == s[q + 1..];
    }
    FindSpanIsLeftmost(t, open, close, p - 1, n);
  }

  /** The global rewrite copies the text before the leftmost match, tags that match's content, and
      goes on after its closing delimiter. */
  lemma {:induction false} ReplaceSpansAtFirstMatch(s: String, open: String, close: String, before: String, after: String,
                                                    p: nat, n: nat)
    requires FindSpan(s, open, close, 0) == Some((p, n))
    ensures p + |open| + n + |close| <= |s|
    ensures ReplaceSpans(s, open, close, before, after)
         == s[..p] + before + s[p + |open|..p + |open| + n] + after
            + ReplaceSpans(s[p + |open| + n + |close|..], open, close, before, after)
  {
    ReplaceSpansAtLeftmost(s, open, close, before, after, p, n);
  }

  /** The same, for a start `p` and a content length `n` given by their properties: no span
      starts before `p`, and `n` is the shortest content with which the span matches at `p`. */
  lemma {:induction false} ReplaceSpansAtLeftmost(s: String, open: String, close: String, before: String, after: String,
                                                  p: nat, n: nat)
    requires p <= |s| && IsSpan(s[p..], open, close, n)
    requires forall m :: 1 <= m < n ==> !IsSpan(s[p..], open, close, m)
    requires forall q, m :: 0 <= q < p ==> !IsSpan(s[q..], open, close, m)
    ensures p + |open| + n + |close| <= |s|
    ensures ReplaceSpans(s, open, close, before, after)
         == s[..p] + before + s[p + |open|..p + |open| + n] + after
            + ReplaceSpans(s[p + |open| + n + |close|..], open, close, before, after)
  {
    var u := s[p..];
    var mid := s[p + |open|..p + |open| + n];
    var tail := s[p + |open| + n + |close|..];
    var rs := ReplaceSpans(tail, open, close, before, after);
    ReplaceSpansCopiesPrefix(s, open, close, before, after, p);
    ReplaceSpansAtShortest(u, open, close, before, after, n);
    assert u[|open|..|open| + n] == mid && u[|open| + n + |close|..] == tail;
    Regroup(s[..p], before, mid, after, rs);
  }

  /** A text at whose start the span matches with shortest content `n`: that content is tagged and
      the rewrite goes on after the closing delimiter. */
  lemma {:induction false} ReplaceSpansAtShortest(u: String, open: String, close: String, before: String, after: String,
                                                  n: nat)
    requires IsSpan(u, open, close, n)
    requires forall m :: 1 <= m < n ==> !IsSpan(u, open, close, m)
    ensures |open| + n + |close| <= |u|
    ensures ReplaceSpans(u, open, close, before, after)
         == before + u[|open|..|open| + n] + after + ReplaceSpans(u[|open| + n + |close|..], open, close, before, after)
  {
    SpanAtOfShortest(u, open, close, n);
    ReplaceSpansAtSpan(u, open, close, before, after, n);
  }

  /** The shortest content with which the span matches at the start is the match SpanAt finds. */
  lemma {:induction false} SpanAtOfShortest(u: String, open: String, close: String, n: nat)
    requires IsSpan(u, open, close, n)
    requires forall m :: 1 <= m < n ==> !IsSpan(u, open, close, m)
    ensures SpanAt(u, open, close) == Some(n)
  {
    var r := SpanAt(u, open, close);
    assert r.Some?;
    assert !(r.value < n);
    assert !(n < r.value);
  }

  /** The global rewrite copies a prefix at no position of which the pattern matches. */
  lemma {:induction false} ReplaceSpansCopiesPrefix(s: String, open: String, close: String, before: String, after: String,
                                                    p: nat)
    requires p <= |s|
    requires forall q, m :: 0 <= q < p ==> !IsSpan(s[q..], open, close, m)
    ensures ReplaceSpans(s, open, close, before, after) == s[..p] + ReplaceSpans(s[p..], open, close, before, after)
    decreases p
  {
    if p == 0 {
      assert s[..0] == [] && s[0..] == s;
    } else {
      var t := s[1..];
      assert ReplaceSpans(s, open, close, before, after) == [s[0]] + ReplaceSpans(t, open, close, before, after) by {
        assert s[0..] == s;
        assert SpanAt(s, open, close).None?;
      }
      forall q, m | 0 <= q < p - 1 ensures !IsSpan(t[q..], open, close, m) {
        assert t[q..] == s[q + 1..];
      }
      ReplaceSpansCopiesPrefix(t, open, close, before, after, p - 1);
      assert t[p - 1..] == s[p..];
      assert [s[0]] + t[..p - 1] == s[..p];
      Associate([s[0]], t[..p - 1], ReplaceSpans(s[p..], open, close, before, after));
    }
  }

  /** The second and the last part of a text put together from four parts. */
  lemma {:induction false} PartsOfFour(p: String, q: String, r: String, u: String)
    ensures (p + q + r + u)[|p|..|p| + |q|] == q
    ensures (p + q + r + u)[|p| + |q| + |r|..] == u
  {
  }
}
