/** `processEmphasisMarks` (src/takahashi.js:78-87): the inline rewrites applied to slide titles and
    subtitles, in this order: `**x**` to bold, `*x*` to italic, `+x+` to strike-through and a
    doubled backslash to a forced line break. Each rewrite is global, left to right, never
    overlapping, and takes the shortest non-empty content that contains no line terminator. */
module Emphasis {
  import opened Text
  import opened Pattern

  /** The last rewrite, `/\\\\/g` to `<br/>`: every pair of backslashes becomes a line break. */
  function BreakRewrite(s: String): (r: String)
  {
    ReplaceLiteral(s, "\\\\", "<br/>")
  }

  function ProcessEmphasisMarks(line: String): (r: String)
  {
    var bold := ReplaceSpans(line, "**", "**", "<b>", "</b>");
    var italic := ReplaceSpans(bold, "*", "*", "<i>", "</i>");
    var strike := ReplaceSpans(italic, "+", "+", "<s>", "</s>");
    BreakRewrite(strike)
  }

  /** No two adjacent backslashes. */
  predicate NoDoubleBackslash(s: String)
  {
    forall j :: 0 <= j < |s| - 1 ==> !(s[j] == '\\' && s[j + 1] == '\\')
  }

  /** The line-break rewrite leaves no pair of backslashes behind: a backslash it keeps is never
      followed by another one. */
  lemma {:induction false} BreakRewriteComplete(s: String)
    ensures NoDoubleBackslash(BreakRewrite(s))
    decreases |s|
  {
    var r := BreakRewrite(s);
    if StartsWith(s, "\\\\") {
      BreakRewriteComplete(s[2..]);
      assert r == "<br/>" + BreakRewrite(s[2..]);
    } else if |s| > 0 {
      var t := s[1..];
      BreakRewriteComplete(t);
      assert r == [s[0]] + BreakRewrite(t);
      if s[0] == '\\' && |t| > 0 {
        assert t[0] != '\\' by { assert s[..2] != "\\\\"; }
        assert !StartsWith(t, "\\\\");
        assert BreakRewrite(t)[0] == t[0];
      }
    }
  }

  /** Applying the line-break rewrite twice gives the same text as applying it once. */
  lemma BreakRewriteIdempotent(s: String)
    ensures BreakRewrite(BreakRewrite(s)) == BreakRewrite(s)
  {
    var r := BreakRewrite(s);
    BreakRewriteComplete(s);
    forall j | 0 <= j <= |r| ensures !OccursAt(r, "\\\\", j) {
      if j + 2 <= |r| { assert r[j..][..2] == [r[j], r[j + 1]]; }
    }
    ReplaceLiteralUnchanged(r, "\\\\", "<br/>");
  }

  /** Text with no `*`, `+` or backslash: nothing for the rewrites to act on. */
  predicate Plain(s: String)
  {
    forall i :: 0 <= i < |s| ==> s[i] != '*' && s[i] != '+' && s[i] != '\\'
  }

  /** Text that can be the content of an emphasis span: plain, non-empty and without line
      terminators. */
  predicate Word(w: String)
  {
    |w| >= 1 && Plain(w) && forall k :: 0 <= k < |w| ==> !IsLineTerminator(w[k])
  }

  /** A line with no `*`, `+` or backslash comes back unchanged. */
  lemma PlainTextUnchanged(line: String)
    requires Plain(line)
    ensures ProcessEmphasisMarks(line) == line
  {
    assert ReplaceSpans(line, "**", "**", "<b>", "</b>") == line by {
      ReplaceSpansWithoutOpenChar(line, "**", "**", "<b>", "</b>");
    }
    assert ReplaceSpans(line, "*", "*", "<i>", "</i>") == line by {
      ReplaceSpansWithoutOpenChar(line, "*", "*", "<i>", "</i>");
    }
    assert ReplaceSpans(line, "+", "+", "<s>", "</s>") == line by {
      ReplaceSpansWithoutOpenChar(line, "+", "+", "<s>", "</s>");
    }
    PlainBreakUnchanged(line);
  }


  /** The line-break rewrite leaves plain text alone. */
  lemma PlainBreakUnchanged(s: String)
    requires Plain(s)
    ensures BreakRewrite(s) == s
  {
    forall j | 0 <= j <= |s| ensures !OccursAt(s, "\\\\", j) {
      if j < |s| { assert s[j..][0] == s[j]; }
    }
    ReplaceLiteralUnchanged(s, "\\\\", "<br/>");
  }

  /** No occurrence of the character `c`. */
  predicate Lacks(s: String, c: char)
  {
    forall i :: 0 <= i < |s| ==> s[i] != c
  }

  /** Two texts without `c` put together have no `c`. */
  lemma LacksAppend(x: String, y: String, c: char)
    requires Lacks(x, c) && Lacks(y, c)
    ensures Lacks(x + y, c)
  {
    forall i | 0 <= i < |x + y| ensures (x + y)[i] != c {
      if i < |x| { assert (x + y)[i] == x[i]; } else { assert (x + y)[i] == y[i - |x|]; }
    }
  }

  /** A word between two copies of a delimiter, between texts, has no `c` when none of the parts
      has one. */
  lemma LacksAround(a: String, d: String, w: String, b: String, c: char)
    requires Lacks(a, c) && Lacks(d, c) && Lacks(w, c) && Lacks(b, c)
    ensures Lacks(a + d + w + d + b, c)
  {
    LacksAppend(a, d, c);
    LacksAppend(a + d, w, c);
    LacksAppend(a + d + w, d, c);
    LacksAppend(a + d + w + d, b, c);
  }

  /** The tags the rewrites insert hold no `*`, `+` or backslash. */
  lemma TagsArePlain(tag: String)
    requires tag in ["<b>", "</b>", "<i>", "</i>", "<s>", "</s>"]
    ensures Plain(tag)
  {
  }

  /** Plain texts put together stay plain. */
  lemma PlainJoin(a: String, open: String, w: String, close: String, b: String)
    requires Plain(a) && Plain(open) && Plain(w) && Plain(close) && Plain(b)
    ensures Plain(a + open + w + close + b)
  {
  }

  /** Two single asterisks around a non-empty plain word are never adjacent. */
  lemma NoDoubleStar(a: String, w: String, b: String)
    requires Plain(a) && Word(w) && Plain(b)
    ensures var s := a + "*" + w + "*" + b; forall j :: 0 <= j < |s| ==> !StartsWith(s[j..], "**")
  {
    var s := a + "*" + w + "*" + b;
    forall j | 0 <= j < |s| ensures !StartsWith(s[j..], "**") {
      if j + 2 <= |s| {
        assert s[j..][..2] == [s[j], s[j + 1]];
        if j == |a| { assert s[j + 1] == w[0]; }
        else if j < |a| { assert s[j] == a[j]; }
        else if j < |a| + 1 + |w| { assert s[j] == w[j - |a| - 1]; }
        else if j == |a| + 1 + |w| { assert s[j + 1] == b[0]; }
        else { assert s[j] == b[j - |a| - 2 - |w|]; }
      }
    }
  }

  /** `*w*` between plain texts becomes `<i>w</i>`. */
  lemma ItalicWord(a: String, w: String, b: String)
    requires Plain(a) && Word(w) && Plain(b)
    ensures ProcessEmphasisMarks(a + "*" + w + "*" + b) == a + "<i>" + w + "</i>" + b
  {
    var s := a + "*" + w + "*" + b;
    var t := a + "<i>" + w + "</i>" + b;
    assert ReplaceSpans(s, "**", "**", "<b>", "</b>") == s by {
      NoDoubleStar(a, w, b);
      ReplaceSpansUnchanged(s, "**", "**", "<b>", "</b>");
    }
    assert ReplaceSpans(s, "*", "*", "<i>", "</i>") == t by {
      ReplaceSpansOfWord(a, "*", w, "*", b, "<i>", "</i>");
      ReplaceSpansWithoutOpenChar(b, "*", "*", "<i>", "</i>");
    }
    TagsArePlain("<i>");
    TagsArePlain("</i>");
    PlainJoin(a, "<i>", w, "</i>", b);
    assert ReplaceSpans(t, "+", "+", "<s>", "</s>") == t by {
      ReplaceSpansWithoutOpenChar(t, "+", "+", "<s>", "</s>");
    }
    PlainBreakUnchanged(t);
  }

  /** `**w**` between plain texts becomes `<b>w</b>`. */
  lemma BoldWord(a: String, w: String, b: String)
    requires Plain(a) && Word(w) && Plain(b)
    ensures ProcessEmphasisMarks(a + "**" + w + "**" + b) == a + "<b>" + w + "</b>" + b
  {
    var s := a + "**" + w + "**" + b;
    var t := a + "<b>" + w + "</b>" + b;
    assert ReplaceSpans(s, "**", "**", "<b>", "</b>") == t by {
      ReplaceSpansOfWord(a, "**", w, "**", b, "<b>", "</b>");
      ReplaceSpansWithoutOpenChar(b, "**", "**", "<b>", "</b>");
    }
    TagsArePlain("<b>");
    TagsArePlain("</b>");
    PlainJoin(a, "<b>", w, "</b>", b);
    assert ReplaceSpans(t, "*", "*", "<i>", "</i>") == t by {
      ReplaceSpansWithoutOpenChar(t, "*", "*", "<i>", "</i>");
    }
    assert ReplaceSpans(t, "+", "+", "<s>", "</s>") == t by {
      ReplaceSpansWithoutOpenChar(t, "+", "+", "<s>", "</s>");
    }
    PlainBreakUnchanged(t);
  }

  /** `+w+` between plain texts becomes `<s>w</s>`. */
  lemma StrikeWord(a: String, w: String, b: String)
    requires Plain(a) && Word(w) && Plain(b)
    ensures ProcessEmphasisMarks(a + "+" + w + "+" + b) == a + "<s>" + w + "</s>" + b
  {
    var s := a + "+" + w + "+" + b;
    var t := a + "<s>" + w + "</s>" + b;
    assert Lacks(s, '*') by {
      assert Lacks("+", '*');
      LacksAround(a, "+", w, b, '*');
    }
    assert ReplaceSpans(s, "**", "**", "<b>", "</b>") == s by {
      ReplaceSpansWithoutOpenChar(s, "**", "**", "<b>", "</b>");
    }
    assert ReplaceSpans(s, "*", "*", "<i>", "</i>") == s by {
      ReplaceSpansWithoutOpenChar(s, "*", "*", "<i>", "</i>");
    }
    assert ReplaceSpans(s, "+", "+", "<s>", "</s>") == t by {
      ReplaceSpansOfWord(a, "+", w, "+", b, "<s>", "</s>");
      ReplaceSpansWithoutOpenChar(b, "+", "+", "<s>", "</s>");
    }
    TagsArePlain("<s>");
    TagsArePlain("</s>");
    PlainJoin(a, "<s>", w, "</s>", b);
    PlainBreakUnchanged(t);
  }

  /** A doubled backslash between plain texts becomes `<br/>`. */
  lemma ForcedBreak(a: String, b: String)
    requires Plain(a) && Plain(b)
    ensures ProcessEmphasisMarks(a + "\\\\" + b) == a + "<br/>" + b
  {
    var s := a + "\\\\" + b;
    assert Lacks(s, '*') && Lacks(s, '+') by {
      LacksAppend(a, "\\\\", '*');
      LacksAppend(a + "\\\\", b, '*');
      LacksAppend(a, "\\\\", '+');
      LacksAppend(a + "\\\\", b, '+');
    }
    assert ReplaceSpans(s, "**", "**", "<b>", "</b>") == s by {
      ReplaceSpansWithoutOpenChar(s, "**", "**", "<b>", "</b>");
    }
    assert ReplaceSpans(s, "*", "*", "<i>", "</i>") == s by {
      ReplaceSpansWithoutOpenChar(s, "*", "*", "<i>", "</i>");
    }
    assert ReplaceSpans(s, "+", "+", "<s>", "</s>") == s by {
      ReplaceSpansWithoutOpenChar(s, "+", "+", "<s>", "</s>");
    }
    BreakAfterPlain(a, b);
  }

  /** Plain text before a doubled backslash is copied, the pair becomes `<br/>`, and plain text
      after it is copied. */
  lemma {:induction false} BreakAfterPlain(a: String, b: String)
    requires Plain(a) && Plain(b)
    ensures BreakRewrite(a + "\\\\" + b) == a + "<br/>" + b
    decreases |a|
  {
    var s := a + "\\\\" + b;
    if |a| == 0 {
      assert s == "\\\\" + b;
      assert s[..2] == "\\\\" && s[2..] == b;
      PlainBreakUnchanged(b);
    } else {
      assert s[0] == a[0] != '\\';
      assert !StartsWith(s, "\\\\");
      assert s[1..] == a[1..] + "\\\\" + b;
      BreakAfterPlain(a[1..], b);
    }
  }
}
