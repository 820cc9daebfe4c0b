/** Properties of the parser, stated on the specification functions of module Parser. */
module ParserProperties {
  import opened Wrappers
  import opened Text
  import opened Emphasis
  import opened Parser

  /** A line that adds a slide when it is read outside a code block: a heading (which includes the
      fullscreen-image marker `# ![](`) or an opening fence. */
  predicate OpensSlide(line: String)
  {
    StartsWith(line, "# ") || StartsWith(line, "```")
  }

  /** The number of slide-opening lines that are read outside a code block, tracking fences
      separately from the parser. */
  function Openers(lines: seq<String>, inCode: bool): nat
    decreases |lines|
  {
    if |lines| == 0 then 0
    else if inCode then Openers(lines[1..], !StartsWith(lines[0], "```"))
    else if StartsWith(lines[0], "```") then 1 + Openers(lines[1..], true)
    else (if StartsWith(lines[0], "# ") then 1 else 0) + Openers(lines[1..], false)
  }

  /** The four prefixes exclude one another: they differ in their first character. */
  lemma PrefixesDisjoint(line: String)
    ensures StartsWith(line, "# ") ==> !StartsWith(line, "![](") && !StartsWith(line, "- ") && !StartsWith(line, "```")
    ensures StartsWith(line, "![](") ==> !StartsWith(line, "- ") && !StartsWith(line, "```")
    ensures StartsWith(line, "- ") ==> !StartsWith(line, "```")
    ensures StartsWith(line, "# ![](") ==> StartsWith(line, "# ")
  {
    if |line| > 0 {
      assert StartsWith(line, "# ") ==> line[0] == '#';
      assert StartsWith(line, "![](") ==> line[0] == '!';
      assert StartsWith(line, "- ") ==> line[0] == '-';
      assert StartsWith(line, "```") ==> line[0] == '`';
    }
    if StartsWith(line, "# ![](") {
      assert line[..2] == line[..6][..2];
    }
  }

  /** One line appends exactly one slide when it opens one outside a code block, and otherwise
      keeps the count; either way every slide before the last is untouched, and an appended slide
      leaves all earlier slides as they were. A fence line toggles the code-block mode. */
  lemma StepChangesOnlyLast(st: State, line: String, at: nat)
    requires Step(st, line, at).Ok?
    ensures var after := Step(st, line, at).value.slides;
      var n := |st.slides|;
      && (!st.inCode && OpensSlide(line) ==> |after| == n + 1 && after[..n] == st.slides)
      && (st.inCode || !OpensSlide(line) ==> |after| == n)
      && forall i :: 0 <= i < n - 1 ==> after[i] == st.slides[i]
    ensures Step(st, line, at).value.inCode == (st.inCode != StartsWith(line, "```"))
  {
    PrefixesDisjoint(line);
  }

  /** The source throws exactly when an image line does not match the image pattern, or when an
      image line or subtitle line finds no slide to change. */
  lemma StepFailsExactly(st: State, line: String, at: nat)
    requires !st.inCode
    ensures Step(st, line, at).Err? <==>
      || ((StartsWith(line, "# ![](") || StartsWith(line, "![](")) && ImageUrl(line).None?)
      || ((StartsWith(line, "![](") || StartsWith(line, "- ")) && |st.slides| == 0)
  {
    PrefixesDisjoint(line);
  }

  /** Because `# ![](` is tested before `# `, a fullscreen-image line adds a fullscreen-image slide,
      never a normal one, and its URL is the captured image pattern. */
  lemma FullscreenBeforeHeading(st: State, line: String, at: nat)
    requires !st.inCode && StartsWith(line, "# ![](") && Step(st, line, at).Ok?
    ensures var after := Step(st, line, at).value.slides;
      && after[|after| - 1].kind == FullscreenImage
      && after[|after| - 1].imgUrl == ImageUrl(line)
      && after[|after| - 1].title.None?
  {
    PrefixesDisjoint(line);
  }

  /** A heading line adds a normal slide titled with the emphasis-processed text after `# `. */
  lemma HeadingAddsNormal(st: State, line: String, at: nat)
    requires !st.inCode && StartsWith(line, "# ") && !StartsWith(line, "# ![](")
    ensures Step(st, line, at) == Ok(State(st.slides + [NormalSlide(ProcessEmphasisMarks(line[2..]))], false))
  {
    PrefixesDisjoint(line);
  }

  /** An image line turns the last slide into an image-and-title slide with that URL and keeps
      its title, subtitle and code fields. */
  lemma ImageLineRetypesLast(st: State, line: String, at: nat)
    requires !st.inCode && StartsWith(line, "![](") && Step(st, line, at).Ok?
    ensures var after := Step(st, line, at).value.slides;
      var n := |st.slides|;
      && n > 0 && |after| == n
      && after[n - 1] == st.slides[n - 1].(kind := ImageAndTitle, imgUrl := ImageUrl(line))
  {
    PrefixesDisjoint(line);
  }

  /** A subtitle line sets the subtitle of the last slide only. */
  lemma SubtitleAttachesToLast(st: State, line: String, at: nat)
    requires !st.inCode && StartsWith(line, "- ") && |st.slides| > 0
    ensures Step(st, line, at).Ok?
    ensures var after := Step(st, line, at).value.slides;
      var n := |st.slides|;
      && |after| == n
      && after[n - 1] == st.slides[n - 1].(subtitle := Some(ProcessEmphasisMarks(line[2..])))
  {
    PrefixesDisjoint(line);
  }

  /** A line with none of the recognised prefixes is skipped and changes nothing. */
  lemma OtherLinesIgnored(st: State, line: String, at: nat)
    requires !st.inCode
    requires !StartsWith(line, "# ") && !StartsWith(line, "![](") && !StartsWith(line, "- ") && !StartsWith(line, "```")
    ensures Step(st, line, at) == Ok(st)
  {
    PrefixesDisjoint(line);
  }

  /** Over a whole walk the slide count grows by the number of slide-opening lines read outside
      code blocks, and no slide before the last one of the starting state is ever changed. */
  lemma {:induction false} ParseFromGrowth(lines: seq<String>, st: State, at: nat)
    requires ParseFrom(lines, st, at).Ok?
    ensures var after := ParseFrom(lines, st, at).value.slides;
      && |after| == |st.slides| + Openers(lines, st.inCode)
      && forall i :: 0 <= i < |st.slides| - 1 ==> after[i] == st.slides[i]
    decreases |lines|
  {
    if |lines| > 0 {
      var next := Step(st, lines[0], at).value;
      StepChangesOnlyLast(st, lines[0], at);
      ParseFromGrowth(lines[1..], next, at + 1);
    }
  }

  /** The slide count of a parsed document is its number of slide-opening lines outside code
      blocks. */
  lemma ParseCountsOpeners(lines: seq<String>)
    requires Parse(lines).Ok?
    ensures |Parse(lines).value| == Openers(lines, false)
  {
    ParseFromGrowth(lines, State([], false), 0);
  }

  /** Each inner line of a code block followed by a newline. */
  function Terminated(body: seq<String>): String
    decreases |body|
  {
    if |body| == 0 then [] else body[0] + "\n" + Terminated(body[1..])
  }

  /** Appending every line with "\n" and then dropping the last character joins the lines with
      "\n"; no lines give the empty text. */
  lemma {:induction false} DropLastTerminated(body: seq<String>)
    ensures DropLast(Terminated(body)) == Join(body, "\n")
    decreases |body|
  {
    if |body| == 1 {
      assert Terminated(body) == body[0] + "\n" + [];
      assert Terminated(body)[..|Terminated(body)| - 1] == body[0];
    } else if |body| > 1 {
      var t := Terminated(body[1..]);
      DropLastTerminated(body[1..]);
      assert |t| > 0 by { assert t == body[1] + "\n" + Terminated(body[2..]); }
      assert Terminated(body) == (body[0] + "\n") + t;
      DropLastAppend(body[0] + "\n", t);
    }
  }

  /** Dropping the last character of a text whose second part is not empty drops it from that part. */
  lemma DropLastAppend(p: String, t: String)
    requires |t| > 0
    ensures DropLast(p + t) == p + DropLast(t)
  {
    assert (p + t)[..|p + t| - 1] == p + t[..|t| - 1];
  }

  /** A walk whose first line steps to `next` goes on from `next` with the remaining lines. */
  lemma ParseFromOk(line: String, tail: seq<String>, st: State, at: nat, next: State)
    requires Step(st, line, at) == Ok(next)
    ensures ParseFrom([line] + tail, st, at) == ParseFrom(tail, next, at + 1)
  {
    assert ([line] + tail)[0] == line && ([line] + tail)[1..] == tail;
  }

  /** Replacing the last slide of `prior + [s]`. */
  lemma SetLastOfAppend(prior: seq<Slide>, s: Slide, s': Slide)
    ensures Last(prior + [s]) == s
    ensures SetLast(prior + [s], s') == prior + [s']
  {
    assert (prior + [s])[..|prior|] == prior;
  }

  /** Inside a code block, a line that does not start with three backticks is appended to the
      code of the last slide, followed by a newline. */
  lemma CodeLineAppends(prior: seq<Slide>, language: String, acc: String, line: String, tail: seq<String>, at: nat)
    requires !StartsWith(line, "```")
    ensures ParseFrom([line] + tail, State(prior + [CodeSlide(language, acc)], true), at)
         == ParseFrom(tail, State(prior + [CodeSlide(language, acc + line + "\n")], true), at + 1)
  {
    var next := State(prior + [CodeSlide(language, acc + line + "\n")], true);
    assert Step(State(prior + [CodeSlide(language, acc)], true), line, at) == Ok(next) by {
      SetLastOfAppend(prior, CodeSlide(language, acc), CodeSlide(language, acc + line + "\n"));
    }
    ParseFromOk(line, tail, State(prior + [CodeSlide(language, acc)], true), at, next);
  }

  /** Inside a code block, a line starting with three backticks closes the block and drops the
      last character of the code. */
  lemma CodeLineCloses(prior: seq<Slide>, language: String, acc: String, line: String, tail: seq<String>, at: nat)
    requires StartsWith(line, "```")
    ensures ParseFrom([line] + tail, State(prior + [CodeSlide(language, acc)], true), at)
         == ParseFrom(tail, State(prior + [CodeSlide(language, DropLast(acc))], false), at + 1)
  {
    var next := State(prior + [CodeSlide(language, DropLast(acc))], false);
    assert Step(State(prior + [CodeSlide(language, acc)], true), line, at) == Ok(next) by {
      SetLastOfAppend(prior, CodeSlide(language, acc), CodeSlide(language, DropLast(acc)));
    }
    ParseFromOk(line, tail, State(prior + [CodeSlide(language, acc)], true), at, next);
  }

  /** Inside a code block every line is appended verbatim, whatever it looks like, until a line
      starting with three backticks closes the block. */
  lemma {:induction false} CodeBodyAccumulates(prior: seq<Slide>, language: String, acc: String,
                                               body: seq<String>, close: String, rest: seq<String>, at: nat)
    requires forall k :: 0 <= k < |body| ==> !StartsWith(body[k], "```")
    requires StartsWith(close, "```")
    ensures ParseFrom(body + [close] + rest, State(prior + [CodeSlide(language, acc)], true), at)
         == ParseFrom(rest, State(prior + [CodeSlide(language, DropLast(acc + Terminated(body)))], false), at + |body| + 1)
    decreases |body|
  {
    if |body| == 0 {
      assert body + [close] + rest == [close] + rest;
      assert acc + Terminated(body) == acc;
      CodeLineCloses(prior, language, acc, close, rest, at);
    } else {
      var acc' := acc + body[0] + "\n";
      var tail := body[1..] + [close] + rest;
      assert body + [close] + rest == [body[0]] + tail;
      CodeLineAppends(prior, language, acc, body[0], tail, at);
      CodeBodyAccumulates(prior, language, acc', body[1..], close, rest, at + 1);
      assert acc' + Terminated(body[1..]) == acc + Terminated(body) by {
        assert Terminated(body) == body[0] + "\n" + Terminated(body[1..]);
        RegroupFour(acc, body[0], "\n", Terminated(body[1..]));
      }
      assert at + 1 + |body[1..]| + 1 == at + |body| + 1;
    }
  }

  /** A fenced block becomes one code-block slide whose language is the text after the opening
      backticks and whose code is the inner lines joined with "\n"; parsing then resumes after the
      closing fence, whatever follows its three backticks. */
  lemma CodeBlockJoinsLines(prior: seq<Slide>, language: String, body: seq<String>, close: String,
                            rest: seq<String>, at: nat)
    requires forall k :: 0 <= k < |body| ==> !StartsWith(body[k], "```")
    requires StartsWith(close, "```")
    ensures ParseFrom(["```" + language] + body + [close] + rest, State(prior, false), at)
         == ParseFrom(rest, State(prior + [CodeSlide(language, Join(body, "\n"))], false), at + |body| + 2)
  {
    var fence := "```" + language;
    var st := State(prior + [CodeSlide(language, "")], true);
    assert [fence] + body + [close] + rest == [fence] + (body + [close] + rest);
    FenceOpens(prior, language, at);
    ParseFromOk(fence, body + [close] + rest, State(prior, false), at, st);
    CodeBodyAccumulates(prior, language, "", body, close, rest, at + 1);
    assert "" + Terminated(body) == Terminated(body);
    DropLastTerminated(body);
  }

  /** Outside a code block, three backticks open a code-block slide whose language is the rest of
      the line. */
  lemma FenceOpens(prior: seq<Slide>, language: String, at: nat)
    ensures Step(State(prior, false), "```" + language, at) == Ok(State(prior + [CodeSlide(language, "")], true))
  {
    var fence := "```" + language;
    assert StartsWith(fence, "```") && fence[3..] == language;
    PrefixesDisjoint(fence);
    assert fence != "";
    assert !StartsWith(fence, "# ![](") by { assert fence[0] == '`'; }
  }

  /** An opening fence with no closing fence after it makes the parse fail. */
  lemma {:induction false} UnclosedFenceFails(prior: seq<Slide>, language: String, acc: String,
                                              body: seq<String>, at: nat)
    requires forall k :: 0 <= k < |body| ==> !StartsWith(body[k], "```")
    ensures ParseFrom(body, State(prior + [CodeSlide(language, acc)], true), at) == Err(UnterminatedFence)
    decreases |body|
  {
    if |body| > 0 {
      var acc' := acc + body[0] + "\n";
      assert body == [body[0]] + body[1..];
      CodeLineAppends(prior, language, acc, body[0], body[1..], at);
      UnclosedFenceFails(prior, language, acc', body[1..], at + 1);
    }
  }
}

/** Whole small documents, for any text in the places the markup leaves open. */
module ParserExamples {
  import opened Wrappers
  import opened Text
  import opened Pattern
  import opened Emphasis
  import opened Parser
  import ParserProperties

  /** "# title\n- subtitle\n" is one normal slide with both texts emphasis-processed; the empty
      line after the last newline is skipped. */
  lemma HeadingWithSubtitle(title: String, sub: String)
    requires Lacks(title, '\n') && Lacks(sub, '\n') && !StartsWith(title, "![](")
    ensures ParseDocument("# " + title + "\n" + "- " + sub + "\n")
         == Ok([NormalSlide(ProcessEmphasisMarks(title)).(subtitle := Some(ProcessEmphasisMarks(sub)))])
  {
    var l0, l1 := "# " + title, "- " + sub;
    assert Split("# " + title + "\n" + "- " + sub + "\n", "\n") == [l0, l1, ""] by {
      assert "# " + title + "\n" + "- " + sub + "\n" == l0 + "\n" + l1 + "\n" by {
        Regroup("# " + title + "\n", "- ", sub, "\n", []);
      }
      LacksAppend("# ", title, '\n');
      LacksAppend("- ", sub, '\n');
      LinesOfTwoLineDocument(l0, l1);
    }
    HeadingAndSubtitleLines(title, sub);
  }

  /** The lines "# title", "- subtitle" and "" give one normal slide with a subtitle. */
  lemma HeadingAndSubtitleLines(title: String, sub: String)
    requires !StartsWith(title, "![](")
    ensures Parse(["# " + title, "- " + sub, ""])
         == Ok([NormalSlide(ProcessEmphasisMarks(title)).(subtitle := Some(ProcessEmphasisMarks(sub)))])
  {
    var l0, l1 := "# " + title, "- " + sub;
    var heading := NormalSlide(ProcessEmphasisMarks(title));
    var st1 := State([heading], false);
    var st2 := State([heading.(subtitle := Some(ProcessEmphasisMarks(sub)))], false);
    assert ParseFrom([l0, l1, ""], State([], false), 0) == ParseFrom([l1, ""], st1, 1) by {
      HeadingStep([], title, 0);
      assert [] + [heading] == [heading];
      assert [l0, l1, ""] == [l0] + [l1, ""];
      ParserProperties.ParseFromOk(l0, [l1, ""], State([], false), 0, st1);
    }
    assert ParseFrom([l1, ""], st1, 1) == ParseFrom([""], st2, 2) by {
      SubtitleStep([], heading, sub, 1);
      assert [] + [heading] == [heading];
      assert [] + st2.slides == st2.slides;
      assert [l1, ""] == [l1] + [""];
      ParserProperties.ParseFromOk(l1, [""], st1, 1, st2);
    }
    assert ParseFrom([""], st2, 2) == Ok(st2) by {
      assert Step(st2, "", 2) == Ok(st2);
      assert [""] == [""] + [];
      ParserProperties.ParseFromOk("", [], st2, 2, st2);
    }
  }

  /** Two newline-free lines, each ended by "\n", split into the two lines and an empty one. */
  lemma LinesOfTwoLineDocument(l0: String, l1: String)
    requires Lacks(l0, '\n') && Lacks(l1, '\n')
    ensures Split(l0 + "\n" + l1 + "\n", "\n") == [l0, l1, ""]
  {
    var lines := [l0, l1, ""];
    assert Join(lines[2..], "\n") == "";
    assert Join(lines[1..], "\n") == l1 + "\n" + "";
    assert Join(lines, "\n") == l0 + "\n" + l1 + "\n";
    JoinThenSplit(lines, '\n');
  }

  /** A heading line "# title" appends a normal slide with the emphasis-processed title. */
  lemma HeadingStep(prior: seq<Slide>, title: String, at: nat)
    requires !StartsWith(title, "![](")
    ensures Step(State(prior, false), "# " + title, at)
         == Ok(State(prior + [NormalSlide(ProcessEmphasisMarks(title))], false))
  {
    var l := "# " + title;
    assert StartsWith(l, "# ") && l[2..] == title;
    assert !StartsWith(l, "# ![](");
    ParserProperties.HeadingAddsNormal(State(prior, false), l, at);
  }

  /** A subtitle line "- sub" sets the subtitle of the last slide to the emphasis-processed text. */
  lemma SubtitleStep(prior: seq<Slide>, last: Slide, sub: String, at: nat)
    ensures Step(State(prior + [last], false), "- " + sub, at)
         == Ok(State(prior + [last.(subtitle := Some(ProcessEmphasisMarks(sub)))], false))
  {
    var l := "- " + sub;
    assert StartsWith(l, "- ") && l[2..] == sub;
    ParserProperties.SubtitleAttachesToLast(State(prior + [last], false), l, at);
    ParserProperties.SetLastOfAppend(prior, last, last.(subtitle := Some(ProcessEmphasisMarks(sub))));
    var after := Step(State(prior + [last], false), l, at).value;
    assert after.slides == prior + [last.(subtitle := Some(ProcessEmphasisMarks(sub)))];
    assert !after.inCode by {
      ParserProperties.StepChangesOnlyLast(State(prior + [last], false), l, at);
      assert !StartsWith(l, "```") by { assert l[0] == '-'; }
    }
  }

  /** An image line "![](url)..." turns the last slide into an image-and-title slide. */
  lemma ImageStep(prior: seq<Slide>, last: Slide, url: String, rest: String, at: nat)
    requires SpanContent(url, ')')
    ensures Step(State(prior + [last], false), "![](" + url + ")" + rest, at)
         == Ok(State(prior + [last.(kind := ImageAndTitle, imgUrl := Some(url))], false))
  {
    var l := "![](" + url + ")" + rest;
    assert ImageUrl(l) == Some(url) by {
      assert l == [] + "![](" + url + ")" + rest;
      CaptureOfWord([], "![](", url, ")", rest);
    }
    assert StartsWith(l, "![](") && l[0] == '!';
    ParserProperties.PrefixesDisjoint(l);
    ParserProperties.SetLastOfAppend(prior, last, last.(kind := ImageAndTitle, imgUrl := Some(url)));
  }

  /** "# title" then "![](url)" is one image-and-title slide. */
  lemma HeadingThenImage(title: String, url: String, rest: String)
    requires !StartsWith(title, "![](") && SpanContent(url, ')')
    ensures Parse(["# " + title, "![](" + url + ")" + rest])
         == Ok([Slide(ImageAndTitle, Some(ProcessEmphasisMarks(title)), None, Some(url), None, None)])
  {
    var l0, l1 := "# " + title, "![](" + url + ")" + rest;
    var heading := NormalSlide(ProcessEmphasisMarks(title));
    var st1 := State([heading], false);
    var st2 := State([Slide(ImageAndTitle, Some(ProcessEmphasisMarks(title)), None, Some(url), None, None)], false);
    assert ParseFrom([l0, l1], State([], false), 0) == ParseFrom([l1], st1, 1) by {
      HeadingStep([], title, 0);
      assert [] + [heading] == [heading];
      assert [l0, l1] == [l0] + [l1];
      ParserProperties.ParseFromOk(l0, [l1], State([], false), 0, st1);
    }
    assert ParseFrom([l1], st1, 1) == Ok(st2) by {
      ImageStep([], heading, url, rest, 1);
      assert [] + [heading] == [heading];
      assert heading.(kind := ImageAndTitle, imgUrl := Some(url)) == st2.slides[0];
      assert [] + st2.slides == st2.slides;
      assert [l1] == [l1] + [];
      ParserProperties.ParseFromOk(l1, [], st1, 1, st2);
    }
  }

  /** "# ![](url)..." alone is one fullscreen-image slide, whatever follows the `)`. */
  lemma FullscreenImageAlone(url: String, rest: String)
    requires SpanContent(url, ')')
    ensures Parse(["# ![](" + url + ")" + rest]) == Ok([FullscreenSlide(url)])
  {
    var l := "# ![](" + url + ")" + rest;
    var st := State([FullscreenSlide(url)], false);
    assert Step(State([], false), l, 0) == Ok(st) by {
      assert ImageUrl(l) == Some(url) by {
        assert l == "# " + "![](" + url + ")" + rest;
        CaptureOfWord("# ", "![](", url, ")", rest);
      }
      assert StartsWith(l, "# ![](") && l != "";
      assert [] + [FullscreenSlide(url)] == st.slides;
    }
    assert [l] == [l] + [];
    ParserProperties.ParseFromOk(l, [], State([], false), 0, st);
  }

  /** An image line before any slide makes the parse fail at that line. */
  lemma ImageFirstFails(url: String, rest: String)
    requires SpanContent(url, ')')
    ensures Parse(["![](" + url + ")" + rest]) == Err(NoPreviousSlide(0))
  {
    var l := "![](" + url + ")" + rest;
    assert Step(State([], false), l, 0) == Err(NoPreviousSlide(0)) by {
      assert ImageUrl(l) == Some(url) by {
        assert l == [] + "![](" + url + ")" + rest;
        CaptureOfWord([], "![](", url, ")", rest);
      }
      assert StartsWith(l, "![](") && l[0] == '!';
      ParserProperties.PrefixesDisjoint(l);
    }
  }

  /** A fenced block alone is one code-block slide holding the inner lines joined with "\n". */
  lemma FencedBlockAlone(language: String, body: seq<String>)
    requires forall k :: 0 <= k < |body| ==> !StartsWith(body[k], "```")
    ensures Parse(["```" + language] + body + ["```"]) == Ok([CodeSlide(language, Join(body, "\n"))])
  {
    var lines := ["```" + language] + body + ["```"];
    var slide := CodeSlide(language, Join(body, "\n"));
    assert ParseFrom(lines, State([], false), 0) == ParseFrom([], State([] + [slide], false), |body| + 2) by {
      ParserProperties.CodeBlockJoinsLines([], language, body, "```", [], 0);
      assert lines + [] == lines;
    }
    assert [] + [slide] == [slide];
  }
}
